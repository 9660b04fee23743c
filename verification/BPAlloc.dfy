/** Allocation of keys, records and nodes. Any allocation may fail; the choice is nondeterministic. */
module BPAlloc {
  import opened BPTypes
  import opened BPTree

  /** bptree.c _make_bkey */
  method MakeKey(t: BPlusTree, key: string) returns (q: Key?)
    modifies t`metaSize
    ensures t.H() == old(t.H())
    ensures q == null ==> t.metaSize == old(t.metaSize)
    ensures q != null ==> fresh(q) && q.key == key && q.refCount == 0 && t.metaSize == old(t.metaSize) + KeySize(q)
  {
    if * { return null; }
    q := new Key(key);
    t.metaSize := t.metaSize + KEY_SIZE + |key| + 1;
  }

  /** bptree.c _make_record */
  method MakeRecord(t: BPlusTree, data: int, dataSize: nat) returns (r: Record?)
    modifies t`metaSize, t`dataSize, t`numEntries
    ensures t.H() == old(t.H())
    ensures r == null ==>
      t.metaSize == old(t.metaSize) && t.dataSize == old(t.dataSize) && t.numEntries == old(t.numEntries)
    ensures r != null ==>
      && fresh(r) && r.data == data && r.dataSize == dataSize && r.refCount == 0
      && t.metaSize == old(t.metaSize) + RECORD_SIZE
      && t.dataSize == old(t.dataSize) + dataSize && t.numEntries == old(t.numEntries) + 1
  {
    if * { return null; }
    r := new Record(data, dataSize);
    t.metaSize := t.metaSize + RECORD_SIZE;
    t.dataSize := t.dataSize + dataSize;
    t.numEntries := t.numEntries + 1;
  }

  /** bptree.c _destroy_bkey: the object is released; only the accounting is left to do. */
  method DestroyKey(t: BPlusTree, q: Key)
    modifies t`metaSize
    ensures t.metaSize == old(t.metaSize) - KeySize(q) && t.H() == old(t.H())
  {
    t.metaSize := t.metaSize - (KEY_SIZE + |q.key| + 1);
  }

  /** bptree.c _destroy_record */
  method DestroyRecord(t: BPlusTree, r: Record)
    modifies t`metaSize, t`dataSize, t`numEntries
    ensures t.metaSize == old(t.metaSize) - RECORD_SIZE
    ensures t.dataSize == old(t.dataSize) - r.dataSize && t.numEntries == old(t.numEntries) - 1
    ensures t.H() == old(t.H())
  {
    t.metaSize := t.metaSize - RECORD_SIZE;
    t.dataSize := t.dataSize - r.dataSize;
    t.numEntries := t.numEntries - 1;
  }

  ghost const Fresh: NodeVal := NodeVal(false, [], [Null], Null, null, 0)

  /** bptree.c _make_node */
  method MakeNode(t: BPlusTree) returns (n: Node?)
    requires Allocated(t.nodes, t.order)
    modifies t`metaSize, t`nodes
    ensures n == null ==> t.nodes == old(t.nodes) && t.metaSize == old(t.metaSize) && t.H() == old(t.H())
    ensures n != null ==>
      && fresh(n) && fresh(n.bkeys) && fresh(n.pointers) && n !in old(t.nodes)
      && t.nodes == old(t.nodes) + {n} && Allocated(t.nodes, t.order)
      && Arrays(t.nodes) == old(Arrays(t.nodes)) + {n.bkeys, n.pointers}
      && t.metaSize == old(t.metaSize) + NodeSize(t.order)
      && n.Shape(t.order) && !n.isLeaf && n.numKeys == 0 && n.parent == null && n.level == 0 && n.pointers[0] == Null
      && n !in old(t.H()) && t.H() == old(t.H())[n := Fresh]
  {
    if * { return null; }
    hide *;
    OrderOf(t);
    ghost var h := t.H();
    SnapAll(t);
    ArraysKnown(t);
    n := new Node(t.order);
    SizesOf(n, t.order);
    ValOf(n, t.order);
    assert n.pointers[..1] == [Null];
    FreshIs();
    NodeSizeIs(t.order);
    t.metaSize := t.metaSize + NODE_SIZE + (t.order - 1) * POINTER_SIZE + t.order * POINTER_SIZE;
    Grown(t.nodes, t.order, n);
    t.nodes := t.nodes + {n};
    Added(t, h, n, Fresh);
  }

  lemma FreshIs()
    ensures Fresh == NodeVal(false, [], [Null], Null, null, 0)
  {
  }

  lemma ArraysKnown(t: BPlusTree)
    ensures forall m :: m in t.nodes ==> allocated(m) && allocated(m.bkeys) && allocated(m.pointers)
  {
  }

  lemma Grown(ns: set<Node>, order: nat, n: Node)
    requires Allocated(ns, order) && n !in ns && n.Sized(order)
    requires forall m :: m in ns ==> m.bkeys != n.bkeys && m.pointers != n.pointers
    ensures Allocated(ns + {n}, order) && Arrays(ns + {n}) == Arrays(ns) + {n.bkeys, n.pointers}
  {
  }

  lemma Added(t: BPlusTree, h: Heap, n: Node, v: NodeVal)
    requires t.nodes == h.Keys + {n} && n !in h && n.Val() == v
    requires forall m :: m in h ==> m.Val() == h[m]
    ensures t.H() == h[n := v]
  {
  }

  /** bptree.c _destroy_node, for a node that is out of the tree */
  method DestroyNode(t: BPlusTree, n: Node)
    requires Allocated(t.nodes, t.order) && n in t.nodes
    modifies t`metaSize, t`nodes
    ensures t.nodes == old(t.nodes) - {n} && Allocated(t.nodes, t.order)
    ensures t.metaSize == old(t.metaSize) - NodeSize(t.order)
    ensures t.H() == old(t.H()) - {n}
  {
    ghost var h := t.H();
    t.metaSize := t.metaSize - (NODE_SIZE + (t.order - 1) * POINTER_SIZE + t.order * POINTER_SIZE);
    t.nodes := t.nodes - {n};
    assert forall m :: m in t.nodes ==> m.Val() == h[m];
  }

  /** The heap h with the nodes of a list added to it. */
  ghost predicate ListMade(h: Heap, h': Heap, fl: seq<Node>) {
    && NodeList(h', fl)
    && (forall n :: n in fl ==> n !in h)
    && (forall n :: n in h' ==> n in h || n in fl)
    && forall n :: n in h ==> n in h' && h'[n] == h[n]
  }

  ghost function HeadPtr(fl: seq<Node>): Ptr {
    if fl == [] then Null else ToNode(fl[0])
  }

  lemma ListGrows(h0: Heap, h: Heap, fl: seq<Node>, n: Node)
    requires ListMade(h0, h, fl) && n !in h
    ensures ListMade(h0, h[n := NodeVal(false, [], [HeadPtr(fl)], Null, null, 0)], [n] + fl)
  {
    var fl' := [n] + fl;
    var h' := h[n := NodeVal(false, [], [HeadPtr(fl)], Null, null, 0)];
    forall i | 0 <= i < |fl'|
      ensures fl'[i] in h' && h'[fl'[i]] == NodeVal(false, [], [NextInList(fl', i)], Null, null, 0)
    {
      if i > 0 { assert fl'[i] == fl[i - 1] && NextInList(fl', i) == NextInList(fl, i - 1); }
    }
  }

  lemma ListShrinks(h0: Heap, h: Heap, fl: seq<Node>)
    requires ListMade(h0, h, fl) && fl != []
    ensures ListMade(h0, h - {fl[0]}, fl[1..])
  {
    hide NodeList;
    ListShorter(h, fl);
    TailMembers(fl) by { ListDistinct(h, fl); }
  }

  lemma ListDistinct(h: Heap, fl: seq<Node>)
    requires NodeList(h, fl)
    ensures forall i, j :: 0 <= i < j < |fl| ==> fl[i] != fl[j]
  {
  }

  lemma TailMembers(fl: seq<Node>)
    requires fl != [] && forall i, j :: 0 <= i < j < |fl| ==> fl[i] != fl[j]
    ensures forall n :: n in fl <==> n == fl[0] || n in fl[1..]
    ensures fl[0] !in fl[1..]
  {
    assert fl == [fl[0]] + fl[1..];
  }

  lemma ListShorter(h: Heap, fl: seq<Node>)
    requires NodeList(h, fl) && fl != []
    ensures NodeList(h - {fl[0]}, fl[1..])
  {
    var fl', h' := fl[1..], h - {fl[0]};
    forall i | 0 <= i < |fl'|
      ensures fl'[i] in h' && h'[fl'[i]] == NodeVal(false, [], [NextInList(fl', i)], Null, null, 0)
    {
      assert fl'[i] == fl[i + 1] && fl[0] != fl[i + 1] && NextInList(fl', i) == NextInList(fl, i + 1);
    }
  }

  /** bptree.c _make_node_list: all of the nodes, or none. */
  method MakeNodeList(t: BPlusTree, count: nat)
    returns (head: Node?, ghost fl: seq<Node>, ghost made: set<Node>)
    requires Allocated(t.nodes, t.order) && count > 0
    modifies t`metaSize, t`nodes
    ensures Allocated(t.nodes, t.order)
    ensures head == null ==> t.nodes == old(t.nodes) && t.metaSize == old(t.metaSize) && t.H() == old(t.H())
    ensures head != null ==> ListMade(old(t.H()), t.H(), fl) && head == Head(fl) && |fl| == count
    ensures head != null ==> t.metaSize == old(t.metaSize) + NodeBytes(t.order, count) && |t.nodes| == |old(t.nodes)| + count
    ensures t.nodes == old(t.nodes) + made
    ensures forall n :: n in made ==> fresh(n) && fresh(n.bkeys) && fresh(n.pointers)
  {
    hide *;
    ghost var h0 := t.H();
    made := {};
    ghost var ns := t.nodes;
    fl := [];
    head := null;
    var i := 0;
    NoList(t);
    NodeBytesAdd(t.order, 0, 0);
    while i < count
      invariant 0 <= i <= count && |fl| == i && head == Head(fl)
      invariant Allocated(t.nodes, t.order) && ListMade(h0, t.H(), fl) && h0.Keys == ns
      invariant t.nodes == ns + made && |t.nodes| == |ns| + i
      invariant forall n :: n in made ==> fresh(n) && fresh(n.bkeys) && fresh(n.pointers)
      invariant t.metaSize == old(t.metaSize) + NodeBytes(t.order, i)
    {
      var oldNode := head;
      head := AddToList(t, oldNode, fl, h0);
      if head == null {
        FreeNodeList(t, oldNode, fl, h0);
        assert t.nodes == ns;
        made := {};
        return;
      }
      ghost var n: Node := head;
      UnionAssoc(ns, made, {n});
      made := made + {n};
      HeadOf(n, fl);
      fl := [n] + fl;
      NodeBytesAdd(t.order, i, 1);
      i := i + 1;
    }
    if head == null { EmptyHead(fl); }
  }

  lemma UnionAssoc<T>(a: set<T>, b: set<T>, c: set<T>)
    ensures (a + b) + c == a + (b + c)
  {
  }

  lemma ArraysOfUnion(ns: set<Node>, made: set<Node>)
    ensures Arrays(ns + made) == Arrays(ns) + Arrays(made)
    ensures forall o :: o in Arrays(made) ==> exists n :: n in made && (o == n.bkeys || o == n.pointers)
  {
  }

  lemma NoList(t: BPlusTree)
    requires Allocated(t.nodes, t.order)
    ensures ListMade(t.H(), t.H(), []) && Head([]) == null && t.H().Keys == t.nodes && t.order >= 1
  {
  }

  lemma HeadOf(n: Node, fl: seq<Node>)
    ensures Head([n] + fl) == n
  {
  }

  lemma EmptyHead(fl: seq<Node>)
    ensures Head(fl) == null <==> fl == []
  {
  }

  /** One round of the loop: a fresh node in front of the list. */
  method AddToList(t: BPlusTree, oldNode: Node?, ghost fl: seq<Node>, ghost h0: Heap) returns (head: Node?)
    requires Allocated(t.nodes, t.order) && ListMade(h0, t.H(), fl) && oldNode == Head(fl)
    modifies t`metaSize, t`nodes
    ensures Allocated(t.nodes, t.order)
    ensures head == null ==>
      t.nodes == old(t.nodes) && t.metaSize == old(t.metaSize) && t.H() == old(t.H()) && Arrays(t.nodes) == old(Arrays(t.nodes))
    ensures head != null ==>
      && fresh(head) && fresh(head.bkeys) && fresh(head.pointers) && head !in old(t.nodes)
      && t.nodes == old(t.nodes) + {head} && ListMade(h0, t.H(), [head] + fl)
      && Arrays(t.nodes) == old(Arrays(t.nodes)) + {head.bkeys, head.pointers}
      && t.metaSize == old(t.metaSize) + NodeSize(t.order)
  {
    hide *;
    ghost var h := t.H();
    head := MakeNode(t);
    if head != null {
      ghost var h1 := t.H();
      SnapFacts(t, head);
      OrderOf(t);
      ValShape(head, t.order);
      head.pointers[0] := if oldNode == null then Null else ToNode(oldNode);
      FreshVal(head, t.order, fl);
      ghost var v := NodeVal(false, [], [HeadPtr(fl)], Null, null, 0);
      Changed(t, h1, head, v);
      assert h1[head := v] == h[head := v];
      ListGrows(h0, h, fl, head);
    }
  }

  lemma ValShape(n: Node, order: nat)
    requires n.Shape(order) && order >= 4
    ensures n.Sized(order) && n.pointers.Length > 0
  {
  }

  lemma FreshVal(n: Node, order: nat, fl: seq<Node>)
    requires n.Sized(order) && order >= 4 && !n.isLeaf && n.numKeys == 0 && n.parent == null && n.level == 0
    requires n.pointers[0] == if Head(fl) == null then Null else ToNode(Head(fl))
    ensures n.Val() == NodeVal(false, [], [HeadPtr(fl)], Null, null, 0)
  {
    ValOf(n, order);
    assert n.pointers[..1] == [HeadPtr(fl)];
  }

  /** The failure path of _make_node_list. */
  method FreeNodeList(t: BPlusTree, first: Node?, ghost list: seq<Node>, ghost h0: Heap)
    requires Allocated(t.nodes, t.order) && ListMade(h0, t.H(), list) && first == Head(list)
    modifies t`metaSize, t`nodes
    ensures Allocated(t.nodes, t.order) && t.H() == h0 && t.nodes == h0.Keys
    ensures t.metaSize == old(t.metaSize) - NodeBytes(t.order, |list|)
  {
    hide *;
    var oldNode := first;
    ghost var fl := list;
    ghost var gone := 0;
    OrderOf(t);
    NodeBytesAdd(t.order, 0, 0);
    while oldNode != null
      invariant Allocated(t.nodes, t.order) && ListMade(h0, t.H(), fl) && oldNode == Head(fl)
      invariant gone + |fl| == |list| && t.metaSize == old(t.metaSize) - NodeBytes(t.order, gone)
      decreases |fl|
    {
      var newNode := oldNode;
      NextOnList(t, h0, fl);
      oldNode := if newNode.pointers[0].ToNode? then newNode.pointers[0].node else null;
      ghost var h := t.H();
      DestroyNode(t, newNode);
      ListShrinks(h0, h, fl);
      fl := fl[1..];
      NodeBytesAdd(t.order, gone, 1);
      gone := gone + 1;
    }
    ListGone(t, h0, fl);
  }

  lemma OrderOf(t: BPlusTree)
    requires Allocated(t.nodes, t.order)
    ensures t.order >= 4
  {
  }

  lemma NextOnList(t: BPlusTree, h0: Heap, fl: seq<Node>)
    requires Allocated(t.nodes, t.order) && ListMade(h0, t.H(), fl) && Head(fl) != null
    ensures fl != [] && Head(fl) == fl[0] && fl[0] in t.nodes && fl[0].pointers.Length > 0
    ensures Head(fl[1..]) == if fl[0].pointers[0].ToNode? then fl[0].pointers[0].node else null
  {
    hide Separate;
    ListHead(t, fl);
  }

  lemma ListGone(t: BPlusTree, h0: Heap, fl: seq<Node>)
    requires ListMade(h0, t.H(), fl) && Head(fl) == null
    ensures fl == [] && t.H() == h0 && t.nodes == h0.Keys
  {
    assert t.H() == h0;
    assert t.H().Keys == t.nodes;
  }
}
