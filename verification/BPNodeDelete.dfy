/** Deletion inside one node, and the exchange of entries between two sibling nodes. */
module BPNodeDelete {
  import opened BPTypes
  import opened BPSlots
  import opened BPNodeInsert

  lemma IndexIs<T>(s: seq<T>, i: nat, j: nat)
    requires i < |s| && j < |s| && s[i] == s[j] && s[j] !in s[..i] && s[j] !in s[..j]
    ensures i == j
  {
  }

  /** bptree.c _remove_entry_from_node, for an internal node: key slot j and the pointer slot to its right go. */
  method RemoveInnerSlots(order: nat, n: Node, bkey: Key, victim: Node, ghost j: nat)
    requires n.Shape(order) && !n.isLeaf && order >= 4 && j < |n.Val().ks| && |n.Val().ks| == n.numKeys
    requires |n.Val().ps| == n.numKeys + 1
    requires n.Val().ks[j] == bkey && bkey !in n.Val().ks[..j]
    requires n.Val().ps[j + 1] == ToNode(victim) && ToNode(victim) !in n.Val().ps[..j + 1]
    modifies n`numKeys, n.bkeys, n.pointers
    ensures n.Shape(order)
    ensures n.Val() == old(n.Val()).(ks := Remove(old(n.Val()).ks, j), ps := Remove(old(n.Val()).ps, j + 1))
  {
    hide *;
    ghost var v := n.Val();
    SizesOf(n, order);
    ValOf(n, order);
    assert bkey in v.ks && ToNode(victim) in v.ps;
    var i := IndexOf(n.bkeys, n.numKeys, bkey);
    IndexIs(v.ks, i, j);
    RemoveSlot(n.bkeys, n.numKeys, i);
    assert n.bkeys[..n.numKeys - 1] == Remove(v.ks, j);
    i := IndexOf(n.pointers, n.numKeys + 1, ToNode(victim));
    IndexIs(v.ps, i, j + 1);
    RemoveSlot(n.pointers, n.numKeys + 1, i);
    assert n.pointers[..n.numKeys] == Remove(v.ps, j + 1);
    n.numKeys := n.numKeys - 1;
    ClearSlots(n.pointers, n.numKeys + 1, order, Null);
    ValOf(n, order);
  }

  /** bptree.c _remove_entry_from_node, for a leaf: the slot of the key, and the first slot that holds the record. The
      key that becomes the last one is returned if it has to take the removed key's place in the internal nodes. */
  method RemoveLeafSlots(order: nat, n: Node, bkey: Key, rec: Record) returns (swapped: Key?, ghost i: nat, ghost j: nat)
    requires n.Shape(order) && n.isLeaf && order >= 4 && null !in n.Val().ks
    requires |n.Val().ks| == |n.Val().ps| == n.numKeys && bkey in n.Val().ks && ToRecord(rec) in n.Val().ps
    requires n.parent != null ==> n.numKeys >= 2
    modifies n`numKeys, n.bkeys, n.pointers
    ensures n.Shape(order)
    ensures i < |old(n.Val()).ks| && old(n.Val()).ks[i] == bkey && bkey !in old(n.Val()).ks[..i]
    ensures j < |old(n.Val()).ps| && old(n.Val()).ps[j] == ToRecord(rec) && ToRecord(rec) !in old(n.Val()).ps[..j]
    ensures n.Val() == old(n.Val()).(ks := Remove(old(n.Val()).ks, i), ps := Remove(old(n.Val()).ps, j))
    ensures if n.parent != null && i == |old(n.Val()).ks| - 1 then i > 0 && swapped == old(n.Val()).ks[i - 1] else swapped == null
  {
    hide *;
    ghost var v := n.Val();
    SizesOf(n, order);
    ValOf(n, order);
    swapped := null;
    var x := IndexOf(n.bkeys, n.numKeys, bkey);
    i := x;
    if n.parent != null && x == n.numKeys - 1 {
      swapped := n.bkeys[x - 1];
      assert swapped == v.ks[x - 1];
    }
    RemoveSlot(n.bkeys, n.numKeys, x);
    x := IndexOf(n.pointers, n.numKeys, ToRecord(rec));
    j := x;
    assert n.pointers[order - 1] == n.pointers[n.numKeys..][order - 1 - n.numKeys];
    RemoveSlot(n.pointers, n.numKeys, x);
    assert n.pointers[order - 1] == n.pointers[n.numKeys..][order - 1 - n.numKeys];
    n.numKeys := n.numKeys - 1;
    ClearLeafSlots(order, n);
    ValOf(n, order);
  }

  /** bptree.c _coalesce_nodes, for leaves: a takes over what b holds. */
  method AppendLeaf(order: nat, a: Node, b: Node)
    requires a.Shape(order) && b.Shape(order) && a.isLeaf && b.isLeaf && order >= 4
    requires a != b && a.bkeys != b.bkeys && a.pointers != b.pointers && a.numKeys + b.numKeys <= order - 1
    modifies a`numKeys, a.bkeys, a.pointers
    ensures a.Shape(order)
    ensures a.Val() == old(a.Val()).(ks := old(a.Val()).ks + b.Val().ks, ps := old(a.Val()).ps + b.Val().ps, next := b.Val().next)
    ensures b.Val() == old(b.Val())
  {
    hide *;
    ghost var v := a.Val();
    SizesOf(a, order);
    SizesOf(b, order);
    ValOf(a, order);
    ValOf(b, order);
    var i := a.numKeys;
    AppendSlots(b.bkeys, b.numKeys, a.bkeys, i);
    AppendSlots(b.pointers, b.numKeys, a.pointers, i);
    a.numKeys := i + b.numKeys;
    a.pointers[order - 1] := b.pointers[order - 1];
    ValOf(a, order);
    ValOf(b, order);
  }

  /** bptree.c _coalesce_nodes, for internal nodes, up to re-parenting: the key between them and all of b's slots. */
  method AppendInner(order: nat, a: Node, b: Node, bkey: Key)
    requires a.Shape(order) && b.Shape(order) && !a.isLeaf && !b.isLeaf && order >= 4
    requires a != b && a.bkeys != b.bkeys && a.pointers != b.pointers && a.numKeys + b.numKeys < order - 1
    modifies a`numKeys, a.bkeys, a.pointers, b`numKeys, bkey`refCount
    ensures a.Shape(order) && b.Shape(order)
    ensures a.Val() == old(a.Val()).(ks := old(a.Val()).ks + [bkey] + old(b.Val()).ks, ps := old(a.Val()).ps + old(b.Val()).ps)
    ensures |old(b.Val()).ps| > 0 && b.Val() == old(b.Val()).(ks := [], ps := old(b.Val()).ps[..1])
    ensures bkey.refCount == old(bkey.refCount) + 1
  {
    hide *;
    ghost var v, w := a.Val(), b.Val();
    SizesOf(a, order);
    SizesOf(b, order);
    ValOf(a, order);
    ValOf(b, order);
    bkey.refCount := bkey.refCount + 1;
    var i := a.numKeys;
    a.bkeys[i] := bkey;
    assert a.bkeys[..i + 1] == v.ks + [bkey];
    AppendSlots(b.bkeys, b.numKeys, a.bkeys, i + 1);
    AppendSlots(b.pointers, b.numKeys + 1, a.pointers, i + 1);
    a.numKeys := i + 1 + b.numKeys;
    b.numKeys := 0;
    ValOf(a, order);
    ValOf(b, order);
    assert b.pointers[..1] == w.ps[..1];
  }

  // ----- Redistribution -----

  /** bptree.c _redistribute_nodes, leaves, n has a left neighbour: its last entry comes over. */
  method ShareLeafFromLeft(order: nat, a: Node, b: Node)
    requires a.Shape(order) && b.Shape(order) && a.isLeaf && b.isLeaf && order >= 4
    requires a != b && a.bkeys != b.bkeys && a.pointers != b.pointers && b.numKeys < order - 1 && a.numKeys >= 2
    modifies a`numKeys, a.pointers, b`numKeys, b.bkeys, b.pointers
    ensures a.Shape(order) && b.Shape(order)
    ensures var v, w, m := old(a.Val()), old(b.Val()), old(a.numKeys) - 1;
      && |v.ks| == |v.ps| == m + 1 && a.numKeys == m && m > 0 && a.bkeys[m - 1] == v.ks[m - 1]
      && a.Val() == v.(ks := v.ks[..m], ps := v.ps[..m]) && b.Val() == w.(ks := [v.ks[m]] + w.ks, ps := [v.ps[m]] + w.ps)
  {
    hide *;
    ghost var v, w := a.Val(), b.Val();
    SizesOf(a, order);
    SizesOf(b, order);
    ValOf(a, order);
    ValOf(b, order);
    assert b.pointers[order - 1] == b.pointers[b.numKeys + 1..][order - 2 - b.numKeys];
    PushFront(b.bkeys, b.numKeys, a.bkeys[a.numKeys - 1]);
    PushFront(b.pointers, b.numKeys, a.pointers[a.numKeys - 1]);
    assert b.pointers[order - 1] == b.pointers[b.numKeys + 1..][order - 2 - b.numKeys];
    a.pointers[a.numKeys - 1] := Null;
    b.numKeys := b.numKeys + 1;
    a.numKeys := a.numKeys - 1;
    ValOf(a, order);
    ValOf(b, order);
  }

  /** bptree.c _redistribute_nodes, leaves, n is the leftmost child: the neighbour's first entry comes over. */
  method ShareLeafFromRight(order: nat, a: Node, b: Node)
    requires a.Shape(order) && b.Shape(order) && a.isLeaf && b.isLeaf && order >= 4
    requires a != b && a.bkeys != b.bkeys && a.pointers != b.pointers && a.numKeys < order - 1 && b.numKeys >= 1
    modifies a`numKeys, a.bkeys, a.pointers, b`numKeys, b.bkeys, b.pointers
    ensures a.Shape(order) && b.Shape(order)
    ensures var v, w, m := old(a.Val()), old(b.Val()), old(a.numKeys);
      && |v.ks| == |v.ps| == m && |w.ks| == |w.ps| > 0 && a.numKeys == m + 1 && a.bkeys[m] == w.ks[0]
      && a.Val() == v.(ks := v.ks + [w.ks[0]], ps := v.ps + [w.ps[0]]) && b.Val() == w.(ks := w.ks[1..], ps := w.ps[1..])
  {
    hide *;
    ghost var v, w := a.Val(), b.Val();
    SizesOf(a, order);
    SizesOf(b, order);
    ValOf(a, order);
    ValOf(b, order);
    a.bkeys[a.numKeys] := b.bkeys[0];
    a.pointers[a.numKeys] := b.pointers[0];
    assert a.bkeys[..a.numKeys + 1] == v.ks + [w.ks[0]] && a.pointers[..a.numKeys + 1] == v.ps + [w.ps[0]];
    assert b.pointers[order - 1] == b.pointers[b.numKeys..][order - 1 - b.numKeys];
    PopFront(b.bkeys, b.numKeys);
    PopFront(b.pointers, b.numKeys);
    assert b.pointers[order - 1] == b.pointers[b.numKeys..][order - 1 - b.numKeys];
    a.numKeys := a.numKeys + 1;
    b.numKeys := b.numKeys - 1;
    ValOf(a, order);
    ValOf(b, order);
  }

  /** bptree.c _redistribute_nodes, internal nodes, from the left neighbour: the key between them comes down to the front
      of b, a's last key goes up and a's last child comes over. */
  method ShareInnerFromLeft(order: nat, a: Node, b: Node, bkey: Key) returns (up: Key?, moved: Ptr)
    requires a.Shape(order) && b.Shape(order) && !a.isLeaf && !b.isLeaf && order >= 4
    requires a != b && a.bkeys != b.bkeys && a.pointers != b.pointers && b.numKeys < order - 1 && a.numKeys >= 1
    modifies a`numKeys, a.pointers, b`numKeys, b.bkeys, b.pointers
    ensures a.Shape(order) && b.Shape(order)
    ensures var v, w, c := old(a.Val()), old(b.Val()), old(a.numKeys) - 1;
      && |v.ks| == c + 1 && |v.ps| == c + 2 && up == v.ks[c] && moved == v.ps[c + 1]
      && a.Val() == v.(ks := v.ks[..c], ps := v.ps[..c + 1]) && b.Val() == w.(ks := [bkey] + w.ks, ps := [moved] + w.ps)
  {
    hide *;
    ghost var v, w := a.Val(), b.Val();
    SizesOf(a, order);
    SizesOf(b, order);
    ValOf(a, order);
    ValOf(b, order);
    moved := a.pointers[a.numKeys];
    up := a.bkeys[a.numKeys - 1];
    PushFront(b.pointers, b.numKeys + 1, moved);
    PushFront(b.bkeys, b.numKeys, bkey);
    a.pointers[a.numKeys] := Null;
    b.numKeys := b.numKeys + 1;
    a.numKeys := a.numKeys - 1;
    ValOf(a, order);
    ValOf(b, order);
  }

  /** bptree.c _redistribute_nodes, internal nodes, from the right neighbour. */
  method ShareInnerFromRight(order: nat, a: Node, b: Node, bkey: Key) returns (up: Key?, moved: Ptr)
    requires a.Shape(order) && b.Shape(order) && !a.isLeaf && !b.isLeaf && order >= 4
    requires a != b && a.bkeys != b.bkeys && a.pointers != b.pointers && a.numKeys < order - 1 && b.numKeys >= 1
    modifies a`numKeys, a.bkeys, a.pointers, b`numKeys, b.bkeys, b.pointers
    ensures a.Shape(order) && b.Shape(order)
    ensures var v, w := old(a.Val()), old(b.Val());
      && |v.ps| == |v.ks| + 1 && |w.ks| > 0 && |w.ps| == |w.ks| + 1 && up == w.ks[0] && moved == w.ps[0]
      && a.Val() == v.(ks := v.ks + [bkey], ps := v.ps + [moved]) && b.Val() == w.(ks := w.ks[1..], ps := w.ps[1..])
  {
    hide *;
    ghost var v, w := a.Val(), b.Val();
    SizesOf(a, order);
    SizesOf(b, order);
    ValOf(a, order);
    ValOf(b, order);
    moved := b.pointers[0];
    up := b.bkeys[0];
    a.bkeys[a.numKeys] := bkey;
    a.pointers[a.numKeys + 1] := moved;
    assert a.bkeys[..a.numKeys + 1] == v.ks + [bkey] && a.pointers[..a.numKeys + 2] == v.ps + [moved];
    PopFront(b.bkeys, b.numKeys);
    PopFront(b.pointers, b.numKeys + 1);
    a.numKeys := a.numKeys + 1;
    b.numKeys := b.numKeys - 1;
    ValOf(a, order);
    ValOf(b, order);
  }
}
