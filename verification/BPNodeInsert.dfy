/** Insertion inside one node, or inside a full node and the fresh node that takes its upper half. */
module BPNodeInsert {
  import opened CStrings
  import opened BPTypes
  import opened BPSlots

  /** Where to split a node that is too big. */
  function Cut(length: nat): (c: nat)
    ensures 2 * c == length || 2 * c == length + 1
  {
    (length + 1) / 2
  }

  /** `j` is the number of keys that do not exceed `key`; these come first. */
  ghost predicate IsInsertionPoint(ks: seq<Key?>, key: string, j: nat) {
    && j <= |ks| && null !in ks
    && (forall i :: 0 <= i < j ==> Rank(ks[i].key) <= Rank(key))
    && (j < |ks| ==> Rank(key) < Rank(ks[j].key))
  }

  method FindInsertionPoint(leaf: Node, limit: nat, bkey: Key) returns (j: nat)
    requires limit <= leaf.bkeys.Length && null !in leaf.bkeys[..limit]
    ensures IsInsertionPoint(leaf.bkeys[..limit], bkey.key, j)
  {
    j := 0;
    while j < limit
      invariant 0 <= j <= limit
      invariant forall i :: 0 <= i < j ==> Rank(leaf.bkeys[..limit][i].key) <= Rank(bkey.key)
    {
      assert leaf.bkeys[..limit][j] == leaf.bkeys[j];
      StrcmpIsRank(leaf.bkeys[j].key, bkey.key);
      if Strcmp(leaf.bkeys[j].key, bkey.key) > 0 { break; }
      j := j + 1;
    }
  }

  /** bptree.c _insert_into_leaf */
  method InsertIntoLeaf(order: nat, leaf: Node, bkey: Key, rec: Record) returns (ghost at: nat)
    requires leaf.Shape(order) && leaf.isLeaf && leaf.numKeys < order - 1
    requires null !in leaf.Val().ks
    modifies leaf`numKeys, leaf.bkeys, leaf.pointers, bkey`refCount, rec`refCount
    ensures leaf.Shape(order)
    ensures IsInsertionPoint(old(leaf.Val()).ks, bkey.key, at)
    ensures leaf.Val() == old(leaf.Val()).(ks := Insert(old(leaf.Val()).ks, at, bkey),
                                           ps := Insert(old(leaf.Val()).ps, at, ToRecord(rec)))
    ensures bkey.refCount == old(bkey.refCount) + 1 && rec.refCount == old(rec.refCount) + 1
  {
    var insertionPoint := FindInsertionPoint(leaf, leaf.numKeys, bkey);
    at := insertionPoint;
    assert leaf.pointers[order - 1] == leaf.pointers[leaf.numKeys + 1..][order - 2 - leaf.numKeys];
    InsertSlot(leaf.bkeys, leaf.numKeys, insertionPoint, bkey);
    InsertSlot(leaf.pointers, leaf.numKeys, insertionPoint, ToRecord(rec));
    assert leaf.pointers[order - 1] == leaf.pointers[leaf.numKeys + 1..][order - 2 - leaf.numKeys];
    bkey.refCount := bkey.refCount + 1;
    rec.refCount := rec.refCount + 1;
    leaf.numKeys := leaf.numKeys + 1;
  }

  /** bptree.c _insert_into_leaf_after_splitting, up to the call that enters the new leaf into the parent. */
  method SplitLeaf(order: nat, leaf: Node, newLeaf: Node, bkey: Key, rec: Record) returns (ghost at: nat)
    requires leaf.Shape(order) && leaf.isLeaf && leaf.numKeys == order - 1 && order >= 4
    requires newLeaf.Shape(order) && newLeaf != leaf
    requires newLeaf.bkeys != leaf.bkeys && newLeaf.pointers != leaf.pointers
    requires null !in leaf.Val().ks
    modifies leaf`numKeys, leaf.bkeys, leaf.pointers, bkey`refCount, rec`refCount
    modifies newLeaf`numKeys, newLeaf`isLeaf, newLeaf`parent, newLeaf.bkeys, newLeaf.pointers
    ensures leaf.Shape(order) && newLeaf.Shape(order)
    ensures IsInsertionPoint(old(leaf.Val()).ks, bkey.key, at)
    ensures var ks := Insert(old(leaf.Val()).ks, at, bkey);
            var ps := Insert(old(leaf.Val()).ps, at, ToRecord(rec));
            var c := Cut(order - 1);
            && leaf.Val() == old(leaf.Val()).(ks := ks[..c], ps := ps[..c], next := ToNode(newLeaf))
            && newLeaf.Val() == NodeVal(true, ks[c..], ps[c..], old(leaf.Val()).next, leaf.parent, newLeaf.level)
    ensures bkey.refCount == old(bkey.refCount) + 1 && rec.refCount == old(rec.refCount) + 1
  {
    newLeaf.isLeaf := true;
    var insertionIndex := FindInsertionPoint(leaf, order - 1, bkey);
    at := insertionIndex;
    DistributeLeafSlots(order, leaf, newLeaf, insertionIndex, bkey, rec);
    LinkNewLeaf(order, leaf, newLeaf);
  }

  /** The slots of the full leaf and the new one are shared out between the two leaves. */
  method DistributeLeafSlots(order: nat, leaf: Node, newLeaf: Node, at: nat, bkey: Key, rec: Record)
    requires leaf.Shape(order) && leaf.isLeaf && leaf.numKeys == order - 1 && order >= 4
    requires newLeaf.Shape(order) && newLeaf != leaf && newLeaf.isLeaf
    requires newLeaf.bkeys != leaf.bkeys && newLeaf.pointers != leaf.pointers
    requires at <= order - 1
    modifies leaf`numKeys, leaf.bkeys, leaf.pointers, bkey`refCount, rec`refCount
    modifies newLeaf`numKeys, newLeaf.bkeys, newLeaf.pointers
    ensures leaf.Shape(order) && newLeaf.Shape(order)
    ensures var ks := Insert(old(leaf.Val()).ks, at, bkey);
            var ps := Insert(old(leaf.Val()).ps, at, ToRecord(rec));
            var c := Cut(order - 1);
            && leaf.Val() == old(leaf.Val()).(ks := ks[..c], ps := ps[..c])
            && newLeaf.Val().ks == ks[c..] && newLeaf.Val().ps == ps[c..]
    ensures bkey.refCount == old(bkey.refCount) + 1 && rec.refCount == old(rec.refCount) + 1
  {
    ghost var ks, ps := Insert(leaf.Val().ks, at, bkey), Insert(leaf.Val().ps, at, ToRecord(rec));
    var split := Cut(order - 1);
    leaf.numKeys := split;
    newLeaf.numKeys := order - split;
    bkey.refCount := bkey.refCount + 1;
    rec.refCount := rec.refCount + 1;
    SplitSlots(leaf.bkeys, newLeaf.bkeys, order - 1, split, at, bkey);
    assert leaf.bkeys[..split] == ks[..split] && newLeaf.bkeys[..order - split] == ks[split..];
    assert leaf.pointers[order - 1] == leaf.pointers[split..][order - 1 - split];
    SplitSlots(leaf.pointers, newLeaf.pointers, order - 1, split, at, ToRecord(rec));
    assert leaf.pointers[..split] == ps[..split] && newLeaf.pointers[..order - split] == ps[split..];
    assert leaf.pointers[order - 1] == leaf.pointers[split..][order - 1 - split];
  }

  /** The tail of a leaf split: chain the new leaf in, clear the unused record slots, copy the parent link. */
  method LinkNewLeaf(order: nat, leaf: Node, newLeaf: Node)
    requires leaf.Shape(order) && newLeaf.Shape(order) && leaf.isLeaf && newLeaf.isLeaf && order >= 4
    requires newLeaf != leaf && newLeaf.bkeys != leaf.bkeys && newLeaf.pointers != leaf.pointers
    modifies newLeaf`parent, leaf.pointers, newLeaf.pointers
    ensures leaf.Val() == old(leaf.Val()).(next := ToNode(newLeaf))
    ensures newLeaf.Val() == old(newLeaf.Val()).(next := old(leaf.Val()).next, parent := leaf.parent)
  {
    newLeaf.parent := leaf.parent;
    ghost var ps, qs := leaf.Val().ps, newLeaf.Val().ps;
    newLeaf.pointers[order - 1] := leaf.pointers[order - 1];
    leaf.pointers[order - 1] := ToNode(newLeaf);
    ClearLeafSlots(order, leaf);
    ClearLeafSlots(order, newLeaf);
    assert leaf.pointers[..leaf.numKeys] == ps && newLeaf.pointers[..newLeaf.numKeys] == qs;
  }

  /** Null out the unused record slots of a leaf; the chain slot stays. */
  method ClearLeafSlots(order: nat, leaf: Node)
    requires leaf.Shape(order) && order >= 4
    modifies leaf.pointers
    ensures leaf.pointers[..leaf.numKeys] == old(leaf.pointers[..leaf.numKeys])
    ensures leaf.pointers[order - 1] == old(leaf.pointers[order - 1])
  {
    assert leaf.pointers[order - 1] == leaf.pointers[order - 1..][0];
    ClearSlots(leaf.pointers, leaf.numKeys, order - 1, Null);
    assert leaf.pointers[order - 1] == leaf.pointers[order - 1..][0];
  }

  /** bptree.c _insert_into_node */
  method InsertIntoNode(order: nat, n: Node, leftIndex: nat, bkey: Key, right: Node)
    requires n.Shape(order) && !n.isLeaf && n.numKeys < order - 1 && leftIndex <= n.numKeys && order >= 4
    modifies n`numKeys, n.bkeys, n.pointers, bkey`refCount
    ensures n.Shape(order)
    ensures n.Val() == old(n.Val()).(ks := Insert(old(n.Val()).ks, leftIndex, bkey),
                                     ps := Insert(old(n.Val()).ps, leftIndex + 1, ToNode(right)))
    ensures bkey.refCount == old(bkey.refCount) + 1
  {
    hide *;
    SizesOf(n, order);
    ValOf(n, order);
    InsertSlot(n.pointers, n.numKeys + 1, leftIndex + 1, ToNode(right));
    InsertSlot(n.bkeys, n.numKeys, leftIndex, bkey);
    bkey.refCount := bkey.refCount + 1;
    n.numKeys := n.numKeys + 1;
    ValOf(n, order);
  }

  lemma InsertNonNull(ks: seq<Key?>, j: nat, bk: Key)
    requires j <= |ks| && null !in ks
    ensures null !in Insert(ks, j, bk)
    ensures forall c :: 0 <= c <= |ks| ==> Insert(ks, j, bk)[c] != null
  {
  }

  /** bptree.c _insert_into_node_after_splitting, up to re-parenting the moved children. */
  method SplitNode(order: nat, oldNode: Node, newNode: Node, leftIndex: nat, bkey: Key, right: Node)
    returns (bkPrime: Key)
    requires oldNode.Shape(order) && !oldNode.isLeaf && oldNode.numKeys == order - 1 && order >= 4
    requires newNode.Shape(order) && newNode != oldNode && !newNode.isLeaf
    requires newNode.bkeys != oldNode.bkeys && newNode.pointers != oldNode.pointers
    requires leftIndex <= order - 1
    requires null !in oldNode.Val().ks
    modifies oldNode`numKeys, oldNode.bkeys, oldNode.pointers, bkey`refCount
    modifies newNode`numKeys, newNode`parent, newNode.bkeys, newNode.pointers
    ensures oldNode.Shape(order) && newNode.Shape(order)
    ensures var ks := Insert(old(oldNode.Val()).ks, leftIndex, bkey);
            var ps := Insert(old(oldNode.Val()).ps, leftIndex + 1, ToNode(right));
            var c := Cut(order) - 1;
            && bkPrime == ks[c]
            && oldNode.Val() == old(oldNode.Val()).(ks := ks[..c], ps := ps[..c + 1])
            && newNode.Val() == NodeVal(false, ks[c + 1..], ps[c + 1..], Null, oldNode.parent, newNode.level)
    ensures bkey.refCount == old(bkey.refCount) + 1
  {
    hide *;
    ghost var v := oldNode.Val();
    SizesOf(oldNode, order);
    SizesOf(newNode, order);
    ValOf(oldNode, order);
    ghost var ks, ps := Insert(v.ks, leftIndex, bkey), Insert(v.ps, leftIndex + 1, ToNode(right));
    InsertLength(v.ks, leftIndex, bkey);
    InsertLength(v.ps, leftIndex + 1, ToNode(right));
    InsertNonNull(v.ks, leftIndex, bkey);
    var split := Cut(order);
    oldNode.numKeys := split - 1;
    newNode.numKeys := order - split;
    newNode.parent := oldNode.parent;
    bkey.refCount := bkey.refCount + 1;
    assert oldNode.bkeys[..order - 1] == v.ks && oldNode.pointers[..order] == v.ps;
    SplitSlots(oldNode.bkeys, newNode.bkeys, order - 1, split, leftIndex, bkey);
    assert oldNode.bkeys[split - 1] == ks[..split][split - 1] == ks[split - 1];
    bkPrime := oldNode.bkeys[oldNode.numKeys];
    assert oldNode.bkeys[..split - 1] == ks[..split - 1] && newNode.bkeys[..order - split] == ks[split..];
    SplitSlots(oldNode.pointers, newNode.pointers, order, split, leftIndex + 1, ToNode(right));
    assert oldNode.pointers[..split] == ps[..split] && newNode.pointers[..order - split + 1] == ps[split..];
    ValOf(oldNode, order);
    ValOf(newNode, order);
  }
}
