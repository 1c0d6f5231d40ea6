/** What `insert` and `delete` keep of the tree beyond the engine's own
    invariant: every node keeps its shape (sorted keys; a leaf has one value
    per key and no pointers; every pointer names a block holding a node), an
    insert that succeeds stores its pair and loses none, and a leaf split
    writes nothing to the leaf after it. */
module TreeProps {
  import opened Wrappers
  import opened Blocks
  import opened Nodes
  import opened TreeOps

  /** Block `b` of `s` holds a node. */
  ghost predicate Filled<V>(s: NodeStore<V>, b: BlockId) {
    b < |s.blocks| && s.blocks[b].content.Some?
  }

  /** The shape of a node the tree builds: sorted keys, and in a leaf one
      value per key and no child pointers. */
  ghost predicate NodeShape<V>(n: Node<V>) {
    Sorted(n.keys) && (n.isLeaf ==> |n.values| == |n.keys| && n.pointers == [])
  }

  /** `n` has the shape, and each of its pointers names a block of `s` that
      holds a node. */
  ghost predicate NodeOk<V>(s: NodeStore<V>, n: Node<V>) {
    NodeShape(n) && forall c :: c in n.pointers ==> c < |s.blocks| && s.blocks[c].content.Some?
  }

  ghost predicate NodesOk<V>(s: NodeStore<V>) {
    forall b: BlockId :: Filled(s, b) ==> NodeOk(s, s.blocks[b].content.value)
  }

  /** Every node is well-formed and the root block holds one. */
  ghost predicate TreeOk<V>(t: TreeState<V>) {
    NodesOk(t.store) && Filled(t.store, t.root)
  }

  ghost predicate FilledKept<V>(s: NodeStore<V>, t: NodeStore<V>) {
    forall b: BlockId :: Filled(s, b) ==> Filled(t, b)
  }

  /** If `n` is a leaf, `m` is a leaf with the same keys and values. */
  ghost predicate SameEntries<V>(n: Node<V>, m: Node<V>) {
    n.isLeaf ==> m.isLeaf && m.keys == n.keys && m.values == n.values
  }

  /** Every block filled in `s` is filled in `t`, and each leaf among them
      keeps its keys and values. */
  ghost predicate EntriesKept<V>(s: NodeStore<V>, t: NodeStore<V>) {
    forall b: BlockId :: Filled(s, b) ==> Filled(t, b) && SameEntries(s.blocks[b].content.value, t.blocks[b].content.value)
  }

  /** Every pair some leaf of `s` holds, some leaf of `t` holds. */
  ghost predicate PairsKept<V(!new)>(s: NodeStore<V>, t: NodeStore<V>) {
    forall key, v :: StoreHolds(s, key, v) ==> StoreHolds(t, key, v)
  }

  lemma NodeOkMono<V>(s: NodeStore<V>, t: NodeStore<V>, n: Node<V>)
    requires FilledKept(s, t) && NodeOk(s, n)
    ensures NodeOk(t, n)
  {
    forall c | c in n.pointers ensures c < |t.blocks| && t.blocks[c].content.Some? {
      assert Filled(s, c);
    }
  }

  lemma EntriesKeptTrans<V>(s: NodeStore<V>, t: NodeStore<V>, u: NodeStore<V>)
    requires EntriesKept(s, t) && EntriesKept(t, u)
    ensures EntriesKept(s, u)
  {
  }

  lemma PairsKeptTrans<V(!new)>(s: NodeStore<V>, t: NodeStore<V>, u: NodeStore<V>)
    requires PairsKept(s, t) && PairsKept(t, u)
    ensures PairsKept(s, u)
  {
  }

  /** Keeping the entries of every leaf keeps every pair. */
  lemma EntriesKeptPairs<V(!new)>(s: NodeStore<V>, t: NodeStore<V>)
    requires EntriesKept(s, t)
    ensures PairsKept(s, t)
  {
    forall key, v | StoreHolds(s, key, v) ensures StoreHolds(t, key, v) {
      var b :| 0 <= b < |s.blocks| && s.blocks[b].content.Some? && LeafHolds(s.blocks[b].content.value, key, v);
      assert Filled(s, b);
      assert LeafHolds(t.blocks[b].content.value, key, v);
    }
  }

  /** Writing a well-formed node over a block that holds one keeps every
      node well-formed; it keeps the entries when the old node's entries stay. */
  lemma PutOk<V>(s: NodeStore<V>, b: BlockId, n: Node<V>)
    requires s.Valid() && NodesOk(s) && Filled(s, b) && NodeOk(s, n)
    ensures NodesOk(s.Put(b, Some(n))) && FilledKept(s, s.Put(b, Some(n)))
    ensures SameEntries(s.blocks[b].content.value, n) ==> EntriesKept(s, s.Put(b, Some(n)))
  {
    var t := s.Put(b, Some(n));
    assert FilledKept(s, t);
    forall c: BlockId | Filled(t, c) ensures NodeOk(t, t.blocks[c].content.value) {
      if c == b {
        NodeOkMono(s, t, n);
      } else {
        assert Filled(s, c);
        NodeOkMono(s, t, s.blocks[c].content.value);
      }
    }
  }

  /** Allocating a well-formed node keeps every node well-formed and every
      entry in place; the new block was empty. */
  lemma AllocOk<V>(s: NodeStore<V>, n: Node<V>)
    requires s.Valid() && s.FreedEmpty() && NodesOk(s) && NodeOk(s, n)
    ensures var (t, id) := s.AllocWrite(n);
            NodesOk(t) && EntriesKept(s, t) && Filled(t, id) && !Filled(s, id)
  {
    var (t, id) := s.AllocWrite(n);
    assert EntriesKept(s, t);
    forall c: BlockId | Filled(t, c) ensures NodeOk(t, t.blocks[c].content.value) {
      if c == id {
        NodeOkMono(s, t, n);
      } else {
        assert Filled(s, c);
        NodeOkMono(s, t, s.blocks[c].content.value);
      }
    }
  }

  /** Setting a parent cell changes no node's shape and no entry. */
  lemma WriteSlotOk<V>(s: NodeStore<V>, local: Option<BlockId>, slot: Slot, v: Option<BlockId>)
    requires s.Valid() && SlotOk(s, slot) && NodesOk(s)
    ensures NodesOk(WriteSlot(s, local, slot, v).0) && EntriesKept(s, WriteSlot(s, local, slot, v).0)
  {
    if slot.ParentOf? {
      var n := s.blocks[slot.owner].content.value;
      assert NodeOk(s, n);
      PutOk(s, slot.owner, n.(parent := v));
    }
  }

  lemma OpenParentOk<V>(s: NodeStore<V>, local: Option<BlockId>, slot: Slot, root: Node<V>)
    requires s.Valid() && s.FreedEmpty() && SlotOk(s, slot) && LocalOk(s, local)
    requires NodesOk(s) && NodeOk(s, root)
    ensures NodesOk(OpenParent(s, local, slot, root).0) && EntriesKept(s, OpenParent(s, local, slot, root).0)
  {
    if ReadSlot(s, local, slot).None? {
      var (t, rootId) := s.AllocWrite(root);
      AllocOk(s, root);
      AllocGrows(s, local, slot, root);
      WriteSlotOk(t, local, slot, Some(rootId));
      EntriesKeptTrans(s, t, WriteSlot(t, local, slot, Some(rootId)).0);
    }
  }

  /** Linking under an existing parent succeeds only when the parent is an
      inner node, so a successful link keeps every shape and every entry. */
  lemma LinkOk<V>(s: NodeStore<V>, local: Option<BlockId>, slot: Slot, p: BlockId, mid: int, right: Node<V>)
    requires s.Valid() && s.FreedEmpty() && SlotOk(s, slot) && LocalOk(s, local)
    requires Filled(s, p) && NodesOk(s) && NodeOk(s, right)
    ensures var r := Link(s, local, slot, p, mid, right);
            r.result.Ok? ==> NodesOk(r.store) && EntriesKept(s, r.store)
  {
    var pn := s.blocks[p].content.value;
    var sib := right.(parent := Some(p));
    assert NodeOk(s, sib);
    var (s2, rid) := s.AllocWrite(sib);
    AllocOk(s, sib);
    if AddSeparator(pn, mid, rid).Ok? {
      var n := AddSeparator(pn, mid, rid).value;
      assert NodeOk(s, pn);
      AddSeparatorShape(pn, mid, rid);
      forall c | c in n.pointers ensures c < |s2.blocks| && s2.blocks[c].content.Some? {
        if c != rid {
          assert Filled(s, c) && Filled(s2, c);
        } else {
          assert Filled(s2, rid);
        }
      }
      PutOk(s2, p, n);
      EntriesKeptTrans(s, s2, s2.Put(p, Some(n)));
    }
  }

  /** A separator goes only into an inner node, and keeps its shape; the
      new pointer is the only one added. */
  lemma AddSeparatorShape<V>(pn: Node<V>, mid: int, rid: BlockId)
    requires NodeShape(pn) && AddSeparator(pn, mid, rid).Ok?
    ensures var n := AddSeparator(pn, mid, rid).value;
            && NodeShape(n) && !n.isLeaf && !pn.isLeaf
            && forall c :: c in n.pointers ==> c == rid || c in pn.pointers
  {
    var n := AddSeparator(pn, mid, rid).value;
    forall c | c in n.pointers ensures c == rid || c in pn.pointers {
      assert c in multiset(n.pointers);
      if c != rid {
        assert c in multiset(pn.pointers);
      }
    }
  }

  lemma AttachOk<V>(s: NodeStore<V>, local: Option<BlockId>, slot: Slot, mid: int, right: Node<V>)
    requires s.Valid() && s.FreedEmpty() && SlotOk(s, slot) && LocalOk(s, local) && ReadSlot(s, local, slot).Some?
    requires NodesOk(s) && NodeOk(s, right)
    ensures var r := Attach(s, local, slot, mid, right);
            && (r.result != Err(Panic) ==> NodesOk(r.store))
            && (r.result.Ok? ==> EntriesKept(s, r.store))
  {
    var p := ReadSlot(s, local, slot).value;
    if p < s.nextBlockId && s.blocks[p].content.Some? {
      LinkOk(s, local, slot, p, mid, right);
    }
  }

  /** Moving a key up keeps every shape unless it panics, and on success
      keeps every entry. */
  lemma PromoteOk<V>(s: NodeStore<V>, local: Option<BlockId>, slot: Slot, root: Node<V>, mid: int, right: Node<V>)
    requires s.Valid() && s.FreedEmpty() && SlotOk(s, slot) && LocalOk(s, local)
    requires NodesOk(s) && NodeOk(s, root) && NodeOk(s, right)
    ensures var r := Promote(s, local, slot, root, mid, right);
            && (r.result != Err(Panic) ==> NodesOk(r.store))
            && (r.result.Ok? ==>
                  && EntriesKept(s, r.store) && !Filled(s, r.result.value) && r.result.value < |r.store.blocks|
                  && r.store.blocks[r.result.value].content == Some(right.(parent := ReadSlot(r.store, r.local, slot))))
  {
    PromoteMovesKeyUp(s, local, slot, root, mid, right);
    var (s1, local1) := OpenParent(s, local, slot, root);
    OpenParentOk(s, local, slot, root);
    NodeOkMono(s, s1, right);
    AttachOk(s1, local1, slot, mid, right);
    var r := Attach(s1, local1, slot, mid, right);
    if r.result.Ok? {
      EntriesKeptTrans(s, s1, r.store);
    }
  }

  /** The store half of a leaf split keeps every shape unless it panics; on
      success every entry outside the split block stays, `left`'s entries
      are in the split block and `right`'s pairs in some leaf. */
  lemma LinkLeavesOk<V(!new)>(s: NodeStore<V>, local: Option<BlockId>, slot: Slot, id: BlockId, left: Node<V>, right: Node<V>, r: Step<V>)
    requires s.Valid() && s.FreedEmpty() && SlotOk(s, slot) && LocalOk(s, local)
    requires Filled(s, id) && |right.keys| > 0
    requires NodesOk(s) && NodeOk(s, left) && NodeOk(s, right) && left.isLeaf
    requires r == LinkLeaves(s, local, slot, id, left, right)
    ensures r.result != Err(Panic) ==> NodesOk(r.store)
    ensures r.result.Ok? ==>
              && EntriesKept(s.Put(id, Some(left)), r.store)
              && forall k, v :: LeafHolds(right, k, v) ==> StoreHolds(r.store, k, v)
  {
    var s1 := s.Put(id, Some(left));
    var root := NewInner<V>(left.way).(pointers := [id]);
    LeftWritten(s, local, slot, id, left, right);
    var sp := Promote(s1, local, slot, root, right.keys[0], right);
    PromoteOk(s1, local, slot, root, right.keys[0], right);
    if sp.result.Ok? {
      var rid := sp.result.value;
      assert r.store == sp.store.Put(id, Some(left.(next := Some(rid))));
      RelinkOk(s1, sp.store, id, left, rid, right.(parent := ReadSlot(sp.store, sp.local, slot)));
    } else {
      assert r.store == sp.store;
    }
  }

  /** The first write of a leaf split: the left half goes back into block
      `id`, and the split may then move a key up from there. */
  lemma LeftWritten<V>(s: NodeStore<V>, local: Option<BlockId>, slot: Slot, id: BlockId, left: Node<V>, right: Node<V>)
    requires s.Valid() && s.FreedEmpty() && SlotOk(s, slot) && LocalOk(s, local)
    requires Filled(s, id) && NodesOk(s) && NodeOk(s, left) && NodeOk(s, right)
    ensures var s1 := s.Put(id, Some(left));
            && s1.Valid() && s1.FreedEmpty() && SlotOk(s1, slot) && LocalOk(s1, local)
            && NodesOk(s1) && Filled(s1, id) && NodeOk(s1, right)
            && NodeOk(s1, NewInner<V>(left.way).(pointers := [id]))
  {
    var s1 := s.Put(id, Some(left));
    PutOk(s, id, left);
    PutGrows(s, local, slot, id, left);
    var root := NewInner<V>(left.way).(pointers := [id]);
    assert forall c :: c in root.pointers ==> c == id;
    NodeOkMono(s, s1, right);
  }

  /** The last write of a leaf split: linking `left` in block `id` to the new
      block `rid`, which holds `sib`, keeps every shape and entry, and every
      pair of `sib` is stored. */
  lemma RelinkOk<V(!new)>(s1: NodeStore<V>, t: NodeStore<V>, id: BlockId, left: Node<V>, rid: BlockId, sib: Node<V>)
    requires t.Valid() && Filled(s1, id) && s1.blocks[id].content == Some(left) && left.isLeaf
    requires NodesOk(t) && EntriesKept(s1, t) && NodeOk(s1, left)
    requires rid < |t.blocks| && t.blocks[rid].content == Some(sib) && !Filled(s1, rid)
    ensures var s3 := t.Put(id, Some(left.(next := Some(rid))));
            && NodesOk(s3) && EntriesKept(s1, s3)
            && forall k, v :: LeafHolds(sib, k, v) ==> StoreHolds(s3, k, v)
  {
    var ln := left.(next := Some(rid));
    NodeOkMono(s1, t, ln);
    PutOk(t, id, ln);
    var s3 := t.Put(id, Some(ln));
    EntriesKeptTrans(s1, t, s3);
    forall k, v | LeafHolds(sib, k, v) ensures StoreHolds(s3, k, v) {
      assert s3.blocks[rid] == t.blocks[rid];
      assert LeafHolds(s3.blocks[rid].content.value, k, v);
    }
  }

  /** A leaf split keeps every shape unless it panics, and on success keeps
      every pair: those of the split leaf end up in one of its two halves. */
  lemma SplitLeafOk<V(!new)>(s: NodeStore<V>, local: Option<BlockId>, slot: Slot, id: BlockId)
    requires s.Valid() && s.FreedEmpty() && SlotOk(s, slot) && LocalOk(s, local) && NodesOk(s)
    requires Filled(s, id) && s.blocks[id].content.value.isLeaf && |s.blocks[id].content.value.keys| > 0
    ensures var r := SplitLeaf(s, local, slot, id);
            && (r.result != Err(Panic) ==> NodesOk(r.store))
            && (r.result.Ok? ==> PairsKept(s, r.store))
  {
    var node := s.blocks[id].content.value;
    assert NodeOk(s, node);
    var (left, right) := CutLeaf(node, id);
    assert NodeOk(s, left) && NodeOk(s, right);
    var r := LinkLeaves(s, local, slot, id, left, right);
    LinkLeavesOk(s, local, slot, id, left, right, r);
    if r.result.Ok? {
      forall k, v | LeafHolds(node, k, v) ensures LeafHolds(left, k, v) || LeafHolds(right, k, v) {
        CutLeafPairs(node, id, k, v);
      }
      HalvesKeepPairs(s, r.store, id, left, right);
    }
  }

  /** Each pair of a leaf ends up in one of the two halves the cut makes. */
  lemma CutLeafPairs<V>(node: Node<V>, id: BlockId, k: int, v: V)
    requires node.isLeaf && |node.values| == |node.keys| && |node.keys| > 0 && Sorted(node.keys)
    requires LeafHolds(node, k, v)
    ensures LeafHolds(CutLeaf(node, id).0, k, v) || LeafHolds(CutLeaf(node, id).1, k, v)
  {
    var (left, right) := CutLeaf(node, id);
    var i :| 0 <= i < |node.keys| && i < |node.values| && node.keys[i] == k && node.values[i] == v;
    if i < |left.keys| {
      assert left.keys[i] == k && left.values[i] == v;
    } else {
      var j := i - |left.keys|;
      assert right.keys[j] == k && right.values[j] == v;
    }
  }

  /** Replacing leaf `id` by `left` and storing `right` keeps every pair when
      each pair of the old leaf is in one of the two. */
  lemma HalvesKeepPairs<V(!new)>(s: NodeStore<V>, t: NodeStore<V>, id: BlockId, left: Node<V>, right: Node<V>)
    requires s.Valid() && Filled(s, id)
    requires forall k, v :: LeafHolds(s.blocks[id].content.value, k, v) ==> LeafHolds(left, k, v) || LeafHolds(right, k, v)
    requires EntriesKept(s.Put(id, Some(left)), t)
    requires forall k, v :: LeafHolds(right, k, v) ==> StoreHolds(t, k, v)
    ensures PairsKept(s, t)
  {
    var s1 := s.Put(id, Some(left));
    forall k, v | StoreHolds(s, k, v) ensures StoreHolds(t, k, v) {
      var b :| 0 <= b < |s.blocks| && s.blocks[b].content.Some? && LeafHolds(s.blocks[b].content.value, k, v);
      if b != id {
        assert Filled(s1, b) && s1.blocks[b] == s.blocks[b];
        assert LeafHolds(t.blocks[b].content.value, k, v);
      } else if LeafHolds(left, k, v) {
        assert Filled(s1, id);
        assert LeafHolds(t.blocks[id].content.value, k, v);
      }
    }
  }

  lemma SortedParts(a: seq<int>, m: int, b: seq<int>)
    requires Sorted(a + [m] + b)
    ensures Sorted(a) && Sorted(b)
  {
    var s := a + [m] + b;
    forall i, j | 0 <= i < j < |a| ensures a[i] <= a[j] {
      assert s[i] == a[i] && s[j] == a[j];
    }
    forall i, j | 0 <= i < j < |b| ensures b[i] <= b[j] {
      assert s[|a| + 1 + i] == b[i] && s[|a| + 1 + j] == b[j];
    }
  }

  /** An inner split keeps every shape unless it panics, and on success
      keeps every entry: it writes only inner nodes and fresh blocks. */
  lemma SplitInnerOk<V>(s: NodeStore<V>, local: Option<BlockId>, slot: Slot, id: BlockId)
    requires s.Valid() && s.FreedEmpty() && SlotOk(s, slot) && LocalOk(s, local) && NodesOk(s)
    requires Filled(s, id) && !s.blocks[id].content.value.isLeaf && |s.blocks[id].content.value.keys| > 0
    ensures var r := SplitInner(s, local, slot, id);
            && (r.result != Err(Panic) ==> NodesOk(r.store))
            && (r.result.Ok? ==> EntriesKept(s, r.store))
  {
    var node := s.blocks[id].content.value;
    var cut := CutInner(node, id);
    if cut.Ok? {
      var (left, mid, right) := cut.value;
      assert NodeOk(s, node);
      SortedParts(left.keys, mid, right.keys);
      assert forall c :: c in left.pointers ==> c in node.pointers;
      assert forall c :: c in right.pointers ==> c in node.pointers;
      assert NodeOk(s, left) && NodeOk(s, right);
      var s1 := s.Put(id, Some(left));
      PutOk(s, id, left);
      PutGrows(s, local, slot, id, left);
      NodeOkMono(s, s1, right);
      PromoteOk(s1, local, slot, NewInner(left.way), mid, right);
      var sp := Promote(s1, local, slot, NewInner(left.way), mid, right);
      if sp.result.Ok? {
        EntriesKeptTrans(s, s1, sp.store);
      }
    }
  }

  lemma SplitIfOverfullOk<V(!new)>(s: NodeStore<V>, local: Option<BlockId>, slot: Slot, id: BlockId)
    requires s.Valid() && s.FreedEmpty() && SlotOk(s, slot) && LocalOk(s, local) && NodesOk(s) && Filled(s, id)
    ensures var r := SplitIfOverfull(s, local, slot, id);
            && (r.result != Err(Panic) ==> NodesOk(r.store))
            && (r.result.Ok? ==> PairsKept(s, r.store))
  {
    var node := s.blocks[id].content.value;
    if |node.keys| > node.way {
      if node.isLeaf {
        SplitLeafOk(s, local, slot, id);
      } else {
        SplitInnerOk(s, local, slot, id);
        var r := SplitInner(s, local, slot, id);
        if r.result.Ok? {
          EntriesKeptPairs(s, r.store);
        }
      }
    }
  }

  /** On a well-formed leaf the leaf insert succeeds, keeps every shape and
      every pair, and stores the new pair. */
  lemma InsertIntoLeafOk<V(!new)>(s: NodeStore<V>, local: Option<BlockId>, id: BlockId, key: int, value: V)
    requires s.Valid() && s.FreedEmpty() && NodesOk(s) && Filled(s, id) && s.blocks[id].content.value.isLeaf
    ensures var r := InsertIntoLeaf(s, local, id, key, value);
            && r.result.Ok? && NodesOk(r.store)
            && PairsKept(s, r.store) && StoreHolds(r.store, key, value)
  {
    var node := s.blocks[id].content.value;
    assert NodeOk(s, node);
    var n := LeafInsert(node, key, value).value;
    assert NodeOk(s, n);
    PutOk(s, id, n);
    var t := s.Put(id, Some(n));
    forall k, v | LeafHolds(node, k, v) ensures LeafHolds(n, k, v) {
      LeafInsertPairs(node, key, value, k, v);
    }
    LeafInsertPairs(node, key, value, key, value);
    PutKeepsPairs(s, id, n);
    assert LeafHolds(t.blocks[id].content.value, key, value);
  }

  /** The leaf insert keeps each pair of the leaf and adds the new one. */
  lemma LeafInsertPairs<V>(node: Node<V>, key: int, value: V, k: int, v: V)
    requires node.isLeaf && |node.values| == |node.keys| && Sorted(node.keys)
    requires LeafHolds(node, k, v) || (k == key && v == value)
    ensures LeafInsert(node, key, value).Ok? && LeafHolds(LeafInsert(node, key, value).value, k, v)
  {
    var n := LeafInsert(node, key, value).value;
    var pos := BinarySearch(node.keys, key).index;
    if k == key && v == value {
      assert n.keys[pos] == key && n.values[pos] == value;
    } else {
      var i :| 0 <= i < |node.keys| && i < |node.values| && node.keys[i] == k && node.values[i] == v;
      if i < pos {
        assert n.keys[i] == k && n.values[i] == v;
      } else {
        assert n.keys[i + 1] == k && n.values[i + 1] == v;
      }
    }
  }

  /** Writing over a leaf a node that holds each of its pairs keeps every pair. */
  lemma PutKeepsPairs<V(!new)>(s: NodeStore<V>, id: BlockId, n: Node<V>)
    requires s.Valid() && Filled(s, id)
    requires forall k, v :: LeafHolds(s.blocks[id].content.value, k, v) ==> LeafHolds(n, k, v)
    ensures PairsKept(s, s.Put(id, Some(n)))
  {
    var t := s.Put(id, Some(n));
    forall k, v | StoreHolds(s, k, v) ensures StoreHolds(t, k, v) {
      var b :| 0 <= b < |s.blocks| && s.blocks[b].content.Some? && LeafHolds(s.blocks[b].content.value, k, v);
      if b == id {
        assert LeafHolds(t.blocks[id].content.value, k, v);
      } else {
        assert t.blocks[b] == s.blocks[b];
      }
    }
  }

  /** Chaining an insert step that keeps the tree with a split that does. */
  lemma ChainSteps<V(!new)>(s: NodeStore<V>, sub: Step<V>, r: Step<V>, key: int, value: V)
    requires sub.result != Err(Panic) ==> NodesOk(sub.store)
    requires sub.result.Ok? ==> PairsKept(s, sub.store) && StoreHolds(sub.store, key, value)
    requires sub.result.Err? ==> r == sub
    requires sub.result.Ok? && r.result != Err(Panic) ==> NodesOk(r.store)
    requires sub.result.Ok? && r.result.Ok? ==> PairsKept(sub.store, r.store)
    ensures r.result != Err(Panic) ==> NodesOk(r.store)
    ensures r.result.Ok? ==> PairsKept(s, r.store) && StoreHolds(r.store, key, value)
  {
    if r.result.Ok? && sub.result.Ok? {
      PairsKeptTrans(s, sub.store, r.store);
    }
  }

  /** `insert_helper` on a block holding a node, in a store of well-formed
      nodes, with result `r`: unless it panics every node stays well-formed,
      and when it succeeds every pair is kept and the new pair is stored. */
  lemma {:induction false} InsertHelperOk<V(!new)>(s: NodeStore<V>, local: Option<BlockId>, slot: Slot, id: BlockId, key: int, value: V, fuel: nat, r: Step<V>)
    requires s.Valid() && s.FreedEmpty() && SlotOk(s, slot) && LocalOk(s, local)
    requires NodesOk(s) && Filled(s, id)
    requires r == InsertHelper(s, local, slot, id, key, value, fuel)
    ensures r.result != Err(Panic) ==> NodesOk(r.store)
    ensures r.result.Ok? ==> PairsKept(s, r.store) && StoreHolds(r.store, key, value)
    decreases fuel, 1
  {
    var node := s.blocks[id].content.value;
    if node.isLeaf {
      InsertIntoLeafOk(s, local, id, key, value);
      var sub := InsertIntoLeaf(s, local, id, key, value);
      SplitIfOverfullOk(sub.store, sub.local, slot, id);
      ChainSteps(s, sub, r, key, value);
    } else {
      var sub := Descend(s, local, id, key, value, fuel);
      DescendOk(s, local, id, key, value, fuel, sub);
      if sub.result.Ok? {
        SplitIfOverfullOk(sub.store, sub.local, slot, id);
      }
      ChainSteps(s, sub, r, key, value);
    }
  }

  /** The inner branch of `insert_helper`, with result `r`. */
  lemma {:induction false} DescendOk<V(!new)>(s: NodeStore<V>, local: Option<BlockId>, id: BlockId, key: int, value: V, fuel: nat, r: Step<V>)
    requires s.Valid() && s.FreedEmpty() && LocalOk(s, local) && NodesOk(s)
    requires Filled(s, id) && !s.blocks[id].content.value.isLeaf
    requires r == Descend(s, local, id, key, value, fuel)
    ensures r.result != Err(Panic) ==> NodesOk(r.store)
    ensures r.result.Ok? ==> PairsKept(s, r.store) && StoreHolds(r.store, key, value)
    decreases fuel, 0
  {
    var node := s.blocks[id].content.value;
    var c := InsertChild(node, key);
    if c < |node.pointers| && fuel > 0 {
      ChildFilled(s, id, c);
      InsertHelperOk(s, local, ParentOf(id), node.pointers[c], key, value, fuel - 1, r);
    }
  }

  /** In a store of well-formed nodes every child pointer names a filled
      block. */
  lemma ChildFilled<V>(s: NodeStore<V>, id: BlockId, c: nat)
    requires NodesOk(s) && Filled(s, id) && c < |s.blocks[id].content.value.pointers|
    ensures Filled(s, s.blocks[id].content.value.pointers[c])
  {
    var node := s.blocks[id].content.value;
    assert NodeOk(s, node) && node.pointers[c] in node.pointers;
  }

  /** `insert` on a tree of well-formed nodes: unless it panics the tree stays
      well-formed, and when it succeeds the pair is stored in a leaf and no
      pair stored before is lost. */
  lemma InsertKeepsTree<V(!new)>(t: TreeState<V>, key: int, value: V)
    requires t.Valid() && TreeOk(t)
    ensures var r := Insert(t, key, value);
            && (r.1 != Err(Panic) ==> TreeOk(r.0))
            && (r.1.Ok? ==> StoreHolds(r.0.store, key, value) && PairsKept(t.store, r.0.store))
  {
    InsertHelperOk(t.store, None, Local, t.root, key, value, t.store.nextBlockId, InsertHelper(t.store, None, Local, t.root, key, value, t.store.nextBlockId));
  }

  /** `delete_helper` keeps every node well-formed and every block filled. */
  lemma {:induction false} DeleteHelperOk<V>(s: NodeStore<V>, id: BlockId, key: int, fuel: nat)
    requires s.Valid() && NodesOk(s)
    ensures NodesOk(DeleteHelper(s, id, key, fuel).0) && FilledKept(s, DeleteHelper(s, id, key, fuel).0)
    decreases fuel
  {
    if id < s.nextBlockId && s.blocks[id].content.Some? {
      var node := s.blocks[id].content.value;
      assert NodeOk(s, node);
      if node.isLeaf {
        var (n, res) := LeafRemove(node, key);
        LeafRemoveKeepsLeaf(node, key);
        if res != Ok(None) {
          assert NodeOk(s, n);
          PutOk(s, id, n);
        }
      } else if BinarySearch(node.keys, key).Found? {
        var pos := BinarySearch(node.keys, key).index;
        if pos < |node.pointers| && fuel > 0 {
          DeleteHelperOk(s, node.pointers[pos], key, fuel - 1);
        }
      }
    }
  }

  /** `delete` keeps a tree of well-formed nodes well-formed. */
  lemma DeleteKeepsTree<V>(t: TreeState<V>, key: int)
    requires t.Valid() && TreeOk(t)
    ensures TreeOk(Delete(t, key).0)
  {
    DeleteHelperOk(t.store, t.root, key, t.store.nextBlockId);
  }

  /** `new` makes a tree of well-formed nodes from an engine holding them. */
  lemma NewKeepsTree<V>(s: NodeStore<V>, way: nat)
    requires s.Valid() && s.FreedEmpty() && NodesOk(s)
    ensures TreeOk(New(s, way))
  {
    AllocOk(s, NewLeaf<V>(way, None));
  }

  /** Moving a key up leaves alone every filled block other than the parent
      the slot names and the slot's owner. */
  lemma PromoteFrame<V>(s: NodeStore<V>, local: Option<BlockId>, slot: Slot, root: Node<V>, mid: int, right: Node<V>, b: BlockId)
    requires s.Valid() && s.FreedEmpty() && SlotOk(s, slot) && LocalOk(s, local)
    requires Filled(s, b) && ReadSlot(s, local, slot) != Some(b) && slot != ParentOf(b)
    ensures var r := Promote(s, local, slot, root, mid, right);
            b < |r.store.blocks| && r.store.blocks[b] == s.blocks[b]
  {
    var (s1, local1) := OpenParent(s, local, slot, root);
    OpenParentFills(s, local, slot, root);
    if ReadSlot(s, local, slot).None? {
      var (t, rootId) := s.AllocWrite(root);
      assert t.blocks[b] == s.blocks[b];
    }
    var p := ReadSlot(s1, local1, slot).value;
    assert p != b;
    if p < s1.nextBlockId && s1.blocks[p].content.Some? {
      var (s2, rid) := s1.AllocWrite(right.(parent := Some(p)));
      assert s2.blocks[b] == s.blocks[b];
    }
  }

  /** A leaf split puts the new leaf between the split leaf and its successor
      `nx`, but writes nothing to `nx`: its `prev` still names the split leaf,
      not the new one. */
  lemma SplitLeafSkipsSuccessorPrev<V>(s: NodeStore<V>, local: Option<BlockId>, slot: Slot, id: BlockId, nx: BlockId, r: Step<V>)
    requires s.Valid() && s.FreedEmpty() && SlotOk(s, slot) && LocalOk(s, local)
    requires Filled(s, id) && s.blocks[id].content.value.isLeaf && |s.blocks[id].content.value.keys| > 0
    requires s.blocks[id].content.value.next == Some(nx) && nx != id && Filled(s, nx)
    requires s.blocks[nx].content.value.prev == Some(id)
    requires ReadSlot(s, local, slot) != Some(nx) && slot != ParentOf(nx)
    requires r == SplitLeaf(s, local, slot, id)
    ensures r.store.blocks[nx] == s.blocks[nx]
    ensures r.result.Ok? ==>
              && r.store.blocks[id].content.Some? && r.store.blocks[id].content.value.next.Some?
              && var rid := r.store.blocks[id].content.value.next.value;
              && rid != nx && rid < |r.store.blocks| && r.store.blocks[rid].content.Some?
              && r.store.blocks[rid].content.value.prev == Some(id)
              && r.store.blocks[rid].content.value.next == Some(nx)
              && r.store.blocks[nx].content.value.prev == Some(id)
  {
    var node := s.blocks[id].content.value;
    var (left, right) := CutLeaf(node, id);
    LinkLeavesSkips(s, local, slot, id, left, right, nx, r);
  }

  /** The store half of `SplitLeafSkipsSuccessorPrev`: linking the halves
      writes block `id` and the new block only. */
  lemma LinkLeavesSkips<V>(s: NodeStore<V>, local: Option<BlockId>, slot: Slot, id: BlockId, left: Node<V>, right: Node<V>, nx: BlockId, r: Step<V>)
    requires s.Valid() && s.FreedEmpty() && SlotOk(s, slot) && LocalOk(s, local)
    requires Filled(s, id) && |right.keys| > 0 && nx != id && Filled(s, nx)
    requires left.parent == s.blocks[id].content.value.parent
    requires ReadSlot(s, local, slot) != Some(nx) && slot != ParentOf(nx)
    requires r == LinkLeaves(s, local, slot, id, left, right)
    ensures r.store.blocks[nx] == s.blocks[nx]
    ensures r.result.Ok? ==>
              && r.store.blocks[id].content.Some? && r.store.blocks[id].content.value.next.Some?
              && var rid := r.store.blocks[id].content.value.next.value;
              && rid != nx && rid < |r.store.blocks| && r.store.blocks[rid].content.Some?
              && r.store.blocks[rid].content.value.prev == right.prev
              && r.store.blocks[rid].content.value.next == right.next
  {
    var s1 := s.Put(id, Some(left));
    LeftKeepsSlot(s, local, slot, id, left, nx);
    var root := NewInner<V>(left.way).(pointers := [id]);
    var sp := Promote(s1, local, slot, root, right.keys[0], right);
    PromoteSkips(s1, local, slot, root, right.keys[0], right, nx, sp);
    if sp.result.Ok? {
      assert sp.result.value != id;
      assert r.store == sp.store.Put(id, Some(left.(next := Some(sp.result.value))));
    } else {
      assert r.store == sp.store;
    }
  }

  /** Writing the left half back, with its parent unchanged, leaves the
      slot's value and block `nx` as they were. */
  lemma LeftKeepsSlot<V>(s: NodeStore<V>, local: Option<BlockId>, slot: Slot, id: BlockId, left: Node<V>, nx: BlockId)
    requires s.Valid() && s.FreedEmpty() && SlotOk(s, slot) && LocalOk(s, local)
    requires Filled(s, id) && left.parent == s.blocks[id].content.value.parent
    requires nx != id && Filled(s, nx) && ReadSlot(s, local, slot) != Some(nx) && slot != ParentOf(nx)
    ensures var s1 := s.Put(id, Some(left));
            && s1.Valid() && s1.FreedEmpty() && SlotOk(s1, slot) && LocalOk(s1, local)
            && Filled(s1, id) && Filled(s1, nx) && s1.blocks[nx] == s.blocks[nx]
            && ReadSlot(s1, local, slot) != Some(nx)
  {
    PutGrows(s, local, slot, id, left);
  }

  /** Moving a key up writes neither `nx` nor an existing block for the new
      node. */
  lemma PromoteSkips<V>(s: NodeStore<V>, local: Option<BlockId>, slot: Slot, root: Node<V>, mid: int, right: Node<V>, nx: BlockId, r: Split<V>)
    requires s.Valid() && s.FreedEmpty() && SlotOk(s, slot) && LocalOk(s, local)
    requires Filled(s, nx) && ReadSlot(s, local, slot) != Some(nx) && slot != ParentOf(nx)
    requires r == Promote(s, local, slot, root, mid, right)
    ensures nx < |r.store.blocks| && r.store.blocks[nx] == s.blocks[nx]
    ensures r.result.Ok? ==>
              && r.result.value != nx && !Filled(s, r.result.value) && r.result.value < |r.store.blocks|
              && r.store.blocks[r.result.value].content == Some(right.(parent := ReadSlot(r.store, r.local, slot)))
  {
    PromoteFrame(s, local, slot, root, mid, right, nx);
    PromoteMovesKeyUp(s, local, slot, root, mid, right);
  }
}
