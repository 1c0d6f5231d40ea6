/** What each operation of the B+Tree does, as functions of the engine's state
    (a `Store` of nodes) and of the tree's root. The recursion follows child
    pointers; `fuel` bounds it by the number of blocks, since a longer descent
    must revisit a block. */
module TreeOps {
  import opened Wrappers
  import opened Blocks
  import opened Nodes

  type NodeStore<V> = Store<Node<V>>

  datatype TreeState<V> = TreeState(way: nat, store: NodeStore<V>, root: BlockId)
  {
    /** The engine's invariant, no payload left in a freed block (which the
        engine's own operations keep), and a root in range. */
    ghost predicate Valid() {
      store.Valid() && store.FreedEmpty() && root < store.nextBlockId
    }
  }

  /** The parent cell an `insert_helper` call is handed: the local cell of
      `insert` itself, or the `parent` field of the node in block `owner`
      (the caller's own node, so the callee reports to the caller's parent). */
  datatype Slot = Local | ParentOf(owner: BlockId)

  /** The state after an insert step: the store, the value of `insert`'s
      local cell, and the outcome. */
  datatype Step<V> = Step(store: NodeStore<V>, local: Option<BlockId>, result: Result<()>)

  /** The same after moving a key up; on success the result is the new sibling. */
  datatype Split<V> = Split(store: NodeStore<V>, local: Option<BlockId>, result: Result<BlockId>)

  ghost predicate SlotOk<V>(s: NodeStore<V>, slot: Slot) {
    slot.ParentOf? ==> slot.owner < |s.blocks| && s.blocks[slot.owner].content.Some?
  }

  ghost predicate LocalOk<V>(s: NodeStore<V>, local: Option<BlockId>) {
    local.Some? ==> local.value < s.nextBlockId
  }

  /** `parent.get()` */
  function ReadSlot<V>(s: NodeStore<V>, local: Option<BlockId>, slot: Slot): Option<BlockId>
    requires SlotOk(s, slot)
  {
    match slot
    case Local => local
    case ParentOf(owner) => s.blocks[owner].content.value.parent
  }

  /** `parent.set(v)`: the local cell, or the owner's node in place. */
  function WriteSlot<V>(s: NodeStore<V>, local: Option<BlockId>, slot: Slot, v: Option<BlockId>): (r: (NodeStore<V>, Option<BlockId>))
    requires s.Valid() && SlotOk(s, slot)
    ensures r.0.Valid() && s.Keeps(r.0) && SlotOk(r.0, slot)
    ensures ReadSlot(r.0, r.1, slot) == v
    ensures slot.Local? ==> r.0 == s
    ensures slot.ParentOf? ==> r.1 == local
    ensures s.FreedEmpty() ==> r.0.FreedEmpty()
  {
    match slot
    case Local => (s, v)
    case ParentOf(owner) =>
      (s.Put(owner, Some(s.blocks[owner].content.value.(parent := v))), local)
  }

  /** `BPlusTree::new`: the root is a freshly allocated empty leaf without
      a parent. */
  function New<V>(s: NodeStore<V>, way: nat): (t: TreeState<V>)
    requires s.Valid() && s.FreedEmpty()
    ensures t.Valid() && t.way == way && s.Keeps(t.store)
    ensures t.root == s.AllocBlock().1 && t.root !in t.store.freeList
    ensures t.store.blocks[t.root] == Block(true, t.root, Some(NewLeaf(way, None)))
  {
    var (s1, root) := s.AllocWrite(NewLeaf(way, None));
    TreeState(way, s1, root)
  }

  /** Leaf `n` maps `key` to `v`. */
  ghost predicate LeafHolds<V>(n: Node<V>, key: int, v: V) {
    n.isLeaf && exists i :: 0 <= i < |n.keys| && i < |n.values| && n.keys[i] == key && n.values[i] == v
  }

  /** Some leaf stored in `s` maps `key` to `v`. */
  ghost predicate StoreHolds<V>(s: NodeStore<V>, key: int, v: V) {
    exists b :: 0 <= b < |s.blocks| && s.blocks[b].content.Some? && LeafHolds(s.blocks[b].content.value, key, v)
  }

  /** `search_helper`: read-only descent. An empty block gives nothing; an
      inner node sends the key to `SearchChild`; a leaf gives the value at the
      index the binary search found. */
  function SearchHelper<V>(s: NodeStore<V>, id: BlockId, key: int, fuel: nat): (r: Result<Option<V>>)
    requires s.Valid()
    ensures id >= s.nextBlockId ==> r == Err(Panic)
    ensures id < s.nextBlockId && s.blocks[id].content.None? ==> r == Ok(None)
    ensures r.Ok? && r.value.Some? ==> StoreHolds(s, key, r.value.value)
    ensures r.Err? ==> r.error != InvalidBlockId
    ensures id < s.nextBlockId && s.blocks[id].content.Some? && s.blocks[id].content.value.isLeaf ==>
              var n := s.blocks[id].content.value;
              Sorted(n.keys) && |n.values| == |n.keys| ==>
                && r.Ok?
                && (r.value.Some? <==> key in n.keys)
                && (r.value.Some? ==> LeafHolds(n, key, r.value.value))
    decreases fuel
  {
    if id >= s.nextBlockId then
      Err(Panic)
    else
      match s.blocks[id].content
      case None => Ok(None)
      case Some(n) =>
        if !n.isLeaf then
          var c := SearchChild(n, key);
          if c >= |n.pointers| then Err(Panic)
          else if fuel == 0 then Err(StackOverflow)
          else SearchHelper(s, n.pointers[c], key, fuel - 1)
        else
          match BinarySearch(n.keys, key)
          case NotFound(_) => Ok(None)
          case Found(i) => if i < |n.values| then Ok(Some(n.values[i])) else Err(Panic)
  }

  /** `search` from the root. */
  function Search<V>(t: TreeState<V>, key: int): (r: Result<Option<V>>)
    requires t.Valid()
    ensures r.Ok? && r.value.Some? ==> StoreHolds(t.store, key, r.value.value)
    ensures r.Err? ==> r.error != InvalidBlockId
  {
    SearchHelper(t.store, t.root, key, t.store.nextBlockId)
  }

  /** `t`, `tlocal` is a later state of `s`, `local` reached by allocations
      and writes that keep the slot readable and freed blocks empty. */
  ghost predicate Grew<V>(s: NodeStore<V>, local: Option<BlockId>, slot: Slot, t: NodeStore<V>, tlocal: Option<BlockId>) {
    && t.Valid() && t.FreedEmpty() && s.Keeps(t) && SlotOk(t, slot) && LocalOk(t, tlocal)
    && (slot.ParentOf? ==> tlocal == local)
  }

  lemma GrewTrans<V>(s: NodeStore<V>, local: Option<BlockId>, slot: Slot, t: NodeStore<V>, tlocal: Option<BlockId>, u: NodeStore<V>, ulocal: Option<BlockId>)
    requires Grew(s, local, slot, t, tlocal) && Grew(t, tlocal, slot, u, ulocal)
    ensures Grew(s, local, slot, u, ulocal)
  {
    KeepsTrans(s, t, u);
  }

  /** Writing a node into a block that holds one keeps the store growing. */
  lemma PutGrows<V>(s: NodeStore<V>, local: Option<BlockId>, slot: Slot, id: BlockId, n: Node<V>)
    requires s.Valid() && s.FreedEmpty() && SlotOk(s, slot) && LocalOk(s, local)
    requires id < |s.blocks| && s.blocks[id].content.Some?
    ensures Grew(s, local, slot, s.Put(id, Some(n)), local)
  {
    assert id !in s.freeList;
  }

  /** Allocating a block for a node keeps the store growing. */
  lemma AllocGrows<V>(s: NodeStore<V>, local: Option<BlockId>, slot: Slot, n: Node<V>)
    requires s.Valid() && s.FreedEmpty() && SlotOk(s, slot) && LocalOk(s, local)
    ensures Grew(s, local, slot, s.AllocWrite(n).0, local)
    ensures slot.ParentOf? ==> slot.owner != s.AllocWrite(n).1
  {
  }

  /** The first half of moving a key up: when the slot is empty, allocate
      `root` and put its id in the slot. */
  function OpenParent<V>(s: NodeStore<V>, local: Option<BlockId>, slot: Slot, root: Node<V>): (r: (NodeStore<V>, Option<BlockId>))
    requires s.Valid() && s.FreedEmpty() && SlotOk(s, slot) && LocalOk(s, local)
    ensures Grew(s, local, slot, r.0, r.1)
    ensures ReadSlot(r.0, r.1, slot).Some?
  {
    if ReadSlot(s, local, slot).Some? then
      (s, local)
    else
      var (t, rootId) := s.AllocWrite(root);
      AllocGrows(s, local, slot, root);
      var r := WriteSlot(t, local, slot, Some(rootId));
      KeepsTrans(s, t, r.0);
      r
  }

  /** A slot that names a parent is left alone; an empty one ends up naming
      a block that was empty and now holds `root`. */
  lemma OpenParentFills<V>(s: NodeStore<V>, local: Option<BlockId>, slot: Slot, root: Node<V>)
    requires s.Valid() && s.FreedEmpty() && SlotOk(s, slot) && LocalOk(s, local)
    ensures var r := OpenParent(s, local, slot, root);
            && (ReadSlot(s, local, slot).Some? ==> r == (s, local))
            && (ReadSlot(s, local, slot).None? ==>
                  var p := ReadSlot(r.0, r.1, slot).value;
                  && p < |r.0.blocks| && (p >= |s.blocks| || s.blocks[p].content.None?)
                  && r.0.blocks[p].content == Some(root))
  {
    if ReadSlot(s, local, slot).None? {
      var (t, rootId) := s.AllocWrite(root);
      AllocGrows(s, local, slot, root);
      var r := WriteSlot(t, local, slot, Some(rootId));
      assert ReadSlot(r.0, r.1, slot) == Some(rootId);
    }
  }

  /** The second half: fetch the parent the slot names, allocate the new
      sibling `right` with that parent, and add `mid` and the sibling to the
      parent. On success the result is the sibling's id. */
  function Attach<V>(s: NodeStore<V>, local: Option<BlockId>, slot: Slot, mid: int, right: Node<V>): (r: Split<V>)
    requires s.Valid() && s.FreedEmpty() && SlotOk(s, slot) && LocalOk(s, local) && ReadSlot(s, local, slot).Some?
    ensures Grew(s, local, slot, r.store, r.local) && r.local == local
  {
    var p := ReadSlot(s, local, slot).value;
    if p >= s.nextBlockId then
      Split(s, local, Err(InvalidBlockId))
    else if s.blocks[p].content.None? then
      Split(s, local, Err(Panic))
    else
      Link(s, local, slot, p, mid, right)
  }

  /** `r` is what linking `right` under the parent in block `p` of `s` gives:
      the parent gains the separator `mid` and a pointer to the sibling, or the
      operation panics, which it does exactly when the parent has too few
      pointers; the sibling lives in a block that was empty. */
  ghost predicate LinkedTo<V>(s: NodeStore<V>, p: BlockId, mid: int, right: Node<V>, r: Split<V>)
    requires p < |s.blocks| && s.blocks[p].content.Some?
  {
    var pn := s.blocks[p].content.value;
    && (r.result.Err? <==> BinarySearch(pn.keys, mid).index >= |pn.pointers|)
    && (r.result.Err? ==> r.result.error == Panic)
    && (r.result.Ok? ==>
          && p < |r.store.blocks| && r.store.blocks[p].content.Some?
          && AddSeparator(pn, mid, r.result.value) == Ok(r.store.blocks[p].content.value)
          && var rid := r.result.value;
          && rid != p && rid < |r.store.blocks|
          && (rid >= |s.blocks| || s.blocks[rid].content.None?)
          && r.store.blocks[rid].content == Some(right.(parent := Some(p))))
  }

  /** The parent named by the slot stays named by it, and when it exists the
      sibling is linked under it; the outcome is never a stack overflow. */
  lemma AttachLinks<V>(s: NodeStore<V>, local: Option<BlockId>, slot: Slot, mid: int, right: Node<V>)
    requires s.Valid() && s.FreedEmpty() && SlotOk(s, slot) && LocalOk(s, local) && ReadSlot(s, local, slot).Some?
    ensures var r := Attach(s, local, slot, mid, right);
            && ReadSlot(r.store, r.local, slot) == ReadSlot(s, local, slot)
            && (r.result.Err? ==> r.result.error != StackOverflow)
            && var p := ReadSlot(s, local, slot).value;
            && (p < |s.blocks| && s.blocks[p].content.Some? ==> LinkedTo(s, p, mid, right, r))
  {
    var p := ReadSlot(s, local, slot).value;
    if p < s.nextBlockId && s.blocks[p].content.Some? {
      LinkLinks(s, local, slot, p, mid, right);
    }
  }

  function Link<V>(s: NodeStore<V>, local: Option<BlockId>, slot: Slot, p: BlockId, mid: int, right: Node<V>): (r: Split<V>)
    requires s.Valid() && s.FreedEmpty() && SlotOk(s, slot) && LocalOk(s, local)
    requires p < |s.blocks| && s.blocks[p].content.Some?
    ensures Grew(s, local, slot, r.store, r.local) && r.local == local
  {
    var pn := s.blocks[p].content.value;
    var (s2, rid) := s.AllocWrite(right.(parent := Some(p)));
    AllocGrows(s, local, slot, right.(parent := Some(p)));
    var n := match AddSeparator(pn, mid, rid)
             case Err(_) => pn.(keys := InsertAt(pn.keys, BinarySearch(pn.keys, mid).index, mid))
             case Ok(parent) => parent;
    var s3 := s2.Put(p, Some(n));
    PutGrows(s2, local, slot, p, n);
    GrewTrans(s, local, slot, s2, local, s3, local);
    Split(s3, local, if AddSeparator(pn, mid, rid).Ok? then Ok(rid) else Err(Panic))
  }

  /** Linking writes only the parent and a fresh block, so the slot reads the
      same afterwards, and the result is `LinkedTo` the parent. */
  lemma LinkLinks<V>(s: NodeStore<V>, local: Option<BlockId>, slot: Slot, p: BlockId, mid: int, right: Node<V>)
    requires s.Valid() && s.FreedEmpty() && SlotOk(s, slot) && LocalOk(s, local)
    requires p < |s.blocks| && s.blocks[p].content.Some?
    ensures var r := Link(s, local, slot, p, mid, right);
            ReadSlot(r.store, r.local, slot) == ReadSlot(s, local, slot) && LinkedTo(s, p, mid, right, r)
  {
    var (s2, rid) := s.AllocWrite(right.(parent := Some(p)));
    AllocGrows(s, local, slot, right.(parent := Some(p)));
    assert rid != p;
  }

  /** Moving a key up: open the parent (making `root` when the slot is
      empty), then link `right` under it with separator `mid`. On success the
      result is the sibling's id. */
  function Promote<V>(s: NodeStore<V>, local: Option<BlockId>, slot: Slot, root: Node<V>, mid: int, right: Node<V>): (r: Split<V>)
    requires s.Valid() && s.FreedEmpty() && SlotOk(s, slot) && LocalOk(s, local)
    ensures Grew(s, local, slot, r.store, r.local)
  {
    var (s1, local1) := OpenParent(s, local, slot, root);
    var r := Attach(s1, local1, slot, mid, right);
    GrewTrans(s, local, slot, s1, local1, r.store, r.local);
    r
  }

  /** Moving a key up never overflows the stack; from an empty slot it fails
      exactly when `root` has too few pointers for the separator; on success
      the slot names the parent, and the sibling lives in a block that was
      empty, with that parent. */
  lemma PromoteMovesKeyUp<V>(s: NodeStore<V>, local: Option<BlockId>, slot: Slot, root: Node<V>, mid: int, right: Node<V>)
    requires s.Valid() && s.FreedEmpty() && SlotOk(s, slot) && LocalOk(s, local)
    ensures var r := Promote(s, local, slot, root, mid, right);
            && (r.result.Err? ==> r.result.error != StackOverflow)
            && (ReadSlot(s, local, slot).None? ==>
                  && (r.result.Err? <==> BinarySearch(root.keys, mid).index >= |root.pointers|)
                  && (r.result.Err? ==> r.result.error == Panic))
            && (r.result.Ok? ==>
                  && ReadSlot(r.store, r.local, slot).Some?
                  && var rid := r.result.value;
                  && rid < |r.store.blocks| && (rid >= |s.blocks| || s.blocks[rid].content.None?)
                  && r.store.blocks[rid].content == Some(right.(parent := ReadSlot(r.store, r.local, slot))))
  {
    var (s1, local1) := OpenParent(s, local, slot, root);
    OpenParentFills(s, local, slot, root);
    AttachLinks(s1, local1, slot, mid, right);
  }

  /** The root a leaf split makes when the tree grows a level: one separator
      over the old root `below` and the old root's new sibling. */
  ghost predicate GrownRoot<V>(n: Node<V>, below: BlockId) {
    && !n.isLeaf && n.parent.None?
    && |n.keys| == 1 && |n.pointers| == 2 && n.pointers[0] == below && n.pointers[1] != below
  }

  /** Adding the first separator to the root template of a leaf split gives
      a grown root. */
  lemma FirstSeparatorGrowsRoot<V>(way: nat, id: BlockId, mid: int, rid: BlockId)
    requires rid != id
    ensures AddSeparator(NewInner<V>(way).(pointers := [id]), mid, rid).Ok?
    ensures GrownRoot(AddSeparator(NewInner<V>(way).(pointers := [id]), mid, rid).value, id)
  {
    assert BinarySearch([], mid).index == 0;
  }

  /** What the local cell of `insert` names after a successful step that
      started with it empty: still nothing, or a new root over `id`. */
  ghost predicate RootAbove<V>(r: Step<V>, id: BlockId) {
    r.local.Some? ==>
      && r.local.value < |r.store.blocks| && r.local.value != id
      && r.store.blocks[r.local.value].content.Some?
      && GrownRoot(r.store.blocks[r.local.value].content.value, id)
  }

  /** An overfull leaf: cut it, move a copy of the right half's first key up,
      and link the old leaf to the new one. */
  function SplitLeaf<V>(s: NodeStore<V>, local: Option<BlockId>, slot: Slot, id: BlockId): (r: Step<V>)
    requires s.Valid() && s.FreedEmpty() && SlotOk(s, slot) && LocalOk(s, local)
    requires id < |s.blocks| && s.blocks[id].content.Some?
    requires s.blocks[id].content.value.isLeaf && |s.blocks[id].content.value.keys| > 0
    ensures Grew(s, local, slot, r.store, r.local)
  {
    var node := s.blocks[id].content.value;
    var (left, right) := CutLeaf(node, id);
    LinkLeaves(s, local, slot, id, left, right)
  }

  /** On success the split leaf and the leaf after it together hold the old
      pairs, in order, the first half of them in the old block; the new leaf
      sits between the old one and its old successor. */
  lemma SplitLeafKeepsPairs<V>(s: NodeStore<V>, local: Option<BlockId>, slot: Slot, id: BlockId)
    requires s.Valid() && s.FreedEmpty() && SlotOk(s, slot) && LocalOk(s, local)
    requires id < |s.blocks| && s.blocks[id].content.Some?
    requires s.blocks[id].content.value.isLeaf && |s.blocks[id].content.value.keys| > 0
    ensures var r := SplitLeaf(s, local, slot, id);
            r.result.Ok? ==>
              var node := s.blocks[id].content.value;
              && r.store.blocks[id].content.Some?
              && var ln := r.store.blocks[id].content.value;
              && ln.next.Some? && ln.next.value != id
              && ln.next.value < |r.store.blocks| && r.store.blocks[ln.next.value].content.Some?
              && var rn := r.store.blocks[ln.next.value].content.value;
              && ln.keys + rn.keys == node.keys && ln.values + rn.values == node.values
              && |ln.keys| == |node.keys| / 2
              && ln.isLeaf && rn.isLeaf && ln.prev == node.prev && rn.prev == Some(id) && rn.next == node.next
              && ln.parent == node.parent && rn.parent.Some?
  {
    var node := s.blocks[id].content.value;
    var (left, right) := CutLeaf(node, id);
    LinkLeavesLinks(s, local, slot, id, left, right);
  }

  /** The store half of a leaf split: write `left` back, move `right`'s first
      key up, and point `left` at the block that now holds `right`. */
  function LinkLeaves<V>(s: NodeStore<V>, local: Option<BlockId>, slot: Slot, id: BlockId, left: Node<V>, right: Node<V>): (r: Step<V>)
    requires s.Valid() && s.FreedEmpty() && SlotOk(s, slot) && LocalOk(s, local)
    requires id < |s.blocks| && s.blocks[id].content.Some? && |right.keys| > 0
    ensures Grew(s, local, slot, r.store, r.local)
  {
    var s1 := s.Put(id, Some(left));
    PutGrows(s, local, slot, id, left);
    var sp := Promote(s1, local, slot, NewInner(left.way).(pointers := [id]), right.keys[0], right);
    GrewTrans(s, local, slot, s1, local, sp.store, sp.local);
    if sp.result.Err? then
      Step(sp.store, sp.local, Err(sp.result.error))
    else
      var rid := sp.result.value;
      var s3 := sp.store.Put(id, Some(left.(next := Some(rid))));
      PutGrows(sp.store, sp.local, slot, id, left.(next := Some(rid)));
      GrewTrans(s, local, slot, sp.store, sp.local, s3, sp.local);
      Step(s3, sp.local, Ok(()))
  }

  /** On success `left` is in the old block, linked to the new block, which
      holds `right` under a parent. */
  lemma LinkLeavesLinks<V>(s: NodeStore<V>, local: Option<BlockId>, slot: Slot, id: BlockId, left: Node<V>, right: Node<V>)
    requires s.Valid() && s.FreedEmpty() && SlotOk(s, slot) && LocalOk(s, local)
    requires id < |s.blocks| && s.blocks[id].content.Some? && |right.keys| > 0
    ensures var r := LinkLeaves(s, local, slot, id, left, right);
            r.result.Ok? ==>
              && r.store.blocks[id].content.Some?
              && var ln := r.store.blocks[id].content.value;
              && ln.next.Some? && ln == left.(next := ln.next) && ln.next.value != id
              && ln.next.value < |r.store.blocks| && r.store.blocks[ln.next.value].content.Some?
              && var rn := r.store.blocks[ln.next.value].content.value;
              && rn == right.(parent := rn.parent) && rn.parent.Some?
  {
    var s1 := s.Put(id, Some(left));
    PutGrows(s, local, slot, id, left);
    var sp := Promote(s1, local, slot, NewInner(left.way).(pointers := [id]), right.keys[0], right);
    PromoteMovesKeyUp(s1, local, slot, NewInner(left.way).(pointers := [id]), right.keys[0], right);
    if sp.result.Ok? {
      var rid := sp.result.value;
      assert rid != id;
    }
  }

  /** An overfull inner node: cut it and move its middle key up. */
  function SplitInner<V>(s: NodeStore<V>, local: Option<BlockId>, slot: Slot, id: BlockId): (r: Step<V>)
    requires s.Valid() && s.FreedEmpty() && SlotOk(s, slot) && LocalOk(s, local)
    requires id < |s.blocks| && s.blocks[id].content.Some?
    requires !s.blocks[id].content.value.isLeaf && |s.blocks[id].content.value.keys| > 0
    ensures Grew(s, local, slot, r.store, r.local)
  {
    var node := s.blocks[id].content.value;
    match CutInner(node, id)
    case Err(e) =>
      Step(s.Put(id, Some(node.(keys := node.keys[..|node.keys| / 2]))), local, Err(e))
    case Ok((left, mid, right)) =>
      LinkInner(s, local, slot, id, left, mid, right)
  }

  /** The store half of an inner split: write `left` back and move `mid` up
      with `right` as its new sibling. */
  function LinkInner<V>(s: NodeStore<V>, local: Option<BlockId>, slot: Slot, id: BlockId, left: Node<V>, mid: int, right: Node<V>): (r: Step<V>)
    requires s.Valid() && s.FreedEmpty() && SlotOk(s, slot) && LocalOk(s, local)
    requires id < |s.blocks| && s.blocks[id].content.Some?
    ensures Grew(s, local, slot, r.store, r.local)
  {
    var s1 := s.Put(id, Some(left));
    var sp := Promote(s1, local, slot, NewInner(left.way), mid, right);
    GrewTrans(s, local, slot, s1, local, sp.store, sp.local);
    Step(sp.store, sp.local, if sp.result.Ok? then Ok(()) else Err(sp.result.error))
  }

  /** An inner split whose parent cell is empty (one at the top of the tree)
      always panics: the new root it makes has no pointers to extend. */
  lemma SplitInnerAtTopPanics<V>(s: NodeStore<V>, local: Option<BlockId>, slot: Slot, id: BlockId)
    requires s.Valid() && s.FreedEmpty() && SlotOk(s, slot) && LocalOk(s, local)
    requires id < |s.blocks| && s.blocks[id].content.Some?
    requires !s.blocks[id].content.value.isLeaf && |s.blocks[id].content.value.keys| > 0
    requires ReadSlot(s, local, slot).None?
    ensures SplitInner(s, local, slot, id).result == Err(Panic)
  {
    var node := s.blocks[id].content.value;
    var cut := CutInner(node, id);
    if cut.Ok? {
      var (left, mid, right) := cut.value;
      var s1 := s.Put(id, Some(left));
      assert ReadSlot(s1, local, slot).None?;
      PromoteMovesKeyUp(s1, local, slot, NewInner(left.way), mid, right);
      assert BinarySearch([], mid).index == 0;
    }
  }

  /** After the insert below it, a node with more keys than its `way` splits. */
  function SplitIfOverfull<V>(s: NodeStore<V>, local: Option<BlockId>, slot: Slot, id: BlockId): (r: Step<V>)
    requires s.Valid() && s.FreedEmpty() && SlotOk(s, slot) && LocalOk(s, local)
    requires id < |s.blocks| && s.blocks[id].content.Some?
    ensures Grew(s, local, slot, r.store, r.local)
  {
    var node := s.blocks[id].content.value;
    if |node.keys| <= node.way then Step(s, local, Ok(()))
    else if node.isLeaf then SplitLeaf(s, local, slot, id)
    else SplitInner(s, local, slot, id)
  }

  /** A split fails only by a panic or a bad block id, never by running out
      of stack: it does not recurse. */
  lemma SplitNeverOverflows<V>(s: NodeStore<V>, local: Option<BlockId>, slot: Slot, id: BlockId)
    requires s.Valid() && s.FreedEmpty() && SlotOk(s, slot) && LocalOk(s, local)
    requires id < |s.blocks| && s.blocks[id].content.Some?
    ensures var r := SplitIfOverfull(s, local, slot, id);
            r.result.Err? ==> r.result.error != StackOverflow
  {
    var node := s.blocks[id].content.value;
    if |node.keys| > node.way {
      if node.isLeaf {
        var (left, right) := CutLeaf(node, id);
        PromoteMovesKeyUp(s.Put(id, Some(left)), local, slot, NewInner(left.way).(pointers := [id]), right.keys[0], right);
      } else {
        var cut := CutInner(node, id);
        if cut.Ok? {
          var (left, mid, right) := cut.value;
          PromoteMovesKeyUp(s.Put(id, Some(left)), local, slot, NewInner(left.way), mid, right);
        }
      }
    }
  }

  /** The leaf branch of `insert_helper`: insert the pair into the leaf at
      `id` in place. A key already present is inserted again beside the old
      one. A leaf with fewer values than the key's position makes the value
      insert panic after the key has been written. */
  function InsertIntoLeaf<V>(s: NodeStore<V>, local: Option<BlockId>, id: BlockId, key: int, value: V): (r: Step<V>)
    requires s.Valid() && s.FreedEmpty()
    requires id < |s.blocks| && s.blocks[id].content.Some? && s.blocks[id].content.value.isLeaf
    ensures r.local == local && r.store.Valid() && r.store.FreedEmpty() && s.Keeps(r.store)
    ensures r.store.nextBlockId == s.nextBlockId && r.store.freeList == s.freeList
    ensures r.result.Err? ==> r.result.error == Panic
  {
    var node := s.blocks[id].content.value;
    match LeafInsert(node, key, value)
    case Err(e) =>
      var keys := InsertAt(node.keys, BinarySearch(node.keys, key).index, key);
      Step(s.Put(id, Some(node.(keys := keys))), local, Err(e))
    case Ok(n) =>
      Step(s.Put(id, Some(n)), local, Ok(()))
  }

  /** `insert_helper`: at a leaf insert the pair, at an inner node descend;
      then, unless that failed, split this node if it is overfull. */
  function InsertHelper<V>(s: NodeStore<V>, local: Option<BlockId>, slot: Slot, id: BlockId, key: int, value: V, fuel: nat): (r: Step<V>)
    requires s.Valid() && s.FreedEmpty() && SlotOk(s, slot) && LocalOk(s, local)
    ensures Grew(s, local, slot, r.store, r.local)
    decreases fuel, 1
  {
    if id >= s.nextBlockId then
      Step(s, local, Err(Panic))
    else
      match s.blocks[id].content
      case None => Step(s, local, Ok(()))
      case Some(node) =>
        var sub :=
          if node.isLeaf then InsertIntoLeaf(s, local, id, key, value)
          else Descend(s, local, id, key, value, fuel);
        if sub.result.Err? then sub
        else
          var r := SplitIfOverfull(sub.store, sub.local, slot, id);
          GrewTrans(s, local, slot, sub.store, sub.local, r.store, r.local);
          r
  }

  /** The inner branch of `insert_helper`: descend into the child the key
      routes to, handing it this node's own parent cell. */
  function Descend<V>(s: NodeStore<V>, local: Option<BlockId>, id: BlockId, key: int, value: V, fuel: nat): (r: Step<V>)
    requires s.Valid() && s.FreedEmpty() && LocalOk(s, local)
    requires id < |s.blocks| && s.blocks[id].content.Some? && !s.blocks[id].content.value.isLeaf
    ensures Grew(s, local, ParentOf(id), r.store, r.local)
    decreases fuel, 0
  {
    var node := s.blocks[id].content.value;
    var c := InsertChild(node, key);
    if c >= |node.pointers| then Step(s, local, Err(Panic))
    else if fuel == 0 then Step(s, local, Err(StackOverflow))
    else InsertHelper(s, local, ParentOf(id), node.pointers[c], key, value, fuel - 1)
  }

  /** Moving a key up from a slot that names no block makes a new block
      from `root`, and on success that block holds `root` with the separator
      and the new sibling added. */
  lemma PromoteOpensRoot<V>(s: NodeStore<V>, local: Option<BlockId>, slot: Slot, root: Node<V>, mid: int, right: Node<V>)
    requires s.Valid() && s.FreedEmpty() && SlotOk(s, slot) && LocalOk(s, local)
    requires ReadSlot(s, local, slot).None?
    ensures var r := Promote(s, local, slot, root, mid, right);
            r.result.Ok? ==>
              var p := ReadSlot(r.store, r.local, slot).value;
              && p < |r.store.blocks| && p != r.result.value && (p >= |s.blocks| || s.blocks[p].content.None?)
              && r.store.blocks[p].content.Some?
              && AddSeparator(root, mid, r.result.value) == Ok(r.store.blocks[p].content.value)
  {
    var (s1, local1) := OpenParent(s, local, slot, root);
    OpenParentFills(s, local, slot, root);
    AttachLinks(s1, local1, slot, mid, right);
  }

  /** A leaf split at the top of an insert, where the local cell is still
      empty, fills the cell with a grown root over the split leaf. */
  lemma LeafSplitGrowsRoot<V>(s: NodeStore<V>, id: BlockId, left: Node<V>, right: Node<V>)
    requires s.Valid() && s.FreedEmpty()
    requires id < |s.blocks| && s.blocks[id].content.Some? && |right.keys| > 0
    ensures var r := LinkLeaves(s, None, Local, id, left, right);
            r.result.Ok? ==> r.local.Some? && RootAbove(r, id)
  {
    var s1 := s.Put(id, Some(left));
    var root := NewInner<V>(left.way).(pointers := [id]);
    var sp := Promote(s1, None, Local, root, right.keys[0], right);
    if sp.result.Ok? {
      PromoteOpensRoot(s1, None, Local, root, right.keys[0], right);
      PromoteMovesKeyUp(s1, None, Local, root, right.keys[0], right);
      var rid := sp.result.value;
      assert rid != id;
      FirstSeparatorGrowsRoot<V>(left.way, id, right.keys[0], rid);
      var p := sp.local.value;
      assert p != id;
      var s3 := sp.store.Put(id, Some(left.(next := Some(rid))));
      assert s3.blocks[p] == sp.store.blocks[p];
      assert LinkLeaves(s, None, Local, id, left, right) == Step(s3, sp.local, Ok(()));
    }
  }

  /** Splitting at the top of an insert either leaves the local cell empty or
      fills it with a grown root; an inner split there never succeeds. */
  lemma SplitGrowsRootFromLeafOnly<V>(s: NodeStore<V>, id: BlockId)
    requires s.Valid() && s.FreedEmpty() && id < |s.blocks| && s.blocks[id].content.Some?
    ensures var r := SplitIfOverfull(s, None, Local, id);
            r.result.Ok? ==> RootAbove(r, id)
  {
    var node := s.blocks[id].content.value;
    if |node.keys| > node.way && node.isLeaf {
      var (left, right) := CutLeaf(node, id);
      LeafSplitGrowsRoot(s, id, left, right);
    }
  }

  /** A successful insert_helper call on the root, with the local cell empty,
      leaves the cell empty or naming a grown root over the old one: the tree
      grows only at the top, by one level. */
  lemma InsertGrowsRootAtTop<V>(s: NodeStore<V>, id: BlockId, key: int, value: V, fuel: nat)
    requires s.Valid() && s.FreedEmpty()
    ensures var r := InsertHelper(s, None, Local, id, key, value, fuel);
            r.result.Ok? ==> RootAbove(r, id)
  {
    if id < s.nextBlockId && s.blocks[id].content.Some? {
      var node := s.blocks[id].content.value;
      var sub :=
        if node.isLeaf then InsertIntoLeaf(s, None, id, key, value)
        else Descend(s, None, id, key, value, fuel);
      if sub.result.Ok? {
        SplitGrowsRootFromLeafOnly(sub.store, id);
      }
    }
  }

  /** `insert`: run the helper with an empty local cell; when it succeeds and
      the cell was filled, the block it names becomes the root. */
  function Insert<V>(t: TreeState<V>, key: int, value: V): (r: (TreeState<V>, Result<()>))
    requires t.Valid()
    ensures r.0.Valid() && r.0.way == t.way && t.store.Keeps(r.0.store)
    ensures r.1.Err? ==> r.0.root == t.root
    ensures r.1.Ok? && r.0.root != t.root ==>
              r.0.store.blocks[r.0.root].content.Some? && GrownRoot(r.0.store.blocks[r.0.root].content.value, t.root)
  {
    var step := InsertHelper(t.store, None, Local, t.root, key, value, t.store.nextBlockId);
    InsertGrowsRootAtTop(t.store, t.root, key, value, t.store.nextBlockId);
    if step.result.Err? then
      (t.(store := step.store), step.result)
    else
      (t.(store := step.store, root := if step.local.Some? then step.local.value else t.root), Ok(()))
  }

  /** The store `t` is `s` with `key` and its value `v` taken out of one leaf. */
  ghost predicate RemovedFrom<V>(s: NodeStore<V>, t: NodeStore<V>, b: BlockId, key: int, v: V)
    requires s.Valid()
  {
    && b < |s.blocks| && s.blocks[b].content.Some? && s.blocks[b].content.value.isLeaf
    && var (n, res) := LeafRemove(s.blocks[b].content.value, key);
    && res == Ok(Some(v))
    && t == s.Put(b, Some(n))
  }

  /** `delete_helper`: at a leaf remove the pair; at an inner node give up
      unless a separator equals the key, and then descend to `InsertChild`. */
  function DeleteHelper<V>(s: NodeStore<V>, id: BlockId, key: int, fuel: nat): (r: (NodeStore<V>, Result<Option<V>>))
    requires s.Valid()
    ensures r.0.Valid() && r.0.nextBlockId == s.nextBlockId && r.0.freeList == s.freeList
    ensures s.FreedEmpty() ==> r.0.FreedEmpty()
    ensures r.1 == Ok(None) ==> r.0 == s
    ensures r.1.Ok? && r.1.value.Some? ==> exists b :: RemovedFrom(s, r.0, b, key, r.1.value.value)
    ensures (id < s.nextBlockId && s.blocks[id].content.Some? && !s.blocks[id].content.value.isLeaf
             && BinarySearch(s.blocks[id].content.value.keys, key).NotFound?) ==> r == (s, Ok(None))
    decreases fuel
  {
    if id >= s.nextBlockId then
      (s, Err(Panic))
    else
      match s.blocks[id].content
      case None => (s, Ok(None))
      case Some(node) =>
        if node.isLeaf then
          var (n, res) := LeafRemove(node, key);
          if res == Ok(None) then (s, res)
          else
            var t := s.Put(id, Some(n));
            assert res.Ok? ==> RemovedFrom(s, t, id, key, res.value.value);
            (t, res)
        else
          match BinarySearch(node.keys, key)
          case NotFound(_) => (s, Ok(None))
          case Found(pos) =>
            if pos >= |node.pointers| then (s, Err(Panic))
            else if fuel == 0 then (s, Err(StackOverflow))
            else DeleteHelper(s, node.pointers[pos], key, fuel - 1)
  }

  /** `delete`: the helper from the root; the root never changes. */
  function Delete<V>(t: TreeState<V>, key: int): (r: (TreeState<V>, Result<Option<V>>))
    requires t.Valid()
    ensures r.0.Valid() && r.0.root == t.root && r.0.way == t.way
    ensures r.1 == Ok(None) ==> r.0 == t
    ensures r.1.Ok? && r.1.value.Some? ==> exists b :: RemovedFrom(t.store, r.0.store, b, key, r.1.value.value)
  {
    var (s, res) := DeleteHelper(t.store, t.root, key, t.store.nextBlockId);
    (t.(store := s), res)
  }

  /** The root is a leaf with room for one more key, whose keys are sorted
      and do not include `key`, with a value for every key. */
  ghost predicate RoomyRootLeaf<V>(t: TreeState<V>, key: int)
    requires t.Valid()
  {
    && t.store.blocks[t.root].content.Some?
    && var n := t.store.blocks[t.root].content.value;
    && n.isLeaf && Sorted(n.keys) && |n.values| == |n.keys| && key !in n.keys && |n.keys| < n.way
  }

  /** In a root leaf with room, `insert` puts the pair in the leaf without
      splitting it, and the root stays. */
  lemma InsertIntoRoomyRootLeaf<V>(t: TreeState<V>, key: int, value: V)
    requires t.Valid() && RoomyRootLeaf(t, key)
    ensures var n := t.store.blocks[t.root].content.value;
            Insert(t, key, value) == (t.(store := t.store.Put(t.root, Some(LeafInsert(n, key, value).value))), Ok(()))
  {
    var n := t.store.blocks[t.root].content.value;
    var s1 := t.store.Put(t.root, Some(LeafInsert(n, key, value).value));
    assert SplitIfOverfull(s1, None, Local, t.root) == Step(s1, None, Ok(()));
  }

  /** A key inserted into a root leaf with room is found by `search`, with
      the value it was inserted with. */
  lemma InsertThenSearch<V>(t: TreeState<V>, key: int, value: V)
    requires t.Valid() && RoomyRootLeaf(t, key)
    ensures Insert(t, key, value).1 == Ok(())
    ensures Search(Insert(t, key, value).0, key) == Ok(Some(value))
  {
    InsertIntoRoomyRootLeaf(t, key, value);
    LeafInsertThenFind(t.store.blocks[t.root].content.value, key, value);
  }

  /** When the root is a leaf, `delete` is the leaf removal written back in
      place, and nothing is written when the key is absent. */
  lemma DeleteAtRootLeaf<V>(t: TreeState<V>, key: int)
    requires t.Valid() && t.store.blocks[t.root].content.Some? && t.store.blocks[t.root].content.value.isLeaf
    ensures var (n, res) := LeafRemove(t.store.blocks[t.root].content.value, key);
            Delete(t, key) == (if res == Ok(None) then t else t.(store := t.store.Put(t.root, Some(n))), res)
  {
  }

  /** When the root is a well-formed leaf, `delete` returns a value exactly
      when the key is in the leaf, that value is one the leaf stores under the
      key, the root loses one copy of the key, and no other block changes. */
  lemma DeleteFromRootLeaf<V>(t: TreeState<V>, key: int)
    requires t.Valid() && t.store.blocks[t.root].content.Some?
    requires var n := t.store.blocks[t.root].content.value;
             n.isLeaf && Sorted(n.keys) && |n.values| == |n.keys|
    ensures var n := t.store.blocks[t.root].content.value;
            var (u, res) := Delete(t, key);
            && res.Ok? && (res.value.Some? <==> key in n.keys)
            && (res.value.Some? ==> LeafHolds(n, key, res.value.value))
            && u.root == t.root && u.store.blocks[t.root].content.Some?
            && multiset(u.store.blocks[t.root].content.value.keys) == multiset(n.keys) - multiset{key}
            && |u.store.blocks| == |t.store.blocks|
            && forall b :: 0 <= b < |t.store.blocks| && b != t.root ==> u.store.blocks[b] == t.store.blocks[b]
  {
    var n := t.store.blocks[t.root].content.value;
    DeleteAtRootLeaf(t, key);
    LeafRemoveKeepsLeaf(n, key);
    var (m, res) := LeafRemove(n, key);
    if BinarySearch(n.keys, key).Found? {
      var pos := BinarySearch(n.keys, key).index;
      assert n.keys[pos] == key;
      assert LeafHolds(n, key, n.values[pos]);
    } else {
      assert multiset(n.keys)[key] == 0;
    }
  }

  /** Deleting a key just inserted into a root leaf with room gives its value
      back and restores the tree exactly. */
  lemma InsertThenDelete<V>(t: TreeState<V>, key: int, value: V)
    requires t.Valid() && RoomyRootLeaf(t, key)
    ensures Delete(Insert(t, key, value).0, key) == (t, Ok(Some(value)))
  {
    var n := t.store.blocks[t.root].content.value;
    InsertIntoRoomyRootLeaf(t, key, value);
    DeleteUndoesLeafInsert(t, key, value, t.(store := t.store.Put(t.root, Some(LeafInsert(n, key, value).value))));
  }

  lemma DeleteUndoesLeafInsert<V>(t: TreeState<V>, key: int, value: V, t1: TreeState<V>)
    requires t.Valid() && RoomyRootLeaf(t, key)
    requires var n := t.store.blocks[t.root].content.value;
             t1 == t.(store := t.store.Put(t.root, Some(LeafInsert(n, key, value).value)))
    ensures Delete(t1, key) == (t, Ok(Some(value)))
  {
    var n := t.store.blocks[t.root].content.value;
    LeafRemoveUndoesInsert(n, key, value);
    DeleteAtRootLeaf(t1, key);
    PutRestores(t.store, t.root, Some(LeafInsert(n, key, value).value));
  }
}
