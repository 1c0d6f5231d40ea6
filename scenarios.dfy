/** Concrete runs of the tree with `way = 2` and string values: the run of
    the repository's own test (insert 1, 2, 3, then search 1 to 4), and the
    same run continued with 4, after which the tree loses 3 and 4 to
    `search`. Each state is written out block by block. */
module Scenarios {
  import opened Wrappers
  import opened Blocks
  import opened Nodes
  import opened TreeOps

  function Leaf(parent: Option<BlockId>, keys: seq<int>, values: seq<string>, prev: Option<BlockId>, next: Option<BlockId>): Node<string> {
    Node(parent, 2, true, keys, values, prev, next, [])
  }

  function Inner(parent: Option<BlockId>, keys: seq<int>, pointers: seq<BlockId>): Node<string> {
    Node(parent, 2, false, keys, [], None, None, pointers)
  }

  function Stored(nodes: seq<Node<string>>): seq<Block<Node<string>>> {
    seq(|nodes|, i requires 0 <= i < |nodes| => Block(true, i, Some(nodes[i])))
  }

  function Tree(nodes: seq<Node<string>>, root: BlockId): TreeState<string> {
    TreeState(2, Store(Stored(nodes), |nodes|, []), root)
  }

  /** A new tree: one empty leaf. */
  function T0(): TreeState<string> {
    Tree([Leaf(None, [], [], None, None)], 0)
  }

  /** After inserting 1 "apple". */
  function T1(): TreeState<string> {
    Tree([Leaf(None, [1], ["apple"], None, None)], 0)
  }

  /** After inserting 2 "banana": the root leaf is full. */
  function T2(): TreeState<string> {
    Tree([Leaf(None, [1, 2], ["apple", "banana"], None, None)], 0)
  }

  /** After inserting 3 "cherry": the leaf split, and block 1 is the new root
      [2] over the leaves [1] and [2, 3]. */
  function T3(): TreeState<string> {
    Tree([Leaf(None, [1], ["apple"], None, Some(2)),
          Inner(None, [2], [0, 2]),
          Leaf(Some(1), [2, 3], ["banana", "cherry"], Some(0), None)], 1)
  }

  /** After inserting 4 "date": leaf 2 split into [2] and [3, 4] in block 4.
      The leaf's parent cell was that of the root, which had none, so a new
      inner node [3] over blocks 2 and 4 went to block 3 and became the old
      root's parent; the tree's root is still block 1, which cannot reach
      block 4. */
  function T4(): TreeState<string> {
    Tree([Leaf(None, [1], ["apple"], None, Some(2)),
          Inner(Some(3), [2], [0, 2]),
          Leaf(Some(1), [2], ["banana"], Some(0), Some(4)),
          Inner(None, [3], [2, 4]),
          Leaf(Some(3), [3, 4], ["cherry", "date"], Some(2), None)], 1)
  }

  // The shapes of node lists the runs below go through.

  lemma ReplaceOnly(a: Node<string>, x: Node<string>)
    ensures [a][0 := x] == [x]
  {
  }

  lemma AppendToOne(a: Node<string>, b: Node<string>)
    ensures [a] + [b] == [a, b]
  {
  }

  lemma AppendThenReplaceSecondOfThree(a: Node<string>, b: Node<string>, c: Node<string>, x: Node<string>)
    ensures ([a, b] + [c])[1 := x] == [a, x, c]
  {
  }

  lemma ReplaceFirst(a: Node<string>, b: Node<string>, c: Node<string>, x: Node<string>)
    ensures [a, b, c][0 := x] == [x, b, c]
  {
  }

  lemma ReplaceThird(a: Node<string>, b: Node<string>, c: Node<string>, x: Node<string>)
    ensures [a, b, c][2 := x] == [a, b, x]
  {
  }

  lemma AppendThenReplaceSecond(a: Node<string>, b: Node<string>, c: Node<string>, d: Node<string>, x: Node<string>)
    ensures ([a, b, c] + [d])[1 := x] == [a, x, c, d]
  {
  }

  lemma AppendThenReplaceFourth(a: Node<string>, b: Node<string>, c: Node<string>, d: Node<string>,
                                e: Node<string>, x: Node<string>)
    ensures ([a, b, c, d] + [e])[3 := x] == [a, b, c, x, e]
  {
  }

  lemma ReplaceThirdOfFive(a: Node<string>, b: Node<string>, c: Node<string>, d: Node<string>,
                           e: Node<string>, x: Node<string>)
    ensures [a, b, c, d, e][2 := x] == [a, b, x, d, e]
  {
  }

  /** Writing node `n` into block `i` of a written-out tree is replacing
      the `i`-th node. */
  lemma PutNode(nodes: seq<Node<string>>, root: BlockId, i: nat, n: Node<string>)
    requires i < |nodes|
    ensures Tree(nodes, root).store.Valid()
    ensures Tree(nodes, root).store.Put(i, Some(n)) == Tree(nodes[i := n], root).store
  {
    assert Stored(nodes)[i := Block(true, i, Some(n))] == Stored(nodes[i := n]);
  }

  /** Allocating for node `n` in a written-out tree appends it. */
  lemma AllocNode(nodes: seq<Node<string>>, root: BlockId, n: Node<string>)
    ensures Tree(nodes, root).store.Valid()
    ensures Tree(nodes, root).store.AllocWrite(n) == (Tree(nodes + [n], root).store, |nodes|)
  {
    assert Stored(nodes) + [Block(true, |nodes|, Some(n))] == Stored(nodes + [n]);
  }

  lemma NewIsT0()
    ensures New<string>(EmptyStore(), 2) == T0()
  {
    AllocNode([], 0, Leaf(None, [], [], None, None));
  }

  /** The root leaf `n` has room for `key`, and inserting the pair gives `m`. */
  ghost predicate RoomFor(n: Node<string>, key: int, value: string, m: Node<string>) {
    && n.isLeaf && Sorted(n.keys) && |n.values| == |n.keys|
    && key !in n.keys && |n.keys| < n.way
    && LeafInsert(n, key, value) == Ok(m)
  }

  /** An insert into a one-block tree whose root leaf has room: the leaf
      insert written back in place. */
  lemma InsertIntoRootLeaf(n: Node<string>, key: int, value: string, m: Node<string>)
    requires RoomFor(n, key, value, m)
    ensures Tree([n], 0).Valid()
    ensures Insert(Tree([n], 0), key, value) == (Tree([m], 0), Ok(()))
  {
    var t := Tree([n], 0);
    PutNode([n], 0, 0, m);
    ReplaceOnly(n, m);
    assert t.store.blocks[0].content == Some(n);
    InsertIntoRoomyRootLeaf(t, key, value);
  }

  lemma RoomForApple()
    ensures RoomFor(Leaf(None, [], [], None, None), 1, "apple", Leaf(None, [1], ["apple"], None, None))
  {
    assert BinarySearch([], 1) == NotFound(0);
    assert InsertAt<int>([], 0, 1) == [1] && InsertAt<string>([], 0, "apple") == ["apple"];
  }

  lemma InsertAppleGivesT1(t: TreeState<string>)
    requires t == T0()
    ensures Insert(t, 1, "apple") == (T1(), Ok(()))
  {
    RoomForApple();
    InsertIntoRootLeaf(Leaf(None, [], [], None, None), 1, "apple", Leaf(None, [1], ["apple"], None, None));
  }

  lemma RoomForBanana()
    ensures RoomFor(Leaf(None, [1], ["apple"], None, None), 2, "banana",
                    Leaf(None, [1, 2], ["apple", "banana"], None, None))
  {
    assert BinarySearch([1], 2) == NotFound(1);
    assert InsertAt([1], 1, 2) == [1, 2] && InsertAt(["apple"], 1, "banana") == ["apple", "banana"];
  }

  lemma InsertBananaGivesT2(t: TreeState<string>)
    requires t == T1()
    ensures Insert(t, 2, "banana") == (T2(), Ok(()))
  {
    RoomForBanana();
    InsertIntoRootLeaf(Leaf(None, [1], ["apple"], None, None), 2, "banana",
                       Leaf(None, [1, 2], ["apple", "banana"], None, None));
  }

  /** Opening the parent from an empty local cell allocates `r0` at the
      end of the store and puts its id in the cell. */
  lemma OpenLocal(nodes: seq<Node<string>>, root: BlockId, r0: Node<string>)
    ensures Tree(nodes, root).store.Valid() && Tree(nodes, root).store.FreedEmpty()
    ensures OpenParent(Tree(nodes, root).store, None, Local, r0) == (Tree(nodes + [r0], root).store, Some(|nodes|))
  {
    AllocNode(nodes, root, r0);
  }

  /** Opening the parent through the cell of a node `owner` that has no
      parent allocates `r0` at the end of the store and makes it the parent
      of `owner`. */
  lemma OpenAbove(nodes: seq<Node<string>>, root: BlockId, owner: BlockId, r0: Node<string>)
    requires owner < |nodes| && nodes[owner].parent.None?
    ensures Tree(nodes, root).store.Valid() && Tree(nodes, root).store.FreedEmpty()
    ensures SlotOk(Tree(nodes, root).store, ParentOf(owner))
    ensures OpenParent(Tree(nodes, root).store, None, ParentOf(owner), r0)
            == (Tree((nodes + [r0])[owner := nodes[owner].(parent := Some(|nodes|))], root).store, None)
  {
    AllocNode(nodes, root, r0);
    PutNode(nodes + [r0], root, owner, nodes[owner].(parent := Some(|nodes|)));
    assert Tree(nodes, root).store.blocks[owner].content == Some(nodes[owner]);
    assert Tree(nodes + [r0], root).store.blocks[owner].content == Some(nodes[owner]);
  }

  /** Attaching `right` under the parent `p` the slot names appends it to
      the store and replaces the parent by `pn`, the parent with the new
      separator. */
  lemma AttachAt(nodes: seq<Node<string>>, root: BlockId, local: Option<BlockId>, slot: Slot,
                 p: BlockId, mid: int, right: Node<string>, pn: Node<string>)
    requires SlotOk(Tree(nodes, root).store, slot) && LocalOk(Tree(nodes, root).store, local)
    requires ReadSlot(Tree(nodes, root).store, local, slot) == Some(p) && p < |nodes|
    requires AddSeparator(nodes[p], mid, |nodes|) == Ok(pn)
    ensures Tree(nodes, root).store.Valid() && Tree(nodes, root).store.FreedEmpty()
    ensures Attach(Tree(nodes, root).store, local, slot, mid, right)
            == Split(Tree((nodes + [right.(parent := Some(p))])[p := pn], root).store, local, Ok(|nodes|))
  {
    AllocNode(nodes, root, right.(parent := Some(p)));
    PutNode(nodes + [right.(parent := Some(p))], root, p, pn);
    assert Tree(nodes, root).store.blocks[p].content == Some(nodes[p]);
  }

  /** Moving the first key of `right` up from a one-block tree whose local
      cell is empty: block 1 becomes the root made from `r0`, block 2 the new
      sibling under it. */
  lemma PromoteToNewRoot(left: Node<string>, r0: Node<string>, mid: int, right: Node<string>, root: Node<string>)
    requires AddSeparator(r0, mid, 2) == Ok(root)
    ensures Tree([left], 0).store.Valid() && Tree([left], 0).store.FreedEmpty()
    ensures Promote(Tree([left], 0).store, None, Local, r0, mid, right)
            == Split(Tree([left, root, right.(parent := Some(1))], 0).store, Some(1), Ok(2))
  {
    OpenLocal([left], 0, r0);
    AppendToOne(left, r0);
    AttachAt([left, r0], 0, Some(1), Local, 1, mid, right, root);
    AppendThenReplaceSecondOfThree(left, r0, right.(parent := Some(1)), root);
  }

  /** The leaf insert at block `b`, written back in place: the tree with
      `after` for its nodes. */
  lemma LeafStep(nodes: seq<Node<string>>, root: BlockId, b: BlockId, key: int, value: string, m: Node<string>,
                 after: seq<Node<string>>)
    requires b < |nodes| && nodes[b].isLeaf && LeafInsert(nodes[b], key, value) == Ok(m)
    requires after == nodes[b := m]
    ensures Tree(nodes, root).store.Valid() && Tree(nodes, root).store.FreedEmpty()
    ensures Tree(nodes, root).store.blocks[b].content == Some(nodes[b])
    ensures InsertIntoLeaf(Tree(nodes, root).store, None, b, key, value) == Step(Tree(after, root).store, None, Ok(()))
  {
    PutNode(nodes, root, b, m);
  }

  /** Splitting the root leaf of a one-block tree into `left` and `right`. */
  lemma LinkLeavesAtRoot(m: Node<string>, left: Node<string>, right: Node<string>, root: Node<string>)
    requires |right.keys| > 0
    requires AddSeparator(NewInner<string>(left.way).(pointers := [0]), right.keys[0], 2) == Ok(root)
    ensures Tree([m], 0).store.Valid() && Tree([m], 0).store.FreedEmpty()
    ensures LinkLeaves(Tree([m], 0).store, None, Local, 0, left, right)
            == Step(Tree([left.(next := Some(2)), root, right.(parent := Some(1))], 0).store, Some(1), Ok(()))
  {
    PutNode([m], 0, 0, left);
    ReplaceOnly(m, left);
    var s1 := Tree([left], 0).store;
    assert Tree([m], 0).store.Put(0, Some(left)) == s1;
    PromoteToNewRoot(left, NewInner<string>(left.way).(pointers := [0]), right.keys[0], right, root);
    var nodes := [left, root, right.(parent := Some(1))];
    PutNode(nodes, 0, 0, left.(next := Some(2)));
    ReplaceFirst(left, root, right.(parent := Some(1)), left.(next := Some(2)));
  }

  /** The overfull root leaf `m` of a one-block tree splits. */
  lemma SplitRootLeaf(m: Node<string>, left: Node<string>, right: Node<string>, root: Node<string>)
    requires m.isLeaf && |m.keys| > m.way
    requires CutLeaf(m, 0) == (left, right)
    requires AddSeparator(NewInner<string>(m.way).(pointers := [0]), right.keys[0], 2) == Ok(root)
    ensures Tree([m], 0).store.Valid() && Tree([m], 0).store.FreedEmpty()
    ensures SplitIfOverfull(Tree([m], 0).store, None, Local, 0)
            == Step(Tree([left.(next := Some(2)), root, right.(parent := Some(1))], 0).store, Some(1), Ok(()))
  {
    LinkLeavesAtRoot(m, left, right, root);
    assert Tree([m], 0).store.blocks[0].content == Some(m);
  }

  /** An insert into a one-block tree whose root leaf overflows: the leaf is
      cut, a new root over both halves is made in block 1, the right half goes
      to block 2, and the tree adopts block 1 as its root. */
  lemma InsertSplitsRootLeaf(n: Node<string>, key: int, value: string, m: Node<string>,
                             left: Node<string>, right: Node<string>, root: Node<string>)
    requires n.isLeaf && LeafInsert(n, key, value) == Ok(m) && |m.keys| > m.way
    requires CutLeaf(m, 0) == (left, right)
    requires AddSeparator(NewInner<string>(m.way).(pointers := [0]), right.keys[0], 2) == Ok(root)
    ensures Tree([n], 0).Valid()
    ensures Insert(Tree([n], 0), key, value)
            == (Tree([left.(next := Some(2)), root, right.(parent := Some(1))], 1), Ok(()))
  {
    ReplaceOnly(n, m);
    LeafStep([n], 0, 0, key, value, m, [m]);
    SplitRootLeaf(m, left, right, root);
    var s3 := Tree([left.(next := Some(2)), root, right.(parent := Some(1))], 0).store;
    assert InsertHelper(Tree([n], 0).store, None, Local, 0, key, value, 1) == Step(s3, Some(1), Ok(()));
  }

  lemma CherryOverfillsTheLeaf()
    ensures LeafInsert(Leaf(None, [1, 2], ["apple", "banana"], None, None), 3, "cherry")
            == Ok(Leaf(None, [1, 2, 3], ["apple", "banana", "cherry"], None, None))
  {
    assert BinarySearch([1, 2], 3) == NotFound(2);
    assert InsertAt([1, 2], 2, 3) == [1, 2, 3];
    assert InsertAt(["apple", "banana"], 2, "cherry") == ["apple", "banana", "cherry"];
  }

  lemma CherryLeafCut()
    ensures CutLeaf(Leaf(None, [1, 2, 3], ["apple", "banana", "cherry"], None, None), 0)
            == (Leaf(None, [1], ["apple"], None, None), Leaf(None, [2, 3], ["banana", "cherry"], Some(0), None))
  {
    assert [1, 2, 3][..1] == [1] && [1, 2, 3][1..] == [2, 3];
    assert ["apple", "banana", "cherry"][..1] == ["apple"];
    assert ["apple", "banana", "cherry"][1..] == ["banana", "cherry"];
  }

  /** The first separator of a fresh root with one pointer `p`. */
  lemma FirstSeparator(r0: Node<string>, p: BlockId, mid: int, rid: BlockId)
    requires r0.keys == [] && r0.pointers == [p]
    ensures AddSeparator(r0, mid, rid) == Ok(r0.(keys := [mid], pointers := [p, rid]))
  {
    assert BinarySearch([], mid) == NotFound(0);
    assert InsertAt([p], 1, rid) == [p, rid];
    assert InsertAt([], 0, mid) == [mid];
  }

  /** The third insert splits the root leaf and grows the tree a level. */
  lemma InsertCherryGivesT3(t: TreeState<string>)
    requires t == T2()
    ensures Insert(t, 3, "cherry") == (T3(), Ok(()))
  {
    CherryOverfillsTheLeaf();
    CherryLeafCut();
    FirstSeparator(NewInner<string>(2).(pointers := [0]), 0, 2, 2);
    InsertSplitsRootLeaf(Leaf(None, [1, 2], ["apple", "banana"], None, None), 3, "cherry",
                         Leaf(None, [1, 2, 3], ["apple", "banana", "cherry"], None, None),
                         Leaf(None, [1], ["apple"], None, None),
                         Leaf(None, [2, 3], ["banana", "cherry"], Some(0), None),
                         Inner(None, [2], [0, 2]));
  }

  /** The blocks of `T3`. */
  lemma T3Blocks(t: TreeState<string>)
    requires t == T3()
    ensures t.Valid() && t.root == 1 && t.store.nextBlockId == 3
    ensures t.store.blocks[0].content == Some(Leaf(None, [1], ["apple"], None, Some(2)))
    ensures t.store.blocks[1].content == Some(Inner(None, [2], [0, 2]))
    ensures t.store.blocks[2].content == Some(Leaf(Some(1), [2, 3], ["banana", "cherry"], Some(0), None))
  {
  }

  /** A search in `T3` goes through the root to the leaf in block `b`. */
  lemma SearchT3Through(t: TreeState<string>, key: int, b: BlockId)
    requires t == T3()
    requires b == (if key < 2 then 0 else 2)
    ensures t.Valid() && Search(t, key) == SearchHelper(t.store, b, key, 2)
  {
    T3Blocks(t);
    if key < 2 {
      assert BinarySearch([2], key) == NotFound(0);
    } else if key == 2 {
      assert BinarySearch([2], key) == Found(0);
    } else {
      assert BinarySearch([2], key) == NotFound(1);
    }
  }

  /** The test's searches after the three inserts: each key inserted is found
      with its value, and 4 is absent. */
  lemma SearchT3(t: TreeState<string>)
    requires t == T3()
    ensures t.Valid() && Search(t, 1) == Ok(Some("apple"))
    ensures Search(t, 2) == Ok(Some("banana"))
    ensures Search(t, 3) == Ok(Some("cherry"))
    ensures Search(t, 4) == Ok(None)
  {
    T3Blocks(t);
    SearchT3Through(t, 1, 0);
    assert BinarySearch([1], 1) == Found(0);
    SearchT3Through(t, 2, 2);
    assert BinarySearch([2, 3], 2) == Found(0);
    SearchT3Through(t, 3, 2);
    assert BinarySearch([2, 3], 3) == Found(1);
    SearchT3Through(t, 4, 2);
    assert BinarySearch([2, 3], 4) == NotFound(2);
  }

  lemma DateOverfillsTheLeaf()
    ensures LeafInsert(Leaf(Some(1), [2, 3], ["banana", "cherry"], Some(0), None), 4, "date")
            == Ok(Leaf(Some(1), [2, 3, 4], ["banana", "cherry", "date"], Some(0), None))
  {
    assert BinarySearch([2, 3], 4) == NotFound(2);
    assert InsertAt([2, 3], 2, 4) == [2, 3, 4];
    assert InsertAt(["banana", "cherry"], 2, "date") == ["banana", "cherry", "date"];
  }

  lemma DateLeafCut()
    ensures CutLeaf(Leaf(Some(1), [2, 3, 4], ["banana", "cherry", "date"], Some(0), None), 2)
            == (Leaf(Some(1), [2], ["banana"], Some(0), None), Leaf(None, [3, 4], ["cherry", "date"], Some(2), None))
  {
    assert [2, 3, 4][..1] == [2] && [2, 3, 4][1..] == [3, 4];
    assert ["banana", "cherry", "date"][..1] == ["banana"];
    assert ["banana", "cherry", "date"][1..] == ["cherry", "date"];
  }

  /** Splitting the leaf in block 2 of a three-block tree whose root, block
      1, has no parent: the split reads the root's empty parent cell, so the
      new inner node goes to block 3 and becomes the root's parent, and the
      new leaf goes to block 4 under it. */
  lemma LinkLeavesAboveRoot(l0: Node<string>, i1: Node<string>, m: Node<string>,
                            left: Node<string>, right: Node<string>, root: Node<string>)
    requires i1.parent.None? && |right.keys| > 0
    requires AddSeparator(NewInner<string>(left.way).(pointers := [2]), right.keys[0], 4) == Ok(root)
    ensures Tree([l0, i1, m], 1).store.Valid() && Tree([l0, i1, m], 1).store.FreedEmpty()
    ensures SlotOk(Tree([l0, i1, m], 1).store, ParentOf(1))
    ensures LinkLeaves(Tree([l0, i1, m], 1).store, None, ParentOf(1), 2, left, right)
            == Step(Tree([l0, i1.(parent := Some(3)), left.(next := Some(4)), root, right.(parent := Some(3))], 1).store,
                    None, Ok(()))
  {
    var r0 := NewInner<string>(left.way).(pointers := [2]);
    var i1' := i1.(parent := Some(3));
    PutNode([l0, i1, m], 1, 2, left);
    ReplaceThird(l0, i1, m, left);
    assert Tree([l0, i1, m], 1).store.blocks[1].content == Some(i1);
    OpenAbove([l0, i1, left], 1, 1, r0);
    AppendThenReplaceSecond(l0, i1, left, r0, i1');
    assert Tree([l0, i1', left, r0], 1).store.blocks[1].content == Some(i1');
    AttachAt([l0, i1', left, r0], 1, None, ParentOf(1), 3, right.keys[0], right, root);
    AppendThenReplaceFourth(l0, i1', left, r0, right.(parent := Some(3)), root);
    PutNode([l0, i1', left, root, right.(parent := Some(3))], 1, 2, left.(next := Some(4)));
    ReplaceThirdOfFive(l0, i1', left, root, right.(parent := Some(3)), left.(next := Some(4)));
  }

  /** Leaf 2, overfull after the insert, splits. */
  lemma SplitLeafBelowRoot(nodes: seq<Node<string>>)
    requires nodes == [Leaf(None, [1], ["apple"], None, Some(2)),
                       Inner(None, [2], [0, 2]),
                       Leaf(Some(1), [2, 3, 4], ["banana", "cherry", "date"], Some(0), None)]
    ensures Tree(nodes, 1).store.Valid() && Tree(nodes, 1).store.FreedEmpty()
    ensures SlotOk(Tree(nodes, 1).store, ParentOf(1))
    ensures SplitIfOverfull(Tree(nodes, 1).store, None, ParentOf(1), 2) == Step(T4().store, None, Ok(()))
  {
    DateLeafCut();
    FirstSeparator(NewInner<string>(2).(pointers := [2]), 2, 3, 4);
    LinkLeavesAboveRoot(nodes[0], nodes[1], nodes[2],
                        Leaf(Some(1), [2], ["banana"], Some(0), None), Leaf(None, [3, 4], ["cherry", "date"], Some(2), None),
                        Inner(None, [3], [2, 4]));
    assert Tree(nodes, 1).store.blocks[2].content == Some(nodes[2]);
  }

  /** `insert_helper` at a leaf: the leaf insert, then the split. */
  lemma LeafThenSplit(s: NodeStore<string>, slot: Slot, id: BlockId, key: int, value: string, fuel: nat,
                      s1: NodeStore<string>, r: Step<string>)
    requires s.Valid() && s.FreedEmpty() && SlotOk(s, slot)
    requires id < |s.blocks| && s.blocks[id].content.Some? && s.blocks[id].content.value.isLeaf
    requires InsertIntoLeaf(s, None, id, key, value) == Step(s1, None, Ok(()))
    requires SlotOk(s1, slot) && id < |s1.blocks| && s1.blocks[id].content.Some?
    requires SplitIfOverfull(s1, None, slot, id) == r
    ensures InsertHelper(s, None, slot, id, key, value, fuel) == r
  {
  }

  /** The leaf insert at block 2 of `T3`. */
  lemma DateIntoLeaf(t: TreeState<string>, before: seq<Node<string>>, m2: Node<string>, after: seq<Node<string>>)
    requires t == T3() && before == [Leaf(None, [1], ["apple"], None, Some(2)),
                                     Inner(None, [2], [0, 2]),
                                     Leaf(Some(1), [2, 3], ["banana", "cherry"], Some(0), None)]
    requires m2 == Leaf(Some(1), [2, 3, 4], ["banana", "cherry", "date"], Some(0), None)
    requires after == [Leaf(None, [1], ["apple"], None, Some(2)), Inner(None, [2], [0, 2]), m2]
    ensures t.Valid() && t.store.FreedEmpty() && SlotOk(t.store, ParentOf(1))
    ensures t.store.blocks[2].content.Some? && t.store.blocks[2].content.value.isLeaf
    ensures InsertIntoLeaf(t.store, None, 2, 4, "date") == Step(Tree(after, 1).store, None, Ok(()))
  {
    DateOverfillsTheLeaf();
    ReplaceThird(before[0], before[1], before[2], m2);
    LeafStep(before, 1, 2, 4, "date", m2, after);
  }

  /** The insert below the root: the leaf insert at block 2, then its split. */
  lemma DateBelowRoot(t: TreeState<string>, before: seq<Node<string>>, m2: Node<string>, after: seq<Node<string>>)
    requires t == T3() && before == [Leaf(None, [1], ["apple"], None, Some(2)),
                                     Inner(None, [2], [0, 2]),
                                     Leaf(Some(1), [2, 3], ["banana", "cherry"], Some(0), None)]
    requires m2 == Leaf(Some(1), [2, 3, 4], ["banana", "cherry", "date"], Some(0), None)
    requires after == [Leaf(None, [1], ["apple"], None, Some(2)), Inner(None, [2], [0, 2]), m2]
    ensures t.Valid() && SlotOk(t.store, ParentOf(1))
    ensures InsertHelper(t.store, None, ParentOf(1), 2, 4, "date", 2) == Step(T4().store, None, Ok(()))
  {
    DateIntoLeaf(t, before, m2, after);
    SplitLeafBelowRoot(after);
    LeafThenSplit(t.store, ParentOf(1), 2, 4, "date", 2, Tree(after, 1).store, Step(T4().store, None, Ok(())));
  }

  /** The fourth insert: the split below the root does not reach the tree's
      root, which stays block 1. */
  lemma InsertDateGivesT4(t: TreeState<string>)
    requires t == T3()
    ensures Insert(t, 4, "date") == (T4(), Ok(()))
  {
    T3Blocks(t);
    var before := [Leaf(None, [1], ["apple"], None, Some(2)),
                   Inner(None, [2], [0, 2]),
                   Leaf(Some(1), [2, 3], ["banana", "cherry"], Some(0), None)];
    var m2 := Leaf(Some(1), [2, 3, 4], ["banana", "cherry", "date"], Some(0), None);
    DateBelowRoot(t, before, m2, [before[0], before[1], m2]);
    assert BinarySearch([2], 4) == NotFound(1);
    assert Descend(t.store, None, 1, 4, "date", 3) == Step(T4().store, None, Ok(()));
    assert T4().store.blocks[1].content == Some(Inner(Some(3), [2], [0, 2]));
  }

  /** The blocks of `T4` a search from its root reaches. */
  lemma T4Blocks(t: TreeState<string>)
    requires t == T4()
    ensures t.Valid() && t.root == 1 && t.store.nextBlockId == 5
    ensures t.store.blocks[0].content == Some(Leaf(None, [1], ["apple"], None, Some(2)))
    ensures t.store.blocks[1].content == Some(Inner(Some(3), [2], [0, 2]))
    ensures t.store.blocks[2].content == Some(Leaf(Some(1), [2], ["banana"], Some(0), Some(4)))
    ensures t.store.blocks[4].content == Some(Leaf(Some(3), [3, 4], ["cherry", "date"], Some(2), None))
  {
  }

  /** A search in `T4` goes through block 1 to the leaf in block 0 or 2,
      never to block 4. */
  lemma SearchT4Through(t: TreeState<string>, key: int, b: BlockId)
    requires t == T4()
    requires b == (if key < 2 then 0 else 2)
    ensures t.Valid() && Search(t, key) == SearchHelper(t.store, b, key, 4)
  {
    T4Blocks(t);
    if key < 2 {
      assert BinarySearch([2], key) == NotFound(0);
    } else if key == 2 {
      assert BinarySearch([2], key) == Found(0);
    } else {
      assert BinarySearch([2], key) == NotFound(1);
    }
  }

  /** After the fourth insert, 1 and 2 are still found. */
  lemma SearchT4Finds(t: TreeState<string>)
    requires t == T4()
    ensures t.Valid() && Search(t, 1) == Ok(Some("apple"))
    ensures Search(t, 2) == Ok(Some("banana"))
  {
    T4Blocks(t);
    SearchT4Through(t, 1, 0);
    assert BinarySearch([1], 1) == Found(0);
    SearchT4Through(t, 2, 2);
    assert BinarySearch([2], 2) == Found(0);
  }

  /** After the fourth insert, 3 and 4 are lost to `search` although block 4
      holds them. */
  lemma SearchT4Loses(t: TreeState<string>)
    requires t == T4()
    ensures t.Valid() && Search(t, 3) == Ok(None) && StoreHolds(t.store, 3, "cherry")
    ensures Search(t, 4) == Ok(None) && StoreHolds(t.store, 4, "date")
  {
    T4Blocks(t);
    SearchT4Through(t, 3, 2);
    assert BinarySearch([2], 3) == NotFound(1);
    SearchT4Through(t, 4, 2);
    assert BinarySearch([2], 4) == NotFound(1);
    var n4 := t.store.blocks[4].content.value;
    assert n4.keys[0] == 3 && n4.values[0] == "cherry" && n4.keys[1] == 4 && n4.values[1] == "date";
    assert LeafHolds(n4, 3, "cherry") && LeafHolds(n4, 4, "date");
  }

  /** `T3` stores 1, 2 and 3 with their values. */
  lemma T3Holds(t: TreeState<string>)
    requires t == T3()
    ensures t.Valid()
    ensures StoreHolds(t.store, 1, "apple") && StoreHolds(t.store, 2, "banana") && StoreHolds(t.store, 3, "cherry")
  {
    T3Blocks(t);
    var n0 := t.store.blocks[0].content.value;
    var n2 := t.store.blocks[2].content.value;
    assert n0.keys[0] == 1 && n0.values[0] == "apple" && LeafHolds(n0, 1, "apple");
    assert n2.keys[0] == 2 && n2.values[0] == "banana" && LeafHolds(n2, 2, "banana");
    assert n2.keys[1] == 3 && n2.values[1] == "cherry" && LeafHolds(n2, 3, "cherry");
  }

  /** `delete` of 1, 2 or 3 in `T3`: the root routes only an exact
      separator match downwards, so 1 and 3 stop at the root, and 2 goes to
      the leaf in block 0, which does not hold it. */
  lemma DeleteT3Misses(t: TreeState<string>, key: int)
    requires t == T3() && 1 <= key <= 3
    ensures t.Valid() && Delete(t, key) == (t, Ok(None))
  {
    T3Blocks(t);
    if key == 2 {
      assert BinarySearch([2], 2) == Found(0);
      assert BinarySearch([1], 2) == NotFound(1);
      assert DeleteHelper(t.store, 0, 2, 2) == (t.store, Ok(None));
    } else {
      assert BinarySearch([2], key).NotFound?;
    }
  }

  /** Every key `T3` stores is missed by `delete`: each delete reports no
      value and changes nothing, and the pair is still stored. */
  lemma DeleteT3FindsNothing(t: TreeState<string>)
    requires t == T3()
    ensures t.Valid()
    ensures StoreHolds(t.store, 1, "apple") && StoreHolds(t.store, 2, "banana") && StoreHolds(t.store, 3, "cherry")
    ensures Delete(t, 1) == (t, Ok(None))
    ensures Delete(t, 2) == (t, Ok(None))
    ensures Delete(t, 3) == (t, Ok(None))
  {
    T3Holds(t);
    DeleteT3Misses(t, 1);
    DeleteT3Misses(t, 2);
    DeleteT3Misses(t, 3);
  }
}
