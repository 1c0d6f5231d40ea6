/** Tree nodes and what the tree does to one node at a time: the binary search
    that routes and places keys, a leaf insert and remove, cutting an
    overfull leaf or inner node in two, and adding a separator to a parent. */
module Nodes {
  import opened Wrappers
  import opened Blocks

  /** `BPlusTreeNode` with `int` keys. A leaf uses `values`, `prev` and `next`;
      an inner node uses `pointers`. `parent` is the cell the insert writes. */
  datatype Node<V> = Node(
    parent: Option<BlockId>,
    way: nat,
    isLeaf: bool,
    keys: seq<int>,
    values: seq<V>,
    prev: Option<BlockId>,
    next: Option<BlockId>,
    pointers: seq<BlockId>)

  function NewLeaf<V>(way: nat, parent: Option<BlockId>): Node<V> {
    Node(parent, way, true, [], [], None, None, [])
  }

  function NewInner<V>(way: nat): Node<V> {
    Node(None, way, false, [], [], None, None, [])
  }

  /** The order the keys of a node are kept in: ascending, where a key
      inserted twice leaves two equal neighbours. */
  ghost predicate Sorted(s: seq<int>) {
    forall i, j :: 0 <= i < j < |s| ==> s[i] <= s[j]
  }

  ghost predicate StrictlySorted(s: seq<int>) {
    forall i, j :: 0 <= i < j < |s| ==> s[i] < s[j]
  }

  /** `Vec::insert`. */
  function InsertAt<T>(s: seq<T>, i: nat, x: T): (r: seq<T>)
    requires i <= |s|
    ensures |r| == |s| + 1 && r[i] == x
    ensures forall j :: 0 <= j < i ==> r[j] == s[j]
    ensures forall j :: i < j < |r| ==> r[j] == s[j - 1]
    ensures multiset(r) == multiset(s) + multiset{x}
  {
    assert s == s[..i] + s[i..];
    s[..i] + [x] + s[i..]
  }

  /** `Vec::remove`. */
  function RemoveAt<T>(s: seq<T>, i: nat): (r: seq<T>)
    requires i < |s|
    ensures |r| == |s| - 1
    ensures forall j :: 0 <= j < i ==> r[j] == s[j]
    ensures forall j :: i <= j < |r| ==> r[j] == s[j + 1]
    ensures multiset(r) == multiset(s) - multiset{s[i]}
  {
    assert s == s[..i] + [s[i]] + s[i + 1..];
    s[..i] + s[i + 1..]
  }

  /** `Vec::remove` at the index of a `Vec::insert` undoes it. */
  lemma RemoveAtUndoesInsertAt<T>(s: seq<T>, i: nat, x: T)
    requires i <= |s|
    ensures RemoveAt(InsertAt(s, i, x), i) == s
  {
    var r := RemoveAt(InsertAt(s, i, x), i);
    assert forall j :: 0 <= j < |s| ==> r[j] == s[j];
  }

  /** The result of `slice::binary_search`: `Ok(i)` or `Err(i)`. */
  datatype SearchPos = Found(index: nat) | NotFound(index: nat)

  /** `keys.binary_search(&key)`, as one fixed halving search. The standard
      library promises only what the contract states: on sorted keys, a
      matching index when the key is present and otherwise the point where it
      would be inserted; on unsorted keys, some index in range. */
  function BinarySearch(keys: seq<int>, key: int): (r: SearchPos)
    ensures r.Found? ==> r.index < |keys| && keys[r.index] == key
    ensures r.NotFound? ==> r.index <= |keys|
    ensures Sorted(keys) ==> (r.Found? <==> key in keys)
    ensures Sorted(keys) ==>
              && (forall j :: 0 <= j < r.index ==> keys[j] <= key)
              && (forall j :: r.index <= j < |keys| ==> key <= keys[j])
    ensures Sorted(keys) && r.NotFound? ==>
              && (forall j :: 0 <= j < r.index ==> keys[j] < key)
              && (forall j :: r.index <= j < |keys| ==> key < keys[j])
  {
    Bisect(keys, key, 0, |keys|)
  }

  /** The search over the window `keys[lo..hi]`, outside which (on sorted
      keys) everything left is below `key` and everything right above it. */
  function Bisect(keys: seq<int>, key: int, lo: nat, hi: nat): (r: SearchPos)
    requires lo <= hi <= |keys|
    ensures r.Found? ==> lo <= r.index < hi && keys[r.index] == key
    ensures r.NotFound? ==> lo <= r.index <= hi
    ensures Sorted(keys) && r.NotFound?
            && (forall j :: 0 <= j < lo ==> keys[j] < key)
            && (forall j :: hi <= j < |keys| ==> key < keys[j]) ==>
              && (forall j :: 0 <= j < r.index ==> keys[j] < key)
              && (forall j :: r.index <= j < |keys| ==> key < keys[j])
    decreases hi - lo
  {
    if lo == hi then
      NotFound(lo)
    else
      var mid := lo + (hi - lo) / 2;
      if keys[mid] < key then Bisect(keys, key, mid + 1, hi)
      else if key < keys[mid] then Bisect(keys, key, lo, mid)
      else Found(mid)
  }

  /** Inserting a key at the place the binary search gives keeps keys sorted. */
  lemma {:induction false} InsertAtSearchPosSorted(keys: seq<int>, key: int)
    requires Sorted(keys)
    ensures Sorted(InsertAt(keys, BinarySearch(keys, key).index, key))
  {
    var pos := BinarySearch(keys, key).index;
    var r := InsertAt(keys, pos, key);
    forall i, j | 0 <= i < j < |r| ensures r[i] <= r[j] {
      if j < pos {
      } else if j == pos {
      } else if i < pos {
        assert r[j] == keys[j - 1];
      } else if i == pos {
        assert r[j] == keys[j - 1];
      } else {
        assert r[i] == keys[i - 1] && r[j] == keys[j - 1];
      }
    }
  }

  /** The leaf part of `insert_helper`: the key and the value go to the same
      index, the binary-search position of the key. */
  function LeafInsert<V>(node: Node<V>, key: int, value: V): (r: Result<Node<V>>)
    ensures var pos := BinarySearch(node.keys, key).index;
            && (r.Ok? <==> pos <= |node.values|)
            && (r.Err? ==> r.error == Panic)
            && (r.Ok? ==>
                  && r.value == node.(keys := r.value.keys, values := r.value.values)
                  && r.value.keys == InsertAt(node.keys, pos, key)
                  && r.value.values == InsertAt(node.values, pos, value)
                  && (Sorted(node.keys) ==> Sorted(r.value.keys)))
    ensures |node.values| == |node.keys| ==> r.Ok?
  {
    var pos := BinarySearch(node.keys, key).index;
    if pos > |node.values| then
      Err(Panic)
    else
      assert Sorted(node.keys) ==> Sorted(InsertAt(node.keys, pos, key)) by {
        if Sorted(node.keys) { InsertAtSearchPosSorted(node.keys, key); }
      }
      Ok(node.(keys := InsertAt(node.keys, pos, key), values := InsertAt(node.values, pos, value)))
  }

  /** The leaf part of `delete_helper`: remove the key and the value at the
      index the binary search found, and return the value. */
  function LeafRemove<V>(node: Node<V>, key: int): (r: (Node<V>, Result<Option<V>>))
    ensures BinarySearch(node.keys, key).NotFound? ==> r == (node, Ok(None))
    ensures BinarySearch(node.keys, key).Found? ==>
              var pos := BinarySearch(node.keys, key).index;
              && r.0 == node.(keys := r.0.keys, values := r.0.values)
              && r.0.keys == RemoveAt(node.keys, pos)
              && (pos < |node.values| ==>
                    && r.1 == Ok(Some(node.values[pos]))
                    && r.0.values == RemoveAt(node.values, pos))
              && (pos >= |node.values| ==> r.1 == Err(Panic))
  {
    match BinarySearch(node.keys, key)
    case NotFound(_) => (node, Ok(None))
    case Found(pos) =>
      var keys := RemoveAt(node.keys, pos);
      if pos >= |node.values| then
        (node.(keys := keys), Err(Panic))
      else
        (node.(keys := keys, values := RemoveAt(node.values, pos)), Ok(Some(node.values[pos])))
  }

  /** On a well-formed leaf, removal succeeds, returns a value exactly when
      the key was present, and leaves a well-formed leaf. */
  lemma LeafRemoveKeepsLeaf<V>(node: Node<V>, key: int)
    requires Sorted(node.keys) && |node.values| == |node.keys|
    ensures var r := LeafRemove(node, key);
            && r.1.Ok?
            && (key in node.keys <==> r.1.value.Some?)
            && |r.0.values| == |r.0.keys|
            && Sorted(r.0.keys)
  {
  }

  /** With no repeated keys, the key is gone after removal. */
  lemma LeafRemoveRemovesKey<V>(node: Node<V>, key: int)
    requires StrictlySorted(node.keys)
    ensures StrictlySorted(LeafRemove(node, key).0.keys) && key !in LeafRemove(node, key).0.keys
  {
  }

  /** After inserting an absent key into a leaf with sorted keys, the binary
      search finds it at the insertion index, next to its value. */
  lemma LeafInsertThenFind<V>(node: Node<V>, key: int, value: V)
    requires Sorted(node.keys) && |node.values| == |node.keys| && key !in node.keys
    ensures LeafInsert(node, key, value).Ok?
    ensures var pos := BinarySearch(node.keys, key).index;
            var m := LeafInsert(node, key, value).value;
            BinarySearch(m.keys, key) == Found(pos) && pos < |m.values| && m.values[pos] == value
  {
    var pos := BinarySearch(node.keys, key).index;
    var m := LeafInsert(node, key, value).value;
    assert key in m.keys by {
      assert m.keys[pos] == key;
    }
    var i := BinarySearch(m.keys, key).index;
    assert m.keys[i] == key;
    assert m.keys == InsertAt(node.keys, pos, key);
  }

  /** Removing a key just inserted into a leaf gives back its value and the
      leaf as it was. */
  lemma LeafRemoveUndoesInsert<V>(node: Node<V>, key: int, value: V)
    requires Sorted(node.keys) && |node.values| == |node.keys| && key !in node.keys
    ensures LeafInsert(node, key, value).Ok?
    ensures LeafRemove(LeafInsert(node, key, value).value, key) == (node, Ok(Some(value)))
  {
    LeafInsertThenFind(node, key, value);
    var pos := BinarySearch(node.keys, key).index;
    RemoveAtUndoesInsertAt(node.keys, pos, key);
    RemoveAtUndoesInsertAt(node.values, pos, value);
  }

  /** The child an inner node sends a search to: past a separator equal to
      the key, else at the insertion point. */
  function SearchChild<V>(node: Node<V>, key: int): nat {
    var pos := BinarySearch(node.keys, key).index;
    if pos < |node.keys| && key == node.keys[pos] then pos + 1 else pos
  }

  /** The child an inner node sends an insert or a delete to: the binary
      search's index, whether or not a separator equals the key. */
  function InsertChild<V>(node: Node<V>, key: int): nat {
    BinarySearch(node.keys, key).index
  }

  /** Search routes by "separators at most the key lie to the left", which is
      the routing rule of a B+Tree; insert routes by "separators below the key
      lie to the left", so the two agree except on a key equal to a separator,
      where search goes one child further right. */
  lemma RoutesDisagreeOnSeparator<V>(node: Node<V>, key: int)
    requires StrictlySorted(node.keys)
    ensures var c := SearchChild(node, key);
            && c <= |node.keys|
            && (forall j :: 0 <= j < c ==> node.keys[j] <= key)
            && (forall j :: c <= j < |node.keys| ==> key < node.keys[j])
    ensures var c := InsertChild(node, key);
            && c <= |node.keys|
            && (forall j :: 0 <= j < c ==> node.keys[j] < key)
            && (forall j :: c <= j < |node.keys| ==> key <= node.keys[j])
    ensures key in node.keys <==> SearchChild(node, key) == InsertChild(node, key) + 1
    ensures key !in node.keys <==> SearchChild(node, key) == InsertChild(node, key)
  {
    var r := BinarySearch(node.keys, key);
    if r.Found? {
      var c := r.index + 1;
      forall j | c <= j < |node.keys| ensures key < node.keys[j] {
        assert node.keys[r.index] < node.keys[j];
      }
      forall j | 0 <= j < r.index ensures node.keys[j] < key {
        assert node.keys[j] < node.keys[r.index];
      }
    }
  }

  /** Cutting an overfull leaf in `insert_helper`: the old node keeps the
      first half, a new leaf takes the rest and sits after it. The new leaf's
      `parent` is filled in later, from the parent slot. */
  function CutLeaf<V>(node: Node<V>, id: BlockId): (r: (Node<V>, Node<V>))
    requires |node.keys| > 0
    ensures var (left, right) := r;
            && left == node.(keys := left.keys, values := left.values)
            && |left.keys| == |node.keys| / 2 && |left.values| == |node.values| / 2
            && left.keys + right.keys == node.keys && left.values + right.values == node.values
            && |right.keys| > 0
            && right.isLeaf && right.way == node.way && right.pointers == []
            && right.prev == Some(id) && right.next == node.next
            && (|node.values| == |node.keys| ==> |left.values| == |left.keys| && |right.values| == |right.keys|)
            && (Sorted(node.keys) ==>
                  && Sorted(left.keys) && Sorted(right.keys)
                  && forall k :: k in left.keys ==> k <= right.keys[0])
  {
    var half := |node.keys| / 2;
    var vhalf := |node.values| / 2;
    assert node.keys == node.keys[..half] + node.keys[half..];
    assert node.values == node.values[..vhalf] + node.values[vhalf..];
    (node.(keys := node.keys[..half], values := node.values[..vhalf]),
     Node(None, node.way, true, node.keys[half..], node.values[vhalf..], Some(id), node.next, []))
  }

  /** Cutting an overfull inner node in `insert_helper`: the keys are halved
      first, then the pointers are cut at half the number of keys left in the node, so
      the pointers do not follow their keys. Cutting fails (a panic) when
      there are fewer pointers than that. The middle key is taken out of the
      right half, to be moved up. */
  function CutInner<V>(node: Node<V>, id: BlockId): (r: Result<(Node<V>, int, Node<V>)>)
    requires |node.keys| > 0
    ensures r.Ok? <==> (|node.keys| / 2) / 2 <= |node.pointers|
    ensures r.Err? ==> r.error == Panic
    ensures r.Ok? ==>
              var (left, mid, right) := r.value;
              && left == node.(keys := left.keys, pointers := left.pointers)
              && |left.keys| == |node.keys| / 2
              && left.keys + [mid] + right.keys == node.keys
              && |left.pointers| == |left.keys| / 2
              && left.pointers + right.pointers == node.pointers
              && !right.isLeaf && right.way == node.way && right.values == []
              && right.prev == Some(id) && right.next == node.next
              && (Sorted(node.keys) ==> forall k :: k in left.keys ==> k <= mid)
  {
    var half := |node.keys| / 2;
    var at := half / 2;
    if at > |node.pointers| then
      Err(Panic)
    else
      assert node.keys == node.keys[..half] + [node.keys[half]] + node.keys[half + 1..];
      assert node.pointers == node.pointers[..at] + node.pointers[at..];
      Ok((node.(keys := node.keys[..half], pointers := node.pointers[..at]),
          node.keys[half],
          Node(None, node.way, false, node.keys[half + 1..], [], Some(id), node.next, node.pointers[at..])))
  }

  /** Neither half of an inner cut has one pointer more than keys: the left
      half always has too few, and when the node itself had the right number
      the right half has too many. */
  lemma InnerCutBreaksPointerCount<V>(node: Node<V>, id: BlockId)
    requires |node.keys| > 0 && CutInner(node, id).Ok?
    ensures var (left, _, right) := CutInner(node, id).value;
            && |left.pointers| < |left.keys| + 1
            && (|node.pointers| == |node.keys| + 1 ==> |right.pointers| > |right.keys| + 1)
  {
  }

  /** Adding the moved-up key `mid` and the new sibling `rid` to a parent:
      the key goes to its binary-search position and the sibling right after
      it. A parent with too few pointers (one made by `new_inner` has none)
      makes the pointer insert panic. */
  function AddSeparator<V>(parent: Node<V>, mid: int, rid: BlockId): (r: Result<Node<V>>)
    ensures var pos := BinarySearch(parent.keys, mid).index;
            && (r.Ok? <==> pos + 1 <= |parent.pointers|)
            && (r.Err? ==> r.error == Panic)
            && (r.Ok? ==>
                  && r.value == parent.(keys := r.value.keys, pointers := r.value.pointers)
                  && r.value.keys == InsertAt(parent.keys, pos, mid)
                  && r.value.pointers == InsertAt(parent.pointers, pos + 1, rid)
                  && r.value.pointers[..pos + 1] == parent.pointers[..pos + 1]
                  && (Sorted(parent.keys) ==> Sorted(r.value.keys)))
    ensures parent.pointers == [] ==> r == Err(Panic)
  {
    var pos := BinarySearch(parent.keys, mid).index;
    if pos + 1 > |parent.pointers| then
      Err(Panic)
    else
      assert Sorted(parent.keys) ==> Sorted(InsertAt(parent.keys, pos, mid)) by {
        if Sorted(parent.keys) { InsertAtSearchPosSorted(parent.keys, mid); }
      }
      var pointers := InsertAt(parent.pointers, pos + 1, rid);
      assert pointers[..pos + 1] == parent.pointers[..pos + 1];
      Ok(parent.(keys := InsertAt(parent.keys, pos, mid), pointers := pointers))
  }
}
