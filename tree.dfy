/** The B+Tree as an object over a block engine. Every node a method writes
    lives in the engine and is changed in place through a write guard; each
    method is proved to leave the engine, the local parent cell and the
    outcome exactly as the matching function of `TreeOps` says. */
module Tree {
  import opened Wrappers
  import opened Blocks
  import opened Nodes
  import opened TreeOps
  import TreeProps

  class BPlusTree<V(!new)> {
    var way: nat
    var engine: MemoryBlockEngine<Node<V>>
    var root: BlockId

    function State(): TreeState<V>
      reads this, engine
    {
      TreeState(way, engine.State(), root)
    }

    ghost predicate Valid()
      reads this, engine
    {
      State().Valid()
    }

    /** `BPlusTree::new`: the engine gets an empty leaf, which becomes the root. */
    constructor (way: nat, engine: MemoryBlockEngine<Node<V>>)
      requires engine.Valid() && engine.State().FreedEmpty()
      modifies engine
      ensures this.engine == engine && Valid()
      ensures State() == New(old(engine.State()), way)
    {
      var r := engine.AllocWrite(NewLeaf(way, None));
      this.way := way;
      this.engine := engine;
      this.root := r.value;
    }

    /** `search`: a read-only descent from the root. */
    function Search(key: int): (r: Result<Option<V>>)
      requires Valid()
      reads this, engine
      ensures r.Ok? && r.value.Some? ==> StoreHolds(engine.State(), key, r.value.value)
    {
      TreeOps.Search(State(), key)
    }

    /** `parent.set(v)`: the local cell of `insert`, or the parent field of the
        owner's node, written through the guard the caller holds on it. */
    method SetSlot(local: Option<BlockId>, slot: Slot, v: Option<BlockId>) returns (local': Option<BlockId>)
      requires engine.Valid() && SlotOk(engine.State(), slot)
      modifies engine`blocks
      ensures engine.Valid()
      ensures (engine.State(), local') == WriteSlot(old(engine.State()), local, slot, v)
    {
      match slot
      case Local =>
        local' := v;
      case ParentOf(owner) =>
        var n := engine.blocks[owner].content.value;
        engine.SetContent(WriteGuard(owner), Some(n.(parent := v)));
        local' := local;
    }

    /** When the parent cell is empty, allocate `rootNode` and record its id. */
    method OpenParent(local: Option<BlockId>, slot: Slot, rootNode: Node<V>) returns (local': Option<BlockId>)
      requires engine.Valid() && engine.State().FreedEmpty()
      requires SlotOk(engine.State(), slot) && LocalOk(engine.State(), local)
      modifies engine
      ensures engine.Valid()
      ensures (engine.State(), local') == TreeOps.OpenParent(old(engine.State()), local, slot, rootNode)
    {
      if ReadSlot(engine.State(), local, slot).Some? {
        return local;
      }
      var id := engine.AllocWrite(rootNode);
      local' := SetSlot(local, slot, Some(id.value));
    }

    /** Fetch the parent the cell names, allocate `right` under it, and insert
        `mid` and the new block's id into the parent. */
    method Attach(local: Option<BlockId>, slot: Slot, mid: int, right: Node<V>) returns (r: Result<BlockId>)
      requires engine.Valid() && engine.State().FreedEmpty()
      requires SlotOk(engine.State(), slot) && LocalOk(engine.State(), local)
      requires ReadSlot(engine.State(), local, slot).Some?
      modifies engine
      ensures engine.Valid()
      ensures Split(engine.State(), local, r) == TreeOps.Attach(old(engine.State()), local, slot, mid, right)
    {
      var p := ReadSlot(engine.State(), local, slot).value;
      var g := engine.FetchWrite(p);
      if g.Err? {
        return Err(g.error);
      }
      if engine.blocks[p].content.None? {
        engine.Release(g.value);
        return Err(Panic);
      }
      r := Link(local, slot, g.value, mid, right);
    }

    /** Allocate `right` under the parent behind guard `g`, and insert `mid`
        and the new block's id into the parent. */
    method Link(local: Option<BlockId>, slot: Slot, g: WriteGuard, mid: int, right: Node<V>) returns (r: Result<BlockId>)
      requires engine.Valid() && engine.State().FreedEmpty()
      requires SlotOk(engine.State(), slot) && LocalOk(engine.State(), local)
      requires g.block < |engine.blocks| && engine.blocks[g.block].content.Some?
      modifies engine
      ensures engine.Valid()
      ensures Split(engine.State(), local, r) == TreeOps.Link(old(engine.State()), local, slot, g.block, mid, right)
    {
      var p := g.block;
      var pn := engine.blocks[p].content.value;
      var pos := BinarySearch(pn.keys, mid).index;
      var rid := engine.AllocWrite(right.(parent := Some(p)));
      var keys := InsertAt(pn.keys, pos, mid);
      if pos + 1 > |pn.pointers| {
        engine.SetContent(g, Some(pn.(keys := keys)));
        engine.Release(g);
        return Err(Panic);
      }
      engine.SetContent(g, Some(pn.(keys := keys, pointers := InsertAt(pn.pointers, pos + 1, rid.value))));
      engine.Release(g);
      r := Ok(rid.value);
    }

    /** The leaf branch of a split, on the node behind guard `g`. */
    method SplitLeaf(local: Option<BlockId>, slot: Slot, g: WriteGuard) returns (local': Option<BlockId>, r: Result<()>)
      requires engine.Valid() && engine.State().FreedEmpty()
      requires SlotOk(engine.State(), slot) && LocalOk(engine.State(), local)
      requires g.block < |engine.blocks| && engine.blocks[g.block].content.Some?
      requires engine.blocks[g.block].content.value.isLeaf && |engine.blocks[g.block].content.value.keys| > 0
      modifies engine
      ensures engine.Valid()
      ensures Step(engine.State(), local', r) == TreeOps.SplitLeaf(old(engine.State()), local, slot, g.block)
    {
      var node := engine.blocks[g.block].content.value;
      var (left, right) := CutLeaf(node, g.block);
      engine.SetContent(g, Some(left));
      ghost var s1 := engine.State();
      local' := OpenParent(local, slot, NewInner(node.way).(pointers := [g.block]));
      var rid := Attach(local', slot, right.keys[0], right);
      GrewTrans(s1, local, slot, TreeOps.OpenParent(s1, local, slot, NewInner(node.way).(pointers := [g.block])).0, local', engine.State(), local');
      if rid.Err? {
        return local', Err(rid.error);
      }
      engine.SetContent(g, Some(left.(next := Some(rid.value))));
      r := Ok(());
    }

    /** The inner branch of a split, on the node behind guard `g`. */
    method SplitInner(local: Option<BlockId>, slot: Slot, g: WriteGuard) returns (local': Option<BlockId>, r: Result<()>)
      requires engine.Valid() && engine.State().FreedEmpty()
      requires SlotOk(engine.State(), slot) && LocalOk(engine.State(), local)
      requires g.block < |engine.blocks| && engine.blocks[g.block].content.Some?
      requires !engine.blocks[g.block].content.value.isLeaf && |engine.blocks[g.block].content.value.keys| > 0
      modifies engine
      ensures engine.Valid()
      ensures Step(engine.State(), local', r) == TreeOps.SplitInner(old(engine.State()), local, slot, g.block)
    {
      var node := engine.blocks[g.block].content.value;
      var cut := CutInner(node, g.block);
      if cut.Err? {
        engine.SetContent(g, Some(node.(keys := node.keys[..|node.keys| / 2])));
        return local, Err(Panic);
      }
      var (left, mid, right) := cut.value;
      engine.SetContent(g, Some(left));
      local' := OpenParent(local, slot, NewInner(node.way));
      var rid := Attach(local', slot, mid, right);
      r := if rid.Ok? then Ok(()) else Err(rid.error);
    }

    /** `insert_helper` on block `id`, with the parent cell `slot`. */
    method InsertHelper(local: Option<BlockId>, slot: Slot, id: BlockId, key: int, value: V, fuel: nat)
      returns (local': Option<BlockId>, r: Result<()>)
      requires engine.Valid() && engine.State().FreedEmpty()
      requires SlotOk(engine.State(), slot) && LocalOk(engine.State(), local)
      modifies engine
      ensures engine.Valid()
      ensures Step(engine.State(), local', r) == TreeOps.InsertHelper(old(engine.State()), local, slot, id, key, value, fuel)
      decreases fuel, 1
    {
      var g := engine.FetchWrite(id);
      if g.Err? {
        return local, Err(Panic);
      }
      if engine.blocks[id].content.None? {
        engine.Release(g.value);
        return local, Ok(());
      }
      if engine.blocks[id].content.value.isLeaf {
        local', r := InsertIntoLeaf(local, g.value, key, value);
      } else {
        local', r := Descend(local, g.value, key, value, fuel);
      }
      if r.Ok? {
        local', r := SplitIfOverfull(local', slot, g.value);
      }
      engine.Release(g.value);
    }

    /** The leaf branch of `insert_helper`, on the leaf behind guard `g`. */
    method InsertIntoLeaf(local: Option<BlockId>, g: WriteGuard, key: int, value: V)
      returns (local': Option<BlockId>, r: Result<()>)
      requires engine.Valid() && engine.State().FreedEmpty()
      requires g.block < |engine.blocks| && engine.blocks[g.block].content.Some?
      requires engine.blocks[g.block].content.value.isLeaf
      modifies engine`blocks
      ensures engine.Valid()
      ensures Step(engine.State(), local', r) == TreeOps.InsertIntoLeaf(old(engine.State()), local, g.block, key, value)
    {
      var node := engine.blocks[g.block].content.value;
      var ins := LeafInsert(node, key, value);
      if ins.Err? {
        engine.SetContent(g, Some(node.(keys := InsertAt(node.keys, BinarySearch(node.keys, key).index, key))));
        return local, Err(Panic);
      }
      engine.SetContent(g, Some(ins.value));
      return local, Ok(());
    }

    /** The inner branch of `insert_helper`, on the node behind guard `g`. */
    method Descend(local: Option<BlockId>, g: WriteGuard, key: int, value: V, fuel: nat)
      returns (local': Option<BlockId>, r: Result<()>)
      requires engine.Valid() && engine.State().FreedEmpty() && LocalOk(engine.State(), local)
      requires g.block < |engine.blocks| && engine.blocks[g.block].content.Some?
      requires !engine.blocks[g.block].content.value.isLeaf
      modifies engine
      ensures engine.Valid()
      ensures Step(engine.State(), local', r) == TreeOps.Descend(old(engine.State()), local, g.block, key, value, fuel)
      decreases fuel, 0
    {
      ghost var s := engine.State();
      var node := engine.blocks[g.block].content.value;
      var c := InsertChild(node, key);
      if c >= |node.pointers| {
        return local, Err(Panic);
      }
      if fuel == 0 {
        return local, Err(StackOverflow);
      }
      assert TreeOps.Descend(s, local, g.block, key, value, fuel)
          == TreeOps.InsertHelper(s, local, ParentOf(g.block), node.pointers[c], key, value, fuel - 1);
      local', r := InsertHelper(local, ParentOf(g.block), node.pointers[c], key, value, fuel - 1);
    }

    /** The tail of `insert_helper`: split the node behind guard `g` when it
        holds more keys than its `way`. */
    method SplitIfOverfull(local: Option<BlockId>, slot: Slot, g: WriteGuard) returns (local': Option<BlockId>, r: Result<()>)
      requires engine.Valid() && engine.State().FreedEmpty()
      requires SlotOk(engine.State(), slot) && LocalOk(engine.State(), local)
      requires g.block < |engine.blocks| && engine.blocks[g.block].content.Some?
      modifies engine
      ensures engine.Valid()
      ensures Step(engine.State(), local', r) == TreeOps.SplitIfOverfull(old(engine.State()), local, slot, g.block)
    {
      var node := engine.blocks[g.block].content.value;
      if |node.keys| <= node.way {
        return local, Ok(());
      }
      if node.isLeaf {
        local', r := SplitLeaf(local, slot, g);
      } else {
        local', r := SplitInner(local, slot, g);
      }
    }

    /** `insert`: the helper from the root with an empty local cell; a cell
        filled by a split at the top names the new root. */
    method Insert(key: int, value: V) returns (r: Result<()>)
      requires Valid()
      modifies this`root, engine
      ensures Valid() && engine == old(engine) && way == old(way)
      ensures (State(), r) == TreeOps.Insert(old(State()), key, value)
      ensures old(TreeProps.TreeOk(State())) && r != Err(Panic) ==> TreeProps.TreeOk(State())
      ensures old(TreeProps.TreeOk(State())) && r.Ok? ==>
                StoreHolds(engine.State(), key, value) && TreeProps.PairsKept(old(engine.State()), engine.State())
    {
      if TreeProps.TreeOk(State()) {
        TreeProps.InsertKeepsTree(State(), key, value);
      }
      var local, res := InsertHelper(None, Local, root, key, value, engine.nextBlockId);
      if res.Err? {
        return res;
      }
      if local.Some? {
        root := local.value;
      }
      r := Ok(());
    }

    /** `delete_helper` on block `id`. */
    method DeleteHelper(id: BlockId, key: int, fuel: nat) returns (r: Result<Option<V>>)
      requires engine.Valid()
      modifies engine
      ensures engine.Valid()
      ensures (engine.State(), r) == TreeOps.DeleteHelper(old(engine.State()), id, key, fuel)
      decreases fuel
    {
      var g := engine.FetchWrite(id);
      if g.Err? {
        return Err(Panic);
      }
      if engine.blocks[id].content.None? {
        engine.Release(g.value);
        return Ok(None);
      }
      var node := engine.blocks[id].content.value;
      var found := BinarySearch(node.keys, key);
      if found.NotFound? {
        engine.Release(g.value);
        return Ok(None);
      }
      var pos := found.index;
      if node.isLeaf {
        var keys := RemoveAt(node.keys, pos);
        if pos >= |node.values| {
          engine.SetContent(g.value, Some(node.(keys := keys)));
          engine.Release(g.value);
          return Err(Panic);
        }
        engine.SetContent(g.value, Some(node.(keys := keys, values := RemoveAt(node.values, pos))));
        r := Ok(Some(node.values[pos]));
      } else {
        if pos >= |node.pointers| {
          engine.Release(g.value);
          return Err(Panic);
        }
        if fuel == 0 {
          engine.Release(g.value);
          return Err(StackOverflow);
        }
        r := DeleteHelper(node.pointers[pos], key, fuel - 1);
      }
      engine.Release(g.value);
    }

    /** `delete`: the helper from the root, which it never moves. */
    method Delete(key: int) returns (r: Result<Option<V>>)
      requires Valid()
      modifies engine
      ensures Valid()
      ensures (State(), r) == TreeOps.Delete(old(State()), key)
      ensures old(TreeProps.TreeOk(State())) ==> TreeProps.TreeOk(State())
    {
      if TreeProps.TreeOk(State()) {
        TreeProps.DeleteKeepsTree(State(), key);
      }
      r := DeleteHelper(root, key, engine.nextBlockId);
    }
  }
}
