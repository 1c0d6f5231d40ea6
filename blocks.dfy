/** The block layer: an id-indexed arena of blocks with a LIFO free list.
    `Store` is the engine's state as a value and its member functions say what
    each engine operation does to it; `MemoryBlockEngine` is the engine itself,
    whose methods update its fields in place and are proved to agree with them. */
module Blocks {
  import opened Wrappers

  type BlockId = nat

  /** A storage cell: at most one payload, and a validity flag. */
  datatype Block<B> = Block(valid: bool, id: BlockId, content: Option<B>)

  /** Exclusive access to one block, as handed out by `fetch_write`. */
  datatype WriteGuard = WriteGuard(block: BlockId)

  datatype Store<B> = Store(blocks: seq<Block<B>>, nextBlockId: nat, freeList: seq<BlockId>)
  {
    /** The engine's invariant: one block per allocated id, each block knows
        its own id, and the free list holds distinct allocated ids. */
    ghost predicate Valid() {
      && |blocks| == nextBlockId
      && (forall i :: 0 <= i < |blocks| ==> blocks[i].id == i)
      && (forall k :: 0 <= k < |freeList| ==> freeList[k] < nextBlockId)
      && (forall j, k :: 0 <= j < k < |freeList| ==> freeList[j] != freeList[k])
    }

    /** `t` is a later state of this store reached by allocations and writes
        only: nothing shrank, no payload was taken out, nothing was freed. */
    ghost predicate Keeps(t: Store<B>) {
      && |blocks| <= |t.blocks|
      && nextBlockId <= t.nextBlockId
      && t.freeList <= freeList
      && (forall i :: 0 <= i < |blocks| && blocks[i].content.Some? ==> t.blocks[i].content.Some?)
    }

    /** No block on the free list holds a payload: `delete` empties what it
        frees, and allocation takes ids off the list before writing them. */
    ghost predicate FreedEmpty() {
      forall k :: 0 <= k < |freeList| && freeList[k] < |blocks| ==> blocks[freeList[k]].content.None?
    }

    /** `alloc_block`: reuse the most recently freed id, else append a new block. */
    function AllocBlock(): (r: (Store<B>, BlockId))
      requires Valid()
      ensures r.0.Valid() && Keeps(r.0)
      ensures r.1 < r.0.nextBlockId && r.0.blocks[r.1].valid && r.1 !in r.0.freeList
      ensures |freeList| > 0 ==>
                && r.1 == freeList[|freeList| - 1]
                && r.0.freeList == freeList[..|freeList| - 1]
                && r.0.nextBlockId == nextBlockId
                && r.0.blocks[r.1].content == blocks[r.1].content
      ensures |freeList| == 0 ==>
                && r.1 == nextBlockId
                && r.0.nextBlockId == nextBlockId + 1
                && r.0.freeList == freeList
                && r.0.blocks == blocks + [Block(true, r.1, None)]
      ensures forall i :: 0 <= i < |blocks| && i != r.1 ==> r.0.blocks[i] == blocks[i]
      ensures r.1 in freeList || r.1 == nextBlockId
      ensures FreedEmpty() ==> r.0.FreedEmpty()
    {
      if |freeList| > 0 then
        var id := freeList[|freeList| - 1];
        assert forall k :: 0 <= k < |freeList| - 1 ==> freeList[k] != id;
        (Store(blocks[id := blocks[id].(valid := true)], nextBlockId, freeList[..|freeList| - 1]), id)
      else
        (Store(blocks + [Block(true, nextBlockId, None)], nextBlockId + 1, freeList), nextBlockId)
    }

    /** Writing through a held write guard: the block's payload becomes `content`. */
    function Put(id: BlockId, content: Option<B>): (t: Store<B>)
      requires Valid() && id < nextBlockId
      ensures t.Valid() && t.nextBlockId == nextBlockId && t.freeList == freeList
      ensures t.blocks[id] == blocks[id].(content := content)
      ensures forall i :: 0 <= i < |blocks| && i != id ==> t.blocks[i] == blocks[i]
      ensures content.Some? ==> Keeps(t)
      ensures FreedEmpty() && id !in freeList ==> t.FreedEmpty()
    {
      this.(blocks := blocks[id := blocks[id].(content := content)])
    }

    /** `alloc_write`: allocate, then store `item` and mark the block valid. */
    function AllocWrite(item: B): (r: (Store<B>, BlockId))
      requires Valid()
      ensures r.0.Valid() && Keeps(r.0)
      ensures r.1 < r.0.nextBlockId && r.0.blocks[r.1] == Block(true, r.1, Some(item)) && r.1 !in r.0.freeList
      ensures forall i :: 0 <= i < |blocks| && i != r.1 ==> r.0.blocks[i] == blocks[i]
      ensures FreedEmpty() ==> r.0.FreedEmpty() && (r.1 >= |blocks| || blocks[r.1].content.None?)
    {
      if |freeList| > 0 then
        var id := freeList[|freeList| - 1];
        assert forall k :: 0 <= k < |freeList| - 1 ==> freeList[k] != id;
        (Store(blocks[id := Block(true, id, Some(item))], nextBlockId, freeList[..|freeList| - 1]), id)
      else
        (Store(blocks + [Block(true, nextBlockId, Some(item))], nextBlockId + 1, freeList), nextBlockId)
    }

    /** `fetch_read` (and the range check of `fetch_write`): any id below
        `nextBlockId` can be read, a freed one included. */
    function FetchRead(id: BlockId): (r: Result<Block<B>>)
      requires Valid()
      ensures r.Ok? <==> id < nextBlockId
      ensures r.Ok? ==> r.value == blocks[id] && r.value.id == id
      ensures r.Err? ==> r.error == InvalidBlockId
    {
      if id >= nextBlockId then Err(InvalidBlockId) else Ok(blocks[id])
    }

    /** `delete`: refuse an unallocated id or a double free; otherwise push the
        id on the free list and take the payload out of the block. */
    function Delete(id: BlockId): (r: (Store<B>, Result<Option<B>>))
      requires Valid()
      ensures r.0.Valid()
      ensures r.1.Err? <==> id >= nextBlockId || id in freeList
      ensures r.1.Err? ==> r.1.error == InvalidBlockId && r.0 == this
      ensures r.1.Ok? ==>
                && r.1.value == blocks[id].content
                && r.0.freeList == freeList + [id]
                && r.0.nextBlockId == nextBlockId
                && r.0.blocks[id] == blocks[id].(content := None)
                && (forall i :: 0 <= i < |blocks| && i != id ==> r.0.blocks[i] == blocks[i])
      ensures FreedEmpty() ==> r.0.FreedEmpty()
    {
      if id >= nextBlockId || id in freeList then
        (this, Err(InvalidBlockId))
      else
        (Store(blocks[id := blocks[id].(content := None)], nextBlockId, freeList + [id]), Ok(blocks[id].content))
    }
  }

  lemma KeepsTrans<B>(s: Store<B>, t: Store<B>, u: Store<B>)
    requires s.Keeps(t) && t.Keeps(u)
    ensures s.Keeps(u)
  {
  }

  /** Writing back a block's old content undoes a write to it. */
  lemma PutRestores<B>(s: Store<B>, id: BlockId, content: Option<B>)
    requires s.Valid() && id < s.nextBlockId
    ensures s.Put(id, content).Put(id, s.blocks[id].content) == s
  {
    var t := s.Put(id, content).Put(id, s.blocks[id].content);
    assert t.blocks == s.blocks;
  }

  function EmptyStore<B>(): (s: Store<B>)
    ensures s.Valid()
  {
    Store([], 0, [])
  }

  /** `alloc_write` is `alloc_block` followed by a write of the payload and
      of the validity flag into the block it returned. */
  lemma AllocWriteIsAllocThenWrite<B>(s: Store<B>, item: B)
    requires s.Valid()
    ensures var (s1, id) := s.AllocBlock();
            s.AllocWrite(item) == (Store(s1.blocks[id := Block(true, id, Some(item))], s1.nextBlockId, s1.freeList), id)
  {
    var (s1, id) := s.AllocBlock();
    if |s.freeList| == 0 {
      assert s1.blocks[id := Block(true, id, Some(item))] == s.blocks + [Block(true, s.nextBlockId, Some(item))];
    } else {
      assert s1.blocks[id := Block(true, id, Some(item))] == s.blocks[id := Block(true, id, Some(item))];
    }
  }

  /** What `alloc_write` stored is what a read of that id sees, what a
      `delete` of it returns; a second `delete` of the id is a double free. */
  lemma DeleteReturnsLastWrite<B>(s: Store<B>, item: B)
    requires s.Valid()
    ensures var (t, id) := s.AllocWrite(item);
            && t.FetchRead(id) == Ok(Block(true, id, Some(item)))
            && t.Delete(id).1 == Ok(Some(item))
            && t.Delete(id).0.Delete(id).1 == Err(InvalidBlockId)
  {
    var (t, id) := s.AllocWrite(item);
    assert id in t.Delete(id).0.freeList;
  }

  /** A freed id stays in range: reading it succeeds and shows an empty block
      whose validity flag `delete` left alone. */
  lemma FreedIdStillFetchable<B>(s: Store<B>, id: BlockId)
    requires s.Valid() && s.Delete(id).1.Ok?
    ensures s.Delete(id).0.FetchRead(id) == Ok(Block(s.blocks[id].valid, id, None))
  {
  }

  /** The free list is a stack: the id freed last is the next one allocated,
      and reallocating it does not grow the arena. */
  lemma AllocReusesLastFreed<B>(s: Store<B>, id: BlockId)
    requires s.Valid() && s.Delete(id).1.Ok?
    ensures var t := s.Delete(id).0;
            && t.AllocBlock().1 == id
            && |t.AllocBlock().0.blocks| == |s.blocks|
            && t.AllocBlock().0.freeList == s.freeList
  {
  }

  /** The in-memory engine. The locks, the atomic counter and the guards'
      lifetimes are left out: every operation runs alone. `writeBacks` records
      the ids passed to the write-back hook, in call order. */
  class MemoryBlockEngine<B> {
    var blocks: seq<Block<B>>
    var nextBlockId: nat
    var freeList: seq<BlockId>
    ghost var writeBacks: seq<BlockId>

    function State(): Store<B>
      reads this
    {
      Store(blocks, nextBlockId, freeList)
    }

    ghost predicate Valid()
      reads this
    {
      State().Valid()
    }

    /** `MemoryBlockEngine::new`: no blocks, nothing free. */
    constructor ()
      ensures Valid() && State() == EmptyStore() && writeBacks == []
    {
      blocks, nextBlockId, freeList := [], 0, [];
      writeBacks := [];
    }

    /** The memory engine's write-back hook does nothing to the engine; the
        ghost log only records that it was called, and with which id. */
    method WriteBack(id: BlockId, block: Block<B>)
      modifies this`writeBacks
      ensures writeBacks == old(writeBacks) + [id]
      ensures State() == old(State())
    {
      writeBacks := writeBacks + [id];
    }

    method AllocBlock() returns (id: BlockId)
      requires Valid()
      modifies this`blocks, this`nextBlockId, this`freeList
      ensures Valid() && (State(), id) == old(State()).AllocBlock()
    {
      if |freeList| > 0 {
        id := freeList[|freeList| - 1];
        freeList := freeList[..|freeList| - 1];
      } else {
        id := nextBlockId;
        nextBlockId := nextBlockId + 1;
        blocks := blocks + [Block(false, id, None)];
      }
      blocks := blocks[id := blocks[id].(valid := true)];
      assert old(freeList) == [] ==> blocks == old(blocks) + [Block(true, id, None)];
    }

    /** A read guard is a view of the block that no writer can change while it
        is held; a copy of the block stands for it. */
    method FetchRead(id: BlockId) returns (r: Result<Block<B>>)
      requires Valid()
      ensures r.Ok? <==> id < nextBlockId
      ensures r.Ok? ==> r.value == blocks[id] && r.value.id == id
      ensures r == State().FetchRead(id)
    {
      if id >= nextBlockId {
        return Err(InvalidBlockId);
      }
      r := Ok(blocks[id]);
    }

    method FetchWrite(id: BlockId) returns (r: Result<WriteGuard>)
      requires Valid()
      ensures r.Ok? <==> id < nextBlockId
      ensures r.Ok? ==> r.value.block == id
      ensures r.Err? ==> r.error == InvalidBlockId
    {
      if id >= nextBlockId {
        return Err(InvalidBlockId);
      }
      r := Ok(WriteGuard(id));
    }

    /** Assigning the payload through a write guard. */
    method SetContent(g: WriteGuard, content: Option<B>)
      requires Valid() && g.block < nextBlockId
      modifies this`blocks
      ensures Valid() && State() == old(State()).Put(g.block, content)
    {
      blocks := blocks[g.block := blocks[g.block].(content := content)];
    }

    /** Setting the validity flag through a write guard. */
    method SetValid(g: WriteGuard, valid: bool)
      requires Valid() && g.block < nextBlockId
      modifies this`blocks
      ensures Valid() && blocks == old(blocks)[g.block := old(blocks)[g.block].(valid := valid)]
      ensures nextBlockId == old(nextBlockId) && freeList == old(freeList)
    {
      blocks := blocks[g.block := blocks[g.block].(valid := valid)];
    }

    /** Dropping a write guard: the hook is called once, with the id the block
        itself carries, which the invariant makes the guarded id. */
    method Release(g: WriteGuard)
      requires Valid() && g.block < nextBlockId
      modifies this`writeBacks
      ensures writeBacks == old(writeBacks) + [g.block]
      ensures State() == old(State())
    {
      var id := blocks[g.block].id;
      WriteBack(id, blocks[g.block]);
    }

    method AllocWrite(item: B) returns (r: Result<BlockId>)
      requires Valid()
      modifies this
      ensures Valid() && r.Ok?
      ensures (State(), r.value) == old(State()).AllocWrite(item)
      ensures writeBacks == old(writeBacks) + [r.value]
    {
      AllocWriteIsAllocThenWrite(State(), item);
      var id := AllocBlock();
      ghost var s1 := State();
      // the range check of `fetch_write` cannot fail on a block just allocated
      var g := FetchWrite(id);
      assert g.Ok?;
      SetContent(g.value, Some(item));
      SetValid(g.value, true);
      assert blocks[id] == Block(true, id, Some(item));
      assert blocks == s1.blocks[id := Block(true, id, Some(item))];
      Release(g.value);
      r := Ok(id);
    }

    method Delete(id: BlockId) returns (r: Result<Option<B>>)
      requires Valid()
      modifies this`blocks, this`freeList
      ensures Valid() && (State(), r) == old(State()).Delete(id)
    {
      if id >= nextBlockId || id in freeList {
        return Err(InvalidBlockId);
      }
      freeList := freeList + [id];
      r := Ok(blocks[id].content);
      blocks := blocks[id := blocks[id].(content := None)];
    }
  }
}
