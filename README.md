# bplustree-rs in Dafny

A model of the core of `bplustree-rs`, a small B+Tree whose nodes live in the
blocks of a block engine. The model has two layers.

* **The block engine** (`blocks.dfy`, module `Blocks`). This is the in-memory
  engine `MemoryBlockEngine`. It holds:
  - a vector of blocks, each with a `valid` flag, its own id and optional
    content;
  - the next block id;
  - a LIFO free list.

  The engine's state is a value, `Store`. `Store` has one function per
  operation: `AllocBlock`, `AllocWrite`, `FetchRead` and `Delete`. The class
  `MemoryBlockEngine` has the same fields and a method per operation. It also
  has methods for the write guard: `FetchWrite`, writes through a guard
  (`SetContent`, `SetValid`) and the guard's drop (`Release`, which calls
  `WriteBack`). Each method is proved to change the state exactly as its
  `Store` function says.
* **The tree** (`nodes.dfy`, `tree_ops.dfy`, `tree.dfy`).
  - `Nodes` holds the node record (`new_leaf`, `new_inner`) and the sequence
    operations the tree does on keys, values and pointers. It also has the
    standard library's binary search (`Ok(pos)` / `Err(insertion point)`),
    the leaf insert and removal, the two child routings and the two node
    cuts.
  - `TreeOps` states `new`, `search`, `insert` and `delete` as functions over
    the engine's `Store`. It follows the recursion of `insert_helper` and
    `delete_helper` step by step.
  - `Tree.BPlusTree` is the tree object. It owns a `MemoryBlockEngine` and a
    root id. Its methods fetch a write guard, change the node in place and
    release the guard, as the source does. Every method is proved equal to
    its `TreeOps` function.
* **What insert and delete keep** (`tree_props.dfy`, module `TreeProps`).
  A node is well-formed when its keys are sorted, a leaf has one value per
  key and no pointers, and every pointer names a block that holds a node.
  `insert` keeps every node well-formed unless it panics. When it succeeds,
  its pair is stored in a leaf and every pair stored before is still stored.
  `delete` and `new` keep every node well-formed. A leaf split writes
  nothing to the leaf after the split leaf.
* **The source's own test** (`scenarios.dfy`). `test_insert_and_search` is
  replayed there: way 2, inserts of 1..3, then four searches. The tree after
  each insert is given block by block. One more insert (of 4) shows how the
  code loses keys.

Errors follow the source:
- An `anyhow` error returned with `?` is `Err(InvalidBlockId)`.
- An `unwrap` of `None` or of an error, and an out-of-range `Vec` index or
  insert, is `Err(Panic)`.
- The search and the helpers stop with `Err(StackOverflow)` after more steps
  than there are blocks. Such a descent has visited some block twice. In
  `search` that is a cycle of read guards, and the recursion would go on
  until the thread's stack overflows. In `insert` and `delete` the second
  visit is a second `fetch_write` on a block whose write guard is still
  held, which deadlocks or panics in the source.

### Behaviour of the source that the model reproduces

- `search` routes an exact separator match to `pointers[pos + 1]`. `insert`
  routes it to `pointers[pos]`, and `delete` too
  (`Nodes.RoutesDisagreeOnSeparator`).
- `delete` descends only when the key is itself a separator of the inner node,
  and then to `pointers[pos]`. Otherwise it returns `None` at the first inner
  node. It never rebalances, never frees a block and never changes the root.
  The source marks it as unfinished.
- The inner split cuts the keys at `len/2` and then the pointers at half of
  the keys that remain (`(len/2)/2`). So the left half has too few pointers
  (`Nodes.InnerCutBreaksPointerCount`).
- An inner split with an empty parent cell allocates `new_inner` with no
  pointers. Adding the separator's pointer to it then panics. So the tree can
  grow a level only from a leaf (`TreeOps.SplitInnerAtTopPanics`,
  `TreeOps.InsertGrowsRootAtTop`).
- A node's split reports to the parent cell of its caller, i.e. the `parent`
  field of the node one level up. For a child of the root that is the root's
  `parent` field. That field is `None`, so the split allocates a second root
  that the tree never adopts, and the new leaf hangs under it. With way 2,
  after inserting 1, 2, 3, 4, `search(3)` and `search(4)` return `None`
  although a leaf holds both (`Scenarios.SearchT4Loses`).
- A leaf split does not update the `prev` field of the old right neighbour
  (`TreeProps.SplitLeafSkipsSuccessorPrev`).
- A duplicate key is inserted a second time, next to the first. Nothing is
  overwritten.
- A freed block id can still be fetched, and reads as empty
  (`Blocks.FreedIdStillFetchable`). `alloc_block` reuses the most recently
  freed id first (`Blocks.AllocReusesLastFreed`).

## Model

| member | source | states |
|---|---|---|
| Blocks.Store.AllocBlock | src/block.rs:102-113 | With a non-empty free list, the id is the last freed one and is popped; otherwise it is the next id, and a fresh empty block is appended. The block is marked valid, no other block changes, and the store stays well-formed. |
| Blocks.Store.AllocWrite | src/block.rs:18-24 | The id's block is valid, has its own id and holds the item. The id is not on the free list, no other block changes, and the block was empty before (when freed blocks are empty). |
| Blocks.Store.FetchRead | src/block.rs:115-124 | Succeeds exactly when the id is below the next id, and then returns that block. Otherwise the error is an invalid id. |
| Blocks.Store.Delete | src/block.rs:137-143 | Fails exactly for an id out of range or already freed, and then changes nothing. Otherwise it returns the block's content, empties it and pushes the id on the free list. |
| Blocks.AllocWriteIsAllocThenWrite | src/block.rs:18-24 | `alloc_write` is `alloc_block` followed by a write of the item into the new block. |
| Blocks.DeleteReturnsLastWrite | src/block.rs:137-143 | Reading a block just allocated with an item gives the item. Deleting it returns the item, and deleting it again fails. |
| Blocks.FreedIdStillFetchable | src/block.rs:115-124 | After a delete, the freed id can still be fetched and reads as an empty block. |
| Blocks.AllocReusesLastFreed | src/block.rs:102-113 | The next allocation after a delete returns the deleted id. It adds no block and restores the free list. |
| Blocks.MemoryBlockEngine.constructor | src/block.rs:148-150 | A new engine has no blocks, next id 0 and an empty free list. |
| Blocks.MemoryBlockEngine.WriteBack | src/block.rs:98-100 | Writing back changes none of the engine's state; only the log of write-backs grows. |
| Blocks.MemoryBlockEngine.AllocBlock | src/block.rs:102-113 | Changes the engine exactly as `Store.AllocBlock` does, and returns its id. |
| Blocks.MemoryBlockEngine.FetchRead | src/block.rs:115-124 | Returns the block exactly when the id is below the next id, and `Err(InvalidBlockId)` otherwise. |
| Blocks.MemoryBlockEngine.FetchWrite | src/block.rs:126-135 | Hands out a guard on the id exactly when the id is below the next id, and `Err(InvalidBlockId)` otherwise. |
| Blocks.MemoryBlockEngine.SetContent | src/block.rs:81-86 | A write through a guard replaces that block's content and nothing else. |
| Blocks.MemoryBlockEngine.SetValid | src/block.rs:22 | Setting the valid flag through a guard changes only that block's flag. |
| Blocks.MemoryBlockEngine.Release | src/block.rs:88-93 | Dropping a guard writes its block back: the state is unchanged and the log gains the block id. |
| Blocks.MemoryBlockEngine.AllocWrite | src/block.rs:18-24 | Changes the engine exactly as `Store.AllocWrite` does. It never fails, and the new block is written back once. |
| Blocks.MemoryBlockEngine.Delete | src/block.rs:137-143 | Changes the engine and returns exactly what `Store.Delete` gives. |
| Nodes.InsertAt | src/tree.rs:139-140 | Inserting at a position shifts the later elements right by one and adds exactly one copy of the element. |
| Nodes.RemoveAt | src/tree.rs:242-243 | Removing at a position shifts the later elements left by one and removes exactly that element. |
| Nodes.RemoveAtUndoesInsertAt | src/tree.rs:242-243 | Removing at the position just inserted at gives back the original sequence. |
| Nodes.BinarySearch | src/tree.rs:138 | A found index holds the key. On sorted keys the search finds the key exactly when the key is present. The returned position splits the keys into those below and those above the key, strictly so when the key is absent. |
| Nodes.InsertAtSearchPosSorted | src/tree.rs:138-139 | Inserting a key at the position the binary search gives keeps sorted keys sorted. |
| Nodes.LeafInsert | src/tree.rs:137-140 | The new keys are the old keys with the key inserted at the binary-search position, and the new values the old values with the value inserted at that same position. Every other field is the leaf's own, and sorted keys stay sorted. It panics exactly when there are fewer values than the position, and never when keys and values have the same length. |
| Nodes.LeafRemove | src/tree.rs:238-243 | An absent key leaves the leaf unchanged and gives `None`. A found key is removed from the keys and its value is returned and removed, or the removal panics when the values are too short. |
| Nodes.LeafRemoveKeepsLeaf | src/tree.rs:238-243 | On a well-formed leaf, removal never fails. It returns a value exactly when the key is present, and the leaf stays well-formed. |
| Nodes.LeafRemoveRemovesKey | src/tree.rs:238-243 | With strictly sorted keys, the key is gone after removal and the keys stay strictly sorted. |
| Nodes.LeafInsertThenFind | src/tree.rs:137-140 | A key inserted into a well-formed leaf that lacks it is found by the binary search at its new position, next to its value. |
| Nodes.LeafRemoveUndoesInsert | src/tree.rs:137-140 | Removing a key just inserted into a well-formed leaf returns its value and gives back the original leaf. |
| Nodes.RoutesDisagreeOnSeparator | src/tree.rs:103-107 | The search child is the first key strictly above the key, while the insert child is the first key at or above it. The two differ by one exactly when the key is a separator, and are equal otherwise. |
| Nodes.CutLeaf | src/tree.rs:150-183 | The left half keeps the first `len/2` keys and values, and the right half holds the rest. The halves concatenate back to the node. The right half is a leaf after the node. Every left key is at most the first right key. |
| Nodes.CutInner | src/tree.rs:185-187 | Fails with a panic exactly when the pointer cut `(len/2)/2` is out of range. Otherwise: left keys, middle key and right keys concatenate back to the node; the left half keeps `len/2` keys and half as many pointers; the pointers are shared out between the halves. |
| Nodes.InnerCutBreaksPointerCount | src/tree.rs:185-187 | After an inner cut, the left half has fewer pointers than keys plus one. When the node was well-formed, the right half has more pointers than keys plus one. |
| Nodes.AddSeparator | src/tree.rs:181-182 | The new keys are the parent's keys with the separator inserted at its binary-search position `pos`. The new pointers are the parent's pointers with the new block id inserted at `pos + 1`, so the pointers up to `pos` are unchanged. Every other field is the parent's, and sorted keys stay sorted. It panics exactly when the parent has fewer than `pos + 1` pointers, and always when it has none. |
| TreeOps.New | src/tree.rs:72-81 | The new tree is well-formed and its root block holds an empty leaf with no parent. |
| TreeOps.SearchHelper | src/tree.rs:87-111 | A value found is stored under the key in some leaf. An empty block gives `None`, and an out-of-range id panics. On a well-formed leaf the result is `Some` exactly when the key is present. |
| TreeOps.Search | src/tree.rs:83-85 | A value found is stored under the key in some leaf, and the search never reports an invalid id. |
| TreeOps.OpenParentFills | src/tree.rs:155-160 | A filled parent cell is left alone. An empty cell ends up naming a block that was empty before and now holds the given root node. |
| TreeOps.AttachLinks | src/tree.rs:161-182 | The parent cell is unchanged. When the parent it names exists: the call panics exactly when the parent has too few pointers; otherwise the parent gains the separator and a pointer to the new sibling, which sits in a block that was empty. |
| TreeOps.LinkLinks | src/tree.rs:164-182 | Linking a sibling under an existing parent adds the separator and the sibling's pointer to the parent. It panics exactly when the parent has too few pointers. |
| TreeOps.PromoteMovesKeyUp | src/tree.rs:155-182 | Moving a key up never overflows the stack. From an empty cell it panics exactly when the root template lacks the pointer position. On success the cell names a parent, and the sibling sits in a once-empty block with that parent. |
| TreeOps.FirstSeparatorGrowsRoot | src/tree.rs:155-160 | Adding the first separator to a leaf split's root template gives a grown root: one key, with pointers to the old node and the new sibling. |
| TreeOps.SplitLeafKeepsPairs | src/tree.rs:150-183 | After a successful leaf split, the old leaf keeps the first half and points on to a new leaf with the rest. Keys and values are both split without loss. The new leaf's prev is the old leaf and its next the old next. |
| TreeOps.LinkLeavesLinks | src/tree.rs:169-183 | After linking, the old block holds the left half with `next` set to the new block, and the new block holds the right half under a parent. |
| TreeOps.SplitInnerAtTopPanics | src/tree.rs:188-191 | Splitting an inner node whose parent cell is empty always panics. |
| TreeOps.SplitNeverOverflows | src/tree.rs:149-213 | The split step never fails with a stack overflow. |
| TreeOps.InsertIntoLeaf | src/tree.rs:137-140 | The leaf insert keeps the store well-formed. It allocates nothing, and its only possible failure is a panic. |
| TreeOps.InsertHelper | src/tree.rs:125-217 | Engine facts only: any outcome keeps the engine's store well-formed and growing (allocated blocks stay allocated, nothing is freed, the parent cell stays valid). The node invariant and the pairs are in `TreeProps.InsertHelperOk`. |
| TreeOps.Descend | src/tree.rs:141-147 | Engine facts only: the descent into a child keeps the engine's store well-formed and growing. It hands the child the node's own parent field as its parent cell, so it never changes `insert`'s local cell. |
| TreeOps.PromoteOpensRoot | src/tree.rs:155-182 | From an empty cell, a successful move-up stores the root template plus the separator and the sibling in a fresh block named by the cell. |
| TreeOps.LeafSplitGrowsRoot | src/tree.rs:150-183 | A successful leaf split at the top fills the cell with a grown root over the split leaf. |
| TreeOps.SplitGrowsRootFromLeafOnly | src/tree.rs:149-213 | A successful split at the top leaves the cell empty or fills it with a grown root over the node. |
| TreeOps.InsertGrowsRootAtTop | src/tree.rs:125-217 | A successful insert at the root leaves the cell empty or fills it with a grown root over the old root. |
| TreeOps.Insert | src/tree.rs:113-123 | Engine facts only: the engine's store stays well-formed and its blocks stay allocated. On error the root is unchanged. A new root has one key and points first at the old root. The node invariant and the pairs are in `TreeProps.InsertKeepsTree`. |
| TreeOps.DeleteHelper | src/tree.rs:231-259 | Nothing changes when it returns `None`. A returned value was removed, with its key, from some leaf. An inner node where the key is not a separator returns `None` at once. The store stays well-formed and no block is freed. |
| TreeOps.Delete | src/tree.rs:221-229 | The root never changes. `None` leaves the tree as it was, and a returned value was removed with its key from a leaf. |
| TreeOps.InsertIntoRoomyRootLeaf | src/tree.rs:113-149 | In a root leaf with room, `insert` writes the leaf insert in place and keeps the root. |
| TreeOps.InsertThenSearch | src/tree.rs:83-149 | In a root leaf with room, a key just inserted is found by `search` with its value. |
| TreeOps.DeleteFromRootLeaf | src/tree.rs:221-243 | When the root is a well-formed leaf, `delete` succeeds and returns a value exactly when the key is in the leaf, and that value is the one stored under the key. The root keeps its block, whose keys lose one copy of the key if they had one. No other block changes, and none is added. |
| TreeOps.InsertThenDelete | src/tree.rs:113-243 | In a root leaf with room, deleting a key just inserted returns its value and restores the tree exactly. |
| TreeProps.InsertKeepsTree | src/tree.rs:113-217 | On a tree of well-formed nodes whose root holds a node: unless `insert` panics, every node stays well-formed and the root holds a node. When it succeeds, the new pair is stored in some leaf and every pair stored before is still stored. |
| TreeProps.InsertHelperOk | src/tree.rs:125-217 | The same for `insert_helper` on a block holding a node, with any parent cell: well-formed nodes unless it panics; on success the new pair stored and no pair lost. |
| TreeProps.DescendOk | src/tree.rs:141-147 | The same for the descent into the child the key routes to. |
| TreeProps.InsertIntoLeafOk | src/tree.rs:137-140 | On a well-formed leaf the leaf insert succeeds, keeps every node well-formed and every pair, and stores the new pair. |
| TreeProps.SplitIfOverfullOk | src/tree.rs:149-214 | The overflow check and split keep every node well-formed unless they panic, and on success keep every pair. |
| TreeProps.SplitLeafOk | src/tree.rs:150-183 | A leaf split keeps every node well-formed unless it panics. On success each pair of the split leaf is in one of the two halves, and no other pair is lost. |
| TreeProps.SplitInnerOk | src/tree.rs:184-213 | An inner split keeps every node well-formed unless it panics. On success every filled block stays filled and every leaf keeps its keys and values. |
| TreeProps.PromoteOk | src/tree.rs:155-182 | Moving a key up keeps every node well-formed unless it panics. On success every leaf keeps its entries, and the sibling sits in a block that held no node, under the parent the cell names. |
| TreeProps.LinkOk | src/tree.rs:164-182 | A successful link under an existing parent keeps every node well-formed and every leaf's entries: a separator only ever goes into an inner node. |
| TreeProps.DeleteHelperOk | src/tree.rs:231-259 | `delete_helper` keeps every node well-formed and every filled block filled. |
| TreeProps.DeleteKeepsTree | src/tree.rs:221-229 | `delete` keeps a tree of well-formed nodes well-formed. |
| TreeProps.NewKeepsTree | src/tree.rs:72-81 | `new` on an engine of well-formed nodes gives a tree of well-formed nodes whose root holds a node. |
| TreeProps.PromoteFrame | src/tree.rs:155-182 | Moving a key up leaves every filled block other than the parent the cell names and the cell's owner exactly as it was. |
| TreeProps.SplitLeafSkipsSuccessorPrev | src/tree.rs:169-183 | Splitting a leaf whose `next` is block `nx` leaves `nx` exactly as it was. On success the new leaf sits between the two (its `prev` is the split leaf, its `next` is `nx`), while `nx`'s `prev` still names the split leaf. |
| Tree.BPlusTree.constructor | src/tree.rs:72-81 | The tree owns the given engine, and its state is what `TreeOps.New` makes of the engine's store. |
| Tree.BPlusTree.Search | src/tree.rs:83-111 | A value found is stored under the key in some leaf of the engine. |
| Tree.BPlusTree.SetSlot | src/tree.rs:158 | Setting the parent cell, local or in the owner's block, is exactly `TreeOps.WriteSlot`. |
| Tree.BPlusTree.OpenParent | src/tree.rs:155-160 | The engine and the local cell end exactly as `TreeOps.OpenParent` says. |
| Tree.BPlusTree.Attach | src/tree.rs:161-182 | The engine and the outcome are exactly `TreeOps.Attach`. |
| Tree.BPlusTree.Link | src/tree.rs:164-182 | Allocating the sibling and adding its separator to the parent behind the guard end exactly as `TreeOps.Link` says. |
| Tree.BPlusTree.SplitLeaf | src/tree.rs:150-183 | The in-place leaf split ends exactly as `TreeOps.SplitLeaf` says. |
| Tree.BPlusTree.SplitInner | src/tree.rs:184-213 | The in-place inner split ends exactly as `TreeOps.SplitInner` says. |
| Tree.BPlusTree.InsertHelper | src/tree.rs:125-217 | The recursive insert through write guards ends exactly as `TreeOps.InsertHelper` says. |
| Tree.BPlusTree.InsertIntoLeaf | src/tree.rs:137-140 | The in-place leaf insert ends exactly as `TreeOps.InsertIntoLeaf` says. |
| Tree.BPlusTree.Descend | src/tree.rs:141-147 | The descent through the child ends exactly as `TreeOps.Descend` says. |
| Tree.BPlusTree.SplitIfOverfull | src/tree.rs:149-214 | The overflow check and split end exactly as `TreeOps.SplitIfOverfull` says. |
| Tree.BPlusTree.Insert | src/tree.rs:113-123 | The tree's new state and outcome are exactly `TreeOps.Insert`. It keeps its engine and way. On a tree of well-formed nodes, every node stays well-formed unless the insert panics, and a successful insert stores the pair and loses no pair. |
| Tree.BPlusTree.DeleteHelper | src/tree.rs:231-259 | The recursive delete through write guards ends exactly as `TreeOps.DeleteHelper` says. |
| Tree.BPlusTree.Delete | src/tree.rs:221-229 | The tree's new state and result are exactly `TreeOps.Delete`, and a tree of well-formed nodes stays one. |
| Scenarios.NewIsT0 | src/tree.rs:288-290 | A way-2 tree on a new engine is one empty root leaf in block 0. |
| Scenarios.InsertAppleGivesT1 | src/tree.rs:293 | Inserting 1 puts the pair in the root leaf. |
| Scenarios.InsertBananaGivesT2 | src/tree.rs:294 | Inserting 2 puts it after 1 in the root leaf. |
| Scenarios.InsertCherryGivesT3 | src/tree.rs:295-299 | Inserting 3 splits the root leaf. The result is a new root `[2]` in block 1 over leaf `[1]` in block 0 and leaf `[2, 3]` in block 2, the shape the test's comment describes. |
| Scenarios.SearchT3 | src/tree.rs:304-307 | In that tree, searches for 1, 2 and 3 give apple, banana and cherry, and a search for 4 gives `None`. |
| Scenarios.DeleteT3FindsNothing | src/tree.rs:244-248 | In that tree, which stores 1, 2 and 3, `delete` of each of them returns `Ok(None)` and leaves the tree unchanged: 1 and 3 are not separators of the root, and 2 is routed to the leaf holding only 1. |
| Scenarios.InsertDateGivesT4 | src/tree.rs:141-183 | Inserting 4 next splits the leaf `[2, 3, 4]`. The split goes up through the root's empty parent field, so a new block 3 is allocated as a second root. The new leaf `[3, 4]` hangs under block 3, not under the root. |
| Scenarios.SearchT4Finds | src/tree.rs:83-111 | After the fourth insert, 1 and 2 are still found. |
| Scenarios.SearchT4Loses | src/tree.rs:83-111 | After the fourth insert, searches for 3 and 4 return `None`, although a leaf of the store holds each of them with its value. |

## Left out

- Locking is not modelled. `RwLock`, the atomic `next_block_id` and lock
  acquisition failures are left out, and every operation runs alone. The
  source's "failed to acquire lock" errors and the deadlock a second
  `fetch_write` on a held block would cause are not represented.
- Aliasing through raw pointers is not modelled. `insert_helper` holds a write
  guard on a node while it recurses through a raw pointer to the engine. The
  model reads and writes the one current copy of each block.
- `Cell` as a mechanism is not modelled. The parent cell is `TreeOps.Slot`:
  either the local cell of `insert`, or the `parent` field of a named block.
- The `BlockEngine` trait is not modelled in general. Only
  `MemoryBlockEngine` is modelled; a disk engine is not part of this model.
  `write_back` does nothing there, and the model only logs its calls as ghost
  state.
- `print_tree` and `print_tree_helper` are console output, and are left out.
- `anyhow` messages are collapsed into the `Error` values.
- Keys are `int` rather than any `Ord` type. Values are generic.
- The `assert_ne!` after `alloc_write` in the splits cannot fail for the
  in-memory engine, so it has no error path in the model.
- The binary search is one fixed algorithm (the midpoint bisection). Rust's
  `binary_search` may return any index of an equal run of keys; the model
  picks one.
- TreeOps.SearchHelper: the result is `Err(StackOverflow)` after more steps
  than there are blocks. On a cyclic block graph the source would recurse,
  taking one more read guard each time, until the thread's stack overflows.
- TreeOps.InsertHelper: stops with `Err(StackOverflow)` after more steps than
  there are blocks. Such a descent revisits a block; the source would call
  `fetch_write` again on a block whose write guard it still holds, which
  deadlocks or panics.
- TreeOps.DeleteHelper: stops with `Err(StackOverflow)` in the same way, for
  the same second `fetch_write`.
- TreeProps.InsertKeepsTree: after a panic the nodes are not promised to be
  well-formed, and after any error the pairs are not promised to be kept. A
  split can panic after writing the left half and before linking the right
  half, and then the right half's pairs are in no leaf.
- TreeProps.InsertKeepsTree: states no frame for the whole descent. The
  blocks an insert leaves alone are stated only for one move-up
  (`TreeProps.PromoteFrame`) and for the leaf after a split leaf
  (`TreeProps.SplitLeafSkipsSuccessorPrev`).
- TreeProps: the node invariant does not cover parent, prev and next links,
  nor the pointer count of an inner node. The source breaks the latter
  itself (`Nodes.InnerCutBreaksPointerCount`) and leaves parent fields stale.
- TreeOps.Insert: its contract assumes the freed blocks are empty (part of
  `TreeState.Valid`). The tree code never frees a block, so this holds for
  every tree built through `new`, `insert` and `delete`. A store with content
  in freed blocks is outside the contract.
- Tree.BPlusTree.Search: a function over the engine's state, not a method
  that takes read guards. The read guards change nothing the model can see.
- Scenarios.InsertDateGivesT4: only the test's first three inserts come from
  the source. The fourth insert extends the test to show the lost keys.
