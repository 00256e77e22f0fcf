# Maximus: the B-tree library and the MEX code generator

Two parts of Maximus are modelled here and proved to do what they are for.

**The B-tree library** (`src/libs/btree`) is a stack of four layers, and the model has
the same four, each proved against the one below it.

- `BlockFile.BlkIoBuf` is a file of numbered blocks behind a write-back cache with
  least-recently-used eviction. What it shows is a plain sequence of blocks.
- `BTreeFile.BTree` is the tree over those blocks. Its routines work on node images
  (two arrays and a counter, in `NodeImage`) that they read and write block by block,
  with the block numbers of the parents as their only way up. The class ties the file
  to a tree (`TreeShape`) by `Kept` and to an account of every block by `Books`; the
  methods are the source's routines (`insert_at`, `_move_key`, `_remove_merge_3` and so
  on), cut into steps small enough to reason about one at a time. `TreeOps` and
  `TreeRemove` say what each step does to the tree, `TreeOnDisk` and `RemoveOnDisk` what
  it does to the file.
- `Cursor.PAList` is the parent list that makes a search resumable.
- `Database.Dbase` keeps several trees and a data file in agreement.

Keys are of any type, with two comparison functions: `kfIns` is a total preorder, and
`kfSrch` is one that tells no more keys apart. These are the only assumptions about them.

**The MEX compiler** (`src/apps/mex`) emits quads in one pass and patches jumps later.

- `MexVm` gives the quads a meaning, as the interpreter in `src/libs/mexvm` does: bytes
  of an activation record, one file of 100 registers per form, wrap-around of 8, 16 and
  32 bits, division that truncates, and division by zero, which stops the program. An
  instruction that names a register outside its file makes the run go astray (`Wild`).
- `MexSource` gives statements and expressions a meaning of their own, over integers.
- `MexCode` and `MexFlow` are the finished code of a statement; `MexEquivalence` proves
  that it runs exactly as the statement executes, divergence and errors included.
  `MexRegs` says which code keeps to the registers, and what happens to the rest.
- `MexGen.Generator` holds the routines of `sem_expr.c`, `sem_flow.c` and `sem_func.c`
  and the fields they change: the quads, the temporary lists and the list of return
  jumps. It is proved to emit that finished code, quad for quad.
  `MexCompiler` puts the two halves together.
- `MexCall` is the calling sequence. `MexStack` is the machine with one memory of bytes
  and its two pointers, in which the activation records of caller and called function lie
  side by side; it takes the same steps as `MexVm`. `MexReturn` and `MexProgram` carry a
  call across the jump, the called function and its return.
- `MexCalls` is a program of functions that call each other and themselves, and what it
  means; `MexWhole` proves that its code comes to that, or goes on for ever as the source
  does, and `MexUnit` that the compiler emits such code. `MexLocal` is what both rest on:
  a function does the same in any two frames that agree on its locals and arguments.
- `MexSymbols`, `MexScope`, `MexRepeats`, `MexGoto`, `MexAround`, `MexNearest` and `MexBlocks` are the
  symbol table, scopes, frame offsets and gotos. `MexLex` is conditional text.

Some proofs hide the parts of a predicate behind a quantifier over `Look`, `Show` or one
of their kin, which are always true; this only keeps facts out of proofs that do not need
them. `Same` is equality, taken as a whole.

Some promises do not hold of the code as they stand. Each is stated with its exact
condition, and most with an input that breaks it.

- A write past the end of a cached file leaves blocks that cannot be read
  (`BlkIoBuf.Put`, `GapExample`).
- The cache keeps to its cap, and drops the least recently used block, only until the
  32-bit stamp wraps after 2^32 uses. An entry stamped with the largest number is never
  a victim, so that a full cache of such entries passes its cap (`MakeRoom`, `FewLast`,
  `CapPassed`); and the victim is the least recently used block exactly if no other was
  last used in an earlier round of the stamp (`GetLru`, `RecentVictim`).
- An order of 65536 or more is cut to 16 bits (the constructor of `BTree`).
- The compiler allots registers without a limit, but the machine has 100 of each form
  and does not check. `ExprRuns` says that an expression with a value runs to its end if
  and only if its code keeps to the registers, and goes astray otherwise; `DeepGoesWild`
  is an expression that does. What a function's code does is therefore stated for code
  that keeps to them, as the code of any function does whose expressions each need fewer
  than 100 temporaries (`CompileFunction`, `CodeTidy`). What an expression needs is
  measured on the source, and never less than what is in use at once.
- A repeated name at the global scope can be missed behind the nameless argument of an
  earlier function (`RepeatsWhen`, `GlobalNameMissed`).
- A block that begins with 65536 bytes of locals or more in use loses their offset
  (`BlockRestores`, `LargeFrameOverlaps`).
- A goto may jump into a block that is not around it (`SiblingLabel`). `FunctionMeets`
  says exactly when, from the source alone: a goto whose name means nothing when its own
  block closes takes what it means at the next close of a block no deeper than its own,
  and that may be a block beside it (`Scan`, `Meets`).

Where the code and its comments differ, the model follows the code. The comment above
`BTREE::insert` promises one of the `IF_` constants, but what is returned is the last
comparison. The comment above `DBASE::update` speaks of an update, but the record is
removed first, and when the new one has a twin only the removal takes place. Double-word
literals are meant to be unsigned from 2^31 on, but the test reads the literal's 16-bit
field, so that they are always signed.

## Model

| member | source | states |
|---|---|---|
| BlockFile.BlkIoBuf.Get | src/libs/btree/blkiobuf.cc:112-136 | A block read through the cache is the last one put; nothing the file shows changes, and blocks below the end can always be read. |
| BlockFile.BlkIoBuf.Put | src/libs/btree/blkiobuf.cc:142-151 | A write is seen as a write to a plain file, cached or not. From a file without gaps it leaves none exactly when it does not start past the end or goes straight to the file. |
| BlockFile.BlkIoBuf.HighNode | src/libs/btree/blkiobuf.cc:72-78 | The highest block counts blocks that are only in the cache. |
| BlockFile.BlkIoBuf.FlushBuffer | src/libs/btree/blkiobuf.cc:157-182 | After a flush the file itself holds all that was to be seen, and no reader sees a change. |
| BlockFile.BlkIoBuf.EnableBuffer | src/libs/btree/blkiobuf.cc:84-108 | Turning the cache on or off, from any state, changes nothing a reader sees. |
| BlockFile.BlkIoBuf.GetLru | src/libs/btree/bbuf.cc:213-253 | The victim is the first entry with the lowest stamp, and there is none exactly if every entry bears the largest stamp. It is a least recently used block if and only if no other cached block was last used in an earlier round of the 32-bit counter, and so always before the counter wraps. |
| BlockFile.BlkIoBuf.BufGet | src/libs/btree/bbuf.cc:92-114 | A hit moves the block to the front and restamps it; the blocks held, and what they show, stay the same. |
| BlockFile.BlkIoBuf.BufPut | src/libs/btree/bbuf.cc:119-169 | A block is held once, with the new content, and stays dirty if it was. |
| BlockFile.BlkIoBuf.MakeRoom | src/libs/btree/blkiobuf.cc:188-222 | Making room writes back a dirty victim before dropping it and drops just that one. For a cap of one or more there is room under it afterwards if and only if there was before, or the cache was just full and some entry bore less than the largest stamp; and there are never more entries than wraps of the stamp, or the cap. |
| BlockFile.BlkIoBuf.InsertList | src/libs/btree/blkiobuf.cc:188-222 | Caching a block changes what is seen at its number only. |
| BlockFile.LastUseGrows | src/libs/btree/bbuf.cc:92-169 | How one more use moves the last uses, the order by which blocks are dropped. |
| BlockFile.Oldest | src/libs/btree/bbuf.cc:213-253 | An entry with the lowest stamp is a least recently used one if and only if no other entry was last used in an earlier round of the counter. |
| BlockFile.FewLast | src/libs/btree/bbuf.cc:213-253 | If every entry bears the largest stamp, there are no more entries than wraps of the stamp, since only the last use before a wrap gives it. |
| BlockFile.CapPassed | src/libs/btree/bbuf.cc:213-253 | A cache for one block whose block has been used 2^32 times takes in another one and holds two. |
| BlockFile.RecentVictim | src/libs/btree/bbuf.cc:213-253 | Of two cached blocks, the one just used, as the counter came round to 0, is dropped, and the one not used since the second use of all stays. |
| BlockFile.Flushed | src/libs/btree/blkiobuf.cc:157-182 | Writing one dirty block back keeps every view of the file. |
| BlockFile.Interleave | src/libs/btree/blkiobuf.cc:72-182 | For every sequence of gets, puts, flushes, cache switches and size queries, the buffered file gives the answers of a plain file, in order, and ends up holding the same. |
| BlockFile.GapExample | src/libs/btree/blkiobuf.cc:112-151 | A put of block 1 into an empty cached file makes block 0 unreadable, where a plain file has a zero block. |
| NodeImage.StoreLoad | src/libs/btree/btnode.cc:97-142 | A node written to its block and read back is the same node. |
| NodeImage.OpenSlot | src/libs/btree/bt_ins.cc:31-62 | Shifting keys and children up by one and filling the hole shows the node with the new key and subtree, slots past the end still zero. |
| NodeImage.CloseSlot | src/libs/btree/bt_rem.cc:462-488 | Shifting down and clearing the last slot shows the node without the key, slots past the end zero. |
| NodeImage.PushLeft | src/libs/btree/bt_rem.cc:78-113 | The memmoves that make room at the left end of a node show it with a key and subtree put in front. |
| NodeImage.PopLeft | src/libs/btree/bt_rem.cc:47-77 | The memmoves that drop the first key and child show the node without them. |
| TreeShape.WeaveJoin | src/libs/btree/btree.cc:225-263 | The in-order sequence of a node's two halves around a key. |
| TreeShape.PlugAllInOrder | src/libs/btree/btree.cc:225-263 | The keys of a tree are those before the node in focus, its own, and those after it, along any chain of parents. |
| TreeShape.PlugAllRooted | src/libs/btree/btree.cc:268-305 | A valid node in valid surroundings makes a valid tree: order, depth and key counts. |
| TreeOps.InsertedInOrder | src/libs/btree/bt_ins.cc:48-62 | A key put into a node stands in the sequence at that place, followed by its new right subtree. |
| TreeOps.SplitInOrder | src/libs/btree/bt_ins.cc:66-120 | Left half, middle key and right half are the keys of the node that was split. |
| TreeOps.SplitFull | src/libs/btree/bt_ins.cc:66-120 | Both halves of a full node have enough keys, for every order of 4 or more, odd ones too. |
| TreeOps.SplitUp | src/libs/btree/bt_ins.cc:151-180 | Passing the middle key to the parent leaves the whole sequence as it was. |
| TreeRemove.MovedInOrder | src/libs/btree/bt_rem.cc:32-113 | Moving a key through the parent keeps the sequence of the two siblings and the key between them, from either side. |
| TreeRemove.SharedFull | src/libs/btree/bt_rem.cc:185-215 | Evening two siblings out leaves both with enough keys and not too many. |
| TreeRemove.MergedFull | src/libs/btree/bt_rem.cc:222-299 | Two small siblings and the key between them fit one node. |
| TreeRemove.SuccessorRest | src/libs/btree/bt_rem.cc:306-381 | Putting the successor in the place of a key and taking it out of its leaf deletes exactly that key. |
| TreeRemove.RestIsDelete | src/libs/btree/bt_rem.cc:462-510 | What is left around a removed key is the whole sequence with one place taken out. |
| TreeOnDisk.RepSame | src/libs/btree/btree.cc:268-305 | A tree is still on disk after any change to blocks that are not its own. |
| TreeOnDisk.WriteFocus | src/libs/btree/btnode.cc:126-142 | Writing one node changes one subtree of the tree on disk and no other. |
| TreeOnDisk.TakeFree | src/libs/btree/btree.cc:65-103 | A block off the head of the free list keeps every block accounted for once. |
| TreeOnDisk.GiveBack | src/libs/btree/btree.cc:112-149 | So does one put at its head. |
| RemoveOnDisk.MergedBooks | src/libs/btree/bt_rem.cc:274-299 | After a merge the husk of the right node, its children cleared, is the only block to be given back. |
| RemoveOnDisk.DestroyNext | src/libs/btree/btree.cc:112-149 | The recursion of destroy, one child at a time: no block is lost or freed twice. |
| BTreeFile.BTree.constructor | src/libs/btree/bt_open.cc:47-165 | A new file is open exactly if the order is at least 4, and is a valid empty tree exactly if the order, cut to 16 bits, is. |
| BTreeFile.BTree.Reopen | src/libs/btree/bt_open.cc:79-159 | A closed file opened again has the same keys, tree, free list, key count, root and next fresh block, though the last is recomputed from the file's length. |
| BTreeFile.BTree.Close | src/libs/btree/bt_open.cc:169-202 | Closing leaves header and blocks in the file, from which Reopen starts. |
| BTreeFile.BTree.NewNode | src/libs/btree/btree.cc:65-103 | A new node is a block no tree uses; one from the free list keeps its content and only loses its mark. |
| BTreeFile.BTree.Destroy | src/libs/btree/btree.cc:112-149 | A whole subtree goes to the free list, no other block changes, and its root heads the list. |
| BTreeFile.BTree.InsertAt | src/libs/btree/bt_ins.cc:31-180 | Through any chain of splits up to a new root, the file shows a valid tree whose keys are the old ones with the new one in its place. |
| BTreeFile.BTree.SplitNode | src/libs/btree/bt_ins.cc:66-120 | A split makes two nodes that hold the node's keys but the middle one, the right one in a fresh block. |
| BTreeFile.BTree.InsertAboveRoot | src/libs/btree/bt_ins.cc:122-149 | A split root gets a new root above it. |
| BTreeFile.BTree.ChildIndex | src/libs/btree/bt_ins.cc:155-174 | Looking for a block number among the children of the parent finds the place the descent took. |
| BTreeFile.BTree.Insert | src/libs/btree/bt_ins.cc:188-283 | On any valid tree: the new key goes after all smaller ones and before the others; replacing overwrites one equal key and keeps the count; an equal key without either flag is refused, with nothing changed. The result is only known to be nonzero. |
| BTreeFile.BTree.MoveKey | src/libs/btree/bt_rem.cc:32-113 | The array moves between two siblings and their parent do what MovedTo, MovedSep and MovedFrom say, from either side. |
| BTreeFile.BTree.ShiftKeys | src/libs/btree/bt_rem.cc:185-215 | Evening out makes the tree valid again and keeps its keys. |
| BTreeFile.BTree.Merge3 | src/libs/btree/bt_rem.cc:222-299 | Merging and removing the key from the parent makes the tree valid again, keeps its keys, and climbs: its measure falls though it calls remove again. |
| BTreeFile.BTree.ReplaceSuccessor | src/libs/btree/bt_rem.cc:306-381 | A key with a subtree to its right is deleted by way of its successor's leaf; the descent happens once. |
| BTreeFile.BTree.RemoveLowKeys | src/libs/btree/bt_rem.cc:389-455 | A node one key short is repaired from a sibling, and the keys stay the same. |
| BTreeFile.BTree.RemoveFromRoot | src/libs/btree/bt_rem.cc:123-176 | A root without keys is freed and its only child becomes the root; an emptied tree leaves a block ready for reuse. |
| BTreeFile.BTree.RemoveAt | src/libs/btree/bt_rem.cc:462-510 | Removing a key at any node ends, with a valid tree and the sequence without that key. |
| BTreeFile.BTree.Remove | src/libs/btree/bt_rem.cc:539-593 | From any valid tree, exactly one matching key is deleted, if there is one; otherwise nothing changes. |
| BTreeFile.BTree.RemoveP | src/libs/btree/bt_rem.cc:515-534 | The very occurrence that the last search returned is deleted, even among duplicates. |
| BTreeFile.BTree.Lookup | src/libs/btree/bt_look.cc:29-137 | A search goes on from the cursor to the next matching key, skipping none; when it fails there was none left. |
| BTreeFile.BTree.LookupAll | src/libs/btree/bt_look.cc:29-137 | Repeated searches with a fresh cursor return exactly the matching keys, in order, each once. |
| BTreeFile.BTree.Partition | src/libs/btree/btree.cc:65-149 | In every valid state each block from 1 to nnHighNode-1 is in the tree or on the free list, exactly once. |
| BTreeFile.BTree.SlotsZero | src/libs/btree/bt_look.cc:97-127 | Every child slot past the last child is zero, so reading one slot too far stops the search. |
| BTreeFile.BTree.DescentBound | src/libs/btree/btree.cc:23-29 | A descent reads at most 1 + log base order/2 of (N+1)/2 nodes. |
| TreeHeight.TreeSize | src/libs/btree/btree.cc:23-29 | A valid tree of height d and order m holds at least 2*(m/2)^(d-1) - 1 keys. |
| Cursor.PAList.Add | src/libs/btree/palist.cc:58-73 | A parent goes on top of the list. |
| Cursor.PAList.Pop | src/libs/btree/palist.cc:77-96 | The top parent comes off with its index; an empty list gives zero and keeps the index. |
| Cursor.HitsRun | src/libs/btree/bt_look.cc:68-95 | In a sorted tree the keys that match a search are one run. |
| Cursor.RunHits | src/libs/btree/bt_look.cc:68-95 | What the repeated search returns is that run, or all keys if none is asked for. |
| Cursor.ScanSkips | src/libs/btree/bt_look.cc:72-95 | Stopping a node's scan at the first key not below the one sought passes over no match. |
| Cursor.PendingUp | src/libs/btree/bt_look.cc:104-127 | Climbing to a parent never makes more work left to do, so the search ends. |
| KeyOrder.SortedInsert | src/libs/btree/bt_ins.cc:220-268 | The place that the descent finds keeps the keys sorted. |
| KeyOrder.NodeCut | src/libs/btree/bt_ins.cc:220-225 | One comparison with a key of a node settles all keys on one side of it. |
| Records.KeyTaken | src/libs/btree/dbase.cc:817-838 | Taking a record's key out of an index leaves one key for each other record. |
| Records.NoTwinsAdded | src/libs/btree/dbase.cc:457-490 | A record unlike all others keeps any two records distinct on some index field. |
| Records.NoRecordMeets | src/libs/btree/dbase.cc:939-960 | If no key of one index leads to a record that meets the criteria, no record does. |
| Database.Dbase.constructor | src/libs/btree/dbase.cc:154-345 | A new database is valid and empty, with nothing on the free list and only the header in its data file. |
| Database.Dbase.GetFreeBlock | src/libs/btree/dbase.cc:390-433 | A block for a new record is the head of the free list, which is taken off, as long as there is one, and only then the block at the end of the file; it holds no record. |
| Database.Dbase.FindTwin | src/libs/btree/dbase.cc:457-490 | The search along the first index finds a record equal on all index fields exactly if there is one. |
| Database.Dbase.Insert | src/libs/btree/dbase.cc:439-613 | A record is refused exactly if one agrees with it on all index fields, and then nothing changes. Otherwise it is added to the data and to every index, in the block freed last, with the file as long as it was, or at the end of the file if no block is free. The lock count returns to what it was. |
| Database.Dbase.Remove | src/libs/btree/dbase.cc:786-912 | A record that meets the criteria is removed, from the data and from every index, exactly if there is one. It is the first of them along the index of the first field given, or along index 0 if none is; its block heads the free list, and the file stays as long as it was. |
| Database.Dbase.RemoveKey | src/libs/btree/dbase.cc:817-838 | Of the keys equal on a field, the one that carries the record's number is removed. |
| Database.Dbase.Update | src/libs/btree/dbase.cc:619-642 | The old record goes; the new one is stored exactly if it then has no twin, and in the very block that the old one had, so that free list and file length are as before. |
| Database.Dbase.LookupMatch | src/libs/btree/dbase.cc:917-937 | A record matches if every field that is asked for compares equal. |
| Database.Dbase.Lookup | src/libs/btree/dbase.cc:939-1075 | A search returns the next record that meets the criteria, in the order of the index of the first field given, or of uiIdx if none is given; or there is none left. |
| Database.Dbase.ObtainLock | src/libs/btree/dbase.cc:61-90 | Taking the lock rereads the header and changes nothing else. |
| Database.Dbase.ReleaseLock | src/libs/btree/dbase.cc:96-118 | Giving the last lock back restores the invariant with the header written. |
| Database.Dbase.Partition | src/libs/btree/dbase.cc:390-433 | In every valid state each block of the data file holds one live record or is on the free list once. |
| Database.Dbase.OneKeyEach | src/libs/btree/dbase.cc:506-530 | In every valid state each index is a valid tree with exactly one key, field and number, per live record. |
| MexTypes.VmOpMeans | src/libs/mexvm/vm_opmth.c:50-427 | What the machine computes on bit patterns is what the source's operator computes on integers: arithmetic, comparison, bitwise and shift operators, for every form and sign. |
| MexTypes.WrapIs | src/libs/mexvm/vm_run.c:312-374 | In one, two or four bytes a number wraps modulo 256, 65536 or 2^32, to the one congruent value in the range of its type. |
| MexTypes.Division | src/libs/mexvm/vm_opmth.c:321-427 | Whatever the signs, Divide and Modulus give, wrapped to the type, the q and r with a = q*b + r where r is smaller than b in size and is zero or has the sign of a. So -7 / 2 is -3 and -7 % 2 is -1. |
| MexTypes.VmDivision | src/libs/mexvm/vm_opmth.c:321-427 | The machine gives the bits of that q and r on stored operands. |
| MexTypes.Compares | src/libs/mexvm/vm_opflo.c:73-180 | A comparison or logical operator gives 1 if it holds and 0 if not, as a signed word; every other operator gives the type of its operands. |
| MexTypes.VmCompares | src/libs/mexvm/vm_opflo.c:73-180 | So does the machine, comparing what the stored operands stand for. |
| MexTypes.ShiftsLeft | src/libs/mexvm/vm_opmth.c:185-210 | A shift by 0 changes nothing, each place more doubles and wraps, and by 32 or more is an error. |
| MexTypes.ShiftsRight | src/libs/mexvm/vm_opmth.c:215-256 | A shift to the right by one place more halves, rounding down, negative numbers too. |
| MexTypes.ApplyRange | src/libs/mexvm/vm_opmth.c:50-427 | Every result fits its type. |
| MexTypes.NegVal | src/apps/mex/sem_expr.c:517-626 | Subtracting from zero is negation in the signed type of the same form. |
| MexTypes.AndBit | src/libs/mexvm/vm_opmth.c:261-286 | Bitwise and, on numbers of any size and sign: a bit is set exactly if it is set in both operands. |
| MexTypes.OrBit | src/libs/mexvm/vm_opmth.c:291-316 | Bitwise or: a bit is set exactly if it is set in either. |
| MexTypes.BitsVal | src/libs/mexvm/vm_opmth.c:261-316 | The bitwise operators on bit patterns give the pattern of the operators on the values, signed or not. |
| MexTypes.ShlVal | src/libs/mexvm/vm_opmth.c:185-210 | Shifting a bit pattern left multiplies the value by a power of two and wraps. |
| MexVm.LoadStore | src/libs/mexvm/vm_run.c:312-374 | A stored variable reads back, and variables that do not overlap it are untouched. |
| MexVm.Nest | src/libs/mexvm/vm_run.c:624-715 | A run through a stretch of code is the run through a part of it, and then the rest. |
| MexVm.Straight | src/libs/mexvm/vm_run.c:624-715 | Code without jumps runs through, one step a quad, or stops on an error. |
| MexSource.MoreFuel | src/apps/mex/mex_tab.c:1708-1832 | A statement that ends does so in the same way however long one waits. |
| MexSource.OperandsKept | src/apps/mex/sem_expr.c:817-846 | Operands of different size are brought to the larger type, and of one size to the signed one; exactly which values that leaves as they are, and the operator then works on those. |
| MexSource.MixedSum | src/apps/mex/sem_expr.c:817-846 | A word of 300 and an unsigned byte of 100 make 400, in either order. |
| MexSource.MixedQuotient | src/libs/mexvm/vm_opmth.c:321-367 | A word of -7 divided by a byte of 2 is -3. |
| MexSource.LiteralMeans | src/apps/mex/sem_expr.c:108-170 | A byte or word literal stands for its bits as an unsigned number, a double word literal for its bits as a signed one; its type is the signed one if that can hold it. |
| MexSource.EvalRange | src/apps/mex/mex_tab.c:1951-2057 | An expression's value lies in the range of its type. |
| MexCode.Fresh | src/apps/mex/sem_expr.c:227-299 | A new temporary is in no use and is never the register of results. |
| MexCode.ConvertMeans | src/apps/mex/sem_expr.c:924-1168 | Conversion between any two integral types, in a register, a variable or a literal, wraps the value as the target type does. |
| MexCode.BinMeans | src/apps/mex/sem_expr.c:426-511 | A binary operation, shifts and bitwise ones included, leaves its value in the result object, keeps every other live temporary and every variable, and frees its operands. |
| MexCode.NegMeans | src/apps/mex/sem_expr.c:517-626 | So does unary minus. |
| MexCode.ExprMeans | src/apps/mex/sem_expr.c:426-626 | The quads of any side-effect-free integral expression, on registers without a limit, leave its value where the result object says, keep all live temporaries and the frame, and fail exactly if the expression does. |
| MexFlow.AssignMeans | src/apps/mex/mex_tab.c:2059-2070 | An assignment converts, stores, and yields the stored value. |
| MexFlow.ActionMeans | src/apps/mex/mex_tab.c:1939-2076 | The quads of a statement's expression, chained assignments included, change the frame as the source says. |
| MexMeaning.JumpMeans | src/libs/mexvm/vm_opflo.c:30-70 | The conditional jumps decide as the source's test does. |
| MexMeaning.RunTest | src/apps/mex/sem_flow.c:36-54 | A test's quads, run where they stand, lead to the next quad or to the target. |
| MexMeaning.RunDeliver | src/apps/mex/sem_func.c:257-319 | A returned value arrives converted in register 0 of the return type's form. |
| MexMeaning.Follows | src/apps/mex/mex_tab.c:1708-1832 | A run of a statement's quads that stops has a matching execution of the statement that ends within as many steps. |
| MexEquivalence.Halts | src/apps/mex/mex_tab.c:1708-1832 | A statement whose execution ends has quads whose run stops. |
| MexEquivalence.SameProgram | src/apps/mex/sem_flow.c:36-220 | For every nesting of blocks, if, else, while, do, for and return whose code keeps to the registers, at any address in any program: the run stops if and only if the execution ends, and then with the same frame, at the next quad, at the function's end with the result, or in the same error. |
| MexEquivalence.FunctionMeans | src/apps/mex/sem_func.c:214-250 | The same for a function's body between its FUNCSTART and FUNCRET quads, which MexReturn.Enter and MexReturn.Leave are about. |
| MexCompiler.CompileFunction | src/apps/mex/mex_tab.c:1416-1469 | What the generator emits for a function, jumps patched, runs from any memory as the source executes, if it keeps to the machine's registers; and it does if no expression needs 100 temporaries, as counted on the source. Earlier code stays, and no temporary or return jump is left over. |
| MexRegs.ExprRuns | src/libs/mexvm/vm_run.c:312-349 | The code of an expression that has a value runs to its end, with that value, if and only if it keeps to the register files; otherwise it goes astray. |
| MexRegs.CodeTidy | src/apps/mex/sem_expr.c:227-299 | The code of a statement whose expressions each need fewer than 100 temporaries, as counted on the source, keeps to the register files, and to the statement's own variables. |
| MexGen.NeedBound | src/apps/mex/sem_expr.c:426-511 | What an expression needs, as counted on the source, grows with its nesting to the right only: at most five more than that. |
| MexRegs.DeepGoesWild | src/libs/mexvm/vm.h:103 | An expression of 99 nested multiplications or more compiles, has a value, and goes astray from every memory. |
| MexPatch.PatchReturns | src/apps/mex/sem_func.c:214-319 | A statement's code with its return jumps unset becomes, by patching the listed jumps, its code for the function's end. |
| MexTemps.GapIsFresh | src/apps/mex/sem_expr.c:227-299 | The first gap in the sorted list of a form is the lowest number in no use. |
| MexTemps.Take | src/apps/mex/sem_expr.c:227-299 | Allotting a number keeps the lists sorted and apart and adds just that register. |
| MexTemps.Drop | src/apps/mex/sem_expr.c:306-393 | Unlinking a number frees just that register. |
| MexTemps.NumbersApart | src/libs/mexvm/mex.h:59-71 | Numbers of different forms do not coincide as long as fewer than 1000 temporaries of a form are allotted; then a number tells its form. |
| MexTemps.NeverResult | src/apps/mex/sem_expr.c:227-299 | Register 0 is never allotted. |
| MexGen.Generator.GetTemporary | src/apps/mex/sem_expr.c:227-299 | The register given is the lowest one in no use, however many are in use, and is in use then. |
| MexGen.Generator.MaybeFreeTemporary | src/apps/mex/sem_expr.c:358-393 | The first register on the lists with the operand's number is freed, which is the operand's own unless the numbers of two forms have run together; anything that is no temporary is left alone. |
| MexGen.Generator.ConvertTypes | src/apps/mex/sem_expr.c:924-1168 | The conversion emitted is the one that ConvertMeans is about, and the flag says whether the old operand is to be freed. |
| MexGen.Generator.SelectBinaryOperator | src/apps/mex/sem_expr.c:633-877 | Both operands are brought to their common type, and no register is held twice. |
| MexGen.Generator.EvalBinary | src/apps/mex/sem_expr.c:426-511 | The quads, result and temporaries are those of BinMeans. |
| MexGen.Generator.EvalUnary | src/apps/mex/sem_expr.c:517-626 | The quads, result and temporaries are those of NegMeans. |
| MexGen.Generator.TypeCast | src/apps/mex/sem_expr.c:884-910 | A cast emits the conversion, if any, and frees the operand. |
| MexGen.Generator.Expression | src/apps/mex/mex_tab.c:1885-2057 | An expression of any shape, reduced bottom up, gives the quads of ExprMeans. |
| MexGen.Generator.Perform | src/apps/mex/mex_tab.c:2059-2076 | Only the result's temporary is in use after a statement's expression. |
| MexGen.Generator.BackPatch | src/apps/mex/sem_vm.c:462-497 | The listed instructions get the target, in whatever order and however often listed, and no other instruction changes. |
| MexGen.Generator.IfEnd | src/apps/mex/sem_flow.c:57-74 | The test jumps to the else part or past the statement, the jump over the else part to the end. |
| MexGen.Generator.GenWhileOut | src/apps/mex/sem_flow.c:99-111 | The test of a while leads past the jump back to the top. |
| MexGen.Generator.GenDoWhileOut | src/apps/mex/sem_flow.c:82-96 | The test of a do-while leads back to the top while it holds. |
| MexGen.Generator.GenForJmpPostAndCleanup | src/apps/mex/sem_flow.c:123-190 | Four jumps tie test, post part and body of a for in the order test, body, post, test. |
| MexGen.Generator.GenFuncRet | src/apps/mex/sem_func.c:257-319 | A return delivers its value and lists a jump to be patched at the end of the function. |
| MexGen.Generator.Statement | src/apps/mex/mex_tab.c:1708-1832 | Every statement emits its code with only the return jumps open, lists exactly those, and leaves no temporary in use. |
| MexGen.Generator.Function | src/apps/mex/sem_func.c:214-250 | A function adds FUNCSTART, the code of its body with all jumps set, and FUNCRET, and nothing else. |
| MexCall.FunctionArgs | src/apps/mex/sem_func.c:104-208 | Argument offsets begin after the control data and follow one another. Value arguments only: no reference arguments and no earlier prototype to compare with. |
| MexCall.ArgsWhereDeclared | src/apps/mex/sem_func.c:104-208 | Arguments pushed from last to first lie, with their declared form, at exactly the offsets that the called function uses. |
| MexCall.PushesRun | src/apps/mex/sem_func.c:737-757 | The pushes put the saved registers on the stack and change nothing else. |
| MexCall.PopsRun | src/apps/mex/sem_func.c:759-767 | The pops restore each register to its value at the push and no other register. |
| MexCall.PopListMirrors | src/apps/mex/sem_func.c:737-767 | The list built while pushing pops in the opposite order. |
| MexCall.SavedAreLive | src/apps/mex/sem_func.c:737-757 | The registers pushed are exactly those in use. |
| MexCall.ArgsRun | src/apps/mex/sem_func.c:520-652 | The argument quads push the converted values, each once, last first, whatever conversions they need on the way. |
| MexCall.CallBegins | src/apps/mex/sem_func.c:427-657 | At the jump the stack holds the saved registers and then the arguments, and the caller's frame is as it was. |
| MexCall.CallEnds | src/apps/mex/sem_func.c:652-700 | From a stack and frame as the called function must leave them, every temporary in use before the call gets its value back. That it does leave them so is MexReturn.CallAcross. |
| MexCall.CallReturns | src/apps/mex/sem_func.c:652-700 | From there the result is moved out of register 0, which no pop overwrites, into a temporary of its own. |
| MexCall.PassArgs | src/apps/mex/sem_func.c:520-652 | The scan that looks for the last argument not yet passed ends, and passes each once. |
| MexCall.EndFuncCall | src/apps/mex/sem_func.c:427-700 | The whole sequence: pushes, arguments, jump, pops and move, or nothing if the number of arguments is wrong. Arguments passed by value only. |
| MexStack.SimRunQ | src/libs/mexvm/vm_opstk.c:30-68 | Straight code takes the machine with one memory from one state to the next as MexVm does with a frame and a stack apart: same result, same stack, same variables. |
| MexStack.SimRunIn | src/libs/mexvm/vm_run.c:624-715 | So does a run through a stretch of code with jumps, step for step, to the same end. |
| MexReturn.Enter | src/libs/mexvm/vm_opfun.c:32-56 | FUNCJUMP and FUNCSTART save the return address and the base pointer, zero the locals, and change nothing above. |
| MexReturn.Leave | src/libs/mexvm/vm_opfun.c:62-91 | FUNCRET drops the locals, restores base pointer and address, and takes off the arguments. |
| MexReturn.BodyRuns | src/apps/mex/sem_func.c:214-250 | The body of a compiled function, run in the frame it is given, comes to what its source does there, touches nothing outside its own locals and arguments, and leaves the pointers as they were. |
| MexReturn.CallAcross | src/libs/mexvm/vm_opfun.c:32-180 | A whole call, across a called function without calls of its own: it finds its arguments at their offsets and zero in its locals; if its source ends, the caller goes on behind the call with its variables, its stack, its pointers and every live temporary that held no argument as they were and the function's result in a temporary of its own; if it ends in an error, so does the call. |
| MexReturn.CallThrough | src/libs/mexvm/vm_opfun.c:32-180 | The same for any called function, whatever its body comes to. |
| MexProgram.CompileCallable | src/apps/mex/sem_func.c:214-250 | What the generator emits for a function is one that CallAcross can call. |
| MexProgram.CompileCall | src/apps/mex/sem_func.c:427-700 | What it emits for a call is a call that CallAcross is about. |
| MexProgram.CompiledCall | src/apps/mex/sem_func.c:427-700 | So a compiled call of a compiled function, with fewer than 100 registers in use, does what CallAcross says. |
| MexProgram.LocalInArea | src/apps/mex/sem_decl.c:82-164 | The locals of a function lie in the bytes that FUNCSTART reserves for it. |
| MexProgram.ArgInArea | src/apps/mex/sem_func.c:104-208 | Its arguments lie in the bytes that FUNCRET takes off. |
| MexProgram.ArgDeclared | src/apps/mex/sem_func.c:104-208 | The symbol table gives each argument the offset at which the caller's pushes put it. |
| MexLocal.ExecAlike | src/apps/mex/mex_tab.c:1708-1832 | A statement that keeps to its locals and arguments ends in the same way in any two frames that agree there. |
| MexCalls.ExecuteMore | src/apps/mex/mex_tab.c:1416-1469 | A program that ends does so in the same way however long one waits and however deep its calls may nest. |
| MexCalls.ArgsMean | src/apps/mex/sem_func.c:427-520 | The arguments of a call, computed one after another, are all held in their objects at its beginning, or the run stops where one has no value. |
| MexCalls.BegunAlike | src/apps/mex/sem_func.c:104-208 | A called function finds in its frame just what its meaning begins with. |
| MexWhole.RoutineRuns | src/libs/mexvm/vm_opfun.c:32-180 | From any piece of a function's body on, through calls nested to any depth, the machine comes to the function's end, or to an error, as the source does, and nothing outside the function's locals and arguments changes. |
| MexWhole.RoutineLasts | src/libs/mexvm/vm_run.c:624-715 | If the source never ends, by a loop or by calls without end, the machine never stops. |
| MexWhole.ProgramRuns | src/libs/mexvm/vm_run.c:624-715 | Every function of a compiled program, called with any values: if its source ends, the machine comes to its end with the same result, or to the same error, and if not, it goes on for ever. |
| MexUnit.GenInvoke | src/apps/mex/sem_func.c:427-700 | A call with its arguments and the assignment of its result emits the quads that the whole program's theorem is about, and leaves no temporary in use. |
| MexUnit.CompileProgram | src/apps/mex/mex_tab.c:1416-1469 | The functions of a program, compiled one after another with all return jumps patched, stand in the code as that theorem asks. |
| MexSymbols.ChainLookup | src/apps/mex/mex_symt.c:140-166 | For any hash function, searching one chain finds the latest declaration of a name among all. |
| MexSymbols.ChainRepeats | src/apps/mex/mex_symt.c:88-133 | In the scope that is innermost, stopping at the first entry of another scope still finds every repeated name. |
| MexSymbols.RepeatsWhen | src/apps/mex/mex_symt.c:106-117 | Exactly when the search for a repeated name succeeds, in any scope. |
| MexSymbols.GlobalNameMissed | src/apps/mex/mex_symt.c:106-117 | A global name behind a cleared argument is not seen to be repeated. |
| MexSymbols.SymTab.StEnter | src/apps/mex/mex_symt.c:88-133 | A name is entered in front, unless it is present in the same scope. |
| MexSymbols.SymTab.StFind | src/apps/mex/mex_symt.c:140-166 | The latest declaration that is still there, in a table without a parent. |
| MexSymbols.SymTab.StKillScope | src/apps/mex/mex_symt.c:174-246 | All chains lose the scope's entries; arguments stay without a name and functions stay. |
| MexScope.BlockRestores | src/apps/mex/mex_tab.c:1521-1537 | Any block leaves every answer of the table and the scope as they were, and the offset exactly if it was below 65536. |
| MexScope.FunctionRestores | src/apps/mex/mex_tab.c:1416-1440 | Any function leaves every answer of the table as it was, but for its own name, which stands for the function from then on. |
| MexScope.BodyPacked | src/apps/mex/sem_decl.c:82-164 | At every point of any body whose blocks each begin below 65536 bytes, variables alive together have places of their own within the frame. |
| MexScope.FunctionPacked | src/apps/mex/sem_func.c:104-250 | The same from the start of a function, for its arguments too, and the frame is the size recorded for it. |
| MexScope.FunctionTight | src/apps/mex/sem_decl.c:82-164 | At every such point the bytes in use are just those of the variables alive, and the frame is as large as it once had to be and no larger. |
| MexScope.ArgsLaidOut | src/apps/mex/sem_func.c:104-208 | Arguments with names of their own stand in the table one after another, without gaps. |
| MexScope.LargeFrameOverlaps | src/apps/mex/mex_tab.h:136 | If a block begins beyond that, two variables alive together can share bytes. |
| MexBlocks.InnermostFound | src/apps/mex/mex_symt.c:140-166 | The declaration found is of the innermost scope that declares the name. |
| MexBlocks.Blocks.DeclareVars | src/apps/mex/sem_decl.c:40-164 | A variable of a function gets the next bytes below the frame's base, and the largest offset is kept. No global variables and no struct members. |
| MexBlocks.Blocks.ProcessGotoHere | src/apps/mex/sem_goto.c:34-56 | A goto is put on the list with its quad and scope, and its jump is left open. |
| MexBlocks.Blocks.PatchGotosHere | src/apps/mex/sem_goto.c:89-152 | The walk along the list, unlinking as it goes, settles each goto that can be settled and keeps the others in order. |
| MexBlocks.Blocks.ScopeClose | src/apps/mex/sem_scop.c:54-66 | Closing patches gotos first and then drops the scope's names. |
| MexBlocks.Blocks.FunctionBody | src/apps/mex/mex_tab.c:1416-1469 | The routines for a whole function, in the order of the grammar, do what Function says. |
| MexGoto.SeesAll | src/apps/mex/sem_goto.c:34-152 | Compiling any part of a body accounts for its gotos: waiting, patched or refused, none twice and none lost. |
| MexGoto.FunctionGotos | src/apps/mex/sem_goto.c:34-152 | Whatever was compiled before, when a function closes no goto waits; each of its own was patched or refused exactly once, each patched quad jumps to a label of its name in that function, and the patches and quads of earlier functions stay as they were. |
| MexGoto.FunctionIdle | src/apps/mex/mex_tab.c:1416-1469 | A function leaves no goto waiting and no label known, so that the next one begins as it did. |
| MexGoto.LabelReached | src/apps/mex/sem_goto.c:95-120 | If a label is the only thing of its name in its block, every goto of that name inside the block, at any depth and before or after it, gets that label. |
| MexAround.FunctionAround | src/apps/mex/sem_goto.c:89-120 | Whatever was compiled before, for each goto to which a function's closing gives a target: the target lies in a block around the goto if and only if the scope in which the label was found is no deeper than the lowest scope closed back to since the goto. |
| MexNearest.FunctionMeets | src/apps/mex/sem_goto.c:89-152 | What becomes of any goto, read off the source around it: as the blocks close from its own on, down to its own depth, it takes the first declaration that its name then has. If that is a label, the goto is given it, and the label is in a block around the goto if and only if the source says so; if it is something else, or there is none, the goto is refused. |
| MexGoto.SiblingLabel | src/apps/mex/sem_goto.c:95-120 | Otherwise a goto can be given a label of a later block beside its own. |
| MexRepeats.RepeatsReported | src/apps/mex/mex_symt.c:88-133 | A name is reported to be declared twice exactly where a block declares it again, the arguments counting as part of the function's own block, whatever the blocks around it and inside it declare. |
| MexLex.AllRead | src/apps/mex/mex_lex.c:822-905 | For every nested text and every state: a line is read exactly if every group around it is on its first true branch, with macros defined and undefined on the way; an else counts as true, and may be followed by further branches, which are never read after it. |
| MexLex.AllTooDeep | src/apps/mex/mex_lex.c:832-836 | Groups nested deeper than 32 are reported. |
| MexLex.TextRead | src/apps/mex/mex_lex.c:822-905 | A text is scanned without an error if and only if its groups nest no deeper than 32, and then as its nesting says. |
| MexLex.AnyTextRead | src/apps/mex/mex_lex.c:822-905 | Any sequence of lines at all is scanned without an error, with every group closed, if and only if no else, elseifdef or endif stands outside a group and groups nest no deeper than 32; and then it is a nested text and read as one. |
| MexLex.Scanner.ProcessElse | src/apps/mex/mex_lex.c:855-889 | An else turns the group on only if no branch was taken and every group around it is on. |
| MexLex.Scanner.ProcessIfdef | src/apps/mex/mex_lex.c:822-844 | A group begins on, if text is read here and its test holds. |
| MexLex.ScanText | src/apps/mex/mex_lex.c:1097-1173 | The scanner, on any lines, reports an error exactly if they are not such a text, and otherwise hands the parser exactly the lines to be read. |

## Left out

- Failing reads and writes, running out of memory, file locking and sharing, and the bytes of a block: a file is a sequence of blocks that can be read and written.
- BTreeFile.BTree.Insert: the value returned is only known to be nonzero on success, because it is the last comparison.
- BTreeFile.BTree.Lookup: a null parent list, for which the source makes a fresh one, is the case of a fresh list.
- `lookupr` (`bt_lookr.cc`) is not a member of the class as declared.
- Variable-length records, `_block_in_nnflist` and the disabled sequential search of `dbase.cc`.
- The wrappers `btreec`, `dbasec`, `cppmain`, the tracker and the test programs: thin layers over these.
- MexTypes.VmOpMeans: a shift by 32 or more, undefined in C, is an error of the program, and dividing the most negative number by -1, also undefined, wraps.
- MexEquivalence.SameProgram: strings, structs, arrays, globals, calls within expressions and assignments inside operands are not modelled; a for statement has a test and integral headers.
- MexGen.Generator.Function: stated for expressions that need fewer than 1000 temporaries at once, because beyond that the numbers of two forms run together and freeing one register may free another; the source has no check there either, and the machine is astray long before.
- MexWhole.ProgramRuns: a call is a statement at the top level of a function, by itself or assigned to a variable, not part of an expression or of an if or a loop; the stack must stay within the addresses of the machine, which does not check it; and nothing is said of the result of a function that ends without one.
- MexStack.SimRunIn: the machine's memory has no end, where the original's stack has a fixed size.
- MexCall.EndFuncCall: reference and variable arguments, and the munged names of the latter, are not modelled.
- MexCall.ArgsWhereDeclared: the control data are the 16 bytes of a 64-bit machine.
- MexSymbols.ChainLookup: struct member tables, and so tables with a parent, are not modelled; the hash function is any function.
- MexScope.FunctionRestores: a function named like an earlier global variable is an erroneous program and not modelled.
- MexScope.BlockRestores: string variables, whose removal emits SKILL quads, are not modelled.
- MexGoto.FunctionGotos: labels and gotos are compiled among arbitrary other quads, but their effect at run time is not part of the theorem on statements.
- MexLex.AnyTextRead: directives without a name, include and error lines, and the text of macros are not modelled; only whether a macro is defined is.
- The written form of a .vm file, the parser's tables, and programs with errors.
