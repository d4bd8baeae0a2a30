# A verified model of a small Lua JIT

The repository is a just-in-time compiler for a subset of Lua, written in C. This project models its
three linked components in Dafny and proves what they are for.

1. **Tables and the copying collector** (`rhhm.c`, `lapi.c`, `value.c`). A Lua table is one word: a
   packed `(hash, capacity)` until its first write, then a pointer to a Robin Hood hash table. The
   collector is a Cheney copier that leaves broken hearts behind, rewrites table keys in place, and
   never rehashes, because a table's hash as a key is stored with the table and is not its address.
   `Mutator.Execute` ties it together: every program over tables, on a state of any capacity, sees
   the same values as on an ideal heap that never moves or frees anything, and each table keeps the
   hash it was created with.
2. **The back end** (`cc.c`, `env.asm`). Live ranges with loop extension, linear-scan allocation with
   re-spilling, loads and saves around operations, the frame layout across calls, and the
   backpatching of jumps. `Backend.CompileStraightLine` runs liveness, allocation and emission and
   proves that the code does what the three-address program does; `Calls.CompiledCall` puts two pieces of
   such code together, one calling the other. `Programs.CompileProgram` starts from the source: for a
   straight-line Lua program the machine code makes the calls that the meaning of the program asks for.
3. **Bookkeeping of the intermediate code** (`ir.c`, and the part of `parser.c` it works with).
   Constants, the phi stack that grows down from the top of the operation array, the parser's table
   of current versions beside it, the rotation of a loop block behind its phis, and the fusion of
   comparisons with branches. `Intent.RightExactly` says over which runs the table holds the current
   version of every symbol, and `Parser.ParseAll` that the in-place code does so over exactly those.
   `Blocks.BlockCommitted` says what becomes of the code of every block.

## How the modules hang together

| module | content |
|---|---|
| `Values` | tagged words, their encoding, the 32-bit folding hash, masks as remainders |
| `RobinHood`, `Removal` | the hash table as a theory of slot sequences, polymorphic in the key |
| `Rhhm` | the table object of `rhhm.c`, updating its array in place, proved against those theories |
| `Counterexamples` | concrete tables on which lookup and removal do not do what their names say |
| `Interning` | the intern pool: an `Rhhm` whose lookups use another key representation than its entries |
| `Heaps`, `Cheney`, `Survival` | snapshots of memory, the invariant of a collection, what a collection preserves |
| `Gc` | `gc` and `state` of `lapi.c` as a class, its methods proved against those snapshots |
| `Ideal`, `Mutator` | programs on an ideal heap, and their execution on the collector |
| `Ir`, `Liveness`, `Allocate`, `Codegen`, `Backend` | three-address code, ranges, registers, emission, the whole path |
| `Calls` | compiled code calling compiled code |
| `Lowering`, `Programs` | straight-line Lua, its meaning, what the parser emits for it; from the program to the machine |
| `Frames`, `Jumps` | prologue, epilogue and parameters on the machine of `Codegen`; the code buffer and its displacements |
| `Branches` | the jumps of the code buffer as the branches of three-address code |
| `Constants`, `Phi`, `Fusion` | the constant table; the phi stack and loop commit; compare-and-branch fusion |
| `Versions`, `Symbols`, `Tracking` | what a phi frame means; the parser's table of current versions beside it; what each step keeps of both |
| `Intent`, `Parser` | what the table is meant to hold, told from the steps alone, and when it does; the in-place code and whole programs on it |
| `Blocks` | the code of whole runs: what committing a block makes of its code |
| `Counting`, `Registers` | sizes of sets; register numbers |

`RobinHood` works with any key type and any hash. The collector instantiates it with values hashed
through the heap (`Heaps.Hasher`), the intern pool with strings, the constant table with values. In
`Rhhm` a ghost function `id` says which keys the compare callback takes for the same.

Floating-point operations are uninterpreted functions (`Codegen.World`). A call from compiled code may
collect when it is `lua_newtable` or a function of the program; `World.move` says what each word of the
stack and of the preserved registers then becomes, as `Gc.State.LuaGc` does for the stack words, and
the three-address semantics does the same to its variables. Addresses that `malloc` would
return are parameters. The words of the C stack are an array of values. Memory handed out by `malloc`
is a map from addresses to blocks, so that freeing is removal from the map.

## Where the code departs from its evident intent

The model keeps the code as it is; each departure shows up as an exact condition.

- `rhhm_get` returns nil at any nil-valued slot, even one that holds another key (`rhhm.c:98`).
  `RobinHood.GetExact`: the answer is right if and only if no such slot lies before the key. With
  values that are neither nil nor none it always is (`RobinHood.HistoryLookup`).
- `rhhm_remove` gives up on a numerically smaller home index instead of a smaller distance
  (`rhhm.c:122`), and copies the next entry back before it asks whether that entry is at home
  (`rhhm.c:114-119`). `Removal.RemoveExact`: it deletes its key and keeps the invariant if and only
  if the key is absent, or no entry before it has a smaller home index and the shifted run ends in a
  hole. Outside that condition `Removal.RemovePresent` says what happens instead: nothing, or a
  duplicate.
- `ir_phi_commit` writes the parser's table at the new variable, at the entry's target and at both
  operands (`ir.c:123-126`), but reads and reassignments go through the symbol's own cell
  (`parser.c:334`, `parser.c:495-504`). `Symbols.CommitNames`: the cell names the phi if and only if
  the entry's target is the symbol's own number, that is, if the symbol entered the block without
  having been reassigned. Otherwise the cell keeps a version that the phi supersedes;
  `Tracking.StaleCell` is a program. An else branch has the same condition
  (`Symbols.RestoredCells`, `Tracking.ElseReadsOtherBranch`). The cells
  are right after every step of a run if and only if it holds at every commit and else branch
  (`Intent.RightExactly`); then the frames are right as well (`Intent.FramesRight`).
- `sym_cdepth` of a phi is never written, and the parser lives uninitialised on the stack
  (`lapi.c:356`). A later assignment of the symbol reaches the frame if and only if what happens to be there is
  below the depth of the block (`Intent.LeftoverDecides`; `Tracking.LeftoverLevel` is a program).
  `Intent.RightExactly` is about arrays that start at zero.
- A reassignment makes the new version current before its right side is parsed (`parser.c:504-506`), and
  so does `local x = x` (`parser.c:464-468`): in `x = x + 1` the sum reads the new version, which nothing
  has written (`Programs.ReadsItself`). What the parser emits writes every variable once and before it is
  read if and only if no right side mentions its own target (`Programs.StraightExactly`).
- There is no resizing: in a full table the search for a key that is not there does not end. That the
  search ends (a hole, or the key itself) is a precondition wherever it matters, except in `Constants`,
  where the table is proved never to fill.
- `liveness` reads sentinel entries. For a variable without a definition the sentinel leads to a depth
  of zero, which the model keeps; for one without a use it leads outside the array, and the model
  leaves the loop extension of unused variables out.

## Model

| member | source | states |
|---|---|---|
| Values.EncodeFaithful | value.c:12-48 | Tags separate the kinds of value and a word determines its value: equality of words is equality of values, and the predicates and accessors read back what the constructors wrote, characters in order. |
| Values.TaggedIsNaN | value.h:15-31 | Every tagged word has the pattern of a double that is no number, so no number is taken for one. |
| Values.SStrLayout | value.c:15-21 | A packed short string keeps its tag, its length in the lowest byte and its characters above; nothing overflows into the tag. |
| Values.SStrBytes | value.c:15-25 | Byte 0 of the word is the length, byte i + 1 is character i. |
| Values.SStrCut | value.c:15-21 | Of more than five characters the first five are kept. |
| Values.PackInjective | value.c:15-21 | Two packed strings of one length are equal only if their characters are. |
| Values.MaskIsMod | rhhm.c:58 | For power-of-two capacities, masking with capacity minus one is the remainder. |
| Values.FoldHashBits | rhhm.c:138-141 | Bit k of the hash of a word tells whether bits k and k + 32 of the word differ. |
| RobinHood.HomeIsMasked | rhhm.c:58-78 | The masked hash is the home slot, and the masked successor goes round at the end of the array. |
| RobinHood.RunBack | rhhm.c:93-105 | Walking back from an entry to its home meets only occupied slots that are displaced at least as far. |
| RobinHood.PresentIsReached | rhhm.c:59-105 | Under the invariant, even in a full table, the probe for a present key passes every slot before it and stops exactly on it, so neither the distance test nor a hole ends a search too early. |
| RobinHood.SwapKeepsGood | rhhm.c:80-90 | Each swap of the eviction chain keeps order and key uniqueness, and what it evicts is displaced from that slot. |
| RobinHood.SwapApproaches | rhhm.c:80-90 | Each swap lands strictly nearer, going round, to any empty slot than the one before, so the chain ends. |
| RobinHood.SettleConserves | rhhm.c:80-90 | The whole chain conserves table plus carried entry as a multiset and keeps the invariant. |
| RobinHood.SetIsUpdate | rhhm.c:59-91 | A write keeps the invariant and is the update of the finite map the table stands for, also of a key that a full table holds. |
| RobinHood.GetExact | rhhm.c:93-105 | Lookup agrees with the map if and only if no foreign nil-valued entry lies on the way to the key; otherwise it answers nil. |
| RobinHood.CountIsSize | rhhm.c:59-91 | The occupied slots are as many as the keys, and there is a hole exactly when they are fewer than the slots. |
| RobinHood.HistoryLookup | rhhm.c:59-105 | From an empty table, over every history of writes of values that are neither nil nor none and that leaves a hole, a lookup answers the last value written and nil for every other key. |
| Removal.RemoveExact | rhhm.c:107-125 | Removal deletes its key and keeps the invariant if and only if the key is absent or removable; removable is a check on the table before the call. |
| Removal.RemovePresent | rhhm.c:107-125 | For a present key: unchanged when the search gives up, deleted when the run ends in a hole, a duplicated entry otherwise. |
| Removal.ShiftKeepsOrdered | rhhm.c:110-121 | The backward shift keeps the order, and each moved entry comes exactly one step nearer to its home, round the end of the array included. |
| Removal.ShiftDeletes | rhhm.c:110-121 | The shift removes the one key and keeps every other key with its value. |
| Removal.ShiftDuplicates | rhhm.c:114-119 | A run that ends at an entry already home leaves that entry in the table twice. |
| Counterexamples.NeighbourDuplicated | rhhm.c:114-119 | Removing a key right before an entry at home duplicates that entry. |
| Counterexamples.SearchGivesUp | rhhm.c:122 | Removing a present key behind an entry with a smaller home index changes nothing. |
| Counterexamples.NilHidesAnotherKey | rhhm.c:98 | A nil-valued entry makes the lookup of another, present key answer nil. |
| Rhhm.Rhhm.constructor | rhhm.c:49-52 | A new table holds its capacity and hash packed. |
| Rhhm.Rhhm.MaybeInitialize | rhhm.c:27-42 | Lazy initialisation keeps hash, capacity and contents, and every slot of the new block is empty; without memory it fails, and hash and capacity are lost. |
| Rhhm.Rhhm.Set | rhhm.c:59-91 | In place: the map gets the new pair, capacity and hash stay, and no key but the written one enters a slot; without memory for a first block nothing is written. |
| Rhhm.Rhhm.SetSlots | rhhm.c:64-90 | The probing loop and the eviction loop compute exactly the write of the theory. |
| Rhhm.Rhhm.Carry | rhhm.c:80-90 | The eviction loop, each entry restarting at its own home, computes exactly the settling of the theory. |
| Rhhm.Rhhm.Get | rhhm.c:93-105 | The lookup loop terminates with the answer of the theory; nil before the first write. |
| Rhhm.Rhhm.Remove | rhhm.c:107-125 | The removal loops compute exactly the removal of the theory. |
| Rhhm.Rhhm.Shift | rhhm.c:110-121 | The copy-back loop shifts exactly the run behind the key. |
| Interning.Interner.Find | rhhm.c:219-226 | A probe key with other representation finds the string object with these characters, or nil when there is none. |
| Interning.Interner.Add | lapi.c:185-187 | The pool gets the new string object, and stays a pool with one object for each string. |
| Interning.Interner.Intern | lapi.c:179-201 | The result denotes the characters, an object is created exactly for a long string not seen before, and the pool invariant is kept. |
| Interning.InternIsCanonical | lapi.c:179-201 | Over every history of calls that meet the contract of `Interning.Interner.Intern`, two calls return the same word if and only if the byte strings are equal, across the packed and the pooled form. |
| Interning.PoolHashIs | rhhm.c:8-15 | The hash of a string is the number with its first 32 characters as digits to base 33, behind 5381, to 32 bits; wrapping round at every step changes nothing. |
| Interning.InternAll | lapi.c:179-201 | Every run of interns on a pool, with room for its long strings and one empty slot, is such a history: equal words for equal strings and only for those; each word, taken apart byte by byte or through its pointer, gives back the string. |
| Heaps.WordBitsDecode | rhhm.h:22-24 | The tag bits tell packed word, block pointer and broken heart apart, and every field can be read back. |
| Heaps.WordHashBits | rhhm.c:138-141 | The hash of a key that is no table is the fold of its word, bit by bit. |
| Gc.State.constructor | lapi.c:25-36 | Both spaces exist, the lower one current and empty, reader and writer at the start of the other. |
| Gc.State.InitG | lapi.c:203-213 | The globals table is the first table of a well-formed heap, with the first hash that the seed and its address give. |
| Gc.State.Evacuate | lapi.c:77-88 | An object of the current space is forwarded once, with earlier forwarding and broken hearts kept and the writer in bounds; any other address comes back unchanged and nothing else changes. |
| Gc.State.Scavenge | lapi.c:90-100 | Key and value of one slot are forwarded in place, and nothing else in any block changes. |
| Gc.State.Visit | rhhm.c:127-134 | Scanning the next copy makes the scanned prefix one longer. |
| Gc.State.Collect | lapi.c:102-113 | The scan loop terminates with every copy scanned and the object forwarded. |
| Gc.State.MaybeCollect | lapi.c:115-118 | A stack word that refers to a table has its table forwarded, any other changes nothing. |
| Gc.State.FixPtr | lapi.c:314-325 | A stack word is replaced by its forwarded form. |
| Gc.State.Flip | lapi.c:120-140 | The blocks handed back are those of the slots without a broken heart, in order, and the spaces are swapped. |
| Gc.State.LuaGc | lapi.c:327-345 | The new heap is a collected copy, the forwarded tables are exactly those reachable from G and the stack words, G and the stack are repaired, and the block of each unreachable table is freed once and no other. |
| Cheney.EvacuateKeeps | lapi.c:77-88 | Forwarding stays injective and dense in the other space, and there was room for the copy. |
| Cheney.ReachedExactly | lapi.c:102-113 | When reader meets writer, a table has been copied if and only if it is reachable. |
| Cheney.DroppedExactly | lapi.c:120-128 | Each block of an uncopied table is freed exactly once, no other block at all. |
| Cheney.Finished | lapi.c:102-140 | Finished scan and flip make the new heap a collected copy of the old one. |
| Survival.HashSurvives | rhhm.c:21-25 | A table's hash as a key is the same after the move. |
| Survival.RenamedGood | lapi.c:90-100 | Rewriting keys in place keeps the Robin Hood invariant and key uniqueness. |
| Survival.TablesSurvive | lapi.c:90-100 | After a collection every initialised table is a proper table, with a hole if every table had one. |
| Survival.LookupSurvives | lapi.c:90-100 | Every surviving table answers the forwarded key with the forwarded value. |
| Survival.WalkSurvives | lapi.c:327-345 | No access path from a surviving value tells the two heaps apart. |
| Survival.EdgesSurvive | lapi.c:90-100 | The edges between surviving tables are exactly the images of the edges before. |
| Survival.WellFormedSurvives | lapi.c:102-140 | The collected heap is well formed: no broken hearts, blocks owned once, references inside the space. |
| Survival.OnlyReachableLeft | lapi.c:102-140 | Every table left after a collection is reachable in the new heap. |
| Survival.InitialisedKeeps | rhhm.c:27-42 | Lazy initialisation of a table changes no hash, no other table and no invariant of the heap. |
| Survival.AllocatedKeeps | lapi.c:215-236 | A new table changes no word, slot or hash of any other. |
| Gc.State.NewTable | lapi.c:215-236 | Nil exactly when the space is full and every slot is reachable from G and the stack; otherwise a fresh table on the heap of before, or on its collected copy, whose hash is the new seed, 33 times the old one plus the fold of the table's address, to 32 bits. |
| Gc.State.SetField | lapi.c:171-173 | The table is updated as a map, every other table and every hash stays, the heap and the order of every table are kept; a write of a key that a full table holds is carried out too, and if every table had a hole and the write leaves one, every table still has one. |
| Gc.State.Store | rhhm.c:59-91 | The loops of `Rhhm.Rhhm`, run on the slots of a block of the heap, are the write of the theory. |
| Gc.State.Load | rhhm.c:93-105 | So is the lookup loop. |
| Gc.State.GetField | lapi.c:175-177 | The answer is what the table's map holds under the key, and nil when it holds nothing or when a nil-valued slot of another key lies before it. |
| Ideal.CollectionKeeps | lapi.c:327-345 | A collection keeps the correspondence with the ideal heap, with tables keeping their numbers. |
| Ideal.MirrorRead | lapi.c:175-177 | A corresponding table answers a corresponding key with the corresponding value, nil for an absent one. |
| Ideal.MirrorWrite | lapi.c:171-173 | Writing corresponding pairs keeps tables corresponding. |
| Mutator.Perform | lapi.c:171-236 | Each runtime operation, collecting or not, is the operation of the ideal heap. |
| Mutator.Execute | lapi.c:171-345 | Every safe program, on any capacity, leaves the stack of the ideal machine up to the numbering of tables, and stops early only when it asks for a table while the space is full of reachable ones; at the end every table, moved, collected around or written to, has the hash it was created with, and these hashes come from the seed and the addresses of creation. |
| Mutator.SeenAlike | lapi.c:171-345 | Of the stack that is left a program sees the ideal one: the same words that are no tables, the same equalities, the same answers. |
| Liveness.FindDefs | cc.c:309-314 | Each entry ends up as the variable's first definition. |
| Liveness.FindUses | cc.c:317-331 | Each entry ends up as the variable's last use, and the depths are the marked loop depths. |
| Liveness.Extend | cc.c:337-342 | The extension stops inside the operations, at the first position from the last use on that is no deeper than the definition, or, for a variable without definition, outside all marked loops. |
| Liveness.Liveness | cc.c:301-343 | The ranges computed are exactly the live ranges, of variables without definition, such as parameters, too. |
| Liveness.EndsOutsideLaterLoops | cc.c:316-343 | A range whose definition-enclosing loops enclose its last use ends inside no loop opened after the definition. |
| Liveness.LiveThroughLoop | cc.c:334-343 | A variable that exists when a loop is entered, defined in no loop left by then, and is used in the loop lives until the end of the loop. |
| Allocate.TakeFreed | cc.c:403-411 | Reusing a register whose last holder has ended keeps all placements free of conflict. |
| Allocate.TakeStolen | cc.c:433-442 | Moving the holder of a register to a fresh slot keeps all placements free of conflict. |
| Allocate.FullHouse | cc.c:422-431 | The spilled variable is live at a point where more variables than there are registers are live, none of which outlives it. |
| Allocate.NoSpillBound | cc.c:403-444 | Without a spill there are never more live variables than registers. |
| Allocate.Spill | cc.c:422-442 | Spilling or re-spilling keeps what holds of all variables handled so far. |
| Allocate.Allocate | cc.c:375-450 | No register is shared by used variables with intersecting ranges, even after re-spilling; slots are distinct; no counted register or slot goes without a variable; only unused variables get rax; each spilled variable ends last among too many; and there are spills if and only if some point has more live variables than registers. |
| Codegen.HoldsCarried | lapi.c:327-345 | What a collection inside a call does to the variables it does to the words in their places: every live variable is still in place afterwards. |
| Codegen.ArithStep | cc.c:714-754 | The code for an arithmetic operation computes it from the operands' locations, saves it, and changes no other location. |
| Codegen.CopyStep | cc.c:705-713 | The code for a copy does the copy and changes no other location. |
| Codegen.CallStep | cc.c:653-704 | The code for a runtime call passes the operands' words and saves the result; every other word is as it was, or, where the call may have collected, as the collection made it. |
| Codegen.ArgumentsStored | cc.c:580-594 | The argument loop leaves argument k in the k-th word from rsp, stack-held ones read correctly after rsp moved, and changes no word of the caller's frame. |
| Codegen.IndirectStep | cc.c:569-598 | The code for a call of the program's own passes callee, count and arguments, brings rsp back and saves the result, collections included. |
| Codegen.CompiledCodeSimulates | cc.c:564-764 | After any straight-line chunk, calls and their collections included, the same calls with the same words have been made, every live variable is where the layout says, and registers and stack words that are no variable's are as they were or as collections made them. |
| Codegen.OperandsRead | cc.c:455-494 | Each operand of each operation, read where the layout says, has the value the three-address semantics gives it. |
| Backend.LayoutSound | cc.c:375-450 | What the allocator stores, as numbers, is a sound layout for code generation, with registers only from those counted as used. |
| Backend.FlatRange | cc.c:301-343 | In straight-line code the range of a variable that is no parameter runs from the one definition to the last use. |
| Backend.Plan | cc.c:301-450 | Liveness and allocation together give the chunk a sound layout. |
| Backend.BodyIsKept | cc.c:557-773 | The emitted body leaves alone what the prologue does not save: the hypothesis of `Frames.CallPreserves`. |
| Backend.FunctionImplements | cc.c:557-773 | Prologue, emitted body and epilogue on one machine: the calls of the three-address program with the same words, and rsp, preserved registers and stack handed back. |
| Backend.ParamRange | cc.c:301-343 | A parameter's range has no start and reaches to its last use, its declaration at the least, so it is never taken for unused. |
| Backend.HoldsAtStart | cc.c:532-561 | Past the prologue L is in its slot and every parameter, in the slot computed for it, is the word its caller left. |
| Backend.CompileStraightLine | cc.c:496-774 | Liveness, allocation, the two loops over the parameters and emission together give such code for every straight-line chunk, a function with parameters or the main one, on every machine that enters it, whatever the calls return and collect. |
| Calls.CallAligned | cc.c:531-560 | On the machine: whatever registers are saved, slots used and arguments passed, rsp is as far from its value on entry as `Frames.AlwaysAligned` reckons, so calls are made and callees entered under the C convention. |
| Calls.CalleeEntered | cc.c:569-594 | The callee's parameters are the caller's arguments, wherever the caller kept its operands and whatever the two frame sizes. |
| Calls.CompiledCall | cc.c:569-598 | A call carried out by the callee's own compiled code: it makes the calls of the callee's three-address program on the caller's arguments, and the caller goes on with every live variable in place, moved as the collections inside moved it, and the result saved. |
| Lowering.LowerRuns | parser.c:304-385 | The operations emitted for an expression, run from any state that holds the locals, make its calls with the same words in the order of the language, left operand before right one, and leave its value in its operand; whichever way C orders the result variable and the right operand. |
| Lowering.ProgramRuns | parser.c:454-527 | The operations emitted for a straight-line program make the calls of the program and leave each local's value in its current version, when no right side mentions its own target. |
| Programs.StraightExactly | parser.c:454-527 | What the parser emits for a program writes each variable once and before it is read if and only if no right side mentions its own target. |
| Programs.ReadsItself | parser.c:493-512 | `x = x + 1` emits a sum that reads the new version of x in front of its only definition. |
| Programs.CompileProgram | cc.c:496-774 | From a straight-line Lua program to machine code: on every machine that enters it the code makes the calls that the program means, with the same words in the same order, and hands the machine back. |
| Programs.LocalsInPlace | cc.c:455-494 | After every statement each local still needed is, where the layout says, the word the program gives it. |
| Programs.ValueInPlace | cc.c:714-754 | The value of each right side, by the meaning of the language, is where the layout says when its code has run. |
| Frames.CallPreserves | cc.c:557-561 | Around any body that keeps its frame, prologue and epilogue hand the caller back rsp, all preserved registers and the whole stack, with the words that collections moved. |
| Frames.PoppedRegs | cc.c:771 | Popping gives each saved register the word that was pushed from it. |
| Frames.ParamIsArgument | cc.c:538-547 | The slot the callee computes for parameter k is the k-th word from the caller's rsp, for all frame sizes. |
| Frames.FixParams | cc.c:538-547 | Each parameter gets its slot, and no other variable changes place. |
| Frames.AlwaysAligned | cc.c:531 | By induction over nested calls, rsp is a multiple of 16 bytes at every call. |
| Jumps.I32RoundTrip | cc.c:57-70 | Four little-endian bytes give back every 32-bit integer. |
| Jumps.Cc.CcJump | cc.c:205-226 | The processor goes from the emitted jump to the address asked for when the kind says so, and otherwise on behind it. |
| Jumps.Cc.Mark | cc.c:57-61 | The target's index is kept in the displacement, the site is remembered, and all other jumps stay. |
| Jumps.Cc.FillMarks | cc.c:63-70 | Every forward jump reaches its target's address, every backward jump still does, and no byte outside the patch sites changes. |
| Jumps.Cc.Chunk | cc.c:564-768 | In the finished chunk every operation's bytes start at its recorded address, and a processor that reads the bytes of its jump, E9 always, 0F 84 on zero, 0F 85 on not zero, displacement least significant byte first, goes on at the recorded address of the target when the kind of the jump and the zero flag say so, and otherwise at the next operation. |
| Branches.JumpFollowed | cc.c:600-652 | In a finished chunk, after the compare or test in front of it, the processor goes from the jump of an operation exactly where the three-address program goes. |
| Branches.KindMeans | cc.c:600-652 | The jump that each operation is compiled to is taken, under the flag of its compare or test, exactly when the operation branches. |
| Constants.Table.Ctt | ir.c:41-53 | A constant gets one number, decoding it gives the constant back, numbers handed out keep their meaning, and the index never fills. |
| Constants.Findable | ir.c:44-45 | The index answers the number of every constant and nil for any other value. |
| Constants.HashBits | rhhm.c:138-141 | The hash of a constant is the fold of its word, bit by bit. |
| Phi.PhiIr.Begin | ir.c:71-81 | A new empty frame with its marker on top of contiguous frames, code untouched. |
| Phi.PhiIr.Ins | ir.c:83-102 | The first entry that mentions the old variable is updated in place, or the innermost frame grows by one entry; outer frames stay. |
| Phi.PhiIr.CommitEntry | ir.c:118-145 | One round: the four writes to the parser's table, uses in the block renamed, the phi appended under a fresh variable, the outer frame merged in place. |
| Phi.PhiIr.CommitEntries | ir.c:121-146 | Merging into the outer frame, over the inner marker and entries already read, never overwrites an entry still to be read. |
| Phi.PhiIr.Rotate | ir.c:154-155 | The two block copies rotate the phis in front of the block and touch nothing above the scratch words. |
| Phi.PhiIr.Commit | ir.c:104-159 | The frame is left, the outer frame holds the merge, the code is the committed code, the parser's table has every entry's writes; the result is the number of phis. |
| Phi.RenamedAtOnce | ir.c:128-136 | The renamings of a loop commit, one after the other, are the substitution of every operand by its phi all at once; the b field of a call stays. |
| Phi.LoopBlockMoved | ir.c:128-156 | After a loop commit the block follows the phis in order: what was at a position is at the position plus the shift and reads, for each variable with a phi, that phi and otherwise what it read; jumps past the join reach the operation they reached, jumps to the join reach the first phi. |
| Blocks.BlockCommitted | ir.c:104-159 | Over a whole run, when a block is committed: the code in front of it is as it was at its begin; a loop's phis come at its begin, the operations of the block, with all inner blocks committed, behind them reading them, jumps leading where they led; a conditional's phis come behind its code. Each phi joins the two versions of its entry. |
| Blocks.InsideBlock | ir.c:71-81 | While a block is open the parser keeps its flag and the position of its begin, and the code in front of it does not change. |
| Blocks.EmittedKept | ir.c:55-159 | Over a whole run the code without its phis is the emitted operations in order, whatever was rotated. |
| Versions.FrameTracks | ir.c:83-102 | Over every history that supersedes, once each, versions from the block's entry or versions the block has made itself, the frame has exactly one entry for each of the former that was assigned, between that version and the latest. |
| Versions.ConditionalJoins | parser.c:529-585 | The frame of a conditional with an else branch ends with exactly one entry for each version assigned in either branch, a phi of the latest versions in the two. |
| Versions.MadeIsHeld | ir.c:86-92 | A version made and not superseded is the first operand of an entry, so the search for it succeeds. |
| Versions.LatestInjective | ir.c:83-102 | Different variables never get the same latest version, so at most one entry can match. |
| Versions.MergeContinues | ir.c:117-146 | Committing an inner frame continues the outer frame's history with one assignment for each phi. |
| Versions.CommitTracks | ir.c:104-146 | When the inner block's entry versions are current in the outer block, with or without an else branch, the outer frame afterwards tracks its own history followed by one assignment for each version the inner block assigned. |
| Symbols.CommitNames | ir.c:118-126 | A commit leaves a symbol's cell at the phi of an entry if and only if the entry's target is the symbol's own number; if no target is, the cell keeps what it held. |
| Symbols.RunsKeepShape | parser.c:493-585 | Every run of declarations, reassignments, blocks, conditionals and commits keeps what that equivalence rests on: entries about distinct versions, and no symbol's own number in any other field. |
| Symbols.RestoredCells | parser.c:550-556 | Before an else branch a cell is reset if and only if an entry is about the symbol's own number. |
| Tracking.StaleCell | parser.c:493-505 | A conditional inside a loop after an assignment: the cell stays at the inner version, the next assignment supersedes it, and the loop's frame gets two entries for one variable. |
| Tracking.ElseReadsOtherBranch | parser.c:548-556 | A conditional after a reassignment: the else branch starts with the first branch's version. |
| Tracking.LeftoverLevel | lapi.c:352-364 | Contents left over in `sym_cdepth` keep an assignment out of the loop's frame. |
| Tracking.UnrecordedIsFree | parser.c:500-503 | An assignment is kept out of the frame only for a symbol that the block itself declares and no block has assigned. |
| Intent.RunsStayRight | parser.c:454-622 | In runs whose commits and else branches find only symbols under their own numbers, every cell holds the current version of its symbol, as told from the steps without the cells, and every open block's frame follows its own assignments. |
| Intent.RightExactly | parser.c:454-622 | For every run that assigns only what is in scope, with levels that start at zero: the cells hold the current versions after every step if and only if every commit and every else branch finds only symbols under their own numbers. |
| Intent.CommitWrong | ir.c:118-126 | A commit outside that condition leaves some symbol's cell at a version that its phi supersedes. |
| Intent.ElseWrong | parser.c:548-556 | An else branch outside it starts with some symbol at the version of the first branch. |
| Intent.FramesRight | ir.c:83-102 | When the cells are right, each open frame has, for each symbol of the scope around its block, exactly the entry between the version at the block's begin and the current one if the block has assigned it, and none if it has not. |
| Intent.LeftoverDecides | parser.c:500-503 | An assignment over a phi reaches the frame if and only if the level left over at the phi's number is below the depth of the block, whatever the array held. |
| Parser.Parse.Declare | parser.c:92-110 | In place, the step that declares a local: its number, level and cell. |
| Parser.Parse.Fresh | ir.c:21-23 | In place, the step that gives out a variable. |
| Parser.Parse.Reassign | parser.c:493-504 | In place, the step of `Symbols.Do`: new version, its level, the entry of the frame when it is to be recorded, the cell. |
| Parser.Parse.PhiBegin | parser.c:24-27 | In place, the step that opens a block, with its flag and its position in the code. |
| Parser.Parse.PhiCommit | parser.c:29-32 | In place, the step that commits one, table and code included. |
| Parser.Parse.BeginElse | parser.c:547-556 | The loop before an else branch turns every entry of the frame, keeps all other frames, and resets the cells. |
| Parser.Parse.JoinEntries | parser.c:572-578 | The loop starts at the position saved before the else branch; what was inserted below it since then needs no rewriting, because target and operand are still equal there. |
| Parser.Parse.EndElse | parser.c:572-578 | In place, the latest versions of both branches become the operands of every entry. |
| Parser.Parse.Run | parser.c:454-622 | A whole run of emitted operations and steps, in place, ends in the table and in the code that they lead to, with the positions saved by nested conditionals still valid. |
| Parser.ParseAll | parser.c:454-622 | From parser_init on: the real cells, looked at after every act, always held the current versions if and only if every commit and else branch was about symbols under their own numbers; then every open frame is right too. The code is the emitted operations with every block committed as its flag says. |
| Fusion.StepDefines | cc.c:309-314 | What counts as a definition is exactly what an operation writes: no jump, no mark, and not the table of a store. |
| Fusion.StepReads | cc.c:317-331 | What counts as a use, with the table of a store, is all that an operation reads. |
| Fusion.Fuse | ir.c:301-324 | The in-place peephole rewrites every comparison-branch pair and nothing else. |
| Fusion.FusionPreservesRuns | ir.c:301-324 | When fused results are read by their branch alone and no jump enters a pair, every run is preserved step for step: same position, same events, same values of all other variables. |
| Fusion.ConditionMeans | parser.c:529-540 | The two operations of a condition enter the block exactly when what the comparison says is true, before fusion and after it. |

`Extends`, `Placed`, `Tracks`, `Linked` and the other predicates that these contracts use are defined next
to them, each with its meaning.

## Left out

- `gc_grow` (`lapi.c:38-59`): never reached, because `gc_flip` always returns 0.
- Gc.State.Initialise: assumes that `malloc` succeeds, as do the intern pool, the constant table and `str_new`; for the table object alone failure is modelled (`Rhhm.Rhhm.MaybeInitialize`).
- Gc.State.constructor: assumes that the spaces can be allocated; the source returns 1 when they cannot.
- The stray slot that `lua_init` allocates and never initialises (`lapi.c:298-306`), and the conservative scan of the real stack: roots are G and an array of words whose table references point into the current space.
- Gc.State.SetField: requires that the search in the table ends (`Heaps.TableSearchable`); in a full table without the key the source goes on for ever. The same holds of `Gc.State.GetField` and of `Rhhm.Rhhm.Set`, `Get` and `Remove`, the last for a hole only.
- Mutator.Execute: its programs store no nil and no none, because a nil-valued entry can hide another key. The loops of `Rhhm.Rhhm` run on an array with the slots of the block, which is then stored back (`Gc.State.Store`): a block is a value in the map of allocated memory and not an object that is updated through its address.
- Rhhm.Rhhm.Remove: says what the loops compute; whether that is a deletion is the exact condition of `Removal.RemoveExact`.
- Interning.Interner.Intern: the address of a new string is a parameter that is not in use; the low tag bit of a probe key is a constructor.
- The word addresses of tables are slot numbers; `Heaps.WordBitsDecode` and `Values.EncodeFaithful` relate them to bits.
- Liveness.Liveness: leaves variables without a use alone in its third loop, where the source reads outside the array.
- Backend.CompileStraightLine: a chunk is compiled from its own list of operations, not as a range of the whole program's; the library sort of the range array is replaced by a loop with the same result, and ranges and names are a pair instead of one packed word.
- Calls.CompiledCall: a call with fewer arguments than parameters, for which the source leaves the missing ones to chance; what rax holds on return is whatever the callee leaves in it, since a return emits no code.
- Codegen.CompiledCodeSimulates: table stores and comparison results used as values, which the source leaves in rax unsaved; returns; instruction encodings.
- Programs.CompileProgram: statements are `local x = e`, `x = e` for locals and globals, and expressions; an expression is a constant, a local, a global, a field, `+ - * / %`, or a call of a name. Table constructors, `^`, comparisons and field stores are not among them; a collection is assumed to change no constant.
- End-to-end correctness of loops: variables used only in a `while` condition are not extended over the body, since the loop mark follows the test (`parser.c:601-608`); liveness is stated on intervals.
- Jumps.Cc.Chunk: operations are byte strings followed by at most one jump, targets lie inside the chunk or at the end of the whole list; a jump to a function chunk's own end has no recorded address (`cc.c:767`). The bytes in front of a jump have no meaning here: `Branches` takes the flag of a compare or test from the values compared, and `test rax` of a branch that was not fused from the value tested.
- Phi.PhiIr.Commit: functions inside loops; enough room in the operation array and in the table is a precondition.
- Intent.RightExactly: runs of declarations, reassignments, blocks, conditionals and commits; `for`, which supersedes a variable without regard to symbols (`parser.c:690-694`), functions and `repeat` are not steps. Lua's scope is part of the condition: the source also finds a local of the first branch in the else branch.
- Parser.Parse.Run: jump targets patched later are not among the acts, and a global's variable gets no cell (`parser.c:485-488`), which no symbol reads.
- Fusion.Fuse: copy coalescing in the same loop (`ir.c:326-329`), which also matches the target field of operations that write nothing.
- Constants.Table.Ctt: the abort on a full constant table is a precondition.
- `ir_phi_elim` (`ir.c:161-250`): its bookkeeping is not coherent enough to specify.
- The lexer, expressions, printing, profiling, file reading and start-up.
- IEEE arithmetic: rounding is not the point of the code generator's correctness.
