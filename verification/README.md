# RiscyOS: verified models

RiscyOS is a small RV32 kernel together with the assembler that builds it.  This project models the parts of both whose
correctness rests on their code rather than on hardware, and proves what they keep over every input and every run.
Each module names the source files it follows.  Where the source works in place (the heap's header words, the slab
lists inside heap payloads, the bitmap, the request queue and its ring, file and context records, the expression stack,
the symbol chains) the model is a class or an array method, proved equal to a function on values; the promises are then
proved about that function.

**The assembler** (`tools/assembler/rva.c`)

- `Expressions`, `Evaluator`, `Diagnosis`: the operator-precedence evaluator on one shared stack of twenty cells.  Every
  expression tree, printed with brackets only where the priorities need them and with any labels still unknown, has an
  exact outcome: its 32-bit value when it fits the stack and no zero divisor is reported, else which of the two ends it;
  the token lists accepted are exactly the texts of such trees; and which error other texts are given.  How operators
  group is also said by classes alone, and what each computes without its code.
- `Passes`, `Progress`, `Assembler`: the relaxation loop.  A pass in which no label is defined or changed fixes the layout, even if
  it still changed size records; the pass after it puts every line at the same address, every label and every operand
  or data item it emits has the expression's value under the final addresses, and lines follow one another without gap.
  Code that is dumped lies where the stable pass put it, errors or not, unless that was the first.  Size records stop
  shrinking half way, and the loop ends after at most 22 passes; within the first ten every size is exactly what is
  wanted.  A program of expressions over its own labels has no error before the last pass, whatever it uses before it
  defines it, and when that pass comes and what it accepts is said exactly.
- `PseudoOps`, `Emission`: the words planted for LI, LA, CALL, branches, jumps and named loads and stores, executed with
  the meaning the RISC-V Unprivileged ISA (20191213), sections 2.3 to 2.6, gives them; and the two together: what an
  instruction or pseudo-operation does where the passes put it.  `HeldCall` and `OddJump` are programs that are
  assembled wrongly.
- `SymbolTable`: sixteen hash chains that answer like a map.

**Memory**

- `KernelHeap`: first-fit allocation with splitting and coalescing on one array of header words and payloads.
- `SlabAllocator`: slabs with free lists threaded through heap payloads, on the same array.
- `UserMemory`: the first-fit bitmap behind a power-of-two rounder.

**The SD stack**

- `IoScheduler`: the request queue, re-entrant callbacks and the wrapping completion ring.
- `Volume`, `FsSeek`, `FsRead`, `FsOpen`: the callback machines for seek, read and directory search against a FAT chain.
- `FsSystem`: any number of these machines on one queue and one sector buffer.

**Scheduling**

- `RoundRobin`: the choice of the next process on the circular list of control blocks.

`Words` holds 32-bit words as bounded integers, `Options` values that may be absent.  Wrap-around is written out
wherever the source's arithmetic has it.

## Where the code does not do what it sets out to do

Each of these is stated as an exact condition or with a concrete input, and the model keeps the code's behaviour.

- `ALIGN4` in `kmalloc` wraps to zero for the last three sizes (`KernelHeap.AlignedCovers`).
- `ALIGN` at address 0 misses the next multiple when its operand does not divide 2^32 (`Passes.AlignExact`).
- Bracket markers are pushed without a bound check.  `Evaluator.SmashesExactly` says from the tokens alone when one is
  written behind the stack: at an opening bracket met with all twenty cells taken.  Twenty nested brackets do it
  (`Evaluator.TwentyBracketsSmash`).
- A division by a label without a value is only noted: on a first pass `100/len` gives all ones
  (`Evaluator.EvaluatesUnresolved`, `Evaluator.UnresolvedDivisor`).
- A CALL held at two words although one would reach starts with a word without an opcode (`PseudoOps.CallReaches`);
  `HeldCall.HeldCallMisses` is such a program.
- J to an odd distance is accepted and does not get there (`Emission.FinalJump`); over one byte of data it happens
  (`OddJump.OddJumpMisses`).
- A load or store of a named address through x0 goes to the low part of the distance alone
  (`PseudoOps.GlobalLoad`, `PseudoOps.GlobalStore`).
- A store to a named address through its own data register stores part of the address (`PseudoOps.GlobalStore`).
- A seek back into a file's first cluster keeps the old current cluster (`FsSeek.SeekExact`, `FsSeek.BackToStartExample`).
- After a read the position fields no longer name the file offset, unless nothing was read (`FsRead.ReadExact`).  So a
  second read delivers the bytes that follow only within the sector the first one ended in (`FsRead.SecondRead`); a file
  read sector by sector delivers its first sector every time (`FsRead.SectorAgain`).
- The last component of a longer path is never packed: it is searched for under the name of the component before it
  (`FsOpen.LastComponentLost`, `FsOpen.LastComponentExample`).  `FsOpen.OpensWhatItNames` says exactly when such a path is
  still opened as what it names.
- A file name that begins with 0xE5 is never found: the search works out the escape 0x05 and does not use it
  (`FsOpen.EscapedNeverFound`).
- A search in a directory whose cluster chain is cyclic goes on for ever, unless it is decided on the way
  (`FsOpen.OpenEnds`).
- `ualloc` hands out a region smaller than the request for sizes above 2^30 (`UserMemory.BitsCover`).

## Model

| member | source | states |
|---|---|---|
| `Expressions.ShiftLeftIs` | tools/assembler/rva.c:4049-4051 | a left shift by less than 32 is multiplication by a power of two, modulo 2^32 |
| `Expressions.ShiftRightIs` | tools/assembler/rva.c:4052-4054 | a right shift is the floor of division by a power of two |
| `Expressions.DivisionIs` | tools/assembler/rva.c:4034-4048 | quotient and remainder belong together; a zero divisor gives all ones, a zero modulus zero |
| `Expressions.SignedOrder` | tools/assembler/rva.c:4088-4103 | the signed comparisons are the unsigned ones with both operands moved by half the range |
| `Expressions.SubtractionUndoes` | tools/assembler/rva.c:4025-4030 | addition and subtraction undo each other; negation and complement follow from subtraction |
| `Expressions.ApplyComputes` | tools/assembler/rva.c:4025-4103 | what each of the twenty operators computes, said apart from the code: sums, differences and products modulo 2^32, quotient and remainder, shifts as powers of two, and, or and exclusive or digit by digit, every comparison as all ones or 0 |
| `Expressions.UnaryComputes` | tools/assembler/rva.c:4008-4016 | the negative, the complement, and the logarithm rounded down, all ones for that of 0 |
| `Evaluator.EvaluatesTree` | tools/assembler/rva.c:3983-4155 | every tree, any labels unknown: it fits the stack exactly when its shape says so; if it fits, it has its value and each tolerated error noted, or a zero divisor behind known labels is reported; if not, that divisor, the full stack or a marker behind the stack ends it, and which is said |
| `Evaluator.EvaluatesKnown` | tools/assembler/rva.c:3983-4155 | with all labels known, the value exactly when the tree fits the stack and no divisor is zero |
| `Evaluator.EvaluatesUnresolved` | tools/assembler/rva.c:3995-4043 | a tree that fits, labels unknown: a zero divisor behind known labels is reported; else the value is the tree's with 0 for unknown labels, a zero divisor is noted only, and the outcome is clear exactly when every label is known |
| `Evaluator.UnresolvedDivisor` | tools/assembler/rva.c:4034-4043 | dividing by a label without a value gives all ones and no error of its own |
| `Evaluator.Grouping` | tools/assembler/rva.c:4428-4452 | three operands with any two operators and any unary ones, any labels unknown: the operator of the tighter class is applied first, of the same class the left one; the classes, loosest first, are the comparisons, + and -, the multiplying ones, or and exclusive or, and, the shifts |
| `Evaluator.AcceptedIsTree` | tools/assembler/rva.c:3983-4155 | whatever is accepted, from any token list, is the text of a tree that fits, and its value and notes are the tree's |
| `Evaluator.AcceptsExactly` | tools/assembler/rva.c:3983-4155 | the token lists that end without a fatal error are exactly the texts of the trees that fit the stack and report no zero divisor |
| `Evaluator.SmashesExactly` | tools/assembler/rva.c:3988-3991 | a marker is written behind the stack exactly when a scan of the tokens meets a bracket with the cells taken, unless a zero divisor is reported first |
| `Evaluator.SmashesByText` | tools/assembler/rva.c:3988-3991 | without a division in the text the scan alone tells |
| `Evaluator.TwentyBracketsSmash` | tools/assembler/rva.c:3988-3991 | twenty nested brackets do, nineteen do not |
| `Evaluator.SixWaitingLimit` | tools/assembler/rva.c:4113-4122 | six operators of rising priority in one pair of brackets find room, in two pairs the last one is reported |
| `Evaluator.ClimbLevel` | tools/assembler/rva.c:3988-4128 | one bracket level consumes exactly its text, gives its value and leaves the levels below as they were |
| `Evaluator.NoBracketsNoOverflow` | tools/assembler/rva.c:4020-4022 | priorities above a marker strictly increase, so an expression of any length without brackets never reports overflow |
| `Evaluator.OkayIsStable` | tools/assembler/rva.c:4153-4154 | an evaluation without error gives the same under every table that agrees on the labels it read |
| `Evaluator.NeedAlike` | tools/assembler/rva.c:3983-4145 | how far an expression is parsed and which fatal error ends it do not depend on the labels' values, zero divisors apart |
| `Diagnosis.FirstReported` | tools/assembler/rva.c:3997-4001 | of several labels without a value, the first in the text decides the error |
| `Diagnosis.CloseReported` | tools/assembler/rva.c:4124-4129 | a closing bracket too many behind any expression that fits is reported as such, whatever follows |
| `Diagnosis.OpenReported` | tools/assembler/rva.c:4124-4129 | so is a closing bracket missing |
| `Diagnosis.OperatorReported` | tools/assembler/rva.c:4018 | anything but an operator or bracket behind an expression is reported as an operator missing |
| `Diagnosis.OperandReported` | tools/assembler/rva.c:3995-4006 | nothing, or something else, where the first operand should be is reported as an operand missing |
| `Diagnosis.RightReported` | tools/assembler/rva.c:3995-4006 | and so it is behind any expression and an operator |
| `Evaluator.Evaluation.Reduce` | tools/assembler/rva.c:4020-4108 | the folding loop on the stack array folds the pending operators as the specification does and leaves the cells below |
| `Evaluator.Evaluation.TakeOperator` | tools/assembler/rva.c:4018-4140 | one operator or terminator on the stack array, with the pushed triple, the matched marker or the error |
| `Evaluator.Evaluation.EvalInner` | tools/assembler/rva.c:3983-4146 | a whole bracket level on the shared stack gives the specified result; without an error the stack pointer is back where it was |
| `Evaluator.Evaluation.Run` | tools/assembler/rva.c:3977-4155 | evaluate's value and error code are those of the specification, for every token list, up to a marker written behind the stack, which is foretold |
| `Passes.LineEffect` | tools/assembler/rva.c:2360-2374 | a line changes symbols only by one label call, and an error that remains is counted |
| `Passes.AllotAgain` | tools/assembler/rva.c:1349-1362 | a size allotted on one pass is allotted again on the next when the operand asks for the same |
| `Passes.AlignExact` | tools/assembler/rva.c:2316-2321 | ALIGN moves to the next multiple by less than its operand, exactly unless at address 0 with an operand that does not divide 2^32; operand 0 moves nothing |
| `Passes.ItemsLength` | tools/assembler/rva.c:1387-1449 | a definition takes its unit for each item read, all of them unless an error ends it |
| `Passes.StablePassFixesLayout` | tools/assembler/rva.c:687-769 | after a pass that defines and redefines nothing, an error-free last pass gives every line the same address and size and every symbol the same value |
| `Passes.CleanPassFixesLayout` | tools/assembler/rva.c:687-769 | after a stable pass other than the first, without a zero divisor, the next pass moves no line and changes no symbol, whatever errors it reports |
| `Passes.LastPassIsConsistent` | tools/assembler/rva.c:738-757 | every line begins where the one before ended, or where its ORG says; every label, EQU, ORG and ALIGN ones included, has the value its line gives it; every operand and data item emitted is the expression's value under the final symbols, at its own address; and every size is what these values ask for |
| `Passes.SettledSizes` | tools/assembler/rva.c:1336-1366 | in a finished program every pseudo-operation has four or eight bytes, no fewer than its operand asks for, exactly as many in one finished in ten passes; every branch, jump and immediate has passed its test |
| `Passes.SizesNeverShrink` | tools/assembler/rva.c:1349-1362 | from pass SHRINK_STOP on no size record decreases, over any number of passes |
| `Passes.SizesSettle` | tools/assembler/rva.c:1336-1366 | so each item changes at most once more, from four bytes to eight |
| `Passes.AcceptedExactly` | tools/assembler/rva.c:738-757 | the pass after a clean one other than the first reports no error exactly when the operands of all instructions and pseudo-operations have values under the final symbols and pass their tests |
| `Progress.OperandErrors` | tools/assembler/rva.c:4623-4627 | when an operand is an error: on the last pass unless it has a value that passes its test; before, a label or divisor still unknown and a failed test are let go, on the first pass a new name too; between, most instructions do not read theirs |
| `Progress.ItemErrors` | tools/assembler/rva.c:1421-1449 | a definition is in error exactly when one of its items, read at its own place, is |
| `Progress.DuplicateLabel` | tools/assembler/rva.c:2835-2839 | a label met again on one pass is let go at the same address; at another it is an error, keeps the new value, and the rest of its line is left out |
| `Progress.BehindOrg` | tools/assembler/rva.c:2802-2823 | behind an ORG the pointer is its operand; while that is unknown, labels there have no value |
| `Progress.NoErrorsBefore` | tools/assembler/rva.c:738-757 | a program whose operands are expressions over its own labels, each there once, has no error on any pass but the last, whatever is used before it is defined |
| `Progress.StableExactly` | tools/assembler/rva.c:747-753 | in such a program without EQU, ORG and ALIGN every label has a value from the first pass on, and the next pass is the last exactly when a pass left every label where the one before had put it |
| `Progress.PlainAccepted` | tools/assembler/rva.c:738-757 | and then it is accepted exactly when the operands of its code pass their tests where they finally are |
| `Assembler.Assembly.RedefLabel` | tools/assembler/rva.c:2778-2853 | the label's new record, the two counters and the error, on the table in place |
| `Assembler.Assembly.VariableItemSize` | tools/assembler/rva.c:1336-1366 | the record appended, kept or changed, and the size returned |
| `Assembler.Assembly.Define` | tools/assembler/rva.c:1387-1449 | the item loop stops at the first error that is not tolerated |
| `Assembler.Assembly.AssembleLine` | tools/assembler/rva.c:1194-1323 | one line updates the globals as the line function says |
| `Assembler.Assembly.CodePass` | tools/assembler/rva.c:463-518 | a pass over the source is the fold of its lines |
| `Assembler.Assembly.Assemble` | tools/assembler/rva.c:687-769 | at most 22 passes; the last one comes exactly after the first stable one; code is dumped exactly if that one had no zero divisor, and then, from the third pass on, lies as on the stable pass even if there are errors; a settled result has the stable layout and consistent labels, operands and data |
| `PseudoOps.BranchDecodes` | tools/assembler/rva.c:1565-1583 | a branch offset decodes to itself exactly when b_offset accepts it, and no other field is disturbed |
| `PseudoOps.JumpDecodes` | tools/assembler/rva.c:2756-2758 | the same for JAL offsets and imm_jal |
| `PseudoOps.StoreDecodes` | tools/assembler/rva.c:1806-1809 | the same for the split offset of stores |
| `PseudoOps.ImmediateDecodes` | tools/assembler/rva.c:1740-1742 | the same for twelve-bit immediates |
| `PseudoOps.UpperExactly` | tools/assembler/rva.c:1655-1658 | a U-type word holds a value exactly when its low bits are clear |
| `PseudoOps.LoadImmediate` | tools/assembler/rva.c:2176-2193 | for every value LI leaves it in its register, in one word, in two, or held at two, and changes nothing else |
| `PseudoOps.OneWordEnough` | tools/assembler/rva.c:2183-2193 | LI asks for two words exactly when the value has low bits and is no signed twelve-bit one; CALL exactly when the distance is odd or no JAL reaches it |
| `PseudoOps.LoadMinimal` | tools/assembler/rva.c:2183-2193 | LI asks for two words only for values no single LUI, or ADDI on x0, loads |
| `PseudoOps.LoadAddress` | tools/assembler/rva.c:2195-2198 | LA leaves the named address in its register |
| `PseudoOps.CallReaches` | tools/assembler/rva.c:2200-2231 | CALL, at an address a hart can execute at, reaches its target and links behind itself exactly when it is not held at two words within reach of one |
| `PseudoOps.OddCall` | tools/assembler/rva.c:2200-2203 | a CALL at an odd distance is given two words without an opcode |
| `PseudoOps.KnownExpansions` | tools/assembler/rva.c:2142-2231 | `li t0, 5`, `li t0, 0x12345678`, a near and a far CALL as machine code |
| `PseudoOps.KnownWords` | tools/assembler/rva.c:1569-1581 | a branch backwards, a load, a store and an AUIPC as machine code |
| `PseudoOps.GlobalLoad` | tools/assembler/rva.c:1520-1530 | a load of a named address is one into its register, of its width; it reads from the address exactly when its register is not x0 or the upper part is 0 anyway |
| `PseudoOps.GlobalLoads` | tools/assembler/rva.c:1830-1850 | executed, its two words leave what memory has at that address, for that width, in the register, and change nothing else |
| `PseudoOps.GlobalStore` | tools/assembler/rva.c:1508-1530 | a store to a named address, of its width, writes there under the same condition on its extra register, and writes the register named exactly unless that is the extra one and not x0 |
| `PseudoOps.BranchReaches` | tools/assembler/rva.c:1569-1581 | the encoded branch leads to the label exactly when the distance passes b_offset's test |
| `PseudoOps.JumpReaches` | tools/assembler/rva.c:1682-1692 | and so does the encoded jump for JAL's test |
| `PseudoOps.JumpTruncates` | tools/assembler/rva.c:1979-1993 | J at an odd distance that passes its test jumps as for the distance less one |
| `Emission.FinalLoadImmediate` | tools/assembler/rva.c:2142-2231 | in a finished program LI fills its place and leaves the operand's value under the final symbols |
| `Emission.FinalLoadAddress` | tools/assembler/rva.c:2142-2231 | LA, executed where it was put, leaves the final address |
| `Emission.FinalCall` | tools/assembler/rva.c:2142-2231 | CALL, executed where it was put, reaches the final address exactly when it is not held at two words within reach of one, always in a program finished in ten passes; an odd distance is never finished |
| `Emission.BranchFits` | tools/assembler/rva.c:1565-1583 | a branch passes its test exactly when it then leads to its target |
| `Emission.LinkFits` | tools/assembler/rva.c:1676-1692 | so does JAL |
| `Emission.JumpFits` | tools/assembler/rva.c:1979-1993 | J exactly when it leads there but for the lowest bit of the distance |
| `Emission.ImmediateFits` | tools/assembler/rva.c:1722-1746 | a twelve-bit immediate exactly when its word holds it |
| `Emission.UpperFits` | tools/assembler/rva.c:1655-1658 | an upper one likewise |
| `Emission.CallFits` | tools/assembler/rva.c:2200-2203 | CALL exactly when the distance is even; LI and LA always |
| `Emission.FinalBranch` | tools/assembler/rva.c:1565-1583 | every branch of a finished program leads to its operand's final value |
| `Emission.FinalJump` | tools/assembler/rva.c:1979-1993 | every jump too, except J at an odd distance |
| `Emission.FinalImmediate` | tools/assembler/rva.c:1722-1746 | twelve-bit and upper immediates of a finished program are the final value |
| `Emission.FinalLoad` | tools/assembler/rva.c:1504-1532 | a load of a named address, executed where it was put, is one into its register, of its width, and reads from the final address under GlobalLoad's condition; unless that is x0, the register then has what memory holds there |
| `Emission.FinalStore` | tools/assembler/rva.c:1504-1532 | a store likewise, with its width and the register it writes |
| `HeldCall.HeldCallMisses` | tools/assembler/rva.c:1336-1366 | a program assembled without an error in twelve passes whose CALL does not reach its target eight bytes on |
| `OddJump.OddJumpMisses` | tools/assembler/rva.c:1979-1993 | a program assembled without an error in three passes whose J does not lead to its label five bytes on |
| `SymbolTable.AnswersLikeAMap` | tools/assembler/rva.c:3423-3465 | after any operations every (folded) name has its latest value, once, numbered in order of first appearance |
| `SymbolTable.DefineSays` | tools/assembler/rva.c:3423-3465 | what defining a label reports, against what that map holds for it: added, defined, redefined or unchanged |
| `SymbolTable.FoldIs` | tools/assembler/rva.c:3682-3684 | a folding table keeps small letters as capital ones and all else as it is; another keeps names as they are |
| `SymbolTable.CaseFolded` | tools/assembler/rva.c:3682-3684 | in a folding table "ADD" and "add" find the same record, whatever else was done to it |
| `SymbolTable.Table.FindRecord` | tools/assembler/rva.c:3637-3666 | the chain search finds the record of that name exactly when the table has one |
| `SymbolTable.Table.FindLabel` | tools/assembler/rva.c:3532-3540 | the record of a name, folded if the table folds, exactly when there is one |
| `SymbolTable.Table.AddToTable` | tools/assembler/rva.c:3615-3631 | a record joins the front of its chain with the next identifier |
| `SymbolTable.Table.DefineLabel` | tools/assembler/rva.c:3423-3465 | adds, defines, redefines or leaves the label, and says which |
| `SymbolTable.Table.EnterLabel` | tools/assembler/rva.c:3478-3503 | finds the label or enters it without a value |
| `KernelHeap.RunKeeps` | kernel/memory/kmem.c:23-100 | over every run the size is conserved and no two neighbours are free; what is live is exactly what was returned and not freed, each with the words granted, at least those asked for, and no live pointer is granted again; with all of it freed the heap is the block it started as |
| `KernelHeap.NothingLiveIsInitial` | kernel/memory/kmem.c:74-99 | a heap without neighbouring free blocks and nothing in use is one free block |
| `KernelHeap.PlaceEffect` | kernel/memory/kmem.c:43-57 | placing a request adds exactly that block to the live ones and conserves the size |
| `KernelHeap.GrantedTight` | kernel/memory/kmem.c:43-57 | a request is granted its own words, one more when a header alone would be left; all else stays free |
| `KernelHeap.MergeEffect` | kernel/memory/kmem.c:77-99 | coalescing conserves size and live blocks and leaves no two neighbours free |
| `KernelHeap.LiveApart` | kernel/memory/kmem.c:40-61 | live blocks never overlap, not even with a header word between |
| `KernelHeap.AlignedCovers` | kernel/memory/kmem.c:17-36 | the rounded size covers the request exactly up to 2^32 - 4, with less than a word to spare |
| `KernelHeap.Heap.constructor` | kernel/memory/kmem.c:23-33 | one free block over the region |
| `KernelHeap.Heap.Kmalloc` | kernel/memory/kmem.c:35-64 | first fit: the lowest free block that is large enough, NULL exactly when there is none; other payloads keep their words |
| `KernelHeap.Heap.Kfree` | kernel/memory/kmem.c:67-100 | exactly that block leaves the live ones; other payloads keep their words |
| `SlabAllocator.GetHandsOutOne` | kernel/slab_allocator.c:54-76 | slab_get hands out one object that nobody held and takes none away |
| `SlabAllocator.AfterFreeHolds` | kernel/slab_allocator.c:78-122 | after slab_free exactly that object is no longer held, whether or not a slab was reclaimed |
| `SlabAllocator.AtMostOneFullSlab` | kernel/slab_allocator.c:93-116 | slab_free leaves at most one slab fully free, if there was at most one |
| `SlabAllocator.GetUndoesFree` | kernel/slab_allocator.c:54-91 | an object given back to the first slab with one free is the next handed out, and the slabs are then as before |
| `SlabAllocator.GetKeepsAtMostOne` | kernel/slab_allocator.c:54-76 | and so does slab_get |
| `SlabAllocator.CacheRunKeeps` | kernel/slab_allocator.c:54-122 | over every run of slab_get and slab_free from one new slab on: exactly the objects got and not freed are held, none is handed out twice, and at most one slab is fully free |
| `SlabAllocator.NothingHeldOneSlab` | kernel/slab_allocator.c:98-116 | once everything is given back one slab is left, entirely free |
| `SlabAllocator.LastFull` | kernel/slab_allocator.c:100-111 | with two fully free slabs the one reclaimed is not the list head, so its predecessor exists |
| `SlabAllocator.ObjectIsolated` | kernel/slab_allocator.c:23-52 | an object's words are no heap header, slab header, free-list link or part of another object |
| `SlabAllocator.ObjectsApart` | kernel/slab_allocator.c:39-49 | two objects are the same or do not touch |
| `SlabAllocator.HeldOnce` | kernel/slab_allocator.c:59-66 | an object is held at most once, and exactly when it is not on its free list |
| `SlabAllocator.HeldPlusFree` | kernel/slab_allocator.c:32-34 | held and free objects of a slab add up to its capacity |
| `SlabAllocator.RangeTest` | kernel/slab_allocator.c:82-87 | the address test accepts exactly the object's own slab |
| `SlabAllocator.SlabCache.SlabAllocNew` | kernel/slab_allocator.c:23-52 | a new slab at the head with every object free in order, or NULL exactly when the heap has no room |
| `SlabAllocator.SlabCache.SlabGet` | kernel/slab_allocator.c:54-76 | the first slab with a free object serves, else a new one; the slab and heap invariants and all held objects are kept |
| `SlabAllocator.SlabCache.SlabFree` | kernel/slab_allocator.c:78-122 | the object goes back to its slab, a spare empty slab to the heap, and everything else is as it was; an address in no slab is ignored |
| `SlabAllocator.SlabCache.Write` | kernel/slab_allocator.c:3-7 | storing into one's own object keeps both invariants and every other object |
| `UserMemory.RoundIsLeast` | kernel/memory/umem.s:11-40 | the smeared value is the least power of two at least the size, 0 when 32 bits hold none |
| `UserMemory.BitsCover` | kernel/memory/umem.s:58-80 | the bits asked for cover the request exactly for sizes up to 2^30, and half as many would not unless one does |
| `UserMemory.FreeRestores` | kernel/memory/umem_alloc.c:11-26 | freeing what was marked restores the map byte for byte |
| `UserMemory.MaskIs` | kernel/memory/umem_alloc.c:14 | bit k of a byte is 1 shifted k places |
| `UserMemory.ShowsMore` | kernel/memory/umem_alloc.c:28-54 | a new region overlaps no live one, and the map shows exactly the live regions |
| `UserMemory.RegionsApart` | kernel/memory/umem_alloc.c:43-49 | two regions share an address exactly when they share a bit of the map |
| `UserMemory.Allocator.MarkBitsUsed` | kernel/memory/umem_alloc.c:11-16 | exactly those bits become set |
| `UserMemory.Allocator.MarkBitsFree` | kernel/memory/umem_alloc.c:21-26 | exactly those bits become clear |
| `UserMemory.Allocator.TryBlock` | kernel/memory/umem_alloc.c:28-54 | the lowest free window of that length, 0 exactly when there is none |
| `UserMemory.Allocator.Ualloc` | kernel/memory/umem.s:58-80 | the region is the lowest that fits, shares no address with a live one, and covers the request up to 2^30; size 0 gives 1 |
| `IoScheduler.RunKeeps` | kernel/io/io_scheduler.c:6-54 | in every run completed requests are a prefix of the submitted ones, each is completed, in flight or waiting exactly once, and an idle card means an empty queue |
| `IoScheduler.CallbacksSeeTheirSector` | kernel/io/io_scheduler.c:36-54 | the clients' state is that of one callback for each completed request, each with its own sector |
| `IoScheduler.NothingInvented` | kernel/io/io_scheduler.c:20-34 | requests come only from submissions and callbacks |
| `IoScheduler.ServedInOrder` | kernel/io/io_scheduler.c:45-53 | each interrupt and pump completes one request more, in order: no lost wakeup |
| `IoScheduler.Scheduler.IssueNext` | kernel/io/io_scheduler.c:6-18 | the oldest request leaves the linked queue and is started; the scheduler is busy exactly while one is in flight |
| `IoScheduler.Scheduler.Submit` | kernel/io/io_scheduler.c:20-34 | the request joins the tail and is started if the card is idle |
| `IoScheduler.InterruptedCallback` | kernel/io/io_scheduler.c:36-54 | an interrupt inside a callback, of a read the callback started, might as well come after it |
| `IoScheduler.Scheduler.IrqHandler` | drivers/spi/sd_irsq.c:6-17 | the completion enters the ring; head and tail never differ by more than one |
| `IoScheduler.Scheduler.TakeCompletion` | kernel/io/io_scheduler.c:37-52 | one iteration of the pump is the handling step of the queue |
| `IoScheduler.Scheduler.PumpAll` | kernel/io/io_scheduler.c:36-54 | the pump, with interrupts inside its callbacks and between its iterations, is a sequence of atomic pumps and interrupts |
| `Volume.DecomposeNames` | kernel/fs/fs_seek.c:13-24 | cluster index, sector and byte name exactly the offset |
| `Volume.DecomposeOnly` | kernel/fs/fs_seek.c:13-24 | and no other position does |
| `Volume.PositionIs` | kernel/fs/fs_seek.c:13-24 | they are quotients and remainders for sectors of 512 bytes |
| `Volume.FileByteIs` | kernel/fs/fs_seek.c:13-24 | byte `offset` of a file is byte `offset` modulo 512 of the sector that far on in its cluster |
| `Volume.ChainGoesOn` | kernel/fs/fs_seek.c:117 | a chain goes on for table entries from 1 to 0x0FFFFFF7 and ends at any other |
| `FsSeek.SeekExact` | kernel/fs/fs_seek.c:35-138 | a seek succeeds exactly when the target is within the size and its cluster in the chain; a failure changes nothing; it is synchronised exactly unless it went back into the first cluster from another; table reads are bounded even on a cyclic chain |
| `FsSeek.WalkExact` | kernel/fs/fs_seek.c:110-138 | the walk arrives at exactly the cluster asked for or fails where the chain ends |
| `FsSeek.SeekSyncs` | kernel/fs/fs_seek.c:62-72 | on the stated domain the position fields name the target |
| `FsSeek.WhenceExact` | kernel/fs/fs_seek.c:90-99 | a seek from the start, the present position or the end succeeds exactly when the place so named, modulo 2^32, is within the size and the chain reaches it, and the file is then there; any other origin fails; a failure changes nothing |
| `FsSeek.BackToStartExample` | kernel/fs/fs_seek.c:56-72 | a file sent back to its start that still reads from its second cluster |
| `FsSeek.SeekContext.Step` | kernel/fs/fs_seek.c:110-138 | the step on the context and the file in place |
| `FsSeek.Submit` | kernel/fs/fs_seek.c:35-88 | the submission on the file in place, with a context exactly when a sector is needed |
| `FsSeek.SubmitWhence` | kernel/fs/fs_seek.c:90-99 | the three origins, with 32-bit wrap-around, and the bad one |
| `FsRead.ReadExact` | kernel/fs/fs_read.c:21-91 | what a read delivers are the file's bytes from its offset on; it delivers all and succeeds exactly when the last sector it touches does not start beyond the size and is in the chain, or is its first |
| `FsRead.WithinSizeReadable` | kernel/fs/fs_read.c:61-87 | so every read within the size succeeds |
| `FsRead.ReadWithin` | kernel/fs/fs_read.c:61-87 | a read that stays in the sector another one left off in delivers the bytes that follow, and so may the next |
| `FsRead.ReadBeyond` | kernel/fs/fs_read.c:61-87 | one that goes beyond it takes the rest from the wrong place, and exactly when it succeeds |
| `FsRead.SecondRead` | kernel/fs/fs_read.c:61-87 | exactly when a second read succeeds, by size, chain and lengths; then the two deliver consecutive bytes exactly when the second stays in the sector the first ended in, or the file repeats itself there |
| `FsRead.SectorAgain` | kernel/fs/fs_read.c:61-87 | a second read of a whole sector delivers the first sector again |
| `FsRead.ReadFrom` | kernel/fs/fs_read.c:44-91 | the same from any point of a read |
| `FsRead.ReadContext.CopyOut` | kernel/fs/fs_read.c:69-73 | the copy loop on the destination array |
| `FsRead.ReadContext.StepOn` | kernel/fs/fs_read.c:44-91 | the step on context, file and destination in place |
| `FsOpen.OpenExact` | kernel/fs/fs_open.c:227-318 | whatever the path and the chains: a search that is decided ends, and finds what the flat search finds under the names the walker uses |
| `FsOpen.OpenEnds` | kernel/fs/fs_open.c:227-318 | and only such a search ends |
| `FsOpen.PathSearched` | kernel/fs/fs_open.c:140-197 | a path c1/../cn is searched under the packed c1 to c[n-1], and c[n-1] again |
| `FsOpen.OpensWhatItNames` | kernel/fs/fs_open.c:140-151 | it is opened as what it names exactly when the last two components pack alike, or its directory is not found either, or neither name is in it |
| `FsOpen.WholeDecides` | kernel/fs/fs_open.c:236-318 | in a directory whose chain ends every search is decided, as the flat search of all its entries |
| `FsOpen.OpensEntry` | kernel/fs/fs_open.c:243-279 | a directory slot that holds a record with the packed name, not deleted and not part of a long name, is opened, with the record's cluster and size, if before it no slot ends the directory or is such a record |
| `FsOpen.OpensOnly` | kernel/fs/fs_open.c:243-279 | and nothing else is: what is opened is the first such slot |
| `FsOpen.OpensReadme` | kernel/fs/fs_open.c:243-279 | "/readme.txt" opens a root directory's first record README  TXT with the archive attribute |
| `FsOpen.EscapedNeverFound` | kernel/fs/fs_open.c:253-259 | a name that begins with 0xE5 is never found, and an entry kept with 0x05 in front is found under no name |
| `FsOpen.EscapedName` | kernel/fs/fs_open.c:69-136 | a packed name begins with 0xE5 exactly when the name does and has valid characters only |
| `FsOpen.OpenSingle` | kernel/fs/fs_open.c:183-318 | for one component: the first live entry of that name before the end marker, or not found exactly when there is none; the file is synchronised at 0 |
| `FsOpen.DirectorySearch` | kernel/fs/fs_open.c:236-318 | a directory, over sectors and clusters, is searched as the flat list of the entries gone through |
| `FsOpen.LookupFirst` | kernel/fs/fs_open.c:243-263 | the flat search finds the first match and stops at the end marker |
| `FsOpen.LookupNone` | kernel/fs/fs_open.c:243-263 | it runs through exactly when no entry matches or ends the directory |
| `FsOpen.LayoutRead` | include/fat_directory.h:7-26 | each field is read where the record declares it |
| `FsOpen.PackBaseAndExtension` | kernel/fs/fs_open.c:69-136 | base and extension each fill their own columns |
| `FsOpen.PackIgnoresCase` | kernel/fs/fs_open.c:17-20 | names that differ in case only are packed alike |
| `FsOpen.UpperExactly` | kernel/fs/fs_open.c:17-20 | small letters become capital ones, and nothing else changes |
| `FsOpen.ValidExactly` | kernel/fs/fs_open.c:22-48 | the characters allowed are all from the blank on but fifteen |
| `FsOpen.ReadmePacks` | kernel/fs/fs_open.c:69-136 | a name shorter and one longer than its columns |
| `FsOpen.MakeFat83Name` | kernel/fs/fs_open.c:69-136 | the loops fill in exactly the packed name, and report whether every character is allowed |
| `FsOpen.SingleComponent` | kernel/fs/fs_open.c:195-197 | a single component is searched under its own name |
| `FsOpen.LastComponentLost` | kernel/fs/fs_open.c:140-151 | the last component of a longer path is searched under the previous name |
| `FsOpen.LastComponentExample` | kernel/fs/fs_open.c:140-151 | "/A/B" looks for "A" in the directory "A" |
| `FsOpen.MiddleComponent` | kernel/fs/fs_open.c:140-151 | every other component is searched under its own |
| `FsOpen.OpenContext.StepOn` | kernel/fs/fs_open.c:227-318 | the step on the context in place |
| `FsSystem.Interleaved` | kernel/io/io_scheduler.c:36-54 | whatever the interleaving, every operation is in the state it would reach alone, and its request is queued until it is over |
| `FsSystem.EveryRun` | kernel/io/io_scheduler.c:20-54 | so from an idle card on, whatever is submitted and whenever interrupts and pumps come |
| `FsSystem.InterleavedRead` | kernel/fs/fs_read.c:61-87 | a read that is over has delivered the file's bytes |
| `FsSystem.InterleavedSeek` | kernel/fs/fs_seek.c:110-138 | a seek that is over ended as it would have alone |
| `FsSystem.InterleavedOpen` | kernel/fs/fs_open.c:236-318 | a search that is over found what the flat search finds, which is then not endless |
| `FsSystem.CalledBack` | kernel/io/io_scheduler.c:36-54 | an operation that is not over is called back within as many interrupts as requests are queued |
| `FsSystem.ReadCompletes` | kernel/fs/fs_read.c:44-91 | a started read comes to its end, the one it has alone |
| `FsSystem.SeekCompletes` | kernel/fs/fs_seek.c:110-138 | so does a started seek |
| `FsSystem.OpenCompletes` | kernel/fs/fs_open.c:227-318 | and a started search that is not endless |
| `FsSystem.CardError` | kernel/fs/fs_open.c:227-234 | an operation whose sector could not be read is over, with its error, and has changed nothing |
| `RoundRobin.ChoiceIsNearest` | kernel/scheduler.s:39-66 | the nearest ready process after the current one, the current one if only it runs, else none |
| `RoundRobin.ChosenInTime` | kernel/scheduler.s:39-66 | a process that stays ready in a ring of n is chosen within n calls |
| `RoundRobin.ScheduleNext` | kernel/scheduler.s:39-66 | the walk over the linked ring ends and returns that choice |
| `RoundRobin.Unblock` | kernel/scheduler.s:76-80 | only that process changes, and the ring is kept |

## Left out

- Lexing: the evaluator works on tokens, and the passes on parsed lines; error codes carry no column.
- Assembler directives IF, ELSE, INCLUDE, IMPORT, EXPORT, ARCH, ENTRY and RECORD, numeric local labels, CSR names, fill values and string items: table and output work.
- Register and syntax errors of instructions, and the range tests of shifts, CSRs, SUBI and loads and stores with a base register: they only add to the error count of a pass.
- Output: listing, hex, ELF and Verilog writers, and the messages.
- `tail`: its short form links x1, so it is no jump without a link.
- Shifts by 32 or more: C leaves them undefined; the results are whatever the host makes of them, one for each pair of operands.
- Evaluator.Evaluation.Run: stops with an outcome of its own where the source goes on after writing behind its stack.
- SymbolTable.Table.DefineLabel: names are at most 32 characters, because longer ones are compared beyond their field.
- SymbolTable.Table.EnterLabel: names are at most 32 characters, for the same reason.
- SymbolTable.Table.FindRecord: names are at most 32 characters, for the same reason.
- SymbolTable.Table.FindLabel: names are at most 32 characters, for the same reason.
- SymbolTable.Table.AddToTable: names are at most 32 characters and not in the table yet, as every caller but RN has made sure.
- KernelHeap.Heap.Kfree: frees only NULL or a live pointer.
- SlabAllocator.SlabCache.SlabAllocNew: objects of whole words, at least one of them, and no 32-bit wrap in the slab's size.
- SlabAllocator.SlabCache.SlabFree: frees an object the cache handed out or an address in no slab; one inside a slab that nobody holds is not modelled.
- `ufree` and `ualloc_init`: the model uses `mark_bits_free` on a live region and an all-zero map.
- `get_next_cluster`, `cluster_to_lba` and `fat_calcualte_lba`: abstract functions; their assembly bodies are not part of this model.
- IoScheduler.Scheduler.IrqHandler: one interrupt for each started read, where the source would publish a completion for any other too; the result of `sd_start_read` is ignored as in the source, and writes to the card are not modelled.
- IoScheduler.Scheduler.PumpAll: the number of interrupts during one pump is a parameter, and a callback reads the buffer before it submits.
- FsSystem.Interleaved: operations on different files; what a caller starts from its own callback is a later submission.
- FsRead.ReadExact: reads that do not wrap the 32-bit offset.
- FsOpen.PathSearched: paths of components without empty ones or a slash at the end.
- FsOpen.OpenContext.StepOn: stops at the state the search reaches; waking the caller, which uses the context after freeing it, is not modelled, and neither is the 13-byte buffer a longer component would overrun.
- Allocation failure of the small context and request records.
- The ELF loader, fork and exit, trap entry, device drivers and user programs.
