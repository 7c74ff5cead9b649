# A Dafny model of gVisor's core data structures and protocols

The project models parts of gVisor and proves what they promise for every input,
every interleaving or every reachable state.

- **Segment sets** (`pkg/segment`): the gap-tracking B-tree, as a sorted list of
  segments and as a map from keys to values. Files `Segment*.dfy`.
- **System call filters** (`pkg/seccomp`, `pkg/bpf`): the rule compiler, label
  resolution, the validator and the interpreter, from the rule sets to the
  value the program returns. Files `Words`, `Bits`, `Bpf*`, `ProgramBuilder`,
  `LabelledCode` and `Seccomp*.dfy`.
- **Merkle trees** (`pkg/merkletree`): layout, generation and verification, with
  an arbitrary hash function. Files `Merkle*.dfy`.
- **Protocols** on atomic words (`pkg/sleep`, `pkg/amutex`, `pkg/refsvfs2`,
  `pkg/flipcall`): state machines in which one step is one atomic operation of
  any thread. Files `Sleep*`, `AbortableMutex`, `RefCount` and `Flipcall*.dfy`.
- **The 9P server** (`pkg/p9`): FIDs, reference counts, parents and the path tree
  under any sequence of messages. Files `PathNodes.dfy` and `Fid*.dfy`.
- **Buffers** (`pkg/buffer`) and **block sequences** (`pkg/safemem`): both as
  plain sequences of bytes. Files `BufferView.dfy` and `BlockSeqs.dfy`.

## What fails, and exactly when

- A vsyscall rule set with an empty rule list lets a call fall through into the
  code of another call (`FallThroughExample`). `FilterCorrectIff` has the exact
  condition.
- The filter compares the low words of call numbers in the order of the full
  numbers, so a rule for a number of 2^32 or more can decide another call
  (`WideExample`). `StraightExact` says which numbers are safe, and
  `FilterCorrectWide` decides each call; `FilterCorrectIff` does so for both
  reasons together.
- RemoveRange with an empty range removes the rest of a segment that contains
  the start of the range. `EmptyRangeRemoves` has the exact condition.
- One merging pass, or an insertion into a set without mergeable neighbours, can
  leave neighbours that merge. `PassSettlesIff` and `InsertSettlesIff` have the
  exact conditions on the merge function.
- The comment on DecRef says that speculative references always become real
  ones. A TryIncRef that is about to fail contradicts it, and then the object is
  never destroyed (`LastReferenceCanLeak`). `LeaksExactly` has the exact
  condition.
- Verify checks no range against the declared size. `VerifyIsSoundInRoom`,
  `FirstRepeat` and `RepeatVerifies` say from which block on a repeated block
  of the file can be accepted outside of it.
- The 9P server lets a client walk from a deleted directory, and a client can have
  one (`DeletedDirectory`). If the backend walks too, Trename panics on the new
  file (`WalkPanicsIff` has the exact condition), and a rename can make a file its
  own ancestor, so that files stay open for ever (`LosesFiles`;
  `MoveLosesFilesIff` has the exact condition). That no handler panics and that
  every file is closed exactly once are proved of the handlers with a backend that
  refuses the walk.
- A rename that moves a directory into itself would make a cycle of path nodes;
  `MoveMakesNoCycleIff` has the exact condition. The backend refuses it.
- The comment on Done says that wakers do no more work towards waking the sleeper.
  They change nothing while it rests (`RestingIsUntouched`), but one that is past
  its push can take waitingG from a later Fetch (`LosesGRun`). `LosesGIff` has the
  exact condition.
- ReadToWriter ignores the result of batched writes (`BatchedExample`). Its count
  is wrong exactly when the writer fails inside a batch, which the sizes of the
  buffers decide.

## Model

| member | source | states |
|---|---|---|
| `Bpf.Exec` | pkg/bpf/interpreter.go:267-412 | the interpreter loop over pc, A, X and M gives the result of the machine whose instructions the rows below describe, for any program; an accepted program ends in a return, a failed load or a division by zero |
| `Bpf.Compile` | pkg/bpf/interpreter.go:104-220 | accepts exactly the programs that meet every validation rule; otherwise reports a wrong count, a missing final return, or the first bad line with its error |
| `Bpf.AcceptedRunsSafely` | pkg/bpf/interpreter.go:104-412 | from any line and state, every accepted program ends in a return, InvalidLoad or DivisionByZero: no invalid opcode, no run off the end, no index out of range |
| `Bpf.VisitsEachLineOnce` | pkg/bpf/interpreter.go:267-412 | the lines visited increase strictly and stay inside the program, so a run takes at most one step per instruction |
| `BpfMeaning.AluDoes` | pkg/bpf/interpreter.go:331-380 | every arithmetic instruction, told from its fields, changes only A: sums and differences column by column with their carries, products by shifted sums, quotients and remainders by their bounds, the others bit by bit; it fails exactly on a zero divisor or an unknown code |
| `BpfMeaning.AluIsDetermined` | pkg/bpf/interpreter.go:331-380 | that leaves one result for every pair of operands |
| `BpfMeaning.LoadDoes` | pkg/bpf/interpreter.go:273-326 | every load sets A or X to the number in the instruction, the length, a memory cell, or the number whose bytes, in the byte order of the input, are at the offset; it fails exactly outside of the input |
| `BpfMeaning.LoadGivesBack` | pkg/bpf/input_bytes.go:32-37 | a word laid out in the input in either byte order is what a load of it gives |
| `BpfMeaning.OtherDoes` | pkg/bpf/interpreter.go:327-406 | stores, tests, jumps, returns and moves do what their fields say and nothing else |
| `BpfMeaning.StoreThenLoad` | pkg/bpf/interpreter.go:309-330 | a value stored in a cell is what a later load of it gives, and the other cells keep theirs |
| `BpfMeaning.CheckIsExact` | pkg/bpf/interpreter.go:104-220 | the validator finds an opcode invalid exactly if the interpreter does not know it, a register or divisor exactly if the interpreter would panic, and a jump exactly if it leaves the program |
| `ProgramBuilders.ProgramBuilder.AddLabelSource` | pkg/bpf/program_builder.go:144-151 | appends one jump source to the label, keeping its other sources and its target |
| `ProgramBuilders.ProgramBuilder.AddStmt` | pkg/bpf/program_builder.go:80-82 | the call sequence grows by this statement; label table and code stay those of the calls |
| `ProgramBuilders.ProgramBuilder.AddJump` | pkg/bpf/program_builder.go:85-87 | the call sequence grows by this jump with fixed offsets |
| `ProgramBuilders.ProgramBuilder.AddDirectJumpLabel` | pkg/bpf/program_builder.go:90-93 | the call sequence grows by an unconditional jump to a label |
| `ProgramBuilders.ProgramBuilder.AddJumpTrueLabel` | pkg/bpf/program_builder.go:96-99 | the call sequence grows by a jump whose true side is a label |
| `ProgramBuilders.ProgramBuilder.AddJumpFalseLabel` | pkg/bpf/program_builder.go:102-105 | the call sequence grows by a jump whose false side is a label |
| `ProgramBuilders.ProgramBuilder.AddJumpLabels` | pkg/bpf/program_builder.go:108-112 | the call sequence grows by a jump with two labels |
| `ProgramBuilders.ProgramBuilder.AddLabel` | pkg/bpf/program_builder.go:116-131 | fails exactly when the label table says the label is set or was set unreferenced; never fails for a label not yet marked |
| `ProgramBuilders.ProgramBuilder.ResolveLabels` | pkg/bpf/program_builder.go:153-206 | succeeds exactly when every reference has a later mark, an instruction behind it and a distance that fits; then the code is the calls' code with every label field filled |
| `ProgramBuilders.FillSources` | pkg/bpf/program_builder.go:166-203 | fills all sources of one label, or shows that resolution is impossible |
| `LabelledCode.FieldsResolved` | pkg/bpf/program_builder.go:153-206 | a label field on line s whose label is on line t holds t-s-1, t lies ahead and inside the program, and every other field is as it was added |
| `LabelledCode.ResolutionCorrect` | pkg/bpf/program_builder.go:153-206 | from the line of any position, the resolved program ends exactly as the labelled code does: same value, same error and line, or both off the end |
| `LabelledCode.ResolvedProgram` | pkg/bpf/program_builder.go:137-206 | the same for the whole program from its first line |
| `LabelledCode.ResolutionIsUnique` | pkg/bpf/program_builder.go:153-206 | the resolved program is determined by the calls, so the order in which the label map is iterated does not matter |
| `SeccompRules.AddRuleAllows` | pkg/seccomp/seccomp_rules.go:162-172 | after AddRule exactly the calls allowed before or matched by the rule are allowed, also when the list was the empty blanket |
| `SeccompRules.Merge` | pkg/seccomp/seccomp_rules.go:175-190 | the loop makes, for each call number, the list that merging prescribes |
| `SeccompRules.MergeAllows` | pkg/seccomp/seccomp_rules.go:175-190 | the merged map allows exactly what either map allows |
| `SeccompExec.ArgRuns` | pkg/seccomp/seccomp.go:243-379 | the emitted checks of one entry fall through exactly when the 64-bit comparison holds, and else jump to the rule's end |
| `SeccompExec.RuleRuns` | pkg/seccomp/seccomp.go:232-395 | the code of one rule returns its action exactly when every entry matches |
| `SeccompExec.RulesRun` | pkg/seccomp/seccomp.go:220-401 | the code of a rule list returns the action exactly when some rule matches |
| `SeccompExec.SetsRun` | pkg/seccomp/seccomp.go:446-489 | the code of all rule sets for a call returns the action of the first rule set that matches |
| `SeccompBuild.AddSyscallArgsCheck` | pkg/seccomp/seccomp.go:220-401 | the loops append exactly the labelled code of the rule list; they fail exactly on an entry of unknown type |
| `SeccompBuild.BuildBSTProgram` | pkg/seccomp/seccomp.go:420-498 | appends exactly the labelled code of one tree node; fails exactly on an unknown entry or a rule set shadowed by a blanket one |
| `SeccompBuild.Traverse` | pkg/seccomp/seccomp.go:520-531 | appends the code of a subtree in preorder |
| `SeccompLabels.BSTValues` | pkg/seccomp/seccomp.go:188-198 | the tree over a sorted list is a search tree with exactly the list's numbers |
| `SeccompLabels.ProgramMarks` | pkg/seccomp/seccomp.go:121-144 | no label of a program is marked twice |
| `SeccompFilter.BuildIndex` | pkg/seccomp/seccomp.go:147-184 | appends the code of the whole search tree |
| `SeccompFilter.BuildProgram` | pkg/seccomp/seccomp.go:121-144 | succeeds exactly when no rule entry or rule set is refused and all labels resolve; the result is the resolved code |
| `SeccompResolve.ProgramResolves` | pkg/seccomp/seccomp.go:121-498 | labels resolve exactly when every vsyscall rule set takes at most 255 instructions for each of its calls and every direct jump fits 32 bits |
| `SeccompResolve.BuildsIff` | pkg/seccomp/seccomp.go:121-144 | BuildProgram succeeds exactly when all entries are of known types, no rule set is shadowed, every vsyscall rule set is short enough and every direct jump fits 32 bits, as it does up to 2^32 instructions |
| `SeccompFilter.FilterRuns` | pkg/seccomp/seccomp.go:121-531 | the built program, run by the interpreter, returns exactly what searching the tree of rule lists gives |
| `SeccompTheorem.FilterCorrect` | pkg/seccomp/seccomp.go:121-531 | for all rule sets and all 64-byte inputs, the built program returns badArchAction on another architecture, else the action of the first matching rule set, else the default; needs no blanket vsyscall rule set and numbers that the tree leads to |
| `SeccompTheorem.StraightExact` | pkg/seccomp/seccomp.go:188-198 | which call numbers can be filtered: whatever rules they get, every call is decided right exactly when the tree leads each low word to its own number, or to none |
| `SeccompTheorem.FilterCorrectWide` | pkg/seccomp/seccomp.go:420-531 | for numbers of any width: right exactly unless the rules of the number the tree leads to decide otherwise than the call's own |
| `SeccompTheorem.NarrowIsStraight` | pkg/seccomp/seccomp.go:188-198 | numbers below 2^32 are always led to |
| `SeccompTheorem.FilterCorrectIff` | pkg/seccomp/seccomp.go:466-495 | for all rule sets and numbers of any width: right exactly when the number that answers, through all blanket vsyscall rule sets that a run falls through, says of the call what its own does; for 32-bit numbers exactly unless the call falls through and the high word of the instruction pointer is a number of the next subtree whose rules answer other than by default |
| `SeccompTheorem.FallThroughExample` | pkg/seccomp/seccomp.go:466-495 | a built filter that answers an ordinary call with another call's action |
| `SeccompTheorem.WideExample` | pkg/seccomp/seccomp.go:430-498 | a built filter that lets a call through because of a rule for a number 2^32 larger |
| `SeccompAccept.FilterAccepted` | pkg/seccomp/seccomp.go:121-144 | every built filter of at most MaxInstructions instructions passes the validator, and no longer one does |
| `SeccompTheorem.FilterCall` | pkg/seccomp/seccomp.go:52-144 | building, validating and running a filter gives the verdict, an instruction-count error, or no filter, each exactly when it should |
| `Sleep.StepKeeps` | pkg/sleep/sleep_unsafe.go:124-394 | every atomic step of any thread keeps the invariant of lists, places, wakeups and Done, and changes the queue only at its ends |
| `Sleep.RunKeeps` | pkg/sleep/sleep_unsafe.go:124-394 | the invariant holds after every interleaving of any number of threads |
| `Sleep.LinkedOnce` | pkg/sleep/sleep_unsafe.go:147-202 | in every run the next fields from the three list heads link exactly the queued wakers, each once |
| `Sleep.NoLostWakeup` | pkg/sleep/sleep_unsafe.go:147-240 | in every run, a parked sleeper with a non-empty shared list has an asserter past its push that has still to take or has taken waitingG |
| `Sleep.AssertedIsPending` | pkg/sleep/sleep_unsafe.go:295-394 | in every run an added waker that is not associated, as an asserted one, is queued, or in the hand of a thread that enqueues or fetches it |
| `Sleep.FetchMisses` | pkg/sleep/sleep_unsafe.go:226-240 | a Fetch that does not block misses a waker only while another thread is still inside Assert |
| `Sleep.ParkedIsWoken` | pkg/sleep/sleep_unsafe.go:147-317 | in every run a parked sleeper with an asserted waker is woken by at most eight steps of one thread alone |
| `SleepOrder.FirstPushedFirstTaken` | pkg/sleep/sleep_unsafe.go:147-240 | in every run the wakers pushed are those taken by the sleeper followed by those queued, in order |
| `SleepOrder.TakesTheHead` | pkg/sleep/sleep_unsafe.go:147-202 | what the sleeper takes is the head of the queue |
| `SleepOrder.FetchedInOrder` | pkg/sleep/sleep_unsafe.go:204-240 | in every run Fetch has returned some of the wakers taken, in the order in which they were pushed |
| `SleepFetch.FetchedWereRaised` | pkg/sleep/sleep_unsafe.go:226-240 | in every run a waker is asserted exactly if the last Assert, Clear or Fetch of it is an Assert, and Fetch has returned exactly the wakers that were asserted when it took them |
| `SleepFetch.FetchAlone` | pkg/sleep/sleep_unsafe.go:147-240 | in every run, from the start of a Fetch its thread alone ends it in at most 4n + 8 steps for n queued wakers: it returns the first asserted one, and only a blocking Fetch that finds none parks; the wakers before it are the sleeper's again |
| `SleepFetch.FetchEnds` | pkg/sleep/sleep_unsafe.go:147-240 | from wherever a Fetch is, its thread alone ends it or parks within 5n + 20 steps |
| `SleepFetch.AssertRaises` | pkg/sleep/sleep_unsafe.go:360-374 | Assert run alone makes exactly its waker asserted, and goes on to enqueue it exactly if it was with a sleeper |
| `SleepFetch.ClearLowers` | pkg/sleep/sleep_unsafe.go:383-394 | Clear run alone returns after at most three steps, and exactly its waker is no longer asserted |
| `SleepDone.DoneIsWoken` | pkg/sleep/sleep_unsafe.go:245-291 | in every run a sleeper that parks in Done is woken in the same way |
| `SleepDone.DoneProgresses` | pkg/sleep/sleep_unsafe.go:275-289 | what Done takes from the queue is something it waits for, and all it waits for is queued or about to be |
| `SleepDone.DoneIsDone` | pkg/sleep/sleep_unsafe.go:242-291 | in every run, once Done has returned, no waker is associated or queued, nobody waits and no thread enqueues or wakes; left are threads past their push |
| `SleepDone.RestingIsUntouched` | pkg/sleep/sleep_unsafe.go:242-317 | after Done any steps of the other threads leave the lists, waitingG and the sleeper as they are |
| `SleepDone.LosesGIff` | pkg/sleep/sleep_unsafe.go:242-317 | a Fetch after Done can lose waitingG to a thread that pushed nothing for it exactly when some thread is past its push as Done returns |
| `SleepDone.LosesGRun` | pkg/sleep/sleep_unsafe.go:242-317 | a run of two threads in which it does |
| `AbortableMutex.StepKeeps` | pkg/amutex/amutex.go:65-113 | every atomic step keeps the invariant |
| `AbortableMutex.AtMostOneHolder` | pkg/amutex/amutex.go:65-113 | in every interleaving with any number of threads and aborts at most one thread holds the lock, and v is 1 exactly when nobody does |
| `AbortableMutex.WaiterIsRemembered` | pkg/amutex/amutex.go:65-113 | a waiting thread implies v < 0 with a holder, a buffered token, an Unlock before its send, or a thread about to retry |
| `AbortableMutex.SettlingIsBounded` | pkg/amutex/amutex.go:65-113 | retries, sends and token receipts come to an end under every schedule, within a computed bound |
| `AbortableMutex.SomeScheduleSettles` | pkg/amutex/amutex.go:65-113 | from every state some schedule leaves nothing under way |
| `AbortableMutex.NobodyWaitsForAFreeLock` | pkg/amutex/amutex.go:65-113 | once nothing is under way, a waiting thread means that another one holds the lock |
| `AbortableMutex.AbortIsPrompt` | pkg/amutex/amutex.go:65-98 | an aborted Lock returns after at most three steps of its own, from every state |
| `AbortableMutex.FreeLockIsTaken` | pkg/amutex/amutex.go:65-69 | in every run a lock that nobody holds is had by the next thread that asks |
| `AbortableMutex.UnlockFrees` | pkg/amutex/amutex.go:102-113 | Unlock frees the lock with its first step and returns with its second; a waiting thread finds a token or someone who tries |
| `RefCount.CountIsExact` | pkg/refsvfs2/refs_template.go:86-147 | the 64-bit adds never wrap, the word is 2^32 times the speculative references plus the real ones, and each operation adds or drops exactly the reference it is for |
| `RefCount.TryIncRefIff` | pkg/refsvfs2/refs_template.go:103-118 | TryIncRef gets a reference exactly if one is held when it makes its first add |
| `RefCount.PanicsExactly` | pkg/refsvfs2/refs_template.go:86-147 | an IncRef or DecRef without a reference panics exactly if nobody holds one and no TryIncRef is between its adds |
| `RefCount.DestroysExactly` | pkg/refsvfs2/refs_template.go:131-147 | a step destroys exactly when it drops the last real reference while no TryIncRef is between its adds |
| `RefCount.DestroyedOnlyWhenDead` | pkg/refsvfs2/refs_template.go:86-147 | in every run the destructor runs at most once, only with no reference held and no TryIncRef that will return true, and nothing panics |
| `RefCount.NoReferenceAfterDestroy` | pkg/refsvfs2/refs_template.go:103-147 | after the destructor no TryIncRef returns true and no reference is ever held |
| `RefCount.LastReferenceCanLeak` | pkg/refsvfs2/refs_template.go:120-147 | a run that drops the last reference and never destroys the object |
| `RefCount.GoesExactly` | pkg/refsvfs2/refs_template.go:103-147 | the step after which no reference is held or coming destroys the object exactly unless a TryIncRef is about to fail |
| `RefCount.LeaksExactly` | pkg/refsvfs2/refs_template.go:103-147 | in every run whether a dead object is ever destroyed is decided at the moment it dies, by whether a TryIncRef is about to fail then |
| `Flipcall.StepKeeps` | pkg/flipcall/ctrl_futex.go:121-209 | every step of either endpoint or of a Shutdown keeps the invariant |
| `Flipcall.AtMostOneInControl` | pkg/flipcall/futex_linux.go:28-66 | in every run at most one endpoint is active |
| `Flipcall.MessagesInOrder` | pkg/flipcall/flipcall.go:200-264 | in every run each side has read exactly the lengths the other stored, in order, except perhaps the last |
| `Flipcall.NothingUnexpected` | pkg/flipcall/ctrl_futex.go:143-209 | no panic, no unexpected connection state and no invalid length occurs |
| `Flipcall.ShutdownIsFinal` | pkg/flipcall/ctrl_futex.go:195-209 | once shut down the connection stays so |
| `Flipcall.ShutDownOnce` | pkg/flipcall/ctrl_futex.go:157-209 | a local Shutdown leads to exactly one shutdownConn, by its own thread or by the call it found blocked |
| `Flipcall.NobodySleepsThrough` | pkg/flipcall/futex_linux.go:47-66 | a blocked endpoint waits for its peer's turn or is about to be woken, also during a shutdown |
| `FlipcallProgress.Connects` | pkg/flipcall/flipcall.go:186-222 | for every length, Connect and RecvFirst run to the point where each side has received the other's first length and the client has control |
| `FlipcallProgress.MessageArrives` | pkg/flipcall/flipcall.go:223-264 | in every run without a shutdown, five steps of the endpoint in control and at most five of the waiting peer deliver exactly the length sent, and control |
| `FlipcallProgress.CallEnds` | pkg/flipcall/futex_linux.go:47-66 | on a connection that is shut down a call ends after at most nine steps of its own, unless it is blocked, and then the peer is about to wake it |
| `FlipcallProgress.ShutdownEnds` | pkg/flipcall/ctrl_futex.go:157-209 | while no call may block, Shutdown ends after at most four steps, and the connection is shut down or about to be |
| `MerkleLayout.InitLayout` | pkg/merkletree/merkletree.go:66-112 | the loop computes the height and the offset of every level |
| `MerkleLayout.OneRoot` | pkg/merkletree/merkletree.go:92-110 | the top level is the first with at most one digest |
| `MerkleTree.WrittenLength` | pkg/merkletree/merkletree.go:229-309 | each level is written exactly where the layout has it |
| `MerkleTree.Generate` | pkg/merkletree/merkletree.go:229-309 | writes the levels of the tree, padded, and returns the hash of the descriptor |
| `MerkleVerify.VerifyBlock` | pkg/merkletree/merkletree.go:472-518 | the loop accepts exactly the blocks that climb to a root with the expected descriptor hash |
| `MerkleVerify.Verify` | pkg/merkletree/merkletree.go:381-465 | the loop over blocks gives the outcome that the rows on VerifyResult below describe |
| `MerkleVerify.ClimbIsSound` | pkg/merkletree/merkletree.go:472-518 | whatever the tree file holds, a climb to the true root began with the true block |
| `MerkleVerify.BlockIsGenuine` | pkg/merkletree/merkletree.go:472-518 | a block inside the declared size that verifies is that block of the file, with that size, metadata and algorithm |
| `MerkleVerify.ClimbIsComplete` | pkg/merkletree/merkletree.go:472-518 | a true block climbs through the generated tree to the root |
| `MerkleTheorem.VerifyIsSound` | pkg/merkletree/merkletree.go:381-518 | for every file, tree and range up to the last block of the declared size, all bytes written, even by a failing call, are those of the zero-padded file at that offset, and of the file itself where they lie in it |
| `MerkleTheorem.MetadataIsSound` | pkg/merkletree/merkletree.go:352-371 | a zero-length Verify succeeds only for the same algorithm, size and metadata |
| `MerkleTheorem.VerifyIsComplete` | pkg/merkletree/merkletree.go:381-518 | on the untouched file and tree every range inside the file is accepted and written exactly |
| `MerkleRange.VerifyDecides` | pkg/merkletree/merkletree.go:381-465 | Verify of a range succeeds exactly if every block of the range that the file has verifies; then it has written exactly that range of the file and reports its end exactly if the file ends in the last block or before; a failing call has written what comes before the first bad block |
| `MerkleRange.SuccessIsGenuine` | pkg/merkletree/merkletree.go:381-518 | whatever the tree file holds, if Verify of a range succeeds every block read for it is the file's, and a range that is all there is written exactly |
| `MerkleRange.VerifyIffSame` | pkg/merkletree/merkletree.go:381-518 | with the generated tree, Verify of a range succeeds exactly if every block read for it is the file's |
| `MerkleOutside.VerifyIsSoundInRoom` | pkg/merkletree/merkletree.go:381-518 | soundness up to the capacity of the tree, also behind the declared size, if no digest is all zeros |
| `MerkleOutside.ClimbFolds` | pkg/merkletree/merkletree.go:472-518 | a block of any index that verifies is the file's block at that index modulo the capacity |
| `MerkleOutside.FirstRepeat` | pkg/merkletree/merkletree.go:66-144 | in the first capacity behind the room a block verifies only if the second digest of the top block is the root hash |
| `MerkleOutside.RepeatVerifies` | pkg/merkletree/merkletree.go:381-518 | from the second capacity on (the first, for a file of one block), every block of every file can be made to verify at the repeated index |
| `SegmentInsert.RoomInTreeIsMade` | pkg/segment/set.go:739-843 | splitting full nodes keeps the list, the gap's place, node sizes, equal depth and exact gaps, and leaves room in the leaf |
| `SegmentGaps.RefreshIsExact` | pkg/segment/set.go:1036-1078 | updateMaxGapLeaf, with its early exits, makes every cached gap on the path exact |
| `SegmentGaps.InsertInLeafIsExact` | pkg/segment/set.go:413-425 | inserting into a leaf, updating gaps only if the longest gap was split, leaves all cached gaps exact |
| `SegmentRemove.FixMends` | pkg/segment/set.go:851-1030 | rotating from or merging with a sibling keeps the list and the gap's place and repairs the node below |
| `SegmentTree.InsertedIsGood` | pkg/segment/set.go:413-425 | the tree stays a B-tree with exact gaps, the list has the segment at the gap's place, and the iterator names it |
| `SegmentTree.RemovedFromLeafIsGood` | pkg/segment/set.go:454-463 | the same for removal from a leaf through any cascade of merges |
| `SegmentOps.RemovedIsGood` | pkg/segment/set.go:430-463 | the same for removal of any segment, an inner one being replaced by its predecessor |
| `SegmentSplit.SplitTreeIsGood` | pkg/segment/set.go:590-598 | the same for splitting a segment, where the first half is shortened before the second is inserted |
| `SegmentMerge.GrowPrevIsGood` | pkg/segment/set.go:345-388 | extending the segment before a gap keeps the tree good |
| `SegmentMerge.MergeTreeIsGood` | pkg/segment/set.go:505-517 | the same for merging, where the segments overlap until the second is removed |
| `SegmentSearch.NextLargeEnough` | pkg/segment/set.go:1479-1530 | the search finds the nearest later gap of the length, or there is none; the panic on an invalid cached gap cannot happen |
| `SegmentSearch.PrevLargeEnough` | pkg/segment/set.go:1537-1588 | the same backwards |
| `SegmentCursor.FindIn` | pkg/segment/set.go:212-236 | finds the segment that contains the key, or the gap that does |
| `SegmentCursor.NeighboursAre` | pkg/segment/set.go:1309-1335 | the next and previous iterators name the next and previous segment of the list, or are terminal at its ends |
| `SegmentMap.MergeMeansTheSame` | pkg/segment/set.go:505-517 | merging two neighbours maps every key as before |
| `SegmentMap.SplitMeansTheSame` | pkg/segment/set.go:590-598 | splitting a segment maps every key as before |
| `SegmentMap.InsertMergingIsUpdate` | pkg/segment/set.go:345-388 | inserting with merging maps the new keys to the new value and all others as before |
| `SegmentMap.MergeTailMeansTheSame` | pkg/segment/set.go:521-551 | a merging pass maps every key as before |
| `SegmentMap.PassSettlesIff` | pkg/segment/set.go:521-551 | one pass leaves no mergeable neighbours, for every list, exactly when what does not merge with a segment never merges with that segment grown |
| `SegmentSettle.InsertKeepsSettled` | pkg/segment/set.go:345-388 | inserting into a list without mergeable neighbours leaves none, if what does not merge with a segment never merges with it grown on the other side |
| `SegmentSettle.InsertSettlesIff` | pkg/segment/set.go:345-388 | and for all lists exactly then |
| `SegmentSettle.InsertIsInsertThenMerge` | pkg/segment/set.go:336-388 | Insert is InsertWithoutMerging followed by one merging pass over the new segment and its neighbours |
| `SegmentSettle.PassKeepsOutside` | pkg/segment/set.go:538-551 | segments that end before the range or start behind it are not touched by a pass |
| `SegmentSet.Set.constructor` | pkg/segment/set.go:112-123 | an empty set |
| `SegmentSet.Set.Find` | pkg/segment/set.go:212-236 | the segment that contains the key, or else the gap |
| `SegmentSet.FoundIsLookup` | pkg/segment/set.go:212-236 | Find agrees with lookup in the map for every key |
| `SegmentSet.Set.InsertWithoutMergingUnchecked` | pkg/segment/set.go:413-425 | the list gets the segment at the gap, and the iterator names it |
| `SegmentSet.Set.Remove` | pkg/segment/set.go:430-463 | the list loses the segment, and the gap iterator names its place |
| `SegmentSet.Set.SplitUnchecked` | pkg/segment/set.go:590-598 | the segment is replaced by its two parts, which the iterators name |
| `SegmentSet.Set.MergeUnchecked` | pkg/segment/set.go:505-517 | merges exactly if the first ends where the second starts and the merge function has a value; then one segment with both ranges and that value replaces the two, else nothing changes |
| `SegmentSet.Set.Insert` | pkg/segment/set.go:345-388 | the list is the one of inserting and merging with either neighbour, and the iterator names the segment; a set without mergeable neighbours has none afterwards, if the merge function is stable |
| `SegmentSet.Set.Add` | pkg/segment/set.go:299-312 | succeeds exactly when the range is inside the key range and overlaps no segment; then it inserts, and leaves no mergeable neighbours where there were none |
| `SegmentSet.Set.SplitAt` | pkg/segment/set.go:603-609 | splits exactly when a segment straddles the key |
| `SegmentSet.Set.Isolate` | pkg/segment/set.go:615-623 | the list is split at the ends of the range where they cut the segment |
| `SegmentSet.Set.RemoveRange` | pkg/segment/set.go:473-484 | every key of the range is mapped to nothing and every other key as before; for an empty range the keys up to the end of a segment that contains its start go; the gap returned is the one that holds the range |
| `SegmentSet.EmptyRangeRemoves` | pkg/segment/set.go:471-484 | with an empty range nothing changes exactly when no segment contains its start |
| `SegmentSet.Set.MergeRange` | pkg/segment/set.go:538-551 | the list is that of one merging pass over the range; no neighbours with keys in the range touch and merge afterwards, if the merge function is stable |
| `SegmentSet.Set.MergeAll` | pkg/segment/set.go:521-534 | the list is that of one merging pass over all segments; no neighbours touch and merge afterwards, if the merge function is stable |
| `SegmentSet.Set.NextLargeEnoughGap` | pkg/segment/set.go:1479-1530 | the nearest later gap of the length in any valid set, none in an empty one |
| `SegmentSet.Set.PrevLargeEnoughGap` | pkg/segment/set.go:1537-1588 | the nearest earlier gap of the length |
| `SegmentSet.Set.ExportSortedSlices` | pkg/segment/set.go:1685-1696 | exactly the list of segments |
| `SegmentSet.Set.ImportSortedSlices` | pkg/segment/set.go:1705-1718 | succeeds exactly on an empty set and an ordered list, which it then holds: importing an export rebuilds the list |
| `BufferView.View.Append` | pkg/buffer/view.go:209-225 | the bytes are the old ones followed by the new |
| `BufferView.View.Prepend` | pkg/buffer/view.go:166-206 | the bytes are the new ones followed by the old |
| `BufferView.View.TrimFront` | pkg/buffer/view.go:34-40 | drops the first count bytes, all of them if there are fewer |
| `BufferView.View.AdvanceRead` | pkg/buffer/view.go:69-94 | drops exactly count bytes; its panic cannot happen |
| `BufferView.View.Truncate` | pkg/buffer/view.go:102-125 | keeps the first length bytes |
| `BufferView.View.Grow` | pkg/buffer/view.go:132-163 | keeps all bytes and grows to the length, with zeros if asked |
| `BufferView.View.Merge` | pkg/buffer/view.go:274-284 | moves the other view's bytes to the end of this one |
| `BufferView.View.ReadAt` | pkg/buffer/view.go:43-64 | fills p with the bytes at the offset as far as both go, leaves the rest of p, and reports EOF exactly at the end |
| `BufferView.View.ReadToWriter` | pkg/buffer/view.go:345-391 | the writer gets exactly the first count bytes, or as many as it takes; the count returned is right exactly unless the writer fails inside a batch; an error of the writer is reported exactly if the count falls short; count and error follow from the sizes of the buffers alone |
| `BufferView.BatchedExample` | pkg/buffer/view.go:359-370 | buffers of four and eight bytes: a writer that takes nothing is said to have taken eight |
| `BufferView.View.Get` | pkg/buffer/pool.go:44-58 | an empty zeroed buffer of the configured or default size |
| `BlockSeqs.BlockSeq.Head` | pkg/safemem/seq_unsafe.go:151-159 | the first block is not empty and its bytes begin those of the sequence |
| `BlockSeqs.BlockSeq.Tail` | pkg/safemem/seq_unsafe.go:173-194 | keeps the representation invariant; head and tail together are the sequence |
| `BlockSeqs.BlockSeq.TakeFirst` | pkg/safemem/seq_unsafe.go:247-255 | the first n bytes, for every n, in every encoding |
| `BlockSeqs.BlockSeq.DropFirst` | pkg/safemem/seq_unsafe.go:208-233 | all but the first n bytes, for every n; the loop ends |
| `BlockSeqs.Of` | pkg/safemem/seq_unsafe.go:58-71 | the bytes of the block |
| `BlockSeqs.FromSliceLimited` | pkg/safemem/seq_unsafe.go:98-111 | the first limit bytes of the blocks |
| `BlockSeqs.FromSlice` | pkg/safemem/seq_unsafe.go:81-92 | the bytes of all blocks |
| `BlockSeqs.Memory.Copy` | pkg/safemem/block_unsafe.go:197-221 | copies the shorter length and changes no other byte |
| `BlockSeqs.Memory.CopySeq` | pkg/safemem/seq_unsafe.go:276-290 | on disjoint memory copies exactly the first min(length) bytes, changes no other byte, and ends |
| `BlockSeqs.Memory.Zero` | pkg/safemem/block_unsafe.go:224-235 | zeroes exactly the block |
| `PathNodes.PathNode.AddChild` | pkg/p9/path_tree.go:129-146 | adds one name, keeps the two maps inverse |
| `PathNodes.PathNode.RemoveChild` | pkg/p9/path_tree.go:158-180 | removes the name if there is one, keeps the two maps inverse; its panic cannot happen while they are |
| `PathNodes.PathNode.AddPathNodeFor` | pkg/p9/path_tree.go:186-196 | adds one child node; its panic is excluded by its requires |
| `FidTree.DoomedChild` | pkg/p9/server.go:226-251 | the child of a file that a deletion marks is marked |
| `FidTree.DeletionKeeps` | pkg/p9/server.go:241-251 | a deletion keeps the whole invariant, also that below a deleted file everything is deleted |
| `FidTree.MoveMakesNoCycleIff` | pkg/p9/server.go:289-294 | moving a name makes no cycle of path nodes exactly when the target is not below the name |
| `FidRename.UnderIsBelow` | pkg/p9/server.go:272-294 | a file that is not deleted and lies under the references with a name has its node below that name |
| `FidServer.Server.constructor` | pkg/p9/server.go:51-56 | no references, no FIDs, and the invariant |
| `FidServer.Server.DecRef` | pkg/p9/server.go:187-203 | closes the file with its last reference, drops the parent, and so on up; nothing else changes but the names of closed files, and only ancestors close |
| `FidServer.Server.LookupFID` | pkg/p9/server.go:326-335 | the reference of the FID, with one count more |
| `FidServer.Server.InsertFID` | pkg/p9/server.go:341-350 | the FID refers to the new reference and the earlier one is dropped |
| `FidServer.Server.DeleteFID` | pkg/p9/server.go:355-365 | the FID is gone and its reference dropped |
| `FidServer.Server.NotifyDelete` | pkg/p9/server.go:226-236 | marks exactly the references with a name in the subtree |
| `FidServer.Server.MarkChildDeleted` | pkg/p9/server.go:241-251 | the name leads nowhere, and exactly its references and all below are marked |
| `FidServer.Server.RenameChildTo` | pkg/p9/server.go:272-294 | what had the new name is deleted with all below; what had the old name has the target as parent and the new name; its node moves; nothing else changes but closed files |
| `FidServer.Server.DoWalk` | pkg/p9/handlers.go:1172-1280 | succeeds exactly when names, types and backend allow; then the handler holds the end of a chain of new references with these names, or a clone; nothing that was there changes |
| `FidServer.Server.Tattach` | pkg/p9/handlers.go:224-282 | the FID is at the end of a walk from a new root, or nothing that was there changes |
| `FidServer.Server.Twalk` | pkg/p9/handlers.go:1283-1300 | the new FID is at the end of the walk, or nothing that was there changes |
| `FidServer.Server.Tclunk` | pkg/p9/handlers.go:119-124 | the FID is gone and its reference dropped |
| `FidServer.Server.Tlopen` | pkg/p9/handlers.go:292-339 | the file is open exactly when it may be opened and the backend agrees; otherwise the state is as before |
| `FidServer.Server.Tlcreate` | pkg/p9/handlers.go:341-398 | the FID is at a new open child of its directory with the name; otherwise the state is as before |
| `FidServer.Server.Tremove` | pkg/p9/handlers.go:158-214 | exactly the file, its name and all below are deleted if allowed; the FID goes in any case |
| `FidServer.Server.Tunlinkat` | pkg/p9/handlers.go:543-592 | exactly the name and all below are deleted if allowed; otherwise nothing that was there changes |
| `FidServer.Server.Trename` | pkg/p9/handlers.go:595-653 | exactly the rename if allowed, nothing for the same place, otherwise the state is as before; neither of its panics can happen |
| `FidServer.Server.Trenameat` | pkg/p9/handlers.go:490-540 | exactly the rename if allowed, nothing for the same place, otherwise the state is as before |
| `FidServer.Server.Stop` | pkg/p9/server.go:621-629 | the FIDs of the connection are gone and their references dropped |
| `FidServer.Server.Handle` | pkg/p9/handlers.go:119-653 | each message succeeds exactly when its conditions and the backend allow, and then does, or if not does not do, what its handler promises |
| `FidServer.Server.Serve` | pkg/p9/server.go:483-509 | for any messages, the states between them: each follows from the one before by its message; in each the counts are exact, a file is open exactly if a FID refers to it or to a file below it, all others were closed once, names and references are inverse, the path nodes form a tree, and every path as a string leads to its file and never out of the tree |
| `FidTheorem.OpenIffReachable` | pkg/p9/server.go:182-203 | between handlers a file was closed once, unless a FID refers to it or to a file below it, and then never |
| `FidTheorem.AllClosedAtTheEnd` | pkg/p9/server.go:621-629 | without FIDs every file was closed exactly once |
| `FidTheorem.NamesAreInverse` | pkg/p9/path_tree.go:45-52 | the references with a name are those whose name it is, in every node |
| `FidTheorem.WalkPanicsIff` | pkg/p9/handlers.go:1234-1272 | a step of a walk leaves a file on which Trename panics exactly when it starts from a deleted directory |
| `FidStray.DeletedDirectory` | pkg/p9/handlers.go:543-592 | attach, walk and unlink lead to a live deleted directory, and Trename panics on what a walk from it would leave |
| `FidStray.MoveLosesFilesIff` | pkg/p9/server.go:272-294 | after a walk from a directory, moving files under the new one makes a file its own ancestor exactly when one of them is above the directory |
| `FidStray.RingNeverCloses` | pkg/p9/server.go:187-203 | a file that is its own ancestor has more references than FIDs and handlers hold, so that it is never closed |
| `FidStray.LosesFiles` | pkg/p9/handlers.go:1234-1272 | a walk from a deleted directory and a rename after which three files stay open that no FID leads to |
| `FidTheorem.RenameCarriesPaths` | pkg/p9/server.go:272-294 | after a rename the path of every file below the old name has the old part replaced by the new, and every other path is as before |
| `FidPaths.SafeNameIff` | pkg/p9/handlers.go:110-116 | a name is accepted exactly if from every directory, as a path, it leads to the entry with that name |
| `FidPaths.JoinedPathLeads` | pkg/p9/handlers.go:110-116 | joined accepted names, split and resolved from any directory, lead to those names below it and never above the root |
| `FidPaths.MessageKeepsNamesSafe` | pkg/p9/handlers.go:1172-1280 | every message leaves only accepted names |
| `FidPaths.WalkIsResolution` | pkg/p9/handlers.go:1172-1280 | a walk leads from a file to where its names, joined to a path, lead |
| `FidMoves.PathsFollow` | pkg/p9/server.go:272-294 | after every message every file that is not deleted has its old path, except that a successful rename replaces the old path by the new one in all paths that begin with it |
| `FidMoves.NewFileIsThere` | pkg/p9/handlers.go:224-398 | attach, walk and create put their FID at a file with the path of where they start and the names they give |
| `FidMoves.UnderIffPath` | pkg/p9/server.go:272-294 | a file lies below a name in the tree of references exactly if its path begins so |
| `FidDeletion.DeletionIsByPath` | pkg/p9/server.go:226-294 | after every message a file is deleted exactly if it was before, or the message succeeded and the file's path is the removed, unlinked or overwritten one or goes on from there |
| `FidDeletion.DoomedIffPath` | pkg/p9/server.go:226-251 | what a deletion marks in the path tree are exactly the files whose path begins with the deleted one |
| `FidDeletion.MessageKeepsTree` | pkg/p9/path_tree.go:83-107 | every message keeps the path nodes a tree: no node has two parents or two names |
| `FidDeletion.DeletedIsDead` | pkg/p9/handlers.go:158-653 | on the FID of a deleted file no walk, open, create, remove, unlink or rename succeeds |
| `FidNeeds.SucceedsExactly` | pkg/p9/handlers.go:119-653 | a message succeeds exactly if its names are accepted, its FIDs are there, each is at a directory, not deleted, not open or not a root where the message needs that, and the backend agrees |
| `FidDeletion.OpensOnce` | pkg/p9/handlers.go:292-339 | after a successful Open the FID cannot be opened, walked from or created in |

## Left out

- Segment nodes are values and iterators are coordinates: updates in place,
  parent and parentIndex links and iterators kept across updates are not
  modelled; loops up the parents are recursion on the way back.
- Segment keys are integers: unsigned keys and their wrap-around are not
  modelled, and nothing is stated about gap lengths computed while segments
  overlap.
- Set: SetRange, SetStart, SetEnd, ApplyContiguous, MergeAdjacent, Span and the
  other iteration helpers are not modelled.
- SegmentSet.Set.Add: requires a range of keys from the smallest allowed one on,
  as the source's key functions do.
- SegmentSet.Set.ImportSortedSlices: requires each range of the list to be well
  formed, where the source panics.
- Labels are values of a datatype, one constructor per label format, instead of
  formatted strings.
- SeccompFilter.BuildProgram: requires some call number if there is a rule set,
  where the source panics.
- Exec: the exchange of Tax and Txa against the text decoder is kept as the code
  has it; the decoder is not modelled.
- Installing a filter, the prctl and seccomp calls are not modelled.
- Sleep: one sleeper is modelled; wakers that move on to another one after Done
  and the result of Clear are not.
- AbortableMutex: the counter is an integer; 32-bit wrap-around is not modelled.
- RefCount: runs with 2^32 or more references, or 2^31 - 1 or more threads, are
  not covered; leak checking and logging are not modelled.
- Flipcall: the connection handshake's JSON, the packet window memory, and
  endpoints that do not follow the protocol are not modelled.
- Merkle: hashing and the descriptor's text are an arbitrary hash with no
  collision between what is hashed in the two calls and an encoding with one
  preimage; sizes are unbounded and not negative.
- Memory ordering weaker than sequential consistency is not modelled.
- BufferView: buffers are values in a list, since each belongs to one view;
  WriteFromReader, Flatten, Copy and Apply are not modelled; lengths are
  unbounded.
- BufferView.View.Merge: requires another view; with itself the source's loop does
  not end.
- BufferView.View.Get: a pool is its buffer size; its embedded buffers and the
  slice of available ones, which only save allocations, are not modelled.
- BlockSeqs.Memory.Copy: faults of safecopy and overlapping memory are not
  modelled.
- BlockSeqs.Memory.Zero: faults of safecopy are not modelled.
- BlockSeqs: ZeroSeq, NumBlocks and the conversion to iovecs are not modelled;
  lengths are unbounded.
- The 9P server: handlers run one at a time, so locks, tags and channels are not
  modelled; references and path nodes are entries of two tables in one class.
- The 9P server: Renamed notifications, handlers that change no FID and no path
  (reads, writes, attributes, links) and the contents of messages are not
  modelled.
- FidServer.Server.Trename: requires that the backend refuses to move a directory
  into itself.
- FidServer.Server.Trenameat: requires the same.
- FidServer.Server.DoWalk: fails on a deleted directory, which stands for the
  backend refusing it; `FidStray` has what happens otherwise.
- FidServer.Server.Twalk: the same.
- FidServer.Server.Serve: the same, and renames as in Trename.
