# xynq: a verified model

xynq is an in-memory object server. Clients send S-expressions, which a streaming lexer turns into
events, a compiler into flat stack code, and a small machine into results. Fibers running on worker
threads serve the connections; a shared registry holds user-defined record types; records are written
field by field and printed as JSON; scratch memory comes from a bump allocator. This project models
those parts in Dafny and proves what they are there to guarantee.

`dafny verify dfyconfig.toml` checks everything.

## The parts

| modules | what they model |
|---|---|
| `Slang`, `LexerSpec`, `Stream`, `Lexer` | the lexer as a class over a refillable buffer, proved against an abstract character machine |
| `RoundTrip`, `SingleExpr`, `LexerLaws` | printing and lexing back; single-expression runs one after another; gaps, refusals, escapes and tags |
| `Compiler`, `Program`, `SlangRun` | compiler callbacks, stack machine, tree evaluator, and the whole path from text to outcome |
| `Numbers` | decimal printing and parsing of 64-bit integers |
| `Tasks`, `Queues`, `Wakeups`, `Shutdown`, `Semaphore` | the fiber task system as a step relation over workers, rings, registrations and the wake-up counter; its queues, requests and shutdown |
| `TypeVault`, `List` | the type registry's locking protocol and caches; the list beneath it |
| `Bits`, `Layout`, `StructDefs`, `Records`, `Json` | mask arithmetic, record layout, `defstruct`, the field writer, the serializer |
| `ScratchAllocator` | arenas, aligned allocation, purge and scopes |
| `LinkedStack`, `Ring` | the lock-free stack under interleaving; the ring with wrapping counters |
| `Config` | the key-flattening handler of lexer events |

Sequential objects are classes whose methods are proved against specification functions; concurrent
protocols are step relations, one atomic action a step, and their theorems quantify over all runs.
Called functions are an arbitrary function of their number, arguments and a world, so nothing is
assumed about them but that they cannot push frame barriers. A world may hold any choices they make.

## What the proofs found out about the code

* An op-less group such as `()` pushes a barrier that no call removes; a program leaves exactly as
  many barriers behind as it has such groups (`Compiler.LeftoverBarriers`).
* A comment right behind a term becomes part of the term, and a term outside any group is refused, except at the
  end of the data, where it goes unnoticed (`LexerLaws.CommentsStickToTerms`, `LexerLaws.TermsNeedAGroup`).
* The comment in `source/types/type_vault.h:101` says the exclusive lock avoids duplicated names, but
  the check consults the vault's own, possibly stale cache. `TypeVault.NamesCanBeDuplicated` is a run that
  links a second type of one name, and `TypeVault.AskingFirstDoesNotHelp` one that `defstruct` can take although
  it asks first; `TypeVault.LinkKeepsNamesDistinct` says exactly when names stay distinct.
* A lookup can answer with something that was true of the list at no moment of the call, because a creator
  links its type in before it clears the flags (`TypeVault.RawListCanBeAhead`).
  `TypeVault.LookupIsSomeMoment` gives the exact condition.
* A struct without fields has alignment 0, and aligning to 0 gives the null pointer. The walks over
  absolute addresses agree with `defstruct` exactly when no field has such a type (`Layout.WalksAgree`).
* `ptr_aligned + size` wraps at 64 bits, so a request near 2^64 is granted and moves the cursor back over
  live bytes (`ScratchAllocator.OversizedRequestOverlaps`). `Arena::Create` does not check what the system gave,
  so after a refused growth the allocator returns null and then small addresses
  (`ScratchAllocator.RefusedGrowthServesNull`). `IsValidAlignment` accepts 0, for which the result is null
  unless a new arena is granted (`ScratchAllocator.ZeroAlignmentIsNull`). Blocks are inside granted memory
  exactly when none of the three happens (`ScratchAllocator.SafeExactlyWhenModest`).
* A node of the lock-free stack may be pushed again exactly when no pop still holds it as the top it saw
  (`LinkedStack.ReuseSafeExactlyWhenUnheld`).
* Once all workers are told to stop, they finish on their own exactly when one is awake or the wake-up counter
  is up, so a stop request needs the interrupt that follows it (`Shutdown.ShutdownCompletesExactlyWhenLively`).
* The ring is right over unbounded runs exactly when its capacity divides 2^32 (`Ring.CapacityCondition`).
* `PushFront` on an empty list keeps whatever link the node came with (`List.List.PushFront`).
* A bare identifier other than yes and no takes two nodes of a config list, and a list that begins with
  one is not stored at all (`Config.OneNodePerLeaf`, `Config.StoredUnlessWordFirst`).
* A task queued onto a full ring is dropped, a second waiter on an event source replaces the first, and removing a source
  strands its waiter; nothing else loses tasks (`Tasks.LostOnlyByLosing`, `Tasks.NothingLostWhileCalm`).

## Model

| member | source | states |
|---|---|---|
| `Compiler.CompilerCorrect` | source/slang/compiler.cc:11-42 | For every tree without op-less groups, every function behaviour, world and starting stack, the reversed flat code leaves the old stack plus exactly the tree evaluator's outputs, with the evaluator's world, or aborts in the world of the first failing call; operands run right to left and a nested call's outputs are seen reversed |
| `Compiler.EmitForest` | source/slang/compiler.cc:26-68 | The callbacks accept an event stream exactly when every operation is known, and then append exactly call, operands and frame barrier of each group; otherwise they report the first unknown name |
| `Compiler.RunOne` | source/slang/program.cc:23-61 | The same in any continuation: after a tree's code the machine goes on with the following code on the stack the evaluator prescribes, or has aborted |
| `Compiler.RunArgs` | source/slang/program.cc:33-51 | Operand code leaves the operands' outputs so that the frame, read from the top, shows them in text order |
| `Compiler.FrameShowsArguments` | source/slang/call.h:77-116 | A frame pushed over a barrier is seen in reverse push order, and purging it restores exactly the stack below the barrier |
| `Compiler.CompiledBalanced` | source/slang/compiler.cc:38-42 | Compiled code of any forest never calls a function without a barrier below its arguments |
| `Compiler.LeftoverBarriers` | source/slang/lexer.h:371-375 | A finished program leaves one barrier on the stack per op-less group, hence none exactly when there is no such group |
| `Compiler.CodeBuilder.Feed` | source/slang/compiler.cc:26-82 | The object whose methods append instructions, driven by any stream of events, ends as the callback function does; on the events of a forest it accepts exactly when every operation is known and has then appended the forest's flat code |
| `Compiler.NamesArePushed` | source/slang/compiler.cc:61-68 | The callback for names pushes a colon and at least one character more as the field name without the colon, and every other name as text |
| `Compiler.CallSeesOperands` | source/slang/compiler.cc:44-68 | A call with literal operands calls its function with exactly the values they denote, from left to right, and leaves its outputs on the old stack, or aborts |
| `Program.CollectArgs` | source/slang/call.h:77-116 | Walking the iterator from the top of the stack to its end yields exactly the cells above the nearest barrier, topmost first |
| `Program.PurgeStackFrame` | source/slang/program.cc:11-19 | Cuts the stack at the nearest barrier, and leaves a stack without barriers alone |
| `Program.Program.Execute` | source/slang/program.cc:23-67 | The instruction-pointer loop computes the outcome of the small-step function: final stack and world, or the world at the first failing call |
| `SlangRun.AcceptedTextIsBalanced` | source/slang/program.cc:33-46 | Whatever text the lexer and compiler accept, every call of the resulting program finds its own frame barrier |
| `SlangRun.Build` | source/slang/compiler.cc:11-24 | Building from a chunked reader gives the program, or the error, of the remaining text, and leaves the same text unread |
| `SlangRun.Execute` | source/slang/slang.cc:23-41 | Executing from a chunked reader depends only on the remaining text; a compile error executes nothing |
| `SlangRun.ExecutePrinted` | source/slang/slang.cc:23-41 | A printed expression followed by any text executes as the tree evaluator says and leaves exactly that text; an unknown operation executes nothing |
| `SlangRun.ExecuteCall` | source/slang/slang.cc:23-41 | From the text: a printed call with literal operands, followed by anything, calls its function with the values they denote and leaves exactly what follows |
| `SlangRun.FieldNameReachesFunction` | source/slang/compiler.cc:61-64 | A call whose operand is written as a colon and a name gives its function the field name without the colon |
| `Lexer.Lexer.Run` | source/slang/lexer.h:204-354 | Handler state, result with error position, and unread text are a function of the reader's remaining text alone, for every division into non-empty chunks and both stop modes |
| `Lexer.Lexer.Step` | source/slang/lexer.h:218-337 | One character, with the detours into comments and payloads, moves the object as the abstract machine moves |
| `Lexer.Lexer.FinalizeTerm` | source/slang/lexer.h:356-438 | Ends an open term, saved or still buffered, reporting exactly the abstract machine's event and error, without disturbing unread characters |
| `Lexer.LexerState.RefillBuffer` | source/slang/lexer.h:75-88 | A refill keeps the open term whole: its saved part plus the new buffer still spell it, and no text is lost |
| `Lexer.LexerState.NextChar` | source/slang/lexer.h:66-73 | Delivers the characters of the remaining text in order and NUL only at its end, the open term growing by each |
| `Lexer.LexerState.Term` | source/slang/lexer.h:113-122 | The term handed out is the whole open term, whichever part of it was saved before a refill |
| `Lexer.ParseString` | source/slang/lexer.cc:83-108 | In-place unescaping yields the unescaped text, writes only at or before what it has read, and touches nothing outside the literal |
| `RoundTrip.EventsRoundTrip` | source/slang/lexer.h:204-438 | Lexing a printed forest of legal names, 64-bit integers, identifiers and NUL-free strings succeeds with exactly its preorder events and nothing unread |
| `RoundTrip.LexPrinted` | source/slang/lexer.h:260-263 | In single-expression mode a printed group followed by any text is delivered event for event to any handler and the run stops right behind it, or fails as the handler does |
| `RoundTrip.LexLines` | source/slang/lexer.h:204-438 | A printed file is delivered event for event to any handler, and the run fails exactly when the handler refuses an event |
| `RoundTrip.UnescapeEscape` | source/slang/lexer.cc:83-108 | Unescaping undoes escaping for every text |
| `SingleExpr.SingleThenRest` | source/slang/lexer.h:245-265 | A single-expression run followed by an ordinary run on what it left equals one ordinary run, up to line and column of an error |
| `SingleExpr.RepeatedIsWhole` | source/main/endpoint.cc:54-57 | Repeated single-expression runs on one stream deliver what one run over the whole text delivers: same handler state, same verdict and message, same text left |
| `SingleExpr.StopsAtBalance` | source/slang/lexer.h:255-263 | On any NUL-free text a single-expression run that succeeds before the end has stopped exactly where the nesting depth first comes back to zero, and it stops there whenever there is such a place |
| `SingleExpr.BalanceEndsInParenthesis` | source/slang/lexer.h:245-265 | What such a run consumed is a prefix of the text that ends in a closing parenthesis |
| `SingleExpr.PositionIrrelevant` | source/slang/lexer.h:124-126 | Line and column influence nothing but the position in an error |
| `LexerLaws.GapsAreFree` | source/slang/lexer.h:311-335 | Wherever the lexer stands outside a term, blanks, line ends and comments may be put in or left out: handler, outcome and unread text stay the same, up to the position of an error |
| `LexerLaws.GapsAreSilent` | source/slang/lexer.h:311-335 | Reading blanks and comments outside terms says nothing to the handler and moves only the position |
| `LexerLaws.BlanksAreAlike` | source/slang/lexer.h:324-330 | Tab, carriage return and line end close a term as a space does |
| `LexerLaws.CommentsStickToTerms` | source/slang/lexer.h:311-323 | A comment right behind a term becomes part of the term |
| `LexerLaws.OperandsAreRead` | source/slang/lexer.h:391-420 | An operand is reported as the integer it spells, else as the double it parses to, else as itself |
| `LexerLaws.OperationNames` | source/slang/lexer.h:370-389 | A name made of anything but letters, the allowed signs and digits, or starting with a digit, is refused with its text, and a handler's refusal is reported in its words, both at the column behind the name |
| `RoundTrip.LegalOpIsOpName` | source/slang/lexer.cc:11-41 | The names the check accepts are exactly those made of the listed letters, signs and digits that do not start with a digit |
| `LexerLaws.FailuresAreLocated` | source/slang/lexer.h:124-126 | Every failure names line and column right behind the last character read, or the next line's start where the data ends inside a comment |
| `LexerLaws.ParenthesesMustMatch` | source/slang/lexer.h:245-265 | Unless something was refused before, a text that leaves parentheses open fails at its end, one that closes too many fails right there, and a balanced one succeeds |
| `LexerLaws.TermsNeedAGroup` | source/slang/lexer.h:364-366 | A term outside any group is refused by what ends it, but goes unnoticed at the end of the data |
| `LexerLaws.StringsMustClose` | source/slang/lexer.h:346-350 | A text that ends inside a string literal fails at its end |
| `LexerLaws.UnescapeMarked` | source/slang/lexer.cc:83-108 | Unescaping takes one backslash off every character that has one, needed or not, and changes nothing else |
| `LexerLaws.TagsAreTokens` | source/slang/lexer.h:283-309 | A payload tag of up to four characters reaches the handler as one number, most significant character first |
| `LexerLaws.LongTagsAreRefused` | source/slang/lexer.h:283-309 | A tag without its bracket within five characters is refused |
| `Stream.StreamReader.RefillAvailable` | source/base/stream.cc:80-89 | Drops what is buffered and shows the next chunk; at the end of the stream nothing is available |
| `Stream.StreamReader.ReadAvailableCharUnsafe` | source/base/stream.h:202-205 | Takes the first character of the remaining text |
| `Stream.StreamWriter.WriteData` | source/base/stream.cc:116-136 | Sent plus buffered text grows by exactly the data; when the transport fails, what left it is a prefix of what was to be written |
| `Stream.StreamWriter.Flush` | source/base/stream.cc:142-146 | Moves the buffered text to the transport, or loses it if the transport refuses |
| `Numbers.UIntToStr` | source/base/str_build_types.cc:36-54 | The back-to-front digit loop fills exactly the returned length with the decimal digits and nothing around them |
| `Numbers.IntToStr` | source/base/str_build_types.cc:56-63 | The same for signed values including the most negative, within the 24 characters reserved by the caller |
| `Numbers.CountDigits` | source/base/str_build_types.cc:11-20 | The number of decimal digits of a positive value |
| `Numbers.WrappingNegation` | source/base/str_build_types.cc:59-59 | Negating with 64-bit wrap-around and reading the result as unsigned gives the magnitude, also of the most negative value |
| `Numbers.IntRoundTrip` | source/slang/lexer.cc:45-62 | Every 64-bit integer printed is parsed back to itself |
| `Numbers.ParsesExactly` | source/slang/lexer.cc:45-62 | A term parses to v exactly when it is optional white space, at most one sign and digits, of at most 63 characters in all, with value v in the 64-bit range |
| `Numbers.DecimalIsValued` | source/base/str_build_types.cc:36-54 | Printed digits have the printed value and no leading zero |
| `Tasks.TasksAreSomewhereOnce` | source/task/worker_thread.cc:70-104 | In every reachable state a live task is in exactly one place, a place determines its state, and an executing task is the current task of the thread it names, even when rings overflow into the dropped bucket |
| `Tasks.StepKeepsInv` | source/task/worker_thread.cc:182-236 | Every step of every worker, the manager or the event queue keeps conservation and all state agreements |
| `Tasks.StepConserves` | source/task/worker_thread.cc:112-148 | Every step moves tasks between rings, registrations, batches, hands and the dropped bucket without losing or doubling any |
| `Tasks.ExecutingIsCurrent` | source/task/task.cc:5-36 | An executing task is in the hand of the one worker it says it runs on |
| `Tasks.LostOnlyByLosing` | source/task/worker_thread.cc:118-126 | Nothing is dropped in a run exactly when no step queues onto a full ring, and none registers on a source, or removes one, that has a waiter |
| `Tasks.LossOfStep` | source/event/epoll/event/eventqueue.cc:68-74 | Each such step loses exactly one task, every other step none |
| `Tasks.RemoveMoves` | source/event/epoll/event/eventqueue.cc:81-90 | Removing an event source moves its waiter, if any, to the dropped bucket and no other task |
| `Tasks.PostMoves` | source/task/worker_thread.cc:201-223 | Acting on the request a task left when it stopped moves that task to a registration, a ring or the dropped bucket, or ends it, and moves no other |
| `Wakeups.ParkedRingsAreEmpty` | source/event/epoll/event/eventqueue.cc:92-126 | A worker parked in Wait has an empty ring, unless it was never woken; then the wake-up counter is up or another worker has woken and is bound to scan this ring |
| `Wakeups.StepStrandsNone` | source/task/worker_thread.cc:29-35 | Every step keeps that no queued task is left with nobody bound to come for it |
| `Wakeups.ShutdownIsComplete` | source/task/task_manager.cc:70-86 | Once StopInternal returns on one worker, every worker has left its loop and no task executes |
| `Shutdown.ShutdownCompletesExactlyWhenLively` | source/task/task_manager.cc:57-86 | In every reachable system whose running flags are all clear, the workers can bring every StopInternal to its end on their own, with tasks that return when they run, exactly when some worker is awake or the wake-up counter is up; that is what the interrupt of Stop and of each pass provides |
| `Shutdown.WorkIsBounded` | source/task/worker_thread.cc:70-108 | For every schedule: once every running flag is clear, the steps of the workers in a run, passes over the workers apart, number at most the rank it starts from and a constant for each time a task spawns, waits or yields |
| `Shutdown.StepRank` | source/task/worker_thread.cc:70-108 | With all running flags clear every step lowers the rank, except passes, requests and removals, which leave it or lower it, and a task going on, which adds at most the number of workers and eight |
| `Semaphore.WaitersNeedAllSignals` | source/task/task_semaphore.cc:13-24 | With at most n signals begun, a waiter gets through exactly when all n have completed |
| `Semaphore.NoAlarmNoEarlyPass` | source/task/task_semaphore.cc:13-24 | Until more than n signals begin, the assertion in Signal never fails and nobody passes before the n-th signal |
| `Semaphore.ExtraSignalBlocks` | source/task/task_semaphore.cc:13-16 | For every 32-bit count one signal too many wraps the counter, and waiters spin on |
| `Tasks.NothingLostWhileCalm` | source/task/worker_thread.cc:118-126 | From start-up nothing is ever dropped, provided live tasks never outnumber the slots of a ring, no source gets a second waiter and none is removed under its waiter |
| `Queues.RingMoves` | source/task/worker_thread.cc:118-148 | Every step leaves a ring alone, appends exactly the task it queues unless the ring is full, or takes the oldest task off and in hand |
| `Queues.FirstInFirstOut` | source/containers/MRSWRing.h:16-50 | Over every run, a task at index i of a ring is moved up only by tasks taken before it, and exactly i are taken before it |
| `Queues.TakenInOrder` | source/task/worker_thread.cc:136-145 | When i tasks have been taken since a task stood at index i, it is that task the next taker has in hand |
| `Queues.YieldingComesLast` | source/task/worker_thread.cc:201-223 | A task that yields comes after everything queued on its worker, which goes on with the oldest task there |
| `Queues.WaitTakesEffect` | source/task/task_context.cc:17-34 | Whatever others do meanwhile, a task that waits ends up suspended and registered on that very source and on no other |
| `Queues.YieldTakesEffect` | source/task/task_context.cc:46-53 | A task that yields ends up suspended at the end of its worker's ring |
| `Queues.EndTakesEffect` | source/task/worker_thread.cc:201-241 | A task that returns or exits is gone and no other is; after Exit its worker has been told to stop |
| `Queues.FireDelivers` | source/event/epoll/event/eventqueue.cc:92-116 | Waiting delivers exactly the tasks registered on the fired sources, in the order of the events, and takes off those registrations only |
| `Queues.BatchIsQueued` | source/task/worker_thread.cc:73-83 | The tasks of a batch are queued whole and in order |
| `Queues.NoSpuriousWake` | source/event/epoll/event/eventqueue.cc:105-126 | After a drain nobody wakes without an event or a signal until somebody interrupts again |
| `Queues.FreshUntilRun` | source/task/worker_thread.cc:92-103 | A task counts as not started from its spawn until it is first given control, and never again |
| `Queues.SpawnWakesOthers` | source/task/task_context.h:61-74 | Behind a spawn its task can do nothing but interrupt, whatever others do meanwhile, and then every parked worker can wake |
| `Queues.EventRunsTask` | source/task/worker_thread.cc:70-103 | When an event fires on a parked worker with an empty ring, the worker's own steps lead to the waiting task executing on it |
| `Queues.IdleWorkerParks` | source/task/worker_thread.cc:70-104 | A worker that finds every ring empty is back in Wait after one scan, unless it has been told to stop |
| `TypeVault.LookupIsSomeMoment` | source/types/type_vault.cc:21-35 | In every continuation FindSchema answers with the first match in the shared list as it stood at some moment of the call, exactly when at the call the vault's flag is clear or no type of that name is linked in but not yet published |
| `TypeVault.LookupIsPublishedMoment` | source/types/type_vault.cc:21-35 | Without any condition the answer is the first match in the published part of the list as it stood at some moment of the call, and that moment is exhibited |
| `TypeVault.StaleAnswersNoMoment` | source/types/type_vault.cc:22-34 | Whenever that condition fails, asking at once gives an answer that matches the list at no moment of the call |
| `TypeVault.LinkKeepsNamesDistinct` | source/types/type_vault.h:99-127 | A creation that links its type in keeps the names of the list distinct exactly when, as it takes the exclusive lock, its vault's cursor has not stopped short of a type of that name |
| `TypeVault.CurrentVaultNeverDuplicates` | source/types/type_vault.h:101-111 | A vault whose flag is set when it takes the exclusive lock never duplicates a name |
| `TypeVault.NamesCanBeDuplicated` | source/types/type_vault.h:106-111 | A concrete run of CreateSchema in a cold vault that links in a second type of the same name |
| `TypeVault.AskingFirstDoesNotHelp` | source/main/slang_env.cc:112-135 | A run defstruct can take from an empty registry: both vaults look the name up and find nothing, one defines it and releases the lock, and the other still links a second type of the name |
| `TypeVault.NeverReentered` | source/types/type_vault.h:99-129 | Lookups made inside CreateSchema never ask for the lock it holds |
| `TypeVault.ResolvedForever` | source/types/type_vault.cc:21-35 | A name once resolved by any vault resolves to the same schema in every vault, for ever |
| `TypeVault.SchemaGraphIsAcyclic` | source/types/type_vault.h:113-126 | In every reachable registry fields refer only to types strictly earlier in the list |
| `TypeVault.CreatesWhatWasAsked` | source/types/type_vault.h:99-129 | In every run, what a call of CreateSchema links in has the name asked for and as many fields, and the type of each is the first of the name given for it in the list as it stands then |
| `TypeVault.GivesUpWhenUnknown` | source/main/slang_env.cc:155-159 | A creation gives up on a field exactly when its vault's part of the list has no type of that name, and otherwise takes the first |
| `TypeVault.StepKeepsInv` | source/types/type_vault.cc:86-104 | Every lock, flag, list and cache step of any vault keeps each cache the index of a prefix of the list, and dirty when that prefix is short |
| `TypeVault.RawListCanBeAhead` | source/types/type_vault.cc:86-98 | A concrete run in which a vault misses a type that is already linked in all through its call, because flags are cleared after linking |
| `TypeVault.StepGrows` | source/types/type_vault.cc:86-92 | The list only ever grows at its end |
| `List.List.PushBack` | source/containers/list.h:54-63 | Appends the node and ends the list behind it |
| `List.List.PushFront` | source/containers/list.h:65-73 | Puts the node first; on an empty list the links end behind it exactly when the node came without a link of its own |
| `List.List.PushListFront` | source/containers/list.h:75-86 | Puts another list's nodes in front, keeping order and the end of the links |
| `List.List.PopFront` | source/containers/list.h:88-99 | Removes and returns the first node, or none from an empty list |
| `List.List.Collect` | source/types/type_vault.cc:24-29 | A cursor at any visited node, or none, continues over exactly the nodes behind it |
| `Bits.AlignPtrRoundsUp` | source/types/schema.h:49-57 | For powers of two the mask expression rounds up to the next multiple, unless the 64-bit sum overflows |
| `Bits.AlignZeroIsNull` | source/types/schema.h:49-57 | For alignment zero the mask expression is null whatever the pointer |
| `Bits.ValidAlignments` | source/base/allocator.h:85-87 | The validity test accepts zero and the powers of two and nothing else |
| `Bits.AlignedMeansMultiple` | source/types/schema.h:44-47 | For powers of two the mask test is divisibility |
| `Layout.WalksAgree` | source/types/schema.h:49-67 | The walk from any aligned non-null address finds base plus the offset of `defstruct` for all fields exactly when no field's type has alignment zero |
| `Layout.AddressShift` | source/storage/object_writer.cc:63-78 | The aligned absolute address of a field is base plus its ordinary-arithmetic offset |
| `Layout.FieldsInPlace` | source/main/slang_env.cc:161-173 | Fields are aligned, in order without overlap, and inside the recorded size |
| `Layout.SizeIsPaddedEnd` | source/main/slang_env.cc:169-173 | The recorded size is the least multiple of the recorded alignment that holds all fields |
| `Layout.LeavesAtOffsets` | source/json/json_serializer.cc:61-88 | For every type without an empty struct in it, and every aligned base, the serializer's absolute addresses are base plus the offsets from address 0, at every depth |
| `Layout.LeavesInside` | source/json/json_serializer.cc:61-88 | For every such type all basic values visited, at every depth, are aligned, pairwise disjoint and inside the object |
| `StructDefs.TypeRegistry.DefStruct` | source/main/slang_env.cc:102-178 | Appends exactly the struct the arguments define, or leaves the registry alone with the first error in argument order |
| `StructDefs.TypeRegistry.FillFields` | source/main/slang_env.cc:136-167 | The second pass never overruns the storage sized by the first, fills it exactly on success, and its running totals are the layout walk |
| `StructDefs.DefinesAsWritten` | source/main/slang_env.cc:102-175 | A definition is accepted exactly when it is a new name and then pairs of a field name and a known type name; the struct has that name and those fields; otherwise the error is that of the first argument that does not fit |
| `StructDefs.BuiltInTypes` | source/types/basic_types.cc:21-32 | intN and uintN are the signed and unsigned integers of N bits, float and double take 4 and 8 bytes, and these are all the types the server starts with |
| `StructDefs.DefineKeepsRegistered` | source/main/slang_env.cc:129-175 | Every accepted definition keeps all schemas laid out by the walk and all names resolving as before, and resolves to the new type |
| `StructDefs.DefineKeepsSound` | source/main/slang_env.cc:131-173 | An accepted struct can be laid out exactly when it has a field, its size does not overflow and its fields' types can be laid out; no earlier type changes in this respect |
| `StructDefs.ReachableRegistries` | source/main/main.cc:276-287 | From the types registered at start-up, any calls of `defstruct`, accepted or refused, lead to a registry of numeric types laid out by the walk; each type can be laid out exactly when no struct in it is empty and no size in it overflows, whatever else the registry holds |
| `StructDefs.SoundnessCondition` | source/main/slang_env.cc:131-173 | In any registered list a type can be laid out exactly when, at every depth, no struct in it is empty and no size overflows |
| `StructDefs.CallsKeepSoundness` | source/main/slang_env.cc:102-178 | Later calls leave every type in the list as it is, and as able to be laid out as it is |
| `Records.NumericCanBeWritten` | source/storage/object_writer.cc:80-92 | In a registry of numeric types a write succeeds exactly when the field exists and is no record, and the width assertion never fails |
| `Json.NumericIsPrintable` | source/json/json_serializer.cc:71-80 | Every record of a registry of numeric types can be printed |
| `Records.ObjectWriter.FindDataStore` | source/storage/object_writer.cc:63-78 | Finds the first field of the name at base plus its `defstruct` offset, or nothing |
| `Records.ObjectWriter.WriteTyped` | source/storage/object_writer.cc:80-92 | Replaces exactly the bytes of that field; unknown and nested fields are refused with nothing written |
| `Records.ReadsLastWrite` | source/storage/object_writer.cc:25-48 | After any writes each integer field reads its last value reduced modulo 2^(8*size) into its range, and fields not written, or shadowed by an earlier one of the same name, keep their bytes |
| `Records.WriteIsLocal` | source/storage/object_writer.cc:80-92 | A write changes the bytes of the first field of the name and of no other |
| `Records.WriteTouchesNothingElse` | source/storage/object_writer.cc:80-92 | Outside the bytes of the field it finds a write changes nothing, padding included, and a refused write nothing at all |
| `Records.ReducedIsRepresentative` | source/json/json_serializer.cc:112-147 | The reduced value is in the type's range, congruent to the original, and equal to it when that fits |
| `Records.DecodeEncode` | source/storage/object_writer.cc:31-43 | Storing and loading n bytes is reduction modulo 256^n |
| `Records.EncodedBytes` | source/storage/object_writer.cc:25-48 | The image of an integer holds its bytes, the lowest first |
| `Records.BufferSuitsType` | source/storage/object.h:19-21 | The buffer's 128-byte alignment suits every type that can be laid out |
| `Records.WrittenIntegerReadsBack` | source/storage/object_writer.cc:25-48 | An integer of either sign written last reads back in the field type's range, congruent to what was written, and equal to it when the type can hold it |
| `Json.JsonSerializer.WriteObject` | source/json/json_serializer.cc:61-88 | The recursive pointer walk ends and writes the object as the `defstruct` offsets describe it, for every type that can be laid out; its alignment assertion holds |
| `Json.JsonSerializer.WriteBasicValue` | source/json/json_serializer.cc:90-148 | Prints a loaded integer of any width, sign-extended when signed |
| `Json.PrintsLastWrite` | source/json/json_serializer.cc:111-148 | The text printed for an integer field is that of the last value written to it, reduced to its type |
| `Json.PrintsAllLastWrites` | source/json/json_serializer.cc:61-88 | A record of integers prints in braces, in order and with commas between, each name in quotes with a colon and the last value written, reduced to the field's type |
| `Json.RecordText` | source/json/json_serializer.cc:61-88 | Any record prints as its fields in braces with a comma and a space between each two |
| `ScratchAllocator.SafeExactlyWhenModest` | source/base/scratch_allocator.cc:39-65 | A run hands out, at every depth, only blocks inside arenas the system granted exactly when no request in it is larger than the address space, no growth along it is refused, and alignment zero is asked for only where a new arena is granted |
| `ScratchAllocator.SafeExactlyWhenSane` | source/base/scratch_allocator.cc:39-65 | One allocation, for every valid alignment, zero included, and every size: the block lies inside granted memory exactly when the request is no larger than the address space, its growth, if any, is not refused, and alignment zero comes with a new arena; then the chain stays in order |
| `ScratchAllocator.RefusedGrowthServesNull` | source/base/arena.h:18-27 | A failing input of modest size: a request whose growth is refused is answered with null, and the next one of the same size with a small address no system ever gave, because the arena made of null passes for memory |
| `ScratchAllocator.SafeUnlessWrapped` | source/base/scratch_allocator.cc:44-62 | For an alignment other than zero and a growth that is not refused, the block lies inside granted memory exactly when the 64-bit sum in the loop's condition overflowed at no arena visited |
| `ScratchAllocator.OversizedRequestOverlaps` | source/base/scratch_allocator.cc:44-64 | For any alignment, a request that much short of 2^64 right behind a live block of that size is granted outside the arena and moves the cursor back over the live block, which the next allocation hands out again |
| `ScratchAllocator.LiveBlocksAreSafe` | source/base/scratch_allocator.cc:39-74 | After any run, with purges and nested scopes, of requests no larger than the address space none of whose growths is refused, live blocks are aligned, inside one granted arena each, and pairwise disjoint |
| `ScratchAllocator.RunKeeps` | source/base/scratch_allocator.h:53-61 | Every run that hands out only granted memory keeps the arena chain in order and all live blocks packed below the cursor, older ones included |
| `ScratchAllocator.DoublingFits` | source/base/scratch_allocator.cc:47-47 | Doubling the total reserved never overflows 64 bits |
| `ScratchAllocator.OlderBlocksSurvive` | source/base/scratch_allocator.h:53-61 | A run ends the blocks made before it exactly when a purge occurs in it at some depth |
| `ScratchAllocator.ScopeRestores` | source/base/scratch_allocator.h:53-61 | Leaving a scope puts the cursor and SizeAllocated back and keeps the arenas added |
| `ScratchAllocator.RunReplay` | source/base/scratch_allocator.cc:44-60 | Once the arenas are there, the same operations, alignment zero apart, from the same cursor hand out the same blocks and never ask the system allocator |
| `ScratchAllocator.PurgeStartsOver` | source/base/scratch_allocator.cc:71-74 | After a purge, operations repeated from the start of the first arena hand out the same blocks, leave the same state and never ask the system |
| `ScratchAllocator.ReserveDoubles` | source/base/scratch_allocator.cc:46-47 | In an ordered chain a new arena reserves twice what the chain holds, or the request if that is more |
| `ScratchAllocator.FirstFit` | source/base/scratch_allocator.cc:44-60 | The first arena from the cursor on that seems to have room, in wrapping arithmetic, is used as tightly as alignment allows; the system is asked only when none seems to |
| `ScratchAllocator.LiveBytesCovered` | source/base/scratch_allocator.cc:76-85 | SizeAllocated is at least the sum of the live block sizes |
| `ScratchAllocator.ArenasGrowGeometrically` | source/base/scratch_allocator.cc:46-52 | n arenas hold at least 3^(n-1) times the first |
| `ScratchAllocator.ZeroAlignmentIsNull` | source/base/scratch_allocator.cc:39-51 | Alignment zero passes the validity test and yields null exactly when no new arena is granted for the request |
| `ScratchAllocator.Allocator.constructor` | source/base/scratch_allocator.cc:7-16 | From a positive reserve: one arena of that size, the cursor at its start; in order exactly when the system granted it |
| `ScratchAllocator.Allocator.AddArena` | source/base/scratch_allocator.cc:46-52 | Appends an arena of twice the total, or of the request if that is more, and goes on in it, null or not |
| `ScratchAllocator.Allocator.Take` | source/base/scratch_allocator.cc:39-65 | The search loop, with its wrapping sums, ends for every answer of the system and returns the specified block, null or a small address after a refusal, with the specified new cursor, chain and total; its closing assertion holds |
| `ScratchAllocator.Allocator.AllocAligned` | source/base/scratch_allocator.cc:39-65 | Adds exactly the returned block to the live ones; it lies inside granted memory exactly when the request is no larger than the address space, not refused, and not of alignment zero in an old arena, and then the allocator stays in order |
| `ScratchAllocator.Allocator.Purge` | source/base/scratch_allocator.cc:71-74 | Puts the cursor at the start of the first arena, so that SizeAllocated is 0, keeps arenas and total, and ends all blocks |
| `ScratchAllocator.Allocator.Scoped` | source/base/scratch_allocator.h:53-61 | Runs any operations in between and restores the cursor; live blocks are those from before, or none after a purge inside; the allocator stays in order if every block handed out inside was granted memory |
| `ScratchAllocator.Allocator.SizeAllocated` | source/base/scratch_allocator.cc:76-85 | The chain walk returns the cursor's position along the chain, which covers all live blocks |
| `LinkedStack.RefinesAtomicStack` | source/containers/linked_stack.h:31-52 | Over every interleaving in which a node is pushed only while it is off the stack and no pop holds it as the top it saw, reuse included, the linearized operations are a legal sequential history, the links spell exactly its contents without a cycle, and each push of a node is popped once, except that of a node still there |
| `LinkedStack.ReuseSafeExactlyWhenUnheld` | source/containers/linked_stack.h:10-12 | In every reachable state a node off the stack may be pushed again exactly when no pop holds it as the top it saw: then nothing that follows breaks the stack, and otherwise, given one more idle thread, something does |
| `LinkedStack.HeldReuseBreaks` | source/containers/linked_stack.h:40-52 | A failing run for any held node: another node is pushed, the held one onto it, and the holder's swap succeeds and drops the other node |
| `LinkedStack.HeldNodeCanBeFree` | source/containers/linked_stack.h:40-52 | A run of three threads that reaches a node popped by one while another has read its link and not swapped yet |
| `LinkedStack.PopTakesTop` | source/containers/linked_stack.h:40-52 | A pop whose swap succeeds takes the top of the atomic stack at that moment |
| `LinkedStack.CallsTakeEffectOnce` | source/containers/linked_stack.h:31-52 | Over every run the calls of Push with a node are its pushes in the history and those still under way, and the calls of Pop likewise: no call returns without its effect and none has it twice |
| `LinkedStack.ReturnsTakeEffect` | source/containers/linked_stack.h:31-52 | A step that returns from an operation is the one at which it takes effect, and no other step is |
| `LinkedStack.FinishesAlone` | source/containers/linked_stack.h:31-52 | In every reachable state a thread inside an operation finishes it within five steps when nobody interferes |
| `LinkedStack.StepKeepsInv` | source/containers/linked_stack.h:31-52 | Every load, link write and compare-and-swap of any thread keeps the chain whole and what each thread holds meaningful |
| `LinkedStack.LoadsAreDefined` | source/containers/linked_stack.h:42-49 | A thread in the middle of an operation can always take its next step; it never loads the link of a node that has none |
| `Ring.MRSWRing.Push` | source/containers/MRSWRing.h:16-23 | Appends to the bounded queue, refusing exactly when every slot is taken, across counter wrap-around |
| `Ring.MRSWRing.Pop` | source/containers/MRSWRing.h:25-33 | Takes the oldest element, refusing exactly when the queue is empty |
| `Ring.CapacityCondition` | source/containers/MRSWRing.h:41-47 | The fullness test is right over every run exactly when the capacity divides 2^32 |
| `Ring.UnevenLies` | source/containers/MRSWRing.h:41-43 | For any other capacity a concrete run reaches a ring reported full with slots to spare |
| `Ring.FullMeansFull` | source/containers/MRSWRing.h:41-47 | With such a capacity the remainder test means every slot is taken, wherever the counters stand |
| `Config.FlattensExactly` | source/config/config.cc:90-164 | A config is accepted exactly when no key mixes values and sub-keys; then the map holds the first list of every dotted path and no other, and no key is left open |
| `Config.LoadsPrintedConfig` | source/config/config.cc:315-333 | The same from the text of a printed config file, through the lexer |
| `Config.KeyRun` | source/config/config.cc:90-164 | A key delivers exactly its entries and leaves the key stack as it was, or is refused for mixing at some depth |
| `Config.OneNodePerLeaf` | source/config/config.cc:191-205 | A list has one node for each leaf exactly when no leaf is a bare identifier |
| `Config.StoredUnlessWordFirst` | source/config/config.cc:146-149 | A list is stored exactly when it is not empty and does not begin with a bare identifier |
| `Config.HoldsEveryKey` | source/config/config.cc:82-158 | The map of an accepted config holds exactly the dotted paths of the keys with a list to store, each with the list of such a key |
| `Config.ListHoldsValues` | source/config/config.cc:182-223 | The list of a key is what its values become one after another: yes and Yes are true, no and No false, any other bare identifier an unset node and its text |
| `Config.ConfigParser.Feed` | source/config/config.cc:90-228 | The parser object, driven by any stream of events without the two known directives, keeps its key stack in order and ends as the handler function does |
| `Config.ConfigParser.FeedConfig` | source/config/config.cc:315-333 | A fresh parser object driven by the events of a config accepts it exactly when no key mixes values and sub-keys, and then holds the first list of every dotted path with no key left open |
| `Config.ConfigParser.LexerEndOp` | source/config/config.cc:103-164 | Stores the list under the dotted key unless one is there, and returns to the enclosing key |
| `Config.ConfigParser.LexerUnhandledValue` | source/config/config.cc:191-205 | Adds one boolean, or an unassigned node and then the text |

## Left out

- Compiler.CompilerCorrect: op-less groups are excluded, because they leave a barrier on the stack; LeftoverBarriers says how many.
- Lexer.Lexer.Run: `!token[...]` payloads are modelled for handlers that read nothing from the stream themselves; the only handler in the program always refuses.
- RoundTrip.EventsRoundTrip: double literals are not printed, because strtod is a parameter of the lexer model.
- LexerLaws.FailuresAreLocated: texts contain no NUL, which ends the data, and no payload, inside which line ends do not count and whose handler is reported at the opening bracket.
- SingleExpr.RepeatedIsWhole: texts contain no NUL, which the lexer takes for the end of data.
- Layout.WalksAgree: the object ends, with its padding, inside the 64-bit address space.
- Records.ReadsLastWrite: the type fits the 256-byte buffer, which nothing in the program checks; conversions to floating point fields are a parameter.
- Json.JsonSerializer.WriteObject: text fields and frame barriers, for which the program fails an assertion, are excluded, but no reachable registry has them (ReachableRegistries, NumericIsPrintable); printing of floating point is a parameter.
- Config.FlattensExactly: every group has a key, and keys starting with '@' are excluded; what those do is a parameter.
- ScratchAllocator.LiveBlocksAreSafe: runs with requests larger than the address space, taken to end at 2^62, with refused growths, or with alignment 0 outside new arenas are excluded, since SafeExactlyWhenModest proves that exactly those hand out bytes nobody granted.
- ScratchAllocator.RunReplay: alignment 0 is excluded, because what it yields depends on whether an arena is new.
- Layout.LeavesInside: types with an empty or overflowing struct in them, at some depth, are excluded, as for the other record theorems; other types in the registry do not matter, see SoundnessCondition.
- ScratchAllocator.Allocator.constructor: reserve 0 is excluded, because the first allocation then fails an assertion.
- Ring.MRSWRing.constructor: the capacity divides 2^32, as the condition proved in CapacityCondition demands.
- The chain of arenas is a sequence rather than linked nodes, and the system allocator a function that is honest about alignment and disjointness and may refuse with null; assertions are compiled out, as in release builds, and the allocation of an arena's header always succeeds.
- LinkedStack.RefinesAtomicStack: a node is pushed only while it is off the stack and unheld, as `source/containers/linked_stack.h:10-12` asks of the user; ReuseSafeExactlyWhenUnheld shows that the rule can not be dropped.
- Shutdown.WorkIsBounded: passes over the workers are not counted, since StopInternal spins while it waits for the others.
- The stack of the machine and the code vector are sequences; `PurgeStackFrame` returns the cut stack.
- Handlers of lexer events are functions of a handler state; the compiler's and the config parser's callbacks are also classes, whose `Feed` is proved to end where those functions end.
- Characters stand for bytes; those above 127 are no operation characters, as with a signed `char`.
- The nesting depth is unbounded rather than a 32-bit counter, and error messages are not truncated to the builder's size.
- The task system, the type vault's locking and the linked stack are modelled on values as step relations with sequentially consistent steps; relaxed memory orders are not modelled.
- Event waits are one-shot, and an epoll call returns any set of fired registrations; epoll errors, re-registration after a removal and the limit on events per call are not modelled.
- Fiber switching, TCP streams, signals, thread pinning, logging, hooks and debug stack fill: effects without logic of their own.
- Out-of-memory of `CreateSchema` is the refusing step; a vault list that changes while vaults run is not modelled.
- `defstruct` runs against one registry value; its interleaving with other vaults is in TypeVault.
- Object storage, guids and `select`: thin maps behind locks.
- `JsonSerializer::WriteEscapedString`, the array form of `Serialize` and the JSON deserializer: string escaping does not follow RFC 8259, and the deserializer is unfinished.
- `math_funcs`: functions are arbitrary in the machine's theorem.
- `StreamReader::ReadValue` and the drain and normalize operations: nothing here uses them.
- `@include`, `@locate`, command-line arguments and merging of configs.
- Hexadecimal printing, hash tables, spans, `Either`, `Maybe`, `Dep` and `Defer`: easy members without a hard property.
