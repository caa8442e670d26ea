# Verified cores

This project models the algorithms and protocols at the centre of the repository and proves what
they are for. `dafny verify dfyconfig.toml` checks all of it. The modules are independent of each
other except where noted.

**Left-leaning red-black `Dict`** (`RedBlackDict.dfy`). Insertion, removal, update, lookup and the
folds, branch by branch. Removal moves red links down the tree and lets right-leaning ones exist for
a moment; `Removed`, `Restored` and `RightDone` say what each kind of node may return.

**Radix-trie `Array`** (`RadixArray.dfy`). The 32-way trie with its tail, 32-bit shifts written out,
the builder, and both append algorithms. `WF` fixes the structure completely, so that arrays with
the same elements are the same structure.

**Event log** (`EventLog.dfy`, `Snapshots.dfy`). Savers, and compactors beside them, as a transition
system over shared tables: each access to a table or list is one step, and every step can also fail,
before or after it took effect. The list can always be drained, and a save reaches the table. What
is proved of snapshots holds for any reducer that numbers its result by the last event; the
application's is one.

**Scheduler** (`Tasks.dfy`, `Processes.dfy`, `RunQueue.dfy`). A task denotes an outcome by big
steps, as a partial function since tasks may run forever; the stack machine stops at exactly that
outcome, and outcomes obey the laws of `andThen` and `onError`. `Process` is the in-place step.
`RunQueue` adds the queue with its re-entrancy flag, the mailboxes and the effects queue, with the
calls in progress, and the callbacks that may call in again, as an explicit stack.

**MVar server** (`MVars.dfy`, `MVarHistory.dfy`, `MVarServer.dfy`, `MVarStash.dfy`,
`MVarTokens.dfy`, `MVarHandler.dfy`). The waiter queues of one MVar, the history of puts and takes,
the server, its stash of values and the tokens that stand for them, and the handler that updates
MVar objects in place. It is assumed that a response runs the program only up to its next request,
and that this request is handled after the current one, as the comment on `fatalOnProgramThrow` has
it.

**Strongly connected components** (`Graphs.dfy`, `Tarjan.dfy`). Both copies of the algorithm are one
class: `out` is what the folder check returns, `cycles` what the recursion report keeps.

**Perceus reference counting** (`BorrowSignature.dfy`, `Borrow.dfy`, `RcIr.dfy`, `RcHeap.dfy`,
`IncDec.dfy`, `RefcountEnv.dfy`, `IncDecProof.dfy`, `Perceus.dfy`). Borrow inference on packed
words, the backward pass that inserts increments and decrements, and a heap of counted cells on
which the instrumented program runs. `Perceus` puts them together, from the components of the call
graph to the instrumented program. `IncDec` is the pass as functions, `RefcountEnv` the pass as it
runs, updating one environment. Where the design leaves a helper out, the rule in the comment beside
it is followed: a symbol consumed in some branch of a switch is dropped first in every branch that
does not consume it.

**Smaller pieces.** Civil dates (`Civil.dfy`), structural equality with an explicit stack
(`Equality.dfy`), the single-cycle arena (`Arena.dfy`) and the generated Unicode classes
(`UnicodeClasses.dfy`). `Options.dfy` and `Powers.dfy` are shared.

Three properties one might expect fail. Their exact conditions are proved, and inputs on which they
fail are given. A client that joins a channel without a snapshot misses event 1 unless the log is
empty (`JoinComplete`, `JoinCompleteIff`; `JoinMissesFirst` is a run where it does). The stash of
values stays exact if and only if no token is sent twice, the case of an unknown MVar aside, and
fewer than 2^32 are made (`TokensTellApart`): a put task that is run twice sends its token twice,
and a value can then be missing (`SentTwice`); after 2^32 tokens the ids come round again
(`DecodeMisses`), and the values stashed from then on are never found (`NeverFoundAgain`). Reads of
an `Array` are right exactly up to the length of the largest Int (`ReadsRightIffInt`; `ListTooLong`
is an array beyond it).

## Model

| member | source | states |
|---|---|---|
| RedBlackDict.RemoveCorrect | elm.js:4891-4905 | removing any key, present or absent, from a legal left-leaning red-black tree gives a legal one (search order, equal black height, no red right child, no red-red, black root) whose list and whose `get` differ at exactly that key |
| RedBlackDict.RemoveHelpCorrect | elm.js:4796-4854 | what removal returns for each kind of node it can be handed, black, red or with a passing right-leaning red link, is repairable by its caller, with the entries of exactly the other keys in order |
| RedBlackDict.RemoveHelpEQGTCorrect | elm.js:4855-4890 | behind the preparation step, removal at or right of a node keeps what `balance` needs, including replacing the node by its successor |
| RedBlackDict.RemoveMinCorrect | elm.js:4745-4795 | removing the minimum drops the first entry and keeps the black height, although three branches rebuild the node without `balance` |
| RedBlackDict.MoveRedLeftShape | elm.js:4557-4630 | the rotation gives a left subtree that can lose an entry; says exactly which red links it leaves |
| RedBlackDict.MoveRedRightShape | elm.js:4631-4704 | the mirror rotation gives a node whose right side can lose an entry |
| RedBlackDict.PrepShape | elm.js:4705-4744 | every node removal can meet is prepared into one that the right-hand removal takes |
| RedBlackDict.MoveRedLeftInOrder | elm.js:4557-4630 | the rotation keeps the entries and their order |
| RedBlackDict.MoveRedRightInOrder | elm.js:4631-4704 | so does the mirror rotation |
| RedBlackDict.PrepInOrder | elm.js:4705-4744 | so does the preparation step |
| RedBlackDict.InsertCorrect | elm.js:3663-3677 | inserting keeps a legal tree and sets exactly the given key, in the list and under `get` |
| RedBlackDict.InsertHelpShaped | elm.js:3630-3662 | insertion below a black node is well shaped; below a red node at most its left link is wrong; black height is kept |
| RedBlackDict.InsertHelpInOrder | elm.js:3630-3662 | insertion sets one entry of the in-order list |
| RedBlackDict.BalanceShaped | elm.js:3575-3629 | the smart constructor repairs a red right child and a red-red left chain without changing the black height |
| RedBlackDict.BalanceInOrder | elm.js:3575-3629 | and keeps the entries in order |
| RedBlackDict.UpdateCorrect | elm.js:4906-4916 | `update` applies the function to what the key held and touches no other key |
| RedBlackDict.GetIsLookup | elm.js:3857-3887 | `get` on a search tree is lookup in its in-order list |
| RedBlackDict.ToListAgreesWithGet | elm.js:2760-2797 | `toList` is the sorted in-order list, and agrees with `get` on every key |
| RedBlackDict.FoldrInOrder | elm.js:2760-2784 | the right fold conses the entries in order |
| RedBlackDict.LogarithmicHeight | elm.js:3575-3677 | the height is at most twice the black height, and 2^height at most (size + 1)^2 |
| RedBlackDict.HeightBound | elm.js:3575-3677 | height and size bounds for every well-shaped subtree |
| RadixArray.AppendCorrect | elm.js:10048-10092 | `append` is concatenation through both algorithms, for every result no longer than the largest Int, and gives a well-formed trie |
| RadixArray.AppendIsFromList | elm.js:10048-10092 | both algorithms give the very structure `fromList` builds from the concatenation |
| RadixArray.FoldIntoTreeCorrect | elm.js:10012-10092 | appending the leaves one by one into the trie |
| RadixArray.AppendHelpTreeCorrect | elm.js:10012-10028 | one leaf appended to an array, over the edge of its tail |
| RadixArray.FoldIntoBuilderCorrect | elm.js:9918-10092 | appending the leaves one by one into the builder |
| RadixArray.AppendHelpBuilderCorrect | elm.js:9918-9937 | one leaf appended to a builder, over the edge of its tail |
| RadixArray.PushCorrect | elm.js:10589-10596 | `push` adds one element at the end of a well-formed trie |
| RadixArray.ReplaceTailCorrect | elm.js:9979-10011 | a new tail keeps the leaves; a full one becomes a leaf, with a new root level when the root overflows |
| RadixArray.InsertTailCorrect | elm.js:9944-9978 | inserting a full leaf appends exactly that leaf, at any depth |
| RadixArray.GetCorrect | elm.js:10114-10128 | `get i` is the i-th element, and Nothing outside, for every length up to the largest Int |
| RadixArray.GetHelpCorrect | elm.js:10093-10113 | the descent by shifted index bits reaches the element at that offset |
| RadixArray.ReadsRightIffInt | elm.js:10114-10128 | every `get` of a well-formed array gives the element at its index, and Nothing outside, if and only if the array is no longer than the largest Int |
| RadixArray.GetBeyondInt | elm.js:10093-10128 | in every longer array the last element before the tail is read as undefined: the signed shift makes the tail index negative, so every read goes to the tail |
| RadixArray.ListTooLong | elm.js:9881-9917 | `fromList` of a list of 2^31 elements holds them all, and its last leaf's last element is read as undefined |
| RadixArray.LengthCorrect | elm.js:10114-10128 | the length field is the number of elements |
| RadixArray.FromListCorrect | elm.js:9881-9917 | `fromList` builds a well-formed trie of exactly the list |
| RadixArray.FromListHelpCorrect | elm.js:9881-9908 | its loop, from any leaves already built |
| RadixArray.InitializeCorrect | elm.js:3164-3203 | `initialize` builds a well-formed trie of the function's values |
| RadixArray.BuilderCorrect | elm.js:3139-3163 | the builder's array is well formed and holds its leaves, then its tail |
| RadixArray.TreeFromBuilderCorrect | elm.js:3123-3138 | repeated grouping gives the trie with the fewest levels |
| RadixArray.CompressIsGroup | elm.js:3097-3122 | one round of compression groups the nodes by 32 in order |
| RadixArray.GroupTop | elm.js:3097-3122 | grouping one level gives the next |
| RadixArray.Log32Correct | elm.js:3139-3163 | the depth is the exact integer logarithm |
| RadixArray.Canonical | elm.js:3139-3163 | a well-formed array is determined by its elements |
| EventLog.EveryRun | elm.js:8805-9065 | under every interleaving of any number of savers, with any errors: rows are numbered 1 to lastId, published pairs are rows and published once, each saver's numbers ascend and no two savers share one, every event that a step of the run pushed is in exactly one place, and each step does to the list and its saver what `Does` says |
| EventLog.NextDoes | elm.js:8805-9065 | a saver pops, reads the counter, writes and publishes in turn; it records exactly when the counter is the one it read, reads again when it is not, and stops at any other error, with which the event is lost unless it was recorded |
| EventLog.CanDrain | elm.js:9021-9065 | no saver blocks another: from every reachable state in which none is broken the list can be drained and all events recorded and published, whoever holds what and however stale what was read |
| EventLog.RunsOut | elm.js:8880-8961 | a saver that goes on alone records its event, publishes it and is idle again |
| EventLog.RowsStay | elm.js:8880-8961 | over any run the table only grows and rows never change |
| EventLog.OnlyConflicts | elm.js:8880-8961 | when only condition checks fail nothing is lost: a popped event is held or recorded, a recorded one is announced or about to be |
| EventLog.Drained | elm.js:9021-9065 | once such a run has drained the list, the log holds each pushed event exactly once and exactly its rows were published |
| EventLog.NextKeeps | elm.js:8805-9065 | each step keeps all of this and changes no row |
| EventLog.NextRows | elm.js:8880-8961 | a step keeps the numbers dense and what savers know about the table true |
| EventLog.NextConserves | elm.js:8982-9065 | a step moves events between list, savers, table and loss, and makes or drops none |
| EventLog.NextIncreasing | elm.js:8880-8961 | a step assigns a number above all the saver's earlier ones, and nobody else's |
| EventLog.NextAnnounced | elm.js:8805-8822 | a step announces a number at most once |
| EventLog.TableChanges | elm.js:8880-8961 | exactly what a step does to counter, table and announcements; the write takes effect only when the counter is the one read |
| EventLog.SoleSaver | elm.js:8880-8961 | no two savers are about to publish the same number |
| EventLog.CreatedInv | elm.js:8486-8508 | a new channel, with counter 0, satisfies the invariant |
| Snapshots.EverySnapshot | elm.js:7754-8041 | for every reducer that numbers its result by the last event, and over every run of savers and compactors: every snapshot in the table or a cache is the fold of the events 1 to its number, and each action does what `Does` says; a save puts the snapshot of all it read into table and cache |
| Snapshots.ActionDoes | elm.js:7754-8041 | what each step of a compactor does: a request the cache covers ends at once, a query that finds a late enough snapshot caches it, the events read are all after the base, and a save puts exactly the snapshot numbered by the last event read into the table and the cache, or nothing if the log was empty |
| Snapshots.TableKeeps | elm.js:7989-7995 | over any run no snapshot is removed from the table or changed |
| Snapshots.SavedForGood | elm.js:7954-8001 | from a save on the latest snapshot covers all that the save had read |
| Snapshots.RequestServed | elm.js:7758-7795 | a request for a number the log had reached, if it ends without an error, ends with a snapshot in the cache that covers it |
| Snapshots.CompactorGoesOn | elm.js:7754-8041 | a compactor at work on a request can always take its next step |
| Snapshots.LaterAre | elm.js:7879-7914 | the events read are those after the base, in order, each with its number |
| Snapshots.Compacts | elm.js:7954-8001 | for every such reducer, compacting from any true earlier snapshot gives the snapshot of the whole log up to where it was read |
| Snapshots.LogKeeps | elm.js:8880-8961 | snapshots stay true while savers append |
| Snapshots.CompactorKeeps | elm.js:7754-8041 | every step of a compactor keeps snapshots true |
| Snapshots.SavesAllRead | elm.js:7879-8041 | what a compaction is about to save is numbered lastId as it was when the events were read, or is nothing for an empty log |
| Snapshots.FoldNumbered | elm.js:7915-7953 | the fold of the events up to n is numbered n |
| Snapshots.ApplicationNumbered | elm.js:7915-7953 | the application's init and step number their result by the event |
| Snapshots.SnapshotAt | elm.js:7915-8001 | the application's snapshot of the events 1 to n is numbered n and holds the text for n |
| Snapshots.FoldLast | elm.js:7915-7953 | the last message that is not transient decides the snapshot, whatever came before |
| Snapshots.FoldTransient | elm.js:7935-7953 | transient messages change nothing |
| Snapshots.FromIntInverse | elm.js:7915-7953 | the number in the text is written in decimal digits without a leading zero, and can be read back |
| Snapshots.FoldAppend | elm.js:7954-8001 | folding in two parts is folding the whole |
| Snapshots.SnapshotsAgree | elm.js:7954-8001 | two snapshots with one number are equal |
| Snapshots.Latest | elm.js:7594-7604 | the query gives the snapshot with the greatest number, if there is one |
| Snapshots.JoinComplete | elm.js:8688-8706 | in every reachable state and for every reducer, a client that folds the events it is sent onto the latest snapshot has the fold of the whole log if there is a snapshot or the log is empty; otherwise it is sent all events but the first |
| Snapshots.JoinCompleteIff | elm.js:8688-8706 | after any run, a client that keeps all it is given has the whole log after joining if and only if there is a snapshot or the log is empty |
| Snapshots.JoinMissesFirst | elm.js:8688-8706 | a run of one event, one saver and no compaction, after which a joining client is sent nothing although event 1 is in the log |
| Tasks.StopsAtItsMeaning | elm.js:1790-1834 | a process started on a task stops exactly when the task has an outcome, and stops at it: the result over an empty stack, or the waiting task over the frames still to run |
| Tasks.AndThenMeans | elm.js:1795-1828 | `andThen` means what the callback's task means when its task succeeds, with the value it succeeded with, fails when it fails, and waits when it waits, with the callback still to be run |
| Tasks.OnErrorMeans | elm.js:1795-1828 | `onError` means what the callback's task means when its task fails, with the error, succeeds when it succeeds, and waits when it waits |
| Tasks.AtomsMean | elm.js:1649-1699 | a result and a binding mean themselves, and a receive means what its callback makes of the first message, or waits for one |
| Tasks.FramesAreTasks | elm.js:1820-1828 | a frame on the stack stands for the `andThen` or `onError` that pushed it, so a process whose binding is answered goes on as if the answer had been there from the start |
| Tasks.OneMeaning | elm.js:1649-1699 | a task has at most one outcome |
| Tasks.DenotedIsReached | elm.js:1790-1834 | what a machine with any stack denotes is reached in finitely many turns |
| Tasks.RunDenotes | elm.js:1790-1834 | a machine that stops has stopped at what it denoted at the start |
| Tasks.TurnKeeps | elm.js:1790-1834 | a turn of the loop leaves what the machine denotes |
| Tasks.StopDenotes | elm.js:1790-1834 | a turn that stops stops at what the machine denotes |
| Tasks.ResumeSkips | elm.js:1795-1803 | a result passes by exactly the frames of the other kind |
| Tasks.EvalRuns | elm.js:1790-1834 | a task is worked off to its outcome above any stack |
| Tasks.SkipsOthers | elm.js:1795-1803 | a result drops from the stack exactly the frames of the other kind above the first of its own |
| Processes.Process.constructor | elm.js:1705-1716 | a new process has its task as root, no frames and no mail |
| Processes.Process.Step | elm.js:1790-1834 | for any number of turns: the in-place loop is in the state the machine is in after that many, says whether it has stopped, and if so stopped where the machine stops and with the binding to start |
| Processes.Process.PassResult | elm.js:1795-1805 | passing a result to its frame is the machine's turn |
| Processes.FollowingStops | elm.js:1790-1834 | following a machine for n turns ends in a state that is stopped exactly when the machine stops within n |
| RunQueue.EveryRun | elm.js:1703-1834 | over every run, with outside code calling in between steps, while a binding starts, and from inside the callbacks that a step calls: loops, steps and dispatches do not nest, a process that can go on or whose binding nobody has started is queued or being stepped, and run queue, mailboxes and effects are first come, first served; the processes are those spawned, each was sent exactly the mail for it, from outside and from the batches as dispatched, the batches are those queued, and each action does what `Does` says |
| RunQueue.ActionDoes | elm.js:1703-1834 | what each action does to processes, queues and calls: spawn, send, answer, kill, the queueing of effects, the return of a callback, and each turn of a loop |
| RunQueue.AdvanceDoes | elm.js:1774-1834 | a loop takes what is first in its queue or ends, a dispatch sends its first message, and a step makes the machine's turn, up to the callback if there is one: the message is taken and the frames passed by are gone before it, the root and the rest of the stack wait for its end |
| RunQueue.ActionHistory | elm.js:1727-1731 | each action adds exactly its mail to what the receivers were sent, and its batch to the effects |
| RunQueue.AlwaysGoesOn | elm.js:1774-1834 | the innermost call can always go on or return, and outside code that runs may spawn, send, answer, kill and queue effects |
| RunQueue.ActionKeeps | elm.js:1703-1834 | each call from outside and each turn of a loop keeps the invariant |
| RunQueue.WhenIdle | elm.js:1774-1787 | when no call is in progress both queues are empty, all effects were dispatched in order, no process can go on, and each one at a binding has had it started; one in receive has received all it was sent |
| RunQueue.NoNesting | elm.js:1774-1787 | at most one step and one dispatch are in progress |
| RunQueue.EnqueueKeeps | elm.js:1774-1787 | enqueueing puts the process last in the queue, starts draining only when nobody drains, touches nothing else, and restores the invariant for a process that was not queued |
| RunQueue.RawSendKeeps | elm.js:1727-1731 | a message is added at the end of its receiver's mailbox, the receiver is queued, and the invariant is kept |
| RunQueue.RawSpawnKeeps | elm.js:1705-1716 | a new process with the task as root is added and queued, and the invariant is kept |
| RunQueue.AnswerKeeps | elm.js:1806-1815 | a binding's callback sets the new root and queues the process, inside the step or later, and keeps the invariant |
| RunQueue.KillKeeps | elm.js:1741-1755 | a killed process has no root, cannot go on and starts nothing, and the invariant is kept |
| RunQueue.DrainKeeps | elm.js:1774-1787 | the loop ends exactly when the queue is empty, and else takes the first process and begins its step; the invariant is kept |
| RunQueue.GoesOn | elm.js:1790-1834 | a turn of a step receives the first message of the mailbox if it was waiting for one, and else none, and touches no other process and no other call |
| RunQueue.TurnWhole | elm.js:1790-1834 | a turn with a callback in the middle, once the callback returns, is the machine's turn |
| RunQueue.ReturnKeeps | elm.js:1790-1834 | the return of a callback keeps the invariant, whatever the callback called |
| RunQueue.Stops | elm.js:1790-1834 | where the machine stops, the process cannot go on, and the step ends, or marks the binding started and stays while its function runs |
| RunQueue.EffectsKeep | elm.js:2079-2091 | a batch is queued behind the others, its dispatch begins only when none is in progress, and the invariant is kept |
| RunQueue.FxDrainKeeps | elm.js:2079-2091 | the loop ends exactly when no batch is left, and else begins to dispatch the first; the invariant is kept |
| RunQueue.DispatchingKeeps | elm.js:2094-2107 | a dispatch sends its first message to its receiver's mailbox and keeps the rest, or ends when none is left; the invariant is kept |
| Civil.CivilDate | elm.js:11120-11134 | for every minute an Elm Int holds, the date is one of the Gregorian calendar, and is the date of the day that minute is in |
| Civil.CivilInverse | elm.js:11120-11134 | every date comes back from any minute of its day |
| Civil.CivilNext | elm.js:11120-11134 | a day later is the next date |
| Civil.YearOfEraIs | elm.js:11124-11124 | the year-of-era formula is exact on all 146097 days |
| Civil.MonthOfYear | elm.js:11125-11133 | the month and day formulas are exact on all days of a year, leap or not |
| Civil.EraOf | elm.js:11122-11122 | truncating the shifted day is flooring it, also before year 0, and does not wrap |
| Equality.Comparison.constructor | elm.js:533-543 | a comparison starts with an empty stack |
| Equality.Comparison.Help | elm.js:545-593 | the depth-bounded comparison is right if the pairs it pushed compare equal, and what it pushed is smaller than what it was given |
| Equality.Equal | elm.js:533-543 | the loop ends, and equality is having the same structure, trees of entries being compared as lists, for values of any depth |
| Equality.SameTransitive | elm.js:533-593 | structural equality is transitive |
| Equality.SameSymmetric | elm.js:533-593 | and symmetric |
| Equality.SameReflexive | elm.js:547-550 | and reflexive, which the shortcut for identical references needs |
| MVarServer.EveryRun | compiler/bin/eco-io-handler.js:750-803 | over every run, whatever bodies are put: MVars are settled, what was put is what was taken and then what is in line, reads see the head, and each request is answered once and in order |
| MVarServer.HistoryOfCommands | compiler/bin/eco-io-handler.js:750-803 | over every run the history holds exactly the MVars created, numbered in order, the requests made, and the refusals of those that name no live MVar, in the order of the commands; the live MVars are those created and not dropped |
| MVarStash.TokensTellApart | compiler/bin/eco-io-handler.js:68-116 | over every run: the stash holds exactly the values of tokens unsent or in line, each once, and no decode has missed, at every point of the run, if and only if fewer than 2^32 tokens are made, each put into a known MVar sends a token not sent before, and each into an unknown one that or a token with nothing stashed |
| MVarTokens.NeverExactAgain | compiler/bin/eco-io-handler.js:81-91 | over every run, once 2^32 tokens were made the stash is never exact again |
| MVarTokens.NeverFoundAgain | compiler/bin/eco-io-handler.js:73-91 | over every run whose tokens have 32 bits, every value stashed from number 2^32 on stays in the stash for good, and no token leads to it |
| MVarTokens.TooManyStashes | compiler/bin/eco-io-handler.js:81-91 | after 2^32 values stashed and none sent, the stash is not exact |
| MVarTokens.DecodeMisses | compiler/bin/eco-io-handler.js:92-105 | a run in which no token is sent twice, and a token of which the value is already gone is decoded, since its id has come round again |
| MVarTokens.SentTwice | compiler/bin/eco-io-handler.js:92-105 | a run with a single token, which is put twice and taken twice: the second take misses its value |
| MVarTokens.DecodesWhatWasStashed | compiler/bin/eco-io-handler.js:81-105 | over every run, as long as no value was missing, each response that delivers a token decodes a value, and always the very value that was stashed under the token's id; no value is missing when no token is sent twice and their ids fit |
| MVarTokens.RunRemembers | compiler/bin/eco-io-handler.js:81-105 | over every run, what is stashed under an id, and what any decode gave for it, is what was stashed with that id |
| MVarServer.StepKeeps | compiler/bin/eco-io-handler.js:750-803 | each request keeps that |
| MVarServer.HandleKeeps | compiler/bin/eco-io-handler.js:774-803 | read, take and put keep it, on known and unknown MVars |
| MVarServer.DropKeeps | compiler/bin/eco-io-handler.js:757-772 | a drop removes the MVar and no other, refuses its waiters in order, and keeps the invariant |
| MVarServer.CreateKeeps | compiler/bin/eco-io-handler.js:750-755 | a new MVar has an id that is not in use, is empty, and counts nothing asked of its id before; the invariant is kept |
| MVarStash.StashKeeps | compiler/bin/eco-io-handler.js:81-91 | stashing keeps the stash exact if and only if the next id still fits the 32 bits of a token |
| MVarStash.StepExact | compiler/bin/eco-io-handler.js:68-116 | of all requests, exactly those keep the stash exact and miss no value |
| MVarStash.HandleExact | compiler/bin/eco-io-handler.js:92-105 | read, take, and a put of a token not sent before keep it exact and miss no value |
| MVarStash.HandleInexact | compiler/bin/eco-io-handler.js:92-105 | any other put of a token breaks it or misses a value |
| MVarStash.DropExact | compiler/bin/eco-io-handler.js:108-116 | a drop releases exactly what the MVar and its waiting puts hold, and keeps the stash exact |
| MVarServer.FirstInFirstOut | compiler/bin/eco-io-handler.js:774-803 | values taken are a prefix of those put; a held value is the first not yet taken, and none is held only when all were taken |
| MVarStash.NothingOutlives | compiler/bin/eco-io-handler.js:68-116 | with no MVar left and no token unsent, nothing is stashed |
| MVarServer.AnswersFit | compiler/bin/eco-io-handler.js:750-803 | over every run a read or take is answered with a value and a put with none, unless refused |
| MVarServer.HandleAnswers | compiler/bin/eco-io-handler.js:774-803 | a request is refused as unknown exactly when its MVar is, and a known one refuses nobody |
| MVarServer.DropAnswers | compiler/bin/eco-io-handler.js:767-770 | a drop refuses each waiter and answers nobody else |
| MVarStash.ServeStash | compiler/bin/eco-io-handler.js:92-105 | answering a line decodes only tokens whose value is there and removes exactly those taken |
| MVarStash.ReleaseAllStash | compiler/bin/eco-io-handler.js:108-116 | releasing bodies removes exactly their tokens |
| MVars.EffectCorrect | compiler/bin/eco-io-handler.js:774-803 | a request leaves a settled MVar, serves the line of values in order, and adds its own value and its own turn |
| MVars.WakeCorrect | compiler/bin/eco-io-handler.js:188-219 | the wake-up loop leaves a settled MVar and answers the waiters it removes once and in order |
| MVars.WakeServes | compiler/bin/eco-io-handler.js:188-219 | it serves the line first come, first served: a read shows the head, a take removes it |
| MVars.WakeInOrder | compiler/bin/eco-io-handler.js:188-219 | it answers waiters of each kind in the order they wait |
| MVars.WakeSettles | compiler/bin/eco-io-handler.js:188-219 | it stops only when a held value has only puts waiting, or an empty slot none |
| MVarHistory.Served | compiler/bin/eco-io-handler.js:188-219 | answers that serve the line keep what was put equal to what was taken, then what is left; reads see the head |
| MVarHistory.CountAnswers | compiler/bin/eco-io-handler.js:188-219 | each answer is counted once, for its own MVar and kind |
| MVarHandler.Cell.constructor | compiler/bin/eco-io-handler.js:750-755 | a new MVar is empty |
| MVarHandler.Handler.constructor | compiler/bin/eco-io-handler.js:60-72 | the handler starts with nothing |
| MVarHandler.Handler.Reply | compiler/bin/eco-io-handler.js:92-105 | a response is recorded, and its decoder exchanges a token for its value |
| MVarHandler.Handler.ReleaseStashed | compiler/bin/eco-io-handler.js:108-116 | releases a token's value and touches nothing else |
| MVarHandler.Handler.WakeFirst | compiler/bin/eco-io-handler.js:190-217 | answers the first waiter exactly when it can be |
| MVarHandler.Handler.WakeUpMVarWaiters | compiler/bin/eco-io-handler.js:188-219 | the in-place loop does what the wake-up function says |
| MVarHandler.Handler.New | compiler/bin/eco-io-handler.js:750-755 | the in-place form of creation |
| MVarHandler.Handler.Read | compiler/bin/eco-io-handler.js:774-786 | the in-place form of read |
| MVarHandler.Handler.Take | compiler/bin/eco-io-handler.js:788-803 | the in-place form of take: the answer, then the wake-up |
| MVarHandler.Handler.Put | compiler/bin/eco-io-handler.js:988-1004 | the in-place form of put |
| MVarHandler.Handler.Drop | compiler/bin/eco-io-handler.js:757-772 | the in-place form of drop |
| MVarHandler.Handler.ReleasePuts | compiler/bin/eco-io-handler.js:764-766 | the loop that releases what waiting puts carry |
| MVarHandler.Handler.Refuse | compiler/bin/eco-io-handler.js:768-770 | the loop that refuses the waiters |
| MVarHandler.Handler.Stash | compiler/bin/eco-io-handler.js:83-91 | stores the value and returns the low 32 bits of its id |
| Tarjan.Finder.constructor | compiler/scripts/check-folder-cycles.py:35-35 | the search starts with nothing numbered |
| Tarjan.Finder.Run | compiler/scripts/check-folder-cycles.py:52-55 | on every finite graph the components emitted cover exactly the nodes, each is a maximal set of mutually reachable nodes, disjoint from the others, and edges lead to the same or earlier ones |
| Tarjan.Finder.Visit | compiler/scripts/check-folder-cycles.py:37-50 | one recursive visit: what it numbers, pops and emits, and that its low link is the number of a reachable node still on the stack, none lower being linked |
| Tarjan.Finder.Enter | compiler/scripts/check-folder-cycles.py:38-38 | numbers and stacks a node, which begins the loop over its successors |
| Tarjan.Finder.PopTo | compiler/scripts/check-folder-cycles.py:45-49 | the inner loop pops down to and including the node, in stack order |
| Tarjan.Finder.Leave | compiler/scripts/check-folder-cycles.py:44-50 | a visit that is first of its component emits it; another keeps its nodes on the stack |
| Tarjan.SharedIffMutual | compiler/scripts/check-folder-cycles.py:34-55 | two nodes share a component exactly when each reaches the other |
| Tarjan.EmittedInReverseOrder | compiler/scripts/check-folder-cycles.py:34-55 | a node reaches only its own component and those emitted before |
| Tarjan.OnlyOneComponent | compiler/scripts/check-folder-cycles.py:34-55 | no node is in two components |
| Tarjan.ComponentIsScc | compiler/scripts/check-folder-cycles.py:44-50 | what lies above the root on the stack is exactly its component |
| Tarjan.SuccessorOnStack | compiler/scripts/check-folder-cycles.py:41-42 | lowering the link by a stacked successor keeps the loop invariant |
| Tarjan.SuccessorVisited | compiler/scripts/check-folder-cycles.py:38-40 | so does visiting a new one |
| Tarjan.SuccessorDone | compiler/scripts/check-folder-cycles.py:41-42 | and so does passing by one already emitted |
| Tarjan.KeepOnStack | compiler/scripts/check-folder-cycles.py:43-50 | a node that is not a root can return to a visit in progress |
| Tarjan.EmptyStack | compiler/scripts/check-folder-cycles.py:52-55 | with no visit in progress nothing is left on the stack |
| Tarjan.ReportedIffOnCycle | compiler/ess.py:158-218 | a function is reported if and only if it reaches itself by at least one call, a function that is no key of the graph having none |
| Tarjan.RealCycleIffReturns | compiler/ess.py:205-212 | a component has several members or a self-loop exactly when its members return to themselves |
| Tarjan.CyclesMembers | compiler/ess.py:205-212 | the filter keeps exactly the real cycles |
| Perceus.InsertIncDecOperations | design_docs/perceus_gc/inc_dec.rs:31-53 | the whole pass, from any well-formed program: run with the inserted counts, every procedure without parameters computes the value of the original without touching a freed cell, gets stuck or runs out of fuel alike, and leaves nothing once the value is dropped |
| Perceus.ComponentsInOrder | design_docs/perceus_gc/inc_dec.rs:31-41 | components of the call graph in the order a component search emits them are in dependency order, which the inference needs |
| IncDecProof.InsertionCorrect | design_docs/perceus_gc/inc_dec.rs:182-222 | running the instrumented program touches no freed cell, computes the value of the original, and ends with every count equal to the references that exist; it is stuck or out of fuel exactly when the original is |
| IncDecProof.NothingLeaks | design_docs/perceus_gc/inc_dec.rs:182-222 | once the result is dropped every cell ever allocated was freed, exactly once |
| IncDecProof.ProcCorrect | design_docs/perceus_gc/inc_dec.rs:182-222 | a procedure run from what its caller leaves, owned parameters handed over and borrowed ones lent |
| IncDecProof.StmtCorrect | design_docs/perceus_gc/inc_dec.rs:230-336 | a statement, from any heap in which the owned symbols are paid for |
| IncDecProof.LetCorrect | design_docs/perceus_gc/inc_dec.rs:239-278 | a binding and its rest, dropped first when unused |
| IncDecProof.BindingCorrect | design_docs/perceus_gc/inc_dec.rs:433-552 | each kind of expression |
| IncDecProof.CallCorrect | design_docs/perceus_gc/inc_dec.rs:524-552 | a call by name: owned arguments are paid for, lent ones dropped after a last use |
| IncDecProof.ReturnCorrect | design_docs/perceus_gc/inc_dec.rs:331-336 | a return hands over an owned reference |
| IncDecProof.TakenInserted | design_docs/perceus_gc/inc_dec.rs:283-326 | on every branch of a switch, what any branch consumes is consumed |
| RcIr.FreedIsCaught | design_docs/perceus_gc/inc_dec.rs:433-552 | whatever reads, stores, increments or decrements through a freed cell is caught as an error, which a correct run therefore never does |
| RcIr.SelectFirst | design_docs/perceus_gc/inc_dec.rs:283-326 | a switch takes the first branch whose label is the value |
| RcIr.TakenIs | design_docs/perceus_gc/inc_dec.rs:283-326 | and the default exactly when there is none |
| IncDecProof.IncsRun | design_docs/perceus_gc/inc_dec.rs:454-458 | the inserted increments pay for every use beyond the one owned |
| IncDecProof.DecsRun | design_docs/perceus_gc/inc_dec.rs:442-446 | the inserted decrements drop what is owned and no more |
| RefcountEnv.RefcountEnvironment.constructor | design_docs/perceus_gc/inc_dec.rs:191-205 | an environment with given ownership |
| RefcountEnv.RefcountEnvironment.ConsumeSymbol | design_docs/perceus_gc/inc_dec.rs:144-158 | marks a tracked symbol consumed and says what it was |
| RefcountEnv.RefcountEnvironment.AddSymbol | design_docs/perceus_gc/inc_dec.rs:161-175 | a counted symbol starts owned, another is not tracked |
| RefcountEnv.RefcountEnvironment.RemoveSymbol | design_docs/perceus_gc/inc_dec.rs:269-270 | a symbol out of scope is forgotten |
| RefcountEnv.RefcountEnvironment.ConsumeAndInsertDecStmts | design_docs/perceus_gc/inc_dec.rs:442-446 | the in-place form of inserting decrements |
| RefcountEnv.RefcountEnvironment.ConsumeAndInsertIncStmts | design_docs/perceus_gc/inc_dec.rs:454-458 | the in-place form of inserting increments |
| RefcountEnv.RefcountEnvironment.InsertBindingStmt | design_docs/perceus_gc/inc_dec.rs:433-576 | the in-place form of the rule for a binding |
| RefcountEnv.RefcountEnvironment.InsertStmt | design_docs/perceus_gc/inc_dec.rs:230-336 | the in-place pass does what the pass function says |
| RefcountEnv.RefcountEnvironment.InsertLets | design_docs/perceus_gc/inc_dec.rs:239-278 | collecting a run of lets and folding it back from the end is the recursive rule |
| RefcountEnv.RefcountEnvironment.InsertSwitch | design_docs/perceus_gc/inc_dec.rs:283-326 | branches are processed in copies of the environment and reconciled |
| RcHeap.IncrementCorrect | design_docs/perceus_gc/utils.zig:99-123 | an increment by any amount keeps every count equal to the references that exist |
| RcHeap.AllocateCorrect | design_docs/perceus_gc/utils.zig:346-375 | a new cell, with count 1, takes over the references of its fields |
| RcHeap.DecrementCorrect | design_docs/perceus_gc/refcounting.rs:333-375 | a decrement, with the frees it sets off, keeps counts equal to references and touches no freed cell |
| RcHeap.ReleaseCorrect | design_docs/perceus_gc/refcounting.rs:380-477 | freeing a cell first and then dropping what it referred to, over any list of references still to drop, ends, keeps counts equal to references and touches no freed cell |
| RcHeap.NoOwnersNoCells | design_docs/perceus_gc/refcounting.rs:380-477 | with no owner left every cell was freed |
| Borrow.InferBorrowSignatures | design_docs/perceus_gc/borrow.rs:103-181 | the passes end, with the least signatures that own what the layouts give by default, what a body may return, and what it passes for a parameter its callee owns |
| Borrow.ClosedIsFixed | design_docs/perceus_gc/borrow.rs:135-178 | a procedure owns all its body demands if and only if inspecting it again changes nothing |
| Borrow.Pass | design_docs/perceus_gc/borrow.rs:135-178 | a pass keeps the signatures below every admissible choice, and either changes nothing and closes its group or strictly lowers the number of borrowed flags |
| Borrow.StepKeepsLeast | design_docs/perceus_gc/borrow.rs:236-251 | one inspection keeps them below every admissible choice |
| Borrow.EarlierStayClosed | design_docs/perceus_gc/borrow.rs:103-181 | groups already done stay closed while a later one changes |
| Borrow.MarksDemanded | design_docs/perceus_gc/borrow.rs:254-363 | the inspection marks a symbol exactly when the body may return it or passes it for a parameter its callee owns |
| Borrow.MarkedMono | design_docs/perceus_gc/borrow.rs:254-363 | owning more parameters marks at least as much |
| Borrow.MarkedDepends | design_docs/perceus_gc/borrow.rs:254-363 | what a body marks depends only on the signatures of what it calls |
| Borrow.AdmissibleIsProgramOk | design_docs/perceus_gc/borrow.rs:103-181 | the inferred signatures are what the insertion pass relies on |
| Borrow.State.constructor | design_docs/perceus_gc/borrow.rs:149-155 | the inspection of one procedure starts unmodified, from the packed word it is given |
| Borrow.State.MarkOwned | design_docs/perceus_gc/borrow.rs:236-251 | of the packed word exactly the flag of the parameter of that name becomes owned, every other stays, and it says whether anything changed |
| Borrow.State.InspectCall | design_docs/perceus_gc/borrow.rs:321-363 | a flag is owned after a call exactly if it was before or its parameter is passed for one the callee owns |
| Borrow.State.InspectStmt | design_docs/perceus_gc/borrow.rs:254-312 | a flag is owned afterwards exactly if it was before or the return or call rule demands its parameter of the body |
| Borrow.FromLayouts | design_docs/perceus_gc/borrow.rs:37-47 | the packed word built flag by flag holds the layouts' defaults |
| Borrow.FromLayout | design_docs/perceus_gc/borrow.rs:37-47 | a parameter is borrowed by default if and only if it is a string or a list, also behind lambda sets |
| Borrow.DefaultWords | design_docs/perceus_gc/borrow.rs:108-121 | every procedure starts with the word of its layouts' defaults |
| BorrowSignature.Layout | design_docs/perceus_gc/borrow.rs:20-28 | the length is the low byte, and the flag of parameter i is bit 8 + i |
| BorrowSignature.NewIsBorrowed | design_docs/perceus_gc/borrow.rs:30-35 | a new word has its length and every parameter borrowed |
| BorrowSignature.SetRefinesUpdate | design_docs/perceus_gc/borrow.rs:50-77 | the packed word is an array of flags: setting one changes that one and no other, and says whether it changed |
| BorrowSignature.FlagsSet | design_docs/perceus_gc/borrow.rs:62-77 | setting a flag of the word is updating that place of the sequence of flags it stands for |
| BorrowSignature.FlagsGet | design_docs/perceus_gc/borrow.rs:50-60 | reading a flag of the word is reading that sequence, and nothing past its end |
| BorrowSignature.FlagsNew | design_docs/perceus_gc/borrow.rs:30-35 | a new word stands for all borrowed |
| Arena.Build | benchmarks/l3-corunner.cpp:65-79 | for every sequence of random choices, following next from any record visits each of the n records exactly once and comes back; payloads are the places in the order |
| Arena.Shuffle | benchmarks/l3-corunner.cpp:69-75 | the order is that of the swaps chosen, and holds each record once |
| Arena.ChoicesTellApart | benchmarks/l3-corunner.cpp:71-75 | no two sequences of choices give the same order |
| Arena.Link | benchmarks/l3-corunner.cpp:76-79 | the records are chained in the shuffled order, the last one to the first |
| Arena.ChainIsCycle | benchmarks/l3-corunner.cpp:76-79 | such a chain is one cycle through all records |
| Arena.ChainInPlace | benchmarks/l3-corunner.cpp:76-79 | each record's next is in the place after its own |
| UnicodeClasses.Ranges | compiler/scripts/gen-unicode-classes.py:11-18 | the ranges are exactly the code points of the category from U+0080 on, ascending and with a gap between any two |
| UnicodeClasses.SearchFinds | compiler/scripts/gen-unicode-classes.py:87-108 | the binary search finds exactly what is in one of the ranges |
| UnicodeClasses.IsInClass | compiler/scripts/gen-unicode-classes.py:79-108 | the generated table and its search answer as the category does |

## Left out

- Dict: keys are integers; any other key type is compared by a total order in the same way.
- RadixArray.AppendCorrect: lengths above the largest Int, on which the language defines no arithmetic; `ReadsRightIffInt` says what that does to reads.
- RadixArray.Log32Correct: the source takes the logarithm in floating point and rounds down; the model takes the integer logarithm.
- RadixArray.InitializeCorrect: from length 2^36 up the source's count of leaves wraps to 32 bits, which is not modelled.
- EventLog.EveryRun: a table query is one step with one page; reading several pages keeps only the last one in the source (elm.js:7053-7060). Creating a channel again, which resets its counter, and timestamps and session keys are not modelled. Which end of the save list an event is popped from is not fixed, since the ports that do it are not part of this model.
- Snapshots.EverySnapshot: one channel; requests for several channels are handled one after the other by the same steps.
- RunQueue.EveryRun: on values, because the calls that re-enter come from code that is not shown; `Process.Step` is the in-place form of the step. Effect managers are the messages of a batch and their receivers, in order. A second call of a binding's callback is allowed, and so is starting a binding again when a message wakes the process. A binding's kill handle is outside code that runs before the kill; what it does beyond calling in is not modelled.
- Processes.Process.Step: follows the loop for any number of turns, since a task can run forever.
- Civil.CivilDate: the divisions are exact for minutes that an Elm Int holds, so they are integer divisions here; the search through the eras of a time zone is not modelled.
- Equality.Equal: references to identical values are given by a function; functions, on which the source crashes, and NaN are not values.
- MVarServer.EveryRun: a body is a token or not; the parsing of its 12 bytes is not modelled, nor the encodings of values that are not stashed.
- MVarStash.TokensTellApart: tokens are made at the time of their stash command; that the Elm side makes one when the task of a put is built (compiler/src-xhr/Eco/MVar.elm:101-106), and may run that task any number of times, is left to the commands of the run.
- MVarHandler: the answers to `new` and `drop` are not recorded as events; files, processes, HTTP and garbage collection in the same handler are not modelled.
- Tarjan.Finder.Run: the recursion limit of Python is not modelled, and the nodes are visited in any given order; the call graph itself is an input.
- IncDecProof.InsertionCorrect: join points and jumps, crashes, arrays, and calls by pointer, to foreign or low-level operations and of higher order are not in the fragment. Symbols are bound once. Locations are never reused, so that touching a freed cell would show.
- IncDec: the order in which a switch branch drops several symbols is that of a hash map in the source and ascending here.
- RcHeap.DecrementCorrect: a union cell with its fields; lists, strings, constants (count 0), null, tag bits, atomic counts and counts that overflow are not modelled. References of a freed cell are dropped in the order of its fields; the source drops those to the same type last.
- Borrow.InferBorrowSignatures: takes the procedures in dependency order; `Perceus` gets them from the component search of `Tarjan`, since the matrix the design uses for it is not part of this model. Join points are left out: marking a symbol of a join point does not set `modified` (design_docs/perceus_gc/borrow.rs:243-250), so a fixed point cannot be claimed there.
- Perceus.InsertIncDecOperations: wrappers of low-level operations, which the design skips (design_docs/perceus_gc/inc_dec.rs:44-47), are not in the fragment.
- BorrowSignature.SetRefinesUpdate: up to 55 parameters, which the source asserts (design_docs/perceus_gc/borrow.rs:30-33).
- Arena.Build: at least one record; with none the loop's start `n - 1` is not a place. The choices of the random number generator are an input.
- UnicodeClasses.Ranges: the category of a code point is an input, and the layout of the generated text is not modelled.
- JSON decoders, URL parsing, request signing, ports and the scripts that summarize benchmarks: thin, or dependent on their host.
- LLVM code generation, and the runtime of the reference counts beyond `RcHeap`: calls into code that is not shown.
