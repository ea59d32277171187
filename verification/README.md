# A verified model of three parts of YugabyteDB's source tree

This project states and proves, in Dafny, how three pieces of the repository behave.

**The client batcher and its RPCs** (`src/yb/client/batcher.cc`, `async_rpc.cc`). Operations are admitted,
looked up, queued, sorted, cut into RPCs, answered and retired; one flush callback runs at the end.
`FlushPlan` is the sort and the cut. `BatcherState` is the batcher itself: a class whose methods are the
regions under `mutex_`, each proved equal to a function on the batcher's fields. `BatcherRuns` is the
protocol: a state machine whose steps are these regions, the sending of one planned RPC, the end or retry of
an RPC, and the run of the callback. Calls that a thread makes after it has left the lock
(`CheckForFinishedFlush`, `FlushBuffersIfReady`, `FlushBuffer`, `RunCallback`) are part of the state as calls
still to be made, so that other threads can get in between. A step gives nothing when it would fail a
`CHECK` or call an empty callback. `BatcherOrder` follows the order of submission, and each operation with its
tablet, through a run. `BatcherErrors` ties the errors that are reported, and the status that the callback gets,
to the events of a run. `BatcherProgress` shows that the guard on `Abort` is the weakest one, and that a batcher
comes to rest. `AsyncRpc` is the shuffle of requests and responses between the operations and
the message of an RPC.

**The build dependency graph** (`python/yb/dependency_graph.py`). `Reachability` says what can be reached in
a graph; `DependencyGraph` has the graph and its three searches; `CycleCheck` the check for circular
dependencies; `GraphJson` saving and reading back. Nodes are named by canonical path, and a set is visited
in any order.

**Algorithms in the bundled d3** (`www/d3.v2.js`). `Dsv` is the printer and parser of delimiter-separated
values, as described in section 2 of RFC 4180; `TreemapRows`, `Squarify` and `TreemapLayout` are the
squarified treemap over real numbers; `Bundle` is the path between two nodes of a tree.

## Where the code differs from what it promises

- `batcher.h` says that a batch may be aborted while requests are out. `ProcessRpcStatus` then fails its
  `CHECK` on the state. `AbortWhileSent` is a run that gets there in every configuration, and
  `AbortGuardIsExact` gives the exact states in which `Abort` is safe.
- `batcher.h` promises `IOError` when an operation failed. With `combine_batcher_errors` the status is the
  combined one: `CallbackOnce` says which status every run delivers and exactly when that is `IOError`, and
  `DeliversOther` is a run that delivers another one. It depends on the order of the errors exactly when a
  per-row error carries an OK status and all others share one code other than Combined
  (`StatusOrderMatters`).
- A read RPC that gets too few responses of a kind stops at the first operation without one. That operation and
  those behind it keep the response they had (`ReadAnswers`), where a write RPC turns all of them into errors;
  `ReadMismatchFailsAll` is the exact condition.
- The check for circular dependencies stops looking at a node as soon as it meets a dependency that was
  visited before. It misses cycles (`MissedCycle`), for some order of visits exactly in the graphs that have
  a cycle and in which every node leads to one without dependencies (`WrittenFormIsRight`). Its error holds
  the list of the stack, which is empty again by the time the error is seen (`Checker.Run`).
- Printing does not quote a carriage return, and a parser at the end of the text cannot see an empty last
  field. `RoundTrip` says exactly which tables survive. The delimiter goes into two bracket expressions as it
  is, where `^`, `]`, a backslash and `-` mean something else: `PlainIsExact` says for exactly which
  delimiters all these tables survive, and `CaretLoses` and the lemmas beside it give a lost table for each of
  the others.
- The parser takes all three kinds of line breaks. A carriage return and the newline behind a blank row are read
  as one line break, so that the blank row is lost (`MeltedRowIsLost`). Of rows whose fields all survive, this and
  an empty last field at the end of the text are all that is ever lost (`AnyLineBreaks`).
- A treemap node of value zero with a child of positive value gets an infinite factor if there is room, and the
  layout fails. Values that sum up do not prevent this when one is negative (`CancelledHasNoLayout`); values
  that are not negative and sum up do. `SquarifyTree` and `Treemap` say exactly when there is no layout.

## Model

| member | source | states |
|---|---|---|
| `FlushPlan.SortOpsSorted` | src/yb/client/batcher.cc:477-489 | the sorted queue is a permutation of the queue in the comparator's strict order |
| `FlushPlan.SortUnique` | src/yb/client/batcher.cc:477-489 | with distinct sequence numbers there is only one sorted order, so any correct sort gives the same |
| `FlushPlan.ChunksCut` | src/yb/client/batcher.cc:491-521 | the RPCs cut the queue into consecutive non-empty runs of one tablet and group with at most 16 sidecars, and a run ends early only when the next operation needs it to |
| `FlushPlan.CutUnique` | src/yb/client/batcher.cc:491-521 | only one way of cutting has these properties |
| `FlushPlan.ScanOps` | src/yb/client/batcher.cc:491-515 | the loop with `start`, `start_group` and `num_sidecars` cuts the queue up to its last range by these rules, and hands over no empty range |
| `FlushPlan.CutIntoRpcs` | src/yb/client/batcher.cc:491-521 | the loop and the last RPC yield exactly that cut; consistent reads are asked for in all RPCs or none, namely when forced, transactional, or two RPCs or more, and only the last RPC may run in the current thread |
| `FlushPlan.ChunkCountBound` | src/yb/client/batcher.cc:491-521 | at most one RPC per tablet and group plus one per 16 sidecars |
| `FlushPlan.PlanShape` | src/yb/client/batcher.cc:477-521 | for every queue, the RPCs together are the sorted queue, each is well formed, and their number is bounded; `RpcRules` and `RpcOrder` say what this means for types and tablets |
| `FlushPlan.PlanOfSet` | src/yb/client/batcher.cc:477-521 | the RPCs depend on the set of looked-up operations, not on the order of the lookups |
| `FlushPlan.SubmissionOrder` | src/yb/client/batcher.cc:477-521 | operations of one tablet and group go out in the order of their sequence numbers, across RPCs too |
| `FlushPlan.SidecarsAreCounted` | src/yb/client/batcher.cc:500-511 | the sidecar count of a run of operations is the number of those with a sidecar |
| `FlushPlan.RpcRules` | src/yb/client/batcher.cc:422-521 | every RPC goes to one tablet and holds writes only, or only reads that all may, or all may not, be answered by a follower, with at most 16 sidecars; two adjacent RPCs that could have been one mean that the first has 16 |
| `FlushPlan.RpcOrder` | src/yb/client/batcher.cc:422-489 | RPCs go out by tablet, on one tablet all writes before all reads, and reads for leaders before reads for followers |
| `BatcherState.CombineAllForm` | src/yb/client/batcher.cc:336-346 | the running combination in closed form: leading OKs are absorbed, one shared code stays, anything else is Combined |
| `BatcherState.CombinedCode` | src/yb/client/batcher.cc:336-346 | without an OK among them, the combined code depends only on which codes were reported |
| `BatcherState.OrderMatters` | src/yb/client/batcher.cc:336-346 | the combined code depends on the order if and only if an OK is among the codes and the others share one code other than Combined |
| `BatcherState.StatusForm` | src/yb/client/batcher.cc:211-221 | the delivered status in closed form, and exactly when it is IOError |
| `BatcherState.StatusOrderMatters` | src/yb/client/batcher.cc:211-221 | the delivered status depends on the order of the errors if and only if errors are combined and the combined code does |
| `BatcherState.MarkAllFailedForm` | src/yb/client/batcher.cc:133-153 | failing distinct in-flight operations passes every CHECK and takes out exactly these |
| `BatcherState.EraseAllForm` | src/yb/client/batcher.cc:600-608 | erasing distinct in-flight operations passes every CHECK and takes out exactly these |
| `BatcherState.Batcher.CombineErrorUnlocked` | src/yb/client/batcher.cc:336-346 | the error is logged and combined, and nothing else changes |
| `BatcherState.Batcher.MarkInFlightOpFailedUnlocked` | src/yb/client/batcher.cc:348-353 | the CHECK holds exactly for an operation in flight, which then leaves with its error combined |
| `BatcherState.Batcher.AddInFlightOp` | src/yb/client/batcher.cc:322-330 | both CHECKs, and the new operation with the next sequence number and one more lookup |
| `BatcherState.Batcher.FlushAsync` | src/yb/client/batcher.cc:242-250 | the CHECK on the state, and the change to flushing with the callback set |
| `BatcherState.Batcher.TabletLookupFinished` | src/yb/client/batcher.cc:355-388 | aborted, failed and found lookups, with their CHECKs, that on a null tablet included |
| `BatcherState.Batcher.CheckForFinishedFlush` | src/yb/client/batcher.cc:192-202 | the flush is over exactly when flushing and drained, and only the state changes |
| `BatcherState.Batcher.Abort` | src/yb/client/batcher.cc:133-158 | the buffered operations, in some order, leave with the status; the callback is due if it was set |
| `BatcherState.Batcher.FlushBuffersIfReady` | src/yb/client/batcher.cc:433-521 | the queue is taken exactly when flushing, no lookup is out and the transaction is prepared, and the RPCs are then the plan of the queue, that `RpcRules` and `RpcOrder` are about, with uniform flags |
| `BatcherState.Batcher.ProcessRpcStatus` | src/yb/client/batcher.cc:618-632 | the CHECK on the state, and one error per operation of a failed RPC, as `LogIsReported` demands |
| `BatcherState.Batcher.ProcessRowErrors` | src/yb/client/batcher.cc:638-663 | the per-row errors in order; an index out of range is skipped |
| `BatcherState.Batcher.RemoveInFlightOpsAfterFlushing` | src/yb/client/batcher.cc:600-608 | the CHECKs hold exactly when all operations can be erased, and they are |
| `BatcherState.Batcher.RunCallback` | src/yb/client/batcher.cc:224-230 | the callback is taken out of its slot and runs; an empty slot is an error |
| `BatcherRuns.StepKeeps` | src/yb/client/batcher.cc:133-663 | every allowed step passes its CHECKs and keeps the invariant: lookups counted, the queue and the plan hold just the buffered operations, the live RPCs just the sent ones, one dispatch, errors and callback accounted for |
| `BatcherRuns.RunsAreSafe` | src/yb/client/batcher.cc:133-663 | every run from the construction on passes every CHECK and ends in the invariant |
| `BatcherRuns.CallbackOnce` | src/yb/client/batcher.h:255-258 | the callback runs once at most; without an abort only when nothing is in flight, and then with OK exactly when no error is in the log, with the combined code if there is one, and with IOError exactly otherwise; `CallbackTellsEvents` says the same of the events |
| `BatcherRuns.DeliversOther` | src/yb/client/batcher.h:123-128 | with combined errors, a run in which an operation fails with a code delivers that code, whichever it is |
| `BatcherRuns.EachOpLeavesOnce` | src/yb/client/batcher.h:260-263 | an operation that was added is in flight or has left exactly once |
| `BatcherRuns.DispatchIsComplete` | src/yb/client/batcher.cc:433-475 | a run dispatches once at most, after all lookups are over, and what is sent and to be sent is the plan of all operations that were found, each once, with uniform flags |
| `BatcherRuns.SameOpsSameRpcs` | src/yb/client/batcher.cc:477-521 | two runs that found the same operations send the same RPCs |
| `BatcherRuns.AbortIsFinal` | src/yb/client/batcher.cc:133-158 | after an abort, in every continuation: still aborted, nothing more is sent, and at most the announced callback runs |
| `BatcherRuns.AbortNotifiesOnce` | src/yb/client/batcher.h:95-98 | aborting a pending flush delivers the abort status once, and no unsent operation is sent later |
| `BatcherOrder.SeqnosFollowAdds` | src/yb/client/batcher.cc:322-330 | in every run, of two operations that were found, the one added earlier has the lower sequence number |
| `BatcherOrder.AddedFirstGoesFirst` | src/yb/client/batcher.h:265-269 | in every run, of two operations that can go together (one tablet, both writes or both reads, followers allowed for both or neither), the one added earlier goes out earlier: in an earlier RPC, or before the other in the same one |
| `BatcherOrder.SentIsAddedAndFound` | src/yb/client/batcher.cc:322-397 | in every run, what is sent or planned has the type, consistency and sidecar flag it was added with and is on the tablet that its lookup found; nothing is planned before a flush that finds the transaction ready |
| `BatcherErrors.LogIsReported` | src/yb/client/batcher.cc:133-663 | in every run, the error log is the list that its events demand: one error per failed lookup, per operation of a failed RPC, per row error in range and per aborted operation, in order |
| `BatcherErrors.NothingIsLost` | src/yb/client/batcher.cc:355-663 | in every run, the errors in the log and the row errors that an RPC has yet to tell are together those that became due |
| `BatcherErrors.CallbackTellsEvents` | src/yb/client/batcher.cc:192-222 | when the callback ran without an abort, its status is that of the errors that the events of the run demand; it is OK if and only if there was no failed lookup, failed RPC or row error in range |
| `BatcherProgress.UnguardedAbortFails` | src/yb/client/batcher.cc:618-623 | without the guard, some continuation fails a CHECK or calls an empty callback |
| `BatcherProgress.AbortGuardIsExact` | src/yb/client/batcher.cc:133-158 | an abort leaves all later runs free of failures if and only if no RPC is planned or out and no callback is about to run |
| `BatcherProgress.AbortWhileSent` | src/yb/client/batcher.cc:618-623 | in every configuration a run of five steps has a request out; after an abort, the end of that RPC fails the CHECK whatever it answers |
| `BatcherProgress.CompletionIsProgress` | src/yb/client/batcher.cc:355-405 | every completion strictly lowers a measure of the work that is left |
| `BatcherProgress.NeverStuck` | src/yb/client/async_rpc.cc:159-167 | short of rest some completion can always happen |
| `BatcherProgress.CompletionsEndAtRest` | src/yb/client/async_rpc.cc:159-167 | in every state of every run, any sequence of completions is no longer than the work and the row errors in it, and no completion is due any more exactly at rest |
| `BatcherProgress.RestMeansDone` | src/yb/client/batcher.cc:160-168 | at rest after a flush or an abort, the CHECKs of the destructor hold and a callback that was asked for has run once |
| `BatcherProgress.ComesToRest` | src/yb/client/batcher.cc:160-168 | from every state that keeps the invariant some completions lead to rest |
| `AsyncRpc.RequestSurvives` | src/yb/client/async_rpc.cc:440-477 | loading and restoring gives an operation its request back if and only if it is in the batch once or its request was empty |
| `AsyncRpc.CountIsPlaces` | src/yb/client/async_rpc.cc:479-541 | the rank of an operation is the number of operations of its kind in front of it |
| `AsyncRpc.WriteAnswers` | src/yb/client/async_rpc.cc:479-558 | a mismatch exactly when some count differs, and then every response tells of the write mismatch; else each operation has the response at its rank among its kind |
| `AsyncRpc.ReadAnswers` | src/yb/client/async_rpc.cc:701-778 | the same with the read mismatch, but errors only when no kind is short; when one is, operations before the first one without a response have theirs, and it and those behind it keep the old one |
| `AsyncRpc.ReadMismatchFailsAll` | src/yb/client/async_rpc.cc:701-778 | with responses that were no errors before, a mismatch makes all of them errors if and only if no kind is short |
| `AsyncRpc.GivesUpWhenShort` | src/yb/client/async_rpc.cc:701-762 | the read loop stops early if and only if some kind has too few responses |
| `AsyncRpc.AllWillTell` | src/yb/client/async_rpc.cc:169-220 | failing all operations leaves each with the status and text of the failure, whatever repeats there are |
| `AsyncRpc.Rpc.constructor` | src/yb/client/async_rpc.cc:314-386 | the requests are in the message of the RPC, by kind and in order |
| `AsyncRpc.Rpc.MoveRequests` | src/yb/client/async_rpc.cc:349-385 | the loop of the constructor, in place |
| `AsyncRpc.Rpc.RestoreRequests` | src/yb/client/async_rpc.cc:440-475 | the restoring loop with three running indices, in place; every index is in range |
| `AsyncRpc.Rpc.Failed` | src/yb/client/async_rpc.cc:169-220 | every response becomes the error of its kind: a restart exactly for a status to try again, a parsing error exactly for an invalid Redis command, the text of the move exactly for a Redis operation in an illegal state, and PostgreSQL responses keep their payload |
| `AsyncRpc.Rpc.HandOut` | src/yb/client/async_rpc.cc:479-541 | the response loop of a write, in place; the indices end as the counts of the kinds |
| `AsyncRpc.Rpc.HandOutUntilShort` | src/yb/client/async_rpc.cc:701-762 | the response loop of a read, in place, and the place where it stops |
| `AsyncRpc.Rpc.TakeWriteResponses` | src/yb/client/async_rpc.cc:479-558 | the responses and the mismatch signal, at most one, are those that `WriteAnswers` is about |
| `AsyncRpc.Rpc.TakeReadResponses` | src/yb/client/async_rpc.cc:701-778 | the responses and the mismatch signal, at most one, are those that `ReadAnswers` is about |
| `AsyncRpc.Rpc.Attempt` | src/yb/client/async_rpc.cc:159-167 | a retry leaves the requests in the message |
| `AsyncRpc.Rpc.GiveBackRequests` | src/yb/client/async_rpc.cc:440-477 | after any number of attempts the single restoring pass gives all requests back, and the responses stay |
| `AsyncRpc.Rpc.ProcessResponseFromTserver` | src/yb/client/async_rpc.cc:560-572 | on all three paths (no reply, error for all, responses) the requests are given back, the responses are as the path says, and a mismatch is signalled once at most and only when there are responses |
| `DependencyGraph.BuildGraph.FindOrCreateNode` | python/yb/dependency_graph.py:834-848 | the node of the canonical path, new without edges if it was not there; the two edge tables stay each other's inverse |
| `DependencyGraph.BuildGraph.AddDependency` | python/yb/dependency_graph.py:186-189 | the edge in both tables, or a failed assertion and no change for a node and itself |
| `DependencyGraph.DepsWalk.Walk` | python/yb/dependency_graph.py:319-325 | what the walk adds follows the node and is closed under dependencies, on cyclic graphs too |
| `DependencyGraph.RecursiveDeps` | python/yb/dependency_graph.py:311-326 | exactly the nodes reached in one step or more |
| `DependencyGraph.TargetWalk.Walk` | python/yb/dependency_graph.py:472-479 | what the walk visits follows the target and is closed, and the result gets all of it but an excluded start |
| `DependencyGraph.RecursiveCmakeDeps` | python/yb/dependency_graph.py:468-482 | the same relation without the target itself |
| `DependencyGraph.AffectedSearch.Dfs` | python/yb/dependency_graph.py:885-893 | the results are the wanted ones among the visited, and what is visited is closed and follows the node |
| `DependencyGraph.AffectedSearch.Run` | python/yb/dependency_graph.py:895-896 | the visited nodes contain the start nodes, are closed, and are all reached from these |
| `DependencyGraph.FindAffectedNodes` | python/yb/dependency_graph.py:876-898 | exactly the nodes of the requested type that the start nodes reach along the reverse edges, less the start nodes |
| `DependencyGraph.BuildGraph.AffectedBy` | python/yb/dependency_graph.py:876-898 | in every graph that was built, exactly the nodes of the type that depend, directly or not, on a start node |
| `CycleCheck.RaiseIsSound` | python/yb/dependency_graph.py:1037-1061 | in any order, a raise has a stack that is a chain of dependencies and closes, so there is a cycle |
| `CycleCheck.GoingOnIsExact` | python/yb/dependency_graph.py:1037-1061 | if the walk went on with the next dependency, it would raise if and only if there is a cycle |
| `CycleCheck.PassesInSomeOrder` | python/yb/dependency_graph.py:1042-1058 | as written, some order passes if and only if every node leads to one without dependencies |
| `CycleCheck.WrittenFormIsRight` | python/yb/dependency_graph.py:1042-1058 | as written, the check is right in every order if and only if there is no cycle or some node leads to no node without dependencies |
| `CycleCheck.MissedCycle` | python/yb/dependency_graph.py:1048-1053 | a cycle of two nodes that is missed when a third node is visited first |
| `CycleCheck.WalkScans` | python/yb/dependency_graph.py:1042-1055 | in any one order, the walk of a new node takes its dependencies one after the other, each new when it is looked at and visited after; it ends with the last one or at one that was visited before, and raises at one that is on the stack or in the walk of a new one |
| `CycleCheck.RaisesWhenLooking` | python/yb/dependency_graph.py:1037-1061 | in any one order, the check raises if and only if its steps get to a look at a dependency that is visited and on the stack, and passes if and only if they get to the end |
| `CycleCheck.Checker.Visit` | python/yb/dependency_graph.py:1042-1055 | the walk that `WalkScans` is about, with its set and stack in place; the stack is put back on every way out |
| `CycleCheck.Checker.Run` | python/yb/dependency_graph.py:1057-1058 | raises exactly when the check does that `RaisesWhenLooking` is about, and leaves an empty stack even then |
| `GraphJson.Saver.NodeId` | python/yb/dependency_graph.py:920-926 | numbers from 1 on with none left out, given on first mention, never shared and never changed |
| `GraphJson.Saver.Save` | python/yb/dependency_graph.py:928-939 | one record per node with its number, its path and the numbers of its dependencies |
| `GraphJson.ByIdIsLast` | python/yb/dependency_graph.py:850-860 | a number stands for the last record that has it |
| `GraphJson.Load` | python/yb/dependency_graph.py:850-860 | succeeds if and only if every number has a record and no node depends on itself; then the graph is the one that the records state |
| `GraphJson.SavedLoads` | python/yb/dependency_graph.py:850-939 | whatever the orders, what is saved can be read and states the graph that was saved |
| `GraphJson.LoadedIsUnique` | python/yb/dependency_graph.py:850-860 | the records determine the nodes and both edge tables |
| `GraphJson.SaveAndLoad` | python/yb/dependency_graph.py:850-939 | saving and reading back gives the same nodes, dependencies and reverse dependencies |
| `Dsv.UnescapeEscape` | www/d3.v2.js:5195-5223 | un-doubling quotes undoes doubling them |
| `Dsv.CloseQuoteFound` | www/d3.v2.js:5180-5186 | the scan of a quoted value stops at the quote that the printer put there |
| `Dsv.RoundTrip` | www/d3.v2.js:5169-5224 | parsing what was printed gives the table back if and only if no row is empty, a field with a carriage return also has a quote, delimiter or newline, and the very last field is not empty |
| `Dsv.FormatIsLines` | www/d3.v2.js:5216-5218 | the printer ends every row but the last with a newline |
| `Dsv.AnyLineBreaks` | www/d3.v2.js:5150-5215 | what is read of printed rows that end in any mix of the three line breaks, with or without one at the end; all rows are read if and only if no blank row is between a carriage return and a newline and the last field has a character or a line break behind it |
| `Dsv.LinesRoundTrip` | www/d3.v2.js:5150-5224 | for all rows where no line breaks melt, the rows are read back if and only if all are kept and the last field is closed; `RoundTrip` is the case of newlines between rows |
| `Dsv.PreservedLines` | www/d3.v2.js:5150-5224 | a table that survives is read back with any line breaks, and whether or not there is one at its end, unless line breaks melt |
| `Dsv.MeltedRowIsLost` | www/d3.v2.js:5150-5201 | a blank row between a carriage return and a newline is lost |
| `Dsv.UnclosedValue` | www/d3.v2.js:5180-5195 | a value whose quote is never closed is all that is left of the text |
| `Dsv.StrayCharacter` | www/d3.v2.js:5187-5195 | a character behind a closing quote that ends no line is taken as the delimiter |
| `Dsv.PlainIsExact` | www/d3.v2.js:5149-5150 | of all single code units, those with which every such table survives are exactly all but a quote, the two line-break characters, `^`, `]`, the backslash and `-` |
| `Dsv.CaretLoses` | www/d3.v2.js:5150 | with `^` a table of one field is lost |
| `Dsv.UnseenLoses` | www/d3.v2.js:5150 | with `]` or the backslash a row of two fields is lost |
| `Dsv.QuoteLoses` | www/d3.v2.js:5179-5196 | with a quote a row that starts with an empty field is lost |
| `Dsv.ReturnLoses` | www/d3.v2.js:5197-5201 | with a carriage return a line that ends in an empty field is joined with the next |
| `Dsv.NewlineLoses` | www/d3.v2.js:5197-5201 | with a newline two lines become one |
| `Dsv.Parser.ScanQuoted` | www/d3.v2.js:5180-5186 | the loop over a quoted value ends where the model says |
| `Dsv.Parser.QuotedField` | www/d3.v2.js:5179-5196 | the value, the next position and the line flag of a quoted field, as `AnyLineBreaks`, `UnclosedValue` and `StrayCharacter` need them |
| `Dsv.Parser.PlainField` | www/d3.v2.js:5197-5203 | the value, the next position and the line flag of an unquoted field |
| `Dsv.Parser.ReadToken` | www/d3.v2.js:5172-5204 | the next token and state |
| `Dsv.Parser.ReadRow` | www/d3.v2.js:5206-5210 | the fields up to the end of the line |
| `Dsv.Parser.ReadRows` | www/d3.v2.js:5169-5215 | the rows that `RoundTrip` and `AnyLineBreaks` are about |
| `TreemapRows.RowFills` | www/d3.v2.js:5046-5075 | the cells of a row cover its strip exactly once, for any rounding that keeps non-negative numbers so |
| `TreemapRows.RowExact` | www/d3.v2.js:5046-5075 | with room for just their areas, the cells have these areas |
| `TreemapRows.RowOfTight` | www/d3.v2.js:5046-5075 | without rounding, the row takes the area of its children off the rectangle, never more than there is |
| `TreemapRows.LayRow` | www/d3.v2.js:5048-5074 | the loop places the children side by side, and the one placed last goes on to the end |
| `TreemapRows.Position` | www/d3.v2.js:5046-5075 | the cells of the row and what is left of the rectangle |
| `Squarify.Worst` | www/d3.v2.js:5035-5045 | for a ratio that is not negative, the score is the worst aspect among the non-empty cells, and infinite without an area, a side or a ratio; for any ratio, exactly when it is infinite |
| `Squarify.AspectOfCell` | www/d3.v2.js:5035-5045 | the two quotients of the score are the length of a cell over its depth, times the ratio, and the inverse |
| `Squarify.NotBoth` | www/d3.v2.js:5000 | a row with one more child is never both worse and no worse |
| `Squarify.Try` | www/d3.v2.js:4997-5003 | a child that is tried stays if the row gets no worse; otherwise the row before it is cut where it must be |
| `Squarify.PlaceRows` | www/d3.v2.js:4991-5013 | the cells come in rows from the last child to the first, each along the shorter side of what is left, each child no worse for its row than the row without it, and each row cut where the next child would make it worse; the last row takes all that is left |
| `Squarify.SquarifiedTiles` | www/d3.v2.js:4991-5075 | all cells in such rows tile the rectangle, for any rounding that keeps non-negative numbers so, and without rounding have their areas |
| `Squarify.SquarifiedUnique` | www/d3.v2.js:4991-5075 | for a ratio that is not negative, only one list of cells comes in such rows |
| `Squarify.CellsSnap` | www/d3.v2.js:5046-5075 | rounding to whole numbers keeps all cells of a rectangle on the grid there |
| `Squarify.Arrange` | www/d3.v2.js:4991-5017 | the loop ends; the cells come in squarified rows and tile the rectangle: every point of it in exactly one cell, every other point in none; without rounding, areas that sum up to the rectangle are met exactly |
| `TreemapLayout.PadPoints` | www/d3.v2.js:5132-5148 | the padded rectangle has just the points inside of all four margins |
| `TreemapLayout.PadMeets` | www/d3.v2.js:5134-5141 | where margins overlap it is an edge half way between them |
| `TreemapLayout.ScaledShare` | www/d3.v2.js:4984-4990 | a child has an area if and only if its value and the factor are positive, and then it is their product |
| `TreemapLayout.Scale` | www/d3.v2.js:4984-4990 | the areas of the children, none negative, or a failure exactly when one of them would be infinite |
| `TreemapLayout.SquarifyTree` | www/d3.v2.js:4991-5017 | at every node of the tree the children come in squarified rows that tile the padded rectangle, for any ratio; there is no layout exactly when, as far as it got, some node of value zero has room and a child of positive value, and this can be told before the call when the trees below the children have no such node |
| `TreemapLayout.SquarifyChildren` | www/d3.v2.js:5015 | the children are laid out in their cells one after the other, up to the first one without a layout |
| `TreemapLayout.LeavesCover` | www/d3.v2.js:4991-5148 | the leaves of a tree never overlap and stay inside, and without padding leave no gap |
| `TreemapLayout.NodesSnap` | www/d3.v2.js:4991-5087 | without padding, rounding to whole numbers keeps every node of the tree on the grid |
| `TreemapLayout.AreasInProportion` | www/d3.v2.js:4984-5017 | without rounding and padding, every node of the tree has an area in proportion to its value |
| `TreemapLayout.Treemap` | www/d3.v2.js:5076-5087 | all of this for a tree and a size; a tree whose values are not negative and sum up always has a layout |
| `TreemapLayout.CancelledHasNoLayout` | www/d3.v2.js:4984-4994 | two children of values 1 and -1 sum up and have no layout in any size |
| `Bundle.Ancestors` | www/d3.v2.js:3832-3841 | the nodes from one node up to the root |
| `Bundle.LastAgreed` | www/d3.v2.js:3844-3850 | the lists are read as far as they agree, and cannot both run out, so the loop ends |
| `Bundle.LeastCommonAncestor` | www/d3.v2.js:3842-3851 | a common ancestor, and the deepest one |
| `Bundle.PathIsSimple` | www/d3.v2.js:3819-3831 | up to the ancestor and down again is a path that visits no node twice |
| `Bundle.SimpleIsUpAndDown` | www/d3.v2.js:3819-3831 | every path that visits no node twice is this one |
| `Bundle.BundlePath` | www/d3.v2.js:3819-3831 | the path built with push and splice is the only simple path from source to target |

## Left out

- Networking, proxies, metrics, tracing, deadlines, buffer sizes and the copying of sidecar bytes.
- `TabletInvoker`, `YBTransaction::Prepare`, tablet lookups and the error collector are outcomes that may be anything, and a log; identities of operations and tablets are numbers.
- Interleavings of `Abort` with code outside `mutex_`: the guard is part of what a caller must keep, and it is proved exact; the lock of a single operation is not modelled.
- The flag that lets Redis reads go to followers is fixed during a flush.
- `std::sort` is modelled by what it promises, with an insertion sort in its place.
- The dispatch of a flush to the session (`FlushFinished`) and to the transaction (`Flushed`), and debug-only partition checks.
- Row errors with an OK status are kept as the code allows them; whether a server sends them is not modelled.
- Parsing of make, ninja and link files, existence checks, git calls, node types by path and the cache of canonical paths in dependency_graph.py; canonical paths are taken to be fixed points.
- The JSON text itself: a saved graph is its list of records.
- Delimiters of more than one UTF-16 code unit, and strings with half a surrogate pair.
- `dsv.parse` with its header objects, and the row callback of `parseRows`.
- Sticky treemaps (`stickify` and the `z` flag), hierarchy construction and sorting.
- A treemap ratio below zero: the cells still tile, but nothing is said of where rows are cut.
- Floating-point rounding, negative zero and NaN; that the loop fails on an infinite area is taken as given, because the score is then not a number, no first child of a row is taken, and an empty row has no last child.
- The spline that draws a bundle path, and the rest of d3.
