# Workflow service: a verified model

This project models the core of a workflow automation service written in Go and proves what the service
promises about it. A workflow is a graph of nodes; the service executes it with a stack of pending nodes,
records every output, can retry a failed run, runs many executions concurrently, answers webhook requests
from inside a run, and decodes and transforms the data that flows between nodes.

| file | what it covers |
|---|---|
| `JsonValues.dfy` | JSON values, `Option`, `Result`, facts about sequences |
| `Graph.dfy` | the connection graph and its inversion |
| `Workflows.dfy`, `Iteration.dfy` | workflows and nodes; repeating a step, and what every repetition keeps |
| `Execution.dfy` | the run loop as a step function on values |
| `WorkflowRunner.dfy` | the run loop, the stack and the sort as objects and arrays updated in place, proved equal to the step function |
| `LoopMeaning.dfy` | what the loop pushes, records and notes, in terms of the stored workflow alone |
| `RunHistory.dfy` | what every state of a fresh run keeps |
| `Starvation.dfy` | nodes that wait for disabled nodes never run |
| `Termination.dfy` | the loop ends on acyclic graphs, with a bound |
| `Traversal.dfy` | the loop is a recursive depth-first traversal |
| `Retry.dfy`, `FaithfulRetry.dfy`, `RetryInstances.dfy` | rebuilding a failed run, why the rest of the run is the same, and concrete failed runs |
| `ActiveExecutions.dfy` | the registry of running executions, all interleavings |
| `WebhookReply.dfy` | the handler that answers from inside a run, all interleavings |
| `DisplayOptions.dfy`, `DisplayMeaning.dfy` | selection of displayed properties as a least fixpoint, and what its rules mean |
| `DeepMerge.dfy`, `MergeJoin.dfy`, `JoinMeaning.dfy` | the merge node: deep merge and join, and the join in terms of the values in the items |
| `ExpressionScanner.dfy`, `TemplateRendering.dfy` | splitting and evaluating templates |
| `BracketParameters.dfy`, `NestedMaps.dfy` | bracketed query keys to a nested tree, as values and as maps updated in place |
| `Unflatten.dfy` | index tables to JSON values |
| `WebhookTable.dfy` | the table of registered webhooks |

Whatever Go leaves open is a parameter: the iteration order of maps, the order in which the library sort
leaves nodes at one position, what a node or a piece of JavaScript returns. Theorems hold for every value of
these parameters. A Go run-time panic is an outcome of its own (`Panicked`, `None`), never excluded by a
precondition of the step functions.

## What the proofs found

- Retry (`service/workflow_service/api/execution.go:168-209`) restores the run data of the moment before the
  failed node was popped exactly when the failure carried an error, and then leaves an empty list under the
  node's name where there was no entry. Every failure of the repository's own nodes carries one, because it is
  built by `GenerateFailedResponse` (`service/workflow_service/core/execute_function.go:28-38`); the other case
  needs a node type that the repository does not have. A failed start node cannot be retried at all: no source
  was noted for it, and the handler answers that the source was not found. `RetryInstances.dfy` has a concrete
  run of each kind.
- A node with several main inputs, one of which is fed first by a disabled node, never runs unless the run
  starts with it: disabled nodes pass data on but record none, and the loop waits for a record
  (`service/workflow_service/core/workflow_execute.go:348-373` and `:515-523`).
- `ExecuteAsync` looks its entry up after starting the goroutine, and gets no handle exactly when the run has
  already removed its entry (`service/workflow_service/core/active_executions.go:117-159`). The goroutine of such
  a run waits for ever on its unbuffered channel, and a shutdown then ends only by its timeout. The same happens to
  every run whose caller does not wait for it: because the request was cancelled, because the response was already
  sent, or because the caller throws the handle away, as the immediate webhook response and the trigger endpoint do
  (`service/workflow_service/api/webhook.go:101` and `:316`). Such a run ends only if it panics, and then not
  regularly.
- In the reply handler a cancelled context can be picked while a respond node is inside the once and about to
  notify; handler and goroutine then wait for each other (`service/workflow_service/api/webhook.go:155-165`,
  `shared/structs/workflow.go:638-656`).
- `escapeCode` is commented as removing the escape character before a closing bracket, but its raw string
  literal holds two backslashes, so only a doubled backslash is replaced
  (`service/workflow_service/core/expression_evaluator.go:57-60`). Code comes out as the comment promises exactly
  when it holds no escaped bracket at all; an escaped bracket reaches the evaluator with its backslash.
- `splitExpression` drops what it has buffered when the input ends in an escaped bracket of the kind it is
  searching for: a template that consists of text and ends so produces no chunk.
- Two parameter paths of which one is a prefix of the other never both read back. If they are the only such pair,
  one iteration order of the query map writes into a nil map, and another drops the shorter path alone.
- Which properties are displayed can depend on the order of the list when two of the same name have different
  defaults, a rule names them, and the node has no parameter of that name.
- A webhook id that is another id of the workflow with `/test` behind it loses its production path to the
  other's test registration.
- The deep merge does not regroup when a non-object stands between two objects, unless the second has all keys
  of the first.

## Model

| member | source | states |
|---|---|---|
| Graph.GetConnectionByDestination | service/workflow_service/core/workflow_execute.go:464-495 | The nested loops that grow the slot lists compute the inverse connection graph |
| Graph.InvertSlots | service/workflow_service/core/workflow_execute.go:469-490 | The loop over the output slots of one source and type records each connection at its destination |
| Graph.AddConnection | service/workflow_service/core/workflow_execute.go:470-489 | One connection is appended at its destination slot after the missing maps and slots were created |
| Graph.ExactInversion | service/workflow_service/core/workflow_execute.go:464-495 | A connection occurs in the inverse exactly as often as in the graph, for every map iteration order |
| Graph.InverseOfInverse | service/workflow_service/core/workflow_execute.go:464-495 | Inverting twice gives back the same multiset of connections |
| Graph.InverseTight | service/workflow_service/core/workflow_execute.go:470-481 | The inverse has no empty map level, and every slot list ends in a wired slot |
| Graph.LastInputSlotWired | service/workflow_service/core/workflow_execute.go:476-480 | The number of input slots is one more than the largest wired input index |
| Graph.OrderIndependentSlots | service/workflow_service/core/workflow_execute.go:466-489 | Where each input slot of a node has at most one source, its slots do not depend on the iteration order |
| Graph.InverseSlotOrder | service/workflow_service/core/workflow_execute.go:464-495 | Within an input slot the connections stand in the order in which the iteration meets their source and type, and then by output slot |
| Graph.FirstIsEarliest | service/workflow_service/core/workflow_execute.go:464-495 | The first connection of an input slot, the one that is read, is the wired one that the iteration meets first |
| WorkflowRunner.NodeExecutionStack.constructor | shared/structs/workflow.go:1316-1325 | A new stack holds the given nodes in order, each with no input |
| WorkflowRunner.NodeExecutionStack.PushBack | shared/structs/workflow.go:1327-1329 | Appends at the back and changes nothing else |
| WorkflowRunner.NodeExecutionStack.PushFront | shared/structs/workflow.go:1331-1333 | Puts in front and changes nothing else |
| WorkflowRunner.NodeExecutionStack.PopFront | shared/structs/workflow.go:1335-1342 | Takes off the front entry and leaves the rest in order |
| WorkflowRunner.NodeExecutionStack.MarshalList | shared/structs/workflow.go:1344-1350 | The stored list is the stack, front first |
| WorkflowRunner.NodeExecutionStack.UnmarshalList | shared/structs/workflow.go:1352-1363 | Loading a stored list replaces the stack by it, so storing and loading is the identity |
| WorkflowRunner.SortNodesByPosition | service/workflow_service/core/workflow_execute.go:286-296 | The in-place sort produces the bottom-right-first order of the list |
| WorkflowRunner.SorterExists | service/workflow_service/core/workflow_execute.go:286-296 | That order is a permutation sorted bottom right first, as every theorem about runs assumes of the library sort |
| WorkflowRunner.WorkflowExecute.AddNodeToBeExecuted | service/workflow_service/core/workflow_execute.go:497-546 | Scheduling one successor on the object equals the scheduling step: stack, noted sources and panic |
| WorkflowRunner.WorkflowExecute.GatherInputs | service/workflow_service/core/workflow_execute.go:515-540 | Collects the latest outputs in slot order and stops at the first source that has not run, keeping the sources noted so far |
| WorkflowRunner.WorkflowExecute.CollectTargets | service/workflow_service/core/workflow_execute.go:352-366 | Lists the targets of live outputs in output order, with the rule for disabled nodes or for enabled ones |
| WorkflowRunner.WorkflowExecute.AddTargetsToBeExecuted | service/workflow_service/core/workflow_execute.go:450-454 | Sorts the listed nodes and schedules them one by one; a missing node or position panics |
| WorkflowRunner.WorkflowExecute.ExecuteNode | service/workflow_service/core/workflow_execute.go:379-426 | Records output, result, error and last node of an executed node, and what the hook stores |
| WorkflowRunner.WorkflowExecute.SaveProgress | service/workflow_service/core/workflow_execute.go:103-160 | The stored record gets the result appended and the pending stack, waiting data and sources replaced |
| WorkflowRunner.WorkflowExecute.ExecuteNext | service/workflow_service/core/workflow_execute.go:343-455 | One pass through the loop body is one step of the run |
| WorkflowRunner.WorkflowExecute.RunLoop | service/workflow_service/core/workflow_execute.go:343-455 | After any number of iterations the object is in the state of the step function, on every graph |
| WorkflowRunner.WorkflowExecute.Execute | service/workflow_service/core/workflow_execute.go:298-462 | The whole run from a fresh or a stored stack, on every graph: whether it has ended within the given iterations, and if so the final state, finished exactly if no node failed, after-hooks invoked exactly once unless the run panicked |
| WorkflowRunner.WorkflowExecute.Finish | service/workflow_service/core/workflow_execute.go:457-459 | After the loop the finished flag and the stored error are set and the after-hooks are invoked once |
| Execution.StartNodesAre | service/workflow_service/core/workflow_execute.go:301-316 | A run without a given start node starts at exactly the enabled nodes of a manual, webhook or trigger type |
| LoopMeaning.FreshMeaning | service/workflow_service/core/workflow_execute.go:301-336 | A run starts with empty records, and with the given node alone or with the enabled nodes whose type mentions manual, webhook or trigger in any case, in the order of the workflow |
| LoopMeaning.NodeByNameMeaning | service/workflow_service/core/workflow_execute.go:301-305 | Of several nodes with one name a connection means the last |
| LoopMeaning.TargetsMeaning | service/workflow_service/core/workflow_execute.go:352-366 | What is listed for scheduling: every connection of an output that has data exactly once, with the named node and that data; a disabled node hands on only data that is not empty, under output 0 |
| LoopMeaning.StepPushes | service/workflow_service/core/workflow_execute.go:348-455 | One iteration over single-input nodes puts exactly one entry on the stack per connection whose output has data, the named node with that output, in reading order, and notes the output as its source |
| LoopMeaning.StepPanics | service/workflow_service/core/workflow_execute.go:286-296 | The iteration panics with nothing scheduled exactly when a connection names no node, or two are to be compared and one has no position |
| LoopMeaning.StepRecords | service/workflow_service/core/workflow_execute.go:380-436 | What an executed node leaves: its outputs, its result at the end of its list, its first error, its name and the stored progress; without success the loop stops there |
| LoopMeaning.StepSkips | service/workflow_service/core/workflow_execute.go:348-374 | A disabled node leaves no record |
| LoopMeaning.RunIsGenuine | service/workflow_service/core/workflow_execute.go:380-430 | In every state of every fresh run each recorded result is what its node returned on the results recorded before, by the category of the node, and the error is the last one recorded |
| LoopMeaning.StoredMeaning | service/workflow_service/core/workflow_execute.go:194-230 | What is stored once a fresh run has ended holds all outputs and results, the last node and the error, and after a failure the pending stack and sources |
| RunHistory.StepKeepsHistory | service/workflow_service/core/workflow_execute.go:343-455 | Every iteration keeps both histories in agreement, the trace conserved and the stored record in step |
| RunHistory.FreshRunHistory | service/workflow_service/core/workflow_execute.go:399-426 | In every reachable state of a fresh run the waiting data of a node exists iff it ran and is the output of its last run |
| RunHistory.RunHistoryConserved | service/workflow_service/core/workflow_execute.go:418-426 | The run data lists hold exactly the executed nodes: their lengths add up to the number of executions, and each list is the node's results in order |
| RunHistory.FinishedIffAllSucceeded | service/workflow_service/core/workflow_execute.go:426-433 | The last recorded node is the last executed one, all earlier results are successes, and the loop is left early exactly when a node failed |
| RunHistory.MultiInputNode | service/workflow_service/core/workflow_execute.go:514-545 | A node with several input slots is pushed exactly when the first source of every wired slot has run, with precisely those latest outputs in slot order; a missing output index panics |
| LoopMeaning.MultiInputNotes | service/workflow_service/core/workflow_execute.go:515-540 | The sources noted for such a node are those before the first one without data, in slot order, behind what was noted before |
| RunHistory.OnlyEnabledWorkflowNodesRun | service/workflow_service/core/workflow_execute.go:348-373 | Only enabled nodes of the workflow, or the given start node, ever record a result |
| Starvation.DisabledSourceStarves | service/workflow_service/core/workflow_execute.go:348-373 | In every state of every run that does not start with it, a node with several main inputs one of which is fed first by a disabled node is neither pending nor executed |
| Starvation.StarvedByWiring | service/workflow_service/core/workflow_execute.go:514-523 | A node starves when one of its main inputs is wired to disabled nodes only and an input other than the first is wired |
| Termination.StepLosesWeight | service/workflow_service/core/workflow_execute.go:343-546 | On an acyclic graph every iteration lowers the weight of the stack, whatever nodes return, disabled and multi-input nodes included |
| Termination.RunTerminates | service/workflow_service/core/workflow_execute.go:343-546 | The loop ends after at most the weight of the initial stack, where a node weighs 1 plus the weights its outgoing connections lead to |
| Termination.AcyclicRunTerminates | service/workflow_service/core/workflow_execute.go:343-455 | Every run on an acyclic graph ends |
| Traversal.ChildrenInReadingOrder | service/workflow_service/core/workflow_execute.go:283-296 | The successors of a node are visited top left to bottom right, each listed one once |
| Traversal.SingleInputSlot | service/workflow_service/core/workflow_execute.go:501-502 | With connections to input 0 only, every connected node has exactly one input slot in every inversion |
| Traversal.AddTargetsPushesChildren | service/workflow_service/core/workflow_execute.go:450-454 | Scheduling puts exactly the successors in front of the stack |
| Traversal.DepthFirstConcat | service/workflow_service/core/workflow_execute.go:343-455 | The recursive traversal of two lists is the second after the first, cut by a failure |
| Traversal.StepRefinesTraversal | service/workflow_service/core/workflow_execute.go:343-455 | One iteration leaves the result of the recursive traversal of the pending stack unchanged |
| Traversal.LoopIsDepthFirst | service/workflow_service/core/workflow_execute.go:343-455 | The executed trace and run data of the whole loop are those of a recursive depth-first preorder from the start entries, cut after the first failure |
| Retry.RemoveFailedResult | service/workflow_service/api/execution.go:169-174 | The error is cleared and the last result of the last node is dropped iff it carries an error |
| Retry.CollectInputs | service/workflow_service/api/execution.go:192-203 | The inputs are the recorded outputs of the noted sources in order, or the first inconsistency |
| Retry.RetryWorkflowExecution | service/workflow_service/api/execution.go:158-210 | The handler's updates give the prepared record or the first of its errors |
| Retry.RetryMeaning | service/workflow_service/api/execution.go:158-210 | Each refusal with its exact condition, a finished run among them; otherwise the first node of the failed name on its recorded inputs, the empty list where a source has no outputs, in front of what was pending |
| FaithfulRetry.ForestInputs | service/workflow_service/core/workflow_execute.go:464-503 | In a forest the inverse of every iteration order gives a connected node one wired slot with its one parent |
| FaithfulRetry.ForestStepKeeps | service/workflow_service/core/workflow_execute.go:343-546 | A successful iteration keeps pending subtrees disjoint, unexecuted, and with source and input noted |
| FaithfulRetry.ForestRunKeeps | service/workflow_service/core/workflow_execute.go:343-546 | Every state of a run over a forest keeps that invariant until a node fails, and the run never panics |
| FaithfulRetry.FailedRecord | service/workflow_service/core/workflow_execute.go:103-160 | What is stored after a failure is the moment before the pop, with the front entry replaced by its failed result |
| FaithfulRetry.RetryRebuilds | service/workflow_service/api/execution.go:168-209 | Retry rebuilds exactly the stack before the failed node was popped; the run data are restored exactly when the failure carried an error |
| FaithfulRetry.StartNodeRetryRefused | service/workflow_service/api/execution.go:187-190 | The failure of a start node is refused with the missing-source error |
| FaithfulRetry.RetrySucceedsIff | service/workflow_service/api/execution.go:158-209 | Of all failed runs over a forest, retry accepts exactly those whose failed node has an incoming connection, with the stack of the moment before it was popped |
| FaithfulRetry.RetryContinuesTheRun | service/workflow_service/api/execution.go:168-209 | After every number of iterations the retried run has the stack, histories and executed nodes that the original would have had from just before the failed node, if and only if the retried node returns the same for an empty list of its own runs as for none |
| RetryInstances.SecondCanBeRetried | service/workflow_service/api/execution.go:168-209 | A concrete failed run of two nodes meets all conditions of the retry theorems and is rebuilt |
| RetryInstances.FirstCannotBeRetried | service/workflow_service/api/execution.go:187-190 | A concrete run whose start node fails is refused |
| ActiveExecutions.ApplyKeepsInv | service/workflow_service/core/active_executions.go:117-194 | Every single step of any caller, run or stop request keeps the registry invariant |
| ActiveExecutions.WaitGroupExact | service/workflow_service/core/active_executions.go:126-137 | In every interleaving the wait group counts exactly the goroutines whose Done has not run, and never underflows |
| ActiveExecutions.OneDelivery | service/workflow_service/core/active_executions.go:127-145 | A run attempts at most one delivery, and exactly one once it has ended |
| ActiveExecutions.ReceivedIsUnlisted | service/workflow_service/core/active_executions.go:138-144 | When the waiter receives, the execution is out of the registry and never comes back |
| ActiveExecutions.CancelledIffStopped | service/workflow_service/core/active_executions.go:161-170 | A run is cancelled exactly when a stop request removed it or is about to |
| ActiveExecutions.WhoCanMove | service/workflow_service/core/active_executions.go:117-170 | A goroutine is held up only on its send to a caller that does not wait; a caller with a handle and a stop request never are |
| ActiveExecutions.ZeroCountMeansDrained | service/workflow_service/core/active_executions.go:37-57 | A zero count means every run that did not panic was removed and its result received |
| ActiveExecutions.NoHandleIffRemoved | service/workflow_service/core/active_executions.go:154-158 | In every reachable state the lookup finds no entry exactly when the run has already removed it itself |
| ActiveExecutions.NoHandleMeansRemoved | service/workflow_service/core/active_executions.go:154-158 | A caller without a handle stays without one, and its run was removed by itself, not by a stop request |
| ActiveExecutions.FastRunLosesItsHandle | service/workflow_service/core/active_executions.go:127-158 | There is an interleaving in which a fast run ends before its caller looks it up |
| ActiveExecutions.AbandonedRunNeverDrains | service/workflow_service/core/active_executions.go:138-144 | A run whose result nobody will receive keeps the wait group above zero for ever |
| ActiveExecutions.LostRunNeverExits | service/workflow_service/core/active_executions.go:138-144 | A run whose caller got no handle, threw it away, stopped waiting or will find the entry gone never ends regularly |
| ActiveExecutions.DiscardedRunNeverExits | service/workflow_service/api/webhook.go:98-110 | In every interleaving a run whose handle was thrown away while it was executing never ends regularly |
| ActiveExecutions.DrainsIffNotLost | service/workflow_service/core/active_executions.go:126-159 | Before its hand-over a run can still end regularly exactly when it is not lost in this way |
| WebhookReply.ApplyKeepsInv | service/workflow_service/api/webhook.go:148-220 | Every step of handler and goroutine keeps the relation between once, writes and positions |
| WebhookReply.ReplyExactlyOnce | service/workflow_service/api/webhook.go:148-220 | In every interleaving at most one response is written, and exactly one has been when the handler returns |
| WebhookReply.WhichReply | service/workflow_service/api/webhook.go:148-220 | The reply that stands at the return: the respond node's if one was written, the error reply exactly when Wait saw an error or a cancellation, the data error exactly for a run that recorded one, and success exactly for a run that did not |
| WebhookReply.WhoCanMove | service/workflow_service/api/webhook.go:148-220 | The goroutine is held up only while nobody receives what it sends, the handler only while nothing arrives or while the goroutine holds the once it needs |
| WebhookReply.NothingAfterReturn | service/workflow_service/api/webhook.go:155-165 | Respond nodes that run after the handler returned write nothing more |
| WebhookReply.ReturnsIffNotDoomed | service/workflow_service/api/webhook.go:155-220 | From every reachable state the handler can still return exactly when it is not waiting for the once while the goroutine waits for a receiver |
| WebhookReply.DoomNeedsCancel | shared/structs/workflow.go:638-656 | Without a cancelled request or run that deadlock is unreachable |
| WebhookReply.CancelCanDoom | shared/structs/workflow.go:638-656 | With one it is reachable |
| DisplayOptions.GetNodeValueByPath | service/workflow_service/core/execute_function.go:133-146 | The cursor loop reads the value at a path, or nothing where the path leaves the objects |
| DisplayOptions.ConfirmPass | service/workflow_service/core/execute_function.go:108-119 | One pass over the unconfirmed properties, and whether it confirmed one |
| DisplayOptions.FilterPropertiesByDisplayOption | service/workflow_service/core/execute_function.go:92-123 | The repeated passes end, in the selection that the fixpoint theorems are about |
| DisplayOptions.SelectedProperties | service/workflow_service/core/execute_function.go:125-129 | The result list holds each selected property once |
| DisplayOptions.PassesMonotone | service/workflow_service/core/execute_function.go:149-244 | Selecting more properties never hides one that was displayed, if defaults agree wherever a rule can see them |
| DisplayOptions.FilterClosed | service/workflow_service/core/execute_function.go:92-123 | No property that is left out passes its rules against the result |
| DisplayOptions.FilterIsLeastFixpoint | service/workflow_service/core/execute_function.go:92-244 | Every selected property passes against the result, no other does, and every closed selection has all selected names, provided properties of one name share the default where a rule names them and no parameter hides it |
| DisplayOptions.SelectionOrderIndependent | service/workflow_service/core/execute_function.go:92-123 | The selected names do not depend on the order of the property list or on repetitions |
| DisplayOptions.OrderMattersWithoutSharedDefaults | service/workflow_service/core/execute_function.go:113-114 | With different defaults under one name, reordering the list changes what is displayed |
| DisplayMeaning.ValueMeaning | service/workflow_service/core/execute_function.go:158-170 | A property's value along a path is what lies there in the node's parameter, or without a parameter in a default that is not empty |
| DisplayMeaning.PathMeaning | service/workflow_service/core/execute_function.go:192-198 | A rule depends on the property and the inner path that its dotted name spells, with or without a leading slash |
| DisplayMeaning.ShowMeaning | service/workflow_service/core/execute_function.go:183-211 | Show rules allow a property exactly when every rule up to the first on the version finds a selected property with a listed value other than null, and that one lists the version |
| DisplayMeaning.HideMeaning | service/workflow_service/core/execute_function.go:216-240 | Hide rules allow a property exactly when some rule finds a null or unlisted value or an unlisted version, and all rules before it find a listed one |
| DisplayMeaning.PassMeaning | service/workflow_service/core/execute_function.go:108-119 | In a pass every property has its turn in order; one that may be shown takes its name over from an earlier one, and the others remain in order |
| DisplayMeaning.DisplayedAreClosed | service/workflow_service/core/execute_function.go:92-244 | In terms of those rules, no property that is left out may be shown |
| DisplayMeaning.DisplayedAreLeast | service/workflow_service/core/execute_function.go:92-244 | In terms of those rules, with shared defaults every displayed property may be shown, and no closed selection has fewer names |
| DeepMerge.Merge | service/workflow_service/nodes/merge/node.go:442-448 | The loop over the further objects is the left fold of the deep merge |
| DeepMerge.MergeAt | service/workflow_service/nodes/merge/node.go:450-479 | A key of the merge comes from the side that has it, and from the merge of both values where both have it |
| DeepMerge.MergedValue | service/workflow_service/nodes/merge/node.go:450-479 | A value lies at a path of the merge exactly when it lies there in the source, or in the destination while the source ends above it in an object without the next name |
| DeepMerge.MergedAllValue | service/workflow_service/nodes/merge/node.go:442-479 | In the merge of several operands each value comes from the last operand that says anything about its path |
| DeepMerge.EmptyObjectIsIdentity | service/workflow_service/nodes/merge/node.go:450-479 | The empty object changes nothing on either side |
| DeepMerge.MergeIdempotent | service/workflow_service/nodes/merge/node.go:450-479 | Merging a value with itself changes nothing |
| DeepMerge.AbsorbedIff | service/workflow_service/nodes/merge/node.go:450-479 | Merging c into a gives c exactly when c has all keys of a, at every depth at which both hold objects |
| DeepMerge.MergeAssociativeIff | service/workflow_service/nodes/merge/node.go:450-479 | The merge of three values regroups exactly when no non-object in the middle separates two objects, unless the last covers the first anyway |
| DeepMerge.FoldRegroups | service/workflow_service/nodes/merge/node.go:442-448 | The left fold can be regrouped wherever each step meets that condition |
| DeepMerge.ScalarInTheMiddle | service/workflow_service/nodes/merge/node.go:450-479 | A non-object between two objects, of which the second lacks a key of the first, makes the grouping matter |
| DeepMerge.GroupingMatters | service/workflow_service/nodes/merge/node.go:450-479 | Three concrete objects whose two groupings differ |
| MergeJoin.GetValFromObject | service/workflow_service/nodes/merge/node.go:612-626 | The cursor loop reads a dotted path; the first value that is not an object ends the walk |
| MergeJoin.FindEntryMatches | service/workflow_service/nodes/merge/node.go:575-610 | Finds the matching items with their indexes, all of them or the first |
| MergeJoin.FindMatches | service/workflow_service/nodes/merge/node.go:500-573 | The loops give the entries, unmatched left items and both parts of the right items that the join theorems are about |
| MergeJoin.BuildLookup | service/workflow_service/nodes/merge/node.go:521-541 | The lookup holds the left item's value under each right field name, and is valid iff none is missing or null |
| MergeJoin.LookupMatchIsJoin | service/workflow_service/nodes/merge/node.go:575-610 | With distinct right field names, matching the lookup is the join condition field by field |
| MergeJoin.MatchIndexesExact | service/workflow_service/nodes/merge/node.go:575-610 | The indexes ascend and are exactly the matching positions |
| MergeJoin.JoinPairsOrdered | service/workflow_service/nodes/merge/node.go:512-566 | The joined pairs come in index order, left before right |
| MergeJoin.JoinPairsExact | service/workflow_service/nodes/merge/node.go:512-566 | The joined pairs are exactly those of a nested loop over both lists, for left items that are objects with all fields non-null |
| MergeJoin.EntriesAreJoin | service/workflow_service/nodes/merge/node.go:546-557 | With output from both sides the entries are those pairs, one entry each, in that order |
| MergeJoin.UnmatchedAreLonely | service/workflow_service/nodes/merge/node.go:558-560 | The unmatched left items are the eligible ones that join nothing, in order |
| MergeJoin.MatchedPositionsExact | service/workflow_service/nodes/merge/node.go:543-545 | A right item counts as matched exactly when some left item joins it |
| MergeJoin.PartitionStable | service/workflow_service/nodes/merge/node.go:563-571 | Matched and unmatched right items are the items at complementary ascending positions |
| JoinMeaning.FieldMeaning | service/workflow_service/nodes/merge/node.go:612-626 | A field has a value other than null exactly when that is the first non-object along the parts of the dotted name, or without dot notation the entry under the whole name |
| JoinMeaning.FieldMissing | service/workflow_service/nodes/merge/node.go:612-626 | A field counts as null exactly when it has no other value |
| JoinMeaning.JoinsMeaning | service/workflow_service/nodes/merge/node.go:575-610 | The join condition in terms of such field values: in each pair both sides have the same one |
| JoinMeaning.EligibleMeaning | service/workflow_service/nodes/merge/node.go:512-541 | A left item takes part exactly when it is an object with such a value in every left field |
| JoinMeaning.EntriesMeaning | service/workflow_service/nodes/merge/node.go:500-573 | With all matches and output from both sides the entries are the join of the lists on those values, in index order |
| JoinMeaning.EntriesByLeft | service/workflow_service/nodes/merge/node.go:512-561 | In every mode the entries are those of the left items in order, each made of all matches or the first, one entry per match or one for all |
| JoinMeaning.UnmatchedMeaning | service/workflow_service/nodes/merge/node.go:558-560 | The unmatched left items are those with all fields that join nothing, in order |
| JoinMeaning.PartitionMeaning | service/workflow_service/nodes/merge/node.go:563-571 | The right items at the positions some left item found, and those at all others, each in order |
| ExpressionScanner.FindBracket | service/workflow_service/core/expression_evaluator.go:67-75 | The leftmost bracket with its optional escape, or that there is none |
| ExpressionScanner.SplitExpression | service/workflow_service/core/expression_evaluator.go:77-132 | The loop ends and returns the chunks of the scan, code chunks unescaped |
| ExpressionScanner.SplitIsLossless | service/workflow_service/core/expression_evaluator.go:77-132 | Chunks alternate from text, and with the brackets between them and the buffer that was not emitted they are the input |
| ExpressionScanner.TextLostIff | service/workflow_service/core/expression_evaluator.go:115-117 | Text is lost exactly when the input ends in an escaped bracket of the kind being searched for |
| ExpressionScanner.EscapedTailIsDropped | service/workflow_service/core/expression_evaluator.go:115-131 | A template that is text ending in an escaped bracket produces no chunk |
| ExpressionScanner.EscapeCodeIff | service/workflow_service/core/expression_evaluator.go:57-60 | Code comes out with every escaped bracket unescaped, as its comment promises, exactly when it holds none |
| ExpressionScanner.EscapedBracketIsKept | service/workflow_service/core/expression_evaluator.go:57-60 | The shortest input on which the promise fails: a backslash and a closing bracket |
| ExpressionScanner.SplitUnescapesIff | service/workflow_service/core/expression_evaluator.go:88-95 | In every template a returned code chunk is the scanned one unescaped exactly when that held no escaped bracket |
| ExpressionScanner.SplitKeepsBackslash | service/workflow_service/core/expression_evaluator.go:77-132 | An escaped closing bracket inside code reaches the evaluator with its backslash |
| ExpressionScanner.SplitOfPrint | service/workflow_service/core/expression_evaluator.go:58-132 | Splitting a printed template returns the chunks that were printed, with unescaping as the identity |
| ExpressionScanner.PrintOfSplitIff | service/workflow_service/core/expression_evaluator.go:77-132 | Printing the scanned chunks gives the template back exactly when every opened code chunk is closed and nothing is lost |
| TemplateRendering.RemoveEmptyTextChunk | service/workflow_service/core/expression_evaluator.go:134-143 | Drops exactly the empty text chunks, in order |
| TemplateRendering.RenderExpression | service/workflow_service/core/expression_evaluator.go:145-178 | Joins the chunks with code replaced by its shown value, errors written into the text; a single code chunk keeps its value |
| TemplateRendering.EvaluateExpression | service/workflow_service/core/expression_evaluator.go:18-47 | Evaluation in order: leading equals sign, bracket test, split, drop, render |
| TemplateRendering.JoinedMeaning | service/workflow_service/core/expression_evaluator.go:155-177 | The joined text is the concatenation of one string per chunk: text itself, or the shown value of code behind its error messages |
| TemplateRendering.EvaluationMeaning | service/workflow_service/core/expression_evaluator.go:18-47 | Every expression: without a leading equals sign it is itself, without double braces it is the rest of the text, and otherwise it is the code's value or the concatenation for the chunks it splits into |
| TemplateRendering.EmptyTextAddsNothing | service/workflow_service/core/expression_evaluator.go:134-143 | Dropping empty text does not change the joined text |
| TemplateRendering.TemplateMeaning | service/workflow_service/core/expression_evaluator.go:18-178 | Evaluating a printed template gives the concatenation of its texts with the shown value of each code chunk in its place; a template that is one code chunk gives that chunk's value and error |
| NestedMaps.ParseCurrentNodeParametersFromQuerys | service/workflow_service/api/dynamic_parameter.go:206-241 | The loops over the query map leave nested maps on the heap that hold the tree of all keys, or panic exactly when a path is blocked |
| NestedMaps.InsertPath | service/workflow_service/api/dynamic_parameter.go:215-238 | The cursor that walks down and writes in place inserts one path into the tree the maps hold, shares no map, and panics exactly when it would write into a nil map |
| NestedMaps.Descend | service/workflow_service/api/dynamic_parameter.go:222-227 | Moving the cursor into an existing map keeps every map consistent with the finished tree, with the rest of the path still to be inserted there |
| NestedMaps.Extend | service/workflow_service/api/dynamic_parameter.go:232-235 | A missing map is created under the cursor, which moves into it; every map stays consistent with the finished tree |
| NestedMaps.Put | service/workflow_service/api/dynamic_parameter.go:229-231 | A value is written at a free last name |
| NestedMaps.FollowIsLeaf | service/workflow_service/api/dynamic_parameter.go:206-241 | Following the maps themselves finds exactly the leaves of the tree |
| BracketParameters.NamesOfKey | service/workflow_service/api/dynamic_parameter.go:208-215 | The names found in a key are the path it spells |
| BracketParameters.KeyMeaning | service/workflow_service/api/dynamic_parameter.go:208-213 | A parameter's key is the word currentNodeParameters followed by each name in brackets |
| BracketParameters.OnlyPrefixedKeysCount | service/workflow_service/api/dynamic_parameter.go:211-214 | A key that does not begin with that word changes nothing |
| BracketParameters.BracketNamesMeaning | service/workflow_service/api/dynamic_parameter.go:208-215 | In any string the names are those of the leftmost bracket pairs, one behind the other, around a name without closing bracket; every such pair begins within one of them |
| BracketParameters.InsertAddsLeaf | service/workflow_service/api/dynamic_parameter.go:216-238 | Inserting at a path next to no leaf adds exactly that leaf |
| BracketParameters.LeavesDetermineTree | service/workflow_service/api/dynamic_parameter.go:206-241 | A tree without empty objects is determined by its leaves |
| BracketParameters.ParametersRoundTrip | service/workflow_service/api/dynamic_parameter.go:206-241 | With prefix-free paths every parameter reads back, no other leaf exists, and the leaves spell out the query map again |
| BracketParameters.ReadsBackIff | service/workflow_service/api/dynamic_parameter.go:220-236 | In whatever order, all parameters read back exactly when no path is a prefix of another |
| BracketParameters.BlockedByLeaf | service/workflow_service/api/dynamic_parameter.go:222-235 | A path below an existing leaf writes into a nil map |
| BracketParameters.DroppedAboveLeaf | service/workflow_service/api/dynamic_parameter.go:219-221 | A path above an existing leaf is dropped and changes nothing |
| BracketParameters.ConflictDependsOnOrder | service/workflow_service/api/dynamic_parameter.go:211-238 | If one path is a prefix of another and no other pair conflicts, one iteration order writes into nil and another gives a tree that lacks the shorter path alone |
| BracketParameters.ParametersOrderIndependent | service/workflow_service/api/dynamic_parameter.go:211-211 | With prefix-free paths the tree does not depend on the iteration order of the query map |
| Unflatten.AtoiOfItoa | service/workflow_service/core/util.go:218-226 | A printed index is recognised as a number and read back |
| Unflatten.AtoiMeaning | service/workflow_service/core/util.go:218-227 | A string counts as an index exactly when it is a decimal numeral behind at most one sign whose value fits 64 bits |
| Unflatten.EntryMeaning | service/workflow_service/core/util.go:180-215 | An entry denotes the same kind of value with every numeral in it followed; null, numbers and booleans denote the string error |
| Unflatten.UnflattenStringItem | service/workflow_service/core/util.go:180-215 | The recursion ends and returns the denoted tree for every index whose references are in range and fall along a rank; other entries of the table may be anything |
| Unflatten.UnflattenItems | service/workflow_service/core/util.go:186-198 | The loop over an array entry decodes its numeric strings and keeps its other elements |
| Unflatten.UnflattenFields | service/workflow_service/core/util.go:200-212 | The loop over an object entry decodes its numeric strings and keeps its other fields |
| Unflatten.DenotedOnce | service/workflow_service/core/util.go:180-215 | A table denotes at most one tree at an index, sharing included |
| Unflatten.RankedDenotes | service/workflow_service/core/util.go:180-215 | Every index covered by a rank denotes a tree |
| Unflatten.DecodesIffGrounded | service/workflow_service/core/util.go:180-215 | An index denotes a tree exactly when what it reaches is in range and cannot be followed for ever |
| Unflatten.CycleDenotesNothing | service/workflow_service/core/util.go:180-215 | An entry that refers to itself denotes nothing |
| Unflatten.EncodingDenotes | service/workflow_service/core/util.go:163-215 | Wherever a table holds the encoding of a string or container it denotes that value |
| Unflatten.DecodingInvertsEncoding | service/workflow_service/core/util.go:163-215 | An encoded table meets the decoder's precondition and decodes to the encoded value and nothing else |
| WebhookTable.GetWorkflowWebhooks | service/workflow_service/core/webhook_helpers.go:41-81 | The loop lists the webhooks of enabled webhook nodes with an id, in node order |
| WebhookTable.ListedWebhooks | service/workflow_service/core/webhook_helpers.go:41-81 | A webhook is listed exactly when some enabled node with an id and a webhook type has it |
| WebhookTable.VerbMeaning | service/workflow_service/core/webhook_helpers.go:134-154 | The method of a webhook: POST for the notification trigger, otherwise the non-empty string under httpMethod, otherwise GET |
| WebhookTable.WebhookEntities.SaveWebhookEntity | service/workflow_service/core/webhook_helpers.go:157-172 | Inserts the row unless its path and method are taken, by whatever workflow |
| WebhookTable.WebhookEntities.DeleteWebhookEntity | service/workflow_service/core/webhook_helpers.go:175-186 | Deletes the row of that path and method only if it is the workflow's |
| WebhookTable.WebhookEntities.RegisterWebhook | service/workflow_service/core/webhook_manager.go:14-45 | Inserts all webhooks of the workflow, going on after a failed insert |
| WebhookTable.WebhookEntities.UnregisterWebhook | service/workflow_service/core/webhook_manager.go:69-100 | Deletes all webhooks of the workflow |
| WebhookTable.SavedAt | service/workflow_service/core/webhook_manager.go:30-38 | Registering keeps every row and adds, for each free key, the first webhook that asks for it |
| WebhookTable.DeletedAt | service/workflow_service/core/webhook_manager.go:85-92 | Unregistering removes exactly the workflow's own rows under its keys |
| WebhookTable.RegisteredRows | service/workflow_service/core/webhook_manager.go:14-45 | After registering, a key has a row exactly when it had one or some enabled node asks for that id and method; the row is the old one or that of the first such node |
| WebhookTable.UnregisteredRows | service/workflow_service/core/webhook_manager.go:69-100 | Unregistering takes away exactly the workflow's own rows under the ids and methods that its nodes ask for |
| WebhookTable.RegistrationIsReversibleIff | service/workflow_service/core/webhook_manager.go:14-100 | Unregistering undoes registering exactly when none of the keys was the workflow's before |
| WebhookTable.LeavesAloneIff | service/workflow_service/core/webhook_manager.go:14-100 | An action leaves given keys alone in every table exactly when none of its webhooks asks for one of them |
| WebhookTable.ProductionRowsAreIsolated | service/workflow_service/core/webhook_manager.go:14-100 | In any run of test actions and of other workflows' actions a workflow's production rows stay as they are |
| WebhookTable.ProductionRowsFollowLastAction | service/workflow_service/core/webhook_manager.go:14-100 | After any run its production rows are those of its webhooks if its last production action registered, and none otherwise |
| WebhookTable.TestIdShadowsProduction | service/workflow_service/core/webhook_helpers.go:188-196 | Where one webhook id is another with /test behind it, the test registration takes the other's production key |
| WebhookTable.GetWebhookEntity | service/workflow_service/core/webhook_helpers.go:199-224 | Finds a row of the workflow and webhook id at the production or test path exactly when the table has one |
| WebhookTable.FoundWhileRegistered | service/workflow_service/core/webhook_helpers.go:199-224 | A workflow has a production row under an id and a method exactly while it is registered and one of its enabled nodes asks for both, and it is the row of the first such node |
| WebhookTable.LookupWhileRegistered | service/workflow_service/core/webhook_helpers.go:199-224 | The lookup by webhook id finds a row exactly while the workflow is registered and a node asks for that id |

## Left out

- Execute: follows the loop for a given number of iterations, because on a cyclic graph it need not end; `RunTerminates` gives a number within which every run on an acyclic graph has ended.
- Execute: the cancel branch of the loop is not modelled, as nothing in the service sets the cancelled status it tests; nor are the delete-execution flag, times, log lines, and hooks other than storing progress and counting the after-hooks.
- GetConnectionByDestination: connection indexes are natural numbers; a negative index, which panics, is not modelled.
- ExecuteNode: what a node returns is an arbitrary function of the node, its inputs and the run data; no node type but merge is modelled.
- SaveProgress: storing and loading the record is the identity except for the list form of the stack, database calls succeed, and the record is not yet marked as finished.
- SortNodesByPosition: models the library sort as insertion sort, which it is for short lists; the theorems about runs assume only that the result is a permutation, bottom right first.
- StartNodesAre: lower-casing covers ASCII letters only.
- FreshMeaning: capitals are those of ASCII only.
- StepPushes: covers graphs in which no node has a second main input; what scheduling one node with several inputs does is in `MultiInputNode` and `MultiInputNotes`.
- RetryRebuilds: covers graphs without disabled nodes in which every connected node has exactly one incoming connection; elsewhere the noted sources are no exact record of the pending input.
- RetryContinuesTheRun: does not say that the nodes of the repository meet its condition, since what nodes return is a parameter.
- RetryWorkflowExecution: ownership checks, missing result data, loading, and registering the new execution are not modelled.
- ApplyKeepsInv: the registry and the reply handler are state machines on values whose steps are single map accesses, channel hand-overs and once or wait-group calls, because the properties are about interleavings; the bodies of hooks and HTTP responses are not modelled.
- ReplyExactlyOnce: assumes the execution was registered and returned; a nil execution makes the handler panic.
- GetNodeValueByPath: a rule with an empty path and a comparison of two uncomparable values, which both panic, are not modelled.
- FilterPropertiesByDisplayOption: each property's rules are visited in one fixed order.
- FindMatches: fuzzy comparison is not modelled since the service ignores the option; suffixes for clashing names, source fields and the other merge modes are left out.
- Merge: shallow merge and shared references between merged maps are not modelled.
- SplitExpression: strings are sequences of characters rather than bytes.
- EvaluateExpression: running JavaScript and converting a value to text are parameters; resolving expressions inside nested parameter values is left out.
- ParseCurrentNodeParametersFromQuerys: the regular expression is modelled by the function `BracketNames`, and the two messages written to the console are left out.
- UnflattenStringItem: an index that reaches one out of range panics and one on a cycle recurses without end; neither is run by the method. Parsing and printing JSON text is left out, and the encoder is a model of the format, without sharing.
- RegisterWebhook: callbacks that create and delete webhooks at third parties and the static data they change are left out, and so are the operations on all workflows at once.
- Registration of test webhooks on a manual run: its check for a webhook other than a wait node reads a field that the list of webhooks never fills.
- SQL access, HTTP clients, Temporal activities, conditions, forms, limits, filters and the generic helpers of the service.
