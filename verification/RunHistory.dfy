/** What every state of a fresh run keeps: the histories agree and nothing executed is lost. */
module RunHistory {
  import opened JsonValues
  import opened Graph
  import opened Execution
  import opened Iteration
  import opened Workflows

  function Last<T>(s: seq<T>): T
    requires s != []
  {
    s[|s| - 1]
  }

  /** The run data a trace amounts to: per node, its tasks in order. */
  function RunDataOf(trace: seq<TraceStep>): RunData {
    if trace == [] then map[]
    else AppendTask(RunDataOf(trace[..|trace| - 1]), Last(trace).node.name, Last(trace).task)
  }

  /** What the runs of one node recorded in a trace, in order. */
  function TasksOf(trace: seq<TraceStep>, name: string): seq<TaskData> {
    if trace == [] then []
    else TasksOf(trace[..|trace| - 1], name) + if Last(trace).node.name == name then [Last(trace).task] else []
  }

  /** The total length of all run data lists. */
  ghost function TotalRuns(runData: RunData): nat
    decreases |runData|
  {
    if runData == map[] then 0
    else
      var name :| name in runData;
      |runData[name]| + TotalRuns(runData - {name})
  }

  /** The output history and the run data describe the same latest outputs. */
  ghost predicate HistoriesAgree(s: State) {
    && s.waiting.Keys == s.runData.Keys
    && forall n :: n in s.runData ==> s.runData[n] != [] && s.waiting[n] == Last(s.runData[n]).main
  }

  ghost predicate AllSucceeded(trace: seq<TraceStep>) {
    forall i :: 0 <= i < |trace| ==> trace[i].task.status == Success
  }

  ghost predicate Conserved(s: State) {
    && s.runData == RunDataOf(s.trace)
    && s.last == (if s.trace == [] then "" else Last(s.trace).node.name)
    && (forall i :: 0 <= i < |s.trace| ==> !s.trace[i].node.disabled)
    && (if s.outcome.Stopped?
        then s.trace != [] && AllSucceeded(s.trace[..|s.trace| - 1]) && Last(s.trace).task.status != Success
        else AllSucceeded(s.trace))
  }

  /** The stored record follows the run; after a failure it is the whole run. */
  ghost predicate StoredInStep(s: State) {
    && s.saved.runData == s.runData && s.saved.waiting == s.waiting && s.saved.last == s.last
    && (s.outcome.Stopped? ==> s.saved.stack == s.stack && s.saved.sources == s.sources)
  }

  ghost predicate HistoryInv(s: State) {
    HistoriesAgree(s) && Conserved(s) && StoredInStep(s)
  }

  lemma RecordAgrees(s: State, entry: StackEntry, task: TaskData)
    requires HistoriesAgree(s)
    ensures HistoriesAgree(RecordRun(s, entry, task))
  {
    var name, r := entry.node.name, RecordRun(s, entry, task);
    var list := if name in s.runData then s.runData[name] else [];
    assert r.runData[name] == list + [task] && Last(list + [task]) == task;
  }

  lemma RecordConserved(s: State, entry: StackEntry, task: TaskData)
    requires Conserved(s) && s.outcome.Running? && !entry.node.disabled
    ensures var r := RecordRun(s, entry, task);
      Conserved(if task.status == Success then r else r.(outcome := Stopped))
  {
    var r := RecordRun(s, entry, task);
    assert r.trace[..|r.trace| - 1] == s.trace && Last(r.trace) == TraceStep(entry.node, entry.inputs, task);
  }

  lemma RecordRunKeeps(s: State, entry: StackEntry, task: TaskData)
    requires HistoryInv(s) && s.outcome.Running? && !entry.node.disabled
    ensures var r := RecordRun(s, entry, task);
      HistoryInv(if task.status == Success then r else r.(outcome := Stopped))
  {
    RecordAgrees(s, entry, task);
    RecordConserved(s, entry, task);
  }

  /** One iteration of the loop keeps the history invariant. */
  lemma StepKeepsHistory(env: Env, s: State)
    requires HistoryInv(s) && !Halted(s)
    ensures HistoryInv(Step(env, s))
  {
    var entry := s.stack[0];
    var name := entry.node.name;
    if entry.node.disabled {
      AddTargetsHistory(env, Pop(s), name, Targets(env.workflow, MainOutputs(env, name), entry.inputs, true));
    } else {
      var task := RunNode(env, entry, s.runData);
      RecordRunKeeps(Pop(s), entry, task);
      if task.status == Success {
        AddTargetsHistory(env, RecordRun(Pop(s), entry, task), name,
                          Targets(env.workflow, MainOutputs(env, name), task.main, false));
      }
    }
  }

  lemma NextKeepsHistory(env: Env, s: State)
    requires HistoryInv(s)
    ensures HistoryInv(Next(env, s))
  {
    if !Halted(s) {
      StepKeepsHistory(env, s);
    }
  }

  lemma StepsKeepHistory(env: Env, s: State, n: nat)
    requires HistoryInv(s)
    ensures HistoryInv(Steps(env, s, n))
  {
    var inv := (x: State) => HistoryInv(x);
    forall x | inv(x)
      ensures inv(Stepper(env)(x))
    {
      NextKeepsHistory(env, x);
    }
    Keeps(Stepper(env), inv, s, n);
  }

  /** Every reachable state of every fresh run. */
  lemma FreshRunHistory(env: Env, startNode: Option<Node>, n: nat)
    ensures HistoryInv(Steps(env, Fresh(env.workflow, startNode), n))
  {
    StepsKeepHistory(env, Fresh(env.workflow, startNode), n);
  }

  // ----- conservation, stated on the run data itself -----

  lemma {:induction false} RunDataOfIsPerNode(trace: seq<TraceStep>, name: string)
    ensures (if name in RunDataOf(trace) then RunDataOf(trace)[name] else []) == TasksOf(trace, name)
    ensures name in RunDataOf(trace) <==> TasksOf(trace, name) != []
  {
    if trace == [] {
    } else {
      RunDataOfIsPerNode(trace[..|trace| - 1], name);
    }
  }

  lemma {:induction false} TotalRunsSplit(runData: RunData, name: string)
    requires name in runData
    ensures TotalRuns(runData) == |runData[name]| + TotalRuns(runData - {name})
    decreases |runData|
  {
    var pick :| pick in runData && TotalRuns(runData) == |runData[pick]| + TotalRuns(runData - {pick});
    if pick != name {
      TotalRunsSplit(runData - {pick}, name);
      TotalRunsSplit(runData - {name}, pick);
      assert runData - {pick} - {name} == runData - {name} - {pick};
    }
  }

  lemma TotalRunsAppend(runData: RunData, name: string, task: TaskData)
    ensures TotalRuns(AppendTask(runData, name, task)) == TotalRuns(runData) + 1
  {
    var r := AppendTask(runData, name, task);
    TotalRunsSplit(r, name);
    if name in runData {
      TotalRunsSplit(runData, name);
      assert r - {name} == runData - {name};
    } else {
      assert r - {name} == runData;
    }
  }

  lemma {:induction false} TraceLengthIsTotalRuns(trace: seq<TraceStep>)
    ensures TotalRuns(RunDataOf(trace)) == |trace|
  {
    if trace == [] {
    } else {
      TraceLengthIsTotalRuns(trace[..|trace| - 1]);
      TotalRunsAppend(RunDataOf(trace[..|trace| - 1]), Last(trace).node.name, Last(trace).task);
    }
  }

  /** Executed nodes are counted exactly once in the run data, per node and in order. */
  lemma RunHistoryConserved(env: Env, startNode: Option<Node>, n: nat, name: string)
    ensures var s := Steps(env, Fresh(env.workflow, startNode), n);
      && TotalRuns(s.runData) == |s.trace|
      && (if name in s.runData then s.runData[name] else []) == TasksOf(s.trace, name)
  {
    FreshRunHistory(env, startNode, n);
    var s := Steps(env, Fresh(env.workflow, startNode), n);
    TraceLengthIsTotalRuns(s.trace);
    RunDataOfIsPerNode(s.trace, name);
  }

  lemma StoppedIffFailed(s: State)
    requires Conserved(s)
    ensures s.outcome.Stopped? <==> !AllSucceeded(s.trace)
  {
    if s.outcome.Stopped? {
      assert s.trace[|s.trace| - 1].task.status != Success;
    }
  }

  /** Only the last executed node can have failed, and the loop is left early exactly when it has. */
  lemma FinishedIffAllSucceeded(env: Env, startNode: Option<Node>, n: nat)
    ensures var s := Steps(env, Fresh(env.workflow, startNode), n);
      && s.last == (if s.trace == [] then "" else Last(s.trace).node.name)
      && (s.trace != [] ==> AllSucceeded(s.trace[..|s.trace| - 1]))
      && (s.outcome.Stopped? <==> !AllSucceeded(s.trace))
  {
    FreshRunHistory(env, startNode, n);
    var s := Steps(env, Fresh(env.workflow, startNode), n);
    StoppedIffFailed(s);
    assert s.trace != [] ==> forall i :: 0 <= i < |s.trace| - 1 ==> s.trace[..|s.trace| - 1][i] == s.trace[i];
  }

  // ----- nodes with several input slots -----

  /** The first source of every wired slot, in slot order. */
  function FirstSources(slots: Slots): seq<Connection> {
    if slots == [] then []
    else (if slots[0] == [] then [] else [slots[0][0]]) + FirstSources(slots[1..])
  }

  ghost predicate AllRan(runData: RunData, firsts: seq<Connection>) {
    forall i :: 0 <= i < |firsts| ==> firsts[i].node in runData
  }

  /** Every first source ran and its latest run produced the output that is wired. */
  ghost predicate AllAvailable(waiting: map<string, seq<NodeData>>, firsts: seq<Connection>) {
    forall i :: 0 <= i < |firsts| ==> IsAvailable(waiting, firsts[i])
  }

  predicate IsAvailable(waiting: map<string, seq<NodeData>>, c: Connection) {
    c.node in waiting && c.index < |waiting[c.node]|
  }

  /** The missing source comes before any output that is out of range. */
  ghost predicate MissingFirst(waiting: map<string, seq<NodeData>>, firsts: seq<Connection>) {
    exists k :: 0 <= k < |firsts| && firsts[k].node !in waiting && AllAvailable(waiting, firsts[..k])
  }

  ghost function Gathered(waiting: map<string, seq<NodeData>>, firsts: seq<Connection>): (r: seq<NodeData>)
    requires AllAvailable(waiting, firsts)
    ensures |r| == |firsts|
  {
    seq(|firsts|, i requires 0 <= i < |firsts| => waiting[firsts[i].node][firsts[i].index])
  }

  /** What the last run of each source produced, read off the run data. */
  ghost function LatestOutputs(s: State, firsts: seq<Connection>): (r: seq<NodeData>)
    requires HistoriesAgree(s) && AllAvailable(s.waiting, firsts)
    ensures |r| == |firsts|
  {
    seq(|firsts|, i requires 0 <= i < |firsts| => Last(s.runData[firsts[i].node]).main[firsts[i].index])
  }

  lemma GatheredAreLatest(s: State, firsts: seq<Connection>)
    requires HistoriesAgree(s) && AllAvailable(s.waiting, firsts)
    ensures Gathered(s.waiting, firsts) == LatestOutputs(s, firsts)
  {
    forall i | 0 <= i < |firsts|
      ensures Gathered(s.waiting, firsts)[i] == LatestOutputs(s, firsts)[i]
    {
      assert IsAvailable(s.waiting, firsts[i]);
    }
  }

  /** The three ways to end, and the stack each leaves. */
  ghost predicate GatherEnds(s: State, node: Node, inputs: seq<NodeData>, firsts: seq<Connection>, r: State) {
    && (AllAvailable(s.waiting, firsts) ==>
          r.outcome.Running? && r.stack == [StackEntry(node, inputs + Gathered(s.waiting, firsts))] + s.stack)
    && (MissingFirst(s.waiting, firsts) ==> r.outcome.Running? && r.stack == s.stack)
    && (!AllAvailable(s.waiting, firsts) && !MissingFirst(s.waiting, firsts) ==>
          r.outcome.Panicked? && r.stack == s.stack)
  }

  lemma {:induction false} GatherOutcome(s: State, node: Node, slots: Slots, inputs: seq<NodeData>)
    requires s.outcome.Running?
    ensures GatherEnds(s, node, inputs, FirstSources(slots), Gather(s, node, slots, inputs))
    decreases |slots|
  {
    if slots == [] {
      assert inputs + Gathered(s.waiting, []) == inputs;
    } else if slots[0] == [] {
      GatherOutcome(s, node, slots[1..], inputs);
      assert FirstSources(slots) == FirstSources(slots[1..]);
    } else {
      var c := slots[0][0];
      var rest := FirstSources(slots[1..]);
      assert FirstSources(slots) == [c] + rest;
      if c.node !in s.waiting {
        MissingAtFront(s.waiting, c, rest);
      } else if c.index >= |s.waiting[c.node]| {
        PanicAtFront(s.waiting, c, rest);
      } else {
        var s' := s.(sources := AddSource(s.sources, node.name, Source(c.node, c.index)));
        var inputs' := inputs + [s.waiting[c.node][c.index]];
        GatherOutcome(s', node, slots[1..], inputs');
        EndsCons(s, s', node, inputs, c, rest, Gather(s', node, slots[1..], inputs'));
      }
    }
  }

  lemma MissingAtFront(waiting: map<string, seq<NodeData>>, c: Connection, rest: seq<Connection>)
    requires c.node !in waiting
    ensures !AllAvailable(waiting, [c] + rest) && MissingFirst(waiting, [c] + rest)
  {
    var all := [c] + rest;
    assert all[0] == c && !IsAvailable(waiting, c) && AllAvailable(waiting, all[..0]);
  }

  lemma PanicAtFront(waiting: map<string, seq<NodeData>>, c: Connection, rest: seq<Connection>)
    requires c.node in waiting && !IsAvailable(waiting, c)
    ensures !AllAvailable(waiting, [c] + rest) && !MissingFirst(waiting, [c] + rest)
  {
    var all := [c] + rest;
    assert all[0] == c;
    assert forall k :: 0 < k <= |all| ==> all[..k][0] == c;
  }

  lemma EndsCons(
      s: State, s': State, node: Node, inputs: seq<NodeData>, c: Connection, rest: seq<Connection>, r: State)
    requires IsAvailable(s.waiting, c) && s'.waiting == s.waiting && s'.stack == s.stack
    requires GatherEnds(s', node, inputs + [s.waiting[c.node][c.index]], rest, r)
    ensures GatherEnds(s, node, inputs, [c] + rest, r)
  {
    AvailableCons(s.waiting, c, rest);
    if AllAvailable(s.waiting, rest) {
      assert [s.waiting[c.node][c.index]] + Gathered(s.waiting, rest) == Gathered(s.waiting, [c] + rest);
      assert inputs + [s.waiting[c.node][c.index]] + Gathered(s.waiting, rest)
        == inputs + Gathered(s.waiting, [c] + rest);
    }
  }

  lemma AvailableCons(waiting: map<string, seq<NodeData>>, c: Connection, rest: seq<Connection>)
    requires IsAvailable(waiting, c)
    ensures AllAvailable(waiting, [c] + rest) <==> AllAvailable(waiting, rest)
    ensures MissingFirst(waiting, [c] + rest) <==> MissingFirst(waiting, rest)
  {
    OneAvailableCons(waiting, c, rest);
    MissingBehind(waiting, c, rest);
    MissingBefore(waiting, c, rest);
  }

  lemma MissingBehind(waiting: map<string, seq<NodeData>>, c: Connection, rest: seq<Connection>)
    requires IsAvailable(waiting, c)
    ensures MissingFirst(waiting, rest) ==> MissingFirst(waiting, [c] + rest)
  {
    if k :| 0 <= k < |rest| && rest[k].node !in waiting && AllAvailable(waiting, rest[..k]) {
      var all := [c] + rest;
      OneAvailableCons(waiting, c, rest[..k]);
      assert all[..k + 1] == [c] + rest[..k] && all[k + 1] == rest[k];
    }
  }

  lemma MissingBefore(waiting: map<string, seq<NodeData>>, c: Connection, rest: seq<Connection>)
    requires IsAvailable(waiting, c)
    ensures MissingFirst(waiting, [c] + rest) ==> MissingFirst(waiting, rest)
  {
    var all := [c] + rest;
    if k :| 0 <= k < |all| && all[k].node !in waiting && AllAvailable(waiting, all[..k]) {
      assert all[0] == c && k > 0;
      OneAvailableCons(waiting, c, rest[..k - 1]);
      assert all[..k] == [c] + rest[..k - 1] && all[k] == rest[k - 1];
    }
  }

  lemma OneAvailableCons(waiting: map<string, seq<NodeData>>, c: Connection, rest: seq<Connection>)
    requires IsAvailable(waiting, c)
    ensures AllAvailable(waiting, [c] + rest) <==> AllAvailable(waiting, rest)
  {
    var all := [c] + rest;
    assert forall i :: 0 <= i < |rest| ==> all[i + 1] == rest[i];
  }

  /** A source that is missing is no available one, and one that is available has run. */
  lemma AvailableHaveRun(s: State, firsts: seq<Connection>)
    requires HistoriesAgree(s)
    ensures AllAvailable(s.waiting, firsts) ==> AllRan(s.runData, firsts) && !MissingFirst(s.waiting, firsts)
  {
    if AllAvailable(s.waiting, firsts) {
      forall i | 0 <= i < |firsts|
        ensures firsts[i].node in s.waiting
      {
        assert IsAvailable(s.waiting, firsts[i]);
      }
    }
  }

  /**
   A node with several main input slots is pushed exactly when the first source of every wired slot has run
   and produced the wired output, and it is pushed with precisely those latest outputs, in slot order.
   */
  lemma MultiInputNode(env: Env, s: State, from: string, t: NodeToAdd)
    requires HistoriesAgree(s) && s.outcome.Running? && |MainInputs(env, s.ranges, t.node.name)| != 1
    ensures var firsts := FirstSources(MainInputs(env, s.ranges, t.node.name));
      var r := AddNode(env, s, from, t);
      && (r.stack != s.stack <==> AllAvailable(s.waiting, firsts))
      && (AllAvailable(s.waiting, firsts) ==>
            AllRan(s.runData, firsts) && r.stack == [StackEntry(t.node, LatestOutputs(s, firsts))] + s.stack)
      && (!AllRan(s.runData, firsts) ==> r.stack == s.stack)
      && (r.outcome == Panicked <==> !AllAvailable(s.waiting, firsts) && !MissingFirst(s.waiting, firsts))
  {
    var slots := MainInputs(env, s.ranges, t.node.name);
    var firsts := FirstSources(slots);
    var s1 := s.(ranges := s.ranges + 1);
    GatherOutcome(s1, t.node, slots, []);
    MultiInputEnds(s, s1, t.node, firsts, Gather(s1, t.node, slots, []));
  }

  lemma MultiInputEnds(s: State, s1: State, node: Node, firsts: seq<Connection>, r: State)
    requires HistoriesAgree(s) && s1.waiting == s.waiting && s1.stack == s.stack
    requires GatherEnds(s1, node, [], firsts, r)
    ensures r.stack != s.stack <==> AllAvailable(s.waiting, firsts)
    ensures AllAvailable(s.waiting, firsts) ==>
              AllRan(s.runData, firsts) && r.stack == [StackEntry(node, LatestOutputs(s, firsts))] + s.stack
    ensures !AllRan(s.runData, firsts) ==> r.stack == s.stack
    ensures r.outcome == Panicked <==> !AllAvailable(s.waiting, firsts) && !MissingFirst(s.waiting, firsts)
  {
    AvailableHaveRun(s, firsts);
    if AllAvailable(s.waiting, firsts) {
      GatheredAreLatest(s, firsts);
      assert [] + Gathered(s.waiting, firsts) == Gathered(s.waiting, firsts);
      assert |r.stack| == |s.stack| + 1;
    }
  }

  /** Nodes only run if the workflow (or the caller's start node) has them, and only when enabled. */
  lemma OnlyEnabledWorkflowNodesRun(env: Env, startNode: Option<Node>, n: nat, name: string)
    requires IsSorter(env.sort)
    requires name in Steps(env, Fresh(env.workflow, startNode), n).runData
    ensures exists node ::
      && (node in env.workflow.nodes || Some(node) == startNode)
      && node.name == name && !node.disabled
  {
    var s0 := Fresh(env.workflow, startNode);
    var s := Steps(env, s0, n);
    var known := (set x | x in env.workflow.nodes) + if startNode.Some? then {startNode.value} else {};
    forall i | 0 <= i < |s0.stack|
      ensures s0.stack[i].node in known
    {
      if startNode.None? {
        StartNodesAre(env.workflow.nodes, s0.stack[i].node);
      }
    }
    StepsNodesWithin(env, s0, known, n);
    FreshRunHistory(env, startNode, n);
    RunDataOfIsPerNode(s.trace, name);
    var i := StepWithName(s.trace, name);
    assert s.trace[i].node in known;
  }

  lemma {:induction false} StepWithName(trace: seq<TraceStep>, name: string) returns (i: nat)
    requires TasksOf(trace, name) != []
    ensures i < |trace| && trace[i].node.name == name
  {
    if Last(trace).node.name == name {
      i := |trace| - 1;
    } else {
      i := StepWithName(trace[..|trace| - 1], name);
    }
  }
}
