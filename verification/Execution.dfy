/**
 The run loop of one workflow, as a step function over the run state.

 What the loop does not decide itself is a parameter of the run (Env): what a node returns, which
 iteration order the runtime gives a map range, and how the library sort orders nodes at one position.
 */
module Execution {
  import opened JsonValues
  import opened Graph
  import opened Iteration
  import opened Workflows

  /** A Go slice of items: nil is not the empty slice. */
  datatype NodeData = Nil | Items(items: seq<Item>)

  datatype Status =
    Canceled | Crashed | Error | Failed | New | InProgress | Success | Unknown | Waiting | Warning

  datatype Category = TriggerCategory | ExecutorCategory | OtherCategory

  datatype NodeResult =
    NodeResult(status: Status, errors: seq<string>, triggerData: NodeData, executorData: seq<NodeData>)

  datatype TaskData = TaskData(status: Status, main: seq<NodeData>, error: Option<string>)

  type RunData = map<string, seq<TaskData>>

  datatype Source = Source(node: string, output: nat)

  datatype StackEntry = StackEntry(node: Node, inputs: seq<NodeData>)

  datatype NodeToAdd = NodeToAdd(node: Node, data: NodeData, outputIndex: nat)

  /** A connected target; None when the connection names no node of the workflow. */
  datatype Target = Target(node: Option<Node>, data: NodeData, outputIndex: nat)

  /** One executed node: what it ran on and what it recorded. */
  datatype TraceStep = TraceStep(node: Node, inputs: seq<NodeData>, task: TaskData)

  /** Stopped: a node did not succeed. Panicked: a Go run-time panic left the loop. */
  datatype Outcome = Running | Stopped | Panicked

  /** The execution data stored for the run after each node. */
  datatype Record = Record(
    stack: seq<StackEntry>,
    waiting: map<string, seq<NodeData>>,
    sources: map<string, seq<Source>>,
    runData: RunData,
    error: string,
    last: string)

  datatype State = State(
    stack: seq<StackEntry>,
    waiting: map<string, seq<NodeData>>,
    sources: map<string, seq<Source>>,
    runData: RunData,
    error: string,
    last: string,
    outcome: Outcome,
    saved: Record,
    trace: seq<TraceStep>,
    ranges: nat)

  datatype Env = Env(
    workflow: Workflow,
    behave: (Node, seq<NodeData>, RunData) -> NodeResult,
    category: string -> Category,
    order: nat -> seq<(string, string)>,
    sort: seq<NodeToAdd> -> seq<NodeToAdd>)

  ghost predicate ValidEnv(env: Env) {
    && (forall k: nat :: IsMapOrder(env.workflow.connections, env.order(k)))
    && IsSorter(env.sort)
  }

  // ----- sorting by canvas position -----

  predicate HasPosition(n: Node) {
    |n.position| >= 2
  }

  /** `a` is not above `b`, and not left of it on the same row. */
  predicate NotBefore(a: Node, b: Node)
    requires HasPosition(a) && HasPosition(b)
  {
    a.position[1] > b.position[1] || (a.position[1] == b.position[1] && a.position[0] >= b.position[0])
  }

  ghost predicate BottomRightFirst(l: seq<NodeToAdd>) {
    (forall i :: 0 <= i < |l| ==> HasPosition(l[i].node)) ==>
      forall i, j :: 0 <= i < j < |l| ==> NotBefore(l[i].node, l[j].node)
  }

  /** The result is a permutation, bottom right first; ties are left to the library. */
  ghost predicate IsSorter(sort: seq<NodeToAdd> -> seq<NodeToAdd>) {
    forall l :: multiset(sort(l)) == multiset(l) && BottomRightFirst(sort(l))
  }

  // ----- one node -----

  function NodeByName(nodes: seq<Node>, name: string): Option<Node> {
    if nodes == [] then None
    else if nodes[|nodes| - 1].name == name then Some(nodes[|nodes| - 1])
    else NodeByName(nodes[..|nodes| - 1], name)
  }

  function ResultData(result: NodeResult, category: Category): seq<NodeData> {
    match category
    case TriggerCategory => [result.triggerData]
    case ExecutorCategory => result.executorData
    case OtherCategory => []
  }

  function TaskOf(result: NodeResult, outputs: seq<NodeData>): TaskData {
    TaskData(result.status, outputs, if result.errors != [] then Some(result.errors[0]) else None)
  }

  function AppendTask(runData: RunData, name: string, task: TaskData): RunData {
    runData[name := (if name in runData then runData[name] else []) + [task]]
  }

  /** Everything the loop records for an executed node, including the stored progress. */
  function RecordRun(s: State, entry: StackEntry, task: TaskData): State {
    var name := entry.node.name;
    var waiting := s.waiting[name := task.main];
    var runData := AppendTask(s.runData, name, task);
    s.(waiting := waiting,
       runData := runData,
       error := if task.error.Some? then task.error.value else s.error,
       last := name,
       saved := Record(s.stack, waiting, s.sources, AppendTask(s.saved.runData, name, task), s.saved.error, name),
       trace := s.trace + [TraceStep(entry.node, entry.inputs, task)])
  }

  function RunNode(env: Env, entry: StackEntry, runData: RunData): TaskData {
    var result := env.behave(entry.node, entry.inputs, runData);
    TaskOf(result, ResultData(result, env.category(entry.node.typ)))
  }

  // ----- successors -----

  /** Whether output `o` leads on: a disabled node passes non-empty data, an enabled one any non-nil data. */
  predicate Live(outputs: seq<NodeData>, o: nat, disabled: bool) {
    o < |outputs| && outputs[o].Items? && (disabled ==> outputs[o].items != [])
  }

  function SlotTargets(wf: Workflow, slot: seq<Connection>, data: NodeData, outputIndex: nat): seq<Target> {
    seq(|slot|, j requires 0 <= j < |slot| => Target(NodeByName(wf.nodes, slot[j].node), data, outputIndex))
  }

  function Targets(wf: Workflow, slots: Slots, outputs: seq<NodeData>, disabled: bool): seq<Target> {
    if slots == [] then []
    else
      var o := |slots| - 1;
      Targets(wf, slots[..o], outputs, disabled)
      + if Live(outputs, o, disabled) then SlotTargets(wf, slots[o], outputs[o], if disabled then 0 else o) else []
  }

  predicate AllExist(targets: seq<Target>) {
    forall i :: 0 <= i < |targets| ==> targets[i].node.Some?
  }

  /** Neither the comparison of positions nor the dereference of the single target panics. */
  predicate Sortable(targets: seq<Target>) {
    && AllExist(targets)
    && (|targets| >= 2 ==> forall i :: 0 <= i < |targets| ==> HasPosition(targets[i].node.value))
  }

  function Resolved(targets: seq<Target>): (r: seq<NodeToAdd>)
    requires AllExist(targets)
    ensures |r| == |targets|
  {
    seq(|targets|, i requires 0 <= i < |targets| =>
      NodeToAdd(targets[i].node.value, targets[i].data, targets[i].outputIndex))
  }

  // ----- scheduling -----

  function Push(s: State, entry: StackEntry): State {
    s.(stack := [entry] + s.stack)
  }

  function AddSource(sources: map<string, seq<Source>>, name: string, source: Source): map<string, seq<Source>> {
    sources[name := (if name in sources then sources[name] else []) + [source]]
  }

  /** Collect the latest output of the first source of every wired input slot; give up at the first that has not run. */
  function Gather(s: State, node: Node, slots: Slots, inputs: seq<NodeData>): State
    decreases |slots|
  {
    if slots == [] then Push(s, StackEntry(node, inputs))
    else if slots[0] == [] then Gather(s, node, slots[1..], inputs)
    else
      var c := slots[0][0];
      if c.node !in s.waiting then s
      else if c.index >= |s.waiting[c.node]| then s.(outcome := Panicked)
      else
        Gather(s.(sources := AddSource(s.sources, node.name, Source(c.node, c.index))), node, slots[1..],
               inputs + [s.waiting[c.node][c.index]])
  }

  function MainInputs(env: Env, range: nat, name: string): Slots {
    SlotsOf(Inverse(env.workflow.connections, env.order(range)), name, "main")
  }

  function AddNode(env: Env, s: State, from: string, t: NodeToAdd): State {
    var slots := MainInputs(env, s.ranges, t.node.name);
    var s1 := s.(ranges := s.ranges + 1);
    if |slots| == 1 then
      Push(s1, StackEntry(t.node, [t.data])).(sources := s.sources[t.node.name := [Source(from, t.outputIndex)]])
    else
      Gather(s1, t.node, slots, [])
  }

  function AddNodes(env: Env, s: State, from: string, list: seq<NodeToAdd>): State
    decreases |list|
  {
    if list == [] || s.outcome.Panicked? then s
    else AddNodes(env, AddNode(env, s, from, list[0]), from, list[1..])
  }

  function AddTargets(env: Env, s: State, from: string, targets: seq<Target>): State {
    if Sortable(targets) then AddNodes(env, s, from, env.sort(Resolved(targets)))
    else s.(outcome := Panicked)
  }

  // ----- the loop -----

  predicate Halted(s: State) {
    s.stack == [] || !s.outcome.Running?
  }

  function MainOutputs(env: Env, name: string): Slots {
    SlotsOf(env.workflow.connections, name, "main")
  }

  function Pop(s: State): State
    requires s.stack != []
  {
    s.(stack := s.stack[1..])
  }

  /** One iteration of the loop. */
  function Step(env: Env, s: State): State
    requires !Halted(s)
  {
    var entry := s.stack[0];
    var name := entry.node.name;
    if entry.node.disabled then
      AddTargets(env, Pop(s), name, Targets(env.workflow, MainOutputs(env, name), entry.inputs, true))
    else
      var task := RunNode(env, entry, s.runData);
      var ran := RecordRun(Pop(s), entry, task);
      if task.status != Success then ran.(outcome := Stopped)
      else AddTargets(env, ran, name, Targets(env.workflow, MainOutputs(env, name), task.main, false))
  }

  function Next(env: Env, s: State): State {
    if Halted(s) then s else Step(env, s)
  }

  function Stepper(env: Env): State -> State {
    (s: State) => Next(env, s)
  }

  /** The state after `n` iterations, or at the end of the loop if that comes first. */
  function Steps(env: Env, s: State, n: nat): State {
    Iterate(Stepper(env), s, n)
  }

  // ----- start of a run -----

  function Lower(s: string): string {
    seq(|s|, i requires 0 <= i < |s| => if 'A' <= s[i] <= 'Z' then s[i] - 'A' + 'a' else s[i])
  }

  predicate IsStartType(typ: string) {
    Contains(Lower(typ), "manual") || Contains(Lower(typ), "webhook") || Contains(Lower(typ), "trigger")
  }

  function StartNodes(nodes: seq<Node>): seq<Node> {
    if nodes == [] then []
    else
      var n := nodes[|nodes| - 1];
      StartNodes(nodes[..|nodes| - 1]) + if !n.disabled && IsStartType(n.typ) then [n] else []
  }

  function StartEntries(nodes: seq<Node>): seq<StackEntry> {
    seq(|nodes|, i requires 0 <= i < |nodes| => StackEntry(nodes[i], []))
  }

  function StartStack(wf: Workflow, startNode: Option<Node>): seq<StackEntry> {
    StartEntries(if startNode.Some? then [startNode.value] else StartNodes(wf.nodes))
  }

  const EMPTY_RECORD := Record([], map[], map[], map[], "", "")

  function Fresh(wf: Workflow, startNode: Option<Node>): State {
    State(StartStack(wf, startNode), map[], map[], map[], "", "", Running, EMPTY_RECORD, [], 0)
  }

  /** What is stored once the loop has ended without a panic. */
  function StoredAfterRun(s: State): Record {
    s.saved.(error := s.error)
  }

  // ----- facts about runs used throughout -----

  lemma StepsCompose(env: Env, s: State, m: nat, n: nat)
    ensures Steps(env, s, m + n) == Steps(env, Steps(env, s, m), n)
  {
    Compose(Stepper(env), s, m, n);
  }

  lemma StepsNext(env: Env, s: State, n: nat, before: State, after: State)
    requires before == Steps(env, s, n) && !Halted(before) && after == Step(env, before)
    ensures after == Steps(env, s, n + 1)
  {
  }

  lemma HaltedSteps(env: Env, s: State, n: nat)
    requires Halted(s)
    ensures Steps(env, s, n) == s
  {
    Fixed(Stepper(env), s, n);
  }

  /** Once a run has halted, allowing it more steps changes nothing. */
  lemma HaltedStays(env: Env, s: State, m: nat, n: nat)
    requires m <= n && Halted(Steps(env, s, m))
    ensures Steps(env, s, n) == Steps(env, s, m)
  {
    StepsCompose(env, s, m, n - m);
    HaltedSteps(env, Steps(env, s, m), n - m);
  }

  /** Scheduling leaves what has been recorded alone. */
  ghost predicate SameHistory(a: State, b: State) {
    && a.waiting == b.waiting && a.runData == b.runData && a.error == b.error && a.last == b.last
    && a.saved == b.saved && a.trace == b.trace
  }

  lemma {:induction false} GatherHistory(s: State, node: Node, slots: Slots, inputs: seq<NodeData>)
    ensures var r := Gather(s, node, slots, inputs);
      && SameHistory(r, s) && r.ranges == s.ranges
      && (r.outcome == s.outcome || r.outcome == Panicked)
    decreases |slots|
  {
    if slots == [] {
    } else if slots[0] == [] {
      GatherHistory(s, node, slots[1..], inputs);
    } else {
      var c := slots[0][0];
      if c.node in s.waiting && c.index < |s.waiting[c.node]| {
        GatherHistory(s.(sources := AddSource(s.sources, node.name, Source(c.node, c.index))), node, slots[1..],
                      inputs + [s.waiting[c.node][c.index]]);
      }
    }
  }

  lemma AddNodeHistory(env: Env, s: State, from: string, t: NodeToAdd)
    ensures var r := AddNode(env, s, from, t); SameHistory(r, s) && (r.outcome == s.outcome || r.outcome == Panicked)
  {
    GatherHistory(s.(ranges := s.ranges + 1), t.node, MainInputs(env, s.ranges, t.node.name), []);
  }

  lemma {:induction false} AddNodesHistory(env: Env, s: State, from: string, list: seq<NodeToAdd>)
    ensures var r := AddNodes(env, s, from, list);
      SameHistory(r, s) && (r.outcome == s.outcome || r.outcome == Panicked)
    decreases |list|
  {
    if list != [] && !s.outcome.Panicked? {
      AddNodeHistory(env, s, from, list[0]);
      AddNodesHistory(env, AddNode(env, s, from, list[0]), from, list[1..]);
    }
  }

  lemma AddTargetsHistory(env: Env, s: State, from: string, targets: seq<Target>)
    ensures var r := AddTargets(env, s, from, targets);
      SameHistory(r, s) && (r.outcome == s.outcome || r.outcome == Panicked)
  {
    if Sortable(targets) {
      AddNodesHistory(env, s, from, env.sort(Resolved(targets)));
    }
  }

  /** Scheduling only ever puts nodes of `known` on the stack. */
  ghost predicate StackWithin(s: State, known: set<Node>) {
    forall i :: 0 <= i < |s.stack| ==> s.stack[i].node in known
  }

  lemma {:induction false} GatherStackWithin(
      s: State, node: Node, slots: Slots, inputs: seq<NodeData>, known: set<Node>)
    requires StackWithin(s, known) && node in known
    ensures StackWithin(Gather(s, node, slots, inputs), known)
    decreases |slots|
  {
    if slots == [] {
    } else if slots[0] == [] {
      GatherStackWithin(s, node, slots[1..], inputs, known);
    } else {
      var c := slots[0][0];
      if c.node in s.waiting && c.index < |s.waiting[c.node]| {
        GatherStackWithin(s.(sources := AddSource(s.sources, node.name, Source(c.node, c.index))), node, slots[1..],
                          inputs + [s.waiting[c.node][c.index]], known);
      }
    }
  }

  lemma {:induction false} AddNodesStackWithin(env: Env, s: State, from: string, list: seq<NodeToAdd>, known: set<Node>)
    requires StackWithin(s, known) && forall t :: t in list ==> t.node in known
    ensures StackWithin(AddNodes(env, s, from, list), known)
    decreases |list|
  {
    if list != [] && !s.outcome.Panicked? {
      assert list[0] in list;
      var slots := MainInputs(env, s.ranges, list[0].node.name);
      GatherStackWithin(s.(ranges := s.ranges + 1), list[0].node, slots, [], known);
      AddNodesStackWithin(env, AddNode(env, s, from, list[0]), from, list[1..], known);
    }
  }

  lemma {:induction false} NodeByNameFound(nodes: seq<Node>, name: string)
    ensures var r := NodeByName(nodes, name); r.Some? ==> r.value in nodes && r.value.name == name
    ensures NodeByName(nodes, name).None? <==> forall i :: 0 <= i < |nodes| ==> nodes[i].name != name
  {
    if nodes == [] {
    } else {
      NodeByNameFound(nodes[..|nodes| - 1], name);
    }
  }

  /** Every target is the dictionary entry of some connection of a live slot, with that slot's data. */
  lemma {:induction false} TargetsAre(wf: Workflow, slots: Slots, outputs: seq<NodeData>, disabled: bool, t: Target)
    requires t in Targets(wf, slots, outputs, disabled)
    ensures exists o, j ::
      && 0 <= o < |slots| && 0 <= j < |slots[o]| && Live(outputs, o, disabled)
      && t == Target(NodeByName(wf.nodes, slots[o][j].node), outputs[o], if disabled then 0 else o)
    decreases |slots|
  {
    var o := |slots| - 1;
    if t in Targets(wf, slots[..o], outputs, disabled) {
      TargetsAre(wf, slots[..o], outputs, disabled, t);
      var o', j :| 0 <= o' < |slots[..o]| && 0 <= j < |slots[..o][o']| && Live(outputs, o', disabled)
        && t == Target(NodeByName(wf.nodes, slots[..o][o'][j].node), outputs[o'], if disabled then 0 else o');
      assert slots[..o][o'] == slots[o'];
    } else {
      var j :| 0 <= j < |slots[o]| && SlotTargets(wf, slots[o], outputs[o], if disabled then 0 else o)[j] == t;
    }
  }

  lemma SortedMembers(env: Env, l: seq<NodeToAdd>)
    requires IsSorter(env.sort)
    ensures |env.sort(l)| == |l|
    ensures forall t :: t in env.sort(l) <==> t in l
  {
    var r := env.sort(l);
    assert |multiset(r)| == |r| && |multiset(l)| == |l|;
    forall t
      ensures t in r <==> t in l
    {
      assert t in r <==> t in multiset(r);
      assert t in l <==> t in multiset(l);
    }
  }

  ghost predicate NodesWithin(s: State, known: set<Node>) {
    StackWithin(s, known) && forall i :: 0 <= i < |s.trace| ==> s.trace[i].node in known
  }

  lemma ListedNodesExist(wf: Workflow, slots: Slots, outputs: seq<NodeData>, disabled: bool, t: NodeToAdd)
    requires AllExist(Targets(wf, slots, outputs, disabled))
    requires t in Resolved(Targets(wf, slots, outputs, disabled))
    ensures t.node in wf.nodes
  {
    var targets := Targets(wf, slots, outputs, disabled);
    var i :| 0 <= i < |targets| && Resolved(targets)[i] == t;
    TargetsAre(wf, slots, outputs, disabled, targets[i]);
    var o, j :| 0 <= o < |slots| && 0 <= j < |slots[o]| && targets[i].node == NodeByName(wf.nodes, slots[o][j].node);
    NodeByNameFound(wf.nodes, slots[o][j].node);
  }

  lemma AddTargetsWithin(
      env: Env, s: State, name: string, outputs: seq<NodeData>, disabled: bool, known: set<Node>)
    requires IsSorter(env.sort) && StackWithin(s, known)
    requires forall n :: n in env.workflow.nodes ==> n in known
    ensures var targets := Targets(env.workflow, MainOutputs(env, name), outputs, disabled);
      StackWithin(AddTargets(env, s, name, targets), known)
  {
    var targets := Targets(env.workflow, MainOutputs(env, name), outputs, disabled);
    if Sortable(targets) {
      var list := Resolved(targets);
      SortedMembers(env, list);
      forall t | t in env.sort(list)
        ensures t.node in known
      {
        ListedNodesExist(env.workflow, MainOutputs(env, name), outputs, disabled, t);
      }
      AddNodesStackWithin(env, s, name, env.sort(list), known);
    }
  }

  lemma RecordNodesWithin(s: State, entry: StackEntry, task: TaskData, known: set<Node>)
    requires NodesWithin(s, known) && entry.node in known
    ensures NodesWithin(RecordRun(s, entry, task), known)
  {
  }

  lemma ScheduledNodesWithin(
      env: Env, s: State, name: string, outputs: seq<NodeData>, disabled: bool, known: set<Node>)
    requires IsSorter(env.sort) && NodesWithin(s, known)
    requires forall n :: n in env.workflow.nodes ==> n in known
    ensures var targets := Targets(env.workflow, MainOutputs(env, name), outputs, disabled);
      NodesWithin(AddTargets(env, s, name, targets), known)
  {
    AddTargetsWithin(env, s, name, outputs, disabled, known);
    AddTargetsHistory(env, s, name, Targets(env.workflow, MainOutputs(env, name), outputs, disabled));
  }

  lemma StepNodesWithin(env: Env, s: State, known: set<Node>)
    requires IsSorter(env.sort) && NodesWithin(s, known) && !Halted(s)
    requires forall n :: n in env.workflow.nodes ==> n in known
    ensures NodesWithin(Step(env, s), known)
  {
    var entry := s.stack[0];
    assert NodesWithin(Pop(s), known);
    if entry.node.disabled {
      ScheduledNodesWithin(env, Pop(s), entry.node.name, entry.inputs, true, known);
    } else {
      var task := RunNode(env, entry, s.runData);
      RecordNodesWithin(Pop(s), entry, task, known);
      ScheduledNodesWithin(env, RecordRun(Pop(s), entry, task), entry.node.name, task.main, false, known);
    }
  }

  lemma {:induction false} StepsNodesWithin(env: Env, s: State, known: set<Node>, n: nat)
    requires IsSorter(env.sort) && NodesWithin(s, known)
    requires forall n :: n in env.workflow.nodes ==> n in known
    ensures NodesWithin(Steps(env, s, n), known)
    decreases n
  {
    if n == 0 {
    } else {
      StepsNodesWithin(env, s, known, n - 1);
      var before := Steps(env, s, n - 1);
      if !Halted(before) {
        StepNodesWithin(env, before, known);
      }
    }
  }

  lemma {:induction false} StartNodesAre(nodes: seq<Node>, n: Node)
    ensures n in StartNodes(nodes) <==> n in nodes && !n.disabled && IsStartType(n.typ)
  {
    if nodes == [] {
    } else {
      StartNodesAre(nodes[..|nodes| - 1], n);
      assert nodes == nodes[..|nodes| - 1] + [nodes[|nodes| - 1]];
    }
  }
}
