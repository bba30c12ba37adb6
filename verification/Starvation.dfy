/** A node that waits for the output of a disabled node never runs. */
module Starvation {
  import opened JsonValues
  import opened Graph
  import opened Execution
  import opened Workflows
  import opened RunHistory
  import opened Termination

  /** The nodes a run can meet: those of the workflow and the given start node. */
  ghost predicate Known(env: Env, startNode: Option<Node>, node: Node) {
    node in env.workflow.nodes || Some(node) == startNode
  }

  ghost predicate OnlyDisabled(env: Env, startNode: Option<Node>, name: string) {
    forall node :: Known(env, startNode, node) && node.name == name ==> node.disabled
  }

  ghost predicate WaitsForDisabled(env: Env, startNode: Option<Node>, slots: Slots) {
    exists k :: 0 <= k < |FirstSources(slots)| && OnlyDisabled(env, startNode, FirstSources(slots)[k].node)
  }

  /** In every iteration order the node has several (or no) main inputs and one is fed first by a disabled node. */
  ghost predicate Starved(env: Env, startNode: Option<Node>, name: string) {
    forall r: nat :: |MainInputs(env, r, name)| != 1 && WaitsForDisabled(env, startNode, MainInputs(env, r, name))
  }

  /** Nothing is recorded for disabled nodes. */
  ghost predicate DisabledUnrecorded(env: Env, startNode: Option<Node>, s: State) {
    forall name :: OnlyDisabled(env, startNode, name) ==> name !in s.waiting
  }

  ghost predicate NotPending(stack: seq<StackEntry>, name: string) {
    forall i :: 0 <= i < |stack| ==> stack[i].node.name != name
  }

  ghost predicate NotTraced(trace: seq<TraceStep>, name: string) {
    forall i :: 0 <= i < |trace| ==> trace[i].node.name != name
  }

  ghost predicate StarvationInv(env: Env, startNode: Option<Node>, name: string, s: State) {
    && DisabledUnrecorded(env, startNode, s) && NotPending(s.stack, name) && NotTraced(s.trace, name)
    && forall i :: 0 <= i < |s.stack| ==> Known(env, startNode, s.stack[i].node)
  }

  /** Inputs that include one not recorded yet are never complete. */
  lemma {:induction false} IncompleteIsNotPushed(s: State, node: Node, slots: Slots, inputs: seq<NodeData>, k: nat)
    requires k < |FirstSources(slots)| && FirstSources(slots)[k].node !in s.waiting
    ensures Gather(s, node, slots, inputs).stack == s.stack
    decreases |slots|
  {
    if slots == [] {
    } else if slots[0] == [] {
      assert FirstSources(slots) == FirstSources(slots[1..]);
      IncompleteIsNotPushed(s, node, slots[1..], inputs, k);
    } else {
      var c := slots[0][0];
      assert FirstSources(slots) == [c] + FirstSources(slots[1..]);
      if c.node in s.waiting && c.index < |s.waiting[c.node]| {
        var s' := s.(sources := AddSource(s.sources, node.name, Source(c.node, c.index)));
        IncompleteIsNotPushed(s', node, slots[1..], inputs + [s.waiting[c.node][c.index]], k - 1);
      }
    }
  }

  /** Scheduling one node: the starved one is not pushed, any other puts at most itself on the stack. */
  lemma AddNodeStarves(env: Env, startNode: Option<Node>, name: string, s: State, from: string, t: NodeToAdd)
    requires Starved(env, startNode, name) && DisabledUnrecorded(env, startNode, s) && NotPending(s.stack, name)
    ensures NotPending(AddNode(env, s, from, t).stack, name)
  {
    var slots := MainInputs(env, s.ranges, t.node.name);
    var s1 := s.(ranges := s.ranges + 1);
    if t.node.name == name {
      var k :| 0 <= k < |FirstSources(slots)| && OnlyDisabled(env, startNode, FirstSources(slots)[k].node);
      IncompleteIsNotPushed(s1, t.node, slots, [], k);
    } else {
      GatherPushesOnce(s1, t.node, slots, []);
      PushedIsOther(AddNode(env, s, from, t).stack, s.stack, t.node, name);
    }
  }

  lemma PushedIsOther(stack: seq<StackEntry>, below: seq<StackEntry>, node: Node, name: string)
    requires NotPending(below, name) && node.name != name
    requires stack == below || (|stack| == |below| + 1 && stack[0].node == node && stack[1..] == below)
    ensures NotPending(stack, name)
  {
    if stack != below {
      assert forall i :: 0 < i < |stack| ==> stack[i] == below[i - 1];
    }
  }

  lemma {:induction false} AddNodesStarves(
      env: Env, startNode: Option<Node>, name: string, s: State, from: string, list: seq<NodeToAdd>)
    requires Starved(env, startNode, name) && DisabledUnrecorded(env, startNode, s) && NotPending(s.stack, name)
    ensures NotPending(AddNodes(env, s, from, list).stack, name)
    decreases |list|
  {
    if list == [] || s.outcome.Panicked? {
    } else {
      AddNodeStarves(env, startNode, name, s, from, list[0]);
      AddNodeHistory(env, s, from, list[0]);
      AddNodesStarves(env, startNode, name, AddNode(env, s, from, list[0]), from, list[1..]);
    }
  }

  lemma AddTargetsStarves(env: Env, startNode: Option<Node>, name: string, s: State, from: string, targets: seq<Target>)
    requires Starved(env, startNode, name) && DisabledUnrecorded(env, startNode, s) && NotPending(s.stack, name)
    ensures NotPending(AddTargets(env, s, from, targets).stack, name)
  {
    if Sortable(targets) {
      AddNodesStarves(env, startNode, name, s, from, env.sort(Resolved(targets)));
    }
  }

  /** Executing an enabled known node records no disabled one, and not the starved one. */
  lemma RecordStarves(env: Env, startNode: Option<Node>, name: string, s: State, task: TaskData)
    requires StarvationInv(env, startNode, name, s) && s.stack != [] && !s.stack[0].node.disabled
    ensures var r := RecordRun(Pop(s), s.stack[0], task);
      && DisabledUnrecorded(env, startNode, r) && NotPending(r.stack, name) && NotTraced(r.trace, name)
  {
    assert Known(env, startNode, s.stack[0].node);
  }

  lemma StepStarves(env: Env, startNode: Option<Node>, name: string, s: State)
    requires Starved(env, startNode, name) && StarvationInv(env, startNode, name, s) && !Halted(s)
    ensures var r := Step(env, s);
      && DisabledUnrecorded(env, startNode, r) && NotPending(r.stack, name) && NotTraced(r.trace, name)
  {
    var entry, from := s.stack[0], s.stack[0].node.name;
    if entry.node.disabled {
      var targets := Targets(env.workflow, MainOutputs(env, from), entry.inputs, true);
      AddTargetsStarves(env, startNode, name, Pop(s), from, targets);
      AddTargetsHistory(env, Pop(s), from, targets);
    } else {
      var task := RunNode(env, entry, s.runData);
      var ran := RecordRun(Pop(s), entry, task);
      var targets := Targets(env.workflow, MainOutputs(env, from), task.main, false);
      RecordStarves(env, startNode, name, s, task);
      AddTargetsStarves(env, startNode, name, ran, from, targets);
      AddTargetsHistory(env, ran, from, targets);
    }
  }

  lemma {:induction false} StepsStarve(
      env: Env, startNode: Option<Node>, name: string, s: State, known: set<Node>, n: nat)
    requires IsSorter(env.sort) && Starved(env, startNode, name) && StarvationInv(env, startNode, name, s)
    requires (forall node :: node in known <==> Known(env, startNode, node)) && NodesWithin(s, known)
    ensures StarvationInv(env, startNode, name, Steps(env, s, n))
    decreases n
  {
    if n == 0 {
    } else {
      var before := Steps(env, s, n - 1);
      StepsStarve(env, startNode, name, s, known, n - 1);
      if !Halted(before) {
        StepStarves(env, startNode, name, before);
        StepsNodesWithin(env, s, known, n);
      }
    }
  }

  lemma FreshStarves(env: Env, startNode: Option<Node>, name: string) returns (known: set<Node>)
    requires NotPending(StartStack(env.workflow, startNode), name)
    ensures forall node :: node in known <==> Known(env, startNode, node)
    ensures var s := Fresh(env.workflow, startNode); NodesWithin(s, known) && StarvationInv(env, startNode, name, s)
  {
    known := (set x | x in env.workflow.nodes) + if startNode.Some? then {startNode.value} else {};
    var s := Fresh(env.workflow, startNode);
    forall i | 0 <= i < |s.stack|
      ensures s.stack[i].node in known
    {
      if startNode.None? {
        StartNodesAre(env.workflow.nodes, s.stack[i].node);
      }
    }
  }

  /**
   A node with several main inputs, one of which is fed first by a disabled node, is never pending and never
   executed in any run that does not start with it: disabled nodes pass data on but record none, so the loop
   waits for an output that cannot come.
   */
  lemma DisabledSourceStarves(env: Env, startNode: Option<Node>, name: string, n: nat)
    requires IsSorter(env.sort) && Starved(env, startNode, name)
    requires NotPending(StartStack(env.workflow, startNode), name)
    ensures var s := Steps(env, Fresh(env.workflow, startNode), n);
      NotPending(s.stack, name) && NotTraced(s.trace, name) && name !in s.runData
  {
    var s0 := Fresh(env.workflow, startNode);
    var known := FreshStarves(env, startNode, name);
    StepsStarve(env, startNode, name, s0, known, n);
    FreshRunHistory(env, startNode, n);
    var s := Steps(env, s0, n);
    UntracedIsUnrecorded(s.trace, name);
  }

  lemma {:induction false} UntracedIsUnrecorded(trace: seq<TraceStep>, name: string)
    requires NotTraced(trace, name)
    ensures name !in RunDataOf(trace)
  {
    if trace == [] {
    } else {
      UntracedIsUnrecorded(trace[..|trace| - 1], name);
    }
  }

  // ----- which nodes starve, read off the graph -----

  lemma {:induction false} FirstSourceOf(slots: Slots, i: nat) returns (k: nat)
    requires i < |slots| && slots[i] != []
    ensures k < |FirstSources(slots)| && FirstSources(slots)[k] == slots[i][0]
    decreases |slots|
  {
    if i == 0 {
      k := 0;
    } else {
      k := FirstSourceOf(slots[1..], i - 1);
      if slots[0] != [] {
        assert FirstSources(slots) == [slots[0][0]] + FirstSources(slots[1..]);
        k := k + 1;
      } else {
        assert FirstSources(slots) == FirstSources(slots[1..]);
      }
    }
  }

  /** All that is wired to this main input are nodes that are disabled. */
  ghost predicate FedByDisabled(env: Env, startNode: Option<Node>, name: string, i: nat) {
    && (exists s, c, o: nat :: Edge(env.workflow.connections, s, c, o, name, "main", i))
    && forall s, c, o: nat :: Edge(env.workflow.connections, s, c, o, name, "main", i) ==>
         OnlyDisabled(env, startNode, s)
  }

  lemma InputIsFedByDisabled(env: Env, startNode: Option<Node>, name: string, i: nat, r: nat)
    requires ValidEnv(env) && FedByDisabled(env, startNode, name, i)
    ensures WaitsForDisabled(env, startNode, MainInputs(env, r, name))
  {
    var g, order, slots := env.workflow.connections, env.order(r), MainInputs(env, r, name);
    var s, c, o: nat :| Edge(g, s, c, o, name, "main", i);
    EdgeInverse(g, order, s, c, o, name, "main", i);
    WiredInputHasSlot(g, order, s, c, o, name, "main", i);
    assert slots[i] == SlotOf(Inverse(g, order), name, "main", i) && slots[i] != [];
    var first := slots[i][0];
    assert Edge(Inverse(g, order), name, "main", i, first.node, first.typ, first.index);
    EdgeInverse(g, order, first.node, first.typ, first.index, name, "main", i);
    var k := FirstSourceOf(slots, i);
    assert OnlyDisabled(env, startNode, FirstSources(slots)[k].node);
  }

  /** A node starves when one of its main inputs is fed by disabled nodes only and some input but the first is wired. */
  lemma StarvedByWiring(
      env: Env, startNode: Option<Node>, name: string, i: nat, s: string, c: string, o: nat, last: nat)
    requires ValidEnv(env) && FedByDisabled(env, startNode, name, i)
    requires last > 0 && Edge(env.workflow.connections, s, c, o, name, "main", last)
    ensures Starved(env, startNode, name)
  {
    forall r: nat
      ensures |MainInputs(env, r, name)| != 1 && WaitsForDisabled(env, startNode, MainInputs(env, r, name))
    {
      WiredInputHasSlot(env.workflow.connections, env.order(r), s, c, o, name, "main", last);
      InputIsFedByDisabled(env, startNode, name, i, r);
    }
  }
}
