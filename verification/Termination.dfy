/** On an acyclic graph the run loop ends, within a bound read off the graph. */
module Termination {
  import opened JsonValues
  import opened Graph
  import opened Execution
  import opened Iteration
  import opened Workflows
  import opened Sequences

  /** `rank` falls along every main connection. */
  ghost predicate Ranked(wf: Workflow, rank: string -> nat) {
    forall s, o, j ::
      0 <= o < |SlotsOf(wf.connections, s, "main")| && 0 <= j < |SlotsOf(wf.connections, s, "main")[o]| ==>
        rank(SlotsOf(wf.connections, s, "main")[o][j].node) < rank(s)
  }

  ghost predicate Acyclic(wf: Workflow) {
    exists rank: string -> nat :: Ranked(wf, rank)
  }

  function Flat(slots: Slots): seq<Connection> {
    if slots == [] then [] else Flat(slots[..|slots| - 1]) + slots[|slots| - 1]
  }

  lemma {:induction false} FlatMembers(slots: Slots, c: Connection)
    requires c in Flat(slots)
    ensures exists o, j :: 0 <= o < |slots| && 0 <= j < |slots[o]| && slots[o][j] == c
  {
    var last := |slots| - 1;
    if c in slots[last] {
      var j :| 0 <= j < |slots[last]| && slots[last][j] == c;
    } else {
      FlatMembers(slots[..last], c);
      var o, j :| 0 <= o < |slots[..last]| && 0 <= j < |slots[..last][o]| && slots[..last][o][j] == c;
      assert slots[o][j] == c;
    }
  }

  /** One for the node itself, plus the weight of the target of each outgoing main connection. */
  ghost function Weight(wf: Workflow, rank: string -> nat, name: string): nat
    requires Ranked(wf, rank)
    decreases rank(name) + 1, 0
  {
    var out := Flat(SlotsOf(wf.connections, name, "main"));
    assert forall c :: c in out ==> rank(c.node) < rank(name) by {
      forall c | c in out
        ensures rank(c.node) < rank(name)
      {
        FlatMembers(SlotsOf(wf.connections, name, "main"), c);
      }
    }
    1 + TargetsWeight(wf, rank, out, rank(name))
  }

  ghost function TargetsWeight(wf: Workflow, rank: string -> nat, out: seq<Connection>, bound: nat): nat
    requires Ranked(wf, rank) && forall c :: c in out ==> rank(c.node) < bound
    decreases bound, |out|
  {
    if out == [] then 0
    else TargetsWeight(wf, rank, out[..|out| - 1], bound) + Weight(wf, rank, out[|out| - 1].node)
  }

  ghost function StackWeight(wf: Workflow, rank: string -> nat, stack: seq<StackEntry>): nat
    requires Ranked(wf, rank)
  {
    if stack == [] then 0 else Weight(wf, rank, stack[0].node.name) + StackWeight(wf, rank, stack[1..])
  }

  ghost function ListWeight(wf: Workflow, rank: string -> nat, list: seq<NodeToAdd>): nat
    requires Ranked(wf, rank)
  {
    if list == [] then 0 else Weight(wf, rank, list[0].node.name) + ListWeight(wf, rank, list[1..])
  }

  // ----- scheduling adds at most the weight of the listed targets -----

  lemma {:induction false} ListWeightConcat(wf: Workflow, rank: string -> nat, a: seq<NodeToAdd>, b: seq<NodeToAdd>)
    requires Ranked(wf, rank)
    ensures ListWeight(wf, rank, a + b) == ListWeight(wf, rank, a) + ListWeight(wf, rank, b)
  {
    if a == [] {
      assert a + b == b;
    } else {
      ListWeightConcat(wf, rank, a[1..], b);
      assert (a + b)[1..] == a[1..] + b;
    }
  }

  lemma ListWeightRemove(wf: Workflow, rank: string -> nat, b: seq<NodeToAdd>, i: nat)
    requires Ranked(wf, rank) && i < |b|
    ensures ListWeight(wf, rank, b) == Weight(wf, rank, b[i].node.name) + ListWeight(wf, rank, Without(b, i))
  {
    assert b == b[..i] + b[i..] && b[i..][1..] == b[i + 1..];
    ListWeightConcat(wf, rank, b[..i], b[i + 1..]);
    ListWeightConcat(wf, rank, b[..i], b[i..]);
  }

  lemma {:induction false} ListWeightPermutation(
      wf: Workflow, rank: string -> nat, a: seq<NodeToAdd>, b: seq<NodeToAdd>)
    requires Ranked(wf, rank) && multiset(a) == multiset(b)
    ensures ListWeight(wf, rank, a) == ListWeight(wf, rank, b)
    decreases |a|
  {
    if a == [] {
      EmptyPermutation(b);
    } else {
      var i := RemoveFirst(a, b);
      ListWeightPermutation(wf, rank, a[1..], Without(b, i));
      ListWeightRemove(wf, rank, b, i);
    }
  }

  lemma {:induction false} TargetsWeightConcat(
      wf: Workflow, rank: string -> nat, a: seq<Connection>, b: seq<Connection>, bound: nat)
    requires Ranked(wf, rank) && forall c :: c in a + b ==> rank(c.node) < bound
    ensures forall c :: c in a || c in b ==> c in a + b
    ensures TargetsWeight(wf, rank, a + b, bound)
         == TargetsWeight(wf, rank, a, bound) + TargetsWeight(wf, rank, b, bound)
    decreases |b|
  {
    if b == [] {
      assert a + b == a;
    } else {
      assert (a + b)[..|a + b| - 1] == a + b[..|b| - 1];
      TargetsWeightConcat(wf, rank, a, b[..|b| - 1], bound);
    }
  }

  /** The listed targets of one live slot weigh what its connections weigh. */
  lemma {:induction false} SlotTargetsWeight(
      wf: Workflow, rank: string -> nat, slot: seq<Connection>, data: NodeData, outputIndex: nat, bound: nat)
    requires Ranked(wf, rank) && forall c :: c in slot ==> rank(c.node) < bound
    requires AllExist(SlotTargets(wf, slot, data, outputIndex))
    ensures ListWeight(wf, rank, Resolved(SlotTargets(wf, slot, data, outputIndex)))
         == TargetsWeight(wf, rank, slot, bound)
    decreases |slot|
  {
    var list := SlotTargets(wf, slot, data, outputIndex);
    if slot == [] {
    } else {
      var n := |slot| - 1;
      var front := SlotTargets(wf, slot[..n], data, outputIndex);
      assert front == list[..n] && list == front + [list[n]];
      SlotTargetsWeight(wf, rank, slot[..n], data, outputIndex, bound);
      assert Resolved(list) == Resolved(front) + [Resolved(list)[n]];
      ListWeightConcat(wf, rank, Resolved(front), [Resolved(list)[n]]);
      assert list[n] in list;
      NodeByNameFound(wf.nodes, slot[n].node);
    }
  }

  lemma ResolvedConcat(a: seq<Target>, b: seq<Target>)
    requires AllExist(a + b)
    ensures AllExist(a) && AllExist(b) && Resolved(a + b) == Resolved(a) + Resolved(b)
  {
    assert forall i :: 0 <= i < |a| ==> (a + b)[i] == a[i];
    assert forall i :: 0 <= i < |b| ==> (a + b)[|a| + i] == b[i];
  }

  lemma {:induction false} TargetsListWeight(
      wf: Workflow, rank: string -> nat, slots: Slots, outputs: seq<NodeData>, disabled: bool, bound: nat)
    requires Ranked(wf, rank) && forall c :: c in Flat(slots) ==> rank(c.node) < bound
    requires AllExist(Targets(wf, slots, outputs, disabled))
    ensures ListWeight(wf, rank, Resolved(Targets(wf, slots, outputs, disabled)))
         <= TargetsWeight(wf, rank, Flat(slots), bound)
    decreases |slots|
  {
    if slots == [] {
    } else {
      var o := |slots| - 1;
      var front := Targets(wf, slots[..o], outputs, disabled);
      var last := if Live(outputs, o, disabled)
        then SlotTargets(wf, slots[o], outputs[o], if disabled then 0 else o) else [];
      assert Targets(wf, slots, outputs, disabled) == front + last;
      ResolvedConcat(front, last);
      ListWeightConcat(wf, rank, Resolved(front), Resolved(last));
      TargetsListWeight(wf, rank, slots[..o], outputs, disabled, bound);
      TargetsWeightConcat(wf, rank, Flat(slots[..o]), slots[o], bound);
      if Live(outputs, o, disabled) {
        SlotTargetsWeight(wf, rank, slots[o], outputs[o], if disabled then 0 else o, bound);
      }
    }
  }

  lemma {:induction false} GatherPushesOnce(s: State, node: Node, slots: Slots, inputs: seq<NodeData>)
    ensures var r := Gather(s, node, slots, inputs).stack;
      r == s.stack || (|r| == |s.stack| + 1 && r[0].node == node && r[1..] == s.stack)
    decreases |slots|
  {
    if slots == [] {
    } else if slots[0] == [] {
      GatherPushesOnce(s, node, slots[1..], inputs);
    } else {
      var c := slots[0][0];
      if c.node in s.waiting && c.index < |s.waiting[c.node]| {
        GatherPushesOnce(s.(sources := AddSource(s.sources, node.name, Source(c.node, c.index))), node, slots[1..],
                         inputs + [s.waiting[c.node][c.index]]);
      }
    }
  }

  lemma AddNodeWeight(env: Env, rank: string -> nat, s: State, from: string, t: NodeToAdd)
    requires Ranked(env.workflow, rank)
    ensures StackWeight(env.workflow, rank, AddNode(env, s, from, t).stack)
         <= StackWeight(env.workflow, rank, s.stack) + Weight(env.workflow, rank, t.node.name)
  {
    GatherPushesOnce(s.(ranges := s.ranges + 1), t.node, MainInputs(env, s.ranges, t.node.name), []);
  }

  lemma {:induction false} AddNodesWeight(env: Env, rank: string -> nat, s: State, from: string, list: seq<NodeToAdd>)
    requires Ranked(env.workflow, rank)
    ensures StackWeight(env.workflow, rank, AddNodes(env, s, from, list).stack)
         <= StackWeight(env.workflow, rank, s.stack) + ListWeight(env.workflow, rank, list)
    decreases |list|
  {
    if list != [] && !s.outcome.Panicked? {
      AddNodeWeight(env, rank, s, from, list[0]);
      AddNodesWeight(env, rank, AddNode(env, s, from, list[0]), from, list[1..]);
    }
  }

  lemma AddTargetsWeight(env: Env, rank: string -> nat, s: State, name: string, outputs: seq<NodeData>, disabled: bool)
    requires Ranked(env.workflow, rank) && IsSorter(env.sort)
    ensures var targets := Targets(env.workflow, MainOutputs(env, name), outputs, disabled);
      StackWeight(env.workflow, rank, AddTargets(env, s, name, targets).stack)
         < StackWeight(env.workflow, rank, s.stack) + Weight(env.workflow, rank, name)
  {
    var wf, slots := env.workflow, MainOutputs(env, name);
    var targets := Targets(wf, slots, outputs, disabled);
    if Sortable(targets) {
      forall c | c in Flat(slots)
        ensures rank(c.node) < rank(name)
      {
        FlatMembers(slots, c);
      }
      TargetsListWeight(wf, rank, slots, outputs, disabled, rank(name));
      ListWeightPermutation(wf, rank, env.sort(Resolved(targets)), Resolved(targets));
      AddNodesWeight(env, rank, s, name, env.sort(Resolved(targets)));
    }
  }

  /** Every iteration takes at least one off the weight of the stack. */
  lemma StepLosesWeight(env: Env, rank: string -> nat, s: State)
    requires Ranked(env.workflow, rank) && IsSorter(env.sort) && !Halted(s)
    ensures StackWeight(env.workflow, rank, Step(env, s).stack) < StackWeight(env.workflow, rank, s.stack)
  {
    var entry := s.stack[0];
    var name := entry.node.name;
    if entry.node.disabled {
      AddTargetsWeight(env, rank, Pop(s), name, entry.inputs, true);
    } else {
      var task := RunNode(env, entry, s.runData);
      var ran := RecordRun(Pop(s), entry, task);
      if task.status == Success {
        AddTargetsWeight(env, rank, ran, name, task.main, false);
      }
    }
  }

  lemma NextLosesWeight(env: Env, rank: string -> nat, s: State)
    requires Ranked(env.workflow, rank) && IsSorter(env.sort)
    ensures Halted(s) ==> Next(env, s) == s
    ensures Halted(s) ||
      StackWeight(env.workflow, rank, Next(env, s).stack) < StackWeight(env.workflow, rank, s.stack)
  {
    if !Halted(s) {
      StepLosesWeight(env, rank, s);
    }
  }

  lemma StepsLoseWeight(env: Env, rank: string -> nat, s: State, n: nat)
    requires Ranked(env.workflow, rank) && IsSorter(env.sort)
    ensures Halted(Steps(env, s, n)) ||
      StackWeight(env.workflow, rank, Steps(env, s, n).stack) + n <= StackWeight(env.workflow, rank, s.stack)
  {
    var next, halted := Stepper(env), (x: State) => Halted(x);
    var weight := (x: State) => StackWeight(env.workflow, rank, x.stack);
    forall x: State
      ensures halted(x) ==> next(x) == x
      ensures !halted(x) ==> weight(next(x)) < weight(x)
    {
      NextLosesWeight(env, rank, x);
    }
    Falls(next, halted, weight, s, n);
  }

  /** The loop ends after at most StackWeight iterations, whatever nodes do and however they are wired. */
  lemma RunTerminates(env: Env, rank: string -> nat, s: State)
    requires Ranked(env.workflow, rank) && IsSorter(env.sort)
    ensures Halted(Steps(env, s, StackWeight(env.workflow, rank, s.stack)))
  {
    StepsLoseWeight(env, rank, s, StackWeight(env.workflow, rank, s.stack));
  }

  lemma AcyclicRunTerminates(env: Env, s: State) returns (n: nat)
    requires Acyclic(env.workflow) && IsSorter(env.sort)
    ensures Halted(Steps(env, s, n))
  {
    var rank: string -> nat :| Ranked(env.workflow, rank);
    RunTerminates(env, rank, s);
    n := StackWeight(env.workflow, rank, s.stack);
  }
}
