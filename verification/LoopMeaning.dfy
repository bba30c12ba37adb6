/** What the loop does in terms of the stored workflow and of what nodes return. */
module LoopMeaning {
  import opened JsonValues
  import opened Graph
  import opened Execution
  import opened Iteration
  import opened Workflows
  import opened Sequences
  import opened Termination
  import opened Traversal
  import opened RunHistory

  // ----- the connections along which a node passes data on -----

  /** The `place`-th connection of an output slot. */
  datatype Wire = Wire(output: nat, place: nat)

  predicate InSlots(slots: Slots, w: Wire) {
    w.output < |slots| && w.place < |slots[w.output]|
  }

  /** The output was produced; a disabled node hands on only what is not empty. */
  predicate HasData(outputs: seq<NodeData>, output: nat, disabled: bool) {
    output < |outputs| && outputs[output] != Nil && (disabled ==> outputs[output] != Items([]))
  }

  /** Every connection of an output that has data is listed once, and no other. */
  ghost predicate AreLive(wires: seq<Wire>, slots: Slots, outputs: seq<NodeData>, disabled: bool) {
    forall w: Wire :: multiset(wires)[w] == if InSlots(slots, w) && HasData(outputs, w.output, disabled) then 1 else 0
  }

  /** Of several nodes with one name, a connection means the last. */
  ghost predicate IsNamed(nodes: seq<Node>, name: string, i: int) {
    0 <= i < |nodes| && nodes[i].name == name && forall k :: i < k < |nodes| ==> nodes[k].name != name
  }

  ghost predicate Resolves(nodes: seq<Node>, name: string, node: Option<Node>) {
    if exists i :: IsNamed(nodes, name, i) then exists i :: IsNamed(nodes, name, i) && node == Some(nodes[i])
    else node == None
  }

  lemma {:induction false} NodeByNameMeaning(nodes: seq<Node>, name: string)
    ensures Resolves(nodes, name, NodeByName(nodes, name))
  {
    if nodes == [] {
    } else {
      var front := nodes[..|nodes| - 1];
      NodeByNameMeaning(front, name);
      if nodes[|front|].name == name {
        assert IsNamed(nodes, name, |front|);
      } else if i :| IsNamed(front, name, i) {
        assert IsNamed(nodes, name, i);
      } else if i :| IsNamed(nodes, name, i) {
        assert IsNamed(front, name, i);
      }
    }
  }

  /** The target of a connection: the named node, with the data and the number of the output. */
  ghost predicate IsTarget(
      wf: Workflow, slots: Slots, outputs: seq<NodeData>, disabled: bool, w: Wire, t: Target) {
    && InSlots(slots, w) && w.output < |outputs|
    && Resolves(wf.nodes, slots[w.output][w.place].node, t.node)
    && t.data == outputs[w.output] && t.outputIndex == if disabled then 0 else w.output
  }

  ghost predicate AreTargets(
      wf: Workflow, slots: Slots, outputs: seq<NodeData>, disabled: bool, wires: seq<Wire>, targets: seq<Target>) {
    && |wires| == |targets|
    && forall k :: 0 <= k < |wires| ==> IsTarget(wf, slots, outputs, disabled, wires[k], targets[k])
  }

  /** All connections of one slot. */
  ghost function SlotWires(output: nat, n: nat): (r: seq<Wire>)
    ensures |r| == n && forall j :: 0 <= j < n ==> r[j] == Wire(output, j)
  {
    seq(n, j requires 0 <= j < n => Wire(output, j))
  }

  lemma {:induction false} SlotWiresOnce(output: nat, n: nat, w: Wire)
    ensures multiset(SlotWires(output, n))[w] == if w.output == output && w.place < n then 1 else 0
    decreases n
  {
    if n == 0 {
    } else {
      SlotWiresOnce(output, n - 1, w);
      assert SlotWires(output, n) == SlotWires(output, n - 1) + [Wire(output, n - 1)];
    }
  }

  lemma {:induction false} TargetsMeaning(wf: Workflow, slots: Slots, outputs: seq<NodeData>, disabled: bool)
      returns (wires: seq<Wire>)
    ensures AreLive(wires, slots, outputs, disabled)
    ensures AreTargets(wf, slots, outputs, disabled, wires, Targets(wf, slots, outputs, disabled))
    decreases |slots|
  {
    if slots == [] {
      wires := [];
    } else {
      var o := |slots| - 1;
      var front := TargetsMeaning(wf, slots[..o], outputs, disabled);
      var last := if HasData(outputs, o, disabled) then SlotWires(o, |slots[o]|) else [];
      wires := front + last;
      LiveSnoc(front, slots, outputs, disabled);
      TargetsSnoc(wf, slots, outputs, disabled, front, Targets(wf, slots[..o], outputs, disabled));
    }
  }

  lemma LiveSnoc(front: seq<Wire>, slots: Slots, outputs: seq<NodeData>, disabled: bool)
    requires slots != [] && AreLive(front, slots[..|slots| - 1], outputs, disabled)
    ensures var o := |slots| - 1;
      var last := if HasData(outputs, o, disabled) then SlotWires(o, |slots[o]|) else [];
      AreLive(front + last, slots, outputs, disabled)
  {
    var o := |slots| - 1;
    forall w: Wire
      ensures InSlots(slots, w) <==> InSlots(slots[..o], w) || (w.output == o && w.place < |slots[o]|)
    {
    }
    forall w: Wire
      ensures multiset(SlotWires(o, |slots[o]|))[w] == if w.output == o && w.place < |slots[o]| then 1 else 0
    {
      SlotWiresOnce(o, |slots[o]|, w);
    }
  }

  lemma SlotTargetsAre(wf: Workflow, slots: Slots, outputs: seq<NodeData>, disabled: bool, o: nat)
    requires o < |slots| && HasData(outputs, o, disabled)
    ensures AreTargets(wf, slots, outputs, disabled, SlotWires(o, |slots[o]|),
                       SlotTargets(wf, slots[o], outputs[o], if disabled then 0 else o))
  {
    var all := SlotTargets(wf, slots[o], outputs[o], if disabled then 0 else o);
    forall j | 0 <= j < |slots[o]|
      ensures IsTarget(wf, slots, outputs, disabled, SlotWires(o, |slots[o]|)[j], all[j])
    {
      NodeByNameMeaning(wf.nodes, slots[o][j].node);
    }
  }

  lemma MoreSlots(
      wf: Workflow, slots: Slots, outputs: seq<NodeData>, disabled: bool, wires: seq<Wire>, targets: seq<Target>)
    requires slots != [] && AreTargets(wf, slots[..|slots| - 1], outputs, disabled, wires, targets)
    ensures AreTargets(wf, slots, outputs, disabled, wires, targets)
  {
    forall k | 0 <= k < |wires|
      ensures IsTarget(wf, slots, outputs, disabled, wires[k], targets[k])
    {
      assert IsTarget(wf, slots[..|slots| - 1], outputs, disabled, wires[k], targets[k]);
      assert slots[..|slots| - 1][wires[k].output] == slots[wires[k].output];
    }
  }

  lemma AreTargetsConcat(
      wf: Workflow, slots: Slots, outputs: seq<NodeData>, disabled: bool, a: seq<Wire>, b: seq<Wire>,
      ta: seq<Target>, tb: seq<Target>)
    requires AreTargets(wf, slots, outputs, disabled, a, ta) && AreTargets(wf, slots, outputs, disabled, b, tb)
    ensures AreTargets(wf, slots, outputs, disabled, a + b, ta + tb)
  {
  }

  lemma TargetsSnoc(
      wf: Workflow, slots: Slots, outputs: seq<NodeData>, disabled: bool, front: seq<Wire>, targets: seq<Target>)
    requires slots != [] && targets == Targets(wf, slots[..|slots| - 1], outputs, disabled)
    requires AreTargets(wf, slots[..|slots| - 1], outputs, disabled, front, targets)
    ensures var o := |slots| - 1;
      var last := if HasData(outputs, o, disabled) then SlotWires(o, |slots[o]|) else [];
      AreTargets(wf, slots, outputs, disabled, front + last, Targets(wf, slots, outputs, disabled))
  {
    var o := |slots| - 1;
    MoreSlots(wf, slots, outputs, disabled, front, targets);
    if HasData(outputs, o, disabled) {
      var more := SlotTargets(wf, slots[o], outputs[o], if disabled then 0 else o);
      SlotTargetsAre(wf, slots, outputs, disabled, o);
      AreTargetsConcat(wf, slots, outputs, disabled, front, SlotWires(o, |slots[o]|), targets, more);
      assert Targets(wf, slots, outputs, disabled) == targets + more;
    } else {
      assert front + [] == front && Targets(wf, slots, outputs, disabled) == targets + [];
    }
  }

  ghost predicate StandBeside<A, B>(x: A, y: B, xs: seq<A>, ys: seq<B>) {
    |xs| == |ys| && exists k :: 0 <= k < |xs| && xs[k] == x && ys[k] == y
  }

  lemma BesideWithout<A, B>(x: A, y: B, xs: seq<A>, ys: seq<B>, i: nat)
    requires i < |xs| == |ys| && StandBeside(x, y, Without(xs, i), Without(ys, i))
    ensures StandBeside(x, y, xs, ys)
  {
    var k :| 0 <= k < |xs| - 1 && Without(xs, i)[k] == x && Without(ys, i)[k] == y;
    var k' := if k < i then k else k + 1;
    assert xs[k'] == x && ys[k'] == y;
  }

  /** Rearranging one list rearranges a list beside it. */
  lemma {:induction false} Rearranged<A, B>(a: seq<A>, b: seq<A>, beside: seq<B>) returns (r: seq<B>)
    requires multiset(a) == multiset(b) && |beside| == |b|
    ensures |r| == |a| && multiset(r) == multiset(beside)
    ensures forall i :: 0 <= i < |a| ==> StandBeside(a[i], r[i], b, beside)
    decreases |a|
  {
    if a == [] {
      EmptyPermutation(b);
      r := [];
    } else {
      var i := RemoveFirst(a, b);
      var rest := Rearranged(a[1..], Without(b, i), Without(beside, i));
      r := [beside[i]] + rest;
      MultisetWithout(beside, i);
      forall m | 0 <= m < |a|
        ensures StandBeside(a[m], r[m], b, beside)
      {
        if m > 0 {
          assert a[m] == a[1..][m - 1] && r[m] == rest[m - 1];
          BesideWithout(a[m], r[m], b, beside, i);
        }
      }
    }
  }

  // ----- one iteration -----

  ghost predicate Produces(category: Category, result: NodeResult, main: seq<NodeData>) {
    match category
    case TriggerCategory => main == [result.triggerData]
    case ExecutorCategory => main == result.executorData
    case OtherCategory => main == []
  }

  /** The task holds what the node returned: its status, its outputs and its first error. */
  ghost predicate IsTaskOf(category: Category, result: NodeResult, task: TaskData) {
    && task.status == result.status && Produces(category, result, task.main)
    && (if result.errors == [] then task.error == None else task.error == Some(result.errors[0]))
  }

  ghost predicate IsTask(env: Env, entry: StackEntry, runData: RunData, task: TaskData) {
    IsTaskOf(env.category(entry.node.typ), env.behave(entry.node, entry.inputs, runData), task)
  }

  /** What the front entry passes on: a disabled node its inputs, an enabled one that succeeds its outputs. */
  ghost predicate PassesOn(env: Env, s: State, outputs: seq<NodeData>)
    requires !Halted(s)
  {
    var entry := s.stack[0];
    if entry.node.disabled then outputs == entry.inputs
    else exists task :: IsTask(env, entry, s.runData, task) && task.status == Success && outputs == task.main
  }

  lemma PassesOnMain(env: Env, s: State, outputs: seq<NodeData>)
    requires !Halted(s) && PassesOn(env, s, outputs) && !s.stack[0].node.disabled
    ensures var task := RunNode(env, s.stack[0], s.runData); task.status == Success && task.main == outputs
  {
    var task :| IsTask(env, s.stack[0], s.runData, task) && task.status == Success && outputs == task.main;
    assert RunNode(env, s.stack[0], s.runData) == task;
  }

  /** The entry that a connection puts on the stack. */
  ghost predicate IsEntry(wf: Workflow, slots: Slots, outputs: seq<NodeData>, w: Wire, e: StackEntry) {
    && InSlots(slots, w) && w.output < |outputs|
    && (exists i :: IsNamed(wf.nodes, slots[w.output][w.place].node, i) && e.node == wf.nodes[i])
    && e.inputs == [outputs[w.output]]
  }

  /** On the canvas, `a` is higher than `b`, or on its row and not to the right of it. */
  predicate ReadsBefore(a: seq<int>, b: seq<int>) {
    |a| >= 2 && |b| >= 2 && (a[1] < b[1] || (a[1] == b[1] && a[0] <= b[0]))
  }

  /** One entry per wire, in the order of the wires, then what was pending. */
  ghost predicate ArePushed(
      wf: Workflow, slots: Slots, outputs: seq<NodeData>, wires: seq<Wire>, before: seq<StackEntry>,
      after: seq<StackEntry>) {
    && |after| == |wires| + |before| && after[|wires|..] == before
    && (forall k :: 0 <= k < |wires| ==> IsEntry(wf, slots, outputs, wires[k], after[k]))
    && (forall a, b :: 0 <= a < b < |wires| ==> ReadsBefore(after[a].node.position, after[b].node.position))
  }

  /** The noted source of a pushed node is the output that put its topmost entry there; all others stay. */
  ghost predicate AreNoted(
      from: string, disabled: bool, wires: seq<Wire>, stack: seq<StackEntry>, before: map<string, seq<Source>>,
      after: map<string, seq<Source>>)
    requires |wires| <= |stack|
  {
    && (forall name, k :: IsTopmost(stack, |wires|, name, k) ==>
          name in after && after[name] == [Source(from, if disabled then 0 else wires[k].output)])
    && (forall name :: (forall k :: 0 <= k < |wires| ==> stack[k].node.name != name) ==>
          SameNote(before, after, name))
  }

  ghost predicate SameNote(before: map<string, seq<Source>>, after: map<string, seq<Source>>, name: string) {
    (name in after <==> name in before) && (name in before ==> after[name] == before[name])
  }

  ghost predicate IsTopmost(stack: seq<StackEntry>, n: nat, name: string, k: int)
    requires n <= |stack|
  {
    0 <= k < n && stack[k].node.name == name && forall m :: 0 <= m < k ==> stack[m].node.name != name
  }

  /**
   One iteration over a graph of single-input nodes: the main connections of the popped node whose output has
   data put one entry each on the stack, the named node with that output, in reading order.
   */
  lemma StepPushes(env: Env, s: State, outputs: seq<NodeData>) returns (wires: seq<Wire>)
    requires ValidEnv(env) && SingleInput(env.workflow) && !Halted(s) && PassesOn(env, s, outputs)
    ensures var entry, g := s.stack[0], env.workflow.connections;
            var name := entry.node.name;
            var slots := if name in g && "main" in g[name] then g[name]["main"] else [];
            var r := Step(env, s);
      && r.outcome.Running?
      && AreLive(wires, slots, outputs, entry.node.disabled)
      && ArePushed(env.workflow, slots, outputs, wires, s.stack[1..], r.stack)
      && AreNoted(entry.node.name, entry.node.disabled, wires, r.stack, s.sources, r.sources)
  {
    var entry := s.stack[0];
    var task := RunNode(env, entry, s.runData);
    if entry.node.disabled {
      wires := AddTargetsMeaning(env, Pop(s), entry.node.name, outputs, true);
    } else {
      PassesOnMain(env, s, outputs);
      wires := AddTargetsMeaning(env, RecordRun(Pop(s), entry, task), entry.node.name, outputs, false);
    }
  }

  lemma AddTargetsMeaning(env: Env, s: State, name: string, outputs: seq<NodeData>, disabled: bool)
      returns (wires: seq<Wire>)
    requires ValidEnv(env) && SingleInput(env.workflow) && s.outcome.Running?
    ensures var slots := MainOutputs(env, name);
            var r := AddTargets(env, s, name, Targets(env.workflow, slots, outputs, disabled));
      && r.outcome.Running?
      && AreLive(wires, slots, outputs, disabled)
      && ArePushed(env.workflow, slots, outputs, wires, s.stack, r.stack)
      && AreNoted(name, disabled, wires, r.stack, s.sources, r.sources)
  {
    var slots := MainOutputs(env, name);
    var targets := Targets(env.workflow, slots, outputs, disabled);
    TargetsSortable(env, name, outputs, disabled);
    ListedAreSingle(env, name, outputs, disabled);
    var list := env.sort(Resolved(targets));
    wires := ListedWires(env, slots, outputs, disabled, targets);
    var r := AddNodes(env, s, name, list);
    AddNodesPushesAll(env, s, name, list);
    AddNodesNotes(env, s, name, list, r);
    PushedInOrder(env.workflow, slots, outputs, disabled, s.stack, r.stack, list, wires);
    NotedInOrder(env.workflow, slots, outputs, disabled, name, list, wires, r.stack, s.sources, r.sources);
  }

  /** What a wire lists for scheduling. */
  ghost predicate IsListed(
      wf: Workflow, slots: Slots, outputs: seq<NodeData>, disabled: bool, w: Wire, t: NodeToAdd) {
    && IsEntry(wf, slots, outputs, w, StackEntry(t.node, [t.data]))
    && t.outputIndex == if disabled then 0 else w.output
  }

  /** The wires are those of the listed nodes, last first. */
  ghost predicate AreListed(
      wf: Workflow, slots: Slots, outputs: seq<NodeData>, disabled: bool, wires: seq<Wire>, list: seq<NodeToAdd>) {
    |wires| == |list| && forall i :: 0 <= i < |list| ==>
      IsListed(wf, slots, outputs, disabled, wires[|list| - 1 - i], list[i])
  }

  lemma ListedWires(env: Env, slots: Slots, outputs: seq<NodeData>, disabled: bool, targets: seq<Target>)
      returns (wires: seq<Wire>)
    requires IsSorter(env.sort) && targets == Targets(env.workflow, slots, outputs, disabled) && Sortable(targets)
    ensures AreLive(wires, slots, outputs, disabled)
    ensures AreListed(env.workflow, slots, outputs, disabled, wires, env.sort(Resolved(targets)))
    ensures InReadingOrder(env.sort(Resolved(targets)))
  {
    var list := env.sort(Resolved(targets));
    SortedMembers(env, Resolved(targets));
    var inOrder := TargetsMeaning(env.workflow, slots, outputs, disabled);
    var sorted := Rearranged(list, Resolved(targets), inOrder);
    wires := Reverse(sorted);
    ReversePermutation(sorted);
    ListedInSameOrder(env.workflow, slots, outputs, disabled, targets, inOrder, list, sorted);
    SortedInReadingOrder(env, targets);
  }

  lemma ListedInSameOrder(
      wf: Workflow, slots: Slots, outputs: seq<NodeData>, disabled: bool, targets: seq<Target>, inOrder: seq<Wire>,
      list: seq<NodeToAdd>, sorted: seq<Wire>)
    requires AllExist(targets) && AreTargets(wf, slots, outputs, disabled, inOrder, targets) && |list| == |sorted|
    requires forall i :: 0 <= i < |list| ==> StandBeside(list[i], sorted[i], Resolved(targets), inOrder)
    ensures AreListed(wf, slots, outputs, disabled, Reverse(sorted), list)
  {
    forall i | 0 <= i < |list|
      ensures IsListed(wf, slots, outputs, disabled, sorted[i], list[i])
    {
      assert StandBeside(list[i], sorted[i], Resolved(targets), inOrder);
      var k :| 0 <= k < |inOrder| && Resolved(targets)[k] == list[i] && inOrder[k] == sorted[i];
      TargetListed(wf, slots, outputs, disabled, inOrder[k], targets[k]);
    }
  }

  lemma TargetListed(wf: Workflow, slots: Slots, outputs: seq<NodeData>, disabled: bool, w: Wire, t: Target)
    requires IsTarget(wf, slots, outputs, disabled, w, t) && t.node.Some?
    ensures IsListed(wf, slots, outputs, disabled, w, NodeToAdd(t.node.value, t.data, t.outputIndex))
  {
    assert Resolves(wf.nodes, slots[w.output][w.place].node, t.node);
  }

  /** The list to schedule, backwards. */
  ghost predicate InReadingOrder(list: seq<NodeToAdd>) {
    forall a, b :: 0 <= a < b < |list| ==> ReadsBefore(list[b].node.position, list[a].node.position)
  }

  lemma SortedInReadingOrder(env: Env, targets: seq<Target>)
    requires IsSorter(env.sort) && Sortable(targets)
    ensures InReadingOrder(env.sort(Resolved(targets)))
  {
    var list := env.sort(Resolved(targets));
    SortedMembers(env, Resolved(targets));
    forall i | 0 <= i < |list| && |list| >= 2
      ensures HasPosition(list[i].node)
    {
      assert list[i] in list;
    }
    assert BottomRightFirst(list);
    forall a, b | 0 <= a < b < |list|
      ensures ReadsBefore(list[b].node.position, list[a].node.position)
    {
      assert NotBefore(list[a].node, list[b].node);
    }
  }

  lemma PushedInOrder(
      wf: Workflow, slots: Slots, outputs: seq<NodeData>, disabled: bool, before: seq<StackEntry>,
      after: seq<StackEntry>, list: seq<NodeToAdd>, wires: seq<Wire>)
    requires AreListed(wf, slots, outputs, disabled, wires, list) && InReadingOrder(list)
    requires after == Reverse(Entries(list)) + before
    ensures ArePushed(wf, slots, outputs, wires, before, after)
  {
    forall k | 0 <= k < |wires|
      ensures IsEntry(wf, slots, outputs, wires[k], after[k])
    {
      var i := |list| - 1 - k;
      assert IsListed(wf, slots, outputs, disabled, wires[|list| - 1 - i], list[i]);
      assert after[k] == StackEntry(list[i].node, [list[i].data]);
    }
    forall a, b | 0 <= a < b < |wires|
      ensures ReadsBefore(after[a].node.position, after[b].node.position)
    {
      assert after[a].node == list[|list| - 1 - a].node && after[b].node == list[|list| - 1 - b].node;
    }
  }

  // ----- when the loop panics before anything is scheduled -----

  ghost predicate LeadsTo(wf: Workflow, slots: Slots, w: Wire, i: int) {
    InSlots(slots, w) && IsNamed(wf.nodes, slots[w.output][w.place].node, i)
  }

  ghost predicate LeadsNowhere(wf: Workflow, slots: Slots, w: Wire) {
    forall i :: !LeadsTo(wf, slots, w, i)
  }

  /** The node at the end has fewer than two coordinates. */
  ghost predicate LeadsOffCanvas(wf: Workflow, slots: Slots, w: Wire) {
    exists i :: LeadsTo(wf, slots, w, i) && |wf.nodes[i].position| < 2
  }

  /** A connection leads nowhere, or there are positions to compare and one is missing. */
  ghost predicate CannotBeSorted(wf: Workflow, slots: Slots, wires: seq<Wire>) {
    || (exists k :: 0 <= k < |wires| && LeadsNowhere(wf, slots, wires[k]))
    || (|wires| >= 2 && exists k :: 0 <= k < |wires| && LeadsOffCanvas(wf, slots, wires[k]))
  }

  lemma TargetNode(wf: Workflow, slots: Slots, outputs: seq<NodeData>, disabled: bool, w: Wire, t: Target)
    requires IsTarget(wf, slots, outputs, disabled, w, t)
    ensures t.node == None <==> LeadsNowhere(wf, slots, w)
    ensures forall i :: LeadsTo(wf, slots, w, i) ==> t.node == Some(wf.nodes[i])
    ensures t.node != None ==> (HasPosition(t.node.value) <==> !LeadsOffCanvas(wf, slots, w))
  {
    var name := slots[w.output][w.place].node;
    forall i
      ensures LeadsTo(wf, slots, w, i) <==> IsNamed(wf.nodes, name, i)
    {
    }
    forall i, j | IsNamed(wf.nodes, name, i) && IsNamed(wf.nodes, name, j)
      ensures i == j
    {
    }
  }

  lemma SortableMeaning(
      wf: Workflow, slots: Slots, outputs: seq<NodeData>, disabled: bool, wires: seq<Wire>, targets: seq<Target>)
    requires AreTargets(wf, slots, outputs, disabled, wires, targets)
    ensures Sortable(targets) <==> !CannotBeSorted(wf, slots, wires)
  {
    forall k | 0 <= k < |wires|
      ensures targets[k].node == None <==> LeadsNowhere(wf, slots, wires[k])
      ensures targets[k].node != None ==>
                (HasPosition(targets[k].node.value) <==> !LeadsOffCanvas(wf, slots, wires[k]))
    {
      TargetNode(wf, slots, outputs, disabled, wires[k], targets[k]);
    }
  }

  /** Every node that a wire leads to has exactly one main input slot. */
  ghost predicate LeadToSingle(env: Env, slots: Slots, wires: seq<Wire>) {
    forall k, i, range: nat :: 0 <= k < |wires| && LeadsTo(env.workflow, slots, wires[k], i) ==>
      |MainInputs(env, range, env.workflow.nodes[i].name)| == 1
  }

  /** An iteration panics, with nothing scheduled, when the targets cannot be sorted, and otherwise not before. */
  lemma StepPanics(env: Env, s: State, outputs: seq<NodeData>) returns (wires: seq<Wire>)
    requires IsSorter(env.sort) && !Halted(s) && PassesOn(env, s, outputs)
    ensures var entry, g := s.stack[0], env.workflow.connections;
            var name := entry.node.name;
            var slots := if name in g && "main" in g[name] then g[name]["main"] else [];
            var r := Step(env, s);
      && AreLive(wires, slots, outputs, entry.node.disabled)
      && (CannotBeSorted(env.workflow, slots, wires) ==>
            r.outcome == Panicked && r.stack == s.stack[1..] && r.sources == s.sources)
      && (!CannotBeSorted(env.workflow, slots, wires) && LeadToSingle(env, slots, wires) ==>
            r.outcome == Running && |r.stack| == |wires| + |s.stack| - 1)
  {
    var entry := s.stack[0];
    if entry.node.disabled {
      wires := AddTargetsPanics(env, Pop(s), entry.node.name, outputs, true);
    } else {
      PassesOnMain(env, s, outputs);
      var ran := RecordRun(Pop(s), entry, RunNode(env, entry, s.runData));
      wires := AddTargetsPanics(env, ran, entry.node.name, outputs, false);
    }
  }

  lemma AddTargetsPanics(env: Env, s: State, name: string, outputs: seq<NodeData>, disabled: bool)
      returns (wires: seq<Wire>)
    requires IsSorter(env.sort) && s.outcome.Running?
    ensures var slots := MainOutputs(env, name);
            var r := AddTargets(env, s, name, Targets(env.workflow, slots, outputs, disabled));
      && AreLive(wires, slots, outputs, disabled)
      && (CannotBeSorted(env.workflow, slots, wires) ==>
            r.outcome == Panicked && r.stack == s.stack && r.sources == s.sources)
      && (!CannotBeSorted(env.workflow, slots, wires) && LeadToSingle(env, slots, wires) ==>
            r.outcome == Running && |r.stack| == |wires| + |s.stack|)
  {
    var slots := MainOutputs(env, name);
    var targets := Targets(env.workflow, slots, outputs, disabled);
    wires := TargetsMeaning(env.workflow, slots, outputs, disabled);
    SortableMeaning(env.workflow, slots, outputs, disabled, wires, targets);
    if Sortable(targets) && LeadToSingle(env, slots, wires) {
      var list := env.sort(Resolved(targets));
      SortedMembers(env, Resolved(targets));
      SingleTargets(env, slots, outputs, disabled, wires, targets);
      AddNodesPushesAll(env, s, name, list);
    }
  }

  lemma SingleTargets(
      env: Env, slots: Slots, outputs: seq<NodeData>, disabled: bool, wires: seq<Wire>, targets: seq<Target>)
    requires IsSorter(env.sort) && Sortable(targets)
    requires AreTargets(env.workflow, slots, outputs, disabled, wires, targets) && LeadToSingle(env, slots, wires)
    ensures AllSingle(env, env.sort(Resolved(targets)))
  {
    var list := env.sort(Resolved(targets));
    SortedMembers(env, Resolved(targets));
    forall range: nat, m | 0 <= m < |list|
      ensures |MainInputs(env, range, list[m].node.name)| == 1
    {
      assert list[m] in list;
      var k :| 0 <= k < |targets| && Resolved(targets)[k] == list[m];
      TargetNode(env.workflow, slots, outputs, disabled, wires[k], targets[k]);
      assert !LeadsNowhere(env.workflow, slots, wires[k]);
      var i :| LeadsTo(env.workflow, slots, wires[k], i);
    }
  }

  // ----- noted sources -----

  /** The last of the listed nodes with this name decides its noted source. */
  ghost predicate IsLastNamed(list: seq<NodeToAdd>, name: string, i: int) {
    0 <= i < |list| && list[i].node.name == name && forall k :: i < k < |list| ==> list[k].node.name != name
  }

  ghost predicate AreNotes(
      from: string, list: seq<NodeToAdd>, before: map<string, seq<Source>>, after: map<string, seq<Source>>) {
    && (forall name, i :: IsLastNamed(list, name, i) ==>
          name in after && after[name] == [Source(from, list[i].outputIndex)])
    && (forall name :: (forall i :: 0 <= i < |list| ==> list[i].node.name != name) ==> SameNote(before, after, name))
  }

  lemma {:induction false} AddNodesNotes(env: Env, s: State, from: string, list: seq<NodeToAdd>, r: State)
    requires s.outcome.Running? && AllSingle(env, list) && r == AddNodes(env, s, from, list)
    ensures AreNotes(from, list, s.sources, r.sources)
    decreases |list|
  {
    if list == [] {
    } else {
      var s' := AddNode(env, s, from, list[0]);
      assert s'.sources == s.sources[list[0].node.name := [Source(from, list[0].outputIndex)]];
      AddNodesNotes(env, s', from, list[1..], r);
      NotesCons(from, list, s.sources, s'.sources, r.sources);
    }
  }

  lemma NotesCons(
      from: string, list: seq<NodeToAdd>, before: map<string, seq<Source>>, middle: map<string, seq<Source>>,
      after: map<string, seq<Source>>)
    requires list != [] && middle == before[list[0].node.name := [Source(from, list[0].outputIndex)]]
    requires AreNotes(from, list[1..], middle, after)
    ensures AreNotes(from, list, before, after)
  {
    var rest := list[1..];
    assert forall k :: 0 < k < |list| ==> list[k] == rest[k - 1];
    forall name, i | IsLastNamed(list, name, i)
      ensures name in after && after[name] == [Source(from, list[i].outputIndex)]
    {
      if i > 0 {
        assert IsLastNamed(rest, name, i - 1);
      } else {
        assert SameNote(middle, after, name);
      }
    }
    forall name | forall i :: 0 <= i < |list| ==> list[i].node.name != name
      ensures SameNote(before, after, name)
    {
      assert SameNote(middle, after, name);
    }
  }

  lemma NotedInOrder(
      wf: Workflow, slots: Slots, outputs: seq<NodeData>, disabled: bool, from: string, list: seq<NodeToAdd>,
      wires: seq<Wire>, stack: seq<StackEntry>, before: map<string, seq<Source>>, after: map<string, seq<Source>>)
    requires AreListed(wf, slots, outputs, disabled, wires, list) && AreNotes(from, list, before, after)
    requires |list| <= |stack| && stack[..|list|] == Reverse(Entries(list))
    ensures AreNoted(from, disabled, wires, stack, before, after)
  {
    forall k | 0 <= k < |list|
      ensures stack[k].node == list[|list| - 1 - k].node
    {
      assert stack[k] == stack[..|list|][k];
    }
    forall name, k | IsTopmost(stack, |wires|, name, k)
      ensures name in after && after[name] == [Source(from, if disabled then 0 else wires[k].output)]
    {
      var i := |list| - 1 - k;
      TopmostIsLast(list, stack, name, k);
      assert IsListed(wf, slots, outputs, disabled, wires[|list| - 1 - i], list[i]);
    }
    forall name | forall k :: 0 <= k < |wires| ==> stack[k].node.name != name
      ensures SameNote(before, after, name)
    {
      forall i | 0 <= i < |list|
        ensures list[i].node.name != name
      {
        assert stack[|list| - 1 - i].node == list[i].node;
      }
    }
  }

  lemma TopmostIsLast(list: seq<NodeToAdd>, stack: seq<StackEntry>, name: string, k: int)
    requires |list| <= |stack| && forall m :: 0 <= m < |list| ==> stack[m].node == list[|list| - 1 - m].node
    requires IsTopmost(stack, |list|, name, k)
    ensures IsLastNamed(list, name, |list| - 1 - k)
  {
    forall m | |list| - 1 - k < m < |list|
      ensures list[m].node.name != name
    {
      assert stack[|list| - 1 - m].node == list[m].node;
    }
  }

  // ----- what an iteration records -----

  /** An executed node: its task is recorded everywhere, and a task that is no success ends the loop. */
  lemma StepRecords(env: Env, s: State, task: TaskData)
    requires !Halted(s) && !s.stack[0].node.disabled && IsTask(env, s.stack[0], s.runData, task)
    ensures var entry, r := s.stack[0], Step(env, s);
            var name := entry.node.name;
      && r.trace == s.trace + [TraceStep(entry.node, entry.inputs, task)]
      && r.waiting == s.waiting[name := task.main]
      && r.runData == s.runData[name := if name in s.runData then s.runData[name] + [task] else [task]]
      && r.error == (if task.error == None then s.error else task.error.value) && r.last == name
      && r.saved.stack == s.stack[1..] && r.saved.waiting == r.waiting && r.saved.sources == s.sources
      && r.saved.error == s.saved.error && r.saved.last == name
      && r.saved.runData == s.saved.runData[name := if name in s.saved.runData then s.saved.runData[name] + [task]
                                                    else [task]]
      && (r.outcome == Stopped <==> task.status != Success)
      && (task.status != Success ==> r.stack == s.stack[1..] && r.sources == s.sources)
  {
    var entry := s.stack[0];
    var name := entry.node.name;
    assert RunNode(env, entry, s.runData) == task;
    var ran := RecordRun(Pop(s), entry, task);
    AddTargetsHistory(env, ran, name, Targets(env.workflow, MainOutputs(env, name), task.main, false));
    assert [] + [task] == [task];
  }

  /** A disabled node leaves no trace. */
  lemma StepSkips(env: Env, s: State)
    requires !Halted(s) && s.stack[0].node.disabled
    ensures var r := Step(env, s);
      && r.trace == s.trace && r.waiting == s.waiting && r.runData == s.runData && r.error == s.error
      && r.last == s.last && r.saved == s.saved && r.outcome != Stopped
  {
    var entry := s.stack[0];
    AddTargetsHistory(env, Pop(s), entry.node.name,
                      Targets(env.workflow, MainOutputs(env, entry.node.name), entry.inputs, true));
  }

  // ----- whole runs -----

  /** What was recorded is what the node returned when it was run on what had been recorded before. */
  ghost predicate IsGenuine(env: Env, trace: seq<TraceStep>, k: int)
    requires 0 <= k < |trace|
  {
    IsTask(env, StackEntry(trace[k].node, trace[k].inputs), RunDataOf(trace[..k]), trace[k].task)
  }

  ghost predicate AreGenuine(env: Env, trace: seq<TraceStep>) {
    forall k :: 0 <= k < |trace| ==> IsGenuine(env, trace, k)
  }

  /** The last error that a node of the trace returned, or none at all. */
  ghost predicate IsLastError(trace: seq<TraceStep>, error: string) {
    if forall k :: 0 <= k < |trace| ==> trace[k].task.error == None then error == ""
    else exists k :: IsLastErrorAt(trace, error, k)
  }

  ghost predicate IsLastErrorAt(trace: seq<TraceStep>, error: string, k: int) {
    && 0 <= k < |trace| && trace[k].task.error == Some(error)
    && forall m :: k < m < |trace| ==> trace[m].task.error == None
  }

  lemma GenuineSnoc(env: Env, trace: seq<TraceStep>, last: TraceStep)
    requires AreGenuine(env, trace)
    requires IsTask(env, StackEntry(last.node, last.inputs), RunDataOf(trace), last.task)
    ensures AreGenuine(env, trace + [last])
  {
    var all := trace + [last];
    assert all[..|trace|] == trace;
    forall k | 0 <= k < |all|
      ensures IsGenuine(env, all, k)
    {
      if k < |trace| {
        assert IsGenuine(env, trace, k) && all[..k] == trace[..k];
      }
    }
  }

  lemma LastErrorSnoc(trace: seq<TraceStep>, error: string, last: TraceStep)
    requires IsLastError(trace, error)
    ensures IsLastError(trace + [last], if last.task.error == None then error else last.task.error.value)
  {
    var all := trace + [last];
    if last.task.error != None {
      assert all[|trace|] == last && IsLastErrorAt(all, last.task.error.value, |trace|);
    } else if k :| IsLastErrorAt(trace, error, k) {
      assert all[k] == trace[k] && IsLastErrorAt(all, error, k);
    } else {
      assert forall k :: 0 <= k < |all| ==> all[k] == if k < |trace| then trace[k] else last;
    }
  }

  /** In every state of a fresh run the trace is genuine, and the error is the last one in it. */
  lemma {:induction false} RunIsGenuine(env: Env, startNode: Option<Node>, n: nat)
    ensures var s := Steps(env, Fresh(env.workflow, startNode), n);
      AreGenuine(env, s.trace) && IsLastError(s.trace, s.error)
    decreases n
  {
    if n == 0 {
    } else {
      RunIsGenuine(env, startNode, n - 1);
      FreshRunHistory(env, startNode, n - 1);
      NextIsGenuine(env, Steps(env, Fresh(env.workflow, startNode), n - 1));
    }
  }

  lemma NextIsGenuine(env: Env, s: State)
    requires HistoryInv(s) && AreGenuine(env, s.trace) && IsLastError(s.trace, s.error)
    ensures AreGenuine(env, Next(env, s).trace) && IsLastError(Next(env, s).trace, Next(env, s).error)
  {
    if Halted(s) {
    } else if s.stack[0].node.disabled {
      StepSkips(env, s);
    } else {
      var entry := s.stack[0];
      var task := RunNode(env, entry, s.runData);
      StepRecords(env, s, task);
      GenuineSnoc(env, s.trace, TraceStep(entry.node, entry.inputs, task));
      LastErrorSnoc(s.trace, s.error, TraceStep(entry.node, entry.inputs, task));
    }
  }

  /** What is stored once a fresh run has ended: all records, its error, and after a failure what was pending. */
  lemma StoredMeaning(env: Env, startNode: Option<Node>, n: nat)
    ensures var s := Steps(env, Fresh(env.workflow, startNode), n);
            var stored := StoredAfterRun(s);
      && stored.runData == s.runData && stored.waiting == s.waiting && stored.last == s.last && stored.error == s.error
      && (s.outcome == Stopped ==> stored.stack == s.stack && stored.sources == s.sources)
  {
    FreshRunHistory(env, startNode, n);
  }

  // ----- where a run starts -----

  /** The same letters, where the word may be written in capitals. */
  predicate SameLetters(part: string, word: string) {
    && |part| == |word|
    && forall i :: 0 <= i < |word| ==>
         part[i] == word[i] || ('A' <= part[i] <= 'Z' && part[i] as int + 32 == word[i] as int)
  }

  ghost predicate Mentions(typ: string, word: string) {
    exists front, part, back :: Surrounds(typ, front, part, back) && SameLetters(part, word)
  }

  predicate NoCapitals(word: string) {
    forall i :: 0 <= i < |word| ==> !('A' <= word[i] <= 'Z')
  }

  lemma LowerSameLetters(part: string, word: string)
    requires NoCapitals(word)
    ensures Lower(part) == word <==> SameLetters(part, word)
  {
    if Lower(part) == word {
      assert forall i :: 0 <= i < |word| ==> word[i] == Lower(part)[i];
    }
  }

  lemma LowerConcat(a: string, b: string, c: string)
    ensures Lower(a + b + c) == Lower(a) + Lower(b) + Lower(c)
  {
  }

  lemma LowerMentions(typ: string, word: string)
    requires NoCapitals(word)
    ensures Contains(Lower(typ), word) <==> Mentions(typ, word)
  {
    ContainsMeaning(Lower(typ), word);
    if front, back :| Surrounds(Lower(typ), front, word, back) {
      MentionsHere(typ, word, front, back);
    }
    if front, part, back :| Surrounds(typ, front, part, back) && SameLetters(part, word) {
      LowerConcat(front, part, back);
      LowerSameLetters(part, word);
      assert Surrounds(Lower(typ), Lower(front), word, Lower(back));
    }
  }

  lemma MentionsHere(typ: string, word: string, front: string, back: string)
    requires NoCapitals(word) && Surrounds(Lower(typ), front, word, back)
    ensures Mentions(typ, word)
  {
    var n, m := |front|, |front| + |word|;
    var part := typ[n..m];
    assert typ == typ[..n] + part + typ[m..];
    forall i | 0 <= i < |word|
      ensures Lower(part)[i] == word[i]
    {
      assert Lower(typ)[n + i] == word[i] && part[i] == typ[n + i];
    }
    assert Lower(part) == word;
    LowerSameLetters(part, word);
    assert Surrounds(typ, typ[..n], part, typ[m..]);
  }

  /** Enabled, and of a type that mentions one of the three words. */
  ghost predicate Starts(node: Node) {
    !node.disabled && (Mentions(node.typ, "manual") || Mentions(node.typ, "webhook") || Mentions(node.typ, "trigger"))
  }

  lemma StartsMeaning(node: Node)
    ensures Starts(node) <==> !node.disabled && IsStartType(node.typ)
  {
    LowerMentions(node.typ, "manual");
    LowerMentions(node.typ, "webhook");
    LowerMentions(node.typ, "trigger");
  }

  /** The ascending positions of exactly the nodes that start a run. */
  ghost predicate AreStarts(nodes: seq<Node>, at: seq<nat>) {
    Ascends(at, |nodes|) && forall i: nat :: i in at <==> i < |nodes| && Starts(nodes[i])
  }

  lemma {:induction false} StartNodesMeaning(nodes: seq<Node>) returns (at: seq<nat>)
    ensures AreStarts(nodes, at) && AreAt(nodes, at, StartNodes(nodes))
  {
    if nodes == [] {
      at := [];
    } else {
      var n := |nodes| - 1;
      var front := StartNodesMeaning(nodes[..n]);
      StartsMeaning(nodes[n]);
      at := if Starts(nodes[n]) then front + [n] else front;
      StartsSnoc(nodes, front);
    }
  }

  ghost predicate AreAt(nodes: seq<Node>, at: seq<nat>, listed: seq<Node>) {
    |listed| == |at| && forall k :: 0 <= k < |at| ==> at[k] < |nodes| && listed[k] == nodes[at[k]]
  }

  lemma StartsSnoc(nodes: seq<Node>, front: seq<nat>)
    requires nodes != [] && AreStarts(nodes[..|nodes| - 1], front)
    ensures var n := |nodes| - 1; AreStarts(nodes, if Starts(nodes[n]) then front + [n] else front)
  {
    var n := |nodes| - 1;
    assert forall k :: 0 <= k < |front| ==> front[k] in front;
    forall i: nat
      ensures i in front + [n] <==> i in front || i == n
    {
    }
  }

  /** A run starts with the given node alone, or with the nodes that start a run, in the order of the workflow. */
  lemma FreshMeaning(wf: Workflow, startNode: Option<Node>) returns (at: seq<nat>)
    ensures AreStarts(wf.nodes, at)
    ensures var s := Fresh(wf, startNode);
      && s.waiting == map[] && s.sources == map[] && s.runData == map[] && s.trace == []
      && s.error == "" && s.last == "" && s.outcome == Running
      && (startNode != None ==> s.stack == [StackEntry(startNode.value, [])])
      && (startNode == None ==>
            |s.stack| == |at| && forall k :: 0 <= k < |at| ==>
                               at[k] < |wf.nodes| && s.stack[k] == StackEntry(wf.nodes[at[k]], []))
  {
    at := StartNodesMeaning(wf.nodes);
  }

  // ----- nodes with several wired inputs -----

  ghost function SourcesOf(firsts: seq<Connection>): (r: seq<Source>)
    ensures |r| == |firsts| && forall i :: 0 <= i < |firsts| ==> r[i] == Source(firsts[i].node, firsts[i].index)
  {
    seq(|firsts|, i requires 0 <= i < |firsts| => Source(firsts[i].node, firsts[i].index))
  }

  /** The sources before the first one without data are added to what was noted for the node. */
  ghost predicate AreGathered(
      waiting: map<string, seq<NodeData>>, firsts: seq<Connection>, name: string, m: int,
      before: map<string, seq<Source>>, after: map<string, seq<Source>>) {
    && 0 <= m <= |firsts|
    && (forall k :: 0 <= k < m ==> IsAvailable(waiting, firsts[k]))
    && (m < |firsts| ==> !IsAvailable(waiting, firsts[m]))
    && after == (if m == 0 then before
                 else before[name := (if name in before then before[name] else []) + SourcesOf(firsts[..m])])
  }

  lemma {:induction false} GatherNotes(s: State, node: Node, slots: Slots, inputs: seq<NodeData>, r: State)
      returns (m: nat)
    requires r == Gather(s, node, slots, inputs)
    ensures AreGathered(s.waiting, FirstSources(slots), node.name, m, s.sources, r.sources)
    decreases |slots|
  {
    if slots == [] {
      m := 0;
    } else if slots[0] == [] {
      m := GatherNotes(s, node, slots[1..], inputs, r);
      assert FirstSources(slots) == FirstSources(slots[1..]);
    } else {
      var c := slots[0][0];
      assert FirstSources(slots) == [c] + FirstSources(slots[1..]);
      if IsAvailable(s.waiting, c) {
        var s' := s.(sources := AddSource(s.sources, node.name, Source(c.node, c.index)));
        var k := GatherNotes(s', node, slots[1..], inputs + [s.waiting[c.node][c.index]], r);
        m := k + 1;
        GatheredCons(s.waiting, c, FirstSources(slots[1..]), node.name, k, s.sources, s'.sources, r.sources);
      } else {
        m := 0;
      }
    }
  }

  lemma GatheredCons(
      waiting: map<string, seq<NodeData>>, c: Connection, rest: seq<Connection>, name: string, k: nat,
      before: map<string, seq<Source>>, middle: map<string, seq<Source>>, after: map<string, seq<Source>>)
    requires IsAvailable(waiting, c) && AreGathered(waiting, rest, name, k, middle, after)
    requires middle == AddSource(before, name, Source(c.node, c.index))
    ensures AreGathered(waiting, [c] + rest, name, k + 1, before, after)
  {
    var all := [c] + rest;
    var noted, first := if name in before then before[name] else [], [Source(c.node, c.index)];
    assert all[..k + 1] == [c] + rest[..k];
    assert SourcesOf(all[..k + 1]) == first + SourcesOf(rest[..k]);
    assert noted + (first + SourcesOf(rest[..k])) == (noted + first) + SourcesOf(rest[..k]);
    assert after == before[name := (noted + first) + SourcesOf(rest[..k])] by {
      if k == 0 {
        assert noted + first + SourcesOf(rest[..k]) == noted + first;
      }
    }
    assert forall i :: 0 < i < |all| ==> all[i] == rest[i - 1];
  }

  /** What is noted for a node that does not have exactly one input slot. */
  lemma MultiInputNotes(env: Env, s: State, from: string, t: NodeToAdd) returns (m: nat)
    requires |MainInputs(env, s.ranges, t.node.name)| != 1
    ensures AreGathered(s.waiting, FirstSources(MainInputs(env, s.ranges, t.node.name)), t.node.name, m, s.sources,
                        AddNode(env, s, from, t).sources)
  {
    var slots := MainInputs(env, s.ranges, t.node.name);
    var s1 := s.(ranges := s.ranges + 1);
    m := GatherNotes(s1, t.node, slots, [], Gather(s1, t.node, slots, []));
  }
}
