/** On acyclic single-input graphs the stack loop is a recursive depth-first traversal. */
module Traversal {
  import opened JsonValues
  import opened Graph
  import opened Execution
  import opened Iteration
  import opened Workflows
  import opened Sequences
  import opened Termination

  // ----- the reference: recursive preorder -----

  /** What a traversal accumulates. */
  datatype History = History(runData: RunData, trace: seq<TraceStep>)

  function Reverse<T>(s: seq<T>): (r: seq<T>)
    ensures |r| == |s| && forall i :: 0 <= i < |s| ==> r[i] == s[|s| - 1 - i]
  {
    seq(|s|, i requires 0 <= i < |s| => s[|s| - 1 - i])
  }

  function Entries(list: seq<NodeToAdd>): (r: seq<StackEntry>)
    ensures |r| == |list|
    ensures forall i :: 0 <= i < |list| ==> r[i] == StackEntry(list[i].node, [list[i].data])
  {
    seq(|list|, i requires 0 <= i < |list| => StackEntry(list[i].node, [list[i].data]))
  }

  /** The successors of a node, top left first, each with the output that leads to it. */
  function Children(env: Env, name: string, outputs: seq<NodeData>, disabled: bool): seq<StackEntry> {
    var targets := Targets(env.workflow, MainOutputs(env, name), outputs, disabled);
    if Sortable(targets) then Reverse(Entries(env.sort(Resolved(targets)))) else []
  }

  ghost function RankBound(rank: string -> nat, entries: seq<StackEntry>): (b: nat)
    ensures forall i :: 0 <= i < |entries| ==> rank(entries[i].node.name) < b
    ensures entries == [] || exists i :: 0 <= i < |entries| && b == rank(entries[i].node.name) + 1
  {
    if entries == [] then 0
    else
      var front := RankBound(rank, entries[..|entries| - 1]);
      var last := rank(entries[|entries| - 1].node.name) + 1;
      if front > last then front else last
  }

  /**
   Visit the entries from left to right: run the node, then its whole subtree, then the next entry.
   The result says whether every node succeeded; the first failure cuts the traversal short.
   */
  ghost function DepthFirst(env: Env, rank: string -> nat, entries: seq<StackEntry>, h: History): (History, bool)
    requires Ranked(env.workflow, rank) && IsSorter(env.sort)
    decreases RankBound(rank, entries), |entries|
  {
    if entries == [] then (h, true)
    else
      var node, inputs := entries[0].node, entries[0].inputs;
      var task := RunNode(env, entries[0], h.runData);
      var outputs := if node.disabled then inputs else task.main;
      var here :=
        if node.disabled then h
        else History(AppendTask(h.runData, node.name, task), h.trace + [TraceStep(node, inputs, task)]);
      if !node.disabled && task.status != Success then (here, false)
      else
        ChildrenRank(env, rank, node.name, outputs, node.disabled);
        var (subtree, ok) := DepthFirst(env, rank, Children(env, node.name, outputs, node.disabled), here);
        if !ok then (subtree, false)
        else
          var rest := entries[1..];
          assert RankBound(rank, rest) <= RankBound(rank, entries);
          DepthFirst(env, rank, rest, subtree)
  }

  lemma ChildrenAre(env: Env, name: string, outputs: seq<NodeData>, disabled: bool, i: nat)
    requires IsSorter(env.sort) && i < |Children(env, name, outputs, disabled)|
    ensures exists o, j ::
      && 0 <= o < |MainOutputs(env, name)| && 0 <= j < |MainOutputs(env, name)[o]|
      && Live(outputs, o, disabled)
      && NodeByName(env.workflow.nodes, MainOutputs(env, name)[o][j].node)
           == Some(Children(env, name, outputs, disabled)[i].node)
      && Children(env, name, outputs, disabled)[i].inputs == [outputs[o]]
  {
    var slots := MainOutputs(env, name);
    var targets := Targets(env.workflow, slots, outputs, disabled);
    var list := env.sort(Resolved(targets));
    SortedMembers(env, Resolved(targets));
    var t := list[|list| - 1 - i];
    assert t in list;
    var k :| 0 <= k < |targets| && Resolved(targets)[k] == t;
    TargetsAre(env.workflow, slots, outputs, disabled, targets[k]);
  }

  lemma ChildrenRank(env: Env, rank: string -> nat, name: string, outputs: seq<NodeData>, disabled: bool)
    requires Ranked(env.workflow, rank) && IsSorter(env.sort)
    ensures RankBound(rank, Children(env, name, outputs, disabled)) <= rank(name)
  {
    var children := Children(env, name, outputs, disabled);
    if children != [] {
      var i :| 0 <= i < |children| && RankBound(rank, children) == rank(children[i].node.name) + 1;
      ChildrenAre(env, name, outputs, disabled, i);
      var o, j :| 0 <= o < |MainOutputs(env, name)| && 0 <= j < |MainOutputs(env, name)[o]|
        && NodeByName(env.workflow.nodes, MainOutputs(env, name)[o][j].node) == Some(children[i].node);
      NodeByNameFound(env.workflow.nodes, MainOutputs(env, name)[o][j].node);
    }
  }

  /** Siblings are visited top left to bottom right, and every listed target is visited once. */
  lemma ChildrenInReadingOrder(env: Env, name: string, outputs: seq<NodeData>, disabled: bool)
    requires IsSorter(env.sort) && Sortable(Targets(env.workflow, MainOutputs(env, name), outputs, disabled))
    ensures var targets := Targets(env.workflow, MainOutputs(env, name), outputs, disabled);
      var children := Children(env, name, outputs, disabled);
      && multiset(children) == multiset(Entries(Resolved(targets)))
      && forall i, j :: 0 <= i < j < |children| ==>
           && HasPosition(children[i].node) && HasPosition(children[j].node)
           && NotBefore(children[j].node, children[i].node)
  {
    var list := Resolved(Targets(env.workflow, MainOutputs(env, name), outputs, disabled));
    var sorted := env.sort(list);
    SortedMembers(env, list);
    EntriesPermutation(sorted, list);
    ReversePermutation(Entries(sorted));
    forall i | 0 <= i < |sorted| && |list| >= 2
      ensures HasPosition(sorted[i].node)
    {
      assert sorted[i] in list;
    }
  }

  lemma {:induction false} ReversePermutation<T>(s: seq<T>)
    ensures multiset(Reverse(s)) == multiset(s)
  {
    if s == [] {
    } else {
      ReversePermutation(s[1..]);
      assert Reverse(s) == Reverse(s[1..]) + [s[0]];
      assert s == [s[0]] + s[1..];
    }
  }

  lemma EntriesRemove(b: seq<NodeToAdd>, i: nat)
    requires i < |b|
    ensures multiset(Entries(b)) == multiset(Entries(Without(b, i))) + multiset{StackEntry(b[i].node, [b[i].data])}
  {
    var x := StackEntry(b[i].node, [b[i].data]);
    var left, right := Entries(b[..i]), Entries(b[i + 1..]);
    assert Entries(b) == left + ([x] + right);
    assert Entries(Without(b, i)) == left + right;
  }

  lemma {:induction false} EntriesPermutation(a: seq<NodeToAdd>, b: seq<NodeToAdd>)
    requires multiset(a) == multiset(b)
    ensures multiset(Entries(a)) == multiset(Entries(b))
    decreases |a|
  {
    if a == [] {
      EmptyPermutation(b);
    } else {
      var i := RemoveFirst(a, b);
      EntriesPermutation(a[1..], Without(b, i));
      EntriesRemove(a, 0);
      EntriesRemove(b, i);
      assert Without(a, 0) == a[1..];
    }
  }

  // ----- where the refinement holds -----

  /** Main connections lead to existing nodes, by a main input, and nodes have canvas positions. */
  ghost predicate WellConnected(wf: Workflow) {
    && (forall s, o, j ::
          0 <= o < |SlotsOf(wf.connections, s, "main")| && 0 <= j < |SlotsOf(wf.connections, s, "main")[o]| ==>
            && SlotsOf(wf.connections, s, "main")[o][j].typ == "main"
            && NodeByName(wf.nodes, SlotsOf(wf.connections, s, "main")[o][j].node).Some?)
    && (forall n :: n in wf.nodes ==> HasPosition(n))
  }

  /** No node has a second main input. */
  ghost predicate SingleInput(wf: Workflow) {
    && WellConnected(wf)
    && forall s, c, o: nat, d, i: nat :: Edge(wf.connections, s, c, o, d, "main", i) ==> i == 0
  }

  lemma SingleInputSlot(env: Env, range: nat, s: string, o: nat, j: nat)
    requires ValidEnv(env) && SingleInput(env.workflow)
    requires o < |MainOutputs(env, s)| && j < |MainOutputs(env, s)[o]|
    ensures |MainInputs(env, range, MainOutputs(env, s)[o][j].node)| == 1
  {
    var g := env.workflow.connections;
    var c := MainOutputs(env, s)[o][j];
    assert c == Connection(c.node, "main", c.index) && c in SlotOf(g, s, "main", o);
    assert Edge(g, s, "main", o, c.node, "main", c.index);
    WiredInputHasSlot(g, env.order(range), s, "main", o, c.node, "main", c.index);
    var s', c', o' := LastInputSlotWired(g, env.order(range), c.node, "main");
  }

  lemma TargetsSortable(env: Env, name: string, outputs: seq<NodeData>, disabled: bool)
    requires WellConnected(env.workflow)
    ensures Sortable(Targets(env.workflow, MainOutputs(env, name), outputs, disabled))
  {
    var slots := MainOutputs(env, name);
    var targets := Targets(env.workflow, slots, outputs, disabled);
    forall i | 0 <= i < |targets|
      ensures targets[i].node.Some? && HasPosition(targets[i].node.value)
    {
      TargetsAre(env.workflow, slots, outputs, disabled, targets[i]);
      var o, j :| 0 <= o < |slots| && 0 <= j < |slots[o]|
        && targets[i].node == NodeByName(env.workflow.nodes, slots[o][j].node);
      NodeByNameFound(env.workflow.nodes, slots[o][j].node);
    }
  }

  /** Every listed node has exactly one main input slot. */
  ghost predicate AllSingle(env: Env, list: seq<NodeToAdd>) {
    forall k: nat, i :: 0 <= i < |list| ==> |MainInputs(env, k, list[i].node.name)| == 1
  }

  lemma ListedAreSingle(env: Env, name: string, outputs: seq<NodeData>, disabled: bool)
    requires ValidEnv(env) && SingleInput(env.workflow)
    requires Sortable(Targets(env.workflow, MainOutputs(env, name), outputs, disabled))
    ensures AllSingle(env, env.sort(Resolved(Targets(env.workflow, MainOutputs(env, name), outputs, disabled))))
  {
    var slots := MainOutputs(env, name);
    var targets := Targets(env.workflow, slots, outputs, disabled);
    var list := env.sort(Resolved(targets));
    SortedMembers(env, Resolved(targets));
    forall k: nat, i | 0 <= i < |list|
      ensures |MainInputs(env, k, list[i].node.name)| == 1
    {
      assert list[i] in list;
      var m :| 0 <= m < |targets| && Resolved(targets)[m] == list[i];
      TargetsAre(env.workflow, slots, outputs, disabled, targets[m]);
      var o, j :| 0 <= o < |slots| && 0 <= j < |slots[o]|
        && targets[m].node == NodeByName(env.workflow.nodes, slots[o][j].node);
      NodeByNameFound(env.workflow.nodes, slots[o][j].node);
      SingleInputSlot(env, k, name, o, j);
    }
  }

  lemma StackAfterPush(list: seq<NodeToAdd>, stack: seq<StackEntry>)
    requires list != []
    ensures Reverse(Entries(list)) + stack
         == Reverse(Entries(list[1..])) + ([StackEntry(list[0].node, [list[0].data])] + stack)
  {
  }

  lemma {:induction false} AddNodesPushesAll(env: Env, s: State, from: string, list: seq<NodeToAdd>)
    requires s.outcome.Running? && AllSingle(env, list)
    ensures var r := AddNodes(env, s, from, list);
      r.outcome.Running? && r.stack == Reverse(Entries(list)) + s.stack
    decreases |list|
  {
    if list == [] {
      assert Reverse(Entries(list)) + s.stack == s.stack;
    } else {
      AddNodesPushesAll(env, AddNode(env, s, from, list[0]), from, list[1..]);
      StackAfterPush(list, s.stack);
    }
  }

  /** Scheduling the successors puts exactly the children in front of the stack. */
  lemma AddTargetsPushesChildren(env: Env, s: State, name: string, outputs: seq<NodeData>, disabled: bool)
    requires ValidEnv(env) && SingleInput(env.workflow) && s.outcome.Running?
    ensures var r := AddTargets(env, s, name, Targets(env.workflow, MainOutputs(env, name), outputs, disabled));
      && r.outcome.Running? && SameHistory(r, s)
      && r.stack == Children(env, name, outputs, disabled) + s.stack
  {
    var targets := Targets(env.workflow, MainOutputs(env, name), outputs, disabled);
    TargetsSortable(env, name, outputs, disabled);
    ListedAreSingle(env, name, outputs, disabled);
    AddNodesPushesAll(env, s, name, env.sort(Resolved(targets)));
    AddNodesHistory(env, s, name, env.sort(Resolved(targets)));
  }

  // ----- the refinement -----

  ghost function HistoryOf(s: State): History {
    History(s.runData, s.trace)
  }

  lemma {:induction false} DepthFirstConcat(
      env: Env, rank: string -> nat, a: seq<StackEntry>, b: seq<StackEntry>, h: History)
    requires Ranked(env.workflow, rank) && IsSorter(env.sort)
    ensures var (h', ok) := DepthFirst(env, rank, a, h);
      DepthFirst(env, rank, a + b, h) == if ok then DepthFirst(env, rank, b, h') else (h', false)
    decreases |a|
  {
    if a == [] {
      assert a + b == b;
    } else {
      assert (a + b)[1..] == a[1..] + b && (a + b)[0] == a[0];
      var node, inputs := a[0].node, a[0].inputs;
      var task := RunNode(env, a[0], h.runData);
      var outputs := if node.disabled then inputs else task.main;
      var here :=
        if node.disabled then h
        else History(AppendTask(h.runData, node.name, task), h.trace + [TraceStep(node, inputs, task)]);
      if node.disabled || task.status == Success {
        var (subtree, ok) := DepthFirst(env, rank, Children(env, node.name, outputs, node.disabled), here);
        if ok {
          DepthFirstConcat(env, rank, a[1..], b, subtree);
        }
      }
    }
  }

  /** One iteration leaves the outcome of the traversal of the pending stack as it was. */
  lemma StepRefinesTraversal(env: Env, rank: string -> nat, s: State)
    requires ValidEnv(env) && Ranked(env.workflow, rank) && SingleInput(env.workflow)
    requires !Halted(s)
    ensures var r := Step(env, s);
      && !r.outcome.Panicked?
      && DepthFirst(env, rank, s.stack, HistoryOf(s))
         == if r.outcome.Stopped? then (HistoryOf(r), false) else DepthFirst(env, rank, r.stack, HistoryOf(r))
  {
    var entry := s.stack[0];
    var name := entry.node.name;
    if entry.node.disabled {
      AddTargetsPushesChildren(env, Pop(s), name, entry.inputs, true);
      DepthFirstConcat(env, rank, Children(env, name, entry.inputs, true), s.stack[1..], HistoryOf(s));
    } else {
      var task := RunNode(env, entry, s.runData);
      var ran := RecordRun(Pop(s), entry, task);
      if task.status == Success {
        AddTargetsPushesChildren(env, ran, name, task.main, false);
        DepthFirstConcat(env, rank, Children(env, name, task.main, false), s.stack[1..], HistoryOf(ran));
      }
    }
  }

  /** The state has done the front of a traversal with this result, and what is pending is the rest of it. */
  ghost predicate OnTheWayTo(env: Env, rank: string -> nat, result: (History, bool), s: State)
    requires Ranked(env.workflow, rank) && IsSorter(env.sort)
  {
    && !s.outcome.Panicked?
    && result == if s.outcome.Stopped? then (HistoryOf(s), false) else DepthFirst(env, rank, s.stack, HistoryOf(s))
  }

  lemma NextRefinesTraversal(env: Env, rank: string -> nat, result: (History, bool), s: State)
    requires ValidEnv(env) && Ranked(env.workflow, rank) && SingleInput(env.workflow)
    requires OnTheWayTo(env, rank, result, s)
    ensures OnTheWayTo(env, rank, result, Next(env, s))
  {
    if !Halted(s) {
      StepRefinesTraversal(env, rank, s);
    }
  }

  lemma StepsRefineTraversal(env: Env, rank: string -> nat, s: State, n: nat)
    requires ValidEnv(env) && Ranked(env.workflow, rank) && SingleInput(env.workflow)
    requires s.outcome.Running?
    ensures OnTheWayTo(env, rank, DepthFirst(env, rank, s.stack, HistoryOf(s)), Steps(env, s, n))
  {
    var result := DepthFirst(env, rank, s.stack, HistoryOf(s));
    var inv := (x: State) => OnTheWayTo(env, rank, result, x);
    forall x | inv(x)
      ensures inv(Stepper(env)(x))
    {
      NextRefinesTraversal(env, rank, result, x);
    }
    Keeps(Stepper(env), inv, s, n);
  }

  /** The executed trace of a whole run is the depth-first preorder of its start entries. */
  lemma LoopIsDepthFirst(env: Env, rank: string -> nat, startNode: Option<Node>, n: nat)
    requires ValidEnv(env) && Ranked(env.workflow, rank) && SingleInput(env.workflow)
    requires n >= StackWeight(env.workflow, rank, StartStack(env.workflow, startNode))
    ensures var end := Steps(env, Fresh(env.workflow, startNode), n);
      var (h, ok) := DepthFirst(env, rank, StartStack(env.workflow, startNode), History(map[], []));
      && Halted(end) && !end.outcome.Panicked?
      && end.trace == h.trace && end.runData == h.runData
      && (end.outcome.Running? <==> ok)
  {
    var s := Fresh(env.workflow, startNode);
    RunTerminates(env, rank, s);
    HaltedStays(env, s, StackWeight(env.workflow, rank, s.stack), n);
    StepsRefineTraversal(env, rank, s, n);
  }
}
