/** The run loop as the service runs it: objects updated in place, proved against the step function of Execution. */
module WorkflowRunner {
  import opened JsonValues
  import opened Graph
  import opened Execution
  import opened Workflows

  // ----- the stack of pending nodes -----

  class NodeExecutionStack {
    var nodes: seq<StackEntry>

    constructor (triggers: seq<Node>)
      ensures nodes == StartEntries(triggers)
    {
      nodes := [];
      new;
      for i := 0 to |triggers|
        invariant nodes == StartEntries(triggers[..i])
      {
        assert triggers[..i + 1] == triggers[..i] + [triggers[i]];
        PushBack(StackEntry(triggers[i], []));
      }
      assert triggers[..|triggers|] == triggers;
    }

    method PushBack(entry: StackEntry)
      modifies this
      ensures nodes == old(nodes) + [entry]
    {
      nodes := nodes + [entry];
    }

    method PushFront(entry: StackEntry)
      modifies this
      ensures nodes == [entry] + old(nodes)
    {
      nodes := [entry] + nodes;
    }

    method PopFront() returns (entry: StackEntry)
      requires nodes != []
      modifies this
      ensures [entry] + nodes == old(nodes)
    {
      entry := nodes[0];
      nodes := nodes[1..];
    }

    /** The list that is stored for the stack, front first. */
    method MarshalList() returns (list: seq<StackEntry>)
      ensures list == nodes
    {
      list := [];
      for i := 0 to |nodes|
        invariant list == nodes[..i]
      {
        list := list + [nodes[i]];
      }
    }

    /** Rebuild the stack from a stored list: loading what MarshalList stored restores the stack. */
    method UnmarshalList(list: seq<StackEntry>)
      modifies this
      ensures nodes == list
    {
      nodes := [];
      for i := 0 to |list|
        invariant nodes == list[..i]
      {
        PushBack(list[i]);
      }
    }
  }

  // ----- sorting by position -----

  /** Insert `x` in front of the first element that it is not before. */
  function Insert(l: seq<NodeToAdd>, x: NodeToAdd): seq<NodeToAdd>
    requires Positioned(l) && HasPosition(x.node)
  {
    if l == [] then [x]
    else if NotBefore(x.node, l[|l| - 1].node) then Insert(l[..|l| - 1], x) + [l[|l| - 1]]
    else l + [x]
  }

  predicate Positioned(l: seq<NodeToAdd>) {
    forall t :: t in l ==> HasPosition(t.node)
  }

  predicate InOrder(l: seq<NodeToAdd>) {
    forall i, j :: 0 <= i < j < |l| ==> NotBeforeEntry(l[i], l[j])
  }

  predicate NotBeforeEntry(a: NodeToAdd, b: NodeToAdd) {
    HasPosition(a.node) && HasPosition(b.node) && NotBefore(a.node, b.node)
  }

  function Sorted(l: seq<NodeToAdd>): (r: seq<NodeToAdd>)
    requires Positioned(l)
    ensures multiset(r) == multiset(l) && Positioned(r) && InOrder(r)
  {
    if l == [] then []
    else
      var front, last := l[..|l| - 1], l[|l| - 1];
      assert l == front + [last];
      InsertMembers(Sorted(front), last);
      InsertInOrder(Sorted(front), last);
      Insert(Sorted(front), last)
  }

  lemma {:induction false} InsertMembers(l: seq<NodeToAdd>, x: NodeToAdd)
    requires Positioned(l) && HasPosition(x.node)
    ensures multiset(Insert(l, x)) == multiset(l) + multiset{x} && Positioned(Insert(l, x))
  {
    if l == [] {
    } else {
      assert l == l[..|l| - 1] + [l[|l| - 1]];
      if NotBefore(x.node, l[|l| - 1].node) {
        InsertMembers(l[..|l| - 1], x);
      }
    }
  }

  lemma {:induction false} InsertInOrder(l: seq<NodeToAdd>, x: NodeToAdd)
    requires Positioned(l) && HasPosition(x.node) && InOrder(l)
    ensures InOrder(Insert(l, x))
  {
    if l == [] {
    } else {
      var front, last := l[..|l| - 1], l[|l| - 1];
      if NotBefore(x.node, last.node) {
        InsertInOrder(front, x);
        InsertMembers(front, x);
        AllBeforeLast(front, last, x, Insert(front, x));
        AppendInOrder(Insert(front, x), last);
      } else {
        assert forall i :: 0 <= i < |front| ==> NotBeforeEntry(l[i], last);
        AppendInOrder(l, x);
      }
    }
  }

  lemma AllBeforeLast(front: seq<NodeToAdd>, last: NodeToAdd, x: NodeToAdd, r: seq<NodeToAdd>)
    requires multiset(r) == multiset(front) + multiset{x} && NotBeforeEntry(x, last)
    requires forall i :: 0 <= i < |front| ==> NotBeforeEntry(front[i], last)
    ensures forall i :: 0 <= i < |r| ==> NotBeforeEntry(r[i], last)
  {
    forall i | 0 <= i < |r|
      ensures NotBeforeEntry(r[i], last)
    {
      assert r[i] in multiset(r);
      assert r[i] in multiset(front) || r[i] == x;
    }
  }

  lemma AppendInOrder(l: seq<NodeToAdd>, x: NodeToAdd)
    requires InOrder(l) && forall i :: 0 <= i < |l| ==> NotBeforeEntry(l[i], x)
    ensures InOrder(l + [x])
  {
  }

  /** The list order the library's insertion sort produces; lists without positions are never sorted. */
  function SortByPosition(l: seq<NodeToAdd>): seq<NodeToAdd> {
    if Positioned(l) then Sorted(l) else l
  }

  /** The assumption made about the library sort is satisfiable. */
  lemma SorterExists()
    ensures IsSorter(SortByPosition)
  {
    forall l: seq<NodeToAdd>
      ensures multiset(SortByPosition(l)) == multiset(l) && BottomRightFirst(SortByPosition(l))
    {
      if Positioned(l) {
        var r := SortByPosition(l);
        forall i, j | 0 <= i < j < |r|
          ensures NotBefore(r[i].node, r[j].node)
        {
          assert NotBeforeEntry(r[i], r[j]);
        }
      } else {
        var t :| t in l && !HasPosition(t.node);
        var i :| 0 <= i < |l| && l[i] == t;
        assert !HasPosition(l[i].node);
      }
    }
  }

  lemma {:induction false} InsertAt(l: seq<NodeToAdd>, x: NodeToAdd, j: nat)
    requires Positioned(l) && HasPosition(x.node)
    requires j <= |l| && (forall k :: j <= k < |l| ==> NotBefore(x.node, l[k].node))
    requires j == 0 || !NotBefore(x.node, l[j - 1].node)
    ensures Insert(l, x) == l[..j] + [x] + l[j..]
  {
    if j < |l| {
      InsertAt(l[..|l| - 1], x, j);
      assert l[j..] == l[..|l| - 1][j..] + [l[|l| - 1]];
      assert l[..|l| - 1][..j] == l[..j];
    } else {
      assert l[..j] == l;
    }
  }

  /** The element between the two parts changes places with the last one before it. */
  lemma SwapLeft(l: seq<NodeToAdd>, x: NodeToAdd, j: nat)
    requires 0 < j <= |l|
    ensures (l[..j] + [x] + l[j..])[j - 1 := x][j := l[j - 1]] == l[..j - 1] + [x] + l[j - 1..]
  {
  }

  /** Move the element at `n` left past every element it is not before. */
  method InsertLast(a: array<NodeToAdd>, n: nat)
    requires n < a.Length && Positioned(a[..n + 1])
    modifies a
    ensures a[..n + 1] == Insert(old(a[..n]), old(a[n]))
    ensures a[n + 1..] == old(a[n + 1..])
  {
    ghost var l, x := a[..n], a[n];
    assert a[..n + 1] == l + [x];
    assert l[..n] + [x] + l[n..] == l + [x];
    PositionedParts(l, x);
    var j := n;
    while j > 0 && NotBefore(a[j].node, a[j - 1].node)
      invariant 0 <= j <= n && a[..n + 1] == l[..j] + [x] + l[j..]
      invariant j < n + 1 && a[j] == x && (j > 0 ==> a[j - 1] == l[j - 1])
      invariant forall k :: j <= k < n ==> NotBefore(x.node, l[k].node)
      invariant a[n + 1..] == old(a[n + 1..])
    {
      ghost var before := a[..n + 1];
      a[j], a[j - 1] := a[j - 1], a[j];
      assert a[..n + 1] == before[j - 1 := x][j := l[j - 1]];
      SwapLeft(l, x, j);
      j := j - 1;
      assert a[j] == a[..n + 1][j] == x;
      assert j > 0 ==> a[j - 1] == a[..n + 1][j - 1] == l[j - 1];
    }
    InsertAt(l, x, j);
  }

  lemma PositionedParts(l: seq<NodeToAdd>, x: NodeToAdd)
    requires Positioned(l + [x])
    ensures Positioned(l) && HasPosition(x.node) && forall k :: 0 <= k < |l| ==> HasPosition(l[k].node)
  {
    assert (l + [x])[|l|] == x;
    forall t | t in l
      ensures t in l + [x]
    {
    }
  }

  lemma SortedNext(was: seq<NodeToAdd>, n: nat)
    requires n < |was| && Positioned(was)
    ensures Positioned(was[..n]) && Positioned(was[..n + 1]) && Positioned(Sorted(was[..n]) + [was[n]])
    ensures Sorted(was[..n + 1]) == Insert(Sorted(was[..n]), was[n])
  {
    assert was[..n + 1][..n] == was[..n];
  }

  /** Insertion sort in place, which is what the library does for short lists. */
  method SortNodesByPosition(a: array<NodeToAdd>)
    requires Positioned(a[..])
    modifies a
    ensures a[..] == SortByPosition(old(a[..]))
  {
    ghost var was := a[..];
    for n := 0 to a.Length
      invariant Positioned(was[..n])
      invariant a[..n] == Sorted(was[..n]) && a[n..] == was[n..]
    {
      SortedNext(was, n);
      assert a[n] == a[n..][0] == was[n];
      assert a[..n + 1] == a[..n] + [a[n]];
      InsertLast(a, n);
      assert a[n + 1..] == was[n..][1..] == was[n + 1..];
    }
    assert a[..a.Length] == a[..] && was[..a.Length] == was;
  }

  // ----- one workflow execution -----

  class WorkflowExecute {
    var stack: NodeExecutionStack?
    var waitingExecution: map<string, seq<NodeData>>
    var waitingExecutionSource: map<string, seq<Source>>
    var runData: RunData
    var error: string
    var lastNodeExecuted: string
    var outcome: Outcome
    var stored: Record
    /** How many map ranges the run has started; indexes Env.order. */
    var ranges: nat
    var finished: bool
    var afterHookCalls: nat
    ghost var trace: seq<TraceStep>

    constructor ()
      ensures stack == null && afterHookCalls == 0
      ensures forall wf, startNode :: Initial(wf, startNode) == Fresh(wf, startNode)
    {
      stack := null;
      waitingExecution, waitingExecutionSource, runData := map[], map[], map[];
      error, lastNodeExecuted, outcome, stored := "", "", Running, EMPTY_RECORD;
      ranges, finished, afterHookCalls, trace := 0, false, 0, [];
    }

    ghost function View(): State
      requires stack != null
      reads this, stack
    {
      State(stack.nodes, waitingExecution, waitingExecutionSource, runData, error, lastNodeExecuted, outcome,
            stored, trace, ranges)
    }

    /** The state the loop starts from: a stored stack is continued, otherwise the start nodes are pushed. */
    ghost function Initial(wf: Workflow, startNode: Option<Node>): State
      reads this, stack
    {
      State(if stack == null then StartStack(wf, startNode) else stack.nodes, waitingExecution, waitingExecutionSource,
            runData, error, lastNodeExecuted, Running, stored, [], ranges)
    }

    /** Collect the inputs of a node with several input slots, noting their sources on the way. */
    method GatherInputs(node: Node, slots: Slots) returns (ready: bool, inputs: seq<NodeData>)
      requires stack != null
      modifies this`waitingExecutionSource, this`outcome
      ensures Gather(old(View()), node, slots, [])
           == if ready then Push(View(), StackEntry(node, inputs)) else View()
    {
      var name := node.name;
      ready, inputs := false, [];
      ghost var s0 := View();
      ghost var goal := Gather(s0, node, slots, []);
      for i := 0 to |slots|
        invariant View() == s0.(sources := waitingExecutionSource)
        invariant Gather(View(), node, slots[i..], inputs) == goal
      {
        assert slots[i..][0] == slots[i] && slots[i..][1..] == slots[i + 1..];
        if slots[i] != [] {
          var c := slots[i][0];
          if c.node !in waitingExecution {
            return;
          }
          var outputs := waitingExecution[c.node];
          if c.index >= |outputs| {
            outcome := Panicked;
            return;
          }
          inputs := inputs + [outputs[c.index]];
          ghost var sources := waitingExecutionSource;
          if name !in waitingExecutionSource {
            waitingExecutionSource := waitingExecutionSource[name := []];
          }
          waitingExecutionSource :=
            waitingExecutionSource[name := waitingExecutionSource[name] + [Source(c.node, c.index)]];
          assert waitingExecutionSource == AddSource(sources, name, Source(c.node, c.index));
        }
      }
      ready := true;
    }

    method AddNodeToBeExecuted(env: Env, from: string, t: NodeToAdd)
      requires stack != null
      modifies this`waitingExecutionSource, this`outcome, this`ranges, stack
      ensures View() == AddNode(env, old(View()), from, t)
    {
      var name := t.node.name;
      var inverse := GetConnectionByDestination(env.workflow.connections, env.order(ranges));
      ranges := ranges + 1;
      var slots := SlotsOf(inverse, name, "main");
      if |slots| == 1 {
        stack.PushFront(StackEntry(t.node, [t.data]));
        waitingExecutionSource := waitingExecutionSource[name := [Source(from, t.outputIndex)]];
      } else {
        var ready, inputs := GatherInputs(t.node, slots);
        if ready {
          stack.PushFront(StackEntry(t.node, inputs));
        }
      }
    }

    /** Walk the outgoing main connections and list the nodes the live outputs lead to. */
    method CollectTargets(
        wf: Workflow, slots: Slots, outputs: seq<NodeData>, disabled: bool)
        returns (list: seq<Target>)
      ensures list == Targets(wf, slots, outputs, disabled)
    {
      list := [];
      for o := 0 to |slots|
        invariant list == Targets(wf, slots[..o], outputs, disabled)
      {
        ghost var before := list;
        for j := 0 to |slots[o]|
          invariant list == before + if Live(outputs, o, disabled)
            then SlotTargets(wf, slots[o], outputs[o], if disabled then 0 else o)[..j] else []
        {
          if Live(outputs, o, disabled) {
            list := list + [Target(NodeByName(wf.nodes, slots[o][j].node), outputs[o], if disabled then 0 else o)];
          }
        }
        assert slots[..o + 1][..o] == slots[..o];
      }
      assert slots[..|slots|] == slots;
    }

    /** Sort the listed nodes and hand them to the scheduler one by one. */
    method AddTargetsToBeExecuted(env: Env, from: string, targets: seq<Target>)
      requires stack != null
      modifies this`waitingExecutionSource, this`outcome, this`ranges, stack
      ensures View() == AddTargets(env, old(View()), from, targets)
    {
      if !Sortable(targets) {
        outcome := Panicked;
        return;
      }
      var list := env.sort(Resolved(targets));
      ghost var goal := AddNodes(env, View(), from, list);
      var i := 0;
      while i < |list| && !outcome.Panicked?
        invariant 0 <= i <= |list|
        invariant AddNodes(env, View(), from, list[i..]) == goal
      {
        assert list[i..][0] == list[i] && list[i..][1..] == list[i + 1..];
        AddNodeToBeExecuted(env, from, list[i]);
        i := i + 1;
      }
    }

    /** Execute the popped node and record its output. */
    method ExecuteNode(env: Env, entry: StackEntry) returns (task: TaskData)
      requires stack != null
      modifies this`waitingExecution, this`error, this`runData, this`stored, this`lastNodeExecuted, this`trace
      ensures task == RunNode(env, entry, old(runData))
      ensures View() == RecordRun(old(View()), entry, task)
    {
      var result := env.behave(entry.node, entry.inputs, runData);
      var resultList := ResultData(result, env.category(entry.node.typ));
      task := TaskData(result.status, resultList, None);
      if result.errors != [] {
        task := task.(error := Some(result.errors[0]));
      }
      RecordOutput(entry, task);
    }

    method RecordOutput(entry: StackEntry, task: TaskData)
      requires stack != null
      modifies this`waitingExecution, this`error, this`runData, this`stored, this`lastNodeExecuted, this`trace
      ensures View() == RecordRun(old(View()), entry, task)
    {
      var name := entry.node.name;
      waitingExecution := waitingExecution[name := task.main];
      if task.error.Some? {
        error := task.error.value;
      }
      AppendRunData(name, task);
      SaveProgress(name, task);
      lastNodeExecuted := name;
      trace := trace + [TraceStep(entry.node, entry.inputs, task)];
    }

    method AppendRunData(name: string, task: TaskData)
      modifies this`runData
      ensures runData == AppendTask(old(runData), name, task)
    {
      if name !in runData {
        runData := runData[name := []];
      }
      runData := runData[name := runData[name] + [task]];
    }

    /** The node-after hook: append to the stored run data and replace the stored execution data. */
    method SaveProgress(name: string, task: TaskData)
      requires stack != null
      modifies this`stored
      ensures stored == Record(stack.nodes, waitingExecution, waitingExecutionSource,
                               AppendTask(old(stored).runData, name, task), old(stored).error, name)
    {
      var list := stack.MarshalList();
      stored := Record(list, waitingExecution, waitingExecutionSource,
                       AppendTask(stored.runData, name, task), stored.error, name);
    }

    /** One pass through the loop body. */
    method ExecuteNext(env: Env)
      requires stack != null && !Halted(View())
      modifies this`waitingExecution, this`waitingExecutionSource, this`runData, this`error, this`lastNodeExecuted,
               this`outcome, this`stored, this`ranges, this`trace, stack
      ensures View() == Step(env, old(View()))
    {
      var entry := stack.PopFront();
      assert View() == Pop(old(View()));
      var name := entry.node.name;
      var slots := SlotsOf(env.workflow.connections, name, "main");
      if entry.node.disabled {
        var targets := CollectTargets(env.workflow, slots, entry.inputs, true);
        AddTargetsToBeExecuted(env, name, targets);
      } else {
        var task := ExecuteNode(env, entry);
        if task.status != Success {
          outcome := Stopped;
        } else {
          var targets := CollectTargets(env.workflow, slots, task.main, false);
          AddTargetsToBeExecuted(env, name, targets);
        }
      }
    }

    /**
     Repeat until the stack is empty, a node fails or the run panics. On a cyclic graph that need not happen,
     so the loop is followed for at most `fuel` iterations.
     */
    method RunLoop(env: Env, fuel: nat)
      requires stack != null
      modifies this`waitingExecution, this`waitingExecutionSource, this`runData, this`error, this`lastNodeExecuted,
               this`outcome, this`stored, this`ranges, this`trace, stack
      ensures View() == Steps(env, old(View()), fuel)
    {
      ghost var s0 := View();
      var n: nat := 0;
      while n < fuel && outcome.Running? && stack.nodes != []
        invariant n <= fuel && View() == Steps(env, s0, n)
      {
        ghost var before := View();
        ExecuteNext(env);
        StepsNext(env, s0, n, before, View());
        n := n + 1;
      }
      if n < fuel {
        HaltedStays(env, s0, n, fuel);
      }
    }

    /**
     The whole run, followed for at most `fuel` iterations; the module Termination gives a number within
     which every run on an acyclic graph ends.
     */
    method Execute(env: Env, startNode: Option<Node>, fuel: nat) returns (ended: bool)
      modifies this, stack
      ensures stack != null
      ensures ended == Halted(Steps(env, old(Initial(env.workflow, startNode)), fuel))
      ensures var end := Steps(env, old(Initial(env.workflow, startNode)), fuel);
        if !ended || end.outcome.Panicked?
        then View() == end && afterHookCalls == old(afterHookCalls)
        else && View() == end.(saved := StoredAfterRun(end))
             && finished == end.outcome.Running?
             && afterHookCalls == old(afterHookCalls) + 1
    {
      if stack == null {
        var triggers := if startNode.Some? then [startNode.value] else StartNodes(env.workflow.nodes);
        stack := new NodeExecutionStack(triggers);
      }
      outcome := Running;
      trace := [];
      assert View() == old(Initial(env.workflow, startNode));
      RunLoop(env, fuel);
      ended := stack.nodes == [] || !outcome.Running?;
      if ended && !outcome.Panicked? {
        Finish();
      }
    }

    /** After the loop: the finished flag, the stored error and the after-hooks. */
    method Finish()
      requires stack != null
      modifies this`finished, this`stored, this`afterHookCalls
      ensures View() == old(View()).(saved := StoredAfterRun(old(View())))
      ensures finished == outcome.Running? && afterHookCalls == old(afterHookCalls) + 1
    {
      finished := outcome.Running?;
      stored := stored.(error := error);
      afterHookCalls := afterHookCalls + 1;
    }
  }
}
