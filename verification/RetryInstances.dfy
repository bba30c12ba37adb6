/** Concrete failed runs: the conditions of the retry theorems can all be met, in both ways. */
module RetryInstances {
  import opened JsonValues
  import opened Graph
  import opened Execution
  import opened Workflows
  import opened Termination
  import opened Traversal
  import opened Retry
  import opened FaithfulRetry
  import WorkflowRunner

  function First(): Node {
    Node("first", "manual", [0, 0], false, "", map[])
  }

  function Second(): Node {
    Node("second", "action", [100, 0], false, "", map[])
  }

  /** The first node is wired to the only input of the second. */
  function Chain(): Workflow {
    Workflow("", [First(), Second()], map["first" := map["main" := [[Connection("second", "main", 0)]]]])
  }

  /** The named node fails with an error, every other node emits an empty list. */
  function Failing(name: string): (Node, seq<NodeData>, RunData) -> NodeResult {
    (node: Node, inputs: seq<NodeData>, runData: RunData) =>
      if node.name == name then NodeResult(Failed, ["failed"], Nil, []) else NodeResult(Success, [], Items([]), [])
  }

  function ChainEnv(name: string): Env {
    Env(Chain(), Failing(name), (typ: string) => TriggerCategory, (k: nat) => [("first", "main")],
        WorkflowRunner.SortByPosition)
  }

  function ChainRank(): string -> nat {
    (name: string) => if name == "first" then 1 else 0
  }

  lemma ChainSlots(s: string, c: string)
    ensures SlotsOf(Chain().connections, s, c)
         == if s == "first" && c == "main" then [[Connection("second", "main", 0)]] else []
  {
  }

  lemma ChainEnvIsValid(name: string)
    ensures ValidEnv(ChainEnv(name))
  {
    WorkflowRunner.SorterExists();
    var g, order := Chain().connections, [("first", "main")];
    forall s, c | s in g && c in g[s]
      ensures (s, c) in order
    {
      assert (s, c) == order[0];
    }
    assert IsMapOrder(g, order);
  }

  /** The only main connection there is. */
  lemma ChainConnection(s: string, o: int, j: int)
    requires 0 <= o < |SlotsOf(Chain().connections, s, "main")|
    requires 0 <= j < |SlotsOf(Chain().connections, s, "main")[o]|
    ensures s == "first" && o == 0 && j == 0
    ensures SlotsOf(Chain().connections, s, "main")[o][j] == Connection("second", "main", 0)
  {
    ChainSlots(s, "main");
  }

  lemma ChainIsRanked()
    ensures Ranked(Chain(), ChainRank()) && OneSource(Chain())
  {
    forall s, o, j | 0 <= o < |SlotsOf(Chain().connections, s, "main")|
                     && 0 <= j < |SlotsOf(Chain().connections, s, "main")[o]|
      ensures s == "first" && o == 0 && j == 0
      ensures SlotsOf(Chain().connections, s, "main")[o][j].node == "second"
    {
      ChainConnection(s, o, j);
    }
  }

  lemma ChainIsMainOnly()
    ensures MainOnly(Chain())
  {
    forall s, c, o: nat, d, i: nat | Edge(Chain().connections, s, c, o, d, "main", i)
      ensures c == "main"
    {
      ChainSlots(s, c);
    }
  }

  lemma ChainIsWellConnected()
    ensures WellConnected(Chain())
  {
    assert NodeByName(Chain().nodes, "second") == Some(Second());
    forall s, o, j | 0 <= o < |SlotsOf(Chain().connections, s, "main")|
                     && 0 <= j < |SlotsOf(Chain().connections, s, "main")[o]|
      ensures SlotsOf(Chain().connections, s, "main")[o][j] == Connection("second", "main", 0)
    {
      ChainConnection(s, o, j);
    }
  }

  lemma ChainIsForest()
    ensures Forest(Chain(), ChainRank())
  {
    ChainIsRanked();
    ChainIsMainOnly();
    ChainIsWellConnected();
  }

  lemma ChainParents()
    ensures HasChild(Chain(), "first", "second") && !HasParent(Chain(), "first")
  {
    ChainSlots("first", "main");
    assert SlotsOf(Chain().connections, "first", "main")[0][0].node == "second";
    forall a | HasChild(Chain(), a, "first")
      ensures false
    {
      var o, j :| 0 <= o < |SlotsOf(Chain().connections, a, "main")|
        && 0 <= j < |SlotsOf(Chain().connections, a, "main")[o]|
        && SlotsOf(Chain().connections, a, "main")[o][j].node == "first";
      ChainConnection(a, o, j);
    }
  }

  lemma ChainStartsAtRoot()
    ensures StartsAtRoots(Chain(), Some(First()))
    ensures StartStack(Chain(), Some(First())) == [StackEntry(First(), [])]
  {
    ChainParents();
    assert First() == Chain().nodes[0];
  }

  /** When the first node succeeds, the second is scheduled on its output. */
  lemma SecondIsListed(env: Env)
    requires env == ChainEnv("second")
    ensures Listed(env, "first", [Items([])]) == [NodeToAdd(Second(), Items([]), 0)]
  {
    var conn, outputs := Connection("second", "main", 0), [Items([])];
    var target := Target(Some(Second()), Items([]), 0);
    ChainEnvIsValid("second");
    ChainSlots("first", "main");
    assert NodeByName(env.workflow.nodes, "second") == Some(Second());
    assert SlotTargets(env.workflow, [conn], outputs[0], 0) == [target];
    assert [[conn]][..0] == [] && Targets(env.workflow, [], outputs, false) == [];
    assert [] + [target] == [target];
    assert Targets(env.workflow, [[conn]], outputs, false) == [target];
    var list := Resolved([target]);
    assert list == [NodeToAdd(Second(), Items([]), 0)];
    SortedMembers(env, list);
    assert env.sort(list)[0] in list;
    assert env.sort(list) == list;
  }

  lemma FirstSucceeds(env: Env)
    requires env == ChainEnv("second")
    ensures var s := Steps(env, Fresh(env.workflow, Some(First())), 1);
      s.stack == [StackEntry(Second(), [Items([])])] && s.outcome.Running?
  {
    var s0 := Fresh(env.workflow, Some(First()));
    ChainEnvIsValid("second");
    ChainIsForest();
    ChainStartsAtRoot();
    FreshForestInv(env.workflow, ChainRank(), Some(First()));
    ForestStep(env, ChainRank(), s0);
    SecondIsListed(env);
    SecondIsPushed(env, s0);
    OneStep(env, s0, Step(env, s0));
  }

  lemma FirstRuns(env: Env, s0: State)
    requires env == ChainEnv("second") && s0.stack == [StackEntry(First(), [])]
    ensures RunNode(env, s0.stack[0], s0.runData) == TaskData(Success, [Items([])], None)
  {
  }

  lemma SecondIsPushed(env: Env, s0: State)
    requires env == ChainEnv("second") && s0.stack == [StackEntry(First(), [])]
    requires Listed(env, "first", [Items([])]) == [NodeToAdd(Second(), Items([]), 0)]
    ensures RunNode(env, s0.stack[0], s0.runData) == TaskData(Success, [Items([])], None)
    ensures AfterSuccess(Ran(env, s0), "first", Listed(env, "first", [Items([])])).stack
         == [StackEntry(Second(), [Items([])])]
  {
    FirstRuns(env, s0);
    var list := Listed(env, "first", [Items([])]);
    assert Reverse(Entries(list)) == [StackEntry(Second(), [Items([])])];
    assert s0.stack[1..] == [];
  }

  lemma EntryFails(env: Env, s: State)
    requires !Halted(s) && !s.stack[0].node.disabled
    requires RunNode(env, s.stack[0], s.runData).status != Success
    ensures FailsNext(env, s)
  {
  }

  /** A failed second node: the retry theorems apply, and retry restores its stack entry. */
  lemma SecondCanBeRetried()
    ensures var env, s := ChainEnv("second"), Steps(ChainEnv("second"), Fresh(Chain(), Some(First())), 1);
      && ValidEnv(env) && Forest(env.workflow, ChainRank()) && StartsAtRoots(env.workflow, Some(First()))
      && FailsNext(env, s) && HasParent(env.workflow, s.stack[0].node.name)
      && RunNode(env, s.stack[0], s.runData).error.Some?
      && PrepareRetry(env.workflow, false, StoredAfterRun(Step(env, s))).Ok?
      && PrepareRetry(env.workflow, false, StoredAfterRun(Step(env, s))).value.stack
         == [StackEntry(Second(), [Items([])])]
  {
    var env := ChainEnv("second");
    var s := Steps(env, Fresh(env.workflow, Some(First())), 1);
    ChainEnvIsValid("second");
    ChainIsForest();
    ChainStartsAtRoot();
    FirstSucceeds(env);
    EntryFails(env, s);
    ChainParents();
    RetryRebuilds(env, ChainRank(), Some(First()), 1);
  }

  /** A failed start node: the theorem of its refusal applies. */
  lemma FirstCannotBeRetried()
    ensures var env, s := ChainEnv("first"), Steps(ChainEnv("first"), Fresh(Chain(), Some(First())), 0);
      && ValidEnv(env) && Forest(env.workflow, ChainRank()) && StartsAtRoots(env.workflow, Some(First()))
      && FailsNext(env, s) && !HasParent(env.workflow, s.stack[0].node.name)
      && PrepareRetry(env.workflow, false, StoredAfterRun(Step(env, s))) == Err(SourceNotFound)
  {
    var env := ChainEnv("first");
    var s := Steps(env, Fresh(env.workflow, Some(First())), 0);
    ChainEnvIsValid("first");
    ChainIsForest();
    ChainParents();
    ChainStartsAtRoot();
    EntryFails(env, s);
    StartNodeRetryRefused(env, ChainRank(), Some(First()), 0);
  }
}
