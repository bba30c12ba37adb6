/** Retrying a failed run: the rebuilt stack, inputs and history, and why the rest of the run is the same. */
module Retry {
  import opened JsonValues
  import opened Graph
  import opened Execution
  import opened Workflows
  import opened Termination
  import opened RunHistory
  import opened Traversal

  // ----- rebuilding the run from what is stored -----

  datatype RetryError = AlreadySucceeded | StartNodeNotFound | SourceNotFound | OutputsInconsistent

  function FirstNodeNamed(nodes: seq<Node>, name: string): Option<Node> {
    if nodes == [] then None
    else if nodes[0].name == name then Some(nodes[0])
    else FirstNodeNamed(nodes[1..], name)
  }

  /** Drop the last result of the failed node, if it carries an error. */
  function DropFailedResult(rec: Record): RunData {
    if rec.last in rec.runData && rec.runData[rec.last] != [] && Last(rec.runData[rec.last]).error.Some?
    then rec.runData[rec.last := rec.runData[rec.last][..|rec.runData[rec.last]| - 1]]
    else rec.runData
  }

  function InputFrom(waiting: map<string, seq<NodeData>>, source: Source): Result<NodeData, RetryError> {
    var outputs := if source.node in waiting then waiting[source.node] else [];
    if outputs == [] then Ok(Items([]))
    else if source.output < |outputs| then Ok(outputs[source.output])
    else Err(OutputsInconsistent)
  }

  function InputsFrom(waiting: map<string, seq<NodeData>>, sources: seq<Source>): Result<seq<NodeData>, RetryError> {
    if sources == [] then Ok([])
    else
      match InputsFrom(waiting, sources[..|sources| - 1])
      case Err(e) => Err(e)
      case Ok(front) =>
        match InputFrom(waiting, sources[|sources| - 1])
        case Err(e) => Err(e)
        case Ok(data) => Ok(front + [data])
  }

  function PrepareRetry(wf: Workflow, finished: bool, rec: Record): Result<Record, RetryError> {
    if finished then Err(AlreadySucceeded)
    else
      match FirstNodeNamed(wf.nodes, rec.last)
      case None => Err(StartNodeNotFound)
      case Some(node) =>
        if node.name !in rec.sources then Err(SourceNotFound)
        else
          match InputsFrom(rec.waiting, rec.sources[node.name])
          case Err(e) => Err(e)
          case Ok(inputs) =>
            Ok(rec.(error := "", runData := DropFailedResult(rec), stack := [StackEntry(node, inputs)] + rec.stack))
  }

  /** The search for the node that was executed last. */
  method FindNode(nodes: seq<Node>, name: string) returns (node: Option<Node>)
    ensures node == FirstNodeNamed(nodes, name)
  {
    for n := 0 to |nodes|
      invariant FirstNodeNamed(nodes, name) == FirstNodeNamed(nodes[n..], name)
    {
      if nodes[n].name == name {
        return Some(nodes[n]);
      }
    }
    node := None;
  }

  /** The loop that collects the input of the failed node from the recorded outputs. */
  method CollectInputs(waiting: map<string, seq<NodeData>>, sources: seq<Source>)
      returns (r: Result<seq<NodeData>, RetryError>)
    ensures r == InputsFrom(waiting, sources)
  {
    var inputs := [];
    for i := 0 to |sources|
      invariant InputsFrom(waiting, sources[..i]) == Ok(inputs)
    {
      assert sources[..i + 1][..i] == sources[..i];
      var input := InputFrom(waiting, sources[i]);
      if input.Err? {
        InputsFromFails(waiting, sources, i + 1);
        return Err(input.error);
      }
      inputs := inputs + [input.value];
    }
    assert sources[..|sources|] == sources;
    r := Ok(inputs);
  }

  /** Remove the last result of the failed node. */
  method RemoveFailedResult(loaded: Record) returns (rec: Record)
    ensures rec == loaded.(error := "", runData := DropFailedResult(loaded))
  {
    rec := loaded.(error := "");
    var list := if rec.last in rec.runData then rec.runData[rec.last] else [];
    if |list| > 0 && list[|list| - 1].error.Some? {
      rec := rec.(runData := rec.runData[rec.last := list[..|list| - 1]]);
    }
  }

  /** The handler, updating the loaded execution data step by step. */
  method RetryWorkflowExecution(wf: Workflow, finished: bool, loaded: Record) returns (r: Result<Record, RetryError>)
    ensures r == PrepareRetry(wf, finished, loaded)
  {
    if finished {
      return Err(AlreadySucceeded);
    }
    var rec := RemoveFailedResult(loaded);
    var startNode := FindNode(wf.nodes, rec.last);
    if startNode.None? {
      return Err(StartNodeNotFound);
    }
    if startNode.value.name !in rec.sources {
      return Err(SourceNotFound);
    }
    var inputs := CollectInputs(rec.waiting, rec.sources[startNode.value.name]);
    if inputs.Err? {
      return Err(inputs.error);
    }
    r := Ok(rec.(stack := [StackEntry(startNode.value, inputs.value)] + rec.stack));
  }

  lemma {:induction false} InputsFromFails(waiting: map<string, seq<NodeData>>, sources: seq<Source>, n: nat)
    requires n <= |sources| && InputsFrom(waiting, sources[..n]).Err?
    ensures InputsFrom(waiting, sources) == InputsFrom(waiting, sources[..n])
    decreases |sources| - n
  {
    if n < |sources| {
      assert sources[..n + 1][..n] == sources[..n];
      InputsFromFails(waiting, sources, n + 1);
    } else {
      assert sources[..n] == sources;
    }
  }

  // ----- what is refused, and what a retry starts with -----

  predicate IsFirstNamed(nodes: seq<Node>, name: string, i: int) {
    0 <= i < |nodes| && nodes[i].name == name && forall k :: 0 <= k < i ==> nodes[k].name != name
  }

  lemma {:induction false} FirstNodeMeaning(nodes: seq<Node>, name: string)
    ensures FirstNodeNamed(nodes, name) == None <==> forall i :: 0 <= i < |nodes| ==> nodes[i].name != name
    ensures FirstNodeNamed(nodes, name) != None ==>
              exists i :: IsFirstNamed(nodes, name, i) && FirstNodeNamed(nodes, name) == Some(nodes[i])
  {
    if nodes == [] {
    } else if nodes[0].name == name {
      assert IsFirstNamed(nodes, name, 0);
    } else {
      var rest := nodes[1..];
      FirstNodeMeaning(rest, name);
      assert forall i :: 0 < i < |nodes| ==> nodes[i] == rest[i - 1];
      if FirstNodeNamed(rest, name) != None {
        var i :| IsFirstNamed(rest, name, i) && FirstNodeNamed(rest, name) == Some(rest[i]);
        assert IsFirstNamed(nodes, name, i + 1);
      }
    }
  }

  /** The source is on record with outputs, but not with the one that is wired. */
  predicate IsShort(waiting: map<string, seq<NodeData>>, source: Source) {
    source.node in waiting && waiting[source.node] != [] && |waiting[source.node]| <= source.output
  }

  /** A source without recorded outputs gives the empty list, any other its wired output. */
  predicate IsInput(waiting: map<string, seq<NodeData>>, source: Source, data: NodeData) {
    if source.node !in waiting || waiting[source.node] == [] then data == Items([])
    else source.output < |waiting[source.node]| && data == waiting[source.node][source.output]
  }

  ghost predicate AreInputs(waiting: map<string, seq<NodeData>>, sources: seq<Source>, inputs: seq<NodeData>) {
    |inputs| == |sources| && forall k :: 0 <= k < |sources| ==> IsInput(waiting, sources[k], inputs[k])
  }

  lemma {:induction false} InputsMeaning(waiting: map<string, seq<NodeData>>, sources: seq<Source>)
    ensures var r := InputsFrom(waiting, sources);
      && (r == Err(OutputsInconsistent) <==> exists k :: 0 <= k < |sources| && IsShort(waiting, sources[k]))
      && (r != Err(OutputsInconsistent) ==> r.Ok? && AreInputs(waiting, sources, r.value))
  {
    if sources == [] {
    } else {
      var n := |sources| - 1;
      InputsMeaning(waiting, sources[..n]);
      assert forall k :: 0 <= k < n ==> sources[..n][k] == sources[k];
      assert IsShort(waiting, sources[n]) <==> InputFrom(waiting, sources[n]).Err?;
    }
  }

  /** The last result of the failed node is gone if it carries an error; all other results stay. */
  predicate LosesFailure(rec: Record, runData: RunData) {
    if rec.last in rec.runData && rec.runData[rec.last] != []
       && rec.runData[rec.last][|rec.runData[rec.last]| - 1].error != None
    then
      && runData.Keys == rec.runData.Keys
      && runData[rec.last] == rec.runData[rec.last][..|rec.runData[rec.last]| - 1]
      && forall name :: name in runData && name != rec.last ==> runData[name] == rec.runData[name]
    else runData == rec.runData
  }

  /** What a retry starts with: the failed node on its recorded inputs, before what was pending. */
  ghost predicate IsPrepared(wf: Workflow, rec: Record, r: Record) {
    && (exists i, inputs ::
          && IsFirstNamed(wf.nodes, rec.last, i) && rec.last in rec.sources
          && AreInputs(rec.waiting, rec.sources[rec.last], inputs)
          && r.stack == [StackEntry(wf.nodes[i], inputs)] + rec.stack)
    && r.waiting == rec.waiting && r.sources == rec.sources && r.last == rec.last && r.error == ""
    && LosesFailure(rec, r.runData)
  }

  /** Every answer to a retry request, with the condition under which it is given. */
  lemma RetryMeaning(wf: Workflow, finished: bool, rec: Record)
    ensures var r := PrepareRetry(wf, finished, rec);
            var known := exists i :: IsFirstNamed(wf.nodes, rec.last, i);
            var short := rec.last in rec.sources
              && exists k :: 0 <= k < |rec.sources[rec.last]| && IsShort(rec.waiting, rec.sources[rec.last][k]);
      && (r == Err(AlreadySucceeded) <==> finished)
      && (r == Err(StartNodeNotFound) <==> !finished && !known)
      && (r == Err(SourceNotFound) <==> !finished && known && rec.last !in rec.sources)
      && (r == Err(OutputsInconsistent) <==> !finished && known && short)
      && (r.Ok? ==> IsPrepared(wf, rec, r.value))
  {
    FirstNodeMeaning(wf.nodes, rec.last);
    if node :| FirstNodeNamed(wf.nodes, rec.last) == Some(node) {
      if rec.last in rec.sources {
        InputsMeaning(rec.waiting, rec.sources[rec.last]);
        var inputs := InputsFrom(rec.waiting, rec.sources[rec.last]);
        if inputs.Ok? && !finished {
          var i :| IsFirstNamed(wf.nodes, rec.last, i) && node == wf.nodes[i];
          assert PrepareRetry(wf, finished, rec).value.stack == [StackEntry(wf.nodes[i], inputs.value)] + rec.stack;
        }
      }
    }
  }

  /** The run state a stored record continues from. */
  function Resumed(rec: Record): State {
    State(rec.stack, rec.waiting, rec.sources, rec.runData, rec.error, rec.last, Running, rec, [], 0)
  }

  // ----- forests: one way to reach each node -----

  ghost predicate HasChild(wf: Workflow, a: string, c: string) {
    exists o, j ::
      0 <= o < |SlotsOf(wf.connections, a, "main")| && 0 <= j < |SlotsOf(wf.connections, a, "main")[o]|
      && SlotsOf(wf.connections, a, "main")[o][j].node == c
  }

  ghost predicate HasParent(wf: Workflow, c: string) {
    exists a :: HasChild(wf, a, c)
  }

  /** Two main connections never lead to the same node. */
  ghost predicate OneSource(wf: Workflow) {
    forall s, o, j, s', o', j' ::
      0 <= o < |SlotsOf(wf.connections, s, "main")| && 0 <= j < |SlotsOf(wf.connections, s, "main")[o]| &&
      0 <= o' < |SlotsOf(wf.connections, s', "main")| && 0 <= j' < |SlotsOf(wf.connections, s', "main")[o']| &&
      SlotsOf(wf.connections, s, "main")[o][j].node == SlotsOf(wf.connections, s', "main")[o'][j'].node ==>
        s == s' && o == o' && j == j'
  }

  /** Main inputs are fed by main outputs only. */
  ghost predicate MainOnly(wf: Workflow) {
    forall s, c, o: nat, d, i: nat :: Edge(wf.connections, s, c, o, d, "main", i) ==> c == "main"
  }

  ghost predicate UniqueNames(nodes: seq<Node>) {
    forall i, j :: 0 <= i < j < |nodes| ==> nodes[i].name != nodes[j].name
  }

  /** Acyclic, nothing disabled, and every connected node has exactly one incoming connection. */
  ghost predicate Forest(wf: Workflow, rank: string -> nat) {
    && Ranked(wf, rank) && OneSource(wf) && MainOnly(wf) && WellConnected(wf) && UniqueNames(wf.nodes)
    && forall n :: n in wf.nodes ==> !n.disabled
  }

  lemma ChildRank(wf: Workflow, rank: string -> nat, a: string, c: string)
    requires Ranked(wf, rank) && HasChild(wf, a, c)
    ensures rank(c) < rank(a)
  {
  }

  ghost predicate Reaches(wf: Workflow, rank: string -> nat, a: string, b: string)
    requires Ranked(wf, rank)
    decreases rank(a)
  {
    a == b || exists c :: HasChild(wf, a, c) && Reaches(wf, rank, c, b)
  }

  lemma {:induction false} ReachesBelow(wf: Workflow, rank: string -> nat, a: string, b: string)
    requires Ranked(wf, rank) && Reaches(wf, rank, a, b) && a != b
    ensures rank(b) < rank(a) && HasParent(wf, b)
    decreases rank(a)
  {
    var c :| HasChild(wf, a, c) && Reaches(wf, rank, c, b);
    if c != b {
      ReachesBelow(wf, rank, c, b);
    }
  }

  /** Whatever reaches a node from above reaches it through its only parent. */
  lemma {:induction false} ReachesParent(wf: Workflow, rank: string -> nat, a: string, p: string, c: string)
    requires Ranked(wf, rank) && OneSource(wf) && HasChild(wf, p, c) && Reaches(wf, rank, a, c) && a != c
    ensures Reaches(wf, rank, a, p)
    decreases rank(a)
  {
    var d :| HasChild(wf, a, d) && Reaches(wf, rank, d, c);
    if d != c {
      ReachesParent(wf, rank, d, p, c);
    }
  }

  lemma {:induction false} ReachesChild(wf: Workflow, rank: string -> nat, a: string, c: string, b: string)
    requires Ranked(wf, rank) && HasChild(wf, a, c) && Reaches(wf, rank, c, b)
    ensures Reaches(wf, rank, a, b)
  {
  }
}
