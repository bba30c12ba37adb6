/** In a forest, retrying a failed run continues exactly where it stopped. */
module FaithfulRetry {
  import opened JsonValues
  import opened Graph
  import opened Execution
  import opened Iteration
  import opened Workflows
  import opened Termination
  import opened RunHistory
  import opened Traversal
  import opened Retry

  // ----- scheduling in a forest -----

  /** Only the last input slot is wired, by this one connection. */
  ghost predicate WiredOnce(slots: Slots, conn: Connection) {
    && slots != []
    && slots[|slots| - 1] == [conn]
    && forall i :: 0 <= i < |slots| - 1 ==> slots[i] == []
  }

  lemma DistinctOnce<T>(slot: seq<T>, j: nat)
    requires j < |slot| && forall i :: 0 <= i < |slot| && i != j ==> slot[i] != slot[j]
    ensures multiset(slot)[slot[j]] == 1
  {
    assert slot == slot[..j] + [slot[j]] + slot[j + 1..];
    assert slot[j] !in slot[..j] && slot[j] !in slot[j + 1..];
  }

  lemma SingletonOf(slot: seq<Connection>, conn: Connection)
    requires forall k: Connection :: multiset(slot)[k] == if k == conn then 1 else 0
    ensures slot == [conn]
  {
    assert multiset(slot) == multiset{conn};
    assert |slot| == |multiset(slot)| == 1;
    assert slot[0] in multiset(slot);
  }

  lemma EmptyOf(slot: seq<Connection>)
    requires forall k: Connection :: multiset(slot)[k] == 0
    ensures slot == []
  {
    assert slot == [] || multiset(slot)[slot[0]] > 0;
  }

  /** How often an output of a forest is wired to main input `i` of the node `c` leads to. */
  lemma ForestMultiplicity(wf: Workflow, s: string, o: nat, j: nat, k: Connection, i: nat)
    requires OneSource(wf) && MainOnly(wf) && WellConnected(wf)
    requires o < |SlotsOf(wf.connections, s, "main")| && j < |SlotsOf(wf.connections, s, "main")[o]|
    ensures var c := SlotsOf(wf.connections, s, "main")[o][j];
      Multiplicity(wf.connections, k.node, k.typ, k.index, Connection(c.node, "main", i))
        == if i == c.index && k == Connection(s, "main", o) then 1 else 0
  {
    var g := wf.connections;
    var slot := SlotsOf(g, s, "main")[o];
    var c := slot[j];
    var target := Connection(c.node, "main", i);
    if Multiplicity(g, k.node, k.typ, k.index, target) > 0 {
      assert target in multiset(SlotOf(g, k.node, k.typ, k.index));
      assert Edge(g, k.node, k.typ, k.index, c.node, "main", i);
      var j' :| 0 <= j' < |SlotOf(g, k.node, "main", k.index)| && SlotOf(g, k.node, "main", k.index)[j'] == target;
      assert SlotsOf(g, k.node, "main")[k.index][j'].node == SlotsOf(g, s, "main")[o][j].node;
      assert k.node == s && k.index == o && j' == j;
    }
    DistinctOnce(slot, j);
    assert SlotOf(g, s, "main", o) == slot && c == Connection(c.node, "main", c.index);
  }

  lemma ForestInputs(env: Env, range: nat, s: string, o: nat, j: nat)
    requires ValidEnv(env) && OneSource(env.workflow) && MainOnly(env.workflow) && WellConnected(env.workflow)
    requires o < |MainOutputs(env, s)| && j < |MainOutputs(env, s)[o]|
    ensures WiredOnce(MainInputs(env, range, MainOutputs(env, s)[o][j].node), Connection(s, "main", o))
  {
    var g, order := env.workflow.connections, env.order(range);
    var c := MainOutputs(env, s)[o][j];
    var slots := MainInputs(env, range, c.node);
    forall i: nat, k: Connection
      ensures Multiplicity(Inverse(g, order), c.node, "main", i, k)
        == if i == c.index && k == Connection(s, "main", o) then 1 else 0
    {
      ForestMultiplicity(env.workflow, s, o, j, k, i);
      ExactInversion(g, order, k.node, k.typ, k.index, c.node, "main", i);
    }
    var inv := Inverse(g, order);
    assert Multiplicity(inv, c.node, "main", c.index, Connection(s, "main", o)) == 1;
    assert c.index < |slots|;
    InverseTight(g, order);
    forall i: nat | i < |slots|
      ensures slots[i] == if i == c.index then [Connection(s, "main", o)] else []
    {
      assert slots[i] == SlotOf(inv, c.node, "main", i);
      assert forall k: Connection :: multiset(slots[i])[k] == Multiplicity(inv, c.node, "main", i, k);
      if i == c.index {
        SingletonOf(slots[i], Connection(s, "main", o));
      } else {
        EmptyOf(slots[i]);
      }
    }
  }

  lemma {:induction false} GatherWiredOnce(s: State, node: Node, slots: Slots, conn: Connection, inputs: seq<NodeData>)
    requires WiredOnce(slots, conn) && conn.node in s.waiting && conn.index < |s.waiting[conn.node]|
    ensures Gather(s, node, slots, inputs)
         == Push(s.(sources := AddSource(s.sources, node.name, Source(conn.node, conn.index))),
                 StackEntry(node, inputs + [s.waiting[conn.node][conn.index]]))
    decreases |slots|
  {
    if |slots| > 1 {
      GatherWiredOnce(s, node, slots[1..], conn, inputs);
    } else {
      assert slots[1..] == [];
    }
  }

  /** A list of nodes to add that comes from the outputs of `from`, each node wired once. */
  ghost predicate WiredList(env: Env, s: State, from: string, list: seq<NodeToAdd>) {
    && from in s.waiting
    && (forall i :: 0 <= i < |list| ==>
          && list[i].outputIndex < |s.waiting[from]| && list[i].data == s.waiting[from][list[i].outputIndex]
          && list[i].node.name !in s.sources)
    && (forall k: nat, i :: 0 <= i < |list| ==>
          WiredOnce(MainInputs(env, k, list[i].node.name), Connection(from, "main", list[i].outputIndex)))
    && (forall i, j :: 0 <= i < j < |list| ==> list[i].node.name != list[j].node.name)
  }

  /** The sources noted for the listed nodes. */
  function NoteSources(sources: map<string, seq<Source>>, from: string, list: seq<NodeToAdd>): map<string, seq<Source>>
    decreases |list|
  {
    if list == [] then sources
    else NoteSources(sources[list[0].node.name := [Source(from, list[0].outputIndex)]], from, list[1..])
  }

  lemma {:induction false} NoteSourcesAt(
      sources: map<string, seq<Source>>, from: string, list: seq<NodeToAdd>, name: string)
    requires forall i, j :: 0 <= i < j < |list| ==> list[i].node.name != list[j].node.name
    ensures forall i :: 0 <= i < |list| && list[i].node.name == name ==>
      && name in NoteSources(sources, from, list)
      && NoteSources(sources, from, list)[name] == [Source(from, list[i].outputIndex)]
    ensures (forall i :: 0 <= i < |list| ==> list[i].node.name != name) ==>
      && (name in NoteSources(sources, from, list) <==> name in sources)
      && (name in sources ==> NoteSources(sources, from, list)[name] == sources[name])
    decreases |list|
  {
    if list == [] {
    } else {
      NoteSourcesAt(sources[list[0].node.name := [Source(from, list[0].outputIndex)]], from, list[1..], name);
    }
  }

  lemma AddNodeWired(env: Env, s: State, from: string, t: NodeToAdd)
    requires WiredOnce(MainInputs(env, s.ranges, t.node.name), Connection(from, "main", t.outputIndex))
    requires from in s.waiting && t.outputIndex < |s.waiting[from]| && t.data == s.waiting[from][t.outputIndex]
    requires t.node.name !in s.sources
    ensures AddNode(env, s, from, t)
         == s.(stack := [StackEntry(t.node, [t.data])] + s.stack,
               sources := s.sources[t.node.name := [Source(from, t.outputIndex)]],
               ranges := s.ranges + 1)
  {
    var conn := Connection(from, "main", t.outputIndex);
    var slots := MainInputs(env, s.ranges, t.node.name);
    GatherWiredOnce(s.(ranges := s.ranges + 1), t.node, slots, conn, []);
    assert [] + [t.data] == [t.data] && [] + [Source(from, t.outputIndex)] == [Source(from, t.outputIndex)];
  }

  lemma WiredListTail(env: Env, s: State, r: State, from: string, list: seq<NodeToAdd>)
    requires WiredList(env, s, from, list) && list != []
    requires r.waiting == s.waiting
    requires r.sources == s.sources[list[0].node.name := [Source(from, list[0].outputIndex)]]
    ensures WiredList(env, r, from, list[1..])
  {
    var rest := list[1..];
    assert forall i :: 0 <= i < |rest| ==> rest[i] == list[i + 1];
    forall i | 0 <= i < |rest|
      ensures rest[i].node.name !in r.sources
    {
      assert list[0].node.name != list[i + 1].node.name;
    }
  }

  /** Scheduling a wired list pushes every node with its one input, and notes exactly its one source. */
  lemma {:induction false} AddNodesWired(env: Env, s: State, from: string, list: seq<NodeToAdd>)
    requires s.outcome.Running? && WiredList(env, s, from, list)
    ensures AddNodes(env, s, from, list)
         == s.(stack := Reverse(Entries(list)) + s.stack,
               sources := NoteSources(s.sources, from, list),
               ranges := s.ranges + |list|)
    decreases |list|
  {
    if list == [] {
      assert Reverse(Entries(list)) + s.stack == s.stack;
    } else {
      AddNodeWired(env, s, from, list[0]);
      var r := AddNode(env, s, from, list[0]);
      WiredListTail(env, s, r, from, list);
      AddNodesWired(env, r, from, list[1..]);
      StackAfterPush(list, s.stack);
    }
  }

  // ----- the successors of a node in a forest form such a list -----

  lemma OneOrigin(wf: Workflow, slots: Slots, outputs: seq<NodeData>, t: Target) returns (o: nat, j: nat)
    requires t in Targets(wf, slots, outputs, false)
    ensures o < |slots| && j < |slots[o]| && t.node == NodeByName(wf.nodes, slots[o][j].node)
  {
    TargetsAre(wf, slots, outputs, false, t);
    o, j :| o < |slots| && j < |slots[o]| && t.node == NodeByName(wf.nodes, slots[o][j].node);
  }

  /** Two listed targets come from two different connections. */
  lemma {:induction false} TwoOrigins(wf: Workflow, slots: Slots, outputs: seq<NodeData>, a: nat, b: nat)
      returns (o: nat, j: nat, o': nat, j': nat)
    requires a < b < |Targets(wf, slots, outputs, false)|
    ensures o < |slots| && j < |slots[o]| && o' < |slots| && j' < |slots[o']| && (o != o' || j != j')
    ensures Targets(wf, slots, outputs, false)[a].node == NodeByName(wf.nodes, slots[o][j].node)
    ensures Targets(wf, slots, outputs, false)[b].node == NodeByName(wf.nodes, slots[o'][j'].node)
    decreases |slots|
  {
    var n := |slots| - 1;
    var targets, front := Targets(wf, slots, outputs, false), Targets(wf, slots[..n], outputs, false);
    if b < |front| {
      assert targets[a] == front[a] && targets[b] == front[b];
      o, j, o', j' := TwoOrigins(wf, slots[..n], outputs, a, b);
    } else {
      o', j' := n, b - |front|;
      assert targets[b] == SlotTargets(wf, slots[n], outputs[n], n)[j'];
      if a < |front| {
        assert targets[a] == front[a] && front[a] in front;
        o, j := OneOrigin(wf, slots[..n], outputs, front[a]);
      } else {
        o, j := n, a - |front|;
        assert targets[a] == SlotTargets(wf, slots[n], outputs[n], n)[j];
      }
    }
  }

  lemma TargetsDistinct(wf: Workflow, name: string, outputs: seq<NodeData>, a: nat, b: nat)
    requires OneSource(wf) && AllExist(Targets(wf, SlotsOf(wf.connections, name, "main"), outputs, false))
    requires a < b < |Targets(wf, SlotsOf(wf.connections, name, "main"), outputs, false)|
    ensures var targets := Targets(wf, SlotsOf(wf.connections, name, "main"), outputs, false);
      targets[a].node.value.name != targets[b].node.value.name
  {
    var slots := SlotsOf(wf.connections, name, "main");
    var o, j, o', j' := TwoOrigins(wf, slots, outputs, a, b);
    NodeByNameFound(wf.nodes, slots[o][j].node);
    NodeByNameFound(wf.nodes, slots[o'][j'].node);
  }

  lemma OccursTwice<T>(s: seq<T>, i: nat, j: nat)
    requires i < j < |s| && s[i] == s[j]
    ensures multiset(s)[s[i]] >= 2
  {
    assert s == s[..j] + [s[j]] + s[j + 1..];
    assert s[..j][i] == s[i] && s[i] in multiset(s[..j]);
  }

  lemma PermutationDistinct(a: seq<NodeToAdd>, b: seq<NodeToAdd>)
    requires multiset(a) == multiset(b)
    requires forall i, j :: 0 <= i < j < |a| ==> a[i].node.name != a[j].node.name
    ensures forall i, j :: 0 <= i < j < |b| ==> b[i].node.name != b[j].node.name
  {
    forall i, j | 0 <= i < j < |b|
      ensures b[i].node.name != b[j].node.name
    {
      if b[i].node.name == b[j].node.name {
        assert b[i] in multiset(a) && b[j] in multiset(a);
        var k :| 0 <= k < |a| && a[k] == b[i];
        var m :| 0 <= m < |a| && a[m] == b[j];
        assert k == m;
        DistinctOnce(a, k);
        OccursTwice(b, i, j);
        assert false;
      }
    }
  }

  /** A listed successor: where it comes from, and how it is wired in every iteration order. */
  lemma ChildWired(env: Env, rank: string -> nat, name: string, outputs: seq<NodeData>, t: NodeToAdd)
    requires ValidEnv(env) && Forest(env.workflow, rank)
    requires AllExist(Targets(env.workflow, MainOutputs(env, name), outputs, false))
    requires t in Resolved(Targets(env.workflow, MainOutputs(env, name), outputs, false))
    ensures t.outputIndex < |outputs| && t.data == outputs[t.outputIndex]
    ensures HasChild(env.workflow, name, t.node.name)
    ensures forall k: nat :: WiredOnce(MainInputs(env, k, t.node.name), Connection(name, "main", t.outputIndex))
  {
    var slots := MainOutputs(env, name);
    var targets := Targets(env.workflow, slots, outputs, false);
    var m :| 0 <= m < |targets| && Resolved(targets)[m] == t;
    TargetsAre(env.workflow, slots, outputs, false, targets[m]);
    var o, j :| 0 <= o < |slots| && 0 <= j < |slots[o]| && Live(outputs, o, false)
      && targets[m] == Target(NodeByName(env.workflow.nodes, slots[o][j].node), outputs[o], o);
    NodeByNameFound(env.workflow.nodes, slots[o][j].node);
    forall k: nat
      ensures WiredOnce(MainInputs(env, k, t.node.name), Connection(name, "main", o))
    {
      ForestInputs(env, k, name, o, j);
    }
  }

  lemma ChildrenWired(env: Env, rank: string -> nat, s: State, name: string, outputs: seq<NodeData>)
    requires ValidEnv(env) && Forest(env.workflow, rank)
    requires name in s.waiting && s.waiting[name] == outputs
    requires forall c :: HasChild(env.workflow, name, c) ==> c !in s.sources
    ensures Sortable(Targets(env.workflow, MainOutputs(env, name), outputs, false))
    ensures WiredList(env, s, name, env.sort(Resolved(Targets(env.workflow, MainOutputs(env, name), outputs, false))))
  {
    var slots := MainOutputs(env, name);
    var targets := Targets(env.workflow, slots, outputs, false);
    TargetsSortable(env, name, outputs, false);
    var list := env.sort(Resolved(targets));
    SortedMembers(env, Resolved(targets));
    forall a, b | 0 <= a < b < |targets|
      ensures targets[a].node.value.name != targets[b].node.value.name
    {
      TargetsDistinct(env.workflow, name, outputs, a, b);
    }
    PermutationDistinct(Resolved(targets), list);
    forall i | 0 <= i < |list|
      ensures list[i].outputIndex < |outputs| && list[i].data == outputs[list[i].outputIndex]
      ensures list[i].node.name !in s.sources
      ensures forall k: nat ::
        WiredOnce(MainInputs(env, k, list[i].node.name), Connection(name, "main", list[i].outputIndex))
    {
      assert list[i] in list;
      ChildWired(env, rank, name, outputs, list[i]);
    }
  }

  // ----- what every state of a run over a forest keeps -----

  /** Pending entries lie in disjoint subtrees, so only descendants of P run between P and a child of P. */
  ghost predicate Disjoint(wf: Workflow, rank: string -> nat, stack: seq<StackEntry>)
    requires Ranked(wf, rank)
  {
    forall i, j :: 0 <= i < |stack| && 0 <= j < |stack| && i != j ==>
      !Reaches(wf, rank, stack[i].node.name, stack[j].node.name)
  }

  /** Nothing at or below a pending entry has run. */
  ghost predicate NotRun(wf: Workflow, rank: string -> nat, s: State)
    requires Ranked(wf, rank)
  {
    forall i, n :: 0 <= i < |s.stack| && n in s.waiting ==> !Reaches(wf, rank, s.stack[i].node.name, n)
  }

  /** The noted source of a pending entry still holds its input. */
  ghost predicate SourceKept(wf: Workflow, s: State, entry: StackEntry) {
    var name := entry.node.name;
    HasParent(wf, name) ==>
      exists p, o: nat ::
        && HasChild(wf, p, name) && name in s.sources && s.sources[name] == [Source(p, o)]
        && p in s.waiting && o < |s.waiting[p]| && entry.inputs == [s.waiting[p][o]]
  }

  ghost predicate OnStack(stack: seq<StackEntry>, name: string) {
    exists i :: 0 <= i < |stack| && stack[i].node.name == name
  }

  /** Sources are noted for connected nodes only, and not before they are pending. */
  ghost predicate Noted(wf: Workflow, s: State) {
    forall name :: name in s.sources ==> HasParent(wf, name) && (name in s.waiting || OnStack(s.stack, name))
  }

  ghost predicate ForestInv(wf: Workflow, rank: string -> nat, s: State)
    requires Ranked(wf, rank)
  {
    && Disjoint(wf, rank, s.stack)
    && NotRun(wf, rank, s)
    && Noted(wf, s)
    && (forall i :: 0 <= i < |s.stack| ==> s.stack[i].node in wf.nodes && SourceKept(wf, s, s.stack[i]))
  }

  lemma ChildrenNotNoted(wf: Workflow, rank: string -> nat, s: State, c: string)
    requires Ranked(wf, rank) && ForestInv(wf, rank, s) && s.stack != []
    requires HasChild(wf, s.stack[0].node.name, c)
    ensures c !in s.sources
  {
    ChildRank(wf, rank, s.stack[0].node.name, c);
    assert Reaches(wf, rank, c, c);
    assert Reaches(wf, rank, s.stack[0].node.name, c);
  }

  /** What the popped node's successors are, and how they are scheduled. */
  ghost function Listed(env: Env, name: string, outputs: seq<NodeData>): seq<NodeToAdd>
  {
    var targets := Targets(env.workflow, MainOutputs(env, name), outputs, false);
    if Sortable(targets) then env.sort(Resolved(targets)) else []
  }

  function AfterSuccess(ran: State, name: string, list: seq<NodeToAdd>): State {
    ran.(stack := Reverse(Entries(list)) + ran.stack,
         sources := NoteSources(ran.sources, name, list),
         ranges := ran.ranges + |list|)
  }

  /** The run state after the popped node was executed, before its successors are scheduled. */
  function Ran(env: Env, s: State): State
    requires s.stack != []
  {
    RecordRun(Pop(s), s.stack[0], RunNode(env, s.stack[0], s.runData))
  }

  lemma ListedWired(env: Env, rank: string -> nat, s: State)
    requires ValidEnv(env) && Forest(env.workflow, rank) && ForestInv(env.workflow, rank, s) && s.stack != []
    ensures var name := s.stack[0].node.name;
      var ran := Ran(env, s);
      && Sortable(Targets(env.workflow, MainOutputs(env, name), ran.waiting[name], false))
      && WiredList(env, ran, name, Listed(env, name, ran.waiting[name]))
  {
    var name := s.stack[0].node.name;
    var ran := Ran(env, s);
    forall c | HasChild(env.workflow, name, c)
      ensures c !in ran.sources
    {
      ChildrenNotNoted(env.workflow, rank, s, c);
    }
    ChildrenWired(env, rank, ran, name, ran.waiting[name]);
  }

  lemma ForestStep(env: Env, rank: string -> nat, s: State)
    requires ValidEnv(env) && Forest(env.workflow, rank) && ForestInv(env.workflow, rank, s) && !Halted(s)
    ensures var name := s.stack[0].node.name;
      var task := RunNode(env, s.stack[0], s.runData);
      Step(env, s) == if task.status == Success
        then AfterSuccess(Ran(env, s), name, Listed(env, name, task.main))
        else Ran(env, s).(outcome := Stopped)
  {
    var name := s.stack[0].node.name;
    var task := RunNode(env, s.stack[0], s.runData);
    assert s.stack[0].node in env.workflow.nodes;
    if task.status == Success {
      ListedWired(env, rank, s);
      AddNodesWired(env, Ran(env, s), name, Listed(env, name, task.main));
    }
  }

  /** Facts about the entries pushed for the listed nodes. */
  lemma PushedEntries(env: Env, name: string, outputs: seq<NodeData>, list: seq<NodeToAdd>, i: nat)
    requires IsSorter(env.sort) && list == Listed(env, name, outputs) && i < |list|
    ensures HasChild(env.workflow, name, list[i].node.name) && list[i].node in env.workflow.nodes
  {
    var k := |list| - 1 - i;
    assert Children(env, name, outputs, false) == Reverse(Entries(list));
    ChildrenAre(env, name, outputs, false, k);
    var o, j :| 0 <= o < |MainOutputs(env, name)| && 0 <= j < |MainOutputs(env, name)[o]|
      && NodeByName(env.workflow.nodes, MainOutputs(env, name)[o][j].node)
           == Some(Children(env, name, outputs, false)[k].node);
    NodeByNameFound(env.workflow.nodes, MainOutputs(env, name)[o][j].node);
  }

  lemma ChildrenApart(wf: Workflow, rank: string -> nat, name: string, c: string, m: string)
    requires Ranked(wf, rank) && OneSource(wf) && HasChild(wf, name, c)
    requires !Reaches(wf, rank, name, m) && !Reaches(wf, rank, m, name)
    ensures !Reaches(wf, rank, c, m) && !Reaches(wf, rank, m, c)
  {
    assert Reaches(wf, rank, c, c);
    if Reaches(wf, rank, m, c) && m != c {
      ReachesParent(wf, rank, m, name, c);
    }
  }

  lemma SiblingsApart(wf: Workflow, rank: string -> nat, name: string, c: string, c': string)
    requires Ranked(wf, rank) && OneSource(wf) && HasChild(wf, name, c) && HasChild(wf, name, c') && c != c'
    ensures !Reaches(wf, rank, c, c')
  {
    if Reaches(wf, rank, c, c') {
      ReachesParent(wf, rank, c, name, c');
      ChildRank(wf, rank, name, c);
      ReachesBelow(wf, rank, c, name);
    }
  }

  lemma DisjointAfter(wf: Workflow, rank: string -> nat, stack: seq<StackEntry>, pushed: seq<StackEntry>)
    requires Ranked(wf, rank) && OneSource(wf) && stack != [] && Disjoint(wf, rank, stack)
    requires forall i :: 0 <= i < |pushed| ==> HasChild(wf, stack[0].node.name, pushed[i].node.name)
    requires forall i, j :: 0 <= i < j < |pushed| ==> pushed[i].node.name != pushed[j].node.name
    ensures Disjoint(wf, rank, pushed + stack[1..])
  {
    var all, name, n := pushed + stack[1..], stack[0].node.name, |pushed|;
    forall i, j | 0 <= i < |all| && 0 <= j < |all| && i != j
      ensures !Reaches(wf, rank, all[i].node.name, all[j].node.name)
    {
      if i < n && j < n {
        SiblingsApart(wf, rank, name, pushed[i].node.name, pushed[j].node.name);
      } else if i < n {
        ChildrenApart(wf, rank, name, pushed[i].node.name, stack[j - n + 1].node.name);
      } else if j < n {
        ChildrenApart(wf, rank, name, pushed[j].node.name, stack[i - n + 1].node.name);
      } else {
        assert all[i] == stack[i - n + 1] && all[j] == stack[j - n + 1];
      }
    }
  }

  lemma NotRunAfter(wf: Workflow, rank: string -> nat, s: State, r: State, pushed: seq<StackEntry>)
    requires Ranked(wf, rank) && s.stack != [] && Disjoint(wf, rank, s.stack) && NotRun(wf, rank, s)
    requires forall i :: 0 <= i < |pushed| ==> HasChild(wf, s.stack[0].node.name, pushed[i].node.name)
    requires r.stack == pushed + s.stack[1..]
    requires r.waiting.Keys == s.waiting.Keys + {s.stack[0].node.name}
    ensures NotRun(wf, rank, r)
  {
    var name := s.stack[0].node.name;
    forall i, n | 0 <= i < |r.stack| && n in r.waiting
      ensures !Reaches(wf, rank, r.stack[i].node.name, n)
    {
      if i < |pushed| {
        var c := pushed[i].node.name;
        if Reaches(wf, rank, c, n) {
          ReachesChild(wf, rank, name, c, n);
          ChildRank(wf, rank, name, c);
          if n == name {
            ReachesBelow(wf, rank, c, name);
          }
        }
      } else {
        assert r.stack[i] == s.stack[i - |pushed| + 1];
      }
    }
  }

  lemma PendingIsNoChild(wf: Workflow, rank: string -> nat, stack: seq<StackEntry>, i: nat)
    requires Ranked(wf, rank) && Disjoint(wf, rank, stack) && 0 < i < |stack|
    ensures !HasChild(wf, stack[0].node.name, stack[i].node.name)
  {
    var name, m := stack[0].node.name, stack[i].node.name;
    assert Reaches(wf, rank, m, m);
    if HasChild(wf, name, m) {
      ReachesChild(wf, rank, name, m, m);
    }
  }

  /** A pending entry that is not the popped one keeps its source and its input. */
  lemma SourceKeptAfter(env: Env, rank: string -> nat, s: State, ran: State, list: seq<NodeToAdd>, i: nat)
    requires IsSorter(env.sort) && Ranked(env.workflow, rank) && Disjoint(env.workflow, rank, s.stack)
    requires 0 < i < |s.stack| && SourceKept(env.workflow, s, s.stack[i])
    requires ran.sources == s.sources
    requires var name := s.stack[0].node.name;
      && name in ran.waiting && ran.waiting == s.waiting[name := ran.waiting[name]]
      && list == Listed(env, name, ran.waiting[name]) && WiredList(env, ran, name, list)
    ensures SourceKept(env.workflow, AfterSuccess(ran, s.stack[0].node.name, list), s.stack[i])
  {
    var wf, name, m := env.workflow, s.stack[0].node.name, s.stack[i].node.name;
    var r := AfterSuccess(ran, name, list);
    if HasParent(wf, m) {
      var p, o: nat :|
        && HasChild(wf, p, m) && m in s.sources && s.sources[m] == [Source(p, o)]
        && p in s.waiting && o < |s.waiting[p]| && s.stack[i].inputs == [s.waiting[p][o]];
      PendingIsNoChild(wf, rank, s.stack, i);
      forall k | 0 <= k < |list|
        ensures list[k].node.name != m
      {
        PushedEntries(env, name, ran.waiting[name], list, k);
      }
      NoteSourcesAt(s.sources, name, list, m);
      assert r.sources[m] == [Source(p, o)] && r.waiting[p] == s.waiting[p];
    }
  }

  lemma PushedSourceKept(env: Env, ran: State, name: string, list: seq<NodeToAdd>, i: nat)
    requires IsSorter(env.sort) && i < |list|
    requires WiredList(env, ran, name, list) && list == Listed(env, name, ran.waiting[name])
    ensures SourceKept(env.workflow, AfterSuccess(ran, name, list), StackEntry(list[i].node, [list[i].data]))
  {
    PushedEntries(env, name, ran.waiting[name], list, i);
    NoteSourcesAt(ran.sources, name, list, list[i].node.name);
  }

  lemma OldEntryStays(stack: seq<StackEntry>, pushed: seq<StackEntry>, m: string)
    requires stack != []
    ensures OnStack(stack, m) ==> m == stack[0].node.name || OnStack(pushed + stack[1..], m)
  {
    if i :| 0 <= i < |stack| && stack[i].node.name == m {
      if i > 0 {
        assert (pushed + stack[1..])[|pushed| + i - 1] == stack[i];
      }
    }
  }

  lemma PushedOnStack(list: seq<NodeToAdd>, stack: seq<StackEntry>, k: nat)
    requires k < |list|
    ensures OnStack(Reverse(Entries(list)) + stack, list[k].node.name)
  {
    assert (Reverse(Entries(list)) + stack)[|list| - 1 - k] == Entries(list)[k];
  }

  lemma NotedAfter(env: Env, s: State, ran: State, list: seq<NodeToAdd>)
    requires IsSorter(env.sort) && s.stack != [] && Noted(env.workflow, s)
    requires ran.sources == s.sources && ran.stack == s.stack[1..]
    requires var name := s.stack[0].node.name;
      && name in ran.waiting && ran.waiting == s.waiting[name := ran.waiting[name]]
      && list == Listed(env, name, ran.waiting[name]) && WiredList(env, ran, name, list)
    ensures Noted(env.workflow, AfterSuccess(ran, s.stack[0].node.name, list))
  {
    var name := s.stack[0].node.name;
    var r := AfterSuccess(ran, name, list);
    var pushed := Reverse(Entries(list));
    forall m | m in r.sources
      ensures HasParent(env.workflow, m) && (m in r.waiting || OnStack(r.stack, m))
    {
      NoteSourcesAt(s.sources, name, list, m);
      if k :| 0 <= k < |list| && list[k].node.name == m {
        PushedEntries(env, name, ran.waiting[name], list, k);
        PushedOnStack(list, ran.stack, k);
      } else {
        OldEntryStays(s.stack, pushed, m);
      }
    }
  }

  lemma PushedPending(env: Env, ran: State, name: string, list: seq<NodeToAdd>, i: nat)
    requires IsSorter(env.sort) && i < |list|
    requires WiredList(env, ran, name, list) && list == Listed(env, name, ran.waiting[name])
    ensures var entry, r := Reverse(Entries(list))[i], AfterSuccess(ran, name, list);
      entry.node in env.workflow.nodes && SourceKept(env.workflow, r, entry)
  {
    PushedEntries(env, name, ran.waiting[name], list, |list| - 1 - i);
    PushedSourceKept(env, ran, name, list, |list| - 1 - i);
  }

  /** Every pending entry is a workflow node whose source is noted. */
  ghost predicate Pending(wf: Workflow, s: State, stack: seq<StackEntry>) {
    forall i :: 0 <= i < |stack| ==> stack[i].node in wf.nodes && SourceKept(wf, s, stack[i])
  }

  lemma OldPending(env: Env, rank: string -> nat, s: State, ran: State, list: seq<NodeToAdd>)
    requires IsSorter(env.sort) && Ranked(env.workflow, rank) && s.stack != [] && Disjoint(env.workflow, rank, s.stack)
    requires Pending(env.workflow, s, s.stack) && ran.sources == s.sources
    requires var name := s.stack[0].node.name;
      && name in ran.waiting && ran.waiting == s.waiting[name := ran.waiting[name]]
      && list == Listed(env, name, ran.waiting[name]) && WiredList(env, ran, name, list)
    ensures Pending(env.workflow, AfterSuccess(ran, s.stack[0].node.name, list), s.stack[1..])
  {
    forall i | 0 < i < |s.stack|
      ensures SourceKept(env.workflow, AfterSuccess(ran, s.stack[0].node.name, list), s.stack[i])
    {
      SourceKeptAfter(env, rank, s, ran, list, i);
    }
  }

  lemma PendingConcat(wf: Workflow, s: State, a: seq<StackEntry>, b: seq<StackEntry>)
    requires Pending(wf, s, a) && Pending(wf, s, b)
    ensures Pending(wf, s, a + b)
  {
  }

  lemma PendingAfter(env: Env, rank: string -> nat, s: State, ran: State, list: seq<NodeToAdd>)
    requires IsSorter(env.sort) && Ranked(env.workflow, rank) && s.stack != [] && Disjoint(env.workflow, rank, s.stack)
    requires Pending(env.workflow, s, s.stack) && ran.sources == s.sources && ran.stack == s.stack[1..]
    requires var name := s.stack[0].node.name;
      && name in ran.waiting && ran.waiting == s.waiting[name := ran.waiting[name]]
      && list == Listed(env, name, ran.waiting[name]) && WiredList(env, ran, name, list)
    ensures var r := AfterSuccess(ran, s.stack[0].node.name, list);
      Pending(env.workflow, r, r.stack)
  {
    var wf, name := env.workflow, s.stack[0].node.name;
    var r := AfterSuccess(ran, name, list);
    var pushed := Reverse(Entries(list));
    forall i | 0 <= i < |pushed|
      ensures pushed[i].node in wf.nodes && SourceKept(wf, r, pushed[i])
    {
      PushedPending(env, ran, name, list, i);
    }
    OldPending(env, rank, s, ran, list);
    PendingConcat(wf, r, pushed, s.stack[1..]);
  }

  lemma PushedAreChildren(env: Env, name: string, outputs: seq<NodeData>, list: seq<NodeToAdd>)
    requires IsSorter(env.sort) && list == Listed(env, name, outputs)
    ensures var pushed := Reverse(Entries(list));
      forall i :: 0 <= i < |pushed| ==> HasChild(env.workflow, name, pushed[i].node.name)
  {
    var pushed := Reverse(Entries(list));
    forall i | 0 <= i < |pushed|
      ensures HasChild(env.workflow, name, pushed[i].node.name)
    {
      PushedEntries(env, name, outputs, list, |list| - 1 - i);
    }
  }

  lemma AfterSuccessKeeps(env: Env, rank: string -> nat, s: State, ran: State, list: seq<NodeToAdd>)
    requires ValidEnv(env) && Forest(env.workflow, rank) && ForestInv(env.workflow, rank, s) && s.stack != []
    requires ran == Ran(env, s)
    requires list == Listed(env, s.stack[0].node.name, ran.waiting[s.stack[0].node.name])
    ensures ForestInv(env.workflow, rank, AfterSuccess(ran, s.stack[0].node.name, list))
  {
    var wf, name := env.workflow, s.stack[0].node.name;
    var pushed := Reverse(Entries(list));
    ListedWired(env, rank, s);
    PendingAfter(env, rank, s, ran, list);
    PushedAreChildren(env, name, ran.waiting[name], list);
    DisjointAfter(wf, rank, s.stack, pushed);
    NotRunAfter(wf, rank, s, AfterSuccess(ran, name, list), pushed);
    NotedAfter(env, s, ran, list);
  }

  /** A successful iteration keeps the forest invariant. */
  lemma ForestStepKeeps(env: Env, rank: string -> nat, s: State)
    requires ValidEnv(env) && Forest(env.workflow, rank) && ForestInv(env.workflow, rank, s) && !Halted(s)
    requires Step(env, s).outcome.Running?
    ensures ForestInv(env.workflow, rank, Step(env, s))
  {
    var name := s.stack[0].node.name;
    ForestStep(env, rank, s);
    AfterSuccessKeeps(env, rank, s, Ran(env, s), Listed(env, name, Ran(env, s).waiting[name]));
  }

  lemma ForestNext(env: Env, rank: string -> nat, s: State)
    requires ValidEnv(env) && Forest(env.workflow, rank) && ForestInv(env.workflow, rank, s) && !Halted(s)
    ensures !Step(env, s).outcome.Panicked?
    ensures Step(env, s).outcome.Running? ==> ForestInv(env.workflow, rank, Step(env, s))
  {
    ForestStep(env, rank, s);
    if Step(env, s).outcome.Running? {
      ForestStepKeeps(env, rank, s);
    }
  }

  // ----- fresh runs over a forest -----

  /** The run starts at nodes of the workflow that nothing leads to. */
  ghost predicate StartsAtRoots(wf: Workflow, startNode: Option<Node>) {
    && (startNode.Some? ==> startNode.value in wf.nodes)
    && forall i :: 0 <= i < |StartStack(wf, startNode)| ==> !HasParent(wf, StartStack(wf, startNode)[i].node.name)
  }

  lemma {:induction false} StartNodesDistinct(nodes: seq<Node>)
    requires UniqueNames(nodes)
    ensures UniqueNames(StartNodes(nodes))
  {
    if nodes == [] {
    } else {
      var front := nodes[..|nodes| - 1];
      StartNodesDistinct(front);
      forall i | 0 <= i < |StartNodes(front)|
        ensures StartNodes(front)[i].name != nodes[|nodes| - 1].name
      {
        StartNodesAre(front, StartNodes(front)[i]);
      }
    }
  }

  lemma FreshForestInv(wf: Workflow, rank: string -> nat, startNode: Option<Node>)
    requires Forest(wf, rank) && StartsAtRoots(wf, startNode)
    ensures ForestInv(wf, rank, Fresh(wf, startNode))
  {
    var stack := StartStack(wf, startNode);
    StartNodesDistinct(wf.nodes);
    forall i, j | 0 <= i < |stack| && 0 <= j < |stack| && i != j
      ensures !Reaches(wf, rank, stack[i].node.name, stack[j].node.name)
    {
      assert stack[i].node.name != stack[j].node.name;
      if Reaches(wf, rank, stack[i].node.name, stack[j].node.name) {
        ReachesBelow(wf, rank, stack[i].node.name, stack[j].node.name);
      }
    }
    forall i | 0 <= i < |stack|
      ensures stack[i].node in wf.nodes
    {
      if startNode.None? {
        StartNodesAre(wf.nodes, stack[i].node);
      }
    }
  }

  /** Every state of the run keeps the invariant until a node fails, and the run never panics. */
  lemma {:induction false} ForestRunKeeps(env: Env, rank: string -> nat, startNode: Option<Node>, n: nat)
    requires ValidEnv(env) && Forest(env.workflow, rank) && StartsAtRoots(env.workflow, startNode)
    ensures var s := Steps(env, Fresh(env.workflow, startNode), n);
      !s.outcome.Panicked? && (s.outcome.Running? ==> ForestInv(env.workflow, rank, s))
    decreases n
  {
    if n == 0 {
      FreshForestInv(env.workflow, rank, startNode);
    } else {
      ForestRunKeeps(env, rank, startNode, n - 1);
      var before := Steps(env, Fresh(env.workflow, startNode), n - 1);
      if !Halted(before) {
        ForestNext(env, rank, before);
      }
    }
  }

  // ----- what retry rebuilds -----

  lemma {:induction false} FirstIsTheOnly(nodes: seq<Node>, node: Node)
    requires UniqueNames(nodes) && node in nodes
    ensures FirstNodeNamed(nodes, node.name) == Some(node)
  {
    if nodes[0] != node {
      var i :| 0 <= i < |nodes| && nodes[i] == node;
      assert nodes[0].name != nodes[i].name;
      FirstIsTheOnly(nodes[1..], node);
    }
  }

  function TasksIn(runData: RunData, name: string): seq<TaskData> {
    if name in runData then runData[name] else []
  }

  /** The iteration that starts in `s` fails. */
  ghost predicate FailsNext(env: Env, s: State) {
    !Halted(s) && Step(env, s).outcome.Stopped?
  }

  /** The stored record of a run that failed at the front entry of `s`. */
  ghost predicate FailedAt(wf: Workflow, s: State, rec: Record, task: TaskData)
    requires s.stack != []
  {
    var name := s.stack[0].node.name;
    && name !in s.runData
    && rec.stack == s.stack[1..] && rec.sources == s.sources && rec.last == name
    && rec.waiting == s.waiting[name := task.main]
    && rec.runData == s.runData[name := [task]]
    && FirstNodeNamed(wf.nodes, name) == Some(s.stack[0].node)
  }

  lemma FailedRecord(env: Env, rank: string -> nat, startNode: Option<Node>, n: nat)
    requires ValidEnv(env) && Forest(env.workflow, rank) && StartsAtRoots(env.workflow, startNode)
    requires FailsNext(env, Steps(env, Fresh(env.workflow, startNode), n))
    ensures var s := Steps(env, Fresh(env.workflow, startNode), n);
      && ForestInv(env.workflow, rank, s)
      && FailedAt(env.workflow, s, StoredAfterRun(Step(env, s)), RunNode(env, s.stack[0], s.runData))
  {
    var s := Steps(env, Fresh(env.workflow, startNode), n);
    var name := s.stack[0].node.name;
    ForestRunKeeps(env, rank, startNode, n);
    FreshRunHistory(env, startNode, n);
    ForestStep(env, rank, s);
    assert Reaches(env.workflow, rank, name, name);
    assert name !in s.waiting;
    assert [] + [RunNode(env, s.stack[0], s.runData)] == [RunNode(env, s.stack[0], s.runData)];
    FirstIsTheOnly(env.workflow.nodes, s.stack[0].node);
  }

  lemma RebuiltInputs(wf: Workflow, rank: string -> nat, s: State, rec: Record, task: TaskData)
    requires Ranked(wf, rank) && s.stack != [] && FailedAt(wf, s, rec, task)
    requires HasParent(wf, s.stack[0].node.name) && SourceKept(wf, s, s.stack[0])
    ensures s.stack[0].node.name in rec.sources
    ensures InputsFrom(rec.waiting, rec.sources[s.stack[0].node.name]) == Ok(s.stack[0].inputs)
  {
    var name := s.stack[0].node.name;
    var p, o: nat :|
      && HasChild(wf, p, name) && name in s.sources && s.sources[name] == [Source(p, o)]
      && p in s.waiting && o < |s.waiting[p]| && s.stack[0].inputs == [s.waiting[p][o]];
    ChildRank(wf, rank, p, name);
    assert rec.waiting[p] == s.waiting[p];
    assert InputsFrom(rec.waiting, []) == Ok([]);
    assert [Source(p, o)][..0] == [] && [] + [s.waiting[p][o]] == [s.waiting[p][o]];
  }

  lemma Rebuilt(wf: Workflow, rank: string -> nat, s: State, rec: Record, task: TaskData)
    requires Ranked(wf, rank) && s.stack != [] && FailedAt(wf, s, rec, task)
    requires HasParent(wf, s.stack[0].node.name) && SourceKept(wf, s, s.stack[0])
    ensures PrepareRetry(wf, false, rec)
      == Ok(rec.(error := "", stack := s.stack,
                 runData := s.runData[s.stack[0].node.name := if task.error.Some? then [] else [task]]))
  {
    RebuiltInputs(wf, rank, s, rec, task);
    RebuiltRunData(wf, s, rec, task);
    assert [s.stack[0]] + s.stack[1..] == s.stack;
  }

  lemma RebuiltRunData(wf: Workflow, s: State, rec: Record, task: TaskData)
    requires s.stack != [] && FailedAt(wf, s, rec, task)
    ensures DropFailedResult(rec) == s.runData[s.stack[0].node.name := if task.error.Some? then [] else [task]]
  {
    var name := s.stack[0].node.name;
    assert [task][..0] == [];
    assert s.runData[name := [task]][name := []] == s.runData[name := []];
  }

  lemma OnlyErrorsAreDropped(s: State, name: string, task: TaskData)
    requires name !in s.runData
    ensures var runData := s.runData[name := if task.error.Some? then [] else [task]];
      task.error.Some? <==> forall m :: TasksIn(runData, m) == TasksIn(s.runData, m)
  {
    var runData := s.runData[name := if task.error.Some? then [] else [task]];
    if task.error.None? {
      assert TasksIn(runData, name) != TasksIn(s.runData, name);
    }
  }

  /**
   After a node with an incoming connection failed, retry rebuilds the stack of the moment before the node
   was popped. The run data are those of that moment exactly when the failure carried an error; the failed
   node is then left with an empty list of runs.
   */
  lemma RetryRebuilds(env: Env, rank: string -> nat, startNode: Option<Node>, n: nat)
    requires ValidEnv(env) && Forest(env.workflow, rank) && StartsAtRoots(env.workflow, startNode)
    requires FailsNext(env, Steps(env, Fresh(env.workflow, startNode), n))
    requires HasParent(env.workflow, Steps(env, Fresh(env.workflow, startNode), n).stack[0].node.name)
    ensures var s := Steps(env, Fresh(env.workflow, startNode), n);
      var name := s.stack[0].node.name;
      var task := RunNode(env, s.stack[0], s.runData);
      var retry := PrepareRetry(env.workflow, false, StoredAfterRun(Step(env, s)));
      && retry.Ok?
      && retry.value.stack == s.stack
      && retry.value.sources == s.sources
      && retry.value.waiting == s.waiting[name := task.main]
      && retry.value.error == ""
      && (task.error.Some? ==> retry.value.runData == s.runData[name := []])
      && (task.error.Some? <==> forall m :: TasksIn(retry.value.runData, m) == TasksIn(s.runData, m))
  {
    var s := Steps(env, Fresh(env.workflow, startNode), n);
    var task := RunNode(env, s.stack[0], s.runData);
    FailedRecord(env, rank, startNode, n);
    Rebuilt(env.workflow, rank, s, StoredAfterRun(Step(env, s)), task);
    OnlyErrorsAreDropped(s, s.stack[0].node.name, task);
  }

  /** The failure of a start node cannot be retried: no source was ever noted for it. */
  lemma StartNodeRetryRefused(env: Env, rank: string -> nat, startNode: Option<Node>, n: nat)
    requires ValidEnv(env) && Forest(env.workflow, rank) && StartsAtRoots(env.workflow, startNode)
    requires FailsNext(env, Steps(env, Fresh(env.workflow, startNode), n))
    requires !HasParent(env.workflow, Steps(env, Fresh(env.workflow, startNode), n).stack[0].node.name)
    ensures PrepareRetry(env.workflow, false, StoredAfterRun(Step(env, Steps(env, Fresh(env.workflow, startNode), n))))
         == Err(SourceNotFound)
  {
    FailedRecord(env, rank, startNode, n);
  }

  lemma StoppedByNext(env: Env, before: State)
    requires !before.outcome.Stopped? && Next(env, before).outcome.Stopped?
    ensures FailsNext(env, before) && Next(env, before) == Step(env, before)
  {
  }

  lemma StoppedStays(env: Env, before: State)
    requires before.outcome.Stopped?
    ensures Next(env, before) == before
  {
  }

  /** A run that ended in a failure failed in one iteration, from a state that was still running. */
  lemma FailureMoment(env: Env, s: State, m: nat) returns (n: nat)
    requires s.outcome.Running? && Steps(env, s, m).outcome.Stopped?
    ensures n < m && FailsNext(env, Steps(env, s, n)) && Steps(env, s, m) == Step(env, Steps(env, s, n))
  {
    var next, stopped := Stepper(env), (x: State) => x.outcome.Stopped?;
    forall x: State | stopped(x)
      ensures next(x) == x
    {
      StoppedStays(env, x);
    }
    n := FirstChange(next, stopped, s, m);
    StoppedByNext(env, Steps(env, s, n));
  }

  /** Of all failed runs over a forest, retry accepts exactly those whose failed node has an incoming connection. */
  lemma RetrySucceedsIff(env: Env, rank: string -> nat, startNode: Option<Node>, m: nat) returns (n: nat)
    requires ValidEnv(env) && Forest(env.workflow, rank) && StartsAtRoots(env.workflow, startNode)
    requires Steps(env, Fresh(env.workflow, startNode), m).outcome.Stopped?
    ensures n < m
    ensures var s := Steps(env, Fresh(env.workflow, startNode), n);
      var rec := StoredAfterRun(Steps(env, Fresh(env.workflow, startNode), m));
      var retry := PrepareRetry(env.workflow, false, rec);
      && s.stack != [] && rec.last == s.stack[0].node.name
      && (retry.Ok? <==> HasParent(env.workflow, rec.last))
      && (retry.Ok? ==> retry.value.stack == s.stack)
  {
    n := FailureMoment(env, Fresh(env.workflow, startNode), m);
    FailedRecord(env, rank, startNode, n);
    if HasParent(env.workflow, Steps(env, Fresh(env.workflow, startNode), n).stack[0].node.name) {
      RetryRebuilds(env, rank, startNode, n);
    } else {
      StartNodeRetryRefused(env, rank, startNode, n);
    }
  }

  // ----- the retried run is the rest of the run -----

  /** Same pending work and same histories; `b` has executed what `a` executed after `prefix`. */
  ghost predicate Agree(a: State, b: State, prefix: seq<TraceStep>) {
    && a.stack == b.stack && a.waiting == b.waiting && a.sources == b.sources && a.runData == b.runData
    && a.last == b.last && a.outcome == b.outcome && a.trace == prefix + b.trace
  }

  /** The same outside world; only the iteration orders of map ranges may differ. */
  ghost predicate SameWorld(env: Env, env': Env) {
    && ValidEnv(env) && ValidEnv(env')
    && env.workflow == env'.workflow && env.behave == env'.behave && env.category == env'.category
    && env.sort == env'.sort
  }

  lemma StepsAgree(env: Env, env': Env, rank: string -> nat, a: State, b: State, prefix: seq<TraceStep>)
    requires SameWorld(env, env') && Forest(env.workflow, rank) && ForestInv(env.workflow, rank, a)
    requires !Halted(a) && !Halted(b) && a.stack == b.stack
    requires RunNode(env, a.stack[0], a.runData) == RunNode(env', b.stack[0], b.runData)
    requires Agree(Ran(env, a), Ran(env', b), prefix)
    ensures Agree(Step(env, a), Step(env', b), prefix)
  {
    var name := a.stack[0].node.name;
    var task := RunNode(env, a.stack[0], a.runData);
    assert a.stack[0].node in env.workflow.nodes;
    ForestStep(env, rank, a);
    if task.status == Success {
      var list := Listed(env, name, task.main);
      ListedWired(env, rank, a);
      ListedWired(env', rank, a);
      assert RunNode(env', a.stack[0], a.runData) == task;
      assert WiredList(env', Ran(env', b), name, list);
      AddNodesWired(env', Ran(env', b), name, list);
    }
  }

  lemma {:induction false} RunsAgree(
      env: Env, env': Env, rank: string -> nat, a: State, b: State, prefix: seq<TraceStep>, k: nat)
    requires SameWorld(env, env') && Forest(env.workflow, rank)
    requires a.outcome.Running? ==> ForestInv(env.workflow, rank, a)
    requires !a.outcome.Panicked? && Agree(a, b, prefix)
    ensures var a', b' := Steps(env, a, k), Steps(env', b, k);
      && !a'.outcome.Panicked? && (a'.outcome.Running? ==> ForestInv(env.workflow, rank, a'))
      && Agree(a', b', prefix)
    decreases k
  {
    if k == 0 {
    } else {
      RunsAgree(env, env', rank, a, b, prefix, k - 1);
      var a', b' := Steps(env, a, k - 1), Steps(env', b, k - 1);
      if !Halted(a') {
        RanAgree(env, env', a', b', prefix);
        StepsAgree(env, env', rank, a', b', prefix);
        ForestNext(env, rank, a');
      }
    }
  }

  lemma RanAgree(env: Env, env': Env, a: State, b: State, prefix: seq<TraceStep>)
    requires SameWorld(env, env') && Agree(a, b, prefix) && a.stack != []
    ensures Agree(Ran(env, a), Ran(env', b), prefix)
  {
  }

  /** From the first iteration on, the two runs agree after every number of iterations. */
  ghost predicate RunsOn(env: Env, env': Env, s: State, b: State) {
    forall k: nat :: k > 0 ==> Agree(Steps(env, s, k), Steps(env', b, k), s.trace)
  }

  /** Executing an enabled front entry adds it to the trace, whatever is scheduled afterwards. */
  lemma StepTrace(env: Env, s: State)
    requires !Halted(s) && !s.stack[0].node.disabled
    ensures Step(env, s).trace
         == s.trace + [TraceStep(s.stack[0].node, s.stack[0].inputs, RunNode(env, s.stack[0], s.runData))]
  {
    var name := s.stack[0].node.name;
    var task := RunNode(env, s.stack[0], s.runData);
    var targets := Targets(env.workflow, MainOutputs(env, name), task.main, false);
    AddTargetsHistory(env, RecordRun(Pop(s), s.stack[0], task), name, targets);
  }

  lemma SameFirstResult(env: Env, env': Env, s: State, b: State)
    requires !Halted(s) && !Halted(b) && s.stack == b.stack && !s.stack[0].node.disabled && b.trace == []
    requires RunsOn(env, env', s, b)
    ensures RunNode(env, s.stack[0], s.runData) == RunNode(env', b.stack[0], b.runData)
  {
    OneStep(env, s, Step(env, s));
    OneStep(env', b, Step(env', b));
    StepTrace(env, s);
    StepTrace(env', b);
    assert Agree(Steps(env, s, 1), Steps(env', b, 1), s.trace);
    var mine := TraceStep(s.stack[0].node, s.stack[0].inputs, RunNode(env, s.stack[0], s.runData));
    var theirs := TraceStep(b.stack[0].node, b.stack[0].inputs, RunNode(env', b.stack[0], b.runData));
    assert s.trace + [mine] == s.trace + ([] + [theirs]);
    assert (s.trace + [mine])[|s.trace|] == mine && (s.trace + ([] + [theirs]))[|s.trace|] == theirs;
  }

  lemma RunsOnIff(env: Env, env': Env, rank: string -> nat, s: State, b: State, main: seq<NodeData>)
    requires SameWorld(env, env') && Forest(env.workflow, rank) && ForestInv(env.workflow, rank, s)
    requires !Halted(s) && !Halted(b) && s.stack == b.stack && s.sources == b.sources && b.trace == []
    requires var name := s.stack[0].node.name;
      name !in s.runData && b.runData == s.runData[name := []] && b.waiting == s.waiting[name := main]
    ensures RunsOn(env, env', s, b)
       <==> RunNode(env, s.stack[0], b.runData) == RunNode(env, s.stack[0], s.runData)
  {
    assert s.stack[0].node in env.workflow.nodes;
    if RunNode(env, s.stack[0], b.runData) == RunNode(env, s.stack[0], s.runData) {
      RetriedNodeAgrees(env, env', s, b, main);
      forall k: nat | k > 0
        ensures Agree(Steps(env, s, k), Steps(env', b, k), s.trace)
      {
        ContinuesFrom(env, env', rank, s, b, k);
      }
    }
    if RunsOn(env, env', s, b) {
      SameFirstResult(env, env', s, b);
    }
  }

  /**
   Whatever the outside world does from now on, the retried run does exactly what the original run would
   have done from just before the failed node, with the same pending stack, histories and executed nodes
   after every number of iterations: if, and only if, the node being retried does not tell the empty list
   of its own runs that retry leaves from having none.
   */
  lemma RetryContinuesTheRun(env: Env, rank: string -> nat, startNode: Option<Node>, n: nat, later: Env, later': Env)
    requires ValidEnv(env) && Forest(env.workflow, rank) && StartsAtRoots(env.workflow, startNode)
    requires FailsNext(env, Steps(env, Fresh(env.workflow, startNode), n))
    requires HasParent(env.workflow, Steps(env, Fresh(env.workflow, startNode), n).stack[0].node.name)
    requires RunNode(env, Steps(env, Fresh(env.workflow, startNode), n).stack[0],
                     Steps(env, Fresh(env.workflow, startNode), n).runData).error.Some?
    requires SameWorld(later, later') && later.workflow == env.workflow
    ensures var s := Steps(env, Fresh(env.workflow, startNode), n);
      var entry := s.stack[0];
      var retry := PrepareRetry(env.workflow, false, StoredAfterRun(Step(env, s)));
      && retry.Ok?
      && (RunsOn(later, later', s, Resumed(retry.value))
          <==> RunNode(later, entry, s.runData[entry.node.name := []]) == RunNode(later, entry, s.runData))
  {
    var s := Steps(env, Fresh(env.workflow, startNode), n);
    var task := RunNode(env, s.stack[0], s.runData);
    FailedRecord(env, rank, startNode, n);
    Rebuilt(env.workflow, rank, s, StoredAfterRun(Step(env, s)), task);
    var b := Resumed(PrepareRetry(env.workflow, false, StoredAfterRun(Step(env, s))).value);
    RunsOnIff(later, later', rank, s, b, task.main);
  }

  lemma FrontStep(env: Env, env': Env, rank: string -> nat, s: State, b: State, k: nat) returns (s': State, b': State)
    requires SameWorld(env, env') && Forest(env.workflow, rank) && ForestInv(env.workflow, rank, s) && k > 0
    requires !Halted(s) && !Halted(b) && s.stack == b.stack
    requires RunNode(env, s.stack[0], s.runData) == RunNode(env', b.stack[0], b.runData)
    requires Agree(Ran(env, s), Ran(env', b), s.trace)
    ensures Agree(s', b', s.trace)
    ensures !s'.outcome.Panicked? && (s'.outcome.Running? ==> ForestInv(env.workflow, rank, s'))
    ensures Steps(env, s, k) == Steps(env, s', k - 1) && Steps(env', b, k) == Steps(env', b', k - 1)
  {
    s', b' := Step(env, s), Step(env', b);
    StepsAgree(env, env', rank, s, b, s.trace);
    ForestNext(env, rank, s);
    FirstStep(env, s, s', k);
    FirstStep(env', b, b', k);
  }

  lemma RestAgrees(env: Env, env': Env, rank: string -> nat, s: State, b: State, k: nat) returns (s': State, b': State)
    requires SameWorld(env, env') && Forest(env.workflow, rank) && ForestInv(env.workflow, rank, s) && k > 0
    requires !Halted(s) && !Halted(b) && s.stack == b.stack
    requires RunNode(env, s.stack[0], s.runData) == RunNode(env', b.stack[0], b.runData)
    requires Agree(Ran(env, s), Ran(env', b), s.trace)
    ensures Steps(env, s, k) == Steps(env, s', k - 1) && Steps(env', b, k) == Steps(env', b', k - 1)
    ensures Agree(Steps(env, s', k - 1), Steps(env', b', k - 1), s.trace)
  {
    s', b' := FrontStep(env, env', rank, s, b, k);
    RunsAgree(env, env', rank, s', b', s.trace, k - 1);
  }

  /** Two runs that agree on the front node agree from then on. */
  lemma ContinuesFrom(env: Env, env': Env, rank: string -> nat, s: State, b: State, k: nat)
    requires SameWorld(env, env') && Forest(env.workflow, rank) && ForestInv(env.workflow, rank, s) && k > 0
    requires !Halted(s) && !Halted(b) && s.stack == b.stack
    requires RunNode(env, s.stack[0], s.runData) == RunNode(env', b.stack[0], b.runData)
    requires Agree(Ran(env, s), Ran(env', b), s.trace)
    ensures Agree(Steps(env, s, k), Steps(env', b, k), s.trace)
  {
    var s', b' := RestAgrees(env, env', rank, s, b, k);
  }

  lemma FirstStep(env: Env, s: State, s': State, k: nat)
    requires k > 0 && !Halted(s) && s' == Step(env, s)
    ensures Steps(env, s, k) == Steps(env, s', k - 1)
  {
    OneStep(env, s, s');
    RestOfSteps(env, s, s', 1, k);
  }

  lemma RestOfSteps(env: Env, s: State, s': State, m: nat, k: nat)
    requires m <= k && s' == Steps(env, s, m)
    ensures Steps(env, s, k) == Steps(env, s', k - m)
  {
    StepsCompose(env, s, m, k - m);
  }

  lemma OneStep(env: Env, s: State, s': State)
    requires !Halted(s) && s' == Step(env, s)
    ensures Steps(env, s, 1) == s'
  {
    StepsNext(env, s, 0, s, s');
  }

  lemma RetriedNodeAgrees(env: Env, env': Env, a: State, b: State, main: seq<NodeData>)
    requires SameWorld(env, env') && !Halted(a) && !Halted(b) && a.stack == b.stack && a.sources == b.sources
    requires b.trace == []
    requires var entry := a.stack[0];
      var name := entry.node.name;
      && name !in a.runData && b.runData == a.runData[name := []]
      && b.waiting == a.waiting[name := main]
      && RunNode(env, entry, b.runData) == RunNode(env, entry, a.runData)
    ensures RunNode(env, a.stack[0], a.runData) == RunNode(env', b.stack[0], b.runData)
    ensures Agree(Ran(env, a), Ran(env', b), a.trace)
  {
    var entry := a.stack[0];
    var task := RunNode(env, entry, a.runData);
    assert AppendTask(a.runData, entry.node.name, task) == AppendTask(b.runData, entry.node.name, task);
    assert a.waiting[entry.node.name := task.main] == b.waiting[entry.node.name := task.main];
    assert [] + [TraceStep(entry.node, entry.inputs, task)] == [TraceStep(entry.node, entry.inputs, task)];
  }
}
