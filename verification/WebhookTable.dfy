/** The table of webhook rows that workflows register and unregister. */
module WebhookTable {
  import opened JsonValues
  import opened Workflows

  datatype Webhook = Webhook(path: string, verb: string, node: string, webhookId: string, workflowId: string)

  /** The primary key of the table. */
  datatype Key = Key(path: string, verb: string)

  datatype Row = Row(node: string, webhookId: string, workflowId: string)

  type Table = map<Key, Row>

  function KeyOf(w: Webhook): Key { Key(w.path, w.verb) }

  function RowOf(w: Webhook): Row { Row(w.node, w.webhookId, w.workflowId) }

  // ----- the webhooks of a workflow -----

  const NOTIFICATION_TRIGGER := "sugerNotificationEventTrigger"

  function GetWebhookPath(webhookId: string, isTest: bool): string {
    if isTest then webhookId + "/test" else webhookId
  }

  function GetWebhookMethod(node: Node): (verb: string)
    ensures verb != ""
  {
    if Contains(node.typ, NOTIFICATION_TRIGGER) then "POST"
    else if "httpMethod" !in node.parameters then "GET"
    else
      match node.parameters["httpMethod"]
      case Str(verb) => if verb == "" then "GET" else verb
      case Null => "GET"
      case Bool(_) => "GET"
      case Num(_) => "GET"
      case Arr(_) => "GET"
      case Obj(_) => "GET"
  }

  /** Enabled, with a webhook id, and of a kind whose specification lists webhooks. */
  predicate HasWebhook(kinds: set<string>, node: Node) {
    !node.disabled && node.webhookId != "" && node.typ in kinds
  }

  function WebhookOf(workflow: Workflow, node: Node, isTest: bool): Webhook {
    Webhook(GetWebhookPath(node.webhookId, isTest), GetWebhookMethod(node), node.name, node.webhookId, workflow.id)
  }

  function WebhooksOf(kinds: set<string>, workflow: Workflow, isTest: bool, n: nat): seq<Webhook>
    requires n <= |workflow.nodes|
  {
    if n == 0 then []
    else
      var node := workflow.nodes[n - 1];
      WebhooksOf(kinds, workflow, isTest, n - 1)
      + (if HasWebhook(kinds, node) then [WebhookOf(workflow, node, isTest)] else [])
  }

  function AllWebhooks(kinds: set<string>, workflow: Workflow, isTest: bool): seq<Webhook> {
    WebhooksOf(kinds, workflow, isTest, |workflow.nodes|)
  }

  method GetWorkflowWebhooks(kinds: set<string>, workflow: Workflow, isTest: bool) returns (results: seq<Webhook>)
    ensures results == AllWebhooks(kinds, workflow, isTest)
  {
    results := [];
    for index := 0 to |workflow.nodes|
      invariant results == WebhooksOf(kinds, workflow, isTest, index)
    {
      var node := workflow.nodes[index];
      if node.disabled {
        continue;
      }
      if node.webhookId == "" {
        continue;
      }
      if node.typ in kinds {
        results := results + [WebhookOf(workflow, node, isTest)];
      }
    }
  }

  /** Exactly the nodes that have a webhook are listed. */
  lemma {:induction false} ListedWebhooks(kinds: set<string>, workflow: Workflow, isTest: bool, n: nat, w: Webhook)
    requires n <= |workflow.nodes|
    ensures w in WebhooksOf(kinds, workflow, isTest, n)
       <==> exists i ::
              0 <= i < n && HasWebhook(kinds, workflow.nodes[i]) && w == WebhookOf(workflow, workflow.nodes[i], isTest)
  {
    if n == 0 {
    } else {
      ListedWebhooks(kinds, workflow, isTest, n - 1, w);
      if HasWebhook(kinds, workflow.nodes[n - 1]) && w == WebhookOf(workflow, workflow.nodes[n - 1], isTest) {
        assert w in WebhooksOf(kinds, workflow, isTest, n);
      }
    }
  }

  // ----- rows -----

  /** The insert fails on an existing key, whoever owns it. */
  function Saved(t: Table, w: Webhook): Table {
    if KeyOf(w) in t then t else t[KeyOf(w) := RowOf(w)]
  }

  /** The delete names the workflow too. */
  function Deleted(t: Table, w: Webhook): Table {
    if KeyOf(w) in t && t[KeyOf(w)].workflowId == w.workflowId then t - {KeyOf(w)} else t
  }

  function SavedAll(t: Table, ws: seq<Webhook>): Table {
    if ws == [] then t else Saved(SavedAll(t, ws[..|ws| - 1]), ws[|ws| - 1])
  }

  function DeletedAll(t: Table, ws: seq<Webhook>): Table {
    if ws == [] then t else Deleted(DeletedAll(t, ws[..|ws| - 1]), ws[|ws| - 1])
  }

  class WebhookEntities {
    var rows: Table

    constructor ()
      ensures rows == map[]
    {
      rows := map[];
    }

    method SaveWebhookEntity(w: Webhook) returns (ok: bool)
      modifies this
      ensures ok == (KeyOf(w) !in old(rows)) && rows == Saved(old(rows), w)
    {
      ok := KeyOf(w) !in rows;
      if ok {
        rows := rows[KeyOf(w) := RowOf(w)];
      }
    }

    method DeleteWebhookEntity(w: Webhook)
      modifies this
      ensures rows == Deleted(old(rows), w)
    {
      if KeyOf(w) in rows && rows[KeyOf(w)].workflowId == w.workflowId {
        rows := rows - {KeyOf(w)};
      }
    }

    /** A failed insert is logged and the next webhook is tried. */
    method RegisterWebhook(kinds: set<string>, workflow: Option<Workflow>, isTest: bool)
      modifies this
      ensures workflow.None? ==> rows == old(rows)
      ensures workflow.Some? ==> rows == SavedAll(old(rows), AllWebhooks(kinds, workflow.value, isTest))
    {
      if workflow.None? {
        return;
      }
      var webhooks := GetWorkflowWebhooks(kinds, workflow.value, isTest);
      for i := 0 to |webhooks|
        invariant rows == SavedAll(old(rows), webhooks[..i])
      {
        assert webhooks[..i + 1][..i] == webhooks[..i];
        var ok := SaveWebhookEntity(webhooks[i]);
        if !ok {
          continue;
        }
      }
      assert webhooks[..|webhooks|] == webhooks;
    }

    method UnregisterWebhook(kinds: set<string>, workflow: Option<Workflow>, isTest: bool)
      modifies this
      ensures workflow.None? ==> rows == old(rows)
      ensures workflow.Some? ==> rows == DeletedAll(old(rows), AllWebhooks(kinds, workflow.value, isTest))
    {
      if workflow.None? {
        return;
      }
      var webhooks := GetWorkflowWebhooks(kinds, workflow.value, isTest);
      for i := 0 to |webhooks|
        invariant rows == DeletedAll(old(rows), webhooks[..i])
      {
        assert webhooks[..i + 1][..i] == webhooks[..i];
        DeleteWebhookEntity(webhooks[i]);
      }
      assert webhooks[..|webhooks|] == webhooks;
    }
  }

  // ----- what registering and unregistering do to one key -----

  /** The first webhook of the list with this key. */
  function FirstWith(ws: seq<Webhook>, k: Key): Option<Webhook> {
    if ws == [] then None
    else if FirstWith(ws[..|ws| - 1], k).Some? then FirstWith(ws[..|ws| - 1], k)
    else if KeyOf(ws[|ws| - 1]) == k then Some(ws[|ws| - 1])
    else None
  }

  predicate IsFirst(ws: seq<Webhook>, k: Key, w: Webhook, i: int) {
    && 0 <= i < |ws| && ws[i] == w && KeyOf(w) == k
    && forall j :: 0 <= j < i ==> KeyOf(ws[j]) != k
  }

  lemma {:induction false} FirstWithIs(ws: seq<Webhook>, k: Key)
    ensures FirstWith(ws, k).None? <==> forall i :: 0 <= i < |ws| ==> KeyOf(ws[i]) != k
    ensures FirstWith(ws, k).Some? ==> exists i :: IsFirst(ws, k, FirstWith(ws, k).value, i)
  {
    if ws == [] {
    } else {
      var front := ws[..|ws| - 1];
      FirstWithIs(front, k);
      if FirstWith(front, k).Some? {
        var i :| IsFirst(front, k, FirstWith(front, k).value, i);
        assert IsFirst(ws, k, FirstWith(ws, k).value, i);
      } else if KeyOf(ws[|ws| - 1]) == k {
        assert IsFirst(ws, k, FirstWith(ws, k).value, |ws| - 1);
      }
    }
  }

  /** Registering keeps every row and adds, for each free key, the first webhook that asks for it. */
  lemma {:induction false} SavedAt(t: Table, ws: seq<Webhook>, k: Key)
    ensures k in SavedAll(t, ws) <==> k in t || FirstWith(ws, k).Some?
    ensures k in t ==> SavedAll(t, ws)[k] == t[k]
    ensures k !in t && FirstWith(ws, k).Some? ==> SavedAll(t, ws)[k] == RowOf(FirstWith(ws, k).value)
    decreases |ws|
  {
    if ws == [] {
    } else {
      SavedAt(t, ws[..|ws| - 1], k);
    }
  }

  /** Every webhook of the list belongs to this workflow. */
  predicate OwnedBy(ws: seq<Webhook>, workflowId: string) {
    forall i :: 0 <= i < |ws| ==> ws[i].workflowId == workflowId
  }

  lemma {:induction false} WebhooksOwned(kinds: set<string>, workflow: Workflow, isTest: bool, n: nat)
    requires n <= |workflow.nodes|
    ensures OwnedBy(WebhooksOf(kinds, workflow, isTest, n), workflow.id)
  {
    if n == 0 {
    } else {
      WebhooksOwned(kinds, workflow, isTest, n - 1);
    }
  }

  /** Unregistering removes exactly the workflow's own rows under the keys of its webhooks. */
  lemma {:induction false} DeletedAt(t: Table, ws: seq<Webhook>, workflowId: string, k: Key)
    requires OwnedBy(ws, workflowId)
    ensures k in DeletedAll(t, ws) <==> k in t && !(FirstWith(ws, k).Some? && t[k].workflowId == workflowId)
    ensures k in DeletedAll(t, ws) ==> DeletedAll(t, ws)[k] == t[k]
    decreases |ws|
  {
    if ws == [] {
    } else {
      DeletedAt(t, ws[..|ws| - 1], workflowId, k);
    }
  }

  // ----- reversibility -----

  /** No key of these webhooks is held by a row of the workflow already. */
  predicate NotYetRegistered(t: Table, ws: seq<Webhook>, workflowId: string) {
    forall i :: 0 <= i < |ws| && KeyOf(ws[i]) in t ==> t[KeyOf(ws[i])].workflowId != workflowId
  }

  /** Unregistering undoes registering exactly when none of the keys was the workflow's before. */
  lemma RegistrationIsReversibleIff(kinds: set<string>, workflow: Workflow, isTest: bool, t: Table)
    ensures var ws := AllWebhooks(kinds, workflow, isTest);
      DeletedAll(SavedAll(t, ws), ws) == t <==> NotYetRegistered(t, ws, workflow.id)
  {
    var ws := AllWebhooks(kinds, workflow, isTest);
    var after := DeletedAll(SavedAll(t, ws), ws);
    WebhooksOwned(kinds, workflow, isTest, |workflow.nodes|);
    forall k
      ensures k in after <==> k in t && !(FirstWith(ws, k).Some? && t[k].workflowId == workflow.id)
      ensures k in after ==> after[k] == t[k]
    {
      RestoredAt(t, ws, workflow.id, k);
    }
    if NotYetRegistered(t, ws, workflow.id) {
      forall k | k in t
        ensures k in after
      {
        FirstWithIs(ws, k);
      }
      assert after == t;
    } else {
      var i :| 0 <= i < |ws| && KeyOf(ws[i]) in t && t[KeyOf(ws[i])].workflowId == workflow.id;
      FirstWithIs(ws, KeyOf(ws[i]));
      assert KeyOf(ws[i]) !in after;
    }
  }

  lemma RestoredAt(t: Table, ws: seq<Webhook>, workflowId: string, k: Key)
    requires OwnedBy(ws, workflowId)
    ensures var after := DeletedAll(SavedAll(t, ws), ws);
      && (k in after <==> k in t && !(FirstWith(ws, k).Some? && t[k].workflowId == workflowId))
      && (k in after ==> after[k] == t[k])
  {
    SavedAt(t, ws, k);
    DeletedAt(SavedAll(t, ws), ws, workflowId, k);
    FirstWithIs(ws, k);
  }

  // ----- whole runs -----

  datatype Action = Action(workflow: Workflow, isTest: bool, register: bool)

  function Applied(kinds: set<string>, t: Table, a: Action): Table {
    var ws := AllWebhooks(kinds, a.workflow, a.isTest);
    if a.register then SavedAll(t, ws) else DeletedAll(t, ws)
  }

  function Run(kinds: set<string>, t: Table, actions: seq<Action>): Table {
    if actions == [] then t
    else Applied(kinds, Run(kinds, t, actions[..|actions| - 1]), actions[|actions| - 1])
  }

  /** An action leaves these keys alone in every table exactly when none of its webhooks asks for one of them. */
  lemma LeavesAloneIff(kinds: set<string>, a: Action, keys: set<Key>)
    ensures (forall t: Table, k :: k in keys ==> SameAt(t, Applied(kinds, t, a), k))
       <==> forall i :: 0 <= i < |AllWebhooks(kinds, a.workflow, a.isTest)| ==>
              KeyOf(AllWebhooks(kinds, a.workflow, a.isTest)[i]) !in keys
  {
    var ws := AllWebhooks(kinds, a.workflow, a.isTest);
    WebhooksOwned(kinds, a.workflow, a.isTest, |a.workflow.nodes|);
    if forall i :: 0 <= i < |ws| ==> KeyOf(ws[i]) !in keys {
      forall t: Table, k | k in keys
        ensures SameAt(t, Applied(kinds, t, a), k)
      {
        AppliedAt(kinds, t, a, k);
        FirstWithIs(ws, k);
      }
    } else {
      var i :| 0 <= i < |ws| && KeyOf(ws[i]) in keys;
      var k := KeyOf(ws[i]);
      var t: Table := if a.register then map[] else map[k := RowOf(ws[i])];
      AppliedAt(kinds, t, a, k);
      FirstWithIs(ws, k);
      assert !SameAt(t, Applied(kinds, t, a), k);
    }
  }

  predicate SameAt(t: Table, t': Table, k: Key) {
    (k in t <==> k in t') && (k in t ==> t[k] == t'[k])
  }

  lemma AppliedAt(kinds: set<string>, t: Table, a: Action, k: Key)
    ensures var first := FirstWith(AllWebhooks(kinds, a.workflow, a.isTest), k);
      var t' := Applied(kinds, t, a);
      && (first.None? ==> SameAt(t, t', k))
      && (first.Some? && a.register ==> k in t' && t'[k] == if k in t then t[k] else RowOf(first.value))
      && (first.Some? && !a.register ==>
            if k in t && t[k].workflowId == a.workflow.id then k !in t' else SameAt(t, t', k))
  {
    var ws := AllWebhooks(kinds, a.workflow, a.isTest);
    WebhooksOwned(kinds, a.workflow, a.isTest, |a.workflow.nodes|);
    SavedAt(t, ws, k);
    DeletedAt(t, ws, a.workflow.id, k);
  }

  /** The production paths of a workflow. */
  predicate Owns(workflow: Workflow, path: string) {
    exists i :: 0 <= i < |workflow.nodes| && workflow.nodes[i].webhookId == path && path != ""
  }

  predicate EndsInTest(s: string) {
    |s| >= 5 && s[|s| - 5..] == "/test"
  }

  /** Workflows keep their nodes, do not share webhook ids, and no webhook id of this one ends in "/test". */
  ghost predicate Separate(workflow: Workflow, actions: seq<Action>) {
    && (forall path :: Owns(workflow, path) ==> !EndsInTest(path))
    && (forall i :: 0 <= i < |actions| ==>
         if actions[i].workflow.id == workflow.id then actions[i].workflow == workflow
         else forall path :: Owns(workflow, path) ==> !Owns(actions[i].workflow, path))
  }

  /** Actions of other workflows, and test actions of the workflow itself, never ask for its production paths. */
  lemma ForeignKey(kinds: set<string>, workflow: Workflow, a: Action, k: Key)
    requires Separate(workflow, [a]) && Owns(workflow, k.path)
    requires a.isTest || a.workflow.id != workflow.id
    ensures FirstWith(AllWebhooks(kinds, a.workflow, a.isTest), k).None?
  {
    var ws := AllWebhooks(kinds, a.workflow, a.isTest);
    FirstWithIs(ws, k);
    assert [a][0] == a;
    forall i | 0 <= i < |ws|
      ensures KeyOf(ws[i]) != k
    {
      ListedWebhooks(kinds, a.workflow, a.isTest, |a.workflow.nodes|, ws[i]);
      var n :| 0 <= n < |a.workflow.nodes| && HasWebhook(kinds, a.workflow.nodes[n])
        && ws[i] == WebhookOf(a.workflow, a.workflow.nodes[n], a.isTest);
      var id := a.workflow.nodes[n].webhookId;
      assert Owns(a.workflow, id);
      if a.isTest {
        assert (id + "/test")[|id|..] == "/test";
        assert EndsInTest(id + "/test");
      }
    }
  }

  /** Whether the workflow's last production action registered it; `start` if it has not acted. */
  function Registered(workflow: Workflow, actions: seq<Action>, start: bool): bool {
    if actions == [] then start
    else
      var a := actions[|actions| - 1];
      if a.workflow.id == workflow.id && !a.isTest then a.register
      else Registered(workflow, actions[..|actions| - 1], start)
  }

  /** The production row that the workflow has at a key when it is registered, if it asks for that key. */
  function ProductionRow(kinds: set<string>, workflow: Workflow, k: Key): Option<Row> {
    match FirstWith(AllWebhooks(kinds, workflow, false), k)
    case None => None
    case Some(w) => Some(RowOf(w))
  }

  function At(t: Table, k: Key): Option<Row> {
    if k in t then Some(t[k]) else None
  }

  /** Over any run of registrations, a workflow's production rows depend only on its own last production action. */
  lemma {:induction false} ProductionRowsFollowLastAction(
      kinds: set<string>, t: Table, workflow: Workflow, actions: seq<Action>, k: Key)
    requires Separate(workflow, actions) && Owns(workflow, k.path) && k !in t
    ensures At(Run(kinds, t, actions), k)
         == if Registered(workflow, actions, false) then ProductionRow(kinds, workflow, k) else None
    decreases |actions|
  {
    if actions == [] {
    } else {
      var front, a := actions[..|actions| - 1], actions[|actions| - 1];
      ProductionRowsFollowLastAction(kinds, t, workflow, front, k);
      AppliedAt(kinds, Run(kinds, t, front), a, k);
      if a.workflow.id == workflow.id && !a.isTest {
        WebhooksOwned(kinds, workflow, false, |workflow.nodes|);
        FirstWithIs(AllWebhooks(kinds, workflow, false), k);
      } else {
        ForeignKey(kinds, workflow, a, k);
      }
    }
  }

  /** In any run without production actions of the workflow its production rows stay as they are. */
  lemma {:induction false} ProductionRowsAreIsolated(
      kinds: set<string>, t: Table, workflow: Workflow, actions: seq<Action>, k: Key)
    requires Separate(workflow, actions) && Owns(workflow, k.path)
    requires forall i :: 0 <= i < |actions| ==> actions[i].isTest || actions[i].workflow.id != workflow.id
    ensures SameAt(t, Run(kinds, t, actions), k)
    decreases |actions|
  {
    if actions == [] {
    } else {
      var front, a := actions[..|actions| - 1], actions[|actions| - 1];
      ProductionRowsAreIsolated(kinds, t, workflow, front, k);
      AppliedAt(kinds, Run(kinds, t, front), a, k);
      ForeignKey(kinds, workflow, a, k);
    }
  }

  /** Where one webhook id is another with "/test" behind it, a test registration takes the other's production key. */
  lemma TestIdShadowsProduction(kinds: set<string>, workflow: Workflow, i: nat, j: nat)
    requires i < |workflow.nodes| && j < |workflow.nodes|
    requires HasWebhook(kinds, workflow.nodes[i]) && HasWebhook(kinds, workflow.nodes[j])
    requires workflow.nodes[j].webhookId == workflow.nodes[i].webhookId + "/test"
    requires GetWebhookMethod(workflow.nodes[i]) == GetWebhookMethod(workflow.nodes[j])
    ensures var k := KeyOf(WebhookOf(workflow, workflow.nodes[j], false));
      var t := Run(kinds, map[], [Action(workflow, true, true), Action(workflow, false, true)]);
      k in t && t[k].webhookId == workflow.nodes[i].webhookId != workflow.nodes[j].webhookId
  {
    var test, production := Action(workflow, true, true), Action(workflow, false, true);
    var k := KeyOf(WebhookOf(workflow, workflow.nodes[j], false));
    var first := TestWebhookAt(kinds, workflow, i, k);
    AppliedAt(kinds, map[], test, k);
    var tested := Applied(kinds, map[], test);
    AppliedAt(kinds, tested, production, k);
    assert [test, production][..1] == [test] && [test][..0] == [];
    assert Run(kinds, map[], []) == map[];
    assert Run(kinds, map[], [test]) == tested;
    assert Run(kinds, map[], [test, production]) == Applied(kinds, tested, production);
  }

  lemma TestWebhookAt(kinds: set<string>, workflow: Workflow, i: nat, k: Key) returns (first: Webhook)
    requires i < |workflow.nodes| && HasWebhook(kinds, workflow.nodes[i])
    requires k == KeyOf(WebhookOf(workflow, workflow.nodes[i], true))
    ensures FirstWith(AllWebhooks(kinds, workflow, true), k) == Some(first)
    ensures first.webhookId == workflow.nodes[i].webhookId
  {
    var ws := AllWebhooks(kinds, workflow, true);
    ListedWebhooks(kinds, workflow, true, |workflow.nodes|, WebhookOf(workflow, workflow.nodes[i], true));
    FirstWithIs(ws, k);
    first := FirstWith(ws, k).value;
    var at :| IsFirst(ws, k, first, at);
    ListedWebhooks(kinds, workflow, true, |workflow.nodes|, first);
    var n :| 0 <= n < |workflow.nodes| && HasWebhook(kinds, workflow.nodes[n])
      && first == WebhookOf(workflow, workflow.nodes[n], true);
    SameFront(workflow.nodes[n].webhookId, workflow.nodes[i].webhookId, "/test");
  }

  lemma SameFront(a: string, b: string, tail: string)
    requires a + tail == b + tail
    ensures a == b
  {
    assert |a| == |b|;
    assert a == (a + tail)[..|a|] && b == (b + tail)[..|b|];
  }

  // ----- looking a webhook up -----

  /** The rows that the query for a workflow and a webhook id returns. */
  ghost predicate IsListing(t: Table, workflowId: string, webhookId: string, listed: seq<Key>) {
    forall k :: k in listed <==> k in t && t[k].workflowId == workflowId && t[k].webhookId == webhookId
  }

  ghost predicate CanBeFound(t: Table, workflowId: string, webhookId: string, isTest: bool) {
    exists verb ::
      && Key(GetWebhookPath(webhookId, isTest), verb) in t
      && t[Key(GetWebhookPath(webhookId, isTest), verb)].workflowId == workflowId
      && t[Key(GetWebhookPath(webhookId, isTest), verb)].webhookId == webhookId
  }

  method GetWebhookEntity(ghost t: Table, listed: seq<Key>, workflowId: string, webhookId: string, isTest: bool)
    returns (found: Option<Key>)
    requires IsListing(t, workflowId, webhookId, listed)
    ensures found.Some? <==> CanBeFound(t, workflowId, webhookId, isTest)
    ensures found.Some? ==> found.value in listed && found.value.path == GetWebhookPath(webhookId, isTest)
  {
    var targetWebhookPath := GetWebhookPath(webhookId, isTest);
    for i := 0 to |listed|
      invariant forall j :: 0 <= j < i ==> listed[j].path != targetWebhookPath
    {
      if targetWebhookPath == listed[i].path {
        assert listed[i] in listed && Key(targetWebhookPath, listed[i].verb) == listed[i];
        return Some(listed[i]);
      }
    }
    found := None;
  }

  // ----- the rows in terms of the nodes -----

  /** The method of a webhook: POST for the notification trigger, otherwise the configured one, otherwise GET. */
  ghost predicate HasVerb(node: Node, verb: string) {
    if exists front, back :: Surrounds(node.typ, front, "sugerNotificationEventTrigger", back) then verb == "POST"
    else if exists s :: s != "" && IsField(Obj(node.parameters), "httpMethod", Str(s))
    then verb != "" && IsField(Obj(node.parameters), "httpMethod", Str(verb))
    else verb == "GET"
  }

  lemma VerbMeaning(node: Node, verb: string)
    ensures GetWebhookMethod(node) == verb <==> HasVerb(node, verb)
  {
    ContainsMeaning(node.typ, NOTIFICATION_TRIGGER);
    assert (exists s :: s != "" && IsField(Obj(node.parameters), "httpMethod", Str(s)))
      <==> "httpMethod" in node.parameters && node.parameters["httpMethod"].Str?
           && node.parameters["httpMethod"].s != "" by {
      if "httpMethod" in node.parameters && node.parameters["httpMethod"].Str? {
        assert IsField(Obj(node.parameters), "httpMethod", Str(node.parameters["httpMethod"].s));
      }
    }
  }

  /** This node of the workflow asks for a row under this path and method. */
  ghost predicate AsksFor(kinds: set<string>, workflow: Workflow, isTest: bool, k: Key, n: int) {
    && 0 <= n < |workflow.nodes| && !workflow.nodes[n].disabled
    && workflow.nodes[n].webhookId != "" && workflow.nodes[n].typ in kinds
    && k.path == workflow.nodes[n].webhookId + (if isTest then "/test" else "") && HasVerb(workflow.nodes[n], k.verb)
  }

  lemma AsksMeaning(kinds: set<string>, workflow: Workflow, isTest: bool, k: Key, n: int)
    requires 0 <= n < |workflow.nodes|
    ensures AsksFor(kinds, workflow, isTest, k, n) <==>
      && HasWebhook(kinds, workflow.nodes[n]) && KeyOf(WebhookOf(workflow, workflow.nodes[n], isTest)) == k
  {
    VerbMeaning(workflow.nodes[n], k.verb);
    assert workflow.nodes[n].webhookId + "" == workflow.nodes[n].webhookId;
  }

  /** The first node that asks for this row. */
  ghost predicate AsksFirst(kinds: set<string>, workflow: Workflow, isTest: bool, k: Key, n: int) {
    AsksFor(kinds, workflow, isTest, k, n) && forall m :: 0 <= m < n ==> !AsksFor(kinds, workflow, isTest, k, m)
  }

  ghost predicate NobodyAsks(kinds: set<string>, workflow: Workflow, isTest: bool, k: Key, n: int) {
    forall m :: 0 <= m < n ==> !AsksFor(kinds, workflow, isTest, k, m)
  }

  /** The row is that of the first node that asks, one of the first `n`. */
  ghost predicate IsFirstRow(kinds: set<string>, workflow: Workflow, isTest: bool, k: Key, n: int, row: Row) {
    exists m :: m < n && AsksFirst(kinds, workflow, isTest, k, m) && row == NodeRow(workflow, m)
  }

  lemma {:induction false} FirstAsked(kinds: set<string>, workflow: Workflow, isTest: bool, k: Key, n: nat)
    requires n <= |workflow.nodes|
    ensures var first := FirstWith(WebhooksOf(kinds, workflow, isTest, n), k);
      && (first.None? <==> NobodyAsks(kinds, workflow, isTest, k, n))
      && (first.Some? ==> IsFirstRow(kinds, workflow, isTest, k, n, RowOf(first.value)))
  {
    if n == 0 {
    } else {
      FirstAsked(kinds, workflow, isTest, k, n - 1);
      FirstAskedStep(kinds, workflow, isTest, k, n - 1);
      var front := WebhooksOf(kinds, workflow, isTest, n - 1);
      var w := WebhookOf(workflow, workflow.nodes[n - 1], isTest);
      assert (front + [w])[..|front|] == front && front + [] == front;
    }
  }

  lemma FirstAskedStep(kinds: set<string>, workflow: Workflow, isTest: bool, k: Key, n: nat)
    requires n < |workflow.nodes|
    ensures var node := workflow.nodes[n];
            var asks := HasWebhook(kinds, node) && KeyOf(WebhookOf(workflow, node, isTest)) == k;
      && (NobodyAsks(kinds, workflow, isTest, k, n + 1) <==> NobodyAsks(kinds, workflow, isTest, k, n) && !asks)
      && (NobodyAsks(kinds, workflow, isTest, k, n) && asks ==>
            IsFirstRow(kinds, workflow, isTest, k, n + 1, RowOf(WebhookOf(workflow, node, isTest))))
  {
    AsksMeaning(kinds, workflow, isTest, k, n);
    if NobodyAsks(kinds, workflow, isTest, k, n) && AsksFor(kinds, workflow, isTest, k, n) {
      assert AsksFirst(kinds, workflow, isTest, k, n);
      assert RowOf(WebhookOf(workflow, workflow.nodes[n], isTest)) == NodeRow(workflow, n);
    }
  }

  ghost function NodeRow(workflow: Workflow, n: int): Row
    requires 0 <= n < |workflow.nodes|
  {
    Row(workflow.nodes[n].name, workflow.nodes[n].webhookId, workflow.id)
  }

  /** What registering leaves under a key of any table: the row that was there, else that of the first node asking. */
  lemma RegisteredRows(kinds: set<string>, t: Table, workflow: Workflow, isTest: bool, k: Key)
    ensures var t' := SavedAll(t, AllWebhooks(kinds, workflow, isTest));
      && (k in t' <==> k in t || exists n :: AsksFor(kinds, workflow, isTest, k, n))
      && (k in t ==> t'[k] == t[k])
      && (k in t' && k !in t ==>
            exists n :: AsksFirst(kinds, workflow, isTest, k, n) && t'[k] == NodeRow(workflow, n))
  {
    SavedAt(t, AllWebhooks(kinds, workflow, isTest), k);
    FirstAsked(kinds, workflow, isTest, k, |workflow.nodes|);
  }

  /** What unregistering takes away: the workflow's own rows under the keys its nodes ask for. */
  lemma UnregisteredRows(kinds: set<string>, t: Table, workflow: Workflow, isTest: bool, k: Key)
    ensures var t' := DeletedAll(t, AllWebhooks(kinds, workflow, isTest));
      && (k in t' <==>
            k in t && !(t[k].workflowId == workflow.id && exists n :: AsksFor(kinds, workflow, isTest, k, n)))
      && (k in t' ==> t'[k] == t[k])
  {
    WebhooksOwned(kinds, workflow, isTest, |workflow.nodes|);
    DeletedAt(t, AllWebhooks(kinds, workflow, isTest), workflow.id, k);
    FirstAsked(kinds, workflow, isTest, k, |workflow.nodes|);
  }

  /**
   Over any run of registrations, a workflow has a production row under a webhook id and a method exactly while
   it is registered and some node of its asks for it, and it is the row of the first such node.
   */
  lemma FoundWhileRegistered(
      kinds: set<string>, t: Table, workflow: Workflow, actions: seq<Action>, webhookId: string, verb: string)
    requires Separate(workflow, actions) && Owns(workflow, webhookId)
    requires forall k :: k in t ==> k.path != webhookId
    ensures var k, after := Key(webhookId, verb), Run(kinds, t, actions);
      && (k in after <==>
            Registered(workflow, actions, false) && exists n :: AsksFor(kinds, workflow, false, k, n))
      && (k in after ==> exists n :: AsksFirst(kinds, workflow, false, k, n) && after[k] == NodeRow(workflow, n))
  {
    var k := Key(webhookId, verb);
    ProductionRowsFollowLastAction(kinds, t, workflow, actions, k);
    FirstAsked(kinds, workflow, false, k, |workflow.nodes|);
  }

  /** And so the lookup by webhook id finds a row exactly then. */
  lemma LookupWhileRegistered(
      kinds: set<string>, t: Table, workflow: Workflow, actions: seq<Action>, webhookId: string)
    requires Separate(workflow, actions) && Owns(workflow, webhookId)
    requires forall k :: k in t ==> k.path != webhookId
    ensures CanBeFound(Run(kinds, t, actions), workflow.id, webhookId, false)
       <==> Registered(workflow, actions, false)
            && exists verb, n :: AsksFor(kinds, workflow, false, Key(webhookId, verb), n)
  {
    var after := Run(kinds, t, actions);
    if CanBeFound(after, workflow.id, webhookId, false) {
      var verb :| Key(webhookId, verb) in after;
      FoundWhileRegistered(kinds, t, workflow, actions, webhookId, verb);
    }
    if verb, n :| Registered(workflow, actions, false) && AsksFor(kinds, workflow, false, Key(webhookId, verb), n) {
      FoundWhileRegistered(kinds, t, workflow, actions, webhookId, verb);
      var m :| AsksFirst(kinds, workflow, false, Key(webhookId, verb), m)
        && after[Key(webhookId, verb)] == NodeRow(workflow, m);
      assert workflow.nodes[m].webhookId + "" == workflow.nodes[m].webhookId;
      assert Key(GetWebhookPath(webhookId, false), verb) in after;
    }
  }
}
