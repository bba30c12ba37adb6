/** Which node properties are displayed: a fixpoint over show and hide rules that depend on other properties. */
module DisplayOptions {
  import opened JsonValues

  /** One entry of a show or hide rule map: the path it depends on and the accepted values. */
  datatype Rule = Rule(path: string, values: seq<Json>)

  /** The rules in the order the runtime visits them; None is Go's nil map. */
  datatype Property = Property(name: string, default: Json, show: Option<seq<Rule>>, hide: Option<seq<Rule>>)

  /** The node's parameters and the default version. */
  datatype Context = Context(parameters: map<string, Json>, version: real)

  type Selection = map<string, Property>

  /** Absolute and relative rule paths are the same. */
  function PathParts(path: string): (parts: seq<string>)
    ensures parts != []
  {
    SplitDots(if path != [] && path[0] == '/' then path[1..] else path)
  }

  function NodeValueByPath(root: Json, subPath: seq<string>): Json {
    if subPath == [] then root
    else if root.Obj? && subPath[0] in root.fields then NodeValueByPath(root.fields[subPath[0]], subPath[1..])
    else Null
  }

  /** The cursor loop of getNodeValueByPath. */
  method GetNodeValueByPath(root: Json, subPath: seq<string>) returns (current: Json)
    ensures current == NodeValueByPath(root, subPath)
  {
    current := root;
    for i := 0 to |subPath|
      invariant NodeValueByPath(current, subPath[i..]) == NodeValueByPath(root, subPath)
    {
      if !current.Obj? || subPath[i] !in current.fields {
        return Null;
      }
      current := current.fields[subPath[i]];
    }
  }

  /** A property's parameter if the node has one, otherwise its non-empty default. */
  function ValueOf(p: Property, subPath: seq<string>, ctx: Context): Json {
    if p.name in ctx.parameters then NodeValueByPath(ctx.parameters[p.name], subPath)
    else if p.default != Null && p.default != Str("") then NodeValueByPath(p.default, subPath)
    else Null
  }

  predicate ShowPasses(rules: seq<Rule>, sel: Selection, ctx: Context) {
    if rules == [] then true
    else if rules[0].path == "@version" then Num(ctx.version) in rules[0].values
    else
      var parts := PathParts(rules[0].path);
      && parts[0] in sel
      && ValueOf(sel[parts[0]], parts[1..], ctx) != Null
      && ValueOf(sel[parts[0]], parts[1..], ctx) in rules[0].values
      && ShowPasses(rules[1..], sel, ctx)
  }

  predicate HidePasses(rules: seq<Rule>, sel: Selection, ctx: Context) {
    if rules == [] then false
    else if rules[0].path == "@version" then Num(ctx.version) !in rules[0].values
    else
      var parts := PathParts(rules[0].path);
      if parts[0] !in sel then false
      else
        var value := ValueOf(sel[parts[0]], parts[1..], ctx);
        value == Null || value !in rules[0].values || HidePasses(rules[1..], sel, ctx)
  }

  /** checkDisplayOptions. */
  predicate Passes(p: Property, sel: Selection, ctx: Context) {
    && (p.show.Some? ==> ShowPasses(p.show.value, sel, ctx))
    && (p.hide.Some? ==> HidePasses(p.hide.value, sel, ctx))
  }

  // ----- the selection loop -----

  /** One pass over the unconfirmed properties: the new selection and what remains unconfirmed. */
  function Pass(toConfirm: seq<Property>, sel: Selection, ctx: Context): (r: (Selection, seq<Property>))
    ensures |r.1| <= |toConfirm|
    ensures |r.1| == |toConfirm| ==> r.0 == sel && r.1 == toConfirm
    decreases |toConfirm|
  {
    if toConfirm == [] then (sel, [])
    else
      var p := toConfirm[0];
      if Passes(p, sel, ctx) then Pass(toConfirm[1..], sel[p.name := p], ctx)
      else
        var (sel', remain) := Pass(toConfirm[1..], sel, ctx);
        (sel', [p] + remain)
  }

  /** Passes are repeated until one confirms nothing. */
  function Filter(toConfirm: seq<Property>, sel: Selection, ctx: Context): Selection
    decreases |toConfirm|
  {
    var (sel', remain) := Pass(toConfirm, sel, ctx);
    if |remain| == |toConfirm| then sel' else Filter(remain, sel', ctx)
  }

  method ConfirmPass(toConfirm: seq<Property>, sel: Selection, ctx: Context)
      returns (sel': Selection, remain: seq<Property>, found: bool)
    ensures (sel', remain) == Pass(toConfirm, sel, ctx)
    ensures found <==> |remain| < |toConfirm|
  {
    sel', remain, found := sel, [], false;
    assert toConfirm[0..] == toConfirm && [] + Pass(toConfirm, sel, ctx).1 == Pass(toConfirm, sel, ctx).1;
    for i := 0 to |toConfirm|
      invariant |remain| <= i && (found <==> |remain| < i)
      invariant var rest := Pass(toConfirm[i..], sel', ctx);
        Pass(toConfirm, sel, ctx) == (rest.0, remain + rest.1)
    {
      var p := toConfirm[i];
      assert toConfirm[i..][1..] == toConfirm[i + 1..];
      if Passes(p, sel', ctx) {
        sel' := sel'[p.name := p];
        found := true;
      } else {
        var rest := Pass(toConfirm[i + 1..], sel', ctx);
        assert remain + ([p] + rest.1) == (remain + [p]) + rest.1;
        remain := remain + [p];
      }
    }
    assert toConfirm[|toConfirm|..] == [] && remain + [] == remain;
  }

  method FilterPropertiesByDisplayOption(props: seq<Property>, ctx: Context) returns (sel: Selection)
    ensures sel == Filter(props, map[], ctx)
  {
    sel := map[];
    var toConfirm, found := props, true;
    while found
      invariant found ==> Filter(toConfirm, sel, ctx) == Filter(props, map[], ctx)
      invariant !found ==> sel == Filter(props, map[], ctx)
      decreases |toConfirm|, found
    {
      sel, toConfirm, found := ConfirmPass(toConfirm, sel, ctx);
    }
  }

  /** The result list: one entry per selected name, in whatever order the runtime ranges over the map. */
  method SelectedProperties(sel: Selection) returns (results: seq<Property>)
    ensures |results| == |sel|
    ensures forall n :: n in sel ==> sel[n] in results
  {
    results := [];
    var names := sel.Keys;
    while names != {}
      invariant names <= sel.Keys
      invariant |results| + |names| == |sel|
      invariant forall n :: n in sel && n !in names ==> sel[n] in results
      decreases |names|
    {
      var n :| n in names;
      results := results + [sel[n]];
      names := names - {n};
    }
  }

  // ----- the selection is a closed set, for every property list -----

  /** A selection of properties of the list under their own names. */
  ghost predicate Consistent(props: seq<Property>, sel: Selection) {
    forall n :: n in sel ==> sel[n] in props && sel[n].name == n
  }

  /** Every property that passes is selected by name. */
  ghost predicate Closed(props: seq<Property>, sel: Selection, ctx: Context) {
    forall p :: p in props && Passes(p, sel, ctx) ==> p.name in sel
  }

  ghost predicate Covered(props: seq<Property>, toConfirm: seq<Property>, sel: Selection) {
    && Consistent(props, sel)
    && (forall p :: p in toConfirm ==> p in props)
    && (forall p :: p in props ==> p in toConfirm || p.name in sel)
  }

  lemma CoverSelect(props: seq<Property>, before: seq<Property>, toConfirm: seq<Property>, sel: Selection)
    requires toConfirm != [] && Covered(props, before + toConfirm, sel)
    ensures Covered(props, before + toConfirm[1..], sel[toConfirm[0].name := toConfirm[0]])
  {
    var p := toConfirm[0];
    assert p in before + toConfirm;
    forall q | q in before + toConfirm
      ensures q in before + toConfirm[1..] || q == p
    {
    }
    forall q | q in before + toConfirm[1..]
      ensures q in before + toConfirm
    {
    }
  }

  lemma {:induction false} PassCovers(
      props: seq<Property>, before: seq<Property>, toConfirm: seq<Property>, sel: Selection, ctx: Context)
    requires Covered(props, before + toConfirm, sel)
    ensures var (sel', remain) := Pass(toConfirm, sel, ctx); Covered(props, before + remain, sel')
    decreases |toConfirm|
  {
    if toConfirm == [] {
    } else {
      var p := toConfirm[0];
      if Passes(p, sel, ctx) {
        CoverSelect(props, before, toConfirm, sel);
        PassCovers(props, before, toConfirm[1..], sel[p.name := p], ctx);
      } else {
        assert (before + [p]) + toConfirm[1..] == before + toConfirm;
        PassCovers(props, before + [p], toConfirm[1..], sel, ctx);
        assert (before + [p]) + Pass(toConfirm[1..], sel, ctx).1 == before + ([p] + Pass(toConfirm[1..], sel, ctx).1);
      }
    }
  }

  lemma {:induction false} NothingConfirmed(toConfirm: seq<Property>, sel: Selection, ctx: Context)
    requires |Pass(toConfirm, sel, ctx).1| == |toConfirm|
    ensures forall p :: p in toConfirm ==> !Passes(p, sel, ctx)
    decreases |toConfirm|
  {
    if toConfirm == [] {
    } else {
      NothingConfirmed(toConfirm[1..], sel, ctx);
    }
  }

  lemma {:induction false} FilterClosedFrom(
      props: seq<Property>, toConfirm: seq<Property>, sel: Selection, ctx: Context)
    requires Covered(props, toConfirm, sel)
    ensures Consistent(props, Filter(toConfirm, sel, ctx)) && Closed(props, Filter(toConfirm, sel, ctx), ctx)
    decreases |toConfirm|
  {
    var (sel', remain) := Pass(toConfirm, sel, ctx);
    assert [] + toConfirm == toConfirm && [] + remain == remain;
    PassCovers(props, [], toConfirm, sel, ctx);
    if |remain| == |toConfirm| {
      NothingConfirmed(toConfirm, sel, ctx);
    } else {
      FilterClosedFrom(props, remain, sel', ctx);
    }
  }

  /** No property that is left out passes its rules against the result. */
  lemma FilterClosed(props: seq<Property>, ctx: Context)
    ensures Consistent(props, Filter(props, map[], ctx)) && Closed(props, Filter(props, map[], ctx), ctx)
  {
    FilterClosedFrom(props, props, map[], ctx);
  }

  // ----- with shared defaults it is the least one -----

  ghost predicate Names(rules: Option<seq<Rule>>, name: string) {
    rules.Some? && exists i ::
      0 <= i < |rules.value| && rules.value[i].path != "@version" && PathParts(rules.value[i].path)[0] == name
  }

  /** Some rule of the list depends on this name, and the node has no parameter of that name. */
  ghost predicate DefaultMatters(props: seq<Property>, ctx: Context, name: string) {
    name !in ctx.parameters && exists p :: p in props && (Names(p.show, name) || Names(p.hide, name))
  }

  /** Properties of one name share their default, where a rule can come to see it. */
  ghost predicate SharedDefaults(props: seq<Property>, ctx: Context) {
    forall p, q :: p in props && q in props && p.name == q.name && DefaultMatters(props, ctx, p.name) ==>
      p.default == q.default
  }

  /** Every selected property passes against the selection itself. */
  ghost predicate Supported(sel: Selection, ctx: Context) {
    forall n :: n in sel ==> Passes(sel[n], sel, ctx)
  }

  /** No closed selection lacks a name of this one. */
  ghost predicate BelowClosed(props: seq<Property>, sel: Selection, ctx: Context) {
    forall other: Selection :: Consistent(props, other) && Closed(props, other, ctx) ==> sel.Keys <= other.Keys
  }

  ghost predicate LeastFixpoint(props: seq<Property>, sel: Selection, ctx: Context) {
    Consistent(props, sel) && Closed(props, sel, ctx) && Supported(sel, ctx) && BelowClosed(props, sel, ctx)
  }

  /** `b` knows at least the names `a` knows, with the same defaults where they matter. */
  ghost predicate Extends(props: seq<Property>, ctx: Context, a: Selection, b: Selection) {
    forall n :: n in a ==>
      && n in b && a[n].name == n && b[n].name == n
      && (DefaultMatters(props, ctx, n) ==> a[n].default == b[n].default)
  }

  /** All names these rules depend on are named by rules of the list. */
  ghost predicate RulesOf(props: seq<Property>, ctx: Context, rules: seq<Rule>) {
    forall i :: 0 <= i < |rules| && rules[i].path != "@version" && PathParts(rules[i].path)[0] !in ctx.parameters ==>
      DefaultMatters(props, ctx, PathParts(rules[i].path)[0])
  }

  lemma SameValue(props: seq<Property>, a: Selection, b: Selection, ctx: Context, rules: seq<Rule>)
    requires Extends(props, ctx, a, b) && RulesOf(props, ctx, rules) && rules != [] && rules[0].path != "@version"
    requires PathParts(rules[0].path)[0] in a
    ensures var parts := PathParts(rules[0].path);
      parts[0] in b && ValueOf(a[parts[0]], parts[1..], ctx) == ValueOf(b[parts[0]], parts[1..], ctx)
  {
  }

  lemma RulesOfTail(props: seq<Property>, ctx: Context, rules: seq<Rule>)
    requires RulesOf(props, ctx, rules) && rules != []
    ensures RulesOf(props, ctx, rules[1..])
  {
    forall i | 0 <= i < |rules[1..]| && rules[1..][i].path != "@version"
               && PathParts(rules[1..][i].path)[0] !in ctx.parameters
      ensures DefaultMatters(props, ctx, PathParts(rules[1..][i].path)[0])
    {
      assert rules[1..][i] == rules[i + 1];
    }
  }

  lemma {:induction false} ShowMonotone(
      props: seq<Property>, rules: seq<Rule>, a: Selection, b: Selection, ctx: Context)
    requires Extends(props, ctx, a, b) && RulesOf(props, ctx, rules) && ShowPasses(rules, a, ctx)
    ensures ShowPasses(rules, b, ctx)
    decreases |rules|
  {
    if rules == [] || rules[0].path == "@version" {
    } else {
      SameValue(props, a, b, ctx, rules);
      RulesOfTail(props, ctx, rules);
      ShowMonotone(props, rules[1..], a, b, ctx);
    }
  }

  lemma {:induction false} HideMonotone(
      props: seq<Property>, rules: seq<Rule>, a: Selection, b: Selection, ctx: Context)
    requires Extends(props, ctx, a, b) && RulesOf(props, ctx, rules) && HidePasses(rules, a, ctx)
    ensures HidePasses(rules, b, ctx)
    decreases |rules|
  {
    if rules == [] || rules[0].path == "@version" {
    } else {
      SameValue(props, a, b, ctx, rules);
      RulesOfTail(props, ctx, rules);
      if HidePasses(rules[1..], a, ctx) {
        HideMonotone(props, rules[1..], a, b, ctx);
      }
    }
  }

  lemma OwnRules(props: seq<Property>, ctx: Context, p: Property)
    requires p in props
    ensures p.show.Some? ==> RulesOf(props, ctx, p.show.value)
    ensures p.hide.Some? ==> RulesOf(props, ctx, p.hide.value)
  {
    if p.show.Some? {
      var rules := p.show.value;
      forall i | 0 <= i < |rules| && rules[i].path != "@version" && PathParts(rules[i].path)[0] !in ctx.parameters
        ensures DefaultMatters(props, ctx, PathParts(rules[i].path)[0])
      {
        assert Names(p.show, PathParts(rules[i].path)[0]);
      }
    }
    if p.hide.Some? {
      var rules := p.hide.value;
      forall i | 0 <= i < |rules| && rules[i].path != "@version" && PathParts(rules[i].path)[0] !in ctx.parameters
        ensures DefaultMatters(props, ctx, PathParts(rules[i].path)[0])
      {
        assert Names(p.hide, PathParts(rules[i].path)[0]);
      }
    }
  }

  /** Selecting more never hides what was displayed. */
  lemma PassesMonotone(props: seq<Property>, p: Property, a: Selection, b: Selection, ctx: Context)
    requires p in props && Extends(props, ctx, a, b) && Passes(p, a, ctx)
    ensures Passes(p, b, ctx)
  {
    OwnRules(props, ctx, p);
    if p.show.Some? {
      ShowMonotone(props, p.show.value, a, b, ctx);
    }
    if p.hide.Some? {
      HideMonotone(props, p.hide.value, a, b, ctx);
    }
  }

  lemma ConsistentExtends(props: seq<Property>, ctx: Context, a: Selection, b: Selection)
    requires SharedDefaults(props, ctx) && Consistent(props, a) && Consistent(props, b) && a.Keys <= b.Keys
    ensures Extends(props, ctx, a, b)
  {
  }

  ghost predicate Justified(props: seq<Property>, sel: Selection, ctx: Context) {
    Consistent(props, sel) && Supported(sel, ctx) && BelowClosed(props, sel, ctx)
  }

  /** Selecting a passing property keeps the selection supported and below every closed one. */
  lemma SelectKeeps(props: seq<Property>, sel: Selection, ctx: Context, p: Property)
    requires SharedDefaults(props, ctx) && Justified(props, sel, ctx) && p in props && Passes(p, sel, ctx)
    ensures Justified(props, sel[p.name := p], ctx)
  {
    var sel' := sel[p.name := p];
    ConsistentExtends(props, ctx, sel, sel');
    forall n | n in sel'
      ensures Passes(sel'[n], sel', ctx)
    {
      PassesMonotone(props, sel'[n], sel, sel', ctx);
    }
    forall other: Selection | Consistent(props, other) && Closed(props, other, ctx)
      ensures sel'.Keys <= other.Keys
    {
      ConsistentExtends(props, ctx, sel, other);
      PassesMonotone(props, p, sel, other, ctx);
    }
  }

  lemma {:induction false} PassJustified(props: seq<Property>, toConfirm: seq<Property>, sel: Selection, ctx: Context)
    requires SharedDefaults(props, ctx) && Justified(props, sel, ctx) && forall p :: p in toConfirm ==> p in props
    ensures Justified(props, Pass(toConfirm, sel, ctx).0, ctx)
    ensures forall p :: p in Pass(toConfirm, sel, ctx).1 ==> p in props
    decreases |toConfirm|
  {
    if toConfirm == [] {
    } else {
      var p := toConfirm[0];
      if Passes(p, sel, ctx) {
        SelectKeeps(props, sel, ctx, p);
        PassJustified(props, toConfirm[1..], sel[p.name := p], ctx);
      } else {
        PassJustified(props, toConfirm[1..], sel, ctx);
      }
    }
  }

  lemma {:induction false} FilterJustified(props: seq<Property>, toConfirm: seq<Property>, sel: Selection, ctx: Context)
    requires SharedDefaults(props, ctx) && Justified(props, sel, ctx) && forall p :: p in toConfirm ==> p in props
    ensures Justified(props, Filter(toConfirm, sel, ctx), ctx)
    decreases |toConfirm|
  {
    var (sel', remain) := Pass(toConfirm, sel, ctx);
    PassJustified(props, toConfirm, sel, ctx);
    if |remain| < |toConfirm| {
      FilterJustified(props, remain, sel', ctx);
    }
  }

  /** The selected names are the least set closed under the rules. */
  lemma FilterIsLeastFixpoint(props: seq<Property>, ctx: Context)
    requires SharedDefaults(props, ctx)
    ensures LeastFixpoint(props, Filter(props, map[], ctx), ctx)
  {
    FilterClosed(props, ctx);
    FilterJustified(props, props, map[], ctx);
  }

  /** The selected names do not depend on the order of the property list, nor on repetitions in it. */
  lemma SelectionOrderIndependent(props: seq<Property>, props': seq<Property>, ctx: Context)
    requires SharedDefaults(props, ctx) && forall p :: p in props <==> p in props'
    ensures Filter(props, map[], ctx).Keys == Filter(props', map[], ctx).Keys
  {
    FilterIsLeastFixpoint(props, ctx);
    assert SharedDefaults(props', ctx) by {
      forall n
        ensures DefaultMatters(props, ctx, n) <==> DefaultMatters(props', ctx, n)
      {
      }
    }
    FilterIsLeastFixpoint(props', ctx);
    var sel, sel' := Filter(props, map[], ctx), Filter(props', map[], ctx);
    assert Consistent(props, sel') && Closed(props, sel', ctx);
    assert Consistent(props', sel) && Closed(props', sel, ctx);
  }

  /** A property named "m" that is always shown, and one that is shown while "m" has this value. */
  function Plain(default: string): Property {
    Property("m", Str(default), None, None)
  }

  function Dependent(shown: string): Property {
    Property("d", Null, Some([Rule("m", [Str(shown)])]), None)
  }

  lemma DependentPasses(shown: string, last: string, ctx: Context)
    requires ctx.parameters == map[] && shown != ""
    ensures Passes(Dependent(shown), map["m" := Plain(last)], ctx) <==> last == shown
  {
    var rule := Rule("m", [Str(shown)]);
    assert "m"[1..] == "" && SplitDots("") == [""] && [""][0] == "" && [""][1..] == [] && ['m'] + "" == "m";
    assert SplitDots("m") == ["m"] && ["m"][1..] == [];
    assert [rule][1..] == [];
    assert ShowPasses([rule], map["m" := Plain(last)], ctx) <==> last == shown;
  }

  lemma DependentShown(first: string, last: string, shown: string, ctx: Context)
    requires ctx.parameters == map[] && shown != ""
    ensures "d" in Filter([Plain(first), Plain(last), Dependent(shown)], map[], ctx) <==> last == shown
  {
    var r := Dependent(shown);
    var sel: Selection := map["m" := Plain(last)];
    DependentPasses(shown, last, ctx);
    PassOf3(Plain(first), Plain(last), r, ctx);
    if last == shown {
      assert Filter([], sel["d" := r], ctx) == sel["d" := r];
    } else {
      assert Pass([r], sel, ctx) == (sel, [r]) by {
        assert [r][1..] == [];
      }
      assert Filter([r], sel, ctx) == sel;
    }
  }

  /** The two lists hold the same properties, and different ones are displayed. */
  ghost predicate OrderMatters(props: seq<Property>, props': seq<Property>, ctx: Context) {
    multiset(props) == multiset(props') && Filter(props, map[], ctx).Keys != Filter(props', map[], ctx).Keys
  }

  lemma KeysDiffer(a: Selection, b: Selection, name: string)
    requires name in a && name !in b
    ensures a.Keys != b.Keys
  {
    assert name in a.Keys && name !in b.Keys;
  }

  /** With different defaults under one name the order of the list decides what is displayed. */
  lemma OrderMattersWithoutSharedDefaults(shown: string, other: string, ctx: Context)
    requires ctx.parameters == map[] && shown != "" && shown != other
    ensures OrderMatters([Plain(other), Plain(shown), Dependent(shown)],
                         [Plain(shown), Plain(other), Dependent(shown)], ctx)
  {
    var props, props' := [Plain(other), Plain(shown), Dependent(shown)], [Plain(shown), Plain(other), Dependent(shown)];
    DependentShown(other, shown, shown, ctx);
    DependentShown(shown, other, shown, ctx);
    KeysDiffer(Filter(props, map[], ctx), Filter(props', map[], ctx), "d");
    assert multiset(props) == multiset(props');
  }

  lemma PassOf3(a: Property, b: Property, r: Property, ctx: Context)
    requires a.show.None? && a.hide.None? && b.show.None? && b.hide.None? && a.name == b.name
    ensures var sel: Selection := map[b.name := b];
      Pass([a, b, r], map[], ctx) == if Passes(r, sel, ctx) then (sel[r.name := r], []) else (sel, [r])
  {
    var m: Selection := map[];
    assert [a, b, r][1..] == [b, r] && [b, r][1..] == [r] && [r][1..] == [];
    assert m[a.name := a][b.name := b] == map[b.name := b];
    assert Passes(a, m, ctx) && Passes(b, m[a.name := a], ctx);
    assert Pass([r], map[b.name := b], ctx)
      == if Passes(r, map[b.name := b], ctx) then (map[b.name := b][r.name := r], []) else (map[b.name := b], [r]);
    assert Pass([b, r], m[a.name := a], ctx) == Pass([r], map[b.name := b], ctx);
  }
}
