/** What show and hide rules mean, and which properties are displayed, said without the functions that decide it. */
module DisplayMeaning {
  import opened JsonValues
  import opened Sequences
  import opened DisplayOptions

  // ----- where a value comes from -----

  /** The value that lies at the path, or null when nothing does. */
  ghost predicate Reads(root: Json, path: seq<string>, v: Json) {
    LiesAt(root, path, v) || (v == Null && forall w :: !LiesAt(root, path, w))
  }

  lemma {:induction false} NodeValueReads(root: Json, path: seq<string>)
    ensures forall v :: Reads(root, path, v) <==> v == NodeValueByPath(root, path)
    decreases |path|
  {
    if path == [] {
      forall v
        ensures LiesAt(root, [], v) <==> v == root
      {
        LiesAtEnd(root, v);
      }
      assert LiesAt(root, path, root);
    } else {
      forall v
        ensures LiesAt(root, path, v)
           <==> root.Obj? && path[0] in root.fields && LiesAt(root.fields[path[0]], path[1..], v)
      {
        LiesBelow(root, path, v);
      }
      if root.Obj? && path[0] in root.fields {
        var child := root.fields[path[0]];
        NodeValueReads(child, path[1..]);
        forall v
          ensures Reads(root, path, v) <==> Reads(child, path[1..], v)
        {
        }
      }
    }
  }

  /** The value along a path: in the node's parameter if it has one, otherwise in a default that is not empty. */
  ghost predicate HasValue(p: Property, path: seq<string>, ctx: Context, v: Json) {
    if p.name in ctx.parameters then Reads(ctx.parameters[p.name], path, v)
    else if p.default == Null || p.default == Str("") then v == Null
    else Reads(p.default, path, v)
  }

  lemma ValueMeaning(p: Property, path: seq<string>, ctx: Context, v: Json)
    ensures HasValue(p, path, ctx, v) <==> v == ValueOf(p, path, ctx)
  {
    if p.name in ctx.parameters {
      NodeValueReads(ctx.parameters[p.name], path);
    } else {
      NodeValueReads(p.default, path);
    }
  }

  // ----- one rule -----

  /** The rule depends on this property and, inside its value, on this path; a leading slash is ignored. */
  ghost predicate DependsOn(rule: Rule, name: string, path: seq<string>) {
    && NoDots([name] + path)
    && (if "/" <= rule.path then rule.path == "/" + JoinDots([name] + path) else rule.path == JoinDots([name] + path))
  }

  lemma PathMeaning(rule: Rule, name: string, path: seq<string>)
    ensures DependsOn(rule, name, path) <==> PathParts(rule.path) == [name] + path
  {
    var bare := if rule.path != [] && rule.path[0] == '/' then rule.path[1..] else rule.path;
    assert "/" <= rule.path <==> rule.path != [] && rule.path[0] == '/';
    assert "/" <= rule.path ==> rule.path == "/" + bare;
    SplitDotsMeaning(bare);
    if DependsOn(rule, name, path) {
      SplitOfJoin([name] + path);
      assert rule.path == "/" + JoinDots([name] + path) ==> bare == JoinDots([name] + path);
    }
  }

  /** The rule depends on a selected property that has this value. */
  ghost predicate Sees(rule: Rule, sel: Selection, ctx: Context, v: Json) {
    exists name, path :: DependsOn(rule, name, path) && name in sel && HasValue(sel[name], path, ctx, v)
  }

  lemma SeesMeaning(rule: Rule, sel: Selection, ctx: Context, v: Json)
    ensures Sees(rule, sel, ctx, v)
       <==> PathParts(rule.path)[0] in sel
            && v == ValueOf(sel[PathParts(rule.path)[0]], PathParts(rule.path)[1..], ctx)
  {
    var parts := PathParts(rule.path);
    assert [parts[0]] + parts[1..] == parts;
    if name, path :| DependsOn(rule, name, path) && name in sel && HasValue(sel[name], path, ctx, v) {
      PathMeaning(rule, name, path);
      assert parts[0] == name && parts[1..] == path;
      ValueMeaning(sel[name], path, ctx, v);
    }
    if parts[0] in sel && v == ValueOf(sel[parts[0]], parts[1..], ctx) {
      PathMeaning(rule, parts[0], parts[1..]);
      ValueMeaning(sel[parts[0]], parts[1..], ctx, v);
    }
  }

  /** A selected property with a non-null value that the rule lists. */
  ghost predicate Met(rule: Rule, sel: Selection, ctx: Context) {
    exists v :: Sees(rule, sel, ctx, v) && v != Null && v in rule.values
  }

  /** A selected property with a null value, or one that the rule does not list. */
  ghost predicate Missed(rule: Rule, sel: Selection, ctx: Context) {
    exists v :: Sees(rule, sel, ctx, v) && (v == Null || v !in rule.values)
  }

  lemma MetOrMissed(rule: Rule, sel: Selection, ctx: Context)
    ensures var parts := PathParts(rule.path);
      && (Met(rule, sel, ctx) <==>
            && parts[0] in sel && ValueOf(sel[parts[0]], parts[1..], ctx) != Null
            && ValueOf(sel[parts[0]], parts[1..], ctx) in rule.values)
      && (Missed(rule, sel, ctx) <==>
            && parts[0] in sel && (ValueOf(sel[parts[0]], parts[1..], ctx) == Null
                                   || ValueOf(sel[parts[0]], parts[1..], ctx) !in rule.values))
  {
    forall v
      ensures Sees(rule, sel, ctx, v)
         <==> PathParts(rule.path)[0] in sel
              && v == ValueOf(sel[PathParts(rule.path)[0]], PathParts(rule.path)[1..], ctx)
    {
      SeesMeaning(rule, sel, ctx, v);
    }
    var parts := PathParts(rule.path);
    if parts[0] in sel {
      assert Sees(rule, sel, ctx, ValueOf(sel[parts[0]], parts[1..], ctx));
    }
  }

  // ----- rule lists -----

  /** No rule before this one asks for the version. */
  ghost predicate Reached(rules: seq<Rule>, i: int) {
    0 <= i < |rules| && forall k :: 0 <= k < i ==> rules[k].path != "@version"
  }

  /** All rules up to the first on the version are met; that one decides by the version, and the rest is skipped. */
  ghost predicate ShowAllows(rules: seq<Rule>, sel: Selection, ctx: Context) {
    forall i :: Reached(rules, i) ==>
      if rules[i].path == "@version" then Num(ctx.version) in rules[i].values else Met(rules[i], sel, ctx)
  }

  /** Some rule is missed, or asks for a version that is not listed, while all rules before it are met. */
  ghost predicate HideAllows(rules: seq<Rule>, sel: Selection, ctx: Context) {
    exists i :: MissedAt(rules, sel, ctx, i)
  }

  ghost predicate MissedAt(rules: seq<Rule>, sel: Selection, ctx: Context, i: int) {
    && Reached(rules, i)
    && (forall k :: 0 <= k < i ==> Met(rules[k], sel, ctx))
    && if rules[i].path == "@version" then Num(ctx.version) !in rules[i].values else Missed(rules[i], sel, ctx)
  }

  lemma ReachedTail(rules: seq<Rule>, i: int)
    requires rules != [] && rules[0].path != "@version"
    ensures Reached(rules[1..], i) <==> i >= 0 && Reached(rules, i + 1)
  {
    if Reached(rules[1..], i) {
      forall k | 0 <= k < i + 1
        ensures rules[k].path != "@version"
      {
        assert k > 0 ==> rules[k] == rules[1..][k - 1];
      }
    }
    if i >= 0 && Reached(rules, i + 1) {
      forall k | 0 <= k < i
        ensures rules[1..][k].path != "@version"
      {
        assert rules[1..][k] == rules[k + 1];
      }
    }
  }

  /** Show rules allow a property exactly in this sense. */
  lemma {:induction false} ShowMeaning(rules: seq<Rule>, sel: Selection, ctx: Context)
    ensures ShowPasses(rules, sel, ctx) <==> ShowAllows(rules, sel, ctx)
    decreases |rules|
  {
    if rules == [] {
    } else if rules[0].path == "@version" {
      assert Reached(rules, 0);
    } else {
      ShowMeaning(rules[1..], sel, ctx);
      MetOrMissed(rules[0], sel, ctx);
      ShowTail(rules, sel, ctx);
    }
  }

  lemma ShowTail(rules: seq<Rule>, sel: Selection, ctx: Context)
    requires rules != [] && rules[0].path != "@version"
    ensures ShowAllows(rules, sel, ctx) <==> Met(rules[0], sel, ctx) && ShowAllows(rules[1..], sel, ctx)
  {
    assert Reached(rules, 0);
    if ShowAllows(rules, sel, ctx) {
      forall i | Reached(rules[1..], i)
        ensures if rules[1..][i].path == "@version" then Num(ctx.version) in rules[1..][i].values
                else Met(rules[1..][i], sel, ctx)
      {
        ReachedTail(rules, i);
        assert rules[1..][i] == rules[i + 1];
      }
    }
    if Met(rules[0], sel, ctx) && ShowAllows(rules[1..], sel, ctx) {
      forall i | Reached(rules, i)
        ensures if rules[i].path == "@version" then Num(ctx.version) in rules[i].values else Met(rules[i], sel, ctx)
      {
        if i > 0 {
          ReachedTail(rules, i - 1);
          assert rules[i] == rules[1..][i - 1];
        }
      }
    }
  }

  /** Hide rules allow a property exactly in this sense. */
  lemma {:induction false} HideMeaning(rules: seq<Rule>, sel: Selection, ctx: Context)
    ensures HidePasses(rules, sel, ctx) <==> HideAllows(rules, sel, ctx)
    decreases |rules|
  {
    if rules == [] {
    } else if rules[0].path == "@version" {
      assert Reached(rules, 0);
      assert MissedAt(rules, sel, ctx, 0) <==> Num(ctx.version) !in rules[0].values;
      if i :| MissedAt(rules, sel, ctx, i) {
        assert i == 0;
      }
    } else {
      HideMeaning(rules[1..], sel, ctx);
      MetOrMissed(rules[0], sel, ctx);
      HideTail(rules, sel, ctx);
    }
  }

  lemma HideTail(rules: seq<Rule>, sel: Selection, ctx: Context)
    requires rules != [] && rules[0].path != "@version"
    ensures HideAllows(rules, sel, ctx)
       <==> Missed(rules[0], sel, ctx) || (Met(rules[0], sel, ctx) && HideAllows(rules[1..], sel, ctx))
  {
    assert Reached(rules, 0);
    if Missed(rules[0], sel, ctx) {
      assert MissedAt(rules, sel, ctx, 0);
    }
    if i :| MissedAt(rules, sel, ctx, i) {
      if i > 0 {
        MissedTail(rules, sel, ctx, i - 1);
      }
    }
    if Met(rules[0], sel, ctx) && HideAllows(rules[1..], sel, ctx) {
      var i :| MissedAt(rules[1..], sel, ctx, i);
      MissedTail(rules, sel, ctx, i);
    }
  }

  lemma MissedTail(rules: seq<Rule>, sel: Selection, ctx: Context, i: int)
    requires rules != [] && rules[0].path != "@version" && i >= 0
    ensures MissedAt(rules, sel, ctx, i + 1) <==> Met(rules[0], sel, ctx) && MissedAt(rules[1..], sel, ctx, i)
  {
    ReachedTail(rules, i);
    if Reached(rules[1..], i) {
      assert rules[1..][i] == rules[i + 1];
      assert forall k :: 0 <= k < i ==> rules[1..][k] == rules[k + 1];
      assert (forall k :: 0 <= k < i + 1 ==> Met(rules[k], sel, ctx))
        <==> Met(rules[0], sel, ctx) && forall k :: 0 <= k < i ==> Met(rules[1..][k], sel, ctx);
    }
  }

  // ----- which properties are displayed -----

  /** Its show rules and its hide rules allow the property; absent rules allow it. */
  ghost predicate MayShow(p: Property, sel: Selection, ctx: Context) {
    && (p.show.Some? ==> ShowAllows(p.show.value, sel, ctx))
    && (p.hide.Some? ==> HideAllows(p.hide.value, sel, ctx))
  }

  lemma PassesMeaning(p: Property, sel: Selection, ctx: Context)
    ensures Passes(p, sel, ctx) <==> MayShow(p, sel, ctx)
  {
    if p.show.Some? {
      ShowMeaning(p.show.value, sel, ctx);
    }
    if p.hide.Some? {
      HideMeaning(p.hide.value, sel, ctx);
    }
  }

  /** Properties of the list under their own names, with every property that may be shown among them by name. */
  ghost predicate IsClosed(props: seq<Property>, sel: Selection, ctx: Context) {
    && (forall n :: n in sel ==> sel[n] in props && sel[n].name == n)
    && forall p :: p in props && MayShow(p, sel, ctx) ==> p.name in sel
  }

  /** Whatever the defaults are, no property that is left out may be shown. */
  lemma DisplayedAreClosed(props: seq<Property>, ctx: Context)
    ensures IsClosed(props, Filter(props, map[], ctx), ctx)
  {
    var sel := Filter(props, map[], ctx);
    FilterClosed(props, ctx);
    forall p | p in props && MayShow(p, sel, ctx)
      ensures p.name in sel
    {
      PassesMeaning(p, sel, ctx);
    }
  }

  /** With shared defaults all displayed properties may be shown, and no closed selection shows fewer. */
  lemma DisplayedAreLeast(props: seq<Property>, ctx: Context)
    requires SharedDefaults(props, ctx)
    ensures var sel := Filter(props, map[], ctx);
      && (forall n :: n in sel ==> MayShow(sel[n], sel, ctx))
      && (forall other: Selection :: IsClosed(props, other, ctx) ==> sel.Keys <= other.Keys)
  {
    var sel := Filter(props, map[], ctx);
    FilterIsLeastFixpoint(props, ctx);
    forall n | n in sel
      ensures MayShow(sel[n], sel, ctx)
    {
      PassesMeaning(sel[n], sel, ctx);
    }
    forall other: Selection | IsClosed(props, other, ctx)
      ensures sel.Keys <= other.Keys
    {
      forall p
        ensures Passes(p, other, ctx) <==> MayShow(p, other, ctx)
      {
        PassesMeaning(p, other, ctx);
      }
      assert Consistent(props, other) && Closed(props, other, ctx);
    }
  }

  // ----- one pass -----

  /** At its turn a property that may be shown takes its name over, and any other changes nothing. */
  ghost predicate IsTurn(p: Property, before: Selection, after: Selection, ctx: Context) {
    after == if MayShow(p, before, ctx) then before[p.name := p] else before
  }

  /** The selections between the turns. */
  ghost predicate AreTurns(props: seq<Property>, sels: seq<Selection>, ctx: Context) {
    |sels| == |props| + 1 && forall k :: 0 <= k < |props| ==> IsTurn(props[k], sels[k], sels[k + 1], ctx)
  }

  /** What each turn leaves over: the property itself if it could not be shown, otherwise nothing. */
  ghost predicate AreLeft(props: seq<Property>, sels: seq<Selection>, left: seq<seq<Property>>, ctx: Context)
    requires |sels| == |props| + 1
  {
    |left| == |props| && forall k :: 0 <= k < |props| ==>
      left[k] == if MayShow(props[k], sels[k], ctx) then [] else [props[k]]
  }

  /** A pass gives every property its turn, in the order of the list; what the turns leave over remains. */
  lemma {:induction false} PassMeaning(props: seq<Property>, sel: Selection, ctx: Context)
      returns (sels: seq<Selection>, left: seq<seq<Property>>)
    ensures AreTurns(props, sels, ctx) && sels[0] == sel && AreLeft(props, sels, left, ctx)
    ensures Pass(props, sel, ctx) == (sels[|props|], Concat(left))
    decreases |props|
  {
    if props == [] {
      sels, left := [sel], [];
    } else {
      var shown := MayShow(props[0], sel, ctx);
      var next := if shown then sel[props[0].name := props[0]] else sel;
      var here := if shown then [] else [props[0]];
      var sels', left' := PassMeaning(props[1..], next, ctx);
      sels, left := [sel] + sels', [here] + left';
      FirstTurn(props, sel, ctx);
      TurnsCons(props, sel, sels', ctx);
      LeftCons(props, sel, sels', left', ctx);
      assert left[1..] == left' && sels[|props|] == sels'[|props| - 1];
    }
  }

  lemma FirstTurn(props: seq<Property>, sel: Selection, ctx: Context)
    requires props != []
    ensures var shown := MayShow(props[0], sel, ctx);
            var rest := Pass(props[1..], if shown then sel[props[0].name := props[0]] else sel, ctx);
      Pass(props, sel, ctx) == (rest.0, (if shown then [] else [props[0]]) + rest.1)
  {
    PassesMeaning(props[0], sel, ctx);
    if MayShow(props[0], sel, ctx) {
      var rest := Pass(props[1..], sel[props[0].name := props[0]], ctx);
      assert [] + rest.1 == rest.1;
    }
  }

  lemma TurnsCons(props: seq<Property>, sel: Selection, sels: seq<Selection>, ctx: Context)
    requires props != [] && AreTurns(props[1..], sels, ctx) && IsTurn(props[0], sel, sels[0], ctx)
    ensures AreTurns(props, [sel] + sels, ctx)
  {
    forall k | 0 <= k < |props|
      ensures IsTurn(props[k], ([sel] + sels)[k], ([sel] + sels)[k + 1], ctx)
    {
      assert k > 0 ==> IsTurn(props[1..][k - 1], sels[k - 1], sels[k], ctx);
    }
  }

  lemma LeftCons(
      props: seq<Property>, sel: Selection, sels: seq<Selection>, left: seq<seq<Property>>, ctx: Context)
    requires props != [] && |sels| == |props| && AreLeft(props[1..], sels, left, ctx)
    ensures AreLeft(props, [sel] + sels, [if MayShow(props[0], sel, ctx) then [] else [props[0]]] + left, ctx)
  {
    var all, first := [sel] + sels, if MayShow(props[0], sel, ctx) then [] else [props[0]];
    forall k | 0 <= k < |props|
      ensures ([first] + left)[k] == if MayShow(props[k], all[k], ctx) then [] else [props[k]]
    {
      if k > 0 {
        assert props[1..][k - 1] == props[k] && sels[k - 1] == all[k];
      }
    }
  }
}
