/** The recursive merge of JSON objects used by the merge node, and its algebra. */
module DeepMerge {
  import opened JsonValues

  /** mergeObjects: the source wins, except that two objects are merged key by key. */
  function MergeObjects(dest: Json, src: Json): Json
    decreases dest
  {
    if !dest.Obj? || !src.Obj? then src
    else Obj(map k | k in dest.fields.Keys + src.fields.Keys ::
      if k !in src.fields then dest.fields[k]
      else if k in dest.fields && dest.fields[k].Obj? && src.fields[k].Obj?
      then MergeObjects(dest.fields[k], src.fields[k])
      else src.fields[k])
  }

  function MergeAll(target: Json, others: seq<Json>): Json {
    if others == [] then target
    else MergeObjects(MergeAll(target, others[..|others| - 1]), others[|others| - 1])
  }

  /** The left fold of merge. */
  method Merge(target: Json, others: seq<Json>) returns (result: Json)
    ensures result == MergeAll(target, others)
  {
    result := target;
    for i := 0 to |others|
      invariant result == MergeAll(target, others[..i])
    {
      assert others[..i + 1][..i] == others[..i];
      result := MergeObjects(result, others[i]);
    }
    assert others[..|others|] == others;
  }

  /** One key of the merge of two objects. */
  lemma MergeAt(a: map<string, Json>, b: map<string, Json>, k: string)
    ensures MergeObjects(Obj(a), Obj(b)).Obj?
    ensures k in MergeObjects(Obj(a), Obj(b)).fields <==> k in a || k in b
    ensures k in b && k !in a ==> MergeObjects(Obj(a), Obj(b)).fields[k] == b[k]
    ensures k in a && k !in b ==> MergeObjects(Obj(a), Obj(b)).fields[k] == a[k]
    ensures k in a && k in b ==> MergeObjects(Obj(a), Obj(b)).fields[k] == MergeObjects(a[k], b[k])
  {
  }

  /** The source holds an object along a front part of the path, and nothing under the next name. */
  ghost predicate Silent(src: Json, path: seq<string>, n: int, fields: map<string, Json>) {
    0 <= n < |path| && LiesAt(src, path[..n], Obj(fields)) && path[n] !in fields
  }

  lemma SilentHere(src: Json, path: seq<string>, fields: map<string, Json>)
    ensures Silent(src, path, 0, fields) <==> path != [] && src == Obj(fields) && path[0] !in fields
  {
    assert path != [] ==> path[..0] == [];
    LiesAtEnd(src, Obj(fields));
  }

  lemma SilentFurther(src: Json, path: seq<string>, n: nat, fields: map<string, Json>)
    requires path != []
    ensures Silent(src, path, n + 1, fields)
       <==> src.Obj? && path[0] in src.fields && Silent(src.fields[path[0]], path[1..], n, fields)
  {
    if n + 1 < |path| {
      assert path[..n + 1][1..] == path[1..][..n] && path[..n + 1][0] == path[0];
      LiesBelow(src, path[..n + 1], Obj(fields));
    }
  }

  ghost predicate SaysNothing(src: Json, path: seq<string>) {
    exists n, fields :: Silent(src, path, n, fields)
  }

  lemma SilentBelow(src: Json, path: seq<string>)
    requires path != []
    ensures SaysNothing(src, path)
       <==> src.Obj? && (path[0] in src.fields ==> SaysNothing(src.fields[path[0]], path[1..]))
  {
    if n, fields :| Silent(src, path, n, fields) {
      if n == 0 {
        SilentHere(src, path, fields);
      } else {
        SilentFurther(src, path, n - 1, fields);
      }
    }
    if src.Obj? {
      if path[0] !in src.fields {
        SilentHere(src, path, src.fields);
      } else if n, fields :| Silent(src.fields[path[0]], path[1..], n, fields) {
        SilentFurther(src, path, n, fields);
      }
    }
  }

  /**
   The values of the merge: a value that is no object lies at a path exactly when it lies there in the source,
   or lies there in the destination and the source has nothing to say about the path.
   */
  lemma {:induction false} MergedValue(dest: Json, src: Json, path: seq<string>, v: Json)
    requires !v.Obj?
    ensures LiesAt(MergeObjects(dest, src), path, v)
       <==> LiesAt(src, path, v) || (LiesAt(dest, path, v) && SaysNothing(src, path))
    decreases |path|
  {
    if path == [] {
      LiesAtEnd(MergeObjects(dest, src), v);
      LiesAtEnd(src, v);
      LiesAtEnd(dest, v);
    } else {
      LiesBelow(MergeObjects(dest, src), path, v);
      LiesBelow(src, path, v);
      LiesBelow(dest, path, v);
      SilentBelow(src, path);
      if dest.Obj? && src.Obj? {
        MergeAt(dest.fields, src.fields, path[0]);
        if path[0] in dest.fields && path[0] in src.fields {
          MergedValue(dest.fields[path[0]], src.fields[path[0]], path[1..], v);
        }
      }
    }
  }

  /** The value lies at the path in the operand of this number, and no later operand says anything about the path. */
  ghost predicate Decides(operands: seq<Json>, path: seq<string>, v: Json, i: int) {
    && 0 <= i < |operands| && LiesAt(operands[i], path, v)
    && forall k :: i < k < |operands| ==> SaysNothing(operands[k], path)
  }

  lemma DecidesSnoc(front: seq<Json>, last: Json, path: seq<string>, v: Json)
    ensures (exists i :: Decides(front + [last], path, v, i))
       <==> LiesAt(last, path, v) || (SaysNothing(last, path) && exists i :: Decides(front, path, v, i))
  {
    var operands := front + [last];
    if i :| Decides(operands, path, v, i) {
      if i < |front| {
        assert operands[|front|] == last && SaysNothing(operands[|front|], path);
        assert forall k :: i < k < |front| ==> SaysNothing(operands[k], path) && operands[k] == front[k];
        assert Decides(front, path, v, i);
      }
    }
    if LiesAt(last, path, v) {
      assert Decides(operands, path, v, |front|);
    } else if SaysNothing(last, path) {
      if i :| Decides(front, path, v, i) {
        assert forall k :: i < k < |operands| ==> operands[k] == if k < |front| then front[k] else last;
        assert Decides(operands, path, v, i);
      }
    }
  }

  /** The values of the merge of several operands: each comes from the last operand that decides about its path. */
  lemma {:induction false} MergedAllValue(target: Json, others: seq<Json>, path: seq<string>, v: Json)
    requires !v.Obj?
    ensures LiesAt(MergeAll(target, others), path, v) <==> exists i :: Decides([target] + others, path, v, i)
    decreases |others|
  {
    if others == [] {
      assert [target] + others == [target];
      assert Decides([target], path, v, 0) <==> LiesAt(target, path, v);
    } else {
      var front, last := others[..|others| - 1], others[|others| - 1];
      MergedAllValue(target, front, path, v);
      MergedValue(MergeAll(target, front), last, path, v);
      DecidesSnoc([target] + front, last, path, v);
      assert [target] + others == ([target] + front) + [last];
    }
  }

  /** The empty object changes nothing on either side. */
  lemma EmptyObjectIsIdentity(a: Json)
    requires a.Obj?
    ensures MergeObjects(Obj(map[]), a) == a && MergeObjects(a, Obj(map[])) == a
  {
    assert MergeObjects(Obj(map[]), a).fields == a.fields;
    assert MergeObjects(a, Obj(map[])).fields == a.fields;
  }

  lemma {:induction false} MergeIdempotent(a: Json)
    ensures MergeObjects(a, a) == a
    decreases a
  {
    if a.Obj? {
      forall k | k in a.fields
        ensures MergeObjects(a, a).fields[k] == a.fields[k]
      {
        MergeIdempotent(a.fields[k]);
      }
      assert MergeObjects(a, a).fields == a.fields;
    }
  }

  /** Every key of `a` is in `c` too, at every depth at which both hold objects. */
  predicate Absorbed(a: Json, c: Json)
    requires a.Obj? && c.Obj?
    decreases a
  {
    forall k :: k in a.fields ==>
      k in c.fields && (a.fields[k].Obj? && c.fields[k].Obj? ==> Absorbed(a.fields[k], c.fields[k]))
  }

  /** Merging into `a` gives back `c` exactly when `c` covers all keys of `a`. */
  lemma {:induction false} AbsorbedIff(a: Json, c: Json)
    requires a.Obj? && c.Obj?
    ensures MergeObjects(a, c) == c <==> Absorbed(a, c)
    decreases a
  {
    var m := MergeObjects(a, c);
    forall k | k in a.fields && k in c.fields && a.fields[k].Obj? && c.fields[k].Obj?
      ensures m.fields[k] == c.fields[k] <==> Absorbed(a.fields[k], c.fields[k])
    {
      AbsorbedIff(a.fields[k], c.fields[k]);
    }
    if Absorbed(a, c) {
      assert m.fields.Keys == c.fields.Keys;
      forall k | k in c.fields
        ensures m.fields[k] == c.fields[k]
      {
      }
      assert m.fields == c.fields;
    }
    if m == c {
      forall k | k in a.fields
        ensures k in c.fields
      {
        MergeAt(a.fields, c.fields, k);
      }
    }
  }

  /**
   Nowhere does a non-object in `b` separate two objects in `a` and `c`, unless the one in `c` covers
   all keys of the one in `a` anyway.
   */
  predicate Regroupable(a: Json, b: Json, c: Json)
    decreases b
  {
    a.Obj? && c.Obj? ==>
      if b.Obj? then
        forall k :: k in b.fields && k in a.fields && k in c.fields ==>
          Regroupable(a.fields[k], b.fields[k], c.fields[k])
      else Absorbed(a, c)
  }

  lemma RegroupAt(a: Json, b: Json, c: Json, k: string)
    requires a.Obj? && b.Obj? && c.Obj?
    requires k in a.fields || k in b.fields || k in c.fields
    ensures var l, r := MergeObjects(MergeObjects(a, b), c), MergeObjects(a, MergeObjects(b, c));
      && l.Obj? && r.Obj? && k in l.fields && k in r.fields
      && (k in a.fields && k in b.fields && k in c.fields ==>
            && l.fields[k] == MergeObjects(MergeObjects(a.fields[k], b.fields[k]), c.fields[k])
            && r.fields[k] == MergeObjects(a.fields[k], MergeObjects(b.fields[k], c.fields[k])))
      && (!(k in a.fields && k in b.fields && k in c.fields) ==> l.fields[k] == r.fields[k])
  {
    var ab, bc := MergeObjects(a, b), MergeObjects(b, c);
    MergeAt(a.fields, b.fields, k);
    MergeAt(b.fields, c.fields, k);
    MergeAt(ab.fields, c.fields, k);
    MergeAt(a.fields, bc.fields, k);
  }

  /** Deep merge regroups exactly under this condition. */
  lemma {:induction false} MergeAssociativeIff(a: Json, b: Json, c: Json)
    ensures MergeObjects(MergeObjects(a, b), c) == MergeObjects(a, MergeObjects(b, c)) <==> Regroupable(a, b, c)
    decreases b
  {
    if a.Obj? && c.Obj? {
      if !b.Obj? {
        AbsorbedIff(a, c);
      } else {
        var l, r := MergeObjects(MergeObjects(a, b), c), MergeObjects(a, MergeObjects(b, c));
        forall k | k in b.fields && k in a.fields && k in c.fields
          ensures l.fields[k] == r.fields[k] <==> Regroupable(a.fields[k], b.fields[k], c.fields[k])
        {
          RegroupAt(a, b, c, k);
          MergeAssociativeIff(a.fields[k], b.fields[k], c.fields[k]);
        }
        if Regroupable(a, b, c) {
          assert l.fields.Keys == r.fields.Keys;
          forall k | k in l.fields
            ensures l.fields[k] == r.fields[k]
          {
            RegroupAt(a, b, c, k);
          }
          assert l.fields == r.fields;
        }
      }
    }
  }

  /** Every regrouping step of a left fold is allowed. */
  ghost predicate FoldRegroupable(x: Json, y: Json, ys: seq<Json>) {
    forall i :: 0 <= i < |ys| ==> Regroupable(x, MergeAll(y, ys[..i]), ys[i])
  }

  /** The first operand of the fold can be split off and merged last. */
  lemma {:induction false} FoldRegroups(x: Json, y: Json, ys: seq<Json>)
    requires FoldRegroupable(x, y, ys)
    ensures MergeAll(x, [y] + ys) == MergeObjects(x, MergeAll(y, ys))
  {
    if ys == [] {
      assert [y] + ys == [y] && [y][..0] == [];
      assert MergeAll(x, []) == x;
    } else {
      var n := |ys| - 1;
      assert ys == ys[..n] + [ys[n]];
      assert [y] + ys == ([y] + ys[..n]) + [ys[n]];
      forall i | 0 <= i < n
        ensures Regroupable(x, MergeAll(y, ys[..n][..i]), ys[..n][i])
      {
        assert ys[..n][..i] == ys[..i];
      }
      FoldRegroups(x, y, ys[..n]);
      MergeAllSnoc(x, [y] + ys[..n], ys[n]);
      MergeAllSnoc(y, ys[..n], ys[n]);
      MergeAssociativeIff(x, MergeAll(y, ys[..n]), ys[n]);
    }
  }

  lemma MergeAllSnoc(x: Json, ys: seq<Json>, z: Json)
    ensures MergeAll(x, ys + [z]) == MergeObjects(MergeAll(x, ys), z)
  {
    assert (ys + [z])[..|ys|] == ys;
  }

  /** The condition is needed: a scalar between two objects is not transparent, unless the second covers the first. */
  lemma ScalarInTheMiddle(k: string, inner1: Json, scalar: Json, inner2: Json)
    requires inner1.Obj? && inner2.Obj? && !scalar.Obj? && !Absorbed(inner1, inner2)
    ensures var a, b, c := Obj(map[k := inner1]), Obj(map[k := scalar]), Obj(map[k := inner2]);
      MergeObjects(MergeObjects(a, b), c) != MergeObjects(a, MergeObjects(b, c))
  {
    var a, b, c := Obj(map[k := inner1]), Obj(map[k := scalar]), Obj(map[k := inner2]);
    assert k in a.fields && k in b.fields && k in c.fields;
    assert !Regroupable(a.fields[k], b.fields[k], c.fields[k]);
    MergeAssociativeIff(a, b, c);
  }

  /** The smallest such case: the two groupings of three one-key objects differ. */
  lemma GroupingMatters()
    ensures var a, b, c := Obj(map["k" := Obj(map["x" := Null])]), Obj(map["k" := Null]), Obj(map["k" := Obj(map[])]);
      MergeObjects(MergeObjects(a, b), c) != MergeObjects(a, MergeObjects(b, c))
  {
    var inner := Obj(map["x" := Null]);
    assert "x" in inner.fields && !Absorbed(inner, Obj(map[]));
    ScalarInTheMiddle("k", inner, Null, Obj(map[]));
  }
}
