/** JSON values as the workflow service passes them between nodes (map[string]interface{} trees). */
module JsonValues {

  datatype Option<+T> = None | Some(value: T)

  datatype Result<+T, +E> = Ok(value: T) | Err(error: E)

  /** Go's nil interface value is Null. */
  datatype Json =
    | Null
    | Bool(b: bool)
    | Num(n: real)
    | Str(s: string)
    | Arr(items: seq<Json>)
    | Obj(fields: map<string, Json>)

  /** One element of a NodeData list. */
  type Item = map<string, Json>

  /** The parts of a dotted path. */
  function SplitDots(s: string): (parts: seq<string>)
    ensures parts != []
    decreases |s|
  {
    if s == [] then [""]
    else
      var rest := SplitDots(s[1..]);
      if s[0] == '.' then [""] + rest else [[s[0]] + rest[0]] + rest[1..]
  }

  /** Whether `part` occurs in the string. */
  predicate Contains(s: string, part: string)
    decreases |s|
  {
    part <= s || (s != [] && Contains(s[1..], part))
  }

  // ----- what these functions mean -----

  function JoinDots(parts: seq<string>): string
    requires parts != []
  {
    if |parts| == 1 then parts[0] else parts[0] + "." + JoinDots(parts[1..])
  }

  predicate NoDots(parts: seq<string>) {
    forall i :: 0 <= i < |parts| ==> '.' !in parts[i]
  }

  lemma JoinAfterDot(parts: seq<string>)
    requires parts != []
    ensures JoinDots([""] + parts) == "." + JoinDots(parts)
  {
    assert ([""] + parts)[1..] == parts && "" + "." == ".";
  }

  lemma JoinAfterChar(c: char, parts: seq<string>)
    requires parts != []
    ensures JoinDots([[c] + parts[0]] + parts[1..]) == [c] + JoinDots(parts)
  {
    var all := [[c] + parts[0]] + parts[1..];
    assert all[1..] == parts[1..];
    if |parts| > 1 {
      assert ([c] + parts[0]) + "." + JoinDots(parts[1..]) == [c] + (parts[0] + "." + JoinDots(parts[1..]));
    }
  }

  /** The parts hold no dot, and joined by dots they are the path. */
  lemma {:induction false} SplitDotsMeaning(s: string)
    ensures NoDots(SplitDots(s)) && JoinDots(SplitDots(s)) == s
    decreases |s|
  {
    if s == [] {
    } else {
      var rest := SplitDots(s[1..]);
      SplitDotsMeaning(s[1..]);
      assert [s[0]] + s[1..] == s;
      if s[0] == '.' {
        JoinAfterDot(rest);
      } else {
        JoinAfterChar(s[0], rest);
      }
    }
  }

  lemma {:induction false} SplitWithoutDot(part: string)
    requires '.' !in part
    ensures SplitDots(part) == [part]
    decreases |part|
  {
    if part == [] {
    } else {
      SplitWithoutDot(part[1..]);
      assert [part[0]] + part[1..] == part;
    }
  }

  lemma {:induction false} SplitBehindPart(part: string, tail: string)
    requires '.' !in part
    ensures SplitDots(part + "." + tail) == [part] + SplitDots(tail)
    decreases |part|
  {
    var s := part + "." + tail;
    if part == [] {
      assert s[0] == '.' && s[1..] == tail;
    } else {
      SplitBehindPart(part[1..], tail);
      assert s[0] == part[0] && s[1..] == part[1..] + "." + tail;
      assert [part[0]] + part[1..] == part;
    }
  }

  /** There is no other way to split: splitting undoes joining. */
  lemma {:induction false} SplitOfJoin(parts: seq<string>)
    requires parts != [] && NoDots(parts)
    ensures SplitDots(JoinDots(parts)) == parts
    decreases |parts|
  {
    if |parts| == 1 {
      SplitWithoutDot(parts[0]);
    } else {
      SplitOfJoin(parts[1..]);
      SplitBehindPart(parts[0], JoinDots(parts[1..]));
    }
  }

  predicate Surrounds(s: string, front: string, part: string, back: string) {
    s == front + part + back
  }

  lemma SurroundsHere(s: string, part: string)
    ensures part <= s <==> exists back :: Surrounds(s, [], part, back)
  {
    if part <= s {
      assert Surrounds(s, [], part, s[|part|..]);
    }
  }

  lemma SurroundsLater(s: string, front: string, part: string, back: string)
    requires s != []
    ensures Surrounds(s, [s[0]] + front, part, back) <==> Surrounds(s[1..], front, part, back)
  {
    assert [s[0]] + s[1..] == s && ([s[0]] + front) + part + back == [s[0]] + (front + part + back);
  }

  /** A string contains a part when the part stands somewhere in it. */
  lemma {:induction false} ContainsMeaning(s: string, part: string)
    ensures Contains(s, part) <==> exists front, back :: Surrounds(s, front, part, back)
    decreases |s|
  {
    SurroundsHere(s, part);
    if s == [] {
    } else {
      ContainsMeaning(s[1..], part);
      if front, back :| Surrounds(s[1..], front, part, back) {
        SurroundsLater(s, front, part, back);
      }
      if front, back :| Surrounds(s, front, part, back) && front != [] {
        assert front[0] == s[0] && [s[0]] + front[1..] == front;
        SurroundsLater(s, front[1..], part, back);
      }
    }
  }

  /** `v` is the field of this name. */
  predicate IsField(root: Json, name: string, v: Json) {
    root.Obj? && name in root.fields && v == root.fields[name]
  }

  /** Values that lie one inside the other along a path of field names. */
  ghost predicate Chain(chain: seq<Json>, root: Json, path: seq<string>) {
    && |chain| == |path| + 1 && chain[0] == root
    && forall i :: 0 <= i < |path| ==> IsField(chain[i], path[i], chain[i + 1])
  }

  ghost predicate LiesAt(root: Json, path: seq<string>, v: Json) {
    exists chain :: Chain(chain, root, path) && chain[|path|] == v
  }

  lemma LiesAtEnd(root: Json, v: Json)
    ensures LiesAt(root, [], v) <==> v == root
  {
    if v == root {
      assert Chain([root], root, []);
    }
  }

  lemma ChainTail(chain: seq<Json>, root: Json, path: seq<string>)
    requires path != [] && Chain(chain, root, path)
    ensures root.Obj? && path[0] in root.fields && Chain(chain[1..], root.fields[path[0]], path[1..])
  {
    assert IsField(chain[0], path[0], chain[1]);
    forall i | 0 <= i < |path[1..]|
      ensures IsField(chain[1..][i], path[1..][i], chain[1..][i + 1])
    {
      assert IsField(chain[i + 1], path[i + 1], chain[i + 2]);
    }
  }

  lemma ChainCons(rest: seq<Json>, root: Json, path: seq<string>)
    requires path != [] && root.Obj? && path[0] in root.fields && Chain(rest, root.fields[path[0]], path[1..])
    ensures Chain([root] + rest, root, path)
  {
    var chain := [root] + rest;
    forall i | 0 <= i < |path|
      ensures IsField(chain[i], path[i], chain[i + 1])
    {
      if i > 0 {
        assert IsField(rest[i - 1], path[1..][i - 1], rest[i]);
      }
    }
  }

  lemma LiesBelow(root: Json, path: seq<string>, v: Json)
    requires path != []
    ensures LiesAt(root, path, v)
       <==> root.Obj? && path[0] in root.fields && LiesAt(root.fields[path[0]], path[1..], v)
  {
    if chain: seq<Json> :| Chain(chain, root, path) && chain[|path|] == v {
      ChainTail(chain, root, path);
      assert chain[1..][|path[1..]|] == v;
    }
    if root.Obj? && path[0] in root.fields && LiesAt(root.fields[path[0]], path[1..], v) {
      var rest: seq<Json> :| Chain(rest, root.fields[path[0]], path[1..]) && rest[|path[1..]|] == v;
      ChainCons(rest, root, path);
      assert ([root] + rest)[|path|] == v;
    }
  }
}

/** Facts about finite sequences that several modules need. */
module Sequences {

  function Without<T>(s: seq<T>, i: nat): seq<T>
    requires i < |s|
  {
    s[..i] + s[i + 1..]
  }

  lemma MultisetWithout<T>(s: seq<T>, i: nat)
    requires i < |s|
    ensures multiset(s) == multiset(Without(s, i)) + multiset{s[i]}
  {
    assert s == s[..i] + [s[i]] + s[i + 1..];
  }

  /** Equal multisets: the first element of one can be removed from the other. */
  lemma RemoveFirst<T>(a: seq<T>, b: seq<T>) returns (i: nat)
    requires a != [] && multiset(a) == multiset(b)
    ensures i < |b| && b[i] == a[0] && multiset(Without(b, i)) == multiset(a[1..])
  {
    assert a == [a[0]] + a[1..];
    assert a[0] in multiset(b);
    i :| 0 <= i < |b| && b[i] == a[0];
    MultisetWithout(b, i);
    assert multiset(a) == multiset(a[1..]) + multiset{a[0]};
    assert multiset(a[1..]) == multiset(a) - multiset{a[0]};
    assert multiset(Without(b, i)) == multiset(b) - multiset{b[i]};
  }

  /** The sequence ascends, below the bound. */
  ghost predicate Ascends(r: seq<nat>, bound: nat) {
    && (forall a :: 0 <= a < |r| ==> r[a] < bound)
    && (forall a, b :: 0 <= a < b < |r| ==> r[a] < r[b])
  }

  function Concat<T>(parts: seq<seq<T>>): seq<T> {
    if parts == [] then [] else parts[0] + Concat(parts[1..])
  }

  lemma {:induction false} ConcatSnoc<T>(parts: seq<seq<T>>, last: seq<T>)
    ensures Concat(parts + [last]) == Concat(parts) + last
    decreases |parts|
  {
    if parts == [] {
      assert [last][1..] == [] && last + [] == last && [] + last == last;
    } else {
      ConcatSnoc(parts[1..], last);
      assert (parts + [last])[1..] == parts[1..] + [last];
      assert parts[0] + (Concat(parts[1..]) + last) == parts[0] + Concat(parts[1..]) + last;
    }
  }

  lemma EmptyPermutation<T>(b: seq<T>)
    requires multiset(b) == multiset([])
    ensures b == []
  {
    assert |multiset(b)| == |b|;
  }
}
