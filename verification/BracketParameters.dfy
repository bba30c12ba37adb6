/** Node parameters arriving as query keys such as "currentNodeParameters[options][limit]". */
module BracketParameters {
  import opened JsonValues
  import opened Sequences

  const KEY_PREFIX := "currentNodeParameters"

  // ----- keys -----

  /** The first closing bracket at or behind `i`, or the length of the string. */
  function CloseFrom(s: string, i: nat): (j: nat)
    requires i <= |s|
    ensures i <= j <= |s| && (j < |s| ==> s[j] == ']') && forall k :: i <= k < j ==> s[k] != ']'
    decreases |s| - i
  {
    if i == |s| || s[i] == ']' then i else CloseFrom(s, i + 1)
  }

  /** All leftmost, non-overlapping matches of an opening bracket, a non-empty name and a closing bracket. */
  function BracketNames(s: string, i: nat): seq<string>
    requires i <= |s|
    decreases |s| - i
  {
    if i == |s| then []
    else if s[i] != '[' then BracketNames(s, i + 1)
    else
      var j := CloseFrom(s, i + 1);
      if j < |s| && j > i + 1 then [s[i + 1..j]] + BracketNames(s, j + 1) else BracketNames(s, i + 1)
  }

  /** An opening bracket at `i`, the next closing bracket at `j`, and a name between them. */
  predicate IsMatch(s: string, i: int, j: int) {
    0 <= i && i + 1 < j < |s| && s[i] == '[' && s[j] == ']' && forall k :: i < k < j ==> s[k] != ']'
  }

  ghost predicate AllMatch(s: string, from: nat, starts: seq<int>, ends: seq<int>)
    requires |starts| == |ends|
  {
    forall m :: 0 <= m < |starts| ==> from <= starts[m] && IsMatch(s, starts[m], ends[m])
  }

  ghost predicate Apart(starts: seq<int>, ends: seq<int>)
    requires |starts| == |ends|
  {
    forall m, n :: 0 <= m < n < |starts| ==> ends[m] < starts[n]
  }

  /** The matches from `from` on that are found one behind the other: every match begins within one of them. */
  ghost predicate AreMatches(s: string, from: nat, starts: seq<int>, ends: seq<int>) {
    && |starts| == |ends| && AllMatch(s, from, starts, ends) && Apart(starts, ends)
    && (forall i, j :: from <= i && IsMatch(s, i, j) ==> IsCovered(starts, ends, i))
  }

  ghost predicate IsCovered(starts: seq<int>, ends: seq<int>, i: int)
    requires |starts| == |ends|
  {
    exists m :: 0 <= m < |starts| && starts[m] <= i <= ends[m]
  }

  /** The names are those between the brackets of the matches. */
  ghost predicate AreNames(s: string, starts: seq<int>, ends: seq<int>, names: seq<string>) {
    |names| == |starts| == |ends| && forall m :: 0 <= m < |starts| ==>
      0 <= starts[m] < ends[m] <= |s| && names[m] == s[starts[m] + 1..ends[m]]
  }

  /** What the names in a key are, for every string. */
  lemma {:induction false} BracketNamesMeaning(s: string, i: nat) returns (starts: seq<int>, ends: seq<int>)
    requires i <= |s|
    ensures AreMatches(s, i, starts, ends) && AreNames(s, starts, ends, BracketNames(s, i))
    decreases |s| - i
  {
    if i == |s| {
      starts, ends := [], [];
    } else if s[i] == '[' && CloseFrom(s, i + 1) < |s| && CloseFrom(s, i + 1) > i + 1 {
      var j := CloseFrom(s, i + 1);
      var starts', ends' := BracketNamesMeaning(s, j + 1);
      starts, ends := [i] + starts', [j] + ends';
      MatchesCons(s, i, j, starts', ends');
      NamesCons(s, i, j, starts', ends', BracketNames(s, j + 1));
    } else {
      starts, ends := BracketNamesMeaning(s, i + 1);
      MatchesSkip(s, i, starts, ends);
    }
  }

  lemma MatchesSkip(s: string, i: nat, starts: seq<int>, ends: seq<int>)
    requires i < |s| && AreMatches(s, i + 1, starts, ends)
    requires s[i] != '[' || CloseFrom(s, i + 1) == |s| || CloseFrom(s, i + 1) == i + 1
    ensures AreMatches(s, i, starts, ends)
  {
    forall p, q | i <= p && IsMatch(s, p, q)
      ensures IsCovered(starts, ends, p)
    {
      NoMatchAt(s, i, q);
      assert i + 1 <= p;
    }
  }

  lemma NoMatchAt(s: string, i: nat, j: int)
    requires i < |s|
    requires s[i] != '[' || CloseFrom(s, i + 1) == |s| || CloseFrom(s, i + 1) == i + 1
    ensures !IsMatch(s, i, j)
  {
  }

  lemma NamesCons(s: string, i: nat, j: nat, starts: seq<int>, ends: seq<int>, names: seq<string>)
    requires i < j < |s| && AreNames(s, starts, ends, names)
    ensures AreNames(s, [i] + starts, [j] + ends, [s[i + 1..j]] + names)
  {
  }

  lemma CoveredCons(i: int, j: int, starts: seq<int>, ends: seq<int>, p: int)
    requires |starts| == |ends| && (i <= p <= j || IsCovered(starts, ends, p))
    ensures IsCovered([i] + starts, [j] + ends, p)
  {
    if i <= p <= j {
      assert ([i] + starts)[0] <= p <= ([j] + ends)[0];
    } else {
      var m :| 0 <= m < |starts| && starts[m] <= p <= ends[m];
      assert ([i] + starts)[m + 1] <= p <= ([j] + ends)[m + 1];
    }
  }

  lemma AllMatchCons(s: string, i: nat, j: nat, starts: seq<int>, ends: seq<int>)
    requires IsMatch(s, i, j) && |starts| == |ends| && AllMatch(s, j + 1, starts, ends)
    ensures AllMatch(s, i, [i] + starts, [j] + ends)
  {
  }

  lemma ApartCons(s: string, i: nat, j: nat, starts: seq<int>, ends: seq<int>)
    requires |starts| == |ends| && AllMatch(s, j + 1, starts, ends) && Apart(starts, ends)
    ensures Apart([i] + starts, [j] + ends)
  {
  }

  lemma MatchesCons(s: string, i: nat, j: nat, starts: seq<int>, ends: seq<int>)
    requires IsMatch(s, i, j) && AreMatches(s, j + 1, starts, ends)
    ensures AreMatches(s, i, [i] + starts, [j] + ends)
  {
    AllMatchCons(s, i, j, starts, ends);
    ApartCons(s, i, j, starts, ends);
    forall p, q | i <= p && IsMatch(s, p, q)
      ensures IsCovered([i] + starts, [j] + ends, p)
    {
      CoveredCons(i, j, starts, ends, p);
    }
  }

  function Bracketed(path: seq<string>): string {
    if path == [] then "" else "[" + path[0] + "]" + Bracketed(path[1..])
  }

  /** The query key of a parameter path. */
  function KeyOf(path: seq<string>): string {
    KEY_PREFIX + Bracketed(path)
  }

  /** Names the key syntax can carry. */
  predicate ValidName(name: string) {
    name != "" && ']' !in name
  }

  predicate ValidPath(path: seq<string>) {
    path != [] && forall i :: 0 <= i < |path| ==> ValidName(path[i])
  }

  /** A bracket pair around a name is found, and the search goes on behind it. */
  lemma BracketAt(s: string, i: nat, j: nat)
    requires i + 1 < j < |s| && s[i] == '[' && s[j] == ']' && forall k :: i < k < j ==> s[k] != ']'
    ensures BracketNames(s, i) == [s[i + 1..j]] + BracketNames(s, j + 1)
  {
    assert CloseFrom(s, i + 1) == j;
  }

  lemma NameAt(front: string, name: string, body: string, tail: string)
    requires ValidName(name) && body == "[" + name + "]" + tail
    ensures BracketNames(front + body, |front|) == [name] + BracketNames(front + body, |front| + |name| + 2)
  {
    var s, i, j := front + body, |front|, |front| + 1 + |name|;
    BodyChars(name, body, tail);
    assert s[i] == body[0] && s[j] == body[1 + |name|];
    forall k | i < k < j
      ensures s[k] != ']'
    {
      assert s[k] == body[k - i] == name[k - i - 1] && name[k - i - 1] in name;
    }
    assert s[i + 1..j] == body[1..1 + |name|];
    BracketAt(s, i, j);
  }

  lemma BodyChars(name: string, body: string, tail: string)
    requires body == "[" + name + "]" + tail
    ensures |body| > 1 + |name| && body[0] == '[' && body[1 + |name|] == ']'
    ensures body[1..1 + |name|] == name && forall k :: 0 <= k < |name| ==> body[1 + k] == name[k]
  {
  }

  lemma {:induction false} NamesOfBracketed(path: seq<string>, front: string)
    requires forall i :: 0 <= i < |path| ==> ValidName(path[i])
    ensures BracketNames(front + Bracketed(path), |front|) == path
    decreases |path|
  {
    if path == [] {
    } else {
      var name, rest := path[0], path[1..];
      var next := front + "[" + name + "]";
      assert front + Bracketed(path) == next + Bracketed(rest);
      NameAt(front, name, Bracketed(path), Bracketed(rest));
      NamesOfBracketed(rest, next);
      assert path == [name] + rest;
    }
  }

  lemma {:induction false} SkipPlain(s: string, i: nat, j: nat)
    requires i <= j <= |s| && forall k :: i <= k < j ==> s[k] != '['
    ensures BracketNames(s, i) == BracketNames(s, j)
    decreases j - i
  {
    if i < j {
      SkipPlain(s, i + 1, j);
    }
  }

  /** The names found in a printed key are the path that was printed. */
  lemma NamesOfKey(path: seq<string>)
    requires ValidPath(path)
    ensures BracketNames(KeyOf(path), 0) == path
  {
    var s := KeyOf(path);
    assert forall k :: 0 <= k < |KEY_PREFIX| ==> s[k] == KEY_PREFIX[k] && KEY_PREFIX[k] != '[';
    SkipPlain(s, 0, |KEY_PREFIX|);
    NamesOfBracketed(path, KEY_PREFIX);
  }

  /** The pieces of a key: every name of the path in brackets. */
  ghost predicate AreBracketed(pieces: seq<string>, path: seq<string>) {
    |pieces| == |path| && forall i :: 0 <= i < |path| ==> pieces[i] == "[" + path[i] + "]"
  }

  /** What a key looks like, letter by letter. */
  lemma {:induction false} KeyMeaning(path: seq<string>) returns (pieces: seq<string>)
    ensures AreBracketed(pieces, path) && KeyOf(path) == "currentNodeParameters" + Concat(pieces)
    decreases |path|
  {
    if path == [] {
      pieces := [];
    } else {
      var rest := KeyMeaning(path[1..]);
      pieces := ["[" + path[0] + "]"] + rest;
      assert pieces[1..] == rest;
      assert KeyOf(path[1..])[|KEY_PREFIX|..] == Concat(rest);
    }
  }

  // ----- building the tree -----

  /** Put a value at a path; None is the write into a nil map when a leaf blocks the way. */
  function Insert(tree: Json, path: seq<string>, value: string): Option<Json>
    requires tree.Obj?
    ensures Insert(tree, path, value).Some? ==> Insert(tree, path, value).value.Obj?
    decreases |path|
  {
    if path == [] then Some(tree)
    else
      var name := path[0];
      if |path| == 1 then Some(if name in tree.fields then tree else Obj(tree.fields[name := Str(value)]))
      else if name in tree.fields && !tree.fields[name].Obj? then None
      else
        var child := if name in tree.fields then tree.fields[name] else Obj(map[]);
        match Insert(child, path[1..], value)
        case None => None
        case Some(child') => Some(Obj(tree.fields[name := child']))
  }

  function InsertKey(tree: Json, key: string, value: string): Option<Json>
    requires tree.Obj?
    ensures InsertKey(tree, key, value).Some? ==> InsertKey(tree, key, value).value.Obj?
  {
    if KEY_PREFIX <= key then Insert(tree, BracketNames(key, 0), value) else Some(tree)
  }

  /** A key sets a parameter only if it begins with this word, and then at the names in its brackets. */
  lemma OnlyPrefixedKeysCount(tree: Json, key: string, value: string)
    requires tree.Obj?
    ensures (exists rest :: key == "currentNodeParameters" + rest) ==>
              InsertKey(tree, key, value) == Insert(tree, BracketNames(key, 0), value)
    ensures (forall rest :: key != "currentNodeParameters" + rest) ==> InsertKey(tree, key, value) == Some(tree)
  {
    if KEY_PREFIX <= key {
      assert key == "currentNodeParameters" + key[|KEY_PREFIX|..];
    }
  }

  function InsertAll(querys: map<string, string>, order: seq<string>): Option<Json>
    requires forall i :: 0 <= i < |order| ==> order[i] in querys
    ensures InsertAll(querys, order).Some? ==> InsertAll(querys, order).value.Obj?
  {
    if order == [] then Some(Obj(map[]))
    else
      var key := order[|order| - 1];
      match InsertAll(querys, order[..|order| - 1])
      case None => None
      case Some(tree) => InsertKey(tree, key, querys[key])
  }

  /** One possible iteration order over the query map. */
  ghost predicate IsOrder(querys: map<string, string>, order: seq<string>) {
    && (forall i :: 0 <= i < |order| ==> order[i] in querys)
    && (forall i, j :: 0 <= i < j < |order| ==> order[i] != order[j])
    && (forall k :: k in querys ==> k in order)
  }

  lemma InsertAllNext(querys: map<string, string>, order: seq<string>, n: nat)
    requires forall i :: 0 <= i < |order| ==> order[i] in querys
    requires n < |order| && InsertAll(querys, order[..n]).Some?
    ensures InsertAll(querys, order[..n + 1])
         == InsertKey(InsertAll(querys, order[..n]).value, order[n], querys[order[n]])
  {
    assert order[..n + 1][..n] == order[..n];
  }

  lemma {:induction false} BlockedStays(querys: map<string, string>, order: seq<string>, n: nat)
    requires forall i :: 0 <= i < |order| ==> order[i] in querys
    requires n <= |order| && InsertAll(querys, order[..n]).None?
    ensures InsertAll(querys, order).None?
    decreases |order| - n
  {
    if n < |order| {
      assert order[..n + 1][..n] == order[..n];
      BlockedStays(querys, order, n + 1);
    } else {
      assert order[..n] == order;
    }
  }

  // ----- reading the tree -----

  /** The string at a path, if the path ends at a leaf. */
  function Leaf(tree: Json, path: seq<string>): Option<string>
    decreases |path|
  {
    if path == [] then (if tree.Str? then Some(tree.s) else None)
    else if tree.Obj? && path[0] in tree.fields then Leaf(tree.fields[path[0]], path[1..])
    else None
  }

  /** Strings at the leaves, and no empty object below the root. */
  predicate Proper(tree: Json)
    decreases tree
  {
    tree.Str? || (tree.Obj? && tree.fields != map[] && forall n :: n in tree.fields ==> Proper(tree.fields[n]))
  }

  predicate ProperRoot(tree: Json) {
    tree.Obj? && forall n :: n in tree.fields ==> Proper(tree.fields[n])
  }

  lemma {:induction false} SomeLeaf(tree: Json) returns (path: seq<string>)
    requires Proper(tree)
    ensures Leaf(tree, path).Some? && (tree.Obj? ==> path != [])
    decreases tree
  {
    if tree.Str? {
      path := [];
    } else {
      var n :| n in tree.fields;
      var rest := SomeLeaf(tree.fields[n]);
      path := [n] + rest;
      assert path[1..] == rest;
    }
  }

  /** A proper tree is determined by its leaves. */
  lemma {:induction false} LeavesDetermineTree(a: Json, b: Json)
    requires (ProperRoot(a) && ProperRoot(b)) || (Proper(a) && Proper(b))
    requires forall path :: Leaf(a, path) == Leaf(b, path)
    ensures a == b
    decreases a
  {
    if a.Str? || b.Str? {
      assert Leaf(a, []) == Leaf(b, []);
    } else {
      forall n
        ensures n in a.fields <==> n in b.fields
        ensures n in a.fields && n in b.fields ==> a.fields[n] == b.fields[n]
      {
        SameBranch(a, b, n);
        if n in a.fields && n in b.fields {
          forall path
            ensures Leaf(a.fields[n], path) == Leaf(b.fields[n], path)
          {
            assert ([n] + path)[1..] == path;
            assert Leaf(a, [n] + path) == Leaf(b, [n] + path);
          }
          LeavesDetermineTree(a.fields[n], b.fields[n]);
        }
      }
      assert a.fields == b.fields;
    }
  }

  lemma SameBranch(a: Json, b: Json, n: string)
    requires a.Obj? && b.Obj?
    requires forall m :: m in a.fields ==> Proper(a.fields[m])
    requires forall m :: m in b.fields ==> Proper(b.fields[m])
    requires forall path :: Leaf(a, path) == Leaf(b, path)
    ensures n in a.fields <==> n in b.fields
  {
    if n in a.fields {
      var path := SomeLeaf(a.fields[n]);
      assert ([n] + path)[1..] == path;
      assert Leaf(a, [n] + path) == Leaf(b, [n] + path);
    }
    if n in b.fields {
      var path := SomeLeaf(b.fields[n]);
      assert ([n] + path)[1..] == path;
      assert Leaf(a, [n] + path) == Leaf(b, [n] + path);
    }
  }

  /** No leaf of the tree is at a prefix or an extension of the path. */
  ghost predicate Unrelated(tree: Json, path: seq<string>) {
    forall q :: Leaf(tree, q).Some? ==> !(q <= path) && !(path <= q)
  }

  lemma UnrelatedBelow(tree: Json, path: seq<string>)
    requires tree.Obj? && path != [] && path[0] in tree.fields && Unrelated(tree, path)
    ensures Unrelated(tree.fields[path[0]], path[1..])
  {
    var name := path[0];
    forall q | Leaf(tree.fields[name], q).Some?
      ensures !(q <= path[1..]) && !(path[1..] <= q)
    {
      var full := [name] + q;
      assert full[1..] == q && Leaf(tree, full).Some?;
      assert path == [name] + path[1..];
      assert q <= path[1..] ==> full <= path;
      assert path[1..] <= q ==> path <= full;
    }
  }

  /** A path next to no leaf is free: its first name is new, or leads to an object above it. */
  lemma FreeStep(tree: Json, path: seq<string>)
    requires ProperRoot(tree) && path != [] && Unrelated(tree, path) && path[0] in tree.fields
    ensures |path| > 1 && tree.fields[path[0]].Obj?
  {
    var name := path[0];
    assert path == [name] + path[1..] && [name][1..] == [];
    assert tree.fields[name].Str? ==> Leaf(tree, [name]).Some?;
    var q := SomeLeaf(tree.fields[name]);
    var full := [name] + q;
    assert full[1..] == q && Leaf(tree, full).Some?;
    assert |path| == 1 ==> path <= full;
  }

  /** Inserting at a free path adds exactly that leaf. */
  lemma {:induction false} InsertAddsLeaf(tree: Json, path: seq<string>, value: string)
    requires ProperRoot(tree) && path != [] && Unrelated(tree, path)
    ensures Insert(tree, path, value).Some? && ProperRoot(Insert(tree, path, value).value)
    ensures Insert(tree, path, value).value.fields != map[]
    ensures forall q :: Leaf(Insert(tree, path, value).value, q) == if q == path then Some(value) else Leaf(tree, q)
    decreases |path|
  {
    var name := path[0];
    if name in tree.fields {
      FreeStep(tree, path);
    }
    if |path| == 1 {
      var tree' := Insert(tree, path, value).value;
      assert name in tree'.fields;
      forall q
        ensures Leaf(tree', q) == if q == path then Some(value) else Leaf(tree, q)
      {
        if q != [] && q[0] == name && q != path {
          assert q[1..] != [];
        }
      }
    } else {
      var child := if name in tree.fields then tree.fields[name] else Obj(map[]);
      if name in tree.fields {
        UnrelatedBelow(tree, path);
      } else {
        EmptyHasNoLeaf();
      }
      InsertAddsLeaf(child, path[1..], value);
      var tree' := Insert(tree, path, value).value;
      assert name in tree'.fields;
      forall q
        ensures Leaf(tree', q) == if q == path then Some(value) else Leaf(tree, q)
      {
        LeafBelow(tree, tree', path, q, value);
      }
    }
  }

  lemma EmptyHasNoLeaf()
    ensures forall q :: Leaf(Obj(map[]), q).None?
  {
  }

  lemma LeafBelow(tree: Json, tree': Json, path: seq<string>, q: seq<string>, value: string)
    requires tree.Obj? && tree'.Obj? && |path| > 1
    requires path[0] in tree'.fields && tree' == Obj(tree.fields[path[0] := tree'.fields[path[0]]])
    requires tree'.fields[path[0]].Obj? && (path[0] in tree.fields ==> tree.fields[path[0]].Obj?)
    requires var child := if path[0] in tree.fields then tree.fields[path[0]] else Obj(map[]);
      forall r :: Leaf(tree'.fields[path[0]], r) == if r == path[1..] then Some(value) else Leaf(child, r)
    ensures Leaf(tree', q) == if q == path then Some(value) else Leaf(tree, q)
  {
    if q != [] && q[0] == path[0] {
      assert q == [q[0]] + q[1..] && path == [path[0]] + path[1..];
      if path[0] !in tree.fields {
        EmptyHasNoLeaf();
      }
    }
  }

  // ----- the round trip -----

  /** The query map carries exactly these parameters; keys without the prefix may be anything. */
  ghost predicate Carries(querys: map<string, string>, params: map<seq<string>, string>) {
    && (forall p :: p in params ==> ValidPath(p) && KeyOf(p) in querys && querys[KeyOf(p)] == params[p])
    && (forall k :: k in querys && KEY_PREFIX <= k ==> exists p :: p in params && k == KeyOf(p))
  }

  ghost predicate PrefixFree(params: map<seq<string>, string>) {
    forall p, q :: p in params && q in params && p <= q ==> p == q
  }

  ghost predicate LeavesOf(tree: Json, order: seq<string>, params: map<seq<string>, string>) {
    forall q :: Leaf(tree, q) == if q in params && KeyOf(q) in order then Some(params[q]) else None
  }

  lemma KeyOfInjective(p: seq<string>, q: seq<string>)
    requires ValidPath(p) && ValidPath(q) && KeyOf(p) == KeyOf(q)
    ensures p == q
  {
    NamesOfKey(p);
    NamesOfKey(q);
  }

  lemma FreshKeyIsFree(tree: Json, front: seq<string>, params: map<seq<string>, string>, p: seq<string>)
    requires PrefixFree(params) && LeavesOf(tree, front, params)
    requires p in params && KeyOf(p) !in front
    ensures Unrelated(tree, p)
  {
    forall q | Leaf(tree, q).Some?
      ensures !(q <= p) && !(p <= q)
    {
      assert q in params && KeyOf(q) in front;
    }
  }

  lemma LeavesAfterKey(tree: Json, tree': Json, front: seq<string>, params: map<seq<string>, string>, p: seq<string>)
    requires forall q :: q in params ==> ValidPath(q)
    requires LeavesOf(tree, front, params) && p in params
    requires forall q :: Leaf(tree', q) == if q == p then Some(params[p]) else Leaf(tree, q)
    ensures LeavesOf(tree', front + [KeyOf(p)], params)
  {
    forall q
      ensures Leaf(tree', q) == if q in params && KeyOf(q) in front + [KeyOf(p)] then Some(params[q]) else None
    {
      if q in params && KeyOf(q) == KeyOf(p) {
        KeyOfInjective(p, q);
      }
    }
  }

  lemma LeavesAfterOther(tree: Json, front: seq<string>, key: string, params: map<seq<string>, string>)
    requires LeavesOf(tree, front, params) && !(KEY_PREFIX <= key)
    ensures LeavesOf(tree, front + [key], params)
  {
    forall q
      ensures KeyOf(q) in front + [key] <==> KeyOf(q) in front
    {
      assert KEY_PREFIX <= KeyOf(q);
    }
  }

  lemma {:induction false} BuildsLeaves(
      querys: map<string, string>, order: seq<string>, params: map<seq<string>, string>)
    requires PrefixFree(params) && Carries(querys, params)
    requires forall i :: 0 <= i < |order| ==> order[i] in querys
    requires forall i, j :: 0 <= i < j < |order| ==> order[i] != order[j]
    ensures InsertAll(querys, order).Some?
    ensures ProperRoot(InsertAll(querys, order).value)
    ensures LeavesOf(InsertAll(querys, order).value, order, params)
    decreases |order|
  {
    if order == [] {
      EmptyHasNoLeaf();
    } else {
      var front, key := order[..|order| - 1], order[|order| - 1];
      BuildsLeaves(querys, front, params);
      assert order == front + [key];
      var tree := InsertAll(querys, front).value;
      if KEY_PREFIX <= key {
        var p :| p in params && key == KeyOf(p);
        NamesOfKey(p);
        FreshKeyIsFree(tree, front, params, p);
        InsertAddsLeaf(tree, p, querys[key]);
        LeavesAfterKey(tree, Insert(tree, p, querys[key]).value, front, params, p);
      } else {
        LeavesAfterOther(tree, front, key, params);
      }
    }
  }

  /** Every parameter reads back, there is no other leaf, and the leaves spell out the query map again. */
  lemma ParametersRoundTrip(querys: map<string, string>, order: seq<string>, params: map<seq<string>, string>)
    requires PrefixFree(params) && Carries(querys, params) && IsOrder(querys, order)
    ensures InsertAll(querys, order).Some?
    ensures forall q, v :: Leaf(InsertAll(querys, order).value, q) == Some(v) <==> q in params && params[q] == v
    ensures forall q, v :: Leaf(InsertAll(querys, order).value, q) == Some(v) ==>
              KeyOf(q) in querys && querys[KeyOf(q)] == v
    ensures forall k :: k in querys && KEY_PREFIX <= k ==>
              exists q :: KeyOf(q) == k && Leaf(InsertAll(querys, order).value, q) == Some(querys[k])
  {
    BuildsLeaves(querys, order, params);
    var tree := InsertAll(querys, order).value;
    forall k | k in querys && KEY_PREFIX <= k
      ensures exists q :: KeyOf(q) == k && Leaf(tree, q) == Some(querys[k])
    {
      var p :| p in params && k == KeyOf(p);
      assert Leaf(tree, p) == Some(querys[k]);
    }
  }

  lemma {:induction false} NoLeafBelowLeaf(tree: Json, p: seq<string>, q: seq<string>)
    requires p <= q && Leaf(tree, p).Some? && Leaf(tree, q).Some?
    ensures p == q
    decreases |p|
  {
    if p == [] {
    } else {
      NoLeafBelowLeaf(tree.fields[p[0]], p[1..], q[1..]);
      assert p == [p[0]] + p[1..] && q == [q[0]] + q[1..];
    }
  }

  /** Whatever the order, the parameters all read back exactly when none is a prefix of another. */
  lemma ReadsBackIff(querys: map<string, string>, order: seq<string>, params: map<seq<string>, string>)
    requires Carries(querys, params) && IsOrder(querys, order)
    ensures (&& InsertAll(querys, order).Some?
             && forall p :: p in params ==> Leaf(InsertAll(querys, order).value, p) == Some(params[p]))
        <==> PrefixFree(params)
  {
    if PrefixFree(params) {
      BuildsLeaves(querys, order, params);
    } else {
      var p, q :| p in params && q in params && p <= q && p != q;
      var result := InsertAll(querys, order);
      if result.Some? && Leaf(result.value, p).Some? && Leaf(result.value, q).Some? {
        NoLeafBelowLeaf(result.value, p, q);
        assert false;
      }
    }
  }

  /** The tree does not depend on the order in which the query map is visited. */
  lemma ParametersOrderIndependent(
      querys: map<string, string>, order: seq<string>, order': seq<string>, params: map<seq<string>, string>)
    requires PrefixFree(params) && Carries(querys, params) && IsOrder(querys, order) && IsOrder(querys, order')
    ensures InsertAll(querys, order) == InsertAll(querys, order')
  {
    BuildsLeaves(querys, order, params);
    BuildsLeaves(querys, order', params);
    var a, b := InsertAll(querys, order).value, InsertAll(querys, order').value;
    forall q
      ensures Leaf(a, q) == Leaf(b, q)
    {
      assert q in params ==> KeyOf(q) in order && KeyOf(q) in order';
    }
    LeavesDetermineTree(a, b);
  }

  /** A path below an existing leaf runs into the write to a nil map. */
  lemma {:induction false} BlockedByLeaf(tree: Json, p: seq<string>, q: seq<string>, value: string)
    requires tree.Obj? && p != [] && p < q && Leaf(tree, p).Some?
    ensures Insert(tree, q, value).None?
    decreases |p|
  {
    if |p| > 1 {
      assert p[1..] < q[1..];
      BlockedByLeaf(tree.fields[p[0]], p[1..], q[1..], value);
    } else {
      assert p[1..] == [];
    }
  }

  /** A path above an existing leaf is dropped. */
  lemma {:induction false} DroppedAboveLeaf(tree: Json, p: seq<string>, q: seq<string>, value: string)
    requires tree.Obj? && p != [] && p < q && Leaf(tree, q).Some?
    ensures Insert(tree, p, value) == Some(tree)
    decreases |p|
  {
    if |p| > 1 {
      assert p[1..] < q[1..];
      var child := tree.fields[p[0]];
      DroppedAboveLeaf(child, p[1..], q[1..], value);
      assert tree.fields[p[0] := child] == tree.fields;
    }
  }

  lemma Enumerate(keys: set<string>) returns (order: seq<string>)
    ensures forall k :: k in order <==> k in keys
    ensures forall i, j :: 0 <= i < j < |order| ==> order[i] != order[j]
    decreases |keys|
  {
    if keys == {} {
      order := [];
    } else {
      var k :| k in keys;
      var rest := Enumerate(keys - {k});
      order := rest + [k];
    }
  }

  /** Only the values of the listed keys matter. */
  lemma {:induction false} InsertAllAgrees(
      querys: map<string, string>, querys': map<string, string>, order: seq<string>)
    requires forall i :: 0 <= i < |order| ==> order[i] in querys && order[i] in querys'
    requires forall i :: 0 <= i < |order| ==> querys[order[i]] == querys'[order[i]]
    ensures InsertAll(querys, order) == InsertAll(querys', order)
    decreases |order|
  {
    if order == [] {
    } else {
      InsertAllAgrees(querys, querys', order[..|order| - 1]);
    }
  }

  lemma {:induction false} EmptyTakesAnyPath(path: seq<string>, value: string)
    requires path != []
    ensures Insert(Obj(map[]), path, value).Some?
    ensures Leaf(Insert(Obj(map[]), path, value).value, path) == Some(value)
    decreases |path|
  {
    if |path| == 1 {
      assert path[1..] == [];
    } else {
      EmptyTakesAnyPath(path[1..], value);
    }
  }

  lemma InsertKeyOfPath(tree: Json, path: seq<string>, value: string)
    requires tree.Obj? && ValidPath(path)
    ensures InsertKey(tree, KeyOf(path), value) == Insert(tree, path, value)
  {
    NamesOfKey(path);
  }

  /** With the shorter path visited first the longer one writes into nil. */
  lemma ShorterFirstPanics(
      querys: map<string, string>, order: seq<string>, params: map<seq<string>, string>, p: seq<string>,
      q: seq<string>)
    requires Carries(querys, params) && p in params && q in params && p < q
    requires forall i :: 0 <= i < |order| ==> order[i] in querys
    requires |order| >= 2 && order[0] == KeyOf(p) && order[1] == KeyOf(q)
    ensures InsertAll(querys, order).None?
  {
    InsertAllNext(querys, order, 0);
    assert order[..0] == [] && InsertAll(querys, []) == Some(Obj(map[]));
    InsertKeyOfPath(Obj(map[]), p, querys[KeyOf(p)]);
    EmptyTakesAnyPath(p, querys[KeyOf(p)]);
    var tree := InsertAll(querys, order[..1]).value;
    InsertAllNext(querys, order, 1);
    InsertKeyOfPath(tree, q, querys[KeyOf(q)]);
    BlockedByLeaf(tree, p, q, querys[KeyOf(q)]);
    BlockedStays(querys, order, 2);
  }

  lemma CarriesRest(querys: map<string, string>, params: map<seq<string>, string>, p: seq<string>)
    requires Carries(querys, params) && p in params
    ensures Carries(querys - {KeyOf(p)}, params - {p})
  {
    var others, params' := querys - {KeyOf(p)}, params - {p};
    forall r | r in params'
      ensures ValidPath(r) && KeyOf(r) in others && others[KeyOf(r)] == params'[r]
    {
      if KeyOf(r) == KeyOf(p) {
        KeyOfInjective(r, p);
      }
    }
    forall k | k in others && KEY_PREFIX <= k
      ensures exists r :: r in params' && k == KeyOf(r)
    {
      var r :| r in params && k == KeyOf(r);
      assert r in params';
    }
  }

  /** Everything but the shorter path, in any order, builds a tree with the rest of the leaves. */
  lemma OthersBuild(
      querys: map<string, string>, front: seq<string>, params: map<seq<string>, string>, p: seq<string>)
    requires Carries(querys, params) && p in params && PrefixFree(params - {p})
    requires forall k :: k in front <==> k in querys && k != KeyOf(p)
    requires forall i, j :: 0 <= i < j < |front| ==> front[i] != front[j]
    ensures forall i :: 0 <= i < |front| ==> front[i] in querys
    ensures InsertAll(querys, front).Some?
    ensures LeavesOf(InsertAll(querys, front).value, front, params - {p})
  {
    var others := querys - {KeyOf(p)};
    CarriesRest(querys, params, p);
    forall i | 0 <= i < |front|
      ensures front[i] in others && front[i] in querys
    {
      assert front[i] in front;
    }
    BuildsLeaves(others, front, params - {p});
    InsertAllAgrees(others, querys, front);
  }

  /** With the shorter path visited last it is dropped, and everything else reads back. */
  lemma ShorterLastIsDropped(
      querys: map<string, string>, front: seq<string>, params: map<seq<string>, string>, p: seq<string>,
      q: seq<string>)
    requires Carries(querys, params) && p in params && q in params && p < q && PrefixFree(params - {p})
    requires forall k :: k in front <==> k in querys && k != KeyOf(p)
    requires forall i, j :: 0 <= i < j < |front| ==> front[i] != front[j]
    ensures forall i :: 0 <= i < |front + [KeyOf(p)]| ==> (front + [KeyOf(p)])[i] in querys
    ensures InsertAll(querys, front + [KeyOf(p)]).Some?
    ensures LeavesOf(InsertAll(querys, front + [KeyOf(p)]).value, front, params - {p})
  {
    OthersBuild(querys, front, params, p);
    var tree, value := InsertAll(querys, front).value, querys[KeyOf(p)];
    CarriesRest(querys, params, p);
    assert q in params - {p};
    assert KeyOf(q) in front;
    InsertKeyOfPath(tree, p, value);
    DroppedAboveLeaf(tree, p, q, value);
    InsertAllSnoc(querys, front, KeyOf(p));
  }

  lemma InsertAllSnoc(querys: map<string, string>, front: seq<string>, key: string)
    requires key in querys && forall i :: 0 <= i < |front| ==> front[i] in querys
    requires InsertAll(querys, front).Some?
    ensures forall i :: 0 <= i < |front + [key]| ==> (front + [key])[i] in querys
    ensures InsertAll(querys, front + [key]) == InsertKey(InsertAll(querys, front).value, key, querys[key])
  {
    assert (front + [key])[..|front|] == front;
  }

  lemma OrderStartingWith(querys: map<string, string>, first: string, second: string) returns (order: seq<string>)
    requires first in querys && second in querys && first != second
    ensures IsOrder(querys, order) && |order| >= 2 && order[0] == first && order[1] == second
  {
    var rest := Enumerate(querys.Keys - {first, second});
    order := [first, second] + rest;
    forall i | 0 <= i < |order|
      ensures order[i] in querys
    {
      assert i >= 2 ==> order[i] == rest[i - 2] && rest[i - 2] in rest;
    }
    forall i, j | 0 <= i < j < |order|
      ensures order[i] != order[j]
    {
      assert j >= 2 ==> order[j] == rest[j - 2] && rest[j - 2] in rest;
    }
    forall k | k in querys
      ensures k in order
    {
      assert k == order[0] || k == order[1] || k in rest;
    }
  }

  lemma OrderEndingWith(querys: map<string, string>, last: string) returns (front: seq<string>)
    requires last in querys
    ensures forall k :: k in front <==> k in querys && k != last
    ensures IsOrder(querys, front + [last])
  {
    front := Enumerate(querys.Keys - {last});
    var order := front + [last];
    forall i | 0 <= i < |order|
      ensures order[i] in querys
    {
      assert i < |front| ==> front[i] in front;
    }
    forall i, j | 0 <= i < j < |order|
      ensures order[i] != order[j]
    {
      assert front[i] in front;
    }
    forall k | k in querys
      ensures k in order
    {
      assert k == order[|front|] || k in front;
    }
  }

  lemma DroppedLeaves(
      tree: Json, querys: map<string, string>, front: seq<string>, params: map<seq<string>, string>, p: seq<string>,
      r: seq<string>)
    requires Carries(querys, params) && p in params && LeavesOf(tree, front, params - {p})
    requires forall k :: k in front <==> k in querys && k != KeyOf(p)
    ensures Leaf(tree, r) == if r in params && r != p then Some(params[r]) else None
  {
    if r in params && r != p {
      if KeyOf(r) == KeyOf(p) {
        KeyOfInjective(r, p);
      }
      assert KeyOf(r) in front && r in params - {p};
    }
  }

  /**
   Where one path is a prefix of another and no other pair conflicts, the iteration order decides: one order
   writes into nil, another gives a tree that lacks the shorter path and has everything else.
   */
  lemma ConflictDependsOnOrder(
      querys: map<string, string>, params: map<seq<string>, string>, p: seq<string>, q: seq<string>)
      returns (panics: seq<string>, drops: seq<string>)
    requires Carries(querys, params) && p in params && q in params && p < q && PrefixFree(params - {p})
    ensures IsOrder(querys, panics) && IsOrder(querys, drops)
    ensures InsertAll(querys, panics).None?
    ensures InsertAll(querys, drops).Some?
    ensures forall r :: Leaf(InsertAll(querys, drops).value, r)
                     == if r in params && r != p then Some(params[r]) else None
  {
    if KeyOf(p) == KeyOf(q) {
      KeyOfInjective(p, q);
    }
    panics := OrderStartingWith(querys, KeyOf(p), KeyOf(q));
    ShorterFirstPanics(querys, panics, params, p, q);
    var front := OrderEndingWith(querys, KeyOf(p));
    drops := front + [KeyOf(p)];
    FrontIsDistinct(front, KeyOf(p));
    ShorterLastIsDropped(querys, front, params, p, q);
    var tree := InsertAll(querys, drops).value;
    forall r
      ensures Leaf(tree, r) == if r in params && r != p then Some(params[r]) else None
    {
      DroppedLeaves(tree, querys, front, params, p, r);
    }
  }

  lemma FrontIsDistinct(front: seq<string>, last: string)
    requires forall i, j :: 0 <= i < j < |front + [last]| ==> (front + [last])[i] != (front + [last])[j]
    ensures forall i, j :: 0 <= i < j < |front| ==> front[i] != front[j]
  {
    forall i, j | 0 <= i < j < |front|
      ensures front[i] != front[j]
    {
      assert (front + [last])[i] == front[i] && (front + [last])[j] == front[j];
    }
  }
}
