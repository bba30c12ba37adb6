/** The merge node's matching of two item lists by field values. */
module MergeJoin {
  import opened JsonValues
  import opened Sequences

  datatype FieldPair = FieldPair(field1: string, field2: string)

  datatype Options =
    Options(joinMode: string, outputDataFrom: string, multipleMatches: string, disableDotNotation: bool)

  datatype EntryMatch = EntryMatch(entry: Item, matches: seq<Item>)

  datatype MatchResult =
    MatchResult(entryMatches: seq<EntryMatch>, matched2: seq<Item>, unmatched1: seq<Item>, unmatched2: seq<Item>)

  // ----- field access -----

  /** Walk down nested objects; the first value that is no object ends the walk, an object at the end is no value. */
  function ValueAt(fields: map<string, Json>, keys: seq<string>): Json
    decreases |keys|
  {
    if keys == [] || keys[0] !in fields then Null
    else if fields[keys[0]].Obj? then ValueAt(fields[keys[0]].fields, keys[1..])
    else fields[keys[0]]
  }

  method GetValFromObject(target: map<string, Json>, path: string) returns (value: Json)
    ensures value == ValueAt(target, SplitDots(path))
  {
    var keys, current := SplitDots(path), target;
    for i := 0 to |keys|
      invariant ValueAt(current, keys[i..]) == ValueAt(target, keys)
    {
      if keys[i] !in current {
        return Null;
      }
      if !current[keys[i]].Obj? {
        return current[keys[i]];
      }
      current := current[keys[i]].fields;
    }
    value := Null;
  }

  function FieldOf(fields: map<string, Json>, name: string, disableDots: bool): Json {
    if disableDots then (if name in fields then fields[name] else Null) else ValueAt(fields, SplitDots(name))
  }

  method GetField(fields: map<string, Json>, name: string, disableDots: bool) returns (value: Json)
    ensures value == FieldOf(fields, name, disableDots)
  {
    if disableDots {
      value := if name in fields then fields[name] else Null;
    } else {
      value := GetValFromObject(fields, name);
    }
  }

  predicate HasObject(item: Item) {
    "json" in item && item["json"].Obj?
  }

  // ----- one left item -----

  function LookupOf(fields: map<string, Json>, pairs: seq<FieldPair>, disableDots: bool): map<string, Json> {
    if pairs == [] then map[]
    else
      var last := pairs[|pairs| - 1];
      LookupOf(fields, pairs[..|pairs| - 1], disableDots)[last.field2 := FieldOf(fields, last.field1, disableDots)]
  }

  /** A left item takes part if it is an object and none of its compared fields is missing or null. */
  predicate Eligible(item: Item, pairs: seq<FieldPair>, disableDots: bool) {
    && HasObject(item)
    && forall i :: 0 <= i < |pairs| ==> FieldOf(item["json"].fields, pairs[i].field1, disableDots) != Null
  }

  predicate MatchesLookup(item: Item, lookup: map<string, Json>, disableDots: bool) {
    && HasObject(item)
    && forall k :: k in lookup ==> FieldOf(item["json"].fields, k, disableDots) == lookup[k]
  }

  function MatchIndexes(items: seq<Item>, lookup: map<string, Json>, disableDots: bool): (r: seq<nat>)
    ensures forall k :: 0 <= k < |r| ==> r[k] < |items|
  {
    if items == [] then []
    else
      var n := |items| - 1;
      MatchIndexes(items[..n], lookup, disableDots) + if MatchesLookup(items[n], lookup, disableDots) then [n] else []
  }

  function Pick(items: seq<Item>, indexes: seq<nat>): seq<Item>
    requires forall k :: 0 <= k < |indexes| ==> indexes[k] < |items|
  {
    seq(|indexes|, k requires 0 <= k < |indexes| => items[indexes[k]])
  }

  function Found(items: seq<Item>, lookup: map<string, Json>, disableDots: bool, findAll: bool): (r: seq<nat>)
    ensures forall k :: 0 <= k < |r| ==> r[k] < |items|
  {
    var all := MatchIndexes(items, lookup, disableDots);
    if findAll || all == [] then all else [all[0]]
  }

  method MatchesItem(item: Item, lookup: map<string, Json>, disableDots: bool) returns (match': bool)
    ensures match' == MatchesLookup(item, lookup, disableDots)
  {
    if !HasObject(item) {
      return false;
    }
    var keys := lookup.Keys;
    while keys != {}
      invariant keys <= lookup.Keys
      invariant forall k :: k in lookup && k !in keys ==> FieldOf(item["json"].fields, k, disableDots) == lookup[k]
      decreases |keys|
    {
      var key :| key in keys;
      var value := GetField(item["json"].fields, key, disableDots);
      if value != lookup[key] {
        return false;
      }
      keys := keys - {key};
    }
    match' := true;
  }

  lemma {:induction false} FirstMatch(items: seq<Item>, lookup: map<string, Json>, disableDots: bool, n: nat)
    requires n <= |items|
    ensures MatchIndexes(items[..n], lookup, disableDots) <= MatchIndexes(items, lookup, disableDots)
    decreases |items| - n
  {
    if n < |items| {
      FirstMatch(items, lookup, disableDots, n + 1);
      assert items[..n + 1][..n] == items[..n];
    } else {
      assert items[..n] == items;
    }
  }

  lemma FoundFirst(items: seq<Item>, lookup: map<string, Json>, disableDots: bool, n: nat)
    requires n < |items| && MatchIndexes(items[..n], lookup, disableDots) == []
    requires MatchesLookup(items[n], lookup, disableDots)
    ensures Found(items, lookup, disableDots, false) == [n] && Pick(items, [n]) == [items[n]]
  {
    assert items[..n + 1][..n] == items[..n];
    FirstMatch(items, lookup, disableDots, n + 1);
    assert MatchIndexes(items[..n + 1], lookup, disableDots) == [n];
  }

  /** One more item looked at. */
  lemma MatchNext(items: seq<Item>, lookup: map<string, Json>, disableDots: bool, i: nat)
    requires i < |items|
    ensures var before := MatchIndexes(items[..i], lookup, disableDots);
      var after := MatchIndexes(items[..i + 1], lookup, disableDots);
      && after == before + (if MatchesLookup(items[i], lookup, disableDots) then [i] else [])
      && Pick(items[..i + 1], after)
         == Pick(items[..i], before) + if MatchesLookup(items[i], lookup, disableDots) then [items[i]] else []
  {
    assert items[..i + 1][..i] == items[..i];
    PickLast(items[..i + 1], MatchIndexes(items[..i], lookup, disableDots));
  }

  method FindEntryMatches(items: seq<Item>, lookup: map<string, Json>, disableDots: bool, findAll: bool)
      returns (result: seq<Item>, indexes: seq<nat>)
    ensures indexes == Found(items, lookup, disableDots, findAll)
    ensures result == Pick(items, Found(items, lookup, disableDots, findAll))
  {
    result, indexes := [], [];
    for i := 0 to |items|
      invariant indexes == MatchIndexes(items[..i], lookup, disableDots)
      invariant result == Pick(items[..i], indexes)
      invariant !findAll ==> indexes == []
    {
      MatchNext(items, lookup, disableDots, i);
      var matches := MatchesItem(items[i], lookup, disableDots);
      if matches {
        if !findAll {
          FoundFirst(items, lookup, disableDots, i);
          return [items[i]], [i];
        }
        result := result + [items[i]];
        indexes := indexes + [i];
      }
    }
    assert items[..|items|] == items;
  }

  // ----- all left items -----

  predicate FindsAll(options: Options) {
    options.multipleMatches == "" || options.multipleMatches == "all"
  }

  /** Whether every match of a left item becomes an entry of its own. */
  predicate Splits(options: Options) {
    options.outputDataFrom == "both" || options.joinMode == "enrichInput1" || options.joinMode == "enrichInput2"
  }

  function FoundFor(left: Item, items2: seq<Item>, pairs: seq<FieldPair>, options: Options): (r: seq<nat>)
    requires Eligible(left, pairs, options.disableDotNotation)
    ensures forall k :: 0 <= k < |r| ==> r[k] < |items2|
  {
    Found(items2, LookupOf(left["json"].fields, pairs, options.disableDotNotation), options.disableDotNotation,
          FindsAll(options))
  }

  function EntriesFor(left: Item, matches: seq<Item>, split: bool): seq<EntryMatch> {
    if split then seq(|matches|, k requires 0 <= k < |matches| => EntryMatch(left, [matches[k]]))
    else if matches == [] then [] else [EntryMatch(left, matches)]
  }

  function AllEntries(items1: seq<Item>, items2: seq<Item>, pairs: seq<FieldPair>, options: Options): seq<EntryMatch> {
    if items1 == [] then []
    else
      var left := items1[|items1| - 1];
      AllEntries(items1[..|items1| - 1], items2, pairs, options)
      + if Eligible(left, pairs, options.disableDotNotation)
        then EntriesFor(left, Pick(items2, FoundFor(left, items2, pairs, options)), Splits(options)) else []
  }

  function AllUnmatched(items1: seq<Item>, items2: seq<Item>, pairs: seq<FieldPair>, options: Options): seq<Item> {
    if items1 == [] then []
    else
      var left := items1[|items1| - 1];
      AllUnmatched(items1[..|items1| - 1], items2, pairs, options)
      + if Eligible(left, pairs, options.disableDotNotation) && FoundFor(left, items2, pairs, options) == []
        then [left] else []
  }

  /** The positions of the right items that some left item found. */
  function MatchedPositions(items1: seq<Item>, items2: seq<Item>, pairs: seq<FieldPair>, options: Options): set<nat> {
    if items1 == [] then {}
    else
      var left := items1[|items1| - 1];
      MatchedPositions(items1[..|items1| - 1], items2, pairs, options)
      + if Eligible(left, pairs, options.disableDotNotation)
        then (set j | j in FoundFor(left, items2, pairs, options)) else {}
  }

  /** The right items at the given positions (or at all others), in their order. */
  function AtPositions(items: seq<Item>, positions: set<nat>, inside: bool): seq<Item> {
    if items == [] then []
    else
      var n := |items| - 1;
      AtPositions(items[..n], positions, inside) + if (n in positions) == inside then [items[n]] else []
  }

  method FindMatches(items1: seq<Item>, items2: seq<Item>, pairs: seq<FieldPair>, options: Options)
      returns (result: MatchResult)
    ensures result.entryMatches == AllEntries(items1, items2, pairs, options)
    ensures result.unmatched1 == AllUnmatched(items1, items2, pairs, options)
    ensures result.matched2 == AtPositions(items2, MatchedPositions(items1, items2, pairs, options), true)
    ensures result.unmatched2 == AtPositions(items2, MatchedPositions(items1, items2, pairs, options), false)
  {
    var disableDots := options.disableDotNotation;
    var entries, unmatched1: seq<Item>, matchedIn2: set<nat> := [], [], {};
    for i := 0 to |items1|
      invariant entries == AllEntries(items1[..i], items2, pairs, options)
      invariant unmatched1 == AllUnmatched(items1[..i], items2, pairs, options)
      invariant matchedIn2 == MatchedPositions(items1[..i], items2, pairs, options)
    {
      assert items1[..i + 1][..i] == items1[..i];
      var lookup, valid := BuildLookup(items1[i], pairs, disableDots);
      if valid {
        var found, indexes := FindEntryMatches(items2, lookup, disableDots, FindsAll(options));
        assert indexes == FoundFor(items1[i], items2, pairs, options);
        matchedIn2 := matchedIn2 + (set j | j in indexes);
        if |found| > 0 {
          var more := SplitEntries(items1[i], found, Splits(options));
          entries := entries + more;
        } else {
          unmatched1 := unmatched1 + [items1[i]];
        }
      }
    }
    assert items1[..|items1|] == items1;
    var matched2, unmatched2 := Partition(items2, matchedIn2);
    result := MatchResult(entries, matched2, unmatched1, unmatched2);
  }

  method BuildLookup(
      item: Item, pairs: seq<FieldPair>, disableDots: bool)
      returns (lookup: map<string, Json>, valid: bool)
    ensures valid == Eligible(item, pairs, disableDots)
    ensures valid ==> lookup == LookupOf(item["json"].fields, pairs, disableDots)
  {
    lookup, valid := map[], HasObject(item);
    if !valid {
      return;
    }
    for i := 0 to |pairs|
      invariant lookup == LookupOf(item["json"].fields, pairs[..i], disableDots)
      invariant valid <==> forall k :: 0 <= k < i ==> FieldOf(item["json"].fields, pairs[k].field1, disableDots) != Null
    {
      assert pairs[..i + 1][..i] == pairs[..i];
      var value := GetField(item["json"].fields, pairs[i].field1, disableDots);
      lookup := lookup[pairs[i].field2 := value];
      if value == Null {
        valid := false;
      }
    }
    assert pairs[..|pairs|] == pairs;
  }

  method SplitEntries(left: Item, found: seq<Item>, split: bool) returns (entries: seq<EntryMatch>)
    requires found != []
    ensures entries == EntriesFor(left, found, split)
  {
    if !split {
      return [EntryMatch(left, found)];
    }
    entries := [];
    for k := 0 to |found|
      invariant |entries| == k && forall m :: 0 <= m < k ==> entries[m] == EntryMatch(left, [found[m]])
    {
      entries := entries + [EntryMatch(left, [found[k]])];
    }
  }

  method Partition(items: seq<Item>, positions: set<nat>) returns (inside: seq<Item>, outside: seq<Item>)
    ensures inside == AtPositions(items, positions, true) && outside == AtPositions(items, positions, false)
  {
    inside, outside := [], [];
    for i := 0 to |items|
      invariant inside == AtPositions(items[..i], positions, true)
      invariant outside == AtPositions(items[..i], positions, false)
    {
      assert items[..i + 1][..i] == items[..i];
      if i in positions {
        inside := inside + [items[i]];
      } else {
        outside := outside + [items[i]];
      }
    }
    assert items[..|items|] == items;
  }

  // ----- it is the nested-loop equi-join -----

  /** The join condition, field by field. */
  predicate Joins(left: Item, right: Item, pairs: seq<FieldPair>, disableDots: bool) {
    && Eligible(left, pairs, disableDots) && HasObject(right)
    && forall i :: 0 <= i < |pairs| ==>
         FieldOf(left["json"].fields, pairs[i].field1, disableDots)
         == FieldOf(right["json"].fields, pairs[i].field2, disableDots)
  }

  ghost predicate DistinctRightFields(pairs: seq<FieldPair>) {
    forall i, j :: 0 <= i < j < |pairs| ==> pairs[i].field2 != pairs[j].field2
  }

  lemma {:induction false} LookupKeys(fields: map<string, Json>, pairs: seq<FieldPair>, disableDots: bool, k: string)
    requires k in LookupOf(fields, pairs, disableDots)
    ensures exists i :: 0 <= i < |pairs| && pairs[i].field2 == k
  {
    var front, last := pairs[..|pairs| - 1], pairs[|pairs| - 1];
    if k != last.field2 {
      LookupKeys(fields, front, disableDots, k);
      var i :| 0 <= i < |front| && front[i].field2 == k;
      assert pairs[i].field2 == k;
    }
  }

  lemma {:induction false} LookupValue(fields: map<string, Json>, pairs: seq<FieldPair>, disableDots: bool, i: nat)
    requires DistinctRightFields(pairs) && i < |pairs|
    ensures var lookup := LookupOf(fields, pairs, disableDots);
      pairs[i].field2 in lookup && lookup[pairs[i].field2] == FieldOf(fields, pairs[i].field1, disableDots)
  {
    if i < |pairs| - 1 {
      LookupValue(fields, pairs[..|pairs| - 1], disableDots, i);
    }
  }

  lemma LookupMatchIsJoin(left: Item, right: Item, pairs: seq<FieldPair>, disableDots: bool)
    requires DistinctRightFields(pairs) && Eligible(left, pairs, disableDots)
    ensures MatchesLookup(right, LookupOf(left["json"].fields, pairs, disableDots), disableDots)
       <==> Joins(left, right, pairs, disableDots)
  {
    var fields := left["json"].fields;
    var lookup := LookupOf(fields, pairs, disableDots);
    forall i: nat | i < |pairs|
      ensures pairs[i].field2 in lookup && lookup[pairs[i].field2] == FieldOf(fields, pairs[i].field1, disableDots)
    {
      LookupValue(fields, pairs, disableDots, i);
    }
    if Joins(left, right, pairs, disableDots) {
      forall k | k in lookup
        ensures FieldOf(right["json"].fields, k, disableDots) == lookup[k]
      {
        LookupKeys(fields, pairs, disableDots, k);
        var i :| 0 <= i < |pairs| && pairs[i].field2 == k;
      }
    }
  }

  /** Positions ascend, and exactly the matching ones occur. */
  lemma {:induction false} MatchIndexesExact(items: seq<Item>, lookup: map<string, Json>, disableDots: bool)
    ensures Ascends(MatchIndexes(items, lookup, disableDots), |items|)
    ensures forall j :: j in MatchIndexes(items, lookup, disableDots) <==>
              0 <= j < |items| && MatchesLookup(items[j], lookup, disableDots)
  {
    if items == [] {
    } else {
      var front := items[..|items| - 1];
      MatchIndexesExact(front, lookup, disableDots);
      AscendsSnoc(MatchIndexes(front, lookup, disableDots), |front|);
    }
  }

  /** The pairs of positions that join, left position first. */
  function JoinPairs(items1: seq<Item>, items2: seq<Item>, pairs: seq<FieldPair>, options: Options): seq<(nat, nat)> {
    if items1 == [] then []
    else
      var n := |items1| - 1;
      JoinPairs(items1[..n], items2, pairs, options)
      + if Eligible(items1[n], pairs, options.disableDotNotation)
        then
          PairsWith(n, FoundFor(items1[n], items2, pairs, options))
        else []
  }

  /** The left position paired with each right one. */
  function PairsWith(n: nat, found: seq<nat>): (r: seq<(nat, nat)>)
    ensures |r| == |found| && forall k :: 0 <= k < |found| ==> r[k] == (n, found[k])
  {
    seq(|found|, k requires 0 <= k < |found| => (n, found[k]))
  }

  predicate Before(p: (nat, nat), q: (nat, nat)) {
    p.0 < q.0 || (p.0 == q.0 && p.1 < q.1)
  }

  /** The right positions found for one left item ascend and are exactly those that join it. */
  lemma FoundForExact(left: Item, items2: seq<Item>, pairs: seq<FieldPair>, options: Options)
    requires FindsAll(options) && DistinctRightFields(pairs) && Eligible(left, pairs, options.disableDotNotation)
    ensures var r := FoundFor(left, items2, pairs, options);
      && (forall a, b :: 0 <= a < b < |r| ==> r[a] < r[b])
      && (forall j: nat :: j in r <==> j < |items2| && Joins(left, items2[j], pairs, options.disableDotNotation))
  {
    var disableDots := options.disableDotNotation;
    MatchIndexesExact(items2, LookupOf(left["json"].fields, pairs, disableDots), disableDots);
    forall j: nat | j < |items2|
      ensures MatchesLookup(items2[j], LookupOf(left["json"].fields, pairs, disableDots), disableDots)
        <==> Joins(left, items2[j], pairs, disableDots)
    {
      LookupMatchIsJoin(left, items2[j], pairs, disableDots);
    }
  }

  predicate Ordered(ps: seq<(nat, nat)>, bound: nat) {
    && (forall a :: 0 <= a < |ps| ==> ps[a].0 < bound)
    && (forall a, b :: 0 <= a < b < |ps| ==> Before(ps[a], ps[b]))
  }

  lemma OrderedAppend(front: seq<(nat, nat)>, n: nat, found: seq<nat>)
    requires Ordered(front, n) && forall a, b :: 0 <= a < b < |found| ==> found[a] < found[b]
    ensures Ordered(front, n + 1)
    ensures Ordered(front + PairsWith(n, found), n + 1)
  {
  }

  /** The pairs come in index order. */
  lemma {:induction false} JoinPairsOrdered(
      items1: seq<Item>, items2: seq<Item>, pairs: seq<FieldPair>, options: Options)
    requires FindsAll(options) && DistinctRightFields(pairs)
    ensures Ordered(JoinPairs(items1, items2, pairs, options), |items1|)
  {
    if items1 == [] {
    } else {
      var n := |items1| - 1;
      var front := JoinPairs(items1[..n], items2, pairs, options);
      JoinPairsOrdered(items1[..n], items2, pairs, options);
      OrderedAppend(front, n, []);
      if Eligible(items1[n], pairs, options.disableDotNotation) {
        FoundForExact(items1[n], items2, pairs, options);
        OrderedAppend(front, n, FoundFor(items1[n], items2, pairs, options));
      } else {
        assert JoinPairs(items1, items2, pairs, options) == front;
      }
    }
  }

  lemma PairsOfLast(n: nat, found: seq<nat>, i: nat, j: nat)
    ensures (i, j) in PairsWith(n, found) <==> i == n && j in found
  {
    var here := PairsWith(n, found);
    if (i, j) in here {
      var k :| 0 <= k < |here| && here[k] == (i, j);
      assert here[k] == (n, found[k]) && found[k] in found;
    }
    if i == n && j in found {
      var k :| 0 <= k < |found| && found[k] == j;
      assert here[k] == (n, j) && here[k] in here;
    }
  }

  /** The pairs are exactly those a nested loop over both lists would join. */
  lemma {:induction false} JoinPairsExact(
      items1: seq<Item>, items2: seq<Item>, pairs: seq<FieldPair>, options: Options, i: nat, j: nat)
    requires FindsAll(options) && DistinctRightFields(pairs)
    ensures (i, j) in JoinPairs(items1, items2, pairs, options)
       <==> i < |items1| && j < |items2| && Joins(items1[i], items2[j], pairs, options.disableDotNotation)
  {
    if items1 == [] {
    } else {
      var n := |items1| - 1;
      var front, ps := JoinPairs(items1[..n], items2, pairs, options), JoinPairs(items1, items2, pairs, options);
      JoinPairsExact(items1[..n], items2, pairs, options, i, j);
      if Eligible(items1[n], pairs, options.disableDotNotation) {
        var found := FoundFor(items1[n], items2, pairs, options);
        FoundForExact(items1[n], items2, pairs, options);
        assert ps == front + PairsWith(n, found);
        PairsOfLast(n, found, i, j);
      }
    }
  }

  /** With one entry per match, the entries are the joined pairs in index order. */
  lemma {:induction false} EntriesAreJoin(items1: seq<Item>, items2: seq<Item>, pairs: seq<FieldPair>, options: Options)
    requires Splits(options)
    ensures var entries, ps := AllEntries(items1, items2, pairs, options), JoinPairs(items1, items2, pairs, options);
      && |entries| == |ps|
      && forall k :: 0 <= k < |ps| ==>
           && ps[k].0 < |items1| && ps[k].1 < |items2|
           && entries[k] == EntryMatch(items1[ps[k].0], [items2[ps[k].1]])
  {
    if items1 == [] {
    } else {
      EntriesAreJoin(items1[..|items1| - 1], items2, pairs, options);
    }
  }

  /** The left items of the second kind: eligible, but joined with nothing. */
  ghost predicate Lonely(left: Item, items2: seq<Item>, pairs: seq<FieldPair>, disableDots: bool) {
    Eligible(left, pairs, disableDots) && forall j :: 0 <= j < |items2| ==> !Joins(left, items2[j], pairs, disableDots)
  }

  lemma NothingFoundIsLonely(left: Item, items2: seq<Item>, pairs: seq<FieldPair>, options: Options)
    requires DistinctRightFields(pairs) && Eligible(left, pairs, options.disableDotNotation)
    ensures FoundFor(left, items2, pairs, options) == [] <==> Lonely(left, items2, pairs, options.disableDotNotation)
  {
    var all := FoundFor(left, items2, pairs, options.(multipleMatches := "all"));
    FoundForExact(left, items2, pairs, options.(multipleMatches := "all"));
    if all != [] {
      assert all[0] in all;
    }
  }

  /** The positions of the lonely left items, ascending. */
  ghost function LonelyPositions(
      items1: seq<Item>, items2: seq<Item>, pairs: seq<FieldPair>, disableDots: bool): (r: seq<nat>)
    ensures forall a :: 0 <= a < |r| ==> r[a] < |items1|
    ensures forall a, b :: 0 <= a < b < |r| ==> r[a] < r[b]
    ensures forall i: nat :: i in r <==> i < |items1| && Lonely(items1[i], items2, pairs, disableDots)
  {
    if items1 == [] then []
    else
      var n := |items1| - 1;
      LonelyPositions(items1[..n], items2, pairs, disableDots)
      + if Lonely(items1[n], items2, pairs, disableDots) then [n] else []
  }

  lemma PickLast(items: seq<Item>, front: seq<nat>)
    requires items != [] && forall a :: 0 <= a < |front| ==> front[a] < |items| - 1
    ensures var n := |items| - 1;
      && Pick(items, front) == Pick(items[..n], front)
      && Pick(items, front + [n]) == Pick(items[..n], front) + [items[n]]
  {
  }

  /** The unmatched left items are the lonely ones, in order. */
  lemma {:induction false} UnmatchedAreLonely(
      items1: seq<Item>, items2: seq<Item>, pairs: seq<FieldPair>, options: Options)
    requires DistinctRightFields(pairs)
    ensures AllUnmatched(items1, items2, pairs, options)
         == Pick(items1, LonelyPositions(items1, items2, pairs, options.disableDotNotation))
  {
    if items1 == [] {
    } else {
      var n, disableDots := |items1| - 1, options.disableDotNotation;
      UnmatchedAreLonely(items1[..n], items2, pairs, options);
      if Eligible(items1[n], pairs, disableDots) {
        NothingFoundIsLonely(items1[n], items2, pairs, options);
      }
      PickLast(items1, LonelyPositions(items1[..n], items2, pairs, disableDots));
    }
  }

  /** A right item counts as matched exactly when some left item joins it. */
  lemma {:induction false} MatchedPositionsExact(
      items1: seq<Item>, items2: seq<Item>, pairs: seq<FieldPair>, options: Options, j: nat)
    requires FindsAll(options) && DistinctRightFields(pairs)
    ensures j in MatchedPositions(items1, items2, pairs, options)
       <==> j < |items2|
            && exists i :: 0 <= i < |items1| && Joins(items1[i], items2[j], pairs, options.disableDotNotation)
  {
    if items1 == [] {
    } else {
      var n, disableDots := |items1| - 1, options.disableDotNotation;
      MatchedPositionsExact(items1[..n], items2, pairs, options, j);
      if Eligible(items1[n], pairs, disableDots) {
        FoundForExact(items1[n], items2, pairs, options);
      }
      if j < |items2| {
        if i :| 0 <= i < n && Joins(items1[i], items2[j], pairs, disableDots) {
          assert items1[..n][i] == items1[i];
        }
      }
    }
  }

  lemma AscendsSnoc(r: seq<nat>, n: nat)
    requires Ascends(r, n)
    ensures Ascends(r, n + 1) && Ascends(r + [n], n + 1)
  {
  }

  /** The positions below `n` inside (or outside) a set, ascending. */
  ghost function Ascending(n: nat, positions: set<nat>, inside: bool): (r: seq<nat>)
    ensures Ascends(r, n)
    ensures forall i: nat :: i in r <==> i < n && (i in positions) == inside
  {
    if n == 0 then []
    else
      var front := Ascending(n - 1, positions, inside);
      AscendsSnoc(front, n - 1);
      if (n - 1 in positions) == inside then front + [n - 1] else front
  }

  lemma AtLast(items: seq<Item>, positions: set<nat>, inside: bool)
    requires items != []
    ensures var n := |items| - 1;
      AtPositions(items, positions, inside)
      == AtPositions(items[..n], positions, inside) + if (n in positions) == inside then [items[n]] else []
  {
  }

  /** Matched and unmatched right items are a stable partition: the items at complementary ascending positions. */
  lemma {:induction false} PartitionStable(items: seq<Item>, positions: set<nat>, inside: bool)
    ensures AtPositions(items, positions, inside) == Pick(items, Ascending(|items|, positions, inside))
  {
    if items == [] {
    } else {
      var n := |items| - 1;
      PartitionStable(items[..n], positions, inside);
      PickLast(items, Ascending(n, positions, inside));
      AtLast(items, positions, inside);
    }
  }
}
