/** What the merge node joins, said by the values that lie in the items. */
module JoinMeaning {
  import opened JsonValues
  import opened Sequences
  import opened MergeJoin

  /** The first value along the path that is no object. */
  ghost predicate FirstScalar(fields: map<string, Json>, keys: seq<string>, v: Json) {
    !v.Obj? && exists n :: 0 < n <= |keys| && LiesAt(Obj(fields), keys[..n], v)
  }

  lemma ScalarHere(fields: map<string, Json>, keys: seq<string>, v: Json)
    requires keys != [] && keys[0] in fields && !fields[keys[0]].Obj?
    ensures FirstScalar(fields, keys, v) <==> v == fields[keys[0]]
  {
    var w := fields[keys[0]];
    LiesBelow(Obj(fields), keys[..1], v);
    LiesAtEnd(w, v);
    assert keys[..1][1..] == [];
    if n :| 0 < n <= |keys| && LiesAt(Obj(fields), keys[..n], v) {
      LiesBelow(Obj(fields), keys[..n], v);
      if n > 1 {
        LiesBelow(w, keys[..n][1..], v);
      } else {
        assert keys[..n][1..] == [];
      }
    }
  }

  lemma ScalarBelow(fields: map<string, Json>, keys: seq<string>, v: Json)
    requires keys != [] && keys[0] in fields && fields[keys[0]].Obj?
    ensures FirstScalar(fields, keys, v) <==> FirstScalar(fields[keys[0]].fields, keys[1..], v)
  {
    var child := fields[keys[0]];
    assert Obj(child.fields) == child;
    if !v.Obj? {
      if n :| 0 < n <= |keys| && LiesAt(Obj(fields), keys[..n], v) {
        LiesBelow(Obj(fields), keys[..n], v);
        LiesAtEnd(child, v);
        assert keys[..n][1..] == keys[1..][..n - 1];
      }
      if n :| 0 < n <= |keys[1..]| && LiesAt(child, keys[1..][..n], v) {
        assert keys[..n + 1][1..] == keys[1..][..n];
        LiesBelow(Obj(fields), keys[..n + 1], v);
      }
    }
  }

  lemma NoScalar(fields: map<string, Json>, keys: seq<string>, v: Json)
    requires keys == [] || keys[0] !in fields
    ensures !FirstScalar(fields, keys, v)
  {
    if n :| 0 < n <= |keys| && LiesAt(Obj(fields), keys[..n], v) {
      LiesBelow(Obj(fields), keys[..n], v);
    }
  }

  /** The walk finds the first value that is no object, or null when there is none. */
  lemma {:induction false} ValueAtMeaning(fields: map<string, Json>, keys: seq<string>, v: Json)
    requires v != Null
    ensures ValueAt(fields, keys) == v <==> FirstScalar(fields, keys, v)
    decreases |keys|
  {
    if keys == [] || keys[0] !in fields {
      NoScalar(fields, keys, v);
    } else if fields[keys[0]].Obj? {
      ScalarBelow(fields, keys, v);
      ValueAtMeaning(fields[keys[0]].fields, keys[1..], v);
    } else {
      ScalarHere(fields, keys, v);
    }
  }

  /** A field has this value: under its whole name, or along the parts of its name between dots. */
  ghost predicate FieldHas(fields: map<string, Json>, name: string, disableDots: bool, v: Json) {
    if disableDots then name in fields && fields[name] == v
    else exists parts :: IsSplit(name, parts) && FirstScalar(fields, parts, v)
  }

  ghost predicate IsSplit(name: string, parts: seq<string>) {
    parts != [] && NoDots(parts) && JoinDots(parts) == name
  }

  lemma FieldMeaning(fields: map<string, Json>, name: string, disableDots: bool, v: Json)
    requires v != Null
    ensures FieldOf(fields, name, disableDots) == v <==> FieldHas(fields, name, disableDots, v)
  {
    if !disableDots {
      SplitDotsMeaning(name);
      assert IsSplit(name, SplitDots(name));
      ValueAtMeaning(fields, SplitDots(name), v);
      if parts :| IsSplit(name, parts) && FirstScalar(fields, parts, v) {
        SplitOfJoin(parts);
      }
    }
  }

  /** And it counts as null exactly when it has no other value. */
  lemma FieldMissing(fields: map<string, Json>, name: string, disableDots: bool)
    ensures FieldOf(fields, name, disableDots) == Null
       <==> forall v :: FieldHas(fields, name, disableDots, v) ==> v == Null
  {
    var value := FieldOf(fields, name, disableDots);
    if value != Null {
      FieldMeaning(fields, name, disableDots, value);
    }
    forall v | FieldHas(fields, name, disableDots, v) && v != Null
      ensures value == v
    {
      FieldMeaning(fields, name, disableDots, v);
    }
  }

  /** Both items hold objects, and each pair of fields has the same value, which is not null. */
  ghost predicate SameFields(left: Item, right: Item, pairs: seq<FieldPair>, disableDots: bool) {
    && "json" in left && left["json"].Obj? && "json" in right && right["json"].Obj?
    && forall i :: 0 <= i < |pairs| ==> SamePair(left["json"].fields, right["json"].fields, pairs[i], disableDots)
  }

  ghost predicate SamePair(left: map<string, Json>, right: map<string, Json>, pair: FieldPair, disableDots: bool) {
    exists v :: v != Null && FieldHas(left, pair.field1, disableDots, v) && FieldHas(right, pair.field2, disableDots, v)
  }

  lemma PairMeaning(left: map<string, Json>, right: map<string, Json>, pair: FieldPair, disableDots: bool)
    ensures SamePair(left, right, pair, disableDots)
       <==> FieldOf(left, pair.field1, disableDots) == FieldOf(right, pair.field2, disableDots) != Null
  {
    forall v | v != Null
      ensures FieldOf(left, pair.field1, disableDots) == v <==> FieldHas(left, pair.field1, disableDots, v)
      ensures FieldOf(right, pair.field2, disableDots) == v <==> FieldHas(right, pair.field2, disableDots, v)
    {
      FieldMeaning(left, pair.field1, disableDots, v);
      FieldMeaning(right, pair.field2, disableDots, v);
    }
    var w := FieldOf(left, pair.field1, disableDots);
    if w == FieldOf(right, pair.field2, disableDots) != Null {
      assert FieldHas(left, pair.field1, disableDots, w) && FieldHas(right, pair.field2, disableDots, w);
    }
  }

  lemma JoinsMeaning(left: Item, right: Item, pairs: seq<FieldPair>, disableDots: bool)
    ensures Joins(left, right, pairs, disableDots) <==> SameFields(left, right, pairs, disableDots)
  {
    if HasObject(left) && HasObject(right) {
      forall i | 0 <= i < |pairs|
        ensures SamePair(left["json"].fields, right["json"].fields, pairs[i], disableDots)
           <==> FieldOf(left["json"].fields, pairs[i].field1, disableDots)
                == FieldOf(right["json"].fields, pairs[i].field2, disableDots) != Null
      {
        PairMeaning(left["json"].fields, right["json"].fields, pairs[i], disableDots);
      }
    }
  }

  /** The item holds an object that has a value other than null in every left field. */
  ghost predicate HasLeftFields(item: Item, pairs: seq<FieldPair>, disableDots: bool) {
    && "json" in item && item["json"].Obj?
    && forall i :: 0 <= i < |pairs| ==> HasSome(item["json"].fields, pairs[i].field1, disableDots)
  }

  ghost predicate HasSome(fields: map<string, Json>, name: string, disableDots: bool) {
    exists v :: v != Null && FieldHas(fields, name, disableDots, v)
  }

  lemma EligibleMeaning(item: Item, pairs: seq<FieldPair>, disableDots: bool)
    ensures Eligible(item, pairs, disableDots) <==> HasLeftFields(item, pairs, disableDots)
  {
    if HasObject(item) {
      forall i | 0 <= i < |pairs|
        ensures HasSome(item["json"].fields, pairs[i].field1, disableDots)
           <==> FieldOf(item["json"].fields, pairs[i].field1, disableDots) != Null
      {
        var fields, name := item["json"].fields, pairs[i].field1;
        forall v | v != Null
          ensures FieldOf(fields, name, disableDots) == v <==> FieldHas(fields, name, disableDots, v)
        {
          FieldMeaning(fields, name, disableDots, v);
        }
        assert FieldOf(fields, name, disableDots) != Null ==>
                 FieldHas(fields, name, disableDots, FieldOf(fields, name, disableDots));
      }
    }
  }

  // ----- the results of findMatches -----

  /** All matches are wanted: the option is absent or says so. */
  predicate WantsAll(options: Options) {
    options.multipleMatches in {"", "all"}
  }

  /** Every match becomes an entry of its own. */
  predicate OneEach(options: Options) {
    options.outputDataFrom == "both" || options.joinMode in {"enrichInput1", "enrichInput2"}
  }

  /** The right positions found for a left item: all that join it, or the first one only; none if it lacks a field. */
  ghost predicate FoundAre(js: seq<nat>, left: Item, items2: seq<Item>, pairs: seq<FieldPair>, options: Options) {
    var dots := options.disableDotNotation;
    && Ascends(js, |items2|)
    && (forall j :: j in js ==> SameFields(left, items2[j], pairs, dots))
    && (if WantsAll(options)
        then forall j: nat :: j < |items2| && SameFields(left, items2[j], pairs, dots) ==> j in js
        else |js| <= 1 && forall j: nat :: j < |items2| && SameFields(left, items2[j], pairs, dots) ==>
               js != [] && js[0] <= j)
  }

  /** The entries made of them. */
  ghost predicate GroupIs(group: seq<EntryMatch>, left: Item, js: seq<nat>, items2: seq<Item>, options: Options)
    requires Ascends(js, |items2|)
  {
    if OneEach(options)
    then |group| == |js| && forall k :: 0 <= k < |js| ==> group[k] == EntryMatch(left, [items2[js[k]]])
    else if js == [] then group == []
    else
      && |group| == 1 && group[0].entry == left && |group[0].matches| == |js|
      && forall k :: 0 <= k < |js| ==> group[0].matches[k] == items2[js[k]]
  }

  lemma FirstOfAscending(all: seq<nat>, j: nat, bound: nat)
    requires Ascends(all, bound) && j in all
    ensures all != [] && all[0] <= j
  {
    var k :| 0 <= k < |all| && all[k] == j;
    assert k > 0 ==> all[0] < all[k];
  }

  lemma AllFound(left: Item, items2: seq<Item>, pairs: seq<FieldPair>, dots: bool) returns (all: seq<nat>)
    requires DistinctRightFields(pairs) && Eligible(left, pairs, dots)
    ensures all == MatchIndexes(items2, LookupOf(left["json"].fields, pairs, dots), dots)
    ensures Ascends(all, |items2|)
    ensures forall j: nat :: j in all <==> j < |items2| && SameFields(left, items2[j], pairs, dots)
  {
    var lookup := LookupOf(left["json"].fields, pairs, dots);
    all := MatchIndexes(items2, lookup, dots);
    MatchIndexesExact(items2, lookup, dots);
    forall j: nat | j < |items2|
      ensures MatchesLookup(items2[j], lookup, dots) <==> SameFields(left, items2[j], pairs, dots)
    {
      LookupMatchIsJoin(left, items2[j], pairs, dots);
      JoinsMeaning(left, items2[j], pairs, dots);
    }
  }

  lemma FoundMeaning(left: Item, items2: seq<Item>, pairs: seq<FieldPair>, options: Options)
    requires DistinctRightFields(pairs) && Eligible(left, pairs, options.disableDotNotation)
    ensures FoundAre(FoundFor(left, items2, pairs, options), left, items2, pairs, options)
  {
    var all := AllFound(left, items2, pairs, options.disableDotNotation);
    var found := FoundFor(left, items2, pairs, options);
    if WantsAll(options) {
      assert found == all;
    } else {
      assert found == if all == [] then [] else [all[0]];
      forall j: nat | j in all
        ensures all != [] && all[0] <= j
      {
        FirstOfAscending(all, j, |items2|);
      }
    }
  }

  lemma GroupMeaning(left: Item, items2: seq<Item>, js: seq<nat>, options: Options)
    requires Ascends(js, |items2|)
    ensures GroupIs(EntriesFor(left, Pick(items2, js), Splits(options)), left, js, items2, options)
  {
  }

  /** An item that lacks a left field joins nothing. */
  lemma NothingWithoutFields(left: Item, items2: seq<Item>, pairs: seq<FieldPair>, options: Options)
    requires !Eligible(left, pairs, options.disableDotNotation)
    ensures FoundAre([], left, items2, pairs, options)
  {
    forall j: nat | j < |items2|
      ensures !SameFields(left, items2[j], pairs, options.disableDotNotation)
    {
      JoinsMeaning(left, items2[j], pairs, options.disableDotNotation);
    }
  }

  /** What the left items found, one after the other. */
  ghost predicate FoundByLeft(
      found: seq<seq<nat>>, items1: seq<Item>, items2: seq<Item>, pairs: seq<FieldPair>, options: Options)
  {
    |found| == |items1| && forall i :: 0 <= i < |items1| ==> FoundAre(found[i], items1[i], items2, pairs, options)
  }

  ghost predicate GroupsByLeft(
      groups: seq<seq<EntryMatch>>, found: seq<seq<nat>>, items1: seq<Item>, items2: seq<Item>, options: Options)
    requires |found| == |items1| && forall i :: 0 <= i < |found| ==> Ascends(found[i], |items2|)
  {
    |groups| == |items1| && forall i :: 0 <= i < |items1| ==> GroupIs(groups[i], items1[i], found[i], items2, options)
  }

  ghost predicate FoundBySome(found: seq<seq<nat>>, j: nat) {
    exists i :: 0 <= i < |found| && j in found[i]
  }

  lemma FoundSnoc(found: seq<seq<nat>>, js: seq<nat>, j: nat)
    ensures FoundBySome(found + [js], j) <==> FoundBySome(found, j) || j in js
  {
    if i :| 0 <= i < |found| && j in found[i] {
      assert (found + [js])[i] == found[i];
    }
    if j in js {
      assert (found + [js])[|found|] == js;
    }
  }

  /** What one left item adds to the results. */
  lemma OneLeft(items1: seq<Item>, items2: seq<Item>, pairs: seq<FieldPair>, options: Options)
      returns (js: seq<nat>, group: seq<EntryMatch>)
    requires DistinctRightFields(pairs) && items1 != []
    ensures FoundAre(js, items1[|items1| - 1], items2, pairs, options)
    ensures GroupIs(group, items1[|items1| - 1], js, items2, options)
    ensures AllEntries(items1, items2, pairs, options)
         == AllEntries(items1[..|items1| - 1], items2, pairs, options) + group
    ensures MatchedPositions(items1, items2, pairs, options)
         == MatchedPositions(items1[..|items1| - 1], items2, pairs, options) + (set j | j in js)
  {
    var left := items1[|items1| - 1];
    js, group := [], [];
    if Eligible(left, pairs, options.disableDotNotation) {
      js := FoundFor(left, items2, pairs, options);
      FoundMeaning(left, items2, pairs, options);
      group := EntriesFor(left, Pick(items2, js), Splits(options));
      GroupMeaning(left, items2, js, options);
    } else {
      NothingWithoutFields(left, items2, pairs, options);
    }
  }

  lemma FoundByLeftSnoc(
      found: seq<seq<nat>>, js: seq<nat>, items1: seq<Item>, items2: seq<Item>, pairs: seq<FieldPair>,
      options: Options)
    requires items1 != [] && FoundByLeft(found, items1[..|items1| - 1], items2, pairs, options)
    requires FoundAre(js, items1[|items1| - 1], items2, pairs, options)
    ensures FoundByLeft(found + [js], items1, items2, pairs, options)
  {
  }

  lemma GroupsByLeftSnoc(
      groups: seq<seq<EntryMatch>>, group: seq<EntryMatch>, found: seq<seq<nat>>, js: seq<nat>, items1: seq<Item>,
      items2: seq<Item>, options: Options)
    requires items1 != [] && |found| == |items1| - 1 && forall i :: 0 <= i < |found| ==> Ascends(found[i], |items2|)
    requires GroupsByLeft(groups, found, items1[..|items1| - 1], items2, options)
    requires Ascends(js, |items2|) && GroupIs(group, items1[|items1| - 1], js, items2, options)
    ensures forall i :: 0 <= i < |found + [js]| ==> Ascends((found + [js])[i], |items2|)
    ensures GroupsByLeft(groups + [group], found + [js], items1, items2, options)
  {
  }

  /** In every mode: the entries are those of the left items in order, each made of what that item found. */
  lemma {:induction false} EntriesByLeft(
      items1: seq<Item>, items2: seq<Item>, pairs: seq<FieldPair>, options: Options)
      returns (found: seq<seq<nat>>, groups: seq<seq<EntryMatch>>)
    requires DistinctRightFields(pairs)
    ensures FoundByLeft(found, items1, items2, pairs, options)
    ensures GroupsByLeft(groups, found, items1, items2, options)
    ensures AllEntries(items1, items2, pairs, options) == Concat(groups)
    ensures forall j :: j in MatchedPositions(items1, items2, pairs, options) <==> FoundBySome(found, j)
  {
    if items1 == [] {
      found, groups := [], [];
    } else {
      var front := items1[..|items1| - 1];
      var found', groups' := EntriesByLeft(front, items2, pairs, options);
      var js, group := OneLeft(items1, items2, pairs, options);
      found, groups := found' + [js], groups' + [group];
      FoundByLeftSnoc(found', js, items1, items2, pairs, options);
      GroupsByLeftSnoc(groups', group, found', js, items1, items2, options);
      ConcatSnoc(groups', group);
      forall j: nat
        ensures FoundBySome(found, j) <==> FoundBySome(found', j) || j in js
      {
        FoundSnoc(found', js, j);
      }
    }
  }

  /** The items at ascending positions, which are exactly those with this property. */
  ghost predicate ItemsAt(r: seq<Item>, at: seq<nat>, items: seq<Item>) {
    Ascends(at, |items|) && |r| == |at| && forall k :: 0 <= k < |at| ==> r[k] == items[at[k]]
  }

  /** The unmatched left items: those with all fields that join no right item, in order. */
  lemma UnmatchedMeaning(items1: seq<Item>, items2: seq<Item>, pairs: seq<FieldPair>, options: Options)
      returns (at: seq<nat>)
    requires DistinctRightFields(pairs)
    ensures ItemsAt(AllUnmatched(items1, items2, pairs, options), at, items1)
    ensures forall i: nat :: i in at <==>
              && i < |items1| && HasLeftFields(items1[i], pairs, options.disableDotNotation)
              && forall j :: 0 <= j < |items2| ==> !SameFields(items1[i], items2[j], pairs, options.disableDotNotation)
  {
    var dots := options.disableDotNotation;
    at := LonelyPositions(items1, items2, pairs, dots);
    UnmatchedAreLonely(items1, items2, pairs, options);
    forall i: nat | i < |items1|
      ensures Lonely(items1[i], items2, pairs, dots) <==>
        && HasLeftFields(items1[i], pairs, dots)
        && forall j :: 0 <= j < |items2| ==> !SameFields(items1[i], items2[j], pairs, dots)
    {
      EligibleMeaning(items1[i], pairs, dots);
      forall j | 0 <= j < |items2|
        ensures Joins(items1[i], items2[j], pairs, dots) <==> SameFields(items1[i], items2[j], pairs, dots)
      {
        JoinsMeaning(items1[i], items2[j], pairs, dots);
      }
    }
  }

  /** The right items that were found by some left item, or by none, each in order. */
  lemma PartitionMeaning(items2: seq<Item>, positions: set<nat>, inside: bool) returns (at: seq<nat>)
    ensures ItemsAt(AtPositions(items2, positions, inside), at, items2)
    ensures forall j: nat :: j in at <==> j < |items2| && (j in positions) == inside
  {
    at := Ascending(|items2|, positions, inside);
    PartitionStable(items2, positions, inside);
  }

  /** The entries in the all-matches mode with output from both sides, one for each pair that joins, in index order. */
  ghost predicate EntryPairs(
      entries: seq<EntryMatch>, ps: seq<(nat, nat)>, items1: seq<Item>, items2: seq<Item>, pairs: seq<FieldPair>,
      disableDots: bool)
  {
    && |entries| == |ps|
    && (forall k :: 0 <= k < |ps| ==>
          && ps[k].0 < |items1| && ps[k].1 < |items2|
          && entries[k] == EntryMatch(items1[ps[k].0], [items2[ps[k].1]]))
    && (forall k, m :: 0 <= k < m < |ps| ==>
          ps[k].0 < ps[m].0 || (ps[k].0 == ps[m].0 && ps[k].1 < ps[m].1))
    && (forall i: nat, j: nat :: (i, j) in ps <==>
          i < |items1| && j < |items2| && SameFields(items1[i], items2[j], pairs, disableDots))
  }

  /** In the all-matches mode with output from both sides the entries are the equi-join of the two lists. */
  lemma EntriesMeaning(items1: seq<Item>, items2: seq<Item>, pairs: seq<FieldPair>, options: Options)
      returns (ps: seq<(nat, nat)>)
    requires WantsAll(options) && DistinctRightFields(pairs)
    requires OneEach(options)
    ensures EntryPairs(AllEntries(items1, items2, pairs, options), ps, items1, items2, pairs,
                       options.disableDotNotation)
  {
    ps := JoinPairs(items1, items2, pairs, options);
    EntriesAreJoin(items1, items2, pairs, options);
    JoinPairsOrdered(items1, items2, pairs, options);
    forall k, m | 0 <= k < m < |ps|
      ensures ps[k].0 < ps[m].0 || (ps[k].0 == ps[m].0 && ps[k].1 < ps[m].1)
    {
      assert Before(ps[k], ps[m]);
    }
    forall i: nat, j: nat
      ensures (i, j) in ps <==>
        i < |items1| && j < |items2| && SameFields(items1[i], items2[j], pairs, options.disableDotNotation)
    {
      JoinPairsExact(items1, items2, pairs, options, i, j);
      if i < |items1| && j < |items2| {
        JoinsMeaning(items1[i], items2[j], pairs, options.disableDotNotation);
      }
    }
  }
}
