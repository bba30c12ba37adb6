/** Execution data stored in flattened form: a table whose entries refer to each other by index. */
module Unflatten {
  import opened JsonValues

  const MAX_INT: int := 0x7FFF_FFFF_FFFF_FFFF

  // ----- decimal numerals -----

  predicate AllDigits(s: string) {
    forall i :: 0 <= i < |s| ==> '0' <= s[i] <= '9'
  }

  function Value(s: string): nat
    requires AllDigits(s)
  {
    if s == "" then 0 else 10 * Value(s[..|s| - 1]) + (s[|s| - 1] as int - '0' as int)
  }

  /** Go's strconv.Atoi: an optional sign, at least one digit, and a value that fits 64 bits. */
  function Atoi(s: string): Option<int> {
    var digits := if s != "" && (s[0] == '-' || s[0] == '+') then s[1..] else s;
    if digits == "" || !AllDigits(digits) then None
    else
      var size: int := Value(digits);
      var n := if s[0] == '-' then -size else size;
      if -MAX_INT - 1 <= n <= MAX_INT then Some(n) else None
  }

  function Itoa(n: nat): (s: string)
    ensures s != "" && AllDigits(s)
  {
    var digit := [('0' as int + n % 10) as char];
    if n < 10 then digit else Itoa(n / 10) + digit
  }

  lemma {:induction false} ValueOfItoa(n: nat)
    ensures Value(Itoa(n)) == n
  {
    if n >= 10 {
      ValueOfItoa(n / 10);
      assert Itoa(n)[..|Itoa(n)| - 1] == Itoa(n / 10);
    } else {
      assert Itoa(n)[..0] == "";
    }
  }

  lemma AtoiOfItoa(n: nat)
    requires n <= MAX_INT
    ensures Atoi(Itoa(n)) == Some(n)
  {
    ValueOfItoa(n);
    assert '0' <= Itoa(n)[0] <= '9';
  }

  /** The values of the growing front parts of a numeral, digit by digit. */
  predicate CountsUp(digits: string, partial: seq<nat>) {
    && |partial| == |digits| + 1 && partial[0] == 0
    && forall i :: 0 <= i < |digits| ==>
         '0' <= digits[i] <= '9' && partial[i + 1] == 10 * partial[i] + (digits[i] as int - '0' as int)
  }

  ghost predicate IsNumeral(digits: string, n: int) {
    digits != "" && exists partial :: CountsUp(digits, partial) && partial[|digits|] == n
  }

  lemma {:induction false} ValueMeaning(digits: string) returns (partial: seq<nat>)
    requires AllDigits(digits)
    ensures CountsUp(digits, partial) && partial[|digits|] == Value(digits)
  {
    if digits == "" {
      partial := [0];
    } else {
      var n := |digits| - 1;
      var front := ValueMeaning(digits[..n]);
      partial := front + [Value(digits)];
      forall i | 0 <= i < |digits|
        ensures partial[i + 1] == 10 * partial[i] + (digits[i] as int - '0' as int)
      {
        assert i < n ==> digits[..n][i] == digits[i];
      }
    }
  }

  lemma {:induction false} CountsUpOnce(digits: string, a: seq<nat>, b: seq<nat>, i: nat)
    requires CountsUp(digits, a) && CountsUp(digits, b) && i <= |digits|
    ensures a[i] == b[i]
    decreases i
  {
    if i == 0 {
    } else {
      CountsUpOnce(digits, a, b, i - 1);
      assert a[i - 1 + 1] == 10 * a[i - 1] + (digits[i - 1] as int - '0' as int);
    }
  }

  lemma NumeralMeaning(digits: string, n: int)
    ensures IsNumeral(digits, n) <==> digits != "" && AllDigits(digits) && n == Value(digits)
  {
    if digits != "" && AllDigits(digits) {
      var partial := ValueMeaning(digits);
      if other :| CountsUp(digits, other) && other[|digits|] == n {
        CountsUpOnce(digits, partial, other, |digits|);
      }
    }
  }

  /** The string is a decimal numeral with at most one sign, and its value fits 64 bits. */
  ghost predicate Reads(s: string, n: int) {
    && -0x8000_0000_0000_0000 <= n <= 0x7FFF_FFFF_FFFF_FFFF
    && exists digits, size :: IsNumeral(digits, size) && IsSigned(s, digits, size, n)
  }

  /** The string is these digits behind at most one sign, for this value. */
  predicate IsSigned(s: string, digits: string, size: int, n: int) {
    (s == digits && n == size) || (s == "+" + digits && n == size) || (s == "-" + digits && n == -size)
  }

  lemma AtoiReads(s: string, n: int)
    requires Atoi(s) == Some(n)
    ensures Reads(s, n)
  {
    var digits := if s != "" && (s[0] == '-' || s[0] == '+') then s[1..] else s;
    assert s == digits || s == "+" + digits || s == "-" + digits;
    NumeralMeaning(digits, Value(digits));
    assert IsNumeral(digits, Value(digits)) && IsSigned(s, digits, Value(digits), n);
  }

  lemma SignedDigits(s: string, digits: string, size: int, n: int)
    requires digits != "" && AllDigits(digits) && IsSigned(s, digits, size, n)
    ensures (if s != "" && (s[0] == '-' || s[0] == '+') then s[1..] else s) == digits
    ensures s[0] == '-' ==> n == -size
    ensures s[0] != '-' ==> n == size
  {
    assert '0' <= digits[0] <= '9';
  }

  lemma ReadsAtoi(s: string, n: int)
    requires Reads(s, n)
    ensures Atoi(s) == Some(n)
  {
    var digits, size :| IsNumeral(digits, size) && IsSigned(s, digits, size, n);
    NumeralMeaning(digits, size);
    SignedDigits(s, digits, size, n);
  }

  /** What counts as an index, for every string. */
  lemma AtoiMeaning(s: string, n: int)
    ensures Atoi(s) == Some(n) <==> Reads(s, n)
  {
    if Atoi(s) == Some(n) {
      AtoiReads(s, n);
    }
    if Reads(s, n) {
      ReadsAtoi(s, n);
    }
  }

  // ----- the table -----

  function IsNumericStr(target: Json): Option<int> {
    if target.Str? then Atoi(target.s) else None
  }

  /** Some child of the entry is a reference to this index. */
  ghost predicate Refers(entry: Json, to: int) {
    || (entry.Arr? && exists k :: 0 <= k < |entry.items| && IsNumericStr(entry.items[k]) == Some(to))
    || (entry.Obj? && exists name :: name in entry.fields && IsNumericStr(entry.fields[name]) == Some(to))
  }

  /**
   The set holds only indexes of the table and is closed under references, which lead down a rank. Nothing is
   asked of the other entries.
   */
  ghost predicate Ranked(table: seq<Json>, reach: set<int>, rank: int -> nat) {
    && (forall i :: i in reach ==> 0 <= i < |table|)
    && forall i, j :: i in reach && 0 <= i < |table| && Refers(table[i], j) ==> Descends(reach, rank, i, j)
  }

  ghost predicate Descends(reach: set<int>, rank: int -> nat, i: int, j: int) {
    j in reach && rank(j) < rank(i)
  }

  /** What the index reaches is in range and cannot be followed for ever. */
  ghost predicate Grounded(table: seq<Json>, index: int) {
    exists reach, rank :: index in reach && Ranked(table, reach, rank)
  }

  /** `v` is the tree that the table denotes at `index`, with every reference followed. */
  predicate Denotes(table: seq<Json>, index: int, v: Json)
    decreases v, 0
  {
    && 0 <= index < |table|
    && match table[index]
       case Str(s) => v == Str(s)
       case Arr(items) =>
         && v.Arr? && |v.items| == |items|
         && forall k :: 0 <= k < |items| ==> Child(table, items[k], v.items[k])
       case Obj(fields) =>
         && v.Obj? && v.fields.Keys == fields.Keys
         && forall name :: name in v.fields ==> Child(table, fields[name], v.fields[name])
       case Null => v == Str("error")
       case Bool(_) => v == Str("error")
       case Num(_) => v == Str("error")
  }

  predicate Child(table: seq<Json>, slot: Json, v: Json)
    decreases v, 1
  {
    match IsNumericStr(slot)
    case Some(j) => Denotes(table, j, v)
    case None => v == slot
  }

  predicate ItemsDenoted(table: seq<Json>, items: seq<Json>, results: seq<Json>) {
    |results| <= |items| && forall k :: 0 <= k < |results| ==> Child(table, items[k], results[k])
  }

  predicate FieldsDenoted(table: seq<Json>, fields: map<string, Json>, results: map<string, Json>) {
    results.Keys <= fields.Keys && forall name :: name in results ==> Child(table, fields[name], results[name])
  }

  /** What stands in a slot for a child: the index of an entry as a numeral, or the child itself. */
  ghost predicate StandsFor(table: seq<Json>, slot: Json, v: Json) {
    if exists s, j :: slot == Str(s) && Reads(s, j)
    then exists s, j :: slot == Str(s) && Reads(s, j) && Denotes(table, j, v)
    else v == slot
  }

  lemma ChildMeaning(table: seq<Json>, slot: Json, v: Json)
    ensures Child(table, slot, v) <==> StandsFor(table, slot, v)
  {
    if s, j :| slot == Str(s) && Reads(s, j) {
      AtoiMeaning(s, j);
      assert IsNumericStr(slot) == Some(j);
      forall s', j' | slot == Str(s') && Reads(s', j')
        ensures j' == j
      {
        AtoiMeaning(s', j');
      }
    } else if slot.Str? && Atoi(slot.s).Some? {
      AtoiMeaning(slot.s, Atoi(slot.s).value);
      assert false;
    }
  }

  /** An entry denotes the same kind of value with every child followed; scalars other than strings are an error. */
  lemma EntryMeaning(table: seq<Json>, index: nat, v: Json)
    requires index < |table|
    ensures table[index].Str? ==> (Denotes(table, index, v) <==> v == table[index])
    ensures table[index] == Null || table[index].Bool? || table[index].Num? ==>
              (Denotes(table, index, v) <==> v == Str("error"))
    ensures table[index].Arr? ==>
              (Denotes(table, index, v) <==>
                 v.Arr? && |v.items| == |table[index].items|
                 && forall k :: 0 <= k < |v.items| ==> StandsFor(table, table[index].items[k], v.items[k]))
    ensures table[index].Obj? ==>
              (Denotes(table, index, v) <==>
                 v.Obj? && v.fields.Keys == table[index].fields.Keys
                 && forall name :: name in v.fields ==> StandsFor(table, table[index].fields[name], v.fields[name]))
  {
    forall slot, w
      ensures Child(table, slot, w) <==> StandsFor(table, slot, w)
    {
      ChildMeaning(table, slot, w);
    }
  }

  lemma ItemsThenEntry(table: seq<Json>, index: int, results: seq<Json>)
    requires 0 <= index < |table| && table[index].Arr?
    requires ItemsDenoted(table, table[index].items, results) && |results| == |table[index].items|
    ensures Denotes(table, index, Arr(results))
  {
  }

  lemma FieldsThenEntry(table: seq<Json>, index: int, results: map<string, Json>)
    requires 0 <= index < |table| && table[index].Obj?
    requires FieldsDenoted(table, table[index].fields, results) && results.Keys == table[index].fields.Keys
    ensures Denotes(table, index, Obj(results))
  {
  }

  method UnflattenStringItem(index: int, source: seq<Json>, ghost reach: set<int>, ghost rank: int -> nat)
      returns (result: Json)
    requires index in reach && Ranked(source, reach, rank)
    ensures Denotes(source, index, result)
    decreases rank(index), 1
  {
    var item := source[index];
    if item.Str? {
      return item;
    }
    if item.Arr? {
      var results := UnflattenItems(index, source, reach, rank);
      ItemsThenEntry(source, index, results);
      return Arr(results);
    }
    if item.Obj? {
      var results := UnflattenFields(index, source, reach, rank);
      FieldsThenEntry(source, index, results);
      return Obj(results);
    }
    result := Str("error");
  }

  /** The loop over the elements of an array entry. */
  method UnflattenItems(index: int, source: seq<Json>, ghost reach: set<int>, ghost rank: int -> nat)
      returns (results: seq<Json>)
    requires index in reach && Ranked(source, reach, rank) && source[index].Arr?
    ensures ItemsDenoted(source, source[index].items, results) && |results| == |source[index].items|
    decreases rank(index), 0
  {
    var items := source[index].items;
    results := [];
    for k := 0 to |items|
      invariant |results| == k && ItemsDenoted(source, items, results)
    {
      var numVal := IsNumericStr(items[k]);
      if numVal.Some? {
        assert Refers(source[index], numVal.value);
        var child := UnflattenStringItem(numVal.value, source, reach, rank);
        results := results + [child];
      } else {
        results := results + [items[k]];
      }
    }
  }

  /** The loop over the fields of an object entry. */
  method UnflattenFields(index: int, source: seq<Json>, ghost reach: set<int>, ghost rank: int -> nat)
      returns (results: map<string, Json>)
    requires index in reach && Ranked(source, reach, rank) && source[index].Obj?
    ensures FieldsDenoted(source, source[index].fields, results) && results.Keys == source[index].fields.Keys
    decreases rank(index), 0
  {
    var fields := source[index].fields;
    results := map[];
    var names := fields.Keys;
    while names != {}
      invariant names <= fields.Keys && results.Keys == fields.Keys - names
      invariant FieldsDenoted(source, fields, results)
      decreases |names|
    {
      var name :| name in names;
      var numVal := IsNumericStr(fields[name]);
      if numVal.Some? {
        assert Refers(source[index], numVal.value);
        var child := UnflattenStringItem(numVal.value, source, reach, rank);
        results := results[name := child];
      } else {
        results := results[name := fields[name]];
      }
      names := names - {name};
    }
  }

  // ----- what tables denote -----

  /** A table denotes at most one tree at an index, however its entries are shared. */
  lemma {:induction false} DenotedOnce(table: seq<Json>, index: int, v: Json, w: Json)
    requires Denotes(table, index, v) && Denotes(table, index, w)
    ensures v == w
    decreases v, 0
  {
    match table[index]
    case Arr(items) =>
      forall k | 0 <= k < |items|
        ensures v.items[k] == w.items[k]
      {
        ChildOnce(table, items[k], v.items[k], w.items[k]);
      }
    case Obj(fields) =>
      forall name | name in fields
        ensures v.fields[name] == w.fields[name]
      {
        ChildOnce(table, fields[name], v.fields[name], w.fields[name]);
      }
      assert v.fields == w.fields;
    case Str(_) =>
    case Null =>
    case Bool(_) =>
    case Num(_) =>
  }

  lemma ChildOnce(table: seq<Json>, slot: Json, v: Json, w: Json)
    requires Child(table, slot, v) && Child(table, slot, w)
    ensures v == w
    decreases v, 1
  {
    if IsNumericStr(slot).Some? {
      DenotedOnce(table, IsNumericStr(slot).value, v, w);
    }
  }

  /** With a rank every index it covers denotes a tree. */
  lemma {:induction false} RankedDenotes(
      table: seq<Json>, reach: set<int>, rank: int -> nat, index: int)
      returns (v: Json)
    requires Ranked(table, reach, rank) && index in reach
    ensures Denotes(table, index, v)
    decreases rank(index)
  {
    var entry := table[index];
    if entry.Str? {
      v := entry;
    } else if entry.Arr? {
      forall k | 0 <= k < |entry.items|
        ensures exists c :: Child(table, entry.items[k], c)
      {
        var c := RankedChild(table, reach, rank, index, entry.items[k]);
      }
      v := Arr(seq(|entry.items|, k requires 0 <= k < |entry.items| => var c :| Child(table, entry.items[k], c); c));
    } else if entry.Obj? {
      forall name | name in entry.fields
        ensures exists c :: Child(table, entry.fields[name], c)
      {
        var c := RankedChild(table, reach, rank, index, entry.fields[name]);
      }
      v := Obj(map name | name in entry.fields :: var c :| Child(table, entry.fields[name], c); c);
    } else {
      v := Str("error");
    }
  }

  lemma RankedChild(table: seq<Json>, reach: set<int>, rank: int -> nat, index: int, slot: Json) returns (c: Json)
    requires Ranked(table, reach, rank) && index in reach
    requires IsNumericStr(slot).Some? ==> Refers(table[index], IsNumericStr(slot).value)
    ensures Child(table, slot, c)
    decreases rank(index), 0
  {
    if IsNumericStr(slot).Some? {
      c := RankedDenotes(table, reach, rank, IsNumericStr(slot).value);
    } else {
      c := slot;
    }
  }

  ghost function UpperBound(s: set<nat>): (bound: nat)
    ensures forall x :: x in s ==> x < bound
  {
    if s == {} then 0
    else
      var x :| x in s;
      var rest := UpperBound(s - {x});
      assert forall y :: y in s ==> y == x || y in s - {x};
      if x < rest then rest else x + 1
  }

  ghost function Depth(v: Json): nat {
    if v.Arr? then UpperBound(set k | 0 <= k < |v.items| :: Depth(v.items[k]))
    else if v.Obj? then UpperBound(set name | name in v.fields :: Depth(v.fields[name]))
    else 0
  }

  lemma ItemDepth(v: Json, k: nat)
    requires v.Arr? && k < |v.items|
    ensures Depth(v.items[k]) < Depth(v)
  {
    var depths := set m | 0 <= m < |v.items| :: Depth(v.items[m]);
    assert Depth(v.items[k]) in depths;
  }

  lemma FieldDepth(v: Json, name: string)
    requires v.Obj? && name in v.fields
    ensures Depth(v.fields[name]) < Depth(v)
  {
    var depths := set m | m in v.fields :: Depth(v.fields[m]);
    assert Depth(v.fields[name]) in depths;
  }

  lemma ReferredDenotesChild(table: seq<Json>, i: int, j: int, v: Json) returns (c: Json)
    requires Denotes(table, i, v) && Refers(table[i], j)
    ensures Denotes(table, j, c) && Depth(c) < Depth(v)
  {
    var entry := table[i];
    if entry.Arr? {
      var k :| 0 <= k < |entry.items| && IsNumericStr(entry.items[k]) == Some(j);
      c := v.items[k];
      ItemDepth(v, k);
      assert Child(table, entry.items[k], c);
    } else {
      var name :| name in entry.fields && IsNumericStr(entry.fields[name]) == Some(j);
      c := v.fields[name];
      FieldDepth(v, name);
      assert Child(table, entry.fields[name], c);
    }
  }

  ghost predicate Decodes(table: seq<Json>, index: int) {
    exists v :: Denotes(table, index, v)
  }

  ghost function DepthAt(table: seq<Json>, index: int): nat {
    if Decodes(table, index) then (var v :| Denotes(table, index, v); Depth(v)) else 0
  }

  ghost function DepthRank(table: seq<Json>): int -> nat {
    i => DepthAt(table, i)
  }

  lemma DepthAtIs(table: seq<Json>, index: int, v: Json)
    requires Denotes(table, index, v)
    ensures DepthAt(table, index) == Depth(v)
  {
    var w :| Denotes(table, index, w) && DepthAt(table, index) == Depth(w);
    DenotedOnce(table, index, v, w);
  }

  lemma DepthDecreases(table: seq<Json>, i: int, j: int)
    requires 0 <= i < |table| && Decodes(table, i) && Refers(table[i], j)
    ensures 0 <= j < |table| && Decodes(table, j) && DepthAt(table, j) < DepthAt(table, i)
  {
    var v :| Denotes(table, i, v);
    var c := ReferredDenotesChild(table, i, j, v);
    DepthAtIs(table, i, v);
    DepthAtIs(table, j, c);
  }

  /** An index denotes a tree exactly when what it reaches is in range and cannot be followed for ever. */
  lemma DecodesIffGrounded(table: seq<Json>, index: int)
    ensures Decodes(table, index) <==> Grounded(table, index)
  {
    if Decodes(table, index) {
      var reach := set i | 0 <= i < |table| && Decodes(table, i);
      var rank := DepthRank(table);
      forall i, j | i in reach && 0 <= i < |table| && Refers(table[i], j)
        ensures Descends(reach, rank, i, j)
      {
        DepthDecreases(table, i, j);
      }
      assert index in reach;
      assert Ranked(table, reach, rank);
    }
    if Grounded(table, index) {
      var reach, rank :| index in reach && Ranked(table, reach, rank);
      var v := RankedDenotes(table, reach, rank, index);
    }
  }

  /** A table whose only entry refers to itself denotes nothing. */
  lemma CycleDenotesNothing()
    ensures !Decodes([Arr([Str(Itoa(0))])], 0)
  {
    var table := [Arr([Str(Itoa(0))])];
    AtoiOfItoa(0);
    if v :| Denotes(table, 0, v) {
      assert IsNumericStr(table[0].items[0]) == Some(0);
      assert Refers(table[0], 0);
      var c := ReferredDenotesChild(table, 0, 0, v);
      DenotedOnce(table, 0, v, c);
    }
  }

  // ----- an encoder -----

  /** An enumeration of the keys of each object. */
  type KeyOrder = map<string, Json> -> seq<string>

  ghost predicate ListsKeys(order: KeyOrder) {
    forall fields ::
      && (forall name :: name in fields <==> name in order(fields))
      && (forall i, j :: 0 <= i < j < |order(fields)| ==> order(fields)[i] != order(fields)[j])
  }

  /** Numbers, booleans and null stay where they are; strings and containers get an entry of their own. */
  predicate Inline(v: Json) {
    v.Null? || v.Bool? || v.Num?
  }

  ghost function ChildCount(order: KeyOrder, v: Json): nat {
    if v.Arr? then |v.items| else if v.Obj? then |order(v.fields)| else 0
  }

  ghost function ChildAt(order: KeyOrder, v: Json, k: nat): (c: Json)
    requires ListsKeys(order) && k < ChildCount(order, v)
    ensures (v decreases to c)
  {
    if v.Arr? then v.items[k]
    else
      assert order(v.fields)[k] in order(v.fields);
      v.fields[order(v.fields)[k]]
  }

  /** The entries of the first k children, laid out one after the other behind the entry at `base`. */
  ghost function Layout(order: KeyOrder, v: Json, k: nat, base: nat): seq<Json>
    requires ListsKeys(order) && k <= ChildCount(order, v)
    decreases v, 0, k
  {
    if k == 0 then []
    else
      var front := Layout(order, v, k - 1, base);
      var child := ChildAt(order, v, k - 1);
      if Inline(child) then front else front + Encode(order, child, base + 1 + |front|)
  }

  /** What the entry at `base` holds for its k-th child: the child itself or the index of its entry. */
  ghost function Slot(order: KeyOrder, v: Json, k: nat, base: nat): Json
    requires ListsKeys(order) && k < ChildCount(order, v)
    decreases v, 1
  {
    var child := ChildAt(order, v, k);
    if Inline(child) then child else Str(Itoa(base + 1 + |Layout(order, v, k, base)|))
  }

  ghost function IndexOf(names: seq<string>, name: string): (k: nat)
    requires name in names
    ensures k < |names| && names[k] == name
  {
    var k :| 0 <= k < |names| && names[k] == name;
    k
  }

  ghost function Head(order: KeyOrder, v: Json, base: nat): Json
    requires ListsKeys(order)
    decreases v, 2
  {
    if v.Arr? then Arr(seq(|v.items|, k requires 0 <= k < |v.items| => Slot(order, v, k, base)))
    else if v.Obj? then
      Obj(map name | name in v.fields ::
        assert name in order(v.fields);
        Slot(order, v, IndexOf(order(v.fields), name), base))
    else v
  }

  /** The table for a value: its own entry, then those of its children. */
  ghost function Encode(order: KeyOrder, v: Json, base: nat): (table: seq<Json>)
    requires ListsKeys(order)
    ensures |table| > 0
    decreases v, 3
  {
    [Head(order, v, base)] + Layout(order, v, ChildCount(order, v), base)
  }

  // ----- decoding what was encoded -----

  /** The table holds these entries from `base` on. */
  ghost predicate Holds(table: seq<Json>, base: nat, entries: seq<Json>) {
    base + |entries| <= |table| && table[base..base + |entries|] == entries
  }

  lemma {:induction false} LayoutGrows(order: KeyOrder, v: Json, k: nat, n: nat, base: nat)
    requires ListsKeys(order) && k <= n <= ChildCount(order, v)
    ensures Layout(order, v, k, base) <= Layout(order, v, n, base)
    decreases n
  {
    if k < n {
      LayoutGrows(order, v, k, n - 1, base);
    }
  }

  /** The entries of the k-th child stand at the index that its slot names. */
  lemma ChildHeld(order: KeyOrder, v: Json, table: seq<Json>, k: nat, base: nat)
    requires ListsKeys(order) && k < ChildCount(order, v) && Holds(table, base, Encode(order, v, base))
    requires !Inline(ChildAt(order, v, k))
    ensures var at := base + 1 + |Layout(order, v, k, base)|;
      Holds(table, at, Encode(order, ChildAt(order, v, k), at))
  {
    var front := Layout(order, v, k, base);
    var at := base + 1 + |front|;
    LayoutGrows(order, v, k + 1, ChildCount(order, v), base);
    var all, body := Layout(order, v, ChildCount(order, v), base), Encode(order, ChildAt(order, v, k), at);
    PartHeld(table, base, Head(order, v, base), all, front, body);
  }

  lemma PartHeld(table: seq<Json>, base: nat, head: Json, all: seq<Json>, front: seq<Json>, body: seq<Json>)
    requires Holds(table, base, [head] + all) && front + body <= all
    ensures Holds(table, base + 1 + |front|, body)
  {
    var at := base + 1 + |front|;
    forall i | 0 <= i < |body|
      ensures table[at + i] == body[i]
    {
      assert body[i] == (front + body)[|front| + i] == all[|front| + i] == ([head] + all)[1 + |front| + i];
      assert table[base..base + 1 + |all|][1 + |front| + i] == table[at + i];
    }
  }

  lemma {:induction false} SlotDenotes(order: KeyOrder, v: Json, table: seq<Json>, k: nat, base: nat)
    requires ListsKeys(order) && k < ChildCount(order, v) && Holds(table, base, Encode(order, v, base))
    requires |table| <= MAX_INT
    ensures Child(table, Slot(order, v, k, base), ChildAt(order, v, k))
    decreases v, 0
  {
    var c := ChildAt(order, v, k);
    if !Inline(c) {
      var at := base + 1 + |Layout(order, v, k, base)|;
      ChildHeld(order, v, table, k, base);
      EncodingDenotes(order, c, table, at);
      AtoiOfItoa(at);
    }
  }

  /** Wherever a table holds the encoding of a string or container, it denotes that value there. */
  lemma {:induction false} EncodingDenotes(order: KeyOrder, v: Json, table: seq<Json>, base: nat)
    requires ListsKeys(order) && !Inline(v) && Holds(table, base, Encode(order, v, base)) && |table| <= MAX_INT
    ensures Denotes(table, base, v)
    decreases v, 1
  {
    assert table[base] == Encode(order, v, base)[0] == Head(order, v, base);
    if v.Arr? {
      forall k | 0 <= k < |v.items|
        ensures Child(table, table[base].items[k], v.items[k])
      {
        SlotDenotes(order, v, table, k, base);
      }
    } else if v.Obj? {
      forall name | name in v.fields
        ensures Child(table, table[base].fields[name], v.fields[name])
      {
        SlotDenotes(order, v, table, IndexOf(order(v.fields), name), base);
      }
    }
  }

  // ----- encoded tables can be decoded -----

  /** All references of the entry lie strictly between its own index and the bound. */
  ghost predicate RefersForward(entry: Json, index: nat, bound: nat) {
    forall j :: Refers(entry, j) ==> index < j < bound
  }

  ghost predicate AllForward(entries: seq<Json>, base: nat, bound: nat) {
    forall i :: 0 <= i < |entries| ==> RefersForward(entries[i], base + i, bound)
  }

  lemma ForwardConcat(front: seq<Json>, back: seq<Json>, base: nat, bound: nat)
    requires AllForward(front, base, bound) && AllForward(back, base + |front|, bound)
    ensures AllForward(front + back, base, bound)
  {
    forall i | 0 <= i < |front + back|
      ensures RefersForward((front + back)[i], base + i, bound)
    {
      if i >= |front| {
        assert RefersForward(back[i - |front|], base + |front| + (i - |front|), bound);
      }
    }
  }

  lemma ChildFits(order: KeyOrder, v: Json, k: nat, base: nat)
    requires ListsKeys(order) && k < ChildCount(order, v) && !Inline(ChildAt(order, v, k))
    ensures 1 + |Layout(order, v, k, base)| < |Encode(order, v, base)|
  {
    LayoutGrows(order, v, k + 1, ChildCount(order, v), base);
    assert |Layout(order, v, k, base)| < |Layout(order, v, k + 1, base)|;
  }

  lemma SlotForward(order: KeyOrder, v: Json, k: nat, base: nat)
    requires ListsKeys(order) && k < ChildCount(order, v) && base + |Encode(order, v, base)| <= MAX_INT
    ensures var j := IsNumericStr(Slot(order, v, k, base));
      j.Some? ==> base < j.value < base + |Encode(order, v, base)|
  {
    if !Inline(ChildAt(order, v, k)) {
      ChildFits(order, v, k, base);
      AtoiOfItoa(base + 1 + |Layout(order, v, k, base)|);
    }
  }

  lemma HeadForward(order: KeyOrder, v: Json, base: nat)
    requires ListsKeys(order) && base + |Encode(order, v, base)| <= MAX_INT
    ensures RefersForward(Head(order, v, base), base, base + |Encode(order, v, base)|)
  {
    var head := Head(order, v, base);
    forall j | Refers(head, j)
      ensures base < j < base + |Encode(order, v, base)|
    {
      if head.Arr? {
        var k :| 0 <= k < |head.items| && IsNumericStr(head.items[k]) == Some(j);
        SlotForward(order, v, k, base);
      } else {
        var name :| name in head.fields && IsNumericStr(head.fields[name]) == Some(j);
        SlotForward(order, v, IndexOf(order(v.fields), name), base);
      }
    }
  }

  lemma {:induction false} LayoutForward(order: KeyOrder, v: Json, k: nat, base: nat, bound: nat)
    requires ListsKeys(order) && k <= ChildCount(order, v)
    requires base + 1 + |Layout(order, v, k, base)| <= bound <= MAX_INT
    ensures AllForward(Layout(order, v, k, base), base + 1, bound)
    decreases v, 0, k
  {
    if k == 0 {
    } else {
      var front, c := Layout(order, v, k - 1, base), ChildAt(order, v, k - 1);
      var at := base + 1 + |front|;
      if Inline(c) {
        LayoutForward(order, v, k - 1, base, bound);
      } else {
        var body := Encode(order, c, at);
        assert Layout(order, v, k, base) == front + body;
        LayoutForward(order, v, k - 1, base, bound);
        EncodingForward(order, c, at, bound);
        ForwardConcat(front, body, base + 1, bound);
      }
    }
  }

  lemma {:induction false} EncodingForward(order: KeyOrder, v: Json, base: nat, bound: nat)
    requires ListsKeys(order) && base + |Encode(order, v, base)| <= bound <= MAX_INT
    ensures AllForward(Encode(order, v, base), base, bound)
    decreases v, 1
  {
    HeadForward(order, v, base);
    LayoutForward(order, v, ChildCount(order, v), base, bound);
    ForwardConcat([Head(order, v, base)], Layout(order, v, ChildCount(order, v), base), base, bound);
  }

  predicate IsIndex(table: seq<Json>, i: int) {
    0 <= i < |table|
  }

  ghost function Indexes(table: seq<Json>): set<int> {
    set i | 0 <= i < |table| && IsIndex(table, i)
  }

  ghost function Behind(table: seq<Json>): int -> nat {
    i => if 0 <= i < |table| then |table| - i else 0
  }

  /** An encoded table meets the decoder's precondition, and decoding it yields the encoded value and nothing else. */
  lemma DecodingInvertsEncoding(order: KeyOrder, v: Json, w: Json)
    requires ListsKeys(order) && !Inline(v) && |Encode(order, v, 0)| <= MAX_INT
    ensures var table := Encode(order, v, 0); Ranked(table, Indexes(table), Behind(table))
    ensures Denotes(Encode(order, v, 0), 0, w) <==> w == v
  {
    var table := Encode(order, v, 0);
    EncodingForward(order, v, 0, |table|);
    ForwardIsRanked(table);
    assert table[0..|table|] == table;
    EncodingDenotes(order, v, table, 0);
    if Denotes(table, 0, w) {
      DenotedOnce(table, 0, v, w);
    }
  }

  lemma ForwardIsRanked(table: seq<Json>)
    requires AllForward(table, 0, |table|)
    ensures Ranked(table, Indexes(table), Behind(table))
  {
    var reach := Indexes(table);
    forall i, j | i in reach && 0 <= i < |table| && Refers(table[i], j)
      ensures Descends(reach, Behind(table), i, j)
    {
      assert RefersForward(table[i], 0 + i, |table|);
    }
  }
}
