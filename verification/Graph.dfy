/** The connection graph of a workflow and its inversion. */
module Graph {

  datatype Connection = Connection(node: string, typ: string, index: nat)

  /** Slot number to connections; an output slot in the stored graph, an input slot in the inverse. */
  type Slots = seq<seq<Connection>>

  /** Node name, connection type, slot number. */
  type Connections = map<string, map<string, Slots>>

  function SlotsOf(g: Connections, node: string, typ: string): Slots {
    if node in g && typ in g[node] then g[node][typ] else []
  }

  function SlotOf(g: Connections, node: string, typ: string, slot: nat): seq<Connection> {
    var slots := SlotsOf(g, node, typ);
    if slot < |slots| then slots[slot] else []
  }

  /** How often `target` occurs in the given slot. */
  ghost function Multiplicity(g: Connections, node: string, typ: string, slot: nat, target: Connection): nat {
    multiset(SlotOf(g, node, typ, slot))[target]
  }

  /** One possible iteration order over all (source, type) keys of the nested maps. */
  ghost predicate IsMapOrder(g: Connections, order: seq<(string, string)>) {
    && (forall i, j :: 0 <= i < j < |order| ==> order[i] != order[j])
    && (forall i :: 0 <= i < |order| ==> order[i].0 in g && order[i].1 in g[order[i].0])
    && (forall s, c :: s in g && c in g[s] ==> (s, c) in order)
  }

  function Pad(slots: Slots, n: nat): (r: Slots)
    ensures |r| == if |slots| < n then n else |slots|
    ensures forall i :: 0 <= i < |r| ==> r[i] == if i < |slots| then slots[i] else []
    decreases n - |slots|
  {
    if |slots| < n then Pad(slots + [[]], n) else slots
  }

  /** Record the edge from output `o` (type `c`) of `s` at its destination. */
  function AddEdge(inv: Connections, s: string, c: string, o: nat, info: Connection): Connections {
    var byType := if info.node in inv then inv[info.node] else map[];
    var slots := Pad(SlotsOf(inv, info.node, info.typ), info.index + 1);
    inv[info.node := byType[info.typ := slots[info.index := slots[info.index] + [Connection(s, c, o)]]]]
  }

  function AddSlot(inv: Connections, s: string, c: string, o: nat, infos: seq<Connection>): Connections {
    if infos == [] then inv
    else AddEdge(AddSlot(inv, s, c, o, infos[..|infos| - 1]), s, c, o, infos[|infos| - 1])
  }

  function AddSlots(inv: Connections, s: string, c: string, slots: Slots): Connections {
    if slots == [] then inv
    else AddSlot(AddSlots(inv, s, c, slots[..|slots| - 1]), s, c, |slots| - 1, slots[|slots| - 1])
  }

  function Inverse(g: Connections, order: seq<(string, string)>): Connections {
    if order == [] then map[]
    else
      var (s, c) := order[|order| - 1];
      AddSlots(Inverse(g, order[..|order| - 1]), s, c, SlotsOf(g, s, c))
  }

  /** The loop over the connections of one output slot. */
  method InvertSlot(
      before: Connections, s: string, c: string, o: nat, infos: seq<Connection>)
      returns (inv: Connections)
    ensures inv == AddSlot(before, s, c, o, infos)
  {
    inv := before;
    for j := 0 to |infos|
      invariant inv == AddSlot(before, s, c, o, infos[..j])
    {
      assert infos[..j + 1][..j] == infos[..j];
      inv := AddConnection(inv, s, c, o, infos[j]);
    }
    assert infos[..|infos|] == infos;
  }

  /** The loop over the output slots of one source and type. */
  method InvertSlots(before: Connections, s: string, c: string, slots: Slots) returns (inv: Connections)
    ensures inv == AddSlots(before, s, c, slots)
  {
    inv := before;
    for o := 0 to |slots|
      invariant inv == AddSlots(before, s, c, slots[..o])
    {
      assert slots[..o + 1][..o] == slots[..o];
      inv := InvertSlot(inv, s, c, o, slots[o]);
    }
    assert slots[..|slots|] == slots;
  }

  /** The nested loops of getConnectionByDestination; `order` is the iteration order the runtime picked. */
  method GetConnectionByDestination(g: Connections, order: seq<(string, string)>) returns (inv: Connections)
    ensures inv == Inverse(g, order)
  {
    inv := map[];
    for n := 0 to |order|
      invariant inv == Inverse(g, order[..n])
    {
      assert order[..n + 1][..n] == order[..n];
      var (s, c) := order[n];
      inv := InvertSlots(inv, s, c, SlotsOf(g, s, c));
    }
    assert order[..|order|] == order;
  }

  /** The innermost loop body: create the missing map levels, grow the slot list, append. */
  method AddConnection(inv: Connections, s: string, c: string, o: nat, info: Connection) returns (r: Connections)
    ensures r == AddEdge(inv, s, c, o, info)
  {
    r := inv;
    if info.node !in r {
      r := r[info.node := map[]];
    }
    if info.typ !in r[info.node] {
      r := r[info.node := r[info.node][info.typ := []]];
    }
    var slots := r[info.node][info.typ];
    ghost var start := slots;
    while |slots| <= info.index
      invariant |start| <= |slots|
      invariant Pad(slots, info.index + 1) == Pad(start, info.index + 1)
    {
      slots := slots + [[]];
    }
    assert slots == Pad(start, info.index + 1);
    slots := slots[info.index := slots[info.index] + [Connection(s, c, o)]];
    ghost var byType := if info.node in inv then inv[info.node] else map[];
    assert r[info.node][info.typ := slots] == byType[info.typ := slots];
    r := r[info.node := r[info.node][info.typ := slots]];
  }

  // ----- exact inversion -----

  lemma AddEdgeSlot(inv: Connections, s: string, c: string, o: nat, info: Connection, d: string, t: string, i: nat)
    ensures SlotOf(AddEdge(inv, s, c, o, info), d, t, i)
         == SlotOf(inv, d, t, i) + if info == Connection(d, t, i) then [Connection(s, c, o)] else []
  {
  }

  lemma {:induction false} AddSlotMultiplicity(
      inv: Connections, s: string, c: string, o: nat, infos: seq<Connection>, d: string, t: string, i: nat,
      k: Connection)
    ensures Multiplicity(AddSlot(inv, s, c, o, infos), d, t, i, k)
         == Multiplicity(inv, d, t, i, k) + if k == Connection(s, c, o) then multiset(infos)[Connection(d, t, i)] else 0
  {
    if infos == [] {
    } else {
      var front, last := infos[..|infos| - 1], infos[|infos| - 1];
      assert infos == front + [last];
      AddSlotMultiplicity(inv, s, c, o, front, d, t, i, k);
      AddEdgeSlot(AddSlot(inv, s, c, o, front), s, c, o, last, d, t, i);
    }
  }

  lemma {:induction false} AddSlotsMultiplicity(
      inv: Connections, s: string, c: string, slots: Slots, d: string, t: string, i: nat, k: Connection)
    ensures Multiplicity(AddSlots(inv, s, c, slots), d, t, i, k)
         == Multiplicity(inv, d, t, i, k)
          + if k.node == s && k.typ == c && k.index < |slots| then multiset(slots[k.index])[Connection(d, t, i)] else 0
  {
    if slots == [] {
    } else {
      var front, n := slots[..|slots| - 1], |slots| - 1;
      AddSlotsMultiplicity(inv, s, c, front, d, t, i, k);
      AddSlotMultiplicity(AddSlots(inv, s, c, front), s, c, n, slots[n], d, t, i, k);
      assert k == Connection(s, c, n) <==> k.node == s && k.typ == c && k.index == n;
      assert k.index < n ==> front[k.index] == slots[k.index];
    }
  }

  lemma {:induction false} PartialInversion(
      g: Connections, order: seq<(string, string)>, d: string, t: string, i: nat, k: Connection)
    requires forall i, j :: 0 <= i < j < |order| ==> order[i] != order[j]
    ensures Multiplicity(Inverse(g, order), d, t, i, k)
         == if (k.node, k.typ) in order then Multiplicity(g, k.node, k.typ, k.index, Connection(d, t, i)) else 0
  {
    if order == [] {
    } else {
      var front, last := order[..|order| - 1], order[|order| - 1];
      assert order == front + [last];
      PartialInversion(g, front, d, t, i, k);
      AddSlotsMultiplicity(Inverse(g, front), last.0, last.1, SlotsOf(g, last.0, last.1), d, t, i, k);
    }
  }

  /** An edge occurs in the inverse exactly as often as in the graph, whatever the iteration order. */
  lemma ExactInversion(
      g: Connections, order: seq<(string, string)>, s: string, c: string, o: nat, d: string, t: string, i: nat)
    requires IsMapOrder(g, order)
    ensures Multiplicity(Inverse(g, order), d, t, i, Connection(s, c, o))
         == Multiplicity(g, s, c, o, Connection(d, t, i))
  {
    PartialInversion(g, order, d, t, i, Connection(s, c, o));
  }

  /** Inverting twice gives the same multiset of edges back. */
  lemma InverseOfInverse(
      g: Connections, order: seq<(string, string)>, order': seq<(string, string)>,
      s: string, c: string, o: nat, k: Connection)
    requires IsMapOrder(g, order) && IsMapOrder(Inverse(g, order), order')
    ensures Multiplicity(Inverse(Inverse(g, order), order'), s, c, o, k) == Multiplicity(g, s, c, o, k)
  {
    ExactInversion(Inverse(g, order), order', k.node, k.typ, k.index, s, c, o);
    ExactInversion(g, order, s, c, o, k.node, k.typ, k.index);
  }

  // ----- shape of the inverse -----

  /** No map level is empty and every slot list ends in a used slot. */
  ghost predicate Tight(inv: Connections) {
    forall d :: d in inv ==> inv[d] != map[] && forall t :: t in inv[d] ==> EndsUsed(inv[d][t])
  }

  predicate EndsUsed(slots: Slots) {
    |slots| > 0 && slots[|slots| - 1] != []
  }

  lemma PaddedEndsUsed(slots: Slots, i: nat, k: Connection)
    requires slots == [] || EndsUsed(slots)
    ensures EndsUsed(Pad(slots, i + 1)[i := Pad(slots, i + 1)[i] + [k]])
  {
  }

  lemma AddEdgeTight(inv: Connections, s: string, c: string, o: nat, info: Connection)
    requires Tight(inv)
    ensures Tight(AddEdge(inv, s, c, o, info))
  {
    var next := AddEdge(inv, s, c, o, info);
    PaddedEndsUsed(SlotsOf(inv, info.node, info.typ), info.index, Connection(s, c, o));
    assert info.typ in next[info.node];
    forall d, t | d in next && t in next[d]
      ensures EndsUsed(next[d][t])
    {
      assert d != info.node ==> next[d] == inv[d];
    }
  }

  lemma {:induction false} AddSlotTight(inv: Connections, s: string, c: string, o: nat, infos: seq<Connection>)
    requires Tight(inv)
    ensures Tight(AddSlot(inv, s, c, o, infos))
  {
    if infos == [] {
    } else {
      var front, last := infos[..|infos| - 1], infos[|infos| - 1];
      AddSlotTight(inv, s, c, o, front);
      AddEdgeTight(AddSlot(inv, s, c, o, front), s, c, o, last);
    }
  }

  lemma {:induction false} AddSlotsTight(inv: Connections, s: string, c: string, slots: Slots)
    requires Tight(inv)
    ensures Tight(AddSlots(inv, s, c, slots))
  {
    if slots == [] {
    } else {
      AddSlotsTight(inv, s, c, slots[..|slots| - 1]);
      AddSlotTight(AddSlots(inv, s, c, slots[..|slots| - 1]), s, c, |slots| - 1, slots[|slots| - 1]);
    }
  }

  lemma {:induction false} InverseTight(g: Connections, order: seq<(string, string)>)
    ensures Tight(Inverse(g, order))
  {
    if order == [] {
    } else {
      InverseTight(g, order[..|order| - 1]);
      var (s, c) := order[|order| - 1];
      AddSlotsTight(Inverse(g, order[..|order| - 1]), s, c, SlotsOf(g, s, c));
    }
  }

  /** Some output of type `c` of node `s` is wired to input `i` of type `t` of node `d`. */
  ghost predicate Edge(g: Connections, s: string, c: string, o: nat, d: string, t: string, i: nat) {
    Connection(d, t, i) in SlotOf(g, s, c, o)
  }

  /** Membership form of ExactInversion. */
  lemma EdgeInverse(
      g: Connections, order: seq<(string, string)>, s: string, c: string, o: nat, d: string, t: string, i: nat)
    requires IsMapOrder(g, order)
    ensures Edge(Inverse(g, order), d, t, i, s, c, o) <==> Edge(g, s, c, o, d, t, i)
  {
    ExactInversion(g, order, s, c, o, d, t, i);
    InSeqMultiset(SlotOf(g, s, c, o), Connection(d, t, i));
    InSeqMultiset(SlotOf(Inverse(g, order), d, t, i), Connection(s, c, o));
  }

  lemma InSeqMultiset(s: seq<Connection>, k: Connection)
    ensures k in s <==> multiset(s)[k] > 0
  {
    assert k in s <==> k in multiset(s);
  }

  /** Every wired input index is within the slot list of the inverse. */
  lemma WiredInputHasSlot(
      g: Connections, order: seq<(string, string)>, s: string, c: string, o: nat, d: string, t: string, i: nat)
    requires IsMapOrder(g, order) && Edge(g, s, c, o, d, t, i)
    ensures i < |SlotsOf(Inverse(g, order), d, t)|
  {
    EdgeInverse(g, order, s, c, o, d, t, i);
  }

  /** The last slot is wired, so the slot count is one more than the largest wired input index. */
  lemma LastInputSlotWired(g: Connections, order: seq<(string, string)>, d: string, t: string)
      returns (s: string, c: string, o: nat)
    requires IsMapOrder(g, order) && SlotsOf(Inverse(g, order), d, t) != []
    ensures Edge(g, s, c, o, d, t, |SlotsOf(Inverse(g, order), d, t)| - 1)
  {
    var inv := Inverse(g, order);
    var n := |SlotsOf(inv, d, t)| - 1;
    InverseTight(g, order);
    var k := SlotOf(inv, d, t, n)[0];
    s, c, o := k.node, k.typ, k.index;
    assert Edge(inv, d, t, n, s, c, o);
    EdgeInverse(g, order, s, c, o, d, t, n);
  }

  lemma SingletonsEqual(a: seq<Connection>, b: seq<Connection>)
    requires forall k: Connection :: multiset(a)[k] == multiset(b)[k]
    requires |a| <= 1
    ensures a == b
  {
    assert multiset(a) == multiset(b);
    assert |a| == |multiset(a)| == |multiset(b)| == |b|;
    if |a| == 1 {
      assert b[0] in multiset(b);
    }
  }

  lemma InputSlotCountBound(
      g: Connections, order: seq<(string, string)>, order': seq<(string, string)>, d: string, t: string)
    requires IsMapOrder(g, order) && IsMapOrder(g, order')
    ensures |SlotsOf(Inverse(g, order), d, t)| <= |SlotsOf(Inverse(g, order'), d, t)|
  {
    if SlotsOf(Inverse(g, order), d, t) != [] {
      LastSlotBound(g, order, order', d, t, |SlotsOf(Inverse(g, order), d, t)| - 1);
    }
  }

  lemma LastSlotBound(
      g: Connections, order: seq<(string, string)>, order': seq<(string, string)>, d: string, t: string, i: nat)
    requires IsMapOrder(g, order) && IsMapOrder(g, order') && i == |SlotsOf(Inverse(g, order), d, t)| - 1
    ensures i < |SlotsOf(Inverse(g, order'), d, t)|
  {
    var s, c, o := LastInputSlotWired(g, order, d, t);
    WiredInputHasSlot(g, order', s, c, o, d, t, i);
  }

  /** When each input slot of `d` has at most one source, its slot list does not depend on the iteration order. */
  lemma OrderIndependentSlots(
      g: Connections, order: seq<(string, string)>, order': seq<(string, string)>, d: string, t: string)
    requires IsMapOrder(g, order) && IsMapOrder(g, order')
    requires forall i: nat :: |SlotOf(Inverse(g, order), d, t, i)| <= 1
    ensures SlotsOf(Inverse(g, order), d, t) == SlotsOf(Inverse(g, order'), d, t)
  {
    var a, b := SlotsOf(Inverse(g, order), d, t), SlotsOf(Inverse(g, order'), d, t);
    InputSlotCountBound(g, order, order', d, t);
    InputSlotCountBound(g, order', order, d, t);
    forall i: nat | i < |a|
      ensures a[i] == b[i]
    {
      assert a[i] == SlotOf(Inverse(g, order), d, t, i) && b[i] == SlotOf(Inverse(g, order'), d, t, i);
      forall k: Connection
        ensures multiset(a[i])[k] == multiset(b[i])[k]
      {
        ExactInversion(g, order, k.node, k.typ, k.index, d, t, i);
        ExactInversion(g, order', k.node, k.typ, k.index, d, t, i);
      }
      SingletonsEqual(a[i], b[i]);
    }
  }

  // ----- the order within a slot -----

  /** The connections of the slot come from later and later keys, and from one key by growing output slot. */
  ghost predicate InKeyOrder(order: seq<(string, string)>, slot: seq<Connection>) {
    forall a, b, p, q ::
      0 <= a < b < |slot| && IsKeyOf(order, p, slot[a]) && IsKeyOf(order, q, slot[b]) ==>
        p < q || (p == q && slot[a].index <= slot[b].index)
  }

  predicate IsKeyOf(order: seq<(string, string)>, p: int, k: Connection) {
    0 <= p < |order| && order[p] == (k.node, k.typ)
  }

  /** Connections of the key `(s, c)` alone, from the output slots below `n`, in their order. */
  ghost predicate FromKey(s: string, c: string, n: nat, tail: seq<Connection>) {
    && (forall a :: 0 <= a < |tail| ==> tail[a].node == s && tail[a].typ == c && tail[a].index < n)
    && (forall a, b :: 0 <= a < b < |tail| ==> tail[a].index <= tail[b].index)
  }

  lemma {:induction false} AddSlotTail(
      inv: Connections, s: string, c: string, o: nat, infos: seq<Connection>, d: string, t: string, i: nat)
      returns (tail: seq<Connection>)
    ensures SlotOf(AddSlot(inv, s, c, o, infos), d, t, i) == SlotOf(inv, d, t, i) + tail
    ensures forall a :: 0 <= a < |tail| ==> tail[a] == Connection(s, c, o)
  {
    if infos == [] {
      tail := [];
    } else {
      var front, last := infos[..|infos| - 1], infos[|infos| - 1];
      tail := AddSlotTail(inv, s, c, o, front, d, t, i);
      AddEdgeSlot(AddSlot(inv, s, c, o, front), s, c, o, last, d, t, i);
      if last == Connection(d, t, i) {
        tail := tail + [Connection(s, c, o)];
      }
    }
  }

  lemma {:induction false} AddSlotsTail(
      inv: Connections, s: string, c: string, slots: Slots, d: string, t: string, i: nat)
      returns (tail: seq<Connection>)
    ensures SlotOf(AddSlots(inv, s, c, slots), d, t, i) == SlotOf(inv, d, t, i) + tail
    ensures FromKey(s, c, |slots|, tail)
  {
    if slots == [] {
      tail := [];
    } else {
      var n := |slots| - 1;
      var front := AddSlotsTail(inv, s, c, slots[..n], d, t, i);
      var last := AddSlotTail(AddSlots(inv, s, c, slots[..n]), s, c, n, slots[n], d, t, i);
      tail := front + last;
    }
  }

  ghost predicate HasKey(order: seq<(string, string)>, k: Connection) {
    exists p :: IsKeyOf(order, p, k)
  }

  /** All connections of the slot have a key in the order. */
  ghost predicate KeysIn(order: seq<(string, string)>, slot: seq<Connection>) {
    forall a :: 0 <= a < |slot| ==> HasKey(order, slot[a])
  }

  lemma KeyOrderSnoc(
      front: seq<(string, string)>, s: string, c: string, n: nat, slot: seq<Connection>, tail: seq<Connection>)
    requires forall i, j :: 0 <= i < j < |front + [(s, c)]| ==> (front + [(s, c)])[i] != (front + [(s, c)])[j]
    requires InKeyOrder(front, slot) && KeysIn(front, slot) && FromKey(s, c, n, tail)
    ensures InKeyOrder(front + [(s, c)], slot + tail) && KeysIn(front + [(s, c)], slot + tail)
  {
    var order, all := front + [(s, c)], slot + tail;
    forall a | 0 <= a < |slot|
      ensures forall p :: IsKeyOf(order, p, all[a]) ==> IsKeyOf(front, p, slot[a])
    {
      var p :| IsKeyOf(front, p, slot[a]);
      assert IsKeyOf(order, p, all[a]);
    }
    forall a | |slot| <= a < |all|
      ensures IsKeyOf(order, |front|, all[a])
      ensures forall p :: IsKeyOf(order, p, all[a]) ==> p == |front|
    {
      assert all[a] == tail[a - |slot|];
    }
    forall a | 0 <= a < |all|
      ensures HasKey(order, all[a])
    {
      if a < |slot| {
        assert HasKey(front, slot[a]);
        var p :| IsKeyOf(front, p, slot[a]);
        assert IsKeyOf(order, p, all[a]);
      } else {
        assert IsKeyOf(order, |front|, all[a]);
      }
    }
    forall a, b, p, q | 0 <= a < b < |all| && IsKeyOf(order, p, all[a]) && IsKeyOf(order, q, all[b])
      ensures p < q || (p == q && all[a].index <= all[b].index)
    {
      if b < |slot| {
        assert IsKeyOf(front, p, slot[a]) && IsKeyOf(front, q, slot[b]);
      } else if a >= |slot| {
        assert tail[a - |slot|].index <= tail[b - |slot|].index;
      }
    }
  }

  /** Within an input slot, connections stand in the order of the iteration over keys, then of output slots. */
  lemma {:induction false} InverseSlotOrder(g: Connections, order: seq<(string, string)>, d: string, t: string, i: nat)
    requires forall i, j :: 0 <= i < j < |order| ==> order[i] != order[j]
    ensures InKeyOrder(order, SlotOf(Inverse(g, order), d, t, i)) && KeysIn(order, SlotOf(Inverse(g, order), d, t, i))
  {
    if order == [] {
    } else {
      var front, last := order[..|order| - 1], order[|order| - 1];
      assert order == front + [(last.0, last.1)];
      InverseSlotOrder(g, front, d, t, i);
      var slots := SlotsOf(g, last.0, last.1);
      var tail := AddSlotsTail(Inverse(g, front), last.0, last.1, slots, d, t, i);
      KeyOrderSnoc(front, last.0, last.1, |slots|, SlotOf(Inverse(g, front), d, t, i), tail);
    }
  }

  /** The first connection of an input slot is the wired one whose key, and then output slot, comes first. */
  lemma FirstIsEarliest(
      g: Connections, order: seq<(string, string)>, d: string, t: string, i: nat, s: string, c: string, o: nat,
      p: int, q: int)
    requires IsMapOrder(g, order) && Edge(g, s, c, o, d, t, i)
    requires IsKeyOf(order, q, Connection(s, c, o))
    ensures var slot := SlotOf(Inverse(g, order), d, t, i);
      && slot != [] && Edge(g, slot[0].node, slot[0].typ, slot[0].index, d, t, i)
      && (IsKeyOf(order, p, slot[0]) ==> p < q || (p == q && slot[0].index <= o))
  {
    var slot := SlotOf(Inverse(g, order), d, t, i);
    EdgeInverse(g, order, s, c, o, d, t, i);
    InverseSlotOrder(g, order, d, t, i);
    var b :| 0 <= b < |slot| && slot[b] == Connection(s, c, o);
    assert Edge(Inverse(g, order), d, t, i, slot[0].node, slot[0].typ, slot[0].index);
    EdgeInverse(g, order, slot[0].node, slot[0].typ, slot[0].index, d, t, i);
  }
}
