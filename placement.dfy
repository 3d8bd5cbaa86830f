/** The placement engine of the ranking tool: values move between an
    unassigned pool, five labelled tiers and a five-slot Top-5 selection.
    Everything here is a pure specification over the three containers; the
    class `AppState` (module State) performs the same moves in place and is
    proved against these functions. */
module Placement {
  import opened Wrappers

  /** A sortable personal value; `id` is unique and stable. */
  datatype Value = Value(id: string, name: string, description: string)

  /** A priority tier: its fixed label (its name) and the values placed in it, in
      insertion order. Colour and description are display data only. */
  datatype Tier = Tier(name: string, values: seq<Value>)

  /** One Top-5 slot; `None` is an empty slot (`null` in the application). */
  type Slot = Option<Value>

  /** The three containers a move works on. */
  datatype Board = Board(tiers: seq<Tier>, pool: seq<Value>, top5: seq<Slot>)

  /** The tier labels, highest priority first. */
  const Labels: seq<string> := ["S", "A", "B", "C", "D"]

  /** The number of Top-5 slots. */
  const SlotCount: nat := 5

  // ---------------------------------------------------------------------
  // Ids and bags of ids

  function Ids(s: seq<Value>): seq<string>
  {
    seq(|s|, i requires 0 <= i < |s| => s[i].id)
  }

  /** How many times each id occurs in a sequence of values. */
  function IdBag(s: seq<Value>): multiset<string>
  {
    multiset(Ids(s))
  }

  /** How many times each id occurs across all tiers. */
  function TierBag(ts: seq<Tier>): multiset<string>
  {
    if ts == [] then multiset{} else IdBag(ts[0].values) + TierBag(ts[1..])
  }

  /** How many times each id occurs in the tiers and the pool together. */
  function ResidentBag(b: Board): multiset<string>
  {
    TierBag(b.tiers) + IdBag(b.pool)
  }

  lemma IdBagAppend(a: seq<Value>, c: seq<Value>)
    ensures IdBag(a + c) == IdBag(a) + IdBag(c)
  {
    assert Ids(a + c) == Ids(a) + Ids(c);
  }

  lemma IdBagRemoveAt(s: seq<Value>, k: nat)
    requires k < |s|
    ensures IdBag(RemoveAt(s, k)) + multiset{s[k].id} == IdBag(s)
  {
    assert s == s[..k] + [s[k]] + s[k + 1..];
    IdBagAppend(s[..k], s[k + 1..]);
    IdBagAppend(s[..k] + [s[k]], s[k + 1..]);
    IdBagAppend(s[..k], [s[k]]);
    assert Ids([s[k]]) == [s[k].id];
  }

  lemma InIdBag(s: seq<Value>, k: nat)
    requires k < |s|
    ensures s[k].id in IdBag(s)
  {
    assert Ids(s)[k] == s[k].id;
  }

  // Small facts of multiset arithmetic, kept apart so that each proof
  // that needs one stays cheap.

  lemma BagShift(a: multiset<string>, x: multiset<string>, y: multiset<string>, p: multiset<string>, v: multiset<string>)
    requires x + p == y + v
    ensures a + x + p == a + y + v
  {
    assert a + x + p == a + (x + p);
  }

  lemma BagCancel(a: multiset<string>, c: multiset<string>, d: multiset<string>)
    requires a + d == c + d
    ensures a == c
  {
    assert forall o :: a[o] == (a + d)[o] - d[o] && c[o] == (c + d)[o] - d[o];
  }

  lemma {:induction false} TierBagUpdate(ts: seq<Tier>, t: nat, vs: seq<Value>)
    requires t < |ts|
    ensures TierBag(ts[t := ts[t].(values := vs)]) + IdBag(ts[t].values) == TierBag(ts) + IdBag(vs)
  {
    var ts' := ts[t := ts[t].(values := vs)];
    if t == 0 {
      assert ts'[1..] == ts[1..];
      assert TierBag(ts') == IdBag(vs) + TierBag(ts[1..]);
      assert TierBag(ts) == IdBag(ts[0].values) + TierBag(ts[1..]);
    } else {
      var tail := ts[1..];
      TierBagUpdate(tail, t - 1, vs);
      assert ts'[1..] == tail[t - 1 := tail[t - 1].(values := vs)];
      assert ts'[0] == ts[0] && tail[t - 1] == ts[t];
      assert TierBag(ts') == IdBag(ts[0].values) + TierBag(ts'[1..]);
      assert TierBag(ts) == IdBag(ts[0].values) + TierBag(tail);
      BagShift(IdBag(ts[0].values), TierBag(ts'[1..]), TierBag(tail), IdBag(ts[t].values), IdBag(vs));
    }
  }

  lemma {:induction false} InTierBag(ts: seq<Tier>, t: nat, k: nat)
    requires t < |ts| && k < |ts[t].values|
    ensures ts[t].values[k].id in TierBag(ts)
  {
    if t == 0 {
      InIdBag(ts[0].values, k);
    } else {
      InTierBag(ts[1..], t - 1, k);
    }
  }

  // ---------------------------------------------------------------------
  // Searching by id (the application's findIndex / find)

  /** `s.findIndex(v => v.id === id)`: the first position holding `id`, or -1. */
  function IndexOf(s: seq<Value>, id: string): (r: int)
    ensures -1 <= r < |s|
    ensures 0 <= r ==> s[r].id == id
    ensures forall j :: 0 <= j < |s| && (r == -1 || j < r) ==> s[j].id != id
  {
    if s == [] then -1
    else if s[0].id == id then 0
    else
      var k := IndexOf(s[1..], id);
      if k == -1 then -1 else k + 1
  }

  lemma IndexOfBag(s: seq<Value>, id: string)
    ensures IndexOf(s, id) == -1 <==> id !in IdBag(s)
  {
    if IndexOf(s, id) != -1 {
      InIdBag(s, IndexOf(s, id));
    }
  }

  /** True when a slot holds the value with this id. */
  predicate Holds(slot: Slot, id: string)
  {
    slot.Some? && slot.value.id == id
  }

  /** `top5.findIndex(v => v?.id === id)`: the first slot holding `id`, or -1. */
  function SlotIndexOf(top5: seq<Slot>, id: string): (r: int)
    ensures -1 <= r < |top5|
    ensures 0 <= r ==> Holds(top5[r], id)
    ensures forall j :: 0 <= j < |top5| && (r == -1 || j < r) ==> !Holds(top5[j], id)
  {
    if top5 == [] then -1
    else if Holds(top5[0], id) then 0
    else
      var k := SlotIndexOf(top5[1..], id);
      if k == -1 then -1 else k + 1
  }

  /** `tiers.find(t => t.label === label)` as an index: the first tier with
      this label, or -1. */
  function LabelIndex(ts: seq<Tier>, name: string): (r: int)
    ensures -1 <= r < |ts|
    ensures 0 <= r ==> ts[r].name == name
    ensures forall j :: 0 <= j < |ts| && (r == -1 || j < r) ==> ts[j].name != name
  {
    if ts == [] then -1
    else if ts[0].name == name then 0
    else
      var k := LabelIndex(ts[1..], name);
      if k == -1 then -1 else k + 1
  }

  /** Where an id was found: at a position of a tier, of the pool, or nowhere. */
  datatype Location = InTier(tier: nat, pos: nat) | InPool(pos: nat) | Nowhere

  /** The tier loop of findAndRemoveValue from tier `from` on: the first
      tier holding `id`, at its first position. */
  function TierSearch(ts: seq<Tier>, id: string, from: nat): (r: Location)
    requires from <= |ts|
    decreases |ts| - from
    ensures !r.InPool?
    ensures r.InTier? ==> from <= r.tier < |ts| && IndexOf(ts[r.tier].values, id) == r.pos
    ensures r.InTier? ==> forall t :: from <= t < r.tier ==> IndexOf(ts[t].values, id) == -1
    ensures r.Nowhere? <==> forall t :: from <= t < |ts| ==> IndexOf(ts[t].values, id) == -1
  {
    if from == |ts| then Nowhere
    else
      var k := IndexOf(ts[from].values, id);
      if k >= 0 then InTier(from, k) else TierSearch(ts, id, from + 1)
  }

  lemma {:induction false} TierSearchBag(ts: seq<Tier>, id: string)
    ensures TierSearch(ts, id, 0).Nowhere? <==> id !in TierBag(ts)
  {
    if ts != [] {
      TierSearchBag(ts[1..], id);
      IndexOfBag(ts[0].values, id);
      var r := TierSearch(ts, id, 0);
      var r' := TierSearch(ts[1..], id, 0);
      assert r.Nowhere? <==> IndexOf(ts[0].values, id) == -1 && r'.Nowhere? by {
        assert forall t :: 1 <= t < |ts| ==> ts[t] == ts[1..][t - 1];
      }
    }
  }

  /** True when a location points at an existing position of the board. */
  predicate Within(b: Board, loc: Location)
  {
    match loc
    case InTier(t, k) => t < |b.tiers| && k < |b.tiers[t].values|
    case InPool(k) => k < |b.pool|
    case Nowhere => true
  }

  function ValueAt(b: Board, loc: Location): Value
    requires Within(b, loc) && !loc.Nowhere?
  {
    match loc
    case InTier(t, k) => b.tiers[t].values[k]
    case InPool(k) => b.pool[k]
  }

  /** Where findAndRemoveValue finds `id`: tiers are searched first, in
      order, then the pool. */
  function Locate(b: Board, id: string): (r: Location)
    ensures Within(b, r)
    ensures !r.Nowhere? ==> ValueAt(b, r).id == id
    ensures r.Nowhere? <==> id !in ResidentBag(b)
    ensures r.InPool? ==> id !in TierBag(b.tiers)
  {
    TierSearchBag(b.tiers, id);
    IndexOfBag(b.pool, id);
    var r := TierSearch(b.tiers, id, 0);
    if r.InTier? then r
    else
      var k := IndexOf(b.pool, id);
      if k >= 0 then InPool(k) else Nowhere
  }

  // ---------------------------------------------------------------------
  // Removing and appending (splice and push)

  /** `s.splice(k, 1)`: the sequence without position `k`. */
  function RemoveAt(s: seq<Value>, k: nat): (r: seq<Value>)
    requires k < |s|
    ensures |r| == |s| - 1
  {
    s[..k] + s[k + 1..]
  }

  /** The board after findAndRemoveValue took the value at `loc` out. */
  function Take(b: Board, loc: Location): (r: Board)
    requires Within(b, loc)
    ensures r.top5 == b.top5
    ensures |r.tiers| == |b.tiers|
    ensures forall t :: 0 <= t < |b.tiers| ==> r.tiers[t].name == b.tiers[t].name
  {
    match loc
    case InTier(t, k) =>
      b.(tiers := b.tiers[t := b.tiers[t].(values := RemoveAt(b.tiers[t].values, k))])
    case InPool(k) => b.(pool := RemoveAt(b.pool, k))
    case Nowhere => b
  }

  lemma TakeBags(b: Board, loc: Location)
    requires Within(b, loc) && !loc.Nowhere?
    ensures ResidentBag(Take(b, loc)) + multiset{ValueAt(b, loc).id} == ResidentBag(b)
    ensures loc.InTier? ==> TierBag(Take(b, loc).tiers) + multiset{ValueAt(b, loc).id} == TierBag(b.tiers)
    ensures loc.InPool? ==> TierBag(Take(b, loc).tiers) == TierBag(b.tiers)
  {
    var one := multiset{ValueAt(b, loc).id};
    match loc
    case InTier(t, k) =>
      var vs := b.tiers[t].values;
      var rest := IdBag(RemoveAt(vs, k));
      var ts1 := Take(b, loc).tiers;
      TierBagUpdate(b.tiers, t, RemoveAt(vs, k));
      IdBagRemoveAt(vs, k);
      assert TierBag(ts1) + (rest + one) == TierBag(b.tiers) + rest;
      assert TierBag(ts1) + one + rest == TierBag(b.tiers) + rest;
      BagCancel(TierBag(ts1) + one, TierBag(b.tiers), rest);
      assert TierBag(ts1) + one + IdBag(b.pool) == TierBag(b.tiers) + IdBag(b.pool);
    case InPool(k) =>
      IdBagRemoveAt(b.pool, k);
      assert IdBag(Take(b, loc).pool) + one == IdBag(b.pool);
  }

  /** `tiers[u].values.push(x)`. */
  function AppendToTier(ts: seq<Tier>, u: nat, x: Value): (r: seq<Tier>)
    requires u < |ts|
    ensures |r| == |ts| && forall t :: 0 <= t < |ts| ==> r[t].name == ts[t].name
    ensures TierBag(r) == TierBag(ts) + multiset{x.id}
  {
    var r := ts[u := ts[u].(values := ts[u].values + [x])];
    var old_ := IdBag(ts[u].values);
    TierBagUpdate(ts, u, ts[u].values + [x]);
    IdBagAppend(ts[u].values, [x]);
    assert Ids([x]) == [x.id];
    assert TierBag(r) + old_ == TierBag(ts) + (old_ + multiset{x.id});
    assert TierBag(r) + old_ == TierBag(ts) + multiset{x.id} + old_;
    BagCancel(TierBag(r), TierBag(ts) + multiset{x.id}, old_);
    r
  }

  // ---------------------------------------------------------------------
  // The Top-5 selection

  /** The `validTop5` view: the values of the non-empty slots, in slot order. */
  function ValidTop5(top5: seq<Slot>): (r: seq<Value>)
    ensures |r| <= |top5|
    ensures forall v :: v in r <==> Some(v) in top5
  {
    if top5 == [] then []
    else
      assert forall y :: y in top5 <==> y == top5[0] || y in top5[1..] by {
        assert top5 == [top5[0]] + top5[1..];
      }
      (if top5[0].Some? then [top5[0].value] else []) + ValidTop5(top5[1..])
  }

  /** How many times each id is ranked. */
  function RankedBag(top5: seq<Slot>): multiset<string>
  {
    IdBag(ValidTop5(top5))
  }

  lemma {:induction false} ValidTop5Append(a: seq<Slot>, c: seq<Slot>)
    ensures ValidTop5(a + c) == ValidTop5(a) + ValidTop5(c)
  {
    if a == [] {
      assert a + c == c;
    } else {
      assert (a + c)[1..] == a[1..] + c;
      ValidTop5Append(a[1..], c);
    }
  }

  /** Emptying slot `j` un-ranks exactly the value it held. */
  lemma RankedBagClear(top5: seq<Slot>, j: nat)
    requires j < |top5|
    ensures top5[j].Some? ==> RankedBag(top5[j := None]) + multiset{top5[j].value.id} == RankedBag(top5)
    ensures top5[j].None? ==> RankedBag(top5[j := None]) == RankedBag(top5)
  {
    var none: Slot := None;
    RankedBagPut(top5, j, none);
    RankedBagSingle(top5[j]);
    RankedBagSingle(none);
    assert RankedBag(top5[j := none]) + RankedBag([top5[j]]) == RankedBag(top5);
  }

  lemma RankedBagPut(top5: seq<Slot>, j: nat, y: Slot)
    requires j < |top5|
    ensures RankedBag(top5[j := y]) + RankedBag([top5[j]]) == RankedBag(top5) + RankedBag([y])
  {
    var pre, post := top5[..j], top5[j + 1..];
    assert top5 == pre + [top5[j]] + post;
    assert top5[j := y] == pre + [y] + post;
    ValidTop5Append(pre + [top5[j]], post);
    ValidTop5Append(pre, [top5[j]]);
    ValidTop5Append(pre + [y], post);
    ValidTop5Append(pre, [y]);
    IdBagAppend(ValidTop5(pre) + ValidTop5([top5[j]]), ValidTop5(post));
    IdBagAppend(ValidTop5(pre), ValidTop5([top5[j]]));
    IdBagAppend(ValidTop5(pre) + ValidTop5([y]), ValidTop5(post));
    IdBagAppend(ValidTop5(pre), ValidTop5([y]));
  }

  lemma RankedBagSingle(y: Slot)
    ensures y.None? ==> RankedBag([y]) == multiset{}
    ensures y.Some? ==> RankedBag([y]) == multiset{y.value.id}
  {
    assert [y][1..] == [];
    if y.Some? {
      assert Ids([y.value]) == [y.value.id];
    }
  }

  lemma SlotIndexOfBag(top5: seq<Slot>, id: string)
    ensures SlotIndexOf(top5, id) == -1 <==> id !in RankedBag(top5)
  {
    var r := SlotIndexOf(top5, id);
    var vs := ValidTop5(top5);
    if r != -1 {
      assert top5[r] in top5;
      var v := top5[r].value;
      assert v in vs;
      var k :| 0 <= k < |vs| && vs[k] == v;
      InIdBag(vs, k);
    } else {
      forall k | 0 <= k < |vs| ensures Ids(vs)[k] != id {
        assert vs[k] in vs;
        assert Some(vs[k]) in top5;
      }
    }
  }

  /** `s.splice(i, 0, x)`: insert at position `i`; like JavaScript's splice,
      a position past the end inserts at the end. */
  function InsertAt(s: seq<Value>, i: nat, x: Value): (r: seq<Value>)
    ensures |r| == |s| + 1
    ensures r[Min(i, |s|)] == x
    ensures RemoveAt(r, Min(i, |s|)) == s
  {
    if i <= |s| then s[..i] + [x] + s[i..] else s + [x]
  }

  function Min(a: nat, b: nat): nat
  {
    if a <= b then a else b
  }

  lemma InsertAtBag(s: seq<Value>, i: nat, x: Value)
    ensures IdBag(InsertAt(s, i, x)) == IdBag(s) + multiset{x.id}
  {
    var r := InsertAt(s, i, x);
    IdBagRemoveAt(r, Min(i, |s|));
  }

  /** `vs.filter(v => v.id !== id)`. */
  function Without(vs: seq<Value>, id: string): (r: seq<Value>)
    ensures |r| <= |vs|
    ensures id in Ids(vs) ==> |r| < |vs|
    ensures forall v :: v in r <==> v in vs && v.id != id
  {
    if vs == [] then []
    else
      assert forall v :: v in vs <==> v == vs[0] || v in vs[1..] by {
        assert vs == [vs[0]] + vs[1..];
      }
      if vs[0].id == id then
      Without(vs[1..], id)
    else
      assert id in Ids(vs) ==> id in Ids(vs[1..]) by {
        if id in Ids(vs) {
          var k :| 0 <= k < |vs| && Ids(vs)[k] == id;
          assert k > 0 && Ids(vs[1..])[k - 1] == id;
        }
      }
      [vs[0]] + Without(vs[1..], id)
  }

  lemma {:induction false} WithoutBag(vs: seq<Value>, id: string)
    ensures IdBag(Without(vs, id)) == IdBag(vs)[id := 0]
  {
    if vs != [] {
      WithoutBag(vs[1..], id);
      assert vs == [vs[0]] + vs[1..];
      IdBagAppend([vs[0]], vs[1..]);
      assert Ids([vs[0]]) == [vs[0].id];
      if vs[0].id != id {
        IdBagAppend([vs[0]], Without(vs[1..], id));
      }
    }
  }

  /** The slot-filling loops: `vs` laid into slots 0..4, padded with empty
      slots (entries past the fifth are not laid out). */
  function LayOut(vs: seq<Value>): (r: seq<Slot>)
    ensures |r| == SlotCount
  {
    seq(SlotCount, i requires 0 <= i < SlotCount => if i < |vs| then Some(vs[i]) else None)
  }

  function Filled(vs: seq<Value>): seq<Slot>
  {
    seq(|vs|, i requires 0 <= i < |vs| => Some(vs[i]))
  }

  function Empties(n: nat): seq<Slot>
  {
    seq(n, i requires 0 <= i < n => None)
  }

  lemma {:induction false} ValidTop5Filled(vs: seq<Value>)
    ensures ValidTop5(Filled(vs)) == vs
  {
    if vs != [] {
      assert Filled(vs)[1..] == Filled(vs[1..]);
      ValidTop5Filled(vs[1..]);
    }
  }

  lemma {:induction false} ValidTop5Empties(n: nat)
    ensures ValidTop5(Empties(n)) == []
  {
    if n > 0 {
      assert Empties(n)[1..] == Empties(n - 1);
      ValidTop5Empties(n - 1);
    }
  }

  /** Laying out at most five values and reading the non-empty slots back
      gives the same values in the same order. */
  lemma ValidTop5LayOut(vs: seq<Value>)
    requires |vs| <= SlotCount
    ensures ValidTop5(LayOut(vs)) == vs
  {
    assert LayOut(vs) == Filled(vs) + Empties(SlotCount - |vs|);
    ValidTop5Append(Filled(vs), Empties(SlotCount - |vs|));
    ValidTop5Filled(vs);
    ValidTop5Empties(SlotCount - |vs|);
  }

  lemma BagRestore(m: multiset<string>, id: string)
    requires m[id] == 1
    ensures m[id := 0] + multiset{id} == m
  {
  }

  // ---------------------------------------------------------------------
  // The invariants

  /** The five fixed tiers S, A, B, C, D, in this order. */
  predicate TiersFixed(ts: seq<Tier>)
  {
    |ts| == |Labels| && forall t :: 0 <= t < |ts| ==> ts[t].name == Labels[t]
  }

  /** Exclusive ownership: no id lives in two places among the tiers and the pool. */
  ghost predicate Exclusive(b: Board)
  {
    forall id :: ResidentBag(b)[id] <= 1
  }

  /** No id occupies two Top-5 slots. */
  ghost predicate RankedDistinct(top5: seq<Slot>)
  {
    forall id :: RankedBag(top5)[id] <= 1
  }

  /** Every ranked id is resident in some tier (so, by exclusivity, not in the pool). */
  ghost predicate RankedInTiers(b: Board)
  {
    forall id :: id in RankedBag(b.top5) ==> id in TierBag(b.tiers)
  }

  /** The global invariants of the placement engine. */
  ghost predicate Valid(b: Board)
  {
    TiersFixed(b.tiers) && |b.top5| == SlotCount && Exclusive(b) && RankedDistinct(b.top5) && RankedInTiers(b)
  }

  // ---------------------------------------------------------------------
  // moveValue

  /** moveValue once past the phase gate: take `id` out of the first place
      it is found (tiers first, then the pool) and put it at `target`; an id
      found nowhere changes nothing. */
  function Move(b: Board, id: string, target: Option<string>): (r: Board)
    ensures Locate(b, id).Nowhere? ==> r == b
    ensures target.Some? ==> r.top5 == b.top5
    ensures |r.top5| == |b.top5|
    ensures |r.tiers| == |b.tiers| && forall t :: 0 <= t < |b.tiers| ==> r.tiers[t].name == b.tiers[t].name
  {
    var loc := Locate(b, id);
    if loc.Nowhere? then b else Put(Take(b, loc), id, ValueAt(b, loc), target)
  }

  /** The rest of moveValue once the value `x` of `id` is out of its place:
      append it to the pool and empty the slot holding `id`, or append it to
      the tier labelled `name`; a label that no tier has drops the value. */
  function Put(b: Board, id: string, x: Value, target: Option<string>): (r: Board)
    ensures target.Some? ==> r.top5 == b.top5
    ensures |r.top5| == |b.top5|
    ensures |r.tiers| == |b.tiers| && forall t :: 0 <= t < |b.tiers| ==> r.tiers[t].name == b.tiers[t].name
  {
    match target
    case None =>
      var j := SlotIndexOf(b.top5, id);
      Board(b.tiers, b.pool + [x], if j == -1 then b.top5 else b.top5[j := None])
    case Some(name) =>
      var u := LabelIndex(b.tiers, name);
      if u == -1 then b else b.(tiers := AppendToTier(b.tiers, u, x))
  }

  /** A move to the pool relocates exactly one value: the value found for
      `id` becomes the last pool entry and every id keeps its number of
      residences. */
  lemma MoveToPoolRelocates(b: Board, id: string)
    requires !Locate(b, id).Nowhere?
    ensures var r := Move(b, id, None);
      |r.pool| > 0 && r.pool[|r.pool| - 1] == ValueAt(b, Locate(b, id))
    ensures ResidentBag(Move(b, id, None)) == ResidentBag(b)
  {
    var loc := Locate(b, id);
    PutInPool(Take(b, loc), id, ValueAt(b, loc));
    TakeBags(b, loc);
  }

  /** Putting `x` into the pool adds one residence of its id. */
  lemma PutInPool(b: Board, id: string, x: Value)
    ensures ResidentBag(Put(b, id, x, None)) == ResidentBag(b) + multiset{x.id}
  {
    IdBagAppend(b.pool, [x]);
    assert Ids([x]) == [x.id];
  }

  /** Putting `x` into an existing tier adds one residence of its id, in
      that tier, at its end. */
  lemma PutInTier(b: Board, id: string, x: Value, name: string)
    requires LabelIndex(b.tiers, name) >= 0
    ensures var r, u := Put(b, id, x, Some(name)), LabelIndex(b.tiers, name);
      && r.tiers[u].values == b.tiers[u].values + [x]
      && ResidentBag(r) == ResidentBag(b) + multiset{x.id}
      && TierBag(r.tiers) == TierBag(b.tiers) + multiset{x.id}
  {
    var r := Put(b, id, x, Some(name));
    BagShift(IdBag(b.pool), TierBag(r.tiers), TierBag(b.tiers), multiset{}, multiset{x.id});
  }

  /** Tier lists with the same labels find a label at the same index. */
  lemma SameLabels(ts: seq<Tier>, us: seq<Tier>, name: string)
    requires |ts| == |us| && forall t :: 0 <= t < |ts| ==> ts[t].name == us[t].name
    ensures LabelIndex(ts, name) == LabelIndex(us, name)
  {
  }

  /** A move to an existing tier relocates exactly one value: the value found
      for `id` becomes the last entry of that tier and every id keeps its
      number of residences. */
  lemma MoveToTierRelocates(b: Board, id: string, name: string)
    requires !Locate(b, id).Nowhere? && LabelIndex(b.tiers, name) >= 0
    ensures var vs := Move(b, id, Some(name)).tiers[LabelIndex(b.tiers, name)].values;
      |vs| > 0 && vs[|vs| - 1] == ValueAt(b, Locate(b, id))
    ensures ResidentBag(Move(b, id, Some(name))) == ResidentBag(b)
    ensures Locate(b, id).InTier? ==> TierBag(Move(b, id, Some(name)).tiers) == TierBag(b.tiers)
    ensures Locate(b, id).InPool? ==> TierBag(Move(b, id, Some(name)).tiers) == TierBag(b.tiers) + multiset{id}
  {
    TakePutInTier(b, Locate(b, id), id, name);
  }

  /** MoveToTierRelocates for the value at any place `loc`. */
  lemma TakePutInTier(b: Board, loc: Location, id: string, name: string)
    requires Within(b, loc) && !loc.Nowhere? && ValueAt(b, loc).id == id && LabelIndex(b.tiers, name) >= 0
    ensures var r, u := Put(Take(b, loc), id, ValueAt(b, loc), Some(name)), LabelIndex(b.tiers, name);
      && r.tiers[u].values == Take(b, loc).tiers[u].values + [ValueAt(b, loc)]
      && ResidentBag(r) == ResidentBag(b)
      && (loc.InTier? ==> TierBag(r.tiers) == TierBag(b.tiers))
      && (loc.InPool? ==> TierBag(r.tiers) == TierBag(b.tiers) + multiset{id})
  {
    var b1 := Take(b, loc);
    SameLabels(b1.tiers, b.tiers, name);
    PutInTier(b1, id, ValueAt(b, loc), name);
    TakeBags(b, loc);
  }

  /** A move to a name that no tier has takes the value out of the tiers and
      the pool without putting it anywhere: one residence of `id` is lost. */
  lemma MoveToMissingTierDrops(b: Board, id: string, name: string)
    requires !Locate(b, id).Nowhere? && LabelIndex(b.tiers, name) == -1
    ensures ResidentBag(Move(b, id, Some(name))) + multiset{id} == ResidentBag(b)
  {
    var loc := Locate(b, id);
    SameLabels(Take(b, loc).tiers, b.tiers, name);
    TakeBags(b, loc);
  }


  /** Clearing a slot keeps the Top-5 invariants. */
  lemma ClearSlotKeepsRanked(b: Board, j: nat)
    requires j < |b.top5| && RankedDistinct(b.top5) && RankedInTiers(b)
    ensures RankedDistinct(b.top5[j := None]) && RankedInTiers(b.(top5 := b.top5[j := None]))
    ensures RankedBag(b.top5[j := None]) <= RankedBag(b.top5)
  {
    RankedBagClear(b.top5, j);
    var nb := RankedBag(b.top5[j := None]);
    forall id ensures nb[id] <= RankedBag(b.top5)[id] {
      if b.top5[j].Some? {
        assert RankedBag(b.top5)[id] == nb[id] + multiset{b.top5[j].value.id}[id];
      }
    }
  }

  /** With a real target (the pool or an existing tier) every move keeps the
      invariants of the engine. */
  lemma MovePreservesValid(b: Board, id: string, target: Option<string>)
    requires Valid(b)
    requires target.None? || target.value in Labels
    ensures Valid(Move(b, id, target))
  {
    var loc := Locate(b, id);
    if !loc.Nowhere? {
      if target.Some? {
        MoveToTierKeepsValid(b, id, target.value);
      } else {
        MoveToPoolKeepsValid(b, id);
      }
    }
  }

  lemma MoveToTierKeepsValid(b: Board, id: string, name: string)
    requires Valid(b) && name in Labels && !Locate(b, id).Nowhere?
    ensures Valid(Move(b, id, Some(name)))
  {
    LabelFound(b.tiers, name);
    MoveToTierKeepsExclusive(b, id, name);
    MoveToTierKeepsRanked(b, id, name);
  }

  lemma MoveToTierKeepsExclusive(b: Board, id: string, name: string)
    requires Exclusive(b) && !Locate(b, id).Nowhere? && LabelIndex(b.tiers, name) >= 0
    ensures Exclusive(Move(b, id, Some(name)))
  {
    MoveToTierRelocates(b, id, name);
  }

  lemma MoveToTierKeepsRanked(b: Board, id: string, name: string)
    requires RankedInTiers(b) && !Locate(b, id).Nowhere? && LabelIndex(b.tiers, name) >= 0
    ensures RankedInTiers(Move(b, id, Some(name)))
  {
    MoveToTierRelocates(b, id, name);
    assert TierBag(b.tiers) <= TierBag(Move(b, id, Some(name)).tiers);
  }

  /** Every label names a tier of a fixed tier list. */
  lemma LabelFound(ts: seq<Tier>, name: string)
    requires TiersFixed(ts) && name in Labels
    ensures LabelIndex(ts, name) >= 0
  {
    var k :| 0 <= k < |Labels| && Labels[k] == name;
    assert ts[k].name == name;
  }

  /** Emptying the first slot that holds `id` un-ranks `id` and nothing else. */
  lemma Unrank(top5: seq<Slot>, id: string)
    requires RankedDistinct(top5)
    ensures var j := SlotIndexOf(top5, id);
      var top := if j == -1 then top5 else top5[j := None];
      && RankedDistinct(top) && id !in RankedBag(top)
      && forall i :: i != id ==> RankedBag(top)[i] == RankedBag(top5)[i]
  {
    var j := SlotIndexOf(top5, id);
    SlotIndexOfBag(top5, id);
    if j != -1 {
      RankedBagClear(top5, j);
      var nb := RankedBag(top5[j := None]);
      forall i ensures nb[i] + multiset{id}[i] == RankedBag(top5)[i] {
      }
    }
  }

  lemma MoveToPoolKeepsValid(b: Board, id: string)
    requires Valid(b) && !Locate(b, id).Nowhere?
    ensures Valid(Move(b, id, None))
  {
    MoveToPoolRelocates(b, id);
    MoveToPoolKeepsRanked(b, id);
  }

  /** A move to the pool un-ranks the moved value, so every value left in
      the Top-5 is still tier-resident. */
  lemma MoveToPoolKeepsRanked(b: Board, id: string)
    requires RankedDistinct(b.top5) && RankedInTiers(b) && !Locate(b, id).Nowhere?
    ensures RankedDistinct(Move(b, id, None).top5) && RankedInTiers(Move(b, id, None))
    ensures id !in RankedBag(Move(b, id, None).top5)
  {
    var loc := Locate(b, id);
    var r := Move(b, id, None);
    var j := SlotIndexOf(b.top5, id);
    assert r.top5 == if j == -1 then b.top5 else b.top5[j := None];
    assert r.tiers == Take(b, loc).tiers;
    TakeBags(b, loc);
    Unrank(b.top5, id);
    forall i | i in RankedBag(r.top5) ensures i in TierBag(r.tiers) {
      assert i != id && i in RankedBag(b.top5);
      if loc.InTier? {
        assert TierBag(r.tiers)[i] + multiset{id}[i] == TierBag(b.tiers)[i];
      }
    }
  }

  // ---------------------------------------------------------------------
  // moveValueToTop5 and removeFromTop5

  /** moveValueToTop5 for an id that already has a slot: into an empty
      target slot the value moves directly and its old slot empties; onto an
      occupied slot the other occupants are compacted, the value is inserted
      at `index` and the list is laid out again. */
  function RankedMove(top5: seq<Slot>, id: string, index: nat): (r: seq<Slot>)
    requires |top5| == SlotCount && index < SlotCount && SlotIndexOf(top5, id) >= 0
    ensures |r| == SlotCount
  {
    var e := SlotIndexOf(top5, id);
    var x := top5[e].value;
    if top5[index].None? then top5[e := None][index := Some(x)]
    else LayOut(InsertAt(Without(ValidTop5(top5), id), index, x))
  }

  /** Reordering within the Top-5 ranks the same ids as before. */
  lemma RankedMoveKeepsRanked(top5: seq<Slot>, id: string, index: nat)
    requires |top5| == SlotCount && index < SlotCount && SlotIndexOf(top5, id) >= 0
    requires RankedDistinct(top5)
    ensures RankedBag(RankedMove(top5, id, index)) == RankedBag(top5)
  {
    if top5[index].None? {
      RankedMoveIntoEmpty(top5, id, index);
    } else {
      RankedMoveOntoOccupied(top5, id, index);
    }
  }

  /** Into an empty slot the value moves directly: its old slot empties and
      no other slot changes. */
  lemma RankedMoveIntoEmpty(top5: seq<Slot>, id: string, index: nat)
    requires |top5| == SlotCount && index < SlotCount && SlotIndexOf(top5, id) >= 0
    requires top5[index].None?
    ensures var e, r := SlotIndexOf(top5, id), RankedMove(top5, id, index);
      && r[index] == top5[e] && r[e] == None
      && (forall j :: 0 <= j < SlotCount && j != e && j != index ==> r[j] == top5[j])
    ensures RankedBag(RankedMove(top5, id, index)) == RankedBag(top5)
  {
    var e := SlotIndexOf(top5, id);
    var x := top5[e].value;
    var t1 := top5[e := None];
    var r := t1[index := Some(x)];
    assert RankedMove(top5, id, index) == r;
    RankedBagClear(top5, e);
    RankedBagPut(t1, index, Some(x));
    RankedBagSingle(t1[index]);
    RankedBagSingle(Some(x));
    assert RankedBag(r) + multiset{} == RankedBag(t1) + multiset{id};
  }

  /** Onto an occupied slot the Top-5 reads back as the other occupants, in
      order, with the value inserted at `index`; with distinct ids no
      occupant is lost. */
  lemma RankedMoveOntoOccupied(top5: seq<Slot>, id: string, index: nat)
    requires |top5| == SlotCount && index < SlotCount && SlotIndexOf(top5, id) >= 0
    requires top5[index].Some? && RankedDistinct(top5)
    ensures var e := SlotIndexOf(top5, id);
      ValidTop5(RankedMove(top5, id, index)) == InsertAt(Without(ValidTop5(top5), id), index, top5[e].value)
    ensures RankedBag(RankedMove(top5, id, index)) == RankedBag(top5)
  {
    var e := SlotIndexOf(top5, id);
    var x := top5[e].value;
    var vs := ValidTop5(top5);
    var w := Without(vs, id);
    var ins := InsertAt(w, index, x);
    assert RankedMove(top5, id, index) == LayOut(ins);
    SlotIndexOfBag(top5, id);
    WithoutBag(vs, id);
    InsertAtBag(w, index, x);
    ValidTop5LayOut(ins);
    BagRestore(IdBag(vs), id);
  }

  /** moveValueToTop5 for a value `v` found in a tier that has no slot yet:
      the compacted occupants with `v` inserted at `index`, without the last
      entry when that makes six. */
  function Admitted(top5: seq<Slot>, v: Value, index: nat): (r: seq<Value>)
  {
    var vs := InsertAt(ValidTop5(top5), index, v);
    if |vs| > SlotCount then vs[..|vs| - 1] else vs
  }

  /** Admitting a value ranks it and nothing new besides it; an occupant is
      bumped only when all five slots were full, and then only the last. */
  lemma AdmittedRanks(top5: seq<Slot>, v: Value, index: nat)
    requires |top5| == SlotCount && index < SlotCount
    ensures |Admitted(top5, v, index)| <= SlotCount
    ensures ValidTop5(LayOut(Admitted(top5, v, index))) == Admitted(top5, v, index)
    ensures v.id in RankedBag(LayOut(Admitted(top5, v, index)))
    ensures RankedBag(LayOut(Admitted(top5, v, index))) <= RankedBag(top5) + multiset{v.id}
    ensures |ValidTop5(top5)| < SlotCount ==>
      RankedBag(LayOut(Admitted(top5, v, index))) == RankedBag(top5) + multiset{v.id}
    ensures |ValidTop5(top5)| == SlotCount ==>
      Admitted(top5, v, index) == InsertAt(ValidTop5(top5), index, v)[..SlotCount]
  {
    var occ := ValidTop5(top5);
    var vs := InsertAt(occ, index, v);
    var a := Admitted(top5, v, index);
    InsertAtBag(occ, index, v);
    ValidTop5LayOut(a);
    var p := Min(index, |occ|);
    assert p < |a| && a[p] == v;
    InIdBag(a, p);
    if |vs| > SlotCount {
      assert vs == a + vs[|vs| - 1..];
      IdBagAppend(a, vs[|vs| - 1..]);
    }
  }

  /** moveValueToTop5 as a function of the board: an id with a slot is
      reordered; an id without one is admitted when some tier holds it (pool
      values are not eligible); otherwise nothing changes. */
  function MoveToTop5(b: Board, id: string, index: nat): (r: seq<Slot>)
    requires |b.top5| == SlotCount && index < SlotCount
    ensures |r| == SlotCount
  {
    if SlotIndexOf(b.top5, id) >= 0 then RankedMove(b.top5, id, index)
    else
      var loc := TierSearch(b.tiers, id, 0);
      if loc.InTier? then LayOut(Admitted(b.top5, b.tiers[loc.tier].values[loc.pos], index))
      else b.top5
  }

  /** Moving into the Top-5 keeps every invariant; an id that is neither
      ranked nor in a tier (a pool value, say) changes nothing. */
  lemma MoveToTop5PreservesValid(b: Board, id: string, index: nat)
    requires Valid(b) && index < SlotCount
    ensures Valid(b.(top5 := MoveToTop5(b, id, index)))
    ensures id !in RankedBag(b.top5) && id !in TierBag(b.tiers) ==> MoveToTop5(b, id, index) == b.top5
  {
    SlotIndexOfBag(b.top5, id);
    TierSearchBag(b.tiers, id);
    if SlotIndexOf(b.top5, id) >= 0 {
      RankedMoveKeepsRanked(b.top5, id, index);
      assert ResidentBag(b.(top5 := MoveToTop5(b, id, index))) == ResidentBag(b);
    } else if TierSearch(b.tiers, id, 0).InTier? {
      AdmitKeepsValid(b, id, index);
    }
  }

  lemma AdmitKeepsValid(b: Board, id: string, index: nat)
    requires Valid(b) && index < SlotCount
    requires SlotIndexOf(b.top5, id) == -1 && TierSearch(b.tiers, id, 0).InTier?
    ensures Valid(b.(top5 := MoveToTop5(b, id, index)))
  {
    var loc := TierSearch(b.tiers, id, 0);
    var v := b.tiers[loc.tier].values[loc.pos];
    var r := LayOut(Admitted(b.top5, v, index));
    assert MoveToTop5(b, id, index) == r;
    SlotIndexOfBag(b.top5, id);
    InTierBag(b.tiers, loc.tier, loc.pos);
    AdmittedRanks(b.top5, v, index);
    var nb := RankedBag(r);
    forall i ensures nb[i] <= 1 && (i in nb ==> i in TierBag(b.tiers)) {
      assert nb[i] <= RankedBag(b.top5)[i] + multiset{v.id}[i];
    }
    assert ResidentBag(b.(top5 := r)) == ResidentBag(b);
  }

  /** removeFromTop5: emptying one slot keeps every invariant and un-ranks
      exactly the value it held. */
  lemma RemoveFromTop5PreservesValid(b: Board, index: nat)
    requires Valid(b) && index < SlotCount
    ensures Valid(b.(top5 := b.top5[index := None]))
    ensures b.top5[index].Some? ==>
      RankedBag(b.top5[index := None]) + multiset{b.top5[index].value.id} == RankedBag(b.top5)
  {
    ClearSlotKeepsRanked(b, index);
    RankedBagClear(b.top5, index);
    assert ResidentBag(b.(top5 := b.top5[index := None])) == ResidentBag(b);
  }

  /** addCustomValue: prepending a value whose id is new keeps every invariant. */
  lemma PrependPreservesValid(b: Board, v: Value)
    ensures Valid(b) && v.id !in ResidentBag(b) ==> Valid(b.(pool := [v] + b.pool))
    ensures ResidentBag(b.(pool := [v] + b.pool)) == ResidentBag(b) + multiset{v.id}
  {
    var b' := b.(pool := [v] + b.pool);
    IdBagAppend([v], b.pool);
    assert Ids([v]) == [v.id];
    assert ResidentBag(b') == TierBag(b.tiers) + (multiset{v.id} + IdBag(b.pool));
    if Valid(b) && v.id !in ResidentBag(b) {
      forall id ensures ResidentBag(b')[id] <= 1 {
        assert ResidentBag(b')[id] == ResidentBag(b)[id] + multiset{v.id}[id];
      }
    }
  }
}
