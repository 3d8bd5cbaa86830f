/** Saving the application state as a snapshot and loading it back: the
    field-by-field overlay of a parsed snapshot onto the current state and
    the recovery pass that puts lost Top-5 values back into tier S. */
module Persistence {
  import opened Wrappers
  import opened Placement
  import opened Reflections

  /** A tier as it is saved: its label and its values (colour and
      description are not saved). */
  datatype SavedTier = SavedTier(name: string, values: seq<Value>)

  /** A parsed snapshot. A field is `None` when it is missing or falsy,
      except `currentPhase`, whose 0 is carried as `Some(0)` and ignored by
      `PickPhase`; an entry of `tiers` is `None` when that array element is
      falsy. */
  datatype Snapshot = Snapshot(
    tiers: Option<seq<Option<SavedTier>>>,
    pool: Option<seq<Value>>,
    currentPhase: Option<int>,
    top5: Option<seq<Slot>>,
    personalDefinitions: Option<map<string, string>>,
    committedActions: Option<map<string, Commitment>>,
    goalsVision: Option<map<string, Vision>>)

  /** The part of the application state that is saved and loaded. */
  datatype Store = Store(
    tiers: seq<Tier>,
    pool: seq<Value>,
    currentPhase: int,
    top5: seq<Slot>,
    personalDefinitions: map<string, string>,
    committedActions: map<string, Commitment>,
    goalsVision: map<string, Vision>)

  /** The five tiers, empty, as the application starts. */
  const DefaultTiers: seq<Tier> := [Tier("S", []), Tier("A", []), Tier("B", []), Tier("C", []), Tier("D", [])]

  /** Five empty slots. */
  const EmptyTop5: seq<Slot> := [None, None, None, None, None]

  /** The state before anything is loaded: every value of the catalog in the
      pool, phase 1, nothing ranked, no reflections. */
  function Initial(catalog: seq<Value>): Store
  {
    Store(DefaultTiers, catalog, 1, EmptyTop5, map[], map[], map[])
  }

  /** The initial state meets every invariant when the catalog ids are distinct. */
  lemma InitialValid(catalog: seq<Value>)
    requires forall id :: IdBag(catalog)[id] <= 1
    ensures var s := Initial(catalog); Valid(Board(s.tiers, s.pool, s.top5))
  {
    var b := Board(DefaultTiers, catalog, EmptyTop5);
    assert TiersFixed(DefaultTiers) by {
      forall t | 0 <= t < |DefaultTiers| ensures DefaultTiers[t].name == Labels[t] {
        assert t == 0 || t == 1 || t == 2 || t == 3 || t == 4;
      }
    }
    EmptyTiersBag(DefaultTiers);
    assert RankedBag(EmptyTop5) == multiset{} by {
      assert EmptyTop5 == Empties(SlotCount);
      ValidTop5Empties(SlotCount);
    }
    assert ResidentBag(b) == IdBag(catalog);
  }

  /** Tiers holding no values hold no ids. */
  lemma {:induction false} EmptyTiersBag(ts: seq<Tier>)
    requires forall t :: 0 <= t < |ts| ==> ts[t].values == []
    ensures TierBag(ts) == multiset{}
  {
    if ts != [] {
      EmptyTiersBag(ts[1..]);
    }
  }

  // ---------------------------------------------------------------------
  // Saving

  function SaveTiers(ts: seq<Tier>): seq<Option<SavedTier>>
  {
    seq(|ts|, i requires 0 <= i < |ts| => Some(SavedTier(ts[i].name, ts[i].values)))
  }

  /** The object the save effect serialises. */
  function Save(s: Store): Snapshot
  {
    Snapshot(Some(SaveTiers(s.tiers)), Some(s.pool), Some(s.currentPhase), Some(s.top5),
      Some(s.personalDefinitions), Some(s.committedActions), Some(s.goalsVision))
  }

  // ---------------------------------------------------------------------
  // Loading

  /** Loading the tiers: a tier takes the saved values of the entry at its
      position when there is one; saved labels are ignored, so the tiers keep
      their own labels and their number. */
  function OverlayTiers(ts: seq<Tier>, saved: seq<Option<SavedTier>>): (r: seq<Tier>)
    ensures |r| == |ts|
    ensures forall i :: 0 <= i < |ts| ==> r[i].name == ts[i].name
  {
    if ts == [] then []
    else
      var head := if saved != [] && saved[0].Some? then ts[0].(values := saved[0].value.values) else ts[0];
      [head] + OverlayTiers(ts[1..], if saved == [] then [] else saved[1..])
  }

  /** Tier `i` after the overlay: the saved values at position `i` when that
      entry is present, otherwise the tier as it was. */
  lemma {:induction false} OverlayTiersAt(ts: seq<Tier>, saved: seq<Option<SavedTier>>, i: nat)
    requires i < |ts|
    ensures OverlayTiers(ts, saved)[i] ==
      if i < |saved| && saved[i].Some? then ts[i].(values := saved[i].value.values) else ts[i]
  {
    if i > 0 {
      OverlayTiersAt(ts[1..], if saved == [] then [] else saved[1..], i - 1);
    }
  }

  /** Every present field of the snapshot replaces the current one; a phase
      is taken only when it is not 0. */
  function Overlay(s: Store, d: Snapshot): (r: Store)
    ensures |r.tiers| == |s.tiers| && forall t :: 0 <= t < |s.tiers| ==> r.tiers[t].name == s.tiers[t].name
  {
    Store(
      if d.tiers.Some? then OverlayTiers(s.tiers, d.tiers.value) else s.tiers,
      Pick(d.pool, s.pool),
      PickPhase(d.currentPhase, s.currentPhase),
      Pick(d.top5, s.top5),
      Pick(d.personalDefinitions, s.personalDefinitions),
      Pick(d.committedActions, s.committedActions),
      Pick(d.goalsVision, s.goalsVision))
  }

  /** A saved field replaces the current one when it is present. */
  function Pick<T>(saved: Option<T>, current: T): T
  {
    if saved.Some? then saved.value else current
  }

  /** The phase is taken from the snapshot only when present and non-zero
      (the source tests it for truthiness). */
  function PickPhase(saved: Option<int>, current: int): int
  {
    if saved.Some? && saved.value != 0 then saved.value else current
  }

  /** One step of the recovery pass: a value found neither in a tier nor in
      the pool is appended to the first tier (S). */
  function RecoverStep(ts: seq<Tier>, pool: seq<Value>, v: Value): (r: seq<Tier>)
    requires |ts| > 0
    ensures |r| == |ts| && forall t :: 0 <= t < |ts| ==> r[t].name == ts[t].name
    ensures TierBag(r) == if v.id in TierBag(ts) || v.id in IdBag(pool) then TierBag(ts) else TierBag(ts) + multiset{v.id}
  {
    if v.id in TierBag(ts) || v.id in IdBag(pool) then ts else AppendToTier(ts, 0, v)
  }

  /** The recovery pass over the ranked values `vs`, in order. */
  function Recover(ts: seq<Tier>, pool: seq<Value>, vs: seq<Value>): (r: seq<Tier>)
    requires |ts| > 0
    decreases |vs|
    ensures |r| == |ts| && forall t :: 0 <= t < |ts| ==> r[t].name == ts[t].name
  {
    if vs == [] then ts
    else RecoverStep(Recover(ts, pool, vs[..|vs| - 1]), pool, vs[|vs| - 1])
  }

  /** Recovering one more ranked value is one more recovery step. */
  lemma RecoverSnoc(ts: seq<Tier>, pool: seq<Value>, vs: seq<Value>, i: nat)
    requires |ts| > 0 && i < |vs|
    ensures var prev := Recover(ts, pool, vs[..i]);
      Recover(ts, pool, vs[..i + 1]) ==
        if vs[i].id in TierBag(prev) || vs[i].id in IdBag(pool) then prev
        else prev[0 := prev[0].(values := prev[0].values + [vs[i]])]
  {
    assert vs[..i + 1][..i] == vs[..i];
  }

  /** Loading a snapshot, if one was found and parsed, then recovering. */
  function Load(s: Store, saved: Option<Snapshot>): (r: Store)
    requires |s.tiers| > 0
    ensures |r.tiers| == |s.tiers| && forall t :: 0 <= t < |s.tiers| ==> r.tiers[t].name == s.tiers[t].name
    ensures saved.None? ==> r == s
  {
    match saved
    case None => s
    case Some(d) =>
      var o := Overlay(s, d);
      o.(tiers := Recover(o.tiers, o.pool, ValidTop5(o.top5)))
  }

  /** Every ranked value lives in a tier or in the pool. */
  ghost predicate RanksResident(s: Store)
  {
    forall v :: v in ValidTop5(s.top5) ==> v.id in TierBag(s.tiers) || v.id in IdBag(s.pool)
  }

  // ---------------------------------------------------------------------
  // Properties of the recovery pass

  /** After recovery every value of `vs` is in a tier or the pool, and no
      tier value was lost. */
  lemma {:induction false} RecoverResident(ts: seq<Tier>, pool: seq<Value>, vs: seq<Value>)
    requires |ts| > 0
    ensures TierBag(ts) <= TierBag(Recover(ts, pool, vs))
    ensures forall v :: v in vs ==> v.id in TierBag(Recover(ts, pool, vs)) || v.id in IdBag(pool)
  {
    if vs != [] {
      var init := vs[..|vs| - 1];
      var x := vs[|vs| - 1];
      var prev := Recover(ts, pool, init);
      RecoverResident(ts, pool, init);
      var r := RecoverStep(prev, pool, x);
      assert Recover(ts, pool, vs) == r;
      assert TierBag(prev) <= TierBag(r);
      forall v | v in vs ensures v.id in TierBag(r) || v.id in IdBag(pool) {
        if v != x {
          assert v in init;
        }
      }
    }
  }

  /** Recovery changes only tier S, and only by appending ranked values. */
  lemma {:induction false} RecoverAppends(ts: seq<Tier>, pool: seq<Value>, vs: seq<Value>)
    requires |ts| > 0
    ensures var r := Recover(ts, pool, vs);
      && (forall t :: 1 <= t < |ts| ==> r[t] == ts[t])
      && ts[0].values <= r[0].values
      && (forall k :: |ts[0].values| <= k < |r[0].values| ==> r[0].values[k] in vs)
  {
    if vs != [] {
      var init := vs[..|vs| - 1];
      RecoverAppends(ts, pool, init);
      assert forall v :: v in init ==> v in vs;
    }
  }

  /** A value that is already in a tier or in the pool is never added, so
      its number of tier copies is unchanged: in particular a ranked value
      sitting in the pool stays out of the tiers. */
  lemma {:induction false} RecoverKeepsResident(ts: seq<Tier>, pool: seq<Value>, vs: seq<Value>, id: string)
    requires |ts| > 0 && (id in TierBag(ts) || id in IdBag(pool))
    ensures TierBag(Recover(ts, pool, vs))[id] == TierBag(ts)[id]
  {
    if vs != [] {
      var init := vs[..|vs| - 1];
      RecoverKeepsResident(ts, pool, init, id);
    }
  }

  /** Recovery adds one tier copy of `id` exactly when some value of `vs`
      has that id and it was resident nowhere, and no copy otherwise,
      whatever else the tiers and pool hold. */
  lemma {:induction false} RecoverCount(ts: seq<Tier>, pool: seq<Value>, vs: seq<Value>, id: string)
    requires |ts| > 0
    ensures TierBag(Recover(ts, pool, vs))[id] ==
      TierBag(ts)[id] + if id in Ids(vs) && id !in TierBag(ts) && id !in IdBag(pool) then 1 else 0
  {
    if id in TierBag(ts) || id in IdBag(pool) {
      RecoverKeepsResident(ts, pool, vs, id);
    } else if vs != [] {
      var init := vs[..|vs| - 1];
      var x := vs[|vs| - 1];
      assert Ids(vs) == Ids(init) + [x.id];
      RecoverCount(ts, pool, init, id);
    }
  }

  /** Recovery never puts a value in two places. */
  lemma RecoverExclusive(ts: seq<Tier>, pool: seq<Value>, vs: seq<Value>)
    requires |ts| > 0 && forall id :: (TierBag(ts) + IdBag(pool))[id] <= 1
    ensures forall id :: (TierBag(Recover(ts, pool, vs)) + IdBag(pool))[id] <= 1
  {
    var r := Recover(ts, pool, vs);
    forall id ensures (TierBag(r) + IdBag(pool))[id] <= 1 {
      RecoverCount(ts, pool, vs, id);
      assert (TierBag(ts) + IdBag(pool))[id] == TierBag(ts)[id] + IdBag(pool)[id];
      assert (TierBag(r) + IdBag(pool))[id] == TierBag(r)[id] + IdBag(pool)[id];
    }
  }

  /** When every value of `vs` is already resident, recovery does nothing. */
  lemma {:induction false} RecoverNoop(ts: seq<Tier>, pool: seq<Value>, vs: seq<Value>)
    requires |ts| > 0
    requires forall v :: v in vs ==> v.id in TierBag(ts) || v.id in IdBag(pool)
    ensures Recover(ts, pool, vs) == ts
  {
    if vs != [] {
      var init := vs[..|vs| - 1];
      assert forall v :: v in init ==> v in vs;
      RecoverNoop(ts, pool, init);
    }
  }

  /** Running recovery a second time has no effect. */
  lemma RecoverIdempotent(ts: seq<Tier>, pool: seq<Value>, vs: seq<Value>)
    requires |ts| > 0
    ensures Recover(Recover(ts, pool, vs), pool, vs) == Recover(ts, pool, vs)
  {
    RecoverResident(ts, pool, vs);
    RecoverNoop(Recover(ts, pool, vs), pool, vs);
  }

  // ---------------------------------------------------------------------
  // Properties of loading

  /** After a load every ranked value is in a tier or the pool. */
  lemma LoadRanksResident(s: Store, d: Snapshot)
    requires |s.tiers| > 0
    ensures RanksResident(Load(s, Some(d)))
  {
    var o := Overlay(s, d);
    RecoverResident(o.tiers, o.pool, ValidTop5(o.top5));
  }

  /** Loading keeps exclusive ownership when the loaded tiers and pool
      have it. */
  lemma LoadExclusive(s: Store, d: Snapshot)
    requires |s.tiers| > 0
    requires var o := Overlay(s, d); Exclusive(Board(o.tiers, o.pool, o.top5))
    ensures var r := Load(s, Some(d)); Exclusive(Board(r.tiers, r.pool, r.top5))
  {
    var o := Overlay(s, d);
    assert forall id :: (TierBag(o.tiers) + IdBag(o.pool))[id] == ResidentBag(Board(o.tiers, o.pool, o.top5))[id];
    RecoverExclusive(o.tiers, o.pool, ValidTop5(o.top5));
    var r := Load(s, Some(d));
    assert forall id :: (TierBag(r.tiers) + IdBag(r.pool))[id] == ResidentBag(Board(r.tiers, r.pool, r.top5))[id];
  }

  /** Saving and loading gives the saved state back when the state being
      loaded into has the same tier labels, the phase is not 0 and every
      ranked value is resident. */
  lemma SaveLoadRoundTrip(base: Store, s: Store)
    requires |base.tiers| == |s.tiers| > 0
    requires forall t :: 0 <= t < |s.tiers| ==> base.tiers[t].name == s.tiers[t].name
    requires s.currentPhase != 0 && RanksResident(s)
    ensures Load(base, Some(Save(s))) == s
  {
    var o := Overlay(base, Save(s));
    forall i | 0 <= i < |s.tiers| ensures o.tiers[i] == s.tiers[i] {
      OverlayTiersAt(base.tiers, SaveTiers(s.tiers), i);
    }
    assert o.tiers == s.tiers;
    assert o == s;
    RecoverNoop(s.tiers, s.pool, ValidTop5(s.top5));
  }

  /** In particular a saved state that meets every invariant loads back
      unchanged into the initial state. */
  lemma ValidRoundTrip(catalog: seq<Value>, s: Store)
    requires Valid(Board(s.tiers, s.pool, s.top5)) && s.currentPhase != 0
    ensures Load(Initial(catalog), Some(Save(s))) == s
  {
    forall v | v in ValidTop5(s.top5) ensures v.id in TierBag(s.tiers) {
      InIdBag(ValidTop5(s.top5), IndexOfFirst(ValidTop5(s.top5), v));
    }
    SaveLoadRoundTrip(Initial(catalog), s);
  }

  /** The first position of the value `v` (not of its id, as
      `Placement.IndexOf` finds), to name a witness in ValidRoundTrip. */
  function IndexOfFirst(s: seq<Value>, v: Value): (k: nat)
    requires v in s
    ensures k < |s| && s[k] == v
  {
    if s[0] == v then 0 else 1 + IndexOfFirst(s[1..], v)
  }

  /** Whatever was loaded, saving it and loading that again changes nothing. */
  lemma LoadFixedPoint(base: Store, d: Snapshot)
    requires |base.tiers| > 0 && base.currentPhase != 0
    ensures var s := Load(base, Some(d)); Load(base, Some(Save(s))) == s
  {
    var s := Load(base, Some(d));
    LoadRanksResident(base, d);
    SaveLoadRoundTrip(base, s);
  }

  /** Recovery accepts pool residency: a ranked value that the snapshot
      keeps in the pool stays there, so after a load a ranked value can sit
      outside every tier. */
  lemma LoadKeepsRankedInPool(s: Store, d: Snapshot, id: string)
    requires |s.tiers| > 0
    requires var o := Overlay(s, d); id in RankedBag(o.top5) && id in IdBag(o.pool) && id !in TierBag(o.tiers)
    ensures var r := Load(s, Some(d)); id in RankedBag(r.top5) && id in IdBag(r.pool) && id !in TierBag(r.tiers)
  {
    var o := Overlay(s, d);
    RecoverKeepsResident(o.tiers, o.pool, ValidTop5(o.top5), id);
  }
}
