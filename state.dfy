/** The application state object: the three containers, the current phase,
    the reflection records and the UI selection, with the actions that
    change them in place. Every action is proved against the functions of
    Placement, Views, Reflections, Text and Persistence. */
module State {
  import opened Wrappers
  import opened Placement
  import opened Views
  import opened Reflections
  import opened Text
  import Persistence

  class AppState {
    var tiers: seq<Tier>
    var pool: seq<Value>
    var currentPhase: int
    var top5: seq<Slot>
    var personalDefinitions: map<string, string>
    var committedActions: map<string, Commitment>
    var goalsVision: map<string, Vision>
    var selectedCardId: Option<string>
    var customValueName: string
    var customValueDesc: string

    /** The three containers moves work on. */
    ghost function Containers(): Board
      reads this
    {
      Board(tiers, pool, top5)
    }

    /** The part of the state that is saved and loaded. */
    ghost function Persisted(): Persistence.Store
      reads this
    {
      Persistence.Store(tiers, pool, currentPhase, top5, personalDefinitions, committedActions, goalsVision)
    }

    /** The placement invariants hold for the containers. */
    ghost predicate Valid()
      reads this
    {
      Placement.Valid(Containers())
    }

    /** Start from the defaults (every catalog value in the pool) and load
        the snapshot found in storage, if any. */
    constructor (catalog: seq<Value>, saved: Option<Persistence.Snapshot>)
      ensures Persisted() == Persistence.Load(Persistence.Initial(catalog), saved)
      ensures selectedCardId == None && customValueName == "" && customValueDesc == ""
    {
      var init := Persistence.Initial(catalog);
      tiers := init.tiers;
      pool := init.pool;
      currentPhase := init.currentPhase;
      top5 := init.top5;
      personalDefinitions := init.personalDefinitions;
      committedActions := init.committedActions;
      goalsVision := init.goalsVision;
      selectedCardId := None;
      customValueName := "";
      customValueDesc := "";
      new;
      assert Persisted() == init;
      Load(saved);
    }

    /** goToPhase: move to phase `p` unless the gate refuses it. */
    method GoToPhase(p: int)
      modifies this`currentPhase
      ensures currentPhase == if PhaseAllowed(p, tiers, top5) then p else old(currentPhase)
    {
      if p == 2 && !CanProceedToPhase2(tiers) {
        return;
      }
      if p > 2 && |ValidTop5(top5)| == 0 {
        return;
      }
      currentPhase := p;
    }

    /** addCustomValue: prepend a value built from the two input fields to
        the pool and clear them; a blank name does nothing. The id is
        "custom-" followed by `stamp`, which stands for the current time in
        milliseconds. */
    method AddCustomValue(stamp: string) returns (added: Option<Value>)
      modifies this`pool, this`customValueName, this`customValueDesc
      ensures added == NewCustomValue(CustomId(stamp), old(customValueName), old(customValueDesc))
      ensures added.None? ==> pool == old(pool) && customValueName == old(customValueName) && customValueDesc == old(customValueDesc)
      ensures added.Some? ==> pool == [added.value] + old(pool) && customValueName == "" && customValueDesc == ""
      ensures old(Valid()) && CustomId(stamp) !in ResidentBag(old(Containers())) ==> Valid()
    {
      added := NewCustomValue(CustomId(stamp), customValueName, customValueDesc);
      if added.Some? {
        PrependAndClear(added.value);
      }
    }

    /** The effect of addCustomValue once the value is built: prepend it to
        the pool and clear both input fields. */
    method PrependAndClear(v: Value)
      modifies this`pool, this`customValueName, this`customValueDesc
      ensures pool == [v] + old(pool) && customValueName == "" && customValueDesc == ""
      ensures old(Valid()) && v.id !in ResidentBag(old(Containers())) ==> Valid()
    {
      ghost var b := Containers();
      pool := [v] + pool;
      customValueName := "";
      customValueDesc := "";
      assert Containers() == b.(pool := [v] + b.pool);
      PrependPreservesValid(b, v);
    }

    /** selectValue: select a card, or deselect it when it is the selected one. */
    method SelectValue(id: string)
      modifies this`selectedCardId
      ensures selectedCardId == if old(selectedCardId) == Some(id) then None else Some(id)
    {
      selectedCardId := if selectedCardId == Some(id) then None else Some(id);
    }

    /** findAndRemoveValue: take `id` out of the first tier holding it, or
        else out of the pool, and return it. */
    method FindAndRemoveValue(id: string) returns (v: Option<Value>)
      modifies this`tiers, this`pool
      ensures var loc := Locate(old(Containers()), id);
        && Containers() == Take(old(Containers()), loc)
        && v == if loc.Nowhere? then None else Some(ValueAt(old(Containers()), loc))
    {
      var i := 0;
      while i < |tiers|
        invariant 0 <= i <= |tiers|
        invariant tiers == old(tiers) && pool == old(pool)
        invariant forall t :: 0 <= t < i ==> IndexOf(tiers[t].values, id) == -1
      {
        var k := IndexOf(tiers[i].values, id);
        if k != -1 {
          assert TierSearch(tiers, id, 0) == InTier(i, k);
          v := Some(tiers[i].values[k]);
          tiers := tiers[i := tiers[i].(values := RemoveAt(tiers[i].values, k))];
          return;
        }
        i := i + 1;
      }
      assert TierSearch(tiers, id, 0).Nowhere?;
      var k := IndexOf(pool, id);
      if k != -1 {
        v := Some(pool[k]);
        pool := RemoveAt(pool, k);
        return;
      }
      v := None;
    }

    /** moveValue: in phase 1, take the value out of where it is and append
        it to the pool (emptying its Top-5 slot) or to the tier labelled
        `target`; then clear the selection. */
    method MoveValue(id: string, target: Option<string>)
      modifies this`tiers, this`pool, this`top5, this`selectedCardId
      ensures Containers() == if old(currentPhase) == 1 then Move(old(Containers()), id, target) else old(Containers())
      ensures selectedCardId ==
        if old(currentPhase) == 1 && !Locate(old(Containers()), id).Nowhere? then None else old(selectedCardId)
      ensures old(Valid()) && (target.None? || target.value in Labels) ==> Valid()
    {
      if currentPhase != 1 {
        return;
      }
      ghost var b := Containers();
      var value := FindAndRemoveValue(id);
      if value.Some? {
        PutBack(id, value.value, target);
      }
      if Placement.Valid(b) && (target.None? || target.value in Labels) {
        MovePreservesValid(b, id, target);
      }
    }

    /** The second half of moveValue: place the value taken out for `id` at
        `target` and clear the selection. */
    method PutBack(id: string, x: Value, target: Option<string>)
      modifies this`tiers, this`pool, this`top5, this`selectedCardId
      ensures Containers() == Put(old(Containers()), id, x, target)
      ensures selectedCardId == None
    {
      match target {
        case None =>
          pool := pool + [x];
          var topIndex := SlotIndexOf(top5, id);
          if topIndex != -1 {
            top5 := top5[topIndex := None];
          }
        case Some(name) =>
          var u := LabelIndex(tiers, name);
          if u != -1 {
            tiers := tiers[u := tiers[u].(values := tiers[u].values + [x])];
          }
      }
      selectedCardId := None;
    }

    /** removeFromTop5: empty one slot. */
    method RemoveFromTop5(index: nat)
      requires index < |top5|
      modifies this`top5
      ensures top5 == old(top5)[index := None]
      ensures old(Valid()) ==> Valid()
    {
      if Valid() {
        RemoveFromTop5PreservesValid(Containers(), index);
      }
      top5 := top5[index := None];
    }

    /** The tier loop of moveValueToTop5: the first tier value with `id`. */
    method FindInTiers(id: string) returns (value: Option<Value>)
      ensures var loc := TierSearch(tiers, id, 0);
        value == if loc.InTier? then Some(tiers[loc.tier].values[loc.pos]) else None
    {
      value := None;
      var t := 0;
      while t < |tiers|
        invariant 0 <= t <= |tiers|
        invariant forall u :: 0 <= u < t ==> IndexOf(tiers[u].values, id) == -1
      {
        var k := IndexOf(tiers[t].values, id);
        if k != -1 {
          assert TierSearch(tiers, id, 0) == InTier(t, k);
          value := Some(tiers[t].values[k]);
          return;
        }
        t := t + 1;
      }
    }

    /** moveValueToTop5: put `id` at slot `index`. A ranked value is
        reordered; a tier value is admitted and a default personal definition
        is created for every ranked value lacking one; anything else changes
        nothing. */
    method MoveValueToTop5(id: string, index: nat)
      requires |top5| == SlotCount && index < SlotCount
      modifies this`top5, this`personalDefinitions, this`selectedCardId
      ensures top5 == MoveToTop5(old(Containers()), id, index)
      ensures var admitted := SlotIndexOf(old(top5), id) == -1 && TierSearch(tiers, id, 0).InTier?;
        personalDefinitions == if admitted then Seeded(old(personalDefinitions), Ids(ValidTop5(top5)), DefaultDefinition)
                               else old(personalDefinitions)
      ensures selectedCardId ==
        if SlotIndexOf(old(top5), id) != -1 || TierSearch(tiers, id, 0).InTier? then None else old(selectedCardId)
      ensures old(Valid()) ==> Valid()
    {
      ghost var b := Containers();
      PlaceInTop5(id, index);
      if Placement.Valid(b) {
        MoveToTop5PreservesValid(b, id, index);
      }
    }

    /** The body of moveValueToTop5, without the invariant. */
    method PlaceInTop5(id: string, index: nat)
      requires |top5| == SlotCount && index < SlotCount
      modifies this`top5, this`personalDefinitions, this`selectedCardId
      ensures top5 == MoveToTop5(old(Containers()), id, index)
      ensures var admitted := SlotIndexOf(old(top5), id) == -1 && TierSearch(tiers, id, 0).InTier?;
        personalDefinitions == if admitted then Seeded(old(personalDefinitions), Ids(ValidTop5(top5)), DefaultDefinition)
                               else old(personalDefinitions)
      ensures selectedCardId ==
        if SlotIndexOf(old(top5), id) != -1 || TierSearch(tiers, id, 0).InTier? then None else old(selectedCardId)
    {
      ghost var b := Containers();
      ghost var r := MoveToTop5(b, id, index);
      ghost var pd := personalDefinitions;
      ghost var admitted := SlotIndexOf(top5, id) == -1 && TierSearch(tiers, id, 0).InTier?;
      var existing := SlotIndexOf(top5, id);
      if existing != -1 {
        ReorderTop5(id, existing, index);
        assert top5 == r && !admitted && personalDefinitions == pd;
      } else {
        var value := FindInTiers(id);
        if value.None? {
          assert top5 == r && !admitted && personalDefinitions == pd;
        } else {
          AdmitToTop5(value.value, index);
          assert top5 == r && admitted;
          assert personalDefinitions == Seeded(pd, Ids(ValidTop5(top5)), DefaultDefinition);
        }
      }
    }

    /** moveValueToTop5 for a value holding slot `existing`. */
    method ReorderTop5(id: string, existing: nat, index: nat)
      requires |top5| == SlotCount && index < SlotCount && existing == SlotIndexOf(top5, id)
      modifies this`top5, this`selectedCardId
      ensures top5 == RankedMove(old(top5), id, index) && selectedCardId == None
    {
      var x := top5[existing].value;
      var newTop5 := top5[existing := None];
      if top5[index].None? {
        newTop5 := newTop5[index := Some(x)];
      } else {
        var others := InsertAt(Without(ValidTop5(top5), id), index, x);
        newTop5 := LayOutInto(newTop5, others);
      }
      top5 := newTop5;
      selectedCardId := None;
    }

    /** moveValueToTop5 for a tier value `v` without a slot. */
    method AdmitToTop5(v: Value, index: nat)
      requires |top5| == SlotCount && index < SlotCount
      modifies this`top5, this`personalDefinitions, this`selectedCardId
      ensures top5 == LayOut(Admitted(old(top5), v, index))
      ensures personalDefinitions == Seeded(old(personalDefinitions), Ids(ValidTop5(top5)), DefaultDefinition)
      ensures selectedCardId == None
    {
      var valuesOnly := InsertAt(ValidTop5(top5), index, v);
      if |valuesOnly| > SlotCount {
        valuesOnly := valuesOnly[..|valuesOnly| - 1];
      }
      assert valuesOnly == Admitted(top5, v, index);
      var newTop5 := PlaceAndDefine(valuesOnly);
      ValidTop5LayOut(valuesOnly);
      top5 := newTop5;
      selectedCardId := None;
    }

    /** The forEach of moveValueToTop5: entry `i` of `vs` goes to slot `i`,
        and an entry without a personal definition gets the default one. */
    method PlaceAndDefine(vs: seq<Value>) returns (slots: seq<Slot>)
      requires |vs| <= SlotCount
      modifies this`personalDefinitions
      ensures slots == LayOut(vs)
      ensures personalDefinitions == Seeded(old(personalDefinitions), Ids(vs), DefaultDefinition)
    {
      slots := Persistence.EmptyTop5;
      ghost var ids := Ids(vs);
      ghost var pd0 := personalDefinitions;
      var i := 0;
      while i < |vs|
        invariant 0 <= i <= |vs|
        invariant |slots| == SlotCount
        invariant forall j :: 0 <= j < SlotCount ==> slots[j] == if j < i then Some(vs[j]) else None
        invariant personalDefinitions == Seeded(pd0, ids[..i], DefaultDefinition)
      {
        var w := vs[i];
        slots := slots[i := Some(w)];
        assert ids[..i + 1] == ids[..i] + [w.id];
        SeededSnoc(pd0, ids[..i], w.id, DefaultDefinition);
        ghost var p := personalDefinitions;
        if w.id !in personalDefinitions || personalDefinitions[w.id] == "" {
          personalDefinitions := personalDefinitions[w.id := DefaultDefinition];
        }
        assert personalDefinitions == if w.id in p then p else p[w.id := DefaultDefinition];
        i := i + 1;
      }
      assert ids[..i] == ids;
      assert slots == LayOut(vs);
    }

    /** The `for i < 5` loop of moveValueToTop5: slot `i` takes the `i`-th
        entry of `vs`, or becomes empty when there is none. */
    static method LayOutInto(slots: seq<Slot>, vs: seq<Value>) returns (r: seq<Slot>)
      requires |slots| == SlotCount
      ensures r == LayOut(vs)
    {
      r := slots;
      var i := 0;
      while i < SlotCount
        invariant 0 <= i <= SlotCount && |r| == SlotCount
        invariant forall j :: 0 <= j < i ==> r[j] == LayOut(vs)[j]
      {
        r := r[i := if i < |vs| then Some(vs[i]) else None];
        i := i + 1;
      }
    }

    /** The seeding effect: give every ranked value a default commitment and
        a default vision when it has none. */
    method SeedReflections()
      modifies this`committedActions, this`goalsVision
      ensures committedActions == Seeded(old(committedActions), Ids(ValidTop5(top5)), DefaultCommitment)
      ensures goalsVision == Seeded(old(goalsVision), Ids(ValidTop5(top5)), DefaultVision)
    {
      var vs := ValidTop5(top5);
      ghost var ids := Ids(vs);
      ghost var ca0, gv0 := committedActions, goalsVision;
      var i := 0;
      while i < |vs|
        invariant 0 <= i <= |vs|
        invariant committedActions == Seeded(ca0, ids[..i], DefaultCommitment)
        invariant goalsVision == Seeded(gv0, ids[..i], DefaultVision)
      {
        var v := vs[i];
        assert ids[..i + 1] == ids[..i] + [v.id];
        SeededSnoc(ca0, ids[..i], v.id, DefaultCommitment);
        SeededSnoc(gv0, ids[..i], v.id, DefaultVision);
        if v.id !in committedActions {
          committedActions := committedActions[v.id := DefaultCommitment];
        }
        if v.id !in goalsVision {
          goalsVision := goalsVision[v.id := DefaultVision];
        }
        i := i + 1;
      }
      assert ids[..i] == ids;
    }

    /** load: overlay the parsed snapshot, if there is one, then put every
        ranked value found neither in a tier nor in the pool back into tier S. */
    method Load(saved: Option<Persistence.Snapshot>)
      requires |tiers| > 0
      modifies this`tiers, this`pool, this`currentPhase, this`top5
      modifies this`personalDefinitions, this`committedActions, this`goalsVision
      ensures Persisted() == Persistence.Load(old(Persisted()), saved)
    {
      if saved.None? {
        return;
      }
      ghost var s0 := Persisted();
      ApplySnapshot(saved.value);
      ghost var o := Persistence.Overlay(s0, saved.value);
      assert Persisted() == o;
      RecoverRanked();
    }

    /** The field-by-field part of load: every field present in the
        snapshot replaces the current one. */
    method ApplySnapshot(d: Persistence.Snapshot)
      modifies this`tiers, this`pool, this`currentPhase, this`top5
      modifies this`personalDefinitions, this`committedActions, this`goalsVision
      ensures tiers == if d.tiers.Some? then Persistence.OverlayTiers(old(tiers), d.tiers.value) else old(tiers)
      ensures pool == Persistence.Pick(d.pool, old(pool))
      ensures currentPhase == Persistence.PickPhase(d.currentPhase, old(currentPhase))
      ensures top5 == Persistence.Pick(d.top5, old(top5))
      ensures personalDefinitions == Persistence.Pick(d.personalDefinitions, old(personalDefinitions))
      ensures committedActions == Persistence.Pick(d.committedActions, old(committedActions))
      ensures goalsVision == Persistence.Pick(d.goalsVision, old(goalsVision))
    {
      if d.tiers.Some? {
        tiers := OverlaySavedTiers(tiers, d.tiers.value);
      }
      pool := Persistence.Pick(d.pool, pool);
      currentPhase := Persistence.PickPhase(d.currentPhase, currentPhase);
      top5 := Persistence.Pick(d.top5, top5);
      personalDefinitions := Persistence.Pick(d.personalDefinitions, personalDefinitions);
      committedActions := Persistence.Pick(d.committedActions, committedActions);
      goalsVision := Persistence.Pick(d.goalsVision, goalsVision);
    }

    /** The tiers forEach of load: a tier takes the values of the saved
        entry at its position, when that entry is present. */
    static method OverlaySavedTiers(ts: seq<Tier>, saved: seq<Option<Persistence.SavedTier>>) returns (r: seq<Tier>)
      ensures r == Persistence.OverlayTiers(ts, saved)
    {
      ghost var o := Persistence.OverlayTiers(ts, saved);
      r := ts;
      var i := 0;
      while i < |r|
        invariant |r| == |ts| == |o| && 0 <= i <= |r|
        invariant forall j :: 0 <= j < i ==> r[j] == o[j]
        invariant forall j :: i <= j < |r| ==> r[j] == ts[j]
      {
        Persistence.OverlayTiersAt(ts, saved, i);
        ghost var prev := r;
        if i < |saved| && saved[i].Some? {
          r := r[i := r[i].(values := saved[i].value.values)];
        }
        assert r[i] == o[i];
        assert forall j :: 0 <= j < |r| && j != i ==> r[j] == prev[j];
        i := i + 1;
      }
    }

    /** The recovery forEach of load: a ranked value that is in no tier and
        not in the pool is appended to tier S. */
    method RecoverRanked()
      requires |tiers| > 0
      modifies this`tiers
      ensures tiers == Persistence.Recover(old(tiers), pool, ValidTop5(top5))
    {
      tiers := RecoverEach(tiers, pool, ValidTop5(top5));
    }

    /** The loop of the recovery forEach, on the tier sequence itself. */
    static method RecoverEach(ts: seq<Tier>, pool: seq<Value>, vs: seq<Value>) returns (r: seq<Tier>)
      requires |ts| > 0
      ensures r == Persistence.Recover(ts, pool, vs)
    {
      r := ts;
      var i := 0;
      while i < |vs|
        invariant 0 <= i <= |vs|
        invariant r == Persistence.Recover(ts, pool, vs[..i])
      {
        var v := vs[i];
        Persistence.RecoverSnoc(ts, pool, vs, i);
        var inTiers := v.id in TierBag(r);
        var inPool := v.id in IdBag(pool);
        if !inTiers && !inPool {
          r := r[0 := r[0].(values := r[0].values + [v])];
        }
        i := i + 1;
      }
      assert vs[..i] == vs;
    }
  }
}
