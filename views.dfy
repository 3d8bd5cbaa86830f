/** The derived views the application recomputes on every change:
    validTop5 (Placement.ValidTop5), categorizedCandidates,
    canProceedToPhase2 and canFinishRanking, and the phase gate built on them. */
module Views {
  import opened Wrappers
  import opened Placement

  /** A tier value that can still be ranked, tagged with its tier's label
      (the tier colour is display data and is not kept). */
  datatype Candidate = Candidate(value: Value, tierLabel: string)

  /** `top5.some(topV => topV?.id === id)`. */
  predicate IsRanked(top5: seq<Slot>, id: string)
  {
    SlotIndexOf(top5, id) != -1
  }

  /** The values of `vs` that hold no Top-5 slot, in order, tagged with `name`. */
  function Unranked(vs: seq<Value>, top5: seq<Slot>, name: string): (r: seq<Candidate>)
    ensures forall c :: c in r ==> c.value in vs && c.tierLabel == name && !IsRanked(top5, c.value.id)
  {
    if vs == [] then []
    else
      assert forall v :: v in vs[1..] ==> v in vs;
      (if IsRanked(top5, vs[0].id) then [] else [Candidate(vs[0], name)]) + Unranked(vs[1..], top5, name)
  }

  /** The categorizedCandidates view: every tier value without a Top-5 slot,
      tier by tier and in insertion order within a tier. */
  function CategorizedCandidates(ts: seq<Tier>, top5: seq<Slot>): (r: seq<Candidate>)
    ensures forall c :: c in r ==>
      !IsRanked(top5, c.value.id) && exists t :: 0 <= t < |ts| && ts[t].name == c.tierLabel && c.value in ts[t].values
  {
    if ts == [] then []
    else
      var rest := CategorizedCandidates(ts[1..], top5);
      assert forall c :: c in rest ==> exists t :: 0 <= t < |ts| && ts[t].name == c.tierLabel && c.value in ts[t].values by {
        forall c | c in rest ensures exists t :: 0 <= t < |ts| && ts[t].name == c.tierLabel && c.value in ts[t].values {
          var t :| 0 <= t < |ts| - 1 && ts[1..][t].name == c.tierLabel && c.value in ts[1..][t].values;
          assert ts[t + 1] == ts[1..][t];
        }
      }
      Unranked(ts[0].values, top5, ts[0].name) + rest
  }

  function CandidateValues(cs: seq<Candidate>): seq<Value>
  {
    seq(|cs|, i requires 0 <= i < |cs| => cs[i].value)
  }

  /** The reduce in canProceedToPhase2: the number of values in all tiers. */
  function TierCount(ts: seq<Tier>): nat
  {
    if ts == [] then 0 else |ts[0].values| + TierCount(ts[1..])
  }

  /** Enough values sit in tiers to fill the Top-5. */
  predicate CanProceedToPhase2(ts: seq<Tier>)
  {
    TierCount(ts) >= SlotCount
  }

  /** No Top-5 slot is empty. */
  predicate CanFinishRanking(top5: seq<Slot>)
  {
    forall i :: 0 <= i < |top5| ==> top5[i].Some?
  }

  /** The gate of goToPhase: phase 2 needs canProceedToPhase2, a later
      phase needs a non-empty validTop5, any other phase is always allowed. */
  predicate PhaseAllowed(p: int, ts: seq<Tier>, top5: seq<Slot>)
  {
    !(p == 2 && !CanProceedToPhase2(ts)) && !(p > 2 && |ValidTop5(top5)| == 0)
  }

  // ---------------------------------------------------------------------

  lemma CandidateValuesAppend(a: seq<Candidate>, c: seq<Candidate>)
    ensures CandidateValues(a + c) == CandidateValues(a) + CandidateValues(c)
  {
  }

  lemma {:induction false} UnrankedBag(vs: seq<Value>, top5: seq<Slot>, name: string, id: string)
    ensures IdBag(CandidateValues(Unranked(vs, top5, name)))[id] == if IsRanked(top5, id) then 0 else IdBag(vs)[id]
  {
    if vs != [] {
      UnrankedBag(vs[1..], top5, name, id);
      var rest := Unranked(vs[1..], top5, name);
      var head: seq<Candidate> := if IsRanked(top5, vs[0].id) then [] else [Candidate(vs[0], name)];
      assert Unranked(vs, top5, name) == head + rest;
      var h := IdBag(CandidateValues(head))[id];
      assert h == if IsRanked(top5, id) then 0 else multiset{vs[0].id}[id] by {
        assert CandidateValues(head) == if IsRanked(top5, vs[0].id) then [] else [vs[0]];
        assert Ids([vs[0]]) == [vs[0].id];
      }
      CandidateValuesAppend(head, rest);
      IdBagAppend(CandidateValues(head), CandidateValues(rest));
      IdBagCons(vs);
    }
  }

  lemma IdBagCons(vs: seq<Value>)
    requires vs != []
    ensures IdBag(vs) == multiset{vs[0].id} + IdBag(vs[1..])
  {
    assert vs == [vs[0]] + vs[1..];
    IdBagAppend([vs[0]], vs[1..]);
    assert Ids([vs[0]]) == [vs[0].id];
  }

  lemma {:induction false} CandidatesBag(ts: seq<Tier>, top5: seq<Slot>, id: string)
    ensures IdBag(CandidateValues(CategorizedCandidates(ts, top5)))[id] == if IsRanked(top5, id) then 0 else TierBag(ts)[id]
  {
    if ts != [] {
      CandidatesBag(ts[1..], top5, id);
      var head := Unranked(ts[0].values, top5, ts[0].name);
      var rest := CategorizedCandidates(ts[1..], top5);
      UnrankedBag(ts[0].values, top5, ts[0].name, id);
      CandidateValuesAppend(head, rest);
      IdBagAppend(CandidateValues(head), CandidateValues(rest));
    }
  }

  /** The candidates and the Top-5 together account for every tier value
      exactly once: a tier value is either offered as a candidate or ranked. */
  lemma CandidatesAccount(b: Board)
    requires Valid(b)
    ensures IdBag(CandidateValues(CategorizedCandidates(b.tiers, b.top5))) + RankedBag(b.top5) == TierBag(b.tiers)
    ensures |CategorizedCandidates(b.tiers, b.top5)| + |ValidTop5(b.top5)| == TierCount(b.tiers)
  {
    var cb := IdBag(CandidateValues(CategorizedCandidates(b.tiers, b.top5)));
    forall id ensures cb[id] + RankedBag(b.top5)[id] == TierBag(b.tiers)[id] {
      CandidatesBag(b.tiers, b.top5, id);
      SlotIndexOfBag(b.top5, id);
      assert TierBag(b.tiers)[id] <= ResidentBag(b)[id];
    }
    TierCountIsSize(b.tiers);
    assert cb + RankedBag(b.top5) == TierBag(b.tiers);
  }

  /** canProceedToPhase2 counts exactly the tier-resident values. */
  lemma {:induction false} TierCountIsSize(ts: seq<Tier>)
    ensures TierCount(ts) == |TierBag(ts)|
  {
    if ts != [] {
      TierCountIsSize(ts[1..]);
    }
  }

  /** canFinishRanking holds exactly when validTop5 keeps every slot. */
  lemma {:induction false} FinishIffFull(top5: seq<Slot>)
    ensures CanFinishRanking(top5) <==> |ValidTop5(top5)| == |top5|
  {
    if top5 != [] {
      FinishIffFull(top5[1..]);
      assert CanFinishRanking(top5) <==> top5[0].Some? && CanFinishRanking(top5[1..]) by {
        assert forall i :: 1 <= i < |top5| ==> top5[i] == top5[1..][i - 1];
      }
    }
  }

  /** A complete Top-5 is only possible with at least five tier values. */
  lemma FinishImpliesProceed(b: Board)
    requires Valid(b) && CanFinishRanking(b.top5)
    ensures CanProceedToPhase2(b.tiers)
  {
    FinishIffFull(b.top5);
    CandidatesAccount(b);
  }

  /** What the phase gate demands, in terms of the containers: phase 2 needs
      at least five tier values, a phase after 2 needs an occupied slot. */
  lemma PhaseGate(p: int, ts: seq<Tier>, top5: seq<Slot>)
    ensures PhaseAllowed(p, ts, top5) <==>
      && (p == 2 ==> TierCount(ts) >= SlotCount)
      && (p > 2 ==> exists i :: 0 <= i < |top5| && top5[i].Some?)
  {
    if p > 2 && |ValidTop5(top5)| != 0 {
      assert ValidTop5(top5)[0] in ValidTop5(top5);
      var i :| 0 <= i < |top5| && top5[i] == Some(ValidTop5(top5)[0]);
    }
    if exists i :: 0 <= i < |top5| && top5[i].Some? {
      var i :| 0 <= i < |top5| && top5[i].Some?;
      assert top5[i].value in ValidTop5(top5);
    }
  }
}
