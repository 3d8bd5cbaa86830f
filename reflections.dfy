/** The reflection records kept per ranked value, and the lazy seeding that
    creates a default record the first time a value is ranked. Records are
    never removed, so reflections survive a value leaving the Top-5. */
module Reflections {

  /** A committedActions entry. */
  datatype Commitment = Commitment(contact: int, filling: string, immediate: string)

  /** A goalsVision entry. */
  datatype Vision = Vision(longTerm: string, intermediate: string, actions: string)

  const DefaultCommitment: Commitment := Commitment(5, "", "")
  const DefaultVision: Vision := Vision("", "", "")

  /** The default personal definition written by moveValueToTop5. */
  const DefaultDefinition: string := ""

  /** The seeding loops: for each id in turn, add the entry `d` unless the
      map already has one. (For personalDefinitions the application also
      rewrites an existing empty definition, which leaves the map as it is.) */
  function Seeded<T>(m: map<string, T>, ids: seq<string>, d: T): map<string, T>
    decreases |ids|
  {
    if ids == [] then m
    else
      var prev := Seeded(m, ids[..|ids| - 1], d);
      var k := ids[|ids| - 1];
      if k in prev then prev else prev[k := d]
  }

  /** After seeding, exactly the old keys and the seeded ids have entries;
      old entries are untouched and new ones are the default. */
  lemma {:induction false} SeededEntries<T>(m: map<string, T>, ids: seq<string>, d: T)
    ensures var r := Seeded(m, ids, d);
      && (forall k :: k in r <==> k in m || k in ids)
      && (forall k :: k in m ==> r[k] == m[k])
      && (forall k :: k in r && k !in m ==> r[k] == d)
  {
    if ids != [] {
      var init := ids[..|ids| - 1];
      assert ids == init + [ids[|ids| - 1]];
      SeededEntries(m, init, d);
    }
  }

  /** Seeding one more id: add its entry unless it has one. */
  lemma SeededSnoc<T>(m: map<string, T>, ids: seq<string>, k: string, d: T)
    ensures var p := Seeded(m, ids, d); Seeded(m, ids + [k], d) == if k in p then p else p[k := d]
  {
    assert (ids + [k])[..|ids|] == ids;
  }

  /** Seeding ids that all have entries changes nothing. */
  lemma {:induction false} SeededNoop<T>(m: map<string, T>, ids: seq<string>, d: T)
    requires forall k :: k in ids ==> k in m
    ensures Seeded(m, ids, d) == m
  {
    if ids != [] {
      var init := ids[..|ids| - 1];
      assert forall k :: k in init ==> k in ids;
      SeededNoop(m, init, d);
    }
  }

  /** Running the seeding again after it has run once has no effect. */
  lemma SeededIdempotent<T>(m: map<string, T>, ids: seq<string>, d: T)
    ensures Seeded(Seeded(m, ids, d), ids, d) == Seeded(m, ids, d)
  {
    SeededEntries(m, ids, d);
    SeededNoop(Seeded(m, ids, d), ids, d);
  }
}
