/** Worked Top-5 moves on small boards, one per branch of moveValueToTop5,
    stated for any values with distinct ids. Each fact about a literal
    sequence is proved in a small lemma of its own (DropLast, InsertFirst,
    InsertSecond, PushFront): the same fact proved inside the scenario
    costs the solver far more, because of the other terms around it. */
module Scenarios {
  import opened Wrappers
  import opened Placement

  /** A Top-5 whose occupants `vs` come first reads back as `vs`. */
  lemma ReadBack(vs: seq<Value>, n: nat)
    ensures ValidTop5(Filled(vs) + Empties(n)) == vs
  {
    ValidTop5Append(Filled(vs), Empties(n));
    ValidTop5Filled(vs);
    ValidTop5Empties(n);
  }

  /** One step of the filter that drops `id`. */
  lemma WithoutCons(v: Value, vs: seq<Value>, id: string)
    ensures Without([v] + vs, id) == if v.id == id then Without(vs, id) else [v] + Without(vs, id)
  {
    assert ([v] + vs)[1..] == vs;
  }

  /** An insert at a position inside the list splits it there. */
  lemma InsertInside(s: seq<Value>, i: nat, x: Value)
    requires i <= |s|
    ensures InsertAt(s, i, x) == s[..i] + [x] + s[i..]
  {
  }

  /** [A,_,B,_,_] with A moved to the empty slot 1 gives [_,A,B,_,_]. */
  lemma MoveIntoEmptySlot(a: Value, b: Value)
    requires a.id != b.id
    ensures RankedMove([Some(a), None, Some(b), None, None], a.id, 1) == [None, Some(a), Some(b), None, None]
  {
    var top5: seq<Slot> := [Some(a), None, Some(b), None, None];
    assert Holds(top5[0], a.id);
    RankedMoveIntoEmpty(top5, a.id, 1);
  }

  /** [A,B,C,_,_] with C moved onto the occupied slot 0 gives [C,A,B,_,_]
      (the list C,A,B laid out): the others close up behind it. */
  lemma MoveOntoOccupiedSlot(a: Value, b: Value, c: Value)
    requires a.id != b.id && b.id != c.id && a.id != c.id
    ensures SlotIndexOf([Some(a), Some(b), Some(c), None, None], c.id) == 2
    ensures RankedMove([Some(a), Some(b), Some(c), None, None], c.id, 0) == LayOut([c, a, b])
  {
    var top5: seq<Slot> := [Some(a), Some(b), Some(c), None, None];
    assert !Holds(top5[0], c.id) && !Holds(top5[1], c.id) && Holds(top5[2], c.id);
    assert SlotIndexOf(top5, c.id) == 2;
    assert top5 == Filled([a, b, c]) + Empties(2);
    ReadBack([a, b, c], 2);
    DropLast(a, b, c);
    InsertFirst(a, b, c);
  }

  /** Inserting `c` at the front of [A,B]. */
  lemma InsertFirst(a: Value, b: Value, c: Value)
    ensures InsertAt([a, b], 0, c) == [c, a, b]
  {
    InsertInside([a, b], 0, c);
    assert [a, b][..0] + [c] + [a, b][0..] == [c, a, b];
  }

  /** Filtering out the id of the last of three. */
  lemma DropLast(a: Value, b: Value, c: Value)
    requires a.id != c.id && b.id != c.id
    ensures Without([a, b, c], c.id) == [a, b]
  {
    WithoutCons(c, [], c.id);
    WithoutCons(b, [c], c.id);
    assert [b] + [c] == [b, c];
    WithoutCons(a, [b, c], c.id);
    assert [a] + [b, c] == [a, b, c];
  }

  /** [A,B,C,_,_] with tier value D admitted at slot 1 gives [A,D,B,C,_]
      (the list A,D,B,C laid out). */
  lemma AdmitIntoPartialTop5(a: Value, b: Value, c: Value, d: Value)
    ensures Admitted([Some(a), Some(b), Some(c), None, None], d, 1) == [a, d, b, c]
  {
    var top5: seq<Slot> := [Some(a), Some(b), Some(c), None, None];
    assert top5 == Filled([a, b, c]) + Empties(2);
    ReadBack([a, b, c], 2);
    InsertSecond(a, b, c, d);
  }

  /** Inserting `d` at position 1 of [A,B,C]. */
  lemma InsertSecond(a: Value, b: Value, c: Value, d: Value)
    ensures InsertAt([a, b, c], 1, d) == [a, d, b, c]
  {
    InsertInside([a, b, c], 1, d);
    assert [a, b, c][..1] + [d] + [a, b, c][1..] == [a, d, b, c];
  }

  /** [A,B,C,D,E] with tier value F admitted at slot 0 gives [F,A,B,C,D]:
      the last occupant is bumped. */
  lemma AdmitIntoFullTop5(a: Value, b: Value, c: Value, d: Value, e: Value, f: Value)
    ensures Admitted([Some(a), Some(b), Some(c), Some(d), Some(e)], f, 0) == [f, a, b, c, d]
  {
    var top5: seq<Slot> := [Some(a), Some(b), Some(c), Some(d), Some(e)];
    assert top5 == Filled([a, b, c, d, e]) + Empties(0);
    ReadBack([a, b, c, d, e], 0);
    InsertInside([a, b, c, d, e], 0, f);
    PushFront(a, b, c, d, e, f);
  }

  /** Inserting `f` at the front of five values and keeping the first five. */
  lemma PushFront(a: Value, b: Value, c: Value, d: Value, e: Value, f: Value)
    ensures var occ := [a, b, c, d, e]; (occ[..0] + [f] + occ[0..])[..5] == [f, a, b, c, d]
  {
    var occ := [a, b, c, d, e];
    assert occ[..0] + [f] + occ[0..] == [f, a, b, c, d, e];
  }

  /** [A,_,_,_,_] with tier value B admitted at slot 3 gives [A,B,_,_,_]:
      an insert past the occupants lands right after them, as with
      JavaScript's splice. */
  lemma AdmitPastOccupants(a: Value, b: Value)
    ensures Admitted([Some(a), None, None, None, None], b, 3) == [a, b]
  {
    var top5: seq<Slot> := [Some(a), None, None, None, None];
    assert top5 == Filled([a]) + Empties(4);
    ReadBack([a], 4);
    assert InsertAt([a], 3, b) == [a, b];
  }
}
