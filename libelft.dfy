/**
 * The comparison operators and the boolean conversion that the ELFT library
 * defines on its data types.
 */
module Libelft {
  import opened Elft

  /** `ReturnStatus::operator bool`. */
  predicate StatusHolds(rs: ReturnStatus) { rs.result == Success }

  /** A default status holds; any status whose result is Failure does not. */
  lemma {:induction false} StatusConversion(m: Wrappers.Option<string>)
    ensures StatusHolds(DefaultStatus)
    ensures !StatusHolds(ReturnStatus(Failure, m))
    ensures StatusHolds(ReturnStatus(Success, m))
  {
  }

  // ---- Coordinate ----

  predicate CoordinateEq(a: Coordinate, b: Coordinate) { a.x == b.x && a.y == b.y }

  predicate CoordinateNe(a: Coordinate, b: Coordinate) { !CoordinateEq(a, b) }

  /** Ascending x, then ascending y. */
  predicate CoordinateLess(a: Coordinate, b: Coordinate)
  {
    if a.x > b.x then false
    else if a.x < b.x then true
    else if a.y > b.y then false
    else if a.y < b.y then true
    else false
  }

  predicate CoordinateLessEq(a: Coordinate, b: Coordinate) { CoordinateLess(a, b) || CoordinateEq(a, b) }

  predicate CoordinateGreater(a: Coordinate, b: Coordinate) { !CoordinateLessEq(a, b) }

  predicate CoordinateGreaterEq(a: Coordinate, b: Coordinate) { CoordinateGreater(a, b) || CoordinateEq(a, b) }

  /**
   * `==` is equality of both members, `<` is the lexicographic order on
   * (x, y), and the derived operators make exactly one of `<`, `==`, `>`
   * hold, with `>` the converse of `<`.
   */
  lemma {:induction false} CoordinateOrder(a: Coordinate, b: Coordinate, c: Coordinate)
    ensures CoordinateEq(a, b) <==> a == b
    ensures CoordinateNe(a, b) <==> a != b
    ensures CoordinateLess(a, b) <==> a.x < b.x || (a.x == b.x && a.y < b.y)
    ensures CoordinateLess(a, b) || CoordinateEq(a, b) || CoordinateGreater(a, b)
    ensures !(CoordinateLess(a, b) && CoordinateEq(a, b))
    ensures !(CoordinateLess(a, b) && CoordinateGreater(a, b))
    ensures !(CoordinateEq(a, b) && CoordinateGreater(a, b))
    ensures CoordinateGreater(a, b) <==> CoordinateLess(b, a)
    ensures CoordinateGreaterEq(a, b) <==> CoordinateLessEq(b, a)
    ensures CoordinateLess(a, b) && CoordinateLess(b, c) ==> CoordinateLess(a, c)
  {
  }

  // ---- std::string ordering ----

  /**
   * `std::string` `operator<`: the first differing character decides, and a
   * proper prefix comes first.
   */
  predicate StringLess(a: string, b: string)
  {
    if |a| == 0 then |b| > 0
    else if |b| == 0 then false
    else if a[0] < b[0] then true
    else if a[0] > b[0] then false
    else StringLess(a[1..], b[1..])
  }

  lemma {:induction false} StringLessIrreflexive(a: string)
    ensures !StringLess(a, a)
  {
    if |a| > 0 {
      StringLessIrreflexive(a[1..]);
    }
  }

  /** Distinct strings are ordered one way or the other, never both. */
  lemma {:induction false} StringLessTotal(a: string, b: string)
    ensures a != b <==> StringLess(a, b) || StringLess(b, a)
    ensures !(StringLess(a, b) && StringLess(b, a))
  {
    if |a| == 0 || |b| == 0 {
      if a == b { StringLessIrreflexive(a); }
    } else if a[0] == b[0] {
      StringLessTotal(a[1..], b[1..]);
      if a[1..] == b[1..] {
        assert a == [a[0]] + a[1..] && b == [b[0]] + b[1..];
      }
    }
  }

  lemma {:induction false} StringLessTransitive(a: string, b: string, c: string)
    requires StringLess(a, b) && StringLess(b, c)
    ensures StringLess(a, c)
  {
    if |a| > 0 && |b| > 0 && |c| > 0 && a[0] == b[0] == c[0] {
      StringLessTransitive(a[1..], b[1..], c[1..]);
    }
  }

  // ---- Candidate ----

  predicate CandidateEq(a: Candidate, b: Candidate)
  {
    a.similarity == b.similarity && a.identifier == b.identifier && a.frgp == b.frgp
  }

  predicate CandidateNe(a: Candidate, b: Candidate) { !CandidateEq(a, b) }

  /** Similarity, then identifier, then finger position; ties are not less. */
  predicate CandidateLess(a: Candidate, b: Candidate)
  {
    if a.similarity < b.similarity then true
    else if a.similarity > b.similarity then false
    else if StringLess(a.identifier, b.identifier) then true
    else if StringLess(b.identifier, a.identifier) then false
    else if a.frgp < b.frgp then true
    else if a.frgp > b.frgp then false
    else false
  }

  predicate CandidateLessEq(a: Candidate, b: Candidate) { CandidateLess(a, b) || CandidateEq(a, b) }

  predicate CandidateGreater(a: Candidate, b: Candidate) { !CandidateLessEq(a, b) }

  predicate CandidateGreaterEq(a: Candidate, b: Candidate) { CandidateGreater(a, b) || CandidateEq(a, b) }

  /**
   * `==` is equality of the three members; exactly one of `<`, `==`, `>`
   * holds, and `>` is the converse of `<`.
   */
  lemma {:induction false} CandidateTrichotomy(a: Candidate, b: Candidate)
    ensures CandidateEq(a, b) <==> a == b
    ensures CandidateLess(a, b) || CandidateEq(a, b) || CandidateGreater(a, b)
    ensures !(CandidateLess(a, b) && CandidateEq(a, b))
    ensures !(CandidateLess(a, b) && CandidateGreater(a, b))
    ensures !(CandidateEq(a, b) && CandidateGreater(a, b))
    ensures CandidateGreater(a, b) <==> CandidateLess(b, a)
    ensures CandidateGreaterEq(a, b) <==> CandidateLessEq(b, a)
  {
    StringLessTotal(a.identifier, b.identifier);
    StringLessIrreflexive(a.identifier);
  }

  /** `<` on candidates is a strict order, so `>` is one too. */
  lemma {:induction false} CandidateLessTransitive(a: Candidate, b: Candidate, c: Candidate)
    requires CandidateLess(a, b) && CandidateLess(b, c)
    ensures CandidateLess(a, c)
  {
    StringLessTotal(a.identifier, b.identifier);
    StringLessTotal(b.identifier, c.identifier);
    StringLessTotal(a.identifier, c.identifier);
    if a.similarity == b.similarity == c.similarity {
      if StringLess(a.identifier, b.identifier) && StringLess(b.identifier, c.identifier) {
        StringLessTransitive(a.identifier, b.identifier, c.identifier);
      }
    }
  }
}
