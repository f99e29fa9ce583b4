/**
 * The descending stable sort that the validation driver applies to a candidate list
 * with `std::greater<Candidate>`, and the fact that the sorted list is
 * determined by the candidates alone.
 */
module Ranking {
  import opened Elft
  import opened Libelft

  /** No candidate is greater than one placed before it. */
  predicate SortedDescending(s: seq<Candidate>)
  {
    forall i, j :: 0 <= i < j < |s| ==> !CandidateGreater(s[j], s[i])
  }

  /** Insert `c` into a descending list, after every candidate it is not greater than. */
  function Insert(c: Candidate, s: seq<Candidate>): (r: seq<Candidate>)
    requires SortedDescending(s)
    ensures multiset(r) == multiset(s) + multiset{c}
    ensures SortedDescending(r)
  {
    if s == [] then [c]
    else if CandidateGreater(c, s[0]) then
      InsertFrontKeepsOrder(c, s);
      [c] + s
    else
      var tail := Insert(c, s[1..]);
      InsertBehindKeepsOrder(c, s, tail);
      assert s == [s[0]] + s[1..];
      [s[0]] + tail
  }

  lemma {:induction false} InsertFrontKeepsOrder(c: Candidate, s: seq<Candidate>)
    requires SortedDescending(s) && s != [] && CandidateGreater(c, s[0])
    ensures SortedDescending([c] + s)
  {
    var r := [c] + s;
    forall i, j | 0 <= i < j < |r| ensures !CandidateGreater(r[j], r[i]) {
      if i == 0 {
        CandidateTrichotomy(s[0], c);
        if j > 1 {
          CandidateTrichotomy(s[j - 1], s[0]);
          CandidateTrichotomy(s[j - 1], c);
          if CandidateLess(s[j - 1], s[0]) {
            CandidateLessTransitive(s[j - 1], s[0], c);
          }
        }
      }
    }
  }

  lemma {:induction false} InsertBehindKeepsOrder(c: Candidate, s: seq<Candidate>, tail: seq<Candidate>)
    requires SortedDescending(s) && s != [] && !CandidateGreater(c, s[0])
    requires SortedDescending(tail) && multiset(tail) == multiset(s[1..]) + multiset{c}
    ensures SortedDescending([s[0]] + tail)
  {
    var r := [s[0]] + tail;
    forall j | 0 < j < |r| ensures !CandidateGreater(r[j], r[0]) {
      assert r[j] in multiset(tail);
      if r[j] != c {
        assert r[j] in multiset(s[1..]);
        var k :| 0 <= k < |s[1..]| && s[1..][k] == r[j];
        assert s[k + 1] == r[j];
      }
    }
  }

  /** `std::stable_sort` with `std::greater<Candidate>`, as an insertion sort. */
  function SortDescending(s: seq<Candidate>): (r: seq<Candidate>)
    ensures multiset(r) == multiset(s)
    ensures SortedDescending(r)
  {
    if s == [] then []
    else
      var front := SortDescending(s[..|s| - 1]);
      assert s == s[..|s| - 1] + [s[|s| - 1]];
      Insert(s[|s| - 1], front)
  }

  /**
   * Two descending lists holding the same candidates are equal: since `>`
   * is a strict total order in which only equal candidates tie, the result
   * of the sort does not depend on the input order, and stability cannot
   * be observed.
   */
  lemma {:induction false} SortedIsUnique(a: seq<Candidate>, b: seq<Candidate>)
    requires SortedDescending(a) && SortedDescending(b)
    requires multiset(a) == multiset(b)
    ensures a == b
  {
    if a != [] {
      assert |b| == |multiset(b)| == |multiset(a)| == |a|;
      SortedHeadsAgree(a, b);
      TailsAgree(a, b);
      SortedIsUnique(a[1..], b[1..]);
      assert a == [a[0]] + a[1..] && b == [b[0]] + b[1..];
    }
  }

  lemma {:induction false} TailsAgree(a: seq<Candidate>, b: seq<Candidate>)
    requires SortedDescending(a) && SortedDescending(b)
    requires multiset(a) == multiset(b) && a != [] && b != [] && a[0] == b[0]
    ensures multiset(a[1..]) == multiset(b[1..])
    ensures SortedDescending(a[1..]) && SortedDescending(b[1..])
  {
    assert a == [a[0]] + a[1..] && b == [b[0]] + b[1..];
    assert multiset(a) == multiset{a[0]} + multiset(a[1..]);
    assert multiset(b) == multiset{b[0]} + multiset(b[1..]);
    forall z ensures multiset(a[1..])[z] == multiset(b[1..])[z] {
      assert multiset(a)[z] == multiset{a[0]}[z] + multiset(a[1..])[z];
      assert multiset(b)[z] == multiset{a[0]}[z] + multiset(b[1..])[z];
    }
  }

  lemma {:induction false} SortedHeadsAgree(a: seq<Candidate>, b: seq<Candidate>)
    requires SortedDescending(a) && SortedDescending(b)
    requires multiset(a) == multiset(b) && a != [] && b != []
    ensures a[0] == b[0]
  {
    assert a[0] in multiset(b);
    var j :| 0 <= j < |b| && b[j] == a[0];
    assert b[0] in multiset(a);
    var i :| 0 <= i < |a| && a[i] == b[0];
    if a[0] != b[0] {
      assert i != 0 && j != 0;
      assert !CandidateGreater(b[0], a[0]);
      assert !CandidateGreater(a[0], b[0]);
      CandidateTrichotomy(a[0], b[0]);
      assert false;
    }
  }
}
