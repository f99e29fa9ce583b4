/**
 * The rows of the two search logs: the candidate log written after
 * `search`, one row per ranked candidate, and the correspondence log
 * written after `extractCorrespondence`, one row per pair of corresponding
 * minutiae.
 */
module SearchLog {
  import opened Wrappers
  import opened Text
  import opened Elft
  import opened Libelft
  import opened Csv
  import opened ValidationUtils
  import opened Ranking
  import opened ElftOutput
  import opened LogCells
  import opened ResultLog

  // ---- Candidate log (performSingleSearch) ----

  /** The quoted identifier, the maximum, the elapsed time, the result and the sanitized message. */
  function SearchPrefix(identifier: string, maxCandidates: nat, elapsed: int, status: ReturnStatus): seq<string>
  {
    [Quote(identifier), Number(maxCandidates), Number(elapsed), Number(status.result), MessageCell(status)]
  }

  /** The decision, the list length, the rank, the quoted identifier, the position and the similarity. */
  function CandidateCells(decision: bool, n: nat, rank: nat, c: Candidate): seq<string>
  {
    [BoolText(decision), Number(n), Number(rank), Quote(c.identifier), Number(c.frgp), SimilarityText(c.similarity)]
  }

  /** A successful search that returned candidates: the only kind whose candidates are logged. */
  predicate Ranked(rv: SearchResult) { StatusHolds(rv.status) && rv.candidateList != [] }

  function CandidateRow(prefix: seq<string>, decision: bool, n: nat, rank: nat, c: Candidate): string
  {
    Join(prefix + CandidateCells(decision, n, rank, c), ",")
  }

  /** The prefix text, then the candidate's cells. */
  lemma {:induction false} CandidateRowText(prefix: seq<string>, decision: bool, n: nat, rank: nat, c: Candidate)
    requires prefix != []
    ensures CandidateRow(prefix, decision, n, rank, c) == Join(prefix, ",") + "," + Join(CandidateCells(decision, n, rank, c), ",")
  {
    JoinConcat(prefix, CandidateCells(decision, n, rank, c), ",");
  }

  /** One row per candidate of a sorted list, ranked from 1. */
  function RankedLines(prefix: seq<string>, decision: bool, sorted: seq<Candidate>): seq<string>
  {
    seq(|sorted|, k requires 0 <= k < |sorted| => CandidateRow(prefix, decision, |sorted|, k + 1, sorted[k]))
  }

  /**
   * The result `performSingleSearch` hands back: the candidate list sorted
   * by decreasing similarity when it was logged, untouched otherwise.
   */
  function Sorted(rv: SearchResult): (r: SearchResult)
    ensures r.status == rv.status && r.decision == rv.decision
    ensures multiset(r.candidateList) == multiset(rv.candidateList)
    ensures |r.candidateList| == |rv.candidateList|
    ensures Ranked(rv) ==> SortedDescending(r.candidateList)
    ensures !Ranked(rv) ==> r == rv
  {
    if Ranked(rv) then
      var s := SortDescending(rv.candidateList);
      assert |s| == |multiset(s)| == |multiset(rv.candidateList)| == |rv.candidateList|;
      rv.(candidateList := s)
    else rv
  }

  /** The rows of the candidate log: one per sorted candidate, or one of 6 `NA`s. */
  function SearchLines(identifier: string, maxCandidates: nat, elapsed: int, rv: SearchResult): seq<string>
  {
    var prefix := SearchPrefix(identifier, maxCandidates, elapsed, rv.status);
    if Ranked(rv) then RankedLines(prefix, rv.decision, Sorted(rv).candidateList)
    else [Join(prefix + Repeat(NA, 6), ",")]
  }

  /**
   * `performSingleSearch`, given what `search` returned: sorts the
   * candidates, then writes one row per candidate with a line break
   * between rows.
   */
  method PerformSearch(identifier: string, maxCandidates: uint16, elapsed: int, rv: SearchResult)
    returns (result: SearchResult, logLine: string)
    ensures result == Sorted(rv)
    ensures logLine == Join(SearchLines(identifier, maxCandidates, elapsed, rv), "\n")
  {
    var prefixCells := SearchPrefix(identifier, maxCandidates, elapsed, rv.status);
    if !Ranked(rv) {
      logLine := NaRow(prefixCells, 6);
      assert Join([logLine], "\n") == logLine;
      return rv, logLine;
    }
    result := Sorted(rv);
    logLine := RankRows(prefixCells, rv.decision, result.candidateList);
  }

  /** The loop over the sorted candidates: a row each, with a line break before every row but the first. */
  method RankRows(prefixCells: seq<string>, decision: bool, sorted: seq<Candidate>) returns (logLine: string)
    requires prefixCells != [] && sorted != []
    ensures logLine == Join(RankedLines(prefixCells, decision, sorted), "\n")
  {
    var n := |sorted|;
    var prefixText := Join(prefixCells, ",") + ",";
    ghost var lines := RankedLines(prefixCells, decision, sorted);
    logLine := "";
    var rank := 0;
    while rank < n
      invariant 0 <= rank <= n
      invariant rank < n ==> logLine == Accumulated(lines[..rank], "\n")
      invariant rank == n ==> logLine == Join(lines, "\n")
    {
      var row := prefixText + Join(CandidateCells(decision, n, rank + 1, sorted[rank]), ",");
      CandidateRowText(prefixCells, decision, n, rank + 1, sorted[rank]);
      AccumulatedThen(lines, rank, "\n");
      logLine := logLine + row;
      rank := rank + 1;
      if rank < n {
        logLine := logLine + "\n";
      } else {
        assert lines[..rank] == lines;
      }
    }
  }

  /**
   * The candidate log does not depend on the order in which the
   * implementation listed its candidates, and neither does the returned
   * result when the candidates were ranked.
   */
  lemma {:induction false} SearchOrderFree(identifier: string, maxCandidates: nat, elapsed: int, a: SearchResult, b: SearchResult)
    requires a.status == b.status && a.decision == b.decision
    requires multiset(a.candidateList) == multiset(b.candidateList)
    ensures Ranked(a) ==> Sorted(a) == Sorted(b)
    ensures SearchLines(identifier, maxCandidates, elapsed, a) == SearchLines(identifier, maxCandidates, elapsed, b)
  {
    assert |a.candidateList| == |multiset(a.candidateList)| == |multiset(b.candidateList)| == |b.candidateList|;
    if Ranked(a) {
      SortedIsUnique(Sorted(a).candidateList, Sorted(b).candidateList);
    }
  }

  /** The rows are ranked by decreasing similarity: a higher rank never has a lower similarity. */
  lemma {:induction false} SearchRanksBySimilarity(rv: SearchResult, i: nat, j: nat)
    requires Ranked(rv) && i < j < |rv.candidateList|
    ensures Sorted(rv).candidateList[i].similarity >= Sorted(rv).candidateList[j].similarity
  {
    var s := Sorted(rv).candidateList;
    assert !CandidateGreater(s[j], s[i]);
    CandidateTrichotomy(s[i], s[j]);
  }

  lemma {:induction false} SimilarityInert(v: int)
    ensures Inert(SimilarityText(v))
  {
    NumberInert(v);
    InertAppend(IntToString(v), ".000000");
  }

  /** A candidate identifier and a message the log can hold. */
  predicate SearchLoggable(identifier: string, rv: SearchResult)
  {
    Inert(identifier) && Loggable(rv.status) &&
    forall k :: 0 <= k < |rv.candidateList| ==> Inert(rv.candidateList[k].identifier)
  }

  lemma {:induction false} SearchPrefixFields(identifier: string, maxCandidates: nat, elapsed: int, status: ReturnStatus)
    requires Inert(identifier) && Loggable(status)
    ensures Fields(SearchPrefix(identifier, maxCandidates, elapsed, status))
  {
    InertCells(identifier);
    NumberField(maxCandidates);
    NumberField(elapsed);
    NumberField(status.result);
    MessageCellIsCell(status);
  }

  lemma {:induction false} CandidateCellsFields(decision: bool, n: nat, rank: nat, c: Candidate)
    requires Inert(c.identifier)
    ensures Fields(CandidateCells(decision, n, rank, c))
  {
    InertCells(BoolText(decision));
    NumberField(n);
    NumberField(rank);
    InertCells(c.identifier);
    NumberField(c.frgp);
    SimilarityInert(c.similarity);
    InertCells(SimilarityText(c.similarity));
  }

  /** Every row of a ranked list after a prefix of five fields: eleven fields on one line. */
  lemma {:induction false} RankedLinesShape(prefix: seq<string>, decision: bool, sorted: seq<Candidate>)
    requires |prefix| == 5 && Fields(prefix)
    requires forall k :: 0 <= k < |sorted| ==> Inert(sorted[k].identifier)
    ensures forall k :: 0 <= k < |sorted| ==>
      FieldCount(RankedLines(prefix, decision, sorted)[k]) == 11 && OneLine(RankedLines(prefix, decision, sorted)[k])
  {
    forall k | 0 <= k < |sorted|
      ensures FieldCount(RankedLines(prefix, decision, sorted)[k]) == 11 && OneLine(RankedLines(prefix, decision, sorted)[k])
    {
      CandidateRowShape(prefix, decision, |sorted|, k + 1, sorted[k]);
    }
  }

  /** A candidate's row after a prefix of five fields: eleven fields on one line. */
  lemma {:induction false} CandidateRowShape(prefix: seq<string>, decision: bool, n: nat, rank: nat, c: Candidate)
    requires |prefix| == 5 && Fields(prefix) && Inert(c.identifier)
    ensures FieldCount(CandidateRow(prefix, decision, n, rank, c)) == 11
    ensures OneLine(CandidateRow(prefix, decision, n, rank, c))
  {
    var cells := CandidateCells(decision, n, rank, c);
    CandidateCellsFields(decision, n, rank, c);
    FieldsAppend(prefix, cells);
    RowOfCells(prefix + cells);
  }

  /**
   * The candidate log has one row per candidate when the search succeeded
   * with candidates, one row otherwise, and every row has the header's 11
   * fields on one line.
   */
  lemma {:induction false} SearchShape(identifier: string, maxCandidates: nat, elapsed: int, rv: SearchResult)
    requires SearchLoggable(identifier, rv)
    ensures |SearchLines(identifier, maxCandidates, elapsed, rv)| == if Ranked(rv) then |rv.candidateList| else 1
    ensures forall k :: 0 <= k < |SearchLines(identifier, maxCandidates, elapsed, rv)| ==>
      FieldCount(SearchLines(identifier, maxCandidates, elapsed, rv)[k]) == |CandidateHeader| &&
      OneLine(SearchLines(identifier, maxCandidates, elapsed, rv)[k])
  {
    var prefix := SearchPrefix(identifier, maxCandidates, elapsed, rv.status);
    var lines := SearchLines(identifier, maxCandidates, elapsed, rv);
    SearchPrefixFields(identifier, maxCandidates, elapsed, rv.status);
    if Ranked(rv) {
      var s := Sorted(rv).candidateList;
      forall k | 0 <= k < |s| ensures Inert(s[k].identifier) {
        assert s[k] in multiset(rv.candidateList);
        var m :| 0 <= m < |rv.candidateList| && rv.candidateList[m] == s[k];
      }
      RankedLinesShape(prefix, rv.decision, s);
    } else {
      NasFields(6);
      FieldsAppend(prefix, Repeat(NA, 6));
      RowOfCells(prefix + Repeat(NA, 6));
    }
  }

  // ---- Correspondence log (performSingleSearchExtract) ----

  const CountMismatch := "Number of entries in returned vector of Correspondences must be the same as the number of Candidates."

  /** What `extractCorrespondence` returned: a status and one vector per candidate. */
  datatype Extraction = Extraction(status: ReturnStatus, vectors: seq<seq<Correspondence>>)

  /** The quoted probe identifier, the number of candidates and the elapsed time. */
  function CorrespondencePrefix(identifier: string, numCandidates: nat, elapsed: int): seq<string>
  {
    [Quote(identifier), Number(numCandidates), Number(elapsed)]
  }

  /** The coordinate, the angle and the type of a minutia. */
  function MinutiaCells(m: Minutia): seq<string>
  {
    [Number(m.coordinate.x), Number(m.coordinate.y), Number(m.theta), Number(m.kind)]
  }

  /**
   * The rank of the candidate, the index of the pair in its vector, the
   * quoted reference identifier, then the input identifier and the minutia
   * of the reference and of the probe.
   */
  function CorrespondenceCells(rank: nat, index: nat, c: Correspondence): seq<string>
  {
    [Number(rank), Number(index), Quote(c.referenceIdentifier), Number(c.referenceInputIdentifier)] +
    MinutiaCells(c.referenceMinutia) + [Number(c.probeInputIdentifier)] + MinutiaCells(c.probeMinutia)
  }

  function CorrespondenceRow(prefix: seq<string>, rank: nat, index: nat, c: Correspondence): string
  {
    Join(prefix + CorrespondenceCells(rank, index, c), ",")
  }

  /** The prefix text, then the pair's cells. */
  lemma {:induction false} CorrespondenceRowText(prefix: seq<string>, rank: nat, index: nat, c: Correspondence)
    requires prefix != []
    ensures CorrespondenceRow(prefix, rank, index, c) == Join(prefix, ",") + "," + Join(CorrespondenceCells(rank, index, c), ",")
  {
    JoinConcat(prefix, CorrespondenceCells(rank, index, c), ",");
  }

  /** The rows of the vector of the candidate ranked `rank`, numbered from 1. */
  function VectorLines(prefix: seq<string>, rank: nat, v: seq<Correspondence>): seq<string>
  {
    seq(|v|, j requires 0 <= j < |v| => CorrespondenceRow(prefix, rank, j + 1, v[j]))
  }

  /** The rows of every vector, candidate by candidate. */
  function CorrespondenceLines(prefix: seq<string>, vectors: seq<seq<Correspondence>>): seq<string>
  {
    if vectors == [] then []
    else CorrespondenceLines(prefix, vectors[..|vectors| - 1]) + VectorLines(prefix, |vectors|, vectors[|vectors| - 1])
  }

  /**
   * The correspondence log: a row of 13 `NA`s after the prefix when there
   * is no successful result, the count mismatch when the vectors do not
   * match the candidates one to one, else every pair's row.
   */
  function CorrespondenceLog(identifier: string, numCandidates: nat, elapsed: int, ret: Option<Extraction>): Outcome<string>
  {
    var prefix := CorrespondencePrefix(identifier, numCandidates, elapsed);
    if ret.None? || !StatusHolds(ret.value.status) then Ok(Join(prefix + Repeat(NA, 13), ","))
    else if numCandidates != |ret.value.vectors| then Raised(CountMismatch)
    else Ok(Join(CorrespondenceLines(prefix, ret.value.vectors), "\n"))
  }

  /** At least one pair of corresponding minutiae. */
  predicate AnyPair(vectors: seq<seq<Correspondence>>)
  {
    exists k :: 0 <= k < |vectors| && vectors[k] != []
  }

  /** The number of pairs in all vectors. */
  function Pairs(vectors: seq<seq<Correspondence>>): nat
  {
    if vectors == [] then 0 else Pairs(vectors[..|vectors| - 1]) + |vectors[|vectors| - 1]|
  }

  /**
   * `performSingleSearchExtract`, given the candidates searched and what
   * `extractCorrespondence` returned. A successful result whose vectors
   * match the candidates but hold no pair at all is excluded: the final
   * `pop_back` on the empty line is undefined.
   */
  method PerformSearchExtract(identifier: string, searchResult: SearchResult, elapsed: int, ret: Option<Extraction>)
    returns (r: Outcome<string>)
    requires ret.Some? && StatusHolds(ret.value.status) && |searchResult.candidateList| == |ret.value.vectors| ==>
      AnyPair(ret.value.vectors)
    ensures r == CorrespondenceLog(identifier, |searchResult.candidateList|, elapsed, ret)
  {
    var prefixCells := CorrespondencePrefix(identifier, |searchResult.candidateList|, elapsed);
    if ret.None? || !StatusHolds(ret.value.status) {
      var row := NaRow(prefixCells, 13);
      return Ok(row);
    }
    var corrs := ret.value.vectors;
    if |searchResult.candidateList| != |corrs| {
      return Raised(CountMismatch);
    }
    ghost var done: seq<string> := [];
    var logLine := "";
    var rank := 0;
    while rank < |corrs|
      invariant 0 <= rank <= |corrs|
      invariant done == CorrespondenceLines(prefixCells, corrs[..rank])
      invariant logLine == Accumulated(done, "\n")
    {
      logLine := AppendVector(prefixCells, rank + 1, corrs[rank], logLine, done);
      assert corrs[..rank + 1][..rank] == corrs[..rank];
      done := done + VectorLines(prefixCells, rank + 1, corrs[rank]);
      rank := rank + 1;
    }
    assert corrs[..rank] == corrs;
    CorrespondenceLineCount(prefixCells, corrs);
    PairsOfAnyPair(corrs);
    AccumulatedIsJoin(done, "\n");
    logLine := logLine[..|logLine| - 1];
    r := Ok(logLine);
  }

  /** The inner loop: appends the row and the line break of every pair of one candidate's vector. */
  method AppendVector(prefixCells: seq<string>, rank: nat, v: seq<Correspondence>, logLine: string, ghost done: seq<string>)
    returns (out: string)
    requires prefixCells != [] && logLine == Accumulated(done, "\n")
    ensures out == Accumulated(done + VectorLines(prefixCells, rank, v), "\n")
  {
    var prefixText := Join(prefixCells, ",") + ",";
    ghost var all := done + VectorLines(prefixCells, rank, v);
    out := logLine;
    var corrIndex := 0;
    assert all[..|done|] == done;
    while corrIndex < |v|
      invariant 0 <= corrIndex <= |v|
      invariant out == Accumulated(all[..|done| + corrIndex], "\n")
    {
      var row := prefixText + Join(CorrespondenceCells(rank, corrIndex + 1, v[corrIndex]), ",");
      CorrespondenceRowText(prefixCells, rank, corrIndex + 1, v[corrIndex]);
      AppendVectorStep(prefixCells, rank, v, done, corrIndex);
      out := out + row + "\n";
      corrIndex := corrIndex + 1;
    }
    assert all[..|done| + corrIndex] == all;
  }

  /** Appending row `j` of a vector and a line break extends the accumulated text by that row. */
  lemma {:induction false} AppendVectorStep(prefixCells: seq<string>, rank: nat, v: seq<Correspondence>, done: seq<string>, j: nat)
    requires j < |v|
    ensures var all := done + VectorLines(prefixCells, rank, v);
      Accumulated(all[..|done| + j], "\n") + CorrespondenceRow(prefixCells, rank, j + 1, v[j]) + "\n" ==
      Accumulated(all[..|done| + j + 1], "\n")
  {
    var all := done + VectorLines(prefixCells, rank, v);
    var k := |done| + j;
    VectorLineAt(done, prefixCells, rank, v, j);
    AccumulatedThen(all, k, "\n");
    assert all[k] == CorrespondenceRow(prefixCells, rank, j + 1, v[j]);
  }

  /** Row `j` of a vector, after the rows already written. */
  lemma {:induction false} VectorLineAt(done: seq<string>, prefix: seq<string>, rank: nat, v: seq<Correspondence>, j: nat)
    requires j < |v|
    ensures (done + VectorLines(prefix, rank, v))[|done| + j] == CorrespondenceRow(prefix, rank, j + 1, v[j])
  {
  }

  /** There is one row per pair. */
  lemma {:induction false} CorrespondenceLineCount(prefix: seq<string>, vectors: seq<seq<Correspondence>>)
    ensures |CorrespondenceLines(prefix, vectors)| == Pairs(vectors)
  {
    if vectors != [] {
      CorrespondenceLineCount(prefix, vectors[..|vectors| - 1]);
    }
  }

  /** A pair in some vector makes the count positive. */
  lemma {:induction false} PairsOfAnyPair(vectors: seq<seq<Correspondence>>)
    ensures AnyPair(vectors) <==> Pairs(vectors) > 0
  {
    if vectors != [] {
      var front := vectors[..|vectors| - 1];
      PairsOfAnyPair(front);
      if AnyPair(front) {
        var k :| 0 <= k < |front| && front[k] != [];
        assert vectors[k] == front[k];
      }
      if AnyPair(vectors) && vectors[|vectors| - 1] == [] {
        var k :| 0 <= k < |vectors| && vectors[k] != [];
        assert front[k] == vectors[k];
      }
    }
  }

  /**
   * Each row is the row of one pair: that of the `j`-th pair (from 1) of
   * the vector of the candidate ranked `i` (from 1).
   */
  lemma {:induction false} CorrespondenceLinesAreRows(prefix: seq<string>, vectors: seq<seq<Correspondence>>, p: nat)
    requires p < |CorrespondenceLines(prefix, vectors)|
    ensures exists i, j :: (0 <= i < |vectors| && 0 <= j < |vectors[i]| &&
      CorrespondenceLines(prefix, vectors)[p] == CorrespondenceRow(prefix, i + 1, j + 1, vectors[i][j]))
  {
    var n := |vectors|;
    var front := CorrespondenceLines(prefix, vectors[..n - 1]);
    if p < |front| {
      CorrespondenceLinesAreRows(prefix, vectors[..n - 1], p);
      var i, j :| 0 <= i < n - 1 && 0 <= j < |vectors[..n - 1][i]| &&
        front[p] == CorrespondenceRow(prefix, i + 1, j + 1, vectors[..n - 1][i][j]);
      assert vectors[..n - 1][i] == vectors[i];
    } else {
      var j := p - |front|;
      assert CorrespondenceLines(prefix, vectors)[p] == VectorLines(prefix, n, vectors[n - 1])[j];
    }
  }

  /** Reference identifiers the log can hold. */
  predicate ReferencesLoggable(vectors: seq<seq<Correspondence>>)
  {
    forall i, j :: 0 <= i < |vectors| && 0 <= j < |vectors[i]| ==> Inert(vectors[i][j].referenceIdentifier)
  }

  lemma {:induction false} MinutiaCellsFields(m: Minutia)
    ensures Fields(MinutiaCells(m))
  {
    NumberField(m.coordinate.x);
    NumberField(m.coordinate.y);
    NumberField(m.theta);
    NumberField(m.kind);
  }

  lemma {:induction false} CorrespondenceRowWidth(prefix: seq<string>, rank: nat, index: nat, c: Correspondence)
    requires |prefix| == 3 && Fields(prefix) && Inert(c.referenceIdentifier)
    ensures FieldCount(CorrespondenceRow(prefix, rank, index, c)) == |CorrespondenceHeader|
    ensures OneLine(CorrespondenceRow(prefix, rank, index, c))
  {
    NumberField(rank);
    NumberField(index);
    InertCells(c.referenceIdentifier);
    NumberField(c.referenceInputIdentifier);
    NumberField(c.probeInputIdentifier);
    var head := [Number(rank), Number(index), Quote(c.referenceIdentifier), Number(c.referenceInputIdentifier)];
    MinutiaCellsFields(c.referenceMinutia);
    MinutiaCellsFields(c.probeMinutia);
    FieldsAppend(head, MinutiaCells(c.referenceMinutia));
    FieldsAppend(head + MinutiaCells(c.referenceMinutia), [Number(c.probeInputIdentifier)]);
    FieldsAppend(head + MinutiaCells(c.referenceMinutia) + [Number(c.probeInputIdentifier)], MinutiaCells(c.probeMinutia));
    FieldsAppend(prefix, CorrespondenceCells(rank, index, c));
    RowOfCells(prefix + CorrespondenceCells(rank, index, c));
  }

  /** Every row of every pair has the header's 16 fields on one line. */
  lemma {:induction false} CorrespondenceLinesWidth(prefix: seq<string>, vectors: seq<seq<Correspondence>>)
    requires |prefix| == 3 && Fields(prefix) && ReferencesLoggable(vectors)
    ensures forall p :: 0 <= p < |CorrespondenceLines(prefix, vectors)| ==>
      FieldCount(CorrespondenceLines(prefix, vectors)[p]) == 16 && OneLine(CorrespondenceLines(prefix, vectors)[p])
  {
    forall p | 0 <= p < |CorrespondenceLines(prefix, vectors)|
      ensures FieldCount(CorrespondenceLines(prefix, vectors)[p]) == 16
      ensures OneLine(CorrespondenceLines(prefix, vectors)[p])
    {
      CorrespondenceLinesAreRows(prefix, vectors, p);
      var i, j :| 0 <= i < |vectors| && 0 <= j < |vectors[i]| &&
        CorrespondenceLines(prefix, vectors)[p] == CorrespondenceRow(prefix, i + 1, j + 1, vectors[i][j]);
      CorrespondenceRowWidth(prefix, i + 1, j + 1, vectors[i][j]);
    }
  }

  /**
   * The correspondence log has one row per pair when the extraction
   * succeeded and matched the candidates, one row when it did not
   * succeed, and every row has the header's 16 fields on one line.
   */
  lemma {:induction false} CorrespondenceShape(identifier: string, numCandidates: nat, elapsed: int, ret: Option<Extraction>)
    requires Inert(identifier)
    requires ret.Some? ==> ReferencesLoggable(ret.value.vectors)
    ensures CorrespondenceLog(identifier, numCandidates, elapsed, ret).Raised? <==>
      ret.Some? && StatusHolds(ret.value.status) && numCandidates != |ret.value.vectors|
    ensures ret.Some? && StatusHolds(ret.value.status) && numCandidates == |ret.value.vectors| ==>
      |CorrespondenceLines(CorrespondencePrefix(identifier, numCandidates, elapsed), ret.value.vectors)| ==
        Pairs(ret.value.vectors)
    ensures ret.Some? ==> forall p :: 0 <= p < |CorrespondenceLines(CorrespondencePrefix(identifier, numCandidates, elapsed), ret.value.vectors)| ==>
      FieldCount(CorrespondenceLines(CorrespondencePrefix(identifier, numCandidates, elapsed), ret.value.vectors)[p]) == 16 &&
      OneLine(CorrespondenceLines(CorrespondencePrefix(identifier, numCandidates, elapsed), ret.value.vectors)[p])
    ensures ret.None? || !StatusHolds(ret.value.status) ==>
      FieldCount(CorrespondenceLog(identifier, numCandidates, elapsed, ret).value) == 16
  {
    var prefix := CorrespondencePrefix(identifier, numCandidates, elapsed);
    InertCells(identifier);
    NumberField(numCandidates);
    NumberField(elapsed);
    if ret.Some? {
      CorrespondenceLineCount(prefix, ret.value.vectors);
      CorrespondenceLinesWidth(prefix, ret.value.vectors);
    }
    if ret.None? || !StatusHolds(ret.value.status) {
      NasFields(13);
      FieldsAppend(prefix, Repeat(NA, 13));
      RowOfCells(prefix + Repeat(NA, 13));
    }
  }
}
