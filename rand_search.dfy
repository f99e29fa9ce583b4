/**
 * The random implementation's search side. `search` draws one candidate
 * per template file of the reference database. `extractCorrespondence`
 * picks, for each candidate, the sub-template of the candidate's reference
 * that the candidate's finger position points at, and draws one vector of
 * minutia pairs for it.
 *
 * The implementation's `std::mt19937_64` is an unbounded stream of draws
 * `rng`, read from a cursor; every operation returns the cursor after its
 * last draw. `search` and `extractCorrespondence` share one generator.
 */
module RandSearch {
  import opened Wrappers
  import opened Elft
  import opened RandTemplate
  import opened ReferenceDatabase

  type Rng = nat -> nat

  /** `UINT16_MAX`, the modulus of a drawn similarity. */
  const SimilarityModulus := 65535
  /** `UINT8_MAX`, the modulus of a drawn number of minutia pairs. */
  const PairsModulus := 255

  /** Friction ridge positions 13-15: right four, left four, both thumbs. */
  predicate IsSlap(frgp: Frgp) { RightFour <= frgp <= RightAndLeftThumbs }

  // ---- the finger reported for a slap template ----

  /**
   * The finger positions a candidate drawn from a template of position
   * `slap` may carry: a finger of the slap's hand, one of the two thumbs,
   * or the template's own position when it is not a slap.
   */
  predicate Remaps(slap: Frgp, finger: Frgp)
  {
    if slap == RightFour then RightIndex <= finger <= RightLittle
    else if slap == LeftFour then LeftIndex <= finger <= LeftLittle
    else if slap == RightAndLeftThumbs then finger == RightThumb || finger == LeftThumb
    else finger == slap
  }

  /**
   * The finger positions the switch in `search` reports for a template of
   * position `slap`: as `Remaps`, except that the two-thumb slap gives the
   * right little finger (5) or the left thumb (6).
   */
  predicate RemapsAsWritten(slap: Frgp, finger: Frgp)
  {
    if slap == RightFour then RightIndex <= finger <= RightLittle
    else if slap == LeftFour then LeftIndex <= finger <= LeftLittle
    else if slap == RightAndLeftThumbs then finger == RightLittle || finger == LeftThumb
    else finger == slap
  }

  /** The switch in `search` as written: the two-thumb slap becomes `(draw % 2) + 5`. */
  function SlapFingerAsWritten(frgp: Frgp, draw: nat): (r: Frgp)
    ensures RemapsAsWritten(frgp, r)
  {
    if frgp == RightFour then draw % 4 + 2
    else if frgp == LeftFour then draw % 4 + 7
    else if frgp == RightAndLeftThumbs then draw % 2 + 5
    else frgp
  }

  /** Every finger `RemapsAsWritten` allows is reported by the switch as written for some draw. */
  lemma {:induction false} SlapFingerAsWrittenOnto(frgp: Frgp, finger: Frgp)
    requires RemapsAsWritten(frgp, finger)
    ensures exists draw: nat :: SlapFingerAsWritten(frgp, draw) == finger
  {
    var draw: nat :=
      if frgp == RightFour then finger - 2
      else if frgp == LeftFour then finger - 7
      else if frgp == RightAndLeftThumbs then finger - 5
      else 0;
    assert SlapFingerAsWritten(frgp, draw) == finger;
  }

  /** The switch in `search` with the two-thumb slap reported as one of the thumbs. */
  function SlapFinger(frgp: Frgp, draw: nat): (r: Frgp)
    ensures Remaps(frgp, r)
  {
    if frgp == RightFour then draw % 4 + 2
    else if frgp == LeftFour then draw % 4 + 7
    else if frgp == RightAndLeftThumbs then (if draw % 2 == 0 then RightThumb else LeftThumb)
    else frgp
  }

  /** Every finger `Remaps` allows is reported for some draw. */
  lemma {:induction false} SlapFingerOnto(frgp: Frgp, finger: Frgp)
    requires Remaps(frgp, finger)
    ensures exists draw: nat :: SlapFinger(frgp, draw) == finger
  {
    var draw: nat :=
      if frgp == RightFour then finger - 2
      else if frgp == LeftFour then finger - 7
      else if frgp == RightAndLeftThumbs && finger == LeftThumb then 1
      else 0;
    assert SlapFinger(frgp, draw) == finger;
  }

  /**
   * As written, half of the draws report a two-thumb slap as the right
   * little finger, a finger that slap does not hold.
   */
  lemma {:induction false} ThumbsAsWrittenLeaveTheSlap(draw: nat)
    ensures SlapFingerAsWritten(RightAndLeftThumbs, draw) in {RightLittle, LeftThumb}
    ensures draw % 2 == 0 ==> !Remaps(RightAndLeftThumbs, SlapFingerAsWritten(RightAndLeftThumbs, draw))
    ensures forall f :: f != RightAndLeftThumbs ==> SlapFingerAsWritten(f, draw) == SlapFinger(f, draw)
  {
  }

  /**
   * Which switch reports a slap's finger: `AsWritten` is the one in
   * `search`, `WithThumbs` reports the two-thumb slap as a thumb.
   */
  datatype Switch = AsWritten | WithThumbs

  /** The fingers switch `sw` may report for a template of position `slap`. */
  predicate Reports(sw: Switch, slap: Frgp, finger: Frgp)
  {
    if sw.AsWritten? then RemapsAsWritten(slap, finger) else Remaps(slap, finger)
  }

  function ReportedFinger(sw: Switch, frgp: Frgp, draw: nat): (r: Frgp)
    ensures Reports(sw, frgp, r)
  {
    if sw.AsWritten? then SlapFingerAsWritten(frgp, draw) else SlapFinger(frgp, draw)
  }

  // ---- search ----

  /**
   * One pass of the search loop over a file's templates: draw a template,
   * draw a finger for it when it is a slap, draw a similarity.
   */
  function Draw(sw: Switch, templates: seq<Tmpl>, rng: Rng, at: nat): (r: (Candidate, nat))
    requires templates != []
    ensures var t := templates[rng(at) % |templates|];
      r.0.identifier == t.candidateIdentifier && Reports(sw, t.frgp, r.0.frgp) &&
      0 <= r.0.similarity < SimilarityModulus && r.1 == at + (if IsSlap(t.frgp) then 3 else 2)
  {
    var t := templates[rng(at) % |templates|];
    if IsSlap(t.frgp) then
      (Candidate(t.candidateIdentifier, ReportedFinger(sw, t.frgp, rng(at + 1)), rng(at + 2) % SimilarityModulus), at + 3)
    else
      (Candidate(t.candidateIdentifier, t.frgp, rng(at + 1) % SimilarityModulus), at + 2)
  }

  /** `p` lies strictly inside directory `dir`. */
  predicate Under(dir: Path, p: Path) { |dir| < |p| && p[..|dir|] == dir }

  /**
   * `listing` is the order in which the recursive directory iterator meets
   * the regular files below the database directory, each once; each is a
   * template `parseTemplate` can read.
   */
  predicate Lists(fs: FileSystem, dbDir: Path, listing: seq<Path>)
  {
    (forall i :: 0 <= i < |listing| ==>
      listing[i] in fs && fs[listing[i]].File? && Under(dbDir, listing[i]) && WellFormed(fs[listing[i]].bytes)) &&
    (forall i, j :: 0 <= i < j < |listing| ==> listing[i] != listing[j]) &&
    (forall p :: p in fs && fs[p].File? && Under(dbDir, p) ==> p in listing)
  }

  /** The templates of each listed file. */
  function Listed(fs: FileSystem, listing: seq<Path>): (r: seq<seq<Tmpl>>)
    requires forall i :: 0 <= i < |listing| ==> listing[i] in fs && fs[listing[i]].File? && WellFormed(fs[listing[i]].bytes)
    ensures |r| == |listing| && forall i :: 0 <= i < |listing| ==> r[i] != []
    decreases |listing|
  {
    if listing == [] then []
    else [ParseTemplateSpec(fs[listing[0]].bytes)] + Listed(fs, listing[1..])
  }

  /** The `i`th listed file's templates are what `parseTemplate` reads from it. */
  lemma {:induction false} ListedAt(fs: FileSystem, listing: seq<Path>, i: nat)
    requires forall i :: 0 <= i < |listing| ==> listing[i] in fs && fs[listing[i]].File? && WellFormed(fs[listing[i]].bytes)
    requires i < |listing|
    ensures Listed(fs, listing)[i] == ParseTemplateSpec(fs[listing[i]].bytes)
    decreases i
  {
    if i > 0 {
      ListedAt(fs, listing[1..], i - 1);
    }
  }

  /**
   * The candidates of the files from `files[i]` on, and the cursor after
   * them: one per file, stopping right after the candidate that brings the
   * list to `maxCandidates` (never, when that is 0).
   */
  function Picks(sw: Switch, files: seq<seq<Tmpl>>, i: nat, maxCandidates: nat, rng: Rng, at: nat): (r: (seq<Candidate>, nat))
    requires i <= |files| && forall k :: 0 <= k < |files| ==> files[k] != []
    ensures r.1 >= at
    decreases |files| - i
  {
    if i == |files| then ([], at)
    else
      var d := Draw(sw, files[i], rng, at);
      if i + 1 == maxCandidates then ([d.0], d.1)
      else
        var rest := Picks(sw, files, i + 1, maxCandidates, rng, d.1);
        ([d.0] + rest.0, rest.1)
  }

  /** The identifiers a search can report lead to files `parseTemplate` can read, or to none. */
  predicate Searchable(fs: FileSystem, dbDir: Path, listing: seq<Path>)
  {
    Lists(fs, dbDir, listing) &&
    forall i :: 0 <= i < |listing| ==> Readable(fs, dbDir, ParseTemplateSpec(fs[listing[i]].bytes)[0].candidateIdentifier)
  }

  /**
   * `search`: one candidate per file, with the switch as written, until
   * `maxCandidates` is reached, then the decision, then the correspondence `extractCorrespondence` gives for
   * the unsorted list, which is attached because its status is Success.
   */
  method Search(fs: FileSystem, dbDir: Path, listing: seq<Path>, probeTemplate: seq<byte>,
                maxCandidates: uint16, rng: Rng, cursor: nat)
    returns (result: SearchResult, correspondence: Option<seq<seq<Correspondence>>>, next: nat)
    requires Searchable(fs, dbDir, listing) && WellFormed(probeTemplate)
    ensures result == SearchResult(DefaultStatus, rng(DecisionAt(fs, listing, maxCandidates, rng, cursor)) % 2 == 0,
                                   Picks(AsWritten, Listed(fs, listing), 0, maxCandidates, rng, cursor).0)
    ensures AllReadable(fs, dbDir, result.candidateList)
    ensures correspondence == Some(Correspondences(ParseTemplateSpec(probeTemplate)[0], References(fs, dbDir, result.candidateList),
                                                   result.candidateList, 0, rng, ExtractionAt(fs, listing, maxCandidates, rng, cursor)).0)
    ensures next == Correspondences(ParseTemplateSpec(probeTemplate)[0], References(fs, dbDir, result.candidateList),
                                    result.candidateList, 0, rng, ExtractionAt(fs, listing, maxCandidates, rng, cursor)).1
  {
    var candidates, at := DrawCandidates(fs, listing, maxCandidates, rng, cursor);
    var decision := rng(at) % 2 == 0;
    result := SearchResult(DefaultStatus, decision, candidates);
    PicksReadable(AsWritten, fs, dbDir, listing, maxCandidates, rng, cursor);
    var from := at + 1;
    assert from == ExtractionAt(fs, listing, maxCandidates, rng, cursor);
    var status, vectors;
    status, vectors, next := ExtractCorrespondence(fs, dbDir, probeTemplate, candidates, rng, from);
    correspondence := if status.result == Success then Some(vectors) else None;
  }

  /** Where `search` draws its decision: right after the candidates. */
  function DecisionAt(fs: FileSystem, listing: seq<Path>, maxCandidates: nat, rng: Rng, cursor: nat): nat
    requires forall i :: 0 <= i < |listing| ==> listing[i] in fs && fs[listing[i]].File? && WellFormed(fs[listing[i]].bytes)
  {
    Picks(AsWritten, Listed(fs, listing), 0, maxCandidates, rng, cursor).1
  }

  /** Where `search` starts drawing the correspondence: right after the decision. */
  function ExtractionAt(fs: FileSystem, listing: seq<Path>, maxCandidates: nat, rng: Rng, cursor: nat): nat
    requires forall i :: 0 <= i < |listing| ==> listing[i] in fs && fs[listing[i]].File? && WellFormed(fs[listing[i]].bytes)
  {
    DecisionAt(fs, listing, maxCandidates, rng, cursor) + 1
  }

  /**
   * The loop of `search` over the database files: parse each file, draw its
   * candidate, and stop once the list holds `maxCandidates`.
   */
  method DrawCandidates(fs: FileSystem, listing: seq<Path>, maxCandidates: uint16, rng: Rng, cursor: nat)
    returns (candidates: seq<Candidate>, at: nat)
    requires forall i :: 0 <= i < |listing| ==> listing[i] in fs && fs[listing[i]].File? && WellFormed(fs[listing[i]].bytes)
    ensures candidates == Picks(AsWritten, Listed(fs, listing), 0, maxCandidates, rng, cursor).0
    ensures at == Picks(AsWritten, Listed(fs, listing), 0, maxCandidates, rng, cursor).1
  {
    ghost var files := Listed(fs, listing);
    ghost var total := Picks(AsWritten, files, 0, maxCandidates, rng, cursor);
    candidates, at := [], cursor;
    var i := 0;
    assert candidates + total.0 == total.0;
    while i < |listing|
      invariant 0 <= i <= |listing| && |candidates| == i
      invariant total.0 == candidates + Picks(AsWritten, files, i, maxCandidates, rng, at).0
      invariant total.1 == Picks(AsWritten, files, i, maxCandidates, rng, at).1
    {
      var templates := ParseListed(fs, listing, i);
      ghost var start := at;
      var c;
      c, at := DrawOne(templates, rng, at);
      PicksAppend(AsWritten, files, i, maxCandidates, rng, start, candidates, total, c, at);
      candidates := candidates + [c];
      i := i + 1;
      if |candidates| == maxCandidates as nat {
        break;
      }
    }
    assert candidates + [] == candidates;
  }

  /** `parseTemplate` on the `i`th listed file. */
  method ParseListed(fs: FileSystem, listing: seq<Path>, i: nat) returns (templates: seq<Tmpl>)
    requires forall i :: 0 <= i < |listing| ==> listing[i] in fs && fs[listing[i]].File? && WellFormed(fs[listing[i]].bytes)
    requires i < |listing|
    ensures templates == Listed(fs, listing)[i]
  {
    templates := ParseTemplate(fs[listing[i]].bytes);
    ListedAt(fs, listing, i);
  }

  /** The loop of `search` one file further: the file's candidate `c` joins those drawn so far. */
  lemma {:induction false} PicksAppend(sw: Switch, files: seq<seq<Tmpl>>, i: nat, maxCandidates: nat, rng: Rng, at: nat,
                                       candidates: seq<Candidate>, total: (seq<Candidate>, nat), c: Candidate, next: nat)
    requires i < |files| && forall k :: 0 <= k < |files| ==> files[k] != []
    requires total.0 == candidates + Picks(sw, files, i, maxCandidates, rng, at).0
    requires total.1 == Picks(sw, files, i, maxCandidates, rng, at).1
    requires (c, next) == Draw(sw, files[i], rng, at)
    ensures i + 1 == maxCandidates ==> total == (candidates + [c], next)
    ensures i + 1 != maxCandidates ==>
      total.0 == (candidates + [c]) + Picks(sw, files, i + 1, maxCandidates, rng, next).0 &&
      total.1 == Picks(sw, files, i + 1, maxCandidates, rng, next).1
  {
    PicksStep(sw, files, i, maxCandidates, rng, at);
    if i + 1 != maxCandidates {
      assert candidates + ([c] + Picks(sw, files, i + 1, maxCandidates, rng, next).0) ==
        (candidates + [c]) + Picks(sw, files, i + 1, maxCandidates, rng, next).0;
    }
  }

  /** One step of `Picks`: the file's draw, then the rest unless the list is full. */
  lemma {:induction false} PicksStep(sw: Switch, files: seq<seq<Tmpl>>, i: nat, maxCandidates: nat, rng: Rng, at: nat)
    requires i < |files| && forall k :: 0 <= k < |files| ==> files[k] != []
    ensures i + 1 == maxCandidates ==> Picks(sw, files, i, maxCandidates, rng, at).0 == [Draw(sw, files[i], rng, at).0]
    ensures i + 1 == maxCandidates ==> Picks(sw, files, i, maxCandidates, rng, at).1 == Draw(sw, files[i], rng, at).1
    ensures i + 1 != maxCandidates ==>
      Picks(sw, files, i, maxCandidates, rng, at).0 ==
        [Draw(sw, files[i], rng, at).0] + Picks(sw, files, i + 1, maxCandidates, rng, Draw(sw, files[i], rng, at).1).0
    ensures i + 1 != maxCandidates ==>
      Picks(sw, files, i, maxCandidates, rng, at).1 == Picks(sw, files, i + 1, maxCandidates, rng, Draw(sw, files[i], rng, at).1).1
  {
  }

  /** The draws for one database file: a template, the finger for a slap, then the similarity. */
  method DrawOne(templates: seq<Tmpl>, rng: Rng, cursor: nat) returns (c: Candidate, at: nat)
    requires templates != []
    ensures (c, at) == Draw(AsWritten, templates, rng, cursor)
  {
    at := cursor;
    var t := templates[rng(at) % |templates|];
    at := at + 1;
    var frgp := t.frgp;
    if frgp == RightFour {
      frgp := rng(at) % 4 + 2;
      at := at + 1;
    } else if frgp == LeftFour {
      frgp := rng(at) % 4 + 7;
      at := at + 1;
    } else if frgp == RightAndLeftThumbs {
      frgp := rng(at) % 2 + 5;
      at := at + 1;
    }
    c := Candidate(t.candidateIdentifier, frgp, rng(at) % SimilarityModulus);
    at := at + 1;
  }

  /** A file's candidate: drawn from one of its templates, with a finger switch `sw` reports for it. */
  predicate DrawnFrom(sw: Switch, c: Candidate, templates: seq<Tmpl>)
  {
    0 <= c.similarity < SimilarityModulus &&
    exists j :: 0 <= j < |templates| && c.identifier == templates[j].candidateIdentifier && Reports(sw, templates[j].frgp, c.frgp)
  }

  /**
   * With either switch, search returns one candidate per file, in file
   * order, stopping at `maxCandidates` when that is not 0; each candidate
   * is drawn from its own file.
   */
  lemma {:induction false} PicksProperties(sw: Switch, files: seq<seq<Tmpl>>, i: nat, maxCandidates: nat, rng: Rng, at: nat)
    requires i <= |files| && forall k :: 0 <= k < |files| ==> files[k] != []
    ensures var r := Picks(sw, files, i, maxCandidates, rng, at).0;
      |r| == (if i < maxCandidates <= |files| then maxCandidates - i else |files| - i) &&
      forall k :: 0 <= k < |r| ==> DrawnFrom(sw, r[k], files[i + k])
    decreases |files| - i
  {
    if i < |files| {
      var d := Draw(sw, files[i], rng, at);
      var j := rng(at) % |files[i]|;
      assert d.0.identifier == files[i][j].candidateIdentifier && Reports(sw, files[i][j].frgp, d.0.frgp);
      if i + 1 != maxCandidates {
        PicksProperties(sw, files, i + 1, maxCandidates, rng, d.1);
        var rest := Picks(sw, files, i + 1, maxCandidates, rng, d.1).0;
        assert forall k :: 1 <= k < 1 + |rest| ==> ([d.0] + rest)[k] == rest[k - 1];
      }
    }
  }

  lemma {:induction false} ParseFromIdentifier(data: seq<byte>, identifier: string, p: nat)
    requires RecordsFrom(data, p)
    ensures forall j :: 0 <= j < |ParseFrom(data, identifier, p)| ==> ParseFrom(data, identifier, p)[j].candidateIdentifier == identifier
    decreases |data| - p
  {
    var q := p + 3 + data[p + 2];
    if q != |data| {
      ParseFromIdentifier(data, identifier, q);
    }
  }

  /** Every record of a template carries the template's identifier. */
  lemma {:induction false} TemplatesShareIdentifier(data: seq<byte>)
    requires WellFormed(data)
    ensures forall j :: 0 <= j < |ParseTemplateSpec(data)| ==>
      ParseTemplateSpec(data)[j].candidateIdentifier == ParseTemplateSpec(data)[0].candidateIdentifier
  {
    ParseFromIdentifier(data, IdentifierOf(data[..Terminator(data)]), Terminator(data) + 1);
  }

  /** A search's candidates carry identifiers of listed files, so they can be looked up. */
  lemma {:induction false} PicksReadable(sw: Switch, fs: FileSystem, dbDir: Path, listing: seq<Path>, maxCandidates: nat, rng: Rng, at: nat)
    requires Searchable(fs, dbDir, listing)
    ensures AllReadable(fs, dbDir, Picks(sw, Listed(fs, listing), 0, maxCandidates, rng, at).0)
  {
    var files := Listed(fs, listing);
    var r := Picks(sw, files, 0, maxCandidates, rng, at).0;
    PicksProperties(sw, files, 0, maxCandidates, rng, at);
    forall k | 0 <= k < |r|
      ensures Readable(fs, dbDir, r[k].identifier)
    {
      ListedAt(fs, listing, k);
      DrawnFromIdentifier(sw, r[k], fs[listing[k]].bytes);
    }
  }

  /** A candidate drawn from a template file carries the file's identifier. */
  lemma {:induction false} DrawnFromIdentifier(sw: Switch, c: Candidate, data: seq<byte>)
    requires WellFormed(data) && DrawnFrom(sw, c, ParseTemplateSpec(data))
    ensures c.identifier == ParseTemplateSpec(data)[0].candidateIdentifier
  {
    TemplatesShareIdentifier(data);
  }

  // ---- extractCorrespondence ----

  /** `parseTemplate(path)` can read the file a candidate's identifier leads to, or there is none. */
  predicate Readable(fs: FileSystem, dbDir: Path, identifier: string)
  {
    var p := ReadPath(dbDir, identifier);
    p !in fs || (fs[p].File? && WellFormed(fs[p].bytes))
  }

  predicate AllReadable(fs: FileSystem, dbDir: Path, candidates: seq<Candidate>)
  {
    forall k :: 0 <= k < |candidates| ==> Readable(fs, dbDir, candidates[k].identifier)
  }

  /** The templates of a candidate's reference: none when the file cannot be opened. */
  function ReferenceTemplates(fs: FileSystem, dbDir: Path, identifier: string): seq<Tmpl>
    requires Readable(fs, dbDir, identifier)
  {
    var p := ReadPath(dbDir, identifier);
    if p in fs then ParseTemplateSpec(fs[p].bytes) else []
  }

  /** The reference templates of each candidate. */
  function References(fs: FileSystem, dbDir: Path, candidates: seq<Candidate>): (r: seq<seq<Tmpl>>)
    requires AllReadable(fs, dbDir, candidates)
    ensures |r| == |candidates|
    ensures forall k :: 0 <= k < |candidates| ==> r[k] == ReferenceTemplates(fs, dbDir, candidates[k].identifier)
  {
    seq(|candidates|, k requires 0 <= k < |candidates| => ReferenceTemplates(fs, dbDir, candidates[k].identifier))
  }

  predicate OnlySlaps(refs: seq<Tmpl>) { forall j :: 0 <= j < |refs| ==> IsSlap(refs[j].frgp) }

  predicate NoSlaps(refs: seq<Tmpl>) { forall j :: 0 <= j < |refs| ==> !IsSlap(refs[j].frgp) }

  /**
   * Whether the sub-template of position `tmpl` is the one for a candidate
   * of position `finger`: in a reference of slaps only, fingers 2-5 point
   * at the right four, 7-10 at the left four and anything else at the
   * thumbs; otherwise the positions must be equal.
   */
  predicate Selects(onlySlaps: bool, finger: Frgp, tmpl: Frgp)
  {
    if onlySlaps then
      if 2 <= finger <= 5 then tmpl == RightFour
      else if 7 <= finger <= 10 then tmpl == LeftFour
      else tmpl == RightAndLeftThumbs
    else tmpl == finger
  }

  /** The first sub-template from `from` on that `Selects` picks, or `|refs|`. */
  function FirstSelected(refs: seq<Tmpl>, onlySlaps: bool, finger: Frgp, from: nat): (k: nat)
    requires from <= |refs|
    ensures from <= k <= |refs|
    ensures forall j :: from <= j < k ==> !Selects(onlySlaps, finger, refs[j].frgp)
    ensures k < |refs| ==> Selects(onlySlaps, finger, refs[k].frgp)
    decreases |refs| - from
  {
    if from == |refs| || Selects(onlySlaps, finger, refs[from].frgp) then from
    else FirstSelected(refs, onlySlaps, finger, from + 1)
  }

  /** A reference has a sub-template for a candidate of position `finger`. */
  predicate HasSelected(refs: seq<Tmpl>, finger: Frgp)
  {
    FirstSelected(refs, OnlySlaps(refs), finger, 0) < |refs|
  }

  /** One pair of corresponding minutiae: six draws, probe first. */
  function Pair(probe: Tmpl, t: Tmpl, rng: Rng, at: nat): Correspondence
  {
    Correspondence(t.candidateIdentifier, t.inputIdentifier,
      Minutia(Coordinate(rng(at + 3) % 1000, rng(at + 4) % 1000), rng(at + 5) % 16, MinutiaUnknown),
      probe.inputIdentifier,
      Minutia(Coordinate(rng(at) % 1000, rng(at + 1) % 1000), rng(at + 2) % 360, MinutiaUnknown))
  }

  function Pairs(probe: Tmpl, t: Tmpl, rng: Rng, at: nat, n: nat): (r: seq<Correspondence>)
    ensures |r| == n && forall k :: 0 <= k < n ==> r[k] == Pair(probe, t, rng, at + 6 * k)
  {
    seq(n, k requires 0 <= k < n => Pair(probe, t, rng, at + 6 * k))
  }

  /** The vector for one candidate, if a sub-template is selected, and the cursor after it. */
  function VectorFor(probe: Tmpl, refs: seq<Tmpl>, finger: Frgp, rng: Rng, at: nat): (Option<seq<Correspondence>>, nat)
  {
    var k := FirstSelected(refs, OnlySlaps(refs), finger, 0);
    if k == |refs| then (None, at)
    else
      var n := rng(at) % PairsModulus;
      (Some(Pairs(probe, refs[k], rng, at + 1, n)), at + 1 + 6 * n)
  }

  /** The vectors for the candidates from `i` on, whose references are `refs`, and the cursor after them. */
  function Correspondences(probe: Tmpl, refs: seq<seq<Tmpl>>, candidates: seq<Candidate>, i: nat, rng: Rng, at: nat)
    : (seq<seq<Correspondence>>, nat)
    requires i <= |candidates| == |refs|
    decreases |candidates| - i
  {
    if i == |candidates| then ([], at)
    else
      var v := VectorFor(probe, refs[i], candidates[i].frgp, rng, at);
      var rest := Correspondences(probe, refs, candidates, i + 1, rng, v.1);
      (if v.0.Some? then [v.0.value] + rest.0 else rest.0, rest.1)
  }

  /**
   * `extractCorrespondence`: for each candidate, reads the reference,
   * decides whether it holds slaps only, takes the first selected
   * sub-template and draws its vector. The status is always Success.
   */
  method ExtractCorrespondence(fs: FileSystem, dbDir: Path, probeTemplate: seq<byte>, candidates: seq<Candidate>,
                               rng: Rng, cursor: nat)
    returns (status: ReturnStatus, vectors: seq<seq<Correspondence>>, next: nat)
    requires WellFormed(probeTemplate) && AllReadable(fs, dbDir, candidates)
    ensures status == DefaultStatus
    ensures vectors == Correspondences(ParseTemplateSpec(probeTemplate)[0], References(fs, dbDir, candidates), candidates, 0, rng, cursor).0
    ensures next == Correspondences(ParseTemplateSpec(probeTemplate)[0], References(fs, dbDir, candidates), candidates, 0, rng, cursor).1
  {
    var parsed := ParseTemplate(probeTemplate);
    var probe := parsed[0];
    ghost var refs := References(fs, dbDir, candidates);
    ghost var total := Correspondences(probe, refs, candidates, 0, rng, cursor);
    vectors, next := [], cursor;
    var i := 0;
    assert vectors + total.0 == total.0;
    while i < |candidates|
      invariant 0 <= i <= |candidates|
      invariant total.0 == vectors + Correspondences(probe, refs, candidates, i, rng, next).0
      invariant total.1 == Correspondences(probe, refs, candidates, i, rng, next).1
    {
      var reference := ReadReference(fs, dbDir, candidates[i].identifier);
      assert reference == refs[i];
      var onlySlaps := AllSlaps(reference);
      var v;
      ExtractStep(probe, refs, candidates, i, rng, next, vectors, total);
      v, next := SelectAndDraw(probe, reference, onlySlaps, candidates[i].frgp, rng, next);
      if v.Some? {
        vectors := vectors + [v.value];
      }
      i := i + 1;
    }
    assert vectors + [] == vectors;
    status := DefaultStatus;
  }

  /** One candidate of the loop: its vector, when there is one, joins those gathered so far. */
  lemma {:induction false} ExtractStep(probe: Tmpl, refs: seq<seq<Tmpl>>, candidates: seq<Candidate>, i: nat, rng: Rng, at: nat,
                                       vectors: seq<seq<Correspondence>>, total: (seq<seq<Correspondence>>, nat))
    requires i < |candidates| == |refs|
    requires total.0 == vectors + Correspondences(probe, refs, candidates, i, rng, at).0
    requires total.1 == Correspondences(probe, refs, candidates, i, rng, at).1
    ensures var v := VectorFor(probe, refs[i], candidates[i].frgp, rng, at);
      var rest := Correspondences(probe, refs, candidates, i + 1, rng, v.1);
      total.0 == (if v.0.Some? then vectors + [v.0.value] else vectors) + rest.0 && total.1 == rest.1
  {
    var v := VectorFor(probe, refs[i], candidates[i].frgp, rng, at);
    var rest := Correspondences(probe, refs, candidates, i + 1, rng, v.1);
    if v.0.Some? {
      assert vectors + ([v.0.value] + rest.0) == (vectors + [v.0.value]) + rest.0;
    }
  }

  /** `parseTemplate(path)`: the parsed file, or nothing when there is no file. */
  method ReadReference(fs: FileSystem, dbDir: Path, identifier: string) returns (refs: seq<Tmpl>)
    requires Readable(fs, dbDir, identifier)
    ensures refs == ReferenceTemplates(fs, dbDir, identifier)
  {
    var p := ReadPath(dbDir, identifier);
    if p in fs {
      refs := ParseTemplate(fs[p].bytes);
    } else {
      refs := [];
    }
  }

  /** The first loop: slaps only, until a sub-template outside 13-15 is met. */
  method AllSlaps(refs: seq<Tmpl>) returns (onlySlaps: bool)
    ensures onlySlaps == OnlySlaps(refs)
  {
    onlySlaps := true;
    var j := 0;
    while j < |refs|
      invariant 0 <= j <= |refs|
      invariant forall m :: 0 <= m < j ==> IsSlap(refs[m].frgp)
    {
      if refs[j].frgp < 13 || refs[j].frgp > 15 {
        onlySlaps := false;
        return;
      }
      j := j + 1;
    }
  }

  /**
   * The second loop: skip the sub-templates not selected; at the first
   * selected one draw the number of pairs and each pair, then stop.
   */
  method SelectAndDraw(probe: Tmpl, refs: seq<Tmpl>, onlySlaps: bool, finger: Frgp, rng: Rng, cursor: nat)
    returns (v: Option<seq<Correspondence>>, next: nat)
    requires onlySlaps == OnlySlaps(refs)
    ensures (v, next) == VectorFor(probe, refs, finger, rng, cursor)
  {
    v, next := None, cursor;
    var j := 0;
    while j < |refs|
      invariant 0 <= j <= |refs|
      invariant FirstSelected(refs, onlySlaps, finger, 0) == FirstSelected(refs, onlySlaps, finger, j)
    {
      var tmpl := refs[j];
      if !Selects(onlySlaps, finger, tmpl.frgp) {
        j := j + 1;
        continue;
      }
      var numPairs := rng(next) % PairsModulus;
      next := next + 1;
      ghost var start := next;
      var pairs: seq<Correspondence> := [];
      var k := 0;
      while k < numPairs
        invariant 0 <= k <= numPairs && next == start + 6 * k
        invariant pairs == Pairs(probe, tmpl, rng, start, k)
      {
        var px := rng(next) % 1000;
        var py := rng(next + 1) % 1000;
        var pt := rng(next + 2) % 360;
        var rx := rng(next + 3) % 1000;
        var ry := rng(next + 4) % 1000;
        var rt := rng(next + 5) % 16;
        next := next + 6;
        pairs := pairs + [Correspondence(tmpl.candidateIdentifier, tmpl.inputIdentifier,
          Minutia(Coordinate(rx, ry), rt, MinutiaUnknown), probe.inputIdentifier,
          Minutia(Coordinate(px, py), pt, MinutiaUnknown))];
        k := k + 1;
      }
      v := Some(pairs);
      return;
    }
  }

  /**
   * At most one vector per candidate, and exactly one per candidate iff
   * every candidate's reference has a sub-template selected for it.
   */
  lemma {:induction false} CorrespondenceCount(probe: Tmpl, refs: seq<seq<Tmpl>>, candidates: seq<Candidate>, i: nat, rng: Rng, at: nat)
    requires i <= |candidates| == |refs|
    ensures |Correspondences(probe, refs, candidates, i, rng, at).0| <= |candidates| - i
    ensures |Correspondences(probe, refs, candidates, i, rng, at).0| == |candidates| - i <==>
      forall k :: i <= k < |candidates| ==> HasSelected(refs[k], candidates[k].frgp)
    decreases |candidates| - i
  {
    CorrespondenceBound(probe, refs, candidates, i, rng, at);
    if forall k :: i <= k < |candidates| ==> HasSelected(refs[k], candidates[k].frgp) {
      CorrespondenceAll(probe, refs, candidates, i, rng, at);
    } else {
      var m :| i <= m < |candidates| && !HasSelected(refs[m], candidates[m].frgp);
      CorrespondenceMissing(probe, refs, candidates, i, rng, at, m);
    }
  }

  lemma {:induction false} CorrespondenceBound(probe: Tmpl, refs: seq<seq<Tmpl>>, candidates: seq<Candidate>, i: nat, rng: Rng, at: nat)
    requires i <= |candidates| == |refs|
    ensures |Correspondences(probe, refs, candidates, i, rng, at).0| <= |candidates| - i
    decreases |candidates| - i
  {
    if i < |candidates| {
      var v := VectorFor(probe, refs[i], candidates[i].frgp, rng, at);
      CorrespondenceBound(probe, refs, candidates, i + 1, rng, v.1);
      CorrespondencesStep(probe, refs, candidates, i, rng, at);
    }
  }

  lemma {:induction false} CorrespondenceAll(probe: Tmpl, refs: seq<seq<Tmpl>>, candidates: seq<Candidate>, i: nat, rng: Rng, at: nat)
    requires i <= |candidates| == |refs|
    requires forall k :: i <= k < |candidates| ==> HasSelected(refs[k], candidates[k].frgp)
    ensures |Correspondences(probe, refs, candidates, i, rng, at).0| == |candidates| - i
    decreases |candidates| - i
  {
    if i < |candidates| {
      var v := VectorFor(probe, refs[i], candidates[i].frgp, rng, at);
      CorrespondenceAll(probe, refs, candidates, i + 1, rng, v.1);
      CorrespondencesStep(probe, refs, candidates, i, rng, at);
    }
  }

  lemma {:induction false} CorrespondenceMissing(probe: Tmpl, refs: seq<seq<Tmpl>>, candidates: seq<Candidate>, i: nat, rng: Rng, at: nat, m: nat)
    requires i <= m < |candidates| == |refs| && !HasSelected(refs[m], candidates[m].frgp)
    ensures |Correspondences(probe, refs, candidates, i, rng, at).0| < |candidates| - i
    decreases |candidates| - i
  {
    var v := VectorFor(probe, refs[i], candidates[i].frgp, rng, at);
    CorrespondencesStep(probe, refs, candidates, i, rng, at);
    if i < m {
      CorrespondenceMissing(probe, refs, candidates, i + 1, rng, v.1, m);
    } else {
      CorrespondenceBound(probe, refs, candidates, i + 1, rng, v.1);
    }
  }

  /** The candidate at `i` adds one vector exactly when its reference has a selected sub-template. */
  lemma {:induction false} CorrespondencesStep(probe: Tmpl, refs: seq<seq<Tmpl>>, candidates: seq<Candidate>, i: nat, rng: Rng, at: nat)
    requires i < |candidates| == |refs|
    ensures var v := VectorFor(probe, refs[i], candidates[i].frgp, rng, at);
      |Correspondences(probe, refs, candidates, i, rng, at).0| ==
        (if HasSelected(refs[i], candidates[i].frgp) then 1 else 0) + |Correspondences(probe, refs, candidates, i + 1, rng, v.1).0|
  {
  }

  /** The ranges of the drawn values: fewer than 255 pairs, coordinates below 1000, angles below 360 and 16. */
  predicate DrawnVector(probe: Tmpl, v: seq<Correspondence>)
  {
    |v| < PairsModulus &&
    forall k :: 0 <= k < |v| ==>
      v[k].probeInputIdentifier == probe.inputIdentifier &&
      v[k].probeMinutia.coordinate.x < 1000 && v[k].probeMinutia.coordinate.y < 1000 && v[k].probeMinutia.theta < 360 &&
      v[k].referenceMinutia.coordinate.x < 1000 && v[k].referenceMinutia.coordinate.y < 1000 && v[k].referenceMinutia.theta < 16
  }

  lemma {:induction false} PairsDrawn(probe: Tmpl, t: Tmpl, rng: Rng, at: nat, n: nat)
    requires n < PairsModulus
    ensures DrawnVector(probe, Pairs(probe, t, rng, at, n))
  {
  }

  lemma {:induction false} CorrespondenceRanges(probe: Tmpl, refs: seq<seq<Tmpl>>, candidates: seq<Candidate>, i: nat, rng: Rng, at: nat)
    requires i <= |candidates| == |refs|
    ensures AllDrawn(probe, Correspondences(probe, refs, candidates, i, rng, at).0)
    decreases |candidates| - i
  {
    if i < |candidates| {
      var v := VectorFor(probe, refs[i], candidates[i].frgp, rng, at);
      CorrespondenceRanges(probe, refs, candidates, i + 1, rng, v.1);
      if v.0.Some? {
        var k := FirstSelected(refs[i], OnlySlaps(refs[i]), candidates[i].frgp, 0);
        assert v.0.value == Pairs(probe, refs[i][k], rng, at + 1, rng(at) % PairsModulus);
        PairsDrawn(probe, refs[i][k], rng, at + 1, rng(at) % PairsModulus);
        var rest := Correspondences(probe, refs, candidates, i + 1, rng, v.1).0;
        var r := Correspondences(probe, refs, candidates, i, rng, at).0;
        assert r == [v.0.value] + rest;
        assert forall m :: 1 <= m < |r| ==> r[m] == rest[m - 1];
      }
    }
  }

  /** Every vector in `vectors` is a `DrawnVector`. */
  predicate AllDrawn(probe: Tmpl, vectors: seq<seq<Correspondence>>)
  {
    forall m :: 0 <= m < |vectors| ==> DrawnVector(probe, vectors[m])
  }

  // ---- search and extraction together ----

  /** A reference of slaps only, or of no slaps at all. */
  predicate Uniform(refs: seq<Tmpl>) { OnlySlaps(refs) || NoSlaps(refs) }

  /**
   * A reference that backs a candidate: uniform, with a sub-template whose
   * position allows the candidate's finger.
   */
  predicate Backs(refs: seq<Tmpl>, c: Candidate)
  {
    Uniform(refs) && exists j :: 0 <= j < |refs| && Remaps(refs[j].frgp, c.frgp)
  }

  /** A finger allowed for one sub-template of a uniform reference selects a sub-template. */
  lemma {:induction false} RemappedFingerSelects(refs: seq<Tmpl>, j: nat, finger: Frgp)
    requires Uniform(refs) && j < |refs| && Remaps(refs[j].frgp, finger)
    ensures HasSelected(refs, finger)
  {
    if !OnlySlaps(refs) {
      assert !IsSlap(refs[j].frgp);
    }
    assert Selects(OnlySlaps(refs), finger, refs[j].frgp);
  }

  /**
   * A two-thumb slap reported as in `search`: with the thumbs the reference
   * keeps its vector; as written, a draw of 0 reports finger 5, and a
   * reference holding only that slap yields no vector.
   */
  lemma {:induction false} ThumbsAsWrittenLoseVector(probe: Tmpl, identifier: string, rng: Rng, at: nat, draw: nat)
    ensures var refs := [Tmpl(identifier, 0, RightAndLeftThumbs, 0)];
      VectorFor(probe, refs, SlapFingerAsWritten(RightAndLeftThumbs, 0), rng, at).0 == None &&
      VectorFor(probe, refs, SlapFinger(RightAndLeftThumbs, draw), rng, at).0.Some?
  {
    var refs := [Tmpl(identifier, 0, RightAndLeftThumbs, 0)];
    assert OnlySlaps(refs);
    assert FirstSelected(refs, true, RightLittle, 1) == 1;
    RemappedFingerSelects(refs, 0, SlapFinger(RightAndLeftThumbs, draw));
  }

  /**
   * The switch as written, end to end: a database of one file holding only
   * a two-thumb slap, and a finger draw that is even. `search` reports the
   * right little finger, and `extractCorrespondence` then gives no vector
   * for the one candidate.
   */
  lemma {:induction false} SearchAsWrittenLosesVector(probe: Tmpl, t: Tmpl, maxCandidates: nat, rng: Rng, at: nat, rng2: Rng, at2: nat)
    requires t.frgp == RightAndLeftThumbs && rng(at + 1) % 2 == 0
    ensures var c := Picks(AsWritten, [[t]], 0, maxCandidates, rng, at).0;
      c == [Candidate(t.candidateIdentifier, RightLittle, rng(at + 2) % SimilarityModulus)] &&
      Correspondences(probe, [[t]], c, 0, rng2, at2).0 == []
  {
    var d := Draw(AsWritten, [t], rng, at);
    PicksStep(AsWritten, [[t]], 0, maxCandidates, rng, at);
    assert Picks(AsWritten, [[t]], 1, maxCandidates, rng, d.1).0 == [];
    assert [d.0] + [] == [d.0];
    assert FirstSelected([t], true, RightLittle, 1) == 1;
  }

  /**
   * A reference that holds a slap and a single finger is not uniform, and
   * even the corrected switch loses its vector: a finger drawn from the
   * right four slap, other than the single finger, selects nothing.
   */
  lemma {:induction false} MixedReferenceLosesVector(probe: Tmpl, identifier: string, rng: Rng, at: nat)
    ensures var refs := [Tmpl(identifier, 0, RightFour, 0), Tmpl(identifier, 1, RightIndex, 0)];
      !Uniform(refs) && SlapFinger(RightFour, 1) == 3 &&
      VectorFor(probe, refs, SlapFinger(RightFour, 1), rng, at).0 == None
  {
    var refs := [Tmpl(identifier, 0, RightFour, 0), Tmpl(identifier, 1, RightIndex, 0)];
    assert !IsSlap(refs[1].frgp) && IsSlap(refs[0].frgp);
    assert FirstSelected(refs, false, 3, 2) == 2;
    assert FirstSelected(refs, false, 3, 1) == 2;
  }

  /** Backed candidates, in any order, get exactly one vector each. */
  lemma {:induction false} BackedCandidatesGetOneVector(probe: Tmpl, refs: seq<seq<Tmpl>>, candidates: seq<Candidate>, rng: Rng, at: nat)
    requires |refs| == |candidates| && forall k :: 0 <= k < |candidates| ==> Backs(refs[k], candidates[k])
    ensures |Correspondences(probe, refs, candidates, 0, rng, at).0| == |candidates|
  {
    forall k | 0 <= k < |candidates|
      ensures HasSelected(refs[k], candidates[k].frgp)
    {
      var j :| 0 <= j < |refs[k]| && Remaps(refs[k][j].frgp, candidates[k].frgp);
      RemappedFingerSelects(refs[k], j, candidates[k].frgp);
    }
    CorrespondenceCount(probe, refs, candidates, 0, rng, at);
  }

  /**
   * A template file where `writeTemplate` puts it (named by its identifier,
   * in the identifier's directory) and whose sub-templates are uniform.
   */
  predicate Filed(fs: FileSystem, dbDir: Path, p: Path)
  {
    p in fs && fs[p].File? && WellFormed(fs[p].bytes) &&
    p == WrittenPath(dbDir, fs[p].bytes) && Uniform(ParseTemplateSpec(fs[p].bytes))
  }

  /** A candidate drawn from a filed template leads back to that same file. */
  lemma {:induction false} DrawnFromFiledIsBacked(fs: FileSystem, dbDir: Path, p: Path, c: Candidate)
    requires Filed(fs, dbDir, p) && DrawnFrom(WithThumbs, c, ParseTemplateSpec(fs[p].bytes))
    ensures Readable(fs, dbDir, c.identifier)
    ensures Backs(ReferenceTemplates(fs, dbDir, c.identifier), c)
  {
    var refs := ParseTemplateSpec(fs[p].bytes);
    TemplatesShareIdentifier(fs[p].bytes);
    var j :| 0 <= j < |refs| && c.identifier == refs[j].candidateIdentifier && Remaps(refs[j].frgp, c.frgp);
    assert ReadPath(dbDir, c.identifier) == p;
  }

  /**
   * On a database whose files are all filed uniform templates, the
   * candidates `search` draws with the corrected switch (`WithThumbs`)
   * get exactly one vector each from
   * `extractCorrespondence`, whatever order they are passed in: the count
   * the validation driver demands.
   */
  lemma {:induction false} SearchThenExtract(fs: FileSystem, dbDir: Path, listing: seq<Path>, maxCandidates: nat, rng: Rng, at: nat,
                          probe: Tmpl, candidates: seq<Candidate>, rng2: Rng, at2: nat)
    requires Lists(fs, dbDir, listing) && forall i :: 0 <= i < |listing| ==> Filed(fs, dbDir, listing[i])
    requires forall k :: 0 <= k < |candidates| ==> candidates[k] in Picks(WithThumbs, Listed(fs, listing), 0, maxCandidates, rng, at).0
    ensures AllReadable(fs, dbDir, candidates)
    ensures |Correspondences(probe, References(fs, dbDir, candidates), candidates, 0, rng2, at2).0| == |candidates|
  {
    forall k | 0 <= k < |candidates|
      ensures Readable(fs, dbDir, candidates[k].identifier)
      ensures Backs(ReferenceTemplates(fs, dbDir, candidates[k].identifier), candidates[k])
    {
      PickedIsBacked(fs, dbDir, listing, maxCandidates, rng, at, candidates[k]);
    }
    BackedCandidatesGetOneVector(probe, References(fs, dbDir, candidates), candidates, rng2, at2);
  }

  /** A candidate `search` reports from such a database is backed by the file it came from. */
  lemma {:induction false} PickedIsBacked(fs: FileSystem, dbDir: Path, listing: seq<Path>, maxCandidates: nat, rng: Rng, at: nat, c: Candidate)
    requires Lists(fs, dbDir, listing) && forall i :: 0 <= i < |listing| ==> Filed(fs, dbDir, listing[i])
    requires c in Picks(WithThumbs, Listed(fs, listing), 0, maxCandidates, rng, at).0
    ensures Readable(fs, dbDir, c.identifier) && Backs(ReferenceTemplates(fs, dbDir, c.identifier), c)
  {
    var files := Listed(fs, listing);
    var m := PickedFrom(WithThumbs, files, maxCandidates, rng, at, c);
    ListedAt(fs, listing, m);
    DrawnFromFiledIsBacked(fs, dbDir, listing[m], c);
  }

  /** A candidate `search` reports was drawn from one of the files. */
  lemma {:induction false} PickedFrom(sw: Switch, files: seq<seq<Tmpl>>, maxCandidates: nat, rng: Rng, at: nat, c: Candidate) returns (m: nat)
    requires forall k :: 0 <= k < |files| ==> files[k] != []
    requires c in Picks(sw, files, 0, maxCandidates, rng, at).0
    ensures m < |files| && DrawnFrom(sw, c, files[m])
  {
    var picks := Picks(sw, files, 0, maxCandidates, rng, at).0;
    PicksProperties(sw, files, 0, maxCandidates, rng, at);
    m :| 0 <= m < |picks| && picks[m] == c;
  }
}
