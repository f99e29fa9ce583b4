/**
 * The random example implementation's template format.
 *
 * A template is the identifier's bytes, a 0 byte, then one record per
 * sample: its input identifier, its finger position code, a size byte and
 * that many filler bytes. The random-number engine is a stream of draws:
 * `rng(k)` is the k-th value it returns from the current state.
 */
module RandTemplate {
  import opened Wrappers
  import opened Elft

  const VersionNumber: uint16 := 0x0001
  const ProductOwner: uint16 := 0x000F
  const LibraryIdentifier := "randimpl"
  const ConfigFileName := "seed"

  /** One record of a template, as `parseTemplate` reads it back. */
  datatype Tmpl = Tmpl(candidateIdentifier: string, inputIdentifier: uint8, frgp: Frgp, size: uint8)

  /** `static_cast<std::byte>(c)`: a `char` keeps its low eight bits. */
  function ByteOfChar(c: char): byte { (c as int) % 0x100 }

  /** A byte the parser reads into the identifier. */
  function CharOfByte(b: byte): char { b as char }

  function IdentifierBytes(identifier: string): (r: seq<byte>)
    ensures |r| == |identifier|
    ensures forall i :: 0 <= i < |r| ==> r[i] == ByteOfChar(identifier[i])
  {
    seq(|identifier|, i requires 0 <= i < |identifier| => ByteOfChar(identifier[i]))
  }

  /** A sample `createTemplate` can encode: it has an image, an EFS or both. */
  predicate HasData(s: Sample) { s.image.Some? || s.efs.Some? }

  /** The record identifier: the image's when there is one, else the EFS's. */
  function InputId(s: Sample): uint8
    requires HasData(s)
  {
    if s.image.Some? then s.image.value.identifier else s.efs.value.identifier
  }

  /** The position code: the EFS's (reduced to a byte), else UnknownFinger. */
  function FrgpByte(s: Sample): byte
  {
    if s.efs.Some? then s.efs.value.frgp % 0x100 else UnknownFinger
  }

  function Zeros(n: nat): (r: seq<byte>)
    ensures |r| == n && forall i :: 0 <= i < n ==> r[i] == 0
  {
    seq(n, _ => 0)
  }

  /** The bytes of one sample's record, whose filler is `size` bytes long. */
  function Record(s: Sample, size: uint8): seq<byte>
    requires HasData(s)
  {
    [InputId(s), FrgpByte(s), size] + Zeros(size)
  }

  /** The records of `samples`, sample `k` with filler length `sizes[k]`. */
  function Records(samples: seq<Sample>, sizes: seq<uint8>): seq<byte>
    requires |sizes| == |samples|
    requires forall k :: 0 <= k < |samples| ==> HasData(samples[k])
  {
    if samples == [] then [] else Record(samples[0], sizes[0]) + Records(samples[1..], sizes[1..])
  }

  /** The filler lengths `createTemplate` draws: `rng() % UINT8_MAX`, one per sample. */
  function Sizes(rng: nat -> nat, n: nat): (r: seq<uint8>)
    ensures |r| == n && forall k :: 0 <= k < n ==> r[k] == rng(k) % 255
  {
    seq(n, (k: int) requires 0 <= k => rng(k) % 255)
  }

  const NoSampleData := "Neither Image nor EFS data was provided."

  /** What `createTemplate` returns for the given draws. */
  function CreateTemplateSpec(identifier: string, samples: seq<Sample>, rng: nat -> nat): CreateTemplateResult
  {
    if forall k :: 0 <= k < |samples| ==> HasData(samples[k]) then
      CreateTemplateResult(DefaultStatus, IdentifierBytes(identifier) + [0] + Records(samples, Sizes(rng, |samples|)))
    else
      CreateTemplateResult(ReturnStatus(Failure, Some(NoSampleData)), [])
  }

  lemma {:induction false} RecordsSnoc(samples: seq<Sample>, sizes: seq<uint8>, s: Sample, size: uint8)
    requires |sizes| == |samples| && HasData(s)
    requires forall k :: 0 <= k < |samples| ==> HasData(samples[k])
    ensures Records(samples + [s], sizes + [size]) == Records(samples, sizes) + Record(s, size)
  {
    if samples != [] {
      assert (samples + [s])[1..] == samples[1..] + [s];
      assert (sizes + [size])[1..] == sizes[1..] + [size];
      RecordsSnoc(samples[1..], sizes[1..], s, size);
    } else {
      assert (samples + [s])[1..] == [];
    }
  }

  /**
   * `createTemplate`: pushes the identifier, its terminator and one record
   * per sample; stops with Failure and no data at the first sample with
   * neither an image nor an EFS.
   */
  method CreateTemplate(identifier: string, samples: seq<Sample>, rng: nat -> nat) returns (r: CreateTemplateResult)
    ensures r == CreateTemplateSpec(identifier, samples, rng)
    ensures r.status.result == Success <==> forall k :: 0 <= k < |samples| ==> HasData(samples[k])
    ensures r.status.result == Failure ==> r.data == []
  {
    var combined := WriteIdentifier(identifier);
    combined := combined + [0];
    ghost var header := combined;
    var k := 0;
    while k < |samples|
      invariant 0 <= k <= |samples|
      invariant forall j :: 0 <= j < k ==> HasData(samples[j])
      invariant combined == header + Records(samples[..k], Sizes(rng, k))
    {
      var sample := samples[k];
      var inputId;
      if sample.image.Some? {
        inputId := sample.image.value.identifier;
      } else if sample.efs.Some? {
        inputId := sample.efs.value.identifier;
      } else {
        return CreateTemplateResult(ReturnStatus(Failure, Some(NoSampleData)), []);
      }
      var position;
      if sample.efs.Some? {
        position := sample.efs.value.frgp % 0x100;
      } else {
        position := UnknownFinger;
      }
      var templateSize: uint8 := rng(k) % 255;
      RecordsStep(header, samples, rng, k);
      assert [inputId, position, templateSize] + Zeros(templateSize) == Record(sample, templateSize);
      combined := combined + [inputId, position, templateSize] + Zeros(templateSize);
      k := k + 1;
    }
    assert samples[..k] == samples;
    return CreateTemplateResult(DefaultStatus, combined);
  }

  /** The first loop of `createTemplate`: the identifier's characters as bytes. */
  method WriteIdentifier(identifier: string) returns (combined: seq<byte>)
    ensures combined == IdentifierBytes(identifier)
  {
    combined := [];
    var i := 0;
    while i < |identifier|
      invariant 0 <= i <= |identifier|
      invariant combined == IdentifierBytes(identifier[..i])
    {
      combined := combined + [ByteOfChar(identifier[i])];
      assert combined == IdentifierBytes(identifier[..i + 1]);
      i := i + 1;
    }
    assert identifier[..i] == identifier;
  }

  /** One more sample, with its draw, adds its record after the ones written so far. */
  lemma {:induction false} RecordsStep(header: seq<byte>, samples: seq<Sample>, rng: nat -> nat, k: nat)
    requires k < |samples| && forall j :: 0 <= j <= k ==> HasData(samples[j])
    ensures header + Records(samples[..k + 1], Sizes(rng, k + 1)) ==
      (header + Records(samples[..k], Sizes(rng, k))) + Record(samples[k], rng(k) % 255)
  {
    RecordsSnoc(samples[..k], Sizes(rng, k), samples[k], rng(k) % 255);
    assert samples[..k + 1] == samples[..k] + [samples[k]];
    assert Sizes(rng, k + 1) == Sizes(rng, k) + [rng(k) % 255];
  }

  // ---- parseTemplate ----

  /** Where the identifier ends: the first 0 byte at or after `from`, or the end. */
  function TerminatorFrom(data: seq<byte>, from: nat): (e: nat)
    requires from <= |data|
    ensures from <= e <= |data|
    ensures e < |data| ==> data[e] == 0
    ensures forall i :: from <= i < e ==> data[i] != 0
    decreases |data| - from
  {
    if from == |data| || data[from] == 0 then from else TerminatorFrom(data, from + 1)
  }

  function Terminator(data: seq<byte>): nat { TerminatorFrom(data, 0) }

  function IdentifierOf(bytes: seq<byte>): (s: string)
    ensures |s| == |bytes| && forall i :: 0 <= i < |s| ==> s[i] == CharOfByte(bytes[i])
  {
    seq(|bytes|, i requires 0 <= i < |bytes| => CharOfByte(bytes[i]))
  }

  /**
   * The records from `p` on can be walked without leaving the data: each
   * has its three header bytes and its filler, and the last ends exactly at
   * the end (the do-while stops only when the position equals the end).
   */
  predicate RecordsFrom(data: seq<byte>, p: nat)
    decreases |data| - p
  {
    p + 3 <= |data| &&
    var q := p + 3 + data[p + 2];
    q <= |data| && (q == |data| || RecordsFrom(data, q))
  }

  /** Data `parseTemplate` reads without running past the end. */
  predicate WellFormed(data: seq<byte>)
  {
    Terminator(data) < |data| && RecordsFrom(data, Terminator(data) + 1)
  }

  function ParseFrom(data: seq<byte>, identifier: string, p: nat): (r: seq<Tmpl>)
    requires RecordsFrom(data, p)
    ensures |r| >= 1
    decreases |data| - p
  {
    var q := p + 3 + data[p + 2];
    [Tmpl(identifier, data[p], data[p + 1], data[p + 2])] + (if q == |data| then [] else ParseFrom(data, identifier, q))
  }

  /** What `parseTemplate` returns for well-formed data. */
  function ParseTemplateSpec(data: seq<byte>): (r: seq<Tmpl>)
    requires WellFormed(data)
    ensures |r| >= 1
  {
    ParseFrom(data, IdentifierOf(data[..Terminator(data)]), Terminator(data) + 1)
  }

  /**
   * `parseTemplate`: reads the identifier up to its terminator, then walks
   * the records in a do-while loop until the position reaches the end. The
   * source does no bounds checks; the model asks for well-formed data.
   */
  method ParseTemplate(data: seq<byte>) returns (templates: seq<Tmpl>)
    requires WellFormed(data)
    ensures templates == ParseTemplateSpec(data)
  {
    var identifier, it := ReadIdentifier(data);
    templates := ReadRecords(data, identifier, it + 1);
  }

  /** The first loop of `parseTemplate`: the characters before the terminator. */
  method ReadIdentifier(data: seq<byte>) returns (identifier: string, it: nat)
    ensures it == Terminator(data)
    ensures identifier == IdentifierOf(data[..it])
  {
    identifier := "";
    it := 0;
    while it != |data| && data[it] != 0
      invariant 0 <= it <= Terminator(data)
      invariant identifier == IdentifierOf(data[..it])
      decreases |data| - it
    {
      identifier := identifier + [CharOfByte(data[it])];
      it := it + 1;
      assert identifier == IdentifierOf(data[..it]);
    }
  }

  /** The records from `p` on, or none once `p` is the end. */
  function RestFrom(data: seq<byte>, identifier: string, p: nat): seq<Tmpl>
    requires p == |data| || RecordsFrom(data, p)
  {
    if p == |data| then [] else ParseFrom(data, identifier, p)
  }

  /** The do-while loop of `parseTemplate`: one record per turn, until the end. */
  method ReadRecords(data: seq<byte>, identifier: string, start: nat) returns (templates: seq<Tmpl>)
    requires RecordsFrom(data, start)
    ensures templates == ParseFrom(data, identifier, start)
  {
    templates := [];
    var it := start;
    // The do-while's body runs at least once; here the test is true on entry.
    while it != |data|
      invariant start <= it <= |data|
      invariant it == |data| || RecordsFrom(data, it)
      invariant templates + RestFrom(data, identifier, it) == ParseFrom(data, identifier, start)
      decreases |data| - it
    {
      ReadStep(data, identifier, start, templates, it);
      var t := Tmpl(identifier, data[it], data[it + 1], data[it + 2]);
      var next := it + 3 + t.size;
      templates := templates + [t];
      it := next;
    }
    assert templates + [] == templates;
  }

  /** A turn of the do-while loop keeps the records read so far followed by the rest equal to all of them. */
  lemma {:induction false} ReadStep(data: seq<byte>, identifier: string, start: nat, templates: seq<Tmpl>, it: nat)
    requires RecordsFrom(data, start) && RecordsFrom(data, it)
    requires templates + RestFrom(data, identifier, it) == ParseFrom(data, identifier, start)
    ensures it + 3 <= |data|
    ensures var next := it + 3 + data[it + 2];
      it < next <= |data| && (next == |data| || RecordsFrom(data, next)) &&
      (templates + [Tmpl(identifier, data[it], data[it + 1], data[it + 2])]) + RestFrom(data, identifier, next) ==
        ParseFrom(data, identifier, start)
  {
    ParseStep(data, identifier, it);
    var t := Tmpl(identifier, data[it], data[it + 1], data[it + 2]);
    var rest := RestFrom(data, identifier, it + 3 + data[it + 2]);
    assert (templates + [t]) + rest == templates + ([t] + rest);
  }

  /** One turn of the do-while loop: the record at `p`, then the ones after it. */
  lemma {:induction false} ParseStep(data: seq<byte>, identifier: string, p: nat)
    requires RecordsFrom(data, p)
    ensures p + 3 <= |data|
    ensures var q := p + 3 + data[p + 2];
      q <= |data| && (q == |data| || RecordsFrom(data, q)) &&
      ParseFrom(data, identifier, p) == [Tmpl(identifier, data[p], data[p + 1], data[p + 2])] + RestFrom(data, identifier, q)
  {
  }

  /** The record `createTemplate` writes for a sample, as the parser reads it back. */
  function ExpectedTmpl(identifier: string, s: Sample, size: uint8): Tmpl
    requires HasData(s)
  {
    Tmpl(identifier, InputId(s), FrgpByte(s), size)
  }

  /** The records of `samples`, in order, as the parser should read them back. */
  function ExpectedTmpls(identifier: string, samples: seq<Sample>, sizes: seq<uint8>): seq<Tmpl>
    requires |sizes| == |samples| && forall k :: 0 <= k < |samples| ==> HasData(samples[k])
  {
    seq(|samples|, k requires 0 <= k < |samples| => ExpectedTmpl(identifier, samples[k], sizes[k]))
  }

  /** The three header bytes of a record, wherever it sits, and where its filler ends. */
  lemma {:induction false} RecordHeader(prefix: seq<byte>, s: Sample, size: uint8, rest: seq<byte>)
    requires HasData(s)
    ensures var data := prefix + Record(s, size) + rest; var p := |prefix|;
      p + 3 <= |data| && data[p] == InputId(s) && data[p + 1] == FrgpByte(s) && data[p + 2] == size &&
      |prefix + Record(s, size)| == p + 3 + size
  {
  }

  lemma {:induction false} ParseRecords(prefix: seq<byte>, samples: seq<Sample>, sizes: seq<uint8>, identifier: string)
    requires |sizes| == |samples| && |samples| >= 1
    requires forall k :: 0 <= k < |samples| ==> HasData(samples[k])
    ensures RecordsFrom(prefix + Records(samples, sizes), |prefix|)
    ensures ParseFrom(prefix + Records(samples, sizes), identifier, |prefix|) == ExpectedTmpls(identifier, samples, sizes)
    decreases |samples|
  {
    if |samples| == 1 {
      ParseRecordsOne(prefix, samples, sizes, identifier);
    } else {
      ParseRecords(prefix + Record(samples[0], sizes[0]), samples[1..], sizes[1..], identifier);
      ParseRecordsCons(prefix, samples, sizes, identifier);
    }
  }

  /** A single record parses to its expected template. */
  lemma {:induction false} ParseRecordsOne(prefix: seq<byte>, samples: seq<Sample>, sizes: seq<uint8>, identifier: string)
    requires |sizes| == |samples| == 1 && HasData(samples[0])
    ensures RecordsFrom(prefix + Records(samples, sizes), |prefix|)
    ensures ParseFrom(prefix + Records(samples, sizes), identifier, |prefix|) == ExpectedTmpls(identifier, samples, sizes)
  {
    var data := prefix + Records(samples, sizes);
    var rest := Records(samples[1..], sizes[1..]);
    assert rest == [];
    assert data == prefix + Record(samples[0], sizes[0]) + rest;
    RecordHeader(prefix, samples[0], sizes[0], rest);
    ParseAt(data, identifier, |prefix|);
  }

  /** The first record, then the records after it as the induction hypothesis reads them. */
  lemma {:induction false} ParseRecordsCons(prefix: seq<byte>, samples: seq<Sample>, sizes: seq<uint8>, identifier: string)
    requires |sizes| == |samples| && |samples| >= 2
    requires forall k :: 0 <= k < |samples| ==> HasData(samples[k])
    requires var front := prefix + Record(samples[0], sizes[0]);
      var tail := front + Records(samples[1..], sizes[1..]);
      RecordsFrom(tail, |front|) &&
      ParseFrom(tail, identifier, |front|) == ExpectedTmpls(identifier, samples[1..], sizes[1..])
    ensures RecordsFrom(prefix + Records(samples, sizes), |prefix|)
    ensures ParseFrom(prefix + Records(samples, sizes), identifier, |prefix|) == ExpectedTmpls(identifier, samples, sizes)
  {
    var record := Record(samples[0], sizes[0]);
    var rest := Records(samples[1..], sizes[1..]);
    assert Records(samples, sizes) == record + rest;
    ConcatAssoc(prefix, record, rest);
    assert rest != [] by {
      assert |Record(samples[1], sizes[1])| >= 3 && samples[1..][0] == samples[1];
    }
    ParseFirst(prefix, record, rest, identifier, ExpectedTmpls(identifier, samples[1..], sizes[1..]));
    ExpectedCons(identifier, samples, sizes);
  }

  lemma {:induction false} ConcatAssoc(a: seq<byte>, b: seq<byte>, c: seq<byte>)
    ensures a + (b + c) == a + b + c
  {
  }

  /** Records after a prefix: the first one, then what the records after it parse to. */
  lemma {:induction false} ParseFirst(prefix: seq<byte>, record: seq<byte>, rest: seq<byte>, identifier: string, more: seq<Tmpl>)
    requires |record| >= 3 && |record| == 3 + record[2] as int
    requires rest != [] && RecordsFrom(prefix + record + rest, |prefix + record|)
    requires ParseFrom(prefix + record + rest, identifier, |prefix + record|) == more
    ensures RecordsFrom(prefix + record + rest, |prefix|)
    ensures ParseFrom(prefix + record + rest, identifier, |prefix|) == [Tmpl(identifier, record[0], record[1], record[2])] + more
  {
    var data := prefix + record + rest;
    var p := |prefix|;
    assert data[p] == record[0] && data[p + 1] == record[1] && data[p + 2] == record[2];
    ParseAt(data, identifier, p);
  }

  lemma {:induction false} ExpectedCons(identifier: string, samples: seq<Sample>, sizes: seq<uint8>)
    requires |sizes| == |samples| && |samples| >= 1
    requires forall k :: 0 <= k < |samples| ==> HasData(samples[k])
    ensures ExpectedTmpls(identifier, samples, sizes) ==
      [ExpectedTmpl(identifier, samples[0], sizes[0])] + ExpectedTmpls(identifier, samples[1..], sizes[1..])
  {
    var expected := ExpectedTmpls(identifier, samples, sizes);
    assert expected == [expected[0]] + ExpectedTmpls(identifier, samples[1..], sizes[1..]);
  }

  /** A record that fits, followed by the end or by records that fit, is read first. */
  lemma {:induction false} ParseAt(data: seq<byte>, identifier: string, p: nat)
    requires p + 3 <= |data|
    requires var q := p + 3 + data[p + 2]; q <= |data| && (q == |data| || RecordsFrom(data, q))
    ensures RecordsFrom(data, p)
    ensures ParseFrom(data, identifier, p) ==
      [Tmpl(identifier, data[p], data[p + 1], data[p + 2])] + RestFrom(data, identifier, p + 3 + data[p + 2])
  {
  }

  lemma {:induction false} IdentifierBytesBack(identifier: string)
    requires forall i :: 0 <= i < |identifier| ==> 0 < identifier[i] as int < 0x100
    ensures IdentifierOf(IdentifierBytes(identifier)) == identifier
  {
    var back := IdentifierOf(IdentifierBytes(identifier));
    forall i | 0 <= i < |identifier|
      ensures back[i] == identifier[i]
    {
      var b := IdentifierBytes(identifier)[i];
      assert b == ByteOfChar(identifier[i]) == identifier[i] as int;
    }
  }

  /**
   * Round trip: a successful `createTemplate` for an identifier of byte
   * characters without a NUL and at least one sample gives data that
   * `parseTemplate` reads back as one record per sample, in order, with the
   * identifier, the input identifier, the position code and the drawn size.
   */
  lemma {:induction false} CreateThenParse(identifier: string, samples: seq<Sample>, rng: nat -> nat)
    requires forall i :: 0 <= i < |identifier| ==> 0 < identifier[i] as int < 0x100
    requires |samples| >= 1 && forall k :: 0 <= k < |samples| ==> HasData(samples[k])
    ensures var data := CreateTemplateSpec(identifier, samples, rng).data;
      WellFormed(data) &&
      ParseTemplateSpec(data) ==
        seq(|samples|, k requires 0 <= k < |samples| => ExpectedTmpl(identifier, samples[k], rng(k) % 255))
  {
    var sizes := Sizes(rng, |samples|);
    var idBytes := IdentifierBytes(identifier);
    var data := CreateTemplateSpec(identifier, samples, rng).data;
    assert data == (idBytes + [0]) + Records(samples, sizes);
    TerminatorAt(data, |idBytes|);
    ParseRecords(idBytes + [0], samples, sizes, identifier);
    assert ExpectedTmpls(identifier, samples, sizes) ==
      seq(|samples|, k requires 0 <= k < |samples| => ExpectedTmpl(identifier, samples[k], rng(k) % 255));
    assert data[..|idBytes|] == idBytes;
    IdentifierBytesBack(identifier);
  }

  lemma {:induction false} TerminatorAt(data: seq<byte>, e: nat)
    requires e < |data| && data[e] == 0 && forall i :: 0 <= i < e ==> data[i] != 0
    ensures Terminator(data) == e
  {
    var t := Terminator(data);
    if t < e {
      assert data[t] == 0;
    }
  }

  // ---- where templates live in the reference database ----

  /** A file-system path, as its components. */
  type Path = seq<string>

  /**
   * `getDirectoryForIdentifier`: the identifier itself when it has at most
   * eight characters, otherwise four directories named by its first eight
   * characters, two at a time.
   */
  function DirectoryForIdentifier(identifier: string): Path
  {
    if |identifier| <= 8 then [identifier]
    else [identifier[0..2], identifier[2..4], identifier[4..6], identifier[6..8]]
  }

  function Concat(p: Path): string
  {
    if p == [] then "" else p[0] + Concat(p[1..])
  }

  /**
   * The directory names spell the start of the identifier: all of it when it
   * is short, its first eight characters in two-character steps otherwise.
   */
  lemma {:induction false} DirectoryForIdentifierSpells(identifier: string)
    ensures var d := DirectoryForIdentifier(identifier);
      (|identifier| <= 8 ==> d == [identifier] && Concat(d) == identifier) &&
      (|identifier| > 8 ==> |d| == 4 && (forall i :: 0 <= i < 4 ==> |d[i]| == 2) && Concat(d) == identifier[..8])
  {
    var d := DirectoryForIdentifier(identifier);
    if |identifier| > 8 {
      assert Concat(d[3..]) == d[3];
      assert Concat(d[2..]) == d[2] + d[3];
      assert Concat(d[1..]) == d[1] + d[2] + d[3];
    } else {
      assert Concat(d[1..]) == "";
    }
  }

  /** `getDirectoryForTemplate`: the directory of the first record's identifier. */
  function DirectoryForTemplate(data: seq<byte>): Path
    requires WellFormed(data)
  {
    DirectoryForIdentifier(ParseTemplateSpec(data)[0].candidateIdentifier)
  }

  /** Where `writeTemplate` puts a template under the database directory. */
  function WrittenPath(dbDir: Path, data: seq<byte>): Path
    requires WellFormed(data)
  {
    var identifier := ParseTemplateSpec(data)[0].candidateIdentifier;
    dbDir + DirectoryForIdentifier(identifier) + [identifier]
  }

  /** Where `extractCorrespondence` looks for a candidate's reference template. */
  function ReadPath(dbDir: Path, candidateIdentifier: string): Path
  {
    dbDir + DirectoryForIdentifier(candidateIdentifier) + [candidateIdentifier]
  }

  /**
   * The database build and the search agree on where a template lives: a
   * template created for `identifier` is written exactly where the search
   * looks for a candidate of that identifier, and nowhere a different
   * identifier is looked for.
   */
  lemma {:induction false} WriterAndReaderAgree(dbDir: Path, identifier: string, samples: seq<Sample>, rng: nat -> nat, other: string)
    requires forall i :: 0 <= i < |identifier| ==> 0 < identifier[i] as int < 0x100
    requires |samples| >= 1 && forall k :: 0 <= k < |samples| ==> HasData(samples[k])
    ensures var data := CreateTemplateSpec(identifier, samples, rng).data;
      WellFormed(data) &&
      WrittenPath(dbDir, data) == ReadPath(dbDir, identifier) &&
      (other != identifier ==> WrittenPath(dbDir, data) != ReadPath(dbDir, other))
  {
    CreateThenParse(identifier, samples, rng);
    var data := CreateTemplateSpec(identifier, samples, rng).data;
    var a := ReadPath(dbDir, identifier);
    var b := ReadPath(dbDir, other);
    assert a[|a| - 1] == identifier;
    assert b[|b| - 1] == other;
  }
}
