/**
 * The rows the validation driver writes to its CSV logs, one builder per
 * operation, and the promise every log makes: each row has as many fields
 * as the log's header. Elapsed times are the integers `duration` prints;
 * the clock itself is a parameter.
 */
module ResultLog {
  import opened Wrappers
  import opened Text
  import opened Elft
  import opened Libelft
  import opened Csv
  import opened ValidationUtils
  import opened Ranking
  import opened ElftOutput
  import opened LogCells

  // ---- Headers ----

  /** The characters of the header names: lower-case letters and the underscore. */
  type NameChar = c: char | 'a' <= c <= 'z' || c == '_' witness 'a'

  /** A header column: its name, and whether the header puts it between quotes. */
  datatype Column = Column(name: seq<NameChar>, quoted: bool)

  function ColumnText(c: Column): string { if c.quoted then Quote(c.name) else c.name }

  /** The header line: the column texts separated by commas. */
  function HeaderLine(columns: seq<Column>): string
  {
    Join(seq(|columns|, k requires 0 <= k < |columns| => ColumnText(columns[k])), ",")
  }

  /** Every column of a header is one field. */
  lemma {:induction false} HeaderFields(columns: seq<Column>)
    requires columns != []
    ensures FieldCount(HeaderLine(columns)) == |columns|
  {
    var cells := seq(|columns|, k requires 0 <= k < |columns| => ColumnText(columns[k]));
    forall k | 0 <= k < |cells| ensures Cell(cells[k]) {
      InertCells(columns[k].name);
    }
    JoinedCells(cells);
  }

  const CreateHeader := [Column("identifier", true), Column("elapsed", false), Column("result", false),
    Column("message", true), Column("type", false), Column("num_images", false), Column("size", false)]

  const ExtractDataHeader := [Column("template_filename", true), Column("elapsed", false), Column("type", false),
    Column("index", false), Column("num_templates_in_buffer", false), Column("image_identifier", false),
    Column("quality", false), Column("imp", false), Column("frct", false), Column("frgp", false),
    Column("orientation", false), Column("lpm", false), Column("value_assessment", false), Column("lsb", false),
    Column("pat", false), Column("plr", false), Column("trv", false), Column("cores", true), Column("deltas", true),
    Column("minutia", true), Column("roi", true)]

  const CandidateHeader := [Column("identifier", true), Column("max_candidates", false), Column("elapsed", false),
    Column("result", false), Column("message", true), Column("decision", false), Column("num_candidates", false),
    Column("rank", false), Column("candidate_identifier", true), Column("candidate_frgp", false),
    Column("candidate_similarity", false)]

  const CorrespondenceHeader := [Column("probe_identifier", true), Column("num_candidates", false),
    Column("elapsed", false), Column("rank", false), Column("correspondence_index", false), Column("ref_id", true),
    Column("ref_input_id", false), Column("ref_x", false), Column("ref_y", false), Column("ref_theta", false),
    Column("ref_type", false), Column("probe_input_id", false), Column("probe_x", false), Column("probe_y", false),
    Column("probe_theta", false), Column("probe_type", false)]

  const DatabaseHeader := [Column("elapsed", false), Column("result", false), Column("message", true),
    Column("max_size", false)]

  /**
   * The header widths: 7 fields in the creation log, 21 in the
   * extract-data log, 11 in the candidate log, 16 in the correspondence
   * log and 4 in the reference-database log.
   */
  lemma {:induction false} HeaderWidths()
    ensures FieldCount(HeaderLine(CreateHeader)) == 7
    ensures FieldCount(HeaderLine(ExtractDataHeader)) == 21
    ensures FieldCount(HeaderLine(CandidateHeader)) == 11
    ensures FieldCount(HeaderLine(CorrespondenceHeader)) == 16
    ensures FieldCount(HeaderLine(DatabaseHeader)) == 4
  {
    HeaderFields(CreateHeader);
    HeaderFields(ExtractDataHeader);
    HeaderFields(CandidateHeader);
    HeaderFields(CorrespondenceHeader);
    HeaderFields(DatabaseHeader);
  }

  /** `sanitizeMessage(rs.message ? *rs.message : "")` with both defaults on. */
  function MessageCell(status: ReturnStatus): string
  {
    Sanitized(MessageText(status.message), true, true)
  }

  /** A message the log can hold as one field: sanitizing escapes quotes but not backslashes. */
  predicate Loggable(status: ReturnStatus)
  {
    forall i :: 0 <= i < |MessageText(status.message)| ==> MessageText(status.message)[i] != '\\'
  }

  lemma {:induction false} NumbersAreCells(i: int)
    ensures Cell(IntToString(i)) && Cell(NA) && OneLine(IntToString(i)) && OneLine(NA)
  {
    NumberInert(i);
    InertCells(IntToString(i));
    InertCells(NA);
  }

  lemma {:induction false} EscapeQuotesOneLine(s: string)
    requires OneLine(s)
    ensures OneLine(EscapeQuotes(s))
  {
    if s != [] {
      EscapeQuotesOneLine(s[1..]);
      var a, b := if s[0] == '"' then "\\\"" else [s[0]], EscapeQuotes(s[1..]);
      assert forall i :: |a| <= i < |a + b| ==> (a + b)[i] == b[i - |a|];
    }
  }

  /**
   * The message cell is always on one line, since sanitizing blanks every
   * line break; it is one field when the message holds no backslash.
   */
  lemma {:induction false} MessageCellIsCell(status: ReturnStatus)
    ensures OneLine(MessageCell(status))
    ensures Loggable(status) ==> Cell(MessageCell(status))
  {
    var m := MessageText(status.message);
    SanitizedField(m);
    if m != [] {
      EscapeQuotesOneLine(Cleaned(m));
    }
  }

  // ---- Template creation (performSingleCreate) ----

  /**
   * The dataset's description of one image of an image set, every member
   * optional, as `performSingleCreate` reads it.
   */
  datatype ImageMetadata = ImageMetadata(
    filename: Option<string>,
    width: Option<uint16>,
    height: Option<uint16>,
    ppi: Option<uint16>,
    bpc: Option<uint8>,
    bpp: Option<uint8>,
    efs: Option<Efs>)

  predicate Described(md: ImageMetadata)
  {
    md.width.Some? && md.height.Some? && md.ppi.Some? && md.bpc.Some? && md.bpp.Some?
  }

  /** `(bpp / 8) * width * height`: the number of bytes the image file must hold. */
  function ExpectedSize(md: ImageMetadata): nat
    requires Described(md)
  {
    (md.bpp.value / 8) * md.width.value * md.height.value
  }

  /**
   * The sample made from the `i`-th metadata entry of image set
   * `imageIndex`, or the exception the checks throw; `readFile` gives the
   * bytes of a named image file.
   */
  function SampleFor(md: ImageMetadata, i: nat, imageIndex: nat, readFile: string -> seq<byte>): Outcome<Sample>
  {
    if md.filename.None? && md.efs.None? then
      Raised("No filename or EFS data provided for imageIndex = " + IntToString(imageIndex))
    else if md.filename.None? then
      Ok(Sample(None, md.efs))
    else if !Described(md) then
      Raised("Missing image metadata for imageIndex = " + IntToString(imageIndex))
    else if md.efs.Some? && md.efs.value.identifier != i then
      Raised("ID != for Image and EFS for imageIndex = " + IntToString(imageIndex))
    else if |readFile(md.filename.value)| != ExpectedSize(md) then
      Raised("Did not read image correctly for imageIndex = " + IntToString(imageIndex) + " (expected " +
        IntToString(ExpectedSize(md)) + ", read " + IntToString(|readFile(md.filename.value)|) + ")")
    else
      Ok(Sample(Some(Image(i % 256, md.width.value, md.height.value, md.ppi.value, md.bpc.value, md.bpp.value,
        readFile(md.filename.value))), md.efs))
  }

  function SampleOutcomes(mds: seq<ImageMetadata>, imageIndex: nat, readFile: string -> seq<byte>): seq<Outcome<Sample>>
  {
    seq(|mds|, i requires 0 <= i < |mds| => SampleFor(mds[i], i, imageIndex, readFile))
  }

  /** The samples of an image set, or the exception for its first faulty entry. */
  function Samples(mds: seq<ImageMetadata>, imageIndex: nat, readFile: string -> seq<byte>): Outcome<seq<Sample>>
  {
    Collect(SampleOutcomes(mds, imageIndex, readFile))
  }

  /** The loop of `performSingleCreate` that checks the metadata and builds the samples. */
  method PrepareSamples(mds: seq<ImageMetadata>, imageIndex: nat, readFile: string -> seq<byte>)
    returns (r: Outcome<seq<Sample>>)
    ensures r == Samples(mds, imageIndex, readFile)
  {
    ghost var os := SampleOutcomes(mds, imageIndex, readFile);
    var samples: seq<Sample> := [];
    var i := 0;
    while i < |mds|
      invariant 0 <= i <= |mds|
      invariant |samples| == i
      invariant forall k :: 0 <= k < i ==> os[k] == Ok(samples[k])
    {
      var s := SampleFor(mds[i], i, imageIndex, readFile);
      assert s == os[i];
      if s.Raised? {
        CollectFirstRaised(os, i);
        return Raised(s.what);
      }
      samples := samples + [s.value];
      i := i + 1;
    }
    CollectAllOk(os, samples);
    r := Ok(samples);
  }

  /**
   * What the checks guarantee of one sample: it has an image or an EFS; an
   * image carries the entry's index narrowed to 8 bits and exactly the
   * promised number of bytes; an EFS given with an image carries the
   * image's identifier.
   */
  predicate Checked(s: Sample, md: ImageMetadata, i: nat)
  {
    (s.image.Some? || s.efs.Some?) &&
    (s.image.Some? ==>
      Described(md) && s.image.value.identifier == i % 256 && |s.image.value.pixels| == ExpectedSize(md)) &&
    (s.image.Some? && s.efs.Some? ==> s.efs.value.identifier == s.image.value.identifier)
  }

  lemma {:induction false} SampleChecked(md: ImageMetadata, i: nat, imageIndex: nat, readFile: string -> seq<byte>)
    requires SampleFor(md, i, imageIndex, readFile).Ok?
    ensures Checked(SampleFor(md, i, imageIndex, readFile).value, md, i)
  {
  }

  /** Every sample given to `createTemplate` passed the checks, one per metadata entry. */
  lemma {:induction false} SamplesChecked(mds: seq<ImageMetadata>, imageIndex: nat, readFile: string -> seq<byte>)
    requires Samples(mds, imageIndex, readFile).Ok?
    ensures |Samples(mds, imageIndex, readFile).value| == |mds|
    ensures forall k :: 0 <= k < |mds| ==> Checked(Samples(mds, imageIndex, readFile).value[k], mds[k], k)
  {
    var os := SampleOutcomes(mds, imageIndex, readFile);
    forall k | 0 <= k < |mds| ensures Checked(Samples(mds, imageIndex, readFile).value[k], mds[k], k) {
      assert os[k].Ok?;
      SampleChecked(mds[k], k, imageIndex, readFile);
    }
  }

  /** The cells of a creation row. */
  function CreateCells(identifier: string, elapsed: int, templateType: TemplateType, numSamples: nat,
                       rv: CreateTemplateResult): seq<string>
  {
    [Quote(identifier), IntToString(elapsed), IntToString(rv.status.result), MessageCell(rv.status),
     IntToString(templateType), IntToString(numSamples),
     if rv.status.result == Success then IntToString(|rv.data|) else NA]
  }

  function CreateRow(identifier: string, elapsed: int, templateType: TemplateType, numSamples: nat,
                     rv: CreateTemplateResult): string
  {
    Join(CreateCells(identifier, elapsed, templateType, numSamples, rv), ",")
  }

  /**
   * `performSingleCreate`: the row it logs and the template file it writes,
   * or the exception of the sample checks, raised before the
   * implementation is called and before anything is written. The
   * implementation's `createTemplate` is the parameter `create`.
   */
  method PerformCreate(identifier: string, mds: seq<ImageMetadata>, imageIndex: nat, templateType: TemplateType,
                       readFile: string -> seq<byte>, create: seq<Sample> -> CreateTemplateResult, elapsed: int)
    returns (row: Outcome<string>, written: Option<seq<byte>>)
    ensures row.Raised? <==> Samples(mds, imageIndex, readFile).Raised?
    ensures row.Raised? ==> row.what == Samples(mds, imageIndex, readFile).what && written.None?
    ensures row.Ok? ==>
      row.value == CreateRow(identifier, elapsed, templateType, |mds|, create(Samples(mds, imageIndex, readFile).value))
    ensures row.Ok? && create(Samples(mds, imageIndex, readFile).value).status.result == Success ==>
      written == Some(create(Samples(mds, imageIndex, readFile).value).data)
    ensures row.Ok? && create(Samples(mds, imageIndex, readFile).value).status.result != Success ==>
      written == Some([])
  {
    var samples := PrepareSamples(mds, imageIndex, readFile);
    if samples.Raised? {
      return Raised(samples.what), None;
    }
    SamplesChecked(mds, imageIndex, readFile);
    var rv := create(samples.value);
    if rv.status.result == Success {
      written := Some(rv.data);
    } else {
      written := Some([]);
    }
    row := Ok(CreateRow(identifier, elapsed, templateType, |samples.value|, rv));
  }

  /**
   * A creation row has the header's 7 fields, as long as the identifier
   * holds no character the layout gives meaning to and the message holds
   * no backslash; its last field is the template size exactly on success.
   */
  lemma {:induction false} CreateRowWidth(identifier: string, elapsed: int, templateType: TemplateType, numSamples: nat,
                       rv: CreateTemplateResult)
    requires Inert(identifier) && Loggable(rv.status)
    ensures FieldCount(CreateRow(identifier, elapsed, templateType, numSamples, rv)) == |CreateHeader|
    ensures OneLine(CreateRow(identifier, elapsed, templateType, numSamples, rv))
    ensures (CreateCells(identifier, elapsed, templateType, numSamples, rv)[6] == NA) <==> rv.status.result != Success
  {
    var cells := CreateCells(identifier, elapsed, templateType, numSamples, rv);
    InertCells(identifier);
    NumbersAreCells(elapsed);
    NumbersAreCells(rv.status.result);
    NumbersAreCells(templateType);
    NumbersAreCells(numSamples);
    NumbersAreCells(|rv.data|);
    MessageCellIsCell(rv.status);
    NaIsNotANumber(|rv.data|, false);
    RowOfCells(cells);
  }

  // ---- Extracted template data (performSingleExtractData) ----

  function Number(i: int): string { IntToString(i) }

  lemma {:induction false} NumberField(i: int)
    ensures Field(Number(i)) && Field(NA)
  {
    NumberInert(i);
    InertCells(Number(i));
    InertCells(NA);
  }

  lemma {:induction false} NasFields(n: nat)
    ensures Fields(Repeat(NA, n))
  {
    NumberField(0);
  }

  /**
   * `logLinePrefix + splice(std::vector<std::string>(n, NA), ",")`: the row
   * of a failed operation, its prefix followed by `n` `NA`s.
   */
  method NaRow(prefixCells: seq<string>, n: nat) returns (row: string)
    requires prefixCells != [] && n >= 1
    ensures row == Join(prefixCells + Repeat(NA, n), ",")
  {
    var nas := Repeat(NA, n);
    var naFull := Splice(nas, s => s, ",");
    assert Rendered(nas, s => s) == nas;
    SpliceOfNas(n);
    JoinConcat(prefixCells, nas, ",");
    row := Join(prefixCells, ",") + "," + naFull.value;
  }

  /** The cells of `'"' + filename + "\"," + duration + ',' + e2i2s(templateType)`. */
  function ExtractDataPrefix(fileName: string, elapsed: int, templateType: TemplateType): seq<string>
  {
    [Quote(fileName), Number(elapsed), Number(templateType)]
  }

  /** `imp`, `frct`, `frgp` and the orientation or `NA`. */
  function EfsHead(efs: Efs): seq<string>
  {
    [Number(efs.imp), Number(efs.frct), Number(efs.frgp),
     if efs.orientation.Some? then Number(efs.orientation.value) else NA]
  }

  /** The value assessment, `lsb`, `pat`, `plr` and `trv`, each or `NA`. */
  function EfsFlags(efs: Efs): seq<string>
  {
    [if efs.valueAssessment.Some? then Number(efs.valueAssessment.value) else NA,
     if efs.lsb.Some? then Number(efs.lsb.value) else NA,
     if efs.pat.Some? then Number(efs.pat.value) else NA,
     if efs.plr.Some? then BoolText(efs.plr.value) else NA,
     if efs.trv.Some? then BoolText(efs.trv.value) else NA]
  }

  /** The quoted splices of the cores, deltas, minutiae and region of interest, left to right. */
  function EfsVectors(efs: Efs): Outcome<seq<string>>
  {
    Collect([SpliceCell(efs.cores, CoreField, true), SpliceCell(efs.deltas, DeltaField, true),
             SpliceCell(efs.minutiae, MinutiaField, true), SpliceCell(efs.roi, CoordinateField, true)])
  }

  /** The 14 EFS cells of a row, or the exception of the first empty vector. */
  function EfsCells(efs: Efs): Outcome<seq<string>>
  {
    if SpliceCell(efs.lpm, Number, false).Raised? then Raised(SpliceCell(efs.lpm, Number, false).what)
    else if EfsVectors(efs).Raised? then Raised(EfsVectors(efs).what)
    else Ok(EfsHead(efs) + [SpliceCell(efs.lpm, Number, false).value] + EfsFlags(efs) + EfsVectors(efs).value)
  }

  /** The index, the count, the input identifier and the quality or `NA`. */
  function DataHead(i: nat, n: nat, td: TemplateData): seq<string>
  {
    [Number(i), Number(n), Number(td.inputIdentifier),
     if td.imageQuality.Some? then Number(td.imageQuality.value) else NA]
  }

  /** The cells after the prefix for the `i`-th of `n` template data: 4, then 14 `NA`s or the EFS cells. */
  function DataCells(i: nat, n: nat, td: TemplateData): Outcome<seq<string>>
  {
    if td.efs.None? then Ok(DataHead(i, n, td) + Repeat(NA, 14))
    else if EfsCells(td.efs.value).Raised? then Raised(EfsCells(td.efs.value).what)
    else Ok(DataHead(i, n, td) + EfsCells(td.efs.value).value)
  }

  function DataRow(prefix: seq<string>, i: nat, n: nat, td: TemplateData): Outcome<string>
  {
    if DataCells(i, n, td).Raised? then Raised(DataCells(i, n, td).what)
    else Ok(Join(prefix + DataCells(i, n, td).value, ","))
  }

  function DataRows(prefix: seq<string>, data: seq<TemplateData>): seq<Outcome<string>>
  {
    seq(|data|, i requires 0 <= i < |data| => DataRow(prefix, i, |data|, data[i]))
  }

  /**
   * The rows of `performSingleExtractData`: one of 18 `NA`s after the
   * prefix when extraction failed, else one per template datum, or the
   * exception of the first row that splices an empty vector.
   */
  function ExtractDataLines(fileName: string, elapsed: int, templateType: TemplateType, status: ReturnStatus,
                            data: seq<TemplateData>): Outcome<seq<string>>
  {
    if !StatusHolds(status) then Ok([Join(ExtractDataPrefix(fileName, elapsed, templateType) + Repeat(NA, 18), ",")])
    else Collect(DataRows(ExtractDataPrefix(fileName, elapsed, templateType), data))
  }

  /** The rows on successive lines. */
  function Lines(rows: Outcome<seq<string>>): Outcome<string>
  {
    if rows.Raised? then Raised(rows.what) else Ok(Join(rows.value, "\n"))
  }

  /**
   * `performSingleExtractData`, given what `extractTemplateData` returned.
   * An empty vector with a successful status is excluded: the final
   * `pop_back` on the empty line is undefined.
   */
  method PerformExtractData(fileName: string, elapsed: int, templateType: TemplateType, status: ReturnStatus,
                            data: seq<TemplateData>) returns (r: Outcome<string>)
    requires StatusHolds(status) ==> data != []
    ensures r == Lines(ExtractDataLines(fileName, elapsed, templateType, status, data))
  {
    var prefixCells := ExtractDataPrefix(fileName, elapsed, templateType);
    if !StatusHolds(status) {
      var row := NaRow(prefixCells, 18);
      assert Join([row], "\n") == row;
      return Ok(row);
    }
    r := DataLines(prefixCells, data);
  }

  /** The loop over the template data: a row and a line break each, then the last break dropped. */
  method DataLines(prefixCells: seq<string>, data: seq<TemplateData>) returns (r: Outcome<string>)
    requires data != []
    ensures r == Lines(Collect(DataRows(prefixCells, data)))
  {
    r := JoinRows(|data|, k requires 0 <= k < |data| => DataRow(prefixCells, k, |data|, data[k]), DataRows(prefixCells, data));
  }

  /**
   * A loop that builds row `i` of `n` with `rowAt(i)` and appends it and a
   * line break, stops at the first row that raises, and drops the last
   * line break at the end.
   */
  method JoinRows(n: nat, rowAt: nat --> Outcome<string>, ghost os: seq<Outcome<string>>) returns (r: Outcome<string>)
    requires 0 < n == |os|
    requires forall k :: 0 <= k < n ==> rowAt.requires(k) && rowAt(k) == os[k]
    ensures r == Lines(Collect(os))
  {
    ghost var done: seq<string> := [];
    var logLine := "";
    var i := 0;
    while i < n
      invariant 0 <= i <= n && |done| == i
      invariant forall k :: 0 <= k < i ==> os[k] == Ok(done[k])
      invariant logLine == Accumulated(done, "\n")
    {
      var row := rowAt(i);
      if row.Raised? {
        CollectFirstRaised(os, i);
        return Raised(row.what);
      }
      AccumulatedSnoc(done, row.value, "\n");
      logLine := logLine + row.value + "\n";
      done := done + [row.value];
      i := i + 1;
    }
    CollectAllOk(os, done);
    AccumulatedDropLast(done, "\n");
    logLine := logLine[..|logLine| - 1];
    r := Ok(logLine);
  }

  lemma {:induction false} EfsHeadFields(efs: Efs)
    ensures Fields(EfsHead(efs))
  {
    NumberField(efs.imp);
    NumberField(efs.frct);
    NumberField(efs.frgp);
    NumberField(if efs.orientation.Some? then efs.orientation.value else 0);
  }

  lemma {:induction false} EfsFlagsFields(efs: Efs)
    ensures Fields(EfsFlags(efs))
  {
    NumberField(if efs.valueAssessment.Some? then efs.valueAssessment.value else 0);
    NumberField(if efs.lsb.Some? then efs.lsb.value else 0);
    NumberField(if efs.pat.Some? then efs.pat.value else 0);
    NumberField(if efs.plr.Some? && efs.plr.value then 1 else 0);
    NumberField(if efs.trv.Some? && efs.trv.value then 1 else 0);
  }

  lemma {:induction false} CoresField(o: Option<seq<Core>>)
    ensures SpliceCell(o, CoreField, true).Ok? ==> Field(SpliceCell(o, CoreField, true).value)
  {
    if o.Some? {
      forall k | 0 <= k < |o.value| ensures Inert(CoreField(o.value[k])) {
        CoreShape(o.value[k]);
      }
    }
    SpliceCellIsCell(o, CoreField, true);
  }

  lemma {:induction false} DeltasField(o: Option<seq<Delta>>)
    ensures SpliceCell(o, DeltaField, true).Ok? ==> Field(SpliceCell(o, DeltaField, true).value)
  {
    if o.Some? {
      forall k | 0 <= k < |o.value| ensures Inert(DeltaField(o.value[k])) {
        DeltaShape(o.value[k]);
      }
    }
    SpliceCellIsCell(o, DeltaField, true);
  }

  lemma {:induction false} MinutiaeField(o: Option<seq<Minutia>>)
    ensures SpliceCell(o, MinutiaField, true).Ok? ==> Field(SpliceCell(o, MinutiaField, true).value)
  {
    if o.Some? {
      forall k | 0 <= k < |o.value| ensures Inert(MinutiaField(o.value[k])) {
        MinutiaShape(o.value[k]);
      }
    }
    SpliceCellIsCell(o, MinutiaField, true);
  }

  lemma {:induction false} RoiField(o: Option<seq<Coordinate>>)
    ensures SpliceCell(o, CoordinateField, true).Ok? ==> Field(SpliceCell(o, CoordinateField, true).value)
  {
    if o.Some? {
      forall k | 0 <= k < |o.value| ensures Inert(CoordinateField(o.value[k])) {
        var c := o.value[k];
        NumberFieldBare(c.x);
        NumberFieldBare(c.y);
        Chain2(IntToString(c.x), IntToString(c.y));
      }
    }
    SpliceCellIsCell(o, CoordinateField, true);
  }

  lemma {:induction false} LpmField(o: Option<seq<ProcessingMethod>>)
    ensures SpliceCell(o, Number, false).Ok? ==> Field(SpliceCell(o, Number, false).value)
  {
    if o.Some? {
      forall k | 0 <= k < |o.value| ensures Inert(Number(o.value[k])) {
        NumberInert(o.value[k]);
      }
    }
    SpliceCellIsCell(o, Number, false);
  }

  lemma {:induction false} EfsVectorsFields(efs: Efs)
    requires EfsVectors(efs).Ok?
    ensures |EfsVectors(efs).value| == 4 && Fields(EfsVectors(efs).value)
  {
    var vs := [SpliceCell(efs.cores, CoreField, true), SpliceCell(efs.deltas, DeltaField, true),
               SpliceCell(efs.minutiae, MinutiaField, true), SpliceCell(efs.roi, CoordinateField, true)];
    assert vs[0].Ok? && vs[1].Ok? && vs[2].Ok? && vs[3].Ok?;
    CoresField(efs.cores);
    DeltasField(efs.deltas);
    MinutiaeField(efs.minutiae);
    RoiField(efs.roi);
  }

  lemma {:induction false} EfsCellsFields(efs: Efs)
    requires EfsCells(efs).Ok?
    ensures |EfsCells(efs).value| == 14 && Fields(EfsCells(efs).value)
  {
    var lpm := SpliceCell(efs.lpm, Number, false);
    LpmField(efs.lpm);
    EfsHeadFields(efs);
    EfsFlagsFields(efs);
    EfsVectorsFields(efs);
    FieldsAppend(EfsHead(efs), [lpm.value]);
    FieldsAppend(EfsHead(efs) + [lpm.value], EfsFlags(efs));
    FieldsAppend(EfsHead(efs) + [lpm.value] + EfsFlags(efs), EfsVectors(efs).value);
  }

  lemma {:induction false} PrefixFields(fileName: string, elapsed: int, templateType: TemplateType)
    requires Inert(fileName)
    ensures Fields(ExtractDataPrefix(fileName, elapsed, templateType))
  {
    InertCells(fileName);
    NumberField(elapsed);
    NumberField(templateType);
  }

  lemma {:induction false} DataCellsFields(i: nat, n: nat, td: TemplateData)
    requires DataCells(i, n, td).Ok?
    ensures |DataCells(i, n, td).value| == 18 && Fields(DataCells(i, n, td).value)
  {
    NumberField(i);
    NumberField(n);
    NumberField(td.inputIdentifier);
    NumberField(if td.imageQuality.Some? then td.imageQuality.value else 0);
    assert Fields(DataHead(i, n, td));
    if td.efs.Some? {
      EfsCellsFields(td.efs.value);
      FieldsAppend(DataHead(i, n, td), EfsCells(td.efs.value).value);
    } else {
      NasFields(14);
      FieldsAppend(DataHead(i, n, td), Repeat(NA, 14));
    }
  }

  /**
   * Each row of extracted data has the header's 21 fields and no line
   * break: the prefix's 3, then 4 and 14.
   */
  lemma {:induction false} DataRowWidth(fileName: string, elapsed: int, templateType: TemplateType, i: nat, n: nat, td: TemplateData)
    requires Inert(fileName)
    requires DataRow(ExtractDataPrefix(fileName, elapsed, templateType), i, n, td).Ok?
    ensures FieldCount(DataRow(ExtractDataPrefix(fileName, elapsed, templateType), i, n, td).value) ==
      |ExtractDataHeader|
    ensures OneLine(DataRow(ExtractDataPrefix(fileName, elapsed, templateType), i, n, td).value)
  {
    var prefix := ExtractDataPrefix(fileName, elapsed, templateType);
    PrefixFields(fileName, elapsed, templateType);
    DataCellsFields(i, n, td);
    FieldsAppend(prefix, DataCells(i, n, td).value);
    RowOfCells(prefix + DataCells(i, n, td).value);
  }

  /**
   * The extract-data log entry for one template: on failure one row, else
   * one row per template datum; every row with the header's 21 fields.
   */
  lemma {:induction false} ExtractDataShape(fileName: string, elapsed: int, templateType: TemplateType, status: ReturnStatus,
                         data: seq<TemplateData>)
    requires Inert(fileName)
    requires ExtractDataLines(fileName, elapsed, templateType, status, data).Ok?
    ensures |ExtractDataLines(fileName, elapsed, templateType, status, data).value| ==
      if StatusHolds(status) then |data| else 1
    ensures forall k :: 0 <= k < |ExtractDataLines(fileName, elapsed, templateType, status, data).value| ==>
      FieldCount(ExtractDataLines(fileName, elapsed, templateType, status, data).value[k]) == |ExtractDataHeader| &&
      OneLine(ExtractDataLines(fileName, elapsed, templateType, status, data).value[k])
  {
    var prefix := ExtractDataPrefix(fileName, elapsed, templateType);
    if !StatusHolds(status) {
      PrefixFields(fileName, elapsed, templateType);
      NasFields(18);
      FieldsAppend(prefix, Repeat(NA, 18));
      RowOfCells(prefix + Repeat(NA, 18));
    } else {
      var os := DataRows(prefix, data);
      forall k | 0 <= k < |data|
        ensures FieldCount(os[k].value) == |ExtractDataHeader| && OneLine(os[k].value)
      {
        assert os[k].Ok?;
        DataRowWidth(fileName, elapsed, templateType, k, |data|, data[k]);
      }
    }
  }

  /**
   * A row raises exactly when a present vector of its EFS is empty: the
   * `splice` of an empty vector throws.
   */
  lemma {:induction false} DataRowRaises(prefix: seq<string>, i: nat, n: nat, td: TemplateData)
    ensures DataRow(prefix, i, n, td).Raised? <==>
      td.efs.Some? && (td.efs.value.lpm == Some([]) || td.efs.value.cores == Some([]) ||
        td.efs.value.deltas == Some([]) || td.efs.value.minutiae == Some([]) || td.efs.value.roi == Some([]))
  {
    if td.efs.Some? {
      var efs := td.efs.value;
      var vs := [SpliceCell(efs.cores, CoreField, true), SpliceCell(efs.deltas, DeltaField, true),
                 SpliceCell(efs.minutiae, MinutiaField, true), SpliceCell(efs.roi, CoordinateField, true)];
      assert EfsVectors(efs).Raised? <==> vs[0].Raised? || vs[1].Raised? || vs[2].Raised? || vs[3].Raised?;
    }
  }

  // ---- The reference-database log (runCreateReferenceDatabase) ----

  /** The process exit status: `EXIT_SUCCESS` (0) exactly when the implementation succeeded. */
  function ExitCode(rs: ReturnStatus): (code: int)
    ensures code == 0 <==> StatusHolds(rs)
    ensures code == 0 || code == 1
  {
    if StatusHolds(rs) then 0 else 1
  }

  /** The row as written: the raw message between quotes, nothing escaped. */
  function DatabaseRowAsWritten(elapsed: int, rs: ReturnStatus, maximum: nat): string
  {
    IntToString(elapsed) + "," + IntToString(rs.result) + ",\"" + MessageText(rs.message) + "\"," +
      IntToString(maximum)
  }

  /** A message holding `","` splits the row into 5 fields under a 4-field header. */
  lemma {:induction false} DatabaseRowAsWrittenSplits()
    ensures FieldCount(DatabaseRowAsWritten(0, ReturnStatus(Failure, Some("a\",\"b")), 0)) == 5
  {
    var cells := ["0", "1", Quote("a"), Quote("b"), "0"];
    assert IntToString(0) == "0" && IntToString(1) == "1";
    JoinFive("0", "1", Quote("a"), Quote("b"), "0", ",");
    assert DatabaseRowAsWritten(0, ReturnStatus(Failure, Some("a\",\"b")), 0) == Join(cells, ",");
    PlainCell("0");
    PlainCell("1");
    QuotedCell("a");
    QuotedCell("b");
    JoinedCells(cells);
  }

  /** The row with the message sanitized, as every other log of the driver does. */
  function DatabaseRow(elapsed: int, rs: ReturnStatus, maximum: nat): string
  {
    Join([IntToString(elapsed), IntToString(rs.result), MessageCell(rs), IntToString(maximum)], ",")
  }

  /**
   * The sanitized row has the header's 4 fields for every loggable
   * message, and is the row as written whenever the message holds only
   * printable characters and no quote.
   */
  lemma {:induction false} DatabaseRowWidth(elapsed: int, rs: ReturnStatus, maximum: nat)
    requires Loggable(rs)
    ensures FieldCount(DatabaseRow(elapsed, rs, maximum)) == |DatabaseHeader|
    ensures OneLine(DatabaseRow(elapsed, rs, maximum))
    ensures (forall i :: 0 <= i < |MessageText(rs.message)| ==>
               Printable(MessageText(rs.message)[i]) && MessageText(rs.message)[i] != '"') ==>
      DatabaseRow(elapsed, rs, maximum) == DatabaseRowAsWritten(elapsed, rs, maximum)
  {
    DatabaseRowFields(elapsed, rs, maximum);
    if forall i :: 0 <= i < |MessageText(rs.message)| ==>
         Printable(MessageText(rs.message)[i]) && MessageText(rs.message)[i] != '"' {
      DatabaseRowPlain(elapsed, rs, maximum);
    }
  }

  lemma {:induction false} DatabaseRowFields(elapsed: int, rs: ReturnStatus, maximum: nat)
    requires Loggable(rs)
    ensures FieldCount(DatabaseRow(elapsed, rs, maximum)) == |DatabaseHeader|
    ensures OneLine(DatabaseRow(elapsed, rs, maximum))
  {
    NumbersAreCells(elapsed);
    NumbersAreCells(rs.result);
    NumbersAreCells(maximum);
    MessageCellIsCell(rs);
    RowOfCells([IntToString(elapsed), IntToString(rs.result), MessageCell(rs), IntToString(maximum)]);
  }

  /** With a message of printable characters and no quote, sanitizing changes nothing. */
  lemma {:induction false} DatabaseRowPlain(elapsed: int, rs: ReturnStatus, maximum: nat)
    requires forall i :: 0 <= i < |MessageText(rs.message)| ==>
      Printable(MessageText(rs.message)[i]) && MessageText(rs.message)[i] != '"'
    ensures DatabaseRow(elapsed, rs, maximum) == DatabaseRowAsWritten(elapsed, rs, maximum)
  {
    var m := MessageText(rs.message);
    assert Cleaned(m) == m;
    NoQuotesUnchanged(m);
    assert MessageCell(rs) == "\"" + m + "\"";
    JoinFour(IntToString(elapsed), IntToString(rs.result), MessageCell(rs), IntToString(maximum), ",");
  }
}
