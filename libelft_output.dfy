/**
 * Human-readable renderings of the ELFT data types (the library's
 * `to_string` overloads and the `std::optional` helpers of its header).
 */
module ElftOutput {
  import opened Wrappers
  import opened Text
  import opened Elft

  const ErrorName := "[ERROR]"
  const AngleFlag := " [INVALID: >359]"
  const QualityFlag := " [INVALID: >100]"
  const EmptyText := "<# EMPTY #>"
  const NotSetText := "<# NOT SET #>"

  predicate StartsWith(s: string, t: string) { |t| <= |s| && s[..|t|] == t }

  predicate EndsWith(s: string, t: string) { |t| <= |s| && s[|s| - |t|..] == t }

  lemma {:induction false} EndsWithJoined(a: string, b: string)
    ensures EndsWith(a + b, b)
  {
    assert (a + b)[|a + b| - |b|..] == b;
  }

  /** Appending the same text to both sides keeps a suffix a suffix. */
  lemma {:induction false} EndsWithAppend(a: string, t: string, b: string)
    ensures EndsWith(a + b, t + b) <==> EndsWith(a, t)
  {
    if |t| <= |a| {
      assert (a + b)[|a + b| - |t + b|..] == a[|a| - |t|..] + b;
      if EndsWith(a + b, t + b) {
        assert a[|a| - |t|..] == (a + b)[|a + b| - |t + b|..][..|t|] == (t + b)[..|t|] == t;
      }
    }
  }

  /** A text whose k-th character from the end differs from the candidate's does not end with it. */
  lemma {:induction false} NotEndsWith(x: string, t: string, k: nat)
    requires 1 <= k <= |t|
    requires |x| < k || x[|x| - k] != t[|t| - k]
    ensures !EndsWith(x, t)
  {
    if |t| <= |x| {
      assert x[|x| - |t|..][|t| - k] == x[|x| - k];
    }
  }

  // ---- Enumerations: a switch over the declared enumerators, "[ERROR]" otherwise ----

  predicate ImpressionDeclared(v: Impression) { v in {0, 1, 4, 8, 24, 25, 28, 29, 41, 42} }

  function ImpressionName(v: Impression): string
  {
    match v
    case 0 => "PlainContact"
    case 1 => "RolledContact"
    case 4 => "Latent"
    case 8 => "LiveScanSwipe"
    case 24 => "PlainContactlessStationary"
    case 25 => "RolledContactlessStationary"
    case 28 => "Other"
    case 29 => "Unknown"
    case 41 => "RolledContactlessMoving"
    case 42 => "PlainContactlessMoving"
    case _ => ErrorName
  }

  /** Every declared Impression has its own name; every other value is "[ERROR]". */
  lemma {:induction false} ImpressionNames(a: Impression, b: Impression)
    ensures ImpressionName(a) == ErrorName <==> !ImpressionDeclared(a)
    ensures ImpressionDeclared(a) && ImpressionDeclared(b) && a != b ==> ImpressionName(a) != ImpressionName(b)
  {
  }

  predicate CaptureTechnologyDeclared(v: CaptureTechnology) { v in {0, 2, 3, 5, 9, 11, 18, 22} }

  function CaptureTechnologyName(v: CaptureTechnology): string
  {
    match v
    case 0 => "Unknown"
    case 2 => "ScannedInkOnPaper"
    case 3 => "OpticalTIRBright"
    case 5 => "OpticalDirect"
    case 9 => "Capacitive"
    case 11 => "Electroluminescent"
    case 18 => "LatentImpression"
    case 22 => "LatentLift"
    case _ => ErrorName
  }

  lemma {:induction false} CaptureTechnologyNames(a: CaptureTechnology, b: CaptureTechnology)
    ensures CaptureTechnologyName(a) == ErrorName <==> !CaptureTechnologyDeclared(a)
    ensures CaptureTechnologyDeclared(a) && CaptureTechnologyDeclared(b) && a != b ==>
      CaptureTechnologyName(a) != CaptureTechnologyName(b)
  {
  }

  predicate FrgpDeclared(v: Frgp)
  {
    v in {0, 1, 2, 3, 4, 5, 6, 7, 8, 9, 10, 13, 14, 15, 16, 17, 18, 19, 20, 21, 22, 23, 24, 25, 26, 27, 28,
          29, 30, 31, 32, 33, 34, 35, 36, 37, 38, 81, 82, 83, 84, 85, 86}
  }

  function FrgpName(v: Frgp): string
  {
    match v
    case 0 => "UnknownFinger"
    case 1 => "RightThumb"
    case 2 => "RightIndex"
    case 3 => "RightMiddle"
    case 4 => "RightRing"
    case 5 => "RightLittle"
    case 6 => "LeftThumb"
    case 7 => "LeftIndex"
    case 8 => "LeftMiddle"
    case 9 => "LeftRing"
    case 10 => "LeftLittle"
    case 16 => "RightExtraDigit"
    case 17 => "LeftExtraDigit"
    case 13 => "RightFour"
    case 14 => "LeftFour"
    case 15 => "RightAndLeftThumbs"
    case 20 => "UnknownPalm"
    case 21 => "RightFullPalm"
    case 22 => "RightWritersPalm"
    case 23 => "LeftFullPalm"
    case 24 => "LeftWritersPalm"
    case 25 => "RightLowerPalm"
    case 26 => "RightUpperPalm"
    case 27 => "LeftLowerPalm"
    case 28 => "LeftUpperPalm"
    case 29 => "RightPalmOther"
    case 30 => "LeftPalmOther"
    case 31 => "RightInterdigital"
    case 32 => "RightThenar"
    case 33 => "RightHypothenar"
    case 34 => "LeftInterdigital"
    case 35 => "LeftThenar"
    case 36 => "LeftHypothenar"
    case 37 => "RightGrasp"
    case 38 => "LeftGrasp"
    case 81 => "RightCarpalDeltaArea"
    case 82 => "LeftCarpalDeltaArea"
    case 83 => "RightFullPalmAndWritersPalm"
    case 84 => "LeftFullPalmAndWritersPalm"
    case 85 => "RightWristBracelet"
    case 86 => "LeftWristBracelet"
    case 18 => "UnknownFrictionRidge"
    case 19 => "EJIOrTip"
    case _ => ErrorName
  }

  lemma {:induction false} FrgpNames(a: Frgp, b: Frgp)
    ensures FrgpName(a) == ErrorName <==> !FrgpDeclared(a)
    ensures FrgpDeclared(a) && FrgpDeclared(b) && a != b ==> FrgpName(a) != FrgpName(b)
  {
    if FrgpDeclared(a) && FrgpDeclared(b) && a != b {
      var lo, hi := if a < b then a else b, if a < b then b else a;
      if lo <= 10 {
        FingerNamesDistinct(lo, hi);
      } else if lo <= 19 {
        SlapNamesDistinct(lo, hi);
      } else if lo <= 38 {
        PalmNamesDistinct(lo, hi);
      } else {
        CarpalNamesDistinct(lo, hi);
      }
    }
  }

  /** The distinctness of the finger position names, split by the range of the lower position. */
  lemma {:induction false} FingerNamesDistinct(a: Frgp, b: Frgp)
    requires 0 <= a <= 10 && FrgpDeclared(b) && a < b
    ensures FrgpName(a) != FrgpName(b)
  {
  }

  lemma {:induction false} SlapNamesDistinct(a: Frgp, b: Frgp)
    requires 13 <= a <= 19 && FrgpDeclared(b) && a < b
    ensures FrgpName(a) != FrgpName(b)
  {
  }

  lemma {:induction false} PalmNamesDistinct(a: Frgp, b: Frgp)
    requires 20 <= a <= 38 && FrgpDeclared(b) && a < b
    ensures FrgpName(a) != FrgpName(b)
  {
  }

  lemma {:induction false} CarpalNamesDistinct(a: Frgp, b: Frgp)
    requires 81 <= a <= 86 && FrgpDeclared(b) && a < b
    ensures FrgpName(a) != FrgpName(b)
  {
  }

  predicate ProcessingMethodDeclared(v: ProcessingMethod) { 0 <= v <= 8 }

  function ProcessingMethodName(v: ProcessingMethod): string
  {
    match v
    case 0 => "Indanedione"
    case 1 => "BlackPowder"
    case 2 => "Other"
    case 3 => "Cyanoacrylate"
    case 4 => "Laser"
    case 5 => "RUVIS"
    case 6 => "StickysidePowder"
    case 7 => "Visual"
    case 8 => "WhitePowder"
    case _ => ErrorName
  }

  lemma {:induction false} ProcessingMethodNames(a: ProcessingMethod, b: ProcessingMethod)
    ensures ProcessingMethodName(a) == ErrorName <==> !ProcessingMethodDeclared(a)
    ensures ProcessingMethodDeclared(a) && ProcessingMethodDeclared(b) && a != b ==>
      ProcessingMethodName(a) != ProcessingMethodName(b)
  {
  }

  predicate PatternClassificationDeclared(v: PatternClassification) { 0 <= v <= 8 }

  function PatternClassificationName(v: PatternClassification): string
  {
    match v
    case 0 => "Arch"
    case 1 => "Whorl"
    case 2 => "RightLoop"
    case 3 => "LeftLoop"
    case 4 => "Amputation"
    case 5 => "UnableToPrint"
    case 6 => "Unclassifiable"
    case 7 => "Scar"
    case 8 => "DissociatedRidges"
    case _ => ErrorName
  }

  lemma {:induction false} PatternClassificationNames(a: PatternClassification, b: PatternClassification)
    ensures PatternClassificationName(a) == ErrorName <==> !PatternClassificationDeclared(a)
    ensures PatternClassificationDeclared(a) && PatternClassificationDeclared(b) && a != b ==>
      PatternClassificationName(a) != PatternClassificationName(b)
  {
  }

  predicate ValueAssessmentDeclared(v: ValueAssessment) { 0 <= v <= 2 }

  function ValueAssessmentName(v: ValueAssessment): string
  {
    match v
    case 0 => "Value"
    case 1 => "Limited"
    case 2 => "NoValue"
    case _ => ErrorName
  }

  lemma {:induction false} ValueAssessmentNames(a: ValueAssessment, b: ValueAssessment)
    ensures ValueAssessmentName(a) == ErrorName <==> !ValueAssessmentDeclared(a)
    ensures ValueAssessmentDeclared(a) && ValueAssessmentDeclared(b) && a != b ==>
      ValueAssessmentName(a) != ValueAssessmentName(b)
  {
  }

  predicate SubstrateDeclared(v: Substrate) { 0 <= v <= 11 }

  function SubstrateName(v: Substrate): string
  {
    match v
    case 0 => "Paper"
    case 1 => "PorousOther"
    case 2 => "Plastic"
    case 3 => "Glass"
    case 4 => "MetalPainted"
    case 5 => "MetalUnpainted"
    case 6 => "TapeAdhesiveSide"
    case 7 => "NonporousOther"
    case 8 => "PaperGlossy"
    case 9 => "SemiporousOther"
    case 10 => "Other"
    case 11 => "Unknown"
    case _ => ErrorName
  }

  lemma {:induction false} SubstrateNames(a: Substrate, b: Substrate)
    ensures SubstrateName(a) == ErrorName <==> !SubstrateDeclared(a)
    ensures SubstrateDeclared(a) && SubstrateDeclared(b) && a != b ==> SubstrateName(a) != SubstrateName(b)
  {
  }

  predicate RidgeQualityDeclared(v: RidgeQuality) { 0 <= v <= 5 }

  function RidgeQualityName(v: RidgeQuality): string
  {
    match v
    case 0 => "Background"
    case 1 => "DebatableRidgeFlow"
    case 2 => "DebatableMinutiae"
    case 3 => "DefinitiveMinutiae"
    case 4 => "DefinitiveRidgeEdges"
    case 5 => "DefinitivePores"
    case _ => ErrorName
  }

  lemma {:induction false} RidgeQualityNames(a: RidgeQuality, b: RidgeQuality)
    ensures RidgeQualityName(a) == ErrorName <==> !RidgeQualityDeclared(a)
    ensures RidgeQualityDeclared(a) && RidgeQualityDeclared(b) && a != b ==> RidgeQualityName(a) != RidgeQualityName(b)
  {
  }

  function ResultName(v: ResultCode): string
  {
    match v
    case 0 => "Success"
    case 1 => "Failure"
    case _ => ErrorName
  }

  lemma {:induction false} ResultNames(a: ResultCode)
    ensures ResultName(a) == ErrorName <==> !(a == Success || a == Failure)
    ensures ResultName(Success) != ResultName(Failure)
  {
  }

  predicate MinutiaTypeDeclared(v: MinutiaType) { 0 <= v <= 3 }

  function MinutiaTypeName(v: MinutiaType): string
  {
    match v
    case 0 => "RidgeEnding"
    case 1 => "Bifurcation"
    case 2 => "Other"
    case 3 => "Unknown"
    case _ => ErrorName
  }

  lemma {:induction false} MinutiaTypeNames(a: MinutiaType, b: MinutiaType)
    ensures MinutiaTypeName(a) == ErrorName <==> !MinutiaTypeDeclared(a)
    ensures MinutiaTypeDeclared(a) && MinutiaTypeDeclared(b) && a != b ==> MinutiaTypeName(a) != MinutiaTypeName(b)
  {
  }

  // ---- Structures ----

  /** `"Result: <name>"`, then `", Message: <m>"` when a message is present. */
  function ReturnStatusText(rs: ReturnStatus): (r: string)
    ensures StartsWith(r, "Result: " + ResultName(rs.result))
    ensures |r| == |"Result: " + ResultName(rs.result)| <==> rs.message.None?
    ensures rs.message.Some? ==> EndsWith(r, ", Message: " + rs.message.value)
  {
    var s := "Result: " + ResultName(rs.result);
    if rs.message.Some? then s + ", Message: " + rs.message.value else s
  }

  /** `(x,y)` with both members in decimal. */
  function CoordinateText(c: Coordinate): string
  {
    "(" + NatToString(c.x) + "," + NatToString(c.y) + ")"
  }

  /** Reads a `(x,y)` rendering back; None for any other text. */
  function ParseCoordinateText(s: string): Option<Coordinate>
  {
    if |s| < 2 || s[0] != '(' || s[|s| - 1] != ')' then None
    else
      var body := s[1..|s| - 1];
      var k := FirstComma(body);
      if k == |body| || !AllDigits(body[..k]) || !AllDigits(body[k + 1..]) then None
      else
        var x, y := DigitsValue(body[..k]), DigitsValue(body[k + 1..]);
        if x < 0x1_0000_0000 && y < 0x1_0000_0000 then Some(Coordinate(x, y)) else None
  }

  function FirstComma(s: string): (k: nat)
    ensures k <= |s| && (k < |s| ==> s[k] == ',')
    ensures forall i :: 0 <= i < k ==> s[i] != ','
  {
    if s == [] then 0 else if s[0] == ',' then 0 else 1 + FirstComma(s[1..])
  }

  lemma {:induction false} FirstCommaAfterDigits(xs: string, rest: string)
    requires AllDigits(xs)
    ensures FirstComma(xs + "," + rest) == |xs|
  {
    if xs != [] {
      assert (xs + "," + rest)[1..] == xs[1..] + "," + rest;
      FirstCommaAfterDigits(xs[1..], rest);
    }
  }

  /** The coordinate rendering is unambiguous: reading it back gives the coordinate. */
  lemma {:induction false} CoordinateTextRoundTrip(c: Coordinate)
    ensures ParseCoordinateText(CoordinateText(c)) == Some(c)
  {
    var s := CoordinateText(c);
    var xs, ys := NatToString(c.x), NatToString(c.y);
    var body := s[1..|s| - 1];
    assert body == xs + "," + ys;
    FirstCommaAfterDigits(xs, ys);
    assert body[..|xs|] == xs && body[|xs| + 1..] == ys;
    DecimalRoundTrip(c.x);
    DecimalRoundTrip(c.y);
  }

  /** An angle in decimal, flagged when it exceeds 359 degrees. */
  function AngleText(v: uint16): (r: string)
    ensures StartsWith(r, NatToString(v))
    ensures EndsWith(r, AngleFlag) <==> v > 359
  {
    var digits := NatToString(v);
    if v > 359 then
      EndsWithJoined(digits, AngleFlag);
      digits + AngleFlag
    else
      NotEndsWith(digits, AngleFlag, 1);
      digits
  }

  /** A present direction as an angle; an absent one as `<# EMPTY #>`. */
  function DirectionText(d: Option<uint16>): (r: string)
    ensures r == EmptyText <==> d.None?
    ensures EndsWith(r, AngleFlag) <==> d.Some? && d.value > 359
    ensures d.Some? ==> StartsWith(r, NatToString(d.value))
  {
    if d.Some? then
      var r := AngleText(d.value);
      assert r[0] != EmptyText[0];
      r
    else
      NotEndsWith(EmptyText, AngleFlag, 1);
      EmptyText
  }

  /**
   * `[(x,y),theta,type]`; the flag sits right after theta exactly when
   * theta exceeds 359.
   */
  function MinutiaText(m: Minutia): (r: string)
    ensures StartsWith(r, "[" + CoordinateText(m.coordinate) + "," + NatToString(m.theta))
    ensures EndsWith(r, AngleFlag + MinutiaTail(m.kind)) <==> m.theta > 359
  {
    var prefix := "[" + CoordinateText(m.coordinate) + ",";
    FlaggedAngle(prefix, m.theta, MinutiaTail(m.kind));
    prefix + AngleText(m.theta) + MinutiaTail(m.kind)
  }

  /** What follows the angle of a minutia: its type name and the closing bracket. */
  function MinutiaTail(kind: MinutiaType): string { "," + MinutiaTypeName(kind) + "]" }

  /** An angle between two texts: the flag ends up right before the second exactly when the angle exceeds 359. */
  lemma {:induction false} FlaggedAngle(prefix: string, v: uint16, tail: string)
    ensures EndsWith(prefix + AngleText(v) + tail, AngleFlag + tail) <==> v > 359
    ensures StartsWith(prefix + AngleText(v) + tail, prefix + NatToString(v))
  {
    var angle := AngleText(v);
    var digits := NatToString(v);
    EndsWithAppend(prefix + angle, AngleFlag, tail);
    if v > 359 {
      EndsWithJoined(prefix, angle);
    } else {
      NotEndsWith(prefix + angle, AngleFlag, 1);
    }
    assert prefix + angle + tail == prefix + digits + (angle[|digits|..] + tail);
  }

  /** `[(x,y),direction]`, flagged when the direction is present and exceeds 359. */
  function CoreText(c: Core): (r: string)
    ensures StartsWith(r, "[" + CoordinateText(c.coordinate) + ",")
    ensures EndsWith(r, AngleFlag + "]") <==> c.direction.Some? && c.direction.value > 359
    ensures c.direction.None? ==> EndsWith(r, "," + EmptyText + "]")
  {
    var prefix := "[" + CoordinateText(c.coordinate) + ",";
    var d := DirectionText(c.direction);
    assert EndsWith(prefix + d + "]", AngleFlag + "]") <==> c.direction.Some? && c.direction.value > 359 by {
      EndsWithAppend(prefix + d, AngleFlag, "]");
      if c.direction.Some? && c.direction.value > 359 {
        EndsWithJoined(prefix, d);
      } else {
        NotEndsWith(prefix + d, AngleFlag, 1);
      }
    }
    assert c.direction.None? ==> EndsWith(prefix + d + "]", "," + EmptyText + "]") by {
      if c.direction.None? {
        assert prefix + d + "]" == "[" + CoordinateText(c.coordinate) + ("," + EmptyText + "]");
        EndsWithJoined("[" + CoordinateText(c.coordinate), "," + EmptyText + "]");
      }
    }
    prefix + d + "]"
  }

  /**
   * `[(x,y),d1,d2,d3]` when the direction tuple is present, each member an
   * angle or `<# EMPTY #>`; three `<# EMPTY #>` when it is absent. Each
   * member is its `DirectionText`, which is `<# EMPTY #>` exactly when the
   * direction is absent and flagged exactly when it exceeds 359; the flag
   * ends the text exactly when the third is present and exceeds 359.
   */
  function DeltaText(d: Delta): (r: string)
    ensures StartsWith(r, "[" + CoordinateText(d.coordinate) + ",")
    ensures d.direction.Some? ==>
      StartsWith(r, "[" + CoordinateText(d.coordinate) + "," + DirectionText(d.direction.value.first) + ",")
    ensures d.direction.Some? ==> EndsWith(r, "," + DirectionText(d.direction.value.third) + "]")
    ensures d.direction.Some? ==>
      r == "[" + CoordinateText(d.coordinate) + "," + DirectionText(d.direction.value.first) + "," +
        DirectionText(d.direction.value.second) + "," + DirectionText(d.direction.value.third) + "]"
    ensures EndsWith(r, AngleFlag + "]") <==>
      d.direction.Some? && d.direction.value.third.Some? && d.direction.value.third.value > 359
    ensures d.direction.None? || d.direction.value.third.None? ==> EndsWith(r, "," + EmptyText + "]")
  {
    var s := "[" + CoordinateText(d.coordinate) + ",";
    if d.direction.None? then
      DeltaLayout(s, EmptyText, EmptyText, None);
      s + EmptyText + "," + EmptyText + "," + EmptyText + "]"
    else
      var t := d.direction.value;
      DeltaLayout(s, DirectionText(t.first), DirectionText(t.second), t.third);
      s + DirectionText(t.first) + "," + DirectionText(t.second) + "," + DirectionText(t.third) + "]"
  }

  /** Where the members of a delta's text sit: after the opening, then in order, the last closing it. */
  lemma {:induction false} DeltaLayout(s: string, first: string, second: string, last: Option<uint16>)
    ensures StartsWith(s + first + "," + second + "," + DirectionText(last) + "]", s + first + ",")
    ensures StartsWith(s + first + "," + second + "," + DirectionText(last) + "]", s)
    ensures EndsWith(s + first + "," + second + "," + DirectionText(last) + "]", "," + DirectionText(last) + "]")
    ensures EndsWith(s + first + "," + second + "," + DirectionText(last) + "]", AngleFlag + "]") <==>
      last.Some? && last.value > 359
  {
    var r := s + first + "," + second + "," + DirectionText(last) + "]";
    assert r == (s + first + ",") + (second + "," + DirectionText(last) + "]");
    assert r[..|s + first + ","|] == s + first + ",";
    assert r[..|s|] == s;
    LastDirection(s + first + "," + second, last);
  }

  /** The last direction of a delta, between a comma and the closing bracket. */
  lemma {:induction false} LastDirection(front: string, dir: Option<uint16>)
    ensures EndsWith(front + "," + DirectionText(dir) + "]", "," + DirectionText(dir) + "]")
    ensures EndsWith(front + "," + DirectionText(dir) + "]", AngleFlag + "]") <==> dir.Some? && dir.value > 359
  {
    var x := DirectionText(dir);
    assert front + "," + x + "]" == front + ("," + x + "]");
    EndsWithJoined(front, "," + x + "]");
    EndsWithAppend(front + "," + x, AngleFlag, "]");
    if dir.Some? && dir.value > 359 {
      EndsWithJoined(front + ",", x);
    } else {
      NotEndsWith(front + "," + x, AngleFlag, 1);
    }
  }

  /**
   * A delta without a direction tuple renders exactly as one whose three
   * directions are all absent: the text cannot tell the two apart.
   */
  lemma {:induction false} DeltaTextAbsentTuple(c: Coordinate)
    ensures DeltaText(Delta(c, None)) == DeltaText(Delta(c, Some(DeltaDirections(None, None, None))))
  {
  }

  /** `std::to_string(double)` of an integral value: fixed notation with six decimals. */
  function SimilarityText(v: int): string { IntToString(v) + ".000000" }

  function CandidateText(c: Candidate): string
  {
    "ID: " + c.identifier + ", FRGP: " + FrgpName(c.frgp) + ", Similarity: " + SimilarityText(c.similarity)
  }

  function CorrespondenceText(c: Correspondence): string
  {
    "Probe (ID #" + NatToString(c.probeInputIdentifier) + ") " + MinutiaText(c.probeMinutia) +
    " == Reference (ID #" + NatToString(c.referenceInputIdentifier) + ") " + MinutiaText(c.referenceMinutia)
  }

  /** The EFS lines, each behind a bullet; `std::getline` drops the line breaks. */
  function Bulleted(lines: seq<string>): string
  {
    if lines == [] then "" else Bulleted(lines[..|lines| - 1]) + BulletLine(lines[|lines| - 1])
  }

  function BulletLine(line: string): string { "\t * " + line }

  /** The TemplateData rendering, given the lines of its EFS rendering. */
  function TemplateDataText(td: TemplateData, efsLines: seq<string>): string
  {
    "ID: " + td.candidateIdentifier + ", #" + NatToString(td.inputIdentifier) +
    (if td.efs.Some? then "\n\tEFS:\n" + Bulleted(efsLines) else "") +
    (if td.imageQuality.Some? then
       "\n\tQuality: " + NatToString(td.imageQuality.value) +
       (if td.imageQuality.value > 100 then QualityFlag else "")
     else "")
  }

  /**
   * `to_string(TemplateData)`. The EFS's own rendering is not modelled: its
   * lines, as `std::getline` splits them, are a parameter.
   */
  method TemplateDataToString(td: TemplateData, efsLines: seq<string>) returns (s: string)
    ensures s == TemplateDataText(td, efsLines)
  {
    s := "ID: " + td.candidateIdentifier + ", #" + NatToString(td.inputIdentifier);
    if td.efs.Some? {
      s := s + "\n\tEFS:\n";
      var i := 0;
      while i < |efsLines|
        invariant 0 <= i <= |efsLines|
        invariant s == "ID: " + td.candidateIdentifier + ", #" + NatToString(td.inputIdentifier) +
          "\n\tEFS:\n" + Bulleted(efsLines[..i])
      {
        assert efsLines[..i + 1][..i] == efsLines[..i];
        s := s + BulletLine(efsLines[i]);
        i := i + 1;
      }
      assert efsLines[..i] == efsLines;
    }
    if td.imageQuality.Some? {
      s := s + "\n\tQuality: " + NatToString(td.imageQuality.value);
      if td.imageQuality.value > 100 {
        s := s + QualityFlag;
      }
    }
  }

  /** When a quality is present, the rendering ends with the flag exactly when it exceeds 100. */
  lemma {:induction false} TemplateDataQualityFlag(td: TemplateData, efsLines: seq<string>)
    requires td.imageQuality.Some?
    ensures EndsWith(TemplateDataText(td, efsLines), QualityFlag) <==> td.imageQuality.value > 100
  {
    var r := TemplateDataText(td, efsLines);
    var q := NatToString(td.imageQuality.value);
    if td.imageQuality.value <= 100 {
      assert r[|r| - 1] == q[|q| - 1];
      NotEndsWith(r, QualityFlag, 1);
    } else {
      assert r == (r[..|r| - |QualityFlag|]) + QualityFlag;
      EndsWithJoined(r[..|r| - |QualityFlag|], QualityFlag);
    }
  }

  /** The candidate lines, each `" * <candidate>\n"`. */
  function CandidateLines(cs: seq<Candidate>): string
  {
    if cs == [] then "" else CandidateLines(cs[..|cs| - 1]) + CandidateLine(cs[|cs| - 1])
  }

  function CandidateLine(c: Candidate): string { " * " + CandidateText(c) + "\n" }

  function SearchResultText(sr: SearchResult): string
  {
    ReturnStatusText(sr.status) + "\nCandidates:" + SearchResultTail(sr)
  }

  /** What follows the status: the candidates and the decision, or the empty-list marker. */
  function SearchResultTail(sr: SearchResult): string
  {
    if sr.candidateList == [] then " * [NO CANDIDATES]"
    else CandidateLines(sr.candidateList) + "Decision: " + (if sr.decision then "TRUE" else "FALSE")
  }

  /** `to_string(SearchResult)`: the status, then the candidates one per line, then the decision. */
  method SearchResultToString(sr: SearchResult) returns (s: string)
    ensures s == SearchResultText(sr)
  {
    var tail;
    if |sr.candidateList| == 0 {
      tail := " * [NO CANDIDATES]";
    } else {
      var lines := "";
      var i := 0;
      while i < |sr.candidateList|
        invariant 0 <= i <= |sr.candidateList|
        invariant lines == CandidateLines(sr.candidateList[..i])
      {
        assert sr.candidateList[..i + 1][..i] == sr.candidateList[..i];
        lines := lines + CandidateLine(sr.candidateList[i]);
        i := i + 1;
      }
      assert sr.candidateList[..i] == sr.candidateList;
      tail := lines + "Decision: ";
      if sr.decision {
        tail := tail + "TRUE";
      } else {
        tail := tail + "FALSE";
      }
    }
    s := ReturnStatusText(sr.status) + "\nCandidates:" + tail;
  }

  /**
   * An empty list is reported as `" * [NO CANDIDATES]"` with no decision;
   * otherwise the text ends with the decision.
   */
  lemma {:induction false} SearchResultEnding(sr: SearchResult)
    ensures EndsWith(SearchResultText(sr), " * [NO CANDIDATES]") <==> sr.candidateList == []
    ensures EndsWith(SearchResultText(sr), "Decision: TRUE") <==> sr.candidateList != [] && sr.decision
    ensures EndsWith(SearchResultText(sr), "Decision: FALSE") <==> sr.candidateList != [] && !sr.decision
  {
    var head := ReturnStatusText(sr.status) + "\nCandidates:";
    if sr.candidateList == [] {
      NoCandidatesEnding(head);
    } else {
      var x := head + CandidateLines(sr.candidateList);
      assert SearchResultText(sr) == x + "Decision: " + (if sr.decision then "TRUE" else "FALSE");
      DecisionEnding(x, sr.decision);
    }
  }

  lemma {:induction false} NoCandidatesEnding(x: string)
    ensures EndsWith(x + " * [NO CANDIDATES]", " * [NO CANDIDATES]")
    ensures !EndsWith(x + " * [NO CANDIDATES]", "Decision: TRUE")
    ensures !EndsWith(x + " * [NO CANDIDATES]", "Decision: FALSE")
  {
    var r := x + " * [NO CANDIDATES]";
    EndsWithJoined(x, " * [NO CANDIDATES]");
    assert r[|r| - 1] == ']';
    NotEndsWith(r, "Decision: TRUE", 1);
    NotEndsWith(r, "Decision: FALSE", 1);
  }

  lemma {:induction false} DecisionEnding(x: string, decision: bool)
    ensures var r := x + "Decision: " + (if decision then "TRUE" else "FALSE");
      !EndsWith(r, " * [NO CANDIDATES]") &&
      (EndsWith(r, "Decision: TRUE") <==> decision) &&
      (EndsWith(r, "Decision: FALSE") <==> !decision)
  {
    var r := x + "Decision: " + (if decision then "TRUE" else "FALSE");
    assert r[|r| - 1] == 'E';
    NotEndsWith(r, " * [NO CANDIDATES]", 1);
    if decision {
      assert r == x + "Decision: TRUE";
      EndsWithJoined(x, "Decision: TRUE");
      assert r[|r| - 2] == 'U';
      NotEndsWith(r, "Decision: FALSE", 2);
    } else {
      assert r == x + "Decision: FALSE";
      EndsWithJoined(x, "Decision: FALSE");
      assert r[|r| - 2] == 'S';
      NotEndsWith(r, "Decision: TRUE", 2);
    }
  }

  /** `"ReturnStatus: <status>"`, then the template size in bytes only on success. */
  function CreateTemplateResultText(ct: CreateTemplateResult): (r: string)
    ensures StartsWith(r, "ReturnStatus: " + ReturnStatusText(ct.status))
    ensures ct.status.result == Success <==> |r| > |"ReturnStatus: " + ReturnStatusText(ct.status)|
    ensures ct.status.result == Success ==> EndsWith(r, ", Template Size: " + NatToString(|ct.data|) + "b")
  {
    var s := "ReturnStatus: " + ReturnStatusText(ct.status);
    if ct.status.result == Success then s + ", Template Size: " + NatToString(|ct.data|) + "b" else s
  }

  // ---- ProductIdentifier ----

  /**
   * `to_string(ProductIdentifier)` as written: the separator is added only
   * when nothing has been written yet. The CBEFF rendering itself is a
   * parameter.
   */
  function ProductIdentifierTextAsWritten(pi: ProductIdentifier, cbeffText: CbeffIdentifier -> string): string
  {
    var s := if pi.marketing.Some? then "Marketing: " + pi.marketing.value else "";
    if pi.cbeff.Some? then (if s == [] then s + ", " else s) + cbeffText(pi.cbeff.value) else s
  }

  /**
   * With the inverted test, a marketing name followed by a CBEFF identifier
   * reads exactly like a longer marketing name alone, and a lone CBEFF
   * identifier is preceded by a dangling separator.
   */
  lemma {:induction false} ProductIdentifierSeparatorInverted(m: string, c: CbeffIdentifier, cbeffText: CbeffIdentifier -> string)
    ensures ProductIdentifierTextAsWritten(ProductIdentifier(Some(m), Some(c)), cbeffText) ==
            ProductIdentifierTextAsWritten(ProductIdentifier(Some(m + cbeffText(c)), None), cbeffText)
    ensures StartsWith(ProductIdentifierTextAsWritten(ProductIdentifier(None, Some(c)), cbeffText), ", ")
    ensures ProductIdentifierTextAsWritten(ProductIdentifier(Some(m), Some(c)), cbeffText) !=
            Join(ProductIdentifierParts(ProductIdentifier(Some(m), Some(c)), cbeffText), ", ")
  {
    var both := ProductIdentifierTextAsWritten(ProductIdentifier(Some(m), Some(c)), cbeffText);
    assert both == "Marketing: " + m + cbeffText(c);
    assert |Join(ProductIdentifierParts(ProductIdentifier(Some(m), Some(c)), cbeffText), ", ")| == |both| + 2;
  }

  /** The renderings of the members that are present, in order. */
  function ProductIdentifierParts(pi: ProductIdentifier, cbeffText: CbeffIdentifier -> string): (r: seq<string>)
    ensures |r| == (if pi.marketing.Some? then 1 else 0) + (if pi.cbeff.Some? then 1 else 0)
  {
    (if pi.marketing.Some? then ["Marketing: " + pi.marketing.value] else []) +
    (if pi.cbeff.Some? then [cbeffText(pi.cbeff.value)] else [])
  }

  /** `to_string(ProductIdentifier)` with the separator written only between two members. */
  function ProductIdentifierText(pi: ProductIdentifier, cbeffText: CbeffIdentifier -> string): string
  {
    var s := if pi.marketing.Some? then "Marketing: " + pi.marketing.value else "";
    if pi.cbeff.Some? then (if s != [] then s + ", " else s) + cbeffText(pi.cbeff.value) else s
  }

  /** The corrected rendering joins the present members with `", "`. */
  lemma {:induction false} ProductIdentifierTextJoins(pi: ProductIdentifier, cbeffText: CbeffIdentifier -> string)
    ensures ProductIdentifierText(pi, cbeffText) == Join(ProductIdentifierParts(pi, cbeffText), ", ")
  {
    var parts := ProductIdentifierParts(pi, cbeffText);
    if |parts| == 2 {
      assert parts[1..] == [cbeffText(pi.cbeff.value)];
    }
  }

  // ---- std::optional ----

  /** The arithmetic values the library renders through an optional. */
  datatype Arithmetic = Boolean(b: bool) | Integer(i: int)

  /** Streaming with `std::boolalpha`: booleans as words, integers in decimal. */
  function ArithmeticText(v: Arithmetic): string
  {
    match v
    case Boolean(b) => if b then "true" else "false"
    case Integer(i) => IntToString(i)
  }

  /** `to_string` of an arithmetic optional: `<# NOT SET #>` when empty. */
  function OptionalArithmeticText(o: Option<Arithmetic>): string
  {
    if o.None? then NotSetText else ArithmeticText(o.value)
  }

  /** `to_string` of any other optional: `<# NOT SET #>` or the value's own rendering. */
  function OptionalText<T>(o: Option<T>, render: T -> string): (r: string)
    ensures o.None? ==> r == NotSetText
    ensures o.Some? ==> r == render(o.value)
  {
    if o.None? then NotSetText else render(o.value)
  }

  /**
   * Optional booleans and optional integers render distinctly: an absent
   * value never reads like a present one, and different values differ.
   */
  lemma {:induction false} OptionalArithmeticInjective(a: Option<Arithmetic>, b: Option<Arithmetic>)
    requires a.None? || b.None? || a.value.Boolean? == b.value.Boolean?
    ensures OptionalArithmeticText(a) == OptionalArithmeticText(b) <==> a == b
  {
    if a.Some? && a.value.Integer? && b.Some? && b.value.Integer? {
      IntToStringInjective(a.value.i, b.value.i);
    }
    if a.None? && b.Some? && b.value.Integer? {
      var t := IntToString(b.value.i);
      assert t[0] == '-' || IsDigit(t[0]);
      assert NotSetText[0] == '<';
    }
    if b.None? && a.Some? && a.value.Integer? {
      var t := IntToString(a.value.i);
      assert t[0] == '-' || IsDigit(t[0]);
      assert NotSetText[0] == '<';
    }
  }
}
