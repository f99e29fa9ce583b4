/**
 * The ELFT API's data types (the `ELFT` namespace of the public header).
 *
 * C++ `enum class` values are modelled by their underlying `int`: such a value
 * may hold any integer of the underlying type, not only a declared
 * enumerator, and the log files record exactly that integer.
 */
module Elft {
  import opened Wrappers

  type uint8 = x: int | 0 <= x < 0x100
  type uint16 = x: int | 0 <= x < 0x1_0000
  type uint32 = x: int | 0 <= x < 0x1_0000_0000
  type uint64 = x: int | 0 <= x < 0x1_0000_0000_0000_0000
  type int16 = x: int | -0x8000 <= x < 0x8000
  /** `std::byte`. */
  type byte = uint8

  type Impression = int
  type CaptureTechnology = int
  /** FrictionRidgeGeneralizedPosition. */
  type Frgp = int
  type ProcessingMethod = int
  type PatternClassification = int
  type ValueAssessment = int
  type Substrate = int
  type RidgeQuality = int
  type MinutiaType = int
  type TemplateType = int
  /** ReturnStatus::Result. */
  type ResultCode = int

  // Enumerators the model refers to by name (ANSI/NIST-ITL 1-2011 Update:2015 codes).
  const ImpressionLatent: Impression := 4
  const ImpressionUnknown: Impression := 29
  const CaptureUnknown: CaptureTechnology := 0
  const UnknownFinger: Frgp := 0
  const RightThumb: Frgp := 1
  const RightIndex: Frgp := 2
  const RightLittle: Frgp := 5
  const LeftThumb: Frgp := 6
  const LeftIndex: Frgp := 7
  const LeftLittle: Frgp := 10
  const RightFour: Frgp := 13
  const LeftFour: Frgp := 14
  const RightAndLeftThumbs: Frgp := 15
  const UnknownFrictionRidge: Frgp := 18
  const RidgeEnding: MinutiaType := 0
  const MinutiaUnknown: MinutiaType := 3
  const Probe: TemplateType := 0
  const Reference: TemplateType := 1
  const Success: ResultCode := 0
  const Failure: ResultCode := 1

  /** Information about the result of calling an API function. */
  datatype ReturnStatus = ReturnStatus(result: ResultCode, message: Option<string>)

  /** `ReturnStatus{}`: the default-initialised members. */
  const DefaultStatus := ReturnStatus(Success, None)

  datatype Coordinate = Coordinate(x: uint32, y: uint32)

  datatype Minutia = Minutia(coordinate: Coordinate, theta: uint16, kind: MinutiaType)

  datatype Core = Core(coordinate: Coordinate, direction: Option<uint16>)

  /** The three optional directions of a delta. */
  datatype DeltaDirections = DeltaDirections(first: Option<uint16>, second: Option<uint16>, third: Option<uint16>)

  datatype Delta = Delta(coordinate: Coordinate, direction: Option<DeltaDirections>)

  /** Pair of corresponding minutiae in a probe and a reference image. */
  datatype Correspondence = Correspondence(
    referenceIdentifier: string,
    referenceInputIdentifier: uint8,
    referenceMinutia: Minutia,
    probeInputIdentifier: uint8,
    probeMinutia: Minutia)

  /**
   * Extended feature set: the members the validation driver logs (the ridge quality
   * map and the resolution are not logged).
   */
  datatype Efs = Efs(
    identifier: uint8,
    imp: Impression,
    frct: CaptureTechnology,
    frgp: Frgp,
    orientation: Option<int16>,
    lpm: Option<seq<ProcessingMethod>>,
    valueAssessment: Option<ValueAssessment>,
    lsb: Option<Substrate>,
    pat: Option<PatternClassification>,
    plr: Option<bool>,
    trv: Option<bool>,
    cores: Option<seq<Core>>,
    deltas: Option<seq<Delta>>,
    minutiae: Option<seq<Minutia>>,
    roi: Option<seq<Coordinate>>)

  /** An EFS with every member at its default initialiser. */
  const DefaultEfs := Efs(0, ImpressionUnknown, CaptureUnknown, UnknownFrictionRidge,
    None, None, None, None, None, None, None, None, None, None, None)

  datatype Image = Image(
    identifier: uint8,
    width: uint16,
    height: uint16,
    ppi: uint16,
    bpc: uint8,
    bpp: uint8,
    pixels: seq<byte>)

  /** One entry of the `samples` given to createTemplate. */
  datatype Sample = Sample(image: Option<Image>, efs: Option<Efs>)

  datatype CreateTemplateResult = CreateTemplateResult(status: ReturnStatus, data: seq<byte>)

  datatype TemplateData = TemplateData(
    candidateIdentifier: string,
    inputIdentifier: uint8,
    efs: Option<Efs>,
    imageQuality: Option<uint8>)

  /**
   * A search candidate. The similarity is a `double` in the API; the model
   * keeps integer similarities, which is every value the random
   * implementation produces.
   */
  datatype Candidate = Candidate(identifier: string, frgp: Frgp, similarity: int)

  datatype SearchResult = SearchResult(status: ReturnStatus, decision: bool, candidateList: seq<Candidate>)

  datatype CbeffIdentifier = CbeffIdentifier(owner: uint16, algorithm: Option<uint16>)

  datatype ProductIdentifier = ProductIdentifier(marketing: Option<string>, cbeff: Option<CbeffIdentifier>)

  /**
   * One manifest line of a TemplateArchive: `length` bytes of the archive,
   * starting `offset` bytes from its beginning, hold the template of
   * `identifier`.
   */
  datatype ManifestEntry = ManifestEntry(identifier: string, length: nat, offset: nat)
}
