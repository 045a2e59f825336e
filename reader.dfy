/**
  The read path: the program's tag-dispatch loop, which extracts a tag word,
  default-constructs the variant it names, lets that variant `Load` its
  fields, and appends the shape; and a fail-fast variant of the same loop
  that reports the first malformed record instead of skipping or stopping.
*/
module Reader {
  import opened Results
  import opened Decimal
  import opened Stream
  import opened Shapes

  /**
    The outcome of a chain `file >> f1 >> f2 >> ...` into fields that hold
    some values beforehand: either every extraction succeeds, or the stream
    is left failed; either way `values` is what the fields then hold.
  */
  datatype FieldsScan =
    | Got(values: seq<int32>, next: nat)
    | FieldFailed(error: FormatError, values: seq<int32>)

  /**
    Extract integers one after another into fields that hold `held`. The
    first extraction that fails ends the chain: at the end of the input the
    record is truncated and the field keeps its value, otherwise the field is
    not an `int` and it gets 0, or the nearest bound when its numeral is out
    of range. Once the stream has failed, the later extractions assign
    nothing.
  */
  function ReadFields(t: string, pos: nat, held: seq<int32>): (r: FieldsScan)
    requires pos <= |t|
    ensures |r.values| == |held|
    ensures r.Got? ==> pos <= r.next <= |t| && (held != [] ==> pos < r.next)
    ensures r.FieldFailed? ==> held != [] && (r.error == TruncatedRecord || r.error == NonIntegerField)
    decreases |held|
  {
    if held == [] then Got([], pos)
    else
      match ScanInt(t, pos)
      case Parsed(v, p) =>
        (match ReadFields(t, p, held[1..])
         case Got(vs, q) => Got([v] + vs, q)
         case FieldFailed(e, vs) => FieldFailed(e, [v] + vs))
      case AtEnd => FieldFailed(TruncatedRecord, held)
      case NotANumber => FieldFailed(NonIntegerField, [0] + held[1..])
      case OutOfRange(bound) => FieldFailed(NonIntegerField, [bound] + held[1..])
  }

  /**
    The outcome of one variant's `Load`. Either way the shape is what the
    object holds afterwards; a failed `Load` leaves the stream failed.
  */
  datatype LoadOutcome =
    | Loaded(shape: Shape, next: nat)
    | LoadFailed(error: FormatError, shape: Shape)

  /**
    `Load` on an object holding `s`: read exactly as many fields as the
    variant has, in its declared order, into the fields of `s`. The variant
    never changes.
  */
  function Load(s: Shape, t: string, pos: nat): (r: LoadOutcome)
    requires pos <= |t|
    ensures KindOf(r.shape) == KindOf(s) && Fields(r.shape) == ReadFields(t, pos, Fields(s)).values
    ensures r.Loaded? ==> pos < r.next <= |t| && ReadFields(t, pos, Fields(s)).Got? && r.next == ReadFields(t, pos, Fields(s)).next
    ensures r.LoadFailed? <==> ReadFields(t, pos, Fields(s)).FieldFailed?
    ensures r.LoadFailed? ==> r.error == ReadFields(t, pos, Fields(s)).error
  {
    match ReadFields(t, pos, Fields(s))
    case Got(fs, q) => Loaded(FromFields(KindOf(s), fs).value, q)
    case FieldFailed(e, fs) => LoadFailed(e, FromFields(KindOf(s), fs).value)
  }

  /**
    What the read loop appends to `loadedShapes` from cursor `pos` on. A tag
    word naming no variant is consumed and nothing is appended; a record
    whose fields cannot be read is still appended, as far as its fields were
    filled in, and then the failed stream ends the loop.
  */
  function ReadFrom(t: string, pos: nat): (r: seq<Shape>)
    requires pos <= |t|
    ensures |r| <= |t| - pos
    decreases |t| - pos
  {
    match ScanWord(t, pos)
    case None => []
    case Some((tag, p)) =>
      match Dispatch(tag)
      case None => ReadFrom(t, p)
      case Some(k) =>
        match Load(Default(k), t, p)
        case Loaded(s, q) => [s] + ReadFrom(t, q)
        case LoadFailed(_, s) => [s]
  }

  /** The shapes the read loop loads from the whole file. */
  function ReadShapes(t: string): (r: seq<Shape>)
    ensures |r| <= |t|
    ensures BlankFrom(t, 0) ==> r == []
  {
    ScanWordMeaning(t, 0);
    ReadFrom(t, 0)
  }

  /**
    The fail-fast reader: the same loop, except that an unknown tag or a
    malformed record makes the whole read fail with that error. Whenever it
    succeeds it returns exactly what the program's read loop loads.
  */
  function DeserializeFrom(t: string, pos: nat): (r: Result<seq<Shape>, FormatError>)
    requires pos <= |t|
    ensures r.Ok? ==> r.value == ReadFrom(t, pos)
    decreases |t| - pos
  {
    match ScanWord(t, pos)
    case None => Ok([])
    case Some((tag, p)) =>
      match Dispatch(tag)
      case None => Err(UnknownTag(tag))
      case Some(k) =>
        match Load(Default(k), t, p)
        case LoadFailed(e, _) => Err(e)
        case Loaded(s, q) =>
          match DeserializeFrom(t, q)
          case Ok(rest) => Ok([s] + rest)
          case Err(e) => Err(e)
  }

  /** The fail-fast reader over the whole file; when it succeeds it agrees with the read loop. */
  function Deserialize(t: string): (r: Result<seq<Shape>, FormatError>)
    ensures r.Ok? ==> r.value == ReadShapes(t)
  {
    DeserializeFrom(t, 0)
  }
}
