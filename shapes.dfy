/**
  The four shape variants, their type tags, and the fixed order in which each
  variant's fields are written and read.
*/
module Shapes {
  import opened Results
  import opened Decimal

  /** A shape is its variant and its integer fields; nothing else identifies it. */
  datatype Shape =
    | Square(x: int32, y: int32, side: int32)
    | Rectangle(x: int32, y: int32, width: int32, height: int32)
    | Circle(x: int32, y: int32, radius: int32)
    | Ellipse(x: int32, y: int32, width: int32, height: int32)

  /** Which variant a record holds, as the tag names it. */
  datatype Kind = SquareKind | RectangleKind | CircleKind | EllipseKind

  /** Why a record cannot be turned back into a shape. */
  datatype FormatError =
    | UnknownTag(tag: string)   // the tag names no variant
    | TruncatedRecord           // the input ended before all of the record's fields
    | NonIntegerField           // a field is not a numeral, or does not fit in an `int`
    | WrongFieldCount           // a variant was given the wrong number of field values

  function KindOf(s: Shape): Kind {
    match s
    case Square(_, _, _) => SquareKind
    case Rectangle(_, _, _, _) => RectangleKind
    case Circle(_, _, _) => CircleKind
    case Ellipse(_, _, _, _) => EllipseKind
  }

  /** The tag each variant's record starts with. */
  function TagName(k: Kind): (name: string)
    ensures |name| > 0 && 'A' <= name[0] <= 'Z'
    ensures forall c :: c in name ==> 'A' <= c <= 'Z' || 'a' <= c <= 'z'
  {
    match k
    case SquareKind => "Square"
    case RectangleKind => "Rectangle"
    case CircleKind => "Circle"
    case EllipseKind => "Ellipse"
  }

  /** How many fields follow the tag. */
  function Arity(k: Kind): (n: nat)
    ensures 3 <= n <= 4
  {
    match k
    case SquareKind => 3
    case RectangleKind => 4
    case CircleKind => 3
    case EllipseKind => 4
  }

  /**
    The reader's `if`/`else if` chain on the tag token: each of the four names
    selects its own variant and no other, and every other token selects none.
  */
  function Dispatch(tag: string): (r: Option<Kind>)
    ensures forall k :: r == Some(k) <==> TagName(k) == tag
  {
    if tag == "Square" then Some(SquareKind)
    else if tag == "Rectangle" then Some(RectangleKind)
    else if tag == "Circle" then Some(CircleKind)
    else if tag == "Ellipse" then Some(EllipseKind)
    else None
  }

  /** The fields in the variant's declared order: position first, then its extent. */
  function Fields(s: Shape): (fs: seq<int32>)
    ensures |fs| == Arity(KindOf(s))
    ensures fs[0] == s.x && fs[1] == s.y
  {
    match s
    case Square(x, y, side) => [x, y, side]
    case Rectangle(x, y, width, height) => [x, y, width, height]
    case Circle(x, y, radius) => [x, y, radius]
    case Ellipse(x, y, width, height) => [x, y, width, height]
  }

  /** The shape each variant's constructor builds when given no arguments: every field 0. */
  function Default(k: Kind): (s: Shape)
    ensures KindOf(s) == k
    ensures forall i :: 0 <= i < |Fields(s)| ==> Fields(s)[i] == 0
  {
    match k
    case SquareKind => Square(0, 0, 0)
    case RectangleKind => Rectangle(0, 0, 0, 0)
    case CircleKind => Circle(0, 0, 0)
    case EllipseKind => Ellipse(0, 0, 0, 0)
  }

  /**
    A default-constructed shape of kind `k` whose fields are then assigned
    from `fs` in declared order. Any values are accepted; only the count is
    checked.
  */
  function FromFields(k: Kind, fs: seq<int32>): (r: Result<Shape, FormatError>)
    ensures r.Ok? <==> |fs| == Arity(k)
    ensures r.Ok? ==> KindOf(r.value) == k && Fields(r.value) == fs
    ensures r.Err? ==> r.error == WrongFieldCount
  {
    if |fs| != Arity(k) then Err(WrongFieldCount)
    else
      match k
      case SquareKind => Ok(Square(fs[0], fs[1], fs[2]))
      case RectangleKind => Ok(Rectangle(fs[0], fs[1], fs[2], fs[3]))
      case CircleKind => Ok(Circle(fs[0], fs[1], fs[2]))
      case EllipseKind => Ok(Ellipse(fs[0], fs[1], fs[2], fs[3]))
  }

  /** A shape is determined by its kind and its fields. */
  lemma FieldsInjective(a: Shape, b: Shape)
    requires KindOf(a) == KindOf(b) && Fields(a) == Fields(b)
    ensures a == b
  {
    assert Fields(a)[2] == Fields(b)[2];
    if Arity(KindOf(a)) == 4 {
      assert Fields(a)[3] == Fields(b)[3];
    }
  }

  /** Rebuilding a shape from its own kind and fields gives that shape back. */
  lemma FromFieldsOfFields(s: Shape)
    ensures FromFields(KindOf(s), Fields(s)) == Ok(s)
  {
    var r := FromFields(KindOf(s), Fields(s));
    FieldsInjective(r.value, s);
  }
}
