/**
  The program's shape objects: each variant is a class with its integer
  fields, a constructor whose arguments default to 0, a `Save` that inserts
  its record into an output file, and a `Load` that extracts its fields from
  an input file into the object. A `ShapeRef` is a pointer to any of them.
*/
module Objects {
  import opened Decimal
  import opened Files
  import Shapes
  import Writer
  import Reader

  /**
    What one `Load` leaves behind. The object held `before` and the stream
    was at `pos` with failbit `failed`; afterwards the object holds `after`
    and the stream is at `next` with failbit `nowFailed`. A failed stream
    changes nothing; otherwise the fields are read as `Reader.Load` reads
    them, and the stream fails when they cannot all be read.
  */
  predicate LoadStep(text: string, pos: nat, failed: bool, before: Shapes.Shape,
                     next: nat, nowFailed: bool, after: Shapes.Shape)
    requires pos <= |text|
  {
    if failed then after == before && next == pos && nowFailed
    else
      match Reader.Load(before, text, pos)
      case Loaded(s, q) => after == s && next == q && !nowFailed
      case LoadFailed(_, s) => after == s && next == |text| && nowFailed
  }

  /**
    A chain of extractions reads fields exactly as `Reader.ReadFields` does:
    on a good stream it ends at the same place with the same values, or
    fails, with the stream then at its end; on a failed stream it assigns
    nothing.
  */
  lemma {:induction false} ChainReadsFields(text: string, pos: nat, failed: bool, held: seq<int32>)
    requires pos <= |text| && (failed ==> pos == |text|)
    ensures failed ==> Chain(text, pos, failed, held) == (held, pos, true)
    ensures !failed ==>
      match Reader.ReadFields(text, pos, held)
      case Got(vs, q) => Chain(text, pos, failed, held) == (vs, q, false)
      case FieldFailed(_, vs) => Chain(text, pos, failed, held) == (vs, |text|, true)
    decreases |held|
  {
    if held != [] {
      var e := IntStep(text, pos, failed, held[0]);
      ChainReadsFields(text, e.pos, e.failed, held[1..]);
      assert [held[0]] + held[1..] == held;
    }
  }

  /** A chain that reads the fields of `before` into those of `after` is a `Load`. */
  lemma LoadStepOfChain(text: string, pos: nat, failed: bool, before: Shapes.Shape,
                        next: nat, nowFailed: bool, after: Shapes.Shape)
    requires pos <= |text| && (failed ==> pos == |text|)
    requires Shapes.KindOf(after) == Shapes.KindOf(before)
    requires Chain(text, pos, failed, Shapes.Fields(before)) == (Shapes.Fields(after), next, nowFailed)
    ensures LoadStep(text, pos, failed, before, next, nowFailed, after)
  {
    ChainReadsFields(text, pos, failed, Shapes.Fields(before));
    if !failed {
      var r := Reader.Load(before, text, pos);
      Shapes.FieldsInjective(r.shape, after);
    } else {
      Shapes.FieldsInjective(before, after);
    }
  }

  /** `class Square`: its fields, in the order they are declared. */
  class Square {
    var x: int32
    var y: int32
    var side: int32

    /** The constructor; every argument left out is 0. */
    constructor (x: int32 := 0, y: int32 := 0, side: int32 := 0)
      ensures Value() == Shapes.Square(x, y, side)
    {
      this.x := x;
      this.y := y;
      this.side := side;
    }

    /** The shape the object holds. */
    function Value(): Shapes.Shape
      reads this
    {
      Shapes.Square(x, y, side)
    }

    /** `Square::Save`: the tag, then each field after a space, then a newline. */
    method Save(file: OutFile)
      modifies file
      ensures file.text == old(file.text) + Writer.Save(Value())
    {
      ghost var start := file.text;
      file.Write("Square ");
      ghost var line := "Square ";
      file.WriteInt(x);
      AppendAssoc(start, line, Writer.Dec(x));
      line := line + Writer.Dec(x);
      file.Write(" ");
      AppendAssoc(start, line, " ");
      line := line + " ";
      file.WriteInt(y);
      AppendAssoc(start, line, Writer.Dec(y));
      line := line + Writer.Dec(y);
      file.Write(" ");
      AppendAssoc(start, line, " ");
      line := line + " ";
      file.WriteInt(side);
      AppendAssoc(start, line, Writer.Dec(side));
      line := line + Writer.Dec(side);
      file.Write("\n");
      AppendAssoc(start, line, "\n");
      line := line + "\n";
      Writer.SaveSquare(x, y, side);
    }

    /** `Square::Load`: extracts the fields, in declared order, into the object. */
    method Load(file: InFile)
      requires file.Valid()
      modifies this, file
      ensures file.Valid()
      ensures LoadStep(file.text, old(file.pos), old(file.failed), old(Value()), file.pos, file.failed, Value())
    {
      ghost var before := Value();
      ghost var p0, f0 := file.pos, file.failed;
      x := file.ExtractInt(x);
      ghost var e1 := Extracted(x, file.pos, file.failed);
      y := file.ExtractInt(y);
      ghost var e2 := Extracted(y, file.pos, file.failed);
      side := file.ExtractInt(side);
      ghost var e3 := Extracted(side, file.pos, file.failed);
      Chain3(file.text, p0, f0, before.x, before.y, before.side, e1, e2, e3);
      LoadStepOfChain(file.text, p0, f0, before, file.pos, file.failed, Value());
    }
  }

  /** `class Rectangle`: its fields, in the order they are declared. */
  class Rectangle {
    var x: int32
    var y: int32
    var width: int32
    var height: int32

    /** The constructor; every argument left out is 0. */
    constructor (x: int32 := 0, y: int32 := 0, width: int32 := 0, height: int32 := 0)
      ensures Value() == Shapes.Rectangle(x, y, width, height)
    {
      this.x := x;
      this.y := y;
      this.width := width;
      this.height := height;
    }

    /** The shape the object holds. */
    function Value(): Shapes.Shape
      reads this
    {
      Shapes.Rectangle(x, y, width, height)
    }

    /** `Rectangle::Save`: the tag, then each field after a space, then a newline. */
    method Save(file: OutFile)
      modifies file
      ensures file.text == old(file.text) + Writer.Save(Value())
    {
      ghost var start := file.text;
      file.Write("Rectangle ");
      ghost var line := "Rectangle ";
      file.WriteInt(x);
      AppendAssoc(start, line, Writer.Dec(x));
      line := line + Writer.Dec(x);
      file.Write(" ");
      AppendAssoc(start, line, " ");
      line := line + " ";
      file.WriteInt(y);
      AppendAssoc(start, line, Writer.Dec(y));
      line := line + Writer.Dec(y);
      file.Write(" ");
      AppendAssoc(start, line, " ");
      line := line + " ";
      file.WriteInt(width);
      AppendAssoc(start, line, Writer.Dec(width));
      line := line + Writer.Dec(width);
      file.Write(" ");
      AppendAssoc(start, line, " ");
      line := line + " ";
      file.WriteInt(height);
      AppendAssoc(start, line, Writer.Dec(height));
      line := line + Writer.Dec(height);
      file.Write("\n");
      AppendAssoc(start, line, "\n");
      line := line + "\n";
      Writer.SaveRectangle(x, y, width, height);
    }

    /** `Rectangle::Load`: extracts the fields, in declared order, into the object. */
    method Load(file: InFile)
      requires file.Valid()
      modifies this, file
      ensures file.Valid()
      ensures LoadStep(file.text, old(file.pos), old(file.failed), old(Value()), file.pos, file.failed, Value())
    {
      ghost var before := Value();
      ghost var p0, f0 := file.pos, file.failed;
      x := file.ExtractInt(x);
      ghost var e1 := Extracted(x, file.pos, file.failed);
      y := file.ExtractInt(y);
      ghost var e2 := Extracted(y, file.pos, file.failed);
      width := file.ExtractInt(width);
      ghost var e3 := Extracted(width, file.pos, file.failed);
      height := file.ExtractInt(height);
      ghost var e4 := Extracted(height, file.pos, file.failed);
      Chain4(file.text, p0, f0, before.x, before.y, before.width, before.height, e1, e2, e3, e4);
      LoadStepOfChain(file.text, p0, f0, before, file.pos, file.failed, Value());
    }
  }

  /** `class Circle`: its fields, in the order they are declared. */
  class Circle {
    var x: int32
    var y: int32
    var radius: int32

    /** The constructor; every argument left out is 0. */
    constructor (x: int32 := 0, y: int32 := 0, radius: int32 := 0)
      ensures Value() == Shapes.Circle(x, y, radius)
    {
      this.x := x;
      this.y := y;
      this.radius := radius;
    }

    /** The shape the object holds. */
    function Value(): Shapes.Shape
      reads this
    {
      Shapes.Circle(x, y, radius)
    }

    /** `Circle::Save`: the tag, then each field after a space, then a newline. */
    method Save(file: OutFile)
      modifies file
      ensures file.text == old(file.text) + Writer.Save(Value())
    {
      ghost var start := file.text;
      file.Write("Circle ");
      ghost var line := "Circle ";
      file.WriteInt(x);
      AppendAssoc(start, line, Writer.Dec(x));
      line := line + Writer.Dec(x);
      file.Write(" ");
      AppendAssoc(start, line, " ");
      line := line + " ";
      file.WriteInt(y);
      AppendAssoc(start, line, Writer.Dec(y));
      line := line + Writer.Dec(y);
      file.Write(" ");
      AppendAssoc(start, line, " ");
      line := line + " ";
      file.WriteInt(radius);
      AppendAssoc(start, line, Writer.Dec(radius));
      line := line + Writer.Dec(radius);
      file.Write("\n");
      AppendAssoc(start, line, "\n");
      line := line + "\n";
      Writer.SaveCircle(x, y, radius);
    }

    /** `Circle::Load`: extracts the fields, in declared order, into the object. */
    method Load(file: InFile)
      requires file.Valid()
      modifies this, file
      ensures file.Valid()
      ensures LoadStep(file.text, old(file.pos), old(file.failed), old(Value()), file.pos, file.failed, Value())
    {
      ghost var before := Value();
      ghost var p0, f0 := file.pos, file.failed;
      x := file.ExtractInt(x);
      ghost var e1 := Extracted(x, file.pos, file.failed);
      y := file.ExtractInt(y);
      ghost var e2 := Extracted(y, file.pos, file.failed);
      radius := file.ExtractInt(radius);
      ghost var e3 := Extracted(radius, file.pos, file.failed);
      Chain3(file.text, p0, f0, before.x, before.y, before.radius, e1, e2, e3);
      LoadStepOfChain(file.text, p0, f0, before, file.pos, file.failed, Value());
    }
  }

  /** `class Ellipse`: its fields, in the order they are declared. */
  class Ellipse {
    var x: int32
    var y: int32
    var width: int32
    var height: int32

    /** The constructor; every argument left out is 0. */
    constructor (x: int32 := 0, y: int32 := 0, width: int32 := 0, height: int32 := 0)
      ensures Value() == Shapes.Ellipse(x, y, width, height)
    {
      this.x := x;
      this.y := y;
      this.width := width;
      this.height := height;
    }

    /** The shape the object holds. */
    function Value(): Shapes.Shape
      reads this
    {
      Shapes.Ellipse(x, y, width, height)
    }

    /** `Ellipse::Save`: the tag, then each field after a space, then a newline. */
    method Save(file: OutFile)
      modifies file
      ensures file.text == old(file.text) + Writer.Save(Value())
    {
      ghost var start := file.text;
      file.Write("Ellipse ");
      ghost var line := "Ellipse ";
      file.WriteInt(x);
      AppendAssoc(start, line, Writer.Dec(x));
      line := line + Writer.Dec(x);
      file.Write(" ");
      AppendAssoc(start, line, " ");
      line := line + " ";
      file.WriteInt(y);
      AppendAssoc(start, line, Writer.Dec(y));
      line := line + Writer.Dec(y);
      file.Write(" ");
      AppendAssoc(start, line, " ");
      line := line + " ";
      file.WriteInt(width);
      AppendAssoc(start, line, Writer.Dec(width));
      line := line + Writer.Dec(width);
      file.Write(" ");
      AppendAssoc(start, line, " ");
      line := line + " ";
      file.WriteInt(height);
      AppendAssoc(start, line, Writer.Dec(height));
      line := line + Writer.Dec(height);
      file.Write("\n");
      AppendAssoc(start, line, "\n");
      line := line + "\n";
      Writer.SaveEllipse(x, y, width, height);
    }

    /** `Ellipse::Load`: extracts the fields, in declared order, into the object. */
    method Load(file: InFile)
      requires file.Valid()
      modifies this, file
      ensures file.Valid()
      ensures LoadStep(file.text, old(file.pos), old(file.failed), old(Value()), file.pos, file.failed, Value())
    {
      ghost var before := Value();
      ghost var p0, f0 := file.pos, file.failed;
      x := file.ExtractInt(x);
      ghost var e1 := Extracted(x, file.pos, file.failed);
      y := file.ExtractInt(y);
      ghost var e2 := Extracted(y, file.pos, file.failed);
      width := file.ExtractInt(width);
      ghost var e3 := Extracted(width, file.pos, file.failed);
      height := file.ExtractInt(height);
      ghost var e4 := Extracted(height, file.pos, file.failed);
      Chain4(file.text, p0, f0, before.x, before.y, before.width, before.height, e1, e2, e3, e4);
      LoadStepOfChain(file.text, p0, f0, before, file.pos, file.failed, Value());
    }
  }

  /** `std::shared_ptr<Shape>`: a pointer to an object of one of the four classes. */
  datatype ShapeRef =
    | SquareRef(square: Square)
    | RectangleRef(rectangle: Rectangle)
    | CircleRef(circle: Circle)
    | EllipseRef(ellipse: Ellipse)

  /** The object a pointer points to. */
  function Target(r: ShapeRef): object {
    match r
    case SquareRef(o) => o
    case RectangleRef(o) => o
    case CircleRef(o) => o
    case EllipseRef(o) => o
  }

  /** The objects a vector of pointers points to. */
  function Targets(rs: seq<ShapeRef>): set<object> {
    set r | r in rs :: Target(r)
  }

  /** The shape the pointed-to object holds. */
  function ValueOf(r: ShapeRef): Shapes.Shape
    reads Target(r)
  {
    match r
    case SquareRef(o) => o.Value()
    case RectangleRef(o) => o.Value()
    case CircleRef(o) => o.Value()
    case EllipseRef(o) => o.Value()
  }

  /** The shapes a vector of pointers points to, in vector order. */
  function ValuesOf(rs: seq<ShapeRef>): (vs: seq<Shapes.Shape>)
    reads Targets(rs)
    ensures |vs| == |rs|
  {
    if rs == [] then [] else [ValueOf(rs[0])] + ValuesOf(rs[1..])
  }

  /** The `i`-th shape is the one the `i`-th pointer points to. */
  lemma {:induction false} ValuesOfIndex(rs: seq<ShapeRef>, i: nat)
    requires i < |rs|
    ensures ValuesOf(rs)[i] == ValueOf(rs[i])
    decreases i
  {
    if i > 0 {
      ValuesOfIndex(rs[1..], i - 1);
    }
  }

  /** Appending a pointer appends the shape it points to. */
  lemma {:induction false} ValuesOfSnoc(rs: seq<ShapeRef>, r: ShapeRef)
    ensures ValuesOf(rs + [r]) == ValuesOf(rs) + [ValueOf(r)]
    decreases |rs|
  {
    if rs == [] {
      assert rs + [r] == [r] && [r][1..] == [];
    } else {
      assert (rs + [r])[1..] == rs[1..] + [r];
      ValuesOfSnoc(rs[1..], r);
      assert [ValueOf(rs[0])] + (ValuesOf(rs[1..]) + [ValueOf(r)]) == ValuesOf(rs) + [ValueOf(r)];
    }
  }

  /** No output file is one of the shape objects. */
  lemma OutFileIsNoShape(rs: seq<ShapeRef>, outFile: OutFile)
    ensures forall i :: 0 <= i < |rs| ==> Target(rs[i]) != outFile
  {
    forall i | 0 <= i < |rs|
      ensures Target(rs[i]) != outFile
    {
      match rs[i]
      case SquareRef(o) =>
      case RectangleRef(o) =>
      case CircleRef(o) =>
      case EllipseRef(o) =>
    }
  }

  /** No input file is one of the shape objects. */
  lemma InFileIsNoShape(rs: seq<ShapeRef>, inFile: InFile)
    ensures forall i :: 0 <= i < |rs| ==> Target(rs[i]) != inFile
  {
    forall i | 0 <= i < |rs|
      ensures Target(rs[i]) != inFile
    {
      match rs[i]
      case SquareRef(o) =>
      case RectangleRef(o) =>
      case CircleRef(o) =>
      case EllipseRef(o) =>
    }
  }

  /** `shape->Save(file)`: the call goes to the `Save` of the object's own class. */
  method SaveShape(r: ShapeRef, file: OutFile, ghost rs: seq<ShapeRef>)
    modifies file
    ensures file.text == old(file.text) + Writer.Save(old(ValueOf(r)))
    ensures ValuesOf(rs) == old(ValuesOf(rs))
  {
    OutFileIsNoShape(rs, file);
    match r {
      case SquareRef(o) => o.Save(file);
      case RectangleRef(o) => o.Save(file);
      case CircleRef(o) => o.Save(file);
      case EllipseRef(o) => o.Save(file);
    }
    ValuesOfUnchanged(rs);
  }

  /**
    The read loop's `if` chain, once it has found the kind the tag names:
    `std::make_shared` of that class, with every field 0, then that object's
    `Load` from the file. Nothing that existed before is changed but the file.
  */
  method LoadNew(k: Shapes.Kind, file: InFile) returns (r: ShapeRef)
    requires file.Valid()
    modifies file
    ensures file.Valid() && fresh(Target(r))
    ensures LoadStep(file.text, old(file.pos), old(file.failed), Shapes.Default(k), file.pos, file.failed, ValueOf(r))
  {
    match k {
      case SquareKind => r := LoadNewSquare(file);
      case RectangleKind => r := LoadNewRectangle(file);
      case CircleKind => r := LoadNewCircle(file);
      case EllipseKind => r := LoadNewEllipse(file);
    }
  }

  /** The `"Square"` branch: a new `Square` with every field 0 loads itself. */
  method LoadNewSquare(file: InFile) returns (r: ShapeRef)
    requires file.Valid()
    modifies file
    ensures file.Valid() && fresh(Target(r))
    ensures LoadStep(file.text, old(file.pos), old(file.failed), Shapes.Default(Shapes.SquareKind), file.pos, file.failed, ValueOf(r))
  {
    var shape := new Square();
    assert shape.Value() == Shapes.Default(Shapes.SquareKind);
    shape.Load(file);
    r := SquareRef(shape);
    assert Target(r) == shape && ValueOf(r) == shape.Value();
  }

  /** The `"Rectangle"` branch: a new `Rectangle` with every field 0 loads itself. */
  method LoadNewRectangle(file: InFile) returns (r: ShapeRef)
    requires file.Valid()
    modifies file
    ensures file.Valid() && fresh(Target(r))
    ensures LoadStep(file.text, old(file.pos), old(file.failed), Shapes.Default(Shapes.RectangleKind), file.pos, file.failed, ValueOf(r))
  {
    var shape := new Rectangle();
    assert shape.Value() == Shapes.Default(Shapes.RectangleKind);
    shape.Load(file);
    r := RectangleRef(shape);
    assert Target(r) == shape && ValueOf(r) == shape.Value();
  }

  /** The `"Circle"` branch: a new `Circle` with every field 0 loads itself. */
  method LoadNewCircle(file: InFile) returns (r: ShapeRef)
    requires file.Valid()
    modifies file
    ensures file.Valid() && fresh(Target(r))
    ensures LoadStep(file.text, old(file.pos), old(file.failed), Shapes.Default(Shapes.CircleKind), file.pos, file.failed, ValueOf(r))
  {
    var shape := new Circle();
    assert shape.Value() == Shapes.Default(Shapes.CircleKind);
    shape.Load(file);
    r := CircleRef(shape);
    assert Target(r) == shape && ValueOf(r) == shape.Value();
  }

  /** The `"Ellipse"` branch: a new `Ellipse` with every field 0 loads itself. */
  method LoadNewEllipse(file: InFile) returns (r: ShapeRef)
    requires file.Valid()
    modifies file
    ensures file.Valid() && fresh(Target(r))
    ensures LoadStep(file.text, old(file.pos), old(file.failed), Shapes.Default(Shapes.EllipseKind), file.pos, file.failed, ValueOf(r))
  {
    var shape := new Ellipse();
    assert shape.Value() == Shapes.Default(Shapes.EllipseKind);
    shape.Load(file);
    r := EllipseRef(shape);
    assert Target(r) == shape && ValueOf(r) == shape.Value();
  }

  /** Shapes whose objects were not changed hold the values they held. */
  twostate lemma ValuesOfUnchanged(rs: seq<ShapeRef>)
    requires forall i :: 0 <= i < |rs| ==> unchanged(Target(rs[i]))
    ensures ValuesOf(rs) == old(ValuesOf(rs))
    decreases |rs|
  {
    if rs != [] {
      assert unchanged(Target(rs[0]));
      ValuesOfUnchanged(rs[1..]);
    }
  }
}
