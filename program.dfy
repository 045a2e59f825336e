/**
  The program's two loops over its shape objects and the file between them:
  `main` saves a vector of shapes to `shapes.txt`, then reads the file back
  into a second vector with its tag-dispatch loop.
*/
module Program {
  import opened Results
  import opened Files
  import opened Objects
  import Stream
  import Shapes
  import Writer
  import Reader
  import RoundTrip
  import Scenarios

  /** The write loop: `shape->Save(outFile)` for each pointer of the vector, in order. */
  method WriteAll(shapes: seq<ShapeRef>, outFile: OutFile)
    modifies outFile
    ensures outFile.text == old(outFile.text) + Writer.Serialize(ValuesOf(shapes))
  {
    ghost var start := outFile.text;
    ghost var values := ValuesOf(shapes);
    ghost var written := "";
    for i := 0 to |shapes|
      invariant ValuesOf(shapes) == values
      invariant outFile.text == start + written
      invariant written == Writer.Serialize(values[..i])
    {
      written := SaveNext(shapes, i, outFile, start, values, written);
    }
    WholePrefix(values);
  }

  /** The prefix as long as the sequence is the sequence. */
  lemma WholePrefix(values: seq<Shapes.Shape>)
    ensures values[..|values|] == values
  {
  }

  /**
    One pass of the write loop: the `i`-th shape saves itself, and its
    record follows those of the shapes before it.
  */
  method SaveNext(shapes: seq<ShapeRef>, i: nat, outFile: OutFile,
                  ghost start: string, ghost values: seq<Shapes.Shape>, ghost written: string)
    returns (ghost now: string)
    requires i < |shapes| && ValuesOf(shapes) == values
    requires outFile.text == start + written && written == Writer.Serialize(values[..i])
    modifies outFile
    ensures ValuesOf(shapes) == values
    ensures outFile.text == start + now && now == Writer.Serialize(values[..i + 1])
  {
    ValuesOfIndex(shapes, i);
    SaveShape(shapes[i], outFile, shapes);
    Writer.SerializeSnoc(values, i);
    now := written + Writer.Save(values[i]);
    AppendAssoc(start, written, Writer.Save(values[i]));
  }

  /** What is left for the read loop to load from a stream at `pos` whose failbit is `failed`. */
  function Remaining(t: string, pos: nat, failed: bool): (r: seq<Shapes.Shape>)
    requires pos <= |t|
    ensures |r| <= |t| - pos
  {
    if failed then [] else Reader.ReadFrom(t, pos)
  }

  /**
    One pass of the read loop that extracted a known tag: the variant the tag
    names is default-constructed and loaded, and its shape is the first of
    what was left to load; the rest is what is left afterwards.
  */
  lemma ReadStep(t: string, before: nat, p: nat, tag: string, k: Shapes.Kind,
                 next: nat, failed: bool, loaded: Shapes.Shape)
    requires before <= |t| && p <= |t| && next <= |t|
    requires Stream.ScanWord(t, before) == Some((tag, p)) && Shapes.Dispatch(tag) == Some(k)
    requires LoadStep(t, p, false, Shapes.Default(k), next, failed, loaded)
    ensures Reader.ReadFrom(t, before) == [loaded] + Remaining(t, next, failed)
  {
    if failed {
      assert [loaded] + [] == [loaded];
    }
  }

  /**
    The read loop's invariant after a pass that loaded `loaded`: what was
    loaded before, that shape and what is left still make up the goal.
  */
  lemma Advance(t: string, before: nat, p: nat, tag: string, k: Shapes.Kind,
                next: nat, failed: bool, loaded: Shapes.Shape, done: seq<Shapes.Shape>, goal: seq<Shapes.Shape>)
    requires before <= |t| && p <= |t| && next <= |t|
    requires Stream.ScanWord(t, before) == Some((tag, p)) && Shapes.Dispatch(tag) == Some(k)
    requires LoadStep(t, p, false, Shapes.Default(k), next, failed, loaded)
    requires done + Remaining(t, before, false) == goal
    ensures (done + [loaded]) + Remaining(t, next, failed) == goal
  {
    ReadStep(t, before, p, tag, k, next, failed, loaded);
    assert done + ([loaded] + Remaining(t, next, failed)) == (done + [loaded]) + Remaining(t, next, failed);
  }

  /** One pass of the read loop that extracted a tag naming no variant: nothing is loaded. */
  lemma SkipStep(t: string, before: nat, p: nat, tag: string)
    requires before <= |t| && p <= |t|
    requires Stream.ScanWord(t, before) == Some((tag, p)) && Shapes.Dispatch(tag) == None
    ensures Reader.ReadFrom(t, before) == Reader.ReadFrom(t, p)
  {
  }

  /**
    The read loop: `while (inFile >> shapeType)`, comparing the tag with each
    class name in turn, default-constructing that class, letting it `Load`
    itself and `push_back`-ing the pointer. It ends once an extraction
    fails, and it has then loaded exactly what `Reader.ReadFrom` describes.
  */
  method ReadAll(inFile: InFile) returns (loadedShapes: seq<ShapeRef>)
    requires inFile.Valid()
    modifies inFile
    ensures inFile.Valid() && inFile.failed
    ensures ValuesOf(loadedShapes) == Remaining(inFile.text, old(inFile.pos), old(inFile.failed))
    ensures forall i :: 0 <= i < |loadedShapes| ==> fresh(Target(loadedShapes[i]))
  {
    ghost var t := inFile.text;
    ghost var goal := Remaining(t, inFile.pos, inFile.failed);
    loadedShapes := [];
    var shapeType := "";
    while true
      invariant inFile.Valid() && inFile.text == t
      invariant forall i :: 0 <= i < |loadedShapes| ==> allocated(Target(loadedShapes[i])) && fresh(Target(loadedShapes[i]))
      invariant ValuesOf(loadedShapes) + Remaining(t, inFile.pos, inFile.failed) == goal
      decreases |t| - inFile.pos + (if inFile.failed then 0 else 1)
    {
      label Head:
      ghost var before, wasFailed := inFile.pos, inFile.failed;
      ghost var done := ValuesOf(loadedShapes);
      InFileIsNoShape(loadedShapes, inFile);
      shapeType := inFile.ExtractWord(shapeType);
      if inFile.failed {
        assert Remaining(t, before, wasFailed) == [];
        assert done + [] == done;
        ValuesOfUnchanged@Head(loadedShapes);
        return;
      }
      ghost var p := inFile.pos;
      match Shapes.Dispatch(shapeType) {
        case Some(k) =>
          var shape := LoadNew(k, inFile);
          ValuesOfUnchanged@Head(loadedShapes);
          Advance(t, before, p, shapeType, k, inFile.pos, inFile.failed, ValueOf(shape), done, goal);
          ValuesOfSnoc(loadedShapes, shape);
          loadedShapes := loadedShapes + [shape];
        case None =>
          ValuesOfUnchanged@Head(loadedShapes);
          SkipStep(t, before, p, shapeType);
      }
    }
  }

  /**
    Saving a vector of shapes to a new file and reading that file back: the
    file holds the records of the shapes, and what is read back are new
    objects holding the same shapes, in the same order.
  */
  method SaveThenLoad(shapes: seq<ShapeRef>) returns (text: string, loadedShapes: seq<ShapeRef>)
    ensures text == Writer.Serialize(ValuesOf(shapes))
    ensures ValuesOf(loadedShapes) == ValuesOf(shapes)
    ensures forall i :: 0 <= i < |loadedShapes| ==> fresh(Target(loadedShapes[i]))
  {
    label Start:
    ghost var values := ValuesOf(shapes);
    assert forall i :: 0 <= i < |shapes| ==> allocated(Target(shapes[i]));
    var outFile := new OutFile();
    OutFileIsNoShape(shapes, outFile);
    WriteAll(shapes, outFile);
    ValuesOfUnchanged@Start(shapes);
    text := outFile.text;
    assert text == Writer.Serialize(values);
    var inFile := new InFile(text);
    InFileIsNoShape(shapes, inFile);
    loadedShapes := ReadAll(inFile);
    ValuesOfUnchanged@Start(shapes);
    RoundTrip.Roundtrip(values);
  }

  /** The program's vector: a square, a rectangle, a circle and an ellipse, each a new object. */
  method NewProgramShapes() returns (shapes: seq<ShapeRef>)
    ensures ValuesOf(shapes) == Scenarios.ProgramShapes()
  {
    var square := new Square(0, 0, 10);
    var rectangle := new Rectangle(1, 1, 20, 10);
    var circle := new Circle(5, 5, 7);
    var ellipse := new Ellipse(2, 2, 10, 6);
    shapes := [SquareRef(square), RectangleRef(rectangle), CircleRef(circle), EllipseRef(ellipse)];
    ValuesOfIndex(shapes, 0);
    ValuesOfIndex(shapes, 1);
    ValuesOfIndex(shapes, 2);
    ValuesOfIndex(shapes, 3);
  }

  /**
    The program's own run: its vector is saved to a new file, one line per
    shape, and the file read back holds the same four shapes.
  */
  method Run() returns (text: string, loadedShapes: seq<ShapeRef>)
    ensures text == "Square 0 0 10\n" + ("Rectangle 1 1 20 10\n" + ("Circle 5 5 7\n" + "Ellipse 2 2 10 6\n"))
    ensures ValuesOf(loadedShapes) == Scenarios.ProgramShapes()
  {
    var shapes := NewProgramShapes();
    ghost var values := Scenarios.ProgramShapes();
    assert forall i :: 0 <= i < |shapes| ==> allocated(Target(shapes[i]));
    label Built:
    text, loadedShapes := SaveThenLoad(shapes);
    ValuesOfUnchanged@Built(shapes);
    Scenarios.ProgramFile(values);
  }
}
