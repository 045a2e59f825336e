/**
  Concrete files: the collection the program saves, a record cut short, a
  record whose tag names no shape, and a file with nothing in it.
*/
module Scenarios {
  import opened Results
  import opened Decimal
  import opened Stream
  import opened Shapes
  import opened Writer
  import opened Reader
  import opened RoundTrip

  /** The shapes `main` builds before saving them. */
  function ProgramShapes(): seq<Shape> {
    [Square(0, 0, 10), Rectangle(1, 1, 20, 10), Circle(5, 5, 7), Ellipse(2, 2, 10, 6)]
  }

  lemma SquareRecord()
    ensures Save(Square(0, 0, 10)) == "Square 0 0 10\n"
  {
    assert Dec(0) == "0" && Dec(10) == "10";
    SaveSquare(0, 0, 10);
  }

  lemma RectangleRecord()
    ensures Save(Rectangle(1, 1, 20, 10)) == "Rectangle 1 1 20 10\n"
  {
    assert Dec(1) == "1" && Dec(20) == "20" && Dec(10) == "10";
    SaveRectangle(1, 1, 20, 10);
  }

  lemma CircleRecord()
    ensures Save(Circle(5, 5, 7)) == "Circle 5 5 7\n"
  {
    assert Dec(5) == "5" && Dec(7) == "7";
    SaveCircle(5, 5, 7);
  }

  lemma EllipseRecord()
    ensures Save(Ellipse(2, 2, 10, 6)) == "Ellipse 2 2 10 6\n"
  {
    assert Dec(2) == "2" && Dec(10) == "10" && Dec(6) == "6";
    SaveEllipse(2, 2, 10, 6);
  }

  /** A collection of four shapes is written as their four records, in order. */
  lemma SerializeFour(p: seq<Shape>)
    requires |p| == 4
    ensures Serialize(p) == Save(p[0]) + (Save(p[1]) + (Save(p[2]) + Save(p[3])))
  {
    assert p[3..] == [p[3]] && p[2..][1..] == p[3..] && p[1..][1..] == p[2..];
    SerializeOne(p[3]);
    assert Serialize(p[2..]) == Save(p[2]) + Save(p[3]);
    assert Serialize(p[1..]) == Save(p[1]) + (Save(p[2]) + Save(p[3]));
  }

  /** The file `main` writes: one record per shape, in the order they were built. */
  lemma ProgramText(p: seq<Shape>)
    requires p == ProgramShapes()
    ensures Serialize(p) ==
      "Square 0 0 10\n" + ("Rectangle 1 1 20 10\n" + ("Circle 5 5 7\n" + "Ellipse 2 2 10 6\n"))
  {
    SquareRecord();
    RectangleRecord();
    CircleRecord();
    EllipseRecord();
    SerializeFour(p);
  }

  /** The file `main` writes, and what its read loop loads back from it: the same four shapes. */
  lemma ProgramFile(p: seq<Shape>)
    requires p == ProgramShapes()
    ensures Serialize(p) ==
      "Square 0 0 10\n" + ("Rectangle 1 1 20 10\n" + ("Circle 5 5 7\n" + "Ellipse 2 2 10 6\n"))
    ensures ReadShapes(Serialize(p)) == p
  {
    ProgramText(p);
    Roundtrip(p);
  }

  /** The two fields that are there are read; the third meets the end of the input. */
  lemma TruncatedCircleFields(t: string)
    requires t == "Circle 1 2"
    ensures ReadFields(t, 6, [0, 0, 0]) == FieldFailed(TruncatedRecord, [1, 2, 0])
  {
    assert Dec(1) == "1" && Dec(2) == "2";
    assert t[7..8] == "1" && t[9..10] == "2";
    ScanIntAt(t, 6, "1", 1, 8);
    ScanIntAt(t, 8, "2", 2, 10);
    assert ScanInt(t, 10) == AtEnd;
    assert [0, 0, 0][1..] == [0, 0] && [0, 0][1..] == [0];
    assert ReadFields(t, 10, [0]) == FieldFailed(TruncatedRecord, [0]);
  }

  /** The tag and fields of a record cut short after its second field. */
  lemma TruncatedCircleRecord(t: string)
    requires t == "Circle 1 2"
    ensures ScanWord(t, 0) == Some(("Circle", 6))
    ensures Load(Default(CircleKind), t, 6) == LoadFailed(TruncatedRecord, Circle(1, 2, 0))
  {
    TagIsWord(CircleKind);
    assert t[0..6] == "Circle";
    ScanWordAt(t, 0, "Circle", 6);
    TruncatedCircleFields(t);
  }

  /**
    A file that ends in the middle of a record: the read loop still appends
    the shape, with the field it could not read left at 0, and then stops;
    the fail-fast reader reports the record as truncated.
  */
  lemma TruncatedCircle(t: string)
    requires t == "Circle 1 2"
    ensures ReadShapes(t) == [Circle(1, 2, 0)]
    ensures Deserialize(t) == Err(TruncatedRecord)
  {
    TruncatedCircleRecord(t);
  }

  /**
    A word that names no shape is consumed on its own and skipped by the read
    loop; the fail-fast reader rejects it.
  */
  lemma UnknownWordAt(t: string, pos: nat, w: string, e: nat)
    requires At(t, pos, w) && |w| > 0 && NoSpace(w) && e == pos + |w| && Delimited(t, e)
    requires Dispatch(w) == None
    ensures ReadFrom(t, pos) == ReadFrom(t, e)
    ensures DeserializeFrom(t, pos) == Err(UnknownTag(w))
  {
    ScanWordAt(t, pos, w, e);
  }

  /** No numeral is the name of a shape. */
  lemma NumeralIsNoTag(w: string, i: int)
    requires IsNumeralOf(w, i)
    ensures |w| > 0 && NoSpace(w) && Dispatch(w) == None
  {
    NumeralCharacters(w, i);
    forall k | 0 <= k < |w| ensures !IsSpace(w[k]) {
      assert w[k] in w;
    }
  }

  /**
    Numerals written one after another, each preceded by a space, and ended
    by a delimiter at `e`, are each taken for a tag and skipped by the read
    loop.
  */
  lemma {:induction false} SkipNumeralsAt(t: string, pos: nat, ws: seq<string>, fs: seq<int32>, e: nat)
    requires NumeralsOf(ws, fs)
    requires At(t, pos, SpacedText(ws)) && e == pos + |SpacedText(ws)| && Delimited(t, e)
    ensures ReadFrom(t, pos) == ReadFrom(t, e)
    decreases |ws|
  {
    if ws != [] {
      var p := pos + 1 + |ws[0]|;
      FirstField(t, pos, ws, p, e);
      NumeralIsNoTag(ws[0], fs[0] as int);
      ReadFromSkipsSpace(t, pos, pos + 1);
      UnknownWordAt(t, pos + 1, ws[0], p);
      SkipNumeralsAt(t, p, ws[1..], fs[1..], e);
    }
  }

  /** How a record with an unknown tag lies in the text, field by field. */
  lemma UnknownRecordLayout(t: string, tag: string, fs: seq<int32>, rest: string, p: nat, q: nat)
    requires t == tag + FieldsText(fs) + "\n" + rest && p == |tag| && q == p + |FieldsText(fs)|
    ensures At(t, 0, tag) && At(t, p, FieldsText(fs)) && q < |t| && t[q] == '\n'
    ensures At(t, q + 1, rest) && |t| == q + 1 + |rest|
    ensures FieldsText(fs) != [] ==> t[p] == ' '
  {
    assert t == ((tag + FieldsText(fs)) + "\n") + rest;
    AtConcat(t, 0, (tag + FieldsText(fs)) + "\n", rest);
    AtConcat(t, 0, tag + FieldsText(fs), "\n");
    AtConcat(t, 0, tag, FieldsText(fs));
    if fs != [] {
      FieldsTextCons(fs);
      assert t[p] == FieldsText(fs)[0];
    }
  }

  /**
    A record whose tag names no shape is passed over by the read loop up to
    the line break that ends it; the fail-fast reader rejects it.
  */
  lemma UnknownRecordPassed(t: string, tag: string, fs: seq<int32>, rest: string, e: nat)
    requires |tag| > 0 && NoSpace(tag) && Dispatch(tag) == None
    requires t == tag + FieldsText(fs) + "\n" + rest && e == |tag| + |FieldsText(fs)| + 1
    ensures ReadFrom(t, 0) == ReadFrom(t, e)
    ensures DeserializeFrom(t, 0) == Err(UnknownTag(tag))
    ensures At(t, e, rest) && |t| == e + |rest|
  {
    var p := |tag|;
    var q := e - 1;
    UnknownRecordLayout(t, tag, fs, rest, p, q);
    UnknownWordAt(t, 0, tag, p);
    NumeralsAreNumerals(fs);
    SkipNumeralsAt(t, p, Numerals(fs), fs, q);
    ReadFromSkipsSpace(t, q, e);
  }

  /** Past the end of the text the read loop loads nothing more. */
  lemma NothingAfterEnd(t: string, shapes: seq<Shape>)
    ensures shapes + ReadFrom(t, |t|) == shapes
  {
    assert ScanWord(t, |t|) == None;
    assert shapes + [] == shapes;
  }

  /**
    A record whose tag names no shape, followed by saved records: the read
    loop takes the tag and then each field for tags in turn, skips them all,
    and loads the records after it as usual. The fail-fast reader rejects
    the file at the unknown tag.
  */
  lemma UnknownRecordSkipped(t: string, tag: string, fs: seq<int32>, shapes: seq<Shape>)
    requires |tag| > 0 && NoSpace(tag) && Dispatch(tag) == None
    requires t == tag + FieldsText(fs) + "\n" + Serialize(shapes)
    ensures ReadShapes(t) == shapes
    ensures Deserialize(t) == Err(UnknownTag(tag))
  {
    var e := |tag| + |FieldsText(fs)| + 1;
    UnknownRecordPassed(t, tag, fs, Serialize(shapes), e);
    ReadRecordsAt(t, e, shapes, |t|);
    NothingAfterEnd(t, shapes);
  }

  /** The fields of the unknown record below, written as `Save` would write them. */
  lemma TriangleFields()
    ensures FieldsText([1, 2, 3]) == " 1 2 3"
  {
    assert Dec(1) == "1" && Dec(2) == "2" && Dec(3) == "3";
    NumeralsListed([1, 2, 3]);
    RecordLayout("", "1", "2", "3", "");
  }

  /** The program knows no triangle. */
  lemma TriangleIsNoTag(w: string)
    requires w == "Triangle"
    ensures |w| > 0 && NoSpace(w) && Dispatch(w) == None
  {
    assert w != "Square" && w != "Rectangle" && w != "Circle" && w != "Ellipse";
  }

  /** The triangle record, as `Save` would lay out a record with that tag. */
  lemma TriangleLine(w: string)
    requires w == "Triangle 1 2 3\n"
    ensures w == "Triangle" + FieldsText([1, 2, 3]) + "\n"
  {
    TriangleFields();
    assert "Triangle" + " 1 2 3" + "\n" == "Triangle 1 2 3\n";
  }

  /** The same text, as an unknown record followed by a saved circle. */
  lemma TriangleThenCircleText(t: string)
    requires t == "Triangle 1 2 3\nCircle 5 5 7\n"
    ensures t == "Triangle" + FieldsText([1, 2, 3]) + "\n" + Serialize([Circle(5, 5, 7)])
  {
    var line := "Triangle 1 2 3\n";
    assert t == line + "Circle 5 5 7\n";
    TriangleLine(line);
    CircleRecord();
    SerializeOne(Circle(5, 5, 7));
  }

  /**
    A triangle record, which no shape reads, in front of a circle: the read
    loop loads only the circle, and the fail-fast reader rejects the file.
  */
  lemma TriangleThenCircle(t: string)
    requires t == "Triangle 1 2 3\nCircle 5 5 7\n"
    ensures ReadShapes(t) == [Circle(5, 5, 7)]
    ensures Deserialize(t) == Err(UnknownTag("Triangle"))
  {
    TriangleThenCircleText(t);
    TriangleIsNoTag("Triangle");
    UnknownRecordSkipped(t, "Triangle", [1, 2, 3], [Circle(5, 5, 7)]);
  }

  /**
    The fail-fast reader finds no shape and no error exactly when the text is
    blank; on a blank text the read loop loads nothing either.
  */
  lemma BlankText(t: string)
    ensures Deserialize(t) == Ok([]) <==> BlankFrom(t, 0)
    ensures BlankFrom(t, 0) ==> ReadShapes(t) == []
  {
    ScanWordMeaning(t, 0);
  }
}
