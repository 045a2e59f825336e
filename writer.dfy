/**
  The write path: each shape's `Save` writes one record line, and the write
  loop of the program saves every shape of the collection in order.
*/
module Writer {
  import opened Decimal
  import opened Shapes

  /** One field as `<<` writes an `int`. */
  function Dec(v: int32): string {
    IntToDecimal(v as int)
  }

  /** The numerals of the fields, in the order given. */
  function Numerals(fs: seq<int32>): (ws: seq<string>)
    ensures |ws| == |fs|
  {
    if fs == [] then [] else [Dec(fs[0])] + Numerals(fs[1..])
  }

  /** Each field is written as a decimal numeral of its own value. */
  lemma {:induction false} NumeralsAreNumerals(fs: seq<int32>)
    ensures NumeralsOf(Numerals(fs), fs)
  {
    if fs != [] {
      NumeralsAreNumerals(fs[1..]);
      assert Numerals(fs)[1..] == Numerals(fs[1..]);
    }
  }

  /** Each word preceded by a single space, in the order given. */
  function SpacedText(ws: seq<string>): string {
    if ws == [] then "" else " " + ws[0] + SpacedText(ws[1..])
  }

  /** The text that follows a record's tag: each field preceded by a single space. */
  function FieldsText(fs: seq<int32>): (text: string)
    ensures text == "" <==> fs == []
    ensures fs != [] ==> text[0] == ' '
  {
    SpacedText(Numerals(fs))
  }

  /**
    What `Save` writes: the tag, the fields in declared order each preceded by
    a space, and a newline.
  */
  function Save(s: Shape): (line: string)
    ensures var tag := TagName(KindOf(s));
      |line| > |tag| + 1 && line[..|tag|] == tag && line[|tag|] == ' ' && line[|line| - 1] == '\n'
  {
    var tag := TagName(KindOf(s));
    var fields := FieldsText(Fields(s));
    assert (tag + fields + "\n")[..|tag|] == tag;
    tag + fields + "\n"
  }

  /** A record is exactly one line: its only line break is its last character. */
  lemma SaveIsOneLine(s: Shape)
    ensures var tag := TagName(KindOf(s));
      |Save(s)| > |tag| && Save(s)[..|tag|] == tag
    ensures Save(s)[|Save(s)| - 1] == '\n' && '\n' !in Save(s)[..|Save(s)| - 1]
  {
    var tag := TagName(KindOf(s));
    var fields := FieldsText(Fields(s));
    FieldsTextHasNoNewline(Fields(s));
    LineLayout(tag, fields, Save(s));
  }

  /** A line made of a head, a body without line breaks and a line break. */
  lemma LineLayout(head: string, body: string, line: string)
    requires line == head + body + "\n" && '\n' !in head + body
    ensures |line| > |head| && line[..|head|] == head
    ensures line[|line| - 1] == '\n' && '\n' !in line[..|line| - 1]
  {
    assert line[..|line| - 1] == head + body;
    assert (head + body)[..|head|] == head;
  }

  /** The record `Square::Save` writes. */
  lemma SaveSquare(x: int32, y: int32, side: int32)
    ensures Save(Square(x, y, side)) == "Square " + Dec(x) + " " + Dec(y) + " " + Dec(side) + "\n"
  {
    NumeralsOfFields(Square(x, y, side));
    RecordLayout("Square", Dec(x), Dec(y), Dec(side), "");
    assert "Square" + " " == "Square ";
  }

  /** The record `Rectangle::Save` writes. */
  lemma SaveRectangle(x: int32, y: int32, width: int32, height: int32)
    ensures Save(Rectangle(x, y, width, height))
      == "Rectangle " + Dec(x) + " " + Dec(y) + " " + Dec(width) + " " + Dec(height) + "\n"
  {
    NumeralsOfFields(Rectangle(x, y, width, height));
    RecordLayout("Rectangle", Dec(x), Dec(y), Dec(width), Dec(height));
    assert "Rectangle" + " " == "Rectangle ";
  }

  /** The record `Circle::Save` writes. */
  lemma SaveCircle(x: int32, y: int32, radius: int32)
    ensures Save(Circle(x, y, radius)) == "Circle " + Dec(x) + " " + Dec(y) + " " + Dec(radius) + "\n"
  {
    NumeralsOfFields(Circle(x, y, radius));
    RecordLayout("Circle", Dec(x), Dec(y), Dec(radius), "");
    assert "Circle" + " " == "Circle ";
  }

  /** The record `Ellipse::Save` writes. */
  lemma SaveEllipse(x: int32, y: int32, width: int32, height: int32)
    ensures Save(Ellipse(x, y, width, height))
      == "Ellipse " + Dec(x) + " " + Dec(y) + " " + Dec(width) + " " + Dec(height) + "\n"
  {
    NumeralsOfFields(Ellipse(x, y, width, height));
    RecordLayout("Ellipse", Dec(x), Dec(y), Dec(width), Dec(height));
    assert "Ellipse" + " " == "Ellipse ";
  }

  /** The numerals of three or four fields, listed. */
  lemma NumeralsListed(fs: seq<int32>)
    requires 3 <= |fs| <= 4
    ensures |fs| == 3 ==> Numerals(fs) == [Dec(fs[0]), Dec(fs[1]), Dec(fs[2])]
    ensures |fs| == 4 ==> Numerals(fs) == [Dec(fs[0]), Dec(fs[1]), Dec(fs[2]), Dec(fs[3])]
  {
    var w0, w1, w2 := Dec(fs[0]), Dec(fs[1]), Dec(fs[2]);
    assert fs[1..][1..] == fs[2..] && fs[2..][1..] == fs[3..];
    var n3 := Numerals(fs[3..]);
    NumeralsCons(fs[2..]);
    NumeralsCons(fs[1..]);
    NumeralsCons(fs);
    assert Numerals(fs) == [w0] + ([w1] + ([w2] + n3));
    if |fs| == 4 {
      assert fs[3..][1..] == [];
      NumeralsCons(fs[3..]);
      assert n3 == [Dec(fs[3])];
    } else {
      assert n3 == [];
    }
  }

  /** The first numeral of a run of fields, peeled off. */
  lemma NumeralsCons(fs: seq<int32>)
    requires fs != []
    ensures Numerals(fs) == [Dec(fs[0])] + Numerals(fs[1..])
  {
  }

  /** The numerals of a shape's fields, listed. */
  lemma NumeralsOfFields(s: Shape)
    ensures var fs := Fields(s);
      if |fs| == 3 then Numerals(fs) == [Dec(fs[0]), Dec(fs[1]), Dec(fs[2])]
      else Numerals(fs) == [Dec(fs[0]), Dec(fs[1]), Dec(fs[2]), Dec(fs[3])]
  {
    NumeralsListed(Fields(s));
  }

  /** A record of three or four words, written out. */
  lemma RecordLayout(tag: string, a: string, b: string, c: string, d: string)
    ensures tag + SpacedText([a, b, c]) + "\n" == tag + " " + a + " " + b + " " + c + "\n"
    ensures tag + SpacedText([a, b, c, d]) + "\n" == tag + " " + a + " " + b + " " + c + " " + d + "\n"
  {
    var w := [a, b, c, d];
    assert w[1..] == [b, c, d] && w[1..][1..] == [c, d] && w[1..][1..][1..] == [d] && [d][1..] == [];
    assert SpacedText([d]) == " " + d;
    assert SpacedText([c, d]) == " " + c + (" " + d);
    assert SpacedText([b, c, d]) == " " + b + (" " + c + (" " + d));
    assert SpacedText(w) == " " + a + (" " + b + (" " + c + (" " + d)));
    var u := [a, b, c];
    assert u[1..] == [b, c] && u[1..][1..] == [c] && [c][1..] == [];
    assert SpacedText([c]) == " " + c;
    assert SpacedText([b, c]) == " " + b + (" " + c);
    assert SpacedText(u) == " " + a + (" " + b + (" " + c));
  }

  /** Peeling the first field off a run of fields. */
  lemma FieldsTextCons(fs: seq<int32>)
    requires fs != []
    ensures FieldsText(fs) == " " + Dec(fs[0]) + FieldsText(fs[1..])
  {
    assert Numerals(fs)[1..] == Numerals(fs[1..]);
  }

  /** No numeral contains a line break, so neither does a run of fields. */
  lemma {:induction false} FieldsTextHasNoNewline(fs: seq<int32>)
    ensures '\n' !in FieldsText(fs)
  {
    if fs != [] {
      FieldsTextCons(fs);
      FieldsTextHasNoNewline(fs[1..]);
      NumeralCharacters(Dec(fs[0]), fs[0] as int);
    }
  }

  /** The whole file: the records of the shapes, one after another, in collection order. */
  function Serialize(shapes: seq<Shape>): (text: string)
    ensures text == "" <==> shapes == []
  {
    if shapes == [] then ""
    else
      Save(shapes[0]) + Serialize(shapes[1..])
  }

  /** Writing two collections one after the other writes their records in that order. */
  lemma {:induction false} SerializeConcat(a: seq<Shape>, b: seq<Shape>)
    ensures Serialize(a + b) == Serialize(a) + Serialize(b)
  {
    if a != [] {
      assert (a + b)[1..] == a[1..] + b;
      SerializeConcat(a[1..], b);
    } else {
      assert a + b == b;
    }
  }

  /** Writing one more shape appends its record. */
  lemma SerializeSnoc(shapes: seq<Shape>, i: nat)
    requires i < |shapes|
    ensures Serialize(shapes[..i + 1]) == Serialize(shapes[..i]) + Save(shapes[i])
  {
    assert shapes[..i + 1] == shapes[..i] + [shapes[i]];
    SerializeConcat(shapes[..i], [shapes[i]]);
    SerializeOne(shapes[i]);
  }

  /** A collection of one shape is written as that shape's record. */
  lemma SerializeOne(s: Shape)
    ensures Serialize([s]) == Save(s)
  {
    assert [s][1..] == [];
  }
}
