/**
  What reading the written file gives back: every record the writer emits is
  read as exactly the shape that wrote it, so the read loop returns the saved
  collection, in order, and the fail-fast reader accepts it.
*/
module RoundTrip {
  import opened Results
  import opened Decimal
  import opened Stream
  import opened Shapes
  import opened Writer
  import opened Reader

  /** The text `w` occurs in `t` at position `pos`. */
  predicate At(t: string, pos: nat, w: string) {
    pos + |w| <= |t| && t[pos..pos + |w|] == w
  }

  /** Position `p` ends a token: the input ends there or whitespace follows. */
  predicate Delimited(t: string, p: nat) {
    p == |t| || (p < |t| && IsSpace(t[p]))
  }

  lemma AtConcat(t: string, pos: nat, a: string, b: string)
    requires At(t, pos, a + b)
    ensures At(t, pos, a) && At(t, pos + |a|, b)
  {
    assert t[pos..pos + |a|] == (a + b)[..|a|];
    assert t[pos + |a|..pos + |a| + |b|] == (a + b)[|a|..];
  }

  /** Text `a + b` written from `pos` up to `e`: `a` ends at `mid`, where `b` starts. */
  lemma AtSplit(t: string, pos: nat, a: string, b: string, mid: nat, e: nat)
    requires At(t, pos, a + b) && e == pos + |a + b| && mid == pos + |a|
    ensures At(t, pos, a) && At(t, mid, b) && e == mid + |b|
  {
    AtConcat(t, pos, a, b);
  }

  /** A run of non-whitespace ended by a delimiter is exactly the word found there. */
  lemma {:induction false} WordEndRun(t: string, a: nat, end: nat)
    requires a <= end <= |t|
    requires forall k :: a <= k < end ==> !IsSpace(t[k])
    requires Delimited(t, end)
    ensures WordEnd(t, a) == end
    decreases end - a
  {
    if a < end {
      WordEndRun(t, a + 1, end);
    }
  }

  /** A word written into the text from `pos` up to a delimiter at `e` is extracted whole. */
  lemma ScanWordAt(t: string, pos: nat, w: string, e: nat)
    requires At(t, pos, w) && |w| > 0 && NoSpace(w) && e == pos + |w| && Delimited(t, e)
    ensures ScanWord(t, pos) == Some((w, e))
  {
    assert forall k :: pos <= k < e ==> t[k] == w[k - pos];
    assert SkipSpace(t, pos) == pos;
    WordEndRun(t, pos, e);
  }

  /** A run of digits from `a` to `e`, ended by a delimiter, is exactly the digit run found at `a`. */
  lemma {:induction false} DigitRunAt(t: string, a: nat, e: nat)
    requires a <= e <= |t| && AllDigits(t[a..e]) && Delimited(t, e)
    ensures DigitsEnd(t, a) == e
    decreases e - a
  {
    if a < e {
      assert IsDigit(t[a..e][0]);
      assert t[a + 1..e] == t[a..e][1..];
      DigitRunAt(t, a + 1, e);
    }
  }

  /** Whitespace followed by a non-blank character at `start` is skipped in one step. */
  lemma SkipOneSpace(t: string, pos: nat, start: nat)
    requires start == pos + 1 && start < |t| && IsSpace(t[pos]) && !IsSpace(t[start])
    ensures SkipSpace(t, pos) == start
  {
    assert SkipSpace(t, start) == start;
  }

  /**
    Where the numeral of `v` is written at `start` and ends at `e`: it starts
    with `-` exactly when `v` is negative, never with whitespace or `+`, and
    its digits run from `ds` to `e`.
  */
  lemma NumeralAt(t: string, start: nat, w: string, v: int32, ds: nat, e: nat)
    requires At(t, start, w) && IsNumeralOf(w, v as int)
    requires ds == (if v < 0 then start + 1 else start) && e == start + |w|
    ensures start < |t| && !IsSpace(t[start]) && t[start] != '+' && (t[start] == '-' <==> v < 0)
    ensures ds < e <= |t| && t[ds..e] == Magnitude(w, v as int)
  {
    NumeralCharacters(w, v as int);
    assert t[start] == t[start..e][0];
    assert t[ds..e] == t[start..e][ds - start..];
  }

  /** The characters `ScanInt` looks at, laid out: what it then returns. */
  lemma ScanIntParsed(t: string, pos: nat, start: nat, ds: nat, e: nat, v: int32)
    requires pos <= start < |t| && SkipSpace(t, pos) == start
    requires t[start] != '+' && (t[start] == '-' <==> v < 0)
    requires ds == (if v < 0 then start + 1 else start) && ds < e <= |t| && DigitsEnd(t, ds) == e
    requires AllDigits(t[ds..e]) && DigitsToNat(t[ds..e]) == if v < 0 then -(v as int) else v as int
    ensures ScanInt(t, pos) == Parsed(v, e)
  {
  }

  /** A numeral that follows a whitespace character and ends at a delimiter `e` is read as its value. */
  lemma ScanIntAt(t: string, pos: nat, w: string, v: int32, e: nat)
    requires pos < |t| && IsSpace(t[pos])
    requires At(t, pos + 1, w) && IsNumeralOf(w, v as int)
    requires e == pos + 1 + |w| && Delimited(t, e)
    ensures ScanInt(t, pos) == Parsed(v, e)
  {
    var start := pos + 1;
    var ds := if v < 0 then start + 1 else start;
    NumeralAt(t, start, w, v, ds, e);
    SkipOneSpace(t, pos, start);
    DigitRunAt(t, ds, e);
    ScanIntParsed(t, pos, start, ds, e, v);
  }

  /**
    `n` numerals written one after another, each preceded by a space and the
    last one followed by a delimiter at `e`, are read back as their values in
    the same order, and the cursor stops at `e`.
  */
  lemma {:induction false} ReadFieldsAt(t: string, pos: nat, ws: seq<string>, fs: seq<int32>, held: seq<int32>, e: nat)
    requires NumeralsOf(ws, fs) && |held| == |fs|
    requires At(t, pos, SpacedText(ws)) && e == pos + |SpacedText(ws)| && Delimited(t, e)
    ensures ReadFields(t, pos, held) == Got(fs, e)
    decreases |held|
  {
    if held != [] {
      var p := pos + 1 + |ws[0]|;
      FirstField(t, pos, ws, p, e);
      ScanIntAt(t, pos, ws[0], fs[0], p);
      ReadFieldsAt(t, p, ws[1..], fs[1..], held[1..], e);
      ReadFieldsCons(t, pos, p, e, held, fs);
    }
  }

  /** The first of the spaced numerals: a space, the numeral ending at `p`, then the rest up to `e`. */
  lemma FirstField(t: string, pos: nat, ws: seq<string>, p: nat, e: nat)
    requires ws != [] && At(t, pos, SpacedText(ws)) && e == pos + |SpacedText(ws)| && Delimited(t, e)
    requires p == pos + 1 + |ws[0]|
    ensures pos < |t| && IsSpace(t[pos]) && At(t, pos + 1, ws[0]) && Delimited(t, p)
    ensures At(t, p, SpacedText(ws[1..])) && e == p + |SpacedText(ws[1..])|
  {
    var w := ws[0];
    var rest := SpacedText(ws[1..]);
    assert SpacedText(ws) == (" " + w) + rest;
    AtConcat(t, pos, " " + w, rest);
    AtConcat(t, pos, " ", w);
    assert t[pos] == ' ';
    if ws[1..] != [] {
      assert rest[0] == ' ';
      assert t[p] == rest[0];
    }
  }

  /** A field read successfully up to `p`, followed by a chain read successfully up to `e`, is one chain. */
  lemma ReadFieldsCons(t: string, pos: nat, p: nat, e: nat, held: seq<int32>, fs: seq<int32>)
    requires pos <= |t| && p <= |t| && |held| == |fs| && held != []
    requires ScanInt(t, pos) == Parsed(fs[0], p) && ReadFields(t, p, held[1..]) == Got(fs[1..], e)
    ensures ReadFields(t, pos, held) == Got(fs, e)
  {
    assert [fs[0]] + fs[1..] == fs;
  }

  /** Whitespace in front of the next tag changes nothing about what the read loop loads. */
  lemma ReadFromSkipsSpace(t: string, q: nat, e: nat)
    requires q < |t| && IsSpace(t[q]) && e == q + 1
    ensures ReadFrom(t, q) == ReadFrom(t, e)
  {
    assert SkipSpace(t, q) == SkipSpace(t, e);
    assert ScanWord(t, q) == ScanWord(t, e);
  }

  /** Whitespace in front of the next tag changes nothing about what the fail-fast reader returns. */
  lemma DeserializeFromSkipsSpace(t: string, q: nat, e: nat)
    requires q < |t| && IsSpace(t[q]) && e == q + 1
    ensures DeserializeFrom(t, q) == DeserializeFrom(t, e)
  {
    assert SkipSpace(t, q) == SkipSpace(t, e);
    assert ScanWord(t, q) == ScanWord(t, e);
  }

  /** Putting a sequence's head back in front of its tail, ahead of more elements. */
  lemma ConsAppend<T>(xs: seq<T>, ys: seq<T>)
    requires xs != []
    ensures [xs[0]] + (xs[1..] + ys) == xs + ys
  {
    assert xs == [xs[0]] + xs[1..];
  }

  /** A tag name is a single word. */
  lemma TagIsWord(k: Kind)
    ensures |TagName(k)| > 0 && NoSpace(TagName(k))
  {
  }

  /** Where the parts of a record written by `Save` at `pos` lie: the tag, then the fields up to the line break at `q`. */
  lemma RecordPlaced(t: string, pos: nat, s: Shape, p: nat, q: nat)
    requires At(t, pos, Save(s))
    requires p == pos + |TagName(KindOf(s))| && q == pos + |Save(s)| - 1
    ensures At(t, pos, TagName(KindOf(s))) && Delimited(t, p)
    ensures At(t, p, FieldsText(Fields(s))) && q == p + |FieldsText(Fields(s))|
    ensures q < |t| && t[q] == '\n'
  {
    var tag := TagName(KindOf(s));
    var fields := FieldsText(Fields(s));
    assert Save(s) == tag + fields + "\n";
    AtConcat(t, pos, tag + fields, "\n");
    AtConcat(t, pos, tag, fields);
    assert t[q] == '\n';
    FieldsTextCons(Fields(s));
    assert t[p] == fields[0];
  }

  /** Reading a shape's own fields into an object of its variant loads that shape. */
  lemma LoadOwnFields(t: string, p: nat, before: Shape, s: Shape, q: nat)
    requires p <= |t| && KindOf(before) == KindOf(s) && ReadFields(t, p, Fields(before)) == Got(Fields(s), q)
    ensures Load(before, t, p) == Loaded(s, q)
  {
    FromFieldsOfFields(s);
  }

  /**
    A record written by `Save`: its tag is extracted as one word ending at `p`,
    and `Load` on the variant the tag names reads the shape back, stopping at
    `q` on the line break that ends the record.
  */
  lemma LoadRecordAt(t: string, pos: nat, s: Shape, p: nat, q: nat)
    requires At(t, pos, Save(s))
    requires p == pos + |TagName(KindOf(s))| && q == pos + |Save(s)| - 1
    ensures ScanWord(t, pos) == Some((TagName(KindOf(s)), p))
    ensures Load(Default(KindOf(s)), t, p) == Loaded(s, q)
    ensures q < |t| && IsSpace(t[q])
  {
    RecordPlaced(t, pos, s, p, q);
    TagIsWord(KindOf(s));
    ScanWordAt(t, pos, TagName(KindOf(s)), p);
    NumeralsAreNumerals(Fields(s));
    var before := Default(KindOf(s));
    ReadFieldsAt(t, p, Numerals(Fields(s)), Fields(s), Fields(before), q);
    LoadOwnFields(t, p, before, s, q);
  }

  /** A record whose tag and fields are read successfully contributes its shape to the read loop. */
  lemma ReadFromRecord(t: string, pos: nat, k: Kind, p: nat, s: Shape, q: nat)
    requires pos <= |t| && p <= |t|
    requires ScanWord(t, pos) == Some((TagName(k), p)) && Load(Default(k), t, p) == Loaded(s, q)
    ensures ReadFrom(t, pos) == [s] + ReadFrom(t, q)
  {
    assert Dispatch(TagName(k)) == Some(k);
  }

  /** A record whose tag and fields are read successfully contributes its shape to the fail-fast reader. */
  lemma DeserializeFromRecord(t: string, pos: nat, k: Kind, p: nat, s: Shape, q: nat)
    requires pos <= |t| && p <= |t|
    requires ScanWord(t, pos) == Some((TagName(k), p)) && Load(Default(k), t, p) == Loaded(s, q)
    ensures DeserializeFrom(t, pos) ==
      match DeserializeFrom(t, q)
      case Ok(rest) => Ok([s] + rest)
      case Err(e) => Err(e)
  {
    assert Dispatch(TagName(k)) == Some(k);
  }

  /**
    A record written by `Save` at `pos` and ending just before `e` is read by
    the read loop as the shape that wrote it: its tag selects the shape's own
    variant and its fields fill that variant in order.
  */
  lemma ReadRecordAt(t: string, pos: nat, s: Shape, e: nat)
    requires At(t, pos, Save(s)) && e == pos + |Save(s)|
    ensures ReadFrom(t, pos) == [s] + ReadFrom(t, e)
  {
    var p := pos + |TagName(KindOf(s))|;
    var q := e - 1;
    LoadRecordAt(t, pos, s, p, q);
    ReadFromRecord(t, pos, KindOf(s), p, s, q);
    ReadFromSkipsSpace(t, q, e);
  }

  /** The fail-fast reader also reads a record written by `Save` as the shape that wrote it. */
  lemma DeserializeRecordAt(t: string, pos: nat, s: Shape, e: nat)
    requires At(t, pos, Save(s)) && e == pos + |Save(s)|
    ensures DeserializeFrom(t, pos) ==
      match DeserializeFrom(t, e)
      case Ok(rest) => Ok([s] + rest)
      case Err(err) => Err(err)
  {
    var p := pos + |TagName(KindOf(s))|;
    var q := e - 1;
    LoadRecordAt(t, pos, s, p, q);
    DeserializeFromRecord(t, pos, KindOf(s), p, s, q);
    DeserializeFromSkipsSpace(t, q, e);
  }

  /** Records written one after another from `pos` up to `e` are read back by the read loop one shape each, in order. */
  lemma {:induction false} ReadRecordsAt(t: string, pos: nat, shapes: seq<Shape>, e: nat)
    requires At(t, pos, Serialize(shapes)) && e == pos + |Serialize(shapes)|
    ensures ReadFrom(t, pos) == shapes + ReadFrom(t, e)
    decreases |shapes|
  {
    if shapes == [] {
      assert [] + ReadFrom(t, pos) == ReadFrom(t, pos);
    } else {
      var line := Save(shapes[0]);
      var rest := Serialize(shapes[1..]);
      var mid := pos + |line|;
      assert Serialize(shapes) == line + rest;
      AtSplit(t, pos, line, rest, mid, e);
      ReadRecordAt(t, pos, shapes[0], mid);
      ReadRecordsAt(t, mid, shapes[1..], e);
      ConsAppend(shapes, ReadFrom(t, e));
    }
  }

  /** Records written one after another from `pos` up to `e` are read back by the fail-fast reader one shape each, in order. */
  lemma {:induction false} DeserializeRecordsAt(t: string, pos: nat, shapes: seq<Shape>, e: nat)
    requires At(t, pos, Serialize(shapes)) && e == pos + |Serialize(shapes)|
    ensures DeserializeFrom(t, pos) ==
      match DeserializeFrom(t, e)
      case Ok(rest) => Ok(shapes + rest)
      case Err(err) => Err(err)
    decreases |shapes|
  {
    if shapes == [] {
      match DeserializeFrom(t, pos)
      case Ok(rest) => assert [] + rest == rest;
      case Err(e) =>
    } else {
      var line := Save(shapes[0]);
      var rest := Serialize(shapes[1..]);
      var mid := pos + |line|;
      assert Serialize(shapes) == line + rest;
      AtSplit(t, pos, line, rest, mid, e);
      DeserializeRecordAt(t, pos, shapes[0], mid);
      DeserializeRecordsAt(t, mid, shapes[1..], e);
      match DeserializeFrom(t, e)
      case Ok(tail) =>
        ConsAppend(shapes, tail);
      case Err(err) =>
    }
  }

  /**
    Reading back what the write loop wrote yields the same shapes: the same
    number, in the same order, each with its variant and field values. The
    fail-fast reader accepts the file and returns the same collection.
  */
  lemma Roundtrip(shapes: seq<Shape>)
    ensures ReadShapes(Serialize(shapes)) == shapes
    ensures Deserialize(Serialize(shapes)) == Ok(shapes)
  {
    var t := Serialize(shapes);
    assert At(t, 0, t);
    ReadRecordsAt(t, 0, shapes, |t|);
    DeserializeRecordsAt(t, 0, shapes, |t|);
    assert ScanWord(t, |t|) == None;
    assert shapes + [] == shapes;
  }
}
