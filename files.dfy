/**
  The two file streams of the program, as objects whose state the
  extractions and insertions change: `shapes.txt` opened for writing is an
  `OutFile` whose text grows, and opened for reading is an `InFile` with a
  cursor and a failbit over the text that was written.
*/
module Files {
  import opened Decimal
  import opened Stream

  /** `std::ofstream`: everything inserted so far, in order. */
  class OutFile {
    var text: string

    /** A newly created, empty file. */
    constructor ()
      ensures text == ""
    {
      text := "";
    }

    /** `file << s` for a string. */
    method Write(s: string)
      modifies this
      ensures text == old(text) + s
    {
      text := text + s;
    }

    /** `file << v` for an `int`: its decimal numeral. */
    method WriteInt(v: int32)
      modifies this
      ensures text == old(text) + IntToDecimal(v as int)
    {
      text := text + IntToDecimal(v as int);
    }
  }

  /** `prefix + s` appended to `text` is `prefix` appended and then `s`. */
  lemma AppendAssoc(text: string, prefix: string, s: string)
    ensures (text + prefix) + s == text + (prefix + s)
  {
  }

  /** What an extraction leaves behind: the value now in its target, the cursor and the failbit. */
  datatype Extracted = Extracted(value: int32, pos: nat, failed: bool)

  /**
    `file >> n` into an `int` that holds `held`, on a stream at `pos` whose
    failbit is `failed`. A failed stream changes nothing. Otherwise a numeral
    is extracted; if there is none, or it is out of range, the stream fails,
    and `n` is left alone at the end of the input, set to 0 where no numeral
    starts, and set to the nearest bound when the value does not fit.
  */
  function IntStep(text: string, pos: nat, failed: bool, held: int32): (r: Extracted)
    requires pos <= |text|
    ensures r.pos <= |text| && (r.failed ==> r.pos == |text| || (failed && r.pos == pos))
    ensures failed ==> r == Extracted(held, pos, true)
    ensures !r.failed ==> !failed && ScanInt(text, pos) == Parsed(r.value, r.pos)
  {
    if failed then Extracted(held, pos, true)
    else
      match ScanInt(text, pos)
      case Parsed(v, p) => Extracted(v, p, false)
      case AtEnd => Extracted(held, |text|, true)
      case NotANumber => Extracted(0, |text|, true)
      case OutOfRange(bound) => Extracted(bound, |text|, true)
  }

  /**
    A chain `file >> f1 >> f2 >> ...` into fields that hold `held`: the
    values the fields then hold, and the cursor and failbit afterwards.
  */
  function Chain(text: string, pos: nat, failed: bool, held: seq<int32>): (r: (seq<int32>, nat, bool))
    requires pos <= |text|
    ensures |r.0| == |held| && r.1 <= |text|
    decreases |held|
  {
    if held == [] then (held, pos, failed)
    else
      var e := IntStep(text, pos, failed, held[0]);
      var rest := Chain(text, e.pos, e.failed, held[1..]);
      ([e.value] + rest.0, rest.1, rest.2)
  }

  /** One extraction, then the rest of the chain. */
  lemma ChainStep(text: string, pos: nat, failed: bool, held: seq<int32>, e: Extracted, rest: seq<int32>, next: nat, nowFailed: bool)
    requires pos <= |text| && held != [] && e == IntStep(text, pos, failed, held[0])
    requires Chain(text, e.pos, e.failed, held[1..]) == (rest, next, nowFailed)
    ensures Chain(text, pos, failed, held) == ([e.value] + rest, next, nowFailed)
  {
  }

  /** Three extractions in a row, as in `file >> a >> b >> c`. */
  lemma Chain3(text: string, p0: nat, f0: bool, a: int32, b: int32, c: int32,
               e1: Extracted, e2: Extracted, e3: Extracted)
    requires p0 <= |text|
    requires e1 == IntStep(text, p0, f0, a) && e2 == IntStep(text, e1.pos, e1.failed, b)
    requires e3 == IntStep(text, e2.pos, e2.failed, c)
    ensures Chain(text, p0, f0, [a, b, c]) == ([e1.value, e2.value, e3.value], e3.pos, e3.failed)
  {
    assert [c][1..] == [] && [b, c][1..] == [c] && [a, b, c][1..] == [b, c];
    ChainStep(text, e2.pos, e2.failed, [c], e3, [], e3.pos, e3.failed);
    assert [e3.value] + [] == [e3.value];
    ChainStep(text, e1.pos, e1.failed, [b, c], e2, [e3.value], e3.pos, e3.failed);
    assert [e2.value] + [e3.value] == [e2.value, e3.value];
    ChainStep(text, p0, f0, [a, b, c], e1, [e2.value, e3.value], e3.pos, e3.failed);
    assert [e1.value] + [e2.value, e3.value] == [e1.value, e2.value, e3.value];
  }

  /** Four extractions in a row, as in `file >> a >> b >> c >> d`. */
  lemma Chain4(text: string, p0: nat, f0: bool, a: int32, b: int32, c: int32, d: int32,
               e1: Extracted, e2: Extracted, e3: Extracted, e4: Extracted)
    requires p0 <= |text|
    requires e1 == IntStep(text, p0, f0, a) && e2 == IntStep(text, e1.pos, e1.failed, b)
    requires e3 == IntStep(text, e2.pos, e2.failed, c) && e4 == IntStep(text, e3.pos, e3.failed, d)
    ensures Chain(text, p0, f0, [a, b, c, d]) == ([e1.value, e2.value, e3.value, e4.value], e4.pos, e4.failed)
  {
    Chain3(text, e1.pos, e1.failed, b, c, d, e2, e3, e4);
    assert [a, b, c, d][1..] == [b, c, d];
    ChainStep(text, p0, f0, [a, b, c, d], e1, [e2.value, e3.value, e4.value], e4.pos, e4.failed);
    assert [e1.value] + [e2.value, e3.value, e4.value] == [e1.value, e2.value, e3.value, e4.value];
  }

  /**
    `std::ifstream` over a text: the cursor of the next character to read and
    the failbit. The position of a stream that has failed is never looked at
    again, so a failed stream keeps its cursor at the end of the text.
  */
  class InFile {
    const text: string
    var pos: nat
    var failed: bool

    predicate Valid()
      reads this
    {
      pos <= |text| && (failed ==> pos == |text|)
    }

    /** The file opened at its start, in a good state. */
    constructor (text: string)
      ensures this.text == text && pos == 0 && !failed && Valid()
    {
      this.text := text;
      pos := 0;
      failed := false;
    }

    /**
      `file >> word` into a `std::string` that holds `held`. On a failed
      stream nothing happens; otherwise the next word is extracted, and when
      only whitespace is left the stream fails and `held` is kept.
    */
    method ExtractWord(held: string) returns (word: string)
      requires Valid()
      modifies this
      ensures Valid()
      ensures old(failed) ==> failed && pos == old(pos) && word == held
      ensures !old(failed) ==>
        match ScanWord(text, old(pos))
        case None => failed && pos == |text| && word == held
        case Some((w, p)) => !failed && pos == p && word == w
    {
      if failed {
        return held;
      }
      match ScanWord(text, pos)
      case None =>
        failed, pos := true, |text|;
        word := held;
      case Some((w, p)) =>
        pos := p;
        word := w;
    }

    /** `file >> n` into an `int` that holds `held`, as `IntStep` describes it. */
    method ExtractInt(held: int32) returns (n: int32)
      requires Valid()
      modifies this
      ensures Valid()
      ensures Extracted(n, pos, failed) == IntStep(text, old(pos), old(failed), held)
    {
      if failed {
        return held;
      }
      match ScanInt(text, pos)
      case Parsed(v, p) =>
        pos := p;
        n := v;
      case AtEnd =>
        failed, pos := true, |text|;
        n := held;
      case NotANumber =>
        failed, pos := true, |text|;
        n := 0;
      case OutOfRange(bound) =>
        failed, pos := true, |text|;
        n := bound;
    }
  }
}
