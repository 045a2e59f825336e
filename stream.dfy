/**
  The two extractions the reader performs on its input stream, as
  `std::istream` does them in the "C" locale with `skipws` set. The stream is
  an in-memory text `t` and a cursor `pos` into it; each extraction returns
  where the cursor ends up.
*/
module Stream {
  import opened Results
  import opened Decimal

  /** Whitespace as `isspace` classifies it in the "C" locale. */
  predicate IsSpace(c: char) {
    c == ' ' || c == '\t' || c == '\n' || c == '\r' || c == '\U{B}' || c == '\U{C}'
  }

  predicate NoSpace(s: string) {
    forall k {:trigger IsSpace(s[k])} :: 0 <= k < |s| ==> !IsSpace(s[k])
  }

  /** Every character of `t` from `pos` on is whitespace: nothing is left to extract. */
  predicate BlankFrom(t: string, pos: nat) {
    forall k {:trigger IsSpace(t[k])} :: pos <= k < |t| ==> IsSpace(t[k])
  }

  /** The first position at or after `pos` that is not whitespace (or the end). */
  function SkipSpace(t: string, pos: nat): (p: nat)
    requires pos <= |t|
    ensures pos <= p <= |t|
    ensures p == |t| || !IsSpace(t[p])
    decreases |t| - pos
  {
    if pos < |t| && IsSpace(t[pos]) then SkipSpace(t, pos + 1) else pos
  }

  /** Everything `SkipSpace` passes over is whitespace. */
  lemma {:induction false} SkipSpaceSkipsBlanks(t: string, pos: nat)
    requires pos <= |t|
    ensures forall k {:trigger IsSpace(t[k])} :: pos <= k < SkipSpace(t, pos) ==> IsSpace(t[k])
    decreases |t| - pos
  {
    if pos < |t| && IsSpace(t[pos]) {
      SkipSpaceSkipsBlanks(t, pos + 1);
    }
  }

  /** The end of the run of non-whitespace characters starting at `pos`. */
  function WordEnd(t: string, pos: nat): (p: nat)
    requires pos <= |t|
    ensures pos <= p <= |t|
    ensures p == |t| || IsSpace(t[p])
    decreases |t| - pos
  {
    if pos < |t| && !IsSpace(t[pos]) then WordEnd(t, pos + 1) else pos
  }

  /** The run `WordEnd` passes over holds no whitespace. */
  lemma {:induction false} WordEndSkipsWord(t: string, pos: nat)
    requires pos <= |t|
    ensures NoSpace(t[pos..WordEnd(t, pos)])
    decreases |t| - pos
  {
    if pos < |t| && !IsSpace(t[pos]) {
      WordEndSkipsWord(t, pos + 1);
      assert t[pos..WordEnd(t, pos)] == [t[pos]] + t[pos + 1..WordEnd(t, pos)];
    }
  }

  /** The end of the run of decimal digits starting at `pos`. */
  function DigitsEnd(t: string, pos: nat): (p: nat)
    requires pos <= |t|
    ensures pos <= p <= |t|
    ensures p == |t| || !IsDigit(t[p])
    decreases |t| - pos
  {
    if pos < |t| && IsDigit(t[pos]) then DigitsEnd(t, pos + 1) else pos
  }

  /** The run `DigitsEnd` passes over is all digits. */
  lemma {:induction false} DigitsEndSkipsDigits(t: string, pos: nat)
    requires pos <= |t|
    ensures AllDigits(t[pos..DigitsEnd(t, pos)])
    decreases |t| - pos
  {
    if pos < |t| && IsDigit(t[pos]) {
      DigitsEndSkipsDigits(t, pos + 1);
      assert t[pos..DigitsEnd(t, pos)] == [t[pos]] + t[pos + 1..DigitsEnd(t, pos)];
    }
  }

  /**
    `is >> word` into a `std::string`: skip whitespace, then take the longest
    run of non-whitespace characters; it fails when nothing but whitespace is
    left.
  */
  function ScanWord(t: string, pos: nat): (r: Option<(string, nat)>)
    requires pos <= |t|
    ensures r.Some? ==> pos < r.value.1 <= |t|
  {
    var start := SkipSpace(t, pos);
    if start == |t| then None
    else
      var end := WordEnd(t, start);
      Some((t[start..end], end))
  }

  /**
    What `ScanWord` extracts: it fails exactly when only whitespace is left;
    otherwise the word is non-empty, holds no whitespace, is preceded only by
    whitespace and is ended by whitespace or the end of the input.
  */
  lemma ScanWordMeaning(t: string, pos: nat)
    requires pos <= |t|
    ensures ScanWord(t, pos).None? <==> BlankFrom(t, pos)
    ensures ScanWord(t, pos).Some? ==>
      var (w, p) := ScanWord(t, pos).value;
      pos + |w| <= p && |w| > 0 && w == t[p - |w|..p] && NoSpace(w)
      && BlankFrom(t[..p - |w|], pos) && (p == |t| || IsSpace(t[p]))
  {
    var start := SkipSpace(t, pos);
    SkipSpaceSkipsBlanks(t, pos);
    if start < |t| {
      WordEndSkipsWord(t, start);
      var prefix := t[..start];
      assert forall k {:trigger IsSpace(prefix[k])} :: pos <= k < |prefix| ==> prefix[k] == t[k];
    } else {
      assert forall k {:trigger IsSpace(t[k])} :: pos <= k < |t| ==> IsSpace(t[k]);
    }
  }

  /**
    How an `is >> n` into an `int` ends. Every way but `Parsed` sets the
    stream's failbit; the comments say what is then left in `n`.
  */
  datatype IntScan =
    | Parsed(value: int32, next: nat)   // success; the cursor stops after the last digit
    | AtEnd                             // only whitespace was left; `n` is not assigned
    | NotANumber                        // no digit where the numeral should start; `n` is set to 0
    | OutOfRange(bound: int32)          // the value does not fit; `n` is set to the nearest bound

  /**
    `is >> n` into an `int`: skip whitespace, accept one optional `+` or `-`,
    then the longest run of decimal digits. No digit at all, or a value
    outside the 32-bit range, sets the stream's failbit; a value out of range
    is replaced by the largest or smallest `int`, on the side of its sign.
  */
  function ScanInt(t: string, pos: nat): (r: IntScan)
    requires pos <= |t|
    ensures r.Parsed? ==> pos < r.next <= |t|
    ensures r.OutOfRange? ==> r.bound == -0x8000_0000 || r.bound == 0x7fff_ffff
  {
    var start := SkipSpace(t, pos);
    if start == |t| then AtEnd
    else
      var negative := t[start] == '-';
      var digitsStart := if negative || t[start] == '+' then start + 1 else start;
      var digitsEnd := DigitsEnd(t, digitsStart);
      if digitsEnd == digitsStart then NotANumber
      else
        DigitsEndSkipsDigits(t, digitsStart);
        var magnitude: int := DigitsToNat(t[digitsStart..digitsEnd]);
        var v := if negative then -magnitude else magnitude;
        if InInt32Range(v) then Parsed(v as int32, digitsEnd)
        else if negative then OutOfRange(-0x8000_0000)
        else OutOfRange(0x7fff_ffff)
  }

  /**
    What `ScanInt` reads: it reports the end of the input exactly when only
    whitespace is left, and a parsed value ends on a digit that is not
    followed by another digit.
  */
  lemma ScanIntMeaning(t: string, pos: nat)
    requires pos <= |t|
    ensures ScanInt(t, pos).AtEnd? <==> BlankFrom(t, pos)
    ensures ScanInt(t, pos).Parsed? ==>
      var q := ScanInt(t, pos).next;
      IsDigit(t[q - 1]) && (q == |t| || !IsDigit(t[q]))
  {
    SkipSpaceSkipsBlanks(t, pos);
    var start := SkipSpace(t, pos);
    if start < |t| {
      var ds := if t[start] == '-' || t[start] == '+' then start + 1 else start;
      var de := DigitsEnd(t, ds);
      if de > ds {
        DigitsEndSkipsDigits(t, ds);
        assert t[de - 1] == t[ds..de][de - 1 - ds];
      }
    } else {
      assert forall k {:trigger IsSpace(t[k])} :: pos <= k < |t| ==> IsSpace(t[k]);
    }
  }
}
