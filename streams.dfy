/**
 * A character-level model of the parts of a C++ input stream that the
 * tuple reader and the parameter-tree parsers rely on: the read position,
 * the fail and eof state bits, whitespace skipping, extraction of one
 * character and extraction of a decimal integer, plus decimal formatting
 * of integers for the output side.
 */
module Streams {
  import opened Wrappers

  /** An input stream over a fixed buffer; `pos` may reach `|text|`. */
  datatype IStream = IStream(text: string, pos: nat, fail: bool, eof: bool)
  {
    /** The stream's `good()`: neither failbit nor eofbit is set. */
    predicate Good() { !fail && !eof }
  }

  /** A fresh stream positioned at the start of `text` (an `istringstream`). */
  function Open(text: string): IStream { IStream(text, 0, false, false) }

  /** Whitespace of the "C" locale. */
  predicate IsSpace(c: char) {
    c == ' ' || c == '\t' || c == '\n' || c == '\r' || c == '\U{0B}' || c == '\U{0C}'
  }

  predicate IsDigit(c: char) { '0' <= c <= '9' }

  /** The first position at or after `p` that does not hold whitespace (or the end). */
  function SkipSpace(text: string, p: nat): (q: nat)
    ensures p <= q && (p <= |text| ==> q <= |text|)
    ensures q < |text| ==> !IsSpace(text[q])
    ensures forall i :: p <= i < q ==> i < |text| && IsSpace(text[i])
    decreases |text| - p
  {
    if p < |text| && IsSpace(text[p]) then
      var q := SkipSpace(text, p + 1);
      assert forall i :: p + 1 <= i < q ==> i < |text| && IsSpace(text[i]);
      q
    else p
  }

  /** The first position at or after `p` that does not hold a digit (or the end). */
  function DigitsEnd(text: string, p: nat): (q: nat)
    ensures p <= q && (p <= |text| ==> q <= |text|)
    ensures q < |text| ==> !IsDigit(text[q])
    ensures forall i :: p <= i < q ==> i < |text| && IsDigit(text[i])
    decreases |text| - p
  {
    if p < |text| && IsDigit(text[p]) then
      var q := DigitsEnd(text, p + 1);
      assert forall i :: p + 1 <= i < q ==> i < |text| && IsDigit(text[i]);
      q
    else p
  }

  /** The value of a string of decimal digits, most significant first. */
  function DigitsValue(ds: string): nat
  {
    if ds == [] then 0
    else DigitsValue(ds[..|ds| - 1]) * 10 + Digit(ds[|ds| - 1])
  }

  function Digit(c: char): nat { if IsDigit(c) then (c as int - '0' as int) else 0 }

  function DigitChar(d: nat): char
    requires d < 10
  {
    ('0' as int + d) as char
  }

  /**
   * `is >> c` for a `char c` that the caller set to 0: the sentry fails on a
   * stream that is not good; otherwise whitespace is skipped, and reaching the
   * end sets eofbit and failbit and leaves the character untouched.
   */
  function ExtractChar(s: IStream): (r: (IStream, Option<char>))
    ensures r.0.text == s.text
    ensures r.1.Some? <==> s.Good() && SkipSpace(s.text, s.pos) < |s.text|
    ensures r.1.Some? ==> r.0.Good() && r.0.pos == SkipSpace(s.text, s.pos) + 1
                          && r.1.value == s.text[r.0.pos - 1] && !IsSpace(r.1.value)
    ensures r.1.None? ==> r.0.fail
  {
    if !s.Good() then (s.(fail := true), None)
    else
      var p := SkipSpace(s.text, s.pos);
      if p >= |s.text| then (IStream(s.text, p, true, true), None)
      else (IStream(s.text, p + 1, false, false), Some(s.text[p]))
  }

  /**
   * `is >> n` for an integer `n`. `None` means the sentry failed and `n` is
   * left untouched; `Some(v)` is the value stored, which is 0 when no digit
   * could be read. After whitespace an optional sign and a maximal run of
   * digits are consumed; hitting the end of the buffer sets eofbit.
   */
  function ExtractInt(s: IStream): (r: (IStream, Option<int>))
    ensures r.0.text == s.text && s.pos <= r.0.pos
    ensures !s.Good() ==> r.0.fail && r.1.None?
    ensures r.1.Some? && !r.0.fail ==> r.0.pos > s.pos
  {
    if !s.Good() then (s.(fail := true), None)
    else
      var p := SkipSpace(s.text, s.pos);
      if p >= |s.text| then (IStream(s.text, p, true, true), None)
      else
        var signed := s.text[p] == '+' || s.text[p] == '-';
        var q := if signed then p + 1 else p;
        var e := DigitsEnd(s.text, q);
        var atEnd := e >= |s.text|;
        if e == q then (IStream(s.text, e, true, atEnd), Some(0))
        else
          var magnitude: int := DigitsValue(s.text[q..e]);
          (IStream(s.text, e, false, atEnd), Some(if s.text[p] == '-' then -magnitude else magnitude))
  }

  /** Decimal digits of a natural number, without leading zeros. */
  function ShowNat(n: nat): (r: string)
    ensures |r| > 0 && forall i :: 0 <= i < |r| ==> IsDigit(r[i])
  {
    if n < 10 then [DigitChar(n)] else ShowNat(n / 10) + [DigitChar(n % 10)]
  }

  /** `os << n` for an integer: a minus sign for negative values, then the digits. */
  function ShowInt(x: int): (r: string)
    ensures |r| > 0 && !IsSpace(r[0])
  {
    if x < 0 then "-" + ShowNat(-x) else ShowNat(x)
  }

  lemma {:induction false} ShowNatValue(n: nat)
    ensures DigitsValue(ShowNat(n)) == n
  {
    if n >= 10 {
      var s := ShowNat(n);
      assert s[..|s| - 1] == ShowNat(n / 10);
      ShowNatValue(n / 10);
    }
  }

  /**
   * Reading back a formatted integer: a good stream whose unread text is
   * whitespace followed by `ShowInt(x)` and then the end or a non-digit
   * yields exactly `x` and stops right after it.
   */
  lemma {:induction false} ExtractShownInt(s: IStream, p: nat, x: int)
    requires s.Good() && s.pos <= p
    requires forall i :: s.pos <= i < p ==> i < |s.text| && IsSpace(s.text[i])
    requires p + |ShowInt(x)| <= |s.text| && s.text[p..p + |ShowInt(x)|] == ShowInt(x)
    requires p + |ShowInt(x)| < |s.text| ==> !IsDigit(s.text[p + |ShowInt(x)|])
    ensures ExtractInt(s) == (IStream(s.text, p + |ShowInt(x)|, false, p + |ShowInt(x)| == |s.text|), Some(x))
  {
    var t, w := s.text, ShowInt(x);
    assert t[p] == w[0];
    SkipToWord(t, s.pos, p);
    var q, e := ShownValue(t, p, x);
    DigitsEndAt(t, q, e);
    ExtractAt(s, p, q, e, x);
  }

  /** `ExtractInt` on a good stream whose next word, at `p`, is an optional sign and the digits up to `e`. */
  lemma ExtractAt(s: IStream, p: nat, q: nat, e: nat, v: int)
    requires s.Good() && SkipSpace(s.text, s.pos) == p && p < |s.text|
    requires q == (if s.text[p] == '+' || s.text[p] == '-' then p + 1 else p)
    requires q < e <= |s.text| && DigitsEnd(s.text, q) == e
    requires v == if s.text[p] == '-' then -(DigitsValue(s.text[q..e]) as int) else DigitsValue(s.text[q..e])
    ensures ExtractInt(s) == (IStream(s.text, e, false, e == |s.text|), Some(v))
  {
  }

  /** The digits of a formatted integer and the value they denote. */
  lemma ShownValue(t: string, p: nat, x: int) returns (q: nat, e: nat)
    requires p + |ShowInt(x)| <= |t| && t[p..p + |ShowInt(x)|] == ShowInt(x)
    ensures q == (if x < 0 then p + 1 else p) && e == p + |ShowInt(x)| && q < e <= |t|
    ensures (t[p] == '+' || t[p] == '-') <==> x < 0
    ensures forall i :: q <= i < e ==> IsDigit(t[i])
    ensures x == if t[p] == '-' then -(DigitsValue(t[q..e]) as int) else DigitsValue(t[q..e])
  {
    var n: nat := if x < 0 then -x else x;
    q, e := if x < 0 then p + 1 else p, p + |ShowInt(x)|;
    ShownDigits(t, p, x);
    ShowNatValue(n);
  }

  /** Where the digits of a formatted integer sit in the text that holds it. */
  lemma ShownDigits(t: string, p: nat, x: int)
    requires p + |ShowInt(x)| <= |t| && t[p..p + |ShowInt(x)|] == ShowInt(x)
    ensures var q := if x < 0 then p + 1 else p;
      var e := p + |ShowInt(x)|;
      q < e && t[q..e] == ShowNat(if x < 0 then -x else x)
      && (t[p] == '-' <==> x < 0) && (t[p] == '+' ==> x < 0)
      && forall i :: q <= i < e ==> IsDigit(t[i])
  {
    var w := ShowInt(x);
    var digits := ShowNat(if x < 0 then -x else x);
    var q := if x < 0 then p + 1 else p;
    var e := p + |w|;
    assert t[p] == w[0];
    if x < 0 {
      assert w == "-" + digits;
      assert t[q..e] == w[1..];
    } else {
      assert w == digits;
      assert IsDigit(digits[0]);
    }
    forall i | q <= i < e ensures IsDigit(t[i]) { assert t[i] == digits[i - q]; }
  }

  lemma SkipToWord(t: string, a: nat, p: nat)
    requires a <= p < |t| && !IsSpace(t[p])
    requires forall i :: a <= i < p ==> IsSpace(t[i])
    ensures SkipSpace(t, a) == p
    decreases p - a
  {
    if a < p { SkipToWord(t, a + 1, p); }
  }

  lemma DigitsEndAt(t: string, q: nat, e: nat)
    requires q <= e <= |t|
    requires forall i :: q <= i < e ==> IsDigit(t[i])
    requires e < |t| ==> !IsDigit(t[e])
    ensures DigitsEnd(t, q) == e
    decreases e - q
  {
    if q < e { DigitsEndAt(t, q + 1, e); }
  }
}
