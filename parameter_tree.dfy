/**
 * `ParameterTree`: string values stored under keys and read back through
 * `get`, which converts a value with the `Parser` for the requested type.
 * Every parser reads from an input string stream over the value: a scalar
 * is one integer, a string is the trimmed text, a `FieldVector<int, n>` is
 * exactly `n` integers and a `std::vector<int>` is every integer up to the
 * end of the text.
 */
module ParameterTrees {
  import opened Wrappers
  import opened Streams
  import TupleIO

  /** The exceptions `get` raises: `RangeError`, and `NotImplemented` for a type without a parser. */
  datatype Error = RangeError(message: string) | NotImplemented(message: string)

  /** The error every parser raises for a value it cannot convert. */
  function CannotParse(str: string, what: string): Error
  {
    RangeError("Cannot parse value \"" + str + "\" as a " + what)
  }

  /** The text `ints` written with single blanks between the numbers. */
  function Blanked(ints: seq<int>): string
  {
    TupleIO.Put(ints, ShowInt, " ")
  }

  predicate Blank(s: string)
  {
    forall i :: 0 <= i < |s| ==> IsSpace(s[i])
  }

  // ---------------------------------------------------------------------------
  // Stream facts the parsers rely on
  // ---------------------------------------------------------------------------

  /** The position lies within the text, and at its end once eofbit is set. */
  predicate InBounds(s: IStream)
  {
    s.pos <= |s.text| && (s.eof ==> s.pos == |s.text|)
  }

  /** An integer extraction without failbit has stored a value and moved on. */
  lemma ExtractProgress(s: IStream)
    ensures !ExtractInt(s).0.fail ==> ExtractInt(s).1.Some? && ExtractInt(s).0.pos > s.pos
  {
  }

  /** An integer extraction keeps the stream in bounds. */
  lemma ExtractInBounds(s: IStream)
    requires InBounds(s)
    ensures InBounds(ExtractInt(s).0)
  {
  }

  /**
   * From `p` on there is only whitespace, or whitespace and then a single
   * sign character that ends the text.
   */
  predicate Exhausted(text: string, p: nat)
  {
    var q := SkipSpace(text, p);
    q >= |text| || (q == |text| - 1 && (text[q] == '+' || text[q] == '-'))
  }

  /** The parsers' closing check: extracting one more value sets both failbit and eofbit. */
  predicate FailsAtEnd(s: IStream)
  {
    var t := ExtractInt(s).0;
    t.fail && t.eof
  }

  /** The closing check passes exactly when the rest of the text is exhausted. */
  lemma EndCheck(s: IStream)
    requires InBounds(s) && !s.fail
    ensures FailsAtEnd(s) <==> Exhausted(s.text, s.pos)
  {
  }

  lemma {:induction false} SkipBlank(t: string, a: nat)
    requires a <= |t| && forall i :: a <= i < |t| ==> IsSpace(t[i])
    ensures SkipSpace(t, a) == |t|
    decreases |t| - a
  {
    if a < |t| {
      SkipBlank(t, a + 1);
    }
  }

  // ---------------------------------------------------------------------------
  // Scalars
  // ---------------------------------------------------------------------------

  /**
   * `Parser<T>::parse` for an integer `T`: the first extraction must not
   * fail, and a second extraction must then fail at the end of the text.
   */
  function ParseScalar(str: string): (r: Result<int, Error>)
    ensures r.Err? ==> r == Err(CannotParse(str, "int"))
  {
    var (s1, v) := ExtractInt(Open(str));
    ExtractProgress(Open(str));
    if s1.fail then Err(CannotParse(str, "int"))
    else if !FailsAtEnd(s1) then Err(CannotParse(str, "int"))
    else Ok(v.value)
  }

  /**
   * A scalar parses exactly when one integer can be read and nothing but
   * whitespace (possibly ending in a lone sign) follows it, and the result
   * is that integer.
   */
  lemma ScalarExactlyOne(str: string)
    ensures var (s1, v) := ExtractInt(Open(str));
      (ParseScalar(str).Ok? <==> !s1.fail && Exhausted(str, s1.pos)) &&
      (ParseScalar(str).Ok? ==> v == Some(ParseScalar(str).value))
  {
    var s1 := ExtractInt(Open(str)).0;
    ExtractInBounds(Open(str));
    if !s1.fail {
      EndCheck(s1);
    }
  }

  /** A written integer with whitespace around it parses back to itself. */
  lemma ScalarRoundTrip(pre: string, x: int, post: string)
    requires Blank(pre) && Blank(post)
    ensures ParseScalar(pre + ShowInt(x) + post) == Ok(x)
  {
    var w := pre + ShowInt(x) + post;
    var e := |pre| + |ShowInt(x)|;
    assert w[|pre|..e] == ShowInt(x);
    assert e < |w| ==> w[e] == post[0];
    ExtractShownInt(Open(w), |pre|, x);
    var s1 := ExtractInt(Open(w)).0;
    assert s1 == IStream(w, e, false, e == |w|);
    SkipBlank(w, e);
    EndCheck(s1);
  }

  /** Two written integers are not a scalar. */
  lemma ScalarRejectsSecond(x: int, y: int)
    ensures ParseScalar(ShowInt(x) + " " + ShowInt(y)).Err?
  {
    var w := ShowInt(x) + " " + ShowInt(y);
    var e := |ShowInt(x)|;
    assert w[0..e] == ShowInt(x);
    ExtractShownInt(Open(w), 0, x);
    var s1 := ExtractInt(Open(w)).0;
    assert s1 == IStream(w, e, false, false);
    assert w[e + 1..|w|] == ShowInt(y);
    ExtractShownInt(s1, e + 1, y);
  }

  /**
   * A lone sign after the integer is let through: the second extraction
   * consumes it, finds no digit and stops at the end, which is what the
   * closing check asks for.
   */
  lemma ScalarIgnoresTrailingSign(x: int)
    ensures ParseScalar(ShowInt(x) + " -") == Ok(x)
  {
    var w := ShowInt(x) + " -";
    var e := |ShowInt(x)|;
    assert w[0..e] == ShowInt(x);
    ExtractShownInt(Open(w), 0, x);
    var s1 := ExtractInt(Open(w)).0;
    assert s1 == IStream(w, e, false, false);
    assert SkipSpace(w, e + 1) == e + 1;
    EndCheck(s1);
  }

  // ---------------------------------------------------------------------------
  // Strings
  // ---------------------------------------------------------------------------

  /** `ltrim`: the text without its leading whitespace. */
  function LTrim(s: string): (r: string)
    ensures |r| <= |s| && r == s[|s| - |r|..]
    ensures forall i :: 0 <= i < |s| - |r| ==> IsSpace(s[i])
    ensures r != [] ==> !IsSpace(r[0])
  {
    if s != [] && IsSpace(s[0]) then LTrim(s[1..]) else s
  }

  /** `rtrim`: the text without its trailing whitespace. */
  function RTrim(s: string): (r: string)
    ensures |r| <= |s| && r == s[..|r|]
    ensures forall i :: |r| <= i < |s| ==> IsSpace(s[i])
    ensures r != [] ==> !IsSpace(r[|r| - 1])
  {
    if s != [] && IsSpace(s[|s| - 1]) then RTrim(s[..|s| - 1]) else s
  }

  /** `Parser<std::string>::parse`: the value with leading and trailing whitespace removed; it never fails. */
  function ParseString(str: string): (r: Result<string, Error>)
    ensures r.Ok? && |r.value| <= |str|
    ensures r.value != [] ==> !IsSpace(r.value[0]) && !IsSpace(r.value[|r.value| - 1])
  {
    Ok(LTrim(RTrim(str)))
  }

  lemma {:induction false} LTrimDrops(pre: string, w: string)
    requires Blank(pre) && (w == [] || !IsSpace(w[0]))
    ensures LTrim(pre + w) == w
    decreases |pre|
  {
    if pre != [] {
      assert (pre + w)[1..] == pre[1..] + w;
      LTrimDrops(pre[1..], w);
    } else {
      assert pre + w == w;
    }
  }

  lemma {:induction false} RTrimDrops(w: string, post: string)
    requires Blank(post) && (w == [] || !IsSpace(w[|w| - 1]))
    ensures RTrim(w + post) == w
    decreases |post|
  {
    if post != [] {
      assert (w + post)[..|w + post| - 1] == w + post[..|post| - 1];
      RTrimDrops(w, post[..|post| - 1]);
    } else {
      assert w + post == w;
    }
  }

  /** A word between runs of whitespace is parsed as exactly that word. */
  lemma TrimmedWord(pre: string, w: string, post: string)
    requires Blank(pre) && Blank(post)
    requires w == [] || (!IsSpace(w[0]) && !IsSpace(w[|w| - 1]))
    ensures ParseString(pre + w + post) == Ok(w)
  {
    if w == [] {
      assert pre + w + post == pre + post;
      assert RTrim(pre + post) == [];
    } else {
      RTrimDrops(pre + w, post);
      LTrimDrops(pre, w);
    }
  }

  /** Parsing an already parsed string changes nothing. */
  lemma TrimIdempotent(str: string)
    ensures ParseString(ParseString(str).value) == ParseString(str)
  {
    TrimmedWord("", ParseString(str).value, "");
    assert "" + ParseString(str).value + "" == ParseString(str).value;
  }

  // ---------------------------------------------------------------------------
  // Field vectors
  // ---------------------------------------------------------------------------

  /**
   * The first `k` rounds of the `FieldVector` loop: the stream after them
   * and the values stored, or `None` once an extraction has failed.
   */
  function ReadCount(s: IStream, k: nat): (r: (IStream, Option<seq<int>>))
    ensures r.0.text == s.text
    ensures r.1.Some? ==> |r.1.value| == k
    ensures k > 0 && r.1.Some? ==> !r.0.fail
  {
    if k == 0 then (s, Some([]))
    else
      var (s1, vs) := ReadCount(s, k - 1);
      if vs.None? then (s1, None)
      else
        var (s2, v) := ExtractInt(s1);
        ExtractProgress(s1);
        if s2.fail then (s2, None) else (s2, Some(vs.value + [v.value]))
  }

  /**
   * `Parser<FieldVector<T, n>>::parse` for an integer `T`: `n` extractions
   * that must all succeed, then the closing check.
   */
  function FieldVectorOf(str: string, n: nat): (r: Result<seq<int>, Error>)
    ensures r.Ok? ==> |r.value| == n
    ensures r.Err? ==> r == Err(CannotParse(str, "FieldVector"))
  {
    var (s, vs) := ReadCount(Open(str), n);
    if vs.None? then Err(CannotParse(str, "FieldVector"))
    else if !FailsAtEnd(s) then Err(CannotParse(str, "FieldVector"))
    else Ok(vs.value)
  }

  /** Once an extraction has failed, further rounds report failure too. */
  lemma {:induction false} ReadCountStaysFailed(s: IStream, k: nat, m: nat)
    requires k <= m && ReadCount(s, k).1.None?
    ensures ReadCount(s, m).1.None?
    decreases m - k
  {
    if k < m {
      ReadCountStaysFailed(s, k + 1, m);
    }
  }

  /** One more round of the loop: a successful extraction appends its value, a failed one ends in failure. */
  lemma ReadCountStep(s0: IStream, i: nat, s: IStream, vs: seq<int>, s1: IStream, v: Option<int>)
    requires ReadCount(s0, i) == (s, Some(vs)) && ExtractInt(s) == (s1, v)
    ensures !s1.fail ==> v.Some?
    ensures ReadCount(s0, i + 1) == if s1.fail then (s1, None) else (s1, Some(vs + [v.value]))
  {
    ExtractProgress(s);
  }

  /** A failed round makes the `FieldVector` parser fail. */
  lemma FieldVectorFails(str: string, n: nat, i: nat)
    requires i <= n && ReadCount(Open(str), i).1.None?
    ensures FieldVectorOf(str, n) == Err(CannotParse(str, "FieldVector"))
  {
    ReadCountStaysFailed(Open(str), i, n);
  }

  /** The closing check decides the `FieldVector` parser once all `n` rounds succeeded. */
  lemma FieldVectorClose(str: string, n: nat, s: IStream, vs: seq<int>, s2: IStream)
    requires ReadCount(Open(str), n) == (s, Some(vs)) && ExtractInt(s).0 == s2
    ensures FieldVectorOf(str, n) == if s2.fail && s2.eof then Ok(vs) else Err(CannotParse(str, "FieldVector"))
  {
  }

  /** After `i` rounds from `s0` the stream is `s` and the values read are `vs`. */
  predicate Filled(s0: IStream, i: nat, s: IStream, vs: seq<int>)
  {
    ReadCount(s0, i) == (s, Some(vs))
  }

  lemma FilledStep(s0: IStream, i: nat, s: IStream, vs: seq<int>, s1: IStream, v: Option<int>, n: nat)
    requires i < n && Filled(s0, i, s, vs) && ExtractInt(s) == (s1, v)
    ensures s1.fail ==> ReadCount(s0, n).1.None?
    ensures !s1.fail ==> v.Some? && Filled(s0, i + 1, s1, vs + [v.value])
  {
    ReadCountStep(s0, i, s, vs, s1, v);
    if s1.fail {
      ReadCountStaysFailed(s0, i + 1, n);
    }
  }

  /** The `for` loop of the `FieldVector` parser: `s >> val[i]` for each entry until an extraction fails. */
  method ReadEntries(str: string, val: array<int>) returns (s: IStream, ok: bool)
    modifies val
    ensures ok ==> ReadCount(Open(str), val.Length) == (s, Some(val[..]))
    ensures !ok ==> ReadCount(Open(str), val.Length).1.None?
  {
    s := Open(str);
    var i := 0;
    while i < val.Length
      invariant 0 <= i <= val.Length
      invariant Filled(Open(str), i, s, val[..i])
    {
      var (s1, v) := ExtractInt(s);
      FilledStep(Open(str), i, s, val[..i], s1, v, val.Length);
      if s1.fail {
        return s1, false;
      }
      ghost var before := val[..i];
      val[i] := v.value;
      assert val[..i + 1] == before + [v.value];
      s := s1;
      i := i + 1;
    }
    assert val[..] == val[..i];
    ok := true;
  }

  /** The `FieldVector` parser: the entries are read into a fresh vector, then the closing check runs. */
  method ParseFieldVector(str: string, n: nat) returns (r: Result<seq<int>, Error>)
    ensures r == FieldVectorOf(str, n)
  {
    var val := new int[n];
    var s, ok := ReadEntries(str, val);
    if !ok {
      FieldVectorFails(str, n, n);
      return Err(CannotParse(str, "FieldVector"));
    }
    var (s2, _) := ExtractInt(s);
    FieldVectorClose(str, n, s, val[..], s2);
    if !s2.fail || !s2.eof {
      return Err(CannotParse(str, "FieldVector"));
    }
    return Ok(val[..]);
  }

  /**
   * After `k` rounds over written integers the stream is good, just past
   * the `k`-th integer, and holds the first `k` of them.
   */
  predicate ReadsWritten(ints: seq<int>, k: nat, p: nat)
  {
    1 <= k <= |ints| &&
    var w := Blanked(ints);
    p == |Blanked(ints[..k])| &&
    Filled(Open(w), k, IStream(w, p, false, p == |w|), ints[..k])
  }

  lemma ReadsFirstWritten(ints: seq<int>) returns (p: nat)
    requires 1 <= |ints|
    ensures ReadsWritten(ints, 1, p)
  {
    var w := Blanked(ints);
    TupleIO.FirstLayout(ints, " ");
    TupleIO.ReadFirst(w, ints[0]);
    p := |ShowInt(ints[0])|;
    assert Filled(Open(w), 0, Open(w), []);
    FilledStep(Open(w), 0, Open(w), [], IStream(w, p, false, p == |w|), Some(ints[0]), 1);
    assert [] + [ints[0]] == ints[..1];
  }

  /** One more round over a blank-delimited integer `x` written at `q`. */
  lemma FilledNext(w: string, k: nat, q: nat, vs: seq<int>, x: int) returns (e: nat)
    requires 1 <= k && Filled(Open(w), k - 1, IStream(w, q, false, false), vs)
    requires TupleIO.DelimitedAt(w, q, " ", x)
    ensures e == q + 1 + |ShowInt(x)|
    ensures Filled(Open(w), k, IStream(w, e, false, e == |w|), vs + [x])
  {
    e := ReadBlankDelimited(w, q, x);
    FilledStep(Open(w), k - 1, IStream(w, q, false, false), vs, IStream(w, e, false, e == |w|), Some(x), k);
  }

  /** A blank-delimited integer at `q` is the next one extracted from there. */
  lemma ReadBlankDelimited(w: string, q: nat, x: int) returns (e: nat)
    requires TupleIO.DelimitedAt(w, q, " ", x)
    ensures e == q + 1 + |ShowInt(x)|
    ensures ExtractInt(IStream(w, q, false, false)) == (IStream(w, e, false, e == |w|), Some(x))
  {
    assert TupleIO.StripSpaces(" ") == "";
    e := TupleIO.ReadNext(w, q, " ", x);
    assert TupleIO.MatchDelimiter(IStream(w, q, false, false), "") == IStream(w, q, false, false);
  }

  lemma ReadsNextWritten(ints: seq<int>, k: nat, q: nat) returns (p: nat)
    requires 2 <= k <= |ints| && ReadsWritten(ints, k - 1, q)
    ensures ReadsWritten(ints, k, p)
  {
    var w := Blanked(ints);
    var x := ints[k - 1];
    TupleIO.WrittenLayout(ints, " ", k);
    assert q != |w|;
    p := FilledNext(w, k, q, ints[..k - 1], x);
    TakeOneMore(ints, k);
  }

  lemma TakeOneMore(xs: seq<int>, k: nat)
    requires 1 <= k <= |xs|
    ensures xs[..k - 1] + [xs[k - 1]] == xs[..k]
  {
  }

  lemma {:induction false} ReadsWrittenPrefix(ints: seq<int>, k: nat) returns (p: nat)
    requires 1 <= k <= |ints|
    ensures ReadsWritten(ints, k, p)
    decreases k
  {
    if k == 1 {
      p := ReadsFirstWritten(ints);
    } else {
      var q := ReadsWrittenPrefix(ints, k - 1);
      p := ReadsNextWritten(ints, k, q);
    }
  }

  /** After reading every written integer the stream is at the end with eofbit set. */
  lemma ReadsAllWritten(ints: seq<int>)
    requires 1 <= |ints|
    ensures var w := Blanked(ints);
      ReadCount(Open(w), |ints|) == (IStream(w, |w|, false, true), Some(ints))
  {
    var p := ReadsWrittenPrefix(ints, |ints|);
    assert ints[..|ints|] == ints;
  }

  /**
   * Written integers parse as a `FieldVector` of exactly their number:
   * a shorter or longer vector is an error.
   */
  lemma FieldVectorExactCount(ints: seq<int>, n: nat)
    ensures FieldVectorOf(Blanked(ints), n).Ok? <==> n == |ints|
    ensures n == |ints| ==> FieldVectorOf(Blanked(ints), n) == Ok(ints)
  {
    var w := Blanked(ints);
    if ints == [] {
      assert w == "";
      if n > 0 {
        ReadCountStaysFailed(Open(w), 1, n);
      }
    } else {
      if n < |ints| {
        FieldVectorTooLong(ints, n);
      } else {
        ReadsAllWritten(ints);
        if n > |ints| {
          ReadCountStaysFailed(Open(w), |ints| + 1, n);
        }
      }
    }
  }

  lemma FieldVectorTooLong(ints: seq<int>, n: nat)
    requires n < |ints|
    ensures FieldVectorOf(Blanked(ints), n).Err?
  {
    var w := Blanked(ints);
    var x := ints[n];
    if n == 0 {
      TupleIO.FirstLayout(ints, " ");
      TupleIO.ReadFirst(w, x);
    } else {
      var q := ReadsWrittenPrefix(ints, n);
      TupleIO.WrittenLayout(ints, " ", n + 1);
      assert ints[..n + 1][..n] == ints[..n];
      assert TupleIO.StripSpaces(" ") == "";
      var e := TupleIO.ReadNext(w, q, " ", x);
      assert TupleIO.MatchDelimiter(IStream(w, q, false, false), "") == IStream(w, q, false, false);
    }
  }

  // ---------------------------------------------------------------------------
  // Vectors
  // ---------------------------------------------------------------------------

  /**
   * The `std::vector` loop from stream `s` with `vec` read so far: a failed
   * extraction ends the loop, successfully at the end of the text and with
   * an error otherwise; every other value is appended.
   */
  function ReadAll(s: IStream, vec: seq<int>): (r: Result<seq<int>, Error>)
    requires InBounds(s)
    ensures r.Ok? ==> |vec| <= |r.value| && r.value[..|vec|] == vec
    ensures r.Err? ==> r == Err(CannotParse(s.text, "std::vector"))
    decreases |s.text| - s.pos
  {
    var (s1, v) := ExtractInt(s);
    ExtractProgress(s);
    ExtractInBounds(s);
    if s1.fail then
      if s1.eof then Ok(vec) else Err(CannotParse(s.text, "std::vector"))
    else
      var r := ReadAll(s1, vec + [v.value]);
      assert r.Ok? ==> r.value[..|vec|] == r.value[..|vec| + 1][..|vec|];
      r
  }

  /** `Parser<std::vector<T>>::parse` for an integer `T`. */
  function VectorOf(str: string): (r: Result<seq<int>, Error>)
    ensures r.Err? ==> r == Err(CannotParse(str, "std::vector"))
  {
    ReadAll(Open(str), [])
  }

  /** The `std::vector` parser with its loop appending each value read. */
  method ParseVector(str: string) returns (r: Result<seq<int>, Error>)
    ensures r == VectorOf(str)
  {
    var vec: seq<int> := [];
    var s := Open(str);
    while true
      invariant InBounds(s) && s.text == str
      invariant ReadAll(s, vec) == VectorOf(str)
      decreases |str| - s.pos
    {
      ExtractProgress(s);
      ExtractInBounds(s);
      var (s1, v) := ExtractInt(s);
      if s1.fail {
        if s1.eof {
          return Ok(vec);
        }
        return Err(CannotParse(str, "std::vector"));
      }
      vec := vec + [v.value];
      s := s1;
    }
  }

  /** An empty or blank value is the empty vector. */
  lemma VectorOfBlank(str: string)
    requires Blank(str)
    ensures VectorOf(str) == Ok([])
  {
    SkipBlank(str, 0);
  }

  /** The rounds of the `FieldVector` loop are the first rounds of the `std::vector` loop. */
  lemma {:induction false} ReadCountThenAll(s: IStream, k: nat, acc: seq<int>)
    requires InBounds(s) && ReadCount(s, k).1.Some?
    ensures InBounds(ReadCount(s, k).0)
    ensures ReadAll(s, acc) == ReadAll(ReadCount(s, k).0, acc + ReadCount(s, k).1.value)
    decreases k
  {
    if k == 0 {
      assert acc + [] == acc;
    } else {
      var (s1, vs) := ReadCount(s, k - 1);
      ReadCountThenAll(s, k - 1, acc);
      ExtractProgress(s1);
      ExtractInBounds(s1);
      var (s2, v) := ExtractInt(s1);
      assert ReadAll(s1, acc + vs.value) == ReadAll(s2, acc + vs.value + [v.value]);
      assert acc + vs.value + [v.value] == acc + (vs.value + [v.value]);
    }
  }

  /** Written integers parse back as a vector of all of them. */
  lemma VectorRoundTrip(ints: seq<int>)
    ensures VectorOf(Blanked(ints)) == Ok(ints)
  {
    var w := Blanked(ints);
    if ints == [] {
      VectorOfBlank(w);
    } else {
      ReadsAllWritten(ints);
      ReadCountThenAll(Open(w), |ints|, []);
      assert [] + ints == ints;
    }
  }

  /** A value that parses as a `FieldVector` parses as a vector with the same entries. */
  lemma FieldVectorIsVector(str: string, n: nat)
    requires FieldVectorOf(str, n).Ok?
    ensures VectorOf(str) == FieldVectorOf(str, n)
  {
    ReadCountThenAll(Open(str), n, []);
    assert [] + ReadCount(Open(str), n).1.value == ReadCount(Open(str), n).1.value;
  }

  /** A scalar is a `FieldVector` of length one, and so a vector of one entry. */
  lemma ScalarIsSingleton(str: string)
    ensures ParseScalar(str).Ok? <==> FieldVectorOf(str, 1).Ok?
    ensures ParseScalar(str).Ok? ==> FieldVectorOf(str, 1) == Ok([ParseScalar(str).value])
    ensures ParseScalar(str).Ok? ==> VectorOf(str) == Ok([ParseScalar(str).value])
  {
    assert ReadCount(Open(str), 0) == (Open(str), Some([]));
    if ParseScalar(str).Ok? {
      FieldVectorIsVector(str, 1);
    }
  }

  /** Reading the written integer `x` that starts at `p` and is followed by a blank. */
  lemma ReadShownBeforeBlank(w: string, p: nat, x: int)
    requires p + |ShowInt(x)| < |w| && w[p..p + |ShowInt(x)|] == ShowInt(x) && w[p + |ShowInt(x)|] == ' '
    requires p == 0 || w[p - 1] == ' '
    ensures ExtractInt(IStream(w, if p == 0 then 0 else p - 1, false, false)) == (IStream(w, p + |ShowInt(x)|, false, false), Some(x))
  {
    ExtractShownInt(IStream(w, if p == 0 then 0 else p - 1, false, false), p, x);
  }

  /** A vector is cut short without complaint by a lone sign at the end. */
  lemma VectorIgnoresTrailingSign()
    ensures VectorOf("1 2 -") == Ok([1, 2])
  {
    var w := "1 2 -";
    assert ShowInt(1) == "1" && ShowInt(2) == "2";
    ReadShownBeforeBlank(w, 0, 1);
    ReadShownBeforeBlank(w, 2, 2);
    var s1 := IStream(w, 1, false, false);
    var s2 := IStream(w, 3, false, false);
    assert SkipSpace(w, 3) == 4 && DigitsEnd(w, 5) == 5;
    assert ExtractInt(s2) == (IStream(w, 5, true, true), Some(0));
    assert ReadAll(s1, [1]) == ReadAll(s2, [1] + [2]);
    assert ReadAll(Open(w), []) == ReadAll(s1, [] + [1]);
    assert [] + [1] == [1] && [1] + [2] == [1, 2];
  }

  /** A word that is not a number makes the vector parser raise `RangeError`. */
  lemma VectorRejectsWord()
    ensures VectorOf("1 x") == Err(CannotParse("1 x", "std::vector"))
  {
    var w := "1 x";
    assert ShowInt(1) == "1";
    ReadShownBeforeBlank(w, 0, 1);
    var s1 := IStream(w, 1, false, false);
    assert SkipSpace(w, 1) == 2 && DigitsEnd(w, 2) == 2;
    assert ExtractInt(s1) == (IStream(w, 2, true, false), Some(0));
    assert ReadAll(Open(w), []) == ReadAll(s1, [] + [1]);
  }

  // ---------------------------------------------------------------------------
  // The tree
  // ---------------------------------------------------------------------------

  /**
   * The values of a `ParameterTree` and their keys in order of appearance.
   * Keys are looked up as whole strings.
   */
  class ParameterTree {
    var values: map<string, string>
    var valueKeys: seq<string>

    /** Every stored key is listed once in `valueKeys`, and only those. */
    ghost predicate Valid()
      reads this
    {
      (forall k :: k in values <==> k in valueKeys) &&
      (forall i, j :: 0 <= i < j < |valueKeys| ==> valueKeys[i] != valueKeys[j])
    }

    constructor()
      ensures Valid() && values == map[] && valueKeys == []
    {
      values := map[];
      valueKeys := [];
    }

    /** `hasKey`. */
    predicate HasKey(key: string)
      reads this
    {
      key in values
    }

    /** `operator[]`: the value stored under `key`, which is created empty when absent. */
    method Index(key: string) returns (v: string)
      requires Valid()
      modifies this
      ensures Valid()
      ensures key in old(values) ==> values == old(values) && valueKeys == old(valueKeys)
      ensures key !in old(values) ==> values == old(values)[key := ""] && valueKeys == old(valueKeys) + [key]
      ensures key in values && v == values[key]
    {
      if key !in values {
        values := values[key := ""];
        valueKeys := valueKeys + [key];
      }
      v := values[key];
    }

    /** `(*this)[key] = value`: the reference `operator[]` returns is assigned. */
    method Assign(key: string, value: string)
      requires Valid()
      modifies this
      ensures Valid()
      ensures values == old(values)[key := value]
      ensures valueKeys == if key in old(values) then old(valueKeys) else old(valueKeys) + [key]
    {
      var _ := Index(key);
      values := values[key := value];
    }

    /**
     * `get<T>(key)` with the parser `parse`: an absent key and any
     * `RangeError` of the parser raise `RangeError`; a parser's other
     * errors pass through.
     */
    function Get<T>(key: string, parse: string -> Result<T, Error>): (r: Result<T, Error>)
      reads this
      ensures key !in values ==> r == Err(RangeError("Key '" + key + "' not found in parameter file!"))
      ensures key in values && parse(values[key]).Err? && parse(values[key]).error.RangeError? ==>
                r == Err(RangeError("Cannot parse value \"" + values[key] + "\" for key \"" + key + "\""))
      ensures key in values && parse(values[key]).Err? && !parse(values[key]).error.RangeError? ==>
                r == parse(values[key])
      ensures key in values && parse(values[key]).Ok? ==> r == parse(values[key])
    {
      if !HasKey(key) then Err(RangeError("Key '" + key + "' not found in parameter file!"))
      else
        match parse(values[key])
        case Ok(v) => Ok(v)
        case Err(RangeError(_)) => Err(RangeError("Cannot parse value \"" + values[key] + "\" for key \"" + key + "\""))
        case Err(e) => Err(e)
    }

    /** `get(key, defaultValue)`: the default when the key is absent, otherwise `get<T>(key)`. */
    function GetWithDefault<T>(key: string, defaultValue: T, parse: string -> Result<T, Error>): (r: Result<T, Error>)
      reads this
      ensures key !in values ==> r == Ok(defaultValue)
      ensures key in values ==> r == Get(key, parse)
    {
      if HasKey(key) then Get(key, parse) else Ok(defaultValue)
    }
  }

  /** A stored written integer reads back as a scalar and as a one-entry vector; a default is never used for it. */
  lemma GetWritten(t: ParameterTree, key: string, x: int, y: int)
    requires key in t.values && t.values[key] == ShowInt(x)
    ensures t.Get(key, ParseScalar) == Ok(x)
    ensures t.GetWithDefault(key, y, ParseScalar) == Ok(x)
    ensures t.Get(key, VectorOf) == Ok([x])
  {
    ScalarRoundTrip("", x, "");
    assert "" + ShowInt(x) + "" == ShowInt(x);
    ScalarIsSingleton(ShowInt(x));
  }

  /** Written integers stored under a key read back as a `FieldVector` of their number and fail for any other length. */
  lemma GetFieldVectorWritten(t: ParameterTree, key: string, ints: seq<int>, n: nat)
    requires key in t.values && t.values[key] == Blanked(ints)
    ensures t.Get(key, s => FieldVectorOf(s, n)).Ok? <==> n == |ints|
    ensures n == |ints| ==> t.Get(key, s => FieldVectorOf(s, n)) == Ok(ints)
    ensures n != |ints| ==> t.Get(key, s => FieldVectorOf(s, n)).error.RangeError?
  {
    FieldVectorExactCount(ints, n);
  }
}
