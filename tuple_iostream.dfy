/**
 * Writing and reading tuples as text. `tuple_writer<i>::put` writes the
 * elements separated by a delimiter; `tuple_writer<i>::get` reads them back,
 * and before every element but the first reads each delimiter character with
 * the whitespace-skipping `is >> c`. Elements are integers here.
 */
module TupleIO {
  import opened Wrappers
  import opened Streams

  // ---------------------------------------------------------------------------
  // Writing
  // ---------------------------------------------------------------------------

  /**
   * `tuple_writer<i>::put(os, t, delim)` for `i == |t|`: nothing for the empty
   * tuple, the element alone for one element, and otherwise the first `i-1`
   * elements, the delimiter and element `i-1`.
   */
  function Put<E>(t: seq<E>, show: E -> string, delim: string): string
  {
    if |t| == 0 then ""
    else if |t| == 1 then show(t[0])
    else Put(t[..|t| - 1], show, delim) + delim + show(t[|t| - 1])
  }

  /** The delimiter followed by each of the shown elements, from the front. */
  function Separated<E>(t: seq<E>, show: E -> string, delim: string): string
  {
    if t == [] then "" else delim + show(t[0]) + Separated(t[1..], show, delim)
  }

  lemma {:induction false} SeparatedSnoc<E>(t: seq<E>, x: E, show: E -> string, delim: string)
    ensures Separated(t + [x], show, delim) == Separated(t, show, delim) + delim + show(x)
  {
    if t != [] {
      assert (t + [x])[1..] == t[1..] + [x];
      SeparatedSnoc(t[1..], x, show, delim);
    }
  }

  /** Writing is the delimiter join: the first element, then the delimiter before each further element. */
  lemma {:induction false} PutIsJoin<E>(t: seq<E>, show: E -> string, delim: string)
    ensures t == [] ==> Put(t, show, delim) == ""
    ensures t != [] ==> Put(t, show, delim) == show(t[0]) + Separated(t[1..], show, delim)
    decreases |t|
  {
    if |t| >= 2 {
      var init := t[..|t| - 1];
      PutIsJoin(init, show, delim);
      assert init[1..] + [t[|t| - 1]] == t[1..];
      SeparatedSnoc(init[1..], t[|t| - 1], show, delim);
    }
  }

  /** `write_tuple(os, tuple)` and `operator<<`: the delimiter defaults to ", ". */
  function WriteTuple(t: seq<int>): string
  {
    Put(t, ShowInt, ", ")
  }

  lemma WriteTupleExample()
    ensures WriteTuple([1, 23]) == "1, 23"
  {
    assert ShowInt(23) == "23" by {
      assert ShowNat(23) == ShowNat(2) + [DigitChar(3)];
    }
  }

  // ---------------------------------------------------------------------------
  // Reading
  // ---------------------------------------------------------------------------

  /**
   * The loop over the delimiter characters: while the stream has not failed,
   * read one character with `is >> c` (whitespace skipped; `c` keeps 0 when
   * nothing can be read) and set failbit if it is not the expected one.
   */
  function MatchDelimiter(s: IStream, delim: string): (r: IStream)
    ensures r.text == s.text
    ensures s.fail ==> r == s
    decreases |delim|
  {
    if s.fail || delim == [] then s
    else
      var (s1, c) := ExtractChar(s);
      MatchDelimiter(if c == Some(delim[0]) then s1 else s1.(fail := true), delim[1..])
  }

  /** `is >> get<i>(t)`: element `i` takes the extracted value unless the sentry failed. */
  function ReadElement(s: IStream, t: seq<int>, i: nat): (r: (IStream, seq<int>))
    requires i < |t|
    ensures |r.1| == |t| && r.0.text == s.text
    ensures s.fail ==> r.0.fail && r.1 == t
  {
    var (s1, v) := ExtractInt(s);
    (s1, if v.Some? then t[i := v.value] else t)
  }

  /**
   * `tuple_writer<n>::get(is, t, delim)`: nothing for `n == 0`, just element 0
   * for `n == 1`, and otherwise the first `n-1` elements, the delimiter and
   * element `n-1`.
   */
  function Get(n: nat, s: IStream, t: seq<int>, delim: string): (r: (IStream, seq<int>))
    requires n <= |t|
    ensures |r.1| == |t| && r.0.text == s.text
  {
    if n == 0 then (s, t)
    else if n == 1 then ReadElement(s, t, 0)
    else
      var (s1, t1) := Get(n - 1, s, t, delim);
      ReadElement(MatchDelimiter(s1, delim), t1, n - 1)
  }

  /** The `for` loop over the delimiter characters of `tuple_writer<i>::get`. */
  method ReadDelimiter(s: IStream, delim: string) returns (stream: IStream)
    ensures stream == MatchDelimiter(s, delim)
  {
    stream := s;
    var k := 0;
    while k < |delim| && !stream.fail
      invariant k <= |delim|
      invariant MatchDelimiter(stream, delim[k..]) == MatchDelimiter(s, delim)
    {
      var (next, c) := ExtractChar(stream);
      stream := if c != Some(delim[k]) then next.(fail := true) else next;
      assert delim[k..][1..] == delim[k + 1..];
      k := k + 1;
    }
    assert k == |delim| ==> delim[k..] == [];
  }

  /**
   * `read_tuple(is, tuple, delim)`: the element recursion of
   * `tuple_writer<n>::get` unrolled into a loop over the elements.
   */
  method ReadTuple(s: IStream, t: seq<int>, delim: string) returns (stream: IStream, tuple: seq<int>)
    ensures (stream, tuple) == Get(|t|, s, t, delim)
  {
    stream, tuple := s, t;
    var i := 0;
    while i < |t|
      invariant i <= |t| && |tuple| == |t|
      invariant (stream, tuple) == Get(i, s, t, delim)
    {
      if i > 0 {
        stream := ReadDelimiter(stream, delim);
      }
      var r := ReadElement(stream, tuple, i);
      stream, tuple := r.0, r.1;
      i := i + 1;
    }
  }

  /** The delimiter with its whitespace removed. */
  function StripSpaces(delim: string): (r: string)
    ensures forall i :: 0 <= i < |r| ==> !IsSpace(r[i])
    ensures (forall i :: 0 <= i < |delim| ==> !IsSpace(delim[i])) ==> r == delim
  {
    if delim == [] then []
    else if IsSpace(delim[0]) then StripSpaces(delim[1..])
    else [delim[0]] + StripSpaces(delim[1..])
  }

  /**
   * `read_tuple` with the delimiter stripped of whitespace: since `is >> c`
   * skips whitespace, only the delimiter's other characters can be matched.
   */
  method ReadTupleCorrected(s: IStream, t: seq<int>, delim: string) returns (stream: IStream, tuple: seq<int>)
    ensures (stream, tuple) == Get(|t|, s, t, StripSpaces(delim))
  {
    stream, tuple := ReadTuple(s, t, StripSpaces(delim));
  }

  // ---------------------------------------------------------------------------
  // Round trip
  // ---------------------------------------------------------------------------

  /**
   * After matching the stripped delimiter `d` from `s`, the stream is good
   * at a position no later than `e`, with only whitespace between.
   */
  predicate StopsInSpaces(s: IStream, d: string, e: nat)
  {
    var r := MatchDelimiter(s, StripSpaces(d));
    r.Good() && r.text == s.text && r.pos <= e && e <= |s.text| &&
    forall i :: r.pos <= i < e ==> IsSpace(s.text[i])
  }

  /** The text of the delimiter `delim` starts at `a`, with only whitespace before it from `s`'s position, and a word follows it. */
  predicate DelimiterAhead(s: IStream, a: nat, delim: string)
  {
    s.Good() && s.pos <= a && a + |delim| < |s.text| &&
    (forall i :: s.pos <= i < a ==> IsSpace(s.text[i])) &&
    s.text[a..a + |delim|] == delim && !IsSpace(s.text[a + |delim|])
  }

  /**
   * Matching the stripped delimiter against the text of the delimiter at
   * position `a`, with only whitespace before it, leaves a good stream at a
   * position from which only whitespace remains up to the end of the
   * delimiter's text.
   */
  lemma {:induction false} MatchStripped(s: IStream, a: nat, delim: string)
    requires DelimiterAhead(s, a, delim)
    ensures StopsInSpaces(s, delim, a + |delim|)
    decreases |delim|
  {
    if delim != [] {
      var rest := delim[1..];
      DelimiterTail(s.text, a, delim);
      if IsSpace(delim[0]) {
        SpaceAhead(s, a, delim);
        MatchStripped(s, a + 1, rest);
        StripSpace(s, delim, a + |delim|);
      } else {
        var s1 := MatchCharacter(s, a, StripSpaces(rest));
        CharacterAhead(s, s1, a, delim);
        MatchStripped(s1, a + 1, rest);
        StripCharacter(s, s1, a, delim, a + |delim|);
      }
    }
  }

  /** The text of a delimiter at `a` holds its first character at `a` and the rest of it right after. */
  lemma DelimiterTail(t: string, a: nat, delim: string)
    requires delim != [] && a + |delim| <= |t| && t[a..a + |delim|] == delim
    ensures t[a] == delim[0] && t[a + 1..a + |delim|] == delim[1..]
  {
    assert t[a..a + |delim|][0] == t[a];
    assert t[a + 1..a + |delim|] == t[a..a + |delim|][1..];
  }

  /** A leading space of the delimiter joins the whitespace before it. */
  lemma SpaceAhead(s: IStream, a: nat, delim: string)
    requires DelimiterAhead(s, a, delim) && delim != [] && IsSpace(delim[0])
    requires s.text[a] == delim[0] && s.text[a + 1..a + |delim|] == delim[1..]
    ensures DelimiterAhead(s, a + 1, delim[1..])
  {
  }

  /** After its first character is consumed, the rest of the delimiter lies ahead. */
  lemma CharacterAhead(s: IStream, s1: IStream, a: nat, delim: string)
    requires DelimiterAhead(s, a, delim) && delim != []
    requires s1 == IStream(s.text, a + 1, false, false)
    requires s.text[a + 1..a + |delim|] == delim[1..]
    ensures DelimiterAhead(s1, a + 1, delim[1..])
  {
  }

  /** A leading space is stripped, so matching goes on as for the rest of the delimiter. */
  lemma StripSpace(s: IStream, delim: string, e: nat)
    requires delim != [] && IsSpace(delim[0]) && StopsInSpaces(s, delim[1..], e)
    ensures StopsInSpaces(s, delim, e)
  {
    assert StripSpaces(delim) == StripSpaces(delim[1..]);
  }

  /** A leading non-space character is kept, and matching it moves on to the rest of the delimiter. */
  lemma StripCharacter(s: IStream, s1: IStream, a: nat, delim: string, e: nat)
    requires delim != [] && !IsSpace(delim[0]) && a < |s.text| && s.text[a] == delim[0]
    requires s1.text == s.text && StopsInSpaces(s1, delim[1..], e)
    requires MatchDelimiter(s, [s.text[a]] + StripSpaces(delim[1..])) == MatchDelimiter(s1, StripSpaces(delim[1..]))
    ensures StopsInSpaces(s, delim, e)
  {
    assert StripSpaces(delim) == [delim[0]] + StripSpaces(delim[1..]);
  }

  /** Matching a non-space delimiter character that follows whitespace consumes it and keeps the stream good. */
  lemma MatchCharacter(s: IStream, a: nat, rest: string) returns (s1: IStream)
    requires s.Good() && s.pos <= a < |s.text| && !IsSpace(s.text[a])
    requires forall i :: s.pos <= i < a ==> IsSpace(s.text[i])
    ensures s1 == IStream(s.text, a + 1, false, false)
    ensures MatchDelimiter(s, [s.text[a]] + rest) == MatchDelimiter(s1, rest)
  {
    SkipToWord(s.text, s.pos, a);
    s1 := ExtractChar(s).0;
    assert ([s.text[a]] + rest)[1..] == rest;
  }

  /** A delimiter a reader can find between two written integers: non-empty and not starting with a digit. */
  predicate Separates(delim: string)
  {
    |delim| > 0 && !IsDigit(delim[0])
  }

  /** `p` is a prefix of `w`. */
  predicate PrefixOf(p: string, w: string)
  {
    |p| <= |w| && w[..|p|] == p
  }

  lemma PrefixTrans(a: string, b: string, c: string)
    requires PrefixOf(a, b) && PrefixOf(b, c)
    ensures PrefixOf(a, c)
  {
    assert c[..|a|] == c[..|b|][..|a|];
  }

  /** A prefix made of three parts puts each part at its place in `w`. */
  lemma PrefixParts(a: string, b: string, c: string, w: string)
    requires PrefixOf(a + b + c, w)
    ensures PrefixOf(a, w) && PrefixOf(a + b + c, w)
    ensures w[|a|..|a| + |b|] == b && w[|a| + |b|..|a| + |b| + |c|] == c
  {
    var q := a + b + c;
    assert w[..|a|] == q[..|a|] == a;
    assert w[|a|..|a| + |b|] == q[|a|..|a| + |b|] == b;
    assert w[|a| + |b|..|a| + |b| + |c|] == q[|a| + |b|..|q|] == c;
  }

  /** Writing one more element appends the delimiter and that element. */
  lemma PutStep(ints: seq<int>, delim: string, n: nat)
    requires 1 <= n < |ints|
    ensures Put(ints[..n + 1], ShowInt, delim) == Put(ints[..n], ShowInt, delim) + delim + ShowInt(ints[n])
  {
    assert ints[..n + 1][..n] == ints[..n];
  }

  /** What the first `n` elements write is a prefix of what the whole tuple writes. */
  lemma {:induction false} PutPrefixOf(ints: seq<int>, delim: string, n: nat)
    requires 1 <= n <= |ints|
    ensures PrefixOf(Put(ints[..n], ShowInt, delim), Put(ints, ShowInt, delim))
    decreases |ints| - n
  {
    if n == |ints| {
      assert ints[..n] == ints;
    } else {
      var p := Put(ints[..n], ShowInt, delim);
      PutStep(ints, delim, n);
      assert (p + delim + ShowInt(ints[n]))[..|p|] == p;
      PutPrefixOf(ints, delim, n + 1);
      PrefixTrans(p, Put(ints[..n + 1], ShowInt, delim), Put(ints, ShowInt, delim));
    }
  }

  /** The first `n` written elements are a prefix of the written tuple, followed by the delimiter when more remain. */
  lemma PutPrefix(ints: seq<int>, delim: string, n: nat)
    requires 1 <= n <= |ints|
    ensures var w := Put(ints, ShowInt, delim); var p := Put(ints[..n], ShowInt, delim);
      |p| <= |w| && w[..|p|] == p &&
      (n < |ints| ==> |p| + |delim| + |ShowInt(ints[n])| <= |w| &&
                      w[|p|..|p| + |delim|] == delim &&
                      w[|p| + |delim|..|p| + |delim| + |ShowInt(ints[n])|] == ShowInt(ints[n]) &&
                      Put(ints[..n + 1], ShowInt, delim) == p + delim + ShowInt(ints[n]))
  {
    PutPrefixOf(ints, delim, n);
    if n < |ints| {
      PutStep(ints, delim, n);
      PutPrefixOf(ints, delim, n + 1);
      PrefixParts(Put(ints[..n], ShowInt, delim), delim, ShowInt(ints[n]), Put(ints, ShowInt, delim));
    }
  }

  /** After the delimiter of element `n` the written text goes on with a non-space, so the delimiter is followed by a word. */
  lemma WrittenFollows(w: string, p: string, delim: string, x: int)
    requires |p| + |delim| + |ShowInt(x)| <= |w|
    requires w[|p| + |delim|..|p| + |delim| + |ShowInt(x)|] == ShowInt(x)
    ensures !IsSpace(w[|p| + |delim|])
  {
    assert w[|p| + |delim|] == ShowInt(x)[0];
  }

  /** The text holds `delim` at `p` and the written `x` after it, followed by the end or a non-digit. */
  predicate DelimitedAt(w: string, p: nat, delim: string, x: int)
  {
    var e := p + |delim| + |ShowInt(x)|;
    e <= |w| && w[p..p + |delim|] == delim && w[p + |delim|..e] == ShowInt(x) &&
    (e < |w| ==> !IsDigit(w[e]))
  }

  /** One step of reading: the stripped delimiter and then the written integer are consumed. */
  lemma ReadNext(w: string, p: nat, delim: string, x: int) returns (e: nat)
    requires DelimitedAt(w, p, delim, x)
    ensures e == p + |delim| + |ShowInt(x)|
    ensures ExtractInt(MatchDelimiter(IStream(w, p, false, false), StripSpaces(delim))) == (IStream(w, e, false, e == |w|), Some(x))
  {
    var a := p + |delim|;
    var s1 := IStream(w, p, false, false);
    assert w[a] == w[a..a + |ShowInt(x)|][0] == ShowInt(x)[0];
    assert DelimiterAhead(s1, p, delim);
    MatchStripped(s1, p, delim);
    var s2 := MatchDelimiter(s1, StripSpaces(delim));
    e := a + |ShowInt(x)|;
    ExtractShownAt(s2, w, a, x, e);
  }

  /** `ExtractShownInt` for a stream over `w`, with the end of the written integer named `e`. */
  lemma ExtractShownAt(s: IStream, w: string, a: nat, x: int, e: nat)
    requires s.Good() && s.text == w && s.pos <= a && e == a + |ShowInt(x)| && e <= |w|
    requires forall i :: s.pos <= i < a ==> IsSpace(w[i])
    requires w[a..e] == ShowInt(x) && (e < |w| ==> !IsDigit(w[e]))
    ensures ExtractInt(s) == (IStream(w, e, false, e == |w|), Some(x))
  {
    ExtractShownInt(s, a, x);
  }

  /** The first step of reading: the first written integer is consumed. */
  lemma ReadFirst(w: string, x: int)
    requires |ShowInt(x)| <= |w| && w[..|ShowInt(x)|] == ShowInt(x)
    requires |ShowInt(x)| < |w| ==> !IsDigit(w[|ShowInt(x)|])
    ensures ExtractInt(Open(w)) == (IStream(w, |ShowInt(x)|, false, |ShowInt(x)| == |w|), Some(x))
  {
    assert w[0..|ShowInt(x)|] == w[..|ShowInt(x)|];
    ExtractShownInt(Open(w), 0, x);
  }

  /** The written text of the first `n-1` elements, and where element `n-1`'s delimiter begins. */
  lemma WrittenLayout(ints: seq<int>, delim: string, n: nat)
    requires Separates(delim) && 2 <= n <= |ints|
    ensures var w := Put(ints, ShowInt, delim); var p := |Put(ints[..n - 1], ShowInt, delim)|;
      DelimitedAt(w, p, delim, ints[n - 1]) &&
      |Put(ints[..n], ShowInt, delim)| == p + |delim| + |ShowInt(ints[n - 1])|
  {
    var w := Put(ints, ShowInt, delim);
    var upTo := Put(ints[..n], ShowInt, delim);
    PutStep(ints, delim, n - 1);
    PutPrefixOf(ints, delim, n);
    if n < |ints| {
      PutStep(ints, delim, n);
      PutPrefixOf(ints, delim, n + 1);
      NextStarts(w, upTo, delim, ShowInt(ints[n]));
    } else {
      assert ints[..n] == ints;
    }
    DelimitedParts(w, Put(ints[..n - 1], ShowInt, delim), delim, ints[n - 1]);
  }

  /** Text written after `upTo` that begins with the delimiter puts the delimiter's first character right after `upTo`. */
  lemma NextStarts(w: string, upTo: string, delim: string, next: string)
    requires delim != [] && PrefixOf(upTo + delim + next, w)
    ensures |upTo| < |w| && w[|upTo|] == delim[0]
  {
    PrefixParts(upTo, delim, next, w);
    assert w[|upTo|] == w[|upTo|..|upTo| + |delim|][0];
  }

  /** A written prefix ending in the delimiter and `x`, followed by the end or the delimiter again, holds `x` delimited. */
  lemma DelimitedParts(w: string, before: string, delim: string, x: int)
    requires Separates(delim) && PrefixOf(before + delim + ShowInt(x), w)
    requires |before + delim + ShowInt(x)| < |w| ==> w[|before + delim + ShowInt(x)|] == delim[0]
    ensures DelimitedAt(w, |before|, delim, x)
  {
    PrefixParts(before, delim, ShowInt(x), w);
  }

  /** The first written element, followed by the end or the delimiter. */
  lemma FirstLayout(ints: seq<int>, delim: string)
    requires Separates(delim) && 1 <= |ints|
    ensures var w := Put(ints, ShowInt, delim); var x := ints[0];
      |Put(ints[..1], ShowInt, delim)| == |ShowInt(x)| &&
      |ShowInt(x)| <= |w| && w[..|ShowInt(x)|] == ShowInt(x) &&
      (|ShowInt(x)| < |w| ==> !IsDigit(w[|ShowInt(x)|]))
  {
    var w := Put(ints, ShowInt, delim);
    PutPrefix(ints, delim, 1);
    assert Put(ints[..1], ShowInt, delim) == ShowInt(ints[0]);
    if 1 < |ints| {
      assert w[|ShowInt(ints[0])|] == delim[0];
    }
  }

  /**
   * After reading the first `n` elements of the written tuple with the
   * stripped delimiter, the stream is good up to `p`, the end of the `n`-th
   * written element, and exactly those elements are stored.
   */
  predicate ReadUpTo(ints: seq<int>, delim: string, t: seq<int>, n: nat, p: nat)
  {
    |t| == |ints| && 1 <= n <= |ints| &&
    var w := Put(ints, ShowInt, delim);
    p == |Put(ints[..n], ShowInt, delim)| &&
    Get(n, Open(w), t, StripSpaces(delim)) == (IStream(w, p, false, p == |w|), ints[..n] + t[n..])
  }

  /** Reading the first `n` elements of a written tuple: by induction on `n`. */
  lemma {:induction false} ReadWrittenPrefix(ints: seq<int>, delim: string, t: seq<int>, n: nat) returns (p: nat)
    requires Separates(delim) && |t| == |ints| && 1 <= n <= |ints|
    ensures ReadUpTo(ints, delim, t, n, p)
  {
    if n == 1 {
      p := ReadFirstPrefix(ints, delim, t);
    } else {
      var q := ReadWrittenPrefix(ints, delim, t, n - 1);
      p := ReadStepPrefix(ints, delim, t, n, q);
    }
  }

  /** The base case of `ReadWrittenPrefix`: element 0 alone. */
  lemma ReadFirstPrefix(ints: seq<int>, delim: string, t: seq<int>) returns (p: nat)
    requires Separates(delim) && |t| == |ints| && 1 <= |ints|
    ensures ReadUpTo(ints, delim, t, 1, p)
  {
    var w := Put(ints, ShowInt, delim);
    FirstLayout(ints, delim);
    ReadFirst(w, ints[0]);
    p := |ShowInt(ints[0])|;
    ReadElementStores(Open(w), t, 0, IStream(w, p, false, p == |w|), ints[0]);
    assert t[0 := ints[0]] == ints[..1] + t[1..];
  }

  /** The inductive step of `ReadWrittenPrefix`: the delimiter and element `n-1`. */
  lemma ReadStepPrefix(ints: seq<int>, delim: string, t: seq<int>, n: nat, q: nat) returns (p: nat)
    requires Separates(delim) && 2 <= n <= |ints| && ReadUpTo(ints, delim, t, n - 1, q)
    ensures ReadUpTo(ints, delim, t, n, p)
  {
    var w := Put(ints, ShowInt, delim);
    WrittenLayout(ints, delim, n);
    p := ReadNext(w, q, delim, ints[n - 1]);
    assert q < |w|;
    assert Get(n - 1, Open(w), t, StripSpaces(delim)) == (IStream(w, q, false, false), ints[..n - 1] + t[n - 1..]);
    GetStep(n, w, t, StripSpaces(delim), q, ints[..n - 1] + t[n - 1..], IStream(w, p, false, p == |w|), ints[n - 1]);
    StoreNext(ints, t, n);
  }

  /** Storing element `n-1` into the partly read tuple extends the read prefix by one. */
  lemma StoreNext(ints: seq<int>, t: seq<int>, n: nat)
    requires 1 <= n <= |ints| == |t|
    ensures (ints[..n - 1] + t[n - 1..])[n - 1 := ints[n - 1]] == ints[..n] + t[n..]
  {
    assert ints[..n] == ints[..n - 1] + [ints[n - 1]];
    assert t[n - 1..] == [t[n - 1]] + t[n..];
  }

  /** One step of `Get` from a good stream at `q`, when the next extraction yields `x`. */
  lemma GetStep(n: nat, w: string, t: seq<int>, d: string, q: nat, before: seq<int>, s1: IStream, x: int)
    requires 2 <= n <= |t|
    requires Get(n - 1, Open(w), t, d) == (IStream(w, q, false, false), before)
    requires ExtractInt(MatchDelimiter(IStream(w, q, false, false), d)) == (s1, Some(x))
    ensures Get(n, Open(w), t, d) == (s1, before[n - 1 := x])
  {
    ReadElementStores(MatchDelimiter(IStream(w, q, false, false), d), before, n - 1, s1, x);
  }

  /** An element whose extraction yields a value stores exactly that value. */
  lemma ReadElementStores(s: IStream, t: seq<int>, i: nat, s1: IStream, x: int)
    requires i < |t| && ExtractInt(s) == (s1, Some(x))
    ensures ReadElement(s, t, i) == (s1, t[i := x])
  {
  }

  /**
   * Round trip: reading a written tuple back with the delimiter stripped of
   * whitespace restores every element and leaves the stream without failbit.
   */
  lemma ReadWritten(ints: seq<int>, delim: string, t: seq<int>)
    requires Separates(delim) && |t| == |ints| && |ints| >= 1
    ensures var r := Get(|ints|, Open(Put(ints, ShowInt, delim)), t, StripSpaces(delim));
      r.1 == ints && !r.0.fail
  {
    var p := ReadWrittenPrefix(ints, delim, t, |ints|);
    assert ints[..|ints|] + t[|ints|..] == ints;
  }

  /** Without whitespace in the delimiter, `read_tuple` as written reads back what `write_tuple` wrote. */
  lemma ReadWrittenWithoutSpaces(ints: seq<int>, delim: string, t: seq<int>)
    requires Separates(delim) && |t| == |ints| && |ints| >= 1
    requires forall i :: 0 <= i < |delim| ==> !IsSpace(delim[i])
    ensures var r := Get(|ints|, Open(Put(ints, ShowInt, delim)), t, delim);
      r.1 == ints && !r.0.fail
  {
    ReadWritten(ints, delim, t);
  }

  /** Once failbit is set, reading further elements keeps it set. */
  lemma {:induction false} GetKeepsFailure(n: nat, s: IStream, t: seq<int>, delim: string)
    requires 2 <= n <= |t| && Get(2, s, t, delim).0.fail
    ensures Get(n, s, t, delim).0.fail
  {
    if n > 2 {
      GetKeepsFailure(n - 1, s, t, delim);
    }
  }

  /**
   * With the default delimiter ", ", `read_tuple` cannot read back a tuple of
   * two or more elements that `write_tuple` wrote: the space is never
   * matched, because `is >> c` skips it and yields the next element's first
   * character instead, and failbit is set.
   */
  lemma DefaultDelimiterFails(ints: seq<int>, t: seq<int>)
    requires |t| == |ints| && |ints| >= 2
    ensures Get(|ints|, Open(WriteTuple(ints)), t, ", ").0.fail
  {
    var w := Put(ints, ShowInt, ", ");
    var q := FirstDelimiterFails(ints, t);
    SecondFails(w, t, q, ", ");
    GetKeepsFailure(|ints|, Open(w), t, ", ");
  }

  /** After the first element is read, matching ", " against the written ", " fails. */
  lemma FirstDelimiterFails(ints: seq<int>, t: seq<int>) returns (q: nat)
    requires |t| == |ints| && |ints| >= 2
    ensures var w := Put(ints, ShowInt, ", ");
      Get(1, Open(w), t, ", ").0 == IStream(w, q, false, false) &&
      MatchDelimiter(IStream(w, q, false, false), ", ").fail
  {
    var w := Put(ints, ShowInt, ", ");
    q := ReadFirstPrefix(ints, ", ", t);
    var c := CommaAfterFirst(ints);
    CommaSpaceFails(w, q);
    GetOneIgnoresDelimiter(Open(w), t, StripSpaces(", "), ", ");
  }

  /** The written tuple holds ", " and then a word right after its first element. */
  lemma CommaAfterFirst(ints: seq<int>) returns (q: nat)
    requires |ints| >= 2
    ensures var w := Put(ints, ShowInt, ", ");
      q == |Put(ints[..1], ShowInt, ", ")| &&
      q + 2 < |w| && w[q] == ',' && w[q + 1] == ' ' && !IsSpace(w[q + 2])
  {
    PutPrefix(ints, ", ", 1);
    q := |Put(ints[..1], ShowInt, ", ")|;
    CommaAhead(Put(ints, ShowInt, ", "), q, ShowInt(ints[1]));
  }

  /** The text ", " followed by a written integer at `q`. */
  lemma CommaAhead(w: string, q: nat, shown: string)
    requires q + 2 + |shown| <= |w| && w[q..q + 2] == ", " && w[q + 2..q + 2 + |shown|] == shown
    requires shown != [] && !IsSpace(shown[0])
    ensures q + 2 < |w| && w[q] == ',' && w[q + 1] == ' ' && !IsSpace(w[q + 2])
  {
    assert w[q] == w[q..q + 2][0] && w[q + 1] == w[q..q + 2][1];
    assert w[q + 2] == w[q + 2..q + 2 + |shown|][0];
  }

  /** When the delimiter fails right after the first element, reading two elements fails. */
  lemma SecondFails(w: string, t: seq<int>, q: nat, d: string)
    requires 2 <= |t| && Get(1, Open(w), t, d).0 == IStream(w, q, false, false)
    requires MatchDelimiter(IStream(w, q, false, false), d).fail
    ensures Get(2, Open(w), t, d).0.fail
  {
  }

  /** Reading a single element never touches the delimiter. */
  lemma GetOneIgnoresDelimiter(s: IStream, t: seq<int>, d1: string, d2: string)
    requires 1 <= |t|
    ensures Get(1, s, t, d1) == Get(1, s, t, d2)
  {
  }

  /**
   * Matching ", " right before a word: the comma is read, then `is >> c`
   * skips the space and reads the word's first character, which is not the
   * expected space, so failbit is set.
   */
  lemma CommaSpaceFails(w: string, a: nat)
    requires a + 2 < |w| && w[a] == ',' && w[a + 1] == ' ' && !IsSpace(w[a + 2])
    ensures MatchDelimiter(IStream(w, a, false, false), ", ").fail
  {
    var s1 := IStream(w, a, false, false);
    SkipToWord(w, a, a);
    var (s2, c1) := ExtractChar(s1);
    assert c1 == Some(',') && s2 == IStream(w, a + 1, false, false);
    SkipToWord(w, a + 1, a + 2);
    var (s3, c2) := ExtractChar(s2);
    assert c2 == Some(w[a + 2]);
    assert ", "[1..] == " ";
    assert MatchDelimiter(s2, " ") == MatchDelimiter(s3.(fail := true), "");
  }
}
