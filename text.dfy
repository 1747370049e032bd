/** String helpers shared by the two loggers: Ruby's line-anchored matching
    works segment by segment, Array#join, ASCII case folding and decimal
    digits for strftime's zero-padded fields. */
module Text {
  import opened Wrappers

  // ---------------------------------------------------------------------
  // Splitting at a separator character and joining back
  // ---------------------------------------------------------------------

  /** The pieces of `s` between occurrences of `c` (there is always one). */
  function Split(s: string, c: char): (parts: seq<string>)
    ensures |parts| >= 1
    ensures forall i :: 0 <= i < |parts| ==> c !in parts[i]
    decreases |s|
  {
    if s == [] then [""]
    else if s[0] == c then [""] + Split(s[1..], c)
    else
      var rest := Split(s[1..], c);
      [[s[0]] + rest[0]] + rest[1..]
  }

  /** Ruby's Array#join: the parts with `sep` between neighbours. */
  function JoinWith(parts: seq<string>, sep: string): string
  {
    if parts == [] then ""
    else if |parts| == 1 then parts[0]
    else parts[0] + sep + JoinWith(parts[1..], sep)
  }

  /** Joining three parts puts the separator twice. */
  lemma JoinThree(a: string, b: string, c: string, sep: string)
    ensures JoinWith([a, b, c], sep) == a + sep + (b + sep + c)
  {
    assert [a, b, c][1..] == [b, c];
    assert [b, c][1..] == [c];
    assert JoinWith([c], sep) == c;
    assert JoinWith([b, c], sep) == b + sep + c;
  }

  /** The lines of `s`: the segments Ruby's `^` and `$` anchor to. */
  function Lines(s: string): (ls: seq<string>)
    ensures |ls| >= 1
    ensures forall i :: 0 <= i < |ls| ==> '\n' !in ls[i]
  {
    Split(s, '\n')
  }

  /** Splitting a word free of `c` in front of `s` extends the first piece. */
  lemma {:induction false} SplitPrefix(w: string, s: string, c: char)
    requires c !in w
    ensures Split(w + s, c) == [w + Split(s, c)[0]] + Split(s, c)[1..]
    decreases |w|
  {
    if w != [] {
      SplitPrefix(w[1..], s, c);
      assert (w + s)[0] == w[0];
      assert (w + s)[1..] == w[1..] + s;
      assert [w[0]] + (w[1..] + Split(s, c)[0]) == w + Split(s, c)[0];
    } else {
      assert w + s == s;
      var parts := Split(s, c);
      assert parts == [parts[0]] + parts[1..];
      assert w + parts[0] == parts[0];
    }
  }

  /** Splitting the join of `c`-free pieces gives the pieces back. */
  lemma {:induction false} SplitOfJoin(parts: seq<string>, c: char)
    requires |parts| >= 1
    requires forall i :: 0 <= i < |parts| ==> c !in parts[i]
    ensures Split(JoinWith(parts, [c]), c) == parts
    decreases |parts|
  {
    if |parts| == 1 {
      SplitPrefix(parts[0], "", c);
      assert parts[0] + "" == parts[0];
    } else {
      var tail := JoinWith(parts[1..], [c]);
      SplitOfJoin(parts[1..], c);
      assert JoinWith(parts, [c]) == parts[0] + ([c] + tail);
      SplitPrefix(parts[0], [c] + tail, c);
      assert ([c] + tail)[1..] == tail;
      assert Split([c] + tail, c) == [""] + parts[1..];
      assert parts[0] + "" == parts[0];
      assert parts == [parts[0]] + parts[1..];
    }
  }

  /** A line as `gets` returns it — a body without a line feed, with or
      without the terminating "\n" — has the body as its first line. */
  lemma GetsLineFirstSegment(body: string)
    requires '\n' !in body
    ensures Lines(body) == [body]
    ensures Lines(body + "\n") == [body, ""]
  {
    SplitOfJoin([body], '\n');
    SplitOfJoin([body, ""], '\n');
    assert JoinWith([body, ""], "\n") == body + "\n" + "";
    assert body + "\n" + "" == body + "\n";
  }

  // ---------------------------------------------------------------------
  // Searching for the last occurrence of a separator
  // ---------------------------------------------------------------------

  /** `sep` occurs in `s` starting at index `k`. */
  predicate SepAt(s: string, sep: string, k: int)
  {
    0 <= k && k + |sep| <= |s| && forall m :: 0 <= m < |sep| ==> s[k + m] == sep[m]
  }

  /** The largest index in `lo..hi` at which `sep` occurs in `s`: the
      choice a greedy `.*` in front of `sep` ends up making. */
  function LastSep(s: string, sep: string, lo: nat, hi: int): (r: Option<nat>)
    ensures r.Some? ==> lo <= r.value <= hi && SepAt(s, sep, r.value)
    decreases hi - lo
  {
    if hi < lo then None
    else if SepAt(s, sep, hi) then Some(hi)
    else LastSep(s, sep, lo, hi - 1)
  }

  /** No occurrence in range lies beyond the one `LastSep` returns. */
  lemma {:induction false} LastSepMaximal(s: string, sep: string, lo: nat, hi: int, k: int)
    requires lo <= k <= hi && SepAt(s, sep, k)
    ensures LastSep(s, sep, lo, hi).Some? && k <= LastSep(s, sep, lo, hi).value
    decreases hi - lo
  {
    if !SepAt(s, sep, hi) {
      LastSepMaximal(s, sep, lo, hi - 1, k);
    }
  }

  /** `sep` occurs in `p + sep + q` right after `p`. */
  lemma SepAtJoin(p: string, sep: string, q: string)
    ensures SepAt(p + sep + q, sep, |p|)
  {
    assert (p + sep + q)[|p|..|p| + |sep|] == sep;
  }

  // ---------------------------------------------------------------------
  // ASCII case folding (what Onigmo's /i does on the socket's bytes)
  // ---------------------------------------------------------------------

  function LowerAscii(c: char): char
  {
    if 'A' <= c <= 'Z' then (c as int - 'A' as int + 'a' as int) as char else c
  }

  // ---------------------------------------------------------------------
  // Decimal digits, for strftime's zero-padded fields
  // ---------------------------------------------------------------------

  predicate IsDigit(c: char) { '0' <= c <= '9' }

  predicate AllDigits(s: string) { forall i :: 0 <= i < |s| ==> IsDigit(s[i]) }

  function DigitChar(d: nat): (c: char)
    requires d < 10
    ensures IsDigit(c)
  {
    ('0' as int + d) as char
  }

  function DigitValue(c: char): nat
    requires IsDigit(c)
  {
    c as int - '0' as int
  }

  /** The shortest decimal spelling of `n`. */
  function Decimal(n: nat): (s: string)
    ensures 1 <= |s| && AllDigits(s)
  {
    if n < 10 then [DigitChar(n)] else Decimal(n / 10) + [DigitChar(n % 10)]
  }

  function Zeros(k: nat): (s: string)
    ensures |s| == k && AllDigits(s)
  {
    if k == 0 then "" else "0" + Zeros(k - 1)
  }

  /** strftime's `%0<width>d`: `n` in decimal, zero-padded to `width`. */
  function Pad(n: nat, width: nat): (s: string)
    ensures AllDigits(s) && |s| >= width
  {
    var d := Decimal(n);
    if |d| < width then Zeros(width - |d|) + d else d
  }

  /** The number a digit string spells. */
  function ValueOf(s: string): nat
    requires AllDigits(s)
  {
    if s == [] then 0 else ValueOf(s[..|s| - 1]) * 10 + DigitValue(s[|s| - 1])
  }

  lemma {:induction false} ValueOfDecimal(n: nat)
    ensures ValueOf(Decimal(n)) == n
  {
    if n >= 10 {
      ValueOfDecimal(n / 10);
      var s := Decimal(n);
      assert s[..|s| - 1] == Decimal(n / 10);
    }
  }

  lemma {:induction false} ValueOfZeros(k: nat, s: string)
    requires AllDigits(s)
    ensures ValueOf(Zeros(k) + s) == ValueOf(s)
    decreases |s|, k
  {
    var z := Zeros(k) + s;
    if s == [] {
      assert z == Zeros(k);
      if k > 0 {
        assert z[..|z| - 1] == Zeros(k - 1) by {
          assert Zeros(k) == Zeros(k - 1) + "0" by { ZerosSnoc(k); }
        }
        ValueOfZeros(k - 1, "");
        assert Zeros(k - 1) + "" == Zeros(k - 1);
      }
    } else {
      var s' := s[..|s| - 1];
      assert z[..|z| - 1] == Zeros(k) + s';
      ValueOfZeros(k, s');
    }
  }

  lemma {:induction false} ZerosSnoc(k: nat)
    requires k > 0
    ensures Zeros(k) == Zeros(k - 1) + "0"
    decreases k
  {
    if k > 1 {
      ZerosSnoc(k - 1);
    }
  }

  /** A zero-padded field reads back as the number it was made from. */
  lemma PadValue(n: nat, width: nat)
    ensures ValueOf(Pad(n, width)) == n
  {
    ValueOfDecimal(n);
    var d := Decimal(n);
    if |d| < width {
      assert Pad(n, width) == Zeros(width - |d|) + d;
      ValueOfZeros(width - |d|, d);
    } else {
      assert Pad(n, width) == d;
    }
  }

  /** Numbers below one hundred take exactly two characters in `%02d`. */
  lemma PadTwoLength(n: nat)
    requires n < 100
    ensures |Pad(n, 2)| == 2
  {
    if n >= 10 {
      assert |Decimal(n / 10)| == 1;
    }
  }
}
