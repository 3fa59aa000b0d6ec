/** The strings the capture session builds: JavaScript's `trim`, decimal
    rendering of counters, and the `<label>_<ordinal>.json` sample filename. */
module Naming {

  /** The characters String.prototype.trim strips: ECMAScript WhiteSpace
      (tab, vertical tab, form feed, space, no-break space, byte-order mark and
      the Unicode space separators) and LineTerminator (LF, CR, LS, PS). */
  predicate IsWhitespace(c: char)
  {
    var n := c as int;
    || (0x09 <= n <= 0x0D) || n == 0x20 || n == 0xA0 || n == 0x1680
    || (0x2000 <= n <= 0x200A) || n == 0x2028 || n == 0x2029 || n == 0x202F
    || n == 0x205F || n == 0x3000 || n == 0xFEFF
  }

  predicate AllWhitespace(s: string)
  {
    forall i :: 0 <= i < |s| ==> IsWhitespace(s[i])
  }

  /** `s` with its leading whitespace removed. */
  function TrimStart(s: string): (r: string)
    ensures |r| <= |s|
    ensures r == [] || !IsWhitespace(r[0])
  {
    if s != [] && IsWhitespace(s[0]) then TrimStart(s[1..]) else s
  }

  /** What `TrimStart` drops is a run of whitespace, and what it keeps is the rest. */
  lemma {:induction false} TrimStartSplits(s: string)
    ensures TrimStart(s) == s[|s| - |TrimStart(s)|..]
    ensures AllWhitespace(s[..|s| - |TrimStart(s)|])
  {
    if s != [] && IsWhitespace(s[0]) {
      TrimStartSplits(s[1..]);
      var k := |s| - |TrimStart(s)|;
      assert s[1..][k - 1..] == s[k..];
      assert forall i :: 1 <= i < k ==> s[..k][i] == s[1..][..k - 1][i - 1];
    }
  }

  /** `s` with its trailing whitespace removed. */
  function TrimEnd(s: string): (r: string)
    ensures |r| <= |s|
    ensures r == [] || !IsWhitespace(r[|r| - 1])
  {
    if s != [] && IsWhitespace(s[|s| - 1]) then TrimEnd(s[..|s| - 1]) else s
  }

  /** What `TrimEnd` drops is a run of whitespace, and what it keeps is the rest. */
  lemma {:induction false} TrimEndSplits(s: string)
    ensures TrimEnd(s) == s[..|TrimEnd(s)|]
    ensures AllWhitespace(s[|TrimEnd(s)|..])
  {
    if s != [] && IsWhitespace(s[|s| - 1]) {
      var u := s[..|s| - 1];
      TrimEndSplits(u);
      var k := |TrimEnd(s)|;
      assert u[..k] == s[..k];
      assert forall i :: 0 <= i < |s| - 1 - k ==> s[k..][i] == u[k..][i];
    }
  }

  /** JavaScript's `s.trim()`: the middle of `s` between whitespace runs. */
  function Trim(s: string): (r: string)
    ensures |r| <= |s|
    ensures r == [] || (!IsWhitespace(r[0]) && !IsWhitespace(r[|r| - 1]))
    ensures r == [] <==> AllWhitespace(s)
  {
    var t := TrimStart(s);
    var r := TrimEnd(t);
    TrimStartSplits(s);
    TrimEndSplits(t);
    var i := |s| - |t|;
    assert r == [] <==> AllWhitespace(s) by {
      if r == [] {
        assert t == [];
        assert s[..i] == s;
      } else {
        assert r[0] == s[i];
      }
    }
    r
  }

  /** `Trim` keeps exactly a middle slice of `s` and drops whitespace on both sides. */
  lemma TrimMiddle(s: string)
    ensures exists i, j ::
      (0 <= i <= j <= |s| && Trim(s) == s[i..j] && AllWhitespace(s[..i]) && AllWhitespace(s[j..]))
  {
    var t := TrimStart(s);
    var r := TrimEnd(t);
    TrimStartSplits(s);
    TrimEndSplits(t);
    var i := |s| - |t|;
    assert r == s[i..i + |r|];
    assert s[i + |r|..] == t[|r|..];
  }

  /** A label that is already trimmed is left as it is. */
  lemma TrimIdempotent(s: string)
    ensures Trim(Trim(s)) == Trim(s)
  {
    var r := Trim(s);
    if r != [] {
      assert !IsWhitespace(r[0]);
      assert TrimStart(r) == r;
      assert TrimEnd(r) == r;
    }
  }

  predicate IsDigit(c: char)
  {
    '0' <= c <= '9'
  }

  function DigitChar(d: nat): (c: char)
    requires d < 10
    ensures IsDigit(c)
  {
    "0123456789"[d]
  }

  function DigitValue(c: char): (d: nat)
    requires IsDigit(c)
    ensures d < 10
  {
    c as int - '0' as int
  }

  /** Decimal rendering of a natural number, as JavaScript prints an integral
      number in a template literal: no sign, no leading zeros. */
  function NatToString(n: nat): (s: string)
    ensures |s| >= 1
    ensures forall i :: 0 <= i < |s| ==> IsDigit(s[i])
    ensures s[0] == '0' ==> n == 0
  {
    if n < 10 then [DigitChar(n)] else NatToString(n / 10) + [DigitChar(n % 10)]
  }

  /** Reads a digit string back as a number, most significant digit first. */
  function ParseDecimal(s: string): nat
    requires forall i :: 0 <= i < |s| ==> IsDigit(s[i])
  {
    if s == [] then 0 else 10 * ParseDecimal(s[..|s| - 1]) + DigitValue(s[|s| - 1])
  }

  /** Parsing the rendering gives the number back. */
  lemma {:induction false} ParseNatToString(n: nat)
    ensures ParseDecimal(NatToString(n)) == n
  {
    var s := NatToString(n);
    if n >= 10 {
      ParseNatToString(n / 10);
      assert s[..|s| - 1] == NatToString(n / 10);
    }
  }

  /** Different numbers render differently. */
  lemma NatToStringInjective(m: nat, n: nat)
    requires NatToString(m) == NatToString(n)
    ensures m == n
  {
    ParseNatToString(m);
    ParseNatToString(n);
  }

  /** The filename a sample is stored under: `<label>_<ordinal>.json`. */
  function SampleFilename(gesture: string, ordinal: nat): string
  {
    gesture + "_" + NatToString(ordinal) + ".json"
  }

  /** Splitting at the last `_`: a separator with no `_` after it fixes both halves. */
  lemma {:induction false} SplitAtLastUnderscore(x: string, u: string, y: string, v: string)
    requires '_' !in u && '_' !in v
    requires x + "_" + u == y + "_" + v
    ensures x == y && u == v
  {
    var w := x + "_" + u;
    if |u| < |v| {
      CharAfterSeparator(y, v, |x| - |y| - 1);
      assert false;
    } else if |v| < |u| {
      CharAfterSeparator(x, u, |y| - |x| - 1);
      assert false;
    } else {
      assert x == w[..|x|] == y;
      assert u == w[|x| + 1..] == v;
    }
  }

  lemma CharAfterSeparator(y: string, v: string, k: nat)
    requires k < |v|
    ensures (y + "_" + v)[|y| + 1 + k] == v[k]
  {
  }

  /** A sample filename determines its label and its ordinal. */
  lemma SampleFilenameInjective(a: string, m: nat, b: string, n: nat)
    requires SampleFilename(a, m) == SampleFilename(b, n)
    ensures a == b && m == n
  {
    var fa := SampleFilename(a, m);
    var u := NatToString(m);
    var v := NatToString(n);
    assert a + "_" + u == fa[..|fa| - 5] == b + "_" + v;
    SplitAtLastUnderscore(a, u, b, v);
    NatToStringInjective(m, n);
  }

  /** Filenames with a different label or ordinal differ. */
  lemma SampleFilenameDistinct(a: string, m: nat, b: string, n: nat)
    requires a != b || m != n
    ensures SampleFilename(a, m) != SampleFilename(b, n)
  {
    if SampleFilename(a, m) == SampleFilename(b, n) {
      SampleFilenameInjective(a, m, b, n);
    }
  }

  /** The per-iteration status line, `Capturing <i> / <n>`. */
  function CapturingStatus(i: nat, n: nat): string
  {
    "Capturing " + NatToString(i) + " / " + NatToString(n)
  }

  /** How many digits a string starts with. */
  function LeadingDigits(t: string): (k: nat)
    ensures k <= |t|
  {
    if t == [] || !IsDigit(t[0]) then 0 else 1 + LeadingDigits(t[1..])
  }

  /** A run of digits followed by a non-digit is read back whole. */
  lemma {:induction false} LeadingDigitsOf(a: string, rest: string)
    requires forall i :: 0 <= i < |a| ==> IsDigit(a[i])
    requires rest != [] && !IsDigit(rest[0])
    ensures LeadingDigits(a + rest) == |a|
  {
    if a == [] {
      assert a + rest == rest;
    } else {
      assert (a + rest)[1..] == a[1..] + rest;
      LeadingDigitsOf(a[1..], rest);
    }
  }

  /** The status line determines both the iteration and the batch size: the
      iteration's digits end at the first space after `Capturing `. */
  lemma CapturingStatusInjective(i: nat, n: nat, i2: nat, n2: nat)
    requires CapturingStatus(i, n) == CapturingStatus(i2, n2)
    ensures i == i2 && n == n2
  {
    var a, a2 := NatToString(i), NatToString(i2);
    var r, r2 := " / " + NatToString(n), " / " + NatToString(n2);
    StatusAfterPrefix(i, n);
    StatusAfterPrefix(i2, n2);
    LeadingDigitsOf(a, r);
    LeadingDigitsOf(a2, r2);
    SameSplit(a, r, a2, r2);
    assert NatToString(n) == r[3..] == r2[3..] == NatToString(n2);
    NatToStringInjective(i, i2);
    NatToStringInjective(n, n2);
  }

  /** What follows `Capturing ` in the status line. */
  lemma StatusAfterPrefix(i: nat, n: nat)
    ensures CapturingStatus(i, n)[10..] == NatToString(i) + (" / " + NatToString(n))
  {
  }

  /** Two splits of one string at the same point have the same halves. */
  lemma SameSplit(x: string, y: string, x2: string, y2: string)
    requires x + y == x2 + y2 && |x| == |x2|
    ensures x == x2 && y == y2
  {
    assert x == (x + y)[..|x|] && x2 == (x2 + y2)[..|x|];
    assert y == (x + y)[|x|..] && y2 == (x2 + y2)[|x|..];
  }
}
