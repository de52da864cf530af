/** The few JavaScript string operations the program relies on:
    `String.prototype.trim`, and the decimal rendering of integers that
    template literals and `Number.prototype.toString` perform. */
module Text {

  /** The code points `trim` removes: ECMAScript's WhiteSpace (tab, vertical
      tab, form feed, space, no-break space, byte-order mark and every
      space separator) and LineTerminator (LF, CR, U+2028, U+2029). */
  predicate IsJsSpace(c: char) {
    || c == '\t' || c == '\n' || c == '\U{000B}' || c == '\U{000C}' || c == '\r'
    || c == ' ' || c == '\U{00A0}' || c == '\U{1680}'
    || ('\U{2000}' <= c <= '\U{200A}')
    || c == '\U{2028}' || c == '\U{2029}' || c == '\U{202F}' || c == '\U{205F}'
    || c == '\U{3000}' || c == '\U{FEFF}'
  }

  ghost predicate AllSpace(s: string) {
    forall i :: 0 <= i < |s| ==> IsJsSpace(s[i])
  }

  /** `s` neither starts nor ends with whitespace. */
  ghost predicate Trimmed(s: string) {
    s == [] || (!IsJsSpace(s[0]) && !IsJsSpace(s[|s| - 1]))
  }

  /** How many whitespace characters `s` starts with. */
  function LeadingSpace(s: string): (n: nat)
    ensures n <= |s|
    ensures n < |s| ==> !IsJsSpace(s[n])
    decreases |s|
  {
    if |s| > 0 && IsJsSpace(s[0]) then 1 + LeadingSpace(s[1..]) else 0
  }

  /** Drops leading whitespace: the suffix of `s` after its leading
      whitespace (that what was dropped is whitespace is
      `TrimStartDropsSpace`). */
  function TrimStart(s: string): (r: string)
    ensures r == [] || !IsJsSpace(r[0])
  {
    s[LeadingSpace(s)..]
  }

  /** Drops trailing whitespace: the result is a prefix of `s` that does not
      end with whitespace (what was dropped is `TrimEndDropsSpace`). */
  function TrimEnd(s: string): (r: string)
    ensures |r| <= |s| && r == s[..|r|]
    ensures r == [] || !IsJsSpace(r[|r| - 1])
    decreases |s|
  {
    if |s| > 0 && IsJsSpace(s[|s| - 1]) then TrimEnd(s[..|s| - 1]) else s
  }

  /** Only whitespace is dropped from the front. */
  lemma {:induction false} TrimStartDropsSpace(s: string)
    ensures AllSpace(s[..LeadingSpace(s)])
    decreases |s|
  {
    if |s| > 0 && IsJsSpace(s[0]) {
      TrimStartDropsSpace(s[1..]);
      var d := s[..LeadingSpace(s)];
      forall i | 0 <= i < |d| ensures IsJsSpace(d[i]) {
        if i > 0 { assert d[i] == s[1..][..LeadingSpace(s[1..])][i - 1]; }
      }
    }
  }

  /** Only whitespace is dropped from the back. */
  lemma {:induction false} TrimEndDropsSpace(s: string)
    ensures AllSpace(s[|TrimEnd(s)|..])
    decreases |s|
  {
    if |s| > 0 && IsJsSpace(s[|s| - 1]) {
      var p := s[..|s| - 1];
      TrimEndDropsSpace(p);
      var d := s[|TrimEnd(s)|..];
      forall i | 0 <= i < |d| ensures IsJsSpace(d[i]) {
        if i < |d| - 1 { assert d[i] == p[|TrimEnd(p)|..][i]; }
      }
    }
  }

  /** `s.trim()`: whitespace removed from both ends. What the result is in
      terms of `s` is `TrimIsInfix`. */
  function Trim(s: string): (r: string)
    ensures |r| <= |s| && Trimmed(r)
  {
    var a := TrimStart(s);
    var r := TrimEnd(a);
    assert r != [] ==> r[0] == a[0];
    r
  }

  /** The trim of `s` is the infix left after cutting an all-whitespace
      prefix and an all-whitespace suffix. */
  lemma TrimIsInfix(s: string)
    ensures exists i, j :: 0 <= i <= j <= |s| && Trim(s) == s[i..j] && AllSpace(s[..i]) && AllSpace(s[j..])
  {
    var a := TrimStart(s);
    var r := TrimEnd(a);
    var i := LeadingSpace(s);
    TrimStartDropsSpace(s);
    TrimEndDropsSpace(a);
    assert r == s[i..i + |r|];
    assert s[i + |r|..] == a[|r|..];
  }

  lemma {:induction false} TrimStartOfTrimmedStart(s: string)
    requires s == [] || !IsJsSpace(s[0])
    ensures TrimStart(s) == s
  {
  }

  lemma {:induction false} TrimEndOfTrimmedEnd(s: string)
    requires s == [] || !IsJsSpace(s[|s| - 1])
    ensures TrimEnd(s) == s
  {
  }

  /** A string without surrounding whitespace is its own trim. */
  lemma TrimOfTrimmed(s: string)
    requires Trimmed(s)
    ensures Trim(s) == s
  {
    TrimStartOfTrimmedStart(s);
    TrimEndOfTrimmedEnd(s);
  }

  /** Trimming twice is trimming once. */
  lemma TrimIdempotent(s: string)
    ensures Trim(Trim(s)) == Trim(s)
  {
    TrimOfTrimmed(Trim(s));
  }

  lemma {:induction false} TrimStartAllSpace(s: string)
    ensures TrimStart(s) == [] <==> AllSpace(s)
    decreases |s|
  {
    if |s| > 0 && IsJsSpace(s[0]) {
      TrimStartAllSpace(s[1..]);
      assert TrimStart(s) == TrimStart(s[1..]);
      assert AllSpace(s) <==> AllSpace(s[1..]) by {
        if AllSpace(s[1..]) {
          forall i | 0 <= i < |s| ensures IsJsSpace(s[i]) {
            if i > 0 { assert s[i] == s[1..][i - 1]; }
          }
        }
      }
    }
  }

  /** `s.trim()` is empty exactly when `s` is made only of whitespace; this
      is how `!name.trim()` rejects blank names. */
  lemma TrimEmptyIffAllSpace(s: string)
    ensures Trim(s) == [] <==> AllSpace(s)
  {
    TrimStartAllSpace(s);
    var a := TrimStart(s);
    if a != [] {
      TrimEndDropsSpace(a);
      assert TrimEnd(a) != [] by {
        assert a[0..] == a;
      }
      assert !AllSpace(s) by {
        assert s[LeadingSpace(s)] == a[0];
      }
    }
  }

  // Decimal rendering of numbers.

  function DigitChar(d: nat): (c: char)
    requires d < 10
    ensures '0' <= c <= '9'
  {
    "0123456789"[d]
  }

  lemma DigitCharInjective(d: nat, e: nat)
    requires d < 10 && e < 10
    requires DigitChar(d) == DigitChar(e)
    ensures d == e
  {
  }

  ghost predicate AllDigits(s: string) {
    forall i :: 0 <= i < |s| ==> '0' <= s[i] <= '9'
  }

  /** The decimal digits of `n`, most significant first, without leading
      zeros: what `String(n)` yields for a non-negative integer. */
  function NatToString(n: nat): (r: string)
    ensures |r| >= 1 && AllDigits(r)
    ensures n >= 10 <==> |r| >= 2
    ensures r[|r| - 1] == DigitChar(n % 10)
  {
    if n < 10 then [DigitChar(n)] else NatToString(n / 10) + [DigitChar(n % 10)]
  }

  /** Different numbers never render to the same text. */
  lemma {:induction false} NatToStringInjective(n: nat, m: nat)
    requires NatToString(n) == NatToString(m)
    ensures n == m
  {
    var s := NatToString(n);
    DigitCharInjective(n % 10, m % 10);
    if n >= 10 && m >= 10 {
      assert NatToString(n / 10) == s[..|s| - 1] == NatToString(m / 10);
      NatToStringInjective(n / 10, m / 10);
    }
  }

  /** `String(i)` for an integer: a minus sign before the magnitude when
      negative. */
  function IntToString(i: int): (r: string)
    ensures i >= 0 ==> AllDigits(r)
    ensures i < 0 ==> |r| >= 2 && r[0] == '-' && AllDigits(r[1..])
  {
    if i < 0 then "-" + NatToString(-i) else NatToString(i)
  }

  ghost predicate NoDash(s: string) {
    forall i :: 0 <= i < |s| ==> s[i] != '-'
  }

  lemma DigitsHaveNoDash(s: string)
    requires AllDigits(s)
    ensures NoDash(s)
  {
  }

  /** The index of the last `-` in `s`, or -1 when there is none. */
  function LastDash(s: string): (r: int)
    ensures -1 <= r < |s|
    ensures r >= 0 ==> s[r] == '-' && NoDash(s[r + 1..])
    ensures r == -1 ==> NoDash(s)
  {
    if |s| == 0 then -1
    else if s[|s| - 1] == '-' then |s| - 1
    else
      var r := LastDash(s[..|s| - 1]);
      assert r >= 0 ==> s[r + 1..] == s[..|s| - 1][r + 1..] + [s[|s| - 1]];
      r
  }

  lemma {:induction false} LastDashOfSuffix(a: string, x: string)
    requires NoDash(x)
    ensures LastDash(a + "-" + x) == |a|
    decreases |x|
  {
    if |x| > 0 {
      assert (a + "-" + x)[..|a + "-" + x| - 1] == a + "-" + x[..|x| - 1];
      LastDashOfSuffix(a, x[..|x| - 1]);
    }
  }

  /** A string built as `a-x`, where `x` has no dash, splits at its last
      dash uniquely: this is what keeps ids such as `fallback-L-T-i` apart. */
  lemma SplitAtLastDash(a: string, x: string, b: string, y: string)
    requires NoDash(x) && NoDash(y)
    requires a + "-" + x == b + "-" + y
    ensures a == b && x == y
  {
    var s := a + "-" + x;
    LastDashOfSuffix(a, x);
    LastDashOfSuffix(b, y);
    assert x == s[|a| + 1..] == y;
    assert a == s[..|a|] == b;
  }
}
