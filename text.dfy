/**
 * The string helpers the updater relies on from Go's standard library:
 * `strings.TrimSpace` (with `unicode.IsSpace`), `strings.HasSuffix` and
 * base-10 `strconv.ParseUint` for a 64-bit `uint`.
 */
module Text {
  import opened Wrappers

  /** Largest value of Go's 64-bit `uint`. */
  const MaxUint64: nat := 0xFFFF_FFFF_FFFF_FFFF

  type uint64 = x: nat | x <= MaxUint64

  // ---------------------------------------------------------------------
  // Whitespace and trimming
  // ---------------------------------------------------------------------

  /** `unicode.IsSpace`: the Latin-1 spaces plus the other White_Space code points. */
  predicate IsSpace(c: char) {
    c == '\t' || c == '\n' || c == '\U{B}' || c == '\U{C}' || c == '\r' || c == ' '
    || c == '\U{85}' || c == '\U{A0}' || c == '\U{1680}'
    || ('\U{2000}' <= c <= '\U{200A}')
    || c == '\U{2028}' || c == '\U{2029}' || c == '\U{202F}' || c == '\U{205F}' || c == '\U{3000}'
  }

  predicate AllSpace(s: string) {
    forall i | 0 <= i < |s| :: IsSpace(s[i])
  }

  /** No whitespace at either end (the empty string qualifies). */
  predicate Trimmed(s: string) {
    s == [] || (!IsSpace(s[0]) && !IsSpace(s[|s| - 1]))
  }

  /** Drops leading whitespace: the result is a suffix of `s`, what was dropped is all space. */
  function TrimLeft(s: string): (r: string)
    ensures |r| <= |s| && r == s[|s| - |r|..]
    ensures AllSpace(s[..|s| - |r|])
    ensures r == [] || !IsSpace(r[0])
  {
    if s != [] && IsSpace(s[0]) then TrimLeft(s[1..]) else s
  }

  /** Drops trailing whitespace: the result is a prefix of `s`, what was dropped is all space. */
  function TrimRight(s: string): (r: string)
    ensures |r| <= |s| && r == s[..|r|]
    ensures AllSpace(s[|r|..])
    ensures r == [] || !IsSpace(r[|r| - 1])
  {
    if s != [] && IsSpace(s[|s| - 1]) then TrimRight(s[..|s| - 1]) else s
  }

  /** `strings.TrimSpace`. */
  function TrimSpace(s: string): (r: string)
    ensures Trimmed(r)
    ensures exists i, j | 0 <= i <= j <= |s| :: r == s[i..j] && AllSpace(s[..i]) && AllSpace(s[j..])
  {
    var l := TrimLeft(s);
    var r := TrimRight(l);
    var i := |s| - |l|;
    assert r == s[i..i + |r|];
    assert s[i + |r|..] == l[|r|..];
    r
  }

  lemma {:induction false} TrimLeftSkips(pre: string, t: string)
    requires AllSpace(pre)
    requires t == [] || !IsSpace(t[0])
    ensures TrimLeft(pre + t) == t
  {
    if pre == [] {
      assert pre + t == t;
    } else {
      assert (pre + t)[1..] == pre[1..] + t;
      TrimLeftSkips(pre[1..], t);
    }
  }

  lemma {:induction false} TrimRightSkips(t: string, post: string)
    requires AllSpace(post)
    requires t == [] || !IsSpace(t[|t| - 1])
    ensures TrimRight(t + post) == t
  {
    if post == [] {
      assert t + post == t;
    } else {
      var n := |post| - 1;
      assert (t + post)[..|t + post| - 1] == t + post[..n];
      TrimRightSkips(t, post[..n]);
    }
  }

  /**
   * Reference characterisation of TrimSpace: surrounding `core` with whitespace
   * on both sides and trimming gives back exactly `core`, when `core` itself has
   * no whitespace at its ends.
   */
  lemma TrimSpaceOfPadded(pre: string, core: string, post: string)
    requires AllSpace(pre) && AllSpace(post) && Trimmed(core)
    ensures TrimSpace(pre + core + post) == core
  {
    if core == [] {
      assert pre + core + post == (pre + post) + [];
      TrimLeftSkips(pre + post, []);
    } else {
      assert pre + core + post == pre + (core + post);
      TrimLeftSkips(pre, core + post);
      TrimRightSkips(core, post);
    }
  }

  /** Trimming twice is trimming once. */
  lemma TrimSpaceIdempotent(s: string)
    ensures TrimSpace(TrimSpace(s)) == TrimSpace(s)
  {
    var t := TrimSpace(s);
    assert TrimLeft(t) == t;
    assert TrimRight(t) == t;
  }

  // ---------------------------------------------------------------------
  // Suffix test
  // ---------------------------------------------------------------------

  /** `strings.HasSuffix`. */
  predicate HasSuffix(s: string, suffix: string)
    ensures HasSuffix(s, suffix) ==> |suffix| <= |s| && s == s[..|s| - |suffix|] + suffix
  {
    |suffix| <= |s| && s[|s| - |suffix|..] == suffix
  }

  /** HasSuffix holds exactly when `s` is some string followed by `suffix`. */
  lemma HasSuffixIff(s: string, suffix: string)
    ensures HasSuffix(s, suffix) <==> exists p :: s == p + suffix
  {
    if HasSuffix(s, suffix) {
      var p := s[..|s| - |suffix|];
      assert s == p + suffix;
    }
    if exists p :: s == p + suffix {
      var p :| s == p + suffix;
      assert s[|s| - |suffix|..] == suffix;
    }
  }

  // ---------------------------------------------------------------------
  // Unsigned decimal numbers
  // ---------------------------------------------------------------------

  predicate IsDigit(c: char) {
    '0' <= c <= '9'
  }

  predicate AllDigits(s: string) {
    forall i | 0 <= i < |s| :: IsDigit(s[i])
  }

  function DigitValue(c: char): nat
    requires IsDigit(c)
  {
    c as int - '0' as int
  }

  function DigitChar(d: nat): (c: char)
    requires d < 10
    ensures IsDigit(c) && DigitValue(c) == d
  {
    ('0' as int + d) as char
  }

  /** The number a string of decimal digits denotes, most significant digit first. */
  function DigitsValue(s: string): nat
    requires AllDigits(s)
  {
    if s == [] then 0 else DigitsValue(s[..|s| - 1]) * 10 + DigitValue(s[|s| - 1])
  }

  /** The shortest decimal numeral of `n`. */
  function Decimal(n: nat): (s: string)
    ensures s != [] && AllDigits(s)
  {
    if n < 10 then [DigitChar(n)] else Decimal(n / 10) + [DigitChar(n % 10)]
  }

  /**
   * `strconv.ParseUint(s, 10, 0)` on a 64-bit platform: accepted only when the
   * string is non-empty, all decimal digits (no sign, no underscore) and the
   * value fits in 64 bits; otherwise a syntax or range error (`None`).
   */
  function ParseUint(s: string): (r: Option<uint64>)
    ensures r.Some? ==> s != [] && AllDigits(s) && r.value == DigitsValue(s)
    ensures r.None? ==> s == [] || !AllDigits(s) || DigitsValue(s) > MaxUint64
  {
    if s != [] && AllDigits(s) && DigitsValue(s) <= MaxUint64 then Some(DigitsValue(s)) else None
  }

  lemma {:induction false} DecimalValue(n: nat)
    ensures DigitsValue(Decimal(n)) == n
  {
    if n >= 10 {
      var s := Decimal(n);
      assert s[..|s| - 1] == Decimal(n / 10);
      DecimalValue(n / 10);
    }
  }

  /** Round trip: parsing the numeral of `n` gives `n` back exactly when `n` fits in 64 bits. */
  lemma ParseDecimal(n: nat)
    ensures ParseUint(Decimal(n)) == (if n <= MaxUint64 then Some(n) else None)
  {
    DecimalValue(n);
  }

  /** Leading zeros are accepted and do not change the value. */
  lemma {:induction false} LeadingZeroIgnored(s: string)
    requires s != []
    ensures ParseUint(['0'] + s) == ParseUint(s)
  {
    if AllDigits(s) {
      ZeroPrefixValue(s);
    } else {
      var i :| 0 <= i < |s| && !IsDigit(s[i]);
      assert (['0'] + s)[i + 1] == s[i];
    }
  }

  lemma {:induction false} ZeroPrefixValue(s: string)
    requires AllDigits(s)
    ensures AllDigits(['0'] + s) && DigitsValue(['0'] + s) == DigitsValue(s)
  {
    var z := ['0'] + s;
    assert AllDigits(z) by {
      forall i | 0 <= i < |z| ensures IsDigit(z[i]) {
        if i > 0 { assert z[i] == s[i - 1]; }
      }
    }
    if s == [] {
      assert z == ['0'];
    } else {
      var n := |s| - 1;
      assert z[..|z| - 1] == ['0'] + s[..n];
      ZeroPrefixValue(s[..n]);
    }
  }
}
