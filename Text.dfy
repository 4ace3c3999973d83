/**
 * The few JVM string operations the core relies on: decimal printing of
 * integers (`Int.toString`, `Long.toString`), `Boolean.toString`, `trim`,
 * `startsWith`, splitting at the first ':' and `contains(..., ignoreCase = true)`.
 */
module Text {
  import opened Wrappers

  predicate IsDigit(c: char) {
    '0' <= c <= '9'
  }

  predicate AllDigits(s: string) {
    forall i :: 0 <= i < |s| ==> IsDigit(s[i])
  }

  function DigitChar(d: nat): (c: char)
    requires d < 10
    ensures IsDigit(c) && c as int - '0' as int == d
  {
    ('0' as int + d) as char
  }

  /** Decimal digits of a natural number, most significant first, no leading zeros. */
  function NatToDecimal(n: nat): (s: string)
    ensures |s| >= 1 && AllDigits(s)
    ensures |s| > 1 ==> s[0] != '0'
    ensures n > 0 ==> s[0] != '0'
    decreases n
  {
    if n < 10 then [DigitChar(n)] else NatToDecimal(n / 10) + [DigitChar(n % 10)]
  }

  /** Digits only, and no leading zero unless the number is zero itself. */
  predicate CanonicalNat(s: string) {
    |s| >= 1 && AllDigits(s) && (|s| > 1 ==> s[0] != '0')
  }

  /** The form `toString` gives an integer: canonical digits, with a '-' only before a non-zero number. */
  predicate Canonical(s: string) {
    CanonicalNat(s) || (|s| >= 2 && s[0] == '-' && s[1] != '0' && CanonicalNat(s[1..]))
  }

  /** `Int.toString()` / `Long.toString()`: the canonical decimal text that reads back as `n`. */
  function IntToDecimal(n: int): (r: string)
    ensures Canonical(r) && ParseInt(r) == Some(n)
  {
    if n < 0 then
      var r := "-" + NatToDecimal(-n);
      assert r[1..] == NatToDecimal(-n);
      NatRoundTrip(-n);
      r
    else
      NatRoundTrip(n);
      NatToDecimal(n)
  }

  /** `Boolean.toString()`. */
  function BoolToString(b: bool): string {
    if b then "true" else "false"
  }

  /** Value of a string of decimal digits. */
  function ParseNat(s: string): nat
    requires AllDigits(s)
  {
    if s == [] then 0 else ParseNat(s[..|s| - 1]) * 10 + (s[|s| - 1] as int - '0' as int)
  }

  /** Reads back an optionally signed decimal integer; None for anything else. */
  function ParseInt(s: string): Option<int> {
    if |s| > 1 && s[0] == '-' && AllDigits(s[1..]) then Some(0 - ParseNat(s[1..]) as int)
    else if |s| > 0 && AllDigits(s) then Some(ParseNat(s))
    else None
  }

  lemma {:induction false} NatRoundTrip(n: nat)
    ensures ParseNat(NatToDecimal(n)) == n
    decreases n
  {
    if n >= 10 {
      var s := NatToDecimal(n);
      NatRoundTrip(n / 10);
      assert s[..|s| - 1] == NatToDecimal(n / 10);
    }
  }

  /** Digits that read back as zero are all '0'. */
  lemma {:induction false} ParseNatZero(s: string)
    requires AllDigits(s) && ParseNat(s) == 0
    ensures forall i :: 0 <= i < |s| ==> s[i] == '0'
  {
    if s != [] {
      var p := s[..|s| - 1];
      ParseNatZero(p);
      forall i | 0 <= i < |s| ensures s[i] == '0' {
        if i < |p| {
          assert s[i] == p[i];
        }
      }
    }
  }

  /** Canonical digits are the printing of the number they read as. */
  lemma {:induction false} CanonicalNatUnique(s: string)
    requires CanonicalNat(s)
    ensures s == NatToDecimal(ParseNat(s))
  {
    var n := ParseNat(s);
    var d := s[|s| - 1] as int - '0' as int;
    if |s| == 1 {
      assert s[..|s| - 1] == [];
      assert ParseNat(s[..|s| - 1]) == 0;
      assert n == d;
      assert [DigitChar(d)] == s;
    } else {
      var p := s[..|s| - 1];
      assert p[0] == s[0];
      assert CanonicalNat(p);
      CanonicalNatUnique(p);
      if ParseNat(p) == 0 {
        ParseNatZero(p);
        assert false;
      }
      assert n / 10 == ParseNat(p) && n % 10 == d;
      assert s == p + [DigitChar(d)];
    }
  }

  /** `toString` is the only canonical text of a number: a canonical string that reads as `n` is its printing. */
  lemma DecimalUnique(s: string, n: int)
    requires Canonical(s) && ParseInt(s) == Some(n)
    ensures s == IntToDecimal(n)
  {
    if CanonicalNat(s) {
      assert s[0] != '-';
      CanonicalNatUnique(s);
    } else {
      var m := s[1..];
      CanonicalNatUnique(m);
      assert m[0] != '0';
      assert NatToDecimal(ParseNat(m)) == m;
      assert ParseNat(m) > 0;
      assert s == "-" + m;
    }
  }

  predicate StartsWith(s: string, prefix: string) {
    |prefix| <= |s| && s[..|prefix|] == prefix
  }

  /** `s` holds `p` starting at index `i`. */
  predicate OccursAt(s: string, p: string, i: int) {
    0 <= i <= |s| - |p| && s[i..i + |p|] == p
  }

  /** `s` holds `p` at some position. */
  ghost predicate ContainsSub(s: string, p: string) {
    exists i :: OccursAt(s, p, i)
  }

  /**
   * `Char.isWhitespace()` on the JVM: `Character.isWhitespace` or
   * `Character.isSpaceChar`.
   */
  predicate IsWhitespace(c: char) {
    ('\t' <= c <= '\r') || ('\U{1C}' <= c <= ' ') || c == '\U{A0}' || c == '\U{1680}'
    || ('\U{2000}' <= c <= '\U{200A}') || c == '\U{2028}' || c == '\U{2029}' || c == '\U{202F}'
    || c == '\U{205F}' || c == '\U{3000}'
  }

  function TrimStart(s: string): (r: string)
    ensures |r| <= |s| && r == s[|s| - |r|..]
    ensures forall i :: 0 <= i < |s| - |r| ==> IsWhitespace(s[i])
    ensures r == [] || !IsWhitespace(r[0])
  {
    if s != [] && IsWhitespace(s[0]) then TrimStart(s[1..]) else s
  }

  function TrimEnd(s: string): (r: string)
    ensures |r| <= |s| && r == s[..|r|]
    ensures forall i :: |r| <= i < |s| ==> IsWhitespace(s[i])
    ensures r == [] || !IsWhitespace(r[|r| - 1])
  {
    if s != [] && IsWhitespace(s[|s| - 1]) then TrimEnd(s[..|s| - 1]) else s
  }

  /** `String.trim()`: drops leading and trailing whitespace, keeps the middle. */
  function Trim(s: string): (r: string)
    ensures r == [] || (!IsWhitespace(r[0]) && !IsWhitespace(r[|r| - 1]))
    ensures exists i :: OccursAt(s, r, i) && (forall j :: 0 <= j < i ==> IsWhitespace(s[j]))
                        && (forall j :: i + |r| <= j < |s| ==> IsWhitespace(s[j]))
  {
    var t := TrimStart(s);
    var r := TrimEnd(t);
    TrimSpan(s, t, r);
    r
  }

  /**
   * Where the trimmed text sits in `s`: `t` is `s` without leading
   * whitespace and `r` is `t` without trailing whitespace.
   */
  lemma TrimSpan(s: string, t: string, r: string)
    requires |t| <= |s| && t == s[|s| - |t|..] && forall j :: 0 <= j < |s| - |t| ==> IsWhitespace(s[j])
    requires t == [] || !IsWhitespace(t[0])
    requires |r| <= |t| && r == t[..|r|] && forall k :: |r| <= k < |t| ==> IsWhitespace(t[k])
    requires r == [] || !IsWhitespace(r[|r| - 1])
    ensures r == [] || (!IsWhitespace(r[0]) && !IsWhitespace(r[|r| - 1]))
    ensures exists i :: OccursAt(s, r, i) && (forall j :: 0 <= j < i ==> IsWhitespace(s[j]))
                        && (forall j :: i + |r| <= j < |s| ==> IsWhitespace(s[j]))
  {
    var i := |s| - |t|;
    assert s[i..i + |r|] == t[..|r|];
    forall j | i + |r| <= j < |s| ensures IsWhitespace(s[j]) {
      assert t[j - i] == s[j];
    }
    assert r != [] ==> r[0] == t[0];
    assert OccursAt(s, r, i);
  }

  /** Index of the first `c` in `s`. */
  function IndexOf(s: string, c: char): (r: Option<nat>)
    ensures r.Some? ==> r.value < |s| && s[r.value] == c && c !in s[..r.value]
    ensures r.None? <==> c !in s
  {
    if s == [] then None
    else if s[0] == c then Some(0)
    else match IndexOf(s[1..], c)
      case Some(i) => Some(i + 1)
      case None => None
  }

  /** The index of a `c` with no `c` before it is what `IndexOf` finds. */
  lemma {:induction false} IndexOfAt(s: string, c: char, k: nat)
    requires k < |s| && s[k] == c && c !in s[..k]
    ensures IndexOf(s, c) == Some(k)
  {
    if k > 0 {
      assert s[1..][..k - 1] == s[1..k];
      IndexOfAt(s[1..], c, k - 1);
    }
  }

  /** Text that neither starts nor ends with whitespace is its own trim. */
  lemma TrimUnchanged(s: string)
    requires s != [] && !IsWhitespace(s[0]) && !IsWhitespace(s[|s| - 1])
    ensures Trim(s) == s
  {
  }

  /** Trimming keeps a first character that is not whitespace. */
  lemma TrimKeepsFirst(s: string)
    requires s != [] && !IsWhitespace(s[0])
    ensures Trim(s) != [] && Trim(s)[0] == s[0]
  {
    assert TrimStart(s) == s;
  }

  /*
   * Case mapping. Kotlin compares characters ignoring case by
   * `uppercaseChar()` and then `lowercaseChar()` of the uppercase. Only the
   * mappings that can make a character equal an ASCII letter are given; the
   * rest of Unicode maps to itself here.
   */
  function UpperChar(c: char): char {
    if 'a' <= c <= 'z' then (c as int - 32) as char
    else if c == '\U{17F}' then 'S'   // LATIN SMALL LETTER LONG S
    else if c == '\U{131}' then 'I'   // LATIN SMALL LETTER DOTLESS I
    else c
  }

  function LowerChar(c: char): char {
    if 'A' <= c <= 'Z' then (c as int + 32) as char
    else if c == '\U{130}' then 'i'   // LATIN CAPITAL LETTER I WITH DOT ABOVE
    else if c == '\U{212A}' then 'k'   // KELVIN SIGN
    else c
  }

  /** `Char.equals(other, ignoreCase = true)`. */
  predicate CharEqualsIgnoreCase(a: char, b: char) {
    a == b || UpperChar(a) == UpperChar(b) || LowerChar(UpperChar(a)) == LowerChar(UpperChar(b))
  }

  predicate RegionMatchesIgnoreCase(s: string, at: nat, p: string)
    requires at + |p| <= |s|
  {
    forall j :: 0 <= j < |p| ==> CharEqualsIgnoreCase(s[at + j], p[j])
  }

  /** `s.contains(p, ignoreCase = true)`. */
  predicate ContainsIgnoreCase(s: string, p: string)
    decreases |s|
  {
    |p| <= |s| && (RegionMatchesIgnoreCase(s, 0, p) || ContainsIgnoreCase(s[1..], p))
  }

  /** The case-insensitive search succeeds exactly when some position matches. */
  lemma {:induction false} ContainsIgnoreCaseAt(s: string, p: string)
    ensures ContainsIgnoreCase(s, p) <==>
            exists i :: 0 <= i <= |s| - |p| && RegionMatchesIgnoreCase(s, i, p)
    decreases |s|
  {
    if |p| <= |s| && !RegionMatchesIgnoreCase(s, 0, p) {
      ContainsIgnoreCaseAt(s[1..], p);
      if ContainsIgnoreCase(s[1..], p) {
        var i :| 0 <= i <= |s| - 1 - |p| && RegionMatchesIgnoreCase(s[1..], i, p);
        assert RegionMatchesIgnoreCase(s, i + 1, p);
      }
      if i :| 0 <= i <= |s| - |p| && RegionMatchesIgnoreCase(s, i, p) {
        if i > 0 {
          assert RegionMatchesIgnoreCase(s[1..], i - 1, p);
        }
      }
    }
  }
}
