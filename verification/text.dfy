/** String rendering used by the threshold labels: decimal digits of integers,
    numbers with up to two decimals in the form JavaScript prints them, and
    `String.prototype.replace` with a string pattern (first occurrence only).
    Each renderer has a parser partner and a round-trip lemma. */
module Text {
  import opened Seqs

  predicate IsDigit(c: char) {
    '0' <= c <= '9'
  }

  predicate AllDigits(s: string) {
    forall i | 0 <= i < |s| :: IsDigit(s[i])
  }

  function Digit(d: nat): (c: char)
    requires d < 10
    ensures IsDigit(c)
  {
    (d + '0' as int) as char
  }

  function DigitValue(c: char): (d: nat)
    requires IsDigit(c)
    ensures d < 10 && Digit(d) == c
  {
    c as int - '0' as int
  }

  /** Decimal digits of `n`, most significant first, without leading zeros. */
  function NatToString(n: nat): (s: string)
    ensures |s| > 0 && AllDigits(s)
    decreases n
  {
    if n < 10 then [Digit(n)] else NatToString(n / 10) + [Digit(n % 10)]
  }

  /** The number a string of decimal digits denotes. */
  function ParseNat(s: string): nat
    requires AllDigits(s)
  {
    if s == [] then 0 else ParseNat(s[..|s| - 1]) * 10 + DigitValue(s[|s| - 1])
  }

  lemma {:induction false} ParseNatToString(n: nat)
    ensures ParseNat(NatToString(n)) == n
    decreases n
  {
    var s := NatToString(n);
    if n >= 10 {
      ParseNatToString(n / 10);
      assert s[..|s| - 1] == NatToString(n / 10);
    }
  }

  /** JavaScript's `String(n)` for an integer value. */
  function IntToString(n: int): (s: string)
  {
    if n < 0 then "-" + NatToString(-n) else NatToString(n)
  }

  function ParseInt(s: string): Option<int>
  {
    if |s| > 0 && s[0] == '-' && AllDigits(s[1..]) then Some(0 - ParseNat(s[1..]))
    else if AllDigits(s) then Some(ParseNat(s))
    else None
  }

  lemma IntToStringRoundTrip(n: int)
    ensures ParseInt(IntToString(n)) == Some(n)
  {
    if n < 0 {
      ParseNatToString(-n);
      ParseNegative(NatToString(-n));
    } else {
      ParseNatToString(n);
      ParseDigits(NatToString(n));
    }
  }

  /** A minus sign followed by digits reads as the negated number. */
  lemma ParseNegative(w: string)
    requires AllDigits(w)
    ensures ParseInt("-" + w) == Some(0 - ParseNat(w))
  {
    assert ("-" + w)[1..] == w;
  }

  /** A non-empty string of digits reads as its number. */
  lemma ParseDigits(w: string)
    requires |w| > 0 && AllDigits(w)
    ensures ParseInt(w) == Some(ParseNat(w))
  {
    assert IsDigit(w[0]);
  }

  /** The fraction part JavaScript prints for `f` hundredths: nothing for a
      whole number, one digit when the second one is zero, else two. */
  function Fraction(f: nat): string
    requires f < 100
  {
    if f == 0 then ""
    else if f % 10 == 0 then ['.', Digit(f / 10)]
    else ['.', Digit(f / 10), Digit(f % 10)]
  }

  /** How JavaScript prints the number `h / 100` (as in "2.5", "1.25", "500"). */
  function Hundredths(h: nat): string
  {
    NatToString(h / 100) + Fraction(h % 100)
  }

  /** Reads back a number with at most two decimals, in hundredths. */
  function ParseHundredths(s: string): Option<nat>
  {
    var n := |s|;
    if n > 0 && AllDigits(s) then Some(ParseNat(s) * 100)
    else if n >= 3 && s[n - 2] == '.' && AllDigits(s[..n - 2]) && IsDigit(s[n - 1]) then
      Some(ParseNat(s[..n - 2]) * 100 + 10 * DigitValue(s[n - 1]))
    else if n >= 4 && s[n - 3] == '.' && AllDigits(s[..n - 3]) && IsDigit(s[n - 2]) && IsDigit(s[n - 1]) then
      Some(ParseNat(s[..n - 3]) * 100 + 10 * DigitValue(s[n - 2]) + DigitValue(s[n - 1]))
    else None
  }

  lemma HundredthsRoundTrip(h: nat)
    ensures ParseHundredths(Hundredths(h)) == Some(h)
  {
    var w, f := NatToString(h / 100), h % 100;
    var s := Hundredths(h);
    var n := |s|;
    ParseNatToString(h / 100);
    if f == 0 {
      assert s == w;
    } else if f % 10 == 0 {
      assert s[n - 2] == '.' && !AllDigits(s);
      assert s[..n - 2] == w;
    } else {
      assert s[n - 3] == '.' && !AllDigits(s) && s[n - 2] != '.';
      assert s[..n - 3] == w;
    }
  }

  /** `pat` occurs in `s` starting at index `i`. */
  predicate OccursAt(s: string, pat: string, i: nat) {
    i + |pat| <= |s| && s[i..i + |pat|] == pat
  }

  /** JavaScript's `s.replace(pat, rep)` with a string pattern: only the first
      occurrence of `pat` is replaced. */
  function ReplaceFirst(s: string, pat: string, rep: string): string
    decreases |s|
  {
    if OccursAt(s, pat, 0) then rep + s[|pat|..]
    else if s == [] then []
    else [s[0]] + ReplaceFirst(s[1..], pat, rep)
  }

  /** `pat` occurs in `s` at `i` + 1 exactly when it occurs in `s[1..]` at `i`. */
  lemma OccursAtShift(s: string, pat: string, i: nat)
    requires s != []
    ensures OccursAt(s, pat, i + 1) == OccursAt(s[1..], pat, i)
  {
    if i + 1 + |pat| <= |s| {
      assert s[i + 1..i + 1 + |pat|] == s[1..][i..i + |pat|];
    }
  }

  /** Without an occurrence of `pat`, `s` is returned unchanged. */
  lemma {:induction false} ReplaceFirstAbsent(s: string, pat: string, rep: string)
    requires forall i | 0 <= i <= |s| :: !OccursAt(s, pat, i)
    ensures ReplaceFirst(s, pat, rep) == s
    decreases |s|
  {
    if s != [] {
      var t := s[1..];
      forall i | 0 <= i <= |t| ensures !OccursAt(t, pat, i) {
        OccursAtShift(s, pat, i);
      }
      ReplaceFirstAbsent(t, pat, rep);
      assert s == [s[0]] + t;
    }
  }

  /** The first occurrence of `pat`, and only it, is replaced by `rep`. */
  lemma {:induction false} ReplaceFirstAt(s: string, pat: string, rep: string, i: nat)
    requires OccursAt(s, pat, i)
    requires forall j | 0 <= j < i :: !OccursAt(s, pat, j)
    ensures ReplaceFirst(s, pat, rep) == s[..i] + rep + s[i + |pat|..]
    decreases i
  {
    if i > 0 {
      var t := s[1..];
      OccursAtShift(s, pat, i - 1);
      forall j | 0 <= j < i - 1 ensures !OccursAt(t, pat, j) {
        OccursAtShift(s, pat, j);
      }
      ReplaceFirstAt(t, pat, rep, i - 1);
      assert s[..i] == [s[0]] + t[..i - 1];
      assert s[i + |pat|..] == t[i - 1 + |pat|..];
    }
  }
  /** `pat` is replaced where it follows a prefix without its first character. */
  lemma ReplaceFirstAfter(p: string, pat: string, q: string, rep: string)
    requires |pat| > 0 && pat[0] !in p
    ensures ReplaceFirst(p + pat + q, pat, rep) == p + rep + q
  {
    var s := p + pat + q;
    assert s[|p|..|p| + |pat|] == pat;
    forall j | 0 <= j < |p| ensures !OccursAt(s, pat, j) {
      assert s[j] == p[j] && p[j] in p;
      if j + |pat| <= |s| {
        assert s[j..j + |pat|][0] == s[j];
      }
    }
    ReplaceFirstAt(s, pat, rep, |p|);
    assert s[..|p|] == p;
    assert s[|p| + |pat|..] == q;
  }
}
