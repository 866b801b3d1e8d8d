/**
 * Text rendering of numbers and line joining, as the report formatter uses them:
 * decimal digits, Python's thousands grouping with the separator replaced by '.',
 * fixed-point rendering of a scaled integer, and "\n".join.
 */
module Text {

  predicate IsDigit(c: char) { '0' <= c <= '9' }

  predicate AllDigits(s: string) { forall i :: 0 <= i < |s| ==> IsDigit(s[i]) }

  function Abs(x: int): nat { if x < 0 then -x else x }

  function DigitChar(d: nat): (c: char)
    requires d < 10
    ensures IsDigit(c) && c as int - '0' as int == d
  {
    ('0' as int + d) as char
  }

  /** The decimal digits of `n`, most significant first, as Python's `str(n)` prints them. */
  function Digits(n: nat): (s: string)
    ensures |s| >= 1 && AllDigits(s)
    ensures s[0] == '0' ==> n == 0
    decreases n
  {
    if n < 10 then [DigitChar(n)] else Digits(n / 10) + [DigitChar(n % 10)]
  }

  /** The number a digit string denotes (leading zeros allowed). */
  function Value(s: string): nat
    requires AllDigits(s)
  {
    if s == [] then 0 else Value(s[..|s| - 1]) * 10 + (s[|s| - 1] as int - '0' as int)
  }

  /** Digits is read back by Value: the rendering loses nothing. */
  lemma {:induction false} ValueOfDigits(n: nat)
    ensures Value(Digits(n)) == n
    decreases n
  {
    var s := Digits(n);
    if n < 10 {
      assert s[..0] == [];
    } else {
      ValueOfDigits(n / 10);
      assert s[..|s| - 1] == Digits(n / 10);
    }
  }

  function Zeros(k: nat): (z: string)
    ensures |z| == k && AllDigits(z)
  {
    seq(k, _ => '0')
  }

  lemma {:induction false} ValueOfZeros(k: nat)
    ensures Value(Zeros(k)) == 0
  {
    if k > 0 {
      assert Zeros(k)[..k - 1] == Zeros(k - 1);
      ValueOfZeros(k - 1);
    }
  }

  /** Leading zeros do not change the value of a digit string. */
  lemma {:induction false} ValueIgnoresLeadingZeros(k: nat, s: string)
    requires AllDigits(s)
    ensures AllDigits(Zeros(k) + s) && Value(Zeros(k) + s) == Value(s)
  {
    if s == [] {
      assert Zeros(k) + s == Zeros(k);
      ValueOfZeros(k);
    } else {
      var t := Zeros(k) + s;
      assert t[..|t| - 1] == Zeros(k) + s[..|s| - 1];
      ValueIgnoresLeadingZeros(k, s[..|s| - 1]);
    }
  }

  /** `s` left-padded with '0' to at least `width` characters. */
  function PadLeft(s: string, width: nat): (r: string)
  {
    if |s| >= width then s else Zeros(width - |s|) + s
  }

  function Sign(v: int): string { if v < 0 then "-" else "" }

  /**
   * The number v * 10^-scale written with exactly `scale` digits after the point,
   * as Python's "{:.<scale>f}" writes a number that has no more than `scale` decimals.
   */
  function Fixed(v: int, scale: nat): string
    requires scale >= 1
  {
    Sign(v) + Unsigned(Abs(v), scale)
  }

  /** The magnitude part of Fixed: integer digits, '.', `scale` fractional digits. */
  function Unsigned(n: nat, scale: nat): string
    requires scale >= 1
  {
    var padded := PadLeft(Digits(n), scale + 1);
    padded[..|padded| - scale] + "." + padded[|padded| - scale..]
  }

  lemma PadLeftDigits(n: nat, width: nat)
    requires width >= 2
    ensures var p := PadLeft(Digits(n), width);
      |p| >= width && AllDigits(p) && Value(p) == n && (|p| == width || p[0] != '0')
  {
    var d := Digits(n);
    ValueOfDigits(n);
    if |d| < width {
      ValueIgnoresLeadingZeros(width - |d|, d);
    }
  }

  /**
   * The magnitude is an integer part without superfluous leading zeros, one '.',
   * and exactly `scale` fractional digits; both digit runs read together give n.
   */
  lemma UnsignedShape(n: nat, scale: nat)
    requires scale >= 1
    ensures var body := Unsigned(n, scale);
      var point := |body| - scale - 1;
      |body| >= scale + 2 && body[point] == '.' &&
      AllDigits(body[..point]) && AllDigits(body[point + 1..]) &&
      (point == 1 || body[0] != '0') &&
      Value(body[..point] + body[point + 1..]) == n
  {
    var padded := PadLeft(Digits(n), scale + 1);
    PadLeftDigits(n, scale + 1);
    var k := |padded| - scale;
    DigitsSplit(padded, k);
    var ip, fp := padded[..k], padded[k..];
    var body := Unsigned(n, scale);
    assert body == ip + "." + fp;
    assert body[..k] == ip && body[k] == '.' && body[k + 1..] == fp;
    assert k == 1 || body[0] != '0' by {
      if k != 1 {
        assert body[0] == ip[0] == padded[0];
      }
    }
  }

  /** Both pieces of a digit string are digit strings, and they make it up again. */
  lemma DigitsSplit(p: string, k: nat)
    requires AllDigits(p) && k <= |p|
    ensures AllDigits(p[..k]) && AllDigits(p[k..]) && p[..k] + p[k..] == p
  {
    assert forall i :: 0 <= i < |p| - k ==> p[k..][i] == p[k + i];
  }

  /**
   * Fixed writes a leading '-' exactly for a negative value, followed by the
   * magnitude as UnsignedShape describes it.
   */
  lemma FixedShape(v: int, scale: nat)
    requires scale >= 1
    ensures var t := Fixed(v, scale);
      (t[0] == '-' <==> v < 0) && t[|Sign(v)|..] == Unsigned(Abs(v), scale)
  {
    var t := Fixed(v, scale);
    assert t[|Sign(v)|..] == Unsigned(Abs(v), scale);
    UnsignedShape(Abs(v), scale);
    assert IsDigit(Unsigned(Abs(v), scale)[0]);
  }

  /** Digits grouped by threes from the right with '.' between groups. */
  function Grouped(s: string): string
    decreases |s|
  {
    if |s| <= 3 then s else Grouped(s[..|s| - 3]) + "." + s[|s| - 3..]
  }

  /** `s` with every '.' deleted. */
  function WithoutDots(s: string): string
  {
    if s == [] then [] else (if s[0] == '.' then [] else [s[0]]) + WithoutDots(s[1..])
  }

  lemma {:induction false} WithoutDotsAppend(a: string, b: string)
    ensures WithoutDots(a + b) == WithoutDots(a) + WithoutDots(b)
  {
    if a == [] {
      assert a + b == b;
    } else {
      assert (a + b)[1..] == a[1..] + b;
      WithoutDotsAppend(a[1..], b);
    }
  }

  lemma {:induction false} WithoutDotsNoDots(s: string)
    requires '.' !in s
    ensures WithoutDots(s) == s
  {
    if s != [] {
      WithoutDotsNoDots(s[1..]);
    }
  }

  /** Deleting the separators from a grouped digit string gives the digits back. */
  lemma {:induction false} UngroupGrouped(s: string)
    requires '.' !in s
    ensures WithoutDots(Grouped(s)) == s
    decreases |s|
  {
    if |s| <= 3 {
      WithoutDotsNoDots(s);
    } else {
      var head, tail := s[..|s| - 3], s[|s| - 3..];
      assert '.' !in head && '.' !in tail && head + tail == s;
      UngroupGrouped(head);
      WithoutDotsAcrossSeparator(Grouped(head), tail);
    }
  }

  /** Deleting the dots around one separator joins what is on either side. */
  lemma WithoutDotsAcrossSeparator(g: string, tail: string)
    requires '.' !in tail
    ensures WithoutDots(g + "." + tail) == WithoutDots(g) + tail
  {
    calc {
      WithoutDots(g + "." + tail);
      { WithoutDotsAppend(g + ".", tail); }
      WithoutDots(g + ".") + WithoutDots(tail);
      { WithoutDotsAppend(g, "."); WithoutDotsOfDot(); }
      WithoutDots(g) + WithoutDots(tail);
      { WithoutDotsNoDots(tail); }
      WithoutDots(g) + tail;
    }
  }

  lemma WithoutDotsOfDot()
    ensures WithoutDots(".") == ""
  {
    assert "."[1..] == [];
  }

  /**
   * The separators of a grouped non-empty string stand exactly where the distance to
   * the end is a multiple of four, i.e. every group after the first has three digits
   * and the first group has one to three.
   */
  lemma {:induction false} GroupedSeparators(s: string)
    requires '.' !in s && |s| >= 1
    ensures DotsEveryFour(Grouped(s))
    decreases |s|
  {
    if |s| <= 3 {
      forall i | 0 <= i < |s| ensures s[i] == '.' <==> (|s| - i) % 4 == 0 {
        assert s[i] in s;
      }
    } else {
      var head, tail := s[..|s| - 3], s[|s| - 3..];
      assert '.' !in head && '.' !in tail;
      GroupedSeparators(head);
      assert Grouped(s) == Grouped(head) + "." + tail;
      DotsEveryFourExtend(Grouped(head), tail);
    }
  }

  /** A '.' exactly where the distance to the end is a multiple of four, and not in front. */
  predicate DotsEveryFour(g: string)
  {
    |g| % 4 != 0 && forall i :: 0 <= i < |g| ==> (g[i] == '.' <==> (|g| - i) % 4 == 0)
  }

  /** One more separator and group of three keep the separators every four characters. */
  lemma DotsEveryFourExtend(h: string, tail: string)
    requires DotsEveryFour(h) && |tail| == 3 && '.' !in tail
    ensures DotsEveryFour(h + "." + tail)
  {
    var g := h + "." + tail;
    assert |g| == |h| + 4;
    forall i | 0 <= i < |g| ensures g[i] == '.' <==> (|g| - i) % 4 == 0 {
      if i < |h| {
        assert g[i] == h[i];
        assert (|h| - i + 4) % 4 == (|h| - i) % 4;
      } else if i > |h| {
        assert g[i] == tail[i - |h| - 1];
        assert g[i] in tail;
      }
    }
  }

  /**
   * The quote-currency amount as the report prints it: Python's `f"{abs(d):,.0f}"`
   * with ',' replaced by '.', prefixed with '-' when d is negative.
   */
  function QuoteText(d: int): string
  {
    Sign(d) + Grouped(Digits(Abs(d)))
  }

  /**
   * QuoteText carries a leading '-' exactly when the amount is negative, and what
   * follows the sign is the decimal digits of |d| grouped by threes from the right.
   */
  lemma QuoteTextShape(d: int)
    ensures var t := QuoteText(d);
      var body := t[|Sign(d)|..];
      (t[0] == '-' <==> d < 0) &&
      WithoutDots(body) == Digits(Abs(d)) && Value(WithoutDots(body)) == Abs(d) &&
      |body| % 4 != 0 && forall i :: 0 <= i < |body| ==> (body[i] == '.' <==> (|body| - i) % 4 == 0)
  {
    var digits := Digits(Abs(d));
    var body := QuoteText(d)[|Sign(d)|..];
    assert body == Grouped(digits);
    DigitsHaveNoDots(Abs(d));
    UngroupGrouped(digits);
    GroupedSeparators(digits);
    ValueOfDigits(Abs(d));
    GroupedStartsWithDigit(digits);
  }

  lemma DigitsHaveNoDots(n: nat)
    ensures '.' !in Digits(n)
  {
    var digits := Digits(n);
    forall i | 0 <= i < |digits| ensures digits[i] != '.' {
      assert IsDigit(digits[i]);
    }
  }

  /** Grouping keeps the first digit in front. */
  lemma {:induction false} GroupedStartsWithDigit(s: string)
    requires AllDigits(s) && |s| >= 1
    ensures |Grouped(s)| >= 1 && Grouped(s)[0] == s[0]
    decreases |s|
  {
    if |s| > 3 {
      var head := s[..|s| - 3];
      GroupedStartsWithDigit(head);
      assert Grouped(s) == Grouped(head) + "." + s[|s| - 3..];
    }
  }

  lemma {:induction false} GroupedHasDigitsAndDots(s: string)
    requires AllDigits(s)
    ensures forall i :: 0 <= i < |Grouped(s)| ==> IsDigit(Grouped(s)[i]) || Grouped(s)[i] == '.'
    decreases |s|
  {
    if |s| > 3 {
      GroupedHasDigitsAndDots(s[..|s| - 3]);
    }
  }

  /** Python's "\n".join(lines). */
  function JoinLines(lines: seq<string>): string
  {
    if |lines| == 0 then "" else if |lines| == 1 then lines[0] else lines[0] + "\n" + JoinLines(lines[1..])
  }

  /** Joining two non-empty runs of lines puts exactly one newline between them. */
  lemma {:induction false} JoinLinesAppend(a: seq<string>, b: seq<string>)
    requires a != [] && b != []
    ensures JoinLines(a + b) == JoinLines(a) + "\n" + JoinLines(b)
  {
    if |a| == 1 {
      assert (a + b)[1..] == b;
    } else {
      assert (a + b)[1..] == a[1..] + b;
      JoinLinesAppend(a[1..], b);
    }
  }

  /** The joined text ends with the last line. */
  lemma JoinLinesEndsWithLast(lines: seq<string>)
    requires lines != []
    ensures var t := JoinLines(lines); var last := lines[|lines| - 1];
      |last| <= |t| && t[|t| - |last|..] == last
  {
    if |lines| > 1 {
      var init := lines[..|lines| - 1];
      assert lines == init + [lines[|lines| - 1]];
      JoinLinesAppend(init, [lines[|lines| - 1]]);
    }
  }

  /** The joined text ends with the last character of the last line, when that line is not empty. */
  lemma JoinLinesLastChar(lines: seq<string>)
    requires lines != [] && lines[|lines| - 1] != []
    ensures var t := JoinLines(lines); var last := lines[|lines| - 1];
      |t| >= 1 && t[|t| - 1] == last[|last| - 1]
  {
    JoinLinesEndsWithLast(lines);
    var t := JoinLines(lines);
    var last := lines[|lines| - 1];
    assert t[|t| - |last|..][|last| - 1] == t[|t| - 1];
  }
}
