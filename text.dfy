/**
 * The java.lang.String operations the plugin relies on, on `seq<char>`:
 * prefix and suffix tests, English lower-casing, equalsIgnoreCase,
 * replace, and decimal conversion (String.valueOf / Integer.valueOf /
 * Long.parseLong). Case mapping covers the ASCII letters only.
 */
module Text {
  import opened Base

  predicate StartsWith(s: string, prefix: string) {
    |prefix| <= |s| && s[..|prefix|] == prefix
  }

  predicate EndsWith(s: string, suffix: string) {
    |suffix| <= |s| && s[|s| - |suffix|..] == suffix
  }

  /** `pattern` occurs in `s` starting at index i. */
  predicate OccursAt(s: string, pattern: string, i: int) {
    0 <= i && i + |pattern| <= |s| && s[i..i + |pattern|] == pattern
  }

  predicate Contains(s: string, pattern: string) {
    exists i | 0 <= i <= |s| :: OccursAt(s, pattern, i)
  }

  // ---------------------------------------------------------------------
  // Case mapping (String.toLowerCase(Locale.ENGLISH) on ASCII letters)
  // ---------------------------------------------------------------------

  function LowerChar(c: char): (d: char)
    ensures 'A' <= c <= 'Z' ==> d as int == c as int + 32
    ensures !('A' <= c <= 'Z') ==> d == c
    ensures !('A' <= d <= 'Z')
  {
    if 'A' <= c <= 'Z' then (c as int + 32) as char else c
  }

  /** String.toLowerCase(Locale.ENGLISH), character by character. */
  function ToLower(s: string): (r: string)
    ensures |r| == |s|
  {
    seq(|s|, i requires 0 <= i < |s| => LowerChar(s[i]))
  }

  /** A string with no upper-case ASCII letter. */
  predicate IsLower(s: string) {
    forall i :: 0 <= i < |s| ==> !('A' <= s[i] <= 'Z')
  }

  /**
   * Lower-casing leaves no upper-case letter, keeps every other character and
   * maps each upper-case letter to its lower-case form; it is idempotent and
   * leaves lower-case text alone.
   */
  lemma ToLowerFixesLower(s: string)
    ensures IsLower(ToLower(s))
    ensures forall i :: 0 <= i < |s| ==>
      ToLower(s)[i] == s[i] || ('A' <= s[i] <= 'Z' && ToLower(s)[i] as int == s[i] as int + 32)
    ensures IsLower(s) ==> ToLower(s) == s
    ensures ToLower(ToLower(s)) == ToLower(s)
  {
    var t := ToLower(s);
    assert forall i :: 0 <= i < |t| ==> LowerChar(t[i]) == t[i];
    if IsLower(s) {
      assert forall i :: 0 <= i < |s| ==> LowerChar(s[i]) == s[i];
    }
  }

  /**
   * String.equalsIgnoreCase on a possibly-null argument: false for null,
   * otherwise the same length and equal characters up to case, position by
   * position.
   */
  predicate EqualsIgnoreCase(a: string, b: Option<string>)
    ensures EqualsIgnoreCase(a, b) <==>
      b.Some? && |a| == |b.value| && forall i :: 0 <= i < |a| ==> LowerChar(a[i]) == LowerChar(b.value[i])
  {
    b.Some? && |a| == |b.value| && (LowerEqualIff(a, b.value); ToLower(a) == ToLower(b.value))
  }

  /** Two strings of one length lower-case alike exactly when they agree up to case at each position. */
  lemma LowerEqualIff(a: string, b: string)
    requires |a| == |b|
    ensures ToLower(a) == ToLower(b) <==> forall i :: 0 <= i < |a| ==> LowerChar(a[i]) == LowerChar(b[i])
  {
    if forall i :: 0 <= i < |a| ==> LowerChar(a[i]) == LowerChar(b[i]) {
      assert forall i :: 0 <= i < |a| ==> ToLower(a)[i] == ToLower(b)[i];
    }
    if ToLower(a) == ToLower(b) {
      forall i | 0 <= i < |a| ensures LowerChar(a[i]) == LowerChar(b[i]) {
        assert ToLower(a)[i] == ToLower(b)[i];
      }
    }
  }

  // ---------------------------------------------------------------------
  // String.replace(CharSequence, CharSequence)
  // ---------------------------------------------------------------------

  /**
   * Replaces every occurrence of `target`, scanning left to right and
   * resuming after each replaced occurrence, as String.replace does.
   */
  function ReplaceAll(s: string, target: string, replacement: string): (r: string)
    requires |target| > 0
    ensures replacement == target ==> r == s
    ensures |replacement| == |target| ==> |r| == |s|
    decreases |s|
  {
    if |s| < |target| then s
    else if s[..|target|] == target then
      assert s[0] == s[..|target|][0];
      assert s == s[..|target|] + s[|target|..];
      replacement + ReplaceAll(s[|target|..], target, replacement)
    else
      assert s == [s[0]] + s[1..];
      [s[0]] + ReplaceAll(s[1..], target, replacement)
  }

  /** Text that does not start with the target: its first character is kept. */
  lemma ReplaceSkipsFirst(s: string, target: string, replacement: string)
    requires |target| > 0 && |s| >= |target| && s[..|target|] != target
    ensures ReplaceAll(s, target, replacement) == [s[0]] + ReplaceAll(s[1..], target, replacement)
  {
  }

  /** Text shorter than the target is returned unchanged. */
  lemma ReplaceShort(s: string, target: string, replacement: string)
    requires |target| > 0 && |s| < |target|
    ensures ReplaceAll(s, target, replacement) == s
  {
  }

  /** Text without the target is returned unchanged. */
  lemma {:induction false} ReplaceAbsent(s: string, target: string, replacement: string)
    requires |target| > 0
    requires !Contains(s, target)
    ensures ReplaceAll(s, target, replacement) == s
    decreases |s|
  {
    if |s| >= |target| {
      assert !OccursAt(s, target, 0);
      assert !Contains(s[1..], target) by {
        forall i | OccursAt(s[1..], target, i) ensures false {
          assert s[1..][i..i + |target|] == s[i + 1..i + 1 + |target|];
          assert OccursAt(s, target, i + 1);
        }
      }
      ReplaceAbsent(s[1..], target, replacement);
    }
  }

  /** A prefix free of the target's first character passes through unchanged. */
  lemma {:induction false} ReplaceAfterPlain(p: string, s: string, target: string, replacement: string)
    requires |target| > 0 && target[0] !in p
    ensures ReplaceAll(p + s, target, replacement) == p + ReplaceAll(s, target, replacement)
    decreases |p|
  {
    if p == [] {
      assert p + s == s;
    } else {
      var ps := p + s;
      assert ps[0] == p[0] && ps[1..] == p[1..] + s;
      if |ps| >= |target| {
        assert p[0] in p;
        assert ps[..|target|] != target by {
          assert ps[..|target|][0] == p[0];
        }
        calc {
          ReplaceAll(ps, target, replacement);
          [p[0]] + ReplaceAll(p[1..] + s, target, replacement);
          { ReplaceAfterPlain(p[1..], s, target, replacement); }
          [p[0]] + (p[1..] + ReplaceAll(s, target, replacement));
          { assert p == [p[0]] + p[1..]; }
          p + ReplaceAll(s, target, replacement);
        }
      }
    }
  }

  /** Replacement distributes over a boundary that starts with the target. */
  lemma {:induction false} ReplaceLeadingTarget(rest: string, target: string, replacement: string)
    requires |target| > 0
    ensures ReplaceAll(target + rest, target, replacement) == replacement + ReplaceAll(rest, target, replacement)
  {
    var s := target + rest;
    assert s[..|target|] == target;
    assert s[|target|..] == rest;
  }

  // ---------------------------------------------------------------------
  // Decimal numerals
  // ---------------------------------------------------------------------

  const IntMin: int := -0x8000_0000
  const IntMax: int := 0x7fff_ffff
  const LongMin: int := -0x8000_0000_0000_0000
  const LongMax: int := 0x7fff_ffff_ffff_ffff

  predicate IsDigit(c: char) {
    '0' <= c <= '9'
  }

  predicate AllDigits(s: string) {
    forall i :: 0 <= i < |s| ==> IsDigit(s[i])
  }

  /** The value of a string of decimal digits, most significant first. */
  function DigitsValue(s: string): (n: nat)
    requires AllDigits(s)
    decreases |s|
  {
    if s == [] then 0
    else 10 * DigitsValue(s[..|s| - 1]) + (s[|s| - 1] as int - '0' as int)
  }

  /** The decimal numeral of a natural number, without leading zeros. */
  function NatToString(n: nat): (s: string)
    ensures |s| > 0 && AllDigits(s)
    ensures n > 0 ==> s[0] != '0'
    decreases n
  {
    if n < 10 then ['0' + n as char]
    else NatToString(n / 10) + ['0' + (n % 10) as char]
  }

  /** String.valueOf(long). */
  function IntToString(n: int): (s: string)
    ensures |s| > 0
  {
    if n < 0 then "-" + NatToString(-n) else NatToString(n)
  }

  /**
   * The integer a numeral denotes: an optional '+' or '-' and at least one
   * decimal digit, with no range limit.
   */
  function ParseDecimal(s: string): (r: Option<int>)
    ensures r.Some? ==> |s| > 0
    ensures r.Some? && s[0] != '-' && s[0] != '+' ==> AllDigits(s) && r.value == DigitsValue(s)
    ensures |s| > 0 && AllDigits(s) ==> r == Some(DigitsValue(s))
    ensures |s| > 1 && (s[0] == '-' || s[0] == '+') && AllDigits(s[1..]) ==>
      r == Some(if s[0] == '-' then -(DigitsValue(s[1..]) as int) else DigitsValue(s[1..]) as int)
    ensures r.Some? && (s[0] == '-' || s[0] == '+') ==> |s| > 1 && AllDigits(s[1..])
  {
    if |s| == 0 then None
    else if s[0] == '-' || s[0] == '+' then
      if |s| > 1 && AllDigits(s[1..]) then
        var magnitude: int := DigitsValue(s[1..]);
        Some(if s[0] == '-' then -magnitude else magnitude)
      else None
    else if AllDigits(s) then Some(DigitsValue(s))
    else None
  }

  /** Integer.valueOf / StringUtils.parseInteger: a numeral in int range. */
  function ParseInteger(s: string): (r: Option<int>)
    ensures r.Some? ==> IntMin <= r.value <= IntMax && ParseDecimal(s) == r
    ensures r.None? ==> ParseDecimal(s).None? || !(IntMin <= ParseDecimal(s).value <= IntMax)
  {
    match ParseDecimal(s)
    case Some(n) => if IntMin <= n <= IntMax then Some(n) else None
    case None => None
  }

  /** Long.parseLong: a numeral in long range. */
  function ParseLong(s: string): (r: Option<int>)
    ensures r.Some? ==> LongMin <= r.value <= LongMax && ParseDecimal(s) == r
    ensures r.None? ==> ParseDecimal(s).None? || !(LongMin <= ParseDecimal(s).value <= LongMax)
  {
    match ParseDecimal(s)
    case Some(n) => if LongMin <= n <= LongMax then Some(n) else None
    case None => None
  }

  /** Reading back a printed natural number gives the number. */
  lemma {:induction false} DigitsValueOfNatToString(n: nat)
    ensures DigitsValue(NatToString(n)) == n
    decreases n
  {
    if n >= 10 {
      var s := NatToString(n);
      var p := NatToString(n / 10);
      assert s == p + ['0' + (n % 10) as char];
      assert s[..|s| - 1] == p;
      DigitsValueOfNatToString(n / 10);
    }
  }

  /** Parsing the numeral of a natural number gives the number. */
  lemma ParseDecimalOfNatToString(n: nat)
    ensures ParseDecimal(NatToString(n)) == Some(n)
  {
    var s := NatToString(n);
    assert s[0] != '-' && s[0] != '+';
    DigitsValueOfNatToString(n);
  }

  /** Parsing a minus sign followed by the numeral of a positive number gives its negation. */
  lemma ParseDecimalOfNegative(m: int)
    requires m > 0
    ensures ParseDecimal("-" + NatToString(m)) == Some(-m)
  {
    var s := "-" + NatToString(m);
    assert s[0] == '-' && |s| > 1;
    assert s[1..] == NatToString(m);
    DigitsValueOfNatToString(m);
  }

  /** String.valueOf and the decimal parser are inverse on every integer. */
  lemma ParseDecimalOfIntToString(n: int)
    ensures ParseDecimal(IntToString(n)) == Some(n)
  {
    if n < 0 {
      ParseDecimalOfNegative(-n);
    } else {
      ParseDecimalOfNatToString(n);
    }
  }
}
