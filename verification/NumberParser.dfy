/** The number parser `astrtol` of demo-lib/main.c lines 6-69. */
module NumberParser {
  const INT_MAX: nat := 0x7FFF_FFFF
  const UINT_SIZE: nat := 0x1_0000_0000

  /** The result, or that the computation overflows a signed int or shifts by 32 or more. */
  datatype Outcome = Value(v: nat) | Undefined

  // ----- Digits -----

  predicate IsDigit(c: char, base: nat) {
    if base == 10 then '0' <= c <= '9'
    else if base == 8 then '0' <= c <= '7'
    else '0' <= c <= '9' || 'a' <= c <= 'f' || 'A' <= c <= 'F'
  }

  function DigitValue(c: char): nat {
    if '0' <= c <= '9' then c as nat - 0x30
    else if 'a' <= c <= 'f' then c as nat - 0x57
    else if 'A' <= c <= 'F' then c as nat - 0x37
    else 0
  }

  predicate AllDigits(s: string, base: nat) {
    forall i :: 0 <= i < |s| ==> IsDigit(s[i], base)
  }

  /** The value of a digit string, read from left to right. */
  function Eval(s: string, base: nat): nat {
    if s == "" then 0 else Eval(s[..|s| - 1], base) * base + DigitValue(s[|s| - 1])
  }

  /** Where the longest suffix of digits begins. */
  function SuffixStart(s: string, base: nat): (k: nat)
    ensures k <= |s| && AllDigits(s[k..], base)
    ensures k > 0 ==> !IsDigit(s[k - 1], base)
  {
    if s == "" then 0
    else if !IsDigit(s[|s| - 1], base) then |s|
    else
      var k := SuffixStart(s[..|s| - 1], base);
      assert s[k..] == s[..|s| - 1][k..] + [s[|s| - 1]];
      k
  }

  /** How long the longest prefix of digits is. */
  function PrefixLength(s: string, base: nat): (k: nat)
    ensures k <= |s| && AllDigits(s[..k], base)
    ensures k < |s| ==> !IsDigit(s[k], base)
  {
    if s == "" || !IsDigit(s[0], base) then 0 else 1 + PrefixLength(s[1..], base)
  }

  function Pow(b: nat, e: nat): nat {
    if e == 0 then 1 else b * Pow(b, e - 1)
  }

  // ----- What the parser computes -----

  /** The character at an index, with the terminating NUL. */
  function CharAt(s: string, i: nat): char { if i < |s| then s[i] else '\0' }

  function DetectBase(s: string, base: int): int {
    if base != 0 then base
    else if CharAt(s, 0) != '0' then 10
    else if CharAt(s, 1) == 'x' || CharAt(s, 1) == 'X' then 16
    else 8
  }

  predicate HexPrefix(s: string) {
    |s| >= 2 && s[0] == '0' && (s[1] == 'x' || s[1] == 'X')
  }

  /** Decimal and octal digits that can be taken before `pos` overflows. */
  function MaxDigits(base: nat): nat { if base == 10 then 9 else 10 }

  /** The decimal and octal loops: the value of the longest suffix of digits. */
  function Positional(s: string, base: nat): Outcome {
    var digits := s[SuffixStart(s, base)..];
    if |digits| > MaxDigits(base) then Undefined else Value(Eval(digits, base))
  }

  /** The hexadecimal loop: the longest prefix of digits, scaled as if the rest were zeros. */
  function ShiftOr(s: string): Outcome {
    var n := PrefixLength(s, 16);
    if n > 0 && |s| > 8 then Undefined else Value(Eval(s[..n], 16) * Pow(16, |s| - n))
  }

  function Parse(s: string, base: int): Outcome {
    var b := DetectBase(s, base);
    if b == 10 then Positional(s, 10)
    else if b == 8 then Positional(if CharAt(s, 0) == '0' then s[1..] else s, 8)
    else ShiftOr(if HexPrefix(s) then s[2..] else s)
  }

  // ----- Bitwise or -----

  function Or(a: nat, b: nat): nat {
    if a == 0 then b else if b == 0 then a
    else 2 * Or(a / 2, b / 2) + (if a % 2 == 1 || b % 2 == 1 then 1 else 0)
  }

  /** Numbers without a common one bit: `a` has none below place `k`, `b` none from there on. */
  lemma {:induction false} OrDisjoint(a: nat, b: nat, k: nat)
    requires b < Pow(2, k)
    ensures Or(a * Pow(2, k), b) == a * Pow(2, k) + b
  {
    if a > 0 && b > 0 {
      var p := Pow(2, k - 1);
      assert Pow(2, k) == 2 * p;
      var x := a * Pow(2, k);
      assert x == 2 * (a * p);
      assert x > 0 by {
        PowPositive(2, k);
      }
      OrDisjoint(a, b / 2, k - 1);
    }
  }

  lemma {:induction false} PowPositive(b: nat, e: nat)
    requires b > 0
    ensures Pow(b, e) > 0
  {
    if e > 0 {
      PowPositive(b, e - 1);
    }
  }

  lemma {:induction false} PowSixteen(n: nat)
    ensures Pow(16, n) == Pow(2, 4 * n)
  {
    if n > 0 {
      PowSixteen(n - 1);
      var k := 4 * n - 4;
      assert Pow(2, k + 4) == 2 * Pow(2, k + 3);
      assert Pow(2, k + 3) == 2 * Pow(2, k + 2);
      assert Pow(2, k + 2) == 2 * Pow(2, k + 1);
      assert Pow(2, k + 1) == 2 * Pow(2, k);
    }
  }

  lemma TimesAtLeast(b: nat, p: nat)
    requires b > 0
    ensures b * p >= p
  {
  }

  lemma {:induction false} PowMonotone(b: nat, m: nat, n: nat)
    requires b > 0 && m <= n
    ensures Pow(b, m) <= Pow(b, n)
  {
    if m < n {
      PowMonotone(b, m, n - 1);
      TimesAtLeast(b, Pow(b, n - 1));
    }
  }

  // ----- Right to left is left to right -----

  lemma Distribute(d: nat, p: nat, e: nat, b: nat)
    ensures (d * p + e) * b == d * (b * p) + e * b
  {
    assert d * (b * p) == (d * p) * b;
  }

  lemma EvalLast(s: string, c: char, base: nat)
    ensures Eval(s + [c], base) == Eval(s, base) * base + DigitValue(c)
  {
    assert (s + [c])[..|s|] == s;
  }

  lemma {:induction false} EvalFront(c: char, s: string, base: nat)
    ensures Eval([c] + s, base) == DigitValue(c) * Pow(base, |s|) + Eval(s, base)
  {
    hide DigitValue;
    if s == "" {
      EvalLast("", c, base);
      assert [c] + s == "" + [c];
    } else {
      var n := |s| - 1;
      EvalFront(c, s[..n], base);
      assert [c] + s == ([c] + s[..n]) + [s[n]];
      EvalLast([c] + s[..n], s[n], base);
      Distribute(DigitValue(c), Pow(base, n), Eval(s[..n], base), base);
    }
  }

  lemma {:induction false} EvalBound(s: string, base: nat)
    requires AllDigits(s, base) && (base == 8 || base == 10 || base == 16)
    ensures Eval(s, base) < Pow(base, |s|)
  {
    if s != "" {
      var n := |s| - 1;
      assert IsDigit(s[n], base);
      EvalBound(s[..n], base);
      assert Eval(s[..n], base) * base <= (Pow(base, n) - 1) * base;
    }
  }

  lemma SuffixDigits(s: string, base: nat, k: nat)
    requires k <= |s| && AllDigits(s[k..], base)
    ensures forall i :: k <= i < |s| ==> IsDigit(s[i], base)
  {
    forall i | k <= i < |s|
      ensures IsDigit(s[i], base)
    {
      assert s[k..][i - k] == s[i];
    }
  }

  lemma SuffixIs(s: string, base: nat, k: nat)
    requires k <= |s| && AllDigits(s[k..], base) && (k > 0 ==> !IsDigit(s[k - 1], base))
    ensures SuffixStart(s, base) == k
  {
    hide IsDigit;
    SuffixDigits(s, base, k);
    SuffixDigits(s, base, SuffixStart(s, base));
  }

  lemma DecimalPowers()
    ensures Pow(10, 9) == 1_000_000_000 && Pow(10, 10) == 10_000_000_000
    ensures Pow(8, 10) == 0x4000_0000 && Pow(8, 11) == 0x2_0000_0000
  {
    var a := Pow(10, 3);
    assert a == 1000;
    assert Pow(10, 6) == 1000 * Pow(10, 3);
    assert Pow(10, 9) == 1000 * Pow(10, 6);
    assert Pow(8, 3) == 512;
    assert Pow(8, 6) == 512 * Pow(8, 3);
    assert Pow(8, 9) == 512 * Pow(8, 6);
  }

  /** `pos` stays within an int exactly as long as no more than 9 decimal or 10 octal digits are
      taken. */
  lemma PosFits(base: nat, k: nat)
    requires base == 10 || base == 8
    ensures Pow(base, k) <= INT_MAX <==> k <= MaxDigits(base)
  {
    DecimalPowers();
    if k <= MaxDigits(base) {
      PowMonotone(base, k, MaxDigits(base));
    } else {
      PowMonotone(base, MaxDigits(base) + 1, k);
    }
  }

  // ----- The code -----

  /** The loops of the decimal and the octal branch. */
  method ParsePositional(s: string, base: nat) returns (r: Outcome)
    requires base == 10 || base == 8
    ensures r == Positional(s, base)
  {
    hide IsDigit, DigitValue, Eval, SuffixStart;
    var v, pos, i := 0, 1, |s|;
    EvalNothing(base);
    assert s[|s|..] == "";
    while i > 0
      invariant 0 <= i <= |s| && AllDigits(s[i..], base)
      invariant |s| - i <= MaxDigits(base)
      invariant pos == Pow(base, |s| - i) && v == Eval(s[i..], base)
      decreases i
    {
      var c := s[i - 1];
      if !IsDigit(c, base) {
        break;
      }
      assert s[i - 1..] == [c] + s[i..];
      PosFits(base, |s| - i + 1);
      if pos * base > INT_MAX {
        SuffixLonger(s, base, i - 1);
        return Undefined;
      }
      ghost var before := pos;
      pos := pos * base;
      MultipleOver(before, base);
      EvalFront(c, s[i..], base);
      PositionalFits(s[i - 1..], base);
      v := (v + DigitValue(c) * (pos / base)) % UINT_SIZE;
      i := i - 1;
    }
    SuffixIs(s, base, i);
    r := Value(v);
  }

  lemma EvalNothing(base: nat)
    ensures Eval("", base) == 0
  {
  }

  lemma MultipleOver(p: nat, base: nat)
    requires base == 10 || base == 8
    ensures p * base / base == p
  {
    if base == 10 {
      assert p * 10 / 10 == p;
    } else {
      assert p * 8 / 8 == p;
    }
  }

  lemma PositionalFits(s: string, base: nat)
    requires base == 10 || base == 8
    requires AllDigits(s, base) && |s| <= MaxDigits(base)
    ensures Eval(s, base) < UINT_SIZE
  {
    EvalBound(s, base);
    PosFits(base, |s|);
  }

  lemma SuffixLonger(s: string, base: nat, k: nat)
    requires k <= |s| && AllDigits(s[k..], base)
    ensures SuffixStart(s, base) <= k
  {
    hide IsDigit;
    SuffixDigits(s, base, k);
  }

  /** The loop of the hexadecimal branch. */
  method ParseShiftOr(s: string) returns (r: Outcome)
    ensures r == ShiftOr(s)
  {
    hide IsDigit, DigitValue, Eval, Pow, Or, PrefixLength;
    var v, i := 0, 0;
    EvalNothing(16);
    assert s[..0] == "";
    while i < |s|
      invariant 0 <= i <= |s| && AllDigits(s[..i], 16)
      invariant i > 0 ==> |s| <= 8
      invariant v == Eval(s[..i], 16) * Pow(16, |s| - i)
    {
      var c := s[i];
      if !IsDigit(c, 16) {
        break;
      }
      PrefixAtLeast(s, i);
      var t, shift := DigitValue(c), 4 * (|s| - 1 - i);
      if shift >= 32 {
        return Undefined;
      }
      ShiftedDigit(s, i);
      v := Or(v, t * Pow(2, shift) % UINT_SIZE);
      i := i + 1;
    }
    PrefixIs(s, i);
    r := Value(v);
  }

  lemma {:induction false} PrefixIs(s: string, k: nat)
    requires k <= |s| && AllDigits(s[..k], 16) && (k < |s| ==> !IsDigit(s[k], 16))
    ensures PrefixLength(s, 16) == k
  {
    var j := PrefixLength(s, 16);
    assert forall i :: 0 <= i < k ==> IsDigit(s[..k][i], 16);
    assert forall i :: 0 <= i < j ==> IsDigit(s[..j][i], 16);
    assert j == k;
  }

  lemma PrefixAtLeast(s: string, i: nat)
    requires i < |s| && AllDigits(s[..i], 16) && IsDigit(s[i], 16)
    ensures PrefixLength(s, 16) > i && AllDigits(s[..i + 1], 16)
  {
    hide IsDigit;
    var j := PrefixLength(s, 16);
    assert forall k :: 0 <= k < i ==> s[..i][k] == s[k];
    assert j < |s| ==> !IsDigit(s[j], 16);
  }

  /** One step of the hexadecimal loop: or-ing in a shifted digit is adding it. */
  lemma ShiftedDigit(s: string, i: nat)
    requires i < |s| <= 8 && AllDigits(s[..i], 16) && IsDigit(s[i], 16)
    ensures var t, shift := DigitValue(s[i]), 4 * (|s| - 1 - i);
      && t * Pow(2, shift) < UINT_SIZE
      && Or(Eval(s[..i], 16) * Pow(16, |s| - i), t * Pow(2, shift))
         == Eval(s[..i + 1], 16) * Pow(16, |s| - i - 1)
  {
    var t, n, e := DigitValue(s[i]), |s| - 1 - i, Eval(s[..i], 16);
    assert t < 16;
    hide Pow, Or, Eval, IsDigit, DigitValue;
    assert s[..i + 1] == s[..i] + [s[i]];
    EvalLast(s[..i], s[i], 16);
    PowSixteen(n);
    PowSixteen(n + 1);
    PowStep(16, n);
    PowPositive(16, n);
    PowMonotone(16, n + 1, 8);
    SixteenToTheEighth();
    DigitInPlace(t, e, Pow(16, n));
    OrDisjoint(e, t * Pow(16, n), 4 * (n + 1));
  }

  lemma PowStep(b: nat, n: nat)
    ensures Pow(b, n + 1) == b * Pow(b, n)
  {
  }

  lemma DigitInPlace(t: nat, e: nat, p: nat)
    requires t < 16 && p > 0
    ensures t * p < 16 * p
    ensures e * (16 * p) + t * p == (e * 16 + t) * p
  {
  }

  lemma SixteenToTheEighth()
    ensures Pow(16, 8) == UINT_SIZE
  {
    assert Pow(16, 4) == 0x1_0000;
    assert Pow(16, 8) == 16 * (16 * (16 * (16 * Pow(16, 4))));
  }

  /** `astrtol`. */
  method Astrtol(s: string, base: int) returns (r: Outcome)
    requires '\0' !in s
    ensures r == Parse(s, base)
  {
    var b, t := base, s;
    if b == 0 {
      if CharAt(t, 0) == '0' {
        if CharAt(t, 1) == 'x' || CharAt(t, 1) == 'X' {
          b := 16;
        } else {
          b := 8;
        }
      } else {
        b := 10;
      }
    }
    if b == 10 {
      r := ParsePositional(t, 10);
    } else if b == 8 {
      if CharAt(t, 0) == '0' {
        t := t[1..];
      }
      r := ParsePositional(t, 8);
    } else {
      if (CharAt(t, 0) == '0' && CharAt(t, 1) == 'x') || (CharAt(t, 0) == '0' && CharAt(t, 1) == 'X') {
        t := t[2..];
      }
      r := ParseShiftOr(t);
    }
  }

  // ----- Well-formed numbers -----

  lemma WholeDecimal(s: string)
    requires AllDigits(s, 10) && |s| <= 9
    ensures Parse(s, 10) == Value(Eval(s, 10))
    ensures s != "" && s[0] != '0' ==> Parse(s, 0) == Value(Eval(s, 10))
  {
    assert s[0..] == s;
    SuffixIs(s, 10, 0);
  }

  lemma LeadingZero(d: string)
    ensures Eval("0" + d, 8) == Eval(d, 8)
  {
    hide Eval, Pow;
    EvalFront('0', d, 8);
  }

  lemma OctalBranch(d: string, base: int)
    requires AllDigits(d, 8) && (base == 8 || base == 0)
    ensures Parse("0" + d, base) == Positional(d, 8)
  {
    hide Positional, ShiftOr;
    var s := "0" + d;
    assert s[0] == '0' && s[1..] == d;
    assert d != "" ==> s[1] == d[0] && IsDigit(d[0], 8);
  }

  lemma WholeOctal(d: string, base: int)
    requires AllDigits(d, 8) && |d| <= 10 && (base == 8 || base == 0)
    ensures Parse("0" + d, base) == Value(Eval(d, 8)) == Value(Eval("0" + d, 8))
  {
    hide Eval, SuffixStart, Parse, IsDigit;
    OctalBranch(d, base);
    LeadingZero(d);
    assert d[0..] == d;
    SuffixIs(d, 8, 0);
  }

  lemma WholeHex(d: string, x: char, base: int)
    requires AllDigits(d, 16) && |d| <= 8 && (x == 'x' || x == 'X')
    requires base == 16 || base == 0
    ensures Parse(['0', x] + d, base) == Value(Eval(d, 16))
  {
    var s := ['0', x] + d;
    assert s[2..] == d && d[..|d|] == d;
    PrefixIs(d, |d|);
  }

  /** Octal without a leading 0, or with one among the digits. */
  lemma PlainOctal(d: string)
    requires AllDigits(d, 8) && |d| <= 10
    ensures Parse(d, 8) == Value(Eval(d, 8))
  {
    hide Eval, SuffixStart, IsDigit;
    if d != "" && d[0] == '0' {
      assert d == "0" + d[1..];
      WholeOctal(d[1..], 8);
    } else {
      assert d[0..] == d;
      SuffixIs(d, 8, 0);
    }
  }

  lemma PlainHex(d: string)
    requires AllDigits(d, 16) && |d| <= 8
    ensures Parse(d, 16) == Value(Eval(d, 16))
  {
    hide Eval, PrefixLength, Pow;
    assert d[..|d|] == d;
    PrefixIs(d, |d|);
    PowZero(16);
  }

  /** Every unsigned digit string within the bounds is read as ordinary left-to-right evaluation
      reads it, with base 0 choosing the base by the prefix; and the value fits 32 bits. */
  lemma ReadsNumbers(d: string, x: char)
    requires x == 'x' || x == 'X'
    ensures AllDigits(d, 10) && |d| <= 9 ==>
      Parse(d, 10) == Value(Eval(d, 10)) && (d != "" && d[0] != '0' ==> Parse(d, 0) == Value(Eval(d, 10)))
    ensures AllDigits(d, 8) && |d| <= 10 ==>
      Parse(d, 8) == Parse("0" + d, 8) == Parse("0" + d, 0) == Value(Eval(d, 8))
    ensures AllDigits(d, 16) && |d| <= 8 ==>
      && Parse(d, 16) == Parse(['0', x] + d, 16) == Parse(['0', x] + d, 0) == Value(Eval(d, 16))
      && Eval(d, 16) < UINT_SIZE
  {
    if AllDigits(d, 10) && |d| <= 9 {
      WholeDecimal(d);
    }
    if AllDigits(d, 8) && |d| <= 10 {
      PlainOctal(d);
      WholeOctal(d, 8);
      WholeOctal(d, 0);
    }
    if AllDigits(d, 16) && |d| <= 8 {
      PlainHex(d);
      WholeHex(d, x, 16);
      WholeHex(d, x, 0);
      EvalBound(d, 16);
      PowMonotone(16, |d|, 8);
      SixteenToTheEighth();
    }
  }

  /** Decimal or octal digits behind anything else, or behind nothing: only the digits at the end count,
      and more than 9 or 10 of them overflow. */
  lemma DigitsAtTheEnd(front: string, d: string, base: nat)
    requires base == 10 || base == 8
    requires AllDigits(d, base) && (front != "" ==> !IsDigit(front[|front| - 1], base))
    ensures Positional(front + d, base) ==
      if |d| <= (if base == 10 then 9 else 10) then Value(Eval(d, base)) else Undefined
    ensures base == 10 ==> Parse(front + d, 10) == Positional(front + d, 10)
  {
    hide IsDigit, Eval;
    assert (front + d)[|front|..] == d;
    SuffixIs(front + d, base, |front|);
  }

  /** Hexadecimal digits followed by anything else, or by nothing, are read as the number they
      denote exactly if there are none of them, or there are at most 8 characters in all and nothing
      follows or the number is 0. */
  lemma HexTail(d: string, tail: string)
    requires AllDigits(d, 16) && (tail != "" ==> !IsDigit(tail[0], 16))
    ensures ShiftOr(d + tail) == Value(Eval(d, 16)) <==>
      d == "" || (|d + tail| <= 8 && (tail == "" || Eval(d, 16) == 0))
  {
    hide Eval, Pow, PrefixLength, IsDigit;
    var s := d + tail;
    assert s[..|d|] == d;
    PrefixIs(s, |d|);
    PowZero(16);
    EvalNothing(16);
    if tail != "" {
      PowMonotone(16, 1, |tail|);
      PowStep(16, 0);
      ScaledDiffers(Eval(d, 16), Pow(16, |tail|));
    }
  }

  /** The same for `astrtol` itself: after a prefix 0x or 0X, with base 16 or 0, and without a prefix
      with base 16. */
  lemma HexTailParsed(d: string, tail: string, x: char, base: int)
    requires AllDigits(d, 16) && (tail != "" ==> !IsDigit(tail[0], 16))
    requires (x == 'x' || x == 'X') && (base == 16 || base == 0)
    ensures Parse(['0', x] + d + tail, base) == Value(Eval(d, 16)) <==>
      d == "" || (|d + tail| <= 8 && (tail == "" || Eval(d, 16) == 0))
    ensures !HexPrefix(d + tail) ==>
      (Parse(d + tail, 16) == Value(Eval(d, 16)) <==>
        d == "" || (|d + tail| <= 8 && (tail == "" || Eval(d, 16) == 0)))
  {
    hide Eval, ShiftOr, IsDigit, Parse;
    HexTail(d, tail);
    ParsePrefixed(d + tail, x, base);
    assert ['0', x] + d + tail == ['0', x] + (d + tail);
    if !HexPrefix(d + tail) {
      ParsePlain(d + tail);
    }
  }

  lemma ParsePrefixed(s: string, x: char, base: int)
    requires (x == 'x' || x == 'X') && (base == 16 || base == 0)
    ensures Parse(['0', x] + s, base) == ShiftOr(s)
  {
    hide ShiftOr, Positional;
    assert (['0', x] + s)[2..] == s;
  }

  lemma ParsePlain(s: string)
    requires !HexPrefix(s)
    ensures Parse(s, 16) == ShiftOr(s)
  {
    hide ShiftOr, Positional;
  }

  lemma PowZero(b: nat)
    ensures Pow(b, 0) == 1
  {
  }

  lemma ScaledDiffers(e: nat, p: nat)
    requires p >= 16
    ensures e * p == e <==> e == 0
  {
    if e > 0 {
      assert e * p >= e * 16;
    }
  }

  // ----- Writing numbers and reading them back -----

  const DIGITS: string := "0123456789abcdef"
  const CAPITALS: string := "0123456789ABCDEF"

  /** The digits of a base are the first characters of either list, and worth their place in it. */
  lemma DigitsExactly(c: char, base: nat)
    requires base == 8 || base == 10 || base == 16
    ensures IsDigit(c, base) <==> exists i :: 0 <= i < base && (DIGITS[i] == c || CAPITALS[i] == c)
    ensures forall i :: 0 <= i < 16 ==> DigitValue(DIGITS[i]) == i && DigitValue(CAPITALS[i]) == i
  {
    assert IsDigit(c, base) ==> DigitValue(c) < base && (DIGITS[DigitValue(c)] == c || CAPITALS[DigitValue(c)] == c);
  }

  /** A number written in a base, without leading zeros. */
  function Written(n: nat, base: nat): string
    requires 2 <= base <= 16
  {
    if n < base then [DIGITS[n]] else Written(n / base, base) + [DIGITS[n % base]]
  }

  lemma DigitOf(d: nat, base: nat)
    requires d < base && (base == 8 || base == 10 || base == 16)
    ensures IsDigit(DIGITS[d], base) && DigitValue(DIGITS[d]) == d
  {
    DigitsExactly(DIGITS[d], base);
  }

  lemma AppendDigit(s: string, c: char, base: nat)
    requires AllDigits(s, base) && IsDigit(c, base)
    ensures AllDigits(s + [c], base) && Eval(s + [c], base) == Eval(s, base) * base + DigitValue(c)
  {
    hide Eval, IsDigit, DigitValue;
    EvalLast(s, c, base);
  }

  lemma QuotientRemainder(n: nat, base: nat)
    requires base > 0
    ensures n / base * base + n % base == n
  {
  }

  lemma {:induction false} WrittenEval(n: nat, base: nat)
    requires base == 8 || base == 10 || base == 16
    ensures Eval(Written(n, base), base) == n && AllDigits(Written(n, base), base)
    decreases n
  {
    hide Eval, IsDigit, DigitValue, AllDigits;
    if n < base {
      DigitOf(n, base);
      OneDigit(DIGITS[n], base);
    } else {
      WrittenEval(n / base, base);
      DigitOf(n % base, base);
      AppendDigit(Written(n / base, base), DIGITS[n % base], base);
      QuotientRemainder(n, base);
    }
  }

  lemma OneDigit(c: char, base: nat)
    requires IsDigit(c, base)
    ensures AllDigits([c], base) && Eval([c], base) == DigitValue(c)
  {
    hide Eval, IsDigit, DigitValue;
    EvalNothing(base);
    AppendDigit("", c, base);
    assert "" + [c] == [c];
  }

  lemma {:induction false} WrittenLength(n: nat, base: nat, k: nat)
    requires 2 <= base <= 16 && n < Pow(base, k) && k > 0
    ensures |Written(n, base)| <= k
    decreases k
  {
    if n >= base {
      PowStep(base, k - 1);
      PowZero(base);
      assert k > 1;
      QuotientBelow(n, base, Pow(base, k - 1));
      WrittenLength(n / base, base, k - 1);
    }
  }

  lemma QuotientBelow(n: nat, b: nat, p: nat)
    requires b > 0 && n < b * p
    ensures n / b < p
  {
    var q := n / b;
    assert b * q <= n < b * p;
    assert b * (p - q) > 0;
  }

  /** Every number that fits the digits the parser can take, written in hexadecimal, octal or decimal,
      is read back as itself. */
  lemma ReadsBack(n: nat, x: char)
    requires x == 'x' || x == 'X'
    ensures n < 1_000_000_000 ==> Parse(Written(n, 10), 10) == Value(n)
    ensures n < 0x4000_0000 ==> Parse(Written(n, 8), 8) == Parse("0" + Written(n, 8), 0) == Value(n)
    ensures n < UINT_SIZE ==> Parse(Written(n, 16), 16) == Parse(['0', x] + Written(n, 16), 0) == Value(n)
  {
    hide Parse, Eval, Written, Pow;
    DecimalPowers();
    SixteenToTheEighth();
    if n < 1_000_000_000 {
      WrittenEval(n, 10);
      WrittenLength(n, 10, 9);
      ReadsNumbers(Written(n, 10), x);
    }
    if n < 0x4000_0000 {
      WrittenEval(n, 8);
      WrittenLength(n, 8, 10);
      ReadsNumbers(Written(n, 8), x);
    }
    if n < UINT_SIZE {
      WrittenEval(n, 16);
      WrittenLength(n, 16, 8);
      ReadsNumbers(Written(n, 16), x);
    }
  }
}
