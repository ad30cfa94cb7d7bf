/** JavaScript's conversion of a string to a number (StringToNumber, section
    7.1.4.1.1 of ECMA-262), as far as `s > null` needs it: the relational
    comparison turns NULL into +0 and the string into a number, so the
    comparison holds exactly when that number is greater than zero.
    A literal's value is kept exact, as a mantissa and a power of ten; only
    the rounding to the double nearest it matters for `> 0`, and `Positive`
    writes that rounding out. */
module JsNumber {
  import opened Common
  import opened Dates

  /** The WhiteSpace and LineTerminator code points StringToNumber trims:
      tab, vertical tab, form feed, space, no-break space, the byte order
      mark, line feed, carriage return, the line and paragraph separators,
      and the other space separators (category Zs). */
  predicate IsJsSpace(c: char) {
    || c == '\t' || c == '\U{000B}' || c == '\U{000C}' || c == ' ' || c == '\U{00A0}' || c == '\U{FEFF}'
    || c == '\n' || c == '\r' || c == '\U{2028}' || c == '\U{2029}'
    || c == '\U{1680}' || ('\U{2000}' <= c <= '\U{200A}') || c == '\U{202F}' || c == '\U{205F}' || c == '\U{3000}'
  }

  predicate AllJsSpace(s: string) {
    forall k :: 0 <= k < |s| ==> IsJsSpace(s[k])
  }

  /** The first position at or after `k` that holds no white space. */
  function SpaceEnd(s: string, k: nat): (r: nat)
    requires k <= |s|
    ensures k <= r <= |s|
    ensures forall m :: k <= m < r ==> IsJsSpace(s[m])
    ensures r < |s| ==> !IsJsSpace(s[r])
    decreases |s| - k
  {
    if k < |s| && IsJsSpace(s[k]) then SpaceEnd(s, k + 1) else k
  }

  /** The first position of the run of white space that ends at `k`. */
  function SpaceStart(s: string, k: nat): (r: nat)
    requires k <= |s|
    ensures r <= k
    ensures forall m :: r <= m < k ==> IsJsSpace(s[m])
    ensures r > 0 ==> !IsJsSpace(s[r - 1])
  {
    if k > 0 && IsJsSpace(s[k - 1]) then SpaceStart(s, k - 1) else k
  }

  /** The text with leading white space removed. */
  function TrimStart(s: string): string {
    s[SpaceEnd(s, 0)..]
  }

  /** The text with trailing white space removed. */
  function TrimEnd(s: string): string {
    s[..SpaceStart(s, |s|)]
  }

  function Trim(s: string): string {
    TrimEnd(TrimStart(s))
  }

  /** The exact value of a numeric literal: NaN when the text is not one,
      an infinity, or plus or minus `mantissa` times ten to the `exponent`. */
  datatype Num = NaN | Infinite(negative: bool) | Finite(negative: bool, mantissa: nat, exponent: int)

  function Pow2(k: nat): (p: nat)
    ensures p >= 1
  {
    if k == 0 then 1 else 2 * Pow2(k - 1)
  }

  /** 2^-UnderflowBits is half the least positive subnormal double. */
  const UnderflowBits: nat := 1075

  /** The comparison `n > 0` on the double nearest `n`. A positive value
      rounds to zero when it is at most 2^-1075, half the least subnormal
      double (the tie goes to the even neighbour, zero), so it compares
      greater than zero only when mantissa * 10^exponent * 2^1075 > 1. */
  predicate Positive(n: Num) {
    match n
    case NaN => false
    case Infinite(negative) => !negative
    case Finite(negative, m, e) => !negative && m > 0 && (e >= 0 || m * Pow2(UnderflowBits) > Pow10(-e))
  }

  // ---------------------------------------------------------------------------
  // The grammar

  /** The radix a `0x`, `0o` or `0b` prefix announces, or 0 for none. */
  function Radix(c: char): (r: nat)
    ensures r in {0, 2, 8, 16}
  {
    if c == 'x' || c == 'X' then 16 else if c == 'o' || c == 'O' then 8
    else if c == 'b' || c == 'B' then 2 else 0
  }

  /** The value of a digit in base 16 (letters either case), or 16 for a
      character that is no digit at all. */
  function HexVal(c: char): (v: nat)
    ensures v <= 16
  {
    if IsDigit(c) then DigitVal(c)
    else if 'a' <= c <= 'f' then c as int - 'a' as int + 10
    else if 'A' <= c <= 'F' then c as int - 'A' as int + 10
    else 16
  }

  predicate AllRadixDigits(s: string, radix: nat) {
    forall k :: 0 <= k < |s| ==> HexVal(s[k]) < radix
  }

  function RadixVal(s: string, radix: nat): (v: nat)
    requires AllRadixDigits(s, radix)
  {
    if s == [] then 0 else RadixVal(s[..|s| - 1], radix) * radix + HexVal(s[|s| - 1])
  }

  /** NonDecimalIntegerLiteral: the digits after the prefix, at least one,
      all in the radix; no sign is allowed. */
  function NonDecimal(digits: string, radix: nat): (n: Num)
    ensures n.Finite? ==> !n.negative && n.exponent == 0
  {
    if digits != [] && AllRadixDigits(digits, radix) then Finite(false, RadixVal(digits, radix), 0) else NaN
  }

  /** SignedInteger of an exponent part: an optional sign, then one or more
      decimal digits. */
  function SignedInteger(s: string): (r: Option<int>)
    ensures r.Some? <==> s != [] && ((s[0] == '+' || s[0] == '-') ==> |s| > 1 && AllDigits(s[1..]))
                                   && (!(s[0] == '+' || s[0] == '-') ==> AllDigits(s))
  {
    if s != [] && (s[0] == '+' || s[0] == '-') then
      if |s| > 1 && AllDigits(s[1..]) then Some(if s[0] == '-' then -DigitsVal(s[1..]) else DigitsVal(s[1..]))
      else None
    else if s != [] && AllDigits(s) then Some(DigitsVal(s))
    else None
  }

  /** StrUnsignedDecimalLiteral: `Infinity`, or digits with an optional
      fraction (at least one digit on either side of the point) and an
      optional exponent. */
  function UnsignedDecimal(t: string, negative: bool): (n: Num)
    ensures n.Finite? || n.Infinite? ==> n.negative == negative
    ensures n.Infinite? <==> t == "Infinity"
  {
    if t == "Infinity" then Infinite(negative)
    else
      var i := SkipDigits(t, 0);
      var f := if i < |t| && t[i] == '.' then i + 1 else i;
      var j := SkipDigits(t, f);
      var digits := t[..i] + t[f..j];
      var exp := if j == |t| then Some(0) else if t[j] == 'e' || t[j] == 'E' then SignedInteger(t[j + 1..]) else None;
      if digits == [] || exp.None? then NaN
      else Finite(negative, DigitsVal(digits), exp.value - (j - f))
  }

  /** StringToNumber: white space only gives +0; otherwise the trimmed text
      must be a whole literal, or the result is NaN. */
  function StringToNumber(s: string): (n: Num) {
    var t := Trim(s);
    if t == [] then Finite(false, 0, 0)
    else if |t| >= 2 && t[0] == '0' && Radix(t[1]) != 0 then NonDecimal(t[2..], Radix(t[1]))
    else if t[0] == '+' then UnsignedDecimal(t[1..], false)
    else if t[0] == '-' then UnsignedDecimal(t[1..], true)
    else UnsignedDecimal(t, false)
  }

  /** JavaScript `s > null` for a string `s`. */
  predicate GreaterThanNull(s: string) {
    Positive(StringToNumber(s))
  }

  // ---------------------------------------------------------------------------
  // Properties

  /** Where a run of `n` white-space characters starting at `k` ends,
      `SpaceEnd` stops. */
  lemma {:induction false} SpaceEndRun(t: string, k: nat, n: nat)
    requires k + n <= |t| && forall m :: k <= m < k + n ==> IsJsSpace(t[m])
    requires k + n < |t| ==> !IsJsSpace(t[k + n])
    ensures SpaceEnd(t, k) == k + n
    decreases n
  {
    if n > 0 {
      SpaceEndRun(t, k + 1, n - 1);
    }
  }

  /** Where a run of `n` white-space characters ending at `k` starts,
      `SpaceStart` stops. */
  lemma {:induction false} SpaceStartRun(t: string, k: nat, n: nat)
    requires n <= k <= |t| && forall m :: k - n <= m < k ==> IsJsSpace(t[m])
    requires k - n > 0 ==> !IsJsSpace(t[k - n - 1])
    ensures SpaceStart(t, k) == k - n
    decreases n
  {
    if n > 0 {
      SpaceStartRun(t, k - 1, n - 1);
    }
  }

  lemma TrimStartSpaces(w: string, s: string)
    requires AllJsSpace(w)
    ensures TrimStart(w + s) == TrimStart(s)
  {
    var t := w + s;
    var n := SpaceEnd(s, 0);
    assert forall m :: 0 <= m < |w| ==> t[m] == w[m];
    assert forall m :: |w| <= m < |t| ==> t[m] == s[m - |w|];
    assert forall m :: 0 <= m < |w| + n ==> IsJsSpace(t[m]);
    SpaceEndRun(t, 0, |w| + n);
    assert t[|w| + n..] == s[n..];
  }

  lemma TrimEndSpaces(s: string, w: string)
    requires AllJsSpace(w)
    ensures TrimEnd(s + w) == TrimEnd(s)
  {
    var t := s + w;
    var n := SpaceStart(s, |s|);
    assert forall m :: 0 <= m < |s| ==> t[m] == s[m];
    assert forall m :: |s| <= m < |t| ==> t[m] == w[m - |s|];
    assert forall m :: n <= m < |t| ==> IsJsSpace(t[m]);
    SpaceStartRun(t, |t|, |t| - n);
    assert t[..n] == s[..n];
  }

  lemma TrimStartAppend(s: string, w: string)
    requires TrimStart(s) != []
    ensures TrimStart(s + w) == TrimStart(s) + w
  {
    var t := s + w;
    var n := SpaceEnd(s, 0);
    assert forall m :: 0 <= m < |s| ==> t[m] == s[m];
    SpaceEndRun(t, 0, n);
    assert t[n..] == s[n..] + w;
  }

  /** A text with no white space at either end trims to itself. */
  lemma NoTrim(t: string)
    requires t != [] && !IsJsSpace(t[0]) && !IsJsSpace(t[|t| - 1])
    ensures Trim(t) == t
  {
    assert TrimStart(t) == t;
    assert TrimEnd(t) == t;
  }

  /** White space around a text does not change what it trims to. */
  lemma TrimPadding(w1: string, s: string, w2: string)
    requires AllJsSpace(w1) && AllJsSpace(w2)
    ensures Trim(w1 + s + w2) == Trim(s)
  {
    assert w1 + s + w2 == w1 + (s + w2);
    TrimStartSpaces(w1, s + w2);
    if TrimStart(s) == [] {
      assert AllJsSpace(s);
      TrimStartSpaces(s, w2);
      TrimStartSpaces(w2, []);
      assert w2 + [] == w2;
    } else {
      TrimStartAppend(s, w2);
      TrimEndSpaces(TrimStart(s), w2);
    }
  }

  /** So the number a text denotes ignores white space around it. */
  lemma PaddingIgnored(w1: string, s: string, w2: string)
    requires AllJsSpace(w1) && AllJsSpace(w2)
    ensures StringToNumber(w1 + s + w2) == StringToNumber(s)
  {
    TrimPadding(w1, s, w2);
  }

  lemma {:induction false} DigitsValZero(s: string)
    requires AllDigits(s)
    ensures DigitsVal(s) == 0 <==> forall k :: 0 <= k < |s| ==> s[k] == '0'
  {
    if s != [] {
      var p := s[..|s| - 1];
      DigitsValZero(p);
      assert forall k :: 0 <= k < |p| ==> p[k] == s[k];
    }
  }

  /** A run of decimal digits reads as the integer it spells. */
  lemma DigitStringValue(s: string)
    requires s != [] && AllDigits(s)
    ensures StringToNumber(s) == Finite(false, DigitsVal(s), 0)
  {
    TrimDigits(s);
    assert |s| >= 2 ==> Radix(s[1]) == 0 by { if |s| >= 2 { assert IsDigit(s[1]); } }
    UnsignedDigits(s);
  }

  lemma TrimDigits(s: string)
    requires s != [] && AllDigits(s)
    ensures Trim(s) == s
  {
    assert IsDigit(s[0]) && IsDigit(s[|s| - 1]);
    NoTrim(s);
  }

  lemma UnsignedDigits(s: string)
    requires s != [] && AllDigits(s)
    ensures UnsignedDecimal(s, false) == Finite(false, DigitsVal(s), 0)
  {
    assert s != "Infinity" by { assert IsDigit(s[0]); }
    var i := SkipDigits(s, 0);
    assert i == |s|;
    assert SkipDigits(s, i) == |s|;
    assert s[..i] + s[i..i] == s;
  }

  /** So a run of digits is greater than NULL exactly when some digit is
      not 0: the comparison the model used before dates could carry a
      sign, a fraction, an exponent or white space. */
  lemma DigitStringGreater(s: string)
    requires s != [] && AllDigits(s)
    ensures GreaterThanNull(s) <==> exists k :: 0 <= k < |s| && s[k] != '0'
  {
    DigitStringValue(s);
    DigitsValZero(s);
  }

  /** A leading minus sign makes every literal compare not greater than NULL. */
  lemma MinusNeverGreater(t: string)
    requires t != [] && !IsJsSpace(t[|t| - 1])
    ensures !GreaterThanNull("-" + t)
  {
    var s := "-" + t;
    assert s[0] == '-' && s[|s| - 1] == t[|t| - 1];
    NoTrim(s);
  }

  /** A positive mantissa with an exponent of at least -268 never rounds to
      zero: 10^268 < 16^268 = 2^1072. */
  lemma SmallExponentsPositive(m: nat, e: int)
    requires m > 0 && e >= -268
    ensures Positive(Finite(false, m, e))
  {
    if e < 0 {
      PowersOrdered(-e);
      Pow2Grows(4 * -e, UnderflowBits);
      MulAbove(m, Pow2(UnderflowBits), Pow10(-e));
    }
  }

  /** A value at most 10^-k rounds to zero once 3k >= 1075 (so from
      k = 359 on): 2^1075 <= 2^3k = 8^k < 10^k. */
  lemma TinyValuesVanish(m: nat, e: int, k: nat)
    requires 3 * k >= UnderflowBits
    requires e < 0 && m * Pow10(k) <= Pow10(-e)
    ensures !Positive(Finite(false, m, e))
  {
    EightPowers(k);
    Pow2Grows(UnderflowBits, 3 * k);
    MulMonotone(m, Pow2(UnderflowBits), Pow10(k));
  }

  lemma MulAbove(m: nat, p: nat, x: nat)
    requires m > 0 && x < p
    ensures m * p > x
  {
  }

  lemma MulMonotone(m: nat, a: nat, b: nat)
    requires a <= b
    ensures m * a <= m * b
  {
  }

  lemma MulMonotoneLeft(a: nat, b: nat, m: nat)
    requires a <= b
    ensures a * m <= b * m
  {
  }

  lemma {:induction false} PowersOrdered(k: nat)
    ensures k > 0 ==> Pow10(k) < Pow2(4 * k)
    ensures Pow10(k) <= Pow2(4 * k)
  {
    if k > 0 {
      PowersOrdered(k - 1);
      Pow2Add(4, 4 * (k - 1));
    }
  }

  lemma {:induction false} EightPowers(k: nat)
    ensures Pow2(3 * k) <= Pow10(k)
  {
    if k > 0 {
      EightPowers(k - 1);
      Pow2Add(3, 3 * (k - 1));
    }
  }

  lemma {:induction false} Pow2Add(a: nat, b: nat)
    ensures Pow2(a + b) == Pow2(a) * Pow2(b)
  {
    if a > 0 {
      Pow2Add(a - 1, b);
    }
  }

  lemma {:induction false} Pow10Add(a: nat, b: nat)
    ensures Pow10(a + b) == Pow10(a) * Pow10(b)
  {
    if a > 0 {
      Pow10Add(a - 1, b);
    }
  }

  lemma {:induction false} Pow2Grows(a: nat, b: nat)
    requires a <= b
    ensures Pow2(a) <= Pow2(b)
  {
    if a < b {
      Pow2Grows(a, b - 1);
    }
  }

  lemma {:induction false} Pow10Grows(a: nat, b: nat)
    requires a <= b
    ensures Pow10(a) <= Pow10(b)
  {
    if a < b {
      Pow10Grows(a, b - 1);
    }
  }

  /** Where a run of `n` digits starting at `k` ends, `SkipDigits` stops. */
  lemma {:induction false} SkipDigitsRun(t: string, k: nat, n: nat)
    requires k + n <= |t| && forall m :: k <= m < k + n ==> IsDigit(t[m])
    requires k + n < |t| ==> !IsDigit(t[k + n])
    ensures SkipDigits(t, k) == k + n
    decreases n
  {
    if n > 0 {
      SkipDigitsRun(t, k + 1, n - 1);
    }
  }

  lemma CutAround(a: string, m: string, b: string)
    requires |m| == 1
    ensures (a + m + b)[..|a|] == a && (a + m + b)[|a| + 1..] == b
    ensures (a + m + b)[..|a|] + (a + m + b)[|a| + 1..] == a + b
  {
    var t := a + m + b;
    assert t[..|a|] == a;
    assert t[|a| + 1..] == b;
  }

  /** Digits, a decimal point and digits read as all the digits scaled
      down by the number of fraction digits. */
  lemma FractionValue(t: string, i: nat)
    requires 0 < i < |t| && t[i] == '.' && AllDigits(t[..i]) && AllDigits(t[i + 1..])
    ensures UnsignedDecimal(t, false) == Finite(false, DigitsVal(t[..i] + t[i + 1..]), i + 1 - |t|)
  {
    assert IsDigit(t[..i][0]);
    assert t != "Infinity";
    assert forall k :: 0 <= k < i ==> IsDigit(t[..i][k]);
    SkipDigitsRun(t, 0, i);
    forall k | i + 1 <= k < |t| ensures IsDigit(t[k]) {
      assert t[k] == t[i + 1..][k - i - 1];
    }
    SkipDigitsRun(t, i + 1, |t| - i - 1);
    assert t[i + 1..|t|] == t[i + 1..];
  }

  /** Digits followed by an exponent part read as the digits times ten to
      the exponent. */
  lemma ExponentValue(t: string, i: nat)
    requires 0 < i < |t| && t[i] == 'e' && AllDigits(t[..i]) && SignedInteger(t[i + 1..]).Some?
    ensures UnsignedDecimal(t, false) == Finite(false, DigitsVal(t[..i]), SignedInteger(t[i + 1..]).value)
  {
    assert IsDigit(t[..i][0]);
    assert t != "Infinity";
    assert forall k :: 0 <= k < i ==> IsDigit(t[..i][k]);
    SkipDigitsRun(t, 0, i);
    assert t[..i] + t[i..i] == t[..i];
  }

  /** A text that starts like an unsigned literal and ends in no white
      space is read by the unsigned-decimal grammar. */
  lemma UnsignedLiteral(t: string)
    requires t != [] && (IsDigit(t[0]) || t[0] == '.' || t[0] == 'I') && !IsJsSpace(t[|t| - 1])
    requires !(|t| >= 2 && t[0] == '0' && Radix(t[1]) != 0)
    ensures StringToNumber(t) == UnsignedDecimal(t, false)
  {
    assert !IsJsSpace(t[0]);
    NoTrim(t);
  }

  /** A sign in front of such a literal is read by the same grammar, with
      the sign recorded. */
  lemma SignedLiteral(c: char, t: string)
    requires (c == '+' || c == '-') && t != [] && !IsJsSpace(t[|t| - 1])
    ensures StringToNumber([c] + t) == UnsignedDecimal(t, c == '-')
  {
    var s := [c] + t;
    assert s[0] == c && s[|s| - 1] == t[|t| - 1];
    NoTrim(s);
    assert s[1..] == t;
  }

  // ---------------------------------------------------------------------------
  // Dates compared with NULL

  /** A decimal fraction with some non-zero digit and at most 268 fraction
      digits is greater than NULL ("1.5"). */
  lemma FractionAboveNull(a: string, b: string)
    requires a != [] && AllDigits(a) && AllDigits(b) && |b| <= 268
    requires exists k :: 0 <= k < |a + b| && (a + b)[k] != '0'
    ensures GreaterThanNull(a + "." + b)
  {
    var t := a + "." + b;
    assert t[0] == a[0] && IsDigit(t[0]);
    assert |t| >= 2 ==> Radix(t[1]) == 0 by {
      if |a| >= 2 { assert t[1] == a[1] && IsDigit(t[1]); } else { assert t[1] == '.'; }
    }
    assert !IsJsSpace(t[|t| - 1]) by {
      if b != [] { assert t[|t| - 1] == b[|b| - 1] && IsDigit(t[|t| - 1]); } else { assert t[|t| - 1] == '.'; }
    }
    UnsignedLiteral(t);
    CutAround(a, ".", b);
    FractionValue(t, |a|);
    DigitsValZero(a + b);
    SmallExponentsPositive(DigitsVal(a + b), -|b|);
  }

  /** A run of digits with some non-zero digit is greater than NULL, with
      white space around it (" 7"), or a plus sign before it ("+5"). */
  lemma PaddedDigitsAboveNull(w1: string, d: string, w2: string)
    requires AllJsSpace(w1) && AllJsSpace(w2)
    requires d != [] && AllDigits(d) && exists k :: 0 <= k < |d| && d[k] != '0'
    ensures GreaterThanNull(w1 + d + w2)
  {
    PaddingIgnored(w1, d, w2);
    DigitStringGreater(d);
  }

  lemma PlusDigitsAboveNull(d: string)
    requires d != [] && AllDigits(d) && exists k :: 0 <= k < |d| && d[k] != '0'
    ensures GreaterThanNull("+" + d)
  {
    assert !IsJsSpace(d[|d| - 1]) by { assert IsDigit(d[|d| - 1]); }
    SignedLiteral('+', d);
    UnsignedDigits(d);
    DigitsValZero(d);
  }

  /** Digits times a power of ten, with some non-zero digit and an exponent
      of at least -268, are greater than NULL ("1e3"). */
  lemma ExponentAboveNull(a: string, x: string)
    requires a != [] && AllDigits(a) && exists k :: 0 <= k < |a| && a[k] != '0'
    requires SignedInteger(x).Some? && SignedInteger(x).value >= -268
    ensures GreaterThanNull(a + "e" + x)
  {
    ExponentLiteral(a, x);
    DigitsValZero(a);
    SmallExponentsPositive(DigitsVal(a), SignedInteger(x).value);
  }

  /** Digits times a power of ten at most 10^-k over the digits' own
      magnitude round to zero once 3k >= 1075 ("1e-400", with k = 359). */
  lemma TinyExponentNotAboveNull(a: string, x: string, k: nat)
    requires a != [] && AllDigits(a) && 3 * k >= UnderflowBits
    requires SignedInteger(x).Some? && SignedInteger(x).value <= -(k + |a|)
    ensures !GreaterThanNull(a + "e" + x)
  {
    ExponentLiteral(a, x);
    TinyMantissa(DigitsVal(a), |a|, SignedInteger(x).value, k);
  }

  lemma TinyMantissa(m: nat, n: nat, e: int, k: nat)
    requires m < Pow10(n) && 3 * k >= UnderflowBits && e <= -(k + n)
    ensures !Positive(Finite(false, m, e))
  {
    Pow10Add(n, k);
    Pow10Grows(n + k, -e);
    MulMonotoneLeft(m, Pow10(n), Pow10(k));
    TinyValuesVanish(m, e, k);
  }

  lemma ExponentLiteral(a: string, x: string)
    requires a != [] && AllDigits(a) && SignedInteger(x).Some?
    ensures StringToNumber(a + "e" + x) == Finite(false, DigitsVal(a), SignedInteger(x).value)
  {
    var t := a + "e" + x;
    assert t[0] == a[0] && IsDigit(t[0]);
    assert |t| >= 2 ==> Radix(t[1]) == 0 by {
      if |a| >= 2 { assert t[1] == a[1] && IsDigit(t[1]); } else { assert t[1] == 'e'; }
    }
    assert t[|t| - 1] == x[|x| - 1] && IsDigit(x[|x| - 1]);
    UnsignedLiteral(t);
    CutAround(a, "e", x);
    ExponentValue(t, |a|);
  }

  /** Digits followed by a character that can neither start a fraction nor
      an exponent are no number at all, so ISO dates ("2024-01-15") and
      day-first dates ("15/01/2024") read as NaN. */
  lemma SeparatedDigitsNaN(a: string, c: char, rest: string)
    requires a != [] && AllDigits(a)
    requires !IsDigit(c) && c != '.' && c != 'e' && c != 'E' && Radix(c) == 0
    requires rest == [] || !IsJsSpace(rest[|rest| - 1])
    requires rest == [] ==> !IsJsSpace(c)
    ensures StringToNumber(a + [c] + rest) == NaN
  {
    var t := a + [c] + rest;
    assert t[0] == a[0] && IsDigit(t[0]);
    assert |t| >= 2 ==> Radix(t[1]) == 0 by {
      if |a| >= 2 { assert t[1] == a[1] && IsDigit(t[1]); } else { assert t[1] == c; }
    }
    assert !IsJsSpace(t[|t| - 1]) by {
      if rest != [] { assert t[|t| - 1] == rest[|rest| - 1]; } else { assert t[|t| - 1] == c; }
    }
    UnsignedLiteral(t);
    SeparatedDigitsNoLiteral(a, c, rest);
  }

  lemma SeparatedDigitsNoLiteral(a: string, c: char, rest: string)
    requires a != [] && AllDigits(a)
    requires !IsDigit(c) && c != '.' && c != 'e' && c != 'E'
    ensures UnsignedDecimal(a + [c] + rest, false) == NaN
  {
    var t := a + [c] + rest;
    assert t != "Infinity" by { assert t[0] == a[0] && IsDigit(t[0]); }
    assert forall k :: 0 <= k < |a| ==> t[k] == a[k];
    assert t[|a|] == c;
    SkipDigitsRun(t, 0, |a|);
  }

  /** So such dates are not greater than NULL. */
  lemma SeparatedDigitsNotAboveNull(a: string, c: char, rest: string)
    requires a != [] && AllDigits(a)
    requires !IsDigit(c) && c != '.' && c != 'e' && c != 'E' && Radix(c) == 0
    requires rest == [] || !IsJsSpace(rest[|rest| - 1])
    requires rest == [] ==> !IsJsSpace(c)
    ensures !GreaterThanNull(a + [c] + rest)
  {
    SeparatedDigitsNaN(a, c, rest);
  }

  /** `0x`, `0o` and `0b` literals with some non-zero digit are greater
      than NULL ("0x1F"). */
  lemma NonDecimalAboveNull(c: char, ds: string)
    requires Radix(c) != 0 && ds != [] && AllRadixDigits(ds, Radix(c))
    requires exists k :: 0 <= k < |ds| && HexVal(ds[k]) != 0
    ensures GreaterThanNull("0" + [c] + ds)
  {
    NonDecimalLiteral(c, ds);
    RadixValZero(ds, Radix(c));
  }

  lemma NonDecimalLiteral(c: char, ds: string)
    requires Radix(c) != 0 && ds != [] && AllRadixDigits(ds, Radix(c))
    ensures StringToNumber("0" + [c] + ds) == Finite(false, RadixVal(ds, Radix(c)), 0)
  {
    var t := "0" + [c] + ds;
    assert t[0] == '0' && t[1] == c && t[2..] == ds;
    var last := t[|t| - 1];
    assert last == ds[|ds| - 1] && HexVal(last) < 16;
    assert IsDigit(last) || 'a' <= last <= 'f' || 'A' <= last <= 'F';
    NoTrim(t);
  }

  lemma {:induction false} RadixValZero(s: string, radix: nat)
    requires AllRadixDigits(s, radix)
    ensures RadixVal(s, radix) == 0 <==> forall k :: 0 <= k < |s| ==> HexVal(s[k]) == 0
  {
    if s != [] {
      var p := s[..|s| - 1];
      var last := HexVal(s[|s| - 1]);
      assert forall k :: 0 <= k < |p| ==> p[k] == s[k];
      RadixValZero(p, radix);
      ProductZero(RadixVal(p, radix), radix);
      assert RadixVal(s, radix) == RadixVal(p, radix) * radix + last;
      if RadixVal(s, radix) == 0 {
        forall k | 0 <= k < |s|
          ensures HexVal(s[k]) == 0
        {
          if k < |p| {
            assert s[k] == p[k];
          }
        }
      }
    }
  }

  lemma ProductZero(x: nat, y: nat)
    requires y > 0
    ensures x * y == 0 <==> x == 0
  {
    if x > 0 {
      MulAbove(x, y, 0);
    }
  }

  /** `Infinity` reads as an infinity with the sign in front of it, so it
      is greater than NULL exactly without a minus sign. */
  lemma InfinityLiteral(sign: string)
    requires sign == "" || sign == "+" || sign == "-"
    ensures StringToNumber(sign + "Infinity") == Infinite(sign == "-")
    ensures GreaterThanNull(sign + "Infinity") <==> sign != "-"
  {
    var inf := "Infinity";
    assert inf[|inf| - 1] == 'y' && inf[0] == 'I';
    if sign == "" {
      assert sign + inf == inf;
      UnsignedLiteral(inf);
    } else {
      SignedLiteral(sign[0], inf);
      assert sign == [sign[0]];
    }
  }
}
