/** The parts of Go's `strconv`, `fmt` and `strings` packages, and of Go's
    integer division, that the workload generators rely on. Strings are
    sequences of characters, one character per byte (every string the
    generators build is ASCII). */
module GoLib {

  function Pow(base: nat, k: nat): (p: nat)
    ensures p >= 1 || base == 0
  {
    if k == 0 then 1 else base * Pow(base, k - 1)
  }

  function Max0(x: int): nat {
    if x < 0 then 0 else x
  }

  function Min(x: int, y: int): int {
    if x <= y then x else y
  }

  // ---------------------------------------------------------------------
  // Digits (strconv's digit alphabet: 0-9, then letters of either case)

  predicate IsDecimalDigit(c: char) {
    '0' <= c <= '9'
  }

  predicate IsLowerHex(c: char) {
    '0' <= c <= '9' || 'a' <= c <= 'f'
  }

  predicate AllLowerHex(s: string) {
    forall i :: 0 <= i < |s| ==> IsLowerHex(s[i])
  }

  /** The value strconv gives the digit `c`; 36 (valid in no base) for any
      character that is not a digit or an ASCII letter. */
  function DigitValue(c: char): (v: nat)
    ensures v <= 36
    ensures IsDecimalDigit(c) ==> v < 10
    ensures IsLowerHex(c) ==> v < 16
  {
    if '0' <= c <= '9' then c as int - '0' as int
    else if 'a' <= c <= 'z' then c as int - 'a' as int + 10
    else if 'A' <= c <= 'Z' then c as int - 'A' as int + 10
    else 36
  }

  predicate AllDigits(s: string, base: nat) {
    forall i :: 0 <= i < |s| ==> DigitValue(s[i]) < base
  }

  /** The value of a string of digits in `base`, most significant first. */
  function DigitsValue(s: string, base: nat): (v: nat)
    requires 2 <= base <= 36
    requires AllDigits(s, base)
    ensures v < Pow(base, |s|)
    decreases |s|
  {
    if |s| == 0 then 0
    else
      var init := s[..|s| - 1];
      assert forall i :: 0 <= i < |init| ==> init[i] == s[i];
      var h := DigitsValue(init, base);
      var d := DigitValue(s[|s| - 1]);
      ShiftBound(h, d, base, Pow(base, |s| - 1));
      h * base + d
  }

  lemma PowStep(base: nat, k: nat)
    requires 2 <= base
    ensures Pow(base, k) < Pow(base, k + 1)
    ensures Pow(base, 1) == base
  {
    var p := Pow(base, k);
    assert Pow(base, k + 1) == base * p;
    assert base * p == p + (base - 1) * p;
  }

  /** Appending a digit to a number below `p` gives a number below `p * base`. */
  lemma ShiftBound(h: nat, d: nat, base: nat, p: nat)
    requires h < p && d < base
    ensures 0 <= h * base + d < base * p
  {
    assert (p - h - 1) * base >= 0;
    assert p * base - (h + 1) * base == (p - h - 1) * base;
  }

  /** Leading zeros do not change the value of a digit string. */
  lemma {:induction false} LeadingZeros(z: nat, s: string, base: nat)
    requires 2 <= base <= 36
    requires AllDigits(s, base)
    ensures AllDigits(Zeros(z) + s, base)
    ensures DigitsValue(Zeros(z) + s, base) == DigitsValue(s, base)
    decreases |s|
  {
    var t := Zeros(z) + s;
    assert forall i :: 0 <= i < |t| ==> t[i] == '0' || t[i] == s[i - z];
    if |s| == 0 {
      assert t == Zeros(z);
      ZerosValue(z, base);
    } else {
      var s' := s[..|s| - 1];
      assert t[..|t| - 1] == Zeros(z) + s';
      LeadingZeros(z, s', base);
    }
  }

  lemma {:induction false} ZerosValue(z: nat, base: nat)
    requires 2 <= base <= 36
    ensures AllDigits(Zeros(z), base)
    ensures DigitsValue(Zeros(z), base) == 0
  {
    if z > 0 {
      assert Zeros(z)[..z - 1] == Zeros(z - 1);
      ZerosValue(z - 1, base);
      assert DigitsValue(Zeros(z), base) == DigitsValue(Zeros(z - 1), base) * base + DigitValue('0');
    }
  }

  // ---------------------------------------------------------------------
  // Formatting: strconv.FormatInt(n, 10), strconv.Itoa(n), fmt "%0Nd"

  function DigitChar(d: nat): (c: char)
    requires d < 10
    ensures IsDecimalDigit(c) && DigitValue(c) == d
  {
    "0123456789"[d]
  }

  /** Decimal digits of `n`, no leading zero. */
  function FormatNat(n: nat): (s: string)
    ensures 1 <= |s|
    ensures forall i :: 0 <= i < |s| ==> IsDecimalDigit(s[i])
    ensures |s| > 1 ==> s[0] != '0'
    decreases n
  {
    if n < 10 then [DigitChar(n)] else FormatNat(n / 10) + [DigitChar(n % 10)]
  }

  /** Reading back what FormatNat wrote gives the number. */
  lemma {:induction false} FormatNatValue(n: nat)
    ensures AllDigits(FormatNat(n), 10)
    ensures DigitsValue(FormatNat(n), 10) == n
    decreases n
  {
    var s := FormatNat(n);
    if n >= 10 {
      FormatNatValue(n / 10);
      assert s[..|s| - 1] == FormatNat(n / 10);
    }
  }

  /** Numbers below 10^k take at most k digits. */
  lemma {:induction false} FormatNatLength(n: nat, k: nat)
    requires 1 <= k
    requires n < Pow(10, k)
    ensures |FormatNat(n)| <= k
    decreases k
  {
    if n >= 10 {
      assert k > 1;
      assert n / 10 < Pow(10, k - 1);
      FormatNatLength(n / 10, k - 1);
    }
  }

  lemma FormatNatInjective(m: nat, n: nat)
    ensures FormatNat(m) == FormatNat(n) ==> m == n
  {
    FormatNatValue(m);
    FormatNatValue(n);
  }

  /** strconv.FormatInt(n, 10), which strconv.Itoa also is: a minus sign
      for negative numbers, then the decimal digits. */
  function FormatInt(n: int): (s: string)
    ensures 1 <= |s|
    ensures s[0] == '-' <==> n < 0
    ensures n >= 0 ==> s == FormatNat(n)
    ensures n < 0 ==> s[1..] == FormatNat(-n)
  {
    if n < 0 then "-" + FormatNat(-n) else FormatNat(n)
  }

  lemma FormatIntInjective(m: int, n: int)
    ensures FormatInt(m) == FormatInt(n) ==> m == n
  {
    if FormatInt(m) == FormatInt(n) {
      if m < 0 {
        FormatNatInjective(-m, -n);
      } else {
        FormatNatInjective(m, n);
      }
    }
  }

  function Zeros(k: nat): (s: string)
    ensures |s| == k
    ensures forall i :: 0 <= i < k ==> s[i] == '0'
  {
    if k == 0 then "" else Zeros(k - 1) + "0"
  }

  /** `digits` after as many zeros as it takes to reach `width` characters. */
  function ZeroPad(digits: string, width: int): string {
    Zeros(Max0(width - |digits|)) + digits
  }

  /** fmt.Sprintf("%0<width>d", n): the sign counts towards the width and
      the zeros go between the sign and the digits; a number wider than
      `width` is not cut. */
  function SprintfZeroPadded(n: int, width: nat): (s: string)
  {
    if n < 0 then "-" + ZeroPad(FormatNat(-n), width - 1) else ZeroPad(FormatNat(n), width)
  }

  /** Padding a digit string to a width it fits in gives exactly `width`
      digits with the same value. */
  lemma ZeroPadValue(digits: string, width: nat)
    requires AllDigits(digits, 10)
    requires |digits| <= width
    ensures |ZeroPad(digits, width)| == width
    ensures AllDigits(ZeroPad(digits, width), 10)
    ensures DigitsValue(ZeroPad(digits, width), 10) == DigitsValue(digits, 10)
  {
    LeadingZeros(width - |digits|, digits, 10);
  }

  /** Below 10^width, the padded form is exactly `width` decimal digits
      whose value is `n`. */
  lemma ZeroPaddedValue(n: nat, width: nat)
    requires 1 <= width
    requires n < Pow(10, width)
    ensures |SprintfZeroPadded(n, width)| == width
    ensures AllDigits(SprintfZeroPadded(n, width), 10)
    ensures DigitsValue(SprintfZeroPadded(n, width), 10) == n
  {
    var digits := FormatNat(n);
    assert SprintfZeroPadded(n, width) == ZeroPad(digits, width);
    FormatNatLength(n, width);
    FormatNatValue(n);
    ZeroPadValue(digits, width);
  }

  // ---------------------------------------------------------------------
  // Parsing: the value part of strconv.ParseInt(s, base, 0)

  /** strconv.ParseInt(s, base, 0) with its error ignored, as blurr
      does: an optional sign, then at least one digit of `base`; a syntax
      error yields 0. The 64-bit range clamp is not modelled (the model
      never parses more than four digits). */
  function ParseInt(s: string, base: nat): (v: int)
    requires 2 <= base <= 36
    ensures -(Pow(base, |s|) as int) < v < Pow(base, |s|)
    ensures |s| == 1 ==> 0 <= v < base
    ensures 0 < |s| && AllDigits(s, base) ==> v == DigitsValue(s, base)
    ensures 0 < |s| && s[0] != '+' && s[0] != '-' && !AllDigits(s, base) ==> v == 0
  {
    if |s| == 0 then 0
    else if s[0] == '+' || s[0] == '-' then
      var t := s[1..];
      if |t| > 0 && AllDigits(t, base) then
        var u: int := DigitsValue(t, base);
        PowStep(base, |t|);
        if s[0] == '-' then -u else u
      else 0
    else if AllDigits(s, base) then
      PowStep(base, 0);
      DigitsValue(s, base)
    else 0
  }

  /** The signed forms: a leading '+' or '-' followed by valid digits gives
      their value with that sign; a sign with nothing valid after it is a
      syntax error, which reads as 0. */
  lemma ParseIntSigned(s: string, base: nat)
    requires 2 <= base <= 36
    requires 0 < |s| && (s[0] == '+' || s[0] == '-')
    ensures 1 < |s| && AllDigits(s[1..], base) && s[0] == '+' ==> ParseInt(s, base) == DigitsValue(s[1..], base)
    ensures 1 < |s| && AllDigits(s[1..], base) && s[0] == '-' ==> ParseInt(s, base) == -(DigitsValue(s[1..], base) as int)
    ensures (|s| == 1 || !AllDigits(s[1..], base)) ==> ParseInt(s, base) == 0
  {
  }

  /** math.Max on two ordinary numbers. */
  function MaxReal(x: real, y: real): (m: real)
    ensures m >= x && m >= y && (m == x || m == y)
  {
    if x >= y then x else y
  }

  // ---------------------------------------------------------------------
  // Go's integer division truncates toward zero

  function Abs(x: int): nat {
    if x < 0 then -x else x
  }

  /** Go's `a / b`: the quotient rounded toward zero. */
  function GoDiv(a: int, b: int): int
    requires b != 0
  {
    if a >= 0 && b > 0 then a / b
    else if a < 0 && b < 0 then (-a) / (-b)
    else if a < 0 then -((-a) / b)
    else -(a / (-b))
  }

  /** Go's `a % b`: the remainder that goes with GoDiv, which has the sign
      of `a` (so `-1 % n == -1` for every `n > 1`). */
  function GoRem(a: int, b: int): (r: int)
    requires b != 0
    ensures a == GoDiv(a, b) * b + r
    ensures Abs(r) < Abs(b)
    ensures r != 0 ==> (r < 0 <==> a < 0)
  {
    TruncatedDivision(a, b);
    var m: int := Abs(a) % Abs(b);
    if a < 0 then -m else m
  }

  /** The truncated quotient and the remainder of the same sign as the
      dividend reassemble the dividend. */
  lemma TruncatedDivision(a: int, b: int)
    requires b != 0
    ensures a == GoDiv(a, b) * b + (if a < 0 then -(Abs(a) % Abs(b)) else Abs(a) % Abs(b))
  {
    var n: nat := Abs(a);
    var d: nat := Abs(b);
    var q: int := n / d;
    var m: int := n % d;
    assert n == q * d + m;
    assert GoDiv(a, b) == if (a < 0) == (b < 0) then q else -q;
    assert q * b == if b < 0 then -(q * d) else q * d;
    assert -q * b == -(q * b);
  }

  // ---------------------------------------------------------------------
  // strings.Index(s, string(c))

  /** Position of the first `c` in `s`, or -1 when there is none. */
  function Index(s: string, c: char): (i: int)
    ensures -1 <= i < |s|
    ensures i == -1 <==> c !in s
    ensures 0 <= i ==> s[i] == c && c !in s[..i]
    decreases |s|
  {
    if |s| == 0 then -1
    else if s[0] == c then 0
    else
      var k := Index(s[1..], c);
      if k < 0 then -1
      else
        assert s[..k + 1] == [s[0]] + s[1..][..k];
        k + 1
  }
}
