/** The parts of Go's `strconv` and `fmt` that the parser and the flag builder use: `ParseInt`
    in base 10 for 64 bits, `ParseFloat` restricted to plain decimal literals, and the `%d` and
    `%.2f` renderings. */
module Strconv {

  import opened Wrappers
  import opened GoStrings

  const TWO_63: int := 0x8000_0000_0000_0000
  const TWO_64: int := 0x1_0000_0000_0000_0000
  const MAX_UINT64: int := TWO_64 - 1

  type uint64 = x: int | 0 <= x < TWO_64
  type int64 = x: int | -TWO_63 <= x < TWO_63

  datatype NumErrorKind = ErrSyntax | ErrRange

  /** `*strconv.NumError`: the function that failed, the input it was given and the cause. */
  datatype NumError = NumError(func: string, num: string, err: NumErrorKind)

  predicate IsDigit(c: char) {
    '0' <= c <= '9'
  }

  predicate AllDigits(s: string) {
    forall k :: 0 <= k < |s| ==> IsDigit(s[k])
  }

  function DigitValue(c: char): nat
    requires IsDigit(c)
  {
    (c as int) - ('0' as int)
  }

  function Digit(d: nat): (c: char)
    requires d < 10
    ensures IsDigit(c) && DigitValue(c) == d
  {
    ('0' as int + d) as char
  }

  /** The value of a string of decimal digits, most significant first. */
  function DigitsValue(s: string): nat
    requires AllDigits(s)
  {
    if s == [] then 0 else DigitsValue(s[..|s| - 1]) * 10 + DigitValue(s[|s| - 1])
  }

  lemma {:induction false} DigitsValueMonotone(s: string, i: nat, j: nat)
    requires AllDigits(s) && i <= j <= |s|
    ensures DigitsValue(s[..i]) <= DigitsValue(s[..j])
    decreases j - i
  {
    if i < j {
      DigitsValueMonotone(s, i, j - 1);
      assert s[..j][..j - 1] == s[..j - 1];
    }
  }

  // ---------------------------------------------------------------- ParseInt

  /** How the digit loop of `strconv.ParseUint(s, 10, 64)` ends. */
  datatype UintScan = Digits(n: uint64) | NotDigit | Overflow

  /** The digit loop of `ParseUint(s, 10, 64)` from position `i`, with `n` accumulated so far:
      it stops at the first character that is not a decimal digit (a syntax error) or at the
      first digit that takes the value past the 64-bit maximum (a range error), whichever
      comes first. */
  function ScanUint(s: string, i: nat, n: uint64): UintScan
    requires i <= |s|
    decreases |s| - i
  {
    if i == |s| then Digits(n)
    else if !IsDigit(s[i]) then NotDigit
    else if n * 10 + DigitValue(s[i]) > MAX_UINT64 then Overflow
    else ScanUint(s, i + 1, n * 10 + DigitValue(s[i]))
  }

  /** `strconv.ParseUint(s, 10, 64)`, reduced to how it ends. */
  function ParseUint(s: string): (r: UintScan)
    ensures r.Digits? <==> s != [] && AllDigits(s) && DigitsValue(s) <= MAX_UINT64
    ensures r.Digits? ==> r.n == DigitsValue(s)
    ensures s != [] && AllDigits(s) && DigitsValue(s) > MAX_UINT64 ==> r.Overflow?
  {
    if s == [] then NotDigit
    else
      assert s[..0] == [];
      ScanUintFrom(s, 0);
      ScanUint(s, 0, 0)
  }

  /** The digit loop, started on a prefix already read, ends as the whole string's value says. */
  lemma {:induction false} ScanUintFrom(s: string, i: nat)
    requires i <= |s| && AllDigits(s[..i]) && DigitsValue(s[..i]) <= MAX_UINT64
    ensures var r := ScanUint(s, i, DigitsValue(s[..i]));
      (r.Digits? <==> AllDigits(s) && DigitsValue(s) <= MAX_UINT64) &&
      (r.Digits? ==> r.n == DigitsValue(s)) &&
      (AllDigits(s) && DigitsValue(s) > MAX_UINT64 ==> r.Overflow?)
    decreases |s| - i
  {
    if i == |s| {
      assert s[..i] == s;
    } else if !IsDigit(s[i]) {
    } else {
      var n := DigitsValue(s[..i]);
      assert s[..i + 1][..i] == s[..i];
      assert AllDigits(s[..i + 1]);
      assert DigitsValue(s[..i + 1]) == n * 10 + DigitValue(s[i]);
      if n * 10 + DigitValue(s[i]) > MAX_UINT64 {
        if AllDigits(s) {
          DigitsValueMonotone(s, i + 1, |s|);
          assert s[..|s|] == s;
        }
      } else {
        ScanUintFrom(s, i + 1);
      }
    }
  }

  /** A base-10 integer literal: an optional sign and at least one digit. */
  predicate IsInteger(s: string) {
    var body := if s != [] && (s[0] == '+' || s[0] == '-') then s[1..] else s;
    body != [] && AllDigits(body)
  }

  function IntegerValue(s: string): int
    requires IsInteger(s)
  {
    if s[0] == '-' then -(DigitsValue(s[1..]) as int)
    else if s[0] == '+' then DigitsValue(s[1..])
    else DigitsValue(s)
  }

  /** `strconv.ParseInt(s, 10, 64)`. On a syntax error the value is 0; on a range error it is
      the nearest 64-bit bound. */
  function ParseInt(s: string): (r: WithError<int64, NumError>)
    ensures r.Ok() <==> IsInteger(s) && -TWO_63 <= IntegerValue(s) < TWO_63
    ensures r.Ok() ==> r.value == IntegerValue(s)
    ensures !r.Ok() ==> r.err.value.func == "ParseInt" && r.err.value.num == s
    ensures !r.Ok() && r.err.value.err == ErrSyntax ==> r.value == 0 && !IsInteger(s)
    ensures !r.Ok() && r.err.value.err == ErrRange ==>
      r.value == (if s != [] && s[0] == '-' then -TWO_63 else TWO_63 - 1)
  {
    if s == [] then WithError(0, Some(NumError("ParseInt", s, ErrSyntax)))
    else
      var neg := s[0] == '-';
      var body := if s[0] == '+' || s[0] == '-' then s[1..] else s;
      var u := ParseUint(body);
      if u.NotDigit? then WithError(0, Some(NumError("ParseInt", s, ErrSyntax)))
      else
        var un := if u.Digits? then u.n else MAX_UINT64;
        if !neg && un >= TWO_63 then WithError(TWO_63 - 1, Some(NumError("ParseInt", s, ErrRange)))
        else if neg && un > TWO_63 then WithError(-TWO_63, Some(NumError("ParseInt", s, ErrRange)))
        else WithError(if neg then -un else un, None)
  }

  // ---------------------------------------------------------------- ParseFloat

  /** A decimal floating-point literal as read: its sign, the value of its integer digits and
      its fraction digits. It stands for the float64 value the literal denotes. */
  datatype Decimal = Decimal(negative: bool, whole: nat, fraction: string)

  /** The float64 zero, which `ParseFloat` returns beside a syntax error. */
  const ZERO := Decimal(false, 0, "")

  /** Conversion of the value to an integer, which truncates toward zero. */
  function Trunc(d: Decimal): int {
    if d.negative then -(d.whole as int) else d.whole
  }

  /** `strconv.ParseFloat(s, 64)` on decimal literals: an optional sign, then digits with an
      optional fraction (`5`, `5.`, `5.25`, `.25`), at least one digit in all. */
  function ParseFloat(s: string): (r: WithError<Decimal, NumError>)
    ensures !r.Ok() ==> r.value == ZERO && r.err == Some(NumError("ParseFloat", s, ErrSyntax))
    ensures (s == [] || s == "." || s == "+" || s == "-") ==> !r.Ok()
    ensures r.Ok() ==> AllDigits(r.value.fraction) && (r.value.negative <==> s[0] == '-')
  {
    var neg := s != [] && s[0] == '-';
    var body := if s != [] && (s[0] == '+' || s[0] == '-') then s[1..] else s;
    var dot := IndexOf(body, '.');
    var intPart := if dot.Some? then body[..dot.value] else body;
    var frac := if dot.Some? then body[dot.value + 1..] else "";
    if (body == [] || body == ".") || !AllDigits(intPart) || !AllDigits(frac) ||
       (intPart == [] && frac == [])
    then WithError(ZERO, Some(NumError("ParseFloat", s, ErrSyntax)))
    else WithError(Decimal(neg, DigitsValue(intPart), frac), None)
  }

  /** The longest run of decimal digits that starts `s`. */
  function DigitRun(s: string): (d: string)
    ensures |d| <= |s| && d == s[..|d|] && AllDigits(d)
    ensures |d| == |s| || !IsDigit(s[|d|])
  {
    if s == [] || !IsDigit(s[0]) then [] else [s[0]] + DigitRun(s[1..])
  }

  /** A literal without its leading sign, if it has one. */
  function Unsigned(s: string): string {
    if s != [] && (s[0] == '+' || s[0] == '-') then s[1..] else s
  }

  /** What follows the integer digits of a literal. */
  function AfterDigits(s: string): string {
    var b := Unsigned(s);
    b[|DigitRun(b)|..]
  }

  /** The decimal literals: an optional sign, integer digits, then nothing or a point followed
      by fraction digits, with at least one digit in all. */
  predicate IsDecimal(s: string) {
    var rest := AfterDigits(s);
    (rest == [] || (rest[0] == '.' && AllDigits(rest[1..]))) &&
    (DigitRun(Unsigned(s)) != [] || |rest| >= 2)
  }

  /** The fraction digits of a decimal literal. */
  function FractionDigits(s: string): string
    requires IsDecimal(s)
  {
    var rest := AfterDigits(s);
    if rest == [] then [] else rest[1..]
  }

  /** A run of digits that ends where `s` ends or before a character that is not a digit is the
      longest one. */
  lemma {:induction false} DigitRunIs(s: string, i: nat)
    requires i <= |s| && AllDigits(s[..i]) && (i == |s| || !IsDigit(s[i]))
    ensures DigitRun(s) == s[..i]
  {
    if i > 0 {
      assert IsDigit(s[..i][0]);
      assert s[1..][..i - 1] == s[1..i];
      assert AllDigits(s[1..i]) by {
        forall k | 0 <= k < i - 1 ensures IsDigit(s[1..i][k]) {
          assert s[1..i][k] == s[..i][k + 1];
        }
      }
      DigitRunIs(s[1..], i - 1);
      assert s[..i] == [s[0]] + s[1..i];
    }
  }

  /** `ParseFloat` accepts exactly the decimal literals, and reads the sign, the value of the
      integer digits and the fraction digits off the literal. */
  lemma ParseFloatMeaning(s: string)
    ensures ParseFloat(s).Ok() <==> IsDecimal(s)
    ensures ParseFloat(s).Ok() ==>
      ParseFloat(s).value ==
        Decimal(s[0] == '-', DigitsValue(DigitRun(Unsigned(s))), FractionDigits(s))
  {
    var b := Unsigned(s);
    var w := DigitRun(b);
    match IndexOf(b, '.')
    case None =>
      if AllDigits(b) {
        DigitRunIs(b, |b|);
        assert b[..|b|] == b;
      } else {
        assert b[|w|] != '.';
      }
    case Some(i) =>
      if AllDigits(b[..i]) {
        DigitRunIs(b, i);
        assert b[i..][1..] == b[i + 1..];
      } else {
        assert |w| < i;
        assert b[|w|] in b[..i];
      }
  }

  // ---------------------------------------------------------------- formatting

  /** `fmt.Sprintf("%d", n)` for a non-negative `n`. */
  function FormatNat(n: nat): (s: string)
    ensures s != [] && AllDigits(s) && DigitsValue(s) == n
    ensures s[0] == '0' ==> n == 0
    ensures n == 0 ==> s == "0"
  {
    if n < 10 then [Digit(n)]
    else
      var s := FormatNat(n / 10) + [Digit(n % 10)];
      assert s[..|s| - 1] == FormatNat(n / 10);
      s
  }

  /** `fmt.Sprintf("%d", n)` */
  function FormatInt(n: int): string {
    if n < 0 then "-" + FormatNat(-n) else FormatNat(n)
  }

  /** `%d` and `ParseInt` are inverse on 64-bit integers. */
  lemma FormatIntParses(n: int64)
    ensures ParseInt(FormatInt(n)) == WithError(n, None)
  {
    var s := FormatInt(n);
    if n < 0 {
      assert s[1..] == FormatNat(-(n as int));
    }
    assert IsInteger(s) && IntegerValue(s) == n;
  }

  /** `%d` of a number reads back through `ParseFloat` as that whole number. */
  lemma FormatNatParsesAsFloat(n: nat)
    ensures ParseFloat(FormatNat(n)) == WithError(Decimal(false, n, ""), None)
  {
    var s := FormatNat(n);
    assert s[0] != '+' && s[0] != '-' && s != ".";
    assert forall k :: 0 <= k < |s| ==> s[k] != '.';
  }

  /** `100 * x` rounded to the nearest integer, halves to even, as `%.2f` rounds. */
  function RoundHundredths(x: real): (c: int)
    ensures -0.5 <= c as real - 100.0 * x <= 0.5
  {
    var y := 100.0 * x;
    var f := y.Floor;
    var frac := y - f as real;
    if frac > 0.5 || (frac == 0.5 && f % 2 == 1) then f + 1 else f
  }

  /** `c / 100` written with exactly two decimals. */
  function Hundredths(c: nat): (s: string)
    ensures s != [] && IsDigit(s[0])
  {
    FormatNat(c / 100) + "." + [Digit(c % 100 / 10), Digit(c % 10)]
  }

  /** `fmt.Sprintf("%.2f", x)` for a finite `x`; the sign follows `x`, so `-0.001` gives `-0.00`. */
  function Fixed2(x: real): (s: string)
    ensures s != [] && (x >= 0.0 ==> IsDigit(s[0]))
  {
    if x < 0.0 then "-" + Hundredths(RoundHundredths(-x)) else Hundredths(RoundHundredths(x))
  }

  /** The number that a decimal literal denotes. */
  function DecimalValue(d: Decimal): real
    requires AllDigits(d.fraction)
  {
    var v := d.whole as real + DigitsValue(d.fraction) as real / Pow10(|d.fraction|) as real;
    if d.negative then -v else v
  }

  function Pow10(k: nat): (p: nat)
    ensures p >= 1
  {
    if k == 0 then 1 else 10 * Pow10(k - 1)
  }

  lemma {:induction false} IndexOfAfterDigits(a: string, b: string)
    requires AllDigits(a)
    ensures IndexOf(a + "." + b, '.') == Some(|a|)
  {
    if a != [] {
      assert (a + "." + b)[1..] == a[1..] + "." + b;
      IndexOfAfterDigits(a[1..], b);
    }
  }

  /** A plain literal `w.f` with digits on both sides reads as itself. */
  lemma ParseFloatPlain(w: string, f: string)
    requires w != [] && AllDigits(w) && AllDigits(f)
    ensures ParseFloat(w + "." + f) == WithError(Decimal(false, DigitsValue(w), f), None)
  {
    var s := w + "." + f;
    IndexOfAfterDigits(w, f);
    assert s[0] == w[0];
    assert s[..|w|] == w;
    assert s[|w| + 1..] == f;
  }

  lemma TwoDigitsValue(c: nat)
    ensures DigitsValue([Digit(c % 100 / 10), Digit(c % 10)]) == c % 100
  {
    var frac := [Digit(c % 100 / 10), Digit(c % 10)];
    assert frac[..1] == [frac[0]] && [frac[0]][..0] == [];
    var q, a := c / 100, c % 100;
    assert c == 100 * q + a;
    assert c % 10 == a % 10 by {
      assert c == 10 * (10 * q + a / 10) + a % 10;
    }
    assert DigitsValue([frac[0]]) == a / 10;
    assert DigitsValue(frac) == DigitsValue([frac[0]]) * 10 + DigitValue(frac[1]);
  }

  /** `c / 100` written with two decimals reads back as exactly that number. */
  lemma HundredthsParses(c: nat)
    ensures var r := ParseFloat(Hundredths(c));
      r.Ok() && |r.value.fraction| == 2 && DecimalValue(r.value) == c as real / 100.0
  {
    var w := FormatNat(c / 100);
    var frac := [Digit(c % 100 / 10), Digit(c % 10)];
    ParseFloatPlain(w, frac);
    TwoDigitsValue(c);
    assert Pow10(2) == 100;
    assert c as real == 100.0 * ((c / 100) as real) + (c % 100) as real;
  }

  /** `%.2f` of a non-negative number reads back through `ParseFloat` as a literal with two
      decimals whose value is within half a hundredth of the number. */
  lemma Fixed2Parses(x: real)
    requires x >= 0.0
    ensures var r := ParseFloat(Fixed2(x));
      r.Ok() && |r.value.fraction| == 2 &&
      -0.005 <= DecimalValue(r.value) - x <= 0.005
  {
    var c := RoundHundredths(x);
    assert 100.0 * x >= 0.0;
    assert c >= 0;
    HundredthsParses(c);
  }
}
