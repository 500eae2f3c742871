/** Go's `strconv.Atoi` and `strconv.Itoa` on a 64-bit platform: base-10
    only, an optional sign, no underscores, no `0x` prefix. */
module Strconv {
  import opened Wrappers

  const MaxInt64: int := 0x7fff_ffff_ffff_ffff
  const MinInt64: int := -0x8000_0000_0000_0000

  /** The `*strconv.NumError` reasons Atoi can report, with the input it was given. */
  datatype NumError = ErrSyntax(num: string) | ErrRange(num: string)

  /** The `(int, error)` pair Atoi returns. */
  datatype AtoiResult = AtoiResult(value: int, err: Option<NumError>)

  predicate IsDigit(c: char) { '0' <= c <= '9' }

  predicate AllDigits(s: string) { forall i :: 0 <= i < |s| ==> IsDigit(s[i]) }

  /** The value of a non-empty run of decimal digits, most significant first. */
  function DigitsValue(s: string): nat
    requires AllDigits(s)
  {
    if s == [] then 0
    else DigitsValue(s[..|s| - 1]) * 10 + (s[|s| - 1] as int - '0' as int)
  }

  /** The text after one optional leading sign. */
  function Unsigned(s: string): string
  {
    if |s| > 0 && (s[0] == '+' || s[0] == '-') then s[1..] else s
  }

  /** An optional sign followed by at least one decimal digit. */
  predicate WellFormed(s: string)
  {
    |Unsigned(s)| > 0 && AllDigits(Unsigned(s))
  }

  /** The integer a well-formed string denotes. */
  function DecimalValue(s: string): int
    requires WellFormed(s)
  {
    var magnitude: int := DigitsValue(Unsigned(s));
    if s[0] == '-' then -magnitude else magnitude
  }

  const MaxUint64: int := 0xffff_ffff_ffff_ffff

  /** The outcome of `ParseUint`'s base-10 scan. */
  datatype Scan = Parsed(n: nat) | BadDigit | Overflow

  /** `ParseUint`'s loop: left to right, it stops at the first character
      that is not a digit, or at the first digit that takes the value past
      the largest `uint64`, whichever comes first. */
  function ScanDecimal(acc: nat, s: string): Scan
    decreases |s|
  {
    if s == [] then Parsed(acc)
    else if !IsDigit(s[0]) then BadDigit
    else
      var n := acc * 10 + (s[0] as int - '0' as int);
      if n > MaxUint64 then Overflow else ScanDecimal(n, s[1..])
  }

  /** The value the scan accumulates when nothing stops it. */
  function Fold(acc: nat, s: string): nat
    requires AllDigits(s)
    decreases |s|
  {
    if s == [] then acc else Fold(acc * 10 + (s[0] as int - '0' as int), s[1..])
  }

  /** `strconv.Atoi(s)` on a 64-bit platform, through `ParseInt(s, 10, 0)`:
      one sign is stripped, the rest is scanned as an unsigned number, and a
      magnitude outside the signed range is clamped to the nearest bound with
      a range error. An overflow found before a non-digit is a range error,
      a non-digit found first a syntax error with value 0. (Inputs of fewer
      than 19 characters take Atoi's fast path, which gives the same results:
      18 digits cannot overflow.) */
  function Atoi(s: string): (r: AtoiResult)
    ensures r.err.None? <==> WellFormed(s) && MinInt64 <= DecimalValue(s) <= MaxInt64
    ensures r.err.None? ==> r.value == DecimalValue(s)
    ensures WellFormed(s) && DecimalValue(s) > MaxInt64 ==> r == AtoiResult(MaxInt64, Some(ErrRange(s)))
    ensures WellFormed(s) && DecimalValue(s) < MinInt64 ==> r == AtoiResult(MinInt64, Some(ErrRange(s)))
    ensures r.err.Some? && r.err.value.ErrSyntax? ==> r.value == 0 && !WellFormed(s)
    ensures r.err.Some? && r.err.value.ErrRange? ==> r.value == MaxInt64 || r.value == MinInt64
    ensures r.err.Some? ==> r.err.value.num == s
  {
    var neg := |s| > 0 && s[0] == '-';
    var digits := Unsigned(s);
    ScanDigits(digits);
    if |digits| == 0 then AtoiResult(0, Some(ErrSyntax(s)))
    else match ScanDecimal(0, digits)
      case BadDigit => AtoiResult(0, Some(ErrSyntax(s)))
      case Overflow =>
        if neg then AtoiResult(MinInt64, Some(ErrRange(s))) else AtoiResult(MaxInt64, Some(ErrRange(s)))
      case Parsed(u) =>
        if !neg && u > MaxInt64 then AtoiResult(MaxInt64, Some(ErrRange(s)))
        else if neg && u > -MinInt64 then AtoiResult(MinInt64, Some(ErrRange(s)))
        else
          var magnitude: int := u;
          AtoiResult(if neg then -magnitude else magnitude, None)
  }

  /** Appending a digit multiplies the accumulated value by ten and adds it. */
  lemma {:induction false} FoldSnoc(acc: nat, s: string, c: char)
    requires AllDigits(s) && IsDigit(c)
    ensures AllDigits(s + [c])
    ensures Fold(acc, s + [c]) == Fold(acc, s) * 10 + (c as int - '0' as int)
    decreases |s|
  {
    assert AllDigits(s + [c]) by {
      assert forall i :: 0 <= i < |s| ==> (s + [c])[i] == s[i];
    }
    if s != [] {
      assert (s + [c])[1..] == s[1..] + [c];
      FoldSnoc(acc * 10 + (s[0] as int - '0' as int), s[1..], c);
    }
  }

  /** The scan's value is the positional value of the digits. */
  lemma {:induction false} FoldIsDigitsValue(s: string)
    requires AllDigits(s)
    ensures Fold(0, s) == DigitsValue(s)
  {
    if s != [] {
      var p := s[..|s| - 1];
      assert s == p + [s[|s| - 1]];
      FoldIsDigitsValue(p);
      FoldSnoc(0, p, s[|s| - 1]);
    }
  }

  /** Accumulating more digits never lowers the value. */
  lemma {:induction false} FoldAtLeast(acc: nat, s: string)
    requires AllDigits(s)
    ensures Fold(acc, s) >= acc
    decreases |s|
  {
    if s != [] {
      FoldAtLeast(acc * 10 + (s[0] as int - '0' as int), s[1..]);
    }
  }

  /** The scan succeeds only on digits, and on digits it yields their value
      exactly when that value fits a `uint64`. */
  lemma {:induction false} ScanSpec(acc: nat, s: string)
    requires acc <= MaxUint64
    ensures ScanDecimal(acc, s).Parsed? ==> AllDigits(s)
    ensures AllDigits(s) ==>
      ScanDecimal(acc, s) == if Fold(acc, s) <= MaxUint64 then Parsed(Fold(acc, s)) else Overflow
    decreases |s|
  {
    if s != [] && IsDigit(s[0]) {
      var n := acc * 10 + (s[0] as int - '0' as int);
      var t := s[1..];
      assert forall i :: 0 <= i < |t| ==> t[i] == s[i + 1];
      if n > MaxUint64 {
        if AllDigits(s) {
          FoldAtLeast(n, t);
        }
      } else {
        ScanSpec(n, t);
      }
    }
  }

  /** The scan from zero, stated with the positional value of the digits. */
  lemma ScanDigits(s: string)
    ensures ScanDecimal(0, s).Parsed? ==> AllDigits(s)
    ensures AllDigits(s) ==>
      ScanDecimal(0, s) == if DigitsValue(s) <= MaxUint64 then Parsed(DigitsValue(s)) else Overflow
  {
    ScanSpec(0, s);
    if AllDigits(s) {
      FoldIsDigitsValue(s);
    }
  }

  function Pow10(k: nat): nat
  {
    if k == 0 then 1 else 10 * Pow10(k - 1)
  }

  lemma {:induction false} Pow10Monotone(j: nat, k: nat)
    requires j <= k
    ensures Pow10(j) <= Pow10(k)
  {
    if j < k {
      Pow10Monotone(j, k - 1);
    }
  }

  /** A non-digit at position `i` stops the scan before any overflow when
      the digits in front of it cannot exceed the largest `uint64`. */
  lemma {:induction false} ScanBadDigit(acc: nat, s: string, i: nat)
    requires i < |s| && !IsDigit(s[i])
    requires (acc + 1) * Pow10(i) <= MaxUint64 + 1
    ensures ScanDecimal(acc, s) == BadDigit
    decreases |s|
  {
    if IsDigit(s[0]) {
      var n := acc * 10 + (s[0] as int - '0' as int);
      assert (acc + 1) * Pow10(i) == (acc + 1) * 10 * Pow10(i - 1);
      Pow10Monotone(0, i - 1);
      assert n + 1 <= (acc + 1) * 10;
      assert (n + 1) * Pow10(i - 1) <= (acc + 1) * 10 * Pow10(i - 1);
      ScanBadDigit(n, s[1..], i - 1);
    }
  }

  /** Any character after the first that is not a decimal digit (an `x` of
      a `0x` prefix, an `_`, a space) within the first 20 characters makes the
      whole string a syntax error: at most 19 digits stand in front of it, too
      few to overflow first. */
  lemma AtoiRejectsNonDigit(s: string, i: nat)
    requires 0 < i < |s| && i < 20 && !IsDigit(s[i])
    ensures Atoi(s) == AtoiResult(0, Some(ErrSyntax(s)))
  {
    var signed := s[0] == '+' || s[0] == '-';
    var digits := Unsigned(s);
    var j := if signed then i - 1 else i;
    assert digits[j] == s[i];
    Pow10Of19();
    Pow10Monotone(j, 19);
    ScanBadDigit(0, digits, j);
  }

  /** Once the digits read so far exceed the largest `uint64`, the scan
      stops with an overflow, whatever follows. */
  lemma {:induction false} ScanOverflow(acc: nat, d: string, rest: string)
    requires acc <= MaxUint64 && AllDigits(d) && Fold(acc, d) > MaxUint64
    ensures ScanDecimal(acc, d + rest) == Overflow
    decreases |d|
  {
    var n := acc * 10 + (d[0] as int - '0' as int);
    if n <= MaxUint64 {
      assert (d + rest)[1..] == d[1..] + rest;
      ScanOverflow(n, d[1..], rest);
    }
  }

  /** A run of digits too large for a `uint64` is a range error even when a
      non-digit follows it: the scan never reaches that character. */
  lemma AtoiOverflowsFirst(d: string, rest: string)
    requires |d| > 0 && AllDigits(d) && DigitsValue(d) > MaxUint64
    ensures Atoi(d + rest) == AtoiResult(MaxInt64, Some(ErrRange(d + rest)))
  {
    assert (d + rest)[0] == d[0];
    assert Unsigned(d + rest) == d + rest;
    FoldIsDigitsValue(d);
    ScanOverflow(0, d, rest);
  }

  /** Ten to the nineteenth, the smallest 20-digit number. */
  lemma Pow10Of19()
    ensures Pow10(19) == 10_000_000_000_000_000_000
  {
    assert Pow10(1) == 10;
    assert Pow10(3) == 1000;
    assert Pow10(5) == 100000;
    assert Pow10(7) == 10_000_000;
    assert Pow10(9) == 1_000_000_000;
    assert Pow10(11) == 100_000_000_000;
    assert Pow10(13) == 10_000_000_000_000;
    assert Pow10(15) == 1_000_000_000_000_000;
    assert Pow10(17) == 100_000_000_000_000_000;
  }

  /** The decimal digits of `n`, without leading zeros. */
  function NatToDecimal(n: nat): (s: string)
    ensures |s| > 0 && AllDigits(s)
  {
    var d := ['0' + (n % 10) as char];
    if n < 10 then d else NatToDecimal(n / 10) + d
  }

  /** `strconv.Itoa(n)`: a leading `-` for negative values, then the digits. */
  function Itoa(n: int): (s: string)
    ensures |s| > 0
  {
    if n < 0 then "-" + NatToDecimal(-n) else NatToDecimal(n)
  }

  lemma {:induction false} DigitsValueOfNatToDecimal(n: nat)
    ensures DigitsValue(NatToDecimal(n)) == n
  {
    var d := ['0' + (n % 10) as char];
    if n >= 10 {
      var s := NatToDecimal(n / 10) + d;
      assert s[..|s| - 1] == NatToDecimal(n / 10);
      DigitsValueOfNatToDecimal(n / 10);
    }
  }

  /** Atoi inverts Itoa on every 64-bit integer. */
  lemma AtoiItoa(n: int)
    requires MinInt64 <= n <= MaxInt64
    ensures Atoi(Itoa(n)) == AtoiResult(n, None)
  {
    var s := Itoa(n);
    if n < 0 {
      DigitsValueOfNatToDecimal(-n);
      assert s[0] == '-' && s[1..] == NatToDecimal(-n);
    } else {
      DigitsValueOfNatToDecimal(n);
      assert IsDigit(s[0]);
    }
    assert WellFormed(s) && DecimalValue(s) == n;
  }
}
