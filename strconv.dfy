/** The part of Go's `strconv` the rate limiter relies on:
    `ParseInt(s, 10, 64)`. Configuration loading discards its error, so
    there what matters is the value it returns alongside the error: 0 after
    a syntax error, and the nearest int64 bound after a range error.
    go-redis's `Int64()` reports the error instead. */
module Strconv {
  import opened Wrappers
  import opened GoNum

  datatype NumError = ErrSyntax | ErrRange

  /** What `ParseUint` returns: a value and, possibly, an error. */
  datatype UintResult = UintResult(n: nat, err: Option<NumError>)

  predicate IsDigit(c: char)
  {
    '0' <= c <= '9'
  }

  function DigitValue(c: char): nat
    requires IsDigit(c)
  {
    (c as int) - ('0' as int)
  }

  /** `ParseUint`'s guard against `n * 10` overflowing 64 bits. */
  const Cutoff: int := MaxUint64 / 10 + 1

  /** The digit loop of `ParseUint` for base 10 and 64 bits, continuing from
      the accumulator `acc`. A non-digit is a syntax error; the first digit
      that takes the value past `MaxUint64` stops the scan with a range error
      and the value `MaxUint64`, whatever follows. */
  function ParseDigits(s: string, acc: nat): (r: UintResult)
    requires acc <= MaxUint64
    ensures r.n <= MaxUint64
    ensures r.err == Some(ErrSyntax) ==> r.n == 0
    ensures r.err == Some(ErrRange) ==> r.n == MaxUint64
  {
    if s == [] then UintResult(acc, None)
    else if !IsDigit(s[0]) then UintResult(0, Some(ErrSyntax))
    else if acc >= Cutoff then UintResult(MaxUint64, Some(ErrRange))
    else
      var next := acc * 10 + DigitValue(s[0]);
      if next > MaxUint64 then UintResult(MaxUint64, Some(ErrRange))
      else ParseDigits(s[1..], next)
  }

  /** `strconv.ParseUint(s, 10, 64)`: the empty string is a syntax error. */
  function ParseUint(s: string): UintResult
  {
    if s == [] then UintResult(0, Some(ErrSyntax)) else ParseDigits(s, 0)
  }

  /** `s` without one leading `+` or `-`. */
  function Unsigned(s: string): string
  {
    if s != [] && (s[0] == '+' || s[0] == '-') then s[1..] else s
  }

  /** The value `strconv.ParseInt(s, 10, 64)` returns, its error ignored. */
  function ParseInt(s: string): (i: int)
    ensures MinInt64 <= i <= MaxInt64
  {
    if s == [] then 0
    else
      var neg := s[0] == '-';
      var u := ParseUint(Unsigned(s));
      if u.err == Some(ErrSyntax) then 0
      else if !neg && u.n >= -MinInt64 then MaxInt64
      else if neg && u.n > -MinInt64 then MinInt64
      else if neg then -(u.n as int)
      else u.n
  }

  /** The error `strconv.ParseInt(s, 10, 64)` returns alongside its value:
      a syntax error for an empty string or a non-digit, a range error for
      a literal outside the int64 range. */
  function ParseIntError(s: string): (r: Option<NumError>)
    ensures r.None? ==> IsDecimalLiteral(s)
    ensures r == Some(ErrSyntax) ==> ParseInt(s) == 0
    ensures r == Some(ErrRange) ==> ParseInt(s) == MaxInt64 || ParseInt(s) == MinInt64
  {
    DigitsAccepted(Unsigned(s), 0);
    if s == [] then Some(ErrSyntax)
    else
      var neg := s[0] == '-';
      var u := ParseUint(Unsigned(s));
      if u.err.Some? then u.err
      else if !neg && u.n >= -MinInt64 then Some(ErrRange)
      else if neg && u.n > -MinInt64 then Some(ErrRange)
      else None
  }

  /** A scan that ends without error has read only digits. */
  lemma {:induction false} DigitsAccepted(s: string, acc: nat)
    requires acc <= MaxUint64
    ensures ParseDigits(s, acc).err.None? ==> forall k :: 0 <= k < |s| ==> IsDigit(s[k])
    decreases |s|
  {
    if s != [] && IsDigit(s[0]) && acc < Cutoff && acc * 10 + DigitValue(s[0]) <= MaxUint64 {
      DigitsAccepted(s[1..], acc * 10 + DigitValue(s[0]));
      if ParseDigits(s, acc).err.None? {
        forall k | 0 <= k < |s|
          ensures IsDigit(s[k])
        {
          if k > 0 {
            assert s[k] == s[1..][k - 1];
          }
        }
      }
    }
  }

  /** An optional sign followed by one or more decimal digits. */
  ghost predicate IsDecimalLiteral(s: string)
  {
    var d := Unsigned(s);
    d != [] && forall k :: 0 <= k < |d| ==> IsDigit(d[k])
  }

  function DigitChar(d: nat): (c: char)
    requires d < 10
    ensures IsDigit(c) && DigitValue(c) == d
  {
    ('0' as int + d) as char
  }

  /** The decimal digits of `n`, most significant first, as
      `strconv.FormatInt(n, 10)` writes them. */
  function Decimal(n: nat): (s: string)
    ensures s != [] && forall k :: 0 <= k < |s| ==> IsDigit(s[k])
  {
    if n < 10 then [DigitChar(n)] else Decimal(n / 10) + [DigitChar(n % 10)]
  }

  function FormatInt(i: int): (s: string)
    ensures s != [] && (s[0] == '-' || IsDigit(s[0]))
  {
    if i < 0 then "-" + Decimal(-i) else Decimal(i)
  }

  /** The value of the digits `s` read after `acc`, without any bound. */
  function Accumulate(s: string, acc: nat): nat
    requires forall k :: 0 <= k < |s| ==> IsDigit(s[k])
  {
    if s == [] then acc else Accumulate(s[1..], acc * 10 + DigitValue(s[0]))
  }

  lemma {:induction false} AccumulateAtLeast(s: string, acc: nat)
    requires forall k :: 0 <= k < |s| ==> IsDigit(s[k])
    ensures Accumulate(s, acc) >= acc
    ensures s != [] ==> Accumulate(s, acc) >= acc * 10 + DigitValue(s[0])
    decreases |s|
  {
    if s != [] {
      AccumulateAtLeast(s[1..], acc * 10 + DigitValue(s[0]));
    }
  }

  lemma {:induction false} AccumulateAppend(s: string, c: char, acc: nat)
    requires forall k :: 0 <= k < |s| ==> IsDigit(s[k])
    requires IsDigit(c)
    ensures Accumulate(s + [c], acc) == Accumulate(s, acc) * 10 + DigitValue(c)
    decreases |s|
  {
    if s == [] {
      assert s + [c] == [c];
    } else {
      assert (s + [c])[1..] == s[1..] + [c];
      AccumulateAppend(s[1..], c, acc * 10 + DigitValue(s[0]));
    }
  }

  lemma {:induction false} AccumulateDecimal(n: nat)
    ensures Accumulate(Decimal(n), 0) == n
  {
    if n >= 10 {
      AccumulateDecimal(n / 10);
      AccumulateAppend(Decimal(n / 10), DigitChar(n % 10), 0);
    }
  }

  /** Digits whose value fits in 64 bits parse to that value without error. */
  lemma {:induction false} ParseDigitsExact(s: string, acc: nat)
    requires forall k :: 0 <= k < |s| ==> IsDigit(s[k])
    requires Accumulate(s, acc) <= MaxUint64
    ensures acc <= MaxUint64
    ensures ParseDigits(s, acc) == UintResult(Accumulate(s, acc), None)
    decreases |s|
  {
    AccumulateAtLeast(s, acc);
    if s != [] {
      var next := acc * 10 + DigitValue(s[0]);
      AccumulateAtLeast(s[1..], next);
      ParseDigitsExact(s[1..], next);
    }
  }

  /** Digits whose value does not fit in 64 bits are a range error. */
  lemma {:induction false} ParseDigitsOverflow(s: string, acc: nat)
    requires forall k :: 0 <= k < |s| ==> IsDigit(s[k])
    requires acc <= MaxUint64 < Accumulate(s, acc)
    ensures ParseDigits(s, acc) == UintResult(MaxUint64, Some(ErrRange))
    decreases |s|
  {
    if s != [] && acc < Cutoff {
      var next := acc * 10 + DigitValue(s[0]);
      if next <= MaxUint64 {
        ParseDigitsOverflow(s[1..], next);
      }
    }
  }

  /** Round trip: every int64 written in decimal parses back to itself. */
  lemma ParseFormatRoundTrip(i: int)
    requires MinInt64 <= i <= MaxInt64
    ensures ParseInt(FormatInt(i)) == i
    ensures ParseIntError(FormatInt(i)) == None
  {
    var m: nat := if i < 0 then -i else i;
    var s := FormatInt(i);
    AccumulateDecimal(m);
    ParseDigitsExact(Decimal(m), 0);
    if i < 0 {
      assert s[0] == '-' && Unsigned(s) == Decimal(m);
    } else {
      assert Unsigned(s) == Decimal(m);
    }
  }

  /** A decimal literal beyond the int64 range is a range error whose
      value is the nearest bound. */
  lemma OutOfRangeClamps(n: nat)
    requires n > MaxInt64
    ensures ParseInt(Decimal(n)) == MaxInt64
    ensures ParseIntError(Decimal(n)) == Some(ErrRange)
    ensures n > -MinInt64 ==> ParseInt("-" + Decimal(n)) == MinInt64
    ensures n > -MinInt64 ==> ParseIntError("-" + Decimal(n)) == Some(ErrRange)
  {
    AccumulateDecimal(n);
    var neg := "-" + Decimal(n);
    assert Unsigned(Decimal(n)) == Decimal(n);
    assert neg[0] == '-' && Unsigned(neg) == Decimal(n);
    if n <= MaxUint64 {
      ParseDigitsExact(Decimal(n), 0);
    } else {
      ParseDigitsOverflow(Decimal(n), 0);
    }
  }

  function Pow10(k: nat): (p: nat)
    ensures p >= 1
  {
    if k == 0 then 1 else 10 * Pow10(k - 1)
  }

  lemma Pow10Eighteen()
    ensures Pow10(17) == 100_000_000_000_000_000
    ensures Pow10(18) == 1_000_000_000_000_000_000
  {
    assert Pow10(4) == 10_000;
    assert Pow10(8) == 100_000_000;
    assert Pow10(12) == 1_000_000_000_000;
    assert Pow10(16) == 10_000_000_000_000_000;
  }

  lemma {:induction false} Pow10Monotone(j: nat, k: nat)
    requires j <= k
    ensures Pow10(j) <= Pow10(k)
    decreases k
  {
    if j < k {
      Pow10Monotone(j, k - 1);
    }
  }

  /** A non-digit within the first 19 characters is reached before the
      accumulator can overflow, so the scan ends in a syntax error. */
  lemma {:induction false} NonDigitIsSyntaxError(s: string, acc: nat, k: nat)
    requires acc < Pow10(k) && k + |s| <= 19
    requires exists i :: 0 <= i < |s| && !IsDigit(s[i])
    ensures acc <= MaxUint64
    ensures ParseDigits(s, acc).err == Some(ErrSyntax)
    decreases |s|
  {
    var i :| 0 <= i < |s| && !IsDigit(s[i]);
    if IsDigit(s[0]) {
      assert i > 0 && !IsDigit(s[1..][i - 1]);
      SmallStep(acc, k, DigitValue(s[0]));
      NonDigitIsSyntaxError(s[1..], acc * 10 + DigitValue(s[0]), k + 1);
    } else {
      Pow10Monotone(k, 18);
      Pow10Eighteen();
    }
  }

  /** Below 10^17 neither the cutoff nor the uint64 range is reached. */
  lemma SmallStep(acc: nat, k: nat, d: nat)
    requires acc < Pow10(k) && k <= 17 && d <= 9
    ensures acc < Cutoff && acc * 10 + d <= MaxUint64
    ensures acc * 10 + d < Pow10(k + 1)
  {
    Pow10Monotone(k, 17);
    Pow10Eighteen();
  }

  /** An environment value that is not a decimal literal (for instance
      unset, hence empty) reads as 0, provided it is short enough that no
      overflow can be detected before the offending character. */
  lemma UnparsableIsZero(s: string)
    requires !IsDecimalLiteral(s) && |s| <= 19
    ensures ParseInt(s) == 0
    ensures ParseIntError(s) == Some(ErrSyntax)
  {
    var d := Unsigned(s);
    if s != [] && d != [] {
      var i :| 0 <= i < |d| && !IsDigit(d[i]);
      NonDigitIsSyntaxError(d, 0, 0);
    }
  }
}
