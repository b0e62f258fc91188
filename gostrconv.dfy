/**
 * Go's `strconv.Atoi` on a 64-bit platform, where `int` is 64 bits wide,
 * and `FormatInt`, decimal text, as its inverse. Atoi accepts an optional `+` or `-`
 * followed by one or more decimal digits and fails with a syntax error on
 * anything else (the empty string included) and with a range error when
 * the value does not fit in 64 bits.
 */
module GoStrconv {
  import opened Wrappers

  const MinInt64: int := -0x8000_0000_0000_0000
  const MaxInt64: int := 0x7FFF_FFFF_FFFF_FFFF

  predicate InInt64(n: int)
  {
    MinInt64 <= n <= MaxInt64
  }

  predicate IsDigit(c: char)
  {
    '0' <= c <= '9'
  }

  predicate AllDigits(s: string)
  {
    forall k :: 0 <= k < |s| ==> IsDigit(s[k])
  }

  predicate IsSign(c: char)
  {
    c == '+' || c == '-'
  }

  /** The value of a string of decimal digits, most significant first. */
  function DigitsValue(ds: string): nat
    requires AllDigits(ds)
  {
    if ds == [] then 0
    else DigitsValue(ds[..|ds| - 1]) * 10 + (ds[|ds| - 1] as int - '0' as int)
  }

  datatype NumErrorKind = ErrSyntax | ErrRange

  /** `*strconv.NumError`: the failing function, its input and the reason. */
  datatype NumError = NumError(func: string, num: string, err: NumErrorKind)

  /** `strconv.Atoi`; `AtoiAccepts` and `AtoiFormatInt` say which strings it reads and how. */
  function Atoi(s: string): (r: Result<int, NumError>)
    ensures r.Success? ==> InInt64(r.value)
    ensures r.Failure? ==> r.error.func == "Atoi" && r.error.num == s
    ensures s == [] ==> r.Failure? && r.error.err == ErrSyntax
  {
    var signed := |s| > 0 && IsSign(s[0]);
    var digits := if signed then s[1..] else s;
    if digits == [] || !AllDigits(digits) then
      Failure(NumError("Atoi", s, ErrSyntax))
    else
      var v: int := DigitsValue(digits);
      var n := if signed && s[0] == '-' then -v else v;
      if InInt64(n) then Success(n) else Failure(NumError("Atoi", s, ErrRange))
  }

  function DigitChar(d: nat): (c: char)
    requires d < 10
    ensures IsDigit(c) && c as int - '0' as int == d
  {
    ('0' as int + d) as char
  }

  /** The shortest decimal rendering of `n`. */
  function FormatNat(n: nat): (s: string)
    ensures s != [] && AllDigits(s)
    ensures DigitsValue(s) == n
    ensures |s| > 1 ==> s[0] != '0'
  {
    if n < 10 then [DigitChar(n)]
    else
      var s := FormatNat(n / 10) + [DigitChar(n % 10)];
      assert s[..|s| - 1] == FormatNat(n / 10);
      s
  }

  /**
   * The decimal text of `n`, as `strconv.FormatInt(n, 10)` writes it: the
   * reference inverse of `Atoi` (`main.go` itself never formats integers).
   */
  function FormatInt(n: int): (s: string)
    ensures s != []
  {
    if n < 0 then "-" + FormatNat(-n) else FormatNat(n)
  }

  // The decimal texts of the ports the literal examples of `PortSpec` and
  // `PortResolver` name, a few at a time so that each stays cheap to check.

  lemma Decimal22And80()
    ensures FormatInt(22) == "22" && FormatInt(80) == "80"
  {
  }

  lemma Decimal70000()
    ensures FormatInt(70000) == "70000"
  {
    assert FormatNat(700) == "700";
  }

  lemma Decimal8000s()
    ensures FormatInt(8000) == "8000" && FormatInt(8002) == "8002" && FormatInt(8080) == "8080"
  {
    assert FormatNat(800) == "800";
    assert FormatNat(808) == "808";
  }

  lemma Decimal9000s()
    ensures FormatInt(9000) == "9000" && FormatInt(9090) == "9090" && FormatInt(1433) == "1433"
  {
    assert FormatNat(900) == "900";
    assert FormatNat(909) == "909";
    assert FormatNat(143) == "143";
  }

  /** Atoi reads back every 64-bit integer FormatInt writes, and rejects the wider ones as out of range. */
  lemma AtoiFormatInt(n: int)
    ensures InInt64(n) ==> Atoi(FormatInt(n)) == Success(n)
    ensures !InInt64(n) ==> Atoi(FormatInt(n)) == Failure(NumError("Atoi", FormatInt(n), ErrRange))
  {
    if n < 0 {
      assert FormatInt(n)[1..] == FormatNat(-n);
    }
  }

  /**
   * What Atoi accepts: a sign (optional) and then at least one digit and
   * nothing else; an unsigned string of digits is read as its decimal value.
   */
  lemma AtoiAccepts(s: string)
    ensures Atoi(s).Success? ==> |s| >= 1 && AllDigits(s[1..]) && (IsDigit(s[0]) || (IsSign(s[0]) && |s| >= 2))
    ensures Atoi(s).Success? && !IsSign(s[0]) ==> Atoi(s).value == DigitsValue(s)
    ensures s != [] && AllDigits(s) && DigitsValue(s) <= MaxInt64 ==> Atoi(s) == Success(DigitsValue(s))
  {
  }

  /** An explicit `+` does not change the value. */
  lemma AtoiPlusSign(ds: string)
    requires ds != [] && AllDigits(ds)
    ensures Atoi("+" + ds) == (if DigitsValue(ds) <= MaxInt64 then Success(DigitsValue(ds))
                               else Failure(NumError("Atoi", "+" + ds, ErrRange)))
  {
    assert ("+" + ds)[1..] == ds;
  }
}
