/** The flag by which a death test describes itself to its child process: printed, split and parsed again. */
module DeathTestFlag {
  import opened Common
  import opened TextFields

  const ULLONG_MAX: nat := 0xFFFF_FFFF_FFFF_FFFF
  const INT_LIMIT: int := 0x8000_0000

  predicate FitsInt(n: int) {
    -INT_LIMIT <= n < INT_LIMIT
  }

  predicate IsDigit(c: char) {
    '0' <= c <= '9'
  }

  predicate AllDigits(s: string) {
    forall i | 0 <= i < |s| :: IsDigit(s[i])
  }

  function DigitValue(c: char): (v: nat)
    requires IsDigit(c)
    ensures v < 10
  {
    c as int - '0' as int
  }

  function DigitChar(d: nat): (c: char)
    requires d < 10
    ensures IsDigit(c) && DigitValue(c) == d
  {
    "0123456789"[d]
  }

  // ----- Printing -----

  function DecimalNat(n: nat): string {
    if n < 10 then [DigitChar(n)] else DecimalNat(n / 10) + [DigitChar(n % 10)]
  }

  /** An int as the stream operator prints it. */
  function Decimal(n: int): string {
    if n < 0 then "-" + DecimalNat(-n) else DecimalNat(n)
  }

  /** The number a string of decimal digits denotes. */
  function ValueOf(s: string): nat
    requires AllDigits(s)
  {
    if s == "" then 0 else ValueOf(s[..|s| - 1]) * 10 + DigitValue(s[|s| - 1])
  }

  function Power(base: nat, n: nat): nat {
    if n == 0 then 1 else base * Power(base, n - 1)
  }

  /** Positional notation: the digits before the last |b| count for a power of ten each. */
  lemma {:induction false} ValueOfParts(a: string, b: string)
    requires AllDigits(a) && AllDigits(b)
    ensures AllDigits(a + b) && ValueOf(a + b) == ValueOf(a) * Power(10, |b|) + ValueOf(b)
    decreases |b|
  {
    if b == "" {
      assert a + b == a;
    } else {
      var n := |b| - 1;
      ValueOfParts(a, b[..n]);
      assert (a + b)[..|a + b| - 1] == a + b[..n] && (a + b)[|a + b| - 1] == b[n];
      Tenfold(ValueOf(a), Power(10, n), ValueOf(b[..n]), DigitValue(b[n]));
    }
  }

  lemma {:induction false} Tenfold(v: nat, p: nat, w: nat, d: nat)
    ensures (v * p + w) * 10 + d == v * (10 * p) + (w * 10 + d)
  {
  }

  lemma {:induction false} DigitValues(c: char)
    requires 0x30 <= c as int <= 0x39
    ensures AllDigits([c]) && ValueOf([c]) == c as int - 0x30
  {
    assert [c][..0] == "";
  }

  lemma {:induction false} DecimalNatDenotes(n: nat)
    ensures DecimalNat(n) != "" && AllDigits(DecimalNat(n)) && ValueOf(DecimalNat(n)) == n
    decreases n
  {
    if n >= 10 {
      DecimalNatDenotes(n / 10);
      var s := DecimalNat(n / 10) + [DigitChar(n % 10)];
      assert s[..|s| - 1] == DecimalNat(n / 10);
    } else {
      assert ValueOf([DigitChar(n)][..0]) == 0;
    }
  }

  // ----- Parsing a natural number -----

  function DigitPrefix(s: string): (k: nat)
    ensures k <= |s| && AllDigits(s[..k]) && (k < |s| ==> !IsDigit(s[k]))
  {
    if s == "" || !IsDigit(s[0]) then 0
    else
      var k := DigitPrefix(s[1..]);
      assert s[..k + 1] == [s[0]] + s[1..][..k];
      k + 1
  }

  datatype Converted = Converted(value: nat, inRange: bool, end: nat)

  /** `strtoull` on a string that starts with a digit: the value, saturated, whether it is exact, and where it ends. */
  function Strtoull(s: string): Converted {
    var k := DigitPrefix(s);
    var v := ValueOf(s[..k]);
    if v <= ULLONG_MAX then Converted(v, true, k) else Converted(ULLONG_MAX, false, k)
  }

  /** `static_cast<int>` of an unsigned 64-bit value: the low 32 bits in two's complement. */
  function CastToInt(v: nat): int {
    var low := v % 0x1_0000_0000;
    if low < INT_LIMIT then low else low - 0x1_0000_0000
  }

  /** The cast back to an unsigned 64-bit value. */
  function CastToUll(n: int): int {
    if n >= 0 then n else n + ULLONG_MAX + 1
  }

  /** `ParseNaturalNumber<int>`: `number0` is `*number` on entry, `number` its value on return. */
  method ParseNaturalNumber(str: string, number0: int) returns (ok: bool, number: int)
    ensures ok <==> Accepted(str)
    ensures number == if ok then CastToInt(ValueOf(CString(str))) else number0
  {
    number := number0;
    if str == "" || !IsDigit(str[0]) {
      EmptyCString(str);
      return false, number0;
    }
    var s := CString(str);
    assert s != "" && s[0] == str[0];
    var parsed := Strtoull(s);
    var parseSuccess := At(s, parsed.end) == '\0' && parsed.inRange;
    assert parsed.end == |s| ==> s[..parsed.end] == s;
    var result := CastToInt(parsed.value);
    if parseSuccess && CastToUll(result) == parsed.value {
      CastsAgree(parsed.value);
      return true, result;
    }
    ok := false;
    if AllDigits(s) {
      assert parsed.end == |s|;
      CastsAgree(parsed.value);
    }
  }

  lemma {:induction false} EmptyCString(str: string)
    requires str == "" || !IsDigit(str[0])
    ensures CString(str) == "" || !IsDigit(CString(str)[0])
  {
  }

  /** The numbers that survive the two casts: those that fit, and those that wrap around to a negative int. */
  predicate Survives(v: nat) {
    v < INT_LIMIT || ULLONG_MAX + 1 - INT_LIMIT <= v <= ULLONG_MAX
  }

  lemma {:induction false} CastsAgree(v: nat)
    requires v <= ULLONG_MAX
    ensures CastToUll(CastToInt(v)) == v <==> Survives(v)
  {
  }

  /** What `ParseNaturalNumber<int>` accepts. */
  predicate Accepted(str: string) {
    var s := CString(str);
    s != "" && AllDigits(s) && Survives(ValueOf(s))
  }

  /** Accepted are the decimal numbers below 2^31, and those in the last 2^31 of 64 bits. */
  lemma {:induction false} AcceptedIff(str: string)
    ensures Accepted(str)
       <==> && CString(str) != "" && (forall i | 0 <= i < |CString(str)| :: 0x30 <= CString(str)[i] as int <= 0x39)
            && (|| ValueOf(CString(str)) < 0x8000_0000
                || 0xFFFF_FFFF_8000_0000 <= ValueOf(CString(str)) <= 0xFFFF_FFFF_FFFF_FFFF)
  {
  }

  /**
   * The parsed number is the one written exactly when that number fits in an int. Numbers just below 2^64 do not
   * fit and are accepted all the same, as negative numbers.
   */
  lemma {:induction false} NumberIsWhatIsWrittenIff(str: string)
    requires Accepted(str)
    ensures CastToInt(ValueOf(CString(str))) == ValueOf(CString(str)) <==> ValueOf(CString(str)) < INT_LIMIT
    ensures CastToInt(ValueOf(CString(str))) >= 0 <==> ValueOf(CString(str)) < INT_LIMIT
  {
    WrittenIff(ValueOf(CString(str)));
  }

  lemma {:induction false} WrittenIff(v: nat)
    requires Survives(v)
    ensures CastToInt(v) == v <==> v < INT_LIMIT
    ensures CastToInt(v) >= 0 <==> v < INT_LIMIT
  {
  }

  /** Each of the 2^31 numbers just below 2^64 is parsed as a negative number; 2^64 - 1, for example, as -1. */
  lemma {:induction false} LargeNumbersTurnNegative(v: nat)
    requires ULLONG_MAX + 1 - INT_LIMIT <= v <= ULLONG_MAX
    ensures Accepted(DecimalNat(v)) && CastToInt(ValueOf(CString(DecimalNat(v)))) == v - (ULLONG_MAX + 1) < 0
  {
    DecimalNatDenotes(v);
    DigitsAreClean(DecimalNat(v), '\0');
    WrapsAround(v);
  }

  lemma {:induction false} WrapsAround(v: nat)
    requires ULLONG_MAX + 1 - INT_LIMIT <= v <= ULLONG_MAX
    ensures CastToInt(v) == v - (ULLONG_MAX + 1)
  {
    assert v == 0xFFFF_FFFF * 0x1_0000_0000 + (v - 0xFFFF_FFFF_0000_0000);
  }

  lemma {:induction false} DigitsAreClean(s: string, d: char)
    requires AllDigits(s) && !IsDigit(d)
    ensures d !in s && (d == '\0' ==> CString(s) == s)
  {
  }

  /** Parsing inverts printing on every int that is not negative, and rejects every negative one. */
  lemma {:induction false} ParseInvertsPrint(n: int)
    requires FitsInt(n)
    ensures Accepted(Decimal(n)) <==> n >= 0
    ensures n >= 0 ==> CastToInt(ValueOf(CString(Decimal(n)))) == n
  {
    if n >= 0 {
      DecimalNatDenotes(n);
      DigitsAreClean(DecimalNat(n), '\0');
      WrittenIff(n);
    } else {
      assert Decimal(n)[0] == '-';
      EmptyCString(Decimal(n));
      NotAccepted(Decimal(n));
    }
  }

  lemma {:induction false} NotAccepted(str: string)
    requires CString(str) == "" || !IsDigit(CString(str)[0])
    ensures !Accepted(str)
  {
  }

  // ----- The flag -----

  datatype ParsedFlag = NoFlag | Flag(file: string, line: int, index: int, writeFd: int) | Abort

  /** The flag value `AssumeRole` passes to the child. */
  function FlagText(file: string, line: int, index: int, writeFd: int): string {
    file + "|" + Decimal(line) + "|" + Decimal(index) + "|" + Decimal(writeFd)
  }

  function NumberIn(field: string): int
    requires Accepted(field)
  {
    CastToInt(ValueOf(CString(field)))
  }

  /** What the flag parser makes of the fields of a flag. */
  function FieldsToFlag(fields: seq<string>): ParsedFlag {
    if |fields| == 4 && Accepted(fields[1]) && Accepted(fields[2]) && Accepted(fields[3])
    then Flag(fields[0], NumberIn(fields[1]), NumberIn(fields[2]), NumberIn(fields[3]))
    else Abort
  }

  /** `ParseInternalRunDeathTestFlag`, away from Windows. */
  method ParseInternalRunDeathTestFlag(flag: string) returns (parsed: ParsedFlag)
    ensures parsed == if flag == "" then NoFlag else FieldsToFlag(Split(CString(flag), '|'))
  {
    if flag == "" {
      return NoFlag;
    }
    var line, index, writeFd := -1, -1, -1;
    var fields := SplitString(CString(flag), '|');
    var ok := |fields| == 4;
    if ok {
      ok, line := ParseNaturalNumber(fields[1], line);
    }
    if ok {
      ok, index := ParseNaturalNumber(fields[2], index);
    }
    if ok {
      ok, writeFd := ParseNaturalNumber(fields[3], writeFd);
    }
    if !ok {
      return Abort;
    }
    return Flag(fields[0], line, index, writeFd);
  }

  lemma {:induction false} DecimalIsClean(n: int)
    ensures '|' !in Decimal(n) && '\0' !in Decimal(n)
  {
    DecimalNatDenotes(if n < 0 then -n else n);
    DigitsAreClean(DecimalNat(if n < 0 then -n else n), '|');
    DigitsAreClean(DecimalNat(if n < 0 then -n else n), '\0');
  }

  lemma {:induction false} OccurrencesConcat(a: string, b: string, d: char)
    ensures Occurrences(a + b, d) == Occurrences(a, d) + Occurrences(b, d)
    decreases |a|
  {
    if a == "" {
      assert a + b == b;
    } else {
      assert (a + b)[1..] == a[1..] + b;
      OccurrencesConcat(a[1..], b, d);
    }
  }

  lemma {:induction false} OccurrencesPositive(a: string, d: char)
    ensures Occurrences(a, d) > 0 <==> d in a
    decreases |a|
  {
    if a != "" {
      OccurrencesPositive(a[1..], d);
      assert a == [a[0]] + a[1..];
    }
  }

  /** The flag has the four fields it was built from exactly when the file name has no bar. */
  lemma {:induction false} FlagFields(file: string, line: int, index: int, writeFd: int)
    ensures var fields := Split(FlagText(file, line, index, writeFd), '|');
            if '|' in file then |fields| > 4 else fields == [file, Decimal(line), Decimal(index), Decimal(writeFd)]
  {
    var l, i, w := Decimal(line), Decimal(index), Decimal(writeFd);
    DecimalIsClean(line);
    DecimalIsClean(index);
    DecimalIsClean(writeFd);
    var tail := l + "|" + (i + "|" + w);
    assert FlagText(file, line, index, writeFd) == file + "|" + tail;
    SplitWhole(w, '|');
    SplitFirst(i, '|', w);
    SplitFirst(l, '|', i + "|" + w);
    if '|' in file {
      FieldsAreCounted(file + "|" + tail, '|');
      OccurrencesConcat(file + "|", tail, '|');
      OccurrencesConcat(file, "|", '|');
      FieldsAreCounted(tail, '|');
      OccurrencesPositive(file, '|');
      assert "|"[1..] == "";
    } else {
      SplitFirst(file, '|', tail);
    }
  }

  /**
   * Round trip: the child reads back the file, line, index and descriptor it was given exactly when the file name
   * has no bar and the numbers are not negative. In all other cases the child aborts.
   */
  lemma {:induction false} FlagRoundTripIff(file: string, line: int, index: int, writeFd: int)
    requires NulFree(file) && FitsInt(line) && FitsInt(index) && FitsInt(writeFd)
    ensures var flag := FlagText(file, line, index, writeFd);
            && flag != "" && CString(flag) == flag
            && FieldsToFlag(Split(flag, '|'))
               == if '|' !in file && line >= 0 && index >= 0 && writeFd >= 0 then Flag(file, line, index, writeFd) else Abort
  {
    FlagFields(file, line, index, writeFd);
    DecimalIsClean(line);
    DecimalIsClean(index);
    DecimalIsClean(writeFd);
    ParseInvertsPrint(line);
    ParseInvertsPrint(index);
    ParseInvertsPrint(writeFd);
    assert '\0' !in FlagText(file, line, index, writeFd);
  }
}
