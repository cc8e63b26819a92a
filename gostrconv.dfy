/**
 * The parts of Go's `strconv` package that the binder calls: ParseBool,
 * and ParseInt / ParseUint with base 0 (so "0x", "0o", "0b" and a leading
 * "0" select the base, and underscores may separate digits). FormatBool,
 * FormatUint and FormatInt are their decimal inverses, used to state the
 * round trips.
 */
module GoStrconv {
  import opened Wrappers

  datatype NumErrorKind = ErrSyntax | ErrRange

  /** strconv.NumError: the function that failed, its input and the reason. */
  datatype NumError = NumError(fn: string, num: string, err: NumErrorKind)

  function Pow2(n: nat): (r: nat)
    ensures r >= 1
  {
    if n == 0 then 1 else 2 * Pow2(n - 1)
  }

  lemma {:induction false} Pow2Grows(m: nat, n: nat)
    requires m <= n
    ensures Pow2(m) <= Pow2(n)
  {
    if m < n {
      Pow2Grows(m, n - 1);
    }
  }

  // ---------------------------------------------------------------- booleans

  const TrueSpellings: set<string> := {"1", "t", "T", "true", "TRUE", "True"}
  const FalseSpellings: set<string> := {"0", "f", "F", "false", "FALSE", "False"}

  /** strconv.ParseBool: exactly six spellings of each truth value. */
  function ParseBool(s: string): (r: Result<bool, NumError>)
    ensures r.Failure? ==> r.error == NumError("ParseBool", s, ErrSyntax)
  {
    if s in TrueSpellings then Success(true)
    else if s in FalseSpellings then Success(false)
    else Failure(NumError("ParseBool", s, ErrSyntax))
  }

  /** strconv.FormatBool. */
  function FormatBool(b: bool): string
  {
    if b then "true" else "false"
  }

  lemma ParseFormatBool(b: bool)
    ensures ParseBool(FormatBool(b)) == Success(b)
  {
  }

  // ------------------------------------------------------ unsigned integers

  /** The value of a digit in bases up to 36; 36 for anything that is not a digit. */
  function DigitValue(c: char): (d: nat)
    ensures d <= 36
  {
    if '0' <= c <= '9' then c as int - '0' as int
    else if 'a' <= c <= 'z' then c as int - 'a' as int + 10
    else if 'A' <= c <= 'Z' then c as int - 'A' as int + 10
    else 36
  }

  /** Go's lower(c) for the letters that select a base. */
  function LowerAscii(c: char): char
  {
    if 'A' <= c <= 'Z' then (c as int + 32) as char else c
  }

  /**
   * Base-0 prefix selection: "0b", "0o", "0x" (at least three characters),
   * otherwise a leading "0" means octal and anything else decimal.
   * Returns the base and the digits that follow the prefix.
   */
  function BasePrefix(s: string): (r: (nat, string))
    requires s != []
    ensures r.0 in {2, 8, 10, 16}
    ensures r.0 == 10 <==> s[0] != '0'
    ensures r.0 == 10 ==> r.1 == s
  {
    if s[0] == '0' then
      if |s| >= 3 && LowerAscii(s[1]) == 'b' then (2, s[2..])
      else if |s| >= 3 && LowerAscii(s[1]) == 'o' then (8, s[2..])
      else if |s| >= 3 && LowerAscii(s[1]) == 'x' then (16, s[2..])
      else (8, s[1..])
    else (10, s)
  }

  /** One more digit: n * base + d, which never shrinks the value. */
  function Shift(n: nat, base: nat, d: nat): (m: nat)
    requires 1 <= base
    ensures n <= m
  {
    MulGrows(n, base);
    n * base + d
  }

  lemma MulGrows(n: nat, base: nat)
    requires 1 <= base
    ensures n <= n * base
  {
    assert n * base == n + n * (base - 1);
  }

  /**
   * The digit loop of ParseUint, left to right: underscores are skipped,
   * a character that is not a digit of the base is a syntax error, and the
   * first digit that takes the value past `maxVal` is a range error.
   */
  function Accumulate(s: string, base: nat, maxVal: nat, n: nat): (r: Result<nat, NumErrorKind>)
    requires 2 <= base
    requires n <= maxVal
    ensures r.Success? ==> n <= r.value <= maxVal
  {
    if s == [] then Success(n)
    else if s[0] == '_' then Accumulate(s[1..], base, maxVal, n)
    else
      var d := DigitValue(s[0]);
      var m := Shift(n, base, d);
      if d >= base then Failure(ErrSyntax)
      else if m > maxVal then Failure(ErrRange)
      else Accumulate(s[1..], base, maxVal, m)
  }

  /** Where an underscore may stand: strconv's underscoreOK scanner state. */
  datatype Saw = Start | Digit | Underscore | Other

  function ScanUnderscores(s: string, saw: Saw, hex: bool): bool
  {
    if s == [] then saw != Underscore
    else
      var c := s[0];
      if ('0' <= c <= '9') || (hex && 'a' <= LowerAscii(c) <= 'f') then ScanUnderscores(s[1..], Digit, hex)
      else if c == '_' then saw == Digit && ScanUnderscores(s[1..], Underscore, hex)
      else if saw == Underscore then false
      else ScanUnderscores(s[1..], Other, hex)
  }

  /**
   * strconv's underscoreOK: an underscore must stand between digits, or
   * between a base prefix and a digit.
   */
  function UnderscoreOK(s: string): bool
  {
    var t := if |s| >= 1 && (s[0] == '-' || s[0] == '+') then s[1..] else s;
    if |t| >= 2 && t[0] == '0' && LowerAscii(t[1]) in {'b', 'o', 'x'} then
      ScanUnderscores(t[2..], Digit, LowerAscii(t[1]) == 'x')
    else
      ScanUnderscores(t, Start, false)
  }

  /** strconv.ParseUint(s, 0, bitSize). */
  function ParseUint(s: string, bitSize: nat): (r: Result<nat, NumError>)
    requires 1 <= bitSize <= 64
    ensures r.Success? ==> r.value < Pow2(bitSize)
    ensures r.Failure? ==> r.error.fn == "ParseUint" && r.error.num == s
    ensures s != [] && (s[0] == '-' || s[0] == '+') ==> r == Failure(NumError("ParseUint", s, ErrSyntax))
  {
    if s == [] then Failure(NumError("ParseUint", s, ErrSyntax))
    else
      var (base, digits) := BasePrefix(s);
      match Accumulate(digits, base, Pow2(bitSize) - 1, 0)
      case Failure(k) => Failure(NumError("ParseUint", s, k))
      case Success(n) =>
        if '_' in s && !UnderscoreOK(s) then Failure(NumError("ParseUint", s, ErrSyntax))
        else Success(n)
  }

  /**
   * strconv.ParseInt(s, 0, bitSize): an optional sign, then ParseUint of the
   * rest (whose range error leaves its maximum in play), then the signed
   * range check against 2^(bitSize-1).
   */
  function ParseInt(s: string, bitSize: nat): (r: Result<int, NumError>)
    requires 1 <= bitSize <= 64
    ensures r.Success? ==> -(Pow2(bitSize - 1) as int) <= r.value < Pow2(bitSize - 1)
    ensures r.Failure? ==> r.error.fn == "ParseInt" && r.error.num == s
  {
    if s == [] then Failure(NumError("ParseInt", s, ErrSyntax))
    else
      var neg := s[0] == '-';
      var body := if s[0] == '+' || s[0] == '-' then s[1..] else s;
      var un := ParseUint(body, bitSize);
      if un.Failure? && un.error.err == ErrSyntax then Failure(NumError("ParseInt", s, ErrSyntax))
      else
        var u := if un.Success? then un.value else Pow2(bitSize) - 1;
        var cutoff := Pow2(bitSize - 1);
        if !neg && u >= cutoff then Failure(NumError("ParseInt", s, ErrRange))
        else if neg && u > cutoff then Failure(NumError("ParseInt", s, ErrRange))
        else Success(if neg then -u else u)
  }

  // ------------------------------------------------------ decimal formatting

  function DigitChar(d: nat): (c: char)
    requires d < 10
    ensures DigitValue(c) == d && c != '_'
  {
    ('0' as int + d) as char
  }

  /** strconv.FormatUint(n, 10). */
  function FormatUint(n: nat): (s: string)
    ensures s != [] && '_' !in s
    ensures s[0] == '0' ==> n == 0
    ensures s[0] != '-' && s[0] != '+'
  {
    if n < 10 then [DigitChar(n)] else FormatUint(n / 10) + [DigitChar(n % 10)]
  }

  /** strconv.FormatInt(i, 10). */
  function FormatInt(i: int): string
  {
    if i < 0 then "-" + FormatUint(-i) else FormatUint(i)
  }

  /** Accumulating a concatenation is accumulating its parts one after the other. */
  lemma {:induction false} AccumulateConcat(a: string, b: string, base: nat, maxVal: nat, n: nat)
    requires 2 <= base && n <= maxVal
    ensures Accumulate(a + b, base, maxVal, n) ==
            match Accumulate(a, base, maxVal, n)
            case Success(m) => Accumulate(b, base, maxVal, m)
            case Failure(k) => Failure(k)
  {
    if a != [] {
      assert (a + b)[1..] == a[1..] + b;
      if a[0] == '_' {
        AccumulateConcat(a[1..], b, base, maxVal, n);
      } else {
        var d := DigitValue(a[0]);
        if d < base && Shift(n, base, d) <= maxVal {
          AccumulateConcat(a[1..], b, base, maxVal, Shift(n, base, d));
        }
      }
    } else {
      assert a + b == b;
    }
  }

  /** Decimal digits read back exactly when they fit, and as a range error when they do not. */
  lemma {:induction false} AccumulateFormat(n: nat, maxVal: nat)
    ensures n <= maxVal ==> Accumulate(FormatUint(n), 10, maxVal, 0) == Success(n)
    ensures n > maxVal ==> Accumulate(FormatUint(n), 10, maxVal, 0) == Failure(ErrRange)
  {
    if n < 10 {
      assert FormatUint(n)[1..] == [];
    } else {
      AccumulateFormat(n / 10, maxVal);
      AccumulateConcat(FormatUint(n / 10), [DigitChar(n % 10)], 10, maxVal, 0);
      if n / 10 <= maxVal {
        assert [DigitChar(n % 10)][1..] == [];
      }
    }
  }

  /** ParseUint reads back what FormatUint wrote, exactly when it fits the bit size. */
  lemma ParseFormatUint(n: nat, bitSize: nat)
    requires 1 <= bitSize <= 64
    ensures n < Pow2(bitSize) ==> ParseUint(FormatUint(n), bitSize) == Success(n)
    ensures n >= Pow2(bitSize) ==> ParseUint(FormatUint(n), bitSize) == Failure(NumError("ParseUint", FormatUint(n), ErrRange))
  {
    var s := FormatUint(n);
    AccumulateFormat(n, Pow2(bitSize) - 1);
    if s[0] == '0' {
      assert n == 0 && s == "0";
      assert BasePrefix(s) == (8, "");
    }
  }

  /** ParseInt reads back what FormatInt wrote, exactly when it fits the signed range. */
  lemma ParseFormatInt(i: int, bitSize: nat)
    requires 1 <= bitSize <= 64
    ensures -(Pow2(bitSize - 1) as int) <= i < Pow2(bitSize - 1) ==> ParseInt(FormatInt(i), bitSize) == Success(i)
    ensures i >= Pow2(bitSize - 1) ==>
              ParseInt(FormatInt(i), bitSize) == Failure(NumError("ParseInt", FormatInt(i), ErrRange))

  {
    var u := if i < 0 then -i else i;
    var s := FormatInt(i);
    ParseFormatUint(u, bitSize);
    assert Pow2(bitSize) == 2 * Pow2(bitSize - 1);
    if i < 0 {
      assert s[1..] == FormatUint(u);
    }
  }

  /**
   * A negative value below the signed range is a range error too. (With a
   * 1-bit size strconv clamps instead; the binder only asks for 8 bits or more.)
   */
  lemma ParseFormatIntBelow(i: int, bitSize: nat)
    requires 2 <= bitSize <= 64
    requires i < -(Pow2(bitSize - 1) as int)
    ensures ParseInt(FormatInt(i), bitSize) == Failure(NumError("ParseInt", FormatInt(i), ErrRange))
  {
    var s := FormatInt(i);
    ParseFormatUint(-i, bitSize);
    assert Pow2(bitSize) == 2 * Pow2(bitSize - 1);
    assert Pow2(bitSize - 1) == 2 * Pow2(bitSize - 2);
    assert s[1..] == FormatUint(-i);
  }
}
