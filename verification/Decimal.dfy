/**
 The integer printer of the configuration handler (backend/internal/systemconfig/systemconfig.go) and the
 parser of the stored values (backend/internal/systemconfig/store.go). Integers are Go's 64-bit int: every
 result is reduced to that range by Wrap.
 */
module Decimal {
  const MODULUS := 0x1_0000_0000_0000_0000
  const MIN_INT := -0x8000_0000_0000_0000
  const MAX_INT := 0x7fff_ffff_ffff_ffff

  predicate InRange(n: int) { MIN_INT <= n <= MAX_INT }

  /** Two's complement: the representative of n in the 64-bit range. */
  function Wrap(n: int): (r: int)
    ensures InRange(r) && (InRange(n) ==> r == n)
  {
    (n - MIN_INT) % MODULUS + MIN_INT
  }

  // ----- numerals

  predicate IsDigit(c: char) { '0' <= c <= '9' }

  function DigitOf(c: char): nat
    requires IsDigit(c)
  {
    (c - '0') as int
  }

  predicate AllDigits(s: string) { forall c <- s :: IsDigit(c) }

  /** The number a digit string denotes, unbounded. */
  function Value(s: string): nat
    requires AllDigits(s)
  {
    if s == "" then 0 else Value(s[..|s| - 1]) * 10 + DigitOf(s[|s| - 1])
  }

  /** An optional sign and at least one digit. */
  predicate IsNumeral(s: string) {
    var body := Body(s);
    body != "" && AllDigits(body)
  }

  function Body(s: string): string { if s != "" && s[0] == '-' then s[1..] else s }

  function SignedValue(s: string): int
    requires IsNumeral(s)
  {
    if s[0] == '-' then 0 - Value(s[1..]) else Value(s)
  }

  // ----- printing

  function DigitChar(d: int): char
    requires 0 <= d < 10
  {
    '0' + d as char
  }

  /** Decimal digits without leading zeros; none for zero and below. */
  function Digits(n: int): string
    decreases n
  {
    if n <= 0 then "" else Digits(n / 10) + [DigitChar(n % 10)]
  }

  /** The digits denote the number. */
  lemma {:induction false} DigitsDenote(n: nat)
    ensures AllDigits(Digits(n)) && Value(Digits(n)) == n && (n > 0 ==> Digits(n) != "")
  {
    if n > 0 {
      DigitsDenote(n / 10);
      assert Digits(n)[..|Digits(n)| - 1] == Digits(n / 10);
    }
  }

  /** What the printer writes: the negation wraps, so the least integer has no digits. */
  function Printed(n: int): string {
    if n == 0 then "0" else if n < 0 then "-" + Digits(Wrap(-n)) else Digits(n)
  }

  function Pow10(k: nat): nat { if k == 0 then 1 else 10 * Pow10(k - 1) }

  lemma {:induction false} DigitsFit(n: int, k: nat)
    requires n < Pow10(k)
    ensures |Digits(n)| <= k
  {
    if n > 0 {
      DigitsFit(n / 10, k - 1);
    }
  }

  /** Writing the last digit in front of what is written leaves the same whole. */
  lemma WriteDigit(n: int, written: string)
    requires n > 0
    ensures Digits(n) + written == Digits(n / 10) + ([DigitChar(n % 10)] + written)
    ensures |Digits(n)| == |Digits(n / 10)| + 1
  {
    hide DigitChar;
    Associates(Digits(n / 10), [DigitChar(n % 10)], written);
  }

  lemma Associates(a: string, b: string, c: string)
    ensures a + b + c == a + (b + c)
  {
  }

  lemma NoDigits(n: int)
    requires n <= 0
    ensures Digits(n) == ""
  {
  }

  lemma AtMostNineteen(n: int)
    requires n <= MAX_INT
    ensures |Digits(n)| <= 19
  {
    assert Pow10(4) == 10_000;
    assert Pow10(8) == 100_000_000;
    assert Pow10(12) == 1_000_000_000_000;
    assert Pow10(16) == 10_000_000_000_000_000;
    DigitsFit(n, 19);
  }

  /** The digit loop: it fills the end of the buffer and leaves room for a sign. */
  method WriteDigits(b: array<char>, value: int) returns (i: nat)
    requires b.Length == 20 && value <= MAX_INT
    modifies b
    ensures 1 <= i <= 20 && b[i..] == Digits(value)
  {
    hide *;
    var n := value;
    i := b.Length;
    AtMostNineteen(value);
    while n > 0
      invariant |Digits(n)| < i <= 20
      invariant Digits(n) + b[i..] == Digits(value)
    {
      WriteDigit(n, b[i..]);
      i := i - 1;
      b[i] := DigitChar(n % 10);
      n := n / 10;
    }
    NoDigits(n);
  }

  /** The write index stays inside the 20 bytes, sign included: every array access is in bounds. */
  method Itoa(value: int) returns (s: string)
    requires InRange(value)
    ensures s == Printed(value)
  {
    hide Digits, Wrap;
    var n := value;
    if n == 0 {
      return "0";
    }
    var neg := n < 0;
    if neg {
      n := Wrap(-n);
    }
    var b := new char[20];
    var i := WriteDigits(b, n);
    ghost var written := b[i..];
    if neg {
      i := i - 1;
      b[i] := '-';
      assert b[i..] == "-" + written;
    }
    s := b[i..];
  }

  // ----- parsing

  /** A numeral's value, wrapped; the default for anything else. */
  function Parsed(s: string, def: int): int {
    if IsNumeral(s) then Wrap(SignedValue(s)) else def
  }

  method AtoiOr(s: string, def: int) returns (r: int)
    requires InRange(def)
    ensures r == Parsed(s, def)
  {
    hide Wrap, Value;
    var n, sign, seen := 0, 1, false;
    NothingRead();
    for i := 0 to |s|
      invariant sign == if i > 0 && s[0] == '-' then -1 else 1
      invariant AllDigits(Body(s[..i])) && n == Wrap(Value(Body(s[..i])))
      invariant seen <==> Body(s[..i]) != ""
    {
      var ch := s[i];
      if i == 0 && ch == '-' {
        sign := -1;
        continue;
      }
      assert Body(s[..i + 1]) == Body(s[..i]) + [ch];
      if ch < '0' || ch > '9' {
        assert Body(s[..i + 1]) <= Body(s);
        assert ch in Body(s);
        return def;
      }
      OneMoreDigit(Body(s[..i]), ch);
      n := Wrap(n * 10 + (ch - '0') as int);
      seen := true;
    }
    assert s[..|s|] == s;
    if !seen {
      return def;
    }
    WrapSign(Value(Body(s)), sign);
    r := Wrap(n * sign);
  }

  lemma NothingRead()
    ensures Wrap(Value("")) == 0
  {
  }

  lemma OneMoreDigit(s: string, c: char)
    requires AllDigits(s) && IsDigit(c)
    ensures AllDigits(s + [c]) && Wrap(Value(s + [c])) == Wrap(Wrap(Value(s)) * 10 + DigitOf(c))
  {
    assert (s + [c])[..|s|] == s;
    WrapStep(Value(s), DigitOf(c));
  }

  /** Wrapping at each digit is the same as wrapping once at the end. */
  lemma WrapStep(v: int, d: int)
    ensures Wrap(Wrap(v) * 10 + d) == Wrap(v * 10 + d)
  {
    var q := -((v - MIN_INT) / MODULUS);
    WrapShift(v * 10 + d, 10 * q);
  }

  lemma WrapSign(v: int, sign: int)
    requires sign == 1 || sign == -1
    ensures Wrap(Wrap(v) * sign) == Wrap(v * sign)
  {
    var q := -((v - MIN_INT) / MODULUS);
    WrapShift(v * sign, q * sign);
  }

  lemma WrapShift(n: int, q: int)
    ensures Wrap(n + MODULUS * q) == Wrap(n)
  {
    ModShift(n - MIN_INT, q, MODULUS);
  }

  lemma ModShift(a: int, q: int, m: int)
    requires m > 0
    ensures (a + m * q) % m == a % m
  {
    var d := (a + m * q) / m - a / m - q;
    assert m * d == a % m - (a + m * q) % m;
    if d >= 1 {
      MulAtLeast(m, d);
    } else if d <= -1 {
      MulAtLeast(m, -d);
    }
  }

  lemma MulAtLeast(m: int, d: int)
    requires m > 0 && d >= 1
    ensures m * d >= m
  {
  }

  // ----- the two together

  /** The least integer prints as a sign alone, which reads back as the default. */
  lemma LeastPrintsBareSign(def: int)
    ensures Printed(MIN_INT) == "-" && Parsed("-", def) == def
  {
    assert Wrap(-MIN_INT) == MIN_INT;
  }

  /** Printing and parsing give the integer back except for the least one, whatever the default. */
  lemma RoundTripIff(n: int, def: int)
    requires InRange(n) && InRange(def)
    ensures Parsed(Printed(n), def) == n <==> n != MIN_INT || def == MIN_INT
  {
    if n == MIN_INT {
      LeastPrintsBareSign(def);
    } else if n < 0 {
      assert Printed(n)[1..] == Digits(-n);
      DigitsDenote(-n);
    } else if n > 0 {
      DigitsDenote(n);
      NoLeadingSign(n);
    } else {
      assert Value("0") == 0 by { assert "0"[..0] == ""; }
    }
  }

  lemma NoLeadingSign(n: int)
    requires n > 0
    ensures IsDigit(Digits(n)[0]) && Body(Digits(n)) == Digits(n)
  {
    DigitsDenote(n);
    assert Digits(n)[0] in Digits(n);
  }

  /** No two integers print alike, the least one included. */
  lemma PrintedIsInjective(a: int, b: int)
    requires InRange(a) && InRange(b) && Printed(a) == Printed(b)
    ensures a == b
  {
    LeastPrintsBareSign(0);
    LeastPrintsBareSign(1);
    hide Parsed, Printed;
    RoundTripIff(a, 0);
    RoundTripIff(b, 0);
    RoundTripIff(a, 1);
    RoundTripIff(b, 1);
  }

  /** Reading a printed integer never overflows: what any prefix of its digits denotes is no larger than the whole. */
  lemma {:induction false} PrefixNeverOverflows(n: int, k: nat)
    requires 0 < n <= MAX_INT && k <= |Digits(n)|
    ensures AllDigits(Digits(n)[..k]) && Value(Digits(n)[..k]) <= n
  {
    hide DigitChar;
    var s := Digits(n);
    DigitsDenote(n);
    if k == |s| {
      assert s[..k] == s;
    } else {
      assert s[..k] == Digits(n / 10)[..k];
      if n / 10 > 0 {
        PrefixNeverOverflows(n / 10, k);
      }
    }
  }

  /** An empty value, a sign alone, and any character out of place all mean the default. */
  lemma DefaultIff(s: string)
    ensures (forall def: int :: Parsed(s, def) == def) <==>
            s == "" || s == "-" || exists i :: 0 <= i < |s| && !('0' <= s[i] <= '9') && !(i == 0 && s[i] == '-')
  {
    var body := Body(s);
    if i :| 0 <= i < |s| && !('0' <= s[i] <= '9') && !(i == 0 && s[i] == '-') {
      assert s[i] in body by {
        assert s[0] == '-' ==> s[i] == body[i - 1];
      }
    } else {
      forall c | c in body ensures IsDigit(c) {
        var k :| 0 <= k < |body| && body[k] == c;
        assert body[k] == s[if s[0] == '-' then k + 1 else k];
      }
      if IsNumeral(s) {
        var v := Wrap(SignedValue(s));
        assert Parsed(s, v + 1) == v;
      }
    }
  }

  /** Zeros in front of a numeral do not count. */
  lemma {:induction false} ZerosInFront(s: string)
    requires AllDigits(s)
    ensures AllDigits("0" + s) && Value("0" + s) == Value(s)
  {
    if s == "" {
      assert "0" + s == "0" && "0"[..0] == "";
    } else {
      var init := s[..|s| - 1];
      ZerosInFront(init);
      assert ("0" + s)[..|s|] == "0" + init;
    }
  }

  /** Beyond the 64-bit range a stored numeral is not rejected but read as another integer. */
  lemma ReadsTrueIff(s: string, def: int)
    requires IsNumeral(s)
    ensures Parsed(s, def) == SignedValue(s) <==> InRange(SignedValue(s))
  {
  }
}
