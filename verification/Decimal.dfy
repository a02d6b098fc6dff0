/** Decimal printing and parsing of integers, as Go's strconv does it for 64-bit integers. */
module Decimal {
  import opened Wrappers

  const MIN_INT64: int := -0x8000_0000_0000_0000
  const MAX_INT64: int := 0x7FFF_FFFF_FFFF_FFFF

  predicate IsDigit(c: char) {
    '0' <= c <= '9'
  }

  predicate AllDigits(s: string) {
    forall i :: 0 <= i < |s| ==> IsDigit(s[i])
  }

  function PrintNat(n: nat): (s: string)
    ensures |s| > 0 && AllDigits(s)
  {
    var d := ('0' as int + n % 10) as char;
    if n < 10 then [d] else PrintNat(n / 10) + [d]
  }

  function ParseNat(s: string): nat
    requires AllDigits(s)
  {
    if s == "" then 0 else 10 * ParseNat(s[..|s| - 1]) + (s[|s| - 1] as int - '0' as int)
  }

  /** Parsing undoes printing. */
  lemma {:induction false} ParsePrintNat(n: nat)
    ensures ParseNat(PrintNat(n)) == n
  {
    var s := PrintNat(n);
    if n < 10 {
      assert s[..0] == "";
    } else {
      assert s[..|s| - 1] == PrintNat(n / 10);
      ParsePrintNat(n / 10);
    }
  }

  /** No two numbers print alike. */
  lemma PrintNatInjective(m: nat, n: nat)
    requires PrintNat(m) == PrintNat(n)
    ensures m == n
  {
    ParsePrintNat(m);
    ParsePrintNat(n);
  }

  function Itoa(n: int): string {
    if n < 0 then "-" + PrintNat(-n) else PrintNat(n)
  }

  /** An optional sign and at least one digit, and a value that fits 64 bits. */
  function Atoi(s: string): Option<int> {
    var signed := s != "" && (s[0] == '-' || s[0] == '+');
    var body := if signed then s[1..] else s;
    if body == "" || !AllDigits(body) then None
    else
      var n: int := ParseNat(body);
      var v := if signed && s[0] == '-' then -n else n;
      if MIN_INT64 <= v <= MAX_INT64 then Some(v) else None
  }

  /** A printed 64-bit integer parses back to itself. */
  lemma AtoiItoa(n: int)
    requires MIN_INT64 <= n <= MAX_INT64
    ensures Atoi(Itoa(n)) == Some(n)
  {
    if n < 0 {
      ParsePrintNat(-n);
      assert Itoa(n)[1..] == PrintNat(-n);
    } else {
      ParsePrintNat(n);
      assert IsDigit(Itoa(n)[0]);
    }
  }

  /** Digits are printed from the highest to the lowest. */
  lemma PrintedExample()
    ensures Itoa(-120) == "-120"
  {
    assert PrintNat(1) == "1" && PrintNat(12) == "12";
  }

  // ---------------------------------------------------------------- which texts are numbers

  function Zeros(k: nat): (s: string)
    ensures |s| == k && AllDigits(s)
  {
    if k == 0 then "" else Zeros(k - 1) + "0"
  }

  lemma {:induction false} ParseZeros(k: nat, d: string)
    requires AllDigits(d)
    ensures AllDigits(Zeros(k) + d) && ParseNat(Zeros(k) + d) == ParseNat(d)
  {
    var s := Zeros(k) + d;
    if d != "" {
      ParseZeros(k, d[..|d| - 1]);
      assert s[..|s| - 1] == Zeros(k) + d[..|d| - 1];
    } else if k > 0 {
      ParseZeros(k - 1, "");
      assert s == Zeros(k) && s[..|s| - 1] == Zeros(k - 1) + "";
    }
  }

  /** Digits are leading zeros and then the number as it is printed. */
  lemma {:induction false} DigitsArePrinted(d: string) returns (k: nat)
    requires AllDigits(d) && d != ""
    ensures d == Zeros(k) + PrintNat(ParseNat(d))
  {
    var init, c := d[..|d| - 1], d[|d| - 1];
    var n := ParseNat(d);
    k := 0;
    if init != "" {
      k := DigitsArePrinted(init);
      if ParseNat(init) == 0 {
        assert PrintNat(0) == "0" && PrintNat(n) == [c];
        k := k + 1;
      } else {
        assert PrintNat(n) == PrintNat(ParseNat(init)) + [c];
      }
    }
    assert d == init + [c];
  }

  /** A text spells `n`: an optional sign, zeros, and the digits of `n` without its sign. */
  ghost predicate Spells(s: string, sign: string, k: nat, n: int) {
    && s == sign + (Zeros(k) + PrintNat(if n < 0 then -n else n))
    && (sign == "" || sign == "+" || sign == "-")
    && (n < 0 ==> sign == "-") && (n > 0 ==> sign != "-")
  }

  lemma AtoiOf(sign: string, body: string)
    requires (sign == "" || sign == "+" || sign == "-") && AllDigits(body) && body != ""
    ensures var v: int := if sign == "-" then -(ParseNat(body) as int) else ParseNat(body);
            Atoi(sign + body) == if MIN_INT64 <= v <= MAX_INT64 then Some(v) else None
  {
    var s := sign + body;
    if sign == "" {
      assert s == body && IsDigit(s[0]);
    } else {
      assert s[0] == sign[0] && s[1..] == body;
    }
  }

  lemma SpelledParses(s: string, sign: string, k: nat, n: int)
    requires Spells(s, sign, k, n) && MIN_INT64 <= n <= MAX_INT64
    ensures Atoi(s) == Some(n)
  {
    var digits := PrintNat(if n < 0 then -n else n);
    ParsePrintNat(if n < 0 then -n else n);
    ParseZeros(k, digits);
    AtoiOf(sign, Zeros(k) + digits);
  }

  /** Parsing gives a number exactly when the text spells one that fits 64 bits. */
  lemma AtoiIff(s: string, n: int)
    ensures Atoi(s) == Some(n) <==> MIN_INT64 <= n <= MAX_INT64 && exists sign, k :: Spells(s, sign, k, n)
  {
    if Atoi(s) == Some(n) {
      var sign := if s[0] == '-' || s[0] == '+' then s[..1] else "";
      var body := s[|sign|..];
      var k := DigitsArePrinted(body);
      assert s == sign + body;
      assert Spells(s, sign, k, n);
    }
    if MIN_INT64 <= n <= MAX_INT64 {
      forall sign, k: nat | Spells(s, sign, k, n)
        ensures Atoi(s) == Some(n)
      {
        SpelledParses(s, sign, k, n);
      }
    }
  }
}
