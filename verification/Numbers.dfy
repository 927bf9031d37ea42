/** Numbers in XML attributes: strconv.Itoa and Atoi, and the "%f" format. A
    Track number is a count of millionths, what "%f" prints. */
module Numbers {
  import opened Wrappers

  predicate IsDigit(c: char) {
    '0' <= c <= '9'
  }

  function DigitOf(d: nat): char
    requires d < 10
  {
    '0' + d as char
  }

  function ValueOf(c: char): nat
    requires IsDigit(c)
  {
    c as int - '0' as int
  }

  predicate AllDigits(s: string) {
    forall i :: 0 <= i < |s| ==> IsDigit(s[i])
  }

  /** strconv.Itoa of a number that is not negative. */
  function Itoa(n: nat): (s: string)
    ensures s != "" && AllDigits(s)
  {
    if n < 10 then [DigitOf(n)] else Itoa(n / 10) + [DigitOf(n % 10)]
  }

  function DecimalValue(s: string): nat
    requires AllDigits(s)
  {
    if s == "" then 0 else 10 * DecimalValue(s[..|s| - 1]) + ValueOf(s[|s| - 1])
  }

  lemma {:induction false} ItoaValue(n: nat)
    ensures DecimalValue(Itoa(n)) == n
  {
    if n >= 10 {
      ItoaValue(n / 10);
      assert Itoa(n)[..|Itoa(n)| - 1] == Itoa(n / 10);
    }
  }

  /** strconv.Atoi: an optional sign and decimal digits, within 64 bits. */
  function Atoi(s: string): Option<int> {
    var signed := s != "" && (s[0] == '-' || s[0] == '+');
    var digits := if signed then s[1..] else s;
    if digits == "" || !AllDigits(digits) then None
    else
      var v: int := DecimalValue(digits);
      var n := if signed && s[0] == '-' then -v else v;
      if -0x8000_0000_0000_0000 <= n < 0x8000_0000_0000_0000 then Some(n) else None
  }

  lemma {:induction false} AtoiItoa(n: nat)
    requires n < 0x8000_0000_0000_0000
    ensures Atoi(Itoa(n)) == Some(n)
  {
    ItoaValue(n);
    assert IsDigit(Itoa(n)[0]);
  }

  /** k decimal digits, with leading zeros. */
  function Padded(n: nat, k: nat): (s: string)
    ensures |s| == k && AllDigits(s)
  {
    if k == 0 then "" else Padded(n / 10, k - 1) + [DigitOf(n % 10)]
  }

  function Pow10(k: nat): nat {
    if k == 0 then 1 else 10 * Pow10(k - 1)
  }

  lemma {:induction false} PaddedValue(n: nat, k: nat)
    requires n < Pow10(k)
    ensures DecimalValue(Padded(n, k)) == n
  {
    if k > 0 {
      PaddedValue(n / 10, k - 1);
      assert Padded(n, k)[..k - 1] == Padded(n / 10, k - 1);
    }
  }

  /** fmt.Sprintf("%f", m / 1000000). */
  function FormatF(m: int): string {
    var a := if m < 0 then -m else m;
    (if m < 0 then "-" else "") + Itoa(a / 1_000_000) + "." + Padded(a % 1_000_000, 6)
  }

  /** strconv.ParseFloat on the form that "%f" prints: an optional minus sign,
      digits, a point and six digits. */
  function ParseFixed(s: string): Option<int> {
    var neg := s != "" && s[0] == '-';
    var t := if neg then s[1..] else s;
    if |t| >= 8 && t[|t| - 7] == '.' && AllDigits(t[..|t| - 7]) && AllDigits(t[|t| - 6..]) then
      var a := DecimalValue(t[..|t| - 7]) * 1_000_000 + DecimalValue(t[|t| - 6..]);
      Some(if neg then -a else a)
    else None
  }

  lemma {:induction false} FormatParts(m: int)
    ensures var a := if m < 0 then -m else m;
            var t := Itoa(a / 1_000_000) + "." + Padded(a % 1_000_000, 6);
            && FormatF(m) == (if m < 0 then "-" + t else t)
            && |t| >= 8 && t[0] != '-' && t[|t| - 7] == '.'
            && t[..|t| - 7] == Itoa(a / 1_000_000) && t[|t| - 6..] == Padded(a % 1_000_000, 6)
            && (m < 0 ==> ("-" + t)[1..] == t)
  {
    var a := if m < 0 then -m else m;
    var whole, frac := Itoa(a / 1_000_000), Padded(a % 1_000_000, 6);
    var t := whole + "." + frac;
    assert t[0] == whole[0] && IsDigit(whole[0]);
    assert m >= 0 ==> FormatF(m) == "" + whole + "." + frac == t;
    assert m < 0 ==> FormatF(m) == "-" + whole + "." + frac == "-" + t;
  }

  /** Printing a whole number of millionths and reading it again. */
  lemma {:induction false} ParseFormat(m: int)
    ensures ParseFixed(FormatF(m)) == Some(m)
  {
    var a := if m < 0 then -m else m;
    FormatParts(m);
    ItoaValue(a / 1_000_000);
    assert Pow10(6) == 1_000_000;
    PaddedValue(a % 1_000_000, 6);
  }

  /** strings.ReplaceAll(s, ",", "."). */
  function CommaToPoint(s: string): string {
    if s == "" then "" else [if s[0] == ',' then '.' else s[0]] + CommaToPoint(s[1..])
  }

  lemma {:induction false} NoCommaKept(s: string)
    requires ',' !in s
    ensures CommaToPoint(s) == s
  {
    if s != "" {
      NoCommaKept(s[1..]);
      assert s == [s[0]] + s[1..];
    }
  }

  /** strconv.ParseFloat, known only on the form that "%f" prints. */
  ghost predicate ReadsFixed(parse: string -> Option<int>) {
    forall s :: ParseFixed(s).Some? ==> parse(s) == ParseFixed(s)
  }

  /** getFloat of pkg/cot/converter.go. */
  function GetFloat(s: string, parse: string -> Option<int>): int {
    parse(CommaToPoint(s)).UnwrapOr(0)
  }

  lemma {:induction false} GetFloatFormat(m: int, parse: string -> Option<int>)
    requires ReadsFixed(parse)
    ensures GetFloat(FormatF(m), parse) == m
  {
    ParseFormat(m);
    forall i | 0 <= i < |FormatF(m)| ensures FormatF(m)[i] != ',' {
      NoCommaAt(m, i);
    }
    NoCommaKept(FormatF(m));
  }

  lemma {:induction false} NoCommaAt(m: int, i: nat)
    requires i < |FormatF(m)|
    ensures FormatF(m)[i] != ','
  {
    var a := if m < 0 then -m else m;
    var whole, frac := Itoa(a / 1_000_000), Padded(a % 1_000_000, 6);
    var sign := if m < 0 then "-" else "";
    var k := i - |sign|;
    if 0 <= k < |whole| {
      assert FormatF(m)[i] == whole[k] && IsDigit(whole[k]);
    } else if k > |whole| {
      assert FormatF(m)[i] == frac[k - |whole| - 1] && IsDigit(frac[k - |whole| - 1]);
    }
  }
}
