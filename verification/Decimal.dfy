/** Decimal numerals as strconv.FormatInt and strconv.ParseInt write and read them. */
module Decimal {
  import opened Bytes

  function DigitChar(d: int): char
    requires 0 <= d < 10
  {
    ('0' as int + d) as char
  }

  predicate IsDigit(c: char) { '0' <= c <= '9' }

  function DigitValue(c: char): (d: int)
    requires IsDigit(c)
    ensures 0 <= d < 10
  {
    c as int - '0' as int
  }

  /** A natural number without leading zeros. */
  function FormatNat(n: nat): (s: string)
    ensures s != "" && forall i :: 0 <= i < |s| ==> IsDigit(s[i])
  {
    if n < 10 then [DigitChar(n)] else FormatNat(n / 10) + [DigitChar(n % 10)]
  }

  function FormatInt(n: int): string { if n < 0 then "-" + FormatNat(-n) else FormatNat(n) }

  /** The value of a string of digits, which may have leading zeros. */
  function DigitsValue(s: string): nat
    requires forall i :: 0 <= i < |s| ==> IsDigit(s[i])
  {
    if s == "" then 0 else 10 * DigitsValue(s[..|s| - 1]) + DigitValue(s[|s| - 1])
  }

  predicate AllDigits(s: string) { s != "" && forall i :: 0 <= i < |s| ==> IsDigit(s[i]) }

  /** ParseInt in base 10 for numbers in [-bound, bound): an optional sign and digits. */
  function ParseInt(s: string, bound: int): Option<int> {
    var signed := s != "" && (s[0] == '-' || s[0] == '+');
    var digits := if signed then s[1..] else s;
    if !AllDigits(digits) then None
    else
      var v: int := DigitsValue(digits);
      var n := if signed && s[0] == '-' then -v else v;
      if -bound <= n < bound then Some(n) else None
  }

  function Pow10(n: nat): (p: nat)
    ensures p > 0
  {
    if n == 0 then 1 else 10 * Pow10(n - 1)
  }

  lemma {:induction false} FormatNatValue(n: nat)
    ensures DigitsValue(FormatNat(n)) == n
  {
    if n >= 10 {
      FormatNatValue(n / 10);
      var s := FormatNat(n);
      assert s[..|s| - 1] == FormatNat(n / 10);
    } else {
      assert FormatNat(n)[..0] == "";
    }
  }

  /** Parsing inverts formatting, for every number in range. */
  lemma ParseFormat(n: int, bound: int)
    requires -bound <= n < bound
    ensures ParseInt(FormatInt(n), bound) == Some(n)
  {
    FormatNatValue(if n < 0 then -n else n);
    var s := FormatInt(n);
    if n < 0 { assert s[1..] == FormatNat(-n); }
  }

  /** The digit of the i-th place. */
  function Place(n: nat, i: nat): char { "0123456789"[n / Pow10(i) % 10] }

  lemma PlaceStep(n: nat, i: nat)
    ensures Place(n, i + 1) == Place(n / 10, i)
    ensures n / Pow10(i + 1) == n / 10 / Pow10(i)
  {
    DivideTwice(n, Pow10(i));
  }

  lemma FirstPlace(n: nat)
    ensures Place(n, 0) == DigitChar(n % 10)
    ensures n < 10 ==> n / Pow10(1) == 0
  {
    assert n / Pow10(0) == n;
    assert Pow10(1) == 10;
    assert DigitChar(n % 10) == "0123456789"[n % 10];
  }

  /** The digit of each place is where it belongs, and there is no leading zero. */
  lemma {:induction false} Places(n: nat)
    ensures FormatNat(n)[0] == '0' <==> n == 0
    ensures n / Pow10(|FormatNat(n)|) == 0
    ensures forall i :: 0 <= i < |FormatNat(n)| ==> FormatNat(n)[|FormatNat(n)| - 1 - i] == Place(n, i)
  {
    hide Place, Pow10;
    var s := FormatNat(n);
    FirstPlace(n);
    if n >= 10 {
      var t := FormatNat(n / 10);
      Places(n / 10);
      PlaceStep(n, |t|);
      forall i | 0 < i < |s| ensures s[|s| - 1 - i] == Place(n, i) {
        PlaceStep(n, i - 1);
        assert s[|s| - 1 - i] == t[|t| - 1 - (i - 1)];
      }
    }
  }

  lemma DivideTwice(n: nat, p: nat)
    requires p > 0
    ensures n / (10 * p) == n / 10 / p
  {
    var q, r := n / 10 / p, n / 10 % p;
    assert n / 10 == p * q + r;
    assert n == (10 * p) * q + (10 * r + n % 10);
    assert 10 * r + n % 10 < 10 * p;
    QuotientIs(n, 10 * p, q, 10 * r + n % 10);
  }

  lemma AtLeast(d: nat, k: nat)
    requires k > 0
    ensures d * k >= d
  {
  }

  lemma QuotientIs(n: nat, d: nat, q: nat, r: nat)
    requires d > 0 && n == d * q + r && r < d
    ensures n / d == q
  {
    var q', r' := n / d, n % d;
    assert n == d * q' + r';
    assert d * (q - q') == d * q - d * q' && d * (q' - q) == d * q' - d * q;
    if q < q' { AtLeast(d, q' - q); }
    if q > q' { AtLeast(d, q - q'); }
  }

  /** Every string of digits is the numeral of its value, up to leading zeros. */
  lemma {:induction false} DigitsPrinted(s: string)
    requires AllDigits(s)
    ensures FormatNat(DigitsValue(s)) == s <==> s[0] != '0' || |s| == 1
    ensures DigitsValue("0" + s) == DigitsValue(s)
  {
    var init, last := s[..|s| - 1], s[|s| - 1];
    assert ("0" + s)[..|s|] == "0" + init;
    assert s == init + [last];
    if init == [] {
      assert DigitsValue("0") == 0;
    } else {
      DigitsPrinted(init);
      assert s[0] == init[0];
      var v := DigitsValue(s);
      assert v / 10 == DigitsValue(init) && DigitChar(v % 10) == last;
      Places(v);
      if s[0] != '0' { Places(DigitsValue(init)); }
    }
  }
}
