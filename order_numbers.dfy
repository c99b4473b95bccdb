/**
 * The `creating` hook of the `WorkOrder` model: an order created without a
 * number gets `"WO-" + year + "-" + n`, where `n` is one more than the number
 * of orders created this calendar year, left-padded with '0' to width 4.
 */
module OrderNumbers {
  import opened Util

  predicate IsDigit(c: char) {
    '0' <= c <= '9'
  }

  predicate AllDigits(s: string) {
    forall i :: 0 <= i < |s| ==> IsDigit(s[i])
  }

  function DigitChar(d: nat): (c: char)
    requires d < 10
    ensures IsDigit(c)
  {
    (d + '0' as int) as char
  }

  function DigitValue(c: char): (d: nat)
    requires IsDigit(c)
    ensures d < 10
  {
    c as int - '0' as int
  }

  /** The decimal text of `n`, as PHP renders an integer: no sign, no leading zero. */
  function Digits(n: nat): (s: string)
    ensures |s| >= 1 && AllDigits(s)
    ensures n > 0 ==> s[0] != '0'
    decreases n
  {
    if n < 10 then [DigitChar(n)] else Digits(n / 10) + [DigitChar(n % 10)]
  }

  /** The number a string of decimal digits denotes (leading zeros allowed). */
  function ValueOf(s: string): nat
    requires AllDigits(s)
    decreases |s|
  {
    if s == [] then 0 else 10 * ValueOf(s[..|s| - 1]) + DigitValue(s[|s| - 1])
  }

  function Repeat(c: char, k: nat): (r: string)
    ensures |r| == k && forall i :: 0 <= i < k ==> r[i] == c
  {
    seq(k, _ => c)
  }

  /**
   * `str_pad($s, $width, $pad, STR_PAD_LEFT)` with a one-character pad:
   * prepends pad characters up to `width`, and never shortens `s`.
   */
  function PadLeft(s: string, width: nat, pad: char): (r: string)
    ensures |r| == if |s| >= width then |s| else width
    ensures r[|r| - |s|..] == s
    ensures forall i :: 0 <= i < |r| - |s| ==> r[i] == pad
  {
    if |s| >= width then s else Repeat(pad, width - |s|) + s
  }

  /** `n` in decimal, zero-padded to at least four digits (also PHP's `date('Y')`). */
  function Padded4(n: nat): string {
    PadLeft(Digits(n), 4, '0')
  }

  /** The number the hook generates for the given year and count of this year's orders. */
  function Generate(year: nat, countThisYear: nat): (r: string)
    ensures |r| == 4 + |Padded4(year)| + |Padded4(countThisYear + 1)| && |r| >= 12
    ensures r[..3] == "WO-"
  {
    "WO-" + Padded4(year) + "-" + Padded4(countThisYear + 1)
  }

  /** PHP truthiness of the supplied `order_number`: null, "" and "0" are all falsy. */
  predicate Falsy(v: Option<string>) {
    v.None? || v.value == "" || v.value == "0"
  }

  /** The `order_number` the hook leaves on the model before it is inserted. */
  function OnCreating(supplied: Option<string>, year: nat, countThisYear: nat): (r: string)
    ensures !Falsy(Some(r))
    ensures !Falsy(supplied) ==> r == supplied.value
  {
    if Falsy(supplied) then Generate(year, countThisYear) else supplied.value
  }

  /** Decoding the decimal text of `n` gives back `n`. */
  lemma {:induction false} ValueOfDigits(n: nat)
    ensures ValueOf(Digits(n)) == n
    decreases n
  {
    if n >= 10 {
      var s := Digits(n);
      assert s[..|s| - 1] == Digits(n / 10);
      ValueOfDigits(n / 10);
    }
  }

  /** Leading zeros do not change the value of a digit string. */
  lemma {:induction false} ValueOfLeadingZeros(k: nat, s: string)
    requires AllDigits(s)
    ensures AllDigits(Repeat('0', k) + s)
    ensures ValueOf(Repeat('0', k) + s) == ValueOf(s)
    decreases |s| + k
  {
    var z := Repeat('0', k);
    var t := z + s;
    assert AllDigits(t) by {
      forall i | 0 <= i < |t| ensures IsDigit(t[i]) {
        if i < k { assert t[i] == '0'; } else { assert t[i] == s[i - k]; }
      }
    }
    if s == [] {
      if k > 0 {
        assert t[..|t| - 1] == Repeat('0', k - 1) + [];
        ValueOfLeadingZeros(k - 1, []);
      }
    } else {
      assert t[..|t| - 1] == z + s[..|s| - 1];
      assert t[|t| - 1] == s[|s| - 1];
      ValueOfLeadingZeros(k, s[..|s| - 1]);
    }
  }

  /**
   * The padded suffix never truncates: it is all digits, at least four long,
   * ends with the plain decimal text and decodes back to `n`; below 10000 it is
   * exactly four long.
   */
  lemma Padded4Decodes(n: nat)
    ensures AllDigits(Padded4(n)) && |Padded4(n)| >= 4
    ensures ValueOf(Padded4(n)) == n
    ensures |Padded4(n)| >= |Digits(n)|
    ensures Padded4(n)[|Padded4(n)| - |Digits(n)|..] == Digits(n)
    ensures n < 10000 ==> |Padded4(n)| == 4
  {
    var d := Digits(n);
    ValueOfDigits(n);
    if |d| < 4 {
      ValueOfLeadingZeros(4 - |d|, d);
    }
    if n < 10000 {
      DigitsShort(n);
    }
  }

  /** Numbers below 10000 have at most four digits. */
  lemma {:induction false} DigitsShort(n: nat)
    requires n < 10000
    ensures |Digits(n)| <= 4
  {
    if n >= 10 {
      if n >= 100 {
        if n >= 1000 {
          assert |Digits(n / 10 / 10 / 10)| == 1;
        }
        assert |Digits(n / 10 / 10)| <= 2;
      }
      assert |Digits(n / 10)| <= 3;
    }
  }

  /** The zero padding is injective: distinct numbers get distinct padded texts. */
  lemma Padded4Injective(a: nat, b: nat)
    ensures Padded4(a) == Padded4(b) <==> a == b
  {
    if Padded4(a) == Padded4(b) {
      Padded4Decodes(a);
      Padded4Decodes(b);
    }
  }

  /** The pieces of `"WO-" + y + "-" + p` can be read back off by position. */
  lemma SplitNumber(y: string, p: string)
    ensures var g := "WO-" + y + "-" + p;
      |g| == 4 + |y| + |p| && g[..3] == "WO-" && g[3..3 + |y|] == y && g[3 + |y|] == '-'
      && g[|g| - |p|..] == p && g[4 + |y|..] == p
  {
    var g := "WO-" + y + "-" + p;
    assert g == ("WO-" + y + "-") + p;
  }

  /**
   * A generated number reads `WO-<year>-<suffix>`, where the suffix is all
   * digits, has at least four of them and denotes `countThisYear + 1`.
   */
  lemma GeneratedFormat(year: nat, countThisYear: nat)
    ensures var g := Generate(year, countThisYear);
      var s := g[|g| - |Padded4(countThisYear + 1)|..];
      g[..3] == "WO-" && g[3..3 + |Padded4(year)|] == Padded4(year) && g[3 + |Padded4(year)|] == '-'
      && AllDigits(s) && |s| >= 4 && ValueOf(s) == countThisYear + 1
      && (countThisYear + 1 < 10000 ==> |s| == 4)
  {
    SplitNumber(Padded4(year), Padded4(countThisYear + 1));
    Padded4Decodes(countThisYear + 1);
  }

  /**
   * Within one year, the same count gives the same number and distinct counts
   * give distinct numbers; for four-digit years the year is recovered too.
   * So the uniqueness the schema asks for rests on the count alone.
   */
  lemma GenerateInjective(y1: nat, c1: nat, y2: nat, c2: nat)
    requires y1 == y2 || (y1 < 10000 && y2 < 10000)
    ensures Generate(y1, c1) == Generate(y2, c2) <==> y1 == y2 && c1 == c2
  {
    if Generate(y1, c1) == Generate(y2, c2) {
      var py1, py2 := Padded4(y1), Padded4(y2);
      SplitNumber(py1, Padded4(c1 + 1));
      SplitNumber(py2, Padded4(c2 + 1));
      Padded4Decodes(y1);
      Padded4Decodes(y2);
      assert |py1| == |py2|;
      Padded4Injective(y1, y2);
      Padded4Injective(c1 + 1, c2 + 1);
    }
  }

  /** A truthy supplied number is kept; a falsy one ("", "0" or none) is replaced by a generated one. */
  lemma HookKeepsSuppliedNumber(supplied: Option<string>, year: nat, countThisYear: nat)
    ensures supplied.Some? && supplied.value != "" && supplied.value != "0" ==>
      OnCreating(supplied, year, countThisYear) == supplied.value
    ensures Falsy(supplied) ==> OnCreating(supplied, year, countThisYear) == Generate(year, countThisYear)
  {
  }

  /** Concrete suffixes: 12 becomes "0012", while 12345 stays "12345" (no truncation). */
  lemma PaddedExamples()
    ensures Padded4(12) == "0012" && Padded4(2025) == "2025" && Padded4(12345) == "12345"
  {
    DigitsExamples();
    assert Padded4(12) == "0012" by {
      assert Repeat('0', 2) == "00";
      assert PadLeft("12", 4, '0') == Repeat('0', 2) + "12";
    }
  }

  lemma DigitsExamples()
    ensures Digits(12) == "12" && Digits(2025) == "2025" && Digits(12345) == "12345"
  {
    assert DigitChar(0) == '0' && DigitChar(1) == '1' && DigitChar(2) == '2';
    assert DigitChar(3) == '3' && DigitChar(4) == '4' && DigitChar(5) == '5';
    assert Digits(1) == "1" && Digits(2) == "2";
    assert Digits(20) == Digits(2) + "0";
    assert Digits(202) == Digits(20) + "2";
    assert Digits(2025) == Digits(202) + "5";
    assert Digits(12) == Digits(1) + "2";
    assert Digits(123) == Digits(12) + "3";
    assert Digits(1234) == Digits(123) + "4";
    assert Digits(12345) == Digits(1234) + "5";
  }
}
