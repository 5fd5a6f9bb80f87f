/**
 * `int.TryParse` with the default number style (leading and trailing white
 * space, an optional leading sign, decimal digits) and the invariant culture,
 * together with the decimal text of an integer as its inverse.
 */
module Int32Text {
  import opened Wrappers

  const MIN_VALUE: int := -0x8000_0000
  const MAX_VALUE: int := 0x7FFF_FFFF

  /** The values of a 32-bit signed `int`. */
  predicate InRange(n: int) {
    MIN_VALUE <= n <= MAX_VALUE
  }

  predicate IsDigit(c: char) {
    '0' <= c <= '9'
  }

  predicate AllDigits(s: string) {
    forall m :: 0 <= m < |s| ==> IsDigit(s[m])
  }

  /** The white space the integer style allows around the number: U+0009..U+000D and U+0020. */
  predicate IsWhite(c: char) {
    c == ' ' || ('\t' <= c <= '\r')
  }

  function TrimStart(s: string): string
    decreases |s|
  {
    if |s| > 0 && IsWhite(s[0]) then TrimStart(s[1..]) else s
  }

  function TrimEnd(s: string): string
    decreases |s|
  {
    if |s| > 0 && IsWhite(s[|s| - 1]) then TrimEnd(s[..|s| - 1]) else s
  }

  /** The value of a string of decimal digits, most significant first. */
  function DigitsValue(ds: string): nat
    requires AllDigits(ds)
    decreases |ds|
  {
    if |ds| == 0 then 0
    else 10 * DigitsValue(ds[..|ds| - 1]) + (ds[|ds| - 1] as int - '0' as int)
  }

  /** `int.TryParse`: the value of the text, or `None` when it is not an `int`. */
  function TryParse(s: string): (r: Option<int>)
    ensures r.Some? ==> InRange(r.value)
  {
    var t := TrimEnd(TrimStart(s));
    var negative := |t| > 0 && t[0] == '-';
    var digits := if |t| > 0 && (t[0] == '-' || t[0] == '+') then t[1..] else t;
    if |digits| == 0 || !AllDigits(digits) then None
    else
      var magnitude: int := DigitsValue(digits);
      var n: int := if negative then -magnitude else magnitude;
      if InRange(n) then Some(n) else None
  }

  /** The decimal digits of a natural number, without leading zeros. */
  function NatDigits(m: nat): (ds: string)
    ensures |ds| > 0 && AllDigits(ds)
    decreases m
  {
    if m < 10 then [('0' as int + m) as char]
    else NatDigits(m / 10) + [('0' as int + m % 10) as char]
  }

  /** The text `int.ToString` gives an integer. */
  function Decimal(n: int): string {
    if n < 0 then "-" + NatDigits(-n) else NatDigits(n)
  }

  lemma {:induction false} NatDigitsValue(m: nat)
    ensures DigitsValue(NatDigits(m)) == m
    decreases m
  {
    var ds := NatDigits(m);
    if m >= 10 {
      NatDigitsValue(m / 10);
      assert ds[..|ds| - 1] == NatDigits(m / 10);
    }
  }

  /** Parsing the decimal text of an integer gives it back exactly when it fits in an `int`. */
  lemma ParseDecimal(n: int)
    ensures TryParse(Decimal(n)) == if InRange(n) then Some(n) else None
  {
    var s := Decimal(n);
    var ds := if n < 0 then NatDigits(-n) else NatDigits(n);
    NatDigitsValue(if n < 0 then -n else n);
    assert !IsWhite(s[0]);
    assert TrimStart(s) == s;
    assert s[|s| - 1] == ds[|ds| - 1];
    assert !IsWhite(s[|s| - 1]);
    assert TrimEnd(s) == s;
    if n < 0 {
      assert s[1..] == ds;
    } else {
      assert s[0] != '-' && s[0] != '+';
    }
  }
}
