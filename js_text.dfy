/** JavaScript text primitives the page relies on: optional values,
    `Number.prototype.toString()` on integers, `String.prototype.slice`
    with a positive or a negative bound, and `padStart(2, '0')`. */
module JsText {

  /** `undefined`/`null`/`NaN` versus a present value. */
  datatype Option<+T> = None | Some(value: T)

  predicate IsDigit(c: char) { '0' <= c <= '9' }

  predicate AllDigits(s: string) { forall i :: 0 <= i < |s| ==> IsDigit(s[i]) }

  function DigitChar(d: nat): (c: char)
    requires d < 10
    ensures IsDigit(c) && DigitValue(c) == d
  {
    ('0' as int + d) as char
  }

  function DigitValue(c: char): nat
    requires IsDigit(c)
  {
    c as int - '0' as int
  }

  /** `n.toString()` for a non-negative integer: its decimal digits,
      without leading zeros. */
  function Decimal(n: nat): (s: string)
    ensures |s| >= 1 && AllDigits(s)
    ensures s[0] == '0' ==> n == 0 && s == "0"
    decreases n
  {
    if n < 10 then [DigitChar(n)] else Decimal(n / 10) + [DigitChar(n % 10)]
  }

  /** The number a string of decimal digits denotes. */
  function DecimalValue(s: string): nat
    requires AllDigits(s)
  {
    if s == [] then 0 else 10 * DecimalValue(s[..|s| - 1]) + DigitValue(s[|s| - 1])
  }

  /** Reading back what `toString` wrote gives the number again. */
  lemma {:induction false} DecimalRoundTrip(n: nat)
    ensures DecimalValue(Decimal(n)) == n
  {
    if n >= 10 {
      DecimalRoundTrip(n / 10);
      var s := Decimal(n);
      assert s[..|s| - 1] == Decimal(n / 10);
    }
  }

  /** Numbers below 1000 print with at most three digits, and only those. */
  lemma DecimalShort(n: nat)
    ensures |Decimal(n)| <= 3 <==> n < 1000
  {
    if n >= 10 {
      assert |Decimal(n)| == |Decimal(n / 10)| + 1;
      if n / 10 >= 10 {
        assert |Decimal(n / 10)| == |Decimal(n / 100)| + 1;
        if n / 100 >= 10 {
          assert |Decimal(n / 100)| == |Decimal(n / 1000)| + 1;
        }
      }
    }
  }

  /** `x.toString()` for any integer: a minus sign before the digits of a
      negative number. */
  function IntToString(x: int): (s: string)
    ensures x >= 0 ==> s == Decimal(x)
    ensures x < 0 ==> |s| >= 2 && s[0] == '-' && s[1..] == Decimal(-x)
  {
    if x < 0 then "-" + Decimal(-x) else Decimal(x)
  }

  /** `s.slice(0, n)` for `n >= 0`, on strings and arrays alike. */
  function SliceHead<T>(s: seq<T>, n: nat): (r: seq<T>)
    ensures |r| == if n < |s| then n else |s|
    ensures r == s[..|r|]
  {
    if n < |s| then s[..n] else s
  }

  /** `s.slice(-n)` for `n > 0`: the start `|s| - n` is clamped at 0. */
  function SliceTail<T>(s: seq<T>, n: nat): (r: seq<T>)
    requires n > 0
    ensures |r| == if n < |s| then n else |s|
    ensures r == s[|s| - |r|..]
  {
    if n < |s| then s[|s| - n..] else s
  }

  /** `s.padStart(2, '0')`. */
  function PadStart2(s: string): (r: string)
    ensures |s| >= 2 ==> r == s
    ensures |s| < 2 ==> |r| == 2 && r[2 - |s|..] == s && forall i :: 0 <= i < 2 - |s| ==> r[i] == '0'
  {
    if |s| >= 2 then s else if |s| == 1 then "0" + s else "00"
  }
}
