/**
 * Swift's 64-bit `Int`, its failable parse `Int(_: String)` and its decimal
 * rendering `"\(n)"`. Arithmetic that leaves the range traps in Swift, so the
 * model uses a subset type whose bounds every assignment must respect.
 */
module SwiftInt {
  import opened Wrappers

  const IntMin: int := -0x8000_0000_0000_0000
  const IntMax: int := 0x7FFF_FFFF_FFFF_FFFF

  type Int = x: int | IntMin <= x <= IntMax

  predicate IsDigit(c: char) {
    '0' <= c <= '9'
  }

  predicate AllDigits(s: string) {
    forall i :: 0 <= i < |s| ==> IsDigit(s[i])
  }

  function DigitValue(c: char): (d: nat)
    requires IsDigit(c)
    ensures d < 10
  {
    c as int - '0' as int
  }

  function DigitChar(d: nat): (c: char)
    requires d < 10
    ensures IsDigit(c) && DigitValue(c) == d
  {
    ('0' as int + d) as char
  }

  /** The value of a run of decimal digits, most significant digit first. */
  function DigitsValue(s: string): nat
    requires AllDigits(s)
  {
    if s == [] then 0 else DigitsValue(s[..|s| - 1]) * 10 + DigitValue(s[|s| - 1])
  }

  /** The shortest decimal rendering of a natural number. */
  function NatToDecimal(n: nat): (s: string)
    ensures s != [] && AllDigits(s)
    ensures DigitsValue(s) == n
    ensures s[0] == '0' ==> s == "0"
  {
    if n < 10 then
      [DigitChar(n)]
    else
      var prefix := NatToDecimal(n / 10);
      var s := prefix + [DigitChar(n % 10)];
      assert s[..|s| - 1] == prefix;
      s
  }

  /** String interpolation `"\(n)"`: an optional minus sign, then the digits. */
  function ToDecimal(n: int): (s: string)
    ensures s != []
    ensures n < 0 ==> s[0] == '-' && s[1..] != [] && AllDigits(s[1..]) && DigitsValue(s[1..]) == -n
    ensures n >= 0 ==> AllDigits(s) && DigitsValue(s) == n
    ensures n < 0 ==> s[1] != '0'
    ensures n >= 0 ==> (s[0] == '0' ==> s == "0")
  {
    if n < 0 then "-" + NatToDecimal(-n) else NatToDecimal(n)
  }

  /**
   * `Int(text)`: an optional `+` or `-`, then one or more ASCII digits and
   * nothing else; `nil` when the text is malformed or the value does not fit.
   */
  function ParseInt(text: string): (r: Option<Int>)
    ensures r.Some? ==> text != [] && text != "+" && text != "-"
  {
    if text != [] && (text[0] == '+' || text[0] == '-') then
      var digits := text[1..];
      if digits != [] && AllDigits(digits) then
        var v: int := if text[0] == '-' then 0 - DigitsValue(digits) else DigitsValue(digits);
        if IntMin <= v <= IntMax then Some(v) else None
      else
        None
    else if text != [] && AllDigits(text) && DigitsValue(text) <= IntMax then
      Some(DigitsValue(text))
    else
      None
  }

  /** Parsing the rendering of any `Int` gives that `Int` back. */
  lemma ParseRendered(n: Int)
    ensures ParseInt(ToDecimal(n)) == Some(n)
  {
    var text := ToDecimal(n);
    if n < 0 {
      assert text[1..] == NatToDecimal(-(n as int));
    } else {
      assert text == NatToDecimal(n);
      assert text[0] != '+' && text[0] != '-';
    }
  }
}
