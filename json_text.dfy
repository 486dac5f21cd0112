/**
  The text `JSON.stringify` writes for a JSON value: no whitespace, strings escaped as
  the ECMAScript QuoteJSONString operation does, numbers spelled as ECMAScript's
  Number::toString spells them.
 */
module JsonText {
  import opened JsonValue

  predicate IsDigit(c: char)
  {
    '0' <= c <= '9'
  }

  predicate AllDigits(s: string)
  {
    forall i :: 0 <= i < |s| ==> IsDigit(s[i])
  }

  function DigitChar(d: nat): (c: char)
    requires d < 10
    ensures IsDigit(c)
  {
    (48 + d) as char
  }

  /** The value of a decimal digit (0 for any other character). */
  function DigitValue(c: char): (d: nat)
    ensures d < 10
    ensures IsDigit(c) ==> DigitChar(d) == c
  {
    if IsDigit(c) then c as int - 48 else 0
  }

  /** The number a run of decimal digits spells, most significant digit first. */
  function DigitsValue(ds: string): nat
  {
    if ds == [] then 0 else 10 * DigitsValue(ds[..|ds| - 1]) + DigitValue(ds[|ds| - 1])
  }

  /** The decimal digits of n, most significant first. */
  function NatDigits(n: nat): (ds: string)
    ensures |ds| >= 1 && AllDigits(ds)
  {
    if n < 10 then [DigitChar(n)] else NatDigits(n / 10) + [DigitChar(n % 10)]
  }

  function Zeros(k: nat): (z: string)
    ensures |z| == k && AllDigits(z)
    ensures forall i :: 0 <= i < k ==> z[i] == '0'
  {
    if k == 0 then "" else "0" + Zeros(k - 1)
  }

  function Abs(i: int): nat
  {
    if i < 0 then -i else i
  }

  /**
    Number::toString of a magnitude: with its k digits and the decimal point after
    position p = k + exponent, positional notation while -6 < p <= 21 and exponential
    notation otherwise.
   */
  function MagnitudeText(x: Number): string
  {
    var ds := NatDigits(x.mantissa);
    var k := |ds|;
    var p := k + x.exponent;
    if x.exponent >= 0 && p <= 21 then ds + Zeros(x.exponent)
    else if 0 < p <= 21 then ds[..p] + "." + ds[p..]
    else if -6 < p <= 0 then "0." + Zeros(-p) + ds
    else ds[..1] + (if k == 1 then "" else "." + ds[1..]) + ExponentText(p - 1)
  }

  /** The exponent part `e+x` or `e-x` of exponential notation. */
  function ExponentText(x: int): string
  {
    "e" + (if x >= 0 then "+" else "-") + NatDigits(Abs(x))
  }

  function NumberText(x: Number): string
  {
    if x.negative then "-" + MagnitudeText(x) else MagnitudeText(x)
  }

  const Backspace: char := '\U{8}'
  const FormFeed: char := '\U{C}'

  function HexDigit(d: nat): (c: char)
    requires d < 16
  {
    if d < 10 then DigitChar(d) else (87 + d) as char
  }

  /** How one character is written inside a JSON string literal. */
  function EscapeChar(c: char): string
  {
    if c == '"' then "\\\""
    else if c == '\\' then "\\\\"
    else if c == Backspace then "\\b"
    else if c == FormFeed then "\\f"
    else if c == '\n' then "\\n"
    else if c == '\r' then "\\r"
    else if c == '\t' then "\\t"
    else if (c as int) < 32 then "\\u00" + [HexDigit(c as int / 16), HexDigit(c as int % 16)]
    else [c]
  }

  function EscapeString(s: string): string
  {
    if s == [] then "" else EscapeChar(s[0]) + EscapeString(s[1..])
  }

  function QuoteString(s: string): string
  {
    "\"" + EscapeString(s) + "\""
  }

  /** JSON.stringify of a JSON value. */
  function Stringify(v: Json): string
    decreases v
  {
    match v
    case JNull => "null"
    case JBool(b) => if b then "true" else "false"
    case JNum(n) => NumberText(n)
    case JStr(s) => QuoteString(s)
    case JArr(items) => "[" + ItemsText(items) + "]"
    case JObj(members) => "{" + MembersText(members) + "}"
  }

  /** The comma-separated elements of an array. */
  function ItemsText(items: seq<Json>): string
    decreases items
  {
    if items == [] then ""
    else if |items| == 1 then Stringify(items[0])
    else Stringify(items[0]) + "," + ItemsText(items[1..])
  }

  /** The comma-separated members of an object. */
  function MembersText(members: seq<Member>): string
    decreases members
  {
    if members == [] then ""
    else if |members| == 1 then MemberText(members[0])
    else MemberText(members[0]) + "," + MembersText(members[1..])
  }

  /** One member: its quoted name, a colon, its value. */
  function MemberText(m: Member): string
    decreases m
  {
    QuoteString(m.name) + ":" + Stringify(m.value)
  }
}
