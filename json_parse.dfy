/**
  `JSON.parse` as a partial function: a text is valid JSON when, after optional
  whitespace, it holds exactly one JSON value followed by optional whitespace.
  Each parser below reads a prefix of its input and returns the value read and the
  rest of the input, or None when the prefix is not JSON.
 */
module JsonParse {
  import opened Wrappers
  import opened JsonValue
  import opened JsonText

  /** JSON insignificant whitespace: space, tab, line feed, carriage return. */
  predicate IsWs(c: char)
  {
    c == ' ' || c == '\t' || c == '\n' || c == '\r'
  }

  function SkipWs(s: string): (r: string)
    ensures |r| <= |s|
    ensures r == [] || !IsWs(r[0])
  {
    if s != [] && IsWs(s[0]) then SkipWs(s[1..]) else s
  }

  /** The longest prefix of s made of decimal digits. */
  function DigitRun(s: string): (run: string)
    ensures AllDigits(run) && |run| <= |s| && run == s[..|run|]
    ensures |run| == |s| || !IsDigit(s[|run|])
  {
    if s != [] && IsDigit(s[0]) then [s[0]] + DigitRun(s[1..]) else []
  }

  /** An optional exponent part `e`/`E`, optional sign, digits. */
  function ParseExponent(s: string): (r: Option<(int, string)>)
    ensures r.Some? ==> |r.value.1| <= |s|
  {
    if s != [] && (s[0] == 'e' || s[0] == 'E') then
      var t := s[1..];
      var negative := t != [] && t[0] == '-';
      var t1 := if t != [] && (t[0] == '+' || t[0] == '-') then t[1..] else t;
      var ds := DigitRun(t1);
      if ds == [] then None
      else Some((if negative then 0 - DigitsValue(ds) as int else DigitsValue(ds), t1[|ds|..]))
    else Some((0, s))
  }

  /** The integer part of a number: `0`, or a digit run without a leading zero. */
  function ParseIntPart(s: string): (r: Option<(string, string)>)
    ensures r.Some? ==> AllDigits(r.value.0) && |r.value.1| < |s|
  {
    if s == [] || !IsDigit(s[0]) then None
    else if s[0] == '0' then Some(("0", s[1..]))
    else
      var ds := DigitRun(s);
      Some((ds, s[|ds|..]))
  }

  /** An optional fraction part: `.` and one or more digits. */
  function ParseFraction(s: string): (r: Option<(string, string)>)
    ensures r.Some? ==> AllDigits(r.value.0) && |r.value.1| <= |s|
  {
    if s != [] && s[0] == '.' then
      var ds := DigitRun(s[1..]);
      if ds == [] then None else Some((ds, s[1 + |ds|..]))
    else Some(("", s))
  }

  /** The number spelled by a sign, integer digits, fraction digits and an exponent. */
  function NumberOf(negative: bool, intPart: string, fracPart: string, exp: int): Number
  {
    Normalize(negative, DigitsValue(intPart + fracPart), exp - |fracPart|)
  }

  /** A number without its sign: integer part, optional fraction, optional exponent. */
  function ParseMagnitude(negative: bool, s: string): (r: Option<(Number, string)>)
    ensures r.Some? ==> |r.value.1| < |s|
  {
    var intPart := ParseIntPart(s);
    if intPart.None? then None
    else
      var fracPart := ParseFraction(intPart.value.1);
      if fracPart.None? then None
      else
        var exp := ParseExponent(fracPart.value.1);
        if exp.None? then None
        else
          Some((NumberOf(negative, intPart.value.0, fracPart.value.0, exp.value.0), exp.value.1))
  }

  /** A number: optional minus sign, then its magnitude. */
  function ParseNumber(s: string): (r: Option<(Number, string)>)
    ensures r.Some? ==> |r.value.1| < |s|
  {
    if s != [] && s[0] == '-' then ParseMagnitude(true, s[1..]) else ParseMagnitude(false, s)
  }

  function HexValue(c: char): Option<nat>
  {
    if IsDigit(c) then Some(DigitValue(c))
    else if 'a' <= c <= 'f' then Some(c as int - 87)
    else if 'A' <= c <= 'F' then Some(c as int - 55)
    else None
  }

  /** Four hexadecimal digits. */
  function ParseHex4(h: string): (r: Option<nat>)
    requires |h| == 4
    ensures r.Some? ==> r.value < 0x1_0000
  {
    match (HexValue(h[0]), HexValue(h[1]), HexValue(h[2]), HexValue(h[3]))
    case (Some(a), Some(b), Some(c), Some(d)) =>
      if a < 16 && b < 16 && c < 16 && d < 16 then Some(((a * 16 + b) * 16 + c) * 16 + d) else None
    case _ => None
  }

  /** The character an escape sequence stands for; s starts just after the backslash. */
  function Unescape(s: string): (r: Option<(char, string)>)
    ensures r.Some? ==> |r.value.1| < |s|
  {
    if s == [] then None
    else if s[0] == '"' then Some(('"', s[1..]))
    else if s[0] == '\\' then Some(('\\', s[1..]))
    else if s[0] == '/' then Some(('/', s[1..]))
    else if s[0] == 'b' then Some((Backspace, s[1..]))
    else if s[0] == 'f' then Some((FormFeed, s[1..]))
    else if s[0] == 'n' then Some(('\n', s[1..]))
    else if s[0] == 'r' then Some(('\r', s[1..]))
    else if s[0] == 't' then Some(('\t', s[1..]))
    else if s[0] == 'u' && |s| >= 5 then
      match ParseHex4(s[1..5])
      case None => None
      case Some(code) => if 0xD800 <= code < 0xE000 then None else Some((code as char, s[5..]))
    else None
  }

  /** The characters of a string literal up to its closing quote; s starts just after the opening quote. */
  function ParseStringBody(s: string): (r: Option<(string, string)>)
    ensures r.Some? ==> |r.value.1| < |s|
    decreases |s|
  {
    if s == [] then None
    else if s[0] == '"' then Some(("", s[1..]))
    else if s[0] == '\\' then
      match Unescape(s[1..])
      case None => None
      case Some((c, t)) =>
        match ParseStringBody(t)
        case None => None
        case Some((str, rest)) => Some(([c] + str, rest))
    else if (s[0] as int) < 32 then None
    else
      match ParseStringBody(s[1..])
      case None => None
      case Some((str, rest)) => Some(([s[0]] + str, rest))
  }

  /** A literal word such as `null`, standing for the value v. */
  function ParseWord(s: string, word: string, v: Json): (r: Option<(Json, string)>)
    requires |word| > 0
    ensures r.Some? ==> |r.value.1| < |s|
  {
    if |word| <= |s| && s[..|word|] == word then Some((v, s[|word|..])) else None
  }

  /** A string value; s starts just after the opening quote. */
  function ParseStringValue(s: string): (r: Option<(Json, string)>)
    ensures r.Some? ==> |r.value.1| < |s|
  {
    match ParseStringBody(s)
    case None => None
    case Some((str, rest)) => Some((JStr(str), rest))
  }

  function ParseNumberValue(s: string): (r: Option<(Json, string)>)
    ensures r.Some? ==> |r.value.1| < |s|
  {
    match ParseNumber(s)
    case None => None
    case Some((n, rest)) => Some((JNum(n), rest))
  }

  /** One JSON value after optional leading whitespace; its first character decides its kind. */
  function ParseValue(s: string): (r: Option<(Json, string)>)
    ensures r.Some? ==> |r.value.1| < |s|
    decreases |s|, 0
  {
    var t := SkipWs(s);
    if t == [] then None
    else if t[0] == 'n' then ParseWord(t, "null", JNull)
    else if t[0] == 't' then ParseWord(t, "true", JBool(true))
    else if t[0] == 'f' then ParseWord(t, "false", JBool(false))
    else if t[0] == '"' then ParseStringValue(t[1..])
    else if t[0] == '[' then ParseArray(t[1..])
    else if t[0] == '{' then ParseObject(t[1..])
    else if t[0] == '-' || IsDigit(t[0]) then ParseNumberValue(t)
    else None
  }

  /** An array; s starts just after `[`. */
  function ParseArray(s: string): (r: Option<(Json, string)>)
    ensures r.Some? ==> |r.value.1| < |s|
    decreases |s|, 2
  {
    var t := SkipWs(s);
    if t != [] && t[0] == ']' then Some((JArr([]), t[1..]))
    else
      match ParseItems(s)
      case None => None
      case Some((items, rest)) => Some((JArr(items), rest))
  }

  /** One or more comma-separated values and the closing `]`. */
  function ParseItems(s: string): (r: Option<(seq<Json>, string)>)
    ensures r.Some? ==> |r.value.1| < |s|
    decreases |s|, 1
  {
    match ParseValue(s)
    case None => None
    case Some((v, afterValue)) =>
      var t := SkipWs(afterValue);
      if t == [] then None
      else if t[0] == ']' then Some(([v], t[1..]))
      else if t[0] == ',' then
        match ParseItems(t[1..])
        case None => None
        case Some((vs, rest)) => Some(([v] + vs, rest))
      else None
  }

  /** An object; s starts just after `{`. */
  function ParseObject(s: string): (r: Option<(Json, string)>)
    ensures r.Some? ==> |r.value.1| < |s|
    decreases |s|, 3
  {
    var t := SkipWs(s);
    if t != [] && t[0] == '}' then Some((JObj([]), t[1..]))
    else
      match ParseMembers(s)
      case None => None
      case Some((members, rest)) => Some((JObj(members), rest))
  }

  /** One or more comma-separated members and the closing `}`. */
  function ParseMembers(s: string): (r: Option<(seq<Member>, string)>)
    ensures r.Some? ==> |r.value.1| < |s|
    decreases |s|, 2
  {
    match ParseMember(s)
    case None => None
    case Some((m, afterMember)) =>
      var t := SkipWs(afterMember);
      if t == [] then None
      else if t[0] == '}' then Some(([m], t[1..]))
      else if t[0] == ',' then
        match ParseMembers(t[1..])
        case None => None
        case Some((ms, rest)) => Some(([m] + ms, rest))
      else None
  }

  /** One `"name": value` member. */
  function ParseMember(s: string): (r: Option<(Member, string)>)
    ensures r.Some? ==> |r.value.1| < |s|
    decreases |s|, 1
  {
    var t := SkipWs(s);
    if t == [] || t[0] != '"' then None
    else
      match ParseStringBody(t[1..])
      case None => None
      case Some((name, afterName)) =>
        var t1 := SkipWs(afterName);
        if t1 == [] || t1[0] != ':' then None
        else
          match ParseValue(t1[1..])
          case None => None
          case Some((v, rest)) => Some((Member(name, v), rest))
  }

  /** JSON.parse: one value, surrounded only by whitespace; None where JSON.parse throws a SyntaxError. */
  function Parse(s: string): Option<Json>
  {
    match ParseValue(s)
    case None => None
    case Some((v, rest)) => if SkipWs(rest) == [] then Some(v) else None
  }
}
