/**
  The round trip between JSON.stringify and JSON.parse: parsing the text of a value
  gives the value back. Each kind of token is proved separately, in the context that
  follows it inside a larger text.
 */
module JsonRoundTrip {
  import opened Wrappers
  import opened JsonValue
  import opened JsonText
  import opened JsonParse

  /** What may follow a value inside the text JSON.stringify writes. */
  predicate Follows(rest: string)
  {
    rest == [] || rest[0] == ',' || rest[0] == ']' || rest[0] == '}'
  }

  // ---- digits -------------------------------------------------------------------

  lemma {:induction false} DigitRunOf(ds: string, rest: string)
    requires AllDigits(ds)
    requires rest == [] || !IsDigit(rest[0])
    ensures DigitRun(ds + rest) == ds
  {
    if ds != [] {
      assert (ds + rest)[1..] == ds[1..] + rest;
      DigitRunOf(ds[1..], rest);
      assert [ds[0]] + ds[1..] == ds;
    } else {
      assert ds + rest == rest;
    }
  }

  lemma Distribute(x: int, p: int, y: int, d: int)
    ensures 10 * (x * p + y) + d == x * (10 * p) + (10 * y + d)
  {
  }

  lemma {:induction false} DigitsValueAppend(a: string, b: string)
    requires AllDigits(a) && AllDigits(b)
    ensures AllDigits(a + b)
    ensures DigitsValue(a + b) == DigitsValue(a) * Pow10(|b|) + DigitsValue(b)
  {
    if b == [] {
      assert a + b == a;
    } else {
      var b' := b[..|b| - 1];
      var last := b[|b| - 1];
      assert AllDigits(b');
      assert (a + b)[..|a + b| - 1] == a + b';
      assert (a + b)[|a + b| - 1] == last;
      DigitsValueAppend(a, b');
      assert DigitsValue(a + b) == 10 * DigitsValue(a + b') + DigitValue(last);
      assert DigitsValue(b) == 10 * DigitsValue(b') + DigitValue(last);
      assert Pow10(|b|) == 10 * Pow10(|b'|);
      Distribute(DigitsValue(a), Pow10(|b'|), DigitsValue(b'), DigitValue(last));
    }
  }

  lemma {:induction false} ZerosValue(k: nat)
    ensures DigitsValue(Zeros(k)) == 0
  {
    if k > 0 {
      var z := Zeros(k);
      assert z[..k - 1] == Zeros(k - 1);
      ZerosValue(k - 1);
    }
  }

  /** Leading zeros do not change the value of a digit run. */
  lemma LeadingZerosValue(k: nat, ds: string)
    requires AllDigits(ds)
    ensures AllDigits(Zeros(k) + ds)
    ensures DigitsValue(Zeros(k) + ds) == DigitsValue(ds)
  {
    DigitsValueAppend(Zeros(k), ds);
    ZerosValue(k);
  }

  lemma TimesTen(m: nat, p: nat)
    ensures m * (10 * p) == 10 * (m * p)
    ensures (10 * (m * p)) % 10 == 0 && (10 * (m * p)) / 10 == m * p
  {
  }

  /** Trailing zeros of a digit run move into the exponent when normalising. */
  lemma {:induction false} NormalizeScaled(negative: bool, m: nat, j: nat, e: int)
    requires m % 10 != 0
    ensures Normalize(negative, m * Pow10(j), e) == Decimal(negative, m, e + j)
  {
    if j > 0 {
      var q := m * Pow10(j - 1);
      TimesTen(m, Pow10(j - 1));
      assert m * Pow10(j) == 10 * q;
      assert q != 0;
      NormalizeScaled(negative, m, j - 1, e + 1);
    }
  }

  /** NatDigits spells n, with a leading zero only for n == 0. */
  lemma {:induction false} NatDigitsValue(n: nat)
    ensures DigitsValue(NatDigits(n)) == n
    ensures NatDigits(n)[0] == '0' <==> n == 0
    ensures n == 0 ==> NatDigits(n) == "0"
    decreases n
  {
    if n >= 10 {
      var ds := NatDigits(n);
      NatDigitsValue(n / 10);
      assert ds[..|ds| - 1] == NatDigits(n / 10);
      assert ds[0] == NatDigits(n / 10)[0];
    }
  }

  // ---- numbers ------------------------------------------------------------------

  lemma IntPartOf(ds: string, rest: string)
    requires |ds| >= 1 && AllDigits(ds) && (ds[0] != '0' || ds == "0")
    requires rest == [] || !IsDigit(rest[0])
    ensures ParseIntPart(ds + rest) == Some((ds, rest))
  {
    if ds[0] == '0' {
      assert (ds + rest)[1..] == rest;
    } else {
      DigitRunOf(ds, rest);
      assert (ds + rest)[|ds|..] == rest;
    }
  }

  lemma FractionOf(ds: string, rest: string)
    requires |ds| >= 1 && AllDigits(ds)
    requires rest == [] || !IsDigit(rest[0])
    ensures ParseFraction("." + ds + rest) == Some((ds, rest))
  {
    var s := "." + ds + rest;
    assert s[1..] == ds + rest;
    DigitRunOf(ds, rest);
    assert s[1 + |ds|..] == rest;
  }

  lemma NoFraction(rest: string)
    requires rest == [] || rest[0] != '.'
    ensures ParseFraction(rest) == Some(("", rest))
  {
  }

  lemma NoExponent(rest: string)
    requires Follows(rest)
    ensures ParseExponent(rest) == Some((0, rest))
  {
  }

  lemma Regroup4(a: string, b: string, c: string, d: string)
    ensures a + b + c + d == a + (b + (c + d))
  {
  }

  lemma DropHead(a: string, b: string)
    requires |a| == 1
    ensures (a + b)[1..] == b
  {
  }

  /** An exponent part `e+` and its digits. */
  lemma PlusExponentOf(s: string, ds: string, rest: string)
    requires |s| >= 2 && s[0] == 'e' && s[1] == '+'
    requires |ds| >= 1 && AllDigits(ds) && Follows(rest) && s[2..] == ds + rest
    ensures ParseExponent(s) == Some((DigitsValue(ds) as int, rest))
  {
    var u := s[2..];
    assert s[1..][1..] == u;
    assert DigitRun(u) == ds by {
      DigitRunOf(ds, rest);
    }
    assert u[|ds|..] == rest;
    var r := ParseExponent(s);
    assert r.Some? && r.value.0 == DigitsValue(ds) && r.value.1 == rest;
  }

  /** An exponent part `e-` and its digits. */
  lemma MinusExponentOf(s: string, ds: string, rest: string)
    requires |s| >= 2 && s[0] == 'e' && s[1] == '-'
    requires |ds| >= 1 && AllDigits(ds) && Follows(rest) && s[2..] == ds + rest
    ensures ParseExponent(s) == Some((0 - DigitsValue(ds) as int, rest))
  {
    var u := s[2..];
    assert s[1..][1..] == u;
    assert DigitRun(u) == ds by {
      DigitRunOf(ds, rest);
    }
    assert u[|ds|..] == rest;
    var r := ParseExponent(s);
    assert r.Some? && r.value.0 == 0 - DigitsValue(ds) as int && r.value.1 == rest;
  }

  lemma ExponentOf(x: int, rest: string)
    requires Follows(rest)
    ensures ParseExponent(ExponentText(x) + rest) == Some((x, rest))
  {
    var ds := NatDigits(Abs(x));
    NatDigitsValue(Abs(x));
    var s := ExponentText(x) + rest;
    if x < 0 {
      assert s == "e-" + ds + rest;
      assert s[2..] == ds + rest;
      MinusExponentOf(s, ds, rest);
    } else {
      assert s == "e+" + ds + rest;
      assert s[2..] == ds + rest;
      PlusExponentOf(s, ds, rest);
    }
  }

  /** ParseMagnitude put together from its three parts. */
  lemma MagnitudeOf(negative: bool, s: string, intPart: string, fracPart: string, afterInt: string, afterFrac: string, exp: int, rest: string)
    requires ParseIntPart(s) == Some((intPart, afterInt))
    requires ParseFraction(afterInt) == Some((fracPart, afterFrac))
    requires ParseExponent(afterFrac) == Some((exp, rest))
    ensures ParseMagnitude(negative, s) == Some((NumberOf(negative, intPart, fracPart, exp), rest))
  {
  }

  lemma AllDigitsAppend(a: string, b: string)
    requires AllDigits(a) && AllDigits(b)
    ensures AllDigits(a + b)
  {
    forall i | 0 <= i < |a + b|
      ensures IsDigit((a + b)[i])
    {
      if i < |a| {
        assert (a + b)[i] == a[i];
      } else {
        assert (a + b)[i] == b[i - |a|];
      }
    }
  }

  /** A magnitude written in positional notation with no fraction: digits, then zeros. */
  lemma IntegerNotationRoundTrip(x: Number, rest: string)
    requires Follows(rest)
    requires x.exponent >= 0 && |NatDigits(x.mantissa)| + x.exponent <= 21
    ensures ParseMagnitude(x.negative, MagnitudeText(x) + rest) == Some((x, rest))
  {
    var ds := NatDigits(x.mantissa);
    NatDigitsValue(x.mantissa);
    var intPart := ds + Zeros(x.exponent);
    assert MagnitudeText(x) == intPart;
    assert ParseIntPart(intPart + rest) == Some((intPart, rest)) by {
      if x.mantissa == 0 {
        assert intPart == "0";
      }
      IntPartOf(intPart, rest);
    }
    NoFraction(rest);
    NoExponent(rest);
    MagnitudeOf(x.negative, intPart + rest, intPart, "", rest, rest, 0, rest);
    assert NumberOf(x.negative, intPart, "", 0) == x by {
      assert intPart + "" == intPart;
      DigitsValueAppend(ds, Zeros(x.exponent));
      ZerosValue(x.exponent);
      if x.mantissa != 0 {
        NormalizeScaled(x.negative, x.mantissa, x.exponent, 0);
      }
    }
  }

  /** Digits, a point and more digits, with no exponent. */
  lemma PointedOf(negative: bool, intPart: string, fracPart: string, rest: string)
    requires |intPart| >= 1 && AllDigits(intPart) && (intPart[0] != '0' || intPart == "0")
    requires |fracPart| >= 1 && AllDigits(fracPart)
    requires Follows(rest)
    ensures ParseMagnitude(negative, intPart + "." + fracPart + rest) == Some((NumberOf(negative, intPart, fracPart, 0), rest))
  {
    var s := intPart + "." + fracPart + rest;
    assert s == intPart + ("." + fracPart + rest);
    IntPartOf(intPart, "." + fracPart + rest);
    FractionOf(fracPart, rest);
    NoExponent(rest);
    MagnitudeOf(negative, s, intPart, fracPart, "." + fracPart + rest, rest, 0, rest);
  }

  /** A magnitude written with its decimal point inside its digits. */
  lemma PointNotationRoundTrip(x: Number, rest: string)
    requires Follows(rest)
    requires x.exponent < 0 && 0 < |NatDigits(x.mantissa)| + x.exponent <= 21
    ensures ParseMagnitude(x.negative, MagnitudeText(x) + rest) == Some((x, rest))
  {
    var ds := NatDigits(x.mantissa);
    NatDigitsValue(x.mantissa);
    var p := |ds| + x.exponent;
    var intPart, fracPart := ds[..p], ds[p..];
    assert MagnitudeText(x) == intPart + "." + fracPart;
    assert intPart[0] == ds[0];
    PointedOf(x.negative, intPart, fracPart, rest);
    assert NumberOf(x.negative, intPart, fracPart, 0) == x by {
      assert intPart + fracPart == ds;
      NormalizeCanonical(x);
    }
  }

  /** A magnitude below 1 written as `0.`, leading zeros and its digits. */
  lemma FractionNotationRoundTrip(x: Number, rest: string)
    requires Follows(rest)
    requires x.exponent < 0 && -6 < |NatDigits(x.mantissa)| + x.exponent <= 0
    ensures ParseMagnitude(x.negative, MagnitudeText(x) + rest) == Some((x, rest))
  {
    var ds := NatDigits(x.mantissa);
    NatDigitsValue(x.mantissa);
    var p := |ds| + x.exponent;
    var fracPart := Zeros(-p) + ds;
    assert MagnitudeText(x) == "0" + "." + fracPart;
    AllDigitsAppend(Zeros(-p), ds);
    PointedOf(x.negative, "0", fracPart, rest);
    assert NumberOf(x.negative, "0", fracPart, 0) == x by {
      assert "0" + fracPart == Zeros(1 - p) + ds;
      LeadingZerosValue(1 - p, ds);
      NormalizeCanonical(x);
    }
  }

  /** A magnitude written in exponential notation. */
  lemma ExponentialNotationRoundTrip(x: Number, rest: string)
    requires Follows(rest)
    requires var p := |NatDigits(x.mantissa)| + x.exponent;
      !(x.exponent >= 0 && p <= 21) && !(0 < p <= 21) && !(-6 < p <= 0)
    ensures ParseMagnitude(x.negative, MagnitudeText(x) + rest) == Some((x, rest))
  {
    var ds := NatDigits(x.mantissa);
    var p := |ds| + x.exponent;
    if |ds| == 1 {
      assert MagnitudeText(x) == ds + ExponentText(p - 1);
      OneDigitExponentialRoundTrip(x, ds, p - 1, rest);
    } else {
      assert MagnitudeText(x) == ds[..1] + "." + ds[1..] + ExponentText(p - 1);
      ManyDigitExponentialRoundTrip(x, ds, p - 1, rest);
    }
  }

  /** `de+x`: one digit and an exponent. */
  lemma OneDigitExponentialRoundTrip(x: Number, ds: string, exp: int, rest: string)
    requires Follows(rest)
    requires ds == NatDigits(x.mantissa) && |ds| == 1 && x.mantissa != 0 && exp == x.exponent
    ensures ParseMagnitude(x.negative, ds + ExponentText(exp) + rest) == Some((x, rest))
  {
    NatDigitsValue(x.mantissa);
    var expText := ExponentText(exp);
    var s := ds + expText + rest;
    ExponentOf(exp, rest);
    assert s == ds + (expText + rest);
    IntPartOf(ds, expText + rest);
    NoFraction(expText + rest);
    MagnitudeOf(x.negative, s, ds, "", expText + rest, expText + rest, exp, rest);
    assert NumberOf(x.negative, ds, "", exp) == x by {
      assert ds + "" == ds;
      NormalizeCanonical(x);
    }
  }

  /** Digits, a point, more digits and an exponent part. */
  lemma PointedExponentOf(negative: bool, intPart: string, fracPart: string, exp: int, rest: string)
    requires |intPart| >= 1 && AllDigits(intPart) && (intPart[0] != '0' || intPart == "0")
    requires |fracPart| >= 1 && AllDigits(fracPart)
    requires Follows(rest)
    ensures ParseMagnitude(negative, intPart + "." + fracPart + ExponentText(exp) + rest)
         == Some((NumberOf(negative, intPart, fracPart, exp), rest))
  {
    var expText := ExponentText(exp);
    var s := intPart + "." + fracPart + expText + rest;
    ExponentOf(exp, rest);
    assert s == intPart + ("." + fracPart + (expText + rest));
    assert expText[0] == 'e';
    IntPartOf(intPart, "." + fracPart + (expText + rest));
    FractionOf(fracPart, expText + rest);
    MagnitudeOf(negative, s, intPart, fracPart, "." + fracPart + (expText + rest), expText + rest, exp, rest);
  }

  /** `d.ddde+x`: a first digit, the point, the other digits and an exponent. */
  lemma ManyDigitExponentialRoundTrip(x: Number, ds: string, exp: int, rest: string)
    requires Follows(rest)
    requires ds == NatDigits(x.mantissa) && |ds| > 1 && exp == |ds| - 1 + x.exponent
    ensures ParseMagnitude(x.negative, ds[..1] + "." + ds[1..] + ExponentText(exp) + rest) == Some((x, rest))
  {
    NatDigitsValue(x.mantissa);
    var intPart, fracPart := ds[..1], ds[1..];
    assert intPart[0] == ds[0];
    PointedExponentOf(x.negative, intPart, fracPart, exp, rest);
    assert NumberOf(x.negative, intPart, fracPart, exp) == x by {
      assert intPart + fracPart == ds;
      NormalizeCanonical(x);
    }
  }

  /** A canonical number is its own normal form. */
  lemma NormalizeCanonical(x: Number)
    ensures Normalize(x.negative, x.mantissa, x.exponent) == x
  {
  }

  /** A magnitude's text starts with a digit. */
  lemma MagnitudeTextStart(x: Number)
    ensures |MagnitudeText(x)| > 0 && IsDigit(MagnitudeText(x)[0])
  {
    var ds := NatDigits(x.mantissa);
    var p := |ds| + x.exponent;
    if x.exponent >= 0 && p <= 21 {
      assert MagnitudeText(x) == ds + Zeros(x.exponent);
    } else if 0 < p <= 21 {
      assert MagnitudeText(x) == ds[..p] + "." + ds[p..];
    } else if -6 < p <= 0 {
      assert MagnitudeText(x) == "0." + Zeros(-p) + ds;
    } else {
      assert MagnitudeText(x) == ds[..1] + (if |ds| == 1 then "" else "." + ds[1..]) + ExponentText(p - 1);
    }
  }

  lemma MagnitudeRoundTrip(x: Number, rest: string)
    requires Follows(rest)
    ensures ParseMagnitude(x.negative, MagnitudeText(x) + rest) == Some((x, rest))
  {
    var p := |NatDigits(x.mantissa)| + x.exponent;
    if x.exponent >= 0 && p <= 21 {
      IntegerNotationRoundTrip(x, rest);
    } else if 0 < p <= 21 {
      PointNotationRoundTrip(x, rest);
    } else if -6 < p <= 0 {
      FractionNotationRoundTrip(x, rest);
    } else {
      ExponentialNotationRoundTrip(x, rest);
    }
  }

  lemma SignedNumber(negative: bool, m: string, y: Number, rest: string)
    requires m != [] && m[0] != '-'
    requires ParseMagnitude(negative, m) == Some((y, rest))
    ensures ParseNumber((if negative then "-" else "") + m) == Some((y, rest))
  {
    if negative {
      assert ("-" + m)[1..] == m;
    } else {
      assert "" + m == m;
    }
  }

  lemma NumberRoundTrip(x: Number, rest: string)
    requires Follows(rest)
    ensures ParseNumber(NumberText(x) + rest) == Some((x, rest))
  {
    MagnitudeRoundTrip(x, rest);
    MagnitudeTextStart(x);
    var m := MagnitudeText(x) + rest;
    SignedNumber(x.negative, m, x, rest);
    assert NumberText(x) + rest == (if x.negative then "-" else "") + m;
  }

  // ---- strings ------------------------------------------------------------------

  lemma HexRoundTrip(d: nat)
    requires d < 16
    ensures HexValue(HexDigit(d)) == Some(d)
  {
  }

  /** A control character written as `\u00hh` reads back as itself. */
  lemma UnicodeEscapeRoundTrip(c: char, t: string)
    requires (c as int) < 32
    ensures Unescape("u00" + [HexDigit(c as int / 16), HexDigit(c as int % 16)] + t) == Some((c, t))
  {
    var s := "u00" + [HexDigit(c as int / 16), HexDigit(c as int % 16)] + t;
    HexRoundTrip(0);
    HexRoundTrip(c as int / 16);
    HexRoundTrip(c as int % 16);
    assert s[1..5] == ['0', '0', HexDigit(c as int / 16), HexDigit(c as int % 16)];
    assert ParseHex4(s[1..5]) == Some(c as int);
    assert s[5..] == t;
  }

  /** Reading one escaped character, then the rest of the literal. */
  lemma EscapeCharRoundTrip(c: char, t: string)
    ensures ParseStringBody(EscapeChar(c) + t) ==
      match ParseStringBody(t)
      case None => None
      case Some((str, rest)) => Some(([c] + str, rest))
  {
    var s := EscapeChar(c) + t;
    if |EscapeChar(c)| == 2 {
      assert s[1..] == [EscapeChar(c)[1]] + t;
    } else if |EscapeChar(c)| == 6 {
      assert s[1..] == "u00" + [HexDigit(c as int / 16), HexDigit(c as int % 16)] + t;
      UnicodeEscapeRoundTrip(c, t);
    } else {
      assert s[1..] == t;
    }
  }

  lemma {:induction false} StringRoundTrip(str: string, rest: string)
    ensures ParseStringBody(EscapeString(str) + "\"" + rest) == Some((str, rest))
  {
    if str == [] {
      assert EscapeString(str) + "\"" + rest == "\"" + rest;
    } else {
      var t := EscapeString(str[1..]) + "\"" + rest;
      assert EscapeString(str) + "\"" + rest == EscapeChar(str[0]) + t;
      StringRoundTrip(str[1..], rest);
      EscapeCharRoundTrip(str[0], t);
      assert [str[0]] + str[1..] == str;
    }
  }

  // ---- one parsing step at a time ----------------------------------------------

  lemma SkipNone(s: string)
    requires s != [] && !IsWs(s[0])
    ensures SkipWs(s) == s
  {
  }

  lemma ValueWord(word: string, v: Json, rest: string)
    requires |word| > 0
    ensures ParseWord(word + rest, word, v) == Some((v, rest))
  {
    var s := word + rest;
    assert s[..|word|] == word && s[|word|..] == rest;
  }

  lemma ValueString(body: string)
    ensures ParseValue("\"" + body) == ParseStringValue(body)
  {
    var s := "\"" + body;
    SkipNone(s);
    assert s[1..] == body;
  }

  lemma ValueArray(body: string)
    ensures ParseValue("[" + body) == ParseArray(body)
  {
    var s := "[" + body;
    SkipNone(s);
    assert s[1..] == body;
  }

  lemma ValueObject(body: string)
    ensures ParseValue("{" + body) == ParseObject(body)
  {
    var s := "{" + body;
    SkipNone(s);
    assert s[1..] == body;
  }

  lemma ValueNumber(s: string)
    requires s != [] && (s[0] == '-' || IsDigit(s[0]))
    ensures ParseValue(s) == ParseNumberValue(s)
  {
    SkipNone(s);
    assert s[0] != 'n' && s[0] != 't' && s[0] != 'f' && s[0] != '"' && s[0] != '[' && s[0] != '{' by {
      if s[0] != '-' {
        assert '0' <= s[0] <= '9';
      }
    }
  }

  lemma ItemsLast(s: string, v: Json, rest: string)
    requires ParseValue(s) == Some((v, "]" + rest))
    ensures ParseItems(s) == Some(([v], rest))
  {
    var t := "]" + rest;
    SkipNone(t); assert t[1..] == rest;
  }

  lemma ItemsNext(s: string, v: Json, tail: string, vs: seq<Json>, rest: string)
    requires ParseValue(s) == Some((v, "," + tail))
    requires ParseItems(tail) == Some((vs, rest))
    ensures ParseItems(s) == Some(([v] + vs, rest))
  {
    var t := "," + tail;
    SkipNone(t); assert t[1..] == tail;
  }

  lemma MembersLast(s: string, m: Member, rest: string)
    requires ParseMember(s) == Some((m, "}" + rest))
    ensures ParseMembers(s) == Some(([m], rest))
  {
    var t := "}" + rest;
    SkipNone(t); assert t[1..] == rest;
  }

  lemma MembersNext(s: string, m: Member, tail: string, ms: seq<Member>, rest: string)
    requires ParseMember(s) == Some((m, "," + tail))
    requires ParseMembers(tail) == Some((ms, rest))
    ensures ParseMembers(s) == Some(([m] + ms, rest))
  {
    var t := "," + tail;
    SkipNone(t); assert t[1..] == tail;
  }

  lemma MemberStep(nameText: string, name: string, valueText: string, v: Json, rest: string)
    requires ParseStringBody(nameText) == Some((name, ":" + valueText))
    requires ParseValue(valueText) == Some((v, rest))
    ensures ParseMember("\"" + nameText) == Some((Member(name, v), rest))
  {
    var s := "\"" + nameText;
    SkipNone(s); assert s[1..] == nameText;
    var t := ":" + valueText;
    SkipNone(t); assert t[1..] == valueText;
  }

  // ---- values -------------------------------------------------------------------

  /** The characters a value's text can start with. */
  predicate StartsValue(c: char)
  {
    c == 'n' || c == 't' || c == 'f' || c == '"' || c == '[' || c == '{' || c == '-' || IsDigit(c)
  }

  lemma StringifyStart(v: Json)
    ensures |Stringify(v)| > 0 && StartsValue(Stringify(v)[0])
  {
    match v
    case JNum(n) => MagnitudeTextStart(n);
    case _ =>
  }

  lemma LiteralRoundTrip(v: Json, rest: string)
    requires v.JNull? || v.JBool?
    ensures ParseValue(Stringify(v) + rest) == Some((v, rest))
  {
    var word := Stringify(v);
    ValueWord(word, v, rest);
    SkipNone(word + rest);
  }

  lemma NumberValueRoundTrip(n: Number, rest: string)
    requires Follows(rest)
    ensures ParseValue(Stringify(JNum(n)) + rest) == Some((JNum(n), rest))
  {
    NumberRoundTrip(n, rest);
    MagnitudeTextStart(n);
    ValueNumber(NumberText(n) + rest);
  }

  lemma StringValueRoundTrip(str: string, rest: string)
    ensures ParseValue(Stringify(JStr(str)) + rest) == Some((JStr(str), rest))
  {
    assert Stringify(JStr(str)) + rest == "\"" + (EscapeString(str) + "\"" + rest);
    StringRoundTrip(str, rest);
    ValueString(EscapeString(str) + "\"" + rest);
  }

  lemma {:induction false} ValueRoundTrip(v: Json, rest: string)
    requires Follows(rest)
    ensures ParseValue(Stringify(v) + rest) == Some((v, rest))
    decreases v, 0
  {
    match v
    case JNull => LiteralRoundTrip(v, rest);
    case JBool(_) => LiteralRoundTrip(v, rest);
    case JNum(n) => NumberValueRoundTrip(n, rest);
    case JStr(str) => StringValueRoundTrip(str, rest);
    case JArr(items) =>
      assert Stringify(v) + rest == "[" + (ItemsText(items) + "]" + rest);
      ArrayRoundTrip(items, rest);
      ValueArray(ItemsText(items) + "]" + rest);
    case JObj(members) =>
      assert Stringify(v) + rest == "{" + (MembersText(members) + "}" + rest);
      ObjectRoundTrip(members, rest);
      ValueObject(MembersText(members) + "}" + rest);
  }

  lemma {:induction false} ArrayRoundTrip(items: seq<Json>, rest: string)
    requires Follows(rest)
    ensures ParseArray(ItemsText(items) + "]" + rest) == Some((JArr(items), rest))
    decreases items, 1
  {
    var s := ItemsText(items) + "]" + rest;
    if items == [] {
      assert s == "]" + rest;
      SkipNone(s);
      assert s[1..] == rest;
    } else {
      StringifyStart(items[0]);
      assert s[0] == Stringify(items[0])[0];
      SkipNone(s);
      ItemsRoundTrip(items, rest);
    }
  }

  /** Regrouping a five-part concatenation to the right. */
  lemma Regroup(a: string, b: string, c: string, d: string, e: string)
    ensures a + b + c + d + e == a + (b + (c + d + e))
  {
  }

  /** The last element of an array and its closing bracket. */
  lemma ItemsOne(items: seq<Json>, rest: string)
    requires |items| == 1
    requires ParseValue(Stringify(items[0]) + ("]" + rest)) == Some((items[0], "]" + rest))
    ensures ParseItems(ItemsText(items) + "]" + rest) == Some((items, rest))
  {
    var s := ItemsText(items) + "]" + rest;
    assert ItemsText(items) == Stringify(items[0]);
    assert s == Stringify(items[0]) + ("]" + rest);
    ItemsLast(s, items[0], rest);
    assert [items[0]] == items;
  }

  /** An element, a comma and the elements after it. */
  lemma ItemsMore(items: seq<Json>, rest: string)
    requires |items| > 1
    requires var tail := ItemsText(items[1..]) + "]" + rest;
      ParseValue(Stringify(items[0]) + ("," + tail)) == Some((items[0], "," + tail))
    requires ParseItems(ItemsText(items[1..]) + "]" + rest) == Some((items[1..], rest))
    ensures ParseItems(ItemsText(items) + "]" + rest) == Some((items, rest))
  {
    var tail := ItemsText(items[1..]) + "]" + rest;
    var s := ItemsText(items) + "]" + rest;
    assert ItemsText(items) == Stringify(items[0]) + "," + ItemsText(items[1..]);
    Regroup(Stringify(items[0]), ",", ItemsText(items[1..]), "]", rest);
    ItemsNext(s, items[0], tail, items[1..], rest);
    assert [items[0]] + items[1..] == items;
  }

  lemma {:induction false} ItemsRoundTrip(items: seq<Json>, rest: string)
    requires items != [] && Follows(rest)
    ensures ParseItems(ItemsText(items) + "]" + rest) == Some((items, rest))
    decreases items, 0
  {
    if |items| == 1 {
      ValueRoundTrip(items[0], "]" + rest);
      ItemsOne(items, rest);
    } else {
      var tail := ItemsText(items[1..]) + "]" + rest;
      ValueRoundTrip(items[0], "," + tail);
      ItemsRoundTrip(items[1..], rest);
      ItemsMore(items, rest);
    }
  }

  lemma {:induction false} ObjectRoundTrip(members: seq<Member>, rest: string)
    requires Follows(rest)
    ensures ParseObject(MembersText(members) + "}" + rest) == Some((JObj(members), rest))
    decreases members, 2
  {
    var s := MembersText(members) + "}" + rest;
    if members == [] {
      assert s == "}" + rest;
      SkipNone(s);
      assert s[1..] == rest;
    } else {
      var m := members[0];
      MemberTextSplit(m, []);
      assert MemberText(m) + [] == MemberText(m);
      if |members| == 1 {
        MembersTextOne(members, rest);
        assert s == MemberText(m) + ("}" + rest);
      } else {
        MembersTextMore(members, rest);
        assert s == MemberText(m) + ("," + (MembersText(members[1..]) + "}" + rest));
      }
      SkipNone(s);
      MembersRoundTrip(members, rest);
    }
  }

  lemma MembersTextOne(members: seq<Member>, rest: string)
    requires |members| == 1
    ensures MembersText(members) + "}" + rest == MemberText(members[0]) + ("}" + rest)
  {
    assert MembersText(members) == MemberText(members[0]);
  }

  lemma MembersTextMore(members: seq<Member>, rest: string)
    requires |members| > 1
    ensures MembersText(members) + "}" + rest == MemberText(members[0]) + ("," + (MembersText(members[1..]) + "}" + rest))
  {
    assert MembersText(members) == MemberText(members[0]) + "," + MembersText(members[1..]);
    Regroup(MemberText(members[0]), ",", MembersText(members[1..]), "}", rest);
  }

  /** The last member of an object and its closing brace. */
  lemma MembersOne(members: seq<Member>, rest: string)
    requires |members| == 1
    requires ParseMember(MemberText(members[0]) + ("}" + rest)) == Some((members[0], "}" + rest))
    ensures ParseMembers(MembersText(members) + "}" + rest) == Some((members, rest))
  {
    var s := MembersText(members) + "}" + rest;
    MembersTextOne(members, rest);
    MembersLast(s, members[0], rest);
    assert [members[0]] == members;
  }

  /** A member, a comma and the members after it. */
  lemma MembersMore(members: seq<Member>, rest: string)
    requires |members| > 1
    requires var tail := MembersText(members[1..]) + "}" + rest;
      ParseMember(MemberText(members[0]) + ("," + tail)) == Some((members[0], "," + tail))
    requires ParseMembers(MembersText(members[1..]) + "}" + rest) == Some((members[1..], rest))
    ensures ParseMembers(MembersText(members) + "}" + rest) == Some((members, rest))
  {
    var tail := MembersText(members[1..]) + "}" + rest;
    var s := MembersText(members) + "}" + rest;
    MembersTextMore(members, rest);
    MembersNext(s, members[0], tail, members[1..], rest);
    assert [members[0]] + members[1..] == members;
  }

  lemma {:induction false} MembersRoundTrip(members: seq<Member>, rest: string)
    requires members != [] && Follows(rest)
    ensures ParseMembers(MembersText(members) + "}" + rest) == Some((members, rest))
    decreases members, 1
  {
    if |members| == 1 {
      MemberRoundTrip(members[0], "}" + rest);
      MembersOne(members, rest);
    } else {
      var tail := MembersText(members[1..]) + "}" + rest;
      MemberRoundTrip(members[0], "," + tail);
      MembersRoundTrip(members[1..], rest);
      MembersMore(members, rest);
    }
  }

  lemma MemberTextSplit(m: Member, rest: string)
    ensures MemberText(m) + rest == "\"" + (EscapeString(m.name) + "\"" + (":" + (Stringify(m.value) + rest)))
  {
  }

  lemma {:induction false} MemberRoundTrip(m: Member, rest: string)
    requires Follows(rest)
    ensures ParseMember(MemberText(m) + rest) == Some((m, rest))
    decreases m, 0
  {
    var valueText := Stringify(m.value) + rest;
    var nameText := EscapeString(m.name) + "\"" + (":" + valueText);
    MemberTextSplit(m, rest);
    StringRoundTrip(m.name, ":" + valueText);
    ValueRoundTrip(m.value, rest);
    MemberStep(nameText, m.name, valueText, m.value, rest);
  }

  /** JSON.parse(JSON.stringify(v)) gives v back, for every JSON value. */
  lemma ParseStringify(v: Json)
    ensures Parse(Stringify(v)) == Some(v)
  {
    ValueRoundTrip(v, []);
    assert Stringify(v) + [] == Stringify(v);
  }
}
