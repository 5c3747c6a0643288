/** `JSON.stringify` on the literal values an `enum` may list (null, booleans,
    integers and strings), with a reader that inverts it.  Floating-point
    numbers, arrays and objects are not part of this model. */
module Json {
  import opened Wrappers
  import opened Text

  datatype JsonValue = JNull | JBool(b: bool) | JNumber(n: int) | JString(s: string)

  function HexDigit(d: nat): (c: char)
    requires d < 16
  {
    if d < 10 then DigitChar(d) else ('a' as int + d - 10) as char
  }

  function HexValue(c: char): Option<nat>
  {
    if IsDigit(c) then Some(c as int - '0' as int)
    else if 'a' <= c <= 'f' then Some(c as int - 'a' as int + 10)
    else if 'A' <= c <= 'F' then Some(c as int - 'A' as int + 10)
    else None
  }

  lemma HexRoundTrip(d: nat)
    requires d < 16
    ensures HexValue(HexDigit(d)) == Some(d)
  {
  }

  /** The escape `JSON.stringify` writes for one character of a string. */
  function EscapeChar(c: char): (r: string)
    ensures |r| >= 1
  {
    if c == '"' then ['\\', '"']
    else if c == '\\' then ['\\', '\\']
    else if c == '\U{0008}' then ['\\', 'b']
    else if c == '\U{000C}' then ['\\', 'f']
    else if c == '\n' then ['\\', 'n']
    else if c == '\r' then ['\\', 'r']
    else if c == '\t' then ['\\', 't']
    else if c as int < 0x20 then ['\\', 'u', '0', '0', HexDigit(c as int / 16), HexDigit(c as int % 16)]
    else [c]
  }

  function Escape(s: string): string
  {
    if s == [] then "" else EscapeChar(s[0]) + Escape(s[1..])
  }

  /** `JSON.stringify(v)`. */
  function Stringify(v: JsonValue): (r: string)
    ensures |r| >= 1
  {
    match v
    case JNull => "null"
    case JBool(b) => if b then "true" else "false"
    case JNumber(n) => if n < 0 then "-" + Decimal(-n) else Decimal(n)
    case JString(s) => "\"" + Escape(s) + "\""
  }

  function Prepend(c: char, r: Option<string>): Option<string>
  {
    match r
    case None => None
    case Some(t) => Some([c] + t)
  }

  /** The character a one-letter escape `\x` stands for. */
  function SimpleEscape(x: char): Option<char>
  {
    if x == '"' then Some('"')
    else if x == '\\' then Some('\\')
    else if x == '/' then Some('/')
    else if x == 'b' then Some('\U{0008}')
    else if x == 'f' then Some('\U{000C}')
    else if x == 'n' then Some('\n')
    else if x == 'r' then Some('\r')
    else if x == 't' then Some('\t')
    else None
  }

  /** The code point of four hexadecimal digits, when they are four and name a
      non-surrogate. */
  function HexQuad(t: string): Option<char>
    requires |t| == 4
  {
    match (HexValue(t[0]), HexValue(t[1]), HexValue(t[2]), HexValue(t[3]))
    case (Some(a), Some(b), Some(c), Some(d)) =>
      var v := ((a * 16 + b) * 16 + c) * 16 + d;
      if 0xD800 <= v < 0xE000 then None else Some(v as char)
    case _ => None
  }

  /** Reads the body of a JSON string literal back into its characters. */
  function Unescape(t: string): Option<string>
    decreases |t|
  {
    if t == [] then Some("")
    else if t[0] == '"' || (t[0] != '\\' && t[0] as int < 0x20) then None
    else if t[0] != '\\' then Prepend(t[0], Unescape(t[1..]))
    else if |t| < 2 then None
    else if t[1] == 'u' then
      if |t| < 6 then None
      else match HexQuad(t[2..6])
        case None => None
        case Some(c) => Prepend(c, Unescape(t[6..]))
    else match SimpleEscape(t[1])
      case None => None
      case Some(c) => Prepend(c, Unescape(t[2..]))
  }

  /** Reads back a literal `Stringify` can produce. */
  function Parse(t: string): Option<JsonValue>
  {
    if t == "null" then Some(JNull)
    else if t == "true" then Some(JBool(true))
    else if t == "false" then Some(JBool(false))
    else if |t| >= 2 && t[0] == '"' && t[|t| - 1] == '"' then
      match Unescape(t[1..|t| - 1])
      case None => None
      case Some(s) => Some(JString(s))
    else if |t| >= 2 && t[0] == '-' && forall i :: 1 <= i < |t| ==> IsDigit(t[i]) then
      Some(JNumber(0 - DigitsValue(t[1..]) as int))
    else if |t| >= 1 && forall i :: 0 <= i < |t| ==> IsDigit(t[i]) then
      Some(JNumber(DigitsValue(t)))
    else None
  }

  /** Unescaping undoes the escape of one character. */
  lemma UnescapeChar(c: char, rest: string)
    ensures Unescape(EscapeChar(c) + rest) == Prepend(c, Unescape(rest))
  {
    var e := EscapeChar(c);
    var t := e + rest;
    if c as int < 0x20 && c != '\U{0008}' && c != '\U{000C}' && c != '\n' && c != '\r' && c != '\t' {
      var hi, lo := c as int / 16, c as int % 16;
      HexRoundTrip(hi);
      HexRoundTrip(lo);
      assert t[2..6] == ['0', '0', HexDigit(hi), HexDigit(lo)];
      assert t[6..] == rest;
      assert HexQuad(t[2..6]) == Some(c);
    } else if |e| == 2 {
      assert t[2..] == rest;
    } else {
      assert t[1..] == rest;
    }
  }

  lemma {:induction false} UnescapeEscape(s: string)
    ensures Unescape(Escape(s)) == Some(s)
  {
    if s != [] {
      UnescapeChar(s[0], Escape(s[1..]));
      UnescapeEscape(s[1..]);
      assert [s[0]] + s[1..] == s;
    }
  }

  /** `JSON.stringify` is injective on literals: its text reads back as the
      value it came from. */
  lemma ParseStringify(v: JsonValue)
    ensures Parse(Stringify(v)) == Some(v)
  {
    var t := Stringify(v);
    match v
    case JNull =>
    case JBool(b) =>
    case JNumber(n) =>
      if n < 0 {
        DecimalRoundTrip(-n);
        assert t[1..] == Decimal(-n);
        assert t != "null" && t != "true" && t != "false";
      } else {
        DecimalRoundTrip(n);
        assert t[0] != '-' && t[0] != '"';
        assert t != "null" && t != "true" && t != "false";
      }
    case JString(s) =>
      UnescapeEscape(s);
      assert t[1..|t| - 1] == Escape(s);
      assert t != "null" && t != "true" && t != "false";
  }
}
