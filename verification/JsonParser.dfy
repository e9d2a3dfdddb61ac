/** A reference parser for RFC 8259, sections 2 and 4 to 7, written as recursive descent. */
module JsonParser {
  import opened Wrappers
  import opened Json

  type Parsed<T> = Option<(T, string)>

  predicate Whitespace(c: char) {
    c == ' ' || c == '\t' || c == '\n' || c == '\r'
  }

  function SkipWhitespace(s: string): (r: string)
    ensures |r| <= |s|
  {
    if s != "" && Whitespace(s[0]) then SkipWhitespace(s[1..]) else s
  }

  predicate StartsWith(s: string, c: char) { s != "" && s[0] == c }

  function HexValue(c: char): (r: Option<nat>)
    ensures r.Some? ==> r.value < 16
  {
    if '0' <= c <= '9' then Some(c as int - '0' as int)
    else if 'a' <= c <= 'f' then Some(c as int - 'a' as int + 10)
    else if 'A' <= c <= 'F' then Some(c as int - 'A' as int + 10)
    else None
  }

  function ParseHex4(s: string): (r: Option<nat>)
    ensures r.Some? ==> r.value < 0x10000 && |s| >= 4
  {
    if |s| < 4 then None else
    match (HexValue(s[0]), HexValue(s[1]), HexValue(s[2]), HexValue(s[3]))
    case (Some(a), Some(b), Some(c), Some(d)) =>
      Some(a * 0x1000 + b * 0x100 + c * 16 + d)
    case _ => None
  }

  /** What follows `\u`: a scalar value, or a surrogate pair. */
  function ParseUnicode(s: string): (r: Parsed<char>)
    ensures r.Some? ==> |r.value.1| < |s|
  {
    var hi :- ParseHex4(s);
    if hi < 0xD800 || 0xE000 <= hi then Some((hi as char, s[4..]))
    else if hi < 0xDC00 && |s| >= 6 && s[4] == '\\' && s[5] == 'u' then
      var lo :- ParseHex4(s[6..]);
      if 0xDC00 <= lo < 0xE000
      then Some(((0x10000 + (hi - 0xD800) * 0x400 + (lo - 0xDC00)) as char, s[10..]))
      else None
    else None
  }

  /** One character of a string body. */
  function ParseChar(s: string): (r: Parsed<char>)
    ensures r.Some? ==> |r.value.1| < |s|
  {
    if s == "" || s[0] == '"' || s[0] as int < 0x20 then None
    else if s[0] != '\\' then Some((s[0], s[1..]))
    else if |s| < 2 then None
    else match s[1]
      case '"' => Some(('"', s[2..]))
      case '\\' => Some(('\\', s[2..]))
      case '/' => Some(('/', s[2..]))
      case 'b' => Some((BACKSPACE, s[2..]))
      case 'f' => Some((FORM_FEED, s[2..]))
      case 'n' => Some(('\n', s[2..]))
      case 'r' => Some(('\r', s[2..]))
      case 't' => Some(('\t', s[2..]))
      case 'u' => ParseUnicode(s[2..])
      case _ => None
  }

  /** The rest of a string, after its opening quotation mark. */
  function ParseString(s: string): (r: Parsed<string>)
    ensures r.Some? ==> |r.value.1| < |s|
    decreases |s|
  {
    if StartsWith(s, '"') then Some(("", s[1..])) else
    var (c, r1) :- ParseChar(s);
    var (text, r2) :- ParseString(r1);
    Some(([c] + text, r2))
  }

  function ParseValue(s: string): (r: Parsed<Json>)
    ensures r.Some? ==> |r.value.1| < |s|
    decreases |s|, 0
  {
    var t := SkipWhitespace(s);
    if t == "" then None
    else if t[0] == '{' then
      var u := SkipWhitespace(t[1..]);
      if StartsWith(u, '}') then Some((Obj([]), u[1..])) else
      var (members, rest) :- ParseMembers(u);
      Some((Obj(members), rest))
    else if t[0] == '[' then
      var u := SkipWhitespace(t[1..]);
      if StartsWith(u, ']') then Some((Arr([]), u[1..])) else
      var (elems, rest) :- ParseElems(u);
      Some((Arr(elems), rest))
    else if t[0] == '"' then
      var (text, rest) :- ParseString(t[1..]);
      Some((Str(text), rest))
    else if "null" <= t then Some((Null, t[4..]))
    else if "true" <= t then Some((Bool(true), t[4..]))
    else if "false" <= t then Some((Bool(false), t[5..]))
    else
      var n := ScanNumber(t);
      if n == 0 then None else Some((Number(t[..n]), t[n..]))
  }

  /** One or more elements and the closing bracket. */
  function ParseElems(s: string): (r: Parsed<seq<Json>>)
    ensures r.Some? ==> |r.value.1| < |s|
    decreases |s|, 1
  {
    var (v, r1) :- ParseValue(s);
    var r2 := SkipWhitespace(r1);
    if StartsWith(r2, ']') then Some(([v], r2[1..]))
    else if StartsWith(r2, ',') then
      var (vs, r3) :- ParseElems(r2[1..]);
      Some(([v] + vs, r3))
    else None
  }

  /** One or more members and the closing brace. */
  function ParseMembers(s: string): (r: Parsed<seq<(string, Json)>>)
    ensures r.Some? ==> |r.value.1| < |s|
    decreases |s|, 1
  {
    var t := SkipWhitespace(s);
    if !StartsWith(t, '"') then None else
    var (key, r1) :- ParseString(t[1..]);
    var r2 := SkipWhitespace(r1);
    if !StartsWith(r2, ':') then None else
    var (v, r3) :- ParseValue(r2[1..]);
    var r4 := SkipWhitespace(r3);
    if StartsWith(r4, '}') then Some(([(key, v)], r4[1..]))
    else if StartsWith(r4, ',') then
      var (ms, r5) :- ParseMembers(r4[1..]);
      Some(([(key, v)] + ms, r5))
    else None
  }

  /** A whole JSON text: one value surrounded by whitespace. */
  function ParseText(s: string): Option<Json> {
    var (v, rest) :- ParseValue(s);
    if SkipWhitespace(rest) == "" then Some(v) else None
  }
}
