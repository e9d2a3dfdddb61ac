/**
 JSON texts of RFC 8259: documents, their compact printing, and the lexical layers of strings
 (section 7) and numbers (section 6).
 */
module Json {
  import opened Wrappers

  /** A document. Members keep their order; a number keeps its lexeme. */
  datatype Json =
    | Null
    | Bool(b: bool)
    | Number(lexeme: string)
    | Str(s: string)
    | Arr(elems: seq<Json>)
    | Obj(members: seq<(string, Json)>)

  // ---- Strings ----

  function HexDigit(d: nat): char
    requires d < 16
  {
    "0123456789abcdef"[d]
  }

  function Hex4(n: nat): string
    requires n < 0x10000
  {
    [HexDigit(n / 0x1000), HexDigit(n / 0x100 % 16), HexDigit(n / 16 % 16), HexDigit(n % 16)]
  }

  const LINE_SEPARATOR: char := '\U{2028}'
  const PARAGRAPH_SEPARATOR: char := '\U{2029}'
  const BACKSPACE: char := '\U{0008}'
  const FORM_FEED: char := '\U{000C}'

  /** The letter of a two-character escape. */
  function ShortEscape(c: char): Option<char> {
    if c == '"' || c == '\\' then Some(c)
    else if c == '\n' then Some('n')
    else if c == '\t' then Some('t')
    else if c == '\r' then Some('r')
    else if c == BACKSPACE then Some('b')
    else if c == FORM_FEED then Some('f')
    else None
  }

  predicate NeedsUnicodeEscape(c: char) {
    c as int < 0x20 || c == LINE_SEPARATOR || c == PARAGRAPH_SEPARATOR
  }

  function EscapeChar(c: char): (text: string)
    ensures text != ""
  {
    if ShortEscape(c).Some? then ['\\', ShortEscape(c).value]
    else if NeedsUnicodeEscape(c) then ['\\', 'u'] + Hex4(c as int)
    else [c]
  }

  function Escape(s: string): string {
    if s == "" then "" else EscapeChar(s[0]) + Escape(s[1..])
  }

  function Quote(s: string): string {
    "\"" + Escape(s) + "\""
  }

  // ---- Numbers ----

  predicate Digit(c: char) { '0' <= c <= '9' }

  function LeadingDigits(s: string): (n: nat)
    ensures n <= |s|
    ensures forall i :: 0 <= i < n ==> Digit(s[i])
    ensures n < |s| ==> !Digit(s[n])
  {
    if s != "" && Digit(s[0]) then 1 + LeadingDigits(s[1..]) else 0
  }

  /** Length of the `int` production at the front of `s`; 0 when there is none. */
  function ScanInt(s: string): (n: nat)
    ensures n <= |s|
  {
    if s != "" && s[0] == '0' then 1 else LeadingDigits(s)
  }

  /** Length of the optional `frac` production at the front of `s`. */
  function ScanFrac(s: string): (n: nat)
    ensures n <= |s|
  {
    if s == "" || s[0] != '.' then 0 else
    var d := LeadingDigits(s[1..]);
    if d == 0 then 0 else 1 + d
  }

  /** Length of the optional `exp` production at the front of `s`. */
  function ScanExp(s: string): (n: nat)
    ensures n <= |s|
  {
    if s == "" || (s[0] != 'e' && s[0] != 'E') then 0 else
    var d := LeadingDigits(s[ExpSign(s)..]);
    if d == 0 then 0 else ExpSign(s) + d
  }

  /** The exponent mark with its optional sign. */
  function ExpSign(s: string): (n: nat)
    requires s != ""
    ensures n <= |s|
  {
    if |s| > 1 && (s[1] == '+' || s[1] == '-') then 2 else 1
  }

  function ScanTail(s: string): (n: nat)
    ensures n <= |s|
  {
    var f := ScanFrac(s);
    f + ScanExp(s[f..])
  }

  function ScanUnsigned(s: string): (n: nat)
    ensures n <= |s|
  {
    var d := ScanInt(s);
    if d == 0 then 0 else d + ScanTail(s[d..])
  }

  /** Length of the longest `number` at the front of `s`; 0 when there is none. */
  function ScanNumber(s: string): (n: nat)
    ensures n <= |s|
  {
    if s == "" || s[0] != '-' then ScanUnsigned(s) else
    var n := ScanUnsigned(s[1..]);
    if n == 0 then 0 else 1 + n
  }

  predicate IsNumber(lexeme: string) {
    lexeme != "" && ScanNumber(lexeme) == |lexeme|
  }

  function Decimal(n: nat): (text: string)
    ensures text != ""
  {
    if n < 10 then [DigitChar(n)] else Decimal(n / 10) + [DigitChar(n % 10)]
  }

  function DigitChar(d: nat): (c: char)
    requires d < 10
    ensures Digit(c) && c as int == '0' as int + d
  {
    ('0' as int + d) as char
  }

  function DecimalInt(i: int): string {
    if i < 0 then "-" + Decimal(-i) else Decimal(i)
  }

  /** What a run of digits, with an optional minus sign, denotes. */
  function DigitsValue(s: string): nat
    requires forall i :: 0 <= i < |s| ==> Digit(s[i])
  {
    if s == "" then 0 else
    assert Digit(s[|s| - 1]);
    10 * DigitsValue(s[..|s| - 1]) + (s[|s| - 1] as int - '0' as int)
  }

  ghost predicate Denotes(s: string, i: int) {
    var neg := s != "" && s[0] == '-';
    var digits := if neg then s[1..] else s;
    && digits != ""
    && (forall k :: 0 <= k < |digits| ==> Digit(digits[k]))
    && i == if neg then -(DigitsValue(digits) as int) else DigitsValue(digits)
  }

  // ---- Documents ----

  /** The compact rendering, with no insignificant whitespace. */
  function Print(j: Json): string
    decreases j, 1
  {
    match j
    case Null => "null"
    case Bool(b) => if b then "true" else "false"
    case Number(lexeme) => lexeme
    case Str(s) => Quote(s)
    case Arr(elems) => "[" + PrintElems(elems) + "]"
    case Obj(members) => "{" + PrintMembers(members) + "}"
  }

  function PrintElems(elems: seq<Json>): string
    decreases elems, 0
  {
    if elems == [] then ""
    else Print(elems[0]) + (if |elems| == 1 then "" else "," + PrintElems(elems[1..]))
  }

  function PrintMembers(members: seq<(string, Json)>): string
    decreases members, 0
  {
    if members == [] then ""
    else PrintMember(members[0]) + (if |members| == 1 then "" else "," + PrintMembers(members[1..]))
  }

  function PrintMember(m: (string, Json)): string
    decreases m, 0
  {
    Quote(m.0) + ":" + Print(m.1)
  }

  /** Every number of the document is a `number` of section 6. */
  predicate ValidDocument(j: Json)
    decreases j
  {
    match j
    case Number(lexeme) => IsNumber(lexeme)
    case Arr(elems) => forall i :: 0 <= i < |elems| ==> ValidDocument(elems[i])
    case Obj(members) => forall i :: 0 <= i < |members| ==> ValidDocument(members[i].1)
    case _ => true
  }
}
