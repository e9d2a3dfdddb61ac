/**
 The macro reads string literals of Rust tokens. What such a token means, by the section "String
 literals" of the Rust Reference, against what the reader of the macro makes of it.
 */
module RustLiterals {
  import opened Wrappers
  import opened StringLiterals
  import JsonParser

  // ---- The value of a Rust string literal ----

  /** The digits of `\u{...}` up to the brace: one to six, with underscores after the first. */
  function Braced(s: string, digits: nat, acc: nat): (r: Option<(nat, string)>)
    ensures r.Some? ==> |r.value.1| < |s|
  {
    if s == "" then None
    else if s[0] == '}' then if digits > 0 then Some((acc, s[1..])) else None
    else if s[0] == '_' && digits > 0 then Braced(s[1..], digits, acc)
    else if digits < 6 && HexDigit(s[0]) then
      Braced(s[1..], digits + 1, acc * 16 + JsonParser.HexValue(s[0]).value)
    else None
  }

  predicate Scalar(code: nat) { code < 0xD800 || 0xE000 <= code < 0x110000 }

  /** The white space that a line continuation skips. */
  function SkipBlank(s: string): (r: string)
    ensures |r| <= |s|
  {
    if s != "" && s[0] in " \t\n\r" then SkipBlank(s[1..]) else s
  }

  function RustEscape(esc: char): Option<char> {
    match esc
    case 'n' => Some('\n')
    case 'r' => Some('\r')
    case 't' => Some('\t')
    case '0' => Some('\0')
    case '\\' => Some('\\')
    case '\'' => Some('\'')
    case '"' => Some('"')
    case _ => None
  }

  /** The text of the first unit of a literal's body, and what follows. */
  function RustUnit(b: string): (r: Option<(string, string)>)
    requires b != ""
    ensures r.Some? ==> |r.value.1| < |b|
  {
    if b[0] == '"' || b[0] == '\r' then None
    else if b[0] != '\\' then Some(([b[0]], b[1..]))
    else if |b| == 1 then None
    else if RustEscape(b[1]).Some? then Some(([RustEscape(b[1]).value], b[2..]))
    else if b[1] == '\n' then Some(("", SkipBlank(b[2..])))
    else if b[1] == 'x' then
      if |b| >= 4 && '0' <= b[2] <= '7' && HexDigit(b[3])
      then Some(([(JsonParser.HexValue(b[2]).value * 16 + JsonParser.HexValue(b[3]).value) as char], b[4..]))
      else None
    else if b[1] == 'u' && |b| > 2 && b[2] == '{' then
      var (code, rest) :- Braced(b[3..], 0, 0);
      if Scalar(code) then Some(([code as char], rest)) else None
    else None
  }

  /** The text that a Rust string literal denotes; `None` when the body is none of Rust. */
  function RustValue(b: string): Option<string>
    decreases |b|
  {
    if b == "" then Some("") else
    var (text, rest) :- RustUnit(b);
    var more :- RustValue(rest);
    Some(text + more)
  }

  // ---- Against the reader ----

  /** An escape of Rust that the reader does not know: `\x41`, `\0`, `\'`, `\u{41}`, or a continuation. */
  predicate ForeignUnit(b: string)
    requires b != ""
  {
    b[0] == '\\' && |b| > 1 && b[1] in "x0'u\n"
  }

  /** Some unit of a literal is foreign to the reader. */
  predicate Foreign(b: string)
    decreases |b|
  {
    b != "" && RustUnit(b).Some? && (ForeignUnit(b) || Foreign(RustUnit(b).value.1))
  }

  lemma ForeignFails(b: string)
    requires b != "" && RustUnit(b).Some? && ForeignUnit(b)
    ensures UnescapeOne(b).Err?
  {
    hide HexFold, Braced;
    if b[1] == 'u' {
      var hex := Padded4(b[2..]);
      assert hex[0] == '{' && !HexDigit('{');
      RadixReads(hex);
    }
  }

  lemma SharedUnit(b: string)
    requires b != "" && RustUnit(b).Some? && !ForeignUnit(b)
    ensures UnescapeOne(b).Ok?
    ensures var (c, rest) := UnescapeOne(b).value;
            RustUnit(b).value == ([c], rest)
  {
    hide Braced;
  }

  /**
   For every string literal of Rust: the reader gives Rust's text or fails, and it fails if and only if
   the literal has an escape that is foreign to it.
   */
  lemma {:induction false} RustLiteralIff(b: string)
    requires RustValue(b).Some?
    ensures UnescapeBody(b).Err? <==> Foreign(b)
    ensures UnescapeBody(b).Ok? ==> UnescapeBody(b).value == RustValue(b).value
    decreases |b|
  {
    hide RustUnit, UnescapeOne, ForeignUnit;
    if b != "" {
      if ForeignUnit(b) {
        ForeignFails(b);
      } else {
        SharedUnit(b);
        RustLiteralIff(RustUnit(b).value.1);
      }
    }
  }

  /** The same for the token, quotation marks included. */
  lemma RustTokenIff(b: string)
    requires RustValue(b).Some?
    ensures Unescape("\"" + b + "\"") == UnescapeBody(b)
    ensures Unescape("\"" + b + "\"").Err? <==> Foreign(b)
    ensures Unescape("\"" + b + "\"").Ok? ==> Unescape("\"" + b + "\"") == Ok(RustValue(b).value)
  {
    RustLiteralIff(b);
    assert ("\"" + b + "\"")[1..|b| + 1] == b;
  }

  // ---- Which loose units can arrive ----

  predicate RawControl(b: string) { exists i :: 0 <= i < |b| && b[i] as int < 0x20 }

  lemma RawControlSplit(b: string, n: nat)
    requires n <= |b| && forall i :: 0 <= i < n ==> b[i] as int >= 0x20
    ensures RawControl(b) <==> RawControl(b[n..])
  {
    if i :| 0 <= i < |b| && b[i] as int < 0x20 {
      assert b[n..][i - n] == b[i];
    }
  }

  /** A unit that both know is loose only when it is a raw control character. */
  lemma SharedPlain(b: string)
    requires b != "" && RustUnit(b).Some? && !ForeignUnit(b)
    ensures PlainUnit(b) <==> b[0] as int >= 0x20
    ensures RustUnit(b).value.1 == b[UnitLength(b)..]
    ensures UnitLength(b) == 2 ==> b[0] as int >= 0x20 && b[1] as int >= 0x20
    ensures UnitLength(b) <= 2
  {
    hide Braced;
    if |b| > 1 {
      SimpleEscapes(b[1]);
    }
  }

  lemma {:induction false} RustPlain(b: string)
    requires RustValue(b).Some? && !Foreign(b)
    ensures Plain(b) <==> !RawControl(b)
    decreases |b|
  {
    if b != "" {
      hide RustUnit, PlainUnit, ForeignUnit, UnitLength, RawControl;
      SharedPlain(b);
      var rest := b[UnitLength(b)..];
      RustPlain(rest);
      if PlainUnit(b) {
        RawControlSplit(b, UnitLength(b));
      } else {
        FirstIsControl(b);
      }
    }
  }

  lemma FirstIsControl(b: string)
    requires b != "" && b[0] as int < 0x20
    ensures RawControl(b)
  {
  }

  /**
   Of the bodies on which the reader departs from JSON, those with raw control characters are the only
   ones that Rust tokens can have: an accepted literal is read as JSON reads it if and only if it has
   none.
   */
  lemma RustAgreesIff(b: string)
    requires RustValue(b).Some? && UnescapeBody(b).Ok?
    ensures AgreesWithJson(b) <==> !RawControl(b)
  {
    hide RawControl, Plain, Bad, Foreign, RustValue, UnescapeBody, AgreesWithJson;
    RustLiteralIff(b);
    RustPlain(b);
    ReaderFailsIff(b);
    UnescapeAgreesIff(b);
  }
}
