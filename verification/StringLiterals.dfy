/** String literals of a schema: `unescape_json_string`, and its relation to JSON strings. */
module StringLiterals {
  import opened Wrappers
  import opened Json
  import JsonParser
  import JsonRoundTrip

  datatype LiteralError =
    | NotAString
    | UnterminatedEscape
    | InvalidUnicodeEscape(hex: string)
    | InvalidEscape(c: char)

  const REPLACEMENT: char := '\U{FFFD}'

  function HexFold(s: string, acc: nat): Option<nat> {
    if s == "" then Some(acc) else
    var d :- JsonParser.HexValue(s[0]);
    HexFold(s[1..], acc * 16 + d)
  }

  /** `u32::from_str_radix(s, 16)` on four characters, which admits a leading plus sign. */
  function FromStrRadix16(s: string): Option<nat>
    requires |s| == 4
  {
    HexFold(if s[0] == '+' then s[1..] else s, 0)
  }

  /** The four characters after `\u`; missing ones count as zeros. */
  function Padded4(s: string): (hex: string)
    ensures |hex| == 4
  {
    if |s| >= 4 then s[..4] else s + seq(4 - |s|, _ => '0')
  }

  function CharFromU32(code: nat): char {
    if code < 0xD800 || 0xE000 <= code < 0x110000 then code as char else REPLACEMENT
  }

  function SimpleEscape(esc: char): Option<char> {
    match esc
    case '"' => Some('"')
    case '\\' => Some('\\')
    case 'n' => Some('\n')
    case 't' => Some('\t')
    case 'r' => Some('\r')
    case '/' => Some('/')
    case 'b' => Some(BACKSPACE)
    case 'f' => Some(FORM_FEED)
    case _ => None
  }

  /** The first character the body of a literal denotes, and what follows it. */
  function UnescapeOne(s: string): (r: Result<(char, string), LiteralError>)
    requires s != ""
    ensures r.Ok? ==> |r.value.1| < |s|
  {
    if s[0] != '\\' then Ok((s[0], s[1..]))
    else if |s| == 1 then Err(UnterminatedEscape)
    else if SimpleEscape(s[1]).Some? then Ok((SimpleEscape(s[1]).value, s[2..]))
    else if s[1] == 'u' then
      var hex := Padded4(s[2..]);
      match FromStrRadix16(hex)
      case None => Err(InvalidUnicodeEscape(hex))
      case Some(code) => Ok((CharFromU32(code), if |s| >= 6 then s[6..] else ""))
    else Err(InvalidEscape(s[1]))
  }

  function UnescapeBody(s: string): Result<string, LiteralError>
    decreases |s|
  {
    if s == "" then Ok("") else
    var (c, rest) :- UnescapeOne(s);
    var text :- UnescapeBody(rest);
    Ok([c] + text)
  }

  function Unescape(raw: string): Result<string, LiteralError> {
    if |raw| < 2 || raw[0] != '"' || raw[|raw| - 1] != '"' then Err(NotAString)
    else UnescapeBody(raw[1..|raw| - 1])
  }

  lemma {:induction false} UnescapeBodyStep(out: string, s: string)
    requires s != "" && UnescapeOne(s).Ok?
    ensures var (c, rest) := UnescapeOne(s).value;
            Prepend(out, UnescapeBody(s)) == Prepend(out + [c], UnescapeBody(rest))
  {
    hide UnescapeOne;
    var (c, rest) := UnescapeOne(s).value;
    if UnescapeBody(rest).Ok? {
      assert out + ([c] + UnescapeBody(rest).value) == out + [c] + UnescapeBody(rest).value;
    }
  }

  function Prepend(out: string, r: Result<string, LiteralError>): Result<string, LiteralError> {
    if r.Ok? then Ok(out + r.value) else r
  }

  /** The source's loop: the iterator is the text not yet consumed. */
  method UnescapeJsonString(raw: string) returns (r: Result<string, LiteralError>)
    ensures r == Unescape(raw)
  {
    hide UnescapeBody, FromStrRadix16, SimpleEscape, CharFromU32;
    if |raw| < 2 || raw[0] != '"' || raw[|raw| - 1] != '"' {
      return Err(NotAString);
    }
    var chars := raw[1..|raw| - 1];
    var out := "";
    PrependNothing(UnescapeBody(chars));
    while chars != ""
      invariant Prepend(out, UnescapeBody(chars)) == Unescape(raw)
      decreases |chars|
    {
      var step := UnescapeStep(chars);
      if step.Err? {
        UnescapeBodyFails(chars);
        return Err(step.error);
      }
      UnescapeBodyStep(out, chars);
      out := out + [step.value.0];
      chars := step.value.1;
    }
    UnescapeBodyEnd(out);
    return Ok(out);
  }

  lemma PrependNothing(r: Result<string, LiteralError>)
    ensures Prepend("", r) == r
  {
    assert r.Ok? ==> "" + r.value == r.value;
  }

  lemma UnescapeBodyFails(s: string)
    requires s != "" && UnescapeOne(s).Err?
    ensures UnescapeBody(s) == Err(UnescapeOne(s).error)
  {
    hide UnescapeOne;
  }

  lemma UnescapeBodyEnd(out: string)
    ensures Prepend(out, UnescapeBody("")) == Ok(out)
  {
    assert out + "" == out;
  }

  /** One turn of the loop, with the source's own case order. */
  method UnescapeStep(chars: string) returns (step: Result<(char, string), LiteralError>)
    requires chars != ""
    ensures step == UnescapeOne(chars)
  {
    if chars[0] != '\\' {
      return Ok((chars[0], chars[1..]));
    }
    if |chars| == 1 {
      return Err(UnterminatedEscape);
    }
    var esc, rest := chars[1], chars[2..];
    match esc {
      case '"' => return Ok(('"', rest));
      case '\\' => return Ok(('\\', rest));
      case 'n' => return Ok(('\n', rest));
      case 't' => return Ok(('\t', rest));
      case 'r' => return Ok(('\r', rest));
      case '/' => return Ok(('/', rest));
      case 'b' => return Ok((BACKSPACE, rest));
      case 'f' => return Ok((FORM_FEED, rest));
      case 'u' =>
        var hex, taken := "", 0;
        while taken < 4
          invariant 0 <= taken <= 4 && |hex| == taken
          invariant hex == Padded4(chars[2..])[..taken]
          invariant rest == if |chars| >= 2 + taken then chars[2 + taken..] else ""
        {
          if rest != "" {
            hex, rest := hex + [rest[0]], rest[1..];
          } else {
            hex := hex + ['0'];
          }
          taken := taken + 1;
        }
        assert hex == Padded4(chars[2..]);
        match FromStrRadix16(hex) {
          case None => return Err(InvalidUnicodeEscape(hex));
          case Some(code) => return Ok((CharFromU32(code), rest));
        }
      case _ => return Err(InvalidEscape(esc));
    }
  }

  // ---- Inverse of the writer's quoting ----

  lemma HexFoldStep(s: string, acc: nat)
    requires s != "" && JsonParser.HexValue(s[0]).Some?
    ensures HexFold(s, acc) == HexFold(s[1..], acc * 16 + JsonParser.HexValue(s[0]).value)
  {
  }

  lemma HexFold4(s: string)
    requires JsonParser.ParseHex4(s).Some?
    ensures FromStrRadix16(s[..4]) == Some(JsonParser.ParseHex4(s).value)
  {
    var a, b, c := JsonParser.HexValue(s[0]).value, JsonParser.HexValue(s[1]).value, JsonParser.HexValue(s[2]).value;
    hide HexFold;
    HexFoldStep(s[..4], 0);
    assert s[..4][1..] == s[1..4] && s[1..4][1..] == s[2..4] && s[2..4][1..] == s[3..4] && s[3..4][1..] == "";
    HexFoldStep(s[1..4], a);
    HexFoldStep(s[2..4], a * 16 + b);
    HexFoldStep(s[3..4], (a * 16 + b) * 16 + c);
    HexFoldEnd(JsonParser.ParseHex4(s).value);
  }

  lemma HexFoldEnd(acc: nat)
    ensures HexFold("", acc) == Some(acc)
  {
  }

  /**
   Wherever JSON reads one character, the literal reader reads the same one, unless the escape is
   the first half of a surrogate pair; then it reads a replacement character.
   */
  lemma UnescapeOneAgrees(s: string)
    requires JsonParser.ParseChar(s).Some?
    ensures var (c, rest) := JsonParser.ParseChar(s).value;
            if c as int >= 0x10000 && s[0] == '\\'
            then |s| >= 6 && UnescapeOne(s) == Ok((REPLACEMENT, s[6..]))
            else UnescapeOne(s) == Ok((c, rest))
  {
    if s[0] == '\\' && s[1] == 'u' {
      HexFold4(s[2..]);
      assert s[2..][4..] == s[6..];
      assert Padded4(s[2..]) == s[2..][..4];
    }
  }

  /** The literal reader inverts the event writer's quoting, for every string. */
  lemma UnescapeQuote(s: string)
    ensures Unescape(Quote(s)) == Ok(s)
  {
    UnescapeEscape(s);
    assert Quote(s)[1..|Quote(s)| - 1] == Escape(s);
  }

  lemma {:induction false} UnescapeEscape(s: string)
    ensures UnescapeBody(Escape(s)) == Ok(s)
  {
    if s != "" {
      hide UnescapeOne, EscapeChar, JsonParser.ParseChar;
      var rest := Escape(s[1..]);
      var t := EscapeChar(s[0]) + rest;
      JsonRoundTrip.ParseEscapedChar(s[0], rest);
      UnescapeOneAgrees(t);
      HighCharsAreRaw(s[0]);
      assert t[0] == EscapeChar(s[0])[0];
      UnescapeEscape(s[1..]);
      assert [s[0]] + s[1..] == s;
    }
  }

  lemma HighCharsAreRaw(c: char)
    ensures c as int >= 0x10000 ==> EscapeChar(c)[0] != '\\'
  {
  }

  // ---- Against JSON strings in general ----

  /** The number of surrogate pairs escaped in a string body that JSON accepts. */
  function Pairs(t: string): nat
    decreases |t|
  {
    if JsonParser.StartsWith(t, '"') || JsonParser.ParseChar(t).None? then 0 else
    var (c, rest) := JsonParser.ParseChar(t).value;
    Pairs(rest) + if c as int >= 0x10000 && t[0] == '\\' then 1 else 0
  }

  /** An escaped surrogate pair is read as two replacement characters. */
  lemma PairReadsTwice(t: string)
    requires JsonParser.ParseChar(t).Some?
    requires JsonParser.ParseChar(t).value.0 as int >= 0x10000 && t[0] == '\\'
    ensures |t| >= 12 && JsonParser.ParseChar(t).value.1 == t[12..]
    ensures UnescapeOne(t) == Ok((REPLACEMENT, t[6..]))
    ensures UnescapeOne(t[6..]) == Ok((REPLACEMENT, t[12..]))
  {
    hide HexFold;
    UnescapeOneAgrees(t);
    HexFold4(t[8..]);
    assert t[2..][6..] == t[8..] && t[2..][10..] == t[12..];
    assert t[6..][2..] == t[8..] && t[6..][6..] == t[12..];
    assert Padded4(t[8..]) == t[8..][..4];
  }

  /** The closing quotation mark has no influence on an escape that ends before it. */
  lemma UnescapeOneInside(b: string, c: char, rest: string)
    requires b != "" && UnescapeOne(b + "\"") == Ok((c, rest)) && rest != ""
    requires |rest| <= |b| - 5 || !(b[0] == '\\' && |b| > 1 && b[1] == 'u')
    ensures rest[|rest| - 1] == '"' && UnescapeOne(b) == Ok((c, rest[..|rest| - 1]))
  {
    hide HexFold, SimpleEscape, CharFromU32;
    var t := b + "\"";
    if b[0] != '\\' {
      assert rest == b[1..] + "\"";
    } else if |b| > 1 && b[1] == 'u' && SimpleEscape('u').None? {
      assert t[2..][..4] == b[2..][..4];
      assert rest == b[6..] + "\"";
    } else if |b| > 1 {
      assert rest == b[2..] + "\"";
    }
  }

  lemma UnicodeEscapeLength(t: string)
    requires JsonParser.ParseChar(t).Some?
    ensures t[0] == '\\' && t[1] == 'u' ==> |JsonParser.ParseChar(t).value.1| <= |t| - 6
  {
  }

  /**
   On a string body that JSON accepts, the literal reader never fails, and each escaped surrogate
   pair makes its result one character too long.
   */
  lemma {:induction false} UnescapeAgrees(b: string, text: string)
    requires JsonParser.ParseString(b + "\"") == Some((text, ""))
    ensures UnescapeBody(b).Ok?
    ensures |UnescapeBody(b).value| == |text| + Pairs(b + "\"")
    ensures Pairs(b + "\"") == 0 ==> UnescapeBody(b).value == text
    decreases |b|
  {
    hide UnescapeOne, JsonParser.ParseChar;
    var t := b + "\"";
    if b == "" || b[0] == '"' {
      assert b == "";
    } else {
      var (c, rest) := JsonParser.ParseChar(t).value;
      var (tail, end) := JsonParser.ParseString(rest).value;
      assert text == [c] + tail && end == "";
      assert rest != "";
      UnescapeOneAgrees(t);
      if c as int >= 0x10000 && t[0] == '\\' {
        PairReadsTwice(t);
        assert b[6..] + "\"" == t[6..] && b[12..] + "\"" == t[12..];
        UnescapeOneInside(b, REPLACEMENT, t[6..]);
        UnescapeOneInside(b[6..], REPLACEMENT, t[12..]);
        UnescapeAgrees(b[12..], tail);
      } else {
        UnicodeEscapeLength(t);
        UnescapeOneInside(b, c, rest);
        var inner := rest[..|rest| - 1];
        assert inner + "\"" == rest;
        UnescapeAgrees(inner, tail);
      }
    }
  }

  // ---- Exactly where the reader agrees with JSON ----

  predicate HexDigit(c: char) { JsonParser.HexValue(c).Some? }

  /** Four hexadecimal digits that are no surrogate. */
  predicate ScalarHex(s: string) {
    && |s| >= 4 && (forall i :: 0 <= i < 4 ==> HexDigit(s[i]))
    && (s[0] == 'd' || s[0] == 'D' ==> '0' <= s[1] <= '7')
  }

  /** How many characters the first character or escape of a body takes. */
  function UnitLength(b: string): (n: nat)
    requires b != ""
    ensures 0 < n <= |b|
  {
    if b[0] != '\\' || |b| == 1 then 1
    else if b[1] != 'u' then 2
    else if |b| >= 6 then 6 else |b|
  }

  const SHORT_ESCAPES: string := "\"\\ntr/bf"

  /** No raw control character or quotation mark, and only escapes of RFC 8259 for scalars. */
  predicate PlainUnit(b: string)
    requires b != ""
  {
    if b[0] != '\\' then b[0] != '"' && b[0] as int >= 0x20
    else |b| > 1 && (b[1] in SHORT_ESCAPES || (b[1] == 'u' && ScalarHex(b[2..])))
  }

  /** A lone backslash, an unknown escape, or four characters that are not hexadecimal after an optional plus. */
  predicate BadUnit(b: string)
    requires b != ""
  {
    b[0] == '\\' &&
    (|b| == 1
     || (b[1] == 'u' && !ReadableHex(Padded4(b[2..])))
     || (b[1] != 'u' && b[1] !in SHORT_ESCAPES))
  }

  predicate ReadableHex(hex: string)
    requires |hex| == 4
  {
    (hex[0] == '+' || HexDigit(hex[0])) && forall i :: 1 <= i < 4 ==> HexDigit(hex[i])
  }

  predicate Plain(b: string)
    decreases |b|
  {
    b == "" || (PlainUnit(b) && Plain(b[UnitLength(b)..]))
  }

  predicate Bad(b: string)
    decreases |b|
  {
    b != "" && (BadUnit(b) || Bad(b[UnitLength(b)..]))
  }

  lemma SimpleEscapes(c: char)
    ensures SimpleEscape(c).Some? <==> c in SHORT_ESCAPES
    ensures SimpleEscape('u').None?
  {
    var all := SHORT_ESCAPES;
    assert all[0] == '"' && all[1] == '\\' && all[2] == 'n' && all[3] == 't' && all[4] == 'r' && all[5] == '/'
           && all[6] == 'b' && all[7] == 'f';
  }

  lemma {:induction false} HexFoldReads(s: string, acc: nat)
    ensures HexFold(s, acc).Some? <==> forall i :: 0 <= i < |s| ==> HexDigit(s[i])
  {
    if s != "" && HexDigit(s[0]) {
      HexFoldReads(s[1..], acc * 16 + JsonParser.HexValue(s[0]).value);
      assert forall i :: 1 <= i < |s| ==> s[i] == s[1..][i - 1];
    }
  }

  lemma RadixReads(hex: string)
    requires |hex| == 4
    ensures FromStrRadix16(hex).Some? <==> ReadableHex(hex)
  {
    HexFoldReads(hex, 0);
    HexFoldReads(hex[1..], 0);
    assert forall i :: 1 <= i < 4 ==> hex[i] == hex[1..][i - 1];
    assert !HexDigit('+');
  }

  lemma UnitReads(b: string)
    requires b != ""
    ensures UnescapeOne(b).Err? <==> BadUnit(b)
    ensures UnescapeOne(b).Ok? ==> UnescapeOne(b).value.1 == b[UnitLength(b)..]
  {
    hide FromStrRadix16, ReadableHex, SimpleEscape, CharFromU32;
    if |b| > 1 {
      SimpleEscapes(b[1]);
      if b[1] == 'u' {
        RadixReads(Padded4(b[2..]));
      }
    }
  }

  /** The reader fails exactly on bodies with a bad unit. */
  lemma {:induction false} ReaderFailsIff(b: string)
    ensures UnescapeBody(b).Err? <==> Bad(b)
    decreases |b|
  {
    hide UnescapeOne, BadUnit, UnitLength;
    if b != "" {
      UnitReads(b);
      if UnescapeOne(b).Ok? {
        ReaderFailsIff(b[UnitLength(b)..]);
      }
    }
  }

  /** The error of the first bad unit. */
  function FirstError(b: string): LiteralError
    requires Bad(b)
    decreases |b|
  {
    if !BadUnit(b) then FirstError(b[UnitLength(b)..])
    else if |b| == 1 then UnterminatedEscape
    else if b[1] == 'u' then InvalidUnicodeEscape((b[2..] + "0000")[..4])
    else InvalidEscape(b[1])
  }

  /** Of several bad units the first is named: what it is, and the characters it has, with zeros for missing ones. */
  lemma {:induction false} ReaderErrorIs(b: string)
    requires Bad(b)
    ensures UnescapeBody(b) == Err(FirstError(b))
    decreases |b|
  {
    hide FromStrRadix16, ReadableHex, CharFromU32;
    UnitReads(b);
    if BadUnit(b) {
      if |b| > 1 {
        SimpleEscapes(b[1]);
        assert b[1] == 'u' ==> (b[2..] + "0000")[..4] == Padded4(b[2..]);
      }
    } else {
      ReaderErrorIs(b[UnitLength(b)..]);
    }
  }

  /** What the reader accepts: a body without a bad unit between two quotation marks, and nothing else. */
  lemma UnescapeAcceptsIff(raw: string)
    ensures Unescape(raw).Ok? <==> exists b :: raw == "\"" + b + "\"" && !Bad(b)
    ensures Unescape(raw) == Err(NotAString) <==> !exists b :: raw == "\"" + b + "\""
  {
    hide Bad, UnescapeBody;
    if |raw| >= 2 && raw[0] == '"' && raw[|raw| - 1] == '"' {
      var b := raw[1..|raw| - 1];
      assert raw == "\"" + b + "\"";
      ReaderFailsIff(b);
      BodyErrors(b);
      forall c | raw == "\"" + c + "\""
        ensures c == b
      {
        assert ("\"" + c + "\"")[1..|raw| - 1] == c;
      }
    }
  }

  lemma {:induction false} BodyErrors(b: string)
    ensures UnescapeBody(b) != Err(NotAString)
    decreases |b|
  {
    hide FromStrRadix16, SimpleEscape, CharFromU32;
    if b != "" && UnescapeOne(b).Ok? {
      BodyErrors(UnescapeOne(b).value.1);
    }
  }

  /** On a plain unit JSON reads what the reader reads. */
  lemma PlainUnitParses(b: string)
    requires b != "" && PlainUnit(b)
    ensures UnescapeOne(b).Ok?
    ensures var (c, rest) := UnescapeOne(b).value;
            rest == b[UnitLength(b)..] && JsonParser.ParseChar(b + "\"") == Some((c, rest + "\""))
  {
    hide HexFold, CharFromU32;
    var t := b + "\"";
    UnitReads(b);
    if b[0] != '\\' {
      assert t[1..] == b[1..] + "\"";
    } else {
      SimpleEscapes(b[1]);
      if b[1] == 'u' {
        PlainUnicodeParses(b);
      } else {
        assert t[2..] == b[2..] + "\"";
      }
    }
  }

  /** Scalar digits are exactly those whose value is no surrogate. */
  lemma ScalarHexValue(s: string)
    ensures ScalarHex(s) <==>
            JsonParser.ParseHex4(s).Some?
            && (JsonParser.ParseHex4(s).value < 0xD800 || JsonParser.ParseHex4(s).value >= 0xE000)
  {
    if |s| >= 4 {
      assert HexDigit(s[0]) && HexDigit(s[1]) && HexDigit(s[2]) && HexDigit(s[3])
             <==> forall i :: 0 <= i < 4 ==> HexDigit(s[i]);
    }
  }

  lemma SameFour(s: string, t: string)
    requires |s| >= 4 && |t| >= 4 && s[..4] == t[..4]
    ensures JsonParser.ParseHex4(s) == JsonParser.ParseHex4(t) && (ScalarHex(s) <==> ScalarHex(t))
    ensures Padded4(s) == Padded4(t)
  {
    hide JsonParser.HexValue;
    assert forall i :: 0 <= i < 4 ==> s[i] == s[..4][i] && t[i] == t[..4][i];
  }

  lemma PlainUnicodeParses(b: string)
    requires |b| > 1 && b[0] == '\\' && b[1] == 'u' && ScalarHex(b[2..])
    ensures UnescapeOne(b).Ok?
    ensures var (c, rest) := UnescapeOne(b).value;
            JsonParser.ParseChar(b + "\"") == Some((c, rest + "\""))
  {
    hide FromStrRadix16, JsonParser.ParseHex4, ScalarHex;
    var t := b + "\"";
    ScalarHexValue(b[2..]);
    assert t[2..][..4] == b[2..][..4];
    SameFour(t[2..], b[2..]);
    HexFold4(b[2..]);
    assert Padded4(b[2..]) == b[2..][..4];
    SimpleEscapes('u');
    assert t[2..][4..] == b[6..] + "\"";
  }

  lemma {:induction false} PlainParses(b: string)
    requires Plain(b)
    ensures UnescapeBody(b).Ok?
    ensures JsonParser.ParseString(b + "\"") == Some((UnescapeBody(b).value, ""))
    decreases |b|
  {
    hide UnescapeOne, PlainUnit, UnitLength, JsonParser.ParseChar;
    if b != "" {
      PlainUnitParses(b);
      NotQuoted(b);
      PlainParses(b[UnitLength(b)..]);
    }
  }

  lemma NotQuoted(b: string)
    requires b != "" && PlainUnit(b)
    ensures b[0] != '"'
  {
  }

  /** What JSON accepts without a surrogate pair is plain. */
  lemma {:induction false} AcceptedIsPlain(b: string, text: string)
    requires JsonParser.ParseString(b + "\"") == Some((text, "")) && Pairs(b + "\"") == 0
    ensures Plain(b)
    decreases |b|
  {
    hide UnescapeOne, JsonParser.ParseChar, PlainUnit, UnitLength;
    var t := b + "\"";
    if b != "" {
      assert b[0] != '"';
      var (c, rest) := JsonParser.ParseChar(t).value;
      assert rest != "";
      AcceptedUnit(b, c, rest);
      assert b[UnitLength(b)..] + "\"" == rest;
      AcceptedIsPlain(b[UnitLength(b)..], JsonParser.ParseString(rest).value.0);
    }
  }

  lemma AcceptedUnit(b: string, c: char, rest: string)
    requires b != "" && JsonParser.ParseChar(b + "\"") == Some((c, rest)) && rest != ""
    requires !(c as int >= 0x10000 && b[0] == '\\')
    ensures PlainUnit(b) && b[UnitLength(b)..] + "\"" == rest
  {
    var t := b + "\"";
    if b[0] != '\\' {
      assert rest == b[1..] + "\"";
    } else if b[1] == 'u' {
      AcceptedUnicode(b, c, rest);
    } else {
      SimpleEscapes(b[1]);
      assert rest == b[2..] + "\"";
    }
  }

  lemma AcceptedUnicode(b: string, c: char, rest: string)
    requires |b| > 1 && b[0] == '\\' && b[1] == 'u'
    requires JsonParser.ParseChar(b + "\"") == Some((c, rest)) && rest != "" && c as int < 0x10000
    ensures |b| >= 6 && ScalarHex(b[2..]) && rest == b[6..] + "\""
  {
    hide JsonParser.ParseHex4, ScalarHex;
    var t := b + "\"";
    assert t[2..][4..] == t[6..];
    ScalarHexValue(t[2..]);
    assert rest == t[6..];
    assert t[2..][..4] == b[2..][..4];
    SameFour(t[2..], b[2..]);
  }

  /** The reader and JSON accept the same body with the same text, or both reject it. */
  ghost predicate AgreesWithJson(b: string) {
    forall text :: JsonParser.ParseString(b + "\"") == Some((text, "")) <==> UnescapeBody(b) == Ok(text)
  }

  /**
   For every body: the literal reader agrees with JSON if and only if the body holds only plain units,
   or one that the reader rejects.
   */
  lemma UnescapeAgreesIff(b: string)
    ensures AgreesWithJson(b) <==> Plain(b) || Bad(b)
  {
    hide UnescapeBody, JsonParser.ParseString, Plain, Bad;
    ReaderFailsIff(b);
    if Plain(b) {
      PlainParses(b);
    }
    var parsed := JsonParser.ParseString(b + "\"");
    if parsed.Some? && parsed.value.1 == "" {
      assert parsed == Some((parsed.value.0, ""));
      UnescapeAgrees(b, parsed.value.0);
      if Pairs(b + "\"") == 0 {
        AcceptedIsPlain(b, parsed.value.0);
      }
    }
    if UnescapeBody(b).Ok? && AgreesWithJson(b) {
      assert parsed == Some((UnescapeBody(b).value, ""));
    }
  }

  /** A body of one loose unit, which the reader accepts and JSON does not. */
  lemma LooseUnit(b: string)
    requires b != "" && UnitLength(b) == |b| && !PlainUnit(b) && !BadUnit(b)
    ensures UnescapeBody(b).Ok? && |UnescapeBody(b).value| == 1
    ensures forall text :: JsonParser.ParseString(b + "\"") != Some((text, ""))
    ensures !AgreesWithJson(b)
  {
    hide UnescapeOne, PlainUnit, BadUnit, JsonParser.ParseString;
    assert b[|b|..] == "";
    assert !Plain(b) && !Bad(b);
    UnescapeAgreesIff(b);
    UnitReads(b);
    OneCharacter(b);
    var parsed := JsonParser.ParseString(b + "\"");
    if parsed.Some? && parsed.value.1 == "" {
      assert parsed == Some((parsed.value.0, ""));
      UnescapeAgrees(b, parsed.value.0);
      if Pairs(b + "\"") == 0 {
        AcceptedIsPlain(b, parsed.value.0);
      } else {
        NotEmptyText(b);
      }
    }
  }

  lemma OneCharacter(b: string)
    requires b != "" && UnescapeOne(b).Ok? && UnescapeOne(b).value.1 == ""
    ensures UnescapeBody(b) == Ok([UnescapeOne(b).value.0])
  {
    hide UnescapeOne;
    var c := UnescapeOne(b).value.0;
    assert UnescapeBody("") == Ok("") && [c] + "" == [c];
  }

  lemma NotEmptyText(b: string)
    requires b != ""
    ensures JsonParser.ParseString(b + "\"") != Some(("", ""))
  {
  }

  lemma HexFold3(s: string, a: nat, b: nat, c: nat)
    requires |s| == 3
    requires JsonParser.HexValue(s[0]) == Some(a) && JsonParser.HexValue(s[1]) == Some(b)
    requires JsonParser.HexValue(s[2]) == Some(c)
    ensures HexFold(s, 0) == Some((a * 16 + b) * 16 + c)
  {
    hide HexFold, JsonParser.HexValue;
    HexFoldStep(s, 0);
    HexFoldStep(s[1..], a);
    HexFoldStep(s[1..][1..], a * 16 + b);
    assert s[1..][1..][1..] == "";
    HexFoldEnd((a * 16 + b) * 16 + c);
  }

  /** A raw newline and a raw quotation mark. */
  lemma RawWitness(c: char)
    requires c as int < 0x20 || c == '"'
    ensures UnescapeBody([c]) == Ok([c]) && !AgreesWithJson([c])
  {
    LooseUnit([c]);
    OneCharacter([c]);
  }

  /** `\u+041` reads as a letter. */
  lemma PlusWitness()
    ensures UnescapeBody("\\u+041") == Ok("A") && !AgreesWithJson("\\u+041")
  {
    var b := "\\u+041";
    assert Padded4(b[2..]) == "+041" && "+041"[1..] == "041";
    HexFold3("041", 0, 4, 1);
    assert b[6..] == "" && !HexDigit('+');
    SimpleEscapes('u');
    assert b[2..][0] == '+';
    RadixReads("+041");
    assert UnescapeOne(b) == Ok(('A', ""));
    LooseUnit(b);
    OneCharacter(b);
  }

  /** `\ud800`, half a surrogate pair, reads as a replacement character. */
  lemma SurrogateWitness()
    ensures UnescapeBody("\\ud800") == Ok("\U{FFFD}") && !AgreesWithJson("\\ud800")
  {
    var b := "\\ud800";
    HexFold4(b[2..]);
    assert b[2..][..4] == b[2..] == Padded4(b[2..]) && b[6..] == "";
    SimpleEscapes('u');
    RadixReads(b[2..]);
    assert b[2..][0] == 'd' && b[2..][1] == '8';
    assert UnescapeOne(b) == Ok((REPLACEMENT, ""));
    LooseUnit(b);
    OneCharacter(b);
  }

  /** `\u041` at the end of a literal reads as if a zero followed. */
  lemma ShortWitness()
    ensures UnescapeBody("\\u041") == Ok("\U{0410}") && !AgreesWithJson("\\u041")
  {
    var b := "\\u041";
    var hex := "0410";
    assert Padded4(b[2..]) == hex;
    HexFold4(hex);
    assert hex[..4] == hex;
    SimpleEscapes('u');
    RadixReads(hex);
    assert UnescapeOne(b) == Ok(('\U{0410}', ""));
    LooseUnit(b);
    OneCharacter(b);
  }

  /** And an escaped surrogate pair, which JSON reads as one character, reads as two. */
  lemma PairWitness(b: string)
    requires JsonParser.ParseChar(b).Some? && b[0] == '\\' && JsonParser.ParseChar(b).value.0 as int >= 0x10000
    requires |b| == 12
    ensures UnescapeBody(b) == Ok("\U{FFFD}\U{FFFD}") && !AgreesWithJson(b)
  {
    hide UnescapeOne, JsonParser.ParseChar;
    PairReadsTwice(b);
    assert b[12..] == "";
    OneCharacter(b[6..]);
    assert [REPLACEMENT] + [REPLACEMENT] == [REPLACEMENT, REPLACEMENT];
    PairIsLoose(b);
    UnescapeAgreesIff(b);
    ReaderFailsIff(b);
  }

  lemma PairIsLoose(b: string)
    requires JsonParser.ParseChar(b).Some? && b[0] == '\\' && JsonParser.ParseChar(b).value.0 as int >= 0x10000
    ensures !Plain(b)
  {
    hide Plain, JsonParser.HexValue;
    var s := b[2..];
    var hi := JsonParser.ParseHex4(s).value;
    assert 0xD800 <= hi < 0xDC00;
    var d, e := JsonParser.HexValue(s[0]).value, JsonParser.HexValue(s[1]).value;
    assert d == 13 && e >= 8;
    SurrogateDigits(s[0], s[1]);
    assert !PlainUnit(b) by { SimpleEscapes('u'); }
    NotPlain(b);
  }

  lemma SurrogateDigits(d: char, e: char)
    requires JsonParser.HexValue(d) == Some(13) && JsonParser.HexValue(e).Some? && JsonParser.HexValue(e).value >= 8
    ensures d == 'd' || d == 'D'
    ensures !('0' <= e <= '7')
  {
  }

  lemma NotPlain(b: string)
    requires b != "" && !PlainUnit(b)
    ensures !Plain(b)
  {
  }
}
