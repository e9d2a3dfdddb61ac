/** The reference parser inverts the compact printer, whatever text follows. */
module JsonRoundTrip {
  import opened Wrappers
  import opened Json
  import opened JsonParser

  // ---- Strings ----

  lemma HexDigitValue(d: nat)
    requires d < 16
    ensures HexValue(HexDigit(d)) == Some(d)
  {
  }

  lemma SplitHex4(n: nat)
    requires n < 0x10000
    ensures n == n / 0x1000 * 0x1000 + n / 0x100 % 16 * 0x100 + n / 16 % 16 * 16 + n % 16
  {
    var a, b := n / 0x100, n / 16;
    assert b == a * 16 + b % 16;
    assert a == n / 0x1000 * 16 + a % 16;
  }

  lemma ParseHexDigits(n: nat, rest: string)
    requires n < 0x10000
    ensures ParseHex4(Hex4(n) + rest) == Some(n)
  {
    HexDigitValue(n / 0x1000);
    HexDigitValue(n / 0x100 % 16);
    HexDigitValue(n / 16 % 16);
    HexDigitValue(n % 16);
    SplitHex4(n);
    var t := Hex4(n) + rest;
    assert t[0] == HexDigit(n / 0x1000) && t[1] == HexDigit(n / 0x100 % 16);
    assert t[2] == HexDigit(n / 16 % 16) && t[3] == HexDigit(n % 16);
  }

  lemma ParseUnicodeEscape(c: char, rest: string)
    requires c as int < 0xD800
    ensures ParseChar(['\\', 'u'] + Hex4(c as int) + rest) == Some((c, rest))
  {
    var text := ['\\', 'u'] + Hex4(c as int) + rest;
    assert text[2..] == Hex4(c as int) + rest;
    ParseHexDigits(c as int, rest);
    assert text[2..][4..] == rest;
  }

  lemma ParseEscapedChar(c: char, rest: string)
    ensures ParseChar(EscapeChar(c) + rest) == Some((c, rest))
  {
    if ShortEscape(c).None? && NeedsUnicodeEscape(c) {
      ParseUnicodeEscape(c, rest);
    } else {
      var text := EscapeChar(c) + rest;
      assert text[|EscapeChar(c)|..] == rest;
    }
  }

  lemma {:induction false} ParseEscaped(s: string, rest: string)
    ensures ParseString(Escape(s) + "\"" + rest) == Some((s, rest))
  {
    if s == "" {
      assert Escape(s) + "\"" + rest == "\"" + rest;
    } else {
      var tail := Escape(s[1..]) + "\"" + rest;
      var text := Escape(s) + "\"" + rest;
      assert text == EscapeChar(s[0]) + tail;
      ParseEscapedChar(s[0], tail);
      ParseEscaped(s[1..], rest);
      assert [s[0]] + s[1..] == s;
    }
  }

  // ---- Numbers ----

  /** `rest` cannot extend a number that ends just before it. */
  predicate Delimited(rest: string) {
    rest == "" || !(Digit(rest[0]) || rest[0] in "+-.eE")
  }

  lemma {:induction false} LeadingDigitsStop(s: string, rest: string)
    requires Delimited(rest)
    ensures LeadingDigits(s + rest) == LeadingDigits(s)
  {
    if s == "" {
      assert s + rest == rest;
    } else {
      assert (s + rest)[1..] == s[1..] + rest;
      LeadingDigitsStop(s[1..], rest);
    }
  }

  lemma ScanFracStop(s: string, rest: string)
    requires Delimited(rest)
    ensures ScanFrac(s + rest) == ScanFrac(s)
  {
    if s == "" {
      assert s + rest == rest;
    } else {
      hide LeadingDigits;
      assert (s + rest)[1..] == s[1..] + rest;
      LeadingDigitsStop(s[1..], rest);
    }
  }

  /** A sign after the exponent mark is not part of what follows the number. */
  lemma SignStop(s: string, rest: string)
    requires s != "" && Delimited(rest)
    ensures ExpSign(s + rest) == ExpSign(s)
  {
  }

  lemma ScanExpStop(s: string, rest: string)
    requires Delimited(rest)
    ensures ScanExp(s + rest) == ScanExp(s)
  {
    if s == "" {
      assert s + rest == rest;
    } else {
      hide LeadingDigits, ExpSign;
      SignStop(s, rest);
      var sign := ExpSign(s);
      assert (s + rest)[sign..] == s[sign..] + rest;
      LeadingDigitsStop(s[sign..], rest);
    }
  }

  lemma ScanIntStop(s: string, rest: string)
    requires Delimited(rest)
    ensures ScanInt(s + rest) == ScanInt(s)
  {
    LeadingDigitsStop(s, rest);
    if s == "" {
      assert s + rest == rest;
    }
  }

  lemma ScanTailStop(s: string, rest: string)
    requires Delimited(rest)
    ensures ScanTail(s + rest) == ScanTail(s)
  {
    hide ScanFrac, ScanExp, Delimited;
    ScanFracStop(s, rest);
    var f := ScanFrac(s);
    assert (s + rest)[f..] == s[f..] + rest;
    ScanExpStop(s[f..], rest);
  }

  lemma ScanUnsignedStop(s: string, rest: string)
    requires Delimited(rest)
    ensures ScanUnsigned(s + rest) == ScanUnsigned(s)
  {
    hide ScanInt, ScanTail, Delimited;
    ScanIntStop(s, rest);
    var d := ScanInt(s);
    assert (s + rest)[d..] == s[d..] + rest;
    ScanTailStop(s[d..], rest);
  }

  lemma ScanNumberStop(s: string, rest: string)
    requires s != "" && Delimited(rest)
    ensures ScanNumber(s + rest) == ScanNumber(s)
  {
    hide ScanUnsigned, Delimited;
    ScanUnsignedStop(s, rest);
    assert (s + rest)[1..] == s[1..] + rest;
    ScanUnsignedStop(s[1..], rest);
  }

  lemma NumberStart(lexeme: string)
    requires IsNumber(lexeme)
    ensures Digit(lexeme[0]) || lexeme[0] == '-'
  {
  }

  lemma ParseNumber(lexeme: string, rest: string)
    requires IsNumber(lexeme) && Delimited(rest)
    ensures ParseValue(lexeme + rest) == Some((Number(lexeme), rest))
  {
    hide ScanNumber, ParseElems, ParseMembers, ParseString;
    var t := lexeme + rest;
    NumberStart(lexeme);
    assert Digit(lexeme[0]) || lexeme[0] == '-';
    ScanNumberStop(lexeme, rest);
    assert t[0] == lexeme[0] && SkipWhitespace(t) == t;
    assert !("null" <= t) && !("true" <= t) && !("false" <= t);
    assert t[..|lexeme|] == lexeme && t[|lexeme|..] == rest;
  }

  // ---- Decimals ----

  lemma {:induction false} AllDigits(s: string)
    requires forall i :: 0 <= i < |s| ==> Digit(s[i])
    ensures LeadingDigits(s) == |s|
  {
    if s != "" {
      AllDigits(s[1..]);
    }
  }

  lemma {:induction false} DecimalDigits(n: nat)
    ensures forall i :: 0 <= i < |Decimal(n)| ==> Digit(Decimal(n)[i])
    ensures DigitsValue(Decimal(n)) == n
    ensures Decimal(n)[0] == '0' <==> n == 0
    ensures n == 0 ==> |Decimal(n)| == 1
  {
    if n >= 10 {
      DecimalDigits(n / 10);
      var text := Decimal(n);
      assert text[..|text| - 1] == Decimal(n / 10);
      assert text[0] == Decimal(n / 10)[0];
    }
  }

  /** Decimal printing of an integer is a JSON number and denotes that integer. */
  lemma DecimalIsNumber(i: int)
    ensures IsNumber(DecimalInt(i))
    ensures Denotes(DecimalInt(i), i)
  {
    var n := if i < 0 then -i else i;
    var digits := Decimal(n);
    DecimalDigits(n);
    AllDigits(digits);
    var text := DecimalInt(i);
    var minus := if i < 0 then 1 else 0;
    assert text[minus..] == digits;
    assert text[minus + |digits|..] == "";
  }

  // ---- Documents ----

  predicate Punctuation(c: char) {
    c == ']' || c == '}' || c == ',' || c == ':'
  }

  lemma FirstChar(j: Json, rest: string)
    requires ValidDocument(j)
    ensures Print(j) != "" && !Punctuation(Print(j)[0])
    ensures SkipWhitespace(Print(j) + rest) == Print(j) + rest
  {
    if j.Number? {
      assert Digit(j.lexeme[0]) || j.lexeme[0] == '-';
    }
    assert (Print(j) + rest)[0] == Print(j)[0];
  }

  lemma AfterItem(after: string)
    requires after != "" && Punctuation(after[0])
    ensures SkipWhitespace(after) == after && Delimited(after)
  {
  }

  /** The first item of a list, and what is left to read after it. */
  function AfterFirst(more: bool, items: string, close: char, rest: string): string {
    if more then "," + (items + [close] + rest) else [close] + rest
  }

  lemma AfterFirstHead(more: bool, items: string, close: char, rest: string)
    requires close == ']' || close == '}'
    ensures var after := AfterFirst(more, items, close, rest);
            && after != "" && after[0] == (if more then ',' else close)
            && after[1..] == (if more then items + [close] + rest else rest)
            && SkipWhitespace(after) == after && Delimited(after)
  {
    AfterItem(AfterFirst(more, items, close, rest));
  }

  /** The closing text moves to the end of the first of the two parts. */
  lemma SplitFirst(first: string, more: bool, items: string, close: char, rest: string)
    ensures first + (if more then "," + items else "") + [close] + rest
         == first + AfterFirst(more, items, close, rest)
  {
  }

  lemma ElemsText(elems: seq<Json>, rest: string)
    requires elems != []
    ensures PrintElems(elems) + "]" + rest
         == Print(elems[0]) + AfterFirst(|elems| > 1, PrintElems(elems[1..]), ']', rest)
  {
    hide Print, AfterFirst;
    SplitFirst(Print(elems[0]), |elems| > 1, PrintElems(elems[1..]), ']', rest);
  }

  lemma MembersText(members: seq<(string, Json)>, rest: string)
    requires members != []
    ensures PrintMembers(members) + "}" + rest
         == PrintMember(members[0]) + AfterFirst(|members| > 1, PrintMembers(members[1..]), '}', rest)
  {
    hide PrintMember, AfterFirst;
    SplitFirst(PrintMember(members[0]), |members| > 1, PrintMembers(members[1..]), '}', rest);
  }

  lemma MemberText(m: (string, Json), after: string)
    ensures var t := PrintMember(m) + after;
            t[0] == '"' && t[1..] == Escape(m.0) + "\"" + (":" + (Print(m.1) + after))
  {
  }

  lemma BracketedText(open: char, body: string, close: string, rest: string)
    ensures var t := [open] + body + close + rest;
            t[0] == open && t[1..] == body + close + rest
  {
  }

  lemma ParseLiteral(j: Json, rest: string)
    requires j.Null? || j.Bool?
    ensures ParseValue(Print(j) + rest) == Some((j, rest))
  {
    var t := Print(j) + rest;
    assert SkipWhitespace(t) == t && Print(j) <= t && t[|Print(j)|..] == rest;
  }

  /** Parsing consumes exactly the printed document and returns it. */
  lemma {:induction false} ParsePrint(j: Json, rest: string)
    requires ValidDocument(j)
    requires j.Number? ==> Delimited(rest)
    ensures ParseValue(Print(j) + rest) == Some((j, rest))
    decreases j, 1
  {
    match j {
      case Null => ParseLiteral(j, rest);
      case Bool(b) => ParseLiteral(j, rest);
      case Number(lexeme) => ParseNumber(lexeme, rest);
      case Str(s) => ParsePrintStr(s, rest);
      case Arr(elems) => ParsePrintArr(elems, rest);
      case Obj(members) => ParsePrintObj(members, rest);
    }
  }

  lemma ParsePrintStr(s: string, rest: string)
    ensures ParseValue(Print(Str(s)) + rest) == Some((Str(s), rest))
  {
    var t := Print(Str(s)) + rest;
    BracketedText('"', Escape(s), "\"", rest);
    assert t[0] == '"' && t[1..] == Escape(s) + "\"" + rest;
    ParseEscaped(s, rest);
  }

  lemma {:induction false} ParsePrintArr(elems: seq<Json>, rest: string)
    requires forall i :: 0 <= i < |elems| ==> ValidDocument(elems[i])
    ensures ParseValue(Print(Arr(elems)) + rest) == Some((Arr(elems), rest))
    decreases elems, 1
  {
    var t := Print(Arr(elems)) + rest;
    BracketedText('[', PrintElems(elems), "]", rest);
    var u := PrintElems(elems) + "]" + rest;
    assert t[0] == '[' && t[1..] == u;
    if elems != [] {
      ParsePrintElems(elems, rest);
    } else {
      assert u == "]" + rest && u[1..] == rest;
    }
  }

  lemma {:induction false} ParsePrintObj(members: seq<(string, Json)>, rest: string)
    requires forall i :: 0 <= i < |members| ==> ValidDocument(members[i].1)
    ensures ParseValue(Print(Obj(members)) + rest) == Some((Obj(members), rest))
    decreases members, 1
  {
    var t := Print(Obj(members)) + rest;
    BracketedText('{', PrintMembers(members), "}", rest);
    var u := PrintMembers(members) + "}" + rest;
    assert t[0] == '{' && t[1..] == u;
    if members != [] {
      ParsePrintMembers(members, rest);
    } else {
      assert u == "}" + rest && u[1..] == rest;
    }
  }

  lemma {:induction false} ParsePrintElems(elems: seq<Json>, rest: string)
    requires elems != []
    requires forall i :: 0 <= i < |elems| ==> ValidDocument(elems[i])
    ensures var t := PrintElems(elems) + "]" + rest;
            SkipWhitespace(t) == t && !StartsWith(t, ']') && ParseElems(t) == Some((elems, rest))
    decreases elems, 0
  {
    hide Print, PrintElems, ParseValue, AfterFirst, SkipWhitespace;
    var after := AfterFirst(|elems| > 1, PrintElems(elems[1..]), ']', rest);
    ElemsText(elems, rest);
    AfterFirstHead(|elems| > 1, PrintElems(elems[1..]), ']', rest);
    FirstChar(elems[0], after);
    ParsePrint(elems[0], after);
    assert !StartsWith(Print(elems[0]) + after, ']');
    if |elems| > 1 {
      ParsePrintElems(elems[1..], rest);
      assert [elems[0]] + elems[1..] == elems;
    } else {
      assert [elems[0]] == elems;
    }
  }

  lemma {:induction false} ParsePrintMember(m: (string, Json), after: string)
    requires ValidDocument(m.1) && after != "" && Punctuation(after[0])
    ensures var t := PrintMember(m) + after;
            && SkipWhitespace(t) == t && StartsWith(t, '"')
            && var value := Print(m.1) + after;
            && ParseString(t[1..]) == Some((m.0, ":" + value))
            && ParseValue(value) == Some((m.1, after))
    decreases m, 0
  {
    MemberText(m, after);
    ParseEscaped(m.0, ":" + (Print(m.1) + after));
    AfterItem(after);
    ParsePrint(m.1, after);
  }

  lemma {:induction false} ParsePrintMembers(members: seq<(string, Json)>, rest: string)
    requires members != []
    requires forall i :: 0 <= i < |members| ==> ValidDocument(members[i].1)
    ensures var t := PrintMembers(members) + "}" + rest;
            SkipWhitespace(t) == t && StartsWith(t, '"') && ParseMembers(t) == Some((members, rest))
    decreases members, 0
  {
    hide PrintMember, PrintMembers, ParseMembers, AfterFirst, SkipWhitespace;
    var after := AfterFirst(|members| > 1, PrintMembers(members[1..]), '}', rest);
    MembersText(members, rest);
    AfterFirstHead(|members| > 1, PrintMembers(members[1..]), '}', rest);
    ParsePrintMember(members[0], after);
    if |members| > 1 {
      ParsePrintMembers(members[1..], rest);
    }
    ParseFirstMember(members, after, rest);
  }

  /** One member, and what comes after it. */
  lemma ParseFirstMember(members: seq<(string, Json)>, after: string, rest: string)
    requires members != [] && after != "" && Punctuation(after[0])
    requires SkipWhitespace(after) == after
    requires if |members| > 1 then
               && after[0] == ',' && SkipWhitespace(after[1..]) == after[1..]
               && ParseMembers(after[1..]) == Some((members[1..], rest))
             else after == "}" + rest
    requires var t, value := PrintMember(members[0]) + after, Print(members[0].1) + after;
             && SkipWhitespace(t) == t && StartsWith(t, '"')
             && ParseString(t[1..]) == Some((members[0].0, ":" + value))
             && ParseValue(value) == Some((members[0].1, after))
    ensures ParseMembers(PrintMember(members[0]) + after) == Some((members, rest))
  {
    hide PrintMember, Print, ParseValue, ParseString;
    var colon := ":" + (Print(members[0].1) + after);
    AfterItem(colon);
    assert colon[1..] == Print(members[0].1) + after;
    if |members| > 1 {
      assert [members[0]] + members[1..] == members;
    } else {
      assert after[1..] == rest && [members[0]] == members;
    }
  }

  /** A printed document is a complete JSON text. */
  lemma ParseTextPrint(j: Json)
    requires ValidDocument(j)
    ensures ParseText(Print(j)) == Some(j)
  {
    assert Print(j) + "" == Print(j);
    ParsePrint(j, "");
  }
}
