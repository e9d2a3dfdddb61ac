/** What literals mean to the schema parser, and a rendering for every schema. */
module SchemaRendering {
  import opened Wrappers
  import opened Schemas
  import opened SchemaParser
  import opened SchemaGrammar
  import Json
  import JsonRoundTrip
  import StringLiterals
  import WideEvents

  // ---- Number literals ----

  predicate AllDigits(s: string) { s != "" && forall i :: 0 <= i < |s| ==> Json.Digit(s[i]) }

  lemma DecimalParses(n: nat)
    ensures AllDigits(Json.Decimal(n)) && ParseDigits(Json.Decimal(n)) == Some(n)
  {
    JsonRoundTrip.DecimalDigits(n);
  }

  lemma SuffixOff(s: string, suffix: string)
    ensures StripSuffix(s + suffix, suffix) == Some(s)
  {
    assert (s + suffix)[|s|..] == suffix && (s + suffix)[..|s|] == s;
  }

  lemma OtherSuffix(s: string, suffix: string)
    requires |suffix| == 3 && |s| >= 3 && s[|s| - 3] != suffix[0]
    ensures StripSuffix(s, suffix) == None
  {
    assert s[|s| - 3..][0] == s[|s| - 3];
  }

  /** Digits, or a minus sign and digits, carry no type suffix. */
  lemma NoSuffix(s: string, suffix: string)
    requires |suffix| == 3 && suffix[0] !in "-0123456789"
    requires AllDigits(s) || (s != "" && s[0] == '-' && AllDigits(s[1..]))
    ensures StripSuffix(s, suffix) == None
  {
    if |s| >= 3 {
      var k := |s| - 3;
      assert k > 0 && s[0] == '-' ==> s[k] == s[1..][k - 1];
      assert Json.Digit(s[k]) || s[k] == '-';
      DigitChars(s[k]);
      OtherSuffix(s, suffix);
    }
  }

  lemma DigitChars(c: char)
    requires Json.Digit(c) || c == '-'
    ensures c in "-0123456789"
  {
    var all := "-0123456789";
    if c == '-' {
      assert all[0] == c;
    } else {
      assert all[(c as int - '0' as int) + 1] == c;
    }
  }

  /**
   Integers without a type suffix: in the unsigned range an unsigned number, below zero down to the
   signed range a signed one, and outside both whatever the float parser makes of the text.
   */
  lemma IntegerLiterals(fl: Floats, n: nat)
    ensures ParseNumber(fl, Json.Decimal(n)) ==
            if n < WideEvents.TWO_64 then Some(Uint(n)) else AsFloat(fl, Json.Decimal(n))
    ensures ParseNumber(fl, "-" + Json.Decimal(n)) ==
            if n <= WideEvents.TWO_63 then Some(Int(-(n as int))) else AsFloat(fl, "-" + Json.Decimal(n))
  {
    hide ParseDigits, ParseNumber, Json.DigitsValue;
    DecimalParses(n);
    DigitsParse(Json.Decimal(n));
    DigitLiterals(fl, Json.Decimal(n));
  }

  /** Any digits, with leading zeros or not: an unsigned number in range, and else the float parser's. */
  lemma DigitLiterals(fl: Floats, s: string)
    requires AllDigits(s)
    ensures ParseNumber(fl, s) ==
            if Json.DigitsValue(s) < 0x1_0000_0000_0000_0000 then Some(Uint(Json.DigitsValue(s))) else AsFloat(fl, s)
    ensures ParseNumber(fl, "-" + s) ==
            if Json.DigitsValue(s) <= 0x8000_0000_0000_0000 then Some(Int(-(Json.DigitsValue(s) as int)))
            else AsFloat(fl, "-" + s)
    ensures ParseNumber(fl, s + "u64") ==
            if Json.DigitsValue(s) < 0x1_0000_0000_0000_0000 then Some(Uint(Json.DigitsValue(s)))
            else AsFloat(fl, s + "u64")
    ensures ParseNumber(fl, s + "i64") ==
            if Json.DigitsValue(s) < 0x8000_0000_0000_0000 then Some(Int(Json.DigitsValue(s)))
            else AsFloat(fl, s + "i64")
    ensures ParseNumber(fl, "-" + s + "i64") ==
            if Json.DigitsValue(s) <= 0x8000_0000_0000_0000 then Some(Int(-(Json.DigitsValue(s) as int)))
            else AsFloat(fl, "-" + s + "i64")
    ensures ParseNumber(fl, "+" + s) ==
            if Json.DigitsValue(s) < 0x1_0000_0000_0000_0000 then Some(Uint(Json.DigitsValue(s)))
            else AsFloat(fl, "+" + s)
  {
    hide StripSuffix, ParseDigits, AllDigits, Json.DigitsValue, ParseU64, ParseI64, ParseNumber, AsFloat;
    var minus := "-" + s;
    DigitsAsIntegers(s);
    PlusLiteral(fl, s);
    NotDigits(s, "i64");
    NotDigits(s, "u64");
    PlainNumber(fl, s);
    PlainNumber(fl, minus);
    assert minus[1..] == s;
    UnsignedNumber(fl, s);
    SignedNumber(fl, s);
    SignedNumber(fl, minus);
  }

  lemma DigitsAsIntegers(s: string)
    requires AllDigits(s)
    ensures ParseU64(s) == if Json.DigitsValue(s) < 0x1_0000_0000_0000_0000 then Some(Json.DigitsValue(s)) else None
    ensures ParseI64(s) == if Json.DigitsValue(s) < 0x8000_0000_0000_0000 then Some(Json.DigitsValue(s)) else None
    ensures ParseU64("-" + s) == None
    ensures ParseI64("-" + s)
         == if Json.DigitsValue(s) <= 0x8000_0000_0000_0000 then Some(-(Json.DigitsValue(s) as int)) else None
  {
    hide ParseDigits, AllDigits, Json.DigitsValue;
    DigitsParse(s);
    NoPlus(s);
    MinusIsNoDigit(s);
    assert ("-" + s)[1..] == s;
  }

  /** Digits without a suffix, with or without a minus sign. */
  lemma PlainNumber(fl: Floats, s: string)
    requires AllDigits(s) || (s != "" && s[0] == '-' && AllDigits(s[1..]))
    ensures ParseNumber(fl, s)
         == if ParseU64(s).Some? then Some(Uint(ParseU64(s).value))
            else if ParseI64(s).Some? then Some(Int(ParseI64(s).value))
            else AsFloat(fl, s)
  {
    hide StripSuffix, AllDigits, ParseU64, ParseI64;
    NoSuffix(s, "i64");
    NoSuffix(s, "u64");
    NoSuffix(s, "f64");
  }

  lemma SignedNumber(fl: Floats, s: string)
    requires ParseU64(s + "i64") == None && ParseI64(s + "i64") == None
    ensures ParseNumber(fl, s + "i64")
         == if ParseI64(s).Some? then Some(Int(ParseI64(s).value)) else AsFloat(fl, s + "i64")
  {
    hide StripSuffix, ParseU64, ParseI64;
    SuffixOff(s, "i64");
    OtherSuffix(s + "i64", "u64");
    OtherSuffix(s + "i64", "f64");
  }

  lemma UnsignedNumber(fl: Floats, s: string)
    requires ParseU64(s + "u64") == None && ParseI64(s + "u64") == None
    ensures ParseNumber(fl, s + "u64")
         == if ParseU64(s).Some? then Some(Uint(ParseU64(s).value)) else AsFloat(fl, s + "u64")
  {
    hide StripSuffix, ParseU64, ParseI64;
    SuffixOff(s, "u64");
    OtherSuffix(s + "u64", "i64");
    OtherSuffix(s + "u64", "f64");
  }

  lemma PlusLiteral(fl: Floats, s: string)
    requires AllDigits(s)
    ensures ParseNumber(fl, "+" + s) ==
            if Json.DigitsValue(s) < 0x1_0000_0000_0000_0000 then Some(Uint(Json.DigitsValue(s)))
            else AsFloat(fl, "+" + s)
  {
    hide StripSuffix, ParseDigits, AllDigits, Json.DigitsValue;
    var plus := "+" + s;
    DigitsParse(s);
    assert plus[1..] == s && AfterPlus(plus) == s;
    PlusNoSuffix(s, "i64");
    PlusNoSuffix(s, "u64");
    PlusNoSuffix(s, "f64");
  }

  lemma PlusNoSuffix(s: string, suffix: string)
    requires AllDigits(s) && suffix in {"i64", "u64", "f64"}
    ensures StripSuffix("+" + s, suffix) == None
  {
    var t := "+" + s;
    if |t| >= 3 {
      assert t[|t| - 3] == '+' || (t[|t| - 3] == s[|s| - 3] && Json.Digit(s[|s| - 3]));
      OtherSuffix(t, suffix);
    }
  }

  /** A literal that begins with no quotation mark, digit or sign is a float if its parser says so, or refused. */
  lemma OtherLiteral(fl: Floats, s: string)
    requires s != "" && s[0] != '"' && s[0] != '+' && s[0] != '-' && !Json.Digit(s[0])
    requires StripSuffix(s, "f64") == None
    ensures ParseLiteral(fl, s) == match fl(s) case Some(f) => Ok(Num(Float(f))) case None => Err(BadLiteral(s))
  {
    hide ParseU64, ParseI64, StripSuffix;
    NoInteger(s);
    StrippedHead(s, "i64");
    StrippedHead(s, "u64");
  }

  lemma NoInteger(s: string)
    requires s == "" || (s[0] != '+' && s[0] != '-' && !Json.Digit(s[0]))
    ensures ParseU64(s) == None && ParseI64(s) == None
  {
    hide Json.DigitsValue;
  }

  /** What is left before a suffix begins as the literal does, and so is no integer either. */
  lemma StrippedHead(s: string, suffix: string)
    requires s != "" && s[0] != '+' && s[0] != '-' && !Json.Digit(s[0])
    ensures var t := StripSuffix(s, suffix); t.Some? ==> ParseU64(t.value) == None && ParseI64(t.value) == None
  {
    hide ParseU64, ParseI64;
    var t := StripSuffix(s, suffix);
    if t.Some? {
      assert t.value != "" ==> t.value[0] == s[0];
      NoInteger(t.value);
    }
  }

  lemma DigitsParse(s: string)
    requires AllDigits(s)
    ensures ParseDigits(s) == Some(Json.DigitsValue(s))
  {
  }

  /** With a suffix left on, digits are no integer. */
  lemma NotDigits(s: string, suffix: string)
    requires AllDigits(s) && suffix in {"i64", "u64", "f64"}
    ensures ParseU64(s + suffix) == None && ParseI64(s + suffix) == None
    ensures ParseU64("-" + s + suffix) == None && ParseI64("-" + s + suffix) == None
  {
    var t, m := s + suffix, "-" + s + suffix;
    assert t[0] == s[0] && Json.Digit(s[0]) && t[|s|] == suffix[0] && !Json.Digit(suffix[0]);
    assert m[0] == '-' && m[1..] == t;
  }

  function AsFloat(fl: Floats, s: string): Option<Number> {
    var f :- fl(s);
    Some(Float(f))
  }

  lemma NoPlus(s: string)
    requires AllDigits(s)
    ensures AfterPlus(s) == s && s[0] != '-'
    ensures AfterPlus("-" + s) == "-" + s
  {
    assert Json.Digit(s[0]);
  }

  lemma MinusIsNoDigit(s: string)
    ensures ParseDigits("-" + s) == None
  {
    assert ("-" + s)[0] == '-';
  }

  /** A signed number that is not negative needs its suffix. */
  lemma SignedLiteral(fl: Floats, n: nat)
    requires n < WideEvents.TWO_63
    ensures ParseNumber(fl, Json.Decimal(n) + "i64") == Some(Int(n))
  {
    hide StripSuffix, ParseDigits, AllDigits;
    SuffixOff(Json.Decimal(n), "i64");
    DecimalParses(n);
    NoPlus(Json.Decimal(n));
  }

  lemma FloatLiteral(fl: Floats, token: string, f: WideEvents.Float)
    requires fl(token) == Some(f)
    ensures ParseNumber(fl, token + "f64") == Some(Float(f))
  {
    hide ParseI64, ParseU64;
    SuffixOff(token, "f64");
    OtherSuffix(token + "f64", "i64");
    OtherSuffix(token + "f64", "u64");
  }

  // ---- String literals ----

  /** A string literal is its text, or refused for its first bad unit. */
  lemma StringLiteral(fl: Floats, body: string)
    ensures var r := ParseLiteral(fl, "\"" + body + "\"");
            if StringLiterals.Bad(body) then r == Err(BadString(StringLiterals.FirstError(body)))
            else StringLiterals.UnescapeBody(body).Ok? && r == Ok(Str(StringLiterals.UnescapeBody(body).value))
  {
    hide StringLiterals.Bad, StringLiterals.UnescapeBody, StringLiterals.FirstError;
    var raw := "\"" + body + "\"";
    assert raw[1..|raw| - 1] == body && raw[|raw| - 1] == '"';
    StringLiterals.ReaderFailsIff(body);
    if StringLiterals.Bad(body) {
      StringLiterals.ReaderErrorIs(body);
    }
  }

  // ---- A rendering for every schema ----

  /** The floats of the schema print to tokens from which they are read back. */
  predicate Readable(fl: Floats, node: JsonNode)
    decreases node
  {
    match node
    case Num(Float(f)) => f.Finite? && f.token != "" && f.token[0] != '"' && fl(f.token) == Some(f)
    case Object(entries) => forall i :: 0 <= i < |entries| ==> Readable(fl, entries[i].1)
    case _ => true
  }

  /** A literal, with its minus sign as a token of its own. */
  function Signed(text: string): Tokens {
    if text != "" && text[0] == '-' then [Punct('-'), Literal(text[1..])] else [Literal(text)]
  }

  function NumberText(n: Number): string {
    match n
    case Int(i) => if i < 0 then Json.DecimalInt(i) else Json.DecimalInt(i) + "i64"
    case Uint(u) => Json.DecimalInt(u)
    case Float(Finite(token)) => token + "f64"
    case Float(NonFinite) => ""
  }

  function Render(node: JsonNode): Tokens
    decreases node, 1
  {
    match node
    case Null => [Ident("null")]
    case Bool(b) => [Ident(if b then "true" else "false")]
    case Num(n) => Signed(NumberText(n))
    case Str(s) => [Literal(Json.Quote(s))]
    case Object(entries) => [Group(Brace, RenderEntries(entries))]
    case Mark(DurationMarker) => [Ident("duration"), Punct('!')]
    case Mark(CounterMarker) => [Ident("counter"), Punct('!')]
  }

  function RenderEntries(entries: seq<Entry>): Tokens
    decreases entries, 1
  {
    if entries == [] then []
    else if |entries| == 1 then RenderEntry(entries[0])
    else RenderEntry(entries[0]) + [COMMA] + RenderEntries(entries[1..])
  }

  function RenderEntry(entry: Entry): Tokens
    decreases entry, 0
  {
    [Literal(Json.Quote(entry.0)), Punct(':')] + Render(entry.1)
  }

  lemma NumberRenders(fl: Floats, n: Number)
    requires Readable(fl, Num(n))
    ensures NumberText(n) != "" && !StartsQuoted(NumberText(n))
    ensures ParseNumber(fl, NumberText(n)) == Some(n)
  {
    hide ParseNumber, ParseDigits;
    match n {
      case Int(i) =>
        if i < 0 {
          var below: int := i;
          IntegerLiterals(fl, -below);
        } else {
          SignedLiteral(fl, i);
          DecimalParses(i);
          assert Json.Digit(Json.Decimal(i)[0]);
        }
      case Uint(u) =>
        IntegerLiterals(fl, u);
        DecimalParses(u);
        assert Json.Digit(Json.Decimal(u)[0]);
      case Float(f) => FloatLiteral(fl, f.token, f);
    }
  }

  lemma SignedRenders(fl: Floats, node: JsonNode, text: string)
    requires text != "" && ParseLiteral(fl, text) == Ok(node)
    ensures Renders(fl, node, Signed(text))
  {
    hide ParseLiteral;
    if text[0] == '-' {
      assert "-" + text[1..] == text;
    }
  }

  lemma QuotedText(s: string)
    ensures StartsQuoted(Json.Quote(s)) && StringLiterals.Unescape(Json.Quote(s)) == Ok(s)
  {
    StringLiterals.UnescapeQuote(s);
  }

  lemma {:induction false} RenderRenders(fl: Floats, node: JsonNode)
    requires DistinctKeys(node) && Readable(fl, node)
    ensures Renders(fl, node, Render(node))
    decreases node, 1
  {
    hide ParseNumber, NumberText, Signed, Json.Quote, StringLiterals.Unescape;
    match node {
      case Num(n) =>
        NumberRenders(fl, n);
        SignedRenders(fl, node, NumberText(n));
      case Str(s) => QuotedText(s);
      case Object(entries) =>
        EntriesRender(fl, node);
      case _ =>
    }
  }

  function EntryParts(entries: seq<Entry>): seq<Tokens> {
    seq(|entries|, i requires 0 <= i < |entries| => RenderEntry(entries[i]))
  }

  lemma {:induction false} PartsJoin(entries: seq<Entry>)
    ensures Joined(EntryParts(entries)) == RenderEntries(entries)
  {
    hide RenderEntry;
    if |entries| > 1 {
      assert EntryParts(entries)[1..] == EntryParts(entries[1..]);
      PartsJoin(entries[1..]);
    }
  }

  lemma {:induction false} EntriesRender(fl: Floats, node: JsonNode)
    requires node.Object? && DistinctKeys(node) && Readable(fl, node)
    ensures RendersEntries(fl, node.entries, RenderEntries(node.entries))
    decreases node, 0
  {
    hide IsKey, Render, Renders, Joined, Json.Quote;
    var entries := node.entries;
    var parts := EntryParts(entries);
    PartsJoin(entries);
    forall i | 0 <= i < |entries|
      ensures RendersEntry(fl, entries[i], parts[i])
    {
      RenderRenders(fl, entries[i].1);
      KeyRenders(entries[i].0);
      assert parts[i][2..] == Render(entries[i].1);
    }
    assert RendersParts(fl, entries, parts);
  }

  lemma KeyRenders(key: string)
    ensures IsKey(Literal(Json.Quote(key)), key)
  {
    QuotedText(key);
  }

  /** Every schema with distinct keys and readable floats can be written down, and parses back. */
  lemma ParseRender(fl: Floats, node: JsonNode)
    requires node.Object? && DistinctKeys(node) && Readable(fl, node)
    ensures ParseSchema(fl, Render(node)) == Ok(node)
  {
    hide Renders, Render, ParseSchema;
    RenderRenders(fl, node);
    ParseSchemaIff(fl, Render(node), node);
  }
}
