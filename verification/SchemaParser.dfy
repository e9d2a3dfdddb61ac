/** The parser of the schema literal: token trees to a JSON tree. */
module SchemaParser {
  import opened Wrappers
  import Json
  import opened Schemas
  import WideEvents
  import StringLiterals

  datatype Delimiter = Brace | Parenthesis | Bracket | Invisible

  datatype TokenTree =
    | Ident(name: string)
    | Punct(ch: char)
    | Literal(text: string)
    | Group(delimiter: Delimiter, stream: seq<TokenTree>)

  type Tokens = seq<TokenTree>
  type Entry = (string, JsonNode)

  datatype ParseError =
    | UnexpectedEnd
    | UnexpectedToken
    | UnexpectedIdent(name: string)
    | ExpectedBang
    | ExpectedLiteral
    | BadString(error: StringLiterals.LiteralError)
    | BadLiteral(text: string)
    | TrailingInParentheses
    | ExpectedKey
    | BadKey
    | ExpectedColon
    | DuplicateKey(key: string)
    | ExpectedComma
    | TrailingTokens
    | NotAnObject

  /** `str::parse::<f64>`, about which nothing is assumed here. */
  type Floats = string -> Option<WideEvents.Float>

  // ---- Literals ----

  function StripSuffix(s: string, suffix: string): (r: Option<string>)
    ensures r.Some? ==> s == r.value + suffix
  {
    if |s| >= |suffix| && s[|s| - |suffix|..] == suffix then Some(s[..|s| - |suffix|]) else None
  }

  function ParseDigits(s: string): Option<nat> {
    if s != "" && forall i :: 0 <= i < |s| ==> Json.Digit(s[i]) then Some(Json.DigitsValue(s)) else None
  }

  function AfterPlus(s: string): string {
    if s != "" && s[0] == '+' then s[1..] else s
  }

  /** `str::parse::<u64>` */
  function ParseU64(s: string): Option<WideEvents.u64> {
    var n :- ParseDigits(AfterPlus(s));
    if n < WideEvents.TWO_64 then Some(n) else None
  }

  /** `str::parse::<i64>` */
  function ParseI64(s: string): Option<WideEvents.i64> {
    if s != "" && s[0] == '-' then
      var n :- ParseDigits(s[1..]);
      if n <= WideEvents.TWO_63 then Some(-(n as int)) else None
    else
      var n :- ParseDigits(AfterPlus(s));
      if n < WideEvents.TWO_63 then Some(n) else None
  }

  function Suffixed<T>(s: string, suffix: string, parse: string -> Option<T>): Option<T> {
    var stripped :- StripSuffix(s, suffix);
    parse(stripped)
  }

  /** The number literals, in the order in which the types are tried. */
  function ParseNumber(fl: Floats, s: string): Option<Number> {
    var i := Suffixed(s, "i64", ParseI64);
    if i.Some? then Some(Int(i.value)) else
    var u := Suffixed(s, "u64", ParseU64);
    if u.Some? then Some(Uint(u.value)) else
    var f := Suffixed(s, "f64", fl);
    if f.Some? then Some(Float(f.value)) else
    if ParseU64(s).Some? then Some(Uint(ParseU64(s).value))
    else if ParseI64(s).Some? then Some(Int(ParseI64(s).value))
    else
      var g :- fl(s);
      Some(Float(g))
  }

  function ParseString(s: string): Result<string, ParseError> {
    match StringLiterals.Unescape(s)
    case Ok(text) => Ok(text)
    case Err(e) => Err(BadString(e))
  }

  predicate StartsQuoted(s: string) { s != "" && s[0] == '"' }

  function ParseLiteral(fl: Floats, s: string): Result<JsonNode, ParseError> {
    if StartsQuoted(s) then
      var text :- ParseString(s);
      Ok(Str(text))
    else
      match ParseNumber(fl, s)
      case Some(n) => Ok(Num(n))
      case None => Err(BadLiteral(s))
  }

  // ---- Values and objects ----

  /** How many token trees and groups there are, at every depth. */
  function Size(ts: Tokens): nat {
    if ts == [] then 0 else TokenSize(ts[0]) + Size(ts[1..])
  }

  function TokenSize(t: TokenTree): nat {
    match t
    case Group(_, stream) => 1 + Size(stream)
    case _ => 1
  }

  lemma {:induction false} SizeSuffix(ts: Tokens, i: nat)
    requires i <= |ts|
    ensures Size(ts[i..]) <= Size(ts)
    ensures i > 0 ==> Size(ts[i..]) < Size(ts)
  {
    if i > 0 {
      assert ts[1..][i - 1..] == ts[i..];
      SizeSuffix(ts[1..], i - 1);
    } else {
      assert ts[0..] == ts;
    }
  }

  lemma SizeStream(ts: Tokens)
    requires ts != [] && ts[0].Group?
    ensures Size(ts[0].stream) < Size(ts)
  {
  }

  /** `rest` is what is left of `ts`, and something was taken. */
  predicate Left(rest: Tokens, ts: Tokens) {
    |rest| < |ts| && rest == ts[|ts| - |rest|..]
  }

  function ParseKey(ts: Tokens): (r: Result<(string, Tokens), ParseError>)
    ensures r.Ok? ==> Left(r.value.1, ts)
  {
    if ts == [] then Err(ExpectedKey) else
    match ts[0]
    case Literal(text) =>
      if StartsQuoted(text) then
        var key :- ParseString(text);
        Ok((key, ts[1..]))
      else Err(BadKey)
    case Ident(name) =>
      if name == "true" || name == "false" || name == "null" then Err(BadKey) else Ok((name, ts[1..]))
    case _ => Err(BadKey)
  }

  function ParseIdent(name: string, rest: Tokens): (r: Result<(JsonNode, Tokens), ParseError>)
    ensures r.Ok? ==> r.value.1 == rest || (rest != [] && r.value.1 == rest[1..])
  {
    if name == "true" then Ok((Bool(true), rest))
    else if name == "false" then Ok((Bool(false), rest))
    else if name == "null" then Ok((Null, rest))
    else if name == "duration" || name == "counter" then
      if rest != [] && rest[0] == Punct('!') then
        Ok((Mark(if name == "duration" then DurationMarker else CounterMarker), rest[1..]))
      else Err(ExpectedBang)
    else Err(UnexpectedIdent(name))
  }

  function ParseValue(fl: Floats, ts: Tokens): (r: Result<(JsonNode, Tokens), ParseError>)
    ensures r.Ok? ==> Left(r.value.1, ts)
    decreases Size(ts), 0
  {
    if ts == [] then Err(UnexpectedEnd) else
    match ts[0]
    case Ident(name) => ParseIdent(name, ts[1..])
    case Punct(ch) =>
      if ch != '-' then Err(UnexpectedToken)
      else if |ts| == 1 || !ts[1].Literal? then Err(ExpectedLiteral)
      else
        var node :- ParseLiteral(fl, "-" + ts[1].text);
        Ok((node, ts[2..]))
    case Literal(text) =>
      var node :- ParseLiteral(fl, text);
      Ok((node, ts[1..]))
    case Group(Brace, stream) =>
      SizeStream(ts);
      var entries :- ParseObject(fl, stream);
      Ok((Object(entries), ts[1..]))
    case Group(Parenthesis, stream) =>
      SizeStream(ts);
      var (node, rest) :- ParseValue(fl, stream);
      if rest != [] then Err(TrailingInParentheses) else Ok((node, ts[1..]))
    case Group(_, _) => Err(UnexpectedToken)
  }

  function ParseObject(fl: Floats, inner: Tokens): Result<seq<Entry>, ParseError>
    decreases Size(inner), 2
  {
    if inner == [] then Ok([]) else ParseEntries(fl, inner, [])
  }

  predicate HasKey(entries: seq<Entry>, key: string) {
    exists i :: 0 <= i < |entries| && entries[i].0 == key
  }

  /** One entry: a key, a colon, a value. */
  function ParseEntry(fl: Floats, ts: Tokens): (r: Result<(Entry, Tokens), ParseError>)
    ensures r.Ok? ==> Left(r.value.1, ts)
    decreases Size(ts), 0
  {
    var (key, afterKey) :- ParseKey(ts);
    if afterKey == [] || afterKey[0] != Punct(':') then Err(ExpectedColon) else
    SizeSuffix(ts, |ts| - |afterKey| + 1);
    assert ts[|ts| - |afterKey| + 1..] == afterKey[1..];
    var (value, rest) :- ParseValue(fl, afterKey[1..]);
    Ok(((key, value), rest))
  }

  function ParseEntries(fl: Floats, ts: Tokens, entries: seq<Entry>): Result<seq<Entry>, ParseError>
    decreases Size(ts), 1
  {
    var (entry, rest) :- ParseEntry(fl, ts);
    if HasKey(entries, entry.0) then Err(DuplicateKey(entry.0)) else
    var entries' := entries + [entry];
    if rest == [] then Ok(entries')
    else if rest[0] != Punct(',') then Err(ExpectedComma)
    else if |rest| == 1 then Ok(entries')
    else
      SizeSuffix(ts, |ts| - |rest| + 1);
      assert ts[|ts| - |rest| + 1..] == rest[1..];
      ParseEntries(fl, rest[1..], entries')
  }

  /** The whole schema literal, after the override list. */
  function ParseSchema(fl: Floats, ts: Tokens): Result<JsonNode, ParseError> {
    var (node, rest) :- ParseValue(fl, ts);
    if rest != [] then Err(TrailingTokens)
    else if !node.Object? then Err(NotAnObject)
    else Ok(node)
  }

  // ---- The parser on token iterators ----

  class TokenIter {
    var rest: Tokens

    constructor (ts: Tokens)
      ensures rest == ts
    {
      rest := ts;
    }

    method Next() returns (t: Option<TokenTree>)
      modifies this
      ensures if old(rest) == [] then t == None && rest == []
              else t == Some(old(rest)[0]) && rest == old(rest)[1..]
    {
      if |rest| == 0 {
        return None;
      }
      t := Some(rest[0]);
      rest := rest[1..];
    }

    method AtEnd() returns (b: bool)
      ensures b == (rest == [])
    {
      b := rest == [];
    }
  }

  method ReadKey(iter: TokenIter) returns (r: Result<string, ParseError>)
    modifies iter
    ensures match ParseKey(old(iter.rest))
            case Ok((key, rest)) => r == Ok(key) && iter.rest == rest
            case Err(e) => r == Err(e)
  {
    var tt := iter.Next();
    match tt {
      case None =>
        r := Err(ExpectedKey);
      case Some(Literal(text)) =>
        if StartsQuoted(text) {
          r := ParseString(text);
        } else {
          r := Err(BadKey);
        }
      case Some(Ident(name)) =>
        if name == "true" || name == "false" || name == "null" {
          r := Err(BadKey);
        } else {
          r := Ok(name);
        }
      case _ =>
        r := Err(BadKey);
    }
  }

  method ReadValue(fl: Floats, iter: TokenIter) returns (r: Result<JsonNode, ParseError>)
    modifies iter
    ensures match ParseValue(fl, old(iter.rest))
            case Ok((node, rest)) => r == Ok(node) && iter.rest == rest
            case Err(e) => r == Err(e)
    decreases Size(iter.rest), 0
  {
    hide ParseLiteral, ParseObject;
    ghost var ts := iter.rest;
    var tt := iter.Next();
    match tt {
      case None =>
        r := Err(UnexpectedEnd);
      case Some(Ident(name)) =>
        r := ReadIdent(name, iter);
      case Some(Punct(ch)) =>
        if ch != '-' {
          return Err(UnexpectedToken);
        }
        var next := iter.Next();
        match next {
          case Some(Literal(text)) =>
            r := ParseLiteral(fl, "-" + text);
          case _ =>
            r := Err(ExpectedLiteral);
        }
      case Some(Literal(text)) =>
        r := ParseLiteral(fl, text);
      case Some(Group(Brace, stream)) =>
        SizeStream(ts);
        r := ReadObject(fl, stream);
      case Some(Group(Parenthesis, stream)) =>
        SizeStream(ts);
        var inner := new TokenIter(stream);
        r := ReadValue(fl, inner);
        if r.Ok? {
          var done := inner.AtEnd();
          if !done {
            r := Err(TrailingInParentheses);
          }
        }
      case Some(Group(_, _)) =>
        r := Err(UnexpectedToken);
    }
  }

  method ReadIdent(name: string, iter: TokenIter) returns (r: Result<JsonNode, ParseError>)
    modifies iter
    ensures match ParseIdent(name, old(iter.rest))
            case Ok((node, rest)) => r == Ok(node) && iter.rest == rest
            case Err(e) => r == Err(e)
  {
    match name {
      case "true" => r := Ok(Bool(true));
      case "false" => r := Ok(Bool(false));
      case "null" => r := Ok(Null);
      case _ =>
        if name == "duration" || name == "counter" {
          var marker := if name == "duration" then DurationMarker else CounterMarker;
          var bang := iter.Next();
          r := if bang == Some(Punct('!')) then Ok(Mark(marker)) else Err(ExpectedBang);
        } else {
          r := Err(UnexpectedIdent(name));
        }
    }
  }

  /** A key, a colon and a value. */
  method ReadEntry(fl: Floats, iter: TokenIter) returns (r: Result<Entry, ParseError>)
    modifies iter
    ensures match ParseEntry(fl, old(iter.rest))
            case Ok((entry, rest)) => r == Ok(entry) && iter.rest == rest
            case Err(e) => r == Err(e)
    decreases Size(iter.rest), 1
  {
    hide ParseValue, ParseKey;
    ghost var ts := iter.rest;
    var key := ReadKey(iter);
    if key.Err? {
      return Err(key.error);
    }
    ghost var afterKey := iter.rest;
    var colon := iter.Next();
    if colon != Some(Punct(':')) {
      return Err(ExpectedColon);
    }
    SizeSuffix(ts, |ts| - |afterKey| + 1);
    assert ts[|ts| - |afterKey| + 1..] == iter.rest;
    var value := ReadValue(fl, iter);
    if value.Err? {
      return Err(value.error);
    }
    return Ok((key.value, value.value));
  }

  /** `entries` collects the members, and `seenKeys` their keys. */
  method ReadObject(fl: Floats, inner: Tokens) returns (r: Result<JsonNode, ParseError>)
    ensures match ParseObject(fl, inner)
            case Ok(entries) => r == Ok(Object(entries))
            case Err(e) => r == Err(e)
    decreases Size(inner), 2
  {
    hide ParseEntry, HasKey;
    var iter := new TokenIter(inner);
    var entries: seq<Entry> := [];
    var seenKeys: set<string> := {};
    NoKeys();
    var more := inner != [];
    while more
      invariant fresh(iter)
      invariant forall key :: key in seenKeys <==> HasKey(entries, key)
      invariant more ==> Size(iter.rest) <= Size(inner)
      invariant more ==> iter.rest != [] && ParseObject(fl, inner) == ParseEntries(fl, iter.rest, entries)
      invariant !more ==> ParseObject(fl, inner) == Ok(entries)
      decreases more, Size(iter.rest)
    {
      ghost var ts := iter.rest;
      var entry := ReadEntry(fl, iter);
      if entry.Err? {
        return Err(entry.error);
      }
      if entry.value.0 in seenKeys {
        return Err(DuplicateKey(entry.value.0));
      }
      ghost var rest := iter.rest;
      KeysGrow(entries, entry.value);
      seenKeys := seenKeys + {entry.value.0};
      entries := entries + [entry.value];
      var separator := iter.Next();
      if separator == None {
        more := false;
      } else if separator == Some(Punct(',')) {
        SizeSuffix(ts, |ts| - |rest| + 1);
        assert ts[|ts| - |rest| + 1..] == iter.rest;
        var done := iter.AtEnd();
        more := !done;
      } else {
        return Err(ExpectedComma);
      }
    }
    return Ok(Object(entries));
  }

  lemma NoKeys()
    ensures forall key :: !HasKey([], key)
  {
  }

  lemma KeysGrow(entries: seq<Entry>, entry: Entry)
    ensures forall key :: HasKey(entries + [entry], key) <==> HasKey(entries, key) || key == entry.0
  {
    forall key
      ensures HasKey(entries + [entry], key) <==> HasKey(entries, key) || key == entry.0
    {
      if HasKey(entries, key) {
        var i :| 0 <= i < |entries| && entries[i].0 == key;
        assert (entries + [entry])[i].0 == key;
      }
      assert (entries + [entry])[|entries|] == entry;
    }
  }

  method ReadSchema(fl: Floats, input: Tokens) returns (r: Result<JsonNode, ParseError>)
    ensures r == ParseSchema(fl, input)
  {
    hide ParseValue;
    var iter := new TokenIter(input);
    var node := ReadValue(fl, iter);
    if node.Err? {
      return node;
    }
    var done := iter.AtEnd();
    if !done {
      return Err(TrailingTokens);
    }
    r := if node.value.Object? then node else Err(NotAnObject);
  }
}
