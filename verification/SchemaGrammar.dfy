/** Which token sequences the schema parser accepts, and what they mean. */
module SchemaGrammar {
  import opened Wrappers
  import opened Schemas
  import opened SchemaParser
  import StringLiterals

  const COMMA: TokenTree := Punct(',')

  predicate IsKey(t: TokenTree, key: string) {
    match t
    case Literal(text) => StartsQuoted(text) && StringLiterals.Unescape(text) == Ok(key)
    case Ident(name) => name == key && key !in {"true", "false", "null"}
    case _ => false
  }

  /** Entries separated by commas. */
  function Joined(parts: seq<Tokens>): Tokens {
    if parts == [] then []
    else if |parts| == 1 then parts[0]
    else parts[0] + [COMMA] + Joined(parts[1..])
  }

  predicate DistinctEntries(entries: seq<Entry>) {
    forall i, j :: 0 <= i < j < |entries| ==> entries[i].0 != entries[j].0
  }

  /** The tokens are a rendering of the value, in any number of parentheses. */
  ghost predicate Renders(fl: Floats, node: JsonNode, ts: Tokens)
    decreases node, 1, Size(ts)
  {
    match |ts|
    case 1 =>
      (match ts[0]
       case Ident("true") => node == Bool(true)
       case Ident("false") => node == Bool(false)
       case Ident("null") => node == Null
       case Literal(text) => ParseLiteral(fl, text) == Ok(node)
       case Group(Parenthesis, stream) =>
         SizeStream(ts);
         Renders(fl, node, stream)
       case Group(Brace, stream) =>
         node.Object? && DistinctEntries(node.entries) && RendersEntries(fl, node.entries, stream)
       case _ => false)
    case 2 =>
      || (ts == [Ident("duration"), Punct('!')] && node == Mark(DurationMarker))
      || (ts == [Ident("counter"), Punct('!')] && node == Mark(CounterMarker))
      || (ts[0] == Punct('-') && ts[1].Literal? && ParseLiteral(fl, "-" + ts[1].text) == Ok(node))
    case _ => false
  }

  /** No tokens, or the entries separated by commas, with or without a trailing one. */
  ghost predicate RendersEntries(fl: Floats, entries: seq<Entry>, ts: Tokens)
    decreases entries, 1
  {
    || (entries == [] && ts == [])
    || (entries != [] &&
        exists parts: seq<Tokens> ::
          RendersParts(fl, entries, parts) && (ts == Joined(parts) || ts == Joined(parts) + [COMMA]))
  }

  ghost predicate RendersParts(fl: Floats, entries: seq<Entry>, parts: seq<Tokens>)
    decreases entries, 0
  {
    && |parts| == |entries|
    && forall i :: 0 <= i < |entries| ==> RendersEntry(fl, entries[i], parts[i])
  }

  ghost predicate RendersEntry(fl: Floats, entry: Entry, part: Tokens)
    decreases entry, 0
  {
    |part| >= 2 && IsKey(part[0], entry.0) && part[1] == Punct(':') && Renders(fl, entry.1, part[2..])
  }

  // ---- Completeness ----

  lemma KeyComplete(t: TokenTree, key: string, rest: Tokens)
    requires IsKey(t, key)
    ensures ParseKey([t] + rest) == Ok((key, rest))
  {
    assert ([t] + rest)[1..] == rest;
  }

  lemma {:induction false} ValueComplete(fl: Floats, node: JsonNode, v: Tokens, rest: Tokens)
    requires Renders(fl, node, v)
    ensures ParseValue(fl, v + rest) == Ok((node, rest))
    decreases node, 1, Size(v)
  {
    hide ParseLiteral, ParseObject;
    var ts := v + rest;
    if |v| == 1 {
      assert ts[0] == v[0] && ts[1..] == rest;
      match v[0] {
        case Group(Brace, stream) =>
          ObjectComplete(fl, node, stream);
        case Group(Parenthesis, stream) =>
          SizeStream(v);
          ValueComplete(fl, node, stream, []);
          assert stream + [] == stream;
        case _ =>
      }
    } else {
      assert ts[0] == v[0] && ts[1] == v[1] && ts[2..] == rest && ts[1..][1..] == rest;
    }
  }

  lemma {:induction false} ObjectComplete(fl: Floats, node: JsonNode, stream: Tokens)
    requires node.Object? && DistinctEntries(node.entries) && RendersEntries(fl, node.entries, stream)
    ensures ParseObject(fl, stream) == Ok(node.entries)
    decreases node, 0, |node.entries| + 1
  {
    hide ParseEntries, DistinctEntries;
    if node.entries != [] {
      var parts :| RendersParts(fl, node.entries, parts)
                   && (stream == Joined(parts) || stream == Joined(parts) + [COMMA]);
      var tail := if stream == Joined(parts) then [] else [COMMA];
      assert Joined(parts) + tail == stream;
      assert parts[0..] == parts && node.entries[..0] == [];
      EntriesComplete(fl, node, parts, 0, tail);
      NotEmpty(fl, node.entries, parts, 0);
    }
  }

  lemma {:induction false} EntriesComplete(
      fl: Floats, node: JsonNode, parts: seq<Tokens>, i: nat, tail: Tokens)
    requires node.Object? && DistinctEntries(node.entries) && RendersParts(fl, node.entries, parts)
    requires |parts| == |node.entries| && i < |parts| && (tail == [] || tail == [COMMA])
    ensures ParseEntries(fl, Joined(parts[i..]) + tail, node.entries[..i]) == Ok(node.entries)
    decreases node, 0, |parts| - i
  {
    hide ParseEntry, Joined, RendersParts, RendersEntry, DistinctEntries, HasKey;
    var rest := AfterPart(parts, i, tail);
    JoinedFrom(parts, i, tail);
    PartRenders(fl, node.entries, parts, i);
    EntryComplete(fl, node, i, parts[i], rest);
    KeyIsNew(node.entries, i);
    assert node.entries[..i] + [node.entries[i]] == node.entries[..i + 1];
    if i + 1 == |parts| {
      assert node.entries[..i + 1] == node.entries;
    } else {
      EntriesComplete(fl, node, parts, i + 1, tail);
      assert rest[1..] == Joined(parts[i + 1..]) + tail;
      NotEmpty(fl, node.entries, parts, i + 1);
    }
  }

  function AfterPart(parts: seq<Tokens>, i: nat, tail: Tokens): Tokens
    requires i < |parts|
  {
    if i + 1 == |parts| then tail else [COMMA] + (Joined(parts[i + 1..]) + tail)
  }

  lemma JoinedFrom(parts: seq<Tokens>, i: nat, tail: Tokens)
    requires i < |parts|
    ensures Joined(parts[i..]) + tail == parts[i] + AfterPart(parts, i, tail)
  {
    assert parts[i..][1..] == parts[i + 1..];
  }

  lemma PartRenders(fl: Floats, entries: seq<Entry>, parts: seq<Tokens>, i: nat)
    requires RendersParts(fl, entries, parts) && i < |parts|
    ensures |parts| == |entries| && RendersEntry(fl, entries[i], parts[i])
  {
  }

  lemma KeyIsNew(entries: seq<Entry>, i: nat)
    requires DistinctEntries(entries) && i < |entries|
    ensures !HasKey(entries[..i], entries[i].0)
  {
  }

  lemma NotEmpty(fl: Floats, entries: seq<Entry>, parts: seq<Tokens>, i: nat)
    requires RendersParts(fl, entries, parts) && i < |parts|
    ensures Joined(parts[i..]) != []
  {
    assert RendersEntry(fl, entries[i], parts[i]);
  }

  lemma {:induction false} EntryComplete(fl: Floats, node: JsonNode, i: nat, part: Tokens, rest: Tokens)
    requires node.Object? && i < |node.entries| && RendersEntry(fl, node.entries[i], part)
    ensures ParseEntry(fl, part + rest) == Ok((node.entries[i], rest))
    decreases node, 0, 0
  {
    hide ParseKey, ParseValue, IsKey;
    var ts := part + rest;
    KeyComplete(part[0], node.entries[i].0, part[1..] + rest);
    assert ts == [part[0]] + (part[1..] + rest);
    ValueComplete(fl, node.entries[i].1, part[2..], rest);
    assert (part[1..] + rest)[1..] == part[2..] + rest;
  }

  // ---- Soundness ----

  lemma KeySound(ts: Tokens)
    requires ParseKey(ts).Ok?
    ensures ts != [] && IsKey(ts[0], ParseKey(ts).value.0) && ParseKey(ts).value.1 == ts[1..]
  {
  }

  lemma {:induction false} ValueSound(fl: Floats, ts: Tokens)
    requires ParseValue(fl, ts).Ok?
    ensures var (node, rest) := ParseValue(fl, ts).value;
            Renders(fl, node, ts[..|ts| - |rest|])
    decreases Size(ts), 0
  {
    hide ParseLiteral, ParseObject;
    var (node, rest) := ParseValue(fl, ts).value;
    var v := ts[..|ts| - |rest|];
    match ts[0] {
      case Group(Brace, stream) =>
        SizeStream(ts);
        assert v == [ts[0]];
        ObjectSound(fl, stream);
      case Group(Parenthesis, stream) =>
        SizeStream(ts);
        assert v == [ts[0]];
        ValueSound(fl, stream);
        assert stream[..|stream|] == stream;
      case Punct(_) =>
        assert v == [ts[0], ts[1]];
      case Literal(_) =>
        assert v == [ts[0]];
      case Ident(name) =>
        assert name == "duration" || name == "counter" ==> v == [ts[0], ts[1]];
        assert !(name == "duration" || name == "counter") ==> v == [ts[0]];
    }
  }

  lemma {:induction false} ObjectSound(fl: Floats, inner: Tokens)
    requires ParseObject(fl, inner).Ok?
    ensures var entries := ParseObject(fl, inner).value;
            DistinctEntries(entries) && RendersEntries(fl, entries, inner)
    decreases Size(inner), 2
  {
    hide ParseEntries;
    if inner != [] {
      var parts := EntriesSound(fl, inner, [], []);
      assert [] + inner == inner;
    }
  }

  /** What stands before the entry that follows the given ones. */
  function Lead(parts: seq<Tokens>): Tokens {
    if parts == [] then [] else Joined(parts) + [COMMA]
  }

  lemma {:induction false} JoinedAppend(parts: seq<Tokens>, part: Tokens)
    ensures Joined(parts + [part]) == Lead(parts) + part
  {
    if parts == [] {
    } else {
      assert (parts + [part])[1..] == parts[1..] + [part];
      JoinedAppend(parts[1..], part);
      if |parts| > 1 {
        assert Joined(parts + [part]) == parts[0] + [COMMA] + (Joined(parts[1..]) + [COMMA] + part);
      }
    }
  }

  lemma {:induction false} EntriesSound(fl: Floats, ts: Tokens, entries: seq<Entry>, parts: seq<Tokens>)
    returns (parts': seq<Tokens>)
    requires ParseEntries(fl, ts, entries).Ok?
    requires DistinctEntries(entries) && RendersParts(fl, entries, parts)
    ensures var all := ParseEntries(fl, ts, entries).value;
            && all != [] && DistinctEntries(all) && RendersParts(fl, all, parts')
            && (Lead(parts) + ts == Joined(parts') || Lead(parts) + ts == Joined(parts') + [COMMA])
    decreases Size(ts), 1
  {
    hide ParseEntry, RendersEntry, RendersParts, DistinctEntries, HasKey, Joined, Lead;
    var (entry, rest) := ParseEntry(fl, ts).value;
    var part := ts[..|ts| - |rest|];
    EntrySound(fl, ts);
    var entries' := entries + [entry];
    parts' := parts + [part];
    DistinctGrows(entries, entry);
    PartsGrow(fl, entries, parts, entry, part);
    JoinedAppend(parts, part);
    assert ts == part + rest;
    if rest == [] {
      assert Lead(parts) + ts == Joined(parts');
    } else if |rest| == 1 {
      assert rest == [COMMA];
      assert Lead(parts) + ts == Joined(parts') + [COMMA];
    } else {
      SizeSuffix(ts, |ts| - |rest| + 1);
      assert ts[|ts| - |rest| + 1..] == rest[1..];
      LeadGrows(parts, part, rest);
      parts' := EntriesSound(fl, rest[1..], entries', parts');
    }
  }

  lemma LeadGrows(parts: seq<Tokens>, part: Tokens, rest: Tokens)
    requires rest != [] && rest[0] == COMMA
    ensures Lead(parts) + (part + rest) == Lead(parts + [part]) + rest[1..]
  {
    hide Joined;
    JoinedAppend(parts, part);
    assert rest == [COMMA] + rest[1..];
  }

  lemma DistinctGrows(entries: seq<Entry>, entry: Entry)
    requires DistinctEntries(entries)
    ensures DistinctEntries(entries + [entry]) <==> !HasKey(entries, entry.0)
  {
    var more := entries + [entry];
    if HasKey(entries, entry.0) {
      var i :| 0 <= i < |entries| && entries[i].0 == entry.0;
      assert more[i].0 == more[|entries|].0;
    }
  }

  lemma PartsGrow(fl: Floats, entries: seq<Entry>, parts: seq<Tokens>, entry: Entry, part: Tokens)
    requires RendersParts(fl, entries, parts) && RendersEntry(fl, entry, part)
    ensures RendersParts(fl, entries + [entry], parts + [part])
  {
    hide RendersEntry;
  }

  lemma {:induction false} EntrySound(fl: Floats, ts: Tokens)
    requires ParseEntry(fl, ts).Ok?
    ensures var (entry, rest) := ParseEntry(fl, ts).value;
            RendersEntry(fl, entry, ts[..|ts| - |rest|])
    decreases Size(ts), 0
  {
    hide ParseKey, ParseValue, IsKey, Renders;
    var (entry, rest) := ParseEntry(fl, ts).value;
    KeySound(ts);
    SizeSuffix(ts, 2);
    assert ts[1..][1..] == ts[2..];
    ValueSound(fl, ts[2..]);
    assert ts[..|ts| - |rest|][2..] == ts[2..][..|ts[2..]| - |rest|];
  }

  // ---- The language of the parser ----

  /** The parser accepts exactly the renderings of objects, each as what it renders. */
  lemma ParseSchemaIff(fl: Floats, ts: Tokens, node: JsonNode)
    ensures ParseSchema(fl, ts) == Ok(node) <==> node.Object? && Renders(fl, node, ts)
  {
    hide ParseValue, Renders;
    if ParseSchema(fl, ts) == Ok(node) {
      ValueSound(fl, ts);
      assert ts[..|ts|] == ts;
    }
    if node.Object? && Renders(fl, node, ts) {
      ValueComplete(fl, node, ts, []);
      assert ts + [] == ts;
    }
  }

  lemma {:induction false} RenderedDistinct(fl: Floats, node: JsonNode, ts: Tokens)
    requires Renders(fl, node, ts)
    ensures DistinctKeys(node)
    decreases node, Size(ts)
  {
    if node.Object? {
      match ts[0] {
        case Group(Parenthesis, stream) =>
          SizeStream(ts);
          RenderedDistinct(fl, node, stream);
        case Group(Brace, stream) =>
          forall i | 0 <= i < |node.entries|
            ensures DistinctKeys(node.entries[i].1)
          {
            var parts :| RendersParts(fl, node.entries, parts)
                         && (stream == Joined(parts) || stream == Joined(parts) + [COMMA]);
            assert RendersEntry(fl, node.entries[i], parts[i]);
            RenderedDistinct(fl, node.entries[i].1, parts[i][2..]);
          }
        case _ =>
      }
    }
  }

  /** No accepted schema has the same key twice in an object, at any depth. */
  lemma AcceptedDistinct(fl: Floats, ts: Tokens)
    requires ParseSchema(fl, ts).Ok?
    ensures DistinctKeys(ParseSchema(fl, ts).value)
  {
    ParseSchemaIff(fl, ts, ParseSchema(fl, ts).value);
    RenderedDistinct(fl, ParseSchema(fl, ts).value, ts);
  }

  // ---- Repeated keys ----

  /** The first entry that repeats a key. */
  predicate RepeatsAt(entries: seq<Entry>, k: nat) {
    k < |entries| && DistinctEntries(entries[..k]) && HasKey(entries[..k], entries[k].0)
  }

  lemma {:induction false} EntriesRepeat(fl: Floats, node: JsonNode, parts: seq<Tokens>, i: nat, k: nat)
    requires node.Object? && RendersParts(fl, node.entries, parts) && |parts| == |node.entries|
    requires RepeatsAt(node.entries, k) && i <= k
    ensures ParseEntries(fl, Joined(parts[i..]), node.entries[..i]) == Err(DuplicateKey(node.entries[k].0))
    decreases k - i
  {
    hide ParseEntry, Joined, RendersParts, RendersEntry, DistinctEntries, HasKey;
    var rest := AfterPart(parts, i, []);
    JoinedFrom(parts, i, []);
    assert Joined(parts[i..]) + [] == Joined(parts[i..]);
    PartRenders(fl, node.entries, parts, i);
    EntryComplete(fl, node, i, parts[i], rest);
    if i < k {
      KeyIsNew(node.entries[..k], i);
      assert node.entries[..k][..i] == node.entries[..i];
      assert node.entries[..i] + [node.entries[i]] == node.entries[..i + 1];
      EntriesRepeat(fl, node, parts, i + 1, k);
      assert rest[1..] == Joined(parts[i + 1..]);
      NotEmpty(fl, node.entries, parts, i + 1);
    }
  }

  /** A schema that repeats a key is refused, and the error names the first key that is repeated. */
  lemma RepeatedKey(fl: Floats, entries: seq<Entry>, parts: seq<Tokens>, k: nat)
    requires RendersParts(fl, entries, parts) && RepeatsAt(entries, k)
    ensures ParseSchema(fl, [Group(Brace, Joined(parts))]) == Err(DuplicateKey(entries[k].0))
  {
    hide ParseEntries, Joined, RendersParts, RendersEntry;
    var node, stream := Object(entries), Joined(parts);
    PartsSize(fl, entries, parts);
    EntriesRepeat(fl, node, parts, 0, k);
    assert parts[0..] == parts && entries[..0] == [];
    NotEmpty(fl, entries, parts, 0);
    var ts := [Group(Brace, stream)];
    assert ts[0] == Group(Brace, stream);
    SizeStream(ts);
    assert ParseObject(fl, stream) == Err(DuplicateKey(entries[k].0));
  }

  lemma PartsSize(fl: Floats, entries: seq<Entry>, parts: seq<Tokens>)
    requires RendersParts(fl, entries, parts)
    ensures |parts| == |entries|
  {
  }

  // ---- Other refusals ----

  /** What is no value, by its first tokens. */
  lemma NoValue(fl: Floats, ts: Tokens)
    ensures ts == [] ==> ParseSchema(fl, ts) == Err(UnexpectedEnd)
    ensures ts != [] && ts[0].Ident? && ts[0].name !in ["true", "false", "null", "duration", "counter"] ==>
      ParseSchema(fl, ts) == Err(UnexpectedIdent(ts[0].name))
    ensures ts != [] && ts[0].Ident? && ts[0].name in ["duration", "counter"] && (|ts| == 1 || ts[1] != Punct('!')) ==>
      ParseSchema(fl, ts) == Err(ExpectedBang)
    ensures ts != [] && ts[0].Punct? && ts[0].ch != '-' ==> ParseSchema(fl, ts) == Err(UnexpectedToken)
    ensures ts != [] && ts[0] == Punct('-') && (|ts| == 1 || !ts[1].Literal?) ==>
      ParseSchema(fl, ts) == Err(ExpectedLiteral)
    ensures ts != [] && ts[0].Group? && ts[0].delimiter in [Bracket, Invisible] ==>
      ParseSchema(fl, ts) == Err(UnexpectedToken)
  {
    var words := ["true", "false", "null", "duration", "counter"];
    assert words[0] == "true" && words[1] == "false" && words[2] == "null" && words[3] == "duration"
           && words[4] == "counter";
    assert ["duration", "counter"][0] == "duration" && ["duration", "counter"][1] == "counter";
    assert [Bracket, Invisible][0] == Bracket && [Bracket, Invisible][1] == Invisible;
  }

  /** What is a value and more, within parentheses or not, or a value and no object. */
  lemma NoSchema(fl: Floats, node: JsonNode, v: Tokens, rest: Tokens)
    requires Renders(fl, node, v)
    ensures rest != [] ==> ParseSchema(fl, v + rest) == Err(TrailingTokens)
    ensures rest != [] ==> ParseSchema(fl, [Group(Parenthesis, v + rest)]) == Err(TrailingInParentheses)
    ensures !node.Object? ==> ParseSchema(fl, v) == Err(NotAnObject)
  {
    hide ParseValue, Renders;
    ValueComplete(fl, node, v, rest);
    ValueComplete(fl, node, v, []);
    assert v + [] == v;
    InParentheses(fl, v + rest);
  }

  lemma InParentheses(fl: Floats, stream: Tokens)
    ensures var r := ParseValue(fl, stream);
            r.Ok? && r.value.1 != [] ==>
              ParseValue(fl, [Group(Parenthesis, stream)]) == Err(TrailingInParentheses)
  {
    var ts := [Group(Parenthesis, stream)];
    assert ts[0] == Group(Parenthesis, stream);
    SizeStream(ts);
  }

  predicate IsName(t: TokenTree) { t.Ident? && t.name !in {"true", "false", "null"} }

  /** What is no entry: no key, a key that is none, no colon; and what is not followed by a comma. */
  lemma NoEntry(fl: Floats, inner: Tokens)
    requires inner != []
    ensures var r := ParseSchema(fl, [Group(Brace, inner)]);
            && (!inner[0].Literal? && !inner[0].Ident? ==> r == Err(BadKey))
            && (inner[0].Literal? && !StartsQuoted(inner[0].text) ==> r == Err(BadKey))
            && (inner[0].Ident? && inner[0].name in {"true", "false", "null"} ==> r == Err(BadKey))
            && (IsName(inner[0]) && (|inner| == 1 || inner[1] != Punct(':')) ==> r == Err(ExpectedColon))
  {
    hide ParseValue, ParseSchema;
    ObjectSchema(fl, inner);
    if ParseEntry(fl, inner).Err? {
      FirstEntryFails(fl, inner);
    }
  }

  lemma FirstEntryFails(fl: Floats, inner: Tokens)
    requires inner != [] && ParseEntry(fl, inner).Err?
    ensures ParseObject(fl, inner) == Err(ParseEntry(fl, inner).error)
  {
    hide ParseEntry;
  }

  lemma ObjectSchema(fl: Floats, inner: Tokens)
    ensures ParseSchema(fl, [Group(Brace, inner)])
         == match ParseObject(fl, inner) case Ok(entries) => Ok(Object(entries)) case Err(e) => Err(e)
  {
    hide ParseObject;
    var ts := [Group(Brace, inner)];
    assert ts[0] == Group(Brace, inner) && ts[1..] == [];
    SizeStream(ts);
  }

  lemma NoComma(fl: Floats, entry: Entry, part: Tokens, rest: Tokens)
    requires RendersEntry(fl, entry, part) && rest != [] && rest[0] != COMMA
    ensures ParseSchema(fl, [Group(Brace, part + rest)]) == Err(ExpectedComma)
  {
    hide ParseEntry, RendersEntry;
    EntryComplete(fl, Object([entry]), 0, part, rest);
    ObjectSchema(fl, part + rest);
    NoKeys();
  }
}
