/**
 The direct serializer. `DocEvent` is the JSON document an event stands for; the methods write its
 compact text, as bytes, piece by piece.
 */
module Serializer {
  import opened Wrappers
  import Sequences
  import opened WideEvents
  import opened Json
  import opened Utf8

  /** The names a schema gives to its keys and to the parts of a log entry. */
  datatype Names = Names(keys: seq<string>, log: string, level: string, message: string)

  // ---- The document of an event ----

  function DocEntry(ns: Names, entry: LogEntry): Json {
    Obj([(ns.level, Json.Str(entry.level)), (ns.message, Json.Str(entry.message.text))])
  }

  function DocLogs(ns: Names, entries: seq<LogEntry>): (es: seq<Json>)
    ensures |es| == |entries|
  {
    if entries == [] then []
    else DocLogs(ns, entries[..|entries| - 1]) + [DocEntry(ns, entries[|entries| - 1])]
  }

  /** The present slots among the first `n` keys, in key order. */
  function DocSlots(ns: Names, ev: Event, n: nat): seq<(string, Json)>
    requires n <= |ns.keys|
    decreases ev, n
  {
    if n == 0 then [] else
    var front := DocSlots(ns, ev, n - 1);
    if n - 1 < |ev.values| && ev.values[n - 1].Some?
    then front + [(ns.keys[n - 1], DocValue(ns, ev.values[n - 1].value))]
    else front
  }

  function DocEvent(ns: Names, ev: Event): Json
    decreases ev, |ns.keys| + 1
  {
    var slots := DocSlots(ns, ev, |ns.keys|);
    Obj(if ev.logEntries == [] then slots
        else slots + [(ns.log, Arr(DocLogs(ns, ev.logEntries)))])
  }

  function DocElems(ns: Names, elems: seq<Value>, n: nat): (es: seq<Json>)
    requires n <= |elems|
    ensures |es| == n
    decreases elems, n
  {
    if n == 0 then [] else DocElems(ns, elems, n - 1) + [DocValue(ns, elems[n - 1])]
  }

  function DocValue(ns: Names, v: Value): Json
    decreases v, 0
  {
    match v
    case Null => Json.Null
    case Bool(b) => Json.Bool(b)
    case I64(i) => Number(DecimalInt(i))
    case U64(u) => Number(DecimalInt(u))
    case F64(f) => if f.Finite? then Number(f.token) else Json.Null
    case Str(s) => Json.Str(s)
    case StaticStr(s) => Json.Str(s)
    case Array(elems) => Arr(DocElems(ns, elems, |elems|))
    case Object(ev) => DocEvent(ns, ev)
  }

  // ---- Appending to printed text ----

  lemma {:induction false} EscapeConcat(s: string, t: string)
    ensures Escape(s + t) == Escape(s) + Escape(t)
  {
    hide EscapeChar;
    if s == "" {
      assert s + t == t;
    } else {
      EscapeConcat(s[1..], t);
      assert (s + t)[1..] == s[1..] + t && (s + t)[0] == s[0];
      Sequences.Assoc(EscapeChar(s[0]), Escape(s[1..]), Escape(t));
    }
  }

  function Separator(first: bool): string { if first then "" else "," }

  lemma {:induction false} PrintMembersAppend(ms: seq<(string, Json)>, m: (string, Json))
    ensures PrintMembers(ms + [m])
         == PrintMembers(ms) + Separator(ms == []) + PrintMember(m)
  {
    hide PrintMember;
    if ms == [] {
      assert [] + [m] == [m];
    } else {
      PrintMembersAppend(ms[1..], m);
      assert (ms + [m])[1..] == ms[1..] + [m];
      assert ms[1..] == [] ==> ms == [ms[0]];
    }
  }

  lemma {:induction false} PrintElemsAppend(es: seq<Json>, e: Json)
    ensures PrintElems(es + [e]) == PrintElems(es) + Separator(es == []) + Print(e)
  {
    hide Print;
    if es == [] {
      assert [] + [e] == [e];
    } else {
      PrintElemsAppend(es[1..], e);
      assert (es + [e])[1..] == es[1..] + [e];
      assert es[1..] == [] ==> es == [es[0]];
    }
  }

  // ---- The writer ----

  /** An in-memory `std::io::Write`, which never fails; `text` is what was written to it. */
  class Sink {
    var bytes: seq<byte>
    ghost const before: seq<byte>
    ghost var text: string

    ghost predicate Valid()
      reads this
    {
      bytes == before + Encode(text)
    }

    constructor (bytes: seq<byte>)
      ensures Valid() && this.bytes == bytes == before && text == ""
    {
      this.bytes, before, text := bytes, bytes, "";
    }

    /** `write_all` of bytes that spell `t`. */
    method Put(t: string)
      requires Valid()
      modifies this
      ensures Valid() && text == old(text) + t
    {
      EncodeConcat(text, t);
      bytes, text := bytes + Encode(t), text + t;
    }
  }

  method WriteJsonStr(w: Sink, s: string)
    requires w.Valid()
    modifies w
    ensures w.Valid() && w.text == old(w.text) + Quote(s)
  {
    hide EscapeChar;
    w.Put("\"");
    var i := 0;
    while i < |s|
      invariant 0 <= i <= |s| && w.Valid()
      invariant w.text == old(w.text) + "\"" + Escape(s[..i])
    {
      WriteEscapedChar(w, s[i]);
      EscapeStep(s, i);
      i := i + 1;
    }
    assert s[..|s|] == s;
    w.Put("\"");
  }

  /** The body of the loop of `WriteJsonStr`. */
  method WriteEscapedChar(w: Sink, c: char)
    requires w.Valid()
    modifies w
    ensures w.Valid() && w.text == old(w.text) + EscapeChar(c)
  {
    match c {
      case '"' => w.Put("\\\"");
      case '\\' => w.Put("\\\\");
      case '\n' => w.Put("\\n");
      case '\t' => w.Put("\\t");
      case '\r' => w.Put("\\r");
      case _ =>
        if c == BACKSPACE {
          w.Put("\\b");
        } else if c == FORM_FEED {
          w.Put("\\f");
        } else if c == LINE_SEPARATOR {
          assert Hex4(0x2028) == "2028";
          w.Put("\\u2028");
        } else if c == PARAGRAPH_SEPARATOR {
          assert Hex4(0x2029) == "2029";
          w.Put("\\u2029");
        } else if c as int < 0x20 {
          w.Put("\\u" + Hex4(c as int));
        } else {
          w.Put([c]);
        }
    }
  }

  lemma EscapeStep(s: string, i: nat)
    requires i < |s|
    ensures Escape(s[..i + 1]) == Escape(s[..i]) + EscapeChar(s[i])
  {
    hide EscapeChar;
    assert s[..i + 1] == s[..i] + [s[i]];
    EscapeConcat(s[..i], [s[i]]);
    assert [s[i]][1..] == "";
    assert Escape([s[i]]) == EscapeChar(s[i]) + Escape("");
  }

  lemma Grow(t: string, a: string, b: string, c: string)
    ensures t + a + b + c == t + (a + b + c)
  {
  }

  lemma MemberText(name: string, j: Json)
    ensures PrintMember((name, j)) == Quote(name) + ":" + Print(j)
  {
  }

  method WriteSeparator(w: Sink, first: bool)
    requires w.Valid()
    modifies w
    ensures w.Valid() && w.text == old(w.text) + Separator(first)
  {
    if !first {
      w.Put(",");
    }
  }

  method WriteStrMember(w: Sink, name: string, s: string)
    requires w.Valid()
    modifies w
    ensures w.Valid() && w.text == old(w.text) + PrintMember((name, Json.Str(s)))
  {
    hide Quote, PrintMember;
    MemberText(name, Json.Str(s));
    Grow(w.text, Quote(name), ":", Quote(s));
    WriteJsonStr(w, name);
    w.Put(":");
    WriteJsonStr(w, s);
  }

  lemma PrintPair(m: (string, Json), n: (string, Json))
    ensures Print(Obj([m, n])) == "{" + PrintMember(m) + "," + PrintMember(n) + "}"
  {
    hide PrintMember;
    PrintMembersAppend([], m);
    PrintMembersAppend([m], n);
    assert [] + [m] == [m] && [m] + [n] == [m, n];
  }

  /** One element of the log array. */
  method WriteLogEntry(ns: Names, entry: LogEntry, w: Sink)
    requires w.Valid()
    modifies w
    ensures w.Valid() && w.text == old(w.text) + Print(DocEntry(ns, entry))
  {
    hide Print, PrintMember, Quote;
    PrintPair((ns.level, Json.Str(entry.level)), (ns.message, Json.Str(entry.message.text)));
    w.Put("{");
    WriteStrMember(w, ns.level, entry.level);
    w.Put(",");
    WriteStrMember(w, ns.message, entry.message.text);
    w.Put("}");
  }

  lemma PrintArr(es: seq<Json>)
    ensures Print(Arr(es)) == "[" + PrintElems(es) + "]"
    ensures PrintElems([]) == ""
  {
  }

  method WriteLogs(ns: Names, entries: seq<LogEntry>, w: Sink)
    requires w.Valid()
    modifies w
    ensures w.Valid() && w.text == old(w.text) + Print(Arr(DocLogs(ns, entries)))
  {
    hide DocEntry, Print, PrintElems, Separator;
    PrintArr(DocLogs(ns, entries));
    w.Put("[");
    ghost var bracket := w.text;
    var j := 0;
    while j < |entries|
      invariant 0 <= j <= |entries| && w.Valid()
      invariant w.text == bracket + PrintElems(DocLogs(ns, entries[..j]))
    {
      ghost var es, e := DocLogs(ns, entries[..j]), DocEntry(ns, entries[j]);
      assert entries[..j + 1][..j] == entries[..j];
      PrintElemsAppend(es, e);
      Grow(bracket, PrintElems(es), Separator(j == 0), Print(e));
      WriteSeparator(w, j == 0);
      WriteLogEntry(ns, entries[j], w);
      j := j + 1;
    }
    assert entries[..j] == entries;
    w.Put("]");
  }

  lemma PrintNone()
    ensures PrintMembers([]) == ""
  {
  }

  method WriteSlot(ns: Names, name: string, val: Value, first: bool, w: Sink)
    requires w.Valid()
    modifies w
    ensures w.Valid()
    ensures w.text == old(w.text) + Separator(first) + PrintMember((name, DocValue(ns, val)))
    decreases val, 1
  {
    hide DocValue, Quote, Print, PrintMember, Separator;
    MemberText(name, DocValue(ns, val));
    WriteSeparator(w, first);
    Grow(w.text, Quote(name), ":", Print(DocValue(ns, val)));
    WriteJsonStr(w, name);
    w.Put(":");
    WriteValue(ns, val, w);
  }

  /** The present slots in key order; `first` tells whether there was none. */
  method WriteSlots(ns: Names, ev: Event, w: Sink) returns (first: bool)
    requires w.Valid()
    modifies w
    ensures w.Valid() && w.text == old(w.text) + PrintMembers(DocSlots(ns, ev, |ns.keys|))
    ensures first <==> DocSlots(ns, ev, |ns.keys|) == []
    decreases ev, 0
  {
    hide DocValue, PrintMember, PrintMembers, Separator;
    PrintNone();
    first := true;
    var i := 0;
    while i < |ns.keys|
      invariant 0 <= i <= |ns.keys| && w.Valid()
      invariant first <==> DocSlots(ns, ev, i) == []
      invariant w.text == old(w.text) + PrintMembers(DocSlots(ns, ev, i))
    {
      if i < |ev.values| && ev.values[i].Some? {
        ghost var slots, m := DocSlots(ns, ev, i), (ns.keys[i], DocValue(ns, ev.values[i].value));
        PrintMembersAppend(slots, m);
        Grow(old(w.text), PrintMembers(slots), Separator(first), PrintMember(m));
        WriteSlot(ns, ns.keys[i], ev.values[i].value, first, w);
        first := false;
      }
      i := i + 1;
    }
  }

  /** The log member, when there are log entries. */
  method WriteLogMember(ns: Names, ev: Event, first: bool, w: Sink)
    requires w.Valid() && ev.logEntries != []
    modifies w
    ensures w.Valid()
    ensures w.text == old(w.text) + Separator(first)
                      + PrintMember((ns.log, Arr(DocLogs(ns, ev.logEntries))))
  {
    hide DocLogs, Quote, Print, PrintMember, Separator;
    MemberText(ns.log, Arr(DocLogs(ns, ev.logEntries)));
    WriteSeparator(w, first);
    Grow(w.text, Quote(ns.log), ":", Print(Arr(DocLogs(ns, ev.logEntries))));
    WriteJsonStr(w, ns.log);
    w.Put(":");
    WriteLogs(ns, ev.logEntries, w);
  }

  lemma EventPrinted(ns: Names, ev: Event)
    ensures var slots := DocSlots(ns, ev, |ns.keys|);
            Print(DocEvent(ns, ev)) == "{" + (PrintMembers(slots) +
              (if ev.logEntries == [] then ""
               else Separator(slots == []) + PrintMember((ns.log, Arr(DocLogs(ns, ev.logEntries)))))) + "}"
  {
    hide DocSlots, DocLogs, PrintMembers, PrintMember;
    var slots := DocSlots(ns, ev, |ns.keys|);
    if ev.logEntries != [] {
      PrintMembersAppend(slots, (ns.log, Arr(DocLogs(ns, ev.logEntries))));
    }
  }

  lemma Enclosed(t: string, members: string, a: string, b: string)
    ensures t + "{" + members + a + b + "}" == t + ("{" + (members + (a + b)) + "}")
    ensures t + "{" + members + "}" == t + ("{" + (members + "") + "}")
  {
    assert members + "" == members;
  }

  method WriteEvent(ns: Names, ev: Event, w: Sink)
    requires w.Valid()
    modifies w
    ensures w.Valid() && w.text == old(w.text) + Print(DocEvent(ns, ev))
    decreases ev, 1
  {
    hide DocLogs, DocSlots, Print, PrintMembers, PrintMember, DocEvent, Separator;
    ghost var slots := DocSlots(ns, ev, |ns.keys|);
    EventPrinted(ns, ev);
    Enclosed(w.text, PrintMembers(slots), Separator(slots == []),
             PrintMember((ns.log, Arr(DocLogs(ns, ev.logEntries)))));
    w.Put("{");
    var first := WriteSlots(ns, ev, w);
    if ev.logEntries != [] {
      WriteLogMember(ns, ev, first, w);
    }
    w.Put("}");
  }

  method WriteValue(ns: Names, val: Value, w: Sink)
    requires w.Valid()
    modifies w
    ensures w.Valid() && w.text == old(w.text) + Print(DocValue(ns, val))
    decreases val, 0
  {
    match val {
      case Null => w.Put("null");
      case Bool(b) =>
        if b {
          w.Put("true");
        } else {
          w.Put("false");
        }
      case I64(i) => w.Put(DecimalInt(i));
      case U64(u) => w.Put(DecimalInt(u));
      case F64(f) =>
        if f.NonFinite? {
          w.Put("null");
        } else {
          w.Put(f.token);
        }
      case Str(s) => WriteJsonStr(w, s);
      case StaticStr(s) => WriteJsonStr(w, s);
      case Array(arr) => WriteArray(ns, arr, w);
      case Object(obj) => WriteEvent(ns, obj, w);
    }
  }

  method WriteArray(ns: Names, arr: seq<Value>, w: Sink)
    requires w.Valid()
    modifies w
    ensures w.Valid() && w.text == old(w.text) + Print(Arr(DocElems(ns, arr, |arr|)))
    decreases arr
  {
    hide DocValue, Print, PrintElems, Separator;
    PrintArr(DocElems(ns, arr, |arr|));
    w.Put("[");
    ghost var bracket := w.text;
    var i := 0;
    while i < |arr|
      invariant 0 <= i <= |arr| && w.Valid()
      invariant w.text == bracket + PrintElems(DocElems(ns, arr, i))
    {
      ghost var es, e := DocElems(ns, arr, i), DocValue(ns, arr[i]);
      PrintElemsAppend(es, e);
      Grow(bracket, PrintElems(es), Separator(i == 0), Print(e));
      WriteSeparator(w, i == 0);
      WriteValue(ns, arr[i], w);
      i := i + 1;
    }
    w.Put("]");
  }

  method SerializeTo(ns: Names, ev: WideEvent, w: Sink)
    requires w.Valid()
    modifies w
    ensures w.Valid() && w.text == old(w.text) + Print(DocEvent(ns, ev.Contents()))
  {
    WriteEvent(ns, ev.Contents(), w);
  }
}
