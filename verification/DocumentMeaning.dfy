/**
 What a document says of an event, told without the printer: which JSON value stands for which value of
 the tree. Every printed event parses to a document that stands for it.
 */
module DocumentMeaning {
  import opened Wrappers
  import opened WideEvents
  import opened Serializer
  import opened Json
  import opened Utf8
  import opened JsonParser
  import opened JsonRoundTrip
  import opened EventLaws
  import opened EventDocuments

  // ---- Standing for ----

  /** The keys of the present slots, in order. */
  function PresentKeys(ev: Event, n: nat): seq<Key> {
    if n == 0 then [] else PresentKeys(ev, n - 1) + if Slot(ev, n - 1).Some? then [n - 1] else []
  }

  /** An entry of the log array: two members, the level first. */
  predicate StandsForEntry(ns: Names, j: Json, entry: LogEntry) {
    && j.Obj? && |j.members| == 2
    && j.members[0].0 == ns.level && j.members[0].1 == Json.Str(entry.level)
    && j.members[1].0 == ns.message && j.members[1].1 == Json.Str(entry.message.text)
  }

  predicate StandsForLogs(ns: Names, j: Json, entries: seq<LogEntry>) {
    && j.Arr? && |j.elems| == |entries|
    && forall i :: 0 <= i < |entries| ==> StandsForEntry(ns, j.elems[i], entries[i])
  }

  /** One member for each present slot, in key order, and then the log array if there are entries. */
  ghost predicate StandsForEvent(ns: Names, members: seq<(string, Json)>, ev: Event)
    decreases ev, 0
  {
    var ks := PresentKeys(ev, |ns.keys|);
    && |members| == |ks| + (if ev.logEntries == [] then 0 else 1)
    && (forall i :: 0 <= i < |ks| ==>
          && ks[i] < |ns.keys| && members[i].0 == ns.keys[ks[i]]
          && ks[i] < |ev.values| && ev.values[ks[i]].Some?
          && StandsFor(ns, members[i].1, ev.values[ks[i]].value))
    && (ev.logEntries != [] ==>
          members[|ks|].0 == ns.log && StandsForLogs(ns, members[|ks|].1, ev.logEntries))
  }

  ghost predicate StandsFor(ns: Names, j: Json, v: Value)
    decreases v, 0
  {
    match v
    case Null => j == Json.Null
    case Bool(b) => j == Json.Bool(b)
    case I64(i) => j.Number? && Denotes(j.lexeme, i)
    case U64(u) => j.Number? && Denotes(j.lexeme, u)
    case F64(Finite(token)) => j == Number(token)
    case F64(NonFinite) => j == Json.Null
    case Str(s) => j == Json.Str(s)
    case StaticStr(s) => j == Json.Str(s)
    case Array(elems) =>
      && j.Arr? && |j.elems| == |elems|
      && forall i :: 0 <= i < |elems| ==> StandsFor(ns, j.elems[i], elems[i])
    case Object(ev) => j.Obj? && StandsForEvent(ns, j.members, ev)
  }

  // ---- Every document stands for its event ----

  lemma {:induction false} ValueStands(ns: Names, v: Value)
    ensures StandsFor(ns, DocValue(ns, v), v)
    decreases v, 0
  {
    match v {
      case I64(i) => IntegersAreExact(ns, v);
      case U64(u) => IntegersAreExact(ns, v);
      case Array(elems) => ElemsStand(ns, elems, |elems|);
      case Object(ev) => EventStands(ns, ev);
      case _ =>
    }
  }

  lemma {:induction false} ElemsStand(ns: Names, elems: seq<Value>, n: nat)
    requires n <= |elems|
    ensures forall i :: 0 <= i < n ==> StandsFor(ns, DocElems(ns, elems, n)[i], elems[i])
    decreases elems, n
  {
    if n > 0 {
      hide StandsFor, DocValue;
      ElemsStand(ns, elems, n - 1);
      ValueStands(ns, elems[n - 1]);
    }
  }

  lemma {:induction false} SlotsStand(ns: Names, ev: Event, n: nat)
    requires n <= |ns.keys|
    ensures var ks := PresentKeys(ev, n);
            && |DocSlots(ns, ev, n)| == |ks|
            && forall i :: 0 <= i < |ks| ==>
                 && ks[i] < n && DocSlots(ns, ev, n)[i].0 == ns.keys[ks[i]]
                 && ks[i] < |ev.values| && ev.values[ks[i]].Some?
                 && StandsFor(ns, DocSlots(ns, ev, n)[i].1, ev.values[ks[i]].value)
    decreases ev, n
  {
    if n > 0 {
      hide StandsFor, DocValue;
      SlotsStand(ns, ev, n - 1);
      if Slot(ev, n - 1).Some? {
        ValueStands(ns, ev.values[n - 1].value);
      }
    }
  }

  lemma {:induction false} EventStands(ns: Names, ev: Event)
    ensures StandsForEvent(ns, DocEvent(ns, ev).members, ev)
    decreases ev, |ns.keys| + 1
  {
    hide StandsFor, DocValue, DocSlots, PresentKeys, StandsForLogs;
    SlotsStand(ns, ev, |ns.keys|);
    LogsStand(ns, ev.logEntries);
  }

  lemma EntryStands(ns: Names, entry: LogEntry)
    ensures StandsForEntry(ns, DocEntry(ns, entry), entry)
  {
  }

  lemma LogsStand(ns: Names, entries: seq<LogEntry>)
    ensures StandsForLogs(ns, Arr(DocLogs(ns, entries)), entries)
  {
    hide StandsForEntry, DocEntry, DocLogs;
    DocLogsWellFormed(ns, entries);
    forall i | 0 <= i < |entries|
      ensures StandsForEntry(ns, DocLogs(ns, entries)[i], entries[i])
    {
      EntryStands(ns, entries[i]);
    }
  }

  // ---- Of the bytes ----

  /** The document in the bytes of an event, which may be followed by anything. */
  function Parsed(ns: Names, ev: Event, rest: string): (r: Option<(Json, string)>) {
    var decoded :- Decode(Encode(Print(DocEvent(ns, ev))) + Encode(rest));
    ParseValue(decoded)
  }

  /**
   For every event tree: its bytes, followed by anything, are UTF-8, and the document parsed from them
   ends where the event does and stands for the event, value by value and log entry by log entry.
   */
  lemma DocumentMeans(ns: Names, ev: Event, rest: string)
    requires NumericFloats(ev)
    ensures var r := Parsed(ns, ev, rest);
            && r.Some? && r.value.1 == rest
            && r.value.0.Obj? && StandsForEvent(ns, r.value.0.members, ev)
  {
    hide StandsForEvent, DocEvent, Print, Encode, Decode, ParseValue;
    DocumentRoundTrip(ns, ev, rest);
    EventStands(ns, ev);
    IsObject(ns, ev);
  }

  lemma IsObject(ns: Names, ev: Event)
    ensures DocEvent(ns, ev).Obj?
  {
  }

  /** Looking up a path there gives a value if the event has one, and then one that stands for it. */
  lemma PathMeans(ns: Names, ev: Event, p: Path, rest: string)
    requires NumericFloats(ev) && DistinctNames(ns) && InKeys(p, |ns.keys|) && Unshadowed(ns, ev, p)
    ensures var r := Parsed(ns, ev, rest);
            && r.Some?
            && var found := Lookup(r.value.0, NamesOf(ns, p));
               && (found.Some? <==> Get(ev, p).Some?)
               && (found.Some? ==> StandsFor(ns, found.value, Get(ev, p).value))
  {
    hide StandsFor, DocEvent, DocValue, Print, Encode, Decode, ParseValue, Lookup, Get, Unshadowed;
    DocumentRoundTrip(ns, ev, rest);
    DocumentReads(ns, ev, p);
    if Get(ev, p).Some? {
      ValueStands(ns, Get(ev, p).value);
    }
  }

  // ---- Log entries ----

  /** What a reader finds of a log entry: exactly its level and its message, under their names. */
  predicate ReadsEntry(ns: Names, j: Json, level: string, message: string) {
    && j.Obj? && |j.members| == 2 && j.members[0].0 == ns.level && j.members[1].0 == ns.message
    && Member(j.members, ns.level) == Some(Json.Str(level))
    && Member(j.members, ns.message) == Some(Json.Str(message))
  }

  lemma EntryReads(ns: Names, j: Json, entry: LogEntry)
    requires ns.level != ns.message && StandsForEntry(ns, j, entry)
    ensures ReadsEntry(ns, j, entry.level, entry.message.text)
  {
    var front := j.members[..1];
    assert front == [j.members[0]] && j.members == front + [j.members[1]];
    MemberAppend([], j.members[0], ns.level);
    assert [] + [j.members[0]] == front;
    MemberAppend(front, j.members[1], ns.level);
    MemberAppend(front, j.members[1], ns.message);
  }

  /** The log array of a parsed document has `n` elements, and this level and message at place `i`. */
  predicate EntryAt(ns: Names, r: Option<(Json, string)>, n: nat, i: nat, level: string, message: string) {
    && i < n && r.Some? && r.value.0.Obj?
    && var logs := Member(r.value.0.members, ns.log);
       && logs.Some? && logs.value.Arr? && |logs.value.elems| == n
       && ReadsEntry(ns, logs.value.elems[i], level, message)
  }

  /** The parsed log array has each entry of the event at its place. */
  lemma EntryMeans(ns: Names, ev: Event, i: nat, rest: string)
    requires NumericFloats(ev) && ns.level != ns.message && i < |ev.logEntries|
    ensures var entry := ev.logEntries[i];
            EntryAt(ns, Parsed(ns, ev, rest), |ev.logEntries|, i, entry.level, entry.message.text)
  {
    hide DocEvent, Print, Encode, Decode, ParseValue, Member, StandsForEntry, ReadsEntry;
    DocumentRoundTrip(ns, ev, rest);
    DocumentLogs(ns, ev);
    IsObject(ns, ev);
    LogsStand(ns, ev.logEntries);
    EntryReads(ns, DocLogs(ns, ev.logEntries)[i], ev.logEntries[i]);
  }

  /** After a log call, the last element has the call's level and message, and the others are as before. */
  lemma AppendedEntryMeans(ns: Names, ev: Event, level: string, message: string, rest: string)
    requires NumericFloats(ev) && ns.level != ns.message
    ensures var n, r := |ev.logEntries|, Parsed(ns, WithLog(ev, LogEntry(level, Owned(message))), rest);
            && EntryAt(ns, r, n + 1, n, level, message)
            && forall i :: 0 <= i < n ==>
                 EntryAt(ns, r, n + 1, i, ev.logEntries[i].level, ev.logEntries[i].message.text)
  {
    hide Parsed, EntryAt;
    var ev' := WithLog(ev, LogEntry(level, Owned(message)));
    assert NumericFloats(ev');
    forall i | 0 <= i < |ev'.logEntries|
      ensures EntryAt(ns, Parsed(ns, ev', rest), |ev'.logEntries|, i,
                      ev'.logEntries[i].level, ev'.logEntries[i].message.text)
    {
      EntryMeans(ns, ev', i, rest);
    }
    assert ev'.logEntries[|ev.logEntries|] == LogEntry(level, Owned(message));
    assert forall i :: 0 <= i < |ev.logEntries| ==> ev'.logEntries[i] == ev.logEntries[i];
  }
}
