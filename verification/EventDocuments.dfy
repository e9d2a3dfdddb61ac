/**
 What the bytes of an event are good for: they decode and parse back to its document, the document
 answers every path as the event does, and the text fits on one line.
 */
module EventDocuments {
  import opened Wrappers
  import opened WideEvents
  import opened Serializer
  import opened Json
  import opened Utf8
  import opened JsonParser
  import opened JsonRoundTrip
  import opened EventLaws

  /** Every finite float is printed as a number of RFC 8259 section 6. */
  predicate NumericFloats(ev: Event)
    decreases ev
  {
    forall k :: 0 <= k < |ev.values| && ev.values[k].Some? ==> NumericFloatsIn(ev.values[k].value)
  }

  predicate NumericFloatsIn(v: Value)
    decreases v
  {
    match v
    case F64(Finite(token)) => IsNumber(token)
    case Array(elems) => forall i :: 0 <= i < |elems| ==> NumericFloatsIn(elems[i])
    case Object(ev) => NumericFloats(ev)
    case _ => true
  }

  // ---- Round trip ----

  lemma {:induction false} DocLogsWellFormed(ns: Names, entries: seq<LogEntry>)
    ensures forall i :: 0 <= i < |entries| ==>
      DocLogs(ns, entries)[i] == DocEntry(ns, entries[i]) && ValidDocument(DocLogs(ns, entries)[i])
  {
    if entries != [] {
      DocLogsWellFormed(ns, entries[..|entries| - 1]);
    }
  }

  lemma {:induction false} DocSlotsWellFormed(ns: Names, ev: Event, n: nat)
    requires n <= |ns.keys| && NumericFloats(ev)
    ensures forall i :: 0 <= i < |DocSlots(ns, ev, n)| ==> ValidDocument(DocSlots(ns, ev, n)[i].1)
    decreases ev, n
  {
    if n > 0 {
      DocSlotsWellFormed(ns, ev, n - 1);
      if n - 1 < |ev.values| && ev.values[n - 1].Some? {
        DocValueWellFormed(ns, ev.values[n - 1].value);
      }
    }
  }

  lemma {:induction false} DocEventWellFormed(ns: Names, ev: Event)
    requires NumericFloats(ev)
    ensures ValidDocument(DocEvent(ns, ev))
    decreases ev, |ns.keys| + 1
  {
    DocSlotsWellFormed(ns, ev, |ns.keys|);
    DocLogsWellFormed(ns, ev.logEntries);
  }

  lemma {:induction false} DocElemsWellFormed(ns: Names, elems: seq<Value>, n: nat)
    requires n <= |elems|
    requires forall i :: 0 <= i < |elems| ==> NumericFloatsIn(elems[i])
    ensures forall i :: 0 <= i < n ==> ValidDocument(DocElems(ns, elems, n)[i])
    decreases elems, n
  {
    if n > 0 {
      DocElemsWellFormed(ns, elems, n - 1);
      DocValueWellFormed(ns, elems[n - 1]);
    }
  }

  lemma {:induction false} DocValueWellFormed(ns: Names, v: Value)
    requires NumericFloatsIn(v)
    ensures ValidDocument(DocValue(ns, v))
    decreases v, 0
  {
    match v {
      case I64(i) => DecimalIsNumber(i);
      case U64(u) => DecimalIsNumber(u);
      case Array(elems) => DocElemsWellFormed(ns, elems, |elems|);
      case Object(ev) => DocEventWellFormed(ns, ev);
      case _ =>
    }
  }

  /**
   Whole-document round trip. The bytes of an event, followed by any further text, are UTF-8, and a
   JSON parser consumes exactly the event's part and returns its document.
   */
  lemma DocumentRoundTrip(ns: Names, ev: Event, rest: string)
    requires NumericFloats(ev)
    ensures var decoded := Decode(Encode(Print(DocEvent(ns, ev))) + Encode(rest));
            decoded.Some? && ParseValue(decoded.value) == Some((DocEvent(ns, ev), rest))
  {
    var text := Print(DocEvent(ns, ev));
    EncodeConcat(text, rest);
    DecodeEncode(text + rest);
    DocEventWellFormed(ns, ev);
    ParsePrint(DocEvent(ns, ev), rest);
  }

  /** Integers appear as their decimals. */
  lemma IntegersAreExact(ns: Names, v: Value)
    requires v.I64? || v.U64?
    ensures var j := DocValue(ns, v);
            j.Number? && Denotes(j.lexeme, if v.I64? then v.i else v.u)
  {
    hide Denotes, IsNumber, DecimalInt;
    match v {
      case I64(i) => DecimalIsNumber(i);
      case U64(u) => DecimalIsNumber(u);
    }
  }

  // ---- Reading the document ----

  /** The last member with the given name. */
  function Member(members: seq<(string, Json)>, name: string): Option<Json> {
    if members == [] then None
    else if members[|members| - 1].0 == name then Some(members[|members| - 1].1)
    else Member(members[..|members| - 1], name)
  }

  function Lookup(j: Json, names: seq<string>): Option<Json>
    requires names != []
    decreases |names|
  {
    if !j.Obj? then None else
    var v :- Member(j.members, names[0]);
    if |names| == 1 then Some(v) else Lookup(v, names[1..])
  }

  predicate DistinctNames(ns: Names) {
    forall i, j :: 0 <= i < j < |ns.keys| ==> ns.keys[i] != ns.keys[j]
  }

  function NamesOf(ns: Names, p: Path): seq<string>
    requires forall i :: 0 <= i < |p| ==> p[i] < |ns.keys|
  {
    seq(|p|, i requires 0 <= i < |p| => ns.keys[p[i]])
  }

  lemma NamesDiffer(ns: Names, j: nat, k: nat)
    requires DistinctNames(ns) && j < |ns.keys| && k < |ns.keys|
    ensures ns.keys[j] == ns.keys[k] <==> j == k
  {
  }

  lemma MemberAppend(members: seq<(string, Json)>, m: (string, Json), name: string)
    ensures Member(members + [m], name) == if m.0 == name then Some(m.1) else Member(members, name)
  {
    var longer := members + [m];
    assert longer[..|longer| - 1] == members;
  }

  lemma {:induction false} SlotMember(ns: Names, ev: Event, n: nat, k: nat)
    requires DistinctNames(ns) && n <= |ns.keys| && k < |ns.keys|
    ensures Member(DocSlots(ns, ev, n), ns.keys[k])
         == if k < n && Slot(ev, k).Some? then Some(DocValue(ns, Slot(ev, k).value)) else None
    decreases n
  {
    hide DocValue, DistinctNames, Member;
    if n == 0 {
      NoMember(ns.keys[k]);
    } else {
      SlotMember(ns, ev, n - 1, k);
      if n - 1 < |ev.values| && ev.values[n - 1].Some? {
        NamesDiffer(ns, n - 1, k);
        MemberAppend(DocSlots(ns, ev, n - 1),
                     (ns.keys[n - 1], DocValue(ns, ev.values[n - 1].value)), ns.keys[k]);
      }
    }
  }

  lemma NoMember(name: string)
    ensures Member([], name) == None
  {
  }

  /** The log array hides a slot of its name. */
  lemma EventMember(ns: Names, ev: Event, k: nat)
    requires DistinctNames(ns) && k < |ns.keys|
    ensures Member(DocEvent(ns, ev).members, ns.keys[k])
         == if ns.keys[k] == ns.log && ev.logEntries != [] then Some(Arr(DocLogs(ns, ev.logEntries)))
            else if Slot(ev, k).Some? then Some(DocValue(ns, Slot(ev, k).value))
            else None
  {
    hide DocValue, DocSlots, Member;
    SlotMember(ns, ev, |ns.keys|, k);
    MemberAppend(DocSlots(ns, ev, |ns.keys|), (ns.log, Arr(DocLogs(ns, ev.logEntries))), ns.keys[k]);
  }

  /** No event on the path has both log entries and a key on the path of the log's name. */
  predicate Unshadowed(ns: Names, ev: Event, p: Path)
    requires InKeys(p, |ns.keys|)
    decreases |p|
  {
    && (ns.keys[p[0]] == ns.log ==> ev.logEntries == [])
    && (|p| > 1 && Slot(ev, p[0]).Some? && Slot(ev, p[0]).value.Object? ==>
          Unshadowed(ns, Slot(ev, p[0]).value.ev, p[1..]))
  }

  /** The document answers a path exactly as the event does, where the log hides nothing of it. */
  lemma {:induction false} DocumentReads(ns: Names, ev: Event, p: Path)
    requires DistinctNames(ns) && InKeys(p, |ns.keys|)
    ensures Unshadowed(ns, ev, p) ==>
      Lookup(DocEvent(ns, ev), NamesOf(ns, p))
      == if Get(ev, p).Some? then Some(DocValue(ns, Get(ev, p).value)) else None
    ensures ns.keys[p[0]] == ns.log && ev.logEntries != [] && |p| == 1 ==>
      Lookup(DocEvent(ns, ev), NamesOf(ns, p)) == Some(Arr(DocLogs(ns, ev.logEntries)))
    decreases |p|
  {
    EventMember(ns, ev, p[0]);
    if |p| > 1 {
      assert NamesOf(ns, p)[1..] == NamesOf(ns, p[1..]);
      match Slot(ev, p[0]) {
        case Some(Object(child)) => DocumentReads(ns, child, p[1..]);
        case _ =>
      }
    }
  }

  /** The present slots up to a key, in key order and each once. */
  lemma {:induction false} SlotsInOrder(ns: Names, ev: Event, n: nat) returns (ks: seq<Key>)
    requires n <= |ns.keys|
    ensures forall i, j :: 0 <= i < j < |ks| ==> ks[i] < ks[j]
    ensures forall k: Key :: k in ks <==> k < n && Slot(ev, k).Some?
    ensures |DocSlots(ns, ev, n)| == |ks|
    ensures forall i :: 0 <= i < |ks| ==>
      ks[i] in ks && DocSlots(ns, ev, n)[i] == (ns.keys[ks[i]], DocValue(ns, Slot(ev, ks[i]).value))
  {
    hide DocValue;
    if n == 0 {
      ks := [];
    } else {
      ks := SlotsInOrder(ns, ev, n - 1);
      if Slot(ev, n - 1).Some? {
        ks := ks + [n - 1];
      }
    }
  }

  /** The members of a document: the present slots in key order, then the log when there is one. */
  lemma MembersInOrder(ns: Names, ev: Event) returns (ks: seq<Key>)
    ensures forall i, j :: 0 <= i < j < |ks| ==> ks[i] < ks[j]
    ensures forall k: Key :: k in ks <==> k < |ns.keys| && Slot(ev, k).Some?
    ensures var members := DocEvent(ns, ev).members;
            && |members| == |ks| + (if ev.logEntries == [] then 0 else 1)
            && (forall i :: 0 <= i < |ks| ==>
                  ks[i] in ks && members[i] == (ns.keys[ks[i]], DocValue(ns, Slot(ev, ks[i]).value)))
            && (ev.logEntries != [] ==> members[|ks|] == (ns.log, Arr(DocLogs(ns, ev.logEntries))))
  {
    hide DocValue, DocSlots, DocLogs;
    ks := SlotsInOrder(ns, ev, |ns.keys|);
  }

  predicate DistinctMembers(j: Json)
    requires j.Obj?
  {
    forall i, k :: 0 <= i < k < |j.members| ==> j.members[i].0 != j.members[k].0
  }

  predicate HasSlotNamed(ns: Names, ev: Event, name: string) {
    exists k :: 0 <= k < |ns.keys| && ns.keys[k] == name && Slot(ev, k).Some?
  }

  /**
   No two members of a document have one name if and only if there are no log entries or no present
   slot has the name of the log.
   */
  lemma NamesDistinctIff(ns: Names, ev: Event)
    requires DistinctNames(ns)
    ensures DistinctMembers(DocEvent(ns, ev)) <==> ev.logEntries == [] || !HasSlotNamed(ns, ev, ns.log)
  {
    var members := DocEvent(ns, ev).members;
    hide DocEvent, DocValue, DocLogs, Slot;
    var ks := MembersInOrder(ns, ev);
    if ev.logEntries != [] && HasSlotNamed(ns, ev, ns.log) {
      var k :| 0 <= k < |ns.keys| && ns.keys[k] == ns.log && Slot(ev, k).Some?;
      assert k in ks;
      var i :| 0 <= i < |ks| && ks[i] == k;
      assert members[i].0 == members[|ks|].0;
    } else {
      forall i, k | 0 <= i < k < |members|
        ensures members[i].0 != members[k].0
      {
        assert ks[i] in ks && members[i].0 == ns.keys[ks[i]];
        if k < |ks| {
          assert ks[k] in ks && members[k].0 == ns.keys[ks[k]];
          NamesDiffer(ns, ks[i], ks[k]);
        }
      }
    }
  }

  /**
   With log entries the name of the log gives the log array, which holds them in order; without,
   only a key of that name gives anything.
   */
  lemma DocumentLogs(ns: Names, ev: Event)
    ensures ev.logEntries != [] ==>
      Member(DocEvent(ns, ev).members, ns.log) == Some(Arr(DocLogs(ns, ev.logEntries)))
    ensures ev.logEntries == [] && ns.log !in ns.keys ==> Member(DocEvent(ns, ev).members, ns.log) == None
    ensures |DocLogs(ns, ev.logEntries)| == |ev.logEntries|
    ensures forall i :: 0 <= i < |ev.logEntries| ==>
      DocLogs(ns, ev.logEntries)[i] == DocEntry(ns, ev.logEntries[i])
  {
    DocLogsWellFormed(ns, ev.logEntries);
    if ns.log !in ns.keys {
      NoSuchSlot(ns, ev, |ns.keys|, ns.log);
    }
    MemberAppend(DocSlots(ns, ev, |ns.keys|), (ns.log, Arr(DocLogs(ns, ev.logEntries))), ns.log);
  }

  lemma {:induction false} NoSuchSlot(ns: Names, ev: Event, n: nat, name: string)
    requires n <= |ns.keys| && name !in ns.keys
    ensures Member(DocSlots(ns, ev, n), name) == None
    decreases n
  {
    hide DocValue, Member;
    if n == 0 {
      NoMember(name);
    } else {
      NoSuchSlot(ns, ev, n - 1, name);
      if n - 1 < |ev.values| && ev.values[n - 1].Some? {
        MemberAppend(DocSlots(ns, ev, n - 1),
                     (ns.keys[n - 1], DocValue(ns, ev.values[n - 1].value)), name);
      }
    }
  }

  // ---- Member count ----

  lemma {:induction false} SlotCount(ns: Names, ev: Event, n: nat)
    requires n <= |ns.keys|
    ensures |DocSlots(ns, ev, n)|
         == CountPresent(if n <= |ev.values| then ev.values[..n] else ev.values)
    decreases n
  {
    hide DocValue;
    if n > 0 {
      SlotCount(ns, ev, n - 1);
      if n <= |ev.values| {
        assert ev.values[..n][..n - 1] == ev.values[..n - 1];
      } else {
        assert n - 1 == |ev.values| ==> ev.values[..n - 1] == ev.values;
      }
    }
  }

  /** The document has as many members as the cached count says, and one more for the log. */
  lemma MemberCount(ns: Names, ev: Event)
    requires WellFormed(ev, |ns.keys|)
    ensures |DocEvent(ns, ev).members| == ev.presentCount + if ev.logEntries == [] then 0 else 1
  {
    SlotCount(ns, ev, |ns.keys|);
    assert |ev.values| == |ns.keys| ==> ev.values[..|ns.keys|] == ev.values;
  }

  // ---- One line ----

  /** No control character and no separator that ends a line in JavaScript. */
  ghost predicate OneLine(s: string) {
    forall i :: 0 <= i < |s| ==> s[i] as int >= 0x20 && s[i] != '\U{2028}' && s[i] != '\U{2029}'
  }

  lemma OneLineConcat(a: string, b: string)
    ensures OneLine(a + b) <==> OneLine(a) && OneLine(b)
  {
    if OneLine(a + b) {
      assert forall i :: 0 <= i < |a| ==> a[i] == (a + b)[i];
      assert forall i :: 0 <= i < |b| ==> b[i] == (a + b)[|a| + i];
    }
  }

  lemma {:induction false} EscapeOneLine(s: string)
    ensures OneLine(Escape(s))
  {
    if s != "" {
      EscapeCharOneLine(s[0]);
      EscapeOneLine(s[1..]);
      OneLineConcat(EscapeChar(s[0]), Escape(s[1..]));
    }
  }

  lemma EscapeCharOneLine(c: char)
    ensures OneLine(EscapeChar(c))
  {
    hide Hex4;
    if ShortEscape(c).None? && NeedsUnicodeEscape(c) {
      Hex4Form(c as int);
      OneLineConcat(['\\', 'u'], Hex4(c as int));
    }
  }

  lemma HexDigitForm(d: nat)
    requires d < 16
    ensures '0' <= HexDigit(d) <= '9' || 'a' <= HexDigit(d) <= 'f'
  {
  }

  lemma Hex4Form(n: nat)
    requires n < 0x10000
    ensures |Hex4(n)| == 4 && forall i :: 0 <= i < 4 ==> '0' <= Hex4(n)[i] <= '9' || 'a' <= Hex4(n)[i] <= 'f'
  {
    hide HexDigit;
    HexDigitForm(n / 0x1000);
    HexDigitForm(n / 0x100 % 16);
    HexDigitForm(n / 16 % 16);
    HexDigitForm(n % 16);
  }

  lemma LeadingOneLine(s: string)
    ensures OneLine(s[..LeadingDigits(s)])
  {
  }

  lemma FracOneLine(s: string)
    ensures OneLine(s[..ScanFrac(s)])
  {
    hide LeadingDigits;
    if ScanFrac(s) > 0 {
      LeadingOneLine(s[1..]);
      OneLineConcat(".", s[1..][..LeadingDigits(s[1..])]);
      assert s[..ScanFrac(s)] == "." + s[1..][..LeadingDigits(s[1..])];
    }
  }

  lemma ExpOneLine(s: string)
    ensures OneLine(s[..ScanExp(s)])
  {
    hide LeadingDigits;
    if ScanExp(s) > 0 {
      var n := ExpSign(s);
      LeadingOneLine(s[n..]);
      OneLineConcat(s[..n], s[n..][..LeadingDigits(s[n..])]);
      assert s[..ScanExp(s)] == s[..n] + s[n..][..LeadingDigits(s[n..])];
    }
  }

  lemma ScanTailOneLine(s: string)
    ensures OneLine(s[..ScanTail(s)])
  {
    hide ScanFrac, ScanExp, OneLine;
    var f := ScanFrac(s);
    var t := s[f..];
    FracOneLine(s);
    ExpOneLine(t);
    OneLineConcat(s[..f], t[..ScanExp(t)]);
    assert s[..ScanTail(s)] == s[..f] + t[..ScanExp(t)];
  }

  lemma DigitsOneLine(s: string)
    ensures OneLine(s[..ScanInt(s)])
  {
  }

  lemma UnsignedOneLine(s: string)
    requires ScanUnsigned(s) == |s|
    ensures OneLine(s)
  {
    hide ScanTail;
    var d := ScanInt(s);
    if d > 0 {
      hide OneLine;
      DigitsOneLine(s);
      ScanTailOneLine(s[d..]);
      assert s[d..][..ScanTail(s[d..])] == s[d..];
      OneLineConcat(s[..d], s[d..]);
      assert s == s[..d] + s[d..];
    }
  }

  lemma NumberOneLine(lexeme: string)
    requires IsNumber(lexeme)
    ensures OneLine(lexeme)
  {
    hide ScanUnsigned;
    if lexeme[0] == '-' {
      UnsignedOneLine(lexeme[1..]);
      OneLineConcat("-", lexeme[1..]);
      assert lexeme == "-" + lexeme[1..];
    } else {
      UnsignedOneLine(lexeme);
    }
  }

  lemma Enclosed(a: string, s: string, b: string)
    requires OneLine(a) && OneLine(s) && OneLine(b)
    ensures OneLine(a + s + b)
  {
    hide OneLine;
    OneLineConcat(a, s);
    OneLineConcat(a + s, b);
  }

  lemma Marks()
    ensures OneLine("") && OneLine("\"") && OneLine(",") && OneLine(":")
    ensures OneLine("[") && OneLine("]") && OneLine("{") && OneLine("}")
    ensures OneLine("null") && OneLine("true") && OneLine("false")
  {
  }

  lemma {:induction false} PrintOneLine(j: Json)
    requires ValidDocument(j)
    ensures OneLine(Print(j))
    decreases j, 1
  {
    hide OneLine, Escape;
    Marks();
    match j {
      case Number(lexeme) => NumberOneLine(lexeme);
      case Str(s) =>
        EscapeOneLine(s);
        Enclosed("\"", Escape(s), "\"");
      case Arr(elems) =>
        PrintElemsOneLine(elems);
        Enclosed("[", PrintElems(elems), "]");
      case Obj(members) =>
        PrintMembersOneLine(members);
        Enclosed("{", PrintMembers(members), "}");
      case _ =>
    }
  }

  lemma {:induction false} PrintElemsOneLine(elems: seq<Json>)
    requires forall i :: 0 <= i < |elems| ==> ValidDocument(elems[i])
    ensures OneLine(PrintElems(elems))
    decreases elems, 0
  {
    hide OneLine, Print;
    Marks();
    if elems != [] {
      PrintOneLine(elems[0]);
      PrintElemsOneLine(elems[1..]);
      var tail := if |elems| == 1 then "" else "," + PrintElems(elems[1..]);
      OneLineConcat(",", PrintElems(elems[1..]));
      OneLineConcat(Print(elems[0]), tail);
    }
  }

  lemma {:induction false} PrintMembersOneLine(members: seq<(string, Json)>)
    requires forall i :: 0 <= i < |members| ==> ValidDocument(members[i].1)
    ensures OneLine(PrintMembers(members))
    decreases members, 0
  {
    hide OneLine, PrintMember;
    Marks();
    if members != [] {
      PrintMemberOneLine(members[0]);
      PrintMembersOneLine(members[1..]);
      var tail := if |members| == 1 then "" else "," + PrintMembers(members[1..]);
      OneLineConcat(",", PrintMembers(members[1..]));
      OneLineConcat(PrintMember(members[0]), tail);
    }
  }

  lemma {:induction false} PrintMemberOneLine(m: (string, Json))
    requires ValidDocument(m.1)
    ensures OneLine(PrintMember(m))
    decreases m, 0
  {
    hide OneLine, Escape, Print;
    Marks();
    EscapeOneLine(m.0);
    PrintOneLine(m.1);
    Enclosed("\"", Escape(m.0), "\"");
    Enclosed(Quote(m.0), ":", Print(m.1));
  }

  /**
   An emitted event has no control character and no line or paragraph separator, and no byte of it is a
   control character, so none is a newline.
   */
  lemma EventBytesNoControl(ns: Names, ev: Event)
    requires NumericFloats(ev)
    ensures OneLine(Print(DocEvent(ns, ev)))
    ensures NoControlByte(Encode(Print(DocEvent(ns, ev))))
  {
    hide DocEvent, Print, Encode;
    DocEventWellFormed(ns, ev);
    PrintOneLine(DocEvent(ns, ev));
    ControlFreeBytes(Print(DocEvent(ns, ev)));
  }

  // ---- The form of escapes ----

  /**
   A character is printed as itself unless it is a quotation mark, a backslash, a control character or a
   separator; those with a short escape get it, and the others four lower-case hexadecimal digits.
   */
  lemma EscapeForm(c: char)
    ensures var text := EscapeChar(c);
            && (text == [c] <==> c != '"' && c != '\\' && c as int >= 0x20 && c != '\U{2028}' && c != '\U{2029}')
            && (text != [c] ==> text[0] == '\\' && (|text| == 2 || (|text| == 6 && text[1] == 'u')))
            && (|text| == 2 <==> c in "\"\\\n\t\r\U{0008}\U{000C}")
            && (|text| == 6 ==> forall i :: 2 <= i < 6 ==> '0' <= text[i] <= '9' || 'a' <= text[i] <= 'f')
  {
    hide Hex4;
    ShortEscapes(c);
    if c as int < 0x10000 {
      Hex4Form(c as int);
    }
  }

  lemma ShortEscapes(c: char)
    ensures ShortEscape(c).Some? <==> c in "\"\\\n\t\r\U{0008}\U{000C}"
  {
    var all := "\"\\\n\t\r\U{0008}\U{000C}";
    assert all[0] == '"' && all[1] == '\\' && all[2] == '\n' && all[3] == '\t' && all[4] == '\r'
           && all[5] == BACKSPACE && all[6] == FORM_FEED;
  }
}
