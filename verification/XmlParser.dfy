/** Names and values heard from the parser: upnpreplyparse.c. */
module NameValueLists {
  import opened XmlText
  import opened SoapText

  /** Names and values are kept in buffers of 64 bytes. */
  const KEPT: nat := 63
  const LISTING := "NewPortListing"

  datatype NameValue = NameValue(name: string, value: string)

  datatype Names = Names(curelt: string, list: seq<NameValue>, listing: Option<string>)

  const NOTHING := Names("", [], None)

  function Cut(s: string): string {
    if |s| > KEPT then s[..KEPT] else s
  }

  function Hear(d: Names, e: Event): Names {
    match e
    case Start(name) => d.(curelt := Cut(name))
    case Data(text) =>
      if d.curelt == LISTING then d.(listing := Some(text))
      else d.(list := [NameValue(d.curelt, Cut(text))] + d.list)
    case Att(_, _) => d
    case End(_) => d
  }

  function HearAll(d: Names, events: seq<Event>): Names
    decreases |events|
  {
    if events == [] then d else HearAll(Hear(d, events[0]), events[1..])
  }

  function Lookup(list: seq<NameValue>, name: string): Option<string>
    decreases |list|
  {
    if list == [] then None
    else if list[0].name == name then Some(list[0].value)
    else Lookup(list[1..], name)
  }

  lemma {:induction false} HearConcat(d: Names, a: seq<Event>, b: seq<Event>)
    ensures HearAll(d, a + b) == HearAll(HearAll(d, a), b)
    decreases |a|
  {
    if a == [] {
      assert a + b == b;
    } else {
      HearConcat(Hear(d, a[0]), a[1..], b);
      assert (a + b)[1..] == a[1..] + b;
    }
  }

  lemma HearOne(d: Names, e: Event)
    ensures HearAll(d, [e]) == Hear(d, e)
  {
    assert [e][1..] == [];
  }

  lemma {:induction false} NoDataNoChange(d: Names, events: seq<Event>)
    requires forall e :: e in events ==> !e.Data?
    ensures HearAll(d, events).list == d.list && HearAll(d, events).listing == d.listing
    decreases |events|
  {
    if events != [] {
      assert events[0] in events;
      NoDataNoChange(Hear(d, events[0]), events[1..]);
    }
  }

  /** The argument is what a lookup of this name may find. */
  predicate Answers(a: Arg, name: string) {
    a.val != "" && Cut(a.elt) == name && name != LISTING
  }

  predicate LastAnswer(args: seq<Arg>, name: string, k: nat) {
    && k < |args| && Answers(args[k], name)
    && (forall j :: k < j < |args| ==> !Answers(args[j], name))
  }

  lemma HearArg(d: Names, a: Arg, name: string)
    ensures var list := HearAll(d, ArgEvents(a)).list;
      Lookup(list, name) == if Answers(a, name) then Some(Cut(a.val)) else Lookup(d.list, name)
  {
    var e := d.(curelt := Cut(a.elt));
    HearOne(d, Start(a.elt));
    HearConcat(d, [Start(a.elt)], ArgData(a.val));
    HearConcat(d, [Start(a.elt)] + ArgData(a.val), [End(a.elt)]);
    if a.val != "" {
      HearOne(e, Data(a.val));
      HearOne(Hear(e, Data(a.val)), End(a.elt));
      assert e.curelt != LISTING ==> Hear(e, Data(a.val)).list[1..] == d.list;
    } else {
      HearOne(e, End(a.elt));
    }
  }

  lemma {:induction false} HearArgs(d: Names, args: seq<Arg>, name: string)
    ensures var list := HearAll(d, ArgsEvents(args)).list;
      && (forall k: nat :: LastAnswer(args, name, k) ==> Lookup(list, name) == Some(Cut(args[k].val)))
      && ((forall a :: a in args ==> !Answers(a, name)) ==> Lookup(list, name) == Lookup(d.list, name))
    decreases |args|
  {
    if args != [] {
      var first, rest := args[0], args[1..];
      var e := HearAll(d, ArgEvents(first));
      HearConcat(d, ArgEvents(first), ArgsEvents(rest));
      HearArg(d, first, name);
      HearArgs(e, rest, name);
      var list := HearAll(e, ArgsEvents(rest)).list;
      forall k: nat | LastAnswer(args, name, k)
        ensures Lookup(list, name) == Some(Cut(args[k].val))
      {
        LastOfRest(args, name, k);
      }
      assert forall a :: a in rest ==> a in args;
      assert first in args;
    }
  }

  lemma LastOfRest(args: seq<Arg>, name: string, k: nat)
    requires LastAnswer(args, name, k)
    ensures k > 0 ==> LastAnswer(args[1..], name, k - 1) && args[1..][k - 1] == args[k]
    ensures k == 0 ==> forall a :: a in args[1..] ==> !Answers(a, name)
  {
    var rest := args[1..];
    assert forall j :: 0 <= j < |rest| ==> rest[j] == args[j + 1];
  }

  /** Looking a name up in what was heard from a request finds the last argument of that name
      with a value, and nothing if there is none. */
  lemma LookupFindsLast(service: string, action: string, args: seq<Arg>, name: string)
    requires LegalName(action) && Without(service, IsQuote) && forall a :: a in args ==> LegalArg(a)
    ensures var list := HearAll(NOTHING, Parse(Request(service, action, args))).list;
      && (forall k: nat :: LastAnswer(args, name, k) ==> Lookup(list, name) == Some(Cut(args[k].val)))
      && ((forall a :: a in args ==> !Answers(a, name)) ==> Lookup(list, name) == None)
  {
    RequestRoundTrip(service, action, args);
    FrameHasNoData(service, action);
    LookupAround(HeadEvents(service, action), args, FootEvents(action), name);
  }

  lemma FrameHasNoData(service: string, action: string)
    ensures forall e :: e in HeadEvents(service, action) ==> !e.Data?
    ensures forall e :: e in FootEvents(action) ==> !e.Data?
  {
  }

  lemma LookupAround(head: seq<Event>, args: seq<Arg>, foot: seq<Event>, name: string)
    requires forall e :: e in head ==> !e.Data?
    requires forall e :: e in foot ==> !e.Data?
    ensures var list := HearAll(NOTHING, head + (ArgsEvents(args) + foot)).list;
      && (forall k: nat :: LastAnswer(args, name, k) ==> Lookup(list, name) == Some(Cut(args[k].val)))
      && ((forall a :: a in args ==> !Answers(a, name)) ==> Lookup(list, name) == None)
  {
    HearConcat(NOTHING, head, ArgsEvents(args) + foot);
    var d := HearAll(NOTHING, head);
    NoDataNoChange(NOTHING, head);
    HearConcat(d, ArgsEvents(args), foot);
    HearArgs(d, args, name);
    NoDataNoChange(HearAll(d, ArgsEvents(args)), foot);
  }

  /** With names and values of up to 63 characters nothing is cut. */
  lemma ShortIsExact(a: Arg, name: string)
    requires |a.elt| <= KEPT && |a.val| <= KEPT
    ensures Answers(a, name) <==> a.val != "" && a.elt == name && name != LISTING
    ensures Cut(a.val) == a.val
  {
  }

  /** `struct NameValueParserData`. */
  class NameValues {
    var curelt: string
    var head: seq<NameValue>
    var portListing: Option<string>

    ghost function View(): Names
      reads this
    {
      Names(curelt, head, portListing)
    }

    constructor ()
      ensures View() == NOTHING
    {
      curelt, head, portListing := "", [], None;
    }

    method StartElt(name: string)
      modifies this
      ensures View() == Hear(old(View()), Start(name))
    {
      var l := if |name| > 63 then 63 else |name|;
      assert name[..l] == Cut(name);
      curelt := name[..l];
    }

    method GetData(text: string)
      modifies this
      ensures View() == Hear(old(View()), Data(text))
    {
      if curelt == LISTING {
        portListing := Some(text);
      } else {
        var l := if |text| > 63 then 63 else |text|;
        assert text[..l] == Cut(text);
        head := [NameValue(curelt, text[..l])] + head;
      }
    }

    method GetValue(name: string) returns (p: Option<string>)
      ensures p == Lookup(head, name)
    {
      p := None;
      var nv := 0;
      while nv < |head| && p == None
        invariant nv <= |head|
        invariant p == None ==> Lookup(head, name) == Lookup(head[nv..], name)
        invariant p != None ==> p == Lookup(head, name)
      {
        if head[nv].name == name {
          p := Some(head[nv].value);
        }
        nv := nv + 1;
      }
    }

    method Clear()
      modifies this
      ensures head == [] && portListing == None
    {
      portListing := None;
      while head != []
        invariant portListing == None
        decreases |head|
      {
        head := head[1..];
      }
    }
  }
}

/** The pointer-walking parser of minixml.c with the handlers of `ParseNameValue`. */
module MiniXml {
  import opened XmlText
  import opened NameValueLists
  import Sequences

  lemma Behind(t: string, p: nat, n: nat)
    requires p + n <= |t|
    ensures t[p..][n..] == t[p + n..] && t[p..][..n] == t[p..p + n]
  {
  }

  lemma Drop(t: string, p: nat, n: nat)
    requires p + n <= |t|
    ensures t[p..][n..] == t[p + n..]
  {
  }

  // --- The stretches of a text by their positions ---

  lemma QuotedFound(t: string, p: nat, q: nat)
    requires p + 1 <= q <= |t| && t[p] in {'"', '\''}
    requires q == p + 1 + Span(t[p + 1..], QuoteClass(t[p]))
    ensures ValueAt(t[p..]) == if q == |t| then None else Some((t[p + 1..q], t[q + 1..]))
  {
    var v := t[p..];
    Behind(t, p, 1);
    if q < |t| {
      Behind(t, p, q + 1 - p);
      assert v[1..q - p] == t[p + 1..q];
    }
  }

  lemma BareFound(t: string, p: nat, q: nat)
    requires p < |t| && p <= q <= |t| && t[p] !in {'"', '\''}
    requires q == p + Span(t[p..], NameEnd)
    ensures ValueAt(t[p..]) == if q == |t| then None else Some((t[p..q], t[q + 1..]))
  {
    Behind(t, p, q - p);
    if q < |t| { Behind(t, p, q + 1 - p); }
  }

  lemma AttributeFound(t: string, name: string, v: string, value: string, more: string)
    requires t != "" && t[0] != '/' && t[0] != '>' && !White(t[0])
    requires ValueStart(t) == Some((name, v)) && ValueAt(v) == Some((value, more))
    ensures Attributes(t) == Attributes(more).(events := [Att(name, value)] + Attributes(more).events)
  {
  }

  lemma AttributesEnd(t: string, p: nat)
    requires p < |t| && t[p] in {'/', '>'}
    ensures Attributes(t[p..]) == Scan([], t[p..], false)
  {
  }

  lemma AttributesBlank(t: string, p: nat)
    requires p < |t| && White(t[p])
    ensures Attributes(t[p..]) == Attributes(t[p + 1..])
  {
    Drop(t, p, 1);
  }

  lemma EqualFound(t: string, p: nat, e: nat)
    requires p <= e <= |t| && e == p + Span(t[p..], IsEqual)
    ensures AfterEqual(t[p..]) == if e == |t| then None else AfterBlanks(t[e + 1..])
  {
    if e < |t| { Drop(t, p, e + 1 - p); }
  }

  lemma CdataFound(t: string, p: nat, k: nat, q: nat)
    requires p <= k <= k + 3 <= |t| && (k > p ==> k + 3 < |t|) && k <= q <= |t|
    requires k == p + CdataSpan(t[p..]) && q == k + Span(t[k..], IsOpen)
    ensures CdataContent(t[p..])
      == Scan(if k > p then [Data(t[p..k])] else [], if q == |t| then "" else t[q..], q == |t|)
  {
    Behind(t, p, k - p);
    Drop(t, p, q - p);
    CdataWhole(t[p..], k - p, q - p, t[k..], t[p..k], t[q..]);
  }

  lemma CdataWhole(t: string, k: nat, q: nat, u: string, data: string, rest: string)
    requires k + 3 <= |t| && (k > 0 ==> k + 3 < |t|) && k <= q <= |t|
    requires u == t[k..] && data == t[..k] && rest == t[q..]
    requires k == CdataSpan(t) && q == k + Span(u, IsOpen)
    ensures CdataContent(t) == Scan(if k > 0 then [Data(data)] else [], if q == |t| then "" else rest, q == |t|)
  {
  }

  lemma CdataStep(t: string, p: nat)
    requires p < |t| && !(CDATA_END <= t[p..])
    ensures CdataSpan(t[p..]) == 1 + CdataSpan(t[p + 1..])
  {
    Behind(t, p, 1);
  }

  lemma CdataLost(t: string)
    requires var n := CdataSpan(t); n + 3 > |t| || (n > 0 && n + 3 == |t|)
    ensures CdataContent(t) == Gone
  {
  }

  lemma SpanStep(t: string, p: nat, stop: char -> bool)
    requires p < |t| && !stop(t[p])
    ensures Span(t[p..], stop) == 1 + Span(t[p + 1..], stop)
  {
    Drop(t, p, 1);
  }

  lemma TagParsed(t: string, p: nat)
    requires p + 1 < |t| && t[p] == '<' && t[p + 1] != '?'
    ensures var r := Tag(t[p + 1..]); Parse(t[p..]) == r.events + if r.over then [] else Parse(r.rest)
  {
    Drop(t, p, 1);
    var r := Tag(t[p + 1..]);
    assert r.events + [] == r.events;
  }

  lemma CharacterSkipped(t: string, p: nat)
    requires p + 1 < |t| && (t[p] != '<' || t[p + 1] == '?')
    ensures Parse(t[p..]) == Parse(t[p + 1..])
  {
    Drop(t, p, 1);
  }

  lemma TextFound(t: string, p: nat, w: nat, q: nat)
    requires p <= w < |t| && w <= q < |t| && (q > w ==> q + 1 < |t|)
    requires q == w + Span(t[w..], IsOpen)
    ensures TextContent(t[p..], w - p)
      == if q > p && q + 1 < |t| && t[q + 1] == '/' then Scan([Data(t[p..q])], t[q..], false)
         else Scan([], t[q..], false)
  {
    Drop(t, p, w - p);
    Behind(t, p, q - p);
    TextWhole(t[p..], w - p, q - p, t[w..], t[p..q], t[q..]);
  }

  lemma TextWhole(t: string, w: nat, q: nat, u: string, data: string, rest: string)
    requires w < |t| && w <= q < |t| && (q > w ==> q + 1 < |t|)
    requires u == t[w..] && data == t[..q] && rest == t[q..] && q == w + Span(u, IsOpen)
    ensures TextContent(t, w)
      == if q > 0 && q + 1 < |t| && t[q + 1] == '/' then Scan([Data(data)], rest, false) else Scan([], rest, false)
  {
  }

  lemma ClosingFound(t: string, p: nat, q: nat)
    requires p <= q <= |t| && q == p + Span(t[p..], IsClose)
    ensures Closing(t[p..]) == if q == |t| then Gone else Scan([End(t[p..q])], t[q + 1..], false)
  {
    Behind(t, p, q - p);
    if q < |t| { Drop(t, p, q + 1 - p); }
  }

  lemma TextLost(t: string, p: nat, w: nat)
    requires p <= w < |t| && Span(t[w..], IsOpen) > 0 && w + Span(t[w..], IsOpen) + 1 >= |t|
    ensures TextContent(t[p..], w - p) == Gone
  {
    Behind(t, p, w - p);
  }

  lemma CdataInside(t: string, x: string, w: nat)
    requires w <= |t| && w == Span(t, NotWhite) && x == t[w..] && CDATA <= x
    ensures Content(t) == CdataContent(x[9..])
  {
    assert w != |t|;
  }

  lemma TextInside(t: string, w: nat)
    requires w <= |t| && w == Span(t, NotWhite) && !(CDATA <= t[w..])
    ensures Content(t) == if w == |t| then Gone else TextContent(t, w)
  {
  }

  function Characters(t: string, p: nat, w: nat): (r: Scan)
    requires p <= w < |t|
  {
    if CDATA <= t[w..] then CdataContent(t[w + 9..]) else TextContent(t[p..], w - p)
  }

  lemma ContentFound(t: string, p: nat, w: nat)
    requires p <= w <= |t| && w == p + Span(t[p..], NotWhite)
    ensures Content(t[p..]) == if w == |t| then Gone else Characters(t, p, w)
  {
    Drop(t, p, w - p);
    if CDATA <= t[w..] {
      Drop(t, w, 9);
      CdataInside(t[p..], t[w..], w - p);
    } else {
      TextInside(t[p..], w - p);
    }
  }

  lemma EndedOpening(name: string, t: string, before: seq<Event>, now: seq<Event>)
    requires Attributes(t).over && now == before + [Start(name)] + Attributes(t).events
    ensures Opening(name, t).over && now == before + Opening(name, t).events
  {
    Sequences.Regroup(before, [Start(name)], Attributes(t).events);
  }

  lemma EmptyOpening(name: string, t: string, before: seq<Event>, now: seq<Event>)
    requires !Attributes(t).over && Attributes(t).rest[0] == '/'
    requires now == before + [Start(name)] + Attributes(t).events
    ensures Opening(name, t).rest == Attributes(t).rest
    ensures !Opening(name, t).over && now == before + Opening(name, t).events
  {
    Sequences.Regroup(before, [Start(name)], Attributes(t).events);
  }

  lemma FullOpening(name: string, t: string, a: Scan, c: Scan, before: seq<Event>, now: seq<Event>)
    requires a == Attributes(t) && !a.over && a.rest[0] != '/' && Content(a.rest[1..]) == c
    requires now == before + [Start(name)] + a.events + c.events
    ensures Opening(name, t).rest == c.rest && Opening(name, t).over == c.over
    ensures now == before + Opening(name, t).events
  {
    Sequences.Regroup(before, [Start(name)], a.events);
    Sequences.Regroup(before, [Start(name)] + a.events, c.events);
  }

  /** What was reported together with what lies ahead stays the same. */
  ghost predicate Ahead(before: seq<Event>, whole: Scan, log: seq<Event>, ahead: Scan) {
    log + ahead.events == before + whole.events && ahead.rest == whole.rest && ahead.over == whole.over
  }

  lemma AheadStep(before: seq<Event>, whole: Scan, log: seq<Event>, e: Event, more: Scan)
    requires Ahead(before, whole, log, more.(events := [e] + more.events))
    ensures Ahead(before, whole, log + [e], more)
  {
    Sequences.Regroup(log, [e], more.events);
  }

  lemma AllSeen(before: seq<Event>, whole: Scan, log: seq<Event>, rest: string, over: bool)
    requires Ahead(before, whole, log, Scan([], rest, over))
    ensures log == before + whole.events && whole.rest == rest && whole.over == over
  {
    assert log + [] == log;
  }

  class XmlParser {
    const text: string
    var xml: nat
    const data: NameValues
    ghost var log: seq<Event>

    constructor (text: string)
      ensures this.text == text && Valid() && xml == 0 && log == []
      ensures fresh(data)
    {
      this.text, xml, log := text, 0, [];
      data := new NameValues();
    }

    /** What the handlers know is what they were told. */
    ghost predicate Valid()
      reads this, data
    {
      xml <= |text| && data.View() == HearAll(NOTHING, log)
    }

    /** A callback; only those for starts and data are set. */
    method Report(e: Event)
      requires Valid()
      modifies this`log, data
      ensures Valid() && log == old(log) + [e]
    {
      HearConcat(NOTHING, log, [e]);
      HearOne(data.View(), e);
      match e {
        case Start(name) => data.StartElt(name);
        case Data(t) => data.GetData(t);
        case Att(_, _) =>
        case End(_) =>
      }
      log := log + [e];
    }

    /** Walking to the next character that stops; true if there is none. */
    method Advance(stop: char -> bool) returns (ended: bool)
      requires xml <= |text|
      modifies this`xml
      ensures old(xml) <= xml <= |text| && xml == old(xml) + Span(text[old(xml)..], stop)
      ensures ended == (xml == |text|)
      ensures !ended ==> stop(text[xml])
    {
      ghost var from := text[xml..];
      while xml < |text| && !stop(text[xml])
        invariant old(xml) <= xml <= |text|
        invariant xml + Span(text[xml..], stop) == old(xml) + Span(from, stop)
        decreases |text| - xml
      {
        assert text[xml..][1..] == text[xml + 1..];
        xml := xml + 1;
      }
      ended := xml == |text|;
    }

    /** From an attribute's name to its value. */
    method ParseAttName() returns (ended: bool, attname: string)
      requires xml <= |text|
      modifies this`xml
      ensures old(xml) <= xml <= |text|
      ensures ValueStart(text[old(xml)..]) == if ended then None else Some((attname, text[xml..]))
    {
      attname := ReadWord();
      ended := SkipEqual();
    }

    /** The name of an attribute. */
    method ReadWord() returns (word: string)
      requires xml <= |text|
      modifies this`xml
      ensures old(xml) <= xml <= |text|
      ensures var t := text[old(xml)..]; word == t[..Span(t, AttNameEnd)] && text[xml..] == t[Span(t, AttNameEnd)..]
    {
      var from := xml;
      var ended := Advance(AttNameEnd);
      Behind(text, from, xml - from);
      word := text[from..xml];
    }

    /** Behind the equals sign, and the white space after it. */
    method SkipEqual() returns (ended: bool)
      requires xml <= |text|
      modifies this`xml
      ensures old(xml) <= xml <= |text|
      ensures AfterEqual(text[old(xml)..]) == if ended then None else Some(text[xml..])
    {
      var from := xml;
      ended := Advance(IsEqual);
      EqualFound(text, from, xml);
      if ended { return; }
      xml := xml + 1;
      ended := SkipBlanks();
    }

    method SkipBlanks() returns (ended: bool)
      requires xml <= |text|
      modifies this`xml
      ensures old(xml) <= xml <= |text|
      ensures AfterBlanks(text[old(xml)..]) == if ended then None else Some(text[xml..])
    {
      var from := xml;
      ended := Advance(NotWhite);
      Drop(text, from, xml - from);
    }

    method ParseAttValue() returns (ended: bool, attvalue: string)
      requires xml < |text|
      modifies this`xml
      ensures old(xml) <= xml <= |text| && (!ended ==> old(xml) < xml)
      ensures ValueAt(text[old(xml)..]) == if ended then None else Some((attvalue, text[xml..]))
    {
      var sep, from := text[xml], xml;
      attvalue := "";
      if sep == '\'' || sep == '"' {
        xml := xml + 1;
        ended := Advance(QuoteClass(sep));
        QuotedFound(text, from, xml);
        if ended { return; }
        attvalue := text[from + 1..xml];
      } else {
        ended := Advance(NameEnd);
        BareFound(text, from, xml);
        if ended { return; }
        attvalue := text[from..xml];
      }
      xml := xml + 1;
    }

    /** One attribute. */
    method ParseOneAtt(ghost before: seq<Event>, ghost whole: Scan) returns (ended: bool)
      requires Valid() && xml < |text| && !NameEnd(text[xml])
      requires Ahead(before, whole, log, Attributes(text[xml..]))
      modifies this`xml, this`log, data
      ensures Valid() && old(xml) <= xml && (!ended ==> old(xml) < xml)
      ensures Ahead(before, whole, log, if ended then Gone else Attributes(text[xml..]))
    {
      ghost var t := text[xml..];
      var name, value;
      ended, name := ParseAttName();
      if ended { return; }
      ghost var v := text[xml..];
      ended, value := ParseAttValue();
      if ended { return; }
      AttributeFound(t, name, v, value, text[xml..]);
      AheadStep(before, whole, log, Att(name, value), Attributes(text[xml..]));
      Report(Att(name, value));
    }

    /** `parseatt`: true if the end of the text is reached. */
    method ParseAtt() returns (ended: bool)
      requires Valid()
      modifies this`xml, this`log, data
      ensures Valid() && old(xml) <= xml
      ensures var r := Attributes(text[old(xml)..]);
        ended == r.over && log == old(log) + r.events && (!ended ==> text[xml..] == r.rest)
    {
      ghost var before, whole := log, Attributes(text[xml..]);
      ended := WalkAttributes(before, whole);
      AllSeen(before, whole, log, if ended then "" else text[xml..], ended);
    }

    method WalkAttributes(ghost before: seq<Event>, ghost whole: Scan) returns (ended: bool)
      requires Valid() && Ahead(before, whole, log, Attributes(text[xml..]))
      modifies this`xml, this`log, data
      ensures Valid() && old(xml) <= xml
      ensures Ahead(before, whole, log, if ended then Gone else Scan([], text[xml..], false))
    {
      while xml < |text|
        invariant Valid() && old(xml) <= xml
        invariant Ahead(before, whole, log, Attributes(text[xml..]))
        decreases |text| - xml
      {
        if text[xml] == '/' || text[xml] == '>' {
          AttributesEnd(text, xml);
          return false;
        }
        ended := ParseBlankOrAtt(before, whole);
        if ended { return; }
      }
      ended := true;
    }

    method ParseBlankOrAtt(ghost before: seq<Event>, ghost whole: Scan) returns (ended: bool)
      requires Valid() && xml < |text| && text[xml] != '/' && text[xml] != '>'
      requires Ahead(before, whole, log, Attributes(text[xml..]))
      modifies this`xml, this`log, data
      ensures Valid() && old(xml) <= xml && (!ended ==> old(xml) < xml)
      ensures Ahead(before, whole, log, if ended then Gone else Attributes(text[xml..]))
    {
      ended := false;
      if White(text[xml]) {
        AttributesBlank(text, xml);
        xml := xml + 1;
      } else {
        ended := ParseOneAtt(before, whole);
      }
    }

    /** An element's name; true if the end of the text is reached. */
    method ParseName() returns (ended: bool, name: string)
      requires xml <= |text|
      modifies this`xml
      ensures old(xml) <= xml <= |text|
      ensures ended == NameAt(text[old(xml)..], 0).None?
      ensures !ended ==> NameAt(text[old(xml)..], 0) == Some((name, text[xml..]))
    {
      var i, elementname: nat := 0, xml;
      name := "";
      while xml < |text| && !NameEnd(text[xml])
        invariant old(xml) <= elementname && xml == elementname + i <= |text|
        invariant NameAt(text[elementname..], i) == NameAt(text[old(xml)..], 0)
        decreases |text| - xml
      {
        i := i + 1;
        xml := xml + 1;
        if xml >= |text| {
          return true, "";
        }
        if text[xml] == ':' {
          Behind(text, elementname, i + 1);
          i := 0;
          xml := xml + 1;
          elementname := xml;
        }
      }
      if xml >= |text| {
        return true, "";
      }
      Behind(text, elementname, i);
      return false, text[elementname..elementname + i];
    }

    /** A CDATA section; true if the end of the text is reached. */
    method ParseCdata() returns (ended: bool)
      requires Valid()
      modifies this`xml, this`log, data
      ensures Valid() && old(xml) <= xml
      ensures var r := CdataContent(text[old(xml)..]);
        ended == r.over && log == old(log) + r.events && (!ended ==> text[xml..] == r.rest)
    {
      var from := xml;
      ended := WalkToCdataEnd();
      if ended {
        CdataLost(text[from..]);
        return;
      }
      var end := xml;
      if end > from {
        Report(Data(text[from..end]));
      }
      ended := Advance(IsOpen);
      CdataFound(text, from, end, xml);
    }

    /** The end of a CDATA section, which has a character behind it unless it stands right here. */
    method WalkToCdataEnd() returns (ended: bool)
      requires xml <= |text|
      modifies this`xml
      ensures old(xml) <= xml <= |text|
      ensures var n, size := CdataSpan(text[old(xml)..]), |text| - old(xml);
        && (ended ==> n + 3 > size || (n > 0 && n + 3 == size))
        && (!ended ==> xml == old(xml) + n && n + 3 <= size && (n > 0 ==> n + 3 < size))
    {
      while xml < |text| && !(CDATA_END <= text[xml..])
        invariant old(xml) <= xml <= |text|
        invariant xml + CdataSpan(text[xml..]) == old(xml) + CdataSpan(text[old(xml)..])
        invariant xml > old(xml) ==> xml + 3 < |text|
        decreases |text| - xml
      {
        CdataStep(text, xml);
        xml := xml + 1;
        if xml + 3 >= |text| {
          return true;
        }
      }
      ended := xml >= |text|;
    }

    /** The text up to the next tag, after some white space; it all begins at `from`. */
    method ParseText(from: nat) returns (ended: bool)
      requires Valid() && from <= xml < |text|
      modifies this`xml, this`log, data
      ensures Valid() && old(xml) <= xml
      ensures var r := TextContent(text[from..], old(xml) - from);
        ended == r.over && log == old(log) + r.events && (!ended ==> text[xml..] == r.rest)
    {
      ghost var w := xml;
      ended := WalkToTag();
      if ended {
        TextLost(text, from, w);
        return;
      }
      TextFound(text, from, w, xml);
      if xml > from && xml + 1 < |text| && text[xml + 1] == '/' {
        Report(Data(text[from..xml]));
      }
    }

    /** The next opening bracket, which has a character behind it unless it stands right here. */
    method WalkToTag() returns (ended: bool)
      requires xml < |text|
      modifies this`xml
      ensures old(xml) <= xml <= |text|
      ensures var q := old(xml) + Span(text[old(xml)..], IsOpen);
        && (ended ==> q > old(xml) && q + 1 >= |text|)
        && (!ended ==> xml == q < |text| && (q > old(xml) ==> q + 1 < |text|))
    {
      while text[xml] != '<'
        invariant old(xml) <= xml < |text|
        invariant xml + Span(text[xml..], IsOpen) == old(xml) + Span(text[old(xml)..], IsOpen)
        invariant xml > old(xml) ==> xml + 1 < |text|
        decreases |text| - xml
      {
        SpanStep(text, xml, IsOpen);
        xml := xml + 1;
        if xml + 1 >= |text| {
          return true;
        }
      }
      ended := false;
    }

    /** What stands behind an opening tag; true if the end of the text is reached. */
    method ParseContent() returns (ended: bool)
      requires Valid()
      modifies this`xml, this`log, data
      ensures Valid() && old(xml) <= xml
      ensures var r := Content(text[old(xml)..]);
        ended == r.over && log == old(log) + r.events && (!ended ==> text[xml..] == r.rest)
    {
      var from := xml;
      ended := Advance(NotWhite);
      ContentFound(text, from, xml);
      if !ended {
        ended := ParseCharacters(from);
      }
    }

    /** Text or a CDATA section, behind the white space that begins at `from`. */
    method ParseCharacters(from: nat) returns (ended: bool)
      requires Valid() && from <= xml < |text|
      modifies this`xml, this`log, data
      ensures Valid() && old(xml) <= xml
      ensures var r := Characters(text, from, old(xml));
        ended == r.over && log == old(log) + r.events && (!ended ==> text[xml..] == r.rest)
    {
      if CDATA <= text[xml..] {
        xml := xml + 9;
        ended := ParseCdata();
      } else {
        ended := ParseText(from);
      }
    }

    /** Behind an element's name. */
    method ParseOpening(name: string) returns (ended: bool)
      requires Valid()
      modifies this`xml, this`log, data
      ensures Valid() && old(xml) <= xml
      ensures var r := Opening(name, text[old(xml)..]);
        ended == r.over && log == old(log) + r.events && (!ended ==> text[xml..] == r.rest)
    {
      ghost var t, before := text[xml..], log;
      ghost var a := Attributes(t);
      Report(Start(name));
      ended := ParseAtt();
      if ended {
        EndedOpening(name, t, before, log);
        return;
      }
      if text[xml] != '/' {
        Drop(text, xml, 1);
        xml := xml + 1;
        ghost var c := Content(text[xml..]);
        ended := ParseContent();
        FullOpening(name, t, a, c, before, log);
      } else {
        EmptyOpening(name, t, before, log);
      }
    }

    method ParseClosing() returns (ended: bool)
      requires Valid()
      modifies this`xml, this`log, data
      ensures Valid() && old(xml) <= xml
      ensures var r := Closing(text[old(xml)..]);
        ended == r.over && log == old(log) + r.events && (!ended ==> text[xml..] == r.rest)
    {
      var from := xml;
      ended := Advance(IsClose);
      ClosingFound(text, from, xml);
      if ended { return; }
      Report(End(text[from..xml]));
      xml := xml + 1;
    }

    /** A tag, behind its opening bracket. */
    method ParseTag() returns (ended: bool)
      requires Valid()
      modifies this`xml, this`log, data
      ensures Valid() && old(xml) <= xml
      ensures var r := Tag(text[old(xml)..]);
        ended == r.over && log == old(log) + r.events && (!ended ==> text[xml..] == r.rest)
    {
      var name;
      ended, name := ParseName();
      if ended { return; }
      if |name| > 0 {
        ended := ParseOpening(name);
      } else if text[xml] == '/' {
        Behind(text, xml, 1);
        xml := xml + 1;
        ended := ParseClosing();
      }
    }

    /** `parseelt`: the callbacks are made for exactly the events of the text, in their order. */
    method ParseElt()
      requires Valid()
      modifies this`xml, this`log, data
      ensures Valid() && log == old(log) + Parse(text[old(xml)..])
    {
      while xml + 1 < |text|
        invariant Valid() && old(xml) <= xml
        invariant log + Parse(text[xml..]) == old(log) + Parse(text[old(xml)..])
        decreases |text| - xml
      {
        var ended := ParseNext();
        if ended {
          assert log + [] == log;
          return;
        }
      }
      assert log + [] == log;
    }

    /** One pass of the loop of `parseelt`. */
    method ParseNext() returns (ended: bool)
      requires Valid() && xml + 1 < |text|
      modifies this`xml, this`log, data
      ensures Valid() && old(xml) < xml
      ensures log + (if ended then [] else Parse(text[xml..])) == old(log) + Parse(text[old(xml)..])
    {
      ended := false;
      ghost var before := log;
      if text[xml] == '<' && text[xml + 1] != '?' {
        ghost var r := Tag(text[xml + 1..]);
        TagParsed(text, xml);
        xml := xml + 1;
        ended := ParseTag();
        Sequences.Regroup(before, r.events, if ended then [] else Parse(text[xml..]));
      } else {
        CharacterSkipped(text, xml);
        xml := xml + 1;
      }
    }
  }

  /** `ParseNameValue`. */
  method ParseNameValue(buffer: string) returns (data: NameValues)
    ensures fresh(data) && data.View() == HearAll(NOTHING, Parse(buffer))
  {
    var parser := new XmlParser(buffer);
    assert buffer[0..] == buffer;
    parser.ParseElt();
    assert parser.log == Parse(buffer);
    data := parser.data;
  }
}
