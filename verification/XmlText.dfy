/** What minixml.c reports about a text, as functions of the text that is still to be read.
    A text ends like a string: behind its last character nothing matches. */
module XmlText {

  datatype Event =
    | Start(name: string)
    | Att(name: string, value: string)
    | Data(text: string)
    | End(name: string)

  /** The events of a stretch, the text behind it, and whether reading is over for good. */
  datatype Scan = Scan(events: seq<Event>, rest: string, over: bool)

  datatype Option<T> = None | Some(value: T)

  const CDATA := "<![CDATA["
  const CDATA_END := "]]>"

  const Gone := Scan([], "", true)

  predicate White(c: char) { c == ' ' || c == '\t' || c == '\r' || c == '\n' }
  predicate NotWhite(c: char) { !White(c) }
  predicate NameEnd(c: char) { White(c) || c == '>' || c == '/' }
  predicate AttNameEnd(c: char) { c == '=' || White(c) }
  predicate IsEqual(c: char) { c == '=' }
  predicate IsQuote(c: char) { c == '"' }
  predicate IsApostrophe(c: char) { c == '\'' }
  predicate IsOpen(c: char) { c == '<' }
  predicate IsClose(c: char) { c == '>' }

  /** How many characters stand before the first one that stops. */
  function Span(t: string, stop: char -> bool): (n: nat)
    ensures n <= |t|
    ensures forall i :: 0 <= i < n ==> !stop(t[i])
    ensures n < |t| ==> stop(t[n])
    decreases |t|
  {
    if t == "" || stop(t[0]) then 0 else 1 + Span(t[1..], stop)
  }

  /** An element's name without its namespace; i characters of it are read. */
  function NameAt(t: string, i: nat): (r: Option<(string, string)>)
    requires i <= |t|
    ensures r.Some? ==> r.value.1 != "" && NameEnd(r.value.1[0])
    ensures r.Some? ==> |r.value.0| + |r.value.1| <= |t|
    decreases |t| - i
  {
    if i == |t| then None
    else if NameEnd(t[i]) then Some((t[..i], t[i..]))
    else if i + 1 == |t| then None
    else if t[i + 1] == ':' then NameAt(t[i + 2..], 0)
    else NameAt(t, i + 1)
  }

  function QuoteClass(c: char): char -> bool {
    if c == '"' then IsQuote else IsApostrophe
  }

  /** An attribute's value: quoted, or up to the next character that ends a name. */
  function ValueAt(v: string): (r: Option<(string, string)>)
    requires v != ""
    ensures r.Some? ==> |r.value.1| < |v|
  {
    if v[0] == '"' || v[0] == '\'' then
      var q := Span(v[1..], QuoteClass(v[0]));
      if q == |v| - 1 then None else Some((v[1..1 + q], v[q + 2..]))
    else
      var q := Span(v, NameEnd);
      if q == |v| then None else Some((v[..q], v[q + 1..]))
  }

  /** From the end of an attribute's name to the first character of its value. */
  function AfterEqual(t: string): (r: Option<string>)
    ensures r.Some? ==> r.value != "" && |r.value| < |t|
  {
    var e := Span(t, IsEqual);
    if e == |t| then None else AfterBlanks(t[e + 1..])
  }

  function AfterBlanks(t: string): (r: Option<string>)
    ensures r.Some? ==> r.value != "" && |r.value| <= |t|
  {
    var w := Span(t, NotWhite);
    if w == |t| then None else Some(t[w..])
  }

  /** An attribute's name, and the text from the first character of its value on. */
  function ValueStart(t: string): (r: Option<(string, string)>)
    ensures r.Some? ==> r.value.1 != "" && |r.value.1| < |t|
  {
    var n := Span(t, AttNameEnd);
    var v := AfterEqual(t[n..]);
    if v.None? then None else Some((t[..n], v.value))
  }

  function Attributes(t: string): (r: Scan)
    ensures |r.rest| <= |t|
    ensures !r.over ==> r.rest != "" && r.rest[0] in {'/', '>'}
    decreases |t|
  {
    if t == "" then Gone
    else if t[0] == '/' || t[0] == '>' then Scan([], t, false)
    else if White(t[0]) then Attributes(t[1..])
    else
      var name := ValueStart(t);
      if name.None? then Gone else
      var value := ValueAt(name.value.1);
      if value.None? then Gone else
      var more := Attributes(value.value.1);
      more.(events := [Att(name.value.0, value.value.0)] + more.events)
  }

  /** How far the end of a CDATA section is. */
  function CdataSpan(t: string): (n: nat)
    ensures n <= |t|
    decreases |t|
  {
    if t == "" || CDATA_END <= t then 0 else 1 + CdataSpan(t[1..])
  }

  /** A CDATA section and the text behind it up to the next tag. */
  function CdataContent(t: string): (r: Scan)
    ensures |r.rest| <= |t|
  {
    var n := CdataSpan(t);
    if n + 3 > |t| || (n > 0 && n + 3 == |t|) then Gone else
    var data := if n > 0 then [Data(t[..n])] else [];
    var q := n + Span(t[n..], IsOpen);
    if q == |t| then Scan(data, "", true) else Scan(data, t[q..], false)
  }

  /** Text up to the next tag; w characters of white space are read. It is data only if the
      next tag is a closing one. */
  function TextContent(t: string, w: nat): (r: Scan)
    requires w < |t|
    ensures |r.rest| <= |t|
  {
    var q := w + Span(t[w..], IsOpen);
    if q > w && q + 1 >= |t| then Gone
    else if q > 0 && q + 1 < |t| && t[q + 1] == '/' then Scan([Data(t[..q])], t[q..], false)
    else Scan([], t[q..], false)
  }

  /** What stands behind an opening tag. */
  function Content(t: string): (r: Scan)
    ensures |r.rest| <= |t|
  {
    var w := Span(t, NotWhite);
    if w == |t| then Gone
    else if CDATA <= t[w..] then CdataContent(t[w..][9..])
    else TextContent(t, w)
  }

  function Closing(t: string): (r: Scan)
    ensures |r.rest| <= |t|
  {
    var q := Span(t, IsClose);
    if q == |t| then Gone else Scan([End(t[..q])], t[q + 1..], false)
  }

  /** Behind an element's name: its attributes and content. */
  function Opening(name: string, t: string): (r: Scan)
    ensures |r.rest| <= |t|
  {
    var a := Attributes(t);
    if a.over then Scan([Start(name)] + a.events, "", true)
    else if a.rest[0] == '/' then Scan([Start(name)] + a.events, a.rest, false)
    else
      var c := Content(a.rest[1..]);
      c.(events := [Start(name)] + a.events + c.events)
  }

  /** Behind the opening bracket of a tag. */
  function Tag(t: string): (r: Scan)
    ensures |r.rest| <= |t|
  {
    var n := NameAt(t, 0);
    if n.None? then Gone
    else if n.value.0 != "" then Opening(n.value.0, n.value.1)
    else if n.value.1[0] == '/' then Closing(n.value.1[1..])
    else Scan([], n.value.1, false)
  }

  function Parse(t: string): seq<Event>
    decreases |t|
  {
    if |t| < 2 then []
    else if t[0] == '<' && t[1] != '?' then
      var r := Tag(t[1..]);
      if r.over then r.events else r.events + Parse(r.rest)
    else Parse(t[1..])
  }
}

/** The request text of `simpleUPnPcommand2` and what the parser makes of it. */
module SoapText {
  import opened Sequences
  import opened XmlText

  datatype Arg = Arg(elt: string, val: string)

  const DECLARATION := "?xml version=\"1.0\"?>\r\n"
  const ENVELOPE_URL := "http://schemas.xmlsoap.org/soap/envelope/"
  const ENCODING_URL := "http://schemas.xmlsoap.org/soap/encoding/"

  // --- The text, each piece with what follows it ---

  function Open(name: string, more: string): string { ['<'] + (name + (['>'] + more)) }

  function Close(name: string, more: string): string { ['<'] + (['/'] + (name + (['>'] + more))) }

  function Attr(name: string, value: string, more: string): string {
    [' '] + (name + (['='] + (['"'] + (value + (['"'] + more)))))
  }

  function Prefixed(p: char, name: string): string { [p] + ([':'] + name) }

  function Envelope(url: string, encoding: string, more: string): string {
    ['<'] + (Prefixed('s', "Envelope")
      + Attr("xmlns:s", url, Attr("s:encodingStyle", encoding, ['>'] + more)))
  }

  function Action(service: string, action: string, more: string): string {
    ['<'] + (Prefixed('u', action) + Attr("xmlns:u", service, ['>'] + more))
  }

  function Head(service: string, action: string, more: string): string {
    ['<'] + (DECLARATION
      + Envelope(ENVELOPE_URL, ENCODING_URL, Open(Prefixed('s', "Body"), Action(service, action, more))))
  }

  function ArgText(a: Arg, more: string): string {
    Open(a.elt, a.val + Close(a.elt, more))
  }

  function ArgsText(args: seq<Arg>, more: string): string {
    if args == [] then more else ArgText(args[0], ArgsText(args[1..], more))
  }

  function Foot(action: string): string {
    Close(Prefixed('u', action), Close(Prefixed('s', "Body"), Close(Prefixed('s', "Envelope"), "\r\n")))
  }

  function Request(service: string, action: string, args: seq<Arg>): string {
    Head(service, action, ArgsText(args, Foot(action)))
  }

  // --- What the parser is to report ---

  predicate Without(t: string, stop: char -> bool) {
    forall i :: 0 <= i < |t| ==> !stop(t[i])
  }

  /** A name the parser takes as it stands. */
  predicate LegalName(name: string) {
    && name != "" && name[0] != '?' && name[0] != '!'
    && (forall i :: 0 <= i < |name| ==> !NameEnd(name[i]) && name[i] != ':')
  }

  predicate LegalArg(a: Arg) {
    LegalName(a.elt) && Without(a.val, IsOpen)
  }

  function ArgData(val: string): seq<Event> {
    if val == "" then [] else [Data(val)]
  }

  function ArgEvents(a: Arg): seq<Event> {
    [Start(a.elt)] + ArgData(a.val) + [End(a.elt)]
  }

  function ArgsEvents(args: seq<Arg>): seq<Event> {
    if args == [] then [] else ArgEvents(args[0]) + ArgsEvents(args[1..])
  }

  function HeadEvents(service: string, action: string): seq<Event> {
    [Start("Envelope")] + [Att("xmlns:s", ENVELOPE_URL), Att("s:encodingStyle", ENCODING_URL)]
    + [Start("Body")] + ([Start(action)] + [Att("xmlns:u", service)])
  }

  function FootEvents(action: string): seq<Event> {
    [End(Prefixed('u', action))] + [End(Prefixed('s', "Body"))] + [End(Prefixed('s', "Envelope"))]
  }

  // --- Stretches of text ---

  lemma SpanIs(a: string, b: string, stop: char -> bool)
    requires Without(a, stop) && b != "" && stop(b[0])
    ensures Span(a + b, stop) == |a| && (a + b)[..|a|] == a && (a + b)[|a|..] == b
  {
    assert forall i :: 0 <= i < |a| ==> (a + b)[i] == a[i];
    assert (a + b)[|a|] == b[0];
  }

  lemma {:induction false} PlainName(name: string, b: string, i: nat)
    requires i <= |name| && forall j :: i <= j < |name| ==> !NameEnd(name[j]) && (j > i ==> name[j] != ':')
    requires b != "" && NameEnd(b[0])
    ensures NameAt(name + b, i) == Some((name, b))
    decreases |name| - i
  {
    var t := name + b;
    if i == |name| {
      assert t[i] == b[0] && t[..i] == name && t[i..] == b;
    } else {
      assert t[i] == name[i];
      assert t[i + 1] == if i + 1 < |name| then name[i + 1] else b[0];
      PlainName(name, b, i + 1);
    }
  }

  lemma PrefixedName(p: char, name: string, b: string)
    requires !NameEnd(p) && LegalName(name) && b != "" && NameEnd(b[0])
    ensures NameAt(Prefixed(p, name) + b, 0) == Some((name, b))
  {
    var t := Prefixed(p, name) + b;
    assert t[0] == p && t[1] == ':' && t[2..] == name + b;
    PlainName(name, b, 0);
  }

  // --- Attributes ---

  lemma NameRead(name: string, v: string)
    requires Without(name, AttNameEnd) && v != "" && NotWhite(v[0])
    ensures ValueStart(name + (['='] + v)) == Some((name, v))
  {
    var u := ['='] + v;
    SpanIs(name, u, AttNameEnd);
    assert Span(u, IsEqual) == 0 && u[1..] == v;
    assert Span(v, NotWhite) == 0 && v[0..] == v;
  }

  lemma ValueRead(value: string, more: string)
    requires Without(value, IsQuote)
    ensures ValueAt(['"'] + (value + (['"'] + more))) == Some((value, more))
  {
    var x := value + (['"'] + more);
    var v := ['"'] + x;
    SpanIs(value, ['"'] + more, IsQuote);
    assert v[1..] == x && v[1..1 + |value|] == x[..|value|];
    assert v[|value| + 2..] == x[|value|..][1..];
  }

  lemma AttributeStep(t: string, name: string, v: string, value: string, more: string)
    requires t != "" && t[0] != '/' && t[0] != '>' && !White(t[0])
    requires ValueStart(t) == Some((name, v)) && ValueAt(v) == Some((value, more))
    ensures Attributes([' '] + t) == Attributes(more).(events := [Att(name, value)] + Attributes(more).events)
  {
    assert ([' '] + t)[1..] == t;
  }

  predicate AttName(name: string) {
    name != "" && Without(name, AttNameEnd) && name[0] != '/' && name[0] != '>'
  }

  lemma AttributeRead(name: string, value: string, more: string, a: Scan)
    requires AttName(name) && Without(value, IsQuote) && Attributes(more) == a
    ensures Attributes(Attr(name, value, more)) == a.(events := [Att(name, value)] + a.events)
  {
    var v := ['"'] + (value + (['"'] + more));
    var t := name + (['='] + v);
    NameRead(name, v);
    ValueRead(value, more);
    assert t[0] == name[0] && !AttNameEnd(name[0]);
    AttributeStep(t, name, v, value, more);
  }

  lemma AttributesDone(more: string)
    ensures Attributes(['>'] + more) == Scan([], ['>'] + more, false)
  {
  }

  // --- What stands behind an opening tag ---

  lemma NoCdata(val: string, more: string)
    requires Without(val, IsOpen) && |more| >= 2 && more[0] == '<' && more[1] != '!'
    ensures !(CDATA <= val + more)
  {
    var t := val + more;
    assert val != "" ==> t[0] == val[0];
    assert val == "" ==> t[1] == more[1];
    assert CDATA[0] == '<' && CDATA[1] == '!';
  }

  lemma TextRead(val: string, more: string)
    requires Without(val, IsOpen) && |more| >= 2 && more[0] == '<' && more[1] == '/'
    ensures Content(val + more) == Scan(ArgData(val), more, false)
  {
    var t := val + more;
    var w := Span(t, NotWhite);
    assert t[|val|] == '<' && t[|val| + 1] == '/' && t[..|val|] == val && t[|val|..] == more;
    assert w <= |val|;
    assert t[w..] == val[w..] + more;
    SpanIs(val[w..], more, IsOpen);
    NoCdata(val[w..], more);
  }

  lemma NestedRead(more: string)
    requires |more| >= 2 && more[0] == '<' && more[1] != '!'
    ensures Content(more) == Scan([], more, false)
  {
    assert Span(more, NotWhite) == 0 && more[0..] == more;
    NoCdata("", more);
    assert "" + more == more;
    assert Span(more, IsOpen) == 0;
  }

  lemma OpeningRead(name: string, b: string, a: Scan, more: string, c: Scan)
    requires Attributes(b) == a && !a.over && a.rest == ['>'] + more
    requires Content(more) == c
    ensures Opening(name, b) == c.(events := [Start(name)] + a.events + c.events)
  {
    assert a.rest[1..] == more;
  }

  // --- Tags ---

  lemma ParseTag(t: string, name: string, b: string, r: Scan)
    requires t != "" && t[0] != '?' && name != ""
    requires NameAt(t, 0) == Some((name, b)) && Opening(name, b) == r && !r.over
    ensures Parse(['<'] + t) == r.events + Parse(r.rest)
  {
    assert (['<'] + t)[1..] == t;
  }

  lemma ParseClosing(u: string, name: string, more: string)
    requires u != "" && u[0] == '/' && Span(u[1..], IsClose) == |name| < |u| - 1
    requires u[1..1 + |name|] == name && u[2 + |name|..] == more
    ensures Parse(['<'] + u) == [End(name)] + Parse(more)
  {
    assert (['<'] + u)[1..] == u;
    assert u[..0] == "" && u[0..] == u;
    assert NameAt(u, 0) == Some(("", u));
    assert u[1..][..|name|] == name && u[1..][|name| + 1..] == more;
  }

  lemma ClosingRead(name: string, more: string)
    requires Without(name, IsClose)
    ensures Parse(Close(name, more)) == [End(name)] + Parse(more)
  {
    var c := name + (['>'] + more);
    var u := ['/'] + c;
    assert u[1..] == c;
    SpanIs(name, ['>'] + more, IsClose);
    assert u[1..1 + |name|] == c[..|name|];
    assert u[2 + |name|..] == c[|name|..][1..];
    ParseClosing(u, name, more);
  }

  /** An element without attributes; its name may have a prefix. */
  lemma PlainTag(full: string, name: string, more: string, c: Scan)
    requires full != "" && full[0] != '?' && name != "" && Content(more) == c && !c.over
    requires NameAt(full + (['>'] + more), 0) == Some((name, ['>'] + more))
    ensures Parse(Open(full, more)) == [Start(name)] + c.events + Parse(c.rest)
  {
    var b := ['>'] + more;
    AttributesDone(more);
    OpeningRead(name, b, Scan([], b, false), more, c);
    assert [Start(name)] + [] + c.events == [Start(name)] + c.events;
    assert (full + b)[0] == full[0];
    ParseTag(full + b, name, b, Scan([Start(name)] + c.events, c.rest, false));
  }

  /** An argument: its element once, with exactly its value. */
  lemma ArgRead(a: Arg, more: string)
    requires LegalArg(a)
    ensures Parse(ArgText(a, more)) == ArgEvents(a) + Parse(more)
  {
    var close := Close(a.elt, more);
    CloseBegins(a.elt, more);
    TextRead(a.val, close);
    PlainName(a.elt, ['>'] + (a.val + close), 0);
    PlainTag(a.elt, a.elt, a.val + close, Scan(ArgData(a.val), close, false));
    ClosingRead(a.elt, more);
    Regroup([Start(a.elt)] + ArgData(a.val), [End(a.elt)], Parse(more));
  }

  lemma CloseBegins(name: string, more: string)
    ensures |Close(name, more)| >= 2 && Close(name, more)[0] == '<' && Close(name, more)[1] == '/'
  {
  }

  lemma {:induction false} ArgsRead(args: seq<Arg>, more: string)
    requires forall a :: a in args ==> LegalArg(a)
    ensures Parse(ArgsText(args, more)) == ArgsEvents(args) + Parse(more)
    decreases |args|
  {
    if args != [] {
      assert args[0] in args;
      ArgRead(args[0], ArgsText(args[1..], more));
      ArgsRead(args[1..], more);
      Regroup(ArgEvents(args[0]), ArgsEvents(args[1..]), Parse(more));
    }
  }

  // --- The frame of a request ---

  lemma {:induction false} Skipped(s: string, more: string)
    requires Without(s, IsOpen) && |more| >= 2
    ensures Parse(s + more) == Parse(more)
    decreases |s|
  {
    if s == "" {
      assert s + more == more;
    } else {
      Skipped(s[1..], more);
      assert (s + more)[1..] == s[1..] + more;
    }
  }

  lemma DeclarationRead(s: string, more: string)
    requires Without(s, IsOpen) && s != "" && s[0] == '?' && |more| >= 2
    ensures Parse(['<'] + (s + more)) == Parse(more)
  {
    var t := ['<'] + (s + more);
    assert t[0] == '<' && t[1] == '?' && t[1..] == s + more;
    Skipped(s, more);
  }

  predicate OpensTag(t: string) {
    |t| >= 2 && t[0] == '<' && t[1] != '!'
  }

  lemma PrefixedTag(p: char, name: string, b: string, a: Scan, more: string)
    requires p != '?' && !NameEnd(p) && LegalName(name) && b != "" && NameEnd(b[0])
    requires Attributes(b) == a && !a.over && a.rest == ['>'] + more && OpensTag(more)
    ensures Parse(['<'] + (Prefixed(p, name) + b)) == [Start(name)] + a.events + Parse(more)
  {
    PrefixedName(p, name, b);
    NestedRead(more);
    OpeningRead(name, b, a, more, Scan([], more, false));
    assert [Start(name)] + a.events + [] == [Start(name)] + a.events;
    assert (Prefixed(p, name) + b)[0] == p;
    ParseTag(Prefixed(p, name) + b, name, b, Scan([Start(name)] + a.events, more, false));
  }

  lemma OneAttribute(p: char, name: string, att: string, value: string, more: string)
    requires p != '?' && !NameEnd(p) && LegalName(name)
    requires AttName(att) && Without(value, IsQuote) && OpensTag(more)
    ensures Parse(['<'] + (Prefixed(p, name) + Attr(att, value, ['>'] + more)))
      == [Start(name)] + [Att(att, value)] + Parse(more)
  {
    var end := ['>'] + more;
    AttributesDone(more);
    AttributeRead(att, value, end, Scan([], end, false));
    assert [Att(att, value)] + [] == [Att(att, value)];
    PrefixedTag(p, name, Attr(att, value, end), Scan([Att(att, value)], end, false), more);
  }

  lemma ActionRead(service: string, action: string, more: string)
    requires LegalName(action) && Without(service, IsQuote) && OpensTag(more)
    ensures Parse(Action(service, action, more)) == [Start(action)] + [Att("xmlns:u", service)] + Parse(more)
  {
    OneAttribute('u', action, "xmlns:u", service, more);
  }

  lemma BodyRead(more: string)
    requires OpensTag(more)
    ensures Parse(Open(Prefixed('s', "Body"), more)) == [Start("Body")] + Parse(more)
  {
    PrefixedName('s', "Body", ['>'] + more);
    NestedRead(more);
    PlainTag(Prefixed('s', "Body"), "Body", more, Scan([], more, false));
  }

  lemma TwoAttributes(p: char, name: string, att: string, value: string, att': string, value': string, more: string)
    requires p != '?' && !NameEnd(p) && LegalName(name) && OpensTag(more)
    requires AttName(att) && Without(value, IsQuote) && AttName(att') && Without(value', IsQuote)
    ensures Parse(['<'] + (Prefixed(p, name) + Attr(att, value, Attr(att', value', ['>'] + more))))
      == [Start(name)] + [Att(att, value), Att(att', value')] + Parse(more)
  {
    var end := ['>'] + more;
    var second := Attr(att', value', end);
    AttributesDone(more);
    AttributeRead(att', value', end, Scan([], end, false));
    assert [Att(att', value')] + [] == [Att(att', value')];
    AttributeRead(att, value, second, Scan([Att(att', value')], end, false));
    var both := [Att(att, value), Att(att', value')];
    assert [Att(att, value)] + [Att(att', value')] == both;
    PrefixedTag(p, name, Attr(att, value, second), Scan(both, end, false), more);
  }

  lemma EnvelopeRead(url: string, encoding: string, more: string)
    requires Without(url, IsQuote) && Without(encoding, IsQuote) && OpensTag(more)
    ensures Parse(Envelope(url, encoding, more))
      == [Start("Envelope")] + [Att("xmlns:s", url), Att("s:encodingStyle", encoding)] + Parse(more)
  {
    TwoAttributes('s', "Envelope", "xmlns:s", url, "s:encodingStyle", encoding, more);
  }

  lemma ThreeClosings(a: string, b: string, c: string, more: string)
    requires Without(a, IsClose) && Without(b, IsClose) && Without(c, IsClose) && Parse(more) == []
    ensures Parse(Close(a, Close(b, Close(c, more)))) == [End(a)] + [End(b)] + [End(c)]
  {
    ClosingRead(c, more);
    ClosingRead(b, Close(c, more));
    ClosingRead(a, Close(b, Close(c, more)));
  }

  lemma FootRead(action: string)
    requires LegalName(action)
    ensures Parse(Foot(action)) == FootEvents(action)
  {
    LineEndRead();
    PrefixClean('u', action);
    PrefixClean('s', "Body");
    PrefixClean('s', "Envelope");
    ThreeClosings(Prefixed('u', action), Prefixed('s', "Body"), Prefixed('s', "Envelope"), "\r\n");
  }

  lemma PrefixClean(p: char, name: string)
    requires p != '>' && LegalName(name)
    ensures Without(Prefixed(p, name), IsClose)
  {
  }

  lemma LineEndRead()
    ensures Parse("\r\n") == []
  {
    assert "\r\n"[1..] == "\n";
  }

  lemma FrameIsClean()
    ensures Without(ENVELOPE_URL, IsQuote) && Without(ENCODING_URL, IsQuote) && Without(DECLARATION, IsOpen)
  {
  }

  lemma HeadRead(service: string, action: string, more: string)
    requires LegalName(action) && Without(service, IsQuote) && OpensTag(more)
    ensures Parse(Head(service, action, more)) == HeadEvents(service, action) + Parse(more)
  {
    var a := Action(service, action, more);
    var b := Open(Prefixed('s', "Body"), a);
    FrameIsClean();
    FrameRead(DECLARATION, ENVELOPE_URL, ENCODING_URL, b);
    BodyRead(a);
    ActionRead(service, action, more);
    var e := [Start("Envelope")] + [Att("xmlns:s", ENVELOPE_URL), Att("s:encodingStyle", ENCODING_URL)];
    Regroup(e, [Start("Body")], Parse(a));
    Regroup(e + [Start("Body")], [Start(action)] + [Att("xmlns:u", service)], Parse(more));
  }

  lemma FrameRead(declaration: string, url: string, encoding: string, more: string)
    requires Without(declaration, IsOpen) && declaration != "" && declaration[0] == '?'
    requires Without(url, IsQuote) && Without(encoding, IsQuote) && OpensTag(more)
    ensures Parse(['<'] + (declaration + Envelope(url, encoding, more)))
      == [Start("Envelope")] + [Att("xmlns:s", url), Att("s:encodingStyle", encoding)] + Parse(more)
  {
    EnvelopeRead(url, encoding, more);
    DeclarationRead(declaration, Envelope(url, encoding, more));
  }

  lemma ArgsOpenTag(args: seq<Arg>, action: string)
    requires forall a :: a in args ==> LegalArg(a)
    ensures OpensTag(ArgsText(args, Foot(action)))
  {
    if args != [] {
      var a := args[0];
      assert a in args && ArgText(a, ArgsText(args[1..], Foot(action)))[1] == a.elt[0];
    }
  }

  /** Parsing a request reports each argument once, in order, a non-empty value as one piece of
      data, and no other data. */
  lemma RequestRoundTrip(service: string, action: string, args: seq<Arg>)
    requires LegalName(action) && Without(service, IsQuote) && forall a :: a in args ==> LegalArg(a)
    ensures Parse(Request(service, action, args))
      == HeadEvents(service, action) + (ArgsEvents(args) + FootEvents(action))
  {
    ArgsOpenTag(args, action);
    HeadRead(service, action, ArgsText(args, Foot(action)));
    ArgsRead(args, Foot(action));
    FootRead(action);
  }
}
