/** Documents of nested elements, and what the parser and the name and value list make of them. */
module XmlDocuments {
  import opened Sequences
  import opened XmlText
  import opened SoapText
  import opened NameValueLists

  /** An attribute with its quote, what stands before it and around its equals sign. */
  datatype Attribute = Attribute(before: string, name: string, left: string, right: string, quote: char, value: string)

  /** The name of an element, with its prefix if it has one, and what follows up to the tag's end. */
  datatype Head = Head(prefix: string, name: string, atts: seq<Attribute>, after: string)

  /** Elements without content, with text, with a CDATA section, and with other elements. */
  datatype Tree =
    | Void(head: Head)
    | Leaf(head: Head, text: string)
    | Section(head: Head, before: string, text: string, after: string)
    | Branch(head: Head, lead: string, first: Tree, tail: string, rest: Forest)

  /** Elements, each with the text behind it. */
  datatype Forest = Done | Then(tree: Tree, tail: string, rest: Forest)

  // --- Writing ---

  function WriteAttribute(a: Attribute, more: string): string {
    a.before + (a.name + (a.left + (['='] + (a.right + ([a.quote] + (a.value + ([a.quote] + more)))))))
  }

  function WriteAttributes(atts: seq<Attribute>, more: string): string {
    if atts == [] then more else WriteAttribute(atts[0], WriteAttributes(atts[1..], more))
  }

  function Full(h: Head): string {
    if h.prefix == "" then h.name else h.prefix + ([':'] + h.name)
  }

  /** Everything between the bracket and the end of an opening tag. */
  function WriteHead(h: Head, more: string): string {
    Full(h) + WriteAttributes(h.atts, h.after + more)
  }

  function Write(t: Tree, more: string): string {
    match t
    case Void(h) => ['<'] + WriteHead(h, "/>" + more)
    case Leaf(h, text) => ['<'] + WriteHead(h, ['>'] + (text + Close(Full(h), more)))
    case Section(h, before, text, after) =>
      ['<'] + WriteHead(h, ['>'] + (before + (CDATA + (text + (CDATA_END + (after + Close(Full(h), more)))))))
    case Branch(h, lead, first, tail, rest) =>
      ['<'] + WriteHead(h, ['>'] + (lead + Write(first, tail + WriteAll(rest, Close(Full(h), more)))))
  }

  function WriteAll(f: Forest, more: string): string {
    match f
    case Done => more
    case Then(t, tail, rest) => Write(t, tail + WriteAll(rest, more))
  }

  // --- What is to be reported ---

  function AttEvents(atts: seq<Attribute>): seq<Event> {
    if atts == [] then [] else [Att(atts[0].name, atts[0].value)] + AttEvents(atts[1..])
  }

  /** A prefix is left out at the start of an element, and not at its end. */
  function Events(t: Tree): seq<Event> {
    var opening := [Start(t.head.name)] + AttEvents(t.head.atts);
    match t
    case Void(_) => opening
    case Leaf(h, text) => opening + ArgData(text) + [End(Full(h))]
    case Section(h, _, text, _) => opening + ArgData(text) + [End(Full(h))]
    case Branch(h, _, first, _, rest) => opening + Events(first) + AllEvents(rest) + [End(Full(h))]
  }

  function AllEvents(f: Forest): seq<Event> {
    match f
    case Done => []
    case Then(t, _, rest) => Events(t) + AllEvents(rest)
  }

  // --- Which documents these are ---

  predicate Blank(s: string) {
    forall i :: 0 <= i < |s| ==> White(s[i])
  }

  predicate LegalAttribute(a: Attribute) {
    && a.before != "" && Blank(a.before) && Blank(a.left) && Blank(a.right) && AttName(a.name)
    && (a.quote == '"' || a.quote == '\'') && forall i :: 0 <= i < |a.value| ==> a.value[i] != a.quote
  }

  predicate LegalHead(h: Head) {
    && LegalName(h.name) && (h.prefix != "" ==> LegalName(h.prefix)) && Blank(h.after)
    && forall a :: a in h.atts ==> LegalAttribute(a)
  }

  /** No end of a section begins before the end of the text. */
  predicate NoEnd(text: string) {
    forall i :: 0 <= i < |text| ==> !(CDATA_END <= (text + CDATA_END)[i..])
  }

  predicate Legal(t: Tree) {
    LegalHead(t.head) &&
    match t
    case Void(_) => true
    case Leaf(_, text) => Without(text, IsOpen)
    case Section(_, before, text, after) => Blank(before) && NoEnd(text) && Without(after, IsOpen)
    case Branch(_, lead, first, tail, rest) => Without(lead, IsOpen) && Legal(first) && Without(tail, IsOpen) && AllLegal(rest)
  }

  predicate AllLegal(f: Forest) {
    match f
    case Done => true
    case Then(t, tail, rest) => Legal(t) && Without(tail, IsOpen) && AllLegal(rest)
  }

  // --- Attributes ---

  lemma {:induction false} BlanksSkipped(s: string, more: string)
    requires Blank(s)
    ensures Attributes(s + more) == Attributes(more)
  {
    if s == "" {
      assert s + more == more;
    } else {
      var rest := s[1..];
      BlanksSkipped(rest, more);
      FirstApart(s, more);
      OneBlank(s[0], rest + more);
    }
  }

  lemma FirstApart(s: string, more: string)
    requires s != ""
    ensures s + more == [s[0]] + (s[1..] + more)
  {
  }

  lemma OneBlank(c: char, t: string)
    requires White(c)
    ensures Attributes([c] + t) == Attributes(t)
  {
    assert ([c] + t)[0] == c && ([c] + t)[1..] == t;
  }

  /** The value of an attribute that is quoted either way. */
  lemma QuotedRead(quote: char, value: string, more: string)
    requires (quote == '"' || quote == '\'') && forall i :: 0 <= i < |value| ==> value[i] != quote
    ensures ValueAt([quote] + (value + ([quote] + more))) == Some((value, more))
  {
    var x := value + ([quote] + more);
    var v := [quote] + x;
    SpanIs(value, [quote] + more, QuoteClass(quote));
    assert v[1..] == x && v[1..1 + |value|] == x[..|value|];
    assert v[|value| + 2..] == x[|value|..][1..];
  }

  /** A value without quotes goes up to the end of the word, and the character that ends it is
      taken along. */
  lemma BareRead(value: string, end: char, more: string)
    requires value != "" && value[0] != '"' && value[0] != '\'' && Without(value, NameEnd) && NameEnd(end)
    ensures ValueAt(value + ([end] + more)) == Some((value, more))
  {
    var v := value + ([end] + more);
    SpanIs(value, [end] + more, NameEnd);
    assert v[0] == value[0];
    assert v[|value| + 1..] == v[|value|..][1..];
  }

  lemma NameFound(name: string, left: string, right: string, v: string)
    requires Without(name, AttNameEnd) && Blank(left) && Blank(right) && v != "" && NotWhite(v[0])
    ensures ValueStart(name + (left + (['='] + (right + v)))) == Some((name, v))
  {
    var e := left + (['='] + (right + v));
    assert e[0] == if left == "" then '=' else left[0];
    SpanIs(name, e, AttNameEnd);
    EqualFound(left, right, v);
  }

  lemma EqualFound(left: string, right: string, v: string)
    requires Blank(left) && Blank(right) && v != "" && NotWhite(v[0])
    ensures AfterEqual(left + (['='] + (right + v))) == Some(v)
  {
    var x := right + v;
    SpanIs(left, ['='] + x, IsEqual);
    SpanIs(right, v, NotWhite);
    assert (left + (['='] + x))[|left| + 1..] == x;
  }

  lemma OneAttribute(a: Attribute, more: string)
    requires LegalAttribute(a)
    ensures Attributes(WriteAttribute(a, more)) == Attributes(more).(events := [Att(a.name, a.value)] + Attributes(more).events)
  {
    var v := [a.quote] + (a.value + ([a.quote] + more));
    var t := a.name + (a.left + (['='] + (a.right + v)));
    BlanksSkipped(a.before, t);
    NameFound(a.name, a.left, a.right, v);
    QuotedRead(a.quote, a.value, more);
    assert t[0] == a.name[0] && !AttNameEnd(a.name[0]);
    WordRead(t, a.name, v, a.value, more);
  }

  lemma WordRead(t: string, name: string, v: string, value: string, more: string)
    requires t != "" && t[0] != '/' && t[0] != '>' && !White(t[0])
    requires ValueStart(t) == Some((name, v)) && ValueAt(v) == Some((value, more))
    ensures Attributes(t) == Attributes(more).(events := [Att(name, value)] + Attributes(more).events)
  {
  }

  lemma {:induction false} AttributesRead(atts: seq<Attribute>, more: string)
    requires forall a :: a in atts ==> LegalAttribute(a)
    ensures Attributes(WriteAttributes(atts, more))
      == Attributes(more).(events := AttEvents(atts) + Attributes(more).events)
  {
    if atts == [] {
      assert [] + Attributes(more).events == Attributes(more).events;
    } else {
      assert atts[0] in atts;
      OneAttribute(atts[0], WriteAttributes(atts[1..], more));
      AttributesRead(atts[1..], more);
      Regroup([Att(atts[0].name, atts[0].value)], AttEvents(atts[1..]), Attributes(more).events);
    }
  }

  // --- Tags ---

  lemma {:induction false} PrefixSkipped(prefix: string, i: nat, name: string, b: string)
    requires i < |prefix| && LegalName(prefix) && LegalName(name) && b != "" && NameEnd(b[0])
    ensures NameAt(prefix + ([':'] + name) + b, i) == Some((name, b))
    decreases |prefix| - i
  {
    var t := prefix + ([':'] + name) + b;
    assert t[i] == prefix[i];
    if i + 1 == |prefix| {
      assert t[i + 1] == ':' && t[i + 2..] == name + b;
      PlainName(name, b, 0);
    } else {
      assert t[i + 1] == prefix[i + 1];
      PrefixSkipped(prefix, i + 1, name, b);
    }
  }

  /** What follows the name of an element. */
  function Behind(h: Head, more: string): string {
    WriteAttributes(h.atts, h.after + more)
  }

  lemma BehindBegins(h: Head, more: string)
    requires LegalHead(h) && more != "" && NameEnd(more[0])
    ensures Behind(h, more) != "" && NameEnd(Behind(h, more)[0])
  {
    if h.atts != [] {
      var a := h.atts[0];
      assert a in h.atts && Behind(h, more)[0] == a.before[0];
    } else if h.after != "" {
      assert Behind(h, more)[0] == h.after[0];
    }
  }

  lemma NameFirst(h: Head, b: string)
    requires LegalHead(h) && b != "" && NameEnd(b[0])
    ensures NameAt(Full(h) + b, 0) == Some((h.name, b))
  {
    if h.prefix == "" {
      PlainName(h.name, b, 0);
    } else {
      PrefixSkipped(h.prefix, 0, h.name, b);
    }
  }

  /** An opening tag is read as its name, its attributes, and then its content. */
  lemma HeadIsRead(h: Head, more: string, c: Scan)
    requires LegalHead(h) && Content(more) == c && !c.over
    ensures Parse(['<'] + WriteHead(h, ['>'] + more)) == [Start(h.name)] + AttEvents(h.atts) + c.events + Parse(c.rest)
  {
    var b := Behind(h, ['>'] + more);
    BehindBegins(h, ['>'] + more);
    NameFirst(h, b);
    AttributesDone(more);
    BlanksSkipped(h.after, ['>'] + more);
    AttributesRead(h.atts, h.after + (['>'] + more));
    var a := Scan(AttEvents(h.atts), ['>'] + more, false);
    assert AttEvents(h.atts) + [] == AttEvents(h.atts);
    OpeningRead(h.name, b, a, more, c);
    FullFirst(h, b);
    ParseTag(Full(h) + b, h.name, b, Scan([Start(h.name)] + a.events + c.events, c.rest, false));
  }

  lemma FullFirst(h: Head, b: string)
    requires LegalHead(h)
    ensures Full(h) != "" && (Full(h) + b)[0] == Full(h)[0] && Full(h)[0] != '?' && Full(h)[0] != '!' && Full(h)[0] != '/'
    ensures Without(Full(h), IsClose)
  {
    var first := if h.prefix == "" then h.name else h.prefix;
    assert Full(h)[0] == first[0] && !NameEnd(first[0]);
  }

  /** An element without content ends where it begins; its end is not reported. */
  lemma VoidIsRead(h: Head, more: string)
    requires LegalHead(h)
    ensures Parse(['<'] + WriteHead(h, "/>" + more)) == [Start(h.name)] + AttEvents(h.atts) + Parse(more)
  {
    var end := "/>" + more;
    var b := Behind(h, end);
    BehindBegins(h, end);
    NameFirst(h, b);
    assert end[0] == '/';
    assert Attributes(end) == Scan([], end, false);
    BlanksSkipped(h.after, end);
    AttributesRead(h.atts, h.after + end);
    assert AttEvents(h.atts) + [] == AttEvents(h.atts);
    FullFirst(h, b);
    ParseTag(Full(h) + b, h.name, b, Scan([Start(h.name)] + AttEvents(h.atts), end, false));
    EndSkipped(more);
  }

  lemma EndSkipped(more: string)
    ensures Parse("/>" + more) == Parse(more)
  {
    var t := "/>" + more;
    assert t[0] == '/' && t[1..] == ">" + more && (">" + more)[1..] == more;
    assert |more| > 0 ==> (">" + more)[0] == '>';
  }

  // --- Content ---

  lemma {:induction false} SectionSpan(text: string, more: string)
    requires NoEnd(text)
    ensures CdataSpan(text + (CDATA_END + more)) == |text|
  {
    var t := text + (CDATA_END + more);
    if text == "" {
      assert CDATA_END <= t;
    } else {
      assert (text + CDATA_END)[0..] == text + CDATA_END;
      assert !(CDATA_END <= t) by {
        assert t[..3] == (text + CDATA_END)[..3];
      }
      assert t[1..] == text[1..] + (CDATA_END + more);
      forall i | 0 <= i < |text[1..]| ensures !(CDATA_END <= (text[1..] + CDATA_END)[i..]) {
        assert (text[1..] + CDATA_END)[i..] == (text + CDATA_END)[i + 1..];
      }
      SectionSpan(text[1..], more);
    }
  }

  /** A section is reported as one piece of data, with brackets and all; what stands around it is not. */
  lemma SectionRead(before: string, text: string, after: string, more: string)
    requires Blank(before) && NoEnd(text) && Without(after, IsOpen) && |more| >= 2 && more[0] == '<'
    ensures Content(before + (CDATA + (text + (CDATA_END + (after + more))))) == Scan(ArgData(text), more, false)
  {
    var behind := text + (CDATA_END + (after + more));
    SpanIs(before, CDATA + behind, NotWhite);
    assert (CDATA + behind)[9..] == behind && CDATA <= CDATA + behind;
    InsideRead(text, after, more);
  }

  lemma InsideRead(text: string, after: string, more: string)
    requires NoEnd(text) && Without(after, IsOpen) && |more| >= 2 && more[0] == '<'
    ensures CdataContent(text + (CDATA_END + (after + more))) == Scan(ArgData(text), more, false)
  {
    var behind, end := text + (CDATA_END + (after + more)), CDATA_END + after;
    SectionSpan(text, after + more);
    EndThenMore(text, after, more);
    SpanIs(end, more, IsOpen);
  }

  lemma EndThenMore(text: string, after: string, more: string)
    requires Without(after, IsOpen)
    ensures var behind, end := text + (CDATA_END + (after + more)), CDATA_END + after;
      && behind[..|text|] == text && behind[|text|..] == end + more && behind[|text| + |end|..] == more && Without(end, IsOpen)
  {
  }

  /** Text before another element is not reported. */
  lemma LeadRead(lead: string, more: string)
    requires Without(lead, IsOpen) && |more| >= 2 && more[0] == '<' && more[1] != '!' && more[1] != '/'
    ensures Content(lead + more) == Scan([], more, false)
  {
    var t := lead + more;
    var w := Span(t, NotWhite);
    assert t[|lead|] == '<' && t[|lead| + 1] == more[1] && t[|lead|..] == more;
    assert w <= |lead|;
    assert t[w..] == lead[w..] + more;
    SpanIs(lead[w..], more, IsOpen);
    NoCdata(lead[w..], more);
  }

  lemma WriteBegins(t: Tree, more: string)
    requires Legal(t)
    ensures var s := Write(t, more); |s| >= 2 && s[0] == '<' && s[1] != '!' && s[1] != '/' && s[1] != '?'
  {
    FullFirst(t.head, "");
    assert Write(t, more)[1] == Full(t.head)[0];
  }

  lemma WriteAllBegins(f: Forest, more: string)
    requires AllLegal(f) && |more| >= 2
    ensures |WriteAll(f, more)| >= 2
  {
    match f
    case Done =>
    case Then(t, tail, rest) => WriteBegins(t, tail + WriteAll(rest, more));
  }

  // --- Round trip ---

  /** Every such document is reported as what it is, whatever follows it. */
  lemma {:induction false} TreeRead(t: Tree, more: string)
    requires Legal(t)
    ensures Parse(Write(t, more)) == Events(t) + Parse(more)
    decreases t
  {
    var h := t.head;
    var close := Close(Full(h), more);
    CloseBegins(Full(h), more);
    FullFirst(h, "");
    ClosingRead(Full(h), more);
    var opening := [Start(h.name)] + AttEvents(h.atts);
    match t
    case Void(_) => VoidIsRead(h, more);
    case Leaf(_, text) =>
      TextRead(text, close);
      HeadIsRead(h, text + close, Scan(ArgData(text), close, false));
      Regroup(opening + ArgData(text), [End(Full(h))], Parse(more));
    case Section(_, before, text, after) =>
      SectionRead(before, text, after, close);
      HeadIsRead(h, before + (CDATA + (text + (CDATA_END + (after + close)))), Scan(ArgData(text), close, false));
      Regroup(opening + ArgData(text), [End(Full(h))], Parse(more));
    case Branch(_, lead, first, tail, rest) => BranchRead(t, more);
  }

  lemma {:induction false} BranchRead(t: Tree, more: string)
    requires Legal(t) && t.Branch?
    ensures Parse(Write(t, more)) == Events(t) + Parse(more)
    decreases t, 0
  {
    var h, close := t.head, Close(Full(t.head), more);
    CloseBegins(Full(h), more);
    FullFirst(h, "");
    ClosingRead(Full(h), more);
    var others := WriteAll(t.rest, close);
    var inside := Write(t.first, t.tail + others);
    WriteBegins(t.first, t.tail + others);
    LeadRead(t.lead, inside);
    HeadIsRead(h, t.lead + inside, Scan([], inside, false));
    TreeRead(t.first, t.tail + others);
    WriteAllBegins(t.rest, close);
    Skipped(t.tail, others);
    ForestRead(t.rest, close);
    var opening := [Start(h.name)] + AttEvents(h.atts);
    assert opening + [] == opening;
    FiveParts(opening, Events(t.first), AllEvents(t.rest), [End(Full(h))], Parse(more));
  }

  lemma FiveParts<T>(a: seq<T>, b: seq<T>, c: seq<T>, d: seq<T>, e: seq<T>)
    ensures a + (b + (c + (d + e))) == a + b + c + d + e
  {
  }

  lemma {:induction false} ForestRead(f: Forest, more: string)
    requires AllLegal(f) && |more| >= 2
    ensures Parse(WriteAll(f, more)) == AllEvents(f) + Parse(more)
    decreases f
  {
    match f
    case Done => assert [] + Parse(more) == Parse(more);
    case Then(t, tail, rest) =>
      var others := WriteAll(rest, more);
      TreeRead(t, tail + others);
      WriteAllBegins(rest, more);
      Skipped(tail, others);
      ForestRead(rest, more);
      Regroup(Events(t), AllEvents(rest), Parse(more));
  }

  // --- Names and values ---

  /** The elements with text or a section, in the order of the document. */
  function Pairs(t: Tree): seq<Arg> {
    match t
    case Void(_) => []
    case Leaf(h, text) => [Arg(h.name, text)]
    case Section(h, _, text, _) => [Arg(h.name, text)]
    case Branch(_, _, first, _, rest) => Pairs(first) + AllPairs(rest)
  }

  function AllPairs(f: Forest): seq<Arg> {
    match f
    case Done => []
    case Then(t, _, rest) => Pairs(t) + AllPairs(rest)
  }

  ghost predicate SameNames(d: Names, e: Names) {
    d.list == e.list && d.listing == e.listing
  }

  lemma {:induction false} ArgsConcat(a: seq<Arg>, b: seq<Arg>)
    ensures ArgsEvents(a + b) == ArgsEvents(a) + ArgsEvents(b)
  {
    if a == [] {
      assert a + b == b;
    } else {
      assert (a + b)[1..] == a[1..] + b;
      ArgsConcat(a[1..], b);
      Regroup(ArgEvents(a[0]), ArgsEvents(a[1..]), ArgsEvents(b));
    }
  }

  lemma AttsAreSilent(atts: seq<Attribute>)
    ensures forall e :: e in AttEvents(atts) ==> e.Att?
  {
  }

  /** Attributes and ends change nothing, and whichever element came last is forgotten with the next. */
  lemma PairHeard(h: Head, text: string, end: string, d: Names, e: Names)
    requires SameNames(d, e)
    ensures SameNames(HearAll(d, [Start(h.name)] + AttEvents(h.atts) + ArgData(text) + [End(end)]),
                      HearAll(e, ArgEvents(Arg(h.name, text))))
  {
    var opening := [Start(h.name)] + AttEvents(h.atts);
    HearConcat(d, opening + ArgData(text), [End(end)]);
    HearConcat(d, opening, ArgData(text));
    OpeningHeard(h, d);
    HearConcat(e, [Start(h.name)] + ArgData(text), [End(h.name)]);
    HearConcat(e, [Start(h.name)], ArgData(text));
    HearOne(e, Start(h.name));
    var x, y := HearAll(d, opening), Hear(e, Start(h.name));
    if text != "" { HearOne(x, Data(text)); HearOne(y, Data(text)); }
    HearOne(HearAll(x, ArgData(text)), End(end));
    HearOne(HearAll(y, ArgData(text)), End(h.name));
  }

  lemma OpeningHeard(h: Head, d: Names)
    ensures HearAll(d, [Start(h.name)] + AttEvents(h.atts)) == d.(curelt := Cut(h.name))
  {
    HearConcat(d, [Start(h.name)], AttEvents(h.atts));
    HearOne(d, Start(h.name));
    AttsHeard(h.atts, Hear(d, Start(h.name)));
  }

  lemma {:induction false} AttsHeard(atts: seq<Attribute>, d: Names)
    ensures HearAll(d, AttEvents(atts)) == d
  {
    if atts != [] {
      AttsHeard(atts[1..], d);
      HearConcat(d, [Att(atts[0].name, atts[0].value)], AttEvents(atts[1..]));
      HearOne(d, Att(atts[0].name, atts[0].value));
    }
  }

  lemma {:induction false} TreeHeard(t: Tree, d: Names, e: Names)
    requires SameNames(d, e)
    ensures SameNames(HearAll(d, Events(t)), HearAll(e, ArgsEvents(Pairs(t))))
    decreases t
  {
    var h := t.head;
    match t
    case Void(_) => OpeningHeard(h, d);
    case Leaf(_, text) => PairHeard(h, text, Full(h), d, e); OneArg(Arg(h.name, text));
    case Section(_, _, text, _) => PairHeard(h, text, Full(h), d, e); OneArg(Arg(h.name, text));
    case Branch(_, _, first, _, rest) =>
      var opening := [Start(h.name)] + AttEvents(h.atts);
      HearConcat(d, opening + Events(first) + AllEvents(rest), [End(Full(h))]);
      HearConcat(d, opening + Events(first), AllEvents(rest));
      HearConcat(d, opening, Events(first));
      OpeningHeard(h, d);
      TreeHeard(first, HearAll(d, opening), e);
      ArgsConcat(Pairs(first), AllPairs(rest));
      HearConcat(e, ArgsEvents(Pairs(first)), ArgsEvents(AllPairs(rest)));
      var x := HearAll(HearAll(d, opening), Events(first));
      ForestHeard(rest, x, HearAll(e, ArgsEvents(Pairs(first))));
      HearOne(HearAll(x, AllEvents(rest)), End(Full(h)));
  }

  lemma OneArg(a: Arg)
    ensures ArgsEvents([a]) == ArgEvents(a)
  {
    assert [a][1..] == [] && ArgEvents(a) + [] == ArgEvents(a);
  }

  lemma {:induction false} ForestHeard(f: Forest, d: Names, e: Names)
    requires SameNames(d, e)
    ensures SameNames(HearAll(d, AllEvents(f)), HearAll(e, ArgsEvents(AllPairs(f))))
    decreases f
  {
    match f
    case Done =>
    case Then(t, _, rest) =>
      HearConcat(d, Events(t), AllEvents(rest));
      TreeHeard(t, d, e);
      ArgsConcat(Pairs(t), AllPairs(rest));
      HearConcat(e, ArgsEvents(Pairs(t)), ArgsEvents(AllPairs(rest)));
      ForestHeard(rest, HearAll(d, Events(t)), HearAll(e, ArgsEvents(Pairs(t))));
  }

  /** The element is a port listing that says something. */
  ghost predicate IsListing(a: Arg) {
    a.elt == "NewPortListing" && a.val != ""
  }

  lemma {:induction false} ListingHeard(d: Names, args: seq<Arg>)
    ensures var listing := HearAll(d, ArgsEvents(args)).listing;
      && (forall k :: 0 <= k < |args| && IsListing(args[k]) && (forall j :: k < j < |args| ==> !IsListing(args[j])) ==>
            listing == Some(args[k].val))
      && ((forall k :: 0 <= k < |args| ==> !IsListing(args[k])) ==> listing == d.listing)
    decreases |args|
  {
    if args != [] {
      var first, rest := args[0], args[1..];
      HearConcat(d, ArgEvents(first), ArgsEvents(rest));
      var e := HearAll(d, ArgEvents(first));
      ArgListing(d, first);
      ListingHeard(e, rest);
      assert forall j :: 0 < j < |args| ==> args[j] == rest[j - 1];
    }
  }

  lemma ArgListing(d: Names, a: Arg)
    ensures HearAll(d, ArgEvents(a)).listing == if IsListing(a) then Some(a.val) else d.listing
  {
    var e := d.(curelt := Cut(a.elt));
    HearConcat(d, [Start(a.elt)] + ArgData(a.val), [End(a.elt)]);
    HearConcat(d, [Start(a.elt)], ArgData(a.val));
    HearOne(d, Start(a.elt));
    assert Cut(a.elt) == LISTING <==> a.elt == "NewPortListing";
    if a.val != "" { HearOne(e, Data(a.val)); }
    HearOne(HearAll(e, ArgData(a.val)), End(a.elt));
  }

  /** What is known of a document once it is parsed: a name leads to the value of the last element of
      that name that has one. */
  lemma DocumentLookup(t: Tree, name: string)
    requires Legal(t)
    ensures var list, args := HearAll(NOTHING, Parse(Write(t, ""))).list, Pairs(t);
      && (forall k: nat :: LastAnswer(args, name, k) ==> Lookup(list, name) == Some(Cut(args[k].val)))
      && ((forall a :: a in args ==> !Answers(a, name)) ==> Lookup(list, name) == None)
  {
    DocumentHeard(t);
    HearArgs(NOTHING, Pairs(t), name);
  }

  /** The port listing is that of the last element of this name that has one, whole. */
  lemma DocumentListing(t: Tree)
    requires Legal(t)
    ensures var listing, args := HearAll(NOTHING, Parse(Write(t, ""))).listing, Pairs(t);
      && (forall k :: 0 <= k < |args| && IsListing(args[k]) && (forall j :: k < j < |args| ==> !IsListing(args[j])) ==>
            listing == Some(args[k].val))
      && ((forall k :: 0 <= k < |args| ==> !IsListing(args[k])) ==> listing == None)
  {
    DocumentHeard(t);
    ListingHeard(NOTHING, Pairs(t));
  }

  lemma DocumentHeard(t: Tree)
    requires Legal(t)
    ensures SameNames(HearAll(NOTHING, Parse(Write(t, ""))), HearAll(NOTHING, ArgsEvents(Pairs(t))))
  {
    TreeRead(t, "");
    assert Events(t) + [] == Events(t);
    TreeHeard(t, NOTHING, NOTHING);
  }
}
