/** `simpleUPnPcommand2` writing its request into a buffer of fixed size. */
module SoapWriter {
  import opened Sequences
  import opened XmlText
  import opened SoapText

  const SIZE: nat := 2048
  const MARGIN: nat := 100
  /** The last closing tag of a request begins with it. */
  const CLOSING := "</u:"

  // --- Text grows at its end ---

  lemma OpenGrows(name: string, a: string, b: string)
    ensures Open(name, a) + b == Open(name, a + b)
  {
    Regroup(['>'], a, b);
    Regroup(name, ['>'] + a, b);
    Regroup(['<'], name + (['>'] + a), b);
  }

  lemma CloseGrows(name: string, a: string, b: string)
    ensures Close(name, a) + b == Close(name, a + b)
  {
    Regroup(['>'], a, b);
    Regroup(name, ['>'] + a, b);
    Regroup(['/'], name + (['>'] + a), b);
    Regroup(['<'], ['/'] + (name + (['>'] + a)), b);
  }

  lemma AttrGrows(name: string, value: string, a: string, b: string)
    ensures Attr(name, value, a) + b == Attr(name, value, a + b)
  {
    var quoted := value + (['"'] + a);
    Regroup(['"'], a, b);
    Regroup(value, ['"'] + a, b);
    Regroup(['"'], quoted, b);
    Regroup(['='], ['"'] + quoted, b);
    Regroup(name, ['='] + (['"'] + quoted), b);
    Regroup([' '], name + (['='] + (['"'] + quoted)), b);
  }

  lemma ActionGrows(service: string, action: string, a: string, b: string)
    ensures Action(service, action, a) + b == Action(service, action, a + b)
  {
    var att := Attr("xmlns:u", service, ['>'] + a);
    Regroup(['>'], a, b);
    AttrGrows("xmlns:u", service, ['>'] + a, b);
    Regroup(Prefixed('u', action), att, b);
    Regroup(['<'], Prefixed('u', action) + att, b);
  }

  lemma EnvelopeGrows(url: string, encoding: string, a: string, b: string)
    ensures Envelope(url, encoding, a) + b == Envelope(url, encoding, a + b)
  {
    var style := Attr("s:encodingStyle", encoding, ['>'] + a);
    var att := Attr("xmlns:s", url, style);
    Regroup(['>'], a, b);
    AttrGrows("s:encodingStyle", encoding, ['>'] + a, b);
    AttrGrows("xmlns:s", url, style, b);
    Regroup(Prefixed('s', "Envelope"), att, b);
    Regroup(['<'], Prefixed('s', "Envelope") + att, b);
  }

  lemma FrameGrows(declaration: string, url: string, encoding: string, a: string, b: string)
    ensures ['<'] + (declaration + Envelope(url, encoding, a)) + b
      == ['<'] + (declaration + Envelope(url, encoding, a + b))
  {
    EnvelopeGrows(url, encoding, a, b);
    Regroup(declaration, Envelope(url, encoding, a), b);
    Regroup(['<'], declaration + Envelope(url, encoding, a), b);
  }

  lemma HeadGrows(service: string, action: string, a: string, b: string)
    ensures Head(service, action, a) + b == Head(service, action, a + b)
  {
    ActionGrows(service, action, a, b);
    OpenGrows(Prefixed('s', "Body"), Action(service, action, a), b);
    FrameGrows(DECLARATION, ENVELOPE_URL, ENCODING_URL, Open(Prefixed('s', "Body"), Action(service, action, a)), b);
  }

  lemma ArgGrows(arg: Arg, a: string, b: string)
    ensures ArgText(arg, a) + b == ArgText(arg, a + b)
  {
    CloseGrows(arg.elt, a, b);
    Regroup(arg.val, Close(arg.elt, a), b);
    OpenGrows(arg.elt, arg.val + Close(arg.elt, a), b);
  }

  lemma {:induction false} ArgsGrow(args: seq<Arg>, a: string, b: string)
    ensures ArgsText(args, a) + b == ArgsText(args, a + b)
    decreases |args|
  {
    if args != [] {
      ArgsGrow(args[1..], a, b);
      ArgGrows(args[0], ArgsText(args[1..], a), b);
    }
  }

  lemma {:induction false} ArgsNext(args: seq<Arg>, k: nat, more: string)
    requires k < |args|
    ensures ArgsText(args[..k + 1], more) == ArgsText(args[..k], ArgText(args[k], more))
    decreases k
  {
    if k == 0 {
      assert args[..1][1..] == [];
    } else {
      ArgsNext(args[1..], k - 1, more);
      assert args[..k + 1][1..] == args[1..][..k] && args[..k][1..] == args[1..][..k - 1];
    }
  }

  // --- The buffer ---

  /** The request as far as the first k arguments. */
  function Begun(service: string, action: string, args: seq<Arg>, k: nat): string
    requires k <= |args|
  {
    Head(service, action, ArgsText(args[..k], ""))
  }

  lemma BegunNext(service: string, action: string, args: seq<Arg>, k: nat)
    requires k < |args|
    ensures Begun(service, action, args, k + 1) == Begun(service, action, args, k) + ArgText(args[k], "")
  {
    ArgsNext(args, k, "");
    ArgsGrow(args[..k], "", ArgText(args[k], ""));
    Empty(ArgText(args[k], ""));
    HeadGrows(service, action, ArgsText(args[..k], ""), ArgText(args[k], ""));
  }

  lemma Empty(s: string)
    ensures "" + s == s
  {
  }

  lemma BegunAll(service: string, action: string, args: seq<Arg>)
    ensures Begun(service, action, args, |args|) + Foot(action) == Request(service, action, args)
  {
    assert args[..|args|] == args;
    ArgsGrow(args, "", Foot(action));
    Empty(Foot(action));
    HeadGrows(service, action, ArgsText(args, ""), Foot(action));
  }

  /** The texts that stand in the buffer after the first arguments. */
  ghost function Texts(service: string, action: string, args: seq<Arg>): seq<string> {
    seq(|args| + 1, k requires 0 <= k <= |args| => Begun(service, action, args, k))
  }

  /** More than the margin is left before each argument. */
  ghost predicate AllMargins(texts: seq<string>) {
    forall k: nat :: k + 1 < |texts| ==> |texts[k]| + MARGIN < SIZE
  }

  /** No character is written behind the buffer: neither by an argument that follows the margin
      test, nor by the last closing tag up to its name. What follows that name is cut. */
  ghost predicate InBounds(texts: seq<string>, action: string) {
    && |texts| > 0
    && (forall k: nat :: k + 1 < |texts| && |texts[k]| + MARGIN < SIZE ==> |texts[k + 1]| <= SIZE)
    && (AllMargins(texts) ==> |texts[|texts| - 1]| + |CLOSING| + |action| <= SIZE)
  }

  /** The end of the furthest piece that the unchecked copy loops write from argument k on. */
  ghost function Reach(texts: seq<string>, action: string, k: nat): nat
    requires k < |texts|
    decreases |texts| - k
  {
    if k + 1 == |texts| then |texts[k]| + |CLOSING| + |action|
    else if SIZE <= |texts[k]| + MARGIN then 0
    else
      var more := Reach(texts, action, k + 1);
      if |texts[k + 1]| > more then |texts[k + 1]| else more
  }

  lemma {:induction false} ReachFrom(texts: seq<string>, action: string, k: nat)
    requires k < |texts|
    requires forall i, j :: 0 <= i <= j < |texts| ==> |texts[i]| <= |texts[j]|
    ensures Reach(texts, action, k) <= SIZE <==>
      && (forall i: nat :: k <= i && i + 1 < |texts| && |texts[i]| + MARGIN < SIZE ==> |texts[i + 1]| <= SIZE)
      && ((forall i: nat :: k <= i && i + 1 < |texts| ==> |texts[i]| + MARGIN < SIZE)
          ==> |texts[|texts| - 1]| + |CLOSING| + |action| <= SIZE)
    decreases |texts| - k
  {
    if k + 1 < |texts| && |texts[k]| + MARGIN < SIZE { ReachFrom(texts, action, k + 1); }
  }

  /** The copy loops stay inside the buffer if and only if the bounds are kept. */
  lemma StaysInside(service: string, action: string, args: seq<Arg>)
    ensures var texts := Texts(service, action, args);
      Reach(texts, action, 0) <= SIZE <==> InBounds(texts, action)
  {
    TextsGrow(service, action, args);
    GrowingStaysInside(Texts(service, action, args), action, args);
  }

  lemma GrowingStaysInside(texts: seq<string>, action: string, args: seq<Arg>)
    requires Growing(texts, args)
    ensures Reach(texts, action, 0) <= SIZE <==> InBounds(texts, action)
  {
    forall i, j | 0 <= i <= j < |texts| ensures |texts[i]| <= |texts[j]| {
      LengthsGrow(texts, args, i, j);
    }
    ReachFrom(texts, action, 0);
  }

  lemma {:induction false} LengthsGrow(texts: seq<string>, args: seq<Arg>, i: nat, j: nat)
    requires Growing(texts, args) && i <= j < |texts|
    ensures |texts[i]| <= |texts[j]|
    decreases j
  {
    if i < j {
      LengthsGrow(texts, args, i, j - 1);
      assert texts[j] == texts[j - 1] + ArgText(args[j - 1], "");
    }
  }

  /** An argument takes two names, a value and five brackets. */
  lemma ArgLength(a: Arg)
    ensures |ArgText(a, "")| == 2 * |a.elt| + |a.val| + 5
  {
    ArgFlat(a);
  }

  /** The margin does not protect the buffer: an argument that comes in time, but is longer than
      what is left, overruns it. */
  lemma LongArgumentOverruns(service: string, action: string, a: Arg)
    requires |Head(service, action, "")| + MARGIN < SIZE
    ensures InBounds(Texts(service, action, [a]), action) ==>
      |Head(service, action, "")| + 2 * |a.elt| + |a.val| + 5 <= SIZE
  {
    var texts := Texts(service, action, [a]);
    TextsGrow(service, action, [a]);
    ArgLength(a);
    assert texts[0] == Begun(service, action, [a], 0) && [a][..0] == [];
    assert texts[1] == texts[0] + ArgText(a, "");
  }

  lemma HeadLength(service: string, action: string)
    ensures |Head(service, action, "")| == 170 + |service| + |action|
  {
    assert |DECLARATION| == 22 && |ENVELOPE_URL| == 41 && |ENCODING_URL| == 41;
  }

  /** The characters of some arguments: each name twice, the value, and five brackets and slashes. */
  ghost function Lengths(args: seq<Arg>): nat {
    if args == [] then 0
    else var a := args[|args| - 1]; Lengths(args[..|args| - 1]) + 2 * |a.elt| + |a.val| + 5
  }

  lemma {:induction false} GrowingLength(texts: seq<string>, args: seq<Arg>, k: nat)
    requires Growing(texts, args) && k <= |args|
    ensures |texts[k]| == |texts[0]| + Lengths(args[..k])
  {
    if k == 0 {
      assert args[..0] == [];
    } else {
      GrowingLength(texts, args, k - 1);
      ArgLength(args[k - 1]);
      LengthsNext(args, k - 1);
    }
  }

  lemma LengthsNext(args: seq<Arg>, k: nat)
    requires k < |args|
    ensures Lengths(args[..k + 1]) == Lengths(args[..k]) + 2 * |args[k].elt| + |args[k].val| + 5
  {
    assert args[..k + 1][..k] == args[..k];
  }

  /** The margin test in numbers of characters. */
  lemma MarginsInCharacters(service: string, action: string, args: seq<Arg>)
    ensures AllMargins(Texts(service, action, args)) <==>
      forall k :: 0 <= k < |args| ==> 170 + |service| + |action| + Lengths(args[..k]) + 100 < 2048
  {
    var texts := Texts(service, action, args);
    TextsGrow(service, action, args);
    FirstText(service, action, args);
    forall k | 0 <= k < |args| ensures |texts[k]| == 170 + |service| + |action| + Lengths(args[..k]) {
      GrowingLength(texts, args, k);
    }
  }

  lemma FirstText(service: string, action: string, args: seq<Arg>)
    ensures |Texts(service, action, args)[0]| == 170 + |service| + |action|
  {
    HeadLength(service, action);
    assert args[..0] == [];
  }

  /** A value of 2048 characters breaks the bounds, however short everything else is. */
  lemma OverrunExample()
    ensures !InBounds(Texts("s", "a", [Arg("x", seq(2048, i => 'x'))]), "a")
  {
    HeadLength("s", "a");
    LongArgumentOverruns("s", "a", Arg("x", seq(2048, i => 'x')));
  }

  /** `*(p++) = *(pe++)` up to the terminator. */
  method Put(buffer: array<char>, p: nat, s: string) returns (q: nat)
    requires p + |s| <= buffer.Length
    modifies buffer
    ensures q == p + |s| && buffer[..q] == old(buffer[..p]) + s
  {
    for i := 0 to |s|
      invariant buffer[..p + i] == old(buffer[..p]) + s[..i]
    {
      buffer[p + i] := s[i];
    }
    q := p + |s|;
  }

  method PutArg(buffer: array<char>, p: nat, a: Arg) returns (q: nat)
    requires p + |ArgText(a, "")| <= buffer.Length
    modifies buffer
    ensures q == p + |ArgText(a, "")| && buffer[..q] == old(buffer[..p]) + ArgText(a, "")
  {
    ghost var start := buffer[..p];
    ArgFlat(a);
    q := Put(buffer, p, "<");
    q := Put(buffer, q, a.elt);
    q := Put(buffer, q, ">");
    q := Put(buffer, q, a.val);
    q := Put(buffer, q, "</");
    q := Put(buffer, q, a.elt);
    q := Put(buffer, q, ">");
    SevenPieces(start, "<", a.elt, ">", a.val, "</", a.elt, ">");
  }

  lemma ArgFlat(a: Arg)
    ensures ArgText(a, "") == "<" + (a.elt + (">" + (a.val + ("</" + (a.elt + ">")))))
  {
    assert ['>'] + "" == ">";
    Regroup("<", "/", a.elt + ">");
    assert "<" + "/" == "</";
  }

  lemma SevenPieces(s: string, a: string, b: string, c: string, d: string, e: string, f: string, g: string)
    ensures s + a + b + c + d + e + f + g == s + (a + (b + (c + (d + (e + (f + g))))))
  {
    Regroup(s + a + b + c + d + e, f, g);
    Regroup(s + a + b + c + d, e, f + g);
    Regroup(s + a + b + c, d, e + (f + g));
    Regroup(s + a + b, c, d + (e + (f + g)));
    Regroup(s + a, b, c + (d + (e + (f + g))));
    Regroup(s, a, b + (c + (d + (e + (f + g)))));
  }

  /** What stands behind the action's name at the end. */
  function Tail(): string {
    ['>'] + Close(Prefixed('s', "Body"), Close(Prefixed('s', "Envelope"), "\r\n"))
  }

  lemma FootFlat(action: string)
    ensures Foot(action) == CLOSING + action + Tail()
  {
    Regroup("u:", action, Tail());
    Regroup("</", "u:", action + Tail());
    assert ['u'] + ([':'] + action) == "u:" + action;
    Regroup("<", "/", ("u:" + action) + Tail());
    assert "<" + "/" == "</" && "</" + "u:" == "</u:";
    Regroup("</u:", action, Tail());
  }

  /** Each text is the one before and the next argument. */
  ghost predicate Growing(texts: seq<string>, args: seq<Arg>) {
    && |texts| == |args| + 1
    && (forall k: nat :: k < |args| ==> texts[k + 1] == texts[k] + ArgText(args[k], ""))
  }

  lemma TextsGrow(service: string, action: string, args: seq<Arg>)
    ensures Growing(Texts(service, action, args), args)
  {
    forall k: nat | k < |args|
      ensures Begun(service, action, args, k + 1) == Begun(service, action, args, k) + ArgText(args[k], "")
    {
      BegunNext(service, action, args, k);
    }
  }

  /** The arguments, unless the margin runs out before one of them. The head may have been cut. */
  method PutArgs(buffer: array<char>, p: nat, ghost texts: seq<string>, args: seq<Arg>)
    returns (q: nat, ok: bool)
    requires Growing(texts, args)
    requires buffer.Length == SIZE && p == |texts[0]| && (args == [] ==> p < SIZE)
    requires p < SIZE ==> buffer[..p] == texts[0]
    requires forall k: nat :: k < |args| && |texts[k]| + MARGIN < SIZE ==> |texts[k + 1]| <= SIZE
    modifies buffer
    ensures ok <==> AllMargins(texts)
    ensures ok ==> q <= SIZE && buffer[..q] == texts[|args|]
  {
    q := p;
    var k := 0;
    while k < |args|
      invariant k <= |args| && q == |texts[k]|
      invariant forall j: nat :: j < k ==> |texts[j]| + MARGIN < SIZE
      invariant k > 0 || q < SIZE ==> q <= SIZE && buffer[..q] == texts[k]
    {
      if SIZE <= q + MARGIN {
        return q, false;
      }
      assert texts[k + 1] == texts[k] + ArgText(args[k], "");
      q := PutArg(buffer, q, args[k]);
      k := k + 1;
    }
    ok := true;
  }

  /** `snprintf` of the head: cut to the buffer with its terminator; the length is that of the
      whole head. */
  method PrintHead(buffer: array<char>, head: string) returns (length: nat)
    requires buffer.Length == SIZE
    modifies buffer
    ensures length == |head| && (length < SIZE ==> buffer[..length] == head)
  {
    length := |head|;
    var kept := if length < SIZE then head else head[..SIZE - 1];
    var q := Put(buffer, 0, kept);
    buffer[q] := '\0';
    Empty(kept);
    assert buffer[..0] == [];
    assert buffer[..q] == kept;
  }

  function Cut(s: string, n: nat): string {
    if |s| > n then s[..n] else s
  }

  /** The request as far as the buffer holds it, and zeros behind it: the whole request as a
      string if it is shorter than the buffer. Nothing exactly if the margin runs out before
      some argument. */
  method WriteRequest(service: string, action: string, args: seq<Arg>) returns (soapbody: array<char>, ok: bool)
    requires InBounds(Texts(service, action, args), action)
    ensures soapbody.Length == SIZE
    ensures ok <==> AllMargins(Texts(service, action, args))
    ensures var text := Cut(Request(service, action, args), SIZE);
      ok ==> soapbody[..|text|] == text && forall i :: |text| <= i < SIZE ==> soapbody[i] == '\0'
  {
    ghost var texts := Texts(service, action, args);
    TextsGrow(service, action, args);
    TextsEnds(service, action, args);
    soapbody, ok := WritePieces(Head(service, action, ""), action, args, texts);
  }

  lemma TextsEnds(service: string, action: string, args: seq<Arg>)
    ensures var texts := Texts(service, action, args);
      texts[0] == Head(service, action, "") && texts[|args|] + Foot(action) == Request(service, action, args)
  {
    assert args[..0] == [];
    BegunAll(service, action, args);
  }

  method WritePieces(head: string, action: string, args: seq<Arg>, ghost texts: seq<string>)
    returns (soapbody: array<char>, ok: bool)
    requires Growing(texts, args) && InBounds(texts, action) && texts[0] == head
    ensures soapbody.Length == SIZE && (ok <==> AllMargins(texts))
    ensures var text := Cut(texts[|args|] + Foot(action), SIZE);
      ok ==> soapbody[..|text|] == text && forall i :: |text| <= i < SIZE ==> soapbody[i] == '\0'
  {
    soapbody := new char[SIZE](_ => '\0');
    var p := PrintHead(soapbody, head);
    p, ok := PutArgs(soapbody, p, texts, args);
    if ok {
      PutFoot(soapbody, p, action);
    }
  }

  /** The closing tags, cut at the buffer's end, and zeros up to it. */
  method PutFoot(buffer: array<char>, p: nat, action: string)
    requires buffer.Length == SIZE && p + |CLOSING| + |action| <= SIZE
    modifies buffer
    ensures var text := Cut(old(buffer[..p]) + Foot(action), SIZE);
      buffer[..|text|] == text && forall i :: |text| <= i < SIZE ==> buffer[i] == '\0'
  {
    ghost var start := buffer[..p];
    var q := Put(buffer, p, CLOSING);
    q := Put(buffer, q, action);
    FootText(start, action);
    CopyCut(buffer, q, Tail());
  }

  /** `strncpy` up to the buffer's end. */
  method CopyCut(buffer: array<char>, p: nat, s: string)
    requires buffer.Length == SIZE && p <= SIZE
    modifies buffer
    ensures var text := Cut(old(buffer[..p]) + s, SIZE);
      buffer[..|text|] == text && forall i :: |text| <= i < SIZE ==> buffer[i] == '\0'
  {
    var kept := if |s| > SIZE - p then s[..SIZE - p] else s;
    ghost var text := Cut(buffer[..p] + s, SIZE);
    assert text == buffer[..p] + kept;
    var q := Put(buffer, p, kept);
    for i := q to SIZE
      invariant buffer[..q] == text
      invariant forall j :: q <= j < i ==> buffer[j] == '\0'
    {
      buffer[i] := '\0';
    }
  }

  lemma FootText(start: string, action: string)
    ensures start + CLOSING + action + Tail() == start + Foot(action)
  {
    FootFlat(action);
    Regroup(start + CLOSING, action, Tail());
    Regroup(start, CLOSING, action + Tail());
    Regroup(CLOSING, action, Tail());
  }
}
