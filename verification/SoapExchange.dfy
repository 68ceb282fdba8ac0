/** A request written by `simpleUPnPcommand2` and read by `ParseNameValue`. */
module SoapExchange {
  import opened XmlText
  import opened SoapText
  import opened SoapWriter
  import opened NameValueLists
  import MiniXml

  predicate IsZero(c: char) { c == '\0' }

  /** `strlen`, which decides how much of the buffer is sent. */
  method StringLength(buffer: array<char>) returns (n: nat)
    ensures n == Span(buffer[..], IsZero)
  {
    n := 0;
    assert buffer[0..] == buffer[..];
    while n < buffer.Length && buffer[n] != '\0'
      invariant n <= buffer.Length && n + Span(buffer[n..], IsZero) == Span(buffer[..], IsZero)
    {
      assert buffer[n..][1..] == buffer[n + 1..];
      n := n + 1;
    }
  }

  /** What is written and sent is found again: a name leads to the value of the last argument of
      that name that has one. Nothing is sent if the margin runs out. */
  method Exchange(service: string, action: string, args: seq<Arg>, name: string) returns (sent: bool, found: Option<string>)
    requires LegalName(action) && Without(service, IsQuote) && forall a :: a in args ==> LegalArg(a)
    requires InBounds(Texts(service, action, args), action)
    requires |Request(service, action, args)| < SIZE && Without(Request(service, action, args), IsZero)
    ensures sent <==> AllMargins(Texts(service, action, args))
    ensures sent ==> forall k: nat :: LastAnswer(args, name, k) ==> found == Some(NameValueLists.Cut(args[k].val))
    ensures sent && (forall a :: a in args ==> !Answers(a, name)) ==> found == None
  {
    found := None;
    var soapbody;
    soapbody, sent := WriteRequest(service, action, args);
    if sent {
      ghost var text := Request(service, action, args);
      var n := StringLength(soapbody);
      SameString(soapbody[..], text);
      var data := MiniXml.ParseNameValue(soapbody[..n]);
      found := data.GetValue(name);
      LookupFindsLast(service, action, args, name);
    }
  }

  lemma SameString(buffer: seq<char>, text: string)
    requires |text| < |buffer| && buffer[..|text|] == text && buffer[|text|] == '\0' && Without(text, IsZero)
    ensures Span(buffer, IsZero) == |text|
  {
    SpanIs(text, buffer[|text|..], IsZero);
    assert text + buffer[|text|..] == buffer;
  }
}
