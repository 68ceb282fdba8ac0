/** `strcpyxml` of status.c: escaping a string into a buffer of limited size. */
module XmlEscape {

  import opened Sequences

  type Bytes = seq<nat>

  const QUOT: nat := 0x22
  const AMP: nat := 0x26
  const LT: nat := 0x3C
  const GT: nat := 0x3E

  const QUOT_REF: Bytes := [0x26, 0x71, 0x75, 0x6F, 0x74, 0x3B]
  const LT_REF: Bytes := [0x26, 0x6C, 0x74, 0x3B]
  const GT_REF: Bytes := [0x26, 0x67, 0x74, 0x3B]
  const AMP_REF: Bytes := [0x26, 0x61, 0x6D, 0x70, 0x3B]

  /** The text one character is replaced by. */
  function Token(c: nat): (t: Bytes)
    ensures t != []
  {
    if c == QUOT then QUOT_REF
    else if c == LT then LT_REF
    else if c == GT then GT_REF
    else if c == AMP then AMP_REF
    else [c]
  }

  function Escape(s: Bytes): Bytes {
    if s == [] then [] else Token(s[0]) + Escape(s[1..])
  }

  /** One character of an escaped text and how long its spelling is: the predefined entities
      of section 4.6 of XML 1.0. A stray ampersand stands for itself. */
  function FirstOf(t: Bytes): (r: (nat, nat))
    requires t != []
    ensures 0 < r.1 <= |t|
  {
    if QUOT_REF <= t then (QUOT, 6)
    else if LT_REF <= t then (LT, 4)
    else if GT_REF <= t then (GT, 4)
    else if AMP_REF <= t then (AMP, 5)
    else (t[0], 1)
  }

  function Unescape(t: Bytes): Bytes
    decreases |t|
  {
    if t == [] then [] else [FirstOf(t).0] + Unescape(t[FirstOf(t).1..])
  }

  function Codes(text: string): (r: Bytes)
    ensures |r| == |text| && forall i :: 0 <= i < |r| ==> r[i] == text[i] as nat
  {
    seq(|text|, i requires 0 <= i < |text| => text[i] as nat)
  }

  /** The four characters that are replaced, and by what; all others stay. */
  lemma Replaced(c: nat)
    ensures Token(c) ==
      if c == '"' as nat then Codes("&quot;")
      else if c == '<' as nat then Codes("&lt;")
      else if c == '>' as nat then Codes("&gt;")
      else if c == '&' as nat then Codes("&amp;")
      else [c]
  {
  }

  /** Escaping goes character by character. */
  lemma {:induction false} EscapeJoined(s: Bytes, t: Bytes)
    ensures Escape(s + t) == Escape(s) + Escape(t)
  {
    if s == [] {
      assert s + t == t;
    } else {
      var rest := s[1..];
      assert (s + t)[0] == s[0] && (s + t)[1..] == rest + t;
      EscapeJoined(rest, t);
      Regroup(Token(s[0]), Escape(rest), Escape(t));
    }
  }

  lemma FirstOfToken(c: nat, more: Bytes)
    ensures FirstOf(Token(c) + more) == (c, |Token(c)|)
  {
    var t := Token(c) + more;
    assert t[..|Token(c)|] == Token(c);
    if c == QUOT { assert QUOT_REF <= t; }
    else if c == LT { assert t[1] == 0x6C; assert LT_REF <= t; }
    else if c == GT { assert t[1] == 0x67; assert GT_REF <= t; }
    else if c == AMP { assert t[1] == 0x61; assert AMP_REF <= t; }
    else { assert t[0] == c != AMP; }
  }

  lemma TokenThenMore(c: nat, more: Bytes)
    ensures Unescape(Token(c) + more) == [c] + Unescape(more)
  {
    FirstOfToken(c, more);
    assert (Token(c) + more)[|Token(c)|..] == more;
  }

  lemma EscapeLast(s: Bytes, c: nat)
    ensures Escape(s + [c]) == Escape(s) + Token(c)
  {
    EscapeJoined(s, [c]);
    assert [c][1..] == [] && Token(c) + [] == Token(c);
  }

  /** Unescaping undoes escaping, for every string. */
  lemma {:induction false} RoundTrip(s: Bytes)
    ensures Unescape(Escape(s)) == s
  {
    if s != [] {
      TokenThenMore(s[0], Escape(s[1..]));
      RoundTrip(s[1..]);
    }
  }

  lemma {:induction false} EscapeGrows(s: Bytes, n: nat, m: nat)
    requires n <= m <= |s|
    ensures |Escape(s[..n])| + (m - n) <= |Escape(s[..m])|
    decreases m
  {
    if n < m {
      EscapeGrows(s, n, m - 1);
      NextFit(s, m - 1);
    }
  }

  /** Escaped text holds no character that XML would take for markup in an attribute. */
  lemma {:induction false} EscapedIsSafe(s: Bytes)
    ensures forall b :: b in Escape(s) ==> b != LT && b != GT && b != QUOT
  {
    if s != [] {
      EscapedIsSafe(s[1..]);
      var t := Token(s[0]);
      assert forall b :: b in t ==> b != LT && b != GT && b != QUOT;
    }
  }

  /** n characters are the longest beginning whose escaped form fits with its terminator. */
  ghost predicate LongestFit(s: Bytes, size: nat, n: nat) {
    && n <= |s| && |Escape(s[..n])| < size
    && (n < |s| ==> |Escape(s[..n + 1])| >= size)
  }

  lemma LongestFitUnique(s: Bytes, size: nat, n: nat, m: nat)
    requires LongestFit(s, size, n) && LongestFit(s, size, m)
    ensures n == m
  {
    if n < m {
      EscapeGrows(s, n + 1, m);
    } else if m < n {
      EscapeGrows(s, m + 1, n);
    }
  }

  lemma FitsWhole(s: Bytes, size: nat, n: nat)
    requires LongestFit(s, size, n)
    ensures n == |s| <==> |Escape(s)| < size
  {
    assert s[..|s|] == s;
    if n < |s| { EscapeGrows(s, n + 1, |s|); }
  }

  lemma NextFit(s: Bytes, i: nat)
    requires i < |s|
    ensures Escape(s[..i + 1]) == Escape(s[..i]) + Token(s[i])
  {
    EscapeLast(s[..i], s[i]);
    assert s[..i + 1] == s[..i] + [s[i]];
  }

  /** `strcpy(out + written, token)`; the terminator is there already. */
  method Write(out: array<nat>, written: nat, token: Bytes)
    requires written + |token| < out.Length
    modifies out
    ensures out[..written] == old(out[..written])
    ensures out[written..written + |token|] == token
    ensures forall i :: written + |token| <= i < out.Length ==> out[i] == old(out[i])
  {
    for i := 0 to |token|
      invariant out[..written] == old(out[..written])
      invariant out[written..written + i] == token[..i]
      invariant forall j :: written + |token| <= j < out.Length ==> out[j] == old(out[j])
    {
      out[written + i] := token[i];
      assert out[written..written + i + 1] == out[written..written + i] + [token[i]];
    }
  }

  /** `written += strlen(token)` behind the copy. */
  method Append(out: array<nat>, written: nat, token: Bytes) returns (now: nat)
    requires written + |token| < out.Length && forall i :: written <= i < out.Length ==> out[i] == 0
    modifies out
    ensures now == written + |token| && out[..now] == old(out[..written]) + token
    ensures forall i :: now <= i < out.Length ==> out[i] == 0
  {
    Write(out, written, token);
    now := written + |token|;
    assert out[..now] == out[..written] + out[written..now];
  }

  method Clear(out: array<nat>)
    modifies out
    ensures forall i :: 0 <= i < out.Length ==> out[i] == 0
  {
    for j := 0 to out.Length
      invariant forall i :: 0 <= i < j ==> out[i] == 0
    {
      out[j] := 0;
    }
  }

  /** The buffer holds the escaped form of the longest beginning of the input that fits with
      its terminator, and zeros behind it; unescaping gives that beginning back. */
  method StrCpyXml(out: array<nat>, input: Bytes) returns (ghost n: nat)
    requires out.Length > 0
    modifies out
    ensures LongestFit(input, out.Length, n)
    ensures out[..|Escape(input[..n])|] == Escape(input[..n])
    ensures forall i :: |Escape(input[..n])| <= i < out.Length ==> out[i] == 0
    ensures Unescape(out[..|Escape(input[..n])|]) == input[..n]
    ensures |Escape(input)| < out.Length ==> n == |input|
  {
    Clear(out);
    var written, i := 0, 0;
    n := 0;
    while i < |input|
      invariant n <= i <= |input| && written == |Escape(input[..n])| < out.Length
      invariant n < i ==> |Escape(input[..n + 1])| >= out.Length && out.Length - written <= 1
      invariant out[..written] == Escape(input[..n])
      invariant forall j :: written <= j < out.Length ==> out[j] == 0
    {
      var token := Token(input[i]);
      if out.Length - written > |token| {
        NextFit(input, i);
        written := Append(out, written, token);
        n := n + 1;
      } else {
        if n == i { NextFit(input, i); }
        if |token| > 1 {
          break;
        }
      }
      i := i + 1;
    }
    assert input[..|input|] == input;
    RoundTrip(input[..n]);
    FitsWhole(input, out.Length, n);
  }
}
