/** The chunked transfer coding of RFC 7230, section 4.1: a decoder that reads one byte after
    the other, and what it makes of an encoded body. */
module ChunkedCoding {

  import opened Sequences

  type Bytes = seq<bv8>

  const CR: bv8 := 0x0D
  const LF: bv8 := 0x0A
  /** How many digits of a chunk size are kept. */
  const DIGITS: nat := 31
  /** Sizes from here on are negative as the source's `int`. */
  const INT_LIMIT: nat := 0x8000_0000

  datatype Phase =
    | Between | CrSkipped | LfSkipped
    | Size(digits: Bytes)
    | Body(left: nat)
    | End
    | Bad

  datatype Decoder = Decoder(phase: Phase, content: Bytes)

  const START := Decoder(Between, [])

  predicate IsHex(b: bv8) {
    0x30 <= b <= 0x39 || 0x41 <= b <= 0x46 || 0x61 <= b <= 0x66
  }

  function Digit(b: bv8): (d: nat)
    requires IsHex(b)
    ensures d < 16
  {
    if b <= 0x39 then b as nat - 0x30
    else if b <= 0x46 then b as nat - 0x41 + 10
    else b as nat - 0x61 + 10
  }

  predicate AllHex(digits: Bytes) {
    forall b :: b in digits ==> IsHex(b)
  }

  function Value(digits: Bytes): nat
    requires AllHex(digits)
  {
    if digits == [] then 0 else Value(digits[..|digits| - 1]) * 16 + Digit(digits[|digits| - 1])
  }

  /** What follows a complete chunk-size line. */
  function Sized(digits: Bytes): Phase {
    if !AllHex(digits) then Bad
    else if Value(digits) == 0 then End
    else if Value(digits) < INT_LIMIT then Body(Value(digits))
    else Bad
  }

  /** Between two chunks one line end may stand; sizes have at most 31 digits and no chunk
      extension; everything after the last chunk is ignored. */
  function NextPhase(p: Phase, b: bv8): Phase {
    match p
    case Between =>
      if IsHex(b) then Size([b]) else if b == CR then CrSkipped else if b == LF then LfSkipped else Bad
    case CrSkipped =>
      if IsHex(b) then Size([b]) else if b == LF then LfSkipped else Bad
    case LfSkipped =>
      if IsHex(b) then Size([b]) else Bad
    case Size(digits) =>
      if IsHex(b) && |digits| < DIGITS then Size(digits + [b])
      else if b == CR then p
      else if b == LF then Sized(digits)
      else Bad
    case Body(left) => if left <= 1 then Between else Body(left - 1)
    case End => End
    case Bad => Bad
  }

  function Next(d: Decoder, b: bv8): Decoder {
    Decoder(NextPhase(d.phase, b), if d.phase.Body? then d.content + [b] else d.content)
  }

  function After(d: Decoder, stream: Bytes): Decoder
    decreases |stream|
  {
    if stream == [] then d else After(Next(d, stream[0]), stream[1..])
  }

  // --- The encoding ---

  const LOWER := "0123456789abcdef"
  const UPPER := "0123456789ABCDEF"

  /** A number printed in hexadecimal. */
  function Hex(n: nat, alphabet: string): string
    requires |alphabet| == 16
  {
    (if n < 16 then [] else Hex(n / 16, alphabet)) + [alphabet[n % 16]]
  }

  /** The bytes of a text. */
  predicate Prints(digits: Bytes, text: string) {
    |digits| == |text| && forall i :: 0 <= i < |text| ==> digits[i] as int == text[i] as int
  }

  /** The number in hexadecimal, each digit in one alphabet or the other, behind any zeros. */
  predicate Spells(digits: Bytes, n: nat) {
    if digits == [] then n == 0
    else
      var last := |digits| - 1;
      var code := digits[last] as int;
      Spells(digits[..last], n / 16) && (code == LOWER[n % 16] as int || code == UPPER[n % 16] as int)
  }

  predicate SizeLine(digits: Bytes, n: nat) {
    0 < |digits| <= DIGITS && Spells(digits, n)
  }

  /** A chunk: the spelling of its size and the end of that line, its payload and what separates
      it from the next size. */
  datatype Chunk = Chunk(size: Bytes, eol: Bytes, payload: Bytes, gap: Bytes)

  /** A size line ends in a line feed, and at most one carriage return and one line feed stand
      between two chunks. */
  predicate WellFormed(c: Chunk) {
    && 0 < |c.payload| < INT_LIMIT && SizeLine(c.size, |c.payload|)
    && LineEnd(c.eol) && (c.gap == [] || c.gap == [CR] || LineEnd(c.gap))
  }

  predicate LineEnd(s: Bytes) {
    s == [CR, LF] || s == [LF]
  }

  function Encode(chunks: seq<Chunk>): Bytes {
    if chunks == [] then []
    else chunks[0].size + chunks[0].eol + chunks[0].payload + chunks[0].gap + Encode(chunks[1..])
  }

  function Payloads(chunks: seq<Chunk>): Bytes {
    if chunks == [] then [] else chunks[0].payload + Payloads(chunks[1..])
  }

  // --- Sizes ---

  /** The digits as they are printed and as they are read. */
  lemma DigitRead(b: bv8, v: nat)
    requires v < 16 && (b as int == LOWER[v] as int || b as int == UPPER[v] as int)
    ensures IsHex(b) && Digit(b) == v
  {
    assert LOWER[v] as int == if v < 10 then 0x30 + v else 0x61 + (v - 10);
    assert UPPER[v] as int == if v < 10 then 0x30 + v else 0x41 + (v - 10);
  }

  lemma DigitPrinted(b: bv8)
    requires IsHex(b)
    ensures b as int == LOWER[Digit(b)] as int || b as int == UPPER[Digit(b)] as int
  {
    var n := b as int;
    if b <= 0x39 {
      assert LOWER[n - 0x30] as int == n;
    } else if b <= 0x46 {
      assert UPPER[n - 0x41 + 10] as int == n;
    } else {
      assert LOWER[n - 0x61 + 10] as int == n;
    }
  }

  lemma LastDigit(b: bv8, v: nat)
    requires v < 16
    ensures b as int == LOWER[v] as int || b as int == UPPER[v] as int <==> IsHex(b) && Digit(b) == v
  {
    if b as int == LOWER[v] as int || b as int == UPPER[v] as int {
      DigitRead(b, v);
    } else if IsHex(b) {
      DigitPrinted(b);
    }
  }

  /** The size read from digits is n exactly when they spell n. */
  lemma {:induction false} SpelledValue(digits: Bytes, n: nat)
    ensures Spells(digits, n) <==> AllHex(digits) && Value(digits) == n
  {
    if digits != [] {
      var last := |digits| - 1;
      var rest, b := digits[..last], digits[last];
      assert digits == rest + [b];
      SpelledValue(rest, n / 16);
      LastDigit(b, n % 16);
      assert AllHex(digits) <==> AllHex(rest) && IsHex(b);
    }
  }

  ghost function Zeros(k: nat): string { seq(k, _ => '0') }

  /** A printed number is read as itself, in both alphabets and with leading zeros. */
  lemma PrintedValue(digits: Bytes, n: nat, zeros: nat, alphabet: string)
    requires (alphabet == LOWER || alphabet == UPPER) && Prints(digits, Zeros(zeros) + Hex(n, alphabet))
    ensures Spells(digits, n) && AllHex(digits) && Value(digits) == n
  {
    PrintedSpells(digits, n, zeros, alphabet);
    SpelledValue(digits, n);
  }

  lemma {:induction false} PrintedSpells(digits: Bytes, n: nat, zeros: nat, alphabet: string)
    requires (alphabet == LOWER || alphabet == UPPER) && Prints(digits, Zeros(zeros) + Hex(n, alphabet))
    ensures Spells(digits, n)
    decreases n
  {
    var before := if n < 16 then [] else Hex(n / 16, alphabet);
    var rest := digits[..|digits| - 1];
    assert digits[|digits| - 1] as int == alphabet[n % 16] as int;
    assert Prints(rest, Zeros(zeros) + before);
    if n < 16 {
      ZerosSpell(rest);
    } else {
      PrintedSpells(rest, n / 16, zeros, alphabet);
    }
  }

  lemma {:induction false} ZerosSpell(digits: Bytes)
    requires forall i :: 0 <= i < |digits| ==> digits[i] as int == '0' as int
    ensures Spells(digits, 0)
  {
    if digits != [] { ZerosSpell(digits[..|digits| - 1]); }
  }

  // --- Reading an encoded body ---

  lemma {:induction false} AfterConcat(d: Decoder, s: Bytes, t: Bytes)
    ensures After(d, s + t) == After(After(d, s), t)
    decreases |s|
  {
    if s == [] {
      assert s + t == t;
    } else {
      AfterConcat(Next(d, s[0]), s[1..], t);
      assert (s + t)[1..] == s[1..] + t;
    }
  }

  lemma {:induction false} BadStays(d: Decoder, s: Bytes)
    requires d.phase == Bad
    ensures After(d, s).phase == Bad
    decreases |s|
  {
    if s != [] { BadStays(Next(d, s[0]), s[1..]); }
  }

  lemma {:induction false} EndStays(d: Decoder, s: Bytes)
    requires d.phase == End
    ensures After(d, s) == d
    decreases |s|
  {
    if s != [] { EndStays(Next(d, s[0]), s[1..]); }
  }

  lemma {:induction false} BodyTakes(d: Decoder, s: Bytes)
    requires d.phase.Body? && 0 < |s| <= d.phase.left
    ensures After(d, s).content == d.content + s
    ensures After(d, s).phase == if |s| == d.phase.left then Between else Body(d.phase.left - |s|)
    decreases |s|
  {
    var e := Next(d, s[0]);
    if |s| == 1 {
      assert After(e, s[1..]) == e;
    } else {
      BodyTakes(e, s[1..]);
      assert d.content + [s[0]] + s[1..] == d.content + s;
    }
  }

  lemma {:induction false} DigitsCollect(d: Decoder, more: Bytes)
    requires d.phase.Size? && |d.phase.digits| + |more| <= DIGITS && AllHex(more)
    ensures After(d, more) == d.(phase := Size(d.phase.digits + more))
    decreases |more|
  {
    if more == [] {
      assert d.phase.digits + [] == d.phase.digits;
    } else {
      assert more[0] in more;
      var e := Next(d, more[0]);
      DigitsCollect(e, more[1..]);
      assert d.phase.digits + [more[0]] + more[1..] == d.phase.digits + more;
    }
  }

  /** A size line read between two chunks. */
  lemma SizeRead(d: Decoder, digits: Bytes, eol: Bytes)
    requires d.phase in {Between, CrSkipped, LfSkipped} && 0 < |digits| <= DIGITS && AllHex(digits) && LineEnd(eol)
    ensures After(d, digits + eol) == d.(phase := Sized(digits))
  {
    assert digits[0] in digits;
    var e := Next(d, digits[0]);
    AfterConcat(d, digits[..1], digits[1..]);
    assert digits[..1] == [digits[0]] && digits[..1] + digits[1..] == digits;
    OneByte(d, digits[0]);
    DigitsCollect(e, digits[1..]);
    assert [digits[0]] + digits[1..] == digits;
    var f := d.(phase := Size(digits));
    assert After(d, digits) == f;
    AfterConcat(d, digits, eol);
    if |eol| == 1 { OneByte(f, LF); } else { TwoBytes(f, CR, LF); }
  }

  lemma OneByte(d: Decoder, b: bv8)
    ensures After(d, [b]) == Next(d, b)
  {
    assert [b][1..] == [];
  }

  lemma TwoBytes(d: Decoder, a: bv8, b: bv8)
    ensures After(d, [a, b]) == Next(Next(d, a), b)
  {
    assert [a, b][1..] == [b];
    OneByte(Next(d, a), b);
  }

  lemma GapRead(d: Decoder, gap: Bytes)
    requires d.phase == Between && (gap == [] || gap == [CR] || LineEnd(gap))
    ensures After(d, gap).phase in {Between, CrSkipped, LfSkipped} && After(d, gap).content == d.content
  {
    if |gap| == 1 {
      OneByte(d, gap[0]);
    } else if |gap| == 2 {
      TwoBytes(d, CR, LF);
    }
  }

  lemma ChunkRead(d: Decoder, c: Chunk)
    requires d.phase in {Between, CrSkipped, LfSkipped} && WellFormed(c)
    ensures var e := After(d, c.size + c.eol + c.payload + c.gap);
      e.phase in {Between, CrSkipped, LfSkipped} && e.content == d.content + c.payload
  {
    SpelledValue(c.size, |c.payload|);
    SizeRead(d, c.size, c.eol);
    var e := d.(phase := Body(|c.payload|));
    AfterConcat(d, c.size + c.eol, c.payload);
    BodyTakes(e, c.payload);
    AfterConcat(d, c.size + c.eol + c.payload, c.gap);
    GapRead(Decoder(Between, d.content + c.payload), c.gap);
  }

  lemma {:induction false} ChunksRead(d: Decoder, chunks: seq<Chunk>)
    requires d.phase in {Between, CrSkipped, LfSkipped} && forall c :: c in chunks ==> WellFormed(c)
    ensures After(d, Encode(chunks)).phase in {Between, CrSkipped, LfSkipped}
    ensures After(d, Encode(chunks)).content == d.content + Payloads(chunks)
    decreases |chunks|
  {
    if chunks == [] {
      assert d.content + [] == d.content;
    } else {
      var c, rest := chunks[0], chunks[1..];
      assert c in chunks;
      var text := c.size + c.eol + c.payload + c.gap;
      ChunkRead(d, c);
      AfterConcat(d, text, Encode(rest));
      ChunksRead(After(d, text), rest);
      Regroup(d.content, c.payload, Payloads(rest));
    }
  }

  /** An encoded body decodes to its payloads, whatever spelling and line ends its sizes have,
      whatever stands between its chunks, and whatever follows the last one. */
  lemma EncodedDecodes(chunks: seq<Chunk>, last: Bytes, eol: Bytes, trailer: Bytes)
    requires forall c :: c in chunks ==> WellFormed(c)
    requires SizeLine(last, 0) && LineEnd(eol)
    ensures After(START, Encode(chunks) + last + eol + trailer) == Decoder(End, Payloads(chunks))
  {
    ChunksRead(START, chunks);
    assert [] + Payloads(chunks) == Payloads(chunks);
    var d := After(START, Encode(chunks));
    AfterConcat(START, Encode(chunks), last + eol);
    assert Encode(chunks) + (last + eol) == Encode(chunks) + last + eol;
    SpelledValue(last, 0);
    SizeRead(d, last, eol);
    AfterConcat(START, Encode(chunks) + last + eol, trailer);
    EndStays(Decoder(End, Payloads(chunks)), trailer);
  }

  /** A printed number is a size line, unless zeros make it too long. */
  lemma PrintedSize(digits: Bytes, n: nat, zeros: nat, alphabet: string)
    requires (alphabet == LOWER || alphabet == UPPER) && Prints(digits, Zeros(zeros) + Hex(n, alphabet))
    ensures SizeLine(digits, n) <==> |digits| <= DIGITS
  {
    PrintedSpells(digits, n, zeros, alphabet);
  }
}

/** The decoding loops of `getHTTPResponse` in miniwget.c, without a Content-Length. */
module ChunkedBody {
  import opened ChunkedCoding

  const UINT_MOD: nat := 0x1_0000_0000

  function Joined(parts: seq<Bytes>): Bytes {
    if parts == [] then [] else parts[0] + Joined(parts[1..])
  }

  // --- Reading on from the middle of a part ---

  /** Where the decoder ends up when it goes on from byte i of a part. */
  ghost function Onward(d: Decoder, part: Bytes, i: nat, later: Bytes): Decoder
    requires i <= |part|
  {
    After(d, part[i..] + later)
  }

  lemma OnwardStep(d: Decoder, part: Bytes, i: nat, later: Bytes)
    requires i < |part|
    ensures Onward(d, part, i, later) == Onward(Next(d, part[i]), part, i + 1, later)
  {
    var s := part[i..] + later;
    assert s[0] == part[i] && s[1..] == part[i + 1..] + later;
  }

  lemma OnwardMany(d: Decoder, part: Bytes, i: nat, m: nat, later: Bytes)
    requires i <= m <= |part|
    ensures Onward(d, part, i, later) == Onward(After(d, part[i..m]), part, m, later)
  {
    AfterConcat(d, part[i..m], part[m..] + later);
    assert part[i..m] + (part[m..] + later) == part[i..] + later;
  }

  /** A stream that turns out well is not bad on the way. */
  lemma GoodSoFar(d: Decoder, part: Bytes, i: nat, later: Bytes)
    requires i <= |part| && Onward(d, part, i, later).phase != Bad
    ensures d.phase != Bad
    ensures i < |part| ==> Next(d, part[i]).phase != Bad
  {
    if d.phase == Bad { BadStays(d, part[i..] + later); }
    if i < |part| && Next(d, part[i]).phase == Bad {
      OnwardStep(d, part, i, later);
      BadStays(Next(d, part[i]), part[i + 1..] + later);
    }
  }

  // --- The code ---

  /** The decoder's phase as the code holds it: a chunk size and the digits read so far. */
  ghost predicate Holds(p: Phase, chunksize: nat, digits: Bytes) {
    && (chunksize > 0 ==> p == Body(chunksize) && chunksize < INT_LIMIT && digits == [])
    && (chunksize == 0 && digits != [] ==> p == Size(digits) && |digits| <= DIGITS && AllHex(digits))
    && (chunksize == 0 && digits == [] ==> p in {Between, CrSkipped, LfSkipped})
  }

  /** Skipping the line end before a size. */
  method SkipLineEnd(part: Bytes, from: nat, ghost d0: Decoder, ghost later: Bytes)
    returns (i: nat, ghost d: Decoder)
    requires from < |part| && Holds(d0.phase, 0, []) && Onward(d0, part, from, later).phase != Bad
    ensures from <= i <= |part| && Holds(d.phase, 0, []) && d.content == d0.content
    ensures Onward(d, part, i, later) == Onward(d0, part, from, later)
    ensures i < |part| ==> IsHex(part[i])
  {
    i, d := from, d0;
    GoodSoFar(d, part, i, later);
    if part[i] == CR {
      OnwardStep(d, part, i, later);
      d := Next(d, part[i]);
      i := i + 1;
      GoodSoFar(d, part, i, later);
    }
    if i < |part| && part[i] == LF {
      OnwardStep(d, part, i, later);
      d := Next(d, part[i]);
      i := i + 1;
      GoodSoFar(d, part, i, later);
    }
  }

  lemma {:induction false} PrefixValue(digits: Bytes, j: nat)
    requires j <= |digits| && AllHex(digits)
    ensures AllHex(digits[..j]) && Value(digits[..j]) <= Value(digits)
    decreases |digits| - j
  {
    if j == |digits| {
      assert digits[..j] == digits;
    } else {
      PrefixValue(digits, j + 1);
      assert digits[..j + 1][..j] == digits[..j];
      assert digits[j] in digits;
    }
  }

  lemma NextValue(digits: Bytes, j: nat)
    requires j < |digits| && AllHex(digits)
    ensures AllHex(digits[..j + 1]) && AllHex(digits[..j]) && IsHex(digits[j])
    ensures Value(digits[..j + 1]) == Value(digits[..j]) * 16 + Digit(digits[j]) <= Value(digits)
  {
    PrefixValue(digits, j + 1);
    assert digits[..j + 1][..j] == digits[..j];
    assert digits[j] in digits[..j + 1];
  }

  method DigitOf(b: bv8) returns (v: nat)
    requires IsHex(b)
    ensures v == Digit(b)
  {
    if 0x30 <= b && b <= 0x39 {
      v := b as nat - 0x30;
    } else {
      LowerCase(b);
      v := (b | 32) as nat - 0x61 + 10;
    }
  }

  /** Adding up the collected digits in 32 bits. */
  method AddDigits(digits: array<bv8>, count: nat) returns (chunksize: nat)
    requires count <= digits.Length && AllHex(digits[..count])
    ensures Value(digits[..count]) < INT_LIMIT ==> chunksize == Value(digits[..count])
    ensures forall n: nat :: n < INT_LIMIT && Spells(digits[..count], n) ==> chunksize == n
  {
    chunksize := 0;
    ghost var all := digits[..count];
    for j := 0 to count
      invariant AllHex(all[..j])
      invariant Value(all) < INT_LIMIT ==> chunksize == Value(all[..j])
    {
      NextValue(all, j);
      assert digits[j] == all[j];
      var v := DigitOf(digits[j]);
      chunksize := (chunksize * 16 + v) % UINT_MOD;
    }
    assert all[..count] == all;
    forall n: nat | n < INT_LIMIT && Spells(all, n) ensures chunksize == n {
      SpelledValue(all, n);
    }
  }

  lemma LowerCase(b: bv8)
    requires IsHex(b) && b > 0x39
    ensures (b | 32) >= 0x61 && (b | 32) as nat - 0x61 + 10 == Digit(b)
  {
    if b <= 0x46 {
      assert b in [0x41, 0x42, 0x43, 0x44, 0x45, 0x46];
    } else {
      assert b | 32 == b;
    }
  }

  /** Keeping the digits of a size, behind those an earlier part has left. */
  method CollectDigits(part: Bytes, from: nat, digits: array<bv8>, had: nat, ghost d0: Decoder, ghost later: Bytes)
    returns (i: nat, count: nat, ghost d: Decoder)
    requires from <= |part| && had <= DIGITS && digits.Length == DIGITS + 1
    requires from < |part| && had == 0 ==> IsHex(part[from])
    requires Holds(d0.phase, 0, digits[..had]) && Onward(d0, part, from, later).phase != Bad
    modifies digits
    ensures from <= i <= |part| && count <= DIGITS && (i == from ==> count == had)
    ensures Holds(d.phase, 0, digits[..count]) && d.content == d0.content
    ensures Onward(d, part, i, later) == Onward(d0, part, from, later)
    ensures i < |part| ==> count > 0 && part[i] in {CR, LF}
  {
    i, count, d := from, had, d0;
    while i < |part| && IsHex(part[i]) && count < DIGITS
      invariant from <= i <= |part| && count <= DIGITS
      invariant Holds(d.phase, 0, digits[..count]) && d.content == d0.content
      invariant Onward(d, part, i, later) == Onward(d0, part, from, later)
      invariant i < |part| && count == 0 ==> IsHex(part[i])
      invariant i == from ==> count == had
    {
      ghost var before := digits[..count];
      OnwardStep(d, part, i, later);
      GoodSoFar(d, part, i, later);
      d := Next(d, part[i]);
      digits[count] := part[i];
      digits[count + 1] := 0;
      count := count + 1;
      assert digits[..count] == before + [part[i]];
      i := i + 1;
    }
    GoodSoFar(d, part, i, later);
  }

  /** Discarding what stands between the digits and the line end. */
  method SkipExtension(part: Bytes, from: nat) returns (i: nat)
    requires from <= |part|
    ensures from <= i <= |part| && (i < |part| ==> part[i] in {CR, LF})
    ensures forall j :: from <= j < i ==> part[j] !in {CR, LF}
  {
    i := from;
    while i < |part| && part[i] != CR && part[i] != LF
      invariant from <= i <= |part|
      invariant forall j :: from <= j < i ==> part[j] !in {CR, LF}
    {
      i := i + 1;
    }
  }

  /** One pass over (a piece of) a size line. Without the closing line feed the digits stay
      behind for the next pass; each pass takes at least one byte. */
  method ReadSize(part: Bytes, from: nat, digits: array<bv8>, had: nat, ghost d0: Decoder, ghost later: Bytes)
    returns (i: nat, count: nat, complete: bool, chunksize: nat, ghost d: Decoder)
    requires from < |part| && had <= DIGITS && digits.Length == DIGITS + 1
    requires Holds(d0.phase, 0, digits[..had]) && Onward(d0, part, from, later).phase != Bad
    modifies digits
    ensures from < i <= |part| && count <= DIGITS && d.content == d0.content
    ensures Onward(d, part, i, later) == Onward(d0, part, from, later)
    ensures complete && chunksize == 0 ==> d.phase == End
    ensures !complete ==> chunksize == 0
    ensures !complete || chunksize > 0 ==> Holds(d.phase, chunksize, digits[..count])
  {
    i, d := from, d0;
    complete, chunksize := false, 0;
    if had == 0 {
      assert digits[..had] == [];
      i, d := SkipLineEnd(part, i, d, later);
    }
    i, count, d := CollectDigits(part, i, digits, had, d, later);
    i := SkipExtension(part, i);
    if i < |part| && part[i] == CR {
      OnwardStep(d, part, i, later);
      i := i + 1;
    }
    GoodSoFar(d, part, i, later);
    if i < |part| && part[i] == LF {
      OnwardStep(d, part, i, later);
      d := Next(d, part[i]);
      chunksize := AddDigits(digits, count);
      digits[0] := 0;
      count := 0;
      i := i + 1;
      complete := true;
    }
  }

  /** `realloc` when the content no longer fits, then `memcpy`. */
  method Store(buffer: array<bv8>, used: nat, bytes: Bytes) returns (content: array<bv8>)
    requires used <= buffer.Length
    modifies buffer
    ensures content == buffer || fresh(content)
    ensures used + |bytes| <= content.Length
    ensures content[..used + |bytes|] == old(buffer[..used]) + bytes
  {
    content := buffer;
    if used + |bytes| > buffer.Length {
      content := new bv8[used + |bytes|](_ => 0);
      for j := 0 to used
        invariant content[..j] == buffer[..j] && buffer[..] == old(buffer[..])
      {
        content[j] := buffer[j];
      }
    }
    for j := 0 to |bytes|
      invariant content[..used + j] == old(buffer[..used]) + bytes[..j]
    {
      content[used + j] := bytes[j];
    }
  }

  /** Copying what this part holds of the chunk. */
  method CopyPayload(part: Bytes, i: nat, buffer: array<bv8>, used: nat, chunksize: nat, ghost d0: Decoder, ghost later: Bytes)
    returns (content: array<bv8>, n: nat, ghost d: Decoder)
    requires i <= |part| && used <= buffer.Length && buffer[..used] == d0.content
    requires chunksize > 0 && d0.phase == Body(chunksize)
    modifies buffer
    ensures content == buffer || fresh(content)
    ensures n <= chunksize && i + n <= |part| && (n == 0 ==> i == |part|)
    ensures used + n <= content.Length && content[..used + n] == d.content
    ensures Onward(d, part, i + n, later) == Onward(d0, part, i, later)
    ensures d.phase == if n == chunksize then Between else Body(chunksize - n)
  {
    n := if chunksize < |part| - i then chunksize else |part| - i;
    OnwardMany(d0, part, i, i + n, later);
    if n > 0 { BodyTakes(d0, part[i..i + n]); }
    d := After(d0, part[i..i + n]);
    content := Store(buffer, used, part[i..i + n]);
    assert d.content == d0.content + part[i..i + n];
  }

  /** One pass of the inner loop: (a piece of) a size line, and what this part has of the chunk. */
  method DecodePass(buffer: array<bv8>, used: nat, part: Bytes, from: nat, digits: array<bv8>, had: nat, chunksize0: nat,
                    ghost d0: Decoder, ghost later: Bytes)
    returns (content: array<bv8>, size: nat, i: nat, count: nat, chunksize: nat, ended: bool, ghost d: Decoder)
    requires from < |part| && had <= DIGITS && digits.Length == DIGITS + 1 && buffer != digits
    requires used <= buffer.Length && buffer[..used] == d0.content
    requires Holds(d0.phase, chunksize0, digits[..had]) && Onward(d0, part, from, later).phase != Bad
    modifies buffer, digits
    ensures content == buffer || fresh(content)
    ensures from < i <= |part| && count <= DIGITS && size <= content.Length && content[..size] == d.content
    ensures Onward(d, part, i, later) == Onward(d0, part, from, later)
    ensures if ended then d.phase == End else Holds(d.phase, chunksize, digits[..count])
  {
    content, size, i, count, chunksize, d := buffer, used, from, had, chunksize0, d0;
    ended := false;
    var complete := true;
    if chunksize == 0 {
      i, count, complete, chunksize, d := ReadSize(part, i, digits, count, d, later);
      assert content[..size] == old(buffer[..used]);
      ended := complete && chunksize == 0;
    }
    if complete && !ended {
      var n;
      content, n, d := CopyPayload(part, i, content, size, chunksize, d, later);
      assert digits[..count] == [];
      size, i, chunksize := size + n, i + n, chunksize - n;
    }
  }

  lemma JoinedFrom(parts: seq<Bytes>, k: nat)
    requires k < |parts|
    ensures Joined(parts[k..]) == parts[k] + Joined(parts[k + 1..])
  {
    assert parts[k..][1..] == parts[k + 1..];
  }

  /** For every way a body arrives in parts, the content is what the decoder makes of the
      joined bytes, as long as that is not bad. */
  method Decode(parts: seq<Bytes>) returns (content: array<bv8>, size: nat)
    requires After(START, Joined(parts)).phase != Bad
    ensures size <= content.Length
    ensures content[..size] == After(START, Joined(parts)).content
  {
    content := new bv8[2048](_ => 0);
    size := 0;
    var digits := new bv8[DIGITS + 1](_ => 0);
    var count: nat, chunksize: nat := 0, 0;
    ghost var d := START;
    var k := 0;
    while k < |parts|
      invariant k <= |parts| && count <= DIGITS && size <= content.Length && fresh(content) && content != digits
      invariant After(d, Joined(parts[k..])) == After(START, Joined(parts))
      invariant content[..size] == d.content && Holds(d.phase, chunksize, digits[..count])
    {
      var part := parts[k];
      ghost var later := Joined(parts[k + 1..]);
      JoinedFrom(parts, k);
      var i := 0;
      assert part[0..] + later == Joined(parts[k..]);
      while i < |part|
        invariant i <= |part| && count <= DIGITS && size <= content.Length && fresh(content) && content != digits
        invariant Onward(d, part, i, later) == After(START, Joined(parts))
        invariant content[..size] == d.content && Holds(d.phase, chunksize, digits[..count])
        decreases |part| - i
      {
        var ended;
        content, size, i, count, chunksize, ended, d := DecodePass(content, size, part, i, digits, count, chunksize, d, later);
        if ended {
          EndStays(d, part[i..] + later);
          return;
        }
      }
      assert part[i..] + later == later;
      k := k + 1;
    }
  }

  /** An encoded body, however it arrives in parts, is decoded to its payloads. */
  method DecodeEncoded(parts: seq<Bytes>, ghost chunks: seq<Chunk>, ghost last: Bytes, ghost eol: Bytes, ghost trailer: Bytes)
    returns (content: array<bv8>, size: nat)
    requires (forall c :: c in chunks ==> WellFormed(c)) && SizeLine(last, 0) && LineEnd(eol)
    requires Joined(parts) == Encode(chunks) + last + eol + trailer
    ensures size <= content.Length && content[..size] == Payloads(chunks)
  {
    EncodedDecodes(chunks, last, eol, trailer);
    content, size := Decode(parts);
  }
}
