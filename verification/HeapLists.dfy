/** What inserting into and compacting the free list keep: the bytes covered, the node
    identities and the address order. */
module HeapLists {
  import opened HeapSpec
  import opened HeapRounding

  // ----- bytes and identities of a list -----

  ghost predicate Covered(s: seq<Block>, x: int) {
    s != [] && (s[0].Covers(x) || Covered(s[1..], x))
  }

  ghost function IdBag(s: seq<Block>): multiset<nat> {
    if s == [] then multiset{} else multiset{s[0].id} + IdBag(s[1..])
  }

  /** Each block ends before or at the start of every later one. */
  ghost predicate Ordered(s: seq<Block>) {
    && (forall i :: 0 <= i < |s| ==> s[i].size > 0)
    && (forall i, j :: 0 <= i < j < |s| ==> s[i].End() <= s[j].addr)
  }

  /** Strictly sorted, and no two blocks touch. */
  ghost predicate Spaced(s: seq<Block>) {
    && (forall i :: 0 <= i < |s| ==> s[i].size > 0)
    && (forall i, j :: 0 <= i < j < |s| ==> s[i].End() < s[j].addr)
  }

  ghost predicate DisjointFrom(s: seq<Block>, b: Block) {
    forall i :: 0 <= i < |s| ==> s[i].End() <= b.addr || b.End() <= s[i].addr
  }

  ghost predicate Aligned(s: seq<Block>, alignment: nat)
    requires alignment > 0
  {
    forall i :: 0 <= i < |s| ==> s[i].addr % alignment == 0 && s[i].size % alignment == 0
  }

  lemma {:induction false} CoveredIff(s: seq<Block>, x: int)
    ensures Covered(s, x) <==> exists i :: 0 <= i < |s| && s[i].Covers(x)
  {
    if s != [] {
      CoveredIff(s[1..], x);
      if i :| 0 <= i < |s| && s[i].Covers(x) {
        if i > 0 { assert s[1..][i - 1].Covers(x); }
      }
      if j :| 0 <= j < |s[1..]| && s[1..][j].Covers(x) {
        assert s[j + 1].Covers(x);
      }
    }
  }

  lemma {:induction false} ConcatLists(a: seq<Block>, b: seq<Block>, x: int)
    ensures Covered(a + b, x) <==> Covered(a, x) || Covered(b, x)
    ensures IdBag(a + b) == IdBag(a) + IdBag(b)
  {
    if a == [] {
      assert a + b == b;
    } else {
      assert (a + b)[1..] == a[1..] + b;
      ConcatLists(a[1..], b, x);
    }
  }

  lemma WithoutList(s: seq<Block>, k: nat, x: int)
    requires k < |s|
    ensures Covered(s, x) <==> s[k].Covers(x) || Covered(Without(s, k), x)
    ensures IdBag(s) == multiset{s[k].id} + IdBag(Without(s, k))
  {
    assert s == s[..k] + ([s[k]] + s[k + 1..]);
    ConcatLists(s[..k], [s[k]] + s[k + 1..], x);
    ConcatLists(s[..k], s[k + 1..], x);
    assert ([s[k]] + s[k + 1..])[1..] == s[k + 1..];
  }

  // ----- insertion -----

  lemma {:induction false} InsertKeeps(s: seq<Block>, b: Block, x: int)
    ensures Covered(Insert(s, b), x) <==> b.Covers(x) || Covered(s, x)
    ensures IdBag(Insert(s, b)) == multiset{b.id} + IdBag(s)
  {
    if s == [] || b.addr <= s[0].addr {
      assert ([b] + s)[1..] == s;
    } else {
      InsertKeeps(s[1..], b, x);
      assert ([s[0]] + Insert(s[1..], b))[1..] == Insert(s[1..], b);
    }
  }

  /** Insertion splits the list at one position. */
  lemma {:induction false} InsertAt(s: seq<Block>, b: Block) returns (k: nat)
    ensures k <= |s| && Insert(s, b) == s[..k] + [b] + s[k..]
    ensures forall i :: 0 <= i < k ==> s[i].addr < b.addr
    ensures k < |s| ==> b.addr <= s[k].addr
  {
    if s == [] || b.addr <= s[0].addr {
      k := 0;
    } else {
      var j := InsertAt(s[1..], b);
      k := j + 1;
      assert s[..k] == [s[0]] + s[1..][..j];
      assert s[k..] == s[1..][j..];
    }
  }

  lemma InsertOrdered(s: seq<Block>, b: Block)
    requires Ordered(s) && b.size > 0 && DisjointFrom(s, b)
    ensures Ordered(Insert(s, b))
  {
    var k := InsertAt(s, b);
    assert forall i :: 0 <= i < k ==> s[i].End() <= b.addr;
    assert k < |s| ==> b.End() <= s[k].addr;
    assert forall i :: k <= i < |s| ==> b.End() <= s[i].addr;
  }

  /** A part of the block that was taken out of an ordered list goes back to its place. */
  lemma {:induction false} InsertBack(s: seq<Block>, k: nat, part: Block)
    requires Ordered(s) && k < |s|
    requires s[k].addr <= part.addr && 0 < part.size && part.End() <= s[k].End()
    ensures Insert(Without(s, k), part) == s[k := part]
  {
    var rest := Without(s, k);
    if k == 0 {
      assert [part] + s[1..] == s[0 := part];
    } else {
      assert s[0].End() <= s[k].addr;
      InsertBack(s[1..], k - 1, part);
      assert rest[1..] == Without(s[1..], k - 1);
      assert [s[0]] + s[1..][k - 1 := part] == s[k := part];
    }
  }

  // ----- compaction -----

  lemma {:induction false} CompactCovers(s: seq<Block>, blank: seq<nat>, x: int)
    requires Ordered(s)
    ensures Covered(Compact(s, blank).0, x) <==> Covered(s, x)
    decreases |s|
  {
    if |s| <= 1 {
    } else if s[0].End() == s[1].addr {
      var joined := s[0].(size := s[0].size + s[1].size);
      assert ([joined] + s[2..])[1..] == s[1..][1..];
      CompactCovers([joined] + s[2..], [s[1].id] + blank, x);
      assert joined.Covers(x) <==> s[0].Covers(x) || s[1].Covers(x);
    } else {
      CompactCovers(s[1..], blank, x);
      assert Compact(s, blank).0[1..] == Compact(s[1..], blank).0;
    }
  }

  /** No node is lost or duplicated: the merged ones are all blank afterwards. */
  lemma {:induction false} CompactKeepsNodes(s: seq<Block>, blank: seq<nat>)
    ensures IdBag(Compact(s, blank).0) + multiset(Compact(s, blank).1) == IdBag(s) + multiset(blank)
    decreases |s|
  {
    if |s| <= 1 {
    } else if s[0].End() == s[1].addr {
      var t := [s[0].(size := s[0].size + s[1].size)] + s[2..];
      CompactKeepsNodes(t, [s[1].id] + blank);
      assert t[1..] == s[2..] == s[1..][1..];
      assert IdBag(t) == multiset{s[0].id} + IdBag(s[2..]);
      assert IdBag(s[1..]) == multiset{s[1].id} + IdBag(s[2..]);
    } else {
      CompactKeepsNodes(s[1..], blank);
      var r, rest := Compact(s, blank), Compact(s[1..], blank);
      assert r == ([s[0]] + rest.0, rest.1);
      assert ([s[0]] + rest.0)[1..] == rest.0;
      calc {
        IdBag(r.0) + multiset(r.1);
        multiset{s[0].id} + IdBag(rest.0) + multiset(rest.1);
        multiset{s[0].id} + (IdBag(rest.0) + multiset(rest.1));
        multiset{s[0].id} + (IdBag(s[1..]) + multiset(blank));
        IdBag(s) + multiset(blank);
      }
    }
  }

  lemma {:induction false} CompactSpaced(s: seq<Block>, blank: seq<nat>)
    requires Ordered(s)
    ensures var r := Compact(s, blank).0;
      && Spaced(r)
      && (s == [] <==> r == [])
      && (s != [] ==> r[0].addr == s[0].addr)
    decreases |s|
  {
    if |s| <= 1 {
    } else if s[0].End() == s[1].addr {
      CompactSpaced([s[0].(size := s[0].size + s[1].size)] + s[2..], [s[1].id] + blank);
    } else {
      CompactSpaced(s[1..], blank);
      var rest := Compact(s[1..], blank).0;
      assert s[0].End() < rest[0].addr;
    }
  }

  lemma AddAligned(a: nat, b: nat, m: nat)
    requires m > 0 && a % m == 0 && b % m == 0
    ensures (a + b) % m == 0
    ensures a >= b ==> (a - b) % m == 0
  {
    var p, q := a / m, b / m;
    assert a == m * p && b == m * q;
    RemainderUnique(a + b, m, p + q, 0);
    if a >= b {
      MultiplesApart(m, p, q);
      RemainderUnique(a - b, m, p - q, 0);
    }
  }

  lemma {:induction false} CompactAligned(s: seq<Block>, blank: seq<nat>, m: nat)
    requires m > 0 && Aligned(s, m)
    ensures Aligned(Compact(s, blank).0, m)
    decreases |s|
  {
    if |s| <= 1 {
    } else if s[0].End() == s[1].addr {
      AddAligned(s[0].size, s[1].size, m);
      CompactAligned([s[0].(size := s[0].size + s[1].size)] + s[2..], [s[1].id] + blank, m);
    } else {
      CompactAligned(s[1..], blank, m);
    }
  }

  /** A list without touching blocks is already compact. */
  lemma {:induction false} CompactIdle(s: seq<Block>, blank: seq<nat>)
    requires Spaced(s)
    ensures Compact(s, blank) == (s, blank)
    decreases |s|
  {
    if |s| > 1 {
      assert s[0].End() < s[1].addr;
      CompactIdle(s[1..], blank);
      assert [s[0]] + s[1..] == s;
    }
  }

  /** Two touching blocks in an otherwise spaced list become one. */
  lemma {:induction false} CompactPair(a: seq<Block>, b: Block, d: Block, z: seq<Block>, blank: seq<nat>)
    requires b.End() == d.addr
    requires Spaced(a + [b.(size := b.size + d.size)] + z)
    ensures Compact(a + [b, d] + z, blank) == (a + [b.(size := b.size + d.size)] + z, [d.id] + blank)
    decreases |a|
  {
    var joined := b.(size := b.size + d.size);
    var s := a + [b, d] + z;
    var t := a + [joined] + z;
    if a == [] {
      assert [s[0].(size := s[0].size + s[1].size)] + s[2..] == t;
      CompactIdle(t, [d.id] + blank);
    } else {
      assert s[1..] == a[1..] + [b, d] + z;
      assert t[1..] == a[1..] + [joined] + z;
      assert t[0] == s[0] && t[0].End() < t[1].addr;
      assert |a| > 1 ==> s[1] == a[1] == t[1];
      CompactPair(a[1..], b, d, z, blank);
      assert [s[0]] + t[1..] == t;
    }
  }
}
