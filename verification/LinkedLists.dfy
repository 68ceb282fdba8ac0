/** The doubly linked lists of user.c. A node is known by its key, and a pointer to it is that key;
    a node that was freed has no entry any more, so following a pointer to it is not possible. */
module LinkedLists {
  import opened ServerSpec
  import opened ServerInvariant

  datatype Link<K> = Link(next: Option<K>, prev: Option<K>)

  datatype LinkedList<K> = LinkedList(first: Option<K>, links: map<K, Link<K>>)

  function Place<K>(s: seq<K>, i: int): Option<K> {
    if 0 <= i < |s| then Some(s[i]) else None
  }

  /** The links in both directions run through the keys in this order, and there are no others. */
  ghost predicate Chain<K(!new)>(l: LinkedList<K>, s: seq<K>) {
    && Distinct(s) && l.first == Place(s, 0)
    && (forall k :: k in l.links <==> k in s)
    && (forall i {:trigger LinkAt(l, s, i)} :: 0 <= i < |s| ==> LinkAt(l, s, i))
  }

  /** The node at place i points to its neighbours. */
  ghost predicate LinkAt<K(!new)>(l: LinkedList<K>, s: seq<K>, i: int)
    requires 0 <= i < |s|
  {
    s[i] in l.links && l.links[s[i]] == Link(Place(s, i + 1), Place(s, i - 1))
  }

  ghost function Walk<K>(l: LinkedList<K>, from: Option<K>, n: nat): seq<K>
    decreases n
  {
    if n == 0 || from.None? || from.value !in l.links then []
    else [from.value] + Walk(l, l.links[from.value].next, n - 1)
  }

  /** The keys in the order of the links. */
  ghost function Order<K(!new)>(l: LinkedList<K>): seq<K> {
    HasOrder(l);
    var s :| Ordered(l, s);
    s
  }

  lemma HasOrder<K(!new)>(l: LinkedList<K>)
    ensures exists s :: Ordered(l, s)
  {
    var s := if exists t :: Chain(l, t) then var t :| Chain(l, t); t else [];
    assert Ordered(l, s);
  }

  /** The one order of a chain, and any for links that are none. */
  ghost predicate Ordered<K(!new)>(l: LinkedList<K>, s: seq<K>) {
    forall t {:trigger Chain(l, t)} :: Chain(l, t) ==> Chain(l, s)
  }

  /** The links are a chain; only a proof that names the chain looks into it. */
  ghost predicate WellLinked<K(!new)>(l: LinkedList<K>) {
    forall s {:trigger Chain(l, s)} :: s == Order(l) ==> Chain(l, s)
  }

  const NO_USERS: LinkedList<Fd> := LinkedList(None, map[])
  const NO_NAMES: LinkedList<Bytes> := LinkedList(None, map[])

  lemma {:induction false} WalkChain<K(!new)>(l: LinkedList<K>, s: seq<K>, i: nat)
    requires Chain(l, s) && i <= |s|
    ensures Walk(l, Place(s, i), |s| - i) == s[i..]
    decreases |s| - i
  {
    if i < |s| {
      assert LinkAt(l, s, i);
      WalkChain(l, s, i + 1);
      assert s[i..] == [s[i]] + s[i + 1..];
    }
  }

  /** There is only one such order. */
  lemma ChainOrder<K(!new)>(l: LinkedList<K>, s: seq<K>)
    requires Chain(l, s)
    ensures WellLinked(l) && Order(l) == s
  {
    var t := Order(l);
    assert Ordered(l, t) && Chain(l, t);
    DistinctCount(s, l.links.Keys);
    DistinctCount(t, l.links.Keys);
    WalkChain(l, s, 0);
    WalkChain(l, t, 0);
    assert s[0..] == s && t[0..] == t;
  }

  lemma EmptyLists()
    ensures WellLinked(NO_USERS) && Order(NO_USERS) == [] && WellLinked(NO_NAMES) && Order(NO_NAMES) == []
  {
    ChainOrder(NO_USERS, []);
    ChainOrder(NO_NAMES, []);
  }

  lemma FromStart<K(!new)>(l: LinkedList<K>)
    requires WellLinked(l)
    ensures l.first == Place(Order(l), 0) && Order(l)[0..] == Order(l)
  {
    assert Chain(l, Order(l));
  }

  /** One step along a list. */
  lemma NextInside<K(!new)>(l: LinkedList<K>, i: nat)
    requires WellLinked(l) && i < |Order(l)|
    ensures var s := Order(l);
      && s[i] in s && s[i] in l.links && l.links[s[i]].next == Place(s, i + 1)
      && s[i..][0] == s[i] && s[i..][1..] == s[i + 1..]
  {
    assert Chain(l, Order(l));
    Neighbours(l, Order(l), i);
  }

  /** Walking a list in search of a key. */
  method Contains<K(==, !new)>(l: LinkedList<K>, k: K) returns (found: bool)
    requires WellLinked(l)
    ensures found <==> k in Order(l)
  {
    ghost var s, i := Order(l), 0;
    FromStart(l);
    var node := l.first;
    while node.Some? && node.value != k
      invariant i <= |s| && node == Place(s, i) && forall j :: 0 <= j < i ==> s[j] != k
      decreases |s| - i
    {
      NextInside(l, i);
      node := l.links[node.value].next;
      i := i + 1;
    }
    found := node.Some?;
    assert found ==> s[i] in s;
  }

  /** A new node in front of the list. */
  method PushFront<K(==, !new)>(l: LinkedList<K>, k: K) returns (r: LinkedList<K>)
    requires WellLinked(l) && k !in Order(l)
    ensures WellLinked(r) && Order(r) == [k] + Order(l)
  {
    assert Chain(l, Order(l));
    FirstInside(l, Order(l));
    var links := l.links[k := Link(l.first, None)];
    if l.first.Some? {
      links := links[l.first.value := links[l.first.value].(prev := Some(k))];
    }
    r := LinkedList(Some(k), links);
    PushedChain(l, r, Order(l), k);
    ChainOrder(r, [k] + Order(l));
  }

  lemma FirstInside<K(!new)>(l: LinkedList<K>, s: seq<K>)
    requires Chain(l, s)
    ensures l.first.Some? <==> s != []
    ensures s != [] ==> l.first == Some(s[0]) && s[0] in s && s[0] in l.links
  {
  }

  lemma PushedChain<K(!new)>(l: LinkedList<K>, r: LinkedList<K>, s: seq<K>, k: K)
    requires Chain(l, s) && k !in s && r.first == Some(k)
    requires s == [] ==> r.links == l.links[k := Link(None, None)]
    requires s != [] ==> s[0] in l.links
    requires s != [] ==> r.links == l.links[k := Link(Some(s[0]), None)][s[0] := l.links[s[0]].(prev := Some(k))]
    ensures Chain(r, [k] + s)
  {
    var t := [k] + s;
    assert forall i :: 0 <= i < |s| ==> t[i + 1] == s[i] && s[i] in s;
    forall i | 0 <= i < |t| ensures LinkAt(r, t, i) {
      PushedLink(l, r, s, k, i);
    }
  }

  lemma PushedLink<K(!new)>(l: LinkedList<K>, r: LinkedList<K>, s: seq<K>, k: K, i: int)
    requires Chain(l, s) && k !in s && 0 <= i <= |s|
    requires s == [] ==> r.links == l.links[k := Link(None, None)]
    requires s != [] ==> s[0] in l.links
    requires s != [] ==> r.links == l.links[k := Link(Some(s[0]), None)][s[0] := l.links[s[0]].(prev := Some(k))]
    ensures LinkAt(r, [k] + s, i)
  {
    var t := [k] + s;
    assert i < |s| ==> t[i + 1] == s[i];
    if i > 0 {
      assert LinkAt(l, s, i - 1) && t[i] == s[i - 1] && s[i - 1] in s;
      assert i > 1 ==> t[i - 1] == s[i - 2];
    } else {
      assert t[0] == k;
      assert s != [] ==> s[0] in s;
    }
  }

  /** Taking a node out through the links of its neighbours, and freeing it. */
  method Unlink<K(==, !new)>(l: LinkedList<K>, k: K) returns (r: LinkedList<K>)
    requires WellLinked(l) && k in Order(l)
    ensures WellLinked(r) && Order(r) == Remove(Order(l), k)
  {
    ghost var s := Order(l);
    ghost var i := Standing(s, k);
    assert Chain(l, s);
    Neighbours(l, s, i);
    var node := l.links[k];
    var first, links := l.first, l.links;
    if node.prev == None {
      first := node.next;
    } else {
      links := links[node.prev.value := links[node.prev.value].(next := node.next)];
    }
    if node.next.Some? {
      links := links[node.next.value := links[node.next.value].(prev := node.prev)];
    }
    links := links - {k};
    r := LinkedList(first, links);
    forall j | 0 <= j < |s| && j != i ensures UnlinkedAt(l, r, s, i, j) {
      BypassedAt(l, r, s, i, j);
    }
    UnlinkedChain(l, r, s, i);
    RemoveAt(s, i);
    ChainOrder(r, Except(s, i));
  }

  lemma Standing<K>(s: seq<K>, k: K) returns (i: nat)
    requires k in s
    ensures i < |s| && s[i] == k
  {
    i :| 0 <= i < |s| && s[i] == k;
  }

  lemma Neighbours<K(!new)>(l: LinkedList<K>, s: seq<K>, i: nat)
    requires Chain(l, s) && i < |s|
    ensures s[i] in l.links && l.links[s[i]] == Link(Place(s, i + 1), Place(s, i - 1))
    ensures i > 0 ==> s[i - 1] in l.links && s[i - 1] != s[i]
    ensures i + 1 < |s| ==> s[i + 1] in l.links && s[i + 1] != s[i]
    ensures 0 < i < |s| - 1 ==> s[i - 1] != s[i + 1]
  {
    assert LinkAt(l, s, i);
    assert i > 0 ==> s[i - 1] in s;
    assert i + 1 < |s| ==> s[i + 1] in s;
  }

  /** The links of a node that stays, once node k is out. */
  ghost predicate UnlinkedAt<K(!new)>(l: LinkedList<K>, r: LinkedList<K>, s: seq<K>, k: int, j: int)
    requires 0 <= k < |s| && 0 <= j < |s|
  {
    && s[j] in l.links && s[j] in r.links
    && r.links[s[j]].next == (if j == k - 1 then Place(s, k + 1) else Place(s, j + 1))
    && r.links[s[j]].prev == (if j == k + 1 then Place(s, k - 1) else Place(s, j - 1))
  }

  ghost function Bypassed<K>(links: map<K, Link<K>>, next: Option<K>, prev: Option<K>, k: K): map<K, Link<K>>
    requires (prev.Some? ==> prev.value in links) && (next.Some? ==> next.value in links)
  {
    var left := if prev.Some? then links[prev.value := links[prev.value].(next := next)] else links;
    (if next.Some? then left[next.value := left[next.value].(prev := prev)] else left) - {k}
  }

  lemma BypassedAt<K(!new)>(l: LinkedList<K>, r: LinkedList<K>, s: seq<K>, k: int, j: int)
    requires Chain(l, s) && 0 <= k < |s| && 0 <= j < |s| && j != k
    requires (k > 0 ==> s[k - 1] in l.links) && (k + 1 < |s| ==> s[k + 1] in l.links)
    requires r.links == Bypassed(l.links, Place(s, k + 1), Place(s, k - 1), s[k])
    ensures UnlinkedAt(l, r, s, k, j)
  {
    assert LinkAt(l, s, j) && s[j] != s[k];
    assert j != k - 1 && k > 0 ==> s[j] != s[k - 1];
    assert j != k + 1 && k + 1 < |s| ==> s[j] != s[k + 1];
  }

  /** A sequence without its element k. */
  ghost function Except<T>(s: seq<T>, k: nat): (r: seq<T>)
    requires k < |s|
    ensures |r| == |s| - 1
    ensures forall i :: 0 <= i < |r| ==> r[i] == s[if i < k then i else i + 1]
  {
    s[..k] + s[k + 1..]
  }

  lemma {:induction false} RemoveAt<T>(s: seq<T>, k: nat)
    requires k < |s| && forall i :: 0 <= i < k ==> s[i] != s[k]
    ensures Remove(s, s[k]) == Except(s, k)
    decreases |s|
  {
    if k > 0 {
      RemoveAt(s[1..], k - 1);
      ExceptTail(s, k);
    }
  }

  lemma ExceptTail<T>(s: seq<T>, k: nat)
    requires 0 < k < |s|
    ensures [s[0]] + Except(s[1..], k - 1) == Except(s, k)
  {
  }

  lemma UnlinkedChain<K(!new)>(l: LinkedList<K>, r: LinkedList<K>, s: seq<K>, k: nat)
    requires Chain(l, s) && k < |s|
    requires r.first == if k == 0 then Place(s, 1) else l.first
    requires forall x :: x in r.links ==> x in l.links && x != s[k]
    requires forall j {:trigger UnlinkedAt(l, r, s, k, j)} :: 0 <= j < |s| && j != k ==> UnlinkedAt(l, r, s, k, j)
    ensures Chain(r, Except(s, k))
  {
    var t := Except(s, k);
    forall i | 0 <= i < |t| ensures LinkAt(r, t, i) {
      assert UnlinkedAt(l, r, s, k, if i < k then i else i + 1);
    }
    forall x | x in r.links ensures x in t {
      var j := Standing(s, x);
      assert t[if j < k then j else j - 1] == x;
    }
    forall x | x in t ensures x in r.links {
      var i := Standing(t, x);
      assert LinkAt(r, t, i);
    }
  }
}
