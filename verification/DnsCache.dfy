/**
 dnscache.c: the two-level cache of host names. A red-black tree over the CRC-32 of the names leads to the
 names of each checksum, and one queue over all names keeps the order in which they were added.
 */
module NameQueues {
  import opened Bytes
  import opened RbNodes
  import opened Crc32

  /** dnsname_node_t */
  class NameNode {
    const name: seq<bv8>
    const ip: seq<byte>
    const creattime: int
    const owner: HashNode

    constructor (name: seq<bv8>, ip: seq<byte>, creattime: int, owner: HashNode)
      ensures this.name == name && this.ip == ip && this.creattime == creattime && this.owner == owner
    {
      this.name, this.ip, this.creattime, this.owner := name, ip, creattime, owner;
    }
  }

  /** dnstree_node_t */
  class HashNode {
    const hash: Key
    var rbnode: RbNode?
    var dnsname_sum: int
    var names: seq<NameNode>

    constructor (hash: Key)
      ensures this.hash == hash && rbnode == null && dnsname_sum == 0 && names == []
    {
      this.hash, rbnode, dnsname_sum, names := hash, null, 0, [];
    }
  }

  /** The names of one checksum, in the order of the queue. */
  function Of(q: seq<NameNode>, h: HashNode): seq<NameNode> {
    if q == [] then [] else Of(q[..|q| - 1], h) + (if q[|q| - 1].owner == h then [q[|q| - 1]] else [])
  }

  /** queue_remove */
  function Drop(q: seq<NameNode>, n: NameNode): seq<NameNode> {
    if q == [] then [] else Drop(q[..|q| - 1], n) + (if q[|q| - 1] == n then [] else [q[|q| - 1]])
  }

  ghost predicate NoDup(q: seq<NameNode>) {
    forall i, j :: 0 <= i < j < |q| ==> q[i] != q[j]
  }

  /** What a lookup compares: the checksum, the length, and the text as far as strncmp looks, which is up to a
      NUL byte. */
  datatype Id = Id(hash: Key, len: nat, text: seq<bv8>)

  function Text(s: seq<bv8>): seq<bv8> {
    if s == [] || s[0] == 0 then [] else [s[0]] + Text(s[1..])
  }

  function HashOf(s: seq<bv8>): Key { Crc(s) as int }

  function IdOf(s: seq<bv8>): Id {
    Id(HashOf(s), |s|, Text(s))
  }

  /** For a name without NUL bytes, what a lookup compares is the name. */
  lemma {:induction false} TextExact(s: seq<bv8>, t: seq<bv8>)
    requires 0 !in s && |s| == |t|
    ensures Text(s) == Text(t) <==> s == t
    ensures |Text(s)| == |s|
  {
    if s != [] {
      assert s[0] in s && s == [s[0]] + s[1..] && t == [t[0]] + t[1..];
      TextExact(s[1..], t[1..]);
      if Text(s) == Text(t) {
        assert Text(t) == [t[0]] + Text(t[1..]);
        assert Text(s)[0] == s[0] && Text(t)[0] == t[0] && Text(s)[1..] == Text(s[1..]) && Text(t)[1..] == Text(t[1..]);
      }
    }
  }

  lemma IdExact(s: seq<bv8>, t: seq<bv8>)
    requires 0 !in s
    ensures IdOf(s) == IdOf(t) <==> s == t
  {
    hide HashOf, Text;
    if |s| == |t| { TextExact(s, t); }
  }

  /** With NUL bytes it may not be: two names that a lookup takes for the same. */
  lemma NulExample()
    ensures var s: seq<bv8>, t: seq<bv8> := [0, 0, 0, 0, 0, 0], [0, 65, 6, 113, 219, 1];
      s != t && IdOf(s) == IdOf(t)
  {
    hide Crc;
    Collision();
    var s: seq<bv8>, t: seq<bv8> := [0, 0, 0, 0, 0, 0], [0, 65, 6, 113, 219, 1];
    assert s[1] != t[1];
  }

  /** strncmp of two names of one length is 0. */
  method StrnEqual(a: seq<bv8>, b: seq<bv8>) returns (equal: bool)
    requires |a| == |b|
    ensures equal == (Text(a) == Text(b))
  {
    for i := 0 to |a|
      invariant Text(a) == Text(b) <==> Text(a[i..]) == Text(b[i..])
    {
      assert a[i..][1..] == a[i + 1..] && b[i..][1..] == b[i + 1..];
      if a[i] != b[i] || a[i] == 0 {
        assert a[i] != 0 ==> Text(a[i..])[0] == a[i];
        assert b[i] != 0 ==> Text(b[i..])[0] == b[i];
        return a[i] == b[i];
      }
      assert Text(a[i..])[1..] == Text(a[i + 1..]) && Text(b[i..])[1..] == Text(b[i + 1..]);
    }
    return true;
  }

  /** What the cache means: the address of every name. Empty names can be added but are never found. */
  function Addresses(q: seq<NameNode>): map<Id, seq<byte>> {
    if q == [] then map[]
    else
      var n, t := q[|q| - 1], Addresses(q[..|q| - 1]);
      if n.name == [] then t else t[IdOf(n.name) := n.ip]
  }

  /** A name occurs once. */
  ghost predicate Unique(q: seq<NameNode>) {
    forall i, j :: 0 <= i < j < |q| && q[i].name != [] ==> IdOf(q[i].name) != IdOf(q[j].name)
  }

  lemma OfAdded(q: seq<NameNode>, n: NameNode, h: HashNode)
    ensures Of(q + [n], h) == Of(q, h) + (if n.owner == h then [n] else [])
  {}

  lemma {:induction false} OfMembers(q: seq<NameNode>, h: HashNode)
    ensures forall n :: n in Of(q, h) <==> n in q && n.owner == h
    decreases |q|
  {
    if q != [] {
      var r := q[..|q| - 1];
      OfMembers(r, h);
      assert q == r + [q[|q| - 1]];
    }
  }

  lemma {:induction false} NoNames(q: seq<NameNode>, h: HashNode)
    requires forall n <- q :: n.owner != h
    ensures Of(q, h) == []
    decreases |q|
  {
    if q != [] {
      assert q[|q| - 1] in q && forall n <- q[..|q| - 1] :: n in q;
      NoNames(q[..|q| - 1], h);
    }
  }

  lemma {:induction false} DropIn(q: seq<NameNode>, n: NameNode)
    ensures forall x :: x in Drop(q, n) <==> x in q && x != n
    decreases |q|
  {
    if q != [] {
      var r, last := q[..|q| - 1], q[|q| - 1];
      DropIn(r, n);
      assert q == r + [last];
    }
  }

  lemma NoDupAdded(q: seq<NameNode>, n: NameNode)
    ensures NoDup(q + [n]) <==> NoDup(q) && n !in q
  {
    var r := q + [n];
    if NoDup(r) {
      forall i | 0 <= i < |q| ensures q[i] != n { assert r[i] == q[i] && r[|q|] == n; }
      assert forall i, j :: 0 <= i < j < |q| ==> q[i] == r[i] && q[j] == r[j];
    }
  }

  /** No entry answers for `name`. */
  ghost predicate Unknown(q: seq<NameNode>, name: seq<bv8>) {
    forall x <- q :: x.name != [] ==> IdOf(x.name) != IdOf(name)
  }

  lemma UniqueAdded(q: seq<NameNode>, n: NameNode)
    ensures Unique(q + [n]) <==> Unique(q) && Unknown(q, n.name)
  {
    hide IdOf;
    var r := q + [n];
    if Unique(r) {
      assert forall i :: 0 <= i < |q| ==> r[i] == q[i];
      forall x | x in q && x.name != [] ensures IdOf(x.name) != IdOf(n.name) {
        var i :| 0 <= i < |q| && q[i] == x;
        assert r[i] == x && r[|q|] == n;
      }
    }
  }

  lemma UnknownDropped(q: seq<NameNode>, n: NameNode, name: seq<bv8>)
    requires forall x <- q :: x != n && x.name != [] ==> IdOf(x.name) != IdOf(name)
    ensures Unknown(Drop(q, n), name)
  {}

  lemma {:induction false} DropUnique(q: seq<NameNode>, n: NameNode)
    requires Unique(q)
    ensures Unique(Drop(q, n))
    decreases |q|
  {
    hide Unique, IdOf;
    if q == [] {
      assert Drop(q, n) == q;
    } else {
      var r, last := q[..|q| - 1], q[|q| - 1];
      assert q == r + [last];
      UniqueAdded(r, last);
      DropUnique(r, n);
      DropAdded(r, last, n);
      if last != n {
        UnknownDropped(r, n, last.name);
        UniqueAdded(Drop(r, n), last);
      } else {
        assert Drop(r, n) + [] == Drop(r, n);
      }
    }
  }

  lemma {:induction false} DropNoDup(q: seq<NameNode>, n: NameNode)
    requires NoDup(q)
    ensures NoDup(Drop(q, n)) && |Drop(q, n)| == |q| - (if n in q then 1 else 0)
    decreases |q|
  {
    hide NoDup;
    if q == [] {
      assert Drop(q, n) == q;
    } else {
      var r, last := q[..|q| - 1], q[|q| - 1];
      assert q == r + [last];
      NoDupAdded(r, last);
      DropNoDup(r, n);
      DropIn(r, n);
      DropAdded(r, last, n);
      if last != n {
        NoDupAdded(Drop(r, n), last);
      } else {
        assert Drop(r, n) + [] == Drop(r, n);
      }
    }
  }

  lemma {:induction false} OfNoDup(q: seq<NameNode>, h: HashNode)
    requires NoDup(q)
    ensures NoDup(Of(q, h))
    decreases |q|
  {
    hide NoDup;
    if q == [] {
      assert Of(q, h) == q;
    } else {
      var r, last := q[..|q| - 1], q[|q| - 1];
      assert q == r + [last];
      NoDupAdded(r, last);
      OfNoDup(r, h);
      OfMembers(r, h);
      OfAdded(r, last, h);
      if last.owner == h {
        NoDupAdded(Of(r, h), last);
      } else {
        assert Of(r, h) + [] == Of(r, h);
      }
    }
  }

  lemma {:induction false} OfDropped(q: seq<NameNode>, n: NameNode, h: HashNode)
    ensures Of(Drop(q, n), h) == Drop(Of(q, h), n)
    ensures n.owner != h ==> Of(Drop(q, n), h) == Of(q, h)
    decreases |q|
  {
    if q != [] {
      var r, last := q[..|q| - 1], q[|q| - 1];
      OfDropped(r, n, h);
      if last != n {
        OfAdded(Drop(r, n), last, h);
        if last.owner == h {
          DropAdded(Of(r, h), last, n);
        } else {
          assert Of(r, h) + [] == Of(r, h) && Drop(Of(r, h), n) + [] == Drop(Of(r, h), n);
        }
      } else {
        assert Drop(r, n) + [] == Drop(r, n);
        if last.owner == h {
          DropAdded(Of(r, h), last, n);
          assert Drop(Of(r, h), n) + [] == Drop(Of(r, h), n);
        } else {
          assert Of(r, h) + [] == Of(r, h);
        }
      }
    }
  }

  lemma DropAdded(q: seq<NameNode>, x: NameNode, n: NameNode)
    ensures Drop(q + [x], n) == Drop(q, n) + (if x == n then [] else [x])
  {}

  lemma {:induction false} DropAbsent(q: seq<NameNode>, n: NameNode)
    requires n !in q
    ensures Drop(q, n) == q
    decreases |q|
  {
    if q != [] {
      var r := q[..|q| - 1];
      assert q == r + [q[|q| - 1]] && q[|q| - 1] in q;
      DropAbsent(r, n);
      DropAdded(r, q[|q| - 1], n);
    }
  }

  lemma DropLast(q: seq<NameNode>)
    requires q != [] && NoDup(q)
    ensures Drop(q, q[|q| - 1]) == q[..|q| - 1]
  {
    var r := q[..|q| - 1];
    assert q[|q| - 1] !in r;
    DropAbsent(r, q[|q| - 1]);
    assert r + [] == r;
  }

  /** The table of a queue with unique names. */
  lemma {:induction false} AddressEntries(q: seq<NameNode>)
    requires Unique(q)
    ensures forall n :: n in q && n.name != [] ==> IdOf(n.name) in Addresses(q) && Addresses(q)[IdOf(n.name)] == n.ip
    ensures forall s :: s in Addresses(q) ==> exists n :: n in q && n.name != [] && IdOf(n.name) == s
    decreases |q|
  {
    hide IdOf;
    if q != [] {
      var r, last := q[..|q| - 1], q[|q| - 1];
      assert q == r + [last];
      assert Unique(r);
      AddressEntries(r);
      forall n | n in q && n.name != [] ensures IdOf(n.name) in Addresses(q) && Addresses(q)[IdOf(n.name)] == n.ip {
        if n != last {
          var i :| 0 <= i < |r| && r[i] == n;
          assert q[i] == n && IdOf(q[i].name) != IdOf(q[|q| - 1].name);
        }
      }
      forall s | s in Addresses(q) ensures exists n :: n in q && n.name != [] && IdOf(n.name) == s {
        if s in Addresses(r) {
          var n :| n in r && n.name != [] && IdOf(n.name) == s;
          assert n in q;
        } else {
          assert last in q && IdOf(last.name) == s;
        }
      }
    }
  }

  lemma AddressAdded(q: seq<NameNode>, n: NameNode)
    ensures Addresses(q + [n]) == if n.name == [] then Addresses(q) else Addresses(q)[IdOf(n.name) := n.ip]
  {}

  lemma UniqueNode(q: seq<NameNode>, x: NameNode, n: NameNode)
    requires Unique(q) && x in q && n in q && x.name != [] && IdOf(x.name) == IdOf(n.name)
    ensures x == n
  {}

  lemma SameLength(s: seq<bv8>, t: seq<bv8>)
    requires IdOf(s) == IdOf(t)
    ensures s == [] <==> t == []
  {}

  lemma AddressDropped(q: seq<NameNode>, n: NameNode)
    requires Unique(q) && n in q
    ensures Addresses(Drop(q, n)) == if n.name == [] then Addresses(q) else Addresses(q) - {IdOf(n.name)}
  {
    hide Addresses, IdOf, Unique;
    DropIn(q, n);
    DropUnique(q, n);
    AddressEntries(q);
    AddressEntries(Drop(q, n));
    var a, b := Addresses(Drop(q, n)), if n.name == [] then Addresses(q) else Addresses(q) - {IdOf(n.name)};
    forall s | s in a ensures s in b && a[s] == b[s] {
      var x :| x in Drop(q, n) && x.name != [] && IdOf(x.name) == s;
      if IdOf(x.name) == IdOf(n.name) {
        UniqueNode(q, x, n);
      }
    }
    forall s | s in b ensures s in a {
      var x :| x in q && x.name != [] && IdOf(x.name) == s;
      assert x in Drop(q, n);
    }
    assert a == b;
  }
}

module DnsCache {
  import opened Bytes
  import opened RbNodes
  import opened RbShape
  import opened TreeIndex
  import opened NameQueues
  import opened Crc32

  /** What dnscache_timeout leaves: it walks from the newest entry and stops at the first that is young. */
  function Keep(q: seq<NameNode>, now: int, tout: int): seq<NameNode> {
    if q == [] || now - q[|q| - 1].creattime <= tout then q else Keep(q[..|q| - 1], now, tout)
  }

  /** With a clock that never goes back, the queue is ordered by time. */
  ghost predicate Ordered(q: seq<NameNode>, now: int) {
    && (forall i, j :: 0 <= i < j < |q| ==> q[i].creattime <= q[j].creattime)
    && (forall n <- q :: n.creattime <= now)
  }

  /** What is removed is a suffix, and all of it is older than the limit. */
  lemma {:induction false} KeepOld(q: seq<NameNode>, now: int, tout: int)
    ensures var k := Keep(q, now, tout); |k| <= |q| && k == q[..|k|]
    ensures forall i :: |Keep(q, now, tout)| <= i < |q| ==> now - q[i].creattime > tout
    decreases |q|
  {
    if q != [] && now - q[|q| - 1].creattime > tout {
      KeepOld(q[..|q| - 1], now, tout);
    }
  }

  /** In an ordered queue the walk removes everything or nothing: nothing as soon as the newest entry is young. */
  lemma {:induction false} KeepAll(q: seq<NameNode>, now: int, tout: int)
    requires Ordered(q, now)
    ensures Keep(q, now, tout) == if q != [] && now - q[|q| - 1].creattime > tout then [] else q
    decreases |q|
  {
    if q != [] && now - q[|q| - 1].creattime > tout {
      var r := q[..|q| - 1];
      assert forall n :: n in r ==> n in q;
      KeepAll(r, now, tout);
      if r != [] {
        assert q[|r| - 1].creattime <= q[|q| - 1].creattime;
      }
    }
  }

  /** So the walk leaves no entry over the limit exactly when the newest entry is over the limit or the oldest
      is not. */
  lemma {:induction false} KeepComplete(q: seq<NameNode>, now: int, tout: int)
    requires Ordered(q, now) && q != []
    ensures (forall n <- Keep(q, now, tout) :: now - n.creattime <= tout)
       <==> now - q[|q| - 1].creattime > tout || now - q[0].creattime <= tout
  {
    KeepAll(q, now, tout);
    assert q[0] in q;
    if now - q[0].creattime <= tout {
      forall n | n in q ensures now - n.creattime <= tout {
        var i :| 0 <= i < |q| && q[i] == n;
      }
    }
  }

  /** An entry that a minute's walk leaves although it is two minutes old: a young one was added behind it. */
  lemma KeepStale(first: NameNode, young: NameNode)
    requires first.creattime == 0 && young.creattime == 100
    ensures Ordered([first, young], 120) && Keep([first, young], 120, 60) == [first, young]
    ensures 120 - first.creattime > 60
  {
    KeepAll([first, young], 120, 60);
  }

  // ---- the cache as a value ----

  /** What an entry of the queue shows. */
  datatype Cached = Cached(name: seq<bv8>, ip: seq<byte>, time: int)

  /** The entries, oldest first, and the clock. */
  datatype Held = Held(entries: seq<Cached>, now: int)

  predicate Answers(x: Cached, name: seq<bv8>) { x.name != [] && IdOf(x.name) == IdOf(name) }

  function Shown(q: seq<NameNode>): (r: seq<Cached>)
    ensures |r| == |q|
  {
    if q == [] then []
    else var n := q[|q| - 1]; Shown(q[..|q| - 1]) + [Cached(n.name, n.ip, n.creattime)]
  }

  /** All entries but those that answer for the name. */
  function Others(es: seq<Cached>, name: seq<bv8>): seq<Cached> {
    if es == [] then []
    else Others(es[..|es| - 1], name) + (if Answers(es[|es| - 1], name) then [] else [es[|es| - 1]])
  }

  /** The walk of dnscache_timeout, which stops at the first young entry. */
  function Kept(es: seq<Cached>, now: int, tout: int): seq<Cached> {
    if es == [] || now - es[|es| - 1].time <= tout then es else Kept(es[..|es| - 1], now, tout)
  }

  /** The addresses: the last entry of a name counts. */
  function Table(es: seq<Cached>): map<Id, seq<byte>> {
    if es == [] then map[]
    else
      var x, m := es[|es| - 1], Table(es[..|es| - 1]);
      if x.name == [] then m else m[IdOf(x.name) := x.ip]
  }

  function Afterwards(s: Held, e: Event): Held {
    match e
    case Put(name, ip) => s.(entries := Others(s.entries, name) + [Cached(name, ip, s.now)])
    case Remove(name) => s.(entries := Others(s.entries, name))
    case Tick(seconds) => s.(now := s.now + seconds)
    case Expire(tout) => s.(entries := Kept(s.entries, s.now, tout))
    case Clear => s.(entries := [])
  }

  /** The reference for a run that begins with an empty cache. */
  function Through(events: seq<Event>, start: int): Held {
    if events == [] then Held([], start) else Afterwards(Through(events[..|events| - 1], start), events[|events| - 1])
  }

  lemma ShownAdded(q: seq<NameNode>, n: NameNode)
    ensures Shown(q + [n]) == Shown(q) + [Cached(n.name, n.ip, n.creattime)]
  {
    assert (q + [n])[..|q|] == q;
  }

  lemma OthersAdded(es: seq<Cached>, x: Cached, name: seq<bv8>)
    ensures Others(es + [x], name) == Others(es, name) + (if Answers(x, name) then [] else [x])
  {
    assert (es + [x])[..|es|] == es;
  }

  /** Leaving out the entry that answers for a name, or none when there is none. */
  lemma {:induction false} OthersShown(q: seq<NameNode>, d: NameNode?, name: seq<bv8>)
    requires forall n <- q :: Answers(Cached(n.name, n.ip, n.creattime), name) <==> n == d
    ensures Others(Shown(q), name) == Shown(if d == null then q else Drop(q, d))
    decreases |q|
  {
    hide Answers;
    if q != [] {
      var r, last := q[..|q| - 1], q[|q| - 1];
      assert q == r + [last] && last in q && forall n <- r :: n in q;
      OthersShown(r, d, name);
      ShownAdded(r, last);
      OthersAdded(Shown(r), Cached(last.name, last.ip, last.creattime), name);
      if d != null {
        DropAdded(r, last, d);
        if last == d {
          assert Drop(r, d) + [] == Drop(r, d) && Shown(Drop(r, d)) + [] == Shown(Drop(r, d));
        } else {
          ShownAdded(Drop(r, d), last);
        }
      }
    }
  }

  lemma {:induction false} KeptShown(q: seq<NameNode>, now: int, tout: int)
    ensures Kept(Shown(q), now, tout) == Shown(Keep(q, now, tout))
    decreases |q|
  {
    if q != [] {
      assert Shown(q)[..|q| - 1] == Shown(q[..|q| - 1]);
      KeptShown(q[..|q| - 1], now, tout);
    }
  }

  lemma {:induction false} TableShown(q: seq<NameNode>)
    ensures Table(Shown(q)) == Addresses(q)
    decreases |q|
  {
    hide IdOf;
    if q != [] {
      assert Shown(q)[..|q| - 1] == Shown(q[..|q| - 1]);
      TableShown(q[..|q| - 1]);
    }
  }

  lemma ShownRenewed(q: seq<NameNode>, replaced: NameNode?, r: seq<NameNode>, name: seq<bv8>, ip: seq<byte>, now: int)
    requires Unique(q) && Renewed(q, replaced, r, name, ip, now)
    ensures Shown(r) == Others(Shown(q), name) + [Cached(name, ip, now)]
  {
    hide IdOf, Unique, Others, Shown;
    forall n | n in q ensures Answers(Cached(n.name, n.ip, n.creattime), name) <==> n == replaced {
      if n.name != [] && IdOf(n.name) == IdOf(name) {
        SameLength(n.name, name);
        if replaced != null { UniqueNode(q, n, replaced); }
      } else if n == replaced {
        SameLength(n.name, name);
      }
    }
    OthersShown(q, replaced, name);
    ShownAdded(r[..|r| - 1], r[|r| - 1]);
    assert r == r[..|r| - 1] + [r[|r| - 1]];
  }

  lemma ShownRemoved(q: seq<NameNode>, d: NameNode?, name: seq<bv8>)
    requires Unique(q) && (if d == null then Unknown(q, name) else d in q && d.name != [] && IdOf(d.name) == IdOf(name))
    ensures Others(Shown(q), name) == Shown(if d == null then q else Drop(q, d))
  {
    hide IdOf, Unique, Others, Shown;
    forall n | n in q ensures Answers(Cached(n.name, n.ip, n.creattime), name) <==> n == d {
      if n.name != [] && IdOf(n.name) == IdOf(name) && d != null { UniqueNode(q, n, d); }
    }
    OthersShown(q, d, name);
  }

  lemma OrderedAdded(q: seq<NameNode>, n: NameNode, now: int)
    ensures Ordered(q + [n], now)
      <==> Ordered(q, now) && n.creattime <= now && forall x <- q :: x.creattime <= n.creattime
  {
    var r := q + [n];
    assert n in r && forall x <- q :: x in r;
    if Ordered(r, now) {
      assert forall i, j :: 0 <= i < j < |q| ==> q[i] == r[i] && q[j] == r[j];
      forall x | x in q ensures x.creattime <= n.creattime {
        var i :| 0 <= i < |q| && q[i] == x;
        assert r[i] == x && r[|q|] == n;
      }
    }
  }

  lemma EarlierDropped(q: seq<NameNode>, n: NameNode, time: int)
    requires forall x <- q :: x.creattime <= time
    ensures forall x <- Drop(q, n) :: x.creattime <= time
  {}

  lemma {:induction false} OrderedDropped(q: seq<NameNode>, n: NameNode, now: int)
    requires Ordered(q, now)
    ensures Ordered(Drop(q, n), now)
    decreases |q|
  {
    hide Ordered;
    if q == [] {
      assert Drop(q, n) == q;
    } else {
      var r, last := q[..|q| - 1], q[|q| - 1];
      assert q == r + [last];
      OrderedAdded(r, last, now);
      OrderedDropped(r, n, now);
      DropAdded(r, last, n);
      if last != n {
        EarlierDropped(r, n, last.creattime);
        OrderedAdded(Drop(r, n), last, now);
      } else {
        assert Drop(r, n) + [] == Drop(r, n);
      }
    }
  }

  // ---- the parts of the invariant ----

  /** The tree `m` holds the nodes of the checksums, one for one. */
  ghost predicate Tied(m: map<Key, RbNode>, hs: set<HashNode>)
    reads hs`rbnode
  {
    && (forall h <- hs :: h.hash in m && h.rbnode == m[h.hash] && h.rbnode.data == h)
    && (forall k <- m :: exists h <- hs :: h.hash == k)
  }

  /** The list of a checksum holds its names, in the order of the queue. */
  ghost predicate Listed(q: seq<NameNode>, hs: set<HashNode>)
    reads hs`names, hs`dnsname_sum
  {
    forall h <- hs :: h.names == Of(q, h) && h.dnsname_sum == |h.names|
  }

  /** Every name is filed under its own CRC-32. */
  ghost predicate Owned(q: seq<NameNode>, hs: set<HashNode>) {
    forall n <- q :: n.owner in hs && n.owner.hash == HashOf(n.name)
  }

  /** No checksum but `x` is without names. */
  ghost predicate Full(hs: set<HashNode>, x: HashNode?)
    reads hs`names
  {
    forall h <- hs :: h != x ==> h.names != []
  }

  lemma TiedAdded(m: map<Key, RbNode>, hs: set<HashNode>, h: HashNode)
    requires Tied(m, hs) && h.hash !in m && h.rbnode != null && h.rbnode.data == h
    ensures Tied(m[h.hash := h.rbnode], hs + {h}) && h !in hs
  {}

  lemma TiedRemoved(m: map<Key, RbNode>, hs: set<HashNode>, h: HashNode)
    requires Tied(m, hs) && h in hs
    ensures Tied(m - {h.hash}, hs - {h})
  {}

  /** A new checksum has no names yet. */
  lemma ListedNew(q: seq<NameNode>, hs: set<HashNode>, h: HashNode)
    requires Listed(q, hs) && Owned(q, hs) && Full(hs, null) && h !in hs && h.names == [] && h.dnsname_sum == 0
    ensures Listed(q, hs + {h}) && Owned(q, hs + {h}) && Full(hs + {h}, h)
  {
    hide HashOf;
    NoNames(q, h);
  }

  /** A checksum without names can go. */
  lemma ListedGone(q: seq<NameNode>, hs: set<HashNode>, h: HashNode)
    requires Listed(q, hs) && Owned(q, hs) && Full(hs, h) && h in hs && h.names == []
    ensures Listed(q, hs - {h}) && Owned(q, hs - {h}) && Full(hs - {h}, null)
  {
    hide HashOf;
    OfMembers(q, h);
    assert forall n <- q :: n.owner == h ==> n in Of(q, h);
  }

  /** The second half of dnsname_node_new: the name joins the list of its checksum. */
  method JoinList(p: NameNode, ghost q: seq<NameNode>, ghost hs: set<HashNode>)
    requires Listed(q, hs) && Full(hs, p.owner)
    modifies p.owner`names, p.owner`dnsname_sum
    ensures Listed(q + [p], hs) && Full(hs, null)
  {
    hide Of;
    forall h | h in hs ensures Of(q + [p], h) == if p.owner == h then Of(q, h) + [p] else Of(q, h) {
      OfAdded(q, p, h);
      assert Of(q, h) + [] == Of(q, h);
    }
    p.owner.dnsname_sum := p.owner.dnsname_sum + 1;
    p.owner.names := p.owner.names + [p];
  }

  lemma OwnDropped(q: seq<NameNode>, p: NameNode)
    requires NoDup(q) && p in q
    ensures |Drop(Of(q, p.owner), p)| == |Of(q, p.owner)| - 1
  {
    OfMembers(q, p.owner);
    OfNoDup(q, p.owner);
    DropNoDup(Of(q, p.owner), p);
  }

  /** The second half of dnsname_node_free: the name leaves the list of its checksum. */
  method LeaveList(p: NameNode, ghost q: seq<NameNode>, ghost hs: set<HashNode>)
    requires Listed(q, hs) && Full(hs, p.owner) && NoDup(q) && p in q && p.owner in hs
    modifies p.owner`names, p.owner`dnsname_sum
    ensures Listed(Drop(q, p), hs) && Full(hs, p.owner)
  {
    hide NoDup, Drop, Of;
    forall h | h in hs ensures Of(Drop(q, p), h) == if p.owner == h then Drop(Of(q, h), p) else Of(q, h) {
      OfDropped(q, p, h);
    }
    OwnDropped(q, p);
    p.owner.names := Drop(p.owner.names, p);
    p.owner.dnsname_sum := p.owner.dnsname_sum - 1;
  }

  lemma OwnedDropped(q: seq<NameNode>, hs: set<HashNode>, p: NameNode)
    requires Owned(q, hs)
    ensures Owned(Drop(q, p), hs)
  {}

  /** The queue after the insertion of a name: the entry it replaces is gone, the new one is last. */
  ghost predicate Renewed(q: seq<NameNode>, replaced: NameNode?, r: seq<NameNode>, name: seq<bv8>, ip: seq<byte>,
                          now: int) {
    && r != [] && r[|r| - 1].name == name && r[|r| - 1].ip == ip && r[|r| - 1].creattime == now
    && r[..|r| - 1] == (if replaced == null then q else Drop(q, replaced))
    && (if replaced == null then name == [] || Unknown(q, name)
        else replaced in q && name != [] && IdOf(replaced.name) == IdOf(name))
  }

  lemma Outdated(q: seq<NameNode>, d: NameNode, name: seq<bv8>)
    requires Unique(q) && d in q && d.name != [] && IdOf(d.name) == IdOf(name)
    ensures Unknown(Drop(q, d), name) && name != []
  {
    hide IdOf;
    SameLength(d.name, name);
    forall n | n in q && n != d && n.name != [] ensures IdOf(n.name) != IdOf(name) {
      if IdOf(n.name) == IdOf(name) {
        UniqueNode(q, n, d);
      }
    }
    UnknownDropped(q, d, name);
  }

  /** dnstree_head_t */
  class Cache {
    const index: Index
    var dnstree_node_sum: int
    var dnsname_sum: int
    var queue: seq<NameNode>
    ghost var hashes: set<HashNode>

    /** The invariant, but for the names of one checksum, which may be gone. */
    ghost predicate ValidBut(h: HashNode?)
      reads this, index.tree, index.tree.sentinel, Nodes(index.tree.shape), hashes
    {
      index.Valid() && Agrees(index.Map(), h)
    }

    /** The queues agree with the tree `m`, and the counters with the queues. */
    ghost predicate Agrees(m: map<Key, RbNode>, h: HashNode?)
      reads this, hashes
    {
      && Tied(m, hashes)
      && Listed(queue, hashes) && Owned(queue, hashes) && Full(hashes, h) && NoDup(queue) && Unique(queue)
      && dnstree_node_sum == |hashes| && dnsname_sum == |queue|
    }

    ghost predicate Valid()
      reads this, index.tree, index.tree.sentinel, Nodes(index.tree.shape), hashes
    {
      ValidBut(null)
    }

    /** The map from name to the address last inserted for it. */
    ghost function Map(): map<Id, seq<byte>>
      reads this
    {
      Addresses(queue)
    }

    /** dnscache_init */
    constructor ()
      ensures Valid() && queue == [] && dnsname_sum == 0 && dnstree_node_sum == 0 && Map() == map[]
      ensures fresh(hashes) && fresh(index.Repr())
    {
      hide Index.Valid, Index.Map, HashOf, Of, IdOf;
      index := new Index();
      dnstree_node_sum, dnsname_sum, queue, hashes := 0, 0, [], {};
    }

    /** The tree shares no object with the rest. */
    lemma Apart()
      ensures this as object !in Nodes(index.tree.shape) && this as object != index.tree
      ensures this as object != index.tree.sentinel
      ensures forall h <- hashes ::
        h as object !in Nodes(index.tree.shape) && h as object != index.tree && h as object != index.tree.sentinel
    {}

    lemma Outside(dn: HashNode)
      ensures dn as object !in Nodes(index.tree.shape) && dn as object != index.tree
      ensures dn as object != index.tree.sentinel
    {}

    /** dnstree_node_find */
    method FindHash(hash: Key) returns (dtn: HashNode?)
      requires Valid()
      ensures Valid()
      ensures dtn != null ==> dtn in hashes && dtn.hash == hash
      ensures dtn == null ==> hash !in index.Map() && forall n <- queue :: HashOf(n.name) != hash
    {
      hide Index.Valid, Index.Map, HashOf, Of, IdOf;
      var node := index.Find(hash);
      if node == null {
        return null;
      }
      var data: object? := node.data;
      ghost var h :| h in hashes && h.hash == hash;
      dtn := data as HashNode?;
    }

    /** dnsname_node_find */
    method FindName(name: seq<bv8>, tnode: HashNode, ghost x: HashNode?) returns (d: NameNode?)
      requires ValidBut(x) && tnode in hashes && tnode.hash == HashOf(name)
      ensures ValidBut(x)
      ensures d != null ==> d in queue && d.name != [] && IdOf(d.name) == IdOf(name) && d.owner == tnode
      ensures d == null ==> name == [] || Unknown(queue, name)
    {
      hide Index.Valid, Index.Map, HashOf, Text, ValidBut;
      if |name| <= 0 {
        return null;
      }
      assert allocated(index.tree) && allocated(index.tree.sentinel) && allocated(Nodes(index.tree.shape));
      Filed(tnode, x);
      OfMembers(queue, tnode);
      for i := 0 to |tnode.names|
        invariant ValidBut(x) && forall j :: 0 <= j < i ==> IdOf(tnode.names[j].name) != IdOf(name)
      {
        d := tnode.names[i];
        assert d in tnode.names;
        if |name| == |d.name| {
          var equal := StrnEqual(name, d.name);
          if equal {
            return d;
          }
        }
      }
      forall n | n in queue ensures IdOf(n.name) != IdOf(name) {
        if n.owner == tnode {
          assert n in tnode.names;
        }
      }
      return null;
    }

    lemma Filed(h: HashNode, x: HashNode?)
      requires ValidBut(x) && h in hashes
      ensures h.names == Of(queue, h) && h.dnsname_sum == |h.names| && Unique(queue)
      ensures forall n <- queue :: HashOf(n.name) == h.hash <==> n.owner == h
    {}

    lemma Entries()
      requires Valid()
      ensures forall n <- queue :: n.name != [] ==> IdOf(n.name) in Map() && Map()[IdOf(n.name)] == n.ip
      ensures forall s <- Map() :: exists n <- queue :: n.name != [] && IdOf(n.name) == s
    {
      AddressEntries(queue);
    }

    /** A name that no entry answers for has no address. */
    lemma Missing(name: seq<bv8>)
      requires Valid() && (name == [] || Unknown(queue, name) || forall n <- queue :: HashOf(n.name) != HashOf(name))
      ensures IdOf(name) !in Map()
    {
      hide HashOf, Text, Valid, Map;
      Entries();
    }

    lemma Present(name: seq<bv8>, d: NameNode)
      requires Valid() && d in queue && d.name != [] && IdOf(d.name) == IdOf(name)
      ensures IdOf(name) in Map() && Map()[IdOf(name)] == d.ip
    {
      hide IdOf, Valid, Map;
      Entries();
    }

    /** dnscache_find */
    method Find(name: seq<bv8>) returns (d: NameNode?)
      requires Valid()
      ensures Valid() && (d == null <==> IdOf(name) !in Map())
      ensures d != null ==> d in queue && IdOf(d.name) == IdOf(name) && d.ip == Map()[IdOf(name)]
    {
      hide Index.Valid, Index.Map, HashOf, IdOf, Text, Valid, Map, Unknown, Unique, Crc;
      ghost var hs := hashes;
      assert allocated(index.tree) && allocated(index.tree.sentinel) && allocated(Nodes(index.tree.shape));
      assert allocated(hs);
      var crc := Crc32Short(name);
      var dtn := FindHash(crc as Key);
      HashValue(name, crc);
      if dtn == null {
        Missing(name);
        return null;
      }
      Weaker(null);
      d := FindName(name, dtn, null);
      Stronger(null);
      if d == null { Missing(name); } else { Present(name, d); }
    }

    lemma Weaker(h: HashNode?)
      requires Valid()
      ensures ValidBut(h)
    {}

    lemma Stronger(h: HashNode?)
      requires ValidBut(h) && (h in hashes ==> h.names != [])
      ensures Valid()
    {}

    /** dnstree_node_new: a node for a checksum that has none. */
    method NodeNew(hash: Key) returns (dn: HashNode)
      requires Valid() && hash !in index.Map()
      modifies this`hashes, this`dnstree_node_sum, index.Repr()
      ensures ValidBut(dn) && dn.hash == hash && hashes == old(hashes) + {dn} && queue == old(queue)
      ensures fresh(dn) && fresh(dn.rbnode) && index.Repr() == old(index.Repr()) + {dn.rbnode}
    {
      hide Index.Valid, Index.Map, HashOf, IdOf, Agrees;
      ghost var m, hs := index.Map(), hashes;
      Apart();
      assert allocated(index.Repr()) && allocated(hs);
      dn := new HashNode(hash);
      TreeAdd(dn);
      Register(dn, m);
    }

    method Register(dn: HashNode, ghost m: map<Key, RbNode>)
      requires index.Valid() && dn.rbnode != null && dn.rbnode.data == dn && dn.names == [] && dn.dnsname_sum == 0
      requires Agrees(m, null) && dn.hash !in m && index.Map() == m[dn.hash := dn.rbnode]
      modifies this`hashes, this`dnstree_node_sum
      ensures ValidBut(dn) && hashes == old(hashes) + {dn} && index.Repr() == old(index.Repr())
    {
      hide Index.Valid, Index.Map, HashOf, IdOf, NoDup, Unique, Listed, Owned, Full, Tied;
      TiedAdded(m, hashes, dn);
      ListedNew(queue, hashes, dn);
      Apart();
      hashes := hashes + {dn};
      dnstree_node_sum := dnstree_node_sum + 1;
    }

    /** The node of the tree. */
    method TreeAdd(dn: HashNode)
      requires index.Valid() && dn.hash !in index.Map()
      modifies dn`rbnode, index.Repr()
      ensures index.Valid() && dn.rbnode != null && dn.rbnode.data == dn && fresh(dn.rbnode)
      ensures index.Map() == old(index.Map())[dn.hash := dn.rbnode] && index.Repr() == old(index.Repr()) + {dn.rbnode}
    {
      hide Index.Valid, Index.Map;
      assert allocated(index.Repr());
      var node := new RbNode(dn.hash, dn);
      index.Insert(node);
      Outside(dn);
      dn.rbnode := node;
    }

    /** dnsname_node_new: the new name goes to the tail of both queues. */
    method NameNew(tnode: HashNode, name: seq<bv8>, ip: seq<byte>, now: int) returns (p: NameNode)
      requires ValidBut(tnode) && tnode in hashes && tnode.hash == HashOf(name)
      requires name == [] || Unknown(queue, name)
      modifies this`queue, this`dnsname_sum, tnode`names, tnode`dnsname_sum
      ensures Valid() && queue == old(queue) + [p] && index.Repr() == old(index.Repr())
      ensures p.name == name && p.ip == ip && p.creattime == now && p.owner == tnode
    {
      hide Index.Valid, Index.Map, HashOf, IdOf, NoDup, Unique, Listed, Full, Tied;
      Apart();
      Outside(tnode);
      assert allocated(index.tree) && allocated(index.tree.sentinel) && allocated(Nodes(index.tree.shape));
      assert forall n <- queue :: allocated(n);
      p := new NameNode(name, ip, now, tnode);
      assert p !in queue;
      NoDupAdded(queue, p);
      forall n | n in queue && n.name != [] ensures IdOf(n.name) != IdOf(name) {
        if IdOf(n.name) == IdOf(name) { SameLength(n.name, name); }
      }
      UniqueAdded(queue, p);
      dnsname_sum := dnsname_sum + 1;
      JoinList(p, queue, hashes);
      queue := queue + [p];
      assert index.Valid(); assert Tied(index.Map(), hashes);
      assert Listed(queue, hashes);
      assert Owned(queue, hashes);
      assert Full(hashes, null);
      assert NoDup(queue);
      assert Unique(queue);
      assert dnstree_node_sum == |hashes| && dnsname_sum == |queue|;
    }

    /** dnsname_node_free */
    method NameFree(p: NameNode)
      requires ValidBut(p.owner) && p in queue
      modifies this`queue, this`dnsname_sum, p.owner`names, p.owner`dnsname_sum
      ensures ValidBut(p.owner) && p.owner in hashes && queue == Drop(old(queue), p)
      ensures index.Repr() == old(index.Repr())
    {
      hide Index.Valid, Index.Map, HashOf, IdOf, NoDup, Unique, Listed, Full, Tied;
      Apart();
      Outside(p.owner);
      assert allocated(index.tree) && allocated(index.tree.sentinel) && allocated(Nodes(index.tree.shape));
      DropNoDup(queue, p);
      DropUnique(queue, p);
      OwnedDropped(queue, hashes, p);
      dnsname_sum := dnsname_sum - 1;
      LeaveList(p, queue, hashes);
      queue := Drop(queue, p);
      assert index.Valid(); assert Tied(index.Map(), hashes);
      assert Listed(queue, hashes);
      assert Owned(queue, hashes);
      assert Full(hashes, p.owner);
      assert NoDup(queue);
      assert Unique(queue);
      assert dnstree_node_sum == |hashes| && dnsname_sum == |queue|;
    }

    /** dnstree_node_free: a checksum that has names stays. */
    method NodeFree(dn: HashNode) returns (ret: int)
      requires ValidBut(dn) && dn in hashes
      modifies this`hashes, this`dnstree_node_sum, index.Repr()
      ensures Valid() && queue == old(queue) && index.Repr() <= old(index.Repr())
      ensures ret == if dn.names == [] then 0 else -1
      ensures hashes == if dn.names == [] then old(hashes) - {dn} else old(hashes)
    {
      hide Index.Valid, Index.Map, HashOf, IdOf, NoDup, Unique, Owned, Tied;
      if dn.dnsname_sum > 0 {
        return -1;
      }
      Unregister(dn);
      return 0;
    }

    method Unregister(dn: HashNode)
      requires ValidBut(dn) && dn in hashes && dn.names == []
      modifies this`hashes, this`dnstree_node_sum, index.Repr()
      ensures Valid() && queue == old(queue) && index.Repr() <= old(index.Repr()) && hashes == old(hashes) - {dn}
    {
      hide Index.Valid, Index.Map, HashOf, IdOf, NoDup, Unique, Owned, Listed, Full, Tied;
      Apart();
      TiedRemoved(index.Map(), hashes, dn);
      ListedGone(queue, hashes, dn);
      TreeDelete(dn);
      Apart();
      hashes := hashes - {dn};
      dnstree_node_sum := dnstree_node_sum - 1;
      assert index.Valid(); assert Tied(index.Map(), hashes);
      assert Listed(queue, hashes);
      assert Owned(queue, hashes);
      assert Full(hashes, null);
      assert NoDup(queue);
      assert Unique(queue);
      assert dnstree_node_sum == |hashes| && dnsname_sum == |queue|;
    }

    method TreeDelete(dn: HashNode)
      requires index.Valid() && Tied(index.Map(), hashes) && dn in hashes
      modifies index.Repr()
      ensures index.Valid() && index.Map() == old(index.Map()) - {dn.hash} && index.Repr() <= old(index.Repr())
    {
      hide Index.Valid, Index.Map;
      index.Mapped(dn.hash);
      index.Delete(dn.rbnode);
    }

    /** dnscache_del: the name goes, and its checksum with it when it was the last one. */
    method Del(p: NameNode)
      requires Valid() && p in queue
      modifies this, p.owner, index.Repr()
      ensures Valid() && queue == Drop(old(queue), p)
      ensures Map() == if p.name == [] then old(Map()) else old(Map()) - {IdOf(p.name)}
      ensures index.Repr() <= old(index.Repr()) && hashes <= old(hashes)
    {
      hide Index.Valid, Index.Map, Index.Repr, HashOf, IdOf, Valid, ValidBut, Addresses;
      Uniqueness();
      AddressDropped(queue, p);
      Weaker(p.owner);
      NameFree(p);
      Filed(p.owner, p.owner);
      if p.owner.dnsname_sum == 0 {
        var _ := NodeFree(p.owner);
      } else {
        Stronger(p.owner);
      }
    }

    lemma Uniqueness()
      requires Valid()
      ensures Unique(queue) && NoDup(queue) && forall n <- queue :: n.owner in hashes
    {}

    /** The node of a checksum, new or old. */
    method NodeFor(hash: Key) returns (dtn: HashNode)
      requires Valid()
      modifies this`hashes, this`dnstree_node_sum, index.Repr()
      ensures ValidBut(dtn) && dtn in hashes && dtn.hash == hash && queue == old(queue)
      ensures old(hashes) <= hashes && (forall h <- hashes :: h in old(hashes) || fresh(h))
      ensures forall o <- index.Repr() :: o in old(index.Repr()) || fresh(o)
    {
      hide Index.Valid, Index.Map, Index.Repr, HashOf, IdOf, Valid, ValidBut;
      var found := FindHash(hash);
      if found == null {
        dtn := NodeNew(hash);
      } else {
        dtn := found;
        Weaker(dtn);
      }
    }

    /** dnscache_insert: the name gets its new address, at the tail of the queue, and no other name changes. */
    method Insert(name: seq<bv8>, ip: seq<byte>, now: int) returns (ret: int, ghost replaced: NameNode?)
      requires Valid()
      modifies this, hashes, index.Repr()
      ensures Valid() && ret == 0 && (forall h <- hashes :: h in old(hashes) || fresh(h))
      ensures forall o <- index.Repr() :: o in old(index.Repr()) || fresh(o)
      ensures Map() == if name == [] then old(Map()) else old(Map())[IdOf(name) := ip]
      ensures Renewed(old(queue), replaced, queue, name, ip, now)
    {
      hide Index.Valid, Index.Map, Index.Repr, HashOf, IdOf, Text, Valid, ValidBut, Addresses;
      assert allocated(index.tree) && allocated(index.tree.sentinel) && allocated(Nodes(index.tree.shape));
      assert allocated(hashes);
      var crc := Crc32Short(name);
      HashValue(name, crc);
      var dtn := NodeFor(crc as Key);
      replaced := Renew(dtn, name, ip, now);
      ret := 0;
    }

    /** An entry of the same name is replaced. */
    method Renew(dtn: HashNode, name: seq<bv8>, ip: seq<byte>, now: int) returns (ghost replaced: NameNode?)
      requires ValidBut(dtn) && dtn in hashes && dtn.hash == HashOf(name)
      modifies this`queue, this`dnsname_sum, dtn`names, dtn`dnsname_sum
      ensures Valid() && index.Repr() == old(index.Repr())
      ensures Map() == if name == [] then old(Map()) else old(Map())[IdOf(name) := ip]
      ensures Renewed(old(queue), replaced, queue, name, ip, now)
    {
      hide Index.Valid, Index.Map, Index.Repr, HashOf, IdOf, Text, Valid, ValidBut, Addresses;
      var dnn := FindName(name, dtn, dtn);
      replaced := dnn;
      if dnn != null {
        Filed(dtn, dtn);
        AddressDropped(queue, dnn);
        Outdated(queue, dnn, name);
        NameFree(dnn);
      }
      ghost var rest := queue;
      var p := NameNew(dtn, name, ip, now);
      AddressAdded(rest, p);
    }

    /** dnscache_timeout */
    method Timeout(now: int, tout: int)
      requires Valid()
      modifies this, hashes, index.Repr()
      ensures Valid() && queue == Keep(old(queue), now, tout)
      ensures index.Repr() <= old(index.Repr()) && hashes <= old(hashes)
    {
      hide Index.Valid, Index.Map, Index.Repr, HashOf, IdOf, Text, Valid, ValidBut, Addresses;
      var i := |queue|;
      while i > 0
        invariant 0 <= i == |queue| && Valid() && Keep(queue, now, tout) == Keep(old(queue), now, tout)
        invariant index.Repr() <= old(index.Repr()) && hashes <= old(hashes)
      {
        var d := queue[i - 1];
        i := i - 1;
        Uniqueness();
        DropLast(queue);
        if now - d.creattime > tout {
          Del(d);
        } else {
          break;
        }
      }
    }

    /** dnscache_empty: nothing is left, in either level. */
    method Empty(now: int)
      requires Valid() && forall n <- queue :: n.creattime <= now
      modifies this, hashes, index.Repr()
      ensures Valid() && queue == [] && dnsname_sum == 0 && dnstree_node_sum == 0 && Map() == map[]
      ensures index.Map() == map[]
      ensures index.Repr() <= old(index.Repr()) && hashes <= old(hashes)
    {
      hide Index.Valid, Index.Map, Index.Repr, HashOf, IdOf, Text, Valid, ValidBut;
      KeepNone(queue, now);
      Timeout(now, -1);
      NoneLeft();
    }

    lemma NoneLeft()
      requires Valid() && queue == []
      ensures dnsname_sum == 0 && dnstree_node_sum == 0 && index.Map() == map[]
    {}

    /** One event of a run, with a clock that does not go back: no address is ever wrong, and only the two kinds
        of expiry can forget one. */
    method Handle(e: Event, now: int) returns (later: int)
      requires Valid() && Ordered(queue, now)
      modifies this, hashes, index.Repr()
      ensures Valid() && later >= now && Ordered(queue, later)
      ensures Held(Shown(queue), later) == Afterwards(Held(Shown(old(queue)), now), e)
      ensures (forall h <- hashes :: h in old(hashes) || fresh(h))
      ensures forall o <- index.Repr() :: o in old(index.Repr()) || fresh(o)
      ensures Within(Map(), Updated(old(Map()), e))
      ensures !Forgets(e) ==> Map() == Updated(old(Map()), e)
    {
      hide Index.Valid, Index.Map, Index.Repr, HashOf, IdOf, Text, Valid, ValidBut, Ordered, Shown, Others, Unique,
        Renewed, Kept;
      later := now;
      Uniqueness();
      match e {
        case Put(name, ip) =>
          var ret, replaced := Insert(name, ip, now);
          ShownRenewed(old(queue), replaced, queue, name, ip, now);
          OrderedRenewed(old(queue), replaced, queue, name, ip, now);
        case Remove(name) =>
          var d := Find(name);
          Entries();
          if d == null {
            ShownRemoved(queue, d, name);
          } else {
            NonEmpty(d);
            ShownRemoved(queue, d, name);
            OrderedDropped(queue, d, now);
            assert d in queue && d.owner in hashes;
            Del(d);
          }
        case Tick(seconds) =>
          OrderedLater(queue, now, now + seconds);
          later := now + seconds;
        case Expire(tout) =>
          KeptShown(queue, now, tout);
          KeepKnown(queue, now, tout);
          Timeout(now, tout);
        case Clear =>
          KeepKnown(queue, now, -1);
          NoneYoung(queue, now);
          Timeout(now, -1);
      }
    }

    lemma NonEmpty(d: NameNode)
      requires Valid() && d in queue && IdOf(d.name) in Map()
      ensures d.name != []
    {
      hide Valid, IdOf;
      Entries();
      var n :| n in queue && n.name != [] && IdOf(n.name) == IdOf(d.name);
      SameLength(n.name, d.name);
    }
  }

  datatype Event = Put(name: seq<bv8>, ip: seq<byte>) | Remove(name: seq<bv8>) | Tick(seconds: nat) | Expire(tout: int)
    | Clear

  predicate Forgets(e: Event) { e.Expire? || e.Clear? }

  /** What an event means for the addresses, when nothing is forgotten. */
  function Updated(m: map<Id, seq<byte>>, e: Event): map<Id, seq<byte>> {
    match e
    case Put(name, ip) => if name == [] then m else m[IdOf(name) := ip]
    case Remove(name) => m - {IdOf(name)}
    case _ => m
  }

  /** The address last inserted for every name that was not removed since. */
  function Last(events: seq<Event>): map<Id, seq<byte>> {
    if events == [] then map[] else Updated(Last(events[..|events| - 1]), events[|events| - 1])
  }

  ghost predicate Within(a: map<Id, seq<byte>>, b: map<Id, seq<byte>>) {
    forall s <- a :: s in b && b[s] == a[s]
  }

  lemma WithinUpdated(a: map<Id, seq<byte>>, b: map<Id, seq<byte>>, e: Event)
    requires Within(a, b)
    ensures Within(Updated(a, e), Updated(b, e))
  {}

  lemma OrderedLater(q: seq<NameNode>, now: int, later: int)
    requires Ordered(q, now) && now <= later
    ensures Ordered(q, later)
  {}

  lemma OrderedRenewed(q: seq<NameNode>, replaced: NameNode?, r: seq<NameNode>, name: seq<bv8>, ip: seq<byte>, now: int)
    requires Ordered(q, now) && Renewed(q, replaced, r, name, ip, now)
    ensures Ordered(r, now)
  {
    hide IdOf;
    var rest, p := r[..|r| - 1], r[|r| - 1];
    if replaced != null { OrderedDropped(q, replaced, now); }
    OrderedAdded(rest, p, now);
    assert r == rest + [p];
  }

  lemma KeepKnown(q: seq<NameNode>, now: int, tout: int)
    requires Unique(q)
    ensures var k := Keep(q, now, tout); Within(Addresses(k), Addresses(q)) && (Ordered(q, now) ==> Ordered(k, now))
  {
    hide IdOf, Addresses, Unique, Keep, Ordered;
    KeepOld(q, now, tout);
    PrefixKnown(q, |Keep(q, now, tout)|);
    if Ordered(q, now) { PrefixOrdered(q, |Keep(q, now, tout)|, now); }
  }

  lemma PrefixKnown(q: seq<NameNode>, n: nat)
    requires Unique(q) && n <= |q|
    ensures Within(Addresses(q[..n]), Addresses(q))
  {
    hide IdOf, Addresses;
    AddressEntries(q);
    AddressEntries(q[..n]);
    assert forall x :: x in q[..n] ==> x in q;
  }

  lemma PrefixOrdered(q: seq<NameNode>, n: nat, now: int)
    requires Ordered(q, now) && n <= |q|
    ensures Ordered(q[..n], now)
  {
    assert forall x :: x in q[..n] ==> x in q;
  }

  lemma NoneYoung(q: seq<NameNode>, now: int)
    requires Ordered(q, now)
    ensures Keep(q, now, -1) == [] && Shown([]) == []
  {
    KeepNone(q, now);
  }

  /** Every run of insertions, removals and expiries is the run of the reference, entry by entry; and it refines the
      map of the addresses last inserted: what the cache answers is right, and without expiry it answers for every
      name. */
  method Run(events: seq<Event>, start: int) returns (c: Cache, now: int)
    ensures c.Valid() && Ordered(c.queue, now)
    ensures Held(Shown(c.queue), now) == Through(events, start) && c.Map() == Table(Through(events, start).entries)
    ensures Within(c.Map(), Last(events))
    ensures (forall e <- events :: !Forgets(e)) ==> c.Map() == Last(events)
  {
    hide Index.Valid, Index.Map, Index.Repr, HashOf, IdOf, Text, Cache.Valid, Cache.ValidBut, Addresses, Afterwards;
    c := new Cache();
    now := start;
    for i := 0 to |events|
      invariant fresh(c) && c.Valid() && fresh(c.index.Repr()) && fresh(c.hashes) && Ordered(c.queue, now)
      invariant Held(Shown(c.queue), now) == Through(events[..i], start)
      invariant Within(c.Map(), Last(events[..i]))
      invariant (forall j :: 0 <= j < i ==> !Forgets(events[j])) ==> c.Map() == Last(events[..i])
    {
      assert events[..i + 1][..i] == events[..i];
      WithinUpdated(c.Map(), Last(events[..i]), events[i]);
      now := c.Handle(events[i], now);
    }
    assert events[..|events|] == events;
    TableShown(c.queue);
  }

  /** Such a run: a minute's walk leaves the first name although it is two minutes old, because the second one was
      added behind it. */
  lemma StaleExample(a: seq<byte>, b: seq<byte>)
    ensures Through([Put([0x61], a), Tick(100), Put([0x62], b), Tick(20), Expire(60)], 0)
      == Held([Cached([0x61], a, 0), Cached([0x62], b, 100)], 120)
  {
    hide IdOf;
    var first, second := Cached([0x61], a, 0), Cached([0x62], b, 100);
    var e1, e2, e3, e4 := [Put([0x61], a)], [Put([0x61], a), Tick(100)], [Put([0x61], a), Tick(100), Put([0x62], b)],
      [Put([0x61], a), Tick(100), Put([0x62], b), Tick(20)];
    var e5 := e4 + [Expire(60)];
    IdExact([0x61], [0x62]);
    OthersAdded([], first, [0x62]);
    assert e5[..4] == e4 && e4[..3] == e3 && e3[..2] == e2 && e2[..1] == e1 && e1[..0] == [];
    assert Through(e1, 0) == Held([first], 0);
    assert Through(e2, 0) == Held([first], 100);
    assert [] + [first] == [first];
    assert Through(e3, 0) == Held([first, second], 100);
    assert Through(e4, 0) == Held([first, second], 120);
    assert Through(e5, 0) == Held([first, second], 120);
    assert e5 == [Put([0x61], a), Tick(100), Put([0x62], b), Tick(20), Expire(60)];
  }

  lemma {:induction false} KeepNone(q: seq<NameNode>, now: int)
    requires forall n <- q :: n.creattime <= now
    ensures Keep(q, now, -1) == []
    decreases |q|
  {
    if q != [] {
      assert q[|q| - 1] in q && forall n <- q[..|q| - 1] :: n in q;
      KeepNone(q[..|q| - 1], now);
    }
  }

  lemma HashValue(name: seq<bv8>, crc: bv32)
    requires crc == Crc(name)
    ensures HashOf(name) == crc as Key
  {}
}
