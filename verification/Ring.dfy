/**
 queue.h: rings of nodes with a head, linked both ways, changed in a constant number of assignments.
 Every macro refines an operation on the sequence of the nodes behind the head; the other files use that sequence.
 */
module Ring {
  /** queue_t. A new node is a ring of its own: queue_init. */
  class Node {
    var prev: Node
    var next: Node

    constructor ()
      ensures IsRing(this, [])
    {
      prev, next := this, this;
    }
  }

  ghost predicate Distinct(s: seq<Node>) {
    forall i, j :: 0 <= i < j < |s| ==> s[i] != s[j]
  }

  ghost function Front(s: seq<Node>): seq<Node> { if s == [] then [] else s[..|s| - 1] }

  ghost function Back(s: seq<Node>): seq<Node> { if s == [] then [] else s[1..] }

  /** Each node is linked with the one after it. */
  ghost predicate Linked(s: seq<Node>)
    reads Front(s)`next, Back(s)`prev
    decreases |s|
  {
    |s| < 2 || (Linked(Front(s)) && s[|s| - 2].next == s[|s| - 1] && s[|s| - 1].prev == s[|s| - 2])
  }

  ghost predicate Chain(s: seq<Node>)
    reads Front(s)`next, Back(s)`prev
  {
    Linked(s)
  }

  /** `s` is what follows the head `h`, until the ring comes back to it. */
  ghost predicate IsRing(h: Node, s: seq<Node>)
    reads h, s
  {
    var c := [h] + s;
    Distinct(c) && Chain(c) && c[|c| - 1].next == h && h.prev == c[|c| - 1]
  }

  // ---- sequences ----

  lemma {:induction false} ChainJoin(s: seq<Node>, t: seq<Node>)
    requires s != [] && t != []
    ensures Chain(s + t) <==> Chain(s) && Chain(t) && s[|s| - 1].next == t[0] && t[0].prev == s[|s| - 1]
    decreases |t|
  {
    var c := s + t;
    assert Front(c) == s + Front(t);
    if |t| == 1 {
      assert Front(c) == s;
    } else {
      ChainJoin(s, Front(t));
      assert c[|c| - 2] == t[|t| - 2] && c[|c| - 1] == t[|t| - 1];
    }
  }

  lemma DistinctJoin(s: seq<Node>, t: seq<Node>)
    ensures Distinct(s + t) <==> Distinct(s) && Distinct(t) && forall x <- s :: x !in t
    ensures Distinct(s + t) && s != [] ==> s[0] !in t
  {
    var c := s + t;
    if Distinct(c) {
      forall i, j | 0 <= i < j < |s| ensures s[i] != s[j] { assert s[i] == c[i] && s[j] == c[j]; }
      forall i, j | 0 <= i < j < |t| ensures t[i] != t[j] { assert t[i] == c[|s| + i] && t[j] == c[|s| + j]; }
      forall i, j | 0 <= i < |s| && 0 <= j < |t| ensures s[i] != t[j] { assert s[i] == c[i] && t[j] == c[|s| + j]; }
    }
    if Distinct(s) && Distinct(t) && forall x <- s :: x !in t {
      forall i, j | 0 <= i < j < |c| ensures c[i] != c[j] {
        if i < |s| <= j {
          assert s[i] in s && t[j - |s|] in t;
        }
      }
    }
  }

  lemma Ends(s: seq<Node>)
    requires Distinct(s) && s != []
    ensures s[0] !in Back(s) && s[|s| - 1] !in Front(s) && s[0] in s && s[|s| - 1] in s
    ensures (forall x <- Front(s) :: x in s) && (forall x <- Back(s) :: x in s)
  {}

  lemma ChainAt(s: seq<Node>, i: nat)
    requires Chain(s) && 0 < i < |s|
    ensures s[i].prev == s[i - 1] && s[i - 1].next == s[i]
  {
    hide Chain;
    assert s == s[..i] + s[i..];
    ChainJoin(s[..i], s[i..]);
  }

  /** The links of a head determine what follows it. */
  lemma {:induction false} OneRing(h: Node, s: seq<Node>, t: seq<Node>)
    requires IsRing(h, s) && IsRing(h, t) && |s| <= |t|
    ensures s == t
  {
    hide Chain;
    var c, d := [h] + s, [h] + t;
    var k := |d| - |c|;
    forall i | 0 <= i < |c| ensures c[i] == d[k + i] { SameNode(h, s, t, i); }
    assert c[0] == h && d[0] == h && d[k + 0] == c[0];
    assert s == c[1..] && t == d[1..] && c == d;
  }

  lemma {:induction false} SameNode(h: Node, s: seq<Node>, t: seq<Node>, i: nat)
    requires IsRing(h, s) && IsRing(h, t) && |s| <= |t| && i <= |s|
    ensures ([h] + s)[i] == ([h] + t)[|t| - |s| + i]
    decreases |s| - i
  {
    hide Chain, Distinct;
    if i < |s| {
      SameNode(h, s, t, i + 1);
      ChainAt([h] + s, i + 1);
      ChainAt([h] + t, |t| - |s| + i + 1);
    }
  }

  lemma Alone(x: Node)
    ensures Chain([x]) && Distinct([x])
  {}

  /** Two stretches with a node between them. */
  lemma Parts(c: seq<Node>, x: Node, b: seq<Node>)
    requires Distinct(c + ([x] + b)) && c != []
    ensures Distinct(c + b) && x !in c && c[|c| - 1] != x
    ensures c[0] !in Back(c) && c[|c| - 1] !in Front(c) && x !in Front(c) && x !in Back(c)
    ensures x !in Front(b) && x !in Back(b) && c[0] !in Back(b) && c[|c| - 1] !in Front(b)
    ensures b != [] ==> b[0] !in Back(b) && b[|b| - 1] !in Front(b) && b[0] !in Back(c) && b[|b| - 1] !in Front(c)
    ensures b != [] ==> b[0] != x && b[|b| - 1] != x && b[|b| - 1] != c[|c| - 1] && b[0] != c[0]
  {
    hide Distinct;
    DistinctJoin(c, [x] + b);
    assert x in [x] + b && forall y <- b :: y in [x] + b;
    DistinctJoin([x], b);
    DistinctJoin(c, b);
    Ends(c);
    assert forall y <- b :: y !in c;
    if b != [] { Ends(b); }
  }

  // ---- the macros ----

  /** queue_init */
  method Init(q: Node)
    modifies q
    ensures IsRing(q, [])
  {
    q.prev := q;
    q.next := q;
  }

  /** queue_isempty */
  method IsEmpty(h: Node, ghost s: seq<Node>) returns (empty: bool)
    requires IsRing(h, s)
    ensures empty == (s == [])
  {
    empty := h.next == h || h.prev == h;
    if s != [] {
      ChainJoin([h], s);
      assert ([h] + s)[0] == h && ([h] + s)[1] == s[0];
    }
  }

  /** queue_insert_head */
  method InsertHead(h: Node, x: Node, ghost s: seq<Node>)
    requires IsRing(h, s) && x != h && x !in s
    modifies x, h`next, h.next`prev
    ensures IsRing(h, [x] + s)
  {
    hide Distinct, Chain;
    Alone(h);
    Alone(x);
    DistinctJoin([h], s);
    DistinctJoin([x], s);
    DistinctJoin([h], [x] + s);
    if s != [] { ChainJoin([h], s); Ends(s); }
    x.next := h.next;
    x.next.prev := x;
    x.prev := h;
    h.next := x;
    Alone(h);
    Alone(x);
    if s != [] { ChainJoin([x], s); } else { assert [x] + s == [x]; }
    ChainJoin([h], [x] + s);
  }

  /** queue_insert_tail */
  method InsertTail(h: Node, x: Node, ghost s: seq<Node>)
    requires IsRing(h, s) && x != h && x !in s
    modifies x, h`prev, h.prev`next
    ensures IsRing(h, s + [x])
  {
    hide Distinct, Chain;
    ghost var c := [h] + s;
    Alone(x);
    DistinctJoin(c, [x]);
    Ends(c);
    x.prev := h.prev;
    x.prev.next := x;
    x.next := h;
    h.prev := x;
    Alone(x);
    ChainJoin(c, [x]);
    assert [h] + (s + [x]) == c + [x];
  }

  /** queue_remove: the node leaves its ring, whose head it need not know, and becomes a ring of its own. */
  method Remove(x: Node, ghost h: Node, ghost a: seq<Node>, ghost b: seq<Node>)
    requires IsRing(h, a + [x] + b)
    modifies x, x.prev`next, x.next`prev
    ensures IsRing(h, a + b) && IsRing(x, [])
  {
    hide Distinct, Chain;
    ghost var c := [h] + a;
    assert [h] + (a + [x] + b) == c + ([x] + b) && [h] + (a + b) == c + b;
    Alone(x);
    Parts(c, x, b);
    ChainJoin(c, [x] + b);
    if b != [] { ChainJoin([x], b); }
    x.next.prev := x.prev;
    x.prev.next := x.next;
    Init(x);
    if b != [] { ChainJoin(c, b); } else { assert c + b == c; }
  }

  /** queue_split: the ring is cut before `q`, which becomes the first behind the head `n`. */
  method Split(h: Node, q: Node, n: Node, ghost a: seq<Node>, ghost b: seq<Node>)
    requires IsRing(h, a + [q] + b) && n != h && n !in a + [q] + b
    modifies n, h`prev, h.prev`next, q`prev, q.prev`next
    ensures IsRing(h, a) && IsRing(n, [q] + b)
  {
    hide Distinct, Chain;
    ghost var c, d := [h] + a, [q] + b;
    assert [h] + (a + [q] + b) == c + d;
    Alone(n);
    DistinctJoin(c, d);
    DistinctJoin([n], d);
    ChainJoin(c, d);
    Ends(c);
    Ends(d);
    n.prev := h.prev;
    n.prev.next := n;
    n.next := q;
    h.prev := q.prev;
    h.prev.next := h;
    q.prev := n;
    Alone(n);
    ChainJoin([n], d);
  }

  /** queue_add: the nodes behind `n` follow those behind `h`. The links of `n` itself are left as they are. */
  method Add(h: Node, n: Node, ghost a: seq<Node>, ghost b: seq<Node>)
    requires IsRing(h, a) && IsRing(n, b) && Distinct(([h] + a) + ([n] + b))
    modifies h`prev, h.prev`next, n.next`prev, n.prev`next
    ensures IsRing(h, a + b)
  {
    hide Distinct, Chain;
    ghost var c := [h] + a;
    assert [h] + (a + b) == c + b;
    Parts(c, n, b);
    if b != [] { ChainJoin([n], b); }
    h.prev.next := n.next;
    n.next.prev := h.prev;
    h.prev := n.prev;
    h.prev.next := h;
    if b != [] { ChainJoin(c, b); } else { assert c + b == c; }
  }

  /** The splice of backend_handle_read, which is queue_add and queue_init written out: everything behind `from`
      moves to the end of `to`. */
  method Splice(to: Node, from: Node, ghost a: seq<Node>, ghost b: seq<Node>)
    requires IsRing(to, a) && IsRing(from, b) && Distinct(([to] + a) + ([from] + b))
    modifies to`prev, to.prev`next, from, from.next`prev, from.prev`next
    ensures IsRing(to, a + b) && IsRing(from, [])
  {
    hide Distinct, Chain, IsRing;
    Elsewhere(to, from, a, b);
    Add(to, from, a, b);
    Init(from);
  }

  lemma Elsewhere(to: Node, from: Node, a: seq<Node>, b: seq<Node>)
    requires Distinct(([to] + a) + ([from] + b))
    ensures from != to && from !in a + b
  {
    hide Distinct;
    DistinctJoin([to] + a, [from] + b);
    DistinctJoin([from], b);
    assert from in [from] + b && to in [to] + a && forall x <- a :: x in [to] + a;
    assert [from][0] == from;
  }

  /** The neighbours of a head are its own nodes. */
  lemma Around(h: Node, s: seq<Node>)
    requires IsRing(h, s)
    ensures (h.next == h || h.next in s) && (h.prev == h || h.prev in s)
  {
    hide Distinct, Chain;
    if s != [] {
      ChainJoin([h], s);
      assert h.next == s[0] && h.prev == s[|s| - 1];
    }
  }

  lemma Cut(h: Node, q: Node, n: Node, a: seq<Node>, b: seq<Node>)
    requires IsRing(h, a + [q] + b) && n != h && n !in a + [q] + b
    ensures Distinct(([h] + a) + ([n] + ([q] + b)))
    ensures q.prev == h || q.prev in a
  {
    hide Distinct, Chain;
    var c, d := [h] + a, [q] + b;
    assert [h] + (a + [q] + b) == c + d;
    Alone(n);
    DistinctJoin(c, d);
    DistinctJoin([n], d);
    DistinctJoin(c, [n] + d);
    ChainJoin(c, d);
  }

  /** What queue_split takes off, queue_add puts back. */
  method SplitThenAdd(h: Node, q: Node, n: Node, ghost a: seq<Node>, ghost b: seq<Node>)
    requires IsRing(h, a + [q] + b) && n != h && n !in a + [q] + b
    modifies n, h, a, q, b
    ensures IsRing(h, a + [q] + b)
  {
    hide IsRing, Distinct;
    Around(h, a + [q] + b);
    Cut(h, q, n, a, b);
    Split(h, q, n, a, b);
    Around(h, a);
    Around(n, [q] + b);
    Add(h, n, a, [q] + b);
    assert a + ([q] + b) == a + [q] + b;
  }
}
