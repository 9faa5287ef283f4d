/**
 dns_parse.c, the replies: eight-byte packets reassembled from the buffers of a chunk, across buffers and
 calls, through a static context.
 */
module EchoBlocks {
  import opened Bytes

  const DNS_ECHO_LEN: nat := 8

  /** The reference: the consecutive blocks of a stream, and the bytes that are no block yet. */
  function Blocks(s: seq<byte>): seq<seq<byte>> {
    if |s| < DNS_ECHO_LEN then [] else [s[..DNS_ECHO_LEN]] + Blocks(s[DNS_ECHO_LEN..])
  }

  function Left(s: seq<byte>): seq<byte> {
    if |s| < DNS_ECHO_LEN then s else Left(s[DNS_ECHO_LEN..])
  }

  lemma {:induction false} BlocksAppend(s: seq<byte>, t: seq<byte>)
    ensures Blocks(s + t) == Blocks(s) + Blocks(Left(s) + t) && Left(s + t) == Left(Left(s) + t)
    decreases |s|
  {
    if |s| < DNS_ECHO_LEN {
      assert [] + Blocks(s + t) == Blocks(s + t);
    } else {
      var head, more := s[..DNS_ECHO_LEN], s[DNS_ECHO_LEN..];
      BlocksAppend(more, t);
      assert (s + t)[DNS_ECHO_LEN..] == more + t && (s + t)[..DNS_ECHO_LEN] == head;
      assert [head] + (Blocks(more) + Blocks(Left(s) + t)) == ([head] + Blocks(more)) + Blocks(Left(s) + t);
    }
  }

  /** Block `i` is exactly the i-th eight bytes, and fewer than eight bytes are left. */
  lemma {:induction false} BlockPlaces(s: seq<byte>, i: nat)
    ensures |Blocks(s)| == |s| / DNS_ECHO_LEN && Left(s) == s[|s| - |s| % DNS_ECHO_LEN..]
    ensures i < |Blocks(s)| ==>
      DNS_ECHO_LEN * (i + 1) <= |s| && Blocks(s)[i] == s[DNS_ECHO_LEN * i..DNS_ECHO_LEN * (i + 1)]
    decreases |s|
  {
    if |s| >= DNS_ECHO_LEN {
      var more := s[DNS_ECHO_LEN..];
      BlockPlaces(more, if i == 0 then 0 else i - 1);
      assert |s| / DNS_ECHO_LEN == |more| / DNS_ECHO_LEN + 1 && |s| % DNS_ECHO_LEN == |more| % DNS_ECHO_LEN;
    }
  }

  lemma OneBlock(a: seq<byte>, b: seq<byte>)
    requires |a| == DNS_ECHO_LEN
    ensures Blocks(a + b) == [a] + Blocks(b) && Left(a + b) == Left(b)
  {}
}

module DnsEcho {
  import opened Bytes
  import opened Chunks
  import opened Streams
  import opened EchoBlocks

  /** The static dns_ctx. */
  class Context {
    const tmp: array<byte>
    var tmpos: nat
    var intmp: bool

    constructor ()
      ensures Valid() && Held() == [] && fresh(tmp)
    {
      tmp := new byte[DNS_ECHO_LEN];
      tmpos, intmp := 0, false;
    }

    ghost predicate Valid()
      reads this
    {
      tmp.Length == DNS_ECHO_LEN && (intmp ==> tmpos < DNS_ECHO_LEN)
    }

    /** The bytes of an unfinished packet. */
    ghost function Held(): seq<byte>
      requires Valid()
      reads this, tmp
    {
      if intmp then tmp[..tmpos] else []
    }

    /** `memcpy( dns_ctx.tmpos, buf->data, n )` */
    method Collect(buf: Buffer, n: nat)
      requires buf.Valid() && n <= buf.used && tmp != buf.buf && tmp.Length == DNS_ECHO_LEN && tmpos + n <= DNS_ECHO_LEN
      modifies tmp, `tmpos
      ensures tmpos == old(tmpos) + n && tmp[..tmpos] == old(tmp[..tmpos]) + buf.Content()[..n]
    {
      ghost var had := tmp[..tmpos];
      SubSlice(buf.buf, buf.data, buf.data + buf.used, 0, n);
      ghost var piece := buf.Content()[..n];
      assert piece == buf.buf[buf.data..buf.data + n];
      Memcpy(tmp, tmpos, buf.buf, buf.data, n);
      tmpos := tmpos + n;
      assert tmp[..tmpos] == tmp[..tmpos - n] + tmp[tmpos - n..tmpos];
    }
  }

  /** `buf->data += n; buf->used -= n`, and an empty buffer leaves the chunk. */
  method Take(ck: Chunk, buf: Buffer, n: nat)
    requires ck.Valid() && ck.queue != [] && buf == ck.queue[0] && n <= buf.used
    modifies ck, buf`data, buf`used
    ensures ck.Valid() && ck.Bytes() == old(ck.Bytes())[n..]
    ensures ck.queue == if old(buf.used) == n then old(ck.queue)[1..] else old(ck.queue)
  {
    hide Flat, Wf, StoredSize, TotalSize, Buffer.Content;
    FirstRest(ck.queue);
    ConsumeFirst(ck, buf, n);
    if buf.used <= 0 {
      FirstRest(ck.queue);
      NothingFirst(buf.Content(), Flat(ck.queue[1..]));
      assert ck as object !in Arrays(ck.queue[1..]);
      var gone := ck.Get();
    }
  }

  lemma NothingFirst(a: seq<byte>, b: seq<byte>)
    requires |a| == 0
    ensures a + b == b
  {}

  /** A round while a packet is being collected. */
  method Continue(ctx: Context, ck: Chunk, buf: Buffer) returns (pkt: seq<byte>)
    requires ctx.Valid() && ck.Valid() && ck.queue != [] && buf == ck.queue[0] && ctx.tmp !in Arrays(ck.queue)
    requires ctx.intmp
    modifies ctx, ctx.tmp, ck, buf`data, buf`used
    ensures ctx.Valid() && ck.Valid()
    ensures ck.queue == old(ck.queue) || ck.queue == old(ck.queue)[1..]
    ensures |ck.Bytes()| < |old(ck.Bytes())| || (|ck.Bytes()| == |old(ck.Bytes())| && ck.queue == old(ck.queue)[1..])
    ensures (|pkt| == 0 || |pkt| == DNS_ECHO_LEN) && old(ctx.Held() + ck.Bytes()) == pkt + ctx.Held() + ck.Bytes()
  {
    hide Flat, Wf, Buffer.Content;
    pkt := [];
    FirstRest(ck.queue);
    assert buf in ck.queue && buf.buf in Arrays(ck.queue);
    ghost var held, all, content := ctx.Held(), ck.Bytes(), buf.Content();
    assert ctx as object !in Arrays(ck.queue) && ctx as object != buf.buf && ck as object != ctx.tmp;
    var tmpleft := DNS_ECHO_LEN - ctx.tmpos;
    var cplen := if tmpleft < buf.used then tmpleft else buf.used;
    ctx.Collect(buf, cplen);
    ghost var got := ctx.tmp[..ctx.tmpos];
    Moved(held, content, Flat(ck.queue[1..]), cplen);
    assert ck.Bytes() == all && held + all == got + all[cplen..];
    Take(ck, buf, cplen);
    ghost var left := ck.Bytes();
    assert ctx.tmp[..ctx.tmpos] == got && held + all == got + left;
    assert ctx as object !in Arrays(ck.queue);
    if ctx.tmpos >= DNS_ECHO_LEN {
      ctx.intmp := false;
      pkt := ctx.tmp[..];
      assert pkt == got;
      assert ck.Bytes() == left && pkt + [] == pkt;
    } else {
      assert [] + got == got;
    }
  }

  /** A round with too few bytes for a packet: they are set aside. */
  method SetAside(ctx: Context, ck: Chunk, buf: Buffer)
    requires ctx.Valid() && ck.Valid() && ck.queue != [] && buf == ck.queue[0]
    requires ctx.tmp !in Arrays(ck.queue) && !ctx.intmp && buf.used < DNS_ECHO_LEN
    modifies ctx, ctx.tmp, ck, buf`data, buf`used
    ensures ctx.Valid() && ck.Valid()
    ensures ck.queue == old(ck.queue) || ck.queue == old(ck.queue)[1..]
    ensures |ck.Bytes()| < |old(ck.Bytes())| || (|ck.Bytes()| == |old(ck.Bytes())| && ck.queue == old(ck.queue)[1..])
    ensures old(ctx.Held() + ck.Bytes()) == ctx.Held() + ck.Bytes()
  {
    hide Flat, Wf, Buffer.Content;
    FirstRest(ck.queue);
    assert buf in ck.queue && buf.buf in Arrays(ck.queue);
    ghost var all, content := ck.Bytes(), buf.Content();
    assert ctx as object !in Arrays(ck.queue) && ctx as object != buf.buf && ck as object != ctx.tmp;
    ctx.tmpos := 0;
    ctx.Collect(buf, buf.used);
    ctx.intmp := true;
    Moved([], content, Flat(ck.queue[1..]), buf.used);
    assert ctx.Held() == content && ck.Bytes() == all && [] + all == all;
    var gone := ck.Get();
  }

  /** A round with a whole packet at the front. */
  method Whole(ctx: Context, ck: Chunk, buf: Buffer) returns (pkt: seq<byte>)
    requires ctx.Valid() && ck.Valid() && ck.queue != [] && buf == ck.queue[0]
    requires ctx.tmp !in Arrays(ck.queue) && !ctx.intmp && DNS_ECHO_LEN <= buf.used
    modifies ctx, ctx.tmp, ck, buf`data, buf`used
    ensures ctx.Valid() && ck.Valid()
    ensures ck.queue == old(ck.queue) || ck.queue == old(ck.queue)[1..]
    ensures |ck.Bytes()| < |old(ck.Bytes())| || (|ck.Bytes()| == |old(ck.Bytes())| && ck.queue == old(ck.queue)[1..])
    ensures |pkt| == DNS_ECHO_LEN && old(ctx.Held() + ck.Bytes()) == pkt + ctx.Held() + ck.Bytes()
  {
    hide Flat, Wf, Buffer.Content;
    FirstRest(ck.queue);
    ghost var content, rest, all := buf.Content(), Flat(ck.queue[1..]), ck.Bytes();
    assert allocated(ck.queue) && allocated(Arrays(ck.queue));
    pkt := FirstEight(buf);
    Moved([], content, rest, DNS_ECHO_LEN);
    assert ck.Bytes() == all && [] + all == all && pkt + [] == pkt;
    Take(ck, buf, DNS_ECHO_LEN);
  }

  method FirstEight(buf: Buffer) returns (pkt: seq<byte>)
    requires buf.Valid() && DNS_ECHO_LEN <= buf.used
    ensures pkt == buf.Content()[..DNS_ECHO_LEN]
  {
    pkt := buf.buf[buf.data..buf.data + DNS_ECHO_LEN];
  }

  lemma Moved(held: seq<byte>, content: seq<byte>, rest: seq<byte>, n: nat)
    requires n <= |content|
    ensures held + (content + rest) == (held + content[..n]) + (content + rest)[n..]
    ensures n == |content| ==> content[..n] == content && (content + rest)[n..] == rest
    ensures [] + content[..n] == content[..n]
  {}

  /** dns_parse_echo: the packets handled are the blocks of what was held and what the chunk holds; the chunk
      is emptied and fewer than eight bytes stay in the context. */
  method ParseEcho(ctx: Context, ck: Chunk) returns (packets: seq<seq<byte>>)
    requires ctx.Valid() && ck.Valid() && ctx.tmp !in Arrays(ck.queue)
    modifies ctx, ctx.tmp, ck, ck.queue`data, ck.queue`used
    ensures ctx.Valid() && ck.Valid() && ck.queue == []
    ensures packets == Blocks(old(ctx.Held() + ck.Bytes())) && ctx.Held() == Left(old(ctx.Held() + ck.Bytes()))
  {
    hide Flat, Wf, Blocks, Left, Context.Held;
    packets := [];
    ghost var s, k := ctx.Held() + ck.Bytes(), 0;
    assert [] + Blocks(s) == Blocks(s);
    var buf := ck.GetFirst();
    while buf != null
      invariant ctx.Valid() && ck.Valid() && buf == ck.GetFirst()
      invariant 0 <= k <= |old(ck.queue)| && ck.queue == old(ck.queue)[k..] && ctx.tmp !in Arrays(ck.queue)
      invariant packets + Blocks(ctx.Held() + ck.Bytes()) == Blocks(s) && Left(ctx.Held() + ck.Bytes()) == Left(s)
      decreases |ck.Bytes()|, |ck.queue|
    {
      ghost var held, rest := ctx.Held(), ck.Bytes();
      assert ck.queue[0] in ck.queue && old(ck.queue)[k] == ck.queue[0];
      if ctx.intmp {
        var pkt := Continue(ctx, ck, buf);
        Regroup(pkt, ctx.Held(), ck.Bytes());
        Progress(packets, pkt, ctx.Held() + ck.Bytes(), s);
        if |pkt| > 0 {
          packets := packets + [pkt];
        }
      } else if buf.used < DNS_ECHO_LEN {
        SetAside(ctx, ck, buf);
      } else {
        var pkt := Whole(ctx, ck, buf);
        Regroup(pkt, ctx.Held(), ck.Bytes());
        Progress(packets, pkt, ctx.Held() + ck.Bytes(), s);
        packets := packets + [pkt];
      }
      if ck.queue != old(ck.queue)[k..] {
        k := k + 1;
      }
      buf := ck.GetFirst();
    }
    EmptyFlat(ck.queue);
    assert ctx.Held() + [] == ctx.Held();
    HeldShort(ctx);
    assert packets + [] == packets;
  }

  lemma HeldShort(ctx: Context)
    requires ctx.Valid()
    ensures Blocks(ctx.Held()) == [] && Left(ctx.Held()) == ctx.Held()
  {}

  lemma Progress(packets: seq<seq<byte>>, pkt: seq<byte>, after: seq<byte>, s: seq<byte>)
    requires packets + Blocks(pkt + after) == Blocks(s) && Left(pkt + after) == Left(s)
    ensures |pkt| == DNS_ECHO_LEN ==> (packets + [pkt]) + Blocks(after) == Blocks(s) && Left(after) == Left(s)
    ensures |pkt| == 0 ==> packets + Blocks(after) == Blocks(s) && Left(after) == Left(s)
  {
    hide Blocks, Left;
    if |pkt| == DNS_ECHO_LEN {
      OneBlock(pkt, after);
      assert packets + ([pkt] + Blocks(after)) == (packets + [pkt]) + Blocks(after);
    } else if |pkt| == 0 {
      assert pkt + after == after;
    }
  }

  /** Some buffers arrive and the handler runs. */
  method Arrive(ctx: Context, ck: Chunk, segments: seq<seq<byte>>) returns (packets: seq<seq<byte>>)
    requires ctx.Valid() && ck.Valid() && ck.queue == []
    modifies ctx, ctx.tmp, ck
    ensures ctx.Valid() && ck.Valid() && ck.queue == []
    ensures packets == Blocks(old(ctx.Held()) + Concat(segments))
    ensures ctx.Held() == Left(old(ctx.Held()) + Concat(segments))
  {
    hide Flat, Wf, Blocks, Left, Context.Held, Concat;
    EmptyFlat(ck.queue);
    assert [] + Concat(segments) == Concat(segments);
    assert allocated(ctx.tmp);
    ghost var more := Deliver(ck, segments);
    assert ck.queue == more;
    assert forall j :: 0 <= j < |more| ==> fresh(more[j].buf);
    assert forall b :: b in more ==> fresh(b) && b.buf != ctx.tmp;
    packets := ParseEcho(ctx, ck);
  }

  /** Every segmentation: over all calls and buffers the packets are the blocks of the whole stream. */
  method ReadStream(calls: seq<seq<seq<byte>>>) returns (packets: seq<seq<byte>>, ctx: Context)
    ensures packets == Blocks(Stream(calls)) && ctx.Valid() && ctx.Held() == Left(Stream(calls))
  {
    hide Flat, Wf, Blocks, Left, Context.Held, Stream;
    ctx := new Context();
    var ck := new Chunk(102400);
    packets := [];
    assert Stream(calls[..0]) == [] by { StreamEmpty(); }
    HeldShort(ctx);
    for i := 0 to |calls|
      invariant fresh(ctx) && fresh(ctx.tmp) && fresh(ck) && ctx.Valid() && ck.Valid() && ck.queue == []
      invariant packets == Blocks(Stream(calls[..i])) && ctx.Held() == Left(Stream(calls[..i]))
    {
      StreamStep(calls, i);
      BlocksAppend(Stream(calls[..i]), Concat(calls[i]));
      var some := Arrive(ctx, ck, calls[i]);
      packets := packets + some;
    }
    assert calls[..|calls|] == calls;
  }
}
