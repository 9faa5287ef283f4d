/**
 A read position inside a chunk, as the stream parsers keep it: a buffer of the chunk and an offset
 into its live bytes. `pre` and `post` are the buffers before and after it.
 */
module Cursors {
  import opened Bytes
  import opened Chunks

  /** The live bytes of the buffers, one by one. */
  ghost function Contents(q: seq<Buffer>): (r: seq<seq<byte>>)
    requires Wf(q)
    reads q, Arrays(q)
    ensures |r| == |q|
  {
    if q == [] then [] else [q[0].Content()] + Contents(q[1..])
  }

  lemma {:induction false} ContentsFlat(q: seq<Buffer>)
    requires Wf(q)
    ensures Concat(Contents(q)) == Flat(q)
  {
    if q != [] {
      WfParts([q[0]], q[1..]);
      ContentsFlat(q[1..]);
    }
  }

  lemma {:induction false} ContentsAre(q: seq<Buffer>, segments: seq<seq<byte>>)
    requires Wf(q) && |q| == |segments| && forall i :: 0 <= i < |q| ==> q[i].Content() == segments[i]
    ensures Contents(q) == segments
  {
    if q != [] {
      WfParts([q[0]], q[1..]);
      ContentsAre(q[1..], segments[1..]);
      assert segments == [segments[0]] + segments[1..];
    }
  }

  lemma ContentsCons(b: Buffer, rest: seq<Buffer>)
    requires Wf([b] + rest)
    ensures b.Valid() && Wf(rest) && Contents([b] + rest) == [b.Content()] + Contents(rest)
  {
    WfParts([b], rest);
    assert [b][0] == b && ([b] + rest)[1..] == rest;
  }

  ghost predicate At(ck: Chunk, buf: Buffer, pos: nat, pre: seq<Buffer>, post: seq<Buffer>)
    reads ck, ck.queue, pre, post, buf
  {
    ck.Valid() && ck.queue == pre + [buf] + post && Wf(pre) && Wf(post) && buf.Valid() && pos <= buf.used
  }

  /** The bytes of the chunk before the position. */
  ghost function Seen(buf: Buffer, pos: nat, pre: seq<Buffer>): seq<byte>
    requires Wf(pre) && buf.Valid() && pos <= buf.used
    reads pre, Arrays(pre), buf, buf.buf
  {
    Flat(pre) + buf.Content()[..pos]
  }

  /** The bytes of the chunk from the position on. */
  ghost function Ahead(buf: Buffer, pos: nat, post: seq<Buffer>): seq<byte>
    requires Wf(post) && buf.Valid() && pos <= buf.used
    reads post, Arrays(post), buf, buf.buf
  {
    buf.Content()[pos..] + Flat(post)
  }

  lemma Whole(ck: Chunk, buf: Buffer, pos: nat, pre: seq<Buffer>, post: seq<Buffer>)
    requires At(ck, buf, pos, pre, post)
    ensures ck.Bytes() == Seen(buf, pos, pre) + Ahead(buf, pos, post)
  {
    hide Flat, Wf;
    MiddleOne(pre, buf, post);
    Around(Flat(pre), buf.Content(), Flat(post), pos);
  }

  lemma Around(a: seq<byte>, b: seq<byte>, c: seq<byte>, k: nat)
    requires k <= |b|
    ensures a + b + c == (a + b[..k]) + (b[k..] + c)
  {}

  /** `p = buf->data[pos]` reads the first byte ahead. */
  lemma OneAhead(buf: Buffer, pos: nat, pre: seq<Buffer>, post: seq<Buffer>)
    requires Wf(pre) && Wf(post) && buf.Valid() && pos < buf.used
    ensures var p := buf.buf[buf.data + pos];
      && Ahead(buf, pos, post) == [p] + Ahead(buf, pos + 1, post)
      && Seen(buf, pos + 1, pre) == Seen(buf, pos, pre) + [p]
  {}

  /** At the end of a buffer the position is also the start of the next one. */
  lemma NextBuffer(ck: Chunk, buf: Buffer, pre: seq<Buffer>, post: seq<Buffer>)
    requires At(ck, buf, buf.used, pre, post) && post != []
    ensures At(ck, post[0], 0, pre + [buf], post[1..])
    ensures Seen(post[0], 0, pre + [buf]) == Seen(buf, buf.used, pre)
    ensures Ahead(post[0], 0, post[1..]) == Ahead(buf, buf.used, post)
    ensures IndexOf(ck.queue, buf) == |pre|
  {
    hide Flat, Wf, IndexOf;
    MiddlePlace(pre, buf, post);
    var next, rest := post[0], post[1..];
    assert post == [next] + rest && ck.queue == (pre + [buf]) + post;
    FlatAppend(pre + [buf], post);
    FlatAppend(pre, [buf]);
    FlatOne(buf);
    FirstRest(post);
    assert ck.queue == (pre + [buf]) + [next] + rest;
    Ends(Flat(pre), buf.Content());
    Ends(Flat(rest), next.Content());
    Ends(Flat(post), buf.Content());
  }

  lemma Ends(a: seq<byte>, b: seq<byte>)
    ensures b[..|b|] == b && b[0..] == b && b[|b|..] == [] && b[..0] == []
    ensures a + [] == a && [] + a == a
  {}

  /** At the end of the last buffer nothing is ahead. */
  lemma NoMore(ck: Chunk, buf: Buffer, pre: seq<Buffer>)
    requires At(ck, buf, buf.used, pre, [])
    ensures Ahead(buf, buf.used, []) == []
    ensures IndexOf(ck.queue, buf) == |pre| && |ck.queue| == |pre| + 1
  {
    MiddlePlace(pre, buf, []);
    EmptyFlat([]);
  }

  /** del_first_char_and_update_pos: the first byte of the buffer goes, whatever the position is. */
  method DeleteFirst(ck: Chunk, buf: Buffer, pos: nat, ghost pre: seq<Buffer>, ghost post: seq<Buffer>)
    returns (newpos: nat)
    requires At(ck, buf, pos, pre, post) && 0 < pos
    modifies buf`data, buf`used, ck`total_size
    ensures newpos == pos - 1 && buf.used == old(buf.used) - 1 && At(ck, buf, newpos, pre, post)
    ensures Ahead(buf, newpos, post) == old(Ahead(buf, pos, post))
    ensures buf.Content() == old(buf.Content())[1..]
    ensures Flat(pre) == old(Flat(pre)) && Contents(post) == old(Contents(post))
  {
    hide Flat, Wf, Contents;
    MiddleOne(pre, buf, post);
    ghost var content := buf.Content();
    assert content[1..][pos - 1..] == content[pos..];
    assert allocated(pre) && allocated(post) && allocated(Arrays(pre)) && allocated(Arrays(post));
    buf.DropFront(1);
    newpos := pos - 1;
    ck.total_size := ck.total_size - 1;
    assert ck as object !in Arrays(pre) && ck as object !in Arrays(post) && buf as object !in Arrays(pre);
    assert buf as object !in Arrays(post);
    JoinOne(pre, buf, post);
  }

  /** chunk_split_buffer at the position: afterwards the position is the end of a buffer. */
  method CutAt(ck: Chunk, buf: Buffer, pos: nat, ghost pre: seq<Buffer>, ghost post: seq<Buffer>)
    returns (part: Buffer, ghost newpost: seq<Buffer>)
    requires At(ck, buf, pos, pre, post) && 0 < pos
    modifies ck`queue, buf`data, buf`used
    ensures part.used == pos && At(ck, part, pos, pre, newpost) && (part == buf || fresh(part))
    ensures (part == buf || newpost != []) && forall b <- ck.queue :: b in old(ck.queue) || fresh(b)
    ensures part.Content() == old(buf.Content())[..pos] && Flat(pre) == old(Flat(pre))
    ensures Contents(newpost) == Holding(old(buf.Content())[pos..]) + old(Contents(post))
  {
    hide Flat, Wf, Moved, Contents;
    MiddleOne(pre, buf, post);
    assert allocated(pre) && allocated(Arrays(pre)) && allocated(post) && allocated(Arrays(post));
    assert ck as object !in Arrays(pre) && buf as object !in Arrays(pre);
    assert ck as object !in Arrays(post) && buf as object !in Arrays(post);
    ghost var q, behind := ck.queue, Contents(post);
    assert buf in q && forall b :: b in pre || b in post ==> b in q;
    var tmp;
    ghost var rest;
    tmp, rest := ck.Split(buf, pos, pre, post);
    part := tmp;
    if rest == null {
      newpost := post;
      AllOf(part.Content(), behind);
    } else {
      newpost := Behind(pre, part, rest, post);
    }
    MiddleOne(pre, part, newpost);
  }

  lemma AllOf(s: seq<byte>, behind: seq<seq<byte>>)
    ensures s[..|s|] == s && Holding(s[|s|..]) + behind == behind
  {}

  lemma Behind(pre: seq<Buffer>, part: Buffer, rest: Buffer, post: seq<Buffer>) returns (q: seq<Buffer>)
    requires Wf(pre + [part, rest] + post)
    ensures q != [] && pre + [part] + q == pre + [part, rest] + post && Wf(q) && Wf(post) && rest.Valid()
    ensures Contents(q) == [rest.Content()] + Contents(post)
  {
    hide Flat, Wf, Contents;
    q := [rest] + post;
    assert pre + [part, rest] + post == pre + [part] + q;
    MiddleOne(pre, part, q);
    ContentsCons(rest, post);
  }

  /** del_last_char_and_update_pos at the end of a buffer. */
  method DeleteLast(ck: Chunk, buf: Buffer, pos: nat, ghost pre: seq<Buffer>, ghost post: seq<Buffer>)
    returns (newpos: nat)
    requires At(ck, buf, pos, pre, post) && 0 < pos == buf.used
    modifies buf`used, ck`total_size
    ensures newpos == pos - 1 == buf.used && At(ck, buf, newpos, pre, post)
    ensures buf.Content() == old(buf.Content())[..newpos]
    ensures Flat(pre) == old(Flat(pre)) && Contents(post) == old(Contents(post))
  {
    hide Flat, Wf, Contents;
    MiddleOne(pre, buf, post);
    assert allocated(pre) && allocated(post) && allocated(Arrays(pre)) && allocated(Arrays(post));
    newpos := pos - 1;
    buf.used := buf.used - 1;
    ck.total_size := ck.total_size - 1;
    assert ck as object !in Arrays(pre) && ck as object !in Arrays(post) && buf as object !in Arrays(pre);
    assert buf as object !in Arrays(post);
    JoinOne(pre, buf, post);
  }

  /** chunk_split_buffer at the position, then del_last_char_and_update_pos: the byte just read goes, and what
      follows it stands at the start of a buffer. */
  method SplitAndDelete(ck: Chunk, buf: Buffer, pos: nat, ghost pre: seq<Buffer>, ghost post: seq<Buffer>)
    returns (part: Buffer, newpos: nat, ghost newpost: seq<Buffer>)
    requires At(ck, buf, pos, pre, post) && 0 < pos
    modifies ck`queue, ck`total_size, buf`data, buf`used
    ensures newpos == pos - 1 == part.used && At(ck, part, newpos, pre, newpost)
    ensures (part == buf || newpost != []) && forall b <- ck.queue :: b in old(ck.queue) || fresh(b)
    ensures part.Content() == old(buf.Content())[..pos - 1] && Flat(pre) == old(Flat(pre))
    ensures Contents(newpost) == Holding(old(buf.Content())[pos..]) + old(Contents(post))
    ensures Ahead(part, newpos, newpost) == old(Ahead(buf, pos, post))
  {
    hide Flat, Wf, IndexOf, Contents, Concat;
    ghost var content, behind := buf.Content(), Contents(post);
    AheadIs(buf, pos, post);
    part, newpost := CutAt(ck, buf, pos, pre, post);
    newpos := DeleteLast(ck, part, pos, pre, newpost);
    AheadIs(part, newpos, newpost);
    HoldingAhead(content[pos..], behind);
    assert content[..pos][..pos - 1] == content[..pos - 1] && part.Content()[newpos..] == [];
  }

  lemma AheadIs(buf: Buffer, pos: nat, post: seq<Buffer>)
    requires Wf(post) && buf.Valid() && pos <= buf.used
    ensures Ahead(buf, pos, post) == buf.Content()[pos..] + Concat(Contents(post))
  {
    ContentsFlat(post);
  }

  lemma HoldingAhead(s: seq<byte>, behind: seq<seq<byte>>)
    ensures [] + Concat(Holding(s) + behind) == s + Concat(behind)
  {
    ConcatAppend(Holding(s), behind);
    if s == [] {
      assert Holding(s) + behind == behind;
    } else {
      assert (Holding(s) + behind)[1..] == behind;
    }
  }
}

/** A stream of bytes that arrives in several calls, each with several buffers. */
module Streams {
  import opened Bytes
  import opened Chunks
  import opened Cursors

  /** The bytes of the first calls. */
  function Stream(calls: seq<seq<seq<byte>>>): seq<byte> {
    if calls == [] then [] else Stream(calls[..|calls| - 1]) + Concat(calls[|calls| - 1])
  }

  /** The buffers of the first calls, one by one. */
  function Segments(calls: seq<seq<seq<byte>>>): (r: seq<seq<byte>>)
    ensures Concat(r) == Stream(calls)
  {
    if calls == [] then [] else
      ConcatAppend(Segments(calls[..|calls| - 1]), calls[|calls| - 1]);
      Segments(calls[..|calls| - 1]) + calls[|calls| - 1]
  }

  lemma SegmentsEmpty()
    ensures Segments([]) == []
  {}

  lemma SegmentsStep(calls: seq<seq<seq<byte>>>, k: nat)
    requires k < |calls|
    ensures Segments(calls[..k + 1]) == Segments(calls[..k]) + calls[k]
  {
    assert calls[..k + 1][..k] == calls[..k];
  }

  lemma {:induction false} SegmentsPrefix(calls: seq<seq<seq<byte>>>, k: nat)
    requires k <= |calls|
    ensures Segments(calls[..k]) <= Segments(calls)
  {
    if k == |calls| {
      assert calls[..k] == calls;
    } else {
      var most := calls[..|calls| - 1];
      SegmentsPrefix(most, k);
      assert most[..k] == calls[..k];
    }
  }

  method DeliverOne(ck: Chunk, bytes: seq<byte>) returns (b: Buffer)
    requires ck.Valid()
    modifies ck
    ensures ck.Valid() && ck.queue == old(ck.queue) + [b] && ck.Bytes() == old(ck.Bytes()) + bytes
    ensures fresh(b) && fresh(b.buf) && b.Valid() && b.Content() == bytes && b.used == |bytes|
    ensures ck.limit == old(ck.limit)
  {
    hide Flat, Wf;
    assert allocated(ck.queue) && allocated(Arrays(ck.queue));
    b := new Buffer(|bytes|);
    StoreBytes(b, bytes);
    ck.Put(b);
  }

  lemma NothingDelivered()
    ensures Concat([]) == []
  {}

  method DeliverAll(ck: Chunk, segments: seq<seq<byte>>) returns (ghost more: seq<Buffer>)
    requires ck.Valid()
    modifies ck
    ensures ck.Valid() && ck.queue == old(ck.queue) + more && ck.Bytes() == old(ck.Bytes()) + Concat(segments)
    ensures |more| == |segments| && fresh(more) && ck.limit == old(ck.limit)
    ensures forall i :: 0 <= i < |more| ==> more[i].used == |segments[i]| && fresh(more[i].buf)
    ensures forall i :: 0 <= i < |more| ==> more[i].Valid() && more[i].Content() == segments[i]
  {
    hide Flat, Wf, Contents, Buffer.Content, Buffer.Valid, Concat, Chunk.Valid, Chunk.Bytes;
    more := [];
    ghost var q, had := ck.queue, ck.Bytes();
    assert q + more == q && had == had + [];
    NothingDelivered();
    for i := 0 to |segments|
      invariant ck.Valid() && ck.limit == old(ck.limit) && ck.queue == q + more && |more| == i && fresh(more)
      invariant forall j :: 0 <= j < i ==> more[j].used == |segments[j]| && fresh(more[j].buf)
      invariant forall j :: 0 <= j < i ==> more[j].Valid() && more[j].Content() == segments[j]
      invariant ck.Bytes() == had + Concat(segments[..i])
    {
      ConcatStep(segments, i);
      var b := DeliverOne(ck, segments[i]);
      assert (q + more) + [b] == q + (more + [b]);
      more := more + [b];
      Regroup(had, Concat(segments[..i]), segments[i]);
    }
    assert segments[..|segments|] == segments;
  }

  /** Buffers that arrive between two calls. */
  method Deliver(ck: Chunk, segments: seq<seq<byte>>) returns (ghost more: seq<Buffer>)
    requires ck.Valid()
    modifies ck
    ensures ck.Valid() && ck.queue == old(ck.queue) + more && ck.Bytes() == old(ck.Bytes()) + Concat(segments)
    ensures |more| == |segments| && fresh(more) && Wf(more) && Flat(more) == Concat(segments)
    ensures Contents(more) == segments
    ensures forall i :: 0 <= i < |more| ==> more[i].used == |segments[i]| && fresh(more[i].buf)
    ensures Wf(old(ck.queue)) && Flat(old(ck.queue)) == old(ck.Bytes()) && ck.limit == old(ck.limit)
  {
    hide Flat, Wf, Contents, Buffer.Content, Buffer.Valid, Concat;
    ghost var q, had := ck.queue, ck.Bytes();
    assert allocated(q) && allocated(Arrays(q)) && ck as object !in Arrays(q);
    more := DeliverAll(ck, segments);
    FlatAppend(q, more);
    ContentsAre(more, segments);
    SameTail(had, Flat(more), Concat(segments));
  }

  lemma Regroup(a: seq<byte>, b: seq<byte>, c: seq<byte>)
    ensures (a + b) + c == a + (b + c)
  {}

  lemma StreamEmpty()
    ensures Stream([]) == []
  {}

  lemma StreamStep(calls: seq<seq<seq<byte>>>, k: nat)
    requires k < |calls|
    ensures Stream(calls[..k + 1]) == Stream(calls[..k]) + Concat(calls[k])
  {
    assert calls[..k + 1][..k] == calls[..k];
  }

  lemma {:induction false} StreamPrefix(calls: seq<seq<seq<byte>>>, k: nat)
    requires k <= |calls|
    ensures Stream(calls[..k]) <= Stream(calls)
  {
    if k == |calls| {
      assert calls[..k] == calls;
    } else {
      var most := calls[..|calls| - 1];
      StreamPrefix(most, k);
      assert most[..k] == calls[..k];
    }
  }

  /** The same for callers that only look at the bytes. */
  method DeliverMore(ck: Chunk, segments: seq<seq<byte>>)
    requires ck.Valid()
    modifies ck
    ensures ck.Valid() && ck.Bytes() == old(ck.Bytes()) + Concat(segments) && ck.limit == old(ck.limit)
    ensures forall j :: 0 <= j < |ck.queue| ==>
      ck.queue[j] in old(ck.queue) || (fresh(ck.queue[j]) && fresh(ck.queue[j].buf))
  {
    hide Flat, Wf, Concat;
    ghost var q := ck.queue;
    ghost var more := Deliver(ck, segments);
    assert forall j :: 0 <= j < |q| ==> ck.queue[j] == q[j];
    assert forall j :: |q| <= j < |ck.queue| ==> ck.queue[j] == more[j - |q|];
  }
}
