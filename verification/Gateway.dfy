/**
 gateway_interface.c: rebuilding the length-prefixed user entry messages of the gateway from the buffers
 of its read chunk. A message starts with five header bytes; the last two of them hold its whole length.
 */
module GatewayFrames {
  import opened Bytes

  const GW_BUFFER_HEADER_LEN: nat := 5
  const GW_BUFFER_LEN_POSITION: nat := 3

  /** ntohs of the length field */
  function LengthOf(s: seq<byte>): (n: nat)
    requires |s| >= GW_BUFFER_HEADER_LEN
    ensures n < 0x10000
  {
    s[GW_BUFFER_LEN_POSITION] as int * 0x100 + s[GW_BUFFER_LEN_POSITION + 1] as int
  }

  predicate HasHeader(s: seq<byte>) {
    |s| >= GW_BUFFER_HEADER_LEN
  }

  /** A whole message stands at the front. */
  predicate HasFrame(s: seq<byte>) {
    HasHeader(s) && GW_BUFFER_HEADER_LEN <= LengthOf(s) <= |s|
  }

  /** The reference: messages are cut off greedily from the front. */
  function Frames(s: seq<byte>): seq<seq<byte>> {
    if HasFrame(s) then [s[..LengthOf(s)]] + Frames(s[LengthOf(s)..]) else []
  }

  function Left(s: seq<byte>): seq<byte> {
    if HasFrame(s) then Left(s[LengthOf(s)..]) else s
  }

  /** No length field claims less than the header. */
  predicate WellFormed(s: seq<byte>) {
    HasHeader(s) ==> GW_BUFFER_HEADER_LEN <= LengthOf(s) && (HasFrame(s) ==> WellFormed(s[LengthOf(s)..]))
  }

  lemma {:induction false} FramesAppend(s: seq<byte>, t: seq<byte>)
    ensures Frames(s + t) == Frames(s) + Frames(Left(s) + t) && Left(s + t) == Left(Left(s) + t)
    decreases |s|
  {
    hide LengthOf;
    if HasFrame(s) {
      var n := LengthOf(s);
      FramesAppend(s[n..], t);
      FrameStays(s, t);
      assert (s + t)[n..] == s[n..] + t && (s + t)[..n] == s[..n];
      PrependFrame(s[..n], Frames(s[n..]), Frames(Left(s) + t));
    } else {
      NoFrames(Frames(s + t));
    }
  }

  lemma FrameStays(s: seq<byte>, t: seq<byte>)
    requires HasFrame(s)
    ensures HasFrame(s + t) && LengthOf(s + t) == LengthOf(s)
  {}

  lemma PrependFrame(m: seq<byte>, a: seq<seq<byte>>, b: seq<seq<byte>>)
    ensures [m] + (a + b) == ([m] + a) + b
  {}

  lemma NoFrames(a: seq<seq<byte>>)
    ensures [] + a == a
  {}

  lemma {:induction false} WellFormedSplits(s: seq<byte>, t: seq<byte>)
    requires WellFormed(s + t)
    ensures WellFormed(s) && WellFormed(Left(s) + t)
    decreases |s|
  {
    if HasHeader(s) {
      assert LengthOf(s + t) == LengthOf(s);
      if HasFrame(s) {
        var n := LengthOf(s);
        assert (s + t)[n..] == s[n..] + t;
        WellFormedSplits(s[n..], t);
      }
    }
  }

  /** Nothing is lost and nothing is invented. */
  lemma {:induction false} FramesCover(s: seq<byte>)
    ensures Joined(Frames(s)) + Left(s) == s && !HasFrame(Left(s))
    decreases |s|
  {
    hide LengthOf, Joined;
    NothingJoined();
    if HasFrame(s) {
      var n := LengthOf(s);
      FramesCover(s[n..]);
      JoinedCons(s[..n], Frames(s[n..]));
      Halves(s, n, Joined(Frames(s[n..])), Left(s[n..]));
    } else {
      assert [] + s == s;
    }
  }

  lemma Halves(s: seq<byte>, n: nat, a: seq<byte>, b: seq<byte>)
    requires n <= |s| && a + b == s[n..]
    ensures (s[..n] + a) + b == s
  {
    assert (s[..n] + a) + b == s[..n] + (a + b);
  }

  lemma NothingJoined()
    ensures Joined([]) == []
  {}

  lemma JoinedCons(f: seq<byte>, frames: seq<seq<byte>>)
    ensures Joined([f] + frames) == f + Joined(frames)
  {
    assert ([f] + frames)[0] == f && ([f] + frames)[1..] == frames;
  }

  function Joined(frames: seq<seq<byte>>): seq<byte> {
    if frames == [] then [] else frames[0] + Joined(frames[1..])
  }

  /** Any messages with right length fields are found again, one by one. */
  lemma {:induction false} JoinedFrames(frames: seq<seq<byte>>, rest: seq<byte>)
    requires forall f <- frames :: HasHeader(f) && LengthOf(f) == |f|
    requires !HasFrame(rest)
    ensures Frames(Joined(frames) + rest) == frames && Left(Joined(frames) + rest) == rest
    decreases |frames|
  {
    hide LengthOf, Joined;
    NothingJoined();
    if frames == [] {
      assert Joined(frames) + rest == rest;
    } else {
      var f, s := frames[0], Joined(frames[1..]) + rest;
      assert f in frames && frames == [f] + frames[1..];
      JoinedCons(f, frames[1..]);
      assert Joined(frames) + rest == f + s;
      FrameStays(f, s);
      JoinedFrames(frames[1..], rest);
      assert (f + s)[..|f|] == f && (f + s)[|f|..] == s;
    }
  }

  // ---- the messages as they are sent ----

  /** A user entry message: begin mark, type, version, and what stands behind the five header bytes. */
  datatype Entry = Entry(begin: byte, kind: byte, version: byte, body: seq<byte>)

  /** The length field has 16 bits. */
  predicate Fits(e: Entry) {
    5 + |e.body| < 0x10000
  }

  /** The fourth and the fifth byte are the whole length of the message, the high byte first. */
  function Print(e: Entry): seq<byte>
    requires Fits(e)
  {
    var n := 5 + |e.body|;
    [e.begin, e.kind, e.version, (n / 0x100) as byte, (n % 0x100) as byte] + e.body
  }

  predicate AllFit(entries: seq<Entry>) {
    forall i :: 0 <= i < |entries| ==> Fits(entries[i])
  }

  function Printed(entries: seq<Entry>): (frames: seq<seq<byte>>)
    requires AllFit(entries)
    ensures |frames| == |entries| && forall i :: 0 <= i < |entries| ==> frames[i] == Print(entries[i])
  {
    seq(|entries|, i requires 0 <= i < |entries| => Print(entries[i]))
  }

  /** The first bytes of a message, but not all of them. */
  ghost predicate Unfinished(rest: seq<byte>) {
    exists e: Entry :: Fits(e) && rest < Print(e)
  }

  /** The bytes that are a message of their own are the printed messages. */
  lemma EntryExact(f: seq<byte>)
    ensures HasHeader(f) && LengthOf(f) == |f| <==> exists e: Entry :: Fits(e) && f == Print(e)
  {
    if HasHeader(f) && LengthOf(f) == |f| {
      var e := Entry(f[0], f[1], f[2], f[5..]);
      assert Fits(e) && f == Print(e);
    }
  }

  lemma EntryLength(e: Entry)
    requires Fits(e)
    ensures HasHeader(Print(e)) && LengthOf(Print(e)) == |Print(e)| == 5 + |e.body|
  {}

  lemma UnfinishedWaits(rest: seq<byte>)
    requires Unfinished(rest)
    ensures !HasFrame(rest) && WellFormed(rest)
  {
    var e: Entry :| Fits(e) && rest < Print(e);
    EntryLength(e);
    if HasHeader(rest) {
      assert rest[3] == Print(e)[3] && rest[4] == Print(e)[4];
    }
  }

  /** Printed messages and the beginning of one more: exactly the printed ones are found, one by one. */
  lemma {:induction false} EntriesFound(entries: seq<Entry>, rest: seq<byte>)
    requires AllFit(entries) && Unfinished(rest)
    ensures var s := Joined(Printed(entries)) + rest;
      WellFormed(s) && Frames(s) == Printed(entries) && Left(s) == rest
  {
    hide Fits, Print, LengthOf, Joined, Unfinished, WellFormed;
    UnfinishedWaits(rest);
    var frames := Printed(entries);
    forall f | f in frames ensures HasHeader(f) && LengthOf(f) == |f| {
      var i :| 0 <= i < |frames| && frames[i] == f;
      EntryLength(entries[i]);
    }
    JoinedFrames(frames, rest);
    JoinedWellFormed(frames, rest);
  }

  lemma {:induction false} JoinedWellFormed(frames: seq<seq<byte>>, rest: seq<byte>)
    requires forall f <- frames :: HasHeader(f) && LengthOf(f) == |f|
    requires WellFormed(rest)
    ensures WellFormed(Joined(frames) + rest)
    decreases |frames|
  {
    hide LengthOf, Joined;
    NothingJoined();
    if frames == [] {
      assert Joined(frames) + rest == rest;
    } else {
      var f, s := frames[0], Joined(frames[1..]) + rest;
      assert f in frames && frames == [f] + frames[1..];
      JoinedCons(f, frames[1..]);
      assert Joined(frames) + rest == f + s;
      FrameStays(f, s);
      JoinedWellFormed(frames[1..], rest);
      assert (f + s)[|f|..] == s;
    }
  }
}

module Gateway {
  import opened Bytes
  import opened Chunks
  import opened GatewayFrames
  import opened Streams
  import opened Cursors

  datatype BufferState = ANALYSIZE_BUFFER_HEADER | READ_BUFFER_DATA | REBUILD_BUFFER_SUCCESS | NO_ENOUGH_BUFFER

  /** The static BufferRebuildObserv and BufferState. `spy` is p_data_spy as an offset into the new buffer, and
      the header scratch is six bytes long: five and a terminator. */
  class Rebuilder {
    var state: BufferState
    var analysized: bool
    var offset: nat
    var needed_header: nat
    var needed_data: nat
    var spy: nat
    const scratch: array<byte>

    constructor ()
      ensures fresh(scratch) && scratch.Length == 6
    {
      state, analysized, offset, needed_header, needed_data, spy := ANALYSIZE_BUFFER_HEADER, false, 0,
        GW_BUFFER_HEADER_LEN, 0, 0;
      scratch := new byte[6];
    }

    /** recompute_buffer_state */
    method Recompute()
      modifies `state
      ensures state == if analysized then REBUILD_BUFFER_SUCCESS else if needed_header > 0 then ANALYSIZE_BUFFER_HEADER
        else if needed_data > 0 then READ_BUFFER_DATA else old(state)
    {
      if analysized {
        state := REBUILD_BUFFER_SUCCESS;
      } else if needed_header > 0 {
        state := ANALYSIZE_BUFFER_HEADER;
      } else if needed_data > 0 {
        state := READ_BUFFER_DATA;
      }
    }

    /** repair_buffer_observ: negative values leave a field alone. */
    method Repair(isdone: int, off: int, header: int, data: int)
      modifies `analysized, `offset, `needed_header, `needed_data
      ensures analysized == (if isdone >= 0 then isdone > 0 else old(analysized))
      ensures offset == (if off >= 0 then off else old(offset))
      ensures needed_header == (if header >= 0 then header else old(needed_header))
      ensures needed_data == (if data >= 0 then data else old(needed_data))
    {
      if isdone >= 0 {
        analysized := isdone > 0;
      }
      if off >= 0 {
        offset := off;
      }
      if header >= 0 {
        needed_header := header;
      }
      if data >= 0 {
        needed_data := data;
      }
    }

    /** The header bytes read so far. */
    ghost function Header(): seq<byte>
      reads this, scratch
      requires scratch.Length == 6 && needed_header <= GW_BUFFER_HEADER_LEN
    {
      scratch[..GW_BUFFER_HEADER_LEN - needed_header]
    }

    /** What the two reading states have of a message: the bytes of it that were taken, and the bytes behind
        it that stay in the source buffer. */
    ghost predicate Took(tmp: Buffer, buf: Buffer?, all: seq<byte>)
      reads this, scratch, tmp, tmp.buf, buf, if buf == null then {} else {buf.buf}
      requires scratch.Length == 6 && tmp.Valid()
    {
      if |all| < GW_BUFFER_HEADER_LEN then
        buf == null && !analysized && offset == 0 && 0 < needed_header <= GW_BUFFER_HEADER_LEN && Header() == all
      else
        var len := LengthOf(all);
        && buf != null && buf.Valid() && buf.data == 0 && buf.used == len
        && (if |all| > len then
              analysized && needed_header == GW_BUFFER_HEADER_LEN && 0 < offset < tmp.used && spy == len
              && buf.Content() == all[..len] && tmp.Content()[offset..] == all[len..]
            else if |all| == len then
              analysized && needed_header == GW_BUFFER_HEADER_LEN && offset == 0 && spy == len && buf.Content() == all
            else
              !analysized && needed_header == 0 && offset == 0 && 0 < needed_data == len - |all| && spy == |all|
              && buf.Content()[..spy] == all)
    }

    /** The header is complete: a buffer for the whole message, filled as far as the source buffer goes. */
    method Begin(tmp: Buffer, from: nat, left: nat, ghost all: seq<byte>) returns (buf: Buffer)
      requires tmp.Valid() && scratch.Length == 6 && scratch != tmp.buf && from + left == tmp.used == |tmp.Content()|
      requires |all| == GW_BUFFER_HEADER_LEN + left && all[..GW_BUFFER_HEADER_LEN] == scratch[..GW_BUFFER_HEADER_LEN]
      requires all[GW_BUFFER_HEADER_LEN..] == tmp.Content()[from..] && GW_BUFFER_HEADER_LEN <= LengthOf(all) && 0 < from
      modifies this
      ensures fresh(buf) && fresh(buf.buf) && Took(tmp, buf, all)
    {
      hide Buffer.Content;
      ghost var content := tmp.Content();
      var size: nat := scratch[GW_BUFFER_LEN_POSITION] as int * 0x100 + scratch[GW_BUFFER_LEN_POSITION + 1] as int;
      assert size == LengthOf(all);
      var data := size - GW_BUFFER_HEADER_LEN;
      var n := if left >= data then data else left;
      buf := NewMessage(size, scratch, tmp, from, n, all);
      assert tmp.Content() == content;
      spy := GW_BUFFER_HEADER_LEN + n;
      if left > data {
        DropDrop(content, from, data);
        DropDrop(all, GW_BUFFER_HEADER_LEN, data);
        Repair(1, from + data, GW_BUFFER_HEADER_LEN, -1);
      } else if left == data {
        Repair(1, 0, GW_BUFFER_HEADER_LEN, 0);
      } else {
        Repair(0, 0, 0, data - left);
      }
    }

    /** The case ANALYSIZE_BUFFER_HEADER; `false` is its early return. */
    method AnalyzeHeader(tmp: Buffer) returns (ok: bool, buf: Buffer?)
      requires tmp.Valid() && scratch.Length == 6 && scratch != tmp.buf
      requires 0 < needed_header <= GW_BUFFER_HEADER_LEN && offset <= tmp.used
      requires WellFormed(Header() + tmp.Content()[offset..])
      modifies this, scratch
      ensures ok <==> old(offset) < tmp.used
      ensures buf != null ==> fresh(buf) && fresh(buf.buf)
      ensures ok ==> Took(tmp, buf, old(Header() + tmp.Content()[offset..]))
      ensures !ok ==> buf == null
    {
      buf := null;
      var need, start := needed_header, offset;
      var left: nat := tmp.used - start;
      if left <= 0 {
        return false, null;
      }
      ok := true;
      ghost var head, src := Header(), tmp.Content()[offset..];
      if left >= need {
        FillScratch(tmp, start, need, need);
        left := left - need;
        DropDrop(tmp.Content(), start, need);
        AllParts(head, src, need);
        buf := Begin(tmp, start + need, left, head + src);
      } else {
        FillScratch(tmp, start, need, left);
        assert src[..left] == src;
        Repair(0, 0, need - left, -1);
      }
    }

    lemma AllParts(head: seq<byte>, src: seq<byte>, need: nat)
      requires |head| + need == GW_BUFFER_HEADER_LEN && need <= |src|
      ensures (head + src)[..GW_BUFFER_HEADER_LEN] == head + src[..need]
      ensures (head + src)[GW_BUFFER_HEADER_LEN..] == src[need..]
    {}

    /** `memcpy( p_des, p_src, n )` into the header scratch. */
    method FillScratch(tmp: Buffer, start: nat, need: nat, n: nat)
      requires tmp.Valid() && scratch.Length == 6 && scratch != tmp.buf
      requires start + n <= tmp.used && n <= need <= GW_BUFFER_HEADER_LEN
      modifies scratch
      ensures scratch[..GW_BUFFER_HEADER_LEN - need + n]
        == old(scratch[..GW_BUFFER_HEADER_LEN - need]) + tmp.Content()[start..][..n]
    {
      var k := GW_BUFFER_HEADER_LEN - need;
      ghost var head := scratch[..k];
      SubSlice(tmp.buf, tmp.data, tmp.data + tmp.used, start, n);
      assert tmp.Content()[start..][..n] == tmp.Content()[start..start + n];
      ghost var piece := tmp.buf[tmp.data + start..tmp.data + start + n];
      Memcpy(scratch, k, tmp.buf, tmp.data + start, n);
      assert scratch[..k + n] == scratch[..k] + scratch[k..k + n];
    }

    /** The case READ_BUFFER_DATA. */
    method ReadData(tmp: Buffer, buf: Buffer)
      requires tmp.Valid() && buf.Valid() && buf.data == 0 && buf.buf != tmp.buf && scratch.Length == 6
      requires scratch != buf.buf
      requires !analysized && needed_header == 0 && offset == 0 && 0 < needed_data && spy + needed_data == buf.used
      requires GW_BUFFER_HEADER_LEN <= spy && |buf.Content()| == buf.used == LengthOf(buf.Content()[..spy])
      modifies this, buf.buf
      ensures Took(tmp, buf, old(buf.Content()[..spy] + tmp.Content()))
    {
      hide Buffer.Content;
      ContentSize(tmp);
      ContentSize(buf);
      var left, need := tmp.used, needed_data;
      var n := if left >= need then need else left;
      ghost var had, content := buf.Content()[..spy], tmp.Content();
      assert LengthOf(had + content) == buf.used;
      Extend(buf, spy, tmp, n);
      ContentSize(buf);
      assert tmp.Content() == content;
      spy := spy + n;
      MorePart(had, content, n);
      if left > need {
        Repair(1, need, GW_BUFFER_HEADER_LEN, -1);
      } else if left == need {
        Repair(1, 0, GW_BUFFER_HEADER_LEN, 0);
      } else {
        Repair(0, 0, 0, need - left);
      }
    }

    /** No buffer of the chunk is empty, and the scratch is no buffer's memory. */
    ghost predicate Source(ck: Chunk)
      reads this, ck, ck.queue
    {
      ck.Valid() && scratch.Length == 6 && scratch !in Arrays(ck.queue) && forall b <- ck.queue :: b.used > 0
    }

    /** The message under construction and the chunk. */
    ghost predicate Apart2(ck: Chunk, buf: Buffer?)
      reads ck, ck.queue, buf
    {
      buf != null ==> buf !in ck.queue && buf.buf !in Arrays(ck.queue)
    }

    /** Between two rounds: `s` is everything that was not handed on yet. */
    ghost predicate Holds(ck: Chunk, buf: Buffer?, s: seq<byte>)
      reads this, scratch, ck, ck.queue, Arrays(ck.queue), buf, if buf == null then {} else {buf.buf}
    {
      && Source(ck) && Apart2(ck, buf) && needed_header <= GW_BUFFER_HEADER_LEN && WellFormed(s)
      && (offset == 0 || (ck.queue != [] && offset < ck.queue[0].used && offset <= |ck.Bytes()|))
      && match state
         case ANALYSIZE_BUFFER_HEADER =>
           buf == null && !analysized && 0 < needed_header && (offset > 0 ==> needed_header == GW_BUFFER_HEADER_LEN)
           && s == Header() + ck.Bytes()[offset..]
         case READ_BUFFER_DATA =>
           && buf != null && Partial(buf) && offset == 0 && !analysized && needed_header == 0
           && s == buf.Content()[..spy] + ck.Bytes()
         case REBUILD_BUFFER_SUCCESS =>
           buf != null && buf.Valid() && HasHeader(buf.Content()) && LengthOf(buf.Content()) == |buf.Content()|
           && analysized && needed_header == GW_BUFFER_HEADER_LEN && s == buf.Content() + ck.Bytes()[offset..]
         case NO_ENOUGH_BUFFER => false
    }

    ghost predicate Partial(buf: Buffer)
      reads this, buf, buf.buf
    {
      buf.Valid() && buf.data == 0 && buf.buf != scratch && 0 < needed_data && spy + needed_data == buf.used
      && GW_BUFFER_HEADER_LEN <= spy && |buf.Content()| == buf.used == LengthOf(buf.Content()[..spy])
    }

    /** The end of a round: the state follows from the fields, and a source buffer with a rest goes back. */
    method EndRound(ck: Chunk, tmp: Buffer, buf: Buffer?, ghost all: seq<byte>)
      requires Source(ck) && tmp.Valid() && tmp.used > 0 && Apart2(ck, tmp) && tmp.buf != scratch && Took(tmp, buf, all)
      requires Apart2(ck, buf) && (buf != null ==> buf != tmp && buf.buf != tmp.buf && buf.buf != scratch)
      requires WellFormed(all + ck.Bytes())
      modifies this`state, ck
      ensures Holds(ck, buf, all + old(ck.Bytes()))
      ensures forall b <- ck.queue :: b in old(ck.queue) || b == tmp
      ensures state == REBUILD_BUFFER_SUCCESS || ck.queue == old(ck.queue)
    {
      hide Flat, Wf, Buffer.Content;
      ghost var rest := ck.Bytes();
      assert ck as object !in Arrays(ck.queue) && ck as object != tmp.buf && (buf != null ==> ck as object != buf.buf);
      assert this as object !in Arrays(ck.queue);
      if buf != null {
        ContentSize(buf);
      }
      ContentSize(tmp);
      Recompute();
      if state == REBUILD_BUFFER_SUCCESS && offset > 0 {
        ck.PutHead(tmp);
        BackAgain(tmp.Content(), rest, offset);
        Thirds(all, LengthOf(all), rest);
      }
    }

    /** The two reading states, on the buffer just taken from the chunk. */
    method Round(ck: Chunk, tmp: Buffer, buf: Buffer?, ghost rest: seq<byte>, ghost s: seq<byte>)
      returns (next: Buffer?)
      requires Source(ck) && tmp.Valid() && tmp.used > 0 && Apart2(ck, tmp) && tmp.buf != scratch && rest == ck.Bytes()
      requires WellFormed(s)
      requires offset < tmp.used && (offset > 0 ==> needed_header == GW_BUFFER_HEADER_LEN)
      requires needed_header <= GW_BUFFER_HEADER_LEN
      requires Apart2(ck, buf) && (buf != null ==> buf != tmp && buf.buf != tmp.buf)
      requires if state == ANALYSIZE_BUFFER_HEADER then
          buf == null && !analysized && 0 < needed_header && s == (Header() + tmp.Content()[offset..]) + rest
        else
          state == READ_BUFFER_DATA && buf != null && Partial(buf) && offset == 0 && !analysized && needed_header == 0
          && s == (buf.Content()[..spy] + tmp.Content()) + rest
      modifies this, scratch, ck, if buf == null then {} else {buf.buf}
      ensures Holds(ck, next, s) && (next == buf || (fresh(next) && fresh(next.buf)))
      ensures next == buf && buf != null ==> buf.buf == old(buf.buf)
      ensures forall b <- ck.queue :: b in old(ck.queue) || b == tmp
      ensures state == REBUILD_BUFFER_SUCCESS || ck.queue == old(ck.queue)
    {
      hide Flat, Wf, Buffer.Content, Took, Holds;
      ghost var q := ck.queue;
      assert allocated(q) && allocated(Arrays(q)) && this as object !in Arrays(q);
      ContentSize(tmp);
      assert this as object != tmp.buf && scratch != tmp.buf;
      next := buf;
      ghost var all;
      if state == ANALYSIZE_BUFFER_HEADER {
        all := Header() + tmp.Content()[offset..];
        WellFormedSplits(all, rest);
        var ok;
        ok, next := AnalyzeHeader(tmp);
      } else {
        all := buf.Content()[..spy] + tmp.Content();
        ReadData(tmp, buf);
      }
      assert ck.Bytes() == rest;
      EndRound(ck, tmp, next, all);
    }

    /** The case NO_ENOUGH_BUFFER: what there is of a message goes back to the chunk as one buffer. */
    method PutBack(ck: Chunk, buf: Buffer?, ghost s: seq<byte>)
      requires Source(ck) && ck.queue == [] && state == NO_ENOUGH_BUFFER && !analysized
      requires needed_header <= GW_BUFFER_HEADER_LEN && Apart2(ck, buf)
      requires if 0 < needed_header then buf == null && s == Header()
        else buf != null && Partial(buf) && s == buf.Content()[..spy]
      modifies this, ck, buf
      ensures ck.Valid() && ck.Bytes() == s
      ensures |ck.queue| <= 1
      ensures forall b <- ck.queue :: b.used > 0 && b.buf != scratch && (b == buf || (fresh(b) && fresh(b.buf)))
      ensures buf != null ==> buf.buf == old(buf.buf)
    {
      hide Flat, Wf, Buffer.Content;
      assert ck as object !in Arrays(ck.queue);
      assert state == NO_ENOUGH_BUFFER;
      if buf != null {
        ContentSize(buf);
      }
      Recompute();
      var back := buf;
      if state == ANALYSIZE_BUFFER_HEADER {
        var need := needed_header;
        if need < GW_BUFFER_HEADER_LEN {
          back := Scrap(need);
        }
      } else if state == READ_BUFFER_DATA {
        Shorten(buf, spy);
      }
      EmptyFlat(ck.queue);
      if back != null {
        ck.Put(back);
        assert [] + back.Content() == back.Content();
      }
      assert ck.Bytes() == s && this as object !in Arrays(ck.queue);
      Repair(0, 0, 0, 0);
    }

    method Shorten(buf: Buffer, spy: nat)
      requires buf.Valid() && spy <= buf.used
      modifies buf`used
      ensures buf.Valid() && buf.used == spy && buf.Content() == old(buf.Content())[..spy]
    {
      SubSlice(buf.buf, buf.data, buf.data + buf.used, 0, spy);
      buf.used := spy;
    }

    /** The header bytes that were read, in a buffer of their own. */
    method Scrap(need: nat) returns (buf: Buffer)
      requires 0 < need < GW_BUFFER_HEADER_LEN && scratch.Length == 6
      ensures fresh(buf) && fresh(buf.buf) && buf.Valid() && buf.used == GW_BUFFER_HEADER_LEN - need
      ensures buf.Content() == scratch[..GW_BUFFER_HEADER_LEN - need]
    {
      buf := new Buffer(GW_BUFFER_HEADER_LEN - need);
      buf.used := GW_BUFFER_HEADER_LEN - need;
      Memcpy(buf.buf, 0, scratch, 0, GW_BUFFER_HEADER_LEN - need);
      assert buf.Content() == buf.buf[0..0 + (GW_BUFFER_HEADER_LEN - need)];
    }

    /** The case REBUILD_BUFFER_SUCCESS. */
    method Success(ck: Chunk, buf: Buffer, ghost s: seq<byte>)
      requires Holds(ck, buf, s) && state == REBUILD_BUFFER_SUCCESS
      modifies this
      ensures buf.Valid() && HasFrame(s) && buf.Content() == s[..LengthOf(s)]
      ensures state == ANALYSIZE_BUFFER_HEADER && Holds(ck, null, s[LengthOf(s)..])
    {
      hide Flat, Wf, Buffer.Content;
      assert this as object !in Arrays(ck.queue) && this as object != buf.buf;
      Cut(buf.Content(), ck.Bytes()[offset..]);
      Repair(0, -1, -1, -1);
      Recompute();
      assert Header() == [];
      assert [] + ck.Bytes()[offset..] == ck.Bytes()[offset..];
    }

    lemma Cut(frame: seq<byte>, rest: seq<byte>)
      requires HasHeader(frame) && LengthOf(frame) == |frame| && WellFormed(frame + rest)
      ensures var s := frame + rest;
        HasFrame(s) && LengthOf(s) == |frame| && s[..|frame|] == frame && s[|frame|..] == rest && WellFormed(rest)
    {}

    /** `tmp_buf = buffer_get(chunk)`: the next buffer for a round, or the end. */
    method Take(ck: Chunk, buf: Buffer?, ghost s: seq<byte>) returns (tmp: Buffer?)
      requires Holds(ck, buf, s) && state != REBUILD_BUFFER_SUCCESS
      modifies ck
      ensures Source(ck) && Apart2(ck, buf) && needed_header <= GW_BUFFER_HEADER_LEN && WellFormed(s) && !analysized
      ensures tmp == null ==> ck.queue == [] && !HasFrame(s)
      ensures tmp == null ==>
        (if 0 < needed_header then buf == null && s == Header()
         else buf != null && Partial(buf) && s == buf.Content()[..spy])
      ensures tmp != null ==> old(ck.queue) != [] && ck.queue == old(ck.queue)[1..] && tmp == old(ck.queue)[0]
      ensures tmp != null ==> tmp.Valid() && tmp.used > 0 && Apart2(ck, tmp) && tmp.buf != scratch
      ensures tmp != null ==>
        offset < tmp.used && offset <= |tmp.Content()| && (offset > 0 ==> needed_header == GW_BUFFER_HEADER_LEN)
      ensures tmp != null && buf != null ==> buf != tmp && buf.buf != tmp.buf
      ensures tmp != null ==>
        (if state == ANALYSIZE_BUFFER_HEADER then
           buf == null && 0 < needed_header && s == (Header() + tmp.Content()[offset..]) + ck.Bytes()
         else
           state == READ_BUFFER_DATA && buf != null && Partial(buf) && offset == 0 && needed_header == 0
           && s == (buf.Content()[..spy] + tmp.Content()) + ck.Bytes())
    {
      hide Flat, Wf, Buffer.Content;
      EmptyFlat(ck.queue);
      ghost var all, q := ck.Bytes(), ck.queue;
      if q != [] {
        FirstRest(q);
        assert q[0] in q && q[0].buf in Arrays(q) && forall b :: b in q[1..] ==> b in q && b.buf in Arrays(q);
      }
      assert ck as object !in Arrays(q);
      tmp := ck.Get();
      if tmp == null {
        assert all[offset..] == [];
        assert state == ANALYSIZE_BUFFER_HEADER ==> s == Header();
        assert state == READ_BUFFER_DATA ==> s == buf.Content()[..spy];
      } else {
        ContentSize(tmp);
        BackAgain(tmp.Content(), ck.Bytes(), offset);
        assert all == tmp.Content() + ck.Bytes();
        if state == ANALYSIZE_BUFFER_HEADER {
          Regroup4(Header(), tmp.Content()[offset..], ck.Bytes());
        } else {
          Regroup4(buf.Content()[..spy], tmp.Content(), ck.Bytes());
        }
      }
    }

    lemma Regroup4(a: seq<byte>, b: seq<byte>, c: seq<byte>)
      ensures (a + b) + c == a + (b + c)
    {}

    /** try_read_rbuffer: hands out the first message of what is held, or puts the unfinished rest back. */
    method TryRead(ck: Chunk, ghost s: seq<byte>) returns (ok: bool, buf: Buffer?)
      requires Holds(ck, null, s) && state == ANALYSIZE_BUFFER_HEADER
      modifies this, scratch, ck
      ensures ok == HasFrame(s)
      ensures ok ==> buf != null && fresh(buf) && fresh(buf.buf) && buf.Valid() && buf.Content() == s[..LengthOf(s)]
      ensures ok ==> state == ANALYSIZE_BUFFER_HEADER && Holds(ck, null, s[LengthOf(s)..])
      ensures !ok ==> ck.Valid() && ck.Bytes() == s && forall b <- ck.queue :: b.used > 0 && b.buf != scratch
      ensures forall b <- ck.queue :: b in old(ck.queue) || (fresh(b) && fresh(b.buf))
    {
      hide Flat, Wf, Buffer.Content, Holds, HasFrame, WellFormed;
      buf := null;
      while true
        invariant Holds(ck, buf, s) && (buf != null ==> fresh(buf) && fresh(buf.buf))
        invariant state == ANALYSIZE_BUFFER_HEADER ==> buf == null
        invariant forall b <- ck.queue :: b in old(ck.queue)
        decreases if state == REBUILD_BUFFER_SUCCESS then 0 else 1 + |ck.queue|
      {
        if state == REBUILD_BUFFER_SUCCESS {
          HoldsBuffer(ck, buf, s);
          Success(ck, buf, s);
          return true, buf;
        }
        var tmp := Take(ck, buf, s);
        if tmp == null {
          state := NO_ENOUGH_BUFFER;
          PutBack(ck, buf, s);
          return false, buf;
        }
        buf := Round(ck, tmp, buf, ck.Bytes(), s);
        HoldsBuffer(ck, buf, s);
      }
    }

    lemma HoldsBuffer(ck: Chunk, buf: Buffer?, s: seq<byte>)
      requires Holds(ck, buf, s)
      ensures state == REBUILD_BUFFER_SUCCESS ==> buf != null
      ensures state == ANALYSIZE_BUFFER_HEADER ==> buf == null
    {}

    /** gateway_rbuffer_read: exactly the whole messages are handed on, in order, and the unfinished rest of
        the bytes is what the chunk holds afterwards, whatever the buffers were. */
    method GatewayRead(ck: Chunk) returns (frames: seq<seq<byte>>)
      requires Source(ck) && WellFormed(ck.Bytes())
      modifies this, scratch, ck
      ensures frames == Frames(old(ck.Bytes()))
      ensures Source(ck) && ck.Valid() && ck.Bytes() == Left(old(ck.Bytes()))
      ensures forall b <- ck.queue :: b in old(ck.queue) || (fresh(b) && fresh(b.buf))
    {
      hide Flat, Wf, Buffer.Content, Holds, Frames, Left, WellFormed;
      frames := [];
      ghost var s, all := ck.Bytes(), ck.Bytes();
      assert ck as object !in Arrays(ck.queue) && this as object !in Arrays(ck.queue);
      Repair(0, 0, GW_BUFFER_HEADER_LEN, 0);
      state := ANALYSIZE_BUFFER_HEADER;
      Started(ck, s);
      var ok := true;
      assert frames + Frames(s) == Frames(all);
      while ok
        invariant frames + Frames(s) == Frames(all) && Left(s) == Left(all)
        invariant ok ==> state == ANALYSIZE_BUFFER_HEADER && Holds(ck, null, s)
        invariant !ok ==> Source(ck) && ck.Bytes() == s && !HasFrame(s)
        invariant forall b <- ck.queue :: b in old(ck.queue) || (fresh(b) && fresh(b.buf))
        decreases ok, |s|
      {
        var buf;
        ok, buf := TryRead(ck, s);
        FramesStep(s, frames);
        if ok {
          frames := frames + [buf.buf[buf.data..buf.data + buf.used]];
          ContentIs(buf);
          s := s[LengthOf(s)..];
        }
      }
      FramesStep(s, frames);
    }

    lemma ContentIs(buf: Buffer)
      requires buf.Valid()
      ensures buf.Content() == buf.buf[buf.data..buf.data + buf.used]
    {}

    lemma Started(ck: Chunk, s: seq<byte>)
      requires Source(ck) && WellFormed(s) && s == ck.Bytes() && state == ANALYSIZE_BUFFER_HEADER && !analysized
      requires offset == 0
      requires needed_header == GW_BUFFER_HEADER_LEN
      ensures Holds(ck, null, s)
    {}

    lemma FramesStep(s: seq<byte>, frames: seq<seq<byte>>)
      ensures HasFrame(s) ==> |s[LengthOf(s)..]| < |s| && Left(s) == Left(s[LengthOf(s)..])
      ensures HasFrame(s) ==> frames + Frames(s) == (frames + [s[..LengthOf(s)]]) + Frames(s[LengthOf(s)..])
      ensures !HasFrame(s) ==> Left(s) == s && frames + Frames(s) == frames
    {}

    lemma BackAgain(a: seq<byte>, b: seq<byte>, k: nat)
      requires k <= |a|
      ensures (a + b)[k..] == a[k..] + b
    {}

    lemma Thirds(all: seq<byte>, n: nat, rest: seq<byte>)
      requires n <= |all|
      ensures all[..n] + (all[n..] + rest) == all + rest
    {}

    lemma MorePart(had: seq<byte>, content: seq<byte>, n: nat)
      requires n <= |content|
      ensures (had + content)[..|had| + n] == had + content[..n] && (had + content)[|had| + n..] == content[n..]
    {}
  }

  lemma ContentSize(b: Buffer)
    requires b.Valid()
    ensures |b.Content()| == b.used
  {}

  /** `memcpy(pd_data, ps_data, n)` behind the bytes a message already has. */
  method Extend(buf: Buffer, spy: nat, tmp: Buffer, n: nat)
    requires tmp.Valid() && buf.Valid() && buf.data == 0 && buf.buf != tmp.buf && n <= tmp.used && spy + n <= buf.used
    modifies buf.buf
    ensures buf.Content()[..spy + n] == old(buf.Content()[..spy]) + tmp.Content()[..n]
  {
    ghost var had := buf.Content()[..spy];
    assert had == buf.buf[..spy];
    SubSlice(tmp.buf, tmp.data, tmp.data + tmp.used, 0, n);
    ghost var piece := tmp.Content()[..n];
    assert piece == tmp.buf[tmp.data..tmp.data + n];
    Memcpy(buf.buf, spy, tmp.buf, tmp.data, n);
    assert buf.buf[..spy + n] == buf.buf[..spy] + buf.buf[spy..spy + n];
    assert buf.Content()[..spy + n] == buf.buf[..spy + n];
  }

  /** `*buf = buffer_new(size); (*buf)->used = size`, the header and `n` bytes of the source. */
  method NewMessage(size: nat, scratch: array<byte>, tmp: Buffer, from: nat, n: nat, ghost all: seq<byte>)
    returns (buf: Buffer)
    requires tmp.Valid() && scratch.Length == 6 && GW_BUFFER_HEADER_LEN + n <= size
    requires from + n <= tmp.used && GW_BUFFER_HEADER_LEN + n <= |all|
    requires all[..GW_BUFFER_HEADER_LEN] == scratch[..GW_BUFFER_HEADER_LEN]
    requires all[GW_BUFFER_HEADER_LEN..] == tmp.Content()[from..]
    ensures fresh(buf) && fresh(buf.buf) && buf.Valid() && buf.data == 0 && buf.used == size == |buf.Content()|
    ensures buf.Content()[..GW_BUFFER_HEADER_LEN + n] == all[..GW_BUFFER_HEADER_LEN + n]
  {
    buf := new Buffer(size);
    buf.used := size;
    Compose(buf.buf, scratch, tmp, from, n, all);
    assert buf.Content()[..GW_BUFFER_HEADER_LEN + n] == buf.buf[..GW_BUFFER_HEADER_LEN + n];
  }

  /** The header from the scratch, then `n` bytes of the source. */
  method Compose(dst: array<byte>, scratch: array<byte>, tmp: Buffer, from: nat, n: nat, ghost all: seq<byte>)
    requires tmp.Valid() && scratch.Length == 6 && dst != scratch && dst != tmp.buf
    requires from + n <= tmp.used && GW_BUFFER_HEADER_LEN + n <= |all| && GW_BUFFER_HEADER_LEN + n <= dst.Length
    requires all[..GW_BUFFER_HEADER_LEN] == scratch[..GW_BUFFER_HEADER_LEN]
    requires all[GW_BUFFER_HEADER_LEN..][..n] == tmp.Content()[from..][..n]
    modifies dst
    ensures dst[..GW_BUFFER_HEADER_LEN + n] == all[..GW_BUFFER_HEADER_LEN + n]
  {
    SubSlice(tmp.buf, tmp.data, tmp.data + tmp.used, from, n);
    assert tmp.Content()[from..][..n] == tmp.Content()[from..from + n];
    Memcpy(dst, 0, scratch, 0, GW_BUFFER_HEADER_LEN);
    ghost var piece := tmp.buf[tmp.data + from..tmp.data + from + n];
    Memcpy(dst, GW_BUFFER_HEADER_LEN, tmp.buf, tmp.data + from, n);
    assert dst[..GW_BUFFER_HEADER_LEN + n]
      == dst[..GW_BUFFER_HEADER_LEN] + dst[GW_BUFFER_HEADER_LEN..GW_BUFFER_HEADER_LEN + n];
    assert all[..GW_BUFFER_HEADER_LEN + n] == all[..GW_BUFFER_HEADER_LEN] + all[GW_BUFFER_HEADER_LEN..][..n];
  }

  /** Every segmentation: the messages handed on over all calls are the greedy cut of the whole stream. */
  method ReadStream(calls: seq<seq<seq<byte>>>) returns (frames: seq<seq<byte>>, ck: Chunk)
    requires WellFormed(Stream(calls)) && forall c, b :: c in calls && b in c ==> b != []
    ensures frames == Frames(Stream(calls)) && ck.Valid() && ck.Bytes() == Left(Stream(calls))
  {
    hide Flat, Wf, Frames, Left, WellFormed, Stream, Rebuilder.Source;
    ck := new Chunk(102400);
    var g := new Rebuilder();
    frames := [];
    ghost var fed: seq<byte> := [];
    assert Stream(calls[..0]) == [] by { StreamEmpty(); }
    Nothing(g, ck);
    for k := 0 to |calls|
      invariant fresh(ck) && fresh(g) && fresh(g.scratch) && ck.Valid() && g.Source(ck) && fed == Stream(calls[..k])
      invariant frames == Frames(fed) && ck.Bytes() == Left(fed)
    {
      StreamStep(calls, k);
      StreamSplit(calls, k + 1);
      assert calls[k] in calls;
      ghost var more, later := Concat(calls[k]), Stream(calls)[|Stream(calls[..k + 1])|..];
      WellFormedSplits(fed + more, later);
      WellFormedSplits(fed, more);
      FramesAppend(fed, more);
      DeliverSource(g, ck, calls[k]);
      var some := g.GatewayRead(ck);
      frames := frames + some;
      fed := fed + more;
    }
    assert calls[..|calls|] == calls;
  }

  /** Printed messages and the beginning of one more, cut in any way: the printed ones are handed on one by one, and
      the beginning waits in the chunk. */
  method ReadEntries(calls: seq<seq<seq<byte>>>, ghost entries: seq<Entry>, ghost rest: seq<byte>)
    returns (frames: seq<seq<byte>>, ck: Chunk)
    requires AllFit(entries) && Unfinished(rest) && Stream(calls) == Joined(Printed(entries)) + rest
    requires forall c, b :: c in calls && b in c ==> b != []
    ensures |frames| == |entries| && forall i :: 0 <= i < |entries| ==> frames[i] == Print(entries[i])
    ensures ck.Valid() && ck.Bytes() == rest
  {
    hide Flat, Wf, Frames, Left, WellFormed, Stream, Unfinished, Joined, Print, Fits;
    EntriesFound(entries, rest);
    frames, ck := ReadStream(calls);
  }

  lemma StreamSplit(calls: seq<seq<seq<byte>>>, k: nat)
    requires k <= |calls|
    ensures Stream(calls[..k]) <= Stream(calls)
    ensures Stream(calls) == Stream(calls[..k]) + Stream(calls)[|Stream(calls[..k])|..]
  {
    StreamPrefix(calls, k);
  }

  lemma Nothing(g: Rebuilder, ck: Chunk)
    requires g.scratch.Length == 6 && ck.queue == []
    ensures g.Source(ck) && ck.Valid() && ck.Bytes() == [] && Frames([]) == [] && Left([]) == []
  {}

  /** Buffers that arrive between two calls; none is empty. */
  method DeliverSource(g: Rebuilder, ck: Chunk, segments: seq<seq<byte>>)
    requires g.Source(ck) && ck.Valid() && forall b :: b in segments ==> b != []
    modifies ck
    ensures ck.Valid() && g.Source(ck) && ck.Bytes() == old(ck.Bytes()) + Concat(segments)
  {
    hide Flat, Wf, Concat, Contents, Buffer.Content, Stream;
    ghost var q := ck.queue;
    assert allocated(q) && allocated(Arrays(q)) && allocated(g.scratch);
    ghost var more := Deliver(ck, segments);
    assert forall i :: 0 <= i < |more| ==> segments[i] in segments;
    assert forall b :: b in more ==> b.used > 0 && b.buf != g.scratch;
    assert forall b :: b in ck.queue ==> b in q || b in more;
    assert forall b :: b in q ==> b.buf in Arrays(q);
  }
}
