/**
 conn_io.c and conn_common.c: the relay of a backend's bytes to its client. A read appends a buffer
 to the backend's read chunk, a splice moves that chunk to the end of the client's write chunk, and
 a write sends some prefix of the client's write chunk.
 */
module Relays {
  import opened Bytes
  import opened Chunks

  const CHUNKSIZE_LIMIT: nat := 102400
  const CONN_WRITE_CNTMAX: nat := 1024

  datatype IoResult = IOOK | IOERR_AGN | IOERR_MOR | IOERR_RW | IOERR_FULL | IOERR_EMPTY | IOERR_CLOSE | IOERR_OTHER

  /** What `read` finds on the socket. */
  datatype ReadOutcome = Arrived(bytes: seq<byte>) | ReadAgain | ReadFailed

  /** What `writev` answers: how many bytes the socket would take, or an error. */
  datatype WriteOutcome = Accepted(n: nat) | WriteAgain | WriteInterrupted | WriteFailed

  /** What one call of ssl_write answers: positive counts are bytes taken. */
  const SSL_AGAIN_WANT_READ := -2
  const SSL_AGAIN_WANT_WRITE := -3
  const SSL_CLOSE := -8

  /** The free room that chunk_io_read computes, of this read chunk and the peer's write chunk. */
  function Room(ck: Chunk): int
    reads ck
  {
    ck.limit - ck.used_size
  }

  /** The capacity that buffer_new gives. */
  function RoundedUp(size: nat): nat {
    if size % BUFFER_SIZE_MIN == 0 then size else size - size % BUFFER_SIZE_MIN + BUFFER_SIZE_MIN
  }

  lemma RoundedOnce(capacity: nat, size: nat)
    requires capacity % BUFFER_SIZE_MIN == 0 && size <= capacity < size + BUFFER_SIZE_MIN
    ensures capacity == RoundedUp(size)
  {}

  /** What a read stores of the bytes that wait, with `room` bytes of room: the rounded spare is used too. */
  function Stored(sys: int, room: int, found: ReadOutcome): (r: seq<byte>)
    ensures found.Arrived? ==> r <= found.bytes
    ensures room > 0 ==> |r| < room + BUFFER_SIZE_MIN
    ensures r != [] <==> sys > 0 && room > 0 && found.Arrived? && found.bytes != []
  {
    if sys > 0 && room > 0 && found.Arrived? then found.bytes[..Min(|found.bytes|, RoundedUp(Min(sys, room)))] else []
  }

  /** It is the longest prefix that fits: the least multiple of 64 that is no less than what is announced or what
      there is room for bounds it. */
  lemma StoredMost(sys: int, room: int, found: ReadOutcome, k: nat)
    requires sys > 0 && room > 0 && found.Arrived?
    ensures |Stored(sys, room, found)| == k <==>
      && k <= |found.bytes|
      && (forall m: nat :: m % BUFFER_SIZE_MIN == 0 && (sys <= m || room <= m) ==> k <= m)
      && (k == |found.bytes| || (k % BUFFER_SIZE_MIN == 0 && (sys <= k || room <= k)))
  {
    var r := RoundedUp(Min(sys, room));
    assert r % BUFFER_SIZE_MIN == 0 && Min(sys, room) <= r < Min(sys, room) + BUFFER_SIZE_MIN;
    forall m: nat | m % BUFFER_SIZE_MIN == 0 && (sys <= m || room <= m) ensures r <= m {
      assert Min(sys, room) <= m;
    }
  }

  /** chunk_io_read: `sys` is the answer of FIONREAD, `to` the write chunk of the peer, if any. */
  method ChunkIoRead(from: Chunk, to: Chunk?, sys: int, outcome: ReadOutcome)
    returns (ret: IoResult, buf: Buffer?, n: nat)
    requires from.Valid()
    modifies from
    ensures from.Valid() && from.limit == old(from.limit)
    ensures var wsize := old(Room(from) + if to == null then 0 else Room(to));
      && (wsize <= 0 < sys ==> ret == IOERR_FULL)
      && (buf != null <==> 0 < sys && 0 < wsize && outcome.Arrived? && outcome.bytes != [])
      && (buf != null ==> n < wsize + 64 && (ret == IOERR_MOR <==> n < sys) && (ret == IOOK <==> sys <= n))
    ensures buf == null ==> unchanged(from) && n == 0
    ensures var wsize := old(Room(from) + if to == null then 0 else Room(to)); buf != null ==>
      && fresh(buf) && fresh(buf.buf) && buf.data == 0 && buf.used == n
      && buf.Valid() && buf.Content() == Stored(sys, wsize, outcome) && from.queue == old(from.queue) + [buf]
      && from.used_size == old(from.used_size) + n && from.num == old(from.num) + 1
      && from.total_size == old(from.total_size) + buf.buf.Length
  {
    hide Flat, Wf, RoundedUp, Min, Buffer.Content;
    buf, n := null, 0;
    if sys < 0 {
      return IOERR_OTHER, null, 0;
    }
    if sys == 0 {
      return IOERR_CLOSE, null, 0;
    }
    var wsize := from.limit - from.used_size + if to == null then 0 else to.limit - to.used_size;
    if wsize <= 0 {
      return IOERR_FULL, null, 0;
    }
    var toread := if sys < wsize then sys else wsize;
    match outcome {
      case ReadAgain => return IOERR_AGN, null, 0;
      case ReadFailed => return IOERR_OTHER, null, 0;
      case Arrived(bytes) =>
        var b := ReadSome(toread, bytes);
        if b.used == 0 {
          return IOERR_CLOSE, null, 0;
        }
        from.Put(b);
        return if b.used < sys then IOERR_MOR else IOOK, b, b.used;
    }
  }

  /** `buf = buffer_new(toread); readn = read(fd, buffer_getwpos(buf), buffer_spare(buf))` */
  method ReadSome(toread: nat, bytes: seq<byte>) returns (b: Buffer)
    ensures fresh(b) && fresh(b.buf) && b.Valid() && b.data == 0
    ensures b.Content() == bytes[..Min(|bytes|, RoundedUp(toread))]
    ensures b.used == Min(|bytes|, RoundedUp(toread)) < toread + BUFFER_SIZE_MIN
    ensures toread > 0 ==> (b.used == 0 <==> bytes == [])
  {
    b := new Buffer(toread);
    RoundedOnce(b.buf.Length, toread);
    StoreBytes(b, bytes[..Min(|bytes|, b.Spare())]);
  }

  /** The buffers of a queue whose live bytes start at the front of their array. */
  ghost predicate Unconsumed(q: seq<Buffer>)
    reads q
  {
    forall b :: b in q ==> b.data == 0
  }

  // ---- what flow control sees of a queue ----

  /** A buffer as the counters see it: bytes taken from its front, and bytes left. */
  datatype Lot = Lot(skip: nat, size: nat)

  ghost function Lots(q: seq<Buffer>): (r: seq<Lot>)
    reads q
    ensures |r| == |q|
  {
    if q == [] then [] else [Lot(q[0].data, q[0].used)] + Lots(q[1..])
  }

  /** The bytes left in some lots. */
  function Size(lots: seq<Lot>): nat {
    if lots == [] then 0 else lots[0].size + Size(lots[1..])
  }

  /** The same with those taken, as buffer_mused counts. */
  function Weight(lots: seq<Lot>): nat {
    if lots == [] then 0 else lots[0].skip + lots[0].size + Weight(lots[1..])
  }

  /** `n` bytes are taken from the front; a lot goes with its last byte. */
  function Dropped(lots: seq<Lot>, n: nat): seq<Lot> {
    if n == 0 || lots == [] then lots
    else if lots[0].size <= n then Dropped(lots[1..], n - lots[0].size)
    else [Lot(lots[0].skip + n, lots[0].size - n)] + lots[1..]
  }

  lemma {:induction false} LotsAppend(a: seq<Buffer>, b: seq<Buffer>)
    ensures Lots(a + b) == Lots(a) + Lots(b)
  {
    if a == [] {
      assert a + b == b;
    } else {
      assert (a + b)[1..] == a[1..] + b;
      LotsAppend(a[1..], b);
    }
  }

  lemma {:induction false} SizeAppend(a: seq<Lot>, b: seq<Lot>)
    ensures Size(a + b) == Size(a) + Size(b)
  {
    if a == [] {
      assert a + b == b;
    } else {
      assert (a + b)[1..] == a[1..] + b;
      SizeAppend(a[1..], b);
    }
  }

  lemma {:induction false} LotsSizes(q: seq<Buffer>)
    ensures Size(Lots(q)) == LiveSize(q) && Weight(Lots(q)) == StoredSize(q)
  {
    if q != [] { LotsSizes(q[1..]); }
  }

  lemma {:induction false} LotsPrefix(q: seq<Buffer>, n: nat)
    requires n <= |q|
    ensures Lots(q[..n]) == Lots(q)[..n]
  {
    LotsAppend(q[..n], q[n..]);
    assert q[..n] + q[n..] == q;
  }

  lemma LotsFirst(q: seq<Buffer>)
    requires q != []
    ensures Lots(q) == [Lot(q[0].data, q[0].used)] + Lots(q[1..])
  {}

  lemma {:induction false} DroppedSize(lots: seq<Lot>, n: nat)
    requires n <= Size(lots)
    ensures Size(Dropped(lots, n)) == Size(lots) - n
    decreases |lots|
  {
    if n != 0 && lots != [] && lots[0].size <= n {
      DroppedSize(lots[1..], n - lots[0].size);
    }
  }

  lemma {:induction false} SizesAppend(a: seq<Buffer>, b: seq<Buffer>)
    ensures StoredSize(a + b) == StoredSize(a) + StoredSize(b)
    ensures LiveSize(a + b) == LiveSize(a) + LiveSize(b)
    ensures TotalSize(a + b) == TotalSize(a) + TotalSize(b)
  {
    if a == [] {
      assert a + b == b;
    } else {
      assert (a + b)[1..] == a[1..] + b;
      SizesAppend(a[1..], b);
    }
  }

  lemma SizesEmpty()
    ensures StoredSize([]) == LiveSize([]) == TotalSize([]) == 0
  {}

  lemma SizesOne(b: Buffer)
    ensures StoredSize([b]) == b.Mused() && LiveSize([b]) == b.used && TotalSize([b]) == b.buf.Length
  {}

  /** The first loop of chunk_io_write: the vector of at most 1024 buffers offered to writev. */
  method Gather(ck: Chunk) returns (n: nat, iov: seq<byte>)
    requires ck.Valid()
    ensures n == Min(|ck.queue|, CONN_WRITE_CNTMAX)
    ensures iov == Prefix(ck.queue, n) == old(Prefix(ck.queue, n)) && iov <= old(ck.Bytes()) == ck.Bytes()
  {
    hide Flat, Wf, Prefix, IndexOf;
    n, iov := 0, [];
    ghost var q := ck.queue;
    assert allocated(q) && allocated(Arrays(q));
    PrefixEnds(q, 0);
    var buf := ck.GetFirst();
    while buf != null
      invariant ck.queue == q && ck.Valid() && ck.Bytes() == old(ck.Bytes())
      invariant 0 <= n <= |q| && n <= CONN_WRITE_CNTMAX && iov == Prefix(q, n) == old(Prefix(q, n))
      invariant buf != null ==> n < |q| && n < CONN_WRITE_CNTMAX && buf == q[n]
      invariant buf == null ==> n == Min(|q|, CONN_WRITE_CNTMAX)
      decreases |q| - n
    {
      PrefixStep(q, n);
      iov := iov + buf.buf[buf.data..buf.data + buf.used];
      n := n + 1;
      if n >= CONN_WRITE_CNTMAX {
        break;
      }
      buf := ck.GetNext(buf);
    }
    PrefixEnds(q, n);
  }

  lemma DropAll(a: seq<byte>, b: seq<byte>, n: nat)
    requires |a| == n
    ensures (a + b)[n..] == b
  {}

  /** The second loop of chunk_io_write: drops `written` bytes, whole buffers through buffer_get. */
  method Consume(ck: Chunk, written: nat) returns (more: bool)
    requires ck.Valid() && ck.used_size == StoredSize(ck.queue) && 0 < written <= |ck.Bytes()|
    modifies ck, ck.queue`data, ck.queue`used
    ensures ck.Valid() && ck.limit == old(ck.limit)
    ensures ck.Bytes() == old(ck.Bytes())[written..]
    ensures ck.used_size == StoredSize(ck.queue) <= old(ck.used_size)
    ensures exists k :: 0 <= k <= |old(ck.queue)| && ck.queue == old(ck.queue)[k..]
    ensures ck.total_size == old(ck.total_size) - (old(TotalSize(ck.queue)) - TotalSize(ck.queue))
    ensures ck.num == old(ck.num) - (|old(ck.queue)| - |ck.queue|)
    ensures Lots(ck.queue) == Dropped(old(Lots(ck.queue)), written)
    ensures more <==> ck.queue != []
  {
    hide Flat, Wf, StoredSize, TotalSize, Buffer.Mused, Buffer.Content, Lots, Dropped, Behind;
    ghost var all, lots, first := ck.Bytes(), Lots(ck.queue), ck.queue;
    AllBehind(first);
    var left: nat := written;
    while true
      invariant ck.Valid() && ck.limit == old(ck.limit) && left <= written <= |all|
      invariant Behind(first, ck.queue) && ck.num == old(ck.num) - (|first| - |ck.queue|)
      invariant ck.Bytes() == all[written - left..]
      invariant ck.used_size == StoredSize(ck.queue) <= old(ck.used_size)
      invariant ck.total_size == old(ck.total_size) - (old(TotalSize(ck.queue)) - TotalSize(ck.queue))
      invariant left > 0 && Dropped(Lots(ck.queue), left) == Dropped(lots, written)
      decreases |ck.queue|
    {
      var buf := ck.GetFirst();
      EmptyFlat(ck.queue);
      if buf == null {
        break;
      }
      ghost var q, was := ck.queue, left;
      BehindIn(first, q);
      assert buf == first[|first| - |q|];
      left := ConsumeRound(ck, buf, left);
      DropDrop(all, written - was, was - left);
      StillBehind(first, q, ck.queue);
      if left <= 0 {
        break;
      }
    }
    DroppedNone(Lots(ck.queue), left);
    BehindPlace(first, ck.queue);
    return ck.queue != [];
  }

  ghost predicate Behind(all: seq<Buffer>, q: seq<Buffer>) {
    |q| <= |all| && q == all[|all| - |q|..]
  }

  lemma AllBehind(all: seq<Buffer>)
    ensures Behind(all, all)
  {}

  lemma StillBehind(all: seq<Buffer>, was: seq<Buffer>, q: seq<Buffer>)
    requires Behind(all, was) && (q == was || (was != [] && q == was[1..]))
    ensures Behind(all, q)
  {}

  lemma BehindIn(all: seq<Buffer>, q: seq<Buffer>)
    requires Behind(all, q)
    ensures q != [] ==> |q| <= |all| && q[0] == all[|all| - |q|]
  {}

  lemma BehindPlace(all: seq<Buffer>, q: seq<Buffer>)
    requires Behind(all, q)
    ensures exists k :: 0 <= k <= |all| && q == all[k..]
  {}

  lemma DroppedNone(lots: seq<Lot>, n: nat)
    ensures n == 0 || lots == [] ==> Dropped(lots, n) == lots
  {}

  lemma DroppedWhole(q: seq<Buffer>, n: nat)
    requires q != [] && 0 < n
    ensures q[0].used <= n ==> Dropped(Lots(q), n) == Dropped(Lots(q[1..]), n - q[0].used)
  {
    LotsFirst(q);
  }

  lemma DroppedPart(lot: Lot, rest: seq<Lot>, n: nat)
    requires 0 < n < lot.size
    ensures Dropped([lot] + rest, n) == [Lot(lot.skip + n, lot.size - n)] + rest
  {}

  /** One round: the first buffer goes, or loses some of its bytes. */
  method ConsumeRound(ck: Chunk, first: Buffer, left: nat) returns (rest: nat)
    requires ck.Valid() && ck.queue != [] && first == ck.queue[0] && 0 < left <= |ck.Bytes()|
    requires ck.used_size == StoredSize(ck.queue)
    modifies ck, first`data, first`used
    ensures ck.Valid() && ck.limit == old(ck.limit) && rest <= left
    ensures ck.Bytes() == old(ck.Bytes())[left - rest..]
    ensures ck.queue == old(ck.queue)[1..] || (ck.queue == old(ck.queue) && rest == 0)
    ensures ck.used_size == StoredSize(ck.queue) <= old(ck.used_size)
    ensures ck.total_size == old(ck.total_size) - (old(TotalSize(ck.queue)) - TotalSize(ck.queue))
    ensures ck.num == old(ck.num) - (|old(ck.queue)| - |ck.queue|)
    ensures Dropped(Lots(ck.queue), rest) == Dropped(old(Lots(ck.queue)), left)
  {
    hide Flat, Wf, StoredSize, TotalSize, Buffer.Mused, Buffer.Content, Lots, Dropped;
    FirstRest(ck.queue);
    FirstSizes(ck.queue);
    DroppedWhole(ck.queue, left);
    if left >= first.used {
      var buf := ck.Get();
      DropAll(buf.Content(), ck.Bytes(), buf.used);
      return left - buf.used;
    }
    ConsumePart(ck, first, left);
    DroppedNone(Lots(ck.queue), 0);
    return 0;
  }

  /** The first buffer loses some of its bytes. */
  method ConsumePart(ck: Chunk, first: Buffer, n: nat)
    requires ck.Valid() && ck.queue != [] && first == ck.queue[0] && 0 < n < first.used
    modifies first`data, first`used
    ensures ck.Valid() && ck.Bytes() == old(ck.Bytes())[n..]
    ensures StoredSize(ck.queue) == old(StoredSize(ck.queue)) && TotalSize(ck.queue) == old(TotalSize(ck.queue))
    ensures Lots(ck.queue) == Dropped(old(Lots(ck.queue)), n)
  {
    hide Flat, Wf, StoredSize, TotalSize, Buffer.Content, Lots, Dropped;
    ghost var rest, lot := ck.queue[1..], Lot(first.data, first.used);
    FirstRest(ck.queue);
    assert ck.queue == [first] + rest;
    LotsFirst(ck.queue);
    DroppedPart(lot, Lots(rest), n);
    assert allocated(rest);
    ConsumeFirst(ck, first, n);
    LotsFirst(ck.queue);
  }

  /** How many bytes of the chunk one writev takes. */
  ghost function Taken(ck: Chunk, outcome: WriteOutcome): nat
    reads ck, ck.queue
  {
    if outcome.Accepted? then Min(outcome.n, LiveSize(ck.queue[..Min(|ck.queue|, CONN_WRITE_CNTMAX)])) else 0
  }

  lemma PrefixSize(q: seq<Buffer>, n: nat)
    requires Wf(q) && n <= |q|
    ensures |Prefix(q, n)| == LiveSize(q[..n])
  {
    WfPrefix(q, n);
    LiveIsFlat(q[..n]);
  }

  /** chunk_io_write: sends a prefix of the chunk, at most of its first 1024 buffers, and keeps exactly the rest. */
  method ChunkIoWrite(ck: Chunk, outcome: WriteOutcome) returns (ret: IoResult, sent: seq<byte>)
    requires ck.Valid() && ck.used_size == StoredSize(ck.queue)
    modifies ck, ck.queue`data, ck.queue`used
    ensures ck.Valid() && ck.limit == old(ck.limit)
    ensures old(ck.Bytes()) == sent + ck.Bytes()
    ensures |sent| == old(Taken(ck, outcome))
    ensures ck.used_size == StoredSize(ck.queue) <= old(ck.used_size)
    ensures ck.total_size - TotalSize(ck.queue) == old(ck.total_size - TotalSize(ck.queue))
    ensures ck.num - |ck.queue| == old(ck.num - |ck.queue|)
    ensures exists k :: 0 <= k <= |old(ck.queue)| && ck.queue == old(ck.queue)[k..]
    ensures Lots(ck.queue) == Dropped(old(Lots(ck.queue)), |sent|)
    ensures sent == [] ==> unchanged(ck)
    ensures ret == IOERR_EMPTY <==> old(ck.queue) == []
    ensures ret == IOOK <==> sent != [] && ck.queue == []
    ensures ret == IOERR_MOR <==> sent != [] && ck.queue != []
  {
    hide Flat, Wf, Prefix, StoredSize, TotalSize, Lots;
    sent := [];
    var n, iov := Gather(ck);
    PrefixSize(ck.queue, n);
    assert ck.queue == ck.queue[0..];
    PrefixEnds(ck.queue, 0);
    if n == 0 {
      return IOERR_EMPTY, [];
    }
    match outcome {
      case WriteAgain => return IOERR_AGN, [];
      case WriteInterrupted => return IOERR_AGN, [];
      case WriteFailed => return IOERR_OTHER, [];
      case Accepted(m) =>
        var written := Min(m, |iov|);
        if written == 0 {
          assert [] + ck.Bytes() == ck.Bytes();
          return IOERR_AGN, [];
        }
        ghost var all := ck.Bytes();
        sent := iov[..written];
        SentAndRest(iov, all, written);
        var more := Consume(ck, written);
        return if more then IOERR_MOR else IOOK, sent;
    }
  }

  lemma SentAndRest(iov: seq<byte>, all: seq<byte>, n: nat)
    requires iov <= all && n <= |iov|
    ensures all == iov[..n] + all[n..]
  {}

  /** One attempt of ssl_write with `room` bytes to send; it takes no more than that. */
  function SslAnswer(answers: seq<int>, k: nat, room: nat): (a: int)
    ensures a <= room
  {
    if k < |answers| && answers[k] <= room then answers[k] else if k < |answers| then room else SSL_CLOSE
  }

  /** What ssl_write takes of `room` bytes from the k-th attempt on, until it refuses twice. */
  function SslTaken(answers: seq<int>, k: nat, room: nat): (n: nat)
    ensures n <= room
    decreases room
  {
    var a, b := SslAnswer(answers, k, room), SslAnswer(answers, k + 1, room);
    if room == 0 then 0
    else if a > 0 then a + SslTaken(answers, k + 1, room - a)
    else if b > 0 then b + SslTaken(answers, k + 2, room - b)
    else 0
  }

  /** The bytes that some attempts took. */
  function Positives(tries: seq<int>): nat {
    if tries == [] then 0
    else Positives(tries[..|tries| - 1]) + (if tries[|tries| - 1] > 0 then tries[|tries| - 1] else 0)
  }

  function LastOf(tries: seq<int>): int {
    if tries == [] then 0 else tries[|tries| - 1]
  }

  /** What a refusal means. */
  function Refusal(written: int): IoResult {
    if written == SSL_AGAIN_WANT_WRITE || written == SSL_AGAIN_WANT_READ then IOERR_RW
    else if written == SSL_CLOSE then IOERR_CLOSE
    else IOERR_OTHER
  }

  /** The attempts of a send, in order: each offers what is left, none but the last two in a row are refused, and they
      end when everything is taken or two in a row are refused. */
  ghost predicate Attempts(answers: seq<int>, size: nat, tries: seq<int>) {
    && Under(answers, size, tries)
    && (forall i :: 0 <= i && i + 2 < |tries| ==> tries[i] > 0 || tries[i + 1] > 0)
    && (Positives(tries) == size || (|tries| > 1 && tries[|tries| - 1] <= 0 && tries[|tries| - 2] <= 0))
  }

  /** Attempts that may go on: there was something to send every time. */
  ghost predicate Under(answers: seq<int>, size: nat, tries: seq<int>) {
    && Positives(tries) <= size
    && forall i :: 0 <= i < |tries| ==> Tried(answers, size, tries, i)
  }

  ghost predicate Tried(answers: seq<int>, size: nat, tries: seq<int>, i: nat)
    requires i < |tries|
  {
    Positives(tries[..i]) < size && tries[i] == SslAnswer(answers, i, size - Positives(tries[..i]))
  }

  lemma PositivesNext(tries: seq<int>, a: int)
    ensures Positives(tries + [a]) == Positives(tries) + (if a > 0 then a else 0)
  {
    assert (tries + [a])[..|tries|] == tries;
  }

  lemma UnderNext(answers: seq<int>, size: nat, tries: seq<int>, a: int)
    requires Under(answers, size, tries) && Positives(tries) < size
    requires a == SslAnswer(answers, |tries|, size - Positives(tries))
    ensures Under(answers, size, tries + [a]) && Positives(tries + [a]) == Positives(tries) + (if a > 0 then a else 0)
  {
    hide SslAnswer, Positives;
    var r := tries + [a];
    PositivesNext(tries, a);
    AnswerFits(answers, |tries|, size - Positives(tries));
    forall i | 0 <= i < |r| ensures Tried(answers, size, r, i) {
      if i == |tries| {
        assert r[..i] == tries;
      } else {
        assert Tried(answers, size, tries, i) && r[..i] == tries[..i];
      }
    }
  }

  lemma AnswerFits(answers: seq<int>, k: nat, room: nat)
    ensures SslAnswer(answers, k, room) <= room
  {}

  /** No two in a row are refused. */
  ghost predicate Spaced(tries: seq<int>) {
    forall i :: 0 <= i && i + 1 < |tries| ==> tries[i] > 0 || tries[i + 1] > 0
  }

  lemma SpacedNext(tries: seq<int>, a: int)
    requires Spaced(tries) && (tries == [] || tries[|tries| - 1] > 0 || a > 0)
    ensures Spaced(tries + [a])
  {}

  lemma Refused(answers: seq<int>, size: nat, tries: seq<int>, a: int, b: int)
    requires Spaced(tries + [a]) && a <= 0 && b <= 0 && Under(answers, size, (tries + [a]) + [b])
    ensures Attempts(answers, size, (tries + [a]) + [b])
  {
    var one := tries + [a];
    var r := one + [b];
    forall i | 0 <= i && i + 2 < |r| ensures r[i] > 0 || r[i + 1] > 0 {
      assert r[i] == one[i] && r[i + 1] == one[i + 1];
    }
  }

  /** Two runs of attempts on the same answers begin alike. */
  lemma {:induction false} UnderSame(answers: seq<int>, size: nat, a: seq<int>, b: seq<int>, k: nat)
    requires Under(answers, size, a) && Under(answers, size, b) && k <= |a| && k <= |b|
    ensures a[..k] == b[..k]
  {
    if k > 0 {
      hide Positives, SslAnswer;
      UnderSame(answers, size, a, b, k - 1);
      assert Tried(answers, size, a, k - 1) && Tried(answers, size, b, k - 1);
      assert a[..k] == a[..k - 1] + [a[k - 1]] && b[..k] == b[..k - 1] + [b[k - 1]];
    }
  }

  /** The attempts are determined: so is the number of bytes that they take. */
  lemma AttemptsOnce(answers: seq<int>, size: nat, a: seq<int>, b: seq<int>)
    requires Attempts(answers, size, a) && Attempts(answers, size, b)
    ensures a == b
  {
    if |a| <= |b| { AttemptsEnd(answers, size, a, b); } else { AttemptsEnd(answers, size, b, a); }
  }

  lemma AttemptsEnd(answers: seq<int>, size: nat, a: seq<int>, b: seq<int>)
    requires Attempts(answers, size, a) && Attempts(answers, size, b) && |a| <= |b|
    ensures a == b
  {
    hide Positives, SslAnswer;
    var n := |a|;
    UnderSame(answers, size, a, b, n);
    assert a[..n] == a;
    assert n > 1 ==> b[..n][n - 1] == a[n - 1] && b[..n][n - 2] == a[n - 2];
    assert n < |b| ==> Tried(answers, size, b, n);
    assert n == |b|;
    assert b[..n] == b;
  }

  /** The sending loop of chunk_ssl_write: each refused attempt is repeated once. */
  method SslSend(size: nat, answers: seq<int>) returns (allwritten: nat, written: int, ghost tries: seq<int>)
    ensures Attempts(answers, size, tries) && allwritten == Positives(tries) == SslTaken(answers, 0, size)
    ensures written == LastOf(tries) && (size == 0 ==> written == 0)
    ensures size > 0 ==> (written > 0 <==> allwritten == size)
  {
    hide SslAnswer, Positives, Under;
    allwritten, written, tries := 0, 0, [];
    NoAttempts(answers, size);
    var k := 0;
    while allwritten < size
      invariant |tries| == k && Under(answers, size, tries) && allwritten == Positives(tries) <= size
      invariant allwritten + SslTaken(answers, k, size - allwritten) == SslTaken(answers, 0, size)
      invariant written == LastOf(tries) && (allwritten > 0 ==> written > 0) && (allwritten == 0 ==> written == 0)
      invariant k > 0 ==> tries[k - 1] > 0
      invariant Spaced(tries)
      decreases size - allwritten
    {
      ghost var room := size - allwritten;
      written := SslAnswer(answers, k, size - allwritten);
      UnderNext(answers, size, tries, written);
      tries := tries + [written];
      k := k + 1;
      if written <= 0 {
        written := SslAnswer(answers, k, size - allwritten);
        UnderNext(answers, size, tries, written);
        tries := tries + [written];
        k := k + 1;
        if written <= 0 {
          assert SslTaken(answers, k - 2, room) == 0;
          break;
        }
      }
      allwritten := allwritten + written;
    }
  }

  lemma NoAttempts(answers: seq<int>, size: nat)
    ensures Under(answers, size, []) && Positives([]) == 0 && Spaced([])
  {}

  /** What ssl_write takes is what its attempts take. */
  lemma {:induction false} SslTakenExact(answers: seq<int>, size: nat, n: nat)
    ensures SslTaken(answers, 0, size) == n <==> exists tries :: Attempts(answers, size, tries) && Positives(tries) == n
  {
    hide Attempts, Positives;
    NoAttempts(answers, size);
    var mine := SomeAttempts(answers, size, []);
    forall tries | Attempts(answers, size, tries) ensures tries == mine { AttemptsOnce(answers, size, tries, mine); }
  }

  /** Attempts that do not end yet go on. */
  lemma {:induction false} SomeAttempts(answers: seq<int>, size: nat, tries: seq<int>) returns (all: seq<int>)
    requires Under(answers, size, tries) && (tries != [] ==> tries[|tries| - 1] > 0) && Spaced(tries)
    ensures Attempts(answers, size, all)
    ensures Positives(all) == Positives(tries) + SslTaken(answers, |tries|, size - Positives(tries))
    decreases size - Positives(tries)
  {
    hide SslAnswer, Positives, Spaced, Attempts;
    var room := size - Positives(tries);
    all := tries;
    if room == 0 {
      AllTaken(answers, size, tries);
    } else {
      var a, b := SslAnswer(answers, |tries|, room), SslAnswer(answers, |tries| + 1, room);
      var one := tries + [a];
      UnderNext(answers, size, tries, a);
      SpacedNext(tries, a);
      hide Under;
      if a > 0 {
        all := SomeAttempts(answers, size, one);
      } else {
        UnderNext(answers, size, one, b);
        if b > 0 {
          SpacedNext(one, b);
          all := SomeAttempts(answers, size, one + [b]);
        } else {
          Refused(answers, size, tries, a, b);
          all := one + [b];
        }
      }
    }
  }

  lemma AllTaken(answers: seq<int>, size: nat, tries: seq<int>)
    requires Under(answers, size, tries) && Spaced(tries) && Positives(tries) == size
    ensures Attempts(answers, size, tries)
  {}

  /** chunk_ssl_write: merges everything into the first buffer, sends a prefix and erases it. */
  method ChunkSslWrite(ck: Chunk, answers: seq<int>)
    returns (ret: IoResult, ghost sent: seq<byte>, n: nat, ghost tries: seq<int>)
    requires ck.Valid() && 0 <= ck.used_size
    modifies ck, ck.queue, Arrays(ck.queue)
    ensures ck.Valid() && ck.limit == old(ck.limit)
    ensures n == |sent| && old(ck.Bytes()) == sent + ck.Bytes() && ck.used_size == old(ck.used_size) - |sent|
    ensures old(ck.used_size) > |old(ck.Bytes())| && old(ck.queue) != [] ==> ret == IOERR_OTHER && sent == []
    ensures old(ck.used_size) == |old(ck.Bytes())| ==> n == SslTaken(answers, 0, |old(ck.Bytes())|)
    ensures old(ck.used_size) == |old(ck.Bytes())| ==>
      && Attempts(answers, |old(ck.Bytes())|, tries) && n == Positives(tries)
      && (ret == IOOK ==> ck.queue == [])
      && ret == (if old(ck.queue) == [] || 0 < n == |old(ck.Bytes())| then IOOK else Refusal(LastOf(tries)))
    ensures forall b <- ck.queue :: b in old(ck.queue) && (b.buf == old(b.buf) || fresh(b.buf))
  {
    hide Flat, Wf, Attempts, Positives;
    n, sent, tries := 0, [], [];
    NothingToSend(answers);
    var buf := ck.GetFirst();
    EmptyFlat(ck.queue);
    if buf == null {
      return IOOK, [], 0, [];
    }
    var merged := MergeFirst(ck, buf, ck.used_size);
    if merged != 0 {
      return IOERR_OTHER, [], 0, [];
    }
    ghost var all := ck.Bytes();
    ghost var content, q := buf.Content(), ck.queue;
    assert allocated(q) && allocated(Arrays(q)) && forall b <- q :: b in old(ck.queue);
    var allwritten, written;
    allwritten, written, tries := SslSend(buf.used, answers);
    assert ck.queue == q && ck.Bytes() == all;
    sent, n := content[..allwritten], allwritten;
    SentAndRest(content, all, allwritten);
    assert forall i :: 0 <= i < |ck.queue| ==> ck.queue[i] in old(ck.queue);
    var left := ck.Erase(allwritten);
    if written <= 0 {
      if written == SSL_AGAIN_WANT_WRITE || written == SSL_AGAIN_WANT_READ {
        return IOERR_RW, sent, n, tries;
      }
      return if written == SSL_CLOSE then IOERR_CLOSE else IOERR_OTHER, sent, n, tries;
    }
    return if ck.queue != [] then IOERR_MOR else IOOK, sent, n, tries;
  }

  lemma NothingToSend(answers: seq<int>)
    ensures Attempts(answers, 0, []) && Positives([]) == 0
  {
    NoAttempts(answers, 0);
  }

  /** Arithmetic on uint32_t. */
  function Wrapped(n: nat): nat { n % 0x1_0000_0000 }

  lemma WrappedSum(a: nat, b: nat)
    ensures Wrapped(Wrapped(a) + b) == Wrapped(a + b)
  {
    var x, k := Wrapped(a) + b, 0x1_0000_0000;
    assert a + b == k * (a / k + x / k) + Wrapped(x);
    assert (a + b) / k == a / k + x / k;
  }

  /** The part of connection_t that the relay uses. */
  class Connection {
    const readbuf: Chunk
    const writebuf: Chunk
    var upsize: nat
    var downsize: nat  // both are of type uint32_t

    constructor ()
      ensures readbuf.Valid() && writebuf.Valid() && fresh(readbuf) && fresh(writebuf) && readbuf != writebuf
      ensures readbuf.queue == [] && readbuf.used_size == 0 && readbuf.total_size == 0 && readbuf.num == 0
      ensures writebuf.queue == [] && writebuf.used_size == 0 && writebuf.total_size == 0 && writebuf.num == 0
      ensures readbuf.limit == writebuf.limit == CHUNKSIZE_LIMIT && upsize == 0 && downsize == 0
    {
      readbuf := new Chunk(CHUNKSIZE_LIMIT);
      writebuf := new Chunk(CHUNKSIZE_LIMIT);
      upsize, downsize := 0, 0;
    }
  }

  /** The bookkeeping of a chunk that only buffer_put, buffer_get, the splice and chunk_io_write change. */
  ghost predicate Counted(ck: Chunk)
    reads ck, ck.queue
  {
    ck.used_size == StoredSize(ck.queue) && ck.total_size == TotalSize(ck.queue) && ck.num == |ck.queue|
  }

  /** A read chunk: its buffers were filled from the front and nothing of them was taken yet. */
  ghost predicate Clean(ck: Chunk)
    reads ck, ck.queue
  {
    Counted(ck) && ck.used_size == LiveSize(ck.queue) && Unconsumed(ck.queue)
  }

  /** The lots after a read. */
  function Added(lots: seq<Lot>, n: nat): seq<Lot> {
    if n == 0 then lots else lots + [Lot(0, n)]
  }

  lemma LotsOne(b: Buffer)
    ensures Lots([b]) == [Lot(b.data, b.used)]
  {}

  /** chunk_io_read seen from both chunks of the relay. */
  method ReadInto(from: Chunk, to: Chunk, sys: int, found: ReadOutcome)
    returns (ret: IoResult, n: nat, ghost bytes: seq<byte>)
    requires from != to && Wf(to.queue + from.queue) && Clean(from)
    modifies from
    ensures to.queue == old(to.queue) && from.limit == old(from.limit)
    ensures Wf(to.queue + from.queue) && Clean(from) && LiveSize(to.queue) == old(LiveSize(to.queue))
    ensures Counted(to) == old(Counted(to))
    ensures |bytes| == n && Flat(to.queue + from.queue) == old(Flat(to.queue + from.queue)) + bytes
    ensures bytes == Stored(sys, old(Room(from) + Room(to)), found) && from.used_size == old(from.used_size) + n
    ensures old(Room(from) + Room(to)) <= 0 < sys ==> ret == IOERR_FULL
    ensures Lots(from.queue) == Added(old(Lots(from.queue)), n) && Lots(to.queue) == old(Lots(to.queue))
    ensures forall b <- from.queue :: b in old(from.queue) || (fresh(b) && fresh(b.buf))
  {
    hide Flat, Wf, StoredSize, LiveSize, TotalSize, Lots, Stored, Buffer.Content, Unconsumed;
    ghost var q, p := to.queue, from.queue;
    WfParts(q, p);
    ghost var all := q + p;
    assert allocated(all) && allocated(Arrays(all)) && from as object !in Arrays(all);
    assert allocated(q) && allocated(p);
    var buf;
    ret, buf, n := ChunkIoRead(from, to, sys, found);
    bytes := [];
    if buf != null {
      bytes := buf.Content();
      AddLast(q, p, buf);
    } else {
      assert old(Flat(q + p)) + [] == Flat(q + p);
    }
  }

  ghost predicate Strangers(a: seq<Buffer>, b: seq<Buffer>)
    reads a`buf, b`buf
  {
    forall x, y :: x in a && y in b ==> x != y && x.buf != y.buf
  }

  lemma TwoQueues(a: seq<Buffer>, b: seq<Buffer>)
    ensures Wf(a + b) <==> Wf(a) && Wf(b) && Strangers(a, b)
  {
    var q := a + b;
    assert forall i :: 0 <= i < |a| ==> q[i] == a[i];
    assert forall i :: 0 <= i < |b| ==> q[|a| + i] == b[i];
    if Wf(q) {
      forall x, y | x in a && y in b ensures x != y && x.buf != y.buf {
        var i, j :| 0 <= i < |a| && a[i] == x && 0 <= j < |b| && b[j] == y;
        assert q[i] == x && q[|a| + j] == y;
      }
    }
    if Wf(a) && Wf(b) && Strangers(a, b) {
      assert forall i, j :: 0 <= i < |a| && 0 <= j < |b| ==> a[i] in a && b[j] in b;
    }
  }

  lemma StrangersRest(a: seq<Buffer>, b: seq<Buffer>, k: nat)
    requires k <= |a| && Strangers(a, b)
    ensures Strangers(a[k..], b)
  {
    assert forall x :: x in a[k..] ==> x in a;
  }

  lemma CountedMeans(ck: Chunk)
    ensures Counted(ck) <==>
      ck.used_size == StoredSize(ck.queue) && ck.total_size == TotalSize(ck.queue) && ck.num == |ck.queue|
  {}

  /** chunk_io_write beside the buffers of another chunk. */
  method WriteBeside(to: Chunk, ghost p: seq<Buffer>, taken: WriteOutcome) returns (ret: IoResult, bytes: seq<byte>)
    requires Wf(to.queue) && Wf(p) && Strangers(to.queue, p) && Counted(to)
    modifies to, to.queue`data, to.queue`used
    ensures Wf(to.queue) && Wf(p) && Strangers(to.queue, p) && Counted(to)
    ensures to.limit == old(to.limit) && to.used_size <= old(to.used_size)
    ensures old(Flat(to.queue)) == bytes + Flat(to.queue) && Flat(p) == old(Flat(p))
    ensures |bytes| == old(Taken(to, taken)) && (ret == IOOK ==> to.queue == [])
    ensures Lots(to.queue) == Dropped(old(Lots(to.queue)), |bytes|)
    ensures bytes == [] ==> unchanged(to)
    ensures forall b <- to.queue :: b in old(to.queue)
  {
    hide Flat, Wf, StoredSize, LiveSize, TotalSize, Prefix, Taken, Lots, Dropped, Counted;
    CountedMeans(to);
    ghost var q := to.queue;
    assert allocated(p) && allocated(Arrays(p)) && allocated(q);
    assert to as object !in Arrays(p);
    assert forall i :: 0 <= i < |q| ==> q[i] in q && q[i] !in p && q[i] as object !in Arrays(p);
    assert forall x :: x in p ==> x !in q;
    assert forall x :: x in q || x in p ==> x as object != to;
    hide Strangers;
    ret, bytes := ChunkIoWrite(to, taken);
    assert forall x :: x in q || x in p ==> x.buf == old(x.buf);
    assert forall i :: 0 <= i < |p| ==> p[i] in p && unchanged(p[i]) && unchanged(p[i].buf);
    Untouched(p);
    ghost var k :| 0 <= k <= |q| && to.queue == q[k..];
    StrangersStay((q, p));
    StrangersRest(q, p, k);
    Suffix(q, k);
    CountedMeans(to);
  }

  twostate lemma WfStays(p: seq<Buffer>)
    requires old(Wf(p)) && forall i :: 0 <= i < |p| ==> unchanged(p[i])
    ensures Wf(p)
  {}

  twostate lemma {:induction false} Untouched(p: seq<Buffer>)
    requires old(Wf(p)) && forall i :: 0 <= i < |p| ==> unchanged(p[i]) && unchanged(p[i].buf)
    ensures Wf(p) && Flat(p) == old(Flat(p))
    decreases |p|
  {
    hide Buffer.Valid;
    WfStays(p);
    if p != [] {
      var rest := p[1..];
      assert forall i :: 0 <= i < |rest| ==> rest[i] == p[i + 1];
      Untouched(rest);
      SameContent(p[0]);
    }
  }

  twostate lemma SameContent(b: Buffer)
    requires old(b.Valid()) && unchanged(b) && unchanged(b.buf)
    ensures b.Valid() && b.Content() == old(b.Content())
  {}

  twostate lemma StrangersStay(both: (seq<Buffer>, seq<Buffer>))
    requires old(Strangers(both.0, both.1)) && forall x :: x in both.0 || x in both.1 ==> x.buf == old(x.buf)
    ensures Strangers(both.0, both.1)
  {}

  lemma Suffix(q: seq<Buffer>, k: nat)
    requires k <= |q|
    ensures forall x <- q[k..] :: x in q
  {}

  /** chunk_io_write seen from both chunks of the relay. */
  method WriteOut(to: Chunk, from: Chunk, taken: WriteOutcome) returns (ret: IoResult, bytes: seq<byte>)
    requires from != to && Wf(to.queue + from.queue) && Counted(to) && Clean(from)
    modifies to, to.queue`data, to.queue`used
    ensures from.queue == old(from.queue) && to.limit == old(to.limit)
    ensures Wf(to.queue + from.queue) && Counted(to) && Clean(from) && to.used_size <= old(to.used_size)
    ensures old(Flat(to.queue + from.queue)) == bytes + Flat(to.queue + from.queue)
    ensures |bytes| == old(Taken(to, taken)) && (ret == IOOK ==> to.queue == [])
    ensures Lots(to.queue) == Dropped(old(Lots(to.queue)), |bytes|) && Lots(from.queue) == old(Lots(from.queue))
    ensures bytes == [] ==> unchanged(to)
    ensures forall b <- to.queue :: b in old(to.queue) && (b.buf == old(b.buf) || fresh(b.buf))
  {
    hide Flat, Wf, StoredSize, LiveSize, TotalSize, Prefix, Taken, Lots, Dropped, Counted;
    ghost var q, p := to.queue, from.queue;
    TwoQueues(q, p);
    FlatAppend(q, p);
    assert allocated(p) && forall i :: 0 <= i < |q| ==> q[i] in q && q[i] !in p;
    assert forall x :: x in p ==> x !in q;
    hide Strangers, Clean;
    ret, bytes := WriteBeside(to, p, taken);
    TwoQueues(to.queue, p);
    FlatAppend(to.queue, p);
    Regroup3(bytes, Flat(to.queue), Flat(p));
  }

  lemma Regroup3(a: seq<byte>, b: seq<byte>, c: seq<byte>)
    ensures (a + b) + c == a + (b + c)
  {}

  /** chunk_ssl_write seen from both chunks of the relay. */
  method SslWriteOut(to: Chunk, from: Chunk, answers: seq<int>) returns (ret: IoResult, n: nat, ghost bytes: seq<byte>)
    requires from != to && Wf(to.queue + from.queue) && to.used_size == LiveSize(to.queue) && Clean(from)
    modifies to, to.queue, Arrays(to.queue)
    ensures from.queue == old(from.queue) && to.limit == old(to.limit)
    ensures Wf(to.queue + from.queue) && to.used_size == LiveSize(to.queue) && Clean(from)
    ensures |bytes| == n == SslTaken(answers, 0, old(LiveSize(to.queue))) && to.used_size == old(to.used_size) - n
    ensures old(Flat(to.queue + from.queue)) == bytes + Flat(to.queue + from.queue)
    ensures ret == IOOK ==> to.queue == []
    ensures Lots(from.queue) == old(Lots(from.queue))
    ensures forall b <- to.queue :: b in old(to.queue) && (b.buf == old(b.buf) || fresh(b.buf))
  {
    hide Flat, Wf, StoredSize, LiveSize, TotalSize, Lots;
    ghost var q, p := to.queue, from.queue;
    TwoQueues(q, p);
    FlatAppend(q, p);
    LiveIsFlat(q);
    assert allocated(p) && allocated(Arrays(p)) && allocated(q);
    assert to as object !in Arrays(p);
    assert forall x :: x in q ==> x.buf !in Arrays(p);
    ghost var tries;
    ret, bytes, n, tries := ChunkSslWrite(to, answers);
    assert forall i :: 0 <= i < |to.queue| ==> to.queue[i] in q;
    TwoQueues(to.queue, p);
    FlatAppend(to.queue, p);
    LiveIsFlat(to.queue);
    Regroup3(bytes, Flat(to.queue), Flat(p));
  }

  /** The accounting of a write chunk: by `used` when it is sent through SSL, by buffer_mused otherwise. */
  ghost predicate Accounted(ck: Chunk, ssl: bool)
    reads ck, ck.queue
  {
    if ssl then ck.used_size == LiveSize(ck.queue) else Counted(ck)
  }

  method SendOut(to: Chunk, from: Chunk, ssl: bool, taken: WriteOutcome, answers: seq<int>)
    returns (ret: IoResult, n: nat, ghost bytes: seq<byte>)
    requires from != to && Wf(to.queue + from.queue) && Accounted(to, ssl) && Clean(from)
    modifies to, to.queue, Arrays(to.queue)
    ensures from.queue == old(from.queue) && to.limit == old(to.limit)
    ensures Wf(to.queue + from.queue) && Accounted(to, ssl) && Clean(from)
    ensures |bytes| == n && to.used_size <= old(to.used_size)
    ensures old(Flat(to.queue + from.queue)) == bytes + Flat(to.queue + from.queue)
    ensures n == if ssl then SslTaken(answers, 0, old(LiveSize(to.queue))) else old(Taken(to, taken))
    ensures Lots(from.queue) == old(Lots(from.queue))
    ensures if ssl then LiveSize(to.queue) == old(LiveSize(to.queue)) - n
            else Lots(to.queue) == Dropped(old(Lots(to.queue)), n)
    ensures ret == IOOK ==> to.queue == []
    ensures forall b <- to.queue + from.queue ::
      b in old(to.queue + from.queue) && (b.buf == old(b.buf) || fresh(b.buf))
  {
    hide Flat, Wf, StoredSize, LiveSize, TotalSize, Clean, Counted, Lots;
    ghost var q, p := to.queue, from.queue;
    TwoQueues(q, p);
    assert forall x :: x in p ==> x !in q;
    if ssl {
      ret, n, bytes := SslWriteOut(to, from, answers);
    } else {
      var out;
      ret, out := WriteOut(to, from, taken);
      n, bytes := |out|, out;
    }
  }

  /** Everything a run may do to the two linked connections. */
  datatype Event = Read(sys: int, found: ReadOutcome) | Splice | Write(taken: WriteOutcome, answers: seq<int>)

  // ---- the reference ----

  /** The two connections on plain values: what was read, what was sent, and the lots of the two chunks. */
  datatype Flow = Flow(received: seq<byte>, sent: seq<byte>, read: seq<Lot>, write: seq<Lot>) {
    /** What was read is what was sent and what the lots hold. */
    predicate Valid() {
      sent <= received && |received| == |sent| + Size(write) + Size(read)
    }
  }

  const START: Flow := Flow([], [], [], [])

  lemma StartValid()
    ensures START.Valid()
  {}

  /** The room that flow control leaves: the SSL path counts the bytes left, the plain path also those taken. */
  function FreeIn(v: Flow, ssl: bool): int {
    2 * CHUNKSIZE_LIMIT - Size(v.read) - (if ssl then Size(v.write) else Weight(v.write))
  }

  /** How many bytes a write takes: what the SSL layer answers, or what writev takes of the first 1024 buffers. */
  function TakenOf(lots: seq<Lot>, ssl: bool, taken: WriteOutcome, answers: seq<int>): (n: nat)
    ensures n <= Size(lots)
  {
    SizeAppend(lots[..Min(|lots|, CONN_WRITE_CNTMAX)], lots[Min(|lots|, CONN_WRITE_CNTMAX)..]);
    assert lots == lots[..Min(|lots|, CONN_WRITE_CNTMAX)] + lots[Min(|lots|, CONN_WRITE_CNTMAX)..];
    if ssl then SslTaken(answers, 0, Size(lots))
    else if taken.Accepted? then Min(taken.n, Size(lots[..Min(|lots|, CONN_WRITE_CNTMAX)]))
    else 0
  }

  /** One event. */
  function After(v: Flow, event: Event, ssl: bool): (w: Flow)
    requires v.Valid()
    ensures w.Valid()
  {
    match event
    case Read(sys, found) =>
      var got := Stored(sys, FreeIn(v, ssl), found);
      SizeAppend(v.read, [Lot(0, |got|)]);
      v.(received := v.received + got, read := Added(v.read, |got|))
    case Splice =>
      SizeAppend(v.write, v.read);
      v.(read := [], write := v.write + v.read)
    case Write(taken, answers) =>
      var n := TakenOf(v.write, ssl, taken, answers);
      DroppedSize(v.write, n);
      v.(sent := v.received[..|v.sent| + n], write := Dropped(v.write, n))
  }

  /** Some events, one after the other. */
  function Flowed(v: Flow, events: seq<Event>, ssl: bool): (w: Flow)
    requires v.Valid()
    ensures w.Valid()
  {
    if events == [] then v
    else After(Flowed(v, events[..|events| - 1], ssl), events[|events| - 1], ssl)
  }

  /** Some events from the start on. */
  function Carried(events: seq<Event>, ssl: bool): Flow {
    StartValid();
    Flowed(START, events, ssl)
  }

  /** Whatever the events, what was received only grows, and so does what was sent. */
  lemma {:induction false} FlowGrows(v: Flow, events: seq<Event>, ssl: bool)
    requires v.Valid()
    ensures v.received <= Flowed(v, events, ssl).received && v.sent <= Flowed(v, events, ssl).sent
    decreases |events|
  {
    if events != [] {
      var most := events[..|events| - 1];
      FlowGrows(v, most, ssl);
      var u := Flowed(v, most, ssl);
      var w := After(u, events[|events| - 1], ssl);
      assert u.received <= w.received && u.sent <= w.sent;
    }
  }

  /** A backend and its client; `ssl` says that the client's bytes go through chunk_ssl_write. */
  class Relay {
    const backend: Connection
    const client: Connection
    const ssl: bool
    ghost var received: seq<byte>
    ghost var sent: seq<byte>

    ghost function Buffers(): seq<Buffer>
      reads client.writebuf, backend.readbuf
    {
      client.writebuf.queue + backend.readbuf.queue
    }

    /** Nothing is lost, duplicated or reordered: what was read is what was sent, then what the client
        waits for, then what was not spliced yet. Neither accounting ever drifts, and the two chunks
        together stay within two limits and one rounding of buffer_new. */
    ghost predicate Valid()
      reads this, backend, client, backend.readbuf, client.writebuf
      reads client.writebuf.queue, backend.readbuf.queue, Arrays(Buffers())
    {
      var from, to := backend.readbuf, client.writebuf;
      && backend != client && from != to && from.limit == to.limit == CHUNKSIZE_LIMIT
      && Wf(Buffers()) && Clean(from)
      && Accounted(to, ssl)
      && received == sent + Flat(Buffers())
      && backend.upsize == Wrapped(|received|) && client.downsize == Wrapped(|sent|)
      && from.used_size + to.used_size <= 2 * CHUNKSIZE_LIMIT + 63
    }

    constructor (ssl: bool)
      ensures Valid() && this.ssl == ssl && received == sent == []
      ensures fresh(backend) && fresh(client) && fresh(backend.readbuf) && fresh(client.writebuf) && Buffers() == []
    {
      backend := new Connection();
      client := new Connection();
      this.ssl := ssl;
      received, sent := [], [];
    }

    /** backend_handle_read after the peer checks: the whole read chunk moves to the end of the write chunk. */
    method SpliceAll()
      requires Valid()
      modifies backend.readbuf, client.writebuf
      ensures Valid() && Buffers() == old(Buffers())
      ensures backend.readbuf.queue == [] && client.writebuf.queue == old(Buffers())
      ensures Lots(client.writebuf.queue) == old(Lots(client.writebuf.queue) + Lots(backend.readbuf.queue))
    {
      hide Flat, Wf, StoredSize, LiveSize, TotalSize, Lots;
      LotsAppend(client.writebuf.queue, backend.readbuf.queue);
      var from, to := backend.readbuf, client.writebuf;
      SizesEmpty();
      if from.queue == [] {
        assert Buffers() == to.queue;
        return;
      }
      SizesAppend(to.queue, from.queue);
      ghost var q := Buffers();
      assert to as object !in Arrays(q) && from as object !in Arrays(q);
      to.queue := to.queue + from.queue;
      from.queue := [];
      to.num := to.num + from.num;
      to.total_size := to.total_size + from.total_size;
      to.used_size := to.used_size + from.used_size;
      from.num := 0;
      from.total_size := 0;
      from.used_size := 0;
      assert Buffers() == old(Buffers());
    }

    /** chunk_io_read on the backend. */
    method ReadBackend(sys: int, found: ReadOutcome) returns (ret: IoResult)
      requires Valid()
      modifies this`received, backend`upsize, backend.readbuf
      ensures Valid() && sent == old(sent) && client.writebuf.queue == old(client.writebuf.queue)
      ensures received == old(received) + Stored(sys, old(Free()), found)
      ensures old(Free()) <= 0 < sys ==> ret == IOERR_FULL
      ensures Lots(backend.readbuf.queue) == Added(old(Lots(backend.readbuf.queue)), |received| - |old(received)|)
      ensures Lots(client.writebuf.queue) == old(Lots(client.writebuf.queue))
      ensures forall b <- backend.readbuf.queue :: b in old(backend.readbuf.queue) || (fresh(b) && fresh(b.buf))
    {
      hide Flat, Wf, StoredSize, LiveSize, TotalSize, Clean, Counted, Accounted, Lots, Wrapped, Stored;
      var from, to := backend.readbuf, client.writebuf;
      ghost var bytes;
      var n;
      ret, n, bytes := ReadInto(from, to, sys, found);
      ghost var all := Buffers();
      assert backend as object !in Arrays(all) && this as object !in Arrays(all);
      WrappedSum(|received|, n);
      received := received + bytes;
      backend.upsize := Wrapped(backend.upsize + n);
    }

    /** How many bytes one write to the client takes. */
    ghost function Offered(taken: WriteOutcome, answers: seq<int>): nat
      reads client.writebuf, client.writebuf.queue
    {
      if ssl then SslTaken(answers, 0, LiveSize(client.writebuf.queue)) else Taken(client.writebuf, taken)
    }

    /** The room that flow control leaves for the next read. */
    ghost function Free(): int
      reads backend.readbuf, client.writebuf
    {
      Room(backend.readbuf) + Room(client.writebuf)
    }

    /** conn_handle_out on the client, through chunk_io_write or chunk_ssl_write. */
    method WriteClient(taken: WriteOutcome, answers: seq<int>) returns (ret: IoResult)
      requires Valid()
      modifies this`sent, client`downsize, client.writebuf, client.writebuf.queue, Arrays(client.writebuf.queue)
      ensures Valid() && received == old(received) && backend.readbuf.queue == old(backend.readbuf.queue)
      ensures |sent| >= |old(sent)| && sent[..|old(sent)|] == old(sent)
      ensures |sent| - |old(sent)| == old(Offered(taken, answers))
      ensures ret == IOOK ==> client.writebuf.queue == []
      ensures Lots(backend.readbuf.queue) == old(Lots(backend.readbuf.queue))
      ensures var n := old(Offered(taken, answers));
        if ssl then LiveSize(client.writebuf.queue) == old(LiveSize(client.writebuf.queue)) - n
        else Lots(client.writebuf.queue) == Dropped(old(Lots(client.writebuf.queue)), n)
      ensures forall b <- Buffers() :: b in old(Buffers()) && (b.buf == old(b.buf) || fresh(b.buf))
    {
      hide Flat, Wf, StoredSize, LiveSize, TotalSize, Clean, Counted, Accounted, Lots, Wrapped, Taken, SslTaken;
      var n: nat;
      ghost var bytes;
      ret, n, bytes := SendOut(client.writebuf, backend.readbuf, ssl, taken, answers);
      ghost var all := Buffers();
      assert client as object !in Arrays(all) && this as object !in Arrays(all);
      Regroup3(sent, bytes, Flat(all));
      WrappedSum(|sent|, n);
      sent := sent + bytes;
      client.downsize := Wrapped(client.downsize + n);
    }

    ghost function Repr(): set<object>
      reads client.writebuf, backend.readbuf, Buffers()
    {
      {this as object, backend, client, backend.readbuf, client.writebuf}
        + (set b: Buffer | b in Buffers() :: b as object) + Arrays(Buffers())
    }

    lemma SentFirst()
      requires Valid()
      ensures sent <= received
      ensures Flat(Buffers()) == [] ==> sent == received
    {}

    /** The relay on plain values. */
    ghost function View(): Flow
      reads this, client.writebuf, backend.readbuf, client.writebuf.queue, backend.readbuf.queue
    {
      Flow(received, sent, Lots(backend.readbuf.queue), Lots(client.writebuf.queue))
    }

    /** The relay is as the reference says; through SSL the buffers of the write chunk are merged, and only the
        number of bytes in them counts. */
    ghost predicate Shows(v: Flow)
      reads this, client.writebuf, backend.readbuf, client.writebuf.queue, backend.readbuf.queue
    {
      && received == v.received && sent == v.sent && Lots(backend.readbuf.queue) == v.read
      && (if ssl then LiveSize(client.writebuf.queue) == Size(v.write) else Lots(client.writebuf.queue) == v.write)
    }

    lemma ViewShows()
      requires Valid()
      ensures View().Valid() && Shows(View())
    {
      var q, p := client.writebuf.queue, backend.readbuf.queue;
      LotsSizes(q);
      LotsSizes(p);
      SizesAppend(q, p);
      LiveIsFlat(q + p);
    }

    lemma FreeShown(v: Flow)
      requires Valid() && Shows(v)
      ensures Free() == FreeIn(v, ssl)
    {
      LotsSizes(client.writebuf.queue);
      LotsSizes(backend.readbuf.queue);
    }

    lemma OfferShown(v: Flow, taken: WriteOutcome, answers: seq<int>)
      requires Valid() && Shows(v)
      ensures Offered(taken, answers) == TakenOf(v.write, ssl, taken, answers)
    {
      var q := client.writebuf.queue;
      var k := Min(|q|, CONN_WRITE_CNTMAX);
      LotsSizes(q[..k]);
      LotsPrefix(q, k);
    }

    method StepRead(sys: int, found: ReadOutcome, ghost v: Flow)
      requires Valid() && v.Valid() && Shows(v)
      modifies this`received, backend`upsize, backend.readbuf
      ensures Valid() && Shows(After(v, Read(sys, found), ssl)) && fresh(Repr() - old(Repr()))
    {
      hide Valid, Lots, LiveSize, Flat, Wf, Stored, Room;
      FreeShown(v);
      ghost var q, all := client.writebuf.queue, Buffers();
      assert allocated(q);
      assert forall i :: 0 <= i < |q| ==> all[i] == q[i];
      var _ := ReadBackend(sys, found);
      assert forall b <- Buffers() :: b in all || (fresh(b) && fresh(b.buf));
    }

    method StepSplice(ghost v: Flow)
      requires Valid() && v.Valid() && Shows(v)
      modifies backend.readbuf, client.writebuf
      ensures Valid() && Shows(After(v, Splice, ssl)) && Repr() == old(Repr())
    {
      hide Valid, Lots, LiveSize, Flat, Wf;
      ghost var q, p := client.writebuf.queue, backend.readbuf.queue;
      hide Size, Weight, Shows;
      SpliceAll();
      Spliced(v, q, p);
    }

    lemma Spliced(v: Flow, q: seq<Buffer>, p: seq<Buffer>)
      requires v.Valid() && received == v.received && sent == v.sent
      requires backend.readbuf.queue == [] && client.writebuf.queue == q + p
      requires Lots(p) == v.read && (if ssl then LiveSize(q) == Size(v.write) else Lots(q) == v.write)
      ensures Shows(After(v, Splice, ssl))
    {
      hide LiveSize, Size, Weight;
      LotsSizes(p);
      SizesAppend(q, p);
      SizeAppend(v.write, v.read);
      LotsAppend(q, p);
    }

    method StepWrite(taken: WriteOutcome, answers: seq<int>, ghost v: Flow)
      requires Valid() && v.Valid() && Shows(v)
      modifies this`sent, client`downsize, client.writebuf, client.writebuf.queue, Arrays(client.writebuf.queue)
      ensures Valid() && Shows(After(v, Write(taken, answers), ssl)) && fresh(Repr() - old(Repr()))
    {
      hide Valid, Lots, LiveSize, Flat, Wf, Dropped, Taken, SslTaken;
      OfferShown(v, taken, answers);
      DroppedSize(v.write, TakenOf(v.write, ssl, taken, answers));
      hide TakenOf, Offered;
      ghost var all := Buffers();
      var _ := WriteClient(taken, answers);
      SentFirst();
      assert forall b <- Buffers() :: b in all && (b.buf == old(b.buf) || fresh(b.buf));
    }

    /** One event does what the reference says. */
    method Step(event: Event, ghost v: Flow)
      requires Valid() && v.Valid() && Shows(v)
      modifies Repr()
      ensures Valid() && Shows(After(v, event, ssl)) && fresh(Repr() - old(Repr()))
    {
      hide Flat, Wf, StoredSize, LiveSize, TotalSize, Clean, Counted, Stored, Taken, SslTaken, Lots, Valid;
      ghost var q := client.writebuf.queue;
      assert forall i :: 0 <= i < |q| ==> Buffers()[i] == q[i] && q[i] in Buffers();
      match event {
        case Read(sys, found) => StepRead(sys, found, v);
        case Splice => StepSplice(v);
        case Write(taken, answers) => StepWrite(taken, answers, v);
      }
    }

    /** Every run does what the reference says, and so what was sent is always a prefix of what was read. */
    method Run(events: seq<Event>)
      requires Valid()
      modifies Repr()
      ensures Valid() && fresh(Repr() - old(Repr())) && sent <= received
      ensures old(View()).Valid() && Shows(Flowed(old(View()), events, ssl))
    {
      hide Relay.Valid, Relay.Buffers, Relay.Shows, After;
      ghost var v := View();
      ViewShows();
      for i := 0 to |events|
        invariant Valid() && fresh(Repr() - old(Repr()))
        invariant Shows(Flowed(v, events[..i], ssl))
      {
        assert events[..i + 1][..i] == events[..i];
        Step(events[i], Flowed(v, events[..i], ssl));
      }
      assert events[..|events|] == events;
      SentFirst();
    }
  }

  /** From two new connections on, what is received and sent is what the reference says. */
  method Carry(ssl: bool, events: seq<Event>) returns (r: Relay)
    ensures r.Valid() && r.ssl == ssl
    ensures r.received == Carried(events, ssl).received && r.sent == Carried(events, ssl).sent
  {
    hide Relay.Valid, Flowed;
    r := new Relay(ssl);
    assert r.View() == START by { Nothing(r); }
    r.Run(events);
  }

  lemma Nothing(r: Relay)
    requires r.received == r.sent == [] && r.Buffers() == []
    ensures r.View() == START
  {
    assert r.client.writebuf.queue == [] && r.backend.readbuf.queue == [];
  }

  /** A buffer with a new array behind the buffers of both chunks. */
  lemma AddLast(q: seq<Buffer>, p: seq<Buffer>, buf: Buffer)
    requires Wf(q + p) && buf.Valid() && Apart(buf, q + p)
    ensures Wf(q + (p + [buf])) && Flat(q + (p + [buf])) == Flat(q + p) + buf.Content() && |buf.Content()| == buf.used
    ensures StoredSize(p + [buf]) == StoredSize(p) + buf.Mused() && LiveSize(p + [buf]) == LiveSize(p) + buf.used
    ensures TotalSize(p + [buf]) == TotalSize(p) + buf.buf.Length
    ensures Lots(p + [buf]) == Lots(p) + [Lot(buf.data, buf.used)]
    ensures Unconsumed(p) && buf.data == 0 ==> Unconsumed(p + [buf])
  {
    assert q + (p + [buf]) == (q + p) + [buf];
    PutFlat(q + p, buf);
    hide Flat, Wf, Lots;
    SizesAppend(p, [buf]);
    SizesOne(buf);
    LotsAppend(p, [buf]);
    LotsOne(buf);
  }
}
