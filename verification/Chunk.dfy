/**
 buffer.c and chunk.c: byte buffers over fixed arrays, and the chunk, a queue of buffers.
 The queue links of the buffers are the `queue` field; queue.h itself is in Ring.dfy.
 */
module Bytes {
  type byte = x: int | 0 <= x < 0x100

  function Min(a: nat, b: nat): (m: nat)
    ensures m <= a && m <= b && (m == a || m == b)
  {
    if a < b then a else b
  }

  /** The bytes of a list of buffers. */
  function Concat(segments: seq<seq<byte>>): seq<byte> {
    if segments == [] then [] else segments[0] + Concat(segments[1..])
  }

  /** The buffer that holds `s`, when there is anything to hold. */
  function Holding(s: seq<byte>): seq<seq<byte>> {
    if s == [] then [] else [s]
  }

  lemma {:induction false} ConcatAppend(a: seq<seq<byte>>, b: seq<seq<byte>>)
    ensures Concat(a + b) == Concat(a) + Concat(b)
  {
    if a == [] {
      assert a + b == b;
    } else {
      assert (a + b)[1..] == a[1..] + b;
      ConcatAppend(a[1..], b);
    }
  }

  lemma ConcatStep(segments: seq<seq<byte>>, i: nat)
    requires i < |segments|
    ensures Concat(segments[..i + 1]) == Concat(segments[..i]) + segments[i]
  {
    ConcatAppend(segments[..i], [segments[i]]);
    assert segments[..i + 1] == segments[..i] + [segments[i]];
    assert Concat([segments[i]]) == segments[i] + [];
  }
}

module Chunks {
  import opened Bytes

  const BUFFER_SIZE_MIN: nat := 64

  /** buffer_t: the live bytes are `buf[data..data + used]`. */
  class Buffer {
    var buf: array<byte>
    var data: nat
    var used: nat

    ghost predicate Valid()
      reads this
    {
      data + used <= buf.Length
    }

    ghost function Content(): seq<byte>
      reads this, buf
      requires Valid()
    {
      buf[data..data + used]
    }

    /** buffer_new: the capacity is rounded up to a multiple of 64. */
    constructor (size: nat)
      ensures Valid() && used == 0 && data == 0 && fresh(buf)
      ensures buf.Length % BUFFER_SIZE_MIN == 0 && size <= buf.Length < size + BUFFER_SIZE_MIN
    {
      var l := size % BUFFER_SIZE_MIN;
      var rounded := if l == 0 then size else size - l + BUFFER_SIZE_MIN;
      buf := new byte[rounded];
      data, used := 0, 0;
    }

    /** buffer_mused */
    function Mused(): nat
      reads this
    {
      data + used
    }

    /** buffer_spare */
    function Spare(): int
      reads this
    {
      buf.Length - Mused()
    }

    /** buffer_resize: with enough room the live bytes move to the front, otherwise to a new array. */
    method Resize(newsize: nat)
      requires Valid()
      modifies this, buf
      ensures Valid() && Content() == old(Content()) && used == old(used)
      ensures data == 0 && newsize <= buf.Length
      ensures if old(buf.Length) >= newsize then buf == old(buf) else fresh(buf) && buf.Length == newsize
    {
      if buf.Length >= newsize {
        if data > 0 {
          ShiftToFront(buf, data, used);
          data := 0;
        }
        return;
      }
      var b := new byte[newsize];
      Memcpy(b, 0, buf, data, used);
      data := 0;
      buf := b;
    }

    /** `memcpy(buf->data + buf->used, src->data, len); buf->used += len` */
    method Append(src: Buffer, len: nat)
      requires Valid() && src.Valid() && src != this && src.buf != buf
      requires len <= src.used && data + used + len <= buf.Length
      modifies `used, buf
      ensures Valid() && used == old(used) + len
      ensures Content() == old(Content()) + src.Content()[..len]
    {
      ghost var live, more := Content(), src.Content();
      assert more[..len] == src.buf[src.data..src.data + len];
      Memcpy(buf, data + used, src.buf, src.data, len);
      assert buf[data..data + used] == buf[..data + used][data..] == live;
      used := used + len;
    }

    /** `memcpy(new->data, src->data + from, len); new->used = len` on an empty buffer. */
    method Fill(src: Buffer, from: nat, len: nat)
      requires Valid() && src.Valid() && src != this && src.buf != buf
      requires data == 0 && from + len <= src.used && len <= buf.Length
      modifies `used, buf
      ensures Valid() && used == len && Content() == src.Content()[from..from + len]
    {
      ghost var piece := src.Content()[from..from + len];
      SubSlice(src.buf, src.data, src.data + src.used, from, len);
      Memcpy(buf, 0, src.buf, src.data + from, len);
      used := len;
      assert buf[0..0 + len] == piece;
    }

    /** `buf->data += n; buf->used -= n` */
    method DropFront(n: nat)
      requires Valid() && n <= used
      modifies `data, `used
      ensures Valid() && data == old(data) + n && used == old(used) - n
      ensures Content() == old(Content())[n..]
    {
      data := data + n;
      used := used - n;
    }
  }

  /** `for (i = 0; i < used; i++) buf[i] = data[i]` */
  method ShiftToFront(a: array<byte>, from: nat, len: nat)
    requires from + len <= a.Length
    modifies a
    ensures a[..len] == old(a[from..from + len])
  {
    ghost var live := a[from..from + len];
    var i := 0;
    while i < len
      invariant 0 <= i <= len
      invariant a[..i] == live[..i] && a[from + i..from + len] == live[i..]
    {
      assert a[from + i] == a[from + i..from + len][0];
      assert a[from + i + 1..from + len] == a[from + i..from + len][1..];
      a[i] := a[from + i];
      i := i + 1;
    }
  }

  /** memcpy between different arrays. */
  method Memcpy(dst: array<byte>, to: nat, src: array<byte>, from: nat, len: nat)
    requires dst != src && to + len <= dst.Length && from + len <= src.Length
    modifies dst
    ensures dst[..to] == old(dst[..to]) && dst[to..to + len] == src[from..from + len]
    ensures dst[to + len..] == old(dst[to + len..])
  {
    forall k | 0 <= k < len {
      dst[to + k] := src[from + k];
    }
  }

  lemma SubSlice(a: array<byte>, lo: nat, hi: nat, from: nat, len: nat)
    requires lo <= hi <= a.Length && from + len <= hi - lo
    ensures a[lo..hi][from..from + len] == a[lo + from..lo + from + len]
  {
    var s, t := a[lo..hi][from..from + len], a[lo + from..lo + from + len];
    assert |s| == |t| && forall k :: 0 <= k < len ==> s[k] == a[lo + from + k] && t[k] == a[lo + from + k];
  }

  // ---- queues of buffers ----

  ghost function Arrays(q: seq<Buffer>): set<object>
    reads q
  {
    set b | b in q :: b.buf
  }

  ghost predicate Wf(q: seq<Buffer>)
    reads q
  {
    && (forall i :: 0 <= i < |q| ==> q[i].Valid())
    && (forall i, j :: 0 <= i < j < |q| ==> q[i] != q[j] && q[i].buf != q[j].buf)
  }

  /** The bytes of all buffers, in order. */
  ghost function Flat(q: seq<Buffer>): seq<byte>
    requires Wf(q)
    reads q, Arrays(q)
  {
    if q == [] then [] else q[0].Content() + Flat(q[1..])
  }

  lemma {:induction false} FlatAppend(a: seq<Buffer>, b: seq<Buffer>)
    requires Wf(a + b)
    ensures Wf(a) && Wf(b) && Flat(a + b) == Flat(a) + Flat(b)
  {
    WfParts(a, b);
    if a == [] {
      assert a + b == b;
    } else {
      assert (a + b)[1..] == a[1..] + b;
      FlatAppend(a[1..], b);
    }
  }

  lemma WfParts(a: seq<Buffer>, b: seq<Buffer>)
    requires Wf(a + b)
    ensures Wf(a) && Wf(b)
  {
    assert forall i :: 0 <= i < |a| ==> a[i] == (a + b)[i];
    assert forall i :: 0 <= i < |b| ==> b[i] == (a + b)[|a| + i];
  }

  lemma FlatOne(b: Buffer)
    requires b.Valid()
    ensures Wf([b]) && Flat([b]) == b.Content()
  {}

  /** One round of chunk_merge_buffer: `buf` grows to `size` bytes of room and takes bytes of `next`. */
  method Pour(buf: Buffer, next: Buffer, size: nat, need: nat) returns (len: nat)
    requires buf.Valid() && next.Valid() && buf != next && buf.buf != next.buf && buf.used + need == size
    modifies buf, buf.buf, next`data, next`used
    ensures buf.Valid() && next.Valid() && next.buf == old(next.buf)
    ensures buf.buf == old(buf.buf) || fresh(buf.buf)
    ensures len == Min(old(next.used), need) && next.used == old(next.used) - len && buf.used == old(buf.used) + len
    ensures buf.Content() == old(buf.Content()) + old(next.Content())[..len]
    ensures next.Content() == old(next.Content())[len..]
    ensures next.data == old(next.data) + len
  {
    buf.Resize(size);
    len := if next.used < need then next.used else need;
    buf.Append(next, len);
    next.DropFront(len);
  }

  // ---- the accounting of chunk.c ----

  /** The sum of `used`, as kept by chunk_erase, chunk_delbuffer and chunk_merge_buffer. */
  ghost function LiveSize(q: seq<Buffer>): nat
    reads q
  {
    if q == [] then 0 else q[0].used + LiveSize(q[1..])
  }

  /** The sum of buffer_mused, as kept by buffer_put and buffer_get. */
  ghost function StoredSize(q: seq<Buffer>): nat
    reads q
  {
    if q == [] then 0 else q[0].Mused() + StoredSize(q[1..])
  }

  ghost function TotalSize(q: seq<Buffer>): nat
    reads q
  {
    if q == [] then 0 else q[0].buf.Length + TotalSize(q[1..])
  }

  lemma {:induction false} LiveIsFlat(q: seq<Buffer>)
    requires Wf(q)
    ensures LiveSize(q) == |Flat(q)|
  {
    if q != [] {
      WfParts([q[0]], q[1..]);
      LiveIsFlat(q[1..]);
    }
  }

  class Chunk {
    var total_size: int
    var used_size: int
    var limit: nat
    var num: int
    var queue: seq<Buffer>

    ghost predicate Valid()
      reads this, queue
    {
      Wf(queue)
    }

    ghost function Bytes(): seq<byte>
      requires Valid()
      reads this, queue, Arrays(queue)
    {
      Flat(queue)
    }

    ghost function Repr(): set<object>
      reads this, queue
    {
      {this as object} + (set b: Buffer | b in queue :: b as object) + Arrays(queue)
    }

    /** chunk_create */
    constructor (limit: nat)
      ensures Valid() && queue == [] && total_size == 0 && used_size == 0 && num == 0 && this.limit == limit
    {
      total_size, used_size, num, queue := 0, 0, 0, [];
      this.limit := limit;
    }

    /** buffer_put */
    method Put(buf: Buffer)
      requires Valid() && buf.Valid() && buf !in queue && buf.buf !in Arrays(queue)
      modifies this
      ensures Valid() && queue == old(queue) + [buf] && limit == old(limit)
      ensures Bytes() == old(Bytes()) + buf.Content()
      ensures total_size == old(total_size) + buf.buf.Length
      ensures used_size == old(used_size) + buf.Mused() && num == old(num) + 1
    {
      queue := queue + [buf];
      total_size := total_size + buf.buf.Length;
      used_size := used_size + buf.Mused();
      num := num + 1;
      PutFlat(old(queue), buf);
    }

    /** buffer_put_head */
    method PutHead(buf: Buffer)
      requires Valid() && buf.Valid() && buf !in queue && buf.buf !in Arrays(queue)
      modifies this
      ensures Valid() && queue == [buf] + old(queue) && limit == old(limit)
      ensures Bytes() == buf.Content() + old(Bytes())
      ensures total_size == old(total_size) + buf.buf.Length
      ensures used_size == old(used_size) + buf.Mused() && num == old(num) + 1
    {
      queue := [buf] + queue;
      total_size := total_size + buf.buf.Length;
      used_size := used_size + buf.Mused();
      num := num + 1;
      assert queue[1..] == old(queue);
    }

    /** buffer_get */
    method Get() returns (buf: Buffer?)
      requires Valid()
      modifies this
      ensures Valid() && limit == old(limit)
      ensures buf == null <==> old(queue) == []
      ensures buf == null ==> unchanged(this)
      ensures buf != null ==>
        && buf == old(queue)[0] && queue == old(queue)[1..] && buf.Valid()
        && buf !in queue && buf.buf !in Arrays(queue)
        && old(Bytes()) == buf.Content() + Bytes()
        && total_size == old(total_size) - buf.buf.Length
        && used_size == old(used_size) - buf.Mused() && num == old(num) - 1
    {
      if queue == [] {
        return null;
      }
      buf := queue[0];
      WfParts([queue[0]], queue[1..]);
      queue := queue[1..];
      num := num - 1;
      total_size := total_size - buf.buf.Length;
      used_size := used_size - buf.Mused();
    }

    /** buffer_getfirst */
    function GetFirst(): (buf: Buffer?)
      reads this
      ensures buf == if queue == [] then null else queue[0]
    {
      if queue == [] then null else queue[0]
    }

    /** chunk_delbuffer */
    method DelBuffer(buf: Buffer)
      requires Valid() && buf in queue
      modifies this
      ensures Valid() && limit == old(limit)
      ensures var i := IndexOf(old(queue), buf); queue == old(queue)[..i] + old(queue)[i + 1..]
      ensures num == old(num) - 1 && total_size == old(total_size) - buf.buf.Length
      ensures used_size == old(used_size) - buf.used
    {
      var i := IndexOf(queue, buf);
      RemoveWf(queue, i);
      queue := queue[..i] + queue[i + 1..];
      num := num - 1;
      total_size := total_size - buf.buf.Length;
      used_size := used_size - buf.used;
    }

    /** chunk_delbuffer of the first buffer. */
    method DelFirst()
      requires Valid() && queue != []
      modifies this
      ensures Valid() && limit == old(limit) && queue == old(queue)[1..]
      ensures old(queue)[0].Valid() && old(Bytes()) == old(queue)[0].Content() + Bytes()
      ensures used_size == old(used_size) - old(queue)[0].used
    {
      FirstRest(queue);
      DelBuffer(queue[0]);
      assert queue == old(queue)[1..];
    }

    /** `buf->data += size; buf->used -= size; ck->used_size -= size` on the first buffer. */
    method TrimFirst(first: Buffer, n: nat)
      requires Valid() && queue != [] && first == queue[0] && n <= first.used
      modifies `used_size, first`data, first`used
      ensures Valid() && Bytes() == old(Bytes())[n..] && used_size == old(used_size) - n
    {
      hide Flat, Wf;
      FirstRest(queue);
      ghost var rest := queue[1..];
      assert queue == [first] + rest;
      first.DropFront(n);
      used_size := used_size - n;
      assert this as object !in Arrays(rest);
      ConsFlat(first, rest);
    }

    /** chunk_erase: drops the first `size` bytes; 1 means that bytes are left. */
    method Erase(size: nat) returns (ret: int)
      requires Valid()
      modifies this, queue`data, queue`used
      ensures Valid() && limit == old(limit)
      ensures Bytes() == old(Bytes())[Min(size, |old(Bytes())|)..]
      ensures used_size == old(used_size) - Min(size, |old(Bytes())|)
      ensures ret == if size < |old(Bytes())| then 1 else 0
      ensures ret == 0 ==> queue == []
      ensures exists k :: 0 <= k <= |old(queue)| && queue == old(queue)[k..]
    {
      hide Flat, Wf, Buffer.Content;
      ghost var k, all := 0, Bytes();
      var left: nat := size;
      var buf := GetFirst();
      while buf != null
        invariant Valid() && limit == old(limit) && buf == GetFirst() && left <= size
        invariant 0 <= k <= |old(queue)| && queue == old(queue)[k..]
        invariant size - left <= |all| && Bytes() == all[size - left..]
        invariant used_size == old(used_size) - (size - left)
        decreases |queue|
      {
        FirstRest(queue);
        if buf.used <= left {
          AfterFirst(all, size - left, buf.Content(), Flat(queue[1..]), buf.used);
          DelFirst();
          left := left - buf.used;
          k := k + 1;
          buf := GetFirst();
        } else {
          DropDrop(all, size - left, left);
          TrimFirst(buf, left);
          return 1;
        }
      }
      EmptyFlat(queue);
      return 0;
    }

    /** chunk_split_buffer: afterwards `part` holds exactly the first `offset` bytes of `buf` and
        `rest` the others; at most half of the bytes are copied to a new buffer. */
    method Split(buf: Buffer, offset: nat, ghost pre: seq<Buffer>, ghost post: seq<Buffer>)
      returns (part: Buffer?, ghost rest: Buffer?)
      requires Valid() && queue == pre + [buf] + post && buf.Valid()
      modifies `queue, buf`data, buf`used
      ensures Valid() && Bytes() == old(Bytes())
      ensures offset == 0 ==> part == null && rest == null && unchanged(this) && unchanged(buf)
      ensures 0 < offset && old(buf.used) <= offset ==> part == buf && rest == null && unchanged(this) && unchanged(buf)
      ensures 0 < offset < old(buf.used) ==>
        && part != null && rest != null && part.Valid() && rest.Valid()
        && queue == pre + [part, rest] + post
        && part.Content() == old(buf.Content())[..offset] && rest.Content() == old(buf.Content())[offset..]
        && Moved(old(buf.used), offset, part, rest, buf)
        && (part == buf || (fresh(part) && fresh(part.buf))) && (rest == buf || (fresh(rest) && fresh(rest.buf)))
      ensures buf.buf == old(buf.buf)
    {
      hide Flat, Wf, IndexOf;
      part, rest := null, null;
      if offset == 0 {
        return;
      }
      if offset >= buf.used {
        part := buf;
        return;
      }
      var first, second := SplitInside(buf, offset, pre, post);
      part, rest := first, second;
    }

    method SplitInside(buf: Buffer, offset: nat, ghost pre: seq<Buffer>, ghost post: seq<Buffer>)
      returns (part: Buffer, rest: Buffer)
      requires Valid() && queue == pre + [buf] + post && buf.Valid() && 0 < offset < buf.used
      modifies `queue, buf`data, buf`used
      ensures Valid() && Bytes() == old(Bytes())
      ensures part.Valid() && rest.Valid() && queue == pre + [part, rest] + post
      ensures part.Content() == old(buf.Content())[..offset] && rest.Content() == old(buf.Content())[offset..]
      ensures Moved(old(buf.used), offset, part, rest, buf) && (part == buf || fresh(part))
      ensures (rest == buf || fresh(rest))
      ensures (part == buf || fresh(part.buf)) && (rest == buf || fresh(rest.buf))
      ensures buf.buf == old(buf.buf)
    {
      hide Flat, Wf, IndexOf, Apart, Moved, Buffer.Content;
      MiddlePlace(pre, buf, post);
      MiddleOne(pre, buf, post);
      var i := IndexOf(queue, buf);
      TakeParts(queue, pre, buf, post);
      part, rest := SplitBuffer(buf, offset, pre, post);
      ghost var all := pre + [part, rest] + post;
      assert this as object !in Arrays(all);
      queue := queue[..i] + [part, rest] + queue[i + 1..];
      assert queue == all;
    }

    /** buffer_getnext */
    function GetNext(buf: Buffer): (next: Buffer?)
      requires buf in queue
      reads this
      ensures var i := IndexOf(queue, buf); next == if i + 1 == |queue| then null else queue[i + 1]
    {
      var i := IndexOf(queue, buf);
      if i + 1 == |queue| then null else queue[i + 1]
    }

    /** One round of chunk_merge_buffer. */
    method MergeRound(buf: Buffer, next: Buffer, size: nat, need: nat, ghost pre: seq<Buffer>, ghost post: seq<Buffer>)
      returns (len: nat)
      requires Valid() && queue == pre + [buf] + ([next] + post) && 0 < need && buf.used + need == size && Wf(pre)
      modifies `queue, `num, buf, buf.buf, next`data, next`used
      ensures Valid() && Bytes() == old(Bytes()) && (buf.buf == old(buf.buf) || fresh(buf.buf))
      ensures len == Min(old(next.used), need) && buf.used == old(buf.used) + len
      ensures buf.Valid() && next.Valid() && next.used == old(next.used) - len
      ensures Wf(pre) && Flat(pre) == old(Flat(pre))
      ensures queue == pre + [buf] + (if next.used == 0 then post else [next] + post)
      ensures num == old(num) - (if next.used == 0 then 1 else 0)
    {
      hide Flat, Wf, IndexOf, Buffer.Content;
      TwoApart(pre, buf, next, post);
      ghost var live, more := buf.Content(), next.Content();
      assert allocated(Arrays(pre)) && allocated(Arrays(post)) && allocated(Arrays(pre + post)) && allocated(pre);
      assert allocated(post);
      len := Pour(buf, next, size, need);
      PouredOver(live, more, len);
      JoinBoth(pre, buf, next, post);
      if next.used <= 0 {
        EmptyNeighbour(pre, buf, next, post);
        SecondPlace(pre, buf, next, post);
        assert this as object !in Arrays(pre + [buf] + post);
        RemoveAt(next, |pre| + 1);
      }
    }

    /** chunk_removebuffer of the buffer at a known place. */
    method RemoveAt(next: Buffer, ghost i: nat)
      requires i < |queue| && queue[i] == next && next !in queue[..i]
      modifies `queue, `num
      ensures queue == old(queue)[..i] + old(queue)[i + 1..] && num == old(num) - 1
    {
      IndexUnique(queue, next, i);
      var k := IndexOf(queue, next);
      queue := queue[..k] + queue[k + 1..];
      num := num - 1;
    }

    /** chunk_merge_buffer: bytes of the buffers after `buf` move into it until it holds `size`.
        It succeeds exactly when enough bytes follow; otherwise everything that follows is merged. */
    method Merge(buf: Buffer, size: nat, ghost pre: seq<Buffer>, ghost post: seq<Buffer>)
      returns (ret: int, ghost rest: seq<Buffer>)
      requires Valid() && queue == pre + [buf] + post && buf.Valid() && Wf(post) && Wf(pre)
      modifies `queue, `num, buf, buf.buf, post`data, post`used
      ensures Valid() && Bytes() == old(Bytes()) && queue == pre + [buf] + rest
      ensures buf.Valid() && Wf(rest) && Tail(buf, rest) == old(Tail(buf, post))
      ensures buf.buf == old(buf.buf) || fresh(buf.buf)
      ensures ret == 0 || ret == -1
      ensures ret == 0 <==> size <= |old(Tail(buf, post))|
      ensures ret == 0 ==> buf.used == if old(buf.used) < size then size else old(buf.used)
      ensures ret == -1 ==> rest == []
      ensures exists k :: 0 <= k <= |post| && rest == post[k..]
      ensures num == old(num) - (|post| - |rest|)
    {
      hide Flat, Wf, IndexOf;
      ghost var front, k := Flat(pre), 0;
      MiddleOne(pre, buf, post);
      rest := post;
      var need := size - buf.used;
      while need > 0
        invariant Valid() && Bytes() == old(Bytes()) && queue == pre + [buf] + rest
        invariant 0 <= k <= |post| && rest == post[k..] && Wf(pre) && Flat(pre) == front && num == old(num) - k
        invariant need == size - buf.used
        invariant (need > 0 || buf.used == if old(buf.used) < size then size else old(buf.used))
        invariant buf.buf == old(buf.buf) || fresh(buf.buf)
        decreases need, |rest|
      {
        MiddlePlace(pre, buf, rest);
        var next := GetNext(buf);
        if next == null {
          break;
        }
        assert rest == [next] + rest[1..];
        var len := MergeRound(buf, next, size, need, pre, rest[1..]);
        need := need - len;
        if next.used == 0 {
          rest, k := rest[1..], k + 1;
        }
      }
      MiddleOne(pre, buf, rest);
      assert Bytes() == front + Tail(buf, rest);
      assert old(Bytes()) == front + old(Tail(buf, post));
      SameTail(front, Tail(buf, rest), old(Tail(buf, post)));
      EmptyFlat(rest);
      return if need > 0 then -1 else 0, rest;
    }
  }

  lemma DropDrop(s: seq<byte>, a: nat, b: nat)
    requires a + b <= |s|
    ensures s[a..][b..] == s[a + b..]
  {}

  lemma AfterFirst(all: seq<byte>, k: nat, first: seq<byte>, rest: seq<byte>, n: nat)
    requires k <= |all| && all[k..] == first + rest && |first| == n
    ensures k + n <= |all| && rest == all[k + n..]
  {}

  /** The bytes that `read` stores at the write position of an empty buffer; `buf->used += readn`. */
  method StoreBytes(b: Buffer, bytes: seq<byte>)
    requires b.Valid() && b.data == 0 && b.used == 0 && |bytes| <= b.buf.Length
    modifies b`used, b.buf
    ensures b.Valid() && b.used == |bytes| && b.Content() == bytes
  {
    forall k | 0 <= k < |bytes| {
      b.buf[k] := bytes[k];
    }
    b.used := |bytes|;
    assert b.buf[0..|bytes|] == bytes;
  }

  lemma PutFlat(q: seq<Buffer>, buf: Buffer)
    requires Wf(q) && buf.Valid() && buf !in q && buf.buf !in Arrays(q)
    ensures Wf(q + [buf]) && Flat(q + [buf]) == Flat(q) + buf.Content()
  {
    assert forall b :: b in q ==> b.buf in Arrays(q);
    FlatAppend(q, [buf]);
    FlatOne(buf);
  }

  function IndexOf(q: seq<Buffer>, b: Buffer): (i: nat)
    requires b in q
    ensures i < |q| && q[i] == b
  {
    if q[0] == b then 0 else 1 + IndexOf(q[1..], b)
  }

  lemma RemoveWf(q: seq<Buffer>, i: nat)
    requires Wf(q) && i < |q|
    ensures Wf(q[..i] + q[i + 1..])
  {}

  lemma FirstRest(q: seq<Buffer>)
    requires Wf(q) && q != []
    ensures q[0].Valid() && Wf(q[1..]) && Flat(q) == q[0].Content() + Flat(q[1..])
    ensures |q[0].Content()| == q[0].used <= |Flat(q)|
    ensures q[0] !in q[1..] && q[0].buf !in Arrays(q[1..]) && IndexOf(q, q[0]) == 0
  {}

  lemma EmptyFlat(q: seq<Buffer>)
    requires Wf(q)
    ensures q == [] ==> Flat(q) == []
  {}

  lemma MiddleParts(pre: seq<Buffer>, mid: seq<Buffer>, post: seq<Buffer>)
    requires Wf(pre + mid + post)
    ensures Wf(pre) && Wf(mid) && Wf(post)
    ensures Flat(pre + mid + post) == Flat(pre) + Flat(mid) + Flat(post)
  {
    FlatAppend(pre + mid, post);
    FlatAppend(pre, mid);
  }

  /** `b` has nothing in common with the buffers of `q`. */
  ghost predicate Apart(b: Buffer, q: seq<Buffer>)
    reads b, q
  {
    b !in q && b.buf !in Arrays(q)
  }

  lemma MiddleOne(pre: seq<Buffer>, b: Buffer, post: seq<Buffer>)
    requires Wf(pre + [b] + post)
    ensures Wf(pre) && Wf(post) && Wf(pre + post) && b.Valid() && Apart(b, pre) && Apart(b, post)
    ensures Flat(pre + [b] + post) == Flat(pre) + b.Content() + Flat(post)
  {
    hide Flat, Wf, Apart, Buffer.Content;
    MiddleApart(pre, b, post);
    MiddleParts(pre, [b], post);
    FlatOne(b);
  }

  lemma MiddleApart(pre: seq<Buffer>, b: Buffer, post: seq<Buffer>)
    requires Wf(pre + [b] + post)
    ensures Wf(pre + post) && b.Valid() && Apart(b, pre) && Apart(b, post)
  {
    var q, r := pre + [b] + post, pre + post;
    assert q[|pre|] == b;
    assert forall j :: 0 <= j < |pre| ==> q[j] == pre[j];
    assert forall j :: 0 <= j < |post| ==> q[|pre| + 1 + j] == post[j];
    assert forall j :: 0 <= j < |r| ==> r[j] == q[if j < |pre| then j else j + 1];
  }

  /** Two buffers between the parts of a queue. */
  lemma JoinParts(pre: seq<Buffer>, a: Buffer, b: Buffer, post: seq<Buffer>)
    requires Wf(pre + post) && a.Valid() && b.Valid() && a != b && a.buf != b.buf
    requires Apart(a, pre) && Apart(a, post) && Apart(b, pre) && Apart(b, post)
    ensures Wf(pre) && Wf(post) && Wf(pre + [a, b] + post)
    ensures Flat(pre + [a, b] + post) == Flat(pre) + (a.Content() + b.Content()) + Flat(post)
  {
    var q, r := pre + [a, b] + post, pre + post;
    assert forall j :: 0 <= j < |pre| ==> q[j] == r[j] && q[j] in pre && q[j].buf in Arrays(pre);
    assert forall j :: |pre| + 2 <= j < |q| ==> q[j] == r[j - 2] && q[j] in post && q[j].buf in Arrays(post);
    assert Wf(q);
    FlatAppend(pre + [a, b], post);
    FlatAppend(pre, [a, b]);
    assert [a, b][1..] == [b];
    FlatOne(b);
  }

  lemma JoinBoth(pre: seq<Buffer>, a: Buffer, b: Buffer, post: seq<Buffer>)
    requires Wf(pre + post) && a.Valid() && b.Valid() && a != b && a.buf != b.buf
    requires Apart(a, pre) && Apart(a, post) && Apart(b, pre) && Apart(b, post)
    ensures Wf(pre) && Wf(post) && Wf(pre + [a] + ([b] + post))
    ensures Flat(pre + [a] + ([b] + post)) == Flat(pre) + (a.Content() + b.Content()) + Flat(post)
  {
    hide Flat, Wf, Buffer.Content, Apart, Arrays;
    assert pre + [a] + ([b] + post) == pre + [a, b] + post;
    JoinParts(pre, a, b, post);
  }

  lemma PouredOver(a: seq<byte>, b: seq<byte>, len: nat)
    requires len <= |b|
    ensures (a + b[..len]) + b[len..] == a + b
  {}

  /** A buffer without live bytes behind `a` can leave the queue. */
  lemma EmptyNeighbour(pre: seq<Buffer>, a: Buffer, b: Buffer, post: seq<Buffer>)
    requires Wf(pre + post) && a.Valid() && b.Valid() && b.used == 0
    requires Apart(a, pre) && Apart(a, post)
    ensures Wf(pre) && Wf(post) && Wf(pre + [a] + post)
    ensures Flat(pre + [a] + post) == Flat(pre) + (a.Content() + b.Content()) + Flat(post)
  {
    hide Flat, Wf, Arrays, Apart;
    JoinOne(pre, a, post);
    assert b.Content() == [] && a.Content() + [] == a.Content();
  }

  lemma SecondPlace(pre: seq<Buffer>, a: Buffer, b: Buffer, post: seq<Buffer>)
    requires b !in pre && a != b
    ensures var q := pre + [a] + ([b] + post);
      q[|pre| + 1] == b && b !in q[..|pre| + 1] && q[..|pre| + 1] + q[|pre| + 2..] == pre + [a] + post
  {
    var q := pre + [a] + ([b] + post);
    assert q[..|pre| + 1] == pre + [a] && q[|pre| + 2..] == post;
  }

  /** The first `size` bytes of `buf` move to a new buffer. */
  method CutFront(buf: Buffer, size: nat) returns (extra: Buffer)
    requires buf.Valid() && size <= buf.used
    modifies buf`data, buf`used
    ensures buf.Valid() && extra.Valid() && fresh(extra) && fresh(extra.buf) && extra.used == size
    ensures |old(buf.Content())| == old(buf.used)
    ensures extra.Content() == old(buf.Content())[..size] && buf.Content() == old(buf.Content())[size..]
  {
    extra := new Buffer(size);
    extra.Fill(buf, 0, size);
    buf.DropFront(size);
  }

  /** The bytes of `buf` from `offset` on move to a new buffer. */
  method CutBack(buf: Buffer, offset: nat) returns (extra: Buffer)
    requires buf.Valid() && offset <= buf.used
    modifies buf`data, buf`used
    ensures buf.Valid() && extra.Valid() && fresh(extra) && fresh(extra.buf) && extra.used == old(buf.used) - offset
    ensures |old(buf.Content())| == old(buf.used)
    ensures buf.Content() == old(buf.Content())[..offset] && extra.Content() == old(buf.Content())[offset..]
  {
    var size := buf.used - offset;
    extra := new Buffer(size);
    extra.Fill(buf, offset, size);
    buf.used := buf.used - size;
  }

  lemma TakeDrop(s: seq<byte>, k: nat)
    requires k <= |s|
    ensures s[..k] + s[k..] == s
  {}

  method SplitFront(buf: Buffer, size: nat, ghost pre: seq<Buffer>, ghost post: seq<Buffer>) returns (extra: Buffer)
    requires buf.Valid() && size <= buf.used && Apart(buf, pre) && Apart(buf, post)
    requires Wf(pre) && Wf(post) && Wf(pre + post)
    modifies buf`data, buf`used
    ensures buf.Valid() && extra.Valid() && fresh(extra) && fresh(extra.buf) && extra.used == size
    ensures |old(buf.Content())| == old(buf.used)
    ensures extra.Content() == old(buf.Content())[..size] && buf.Content() == old(buf.Content())[size..]
    ensures Wf(pre + [extra, buf] + post)
    ensures Flat(pre + [extra, buf] + post) == old(Flat(pre) + buf.Content() + Flat(post))
  {
    hide Flat, Wf, Buffer.Content;
    assert allocated(Arrays(pre)) && allocated(Arrays(post)) && allocated(Arrays(pre + post));
    ghost var content, a, b := buf.Content(), Flat(pre), Flat(post);
    extra := CutFront(buf, size);
    assert Flat(pre) == a && Flat(post) == b && Wf(pre + post) && Apart(extra, pre) && Apart(extra, post);
    JoinParts(pre, extra, buf, post);
    TakeDrop(content, size);
  }

  method SplitBack(buf: Buffer, offset: nat, ghost pre: seq<Buffer>, ghost post: seq<Buffer>) returns (extra: Buffer)
    requires buf.Valid() && offset <= buf.used && Apart(buf, pre) && Apart(buf, post)
    requires Wf(pre) && Wf(post) && Wf(pre + post)
    modifies buf`data, buf`used
    ensures buf.Valid() && extra.Valid() && fresh(extra) && fresh(extra.buf) && extra.used == old(buf.used) - offset
    ensures |old(buf.Content())| == old(buf.used)
    ensures buf.Content() == old(buf.Content())[..offset] && extra.Content() == old(buf.Content())[offset..]
    ensures Wf(pre + [buf, extra] + post)
    ensures Flat(pre + [buf, extra] + post) == old(Flat(pre) + buf.Content() + Flat(post))
  {
    hide Flat, Wf, Buffer.Content;
    assert allocated(Arrays(pre)) && allocated(Arrays(post)) && allocated(Arrays(pre + post));
    ghost var content, a, b := buf.Content(), Flat(pre), Flat(post);
    extra := CutBack(buf, offset);
    assert Flat(pre) == a && Flat(post) == b && Wf(pre + post) && Apart(extra, pre) && Apart(extra, post);
    JoinParts(pre, buf, extra, post);
    TakeDrop(content, offset);
  }

  /** The side of the old buffer with at most half of its `used` bytes was copied, the other stayed. */
  ghost predicate Moved(used: nat, offset: nat, part: Buffer, rest: Buffer, buf: Buffer)
    reads part, rest
  {
    if offset <= used / 2 then rest == buf && part != buf && part.used <= used / 2
    else part == buf && rest != buf && rest.used <= used / 2
  }

  lemma TakeParts(q: seq<Buffer>, pre: seq<Buffer>, b: Buffer, post: seq<Buffer>)
    requires q == pre + [b] + post
    ensures q[..|pre|] == pre && q[|pre| + 1..] == post
  {}

  /** The copying half of chunk_split_buffer: the shorter side moves to a new buffer. */
  method SplitBuffer(buf: Buffer, offset: nat, ghost pre: seq<Buffer>, ghost post: seq<Buffer>)
    returns (part: Buffer, rest: Buffer)
    requires buf.Valid() && 0 < offset < buf.used && Apart(buf, pre) && Apart(buf, post)
    requires Wf(pre) && Wf(post) && Wf(pre + post)
    modifies buf`data, buf`used
    ensures part.Valid() && rest.Valid() && Wf(pre + [part, rest] + post)
    ensures part.Content() == old(buf.Content())[..offset] && rest.Content() == old(buf.Content())[offset..]
    ensures Flat(pre + [part, rest] + post) == old(Flat(pre) + buf.Content() + Flat(post))
    ensures Moved(old(buf.used), offset, part, rest, buf)
    ensures (part == buf || fresh(part)) && (rest == buf || fresh(rest))
    ensures (part == buf || fresh(part.buf)) && (rest == buf || fresh(rest.buf))
    ensures buf.buf == old(buf.buf)
  {
    hide Flat, Wf, Apart;
    if offset <= buf.used / 2 {
      part := SplitFront(buf, offset, pre, post);
      rest := buf;
    } else {
      rest := SplitBack(buf, offset, pre, post);
      part := buf;
    }
  }

  lemma {:induction false} IndexUnique(q: seq<Buffer>, b: Buffer, i: nat)
    requires i < |q| && q[i] == b && b !in q[..i]
    ensures IndexOf(q, b) == i
  {
    if i > 0 {
      assert q[0] == q[..i][0];
      assert forall x :: x in q[1..][..i - 1] ==> x in q[..i];
      IndexUnique(q[1..], b, i - 1);
    }
  }

  lemma JoinOne(pre: seq<Buffer>, a: Buffer, post: seq<Buffer>)
    requires Wf(pre + post) && a.Valid() && Apart(a, pre) && Apart(a, post)
    ensures Wf(pre) && Wf(post) && Wf(pre + [a] + post)
    ensures Flat(pre + [a] + post) == Flat(pre) + a.Content() + Flat(post)
  {
    var q, r := pre + [a] + post, pre + post;
    assert forall j :: 0 <= j < |pre| ==> q[j] == r[j] && q[j] in pre && q[j].buf in Arrays(pre);
    assert forall j :: |pre| + 1 <= j < |q| ==> q[j] == r[j - 1] && q[j] in post && q[j].buf in Arrays(post);
    assert Wf(q);
    MiddleParts(pre, [a], post);
    FlatOne(a);
  }

  lemma ConsFlat(b: Buffer, rest: seq<Buffer>)
    requires b.Valid() && Wf(rest) && Apart(b, rest)
    ensures Wf([b] + rest) && Flat([b] + rest) == b.Content() + Flat(rest) && |b.Content()| == b.used
  {}

  /** Two neighbours and the rest of the queue. */
  lemma TwoApart(pre: seq<Buffer>, a: Buffer, b: Buffer, post: seq<Buffer>)
    requires Wf(pre + [a] + ([b] + post))
    ensures Wf(pre + post) && Wf(pre) && Wf(post) && a.Valid() && b.Valid() && a != b && a.buf != b.buf
    ensures Apart(a, pre) && Apart(a, post) && Apart(b, pre) && Apart(b, post) && |b.Content()| == b.used
    ensures Flat(pre + [a] + ([b] + post)) == Flat(pre) + (a.Content() + b.Content()) + Flat(post)
  {
    hide Flat, Wf;
    MiddleOne(pre, a, [b] + post);
    assert pre + ([b] + post) == pre + [b] + post;
    MiddleOne(pre, b, post);
    FlatOne(b);
    FlatAppend([b], post);
    assert b in [b] + post && b.buf in Arrays([b] + post);
    assert forall x :: x in post ==> x in [b] + post && x.buf in Arrays([b] + post);
  }

  lemma MiddlePlace(pre: seq<Buffer>, b: Buffer, post: seq<Buffer>)
    requires Wf(pre + [b] + post)
    ensures IndexOf(pre + [b] + post, b) == |pre|
  {
    MiddleOne(pre, b, post);
    assert (pre + [b] + post)[..|pre|] == pre;
    IndexUnique(pre + [b] + post, b, |pre|);
  }

  ghost function Tail(buf: Buffer, rest: seq<Buffer>): seq<byte>
    requires buf.Valid() && Wf(rest)
    reads buf, buf.buf, rest, Arrays(rest)
  {
    buf.Content() + Flat(rest)
  }

  lemma SameTail(a: seq<byte>, x: seq<byte>, y: seq<byte>)
    requires a + x == a + y
    ensures x == y
  {
    assert (a + x)[|a|..] == x && (a + y)[|a|..] == y;
  }

  /** The bytes of the first `n` buffers. */
  ghost function Prefix(q: seq<Buffer>, n: nat): seq<byte>
    requires Wf(q) && n <= |q|
    reads q, Arrays(q)
  {
    WfPrefix(q, n);
    Flat(q[..n])
  }

  lemma WfPrefix(q: seq<Buffer>, n: nat)
    requires Wf(q) && n <= |q|
    ensures Wf(q[..n])
  {}

  lemma PlaceAt(q: seq<Buffer>, n: nat)
    requires Wf(q) && n < |q|
    ensures q[n].Valid() && IndexOf(q, q[n]) == n
  {}

  lemma PrefixStep(q: seq<Buffer>, n: nat)
    requires Wf(q) && n < |q|
    ensures q[n].Valid() && IndexOf(q, q[n]) == n
    ensures Prefix(q, n + 1) == Prefix(q, n) + q[n].buf[q[n].data..q[n].data + q[n].used]
  {
    hide Flat, Wf, IndexOf;
    PlaceAt(q, n);
    WfPrefix(q, n);
    WfPrefix(q, n + 1);
    assert q[..n + 1] == q[..n] + [q[n]];
    FlatAppend(q[..n], [q[n]]);
    FlatOne(q[n]);
  }

  lemma PrefixEnds(q: seq<Buffer>, n: nat)
    requires Wf(q) && n <= |q|
    ensures Prefix(q, 0) == [] && Prefix(q, n) <= Flat(q) && Prefix(q, |q|) == Flat(q)
  {
    assert q == q[..n] + q[n..] && q[..|q|] == q;
    FlatAppend(q[..n], q[n..]);
  }

  /** chunk_merge_buffer for the first buffer of the chunk. */
  method MergeFirst(ck: Chunk, buf: Buffer, size: nat) returns (ret: int)
    requires ck.Valid() && ck.queue != [] && buf == ck.queue[0]
    modifies ck`queue, ck`num, ck.queue, Arrays(ck.queue)
    ensures ck.Valid() && ck.Bytes() == old(ck.Bytes()) && ck.queue != [] && ck.queue[0] == buf
    ensures (ret == 0 || ret == -1) && (ret == 0 <==> size <= |old(ck.Bytes())|)
    ensures ret == 0 ==> size <= buf.used == |buf.Content()|
    ensures buf.Valid() && buf.Content() <= ck.Bytes()
    ensures size == |old(ck.Bytes())| ==> buf.Content() == ck.Bytes()
    ensures forall b <- ck.queue :: b in old(ck.queue) && (b.buf == old(b.buf) || fresh(b.buf))
  {
    hide Flat, Wf;
    ghost var pre: seq<Buffer>, post := [], ck.queue[1..];
    assert ck.queue == pre + [buf] + post;
    MiddleOne(pre, buf, post);
    EmptyFlat(pre);
    assert old(Tail(buf, post)) == old(ck.Bytes());
    ghost var rest;
    ret, rest := ck.Merge(buf, size, pre, post);
    assert forall b <- rest :: b in post;
    MiddleOne(pre, buf, rest);
    EmptyFlat(pre);
    assert ck.Bytes() == Tail(buf, rest);
  }

  lemma FirstSizes(q: seq<Buffer>)
    requires q != []
    ensures StoredSize(q) == q[0].Mused() + StoredSize(q[1..]) && TotalSize(q) == q[0].buf.Length + TotalSize(q[1..])
  {}

  /** `buf->data += written; buf->used -= written`: buffer_mused of the buffer does not change. */
  method ConsumeFirst(ck: Chunk, first: Buffer, n: nat)
    requires ck.Valid() && ck.queue != [] && first == ck.queue[0] && n <= first.used
    modifies first`data, first`used
    ensures ck.Valid() && ck.Bytes() == old(ck.Bytes())[n..]
    ensures StoredSize(ck.queue) == old(StoredSize(ck.queue)) && TotalSize(ck.queue) == old(TotalSize(ck.queue))
    ensures first.used == old(first.used) - n && first.data == old(first.data) + n
  {
    hide Flat, Wf, StoredSize, TotalSize;
    FirstSizes(ck.queue);
    FirstRest(ck.queue);
    ghost var rest := ck.queue[1..];
    assert ck.queue == [first] + rest;
    first.DropFront(n);
    ConsFlat(first, rest);
    FirstSizes(ck.queue);
  }
}
