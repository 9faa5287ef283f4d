/**
 message.c and msg_policy.c: messages of the policy protocol with a seven-byte head, printed by msg_add_head
 and cut out of a read chunk by policy_parse_data.
 */
module PolicyMessages {
  import opened Bytes

  const MSG_HEAD_SIZE: nat := 7
  const MSG_LEN_OFFSET: nat := 3
  const MSG_PROTOCOL_VERSION_MAJOR: byte := 1
  const MSG_PROTOCOL_VERSION_MINOR3: byte := 3
  const MSG_PROTOCOL_VERSION_MINOR4: byte := 4
  const MSG_REQUEST: byte := 14
  const REQ_POLICY_RESPONSE: byte := 12
  const MAX_LIMIT: nat := 0x7FFF_FFFF

  datatype Result = MSG_OK | MSG_ERR | MSG_ALT

  /** What plcy_parse_plcy answers for the k-th message; it may depend on everything stored before. */
  type Judge = (nat, seq<byte>, seq<byte>) -> Result

  /** htonl, byte by byte */
  function BigEndian(n: nat): (r: seq<byte>)
    requires n < 0x1_0000_0000
    ensures |r| == 4
  {
    [n / 0x100_0000, n / 0x1_0000 % 0x100, n / 0x100 % 0x100, n % 0x100]
  }

  /** msg_get_bodylen: ntohl of the length field */
  function BodyLength(s: seq<byte>): (n: nat)
    requires |s| >= MSG_HEAD_SIZE
    ensures n < 0x1_0000_0000
  {
    ((s[MSG_LEN_OFFSET] as int * 0x100 + s[MSG_LEN_OFFSET + 1] as int) * 0x100 + s[MSG_LEN_OFFSET + 2] as int) * 0x100
      + s[MSG_LEN_OFFSET + 3] as int
  }

  /** The head that msg_add_head prints; `version` is the configured policy version. */
  function Head(kind: byte, version: int, n: nat): (r: seq<byte>)
    requires n < 0x1_0000_0000
    ensures |r| == MSG_HEAD_SIZE
  {
    [kind, MSG_PROTOCOL_VERSION_MAJOR,
     if kind == MSG_REQUEST && version == 14 then MSG_PROTOCOL_VERSION_MINOR4 else MSG_PROTOCOL_VERSION_MINOR3]
    + BigEndian(n)
  }

  /** The length read back is the length printed. */
  lemma HeadLength(kind: byte, version: int, n: nat, more: seq<byte>)
    requires n < 0x1_0000_0000
    ensures BodyLength(Head(kind, version, n) + more) == n
  {
    FourBytes(n);
    var s := Head(kind, version, n) + more;
    assert s[MSG_LEN_OFFSET..MSG_LEN_OFFSET + 4] == BigEndian(n);
  }

  lemma FourBytes(n: nat)
    ensures ((n / 0x100_0000 * 0x100 + n / 0x1_0000 % 0x100) * 0x100 + n / 0x100 % 0x100) * 0x100 + n % 0x100 == n
  {
    assert n / 0x1_0000 == n / 0x100 / 0x100 && n / 0x100_0000 == n / 0x1_0000 / 0x100;
  }

  /** plcy_parse_response on a message body */
  function Response(k: nat, body: seq<byte>, judge: Judge): Result {
    if |body| < 2 then MSG_ERR
    else
      var snlen: nat := body[0];
      if |body| < 2 + snlen then MSG_ERR
      else if body[1 + snlen] != REQ_POLICY_RESPONSE then MSG_ERR
      else judge(k, body[1..1 + snlen], body[2 + snlen..])
  }

  /** The answer of plcy_parse_msg to a whole message. */
  function Handled(k: nat, msg: seq<byte>, judge: Judge): Result
    requires |msg| >= MSG_HEAD_SIZE
  {
    if msg[1] != MSG_PROTOCOL_VERSION_MAJOR ||
      (msg[2] != MSG_PROTOCOL_VERSION_MINOR3 && msg[2] != MSG_PROTOCOL_VERSION_MINOR4) then MSG_ERR
    else if msg[0] != MSG_REQUEST then MSG_ERR
    else Response(k, msg[MSG_HEAD_SIZE..], judge)
  }

  /** A body length that policy_parse_data goes on with: as a positive `int`, within the limit of the chunk. */
  predicate Acceptable(n: nat, limit: nat) {
    0 < n <= MAX_LIMIT && MSG_HEAD_SIZE + n <= limit
  }

  /** The reference for one and more calls: the messages dispatched, the bytes kept, and whether to go on. */
  datatype Dispatched = Dispatched(msgs: seq<seq<byte>>, rest: seq<byte>, ok: bool)

  function Dispatch(k: nat, s: seq<byte>, limit: nat, judge: Judge): Dispatched
    decreases |s|
  {
    if |s| < MSG_HEAD_SIZE then Dispatched([], s, true)
    else if !Acceptable(BodyLength(s), limit) then Dispatched([], s, false)
    else
      var n := MSG_HEAD_SIZE + BodyLength(s);
      if |s| < n then Dispatched([], s, true)
      else if Handled(k, s[..n], judge) == MSG_ERR then Dispatched([], s, false)
      else
        var more := Dispatch(k + 1, s[n..], limit, judge);
        more.(msgs := [s[..n]] + more.msgs)
  }

  function Prepend(msgs: seq<seq<byte>>, d: Dispatched): Dispatched {
    d.(msgs := msgs + d.msgs)
  }

  /** One round of the loop. */
  predicate Whole(k: nat, s: seq<byte>, limit: nat, judge: Judge) {
    |s| >= MSG_HEAD_SIZE && Acceptable(BodyLength(s), limit) && MSG_HEAD_SIZE + BodyLength(s) <= |s|
    && Handled(k, s[..MSG_HEAD_SIZE + BodyLength(s)], judge) != MSG_ERR
  }

  lemma DispatchStep(k: nat, s: seq<byte>, limit: nat, judge: Judge)
    ensures Whole(k, s, limit, judge) ==>
      var n := MSG_HEAD_SIZE + BodyLength(s);
      Dispatch(k, s, limit, judge) == Prepend([s[..n]], Dispatch(k + 1, s[n..], limit, judge))
    ensures !Whole(k, s, limit, judge) ==> Dispatch(k, s, limit, judge) == Dispatched([], s, Waits(s, limit))
  {}

  /** Nothing is wrong so far, but the first message is not complete. */
  predicate Waits(s: seq<byte>, limit: nat) {
    |s| < MSG_HEAD_SIZE || (Acceptable(BodyLength(s), limit) && |s| < MSG_HEAD_SIZE + BodyLength(s))
  }

  lemma WholeKept(k: nat, s: seq<byte>, t: seq<byte>, limit: nat, judge: Judge)
    ensures Whole(k, s, limit, judge) ==> Whole(k, s + t, limit, judge) && BodyLength(s + t) == BodyLength(s)
    ensures Whole(k, s, limit, judge) ==>
      var n := MSG_HEAD_SIZE + BodyLength(s); (s + t)[..n] == s[..n] && (s + t)[n..] == s[n..] + t
    ensures !Whole(k, s, limit, judge) && !Waits(s, limit) ==> !Whole(k, s + t, limit, judge) && !Waits(s + t, limit)
  {
    hide Handled;
    if |s| >= MSG_HEAD_SIZE {
      assert BodyLength(s + t) == BodyLength(s);
      var n := MSG_HEAD_SIZE + BodyLength(s);
      if n <= |s| {
        assert (s + t)[..n] == s[..n] && (s + t)[n..] == s[n..] + t;
      }
    }
  }

  /** What later calls do with more bytes is what one call would do with all of them. */
  lemma {:induction false} DispatchResumes(k: nat, s: seq<byte>, t: seq<byte>, limit: nat, judge: Judge)
    ensures var a, b := Dispatch(k, s, limit, judge), Dispatch(k, s + t, limit, judge);
      if a.ok then b == Prepend(a.msgs, Dispatch(k + |a.msgs|, a.rest + t, limit, judge)) else b.msgs == a.msgs && !b.ok
    decreases |s|
  {
    hide Dispatch, Handled, Waits, BodyLength;
    DispatchStep(k, s, limit, judge);
    DispatchStep(k, s + t, limit, judge);
    WholeKept(k, s, t, limit, judge);
    if Whole(k, s, limit, judge) {
      hide Whole;
      var n := MSG_HEAD_SIZE + BodyLength(s);
      DispatchResumes(k + 1, s[n..], t, limit, judge);
      var b := Dispatch(k + 1, s[n..], limit, judge);
      if b.ok {
        PrependTwice([s[..n]], b.msgs, Dispatch(k + 1 + |b.msgs|, b.rest + t, limit, judge));
      }
    } else {
      NothingBefore(Dispatch(k, s + t, limit, judge));
    }
  }

  lemma NothingBefore(d: Dispatched)
    ensures Prepend([], d) == d
  {}

  lemma PrependTwice(a: seq<seq<byte>>, b: seq<seq<byte>>, d: Dispatched)
    ensures Prepend(a, Prepend(b, d)) == Prepend(a + b, d)
  {}

  /** A message as its sender prints it. */
  datatype Message = Message(version: int, body: seq<byte>) {
    predicate Fits(limit: nat) {
      Acceptable(|body|, limit)
    }
    function Bytes(): seq<byte>
      requires |body| < 0x1_0000_0000
    {
      Head(MSG_REQUEST, version, |body|) + body
    }
  }

  predicate AllFit(messages: seq<Message>, limit: nat) {
    forall i :: 0 <= i < |messages| ==> messages[i].Fits(limit)
  }

  function Printed(messages: seq<Message>, limit: nat): seq<byte>
    requires AllFit(messages, limit)
  {
    if messages == [] then [] else messages[0].Bytes() + Printed(messages[1..], limit)
  }

  function Texts(messages: seq<Message>, limit: nat): (r: seq<seq<byte>>)
    requires AllFit(messages, limit)
    ensures |r| == |messages|
  {
    seq(|messages|, i requires 0 <= i < |messages| => messages[i].Bytes())
  }

  /** The handler accepts the i-th message as the (k + i)-th. */
  predicate Accepted(k: nat, messages: seq<Message>, judge: Judge) {
    forall i :: 0 <= i < |messages| ==> Response(k + i, messages[i].body, judge) != MSG_ERR
  }

  /** Printed messages are dispatched one by one, and an incomplete one waits. */
  lemma {:induction false} RoundTrip(k: nat, messages: seq<Message>, suffix: seq<byte>, limit: nat, judge: Judge)
    requires AllFit(messages, limit) && Accepted(k, messages, judge) && Waits(suffix, limit)
    ensures Dispatch(k, Printed(messages, limit) + suffix, limit, judge)
      == Dispatched(Texts(messages, limit), suffix, true)
    decreases |messages|
  {
    hide Dispatch, Response, Handled, Whole, Message.Bytes;
    if messages == [] {
      DispatchStep(k, suffix, limit, judge);
      NotWhole(k, suffix, limit, judge);
      assert Printed(messages, limit) + suffix == suffix;
      assert Texts(messages, limit) == [];
    } else {
      var m, more := messages[0], messages[1..];
      var tail := Printed(more, limit) + suffix;
      var s := m.Bytes() + tail;
      assert Printed(messages, limit) + suffix == s;
      FirstPrinted(k, m, tail, limit, judge);
      AcceptedRest(k, messages, judge);
      RoundTrip(k + 1, more, suffix, limit, judge);
      DispatchStep(k, s, limit, judge);
      TextsStep(messages, limit);
    }
  }

  lemma NotWhole(k: nat, s: seq<byte>, limit: nat, judge: Judge)
    ensures Waits(s, limit) ==> !Whole(k, s, limit, judge)
  {}

  lemma TextsStep(messages: seq<Message>, limit: nat)
    requires AllFit(messages, limit) && messages != []
    ensures AllFit(messages[1..], limit)
    ensures Texts(messages, limit) == [messages[0].Bytes()] + Texts(messages[1..], limit)
  {}

  lemma AcceptedRest(k: nat, messages: seq<Message>, judge: Judge)
    requires Accepted(k, messages, judge) && messages != []
    ensures Response(k, messages[0].body, judge) != MSG_ERR && Accepted(k + 1, messages[1..], judge)
  {}

  lemma FirstPrinted(k: nat, m: Message, tail: seq<byte>, limit: nat, judge: Judge)
    requires m.Fits(limit) && Response(k, m.body, judge) != MSG_ERR
    ensures var s := m.Bytes() + tail;
      && Whole(k, s, limit, judge) && MSG_HEAD_SIZE + BodyLength(s) == |m.Bytes()| && s[..|m.Bytes()|] == m.Bytes()
      && s[|m.Bytes()|..] == tail
  {
    hide Response, BodyLength;
    var s := m.Bytes() + tail;
    assert s == Head(MSG_REQUEST, m.version, |m.body|) + (m.body + tail);
    HeadLength(MSG_REQUEST, m.version, |m.body|, m.body + tail);
    assert s[..|m.Bytes()|] == m.Bytes() && s[|m.Bytes()|..] == tail;
    PrintedHandled(k, m, judge);
  }

  lemma PrintedHandled(k: nat, m: Message, judge: Judge)
    requires |m.body| < 0x1_0000_0000
    ensures Handled(k, m.Bytes(), judge) == Response(k, m.body, judge)
  {}

  /** An unfinished message is refused at once if and only if its head announces more than an int holds or more than
      the chunk may hold; otherwise it waits. */
  lemma LengthRefused(k: nat, kind: byte, version: int, n: nat, more: seq<byte>, limit: nat, judge: Judge)
    requires n < 0x1_0000_0000 && |more| < n
    ensures var s := Head(kind, version, n) + more;
      Dispatch(k, s, limit, judge) == Dispatched([], s, n < 0x8000_0000 && 7 + n <= limit)
  {
    HeadLength(kind, version, n, more);
  }

  /** And so is a head that announces nothing. */
  lemma NothingAnnounced(k: nat, kind: byte, version: int, more: seq<byte>, limit: nat, judge: Judge)
    ensures var s := Head(kind, version, 0) + more; Dispatch(k, s, limit, judge) == Dispatched([], s, false)
  {
    HeadLength(kind, version, 0, more);
  }

  // ---- what the handler gets ----

  /** The head bytes: the type, the major version 1, and the minor version 4 for requests of version 14, 3 otherwise. */
  lemma HeadVersion(kind: byte, version: int, n: nat)
    requires n < 0x1_0000_0000
    ensures var h := Head(kind, version, n);
      h[0] == kind && h[1] == 1 && h[2] in {3, 4} && (h[2] == 4 <==> kind == 14 && version == 14)
  {}

  /** A policy for a serial number, as the policy server sends it. */
  datatype Policy = Policy(sn: seq<byte>, text: seq<byte>)

  predicate ShortNumber(p: Policy) {
    |p.sn| < 0x100
  }

  /** The body of a response: the serial number behind its length, the kind of the response, and the policy. */
  function Body(p: Policy): seq<byte>
    requires ShortNumber(p)
  {
    [|p.sn|] + p.sn + [12] + p.text
  }

  /** A response reaches the handler with exactly its serial number and its policy. */
  lemma PolicyReaches(k: nat, p: Policy, judge: Judge)
    requires ShortNumber(p)
    ensures Response(k, Body(p), judge) == judge(k, p.sn, p.text)
  {
    var b, n := Body(p), |p.sn|;
    assert b[0] == n && b[1 + n] == 12 && b[1..1 + n] == p.sn && b[2 + n..] == p.text;
  }

  /** Behind the type stands a version that is known. */
  predicate KnownVersion(msg: seq<byte>) {
    |msg| >= 3 && msg[1] == 1 && (msg[2] == 3 || msg[2] == 4)
  }

  /** A message is accepted if and only if its version is 1.3 or 1.4, its type is 14, and its body is a response that
      the handler accepts. */
  lemma HandledExact(k: nat, msg: seq<byte>, judge: Judge)
    requires |msg| >= 7
    ensures Handled(k, msg, judge) != MSG_ERR <==>
      && KnownVersion(msg) && msg[0] == 14
      && exists p :: ShortNumber(p) && msg[7..] == Body(p) && judge(k, p.sn, p.text) != MSG_ERR
  {
    var body := msg[7..];
    if Handled(k, msg, judge) != MSG_ERR {
      var n: nat := body[0];
      var p := Policy(body[1..1 + n], body[2 + n..]);
      assert body == Body(p);
      PolicyReaches(k, p, judge);
    } else if exists p :: ShortNumber(p) && body == Body(p) && judge(k, p.sn, p.text) != MSG_ERR {
      var p :| ShortNumber(p) && body == Body(p) && judge(k, p.sn, p.text) != MSG_ERR;
      PolicyReaches(k, p, judge);
    }
  }

  /** Messages with these policies are accepted, one after the other, if and only if the handler accepts every serial
      number and policy. */
  lemma PoliciesAccepted(k: nat, messages: seq<Message>, policies: seq<Policy>, judge: Judge)
    requires |messages| == |policies|
    requires forall i :: 0 <= i < |policies| ==> ShortNumber(policies[i]) && messages[i].body == Body(policies[i])
    ensures Accepted(k, messages, judge) <==>
      forall i :: 0 <= i < |policies| ==> judge(k + i, policies[i].sn, policies[i].text) != MSG_ERR
  {
    hide Response, Body;
    forall i | 0 <= i < |policies|
      ensures Response(k + i, messages[i].body, judge) == judge(k + i, policies[i].sn, policies[i].text)
    {
      PolicyReaches(k + i, policies[i], judge);
    }
  }
}

module PolicyFraming {
  import opened Bytes
  import opened Chunks
  import opened Streams
  import opened PolicyMessages

  /** msg_add_head, through the moving pointer `p`. */
  method MsgAddHead(head: array<byte>, kind: byte, dlen: nat, version: int)
    requires MSG_HEAD_SIZE <= head.Length && dlen < 0x1_0000_0000
    modifies head
    ensures head[..MSG_HEAD_SIZE] == Head(kind, version, dlen) && head[MSG_HEAD_SIZE..] == old(head[MSG_HEAD_SIZE..])
  {
    var p := 0;
    head[p] := kind;
    p := p + 1;
    head[p], head[p + 1] := MSG_PROTOCOL_VERSION_MAJOR, MSG_PROTOCOL_VERSION_MINOR3;
    if kind == MSG_REQUEST {
      if version == 14 {
        head[p], head[p + 1] := MSG_PROTOCOL_VERSION_MAJOR, MSG_PROTOCOL_VERSION_MINOR4;
      }
    }
    p := p + 2;
    var wire := BigEndian(dlen);
    head[p], head[p + 1], head[p + 2], head[p + 3] := wire[0], wire[1], wire[2], wire[3];
  }

  /** The policy connection: its read chunk and the protocol version last seen. */
  class PolicyConn {
    const readbuf: Chunk
    var version: (byte, byte)

    constructor (ck: Chunk)
      ensures readbuf == ck
    {
      readbuf, version := ck, (0, 0);
    }
  }

  /** `len += buf->used` over the buffers until `msglen` is reached. */
  method Arrived(ck: Chunk, msglen: nat) returns (enough: bool)
    requires ck.Valid() && ck.queue != []
    ensures ck.Valid() && enough == (msglen <= |ck.Bytes()|)
  {
    hide Flat, Wf, Prefix, IndexOf;
    var n, len := 0, 0;
    var buf := ck.GetFirst();
    ghost var q := ck.queue;
    PrefixEnds(q, 0);
    while buf != null
      invariant 0 <= n <= |q| && len == |Prefix(q, n)| && (len < msglen || n == 0)
      invariant buf == if n < |q| then q[n] else null
      decreases |q| - n
    {
      PrefixStep(q, n);
      len := len + buf.used;
      n := n + 1;
      if len >= msglen {
        break;
      }
      buf := ck.GetNext(buf);
    }
    PrefixEnds(q, n);
    return len >= msglen;
  }

  /** plcy_parse_msg: the message is brought into one buffer, its head is checked and its body handled. */
  method PlcyParseMsg(c: PolicyConn, msglen: nat, k: nat, judge: Judge) returns (ret: Result, msg: seq<byte>)
    requires c.readbuf.Valid() && c.readbuf.queue != [] && MSG_HEAD_SIZE <= msglen <= |c.readbuf.Bytes()|
    modifies c, c.readbuf`queue, c.readbuf`num, c.readbuf.queue, Arrays(c.readbuf.queue)
    ensures c.readbuf.Valid() && c.readbuf.Bytes() == old(c.readbuf.Bytes())
    ensures msg == old(c.readbuf.Bytes())[..msglen] && ret == Handled(k, msg, judge)
    ensures ret != MSG_ERR ==> c.version == (c.readbuf.Bytes()[1], c.readbuf.Bytes()[2])
    ensures forall b <- c.readbuf.queue :: b in old(c.readbuf.queue) && (b.buf == old(b.buf) || fresh(b.buf))
  {
    hide Flat, Wf, Response;
    var ck := c.readbuf;
    var buf := ck.GetFirst();
    ghost var all := ck.Bytes();
    assert c as object !in Arrays(ck.queue);
    var merged := MergeFirst(ck, buf, msglen);
    assert merged == 0;
    msg := buf.buf[buf.data..buf.data + buf.used][..msglen];
    assert msg == all[..msglen];
    if msg[1] != MSG_PROTOCOL_VERSION_MAJOR ||
      (msg[2] != MSG_PROTOCOL_VERSION_MINOR3 && msg[2] != MSG_PROTOCOL_VERSION_MINOR4) {
      return MSG_ERR, msg;
    }
    assert c as object !in Arrays(ck.queue);
    c.version := (msg[1], msg[2]);
    if msg[0] != MSG_REQUEST {
      return MSG_ERR, msg;
    }
    ret := Response(k, msg[MSG_HEAD_SIZE..], judge);
  }

  datatype Turn = Next | More | Bad

  /** One round of the loop: the first message is dispatched and erased, or is not complete, or is wrong. */
  method ParseOne(c: PolicyConn, k: nat, judge: Judge) returns (turn: Turn, msg: seq<byte>)
    requires c.readbuf.Valid() && c.readbuf.queue != []
    modifies c, c.readbuf, c.readbuf.queue, Arrays(c.readbuf.queue)
    ensures c.readbuf.Valid() && c.readbuf.limit == old(c.readbuf.limit)
    ensures var s, limit := old(c.readbuf.Bytes()), c.readbuf.limit;
      if Whole(k, s, limit, judge) then
        var n := MSG_HEAD_SIZE + BodyLength(s);
        && turn == Next && msg == s[..n] && c.readbuf.Bytes() == s[n..]
        && c.readbuf.used_size == old(c.readbuf.used_size) - n
        && (c.readbuf.Bytes() == [] ==> c.readbuf.queue == [])
      else
        && turn == (if Waits(s, limit) then More else Bad) && c.readbuf.Bytes() == s
        && c.readbuf.used_size == old(c.readbuf.used_size)
    ensures forall b <- c.readbuf.queue :: b in old(c.readbuf.queue) && (b.buf == old(b.buf) || fresh(b.buf))
  {
    hide Flat, Wf, Handled, BodyLength;
    msg := [];
    var ck := c.readbuf;
    ghost var s := ck.Bytes();
    var buf := ck.GetFirst();
    var merged := MergeFirst(ck, buf, MSG_HEAD_SIZE);
    if merged != 0 {
      return More, [];
    }
    assert allocated(ck.queue) && allocated(Arrays(ck.queue));
    var body := MsgGetBodylen(buf, s);
    assert ck.Bytes() == s;
    if body == 0 || body > MAX_LIMIT || MSG_HEAD_SIZE + body > ck.limit {
      return Bad, [];
    }
    assert forall i :: 0 <= i < |ck.queue| ==> ck.queue[i] in ck.queue && ck.queue[i] in old(c.readbuf.queue);
    turn, msg := ParseBody(c, MSG_HEAD_SIZE + body, k, judge);
  }

  /** msg_get_bodylen on the bytes of the first buffer. */
  method MsgGetBodylen(buf: Buffer, ghost s: seq<byte>) returns (len: nat)
    requires buf.Valid() && MSG_HEAD_SIZE <= buf.used && buf.Content() <= s
    ensures len == BodyLength(s)
  {
    var lp := buf.data + MSG_LEN_OFFSET;
    len := ((buf.buf[lp] as int * 0x100 + buf.buf[lp + 1] as int) * 0x100 + buf.buf[lp + 2] as int) * 0x100
      + buf.buf[lp + 3] as int;
    assert forall i :: 0 <= i < MSG_HEAD_SIZE ==> s[i] == buf.Content()[i] == buf.buf[buf.data + i];
  }

  /** The round once the head is accepted. */
  method ParseBody(c: PolicyConn, msglen: nat, k: nat, judge: Judge) returns (turn: Turn, msg: seq<byte>)
    requires c.readbuf.Valid() && c.readbuf.queue != [] && MSG_HEAD_SIZE <= |c.readbuf.Bytes()|
    requires msglen == MSG_HEAD_SIZE + BodyLength(c.readbuf.Bytes())
    requires Acceptable(BodyLength(c.readbuf.Bytes()), c.readbuf.limit)
    modifies c, c.readbuf, c.readbuf.queue, Arrays(c.readbuf.queue)
    ensures c.readbuf.Valid() && c.readbuf.limit == old(c.readbuf.limit)
    ensures var s, limit := old(c.readbuf.Bytes()), c.readbuf.limit;
      if Whole(k, s, limit, judge) then
        && turn == Next && msg == s[..msglen] && c.readbuf.Bytes() == s[msglen..]
        && c.readbuf.used_size == old(c.readbuf.used_size) - msglen
        && (c.readbuf.Bytes() == [] ==> c.readbuf.queue == [])
      else
        && turn == (if Waits(s, limit) then More else Bad) && c.readbuf.Bytes() == s
        && c.readbuf.used_size == old(c.readbuf.used_size)
    ensures forall b <- c.readbuf.queue :: b in old(c.readbuf.queue) && (b.buf == old(b.buf) || fresh(b.buf))
  {
    hide Flat, Wf, Handled, BodyLength;
    msg := [];
    var ck := c.readbuf;
    ghost var s, q := ck.Bytes(), ck.queue;
    assert allocated(q) && allocated(Arrays(q));
    var enough := Arrived(ck, msglen);
    assert ck.Bytes() == s;
    if !enough {
      return More, [];
    }
    var ret, text := PlcyParseMsg(c, msglen, k, judge);
    if ret == MSG_ERR {
      return Bad, [];
    }
    msg := text;
    assert forall i :: 0 <= i < |ck.queue| ==> ck.queue[i] in ck.queue && ck.queue[i] in old(c.readbuf.queue);
    var left := ck.Erase(msglen);
    turn := Next;
  }

  /** policy_parse_data: dispatches exactly the whole messages at the front of the chunk and leaves the rest;
      every round erases at least eight bytes. `k` messages were dispatched before. */
  method PolicyParseData(c: PolicyConn, k: nat, judge: Judge) returns (ok: bool, msgs: seq<seq<byte>>)
    requires c.readbuf.Valid()
    modifies c, c.readbuf, c.readbuf.queue, Arrays(c.readbuf.queue)
    ensures c.readbuf.Valid() && c.readbuf.limit == old(c.readbuf.limit)
    ensures Dispatched(msgs, c.readbuf.Bytes(), ok) == old(Dispatch(k, c.readbuf.Bytes(), c.readbuf.limit, judge))
    ensures c.readbuf.used_size - |c.readbuf.Bytes()| == old(c.readbuf.used_size - |c.readbuf.Bytes()|)
    ensures forall b <- c.readbuf.queue :: b in old(c.readbuf.queue) && (b.buf == old(b.buf) || fresh(b.buf))
  {
    hide Flat, Wf, Handled, BodyLength, Dispatch, Waits, Whole;
    var ck := c.readbuf;
    msgs := [];
    ghost var s, limit := ck.Bytes(), ck.limit;
    NothingBefore(Dispatch(k, s, limit, judge));
    while ck.queue != []
      invariant ck.Valid() && ck.limit == limit
      invariant Dispatch(k, s, limit, judge) == Prepend(msgs, Dispatch(k + |msgs|, ck.Bytes(), limit, judge))
      invariant ck.used_size - |ck.Bytes()| == old(ck.used_size - |ck.Bytes()|)
      invariant ck.Bytes() == [] ==> ck.queue == [] || msgs == []
      invariant forall b <- ck.queue :: b in old(ck.queue) && (b.buf == old(b.buf) || fresh(b.buf))
      decreases |ck.Bytes()|
    {
      ghost var t := ck.Bytes();
      DispatchStep(k + |msgs|, t, limit, judge);
      assert forall i :: 0 <= i < |ck.queue| ==> ck.queue[i] in ck.queue && ck.queue[i] in old(c.readbuf.queue);
      var turn, msg := ParseOne(c, k + |msgs|, judge);
      WholeSize(k + |msgs|, t, limit, judge);
      match turn {
        case More =>
          return true, msgs;
        case Bad =>
          return false, msgs;
        case Next =>
          PrependTwice(msgs, [msg], Dispatch(k + |msgs| + 1, ck.Bytes(), limit, judge));
          msgs := msgs + [msg];
      }
    }
    EmptyFlat(ck.queue);
    DispatchStep(k + |msgs|, [], limit, judge);
    EmptyWaits(k + |msgs|, limit, judge);
    ok := true;
  }

  lemma WholeSize(k: nat, s: seq<byte>, limit: nat, judge: Judge)
    ensures Whole(k, s, limit, judge) ==> 8 <= MSG_HEAD_SIZE + BodyLength(s) <= |s|
    ensures Whole(k, s, limit, judge) ==> !Waits(s, limit)
  {}

  lemma EmptyWaits(k: nat, limit: nat, judge: Judge)
    ensures Waits([], limit) && !Whole(k, [], limit, judge)
  {}

  /** Some buffers arrive and the handler runs. */
  method Arrive(c: PolicyConn, segments: seq<seq<byte>>, msgs: seq<seq<byte>>, ghost fed: seq<byte>, judge: Judge)
    returns (ok: bool, all: seq<seq<byte>>)
    requires c.readbuf.Valid() && Dispatched(msgs, c.readbuf.Bytes(), true) == Dispatch(0, fed, c.readbuf.limit, judge)
    modifies c, c.readbuf, c.readbuf.queue, Arrays(c.readbuf.queue)
    ensures c.readbuf.Valid() && c.readbuf.limit == old(c.readbuf.limit)
    ensures Dispatched(all, c.readbuf.Bytes(), ok) == Dispatch(0, fed + Concat(segments), c.readbuf.limit, judge)
    ensures forall b <- c.readbuf.queue :: (b in old(c.readbuf.queue) && b.buf == old(b.buf)) || fresh(b.buf)
    ensures forall b <- c.readbuf.queue :: b in old(c.readbuf.queue) || fresh(b)
  {
    hide Flat, Wf, Dispatch, Concat;
    var ck := c.readbuf;
    DispatchResumes(0, fed, Concat(segments), ck.limit, judge);
    DeliverMore(ck, segments);
    var some;
    ok, some := PolicyParseData(c, |msgs|, judge);
    all := msgs + some;
  }

  /** Every segmentation: over all calls and buffers exactly the messages of the whole stream are dispatched. */
  method ReadStream(calls: seq<seq<seq<byte>>>, limit: nat, judge: Judge)
    returns (ok: bool, msgs: seq<seq<byte>>, c: PolicyConn)
    ensures var d := Dispatch(0, Stream(calls), limit, judge); msgs == d.msgs && ok == d.ok
    ensures fresh(c) && c.readbuf.Valid() && (ok ==> c.readbuf.Bytes() == Dispatch(0, Stream(calls), limit, judge).rest)
  {
    hide Flat, Wf, Dispatch, Stream;
    var ck := new Chunk(limit);
    c := new PolicyConn(ck);
    ok, msgs := true, [];
    assert Stream(calls[..0]) == [] by { StreamEmpty(); }
    NothingYet(ck, limit, judge);
    for i := 0 to |calls|
      invariant fresh(c) && fresh(ck) && c.readbuf == ck && ck.Valid() && ck.limit == limit && ok
      invariant forall j :: 0 <= j < |ck.queue| ==> fresh(ck.queue[j]) && fresh(ck.queue[j].buf)
      invariant Dispatched(msgs, ck.Bytes(), true) == Dispatch(0, Stream(calls[..i]), limit, judge)
    {
      StreamStep(calls, i);
      ghost var fed := Stream(calls[..i]);
      ok, msgs := Arrive(c, calls[i], msgs, fed, judge);
      forall j | 0 <= j < |ck.queue| ensures fresh(ck.queue[j]) && fresh(ck.queue[j].buf) {
        assert ck.queue[j] in ck.queue;
      }
      if !ok {
        Settled(calls, i + 1, limit, judge);
        return;
      }
    }
    assert calls[..|calls|] == calls;
  }

  lemma Settled(calls: seq<seq<seq<byte>>>, k: nat, limit: nat, judge: Judge)
    requires k <= |calls| && !Dispatch(0, Stream(calls[..k]), limit, judge).ok
    ensures var a, b := Dispatch(0, Stream(calls[..k]), limit, judge), Dispatch(0, Stream(calls), limit, judge);
      b.msgs == a.msgs && !b.ok
  {
    hide Dispatch, Stream;
    StreamSplits(calls, k);
    DispatchResumes(0, Stream(calls[..k]), Stream(calls)[|Stream(calls[..k])|..], limit, judge);
  }

  lemma StreamSplits(calls: seq<seq<seq<byte>>>, k: nat)
    requires k <= |calls|
    ensures Stream(calls[..k]) <= Stream(calls)
    ensures Stream(calls) == Stream(calls[..k]) + Stream(calls)[|Stream(calls[..k])|..]
  {
    StreamPrefix(calls, k);
  }

  lemma NothingYet(ck: Chunk, limit: nat, judge: Judge)
    requires ck.queue == []
    ensures ck.Valid() && Dispatched([], ck.Bytes(), true) == Dispatch(0, [], limit, judge)
  {}
}
