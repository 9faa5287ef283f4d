/**
 conn_client.c, conn_backend.c and the loop of forward.c on values: what an event makes of the connections and of the
 job queue. The methods of the main loop are proved against these functions.
 */
module PeerStates {
  import opened Jobs

  /** What the socket takes of the write buffer. */
  datatype Taken = Bytes(n: nat) | Broken

  /** How a new backend starts: connected at once, on its way, waiting for its address, given up because the
      address cannot be asked for, or not at all. */
  datatype Start = Up | Underway | Asking | Unasked | Failed

  /** One round of parsing: a request with `n` bytes for the backend, the head of a request whose bytes wait for the
      first round of its body, or `n` bytes of a body. Behind a head the old backend may have to go. */
  datatype Step = Request(drop: bool, n: nat, start: Start) | Head(drop: bool, start: Start) | Body(n: nat)

  /** How parsing ends: more bytes are needed, an error, or an error page of `n` bytes. */
  datatype End = Idle | Refused | Page(n: nat)

  /** What reading and parsing comes to. */
  datatype Parsed = Parsed(steps: seq<Step>, end: End)

  /** A connection, as a value. */
  datatype Look = Look(status: Status, peer: Conn?, unsent: nat, waits: bool)

  /** The connections, the job queue, and the connections that a peer-close reached too late. */
  datatype State = State(looks: map<Conn, Look>, jobs: seq<Job>, late: set<Conn>)

  /** The rounds of parsing so far, and whether the last one succeeded. */
  datatype Rounds = Rounds(state: State, ok: bool)

  predicate Writable(status: Status) {
    status == WORKING || status == PEERCLOSED || status == CLOSING_WRITE
  }

  /** What is left after writev. */
  function Unsent(unsent: nat, taken: Taken): nat {
    if taken.Bytes? && taken.n < unsent then unsent - taken.n else if taken.Bytes? then 0 else unsent
  }

  function StatusOf(start: Start): (status: Status)
    ensures status in {INIT, CONNECTING, WORKING}
  {
    match start
    case Up => WORKING
    case Underway => CONNECTING
    case _ => INIT
  }

  /** A working peer gets a job to send what it was given. */
  function Sending(jobs: seq<Job>, conn: Conn, status: Status): seq<Job> {
    if status == WORKING then Added(jobs, {OUT}, conn) else jobs
  }

  function WithLook(s: State, x: Conn, look: Look): State {
    s.(looks := s.looks[x := look])
  }

  function WithJob(s: State, event: Event, x: Conn): State {
    s.(jobs := Added(s.jobs, {event}, x))
  }

  // ---- closing ----

  /** conn_signal_peerclose */
  function PeerClosed(s: State, x: Conn): State
    requires x in s.looks
  {
    var look := s.looks[x];
    WithJob(WithLook(s, x, look.(status := PEERCLOSED, peer := null)), PEERCLOSE, x)
      .(late := if look.status == CLOSED then s.late + {x} else s.late)
  }

  /** conn_signal_thisclose */
  function Closed(s: State, x: Conn): State
    requires x in s.looks
  {
    var t, p := WithLook(s, x, s.looks[x].(status := CLOSED)), s.looks[x].peer;
    WithJob(if p != null && p in t.looks then PeerClosed(t, p) else t, CLOSE, x)
  }

  /** conn_handle_peerclose with bytes left to send. */
  function Lingering(s: State, x: Conn): State
    requires x in s.looks
  {
    WithLook(s, x, s.looks[x].(status := CLOSING_WRITE))
      .(late := if s.looks[x].status == CLOSED then s.late + {x} else s.late)
  }

  /** conn_handle_thisclose */
  function Deleted(s: State, x: Conn): State {
    s.(looks := s.looks - {x}, jobs := Marked(s.jobs, x))
  }

  // ---- the rounds of parsing ----

  /** The client turns to another server. */
  function Left(s: State, x: Conn): State
    requires x in s.looks
  {
    var p := s.looks[x].peer;
    if p == null || p !in s.looks || p == x then s
    else var t := PeerClosed(s, p); WithLook(t, x, t.looks[x].(peer := null))
  }

  /** peer_create, with `b` as the new connection. */
  function Joined(s: State, x: Conn, b: Conn, status: Status, waits: bool): State
    requires x in s.looks
  {
    WithLook(WithLook(s, b, Look(status, x, 0, waits)), x, s.looks[x].(peer := b))
  }

  /** http_handle_forwarddata: the peer has `n` more bytes to send. */
  function Given(s: State, x: Conn, n: nat): State
    requires x in s.looks
  {
    var p := s.looks[x].peer;
    if p == null || p !in s.looks then s
    else
      var look := s.looks[p];
      WithLook(s, p, look.(unsent := look.unsent + n)).(jobs := Sending(s.jobs, p, look.status))
  }

  /** The backend for a request: the one there is, or `b`. */
  function Chosen(s: State, x: Conn, drop: bool, start: Start, b: Conn): (r: Rounds)
    requires x in s.looks
    ensures x in r.state.looks
  {
    var t := if drop then Left(s, x) else s;
    var p := t.looks[x].peer;
    if p == null then
      if start.Failed? then Rounds(t, false)
      else Rounds(Joined(t, x, b, StatusOf(start), start.Asking?), !start.Unasked?)
    else Rounds(t, p in t.looks && t.looks[p].status in {WORKING, CONNECTING})
  }

  /** One round of http_handle_parseandforwarddata. */
  function Round(s: State, x: Conn, step: Step, b: Conn): (r: Rounds)
    requires x in s.looks
    ensures x in r.state.looks
  {
    match step
    case Request(drop, n, start) =>
      var r := Chosen(s, x, drop, start, b);
      if r.ok then Rounds(Given(r.state, x, n), true) else r
    case Head(drop, start) => Chosen(s, x, drop, start, b)
    case Body(n) => if s.looks[x].peer == null then Rounds(s, false) else Rounds(Given(s, x, n), true)
  }

  /** All rounds, as long as they succeed; `who[i]` is the backend that round `i` makes, when it makes one. */
  function All(s: State, x: Conn, steps: seq<Step>, who: seq<Conn>): (r: Rounds)
    requires x in s.looks && |who| == |steps|
    ensures x in r.state.looks
    decreases |steps|
  {
    if steps == [] then Rounds(s, true)
    else
      var k := |steps| - 1;
      var r := All(s, x, steps[..k], who[..k]);
      if r.ok then Round(r.state, x, steps[k], who[k]) else r
  }

  // ---- the handlers ----

  /** FDEVENT_OUT on a client: one that is only written to is closed once everything is sent, and one in use may wake
      its peer. */
  function ClientWritten(s: State, x: Conn, taken: Taken, wake: bool): State
    requires x in s.looks
  {
    var look := s.looks[x];
    if !Writable(look.status) then s
    else
      var left := Unsent(look.unsent, taken);
      var t := WithLook(s, x, look.(unsent := left));
      if left == 0 && look.status != WORKING then Closed(t, x)
      else if left == 0 && wake && look.peer != null then WithJob(t, IN, look.peer)
      else t
  }

  /** echo_err_page */
  function Paged(s: State, x: Conn, n: nat): (t: State)
    requires x in s.looks
    ensures x in t.looks
  {
    WithLook(s, x, s.looks[x].(status := CLOSING_WRITE, unsent := s.looks[x].unsent + n))
  }

  /** FDEVENT_IN on a client in use, and FDEVENT_OUT behind it when it came too. */
  function ClientRead(s: State, x: Conn, parsed: Parsed, who: seq<Conn>, out: bool, taken: Taken, wake: bool): State
    requires x in s.looks && |who| == |parsed.steps|
  {
    var r := All(s, x, parsed.steps, who);
    if !r.ok then Closed(r.state, x)
    else
      match parsed.end
      case Refused => Closed(r.state, x)
      case Page(n) => ClientWritten(Paged(r.state, x, n), x, taken, wake)
      case Idle => if out then ClientWritten(r.state, x, taken, wake) else r.state
  }

  /** client_handle, events that do not close. */
  function ClientServed(s: State, x: Conn, events: set<Event>, parsed: Parsed, who: seq<Conn>, taken: Taken, wake: bool)
    : State
    requires x in s.looks && |who| == |parsed.steps|
  {
    var status := s.looks[x].status;
    if ERR in events || HUP in events then Closed(s, x)
    else if IN in events then
      if status == WORKING then ClientRead(s, x, parsed, who, OUT in events, taken, wake)
      else if status == CLOSING_WRITE then ClientWritten(s, x, taken, wake)
      else Closed(s, x)
    else if OUT in events then ClientWritten(s, x, taken, wake)
    else s
  }

  /** backend_handle_read: the client has `n` more bytes to send. */
  function Relayed(s: State, x: Conn, n: nat): (t: State)
    requires x in s.looks
    ensures x in t.looks
  {
    var p := s.looks[x].peer;
    if p == null || p !in s.looks then s
    else
      var t := WithLook(s, p, s.looks[p].(unsent := s.looks[p].unsent + n));
      if n > 0 then WithJob(t, OUT, p) else t
  }

  /** FDEVENT_OUT on a backend. */
  function BackendWritten(s: State, x: Conn, taken: Taken, wake: bool): State
    requires x in s.looks
  {
    var look := s.looks[x];
    if look.status !in {CONNECTING, WORKING} then Closed(s, x)
    else
      var left := Unsent(look.unsent, taken);
      var t := WithLook(s, x, look.(status := WORKING, unsent := left));
      if left == 0 && wake && look.peer != null then WithJob(t, IN, look.peer) else t
  }

  lemma ConnectedFirst(s: State, x: Conn, taken: Taken, wake: bool)
    requires x in s.looks && s.looks[x].status == CONNECTING
    ensures BackendWritten(WithLook(s, x, s.looks[x].(status := WORKING)), x, taken, wake)
      == BackendWritten(s, x, taken, wake)
  {
    var look := s.looks[x].(status := WORKING, unsent := Unsent(s.looks[x].unsent, taken));
    assert s.looks[x := s.looks[x].(status := WORKING)][x := look] == s.looks[x := look];
  }

  /** backend_handle, events that do not close. */
  function BackendServed(s: State, x: Conn, events: set<Event>, n: nat, readok: bool, taken: Taken, wake: bool): State
    requires x in s.looks
  {
    var p := s.looks[x].peer;
    if ERR in events || HUP in events then Closed(s, x)
    else if IN in events then
      if !readok || s.looks[x].status != WORKING || p == null || p !in s.looks || s.looks[p].status != WORKING then
        Closed(s, x)
      else
        var t := Relayed(s, x, n);
        if OUT in events then BackendWritten(t, x, taken, wake) else t
    else if OUT in events then BackendWritten(s, x, taken, wake)
    else s
  }

  /** dns_wakeup_conn and dns_delconn */
  function Replied(s: State, x: Conn, start: Start): State
    requires x in s.looks
  {
    var t := if start.Up? || start.Underway? then WithLook(s, x, s.looks[x].(status := StatusOf(start)))
      else Closed(s, x);
    if x in t.looks then WithLook(t, x, t.looks[x].(waits := false)) else t
  }

  /** What the outside decides about an event. */
  datatype Input = Input(parsed: Parsed, n: nat, readok: bool, taken: Taken, wake: bool)

  function Served(s: State, x: Conn, events: set<Event>, i: Input, who: seq<Conn>): State
    requires x in s.looks && |who| == |i.parsed.steps|
  {
    if x.client then ClientServed(s, x, events, i.parsed, who, i.taken, i.wake)
    else BackendServed(s, x, events, i.n, i.readok, i.taken, i.wake)
  }

  /** client_handle and backend_handle: CLOSE deletes the connection, and so does PEERCLOSE once everything is sent. */
  function Handled(s: State, x: Conn, events: set<Event>, i: Input, who: seq<Conn>): State
    requires x in s.looks && |who| == |i.parsed.steps|
  {
    if PEERCLOSE in events && s.looks[x].unsent > 0 then
      if CLOSE in events then Deleted(Lingering(s, x), x) else Served(Lingering(s, x), x, events + {OUT}, i, who)
    else if Ends(events) then Deleted(s, x)
    else Served(s, x, events, i, who)
  }

  /** job_del */
  function Done(jobs: seq<Job>, i: nat): seq<Job>
    requires i < |jobs|
  {
    jobs[i := jobs[i].(deld := true)]
  }

  /** The main loop runs job `cur`, and marks it whatever was added to it in the meantime. */
  function Ran(s: State, cur: nat, i: Input, who: seq<Conn>): State
    requires cur < |s.jobs| && (!s.jobs[cur].deld ==> s.jobs[cur].conn in s.looks) && |who| == |i.parsed.steps|
  {
    if s.jobs[cur].deld then s
    else
      var t := Handled(s, s.jobs[cur].conn, s.jobs[cur].events, i, who);
      if cur < |t.jobs| then t.(jobs := Done(t.jobs, cur)) else t
  }

  // ---- what the rounds come to ----

  /** The connections that rounds make are new backends, and no two are the same. */
  ghost predicate NewOnes(who: seq<Conn>, x: Conn, olds: set<Conn>) {
    && (forall i :: 0 <= i < |who| && who[i] != x ==> who[i] !in olds && !who[i].client)
    && (forall i, j :: 0 <= i < j < |who| && who[i] != x ==> who[i] != who[j])
  }

  lemma OneMore(who: seq<Conn>, b: Conn, x: Conn, olds: set<Conn>, now: set<Conn>)
    requires NewOnes(who, x, olds) && NewOnes([b], x, now) && olds <= now && forall y <- who :: y in now
    ensures NewOnes(who + [b], x, olds)
  {
    assert [b][0] == b;
    var r := who + [b];
    forall i, j | 0 <= i < j < |r| && r[i] != x ensures r[i] != r[j] {
      if j == |who| { assert who[i] in who; }
    }
  }

  lemma NoRounds(s: State, x: Conn, olds: set<Conn>)
    requires x in s.looks
    ensures NewOnes([], x, olds) && All(s, x, [], []) == Rounds(s, true)
  {}

  lemma Padded(who: seq<Conn>, rest: seq<Conn>, x: Conn, olds: set<Conn>)
    requires NewOnes(who, x, olds) && forall y <- rest :: y == x
    ensures NewOnes(who + rest, x, olds)
  {
    var r := who + rest;
    assert forall j :: |who| <= j < |r| ==> r[j] == rest[j - |who|] && rest[j - |who|] in rest;
  }

  lemma NobodyLeft(s: State, x: Conn)
    requires x in s.looks && s.looks[x].peer == null
    ensures Left(s, x) == s
  {}

  lemma NextRound(s: State, x: Conn, steps: seq<Step>, who: seq<Conn>, i: nat, b: Conn)
    requires x in s.looks && i < |steps| && |who| == i && All(s, x, steps[..i], who).ok
    ensures All(s, x, steps[..i + 1], who + [b]) == Round(All(s, x, steps[..i], who).state, x, steps[i], b)
  {
    hide Round;
    assert steps[..i + 1][..i] == steps[..i] && (who + [b])[..i] == who;
  }

  /** After a round that failed nothing more happens. */
  lemma {:induction false} StopsWith(s: State, x: Conn, steps: seq<Step>, i: nat, who: seq<Conn>, more: seq<Conn>)
    requires x in s.looks && i <= |steps| && |who| == i && (i == |steps| || !All(s, x, steps[..i], who).ok)
    requires |more| == |steps| - i
    ensures All(s, x, steps, who + more) == All(s, x, steps[..i], who)
    decreases |steps|
  {
    hide Round;
    if i == |steps| {
      assert steps[..i] == steps && who + more == who;
    } else {
      var k := |steps| - 1;
      var m := more[..|more| - 1];
      assert steps[..k][..i] == steps[..i] && (who + more)[..k] == who + m;
      StopsWith(s, x, steps[..k], i, who, m);
    }
  }

  lemma AllOne(s: State, x: Conn, step: Step, b: Conn)
    requires x in s.looks
    ensures All(s, x, [step], [b]) == Round(s, x, step, b)
  {
    hide Round;
    assert [step][..0] == [] && [b][..0] == [];
  }

  /** What a round gives to the backend. */
  function Amount(step: Step): nat {
    if step.Head? then 0 else step.n
  }

  /** The peer of `x`, if there is one, points back. */
  predicate Linked(s: State, x: Conn)
    requires x in s.looks
  {
    var p := s.looks[x].peer;
    p != null ==> p in s.looks && p != x && s.looks[p].peer == x
  }

  /** What a round needs: a backend that can be made, or one that works or is on its way, or for a body just one. */
  predicate Goes(s: State, x: Conn, step: Step)
    requires x in s.looks
  {
    var p := s.looks[x].peer;
    if step.Body? then p != null
    else if step.drop || p == null then !step.start.Unasked? && !step.start.Failed?
    else p in s.looks && s.looks[p].status in {WORKING, CONNECTING}
  }

  /** Round `i` makes a backend; `had` says whether there was one at first. */
  predicate Makes(steps: seq<Step>, had: bool, i: nat)
    requires i < |steps|
  {
    !steps[i].Body? && (steps[i].drop || (i == 0 && !had))
  }

  /** No round makes a backend behind round `i`; the backend there was at first counts as -1. */
  ghost predicate Latest(steps: seq<Step>, had: bool, i: int) {
    forall j :: i < j < |steps| && 0 <= j ==> !Makes(steps, had, j)
  }

  /** The bytes for the backend of round `i`: those of all rounds until the next one is made. */
  ghost function Sum(steps: seq<Step>, had: bool, i: int): nat
    requires -1 <= i < |steps|
    decreases |steps|
  {
    if |steps| == i + 1 then if i < 0 then 0 else Amount(steps[i])
    else
      var k := |steps| - 1;
      Sum(steps[..k], had, i) + (if Latest(steps, had, i) then Amount(steps[k]) else 0)
  }

  /** What the live jobs are for. */
  ghost function Live(jobs: seq<Job>): set<(Conn, Event)> {
    set k, e | 0 <= k < |jobs| && !jobs[k].deld && e in jobs[k].events :: (jobs[k].conn, e)
  }

  ghost predicate HasJob(jobs: seq<Job>, x: Conn, event: Event) {
    (x, event) in Live(jobs)
  }

  lemma LiveAdded(jobs: seq<Job>, event: Event, c: Conn)
    ensures Live(Added(jobs, {event}, c)) == Live(jobs) + {(c, event)}
  {
    var r := Added(jobs, {event}, c);
    forall k, e | 0 <= k < |jobs| && !jobs[k].deld && e in jobs[k].events
      ensures (jobs[k].conn, e) in Live(r)
    {
      assert r[k].conn == jobs[k].conn && !r[k].deld && e in r[k].events;
    }
    var n := |r| - 1;
    assert r[n].conn == c && !r[n].deld && event in r[n].events;
    forall k, e | 0 <= k < |r| && !r[k].deld && e in r[k].events
      ensures (r[k].conn, e) in Live(jobs) + {(c, event)}
    {
      if k < |jobs| && !jobs[k].deld && e in jobs[k].events { assert (jobs[k].conn, e) in Live(jobs); }
    }
  }

  lemma JobAdded(jobs: seq<Job>, event: Event, c: Conn, x: Conn, other: Event)
    ensures HasJob(jobs, x, other) ==> HasJob(Added(jobs, {event}, c), x, other)
    ensures HasJob(Added(jobs, {event}, c), c, event)
  {
    LiveAdded(jobs, event, c);
  }

  /** The backend that was there at first, or that round `i` made. */
  function Maker(s: State, x: Conn, who: seq<Conn>, i: int): Conn?
    requires x in s.looks && i < |who|
  {
    if i < 0 then s.looks[x].peer else who[i]
  }

  function FirstLook(s: State, x: Conn, steps: seq<Step>, i: int): Look
    requires x in s.looks && Linked(s, x) && i < |steps| && (if i < 0 then s.looks[x].peer != null else !steps[i].Body?)
  {
    if i < 0 then s.looks[s.looks[x].peer] else Look(StatusOf(steps[i].start), x, 0, steps[i].start.Asking?)
  }

  /** What has become of a backend that was given `n` bytes: the latest one is the peer, and the bytes wait in it; one
      that was dropped keeps them, is closed and has no peer. */
  ghost predicate Fares(t: State, x: Conn, b: Conn, first: Look, n: nat, latest: bool)
    requires x in t.looks
  {
    && b in t.looks && b != x
    && (if latest then
          && t.looks[x].peer == b && t.looks[b] == first.(unsent := first.unsent + n)
          && (n > 0 && first.status == WORKING ==> HasJob(t.jobs, b, OUT))
        else
          && t.looks[b] == first.(status := PEERCLOSED, peer := null, unsent := first.unsent + n)
          && HasJob(t.jobs, b, PEERCLOSE))
  }

  /** The connections that rounds make are new, and not `x`. */
  ghost predicate Made(s: State, x: Conn, steps: seq<Step>, who: seq<Conn>)
    requires x in s.looks && |who| == |steps|
  {
    && NewOnes(who, x, s.looks.Keys)
    && (forall i :: 0 <= i < |steps| && Makes(steps, s.looks[x].peer != null, i) ==> who[i] != x)
  }

  /** The rounds change no more of the client than its peer, and leave it linked. */
  ghost predicate Rounded(s: State, x: Conn, steps: seq<Step>, who: seq<Conn>)
    requires x in s.looks && |who| == |steps|
  {
    var r := All(s, x, steps, who);
    && Linked(s, x) && Linked(r.state, x) && r.state.looks[x] == s.looks[x].(peer := r.state.looks[x].peer)
    && (r.ok ==> Made(s, x, steps, who))
  }

  /** The connections that a handler introduces, when it parses. */
  ghost predicate Introduced(s: State, x: Conn, events: set<Event>, parsed: Parsed, who: seq<Conn>)
    requires x in s.looks
  {
    && |who| == |parsed.steps| && NewOnes(who, x, s.looks.Keys)
    && (x.client && s.looks[x].status == WORKING && IN in events && ERR !in events && HUP !in events && !Ends(events)
        ==> Rounded(s, x, parsed.steps, who))
  }

  lemma MadeBefore(s: State, x: Conn, steps: seq<Step>, who: seq<Conn>)
    requires x in s.looks && |who| == |steps| > 0 && Made(s, x, steps, who)
    ensures var k := |steps| - 1; Made(s, x, steps[..k], who[..k])
  {
    var k, had := |steps| - 1, s.looks[x].peer != null;
    assert forall i :: 0 <= i < k ==> who[..k][i] == who[i];
    assert forall i :: 0 <= i < k ==> Makes(steps[..k], had, i) == Makes(steps, had, i);
  }

  /** The rounds and everybody else: only the client and its backends change. */
  ghost predicate Beside(s: State, x: Conn, who: seq<Conn>, t: State)
    requires x in s.looks && x in t.looks
  {
    && (forall y <- s.looks :: y != x && y != s.looks[x].peer ==> y in t.looks && t.looks[y] == s.looks[y])
    && (forall y <- t.looks :: y in s.looks || y in who)
    && t.looks[x] == s.looks[x].(peer := t.looks[x].peer) && Linked(t, x)
    && (t.looks[x].peer == s.looks[x].peer || t.looks[x].peer in who)
  }

  lemma FaresGiven(t: State, x: Conn, b: Conn, first: Look, n: nat, latest: bool, m: nat)
    requires x in t.looks && Linked(t, x) && Fares(t, x, b, first, n, latest)
    ensures x in Given(t, x, m).looks
    ensures Fares(Given(t, x, m), x, b, first, n + (if latest then m else 0), latest)
  {
    hide Added;
    var p := t.looks[x].peer;
    if p != null {
      JobAdded(t.jobs, OUT, p, b, OUT);
      JobAdded(t.jobs, OUT, p, b, PEERCLOSE);
    }
  }

  lemma FaresLeft(t: State, x: Conn, b: Conn, first: Look, n: nat, latest: bool)
    requires x in t.looks && Linked(t, x) && Fares(t, x, b, first, n, latest)
    ensures x in Left(t, x).looks && Fares(Left(t, x), x, b, first, n, false)
  {
    hide Added;
    var p := t.looks[x].peer;
    if p != null {
      JobAdded(t.jobs, PEERCLOSE, p, b, PEERCLOSE);
    }
  }

  lemma FaresJoined(t: State, x: Conn, b: Conn, first: Look, n: nat, d: Conn, status: Status, waits: bool)
    requires x in t.looks && d !in t.looks
    ensures Fares(t, x, b, first, n, false) ==> Fares(Joined(t, x, d, status, waits), x, b, first, n, false)
    ensures Fares(Joined(t, x, d, status, waits), x, d, Look(status, x, 0, waits), 0, true)
  {}

  /** The state in which a round gives its bytes. */
  function Ready(t: State, x: Conn, step: Step, makes: bool, b: Conn): (r: State)
    requires x in t.looks
    ensures x in r.looks
  {
    if makes && !step.Body? then Joined(Left(t, x), x, b, StatusOf(step.start), step.start.Asking?) else t
  }

  lemma RoundParts(t: State, x: Conn, step: Step, b: Conn, makes: bool)
    requires x in t.looks && Linked(t, x) && Round(t, x, step, b).ok
    requires makes <==> !step.Body? && (step.drop || t.looks[x].peer == null)
    ensures var r := Ready(t, x, step, makes, b);
      Round(t, x, step, b).state == if step.Head? then r else Given(r, x, Amount(step))
  {
    if t.looks[x].peer == null { NobodyLeft(t, x); }
  }

  lemma GivenLinked(t: State, x: Conn, m: nat)
    requires x in t.looks && Linked(t, x)
    ensures var r := Given(t, x, m);
      && x in r.looks && Linked(r, x) && r.looks[x] == t.looks[x] && r.looks.Keys == t.looks.Keys
      && forall y <- t.looks :: y != t.looks[x].peer ==> r.looks[y] == t.looks[y]
  {}

  lemma ReadyLinked(t: State, x: Conn, step: Step, b: Conn)
    requires x in t.looks && Linked(t, x) && b !in t.looks && !step.Body?
    ensures var r := Ready(t, x, step, true, b);
      && Linked(r, x) && r.looks[x] == t.looks[x].(peer := b) && r.looks.Keys == t.looks.Keys + {b}
      && forall y <- t.looks :: y != t.looks[x].peer && y != x ==> r.looks[y] == t.looks[y]
  {}

  /** One more round, for a backend of the rounds before. */
  lemma RoundFares(t: State, x: Conn, step: Step, d: Conn, makes: bool, b: Conn, first: Look, n: nat, latest: bool)
    requires x in t.looks && Linked(t, x) && Round(t, x, step, d).ok
    requires makes <==> !step.Body? && (step.drop || t.looks[x].peer == null)
    requires makes ==> d !in t.looks
    requires Fares(t, x, b, first, n, latest)
    ensures Fares(Round(t, x, step, d).state, x, b, first, n + (if latest && !makes then Amount(step) else 0),
                  latest && !makes)
  {
    hide Given, Left, Joined, Fares, Round;
    RoundParts(t, x, step, d, makes);
    var r := Ready(t, x, step, makes, d);
    if makes {
      FaresLeft(t, x, b, first, n, latest);
      LeftKeys(t, x);
      FaresJoined(Left(t, x), x, b, first, n, d, StatusOf(step.start), step.start.Asking?);
      ReadyLinked(t, x, step, d);
    }
    if !step.Head? { FaresGiven(r, x, b, first, n, latest && !makes, Amount(step)); }
  }

  lemma LeftKeys(t: State, x: Conn)
    requires x in t.looks
    ensures Left(t, x).looks.Keys == t.looks.Keys
  {}

  /** And the backend that it makes. */
  lemma RoundMakes(t: State, x: Conn, step: Step, d: Conn)
    requires x in t.looks && Linked(t, x) && Round(t, x, step, d).ok && d !in t.looks
    requires !step.Body? && (step.drop || t.looks[x].peer == null)
    ensures Fares(Round(t, x, step, d).state, x, d, Look(StatusOf(step.start), x, 0, step.start.Asking?),
                  Amount(step), true)
  {
    hide Given, Left, Joined, Fares, Round;
    RoundParts(t, x, step, d, true);
    LeftKeys(t, x);
    ReadyLinked(t, x, step, d);
    FaresJoined(Left(t, x), x, d, Look(StatusOf(step.start), x, 0, step.start.Asking?), 0, d, StatusOf(step.start),
                step.start.Asking?);
    var r := Ready(t, x, step, true, d);
    if !step.Head? {
      FaresGiven(r, x, d, Look(StatusOf(step.start), x, 0, step.start.Asking?), 0, true, Amount(step));
    }
  }

  lemma RoundBeside(t: State, x: Conn, step: Step, d: Conn, makes: bool)
    requires x in t.looks && Linked(t, x) && Round(t, x, step, d).ok
    requires makes <==> !step.Body? && (step.drop || t.looks[x].peer == null)
    requires makes ==> d !in t.looks
    ensures var r := Round(t, x, step, d).state;
      && Linked(r, x) && r.looks[x] == t.looks[x].(peer := if makes then d else t.looks[x].peer)
      && r.looks[x].peer != null
      && r.looks.Keys == t.looks.Keys + (if makes then {d} else {})
      && forall y <- t.looks :: y != t.looks[x].peer && y != x ==> r.looks[y] == t.looks[y]
  {
    hide Given, Left, Joined;
    RoundParts(t, x, step, d, makes);
    var r := Ready(t, x, step, makes, d);
    if makes { ReadyLinked(t, x, step, d); }
    GivenLinked(r, x, Amount(step));
  }

  /** `i` stands for a backend: that of round `i`, or with -1 the one there was at first. */
  predicate Counts(steps: seq<Step>, had: bool, i: int) {
    if i < 0 then i == -1 && had else i < |steps| && Makes(steps, had, i)
  }

  /** What the rounds come to: only the client and its backends change, and every backend fares as it should. */
  ghost predicate Come(s: State, x: Conn, steps: seq<Step>, who: seq<Conn>, t: State)
    requires x in s.looks && Linked(s, x) && |who| == |steps|
  {
    var had := s.looks[x].peer != null;
    && x in t.looks && Beside(s, x, who, t) && (had || steps != [] ==> t.looks[x].peer != null)
    && forall i :: Counts(steps, had, i) ==>
         Fares(t, x, Maker(s, x, who, i), FirstLook(s, x, steps, i), Sum(steps, had, i), Latest(steps, had, i))
  }

  /** After rounds that all succeeded, the last backend holds the bytes of all rounds since it was made, and every one
      before it keeps its own, is closed and has no peer. */
  lemma {:induction false} RoundsMean(s: State, x: Conn, steps: seq<Step>, who: seq<Conn>)
    requires x in s.looks && Linked(s, x) && |who| == |steps| && Made(s, x, steps, who)
    requires All(s, x, steps, who).ok
    ensures Come(s, x, steps, who, All(s, x, steps, who).state)
    decreases |steps|
  {
    hide Round, Fares, Given, Left, Joined;
    var had := s.looks[x].peer != null;
    if steps == [] {
      if had { NothingYet(s, x, s.looks[x].peer); }
      assert forall i :: Counts(steps, had, i) ==> i == -1;
    } else {
      var k := |steps| - 1;
      var front, most := steps[..k], who[..k];
      var u := All(s, x, front, most).state;
      MadeBefore(s, x, steps, who);
      RoundsMean(s, x, front, most);
      ComeNext(s, x, steps, who, u);
    }
  }

  lemma NothingYet(s: State, x: Conn, p: Conn)
    requires x in s.looks && Linked(s, x) && s.looks[x].peer == p
    ensures Fares(s, x, p, s.looks[p], 0, true)
  {}

  lemma ComeNext(s: State, x: Conn, steps: seq<Step>, who: seq<Conn>, u: State)
    requires x in s.looks && Linked(s, x) && |who| == |steps| > 0 && Made(s, x, steps, who)
    requires var k := |steps| - 1; Come(s, x, steps[..k], who[..k], u) && Round(u, x, steps[k], who[k]).ok
    requires |steps| == 1 ==> u == s
    ensures var k := |steps| - 1; Come(s, x, steps, who, Round(u, x, steps[k], who[k]).state)
  {
    hide Round, Fares, Given, Left, Joined, Linked, Beside;
    var k, had := |steps| - 1, s.looks[x].peer != null;
    var front, most, step, d := steps[..k], who[..k], steps[k], who[k];
    var t, makes := Round(u, x, step, d).state, Makes(steps, had, k);
    ComeLinked(s, x, front, most, u);
    if makes { NewHere(s, x, who, u); }
    RoundBeside(u, x, step, d, makes);
    BesideNext(s, x, who, u, t, makes);
    forall i | Counts(steps, had, i)
      ensures Fares(t, x, Maker(s, x, who, i), FirstLook(s, x, steps, i), Sum(steps, had, i), Latest(steps, had, i))
    {
      if i == k {
        RoundMakes(u, x, step, d);
      } else {
        assert Counts(front, had, i) && (i >= 0 ==> front[i] == steps[i] && most[i] == who[i]);
        LatestNext(steps, had, i);
        RoundFares(u, x, step, d, makes, Maker(s, x, most, i), FirstLook(s, x, front, i), Sum(front, had, i),
                   Latest(front, had, i));
      }
    }
  }

  lemma BesideNext(s: State, x: Conn, who: seq<Conn>, u: State, t: State, makes: bool)
    requires who != [] && x in s.looks && Linked(s, x) && x in u.looks && x in t.looks
    requires NewOnes(who, x, s.looks.Keys) && Beside(s, x, who[..|who| - 1], u)
    requires var d := who[|who| - 1];
      && Linked(t, x) && t.looks[x] == u.looks[x].(peer := if makes then d else u.looks[x].peer)
      && t.looks.Keys == u.looks.Keys + (if makes then {d} else {})
      && forall y <- u.looks :: y != u.looks[x].peer && y != x ==> t.looks[y] == u.looks[y]
    ensures Beside(s, x, who, t)
  {
    var most := who[..|who| - 1];
    assert forall y :: y in most ==> y in who;
    var p := u.looks[x].peer;
    if p != null && p in most {
      var i :| 0 <= i < |most| && most[i] == p;
      assert who[i] == p;
    }
  }

  lemma LatestNext(steps: seq<Step>, had: bool, i: int)
    requires steps != [] && -1 <= i < |steps| - 1
    ensures var k := |steps| - 1; Latest(steps, had, i) <==> Latest(steps[..k], had, i) && !Makes(steps, had, k)
  {
    var k := |steps| - 1;
    assert forall j :: 0 <= j < k ==> Makes(steps[..k], had, j) == Makes(steps, had, j);
  }

  lemma NewHere(s: State, x: Conn, who: seq<Conn>, u: State)
    requires who != [] && x in s.looks && x in u.looks && NewOnes(who, x, s.looks.Keys) && who[|who| - 1] != x
    requires Beside(s, x, who[..|who| - 1], u)
    ensures who[|who| - 1] !in u.looks
  {
    var k := |who| - 1;
    forall i | 0 <= i < k ensures who[..k][i] != who[k] {
      assert who[..k][i] == who[i];
    }
  }

  /** The rounds all succeed if and only if each had what it needs when its turn came. */
  lemma {:induction false} AllGo(s: State, x: Conn, steps: seq<Step>, who: seq<Conn>)
    requires x in s.looks && Linked(s, x) && |who| == |steps| && Made(s, x, steps, who)
    ensures All(s, x, steps, who).ok <==>
      forall i :: 0 <= i < |steps| ==> Goes(All(s, x, steps[..i], who[..i]).state, x, steps[i])
    decreases |steps|
  {
    hide Round, Goes, Come;
    if steps != [] {
      var k := |steps| - 1;
      var front, most := steps[..k], who[..k];
      var u := All(s, x, front, most);
      MadeBefore(s, x, steps, who);
      AllGo(s, x, front, most);
      assert forall i :: 0 <= i < k ==> front[..i] == steps[..i] && most[..i] == who[..i] && front[i] == steps[i];
      if u.ok {
        RoundsMean(s, x, front, most);
        ComeLinked(s, x, front, most, u.state);
        RoundGoes(u.state, x, steps[k], who[k]);
      }
    }
  }

  lemma ComeLinked(s: State, x: Conn, steps: seq<Step>, who: seq<Conn>, t: State)
    requires x in s.looks && Linked(s, x) && |who| == |steps| && Come(s, x, steps, who, t)
    ensures x in t.looks && Linked(t, x)
  {}

  lemma RoundGoes(s: State, x: Conn, step: Step, b: Conn)
    requires x in s.looks && Linked(s, x)
    ensures Round(s, x, step, b).ok <==> Goes(s, x, step)
  {}

  // ---- what the handlers come to ----

  /** The write buffer after the socket took bytes, or broke. */
  predicate Sent(before: nat, taken: Taken, after: nat) {
    match taken
    case Broken => after == before
    case Bytes(n) => after <= before && before - after <= n && (after == 0 || before - after == n)
  }

  /** The live jobs of `t` are those of `s`, two more for a connection that was closed and its peer, and one that
      wakes the peer. */
  ghost predicate JobsAre(s: State, t: State, x: Conn, peer: Conn?, closed: bool, woken: bool) {
    Live(t.jobs) == Live(s.jobs)
      + (if closed then {(x, CLOSE)} else {})
      + (if closed && peer != null then {(peer, PEERCLOSE)} else {})
      + (if woken && peer != null then {(peer, IN)} else {})
  }

  /** Closing: the connection and its peer get their jobs and the peer is detached; nobody else notices. */
  lemma ClosedMeans(s: State, x: Conn)
    requires x in s.looks && Linked(s, x)
    ensures var t, p := Closed(s, x), s.looks[x].peer;
      && t.looks.Keys == s.looks.Keys && t.looks[x] == s.looks[x].(status := CLOSED)
      && (p != null ==> t.looks[p] == s.looks[p].(status := PEERCLOSED, peer := null))
      && (forall y <- s.looks :: y != x && y != p ==> t.looks[y] == s.looks[y])
      && t.late == s.late + (if p != null && s.looks[p].status == CLOSED then {p} else {})
      && JobsAre(s, t, x, p, true, false)
  {
    hide Added, Live;
    var p := s.looks[x].peer;
    var jobs := s.jobs;
    if p != null {
      LiveAdded(jobs, PEERCLOSE, p);
      jobs := Added(jobs, {PEERCLOSE}, p);
    }
    LiveAdded(jobs, CLOSE, x);
  }

  /** A write to a client: it is closed if and only if it was only written to and nothing is left; a client in use wakes
      its peer when nothing is left and the peer sleeps. */
  lemma ClientWrites(s: State, x: Conn, taken: Taken, wake: bool)
    requires x in s.looks && Linked(s, x)
    ensures var t := ClientWritten(s, x, taken, wake);
      && t.looks.Keys == s.looks.Keys && var l, m, p := s.looks[x], t.looks[x], s.looks[x].peer;
      var over := l.status in {PEERCLOSED, CLOSING_WRITE} && m.unsent == 0;
      && m == l.(status := if over then CLOSED else l.status, unsent := m.unsent)
      && (if l.status in {WORKING, PEERCLOSED, CLOSING_WRITE} then Sent(l.unsent, taken, m.unsent)
          else m.unsent == l.unsent)
      && (p != null ==> t.looks[p] == if over then s.looks[p].(status := PEERCLOSED, peer := null) else s.looks[p])
      && (forall y <- s.looks :: y != x && y != p ==> t.looks[y] == s.looks[y])
      && JobsAre(s, t, x, p, over, l.status == WORKING && m.unsent == 0 && wake)
  {
    hide Closed, Added, Live;
    var l := s.looks[x];
    var t := WithLook(s, x, l.(unsent := Unsent(l.unsent, taken)));
    ClosedMeans(t, x);
    if l.peer != null { LiveAdded(s.jobs, IN, l.peer); }
  }

  /** A write to a backend: one that is neither connected nor on its way is closed; otherwise it is connected now, and
      wakes its peer when nothing is left and the peer sleeps. */
  lemma BackendWrites(s: State, x: Conn, taken: Taken, wake: bool)
    requires x in s.looks && Linked(s, x)
    ensures var t := BackendWritten(s, x, taken, wake);
      && t.looks.Keys == s.looks.Keys && var l, m, p := s.looks[x], t.looks[x], s.looks[x].peer;
      var bad := l.status !in {CONNECTING, WORKING};
      && m == l.(status := if bad then CLOSED else WORKING, unsent := m.unsent)
      && (if bad then m.unsent == l.unsent else Sent(l.unsent, taken, m.unsent))
      && (p != null ==> t.looks[p] == if bad then s.looks[p].(status := PEERCLOSED, peer := null) else s.looks[p])
      && (forall y <- s.looks :: y != x && y != p ==> t.looks[y] == s.looks[y])
      && JobsAre(s, t, x, p, bad, !bad && m.unsent == 0 && wake)
  {
    hide Closed, Added, Live;
    var l := s.looks[x];
    ClosedMeans(s, x);
    if l.peer != null { LiveAdded(s.jobs, IN, l.peer); }
  }

  /** The same for a client that is parsed. */
  lemma ReadFate(s: State, x: Conn, parsed: Parsed, who: seq<Conn>, out: bool, taken: Taken, wake: bool)
    requires x in s.looks && |who| == |parsed.steps| && Rounded(s, x, parsed.steps, who) && s.looks[x].status == WORKING
    ensures var t, ok := ClientRead(s, x, parsed, who, out, taken, wake), All(s, x, parsed.steps, who).ok;
      && x in t.looks && var m, page := t.looks[x], parsed.end.Page?;
      && (m.status == CLOSED <==> !ok || parsed.end.Refused? || (page && m.unsent == 0))
      && (ok && page ==> Sent(s.looks[x].unsent + parsed.end.n, taken, m.unsent))
      && (ok && parsed.end.Idle? ==>
            if out then Sent(s.looks[x].unsent, taken, m.unsent) else m.unsent == s.looks[x].unsent)
  {
    hide ClientWritten, Closed, All, JobsAre, Sent, Made;
    var r := All(s, x, parsed.steps, who);
    ClosedMeans(r.state, x);
    ClientWrites(r.state, x, taken, wake);
    if parsed.end.Page? {
      var u := Paged(r.state, x, parsed.end.n);
      ClientWrites(u, x, taken, wake);
    }
  }

  /** When an event leaves a client closed, and what it leaves to send. */
  lemma ClientFate(s: State, x: Conn, events: set<Event>, parsed: Parsed, who: seq<Conn>, taken: Taken, wake: bool)
    requires x in s.looks && Linked(s, x) && x.client && !Ends(events) && Introduced(s, x, events, parsed, who)
    ensures var t, l := ClientServed(s, x, events, parsed, who, taken, wake), s.looks[x];
      && x in t.looks && var m, parses := t.looks[x], IN in events && l.status == WORKING;
      var broken, ok := ERR in events || HUP in events, All(s, x, parsed.steps, who).ok && !parsed.end.Refused?;
      var page := parses && ok && parsed.end.Page?;
      var writes := if parses then ok && (page || OUT in events) else if IN in events then l.status == CLOSING_WRITE
        else OUT in events && l.status in {WORKING, PEERCLOSED, CLOSING_WRITE};
      && (m.status == CLOSED <==>
            || l.status == CLOSED || broken || (parses && !ok)
            || (IN in events && l.status !in {WORKING, CLOSING_WRITE})
            || (writes && m.unsent == 0 && (page || l.status != WORKING)))
      && (ok && !broken && writes ==> Sent(l.unsent + (if page then parsed.end.n else 0), taken, m.unsent))
      && (broken || (!writes && (parses ==> ok)) ==> m.unsent == l.unsent)
  {
    hide ClientWritten, Closed, All, JobsAre, Sent, Made, NewOnes;
    ClosedMeans(s, x);
    ClientWrites(s, x, taken, wake);
    if IN in events && s.looks[x].status == WORKING && ERR !in events && HUP !in events {
      ReadFate(s, x, parsed, who, OUT in events, taken, wake);
    }
  }

  /** What an event does to a backend, to its client and to the queue: bytes are moved only between two connections in
      use, and everything else that is read closes the backend. */
  lemma BackendFate(s: State, x: Conn, events: set<Event>, n: nat, readok: bool, taken: Taken, wake: bool)
    requires x in s.looks && Linked(s, x)
    ensures var t := BackendServed(s, x, events, n, readok, taken, wake);
      && t.looks.Keys == s.looks.Keys && var l, m, p := s.looks[x], t.looks[x], s.looks[x].peer;
      var fit := IN in events && readok && l.status == WORKING && p != null && s.looks[p].status == WORKING;
      var closed := ERR in events || HUP in events || (IN in events && !fit)
        || (IN !in events && OUT in events && l.status !in {CONNECTING, WORKING});
      var moved, writes := fit && !closed, OUT in events && !closed;
      && m == l.(status := if closed then CLOSED else if writes then WORKING else l.status, unsent := m.unsent)
      && (if writes then Sent(l.unsent, taken, m.unsent) else m.unsent == l.unsent)
      && (p != null ==>
            t.looks[p] == if closed then s.looks[p].(status := PEERCLOSED, peer := null)
              else s.looks[p].(unsent := s.looks[p].unsent + if moved then n else 0))
      && (forall y <- s.looks :: y != x && y != p ==> t.looks[y] == s.looks[y])
      && Live(t.jobs) == Live(s.jobs)
           + (if closed then {(x, CLOSE)} else {}) + (if closed && p != null then {(p, PEERCLOSE)} else {})
           + (if moved && n > 0 then {(p, OUT)} else {})
           + (if writes && m.unsent == 0 && wake && p != null then {(p, IN)} else {})
  {
    hide BackendWritten, Closed, Live, Sent, Relayed;
    var p := s.looks[x].peer;
    if ERR in events || HUP in events {
      ClosedMeans(s, x);
    } else if IN in events {
      ClosedMeans(s, x);
      if p != null && OUT in events {
        RelayMeans(s, x, n);
        BackendWrites(Relayed(s, x, n), x, taken, wake);
      } else if p != null {
        RelayMeans(s, x, n);
      }
    } else if OUT in events {
      BackendWrites(s, x, taken, wake);
    }
  }

  lemma RelayMeans(s: State, x: Conn, n: nat)
    requires x in s.looks && Linked(s, x) && s.looks[x].peer != null
    ensures var t, p := Relayed(s, x, n), s.looks[x].peer;
      && t.looks == s.looks[p := s.looks[p].(unsent := s.looks[p].unsent + n)] && Linked(t, x)
      && Live(t.jobs) == Live(s.jobs) + (if n > 0 then {(p, OUT)} else {})
  {
    hide Added, Live;
    LiveAdded(s.jobs, OUT, s.looks[x].peer);
  }

  /** A connection is deleted if and only if its events say CLOSE, or PEERCLOSE when nothing is left to send; then no
      live job is for it, and everybody else is as before. */
  lemma HandledEnds(s: State, x: Conn, events: set<Event>, i: Input, who: seq<Conn>)
    requires x in s.looks && |who| == |i.parsed.steps|
    ensures var t := Handled(s, x, events, i, who);
      var over := CLOSE in events || (PEERCLOSE in events && s.looks[x].unsent == 0);
      && (over <==> x !in t.looks)
      && (over ==> t.looks == s.looks - {x} && forall y, e :: y in s.looks ==>
            (HasJob(t.jobs, y, e) <==> y != x && HasJob(s.jobs, y, e)))
  {
    hide ClientServed, BackendServed, Marked, Live;
    LiveMarked(s.jobs, x);
    ServedHas(s, x, events, i, who);
    ServedHas(Lingering(s, x), x, events + {OUT}, i, who);
    assert Lingering(s, x).looks - {x} == s.looks - {x};
  }

  lemma ServedHas(s: State, x: Conn, events: set<Event>, i: Input, who: seq<Conn>)
    requires x in s.looks && |who| == |i.parsed.steps|
    ensures x in Served(s, x, events, i, who).looks
  {
    hide All, Closed, ClientWritten, BackendWritten, Relayed, Paged;
    StillThere(s, x, i.taken, i.wake);
    if x.client {
      var r := All(s, x, i.parsed.steps, who).state;
      StillThere(r, x, i.taken, i.wake);
      if i.parsed.end.Page? { StillThere(Paged(r, x, i.parsed.end.n), x, i.taken, i.wake); }
    } else {
      StillThere(Relayed(s, x, i.n), x, i.taken, i.wake);
    }
  }

  lemma StillThere(s: State, x: Conn, taken: Taken, wake: bool)
    requires x in s.looks
    ensures x in Closed(s, x).looks && x in ClientWritten(s, x, taken, wake).looks
    ensures x in BackendWritten(s, x, taken, wake).looks
  {
    hide Added;
  }

  lemma LiveMarked(jobs: seq<Job>, x: Conn)
    ensures Live(Marked(jobs, x)) == set j | j in Live(jobs) && j.0 != x
  {
    hide Marked;
    var r := Marked(jobs, x);
    forall k, e | 0 <= k < |jobs| && !jobs[k].deld && e in jobs[k].events && jobs[k].conn != x
      ensures (jobs[k].conn, e) in Live(r)
    {
      assert r[k] == jobs[k] && !r[k].deld && e in r[k].events;
    }
    forall k, e | 0 <= k < |r| && !r[k].deld && e in r[k].events
      ensures (r[k].conn, e) in Live(jobs) && r[k].conn != x
    {
      assert r[k] == jobs[k] && !jobs[k].deld && e in jobs[k].events;
    }
  }

  /** The reply for a waiting backend: it is connected or on its way, and otherwise closed; it waits no longer. */
  lemma ReplyMeans(s: State, x: Conn, start: Start)
    requires x in s.looks && Linked(s, x)
    ensures var t, p := Replied(s, x, start), s.looks[x].peer;
      var closed := !start.Up? && !start.Underway?;
      && t.looks.Keys == s.looks.Keys
      && t.looks[x] == s.looks[x].(status := if start.Up? then WORKING else if closed then CLOSED else CONNECTING,
                                   waits := false)
      && (p != null ==> t.looks[p] == if closed then s.looks[p].(status := PEERCLOSED, peer := null) else s.looks[p])
      && (forall y <- s.looks :: y != x && y != p ==> t.looks[y] == s.looks[y]) && JobsAre(s, t, x, p, closed, false)
  {
    hide Closed, Live;
    ClosedMeans(s, x);
  }
}
