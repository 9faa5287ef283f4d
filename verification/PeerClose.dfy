/**
 conn_peer.c, job.c, conn_client.c, conn_backend.c and the main loop of server.c: closing a pair of
 connections through deferred jobs.
 */
module Jobs {
  datatype Event = IN | OUT | ERR | HUP | CLOSE | PEERCLOSE

  datatype Status = INIT | CONNECTING | WORKING | CLOSING_WRITE | PEERCLOSED | CLOSED

  /** connection_t: the writebuf is the number of bytes in it; `waits` says that `rbnode` is set, that is, that a
      name is being looked up for the connection. */
  class Conn {
    const client: bool
    var status: Status
    var peer: Conn?
    var unsent: nat
    var waits: bool

    constructor (client: bool, status: Status, peer: Conn?, waits: bool)
      ensures this.client == client && this.status == status && this.peer == peer && unsent == 0 && this.waits == waits
    {
      this.client, this.status, this.peer, unsent, this.waits := client, status, peer, 0, waits;
    }
  }

  /** job_t */
  datatype Job = Job(conn: Conn, events: set<Event>, deld: bool)

  /** job_addconn: the last job takes the events when it is for the same connection. */
  function Added(jobs: seq<Job>, events: set<Event>, conn: Conn): seq<Job> {
    if jobs != [] && jobs[|jobs| - 1].conn == conn then
      var last := jobs[|jobs| - 1];
      jobs[..|jobs| - 1] + [Job(conn, if last.deld then events else last.events + events, false)]
    else jobs + [Job(conn, events, false)]
  }

  /** job_delconn: the jobs of a connection are only marked. */
  function Marked(jobs: seq<Job>, conn: Conn): (r: seq<Job>)
    ensures |r| == |jobs|
    ensures forall i :: 0 <= i < |jobs| ==> r[i] == if jobs[i].conn == conn then jobs[i].(deld := true) else jobs[i]
  {
    if jobs == [] then []
    else
      var last := jobs[|jobs| - 1];
      Marked(jobs[..|jobs| - 1], conn) + [if last.conn == conn then last.(deld := true) else last]
  }

  /** job_clear: what is not marked stays. */
  function Unmarked(jobs: seq<Job>): seq<Job> {
    if jobs == [] then []
    else Unmarked(jobs[..|jobs| - 1]) + (if jobs[|jobs| - 1].deld then [] else [jobs[|jobs| - 1]])
  }

  lemma {:induction false} AllMarked(jobs: seq<Job>)
    requires forall i :: 0 <= i < |jobs| ==> jobs[i].deld
    ensures Unmarked(jobs) == []
  {
    if jobs != [] {
      AllMarked(jobs[..|jobs| - 1]);
    }
  }

  /** A job that will be handled; `next` is the first one the main loop has not reached. */
  predicate Pending(jobs: seq<Job>, next: nat, i: int, x: Conn) {
    next <= i < |jobs| && !jobs[i].deld && jobs[i].conn == x
  }

  predicate Ends(events: set<Event>) {
    CLOSE in events || PEERCLOSE in events
  }

  /** No pending job closes `x`. */
  ghost predicate NoEnd(jobs: seq<Job>, next: nat, x: Conn) {
    forall i :: Pending(jobs, next, i, x) ==> !Ends(jobs[i].events)
  }

  ghost predicate NoPeerClose(jobs: seq<Job>, next: nat, x: Conn) {
    forall i :: Pending(jobs, next, i, x) ==> PEERCLOSE !in jobs[i].events
  }

  /** Some pending job deletes `x`. */
  ghost predicate HasClose(jobs: seq<Job>, next: nat, x: Conn) {
    exists i :: Pending(jobs, next, i, x) && CLOSE in jobs[i].events
  }

  /** Every pending job of `x` deletes it. */
  ghost predicate AllClose(jobs: seq<Job>, next: nat, x: Conn) {
    forall i :: Pending(jobs, next, i, x) ==> CLOSE in jobs[i].events
  }

  /** The jobs of `x` that do not delete it come before those that may delete `y`. */
  ghost predicate Order(jobs: seq<Job>, next: nat, x: Conn, y: Conn) {
    forall i, j ::
      Pending(jobs, next, i, x) && Pending(jobs, next, j, y) && CLOSE !in jobs[i].events && Ends(jobs[j].events) ==>
      i < j
  }

  lemma AddedNoEnd(jobs: seq<Job>, next: nat, x: Conn, events: set<Event>, conn: Conn)
    requires NoEnd(jobs, next, x) && (conn != x || !Ends(events))
    ensures NoEnd(Added(jobs, events, conn), next, x)
  {}

  lemma AddedNoPeerClose(jobs: seq<Job>, next: nat, x: Conn, events: set<Event>, conn: Conn)
    requires NoPeerClose(jobs, next, x) && (conn != x || PEERCLOSE !in events)
    ensures NoPeerClose(Added(jobs, events, conn), next, x)
  {}

  lemma AddedHasClose(jobs: seq<Job>, next: nat, x: Conn, events: set<Event>, conn: Conn)
    ensures HasClose(jobs, next, x) ==> HasClose(Added(jobs, events, conn), next, x)
    ensures conn == x && CLOSE in events && next <= |jobs| ==>
      jobs == [] || jobs[|jobs| - 1].conn != x || next < |jobs| ==> HasClose(Added(jobs, events, conn), next, x)
    ensures (conn != x || CLOSE !in events) && HasClose(Added(jobs, events, conn), next, x) ==> HasClose(jobs, next, x)
  {
    var r := Added(jobs, events, conn);
    if HasClose(jobs, next, x) {
      var i :| Pending(jobs, next, i, x) && CLOSE in jobs[i].events;
      assert Pending(r, next, i, x) && CLOSE in r[i].events;
    }
    if conn == x && CLOSE in events && (jobs == [] || jobs[|jobs| - 1].conn != x || next < |jobs|) && next <= |jobs| {
      assert Pending(r, next, |r| - 1, x) && CLOSE in r[|r| - 1].events;
    }
    if (conn != x || CLOSE !in events) && HasClose(r, next, x) {
      var i :| Pending(r, next, i, x) && CLOSE in r[i].events;
      assert Pending(jobs, next, i, x) && CLOSE in jobs[i].events;
    }
  }

  lemma AddedAllClose(jobs: seq<Job>, next: nat, x: Conn, events: set<Event>, conn: Conn)
    requires AllClose(jobs, next, x) && (conn != x || CLOSE in events)
    ensures AllClose(Added(jobs, events, conn), next, x)
  {}

  lemma AddedOrder(jobs: seq<Job>, next: nat, x: Conn, y: Conn, events: set<Event>, conn: Conn)
    requires Order(jobs, next, x, y) && x != y && (conn != x || CLOSE in events)
    ensures Order(Added(jobs, events, conn), next, x, y)
  {}

  /** The first job that may delete `y` stands behind all jobs of `x`. */
  lemma FirstEnd(jobs: seq<Job>, next: nat, x: Conn, y: Conn, events: set<Event>)
    requires NoEnd(jobs, next, y) && x != y
    ensures Order(Added(jobs, events, y), next, x, y)
  {}

  lemma MarkedKeeps(jobs: seq<Job>, next: nat, x: Conn, y: Conn, c: Conn)
    ensures NoEnd(jobs, next, x) ==> NoEnd(Marked(jobs, c), next, x)
    ensures NoPeerClose(jobs, next, x) ==> NoPeerClose(Marked(jobs, c), next, x)
    ensures AllClose(jobs, next, x) ==> AllClose(Marked(jobs, c), next, x)
    ensures Order(jobs, next, x, y) ==> Order(Marked(jobs, c), next, x, y)
    ensures x != c ==> (HasClose(Marked(jobs, c), next, x) <==> HasClose(jobs, next, x))
  {}
}

module PeerClose {
  import opened Jobs
  import opened PeerStates

  datatype Ret = OK | AGAIN | FAILED

  predicate CanWrite(conn: Conn)
    reads conn
  {
    Writable(conn.status)
  }

  /** The connections, the job queue, and how far the main loop is in it: `cur` is the next or the running job. */
  class Server {
    var conns: set<Conn>
    var jobs: seq<Job>
    var cur: nat
    var running: bool
    /** Connections that a peer-close reached when they were closed already. */
    ghost var late: set<Conn>
    /** Backends whose address came when they were closed already. */
    ghost var revived: set<Conn>

    constructor ()
      ensures conns == {} && jobs == [] && cur == 0 && !running && late == {} && revived == {}
    {
      conns, jobs, cur, running, late, revived := {}, [], 0, false, {}, {};
    }

    /** conn_signal_thisclose has been called for the connection, and no peer-close came later. */
    ghost predicate Dead(x: Conn)
      reads `revived, x`status
    {
      x.status == CLOSED || x in revived
    }

    ghost function Next(): nat
      reads `cur, `running
    {
      cur + (if running then 1 else 0)
    }

    /** Every peer of a connection that is not closed is there, is not closed, and points back. */
    ghost predicate Paired()
      reads `conns, `revived, conns`status, conns`peer
    {
      && (forall x <- conns :: !Dead(x) && x.peer != null ==>
            x.peer in conns && x.peer != x && !Dead(x.peer) && x.peer.peer == x)
      && (forall x <- conns :: x.peer != null ==> x.peer.client != x.client)
      && (forall x <- conns :: x in revived ==> !x.client)
    }

    /** No unmarked job refers to a deleted connection; the jobs behind the main loop are marked. */
    ghost predicate Queued()
      reads `conns, `jobs, `cur, `running
    {
      && Next() <= |jobs|
      && (forall i :: 0 <= i < cur ==> jobs[i].deld)
      && (forall i :: 0 <= i < |jobs| && !jobs[i].deld ==> jobs[i].conn in conns)
    }

    /** A connection still in use has no job that ends it. */
    ghost predicate Unended()
      reads `conns, `revived, `jobs, `cur, `running, conns`status, conns`peer
    {
      forall x <- conns :: (x.client && x.status == WORKING) || (!Dead(x) && x.peer != null) ==> NoEnd(jobs, Next(), x)
    }

    /** A closed connection keeps its peer pointer until it is deleted: it will be, and before the peer is
        deleted nothing but that is left to do for it. */
    ghost predicate Settled(x: Conn)
      reads `conns, `revived, `jobs, `cur, `running, conns`status, conns`peer, x`status, x`peer
    {
      Dead(x) && x.peer != null ==>
        && x.peer != x && HasClose(jobs, Next(), x) && NoPeerClose(jobs, Next(), x)
        && (if x.peer in conns then Finished(x.peer) && Order(jobs, Next(), x, x.peer) else AllClose(jobs, Next(), x))
    }

    /** The connection has no peer and gets none. */
    ghost predicate Finished(x: Conn)
      reads x`status, x`peer
    {
      x.peer == null && (x.client ==> x.status in {PEERCLOSED, CLOSING_WRITE, CLOSED})
    }

    ghost predicate Stale()
      reads `conns, `revived, `jobs, `cur, `running, conns`status, conns`peer
    {
      forall x <- conns :: Settled(x)
    }

    /** Only a closed connection waits for its deletion, unless a peer-close came late. */
    ghost predicate Ended()
      reads `conns, `revived, `jobs, `cur, `running, `late, conns`status
    {
      forall x <- conns :: HasClose(jobs, Next(), x) ==> Dead(x) || x in late
    }

    ghost predicate Inv()
      reads `conns, `revived, `jobs, `cur, `running, `late, conns`status, conns`peer
    {
      Paired() && Queued() && Unended() && Stale() && Ended()
    }

    /** Every peer pointer leads to a connection that is still there. */
    ghost predicate AllLive()
      reads `conns, conns`peer
    {
      forall x <- conns :: x.peer != null ==> x.peer in conns
    }

    /** The connections and the queue, as a value. */
    ghost function View(): State
      reads `conns, `jobs, `late, conns`status, conns`peer, conns`unsent, conns`waits
    {
      State(map x | x in conns :: Look(x.status, x.peer, x.unsent, x.waits), jobs, late)
    }

    /** Only the connection `x` looks different. */
    twostate lemma LookChanged(x: Conn)
      requires x in conns && conns == old(conns)
      requires forall y <- conns :: y != x ==>
        y.status == old(y.status) && y.peer == old(y.peer) && y.unsent == old(y.unsent) && y.waits == old(y.waits)
      ensures View() == State(old(View()).looks[x := Look(x.status, x.peer, x.unsent, x.waits)], jobs, late)
      ensures old(View()).jobs == old(jobs) && old(View()).late == old(late)
      ensures old(View()).looks[x] == old(Look(x.status, x.peer, x.unsent, x.waits))
    {
      assert View().looks == old(View()).looks[x := Look(x.status, x.peer, x.unsent, x.waits)];
    }

    /** No connection looks different. */
    twostate lemma LooksKept()
      requires conns == old(conns) && forall y <- conns ::
        y.status == old(y.status) && y.peer == old(y.peer) && y.unsent == old(y.unsent) && y.waits == old(y.waits)
      ensures View() == State(old(View()).looks, jobs, late)
      ensures old(View()).jobs == old(jobs) && old(View()).late == old(late)
    {
      assert View().looks == old(View()).looks;
    }

    /** job_addconn */
    method JobAddconn(events: set<Event>, conn: Conn)
      modifies `jobs
      ensures jobs == Added(old(jobs), events, conn)
    {
      if |jobs| > 0 {
        var last := jobs[|jobs| - 1];
        if conn == last.conn {
          if last.deld {
            jobs := jobs[|jobs| - 1 := Job(conn, events, false)];
          } else {
            jobs := jobs[|jobs| - 1 := last.(events := last.events + events)];
          }
          return;
        }
      }
      jobs := jobs + [Job(conn, events, false)];
    }

    /** job_delconn */
    method JobDelconn(conn: Conn)
      modifies `jobs
      ensures jobs == Marked(old(jobs), conn)
    {
      var q := 0;
      ghost var was := jobs;
      while q < |jobs|
        invariant q <= |jobs| == |was|
        invariant forall i :: 0 <= i < |jobs| ==> jobs[i] == if i < q then Marked(was, conn)[i] else was[i]
      {
        if jobs[q].conn == conn {
          jobs := jobs[q := jobs[q].(deld := true)];
        }
        q := q + 1;
      }
    }

    /** A job for a connection that is still in use, or that has no peer. */
    method AddWork(event: Event, conn: Conn)
      requires Inv() && (running || cur == 0) && conn in conns && (event == IN || event == OUT)
      requires !Dead(conn) || conn.peer == null
      modifies `jobs
      ensures Inv() && jobs == Added(old(jobs), {event}, conn) && |jobs| >= |old(jobs)|
      ensures View() == WithJob(old(View()), event, conn)
      ensures forall x :: x in old(conns) && old(Handling(x)) ==> Handling(x)
      ensures old(AllLive()) ==> AllLive()
    {
      ghost var was, next := jobs, Next();
      JobAddconn({event}, conn);
      AddedQueued(was, {event}, conn);
      forall x <- conns ensures HasClose(jobs, next, x) ==> HasClose(was, next, x) {
        AddedHasClose(was, next, x, {event}, conn);
      }
      forall x <- conns | NoEnd(was, next, x) ensures NoEnd(jobs, next, x) {
        AddedNoEnd(was, next, x, {event}, conn);
      }
      forall x <- conns ensures Settled(x) {
        if Dead(x) && x.peer != null {
          AddedSettled(x, was, {event}, conn);
        }
      }
    }

    lemma AddedQueued(was: seq<Job>, events: set<Event>, conn: Conn)
      requires jobs == Added(was, events, conn) && conn in conns && Next() <= |was| && (running || cur == 0)
      requires forall i :: 0 <= i < cur ==> was[i].deld
      requires forall i :: 0 <= i < |was| && !was[i].deld ==> was[i].conn in conns
      ensures Queued()
    {}

    /** What holds of a closed connection is kept when a job for another one is added, or one that deletes it. */
    lemma AddedSettled(x: Conn, was: seq<Job>, events: set<Event>, conn: Conn)
      requires jobs == Added(was, events, conn) && Dead(x) && x.peer != null && x.peer != x
      requires HasClose(was, Next(), x) && NoPeerClose(was, Next(), x) && (conn != x || events == {CLOSE})
      requires if x.peer in conns then Finished(x.peer) && Order(was, Next(), x, x.peer) else AllClose(was, Next(), x)
      ensures Settled(x)
    {
      AddedHasClose(was, Next(), x, events, conn);
      AddedNoPeerClose(was, Next(), x, events, conn);
      if x.peer in conns {
        AddedOrder(was, Next(), x, x.peer, events, conn);
      } else {
        AddedAllClose(was, Next(), x, events, conn);
      }
    }

    /** conn_signal_peerclose */
    method SignalPeerClose(conn: Conn)
      modifies conn`status, conn`peer, `jobs, `late
      ensures conn.status == PEERCLOSED && conn.peer == null && jobs == Added(old(jobs), {PEERCLOSE}, conn)
      ensures late == if old(conn.status) == CLOSED then old(late) + {conn} else old(late)
    {
      if conn.status == CLOSED {
        late := late + {conn};
      }
      conn.status := PEERCLOSED;
      conn.peer := null;
      JobAddconn({PEERCLOSE}, conn);
    }

    /** Who is handled while a job runs. */
    ghost predicate Handling(conn: Conn)
      reads `conns, `jobs, `cur, `running
    {
      conn in conns && (running || cur == 0) && (running ==> cur < |jobs| && jobs[cur].conn == conn)
    }

    /** What conn_signal_thisclose changes. */
    twostate predicate ThisClosed(conn: Conn)
      reads this, conns, conn, conn.peer
    {
      && conns == old(conns) && cur == old(cur) && running == old(running) && revived == old(revived)
      && conn.status == CLOSED && conn.peer == old(conn.peer)
      && (forall x <- conns :: x.unsent == old(x.unsent) && x.waits == old(x.waits))
      && (forall x <- conns :: x != conn && x != conn.peer ==> x.status == old(x.status) && x.peer == old(x.peer))
      && (if conn.peer == null then jobs == Added(old(jobs), {CLOSE}, conn) && late == old(late)
          else
            && conn.peer.status == PEERCLOSED && conn.peer.peer == null
            && jobs == Added(Added(old(jobs), {PEERCLOSE}, conn.peer), {CLOSE}, conn)
            && late == if old(conn.peer.status) == CLOSED then old(late) + {conn.peer} else old(late))
    }

    /** The peer pointers before conn_signal_thisclose: no other connection relies on the two. */
    twostate lemma ThisClosedPaired(conn: Conn)
      requires old(Paired()) && old(Stale()) && conn in old(conns)
      requires (old(conn.peer) == null || old(conn.peer) in conns) && ThisClosed(conn)
      ensures Paired()
      ensures conn.peer != null ==> conn.peer != conn
    {
      hide HasClose, NoPeerClose, AllClose, Order, NoEnd, Added;
      assert old(Settled(conn));
    }

    twostate lemma ThisClosedQueued(conn: Conn)
      requires old(Queued()) && old(Handling(conn)) && ThisClosed(conn)
      requires (old(conn.peer) == null || old(conn.peer) in conns)
      ensures Queued() && Handling(conn)
    {
      hide Added;
      AddedShape(old(jobs), {PEERCLOSE}, conn.peer);
      AddedShape(if conn.peer == null then old(jobs) else Added(old(jobs), {PEERCLOSE}, conn.peer), {CLOSE}, conn);
    }

    lemma AddedShape(was: seq<Job>, events: set<Event>, conn: Conn?)
      ensures conn != null ==>
        var r := Added(was, events, conn);
        && |was| <= |r| <= |was| + 1 && 0 < |r| && r[|r| - 1].conn == conn
        && events <= r[|r| - 1].events && !r[|r| - 1].deld
        && (forall i :: 0 <= i < |r| - 1 ==> r[i] == was[i])
        && (|r| == |was| ==> was[|was| - 1].conn == conn)
    {}

    twostate lemma ThisClosedUnended(conn: Conn)
      requires old(Queued()) && old(Unended()) && ThisClosed(conn)
      requires (old(conn.peer) == null || old(conn.peer) in conns)
      ensures Unended()
    {
      var was, next, p := old(jobs), Next(), conn.peer;
      var mid := if p == null then was else Added(was, {PEERCLOSE}, p);
      hide NoEnd, Added;
      forall x <- conns | x != conn && x != p && NoEnd(was, next, x) ensures NoEnd(jobs, next, x) {
        if p != null {
          AddedNoEnd(was, next, x, {PEERCLOSE}, p);
        }
        AddedNoEnd(mid, next, x, {CLOSE}, conn);
      }
    }

    twostate lemma ThisClosedEnded(conn: Conn)
      requires old(Queued()) && old(Ended()) && old(Handling(conn)) && ThisClosed(conn)
      requires (old(conn.peer) == null || old(conn.peer) in conns)
      ensures Ended()
    {
      var was, next, p := old(jobs), Next(), conn.peer;
      var mid := if p == null then was else Added(was, {PEERCLOSE}, p);
      forall x <- conns | x != conn && HasClose(jobs, next, x) ensures HasClose(was, next, x) {
        AddedHasClose(mid, next, x, {CLOSE}, conn);
        if p != null {
          AddedHasClose(was, next, x, {PEERCLOSE}, p);
        }
      }
    }

    /** The closed connection itself: its own deletion comes last, behind the peer's. */
    twostate lemma ThisClosedSelf(conn: Conn)
      requires old(Inv()) && old(Handling(conn)) && ThisClosed(conn)
      requires (old(conn.peer) == null || old(conn.peer) in conns)
      ensures Settled(conn)
    {
      var was, next, p := old(jobs), Next(), conn.peer;
      if p != null {
        assert old(Settled(conn)) && p != conn;
        var mid := Added(was, {PEERCLOSE}, p);
        assert mid[|mid| - 1].conn == p && next <= |mid|;
        AddedHasClose(mid, next, conn, {CLOSE}, conn);
        assert NoPeerClose(was, next, conn) by {
          if !old(Dead(conn)) {
            EndIsPeerClose(was, next, conn);
          }
        }
        AddedNoPeerClose(was, next, conn, {PEERCLOSE}, p);
        AddedNoPeerClose(mid, next, conn, {CLOSE}, conn);
        if !old(Dead(conn)) {
          FirstEnd(was, next, conn, p, {PEERCLOSE});
        } else {
          AddedOrder(was, next, conn, p, {PEERCLOSE}, p);
        }
        AddedOrder(mid, next, conn, p, {CLOSE}, conn);
      }
    }

    lemma EndIsPeerClose(was: seq<Job>, next: nat, x: Conn)
      requires NoEnd(was, next, x)
      ensures NoPeerClose(was, next, x)
    {}

    /** The other closed connections. */
    twostate lemma ThisClosedStale(conn: Conn)
      requires old(Inv()) && old(Handling(conn)) && ThisClosed(conn)
      requires (old(conn.peer) == null || old(conn.peer) in conns)
      requires Settled(conn)
      ensures Stale()
    {
      var was, next, p := old(jobs), Next(), conn.peer;
      assert forall x :: x in conns ==> old(Settled(x));
      var mid := if p == null then was else Added(was, {PEERCLOSE}, p);
      forall x | x in conns && x != conn && Dead(x) && x.peer != null ensures Settled(x) {
        assert old(Settled(x));
        if p != null {
          AddedHasClose(was, next, x, {PEERCLOSE}, p);
          AddedNoPeerClose(was, next, x, {PEERCLOSE}, p);
          if x.peer in conns {
            AddedOrder(was, next, x, x.peer, {PEERCLOSE}, p);
          } else {
            AddedAllClose(was, next, x, {PEERCLOSE}, p);
          }
        }
        AddedSettled(x, mid, {CLOSE}, conn);
      }
    }

    /** The deletion is really on its way exactly when the job was not added to the running job, which the
        main loop marks as done afterwards. */
    twostate lemma CloseOnItsWay(conn: Conn)
      requires old(Queued()) && old(Handling(conn)) && ThisClosed(conn) && conn.peer != conn
      ensures HasClose(jobs, Next(), conn) <==> !(running && cur + 1 == |old(jobs)| && conn.peer == null)
    {
      var p := conn.peer;
      var mid := if p == null then old(jobs) else Added(old(jobs), {PEERCLOSE}, p);
      AddedShape(old(jobs), {PEERCLOSE}, p);
      AddedShape(mid, {CLOSE}, conn);
      hide Added;
      if running && cur + 1 == |old(jobs)| && p == null {
        assert |jobs| <= |mid| + 1;
      } else {
        assert Pending(jobs, Next(), |jobs| - 1, conn);
      }
    }

    twostate lemma ThisClosedInv(conn: Conn)
      requires old(Inv()) && old(Handling(conn)) && ThisClosed(conn)
      requires (old(conn.peer) == null || old(conn.peer) in conns)
      ensures Inv() && Handling(conn) && |jobs| >= |old(jobs)| && (old(AllLive()) ==> AllLive())
    {
      hide Added;
      ThisClosedPaired(conn);
      ThisClosedQueued(conn);
      ThisClosedUnended(conn);
      ThisClosedEnded(conn);
      ThisClosedSelf(conn);
      hide Paired, Queued, Unended, Ended;
      ThisClosedStale(conn);
      AddedShape(old(jobs), {PEERCLOSE}, conn.peer);
      AddedShape(if conn.peer == null then old(jobs) else Added(old(jobs), {PEERCLOSE}, conn.peer), {CLOSE}, conn);
    }

    lemma PeerIsOther(conn: Conn)
      requires Paired() && conn in conns
      ensures conn.peer != conn
    {}

    twostate lemma ClosedView(conn: Conn)
      requires ThisClosed(conn) && conn in conns && conn.peer != conn && (conn.peer != null ==> conn.peer in conns)
      ensures View() == Closed(old(View()), conn)
    {
      hide Added;
      var look := Look(CLOSED, conn.peer, conn.unsent, conn.waits);
      if conn.peer == null {
        assert View().looks == old(View()).looks[conn := look];
      } else {
        var p: Conn := conn.peer;
        assert View().looks == old(View()).looks[conn := look][p := Look(PEERCLOSED, null, p.unsent, p.waits)];
      }
    }

    /** conn_signal_thisclose */
    method SignalThisClose(conn: Conn)
      requires Inv() && Handling(conn) && (conn.peer == null || conn.peer in conns)
      modifies this`jobs, this`late, conn, conn.peer
      ensures Inv() && Handling(conn) && conn.status == CLOSED && conn.peer == old(conn.peer) && |jobs| >= |old(jobs)|
      ensures conn.unsent == old(conn.unsent) && (old(AllLive()) ==> AllLive()) && ThisClosed(conn)
      ensures View() == Closed(old(View()), conn)
    {
      hide Inv, AllLive, Added, View, Closed, ThisClosed;
      InvOther(conn);
      CloseThis(conn);
      ClosedView(conn);
    }

    lemma InvOther(conn: Conn)
      requires Inv() && conn in conns
      ensures conn.peer != conn && (conn.peer != null ==> conn.peer.client != conn.client)
    {
      PeerIsOther(conn);
    }

    method CloseThis(conn: Conn)
      requires Inv() && Handling(conn) && (conn.peer == null || conn.peer in conns)
      modifies this`jobs, this`late, conn, conn.peer
      ensures Inv() && Handling(conn) && conn.status == CLOSED && conn.peer == old(conn.peer) && |jobs| >= |old(jobs)|
      ensures conn.unsent == old(conn.unsent) && (old(AllLive()) ==> AllLive()) && ThisClosed(conn)
    {
      hide Inv, AllLive, ThisClosed;
      InvOther(conn);
      HandlingIn(conn);
      BothSignals(conn);
      ThisClosedInv(conn);
    }

    method BothSignals(conn: Conn)
      requires conn in conns && conn.peer != conn && (conn.peer == null || conn.peer in conns)
      modifies this`jobs, this`late, conn, conn.peer
      ensures ThisClosed(conn) && conn.status == CLOSED
      ensures conn.peer == old(conn.peer) && conn.unsent == old(conn.unsent)
    {
      hide Added;
      conn.status := CLOSED;
      var peer := conn.peer;
      if peer != null {
        SignalPeerClose(peer);
      }
      JobAddconn({CLOSE}, conn);
    }

    /** conn_handle_thisclose */
    method HandleThisClose(conn: Conn)
      requires Paired() && Queued() && Unended() && Ended() && Handling(conn)
      requires forall x <- conns :: x != conn ==> Settled(x)
      requires Dead(conn) || conn.peer == null
      requires forall x <- conns :: Dead(x) && x.peer == conn && x != conn ==> AllClose(jobs, Next(), x)
      modifies `jobs, `conns
      ensures Inv() && conns == old(conns) - {conn} && |jobs| == |old(jobs)| && (running ==> jobs[cur].conn == conn)
      ensures View() == Deleted(old(View()), conn)
    {
      hide Paired, Queued, Unended, Stale, Ended, Inv, Settled, AllClose, View;
      Delete(conn);
      DeletedView(conn);
    }

    method Delete(conn: Conn)
      requires Paired() && Queued() && Unended() && Ended() && Handling(conn)
      requires forall x <- conns :: x != conn ==> Settled(x)
      requires Dead(conn) || conn.peer == null
      requires forall x <- conns :: Dead(x) && x.peer == conn && x != conn ==> AllClose(jobs, Next(), x)
      modifies `jobs, `conns
      ensures Inv() && conns == old(conns) - {conn} && (running ==> jobs[cur].conn == conn)
      ensures jobs == Marked(old(jobs), conn)
    {
      ghost var was, next := jobs, Next();
      JobDelconn(conn);
      MarkedAll(was, conn);
      conns := conns - {conn};
      DeletedStale(conn);
    }

    twostate lemma DeletedView(conn: Conn)
      requires jobs == Marked(old(jobs), conn) && conns == old(conns) - {conn} && late == old(late)
      requires forall x <- conns ::
        x.status == old(x.status) && x.peer == old(x.peer) && x.unsent == old(x.unsent) && x.waits == old(x.waits)
      ensures View() == Deleted(old(View()), conn)
    {
      hide Marked;
      assert View().looks == old(View()).looks - {conn};
    }

    lemma MarkedAll(was: seq<Job>, conn: Conn)
      requires jobs == Marked(was, conn)
      ensures forall x <- conns :: NoEnd(was, Next(), x) ==> NoEnd(jobs, Next(), x)
      ensures forall x <- conns :: x != conn ==> (HasClose(jobs, Next(), x) <==> HasClose(was, Next(), x))
    {}

    twostate lemma DeletedStale(conn: Conn)
      requires jobs == Marked(old(jobs), conn) && conns == old(conns) - {conn} && cur == old(cur)
      requires running == old(running) && revived == old(revived)
      requires forall x <- conns :: x.status == old(x.status) && x.peer == old(x.peer) && old(Settled(x))
      requires forall x <- conns :: x.peer != null ==>
        x.peer.status == old(x.peer.status) && x.peer.peer == old(x.peer.peer)
      requires forall x <- conns :: Dead(x) && x.peer == conn ==> AllClose(old(jobs), Next(), x)
      ensures Stale()
    {
      forall x <- conns ensures Settled(x) {
        if Dead(x) && x.peer != null {
          assert old(Settled(x));
          MarkedKeeps(old(jobs), Next(), x, x.peer, conn);
        }
      }
    }

    /** conn_handle_peerclose: `true` stands for CONN_AGN. */
    method HandlePeerClose(conn: Conn) returns (again: bool)
      requires Inv() && Handling(conn) && conn.peer == null
      modifies conn`status, `late
      ensures Inv() && Handling(conn) && again == (conn.unsent != 0)
      ensures conn.status == if again then CLOSING_WRITE else old(conn.status)
      ensures late == if again && old(conn.status) == CLOSED then old(late) + {conn} else old(late)
      ensures View() == if again then Lingering(old(View()), conn) else old(View())
      ensures old(AllLive()) ==> AllLive()
    {
      hide NoEnd, HasClose, NoPeerClose, AllClose, Order, Pending, View;
      assert forall x <- conns :: Settled(x);
      if conn.unsent != 0 {
        if conn.status == CLOSED {
          late := late + {conn};
        }
        conn.status := CLOSING_WRITE;
        assert forall x <- conns :: x != conn ==> old(Settled(x));
        assert forall x <- conns :: Settled(x);
        LookChanged(conn);
        return true;
      }
      return false;
    }

    /** conn_handle_out */
    method HandleOut(conn: Conn, taken: Taken) returns (ret: Ret)
      requires Inv() && Handling(conn)
      modifies conn`unsent
      ensures Inv() && Handling(conn) && (old(AllLive()) ==> AllLive())
      ensures conn.unsent == if CanWrite(conn) then Unsent(old(conn.unsent), taken) else old(conn.unsent)
      ensures View() == WithLook(old(View()), conn, Look(conn.status, conn.peer, conn.unsent, conn.waits))
      ensures ret ==
        if !CanWrite(conn) || (taken.Broken? && conn.unsent != 0) then FAILED
        else if conn.unsent == 0 then OK
        else AGAIN
    {
      hide Inv, AllLive;
      if !CanWrite(conn) {
        return FAILED;
      }
      if conn.unsent == 0 {
        return OK;
      }
      match taken {
        case Broken => return FAILED;
        case Bytes(n) =>
          conn.unsent := if n < conn.unsent then conn.unsent - n else 0;
          ret := if conn.unsent == 0 then OK else AGAIN;
      }
    }

    /** `conn_signal_peerclose( con->peer ); con->peer = NULL` when a client turns to another server. */
    method DropPeer(conn: Conn)
      requires Inv() && Handling(conn) && conn.client && conn.status == WORKING && conn.peer != null
      modifies this`jobs, this`late, conn`peer, conn.peer`status, conn.peer`peer
      ensures Inv() && Handling(conn) && conn.peer == null && conns == old(conns) && (old(AllLive()) ==> AllLive())
      ensures conn.status == WORKING && old(conn.peer) in conns && old(conn.peer) != conn
      ensures old(conn.peer).status == PEERCLOSED && old(conn.peer).peer == null && late == old(late)
      ensures jobs == Added(old(jobs), {PEERCLOSE}, old(conn.peer))
      ensures View() == Left(old(View()), conn)
    {
      hide View, Left;
      var peer := conn.peer;
      assert !Dead(peer);
      SignalPeerClose(peer);
      conn.peer := null;
      DroppedJobs(conn);
      DroppedStale(conn);
      DroppedView(conn);
    }

    /** What dropping the peer changes. */
    twostate predicate Dropped(conn: Conn)
      reads this, conns, conn
    {
      var peer := old(conn.peer);
      && conns == old(conns) && cur == old(cur) && running == old(running) && late == old(late)
      && revived == old(revived)
      && conn in conns && conn.client && old(conn.status) == WORKING && conn.status == WORKING && conn.peer == null
      && peer != null && peer in conns && peer != conn
      && peer.status == PEERCLOSED && peer.peer == null && !old(Dead(peer)) && old(peer.peer) == conn
      && (forall x <- conns :: x != conn && x != peer ==> x.status == old(x.status) && x.peer == old(x.peer))
      && jobs == Added(old(jobs), {PEERCLOSE}, peer)
    }

    twostate lemma DroppedView(conn: Conn)
      requires Dropped(conn) && forall x <- conns :: x.unsent == old(x.unsent) && x.waits == old(x.waits)
      ensures View() == Left(old(View()), conn)
    {
      hide Added;
      assert View().looks == Left(old(View()), conn).looks;
    }

    twostate lemma DroppedJobs(conn: Conn)
      requires old(Inv()) && old(Handling(conn)) && Dropped(conn)
      ensures Paired() && Queued() && Unended() && Ended() && Handling(conn)
    {
      var peer := old(conn.peer);
      AddedShape(old(jobs), {PEERCLOSE}, peer);
      forall x | x in conns ensures x != peer && NoEnd(old(jobs), Next(), x) ==> NoEnd(jobs, Next(), x) {
        if x != peer && NoEnd(old(jobs), Next(), x) {
          AddedNoEnd(old(jobs), Next(), x, {PEERCLOSE}, peer);
        }
      }
      forall x | x in conns ensures HasClose(jobs, Next(), x) ==> HasClose(old(jobs), Next(), x) {
        AddedHasClose(old(jobs), Next(), x, {PEERCLOSE}, peer);
      }
      assert old(NoEnd(jobs, Next(), peer));
    }

    twostate lemma DroppedStale(conn: Conn)
      requires old(Inv()) && old(Handling(conn)) && Dropped(conn)
      ensures Stale()
    {
      forall x | x in conns ensures Settled(x) {
        if Dead(x) && x.peer != null {
          assert old(Settled(x));
          AddedSettled(x, old(jobs), {PEERCLOSE}, old(conn.peer));
        }
      }
    }

    /** peer_create: a backend that is connected, on the way to its server, or waiting for an address. */
    method Connect(conn: Conn, status: Status, waits: bool) returns (peer: Conn)
      requires Inv() && Handling(conn) && conn.client && conn.status == WORKING && conn.peer == null
      requires status in {INIT, CONNECTING, WORKING}
      modifies this`conns, conn`peer
      ensures Inv() && Handling(conn) && fresh(peer) && conn.peer == peer && conns == old(conns) + {peer}
      ensures !peer.client && peer.status == status && peer.peer == conn && peer.unsent == 0 && peer.waits == waits
      ensures View() == Joined(old(View()), conn, peer, status, waits)
      ensures old(AllLive()) ==> AllLive()
    {
      hide Paired, Queued, Unended, Stale, Ended, AllLive;
      ghost var q, l, r := jobs, late, revived;
      assert allocated(q) && allocated(l) && allocated(r);
      peer := new Conn(false, status, conn, waits);
      assert forall x <- conns :: x != peer && x.peer != peer;
      assert forall i :: 0 <= i < |jobs| ==> jobs[i].conn != peer;
      Join(conn, peer);
    }

    method Join(conn: Conn, peer: Conn)
      requires Inv() && Handling(conn) && conn.client && conn.status == WORKING && conn.peer == null
      requires peer !in conns && peer !in revived && !peer.client && peer.peer == conn
      requires peer.status in {INIT, CONNECTING, WORKING}
      requires (forall x <- conns :: x.peer != peer) && forall i :: 0 <= i < |jobs| ==> jobs[i].conn != peer
      modifies this`conns, conn`peer
      ensures Inv() && Handling(conn) && conn.peer == peer && conns == old(conns) + {peer}
      ensures View() == WithLook(WithLook(old(View()), peer, Look(peer.status, conn, peer.unsent, peer.waits)), conn,
                                 Look(conn.status, peer, conn.unsent, conn.waits))
      ensures old(AllLive()) ==> AllLive()
    {
      hide View;
      assert forall x <- conns :: Settled(x);
      conns := conns + {peer};
      conn.peer := peer;
      assert forall x <- old(conns) :: x != conn ==> old(Settled(x));
      assert forall x <- conns :: Settled(x);
      JoinedView(conn);
    }

    twostate lemma JoinedView(conn: Conn)
      requires conn.peer != null && conn.peer != conn && conn in old(conns) && conns == old(conns) + {conn.peer}
      requires jobs == old(jobs) && late == old(late)
      requires forall x <- old(conns) :: x != conn && x != conn.peer ==>
        x.status == old(x.status) && x.peer == old(x.peer) && x.unsent == old(x.unsent) && x.waits == old(x.waits)
      ensures var b: Conn := conn.peer;
        View() == WithLook(WithLook(old(View()), b, Look(b.status, b.peer, b.unsent, b.waits)), conn,
                           Look(conn.status, b, conn.unsent, conn.waits))
    {
      var b: Conn := conn.peer;
      assert View().looks == old(View()).looks[b := Look(b.status, b.peer, b.unsent, b.waits)]
                                             [conn := Look(conn.status, b, conn.unsent, conn.waits)];
    }

    /** The peer of a client in use. */
    lemma InUse(conn: Conn)
      requires Inv() && conn in conns && conn.client && conn.status != CLOSED
      ensures !Dead(conn)
      ensures conn.peer != null ==> conn.peer in conns && !Dead(conn.peer) && conn.peer != conn
    {}

    /** One round of the loop of http_handle_parseandforwarddata. `b` is the new backend, when there is one. */
    method ParseStep(conn: Conn, step: Step) returns (ok: bool, ghost b: Conn)
      requires Inv() && Handling(conn) && conn.client && conn.status == WORKING
      modifies this`conns, this`jobs, this`late, conns
      ensures Inv() && Handling(conn) && conns >= old(conns) && fresh(conns - old(conns))
      ensures (old(AllLive()) ==> AllLive())
      ensures Rounds(View(), ok) == Round(old(View()), conn, step, b) && NewOnes([b], conn, old(conns)) && b in conns
      ensures ok ==> conn.peer != null && (!step.Body? && (step.drop || old(conn.peer) == null) ==> b != conn)
      ensures conn.status == WORKING && conn.unsent == old(conn.unsent) && conn.waits == old(conn.waits)
    {
      hide Inv, AllLive, Chosen, View;
      match step {
        case Request(drop, n, start) =>
          ok, b := Choose(conn, drop, start);
          if ok {
            InUse(conn);
            ForwardTo(conn, n);
          }
        case Head(drop, start) => ok, b := Choose(conn, drop, start);
        case Body(n) =>
          b := conn;
          ok := conn.peer != null;
          Seen(conn);
          if ok {
            InUse(conn);
            ForwardTo(conn, n);
          }
      }
    }

    /** What the view shows of a connection. */
    lemma Seen(conn: Conn)
      ensures View().jobs == jobs && View().late == late && View().looks.Keys == conns
      ensures conn in conns ==> View().looks[conn] == Look(conn.status, conn.peer, conn.unsent, conn.waits)
    {}

    lemma LinkedView(conn: Conn)
      requires Inv() && conn in conns && !Dead(conn)
      ensures conn in View().looks && Linked(View(), conn)
    {}

    /** The backend for a request. */
    method Choose(conn: Conn, drop: bool, start: Start) returns (ok: bool, ghost b: Conn)
      requires Inv() && Handling(conn) && conn.client && conn.status == WORKING
      modifies this`conns, this`jobs, this`late, conns
      ensures Inv() && Handling(conn) && conns >= old(conns) && fresh(conns - old(conns))
      ensures (old(AllLive()) ==> AllLive())
      ensures conn.status == WORKING && conn.unsent == old(conn.unsent) && conn.waits == old(conn.waits)
      ensures Rounds(View(), ok) == Chosen(old(View()), conn, drop, start, b) && NewOnes([b], conn, old(conns))
      ensures b in conns && (ok ==> conn.peer != null && (drop || old(conn.peer) == null ==> b != conn))
    {
      hide Inv, AllLive, View, Left, Joined;
      InUse(conn);
      Seen(conn);
      b := conn;
      if drop && conn.peer != null {
        DropPeer(conn);
      } else if conn.peer == null {
        NobodyLeft(View(), conn);
      }
      Seen(conn);
      if conn.peer == null {
        if start == Failed {
          return false, b;
        }
        var created := Connect(conn, StatusOf(start), start == Asking);
        return start != Unasked, created;
      }
      Seen(conn.peer);
      return conn.peer.status == WORKING || conn.peer.status == CONNECTING, b;
    }

    /** http_handle_parseandforwarddata: rounds of parsing while they succeed. */
    method ParseAndForward(conn: Conn, steps: seq<Step>) returns (ok: bool, ghost who: seq<Conn>)
      requires Inv() && Handling(conn) && conn.client && conn.status == WORKING
      modifies this`conns, this`jobs, this`late, conns
      ensures Inv() && Handling(conn) && conns >= old(conns) && fresh(conns - old(conns))
      ensures (old(AllLive()) ==> AllLive())
      ensures cur == old(cur) && running == old(running)
      ensures conn.status == WORKING && conn.unsent == old(conn.unsent) && conn.waits == old(conn.waits)
      ensures |who| == |steps| && NewOnes(who, conn, old(conns))
      ensures ok ==> forall i :: 0 <= i < |steps| && Makes(steps, old(conn.peer) != null, i) ==> who[i] != conn
      ensures conn in old(View()).looks && Rounds(View(), ok) == All(old(View()), conn, steps, who)
    {
      hide Inv, AllLive, View, Round, Handling, NewOnes, All;
      ghost var had := conn.peer != null;
      HandlingIn(conn);
      Seen(conn);
      NoRounds(View(), conn, old(conns));
      who := [];
      ok := true;
      var i := 0;
      while ok && i < |steps|
        invariant 0 <= i <= |steps| && Inv() && Handling(conn) && conn.status == WORKING
        invariant conns >= old(conns) && fresh(conns - old(conns)) && (old(AllLive()) ==> AllLive())
        invariant conn.unsent == old(conn.unsent) && conn.waits == old(conn.waits)
        invariant cur == old(cur) && running == old(running)
        invariant |who| == i && NewOnes(who, conn, old(conns)) && (forall b <- who :: b in conns)
        invariant if i == 0 then conn.peer == old(conn.peer) else ok ==> conn.peer != null
        invariant ok ==> forall j :: 0 <= j < i && Makes(steps, had, j) ==> who[j] != conn
        invariant Rounds(View(), ok) == All(old(View()), conn, steps[..i], who)
      {
        assert All(old(View()), conn, steps[..i], who).ok;
        ghost var b, now := conn, conns;
        ok, b := ParseStep(conn, steps[i]);
        OneMore(who, b, conn, old(conns), now);
        NextRound(old(View()), conn, steps, who, i, b);
        who := who + [b];
        i := i + 1;
      }
      ghost var rest := seq(|steps| - i, _ => conn);
      StopsWith(old(View()), conn, steps, i, who, rest);
      Padded(who, rest, conn, old(conns));
      who := who + rest;
    }

    lemma HandlingIn(conn: Conn)
      requires Handling(conn)
      ensures conn in conns
    {}

    /** conn_handle_in on a client, with the parser of forward.c. */
    method ClientIn(conn: Conn, parsed: Parsed) returns (ok: bool, ghost who: seq<Conn>)
      requires Inv() && Handling(conn) && conn.client
      modifies this`conns, this`jobs, this`late, conns
      ensures Inv() && Handling(conn) && conns >= old(conns) && fresh(conns - old(conns))
      ensures (old(AllLive()) ==> AllLive())
      ensures cur == old(cur) && running == old(running)
      ensures |who| == |parsed.steps| && NewOnes(who, conn, old(conns))
      ensures old(conn.status) == WORKING ==> Rounded(old(View()), conn, parsed.steps, who)
      ensures old(conn.status) != WORKING ==> !ok && View() == old(View())
      ensures old(conn.status) == WORKING ==>
        var r := All(old(View()), conn, parsed.steps, who);
        && ok == (r.ok && parsed.end.Idle?)
        && View() == (if r.ok && parsed.end.Page? then Paged(r.state, conn, parsed.end.n) else r.state)
        && conn.status == (if r.ok && parsed.end.Page? then CLOSING_WRITE else WORKING)
    {
      hide Inv, AllLive, View, All, Paged;
      who := seq(|parsed.steps|, _ => conn);
      if conn.status != WORKING {
        return false, who;
      }
      InUse(conn);
      LinkedView(conn);
      Seen(conn);
      ok, who := ParseAndForward(conn, parsed.steps);
      Seen(conn);
      InUse(conn);
      LinkedView(conn);
      if !ok {
        return false, who;
      }
      match parsed.end {
        case Idle => return true, who;
        case Refused => return false, who;
        case Page(n) =>
          ErrorPage(conn, n);
          return false, who;
      }
    }

    /** echo_err_page: the client is only written to from now on. */
    method ErrorPage(conn: Conn, n: nat)
      requires Inv() && Handling(conn) && conn.client && conn.status == WORKING
      modifies conn`status, conn`unsent
      ensures Inv() && Handling(conn) && conn.status == CLOSING_WRITE && conn.unsent == old(conn.unsent) + n
      ensures View() == Paged(old(View()), conn, n)
      ensures old(AllLive()) ==> AllLive()
    {
      hide NoEnd, HasClose, NoPeerClose, AllClose, Order, Pending, View;
      assert forall x <- conns :: Settled(x);
      conn.unsent := conn.unsent + n;
      conn.status := CLOSING_WRITE;
      assert forall x <- conns :: x != conn ==> old(Settled(x));
      assert forall x <- conns :: Settled(x);
      LookChanged(conn);
    }

    /** The bytes go to the peer's write buffer, and a working peer gets a job to send them. */
    method ForwardTo(conn: Conn, n: nat)
      requires Inv() && Handling(conn) && conn.client && conn.status == WORKING && conn.peer != null
      modifies conn.peer`unsent, `jobs
      ensures Inv() && Handling(conn) && (old(AllLive()) ==> AllLive())
      ensures View() == Given(old(View()), conn, n) && conn.unsent == old(conn.unsent)
    {
      hide Inv, AllLive, Added;
      InUse(conn);
      var peer := conn.peer;
      peer.unsent := peer.unsent + n;
      assert View() == WithLook(old(View()), peer, Look(peer.status, peer.peer, peer.unsent, peer.waits));
      if peer.status == WORKING {
        AddWork(OUT, peer);
      }
    }

    /** What may be delivered: closing events only to a connection that its peer does not rely on any more, and
        other events only to one whose peer pointer is good. */
    ghost predicate Deliverable(events: set<Event>, conn: Conn)
      reads `conns, `revived, `jobs, `cur, `running, conns`status, conns`peer, conn`status, conn`peer
    {
      && (PEERCLOSE in events ==> conn.peer == null)
      && (CLOSE in events ==> Dead(conn) || conn.peer == null)
      && (Ends(events) ==> forall x <- conns :: Dead(x) && x.peer == conn && x != conn ==> AllClose(jobs, Next(), x))
      && (CLOSE !in events && conn.peer != null ==> conn.peer in conns)
    }

    /** The invariant, up to a connection that is being deleted. */
    ghost predicate InvFor(events: set<Event>, conn: Conn)
      reads `conns, `revived, `jobs, `cur, `running, `late, conns`status, conns`peer
    {
      && Paired() && Queued() && Unended() && Ended()
      && (forall x <- conns :: x != conn || CLOSE !in events ==> Settled(x))
    }

    /** The part of client_handle and backend_handle that closes. */
    method HandleEnd(events: set<Event>, conn: Conn) returns (more: set<Event>, gone: bool)
      requires InvFor(events, conn) && Handling(conn) && Deliverable(events, conn)
      modifies `jobs, `conns, `late, conn`status
      ensures Inv() && conns == (if gone then old(conns) - {conn} else old(conns))
      ensures (running ==> cur < |jobs| && jobs[cur].conn == conn)
      ensures gone <==> CLOSE in events || (PEERCLOSE in events && conn.unsent == 0)
      ensures !gone ==> Handling(conn) && (conn.peer != null ==> conn.peer in conns) && jobs == old(jobs)
      ensures more == if PEERCLOSE in events && conn.unsent > 0 then events + {OUT} else events
      ensures PEERCLOSE in events && !gone ==> conn.status == CLOSING_WRITE && conn.peer == null
      ensures View() ==
        if PEERCLOSE in events && old(conn.unsent) > 0 then
          if gone then Deleted(Lingering(old(View()), conn), conn) else Lingering(old(View()), conn)
        else if gone then Deleted(old(View()), conn)
        else old(View())
      ensures old(AllLive()) && !gone ==> AllLive()
    {
      more, gone := events, false;
      if PEERCLOSE in events {
        var again := HandlePeerClose(conn);
        if again {
          more := events + {OUT};
        }
        if !again || CLOSE in events {
          HandleThisClose(conn);
          return more, true;
        }
      } else if CLOSE in events {
        HandleThisClose(conn);
        return more, true;
      }
    }

    /** client_handle: CLOSE deletes the connection, and so does PEERCLOSE once everything is sent. */
    method ClientHandle(events: set<Event>, conn: Conn, i: Input) returns (ghost who: seq<Conn>)
      requires InvFor(events, conn) && Handling(conn) && Deliverable(events, conn) && conn.client
      modifies this`conns, this`jobs, this`late, conns
      ensures Inv() && (running ==> cur < |jobs|) && (conn in conns ==> Handling(conn))
      ensures cur == old(cur) && running == old(running) && revived == old(revived)
      ensures |who| == |i.parsed.steps| && Introduced(old(View()), conn, events, i.parsed, who)
      ensures View() == Handled(old(View()), conn, events, i, who)
      ensures conn !in conns <==> CLOSE in events || (PEERCLOSE in events && old(conn.unsent) == 0)
      ensures old(AllLive()) && conn in conns ==> AllLive()
      ensures fresh(conns - old(conns))
      ensures old(conn.status) == CLOSING_WRITE && conn in conns && conn.status == CLOSED ==>
        conn.unsent == 0 || ERR in events || HUP in events
    {
      hide Paired, Queued, Unended, Stale, Ended, AllLive, ThisClosed, ClientServed, View;
      Seen(conn);
      if !Ends(events) {
        NotEnding(events, conn);
        who := ClientServe(events, conn, i.parsed, i.taken, i.wake);
        return;
      }
      var more, gone := HandleEnd(events, conn);
      if gone {
        who := seq(|i.parsed.steps|, _ => conn);
      } else {
        who := ClientServe(more, conn, i.parsed, i.taken, i.wake);
      }
    }

    lemma NotEnding(events: set<Event>, conn: Conn)
      requires InvFor(events, conn) && Handling(conn) && Deliverable(events, conn) && !Ends(events)
      ensures Inv() && (conn.peer != null ==> conn.peer in conns)
    {}

    /** The part of client_handle that reads and writes. */
    method ClientServe(events: set<Event>, conn: Conn, parsed: Parsed, taken: Taken, wake: bool)
      returns (ghost who: seq<Conn>)
      requires Inv() && Handling(conn) && conn.client && (conn.peer != null ==> conn.peer in conns)
      modifies this`conns, this`jobs, this`late, conns
      ensures Inv() && Handling(conn) && (old(AllLive()) ==> AllLive())
      ensures cur == old(cur) && running == old(running) && fresh(conns - old(conns)) && conns >= old(conns)
      ensures revived == old(revived)
      ensures Introduced(old(View()), conn, events, parsed, who)
      ensures View() == ClientServed(old(View()), conn, events, parsed, who, taken, wake)
      ensures old(conn.status) == CLOSING_WRITE && conn.status == CLOSED ==>
        conn.unsent == 0 || ERR in events || HUP in events
    {
      hide Paired, Queued, Unended, Stale, Ended, AllLive, ThisClosed, View, ClientRead, ClientWritten, Closed;
      who := seq(|parsed.steps|, _ => conn);
      Seen(conn);
      if ERR in events || HUP in events {
        SignalThisClose(conn);
      } else if IN in events {
        who := ClientServeIn(events, conn, parsed, taken, wake);
      } else if OUT in events {
        ClientOut(conn, taken, wake);
      }
    }

    method ClientServeIn(events: set<Event>, conn: Conn, parsed: Parsed, taken: Taken, wake: bool)
      returns (ghost who: seq<Conn>)
      requires Inv() && Handling(conn) && conn.client && (conn.peer != null ==> conn.peer in conns)
      requires IN in events && ERR !in events && HUP !in events
      modifies this`conns, this`jobs, this`late, conns
      ensures Inv() && Handling(conn) && (old(AllLive()) ==> AllLive())
      ensures cur == old(cur) && running == old(running) && fresh(conns - old(conns)) && conns >= old(conns)
      ensures revived == old(revived)
      ensures old(conn.status) == CLOSING_WRITE && conn.status == CLOSED ==> conn.unsent == 0
      ensures Introduced(old(View()), conn, events, parsed, who)
      ensures View() == ClientServed(old(View()), conn, events, parsed, who, taken, wake)
    {
      hide Paired, Queued, Unended, Stale, Ended, AllLive, ThisClosed, View, All, ClientWritten, Closed, Paged;
      var more := events;
      who := seq(|parsed.steps|, _ => conn);
      Seen(conn);
      if conn.status != WORKING {
        if conn.status != CLOSING_WRITE {
          SignalThisClose(conn);
          return;
        }
      }
      var ok;
      ok, who := ClientIn(conn, parsed);
      Seen(conn);
      if !ok {
        if conn.status == CLOSING_WRITE {
          more := more + {OUT};
        } else {
          InUse(conn);
          SignalThisClose(conn);
          return;
        }
      }
      if OUT in more {
        InUse(conn);
        ClientOut(conn, taken, wake);
      }
    }

    /** FDEVENT_OUT on a client. */
    method ClientOut(conn: Conn, taken: Taken, wake: bool)
      requires Inv() && Handling(conn) && conn.client && (conn.peer != null ==> conn.peer in conns)
      modifies this`jobs, this`late, conns
      ensures Inv() && Handling(conn) && (old(AllLive()) ==> AllLive())
      ensures cur == old(cur) && running == old(running) && conns == old(conns) && revived == old(revived)
      ensures View() == ClientWritten(old(View()), conn, taken, wake)
      ensures conn.status == CLOSED ==> old(conn.status) == CLOSED || conn.unsent == 0
    {
      hide Paired, Queued, Unended, Stale, Ended, AllLive, View, Closed, ThisClosed;
      Seen(conn);
      var ret := HandleOut(conn, taken);
      if ret == OK {
        if conn.status == PEERCLOSED || conn.status == CLOSING_WRITE {
          SignalThisClose(conn);
          return;
        }
        if wake && conn.peer != null {
          GoodPeer(conn);
          AddWork(IN, conn.peer);
        }
      }
    }

    lemma GoodPeer(conn: Conn)
      requires Inv() && conn in conns && conn.peer != null
      ensures !Dead(conn) ==> conn.peer in conns && !Dead(conn.peer)
      ensures conn.peer in conns ==> !Dead(conn.peer) || conn.peer.peer == null
    {
      assert Settled(conn);
    }

    /** backend_handle_read: a working client gets the bytes and a job to send them. */
    method BackendIn(conn: Conn, n: nat) returns (ok: bool)
      requires Inv() && Handling(conn) && !conn.client && (conn.peer != null ==> conn.peer in conns)
      modifies this`jobs, conns`unsent
      ensures Inv() && Handling(conn) && (old(AllLive()) ==> AllLive())
      ensures ok == (conn.status == WORKING && conn.peer != null && conn.peer.status == WORKING)
      ensures View() == if ok then Relayed(old(View()), conn, n) else old(View())
    {
      hide Inv, AllLive, Added;
      if conn.status != WORKING {
        return false;
      }
      if conn.peer == null || conn.peer.status != WORKING {
        return false;
      }
      var peer := conn.peer;
      GoodPeer(conn);
      peer.unsent := peer.unsent + n;
      assert View() == WithLook(old(View()), peer, Look(peer.status, peer.peer, peer.unsent, peer.waits));
      if n > 0 {
        AddWork(OUT, peer);
      }
      return true;
    }

    /** backend_handle: CLOSE deletes the connection, and so does PEERCLOSE once everything is sent. */
    method BackendHandle(events: set<Event>, conn: Conn, i: Input) returns (ghost who: seq<Conn>)
      requires InvFor(events, conn) && Handling(conn) && Deliverable(events, conn) && !conn.client
      modifies this`conns, this`jobs, this`late, conns
      ensures Inv() && (running ==> cur < |jobs|) && (conn in conns ==> Handling(conn))
      ensures cur == old(cur) && running == old(running) && revived == old(revived)
      ensures |who| == |i.parsed.steps| && Introduced(old(View()), conn, events, i.parsed, who)
      ensures View() == Handled(old(View()), conn, events, i, who)
      ensures conns
        == old(conns) - (if CLOSE in events || (PEERCLOSE in events && old(conn.unsent) == 0) then {conn} else {})
      ensures old(AllLive()) && conn in conns ==> AllLive()
    {
      hide Paired, Queued, Unended, Stale, Ended, AllLive, BackendServed, View;
      who := seq(|i.parsed.steps|, _ => conn);
      Seen(conn);
      if !Ends(events) {
        NotEnding(events, conn);
        BackendServe(events, conn, i.n, i.readok, i.taken, i.wake);
        return;
      }
      var more, gone := HandleEnd(events, conn);
      if !gone {
        BackendServe(more, conn, i.n, i.readok, i.taken, i.wake);
      }
    }

    /** The part of backend_handle that reads and writes. */
    method BackendServe(events: set<Event>, conn: Conn, n: nat, readok: bool, taken: Taken, wake: bool)
      requires Inv() && Handling(conn) && !conn.client && (conn.peer != null ==> conn.peer in conns)
      modifies this`jobs, this`late, conns
      ensures Inv() && Handling(conn) && (old(AllLive()) ==> AllLive())
      ensures View() == BackendServed(old(View()), conn, events, n, readok, taken, wake)
    {
      hide Paired, Queued, Unended, Stale, Ended, AllLive, ThisClosed, View, Closed, BackendWritten, Relayed;
      Seen(conn);
      if conn.peer != null { Seen(conn.peer); }
      if ERR in events || HUP in events {
        SignalThisClose(conn);
        return;
      }
      if IN in events {
        if !readok || conn.status != WORKING || conn.peer == null || conn.peer.status != WORKING {
          SignalThisClose(conn);
          return;
        }
        var ok := BackendIn(conn, n);
      }
      if OUT in events {
        BackendOut(conn, taken, wake);
      }
    }

    /** FDEVENT_OUT on a backend. */
    method BackendOut(conn: Conn, taken: Taken, wake: bool)
      requires Inv() && Handling(conn) && !conn.client && (conn.peer != null ==> conn.peer in conns)
      modifies this`jobs, this`late, conns
      ensures Inv() && Handling(conn) && (old(AllLive()) ==> AllLive())
      ensures View() == BackendWritten(old(View()), conn, taken, wake)
    {
      hide Inv, AllLive, ThisClosed, View, Closed, Unsent, Added;
      Seen(conn);
      if conn.status != CONNECTING && conn.status != WORKING {
        SignalThisClose(conn);
        return;
      }
      if conn.status == CONNECTING {
        ConnectedFirst(View(), conn, taken, wake);
        Connected(conn);
      }
      BackendSend(conn, taken, wake);
    }

    method BackendSend(conn: Conn, taken: Taken, wake: bool)
      requires Inv() && Handling(conn) && !conn.client && conn.status == WORKING
      requires conn.peer != null ==> conn.peer in conns
      modifies this`jobs, this`late, conns
      ensures Inv() && Handling(conn) && (old(AllLive()) ==> AllLive())
      ensures View() == BackendWritten(old(View()), conn, taken, wake)
    {
      hide Inv, AllLive, View, Closed, Unsent, Added;
      Seen(conn);
      var ret := HandleOut(conn, taken);
      if ret == OK && wake && conn.peer != null {
        GoodPeer(conn);
        AddWork(IN, conn.peer);
      }
    }

    /** `conn->status = CONSTAT_WORKING` once the connection to the server stands. */
    method Connected(conn: Conn)
      requires Inv() && Handling(conn) && !conn.client && conn.status == CONNECTING
      modifies conn`status
      ensures Inv() && Handling(conn) && conn.status == WORKING && (old(AllLive()) ==> AllLive())
      ensures View() == WithLook(old(View()), conn, Look(WORKING, conn.peer, conn.unsent, conn.waits))
    {
      hide NoEnd, HasClose, NoPeerClose, AllClose, Order, Pending, View;
      assert forall x <- conns :: Settled(x);
      conn.status := WORKING;
      assert forall x <- conns :: x != conn ==> old(Settled(x));
      assert forall x <- conns :: Settled(x);
      LookChanged(conn);
    }

    /** Before a job runs: the invariant with the job at `cur` gives what its delivery needs. */
    lemma JobDeliverable(conn: Conn)
      requires Inv() && !running && cur < |jobs| && !jobs[cur].deld && jobs[cur].conn == conn && conn in conns
      ensures var events := jobs[cur].events;
        && (PEERCLOSE in events ==> conn.peer == null)
        && (CLOSE in events ==> Dead(conn) || conn.peer == null)
        && (Ends(events) ==> forall x <- conns :: Dead(x) && x.peer == conn && x != conn ==> AllClose(jobs, cur + 1, x))
        && (CLOSE !in events && conn.peer != null ==> conn.peer in conns)
    {}

    /** The first job is no longer pending once it runs. */
    lemma Later(was: nat)
      requires was < |jobs| && Next() == was + 1
      ensures forall x <- conns :: NoEnd(jobs, was, x) ==> NoEnd(jobs, was + 1, x)
      ensures forall x <- conns :: HasClose(jobs, was + 1, x) ==> HasClose(jobs, was, x)
      ensures forall x <- conns ::
        HasClose(jobs, was, x) && (jobs[was].deld || jobs[was].conn != x || CLOSE !in jobs[was].events) ==>
        HasClose(jobs, was + 1, x)
      ensures forall x <- conns :: NoPeerClose(jobs, was, x) ==> NoPeerClose(jobs, was + 1, x)
      ensures forall x <- conns :: AllClose(jobs, was, x) ==> AllClose(jobs, was + 1, x)
      ensures forall x, y :: x in conns && y in conns && Order(jobs, was, x, y) ==> Order(jobs, was + 1, x, y)
    {}

    /** `job->conn->event_handle( job->events, job->conn ); job_del( job )` and job_getnext */
    method RunJob(i: Input) returns (ghost who: seq<Conn>)
      requires Inv() && !running && cur < |jobs|
      modifies this`conns, this`jobs, this`late, this`cur, this`running, conns
      ensures Inv() && !running && cur == old(cur) + 1 && fresh(conns - old(conns)) && revived == old(revived)
      ensures |who| == |i.parsed.steps|
      ensures old(!jobs[cur].deld) ==>
        Introduced(old(View()), old(jobs[cur].conn), old(jobs[cur].events), i.parsed, who)
      ensures View() == Ran(old(View()), old(cur), i, who)
      ensures var job := old(jobs[cur]); !job.deld && CLOSE in job.events ==> job.conn !in conns
    {
      hide Paired, Unended, Stale, Ended, Handled, View, Introduced;
      var conn := jobs[cur].conn;
      who := seq(|i.parsed.steps|, _ => conn);
      Seen(conn);
      if jobs[cur].deld {
        Skip();
      } else {
        who := RunOne(conn, i);
      }
    }

    method RunOne(conn: Conn, i: Input) returns (ghost who: seq<Conn>)
      requires Inv() && !running && cur < |jobs| && !jobs[cur].deld && jobs[cur].conn == conn && conn in conns
      modifies this`conns, this`jobs, this`late, this`cur, this`running, conns
      ensures Inv() && !running && cur == old(cur) + 1 && fresh(conns - old(conns)) && revived == old(revived)
      ensures |who| == |i.parsed.steps| && Introduced(old(View()), conn, old(jobs[cur].events), i.parsed, who)
      ensures View() == Ran(old(View()), old(cur), i, who)
      ensures old(CLOSE in jobs[cur].events) ==> conn !in conns
    {
      hide Unended, Stale, Ended, ThisClosed, Handled, View, Introduced;
      Seen(conn);
      JobDeliverable(conn);
      hide Paired, Queued;
      Start(conn);
      if conn.client {
        who := ClientHandle(jobs[cur].events, conn, i);
      } else {
        who := BackendHandle(jobs[cur].events, conn, i);
      }
      Seen(conn);
      Finish();
    }

    /** A marked job is passed over. */
    method Skip()
      requires Inv() && !running && cur < |jobs| && jobs[cur].deld
      modifies `cur
      ensures Inv() && cur == old(cur) + 1 && View() == old(View())
    {
      hide NoEnd, HasClose, NoPeerClose, AllClose, Order, Pending, View;
      ghost var was := cur;
      assert forall x <- conns :: Settled(x);
      cur := cur + 1;
      Later(was);
      assert forall x <- conns :: Settled(x);
      LooksKept();
    }

    /** A job begins to run; from now on it is not pending any more. */
    method Start(conn: Conn)
      requires Inv() && !running && cur < |jobs| && !jobs[cur].deld && jobs[cur].conn == conn
      modifies `running
      ensures running && InvFor(jobs[cur].events, conn) && Handling(conn) && View() == old(View())
    {
      hide NoEnd, HasClose, NoPeerClose, AllClose, Order, Pending, View;
      ghost var was := cur;
      assert forall x <- conns :: Settled(x);
      running := true;
      Later(was);
      LooksKept();
    }

    /** `job_del( job )` behind the handler: what was added to the running job in the meantime is dropped. */
    method Finish()
      requires Inv() && running && cur < |jobs|
      modifies `running, `jobs, `cur
      ensures Inv() && !running && cur == old(cur) + 1
      ensures View() == old(View()).(jobs := Done(old(jobs), old(cur)))
    {
      hide NoEnd, HasClose, NoPeerClose, AllClose, Order, Pending, View;
      ghost var was, next := jobs, Next();
      assert forall x <- conns :: Settled(x);
      jobs := Done(jobs, cur);
      cur := cur + 1;
      running := false;
      SamePending(was, next);
      assert forall x <- conns :: Settled(x);
      LooksKept();
    }

    lemma SamePending(was: seq<Job>, next: nat)
      requires |jobs| == |was| && forall i :: next <= i < |jobs| ==> jobs[i] == was[i]
      ensures forall x <- conns :: NoEnd(jobs, next, x) <==> NoEnd(was, next, x)
      ensures forall x <- conns :: HasClose(jobs, next, x) <==> HasClose(was, next, x)
      ensures forall x <- conns :: NoPeerClose(jobs, next, x) <==> NoPeerClose(was, next, x)
      ensures forall x <- conns :: AllClose(jobs, next, x) <==> AllClose(was, next, x)
      ensures forall x, y :: x in conns && y in conns ==> (Order(jobs, next, x, y) <==> Order(was, next, x, y))
    {}

    /** job_clear */
    method JobClear()
      modifies `jobs
      ensures jobs == Unmarked(old(jobs))
    {
      var q, kept := 0, [];
      while q < |jobs|
        invariant q <= |jobs| && kept == Unmarked(jobs[..q])
      {
        assert jobs[..q + 1][..q] == jobs[..q];
        if !jobs[q].deld {
          kept := kept + [jobs[q]];
        }
        q := q + 1;
      }
      assert jobs[..q] == jobs;
      jobs := kept;
    }

    /** The end of the job loop: the queue is empty, and every closed connection that had a peer is deleted. */
    method EndJobs()
      requires Inv() && !running && cur == |jobs|
      modifies `jobs, `cur
      ensures Inv() && jobs == [] && cur == 0 && AllLive() && View() == old(View()).(jobs := [])
      ensures forall x <- conns :: Dead(x) ==> x.peer == null
    {
      hide View;
      NoneLeft();
      AllMarked(jobs);
      JobClear();
      cur := 0;
      LooksKept();
    }

    lemma NoneLeft()
      requires Inv() && !running && cur == |jobs|
      ensures forall x <- conns :: Dead(x) ==> x.peer == null
    {}

    /** An event of epoll_wait; those for closing only come through jobs. */
    method EpollEvent(x: Conn, events: set<Event>, i: Input) returns (ghost who: seq<Conn>)
      requires Inv() && AllLive() && !running && cur == 0 && x in conns && !Ends(events)
      modifies this`conns, this`jobs, this`late, conns
      ensures Inv() && AllLive() && !running && cur == 0 && fresh(conns - old(conns)) && revived == old(revived)
      ensures Introduced(old(View()), x, events, i.parsed, who)
      ensures View() == Served(old(View()), x, events, i, who)
    {
      hide Served, Paired, Queued, Unended, Ended, View;
      assert forall y <- conns :: Settled(y);
      Seen(x);
      if x.client {
        who := ClientHandle(events, x, i);
      } else {
        who := BackendHandle(events, x, i);
      }
    }

    /** The closes that are no answer to an event of the connection itself: time_handle closes one without traffic,
        and close_all_conns_same_ipport those of a forbidden user. */
    method Close(x: Conn)
      requires Inv() && AllLive() && !running && cur == 0 && x in conns
      modifies this`jobs, this`late, conns
      ensures Inv() && AllLive() && !running && cur == 0 && conns == old(conns) && revived == old(revived)
      ensures View() == Closed(old(View()), x)
    {
      hide Closed;
      SignalThisClose(x);
    }

    /** dns_wakeup_conn and dns_delconn: the address of a waiting backend has come, whatever has happened to the
        backend in the meantime. */
    method Reply(x: Conn, start: Start)
      requires Inv() && AllLive() && !running && cur == 0 && x in conns && !x.client
      modifies this`jobs, this`late, this`revived, conns
      ensures Inv() && AllLive() && !running && cur == 0 && !x.waits
      ensures conns == old(conns) && View() == Replied(old(View()), x, start)
      ensures revived ==
        if (start.Up? || start.Underway?) && old(x.status) == CLOSED then old(revived) + {x} else old(revived)
    {
      hide Inv, AllLive, ThisClosed, Closed, View;
      LiveOne(x);
      Seen(x);
      if start == Up || start == Underway {
        Revive(x, StatusOf(start));
      } else {
        SignalThisClose(x);
      }
      Seen(x);
      label Answered:
      x.waits := false;
      LookChanged@Answered(x);
    }

    lemma LiveOne(x: Conn)
      requires AllLive() && x in conns
      ensures x.peer != null ==> x.peer in conns
    {}

    method Revive(x: Conn, status: Status)
      requires Inv() && AllLive() && x in conns && !x.client && status in {CONNECTING, WORKING}
      modifies this`revived, x`status
      ensures Inv() && AllLive() && x.status == status
      ensures View() == WithLook(old(View()), x, Look(status, x.peer, x.unsent, x.waits))
      ensures revived == if old(x.status) == CLOSED then old(revived) + {x} else old(revived)
    {
      hide Inv, AllLive, View;
      Restart(x, status);
      LookChanged(x);
    }

    method Restart(x: Conn, status: Status)
      requires Inv() && AllLive() && x in conns && !x.client && status in {CONNECTING, WORKING}
      modifies this`revived, x`status
      ensures Inv() && AllLive() && x.status == status
      ensures revived == if old(x.status) == CLOSED then old(revived) + {x} else old(revived)
    {
      hide NoEnd, HasClose, NoPeerClose, AllClose, Order, Pending, View;
      assert forall y <- conns :: Settled(y);
      if x.status == CLOSED {
        revived := revived + {x};
      }
      x.status := status;
      assert forall y <- conns :: old(Settled(y));
      assert forall y <- conns :: Settled(y);
    }

    /** A new client. */
    method Accept() returns (c: Conn)
      requires Inv() && AllLive()
      modifies `conns
      ensures Inv() && AllLive() && conns == old(conns) + {c} && fresh(c)
      ensures c.client && View() == WithLook(old(View()), c, Look(WORKING, null, 0, false))
    {
      hide Inv, AllLive;
      ghost var q, l, r := jobs, late, revived;
      assert allocated(q) && allocated(l) && allocated(r);
      c := new Conn(true, WORKING, null, false);
      assert forall x <- conns :: x.peer != c;
      assert forall i :: 0 <= i < |jobs| ==> jobs[i].conn != c;
      Welcome(c);
    }

    method Welcome(c: Conn)
      requires Inv() && AllLive() && c.client && c.status == WORKING && c.peer == null
      requires c !in conns && c !in revived && (forall x <- conns :: x.peer != c)
      requires forall i :: 0 <= i < |jobs| ==> jobs[i].conn != c
      modifies `conns
      ensures Inv() && AllLive() && conns == old(conns) + {c}
      ensures View() == WithLook(old(View()), c, Look(c.status, c.peer, c.unsent, c.waits))
    {
      assert forall x <- conns :: Settled(x);
      conns := conns + {c};
      assert forall x <- old(conns) :: old(Settled(x));
      assert forall x <- conns :: Settled(x);
    }
  }

  /** One thing that the main loop does next, with everything the outside decides about it. Connections are closed
      from outside, and addresses come, only before the jobs run: time_handle is the first call of a round, and
      neither the resolver nor the policy server has a job that reads. */
  datatype Action =
    | NewClient
    | Timeout
    | Address(start: Start)
    | Epoll(events: set<Event>, input: Input)
    | NextJob(input: Input)

  /** Every run of the main loop, stopped anywhere, keeps the invariant. */
  method Run(actions: seq<Action>) returns (s: Server)
    ensures fresh(s) && s.Inv()
  {
    hide Server.Inv, Server.AllLive, Served, Ran, Closed, Replied;
    s := new Server();
    Empty(s);
    var inJobs := false;
    for i := 0 to |actions|
      invariant fresh(s) && fresh(s.conns) && s.Inv() && !s.running && (!inJobs ==> s.cur == 0 && s.AllLive())
    {
      match actions[i] {
        case NewClient =>
          if !inJobs {
            var c := s.Accept();
          }
        case Timeout =>
          if !inJobs {
            if x :| x in s.conns {
              s.Close(x);
            }
          }
        case Address(start) =>
          if !inJobs {
            if x :| x in s.conns && x.waits && !x.client {
              s.Reply(x, start);
            }
          }
        case Epoll(events, input) =>
          if !inJobs && CLOSE !in events && PEERCLOSE !in events {
            if x :| x in s.conns {
              ghost var _ := s.EpollEvent(x, events, input);
            }
          }
        case NextJob(input) =>
          inJobs := true;
          if s.cur < |s.jobs| {
            ghost var _ := s.RunJob(input);
          } else {
            AtEnd(s);
            s.EndJobs();
            inJobs := false;
          }
      }
    }
  }

  lemma Empty(s: Server)
    requires s.conns == {} && s.jobs == [] && s.cur == 0 && !s.running
    ensures s.Inv() && s.AllLive()
  {}

  lemma AtEnd(s: Server)
    requires s.Inv() && !s.running && s.cur >= |s.jobs|
    ensures s.cur == |s.jobs|
  {}

  /** What the invariant says about closing. */
  lemma Safety(s: Server)
    requires s.Inv()
    ensures forall x <- s.conns :: x.status != CLOSED && x !in s.revived && x.peer != null ==>
      x.peer in s.conns && x.peer.status != CLOSED && x.peer.peer == x
    ensures forall i :: 0 <= i < |s.jobs| && !s.jobs[i].deld ==> s.jobs[i].conn in s.conns
    ensures forall x <- s.conns :: x.status == CLOSING_WRITE && HasClose(s.jobs, s.Next(), x) ==>
      x in s.late + s.revived
    ensures !s.running && s.cur < |s.jobs| && !s.jobs[s.cur].deld && CLOSE !in s.jobs[s.cur].events ==>
      var p := s.jobs[s.cur].conn.peer; p != null ==> p in s.conns
  {
    if !s.running && s.cur < |s.jobs| && !s.jobs[s.cur].deld && CLOSE !in s.jobs[s.cur].events {
      s.JobDeliverable(s.jobs[s.cur].conn);
    }
  }

  function Parsing(steps: seq<Step>): Input { Input(Parsed(steps, Idle), 0, false, Broken, false) }

  function Quiet(n: nat, taken: Taken): Input { Input(Parsed([], Idle), n, true, taken, false) }

  /** A client and its backend, as values. */
  function Two(c: Conn, client: Look, b: Conn, backend: Look, jobs: seq<Job>): State {
    State(map[c := client, b := backend], jobs, {})
  }

  /** A client that has asked for something, and its backend, still on its way with the request unsent. */
  function Waiting(c: Conn, b: Conn, start: Start): State {
    Two(c, Look(WORKING, b, 0, false), b, Look(StatusOf(start), c, 7, start.Asking?),
        if start.Up? then [Job(b, {OUT}, false)] else [])
  }

  lemma FirstRequest(s: State, c: Conn, start: Start, b: Conn)
    requires s == State(map[c := Look(WORKING, null, 0, false)], [], {}) && c.client
    requires !start.Unasked? && !start.Failed?
    ensures var r := Served(s, c, {IN}, Parsing([Request(false, 7, start)]), [b]).looks; c in r && r[c].peer == b
    ensures b != c ==> Served(s, c, {IN}, Parsing([Request(false, 7, start)]), [b]) == Waiting(c, b, start)
  {
    hide All;
    AllOne(s, c, Request(false, 7, start), b);
    assert ClientRead(s, c, Parsed([Request(false, 7, start)], Idle), [b], false, Broken, false)
      == Round(s, c, Request(false, 7, start), b).state;
    if b != c {
      assert Round(s, c, Request(false, 7, start), b).state.looks == Waiting(c, b, start).looks;
    }
  }

  method Asked(start: Start) returns (s: Server, c: Conn, b: Conn)
    requires !start.Unasked? && !start.Failed?
    ensures fresh(s) && fresh(c) && fresh(b) && s.Inv() && s.AllLive() && s.cur == 0 && !s.running && s.revived == {}
    ensures c != b && c.client && !b.client && s.conns == {c, b} && s.View() == Waiting(c, b, start)
  {
    hide Server.Inv, Server.AllLive, Server.View, Served;
    s := new Server();
    Empty(s);
    NobodyThere(s);
    c := s.Accept();
    ghost var v := s.View();
    assert v == State(map[c := Look(WORKING, null, 0, false)], [], {});
    ghost var who := s.EpollEvent(c, {IN}, Parsing([Request(false, 7, start)]));
    assert who == [who[0]];
    FirstRequest(v, c, start, who[0]);
    s.Seen(c);
    s.InvOther(c);
    b := c.peer;
    s.Seen(b);
  }

  lemma NobodyThere(s: Server)
    requires s.conns == {} && s.jobs == [] && s.late == {}
    ensures s.View() == State(map[], [], {})
  {}

  lemma FirstSent(c: Conn, b: Conn)
    requires c != b && !b.client
    ensures Ran(Waiting(c, b, Up), 0, Quiet(0, Bytes(7)), [])
      == Two(c, Look(WORKING, b, 0, false), b, Look(WORKING, c, 0, false), [Job(b, {OUT}, true)])
  {}

  /** The request is sent. */
  method Sent() returns (s: Server, c: Conn, b: Conn)
    ensures fresh(s) && fresh(c) && fresh(b) && s.Inv() && s.AllLive() && s.cur == 0 && !s.running && s.revived == {}
    ensures c != b && c.client && !b.client && s.conns == {c, b}
    ensures s.View() == Two(c, Look(WORKING, b, 0, false), b, Look(WORKING, c, 0, false), [])
  {
    hide Server.Inv, Server.AllLive, Server.View, Ran;
    s, c, b := Asked(Up);
    s.Seen(b);
    FirstSent(c, b);
    ghost var who := s.RunJob(Quiet(0, Bytes(7)));
    assert who == [];
    s.Seen(b);
    s.EndJobs();
    s.Seen(b);
  }

  lemma AnswerCome(c: Conn, b: Conn)
    requires c != b && c.client && !b.client
    ensures var client, backend := Look(WORKING, b, 0, false), Look(WORKING, c, 0, false);
      Served(Two(c, client, b, backend, []), b, {IN}, Quiet(5, Broken), [])
        == Two(c, client.(unsent := 5), b, backend, [Job(c, {OUT}, false)])
  {
    hide ClientServed, Closed, BackendWritten;
  }

  lemma AnswerRefused(c: Conn, b: Conn)
    requires c != b && c.client && !b.client
    ensures var client, backend := Look(WORKING, b, 5, false), Look(WORKING, c, 0, false);
      Ran(Two(c, client, b, backend, [Job(c, {OUT}, false)]), 0, Quiet(0, Bytes(0)), [])
        == Two(c, client, b, backend, [Job(c, {OUT}, true)])
  {
    hide BackendServed, Closed, ClientRead, Deleted, Lingering;
  }

  /** The backend has answered with five bytes, and the client has taken none of them. */
  method Stuck() returns (s: Server, c: Conn, b: Conn)
    ensures fresh(s) && fresh(c) && fresh(b) && s.Inv() && s.AllLive() && s.cur == 0 && !s.running && s.revived == {}
    ensures c != b && c.client && !b.client && s.conns == {c, b}
    ensures s.View() == Two(c, Look(WORKING, b, 5, false), b, Look(WORKING, c, 0, false), [])
  {
    hide Server.Inv, Server.AllLive, Server.View, Served, Ran;
    s, c, b := Sent();
    AnswerCome(c, b);
    AnswerRefused(c, b);
    ghost var who := s.EpollEvent(b, {IN}, Quiet(5, Broken));
    assert who == [];
    s.Seen(b);
    who := s.RunJob(Quiet(0, Bytes(0)));
    assert who == [];
    s.Seen(b);
    s.EndJobs();
    s.Seen(b);
  }

  /** The jobs of a backend that hung up and of a client that was read after that. */
  function Three(c: Conn, b: Conn, done: bool): seq<Job> {
    [Job(c, {PEERCLOSE}, done), Job(b, {CLOSE}, false), Job(c, {CLOSE}, false)]
  }

  lemma BackendCloses(c: Conn, client: Look, b: Conn, backend: Look)
    requires c != b && backend.peer == c && client.status != CLOSED
    ensures Closed(Two(c, client, b, backend, []), b)
      == Two(c, client.(status := PEERCLOSED, peer := null), b, backend.(status := CLOSED), Three(c, b, false)[..2])
  {
    var v, w := Two(c, client, b, backend, []), backend.(status := CLOSED);
    assert v.looks[b := w] == map[c := client, b := w];
    assert map[c := client, b := w][c := client.(status := PEERCLOSED, peer := null)]
      == map[c := client.(status := PEERCLOSED, peer := null), b := w];
    assert Three(c, b, false)[..2] == [Job(c, {PEERCLOSE}, false), Job(b, {CLOSE}, false)];
  }

  function HungUp(c: Conn, b: Conn): State {
    Two(c, Look(PEERCLOSED, null, 5, false), b, Look(CLOSED, c, 0, false), Three(c, b, false)[..2])
  }

  lemma BackendHup(c: Conn, b: Conn)
    requires c != b && !b.client
    ensures Served(Two(c, Look(WORKING, b, 5, false), b, Look(WORKING, c, 0, false), []), b, {HUP},
                   Quiet(0, Broken), [])
      == HungUp(c, b)
  {
    hide Closed;
    BackendCloses(c, Look(WORKING, b, 5, false), b, Look(WORKING, c, 0, false));
  }

  lemma ClientIsRead(c: Conn, b: Conn)
    requires c != b && c.client
    ensures Served(HungUp(c, b), c, {IN}, Quiet(0, Broken), [])
      == Two(c, Look(CLOSED, null, 5, false), b, Look(CLOSED, c, 0, false), Three(c, b, false))
  {
    assert Three(c, b, false)[..2] == [Job(c, {PEERCLOSE}, false), Job(b, {CLOSE}, false)];
  }

  lemma LateCome(c: Conn, b: Conn)
    requires c != b && c.client && !b.client
    ensures var backend := Look(CLOSED, c, 0, false);
      Ran(Two(c, Look(CLOSED, null, 5, false), b, backend, Three(c, b, false)), 0, Quiet(0, Bytes(0)), [])
        == Two(c, Look(CLOSING_WRITE, null, 5, false), b, backend, Three(c, b, true)).(late := {c})
  {
    hide Added;
  }

  /** The late peer-close: the backend hangs up, and in the same round there is something to read on the client.
      Afterwards the client is in CLOSING_WRITE, with five bytes to send and a job that deletes it. */
  method LateExample() returns (s: Server, c: Conn)
    ensures s.Inv() && c in s.conns && c.client && c.status == CLOSING_WRITE && c.unsent == 5
    ensures HasClose(s.jobs, s.Next(), c)
    ensures c in s.late
  {
    hide Server.Inv, Server.AllLive, Server.View, Served, Ran;
    var b;
    s, c, b := Stuck();
    BackendHup(c, b);
    ClientIsRead(c, b);
    ghost var who := s.EpollEvent(b, {HUP}, Quiet(0, Broken));
    assert who == [];
    s.Seen(c);
    who := s.EpollEvent(c, {IN}, Quiet(0, Broken));
    assert who == [];
    s.Seen(c);
    LateCome(c, b);
    who := s.RunJob(Quiet(0, Bytes(0)));
    assert who == [];
    s.Seen(c);
    assert Pending(s.jobs, 1, 2, c);
  }

  lemma AddressLate(c: Conn, b: Conn)
    requires c != b
    ensures var v := Two(c, Look(PEERCLOSED, null, 0, false), b, Look(CLOSED, c, 7, true), Three(c, b, false)[..2]);
      && Closed(Waiting(c, b, Asking), b) == v
      && Replied(v, b, Underway)
        == Two(c, Look(PEERCLOSED, null, 0, false), b, Look(CONNECTING, c, 7, false), Three(c, b, false)[..2])
  {
    hide Closed;
    BackendCloses(c, Look(WORKING, b, 0, false), b, Look(INIT, c, 7, true));
  }

  /** An address that comes too late: the backend was closed in the same round, and is connecting again, with a job
      that deletes it. */
  method RevivedExample() returns (s: Server, b: Conn)
    ensures s.Inv() && b in s.conns && b.status == CONNECTING && b in s.revived && HasClose(s.jobs, s.Next(), b)
  {
    hide Server.Inv, Server.AllLive, Server.View, Closed, Replied;
    var c;
    s, c, b := Asked(Asking);
    AddressLate(c, b);
    s.Close(b);
    s.Seen(b);
    s.Reply(b, Underway);
    s.Seen(b);
    assert Pending(s.jobs, 0, 1, b);
  }

  lemma TurnedAway(c: Conn, b: Conn, d: Conn)
    requires c != b && c.client && !b.client
    ensures var r := Served(Waiting(c, b, Underway), c, {IN}, Parsing([Request(true, 0, Underway)]), [d]);
      && c in r.looks && r.looks[c].peer == d
      && (d != b && d != c ==>
            b in r.looks && r.looks[b] == Look(PEERCLOSED, null, 7, false) && r.jobs == [Job(b, {PEERCLOSE}, false)])
  {
    hide All;
    AllOne(Waiting(c, b, Underway), c, Request(true, 0, Underway), d);
  }

  lemma CloseLost(s: State, b: Conn)
    requires b in s.looks && !b.client && s.looks[b] == Look(PEERCLOSED, null, 7, false)
    requires s.jobs == [Job(b, {PEERCLOSE}, false)]
    ensures var r := Ran(s, 0, Quiet(0, Broken), []);
      b in r.looks && r.looks[b] == Look(CLOSED, null, 7, false) && |r.jobs| == 1
  {}

  /** The lost CLOSE: the client turns to another server while its backend is still connecting. Afterwards the old
      backend is CLOSED, nothing deletes it, and nobody else refers to it. */
  method LostExample() returns (s: Server, b: Conn)
    ensures s.Inv() && b in s.conns && b.status == CLOSED && b.peer == null && s.jobs == [] && s.cur == 0 && !s.running
  {
    hide Server.Inv, Server.AllLive, Server.View, Served, Ran;
    var c;
    s, c, b := Asked(Underway);
    s.Seen(c);
    ghost var who := s.EpollEvent(c, {IN}, Parsing([Request(true, 0, Underway)]));
    assert who == [who[0]];
    TurnedAway(c, b, who[0]);
    s.Seen(c);
    s.InvOther(c);
    s.Seen(b);
    CloseLost(s.View(), b);
    who := s.RunJob(Quiet(0, Broken));
    assert who == [];
    s.Seen(b);
    s.EndJobs();
    s.Seen(b);
  }
}
