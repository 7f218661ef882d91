/** One router object serving many connections whose loops take turns. */
module SharedRouter {
  import opened Bytes
  import opened Protocol
  import opened Framing
  import opened Messages
  import opened Server
  import opened Router
  import opened ServeLoop

  /** The first `k` elements, or all of them. */
  function First<T>(s: seq<T>, k: nat): seq<T> {
    if k <= |s| then s[..k] else s
  }

  /** That is, a prefix, as long as `k` allows. */
  lemma FirstIs<T>(s: seq<T>, k: nat)
    ensures First(s, k) <= s && |First(s, k)| == if k < |s| then k else |s|
  {
  }

  /** The turns of connection `c`. */
  function Turns(schedule: seq<nat>, c: nat): nat {
    if schedule == [] then 0
    else Turns(schedule[..|schedule| - 1], c) + if schedule[|schedule| - 1] == c then 1 else 0
  }

  lemma TurnsNext(schedule: seq<nat>, i: nat, c: nat)
    requires i < |schedule|
    ensures Turns(schedule[..i + 1], c) == Turns(schedule[..i], c) + if schedule[i] == c then 1 else 0
  {
    assert schedule[..i + 1][..i] == schedule[..i];
  }

  /** They are its occurrences in the schedule. */
  lemma {:induction false} TurnsCounted(schedule: seq<nat>, c: nat)
    ensures Turns(schedule, c) == multiset(schedule)[c]
  {
    if schedule != [] {
      var n := |schedule| - 1;
      TurnsCounted(schedule[..n], c);
      assert schedule == schedule[..n] + [schedule[n]];
    }
  }

  predicate Apart(a: ServerConnection, b: ServerConnection) {
    a != b && a.controlSend != b.controlSend && a.controlRecv != b.controlRecv
  }

  /** Different connections share no stream. */
  ghost predicate Separate(conns: seq<ServerConnection>) {
    forall c, d | 0 <= c < |conns| && 0 <= d < |conns| && c != d :: Apart(conns[c], conns[d])
  }

  /** A connection whose loop had `k` turns: of the requests `all` its stream held, it has handled the
      first `k`, and unless its loop has ended the others are still to be read. */
  ghost predicate Served(routes: Routes, conn: ServerConnection, running: bool,
                         all: seq<Request>, before: seq<Emission>, k: nat)
    reads conn, conn.controlSend, conn.controlRecv
  {
    && conn.Valid()
    && conn.log == before + LogFor(routes, First(all, k))
    && if running then all == First(all, k) + MessagesIn(SERVER, conn.controlRecv.Pending())
       else First(all, k) == all
  }

  lemma FirstNext<T>(all: seq<T>, k: nat, m: T, rest: seq<T>)
    requires all == First(all, k) + ([m] + rest)
    ensures First(all, k + 1) == First(all, k) + [m] && all == First(all, k + 1) + rest
  {
    assert k < |all| && all[k] == m;
  }

  /** One turn of one connection's loop. */
  method Turn(router: BxpRouter, conn: ServerConnection,
              ghost all: seq<Request>, ghost before: seq<Emission>, ghost k: nat) returns (running: bool)
    requires Served(router.routes, conn, true, all, before, k)
    modifies conn.controlRecv, conn.controlSend, conn`dataSent, conn`log
    ensures Served(router.routes, conn, running, all, before, k + 1)
  {
    var request := ReceiveNext(conn);
    running := request.Ok?;
    if running {
      FirstNext(all, k, request.value, MessagesIn(SERVER, conn.controlRecv.Pending()));
      HandleNext(router, conn, request.value, before, First(all, k));
    } else {
      EmptyRight(First(all, k));
    }
  }

  /** What the connections have to handle, what they had emitted before, and the turns they had. */
  datatype Ledger = Ledger(all: seq<seq<Request>>, before: seq<seq<Emission>>, turns: seq<nat>)

  ghost predicate AllServed(routes: Routes, conns: seq<ServerConnection>, running: seq<bool>, l: Ledger)
    reads conns
    reads set c | 0 <= c < |conns| :: conns[c].controlSend
    reads set c | 0 <= c < |conns| :: conns[c].controlRecv
  {
    && |running| == |l.all| == |l.before| == |l.turns| == |conns|
    && forall c | 0 <= c < |conns| :: Served(routes, conns[c], running[c], l.all[c], l.before[c], l.turns[c])
  }

  ghost function OpenLedger(conns: seq<ServerConnection>): (l: Ledger)
    reads conns
    reads set c | 0 <= c < |conns| :: conns[c].controlRecv
    ensures |l.all| == |l.before| == |l.turns| == |conns|
    ensures forall c | 0 <= c < |conns| ::
              && l.all[c] == MessagesIn(SERVER, conns[c].controlRecv.Pending())
              && l.before[c] == conns[c].log && l.turns[c] == 0
  {
    Ledger(seq(|conns|, c requires 0 <= c < |conns| reads set d | 0 <= d < |conns| :: conns[d].controlRecv =>
                 MessagesIn(SERVER, conns[c].controlRecv.Pending())),
           seq(|conns|, c requires 0 <= c < |conns| reads conns => conns[c].log),
           seq(|conns|, _ => 0))
  }

  lemma LedgerStart(routes: Routes, conns: seq<ServerConnection>, running: seq<bool>)
    requires forall c | 0 <= c < |conns| :: conns[c].Valid()
    requires |running| == |conns| && forall c | 0 <= c < |conns| :: running[c]
    ensures AllServed(routes, conns, running, OpenLedger(conns))
  {
    forall c | 0 <= c < |conns|
      ensures Served(routes, conns[c], true, MessagesIn(SERVER, conns[c].controlRecv.Pending()), conns[c].log, 0)
    {
      LogForNil(routes, conns[c].log);
      EmptyLeft(MessagesIn(SERVER, conns[c].controlRecv.Pending()));
    }
  }

  /** One turn, whether the loop still runs or not. */
  method TurnIfRunning(router: BxpRouter, conn: ServerConnection, running: bool,
                       ghost all: seq<Request>, ghost before: seq<Emission>, ghost k: nat) returns (more: bool)
    requires Served(router.routes, conn, running, all, before, k)
    modifies conn.controlRecv, conn.controlSend, conn`dataSent, conn`log
    ensures Served(router.routes, conn, more, all, before, k + 1)
  {
    more := false;
    if running {
      more := Turn(router, conn, all, before, k);
    }
  }

  /** A turn of one connection leaves the others alone. */
  method TurnAmong(router: BxpRouter, conns: seq<ServerConnection>, running: seq<bool>, c: nat,
                   conn: ServerConnection, ghost l: Ledger) returns (after: seq<bool>)
    requires Separate(conns) && c < |conns| && conns[c] == conn
    requires AllServed(router.routes, conns, running, l)
    modifies conn.controlRecv, conn.controlSend, conn`dataSent, conn`log
    ensures AllServed(router.routes, conns, after, l.(turns := l.turns[c := l.turns[c] + 1]))
  {
    var more := TurnIfRunning(router, conn, running[c], l.all[c], l.before[c], l.turns[c]);
    after := running[c := more];
    forall d | 0 <= d < |conns| && d != c
      ensures Served(router.routes, conns[d], running[d], l.all[d], l.before[d], l.turns[d])
    {
      assert Apart(conns[d], conn);
    }
  }

  /** For every schedule of turns, and whatever the other connections receive and emit, each connection
      handles its own requests in order, one a turn, with its own answers and data streams; the one
      router serves them all and stays as it is. */
  method ServeAll(router: BxpRouter, conns: seq<ServerConnection>, schedule: seq<nat>)
    requires Separate(conns) && forall c | 0 <= c < |conns| :: conns[c].Valid()
    requires forall i | 0 <= i < |schedule| :: schedule[i] < |conns|
    modifies conns
    modifies set c | 0 <= c < |conns| :: conns[c].controlRecv
    modifies set c | 0 <= c < |conns| :: conns[c].controlSend
    ensures forall c | 0 <= c < |conns| ::
              && conns[c].Valid()
              && conns[c].log == old(conns[c].log)
                 + LogFor(router.routes, First(MessagesIn(SERVER, old(conns[c].controlRecv.Pending())), Turns(schedule, c)))
  {
    var running := seq(|conns|, _ => true);
    ghost var start := OpenLedger(conns);
    LedgerStart(router.routes, conns, running);
    ghost var l := start;
    for i := 0 to |schedule|
      invariant AllServed(router.routes, conns, running, l)
      invariant l.(turns := []) == start.(turns := [])
      invariant forall c | 0 <= c < |conns| :: l.turns[c] == Turns(schedule[..i], c)
    {
      var c := schedule[i];
      forall d | 0 <= d < |conns| {
        TurnsNext(schedule, i, d);
      }
      running := TurnAmong(router, conns, running, c, conns[c], l);
      l := l.(turns := l.turns[c := l.turns[c] + 1]);
    }
    assert schedule[..|schedule|] == schedule;
  }
}
