/** Many connections served from one shared, read-only route table. */
module Connections {
  import opened Results
  import opened Bytes
  import opened Protocol
  import opened Framing
  import opened Receiving
  import opened Router
  import opened System
  import opened Refinement
  import opened Progress

  /** Which connection moves, and how. */
  type Trace = seq<(nat, Step)>

  function ExecAll(routes: Routes, conns: seq<State>, trace: Trace): Option<seq<State>>
    decreases |trace|
  {
    if trace == [] then Some(conns)
    else
      var (c, step) := trace[0];
      if c < |conns| && Enabled(conns[c], step)
      then ExecAll(routes, conns[c := Apply(routes, conns[c], step)], trace[1..])
      else None
  }

  /** The steps of one connection, in order. */
  function Project(trace: Trace, c: nat): seq<Step>
    decreases |trace|
  {
    if trace == [] then []
    else (if trace[0].0 == c then [trace[0].1] else []) + Project(trace[1..], c)
  }

  /** Each connection alone can take its own steps of the trace. */
  ghost predicate AloneAll(routes: Routes, conns: seq<State>, trace: Trace) {
    && (forall i | 0 <= i < |trace| :: trace[i].0 < |conns|)
    && forall c | 0 <= c < |conns| :: Exec(routes, conns[c], Project(trace, c)).Some?
  }

  lemma ProjectStep(trace: Trace, c: nat)
    requires trace != []
    ensures trace[0].0 == c ==> Project(trace, c) != [] && Project(trace, c)[0] == trace[0].1
                                && Project(trace, c)[1..] == Project(trace[1..], c)
    ensures trace[0].0 != c ==> Project(trace, c) == Project(trace[1..], c)
  {
  }

  lemma {:induction false} InterleavedRunsAlone(routes: Routes, conns: seq<State>, trace: Trace)
    requires ExecAll(routes, conns, trace).Some?
    ensures AloneAll(routes, conns, trace)
    ensures var after := ExecAll(routes, conns, trace).value;
            && |after| == |conns|
            && forall c | 0 <= c < |conns| :: Exec(routes, conns[c], Project(trace, c)) == Some(after[c])
    decreases |trace|
  {
    if trace != [] {
      var (d, step) := trace[0];
      var next := conns[d := Apply(routes, conns[d], step)];
      InterleavedRunsAlone(routes, next, trace[1..]);
      var after := ExecAll(routes, conns, trace).value;
      forall c | 0 <= c < |conns| ensures Exec(routes, conns[c], Project(trace, c)) == Some(after[c]) {
        ProjectStep(trace, c);
        assert Exec(routes, next[c], Project(trace[1..], c)) == Some(after[c]);
      }
      forall i | 0 <= i < |trace| ensures trace[i].0 < |conns| {
        assert i > 0 ==> trace[i] == trace[1..][i - 1];
      }
    }
  }

  lemma {:induction false} AloneRunsInterleave(routes: Routes, conns: seq<State>, trace: Trace)
    requires AloneAll(routes, conns, trace)
    ensures ExecAll(routes, conns, trace).Some?
    decreases |trace|
  {
    if trace != [] {
      var (d, step) := trace[0];
      ProjectStep(trace, d);
      var next := conns[d := Apply(routes, conns[d], step)];
      forall c | 0 <= c < |next| ensures Exec(routes, next[c], Project(trace[1..], c)).Some? {
        ProjectStep(trace, c);
        assert Exec(routes, conns[c], Project(trace, c)).Some?;
      }
      forall i | 0 <= i < |trace[1..]| ensures trace[1..][i].0 < |next| {
        assert trace[1..][i] == trace[i + 1];
      }
      AloneRunsInterleave(routes, next, trace[1..]);
    }
  }

  /** An interleaving can run exactly when each connection could run its own steps alone, and then
      each connection ends where it would have ended alone. */
  lemma InterleavingIndependence(routes: Routes, conns: seq<State>, trace: Trace)
    ensures ExecAll(routes, conns, trace).Some? <==> AloneAll(routes, conns, trace)
    ensures AloneAll(routes, conns, trace) ==>
              var after := ExecAll(routes, conns, trace).value;
              && |after| == |conns|
              && forall c | 0 <= c < |conns| :: after[c] == Exec(routes, conns[c], Project(trace, c)).value
  {
    if AloneAll(routes, conns, trace) {
      AloneRunsInterleave(routes, conns, trace);
    }
    if ExecAll(routes, conns, trace).Some? {
      InterleavedRunsAlone(routes, conns, trace);
    }
  }

  /** The order between different connections never shows. */
  lemma InterleavingsAgree(routes: Routes, conns: seq<State>, a: Trace, b: Trace)
    requires ExecAll(routes, conns, a).Some? && ExecAll(routes, conns, b).Some?
    requires forall c | 0 <= c < |conns| :: Project(a, c) == Project(b, c)
    ensures ExecAll(routes, conns, a) == ExecAll(routes, conns, b)
  {
    InterleavedRunsAlone(routes, conns, a);
    InterleavedRunsAlone(routes, conns, b);
    var x, y := ExecAll(routes, conns, a).value, ExecAll(routes, conns, b).value;
    assert forall c | 0 <= c < |conns| :: x[c] == y[c];
    assert x == y;
  }

  // ---------- what holds of one connection holds of each ----------

  function InitAll(scripts: seq<seq<seq<Byte>>>): seq<State> {
    seq(|scripts|, c requires 0 <= c < |scripts| => Init(scripts[c]))
  }

  /** A connection answers its own client: its responses are a prefix of what dispatch says for that
      client's bytes, its downloads are among that client's streams, and when it cannot move it is
      complete, whatever the other connections are doing. */
  ghost predicate ServedAlone(routes: Routes, script: seq<seq<Byte>>, s: State) {
    && AllAdmissible(CLIENT, s.client.accepted)
    && Responses(s) <= ResponsesOf(Promised(routes, s.written))
    && multiset(s.data.delivered) <= multiset(StreamsOf(Promised(routes, s.written)))
    && Attributed(s.data.streams, StreamsOf(Promised(routes, s.written)))
    && (Quiescent(s) ==> Complete(routes, script, s))
  }

  lemma RunIsServedAlone(routes: Routes, script: seq<seq<Byte>>, steps: seq<Step>)
    requires Exec(routes, Init(script), steps).Some?
    ensures ServedAlone(routes, script, Exec(routes, Init(script), steps).value)
  {
    ResponsesRefineDispatch(routes, script, steps);
    DownloadsRefineDispatch(routes, script, steps);
    if Quiescent(Exec(routes, Init(script), steps).value) {
      QuiescentIsComplete(routes, script, steps);
    }
  }

  /** In every interleaving of any number of clients, each writing any bytes, on one route table. */
  lemma InterleavedRunsAreServed(routes: Routes, scripts: seq<seq<seq<Byte>>>, trace: Trace)
    requires ExecAll(routes, InitAll(scripts), trace).Some?
    ensures var after := ExecAll(routes, InitAll(scripts), trace).value;
            |after| == |scripts| && forall c | 0 <= c < |scripts| :: ServedAlone(routes, scripts[c], after[c])
  {
    var after := ExecAll(routes, InitAll(scripts), trace).value;
    InterleavedRunsAlone(routes, InitAll(scripts), trace);
    forall c | 0 <= c < |scripts| ensures ServedAlone(routes, scripts[c], after[c]) {
      assert Exec(routes, InitAll(scripts)[c], Project(trace, c)) == Some(after[c]);
      RunIsServedAlone(routes, scripts[c], Project(trace, c));
    }
  }

  // ---------- no interleaving goes on forever ----------

  /** The i-th entry of an infinite schedule moves an existing connection by an enabled step. */
  ghost predicate LegalMove(routes: Routes, states: nat -> seq<State>, schedule: nat -> (nat, Step), i: nat) {
    var (c, step) := schedule(i);
    && c < |states(i)| && Enabled(states(i)[c], step)
    && states(i + 1) == states(i)[c := Apply(routes, states(i)[c], step)]
  }

  function Skip<T>(f: nat -> T, n: nat): nat -> T {
    (i: nat) => f(n + i)
  }

  /** Connections that are not scheduled stay where they are. */
  lemma {:induction false} Untouched(routes: Routes, states: nat -> seq<State>, schedule: nat -> (nat, Step),
                                     c: nat, n: nat)
    requires c < |states(0)|
    requires forall i: nat | i < n :: LegalMove(routes, states, schedule, i) && schedule(i).0 != c
    ensures |states(n)| == |states(0)| && states(n)[c] == states(0)[c]
  {
    if n > 0 {
      Untouched(routes, states, schedule, c, n - 1);
      assert LegalMove(routes, states, schedule, n - 1);
    }
  }

  /** The first move of a connection that is scheduled at all. */
  lemma {:induction false} FirstMove(schedule: nat -> (nat, Step), c: nat, i: nat) returns (n: nat)
    requires schedule(i).0 == c
    ensures n <= i && schedule(n).0 == c && forall j: nat | j < n :: schedule(j).0 != c
    decreases i
  {
    if j: nat :| j < i && schedule(j).0 == c {
      n := FirstMove(schedule, c, j);
    } else {
      n := i;
    }
  }

  /** After its first move the rank of a connection is lower. */
  lemma MoveDescends(routes: Routes, states: nat -> seq<State>, schedule: nat -> (nat, Step), c: nat, n: nat)
    requires c < |states(0)| && schedule(n).0 == c
    requires forall i: nat | i <= n :: LegalMove(routes, states, schedule, i)
    requires forall i: nat | i < n :: schedule(i).0 != c
    ensures |Skip(states, n + 1)(0)| == |states(0)|
    ensures Below(Measure(Skip(states, n + 1)(0)[c]), Measure(states(0)[c]))
  {
    Untouched(routes, states, schedule, c, n);
    assert LegalMove(routes, states, schedule, n);
    StepDecreases(routes, states(n)[c], schedule(n).1);
  }

  /** A scheduled connection reaches a lower rank, unless the rules are broken before. */
  lemma ScheduledDescends(routes: Routes, states: nat -> seq<State>, schedule: nat -> (nat, Step), c: nat, m: nat)
    returns (n: nat, rank: Rank)
    requires c < |states(0)| && schedule(m).0 == c
    ensures LegalMove(routes, states, schedule, n) ==>
              && |Skip(states, n + 1)(0)| == |states(0)|
              && rank == Measure(Skip(states, n + 1)(0)[c]) && Below(rank, Measure(states(0)[c]))
  {
    rank := Measure(states(0)[c]);
    n := FirstMove(schedule, c, m);
    if j: nat :| j < n && !LegalMove(routes, states, schedule, j) {
      n := j;
    } else if LegalMove(routes, states, schedule, n) {
      MoveDescends(routes, states, schedule, c, n);
      rank := Measure(states(n + 1)[c]);
    }
  }

  lemma SkippedMove(routes: Routes, states: nat -> seq<State>, schedule: nat -> (nat, Step), n: nat, j: nat)
    ensures LegalMove(routes, Skip(states, n), Skip(schedule, n), j) <==> LegalMove(routes, states, schedule, n + j)
    ensures Skip(schedule, n)(j) == schedule(n + j)
  {
    assert n + (j + 1) == n + j + 1;
  }

  /** From `n` on the connection is never scheduled. */
  ghost predicate RestsFrom(schedule: nat -> (nat, Step), c: nat, n: nat) {
    forall i: nat | i >= n :: schedule(i).0 != c
  }

  lemma RestsLater(schedule: nat -> (nat, Step), c: nat, n: nat, m: nat)
    requires RestsFrom(Skip(schedule, n), c, m)
    ensures RestsFrom(schedule, c, n + m)
  {
    forall i: nat | i >= n + m ensures schedule(i).0 != c {
      assert Skip(schedule, n)(i - n) == schedule(i);
    }
  }

  ghost predicate AtRest(routes: Routes, states: nat -> seq<State>, schedule: nat -> (nat, Step), c: nat, n: nat) {
    LegalMove(routes, states, schedule, n) ==> RestsFrom(schedule, c, n) && |states(n)| == |states(0)|
  }

  lemma AtRestLater(routes: Routes, states: nat -> seq<State>, schedule: nat -> (nat, Step), c: nat, n: nat, m: nat)
    requires AtRest(routes, Skip(states, n), Skip(schedule, n), c, m) && |Skip(states, n)(0)| == |states(0)|
    ensures AtRest(routes, states, schedule, c, n + m)
  {
    SkippedMove(routes, states, schedule, n, m);
    if LegalMove(routes, states, schedule, n + m) {
      RestsLater(schedule, c, n, m);
    }
  }

  /** Every connection comes to rest, unless the rules are broken: each move lowers its rank. */
  lemma {:induction false} ComesToRest(routes: Routes, states: nat -> seq<State>, schedule: nat -> (nat, Step),
                                       c: nat, rank: Rank) returns (n: nat)
    requires c < |states(0)| && rank == Measure(states(0)[c])
    ensures AtRest(routes, states, schedule, c, n)
    decreases rank.script, rank.toServer, rank.serverBuffer, rank.serverPhase, rank.handler,
              rank.data, rank.toClient, rank.clientBuffer, rank.clientPhase
  {
    if m: nat :| schedule(m).0 == c {
      var next;
      n, next := ScheduledDescends(routes, states, schedule, c, m);
      if LegalMove(routes, states, schedule, n) {
        var later := ComesToRest(routes, Skip(states, n + 1), Skip(schedule, n + 1), c, next);
        AtRestLater(routes, states, schedule, c, n + 1, later);
        n := n + 1 + later;
      }
    } else {
      n := 0;
    }
  }

  /** A schedule that moves only the first `k` connections breaks the rules: they come to rest one by one. */
  lemma {:induction false} FirstFewEnd(routes: Routes, states: nat -> seq<State>, schedule: nat -> (nat, Step), k: nat)
    returns (i: nat)
    requires k <= |states(0)|
    ensures !LegalMove(routes, states, schedule, i) || schedule(i).0 >= k
    decreases k
  {
    i := 0;
    if k > 0 {
      i := ComesToRest(routes, states, schedule, k - 1, Measure(states(0)[k - 1]));
      if LegalMove(routes, states, schedule, i) {
        var j := FirstFewEnd(routes, Skip(states, i), Skip(schedule, i), k - 1);
        SkippedMove(routes, states, schedule, i, j);
        i := i + j;
      }
    }
  }

  lemma {:induction false} SameCount(routes: Routes, states: nat -> seq<State>, schedule: nat -> (nat, Step), n: nat)
    requires forall i: nat | i < n :: LegalMove(routes, states, schedule, i)
    ensures |states(n)| == |states(0)|
  {
    if n > 0 {
      SameCount(routes, states, schedule, n - 1);
      assert LegalMove(routes, states, schedule, n - 1);
      var (c, step) := schedule(n - 1);
      assert states(n) == states(n - 1)[c := Apply(routes, states(n - 1)[c], step)];
    }
  }

  /** However the moves of finitely many connections are interleaved, they come to an end. */
  lemma NoInfiniteInterleaving(routes: Routes, states: nat -> seq<State>, schedule: nat -> (nat, Step))
    ensures exists i: nat ::
              || schedule(i).0 >= |states(i)| || !Enabled(states(i)[schedule(i).0], schedule(i).1)
              || states(i + 1) != states(i)[schedule(i).0 := Apply(routes, states(i)[schedule(i).0], schedule(i).1)]
  {
    if forall i: nat :: LegalMove(routes, states, schedule, i) {
      var count := |states(0)|;
      assert LegalMove(routes, states, schedule, 0);
      assert schedule(0).0 < count;
      var i := FirstFewEnd(routes, states, schedule, count);
      assert LegalMove(routes, states, schedule, i);
      SameCount(routes, states, schedule, i);
    }
    var i: nat :| !LegalMove(routes, states, schedule, i);
  }

  lemma {:induction false} ExecAllSnoc(routes: Routes, conns: seq<State>, trace: Trace, c: nat, step: Step)
    requires ExecAll(routes, conns, trace).Some?
    ensures var s := ExecAll(routes, conns, trace).value;
            ExecAll(routes, conns, trace + [(c, step)]) ==
            if c < |s| && Enabled(s[c], step) then Some(s[c := Apply(routes, s[c], step)]) else None
    decreases |trace|
  {
    if trace == [] {
      EmptyLeft([(c, step)]);
      assert [(c, step)][1..] == [];
    } else {
      var (d, first) := trace[0];
      TakeDropAppend(trace, 1, [(c, step)]);
      assert (trace + [(c, step)])[0] == trace[0];
      ExecAllSnoc(routes, conns[d := Apply(routes, conns[d], first)], trace[1..], c, step);
    }
  }

  lemma PrefixSnoc<T>(schedule: nat -> T, n: nat)
    ensures Prefix(schedule, n + 1) == Prefix(schedule, n) + [schedule(n)]
  {
  }

  /** The states a schedule leads through, as far as it can be run. */
  function Along(routes: Routes, conns: seq<State>, schedule: nat -> (nat, Step)): nat -> seq<State> {
    (n: nat) => var after := ExecAll(routes, conns, Prefix(schedule, n)); if after.Some? then after.value else []
  }

  lemma AlongMoves(routes: Routes, conns: seq<State>, schedule: nat -> (nat, Step), i: nat)
    requires ExecAll(routes, conns, Prefix(schedule, i)).Some?
    requires ExecAll(routes, conns, Prefix(schedule, i + 1)).Some?
    ensures LegalMove(routes, Along(routes, conns, schedule), schedule, i)
  {
    PrefixSnoc(schedule, i);
    ExecAllSnoc(routes, conns, Prefix(schedule, i), schedule(i).0, schedule(i).1);
  }

  /** In other words, every infinite interleaving has a finite part that cannot be run. */
  lemma EveryInterleavingFails(routes: Routes, conns: seq<State>, schedule: nat -> (nat, Step))
    ensures exists n: nat :: ExecAll(routes, conns, Prefix(schedule, n)).None?
  {
    if forall n: nat :: ExecAll(routes, conns, Prefix(schedule, n)).Some? {
      var states := Along(routes, conns, schedule);
      NoInfiniteInterleaving(routes, states, schedule);
      var i: nat :| || schedule(i).0 >= |states(i)| || !Enabled(states(i)[schedule(i).0], schedule(i).1)
                    || states(i + 1) != states(i)[schedule(i).0 := Apply(routes, states(i)[schedule(i).0], schedule(i).1)];
      AlongMoves(routes, conns, schedule, i);
    }
  }
}
