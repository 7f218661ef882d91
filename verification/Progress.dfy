/** No scheduler can keep a connection busy forever. */
module Progress {
  import opened Bytes
  import opened Framing
  import opened Receiving
  import opened Router
  import opened System
  import opened Refinement
  import DataPlane

  function HandlerWork(s: State): nat {
    if s.handler.Some? then 1 + |s.handler.value| else 0
  }

  /** What is still to do on a connection, most significant first. */
  datatype Rank = Rank(
    script: nat, toServer: nat, serverBuffer: nat, serverPhase: nat, handler: nat,
    data: nat, toClient: nat, clientBuffer: nat, clientPhase: nat)

  function Measure(s: State): Rank {
    Rank(|s.script|, |s.toServer|, |s.server.buffer|, PhaseRank(s.server.phase), HandlerWork(s),
         DataPlane.Work(s.data.streams), |s.toClient|, |s.client.buffer|, PhaseRank(s.client.phase))
  }

  /** The lexicographic order. */
  predicate Below(a: Rank, b: Rank) {
    a.script < b.script || (a.script == b.script && (
    a.toServer < b.toServer || (a.toServer == b.toServer && (
    a.serverBuffer < b.serverBuffer || (a.serverBuffer == b.serverBuffer && (
    a.serverPhase < b.serverPhase || (a.serverPhase == b.serverPhase && (
    a.handler < b.handler || (a.handler == b.handler && (
    a.data < b.data || (a.data == b.data && (
    a.toClient < b.toClient || (a.toClient == b.toClient && (
    a.clientBuffer < b.clientBuffer || (a.clientBuffer == b.clientBuffer &&
    a.clientPhase < b.clientPhase)))))))))))))))
  }

  lemma ReadWork<T>(ch: Channel<T>, r: Receiver)
    requires CanRead(r)
    ensures var after := Read(ch, r);
            |after.buffer| < |r.buffer|
            || (|after.buffer| == |r.buffer| && PhaseRank(after.phase) < PhaseRank(r.phase))
  {
  }

  /** Every step of every connection decreases the measure. */
  lemma StepDecreases(routes: Routes, s: State, step: Step)
    requires Enabled(s, step)
    ensures Below(Measure(Apply(routes, s, step)), Measure(s))
  {
    match step {
      case ServerRead => ReadWork(SERVER, s.server);
      case ClientRead => ReadWork(CLIENT, s.client);
      case Data(d) => DataPlane.StepWork(s.data, d);
      case _ =>
    }
  }

  /** The i-th step of a schedule is enabled and leads to the next state. */
  ghost predicate Legal(routes: Routes, states: nat -> State, schedule: nat -> Step, i: nat) {
    Enabled(states(i), schedule(i)) && states(i + 1) == Apply(routes, states(i), schedule(i))
  }

  /** What comes after the first entry of an infinite sequence. */
  function Later<T>(f: nat -> T): nat -> T {
    (i: nat) => f(i + 1)
  }

  lemma LegalStepDescends(routes: Routes, states: nat -> State, schedule: nat -> Step)
    requires Legal(routes, states, schedule, 0)
    ensures Below(Measure(Later(states)(0)), Measure(states(0)))
  {
    StepDecreases(routes, states(0), schedule(0));
  }

  lemma LaterIllegal(routes: Routes, states: nat -> State, schedule: nat -> Step, i: nat)
    requires !Legal(routes, Later(states), Later(schedule), i)
    ensures !Legal(routes, states, schedule, i + 1)
  {
  }

  /** The decreases clause spells out the order of ranks. */
  lemma {:induction false} LegalEnds(routes: Routes, states: nat -> State, schedule: nat -> Step, rank: Rank)
    returns (i: nat)
    requires rank == Measure(states(0))
    ensures !Legal(routes, states, schedule, i)
    decreases rank.script, rank.toServer, rank.serverBuffer, rank.serverPhase, rank.handler,
              rank.data, rank.toClient, rank.clientBuffer, rank.clientPhase
  {
    if Legal(routes, states, schedule, 0) {
      LegalStepDescends(routes, states, schedule);
      i := LegalEnds(routes, Later(states), Later(schedule), Measure(Later(states)(0)));
      LaterIllegal(routes, states, schedule, i);
      i := i + 1;
    } else {
      i := 0;
    }
  }

  /** An infinite schedule breaks the rules somewhere: it takes a step that is not enabled, or goes to
      a state its step does not lead to. With completeness at quiescence this is liveness. */
  lemma NoInfiniteRun(routes: Routes, states: nat -> State, schedule: nat -> Step)
    ensures exists i: nat ::
              !Enabled(states(i), schedule(i)) || states(i + 1) != Apply(routes, states(i), schedule(i))
  {
    var i := LegalEnds(routes, states, schedule, Measure(states(0)));
  }

  /** The first `n` entries of a schedule. */
  function Prefix<T>(schedule: nat -> T, n: nat): seq<T> {
    seq(n, i requires i >= 0 => schedule(i))
  }

  lemma PrefixCons<T>(schedule: nat -> T, n: nat)
    ensures Prefix(schedule, n + 1)[0] == schedule(0) && Prefix(schedule, n + 1)[1..] == Prefix(Later(schedule), n)
  {
  }

  lemma {:induction false} PrefixFails(routes: Routes, s: State, schedule: nat -> Step, rank: Rank) returns (n: nat)
    requires rank == Measure(s)
    ensures Exec(routes, s, Prefix(schedule, n)).None?
    decreases rank.script, rank.toServer, rank.serverBuffer, rank.serverPhase, rank.handler,
              rank.data, rank.toClient, rank.clientBuffer, rank.clientPhase
  {
    n := 1;
    if Enabled(s, schedule(0)) {
      var next := Apply(routes, s, schedule(0));
      StepDecreases(routes, s, schedule(0));
      n := PrefixFails(routes, next, Later(schedule), Measure(next));
      PrefixCons(schedule, n);
      n := n + 1;
    }
  }

  /** In other words, from any state every infinite schedule has a finite part that cannot be run. */
  lemma EveryScheduleFails(routes: Routes, s: State, schedule: nat -> Step)
    ensures exists n: nat :: Exec(routes, s, Prefix(schedule, n)).None?
  {
    var n := PrefixFails(routes, s, schedule, Measure(s));
  }

  lemma {:induction false} ExecAppend(routes: Routes, s: State, a: seq<Step>, b: seq<Step>)
    requires Exec(routes, s, a).Some?
    ensures Exec(routes, s, a + b) == Exec(routes, Exec(routes, s, a).value, b)
    decreases |a|
  {
    if a == [] {
      assert a + b == b;
    } else {
      TakeDropAppend(a, 1, b);
      assert (a + b)[0] == a[0];
      ExecAppend(routes, Apply(routes, s, a[0]), a[1..], b);
    }
  }

  lemma {:induction false} CanSettle(routes: Routes, s: State, rank: Rank) returns (steps: seq<Step>)
    requires rank == Measure(s)
    ensures Exec(routes, s, steps).Some? && Quiescent(Exec(routes, s, steps).value)
    decreases rank.script, rank.toServer, rank.serverBuffer, rank.serverPhase, rank.handler,
              rank.data, rank.toClient, rank.clientBuffer, rank.clientPhase
  {
    if Quiescent(s) {
      steps := [];
    } else {
      var step :| Enabled(s, step);
      var next := Apply(routes, s, step);
      StepDecreases(routes, s, step);
      var rest := CanSettle(routes, next, Measure(next));
      steps := [step] + rest;
    }
  }

  /** From every reachable state some continuation answers everything and stops. */
  lemma EveryRunCanComplete(routes: Routes, script: seq<seq<Byte>>, steps: seq<Step>)
    requires Exec(routes, Init(script), steps).Some?
    ensures exists more: seq<Step> ::
              && Exec(routes, Init(script), steps + more).Some?
              && Complete(routes, script, Exec(routes, Init(script), steps + more).value)
  {
    var s := Exec(routes, Init(script), steps).value;
    var more := CanSettle(routes, s, Measure(s));
    ExecAppend(routes, Init(script), steps, more);
    QuiescentIsComplete(routes, script, steps + more);
  }
}
