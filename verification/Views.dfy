/**
 Which states of a connection occur, seen from outside: the safety theorems and the freedom of every
 party together give exactly the possible views.
 */
module Views {
  import opened Results
  import opened Bytes
  import opened Protocol
  import opened Framing
  import opened Receiving
  import opened Server
  import opened Router
  import opened System
  import opened SystemInvariant
  import opened Refinement
  import opened Progress
  import opened Freedom
  import DataPlane

  // ---------- the views of a connection that occur ----------

  /** What can be told from outside about a connection: the writes made, the bytes each end was given,
      what the server emitted, what the client decoded, and the downloads in the order they ended. */
  datatype View = View(
    writes: nat,
    reachedServer: seq<Byte>,
    log: seq<Emission>,
    reachedClient: seq<Byte>,
    accepted: seq<seq<Byte>>,
    delivered: seq<(U32, seq<Byte>)>)

  ghost predicate Shows(script: seq<seq<Byte>>, s: State, v: View) {
    && v.writes <= |script| && s.script == script[v.writes..] && s.written == Flatten(script[..v.writes])
    && s.reachedServer == v.reachedServer && s.log == v.log
    && s.reachedClient == v.reachedClient && s.client.accepted == v.accepted
    && s.data.delivered == v.delivered
  }

  /** Each part of a view depends on the one before it, and on nothing else. */
  ghost predicate Possible(routes: Routes, script: seq<seq<Byte>>, v: View) {
    && v.writes <= |script|
    && v.reachedServer <= Flatten(script[..v.writes])
    && v.log <= Promised(routes, v.reachedServer)
    && v.reachedClient <= ControlWire(v.log)
    && v.accepted <= Accepted(CLIENT, v.reachedClient)
    && multiset(v.delivered) <= multiset(StreamsOf(v.log))
  }

  // ---------- only possible views occur ----------

  lemma AcceptedSoFar(r: Receiver, seen: seq<Byte>)
    requires Faithful(CLIENT, r, seen)
    ensures r.accepted <= Accepted(CLIENT, seen)
  {
    FaithfulAccepts(CLIENT, r, seen);
  }

  lemma ShownIsPossible(routes: Routes, script: seq<seq<Byte>>, s: State, v: View)
    requires Inv(routes, script, s) && Shows(script, s, v)
    ensures Possible(routes, script, v)
  {
    LogIsPromised(routes, s);
    AcceptedSoFar(s.client, s.reachedClient);
    DataPlane.Conservation(s.data);
  }

  // ---------- the server emits as much as it has promised ----------

  lemma Serving(routes: Routes, s: State) returns (step: Step)
    requires RequestBytesOk(s) && LogOk(routes, s) && DataPlane.Inv(s.data)
    requires |s.log| < |Promised(routes, s.reachedServer)|
    ensures Enabled(s, step) && SameElsewhere(s, Apply(routes, s, step))
    ensures |Apply(routes, s, step).log| <= |s.log| + 1
  {
    if !AllFinished(s.data) {
      step := Sending(routes, s);
    } else if s.handler.Some? {
      step := if s.handler.value == [] then HandlerReturn else Emit;
    } else {
      if !CanRead(s.server) {
        SettledLog(routes, s);
      }
      step := ServerRead;
    }
  }

  lemma {:induction false} ServesUpTo(routes: Routes, script: seq<seq<Byte>>, s: State, n: nat, rank: Rank)
    returns (steps: seq<Step>)
    requires Inv(routes, script, s) && rank == Measure(s)
    requires |s.log| <= n <= |Promised(routes, s.reachedServer)|
    ensures Exec(routes, s, steps).Some?
    ensures SameElsewhere(s, Exec(routes, s, steps).value) && |Exec(routes, s, steps).value.log| == n
    decreases rank.script, rank.toServer, rank.serverBuffer, rank.serverPhase, rank.handler,
              rank.data, rank.toClient, rank.clientBuffer, rank.clientPhase
  {
    if |s.log| == n {
      steps := [];
    } else {
      var step := Serving(routes, s);
      var next := Apply(routes, s, step);
      StepInv(routes, script, s, step);
      StepDecreases(routes, s, step);
      var rest := ServesUpTo(routes, script, next, n, Measure(next));
      StepThen(routes, s, step, rest);
      steps := [step] + rest;
    }
  }

  lemma {:induction false} FinishesSending(routes: Routes, script: seq<seq<Byte>>, s: State, rank: Rank)
    returns (steps: seq<Step>)
    requires Inv(routes, script, s) && rank == Measure(s)
    ensures Exec(routes, s, steps).Some?
    ensures var t := Exec(routes, s, steps).value;
            SameElsewhere(s, t) && t.log == s.log && t.toClient == s.toClient && AllFinished(t.data)
    decreases rank.script, rank.toServer, rank.serverBuffer, rank.serverPhase, rank.handler,
              rank.data, rank.toClient, rank.clientBuffer, rank.clientPhase
  {
    if AllFinished(s.data) {
      steps := [];
    } else {
      var step := Sending(routes, s);
      var next := Apply(routes, s, step);
      StepInv(routes, script, s, step);
      StepDecreases(routes, s, step);
      var rest := FinishesSending(routes, script, next, Measure(next));
      StepThen(routes, s, step, rest);
      steps := [step] + rest;
    }
  }

  // ---------- the client decodes as much as it was given ----------

  lemma ClientReads(routes: Routes, s: State)
    requires CanRead(s.client)
    ensures var after := Read(CLIENT, s.client);
            && Apply(routes, s, ClientRead) == s.(client := after)
            && |after.accepted| <= |s.client.accepted| + 1
            && (|after.buffer| < |s.client.buffer|
                || (|after.buffer| == |s.client.buffer| && PhaseRank(after.phase) < PhaseRank(s.client.phase)))
  {
    ReadWork(CLIENT, s.client);
  }

  lemma {:induction false} ClientAccepts(routes: Routes, s: State, n: nat) returns (steps: seq<Step>)
    requires Faithful(CLIENT, s.client, s.reachedClient)
    requires |s.client.accepted| <= n <= |Accepted(CLIENT, s.reachedClient)|
    ensures Exec(routes, s, steps).Some?
    ensures var t := Exec(routes, s, steps).value;
            t == s.(client := t.client) && |t.client.accepted| == n
    decreases |s.client.buffer|, PhaseRank(s.client.phase)
  {
    if |s.client.accepted| == n {
      steps := [];
    } else {
      if !CanRead(s.client) {
        SettledAccepts(CLIENT, s.client, s.reachedClient);
      }
      var next := Apply(routes, s, ClientRead);
      ClientReads(routes, s);
      ReadFaithful(CLIENT, s.client, s.reachedClient);
      var rest := ClientAccepts(routes, next, n);
      StepThen(routes, s, ClientRead, rest);
      steps := [ClientRead] + rest;
    }
  }

  // ---------- readers end in any order ----------

  /** One stream has been read further; all are as sound and as finished as before. */
  ghost predicate OnlyMoved(a: DataPlane.State, b: DataPlane.State, i: nat) {
    && DataPlane.Inv(b) && DataPlane.Opened(b.streams) == DataPlane.Opened(a.streams)
    && |b.streams| == |a.streams|
    && forall j | 0 <= j < |b.streams| ::
         (j == i || b.streams[j] == a.streams[j]) && (a.streams[j].finished ==> b.streams[j].finished)
  }

  lemma ReadMoves(s: DataPlane.State, d: DataPlane.Step)
    requires DataPlane.Inv(s) && DataPlane.Enabled(s, d)
    ensures OnlyMoved(s, DataPlane.Apply(s, d), d.i)
    ensures DataPlane.Work(DataPlane.Apply(s, d).streams) < DataPlane.Work(s.streams)
  {
    DataPlane.StepInv(s, d);
    DataPlane.StepWork(s, d);
  }

  lemma OnlyMovedTransitive(a: DataPlane.State, b: DataPlane.State, c: DataPlane.State, i: nat)
    requires OnlyMoved(a, b, i) && OnlyMoved(b, c, i)
    ensures OnlyMoved(a, c, i)
  {
  }

  /** One step of reading a stream: the last one puts its whole source among the downloads. */
  lemma ReadOn(data: DataPlane.State, i: nat)
    requires DataPlane.Inv(data) && i < |data.streams| && data.streams[i].finished && !data.streams[i].intake.Ended?
    ensures var t, d := data.streams[i], DataPlane.Pending(data.streams[i], i);
            && DataPlane.Enabled(data, d)
            && var next := DataPlane.Apply(data, d);
            && OnlyMoved(data, next, i)
            && DataPlane.Work(next.streams) < DataPlane.Work(data.streams)
            && next.streams[i].id == t.id && next.streams[i].source == t.source && next.streams[i].finished
            && (next.streams[i].intake.Ended? <==> d.ReadEnd?)
            && (d.ReadEnd? ==> next.streams[i].intake == DataPlane.Ended(t.id, t.source))
            && next.delivered == data.delivered + if d.ReadEnd? then [(t.id, t.source)] else []
  {
    var t, d := data.streams[i], DataPlane.Pending(data.streams[i], i);
    DataPlane.StreamProgress(data, i);
    ReadMoves(data, d);
    var next := DataPlane.Apply(data, d);
    DataPlane.StreamAttribution(next.streams[i]);
  }

  /** All steps of reading a finished stream to its end. */
  lemma {:induction false} ReaderEnds(routes: Routes, s: State, i: nat, work: nat) returns (steps: seq<Step>)
    requires DataPlane.Inv(s.data) && i < |s.data.streams|
    requires s.data.streams[i].finished && !s.data.streams[i].intake.Ended?
    requires work == DataPlane.Work(s.data.streams)
    ensures Exec(routes, s, steps).Some?
    ensures var t, data := s.data.streams[i], Exec(routes, s, steps).value.data;
            && Exec(routes, s, steps).value == s.(data := data)
            && data.delivered == s.data.delivered + [(t.id, t.source)]
            && OnlyMoved(s.data, data, i) && data.streams[i].intake == DataPlane.Ended(t.id, t.source)
    decreases work
  {
    var d := DataPlane.Pending(s.data.streams[i], i);
    ReadOn(s.data, i);
    var next := Apply(routes, s, Data(d));
    if d.ReadEnd? {
      OneStep(routes, s, Data(d));
      steps := [Data(d)];
    } else {
      EmptyRight(s.data.delivered);
      var rest := ReaderEnds(routes, next, i, DataPlane.Work(next.data.streams));
      StepThen(routes, s, Data(d), rest);
      OnlyMovedTransitive(s.data, next.data, Exec(routes, next, rest).value.data, i);
      steps := [Data(d)] + rest;
    }
  }

  /** The next step of reading up to the n-th byte of a stream that is all on its way. */
  function HoldingStep(t: DataPlane.Stream, i: nat, n: nat): DataPlane.Step {
    if t.inFlight != [] then DataPlane.Deliver(i, |t.inFlight|)
    else if t.intake.Unaccepted? then DataPlane.Accept(i)
    else if t.intake.Preamble? then DataPlane.ReadPreamble(i)
    else DataPlane.ReadChunk(i, if t.intake.Reading? && n > |t.intake.got| then n - |t.intake.got| else 0)
  }

  ghost predicate CanHold(t: DataPlane.Stream, n: nat) {
    && DataPlane.StreamOk(t) && t.finished && n <= |t.source| && !t.intake.Ended?
    && (t.intake.Reading? ==> |t.intake.got| <= n)
  }

  lemma HoldingStepEnabled(t: DataPlane.Stream, i: nat, n: nat)
    requires CanHold(t, n) && !(t.intake.Reading? && |t.intake.got| == n)
    ensures DataPlane.EnabledOn(t, HoldingStep(t, i, n))
    ensures var after := DataPlane.ApplyOn(t, HoldingStep(t, i, n));
            CanHold(after, n) && after.id == t.id && after.source == t.source
  {
    assert |DataPlane.Taken(t.intake)| + |t.arrived| + |t.inFlight| == 4 + |t.source|;
    DataPlane.StreamStep(t, HoldingStep(t, i, n));
  }

  /** A reader can hold any prefix of its stream while all other streams stay where they are. */
  lemma {:induction false} ReaderHolds(routes: Routes, s: State, i: nat, n: nat, work: nat)
    returns (steps: seq<Step>)
    requires DataPlane.Inv(s.data) && i < |s.data.streams| && CanHold(s.data.streams[i], n)
    requires work == DataPlane.Work(s.data.streams)
    ensures Exec(routes, s, steps).Some?
    ensures var t, data := s.data.streams[i], Exec(routes, s, steps).value.data;
            && Exec(routes, s, steps).value == s.(data := data)
            && data.delivered == s.data.delivered
            && OnlyMoved(s.data, data, i)
            && data.streams[i].intake == DataPlane.Reading(t.id, t.source[..n])
    decreases work
  {
    var t := s.data.streams[i];
    if t.intake.Reading? && |t.intake.got| == n {
      DataPlane.StreamAttribution(t);
      steps := [];
    } else {
      var d := HoldingStep(t, i, n);
      HoldingStepEnabled(t, i, n);
      ReadMoves(s.data, d);
      var next := Apply(routes, s, Data(d));
      var rest := ReaderHolds(routes, next, i, n, DataPlane.Work(next.data.streams));
      StepThen(routes, s, Data(d), rest);
      OnlyMovedTransitive(s.data, next.data, Exec(routes, next, rest).value.data, i);
      steps := [Data(d)] + rest;
    }
  }

  lemma {:induction false} UnendedStream(streams: seq<DataPlane.Stream>, d: (U32, seq<Byte>)) returns (i: nat)
    requires forall j | 0 <= j < |streams| :: DataPlane.StreamOk(streams[j])
    requires DataPlane.EndedBag(streams)[d] < multiset(DataPlane.Opened(streams))[d]
    ensures i < |streams| && !streams[i].intake.Ended? && (streams[i].id, streams[i].source) == d
  {
    var n := |streams| - 1;
    DataPlane.OpenedSnoc(streams);
    DataPlane.StreamAttribution(streams[n]);
    if !streams[n].intake.Ended? && (streams[n].id, streams[n].source) == d {
      i := n;
    } else {
      i := UnendedStream(streams[..n], d);
    }
  }

  lemma NextDownload(data: DataPlane.State, d: (U32, seq<Byte>)) returns (i: nat)
    requires DataPlane.Inv(data)
    requires multiset(data.delivered + [d]) <= multiset(DataPlane.Opened(data.streams))
    ensures i < |data.streams| && !data.streams[i].intake.Ended?
    ensures (data.streams[i].id, data.streams[i].source) == d
  {
    assert multiset(data.delivered + [d])[d] == multiset(data.delivered)[d] + 1;
    i := UnendedStream(data.streams, d);
  }

  /** Any downloads that are still to come can come next, in any order. */
  lemma {:induction false} DownloadsInAnyOrder(routes: Routes, s: State, wanted: seq<(U32, seq<Byte>)>)
    returns (steps: seq<Step>)
    requires DataPlane.Inv(s.data) && AllFinished(s.data)
    requires multiset(s.data.delivered + wanted) <= multiset(DataPlane.Opened(s.data.streams))
    ensures Exec(routes, s, steps).Some?
    ensures var data := Exec(routes, s, steps).value.data;
            && Exec(routes, s, steps).value == s.(data := data)
            && data.delivered == s.data.delivered + wanted
    decreases |wanted|
  {
    if wanted == [] {
      steps := [];
      EmptyRight(s.data.delivered);
    } else {
      var d, others := wanted[0], wanted[1..];
      assert wanted == [d] + others;
      Assoc(s.data.delivered, [d], others);
      assert multiset(s.data.delivered + [d]) <= multiset(s.data.delivered + wanted);
      var i := NextDownload(s.data, d);
      var first := ReaderEnds(routes, s, i, DataPlane.Work(s.data.streams));
      var next := Exec(routes, s, first).value;
      var rest := DownloadsInAnyOrder(routes, next, others);
      ExecAppend(routes, s, first, rest);
      steps := first + rest;
    }
  }

  // ---------- all possible views occur ----------

  /** Some run of the script's client leads to the state. */
  ghost predicate Reachable(routes: Routes, script: seq<seq<Byte>>, s: State) {
    exists steps :: Exec(routes, Init(script), steps) == Some(s)
  }

  lemma ReachableFrom(routes: Routes, script: seq<seq<Byte>>, s: State, steps: seq<Step>)
    requires Reachable(routes, script, s) && Exec(routes, s, steps).Some?
    ensures Reachable(routes, script, Exec(routes, s, steps).value)
    ensures Inv(routes, script, s) && Inv(routes, script, Exec(routes, s, steps).value)
  {
    var before :| Exec(routes, Init(script), before) == Some(s);
    ReachableInv(routes, script, before);
    ExecInv(routes, script, s, steps);
    ExecAppend(routes, Init(script), before, steps);
    assert Exec(routes, Init(script), before + steps) == Some(Exec(routes, s, steps).value);
  }

  lemma InitReachable(routes: Routes, script: seq<seq<Byte>>)
    ensures Reachable(routes, script, Init(script)) && Inv(routes, script, Init(script))
  {
    assert Exec(routes, Init(script), []) == Some(Init(script));
    InitInv(routes, script);
  }

  /** Some bytes as one piece, if there are any. */
  function Whole(bytes: seq<Byte>): (chunks: seq<seq<Byte>>)
    ensures NoneEmpty(chunks)
  {
    if bytes == [] then [] else [bytes]
  }

  lemma WholeFlat(bytes: seq<Byte>)
    ensures Flatten(Whole(bytes)) == bytes
  {
    EmptyRight(bytes);
  }

  lemma InputOccurs(routes: Routes, script: seq<seq<Byte>>, k: nat, reached: seq<Byte>) returns (s: State)
    requires k <= |script| && reached <= Flatten(script[..k])
    ensures Reachable(routes, script, s) && Inv(routes, script, s)
    ensures Shows(script, s, View(k, reached, [], [], [], [])) && Unread(s.data)
  {
    InitReachable(routes, script);
    var writes := WritesAnytime(routes, Init(script), k);
    var wrote := Exec(routes, Init(script), writes).value;
    ReachableFrom(routes, script, Init(script), writes);
    EmptyLeft(Flatten(script[..k]));
    WholeFlat(reached);
    var pieces := PiecesReachServer(routes, wrote, Whole(reached));
    s := Exec(routes, wrote, pieces).value;
    ReachableFrom(routes, script, wrote, pieces);
    EmptyLeft(reached);
  }

  lemma LogOccurs(routes: Routes, script: seq<seq<Byte>>, s: State, v: View, log: seq<Emission>) returns (t: State)
    requires Reachable(routes, script, s) && Inv(routes, script, s) && Shows(script, s, v) && v.log == []
    requires log <= Promised(routes, v.reachedServer)
    ensures Reachable(routes, script, t) && Inv(routes, script, t) && Shows(script, t, v.(log := log))
    ensures Unread(s.data) ==> Unread(t.data)
  {
    var steps := ServesUpTo(routes, script, s, |log|, Measure(s));
    t := Exec(routes, s, steps).value;
    ReachableFrom(routes, script, s, steps);
    LogIsPromised(routes, t);
  }

  lemma AnswersOccur(routes: Routes, script: seq<seq<Byte>>, s: State, v: View, bytes: seq<Byte>) returns (t: State)
    requires Reachable(routes, script, s) && Inv(routes, script, s) && Shows(script, s, v) && v.reachedClient == []
    requires bytes <= ControlWire(v.log)
    ensures Reachable(routes, script, t) && Inv(routes, script, t) && Shows(script, t, v.(reachedClient := bytes))
    ensures t.data == s.data
  {
    WholeFlat(bytes);
    EmptyLeft(s.toClient);
    EmptyLeft(bytes);
    var steps := PiecesReachClient(routes, s, Whole(bytes));
    t := Exec(routes, s, steps).value;
    ReachableFrom(routes, script, s, steps);
  }

  lemma AcceptedOccur(routes: Routes, script: seq<seq<Byte>>, s: State, v: View, accepted: seq<seq<Byte>>)
    returns (t: State)
    requires Reachable(routes, script, s) && Inv(routes, script, s) && Shows(script, s, v) && v.accepted == []
    requires accepted <= Accepted(CLIENT, v.reachedClient)
    ensures Reachable(routes, script, t) && Inv(routes, script, t) && Shows(script, t, v.(accepted := accepted))
    ensures t.data == s.data
  {
    var steps := ClientAccepts(routes, s, |accepted|);
    t := Exec(routes, s, steps).value;
    ReachableFrom(routes, script, s, steps);
    AcceptedSoFar(t.client, t.reachedClient);
  }

  lemma SentOccurs(routes: Routes, script: seq<seq<Byte>>, s: State, v: View) returns (t: State)
    requires Reachable(routes, script, s) && Inv(routes, script, s) && Shows(script, s, v)
    ensures Reachable(routes, script, t) && Inv(routes, script, t) && Shows(script, t, v)
    ensures AllFinished(t.data) && (Unread(s.data) ==> Unread(t.data))
  {
    var steps := FinishesSending(routes, script, s, Measure(s));
    t := Exec(routes, s, steps).value;
    ReachableFrom(routes, script, s, steps);
  }

  lemma DownloadsOccur(routes: Routes, script: seq<seq<Byte>>, s: State, v: View, delivered: seq<(U32, seq<Byte>)>)
    returns (t: State)
    requires Reachable(routes, script, s) && Inv(routes, script, s) && Shows(script, s, v)
    requires v.delivered == [] && AllFinished(s.data) && multiset(delivered) <= multiset(StreamsOf(v.log))
    ensures Reachable(routes, script, t) && Inv(routes, script, t) && Shows(script, t, v.(delivered := delivered))
  {
    EmptyLeft(delivered);
    var steps := DownloadsInAnyOrder(routes, s, delivered);
    t := Exec(routes, s, steps).value;
    ReachableFrom(routes, script, s, steps);
  }

  /** Everything up to the downloads can happen before any of them starts. */
  lemma UnreadOccurs(routes: Routes, script: seq<seq<Byte>>, v: View) returns (s: State)
    requires Possible(routes, script, v)
    ensures Reachable(routes, script, s) && Inv(routes, script, s) && Shows(script, s, v.(delivered := []))
    ensures AllFinished(s.data) && Unread(s.data)
  {
    s := InputOccurs(routes, script, v.writes, v.reachedServer);
    var seen := View(v.writes, v.reachedServer, [], [], [], []);
    s := LogOccurs(routes, script, s, seen, v.log);
    seen := seen.(log := v.log);
    s := AnswersOccur(routes, script, s, seen, v.reachedClient);
    seen := seen.(reachedClient := v.reachedClient);
    s := AcceptedOccur(routes, script, s, seen, v.accepted);
    seen := seen.(accepted := v.accepted);
    s := SentOccurs(routes, script, s, seen);
  }

  lemma PossibleOccurs(routes: Routes, script: seq<seq<Byte>>, v: View) returns (s: State)
    requires Possible(routes, script, v)
    ensures Reachable(routes, script, s) && Inv(routes, script, s) && Shows(script, s, v)
  {
    s := UnreadOccurs(routes, script, v);
    s := DownloadsOccur(routes, script, s, v.(delivered := []), v.delivered);
  }

  /** Safety and possibility in one: a view of the connection occurs in some run exactly when the server
      was given a prefix of what was written, emitted a prefix of what dispatch promises for that, the
      client was given a prefix of those answers and decoded a prefix of the responses in them, and the
      downloads are some of the streams, in any order. No view waits for any other part to catch up. */
  lemma ViewsExactly(routes: Routes, script: seq<seq<Byte>>, v: View)
    ensures (exists steps :: Exec(routes, Init(script), steps).Some?
                             && Shows(script, Exec(routes, Init(script), steps).value, v))
            <==> Possible(routes, script, v)
  {
    if steps :| Exec(routes, Init(script), steps).Some?
                && Shows(script, Exec(routes, Init(script), steps).value, v) {
      ReachableInv(routes, script, steps);
      ShownIsPossible(routes, script, Exec(routes, Init(script), steps).value, v);
    }
    if Possible(routes, script, v) {
      var s := PossibleOccurs(routes, script, v);
      var steps :| Exec(routes, Init(script), steps) == Some(s);
      assert Shows(script, Exec(routes, Init(script), steps).value, v);
    }
  }

  lemma HoldAndEnd(routes: Routes, s: State, i: nat, n: nat, other: nat) returns (steps: seq<Step>)
    requires DataPlane.Inv(s.data) && AllFinished(s.data) && Unread(s.data)
    requires i < |s.data.streams| && other < |s.data.streams| && other != i && n <= |s.data.streams[i].source|
    ensures Exec(routes, s, steps).Some?
    ensures var data, early, late := Exec(routes, s, steps).value.data, s.data.streams[i], s.data.streams[other];
            && Exec(routes, s, steps).value == s.(data := data)
            && data.delivered == s.data.delivered + [(late.id, late.source)]
            && |data.streams| == |s.data.streams|
            && data.streams[i].intake == DataPlane.Reading(early.id, early.source[..n])
            && data.streams[other].intake == DataPlane.Ended(late.id, late.source)
  {
    var holds := ReaderHolds(routes, s, i, n, DataPlane.Work(s.data.streams));
    var held := Exec(routes, s, holds).value;
    var ends := ReaderEnds(routes, held, other, DataPlane.Work(held.data.streams));
    ExecAppend(routes, s, holds, ends);
    steps := holds + ends;
  }

  /** A reader can hold any part of its stream while any other one has ended, whichever was sent first. */
  lemma ReadersOverlap(routes: Routes, script: seq<seq<Byte>>, v: View, i: nat, n: nat, other: nat)
    returns (s: State)
    requires Possible(routes, script, v)
    requires i < |StreamsOf(v.log)| && n <= |StreamsOf(v.log)[i].1| && other < |StreamsOf(v.log)| && other != i
    ensures Reachable(routes, script, s) && Shows(script, s, v.(delivered := [StreamsOf(v.log)[other]]))
    ensures |s.data.streams| == |StreamsOf(v.log)|
    ensures s.data.streams[i].intake == DataPlane.Reading(StreamsOf(v.log)[i].0, StreamsOf(v.log)[i].1[..n])
    ensures s.data.streams[other].intake == DataPlane.Ended(StreamsOf(v.log)[other].0, StreamsOf(v.log)[other].1)
  {
    var sent := UnreadOccurs(routes, script, v);
    var streams := DataPlane.Opened(sent.data.streams);
    assert streams[i] == StreamsOf(v.log)[i] && streams[other] == StreamsOf(v.log)[other];
    var steps := HoldAndEnd(routes, sent, i, n, other);
    s := Exec(routes, sent, steps).value;
    ReachableFrom(routes, script, sent, steps);
    EmptyLeft([streams[other]]);
  }

  // ---------- any pieces, over whole runs ----------

  /** Observed byte strings that end as they began never grew. */
  lemma {:induction false} NothingGrew(routes: Routes, s: State, steps: seq<Step>)
    requires Exec(routes, s, steps).Some?
    ensures var t := Exec(routes, s, steps).value;
            && |s.reachedServer| <= |t.reachedServer| && |s.reachedClient| <= |t.reachedClient|
            && (t.reachedServer == s.reachedServer ==> Growth(AtServer, routes, s, steps) == [])
            && (t.reachedClient == s.reachedClient ==> Growth(AtClient, routes, s, steps) == [])
    decreases |steps|
  {
    if steps != [] {
      NothingGrew(routes, Apply(routes, s, steps[0]), steps[1..]);
    }
  }

  lemma {:induction false} GrowthAppend(observe: State -> seq<Byte>, routes: Routes, s: State,
                                        a: seq<Step>, b: seq<Step>)
    requires Exec(routes, s, a).Some? && Exec(routes, Exec(routes, s, a).value, b).Some?
    ensures Exec(routes, s, a + b).Some?
    ensures Growth(observe, routes, s, a + b)
         == Growth(observe, routes, s, a) + Growth(observe, routes, Exec(routes, s, a).value, b)
    decreases |a|
  {
    if a == [] {
      EmptyLeft(b);
      EmptyLeft(Growth(observe, routes, s, b));
    } else {
      var next, rest := Apply(routes, s, a[0]), a[1..];
      assert a == [a[0]] + rest;
      Assoc([a[0]], rest, b);
      GrowthAppend(observe, routes, next, rest, b);
      GrowthFirst(observe, routes, s, a[0], rest);
      GrowthFirst(observe, routes, s, a[0], rest + b);
      Assoc(if |observe(s)| < |observe(next)| then [observe(next)[|observe(s)|..]] else [],
            Growth(observe, routes, next, rest),
            Growth(observe, routes, Exec(routes, s, a).value, b));
    }
  }

  /** However a client's bytes are cut, some run brings exactly those pieces to the server, one by one. */
  lemma AnyPiecesToServer(routes: Routes, script: seq<seq<Byte>>, chunks: seq<seq<Byte>>)
    returns (steps: seq<Step>)
    requires NoneEmpty(chunks) && Flatten(chunks) <= Flatten(script)
    ensures Exec(routes, Init(script), steps).Some? && Growth(AtServer, routes, Init(script), steps) == chunks
  {
    assert script[..|script|] == script;
    var writes := WritesAnytime(routes, Init(script), |script|);
    NothingGrew(routes, Init(script), writes);
    EmptyLeft(Flatten(script));
    var pieces := PiecesReachServer(routes, Exec(routes, Init(script), writes).value, chunks);
    GrowthAppend(AtServer, routes, Init(script), writes, pieces);
    EmptyLeft(chunks);
    steps := writes + pieces;
  }

  /** And however the answers are cut, some run brings exactly those pieces to the client. */
  lemma AnyPiecesToClient(routes: Routes, script: seq<seq<Byte>>, chunks: seq<seq<Byte>>)
    returns (steps: seq<Step>)
    requires NoneEmpty(chunks) && Flatten(chunks) <= ControlWire(Promised(routes, Flatten(script)))
    ensures Exec(routes, Init(script), steps).Some? && Growth(AtClient, routes, Init(script), steps) == chunks
  {
    assert script[..|script|] == script;
    var promised := Promised(routes, Flatten(script));
    var s := PossibleOccurs(routes, script, View(|script|, Flatten(script), promised, [], [], []));
    var before :| Exec(routes, Init(script), before) == Some(s);
    NothingGrew(routes, Init(script), before);
    EmptyLeft(s.toClient);
    var pieces := PiecesReachClient(routes, s, chunks);
    GrowthAppend(AtClient, routes, Init(script), before, pieces);
    EmptyLeft(chunks);
    steps := before + pieces;
  }
}
