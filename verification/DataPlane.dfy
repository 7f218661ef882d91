/**
 The data plane of one direction as a step system: any number of unidirectional streams, each with a
 chunked copy on the sending side, bytes in flight, and a reader that may be accepted at any time and
 reads in pieces of any size.
 */
module DataPlane {
  import opened Bytes
  import opened Transport

  datatype Intake =
    | Unaccepted
    | Preamble
    | Reading(id: U32, got: seq<Byte>)
    | Ended(id: U32, got: seq<Byte>)

  datatype Stream = Stream(
    id: U32,
    source: seq<Byte>,
    uncopied: seq<Byte>,
    finished: bool,
    inFlight: seq<Byte>,
    arrived: seq<Byte>,
    intake: Intake)

  /** `delivered` lists the finished downloads in the order their readers finished. */
  datatype State = State(streams: seq<Stream>, delivered: seq<(U32, seq<Byte>)>)

  const EMPTY: State := State([], [])

  datatype Step =
    | Copy(i: nat, n: nat)
    | Finish(i: nat)
    | Deliver(i: nat, n: nat)
    | Accept(i: nat)
    | ReadPreamble(i: nat)
    | ReadChunk(i: nat, n: nat)
    | ReadEnd(i: nat)

  /** A stream just opened: the preamble is written, the copy follows. */
  function Fresh(id: U32, source: seq<Byte>): Stream {
    Stream(id, source, source, false, LE32(id), [], Unaccepted)
  }

  function Open(s: State, id: U32, source: seq<Byte>): State {
    s.(streams := s.streams + [Fresh(id, source)])
  }

  predicate EnabledOn(t: Stream, step: Step) {
    match step
    case Copy(_, n) => 0 < n <= |t.uncopied|
    case Finish(_) => t.uncopied == [] && !t.finished
    case Deliver(_, n) => 0 < n <= |t.inFlight|
    case Accept(_) => t.intake.Unaccepted?
    case ReadPreamble(_) => t.intake.Preamble? && |t.arrived| >= 4
    case ReadChunk(_, n) => t.intake.Reading? && 0 < n <= |t.arrived|
    case ReadEnd(_) => t.intake.Reading? && t.finished && t.inFlight == [] && t.arrived == []
  }

  function ApplyOn(t: Stream, step: Step): Stream
    requires EnabledOn(t, step)
  {
    match step
    case Copy(_, n) => t.(uncopied := t.uncopied[n..], inFlight := t.inFlight + t.uncopied[..n])
    case Finish(_) => t.(finished := true)
    case Deliver(_, n) => t.(inFlight := t.inFlight[n..], arrived := t.arrived + t.inFlight[..n])
    case Accept(_) => t.(intake := Preamble)
    case ReadPreamble(_) => t.(arrived := t.arrived[4..], intake := Reading(FromLE32(t.arrived[..4]), []))
    case ReadChunk(_, n) =>
      t.(arrived := t.arrived[n..], intake := Reading(t.intake.id, t.intake.got + t.arrived[..n]))
    case ReadEnd(_) => t.(intake := Ended(t.intake.id, t.intake.got))
  }

  predicate Enabled(s: State, step: Step) {
    step.i < |s.streams| && EnabledOn(s.streams[step.i], step)
  }

  function Apply(s: State, step: Step): State
    requires Enabled(s, step)
  {
    var t := s.streams[step.i];
    State(
      s.streams[step.i := ApplyOn(t, step)],
      if step.ReadEnd? then s.delivered + [(t.intake.id, t.intake.got)] else s.delivered)
  }

  // ---------- one stream ----------

  function Taken(intake: Intake): seq<Byte> {
    match intake
    case Unaccepted => []
    case Preamble => []
    case Reading(id, got) => DataWire(id, got)
    case Ended(id, got) => DataWire(id, got)
  }

  /** Every byte of preamble and source is in exactly one place, in order. */
  ghost predicate StreamOk(t: Stream) {
    && DataWire(t.id, t.source) == Taken(t.intake) + t.arrived + t.inFlight + t.uncopied
    && (t.finished ==> t.uncopied == [])
    && (t.intake.Ended? ==> t.finished && t.inFlight == [] && t.arrived == [])
  }

  lemma StreamStep(t: Stream, step: Step)
    requires StreamOk(t) && EnabledOn(t, step)
    ensures StreamOk(ApplyOn(t, step))
  {
    var front := Taken(t.intake);
    match step {
      case Copy(_, n) =>
        var moved, rest := t.uncopied[..n], t.uncopied[n..];
        Cut(t.uncopied, n);
        Assoc(front + t.arrived + t.inFlight, moved, rest);
        Assoc(front + t.arrived, t.inFlight, moved);
      case Deliver(_, n) =>
        var moved, rest := t.inFlight[..n], t.inFlight[n..];
        Cut(t.inFlight, n);
        Assoc(front + t.arrived, moved, rest);
        Assoc(front, t.arrived, moved);
      case ReadPreamble(_) =>
        var moved, rest := t.arrived[..4], t.arrived[4..];
        FromLE32RoundTrip(moved);
        Cut(t.arrived, 4);
        EmptyRight(moved);
        assert front + t.arrived == t.arrived;
      case ReadChunk(_, n) =>
        var moved, rest := t.arrived[..n], t.arrived[n..];
        Cut(t.arrived, n);
        Assoc(front, moved, rest);
        Assoc(LE32(t.intake.id), t.intake.got, moved);
      case _ =>
    }
  }

  /** A reader only ever sees the id its stream was opened with, and a prefix of that stream's own
      source; all of it once the stream has ended. */
  lemma StreamAttribution(t: Stream)
    requires StreamOk(t)
    ensures t.intake.Reading? || t.intake.Ended? ==> t.intake.id == t.id && t.intake.got <= t.source
    ensures t.intake.Ended? ==> t.intake.got == t.source
  {
    if t.intake.Reading? || t.intake.Ended? {
      var rest := t.arrived + t.inFlight + t.uncopied;
      var whole := t.intake.got + rest;
      assert Taken(t.intake) + t.arrived + t.inFlight + t.uncopied == Taken(t.intake) + rest;
      Assoc(LE32(t.intake.id), t.intake.got, rest);
      DataStreamRoundTrip(t.id, t.source, t.intake.id, whole);
      if t.intake.Ended? {
        assert rest == [];
      }
    }
  }

  // ---------- all streams ----------

  ghost predicate Sound(s: State) {
    forall i | 0 <= i < |s.streams| :: StreamOk(s.streams[i])
  }

  function Opened(streams: seq<Stream>): seq<(U32, seq<Byte>)> {
    seq(|streams|, i requires 0 <= i < |streams| => (streams[i].id, streams[i].source))
  }

  /** What the ended readers hold, as a bag. */
  ghost function EndedBag(streams: seq<Stream>): multiset<(U32, seq<Byte>)> {
    if streams == [] then multiset{}
    else
      var t := streams[|streams| - 1];
      EndedBag(streams[..|streams| - 1]) + if t.intake.Ended? then multiset{(t.intake.id, t.intake.got)} else multiset{}
  }

  lemma {:induction false} EndedBagUpdate(streams: seq<Stream>, i: nat, t: Stream)
    requires i < |streams| && !streams[i].intake.Ended?
    ensures EndedBag(streams[i := t]) ==
            EndedBag(streams) + if t.intake.Ended? then multiset{(t.intake.id, t.intake.got)} else multiset{}
  {
    var n := |streams| - 1;
    var after := streams[i := t];
    if i == n {
      assert after[..n] == streams[..n];
    } else {
      assert after[..n] == streams[..n][i := t];
      EndedBagUpdate(streams[..n], i, t);
    }
  }

  ghost predicate Inv(s: State) {
    Sound(s) && multiset(s.delivered) == EndedBag(s.streams)
  }

  lemma FreshOk(id: U32, source: seq<Byte>)
    ensures StreamOk(Fresh(id, source))
  {
    var preamble := LE32(id);
    assert [] + [] + preamble == preamble;
  }

  lemma OpenInv(s: State, id: U32, source: seq<Byte>)
    requires Inv(s)
    ensures Inv(Open(s, id, source))
    ensures Opened(Open(s, id, source).streams) == Opened(s.streams) + [(id, source)]
  {
    var t := Fresh(id, source);
    var after := s.streams + [t];
    FreshOk(id, source);
    assert after[..|after| - 1] == s.streams && after[|after| - 1] == t;
    forall i | 0 <= i < |after| ensures StreamOk(after[i]) {
      assert i < |s.streams| ==> after[i] == s.streams[i];
    }
  }

  lemma StepSound(s: State, step: Step)
    requires Sound(s) && Enabled(s, step)
    ensures Sound(Apply(s, step))
    ensures Opened(Apply(s, step).streams) == Opened(s.streams)
  {
    StreamStep(s.streams[step.i], step);
  }

  lemma StepInv(s: State, step: Step)
    requires Inv(s) && Enabled(s, step)
    ensures Inv(Apply(s, step))
    ensures Opened(Apply(s, step).streams) == Opened(s.streams)
  {
    StepSound(s, step);
    var t := s.streams[step.i];
    assert StreamOk(t);
    assert !t.intake.Ended?;
    EndedBagUpdate(s.streams, step.i, ApplyOn(t, step));
    if step.ReadEnd? {
      assert multiset(s.delivered + [(t.intake.id, t.intake.got)])
          == multiset(s.delivered) + multiset{(t.intake.id, t.intake.got)};
    }
  }

  lemma OpenedSnoc(streams: seq<Stream>)
    requires streams != []
    ensures var last := streams[|streams| - 1];
            multiset(Opened(streams)) == multiset(Opened(streams[..|streams| - 1])) + multiset{(last.id, last.source)}
  {
    var n := |streams| - 1;
    assert Opened(streams) == Opened(streams[..n]) + [(streams[n].id, streams[n].source)];
  }

  /** What has been delivered is part of what was opened, with multiplicities, id by id. */
  lemma {:induction false} EndedWithinOpened(streams: seq<Stream>)
    requires forall i | 0 <= i < |streams| :: StreamOk(streams[i])
    ensures EndedBag(streams) <= multiset(Opened(streams))
  {
    if streams != [] {
      EndedWithinOpened(streams[..|streams| - 1]);
      StreamAttribution(streams[|streams| - 1]);
      OpenedSnoc(streams);
    }
  }

  lemma {:induction false} AllEndedAreOpened(streams: seq<Stream>)
    requires forall i | 0 <= i < |streams| :: StreamOk(streams[i]) && streams[i].intake.Ended?
    ensures EndedBag(streams) == multiset(Opened(streams))
  {
    if streams != [] {
      AllEndedAreOpened(streams[..|streams| - 1]);
      StreamAttribution(streams[|streams| - 1]);
      OpenedSnoc(streams);
    }
  }

  /** Conservation: at every moment the deliveries are a sub-bag of the openings, and when every
      reader has ended they are the same bag, whatever the accept order. */
  lemma Conservation(s: State)
    requires Inv(s)
    ensures multiset(s.delivered) <= multiset(Opened(s.streams))
    ensures (forall i | 0 <= i < |s.streams| :: s.streams[i].intake.Ended?) ==>
              multiset(s.delivered) == multiset(Opened(s.streams))
  {
    EndedWithinOpened(s.streams);
    if forall i | 0 <= i < |s.streams| :: s.streams[i].intake.Ended? {
      AllEndedAreOpened(s.streams);
    }
  }

  // ---------- progress ----------

  function StreamWork(t: Stream): nat {
    3 * |t.uncopied| + 2 * |t.inFlight| + |t.arrived| + (if t.finished then 0 else 1)
    + match t.intake
      case Unaccepted => 3
      case Preamble => 2
      case Reading(_, _) => 1
      case Ended(_, _) => 0
  }

  function Work(streams: seq<Stream>): nat {
    if streams == [] then 0 else Work(streams[..|streams| - 1]) + StreamWork(streams[|streams| - 1])
  }

  lemma {:induction false} WorkUpdate(streams: seq<Stream>, i: nat, t: Stream)
    requires i < |streams|
    ensures Work(streams[i := t]) == Work(streams) - StreamWork(streams[i]) + StreamWork(t)
  {
    var n := |streams| - 1;
    var after := streams[i := t];
    if i == n {
      assert after[..n] == streams[..n];
    } else {
      assert after[..n] == streams[..n][i := t];
      WorkUpdate(streams[..n], i, t);
    }
  }

  lemma StepWork(s: State, step: Step)
    requires Enabled(s, step)
    ensures Work(Apply(s, step).streams) < Work(s.streams)
  {
    WorkUpdate(s.streams, step.i, ApplyOn(s.streams[step.i], step));
  }

  /** A step some stream can take while its reader has not ended. */
  function Pending(t: Stream, i: nat): Step {
    if t.uncopied != [] then Copy(i, |t.uncopied|)
    else if !t.finished then Finish(i)
    else if t.inFlight != [] then Deliver(i, |t.inFlight|)
    else if t.intake.Unaccepted? then Accept(i)
    else if t.intake.Preamble? then ReadPreamble(i)
    else if t.arrived != [] then ReadChunk(i, |t.arrived|)
    else ReadEnd(i)
  }

  /** No stream gets stuck: as long as a reader has not ended, its stream can move. */
  lemma StreamProgress(s: State, i: nat)
    requires Inv(s) && i < |s.streams| && !s.streams[i].intake.Ended?
    ensures Enabled(s, Pending(s.streams[i], i))
  {
    var t := s.streams[i];
    assert StreamOk(t);
    if t.uncopied == [] && t.inFlight == [] && t.intake.Preamble? {
      assert |t.arrived| == |DataWire(t.id, t.source)|;
    }
  }
}
