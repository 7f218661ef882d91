/** The message types of the control plane and what a handler may do. */
module Protocol {
  import opened Results
  import opened Bytes
  import Utf8

  datatype Action = Fetch | Push | Ping

  datatype Status = Success | BadRequest | Unauthorized | NotFound | InternalError

  type Uri = s: seq<Byte> | Utf8.Valid(s) witness []

  datatype Request = Request(id: U32, action: Action, uri: Uri)

  datatype Response = Response(id: U32, status: Status)

  /** One effect of a handler on its connection, in the order it happens. */
  datatype Emission = Respond(response: Response) | Stream(id: U32, source: seq<Byte>)

  /** A handler call: what it emitted, and whether it returned an error afterwards. */
  datatype Outcome = Outcome(emissions: seq<Emission>, ok: bool)

  type Handler = Request -> Outcome

  datatype DecodeError =
    | PrematureEnd
    | OutOfBounds
    | WrongPointerKind
    | WrongElementSize
    | MissingNul
    | NotUtf8
    | NotInSchema

  datatype ReceiveError =
    | EndOfStream
    | TooLarge(len: U32)
    | Malformed(why: DecodeError)

  function ActionCode(a: Action): U16 {
    match a
    case Fetch => 0
    case Push => 1
    case Ping => 2
  }

  function ActionOf(code: U16): Result<Action, DecodeError> {
    match code
    case 0 => Ok(Fetch)
    case 1 => Ok(Push)
    case 2 => Ok(Ping)
    case _ => Err(NotInSchema)
  }

  function StatusCode(s: Status): U16 {
    match s
    case Success => 0
    case BadRequest => 1
    case Unauthorized => 2
    case NotFound => 3
    case InternalError => 4
  }

  function StatusOf(code: U16): Result<Status, DecodeError> {
    match code
    case 0 => Ok(Success)
    case 1 => Ok(BadRequest)
    case 2 => Ok(Unauthorized)
    case 3 => Ok(NotFound)
    case 4 => Ok(InternalError)
    case _ => Err(NotInSchema)
  }

  /** The responses among some emissions, in order. */
  function ResponsesOf(log: seq<Emission>): seq<Response> {
    if log == [] then []
    else (if log[0].Respond? then [log[0].response] else []) + ResponsesOf(log[1..])
  }

  /** The data streams among some emissions, in order. */
  function StreamsOf(log: seq<Emission>): seq<(U32, seq<Byte>)> {
    if log == [] then []
    else (if log[0].Stream? then [(log[0].id, log[0].source)] else []) + StreamsOf(log[1..])
  }

  lemma {:induction false} ResponsesOfAppend(a: seq<Emission>, b: seq<Emission>)
    ensures ResponsesOf(a + b) == ResponsesOf(a) + ResponsesOf(b)
  {
    if a == [] {
      assert a + b == b;
    } else {
      var head := if a[0].Respond? then [a[0].response] else [];
      TakeDropAppend(a, 1, b);
      assert (a + b)[0] == a[0];
      ResponsesOfAppend(a[1..], b);
      Assoc(head, ResponsesOf(a[1..]), ResponsesOf(b));
    }
  }

  /** Every emission is a response or a data stream, at the place given by those before it. */
  lemma EmissionPlace(log: seq<Emission>, j: nat)
    requires j < |log|
    ensures var i, k := |ResponsesOf(log[..j])|, |StreamsOf(log[..j])|;
            && i + k == j
            && (log[j].Respond? ==> i < |ResponsesOf(log)| && ResponsesOf(log)[i] == log[j].response)
            && (log[j].Stream? ==> k < |StreamsOf(log)| && StreamsOf(log)[k] == (log[j].id, log[j].source))
  {
    var e, rest := log[j], log[j + 1..];
    assert log == log[..j] + ([e] + rest);
    ResponsesOfAppend(log[..j], [e] + rest);
    StreamsOfAppend(log[..j], [e] + rest);
    assert ([e] + rest)[1..] == rest;
    EmissionCount(log[..j]);
  }

  lemma {:induction false} EmissionCount(log: seq<Emission>)
    ensures |ResponsesOf(log)| + |StreamsOf(log)| == |log|
  {
    if log != [] {
      EmissionCount(log[1..]);
    }
  }

  lemma {:induction false} StreamsOfAppend(a: seq<Emission>, b: seq<Emission>)
    ensures StreamsOf(a + b) == StreamsOf(a) + StreamsOf(b)
  {
    if a == [] {
      assert a + b == b;
    } else {
      var head := if a[0].Stream? then [(a[0].id, a[0].source)] else [];
      TakeDropAppend(a, 1, b);
      assert (a + b)[0] == a[0];
      StreamsOfAppend(a[1..], b);
      Assoc(head, StreamsOf(a[1..]), StreamsOf(b));
    }
  }
}
