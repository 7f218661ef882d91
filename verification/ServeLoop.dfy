/** The loop that receives and dispatches until a receive fails. */
module ServeLoop {
  import opened Results
  import opened Bytes
  import opened Protocol
  import opened Framing
  import opened Messages
  import opened Server
  import opened Router

  /** Everything dispatch emits for some requests, in request order. */
  function LogFor(routes: Routes, requests: seq<Request>): seq<Emission> {
    if requests == [] then []
    else Dispatch(routes, requests[0]).emissions + LogFor(routes, requests[1..])
  }

  lemma {:induction false} LogForAppend(routes: Routes, a: seq<Request>, b: seq<Request>)
    ensures LogFor(routes, a + b) == LogFor(routes, a) + LogFor(routes, b)
  {
    if a == [] {
      assert a + b == b;
    } else {
      TakeDropAppend(a, 1, b);
      LogForAppend(routes, a[1..], b);
      Assoc(Dispatch(routes, a[0]).emissions, LogFor(routes, a[1..]), LogFor(routes, b));
    }
  }

  lemma LogForNil(routes: Routes, log: seq<Emission>)
    ensures log + LogFor(routes, []) == log
  {
  }

  lemma LogForSnoc(routes: Routes, a: seq<Request>, r: Request)
    ensures LogFor(routes, a + [r]) == LogFor(routes, a) + Dispatch(routes, r).emissions
  {
    LogForAppend(routes, a, [r]);
    assert LogFor(routes, [r]) == Dispatch(routes, r).emissions + LogFor(routes, []);
  }

  /** A receive call, tied to the messages still to come. */
  method ReceiveNext(conn: ServerConnection) returns (request: Result<Request, ReceiveError>)
    modifies conn.controlRecv
    ensures MessagesIn(SERVER, old(conn.controlRecv.Pending()))
            == Onward(SERVER, Received(request, conn.controlRecv.Pending()))
    ensures request.Ok? ==> |conn.controlRecv.Pending()| < |old(conn.controlRecv.Pending())|
  {
    ReceiveStep(SERVER, conn.controlRecv.Pending());
    request := conn.ReceiveRequest();
  }

  /** One turn of the loop body: the handler's error is dropped. */
  method HandleNext(router: BxpRouter, conn: ServerConnection, request: Request,
                    ghost before: seq<Emission>, ghost served: seq<Request>)
    requires conn.Valid() && conn.log == before + LogFor(router.routes, served)
    modifies conn.controlSend, conn`dataSent, conn`log
    ensures conn.Valid() && conn.log == before + LogFor(router.routes, served + [request])
  {
    LogForSnoc(router.routes, served, request);
    Assoc(before, LogFor(router.routes, served), Dispatch(router.routes, request).emissions);
    var ignored := router.HandleRequest(request, conn);
  }

  /** For any bytes on the control stream, in any pieces: the loop ends, handles exactly the
      requests those bytes hold, and a handler's error does not stop it. */
  method Serve(router: BxpRouter, conn: ServerConnection) returns (ghost served: seq<Request>)
    requires conn.Valid()
    modifies conn.controlRecv, conn.controlSend, conn`dataSent, conn`log
    ensures conn.Valid()
    ensures served == MessagesIn(SERVER, old(conn.controlRecv.Pending()))
    ensures conn.log == old(conn.log) + LogFor(router.routes, served)
  {
    ghost var requests, before := MessagesIn(SERVER, conn.controlRecv.Pending()), conn.log;
    served := [];
    LogForNil(router.routes, before);
    var request := ReceiveNext(conn);
    while request.Ok?
      invariant conn.Valid()
      invariant conn.log == before + LogFor(router.routes, served)
      invariant requests == served + Onward(SERVER, Received(request, conn.controlRecv.Pending()))
      decreases request.Ok?, |conn.controlRecv.Pending()|
    {
      HandleNext(router, conn, request.value, before, served);
      Assoc(served, [request.value], MessagesIn(SERVER, conn.controlRecv.Pending()));
      served := served + [request.value];
      request := ReceiveNext(conn);
    }
  }
}
