/** Registration and dispatch over a map from action to URI to handler. */
module Router {
  import opened Results
  import opened Protocol
  import opened Server

  type Routes = map<Action, map<Uri, Handler>>

  datatype Registration = Registration(action: Action, uri: Uri, handler: Handler)

  function Lookup(routes: Routes, action: Action, uri: Uri): Option<Handler> {
    if action in routes && uri in routes[action] then Some(routes[action][uri]) else None
  }

  /** What a request makes the server do; a missing route answers NotFound and succeeds. */
  function Dispatch(routes: Routes, req: Request): Outcome {
    match Lookup(routes, req.action, req.uri)
    case Some(handler) => handler(req)
    case None => Outcome([Respond(Response(req.id, NotFound))], true)
  }

  /** The handler of the last registration under a key: the flat reading of a route chain. */
  function LastRegistered(regs: seq<Registration>, action: Action, uri: Uri): Option<Handler> {
    if regs == [] then None
    else
      var last := regs[|regs| - 1];
      if last.action == action && last.uri == uri then Some(last.handler)
      else LastRegistered(regs[..|regs| - 1], action, uri)
  }

  function Register(routes: Routes, r: Registration): Routes {
    var inner := if r.action in routes then routes[r.action] else map[];
    routes[r.action := inner[r.uri := r.handler]]
  }

  function RegisterAll(regs: seq<Registration>): Routes {
    if regs == [] then map[] else Register(RegisterAll(regs[..|regs| - 1]), regs[|regs| - 1])
  }

  lemma RegisterAllSnoc(regs: seq<Registration>, r: Registration)
    ensures RegisterAll(regs + [r]) == Register(RegisterAll(regs), r)
  {
    assert (regs + [r])[..|regs|] == regs;
  }

  predicate NoEmptyInner(routes: Routes) {
    forall action | action in routes :: routes[action] != map[]
  }

  lemma AppendNext<T>(before: seq<T>, s: seq<T>, i: nat)
    requires i < |s|
    ensures before + s[..i] + [s[i]] == before + s[..i + 1]
  {
  }

  /** The last registration of a key is the one no later registration of the same key follows. */
  lemma {:induction false} LastRegisteredIs(regs: seq<Registration>, action: Action, uri: Uri, handler: Handler)
    ensures LastRegistered(regs, action, uri) == Some(handler) <==>
            exists i :: 0 <= i < |regs| && regs[i] == Registration(action, uri, handler)
                        && forall j | i < j < |regs| :: (regs[j].action, regs[j].uri) != (action, uri)
  {
    if regs != [] {
      var n := |regs| - 1;
      LastRegisteredIs(regs[..n], action, uri, handler);
      if (regs[n].action, regs[n].uri) == (action, uri) {
        if i :| && 0 <= i < |regs| && regs[i] == Registration(action, uri, handler)
                && forall j | i < j < |regs| :: (regs[j].action, regs[j].uri) != (action, uri) {
          assert i == n;
        }
      }
    }
  }

  /** A handler call: its effects on the connection happen one after the other. */
  method Call(handler: Handler, req: Request, conn: ServerConnection) returns (ok: bool)
    requires conn.Valid()
    modifies conn.controlSend, conn`dataSent, conn`log
    ensures conn.Valid()
    ensures conn.log == old(conn.log) + handler(req).emissions
    ensures ok == handler(req).ok
  {
    var emissions := handler(req).emissions;
    ghost var before := conn.log;
    for i := 0 to |emissions|
      invariant conn.Valid()
      invariant conn.log == before + emissions[..i]
    {
      AppendNext(before, emissions, i);
      conn.Emit(emissions[i]);
    }
    ok := handler(req).ok;
  }

  class BxpRouter {
    var routes: Routes
    ghost var registered: seq<Registration>

    ghost predicate Valid()
      reads this
    {
      routes == RegisterAll(registered)
    }

    constructor ()
      ensures Valid() && registered == []
    {
      routes, registered := map[], [];
    }

    method Route(action: Action, uri: Uri, handler: Handler)
      requires Valid()
      modifies this
      ensures Valid() && registered == old(registered) + [Registration(action, uri, handler)]
    {
      ghost var r := Registration(action, uri, handler);
      RegisterAllSnoc(registered, r);
      if action !in routes {
        routes := routes[action := map[]];
      }
      var inner: map<Uri, Handler> := routes[action];
      inner := inner[uri := handler];
      routes := routes[action := inner];
      registered := registered + [r];
    }

    method HandleRequest(req: Request, conn: ServerConnection) returns (ok: bool)
      requires conn.Valid()
      modifies conn.controlSend, conn`dataSent, conn`log
      ensures conn.Valid()
      ensures conn.log == old(conn.log) + Dispatch(routes, req).emissions
      ensures ok == Dispatch(routes, req).ok
      ensures Valid() ==>
                match LastRegistered(registered, req.action, req.uri)
                case Some(handler) => conn.log == old(conn.log) + handler(req).emissions && ok == handler(req).ok
                case None => conn.log == old(conn.log) + [Respond(Response(req.id, NotFound))] && ok
    {
      if Valid() {
        NestedRefinesFlat(registered, req.action, req.uri);
      }
      if req.action in routes && req.uri in routes[req.action] {
        ok := Call(routes[req.action][req.uri], req, conn);
      } else {
        conn.SendResponse(req.id, NotFound);
        ok := true;
      }
    }
  }

  /** The nested map is the flat registration list with the last registration winning. */
  lemma {:induction false} NestedRefinesFlat(regs: seq<Registration>, action: Action, uri: Uri)
    ensures Lookup(RegisterAll(regs), action, uri) == LastRegistered(regs, action, uri)
  {
    if regs != [] {
      NestedRefinesFlat(regs[..|regs| - 1], action, uri);
    }
  }

  lemma {:induction false} RegisterAllNoEmptyInner(regs: seq<Registration>)
    ensures NoEmptyInner(RegisterAll(regs))
  {
    if regs != [] {
      var last := regs[|regs| - 1];
      RegisterAllNoEmptyInner(regs[..|regs| - 1]);
      assert last.uri in RegisterAll(regs)[last.action];
    }
  }

  /** Without empty inner maps, a table is determined by what it looks up. */
  lemma LookupDetermines(a: Routes, b: Routes)
    requires NoEmptyInner(a) && NoEmptyInner(b)
    requires forall action, uri :: Lookup(a, action, uri) == Lookup(b, action, uri)
    ensures a == b
  {
    forall action ensures action in a ==> action in b && a[action] == b[action] {
      if action in a {
        SameInner(a, b, action);
      }
    }
    forall action ensures action in b ==> action in a {
      if action in b {
        SameInner(b, a, action);
      }
    }
  }

  lemma SameInner(a: Routes, b: Routes, action: Action)
    requires NoEmptyInner(a) && action in a
    requires forall uri :: Lookup(a, action, uri) == Lookup(b, action, uri)
    ensures action in b && a[action] == b[action]
  {
    var uri :| uri in a[action];
    assert Lookup(a, action, uri).Some?;
    forall u ensures u in a[action] <==> u in b[action] {
      assert Lookup(a, action, u) == Lookup(b, action, u);
    }
    forall u | u in a[action] ensures a[action][u] == b[action][u] {
      assert Lookup(a, action, u) == Lookup(b, action, u);
    }
  }

  ghost predicate DistinctKeys(regs: seq<Registration>) {
    forall i, j | 0 <= i < j < |regs| :: (regs[i].action, regs[i].uri) != (regs[j].action, regs[j].uri)
  }

  lemma {:induction false} LookupIsRegistered(regs: seq<Registration>, action: Action, uri: Uri)
    ensures LastRegistered(regs, action, uri).Some? ==>
              Registration(action, uri, LastRegistered(regs, action, uri).value) in regs
  {
    if regs != [] {
      LookupIsRegistered(regs[..|regs| - 1], action, uri);
    }
  }

  lemma {:induction false} DistinctFinds(regs: seq<Registration>, r: Registration)
    requires DistinctKeys(regs) && r in regs
    ensures LastRegistered(regs, r.action, r.uri) == Some(r.handler)
  {
    var init, last := regs[..|regs| - 1], regs[|regs| - 1];
    assert regs == init + [last];
    if r in init {
      var i :| 0 <= i < |init| && init[i] == r;
      assert (regs[i].action, regs[i].uri) != (last.action, last.uri);
      DistinctFinds(init, r);
    }
  }

  lemma SameLookup(a: seq<Registration>, b: seq<Registration>, action: Action, uri: Uri)
    requires DistinctKeys(a) && DistinctKeys(b)
    requires forall r :: r in a <==> r in b
    ensures LastRegistered(a, action, uri) == LastRegistered(b, action, uri)
  {
    LookupIsRegistered(a, action, uri);
    LookupIsRegistered(b, action, uri);
    var inA, inB := LastRegistered(a, action, uri), LastRegistered(b, action, uri);
    if inA.Some? {
      DistinctFinds(b, Registration(action, uri, inA.value));
    } else if inB.Some? {
      DistinctFinds(a, Registration(action, uri, inB.value));
    }
  }

  /** Permuting registrations with distinct keys gives the same table. */
  lemma RegistrationOrderIrrelevant(a: seq<Registration>, b: seq<Registration>)
    requires DistinctKeys(a) && DistinctKeys(b)
    requires forall r :: r in a <==> r in b
    ensures RegisterAll(a) == RegisterAll(b)
  {
    forall action, uri ensures Lookup(RegisterAll(a), action, uri) == Lookup(RegisterAll(b), action, uri) {
      NestedRefinesFlat(a, action, uri);
      NestedRefinesFlat(b, action, uri);
      SameLookup(a, b, action, uri);
    }
    RegisterAllNoEmptyInner(a);
    RegisterAllNoEmptyInner(b);
    LookupDetermines(RegisterAll(a), RegisterAll(b));
  }
}
