/**
  Conservation of contexts in runs without disconnects: at every moment the matrices holding a
  context for a request are exactly the tree path above the link its message is on; once nothing
  is under way, every request has been answered, exactly once, and has left no context anywhere.
  Liveness.dfy shows that deliveries always lead there.
 */
module SwitchContexts {
  import opened GlobalIds
  import opened Matrix
  import opened Hierarchy
  import opened Routing
  import opened Registration
  import opened Switching
  import Topology

  /** The matrices holding a context for a request id. */
  ghost function Holders(s: Net, id: int): set<Id> {
    set m | m in s.nodes && id in s.nodes[m].contexts
  }

  ghost predicate RequestOnWire(s: Net, fd: int, id: int) {
    fd in s.downs && exists q :: q in s.downs[fd] && q.id == id
  }

  ghost predicate ResponseOnWire(s: Net, fd: int, id: int) {
    fd in s.ups && exists r :: Resp(r) in s.ups[fd] && r.id == id
  }

  /** What is true of request `id`, by where it stands. */
  ghost predicate Exact(topo: Topo, s: Net, id: int)
    requires topo.Valid()
  {
    && id in s.track
    && (forall m :: m in Holders(s, id) && m != s.track[id].origin ==> m in s.sock)
    && match s.track[id].at
       case InDown(fd) =>
         && RequestOnWire(s, fd, id) && fd in s.link && s.link[fd] in topo.parent
         && Holders(s, id) == topo.Path(s.track[id].origin, topo.parent[s.link[fd]])
       case InUp(fd) =>
         && ResponseOnWire(s, fd, id) && fd in s.link && s.link[fd] in topo.parent
         && Holders(s, id) == topo.Path(s.track[id].origin, topo.parent[s.link[fd]])
       case Home => Holders(s, id) == {} && Completed(id, s.track[id].origin) in s.log
  }

  ghost predicate Conserved(topo: Topo, s: Net) {
    match Steady(topo, s) && Orderly(topo, s)
    case false => false
    case true => forall id :: id in s.track ==> Exact(topo, s, id)
  }

  /** Nothing that concerns request `k` changes. */
  ghost predicate KeptFor(s: Net, s': Net, k: int) {
    && k in s.track && k in s'.track && s'.track[k] == s.track[k]
    && s'.nodes.Keys == s.nodes.Keys
    && (forall m :: m in s.nodes ==> (k in s'.nodes[m].contexts <==> k in s.nodes[m].contexts))
    && (forall f :: f in s.link ==> f in s'.link && s'.link[f] == s.link[f])
    && (forall f, q :: f in s.downs && q in s.downs[f] && q.id == k ==> f in s'.downs && q in s'.downs[f])
    && (forall f, msg :: f in s.ups && msg in s.ups[f] && msg.Resp? && msg.resp.id == k ==> f in s'.ups && msg in s'.ups[f])
    && (forall e :: e in s.log ==> e in s'.log)
    && (forall m :: m in s.sock ==> m in s'.sock)
  }

  lemma {:induction false} KeptKeepsExact(topo: Topo, s: Net, s': Net, k: int)
    requires topo.Valid() && Exact(topo, s, k) && KeptFor(s, s', k)
    ensures Exact(topo, s', k)
  {
    KeptHolders(s, s', k);
    hide Holders;
    match s.track[k].at {
      case InDown(fd) =>
        var q :| q in s.downs[fd] && q.id == k;
        assert q in s'.downs[fd];
      case InUp(fd) =>
        var r :| Resp(r) in s.ups[fd] && r.id == k;
        assert Resp(r) in s'.ups[fd];
      case Home =>
    }
  }

  lemma KeptHolders(s: Net, s': Net, k: int)
    requires s'.nodes.Keys == s.nodes.Keys
    requires forall m :: m in s.nodes ==> (k in s'.nodes[m].contexts <==> k in s.nodes[m].contexts)
    ensures Holders(s', k) == Holders(s, k)
  {
    forall m ensures m in Holders(s', k) <==> m in Holders(s, k) {
      assert m in s'.nodes.Keys <==> m in s.nodes.Keys;
    }
  }

  // ----- the request itself -----

  lemma {:induction false} AnswerKeepsExact(topo: Topo, s: Net, s': Net, fd: int, r: Response)
    requires Shape(topo, s) && Connections(topo, s) && Requests(topo, s) && Answered(s, s', fd, r)
    requires Exact(topo, s, s.downs[fd][0].id)
    ensures Exact(topo, s', s.downs[fd][0].id)
  {
    var q := s.downs[fd][0];
    assert q in s.downs[fd];
    assert RequestOk(topo, s.track, fd, s.link[fd], q);
    assert Holders(s', q.id) == Holders(s, q.id);
    assert fd in s.open;
    assert s'.ups[fd][|s.ups[fd]|] == Resp(r);
    assert Resp(r) in s'.ups[fd];
  }

  lemma {:induction false} ForwardKeepsExact(topo: Topo, s: Net, s': Net, fd: int, fd': int)
    requires Shape(topo, s) && Connections(topo, s) && Requests(topo, s) && Forwarded(topo, s, s', fd, fd')
    requires Exact(topo, s, s.downs[fd][0].id)
    ensures Exact(topo, s', s.downs[fd][0].id)
  {
    ForwardIsOk(topo, s, s', fd, fd');
    var q, c := s.downs[fd][0], s.link[fd];
    assert s.track[q.id].at == InDown(fd);
    assert Holders(s', q.id) == Holders(s, q.id) + {c};
    assert fd' in s.open;
    assert s'.downs[fd'][|s.downs[fd']|] == q;
    assert q in s'.downs[fd'];
    assert c in s.sock;
  }

  lemma {:induction false} AskIsExact(topo: Topo, s: Net, s': Net, m: Id, q: Request, fd: int)
    requires Shape(topo, s) && Connections(topo, s) && Contexts(topo, s) && Asked(topo, s, s', m, q, fd)
    ensures Exact(topo, s', q.id)
  {
    topo.PathToSelf(m);
    forall n | n in s.nodes ensures q.id !in s.nodes[n].contexts {
    }
    assert Holders(s', q.id) == {m};
    assert fd in s.open;
    assert s'.downs[fd][|s.downs[fd]|] == q;
    assert q in s'.downs[fd];
  }

  /** A response always finds its context at the next matrix up. */
  lemma {:induction false} ContextIsThere(topo: Topo, s: Net, fd: int)
    requires Shape(topo, s) && Responses(topo, s) && fd in s.link && s.ups[fd] != [] && s.ups[fd][0].Resp?
    requires Exact(topo, s, s.ups[fd][0].resp.id)
    ensures var r, p := s.ups[fd][0].resp, topo.parent[s.link[fd]];
      r.id in s.nodes[p].contexts && (r.to != p ==> p in s.sock)
  {
    var r, p := s.ups[fd][0].resp, topo.parent[s.link[fd]];
    assert s.ups[fd][0] in s.ups[fd];
    assert ResponseOk(topo, s.track, fd, s.link[fd], r);
    assert topo.Desc(p, p);
    assert p in topo.Path(r.to, p);
    assert p in Holders(s, r.id);
  }

  lemma {:induction false} HomeIsExact(topo: Topo, s: Net, s': Net, fd: int, p: Id)
    requires Shape(topo, s) && Responses(topo, s) && fd in s.link && topo.parent[s.link[fd]] == p && CameHome(s, s', fd, p)
    requires Exact(topo, s, s.ups[fd][0].resp.id)
    ensures Exact(topo, s', s.ups[fd][0].resp.id)
  {
    var r := s.ups[fd][0].resp;
    assert s.ups[fd][0] in s.ups[fd];
    assert ResponseOk(topo, s.track, fd, s.link[fd], r);
    topo.PathToSelf(p);
    forall m ensures m in Holders(s', r.id) <==> m in Holders(s, r.id) && m != p {
      assert m in s'.nodes <==> m in s.nodes;
    }
    assert Holders(s', r.id) == Holders(s, r.id) - {p};
    assert s'.log[|s.log|] == Completed(r.id, p);
  }

  lemma {:induction false} PassUpKeepsExact(topo: Topo, s: Net, s': Net, fd: int, p: Id)
    requires Shape(topo, s) && Connections(topo, s) && Responses(topo, s)
    requires fd in s.link && topo.parent[s.link[fd]] == p && PassedUp(s, s', fd, p) && p in s.sock
    requires Exact(topo, s, s.ups[fd][0].resp.id)
    ensures Exact(topo, s', s.ups[fd][0].resp.id)
  {
    var r, up := s.ups[fd][0].resp, s.sock[p];
    PassUpIsOk(topo, s, s', fd, p);
    assert up in s.open && up in s.link && s.link[up] == p;
    hide Shape, Connections, Responses;
    assert Holders(s', r.id) == Holders(s, r.id) - {p};
    assert s'.ups[up][|s.ups[up]|] == Resp(r);
    assert Resp(r) in s'.ups[up];
  }

  // ----- steps -----

  lemma {:induction false} RequestConserves(topo: Topo, s: Net, fd: int, granted: bool, found: bool, outport: int)
    requires Conserved(topo, s) && CanRecvDown(s, fd)
    ensures Conserved(topo, DoRequest(s, fd, granted, found, outport))
  {
    RequestKeepsSteady(topo, s, fd, granted, found, outport);
    RequestKeepsOrderly(topo, s, fd, granted, found, outport);
    RequestIsAnsweredOrForwarded(topo, s, fd, granted, found, outport);
    var s' := DoRequest(s, fd, granted, found, outport);
    var q := s.downs[fd][0];
    var out := OnClientRxRequest(s.nodes[s.link[fd]], q, granted, found, outport).1;
    hide DoRequest, OnClientRxRequest;
    assert q in s.downs[fd];
    assert RequestOk(topo, s.track, fd, s.link[fd], q);
    forall id | id in s'.track ensures Exact(topo, s', id) {
      if id == q.id {
        if out.Up? { AnswerKeepsExact(topo, s, s', fd, out.response); } else { ForwardKeepsExact(topo, s, s', fd, out.fd); }
      } else {
        if out.Up? { AnswerKeepsOthers(s, s', fd, out.response, id); } else { ForwardKeepsOthers(topo, s, s', fd, out.fd, id); }
        KeptKeepsExact(topo, s, s', id);
      }
    }
  }

  lemma {:induction false} AnswerKeepsOthers(s: Net, s': Net, fd: int, r: Response, k: int)
    requires Answered(s, s', fd, r) && k in s.track && k != s.downs[fd][0].id
    ensures KeptFor(s, s', k)
  {}

  lemma {:induction false} ForwardKeepsOthers(topo: Topo, s: Net, s': Net, fd: int, fd': int, k: int)
    requires topo.Valid() && Forwarded(topo, s, s', fd, fd') && k in s.track && k != s.downs[fd][0].id
    ensures KeptFor(s, s', k)
  {}

  lemma {:induction false} HomeKeepsOthers(s: Net, s': Net, fd: int, p: Id, k: int)
    requires CameHome(s, s', fd, p) && k in s.track && k != s.ups[fd][0].resp.id
    ensures KeptFor(s, s', k)
  {}

  lemma {:induction false} PassUpKeepsOthers(s: Net, s': Net, fd: int, p: Id, k: int)
    requires PassedUp(s, s', fd, p) && k in s.track && k != s.ups[fd][0].resp.id
    ensures KeptFor(s, s', k)
  {}

  lemma {:induction false} AskKeepsOthers(topo: Topo, s: Net, s': Net, m: Id, q: Request, fd: int, k: int)
    requires topo.Valid() && Asked(topo, s, s', m, q, fd) && k in s.track
    ensures KeptFor(s, s', k)
  {}

  lemma {:induction false} ResponseConserves(topo: Topo, s: Net, fd: int)
    requires Conserved(topo, s) && CanRecvUp(topo, s, fd) && s.ups[fd][0].Resp?
    ensures Conserved(topo, DoResponse(topo, s, fd))
  {
    ResponseKeepsSteady(topo, s, fd);
    ResponseKeepsOrderly(topo, s, fd);
    ResponseIsHandled(topo, s, fd);
    var s', p := DoResponse(topo, s, fd), topo.parent[s.link[fd]];
    var r := s.ups[fd][0].resp;
    assert s.ups[fd][0] in s.ups[fd];
    assert ResponseOk(topo, s.track, fd, s.link[fd], r);
    ContextIsThere(topo, s, fd);
    hide DoResponse;
    forall id | id in s'.track ensures Exact(topo, s', id) {
      if id == r.id {
        if r.to == p { HomeIsExact(topo, s, s', fd, p); } else { PassUpKeepsExact(topo, s, s', fd, p); }
      } else {
        if r.to == p { HomeKeepsOthers(s, s', fd, p, id); } else { PassUpKeepsOthers(s, s', fd, p, id); }
        KeptKeepsExact(topo, s, s', id);
      }
    }
  }

  lemma {:induction false} SwitchConserves(topo: Topo, s: Net, m: Id, keyboard: int, camera: GlobalId, id: int)
    requires Conserved(topo, s) && CanSwitch(s, m, camera, id)
    ensures Conserved(topo, DoSwitch(s, m, keyboard, camera, id))
  {
    SwitchKeepsSteady(topo, s, m, keyboard, camera, id);
    SwitchKeepsOrderly(topo, s, m, keyboard, camera, id);
    SwitchAsks(topo, s, m, keyboard, camera, id);
    var s' := DoSwitch(s, m, keyboard, camera, id);
    var out := StartSwitch(s.nodes[m], keyboard, camera, id).1;
    hide DoSwitch, StartSwitch;
    if out.Down? {
      forall k | k in s'.track ensures Exact(topo, s', k) {
        if k == id {
          AskIsExact(topo, s, s', m, out.request, out.fd);
        } else {
          AskKeepsOthers(topo, s, s', m, out.request, out.fd, k);
          KeptKeepsExact(topo, s, s', k);
        }
      }
    }
  }

  lemma {:induction false} ConnectConserves(topo: Topo, s: Net, c: Id, fd: int)
    requires Conserved(topo, s) && CanConnect(topo, s, c, fd)
    ensures Conserved(topo, DoConnect(s, c, fd))
  {
    ConnectKeepsSteady(topo, s, c, fd);
    ConnectKeepsOrderly(topo, s, c, fd);
    var s' := DoConnect(s, c, fd);
    forall id | id in s'.track ensures Exact(topo, s', id) {
      ConnectKeepsAll(topo, s, c, fd, id);
      KeptKeepsExact(topo, s, s', id);
    }
  }

  lemma {:induction false} ConnectKeepsAll(topo: Topo, s: Net, c: Id, fd: int, k: int)
    requires Shape(topo, s) && CanConnect(topo, s, c, fd) && k in s.track
    ensures KeptFor(s, DoConnect(s, c, fd), k)
  {
    hide Announced;
  }

  lemma {:induction false} RegisterConserves(topo: Topo, s: Net, fd: int)
    requires Conserved(topo, s) && CanRecvUp(topo, s, fd) && s.ups[fd][0].Reg?
    ensures Conserved(topo, DoRegister(topo, s, fd))
  {
    RegisterKeepsSteady(topo, s, fd);
    RegisterKeepsOrderly(topo, s, fd);
    RegisterIsQuiet(topo, s, fd);
    var s' := DoRegister(topo, s, fd);
    forall id | id in s'.track ensures Exact(topo, s', id) {
      RegisterKeepsAll(topo, s, fd, id);
      KeptKeepsExact(topo, s, s', id);
    }
  }

  lemma {:induction false} RegisterKeepsAll(topo: Topo, s: Net, fd: int, k: int)
    requires Shape(topo, s) && CanRecvUp(topo, s, fd) && s.ups[fd][0].Reg? && k in s.track
    ensures KeptFor(s, DoRegister(topo, s, fd), k)
  {
    hide Announced, Registered;
    assert s.link[fd] != topo.parent[s.link[fd]];
  }

  lemma {:induction false} NextConserves(topo: Topo, s: Net, step: Step)
    requires Conserved(topo, s) && !step.ClientGone? && !step.ServerGone?
    ensures Conserved(topo, Next(topo, s, step))
  {
    hide Conserved, DoConnect, DoRegister, DoResponse, DoRequest, DoSwitch;
    match step
    case Connect(c, fd) => if CanConnect(topo, s, c, fd) { ConnectConserves(topo, s, c, fd); }
    case RecvUp(fd) =>
      if CanRecvUp(topo, s, fd) {
        if s.ups[fd][0].Reg? { RegisterConserves(topo, s, fd); } else { ResponseConserves(topo, s, fd); }
      }
    case RecvDown(fd, granted, found, outport) =>
      if CanRecvDown(s, fd) { RequestConserves(topo, s, fd, granted, found, outport); }
    case Switch(m, keyboard, camera, id) =>
      if CanSwitch(s, m, camera, id) { SwitchConserves(topo, s, m, keyboard, camera, id); }
  }

  lemma {:induction false} AlwaysConserved(topo: Topo, steps: seq<Step>)
    requires topo.Valid() && NoDisconnects(steps)
    ensures Conserved(topo, After(topo, steps))
  {
    hide Next;
    if steps == [] {
      AlwaysSteady(topo, steps);
      AlwaysOrderly(topo, steps);
    } else {
      AlwaysConserved(topo, steps[..|steps| - 1]);
      NextConserves(topo, After(topo, steps[..|steps| - 1]), steps[|steps| - 1]);
    }
  }

  // ----- what callers rely on -----

  /** At every step of a run without disconnects, the matrices holding a context for a request
      are exactly the tree path from its origin down to the sender of the request under way, or
      the receiver of the response under way; and an id that was never issued has none. */
  lemma {:induction false} ContextsAreThePath(topo: Topo, steps: seq<Step>, fd: int)
    requires topo.Valid() && NoDisconnects(steps) && fd in After(topo, steps).link
    ensures var s := After(topo, steps);
      && s.link[fd] in topo.parent && fd in s.downs && fd in s.ups
      && (forall q :: q in s.downs[fd] ==> Holders(s, q.id) == topo.Path(q.from, topo.parent[s.link[fd]]))
      && (forall r :: Resp(r) in s.ups[fd] ==> Holders(s, r.id) == topo.Path(r.to, topo.parent[s.link[fd]]))
  {
    AlwaysConserved(topo, steps);
    var s := After(topo, steps);
    hide After;
    forall q | q in s.downs[fd] ensures Holders(s, q.id) == topo.Path(q.from, topo.parent[s.link[fd]]) {
      assert RequestOk(topo, s.track, fd, s.link[fd], q);
      assert Exact(topo, s, q.id);
    }
    forall r | Resp(r) in s.ups[fd] ensures Holders(s, r.id) == topo.Path(r.to, topo.parent[s.link[fd]]) {
      assert ResponseOk(topo, s.track, fd, s.link[fd], r);
      assert Exact(topo, s, r.id);
    }
  }

  lemma {:induction false} UnissuedIdsHaveNoContext(topo: Topo, steps: seq<Step>, id: int)
    requires topo.Valid() && id !in After(topo, steps).track
    ensures Holders(After(topo, steps), id) == {}
  {
    AlwaysOrderly(topo, steps);
    hide After;
    var s := After(topo, steps);
    forall m | m in s.nodes ensures id !in s.nodes[m].contexts {
      if id in s.nodes[m].contexts { HolderIsOnThePath(topo, s, m, id); }
    }
  }

  /** No switch message is under way. */
  ghost predicate Idle(s: Net) {
    && (forall fd :: fd in s.downs ==> s.downs[fd] == [])
    && (forall fd, r :: fd in s.ups ==> Resp(r) !in s.ups[fd])
  }

  /** The request was completed where it began, exactly once, and no context for it is left. */
  ghost predicate AnsweredOnce(s: Net, id: int) {
    && id in s.track && Holders(s, id) == {}
    && exists i :: 0 <= i < |s.log| && s.log[i] == Completed(id, s.track[id].origin)
         && forall j :: 0 <= j < |s.log| && s.log[j].Completed? && s.log[j].id == id ==> j == i
  }

  /** Once nothing is under way, every request issued has been completed at the matrix where it
      began, exactly once, and no context for it is left anywhere. */
  lemma {:induction false} AllAnsweredWhenIdle(topo: Topo, steps: seq<Step>, id: int)
    requires topo.Valid() && NoDisconnects(steps) && Idle(After(topo, steps)) && id in After(topo, steps).track
    ensures AnsweredOnce(After(topo, steps), id)
  {
    AlwaysConserved(topo, steps);
    hide After, Conserved, Idle;
    var s := After(topo, steps);
    ConservedIsExact(topo, s, id);
    IdleMeansHome(topo, s, id);
    hide Exact;
    var i :| 0 <= i < |s.log| && s.log[i] == Completed(id, s.track[id].origin);
    ServedAtMostOnce(topo, steps, i);
  }

  lemma ConservedIsExact(topo: Topo, s: Net, id: int)
    requires Conserved(topo, s) && id in s.track
    ensures topo.Valid() && Exact(topo, s, id)
  {}

  lemma IdleMeansHome(topo: Topo, s: Net, id: int)
    requires topo.Valid() && Exact(topo, s, id) && Idle(s)
    ensures Holders(s, id) == {} && Completed(id, s.track[id].origin) in s.log
  {}

  // ----- progress -----

  /** Handler calls still needed to bring a request home. */
  ghost function Work(topo: Topo, s: Net, id: int): int
    requires topo.Valid() && id in s.track
  {
    var t := s.track[id];
    if t.at.Home? || t.at.fd !in s.link || t.origin !in topo.depth || s.link[t.at.fd] !in topo.depth then 0
    else
      var here: int, origin: int := topo.depth[s.link[t.at.fd]], topo.depth[t.origin];
      if t.at.InUp? then here - origin
      else if t.target !in topo.depth then 0
      else
        var target: int := topo.depth[t.target];
        2 * (target - here) + (here - origin) + 1
  }

  /** The step handles a message of request `id`. */
  ghost predicate Handles(topo: Topo, s: Net, step: Step, id: int) {
    || (step.RecvDown? && CanRecvDown(s, step.fd) && s.downs[step.fd][0].id == id)
    || (step.RecvUp? && CanRecvUp(topo, s, step.fd) && s.ups[step.fd][0].Resp? && s.ups[step.fd][0].resp.id == id)
  }

  lemma {:induction false} AnswerReducesWork(topo: Topo, s: Net, s': Net, fd: int, r: Response)
    requires Shape(topo, s) && Answered(s, s', fd, r)
    requires RequestOk(topo, s.track, fd, s.link[fd], s.downs[fd][0])
    ensures var id := s.downs[fd][0].id; id in s'.track && Work(topo, s', id) < Work(topo, s, id)
  {
    var q, c := s.downs[fd][0], s.link[fd];
    topo.DescDepth(c, q.to);
    topo.DescDepth(q.from, topo.parent[c]);
  }

  lemma {:induction false} ForwardReducesWork(topo: Topo, s: Net, s': Net, fd: int, fd': int)
    requires Shape(topo, s) && Forwarded(topo, s, s', fd, fd')
    requires RequestOk(topo, s.track, fd, s.link[fd], s.downs[fd][0])
    ensures var id := s.downs[fd][0].id; id in s'.track && Work(topo, s', id) < Work(topo, s, id)
  {
    var q, c := s.downs[fd][0], s.link[fd];
    topo.DescDepth(c, q.to);
    topo.DescDepth(q.from, topo.parent[c]);
    assert topo.depth[s.link[fd']] == topo.depth[c] + 1;
  }

  lemma {:induction false} RequestReducesWork(topo: Topo, s: Net, fd: int, granted: bool, found: bool, outport: int)
    requires Conserved(topo, s) && CanRecvDown(s, fd)
    ensures var id := s.downs[fd][0].id;
      var s' := DoRequest(s, fd, granted, found, outport);
      id in s.track && id in s'.track && Work(topo, s', id) < Work(topo, s, id)
  {
    RequestIsAnsweredOrForwarded(topo, s, fd, granted, found, outport);
    var q, c := s.downs[fd][0], s.link[fd];
    var out := OnClientRxRequest(s.nodes[c], q, granted, found, outport).1;
    var s' := DoRequest(s, fd, granted, found, outport);
    assert q in s.downs[fd];
    assert RequestOk(topo, s.track, fd, c, q);
    hide DoRequest, OnClientRxRequest, Exact, Answered, Forwarded, Work;
    if out.Up? {
      AnswerReducesWork(topo, s, s', fd, out.response);
    } else {
      ForwardReducesWork(topo, s, s', fd, out.fd);
    }
  }

  lemma {:induction false} ResponseReducesWork(topo: Topo, s: Net, fd: int)
    requires Conserved(topo, s) && CanRecvUp(topo, s, fd) && s.ups[fd][0].Resp?
    ensures var id := s.ups[fd][0].resp.id;
      var s' := DoResponse(topo, s, fd);
      id in s.track && id in s'.track && Work(topo, s', id) < Work(topo, s, id)
  {
    ResponseIsHandled(topo, s, fd);
    var s', p := DoResponse(topo, s, fd), topo.parent[s.link[fd]];
    var r := s.ups[fd][0].resp;
    assert s.ups[fd][0] in s.ups[fd];
    assert ResponseOk(topo, s.track, fd, s.link[fd], r);
    assert Exact(topo, s, r.id);
    ContextIsThere(topo, s, fd);
    hide DoResponse, Exact, Conserved;
    HandledReducesWork(topo, s, s', fd, p);
  }

  lemma {:induction false} HandledReducesWork(topo: Topo, s: Net, s': Net, fd: int, p: Id)
    requires Shape(topo, s) && fd in s.link && topo.parent[s.link[fd]] == p && s.ups[fd] != [] && s.ups[fd][0].Resp?
    requires ResponseOk(topo, s.track, fd, s.link[fd], s.ups[fd][0].resp)
    requires CameHome(s, s', fd, p) || (p in s.sock && PassedUp(s, s', fd, p))
    ensures var id := s.ups[fd][0].resp.id; id in s'.track && Work(topo, s', id) < Work(topo, s, id)
  {
    var r := s.ups[fd][0].resp;
    topo.DescDepth(r.to, p);
  }

  lemma ConservedParts(topo: Topo, s: Net)
    requires Conserved(topo, s)
    ensures topo.Valid() && Steady(topo, s) && Orderly(topo, s) && Shape(topo, s)
  {}

  /** Steps that do not handle a message of a request leave its track alone. */
  lemma {:induction false} OtherStepsKeepTrack(topo: Topo, s: Net, step: Step, id: int)
    requires Conserved(topo, s) && id in s.track && !Handles(topo, s, step, id) && !step.ClientGone? && !step.ServerGone?
    ensures var s' := Next(topo, s, step);
      && id in s'.track && s'.track[id] == s.track[id]
      && forall f :: f in s.link ==> f in s'.link && s'.link[f] == s.link[f]
  {
    hide Conserved, Steady, Orderly, Shape, DoConnect, DoRegister, DoResponse, DoRequest, DoSwitch, OnClientRxRequest, StartSwitch;
    ConservedParts(topo, s);
    match step
    case Connect(c, fd) => if CanConnect(topo, s, c, fd) { ConnectEffect(s, c, fd); }
    case RecvUp(fd) =>
      if CanRecvUp(topo, s, fd) {
        if s.ups[fd][0].Reg? { RegisterEffect(topo, s, fd); } else { ResponseIsHandled(topo, s, fd); }
      }
    case RecvDown(fd, granted, found, outport) =>
      if CanRecvDown(s, fd) { RequestIsAnsweredOrForwarded(topo, s, fd, granted, found, outport); }
    case Switch(m, keyboard, camera, new_id) =>
      if CanSwitch(s, m, camera, new_id) { SwitchAsks(topo, s, m, keyboard, camera, new_id); }
  }

  /** Every delivery of a request's message, and nothing else, brings it nearer home; so a
      request needs no more deliveries than `Work` says when it is issued, which is twice the
      distance to its target. */
  lemma {:induction false} DeliveriesMakeProgress(topo: Topo, steps: seq<Step>, step: Step, id: int)
    requires topo.Valid() && NoDisconnects(steps) && !step.ClientGone? && !step.ServerGone?
    requires id in After(topo, steps).track
    ensures var s := After(topo, steps);
      var s' := Next(topo, s, step);
      && id in s'.track
      && (Handles(topo, s, step, id) ==> Work(topo, s', id) < Work(topo, s, id))
      && (!Handles(topo, s, step, id) ==> Work(topo, s', id) == Work(topo, s, id))
      && (Work(topo, s, id) > 0 <==> s.track[id].at != Home)
  {
    AlwaysConserved(topo, steps);
    hide After, Next, Conserved, Work, Handles;
    var s := After(topo, steps);
    WorkIsPositive(topo, s, id);
    if Handles(topo, s, step, id) {
      HandlingReducesWork(topo, s, step, id);
    } else {
      OtherStepsKeepTrack(topo, s, step, id);
      ConservedIsExact(topo, s, id);
      SameTrackSameWork(topo, s, Next(topo, s, step), id);
    }
  }

  lemma {:induction false} HandlingReducesWork(topo: Topo, s: Net, step: Step, id: int)
    requires Conserved(topo, s) && Handles(topo, s, step, id) && topo.Valid() && id in s.track
    ensures var s' := Next(topo, s, step); id in s'.track && Work(topo, s', id) < Work(topo, s, id)
  {
    hide DoRequest, DoResponse, DoConnect, DoRegister, DoSwitch, Work, Conserved;
    if step.RecvDown? {
      RequestReducesWork(topo, s, step.fd, step.granted, step.found, step.outport);
    } else {
      ResponseReducesWork(topo, s, step.fd);
    }
  }

  lemma {:induction false} SameTrackSameWork(topo: Topo, s: Net, s': Net, id: int)
    requires topo.Valid() && Exact(topo, s, id) && id in s'.track && s'.track[id] == s.track[id]
    requires forall f :: f in s.link ==> f in s'.link && s'.link[f] == s.link[f]
    ensures Work(topo, s', id) == Work(topo, s, id)
  {}

  lemma {:induction false} WorkIsPositive(topo: Topo, s: Net, id: int)
    requires Conserved(topo, s) && id in s.track
    ensures Work(topo, s, id) > 0 <==> s.track[id].at != Home
  {
    if s.track[id].at != Home {
      FarFromHome(topo, s, id);
      hide Conserved;
      var t := s.track[id];
      var c := s.link[t.at.fd];
      topo.ParentIsAbove(c);
      topo.DescDepth(t.origin, topo.parent[c]);
      if t.at.InDown? { topo.DescDepth(c, t.target); }
    }
  }

  /** A request or response under way is between its origin and its target. */
  lemma {:induction false} FarFromHome(topo: Topo, s: Net, id: int)
    requires Conserved(topo, s) && id in s.track && s.track[id].at != Home
    ensures var t := s.track[id];
      && t.at.fd in s.link && s.link[t.at.fd] in topo.parent && topo.Desc(t.origin, topo.parent[s.link[t.at.fd]])
      && (t.at.InDown? ==> topo.Desc(s.link[t.at.fd], t.target))
  {
    assert Exact(topo, s, id);
    var fd := s.track[id].at.fd;
    hide Contexts, LogOk, OnlyOnce, Steady;
    if s.track[id].at.InDown? {
      var q :| q in s.downs[fd] && q.id == id;
      assert RequestOk(topo, s.track, fd, s.link[fd], q);
    } else {
      var r :| Resp(r) in s.ups[fd] && r.id == id;
      assert ResponseOk(topo, s.track, fd, s.link[fd], r);
    }
  }

  /** The work of request `id` is twice the distance between the two matrices. */
  ghost predicate TwiceTheWay(topo: Topo, s: Net, m: Id, target: Id, id: int)
    requires topo.Valid()
  {
    && id in s.track && m in topo.depth && target in topo.depth
    && Work(topo, s, id) + 2 * topo.depth[m] == 2 * topo.depth[target]
  }

  /** The work at issue is twice the distance between origin and target. */
  lemma {:induction false} WorkAtIssue(topo: Topo, steps: seq<Step>, m: Id, keyboard: int, camera: GlobalId, id: int)
    requires topo.Valid() && NoDisconnects(steps) && CanSwitch(After(topo, steps), m, camera, id)
    ensures var s' := Next(topo, After(topo, steps), Switch(m, keyboard, camera, id));
      id in s'.track ==> TwiceTheWay(topo, s', m, camera.mid, id)
  {
    hide After, Orderly, CanSwitch, DoSwitch, TwiceTheWay;
    AlwaysOrderly(topo, steps);
    SwitchWork(topo, After(topo, steps), m, keyboard, camera, id);
  }

  lemma {:induction false} SwitchWork(topo: Topo, s: Net, m: Id, keyboard: int, camera: GlobalId, id: int)
    requires topo.Valid() && Orderly(topo, s) && CanSwitch(s, m, camera, id)
    ensures var s' := DoSwitch(s, m, keyboard, camera, id);
      id in s'.track ==> TwiceTheWay(topo, s', m, camera.mid, id)
  {
    OrderlyParts(topo, s);
    hide Orderly, Shape, DoSwitch, StartSwitch, Asked, Work;
    SwitchAsks(topo, s, m, keyboard, camera, id);
    RequestAsksFor(s.nodes[m], keyboard, camera, id);
    var out := StartSwitch(s.nodes[m], keyboard, camera, id).1;
    if out.Down? {
      AskWork(topo, s, DoSwitch(s, m, keyboard, camera, id), m, out.request, out.fd);
    }
  }

  lemma RequestAsksFor(m: State, keyboard: int, camera: GlobalId, id: int)
    ensures var out := StartSwitch(m, keyboard, camera, id).1; out.Down? ==> out.request.to == camera.mid
  {}

  lemma AskWork(topo: Topo, s: Net, s': Net, m: Id, q: Request, fd: int)
    requires Shape(topo, s) && Asked(topo, s, s', m, q, fd)
    ensures q.id in s'.track && m in topo.depth && q.to in topo.depth
    ensures Work(topo, s', q.id) + 2 * topo.depth[m] == 2 * topo.depth[q.to]
  {}
}
