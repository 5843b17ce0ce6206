/**
  What becomes of SWITCH requests when connections are lost: a request of which no message is left
  that could bring it home is never answered, and the contexts it has left behind stay.
 */
module Stranding {
  import opened GlobalIds
  import opened Matrix
  import opened Hierarchy
  import opened Routing
  import opened Switching
  import opened SwitchContexts
  import opened Liveness
  import Topology

  /** A request waits for its child on the connection the child has. */
  ghost predicate RequestWaits(s: Net, fd: int, id: int) {
    RequestOnWire(s, fd, id) && fd in s.link && s.link[fd] in s.sock && s.sock[s.link[fd]] == fd
  }

  /** The request is not home, and no message of its is under way that could bring it there: at
      most a request to a matrix that can only answer it, on a connection the parent has closed. */
  ghost predicate Doomed(s: Net, id: int) {
    && id in s.track && !s.track[id].at.Home?
    && (forall fd :: !ResponseOnWire(s, fd, id))
    && (forall fd :: RequestWaits(s, fd, id) ==> fd !in s.open && s.link[fd] == s.track[id].target)
  }

  /** Nothing that concerns request `id` changes, save that messages may be lost. */
  ghost predicate LeftAlone(s: Net, s': Net, id: int) {
    && id in s.track && id in s'.track && s'.track[id] == s.track[id]
    && s'.nodes.Keys == s.nodes.Keys
    && (forall m :: m in s.nodes ==> (id in s'.nodes[m].contexts <==> id in s.nodes[m].contexts))
    && (forall f, q :: f in s'.downs && q in s'.downs[f] && q.id == id ==> f in s.downs && q in s.downs[f])
    && (forall f, r :: f in s'.ups && Resp(r) in s'.ups[f] && r.id == id ==> f in s.ups && Resp(r) in s.ups[f])
  }

  lemma QuietLeavesAlone(s: Net, s': Net, id: int)
    requires Quiet(s, s') && id in s.track
    ensures LeftAlone(s, s', id)
  {
    hide DistinctDown, DistinctUp;
  }

  // ----- traffic of other requests -----

  lemma {:induction false} AnswerLeavesAlone(s: Net, s': Net, fd: int, r: Response, id: int)
    requires Answered(s, s', fd, r) && id in s.track && id != s.downs[fd][0].id
    ensures LeftAlone(s, s', id)
  {}

  lemma {:induction false} ForwardLeavesAlone(topo: Topo, s: Net, s': Net, fd: int, fd': int, id: int)
    requires topo.Valid() && Forwarded(topo, s, s', fd, fd') && id in s.track && id != s.downs[fd][0].id
    ensures LeftAlone(s, s', id)
  {}

  lemma {:induction false} ResponseLeavesAlone(s: Net, s': Net, fd: int, p: Id, id: int)
    requires Discarded(s, s', fd) || CameHome(s, s', fd, p) || PassedUp(s, s', fd, p)
    requires id in s.track && s.ups[fd][0].Resp? && id != s.ups[fd][0].resp.id
    ensures LeftAlone(s, s', id)
  {}

  lemma {:induction false} AskLeavesAlone(topo: Topo, s: Net, s': Net, m: Id, q: Request, fd: int, id: int)
    requires topo.Valid() && Asked(topo, s, s', m, q, fd) && id in s.track
    ensures LeftAlone(s, s', id)
  {}

  // ----- steps -----

  /** The step hands over the message of request `id`. */
  ghost predicate HandsOver(topo: Topo, s: Net, step: Step, id: int) {
    || (step.RecvDown? && CanRecvDown(s, step.fd) && s.downs[step.fd][0].id == id)
    || (step.RecvUp? && CanRecvUp(topo, s, step.fd) && s.ups[step.fd][0].Resp? && s.ups[step.fd][0].resp.id == id)
  }

  lemma {:induction false} OthersLeaveAlone(topo: Topo, s: Net, step: Step, id: int)
    requires Orderly(topo, s) && id in s.track && !HandsOver(topo, s, step, id)
    ensures LeftAlone(s, Next(topo, s, step), id)
  {
    OrderlyParts(topo, s);
    hide Orderly, Shape, OnlyOnce, Quiet, LeftAlone, OnClientRxRequest, StartSwitch;
    hide DoConnect, DoClientGone, DoServerGone, DoRegister, DoResponse, DoRequest, DoSwitch;
    hide Answered, Forwarded, Discarded, CameHome, PassedUp, Asked;
    NothingLeavesAlone(s, id);
    match step
    case Connect(c, fd) =>
      if CanConnect(topo, s, c, fd) {
        ConnectIsQuiet(topo, s, c, fd);
        QuietLeavesAlone(s, DoConnect(s, c, fd), id);
      }
    case ClientGone(c) =>
      if CanClientGone(s, c) {
        ClientGoneIsQuiet(s, c);
        QuietLeavesAlone(s, DoClientGone(s, c), id);
      }
    case ServerGone(fd) =>
      if CanServerGone(topo, s, fd) {
        ServerGoneIsQuiet(topo, s, fd);
        QuietLeavesAlone(s, DoServerGone(topo, s, fd), id);
      }
    case RecvUp(fd) =>
      if CanRecvUp(topo, s, fd) {
        if s.ups[fd][0].Reg? {
          RegisterIsQuiet(topo, s, fd);
          QuietLeavesAlone(s, DoRegister(topo, s, fd), id);
        } else {
          ResponseIsHandled(topo, s, fd);
          ResponseLeavesAlone(s, DoResponse(topo, s, fd), fd, topo.parent[s.link[fd]], id);
        }
      }
    case RecvDown(fd, granted, found, outport) =>
      if CanRecvDown(s, fd) {
        RequestIsAnsweredOrForwarded(topo, s, fd, granted, found, outport);
        var out := OnClientRxRequest(s.nodes[s.link[fd]], s.downs[fd][0], granted, found, outport).1;
        var s' := DoRequest(s, fd, granted, found, outport);
        if out.Up? {
          AnswerLeavesAlone(s, s', fd, out.response, id);
        } else {
          ForwardLeavesAlone(topo, s, s', fd, out.fd, id);
        }
      }
    case Switch(m, keyboard, camera, k) =>
      if CanSwitch(s, m, camera, k) {
        SwitchAsks(topo, s, m, keyboard, camera, k);
        var out := StartSwitch(s.nodes[m], keyboard, camera, k).1;
        if out.Down? {
          AskLeavesAlone(topo, s, DoSwitch(s, m, keyboard, camera, k), m, out.request, out.fd, id);
        }
      }
  }

  lemma NothingLeavesAlone(s: Net, id: int)
    requires id in s.track
    ensures LeftAlone(s, s, id)
  {}

  /** Connections are never forgotten; none that a child has given up is ever its connection again,
      and none that is closed is ever open again. */
  ghost predicate LinksGrow(s: Net, s': Net) {
    && (forall f :: f in s.link ==> f in s'.link && s'.link[f] == s.link[f])
    && (forall x :: x in s'.sock ==> (x in s.sock && s.sock[x] == s'.sock[x]) || s'.sock[x] !in s.link)
    && (forall f :: f in s'.open && f in s.link ==> f in s.open)
  }

  lemma {:induction false} NextGrowsLinks(topo: Topo, s: Net, step: Step)
    requires Orderly(topo, s)
    ensures LinksGrow(s, Next(topo, s, step))
  {
    hide Orderly, Shape, OnlyOnce, OnClientRxRequest, StartSwitch, Registered, BuildRegister;
    hide DoConnect, DoClientGone, DoServerGone, DoRegister, DoResponse, DoRequest, DoSwitch;
    OrderlyParts(topo, s);
    match step
    case Connect(c, fd) => if CanConnect(topo, s, c, fd) { ConnectEffect(s, c, fd); }
    case ClientGone(c) => if CanClientGone(s, c) { GoneEffect(s, c); }
    case ServerGone(fd) => if CanServerGone(topo, s, fd) { ClosedEffect(topo, s, fd); }
    case RecvUp(fd) =>
      if CanRecvUp(topo, s, fd) {
        if s.ups[fd][0].Reg? { RegisterEffect(topo, s, fd); } else { ResponseIsHandled(topo, s, fd); }
      }
    case RecvDown(fd, granted, found, outport) =>
      if CanRecvDown(s, fd) { RequestIsAnsweredOrForwarded(topo, s, fd, granted, found, outport); }
    case Switch(m, keyboard, camera, k) =>
      if CanSwitch(s, m, camera, k) { SwitchAsks(topo, s, m, keyboard, camera, k); }
  }

  lemma {:induction false} StaysDoomed(topo: Topo, s: Net, step: Step, id: int)
    requires Orderly(topo, s) && Doomed(s, id)
    ensures var s' := Next(topo, s, step); Doomed(s', id) && Holders(s', id) == Holders(s, id)
  {
    hide Orderly, Next, HandsOver;
    OrderlyParts(topo, s);
    if HandsOver(topo, s, step, id) {
      AnswerIsLost(topo, s, step, id);
    } else {
      var s' := Next(topo, s, step);
      OthersLeaveAlone(topo, s, step, id);
      NextGrowsLinks(topo, s, step);
      assert s.downs.Keys == s.link.Keys;
      hide Shape;
      KeptHolders(s, s', id);
      forall fd ensures !ResponseOnWire(s', fd, id) {
        WasOnWire(s, s', id, fd);
      }
      forall fd | RequestWaits(s', fd, id) ensures fd !in s'.open && s'.link[fd] == s'.track[id].target {
        WasOnWire(s, s', id, fd);
      }
    }
  }

  /** All that can still happen to a doomed request is that its target answers into the void. */
  lemma {:induction false} AnswerIsLost(topo: Topo, s: Net, step: Step, id: int)
    requires Orderly(topo, s) && Doomed(s, id) && HandsOver(topo, s, step, id)
    ensures var s' := Next(topo, s, step); Doomed(s', id) && Holders(s', id) == Holders(s, id)
  {
    hide Orderly, Shape, OnlyOnce, DoRequest, OnClientRxRequest, DoResponse, DoRegister, Answered, Forwarded;
    HandedOverWaits(topo, s, step, id);
    var fd := step.fd;
    OrderlyParts(topo, s);
    TargetAnswers(topo, s, fd, step.granted, step.found, step.outport);
    RequestIsAnsweredOrForwarded(topo, s, fd, step.granted, step.found, step.outport);
    var r := OnClientRxRequest(s.nodes[s.link[fd]], s.downs[fd][0], step.granted, step.found, step.outport).1.response;
    VoidAnswerDooms(s, Next(topo, s, step), fd, r, id);
  }

  lemma {:induction false} VoidAnswerDooms(s: Net, s': Net, fd: int, r: Response, id: int)
    requires Doomed(s, id) && Answered(s, s', fd, r) && fd !in s.open && s.downs[fd][0].id == id
    ensures Doomed(s', id) && Holders(s', id) == Holders(s, id)
  {
    KeptHolders(s, s', id);
    forall f ensures !ResponseOnWire(s', f, id) {
      assert ResponseOnWire(s', f, id) ==> ResponseOnWire(s, f, id);
    }
    forall f | RequestWaits(s', f, id) ensures f !in s'.open && s'.link[f] == s'.track[id].target {
      var q :| q in s'.downs[f] && q.id == id;
      assert q in s.downs[f];
      assert RequestWaits(s, f, id);
    }
  }

  /** A matrix answers what is meant for it. */
  lemma {:induction false} TargetAnswers(topo: Topo, s: Net, fd: int, granted: bool, found: bool, outport: int)
    requires Orderly(topo, s) && CanRecvDown(s, fd)
    requires s.downs[fd][0].id in s.track && s.track[s.downs[fd][0].id].target == s.link[fd]
    ensures OnClientRxRequest(s.nodes[s.link[fd]], s.downs[fd][0], granted, found, outport).1.Up?
  {
    var q := s.downs[fd][0];
    assert q in s.downs[fd];
    assert RequestOk(topo, s.track, fd, s.link[fd], q);
  }

  lemma {:induction false} WasOnWire(s: Net, s': Net, id: int, fd: int)
    requires LeftAlone(s, s', id) && LinksGrow(s, s') && s.downs.Keys == s.link.Keys
    ensures ResponseOnWire(s', fd, id) ==> ResponseOnWire(s, fd, id)
    ensures RequestWaits(s', fd, id) ==> RequestWaits(s, fd, id)
  {
    if ResponseOnWire(s', fd, id) {
      var r :| Resp(r) in s'.ups[fd] && r.id == id;
      assert fd in s.ups && Resp(r) in s.ups[fd];
    }
    if RequestWaits(s', fd, id) {
      var q :| q in s'.downs[fd] && q.id == id;
      assert fd in s.downs && q in s.downs[fd];
    }
  }

  lemma {:induction false} HandedOverWaits(topo: Topo, s: Net, step: Step, id: int)
    requires HandsOver(topo, s, step, id)
    ensures RequestWaits(s, step.fd, id) || ResponseOnWire(s, step.fd, id)
  {
    if step.RecvDown? {
      assert s.downs[step.fd][0] in s.downs[step.fd];
    } else {
      assert s.ups[step.fd][0] == Resp(s.ups[step.fd][0].resp) && s.ups[step.fd][0] in s.ups[step.fd];
    }
  }

  /** In every run: a doomed request is never answered, whatever happens next, and exactly the
      contexts it had remain. */
  lemma {:induction false} DoomedForEver(topo: Topo, steps: seq<Step>, more: seq<Step>, id: int)
    requires topo.Valid() && Doomed(After(topo, steps), id)
    ensures var s, s' := After(topo, steps), After(topo, steps + more);
      && Doomed(s', id) && Holders(s', id) == Holders(s, id)
      && forall x :: Completed(id, x) !in s'.log
  {
    hide After, Next, Doomed, Orderly;
    AlwaysOrderly(topo, steps + more);
    if more == [] {
      assert steps + more == steps;
    } else {
      var n := |more| - 1;
      DoomedForEver(topo, steps, more[..n], id);
      var before := steps + more[..n];
      AlwaysOrderly(topo, before);
      StaysDoomed(topo, After(topo, before), more[n], id);
      AfterOneMore(topo, before, more[n]);
      assert before + [more[n]] == steps + more;
    }
    var s' := After(topo, steps + more);
    DoomedIsAway(s', id);
    forall x ensures Completed(id, x) !in s'.log {
      if Completed(id, x) in s'.log { CompletedIsHome(topo, s', id, x); }
    }
  }

  lemma DoomedIsAway(s: Net, id: int)
    requires Doomed(s, id)
    ensures id in s.track && !s.track[id].at.Home?
  {}

  lemma {:induction false} CompletedIsHome(topo: Topo, s: Net, id: int, x: Id)
    requires Orderly(topo, s) && Completed(id, x) in s.log
    ensures id in s.track && s.track[id].at.Home?
  {
    assert EventOk(topo, s.link, s.track[id], Completed(id, x));
  }
}
