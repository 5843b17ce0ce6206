/**
  Which SWITCH requests can still be answered once connections have been lost: exactly those that
  are not doomed.  Whatever message is left can be brought home by reconnecting the matrices above
  it, and a request on a closed connection can be passed on to a child that has registered afresh.
 */
module Recovery {
  import opened GlobalIds
  import opened Matrix
  import opened Hierarchy
  import opened Routing
  import opened Registration
  import opened Reconnection
  import opened Switching
  import opened SwitchContexts
  import opened Liveness
  import opened Stranding
  import Topology

  // ----- contexts and connections, in every run -----

  ghost predicate OnWire(s: Net, id: int) {
    exists fd :: RequestOnWire(s, fd, id) || ResponseOnWire(s, fd, id)
  }

  /** While a message of the request is under way, every matrix on the path above it has its
      context. */
  ghost predicate Anchored(topo: Topo, s: Net, id: int)
    requires topo.Valid()
  {
    id in s.track && !s.track[id].at.Home? && OnWire(s, id) ==>
      && s.track[id].at.fd in s.link && s.link[s.track[id].at.fd] in topo.parent
      && topo.Path(s.track[id].origin, topo.parent[s.link[s.track[id].at.fd]]) <= Holders(s, id)
  }

  /** What a parent has yet to read is on a connection it has not seen closed. */
  ghost predicate UpsOpen(s: Net) {
    forall fd :: fd in s.ups && s.ups[fd] != [] ==> fd in s.open
  }

  ghost predicate Sane(topo: Topo, s: Net) {
    match Orderly(topo, s)
    case false => false
    case true => UpsOpen(s) && forall id :: id in s.track ==> Anchored(topo, s, id)
  }

  /** A message of a request is where the notes say. */
  lemma {:induction false} WhereNoted(topo: Topo, s: Net, id: int, fd: int)
    requires Orderly(topo, s)
    ensures RequestOnWire(s, fd, id) ==> id in s.track && s.track[id].at == InDown(fd)
    ensures ResponseOnWire(s, fd, id) ==> id in s.track && s.track[id].at == InUp(fd)
  {
    hide Contexts, LogOk, OnlyOnce;
    if RequestOnWire(s, fd, id) {
      var q :| q in s.downs[fd] && q.id == id;
      assert RequestOk(topo, s.track, fd, s.link[fd], q);
    }
    if ResponseOnWire(s, fd, id) {
      var r :| Resp(r) in s.ups[fd] && r.id == id;
      assert ResponseOk(topo, s.track, fd, s.link[fd], r);
    }
  }

  lemma {:induction false} LeftAloneIsAnchored(topo: Topo, s: Net, s': Net, id: int)
    requires topo.Valid() && Anchored(topo, s, id) && LeftAlone(s, s', id) && LinksGrow(s, s')
    ensures Anchored(topo, s', id)
  {
    KeptHolders(s, s', id);
    hide Holders;
    if OnWire(s', id) {
      var fd :| RequestOnWire(s', fd, id) || ResponseOnWire(s', fd, id);
      StillThere(s, s', id, fd);
      assert OnWire(s, id);
    }
  }

  lemma {:induction false} StillThere(s: Net, s': Net, id: int, fd: int)
    requires LeftAlone(s, s', id)
    ensures ResponseOnWire(s', fd, id) ==> ResponseOnWire(s, fd, id)
    ensures RequestOnWire(s', fd, id) ==> RequestOnWire(s, fd, id)
  {
    if ResponseOnWire(s', fd, id) {
      var r :| Resp(r) in s'.ups[fd] && r.id == id;
      assert fd in s.ups && Resp(r) in s.ups[fd];
    }
    if RequestOnWire(s', fd, id) {
      var q :| q in s'.downs[fd] && q.id == id;
      assert fd in s.downs && q in s.downs[fd];
    }
  }

  // The message of the request itself is handled.

  lemma {:induction false} AnswerIsAnchored(topo: Topo, s: Net, s': Net, fd: int, r: Response)
    requires topo.Valid() && Answered(s, s', fd, r)
    requires var id := s.downs[fd][0].id; Anchored(topo, s, id) && s.track[id].at == InDown(fd)
    ensures Anchored(topo, s', s.downs[fd][0].id)
  {
    var q := s.downs[fd][0];
    assert q in s.downs[fd];
    assert RequestOnWire(s, fd, q.id);
    KeptHolders(s, s', q.id);
  }

  lemma {:induction false} ForwardIsAnchored(topo: Topo, s: Net, s': Net, fd: int, fd': int)
    requires Shape(topo, s) && Requests(topo, s) && Forwarded(topo, s, s', fd, fd') && Anchored(topo, s, s.downs[fd][0].id)
    ensures Anchored(topo, s', s.downs[fd][0].id)
  {
    var q, c := s.downs[fd][0], s.link[fd];
    assert q in s.downs[fd];
    ForwardIsOk(topo, s, s', fd, fd');
    assert RequestOnWire(s, fd, q.id);
    hide Shape, Requests;
    assert Holders(s', q.id) == Holders(s, q.id) + {c};
  }

  lemma {:induction false} PassUpIsAnchored(topo: Topo, s: Net, s': Net, fd: int, p: Id)
    requires Orderly(topo, s) && Orderly(topo, s') && fd in s.link && topo.parent[s.link[fd]] == p && PassedUp(s, s', fd, p)
    requires Anchored(topo, s, s.ups[fd][0].resp.id)
    ensures Anchored(topo, s', s.ups[fd][0].resp.id)
  {
    var r := s.ups[fd][0].resp;
    assert s.ups[fd][0] == Resp(r) && s.ups[fd][0] in s.ups[fd];
    assert ResponseOnWire(s, fd, r.id);
    WhereNoted(topo, s, r.id, fd);
    PassUpParts(topo, s, s', fd, p);
    hide Orderly;
    if OnWire(s', r.id) {
      var f :| RequestOnWire(s', f, r.id) || ResponseOnWire(s', f, r.id);
      WhereNoted(topo, s', r.id, f);
      assert p in s.sock;
      assert Holders(s', r.id) == Holders(s, r.id) - {p};
    }
  }

  lemma {:induction false} PassUpParts(topo: Topo, s: Net, s': Net, fd: int, p: Id)
    requires Orderly(topo, s) && fd in s.link && topo.parent[s.link[fd]] == p && PassedUp(s, s', fd, p)
    ensures var r := s.ups[fd][0].resp;
      && topo.Valid() && p in topo.parent && s.track[r.id].origin == r.to
      && topo.Path(r.to, p) == topo.Path(r.to, topo.parent[p]) + {p} && p !in topo.Path(r.to, topo.parent[p])
      && (p in s.sock ==> s.sock[p] in s.link && s.link[s.sock[p]] == p)
      && (forall x :: x in s.ups[fd][1..] && x.Resp? ==> x.resp.id != r.id)
  {
    OrderlyParts(topo, s);
    PassUpIsOk(topo, s, s', fd, p);
    HeadResponseIsAlone(s.ups[fd]);
    hide Orderly, OnlyOnce;
  }

  lemma {:induction false} AskIsAnchored(topo: Topo, s: Net, s': Net, m: Id, q: Request, fd: int)
    requires topo.Valid() && Asked(topo, s, s', m, q, fd)
    ensures Anchored(topo, s', q.id)
  {
    topo.PathToSelf(m);
    assert m in Holders(s', q.id);
  }

  /** The step that hands over a message of the request keeps it anchored. */
  lemma {:induction false} HandingOverIsAnchored(topo: Topo, s: Net, step: Step, id: int)
    requires Orderly(topo, s) && Orderly(topo, Next(topo, s, step)) && HandsOver(topo, s, step, id)
    requires id in s.track && Anchored(topo, s, id)
    ensures Anchored(topo, Next(topo, s, step), id)
  {
    HandedOverWaits(topo, s, step, id);
    WhereNoted(topo, s, id, step.fd);
    OrderlyRequests(topo, s);
    hide Orderly, Shape, Requests, DoRegister, DoResponse, DoRequest, OnClientRxRequest, Answered, Forwarded;
    hide Discarded, CameHome, PassedUp, Anchored;
    var s', fd := Next(topo, s, step), step.fd;
    if step.RecvDown? {
      RequestIsAnsweredOrForwarded(topo, s, fd, step.granted, step.found, step.outport);
      var out := OnClientRxRequest(s.nodes[s.link[fd]], s.downs[fd][0], step.granted, step.found, step.outport).1;
      if out.Up? {
        AnswerIsAnchored(topo, s, s', fd, out.response);
      } else {
        ForwardIsAnchored(topo, s, s', fd, out.fd);
      }
    } else {
      var p := topo.parent[s.link[fd]];
      ResponseIsHandled(topo, s, fd);
      AnchoredHasContext(topo, s, fd);
      if s.ups[fd][0].resp.to == p {
        HomeIsAnchored(topo, s, s', fd, p);
      } else {
        PassUpIsAnchored(topo, s, s', fd, p);
      }
    }
  }

  lemma OrderlyRequests(topo: Topo, s: Net)
    requires Orderly(topo, s)
    ensures Shape(topo, s) && Requests(topo, s) && topo.Valid()
  {}

  /** A response finds its context at the next matrix up. */
  lemma {:induction false} AnchoredHasContext(topo: Topo, s: Net, fd: int)
    requires Orderly(topo, s) && CanRecvUp(topo, s, fd) && s.ups[fd][0].Resp?
    requires Anchored(topo, s, s.ups[fd][0].resp.id)
    ensures s.ups[fd][0].resp.id in s.nodes[topo.parent[s.link[fd]]].contexts
    ensures s.ups[fd][0].resp.id in s.track && s.track[s.ups[fd][0].resp.id].origin == s.ups[fd][0].resp.to
  {
    var r, p := s.ups[fd][0].resp, topo.parent[s.link[fd]];
    assert s.ups[fd][0] == Resp(r) && s.ups[fd][0] in s.ups[fd];
    assert ResponseOk(topo, s.track, fd, s.link[fd], r) && ResponseOnWire(s, fd, r.id);
    hide Requests, Responses, Contexts, LogOk, OnlyOnce;
    topo.ParentIsAbove(s.link[fd]);
    assert p in topo.Path(r.to, p) && p in Holders(s, r.id);
  }

  lemma HomeIsAnchored(topo: Topo, s: Net, s': Net, fd: int, p: Id)
    requires topo.Valid() && CameHome(s, s', fd, p)
    ensures Anchored(topo, s', s.ups[fd][0].resp.id)
  {}

  lemma {:induction false} NextKeepsUpsOpen(topo: Topo, s: Net, step: Step)
    requires Orderly(topo, s) && UpsOpen(s)
    ensures UpsOpen(Next(topo, s, step))
  {
    hide Orderly, Shape, OnlyOnce, OnClientRxRequest, StartSwitch, Registered, BuildRegister;
    hide DoConnect, DoClientGone, DoServerGone, DoRegister, DoResponse, DoRequest, DoSwitch;
    OrderlyParts(topo, s);
    match step
    case Connect(c, fd) => if CanConnect(topo, s, c, fd) { ConnectEffect(s, c, fd); }
    case ClientGone(c) => if CanClientGone(s, c) { GoneEffect(s, c); }
    case ServerGone(fd) => if CanServerGone(topo, s, fd) { ClosedEffect(topo, s, fd); }
    case RecvUp(fd) =>
      if CanRecvUp(topo, s, fd) {
        if s.ups[fd][0].Reg? { RegisterEffect(topo, s, fd); } else { ResponseIsHandled(topo, s, fd); }
      }
    case RecvDown(fd, granted, found, outport) =>
      if CanRecvDown(s, fd) { RequestIsAnsweredOrForwarded(topo, s, fd, granted, found, outport); }
    case Switch(m, keyboard, camera, k) =>
      if CanSwitch(s, m, camera, k) { SwitchAsks(topo, s, m, keyboard, camera, k); }
  }

  /** Only a keyboard's question adds to the notes. */
  lemma {:induction false} NewNoteIsAnchored(topo: Topo, s: Net, step: Step, id: int)
    requires Orderly(topo, s) && id !in s.track && id in Next(topo, s, step).track
    ensures topo.Valid() && Anchored(topo, Next(topo, s, step), id)
  {
    hide Orderly, Shape, OnlyOnce, OnClientRxRequest, StartSwitch, Registered, BuildRegister, Anchored;
    hide DoConnect, DoClientGone, DoServerGone, DoRegister, DoResponse, DoRequest, DoSwitch;
    OrderlyParts(topo, s);
    match step
    case Connect(c, fd) => if CanConnect(topo, s, c, fd) { ConnectEffect(s, c, fd); }
    case ClientGone(c) => if CanClientGone(s, c) { GoneEffect(s, c); }
    case ServerGone(fd) => if CanServerGone(topo, s, fd) { ClosedEffect(topo, s, fd); }
    case RecvUp(fd) =>
      if CanRecvUp(topo, s, fd) {
        if s.ups[fd][0].Reg? { RegisterEffect(topo, s, fd); } else { ResponseIsHandled(topo, s, fd); }
      }
    case RecvDown(fd, granted, found, outport) =>
      if CanRecvDown(s, fd) { RequestIsAnsweredOrForwarded(topo, s, fd, granted, found, outport); }
    case Switch(m, keyboard, camera, k) =>
      if CanSwitch(s, m, camera, k) {
        SwitchAsks(topo, s, m, keyboard, camera, k);
        var out := StartSwitch(s.nodes[m], keyboard, camera, k).1;
        if out.Down? { AskIsAnchored(topo, s, DoSwitch(s, m, keyboard, camera, k), m, out.request, out.fd); }
      }
  }

  lemma {:induction false} NextKeepsSane(topo: Topo, s: Net, step: Step)
    requires Sane(topo, s)
    ensures Sane(topo, Next(topo, s, step))
  {
    hide Orderly, Next, UpsOpen, Anchored, HandsOver, Shape, OnlyOnce, LeftAlone, LinksGrow;
    var s' := Next(topo, s, step);
    NextKeepsOrderly(topo, s, step);
    NextKeepsUpsOpen(topo, s, step);
    NextGrowsLinks(topo, s, step);
    OrderlyParts(topo, s);
    forall id | id in s'.track ensures Anchored(topo, s', id) {
      if id !in s.track {
        NewNoteIsAnchored(topo, s, step, id);
      } else if HandsOver(topo, s, step, id) {
        HandingOverIsAnchored(topo, s, step, id);
      } else {
        OthersLeaveAlone(topo, s, step, id);
        LeftAloneIsAnchored(topo, s, s', id);
      }
    }
  }

  lemma {:induction false} AlwaysSane(topo: Topo, steps: seq<Step>)
    requires topo.Valid()
    ensures Sane(topo, After(topo, steps))
  {
    hide Next;
    if steps == [] {
      AlwaysOrderly(topo, steps);
    } else {
      AlwaysSane(topo, steps[..|steps| - 1]);
      NextKeepsSane(topo, After(topo, steps[..|steps| - 1]), steps[|steps| - 1]);
    }
  }

  // ----- reconnecting -----

  lemma Associates(a: seq<Step>, b: seq<Step>, c: seq<Step>)
    ensures a + b + c == a + (b + c)
    ensures b == [] ==> a + b == a
  {
    assert a + b + c == a + (b + c);
  }

  ghost function Unused(fds: set<int>): (x: int)
    ensures forall y :: y in fds ==> y < x
    decreases |fds|
  {
    if fds == {} then 0
    else
      var m := Least(fds);
      var x := Unused(fds - {m});
      assert forall y :: y in fds && y != m ==> y in fds - {m};
      if m < x then x else m + 1
  }

  /** `c` has a connection its parent has not seen closed. */
  ghost predicate Whole(s: Net, c: Id) {
    c in s.sock && s.sock[c] in s.open
  }

  /** `c` has made connection `fd`, giving up what it had; nothing else has happened. */
  ghost predicate Renewed(s: Net, s': Net, c: Id, fd: int) {
    && fd !in s.link && Rejoined(s, s', c, fd) && s'.track == s.track && s'.log == s.log
    && (forall f :: f in s.link && s.link[f] != c && f in s.downs ==> f in s'.downs && s'.downs[f] == s.downs[f])
  }

  lemma {:induction false} Renew(topo: Topo, steps: seq<Step>, c: Id) returns (more: seq<Step>, fd: int)
    requires topo.Valid() && c in topo.parent
    ensures Renewed(After(topo, steps), After(topo, steps + more), c, fd)
  {
    var s := After(topo, steps);
    fd := Unused(s.link.Keys);
    AlwaysPlain(topo, steps);
    hide After, Next, Renewed;
    if c in s.sock {
      more := [ClientGone(c)] + [Connect(c, fd)];
      RenewsConnected(topo, s, c, fd);
      AfterOneMore(topo, steps, ClientGone(c));
      AfterOneMore(topo, steps + [ClientGone(c)], Connect(c, fd));
      Associates(steps, [ClientGone(c)], [Connect(c, fd)]);
    } else {
      more := [Connect(c, fd)];
      RenewsUnconnected(topo, s, c, fd);
      AfterOneMore(topo, steps, Connect(c, fd));
    }
  }

  lemma {:induction false} RenewsConnected(topo: Topo, s: Net, c: Id, fd: int)
    requires Plain(topo, s) && c in s.sock && fd !in s.link
    ensures Renewed(s, Next(topo, Next(topo, s, ClientGone(c)), Connect(c, fd)), c, fd)
  {
    PlainParts(topo, s);
    hide Plain, DoClientGone, DoConnect, BuildRegister, Rejoined, CanClientGone;
    RejoinsOnNewConnection(topo, s, c, fd);
    GoneEffect(s, c);
    ConnectEffect(DoClientGone(s, c), c, fd);
    OtherQueues(s, DoConnect(DoClientGone(s, c), c, fd), c, fd, s.sock[c]);
  }

  /** Only the queues of connections of `c` are touched. */
  lemma OtherQueues(s: Net, s': Net, c: Id, fd: int, old_fd: int)
    requires fd !in s.link && Rejoined(s, s', c, fd) && s'.track == s.track && s'.log == s.log
    requires old_fd in s.link && s.link[old_fd] == c
    requires s'.downs == s.downs[old_fd := []][fd := []]
    ensures Renewed(s, s', c, fd)
  {
    hide Rejoined;
  }

  lemma {:induction false} RenewsUnconnected(topo: Topo, s: Net, c: Id, fd: int)
    requires Plain(topo, s) && c in topo.parent && c !in s.sock && fd !in s.link
    ensures Renewed(s, Next(topo, s, Connect(c, fd)), c, fd)
  {
    PlainParts(topo, s);
    NothingToGiveUp(topo, s, c);
    hide Plain, DoConnect, BuildRegister, Rejoined;
    ConnectEffect(s, c, fd);
    hide DoConnect;
    RejoinedByParts(s, s, DoConnect(s, c, fd), c, fd);
    OnlyNewQueues(s, DoConnect(s, c, fd), c, fd);
  }

  lemma OnlyNewQueues(s: Net, s': Net, c: Id, fd: int)
    requires fd !in s.link && Rejoined(s, s', c, fd) && s'.track == s.track && s'.log == s.log
    requires s'.downs == s.downs[fd := []]
    ensures Renewed(s, s', c, fd)
  {
    hide Rejoined;
  }

  lemma NothingToGiveUp(topo: Topo, s: Net, c: Id)
    requires Plain(topo, s) && c in topo.parent && c !in s.sock
    ensures c in s.nodes && s.nodes == s.nodes[c := s.nodes[c].(connected := false)] && s.sock == s.sock - {c}
  {}

  lemma PlainParts(topo: Topo, s: Net)
    requires Plain(topo, s)
    ensures topo.Valid() && s.nodes.Keys == topo.depth.Keys && s.downs.Keys == s.link.Keys && s.ups.Keys == s.link.Keys
    ensures forall c :: c in s.sock ==> c in topo.parent && s.sock[c] in s.link && s.link[s.sock[c]] == c
    ensures forall fd :: fd in s.link ==> s.link[fd] in topo.parent
  {}

  // ----- a response gets home -----

  ghost predicate Served(s: Net, id: int) {
    id in s.track && Completed(id, s.track[id].origin) in s.log
  }

  ghost predicate ResponseAt(s: Net, fd: int, i: nat, id: int) {
    fd in s.link && fd in s.ups && i < |s.ups[fd]| && s.ups[fd][i].Resp? && s.ups[fd][i].resp.id == id
  }

  ghost function Depth(topo: Topo, c: Id): nat {
    if c in topo.depth then topo.depth[c] else 0
  }

  ghost function Above(topo: Topo, c: Id): Id {
    if c in topo.parent then topo.parent[c] else c
  }

  lemma {:induction false} CanRead(topo: Topo, s: Net, fd: int, i: nat, id: int)
    requires Sane(topo, s) && ResponseAt(s, fd, i, id)
    ensures CanRecvUp(topo, s, fd) && topo.Valid() && Depth(topo, topo.parent[s.link[fd]]) < Depth(topo, s.link[fd])
  {
    OrderlyParts(topo, s);
    hide Orderly;
    topo.ParentIsAbove(s.link[fd]);
  }

  lemma {:induction false} PopsHead(topo: Topo, s: Net, fd: int, i: nat, id: int)
    requires Orderly(topo, s) && CanRecvUp(topo, s, fd) && ResponseAt(s, fd, i, id) && i > 0
    ensures var s' := Next(topo, s, RecvUp(fd)); s'.link == s.link && ResponseAt(s', fd, i - 1, id)
  {
    hide Orderly, Shape, OnlyOnce, DoRegister, DoResponse, Registered, BuildRegister;
    OrderlyParts(topo, s);
    if s.ups[fd][0].Reg? { RegisterEffect(topo, s, fd); } else { ResponseIsHandled(topo, s, fd); }
  }

  lemma {:induction false} ArrivesHome(topo: Topo, s: Net, fd: int, id: int)
    requires Sane(topo, s) && CanRecvUp(topo, s, fd) && ResponseAt(s, fd, 0, id)
    requires s.ups[fd][0].resp.to == topo.parent[s.link[fd]]
    ensures Served(Next(topo, s, RecvUp(fd)), id)
  {
    SaneIsAnchored(topo, s, fd, id);
    hide Orderly, DoResponse, Anchored;
    ResponseIsHandled(topo, s, fd);
    AnchoredHasContext(topo, s, fd);
  }

  lemma {:induction false} MovesUp(topo: Topo, s: Net, fd: int, id: int)
    requires Sane(topo, s) && CanRecvUp(topo, s, fd) && ResponseAt(s, fd, 0, id)
    requires var p := topo.parent[s.link[fd]]; s.ups[fd][0].resp.to != p && Whole(s, p)
    ensures var s', p := Next(topo, s, RecvUp(fd)), topo.parent[s.link[fd]];
      s.sock[p] in s.ups && ResponseAt(s', s.sock[p], |s.ups[s.sock[p]]|, id) && s'.link[s.sock[p]] == p
  {
    OrderlyParts(topo, s);
    SaneIsAnchored(topo, s, fd, id);
    var p := topo.parent[s.link[fd]];
    assert s.sock[p] in s.link && s.link[s.sock[p]] == p;
    hide Orderly, Shape, OnlyOnce, DoResponse, Anchored;
    ResponseIsHandled(topo, s, fd);
    AnchoredHasContext(topo, s, fd);
  }

  lemma {:induction false} SaneIsAnchored(topo: Topo, s: Net, fd: int, id: int)
    requires Sane(topo, s) && ResponseAt(s, fd, 0, id)
    ensures topo.Valid() && Anchored(topo, s, id)
  {
    OrderlyParts(topo, s);
    hide Orderly, UpsOpen;
    assert Resp(s.ups[fd][0].resp) in s.ups[fd];
    assert ResponseOnWire(s, fd, id);
    WhereNoted(topo, s, id, fd);
  }

  /** A matrix that is not where a response is bound has a parent. */
  lemma {:induction false} OnTheWayUp(topo: Topo, s: Net, fd: int, id: int)
    requires Orderly(topo, s) && ResponseAt(s, fd, 0, id)
    ensures topo.Valid() && s.link[fd] in topo.parent
    ensures s.ups[fd][0].resp.to != topo.parent[s.link[fd]] ==> topo.parent[s.link[fd]] in topo.parent
  {
    var p := topo.parent[s.link[fd]];
    assert s.ups[fd][0] in s.ups[fd];
    assert ResponseOk(topo, s.track, fd, s.link[fd], s.ups[fd][0].resp);
    hide Orderly;
    assert topo.Desc(s.ups[fd][0].resp.to, p);
  }

  lemma RenewedKeepsResponse(s: Net, s': Net, c: Id, f: int, fd: int, id: int)
    requires Renewed(s, s', c, f) && ResponseAt(s, fd, 0, id)
    ensures ResponseAt(s', fd, 0, id) && s'.link[fd] == s.link[fd] && Whole(s', c)
  {
    hide BuildRegister;
  }

  /** In every reachable state, whatever connections were lost, a response under way can be brought
      home: the matrices above it reconnect where they have to. */
  lemma {:induction false} ResponseGetsHome(topo: Topo, steps: seq<Step>, fd: int, i: nat, id: int) returns (more: seq<Step>)
    requires topo.Valid() && ResponseAt(After(topo, steps), fd, i, id)
    ensures Served(After(topo, steps + more), id)
    decreases Depth(topo, After(topo, steps).link[fd]), i, !Whole(After(topo, steps), Above(topo, After(topo, steps).link[fd]))
  {
    hide After, Next, Sane, Orderly, CanRecvUp, Served, Renewed;
    var s := After(topo, steps);
    AlwaysSane(topo, steps);
    AlwaysOrderly(topo, steps);
    CanRead(topo, s, fd, i, id);
    AfterOneMore(topo, steps, RecvUp(fd));
    if i > 0 {
      PopsHead(topo, s, fd, i, id);
      var rest := ResponseGetsHome(topo, steps + [RecvUp(fd)], fd, i - 1, id);
      more := [RecvUp(fd)] + rest;
      Associates(steps, [RecvUp(fd)], rest);
    } else {
      OnTheWayUp(topo, s, fd, id);
      var p := topo.parent[s.link[fd]];
      if s.ups[fd][0].resp.to == p {
        more := [RecvUp(fd)];
        ArrivesHome(topo, s, fd, id);
      } else if Whole(s, p) {
        MovesUp(topo, s, fd, id);
        var rest := ResponseGetsHome(topo, steps + [RecvUp(fd)], s.sock[p], |s.ups[s.sock[p]]|, id);
        more := [RecvUp(fd)] + rest;
        Associates(steps, [RecvUp(fd)], rest);
      } else {
        var first, f := Renew(topo, steps, p);
        RenewedKeepsResponse(s, After(topo, steps + first), p, f, fd, id);
        var rest := ResponseGetsHome(topo, steps + first, fd, i, id);
        more := first + rest;
        Associates(steps, first, rest);
      }
    }
  }

  // ----- a request on a whole connection gets home -----

  /** The request waits for its child at position `i`, on the connection the child has. */
  ghost predicate RequestAt(s: Net, fd: int, i: nat, id: int) {
    && fd in s.link && fd in s.downs && i < |s.downs[fd]| && s.downs[fd][i].id == id
    && s.link[fd] in s.sock && s.sock[s.link[fd]] == fd
  }

  /** The child refuses the request at the head of its connection. */
  lemma {:induction false} Refuses(topo: Topo, s: Net, fd: int, i: nat, id: int)
    requires Orderly(topo, s) && RequestAt(s, fd, i, id)
    ensures CanRecvDown(s, fd) && fd in s.ups
    ensures var s' := Next(topo, s, RecvDown(fd, false, false, 0));
      && s'.link == s.link && s'.sock == s.sock && s'.open == s.open
      && (i > 0 ==> RequestAt(s', fd, i - 1, id))
      && (i == 0 && fd in s.open ==> ResponseAt(s', fd, |s.ups[fd]|, id))
      && forall k :: k in s.track ==> k in s'.track && s'.track[k].target == s.track[k].target
  {
    OrderlyParts(topo, s);
    assert CanRecvDown(s, fd) && fd in s.ups;
    hide Orderly, Shape, OnlyOnce, MatchMatrix, DoRequest, Answered, Forwarded;
    RequestIsAnsweredOrForwarded(topo, s, fd, false, false, 0);
    var r := OnClientRxRequest(s.nodes[s.link[fd]], s.downs[fd][0], false, false, 0).1.response;
    AfterRefusal(s, Next(topo, s, RecvDown(fd, false, false, 0)), fd, r, i, id);
  }

  lemma {:induction false} AfterRefusal(s: Net, s': Net, fd: int, r: Response, i: nat, id: int)
    requires Answered(s, s', fd, r) && RequestAt(s, fd, i, id) && fd in s.ups
    ensures s'.link == s.link && s'.sock == s.sock && s'.open == s.open
    ensures i > 0 ==> RequestAt(s', fd, i - 1, id)
    ensures i == 0 && fd in s.open ==> ResponseAt(s', fd, |s.ups[fd]|, id)
    ensures forall k :: k in s.track ==> k in s'.track && s'.track[k].target == s.track[k].target
  {}

  lemma {:induction false} RequestGetsHome(topo: Topo, steps: seq<Step>, fd: int, i: nat, id: int) returns (more: seq<Step>)
    requires topo.Valid() && RequestAt(After(topo, steps), fd, i, id) && fd in After(topo, steps).open
    ensures Served(After(topo, steps + more), id)
    decreases i
  {
    hide After, Next, Orderly, Served, RequestAt, ResponseAt;
    var s, step := After(topo, steps), RecvDown(fd, false, false, 0);
    AlwaysOrderly(topo, steps);
    Refuses(topo, s, fd, i, id);
    AfterOneMore(topo, steps, step);
    var rest;
    if i > 0 {
      rest := RequestGetsHome(topo, steps + [step], fd, i - 1, id);
    } else {
      rest := ResponseGetsHome(topo, steps + [step], fd, |s.ups[fd]|, id);
    }
    more := [step] + rest;
    Associates(steps, [step], rest);
  }

  // ----- a request on a closed connection can be passed on -----

  /** The request is the next its child handles, on a connection the parent has closed. */
  ghost predicate Held(s: Net, fd: int, c: Id, id: int) {
    RequestAt(s, fd, 0, id) && s.link[fd] == c && fd !in s.open
  }

  /** All connections of `k` were closed by its parent `y`; nothing else has happened. */
  ghost predicate ClosedAll(s: Net, s': Net, y: Id, k: Id) {
    && s'.link == s.link && s'.sock == s.sock && s'.downs == s.downs
    && y in s.nodes && y in s'.nodes && s'.nodes == s.nodes[y := s.nodes[y].(table := s'.nodes[y].table)]
    && (forall f :: f in s'.open ==> f in s.open && f in s.link && s.link[f] != k)
  }

  lemma {:induction false} CloseAll(topo: Topo, steps: seq<Step>, k: Id) returns (more: seq<Step>)
    requires topo.Valid() && k in topo.parent
    ensures ClosedAll(After(topo, steps), After(topo, steps + more), topo.parent[k], k)
    decreases |After(topo, steps).open|
  {
    hide After, Next;
    var s := After(topo, steps);
    AlwaysPlain(topo, steps);
    PlainOpen(topo, s);
    PlainParts(topo, s);
    topo.ParentIsAbove(k);
    hide Plain;
    if f :| f in s.open && s.link[f] == k {
      Closes(topo, s, f);
      AfterOneMore(topo, steps, ServerGone(f));
      var rest := CloseAll(topo, steps + [ServerGone(f)], k);
      more := [ServerGone(f)] + rest;
      Associates(steps, [ServerGone(f)], rest);
      ClosedThenAll(s, After(topo, steps + [ServerGone(f)]), After(topo, steps + more), topo.parent[k], k);
    } else {
      more := [];
      Associates(steps, more, []);
      NoneToClose(s, topo.parent[k], k);
    }
  }

  lemma NoneToClose(s: Net, y: Id, k: Id)
    requires y in s.nodes && forall f :: f in s.open ==> f in s.link && s.link[f] != k
    ensures ClosedAll(s, s, y, k)
  {
    assert s.nodes == s.nodes[y := s.nodes[y].(table := s.nodes[y].table)];
  }

  lemma PlainOpen(topo: Topo, s: Net)
    requires Plain(topo, s)
    ensures forall f :: f in s.open ==> f in s.link
  {}

  lemma {:induction false} Closes(topo: Topo, s: Net, f: int)
    requires f in s.open && f in s.link && f in s.ups && s.link[f] in topo.parent && topo.parent[s.link[f]] in s.nodes
    ensures var s', y := Next(topo, s, ServerGone(f)), topo.parent[s.link[f]];
      && s'.link == s.link && s'.sock == s.sock && s'.downs == s.downs && s'.open == s.open - {f}
      && y in s'.nodes && s'.nodes == s.nodes[y := s.nodes[y].(table := s'.nodes[y].table)]
  {
    hide DoServerGone;
    ClosedEffect(topo, s, f);
  }

  lemma ClosedThenAll(s: Net, s1: Net, s': Net, y: Id, k: Id)
    requires s1.link == s.link && s1.sock == s.sock && s1.downs == s.downs && s1.open <= s.open
    requires y in s.nodes && y in s1.nodes && s1.nodes == s.nodes[y := s.nodes[y].(table := s1.nodes[y].table)]
    requires ClosedAll(s1, s', y, k)
    ensures ClosedAll(s, s', y, k)
  {}

  /** `k` is registered with its parent `y` over its connection `f`, with all it has in its own
      table. */
  ghost predicate RegisteredOver(s: Net, y: Id, k: Id, f: int, children: set<int>) {
    && y in s.nodes && k in s.nodes[y].table && s.nodes[y].table[k] == MatrixInfo(k, f, children)
    && k in s.sock && s.sock[k] == f && f in s.open && f in s.link && s.link[f] == k
  }

  /** Any matrix below the one where a request is held can register afresh, without disturbing it. */
  lemma {:induction false} Reregister(topo: Topo, steps: seq<Step>, k: Id, fd: int, c: Id, id: int)
    returns (more: seq<Step>, f: int)
    requires topo.Valid() && k in topo.parent && k != c && Held(After(topo, steps), fd, c, id)
    requires k in After(topo, steps).nodes
    ensures Held(After(topo, steps + more), fd, c, id)
    ensures RegisteredOver(After(topo, steps + more), topo.parent[k], k, f, Elements(Announced(After(topo, steps).nodes[k].table)))
  {
    hide After, Next, Held, ClosedAll, Renewed, RegisteredOver, Announced;
    var s, y := After(topo, steps), topo.parent[k];
    var closing := CloseAll(topo, steps, k);
    var s1 := After(topo, steps + closing);
    var joining;
    joining, f := Renew(topo, steps + closing, k);
    var s2 := After(topo, steps + closing + joining);
    more := closing + (joining + [RecvUp(f)]);
    Associates(steps, closing, joining + [RecvUp(f)]);
    Associates(steps + closing, joining, [RecvUp(f)]);
    AfterOneMore(topo, steps + closing + joining, RecvUp(f));
    AlwaysPlain(topo, steps + closing);
    AlwaysPlain(topo, steps + closing + joining);
    topo.ParentIsAbove(k);
    ClosedHasNoEntry(topo, s, s1, y, k);
    HeldThrough(topo, s, s1, s2, y, k, f, fd, c, id);
    RegistersAnew(topo, s1, s2, y, k, f, fd, c, id);
  }

  /** Closing all of a child's connections takes it off the table, and leaves its own alone. */
  lemma {:induction false} ClosedHasNoEntry(topo: Topo, s: Net, s1: Net, y: Id, k: Id)
    requires Plain(topo, s1) && ClosedAll(s, s1, y, k) && topo.IsChild(k, y) && k != y && k in s.nodes
    ensures k !in s1.nodes[y].table && k in s1.nodes && s1.nodes[k] == s.nodes[k]
  {
    if k in s1.nodes[y].table {
      OldEntry(topo, s1, y, k);
    }
  }

  lemma {:induction false} HeldThrough(topo: Topo, s: Net, s1: Net, s2: Net, y: Id, k: Id, f: int, fd: int, c: Id, id: int)
    requires Held(s, fd, c, id) && ClosedAll(s, s1, y, k) && Renewed(s1, s2, k, f) && k != c
    ensures Held(s1, fd, c, id) && Held(s2, fd, c, id)
  {
    hide BuildRegister;
  }

  lemma {:induction false} RegistersAnew(topo: Topo, s1: Net, s2: Net, y: Id, k: Id, f: int, fd: int, c: Id, id: int)
    requires Plain(topo, s2) && Renewed(s1, s2, k, f) && topo.IsChild(k, y) && y in s1.nodes && k in s1.nodes && k != y
    requires k !in s1.nodes[y].table && s1.nodes[k].id == k && Held(s2, fd, c, id)
    ensures var s3 := Next(topo, s2, RecvUp(f));
      Held(s3, fd, c, id) && RegisteredOver(s3, y, k, f, Elements(Announced(s1.nodes[k].table)))
  {
    hide Plain, Shape, DoRegister, DoResponse, Registered, BuildRegister, Announced, Renewed, Held, RegisteredOver;
    RenewedCanRead(topo, s1, s2, y, k, f);
    RegisterLasts(s1.nodes[k]);
    AnnouncesItsTable(s1.nodes[k]);
    RegisterEffect(topo, s2, f);
    var s3 := Next(topo, s2, RecvUp(f));
    RegisteredEntries(s2.nodes[y].table, f, BuildRegister(s1.nodes[k]));
    NowRegistered(s2, s3, y, k, f, Elements(Announced(s1.nodes[k].table)));
    HeldAgain(s2, s3, fd, c, id);
  }

  lemma AnnouncesItsTable(st: State)
    ensures BuildRegister(st).children == Announced(st.table)
  {}

  lemma NowRegistered(s2: Net, s3: Net, y: Id, k: Id, f: int, children: set<int>)
    requires y in s3.nodes && k in s3.nodes[y].table && s3.nodes[y].table[k] == MatrixInfo(k, f, children)
    requires s3.link == s2.link && s3.open == s2.open && s3.sock == s2.sock
    requires k in s2.sock && s2.sock[k] == f && f in s2.open && f in s2.link && s2.link[f] == k
    ensures RegisteredOver(s3, y, k, f, children)
  {}

  lemma HeldAgain(s: Net, s': Net, fd: int, c: Id, id: int)
    requires Held(s, fd, c, id) && s'.link == s.link && s'.open == s.open && s'.sock == s.sock && s'.downs == s.downs
    ensures Held(s', fd, c, id)
  {}

  lemma {:induction false} RenewedCanRead(topo: Topo, s1: Net, s2: Net, y: Id, k: Id, f: int)
    requires Plain(topo, s2) && Renewed(s1, s2, k, f) && topo.IsChild(k, y) && y in s1.nodes && k in s1.nodes
    ensures Shape(topo, s2) && CanRecvUp(topo, s2, f) && s2.ups[f] == [Reg(BuildRegister(s1.nodes[k]))] && s2.link[f] == k
    ensures y in s2.nodes && s2.nodes[y].table == s1.nodes[y].table
    ensures k in s2.sock && s2.sock[k] == f && f in s2.open && f in s2.link
  {
    hide BuildRegister, EntriesOpen, Flags, Lasting, Tables, Registers;
  }

  /** The table of `y` leads to the target, over a whole connection of the child it names. */
  ghost predicate Routed(s: Net, y: Id, target: Id) {
    exists k, f, children :: RegisteredOver(s, y, k, f, children) && (k == target || target in children)
  }

  lemma {:induction false} RoutedAnnounces(s: Net, y: Id, target: Id)
    requires Routed(s, y, target)
    ensures y in s.nodes && target in Elements(Announced(s.nodes[y].table))
  {
    hide Announced;
    var k, f, children :| RegisteredOver(s, y, k, f, children) && (k == target || target in children);
    assert Serves(s.nodes[y].table[k], target);
    AnnouncedAreServed(s.nodes[y].table, target);
  }

  /** From every reachable state in which a request is held at `c`, a route from any matrix at or
      below `c` to anything below that one can be set up, without disturbing the request. */
  lemma {:induction false} SetUpRoute(topo: Topo, steps: seq<Step>, y: Id, target: Id, fd: int, c: Id, id: int)
    returns (more: seq<Step>)
    requires topo.Valid() && Held(After(topo, steps), fd, c, id) && topo.Desc(c, y) && target in topo.Below(y)
    ensures Held(After(topo, steps + more), fd, c, id) && Routed(After(topo, steps + more), y, target)
    decreases |topo.Below(y)|
  {
    hide After, Next, Held, Routed, RegisteredOver, Announced, Plain;
    var k := topo.ChildTowards(y, target);
    topo.ChildIsBelow(k, y);
    SubsetIsSmaller(topo.Below(k), topo.Below(y));
    StrictlyBelow(topo, c, y, k);
    var first := [];
    Associates(steps, first, []);
    if k != target {
      first := SetUpRoute(topo, steps, k, target, fd, c, id);
      RoutedAnnounces(After(topo, steps + first), k, target);
    }
    AlwaysPlain(topo, steps + first);
    PlainParts(topo, After(topo, steps + first));
    var second, f := Reregister(topo, steps + first, k, fd, c, id);
    more := first + second;
    Associates(steps, first, second);
    RegisteredRoutes(After(topo, steps + more), y, k, f, Elements(Announced(After(topo, steps + first).nodes[k].table)), target);
  }

  lemma RegisteredRoutes(s: Net, y: Id, k: Id, f: int, children: set<int>, target: Id)
    requires RegisteredOver(s, y, k, f, children) && (k == target || target in children)
    ensures Routed(s, y, target)
  {}

  lemma {:induction false} StrictlyBelow(topo: Topo, c: Id, y: Id, k: Id)
    requires topo.Valid() && topo.Desc(c, y) && topo.IsChild(k, y)
    ensures k != c && topo.Desc(c, k) && k in topo.depth
  {
    topo.DescDepth(c, y);
    topo.ParentIsAbove(k);
  }

  /** The held request is passed on to the child that leads to its target, and waits there on a
      whole connection. */
  lemma {:induction false} PassesItOn(topo: Topo, s: Net, fd: int, c: Id, id: int) returns (f: int)
    requires Orderly(topo, s) && Held(s, fd, c, id) && id in s.track && s.track[id].target != c && Routed(s, c, s.track[id].target)
    ensures f in s.downs && f in s.open
    ensures var s' := Next(topo, s, RecvDown(fd, true, true, 0));
      f in s'.open && RequestAt(s', f, |s.downs[f]|, id)
  {
    var q, target := s.downs[fd][0], s.track[id].target;
    var k, f', children :| RegisteredOver(s, c, k, f', children) && (k == target || target in children);
    f := f';
    HandlerForwards(topo, s, fd, c, k, id);
    hide Orderly, DoRequest, OnClientRxRequest, Forwarded, Answered;
    RequestIsAnsweredOrForwarded(topo, s, fd, true, true, 0);
    NowWaitsThere(topo, s, Next(topo, s, RecvDown(fd, true, true, 0)), fd, f, id);
  }

  /** The child of a routed matrix is the one its handler forwards to. */
  lemma {:induction false} HandlerForwards(topo: Topo, s: Net, fd: int, c: Id, k: Id, id: int)
    requires Orderly(topo, s) && RequestAt(s, fd, 0, id) && s.link[fd] == c && id in s.track && s.track[id].target != c
    requires c in s.nodes && k in s.nodes[c].table && Serves(s.nodes[c].table[k], s.track[id].target)
    ensures topo.Valid() && CanRecvDown(s, fd)
    ensures OnClientRxRequest(s.nodes[c], s.downs[fd][0], true, true, 0).1 == Down(s.nodes[c].table[k].fd, s.downs[fd][0])
  {
    var q := s.downs[fd][0];
    assert q in s.downs[fd];
    assert RequestOk(topo, s.track, fd, c, q) && CanRecvDown(s, fd) && s.nodes[c].id == c;
    assert TableOk(topo, s.link, c, s.nodes[c].table);
    MatchIs(topo, s.link, c, s.nodes[c].table, q.to, k);
    RequestOutcome(topo, s, fd, true, true, 0);
    hide Orderly, MatchMatrix, TableOk;
  }

  lemma {:induction false} NowWaitsThere(topo: Topo, s: Net, s': Net, fd: int, f: int, id: int)
    requires topo.Valid() && Forwarded(topo, s, s', fd, f) && s.downs[fd][0].id == id
    requires f in s.open && s.link[f] in s.sock && s.sock[s.link[f]] == f
    ensures f in s.downs && f in s'.open && RequestAt(s', f, |s.downs[f]|, id)
  {}

  lemma {:induction false} MatchIs(topo: Topo, link: map<int, Id>, m: Id, table: map<int, MatrixInfo>, target: Id, k: Id)
    requires topo.Valid() && TableOk(topo, link, m, table) && k in table && Serves(table[k], target)
    ensures MatchMatrix(table, target) == Some(table[k])
  {
    var ks := Servers(table, target);
    assert k in ks;
    OnlyOneChildServes(topo, link, m, table, target, k, Least(ks));
  }

  lemma {:induction false} HeldGetsHome(topo: Topo, steps: seq<Step>, fd: int, c: Id, id: int) returns (more: seq<Step>)
    requires topo.Valid() && Held(After(topo, steps), fd, c, id)
    requires id in After(topo, steps).track && After(topo, steps).track[id].target in topo.Below(c)
    ensures Served(After(topo, steps + more), id)
  {
    hide After, Next, Held, Routed, Served, Orderly, RequestAt;
    var s, target := After(topo, steps), After(topo, steps).track[id].target;
    AlwaysOrderly(topo, steps);
    topo.DescDepth(c, target);
    var first := SetUpRoute(topo, steps, c, target, fd, c, id);
    var s1 := After(topo, steps + first);
    AlwaysOrderly(topo, steps + first);
    TargetStays(topo, steps, first, id);
    var f := PassesItOn(topo, s1, fd, c, id);
    var step := RecvDown(fd, true, true, 0);
    AfterOneMore(topo, steps + first, step);
    var rest := RequestGetsHome(topo, steps + first + [step], f, |s1.downs[f]|, id);
    more := first + ([step] + rest);
    Associates(steps, first, [step] + rest);
    Associates(steps + first, [step], rest);
  }

  lemma {:induction false} TargetStays(topo: Topo, steps: seq<Step>, more: seq<Step>, id: int)
    requires topo.Valid() && id in After(topo, steps).track
    ensures id in After(topo, steps + more).track
    ensures After(topo, steps + more).track[id].target == After(topo, steps).track[id].target
    ensures After(topo, steps + more).track[id].origin == After(topo, steps).track[id].origin
  {
    hide After, Next, Orderly;
    if more == [] {
      Associates(steps, more, []);
    } else {
      var n := |more| - 1;
      var before := steps + more[..n];
      TargetStays(topo, steps, more[..n], id);
      AlwaysOrderly(topo, before);
      NoteStays(topo, After(topo, before), more[n], id);
      AfterOneMore(topo, before, more[n]);
      assert before + [more[n]] == steps + more;
    }
  }

  lemma {:induction false} NoteStays(topo: Topo, s: Net, step: Step, id: int)
    requires Orderly(topo, s) && id in s.track
    ensures var s' := Next(topo, s, step);
      id in s'.track && s'.track[id].target == s.track[id].target && s'.track[id].origin == s.track[id].origin
  {
    hide Orderly, Shape, OnlyOnce, OnClientRxRequest, StartSwitch, Registered, BuildRegister;
    hide DoConnect, DoClientGone, DoServerGone, DoRegister, DoResponse, DoRequest, DoSwitch;
    OrderlyParts(topo, s);
    match step
    case Connect(c, fd) => if CanConnect(topo, s, c, fd) { ConnectEffect(s, c, fd); }
    case ClientGone(c) => if CanClientGone(s, c) { GoneEffect(s, c); }
    case ServerGone(fd) => if CanServerGone(topo, s, fd) { ClosedEffect(topo, s, fd); }
    case RecvUp(fd) =>
      if CanRecvUp(topo, s, fd) {
        if s.ups[fd][0].Reg? { RegisterEffect(topo, s, fd); } else { ResponseIsHandled(topo, s, fd); }
      }
    case RecvDown(fd, granted, found, outport) =>
      if CanRecvDown(s, fd) { RequestIsAnsweredOrForwarded(topo, s, fd, granted, found, outport); }
    case Switch(m, keyboard, camera, k) =>
      if CanSwitch(s, m, camera, k) { SwitchAsks(topo, s, m, keyboard, camera, k); }
  }

  // ----- the exact condition -----

  /** The request at position `i` of a closed connection: those ahead of it are refused first. */
  lemma {:induction false} WaitingGetsHome(topo: Topo, steps: seq<Step>, fd: int, i: nat, id: int) returns (more: seq<Step>)
    requires topo.Valid() && RequestAt(After(topo, steps), fd, i, id)
    requires fd in After(topo, steps).open
      || (id in After(topo, steps).track && After(topo, steps).track[id].target in topo.Below(After(topo, steps).link[fd]))
    ensures Served(After(topo, steps + more), id)
    decreases i
  {
    hide After, Next, Orderly, Served;
    var s, step := After(topo, steps), RecvDown(fd, false, false, 0);
    if fd in s.open {
      more := RequestGetsHome(topo, steps, fd, i, id);
    } else if i == 0 {
      more := HeldGetsHome(topo, steps, fd, s.link[fd], id);
    } else {
      AlwaysOrderly(topo, steps);
      Refuses(topo, s, fd, i, id);
      hide RequestAt;
      AfterOneMore(topo, steps, step);
      var rest := WaitingGetsHome(topo, steps + [step], fd, i - 1, id);
      more := [step] + rest;
      Associates(steps, [step], rest);
    }
  }

  lemma {:induction false} NotDoomedGetsHome(topo: Topo, steps: seq<Step>, id: int) returns (more: seq<Step>)
    requires topo.Valid() && id in After(topo, steps).track && !After(topo, steps).track[id].at.Home?
    requires !Doomed(After(topo, steps), id)
    ensures Served(After(topo, steps + more), id)
  {
    hide After, Orderly, Served, Shape, OnlyOnce, RequestAt, ResponseAt;
    var s := After(topo, steps);
    AlwaysOrderly(topo, steps);
    if fd :| ResponseOnWire(s, fd, id) {
      var i := ResponseHasPlace(topo, s, fd, id);
      more := ResponseGetsHome(topo, steps, fd, i, id);
    } else {
      var fd :| RequestWaits(s, fd, id) && (fd in s.open || s.link[fd] != s.track[id].target);
      var i := RequestHasPlace(topo, s, fd, id);
      more := WaitingGetsHome(topo, steps, fd, i, id);
    }
  }

  lemma {:induction false} ResponseHasPlace(topo: Topo, s: Net, fd: int, id: int) returns (i: nat)
    requires Orderly(topo, s) && ResponseOnWire(s, fd, id)
    ensures ResponseAt(s, fd, i, id)
  {
    OrderlyParts(topo, s);
    hide Orderly, OnlyOnce;
    var r :| Resp(r) in s.ups[fd] && r.id == id;
    i :| 0 <= i < |s.ups[fd]| && s.ups[fd][i] == Resp(r);
  }

  lemma {:induction false} RequestHasPlace(topo: Topo, s: Net, fd: int, id: int) returns (i: nat)
    requires Orderly(topo, s) && RequestWaits(s, fd, id)
    ensures RequestAt(s, fd, i, id) && topo.Valid() && id in s.track
    ensures s.link[fd] != s.track[id].target ==> s.track[id].target in topo.Below(s.link[fd])
  {
    hide Orderly;
    var q :| q in s.downs[fd] && q.id == id;
    i :| 0 <= i < |s.downs[fd]| && s.downs[fd][i] == q;
    TargetIsBelow(topo, s, fd, q);
  }

  lemma {:induction false} TargetIsBelow(topo: Topo, s: Net, fd: int, q: Request)
    requires Orderly(topo, s) && fd in s.link && fd in s.downs && q in s.downs[fd]
    ensures topo.Valid() && q.id in s.track
    ensures s.link[fd] != s.track[q.id].target ==> s.track[q.id].target in topo.Below(s.link[fd])
  {
    assert RequestOk(topo, s.track, fd, s.link[fd], q);
  }

  /** In every reachable state of every run, whatever connections were lost: a request that is not
      home can still be answered if and only if it is not doomed. */
  lemma {:induction false} AnswerableIff(topo: Topo, steps: seq<Step>, id: int)
    requires topo.Valid() && id in After(topo, steps).track && !After(topo, steps).track[id].at.Home?
    ensures (exists more :: Served(After(topo, steps + more), id)) <==> !Doomed(After(topo, steps), id)
  {
    hide After, Doomed;
    if Doomed(After(topo, steps), id) {
      forall more ensures !Served(After(topo, steps + more), id) {
        DoomedForEver(topo, steps, more, id);
      }
    } else {
      var more := NotDoomedGetsHome(topo, steps, id);
      assert Served(After(topo, steps + more), id);
    }
  }
}
