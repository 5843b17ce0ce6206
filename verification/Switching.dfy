/**
  SWITCH requests in every run, with connections coming and going: a request moves strictly
  down its path, visits no matrix twice, is answered at most once, and contexts are only ever
  held along the path it has taken.
 */
module Switching {
  import opened GlobalIds
  import opened Matrix
  import opened Hierarchy
  import opened Routing
  import Topology

  // ----- what is true of a message under way -----

  /** A request on connection `fd` to child `c`: it is bound for `c` or below, from above `c`. */
  ghost predicate RequestOk(topo: Topo, track: map<int, Track>, fd: int, c: Id, q: Request)
    requires topo.Valid() && c in topo.parent
  {
    && q.id in track && track[q.id] == Track(q.from, q.to, InDown(fd))
    && topo.Desc(c, q.to) && topo.Desc(q.from, topo.parent[c])
  }

  /** A response on connection `fd` from child `c`: it is bound for a matrix above `c`. */
  ghost predicate ResponseOk(topo: Topo, track: map<int, Track>, fd: int, c: Id, r: Response)
    requires topo.Valid() && c in topo.parent
  {
    && r.id in track && track[r.id].origin == r.to && track[r.id].at == InUp(fd)
    && topo.Desc(r.to, topo.parent[c])
  }

  ghost predicate Requests(topo: Topo, s: Net)
    requires Shape(topo, s)
  {
    forall fd, q :: fd in s.link && q in s.downs[fd] ==> RequestOk(topo, s.track, fd, s.link[fd], q)
  }

  ghost predicate Responses(topo: Topo, s: Net)
    requires Shape(topo, s)
  {
    forall fd, msg :: fd in s.link && msg in s.ups[fd] && msg.Resp? ==>
      ResponseOk(topo, s.track, fd, s.link[fd], msg.resp)
  }

  predicate DistinctDown(q: seq<Request>) {
    forall i, j :: 0 <= i < j < |q| ==> q[i].id != q[j].id
  }

  predicate DistinctUp(q: seq<UpMsg>) {
    forall i, j :: 0 <= i < j < |q| && q[i].Resp? && q[j].Resp? ==> q[i].resp.id != q[j].resp.id
  }

  /** No request and no response is on a connection twice. */
  ghost predicate OnlyOnce(s: Net) {
    && (forall fd :: fd in s.downs ==> DistinctDown(s.downs[fd]))
    && (forall fd :: fd in s.ups ==> DistinctUp(s.ups[fd]))
  }

  /** `m` lies on the path from a request's origin to the parent end of the connection on which
      the request or its response was last put. */
  ghost predicate OnThePath(topo: Topo, link: map<int, Id>, t: Track, m: Id)
    requires topo.Valid()
  {
    && !t.at.Home? && t.at.fd in link && link[t.at.fd] in topo.parent
    && m in topo.Path(t.origin, topo.parent[link[t.at.fd]])
  }

  ghost predicate Contexts(topo: Topo, s: Net)
    requires topo.Valid()
  {
    forall m, id :: m in s.nodes && id in s.nodes[m].contexts ==>
      id in s.track && OnThePath(topo, s.link, s.track[id], m)
  }

  ghost predicate NobodyAborted(s: Net) {
    forall m :: m in s.nodes ==> !s.nodes[m].aborted
  }

  /** Deliveries of one request go strictly down; it completes at most once, at its origin. */
  ghost predicate LogOk(topo: Topo, s: Net)
    requires topo.Valid()
  {
    Visits(topo, s) && Sequence(topo, s.log)
  }

  ghost predicate Visits(topo: Topo, s: Net)
    requires topo.Valid()
  {
    forall e :: e in s.log ==> e.id in s.track && EventOk(topo, s.link, s.track[e.id], e)
  }

  ghost predicate Sequence(topo: Topo, log: seq<Event>)
    requires topo.Valid()
  {
    forall i, j :: 0 <= i < j < |log| && log[i].id == log[j].id ==> InOrder(topo, log[i], log[j])
  }

  ghost predicate EventOk(topo: Topo, link: map<int, Id>, t: Track, e: Event)
    requires topo.Valid()
  {
    match e
    case Delivered(_, x) => t.at.InDown? ==> OnThePath(topo, link, t, x) && x != t.origin
    case Completed(_, x) => t.at.Home? && x == t.origin
  }

  ghost predicate InOrder(topo: Topo, e: Event, e': Event)
    requires topo.Valid()
  {
    e.Delivered? && (e'.Delivered? ==> e'.at in topo.Below(e.at))
  }

  ghost predicate Orderly(topo: Topo, s: Net) {
    match Sound(topo, s)
    case false => false
    case true =>
      && Requests(topo, s) && Responses(topo, s) && OnlyOnce(s)
      && Contexts(topo, s) && NobodyAborted(s) && LogOk(topo, s)
  }

  lemma OrderlyParts(topo: Topo, s: Net)
    requires Orderly(topo, s)
    ensures Shape(topo, s) && topo.Valid() && OnlyOnce(s)
  {}

  // ----- queues -----

  lemma HeadIsAlone(q: seq<Request>)
    requires q != [] && DistinctDown(q)
    ensures DistinctDown(q[1..]) && forall x :: x in q[1..] ==> x in q && x.id != q[0].id
  {}

  lemma HeadResponseIsAlone(q: seq<UpMsg>)
    requires q != [] && DistinctUp(q)
    ensures DistinctUp(q[1..])
    ensures forall x :: x in q[1..] ==> x in q && (q[0].Resp? && x.Resp? ==> x.resp.id != q[0].resp.id)
  {}

  lemma AppendDown(q: seq<Request>, x: Request)
    requires DistinctDown(q) && forall y :: y in q ==> y.id != x.id
    ensures DistinctDown(q + [x]) && forall y :: y in q + [x] ==> y in q || y == x
  {}

  lemma AppendUp(q: seq<UpMsg>, x: UpMsg)
    requires DistinctUp(q) && (x.Resp? ==> forall y :: y in q && y.Resp? ==> y.resp.id != x.resp.id)
    ensures DistinctUp(q + [x]) && forall y :: y in q + [x] ==> y in q || y == x
  {}

  /** Requests on different connections have different ids, and so have a request and a response. */
  lemma DifferentPlaces(topo: Topo, s: Net, fd: int, q: Request)
    requires Shape(topo, s) && Requests(topo, s) && Responses(topo, s) && fd in s.link && q in s.downs[fd]
    ensures forall f, x :: f in s.link && f != fd && x in s.downs[f] ==> x.id != q.id
    ensures forall f, msg :: f in s.link && msg in s.ups[f] && msg.Resp? ==> msg.resp.id != q.id
  {}

  // ----- a request moves -----

  /** The queues after a step in which the message with id `id` moved, and what has to be true of
      a message found on them. */
  ghost predicate DownsAfter(topo: Topo, s: Net, s': Net, id: int)
    requires Shape(topo, s) && Shape(topo, s')
  {
    forall f, x :: f in s'.link && x in s'.downs[f] ==>
      (f in s.link && x in s.downs[f] && x.id != id) || RequestOk(topo, s'.track, f, s'.link[f], x)
  }

  ghost predicate UpsAfter(topo: Topo, s: Net, s': Net, id: int)
    requires Shape(topo, s) && Shape(topo, s')
  {
    forall f, msg :: f in s'.link && msg in s'.ups[f] && msg.Resp? ==>
      (f in s.link && msg in s.ups[f] && msg.resp.id != id) || ResponseOk(topo, s'.track, f, s'.link[f], msg.resp)
  }

  /** Notes on other requests are kept. */
  ghost predicate OtherNotesKept(s: Net, s': Net, id: int) {
    forall k :: k in s.track && k != id ==> k in s'.track && s'.track[k] == s.track[k]
  }

  lemma MovedKeepsMessages(topo: Topo, s: Net, s': Net, id: int)
    requires Shape(topo, s) && Shape(topo, s') && Requests(topo, s) && Responses(topo, s)
    requires OtherNotesKept(s, s', id) && s'.link == s.link
    requires DownsAfter(topo, s, s', id) && UpsAfter(topo, s, s', id)
    ensures Requests(topo, s') && Responses(topo, s')
  {}

  /** Contexts for other requests are as before, and those for `id` are on its path. */
  ghost predicate ContextsAfter(topo: Topo, s: Net, s': Net, id: int)
    requires topo.Valid()
  {
    forall m, k :: m in s'.nodes && k in s'.nodes[m].contexts ==>
      || (k != id && m in s.nodes && k in s.nodes[m].contexts)
      || (k in s'.track && OnThePath(topo, s'.link, s'.track[k], m))
  }

  lemma {:induction false} MovedKeepsContexts(topo: Topo, s: Net, s': Net, id: int)
    requires topo.Valid() && Contexts(topo, s) && OtherNotesKept(s, s', id) && s'.link == s.link
    requires ContextsAfter(topo, s, s', id)
    ensures Contexts(topo, s')
  {
    hide OnThePath;
  }

  /** So it is with the log. */
  ghost predicate VisitsAfter(topo: Topo, s: Net, s': Net, id: int)
    requires topo.Valid()
  {
    forall e :: e in s'.log ==>
      (e in s.log && e.id != id) || (e.id in s'.track && EventOk(topo, s'.link, s'.track[e.id], e))
  }

  lemma {:induction false} MovedKeepsVisits(topo: Topo, s: Net, s': Net, id: int)
    requires topo.Valid() && Visits(topo, s) && OtherNotesKept(s, s', id) && s'.link == s.link
    requires VisitsAfter(topo, s, s', id)
    ensures Visits(topo, s')
  {
    hide EventOk;
  }

  lemma {:induction false} LogAppend(topo: Topo, log: seq<Event>, e: Event)
    requires topo.Valid() && Sequence(topo, log)
    requires forall x :: x in log && x.id == e.id ==> InOrder(topo, x, e)
    ensures Sequence(topo, log + [e]) && forall x :: x in log + [e] <==> x in log || x == e
  {
    hide InOrder;
  }

  // ----- the child answers -----

  /** What handling a request does to the net when the matrix answers it. */
  ghost predicate Answered(s: Net, s': Net, fd: int, r: Response) {
    && fd in s.link && fd in s.downs && fd in s.ups && s.downs[fd] != [] && s.downs[fd][0].id in s.track
    && var q := s.downs[fd][0];
    && s'.nodes == s.nodes && s'.link == s.link && s'.open == s.open && s'.sock == s.sock
    && s'.downs == s.downs[fd := s.downs[fd][1..]]
    && s'.ups == (if fd in s.open then s.ups[fd := s.ups[fd] + [Resp(r)]] else s.ups)
    && s'.track == s.track[q.id := s.track[q.id].(at := InUp(fd))]
    && s'.log == s.log + [Delivered(q.id, s.link[fd])]
    && r.id == q.id && r.to == q.from
  }

  lemma {:induction false} AnswerKeepsMessages(topo: Topo, s: Net, s': Net, fd: int, r: Response)
    requires Shape(topo, s) && Shape(topo, s') && Requests(topo, s) && Responses(topo, s) && OnlyOnce(s)
    requires Answered(s, s', fd, r)
    ensures Requests(topo, s') && Responses(topo, s') && OnlyOnce(s')
  {
    var q := s.downs[fd][0];
    assert q in s.downs[fd];
    assert RequestOk(topo, s.track, fd, s.link[fd], q);
    DifferentPlaces(topo, s, fd, q);
    HeadIsAlone(s.downs[fd]);
    AppendUp(s.ups[fd], Resp(r));
    assert ResponseOk(topo, s'.track, fd, s'.link[fd], r);
    hide RequestOk, ResponseOk, DistinctUp, DistinctDown;
    assert DownsAfter(topo, s, s', q.id);
    assert UpsAfter(topo, s, s', q.id);
    MovedKeepsMessages(topo, s, s', q.id);
  }

  lemma {:induction false} AnswerKeepsContexts(topo: Topo, s: Net, s': Net, fd: int, r: Response)
    requires Shape(topo, s) && Requests(topo, s) && Contexts(topo, s) && NobodyAborted(s)
    requires Answered(s, s', fd, r)
    ensures Contexts(topo, s') && NobodyAborted(s')
  {
    var q := s.downs[fd][0];
    assert q in s.downs[fd];
    assert RequestOk(topo, s.track, fd, s.link[fd], q);
    hide Shape, Requests, RequestOk;
    assert ContextsAfter(topo, s, s', q.id);
    MovedKeepsContexts(topo, s, s', q.id);
  }

  lemma {:induction false} AnswerKeepsLog(topo: Topo, s: Net, s': Net, fd: int, r: Response)
    requires Shape(topo, s) && Requests(topo, s) && LogOk(topo, s)
    requires Answered(s, s', fd, r)
    ensures LogOk(topo, s')
  {
    var q := s.downs[fd][0];
    assert q in s.downs[fd];
    assert RequestOk(topo, s.track, fd, s.link[fd], q);
    EarlierVisitsAreAbove(topo, s, fd, q);
    hide Shape, Requests, RequestOk, OnThePath, InOrder, Sequence;
    LogAppend(topo, s.log, Delivered(q.id, s.link[fd]));
    assert VisitsAfter(topo, s, s', q.id);
    MovedKeepsVisits(topo, s, s', q.id);
  }

  /** The matrices a request has reached so far are all above the one it is about to reach. */
  lemma {:induction false} EarlierVisitsAreAbove(topo: Topo, s: Net, fd: int, q: Request)
    requires Shape(topo, s) && LogOk(topo, s) && fd in s.link && q in s.downs[fd]
    requires RequestOk(topo, s.track, fd, s.link[fd], q)
    ensures forall e :: e in s.log && e.id == q.id ==>
      InOrder(topo, e, Delivered(q.id, s.link[fd])) && e.at in topo.Path(q.from, topo.parent[s.link[fd]]) && e.at != q.from
  {
    var c := s.link[fd];
    forall e | e in s.log && e.id == q.id
      ensures InOrder(topo, e, Delivered(q.id, c)) && e.at in topo.Path(q.from, topo.parent[c]) && e.at != q.from
    {
      assert EventOk(topo, s.link, s.track[e.id], e);
      topo.PathExtends(e.at, topo.parent[c], c);
    }
  }

  // ----- the child passes the request on -----

  ghost predicate Forwarded(topo: Topo, s: Net, s': Net, fd: int, fd': int)
    requires topo.Valid()
  {
    && fd in s.link && fd in s.downs && s.downs[fd] != [] && s.downs[fd][0].id in s.track && s.link[fd] in s.nodes
    && fd' in s.link && fd' in s.downs && fd' != fd
    && var q, c, c' := s.downs[fd][0], s.link[fd], s.link[fd'];
    && topo.IsChild(c', c) && topo.Desc(c', q.to)
    && s'.nodes == s.nodes[c := s.nodes[c].(contexts := s.nodes[c].contexts[q.id := Context(false)])]
    && s'.link == s.link && s'.open == s.open && s'.sock == s.sock && s'.ups == s.ups
    && var popped := s.downs[fd := s.downs[fd][1..]];
    && s'.downs == (if fd' in s.open then popped[fd' := s.downs[fd'] + [q]] else popped)
    && s'.track == s.track[q.id := s.track[q.id].(at := InDown(fd'))]
    && s'.log == s.log + [Delivered(q.id, c)]
  }

  lemma {:induction false} ForwardIsOk(topo: Topo, s: Net, s': Net, fd: int, fd': int)
    requires Shape(topo, s) && Requests(topo, s) && Forwarded(topo, s, s', fd, fd')
    ensures var q, c := s.downs[fd][0], s.link[fd];
      && RequestOk(topo, s.track, fd, c, q)
      && RequestOk(topo, s'.track, fd', s.link[fd'], q)
      && topo.Path(q.from, c) == topo.Path(q.from, topo.parent[c]) + {c} && c != q.from
  {
    var q, c := s.downs[fd][0], s.link[fd];
    assert q in s.downs[fd];
    assert RequestOk(topo, s.track, fd, c, q);
    topo.PathExtends(q.from, topo.parent[c], c);
  }

  lemma {:induction false} ForwardKeepsMessages(topo: Topo, s: Net, s': Net, fd: int, fd': int)
    requires Shape(topo, s) && Shape(topo, s') && Requests(topo, s) && Responses(topo, s) && OnlyOnce(s)
    requires Forwarded(topo, s, s', fd, fd')
    ensures Requests(topo, s') && Responses(topo, s') && OnlyOnce(s')
  {
    var q := s.downs[fd][0];
    assert q in s.downs[fd];
    ForwardIsOk(topo, s, s', fd, fd');
    DifferentPlaces(topo, s, fd, q);
    HeadIsAlone(s.downs[fd]);
    ForwardKeepsOnlyOnce(topo, s, s', fd, fd');
    hide RequestOk, ResponseOk, OnlyOnce, Requests, Responses;
    assert DownsAfter(topo, s, s', q.id);
    assert UpsAfter(topo, s, s', q.id);
    MovedKeepsMessages(topo, s, s', q.id);
  }

  lemma {:induction false} ForwardKeepsOnlyOnce(topo: Topo, s: Net, s': Net, fd: int, fd': int)
    requires topo.Valid() && OnlyOnce(s) && Forwarded(topo, s, s', fd, fd')
    requires forall x :: x in s.downs[fd'] ==> x.id != s.downs[fd][0].id
    ensures OnlyOnce(s')
  {
    HeadIsAlone(s.downs[fd]);
    AppendDown(s.downs[fd'], s.downs[fd][0]);
    hide DistinctUp, DistinctDown;
  }

  lemma HolderIsOnThePath(topo: Topo, s: Net, m: Id, id: int)
    requires topo.Valid() && Contexts(topo, s) && m in s.nodes && id in s.nodes[m].contexts
    ensures id in s.track && OnThePath(topo, s.link, s.track[id], m)
  {}

  lemma {:induction false} ForwardKeepsContexts(topo: Topo, s: Net, s': Net, fd: int, fd': int)
    requires Shape(topo, s) && Requests(topo, s) && Contexts(topo, s) && NobodyAborted(s)
    requires Forwarded(topo, s, s', fd, fd')
    ensures Contexts(topo, s') && NobodyAborted(s')
  {
    ForwardIsOk(topo, s, s', fd, fd');
    var q, c := s.downs[fd][0], s.link[fd];
    assert s.track[q.id] == Track(q.from, q.to, InDown(fd));
    hide Shape, RequestOk, Requests, Contexts;
    forall m | m in s'.nodes && q.id in s'.nodes[m].contexts ensures OnThePath(topo, s'.link, s'.track[q.id], m) {
      if q.id in s.nodes[m].contexts { HolderIsOnThePath(topo, s, m, q.id); }
    }
    hide OnThePath;
    assert ContextsAfter(topo, s, s', q.id);
    MovedKeepsContexts(topo, s, s', q.id);
  }

  lemma {:induction false} ForwardKeepsLog(topo: Topo, s: Net, s': Net, fd: int, fd': int)
    requires Shape(topo, s) && Requests(topo, s) && LogOk(topo, s) && Forwarded(topo, s, s', fd, fd')
    ensures LogOk(topo, s')
  {
    ForwardIsOk(topo, s, s', fd, fd');
    var q, c := s.downs[fd][0], s.link[fd];
    assert q in s.downs[fd];
    EarlierVisitsAreAbove(topo, s, fd, q);
    assert s'.track[q.id] == Track(q.from, q.to, InDown(fd')) && OnThePath(topo, s.link, s'.track[q.id], c);
    forall e | e in s.log && e.id == q.id ensures EventOk(topo, s.link, s'.track[q.id], e) {
      assert InOrder(topo, e, Delivered(q.id, c));
    }
    hide Shape, Requests, RequestOk, OnThePath, InOrder, Sequence;
    LogAppend(topo, s.log, Delivered(q.id, c));
    assert VisitsAfter(topo, s, s', q.id);
    MovedKeepsVisits(topo, s, s', q.id);
  }

  /** A matrix either answers a request or passes it to the child that leads to its target; the
      assertion that guards against a second context for one id never fails. */
  lemma {:induction false} RequestOutcome(topo: Topo, s: Net, fd: int, granted: bool, found: bool, outport: int)
    requires Orderly(topo, s) && CanRecvDown(s, fd)
    ensures var q, c := s.downs[fd][0], s.link[fd];
      var (st, out) := OnClientRxRequest(s.nodes[c], q, granted, found, outport);
      || (out.Up? && st == s.nodes[c] && out.response.id == q.id && out.response.to == q.from)
      || (&& out.Down? && out.request == q && out.fd in s.link
          && topo.IsChild(s.link[out.fd], c) && topo.Desc(s.link[out.fd], q.to)
          && st == s.nodes[c].(contexts := s.nodes[c].contexts[q.id := Context(false)]))
  {
    var q, c := s.downs[fd][0], s.link[fd];
    assert q in s.downs[fd];
    assert RequestOk(topo, s.track, fd, c, q);
    assert TableOk(topo, s.link, c, s.nodes[c].table);
    if MatchMatrix(s.nodes[c].table, q.to).Some? {
      MatchLeadsDown(topo, s.link, c, s.nodes[c].table, q.to);
    }
    if q.id in s.nodes[c].contexts {
      assert OnThePath(topo, s.link, s.track[q.id], c);
      topo.PathExtends(q.from, topo.parent[c], c);
    }
    hide MatchMatrix;
  }

  /** The net after the child has answered, or passed the request on, by parts. */
  lemma {:induction false} AnswerEffect(topo: Topo, s: Net, fd: int, granted: bool, found: bool, outport: int)
    requires Shape(topo, s) && CanRecvDown(s, fd) && s.downs[fd][0].id in s.track
    requires var (st, out) := OnClientRxRequest(s.nodes[s.link[fd]], s.downs[fd][0], granted, found, outport);
      out.Up? && st == s.nodes[s.link[fd]] && out.response.id == s.downs[fd][0].id && out.response.to == s.downs[fd][0].from
    ensures Answered(s, DoRequest(s, fd, granted, found, outport), fd,
                     OnClientRxRequest(s.nodes[s.link[fd]], s.downs[fd][0], granted, found, outport).1.response)
  {
    assert fd in s.link && fd in s.ups && s.sock[s.link[fd]] == fd;
    hide Shape, OnClientRxRequest;
    assert s.nodes[s.link[fd] := s.nodes[s.link[fd]]] == s.nodes;
  }

  lemma {:induction false} ForwardEffect(topo: Topo, s: Net, fd: int, granted: bool, found: bool, outport: int)
    requires Shape(topo, s) && CanRecvDown(s, fd) && s.downs[fd][0].id in s.track
    requires var q, c := s.downs[fd][0], s.link[fd];
      var (st, out) := OnClientRxRequest(s.nodes[c], q, granted, found, outport);
      && out.Down? && out.request == q && out.fd in s.link
      && topo.IsChild(s.link[out.fd], c) && topo.Desc(s.link[out.fd], q.to)
      && st == s.nodes[c].(contexts := s.nodes[c].contexts[q.id := Context(false)])
    ensures Forwarded(topo, s, DoRequest(s, fd, granted, found, outport), fd,
                      OnClientRxRequest(s.nodes[s.link[fd]], s.downs[fd][0], granted, found, outport).1.fd)
  {
    var c := s.link[fd];
    var out := OnClientRxRequest(s.nodes[c], s.downs[fd][0], granted, found, outport).1;
    topo.ParentIsAbove(s.link[out.fd]);
    assert topo.Valid() && out.fd in s.downs && out.fd != fd;
    hide Shape, OnClientRxRequest;
  }

  lemma {:induction false} RequestIsAnsweredOrForwarded(topo: Topo, s: Net, fd: int, granted: bool, found: bool, outport: int)
    requires Orderly(topo, s) && CanRecvDown(s, fd)
    ensures var q, c := s.downs[fd][0], s.link[fd];
      var out := OnClientRxRequest(s.nodes[c], q, granted, found, outport).1;
      var s' := DoRequest(s, fd, granted, found, outport);
      (out.Up? && Answered(s, s', fd, out.response)) || (out.Down? && Forwarded(topo, s, s', fd, out.fd))
  {
    RequestOutcome(topo, s, fd, granted, found, outport);
    var q, c := s.downs[fd][0], s.link[fd];
    assert q in s.downs[fd];
    assert RequestOk(topo, s.track, fd, c, q);
    hide Orderly, OnClientRxRequest, RequestOk, Answered, Forwarded, DoRequest, CanRecvDown;
    if OnClientRxRequest(s.nodes[c], q, granted, found, outport).1.Up? {
      AnswerEffect(topo, s, fd, granted, found, outport);
    } else {
      ForwardEffect(topo, s, fd, granted, found, outport);
    }
  }

  lemma {:induction false} RequestKeepsOrderly(topo: Topo, s: Net, fd: int, granted: bool, found: bool, outport: int)
    requires Orderly(topo, s) && CanRecvDown(s, fd)
    ensures Orderly(topo, DoRequest(s, fd, granted, found, outport))
  {
    RequestKeepsSound(topo, s, fd, granted, found, outport);
    RequestIsAnsweredOrForwarded(topo, s, fd, granted, found, outport);
    var s' := DoRequest(s, fd, granted, found, outport);
    var out := OnClientRxRequest(s.nodes[s.link[fd]], s.downs[fd][0], granted, found, outport).1;
    hide DoRequest, OnClientRxRequest, Requests, Responses, OnlyOnce, Contexts, NobodyAborted, LogOk, Answered, Forwarded, Tables, Registers;
    if out.Up? {
      AnswerKeepsMessages(topo, s, s', fd, out.response);
      AnswerKeepsContexts(topo, s, s', fd, out.response);
      AnswerKeepsLog(topo, s, s', fd, out.response);
    } else {
      ForwardKeepsMessages(topo, s, s', fd, out.fd);
      ForwardKeepsContexts(topo, s, s', fd, out.fd);
      ForwardKeepsLog(topo, s, s', fd, out.fd);
    }
  }

  // ----- the parent handles a response -----

  /** The response goes no further: its context is gone. */
  ghost predicate Discarded(s: Net, s': Net, fd: int) {
    && fd in s.ups && s.ups[fd] != []
    && s' == s.(ups := s.ups[fd := s.ups[fd][1..]])
  }

  /** The response has reached the matrix that asked. */
  ghost predicate CameHome(s: Net, s': Net, fd: int, p: Id) {
    && fd in s.ups && s.ups[fd] != [] && s.ups[fd][0].Resp? && s.ups[fd][0].resp.id in s.track && p in s.nodes
    && var r := s.ups[fd][0].resp;
    && r.to == p && r.id in s.nodes[p].contexts
    && s' == s.(nodes := s.nodes[p := s.nodes[p].(contexts := s.nodes[p].contexts - {r.id})],
                ups := s.ups[fd := s.ups[fd][1..]],
                track := s.track[r.id := s.track[r.id].(at := Home)],
                log := s.log + [Completed(r.id, p)])
  }

  /** The response goes on to the next matrix up, or is lost if that connection is. */
  ghost predicate PassedUp(s: Net, s': Net, fd: int, p: Id) {
    && fd in s.ups && s.ups[fd] != [] && s.ups[fd][0].Resp? && s.ups[fd][0].resp.id in s.track && p in s.nodes
    && (p in s.sock ==> s.sock[p] in s.ups && s.sock[p] != fd)
    && var r := s.ups[fd][0].resp;
    && r.to != p && r.id in s.nodes[p].contexts
    && var popped := s.ups[fd := s.ups[fd][1..]];
    && s' == s.(nodes := s.nodes[p := s.nodes[p].(contexts := s.nodes[p].contexts - {r.id})],
                ups := (if p in s.sock && s.sock[p] in s.open then popped[s.sock[p] := s.ups[s.sock[p]] + [Resp(r)]] else popped),
                track := (if p in s.sock then s.track[r.id := s.track[r.id].(at := InUp(s.sock[p]))] else s.track))
  }

  lemma {:induction false} ResponseIsHandled(topo: Topo, s: Net, fd: int)
    requires Orderly(topo, s) && CanRecvUp(topo, s, fd) && s.ups[fd][0].Resp?
    ensures var s', p := DoResponse(topo, s, fd), topo.parent[s.link[fd]];
      var r := s.ups[fd][0].resp;
      if r.id !in s.nodes[p].contexts then Discarded(s, s', fd)
      else if r.to == p then CameHome(s, s', fd, p)
      else PassedUp(s, s', fd, p)
  {
    var r := s.ups[fd][0].resp;
    assert s.ups[fd][0] in s.ups[fd];
    assert ResponseOk(topo, s.track, fd, s.link[fd], r);
    hide Orderly, DoResponse, ResponseOk, Discarded, CameHome, PassedUp;
    ResponseEffect(topo, s, fd);
  }

  lemma {:induction false} ResponseEffect(topo: Topo, s: Net, fd: int)
    requires Shape(topo, s) && CanRecvUp(topo, s, fd) && s.ups[fd][0].Resp? && s.ups[fd][0].resp.id in s.track
    ensures var s', p := DoResponse(topo, s, fd), topo.parent[s.link[fd]];
      var r := s.ups[fd][0].resp;
      if r.id !in s.nodes[p].contexts then Discarded(s, s', fd)
      else if r.to == p then CameHome(s, s', fd, p)
      else PassedUp(s, s', fd, p)
  {
    var p := topo.parent[s.link[fd]];
    topo.ParentIsAbove(s.link[fd]);
    assert s.nodes[p].id == p && (p in s.sock ==> s.sock[p] in s.ups && s.sock[p] != fd);
    hide Shape;
    assert s.nodes[p := s.nodes[p]] == s.nodes;
  }

  /** Responses on different connections have different ids, and so have a response and a
      request. */
  lemma DifferentPlacesUp(topo: Topo, s: Net, fd: int, r: Response)
    requires Shape(topo, s) && Requests(topo, s) && Responses(topo, s) && fd in s.link && Resp(r) in s.ups[fd]
    ensures forall f, x :: f in s.link && x in s.downs[f] ==> x.id != r.id
    ensures forall f, msg :: f in s.link && f != fd && msg in s.ups[f] && msg.Resp? ==> msg.resp.id != r.id
  {}

  lemma {:induction false} HomeKeepsMessages(topo: Topo, s: Net, s': Net, fd: int, p: Id)
    requires Shape(topo, s) && Shape(topo, s') && Requests(topo, s) && Responses(topo, s) && OnlyOnce(s)
    requires fd in s.link && CameHome(s, s', fd, p)
    ensures Requests(topo, s') && Responses(topo, s') && OnlyOnce(s')
  {
    var r := s.ups[fd][0].resp;
    assert Resp(r) in s.ups[fd];
    DifferentPlacesUp(topo, s, fd, r);
    HeadResponseIsAlone(s.ups[fd]);
    hide RequestOk, ResponseOk, DistinctUp, DistinctDown;
    assert DownsAfter(topo, s, s', r.id);
    assert UpsAfter(topo, s, s', r.id);
    MovedKeepsMessages(topo, s, s', r.id);
  }

  lemma {:induction false} HomeKeepsContexts(topo: Topo, s: Net, s': Net, fd: int, p: Id)
    requires Shape(topo, s) && Responses(topo, s) && Contexts(topo, s) && NobodyAborted(s)
    requires fd in s.link && topo.parent[s.link[fd]] == p && CameHome(s, s', fd, p)
    ensures Contexts(topo, s') && NobodyAborted(s')
  {
    var r := s.ups[fd][0].resp;
    assert s.ups[fd][0] in s.ups[fd];
    assert ResponseOk(topo, s.track, fd, s.link[fd], r);
    topo.PathToSelf(p);
    hide Shape, Responses, Contexts;
    forall m | m in s.nodes && r.id in s.nodes[m].contexts ensures m == p {
      HolderIsOnThePath(topo, s, m, r.id);
    }
    hide OnThePath, ResponseOk;
    assert ContextsAfter(topo, s, s', r.id);
    MovedKeepsContexts(topo, s, s', r.id);
  }

  lemma {:induction false} HomeKeepsLog(topo: Topo, s: Net, s': Net, fd: int, p: Id)
    requires Shape(topo, s) && Responses(topo, s) && LogOk(topo, s)
    requires fd in s.link && topo.parent[s.link[fd]] == p && CameHome(s, s', fd, p)
    ensures LogOk(topo, s')
  {
    var r := s.ups[fd][0].resp;
    assert s.ups[fd][0] in s.ups[fd];
    assert ResponseOk(topo, s.track, fd, s.link[fd], r);
    hide Shape, Responses, OnThePath, Sequence;
    forall e | e in s.log && e.id == r.id ensures e.Delivered? {
      assert EventOk(topo, s.link, s.track[e.id], e);
    }
    LogAppend(topo, s.log, Completed(r.id, p));
    assert VisitsAfter(topo, s, s', r.id);
    MovedKeepsVisits(topo, s, s', r.id);
  }

  lemma {:induction false} PassUpIsOk(topo: Topo, s: Net, s': Net, fd: int, p: Id)
    requires Shape(topo, s) && Responses(topo, s) && fd in s.link && topo.parent[s.link[fd]] == p && PassedUp(s, s', fd, p)
    ensures var r := s.ups[fd][0].resp;
      && ResponseOk(topo, s.track, fd, s.link[fd], r)
      && p in topo.parent
      && topo.Path(r.to, p) == topo.Path(r.to, topo.parent[p]) + {p} && p !in topo.Path(r.to, topo.parent[p])
      && (p in s.sock ==> ResponseOk(topo, s'.track, s.sock[p], p, r))
  {
    var r := s.ups[fd][0].resp;
    assert s.ups[fd][0] in s.ups[fd];
    assert ResponseOk(topo, s.track, fd, s.link[fd], r);
    assert p in topo.parent;
    topo.PathExtends(r.to, topo.parent[p], p);
  }

  lemma {:induction false} PassUpKeepsMessages(topo: Topo, s: Net, s': Net, fd: int, p: Id)
    requires Shape(topo, s) && Shape(topo, s') && Requests(topo, s) && Responses(topo, s) && OnlyOnce(s)
    requires fd in s.link && topo.parent[s.link[fd]] == p && PassedUp(s, s', fd, p)
    ensures Requests(topo, s') && Responses(topo, s') && OnlyOnce(s')
  {
    var r := s.ups[fd][0].resp;
    assert Resp(r) in s.ups[fd];
    PassUpIsOk(topo, s, s', fd, p);
    DifferentPlacesUp(topo, s, fd, r);
    HeadResponseIsAlone(s.ups[fd]);
    PassUpKeepsOnlyOnce(s, s', fd, p);
    hide RequestOk, ResponseOk, OnlyOnce, Requests, Responses;
    assert DownsAfter(topo, s, s', r.id);
    assert UpsAfter(topo, s, s', r.id);
    MovedKeepsMessages(topo, s, s', r.id);
  }

  lemma {:induction false} PassUpKeepsOnlyOnce(s: Net, s': Net, fd: int, p: Id)
    requires OnlyOnce(s) && PassedUp(s, s', fd, p)
    requires p in s.sock ==> forall x :: x in s.ups[s.sock[p]] && x.Resp? ==> x.resp.id != s.ups[fd][0].resp.id
    ensures OnlyOnce(s')
  {
    HeadResponseIsAlone(s.ups[fd]);
    if p in s.sock { AppendUp(s.ups[s.sock[p]], s.ups[fd][0]); }
    hide DistinctUp, DistinctDown;
  }

  lemma {:induction false} PassUpKeepsContexts(topo: Topo, s: Net, s': Net, fd: int, p: Id)
    requires Shape(topo, s) && Responses(topo, s) && Contexts(topo, s) && NobodyAborted(s)
    requires fd in s.link && topo.parent[s.link[fd]] == p && PassedUp(s, s', fd, p)
    ensures Contexts(topo, s') && NobodyAborted(s')
  {
    PassUpIsOk(topo, s, s', fd, p);
    var r := s.ups[fd][0].resp;
    assert p in s.sock ==> s.sock[p] in s.link && s.link[s.sock[p]] == p;
    hide Shape, Responses, Contexts;
    forall m | m in s'.nodes && r.id in s'.nodes[m].contexts ensures OnThePath(topo, s'.link, s'.track[r.id], m) {
      assert m != p;
      HolderIsOnThePath(topo, s, m, r.id);
    }
    hide OnThePath, ResponseOk;
    assert ContextsAfter(topo, s, s', r.id);
    MovedKeepsContexts(topo, s, s', r.id);
  }

  lemma {:induction false} PassUpKeepsLog(topo: Topo, s: Net, s': Net, fd: int, p: Id)
    requires Shape(topo, s) && Responses(topo, s) && LogOk(topo, s)
    requires fd in s.link && topo.parent[s.link[fd]] == p && PassedUp(s, s', fd, p)
    ensures LogOk(topo, s')
  {
    PassUpIsOk(topo, s, s', fd, p);
    var r := s.ups[fd][0].resp;
    hide Shape, Responses, OnThePath, Sequence;
    assert VisitsAfter(topo, s, s', r.id);
    MovedKeepsVisits(topo, s, s', r.id);
  }

  lemma {:induction false} ResponseKeepsOrderly(topo: Topo, s: Net, fd: int)
    requires Orderly(topo, s) && CanRecvUp(topo, s, fd) && s.ups[fd][0].Resp?
    ensures Orderly(topo, DoResponse(topo, s, fd))
  {
    ResponseKeepsSound(topo, s, fd);
    ResponseIsHandled(topo, s, fd);
    var s', p := DoResponse(topo, s, fd), topo.parent[s.link[fd]];
    var r := s.ups[fd][0].resp;
    assert fd in s.link;
    if r.id !in s.nodes[p].contexts {
      HeadResponseIsAlone(s.ups[fd]);
      QuietKeepsOrderly(topo, s, s');
    } else {
      hide DoResponse, Requests, Responses, OnlyOnce, Contexts, NobodyAborted, LogOk, CameHome, PassedUp, Tables, Registers;
      if r.to == p {
        HomeKeepsMessages(topo, s, s', fd, p);
        HomeKeepsContexts(topo, s, s', fd, p);
        HomeKeepsLog(topo, s, s', fd, p);
      } else {
        PassUpKeepsMessages(topo, s, s', fd, p);
        PassUpKeepsContexts(topo, s, s', fd, p);
        PassUpKeepsLog(topo, s, s', fd, p);
      }
    }
  }

  // ----- steps without switch traffic -----

  /** Nothing is added to the traffic, and notes, log and contexts stay. */
  ghost predicate Quiet(s: Net, s': Net) {
    && s'.track == s.track && s'.log == s.log && s'.nodes.Keys == s.nodes.Keys
    && (forall m :: m in s.nodes ==> s'.nodes[m].contexts == s.nodes[m].contexts && s'.nodes[m].aborted == s.nodes[m].aborted)
    && (forall f :: f in s.link ==> f in s'.link && s'.link[f] == s.link[f])
    && NoNewDowns(s, s') && NoNewUps(s, s')
  }

  ghost predicate NoNewDowns(s: Net, s': Net) {
    forall f :: f in s'.downs ==> DistinctDown(s'.downs[f]) && forall x :: x in s'.downs[f] ==> f in s.downs && x in s.downs[f]
  }

  ghost predicate NoNewUps(s: Net, s': Net) {
    forall f :: f in s'.ups ==> DistinctUp(s'.ups[f]) && forall x :: x in s'.ups[f] && x.Resp? ==> f in s.ups && x in s.ups[f]
  }

  lemma {:induction false} QuietKeepsOrderly(topo: Topo, s: Net, s': Net)
    requires Orderly(topo, s) && Sound(topo, s') && Quiet(s, s')
    ensures Orderly(topo, s')
  {
    QuietKeepsMessages(topo, s, s');
    QuietKeepsRest(topo, s, s');
  }

  lemma {:induction false} QuietKeepsMessages(topo: Topo, s: Net, s': Net)
    requires Shape(topo, s) && Shape(topo, s') && Requests(topo, s) && Responses(topo, s) && Quiet(s, s')
    ensures Requests(topo, s') && Responses(topo, s') && OnlyOnce(s')
  {
    hide RequestOk, ResponseOk, DistinctUp, DistinctDown;
    forall f, x | f in s'.link && x in s'.downs[f] ensures RequestOk(topo, s'.track, f, s'.link[f], x) {
      assert f in s.downs && x in s.downs[f];
    }
    forall f, msg | f in s'.link && msg in s'.ups[f] && msg.Resp? ensures ResponseOk(topo, s'.track, f, s'.link[f], msg.resp) {
      assert f in s.ups && msg in s.ups[f];
    }
  }

  lemma {:induction false} QuietKeepsRest(topo: Topo, s: Net, s': Net)
    requires topo.Valid() && Contexts(topo, s) && NobodyAborted(s) && LogOk(topo, s) && Quiet(s, s')
    ensures Contexts(topo, s') && NobodyAborted(s') && LogOk(topo, s')
  {
    hide NoNewUps, NoNewDowns, Sequence;
    forall m, id | m in s'.nodes && id in s'.nodes[m].contexts ensures id in s'.track && OnThePath(topo, s'.link, s'.track[id], m) {
      HolderIsOnThePath(topo, s, m, id);
    }
  }

  lemma {:induction false} ConnectKeepsOrderly(topo: Topo, s: Net, c: Id, fd: int)
    requires Orderly(topo, s) && CanConnect(topo, s, c, fd)
    ensures Orderly(topo, DoConnect(s, c, fd))
  {
    ConnectKeepsSound(topo, s, c, fd);
    ConnectIsQuiet(topo, s, c, fd);
    hide DoConnect, Quiet;
    QuietKeepsOrderly(topo, s, DoConnect(s, c, fd));
  }

  lemma {:induction false} ConnectIsQuiet(topo: Topo, s: Net, c: Id, fd: int)
    requires Shape(topo, s) && OnlyOnce(s) && CanConnect(topo, s, c, fd)
    ensures Quiet(s, DoConnect(s, c, fd))
  {
    hide Shape, DoConnect, BuildRegister, NoNewDowns, NoNewUps;
    ConnectEffect(s, c, fd);
    NewQueuesAreQuiet(s, DoConnect(s, c, fd), fd, BuildRegister(s.nodes[c]));
  }

  lemma {:induction false} NewQueuesAreQuiet(s: Net, s': Net, fd: int, reg: Register)
    requires OnlyOnce(s) && s'.downs == s.downs[fd := []] && s'.ups == s.ups[fd := [Reg(reg)]]
    ensures NoNewDowns(s, s') && NoNewUps(s, s')
  {
    assert DistinctDown(s'.downs[fd]) && DistinctUp(s'.ups[fd]);
    hide DistinctDown, DistinctUp;
  }

  lemma {:induction false} ClientGoneIsQuiet(s: Net, c: Id)
    requires OnlyOnce(s) && CanClientGone(s, c)
    ensures Quiet(s, DoClientGone(s, c))
  {}

  lemma {:induction false} ClientGoneKeepsOrderly(topo: Topo, s: Net, c: Id)
    requires Orderly(topo, s) && CanClientGone(s, c)
    ensures Orderly(topo, DoClientGone(s, c))
  {
    hide Sound, Requests, Responses, Contexts, NobodyAborted, LogOk, OnlyOnce, Quiet, DoClientGone;
    ClientGoneKeepsSound(topo, s, c);
    ClientGoneIsQuiet(s, c);
    QuietKeepsOrderly(topo, s, DoClientGone(s, c));
  }

  lemma {:induction false} ServerGoneIsQuiet(topo: Topo, s: Net, fd: int)
    requires OnlyOnce(s) && CanServerGone(topo, s, fd)
    ensures Quiet(s, DoServerGone(topo, s, fd))
  {}

  lemma {:induction false} ServerGoneKeepsOrderly(topo: Topo, s: Net, fd: int)
    requires Orderly(topo, s) && CanServerGone(topo, s, fd)
    ensures Orderly(topo, DoServerGone(topo, s, fd))
  {
    hide Sound, Requests, Responses, Contexts, NobodyAborted, LogOk, OnlyOnce, Quiet, DoServerGone;
    ServerGoneKeepsSound(topo, s, fd);
    ServerGoneIsQuiet(topo, s, fd);
    QuietKeepsOrderly(topo, s, DoServerGone(topo, s, fd));
  }

  lemma {:induction false} RegisterKeepsOrderly(topo: Topo, s: Net, fd: int)
    requires Orderly(topo, s) && CanRecvUp(topo, s, fd) && s.ups[fd][0].Reg?
    ensures Orderly(topo, DoRegister(topo, s, fd))
  {
    RegisterKeepsSound(topo, s, fd);
    RegisterIsQuiet(topo, s, fd);
    hide DoRegister, Quiet;
    QuietKeepsOrderly(topo, s, DoRegister(topo, s, fd));
  }

  lemma {:induction false} RegisterIsQuiet(topo: Topo, s: Net, fd: int)
    requires Shape(topo, s) && OnlyOnce(s) && CanRecvUp(topo, s, fd) && s.ups[fd][0].Reg?
    ensures Quiet(s, DoRegister(topo, s, fd))
  {
    hide DoRegister, Registered, BuildRegister, NoNewUps;
    RegisterEffect(topo, s, fd);
    hide Shape;
    var s', p := DoRegister(topo, s, fd), topo.parent[s.link[fd]];
    var to := if PassesOn(s, p) then s.sock[p] else fd;
    RegistrationsAreQuiet(s, s', fd, to, BuildRegister(s'.nodes[p]));
    hide DistinctDown;
  }

  /** A registration taken off one connection, and perhaps another put on a second. */
  lemma {:induction false} RegistrationsAreQuiet(s: Net, s': Net, fd: int, to: int, reg: Register)
    requires OnlyOnce(s) && fd in s.ups && s.ups[fd] != [] && to in s.ups
    requires var popped := s.ups[fd := s.ups[fd][1..]];
      s'.ups == if to != fd then popped[to := s.ups[to] + [Reg(reg)]] else popped
    ensures NoNewUps(s, s')
  {
    HeadResponseIsAlone(s.ups[fd]);
    AppendUp(s.ups[to], Reg(reg));
    hide DistinctUp, DistinctDown;
  }

  // ----- a keyboard asks -----

  ghost predicate Asked(topo: Topo, s: Net, s': Net, m: Id, q: Request, fd: int)
    requires topo.Valid()
  {
    && m in s.nodes && q.id !in s.track && q.from == m && fd in s.link && fd in s.downs
    && topo.IsChild(s.link[fd], m) && topo.Desc(s.link[fd], q.to)
    && s'.nodes == s.nodes[m := s.nodes[m].(contexts := s.nodes[m].contexts[q.id := Context(true)])]
    && s'.link == s.link && s'.open == s.open && s'.sock == s.sock && s'.ups == s.ups && s'.log == s.log
    && s'.downs == (if fd in s.open then s.downs[fd := s.downs[fd] + [q]] else s.downs)
    && s'.track == s.track[q.id := Track(m, q.to, InDown(fd))]
  }

  /** The net after a keyboard has asked, by parts. */
  lemma {:induction false} AskEffect(topo: Topo, s: Net, m: Id, keyboard: int, camera: GlobalId, id: int)
    requires Shape(topo, s) && CanSwitch(s, m, camera, id)
    requires var matched := MatchMatrix(s.nodes[m].table, camera.mid);
      matched.Some? ==>
        && topo.IsChild(matched.value.id, m) && topo.Desc(matched.value.id, camera.mid)
        && matched.value.fd in s.link && s.link[matched.value.fd] == matched.value.id
    ensures var s' := DoSwitch(s, m, keyboard, camera, id);
      var (st, out) := StartSwitch(s.nodes[m], keyboard, camera, id);
      if out.Down? then Asked(topo, s, s', m, out.request, out.fd) && out.request.id == id else s' == s
  {
    assert topo.Valid() && s.nodes[m].id == m && s.downs.Keys == s.link.Keys;
    hide Shape, MatchMatrix;
    assert s.nodes[m := s.nodes[m]] == s.nodes;
  }

  lemma {:induction false} SwitchAsks(topo: Topo, s: Net, m: Id, keyboard: int, camera: GlobalId, id: int)
    requires Orderly(topo, s) && CanSwitch(s, m, camera, id)
    ensures var s' := DoSwitch(s, m, keyboard, camera, id);
      var (st, out) := StartSwitch(s.nodes[m], keyboard, camera, id);
      if out.Down? then Asked(topo, s, s', m, out.request, out.fd) && out.request.id == id else s' == s
  {
    assert TableOk(topo, s.link, m, s.nodes[m].table);
    if MatchMatrix(s.nodes[m].table, camera.mid).Some? {
      MatchLeadsDown(topo, s.link, m, s.nodes[m].table, camera.mid);
    }
    hide MatchMatrix, Orderly, StartSwitch, DoSwitch, Asked;
    AskEffect(topo, s, m, keyboard, camera, id);
  }

  lemma {:induction false} AskKeepsMessages(topo: Topo, s: Net, s': Net, m: Id, q: Request, fd: int)
    requires Shape(topo, s) && Shape(topo, s') && Requests(topo, s) && Responses(topo, s) && OnlyOnce(s)
    requires Asked(topo, s, s', m, q, fd)
    ensures Requests(topo, s') && Responses(topo, s') && OnlyOnce(s')
  {
    forall f, x | f in s.link && x in s.downs[f] ensures x.id != q.id {
      assert RequestOk(topo, s.track, f, s.link[f], x);
    }
    forall f, msg | f in s.link && msg in s.ups[f] && msg.Resp? ensures msg.resp.id != q.id {
      assert ResponseOk(topo, s.track, f, s.link[f], msg.resp);
    }
    AppendDown(s.downs[fd], q);
    assert RequestOk(topo, s'.track, fd, s'.link[fd], q);
    hide RequestOk, ResponseOk, DistinctUp, DistinctDown;
    assert DownsAfter(topo, s, s', q.id);
    assert UpsAfter(topo, s, s', q.id);
    MovedKeepsMessages(topo, s, s', q.id);
  }

  lemma {:induction false} AskKeepsContexts(topo: Topo, s: Net, s': Net, m: Id, q: Request, fd: int)
    requires Shape(topo, s) && Contexts(topo, s) && NobodyAborted(s) && Asked(topo, s, s', m, q, fd)
    ensures Contexts(topo, s') && NobodyAborted(s')
  {
    topo.PathToSelf(m);
    hide Shape, Contexts;
    forall n | n in s.nodes ensures q.id !in s.nodes[n].contexts {
      if q.id in s.nodes[n].contexts { HolderIsOnThePath(topo, s, n, q.id); }
    }
    assert OnThePath(topo, s'.link, s'.track[q.id], m);
    hide OnThePath;
    assert ContextsAfter(topo, s, s', q.id);
    MovedKeepsContexts(topo, s, s', q.id);
  }

  lemma {:induction false} AskKeepsLog(topo: Topo, s: Net, s': Net, m: Id, q: Request, fd: int)
    requires Shape(topo, s) && LogOk(topo, s) && Asked(topo, s, s', m, q, fd)
    ensures LogOk(topo, s')
  {
    assert topo.Valid();
    hide Shape, EventOk, Sequence;
    assert VisitsAfter(topo, s, s', q.id);
    MovedKeepsVisits(topo, s, s', q.id);
  }

  lemma {:induction false} SwitchKeepsOrderly(topo: Topo, s: Net, m: Id, keyboard: int, camera: GlobalId, id: int)
    requires Orderly(topo, s) && CanSwitch(s, m, camera, id)
    ensures Orderly(topo, DoSwitch(s, m, keyboard, camera, id))
  {
    SwitchKeepsSound(topo, s, m, keyboard, camera, id);
    SwitchAsks(topo, s, m, keyboard, camera, id);
    var s' := DoSwitch(s, m, keyboard, camera, id);
    var out := StartSwitch(s.nodes[m], keyboard, camera, id).1;
    hide DoSwitch, StartSwitch, Asked, Requests, Responses, OnlyOnce, Contexts, NobodyAborted, LogOk, Tables, Registers;
    if out.Down? {
      AskKeepsMessages(topo, s, s', m, out.request, out.fd);
      AskKeepsContexts(topo, s, s', m, out.request, out.fd);
      AskKeepsLog(topo, s, s', m, out.request, out.fd);
    }
  }

  // ----- whole runs -----

  lemma {:induction false} NextKeepsOrderly(topo: Topo, s: Net, step: Step)
    requires Orderly(topo, s)
    ensures Orderly(topo, Next(topo, s, step))
  {
    hide Orderly, DoConnect, DoClientGone, DoServerGone, DoRegister, DoResponse, DoRequest, DoSwitch;
    match step
    case Connect(c, fd) => if CanConnect(topo, s, c, fd) { ConnectKeepsOrderly(topo, s, c, fd); }
    case ClientGone(c) => if CanClientGone(s, c) { ClientGoneKeepsOrderly(topo, s, c); }
    case ServerGone(fd) => if CanServerGone(topo, s, fd) { ServerGoneKeepsOrderly(topo, s, fd); }
    case RecvUp(fd) =>
      if CanRecvUp(topo, s, fd) {
        if s.ups[fd][0].Reg? { RegisterKeepsOrderly(topo, s, fd); } else { ResponseKeepsOrderly(topo, s, fd); }
      }
    case RecvDown(fd, granted, found, outport) =>
      if CanRecvDown(s, fd) { RequestKeepsOrderly(topo, s, fd, granted, found, outport); }
    case Switch(m, keyboard, camera, id) =>
      if CanSwitch(s, m, camera, id) { SwitchKeepsOrderly(topo, s, m, keyboard, camera, id); }
  }

  lemma {:induction false} AlwaysOrderly(topo: Topo, steps: seq<Step>)
    requires topo.Valid()
    ensures Orderly(topo, After(topo, steps))
  {
    hide Next;
    if steps == [] {
      AlwaysSound(topo, steps);
    } else {
      AlwaysOrderly(topo, steps[..|steps| - 1]);
      NextKeepsOrderly(topo, After(topo, steps[..|steps| - 1]), steps[|steps| - 1]);
    }
  }

  /** In every run, disconnects included: the matrices a request reaches lie strictly below one
      another, so it reaches none of them twice. */
  lemma {:induction false} RequestsOnlyGoDown(topo: Topo, steps: seq<Step>, i: nat, j: nat)
    requires topo.Valid() && i < j < |After(topo, steps).log|
    requires var log := After(topo, steps).log; log[i].Delivered? && log[j].Delivered? && log[i].id == log[j].id
    ensures var log := After(topo, steps).log; log[j].at in topo.Below(log[i].at) && log[i].at != log[j].at
  {
    AlwaysOrderly(topo, steps);
    hide After;
  }

  /** In every run, a keyboard is served at most once per request, and only where it asked. */
  lemma {:induction false} ServedAtMostOnce(topo: Topo, steps: seq<Step>, i: nat)
    requires topo.Valid() && i < |After(topo, steps).log| && After(topo, steps).log[i].Completed?
    ensures var s := After(topo, steps);
      && s.log[i].id in s.track && s.log[i].at == s.track[s.log[i].id].origin
      && forall j :: 0 <= j < |s.log| && j != i && s.log[j].id == s.log[i].id ==> j < i && s.log[j].Delivered?
  {
    AlwaysOrderly(topo, steps);
    hide After;
    var s := After(topo, steps);
    assert s.log[i] in s.log;
    assert EventOk(topo, s.link, s.track[s.log[i].id], s.log[i]);
    forall j | 0 <= j < |s.log| && j != i && s.log[j].id == s.log[i].id ensures j < i && s.log[j].Delivered? {
      if j < i { assert InOrder(topo, s.log[j], s.log[i]); }
    }
  }

  /** In every run, no matrix ever fails its assertion that a request id is new to it. */
  lemma {:induction false} NoDuplicateContexts(topo: Topo, steps: seq<Step>, m: Id)
    requires topo.Valid() && m in topo.depth
    ensures m in After(topo, steps).nodes && !After(topo, steps).nodes[m].aborted
  {
    AlwaysOrderly(topo, steps);
    hide After;
  }

  /** Each forward takes a request one level down and leaves it that much closer to its target,
      so it is forwarded no more often than the tree is deep. */
  lemma {:induction false} ForwardsGetCloser(topo: Topo, steps: seq<Step>, fd: int, granted: bool, found: bool, outport: int)
    requires topo.Valid() && CanRecvDown(After(topo, steps), fd)
    requires var s := After(topo, steps);
      OnClientRxRequest(s.nodes[s.link[fd]], s.downs[fd][0], granted, found, outport).1.Down?
    ensures var s := After(topo, steps);
      var c, q := s.link[fd], s.downs[fd][0];
      var fd' := OnClientRxRequest(s.nodes[c], q, granted, found, outport).1.fd;
      && fd' in s.link && topo.IsChild(s.link[fd'], c) && topo.Desc(s.link[fd'], q.to)
      && c in topo.depth && q.to in topo.depth
      && topo.depth[c] + 1 == topo.depth[s.link[fd']] <= topo.depth[q.to]
  {
    AlwaysOrderly(topo, steps);
    hide After;
    var s := After(topo, steps);
    RequestOutcome(topo, s, fd, granted, found, outport);
    var fd' := OnClientRxRequest(s.nodes[s.link[fd]], s.downs[fd][0], granted, found, outport).1.fd;
    topo.DescDepth(s.link[fd'], s.downs[fd][0].to);
  }
}
