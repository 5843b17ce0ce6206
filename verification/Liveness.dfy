/**
  Progress: deliveries use up the traffic under way, in every run; and in runs without
  disconnects whatever is under way can be delivered, so every request is answered and the
  tables are completed, whatever the order of deliveries.
 */
module Liveness {
  import opened GlobalIds
  import opened Matrix
  import opened Hierarchy
  import opened Routing
  import opened Registration
  import opened Switching
  import opened SwitchContexts
  import Topology

  // ----- sums over maps -----

  ghost function Total(m: map<int, nat>): nat
    decreases |m|
  {
    if m.Keys == {} then 0
    else
      var k := Least(m.Keys);
      m[k] + Total(m - {k})
  }

  lemma {:induction false} TotalWithout(m: map<int, nat>, k: int)
    requires k in m
    ensures Total(m) == m[k] + Total(m - {k})
    decreases |m|
  {
    var j := Least(m.Keys);
    if j != k {
      TotalWithout(m - {j}, k);
      TotalWithout(m - {k}, j);
      assert m - {j} - {k} == m - {k} - {j};
    }
  }

  lemma TotalUpdate(m: map<int, nat>, k: int, v: nat)
    requires k in m
    ensures Total(m[k := v]) == Total(m) - m[k] + v
  {
    TotalWithout(m, k);
    TotalWithout(m[k := v], k);
    assert m[k := v] - {k} == m - {k};
  }

  // ----- the traffic under way -----

  ghost function Height(depth: map<Id, nat>): (h: nat)
    ensures forall m :: m in depth ==> depth[m] <= h
    decreases |depth|
  {
    if depth.Keys == {} then 0
    else
      var m := Least(depth.Keys);
      var h := Height(depth - {m});
      assert forall n :: n in depth && n != m ==> n in depth - {m};
      if depth[m] > h then depth[m] else h
  }

  /** Every connection has its queues, and belongs to a matrix of the tree. */
  ghost predicate Wired(depth: map<Id, nat>, s: Net) {
    && s.ups.Keys == s.link.Keys && s.downs.Keys == s.link.Keys
    && (forall fd :: fd in s.link ==> s.link[fd] in depth)
    && (forall c :: c in s.sock ==> s.sock[c] in s.link && s.link[s.sock[c]] == c)
  }

  /** What the messages on a connection at depth `d` still have to travel: one on its way up, the
      levels above it; a request, at most the way to the bottom of the tree and back. */
  ghost function Load(d: nat, h: nat, ups: nat, downs: nat): nat
    requires d <= h
  {
    ups * d + downs * (2 * h + 1 - d)
  }

  lemma LoadSteps(d: nat, h: nat, ups: nat, downs: nat)
    requires d <= h
    ensures Load(d, h, ups + 1, downs) == Load(d, h, ups, downs) + d
    ensures Load(d, h, ups, downs + 1) == Load(d, h, ups, downs) + (2 * h + 1 - d)
  {}

  ghost function Loads(depth: map<Id, nat>, s: Net): (m: map<int, nat>)
    requires Wired(depth, s)
    ensures m.Keys == s.link.Keys
  {
    map fd | fd in s.link :: Load(depth[s.link[fd]], Height(depth), |s.ups[fd]|, |s.downs[fd]|)
  }

  ghost function Traffic(depth: map<Id, nat>, s: Net): nat
    requires Wired(depth, s)
  {
    Total(Loads(depth, s))
  }

  /** Only the queues of one connection change. */
  ghost predicate OneLinkChanges(s: Net, s': Net, fd: int) {
    && s'.link == s.link && s'.sock == s.sock && fd in s.link && fd in s.ups && fd in s.downs
    && s'.ups.Keys == s.ups.Keys && s'.downs.Keys == s.downs.Keys
    && forall f :: f in s.link && f in s.ups && f in s.downs && f != fd ==> s'.ups[f] == s.ups[f] && s'.downs[f] == s.downs[f]
  }

  lemma {:induction false} LoadChanges(depth: map<Id, nat>, s: Net, s': Net, fd: int)
    requires Wired(depth, s) && OneLinkChanges(s, s', fd)
    ensures Wired(depth, s')
    ensures Traffic(depth, s') + Loads(depth, s)[fd] == Traffic(depth, s) + Loads(depth, s')[fd]
  {
    hide Load, Total;
    var m, m' := Loads(depth, s), Loads(depth, s');
    forall f | f in m && f != fd ensures m'[f] == m[f] {
      assert f in s.link && f in s.ups && f in s.downs;
    }
    assert m' == m[fd := m'[fd]];
    TotalUpdate(m, fd, m'[fd]);
  }

  lemma {:induction false} PopUpLoad(depth: map<Id, nat>, s: Net, fd: int)
    requires Wired(depth, s) && fd in s.link && s.ups[fd] != []
    ensures Wired(depth, PopUp(s, fd))
    ensures Traffic(depth, PopUp(s, fd)) == Traffic(depth, s) - depth[s.link[fd]]
  {
    hide Load, Traffic;
    var s' := PopUp(s, fd);
    LoadSteps(depth[s.link[fd]], Height(depth), |s'.ups[fd]|, |s.downs[fd]|);
    LoadChanges(depth, s, s', fd);
  }

  lemma {:induction false} PopDownLoad(depth: map<Id, nat>, s: Net, fd: int)
    requires Wired(depth, s) && fd in s.link && s.downs[fd] != []
    ensures Wired(depth, PopDown(s, fd))
    ensures Traffic(depth, PopDown(s, fd)) == Traffic(depth, s) - (2 * Height(depth) + 1 - depth[s.link[fd]])
  {
    hide Load, Traffic;
    var s' := PopDown(s, fd);
    LoadSteps(depth[s.link[fd]], Height(depth), |s.ups[fd]|, |s'.downs[fd]|);
    LoadChanges(depth, s, s', fd);
  }

  lemma {:induction false} PushUpLoad(depth: map<Id, nat>, s: Net, c: Id, msg: UpMsg)
    requires Wired(depth, s) && c in depth
    ensures Wired(depth, PushUp(s, c, msg)) && Traffic(depth, PushUp(s, c, msg)) <= Traffic(depth, s) + depth[c]
  {
    hide Load, Traffic;
    var s' := PushUp(s, c, msg);
    if s' != s {
      var fd := s.sock[c];
      LoadSteps(depth[c], Height(depth), |s.ups[fd]|, |s.downs[fd]|);
      LoadChanges(depth, s, s', fd);
    }
  }

  lemma {:induction false} PushDownLoad(depth: map<Id, nat>, s: Net, fd: int, q: Request)
    requires Wired(depth, s) && fd in s.link
    ensures Wired(depth, PushDown(s, fd, q))
    ensures Traffic(depth, PushDown(s, fd, q)) <= Traffic(depth, s) + (2 * Height(depth) + 1 - depth[s.link[fd]])
  {
    hide Load, Traffic;
    var s' := PushDown(s, fd, q);
    if s' != s {
      LoadSteps(depth[s.link[fd]], Height(depth), |s.ups[fd]|, |s.downs[fd]|);
      LoadChanges(depth, s, s', fd);
    }
  }

  /** Only the queues count. */
  lemma NotesCarryNoLoad(depth: map<Id, nat>, s: Net, s': Net)
    requires Wired(depth, s)
    requires s'.link == s.link && s'.sock == s.sock && s'.ups == s.ups && s'.downs == s.downs
    ensures Wired(depth, s') && Traffic(depth, s') == Traffic(depth, s)
  {
    hide Load, Total;
    assert Loads(depth, s') == Loads(depth, s);
  }

  // ----- deliveries use it up -----

  lemma {:induction false} RegisterDrains(topo: Topo, s: Net, fd: int)
    requires topo.Valid() && Wired(topo.depth, s) && CanRecvUp(topo, s, fd) && s.ups[fd][0].Reg?
    ensures var s' := DoRegister(topo, s, fd); Wired(topo.depth, s') && Traffic(topo.depth, s') < Traffic(topo.depth, s)
  {
    var p := topo.parent[s.link[fd]];
    topo.ParentIsAbove(s.link[fd]);
    hide Traffic, OnRegister, PushUp;
    var (st, out) := OnRegister(s.nodes[p], fd, s.ups[fd][0].reg);
    var s0 := PopUp(s, fd);
    var s1 := SetNode(s0, p, st);
    PopUpLoad(topo.depth, s, fd);
    NotesCarryNoLoad(topo.depth, s0, s1);
    hide Wired, PopUp;
    if out.Some? {
      PushUpLoad(topo.depth, s1, p, Reg(out.value));
    }
  }

  lemma {:induction false} ResponseDrains(topo: Topo, s: Net, fd: int)
    requires topo.Valid() && Wired(topo.depth, s) && CanRecvUp(topo, s, fd) && s.ups[fd][0].Resp?
    ensures var s' := DoResponse(topo, s, fd); Wired(topo.depth, s') && Traffic(topo.depth, s') < Traffic(topo.depth, s)
  {
    var p := topo.parent[s.link[fd]];
    topo.ParentIsAbove(s.link[fd]);
    hide Traffic, PushUp, ResponseTrack;
    var r := s.ups[fd][0].resp;
    var (st, out) := OnServerRxResponse(s.nodes[p], r);
    var s0 := PopUp(s, fd);
    var s1 := SetNode(s0, p, st);
    PopUpLoad(topo.depth, s, fd);
    NotesCarryNoLoad(topo.depth, s0, s1);
    hide Wired, PopUp;
    if out.Up? { PushUpLoad(topo.depth, s1, p, Resp(r)); }
    NotesCarryNoLoad(topo.depth, Emit(s1, p, out), DoResponse(topo, s, fd));
  }

  lemma {:induction false} RequestDrains(topo: Topo, s: Net, fd: int, granted: bool, found: bool, outport: int)
    requires topo.Valid() && Wired(topo.depth, s) && CanRecvDown(s, fd)
    requires var out := OnClientRxRequest(s.nodes[s.link[fd]], s.downs[fd][0], granted, found, outport).1;
      out.Down? ==> out.fd in s.link && topo.IsChild(s.link[out.fd], s.link[fd])
    ensures var s' := DoRequest(s, fd, granted, found, outport);
      Wired(topo.depth, s') && Traffic(topo.depth, s') < Traffic(topo.depth, s)
  {
    hide Traffic, PushUp, PushDown, OnClientRxRequest, RequestTrack;
    var c, q := s.link[fd], s.downs[fd][0];
    var (st, out) := OnClientRxRequest(s.nodes[c], q, granted, found, outport);
    var s0 := PopDown(s, fd);
    var s1 := SetNode(s0, c, st);
    PopDownLoad(topo.depth, s, fd);
    NotesCarryNoLoad(topo.depth, s0, s1);
    assert s1.link == s.link && c in topo.depth;
    hide Wired, PopDown;
    if out.Up? {
      PushUpLoad(topo.depth, s1, c, Resp(out.response));
    } else if out.Down? {
      PushDownLoad(topo.depth, s1, out.fd, out.request);
    }
    NotesCarryNoLoad(topo.depth, Emit(s1, c, out), DoRequest(s, fd, granted, found, outport));
  }

  /** The step hands over the next message of a connection. */
  ghost predicate Delivers(topo: Topo, s: Net, step: Step) {
    || (step.RecvUp? && CanRecvUp(topo, s, step.fd))
    || (step.RecvDown? && CanRecvDown(s, step.fd))
  }

  lemma SoundIsWired(topo: Topo, s: Net)
    requires Sound(topo, s)
    ensures topo.Valid() && Wired(topo.depth, s)
  {}

  lemma {:induction false} DeliveryDrains(topo: Topo, s: Net, step: Step)
    requires Orderly(topo, s) && Delivers(topo, s, step)
    ensures Wired(topo.depth, s) && Wired(topo.depth, Next(topo, s, step))
    ensures Traffic(topo.depth, Next(topo, s, step)) < Traffic(topo.depth, s)
  {
    hide Traffic, Wired, Sound, DoRegister, DoResponse, DoRequest, OnClientRxRequest;
    SoundIsWired(topo, s);
    if step.RecvDown? {
      RequestOutcome(topo, s, step.fd, step.granted, step.found, step.outport);
      RequestDrains(topo, s, step.fd, step.granted, step.found, step.outport);
    } else if s.ups[step.fd][0].Reg? {
      RegisterDrains(topo, s, step.fd);
    } else {
      ResponseDrains(topo, s, step.fd);
    }
  }

  // ----- whole runs -----

  ghost function TrafficAfter(topo: Topo, steps: seq<Step>): nat
    requires topo.Valid()
  {
    AlwaysSound(topo, steps);
    SoundIsWired(topo, After(topo, steps));
    Traffic(topo.depth, After(topo, steps))
  }

  /** Each of the further steps delivers a message. */
  ghost predicate AllDeliver(topo: Topo, steps: seq<Step>, more: seq<Step>) {
    forall i :: 0 <= i < |more| ==> Delivers(topo, After(topo, steps + more[..i]), more[i])
  }

  lemma AfterOneMore(topo: Topo, steps: seq<Step>, step: Step)
    ensures After(topo, steps + [step]) == Next(topo, After(topo, steps), step)
  {
    assert (steps + [step])[..|steps|] == steps;
  }

  /** In every run, disconnects included, no more messages can be delivered in a row than the
      traffic under way allows: messages do not multiply, and none goes in circles. */
  lemma {:induction false} DeliveriesAreBounded(topo: Topo, steps: seq<Step>, more: seq<Step>)
    requires topo.Valid() && AllDeliver(topo, steps, more)
    ensures TrafficAfter(topo, steps + more) + |more| <= TrafficAfter(topo, steps)
  {
    hide After, Traffic, Wired, Next, Delivers;
    if more == [] {
      assert steps + more == steps;
    } else {
      var n := |more| - 1;
      var before := more[..n];
      forall i | 0 <= i < |before| ensures Delivers(topo, After(topo, steps + before[..i]), before[i]) {
        assert before[..i] == more[..i];
      }
      DeliveriesAreBounded(topo, steps, before);
      AlwaysOrderly(topo, steps + before);
      DeliveryDrains(topo, After(topo, steps + before), more[n]);
      AfterOneMore(topo, steps + before, more[n]);
      assert steps + before + [more[n]] == steps + more;
    }
  }

  /** Nothing at all is under way. */
  ghost predicate Silent(s: Net) {
    && (forall fd :: fd in s.downs ==> s.downs[fd] == [])
    && (forall fd :: fd in s.ups ==> s.ups[fd] == [])
  }

  /** Without disconnects, whatever is under way can be delivered. */
  lemma {:induction false} SomethingToDeliver(topo: Topo, s: Net) returns (step: Step)
    requires Steady(topo, s) && !Silent(s)
    ensures Delivers(topo, s, step)
  {
    if fd :| fd in s.downs && s.downs[fd] != [] {
      step := RecvDown(fd, true, true, 0);
    } else {
      var fd :| fd in s.ups && s.ups[fd] != [];
      topo.ParentIsAbove(s.link[fd]);
      step := RecvUp(fd);
    }
  }

  /** In particular, the message of a request that is not home yet is on a connection whose next
      message can be delivered. */
  lemma {:induction false} RequestsAreNeverStuck(topo: Topo, steps: seq<Step>, id: int)
    requires topo.Valid() && NoDisconnects(steps) && id in After(topo, steps).track
    ensures var s := After(topo, steps);
      match s.track[id].at
      case InDown(fd) => RequestOnWire(s, fd, id) && CanRecvDown(s, fd)
      case InUp(fd) => ResponseOnWire(s, fd, id) && CanRecvUp(topo, s, fd)
      case Home => Completed(id, s.track[id].origin) in s.log
  {
    AlwaysConserved(topo, steps);
    var s := After(topo, steps);
    hide After, Orderly, Sound;
    assert Exact(topo, s, id) && Shape(topo, s) && Connections(topo, s);
    if !s.track[id].at.Home? {
      topo.ParentIsAbove(s.link[s.track[id].at.fd]);
    }
  }

  /** From every run without disconnects, deliveries alone lead to silence. */
  lemma {:induction false} DrainsToSilence(topo: Topo, steps: seq<Step>) returns (more: seq<Step>)
    requires topo.Valid() && NoDisconnects(steps)
    ensures NoDisconnects(steps + more) && AllDeliver(topo, steps, more)
    ensures Silent(After(topo, steps + more))
    decreases TrafficAfter(topo, steps)
  {
    hide After, Traffic, Wired, Next, Delivers, Steady, Orderly, Sound;
    var s := After(topo, steps);
    AlwaysSteady(topo, steps);
    if Silent(s) {
      more := [];
      assert steps + more == steps;
    } else {
      var step := SomethingToDeliver(topo, s);
      AlwaysOrderly(topo, steps);
      DeliveryDrains(topo, s, step);
      AfterOneMore(topo, steps, step);
      DeliversOnly(topo, s, step);
      var rest := DrainsToSilence(topo, steps + [step]);
      more := [step] + rest;
      assert steps + [step] + rest == steps + more;
      forall i | 0 <= i < |more| ensures Delivers(topo, After(topo, steps + more[..i]), more[i]) {
        if i == 0 {
          assert steps + more[..0] == steps;
        } else {
          assert steps + [step] + rest[..i - 1] == steps + more[..i];
        }
      }
    }
  }

  lemma DeliversOnly(topo: Topo, s: Net, step: Step)
    requires Delivers(topo, s, step)
    ensures !step.ClientGone? && !step.ServerGone?
  {}

  /** Deliveries in any order whatever, made until none is possible, leave every request issued
      answered: completed where it began, exactly once, with no context anywhere. */
  lemma {:induction false} AnyOrderAnswersAll(topo: Topo, steps: seq<Step>, more: seq<Step>, id: int)
    requires topo.Valid() && NoDisconnects(steps) && AllDeliver(topo, steps, more)
    requires forall step :: !Delivers(topo, After(topo, steps + more), step)
    requires id in After(topo, steps + more).track
    ensures AnsweredOnce(After(topo, steps + more), id)
  {
    hide After, Steady, AnsweredOnce;
    forall i | 0 <= i < |more| ensures !more[i].ClientGone? && !more[i].ServerGone? {
      DeliversOnly(topo, After(topo, steps + more[..i]), more[i]);
    }
    AlwaysSteady(topo, steps + more);
    if !Silent(After(topo, steps + more)) {
      var step := SomethingToDeliver(topo, After(topo, steps + more));
    }
    AllAnsweredWhenIdle(topo, steps + more, id);
  }

  /** And such deliveries exist: every run without disconnects can be continued until all its
      requests are answered. */
  lemma {:induction false} EveryRequestCanBeAnswered(topo: Topo, steps: seq<Step>) returns (more: seq<Step>)
    requires topo.Valid() && NoDisconnects(steps)
    ensures NoDisconnects(steps + more) && AllDeliver(topo, steps, more)
    ensures forall id :: id in After(topo, steps + more).track ==> AnsweredOnce(After(topo, steps + more), id)
  {
    more := DrainsToSilence(topo, steps);
    hide After, AllDeliver, AnsweredOnce;
    forall id | id in After(topo, steps + more).track ensures AnsweredOnce(After(topo, steps + more), id) {
      AllAnsweredWhenIdle(topo, steps + more, id);
    }
  }
}
