/**
  The 50 slots of a register message (src/mccresourcemanager.cpp, buildRegister): they suffice in
  every run exactly when no matrix that registers has more than 50 matrices below it.
 */
module Capacity {
  import opened GlobalIds
  import opened Matrix
  import opened Hierarchy
  import opened Routing
  import opened Registration
  import opened Switching
  import opened Liveness
  import Topology

  /** The step makes `m` build a register message; its list is what `m` announces afterwards. */
  ghost predicate Builds(topo: Topo, s: Net, step: Step, m: Id) {
    || (step.Connect? && step.c == m && CanConnect(topo, s, m, step.fd))
    || (step.RecvUp? && CanRecvUp(topo, s, step.fd) && s.ups[step.fd][0].Reg? && topo.parent[s.link[step.fd]] == m
        && s.nodes[m].level != 0 && s.nodes[m].connected)
  }

  ghost predicate Fits(s: Net, m: Id) {
    m in s.nodes ==> |Announced(s.nodes[m].table)| <= 50
  }

  // ----- a run in which everybody is heard -----

  /** Each of the matrices has connected, over a connection of its own number. */
  lemma {:induction false} ConnectsAll(topo: Topo, todo: set<Id>) returns (steps: seq<Step>)
    requires topo.Valid() && todo <= topo.parent.Keys
    ensures NoDisconnects(steps)
    ensures After(topo, steps).sock.Keys == todo && After(topo, steps).link.Keys == todo
    decreases |todo|
  {
    if todo == {} {
      steps := [];
    } else {
      var c := Least(todo);
      var before := ConnectsAll(topo, todo - {c});
      steps := before + [Connect(c, c)];
      ConnectsOneMore(topo, before, c);
    }
  }

  lemma {:induction false} ConnectsOneMore(topo: Topo, steps: seq<Step>, c: Id)
    requires topo.Valid() && c in topo.parent && c !in After(topo, steps).sock && c !in After(topo, steps).link
    ensures var s, s' := After(topo, steps), After(topo, steps + [Connect(c, c)]);
      s'.sock.Keys == s.sock.Keys + {c} && s'.link.Keys == s.link.Keys + {c}
  {
    hide After, Next, DoConnect, BuildRegister;
    var s := After(topo, steps);
    HasNodes(topo, steps);
    AfterOneMore(topo, steps, Connect(c, c));
    NextConnects(topo, s, c, c);
    ConnectEffect(s, c, c);
    KeysOfUpdate(s.sock, c, c);
    KeysOfUpdate(s.link, c, c);
  }

  lemma HasNodes(topo: Topo, steps: seq<Step>)
    requires topo.Valid()
    ensures After(topo, steps).nodes.Keys == topo.depth.Keys
  {
    hide After;
    AlwaysSound(topo, steps);
  }

  lemma NextConnects(topo: Topo, s: Net, c: Id, fd: int)
    requires c in topo.parent && c in s.nodes && c !in s.sock && fd !in s.link
    ensures Next(topo, s, Connect(c, fd)) == DoConnect(s, c, fd)
  {
    hide DoConnect;
  }

  lemma KeysOfUpdate(m: map<int, int>, k: int, v: int)
    ensures m[k := v].Keys == m.Keys + {k}
  {}

  lemma {:induction false} DeliveryKeepsLinks(topo: Topo, s: Net, step: Step)
    requires Orderly(topo, s) && Delivers(topo, s, step)
    ensures Next(topo, s, step).link == s.link && Next(topo, s, step).sock == s.sock
  {
    hide Orderly, Shape, OnlyOnce, DoRegister, DoResponse, DoRequest, OnClientRxRequest, Registered, BuildRegister;
    OrderlyParts(topo, s);
    if step.RecvDown? {
      RequestIsAnsweredOrForwarded(topo, s, step.fd, step.granted, step.found, step.outport);
    } else if s.ups[step.fd][0].Reg? {
      RegisterEffect(topo, s, step.fd);
    } else {
      ResponseIsHandled(topo, s, step.fd);
    }
  }

  lemma {:induction false} DeliveriesKeepLinks(topo: Topo, steps: seq<Step>, more: seq<Step>)
    requires topo.Valid() && AllDeliver(topo, steps, more)
    ensures var s, s' := After(topo, steps), After(topo, steps + more); s'.link == s.link && s'.sock == s.sock
  {
    hide After, Next, Delivers, Orderly;
    if more == [] {
      assert steps + more == steps;
    } else {
      var n := |more| - 1;
      var before := more[..n];
      forall i | 0 <= i < |before| ensures Delivers(topo, After(topo, steps + before[..i]), before[i]) {
        assert before[..i] == more[..i];
      }
      DeliveriesKeepLinks(topo, steps, before);
      AlwaysOrderly(topo, steps + before);
      DeliveryKeepsLinks(topo, After(topo, steps + before), more[n]);
      AfterOneMore(topo, steps + before, more[n]);
      assert steps + before + [more[n]] == steps + more;
    }
  }

  /** In some run without disconnects every matrix comes to announce all that is below it. */
  lemma {:induction false} EverybodyIsHeard(topo: Topo) returns (steps: seq<Step>)
    requires topo.Valid()
    ensures NoDisconnects(steps) && After(topo, steps).link.Keys == topo.parent.Keys
    ensures forall c :: c in topo.parent ==> c in After(topo, steps).sock
    ensures forall m :: m in topo.depth ==>
      m in After(topo, steps).nodes && |Announced(After(topo, steps).nodes[m].table)| == |topo.Below(m)|
  {
    var connects := ConnectsAll(topo, topo.parent.Keys);
    var more := DrainsToSilence(topo, connects);
    steps := connects + more;
    DeliveriesKeepLinks(topo, connects, more);
    hide After, AllDeliver, Announced;
    AlwaysSteady(topo, steps);
    AlwaysSound(topo, steps);
    var s := After(topo, steps);
    assert Quiescent(topo, s);
    hide Steady, Quiescent, KnownAbove;
    forall c | c in topo.parent ensures KnownAbove(topo, s, c) {
      ParentKnows(topo, s, c);
    }
    forall m | m in topo.depth ensures m in s.nodes && |Announced(s.nodes[m].table)| == |topo.Below(m)| {
      AnnouncesEverything(topo, s, m);
      assert TableOk(topo, s.link, m, s.nodes[m].table);
      AnnouncementFits(topo, s.link, m, s.nodes[m].table);
    }
  }

  // ----- the exact condition -----

  /** Every register message `m` ever builds, in whatever run, fits if and only if `m` has at most
      50 matrices below it. */
  lemma {:induction false} SlotsSufficeIff(topo: Topo, m: Id)
    requires topo.Valid() && m in topo.parent
    ensures (forall steps, step :: Builds(topo, After(topo, steps), step, m) ==> Fits(After(topo, steps + [step]), m))
       <==> |topo.Below(m)| <= 50
  {
    hide After, Announced;
    if |topo.Below(m)| <= 50 {
      forall steps, step | Builds(topo, After(topo, steps), step, m) ensures Fits(After(topo, steps + [step]), m) {
        RegisterFits(topo, steps + [step], m);
      }
    } else {
      var steps := EverybodyIsHeard(topo);
      hide Builds, Fits;
      var gone := steps + [ClientGone(m)];
      ReconnectBuilds(topo, steps, m);
      assert Builds(topo, After(topo, gone), Connect(m, topo.root), m);
      assert !Fits(After(topo, gone + [Connect(m, topo.root)]), m);
    }
  }

  /** When `m` reconnects it announces its whole table again. */
  lemma {:induction false} ReconnectBuilds(topo: Topo, steps: seq<Step>, m: Id)
    requires topo.Valid() && m in topo.parent && m in After(topo, steps).sock && topo.root !in After(topo, steps).link
    requires m in After(topo, steps).nodes && |Announced(After(topo, steps).nodes[m].table)| > 50
    ensures var gone := steps + [ClientGone(m)];
      && Builds(topo, After(topo, gone), Connect(m, topo.root), m)
      && !Fits(After(topo, gone + [Connect(m, topo.root)]), m)
  {
    hide After, Announced;
    var s, gone := After(topo, steps), steps + [ClientGone(m)];
    AlwaysSound(topo, steps);
    AfterOneMore(topo, steps, ClientGone(m));
    AfterOneMore(topo, gone, Connect(m, topo.root));
    assert CanClientGone(s, m);
    hide Sound;
    var s1 := After(topo, gone);
    assert s1 == DoClientGone(s, m) && CanConnect(topo, s1, m, topo.root);
    ConnectEffect(s1, m, topo.root);
  }

  /** The root builds none. */
  lemma {:induction false} RootBuildsNone(topo: Topo, steps: seq<Step>, step: Step)
    requires topo.Valid()
    ensures !Builds(topo, After(topo, steps), step, topo.root)
  {
    AlwaysSound(topo, steps);
    hide After;
  }
}
