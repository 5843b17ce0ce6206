/**
  Registration in runs without disconnects: whatever the order of events, once every matrix has
  connected and no register message is under way, the tables describe the whole tree.
 */
module Registration {
  import opened GlobalIds
  import opened Matrix
  import opened Hierarchy
  import opened Routing
  import Topology

  // ----- the last register message on a connection -----

  function LastReg(up: seq<UpMsg>): Option<Register> {
    if up == [] then None
    else if up[|up| - 1].Reg? then Some(up[|up| - 1].reg)
    else LastReg(up[..|up| - 1])
  }

  lemma LastRegAppend(up: seq<UpMsg>, msg: UpMsg)
    ensures LastReg(up + [msg]) == if msg.Reg? then Some(msg.reg) else LastReg(up)
  {}

  lemma {:induction false} LastRegTail(up: seq<UpMsg>)
    requires up != []
    ensures LastReg(up) == if LastReg(up[1..]).Some? then LastReg(up[1..])
                           else if up[0].Reg? then Some(up[0].reg) else None
  {
    if !up[|up| - 1].Reg? && |up| > 1 {
      LastRegTail(up[..|up| - 1]);
      assert up[..|up| - 1][1..] == up[1..][..|up| - 2];
    }
  }

  lemma {:induction false} LastRegNone(up: seq<UpMsg>)
    ensures LastReg(up).None? <==> forall msg :: msg in up ==> !msg.Reg?
    ensures LastReg(up).Some? ==> Reg(LastReg(up).value) in up
  {
    if up != [] {
      var n := |up| - 1;
      LastRegNone(up[..n]);
      assert forall msg :: msg in up <==> msg in up[..n] || msg == up[n];
    }
  }

  // ----- the invariant -----

  /** What the parent of `c` will hold about `c` once it has read everything `c` has sent. */
  ghost function Advertised(up: seq<UpMsg>, table: map<int, MatrixInfo>, c: Id): Option<set<int>> {
    match LastReg(up)
    case Some(reg) => Some(Elements(reg.children))
    case None => if c in table then Some(table[c].childset) else None
  }

  /** The parent knows, or is about to learn, what `c` has in its own table. */
  ghost predicate UpToDate(topo: Topo, s: Net, c: Id)
    requires Shape(topo, s)
  {
    c in s.sock ==>
      Advertised(s.ups[s.sock[c]], s.nodes[topo.parent[c]].table, c) == Some(Elements(Announced(s.nodes[c].table)))
  }

  /** Nobody has disconnected. */
  ghost predicate Connections(topo: Topo, s: Net)
    requires Shape(topo, s)
  {
    && s.open == s.link.Keys
    && (forall fd :: fd in s.link ==> s.link[fd] in s.sock && s.sock[s.link[fd]] == fd)
    && (forall m :: m in s.nodes ==> (s.nodes[m].connected <==> m in s.sock))
    && (forall fd, msg :: fd in s.link && msg in s.ups[fd] && msg.Reg? ==> msg.reg.expire > 0)
  }

  ghost predicate Steady(topo: Topo, s: Net) {
    match Sound(topo, s)
    case false => false
    case true => Connections(topo, s) && forall c :: c in topo.parent ==> UpToDate(topo, s, c)
  }

  // ----- steps that do not touch registrations -----

  /** Same tables, same connections, and the same last register message on each of them. */
  ghost predicate SameRegistrations(s: Net, s': Net) {
    && s'.link == s.link && s'.open == s.open && s'.sock == s.sock
    && s'.nodes.Keys == s.nodes.Keys
    && (forall m :: m in s.nodes ==> s'.nodes[m].table == s.nodes[m].table && s'.nodes[m].connected == s.nodes[m].connected)
    && s'.ups.Keys == s.ups.Keys
    && (forall fd :: fd in s.ups ==> LastReg(s'.ups[fd]) == LastReg(s.ups[fd]))
    && (forall fd, msg :: fd in s.ups && msg in s'.ups[fd] && msg.Reg? ==> msg in s.ups[fd])
  }

  lemma {:induction false} SameKeepsSteady(topo: Topo, s: Net, s': Net)
    requires Steady(topo, s) && Sound(topo, s') && SameRegistrations(s, s')
    ensures Steady(topo, s')
  {
    forall fd, msg | fd in s'.link && msg in s'.ups[fd] && msg.Reg? ensures msg.reg.expire > 0 {
      assert msg in s.ups[fd];
    }
    assert Connections(topo, s');
    forall c | c in topo.parent ensures UpToDate(topo, s', c) {
      SameKeepsUpToDate(topo, s, s', c);
    }
  }

  lemma {:induction false} SameKeepsUpToDate(topo: Topo, s: Net, s': Net, c: Id)
    requires Shape(topo, s) && Shape(topo, s') && SameRegistrations(s, s')
    requires c in topo.parent && UpToDate(topo, s, c)
    ensures UpToDate(topo, s', c)
  {
    if c in s.sock {
      var p, fd := topo.parent[c], s.sock[c];
      assert fd in s.ups;
      assert LastReg(s'.ups[fd]) == LastReg(s.ups[fd]);
      assert s'.nodes[c].table == s.nodes[c].table && s'.nodes[p].table == s.nodes[p].table;
    }
  }

  lemma SameTransitive(s: Net, s1: Net, s2: Net)
    requires SameRegistrations(s, s1) && SameRegistrations(s1, s2)
    ensures SameRegistrations(s, s2)
  {}

  lemma {:induction false} PopResponseIsSame(s: Net, fd: int)
    requires fd in s.ups && s.ups[fd] != [] && s.ups[fd][0].Resp?
    ensures SameRegistrations(s, PopUp(s, fd))
  {
    LastRegTail(s.ups[fd]);
    LastRegNone(s.ups[fd][1..]);
    var s' := PopUp(s, fd);
    assert LastReg(s'.ups[fd]) == LastReg(s.ups[fd]);
    hide LastReg;
  }

  lemma PopDownIsSame(s: Net, fd: int)
    requires fd in s.downs && s.downs[fd] != []
    ensures SameRegistrations(s, PopDown(s, fd))
  {}

  lemma EmitIsSame(s: Net, m: Id, out: Sending)
    ensures SameRegistrations(s, Emit(s, m, out))
  {}

  lemma SetNodeIsSame(s: Net, m: Id, st: State)
    requires m in s.nodes && st.table == s.nodes[m].table && st.connected == s.nodes[m].connected
    ensures SameRegistrations(s, SetNode(s, m, st))
  {}

  lemma ObserveIsSame(s: Net, track: map<int, Track>, log: seq<Event>)
    ensures SameRegistrations(s, Observe(s, track, log))
  {}

  lemma {:induction false} ResponseIsSame(topo: Topo, s: Net, fd: int)
    requires CanRecvUp(topo, s, fd) && s.ups[fd][0].Resp?
    ensures SameRegistrations(s, DoResponse(topo, s, fd))
  {
    hide PopUp, SetNode, Emit, Observe, ResponseTrack, SameRegistrations;
    var p := topo.parent[s.link[fd]];
    var r := s.ups[fd][0].resp;
    var (st, out) := OnServerRxResponse(s.nodes[p], r);
    var s0 := PopUp(s, fd);
    PopResponseIsSame(s, fd);
    assert s0.nodes == s.nodes by { PopsKeepNodes(s, fd); }
    SetNodeIsSame(s0, p, st);
    var s1 := SetNode(s0, p, st);
    EmitIsSame(s1, p, out);
    var s2 := Emit(s1, p, out);
    var track, log := ResponseTrack(s, p, r.id, out), if out.Done? then s.log + [Completed(r.id, p)] else s.log;
    ObserveIsSame(s2, track, log);
    SameTransitive(s, s0, s1);
    SameTransitive(s, s1, s2);
    SameTransitive(s, s2, Observe(s2, track, log));
  }

  lemma {:induction false} ResponseKeepsSteady(topo: Topo, s: Net, fd: int)
    requires Steady(topo, s) && CanRecvUp(topo, s, fd) && s.ups[fd][0].Resp?
    ensures Steady(topo, DoResponse(topo, s, fd))
  {
    hide Sound, SameRegistrations, DoResponse;
    ResponseKeepsSound(topo, s, fd);
    ResponseIsSame(topo, s, fd);
    SameKeepsSteady(topo, s, DoResponse(topo, s, fd));
  }

  lemma PopsKeepNodes(s: Net, fd: int)
    ensures fd in s.ups && s.ups[fd] != [] ==> PopUp(s, fd).nodes == s.nodes
    ensures fd in s.downs && s.downs[fd] != [] ==> PopDown(s, fd).nodes == s.nodes
  {}

  lemma {:induction false} RequestIsSame(s: Net, fd: int, granted: bool, found: bool, outport: int)
    requires CanRecvDown(s, fd)
    ensures SameRegistrations(s, DoRequest(s, fd, granted, found, outport))
  {
    hide PopDown, SetNode, Emit, Observe, RequestTrack, SameRegistrations, OnClientRxRequest;
    var c := s.link[fd];
    var q := s.downs[fd][0];
    var (st, out) := OnClientRxRequest(s.nodes[c], q, granted, found, outport);
    RequestLeavesConnection(s.nodes[c], q, granted, found, outport);
    var s0 := PopDown(s, fd);
    PopDownIsSame(s, fd);
    PopsKeepNodes(s, fd);
    SetNodeIsSame(s0, c, st);
    var s1 := SetNode(s0, c, st);
    EmitIsSame(s1, c, out);
    var s2 := Emit(s1, c, out);
    var track, log := RequestTrack(s.track, fd, q.id, out), s.log + [Delivered(q.id, c)];
    ObserveIsSame(s2, track, log);
    SameTransitive(s, s0, s1);
    SameTransitive(s, s1, s2);
    SameTransitive(s, s2, Observe(s2, track, log));
  }

  lemma {:induction false} RequestKeepsSteady(topo: Topo, s: Net, fd: int, granted: bool, found: bool, outport: int)
    requires Steady(topo, s) && CanRecvDown(s, fd)
    ensures Steady(topo, DoRequest(s, fd, granted, found, outport))
  {
    hide Sound, SameRegistrations, DoRequest;
    RequestKeepsSound(topo, s, fd, granted, found, outport);
    RequestIsSame(s, fd, granted, found, outport);
    SameKeepsSteady(topo, s, DoRequest(s, fd, granted, found, outport));
  }

  lemma RequestLeavesConnection(m: State, q: Request, granted: bool, found: bool, outport: int)
    ensures var st := OnClientRxRequest(m, q, granted, found, outport).0;
      st.table == m.table && st.connected == m.connected
  {}

  lemma {:induction false} SwitchIsSame(s: Net, m: Id, keyboard: int, camera: GlobalId, id: int)
    requires CanSwitch(s, m, camera, id)
    ensures SameRegistrations(s, DoSwitch(s, m, keyboard, camera, id))
  {
    hide SetNode, Emit, Observe, SameRegistrations, MatchMatrix;
    var (st, out) := StartSwitch(s.nodes[m], keyboard, camera, id);
    SetNodeIsSame(s, m, st);
    var s1 := SetNode(s, m, st);
    EmitIsSame(s1, m, out);
    var s2 := Emit(s1, m, out);
    var track := if out.Down? then s.track[id := Track(m, camera.mid, InDown(out.fd))] else s.track;
    ObserveIsSame(s2, track, s.log);
    SameTransitive(s, s1, s2);
    SameTransitive(s, s2, Observe(s2, track, s.log));
  }

  lemma {:induction false} SwitchKeepsSteady(topo: Topo, s: Net, m: Id, keyboard: int, camera: GlobalId, id: int)
    requires Steady(topo, s) && CanSwitch(s, m, camera, id)
    ensures Steady(topo, DoSwitch(s, m, keyboard, camera, id))
  {
    hide Sound, SameRegistrations, DoSwitch;
    Routing.SwitchKeepsSound(topo, s, m, keyboard, camera, id);
    SwitchIsSame(s, m, keyboard, camera, id);
    SameKeepsSteady(topo, s, DoSwitch(s, m, keyboard, camera, id));
  }

  // ----- steps that do -----

  lemma {:induction false} ConnectKeepsSteady(topo: Topo, s: Net, c: Id, fd: int)
    requires Steady(topo, s) && CanConnect(topo, s, c, fd)
    ensures Steady(topo, DoConnect(s, c, fd))
  {
    ConnectKeepsSound(topo, s, c, fd);
    ConnectKeepsConnections(topo, s, c, fd);
    var s' := DoConnect(s, c, fd);
    forall x | x in topo.parent ensures UpToDate(topo, s', x) {
      ConnectKeepsUpToDate(topo, s, c, fd, x);
    }
  }

  lemma {:induction false} ConnectKeepsConnections(topo: Topo, s: Net, c: Id, fd: int)
    requires Shape(topo, s) && Connections(topo, s) && CanConnect(topo, s, c, fd) && Shape(topo, DoConnect(s, c, fd))
    ensures Connections(topo, DoConnect(s, c, fd))
  {
    hide DoConnect, BuildRegister, Shape;
    ConnectEffect(s, c, fd);
    var s' := DoConnect(s, c, fd);
    assert s'.open == s'.link.Keys;
    forall f | f in s'.link ensures s'.link[f] in s'.sock && s'.sock[s'.link[f]] == f {
      assert f != fd ==> f in s.link && s.link[f] != c;
    }
    forall f, msg | f in s'.link && f in s'.ups && msg in s'.ups[f] && msg.Reg? ensures msg.reg.expire > 0 {
      assert f != fd ==> f in s.link && msg in s.ups[f];
    }
  }

  lemma ConnectKeepsUpToDate(topo: Topo, s: Net, c: Id, fd: int, x: Id)
    requires Shape(topo, s) && CanConnect(topo, s, c, fd) && Shape(topo, DoConnect(s, c, fd))
    requires x in topo.parent && UpToDate(topo, s, x)
    ensures UpToDate(topo, DoConnect(s, c, fd), x)
  {}

  /** Handling a register message leaves every child up to date: the sender, whose message is now
      the parent's entry; the parent itself, which has sent a fresh announcement; and the rest. */
  lemma {:induction false} RegisterKeepsUpToDate(topo: Topo, s: Net, fd: int, x: Id)
    requires Sound(topo, s) && Connections(topo, s) && CanRecvUp(topo, s, fd) && s.ups[fd][0].Reg?
    requires Shape(topo, DoRegister(topo, s, fd)) && x in topo.parent && UpToDate(topo, s, x)
    ensures UpToDate(topo, DoRegister(topo, s, fd), x)
  {
    hide DoRegister, BuildRegister, Announced, Advertised, Elements, Registered;
    var c, p, s' := s.link[fd], topo.parent[s.link[fd]], DoRegister(topo, s, fd);
    RegisterEffect(topo, s, fd);
    PopUpKeepsRegisters(topo, s, fd);
    topo.ParentIsAbove(c);
    topo.ParentIsAbove(x);
    assert s.ups[fd][0] in s.ups[fd] && c in s.sock && s.sock[c] == fd;
    assert x in s.sock ==> s.sock[x] in s.ups && s.link[s.sock[x]] == x && s.sock[x] in s.open;
    assert p in s.sock ==> PassesOn(s, p);
    hide Sound, Shape, Connections;
    RegistrationIsHeard(s.ups[fd], s.nodes[p].table, fd, c, x);
    if x == p && x in s.sock {
      AnnouncementIsHeard(s.ups[s.sock[p]], s'.nodes[topo.parent[p]].table, s'.nodes[p]);
    }
  }

  /** A register message advertises the same once it is an entry, and says nothing of others. */
  lemma {:induction false} RegistrationIsHeard(up: seq<UpMsg>, table: map<int, MatrixInfo>, fd: int, c: Id, x: Id)
    requires up != [] && up[0].Reg? && up[0].reg.from == c && up[0].reg.expire > 0
    ensures Advertised(up[1..], Registered(table, fd, up[0].reg), c) == Advertised(up, table, c)
    ensures x != c ==> forall q :: Advertised(q, Registered(table, fd, up[0].reg), x) == Advertised(q, table, x)
  {
    LastRegTail(up);
    RegisteredEntries(table, fd, up[0].reg);
    hide Registered;
  }

  lemma AnnouncementIsHeard(up: seq<UpMsg>, table: map<int, MatrixInfo>, st: State)
    ensures Advertised(up + [Reg(BuildRegister(st))], table, st.id) == Some(Elements(Announced(st.table)))
  {
    LastRegAppend(up, Reg(BuildRegister(st)));
  }

  /** What a registration makes of the table. */
  lemma RegisteredEntries(table: map<int, MatrixInfo>, fd: int, reg: Register)
    requires reg.expire > 0
    ensures var table' := Registered(table, fd, reg);
      && table'.Keys == table.Keys + {reg.from}
      && table'[reg.from] == MatrixInfo(if reg.from in table then table[reg.from].id else reg.from,
                                        if reg.from in table then table[reg.from].fd else fd, Elements(reg.children))
      && forall c :: c in table && c != reg.from ==> table'[c] == table[c]
  {}

  lemma {:induction false} RegisterKeepsConnections(topo: Topo, s: Net, fd: int)
    requires Shape(topo, s) && Connections(topo, s) && CanRecvUp(topo, s, fd) && s.ups[fd][0].Reg?
    requires Shape(topo, DoRegister(topo, s, fd))
    ensures Connections(topo, DoRegister(topo, s, fd))
  {
    hide DoRegister, Registered, BuildRegister;
    RegisterEffect(topo, s, fd);
    var s', p := DoRegister(topo, s, fd), topo.parent[s.link[fd]];
    RegisterLasts(s'.nodes[p]);
    assert s.ups.Keys == s.link.Keys;
    hide Shape;
    forall f, msg | f in s'.link && msg in s'.ups[f] && msg.Reg? ensures msg.reg.expire > 0 {
      assert msg in s.ups[f] || msg == Reg(BuildRegister(s'.nodes[p]));
    }
  }

  lemma RegisterLasts(st: State)
    ensures BuildRegister(st).from == st.id && BuildRegister(st).expire > 0
  {}

  lemma {:induction false} RegisterKeepsSteady(topo: Topo, s: Net, fd: int)
    requires Steady(topo, s) && CanRecvUp(topo, s, fd) && s.ups[fd][0].Reg?
    ensures Steady(topo, DoRegister(topo, s, fd))
  {
    hide DoRegister, Connections, UpToDate;
    RegisterKeepsSound(topo, s, fd);
    RegisterKeepsConnections(topo, s, fd);
    forall x | x in topo.parent ensures UpToDate(topo, DoRegister(topo, s, fd), x) {
      RegisterKeepsUpToDate(topo, s, fd, x);
    }
  }

  // ----- whole runs -----

  predicate NoDisconnects(steps: seq<Step>) {
    forall i :: 0 <= i < |steps| ==> !steps[i].ClientGone? && !steps[i].ServerGone?
  }

  lemma {:induction false} NextKeepsSteady(topo: Topo, s: Net, step: Step)
    requires Steady(topo, s) && !step.ClientGone? && !step.ServerGone?
    ensures Steady(topo, Next(topo, s, step))
  {
    hide Steady, DoConnect, DoRegister, DoResponse, DoRequest, DoSwitch;
    match step
    case Connect(c, fd) => if CanConnect(topo, s, c, fd) { ConnectKeepsSteady(topo, s, c, fd); }
    case RecvUp(fd) =>
      if CanRecvUp(topo, s, fd) {
        if s.ups[fd][0].Reg? { RegisterKeepsSteady(topo, s, fd); } else { ResponseKeepsSteady(topo, s, fd); }
      }
    case RecvDown(fd, granted, found, outport) =>
      if CanRecvDown(s, fd) { RequestKeepsSteady(topo, s, fd, granted, found, outport); }
    case Switch(m, keyboard, camera, id) =>
      if CanSwitch(s, m, camera, id) { SwitchKeepsSteady(topo, s, m, keyboard, camera, id); }
  }

  lemma {:induction false} AlwaysSteady(topo: Topo, steps: seq<Step>)
    requires topo.Valid() && NoDisconnects(steps)
    ensures Steady(topo, After(topo, steps))
  {
    hide Next;
    if steps == [] {
      AlwaysSound(topo, steps);
    } else {
      var before := steps[..|steps| - 1];
      AlwaysSteady(topo, before);
      NextKeepsSteady(topo, After(topo, before), steps[|steps| - 1]);
    }
  }

  // ----- completeness -----

  /** The table of `p` has exactly one entry per direct child, and the entry's set is exactly the
      child's strict descendants. */
  ghost predicate Complete(topo: Topo, s: Net, p: Id)
    requires topo.Valid()
  {
    && p in s.nodes
    && (forall c :: c in s.nodes[p].table <==> topo.IsChild(c, p))
    && (forall c :: c in s.nodes[p].table ==> s.nodes[p].table[c].childset == topo.Below(c))
  }

  /** The parent of `c` has an entry for it that lists at least what `c` has in its own table. */
  ghost predicate KnownAbove(topo: Topo, s: Net, c: Id)
    requires c in topo.parent
  {
    && c in s.nodes && topo.parent[c] in s.nodes
    && var table := s.nodes[topo.parent[c]].table;
    && c in table && Elements(Announced(s.nodes[c].table)) <= table[c].childset
  }

  ghost predicate AllKnownAbove(topo: Topo, s: Net) {
    forall c :: c in topo.parent ==> KnownAbove(topo, s, c)
  }

  lemma {:induction false} AnnouncesEverything(topo: Topo, s: Net, c: Id)
    requires Sound(topo, s) && AllKnownAbove(topo, s) && c in topo.depth
    ensures c in s.nodes && Elements(Announced(s.nodes[c].table)) == topo.Below(c)
    decreases |topo.Below(c)|
  {
    hide Announced, Registers;
    var table := s.nodes[c].table;
    assert TableOk(topo, s.link, c, table);
    AnnouncesDescendants(topo, s.link, c, table);
    forall x | x in topo.Below(c) ensures x in Announced(table) {
      var k := topo.ChildTowards(c, x);
      topo.ChildIsBelow(k, c);
      SubsetIsSmaller(topo.Below(k), topo.Below(c));
      AnnouncesEverything(topo, s, k);
      assert KnownAbove(topo, s, k);
      assert EntryOk(topo, s.link, c, k, table[k]);
      assert Serves(table[k], x);
      AnnouncedAreServed(table, x);
    }
  }

  lemma {:induction false} KnownAboveIsComplete(topo: Topo, s: Net, p: Id)
    requires Sound(topo, s) && AllKnownAbove(topo, s) && p in topo.depth
    ensures Complete(topo, s, p)
  {
    hide Announced, Registers;
    var table := s.nodes[p].table;
    assert TableOk(topo, s.link, p, table);
    forall c ensures c in table <==> topo.IsChild(c, p) {
      if c in table { assert EntryOk(topo, s.link, p, c, table[c]); }
      if topo.IsChild(c, p) { assert KnownAbove(topo, s, c); }
    }
    forall c | c in table ensures table[c].childset == topo.Below(c) {
      assert EntryOk(topo, s.link, p, c, table[c]) && KnownAbove(topo, s, c);
      AnnouncesEverything(topo, s, c);
    }
  }

  /** In every reachable state of every run, disconnects included, the tables describe the whole
      tree if and only if every parent has, for each of its children, an entry that lists at least
      what that child has in its own table. */
  lemma {:induction false} TablesCompleteIff(topo: Topo, steps: seq<Step>)
    requires topo.Valid()
    ensures var s := After(topo, steps);
      (forall p :: p in topo.depth ==> Complete(topo, s, p)) <==> AllKnownAbove(topo, s)
  {
    AlwaysSound(topo, steps);
    hide After, Announced;
    var s := After(topo, steps);
    if AllKnownAbove(topo, s) {
      forall p | p in topo.depth ensures Complete(topo, s, p) {
        KnownAboveIsComplete(topo, s, p);
      }
    } else {
      var c :| c in topo.parent && !KnownAbove(topo, s, c);
      topo.ParentIsAbove(c);
      assert TableOk(topo, s.link, c, s.nodes[c].table);
      AnnouncesDescendants(topo, s.link, c, s.nodes[c].table);
      assert !Complete(topo, s, topo.parent[c]);
    }
  }

  /** Every matrix but the root has connected, and no register message is under way. */
  ghost predicate Quiescent(topo: Topo, s: Net) {
    && (forall c :: c in topo.parent ==> c in s.sock)
    && (forall fd, msg :: fd in s.ups && msg in s.ups[fd] ==> !msg.Reg?)
  }

  /** At quiescence a parent holds what its child announces. */
  lemma {:induction false} ParentKnows(topo: Topo, s: Net, c: Id)
    requires Steady(topo, s) && Quiescent(topo, s) && c in topo.parent
    ensures KnownAbove(topo, s, c)
  {
    hide Announced;
    var fd := s.sock[c];
    assert fd in s.ups;
    LastRegNone(s.ups[fd]);
    assert UpToDate(topo, s, c);
  }

  /** In every run without disconnects, at quiescence, each matrix has exactly one entry per direct
      child, and the entry's set is exactly the child's strict descendants. */
  lemma {:induction false} TablesCompleteAtQuiescence(topo: Topo, steps: seq<Step>, p: Id)
    requires topo.Valid() && NoDisconnects(steps) && Quiescent(topo, After(topo, steps)) && p in topo.depth
    ensures Complete(topo, After(topo, steps), p)
  {
    var s := After(topo, steps);
    AlwaysSteady(topo, steps);
    AlwaysSound(topo, steps);
    hide After, Steady, Sound, Quiescent;
    forall c | c in topo.parent ensures KnownAbove(topo, s, c) {
      ParentKnows(topo, s, c);
    }
    KnownAboveIsComplete(topo, s, p);
  }

  // ----- the fixed-size register message -----

  /** Nothing is announced twice, so a list is never longer than what lies below its matrix. */
  lemma {:induction false} AnnounceHasNoRepeats(topo: Topo, link: map<int, Id>, m: Id, table: map<int, MatrixInfo>, keys: seq<int>)
    requires topo.Valid() && TableOk(topo, link, m, table)
    requires forall i :: 0 <= i < |keys| ==> keys[i] in table
    requires forall i, j :: 0 <= i < j < |keys| ==> keys[i] != keys[j]
    ensures |Announce(keys, table)| == |Elements(Announce(keys, table))|
  {
    hide Sorted;
    if keys != [] {
      var k, rest := keys[0], keys[1..];
      AnnounceHasNoRepeats(topo, link, m, table, rest);
      assert EntryOk(topo, link, m, k, table[k]);
      topo.ChildIsBelow(k, m);
      var head, tail := {k} + table[k].childset, Elements(Announce(rest, table));
      forall x | x in tail ensures x !in head {
        AnnounceElements(rest, table, x);
        var k' :| k' in rest && Serves(table[k'], x);
        if Serves(table[k], x) { OnlyOneChildServes(topo, link, m, table, x, k, k'); }
      }
      BlockElements(k, table[k].childset, Announce(rest, table));
      assert head !! tail;
      assert |head + tail| == |head| + |tail|;
    }
  }

  lemma BlockElements(k: int, childset: set<int>, rest: seq<int>)
    ensures Elements([k] + Sorted(childset) + rest) == {k} + childset + Elements(rest)
  {}

  lemma {:induction false} AnnouncementFits(topo: Topo, link: map<int, Id>, m: Id, table: map<int, MatrixInfo>)
    requires topo.Valid() && TableOk(topo, link, m, table)
    ensures |Announced(table)| == |Elements(Announced(table))| <= |topo.Below(m)|
  {
    hide Sorted, Announce, TableOk;
    var keys := Sorted(table.Keys);
    forall i, j | 0 <= i < j < |keys| ensures keys[i] != keys[j] {
      SortedAscends(table.Keys, i, j);
    }
    assert forall i :: 0 <= i < |keys| ==> keys[i] in table.Keys;
    AnnounceHasNoRepeats(topo, link, m, table, keys);
    AnnouncesDescendants(topo, link, m, table);
    SubsetIsNotLarger(Elements(Announced(table)), topo.Below(m));
  }

  lemma SubsetIsNotLarger(a: set<int>, b: set<int>)
    requires a <= b
    ensures |a| <= |b|
  {
    if a < b {
      SubsetIsSmaller(a, b);
    } else {
      assert a == b;
    }
  }

  /** In every run, disconnects included, a register message fits its 50 slots as long as no
      matrix has more than 50 below it. */
  lemma {:induction false} RegisterFits(topo: Topo, steps: seq<Step>, m: Id)
    requires topo.Valid() && m in topo.depth && |topo.Below(m)| <= 50
    ensures m in After(topo, steps).nodes
    ensures |Announced(After(topo, steps).nodes[m].table)| <= 50
  {
    AlwaysSound(topo, steps);
    hide After, Announced;
    var s := After(topo, steps);
    assert TableOk(topo, s.link, m, s.nodes[m].table);
    AnnouncementFits(topo, s.link, m, s.nodes[m].table);
  }
}
