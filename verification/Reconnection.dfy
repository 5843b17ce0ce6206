/**
  Registration in runs with disconnects.  A re-registration keeps the connection of the entry it
  finds (src/mccresourcemanager.cpp, onRegister), so a parent that handles it before it has seen
  the old connection close loses the child when it does.  The tables describe the whole tree
  again, once all have reconnected, in the runs in which that order is never reversed.
 */
module Reconnection {
  import opened GlobalIds
  import opened Matrix
  import opened Hierarchy
  import opened Routing
  import opened Registration
  import Topology

  // ----- in every run -----

  /** Table entries are over connections the parent has not seen closed. */
  ghost predicate EntriesOpen(s: Net) {
    forall m, c :: m in s.nodes && c in s.nodes[m].table ==> s.nodes[m].table[c].fd in s.open
  }

  ghost predicate Flags(s: Net) {
    forall m :: m in s.nodes ==> (s.nodes[m].connected <==> m in s.sock)
  }

  /** No register message takes its sender off the table. */
  ghost predicate Lasting(s: Net) {
    forall fd, msg :: fd in s.ups && msg in s.ups[fd] && msg.Reg? ==> msg.reg.expire > 0
  }

  ghost predicate Plain(topo: Topo, s: Net) {
    match Sound(topo, s)
    case false => false
    case true => EntriesOpen(s) && Flags(s) && Lasting(s)
  }

  lemma {:induction false} SameKeepsPlain(topo: Topo, s: Net, s': Net)
    requires Plain(topo, s) && Sound(topo, s') && SameRegistrations(s, s')
    ensures Plain(topo, s')
  {
    hide Sound, LastReg;
    forall fd, msg | fd in s'.ups && msg in s'.ups[fd] && msg.Reg? ensures msg.reg.expire > 0 {
      assert fd in s.ups && msg in s.ups[fd];
    }
  }

  lemma {:induction false} ConnectKeepsPlain(topo: Topo, s: Net, c: Id, fd: int)
    requires Plain(topo, s) && CanConnect(topo, s, c, fd)
    ensures Plain(topo, DoConnect(s, c, fd))
  {
    hide Sound, DoConnect, BuildRegister;
    ConnectKeepsSound(topo, s, c, fd);
    var s' := DoConnect(s, c, fd);
    ConnectEffect(s, c, fd);
    forall f, msg | f in s'.ups && msg in s'.ups[f] && msg.Reg? ensures msg.reg.expire > 0 {
      if f != fd { assert f in s.ups && msg in s.ups[f]; }
    }
  }

  lemma {:induction false} ClientGoneKeepsPlain(topo: Topo, s: Net, c: Id)
    requires Plain(topo, s) && CanClientGone(s, c)
    ensures Plain(topo, DoClientGone(s, c))
  {
    ClientGoneKeepsSound(topo, s, c);
    hide Sound;
  }

  lemma {:induction false} ServerGoneKeepsPlain(topo: Topo, s: Net, fd: int)
    requires Plain(topo, s) && CanServerGone(topo, s, fd)
    ensures Plain(topo, DoServerGone(topo, s, fd))
  {
    hide Sound, EntriesOpen;
    ServerGoneKeepsSound(topo, s, fd);
    ClosingKeepsOpen(topo, s, fd);
    var s' := DoServerGone(topo, s, fd);
    forall f, msg | f in s'.ups && msg in s'.ups[f] && msg.Reg? ensures msg.reg.expire > 0 {
      assert f in s.ups && msg in s.ups[f];
    }
  }

  lemma {:induction false} ClosingKeepsOpen(topo: Topo, s: Net, fd: int)
    requires Plain(topo, s) && CanServerGone(topo, s, fd)
    ensures EntriesOpen(DoServerGone(topo, s, fd))
  {
    hide Flags, Lasting, Registers;
    var s', p := DoServerGone(topo, s, fd), topo.parent[s.link[fd]];
    forall m, c | m in s'.nodes && c in s'.nodes[m].table ensures s'.nodes[m].table[c].fd in s'.open {
      assert c in s.nodes[m].table && s'.nodes[m].table[c] == s.nodes[m].table[c];
      assert TableOk(topo, s.link, m, s.nodes[m].table);
      assert EntryOk(topo, s.link, m, c, s.nodes[m].table[c]);
    }
  }

  lemma SoundShape(topo: Topo, s: Net)
    requires Sound(topo, s)
    ensures Shape(topo, s) && Tables(topo, s) && Registers(topo, s)
  {}

  lemma {:induction false} RegisterKeepsPlain(topo: Topo, s: Net, fd: int)
    requires Plain(topo, s) && CanRecvUp(topo, s, fd) && s.ups[fd][0].Reg?
    ensures Plain(topo, DoRegister(topo, s, fd))
  {
    hide Sound, Shape, Tables, Registers, Registered, BuildRegister, DoRegister, EntriesOpen, Lasting;
    RegisterKeepsSound(topo, s, fd);
    SoundShape(topo, s);
    RegisterEffect(topo, s, fd);
    var s', p := DoRegister(topo, s, fd), topo.parent[s.link[fd]];
    RegisterLasts(s'.nodes[p]);
    RegistrationsLast(s, s', fd, if PassesOn(s, p) then s.sock[p] else fd, BuildRegister(s'.nodes[p]));
    RegistrationsAreOpen(s, s', p, fd, s.ups[fd][0].reg);
  }

  lemma {:induction false} RegistrationsLast(s: Net, s': Net, fd: int, to: int, reg: Register)
    requires Lasting(s) && fd in s.ups && s.ups[fd] != [] && to in s.ups && reg.expire > 0
    requires var popped := s.ups[fd := s.ups[fd][1..]];
      s'.ups == if to != fd then popped[to := s.ups[to] + [Reg(reg)]] else popped
    ensures Lasting(s') && (s.ups[fd][0].Reg? ==> s.ups[fd][0].reg.expire > 0)
  {
    assert s.ups[fd][0] in s.ups[fd];
    forall f, msg | f in s'.ups && msg in s'.ups[f] && msg.Reg? ensures msg.reg.expire > 0 {
      assert msg in s.ups[f] || msg == Reg(reg);
    }
  }

  lemma {:induction false} RegistrationsAreOpen(s: Net, s': Net, p: Id, fd: int, reg: Register)
    requires EntriesOpen(s) && fd in s.open && p in s.nodes && reg.expire > 0
    requires s'.nodes == s.nodes[p := s.nodes[p].(table := Registered(s.nodes[p].table, fd, reg))] && s'.open == s.open
    ensures EntriesOpen(s')
  {
    RegisteredEntries(s.nodes[p].table, fd, reg);
    hide Registered;
    forall m, c | m in s'.nodes && c in s'.nodes[m].table ensures s'.nodes[m].table[c].fd in s'.open {
      assert c in s.nodes[m].table ==> s.nodes[m].table[c].fd in s.open;
    }
  }

  lemma {:induction false} NextKeepsPlain(topo: Topo, s: Net, step: Step)
    requires Plain(topo, s)
    ensures Plain(topo, Next(topo, s, step))
  {
    hide Sound, EntriesOpen, Flags, Lasting, SameRegistrations;
    hide DoConnect, DoClientGone, DoServerGone, DoRegister, DoResponse, DoRequest, DoSwitch;
    NextKeepsSound(topo, s, step);
    match step
    case Connect(c, fd) => if CanConnect(topo, s, c, fd) { ConnectKeepsPlain(topo, s, c, fd); }
    case ClientGone(c) => if CanClientGone(s, c) { ClientGoneKeepsPlain(topo, s, c); }
    case ServerGone(fd) => if CanServerGone(topo, s, fd) { ServerGoneKeepsPlain(topo, s, fd); }
    case RecvUp(fd) =>
      if CanRecvUp(topo, s, fd) {
        if s.ups[fd][0].Reg? {
          RegisterKeepsPlain(topo, s, fd);
        } else {
          ResponseIsSame(topo, s, fd);
          SameKeepsPlain(topo, s, DoResponse(topo, s, fd));
        }
      }
    case RecvDown(fd, granted, found, outport) =>
      if CanRecvDown(s, fd) {
        RequestIsSame(s, fd, granted, found, outport);
        SameKeepsPlain(topo, s, DoRequest(s, fd, granted, found, outport));
      }
    case Switch(m, keyboard, camera, id) =>
      if CanSwitch(s, m, camera, id) {
        SwitchIsSame(s, m, keyboard, camera, id);
        SameKeepsPlain(topo, s, DoSwitch(s, m, keyboard, camera, id));
      }
  }

  lemma {:induction false} AlwaysPlain(topo: Topo, steps: seq<Step>)
    requires topo.Valid()
    ensures Plain(topo, After(topo, steps))
  {
    hide Next;
    if steps == [] {
      AlwaysSound(topo, steps);
    } else {
      AlwaysPlain(topo, steps[..|steps| - 1]);
      NextKeepsPlain(topo, After(topo, steps[..|steps| - 1]), steps[|steps| - 1]);
    }
  }

  // ----- in runs that never register over an older connection -----

  /** The parent holds, over this connection, at least what `c` has in its own table, or is about
      to learn it. */
  ghost predicate Informed(fd: int, up: seq<UpMsg>, table: map<int, MatrixInfo>, c: Id, own: set<int>) {
    match LastReg(up)
    case Some(reg) => own <= Elements(reg.children)
    case None => c in table && table[c].fd == fd && own <= table[c].childset
  }

  /** So it is for every child whose connection is whole. */
  ghost predicate Heard(topo: Topo, s: Net, c: Id)
    requires Shape(topo, s)
  {
    c in s.sock && s.sock[c] in s.open ==>
      Informed(s.sock[c], s.ups[s.sock[c]], s.nodes[topo.parent[c]].table, c, Elements(Announced(s.nodes[c].table)))
  }

  ghost predicate AllHeard(topo: Topo, s: Net) {
    match Plain(topo, s)
    case false => false
    case true => forall c :: c in topo.parent ==> Heard(topo, s, c)
  }

  /** A register message is handled only when the table has no entry for its sender over another
      connection: the old one was seen to close first. */
  ghost predicate InTurn(topo: Topo, s: Net, step: Step) {
    step.RecvUp? && CanRecvUp(topo, s, step.fd) && s.ups[step.fd][0].Reg? ==>
      var c, table := s.link[step.fd], s.nodes[topo.parent[s.link[step.fd]]].table;
      c in table ==> table[c].fd == step.fd
  }

  lemma {:induction false} SameKeepsHeard(topo: Topo, s: Net, s': Net, c: Id)
    requires Shape(topo, s) && Shape(topo, s') && SameRegistrations(s, s') && c in topo.parent && Heard(topo, s, c)
    ensures Heard(topo, s', c)
  {
    hide Announced;
    topo.ParentIsAbove(c);
    if c in s.sock {
      var p, fd := topo.parent[c], s.sock[c];
      assert c in s.nodes && p in s.nodes;
      assert s'.nodes[c].table == s.nodes[c].table && s'.nodes[p].table == s.nodes[p].table;
      assert fd in s.ups;
      assert LastReg(s'.ups[fd]) == LastReg(s.ups[fd]);
    }
  }

  lemma {:induction false} ConnectKeepsHeard(topo: Topo, s: Net, c: Id, fd: int, x: Id)
    requires Shape(topo, s) && CanConnect(topo, s, c, fd) && Shape(topo, DoConnect(s, c, fd))
    requires x in topo.parent && Heard(topo, s, x)
    ensures Heard(topo, DoConnect(s, c, fd), x)
  {
    hide Announced;
    var s' := DoConnect(s, c, fd);
    if x == c {
      assert LastReg(s'.ups[fd]) == Some(s'.ups[fd][0].reg);
    }
  }

  lemma {:induction false} ClientGoneKeepsHeard(topo: Topo, s: Net, c: Id, x: Id)
    requires Shape(topo, s) && CanClientGone(s, c) && Shape(topo, DoClientGone(s, c))
    requires x in topo.parent && Heard(topo, s, x)
    ensures Heard(topo, DoClientGone(s, c), x)
  {
    hide Announced, LastReg;
  }

  /** Taking entries away takes away announcements. */
  lemma {:induction false} FewerEntries(table: map<int, MatrixInfo>, table': map<int, MatrixInfo>)
    requires forall c :: c in table' ==> c in table && table'[c] == table[c]
    ensures Elements(Announced(table')) <= Elements(Announced(table))
  {
    hide Announced;
    forall x | x in Elements(Announced(table')) ensures x in Elements(Announced(table)) {
      AnnouncedAreServed(table', x);
      AnnouncedAreServed(table, x);
    }
  }

  lemma {:induction false} ServerGoneKeepsHeard(topo: Topo, s: Net, fd: int, x: Id)
    requires Shape(topo, s) && CanServerGone(topo, s, fd) && Shape(topo, DoServerGone(topo, s, fd))
    requires x in topo.parent && Heard(topo, s, x)
    ensures Heard(topo, DoServerGone(topo, s, fd), x)
  {
    hide Announced, LastReg;
    var s' := DoServerGone(topo, s, fd);
    topo.ParentIsAbove(x);
    FewerEntries(s.nodes[x].table, s'.nodes[x].table);
  }

  /** The child whose message is handled. */
  lemma {:induction false} SenderIsHeard(fd: int, sock: int, up: seq<UpMsg>, mine: seq<UpMsg>, table: map<int, MatrixInfo>, c: Id, own: set<int>)
    requires up != [] && up[0].Reg? && up[0].reg.from == c && up[0].reg.expire > 0
    requires c in table ==> table[c].fd == fd
    requires sock == fd ==> mine == up
    requires Informed(sock, mine, table, c, own)
    ensures Informed(sock, if sock == fd then up[1..] else mine, Registered(table, fd, up[0].reg), c, own)
  {
    LastRegTail(up);
  }

  lemma {:induction false} RegisterKeepsHeard(topo: Topo, s: Net, fd: int, x: Id)
    requires Plain(topo, s) && CanRecvUp(topo, s, fd) && s.ups[fd][0].Reg? && Sound(topo, DoRegister(topo, s, fd))
    requires InTurn(topo, s, RecvUp(fd))
    requires x in topo.parent && Heard(topo, s, x)
    ensures Heard(topo, DoRegister(topo, s, fd), x)
  {
    hide DoRegister, Registered, BuildRegister, Announced, Informed, LastReg, Elements;
    var c, p, s' := s.link[fd], topo.parent[s.link[fd]], DoRegister(topo, s, fd);
    RegisterEffect(topo, s, fd);
    PopUpKeepsRegisters(topo, s, fd);
    topo.ParentIsAbove(c);
    topo.ParentIsAbove(x);
    assert s.ups[fd][0] in s.ups[fd] && s.nodes[p].id == p && (s.nodes[p].connected <==> p in s.sock);
    assert x in s.sock ==> s.sock[x] in s.ups && s.link[s.sock[x]] == x;
    hide Plain, Sound, Shape, Tables, Registers;
    RegisteredEntries(s.nodes[p].table, fd, s.ups[fd][0].reg);
    if x in s.sock && s.sock[x] in s.open {
      if x == c {
        SenderIsHeard(fd, s.sock[c], s.ups[fd], s.ups[s.sock[c]], s.nodes[p].table, c, Elements(Announced(s.nodes[c].table)));
      } else if x == p {
        assert PassesOn(s, p);
        LastRegAppend(s.ups[s.sock[p]], Reg(BuildRegister(s'.nodes[p])));
        JustAnnounced(s.sock[p], s'.ups[s.sock[p]], s'.nodes[topo.parent[p]].table, s'.nodes[p]);
      } else {
        BystanderIsHeard(s.sock[x], s.ups[s.sock[x]], s.nodes[topo.parent[x]].table, s'.nodes[topo.parent[x]].table, x,
                         Elements(Announced(s.nodes[x].table)));
      }
    }
  }

  lemma JustAnnounced(fd: int, up: seq<UpMsg>, table: map<int, MatrixInfo>, st: State)
    requires LastReg(up) == Some(BuildRegister(st))
    ensures Informed(fd, up, table, st.id, Elements(Announced(st.table)))
  {
    hide Announced;
  }

  lemma BystanderIsHeard(fd: int, up: seq<UpMsg>, table: map<int, MatrixInfo>, table': map<int, MatrixInfo>, x: Id, own: set<int>)
    requires Informed(fd, up, table, x, own) && (x in table ==> x in table' && table'[x] == table[x])
    ensures Informed(fd, up, table', x, own)
  {}

  lemma {:induction false} NextKeepsHeard(topo: Topo, s: Net, step: Step, x: Id)
    requires AllHeard(topo, s) && InTurn(topo, s, step) && x in topo.parent && Sound(topo, Next(topo, s, step))
    ensures Heard(topo, Next(topo, s, step), x)
  {
    hide Heard, EntriesOpen, Flags, Lasting, SameRegistrations, Tables, Registers;
    hide DoConnect, DoClientGone, DoServerGone, DoRegister, DoResponse, DoRequest, DoSwitch;
    match step
    case Connect(c, fd) => if CanConnect(topo, s, c, fd) { ConnectKeepsHeard(topo, s, c, fd, x); }
    case ClientGone(c) => if CanClientGone(s, c) { ClientGoneKeepsHeard(topo, s, c, x); }
    case ServerGone(fd) => if CanServerGone(topo, s, fd) { ServerGoneKeepsHeard(topo, s, fd, x); }
    case RecvUp(fd) =>
      if CanRecvUp(topo, s, fd) {
        if s.ups[fd][0].Reg? {
          RegisterKeepsHeard(topo, s, fd, x);
        } else {
          ResponseIsSame(topo, s, fd);
          SameKeepsHeard(topo, s, DoResponse(topo, s, fd), x);
        }
      }
    case RecvDown(fd, granted, found, outport) =>
      if CanRecvDown(s, fd) {
        RequestIsSame(s, fd, granted, found, outport);
        SameKeepsHeard(topo, s, DoRequest(s, fd, granted, found, outport), x);
      }
    case Switch(m, keyboard, camera, id) =>
      if CanSwitch(s, m, camera, id) {
        SwitchIsSame(s, m, keyboard, camera, id);
        SameKeepsHeard(topo, s, DoSwitch(s, m, keyboard, camera, id), x);
      }
  }

  ghost predicate OrderlyReconnects(topo: Topo, steps: seq<Step>) {
    forall i :: 0 <= i < |steps| ==> InTurn(topo, After(topo, steps[..i]), steps[i])
  }

  lemma {:induction false} AlwaysHeard(topo: Topo, steps: seq<Step>)
    requires topo.Valid() && OrderlyReconnects(topo, steps)
    ensures AllHeard(topo, After(topo, steps))
  {
    AlwaysPlain(topo, steps);
    if steps != [] {
      hide Next, InTurn, Heard, After, EntriesOpen, Flags, Lasting, Sound;
      var n := |steps| - 1;
      var before := steps[..n];
      forall i | 0 <= i < |before| ensures InTurn(topo, After(topo, before[..i]), before[i]) {
        assert before[..i] == steps[..i];
      }
      AlwaysHeard(topo, before);
      LastStep(topo, steps);
      forall c | c in topo.parent ensures Heard(topo, After(topo, steps), c) {
        NextKeepsHeard(topo, After(topo, before), steps[n], c);
      }
    }
  }

  lemma LastStep(topo: Topo, steps: seq<Step>)
    requires steps != []
    ensures After(topo, steps) == Next(topo, After(topo, steps[..|steps| - 1]), steps[|steps| - 1])
  {}

  // ----- completeness -----

  /** Every matrix but the root has a whole connection, and no register message is under way. */
  ghost predicate Reconnected(topo: Topo, s: Net) {
    Quiescent(topo, s) && forall c :: c in topo.parent && c in s.sock ==> s.sock[c] in s.open
  }

  lemma {:induction false} ParentHolds(topo: Topo, s: Net, c: Id)
    requires AllHeard(topo, s) && Reconnected(topo, s) && c in topo.parent
    ensures KnownAbove(topo, s, c) && c in s.sock && s.nodes[topo.parent[c]].table[c].fd == s.sock[c]
  {
    hide Announced;
    var fd := s.sock[c];
    topo.ParentIsAbove(c);
    assert fd in s.ups && Heard(topo, s, c);
    LastRegNone(s.ups[fd]);
  }

  /** With disconnects and reconnections in any number: when every matrix has a whole connection
      and no register message is under way, the tables describe the whole tree, and every entry is
      over the connection its child has. */
  lemma {:induction false} TablesCompleteAfterReconnects(topo: Topo, steps: seq<Step>, p: Id)
    requires topo.Valid() && OrderlyReconnects(topo, steps) && Reconnected(topo, After(topo, steps)) && p in topo.depth
    ensures var s := After(topo, steps);
      Complete(topo, s, p) && forall c :: c in s.nodes[p].table ==> c in s.sock && s.nodes[p].table[c].fd == s.sock[c]
  {
    AlwaysHeard(topo, steps);
    AlwaysSound(topo, steps);
    hide After, Sound, Reconnected, AllHeard, KnownAbove;
    var s := After(topo, steps);
    forall c | c in topo.parent ensures KnownAbove(topo, s, c) {
      ParentHolds(topo, s, c);
    }
    KnownAboveIsComplete(topo, s, p);
    forall c | c in s.nodes[p].table ensures c in s.sock && s.nodes[p].table[c].fd == s.sock[c] {
      assert topo.IsChild(c, p);
      ParentHolds(topo, s, c);
    }
  }

  /** Runs without disconnects are among them. */
  lemma {:induction false} NoDisconnectsAreInTurn(topo: Topo, steps: seq<Step>)
    requires topo.Valid() && NoDisconnects(steps)
    ensures OrderlyReconnects(topo, steps)
  {
    hide After;
    forall i | 0 <= i < |steps| ensures InTurn(topo, After(topo, steps[..i]), steps[i]) {
      AlwaysSteady(topo, steps[..i]);
      SteadyIsInTurn(topo, After(topo, steps[..i]), steps[i]);
    }
  }

  lemma {:induction false} SteadyIsInTurn(topo: Topo, s: Net, step: Step)
    requires Steady(topo, s)
    ensures InTurn(topo, s, step)
  {
    if step.RecvUp? && CanRecvUp(topo, s, step.fd) {
      var c, p := s.link[step.fd], topo.parent[s.link[step.fd]];
      if c in s.nodes[p].table {
        assert TableOk(topo, s.link, p, s.nodes[p].table);
        assert EntryOk(topo, s.link, p, c, s.nodes[p].table[c]);
      }
    }
  }

  // ----- and otherwise -----

  /** A connection the child has given up and the parent has not yet seen closed. */
  predicate Stale(s: Net, fd: int) {
    fd in s.open && fd in s.link && !(s.link[fd] in s.sock && s.sock[s.link[fd]] == fd)
  }

  /** Entries for connected children are over the connections they have. */
  ghost predicate OverOwnConnections(s: Net) {
    forall p, c :: p in s.nodes && c in s.nodes[p].table && c in s.sock ==> s.nodes[p].table[c].fd == s.sock[c]
  }

  ghost predicate KeepsConnected(s: Net, s': Net) {
    forall p, c :: p in s.nodes && c in s.nodes[p].table && c in s.sock ==> p in s'.nodes && c in s'.nodes[p].table
  }

  /** In every reachable state, seeing old connections closed loses no connected child if and only
      if every connected child is registered over the connection it has now. */
  lemma {:induction false} ClosingLosesNobodyIff(topo: Topo, steps: seq<Step>)
    requires topo.Valid()
    ensures var s := After(topo, steps);
      (forall fd :: Stale(s, fd) ==> KeepsConnected(s, Next(topo, s, ServerGone(fd)))) <==> OverOwnConnections(s)
  {
    AlwaysPlain(topo, steps);
    hide After;
    var s := After(topo, steps);
    if !OverOwnConnections(s) {
      var p, c :| p in s.nodes && c in s.nodes[p].table && c in s.sock && s.nodes[p].table[c].fd != s.sock[c];
      var fd := s.nodes[p].table[c].fd;
      assert TableOk(topo, s.link, p, s.nodes[p].table);
      assert EntryOk(topo, s.link, p, c, s.nodes[p].table[c]);
      assert Stale(s, fd);
      assert c !in Next(topo, s, ServerGone(fd)).nodes[p].table;
    } else {
      forall fd | Stale(s, fd) ensures KeepsConnected(s, Next(topo, s, ServerGone(fd))) {
        ClosingKeepsConnected(topo, s, fd);
      }
    }
  }

  lemma {:induction false} ClosingKeepsConnected(topo: Topo, s: Net, fd: int)
    requires Plain(topo, s) && OverOwnConnections(s) && Stale(s, fd)
    ensures KeepsConnected(s, Next(topo, s, ServerGone(fd)))
  {
    var s' := Next(topo, s, ServerGone(fd));
    forall p, c | p in s.nodes && c in s.nodes[p].table && c in s.sock ensures p in s'.nodes && c in s'.nodes[p].table {
      assert TableOk(topo, s.link, p, s.nodes[p].table);
      assert EntryOk(topo, s.link, p, c, s.nodes[p].table[c]);
    }
  }

  lemma NextOf(topo: Topo, steps: seq<Step>, step: Step)
    ensures After(topo, steps + [step]) == Next(topo, After(topo, steps), step)
  {
    assert (steps + [step])[..|steps|] == steps;
  }

  /** `c` has given up its connection and made another, on which its registration waits. */
  ghost predicate Rejoined(s: Net, s': Net, c: Id, fd: int) {
    && s'.nodes.Keys == s.nodes.Keys
    && (forall m :: m in s.nodes ==> s'.nodes[m].table == s.nodes[m].table && s'.nodes[m].id == s.nodes[m].id)
    && s'.link == s.link[fd := c] && s'.open == s.open + {fd} && s'.sock == s.sock[c := fd]
    && c in s.nodes && s'.ups == s.ups[fd := [Reg(BuildRegister(s.nodes[c]))]]
  }

  lemma CanLeave(topo: Topo, s: Net, c: Id)
    requires Plain(topo, s) && c in s.sock
    ensures CanClientGone(s, c) && c in topo.parent && c in s.nodes
  {}

  lemma {:induction false} RejoinsOnNewConnection(topo: Topo, s: Net, c: Id, fd: int)
    requires Plain(topo, s) && c in s.sock && fd !in s.link
    ensures CanClientGone(s, c)
    ensures var s1 := DoClientGone(s, c);
      CanConnect(topo, s1, c, fd) && Rejoined(s, DoConnect(s1, c, fd), c, fd)
  {
    CanLeave(topo, s, c);
    hide Plain, DoClientGone, DoConnect, BuildRegister, CanClientGone, Rejoined;
    GoneEffect(s, c);
    ConnectEffect(DoClientGone(s, c), c, fd);
    RejoinedByParts(s, DoClientGone(s, c), DoConnect(DoClientGone(s, c), c, fd), c, fd);
  }

  lemma {:induction false} RejoinedByParts(s: Net, s1: Net, s': Net, c: Id, fd: int)
    requires c in s.nodes && s1.nodes == s.nodes[c := s.nodes[c].(connected := false)]
    requires s1.link == s.link && s1.open == s.open && s1.sock == s.sock - {c} && s1.ups == s.ups
    requires s'.nodes == s1.nodes[c := s1.nodes[c].(connected := true)]
    requires s'.link == s1.link[fd := c] && s'.open == s1.open + {fd} && s'.sock == s1.sock[c := fd]
    requires s'.ups == s1.ups[fd := [Reg(BuildRegister(s1.nodes[c]))]]
    ensures Rejoined(s, s', c, fd)
  {
    hide Announced;
    assert s'.sock == s.sock[c := fd];
    assert BuildRegister(s1.nodes[c]) == BuildRegister(s.nodes[c]);
    hide BuildRegister;
  }

  /** When the parent handles the new registration, the entry stays over the old connection. */
  lemma {:induction false} KeepsOldEntry(topo: Topo, s: Net, s2: Net, c: Id, fd: int)
    requires Plain(topo, s) && c in s.sock && fd !in s.link && Rejoined(s, s2, c, fd) && Plain(topo, s2)
    requires c in s.nodes[topo.parent[c]].table
    ensures CanRecvUp(topo, s2, fd) && s2.ups[fd][0].Reg?
    ensures HeldOverOld(s, DoRegister(topo, s2, fd), topo.parent[c], c, fd)
  {
    var p := topo.parent[c];
    NewMessageWaits(topo, s, s2, c, fd);
    hide Plain, Shape, DoRegister, CanRecvUp, HeldOverOld, Rejoined, Registered, BuildRegister;
    RegisterEffect(topo, s2, fd);
    HeldByParts(s, s2, DoRegister(topo, s2, fd), p, c, fd);
  }

  lemma {:induction false} NewMessageWaits(topo: Topo, s: Net, s2: Net, c: Id, fd: int)
    requires Plain(topo, s) && c in s.sock && fd !in s.link && Rejoined(s, s2, c, fd) && Plain(topo, s2)
    ensures Shape(topo, s2) && CanRecvUp(topo, s2, fd) && s2.link[fd] == c && topo.parent[c] in s.nodes && topo.parent[c] != c
    ensures s2.ups[fd] == [Reg(BuildRegister(s.nodes[c]))] && s.nodes[c].id == c && s.ups.Keys == s.link.Keys
  {
    hide BuildRegister, EntriesOpen, Flags, Lasting, Tables, Registers;
    topo.ParentIsAbove(c);
  }

  lemma {:induction false} HeldByParts(s: Net, s2: Net, s3: Net, p: Id, c: Id, fd: int)
    requires Rejoined(s, s2, c, fd) && fd !in s.link && p in s.nodes && c in s.nodes[p].table
    requires s.nodes[c].id == c && s.ups.Keys == s.link.Keys && s2.ups[fd] == [Reg(BuildRegister(s.nodes[c]))]
    requires s3.nodes == s2.nodes[p := s2.nodes[p].(table := Registered(s2.nodes[p].table, fd, s2.ups[fd][0].reg))]
    requires s3.link == s2.link && s3.open == s2.open && s3.sock == s2.sock
    requires PassesOn(s2, p) ==> s2.sock[p] in s2.ups && s2.sock[p] != fd
    requires var popped := s2.ups[fd := s2.ups[fd][1..]];
      s3.ups == if PassesOn(s2, p) then popped[s2.sock[p] := s2.ups[s2.sock[p]] + [Reg(BuildRegister(s3.nodes[p]))]] else popped
    requires p != c
    ensures HeldOverOld(s, s3, p, c, fd)
  {
    hide Registered, BuildRegister;
    RegisterLasts(s.nodes[c]);
    RegisteredEntries(s2.nodes[p].table, fd, s2.ups[fd][0].reg);
  }

  /** The registration on the new connection was read, and the entry is the one of the old. */
  ghost predicate HeldOverOld(s: Net, s': Net, p: Id, c: Id, fd: int) {
    && p in s.nodes && c in s.nodes[p].table
    && p in s'.nodes && c in s'.nodes[p].table && s'.nodes[p].table[c].fd == s.nodes[p].table[c].fd
    && s'.open == s.open + {fd} && s'.link == s.link[fd := c] && s'.sock == s.sock[c := fd]
    && s'.ups.Keys == s'.link.Keys && s'.ups[fd] == []
    && (p !in s.sock ==> forall f :: f in s.ups ==> f in s'.ups && s'.ups[f] == s.ups[f])
  }

  /** The four steps in which a registered child is lost. */
  lemma {:induction false} FourStepsLose(topo: Topo, s: Net, p: Id, c: Id, fd: int)
    requires Plain(topo, s) && c in s.sock && fd !in s.link && topo.IsChild(c, p) && p in s.nodes && c in s.nodes[p].table
    ensures var s1 := Next(topo, s, ClientGone(c));
      var s2 := Next(topo, s1, Connect(c, fd));
      var s3 := Next(topo, s2, RecvUp(fd));
      Lost(topo, s, Next(topo, s3, ServerGone(s.nodes[p].table[c].fd)), p, c, fd)
  {
    hide Plain, Reconnected, DoClientGone, DoConnect, DoRegister, DoResponse, DoServerGone, Rejoined, Lost, HeldOverOld;
    OldEntry(topo, s, p, c);
    RejoinsOnNewConnection(topo, s, c, fd);
    var s1 := DoClientGone(s, c);
    var s2 := DoConnect(s1, c, fd);
    NextKeepsPlain(topo, s, ClientGone(c));
    NextKeepsPlain(topo, s1, Connect(c, fd));
    KeepsOldEntry(topo, s, s2, c, fd);
    LosesAtTheEnd(topo, s, DoRegister(topo, s2, fd), p, c, fd);
  }

  /** `c` is connected and has been heard, but its parent has no entry for it. */
  ghost predicate Lost(topo: Topo, s: Net, s': Net, p: Id, c: Id, fd: int) {
    && c in s'.sock && s'.sock[c] == fd && fd in s'.open && fd in s'.ups && s'.ups[fd] == []
    && p in s'.nodes && c !in s'.nodes[p].table
    && (p == topo.root && Reconnected(topo, s) ==> Reconnected(topo, s'))
  }

  lemma {:induction false} LosesAtTheEnd(topo: Topo, s: Net, s3: Net, p: Id, c: Id, fd: int)
    requires Plain(topo, s) && p in s.nodes && c in s.nodes[p].table && fd !in s.link && topo.IsChild(c, p)
    requires HeldOverOld(s, s3, p, c, fd)
    ensures Lost(topo, s, Next(topo, s3, ServerGone(s.nodes[p].table[c].fd)), p, c, fd)
  {
    var gone := s.nodes[p].table[c].fd;
    OldEntry(topo, s, p, c);
    hide Plain, Reconnected, DoServerGone;
    ClosedEffect(topo, s3, gone);
    assert p == topo.root && Reconnected(topo, s) ==> Reconnected(topo, DoServerGone(topo, s3, gone)) by {
      if p == topo.root && Reconnected(topo, s) {
        StillReconnected(topo, s, s3, DoServerGone(topo, s3, gone), c, fd, gone);
      }
    }
  }

  /** In every reachable state, a registered child can be lost for good: it reconnects, its parent
      handles the new registration first and the end of the old connection afterwards, and is
      left without an entry for it, although the child is connected and has been heard. */
  lemma {:induction false} LateCloseLosesTheChild(topo: Topo, steps: seq<Step>, c: Id, fd: int)
    requires topo.Valid() && c in topo.parent && c in After(topo, steps).sock && fd !in After(topo, steps).link
    requires topo.parent[c] in After(topo, steps).nodes && c in After(topo, steps).nodes[topo.parent[c]].table
    ensures var s, p := After(topo, steps), topo.parent[c];
      Lost(topo, s, After(topo, steps + [ClientGone(c), Connect(c, fd), RecvUp(fd), ServerGone(s.nodes[p].table[c].fd)]), p, c, fd)
  {
    hide After, Next, Plain, Lost;
    var s, p := After(topo, steps), topo.parent[c];
    AlwaysPlain(topo, steps);
    FourStepsLose(topo, s, p, c, fd);
    FourSteps(topo, steps, ClientGone(c), Connect(c, fd), RecvUp(fd), ServerGone(s.nodes[p].table[c].fd));
  }

  lemma OldEntry(topo: Topo, s: Net, p: Id, c: Id)
    requires Plain(topo, s) && p in s.nodes && c in s.nodes[p].table
    ensures s.nodes[p].table[c].fd in s.open && s.nodes[p].table[c].fd in s.link && s.link[s.nodes[p].table[c].fd] == c
    ensures topo.root !in s.sock && s.ups.Keys == s.link.Keys
    ensures forall x :: x in s.sock && x != c ==> s.sock[x] != s.nodes[p].table[c].fd
  {
    assert EntryOk(topo, s.link, p, c, s.nodes[p].table[c]);
  }

  lemma StillReconnected(topo: Topo, s: Net, s3: Net, s': Net, c: Id, fd: int, gone: int)
    requires Reconnected(topo, s) && fd != gone
    requires s3.open == s.open + {fd} && s3.sock == s.sock[c := fd] && fd in s3.ups && s3.ups[fd] == []
    requires s3.ups.Keys == s.ups.Keys + {fd} && forall f :: f in s.ups ==> s3.ups[f] == s.ups[f]
    requires s'.open == s3.open - {gone} && s'.sock == s3.sock && s'.ups == s3.ups[gone := []]
    requires forall x :: x in s.sock && x != c ==> s.sock[x] != gone
    ensures Reconnected(topo, s')
  {}

  lemma FourSteps(topo: Topo, steps: seq<Step>, a: Step, b: Step, c: Step, d: Step)
    ensures After(topo, steps + [a, b, c, d])
         == Next(topo, Next(topo, Next(topo, Next(topo, After(topo, steps), a), b), c), d)
  {
    hide Next;
    NextOf(topo, steps, a);
    NextOf(topo, steps + [a], b);
    NextOf(topo, steps + [a] + [b], c);
    NextOf(topo, steps + [a] + [b] + [c], d);
    assert steps + [a] + [b] + [c] + [d] == steps + [a, b, c, d];
  }
}
