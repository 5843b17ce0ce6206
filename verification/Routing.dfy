/**
  Routing soundness: in every run, with connections coming and going, tables and register
  messages name only true descendants, so requests only ever move towards their target.
 */
module Routing {
  import opened GlobalIds
  import opened Matrix
  import opened Hierarchy
  import Topology

  // ----- registrations -----

  ghost predicate Shape(topo: Topo, s: Net) {
    && topo.Valid()
    && s.nodes.Keys == topo.depth.Keys
    && (forall m :: m in s.nodes ==> s.nodes[m].id == m && (s.nodes[m].level == 0 <==> m == topo.root))
    && s.ups.Keys == s.link.Keys && s.downs.Keys == s.link.Keys && s.open <= s.link.Keys
    && (forall fd :: fd in s.link ==> s.link[fd] in topo.parent)
    && (forall c :: c in s.sock ==> c in topo.parent && s.sock[c] in s.link && s.link[s.sock[c]] == c)
  }

  /** A table entry of `m` is one of its children, over a connection of that child, and
      announces only what is below the child. */
  ghost predicate EntryOk(topo: Topo, link: map<int, Id>, m: Id, c: Id, info: MatrixInfo)
    requires topo.Valid()
  {
    && topo.IsChild(c, m) && info.id == c && info.childset <= topo.Below(c)
    && info.fd in link && link[info.fd] == c
  }

  ghost predicate TableOk(topo: Topo, link: map<int, Id>, m: Id, table: map<int, MatrixInfo>)
    requires topo.Valid()
  {
    forall c :: c in table ==> EntryOk(topo, link, m, c, table[c])
  }

  ghost predicate Tables(topo: Topo, s: Net)
    requires topo.Valid()
  {
    forall m :: m in s.nodes ==> TableOk(topo, s.link, m, s.nodes[m].table)
  }

  ghost predicate RegOk(topo: Topo, c: Id, msg: UpMsg)
    requires topo.Valid()
  {
    msg.Reg? ==> msg.reg.from == c && Elements(msg.reg.children) <= topo.Below(c)
  }

  ghost predicate Registers(topo: Topo, s: Net)
    requires Shape(topo, s)
  {
    forall fd, msg :: fd in s.link && msg in s.ups[fd] ==> RegOk(topo, s.link[fd], msg)
  }

  ghost predicate Sound(topo: Topo, s: Net) {
    match Shape(topo, s)
    case false => false
    case true => Tables(topo, s) && Registers(topo, s)
  }

  /** What a sound table announces lies below its matrix. */
  lemma AnnouncesDescendants(topo: Topo, link: map<int, Id>, m: Id, table: map<int, MatrixInfo>)
    requires topo.Valid() && TableOk(topo, link, m, table)
    ensures Elements(Announced(table)) <= topo.Below(m)
  {
    forall x | x in Elements(Announced(table)) ensures x in topo.Below(m) {
      AnnouncedAreServed(table, x);
      var k :| k in table && Serves(table[k], x);
      assert EntryOk(topo, link, m, k, table[k]);
      topo.ChildIsBelow(k, m);
    }
  }

  /** At most one child leads to a target, whatever order the table is searched in. */
  lemma OnlyOneChildServes(topo: Topo, link: map<int, Id>, m: Id, table: map<int, MatrixInfo>, target: Id, k: Id, k': Id)
    requires topo.Valid() && TableOk(topo, link, m, table)
    requires k in table && k' in table && Serves(table[k], target) && Serves(table[k'], target)
    ensures k == k'
  {
    assert EntryOk(topo, link, m, k, table[k]) && EntryOk(topo, link, m, k', table[k']);
    assert topo.Desc(k, target) && topo.Desc(k', target);
    topo.SiblingsAreApart(k, k', target);
  }

  /** A match is a child of the matrix, over a connection of that child, and the target is the
      child or below it. */
  lemma MatchLeadsDown(topo: Topo, link: map<int, Id>, m: Id, table: map<int, MatrixInfo>, target: Id)
    requires topo.Valid() && TableOk(topo, link, m, table) && MatchMatrix(table, target).Some?
    ensures var info := MatchMatrix(table, target).value;
      topo.IsChild(info.id, m) && topo.Desc(info.id, target) && info.fd in link && link[info.fd] == info.id
  {}

  lemma RegisteredIsOk(topo: Topo, link: map<int, Id>, m: Id, table: map<int, MatrixInfo>, fd: int, reg: Register)
    requires topo.Valid() && TableOk(topo, link, m, table)
    requires fd in link && topo.IsChild(link[fd], m) && RegOk(topo, link[fd], Reg(reg))
    ensures TableOk(topo, link, m, Registered(table, fd, reg))
  {}

  // Sending and receiving on the child-to-parent side.

  lemma PushUpKeepsRegisters(topo: Topo, s: Net, c: Id, msg: UpMsg)
    requires Shape(topo, s) && Registers(topo, s)
    requires c in s.sock ==> RegOk(topo, c, msg)
    ensures var s' := PushUp(s, c, msg); Shape(topo, s') && Registers(topo, s')
  {}

  lemma PopUpKeepsRegisters(topo: Topo, s: Net, fd: int)
    requires Shape(topo, s) && Registers(topo, s) && fd in s.link && s.ups[fd] != []
    ensures Shape(topo, PopUp(s, fd)) && Registers(topo, PopUp(s, fd))
    ensures RegOk(topo, s.link[fd], s.ups[fd][0])
  {}

  /** Replacing one node by one with the same id and level and a good table. */
  lemma SetNodeKeepsSound(topo: Topo, s: Net, m: Id, st: State)
    requires Sound(topo, s) && m in s.nodes && st.id == m && st.level == s.nodes[m].level
    requires TableOk(topo, s.link, m, st.table)
    ensures Sound(topo, SetNode(s, m, st))
  {}

  lemma {:induction false} AddLinkKeepsSound(topo: Topo, s: Net, c: Id, fd: int, msg: UpMsg)
    requires Sound(topo, s) && c in topo.parent && fd !in s.link && RegOk(topo, c, msg)
    ensures Sound(topo, AddLink(s, c, fd, msg))
  {
    AddLinkShape(topo, s, c, fd, msg);
    AddLinkTables(topo, s, c, fd, msg);
    AddLinkRegisters(topo, s, c, fd, msg);
  }

  lemma {:induction false} AddLinkShape(topo: Topo, s: Net, c: Id, fd: int, msg: UpMsg)
    requires Shape(topo, s) && c in topo.parent && fd !in s.link
    ensures Shape(topo, AddLink(s, c, fd, msg))
  {
    var s' := AddLink(s, c, fd, msg);
    assert s'.ups.Keys == s'.link.Keys == s'.downs.Keys;
  }

  lemma AddLinkTables(topo: Topo, s: Net, c: Id, fd: int, msg: UpMsg)
    requires topo.Valid() && Tables(topo, s) && fd !in s.link
    ensures Tables(topo, AddLink(s, c, fd, msg))
  {}

  lemma AddLinkRegisters(topo: Topo, s: Net, c: Id, fd: int, msg: UpMsg)
    requires Shape(topo, s) && Registers(topo, s) && c in topo.parent && fd !in s.link && RegOk(topo, c, msg)
    requires Shape(topo, AddLink(s, c, fd, msg))
    ensures Registers(topo, AddLink(s, c, fd, msg))
  {}

  lemma {:induction false} ConnectKeepsSound(topo: Topo, s: Net, c: Id, fd: int)
    requires Sound(topo, s) && CanConnect(topo, s, c, fd)
    ensures Sound(topo, DoConnect(s, c, fd))
  {
    hide TableOk, RegOk, Announced, AddLink;
    var (st, reg) := OnClientConnected(s.nodes[c]);
    AnnouncesDescendants(topo, s.link, c, s.nodes[c].table);
    RegisterIsOk(topo, c, s.nodes[c]);
    SetNodeKeepsSound(topo, s, c, st);
    AddLinkKeepsSound(topo, SetNode(s, c, st), c, fd, Reg(reg));
  }

  lemma RegisterIsOk(topo: Topo, c: Id, st: State)
    requires topo.Valid() && st.id == c && Elements(Announced(st.table)) <= topo.Below(c)
    ensures RegOk(topo, c, Reg(BuildRegister(st)))
  {}

  lemma ClientGoneKeepsSound(topo: Topo, s: Net, c: Id)
    requires Sound(topo, s) && CanClientGone(s, c)
    ensures Sound(topo, DoClientGone(s, c))
  {}

  lemma ServerGoneKeepsSound(topo: Topo, s: Net, fd: int)
    requires Sound(topo, s) && CanServerGone(topo, s, fd)
    ensures Sound(topo, DoServerGone(topo, s, fd))
  {}

  lemma {:induction false} RegisterKeepsSound(topo: Topo, s: Net, fd: int)
    requires Sound(topo, s) && CanRecvUp(topo, s, fd) && s.ups[fd][0].Reg?
    ensures Sound(topo, DoRegister(topo, s, fd))
  {
    hide TableOk, Announced;
    var p := topo.parent[s.link[fd]];
    var reg := s.ups[fd][0].reg;
    var s0 := PopUp(s, fd);
    PopUpKeepsRegisters(topo, s, fd);
    assert Sound(topo, s0);
    RegisteredIsOk(topo, s.link, p, s.nodes[p].table, fd, reg);
    var st := s.nodes[p].(table := Registered(s.nodes[p].table, fd, reg));
    hide RegOk, Registered, PopUp;
    SetNodeKeepsSound(topo, s0, p, st);
    AnnouncesDescendants(topo, s.link, p, st.table);
    RegisterIsOk(topo, p, st);
    PushUpKeepsRegisters(topo, SetNode(s0, p, st), p, Reg(BuildRegister(st)));
  }

  // What the handlers of registrations do to the net, by parts.

  lemma ConnectEffect(s: Net, c: Id, fd: int)
    requires c in s.nodes
    ensures var s' := DoConnect(s, c, fd);
      && s'.nodes == s.nodes[c := s.nodes[c].(connected := true)]
      && s'.link == s.link[fd := c] && s'.open == s.open + {fd} && s'.sock == s.sock[c := fd]
      && s'.downs == s.downs[fd := []] && s'.track == s.track && s'.log == s.log
      && s'.ups == s.ups[fd := [Reg(BuildRegister(s.nodes[c]))]] && BuildRegister(s.nodes[c]).expire > 0
  {
    hide Announced;
  }

  /** The registration is passed on if the parent believes it has a connection itself. */
  ghost predicate PassesOn(s: Net, p: Id) {
    p in s.nodes && s.nodes[p].level != 0 && s.nodes[p].connected && p in s.sock && s.sock[p] in s.open
  }

  lemma {:induction false} RegisterEffect(topo: Topo, s: Net, fd: int)
    requires Shape(topo, s) && CanRecvUp(topo, s, fd) && s.ups[fd][0].Reg?
    ensures var s', p := DoRegister(topo, s, fd), topo.parent[s.link[fd]];
      && p in s.nodes && s'.nodes == s.nodes[p := s.nodes[p].(table := Registered(s.nodes[p].table, fd, s.ups[fd][0].reg))]
      && s'.link == s.link && s'.open == s.open && s'.sock == s.sock && s'.downs == s.downs
      && s'.track == s.track && s'.log == s.log
      && (PassesOn(s, p) ==> s.sock[p] in s.ups && s.sock[p] != fd)
      && var popped := s.ups[fd := s.ups[fd][1..]];
      && s'.ups == if PassesOn(s, p) then popped[s.sock[p] := s.ups[s.sock[p]] + [Reg(BuildRegister(s'.nodes[p]))]] else popped
  {
    var p := topo.parent[s.link[fd]];
    topo.ParentIsAbove(s.link[fd]);
    assert p in s.sock ==> s.sock[p] in s.ups && s.sock[p] != fd;
    hide Shape, Registered, BuildRegister;
  }

  lemma GoneEffect(s: Net, c: Id)
    requires CanClientGone(s, c)
    ensures var s' := DoClientGone(s, c);
      && s'.nodes == s.nodes[c := s.nodes[c].(connected := false)]
      && s'.link == s.link && s'.open == s.open && s'.sock == s.sock - {c} && s'.ups == s.ups
      && s'.downs == s.downs[s.sock[c] := []] && s'.track == s.track && s'.log == s.log
  {}

  lemma ClosedEffect(topo: Topo, s: Net, fd: int)
    requires CanServerGone(topo, s, fd)
    ensures var s', p := DoServerGone(topo, s, fd), topo.parent[s.link[fd]];
      && s'.link == s.link && s'.open == s.open - {fd} && s'.sock == s.sock && s'.ups == s.ups[fd := []]
      && s'.downs == s.downs && s'.track == s.track && s'.log == s.log
      && p in s.nodes && s'.nodes == s.nodes[p := s.nodes[p].(table := s'.nodes[p].table)]
      && forall c :: c in s'.nodes[p].table <==> c in s.nodes[p].table && s.nodes[p].table[c].fd != fd
  {}

  // Switch traffic: handlers that leave tables alone and send no registrations.

  lemma {:induction false} ObserveKeepsSound(topo: Topo, s: Net, track: map<int, Track>, log: seq<Event>)
    requires Sound(topo, s)
    ensures Sound(topo, Observe(s, track, log))
  {}

  lemma {:induction false} PopDownKeepsSound(topo: Topo, s: Net, fd: int)
    requires Sound(topo, s) && fd in s.downs && s.downs[fd] != []
    ensures Sound(topo, PopDown(s, fd)) && PopDown(s, fd).nodes == s.nodes
  {}

  lemma PopUpKeepsSound(topo: Topo, s: Net, fd: int)
    requires Sound(topo, s) && fd in s.ups && s.ups[fd] != []
    ensures Sound(topo, PopUp(s, fd)) && PopUp(s, fd).nodes == s.nodes
  {}

  lemma {:induction false} EmitKeepsSound(topo: Topo, s: Net, m: Id, out: Sending)
    requires Sound(topo, s)
    ensures Sound(topo, Emit(s, m, out))
  {
    if out.Up? && m in s.sock {
      PushUpKeepsRegisters(topo, s, m, Resp(out.response));
    }
  }

  lemma SetSameTable(topo: Topo, s: Net, m: Id, st: State)
    requires Sound(topo, s) && m in s.nodes && st.id == s.nodes[m].id && st.level == s.nodes[m].level
    requires st.table == s.nodes[m].table
    ensures Sound(topo, SetNode(s, m, st))
  {}

  lemma {:induction false} ResponseKeepsSound(topo: Topo, s: Net, fd: int)
    requires Sound(topo, s) && CanRecvUp(topo, s, fd) && s.ups[fd][0].Resp?
    ensures Sound(topo, DoResponse(topo, s, fd))
  {
    hide Sound, PopUp, SetNode, Emit, Observe, ResponseTrack;
    var p := topo.parent[s.link[fd]];
    var (st, out) := OnServerRxResponse(s.nodes[p], s.ups[fd][0].resp);
    PopUpKeepsSound(topo, s, fd);
    SetSameTable(topo, PopUp(s, fd), p, st);
    EmitKeepsSound(topo, SetNode(PopUp(s, fd), p, st), p, out);
    var s' := DoResponse(topo, s, fd);
    ObserveKeepsSound(topo, Emit(SetNode(PopUp(s, fd), p, st), p, out),
                      ResponseTrack(s, p, s.ups[fd][0].resp.id, out),
                      if out.Done? then s.log + [Completed(s.ups[fd][0].resp.id, p)] else s.log);
  }

  lemma RequestLeavesTable(m: State, q: Request, granted: bool, found: bool, outport: int)
    ensures var (st, out) := OnClientRxRequest(m, q, granted, found, outport);
      st.table == m.table && st.id == m.id && st.level == m.level && !out.Done?
  {}

  lemma {:induction false} RequestKeepsSound(topo: Topo, s: Net, fd: int, granted: bool, found: bool, outport: int)
    requires Sound(topo, s) && CanRecvDown(s, fd)
    ensures Sound(topo, DoRequest(s, fd, granted, found, outport))
  {
    hide Sound, PopDown, SetNode, Emit, Observe, RequestTrack, OnClientRxRequest;
    var c := s.link[fd];
    var q := s.downs[fd][0];
    var (st, out) := OnClientRxRequest(s.nodes[c], q, granted, found, outport);
    RequestLeavesTable(s.nodes[c], q, granted, found, outport);
    PopDownKeepsSound(topo, s, fd);
    SetSameTable(topo, PopDown(s, fd), c, st);
    EmitKeepsSound(topo, SetNode(PopDown(s, fd), c, st), c, out);
    ObserveKeepsSound(topo, Emit(SetNode(PopDown(s, fd), c, st), c, out),
                      RequestTrack(s.track, fd, q.id, out), s.log + [Delivered(q.id, c)]);
  }

  lemma {:induction false} SwitchKeepsSound(topo: Topo, s: Net, m: Id, keyboard: int, camera: GlobalId, id: int)
    requires Sound(topo, s) && CanSwitch(s, m, camera, id)
    ensures Sound(topo, DoSwitch(s, m, keyboard, camera, id))
  {
    hide Sound, SetNode, Emit, Observe, MatchMatrix;
    var (st, out) := StartSwitch(s.nodes[m], keyboard, camera, id);
    SetSameTable(topo, s, m, st);
    EmitKeepsSound(topo, SetNode(s, m, st), m, out);
    ObserveKeepsSound(topo, Emit(SetNode(s, m, st), m, out),
                      if out.Down? then s.track[id := Track(m, camera.mid, InDown(out.fd))] else s.track, s.log);
  }

  lemma {:induction false} NextKeepsSound(topo: Topo, s: Net, step: Step)
    requires Sound(topo, s)
    ensures Sound(topo, Next(topo, s, step))
  {
    hide Sound, DoConnect, DoClientGone, DoServerGone, DoRegister, DoResponse, DoRequest, DoSwitch;
    match step
    case Connect(c, fd) => if CanConnect(topo, s, c, fd) { ConnectKeepsSound(topo, s, c, fd); }
    case ClientGone(c) => if CanClientGone(s, c) { ClientGoneKeepsSound(topo, s, c); }
    case ServerGone(fd) => if CanServerGone(topo, s, fd) { ServerGoneKeepsSound(topo, s, fd); }
    case RecvUp(fd) =>
      if CanRecvUp(topo, s, fd) {
        if s.ups[fd][0].Reg? { RegisterKeepsSound(topo, s, fd); } else { ResponseKeepsSound(topo, s, fd); }
      }
    case RecvDown(fd, granted, found, outport) =>
      if CanRecvDown(s, fd) { RequestKeepsSound(topo, s, fd, granted, found, outport); }
    case Switch(m, keyboard, camera, id) =>
      if CanSwitch(s, m, camera, id) { SwitchKeepsSound(topo, s, m, keyboard, camera, id); }
  }

  /** Every reachable table entry and register message names only true descendants. */
  lemma {:induction false} AlwaysSound(topo: Topo, steps: seq<Step>)
    requires topo.Valid()
    ensures Sound(topo, After(topo, steps))
  {
    hide Next;
    if steps != [] {
      AlwaysSound(topo, steps[..|steps| - 1]);
      NextKeepsSound(topo, After(topo, steps[..|steps| - 1]), steps[|steps| - 1]);
    }
  }
}
