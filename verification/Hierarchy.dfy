/**
  A tree of matrices exchanging REGISTER, SWITCH and response messages over FIFO connections,
  one handler call at a time, with connections that come and go.
 */
module Hierarchy {
  import opened GlobalIds
  import opened Matrix
  import Topology

  type Id = int
  type Topo = Topology.Tree

  /** What a child sends its parent. */
  datatype UpMsg = Reg(reg: Register) | Resp(resp: Response)

  /** An observer's note on a request: where it began, where it is bound, and the connection on
      which it or its response was last put. */
  datatype Place = InDown(fd: int) | InUp(fd: int) | Home
  datatype Track = Track(origin: Id, target: Id, at: Place)

  /** What an observer sees: requests reaching matrices, and keyboards being served. */
  datatype Event = Delivered(id: int, at: Id) | Completed(id: int, at: Id)

  datatype Net = Net(
    nodes: map<Id, State>,
    link: map<int, Id>,            // every connection ever made, and the child that made it
    open: set<int>,                // connections the parent has not seen closed
    ups: map<int, seq<UpMsg>>,     // messages on their way to the parent
    downs: map<int, seq<Request>>, // requests on their way to the child
    sock: map<Id, int>,            // the connection a child believes it has
    track: map<int, Track>,
    log: seq<Event>)

  datatype Step =
    | Connect(c: Id, fd: int)              // a child connects to its parent
    | ClientGone(c: Id)                    // a child sees its connection closed
    | ServerGone(fd: int)                  // a parent sees a connection closed
    | RecvUp(fd: int)                      // the parent handles the next message
    | RecvDown(fd: int, granted: bool, found: bool, outport: int)  // the child handles the next request
    | Switch(m: Id, keyboard: int, camera: GlobalId, id: int)      // a keyboard asks for a remote camera

  // ----- sending -----

  /** A message is lost when its sender has no connection, or the other end has closed it. */
  function PushUp(s: Net, c: Id, msg: UpMsg): Net {
    if c in s.sock && s.sock[c] in s.open && s.sock[c] in s.ups
    then s.(ups := s.ups[s.sock[c] := s.ups[s.sock[c]] + [msg]])
    else s
  }

  function PushDown(s: Net, fd: int, q: Request): Net {
    if fd in s.open && fd in s.downs then s.(downs := s.downs[fd := s.downs[fd] + [q]]) else s
  }

  /** What a handler decided to send, put on the wire. */
  function Emit(s: Net, m: Id, out: Sending): Net {
    match out
    case Down(fd, q) => PushDown(s, fd, q)
    case Up(r) => PushUp(s, m, Resp(r))
    case _ => s
  }

  function PopUp(s: Net, fd: int): Net
    requires fd in s.ups && s.ups[fd] != []
  {
    s.(ups := s.ups[fd := s.ups[fd][1..]])
  }

  function PopDown(s: Net, fd: int): Net
    requires fd in s.downs && s.downs[fd] != []
  {
    s.(downs := s.downs[fd := s.downs[fd][1..]])
  }

  function SetNode(s: Net, m: Id, st: State): Net {
    s.(nodes := s.nodes[m := st])
  }

  /** The observer takes notes. */
  function Observe(s: Net, track: map<int, Track>, log: seq<Event>): Net {
    s.(track := track, log := log)
  }

  function Moved(track: map<int, Track>, id: int, at: Place): map<int, Track> {
    if id in track then track[id := track[id].(at := at)] else track
  }

  // ----- steps -----

  ghost predicate CanConnect(topo: Topo, s: Net, c: Id, fd: int) {
    c in topo.parent && c in s.nodes && c !in s.sock && fd !in s.link
  }

  ghost function DoConnect(s: Net, c: Id, fd: int): Net
    requires c in s.nodes
  {
    var (st, reg) := OnClientConnected(s.nodes[c]);
    AddLink(SetNode(s, c, st), c, fd, Reg(reg))
  }

  /** A new connection, with the first message already on it. */
  function AddLink(s: Net, c: Id, fd: int, msg: UpMsg): Net {
    s.(link := s.link[fd := c], open := s.open + {fd}, ups := s.ups[fd := [msg]],
       downs := s.downs[fd := []], sock := s.sock[c := fd])
  }

  ghost predicate CanClientGone(s: Net, c: Id) {
    c in s.sock && c in s.nodes && s.sock[c] in s.downs
  }

  ghost function DoClientGone(s: Net, c: Id): Net
    requires CanClientGone(s, c)
  {
    SetNode(s, c, OnClientDisconnected(s.nodes[c])).(sock := s.sock - {c}, downs := s.downs[s.sock[c] := []])
  }

  ghost predicate CanServerGone(topo: Topo, s: Net, fd: int) {
    fd in s.open && fd in s.link && fd in s.ups && s.link[fd] in topo.parent && topo.parent[s.link[fd]] in s.nodes
  }

  ghost function DoServerGone(topo: Topo, s: Net, fd: int): Net
    requires CanServerGone(topo, s, fd)
  {
    var p := topo.parent[s.link[fd]];
    SetNode(s, p, OnDisconnect(s.nodes[p], fd)).(open := s.open - {fd}, ups := s.ups[fd := []])
  }

  ghost predicate CanRecvUp(topo: Topo, s: Net, fd: int) {
    CanServerGone(topo, s, fd) && s.ups[fd] != []
  }

  /** The parent takes a REGISTER message off a connection. */
  ghost function DoRegister(topo: Topo, s: Net, fd: int): Net
    requires CanRecvUp(topo, s, fd) && s.ups[fd][0].Reg?
  {
    var p := topo.parent[s.link[fd]];
    var (st, out) := OnRegister(s.nodes[p], fd, s.ups[fd][0].reg);
    var s1 := SetNode(PopUp(s, fd), p, st);
    if out.Some? then PushUp(s1, p, Reg(out.value)) else s1
  }

  /** The parent takes a response off a connection. */
  ghost function DoResponse(topo: Topo, s: Net, fd: int): Net
    requires CanRecvUp(topo, s, fd) && s.ups[fd][0].Resp?
  {
    var p := topo.parent[s.link[fd]];
    var r := s.ups[fd][0].resp;
    var (st, out) := OnServerRxResponse(s.nodes[p], r);
    Observe(Emit(SetNode(PopUp(s, fd), p, st), p, out),
            ResponseTrack(s, p, r.id, out),
            if out.Done? then s.log + [Completed(r.id, p)] else s.log)
  }

  function ResponseTrack(s: Net, p: Id, id: int, out: Sending): map<int, Track> {
    match out
    case Up(_) => if p in s.sock then Moved(s.track, id, InUp(s.sock[p])) else s.track
    case Done(_) => Moved(s.track, id, Home)
    case _ => s.track
  }

  ghost predicate CanRecvDown(s: Net, fd: int) {
    && fd in s.link && fd in s.downs && s.link[fd] in s.sock && s.sock[s.link[fd]] == fd
    && s.link[fd] in s.nodes && s.downs[fd] != []
  }

  /** The child takes a request off its connection. */
  ghost function DoRequest(s: Net, fd: int, granted: bool, found: bool, outport: int): Net
    requires CanRecvDown(s, fd)
  {
    var c := s.link[fd];
    var q := s.downs[fd][0];
    var (st, out) := OnClientRxRequest(s.nodes[c], q, granted, found, outport);
    Observe(Emit(SetNode(PopDown(s, fd), c, st), c, out),
            RequestTrack(s.track, fd, q.id, out),
            s.log + [Delivered(q.id, c)])
  }

  function RequestTrack(track: map<int, Track>, fd: int, id: int, out: Sending): map<int, Track> {
    match out
    case Up(_) => Moved(track, id, InUp(fd))
    case Down(fd', _) => Moved(track, id, InDown(fd'))
    case _ => track
  }

  /** Request ids are drawn afresh. */
  ghost predicate CanSwitch(s: Net, m: Id, camera: GlobalId, id: int) {
    m in s.nodes && camera.mid != m && id !in s.track
  }

  ghost function DoSwitch(s: Net, m: Id, keyboard: int, camera: GlobalId, id: int): Net
    requires CanSwitch(s, m, camera, id)
  {
    var (st, out) := StartSwitch(s.nodes[m], keyboard, camera, id);
    Observe(Emit(SetNode(s, m, st), m, out),
            if out.Down? then s.track[id := Track(m, camera.mid, InDown(out.fd))] else s.track,
            s.log)
  }

  /** A step that is not possible changes nothing, so every sequence of steps is a run. */
  ghost function Next(topo: Topo, s: Net, step: Step): Net {
    match step
    case Connect(c, fd) => if CanConnect(topo, s, c, fd) then DoConnect(s, c, fd) else s
    case ClientGone(c) => if CanClientGone(s, c) then DoClientGone(s, c) else s
    case ServerGone(fd) => if CanServerGone(topo, s, fd) then DoServerGone(topo, s, fd) else s
    case RecvUp(fd) =>
      if !CanRecvUp(topo, s, fd) then s
      else if s.ups[fd][0].Reg? then DoRegister(topo, s, fd)
      else DoResponse(topo, s, fd)
    case RecvDown(fd, granted, found, outport) =>
      if CanRecvDown(s, fd) then DoRequest(s, fd, granted, found, outport) else s
    case Switch(m, keyboard, camera, id) =>
      if CanSwitch(s, m, camera, id) then DoSwitch(s, m, keyboard, camera, id) else s
  }

  ghost function Init(topo: Topo): Net {
    Net(map m | m in topo.depth :: State(m, topo.depth[m], false, map[], map[], false),
        map[], {}, map[], map[], map[], map[], [])
  }

  ghost function After(topo: Topo, steps: seq<Step>): Net {
    if steps == [] then Init(topo)
    else Next(topo, After(topo, steps[..|steps| - 1]), steps[|steps| - 1])
  }
}
