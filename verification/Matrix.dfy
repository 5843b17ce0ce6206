/**
  One matrix as its peers see it (src/mccresourcemanager.cpp): the table of registered
  children, the contexts of outstanding requests, and what each handler does to them.
 */
module Matrix {
  import opened GlobalIds

  datatype Option<+T> = None | Some(value: T)

  // ----- messages (src/mccagentmessage.cpp) -----

  datatype Register = Register(from: int, expire: int, children: seq<int>)

  datatype Request = Request(id: int, from: int, to: int, initiator: int, camera: int)

  datatype Response = Response(id: int, from: int, to: int, initiator: int, status: int, outport: int)

  /** `buildSwitchRequest`; the request id is drawn by the caller. */
  function BuildSwitchRequest(user: GlobalId, camera: GlobalId, id: int): Request {
    Request(id, user.mid, camera.mid, user.lid, camera.lid)
  }

  /** `buildSwitchResponse`: sender and receiver are swapped, the id is kept. */
  function BuildSwitchResponse(q: Request, status: int, outport: int): Response {
    Response(q.id, q.to, q.from, q.initiator, status, outport)
  }

  /** Room for children in a REGISTER message. */
  const MAX_CHILDREN_NUM := 50

  const REGISTER_EXPIRE := 60

  // ----- state -----

  /** A registered child: its connection and all the matrices it announced below itself. */
  datatype MatrixInfo = MatrixInfo(id: int, fd: int, childset: set<int>)

  /** An outstanding request; a keyboard waits for it only where it started. */
  datatype Context = Context(fromKeyboard: bool)

  datatype State = State(
    id: int,
    level: int,
    connected: bool,
    table: map<int, MatrixInfo>,
    contexts: map<int, Context>,
    aborted: bool)  // an assertion failed

  // ----- ascending order of map keys and sets -----

  ghost predicate IsLeast(m: int, s: set<int>) {
    m in s && forall x :: x in s ==> m <= x
  }

  lemma {:induction false} LeastExists(s: set<int>)
    requires s != {}
    ensures exists m :: IsLeast(m, s)
    decreases |s|
  {
    var m :| m in s;
    if exists x :: x in s && x < m {
      var smaller := set x | x in s && x < m;
      var x :| x in s && x < m;
      assert x in smaller && m !in smaller && smaller < s;
      assert |smaller| < |s| by { SubsetIsSmaller(smaller, s); }
      LeastExists(smaller);
      var l :| IsLeast(l, smaller);
      forall y | y in s ensures l <= y {
        if y < m { assert y in smaller; }
      }
      assert IsLeast(l, s);
    } else {
      assert IsLeast(m, s);
    }
  }

  lemma {:induction false} SubsetIsSmaller(a: set<int>, b: set<int>)
    requires a < b
    ensures |a| < |b|
  {
    var rest := b - a;
    assert b == a + rest && a !! rest;
  }

  ghost function Least(s: set<int>): (m: int)
    requires s != {}
    ensures IsLeast(m, s)
  {
    LeastExists(s);
    var m :| IsLeast(m, s);
    m
  }

  /** The elements of a set in ascending order. */
  ghost function Sorted(s: set<int>): (q: seq<int>)
    ensures |q| == |s| && forall x :: x in q <==> x in s
    decreases |s|
  {
    if s == {} then []
    else
      var m := Least(s);
      assert |s - {m}| == |s| - 1;
      [m] + Sorted(s - {m})
  }

  lemma SortedStep(s: set<int>)
    ensures Sorted({}) == []
    ensures s != {} ==> Sorted(s) == [Least(s)] + Sorted(s - {Least(s)})
  {}

  lemma {:induction false} SortedAscends(s: set<int>, i: nat, j: nat)
    requires i < j < |s|
    ensures Sorted(s)[i] < Sorted(s)[j]
    decreases |s|
  {
    var m := Least(s);
    var rest := Sorted(s - {m});
    assert Sorted(s) == [m] + rest;
    if i == 0 {
      assert rest[j - 1] in rest;
      assert rest[j - 1] in s - {m};
    } else {
      SortedAscends(s - {m}, i - 1, j - 1);
    }
  }

  // ----- registration -----

  ghost function Elements(q: seq<int>): set<int> {
    set x | x in q
  }

  /** The ids a matrix announces: each child followed by the child's own announcement. */
  ghost function Announce(keys: seq<int>, table: map<int, MatrixInfo>): seq<int>
    requires forall i :: 0 <= i < |keys| ==> keys[i] in table
  {
    if keys == [] then []
    else [table[keys[0]].id] + Sorted(table[keys[0]].childset) + Announce(keys[1..], table)
  }

  ghost function Announced(table: map<int, MatrixInfo>): seq<int> {
    Announce(Sorted(table.Keys), table)
  }

  ghost function BuildRegister(m: State): Register {
    Register(m.id, REGISTER_EXPIRE, Announced(m.table))
  }

  /** The table after a REGISTER message; a re-registration keeps the connection it has. */
  ghost function Registered(table: map<int, MatrixInfo>, fd: int, reg: Register): map<int, MatrixInfo> {
    if reg.expire > 0 then
      if reg.from in table then table[reg.from := table[reg.from].(childset := Elements(reg.children))]
      else table[reg.from := MatrixInfo(reg.from, fd, Elements(reg.children))]
    else table - {reg.from}
  }

  ghost function OnRegister(m: State, fd: int, reg: Register): (State, Option<Register>) {
    var m' := m.(table := Registered(m.table, fd, reg));
    (m', if m.level != 0 && m.connected then Some(BuildRegister(m')) else None)
  }

  ghost function OnDisconnect(m: State, fd: int): State {
    m.(table := map k | k in m.table && m.table[k].fd != fd :: m.table[k])
  }

  ghost function OnClientConnected(m: State): (State, Register) {
    (m.(connected := true), BuildRegister(m))
  }

  ghost function OnClientDisconnected(m: State): State {
    m.(connected := false)
  }

  // ----- routing -----

  predicate Serves(info: MatrixInfo, target: int) {
    info.id == target || target in info.childset
  }

  ghost function Servers(table: map<int, MatrixInfo>, target: int): set<int> {
    set k | k in table && Serves(table[k], target)
  }

  /** The first table entry, in key order, that is the target or announced it. */
  ghost function MatchMatrix(table: map<int, MatrixInfo>, target: int): Option<MatrixInfo> {
    var ks := Servers(table, target);
    if ks == {} then None else Some(table[Least(ks)])
  }

  datatype Sending =
    | Nothing
    | Down(fd: int, request: Request)
    | Up(response: Response)
    | Done(response: Response)  // the keyboard that asked is served

  /** A keyboard asks for a camera of another matrix (processSwitchMessage past the monitor
      checks): the context goes in, and the request goes to the child that leads there. */
  ghost function StartSwitch(m: State, keyboard: int, camera: GlobalId, id: int): (State, Sending) {
    var q := BuildSwitchRequest(GlobalId(m.id, keyboard), camera, id);
    match MatchMatrix(m.table, camera.mid)
    case None => (m, Nothing)
    case Some(info) => (m.(contexts := m.contexts[id := Context(true)]), Down(info.fd, q))
  }

  /** A SWITCH request from the parent; whether a trunk was granted and the camera found are
      decided by the resources. */
  ghost function OnClientRxRequest(m: State, q: Request, granted: bool, found: bool, outport: int): (State, Sending) {
    if !granted then (m, Up(BuildSwitchResponse(q, 404, 0)))
    else if q.to == m.id then (m, Up(BuildSwitchResponse(q, if found then 200 else 404, outport)))
    else
      match MatchMatrix(m.table, q.to)
      case None => (m, Up(BuildSwitchResponse(q, 404, outport)))
      case Some(info) =>
        if q.id in m.contexts then (m.(aborted := true), Nothing)
        else (m.(contexts := m.contexts[q.id := Context(false)]), Down(info.fd, q))
  }

  /** A response from a child: the context goes out, and the response goes up or home. */
  ghost function OnServerRxResponse(m: State, r: Response): (State, Sending) {
    if r.id !in m.contexts then (m, Nothing)
    else
      var m' := m.(contexts := m.contexts - {r.id});
      (m', if r.to == m.id then Done(r) else Up(r))
  }

  // ----- announcements as sets -----

  lemma {:induction false} AnnounceElements(keys: seq<int>, table: map<int, MatrixInfo>, x: int)
    requires forall i :: 0 <= i < |keys| ==> keys[i] in table
    ensures x in Announce(keys, table) <==> exists k :: k in keys && Serves(table[k], x)
  {
    if keys != [] {
      AnnounceElements(keys[1..], table, x);
      assert forall k :: k in keys <==> k == keys[0] || k in keys[1..];
      if x in Announce(keys, table) && x !in Announce(keys[1..], table) {
        assert Serves(table[keys[0]], x);
      }
    }
  }

  /** The ids announced are exactly those some entry serves. */
  lemma AnnouncedAreServed(table: map<int, MatrixInfo>, x: int)
    ensures x in Announced(table) <==> exists k :: k in table && Serves(table[k], x)
  {
    AnnounceElements(Sorted(table.Keys), table, x);
    if x in Announced(table) {
      var k :| k in Sorted(table.Keys) && Serves(table[k], x);
      assert k in table;
    }
    if k :| k in table && Serves(table[k], x) {
      assert k in Sorted(table.Keys);
    }
  }

  /** The announcement begins with the child of smallest number, followed in ascending order by what
      it has below itself (`SortedAscends`), and goes on with the other children. */
  lemma {:induction false} AnnouncedInOrder(table: map<int, MatrixInfo>, k: int)
    requires k in table && forall j :: j in table ==> k <= j
    ensures Announced(table) == [table[k].id] + Sorted(table[k].childset) + Announced(table - {k})
  {
    var rest := Sorted(table.Keys - {k});
    SortedStep(table.Keys);
    assert Least(table.Keys) == k && Sorted(table.Keys) == [k] + rest && ([k] + rest)[1..] == rest;
    assert (table - {k}).Keys == table.Keys - {k};
    SameAnnouncement(rest, table, table - {k});
  }

  lemma {:induction false} SameAnnouncement(keys: seq<int>, table: map<int, MatrixInfo>, table': map<int, MatrixInfo>)
    requires forall i :: 0 <= i < |keys| ==> keys[i] in table && keys[i] in table' && table'[keys[i]] == table[keys[i]]
    ensures Announce(keys, table) == Announce(keys, table')
  {
    if keys != [] {
      SameAnnouncement(keys[1..], table, table');
    }
  }

  // ----- the handlers in fields -----

  /** A match is found exactly when some entry is the target or lists it, and is such an entry. */
  lemma MatchServes(table: map<int, MatrixInfo>, target: int)
    ensures match MatchMatrix(table, target)
      case None => forall k :: k in table ==> table[k].id != target && target !in table[k].childset
      case Some(info) => exists k :: k in table && table[k] == info && (info.id == target || target in info.childset)
  {
    var ks := Servers(table, target);
    if ks == {} {
      forall k | k in table ensures !Serves(table[k], target) {
        assert k !in ks;
      }
    } else {
      var k := Least(ks);
      assert k in ks && table[k] == MatchMatrix(table, target).value;
    }
  }

  /** What a keyboard's question sends: to the child that leads to the camera's matrix, a request that
      names this matrix and keyboard, and the camera; and nothing if there is no such child. */
  lemma StartSwitchSends(m: State, keyboard: int, camera: GlobalId, id: int)
    ensures var (m', out) := StartSwitch(m, keyboard, camera, id);
      match MatchMatrix(m.table, camera.mid)
      case None => m' == m && out == Nothing
      case Some(info) =>
        && out == Down(info.fd, Request(id, m.id, camera.mid, keyboard, camera.lid))
        && m'.contexts == m.contexts[id := Context(true)]
        && m'.id == m.id && m'.level == m.level && m'.connected == m.connected && m'.table == m.table && m'.aborted == m.aborted
  {}

  /** What is sent for a request from the parent.  An answer goes back to where the request came from
      and names its keyboard; it says 200 exactly when the request was for this matrix, a trunk was
      granted and the camera found, and 404 otherwise; and it carries the trunk's port if one was
      granted.  A request is passed on, unchanged, exactly when a trunk was granted and a child
      leads to its target. */
  lemma RequestAnswers(m: State, q: Request, granted: bool, found: bool, outport: int)
    ensures var (m', out) := OnClientRxRequest(m, q, granted, found, outport);
      && (!granted ==> m' == m && out == Up(Response(q.id, q.to, q.from, q.initiator, 404, 0)))
      && (granted && q.to == m.id ==>
           m' == m && out == Up(Response(q.id, q.to, q.from, q.initiator, if found then 200 else 404, outport)))
      && (granted && q.to != m.id && MatchMatrix(m.table, q.to).None? ==>
           m' == m && out == Up(Response(q.id, q.to, q.from, q.initiator, 404, outport)))
      && (granted && q.to != m.id && MatchMatrix(m.table, q.to).Some? && q.id !in m.contexts ==>
           && out == Down(MatchMatrix(m.table, q.to).value.fd, q)
           && m' == State(m.id, m.level, m.connected, m.table, m.contexts[q.id := Context(false)], m.aborted))
      && (granted && q.to != m.id && MatchMatrix(m.table, q.to).Some? && q.id in m.contexts ==> out == Nothing && m'.aborted)
  {}

  /** What becomes of a response from a child: without a context nothing; otherwise the context goes,
      and the response itself, unchanged, is what the keyboard gets or the parent is sent. */
  lemma ResponseGoesOn(m: State, r: Response)
    ensures var (m', out) := OnServerRxResponse(m, r);
      if r.id !in m.contexts then m' == m && out == Nothing
      else
        && m' == State(m.id, m.level, m.connected, m.table, m.contexts - {r.id}, m.aborted)
        && out == if r.to == m.id then Done(r) else Up(r)
  {}

  /** A register message with a positive expiry puts its sender on the table, over the connection it
      came on if it was not there, with exactly the matrices it lists; any other takes it off. */
  lemma RegisterPutsOrTakes(m: State, fd: int, reg: Register, k: int)
    ensures var table := OnRegister(m, fd, reg).0.table;
      && (k != reg.from ==> (k in table <==> k in m.table) && (k in table ==> table[k] == m.table[k]))
      && (reg.expire <= 0 ==> reg.from !in table)
      && (reg.expire > 0 ==> reg.from in table && forall x :: x in table[reg.from].childset <==> x in reg.children)
      && (reg.expire > 0 && reg.from in m.table ==>
           table[reg.from].fd == m.table[reg.from].fd && table[reg.from].id == m.table[reg.from].id)
      && (reg.expire > 0 && reg.from !in m.table ==> table[reg.from].fd == fd && table[reg.from].id == reg.from)
  {}

  /** It is passed on, as a message of this matrix with an expiry of 60 and everything the new table
      serves, exactly when this matrix has a parent and believes it is connected. */
  lemma RegisterIsPassedOn(m: State, fd: int, reg: Register)
    ensures var (m', out) := OnRegister(m, fd, reg);
      && m'.id == m.id && m'.level == m.level && m'.connected == m.connected && m'.contexts == m.contexts
      && (out.Some? <==> m.level != 0 && m.connected)
      && (out.Some? ==>
           && out.value.from == m.id && out.value.expire == 60
           && forall x :: x in out.value.children <==> exists k :: k in m'.table && Serves(m'.table[k], x))
  {
    var m' := OnRegister(m, fd, reg).0;
    hide Registered, Announced;
    forall x ensures x in Announced(m'.table) <==> exists k :: k in m'.table && Serves(m'.table[k], x) {
      AnnouncedAreServed(m'.table, x);
    }
  }

  /** Connecting marks the link up and announces everything the table serves; disconnecting marks it
      down; and the end of a child's connection takes off exactly the entries over it. */
  lemma {:induction false} ConnectionsComeAndGo(m: State, fd: int, k: int)
    ensures var (m', reg) := OnClientConnected(m);
      && m' == State(m.id, m.level, true, m.table, m.contexts, m.aborted) && reg.from == m.id && reg.expire == 60
      && forall x :: x in reg.children <==> exists k :: k in m.table && Serves(m.table[k], x)
    ensures OnClientDisconnected(m) == State(m.id, m.level, false, m.table, m.contexts, m.aborted)
    ensures var m' := OnDisconnect(m, fd);
      && (k in m'.table <==> k in m.table && m.table[k].fd != fd) && (k in m'.table ==> m'.table[k] == m.table[k])
      && m'.id == m.id && m'.level == m.level && m'.connected == m.connected && m'.contexts == m.contexts
  {
    hide Announced;
    forall x ensures x in Announced(m.table) <==> exists k :: k in m.table && Serves(m.table[k], x) {
      AnnouncedAreServed(m.table, x);
    }
  }
}
