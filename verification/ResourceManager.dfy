/**
  The handlers of src/mccresourcemanager.cpp as they run on one matrix: loops over the child
  table, in-place updates of the maps, trunk arbitration.  Each is shown to do what module
  Matrix says; what is sent is returned.
 */
module ResourceManager {
  import opened GlobalIds
  import Matrix
  import Trunks
  import Ptz
  import opened Devices

  type MatrixInfo = Matrix.MatrixInfo
  type Option<T> = Matrix.Option<T>

  // ----- iteration in key order -----

  method Minimum(s: set<int>) returns (m: int)
    requires s != {}
    ensures m == Matrix.Least(s)
  {
    Matrix.LeastExists(s);
    m :| m in s;
    var rest := s - {m};
    while rest != {}
      invariant m in s && rest <= s
      invariant forall x :: x in s ==> x in rest || m <= x
      decreases |rest|
    {
      Matrix.LeastExists(rest);
      var x :| x in rest;
      if x < m { m := x; }
      rest := rest - {x};
    }
  }

  method Ascending(s: set<int>) returns (q: seq<int>)
    ensures q == Matrix.Sorted(s)
  {
    hide Matrix.Sorted;
    q := [];
    var rest := s;
    while rest != {}
      invariant rest <= s && Matrix.Sorted(s) == q + Matrix.Sorted(rest)
      decreases |rest|
    {
      var m := Minimum(rest);
      Matrix.SortedStep(rest);
      assert q + ([m] + Matrix.Sorted(rest - {m})) == (q + [m]) + Matrix.Sorted(rest - {m});
      q := q + [m];
      rest := rest - {m};
    }
    Matrix.SortedStep(rest);
  }

  class Manager {
    const matrixId: int
    const level: int
    var isClientConnected: bool
    var childMatrixs: map<int, MatrixInfo>
    var processContexts: map<int, Matrix.Context>
    var aborted: bool
    var cameras: map<int, Ptz.Camera?>  // looking an id up may leave a null entry
    var monitors: map<int, MonitorUser>
    var trunks: seq<Trunks.Trunk>

    ghost function Snap(): Matrix.State
      reads this
    {
      Matrix.State(matrixId, level, isClientConnected, childMatrixs, processContexts, aborted)
    }

    /** The cameras and monitors, for their presence and use. */
    ghost function Gear(): Devices
      reads this
    {
      Devices(map k | k in cameras :: cameras[k] != null, monitors)
    }

    /** The times a new camera or monitor holds are whatever their storage held. */
    constructor (matrixId: int, level: int, cameraIds: set<int>, monitorIds: set<int>, trunks: seq<Trunks.Trunk>, anyTime: int)
      ensures Snap() == Matrix.State(matrixId, level, false, map[], map[], false) && this.trunks == trunks
      ensures Gear() == Devices(map k | k in cameraIds :: true, map k | k in monitorIds :: MonitorUser(-1, anyTime))
    {
      this.matrixId, this.level := matrixId, level;
      isClientConnected, childMatrixs, processContexts, aborted := false, map[], map[], false;
      cameras := map[];
      monitors := map k | k in monitorIds :: MonitorUser(-1, anyTime);
      this.trunks := trunks;
      new;
      var rest := cameraIds;
      while rest != {}
        invariant rest <= cameraIds && cameras.Keys == cameraIds - rest
        invariant forall k :: k in cameras ==> cameras[k] != null
        invariant Snap() == Matrix.State(matrixId, level, false, map[], map[], false) && this.trunks == trunks
        invariant monitors == map k | k in monitorIds :: MonitorUser(-1, anyTime)
        decreases |rest|
      {
        Matrix.LeastExists(rest);
        var k :| k in rest;
        var camera := new Ptz.Camera(k, anyTime);
        cameras := cameras[k := camera];
        rest := rest - {k};
      }
      ghost var all := map k | k in cameraIds :: true;
      assert Gear().cameras.Keys == all.Keys;
      forall k | k in all ensures Gear().cameras[k] == all[k] {
        assert k in cameras;
      }
      assert Gear().cameras == all;
    }

    // ----- the child table -----

    method MatchMatrix(target: int) returns (r: Option<MatrixInfo>)
      ensures r == Matrix.MatchMatrix(childMatrixs, target)
    {
      var keys := Ascending(childMatrixs.Keys);
      var i := 0;
      while i < |keys|
        invariant 0 <= i <= |keys|
        invariant forall j :: 0 <= j < i ==> keys[j] !in Matrix.Servers(childMatrixs, target)
      {
        assert keys[i] in childMatrixs.Keys;
        if Matrix.Serves(childMatrixs[keys[i]], target) {
          FirstServerIsLeast(keys, i, target);
          return Matrix.Some(childMatrixs[keys[i]]);
        }
        i := i + 1;
      }
      forall k | k in childMatrixs ensures k !in Matrix.Servers(childMatrixs, target) {
        assert k in keys;
      }
      assert Matrix.Servers(childMatrixs, target) == {};
      return Matrix.None;
    }

    lemma FirstServerIsLeast(keys: seq<int>, i: nat, target: int)
      requires keys == Matrix.Sorted(childMatrixs.Keys) && i < |keys|
      requires keys[i] in Matrix.Servers(childMatrixs, target)
      requires forall j :: 0 <= j < i ==> keys[j] !in Matrix.Servers(childMatrixs, target)
      ensures Matrix.Least(Matrix.Servers(childMatrixs, target)) == keys[i]
    {
      var least := Matrix.Least(Matrix.Servers(childMatrixs, target));
      assert least in keys;
      var j :| 0 <= j < |keys| && keys[j] == least;
      if j > i { Matrix.SortedAscends(childMatrixs.Keys, i, j); }
    }

    method BuildRegister() returns (reg: Matrix.Register)
      requires |Matrix.Announced(childMatrixs)| <= Matrix.MAX_CHILDREN_NUM
      ensures reg == Matrix.BuildRegister(Snap())
    {
      hide Matrix.Sorted, Matrix.Announce;
      var children := new int[Matrix.MAX_CHILDREN_NUM];
      var keys := Ascending(childMatrixs.Keys);
      var i, j := 0, 0;
      while i < |keys|
        invariant 0 <= i <= |keys| && forall k :: 0 <= k < |keys| ==> keys[k] in childMatrixs
        invariant 0 <= j <= children.Length
        invariant children[..j] + Matrix.Announce(keys[i..], childMatrixs) == Matrix.Announced(childMatrixs)
      {
        var info := childMatrixs[keys[i]];
        AnnounceStep(keys, i, childMatrixs);
        ghost var all := Matrix.Announced(childMatrixs);
        ghost var done, block := children[..j], [info.id] + Matrix.Sorted(info.childset);
        ghost var rest := Matrix.Announce(keys[i + 1..], childMatrixs);
        assert all == done + (block + rest);
        j := Append(children, j, info.id, info.childset);
        assert children[..j] == done + block;
        assert done + (block + rest) == (done + block) + rest;
        i := i + 1;
      }
      AnnounceNothing(keys[i..], childMatrixs);
      reg := Matrix.Register(matrixId, Matrix.REGISTER_EXPIRE, children[..j]);
    }

    method OnRegister(fd: int, reg: Matrix.Register) returns (out: Option<Matrix.Register>)
      requires level != 0 && isClientConnected ==>
        |Matrix.Announced(Matrix.Registered(childMatrixs, fd, reg))| <= Matrix.MAX_CHILDREN_NUM
      modifies this
      ensures (Snap(), out) == Matrix.OnRegister(old(Snap()), fd, reg)
      ensures cameras == old(cameras) && monitors == old(monitors) && trunks == old(trunks)
    {
      if reg.expire > 0 {
        var set_ := {};
        var i := 0;
        while i < |reg.children|
          invariant 0 <= i <= |reg.children|
          invariant forall x :: x in set_ <==> x in reg.children[..i]
        {
          set_ := set_ + {reg.children[i]};
          i := i + 1;
        }
        assert reg.children[..|reg.children|] == reg.children;
        forall x ensures x in set_ <==> x in Matrix.Elements(reg.children) {
        }
        assert set_ == Matrix.Elements(reg.children);
        if reg.from in childMatrixs {
          childMatrixs := childMatrixs[reg.from := childMatrixs[reg.from].(childset := set_)];
        } else {
          childMatrixs := childMatrixs[reg.from := Matrix.MatrixInfo(reg.from, fd, set_)];
        }
      } else {
        childMatrixs := childMatrixs - {reg.from};
      }
      out := Matrix.None;
      if level != 0 && isClientConnected {
        var r := BuildRegister();
        out := Matrix.Some(r);
      }
    }

    method OnDisconnect(fd: int)
      modifies this`childMatrixs
      ensures Snap() == Matrix.OnDisconnect(old(Snap()), fd)
    {
      var keys := childMatrixs.Keys;
      while keys != {}
        invariant keys <= old(childMatrixs).Keys && childMatrixs.Keys <= old(childMatrixs).Keys
        invariant forall k :: k in childMatrixs ==> childMatrixs[k] == old(childMatrixs)[k]
        invariant forall k :: k in old(childMatrixs) ==>
          (k in childMatrixs <==> k in keys || old(childMatrixs)[k].fd != fd)
        decreases |keys|
      {
        Matrix.LeastExists(keys);
        var k :| k in keys;
        if childMatrixs[k].fd == fd {
          childMatrixs := childMatrixs - {k};
        }
        keys := keys - {k};
      }
      ghost var want := Matrix.OnDisconnect(old(Snap()), fd).table;
      forall k ensures k in childMatrixs <==> k in want {
        if k in old(childMatrixs) {
          assert k in childMatrixs <==> old(childMatrixs)[k].fd != fd;
        }
      }
      assert childMatrixs.Keys == want.Keys;
      forall k | k in childMatrixs ensures childMatrixs[k] == want[k] {
      }
      assert childMatrixs == want;
    }

    method OnClientConnected() returns (reg: Matrix.Register)
      requires |Matrix.Announced(childMatrixs)| <= Matrix.MAX_CHILDREN_NUM
      modifies this`isClientConnected
      ensures (Snap(), reg) == Matrix.OnClientConnected(old(Snap()))
    {
      isClientConnected := true;
      reg := BuildRegister();
    }

    method OnClientDisconnected()
      modifies this`isClientConnected
      ensures Snap() == Matrix.OnClientDisconnected(old(Snap()))
    {
      isClientConnected := false;
    }

    // ----- switch requests -----

    /** `mCameras[id]`: looking a camera up leaves an entry for it behind. */
    method CameraAt(id: int) returns (camera: Ptz.Camera?)
      modifies this`cameras
      ensures camera == if id in old(cameras) then old(cameras)[id] else null
      ensures cameras == if id in old(cameras) then old(cameras) else old(cameras)[id := null]
      ensures Gear() == old(Gear()).(cameras := LookedUp(old(Gear()).cameras, id))
    {
      if id !in cameras {
        cameras := cameras[id := null];
      }
      camera := cameras[id];
    }

    method IsCameraExist(id: int) returns (r: bool)
      modifies this`cameras
      ensures r <==> Real(old(Gear()).cameras, id)
      ensures Gear() == old(Gear()).(cameras := LookedUp(old(Gear()).cameras, id))
    {
      var camera := CameraAt(id);
      r := camera != null;
    }

    /** A keyboard of this matrix asks for a camera on one of its monitors. */
    method ProcessSwitchMessage(monitor: int, keyboard: int, camera: GlobalId, id: int, now: int)
      returns (r: Ptz.ProcessResult, out: Matrix.Sending)
      modifies this`processContexts, this`cameras, this`monitors
      ensures Gear() == Asked(matrixId, old(Gear()), Show(monitor, keyboard, camera, now))
      ensures !MonitorFree(old(monitors), monitor, keyboard, now) ==>
        r == Ptz.REJECT && out == Matrix.Nothing && Snap() == old(Snap())
      ensures MonitorFree(old(monitors), monitor, keyboard, now) && camera.mid == matrixId ==>
        && out == Matrix.Nothing && Snap() == old(Snap())
        && r == if Real(old(Gear()).cameras, camera.lid) then Ptz.ACCEPT else Ptz.REJECT
      ensures MonitorFree(old(monitors), monitor, keyboard, now) && camera.mid != matrixId ==>
        && (Snap(), out) == Matrix.StartSwitch(old(Snap()), keyboard, camera, id)
        && r == if out.Down? then Ptz.PENDING else Ptz.REJECT
    {
      out := Matrix.Nothing;
      if monitor !in monitors {
        return Ptz.REJECT, out;
      }
      if !Expired(monitors[monitor].deadline, now) && monitors[monitor].keyboard > keyboard {
        return Ptz.REJECT, out;
      }
      if camera.mid == matrixId {
        var there := IsCameraExist(camera.lid);
        if there {
          monitors := monitors[monitor := MonitorUser(keyboard, now + DEFAULT_EXPIRE)];
          return Ptz.ACCEPT, out;
        }
        return Ptz.REJECT, out;
      }
      var matched := MatchMatrix(camera.mid);
      if matched.None? {
        return Ptz.REJECT, out;
      }
      var q := Matrix.BuildSwitchRequest(GlobalId(matrixId, keyboard), camera, id);
      processContexts := processContexts[q.id := Matrix.Context(true)];
      return Ptz.PENDING, Matrix.Down(matched.value.fd, q);
    }

    /** A keyboard of this matrix steers one of its cameras: the local branch of
        processPtzMessage. */
    method ProcessOwnPtzMessage(camera: int, keyboard: int, lockcode: int, now: int) returns (r: Ptz.ProcessResult)
      modifies this`cameras, if camera in cameras && cameras[camera] != null then {cameras[camera]} else {}
      ensures Gear() == Asked(matrixId, old(Gear()), Steer(GlobalId(matrixId, camera)))
      ensures !Real(old(Gear()).cameras, camera) ==> r == Ptz.REJECT
      ensures Real(old(Gear()).cameras, camera) ==>
        var q := Ptz.Request(GlobalId(matrixId, keyboard), lockcode, now);
        && cameras[camera].State() == Ptz.Apply(old(cameras[camera].State()), q)
        && r == if Ptz.Accepts(old(cameras[camera].State()), q) then Ptz.ACCEPT else Ptz.REJECT
    {
      var cam := CameraAt(camera);
      if cam == null {
        return Ptz.REJECT;
      }
      r := Ptz.ProcessLocalPtz(cam, GlobalId(matrixId, keyboard), lockcode, now);
    }

    /** A SWITCH request from the parent.  `mid` is what the trunks held once expired users were
        cleared, and `k` the trunk chosen. */
    method OnClientRxRequest(q: Matrix.Request, now: int)
      returns (granted: bool, outport: int, out: Matrix.Sending, ghost mid: seq<Trunks.TrunkState>, ghost k: int)
      requires |trunks| > 0 && Trunks.Distinct(trunks)
      modifies this`processContexts, this`aborted, trunks
      ensures (Snap(), out) == Matrix.OnClientRxRequest(old(Snap()), q, granted, q.camera in cameras, outport)
      ensures Trunks.AllCleared(old(Trunks.States(trunks)), mid, now)
      ensures granted == !Trunks.AllBusy(mid, GlobalId(q.from, q.initiator), GlobalId(q.to, q.camera))
      ensures granted ==>
        && Trunks.RightChoice(mid, GlobalId(q.from, q.initiator), GlobalId(q.to, q.camera), k)
        && outport == trunks[k].outport
      ensures !granted ==> out == Matrix.Up(Matrix.Response(q.id, q.to, q.from, q.initiator, 404, 0))
      ensures granted && q.to == matrixId ==>
        out == Matrix.Up(Matrix.Response(q.id, q.to, q.from, q.initiator, if q.camera in cameras then 200 else 404, trunks[k].outport))
      ensures granted && q.to != matrixId && NobodyServes(q.to) ==>
        out == Matrix.Up(Matrix.Response(q.id, q.to, q.from, q.initiator, 404, trunks[k].outport))
      ensures Trunks.SwitchStep(old(Trunks.States(trunks)), Trunks.States(trunks), matrixId, cameras.Keys, q.to, q.camera,
                                Trunks.User(GlobalId(q.from, q.initiator), now + DEFAULT_EXPIRE), now)
    {
      hide Trunks.SwitchStep, Trunks.AllCleared, Trunks.AllBusy, Trunks.Taken, Matrix.MatchMatrix;
      granted, outport, mid, k := Trunks.UseTrunk(trunks, matrixId, cameras.Keys, q.to, q.camera, GlobalId(q.from, q.initiator), now);
      ghost var ts := Trunks.States(trunks);
      out := AnswerOrForward(q, granted, outport);
      assert Trunks.States(trunks) == ts;
    }

    /** No registered child is the matrix or has it below itself. */
    ghost predicate NobodyServes(target: int)
      reads this
    {
      forall k :: k in childMatrixs ==> childMatrixs[k].id != target && target !in childMatrixs[k].childset
    }

    /** What becomes of a SWITCH request once the trunks have been asked. */
    method AnswerOrForward(q: Matrix.Request, granted: bool, outport: int) returns (out: Matrix.Sending)
      modifies this`processContexts, this`aborted
      ensures (Snap(), out) == Matrix.OnClientRxRequest(old(Snap()), q, granted, q.camera in cameras, outport)
      ensures !granted ==> out == Matrix.Up(Matrix.Response(q.id, q.to, q.from, q.initiator, 404, 0))
      ensures granted && q.to == matrixId ==>
        out == Matrix.Up(Matrix.Response(q.id, q.to, q.from, q.initiator, if q.camera in cameras then 200 else 404, outport))
      ensures granted && q.to != matrixId && NobodyServes(q.to) ==>
        out == Matrix.Up(Matrix.Response(q.id, q.to, q.from, q.initiator, 404, outport))
    {
      Matrix.MatchServes(childMatrixs, q.to);
      if !granted {
        return Matrix.Up(Matrix.BuildSwitchResponse(q, 404, 0));
      }
      if q.to == matrixId {
        var status := if q.camera in cameras then 200 else 404;
        return Matrix.Up(Matrix.BuildSwitchResponse(q, status, outport));
      }
      var matched := MatchMatrix(q.to);
      if matched.None? {
        return Matrix.Up(Matrix.BuildSwitchResponse(q, 404, outport));
      }
      if q.id in processContexts {
        aborted := true;
        return Matrix.Nothing;
      }
      processContexts := processContexts[q.id := Matrix.Context(false)];
      return Matrix.Down(matched.value.fd, q);
    }

    /** A PTZ request from the parent for a camera of this matrix. */
    method OnClientRxPtz(user: GlobalId, camera: int, now: int) returns (answer: PtzAnswer)
      modifies if camera in cameras && cameras[camera] != null then {cameras[camera]} else {}
      ensures Gear() == old(Gear())
      ensures answer == NullDereference <==> Phantom(Gear().cameras, camera)
      ensures !Real(Gear().cameras, camera) ==> answer == AnswerPtz(Gear().cameras, camera, false)
      ensures Real(Gear().cameras, camera) ==>
        var q := Ptz.Request(user, 0, now);
        && cameras[camera].State() == Ptz.Apply(old(cameras[camera].State()), q)
        && answer == AnswerPtz(Gear().cameras, camera, Ptz.Accepts(old(cameras[camera].State()), q))
    {
      if camera !in cameras {
        return Status(404);
      }
      var cam := cameras[camera];
      if cam == null {
        return NullDereference;
      }
      var r := Ptz.ProcessLocalPtz(cam, user, 0, now);
      return Status(if r == Ptz.ACCEPT then 200 else 400);
    }

    method OnServerRxResponse(r: Matrix.Response) returns (out: Matrix.Sending)
      modifies this`processContexts
      ensures (Snap(), out) == Matrix.OnServerRxResponse(old(Snap()), r)
    {
      if r.id !in processContexts {
        return Matrix.Nothing;
      }
      processContexts := processContexts - {r.id};
      out := if r.to == matrixId then Matrix.Done(r) else Matrix.Up(r);
    }
  }

  /** Writes a child and its announced set, in order, into the register message. */
  method Append(children: array<int>, start: nat, id: int, childset: set<int>) returns (j: nat)
    requires start + 1 + |childset| <= children.Length
    modifies children
    ensures j == start + 1 + |childset|
    ensures children[..j] == old(children[..start]) + ([id] + Matrix.Sorted(childset))
  {
    children[start] := id;
    j := start + 1;
    var ks := Ascending(childset);
    var k := 0;
    while k < |ks|
      invariant 0 <= k <= |ks| && j == start + 1 + k
      invariant children[..j] == old(children[..start]) + [id] + ks[..k]
    {
      children[j] := ks[k];
      j, k := j + 1, k + 1;
    }
    assert ks[..k] == ks;
  }

  lemma AnnounceNothing(keys: seq<int>, table: map<int, MatrixInfo>)
    requires keys == []
    ensures Matrix.Announce(keys, table) == []
  {}

  lemma AnnounceStep(keys: seq<int>, i: nat, table: map<int, MatrixInfo>)
    requires i < |keys| && forall k :: 0 <= k < |keys| ==> keys[k] in table
    ensures Matrix.Announce(keys[i..], table)
         == [table[keys[i]].id] + Matrix.Sorted(table[keys[i]].childset) + Matrix.Announce(keys[i + 1..], table)
  {}

  /** Looking up a camera that is not there plants it for later: once a keyboard has asked for a
      missing local camera and been refused, the next request for it from above is granted an
      idle trunk and answered as successful. */
  method PhantomCamera(m: Manager, monitor: int, keyboard: int, id: int, q: Matrix.Request, now: int)
    returns (r: Ptz.ProcessResult, granted: bool, out: Matrix.Sending)
    requires Trunks.Distinct(m.trunks) && Trunks.SomeIdle(Trunks.States(m.trunks))
    requires MonitorFree(m.monitors, monitor, keyboard, now)
    requires q.to == m.matrixId && q.camera !in m.Gear().cameras
    modifies m, m.trunks
    ensures r == Ptz.REJECT && granted
    ensures !Real(m.Gear().cameras, q.camera) && m.trunks == old(m.trunks)
    ensures exists k :: 0 <= k < |m.trunks| && out == Matrix.Up(Matrix.BuildSwitchResponse(q, 200, m.trunks[k].outport))
  {
    hide Trunks.Cleared, Trunks.SwitchStep, Matrix.OnClientRxRequest, Matrix.StartSwitch, Trunks.Reusable;
    ghost var ts := Trunks.States(m.trunks);
    var sent, outport;
    ghost var mid, k;
    r, sent := m.ProcessSwitchMessage(monitor, keyboard, GlobalId(m.matrixId, q.camera), id, now);
    assert Trunks.States(m.trunks) == ts && q.camera in m.Gear().cameras;
    granted, outport, out, mid, k := m.OnClientRxRequest(q, now);
    Trunks.IdleStaysIdle(ts, mid, now);
    assert out == Matrix.Up(Matrix.BuildSwitchResponse(q, 200, m.trunks[k].outport));
  }

  /** One such case, from the start: matrix 5 without cameras, with one monitor and one trunk. */
  method PhantomCameraFromTheStart(anyTime: int, now: int)
    returns (m: Manager, r: Ptz.ProcessResult, granted: bool, out: Matrix.Sending)
    ensures r == Ptz.REJECT && granted
    ensures out == Matrix.Up(Matrix.Response(1, 5, 0, 3, 200, 9)) && !Real(m.Gear().cameras, 7)
  {
    var trunk := new Trunks.Trunk(2, 9);
    m := new Manager(5, 1, {}, {1}, [trunk], anyTime);
    assert Trunks.States(m.trunks)[0].users == multiset{};
    r, granted, out := PhantomCamera(m, 1, 3, 0, Matrix.Request(1, 0, 5, 3, 7), now);
  }
}
