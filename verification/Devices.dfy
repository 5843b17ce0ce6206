/**
  The cameras and monitors of one matrix as the keyboards at that matrix use them
  (src/mccresourcemanager.cpp, processSwitchMessage and the local branch of processPtzMessage).
  The camera map is read with `operator[]`, which leaves a null entry behind for an id that is
  not there; this module says which entries a run leaves, and what they do to later answers.
 */
module Devices {
  import opened GlobalIds
  import Matrix

  /** The current user of a monitor. */
  datatype MonitorUser = MonitorUser(keyboard: int, deadline: int)

  /** `cameras[id]` is false for an entry that holds a null pointer. */
  datatype Devices = Devices(cameras: map<int, bool>, monitors: map<int, MonitorUser>)

  /** What a keyboard of this matrix asks for. */
  datatype Ask =
    | Show(monitor: int, keyboard: int, camera: GlobalId, now: int)
    | Steer(camera: GlobalId)

  predicate Real(cameras: map<int, bool>, id: int) {
    id in cameras && cameras[id]
  }

  predicate Phantom(cameras: map<int, bool>, id: int) {
    id in cameras && !cameras[id]
  }

  /** The monitor exists, and nobody with a higher keyboard number holds it. */
  predicate MonitorFree(monitors: map<int, MonitorUser>, monitor: int, keyboard: int, now: int) {
    && monitor in monitors
    && (Expired(monitors[monitor].deadline, now) || monitors[monitor].keyboard <= keyboard)
  }

  /** The map after `mCameras[id]` has been evaluated. */
  function LookedUp(cameras: map<int, bool>, id: int): map<int, bool> {
    if id in cameras then cameras else cameras[id := false]
  }

  /** The request makes this matrix evaluate `mCameras[id]`. */
  predicate LooksUp(matrix: int, d: Devices, a: Ask, id: int) {
    && a.camera == GlobalId(matrix, id)
    && (a.Show? ==> MonitorFree(d.monitors, a.monitor, a.keyboard, a.now))
  }

  function Asked(matrix: int, d: Devices, a: Ask): Devices {
    if !LooksUp(matrix, d, a, a.camera.lid) then d
    else if a.Show? && Real(d.cameras, a.camera.lid) then
      d.(monitors := d.monitors[a.monitor := MonitorUser(a.keyboard, a.now + DEFAULT_EXPIRE)])
    else d.(cameras := LookedUp(d.cameras, a.camera.lid))
  }

  function AfterAsks(matrix: int, d: Devices, asks: seq<Ask>): Devices {
    if asks == [] then d
    else Asked(matrix, AfterAsks(matrix, d, asks[..|asks| - 1]), asks[|asks| - 1])
  }

  /** Some request of the run makes this matrix look the camera up. */
  ghost predicate LookedUpBefore(matrix: int, d: Devices, asks: seq<Ask>, id: int) {
    exists k :: 0 <= k < |asks| && LooksUp(matrix, AfterAsks(matrix, d, asks[..k]), asks[k], id)
  }

  /** After any run the real cameras are those there were, and an entry is null exactly when it
      was null before, or there was none and some keyboard has asked for that id: for a local
      switch past the monitor test, or for a local PTZ operation. */
  lemma {:induction false} PhantomIff(matrix: int, d: Devices, asks: seq<Ask>, id: int)
    ensures var cameras := AfterAsks(matrix, d, asks).cameras;
      && (Real(cameras, id) <==> Real(d.cameras, id))
      && (Phantom(cameras, id) <==>
           Phantom(d.cameras, id) || (id !in d.cameras && LookedUpBefore(matrix, d, asks, id)))
  {
    if asks != [] {
      var before, last := asks[..|asks| - 1], asks[|asks| - 1];
      PhantomIff(matrix, d, before, id);
      AskPlants(matrix, AfterAsks(matrix, d, before), last, id);
      LookedUpByLast(matrix, d, asks, id);
      hide LooksUp, LookedUpBefore;
    }
  }

  lemma AskPlants(matrix: int, d: Devices, a: Ask, id: int)
    ensures var cameras := Asked(matrix, d, a).cameras;
      && (Real(cameras, id) <==> Real(d.cameras, id))
      && (Phantom(cameras, id) <==> Phantom(d.cameras, id) || (id !in d.cameras && LooksUp(matrix, d, a, id)))
      && (id in cameras <==> Real(cameras, id) || Phantom(cameras, id))
  {}

  lemma {:induction false} LookedUpByLast(matrix: int, d: Devices, asks: seq<Ask>, id: int)
    requires asks != []
    ensures var before := asks[..|asks| - 1];
      LookedUpBefore(matrix, d, asks, id)
      <==> LookedUpBefore(matrix, d, before, id) || LooksUp(matrix, AfterAsks(matrix, d, before), asks[|asks| - 1], id)
  {
    hide LooksUp, AfterAsks;
    var before, n := asks[..|asks| - 1], |asks| - 1;
    assert forall k :: 0 <= k < n ==> before[..k] == asks[..k] && before[k] == asks[k];
    if k :| 0 <= k < n && LooksUp(matrix, AfterAsks(matrix, d, before[..k]), before[k], id) {
      assert LooksUp(matrix, AfterAsks(matrix, d, asks[..k]), asks[k], id);
    }
  }

  /** The answer to a request from above that got a trunk and names this matrix says 200 exactly
      for a camera that exists. */
  ghost predicate AnsweredTruly(m: Matrix.State, cameras: map<int, bool>, q: Matrix.Request, outport: int) {
    Matrix.OnClientRxRequest(m, q, true, q.camera in cameras, outport).1
    == Matrix.Up(Matrix.BuildSwitchResponse(q, if Real(cameras, q.camera) then 200 else 404, outport))
  }

  /** After any run that began with real cameras only, such a request is answered truly if and
      only if the camera is real or no keyboard of this matrix has made it look the camera up. */
  lemma {:induction false} AnsweredTrulyIff(m: Matrix.State, d: Devices, asks: seq<Ask>, q: Matrix.Request, outport: int)
    requires q.to == m.id && forall id :: id in d.cameras ==> d.cameras[id]
    ensures AnsweredTruly(m, AfterAsks(m.id, d, asks).cameras, q, outport)
       <==> q.camera in d.cameras || !LookedUpBefore(m.id, d, asks, q.camera)
  {
    PhantomIff(m.id, d, asks, q.camera);
  }

  /** A PTZ request from above for a camera of this matrix: the map is searched, and whatever the
      entry points to is asked. */
  datatype PtzAnswer = Status(code: int) | NullDereference

  function AnswerPtz(cameras: map<int, bool>, id: int, accepts: bool): PtzAnswer {
    if id !in cameras then Status(404)
    else if !cameras[id] then NullDereference
    else Status(if accepts then 200 else 400)
  }

  /** After any run that began with real cameras only, such a request is defined if and only if the
      camera is real or no keyboard of this matrix has made it look the camera up. */
  lemma {:induction false} PtzIsDefinedIff(matrix: int, d: Devices, asks: seq<Ask>, id: int, accepts: bool)
    requires forall id :: id in d.cameras ==> d.cameras[id]
    ensures AnswerPtz(AfterAsks(matrix, d, asks).cameras, id, accepts) != NullDereference
       <==> id in d.cameras || !LookedUpBefore(matrix, d, asks, id)
  {
    PhantomIff(matrix, d, asks, id);
  }

  // ----- in seconds and fields -----

  /** What a local switch does, case by case: nothing if the monitor is missing or held within its
      lease by a higher keyboard, or the camera is elsewhere; otherwise it takes the monitor for 20
      seconds if the camera is there, and leaves a null entry if it is not. */
  lemma ShowCases(matrix: int, d: Devices, monitor: int, keyboard: int, camera: GlobalId, now: int)
    ensures var d' := Asked(matrix, d, Show(monitor, keyboard, camera, now));
      var id := camera.lid;
      if monitor !in d.monitors
        || (now <= d.monitors[monitor].deadline && d.monitors[monitor].keyboard > keyboard)
        || camera.mid != matrix
      then d' == d
      else if id in d.cameras && d.cameras[id]
      then d' == Devices(d.cameras, d.monitors[monitor := MonitorUser(keyboard, now + 20)])
      else d' == Devices(if id in d.cameras then d.cameras else d.cameras[id := false], d.monitors)
  {}

  /** Steering looks the camera up, if it is one of this matrix, and does nothing else here. */
  lemma SteerCases(matrix: int, d: Devices, camera: GlobalId)
    ensures var d' := Asked(matrix, d, Steer(camera));
      if camera.mid != matrix || camera.lid in d.cameras then d' == d
      else d' == Devices(d.cameras[camera.lid := false], d.monitors)
  {}

  /** A monitor taken by a keyboard at time t is closed to lower keyboards for 20 seconds, to the
      second, and open to the others throughout. */
  lemma {:induction false} MonitorForTwentySeconds(matrix: int, d: Devices, monitor: int, keyboard: int, camera: int, t: int,
                                                   other: int, now: int)
    requires monitor in d.monitors && (t > d.monitors[monitor].deadline || d.monitors[monitor].keyboard <= keyboard)
    requires camera in d.cameras && d.cameras[camera]
    ensures var d' := Asked(matrix, d, Show(monitor, keyboard, GlobalId(matrix, camera), t));
      MonitorFree(d'.monitors, monitor, other, now) <==> other >= keyboard || now > t + 20
  {
    ShowCases(matrix, d, monitor, keyboard, GlobalId(matrix, camera), t);
  }

  /** What a PTZ request from the parent is answered. */
  lemma AnswerPtzCases(cameras: map<int, bool>, id: int, accepts: bool)
    ensures id !in cameras ==> AnswerPtz(cameras, id, accepts) == Status(404)
    ensures id in cameras && !cameras[id] ==> AnswerPtz(cameras, id, accepts) == NullDereference
    ensures id in cameras && cameras[id] ==> AnswerPtz(cameras, id, accepts) == Status(if accepts then 200 else 400)
  {}
}
