/**
  Arbitration of the trunks that carry cameras to the upper matrix (src/mccresourcemanager.h,
  class Trunk; src/mccresourcemanager.cpp, checkTrunk and the local part of
  onClientRxRequest).  Each trunk keeps its users in a heap with the smallest id on top.
 */
module Trunks {
  import opened GlobalIds

  datatype User = User(id: GlobalId, deadline: int)

  datatype TrunkState = TrunkState(cid: GlobalId, users: multiset<User>)

  /** `u` may be what `top()` returns: no user has a smaller id (equal ids are not ranked). */
  ghost predicate IsTop(u: User, users: multiset<User>) {
    u in users && forall v :: v in users ==> u.id.Le(v.id)
  }

  lemma {:induction false} TopExists(users: multiset<User>) returns (u: User)
    requires users != multiset{}
    ensures IsTop(u, users)
    decreases |users|
  {
    var v :| v in users;
    var rest := users - multiset{v};
    if rest == multiset{} {
      u := v;
      assert forall w :: w in users ==> w == v || w in rest;
    } else {
      u := TopExists(rest);
      assert forall w :: w in users ==> w == v || w in rest;
      if v.id.Lt(u.id) {
        u := v;
      }
    }
  }

  /** What clearing at a clock reading leaves: only expired users went, none from above a user
      that stayed, and the top that remains is still within its lease. */
  ghost predicate ClearedUsers(users: multiset<User>, users': multiset<User>, now: int) {
    && users' <= users
    && (forall u :: u in users - users' ==> Expired(u.deadline, now))
    && (forall u, v :: u in users - users' && v in users' ==> u.id.Le(v.id))
    && (users' != multiset{} ==> exists u :: IsTop(u, users') && !Expired(u.deadline, now))
  }

  ghost predicate Cleared(s: TrunkState, s': TrunkState, now: int) {
    && ClearedUsers(s.users, s'.users, now)
    && s'.cid == if s'.users == multiset{} then NullID else s.cid
  }

  class Trunk {
    const id: int
    const outport: int
    var cameraId: GlobalId
    var users: multiset<User>

    constructor (id: int, outport: int)
      ensures this.id == id && this.outport == outport && State() == TrunkState(NullID, multiset{})
    {
      this.id, this.outport := id, outport;
      cameraId, users := NullID, multiset{};
    }

    function State(): TrunkState
      reads this
    {
      TrunkState(cameraId, users)
    }

    method Push(user: User)
      modifies this
      ensures State() == TrunkState(old(cameraId), old(users) + multiset{user})
    {
      users := users + multiset{user};
    }

    method Top() returns (u: User)
      requires users != multiset{}
      ensures IsTop(u, users)
    {
      ghost var w := TopExists(users);
      u :| u in users && forall v :: v in users ==> u.id.Le(v.id);
    }

    method UpdateUsers(now: int)
      modifies this
      ensures Cleared(old(State()), State(), now)
    {
      var live := false;
      while users != multiset{} && !live
        invariant cameraId == old(cameraId) && users <= old(users)
        invariant forall u :: u in old(users) - users ==> Expired(u.deadline, now)
        invariant forall u, v :: u in old(users) - users && v in users ==> u.id.Le(v.id)
        invariant live ==> exists u :: IsTop(u, users) && !Expired(u.deadline, now)
        decreases |users|, !live
      {
        var u := Top();
        if Expired(u.deadline, now) {
          ghost var before := users;
          users := users - multiset{u};
          assert forall w :: w in old(users) - users ==> w == u || w in old(users) - before;
        } else {
          live := true;
        }
      }
      if users == multiset{} {
        cameraId := NullID;
      }
    }
  }

  // ----- the choice of a trunk -----

  /** `id` is below every user of the trunk. */
  ghost predicate BelowAll(id: GlobalId, s: TrunkState) {
    forall u :: u in s.users ==> id.Lt(u.id)
  }

  /** Some user of the trunk is at or below `id`. */
  ghost predicate SomeAtMost(s: TrunkState, id: GlobalId) {
    exists u :: u in s.users && u.id.Le(id)
  }

  /** The trunk's smallest user id is at least that of the other's. */
  ghost predicate TopAtLeast(s: TrunkState, other: TrunkState) {
    forall u :: u in s.users ==> SomeAtMost(other, u.id)
  }

  lemma SomeAtMostGrows(s: TrunkState, id: GlobalId, id': GlobalId)
    requires SomeAtMost(s, id) && id.Le(id')
    ensures SomeAtMost(s, id')
  {}

  ghost predicate Reusable(ts: seq<TrunkState>, camera: GlobalId) {
    exists i :: 0 <= i < |ts| && ts[i].cid == camera
  }

  ghost predicate SomeIdle(ts: seq<TrunkState>) {
    exists i :: 0 <= i < |ts| && ts[i].users == multiset{}
  }

  /** Trunk `k` is a right choice: the one carrying the camera, else an idle one, else one whose
      smallest user id is largest, provided the requester is below all of its users. */
  ghost predicate RightChoice(ts: seq<TrunkState>, user: GlobalId, camera: GlobalId, k: int)
    ensures RightChoice(ts, user, camera, k) ==> 0 <= k < |ts|
  {
    && 0 <= k < |ts|
    && if Reusable(ts, camera) then ts[k].cid == camera
       else if SomeIdle(ts) then ts[k].users == multiset{}
       else BelowAll(user, ts[k]) && forall i :: 0 <= i < |ts| ==> TopAtLeast(ts[k], ts[i])
  }

  /** Every trunk is taken by somebody at or below the requester. */
  ghost predicate AllBusy(ts: seq<TrunkState>, user: GlobalId, camera: GlobalId) {
    && !Reusable(ts, camera) && !SomeIdle(ts)
    && forall i :: 0 <= i < |ts| ==> SomeAtMost(ts[i], user)
  }

  ghost function States(trunks: seq<Trunk>): (ts: seq<TrunkState>)
    reads trunks
    ensures |ts| == |trunks| && forall i :: 0 <= i < |ts| ==> ts[i] == trunks[i].State()
  {
    seq(|trunks|, i requires 0 <= i < |trunks| reads trunks => trunks[i].State())
  }

  ghost predicate Distinct(trunks: seq<Trunk>) {
    forall i, j :: 0 <= i < j < |trunks| ==> trunks[i] != trunks[j]
  }

  ghost predicate AllCleared(ts: seq<TrunkState>, ts': seq<TrunkState>, now: int) {
    |ts'| == |ts| && forall i :: 0 <= i < |ts| ==> Cleared(ts[i], ts'[i], now)
  }

  method UpdateAll(trunks: seq<Trunk>, now: int)
    requires Distinct(trunks)
    modifies trunks
    ensures AllCleared(old(States(trunks)), States(trunks), now)
  {
    var i := 0;
    while i < |trunks|
      invariant 0 <= i <= |trunks|
      invariant forall k :: 0 <= k < i ==> Cleared(old(States(trunks))[k], trunks[k].State(), now)
      invariant forall k :: i <= k < |trunks| ==> trunks[k].State() == old(States(trunks))[k]
    {
      trunks[i].UpdateUsers(now);
      i := i + 1;
    }
  }

  method FindCamera(trunks: seq<Trunk>, camera: GlobalId) returns (k: int)
    ensures k == -1 <==> !Reusable(States(trunks), camera)
    ensures k != -1 ==> 0 <= k < |trunks| && trunks[k].cameraId == camera
  {
    k := 0;
    while k < |trunks|
      invariant 0 <= k <= |trunks|
      invariant forall i :: 0 <= i < k ==> trunks[i].cameraId != camera
    {
      if trunks[k].cameraId == camera {
        assert States(trunks)[k].cid == camera;
        return;
      }
      k := k + 1;
    }
    k := -1;
  }

  method FindIdle(trunks: seq<Trunk>) returns (k: int)
    ensures k == -1 <==> !SomeIdle(States(trunks))
    ensures k != -1 ==> 0 <= k < |trunks| && trunks[k].users == multiset{}
  {
    k := 0;
    while k < |trunks|
      invariant 0 <= k <= |trunks|
      invariant forall i :: 0 <= i < k ==> trunks[i].users != multiset{}
    {
      if trunks[k].users == multiset{} {
        assert States(trunks)[k].users == multiset{};
        return;
      }
      k := k + 1;
    }
    k := -1;
  }

  /** The trunk whose top is largest. */
  method FindWeakest(trunks: seq<Trunk>) returns (k: int, top: User)
    requires |trunks| > 0 && forall i :: 0 <= i < |trunks| ==> trunks[i].users != multiset{}
    ensures 0 <= k < |trunks| && IsTop(top, trunks[k].users)
    ensures forall i :: 0 <= i < |trunks| ==> SomeAtMost(trunks[i].State(), top.id)
  {
    k := 0;
    top := trunks[0].Top();
    var i := 0;
    while i < |trunks|
      invariant 0 <= i <= |trunks| && 0 <= k < |trunks| && IsTop(top, trunks[k].users)
      invariant forall j :: 0 <= j < i ==> SomeAtMost(trunks[j].State(), top.id)
    {
      var t := trunks[i].Top();
      assert t in trunks[i].State().users;
      if t.id.Gt(top.id) {
        forall j | 0 <= j < i ensures SomeAtMost(trunks[j].State(), t.id) {
          SomeAtMostGrows(trunks[j].State(), top.id, t.id);
        }
        k, top := i, t;
      }
      i := i + 1;
    }
  }

  /** Comparing the requester with the largest of the tops decides the matter. */
  lemma WeakestDecides(ts: seq<TrunkState>, user: GlobalId, camera: GlobalId, k: int, top: User)
    requires !Reusable(ts, camera) && !SomeIdle(ts) && 0 <= k < |ts| && IsTop(top, ts[k].users)
    requires forall i :: 0 <= i < |ts| ==> SomeAtMost(ts[i], top.id)
    ensures top.id.Gt(user) ==> RightChoice(ts, user, camera, k) && !AllBusy(ts, user, camera)
    ensures !top.id.Gt(user) ==> AllBusy(ts, user, camera)
  {}

  /** The searches of `checkTrunk`, once the expired users are gone. */
  method ChooseTrunk(trunks: seq<Trunk>, user: GlobalId, camera: GlobalId) returns (k: int)
    requires |trunks| > 0
    ensures k == -1 <==> AllBusy(States(trunks), user, camera)
    ensures k != -1 ==> RightChoice(States(trunks), user, camera, k)
  {
    ghost var ts := States(trunks);
    k := FindCamera(trunks, camera);
    if k != -1 {
      return;
    }
    k := FindIdle(trunks);
    if k != -1 {
      return;
    }
    assert forall j :: 0 <= j < |trunks| ==> ts[j].users == trunks[j].users;
    var i, top := FindWeakest(trunks);
    WeakestDecides(ts, user, camera, i, top);
    k := if top.id.Gt(user) then i else -1;
  }

  method CheckTrunk(trunks: seq<Trunk>, user: GlobalId, camera: GlobalId, now: int) returns (ok: bool, trunk: Trunk?, ghost k: int)
    requires |trunks| > 0 && Distinct(trunks)
    modifies trunks
    ensures AllCleared(old(States(trunks)), States(trunks), now)
    ensures ok <==> !AllBusy(States(trunks), user, camera)
    ensures ok ==> RightChoice(States(trunks), user, camera, k) && trunk == trunks[k]
  {
    UpdateAll(trunks, now);
    var i := ChooseTrunk(trunks, user, camera);
    ok, trunk, k := i != -1, null, i;
    if ok {
      trunk := trunks[i];
    }
  }

  // ----- no camera on two trunks -----

  /** Cameras on trunks are local and pairwise distinct, and a trunk carries one exactly when it
      has users. */
  ghost predicate TrunksSound(ts: seq<TrunkState>, matrix: int) {
    && (forall i :: 0 <= i < |ts| ==> (ts[i].users == multiset{} <==> ts[i].cid == NullID))
    && (forall i :: 0 <= i < |ts| && ts[i].cid != NullID ==> ts[i].cid.mid == matrix)
    && (forall i, j :: 0 <= i < j < |ts| && ts[i].cid != NullID ==> ts[i].cid != ts[j].cid)
  }

  /** A SWITCH request as the trunks see it: clearing, a choice, and, for an existing local
      camera, the user pushed and the camera set. */
  ghost predicate SwitchStep(ts: seq<TrunkState>, ts': seq<TrunkState>, matrix: int, cameras: set<int>,
                             to: int, camera: int, user: User, now: int)
  {
    exists mid: seq<TrunkState> ::
      AllCleared(ts, mid, now) && Settled(mid, ts', GlobalId(to, camera), user, to == matrix && camera in cameras)
  }

  /** The chosen trunk is taken over for a camera that is here, and nothing changes otherwise. */
  ghost predicate Settled(ts: seq<TrunkState>, ts': seq<TrunkState>, cid: GlobalId, user: User, here: bool) {
    if AllBusy(ts, user.id, cid) || !here then ts' == ts
    else exists k :: RightChoice(ts, user.id, cid, k) && ts' == Taken(ts, k, cid, user)
  }

  ghost function Taken(ts: seq<TrunkState>, k: int, camera: GlobalId, user: User): seq<TrunkState>
    requires 0 <= k < |ts|
  {
    ts[k := TrunkState(camera, ts[k].users + multiset{user})]
  }

  lemma ClearingKeepsSound(ts: seq<TrunkState>, mid: seq<TrunkState>, matrix: int, now: int)
    requires TrunksSound(ts, matrix) && AllCleared(ts, mid, now)
    ensures TrunksSound(mid, matrix)
  {}

  lemma {:induction false} TakingKeepsSound(ts: seq<TrunkState>, matrix: int, k: int, camera: int, user: User)
    requires TrunksSound(ts, matrix) && matrix != -1
    requires RightChoice(ts, user.id, GlobalId(matrix, camera), k)
    ensures TrunksSound(Taken(ts, k, GlobalId(matrix, camera), user), matrix)
  {
    var cid := GlobalId(matrix, camera);
    NoOtherCarries(ts, matrix, k, cid, user.id);
    NewCameraIsSound(ts, matrix, k, cid, user);
  }

  lemma NewCameraIsSound(ts: seq<TrunkState>, matrix: int, k: int, cid: GlobalId, user: User)
    requires TrunksSound(ts, matrix) && 0 <= k < |ts| && cid != NullID && cid.mid == matrix
    requires forall i :: 0 <= i < |ts| && i != k ==> ts[i].cid != cid
    ensures TrunksSound(Taken(ts, k, cid, user), matrix)
  {}

  /** No trunk but the chosen one carries the camera asked for. */
  lemma NoOtherCarries(ts: seq<TrunkState>, matrix: int, k: int, cid: GlobalId, user: GlobalId)
    requires TrunksSound(ts, matrix) && cid != NullID && RightChoice(ts, user, cid, k)
    ensures forall i :: 0 <= i < |ts| && i != k ==> ts[i].cid != cid
  {}

  lemma {:induction false} SwitchKeepsSound(ts: seq<TrunkState>, ts': seq<TrunkState>, matrix: int, cameras: set<int>,
                         to: int, camera: int, user: User, now: int)
    requires TrunksSound(ts, matrix) && matrix != -1
    requires SwitchStep(ts, ts', matrix, cameras, to, camera, user, now)
    ensures TrunksSound(ts', matrix)
  {
    hide AllCleared, AllBusy, TrunksSound, RightChoice;
    var cid, here := GlobalId(to, camera), to == matrix && camera in cameras;
    var mid: seq<TrunkState> :| AllCleared(ts, mid, now) && Settled(mid, ts', cid, user, here);
    ClearingKeepsSound(ts, mid, matrix, now);
    if !AllBusy(mid, user.id, cid) && here {
      var k :| RightChoice(mid, user.id, cid, k) && ts' == Taken(mid, k, cid, user);
      TakingKeepsSound(mid, matrix, k, camera, user);
    }
  }

  /** A request as one matrix handles it, with the cameras its map held at that moment: looking
      a camera up may add an entry between two requests. */
  datatype SwitchRequest = SwitchRequest(to: int, camera: int, user: User, now: int, cameras: set<int>)

  /** A run of requests at one matrix: the states before and after each of them. */
  ghost predicate TrunkRun(run: seq<seq<TrunkState>>, qs: seq<SwitchRequest>, matrix: int) {
    && |run| == |qs| + 1
    && (forall k :: 0 <= k < |qs| ==> qs[k].user.deadline == qs[k].now + 20)
    && (forall i :: 0 <= i < |run[0]| ==> run[0][i] == TrunkState(NullID, multiset{}))
    && forall k :: 0 <= k < |qs| ==>
         SwitchStep(run[k], run[k + 1], matrix, qs[k].cameras, qs[k].to, qs[k].camera, qs[k].user, qs[k].now)
  }

  /** No two trunks ever carry the same camera. */
  lemma {:induction false} NoCameraOnTwoTrunks(run: seq<seq<TrunkState>>, qs: seq<SwitchRequest>, matrix: int, k: nat)
    requires TrunkRun(run, qs, matrix) && matrix != -1 && k <= |qs|
    ensures TrunksSound(run[k], matrix)
  {
    hide SwitchStep;
    if k > 0 {
      NoCameraOnTwoTrunks(run, qs, matrix, k - 1);
      var q := qs[k - 1];
      assert SwitchStep(run[k - 1], run[k - 1 + 1], matrix, q.cameras, q.to, q.camera, q.user, q.now);
      SwitchKeepsSound(run[k - 1], run[k], matrix, q.cameras, q.to, q.camera, q.user, q.now);
    }
  }

  /** What a SWITCH request does to the trunks of a matrix before it is answered or forwarded:
      the trunk check, and for an existing local camera the take-over of the chosen trunk.  The
      port answered is that of the trunk chosen. */
  method UseTrunk(trunks: seq<Trunk>, matrix: int, cameras: set<int>, to: int, camera: int, userId: GlobalId, now: int)
    returns (granted: bool, outport: int, ghost mid: seq<TrunkState>, ghost k: int)
    requires |trunks| > 0 && Distinct(trunks)
    modifies trunks
    ensures AllCleared(old(States(trunks)), mid, now) && granted == !AllBusy(mid, userId, GlobalId(to, camera))
    ensures granted ==> RightChoice(mid, userId, GlobalId(to, camera), k) && outport == trunks[k].outport
    ensures States(trunks) ==
      if granted && to == matrix && camera in cameras then Taken(mid, k, GlobalId(to, camera), User(userId, now + DEFAULT_EXPIRE))
      else mid
    ensures SwitchStep(old(States(trunks)), States(trunks), matrix, cameras, to, camera, User(userId, now + DEFAULT_EXPIRE), now)
  {
    hide AllCleared, AllBusy, RightChoice;
    var cid := GlobalId(to, camera);
    var trunk;
    granted, trunk, k := CheckTrunk(trunks, userId, cid, now);
    mid := States(trunks);
    outport := 0;
    if granted {
      outport := trunk.outport;
      if to == matrix && camera in cameras {
        TakeOver(trunks, trunk, cid, User(userId, now + DEFAULT_EXPIRE), k);
      }
    }
    assert Settled(mid, States(trunks), cid, User(userId, now + DEFAULT_EXPIRE), to == matrix && camera in cameras);
  }

  /** A trunk without users stays without users when the expired ones are cleared. */
  lemma IdleStaysIdle(ts: seq<TrunkState>, mid: seq<TrunkState>, now: int)
    requires AllCleared(ts, mid, now) && SomeIdle(ts)
    ensures SomeIdle(mid)
  {
    var i :| 0 <= i < |ts| && ts[i].users == multiset{};
    assert mid[i].users == multiset{};
  }

  method TakeOver(trunks: seq<Trunk>, trunk: Trunk, cid: GlobalId, user: User, ghost k: int)
    requires Distinct(trunks) && 0 <= k < |trunks| && trunks[k] == trunk
    modifies trunk
    ensures States(trunks) == Taken(old(States(trunks)), k, cid, user)
  {
    trunk.Push(user);
    trunk.cameraId := cid;
  }

  // ----- leases in seconds -----

  /** What clearing at a reading of the clock does, user by user: those whose deadline has not passed
      stay, and so does everyone above one of them; if there are none, everybody goes. */
  lemma {:induction false} ClearingRule(s: TrunkState, s': TrunkState, now: int)
    requires Cleared(s, s', now)
    ensures forall u :: u in s.users && u.deadline >= now ==> s'.users[u] == s.users[u]
    ensures forall u, v :: u in s.users && v in s.users && v.deadline >= now && v.id.Lt(u.id) ==> s'.users[u] == s.users[u]
    ensures (forall u :: u in s.users ==> u.deadline < now) ==> s'.users == multiset{} && s'.cid == GlobalId(-1, -1)
  {
    var gone := s.users - s'.users;
    forall u | u in s.users && u.deadline >= now ensures s'.users[u] == s.users[u] {
      assert u !in gone;
      assert gone[u] == 0;
    }
    forall u, v | u in s.users && v in s.users && v.deadline >= now && v.id.Lt(u.id) ensures s'.users[u] == s.users[u] {
      assert v !in gone;
      assert gone[v] == 0 && v in s'.users;
      assert u !in gone;
      assert gone[u] == 0;
    }
    assert forall u :: u in s'.users ==> u in s.users;
  }

  /** Over a run: a user stays on its trunk as long as the clock has not passed its deadline, which
      for the user of a request granted at time t is t + 20. */
  lemma {:induction false} GrantLasts(run: seq<seq<TrunkState>>, qs: seq<SwitchRequest>, matrix: int,
                                      j: nat, k: nat, i: nat, u: User)
    requires TrunkRun(run, qs, matrix) && j <= k <= |qs| && i < |run[j]| && u in run[j][i].users
    requires forall x :: j <= x < k ==> qs[x].now <= u.deadline
    ensures i < |run[k]| && u in run[k][i].users
  {
    hide SwitchStep;
    if j < k {
      GrantLasts(run, qs, matrix, j, k - 1, i, u);
      var q := qs[k - 1];
      assert SwitchStep(run[k - 1], run[k - 1 + 1], matrix, q.cameras, q.to, q.camera, q.user, q.now);
      StepKeepsUser(run[k - 1], run[k], matrix, q.cameras, q.to, q.camera, q.user, q.now, i, u);
    }
  }

  lemma {:induction false} StepKeepsUser(ts: seq<TrunkState>, ts': seq<TrunkState>, matrix: int, cameras: set<int>,
                                         to: int, camera: int, user: User, now: int, i: nat, u: User)
    requires SwitchStep(ts, ts', matrix, cameras, to, camera, user, now)
    requires i < |ts| && u in ts[i].users && now <= u.deadline
    ensures i < |ts'| && u in ts'[i].users
  {
    hide Cleared, AllBusy, RightChoice;
    var cid, here := GlobalId(to, camera), to == matrix && camera in cameras;
    var mid: seq<TrunkState> :| AllCleared(ts, mid, now) && Settled(mid, ts', cid, user, here);
    ClearingRule(ts[i], mid[i], now);
    assert u in mid[i].users;
  }

  /** A granted request for a local camera puts its user on a trunk with a deadline 20 seconds off. */
  lemma {:induction false} GrantTakesATrunk(run: seq<seq<TrunkState>>, qs: seq<SwitchRequest>, matrix: int, j: nat) returns (i: nat)
    requires TrunkRun(run, qs, matrix) && j < |qs| && qs[j].to == matrix && qs[j].camera in qs[j].cameras
    requires exists x :: 0 <= x < |run[j]| && Free(run[j][x], qs[j].now)
    ensures i < |run[j + 1]| && User(qs[j].user.id, qs[j].now + 20) in run[j + 1][i].users
    ensures run[j + 1][i].cid == GlobalId(matrix, qs[j].camera)
  {
    var q, ts, ts' := qs[j], run[j], run[j + 1];
    assert SwitchStep(ts, ts', matrix, q.cameras, q.to, q.camera, q.user, q.now);
    var mid: seq<TrunkState> :| AllCleared(ts, mid, q.now) && Settled(mid, ts', GlobalId(q.to, q.camera), q.user, true);
    var x :| 0 <= x < |ts| && Free(ts[x], q.now);
    hide Cleared;
    ExpiredTrunkIsGranted(ts, mid, q.now, x, q.user.id, GlobalId(q.to, q.camera));
    var k :| RightChoice(mid, q.user.id, GlobalId(q.to, q.camera), k) && ts' == Taken(mid, k, GlobalId(q.to, q.camera), q.user);
    i := k;
  }

  /** A request is refused exactly when no trunk carries the camera and every trunk has a user whose
      id, matrix number first, is no larger than that of the requester. */
  lemma RefusedIff(ts: seq<TrunkState>, user: GlobalId, camera: GlobalId)
    ensures AllBusy(ts, user, camera) <==>
      forall i :: 0 <= i < |ts| ==>
        && ts[i].cid != camera
        && exists u :: u in ts[i].users && (u.id.mid < user.mid || (u.id.mid == user.mid && u.id.lid <= user.lid))
  {
    forall i | 0 <= i < |ts|
      ensures SomeAtMost(ts[i], user) <==>
        exists u :: u in ts[i].users && (u.id.mid < user.mid || (u.id.mid == user.mid && u.id.lid <= user.lid)) {}
    if forall i :: 0 <= i < |ts| ==> ts[i].cid != camera && SomeAtMost(ts[i], user) {
      assert AllBusy(ts, user, camera);
    }
  }

  /** A user stays on a trunk only above, or as, one within its lease. */
  lemma {:induction false} WhoStays(s: TrunkState, s': TrunkState, now: int, u: User)
    requires Cleared(s, s', now) && u in s'.users
    ensures exists v :: v in s.users && v.deadline >= now && v.id.Le(u.id)
    ensures s'.cid == s.cid
  {
    var v :| IsTop(v, s'.users) && !Expired(v.deadline, now);
    assert v in s'.users;
  }

  /** A trunk with a user within its lease changes its camera only for a requester whose id is smaller
      than those of all such users, and then to the camera asked for. */
  lemma {:induction false} TakenOnlyFromLargerIds(ts: seq<TrunkState>, ts': seq<TrunkState>, matrix: int, cameras: set<int>,
                                                  to: int, camera: int, user: User, now: int, i: nat, u: User)
    requires SwitchStep(ts, ts', matrix, cameras, to, camera, user, now)
    requires i < |ts| && u in ts[i].users && now <= u.deadline
    ensures |ts'| == |ts|
    ensures ts'[i].cid != ts[i].cid ==>
      && ts'[i].cid == GlobalId(to, camera) && to == matrix && camera in cameras
      && (user.id.mid < u.id.mid || (user.id.mid == u.id.mid && user.id.lid < u.id.lid))
  {
    hide Cleared, AllBusy, RightChoice;
    var cid, here := GlobalId(to, camera), to == matrix && camera in cameras;
    var mid: seq<TrunkState> :| AllCleared(ts, mid, now) && Settled(mid, ts', cid, user, here);
    ClearingRule(ts[i], mid[i], now);
    assert u in mid[i].users;
    WhoStays(ts[i], mid[i], now, u);
    if ts'[i].cid != mid[i].cid {
      ChosenFromAbove(mid, user.id, cid, i, u);
    }
  }

  lemma ChosenFromAbove(ts: seq<TrunkState>, user: GlobalId, camera: GlobalId, k: int, u: User)
    requires RightChoice(ts, user, camera, k) && ts[k].cid != camera && u in ts[k].users
    ensures user.mid < u.id.mid || (user.mid == u.id.mid && user.lid < u.id.lid)
  {}

  /** Everyone on the trunk has run out. */
  predicate Free(s: TrunkState, now: int) {
    forall u :: u in s.users ==> u.deadline < now
  }

  /** A trunk all of whose users have run out is granted to anybody. */
  lemma {:induction false} ExpiredTrunkIsGranted(ts: seq<TrunkState>, mid: seq<TrunkState>, now: int, k: nat,
                                                 user: GlobalId, camera: GlobalId)
    requires AllCleared(ts, mid, now) && k < |ts| && Free(ts[k], now)
    ensures mid[k] == TrunkState(GlobalId(-1, -1), multiset{}) && !AllBusy(mid, user, camera)
  {
    ClearingRule(ts[k], mid[k], now);
    assert mid[k].users == multiset{};
  }
}
