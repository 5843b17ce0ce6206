/**
  Arbitration of a camera's pan-tilt-zoom control (src/mccresourcemanager.cpp, processLocalPtz):
  identifiers are priorities, and a hold is a lease of 20 seconds.  The clock is read once per
  request; `releasePtz` is the comparison it is in the source and leaves the holder in place.
 */
module Ptz {
  import opened GlobalIds

  datatype ProcessResult = ACCEPT | REJECT | PENDING

  datatype Hold = Hold(locked: bool, holder: GlobalId, deadline: int)

  class Camera {
    const id: int
    var isPtzLocked: bool
    var ptzUserId: GlobalId
    var ptzExpireTime: int

    /** The expiry time of a new camera's user is whatever its storage held. */
    constructor (id: int, anyTime: int)
      ensures this.id == id && State() == Hold(false, NullID, anyTime)
    {
      this.id := id;
      isPtzLocked, ptzUserId, ptzExpireTime := false, NullID, anyTime;
    }

    function State(): Hold
      reads this
    {
      Hold(isPtzLocked, ptzUserId, ptzExpireTime)
    }

    method AcquirePtz(user: GlobalId, now: int)
      modifies this
      ensures State() == Hold(old(isPtzLocked), user, now + DEFAULT_EXPIRE)
    {
      ptzUserId := user;
      ptzExpireTime := now + DEFAULT_EXPIRE;
    }

    method LockPtz(user: GlobalId, now: int)
      modifies this
      ensures State() == Hold(true, user, now + DEFAULT_EXPIRE)
    {
      AcquirePtz(user, now);
      isPtzLocked := true;
    }

    method UnlockPtz()
      modifies this
      ensures State() == old(State()).(locked := false)
    {
      isPtzLocked := false;
    }
  }

  /** A request: who, whether it locks (1), unlocks (2) or just operates, and when. */
  datatype Request = Request(user: GlobalId, lockcode: int, now: int)

  method ProcessLocalPtz(cam: Camera, user: GlobalId, lockcode: int, now: int) returns (r: ProcessResult)
    modifies cam
    ensures cam.State() == Apply(old(cam.State()), Request(user, lockcode, now))
    ensures r == if Accepts(old(cam.State()), Request(user, lockcode, now)) then ACCEPT else REJECT
  {
    if cam.isPtzLocked && Expired(cam.ptzExpireTime, now) {
      cam.UnlockPtz();
    }
    if cam.isPtzLocked {
      if cam.ptzUserId.Le(user) || Expired(cam.ptzExpireTime, now) {
        if lockcode == 1 {
          cam.LockPtz(user, now);
        } else if lockcode == 2 {
          cam.UnlockPtz();
        }
        return ACCEPT;
      }
    } else {
      if lockcode == 1 {
        if cam.ptzUserId.Le(user) {
          cam.LockPtz(user, now);
          return ACCEPT;
        }
      } else if lockcode == 2 {
      } else {
        if cam.ptzUserId.Le(user) || Expired(cam.ptzExpireTime, now) {
          cam.AcquirePtz(user, now);
          return ACCEPT;
        }
      }
    }
    return REJECT;
  }

  // ----- the rule -----

  /** The lock holds and its lease has not run out. */
  predicate Live(s: Hold, now: int) {
    s.locked && !Expired(s.deadline, now)
  }

  /** Who is let through, for each kind of request. */
  predicate Accepts(s: Hold, q: Request) {
    if q.lockcode == 1 then s.holder.Le(q.user)
    else if q.lockcode == 2 then Live(s, q.now) && s.holder.Le(q.user)
    else s.holder.Le(q.user) || Expired(s.deadline, q.now)
  }

  function Apply(s: Hold, q: Request): Hold {
    var locked := Live(s, q.now);
    if !Accepts(s, q) then s.(locked := locked)
    else if q.lockcode == 1 then Hold(true, q.user, q.now + DEFAULT_EXPIRE)
    else if q.lockcode == 2 then s.(locked := false)
    else if locked then s
    else Hold(false, q.user, q.now + DEFAULT_EXPIRE)
  }

  function After(s: Hold, qs: seq<Request>): Hold {
    if qs == [] then s else Apply(After(s, qs[..|qs| - 1]), qs[|qs| - 1])
  }

  /** The clock does not go back. */
  predicate InTime(qs: seq<Request>) {
    forall i, j :: 0 <= i <= j < |qs| ==> qs[i].now <= qs[j].now
  }

  /** The lock neither runs out nor is given up by an accepted unlock at any request in
      positions `i..j`. */
  predicate LeaseLasts(s: Hold, qs: seq<Request>, i: nat, j: nat)
    requires i <= j <= |qs|
  {
    forall k :: i <= k < j ==>
      && Live(After(s, qs[..k]), qs[k].now)
      && !(qs[k].lockcode == 2 && Accepts(After(s, qs[..k]), qs[k]))
  }

  lemma AfterStep(s: Hold, qs: seq<Request>, k: nat)
    requires k < |qs|
    ensures After(s, qs[..k + 1]) == Apply(After(s, qs[..k]), qs[k])
  {
    assert qs[..k + 1][..k] == qs[..k];
  }

  /** A lock is never held past the time of the last request plus the lease. */
  lemma {:induction false} LeaseIsBounded(s: Hold, qs: seq<Request>, k: nat)
    requires !s.locked && InTime(qs) && k < |qs|
    ensures After(s, qs[..k]).locked ==> After(s, qs[..k]).deadline <= qs[k].now + DEFAULT_EXPIRE
  {
    if k > 0 {
      AfterStep(s, qs, k - 1);
      LeaseIsBounded(s, qs, k - 1);
      assert qs[k - 1].now <= qs[k].now;
    }
  }

  lemma LeTransitive(a: GlobalId, b: GlobalId, c: GlobalId)
    requires a.Le(b) && b.Le(c)
    ensures a.Le(c)
  {}

  /** One request against a live lock, other than the unlock that gives it up. */
  lemma StepKeepsLock(s: Hold, q: Request)
    requires Live(s, q.now) && s.deadline <= q.now + DEFAULT_EXPIRE
    requires !(q.lockcode == 2 && Accepts(s, q))
    ensures var b := Apply(s, q); b.locked && s.holder.Le(b.holder) && s.deadline <= b.deadline
  {}

  /** Over any stretch of a run in which the lease lasts, the lock stays, and neither the
      holder's priority nor the deadline goes down. */
  lemma {:induction false} LeaseOnlyGrows(s: Hold, qs: seq<Request>, i: nat, j: nat)
    requires !s.locked && InTime(qs) && i <= j <= |qs|
    requires After(s, qs[..i]).locked && LeaseLasts(s, qs, i, j)
    ensures var a, b := After(s, qs[..i]), After(s, qs[..j]);
      b.locked && a.holder.Le(b.holder) && a.deadline <= b.deadline
    decreases j
  {
    hide After, Apply, Accepts;
    if i < j {
      LeaseOnlyGrows(s, qs, i, j - 1);
      AfterStep(s, qs, j - 1);
      LeaseIsBounded(s, qs, j - 1);
      var a, m, b := After(s, qs[..i]), After(s, qs[..j - 1]), After(s, qs[..j]);
      StepKeepsLock(m, qs[j - 1]);
      LeTransitive(a.holder, m.holder, b.holder);
    }
  }

  /** So a lock shuts out, for as long as its lease lasts, everyone below the user who held it
      at the start of the stretch, whoever has taken it over since. */
  lemma LowerIdsStayOut(s: Hold, qs: seq<Request>, i: nat, j: nat)
    requires !s.locked && InTime(qs) && i <= j < |qs|
    requires After(s, qs[..i]).locked && LeaseLasts(s, qs, i, j)
    requires Live(After(s, qs[..j]), qs[j].now) && qs[j].user.Lt(After(s, qs[..i]).holder)
    ensures !Accepts(After(s, qs[..j]), qs[j])
    ensures After(s, qs[..j + 1]) == After(s, qs[..j])
  {
    hide After, Apply, Accepts;
    LeaseOnlyGrows(s, qs, i, j);
    LiveLockFilters(After(s, qs[..j]), qs[j]);
    AfterStep(s, qs, j);
  }

  /** While the lock is live, exactly the users at or above the holder get through, and those
      below it change nothing. */
  lemma LiveLockFilters(s: Hold, q: Request)
    requires Live(s, q.now)
    ensures Accepts(s, q) <==> s.holder.Le(q.user)
    ensures q.user.Lt(s.holder) ==> !Accepts(s, q) && Apply(s, q) == s
  {}

  /** Locked or not, anywhere in a run, a holder gives way to a smaller id exactly when that id
      operates the camera, neither locking nor unlocking it, after the lease has run out. */
  lemma {:induction false} HolderGoesDownIff(s: Hold, qs: seq<Request>, k: nat)
    requires k < |qs|
    ensures var a, b := After(s, qs[..k]), After(s, qs[..k + 1]);
      b.holder.Lt(a.holder) <==> OperatesFromBelow(a, qs[k]) && Expired(a.deadline, qs[k].now)
  {
    AfterStep(s, qs, k);
  }

  /** An operation of the camera by an id below the holder. */
  predicate OperatesFromBelow(s: Hold, q: Request) {
    q.lockcode != 1 && q.lockcode != 2 && q.user.Lt(s.holder)
  }

  /** Nobody below the holder operates the camera after the lease at positions `i..j`. */
  predicate NoTakeover(s: Hold, qs: seq<Request>, i: nat, j: nat)
    requires i <= j <= |qs|
  {
    forall k :: i <= k < j ==>
      !(OperatesFromBelow(After(s, qs[..k]), qs[k]) && Expired(After(s, qs[..k]).deadline, qs[k].now))
  }

  /** Over any stretch without such an operation the holder never goes down, whatever locks,
      unlocks and expiries it contains. */
  lemma {:induction false} HolderOnlyGrows(s: Hold, qs: seq<Request>, i: nat, j: nat)
    requires i <= j <= |qs| && NoTakeover(s, qs, i, j)
    ensures After(s, qs[..i]).holder.Le(After(s, qs[..j]).holder)
    decreases j
  {
    hide After;
    if i < j {
      HolderOnlyGrows(s, qs, i, j - 1);
      HolderGoesDownIff(s, qs, j - 1);
    }
  }

  /** Only the check for a plain operation looks at the lease: a request to lock from below the
      holder is refused however long ago the lease ran out, until somebody below the holder
      operates the camera after it. */
  lemma {:induction false} ExpiryDoesNotAdmitLocks(s: Hold, qs: seq<Request>, i: nat, j: nat)
    requires i <= j < |qs| && NoTakeover(s, qs, i, j)
    requires qs[j].lockcode == 1 && qs[j].user.Lt(After(s, qs[..i]).holder)
    ensures !Accepts(After(s, qs[..j]), qs[j])
    ensures After(s, qs[..j + 1]).holder == After(s, qs[..j]).holder
    ensures After(s, qs[..j + 1]).deadline == After(s, qs[..j]).deadline
  {
    HolderOnlyGrows(s, qs, i, j);
    AfterStep(s, qs, j);
  }

  /** The lockout does end there: the operation makes the lower id the holder, and its next
      request to lock is accepted. */
  lemma TakeoverEndsLockout(s: Hold, q: Request, later: int)
    requires OperatesFromBelow(s, q) && Expired(s.deadline, q.now)
    ensures Apply(s, q).holder == q.user && Accepts(Apply(s, q), Request(q.user, 1, later))
  {}

  // ----- in seconds and fields -----

  /** A plain operation, neither a lock nor an unlock.  Against a lock within its lease it changes
      nothing, and is let through exactly from the holder's id up.  Otherwise it takes the hold
      for 20 seconds, unless it comes from below the holder within the lease. */
  lemma PlainOperation(s: Hold, q: Request)
    requires q.lockcode != 1 && q.lockcode != 2
    ensures s.locked && q.now <= s.deadline ==> Apply(s, q) == s && (Accepts(s, q) <==> !q.user.Lt(s.holder))
    ensures !(s.locked && q.now <= s.deadline) ==>
      && (Accepts(s, q) <==> !q.user.Lt(s.holder) || q.now > s.deadline)
      && Apply(s, q) == if Accepts(s, q) then Hold(false, q.user, q.now + 20) else Hold(false, s.holder, s.deadline)
  {}

  /** A request to lock is let through exactly from the holder's id up, and locks for 20 seconds. */
  lemma LockRequest(s: Hold, q: Request)
    requires q.lockcode == 1
    ensures Accepts(s, q) <==> !q.user.Lt(s.holder)
    ensures Accepts(s, q) ==> Apply(s, q) == Hold(true, q.user, q.now + 20)
    ensures !Accepts(s, q) ==> Apply(s, q) == Hold(s.locked && q.now <= s.deadline, s.holder, s.deadline)
  {}

  /** An unlock is let through exactly against a lock within its lease and from the holder's id up;
      either way the holder and the deadline stay. */
  lemma UnlockRequest(s: Hold, q: Request)
    requires q.lockcode == 2
    ensures Accepts(s, q) <==> s.locked && q.now <= s.deadline && !q.user.Lt(s.holder)
    ensures Apply(s, q) == Hold(s.locked && q.now <= s.deadline && q.user.Lt(s.holder), s.holder, s.deadline)
  {}

  /** A camera taken on by a plain operation at time t is closed to plain operations from below for
      20 seconds, to the second. */
  lemma {:induction false} TakenForTwentySeconds(s: Hold, taken: Request, q: Request)
    requires !s.locked && taken.lockcode != 1 && taken.lockcode != 2 && Accepts(s, taken)
    requires q.lockcode != 1 && q.lockcode != 2 && q.user.Lt(taken.user)
    ensures Accepts(Apply(s, taken), q) <==> q.now > taken.now + 20
  {
    PlainOperation(s, taken);
    PlainOperation(Apply(s, taken), q);
  }

  /** A lock taken at time t shuts out plain operations from below for 20 seconds, to the second. */
  lemma {:induction false} LockedForTwentySeconds(s: Hold, taken: Request, q: Request)
    requires taken.lockcode == 1 && Accepts(s, taken) && q.lockcode != 1 && q.lockcode != 2 && q.user.Lt(taken.user)
    ensures Accepts(Apply(s, taken), q) <==> q.now > taken.now + 20
  {
    LockRequest(s, taken);
    PlainOperation(Apply(s, taken), q);
  }

  /** No request at the positions before `k` locks the camera. */
  predicate NoLock(s: Hold, qs: seq<Request>, k: nat)
    requires k <= |qs|
  {
    forall i :: 0 <= i < k ==> !(qs[i].lockcode == 1 && Accepts(After(s, qs[..i]), qs[i]))
  }

  lemma {:induction false} StaysUnlocked(s: Hold, qs: seq<Request>, k: nat)
    requires !s.locked && k <= |qs| && NoLock(s, qs, k)
    ensures !After(s, qs[..k]).locked
  {
    if k > 0 {
      StaysUnlocked(s, qs, k - 1);
      AfterStep(s, qs, k - 1);
      OnlyLocksLock(After(s, qs[..k - 1]), qs[k - 1]);
    }
  }

  lemma OnlyLocksLock(s: Hold, q: Request)
    requires !s.locked && !(q.lockcode == 1 && Accepts(s, q))
    ensures !Apply(s, q).locked
  {}

  /** An accepted unlock does unlock: until somebody locks again every further unlock, by whoever it
      may be, is rejected. */
  lemma {:induction false} UnlockedUntilLocked(s: Hold, unlock: Request, qs: seq<Request>, k: nat)
    requires unlock.lockcode == 2 && Accepts(s, unlock)
    requires k < |qs| && qs[k].lockcode == 2 && NoLock(Apply(s, unlock), qs, k)
    ensures !Apply(s, unlock).locked && !Accepts(After(Apply(s, unlock), qs[..k]), qs[k])
  {
    UnlockRequest(s, unlock);
    StaysUnlocked(Apply(s, unlock), qs, k);
    UnlockRequest(After(Apply(s, unlock), qs[..k]), qs[k]);
  }

  /** After an accepted unlock the next plain operation at or above the old holder takes the hold,
      and for 20 seconds nobody below it is let through. */
  lemma {:induction false} UnlockedIsFree(s: Hold, unlock: Request, q: Request, later: Request)
    requires unlock.lockcode == 2 && Accepts(s, unlock)
    requires q.lockcode != 1 && q.lockcode != 2 && !q.user.Lt(s.holder) && later.user.Lt(q.user)
    ensures var a := Apply(s, unlock); var b := Apply(a, q);
      && Accepts(a, q) && b.holder == q.user && b.deadline == q.now + 20 && !b.locked
      && (later.now <= q.now + 20 ==> !Accepts(b, later))
  {
    UnlockRequest(s, unlock);
    PlainOperation(Apply(s, unlock), q);
    var b := Apply(Apply(s, unlock), q);
    if later.lockcode == 1 {
      LockRequest(b, later);
    } else if later.lockcode == 2 {
      UnlockRequest(b, later);
    } else {
      PlainOperation(b, later);
    }
  }
}
