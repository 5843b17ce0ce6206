/**
  The blocking queue of src/squeue.h as a protocol: any number of threads calling `add`, the
  untimed `get` and `tryget`, one statement at a time, under a mutex and a condition variable
  whose signal wakes at least one waiter and whose waits may wake spuriously.
 */
module MonitorQueue {

  type Tid = int

  datatype Option<+T> = None | Some(value: T)

  /** Where a thread stands. */
  datatype Pc<+T> =
    | Idle
    | AddEnter(e: T)        // add: before the mutex is taken
    | AddPush(e: T)         // add: before mQueue.push
    | AddSignal(e: T)       // add: before mCond.Signal
    | AddLeave(e: T)        // add: before the mutex is released
    | GetEnter              // get: before the mutex is taken
    | GetTest               // get: at the loop test
    | Waiting               // get: blocked, not signalled
    | Woken(signalled: bool)  // get: out of the wait, before the mutex is retaken
    | TryEnter              // tryget: before the mutex is taken
    | TryTest               // tryget: at the test
    | TakeFront(try: bool)  // both: before e = mQueue.front()
    | TakePop(try: bool, e: T)  // both: before mQueue.pop()
    | TakeLeave(try: bool, result: Option<T>)  // both: before the mutex is released
  {
    predicate Holds() {
      !Idle? && !AddEnter? && !GetEnter? && !Waiting? && !Woken? && !TryEnter?
    }

    /** Between taking the mutex and the pop, or between the push and the signal. */
    predicate Unsettled() {
      AddSignal? || GetTest? || TryTest? || TakeFront? || TakePop?
    }
  }

  datatype State<T> = State(
    queue: seq<T>,
    owner: Option<Tid>,
    pcs: map<Tid, Pc<T>>,
    added: seq<T>,       // values in the order in which they were pushed
    delivered: seq<T>)   // the values threads have read, in the order of their pops

  /** What the scheduler may do. */
  datatype Step<T> =
    | CallAdd(t: Tid, e: T)
    | CallGet(t: Tid)
    | CallTryGet(t: Tid)
    | Run(t: Tid)                           // one statement of a running thread
    | Signal(t: Tid, woken: set<Tid>)       // the signal statement, and whom it wakes
    | SpuriousWakeup(t: Tid)

  ghost function Waiters<T>(s: State<T>): set<Tid> {
    set t | t in s.pcs && s.pcs[t].Waiting?
  }

  /** Threads that were signalled and have not yet retaken the mutex. */
  ghost function Signalled<T>(s: State<T>): set<Tid> {
    set t | t in s.pcs && s.pcs[t].Woken? && s.pcs[t].signalled
  }

  function Move<T>(s: State<T>, t: Tid, pc: Pc<T>): State<T> {
    s.(pcs := s.pcs[t := pc])
  }

  function Lock<T>(s: State<T>, t: Tid, pc: Pc<T>): State<T> {
    if s.owner.None? then Move(s, t, pc).(owner := Some(t)) else s
  }

  function Unlock<T>(s: State<T>, t: Tid, pc: Pc<T>): State<T> {
    Move(s, t, pc).(owner := None)
  }

  /** One statement of thread `t`. */
  function RunThread<T>(s: State<T>, t: Tid): State<T>
    requires t in s.pcs
  {
    match s.pcs[t]
    case AddEnter(e) => Lock(s, t, AddPush(e))
    case AddPush(e) => Move(s, t, AddSignal(e)).(queue := s.queue + [e], added := s.added + [e])
    case AddLeave(_) => Unlock(s, t, Idle)
    case GetEnter => Lock(s, t, GetTest)
    case GetTest => if s.queue == [] then Unlock(s, t, Waiting) else Move(s, t, TakeFront(false))
    case Woken(_) => Lock(s, t, GetTest)
    case TryEnter => Lock(s, t, TryTest)
    case TryTest => Move(s, t, if s.queue == [] then TakeLeave(true, None) else TakeFront(true))
    case TakeFront(try) => if s.queue == [] then s else Move(s, t, TakePop(try, s.queue[0]))
    case TakePop(try, e) =>
      if s.queue == [] then s
      else Move(s, t, TakeLeave(try, Some(e))).(queue := s.queue[1..], delivered := s.delivered + [e])
    case TakeLeave(_, _) => Unlock(s, t, Idle)
    case _ => s
  }

  function Wake<T>(pcs: map<Tid, Pc<T>>, woken: set<Tid>): map<Tid, Pc<T>> {
    map t | t in pcs :: if t in woken then Woken(true) else pcs[t]
  }

  /** A step that is not enabled changes nothing. */
  ghost function Next<T>(s: State<T>, step: Step<T>): State<T> {
    if step.t !in s.pcs then s
    else
      var pc := s.pcs[step.t];
      match step
      case CallAdd(t, e) => if pc.Idle? then Move(s, t, AddEnter(e)) else s
      case CallGet(t) => if pc.Idle? then Move(s, t, GetEnter) else s
      case CallTryGet(t) => if pc.Idle? then Move(s, t, TryEnter) else s
      case Run(t) => RunThread(s, t)
      case Signal(t, woken) =>
        if pc.AddSignal? && woken <= Waiters(s) && (Waiters(s) != {} ==> woken != {})
        then Move(s.(pcs := Wake(s.pcs, woken)), t, AddLeave(pc.e))
        else s
      case SpuriousWakeup(t) => if pc.Waiting? then Move(s, t, Woken(false)) else s
  }

  function Init<T>(threads: set<Tid>): State<T> {
    State([], None, map t | t in threads :: Idle, [], [])
  }

  ghost function After<T>(threads: set<Tid>, steps: seq<Step<T>>): State<T> {
    if steps == [] then Init(threads)
    else Next(After(threads, steps[..|steps| - 1]), steps[|steps| - 1])
  }

  // ----- invariants -----

  /** The mutex has exactly one holder, or none. */
  ghost predicate Exclusive<T>(s: State<T>) {
    && (forall t :: t in s.pcs && s.pcs[t].Holds() ==> s.owner == Some(t))
    && (s.owner.Some? ==> s.owner.value in s.pcs && s.pcs[s.owner.value].Holds())
  }

  /** What the holder has established about the queue. */
  ghost predicate HolderKnows<T>(s: State<T>) {
    forall t :: t in s.pcs && (s.pcs[t].TakeFront? || s.pcs[t].TakePop?) ==>
      && s.queue != []
      && (s.pcs[t].TakePop? ==> s.pcs[t].e == s.queue[0])
  }

  /** Nothing is lost, duplicated or reordered. */
  ghost predicate Conserved<T>(s: State<T>) {
    s.added == s.delivered + s.queue
  }

  /** One while the holder of the mutex is about to signal or to take a value. */
  ghost function Slack<T>(s: State<T>): nat {
    if s.owner.Some? && s.owner.value in s.pcs && s.pcs[s.owner.value].Unsettled() then 1 else 0
  }

  /** While a thread sleeps unsignalled, every queued value has a signalled thread coming for it,
      up to the one the holder is dealing with. */
  ghost predicate NoLostWakeup<T>(s: State<T>) {
    Waiters(s) != {} ==> |s.queue| <= |Signalled(s)| + Slack(s)
  }

  ghost predicate Inv<T>(s: State<T>) {
    Exclusive(s) && HolderKnows(s) && Conserved(s) && NoLostWakeup(s)
  }

  // ----- what one thread's move does to the two sets -----

  lemma MoveSets<T>(s: State<T>, t: Tid, pc: Pc<T>)
    requires t in s.pcs
    ensures Waiters(Move(s, t, pc)) == if pc.Waiting? then Waiters(s) + {t} else Waiters(s) - {t}
    ensures Signalled(Move(s, t, pc)) == if pc.Woken? && pc.signalled then Signalled(s) + {t} else Signalled(s) - {t}
  {}

  lemma WakeSets<T>(s: State<T>, woken: set<Tid>)
    requires woken <= Waiters(s)
    ensures var s' := s.(pcs := Wake(s.pcs, woken));
      && Waiters(s') == Waiters(s) - woken
      && Signalled(s') == Signalled(s) + woken
      && |Signalled(s')| == |Signalled(s)| + |woken|
  {
    assert Signalled(s) !! woken;
  }

  lemma {:induction false} RunKeepsInv<T>(s: State<T>, t: Tid)
    requires Inv(s) && t in s.pcs
    ensures Inv(RunThread(s, t))
  {
    hide RunThread, Exclusive, HolderKnows, Conserved, NoLostWakeup;
    RunKeepsExclusion(s, t);
    RunKeepsKnowledge(s, t);
    RunConserves(s, t);
    RunKeepsWakeups(s, t);
  }

  /** A statement moves only its own thread, and takes or gives up the mutex only for it. */
  lemma {:induction false} RunMovesOne<T>(s: State<T>, t: Tid)
    requires Exclusive(s) && t in s.pcs
    ensures var s' := RunThread(s, t);
      && s'.pcs.Keys == s.pcs.Keys
      && (forall u :: u in s.pcs && u != t ==> s'.pcs[u] == s.pcs[u])
      && (s' == s || (s'.pcs[t].Holds() && s'.owner == Some(t)) || (!s'.pcs[t].Holds() && s'.owner == None))
      && (s' == s || s.owner == None || s.owner == Some(t))
  {}

  lemma RunKeepsExclusion<T>(s: State<T>, t: Tid)
    requires Exclusive(s) && t in s.pcs
    ensures Exclusive(RunThread(s, t))
  {}

  lemma RunKeepsKnowledge<T>(s: State<T>, t: Tid)
    requires Exclusive(s) && HolderKnows(s) && t in s.pcs
    ensures HolderKnows(RunThread(s, t))
  {}

  lemma RunConserves<T>(s: State<T>, t: Tid)
    requires HolderKnows(s) && Conserved(s) && t in s.pcs
    ensures Conserved(RunThread(s, t))
  {}

  lemma {:induction false} RunKeepsWakeups<T>(s: State<T>, t: Tid)
    requires Inv(s) && t in s.pcs
    ensures NoLostWakeup(RunThread(s, t))
  {
    hide RunThread;
    var s' := RunThread(s, t);
    RunMovesOne(s, t);
    RunCounts(s, t);
    var moved := Move(s, t, s'.pcs[t]);
    assert s'.pcs == moved.pcs;
    MoveSets(s, t, s'.pcs[t]);
    assert Waiters(s') == Waiters(moved) && Signalled(s') == Signalled(moved);
    if t in Signalled(s) {
      assert |Signalled(s) - {t}| == |Signalled(s)| - 1;
    } else {
      assert Signalled(s) - {t} == Signalled(s);
    }
  }

  /** The statement-by-statement account behind the wake-up bound. */
  lemma {:induction false} RunCounts<T>(s: State<T>, t: Tid)
    requires Exclusive(s) && t in s.pcs
    ensures var s' := RunThread(s, t);
      || s' == s
      || s'.queue == []
      || (&& !s'.pcs[t].Waiting? && !(s'.pcs[t].Woken? && s'.pcs[t].signalled)
          && |s'.queue| - Slack(s') <= |s.queue| - Slack(s) - (if t in Signalled(s) then 1 else 0))
  {}

  lemma {:induction false} SignalKeepsInv<T>(s: State<T>, t: Tid, woken: set<Tid>)
    requires Inv(s) && t in s.pcs && s.pcs[t].AddSignal?
    requires woken <= Waiters(s) && (Waiters(s) != {} ==> woken != {})
    ensures Inv(Move(s.(pcs := Wake(s.pcs, woken)), t, AddLeave(s.pcs[t].e)))
  {
    var s1 := s.(pcs := Wake(s.pcs, woken));
    WakeSets(s, woken);
    MoveSets(s1, t, AddLeave(s.pcs[t].e));
    assert t !in woken;
    assert t !in Signalled(s1);
    assert Signalled(s1) - {t} == Signalled(s1);
    if woken != {} {
      assert |woken| >= 1;
    }
  }

  lemma {:induction false} NextKeepsInv<T>(s: State<T>, step: Step<T>)
    requires Inv(s)
    ensures Inv(Next(s, step)) && Next(s, step).pcs.Keys == s.pcs.Keys
  {
    if step.t in s.pcs {
      match step {
        case Run(t) => RunKeepsInv(s, t);
        case Signal(t, woken) =>
          if s.pcs[t].AddSignal? && woken <= Waiters(s) && (Waiters(s) != {} ==> woken != {}) {
            SignalKeepsInv(s, t, woken);
          }
        case _ => CallKeepsInv(s, step);
      }
    }
  }

  lemma {:induction false} CallKeepsInv<T>(s: State<T>, step: Step<T>)
    requires Inv(s) && step.t in s.pcs && !step.Run? && !step.Signal?
    ensures Inv(Next(s, step)) && Next(s, step).pcs.Keys == s.pcs.Keys
  {
    var s', t := Next(s, step), step.t;
    if s' != s {
      assert s' == Move(s, t, s'.pcs[t]) && !s.pcs[t].Holds() && !s'.pcs[t].Holds() && !s'.pcs[t].Waiting?;
      assert !s.pcs[t].Woken?;
      hide Next;
      OutsideMoveKeepsInv(s, t, s'.pcs[t]);
    }
  }

  /** A thread outside the lock, not just woken, moves to another place outside it. */
  lemma {:induction false} OutsideMoveKeepsInv<T>(s: State<T>, t: Tid, pc: Pc<T>)
    requires Inv(s) && t in s.pcs && !s.pcs[t].Holds() && !pc.Holds() && !pc.Waiting?
    requires !s.pcs[t].Woken?
    ensures Inv(Move(s, t, pc))
  {
    var s' := Move(s, t, pc);
    MoveSets(s, t, pc);
    assert Signalled(s) <= Signalled(s');
    if Signalled(s') != Signalled(s) {
      assert Signalled(s') == Signalled(s) + {t};
    }
    assert Slack(s') == Slack(s);
    hide Slack, Waiters, Signalled;
  }

  lemma {:induction false} AfterKeepsInv<T>(threads: set<Tid>, steps: seq<Step<T>>)
    ensures Inv(After(threads, steps)) && After(threads, steps).pcs.Keys == threads
  {
    if steps == [] {
      assert Waiters(After(threads, steps)) == {};
    } else {
      var before := steps[..|steps| - 1];
      AfterKeepsInv(threads, before);
      NextKeepsInv(After(threads, before), steps[|steps| - 1]);
    }
  }

  // ----- what callers rely on -----

  /** In every reachable state in which some thread waits unsignalled, the queue is no longer than
      the number of signalled threads yet to resume, plus one value the holder of the mutex is
      dealing with. */
  lemma NoThreadSleepsOverWork<T>(threads: set<Tid>, steps: seq<Step<T>>)
    ensures var s := After(threads, steps);
      Waiters(s) != {} ==>
        && |s.queue| <= |Signalled(s)| + Slack(s)
        && (s.owner.None? ==> |s.queue| <= |Signalled(s)|)
  {
    AfterKeepsInv(threads, steps);
  }

  /** So there is always somebody due to run: while a waiter and a queued value coexist, a
      signalled thread is on its way, or the holder of the mutex is about to signal or to take
      a value. */
  lemma SomebodyIsDueToRun<T>(threads: set<Tid>, steps: seq<Step<T>>)
    ensures var s := After(threads, steps);
      Waiters(s) != {} && s.queue != [] ==>
        Signalled(s) != {} || (s.owner.Some? && s.owner.value in s.pcs && s.pcs[s.owner.value].Unsettled())
  {
    AfterKeepsInv(threads, steps);
  }

  /** In every interleaving, the values read by getters, in the order of their pops, followed by
      what is still queued, are the values added, in order. */
  lemma DeliveryIsFifo<T>(threads: set<Tid>, steps: seq<Step<T>>)
    ensures var s := After(threads, steps); s.added == s.delivered + s.queue
  {
    AfterKeepsInv(threads, steps);
  }

  // ----- calls and what they return -----

  datatype Call<+T> = AddOf(e: T) | Get | TryGet

  /** What callers see: a call begins, and returns, with a value or (add, and tryget on an empty
      queue) without. */
  datatype Event<+T> = Called(t: Tid, call: Call<T>) | Returned(t: Tid, call: Call<T>, result: Option<T>)

  ghost function EventsIn<T>(s: State<T>, step: Step<T>): seq<Event<T>> {
    if step.t !in s.pcs then []
    else
      var pc := s.pcs[step.t];
      match step
      case CallAdd(t, e) => if pc.Idle? then [Called(t, AddOf(e))] else []
      case CallGet(t) => if pc.Idle? then [Called(t, Get)] else []
      case CallTryGet(t) => if pc.Idle? then [Called(t, TryGet)] else []
      case Run(t) => if pc.AddLeave? || pc.TakeLeave? then [Returned(t, CallOf(pc).value, ResultOf(pc))] else []
      case _ => []
  }

  ghost function History<T>(threads: set<Tid>, steps: seq<Step<T>>): seq<Event<T>> {
    if steps == [] then []
    else
      var before := steps[..|steps| - 1];
      History(threads, before) + EventsIn(After(threads, before), steps[|steps| - 1])
  }

  /** The call a thread is executing, by where it stands. */
  function CallOf<T>(pc: Pc<T>): (r: Option<Call<T>>)
    ensures !pc.Idle? ==> r.Some?
  {
    match pc
    case Idle => None
    case AddEnter(e) => Some(AddOf(e))
    case AddPush(e) => Some(AddOf(e))
    case AddSignal(e) => Some(AddOf(e))
    case AddLeave(e) => Some(AddOf(e))
    case GetEnter => Some(Get)
    case GetTest => Some(Get)
    case Waiting => Some(Get)
    case Woken(_) => Some(Get)
    case TryEnter => Some(TryGet)
    case TryTest => Some(TryGet)
    case TakeFront(try) => Some(if try then TryGet else Get)
    case TakePop(try, _) => Some(if try then TryGet else Get)
    case TakeLeave(try, _) => Some(if try then TryGet else Get)
  }

  function ResultOf<T>(pc: Pc<T>): Option<T> {
    if pc.TakeLeave? then pc.result else None
  }

  /** The call of thread `t` that has begun and not returned. */
  ghost function OpenCall<T>(h: seq<Event<T>>, t: Tid): Option<Call<T>> {
    if h == [] then None
    else
      var e := h[|h| - 1];
      if e.t != t then OpenCall(h[..|h| - 1], t) else if e.Called? then Some(e.call) else None
  }

  /** Calls begin when none is open, and only an open call returns; an add returns nothing, and a get
      a value. */
  ghost predicate Matched<T>(h: seq<Event<T>>) {
    forall i :: 0 <= i < |h| ==> MatchedAt(h[..i], h[i])
  }

  ghost predicate MatchedAt<T>(h: seq<Event<T>>, e: Event<T>) {
    match e
    case Called(t, _) => OpenCall(h, t) == None
    case Returned(t, call, result) =>
      OpenCall(h, t) == Some(call) && (call.AddOf? ==> result == None) && (call.Get? ==> result != None)
  }

  /** The values of the adds that have returned, and those returned by gets and trygets, in order. */
  function AddedBy<T>(h: seq<Event<T>>): seq<T> {
    if h == [] then []
    else
      var e := h[|h| - 1];
      AddedBy(h[..|h| - 1]) + if e.Returned? && e.call.AddOf? then [e.call.e] else []
  }

  function TakenBy<T>(h: seq<Event<T>>): seq<T> {
    if h == [] then []
    else
      var e := h[|h| - 1];
      TakenBy(h[..|h| - 1]) + if e.Returned? && e.result.Some? then [e.result.value] else []
  }

  function AddInHand<T>(pc: Pc<T>): seq<T> {
    match pc
    case AddSignal(e) => [e]
    case AddLeave(e) => [e]
    case _ => []
  }

  function TakenInHand<T>(pc: Pc<T>): seq<T> {
    if pc.TakeLeave? && pc.result.Some? then [pc.result.value] else []
  }

  ghost function HolderPc<T>(s: State<T>): Pc<T> {
    if s.owner.Some? && s.owner.value in s.pcs then s.pcs[s.owner.value] else Idle
  }

  /** The history agrees with where the threads stand and with what was added and delivered. */
  ghost predicate Books<T>(s: State<T>, h: seq<Event<T>>) {
    && Matched(h)
    && (forall t :: t in s.pcs ==> OpenCall(h, t) == CallOf(s.pcs[t]))
    && s.added == AddedBy(h) + AddInHand(HolderPc(s))
    && s.delivered == TakenBy(h) + TakenInHand(HolderPc(s))
    && (forall t :: t in s.pcs && s.pcs[t].TakeLeave? && s.pcs[t].result == None ==> s.pcs[t].try && s.queue == [])
  }

  /** One more event. */
  lemma {:induction false} OneEvent<T>(h: seq<Event<T>>, e: Event<T>)
    requires Matched(h) && MatchedAt(h, e)
    ensures Matched(h + [e])
    ensures forall t :: OpenCall(h + [e], t) == if t != e.t then OpenCall(h, t) else if e.Called? then Some(e.call) else None
    ensures AddedBy(h + [e]) == AddedBy(h) + if e.Returned? && e.call.AddOf? then [e.call.e] else []
    ensures TakenBy(h + [e]) == TakenBy(h) + if e.Returned? && e.result.Some? then [e.result.value] else []
  {
    hide MatchedAt;
    var h' := h + [e];
    assert h'[..|h|] == h;
    forall i | 0 <= i < |h'| ensures MatchedAt(h'[..i], h'[i]) {
      assert h'[..i] == h[..i];
    }
  }

  /** A thread moves outside the lock, and the history says so. */
  lemma {:induction false} OutsideMoveKeepsBooks<T>(s: State<T>, t: Tid, pc: Pc<T>, h: seq<Event<T>>, h': seq<Event<T>>)
    requires Exclusive(s) && Books(s, h) && t in s.pcs && !s.pcs[t].Holds() && !pc.Holds()
    requires Matched(h') && AddedBy(h') == AddedBy(h) && TakenBy(h') == TakenBy(h)
    requires forall u :: OpenCall(h', u) == if u == t then CallOf(pc) else OpenCall(h, u)
    ensures Books(Move(s, t, pc), h')
  {
    hide Matched, MatchedAt, OpenCall, AddedBy, TakenBy, CallOf;
    assert HolderPc(Move(s, t, pc)) == HolderPc(s);
  }

  /** A call begins. */
  lemma {:induction false} BeginKeepsBooks<T>(s: State<T>, t: Tid, pc: Pc<T>, h: seq<Event<T>>)
    requires Exclusive(s) && Books(s, h) && t in s.pcs && s.pcs[t].Idle?
    requires pc.AddEnter? || pc.GetEnter? || pc.TryEnter?
    ensures Books(Move(s, t, pc), h + [Called(t, CallOf(pc).value)])
  {
    var e: Event<T> := Called(t, CallOf(pc).value);
    assert OpenCall(h, t) == None;
    OneEvent(h, e);
    hide Books, Matched, MatchedAt, OpenCall, AddedBy, TakenBy, Exclusive;
    assert AddedBy(h + [e]) == AddedBy(h) && TakenBy(h + [e]) == TakenBy(h);
    OutsideMoveKeepsBooks(s, t, pc, h, h + [e]);
  }

  lemma {:induction false} CallKeepsBooks<T>(s: State<T>, step: Step<T>, h: seq<Event<T>>)
    requires Inv(s) && Books(s, h) && step.t in s.pcs && !step.Run? && !step.Signal?
    ensures Books(Next(s, step), h + EventsIn(s, step))
  {
    hide Books, HolderKnows, Conserved, NoLostWakeup, RunThread;
    assert h + [] == h;
    var pc := s.pcs[step.t];
    match step {
      case CallAdd(t, e) => if pc.Idle? { BeginKeepsBooks(s, t, AddEnter(e), h); }
      case CallGet(t) => if pc.Idle? { BeginKeepsBooks(s, t, GetEnter, h); }
      case CallTryGet(t) => if pc.Idle? { BeginKeepsBooks(s, t, TryEnter, h); }
      case SpuriousWakeup(t) => if pc.Waiting? { WakeKeepsBooks(s, t, h); }
    }
  }

  lemma {:induction false} WakeKeepsBooks<T>(s: State<T>, t: Tid, h: seq<Event<T>>)
    requires Exclusive(s) && Books(s, h) && t in s.pcs && s.pcs[t].Waiting?
    ensures Books(Move(s, t, Woken(false)), h)
  {
    hide Matched, MatchedAt, OpenCall, AddedBy, TakenBy;
    assert HolderPc(Move(s, t, Woken(false))) == HolderPc(s);
  }

  lemma {:induction false} SignalKeepsBooks<T>(s: State<T>, t: Tid, woken: set<Tid>, h: seq<Event<T>>)
    requires Inv(s) && Books(s, h) && t in s.pcs && s.pcs[t].AddSignal? && woken <= Waiters(s)
    ensures Books(Move(s.(pcs := Wake(s.pcs, woken)), t, AddLeave(s.pcs[t].e)), h)
  {
    hide Matched, OpenCall, AddedBy, TakenBy;
    assert s.owner == Some(t) && t !in woken;
  }

  /** A statement that ends no call. */
  lemma {:induction false} InnerRunKeepsBooks<T>(s: State<T>, t: Tid, h: seq<Event<T>>)
    requires Inv(s) && Books(s, h) && t in s.pcs && !s.pcs[t].AddLeave? && !s.pcs[t].TakeLeave?
    ensures Books(RunThread(s, t), h)
  {
    hide Matched, OpenCall, AddedBy, TakenBy, NoLostWakeup, Conserved;
    RunMovesOne(s, t);
    var s' := RunThread(s, t);
    if s' != s && s.owner == None {
      assert HolderPc(s) == Idle;
    }
  }

  lemma {:induction false} ReturnKeepsBooks<T>(s: State<T>, t: Tid, h: seq<Event<T>>)
    requires Inv(s) && Books(s, h) && t in s.pcs && (s.pcs[t].AddLeave? || s.pcs[t].TakeLeave?)
    ensures Books(RunThread(s, t), h + [Returned(t, CallOf(s.pcs[t]).value, ResultOf(s.pcs[t]))])
  {
    var e := Returned(t, CallOf(s.pcs[t]).value, ResultOf(s.pcs[t]));
    OneEvent(h, e);
    hide Matched, MatchedAt, OpenCall, AddedBy, TakenBy, NoLostWakeup, Conserved;
    assert s.owner == Some(t) && HolderPc(RunThread(s, t)) == Idle;
  }

  lemma {:induction false} NextKeepsBooks<T>(s: State<T>, step: Step<T>, h: seq<Event<T>>)
    requires Inv(s) && Books(s, h)
    ensures Books(Next(s, step), h + EventsIn(s, step))
  {
    hide Books, Inv, RunThread;
    assert h + [] == h;
    if step.t in s.pcs {
      match step {
        case Run(t) =>
          if s.pcs[t].AddLeave? || s.pcs[t].TakeLeave? { ReturnKeepsBooks(s, t, h); } else { InnerRunKeepsBooks(s, t, h); }
        case Signal(t, woken) =>
          if s.pcs[t].AddSignal? && woken <= Waiters(s) && (Waiters(s) != {} ==> woken != {}) {
            SignalKeepsBooks(s, t, woken, h);
          }
        case _ => CallKeepsBooks(s, step, h);
      }
    }
  }

  lemma {:induction false} AlwaysBooks<T>(threads: set<Tid>, steps: seq<Step<T>>)
    ensures Books(After(threads, steps), History(threads, steps))
  {
    if steps != [] {
      var before := steps[..|steps| - 1];
      AlwaysBooks(threads, before);
      AfterKeepsInv(threads, before);
      hide Books, Inv, Next, EventsIn;
      NextKeepsBooks(After(threads, before), steps[|steps| - 1], History(threads, before));
    }
  }

  /** In every interleaving: every call that returns is the one its thread had begun, an add returns
      nothing, a get returns a value, and a tryget returns without one only while the queue is
      empty. */
  lemma {:induction false} CallsReturnRightly<T>(threads: set<Tid>, steps: seq<Step<T>>, step: Step<T>)
    ensures Matched(History(threads, steps))
    ensures forall e :: e in EventsIn(After(threads, steps), step) && e.Returned? && e.call.TryGet? && e.result == None ==>
      After(threads, steps).queue == []
  {
    AlwaysBooks(threads, steps);
  }

  /** Whenever the mutex is free, the values of the adds that have returned, in order, are those that
      gets and trygets have returned, in order, followed by what is queued. */
  lemma {:induction false} CallsAreFifo<T>(threads: set<Tid>, steps: seq<Step<T>>)
    requires After(threads, steps).owner == None
    ensures AddedBy(History(threads, steps)) == TakenBy(History(threads, steps)) + After(threads, steps).queue
  {
    AlwaysBooks(threads, steps);
    AfterKeepsInv(threads, steps);
    var s, h := After(threads, steps), History(threads, steps);
    assert AddedBy(h) + [] == AddedBy(h) && TakenBy(h) + [] == TakenBy(h);
  }
}
