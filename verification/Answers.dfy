/**
  What the answers to SWITCH requests say, over every run: the response a keyboard gets is the one
  some matrix gave to its request, on the way to the target or there, and says what that matrix
  found.
 */
module Answers {
  import opened GlobalIds
  import opened Matrix
  import opened Hierarchy
  import opened Routing
  import opened Switching
  import opened Liveness
  import Topology

  /** A question a keyboard has asked at matrix `at`. */
  datatype Question = Question(id: int, at: Id, keyboard: int, camera: GlobalId)

  /** An answer a matrix has given: what its trunks and cameras said, and the response it sent. */
  datatype Answer = Answer(at: Id, granted: bool, found: bool, port: int, response: Response)

  /** A response handed to the keyboard that asked. */
  datatype Delivery = Delivery(at: Id, response: Response)

  // ----- what a run contains -----

  /** The question the step asks, if any goes out. */
  ghost function AskedIn(s: Net, step: Step): seq<Question> {
    if step.Switch? && CanSwitch(s, step.m, step.camera, step.id)
      && StartSwitch(s.nodes[step.m], step.keyboard, step.camera, step.id).1.Down?
    then [Question(step.id, step.m, step.keyboard, step.camera)]
    else []
  }

  ghost function AnsweredIn(s: Net, step: Step): seq<Answer> {
    if step.RecvDown? && CanRecvDown(s, step.fd) then
      var c := s.link[step.fd];
      var out := OnClientRxRequest(s.nodes[c], s.downs[step.fd][0], step.granted, step.found, step.outport).1;
      if out.Up? then [Answer(c, step.granted, step.found, step.outport, out.response)] else []
    else []
  }

  ghost function DeliveredIn(topo: Topo, s: Net, step: Step): seq<Delivery> {
    if step.RecvUp? && CanRecvUp(topo, s, step.fd) && s.ups[step.fd][0].Resp? then
      var p := topo.parent[s.link[step.fd]];
      var out := OnServerRxResponse(s.nodes[p], s.ups[step.fd][0].resp).1;
      if out.Done? then [Delivery(p, out.response)] else []
    else []
  }

  ghost function Questions(topo: Topo, steps: seq<Step>): seq<Question> {
    if steps == [] then []
    else
      var before := steps[..|steps| - 1];
      Questions(topo, before) + AskedIn(After(topo, before), steps[|steps| - 1])
  }

  ghost function AnswersGiven(topo: Topo, steps: seq<Step>): seq<Answer> {
    if steps == [] then []
    else
      var before := steps[..|steps| - 1];
      AnswersGiven(topo, before) + AnsweredIn(After(topo, before), steps[|steps| - 1])
  }

  ghost function Deliveries(topo: Topo, steps: seq<Step>): seq<Delivery> {
    if steps == [] then []
    else
      var before := steps[..|steps| - 1];
      Deliveries(topo, before) + DeliveredIn(topo, After(topo, before), steps[|steps| - 1])
  }

  // ----- what is true of the messages under way -----

  /** The request is what the question says. */
  predicate Asks(k: Question, q: Request) {
    q == Request(k.id, k.at, k.camera.mid, k.keyboard, k.camera.lid)
  }

  /** The answer is a true one to the question: addressed to where it was asked, for the keyboard that
      asked; 200 exactly if it was given by the matrix asked for, with a trunk granted and the camera
      found, and 404 otherwise; with the trunk's port, or port 0 if none was granted. */
  predicate TrueTo(k: Question, a: Answer) {
    && a.response.id == k.id && a.response.to == k.at && a.response.from == k.camera.mid && a.response.initiator == k.keyboard
    && (a.response.status == 200 <==> a.at == k.camera.mid && a.granted && a.found)
    && (a.response.status == 200 || a.response.status == 404)
    && a.response.outport == if a.granted then a.port else 0
  }

  ghost predicate FromQuestions(s: Net, ks: seq<Question>) {
    forall fd, q :: fd in s.downs && q in s.downs[fd] ==> exists k :: k in ks && Asks(k, q)
  }

  ghost predicate FromAnswers(s: Net, gs: seq<Answer>) {
    forall fd, r :: fd in s.ups && Resp(r) in s.ups[fd] ==> exists a :: a in gs && a.response == r
  }

  ghost predicate AllTrue(ks: seq<Question>, gs: seq<Answer>) {
    forall a :: a in gs ==> exists k :: k in ks && TrueTo(k, a)
  }

  ghost predicate AllGiven(gs: seq<Answer>, ds: seq<Delivery>) {
    forall d :: d in ds ==> exists a :: a in gs && a.response == d.response && d.response.to == d.at
  }

  // ----- steps -----

  lemma {:induction false} AnswerIsTrue(topo: Topo, s: Net, step: Step, ks: seq<Question>)
    requires Orderly(topo, s) && FromQuestions(s, ks)
    ensures AllTrue(ks, AnsweredIn(s, step))
  {
    if step.RecvDown? && CanRecvDown(s, step.fd) {
      OrderlyParts(topo, s);
      var c, q := s.link[step.fd], s.downs[step.fd][0];
      assert q in s.downs[step.fd] && s.nodes[c].id == c;
      hide Orderly, Shape, OnlyOnce, MatchMatrix;
      RequestAnswers(s.nodes[c], q, step.granted, step.found, step.outport);
      hide OnClientRxRequest;
      var k :| k in ks && Asks(k, q);
      if AnsweredIn(s, step) != [] {
        assert TrueTo(k, AnsweredIn(s, step)[0]);
      }
    }
  }

  lemma {:induction false} DeliveryIsGiven(topo: Topo, s: Net, step: Step, gs: seq<Answer>)
    requires Orderly(topo, s) && FromAnswers(s, gs)
    ensures AllGiven(gs, DeliveredIn(topo, s, step))
  {
    if step.RecvUp? && CanRecvUp(topo, s, step.fd) && s.ups[step.fd][0].Resp? {
      OrderlyParts(topo, s);
      var p, r := topo.parent[s.link[step.fd]], s.ups[step.fd][0].resp;
      assert s.ups[step.fd][0] == Resp(r) && s.ups[step.fd][0] in s.ups[step.fd] && s.nodes[p].id == p;
      hide Orderly, Shape, OnlyOnce;
      ResponseGoesOn(s.nodes[p], r);
      hide OnServerRxResponse;
    }
  }

  /** Requests under way come from questions; the ones put on the wire are those taken off it, or the
      question just asked. */
  lemma {:induction false} NextFromQuestions(topo: Topo, s: Net, step: Step, ks: seq<Question>)
    requires Orderly(topo, s) && FromQuestions(s, ks)
    ensures FromQuestions(Next(topo, s, step), ks + AskedIn(s, step))
  {
    var s' := Next(topo, s, step);
    forall fd, q | fd in s'.downs && q in s'.downs[fd] ensures exists k :: k in ks + AskedIn(s, step) && Asks(k, q) {
      NewRequests(topo, s, step, fd, q);
      if f :| f in s.downs && q in s.downs[f] {
        var k :| k in ks && Asks(k, q);
        assert k in ks + AskedIn(s, step);
      } else {
        assert AskedIn(s, step)[0] in ks + AskedIn(s, step);
      }
    }
  }

  lemma {:induction false} NewRequests(topo: Topo, s: Net, step: Step, fd: int, q: Request)
    requires Orderly(topo, s) && fd in Next(topo, s, step).downs && q in Next(topo, s, step).downs[fd]
    ensures (exists f :: f in s.downs && q in s.downs[f]) || (AskedIn(s, step) != [] && Asks(AskedIn(s, step)[0], q))
  {
    if step.RecvDown? {
      hide Orderly, Shape, OnlyOnce, OnClientRxRequest, DoRequest;
      OrderlyParts(topo, s);
      if CanRecvDown(s, step.fd) { RequestIsAnsweredOrForwarded(topo, s, step.fd, step.granted, step.found, step.outport); }
    } else if step.Switch? {
      if CanSwitch(s, step.m, step.camera, step.id) {
        assert Next(topo, s, step) == DoSwitch(s, step.m, step.keyboard, step.camera, step.id);
        hide Next, DoSwitch, CanSwitch;
        AskedRequest(topo, s, step.m, step.keyboard, step.camera, step.id, fd, q);
      }
    } else {
      OtherStepsAddNothing(topo, s, step);
    }
  }

  lemma {:induction false} AskedRequest(topo: Topo, s: Net, m: Id, keyboard: int, camera: GlobalId, id: int, fd: int, q: Request)
    requires Orderly(topo, s) && CanSwitch(s, m, camera, id)
    requires var s' := DoSwitch(s, m, keyboard, camera, id); fd in s'.downs && q in s'.downs[fd]
    ensures var ks := AskedIn(s, Switch(m, keyboard, camera, id));
      (exists f :: f in s.downs && q in s.downs[f]) || (ks != [] && Asks(ks[0], q))
  {
    OrderlyParts(topo, s);
    NodeIsItself(topo, s, m);
    hide Orderly, Shape, OnlyOnce, MatchMatrix, DoSwitch;
    SwitchAsks(topo, s, m, keyboard, camera, id);
    StartSwitchSends(s.nodes[m], keyboard, camera, id);
    hide StartSwitch;
  }

  /** The other steps put no request and no response on the wire that was not on it. */
  ghost predicate NothingNew(s: Net, s': Net) {
    && (forall fd, q :: fd in s'.downs && q in s'.downs[fd] ==> exists f :: f in s.downs && q in s.downs[f])
    && (forall fd, r :: fd in s'.ups && Resp(r) in s'.ups[fd] ==> exists f :: f in s.ups && Resp(r) in s.ups[f])
  }

  lemma {:induction false} OtherStepsAddNothing(topo: Topo, s: Net, step: Step)
    requires Orderly(topo, s) && !step.RecvDown? && !step.Switch?
    ensures NothingNew(s, Next(topo, s, step))
  {
    hide Orderly, Shape, OnlyOnce, Registered, BuildRegister;
    hide DoConnect, DoClientGone, DoServerGone, DoRegister, DoResponse;
    OrderlyParts(topo, s);
    match step
    case Connect(c, f) => if CanConnect(topo, s, c, f) { ConnectEffect(s, c, f); }
    case ClientGone(c) => if CanClientGone(s, c) { GoneEffect(s, c); }
    case ServerGone(f) => if CanServerGone(topo, s, f) { ClosedEffect(topo, s, f); }
    case RecvUp(f) =>
      if CanRecvUp(topo, s, f) {
        if s.ups[f][0].Reg? { RegisterEffect(topo, s, f); } else { ResponseIsHandled(topo, s, f); }
      }
  }

  lemma NodeIsItself(topo: Topo, s: Net, m: Id)
    requires Shape(topo, s) && m in s.nodes
    ensures s.nodes[m].id == m
  {}

  lemma {:induction false} NextFromAnswers(topo: Topo, s: Net, step: Step, gs: seq<Answer>)
    requires Orderly(topo, s) && FromAnswers(s, gs)
    ensures FromAnswers(Next(topo, s, step), gs + AnsweredIn(s, step))
  {
    var s' := Next(topo, s, step);
    forall fd, r | fd in s'.ups && Resp(r) in s'.ups[fd] ensures exists a :: a in gs + AnsweredIn(s, step) && a.response == r {
      NewResponses(topo, s, step, fd, r);
      if f :| f in s.ups && Resp(r) in s.ups[f] {
        var a :| a in gs && a.response == r;
        assert a in gs + AnsweredIn(s, step);
      } else {
        assert AnsweredIn(s, step)[0] in gs + AnsweredIn(s, step);
      }
    }
  }

  lemma {:induction false} NewResponses(topo: Topo, s: Net, step: Step, fd: int, r: Response)
    requires Orderly(topo, s) && fd in Next(topo, s, step).ups && Resp(r) in Next(topo, s, step).ups[fd]
    ensures (exists f :: f in s.ups && Resp(r) in s.ups[f]) || (AnsweredIn(s, step) != [] && AnsweredIn(s, step)[0].response == r)
  {
    if step.RecvDown? || step.Switch? {
      hide Orderly, Shape, OnlyOnce, OnClientRxRequest, StartSwitch, DoRequest, DoSwitch;
      OrderlyParts(topo, s);
      match step {
        case RecvDown(f, granted, found, outport) =>
          if CanRecvDown(s, f) { RequestIsAnsweredOrForwarded(topo, s, f, granted, found, outport); }
        case Switch(m, keyboard, camera, id) =>
          if CanSwitch(s, m, camera, id) { SwitchAsks(topo, s, m, keyboard, camera, id); }
      }
    } else {
      OtherStepsAddNothing(topo, s, step);
    }
  }

  // ----- whole runs -----

  ghost predicate Truthful(topo: Topo, steps: seq<Step>) {
    && FromQuestions(After(topo, steps), Questions(topo, steps))
    && FromAnswers(After(topo, steps), AnswersGiven(topo, steps))
    && AllTrue(Questions(topo, steps), AnswersGiven(topo, steps))
    && AllGiven(AnswersGiven(topo, steps), Deliveries(topo, steps))
  }

  lemma {:induction false} AlwaysTruthful(topo: Topo, steps: seq<Step>)
    requires topo.Valid()
    ensures Truthful(topo, steps)
  {
    if steps != [] {
      var before, step := steps[..|steps| - 1], steps[|steps| - 1];
      var s := After(topo, before);
      AlwaysTruthful(topo, before);
      AlwaysOrderly(topo, before);
      AfterLast(topo, steps);
      hide Orderly, Next, AskedIn, AnsweredIn, DeliveredIn, FromQuestions, FromAnswers;
      var ks, gs := Questions(topo, before), AnswersGiven(topo, before);
      NextFromQuestions(topo, s, step, ks);
      NextFromAnswers(topo, s, step, gs);
      AnswerIsTrue(topo, s, step, ks);
      DeliveryIsGiven(topo, s, step, gs);
      TrueAndGiven(ks, gs, AskedIn(s, step), AnsweredIn(s, step), Deliveries(topo, before), DeliveredIn(topo, s, step));
    }
  }

  lemma AfterLast(topo: Topo, steps: seq<Step>)
    requires steps != []
    ensures After(topo, steps) == Next(topo, After(topo, steps[..|steps| - 1]), steps[|steps| - 1])
  {}

  lemma {:induction false} TrueAndGiven(ks: seq<Question>, gs: seq<Answer>, ks': seq<Question>, gs': seq<Answer>,
                                        ds: seq<Delivery>, ds': seq<Delivery>)
    requires AllTrue(ks, gs) && AllTrue(ks, gs') && AllGiven(gs, ds) && AllGiven(gs, ds')
    ensures AllTrue(ks + ks', gs + gs') && AllGiven(gs + gs', ds + ds')
  {
    hide TrueTo;
    forall a | a in gs + gs' ensures exists k :: k in ks + ks' && TrueTo(k, a) {
      var k :| k in ks && TrueTo(k, a);
      assert k in ks + ks';
    }
    forall d | d in ds + ds' ensures exists a :: a in gs + gs' && a.response == d.response && d.response.to == d.at {
      var a :| a in gs && a.response == d.response && d.response.to == d.at;
      assert a in gs + gs';
    }
  }

  /** In every run, connections lost or not: the response handed to a keyboard is one that a matrix
      gave to a question of that keyboard, and it is a true one. */
  lemma {:induction false} DeliveredAnswersAreTrue(topo: Topo, steps: seq<Step>, d: Delivery) returns (k: Question, a: Answer)
    requires topo.Valid() && d in Deliveries(topo, steps)
    ensures k in Questions(topo, steps) && a in AnswersGiven(topo, steps)
    ensures a.response == d.response && d.at == k.at && TrueTo(k, a)
  {
    AlwaysTruthful(topo, steps);
    a :| a in AnswersGiven(topo, steps) && a.response == d.response && d.response.to == d.at;
    k :| k in Questions(topo, steps) && TrueTo(k, a);
  }

  /** And a request counts as completed exactly when a response to it has been handed over. */
  lemma {:induction false} CompletedIsDelivered(topo: Topo, steps: seq<Step>, id: int, at: Id)
    requires topo.Valid()
    ensures Completed(id, at) in After(topo, steps).log
       <==> exists d :: d in Deliveries(topo, steps) && d.at == at && d.response.id == id
  {
    if steps != [] {
      var before, step := steps[..|steps| - 1], steps[|steps| - 1];
      CompletedIsDelivered(topo, before, id, at);
      AlwaysOrderly(topo, before);
      AfterLast(topo, steps);
      var s := After(topo, before);
      hide After, Orderly, Next, DeliveredIn;
      NewlyCompleted(topo, s, step, id, at);
      var ds, ds' := Deliveries(topo, before), DeliveredIn(topo, s, step);
      assert Deliveries(topo, steps) == ds + ds';
      assert forall d :: d in ds + ds' <==> d in ds || d in ds';
    }
  }

  lemma {:induction false} NewlyCompleted(topo: Topo, s: Net, step: Step, id: int, at: Id)
    requires Orderly(topo, s)
    ensures Completed(id, at) in Next(topo, s, step).log
       <==> Completed(id, at) in s.log || exists d :: d in DeliveredIn(topo, s, step) && d.at == at && d.response.id == id
  {
    hide Orderly, Shape, OnlyOnce, OnClientRxRequest, StartSwitch, Registered, BuildRegister;
    hide DoConnect, DoClientGone, DoServerGone, DoRegister, DoResponse, DoRequest, DoSwitch;
    OrderlyParts(topo, s);
    match step
    case Connect(c, f) => if CanConnect(topo, s, c, f) { ConnectEffect(s, c, f); }
    case ClientGone(c) => if CanClientGone(s, c) { GoneEffect(s, c); }
    case ServerGone(f) => if CanServerGone(topo, s, f) { ClosedEffect(topo, s, f); }
    case RecvUp(f) =>
      if CanRecvUp(topo, s, f) {
        if s.ups[f][0].Reg? { RegisterEffect(topo, s, f); } else { CompletesOrNot(topo, s, f, id, at); }
      }
    case RecvDown(f, granted, found, outport) =>
      if CanRecvDown(s, f) { RequestIsAnsweredOrForwarded(topo, s, f, granted, found, outport); }
    case Switch(m, keyboard, camera, k) =>
      if CanSwitch(s, m, camera, k) { SwitchAsks(topo, s, m, keyboard, camera, k); }
  }

  lemma {:induction false} CompletesOrNot(topo: Topo, s: Net, f: int, id: int, at: Id)
    requires Orderly(topo, s) && CanRecvUp(topo, s, f) && s.ups[f][0].Resp?
    ensures Completed(id, at) in DoResponse(topo, s, f).log
       <==> Completed(id, at) in s.log || exists d :: d in DeliveredIn(topo, s, RecvUp(f)) && d.at == at && d.response.id == id
  {
    OrderlyParts(topo, s);
    var p, r := topo.parent[s.link[f]], s.ups[f][0].resp;
    NodeIsItself(topo, s, p);
    hide Orderly, Shape, OnlyOnce, DoResponse;
    ResponseIsHandled(topo, s, f);
    ResponseGoesOn(s.nodes[p], r);
    hide OnServerRxResponse;
    var ds := DeliveredIn(topo, s, RecvUp(f));
    if ds != [] {
      assert ds == [Delivery(p, r)] && ds[0] in ds;
    }
  }
}
