/** How a whole system and its two peers correspond.  Seen from the client, a run of the system
    is a run of the client's machine on the frames a server session has sent; seen from the
    server, it is a session on the frames that machine has sent; and the client's next step is
    possible in the system exactly when it is possible in the machine. */
module Projections {
  import opened Protocol
  import opened PageStore
  import opened SyncSpec
  import opened Session
  import opened SyncClient
  import PushSystem
  import PullSystem

  // ----- A server step does not look at the log -----

  /** The same world, with a longer past. */
  function Under(past: seq<Event>, w: World): World {
    w.(log := past + w.log)
  }

  function StepUnder(past: seq<Event>, step: Step): Step {
    Step(Under(past, step.world), step.error)
  }

  lemma {:induction false} EmitUnder(past: seq<Event>, w: World, frame: SyncMessage)
    ensures Emit(Under(past, w), frame) == StepUnder(past, Emit(w, frame))
  {
    assert past + w.log + [Sent(frame)] == past + (w.log + [Sent(frame)]);
  }

  lemma {:induction false} GateUnder(past: seq<Event>, w: World)
    ensures MaybeEmitComplete(Under(past, w)) == StepUnder(past, MaybeEmitComplete(w))
  {
    EmitUnder(past, w, SyncComplete(w.fsm.pagesTransferred, w.fsm.bytesTransferred));
    hide Emit;
  }

  lemma {:induction false} SendUnder(past: seq<Event>, w: World, pageNo: nat, data: Bytes)
    ensures SendPage(Under(past, w), pageNo, data) == StepUnder(past, SendPage(w, pageNo, data))
    ensures WalkPage(Under(past, w), pageNo, data) == StepUnder(past, WalkPage(w, pageNo, data))
  {
    EmitUnder(past, Count(w, |data|), PageData(pageNo, data));
    hide Emit;
  }

  lemma {:induction false} WalkUnder(past: seq<Event>, w: World, from: nat, last: nat)
    ensures Walk(Under(past, w), from, last) == StepUnder(past, Walk(w, from, last))
    decreases last + 1 - from
  {
    hide WalkPage;
    if from <= last {
      if from !in w.store {
        WalkUnder(past, w, from + 1, last);
      } else if Charge(w).error.None? {
        var row := Charge(w).world;
        assert Charge(Under(past, w)).world == Under(past, row);
        SendUnder(past, row, from, w.store[from].data);
        var sent := WalkPage(row, from, w.store[from].data);
        if sent.error.None? {
          WalkUnder(past, sent.world, from + 1, last);
        }
      }
    }
  }

  lemma {:induction false} StoreUnder(h: Hash, past: seq<Event>, w: World, pageNo: nat, data: Bytes)
    ensures StorePage(h, Under(past, w), pageNo, data) == StepUnder(past, StorePage(h, w, pageNo, data))
  {
    assert past + w.log + [Stored(pageNo, |data|)] == past + (w.log + [Stored(pageNo, |data|)]);
  }

  lemma {:induction false} DataUnder(h: Hash, past: seq<Event>, w: World, pageNo: nat, data: Bytes)
    ensures HandlePageData(h, Under(past, w), pageNo, data) == StepUnder(past, HandlePageData(h, w, pageNo, data))
  {
    hide StorePage, MaybeEmitComplete;
    StoreUnder(h, past, w, pageNo, data);
    GateUnder(past, StorePage(h, w, pageNo, data).world);
  }

  lemma {:induction false} BatchUnder(h: Hash, past: seq<Event>, w: World, pages: seq<PageDataEntry>)
    ensures HandlePageDataBatch(h, Under(past, w), pages) == StepUnder(past, HandlePageDataBatch(h, w, pages))
    decreases |pages|
  {
    hide HandlePageData;
    if pages != [] {
      DataUnder(h, past, w, pages[0].pageNo, pages[0].data);
      BatchUnder(h, past, HandlePageData(h, w, pages[0].pageNo, pages[0].data).world, pages[1..]);
    }
  }

  lemma {:induction false} CompleteUnder(past: seq<Event>, w: World)
    ensures HandleComplete(Under(past, w)) == StepUnder(past, HandleComplete(w))
  {
    hide Walk, MaybeEmitComplete;
    var w1 := w.(fsm := w.fsm.(completedHashPhase := true));
    if w.fsm.direction.Pull? && w.fsm.serverMaxPage > 0 {
      var w2 := Charge(w1).world;
      assert Charge(Under(past, w1)).world == Under(past, w2);
      WalkUnder(past, w2, 1, w.fsm.serverMaxPage);
      GateUnder(past, Walk(w2, 1, w.fsm.serverMaxPage).world);
    } else {
      GateUnder(past, w1);
    }
  }

  lemma {:induction false} HashUnder(past: seq<Event>, w: World, pageNo: nat, hash: Bytes)
    ensures HandlePageHash(Under(past, w), pageNo, hash) == StepUnder(past, HandlePageHash(w, pageNo, hash))
  {
    hide Emit, SendPage;
    var seen := Charge(w.(fsm := w.fsm.(clientSeen := w.fsm.clientSeen + {pageNo}))).world;
    EmitUnder(past, seen.(fsm := seen.fsm.(pendingRequests := seen.fsm.pendingRequests + {pageNo})), RequestPage(pageNo));
    if pageNo in w.store {
      SendUnder(past, Charge(seen).world, pageNo, w.store[pageNo].data);
    }
  }

  /** Whatever a session has done before, its next step is the same, appended to it. */
  lemma {:induction false} ApplyUnder(h: Hash, past: seq<Event>, w: World, msg: SyncMessage)
    ensures Apply(h, Under(past, w), msg) == StepUnder(past, Apply(h, w, msg))
  {
    hide HandlePageHash, HandlePageData, HandlePageDataBatch, HandleComplete, Emit;
    if !w.fsm.sawHello {
      if msg.Hello? {
        var greeted := Charge(w.(fsm := w.fsm.(sawHello := true))).world;
        EmitUnder(past, greeted.(fsm := greeted.fsm.(serverMaxPage := MaxPage(w.store))),
                  HelloReply(PROTOCOL_VERSION, msg.pageSize, MaxPage(w.store)));
      }
    } else {
      match msg
      case PageHash(pageNo, hash) => HashUnder(past, w, pageNo, hash);
      case PageHashBatch(start, end, combined) =>
        EmitUnder(past, Charge(w.(fsm := w.fsm.(clientSeen := w.fsm.clientSeen + PageSet(start, end)))).world,
                  HashMismatchBatch(PageRange(start, end)));
      case PageData(pageNo, data) => DataUnder(h, past, w, pageNo, data);
      case PageDataBatch(pages) => BatchUnder(h, past, w, pages);
      case Complete => CompleteUnder(past, w);
      case _ =>
    }
  }

  lemma {:induction false} FramesConcat(a: seq<Event>, b: seq<Event>)
    ensures Frames(a + b) == Frames(a) + Frames(b)
    decreases |b|
  {
    if b == [] {
      assert a + b == a;
    } else {
      var n := |b| - 1;
      FramesConcat(a, b[..n]);
      FramesSnoc(a + b[..n], b[n]);
      assert a + b == a + b[..n] + [b[n]];
    }
  }

  // ----- The server's side -----

  /** Everything a session has sent, with the Error of the loop if it failed. */
  function ServerFrames(s: Session): seq<SyncMessage> {
    Frames(s.log)
    + match s.status
      case Failed(why) => if why == SendFailed then [] else [Error(Reason(why))]
      case _ => []
  }

  /** A step taken with an empty log is the session's next step. */
  lemma {:induction false} NextArrival(h: Hash, direction: Direction, arrivals: seq<Arrival>, a: Arrival)
    requires Run(h, direction, arrivals).status.Open?
    ensures var s := Run(h, direction, arrivals);
            var step := Apply(h, World(s.fsm, a.store, a.storeCredit, a.sendCredit, []), a.msg);
            var s' := Run(h, direction, arrivals + [a]);
            && s'.fsm == step.world.fsm && s'.status == StatusAfter(step)
            && ServerFrames(s') == ServerFrames(s) + Frames(step.world.log) + ErrorFrames(step)
  {
    hide Apply, Run, Frames;
    RunSnoc(h, direction, arrivals, a);
    var s := Run(h, direction, arrivals);
    var w := World(s.fsm, a.store, a.storeCredit, a.sendCredit, []);
    ApplyUnder(h, s.log, w, a.msg);
    assert Under(s.log, w) == World(s.fsm, a.store, a.storeCredit, a.sendCredit, s.log);
    FramesConcat(s.log, Apply(h, w, a.msg).world.log);
  }

  function Messages(arrivals: seq<Arrival>): seq<SyncMessage> {
    seq(|arrivals|, i requires 0 <= i < |arrivals| => arrivals[i].msg)
  }

  lemma {:induction false} MoreMessages(arrivals: seq<Arrival>, next: Arrival, queue: seq<SyncMessage>)
    requires queue != [] && next.msg == queue[0]
    ensures Messages(arrivals + [next]) + queue[1..] == Messages(arrivals) + queue
  {
  }

  lemma {:induction false} Regroup(a: seq<SyncMessage>, b: seq<SyncMessage>, c: seq<SyncMessage>)
    ensures a + b + c == a + (b + c)
  {
  }

  // ----- The client's side of a push -----

  /** Frames that come later make no difference to a step already possible. */
  lemma {:induction false} PushWithMore(h: Hash, db: LocalDb, s: PushSide, trace: seq<PushAction>, more: seq<SyncMessage>)
    requires PushRun(h, db, s, trace).Some?
    ensures var end := PushRun(h, db, s, trace).value;
            PushRun(h, db, s.(inbound := s.inbound + more), trace) == Some(end.(inbound := end.inbound + more))
  {
    if trace != [] {
      var n := |trace| - 1;
      PushWithMore(h, db, s, trace[..n], more);
      var mid := PushRun(h, db, s, trace[..n]).value;
      PushStepWithMore(h, db, mid, trace[n], more);
      hide PushStep, PushEnabled;
    }
  }

  lemma {:induction false} PushStepWithMore(h: Hash, db: LocalDb, s: PushSide, a: PushAction, more: seq<SyncMessage>)
    requires PushEnabled(db, s, a)
    ensures PushEnabled(db, s.(inbound := s.inbound + more), a)
    ensures var next := PushStep(h, db, s, a);
            PushStep(h, db, s.(inbound := s.inbound + more), a) == next.(inbound := next.inbound + more)
  {
    assert s.inbound != [] ==> (s.inbound + more)[1..] == s.inbound[1..] + more;
  }

  lemma {:induction false} PushStepUnder(h: Hash, db: LocalDb, s: PushSide, before: seq<SyncMessage>, a: PushAction)
    requires PushEnabled(db, s, a)
    ensures var next := PushStep(h, db, s, a);
            PushStep(h, db, s.(outbound := before + s.outbound), a) == next.(outbound := before + next.outbound)
  {
    assert forall m: SyncMessage :: before + s.outbound + [m] == before + (s.outbound + [m]);
  }

  /** The system, seen from its peers: `trace` is what the client did, `arrivals` what the
      server received. */
  ghost predicate PushSeen(h: Hash, db: LocalDb, sys: PushSystem.PushSys, trace: seq<PushAction>, arrivals: seq<Arrival>) {
    var s := Run(h, Direction.Push, arrivals);
    && s.fsm == sys.fsm && s.status == sys.server
    && PushRun(h, db, PushSide(NEW_PUSH_CLIENT, ServerFrames(s), []), trace)
       == Some(PushSide(sys.client, sys.s2c, Messages(arrivals) + sys.c2s))
  }

  /** The client's next step is possible in the system exactly when its machine can take it. */
  lemma {:induction false} PushClientStep(h: Hash, db: LocalDb, sys: PushSystem.PushSys, trace: seq<PushAction>,
                                          arrivals: seq<Arrival>, a: PushAction)
    requires PushSeen(h, db, sys, trace, arrivals)
    ensures var origin := PushSide(NEW_PUSH_CLIENT, ServerFrames(Run(h, Direction.Push, arrivals)), []);
            PushSystem.Enabled(db, sys, PushSystem.Client(a)) <==> PushRun(h, db, origin, trace + [a]).Some?
    ensures PushSystem.Enabled(db, sys, PushSystem.Client(a)) ==>
              PushSeen(h, db, PushSystem.Do(h, db, sys, PushSystem.Client(a)), trace + [a], arrivals)
  {
    var origin := PushSide(NEW_PUSH_CLIENT, ServerFrames(Run(h, Direction.Push, arrivals)), []);
    assert (trace + [a])[..|trace|] == trace;
    assert PushRun(h, db, origin, trace + [a]).Some?
           <==> PushEnabled(db, PushRun(h, db, origin, trace).value, a);
    hide Apply, ServerFrames, Run;
    if PushSystem.Enabled(db, sys, PushSystem.Client(a)) {
      PushRunSnoc(h, db, origin, trace, a);
      PushStepUnder(h, db, PushSide(sys.client, sys.s2c, sys.c2s), Messages(arrivals), a);
      hide PushRun, PushStep, Messages;
    }
  }

  lemma {:induction false} PushServerStep(h: Hash, db: LocalDb, sys: PushSystem.PushSys, trace: seq<PushAction>,
                                          arrivals: seq<Arrival>, a: PushSystem.Action)
    requires PushSeen(h, db, sys, trace, arrivals) && a.Server? && PushSystem.Enabled(db, sys, a)
    ensures PushSeen(h, db, PushSystem.Do(h, db, sys, a), trace,
                     arrivals + [Arrival(sys.c2s[0], sys.store, a.storeCredit, a.sendCredit)])
  {
    hide Apply, Run, PushRun, Frames, ServerFrames, ErrorFrames, Messages, StatusAfter;
    var next := Arrival(sys.c2s[0], sys.store, a.storeCredit, a.sendCredit);
    var step := PushSystem.ServerStep(h, sys, a.storeCredit, a.sendCredit);
    NextArrival(h, Direction.Push, arrivals, next);
    MoreMessages(arrivals, next, sys.c2s);
    var sent := ServerFrames(Run(h, Direction.Push, arrivals));
    var more := Frames(step.world.log) + ErrorFrames(step);
    PushWithMore(h, db, PushSide(NEW_PUSH_CLIENT, sent, []), trace, more);
    Regroup(sent, Frames(step.world.log), ErrorFrames(step));
    Regroup(sys.s2c, Frames(step.world.log), ErrorFrames(step));
  }

  /** Every run of a whole push is a run of the client's machine and a session of the server,
      each on exactly the frames the other has sent. */
  lemma {:induction false} PushProjects(h: Hash, db: LocalDb, sys: PushSystem.PushSys, trace: seq<PushAction>,
                                        arrivals: seq<Arrival>, actions: seq<PushSystem.Action>)
    returns (trace': seq<PushAction>, arrivals': seq<Arrival>)
    requires PushSeen(h, db, sys, trace, arrivals) && PushSystem.IsRun(h, db, sys, actions)
    ensures trace <= trace' && arrivals <= arrivals'
    ensures PushSeen(h, db, PushSystem.After(h, db, sys, actions), trace', arrivals')
    decreases |actions|
  {
    hide PushSeen, PushSystem.Do;
    trace', arrivals' := trace, arrivals;
    if actions != [] {
      var a := actions[0];
      if a.Client? {
        PushClientStep(h, db, sys, trace, arrivals, a.act);
        trace' := trace + [a.act];
      } else {
        PushServerStep(h, db, sys, trace, arrivals, a);
        arrivals' := arrivals + [Arrival(sys.c2s[0], sys.store, a.storeCredit, a.sendCredit)];
      }
      trace', arrivals' := PushProjects(h, db, PushSystem.Do(h, db, sys, a), trace', arrivals', actions[1..]);
    }
  }

  lemma {:induction false} PushBegins(h: Hash, db: LocalDb, store0: Store)
    ensures PushSeen(h, db, PushSystem.Init(store0), [], [])
  {
    assert ServerFrames(NewSession(Direction.Push)) == [];
    assert Messages([]) + [] == [];
  }

  /** From the beginning: whatever happens in a push, its two ends are such a pair. */
  lemma {:induction false} PushIsTwoPeers(h: Hash, db: LocalDb, store0: Store, actions: seq<PushSystem.Action>)
    returns (trace: seq<PushAction>, arrivals: seq<Arrival>)
    requires PushSystem.IsRun(h, db, PushSystem.Init(store0), actions)
    ensures PushSeen(h, db, PushSystem.After(h, db, PushSystem.Init(store0), actions), trace, arrivals)
  {
    PushBegins(h, db, store0);
    trace, arrivals := PushProjects(h, db, PushSystem.Init(store0), [], [], actions);
  }

  // ----- The client's side of a pull -----

  /** Frames that come later make no difference to a step already possible. */
  lemma {:induction false} PullWithMore(h: Hash, db: LocalDb, s: PullSide, trace: seq<PullAction>, more: seq<SyncMessage>)
    requires PullRun(h, db, s, trace).Some?
    ensures var end := PullRun(h, db, s, trace).value;
            PullRun(h, db, s.(inbound := s.inbound + more), trace) == Some(end.(inbound := end.inbound + more))
  {
    if trace != [] {
      var n := |trace| - 1;
      PullWithMore(h, db, s, trace[..n], more);
      var mid := PullRun(h, db, s, trace[..n]).value;
      PullStepWithMore(h, db, mid, trace[n], more);
      hide PullStep, PullEnabled;
    }
  }

  lemma {:induction false} PullStepWithMore(h: Hash, db: LocalDb, s: PullSide, a: PullAction, more: seq<SyncMessage>)
    requires PullEnabled(db, s, a)
    ensures PullEnabled(db, s.(inbound := s.inbound + more), a)
    ensures var next := PullStep(h, db, s, a);
            PullStep(h, db, s.(inbound := s.inbound + more), a) == next.(inbound := next.inbound + more)
  {
    assert s.inbound != [] ==> (s.inbound + more)[1..] == s.inbound[1..] + more;
  }

  lemma {:induction false} PullStepUnder(h: Hash, db: LocalDb, s: PullSide, before: seq<SyncMessage>, a: PullAction)
    requires PullEnabled(db, s, a)
    ensures var next := PullStep(h, db, s, a);
            PullStep(h, db, s.(outbound := before + s.outbound), a) == next.(outbound := before + next.outbound)
  {
    assert forall m: SyncMessage :: before + s.outbound + [m] == before + (s.outbound + [m]);
  }

  /** The system, seen from its peers: `trace` is what the client did, `arrivals` what the
      server received. */
  ghost predicate PullSeen(h: Hash, db: LocalDb, sys: PullSystem.PullSys, trace: seq<PullAction>, arrivals: seq<Arrival>) {
    var s := Run(h, Direction.Pull, arrivals);
    && s.fsm == sys.fsm && s.status == sys.server
    && PullRun(h, db, PullSide(NewPullClient(db), ServerFrames(s), []), trace)
       == Some(PullSide(sys.client, sys.s2c, Messages(arrivals) + sys.c2s))
  }

  /** The client's next step is possible in the system exactly when its machine can take it. */
  lemma {:induction false} PullClientStep(h: Hash, db: LocalDb, sys: PullSystem.PullSys, trace: seq<PullAction>,
                                          arrivals: seq<Arrival>, a: PullAction)
    requires PullSeen(h, db, sys, trace, arrivals)
    ensures var origin := PullSide(NewPullClient(db), ServerFrames(Run(h, Direction.Pull, arrivals)), []);
            PullSystem.Enabled(db, sys, PullSystem.Client(a)) <==> PullRun(h, db, origin, trace + [a]).Some?
    ensures PullSystem.Enabled(db, sys, PullSystem.Client(a)) ==>
              PullSeen(h, db, PullSystem.Do(h, db, sys, PullSystem.Client(a)), trace + [a], arrivals)
  {
    var origin := PullSide(NewPullClient(db), ServerFrames(Run(h, Direction.Pull, arrivals)), []);
    assert (trace + [a])[..|trace|] == trace;
    assert PullRun(h, db, origin, trace + [a]).Some?
           <==> PullEnabled(db, PullRun(h, db, origin, trace).value, a);
    hide Apply, ServerFrames, Run;
    if PullSystem.Enabled(db, sys, PullSystem.Client(a)) {
      PullRunSnoc(h, db, origin, trace, a);
      PullStepUnder(h, db, PullSide(sys.client, sys.s2c, sys.c2s), Messages(arrivals), a);
      hide PullRun, PullStep, Messages;
    }
  }

  lemma {:induction false} PullServerStep(h: Hash, db: LocalDb, sys: PullSystem.PullSys, trace: seq<PullAction>,
                                          arrivals: seq<Arrival>, a: PullSystem.Action)
    requires PullSeen(h, db, sys, trace, arrivals) && a.Server? && PullSystem.Enabled(db, sys, a)
    ensures PullSeen(h, db, PullSystem.Do(h, db, sys, a), trace,
                     arrivals + [Arrival(sys.c2s[0], sys.store, a.storeCredit, a.sendCredit)])
  {
    hide Apply, Run, PullRun, Frames, ServerFrames, ErrorFrames, Messages, StatusAfter;
    var next := Arrival(sys.c2s[0], sys.store, a.storeCredit, a.sendCredit);
    var step := PullSystem.ServerStep(h, sys, a.storeCredit, a.sendCredit);
    NextArrival(h, Direction.Pull, arrivals, next);
    MoreMessages(arrivals, next, sys.c2s);
    var sent := ServerFrames(Run(h, Direction.Pull, arrivals));
    var more := Frames(step.world.log) + ErrorFrames(step);
    PullWithMore(h, db, PullSide(NewPullClient(db), sent, []), trace, more);
    Regroup(sent, Frames(step.world.log), ErrorFrames(step));
    Regroup(sys.s2c, Frames(step.world.log), ErrorFrames(step));
  }

  /** Other sessions are seen by neither peer. */
  lemma {:induction false} PullOtherStep(h: Hash, db: LocalDb, sys: PullSystem.PullSys, trace: seq<PullAction>,
                                         arrivals: seq<Arrival>, a: PullSystem.Action)
    requires PullSeen(h, db, sys, trace, arrivals) && a.Other?
    ensures PullSeen(h, db, PullSystem.Do(h, db, sys, a), trace, arrivals)
  {
    hide Apply, Run, PullRun, ServerFrames, Messages;
  }

  /** Every run of a whole pull is a run of the client's machine and a session of the server,
      each on exactly the frames the other has sent. */
  lemma {:induction false} PullProjects(h: Hash, db: LocalDb, sys: PullSystem.PullSys, trace: seq<PullAction>,
                                        arrivals: seq<Arrival>, actions: seq<PullSystem.Action>)
    returns (trace': seq<PullAction>, arrivals': seq<Arrival>)
    requires PullSeen(h, db, sys, trace, arrivals) && PullSystem.IsRun(h, db, sys, actions)
    ensures trace <= trace' && arrivals <= arrivals'
    ensures PullSeen(h, db, PullSystem.After(h, db, sys, actions), trace', arrivals')
    decreases |actions|
  {
    hide PullSeen, PullSystem.Do;
    trace', arrivals' := trace, arrivals;
    if actions != [] {
      var a := actions[0];
      if a.Client? {
        PullClientStep(h, db, sys, trace, arrivals, a.act);
        trace' := trace + [a.act];
      } else if a.Server? {
        PullServerStep(h, db, sys, trace, arrivals, a);
        arrivals' := arrivals + [Arrival(sys.c2s[0], sys.store, a.storeCredit, a.sendCredit)];
      } else {
        PullOtherStep(h, db, sys, trace, arrivals, a);
      }
      trace', arrivals' := PullProjects(h, db, PullSystem.Do(h, db, sys, a), trace', arrivals', actions[1..]);
    }
  }

  lemma {:induction false} PullBegins(h: Hash, db: LocalDb, store0: Store)
    ensures PullSeen(h, db, PullSystem.Init(store0, db), [], [])
  {
    assert ServerFrames(NewSession(Direction.Pull)) == [];
    assert Messages([]) + [] == [];
  }

  /** The same of a pull, among any number of other sessions. */
  lemma {:induction false} PullIsTwoPeers(h: Hash, db: LocalDb, store0: Store, actions: seq<PullSystem.Action>)
    returns (trace: seq<PullAction>, arrivals: seq<Arrival>)
    requires PullSystem.IsRun(h, db, PullSystem.Init(store0, db), actions)
    ensures PullSeen(h, db, PullSystem.After(h, db, PullSystem.Init(store0, db), actions), trace, arrivals)
  {
    PullBegins(h, db, store0);
    trace, arrivals := PullProjects(h, db, PullSystem.Init(store0, db), [], [], actions);
  }
}
