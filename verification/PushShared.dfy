/** A push while any number of other sessions, of any clients, work on the same store between
    its steps. */
module PushShared {
  import opened Protocol
  import opened PageStore
  import opened SyncSpec
  import Session
  import opened SyncClient
  import opened Link
  import opened PushSystem
  import PushProof
  import Push
  import PullProof

  /** `history` is what the store has been, from before the first step on: an observer's
      record, read by no peer. */
  datatype SharedSys = SharedSys(push: PushSys, history: seq<Store>)

  /** `Other` is another session, in whatever state, handling one frame of its client. */
  datatype SharedAction = Own(a: Action) | Other(fsm: Fsm, msg: SyncMessage, storeCredit: Credit, sendCredit: Credit)

  function Begin(store: Store): SharedSys {
    SharedSys(Init(store), [store])
  }

  predicate Possible(db: LocalDb, s: SharedSys, a: SharedAction) {
    a.Own? ==> Enabled(db, s.push, a.a)
  }

  function Record(s: SharedSys, push: PushSys): SharedSys {
    SharedSys(push, s.history + [push.store])
  }

  ghost function OtherStore(h: Hash, store: Store, a: SharedAction): Store
    requires a.Other?
  {
    Apply(h, World(a.fsm, store, a.storeCredit, a.sendCredit, []), a.msg).world.store
  }

  ghost function Act(h: Hash, db: LocalDb, s: SharedSys, a: SharedAction): SharedSys
    requires Possible(db, s, a)
  {
    if a.Own? then Record(s, Do(h, db, s.push, a.a))
    else Record(s, s.push.(store := OtherStore(h, s.push.store, a)))
  }

  ghost predicate IsSharedRun(h: Hash, db: LocalDb, start: SharedSys, actions: seq<SharedAction>)
    decreases |actions|
  {
    actions != [] ==>
      && Possible(db, start, actions[0])
      && IsSharedRun(h, db, Act(h, db, start, actions[0]), actions[1..])
  }

  ghost function SharedAfter(h: Hash, db: LocalDb, start: SharedSys, actions: seq<SharedAction>): SharedSys
    requires IsSharedRun(h, db, start, actions)
    decreases |actions|
  {
    if actions == [] then start else SharedAfter(h, db, Act(h, db, start, actions[0]), actions[1..])
  }

  // ----- The invariant -----

  /** Some store of the record holds the client's page, as far as hashes can tell. */
  ghost predicate WasThere(h: Hash, db: LocalDb, history: seq<Store>, k: nat) {
    exists i | 0 <= i < |history| :: !Differs(h, history[i], db, k)
  }

  ghost predicate RecordFits(s: SharedSys) {
    s.history != [] && s.push.store == s.history[|s.history| - 1]
  }

  /** Awaited pages are the client's; every other page dealt with was there. */
  ghost predicate PagesFit(h: Hash, db: LocalDb, s: SharedSys, lo: nat) {
    && (forall k | k in s.push.fsm.pendingRequests :: HasPage(db, k) && k < lo)
    && (forall k | 1 <= k < lo && k !in s.push.fsm.pendingRequests :: WasThere(h, db, s.history, k))
  }

  /** After the handshake, as long as neither peer has failed. */
  ghost predicate Sharing(h: Hash, db: LocalDb, s: SharedSys, v: View) {
    && QueuesFit(h, db, s.push, v)
    && PhasesFit(db, s.push, v)
    && Conserved(s.push.fsm.pendingRequests, s.push.client, v)
    && PagesFit(h, db, s, v.lo)
    && RecordFits(s)
  }

  /** Before the client has read HelloReply. */
  ghost predicate Hailing(db: LocalDb, s: SharedSys) {
    && RecordFits(s)
    && s.push.server.Open?
    && s.push.client.nextPage == 1 && s.push.client.pending == []
    && match s.push.client.phase
       case Connecting => s.push.c2s == [] && s.push.s2c == [] && s.push.fsm == NewFsm(Direction.Push)
       case AwaitingReply =>
         || (&& s.push.c2s == [Hello(PROTOCOL_VERSION, DEFAULT_PAGE_SIZE, |db|)] && s.push.s2c == []
             && s.push.fsm == NewFsm(Direction.Push))
         || (&& s.push.c2s == []
             && s.push.s2c == [HelloReply(PROTOCOL_VERSION, DEFAULT_PAGE_SIZE, s.push.fsm.serverMaxPage)]
             && s.push.fsm == NewFsm(Direction.Push).(sawHello := true, serverMaxPage := s.push.fsm.serverMaxPage))
       case _ => false
  }

  /** The server failed before SyncComplete. */
  ghost predicate Gone(s: SharedSys) {
    && s.push.server.Failed?
    && !s.push.client.phase.Synced?
    && forall m | m in s.push.s2c :: !m.SyncComplete?
  }

  ghost predicate SharedInv(h: Hash, db: LocalDb, s: SharedSys) {
    || Hailing(db, s)
    || (exists v :: Sharing(h, db, s, v))
    || Gone(s)
  }

  // ----- The record only grows -----

  lemma {:induction false} RecordGrows(h: Hash, db: LocalDb, s: SharedSys, push: PushSys, lo: nat)
    requires PagesFit(h, db, s, lo) && push.fsm.pendingRequests == s.push.fsm.pendingRequests
    ensures PagesFit(h, db, Record(s, push), lo) && RecordFits(Record(s, push))
  {
    forall k | WasThere(h, db, s.history, k)
      ensures WasThere(h, db, Record(s, push).history, k)
    {
      StillThere(h, db, s.history, push.store, k);
    }
    hide WasThere;
  }

  lemma {:induction false} StillThere(h: Hash, db: LocalDb, history: seq<Store>, store: Store, k: nat)
    ensures WasThere(h, db, history, k) ==> WasThere(h, db, history + [store], k)
    ensures !Differs(h, store, db, k) ==> WasThere(h, db, history + [store], k)
  {
    hide Differs;
    if WasThere(h, db, history, k) {
      var i :| 0 <= i < |history| && !Differs(h, history[i], db, k);
      assert (history + [store])[i] == history[i];
    }
    assert (history + [store])[|history|] == store;
  }

  // ----- The client's steps -----

  /** What the store holds plays no part in the client's steps. */
  lemma {:induction false} ClientStepFits(h: Hash, db: LocalDb, sys: PushSys, v: View, act: PushAction) returns (v': View)
    requires QueuesFit(h, db, sys, v) && PhasesFit(db, sys, v) && Conserved(sys.fsm.pendingRequests, sys.client, v)
    requires forall k | k in sys.fsm.pendingRequests :: HasPage(db, k)
    requires Enabled(db, sys, Client(act))
    ensures var sys' := Do(h, db, sys, Client(act));
            && QueuesFit(h, db, sys', v') && PhasesFit(db, sys', v')
            && Conserved(sys'.fsm.pendingRequests, sys'.client, v')
            && sys'.fsm == sys.fsm && sys'.store == sys.store && v'.lo == v.lo
            && PushProof.Rank(db, sys', v') < PushProof.Rank(db, sys, v)
  {
    v' := v;
    match act {
      case SendHash =>
        PushProof.SendHashQueues(h, db, sys, v);
        hide QueuesFit, Conserved;
      case SendComplete =>
        v' := v.(complete := true);
        hide Conserved;
      case Serve =>
        v' := ServeFits(h, db, sys, v);
      case Read =>
        if v.reqs != [] {
          v' := RequestFits(h, db, sys, v, act);
        } else {
          PushProof.FinishQueues(h, db, sys, v);
          v' := v.(finish := false);
          hide Conserved;
        }
      case DrainOne =>
        v' := RequestFits(h, db, sys, v, act);
      case _ =>
    }
  }

  lemma {:induction false} QueuedIsAwaited(awaited: set<nat>, client: PushClient, v: View, k: nat)
    requires Conserved(awaited, client, v) && k in client.pending
    ensures k in awaited
  {
    assert k in multiset(client.pending);
    assert k in multiset(awaited);
  }

  lemma {:induction false} ServeFits(h: Hash, db: LocalDb, sys: PushSys, v: View) returns (v': View)
    requires QueuesFit(h, db, sys, v) && PhasesFit(db, sys, v) && Conserved(sys.fsm.pendingRequests, sys.client, v)
    requires forall k | k in sys.fsm.pendingRequests :: HasPage(db, k)
    requires Enabled(db, sys, Client(Serve))
    ensures var sys' := Do(h, db, sys, Client(Serve));
            && QueuesFit(h, db, sys', v') && PhasesFit(db, sys', v')
            && Conserved(sys'.fsm.pendingRequests, sys'.client, v')
            && sys'.fsm == sys.fsm && sys'.store == sys.store && v'.lo == v.lo
            && PushProof.Rank(db, sys', v') < PushProof.Rank(db, sys, v)
  {
    hide QueuesFit, Conserved;
    var k := sys.client.pending[0];
    QueuedIsAwaited(sys.fsm.pendingRequests, sys.client, v, k);
    v' := v.(datas := v.datas + [k]);
    PushProof.ServeQueues(h, db, sys, v);
    PushProof.ServeConserves(sys.fsm.pendingRequests, sys.client, v);
  }

  lemma {:induction false} RequestFits(h: Hash, db: LocalDb, sys: PushSys, v: View, act: PushAction) returns (v': View)
    requires QueuesFit(h, db, sys, v) && PhasesFit(db, sys, v) && Conserved(sys.fsm.pendingRequests, sys.client, v)
    requires Enabled(db, sys, Client(act)) && (act == DrainOne || act == Read) && v.reqs != []
    ensures var sys' := Do(h, db, sys, Client(act));
            && QueuesFit(h, db, sys', v') && PhasesFit(db, sys', v')
            && Conserved(sys'.fsm.pendingRequests, sys'.client, v')
            && sys'.fsm == sys.fsm && sys'.store == sys.store && v'.lo == v.lo
            && PushProof.Rank(db, sys', v') < PushProof.Rank(db, sys, v)
  {
    v' := v.(reqs := v.reqs[1..]);
    PushProof.RequestQueues(h, db, sys, v, act);
    PushProof.MovePage(db, v.reqs, sys.client.pending);
    hide QueuesFit;
  }

  // ----- The server's steps -----

  /** `k` joins or leaves the awaited pages, or is dealt with, and the new store is recorded. */
  lemma {:induction false} PagesMove(h: Hash, db: LocalDb, s: SharedSys, push: PushSys, lo: nat, lo': nat, k: nat)
    requires PagesFit(h, db, s, lo) && 1 <= k && (lo' == lo || (lo' == lo + 1 && k == lo))
    requires if !Differs(h, push.store, db, k) then push.fsm.pendingRequests == s.push.fsm.pendingRequests - {k}
             else push.fsm.pendingRequests == s.push.fsm.pendingRequests + {k} && HasPage(db, k) && k < lo'
    ensures PagesFit(h, db, Record(s, push), lo') && RecordFits(Record(s, push))
  {
    forall j
      ensures WasThere(h, db, s.history, j) ==> WasThere(h, db, Record(s, push).history, j)
      ensures !Differs(h, push.store, db, j) ==> WasThere(h, db, Record(s, push).history, j)
    {
      StillThere(h, db, s.history, push.store, j);
    }
    hide WasThere, Differs;
  }

  lemma {:induction false} MatchedFits(h: Hash, db: LocalDb, s: SharedSys, v: View)
    requires Sharing(h, db, s, v) && v.lo < s.push.client.nextPage && !Differs(h, s.push.store, db, v.lo)
    ensures s.push.c2s != []
    ensures Sharing(h, db, Record(s, PushProof.Matched(s.push, v.lo)), v.(lo := v.lo + 1))
  {
    hide Differs, PagesFit, Conserved;
    PushProof.NextIsHash(h, db, s.push, v);
    NotYetAwaited(h, db, s, v);
    PagesMove(h, db, s, PushProof.Matched(s.push, v.lo), v.lo, v.lo + 1, v.lo);
    SameInFlight(s.push.fsm.pendingRequests, s.push.client, v, v.(lo := v.lo + 1));
  }

  lemma {:induction false} SameInFlight(awaited: set<nat>, client: PushClient, v: View, v': View)
    requires Conserved(awaited, client, v) && v'.reqs == v.reqs && v'.datas == v.datas
    ensures Conserved(awaited, client, v')
  {
  }

  lemma {:induction false} NotYetAwaited(h: Hash, db: LocalDb, s: SharedSys, v: View)
    requires PagesFit(h, db, s, v.lo)
    ensures s.push.fsm.pendingRequests - {v.lo} == s.push.fsm.pendingRequests
  {
  }

  lemma {:induction false} OneMoreAwaited(awaited: set<nat>, client: PushClient, v: View, k: nat, lo: nat)
    requires Conserved(awaited, client, v) && k !in awaited
    ensures Conserved(awaited + {k}, client, v.(lo := lo, reqs := v.reqs + [k]))
  {
    assert multiset(awaited + {k}) == multiset(awaited) + multiset{k};
    assert multiset(v.reqs + [k]) == multiset(v.reqs) + multiset{k};
  }

  lemma {:induction false} AskedFits(h: Hash, db: LocalDb, s: SharedSys, v: View)
    requires Sharing(h, db, s, v) && v.lo < s.push.client.nextPage && Differs(h, s.push.store, db, v.lo)
    ensures s.push.c2s != []
    ensures Sharing(h, db, Record(s, PushProof.Asked(s.push, v.lo)), v.(lo := v.lo + 1, reqs := v.reqs + [v.lo]))
  {
    NotYetAwaited(h, db, s, v);
    assert HasPage(db, v.lo) && !v.finish;
    hide Differs, PagesFit, Conserved, QueuesFit;
    PushProof.AskedQueues(h, db, s.push, v);
    PushProof.AskedPhases(db, s.push, v);
    PagesMove(h, db, s, PushProof.Asked(s.push, v.lo), v.lo, v.lo + 1, v.lo);
    OneMoreAwaited(s.push.fsm.pendingRequests, s.push.client, v, v.lo, v.lo + 1);
    hide PhasesFit;
  }

  lemma {:induction false} HashesOverFits(h: Hash, db: LocalDb, s: SharedSys, v: View)
    requires Sharing(h, db, s, v) && v.lo == s.push.client.nextPage && v.complete && !s.push.fsm.emittedComplete
    ensures s.push.c2s != []
    ensures Sharing(h, db, Record(s, PushProof.HashesOver(s.push)),
                    v.(complete := false, finish := s.push.fsm.pendingRequests == {}))
  {
    hide PagesFit, Conserved, QueuesFit;
    PushProof.HashesOverQueues(h, db, s.push, v);
    RecordGrows(h, db, s, PushProof.HashesOver(s.push), v.lo);
    SameInFlight(s.push.fsm.pendingRequests, s.push.client, v,
                 v.(complete := false, finish := s.push.fsm.pendingRequests == {}));
  }

  lemma {:induction false} ReceivedPhases(h: Hash, db: LocalDb, sys: PushSys, v: View)
    requires PhasesFit(db, sys, v) && v.datas != [] && sys.c2s != [] && !sys.fsm.emittedComplete
    ensures PhasesFit(db, PushProof.Received(h, db, sys, v.datas[0]), PushProof.ReceivedView(db, sys, v))
  {
    hide Wrap64;
  }

  lemma {:induction false} ReceivedFits(h: Hash, db: LocalDb, s: SharedSys, v: View)
    requires Sharing(h, db, s, v) && v.lo == s.push.client.nextPage && !v.complete
    requires s.push.c2s != [] && !s.push.fsm.emittedComplete
    ensures v.datas != [] && s.push.c2s[0] == PageData(v.datas[0], PageAt(db, v.datas[0]))
    ensures Sharing(h, db, Record(s, PushProof.Received(h, db, s.push, v.datas[0])),
                    PushProof.ReceivedView(db, s.push, v))
  {
    assert !v.finish;
    hide PagesFit, Conserved, QueuesFit, PhasesFit;
    PushProof.ReceivedQueues(h, db, s.push, v);
    var k := v.datas[0];
    var push := PushProof.Received(h, db, s.push, k);
    ReceivedPhases(h, db, s.push, v);
    PushProof.ArriveOne(s.push.fsm.pendingRequests, s.push.client, v);
    SameInFlight(push.fsm.pendingRequests, s.push.client, v.(datas := v.datas[1..]), PushProof.ReceivedView(db, s.push, v));
    AwaitedIsLocal(h, db, s, v.lo, k);
    PagesMove(h, db, s, push, v.lo, v.lo, k);
  }

  lemma {:induction false} AwaitedIsLocal(h: Hash, db: LocalDb, s: SharedSys, lo: nat, k: nat)
    requires PagesFit(h, db, s, lo) && k in s.push.fsm.pendingRequests
    ensures HasPage(db, k)
  {
  }

  // ----- Any step -----

  /** Nothing of this push fails during the action; other sessions do what they like. */
  predicate Faultless(a: SharedAction) {
    a.Own? ==> PushProof.FaultFree(a.a)
  }

  /** One more step of its own, or one of somebody else's. */
  ghost predicate Continues(h: Hash, db: LocalDb, s: SharedSys, v: View, a: SharedAction, s': SharedSys, v': View) {
    && Sharing(h, db, s', v')
    && PushProof.Rank(db, s'.push, v') + (if a.Own? then 1 else 0) <= PushProof.Rank(db, s.push, v)
  }

  ghost predicate ServerMoves(h: Hash, db: LocalDb, s: SharedSys, v: View, w: World, step: Step, v': View)
    requires s.push.c2s != []
  {
    if step.error.None? then
      && Sharing(h, db, Record(s, Settle(s.push, step)), v')
      && PushProof.Rank(db, Settle(s.push, step), v') < PushProof.Rank(db, s.push, v)
    else !Reliable(w) && Gone(Record(s, Settle(s.push, step)))
  }

  lemma {:induction false} Goes(h: Hash, db: LocalDb, s: SharedSys, v: View, step: Step)
    requires QueuesFit(h, db, s.push, v) && !v.finish && !s.push.client.phase.Synced? && s.push.c2s != []
    requires step.error.Some? && Frames(step.world.log) == []
    ensures Gone(Record(s, Settle(s.push, step)))
  {
    forall m | m in Settle(s.push, step).s2c
      ensures !m.SyncComplete?
    {
      assert m in RequestFrames(v.reqs) || m in Session.ErrorFrames(step);
    }
  }

  lemma {:induction false} SharingMeans(h: Hash, db: LocalDb, s: SharedSys, v: View)
    requires Sharing(h, db, s, v)
    ensures QueuesFit(h, db, s.push, v) && PhasesFit(db, s.push, v) && RecordFits(s) && PagesFit(h, db, s, v.lo)
    ensures Conserved(s.push.fsm.pendingRequests, s.push.client, v)
    ensures v.lo <= s.push.client.nextPage && PushProof.Rank(db, s.push, v) >= 0
    ensures s.push.fsm.sawHello && s.push.fsm.direction.Push?
    ensures s.push.server == (if s.push.fsm.emittedComplete then Session.Finished else Session.Open)
    ensures !s.push.fsm.emittedComplete ==> !v.finish && !s.push.client.phase.Synced?
    ensures !s.push.client.phase.Aborted?
  {
    hide Conserved, PagesFit;
  }

  lemma {:induction false} HashMoves(h: Hash, db: LocalDb, s: SharedSys, v: View, w: World, step: Step) returns (v': View)
    requires Sharing(h, db, s, v) && v.lo < s.push.client.nextPage && s.push.c2s != [] && !s.push.fsm.emittedComplete
    requires w.fsm == s.push.fsm && w.store == s.push.store
    requires PushProof.HashOutcome(w, v.lo, HashAt(h, db, v.lo), step)
    ensures ServerMoves(h, db, s, v, w, step, v')
  {
    SharingMeans(h, db, s, v);
    hide Sharing, QueuesFit, PhasesFit, Conserved, PagesFit, Differs;
    v' := v;
    if step.error.Some? {
      Goes(h, db, s, v, step);
    } else {
      PushProof.HashSettles(h, db, s.push, v.lo, w, step);
      hide PushProof.HashOutcome, Settle;
      if Differs(h, s.push.store, db, v.lo) {
        AskedFits(h, db, s, v);
        v' := v.(lo := v.lo + 1, reqs := v.reqs + [v.lo]);
      } else {
        MatchedFits(h, db, s, v);
        v' := v.(lo := v.lo + 1);
      }
    }
  }

  lemma {:induction false} CompleteMoves(h: Hash, db: LocalDb, s: SharedSys, v: View, w: World, step: Step)
    returns (v': View)
    requires Sharing(h, db, s, v) && v.lo == s.push.client.nextPage && v.complete
    requires s.push.c2s != [] && !s.push.fsm.emittedComplete
    requires w.fsm == s.push.fsm && w.store == s.push.store
    requires PushProof.CompleteOutcome(w, step)
    ensures ServerMoves(h, db, s, v, w, step, v')
  {
    SharingMeans(h, db, s, v);
    hide Sharing, QueuesFit, PhasesFit, Conserved, PagesFit;
    v' := v;
    if step.error.Some? {
      Goes(h, db, s, v, step);
    } else {
      HashesOverFits(h, db, s, v);
      v' := v.(complete := false, finish := s.push.fsm.pendingRequests == {});
      assert Settle(s.push, step) == PushProof.HashesOver(s.push);
    }
  }

  lemma {:induction false} DataSettles(h: Hash, db: LocalDb, sys: PushSys, k: nat, w: World, step: Step)
    requires sys.c2s != [] && w.fsm == sys.fsm && w.store == sys.store && step.error.None?
    requires PushProof.DataOutcome(h, w, k, PageAt(db, k), step)
    ensures Settle(sys, step) == PushProof.Received(h, db, sys, k)
  {
    hide Wrap64, Frames;
  }

  lemma {:induction false} DataMoves(h: Hash, db: LocalDb, s: SharedSys, v: View, w: World, step: Step) returns (v': View)
    requires Sharing(h, db, s, v) && v.lo == s.push.client.nextPage && !v.complete && v.datas != []
    requires s.push.c2s != [] && !s.push.fsm.emittedComplete
    requires w.fsm == s.push.fsm && w.store == s.push.store
    requires PushProof.DataOutcome(h, w, v.datas[0], PageAt(db, v.datas[0]), step)
    ensures ServerMoves(h, db, s, v, w, step, v')
  {
    SharingMeans(h, db, s, v);
    hide Sharing, QueuesFit, PhasesFit, Conserved, PagesFit, Wrap64;
    v' := v;
    if step.error.Some? {
      PushProof.DataFails(h, w, v.datas[0], PageAt(db, v.datas[0]), step);
      Goes(h, db, s, v, step);
    } else {
      DataSettles(h, db, s.push, v.datas[0], w, step);
      hide PushProof.DataOutcome, Settle;
      ReceivedFits(h, db, s, v);
      v' := PushProof.ReceivedView(db, s.push, v);
    }
  }

  lemma {:induction false} ServerAdvances(h: Hash, db: LocalDb, s: SharedSys, v: View, a: Action) returns (v': View)
    requires Sharing(h, db, s, v) && a.Server? && Enabled(db, s.push, a)
    ensures ServerMoves(h, db, s, v, PushProof.WorldOf(s.push, a),
                        ServerStep(h, s.push, a.storeCredit, a.sendCredit), v')
  {
    var w := PushProof.WorldOf(s.push, a);
    var step := ServerStep(h, s.push, a.storeCredit, a.sendCredit);
    SharingMeans(h, db, s, v);
    hide Sharing, QueuesFit, PhasesFit, Conserved, PagesFit, Apply, ServerMoves;
    hide PushProof.HashOutcome, PushProof.CompleteOutcome, PushProof.DataOutcome;
    if v.lo < s.push.client.nextPage {
      PushProof.NextIsHash(h, db, s.push, v);
      PushProof.HashEffect(h, w, v.lo, HashAt(h, db, v.lo));
      v' := HashMoves(h, db, s, v, w, step);
    } else if v.complete {
      PushProof.NextIsComplete(h, db, s.push, v);
      PushProof.CompleteEffect(h, w);
      v' := CompleteMoves(h, db, s, v, w, step);
    } else {
      PushProof.NextIsData(h, db, s.push, v);
      PushProof.DataEffect(h, w, v.datas[0], PageAt(db, v.datas[0]));
      v' := DataMoves(h, db, s, v, w, step);
    }
  }

  /** Other sessions touch nothing of this one. */
  lemma {:induction false} OtherFits(h: Hash, db: LocalDb, s: SharedSys, v: View, store: Store)
    requires Sharing(h, db, s, v)
    ensures Sharing(h, db, Record(s, s.push.(store := store)), v)
  {
    hide Conserved, PagesFit, HashFrames, DataFrames, RequestFrames;
    RecordGrows(h, db, s, s.push.(store := store), v.lo);
  }

  lemma {:induction false} SharingMoves(h: Hash, db: LocalDb, s: SharedSys, v: View, a: SharedAction) returns (v': View)
    requires Sharing(h, db, s, v) && Possible(db, s, a)
    ensures Continues(h, db, s, v, a, Act(h, db, s, a), v') || (!Faultless(a) && Gone(Act(h, db, s, a)))
  {
    SharingMeans(h, db, s, v);
    hide Apply, QueuesFit, PhasesFit, Conserved, Gone;
    if a.Other? {
      OtherFits(h, db, s, v, OtherStore(h, s.push.store, a));
      v' := v;
      hide Sharing;
    } else if a.a.Server? {
      v' := ServerAdvances(h, db, s, v, a.a);
      hide Sharing;
    } else {
      v' := ClientStepFits(h, db, s.push, v, a.a.act);
      var push := Do(h, db, s.push, a.a);
      RecordGrows(h, db, s, push, v.lo);
      hide PagesFit, Do;
    }
  }

  // ----- The handshake -----

  /** `n` steps of its own have brought a faultless push here. */
  ghost predicate Spent(h: Hash, db: LocalDb, s: SharedSys, n: int) {
    || (Hailing(db, s) && n == (if s.push.client.phase.Connecting? then 0 else if s.push.c2s != [] then 1 else 2))
    || (exists v :: Sharing(h, db, s, v) && n + PushProof.Rank(db, s.push, v) <= 5 * |db| + 6)
  }

  /** What one step keeps: the invariant, and the count of steps if nothing fails. */
  ghost predicate Follows(h: Hash, db: LocalDb, s: SharedSys, a: SharedAction, s': SharedSys) {
    && SharedInv(h, db, s')
    && (Faultless(a) ==> forall n | Spent(h, db, s, n) :: Spent(h, db, s', if a.Own? then n + 1 else n))
  }

  lemma {:induction false} HailingEnds(h: Hash, db: LocalDb, s: SharedSys)
    requires Hailing(db, s) && Enabled(db, s.push, Client(ReadReply))
    ensures var s' := Act(h, db, s, Own(Client(ReadReply)));
            Sharing(h, db, s', Push.FIRST_VIEW) && 3 + PushProof.Rank(db, s'.push, Push.FIRST_VIEW) <= 5 * |db| + 6
  {
    assert s.push.s2c[0] == HelloReply(PROTOCOL_VERSION, DEFAULT_PAGE_SIZE, s.push.fsm.serverMaxPage);
  }

  lemma {:induction false} HelloSettles(db: LocalDb, s: SharedSys, w: World, step: Step)
    requires Hailing(db, s) && s.push.c2s != [] && w.fsm == s.push.fsm && w.store == s.push.store
    requires HelloOutcome(w, MaxPage(w.store), step)
    ensures var s' := Record(s, Settle(s.push, step));
            if step.error.Some? then Gone(s') && !Reliable(w) else Hailing(db, s') && s'.push.c2s == []
  {
    hide MaxPage, Session.Reason;
    var reply := HelloReply(PROTOCOL_VERSION, DEFAULT_PAGE_SIZE, MaxPage(w.store));
    if step.error.None? {
      assert Settle(s.push, step).s2c == [reply];
    } else {
      assert forall m | m in Settle(s.push, step).s2c :: m in Session.ErrorFrames(step);
    }
  }

  lemma {:induction false} HelloArrives(h: Hash, db: LocalDb, s: SharedSys, a: Action)
    requires Hailing(db, s) && Enabled(db, s.push, a) && a.Server?
    ensures var s' := Act(h, db, s, Own(a));
            || (Hailing(db, s') && s'.push.c2s == [] && s'.push.client == s.push.client)
            || (Gone(s') && !Faultless(Own(a)))
  {
    HelloEffect(h, PushProof.WorldOf(s.push, a), |db|);
    hide Apply, MaxPage;
    HelloSettles(db, s, PushProof.WorldOf(s.push, a), ServerStep(h, s.push, a.storeCredit, a.sendCredit));
    hide Hailing, Gone, HelloOutcome;
  }

  lemma {:induction false} HailingIsNotSharing(h: Hash, db: LocalDb, s: SharedSys)
    requires Hailing(db, s)
    ensures forall v :: !Sharing(h, db, s, v)
  {
    hide QueuesFit, Conserved, PagesFit, RecordFits;
  }

  lemma {:induction false} HailingStep(h: Hash, db: LocalDb, s: SharedSys, a: SharedAction)
    requires Hailing(db, s) && Possible(db, s, a)
    ensures Follows(h, db, s, a, Act(h, db, s, a))
  {
    hide Sharing, Apply, Gone;
    HailingIsNotSharing(h, db, s);
    if a.Other? {
      assert Hailing(db, Act(h, db, s, a));
    } else if a.a.Server? {
      HelloArrives(h, db, s, a.a);
      hide Do;
    } else if a.a.act == ReadReply {
      HailingEnds(h, db, s);
    } else {
      assert Hailing(db, Act(h, db, s, a));
    }
  }

  // ----- Every run -----

  lemma {:induction false} SpentGrows(h: Hash, db: LocalDb, s: SharedSys, v: View, a: SharedAction, n: int)
    requires Sharing(h, db, s, v) && Possible(db, s, a) && Faultless(a) && Spent(h, db, s, n)
    ensures Spent(h, db, Act(h, db, s, a), if a.Own? then n + 1 else n)
  {
    if Hailing(db, s) {
      HailingIsNotSharing(h, db, s);
      assert false;
    } else {
      hide Sharing, Gone, Act, Hailing, PushProof.Rank;
      var u :| Sharing(h, db, s, u) && n + PushProof.Rank(db, s.push, u) <= 5 * |db| + 6;
      var u' := SharingMoves(h, db, s, u, a);
    }
  }

  lemma {:induction false} SharingStep(h: Hash, db: LocalDb, s: SharedSys, v: View, a: SharedAction)
    requires Sharing(h, db, s, v) && Possible(db, s, a)
    ensures Follows(h, db, s, a, Act(h, db, s, a))
  {
    hide Sharing, Gone, Act, Hailing, Spent, PushProof.Rank, Faultless;
    var v' := SharingMoves(h, db, s, v, a);
    if Faultless(a) {
      forall n | Spent(h, db, s, n)
        ensures Spent(h, db, Act(h, db, s, a), if a.Own? then n + 1 else n)
      {
        SpentGrows(h, db, s, v, a, n);
      }
    }
  }

  lemma {:induction false} GoneStep(h: Hash, db: LocalDb, s: SharedSys, a: SharedAction)
    requires Gone(s) && Possible(db, s, a)
    ensures Gone(Act(h, db, s, a))
  {
    hide Apply;
  }

  lemma {:induction false} InvStep(h: Hash, db: LocalDb, s: SharedSys, a: SharedAction)
    requires SharedInv(h, db, s) && Possible(db, s, a)
    ensures SharedInv(h, db, Act(h, db, s, a))
    ensures Gone(s) || Follows(h, db, s, a, Act(h, db, s, a))
  {
    hide Hailing, Sharing, Gone, Act;
    if Gone(s) {
      GoneStep(h, db, s, a);
    } else if Hailing(db, s) {
      HailingStep(h, db, s, a);
    } else {
      var v :| Sharing(h, db, s, v);
      SharingStep(h, db, s, v, a);
    }
  }

  lemma {:induction false} InvAfter(h: Hash, db: LocalDb, s: SharedSys, actions: seq<SharedAction>)
    requires SharedInv(h, db, s) && IsSharedRun(h, db, s, actions)
    ensures SharedInv(h, db, SharedAfter(h, db, s, actions))
    decreases |actions|
  {
    hide SharedInv, Act;
    if actions != [] {
      InvStep(h, db, s, actions[0]);
      InvAfter(h, db, Act(h, db, s, actions[0]), actions[1..]);
    }
  }

  /** Page numbers are never lost, whoever writes. */
  ghost predicate NumbersLast(s: SharedSys) {
    && RecordFits(s)
    && forall i | 0 <= i < |s.history| :: s.history[i].Keys <= s.push.store.Keys
  }

  lemma {:induction false} NumbersLastStep(h: Hash, db: LocalDb, s: SharedSys, a: SharedAction)
    requires NumbersLast(s) && Possible(db, s, a)
    ensures NumbersLast(Act(h, db, s, a))
  {
    if a.Other? {
      PullProof.ApplyGrows(h, World(a.fsm, s.push.store, a.storeCredit, a.sendCredit, []), a.msg);
    } else if a.a.Server? {
      PullProof.ApplyGrows(h, PushProof.WorldOf(s.push, a.a), s.push.c2s[0]);
    }
    hide Apply;
  }

  lemma {:induction false} NumbersLastAfter(h: Hash, db: LocalDb, s: SharedSys, actions: seq<SharedAction>)
    requires NumbersLast(s) && IsSharedRun(h, db, s, actions)
    ensures NumbersLast(SharedAfter(h, db, s, actions))
    decreases |actions|
  {
    hide NumbersLast, Act;
    if actions != [] {
      NumbersLastStep(h, db, s, actions[0]);
      NumbersLastAfter(h, db, Act(h, db, s, actions[0]), actions[1..]);
    }
  }

  /** Whatever other sessions do meanwhile, when the client receives SyncComplete the store has
      held each of its pages, as far as hashes can tell, at some moment of the push, and still
      has a page of that number. */
  lemma {:induction false} EveryPageArrives(h: Hash, store0: Store, db: LocalDb, actions: seq<SharedAction>, k: nat)
    returns (i: nat)
    requires IsSharedRun(h, db, Begin(store0), actions) && HasPage(db, k)
    requires SharedAfter(h, db, Begin(store0), actions).push.client.phase.Synced?
    ensures var end := SharedAfter(h, db, Begin(store0), actions);
            && i < |end.history|
            && k in end.history[i] && end.history[i][k].hash == HashAt(h, db, k)
            && k in end.push.store
            && end.push.server == Session.Finished
  {
    var start := Begin(store0);
    assert Hailing(db, start) && NumbersLast(start);
    InvAfter(h, db, start, actions);
    NumbersLastAfter(h, db, start, actions);
    var end := SharedAfter(h, db, start, actions);
    hide IsSharedRun, SharedAfter, Begin;
    var v := SyncedView(h, db, end);
    assert WasThere(h, db, end.history, k);
    i :| 0 <= i < |end.history| && !Differs(h, end.history[i], db, k);
    hide Sharing;
  }

  lemma {:induction false} SyncedView(h: Hash, db: LocalDb, end: SharedSys) returns (v: View)
    requires SharedInv(h, db, end) && end.push.client.phase.Synced?
    ensures Sharing(h, db, end, v) && v.lo == |db| + 1 && end.push.fsm.pendingRequests == {}
    ensures end.push.server == Session.Finished
  {
    v :| Sharing(h, db, end, v);
    hide QueuesFit, Conserved, PagesFit, RecordFits;
  }

  /** The steps of a run that are this push's own. */
  function OwnSteps(actions: seq<SharedAction>): nat {
    if actions == [] then 0 else (if actions[0].Own? then 1 else 0) + OwnSteps(actions[1..])
  }

  lemma {:induction false} SpentIsLive(h: Hash, db: LocalDb, s: SharedSys, n: int)
    requires Spent(h, db, s, n)
    ensures SharedInv(h, db, s) && !Gone(s) && n <= 5 * |db| + 6
    ensures !s.push.client.phase.Aborted? && !s.push.server.Failed?
  {
    if !Hailing(db, s) {
      var v :| Sharing(h, db, s, v) && n + PushProof.Rank(db, s.push, v) <= 5 * |db| + 6;
      SharingMeans(h, db, s, v);
      hide Sharing, QueuesFit, PhasesFit, Conserved, PagesFit;
    }
  }

  lemma {:induction false} SpentAfter(h: Hash, db: LocalDb, s: SharedSys, n: int, actions: seq<SharedAction>)
    requires Spent(h, db, s, n) && IsSharedRun(h, db, s, actions)
    requires forall a | a in actions :: Faultless(a)
    ensures Spent(h, db, SharedAfter(h, db, s, actions), n + OwnSteps(actions))
    decreases |actions|
  {
    hide Spent, Act, Faultless, SharedInv, Gone;
    if actions != [] {
      SpentIsLive(h, db, s, n);
      InvStep(h, db, s, actions[0]);
      SpentAfter(h, db, Act(h, db, s, actions[0]), if actions[0].Own? then n + 1 else n, actions[1..]);
    }
  }

  /** A push with concurrent sessions terminates as it does alone: at most 5n + 6 steps of its
      own, no abort and no failure on the way, and SyncComplete where it can no longer move. */
  lemma {:induction false} Terminates(h: Hash, store0: Store, db: LocalDb, actions: seq<SharedAction>)
    requires IsSharedRun(h, db, Begin(store0), actions)
    requires forall a | a in actions :: Faultless(a)
    ensures var end := SharedAfter(h, db, Begin(store0), actions);
            && OwnSteps(actions) <= 5 * |db| + 6
            && !end.push.client.phase.Aborted? && !end.push.server.Failed?
            && ((forall a | PushProof.FaultFree(a) :: !Enabled(db, end.push, a)) ==> end.push.client.phase.Synced?)
  {
    var start := Begin(store0);
    assert Hailing(db, start);
    SpentAfter(h, db, start, 0, actions);
    var end := SharedAfter(h, db, start, actions);
    hide IsSharedRun, SharedAfter, Begin, Spent, OwnSteps, Hailing;
    SpentIsLive(h, db, end, OwnSteps(actions));
    if !end.push.client.phase.Synced? {
      var a := NeverStuck(h, db, end, OwnSteps(actions));
    }
  }

  lemma {:induction false} NeverStuck(h: Hash, db: LocalDb, s: SharedSys, n: int) returns (a: Action)
    requires Spent(h, db, s, n) && !s.push.client.phase.Synced?
    ensures Enabled(db, s.push, a) && PushProof.FaultFree(a)
  {
    if Hailing(db, s) {
      a := if s.push.client.phase.Connecting? then Client(SendHello)
           else if s.push.c2s != [] then Server(Unlimited, Unlimited) else Client(ReadReply);
    } else {
      var v :| Sharing(h, db, s, v);
      SharingMeans(h, db, s, v);
      hide Sharing, QueuesFit, Conserved, PagesFit;
      if s.push.client.phase.Hashing? {
        a := if s.push.client.nextPage <= |db| then Client(SendHash) else Client(SendComplete);
      } else if s.push.client.pending != [] {
        a := Client(Serve);
      } else if s.push.s2c != [] {
        a := Client(Read);
      } else {
        Push.SilenceIsTheServersTurn(h, db, s.push, v);
        a := Server(Unlimited, Unlimited);
      }
    }
  }

  /** In-flight conservation holds among concurrent sessions as well. */
  lemma {:induction false} Conservation(h: Hash, store0: Store, db: LocalDb, actions: seq<SharedAction>)
    requires IsSharedRun(h, db, Begin(store0), actions)
    requires !SharedAfter(h, db, Begin(store0), actions).push.server.Failed?
    ensures var s := SharedAfter(h, db, Begin(store0), actions).push;
            && multiset(s.fsm.pendingRequests)
               == Push.RequestsIn(s.s2c) + multiset(s.client.pending) + Push.DataIn(s.c2s)
            && forall k | k in s.fsm.pendingRequests :: HasPage(db, k) && k < s.client.nextPage
  {
    var start := Begin(store0);
    assert Hailing(db, start);
    InvAfter(h, db, start, actions);
    var s := SharedAfter(h, db, start, actions);
    hide IsSharedRun, SharedAfter, Begin;
    if !Hailing(db, s) {
      var v :| Sharing(h, db, s, v);
      SharingMeans(h, db, s, v);
      hide Sharing, QueuesFit, Gone, PhasesFit;
      Push.QueuesHold(h, db, s.push, v);
    }
  }

  // ----- Other sessions that write the same pages -----

  /** The frame stores nothing but the client's own pages.  Such are the frames of the same
      client: those of an earlier push of the same database, say, that was cut off and that the
      server is still working through. */
  predicate WritesOwn(db: LocalDb, m: SyncMessage) {
    match m
    case PageData(k, data) => HasPage(db, k) && data == PageAt(db, k)
    case PageDataBatch(pages) =>
      forall i | 0 <= i < |pages| :: HasPage(db, pages[i].pageNo) && pages[i].data == PageAt(db, pages[i].pageNo)
    case _ => true
  }

  predicate SameAt(before: Store, after: Store, k: nat) {
    (k in before <==> k in after) && (k in before ==> after[k] == before[k])
  }

  predicate OwnCopy(h: Hash, db: LocalDb, store: Store, k: nat) {
    HasPage(db, k) && k in store && store[k] == Page(PageAt(db, k), HashAt(h, db, k))
  }

  /** Every page is what it was, or the client's own. */
  ghost predicate Tends(h: Hash, db: LocalDb, before: Store, after: Store) {
    forall k: nat :: SameAt(before, after, k) || OwnCopy(h, db, after, k)
  }

  lemma {:induction false} TendsOn(h: Hash, db: LocalDb, a: Store, b: Store, c: Store)
    requires Tends(h, db, a, b) && Tends(h, db, b, c)
    ensures Tends(h, db, a, c)
  {
    forall k: nat
      ensures SameAt(a, c, k) || OwnCopy(h, db, c, k)
    {
      assert SameAt(a, b, k) || OwnCopy(h, db, b, k);
      assert SameAt(b, c, k) || OwnCopy(h, db, c, k);
    }
  }

  lemma {:induction false} DataTends(h: Hash, db: LocalDb, w: World, k: nat)
    requires HasPage(db, k)
    ensures Tends(h, db, w.store, HandlePageData(h, w, k, PageAt(db, k)).world.store)
  {
  }

  lemma {:induction false} BatchTends(h: Hash, db: LocalDb, w: World, pages: seq<PageDataEntry>)
    requires WritesOwn(db, PageDataBatch(pages))
    ensures Tends(h, db, w.store, HandlePageDataBatch(h, w, pages).world.store)
    decreases |pages|
  {
    if pages != [] {
      DataTends(h, db, w, pages[0].pageNo);
      var first := HandlePageData(h, w, pages[0].pageNo, pages[0].data);
      hide HandlePageData, Tends;
      if first.error.None? {
        BatchTends(h, db, first.world, pages[1..]);
        TendsOn(h, db, w.store, first.world.store, HandlePageDataBatch(h, first.world, pages[1..]).world.store);
      }
    } else {
      assert Tends(h, db, w.store, w.store);
    }
  }

  lemma {:induction false} ApplyTends(h: Hash, db: LocalDb, w: World, m: SyncMessage)
    requires WritesOwn(db, m)
    ensures Tends(h, db, w.store, Apply(h, w, m).world.store)
  {
    assert Tends(h, db, w.store, w.store);
    hide Tends;
    if w.fsm.sawHello {
      match m
      case PageData(k, _) => DataTends(h, db, w, k);
      case PageDataBatch(pages) => BatchTends(h, db, w, pages);
      case Complete => PullProof.CompleteLeavesStore(w);
      case _ =>
    }
  }

  /** What the client sends writes its own pages only. */
  ghost predicate SendsOwn(db: LocalDb, s: SharedSys) {
    forall m | m in s.push.c2s :: WritesOwn(db, m)
  }

  ghost predicate Tending(h: Hash, db: LocalDb, store0: Store, s: SharedSys) {
    && RecordFits(s) && SendsOwn(db, s)
    && Tends(h, db, store0, s.push.store)
    && forall i | 0 <= i < |s.history| :: Tends(h, db, s.history[i], s.push.store)
  }

  lemma {:induction false} RecordTends(h: Hash, db: LocalDb, store0: Store, s: SharedSys, push: PushSys)
    requires Tending(h, db, store0, s) && Tends(h, db, s.push.store, push.store)
    requires forall m | m in push.c2s :: WritesOwn(db, m)
    ensures Tending(h, db, store0, Record(s, push))
  {
    assert Tends(h, db, push.store, push.store);
    TendsOn(h, db, store0, s.push.store, push.store);
    forall i | 0 <= i < |s.history|
      ensures Tends(h, db, s.history[i], push.store)
    {
      TendsOn(h, db, s.history[i], s.push.store, push.store);
    }
    hide Tends, WritesOwn;
  }

  lemma {:induction false} ClientSendsOwn(h: Hash, db: LocalDb, sys: PushSys, act: PushAction)
    requires Enabled(db, sys, Client(act)) && forall m | m in sys.c2s :: WritesOwn(db, m)
    ensures forall m | m in Do(h, db, sys, Client(act)).c2s :: WritesOwn(db, m)
    ensures Do(h, db, sys, Client(act)).store == sys.store
  {
  }

  /** Every other session's frame writes the client's own pages only. */
  predicate Friendly(db: LocalDb, a: SharedAction) {
    a.Other? ==> WritesOwn(db, a.msg)
  }

  lemma {:induction false} TendingStep(h: Hash, db: LocalDb, store0: Store, s: SharedSys, a: SharedAction)
    requires Tending(h, db, store0, s) && Possible(db, s, a) && Friendly(db, a)
    ensures Tending(h, db, store0, Act(h, db, s, a))
  {
    assert Tends(h, db, s.push.store, s.push.store);
    if a.Other? {
      ApplyTends(h, db, World(a.fsm, s.push.store, a.storeCredit, a.sendCredit, []), a.msg);
      hide Apply, Tends, WritesOwn;
      RecordTends(h, db, store0, s, s.push.(store := OtherStore(h, s.push.store, a)));
    } else if a.a.Server? {
      ApplyTends(h, db, PushProof.WorldOf(s.push, a.a), s.push.c2s[0]);
      hide Apply, Tends, WritesOwn, Frames;
      RecordTends(h, db, store0, s, Do(h, db, s.push, a.a));
    } else {
      ClientSendsOwn(h, db, s.push, a.a.act);
      hide Tends, WritesOwn, PushStep;
      RecordTends(h, db, store0, s, Do(h, db, s.push, a.a));
    }
  }

  lemma {:induction false} TendingAfter(h: Hash, db: LocalDb, store0: Store, s: SharedSys, actions: seq<SharedAction>)
    requires Tending(h, db, store0, s) && IsSharedRun(h, db, s, actions)
    requires forall a | a in actions :: Friendly(db, a)
    ensures Tending(h, db, store0, SharedAfter(h, db, s, actions))
    decreases |actions|
  {
    hide Tending, Act, Friendly;
    if actions != [] {
      TendingStep(h, db, store0, s, actions[0]);
      TendingAfter(h, db, store0, Act(h, db, s, actions[0]), actions[1..]);
    }
  }

  /** Convergence among sessions that write the same pages: a push that completes while other
      sessions, an unfinished earlier one included, store only pages of the same database
      leaves a store hash for hash equal to what the push alone would have left. */
  lemma {:induction false} Converges(h: Hash, store0: Store, db: LocalDb, actions: seq<SharedAction>)
    requires IsSharedRun(h, db, Begin(store0), actions) && forall a | a in actions :: Friendly(db, a)
    requires SharedAfter(h, db, Begin(store0), actions).push.client.phase.Synced?
    ensures var store := SharedAfter(h, db, Begin(store0), actions).push.store;
            && store.Keys == Overlay(h, store0, db).Keys
            && (forall k | k in store :: store[k].hash == Overlay(h, store0, db)[k].hash)
            && (forall k: nat :: SameAt(store0, store, k) || OwnCopy(h, db, store, k))
  {
    assert Tends(h, db, store0, store0);
    TendingAfter(h, db, store0, Begin(store0), actions);
    var end := SharedAfter(h, db, Begin(store0), actions);
    var store := end.push.store;
    forall k | HasPage(db, k)
      ensures !Differs(h, store, db, k)
    {
      var i := EveryPageArrives(h, store0, db, actions, k);
      assert SameAt(end.history[i], store, k) || OwnCopy(h, db, store, k);
    }
    hide IsSharedRun, SharedAfter, Begin;
    OverlayByHash(h, store0, db, store);
  }

  lemma {:induction false} OverlayByHash(h: Hash, store0: Store, db: LocalDb, store: Store)
    requires Tends(h, db, store0, store) && forall k | HasPage(db, k) :: !Differs(h, store, db, k)
    ensures store.Keys == Overlay(h, store0, db).Keys
    ensures forall k | k in store :: store[k].hash == Overlay(h, store0, db)[k].hash
  {
    var overlay := Overlay(h, store0, db);
    forall k: nat
      ensures k in store <==> k in overlay
      ensures k in store ==> store[k].hash == overlay[k].hash
    {
      assert SameAt(store0, store, k) || OwnCopy(h, db, store, k);
      assert k in Differing(h, store0, db) <==> HasPage(db, k) && Differs(h, store0, db, k);
      assert HasPage(db, k) ==> !Differs(h, store, db, k);
    }
  }

  /** What a push that is cut off leaves on its way to the server is such traffic: `Converges`
      covers a second push during which the server still works through it. */
  lemma {:induction false} CutOffIsFriendly(h: Hash, db: LocalDb, sys: PushSys, actions: seq<Action>)
    requires IsRun(h, db, sys, actions) && forall m | m in sys.c2s :: WritesOwn(db, m)
    ensures forall m | m in After(h, db, sys, actions).c2s :: WritesOwn(db, m)
    decreases |actions|
  {
    if actions != [] {
      var a := actions[0];
      if a.Client? {
        ClientSendsOwn(h, db, sys, a.act);
      }
      hide Apply, WritesOwn, PushStep, Frames;
      CutOffIsFriendly(h, db, Do(h, db, sys, a), actions[1..]);
    }
  }
}
