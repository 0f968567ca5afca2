/** What a pull guarantees, for every local database, every store, every hash function, every
    run and any number of concurrent sessions. */
module Pull {
  import opened Protocol
  import opened PageStore
  import opened SyncSpec
  import opened Session
  import opened SyncClient
  import opened Link
  import opened PullSystem
  import opened PullProof
  import opened PullSteps

  // ----- Any step -----

  /** Nothing of this pull fails during the action; other sessions do what they like. */
  predicate FaultFree(a: Action) {
    a.Other? || a == Server(Unlimited, Unlimited) || (a.Client? && a.act != PullWriteFails)
  }

  /** How much work a pull in this state still has before it. */
  function Rank(db: LocalDb, sys: PullSys, v: View): int {
    3 * (|db| + 1 - sys.client.nextPage) + 2 * (sys.client.nextPage - v.lo) + (|v.sent| - v.received)
    + (if sys.client.phase.Hashing? then 3 + sys.fsm.serverMaxPage
       else if v.complete then 2 + sys.fsm.serverMaxPage
       else if v.finish then 1 else 0)
  }

  /** The steps a pull may take in all, once the server's last page is known. */
  function Budget(db: LocalDb, sys: PullSys): int {
    3 * |db| + 6 + sys.fsm.serverMaxPage
  }

  /** `n` steps of its own have brought a fault-free pull here. */
  ghost predicate Spent(h: Hash, db: LocalDb, sys: PullSys, n: int) {
    || (Greeting(db, sys) && n == (if sys.client.phase.Connecting? then 0 else if sys.c2s != [] then 1 else 2))
    || (exists v :: Pulling(h, db, sys, v) && n + Rank(db, sys, v) <= Budget(db, sys))
  }

  /** `Pulling` again, with less work left, over the same store and record. */
  ghost predicate Advances(h: Hash, db: LocalDb, sys: PullSys, v: View, sys': PullSys, v': View) {
    && Pulling(h, db, sys', v')
    && Rank(db, sys', v') < Rank(db, sys, v)
    && sys'.fsm.serverMaxPage == sys.fsm.serverMaxPage
    && sys'.store == sys.store && sys'.history == sys.history
  }

  lemma {:induction false} ClientAdvances(h: Hash, db: LocalDb, sys: PullSys, v: View, act: PullAction)
    returns (v': View)
    requires Pulling(h, db, sys, v) && Enabled(db, sys, Client(act)) && act != PullWriteFails
    ensures Advances(h, db, sys, v, Do(h, db, sys, Client(act)), v')
  {
    hide SentFits, KeptFits, Covered, HistoryFits, TotalsFit, ClientFits, WriteAll, PagesOf, TotalSize;
    match act {
      case PullHash =>
        HashKeeps(h, db, sys, v);
        v' := v;
      case PullComplete =>
        PullSteps.CompleteKeeps(h, db, sys, v);
        v' := v.(complete := true);
      case PullRead =>
        if v.received < |v.sent| {
          ReadKeeps(h, db, sys, v);
          ReadQueues(h, db, sys, v);
          v' := v.(received := v.received + 1);
        } else {
          FinishKeeps(h, db, sys, v);
          FinishQueues(h, db, sys, v);
          v' := v.(finish := false);
        }
      case _ =>
        v' := v;
    }
  }

  lemma {:induction false} PullingMeans(h: Hash, db: LocalDb, sys: PullSys, v: View)
    requires Pulling(h, db, sys, v)
    ensures QueuesFit(h, db, sys, v) && sys.history != []
    ensures sys.fsm.sawHello && sys.fsm.direction.Pull? && sys.fsm.pendingRequests == {} && Countable(sys.fsm)
    ensures sys.server.Open? ==> !sys.fsm.emittedComplete && !v.finish && !sys.client.phase.Synced?
    ensures sys.server.Open? ==> sys.store == sys.history[|sys.history| - 1] && !sys.fsm.completedHashPhase
    ensures sys.fsm.clientSeen == PageSet(1, v.lo - 1)
    ensures !sys.server.Failed? && !sys.client.phase.Aborted?
    ensures Rank(db, sys, v) >= 0
  {
    hide SentFits, KeptFits, ClientFits, WriteAll, PagesOf, TotalSize, PageNos;
  }

  lemma {:induction false} SkipSettles(h: Hash, db: LocalDb, sys: PullSys, k: nat, w: World, step: Step)
    requires sys.c2s != [] && !sys.fsm.emittedComplete && sys.server == Open && sys.history != []
    requires w.fsm == sys.fsm && w.store == sys.store && k >= 1 && HasPage(db, k)
    requires HashOutcome(w, k, HashAt(h, db, k), step) && step.error.None?
    ensures if Sendable(h, sys.store, db, k)
            then Settle(sys, step) == Answered(sys, PageDataEntry(k, sys.store[k].data))
            else Settle(sys, step) == Skipped(sys, k)
  {
    assert sys.s2c + [] + [] == sys.s2c;
    assert forall m: SyncMessage :: sys.s2c + [m] + [] == sys.s2c + [m];
  }

  lemma {:induction false} HashAdvances(h: Hash, db: LocalDb, sys: PullSys, v: View, w: World, step: Step)
    returns (v': View)
    requires Pulling(h, db, sys, v) && v.lo < sys.client.nextPage && sys.server == Open && sys.c2s != []
    requires w.fsm == sys.fsm && w.store == sys.store
    requires HashOutcome(w, v.lo, HashAt(h, db, v.lo), step) && step.error.None?
    ensures Advances(h, db, sys, v, Settle(sys, step), v')
  {
    PullingMeans(h, db, sys, v);
    SkipSettles(h, db, sys, v.lo, w, step);
    hide Pulling, HashOutcome, Settle, Sendable;
    if Sendable(h, sys.store, db, v.lo) {
      var e := PageDataEntry(v.lo, sys.store[v.lo].data);
      AnswerKeeps(h, db, sys, v, e);
      v' := AnsweredView(sys, v, e);
    } else {
      SkipKeeps(h, db, sys, v);
      v' := SkippedView(sys, v);
    }
    hide QueuesFit;
  }

  /** The stored pages of `from..=last` that were not claimed, in page order. */
  ghost predicate IsWalkOf(store: Store, seen: set<nat>, from: nat, last: nat, es: seq<PageDataEntry>) {
    && |es| <= (if from > last then 0 else last + 1 - from)
    && (forall i, j | 0 <= i < j < |es| :: es[i].pageNo < es[j].pageNo)
    && (forall i | 0 <= i < |es| ::
          from <= es[i].pageNo && es[i].pageNo in store && es[i].data == store[es[i].pageNo].data)
    && (forall k :: k in PageNos(es) <==> from <= k <= last && k in store && k !in seen)
  }

  lemma {:induction false} WalkCons(store: Store, seen: set<nat>, from: nat, last: nat, rest: seq<PageDataEntry>)
    requires IsWalkOf(store, seen, from + 1, last, rest) && from <= last && from in store && from !in seen
    ensures IsWalkOf(store, seen, from, last, [PageDataEntry(from, store[from].data)] + rest)
  {
    var e := PageDataEntry(from, store[from].data);
    PageNosAppend([e], rest);
    assert PageNos([e]) == {from} by {
      assert [e][0].pageNo == from;
    }
    hide PageNos;
  }

  lemma {:induction false} WalkSkip(store: Store, seen: set<nat>, from: nat, last: nat, es: seq<PageDataEntry>)
    requires if from > last then es == []
             else IsWalkOf(store, seen, from + 1, last, es) && (from !in store || from in seen)
    ensures IsWalkOf(store, seen, from, last, es)
  {
    if from > last {
      assert PageNos(es) == {};
    }
    hide PageNos;
  }

  lemma {:induction false} WalkedStarts(store: Store, seen: set<nat>, from: nat, last: nat)
    ensures Walked(store, seen, from, last)
            == if from > last then []
               else if from in store && from !in seen then
                 [PageDataEntry(from, store[from].data)] + Walked(store, seen, from + 1, last)
               else Walked(store, seen, from + 1, last)
  {
  }

  /** The final walk visits exactly those. */
  lemma {:induction false} WalkedIsWalk(store: Store, seen: set<nat>, from: nat, last: nat)
    ensures IsWalkOf(store, seen, from, last, Walked(store, seen, from, last))
    decreases last + 1 - from
  {
    hide IsWalkOf, Walked;
    WalkedStarts(store, seen, from, last);
    if from > last {
      WalkSkip(store, seen, from, last, []);
    } else {
      WalkedIsWalk(store, seen, from + 1, last);
      if from in store && from !in seen {
        WalkCons(store, seen, from, last, Walked(store, seen, from + 1, last));
      } else {
        WalkSkip(store, seen, from, last, Walked(store, seen, from + 1, last));
      }
    }
  }

  lemma {:induction false} CompleteWalks(sys: PullSys, v: View)
    requires v.lo >= 1 && sys.fsm.clientSeen == PageSet(1, v.lo - 1)
    requires sys.history != [] && sys.store == sys.history[|sys.history| - 1]
    ensures IsWalk(sys, v, Walked(sys.store, sys.fsm.clientSeen, 1, sys.fsm.serverMaxPage))
    ensures |Walked(sys.store, sys.fsm.clientSeen, 1, sys.fsm.serverMaxPage)| <= sys.fsm.serverMaxPage
  {
    var es := Walked(sys.store, sys.fsm.clientSeen, 1, sys.fsm.serverMaxPage);
    WalkedIsWalk(sys.store, sys.fsm.clientSeen, 1, sys.fsm.serverMaxPage);
    hide Walked;
    forall i | 0 <= i < |es|
      ensures es[i].pageNo in PageNos(es)
    {
    }
    hide PageNos;
    forall i | 0 <= i < |es|
      ensures v.lo <= es[i].pageNo
    {
      assert es[i].pageNo in PageNos(es);
    }
  }

  lemma {:induction false} CompleteAdvances(h: Hash, db: LocalDb, sys: PullSys, v: View, w: World, step: Step)
    returns (v': View)
    requires Pulling(h, db, sys, v) && v.lo == sys.client.nextPage && sys.server == Open && sys.c2s != []
    requires w.fsm == sys.fsm && w.store == sys.store
    requires CompleteOutcome(w, Walked(w.store, w.fsm.clientSeen, 1, w.fsm.serverMaxPage), step) && step.error.None?
    ensures Advances(h, db, sys, v, Settle(sys, step), v')
  {
    var es := Walked(w.store, w.fsm.clientSeen, 1, w.fsm.serverMaxPage);
    PullingMeans(h, db, sys, v);
    assert v.lo >= 1;
    CompleteWalks(sys, v);
    DeliverSettles(sys, es, w, step);
    hide CompleteOutcome, Walked, Settle, IsWalk;
    PullSteps.DeliverKeeps(h, db, sys, v, es);
    v' := DeliveredView(sys, v, es);
    NextIsComplete(h, db, sys, v);
    assert !sys.client.phase.Hashing?;
    hide Pulling, QueuesFit;
  }

  lemma {:induction false} DeliverSettles(sys: PullSys, es: seq<PageDataEntry>, w: World, step: Step)
    requires sys.c2s != [] && sys.history != [] && w.fsm == sys.fsm && w.store == sys.store
    requires CompleteOutcome(w, es, step) && step.error.None?
    ensures Settle(sys, step) == Delivered(sys, es)
  {
    hide EntryFrames, TotalSize, Wrap64;
  }

  /** A failed server step never lets a SyncComplete out. */
  lemma {:induction false} Loses(h: Hash, db: LocalDb, sys: PullSys, v: View, step: Step)
    requires QueuesFit(h, db, sys, v) && !v.finish && !sys.client.phase.Synced? && sys.c2s != []
    requires step.error.Some? && Unfinished(Frames(step.world.log))
    ensures Lost(db, Settle(sys, step))
  {
    forall m | m in Settle(sys, step).s2c
      ensures !m.SyncComplete?
    {
      assert m in EntryFrames(v.sent[v.received..]) || m in Frames(step.world.log) || m in ErrorFrames(step);
    }
  }

  function WorldOf(sys: PullSys, a: Action): World
    requires a.Server?
  {
    World(sys.fsm, sys.store, a.storeCredit, a.sendCredit, [])
  }

  /** The server dealt with one frame, or failed without finishing. */
  ghost predicate MovesOn(h: Hash, db: LocalDb, sys: PullSys, v: View, w: World, step: Step, v': View)
    requires sys.c2s != []
  {
    if step.error.None? then Advances(h, db, sys, v, Settle(sys, step), v')
    else Lost(db, Settle(sys, step)) && !Reliable(w)
  }

  lemma {:induction false} HashMoves(h: Hash, db: LocalDb, sys: PullSys, v: View, w: World) returns (v': View)
    requires Pulling(h, db, sys, v) && v.lo < sys.client.nextPage && sys.server == Open && sys.c2s != []
    requires w.fsm == sys.fsm && w.store == sys.store && w.log == []
    ensures MovesOn(h, db, sys, v, w, Apply(h, w, sys.c2s[0]), v')
  {
    v' := v;
    PullingMeans(h, db, sys, v);
    NextIsHash(h, db, sys, v);
    HashEffect(h, w, v.lo, HashAt(h, db, v.lo));
    var step := Apply(h, w, sys.c2s[0]);
    hide Pulling, QueuesFit, Apply, Settle, Advances, Lost;
    if step.error.None? {
      v' := HashAdvances(h, db, sys, v, w, step);
    } else {
      Loses(h, db, sys, v, step);
    }
  }

  lemma {:induction false} CompleteMoves(h: Hash, db: LocalDb, sys: PullSys, v: View, w: World) returns (v': View)
    requires Pulling(h, db, sys, v) && v.lo == sys.client.nextPage && sys.server == Open && sys.c2s != []
    requires w.fsm == sys.fsm && w.store == sys.store && w.log == []
    ensures MovesOn(h, db, sys, v, w, Apply(h, w, sys.c2s[0]), v')
  {
    v' := v;
    PullingMeans(h, db, sys, v);
    NextIsComplete(h, db, sys, v);
    CompleteEffect(h, w);
    var step := Apply(h, w, sys.c2s[0]);
    hide Pulling, QueuesFit, Apply, Settle, Advances, Lost, Walked;
    if step.error.None? {
      v' := CompleteAdvances(h, db, sys, v, w, step);
    } else {
      Loses(h, db, sys, v, step);
    }
  }

  lemma {:induction false} ServerMoves(h: Hash, db: LocalDb, sys: PullSys, v: View, a: Action) returns (v': View)
    requires Pulling(h, db, sys, v) && Enabled(db, sys, a) && a.Server?
    ensures Advances(h, db, sys, v, Do(h, db, sys, a), v') || (!FaultFree(a) && Lost(db, Do(h, db, sys, a)))
  {
    var w := WorldOf(sys, a);
    PullingMeans(h, db, sys, v);
    assert v.lo <= sys.client.nextPage;
    hide Pulling, QueuesFit, Apply, Settle, Advances, Lost;
    if v.lo < sys.client.nextPage {
      v' := HashMoves(h, db, sys, v, w);
    } else {
      v' := CompleteMoves(h, db, sys, v, w);
    }
  }

  lemma {:induction false} OtherKeeps(h: Hash, db: LocalDb, sys: PullSys, v: View, a: Action)
    requires Pulling(h, db, sys, v) && a.Other?
    ensures Pulling(h, db, Do(h, db, sys, a), v)
    ensures Rank(db, Do(h, db, sys, a), v) == Rank(db, sys, v)
    ensures Do(h, db, sys, a).fsm == sys.fsm
  {
    ApplyGrows(h, World(a.fsm, sys.store, a.storeCredit, a.sendCredit, []), a.msg);
    hide Apply, Pulling;
    DisturbKeeps(h, db, sys, v, OtherStore(h, sys.store, a));
  }

  // ----- The handshake -----

  const FIRST_VIEW := View(1, false, false, [], 0, [], map[], 0)

  lemma {:induction false} GreetingEnds(h: Hash, db: LocalDb, sys: PullSys)
    requires Greeting(db, sys) && Enabled(db, sys, Client(PullReply))
    ensures Pulling(h, db, Do(h, db, sys, Client(PullReply)), FIRST_VIEW)
    ensures 3 + Rank(db, Do(h, db, sys, Client(PullReply)), FIRST_VIEW) <= Budget(db, Do(h, db, sys, Client(PullReply)))
  {
    assert sys.s2c[0] == HelloReply(PROTOCOL_VERSION, DEFAULT_PAGE_SIZE, sys.fsm.serverMaxPage);
    assert PageNos([]) == {};
    assert PageSet(1, 0) == {};
  }

  lemma {:induction false} HelloSettles(db: LocalDb, sys: PullSys, w: World, step: Step)
    requires Greeting(db, sys) && sys.c2s != [] && w.fsm == sys.fsm && w.store == sys.store
    requires HelloOutcome(w, MaxPage(w.store), step)
    ensures var sys' := Settle(sys, step);
            if step.error.Some? then Lost(db, sys')
            else Greeting(db, sys') && sys'.c2s == [] && sys'.history == [sys.store]
  {
    hide MaxPage, PagesOf, Reason;
    var reply := HelloReply(PROTOCOL_VERSION, DEFAULT_PAGE_SIZE, MaxPage(sys.store));
    if step.error.None? {
      assert Settle(sys, step).s2c == [reply];
    } else {
      assert forall m | m in Settle(sys, step).s2c :: m in ErrorFrames(step);
    }
  }

  lemma {:induction false} HelloArrives(h: Hash, db: LocalDb, sys: PullSys, a: Action)
    requires Greeting(db, sys) && Enabled(db, sys, a) && a.Server?
    ensures var sys' := Do(h, db, sys, a);
            || (&& Greeting(db, sys') && sys'.c2s == [] && sys'.client == sys.client
                && sys'.store == sys.store && sys'.history == [sys.store])
            || (!FaultFree(a) && Lost(db, sys'))
  {
    HelloEffect(h, WorldOf(sys, a), |db|);
    hide Apply, MaxPage;
    HelloSettles(db, sys, WorldOf(sys, a), ServerStep(h, sys, a.storeCredit, a.sendCredit));
    hide Greeting, Lost;
  }

  lemma {:induction false} GreetingDisturbed(h: Hash, db: LocalDb, sys: PullSys, store: Store)
    requires Greeting(db, sys) && sys.store.Keys <= store.Keys
    ensures Greeting(db, Disturb(sys, store))
  {
    hide MaxPage, PagesOf;
  }

  // ----- Every step keeps the invariant -----

  /** Nobody else has touched the store since the session began. */
  predicate Still(store0: Store, sys: PullSys) {
    sys.store == store0 && (sys.history == [] || sys.history == [store0])
  }

  /** What one step keeps: the invariant; the store and the record, if it is a step of this
      pull; and the count of its steps, if nothing fails. */
  ghost predicate Follows(h: Hash, db: LocalDb, sys: PullSys, a: Action, sys': PullSys) {
    && Inv(h, db, sys')
    && (!a.Other? && !Lost(db, sys') ==> forall store0 | Still(store0, sys) :: Still(store0, sys'))
    && (FaultFree(a) ==> forall n | Spent(h, db, sys, n) :: Spent(h, db, sys', if a.Other? then n else n + 1))
  }

  lemma {:induction false} GreetingStep(h: Hash, db: LocalDb, sys: PullSys, a: Action)
    requires Greeting(db, sys) && Enabled(db, sys, a)
    ensures Follows(h, db, sys, a, Do(h, db, sys, a))
  {
    hide Pulling, Apply, Lost;
    var sys' := Do(h, db, sys, a);
    GreetingIsNotPulling(h, db, sys);
    match a
    case Client(act) =>
      if act == PullReply {
        GreetingEnds(h, db, sys);
      }
    case Server(_, _) =>
      HelloArrives(h, db, sys, a);
    case Other(_, _, _, _) =>
      ApplyGrows(h, World(a.fsm, sys.store, a.storeCredit, a.sendCredit, []), a.msg);
      GreetingDisturbed(h, db, sys, OtherStore(h, sys.store, a));
  }

  lemma {:induction false} GreetingIsNotPulling(h: Hash, db: LocalDb, sys: PullSys)
    requires Greeting(db, sys)
    ensures forall v :: !Pulling(h, db, sys, v)
  {
    hide QueuesFit, ClientFits, TotalsFit, HistoryFits, SentFits, KeptFits, Covered;
  }

  /** One more step of its own, or one of somebody else's. */
  ghost predicate Continues(h: Hash, db: LocalDb, sys: PullSys, v: View, a: Action, sys': PullSys, v': View) {
    && Pulling(h, db, sys', v')
    && Rank(db, sys', v') + (if a.Other? then 0 else 1) <= Rank(db, sys, v)
    && sys'.fsm.serverMaxPage == sys.fsm.serverMaxPage
    && (a.Other? || (sys'.store == sys.store && sys'.history == sys.history))
  }

  lemma {:induction false} PullingMoves(h: Hash, db: LocalDb, sys: PullSys, v: View, a: Action) returns (v': View)
    requires Pulling(h, db, sys, v) && Enabled(db, sys, a)
    ensures Continues(h, db, sys, v, a, Do(h, db, sys, a), v') || (!FaultFree(a) && Lost(db, Do(h, db, sys, a)))
  {
    v' := v;
    hide Pulling, Apply;
    match a
    case Client(act) =>
      if act != PullWriteFails {
        v' := ClientAdvances(h, db, sys, v, act);
      }
    case Server(_, _) =>
      v' := ServerMoves(h, db, sys, v, a);
    case Other(_, _, _, _) =>
      OtherKeeps(h, db, sys, v, a);
  }

  lemma {:induction false} SpentGrows(h: Hash, db: LocalDb, sys: PullSys, v: View, a: Action, n: int)
    requires Pulling(h, db, sys, v) && Enabled(db, sys, a) && FaultFree(a) && Spent(h, db, sys, n)
    ensures Spent(h, db, Do(h, db, sys, a), if a.Other? then n else n + 1)
  {
    if Greeting(db, sys) {
      GreetingIsNotPulling(h, db, sys);
      assert false;
    } else {
      hide Pulling, Lost, Do, Greeting, Rank;
      var u :| Pulling(h, db, sys, u) && n + Rank(db, sys, u) <= Budget(db, sys);
      var u' := PullingMoves(h, db, sys, u, a);
    }
  }

  lemma {:induction false} PullingStep(h: Hash, db: LocalDb, sys: PullSys, v: View, a: Action)
    requires Pulling(h, db, sys, v) && Enabled(db, sys, a)
    ensures Follows(h, db, sys, a, Do(h, db, sys, a))
  {
    hide Pulling, Lost, Do, Spent, Greeting, Rank, FaultFree;
    var v' := PullingMoves(h, db, sys, v, a);
    if FaultFree(a) {
      forall n | Spent(h, db, sys, n)
        ensures Spent(h, db, Do(h, db, sys, a), if a.Other? then n else n + 1)
      {
        SpentGrows(h, db, sys, v, a, n);
      }
    }
    hide Enabled;
  }

  lemma {:induction false} LostStep(h: Hash, db: LocalDb, sys: PullSys, a: Action)
    requires Lost(db, sys) && Enabled(db, sys, a)
    ensures Lost(db, Do(h, db, sys, a))
  {
    hide Apply;
  }

  lemma {:induction false} InvStep(h: Hash, db: LocalDb, sys: PullSys, a: Action)
    requires Inv(h, db, sys) && Enabled(db, sys, a)
    ensures Inv(h, db, Do(h, db, sys, a))
    ensures Lost(db, sys) ==> Lost(db, Do(h, db, sys, a))
    ensures Lost(db, sys) || Follows(h, db, sys, a, Do(h, db, sys, a))
  {
    hide Greeting, Pulling, Lost, Follows, Do;
    if Lost(db, sys) {
      LostStep(h, db, sys, a);
    } else if Greeting(db, sys) {
      GreetingStep(h, db, sys, a);
      assert Inv(h, db, Do(h, db, sys, a)) by { FollowsInv(h, db, sys, a, Do(h, db, sys, a)); }
    } else {
      var v :| Pulling(h, db, sys, v);
      PullingStep(h, db, sys, v, a);
      assert Inv(h, db, Do(h, db, sys, a)) by { FollowsInv(h, db, sys, a, Do(h, db, sys, a)); }
    }
  }

  lemma {:induction false} FollowsInv(h: Hash, db: LocalDb, sys: PullSys, a: Action, sys': PullSys)
    requires Follows(h, db, sys, a, sys')
    ensures Inv(h, db, sys')
  {
  }

  lemma {:induction false} InvAfter(h: Hash, db: LocalDb, sys: PullSys, actions: seq<Action>)
    requires Inv(h, db, sys) && IsRun(h, db, sys, actions)
    ensures Inv(h, db, After(h, db, sys, actions))
    ensures Lost(db, sys) ==> Lost(db, After(h, db, sys, actions))
    decreases |actions|
  {
    hide Inv, Do, Lost;
    if actions != [] {
      InvStep(h, db, sys, actions[0]);
      InvAfter(h, db, Do(h, db, sys, actions[0]), actions[1..]);
    }
  }

  // ----- Freshness: any number of concurrent sessions -----

  lemma {:induction false} WriteAllMeans(es: seq<PageDataEntry>)
    requires forall i, j | 0 <= i < j < |es| :: es[i].pageNo != es[j].pageNo
    ensures WriteAll(map[], es).Keys == PageNos(es)
    ensures forall i | 0 <= i < |es| :: es[i].pageNo in WriteAll(map[], es) && WriteAll(map[], es)[es[i].pageNo] == es[i].data
  {
    if es == [] {
    } else {
      var n := |es| - 1;
      assert es == es[..n] + [es[n]];
      WriteAllMeans(es[..n]);
      WriteAllSnoc(map[], es[..n], es[n]);
      hide WriteAll;
      PageNosAppend(es[..n], [es[n]]);
      assert PageNos([es[n]]) == {es[n].pageNo} by {
        assert [es[n]][0].pageNo == es[n].pageNo;
      }
    }
  }

  /** `data` is the page's content in `store`, or the client's own copy of the same hash. */
  predicate CopyOf(h: Hash, db: LocalDb, store: Store, k: nat, data: Bytes) {
    && k in store
    && (data == store[k].data || (HasPage(db, k) && data == PageAt(db, k) && store[k].hash == HashAt(h, db, k)))
  }

  lemma {:induction false} SentIsCopied(h: Hash, db: LocalDb, end: PullSys, v: View, k: nat) returns (i: nat)
    requires SentFits(h, db, end, v) && ClientFits(db, end, v) && end.client.phase.Synced?
    requires k in PageNos(v.sent)
    ensures i < |end.history| && k in end.client.committed && k in end.history[i]
    ensures end.client.committed[k] == end.history[i][k].data
  {
    WriteAllMeans(v.sent);
    var j :| 0 <= j < |v.sent| && v.sent[j].pageNo == k;
    i := v.versions[j];
  }

  lemma {:induction false} KeptIsCopied(h: Hash, db: LocalDb, end: PullSys, v: View, k: nat) returns (i: nat)
    requires SentFits(h, db, end, v) && ClientFits(db, end, v) && KeptFits(h, db, end, v) && HistoryFits(end)
    requires end.client.phase.Synced? && k in v.kept && k !in PageNos(v.sent) && k in end.history[0]
    ensures i < |end.history| && k in end.client.committed
    ensures CopyOf(h, db, end.history[i], k, end.client.committed[k])
  {
    WriteAllMeans(v.sent);
    i := v.kept[k];
    assert end.history[0].Keys <= end.history[i].Keys;
  }

  /** Every page present at the handshake was skipped or sent. */
  lemma {:induction false} PresentIsCovered(db: LocalDb, end: PullSys, v: View, k: nat)
    requires Covered(db, end, v) && HistoryFits(end) && end.fsm.completedHashPhase
    requires k >= 1 && k in end.history[0]
    ensures k in PageNos(v.sent) || (k in v.kept && k !in PageNos(v.sent))
  {
    assert end.history[0].Keys <= end.history[v.walk].Keys;
    hide PageNos;
  }

  /** The page was stored when the server answered this session's Hello. */
  predicate AtHandshake(end: PullSys, k: nat) {
    end.history != [] && k in end.history[0]
  }

  lemma {:induction false} SyncedView(h: Hash, db: LocalDb, end: PullSys) returns (v: View)
    requires Inv(h, db, end) && end.client.phase.Synced?
    ensures Pulling(h, db, end, v) && end.fsm.completedHashPhase && end.server == Finished
  {
    v :| Pulling(h, db, end, v);
    hide QueuesFit, ClientFits, TotalsFit, HistoryFits, SentFits, KeptFits, Covered;
  }

  /** Regular reads: whatever other sessions do meanwhile, a completed pull holds a copy of
      every page numbered 1 or above that was there at its handshake, and each is what the
      server had between this session's Hello and its SyncComplete. */
  lemma {:induction false} Fresh(h: Hash, store0: Store, db: LocalDb, actions: seq<Action>, k: nat) returns (i: nat)
    requires IsRun(h, db, Init(store0, db), actions)
    requires After(h, db, Init(store0, db), actions).client.phase.Synced?
    requires k >= 1 && AtHandshake(After(h, db, Init(store0, db), actions), k)
    ensures var end := After(h, db, Init(store0, db), actions);
            && i < |end.history|
            && k in end.client.committed
            && CopyOf(h, db, end.history[i], k, end.client.committed[k])
  {
    InvAfter(h, db, Init(store0, db), actions);
    var end := After(h, db, Init(store0, db), actions);
    var v := SyncedView(h, db, end);
    PresentIsCovered(db, end, v, k);
    if k in PageNos(v.sent) {
      i := SentIsCopied(h, db, end, v, k);
    } else {
      i := KeptIsCopied(h, db, end, v, k);
    }
  }

  /** A completed pull drops no local page and makes none up: what it holds is the local page
      or one the server held during the session. */
  lemma {:induction false} NothingInvented(h: Hash, store0: Store, db: LocalDb, actions: seq<Action>, k: nat)
    requires IsRun(h, db, Init(store0, db), actions)
    requires After(h, db, Init(store0, db), actions).client.phase.Synced?
    ensures var end := After(h, db, Init(store0, db), actions);
            var mine := end.client.committed;
            && (HasPage(db, k) ==> k in mine)
            && (k in mine ==>
                  || (HasPage(db, k) && mine[k] == PageAt(db, k))
                  || exists i | 0 <= i < |end.history| :: k in end.history[i] && mine[k] == end.history[i][k].data)
  {
    InvAfter(h, db, Init(store0, db), actions);
    var end := After(h, db, Init(store0, db), actions);
    hide IsRun, After, Init, Inv, QueuesFit, PhasesFit, TotalsFit, HistoryFits, KeptFits, Covered, WriteAll;
    var v := SyncedView(h, db, end);
    WriteAllMeans(v.sent);
    if k in PageNos(v.sent) {
      var i := SentIsCopied(h, db, end, v, k);
    }
  }

  /** Every store of the record extends the first one, and is intact if that was. */
  ghost predicate Rooted(h: Hash, store0: Store, sys: PullSys) {
    && Extends(h, store0, sys.store)
    && forall i | 0 <= i < |sys.history| :: Extends(h, store0, sys.history[i])
  }

  ghost predicate Extends(h: Hash, store0: Store, store: Store) {
    store0.Keys <= store.Keys && (Intact(h, store0) ==> Intact(h, store))
  }

  lemma {:induction false} RootedStep(h: Hash, store0: Store, db: LocalDb, sys: PullSys, a: Action)
    requires Rooted(h, store0, sys) && Enabled(db, sys, a)
    ensures Rooted(h, store0, Do(h, db, sys, a))
  {
    match a
    case Client(_) =>
    case Server(_, _) =>
      ApplyGrows(h, WorldOf(sys, a), sys.c2s[0]);
      hide Apply;
    case Other(_, _, _, _) =>
      ApplyGrows(h, World(a.fsm, sys.store, a.storeCredit, a.sendCredit, []), a.msg);
      hide Apply;
  }

  lemma {:induction false} RootedAfter(h: Hash, store0: Store, db: LocalDb, sys: PullSys, actions: seq<Action>)
    requires Rooted(h, store0, sys) && IsRun(h, db, sys, actions)
    ensures Rooted(h, store0, After(h, db, sys, actions))
    decreases |actions|
  {
    hide Rooted, Do;
    if actions != [] {
      RootedStep(h, store0, db, sys, actions[0]);
      RootedAfter(h, store0, db, Do(h, db, sys, actions[0]), actions[1..]);
    }
  }

  /** Equal hashes are equal bytes when the hash tells the pages in play apart: then the pages
      of `Fresh` are byte for byte what the server held, and they include every page stored
      when the run began. */
  lemma {:induction false} FreshBytes(h: Hash, store0: Store, db: LocalDb, actions: seq<Action>, k: nat)
    returns (i: nat)
    requires Intact(h, store0) && IsRun(h, db, Init(store0, db), actions)
    requires After(h, db, Init(store0, db), actions).client.phase.Synced?
    requires k >= 1 && k in store0
    requires forall i | 0 <= i < |After(h, db, Init(store0, db), actions).history| ::
               var store := After(h, db, Init(store0, db), actions).history[i];
               k in store && DigestOf(h, store[k].data) == HashAt(h, db, k) ==> store[k].data == PageAt(db, k)
    ensures var end := After(h, db, Init(store0, db), actions);
            && i < |end.history| && k in end.history[i]
            && k in end.client.committed && end.client.committed[k] == end.history[i][k].data
  {
    var end := After(h, db, Init(store0, db), actions);
    InvAfter(h, db, Init(store0, db), actions);
    RootedAfter(h, store0, db, Init(store0, db), actions);
    var v := SyncedView(h, db, end);
    hide IsRun, After, Init;
    assert Extends(h, store0, end.history[0]);
    i := Fresh(h, store0, db, actions, k);
    assert Extends(h, store0, end.history[i]);
    hide Pulling;
  }

  // ----- Atomicity: any server, any fault -----

  /** Whatever frames arrive, from whatever server, a pull that has not read SyncComplete, or
      has failed to write, has not touched the file. */
  lemma {:induction false} Atomic(h: Hash, db: LocalDb, frames: seq<SyncMessage>, trace: seq<PullAction>)
    requires PullRun(h, db, PullSide(NewPullClient(db), frames, []), trace).Some?
    ensures var client := PullRun(h, db, PullSide(NewPullClient(db), frames, []), trace).value.client;
            client.phase.Synced? || client.committed == PagesOf(db)
  {
    if trace != [] {
      Atomic(h, db, frames, trace[..|trace| - 1]);
      hide WriteAll, PagesOf;
    }
  }

  /** In particular in the whole system. */
  lemma {:induction false} AtomicAmongSessions(h: Hash, store0: Store, db: LocalDb, actions: seq<Action>)
    requires IsRun(h, db, Init(store0, db), actions)
    requires !After(h, db, Init(store0, db), actions).client.phase.Synced?
    ensures After(h, db, Init(store0, db), actions).client.committed == PagesOf(db)
  {
    FileUntouched(h, db, Init(store0, db), actions);
  }

  lemma {:induction false} FileUntouched(h: Hash, db: LocalDb, sys: PullSys, actions: seq<Action>)
    requires IsRun(h, db, sys, actions)
    requires !After(h, db, sys, actions).client.phase.Synced?
    ensures !sys.client.phase.Synced?
    ensures After(h, db, sys, actions).client.committed == sys.client.committed
    decreases |actions|
  {
    hide Apply, Frames, WriteAll;
    if actions != [] {
      FileUntouched(h, db, Do(h, db, sys, actions[0]), actions[1..]);
    }
  }

  // ----- A store nobody else touches -----

  lemma {:induction false} StillAfter(h: Hash, store0: Store, db: LocalDb, sys: PullSys, actions: seq<Action>)
    requires Inv(h, db, sys) && Still(store0, sys) && IsRun(h, db, sys, actions)
    requires forall a | a in actions :: !a.Other?
    ensures Lost(db, After(h, db, sys, actions)) || Still(store0, After(h, db, sys, actions))
    decreases |actions|
  {
    hide Inv, Do, Lost, Still;
    if actions != [] {
      var next := Do(h, db, sys, actions[0]);
      if Lost(db, sys) {
        InvAfter(h, db, sys, actions);
      } else {
        InvStep(h, db, sys, actions[0]);
        if Lost(db, next) {
          InvAfter(h, db, next, actions[1..]);
        } else {
          StillAfter(h, store0, db, next, actions[1..]);
        }
      }
    }
  }

  lemma {:induction false} RestOfShipment(es: seq<PageDataEntry>)
    requires es != [] && forall i, j | 0 <= i < j < |es| :: es[i].pageNo < es[j].pageNo
    ensures PageNos(es[1..]) == PageNos(es) - {es[0].pageNo}
  {
    assert es == [es[0]] + es[1..];
    PageNosAppend([es[0]], es[1..]);
    assert PageNos([es[0]]) == {es[0].pageNo} by {
      assert [es[0]][0].pageNo == es[0].pageNo;
    }
  }

  /** A list, in page order, of exactly the pages to be sent among `from..=last`. */
  ghost predicate IsShipment(h: Hash, store: Store, db: LocalDb, from: nat, last: nat, es: seq<PageDataEntry>) {
    && (forall i, j | 0 <= i < j < |es| :: es[i].pageNo < es[j].pageNo)
    && (forall k :: k in PageNos(es) <==> from <= k <= last && Sendable(h, store, db, k))
    && (forall i | 0 <= i < |es| :: es[i].pageNo in store && es[i].data == store[es[i].pageNo].data)
  }

  lemma {:induction false} ShipmentUnfolds(h: Hash, store: Store, db: LocalDb, from: nat, last: nat,
                                           es: seq<PageDataEntry>)
    requires IsShipment(h, store, db, from, last, es)
    ensures from > last ==> es == []
    ensures from <= last && !Sendable(h, store, db, from) ==> IsShipment(h, store, db, from + 1, last, es)
    ensures from <= last && Sendable(h, store, db, from) ==>
              && es != [] && es[0] == PageDataEntry(from, store[from].data)
              && IsShipment(h, store, db, from + 1, last, es[1..])
  {
    forall i | 0 <= i < |es|
      ensures from <= es[i].pageNo <= last && Sendable(h, store, db, es[i].pageNo)
    {
      assert es[i].pageNo in PageNos(es);
    }
    assert es == [] || from <= es[0].pageNo <= last;
    if from <= last && Sendable(h, store, db, from) {
      assert from in PageNos(es);
      RestOfShipment(es);
    }
    hide Sendable, PageNos;
  }

  lemma {:induction false} ShipmentStarts(h: Hash, store: Store, db: LocalDb, from: nat, last: nat)
    ensures Shipment(h, store, db, from, last)
            == if from > last then []
               else if Sendable(h, store, db, from) then
                 [PageDataEntry(from, store[from].data)] + Shipment(h, store, db, from + 1, last)
               else Shipment(h, store, db, from + 1, last)
  {
    hide Sendable;
  }

  lemma {:induction false} ShipmentIsUnique(h: Hash, store: Store, db: LocalDb, from: nat, last: nat,
                                            es: seq<PageDataEntry>)
    requires IsShipment(h, store, db, from, last, es)
    ensures es == Shipment(h, store, db, from, last)
    decreases last + 1 - from
  {
    hide Sendable, IsShipment, Shipment;
    ShipmentUnfolds(h, store, db, from, last, es);
    ShipmentStarts(h, store, db, from, last);
    if from <= last {
      if Sendable(h, store, db, from) {
        ShipmentIsUnique(h, store, db, from + 1, last, es[1..]);
        assert es == [es[0]] + es[1..];
      } else {
        ShipmentIsUnique(h, store, db, from + 1, last, es);
      }
    }
  }

  /** Over an unchanging store, the pages sent are the ones that have to be. */
  lemma {:induction false} SentIsShipment(h: Hash, store0: Store, db: LocalDb, end: PullSys, v: View)
    requires SentFits(h, db, end, v) && KeptFits(h, db, end, v) && Covered(db, end, v) && HistoryFits(end)
    requires end.fsm.completedHashPhase && end.history == [store0]
    ensures v.sent == Shipment(h, store0, db, 1, MaxPage(store0))
  {
    forall k
      ensures k in PageNos(v.sent) <==> 1 <= k <= MaxPage(store0) && Sendable(h, store0, db, k)
    {
      if k in PageNos(v.sent) {
        var i :| 0 <= i < |v.sent| && v.sent[i].pageNo == k;
        assert v.versions[i] == 0;
      }
      if k >= 1 && Sendable(h, store0, db, k) {
        PresentIsCovered(db, end, v, k);
      }
    }
    ShipmentIsUnique(h, store0, db, 1, MaxPage(store0), v.sent);
  }

  lemma {:induction false} ShipmentIsOverlay(h: Hash, store: Store, db: LocalDb, es: seq<PageDataEntry>)
    requires forall i, j | 0 <= i < j < |es| :: es[i].pageNo != es[j].pageNo
    requires forall k :: k in PageNos(es) <==> Sendable(h, store, db, k)
    requires forall i | 0 <= i < |es| :: es[i].pageNo in store && es[i].data == store[es[i].pageNo].data
    ensures PagesOf(db) + WriteAll(map[], es) == PullOverlay(h, store, db)
  {
    WrittenData(store, es);
    var written := WriteAll(map[], es);
    assert forall k | k in written :: k in store && Sendable(h, store, db, k);
    hide WriteAll, Sendable, PagesOf, PageNos;
    assert written == map k | k in store && Sendable(h, store, db, k) :: store[k].data;
  }

  lemma {:induction false} WrittenData(store: Store, es: seq<PageDataEntry>)
    requires forall i, j | 0 <= i < j < |es| :: es[i].pageNo != es[j].pageNo
    requires forall i | 0 <= i < |es| :: es[i].pageNo in store && es[i].data == store[es[i].pageNo].data
    ensures WriteAll(map[], es).Keys == PageNos(es)
    ensures forall k | k in WriteAll(map[], es) :: k in store && WriteAll(map[], es)[k] == store[k].data
  {
    WriteAllMeans(es);
    forall k | k in WriteAll(map[], es)
      ensures k in store && WriteAll(map[], es)[k] == store[k].data
    {
      assert k in PageNos(es);
      var i :| 0 <= i < |es| && es[i].pageNo == k;
    }
  }

  /** Pull convergence on a store nobody else touches: on SyncComplete the committed pages are
      exactly the old ones overlaid with the pages the client lacked or had different bytes
      of, each sent once and in page order, and the totals are their number and size. */
  lemma {:induction false} Exact(h: Hash, store0: Store, db: LocalDb, actions: seq<Action>)
    requires IsRun(h, db, Init(store0, db), actions)
    requires forall a | a in actions :: !a.Other?
    requires After(h, db, Init(store0, db), actions).client.phase.Synced?
    ensures var end := After(h, db, Init(store0, db), actions);
            var shipment := Shipment(h, store0, db, 1, MaxPage(store0));
            && end.store == store0
            && end.client.committed == PullOverlay(h, store0, db)
            && end.client.phase == Synced(Wrap64(|shipment|), Wrap64(TotalSize(shipment)))
            && end.client.pagesWritten == |shipment|
  {
    InvAfter(h, db, Init(store0, db), actions);
    StillAfter(h, store0, db, Init(store0, db), actions);
    var end := After(h, db, Init(store0, db), actions);
    var v := SyncedView(h, db, end);
    hide IsRun, After, Init, Inv, QueuesFit, PhasesFit, TotalsFit;
    SyncedIsExact(h, store0, db, end, v);
  }

  lemma {:induction false} SyncedIsExact(h: Hash, store0: Store, db: LocalDb, end: PullSys, v: View)
    requires SentFits(h, db, end, v) && KeptFits(h, db, end, v) && Covered(db, end, v) && HistoryFits(end)
    requires ClientFits(db, end, v) && end.client.phase.Synced? && end.fsm.completedHashPhase && end.history == [store0]
    ensures var shipment := Shipment(h, store0, db, 1, MaxPage(store0));
            && end.client.committed == PullOverlay(h, store0, db)
            && end.client.phase == Synced(Wrap64(|shipment|), Wrap64(TotalSize(shipment)))
            && end.client.pagesWritten == |shipment|
  {
    SentIsShipment(h, store0, db, end, v);
    ShipmentMeans(h, store0, db, 1, MaxPage(store0));
    ShipmentIsOverlay(h, store0, db, v.sent);
    hide Shipment, Sendable, PageNos, WriteAll, TotalSize, PullOverlay;
  }

  lemma {:induction false} ShipmentCons(h: Hash, store: Store, db: LocalDb, from: nat, last: nat,
                                        rest: seq<PageDataEntry>)
    requires IsShipment(h, store, db, from + 1, last, rest) && from <= last && Sendable(h, store, db, from)
    ensures IsShipment(h, store, db, from, last, [PageDataEntry(from, store[from].data)] + rest)
  {
    var e := PageDataEntry(from, store[from].data);
    forall i | 0 <= i < |rest|
      ensures from < rest[i].pageNo
    {
      assert rest[i].pageNo in PageNos(rest);
    }
    PageNosAppend([e], rest);
    assert PageNos([e]) == {from} by {
      assert [e][0].pageNo == from;
    }
    hide Sendable, PageNos;
  }

  lemma {:induction false} ShipmentSkip(h: Hash, store: Store, db: LocalDb, from: nat, last: nat,
                                        es: seq<PageDataEntry>)
    requires if from > last then es == [] else IsShipment(h, store, db, from + 1, last, es) && !Sendable(h, store, db, from)
    ensures IsShipment(h, store, db, from, last, es)
  {
    if from > last {
      assert PageNos(es) == {};
    }
    hide Sendable, PageNos;
  }

  lemma {:induction false} ShipmentMeans(h: Hash, store: Store, db: LocalDb, from: nat, last: nat)
    ensures IsShipment(h, store, db, from, last, Shipment(h, store, db, from, last))
    decreases last + 1 - from
  {
    hide Sendable, IsShipment;
    if from > last {
      ShipmentSkip(h, store, db, from, last, []);
    } else {
      var rest := Shipment(h, store, db, from + 1, last);
      ShipmentMeans(h, store, db, from + 1, last);
      if Sendable(h, store, db, from) {
        ShipmentCons(h, store, db, from, last, rest);
      } else {
        ShipmentSkip(h, store, db, from, last, rest);
        assert Shipment(h, store, db, from, last) == rest;
      }
    }
  }

  /** Below 2^32 page numbers and with pages of at most 65536 bytes, SQLite's largest, the
      reported totals are the true ones: no counter wraps. */
  lemma {:induction false} TotalsAreTrue(h: Hash, store: Store, db: LocalDb)
    requires MaxPage(store) < 0x1_0000_0000
    requires forall k | k in store :: |store[k].data| <= 65536
    ensures var shipment := Shipment(h, store, db, 1, MaxPage(store));
            Wrap64(|shipment|) == |shipment| && Wrap64(TotalSize(shipment)) == TotalSize(shipment)
  {
    ShipmentIsSmall(h, store, db, 1, MaxPage(store));
  }

  lemma {:induction false} ShipmentIsSmall(h: Hash, store: Store, db: LocalDb, from: nat, last: nat)
    requires from <= last + 1 && forall k | k in store :: |store[k].data| <= 65536
    ensures |Shipment(h, store, db, from, last)| <= last + 1 - from
    ensures TotalSize(Shipment(h, store, db, from, last)) <= 65536 * (last + 1 - from)
    decreases last + 1 - from
  {
    if from <= last {
      ShipmentIsSmall(h, store, db, from + 1, last);
      if Sendable(h, store, db, from) {
        var e := PageDataEntry(from, store[from].data);
        TotalSizeAppend([e], Shipment(h, store, db, from + 1, last));
        assert TotalSize([e]) == |e.data|;
      } else {
        assert Shipment(h, store, db, from, last) == Shipment(h, store, db, from + 1, last);
      }
      hide Sendable, TotalSize;
    }
  }

  // ----- Progress -----

  /** The steps of a run that are this pull's own. */
  function Own(actions: seq<Action>): nat {
    if actions == [] then 0 else (if actions[0].Other? then 0 else 1) + Own(actions[1..])
  }

  lemma {:induction false} SpentIsLive(h: Hash, db: LocalDb, sys: PullSys, n: int)
    requires Spent(h, db, sys, n)
    ensures !Lost(db, sys) && Inv(h, db, sys)
    ensures !sys.client.phase.Aborted? && !sys.server.Failed?
    ensures n <= Budget(db, sys)
    ensures sys.history == [] ==> n <= 2
    ensures sys.history != [] ==> sys.fsm.serverMaxPage == MaxPage(sys.history[0])
  {
    hide SentFits, KeptFits, Covered, TotalsFit, ClientFits, WriteAll, PagesOf, MaxPage;
  }

  lemma {:induction false} SpentStep(h: Hash, db: LocalDb, sys: PullSys, n: int, a: Action)
    requires Spent(h, db, sys, n) && Enabled(db, sys, a) && FaultFree(a)
    ensures Spent(h, db, Do(h, db, sys, a), if a.Other? then n else n + 1)
  {
    SpentIsLive(h, db, sys, n);
    InvStep(h, db, sys, a);
    hide Spent, Do, Inv, Lost, Still, FaultFree, Enabled;
  }

  lemma {:induction false} SpentAfter(h: Hash, db: LocalDb, sys: PullSys, n: int, actions: seq<Action>)
    requires Spent(h, db, sys, n) && IsRun(h, db, sys, actions)
    requires forall a | a in actions :: FaultFree(a)
    ensures Spent(h, db, After(h, db, sys, actions), n + Own(actions))
    decreases |actions|
  {
    hide Spent, Do, FaultFree;
    if actions != [] {
      SpentStep(h, db, sys, n, actions[0]);
      SpentAfter(h, db, Do(h, db, sys, actions[0]), if actions[0].Other? then n else n + 1, actions[1..]);
    }
  }

  /** A draining client with nothing to read has left work for the server. */
  lemma {:induction false} SilenceIsTheServersTurn(h: Hash, db: LocalDb, sys: PullSys, v: View)
    requires QueuesFit(h, db, sys, v) && PhasesFit(db, sys, v) && ClientFits(db, sys, v)
    requires sys.client.phase.Draining? && sys.s2c == []
    ensures sys.server.Open? && sys.c2s != []
  {
    assert !v.finish by {
      assert |sys.s2c| == |v.sent| - v.received + |Only(v.finish, Complete)|;
    }
    assert sys.c2s == [] ==> v.lo == sys.client.nextPage && !v.complete;
    hide WriteAll, PagesOf, TotalSize;
  }

  lemma {:induction false} NeverStuck(h: Hash, db: LocalDb, sys: PullSys, n: int) returns (a: Action)
    requires Spent(h, db, sys, n) && !sys.client.phase.Synced?
    ensures Enabled(db, sys, a) && FaultFree(a) && !a.Other?
  {
    if Greeting(db, sys) {
      a := if sys.client.phase.Connecting? then Client(PullHello)
           else if sys.c2s != [] then Server(Unlimited, Unlimited) else Client(PullReply);
    } else {
      var v :| Pulling(h, db, sys, v);
      a := PullingCanMove(h, db, sys, v);
    }
  }

  lemma {:induction false} PullingCanMove(h: Hash, db: LocalDb, sys: PullSys, v: View) returns (a: Action)
    requires Pulling(h, db, sys, v) && !sys.client.phase.Synced?
    ensures Enabled(db, sys, a) && FaultFree(a) && !a.Other?
  {
    hide QueuesFit, ClientFits, TotalsFit, HistoryFits, SentFits, KeptFits, Covered;
    if sys.client.phase.Hashing? {
      a := if sys.client.nextPage <= |db| then Client(PullHash) else Client(PullComplete);
    } else if sys.s2c != [] {
      a := Client(PullRead);
    } else {
      SilenceIsTheServersTurn(h, db, sys, v);
      a := Server(Unlimited, Unlimited);
    }
  }

  /** Progress and termination: a pull without faults takes at most 3n + m + 6 steps of its
      own, for n local pages and a server whose last page is m at the handshake, whatever
      other sessions do between them; no peer aborts or fails; and when none of its steps is
      possible any more, the client has its SyncComplete. */
  lemma {:induction false} Terminates(h: Hash, store0: Store, db: LocalDb, actions: seq<Action>)
    requires IsRun(h, db, Init(store0, db), actions)
    requires forall a | a in actions :: FaultFree(a)
    ensures var end := After(h, db, Init(store0, db), actions);
            && Own(actions) <= 3 * |db| + 6 + (if end.history == [] then 0 else MaxPage(end.history[0]))
            && !end.client.phase.Aborted? && !end.server.Failed?
            && ((forall a | FaultFree(a) && !a.Other? :: !Enabled(db, end, a)) ==> end.client.phase.Synced?)
  {
    var start := Init(store0, db);
    assert Greeting(db, start);
    SpentAfter(h, db, start, 0, actions);
    var end := After(h, db, start, actions);
    var n := Own(actions);
    hide IsRun, After, Init, Spent, Greeting, Own;
    SpentIsLive(h, db, end, n);
    if !end.client.phase.Synced? {
      var a := NeverStuck(h, db, end, n);
    }
  }

  /** The steps left: few before Hello is answered, then what the budget leaves. */
  ghost function StepsLeft(db: LocalDb, sys: PullSys, n: int): int {
    if sys.history == [] then 2 - n else Budget(db, sys) - n
  }

  lemma {:induction false} StepsRunOut(h: Hash, db: LocalDb, sys: PullSys, n: int, a: Action)
    requires Spent(h, db, sys, n) && Enabled(db, sys, a) && FaultFree(a) && !a.Other?
    ensures Spent(h, db, Do(h, db, sys, a), n + 1)
    ensures StepsLeft(db, sys, n) >= 0 && StepsLeft(db, Do(h, db, sys, a), n + 1) >= 0
    ensures var sys' := Do(h, db, sys, a);
            if sys.history == [] then sys'.history != [] || StepsLeft(db, sys', n + 1) < StepsLeft(db, sys, n)
            else sys'.history != [] && StepsLeft(db, sys', n + 1) < StepsLeft(db, sys, n)
  {
    assert sys.history != [] ==> Do(h, db, sys, a).history == sys.history;
    hide Spent, Do, Inv, Lost, Enabled, FaultFree;
    SpentIsLive(h, db, sys, n);
    SpentStep(h, db, sys, n, a);
    SpentIsLive(h, db, Do(h, db, sys, a), n + 1);
  }

  /** From wherever a fault-free pull has come, it can be completed without other sessions. */
  lemma {:induction false} CanFinish(h: Hash, db: LocalDb, sys: PullSys, n: int) returns (actions: seq<Action>)
    requires Spent(h, db, sys, n)
    ensures IsRun(h, db, sys, actions) && After(h, db, sys, actions).client.phase.Synced?
    ensures forall a | a in actions :: !a.Other?
    decreases sys.history == [], StepsLeft(db, sys, n)
  {
    if sys.client.phase.Synced? {
      actions := [];
    } else {
      hide Spent, Do, Enabled, FaultFree, StepsLeft;
      var a := NeverStuck(h, db, sys, n);
      StepsRunOut(h, db, sys, n, a);
      var rest := CanFinish(h, db, Do(h, db, sys, a), n + 1);
      actions := [a] + rest;
      assert actions[1..] == rest;
    }
  }

  /** Every pull can complete, and then `Exact` says with what. */
  lemma {:induction false} Completes(h: Hash, store0: Store, db: LocalDb) returns (actions: seq<Action>)
    ensures IsRun(h, db, Init(store0, db), actions) && After(h, db, Init(store0, db), actions).client.phase.Synced?
    ensures forall a | a in actions :: !a.Other?
  {
    assert Greeting(db, Init(store0, db));
    actions := CanFinish(h, db, Init(store0, db), 0);
  }
}
