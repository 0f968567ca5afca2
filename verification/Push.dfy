/** What a push guarantees, for every database, every initial store, every hash function and
    every run: every interleaving, every drain timing and every point of failure. */
module Push {
  import opened Protocol
  import opened PageStore
  import opened SyncSpec
  import opened Session
  import opened SyncClient
  import opened Link
  import opened PushSystem
  import opened PushProof

  // ----- Every step keeps the invariant -----

  function GreetingRank(db: LocalDb, sys: PushSys): int {
    5 * |db| + if sys.client.phase.Connecting? then 6 else if sys.c2s != [] then 5 else 4
  }

  /** `n` bounds the fault-free steps this push can still take. */
  ghost predicate Ranked(h: Hash, store0: Store, db: LocalDb, sys: PushSys, n: int) {
    || (Greeting(store0, db, sys) && n == GreetingRank(db, sys))
    || (exists v :: Syncing(h, store0, db, sys, v) && n == Rank(db, sys, v))
  }

  const FIRST_VIEW := View(1, false, [], [], false, {}, 0)

  lemma {:induction false} GreetingEnds(h: Hash, store0: Store, db: LocalDb, sys: PushSys)
    requires Greeting(store0, db, sys) && Enabled(db, sys, Client(ReadReply))
    ensures Syncing(h, store0, db, Do(h, db, sys, Client(ReadReply)), FIRST_VIEW)
    ensures Rank(db, Do(h, db, sys, Client(ReadReply)), FIRST_VIEW) < GreetingRank(db, sys)
  {
    assert sys.s2c[0] == HelloReply(PROTOCOL_VERSION, DEFAULT_PAGE_SIZE, MaxPage(store0));
    assert store0 + LocalPages(h, db, {}) == store0;
    assert DifferingBelow(h, store0, db, 1) == {};
  }

  lemma {:induction false} HelloArrives(h: Hash, store0: Store, db: LocalDb, sys: PushSys, a: Action)
    requires Greeting(store0, db, sys) && Enabled(db, sys, a) && a.Server?
    ensures (Greeting(store0, db, Do(h, db, sys, a)) && GreetingRank(db, Do(h, db, sys, a)) < GreetingRank(db, sys))
            || (!FaultFree(a) && Broken(h, store0, db, Do(h, db, sys, a), {}))
  {
    HelloEffect(h, WorldOf(sys, a), |db|);
    hide Apply;
    assert store0 + LocalPages(h, db, {}) == store0;
    var sys' := Do(h, db, sys, a);
    var reply := HelloReply(PROTOCOL_VERSION, DEFAULT_PAGE_SIZE, MaxPage(store0));
    assert ServerStep(h, sys, a.storeCredit, a.sendCredit).error.None? ==> sys'.s2c == [reply];
  }

  lemma {:induction false} GreetingStep(h: Hash, store0: Store, db: LocalDb, sys: PushSys, a: Action)
    requires Greeting(store0, db, sys) && Enabled(db, sys, a)
    ensures Inv(h, store0, db, Do(h, db, sys, a))
    ensures FaultFree(a) ==> exists n :: Ranked(h, store0, db, Do(h, db, sys, a), n) && n < GreetingRank(db, sys)
  {
    var sys' := Do(h, db, sys, a);
    if a == Client(ReadReply) {
      GreetingEnds(h, store0, db, sys);
      assert Ranked(h, store0, db, sys', Rank(db, sys', FIRST_VIEW));
    } else {
      if a.Server? {
        HelloArrives(h, store0, db, sys, a);
      } else {
        assert a == Client(SendHello);
        assert Greeting(store0, db, sys');
      }
      assert Greeting(store0, db, sys') ==> Ranked(h, store0, db, sys', GreetingRank(db, sys'));
    }
  }

  lemma {:induction false} SyncingStep(h: Hash, store0: Store, db: LocalDb, sys: PushSys, v: View, a: Action)
    requires Syncing(h, store0, db, sys, v) && Enabled(db, sys, a)
    ensures Inv(h, store0, db, Do(h, db, sys, a))
    ensures FaultFree(a) ==> exists n :: Ranked(h, store0, db, Do(h, db, sys, a), n) && n < Rank(db, sys, v)
  {
    hide Syncing, Broken, Greeting, Apply;
    var sys' := Do(h, db, sys, a);
    if a.Client? {
      var v' := ClientAdvances(h, store0, db, sys, v, a.act);
      assert Ranked(h, store0, db, sys', Rank(db, sys', v'));
    } else {
      var v', written := ServerMoves(h, store0, db, sys, v, a);
      assert sys' == Settle(sys, ServerStep(h, sys, a.storeCredit, a.sendCredit));
      if Syncing(h, store0, db, sys', v') {
        assert Ranked(h, store0, db, sys', Rank(db, sys', v'));
      }
    }
  }

  lemma {:induction false} BrokenStep(h: Hash, store0: Store, db: LocalDb, sys: PushSys, a: Action, written: set<nat>)
    requires Broken(h, store0, db, sys, written) && Enabled(db, sys, a)
    ensures Broken(h, store0, db, Do(h, db, sys, a), written)
  {
  }

  lemma {:induction false} InvStep(h: Hash, store0: Store, db: LocalDb, sys: PushSys, a: Action)
    requires Inv(h, store0, db, sys) && Enabled(db, sys, a)
    ensures Inv(h, store0, db, Do(h, db, sys, a))
  {
    hide Greeting, Syncing, Broken, Do;
    if Greeting(store0, db, sys) {
      GreetingStep(h, store0, db, sys, a);
    } else if exists v :: Syncing(h, store0, db, sys, v) {
      var v :| Syncing(h, store0, db, sys, v);
      SyncingStep(h, store0, db, sys, v, a);
    } else {
      var written :| Broken(h, store0, db, sys, written);
      BrokenStep(h, store0, db, sys, a, written);
    }
  }

  lemma {:induction false} InvAfter(h: Hash, store0: Store, db: LocalDb, sys: PushSys, actions: seq<Action>)
    requires Inv(h, store0, db, sys) && IsRun(h, db, sys, actions)
    ensures Inv(h, store0, db, After(h, db, sys, actions))
    decreases |actions|
  {
    hide Inv, Do;
    if actions != [] {
      InvStep(h, store0, db, sys, actions[0]);
      InvAfter(h, store0, db, Do(h, db, sys, actions[0]), actions[1..]);
    }
  }

  // ----- Safety -----

  /** Convergence: when the client receives SyncComplete, the store is exactly the initial one
      overlaid with the client's differing pages, and the reported totals are the number and
      the size of those pages. */
  lemma {:induction false} Converges(h: Hash, store0: Store, db: LocalDb, actions: seq<Action>)
    requires IsRun(h, db, Init(store0), actions)
    requires After(h, db, Init(store0), actions).client.phase.Synced?
    ensures var end := After(h, db, Init(store0), actions);
            && end.store == Overlay(h, store0, db)
            && end.server == Finished
            && end.client.phase == Synced(|Differing(h, store0, db)|,
                                          Wrap64(DifferingBytes(h, store0, db, |db| + 1)))
  {
    InvAfter(h, store0, db, Init(store0), actions);
    var end := After(h, db, Init(store0), actions);
    var v :| Syncing(h, store0, db, end, v);
    SyncedMeans(h, store0, db, end, v);
    DifferingIsSmall(h, store0, db);
  }

  lemma {:induction false} SyncedMeans(h: Hash, store0: Store, db: LocalDb, end: PushSys, v: View)
    requires Syncing(h, store0, db, end, v) && end.client.phase.Synced?
    ensures v.written == Differing(h, store0, db)
    ensures end.store == Overlay(h, store0, db)
    ensures end.server == Finished
    ensures end.client.phase == Synced(Wrap64(|v.written|), Wrap64(DifferingBytes(h, store0, db, |db| + 1)))
  {
    hide QueuesFit, Conserved, Wrap64, LocalPages, DifferingBytes;
    NothingAwaited(end.fsm.pendingRequests, end.client, v);
  }

  /** Nothing is awaited exactly when nothing is in flight. */
  lemma {:induction false} NothingAwaited(awaited: set<nat>, client: PushClient, v: View)
    requires Conserved(awaited, client, v)
    ensures awaited == {} <==> v.reqs == [] && client.pending == [] && v.datas == []
  {
    if awaited == {} {
      assert |multiset(v.reqs) + multiset(client.pending) + multiset(v.datas)| == 0;
      assert |multiset(v.reqs)| == |v.reqs| && |multiset(v.datas)| == |v.datas|;
      assert |multiset(client.pending)| == |client.pending|;
    }
    if v.reqs == [] && client.pending == [] && v.datas == [] {
      forall k ensures k !in awaited {
        assert k in awaited <==> k in multiset(awaited);
      }
    }
  }

  /** A set of pages of the database is no larger than the database. */
  lemma {:induction false} DifferingIsSmall(h: Hash, store: Store, db: LocalDb)
    ensures |Differing(h, store, db)| <= |db|
    ensures Wrap64(|Differing(h, store, db)|) == |Differing(h, store, db)|
  {
    BelowIsSmall(h, store, db, |db| + 1);
  }

  lemma {:induction false} BelowIsSmall(h: Hash, store: Store, db: LocalDb, end: nat)
    requires 1 <= end
    ensures |DifferingBelow(h, store, db, end)| < end
    decreases end
  {
    if end == 1 {
      assert DifferingBelow(h, store, db, end) == {};
    } else {
      BelowIsSmall(h, store, db, end - 1);
      assert DifferingBelow(h, store, db, end)
             == DifferingBelow(h, store, db, end - 1)
                + if end - 1 in DifferingBelow(h, store, db, end) then {end - 1} else {};
    }
  }

  /** With pages of at most 65536 bytes, SQLite's largest, the byte counter never wraps. */
  lemma {:induction false} BytesFit(h: Hash, store: Store, db: LocalDb, end: nat)
    requires forall k | HasPage(db, k) :: |PageAt(db, k)| <= 65536
    ensures DifferingBytes(h, store, db, end) <= 65536 * end
    ensures end <= |db| + 1 ==> Wrap64(DifferingBytes(h, store, db, end)) == DifferingBytes(h, store, db, end)
    decreases end
  {
    if end > 1 {
      BytesFit(h, store, db, end - 1);
      assert |PageAt(db, end - 1)| <= 65536;
    }
  }

  /** At any moment of any run, whatever has failed, each page of the store is the old one or
      the client's, only pages that differed have been replaced, and the counter says how many. */
  lemma {:induction false} AnyPrefixIsSafe(h: Hash, store0: Store, db: LocalDb, actions: seq<Action>)
    returns (written: set<nat>)
    requires IsRun(h, db, Init(store0), actions)
    ensures var end := After(h, db, Init(store0), actions);
            && written <= Differing(h, store0, db)
            && end.store == store0 + LocalPages(h, db, written)
            && end.fsm.pagesTransferred == |written|
  {
    InvAfter(h, store0, db, Init(store0), actions);
    var end := After(h, db, Init(store0), actions);
    DifferingIsSmall(h, store0, db);
    if Greeting(store0, db, end) {
      written := {};
      assert store0 + LocalPages(h, db, {}) == store0;
    } else if exists v :: Syncing(h, store0, db, end, v) {
      var v :| Syncing(h, store0, db, end, v);
      SyncingMeans(h, store0, db, end, v);
      written := v.written;
    } else {
      written :| Broken(h, store0, db, end, written);
    }
    SubsetIsSmall(written, Differing(h, store0, db));
  }

  lemma {:induction false} SubsetIsSmall(a: set<nat>, b: set<nat>)
    requires a <= b
    ensures |a| <= |b|
    ensures |b - a| == |b| - |a|
  {
    assert b == a + (b - a);
  }

  /** The pages named by the requests, or carried by the data frames, of a queue. */
  function RequestsIn(frames: seq<SyncMessage>): multiset<nat> {
    if frames == [] then multiset{}
    else (if frames[0].RequestPage? then multiset{frames[0].pageNo} else multiset{}) + RequestsIn(frames[1..])
  }

  function DataIn(frames: seq<SyncMessage>): multiset<nat> {
    if frames == [] then multiset{}
    else (if frames[0].PageData? then multiset{frames[0].pageNo} else multiset{}) + DataIn(frames[1..])
  }

  lemma {:induction false} RequestsInAppend(a: seq<SyncMessage>, b: seq<SyncMessage>)
    ensures RequestsIn(a + b) == RequestsIn(a) + RequestsIn(b)
    ensures DataIn(a + b) == DataIn(a) + DataIn(b)
    decreases |a|
  {
    if a == [] {
      assert a + b == b;
    } else {
      assert (a + b)[1..] == a[1..] + b;
      RequestsInAppend(a[1..], b);
    }
  }

  lemma {:induction false} RequestsInRequests(ks: seq<nat>)
    ensures RequestsIn(RequestFrames(ks)) == multiset(ks)
    decreases |ks|
  {
    if ks != [] {
      assert RequestFrames(ks)[1..] == RequestFrames(ks[1..]);
      RequestsInRequests(ks[1..]);
      Uncons(ks);
    }
  }

  lemma {:induction false} DataInData(db: LocalDb, ks: seq<nat>)
    ensures DataIn(DataFrames(db, ks)) == multiset(ks)
    decreases |ks|
  {
    if ks != [] {
      assert DataFrames(db, ks)[1..] == DataFrames(db, ks[1..]);
      DataInData(db, ks[1..]);
      Uncons(ks);
    }
  }

  lemma {:induction false} NoDataInHashes(h: Hash, db: LocalDb, lo: nat, hi: nat)
    requires lo <= hi
    ensures DataIn(HashFrames(h, db, lo, hi)) == multiset{}
    decreases hi - lo
  {
    if lo < hi {
      HashFramesUncons(h, db, lo, hi);
      assert HashFrames(h, db, lo, hi)[1..] == HashFrames(h, db, lo + 1, hi);
      NoDataInHashes(h, db, lo + 1, hi);
    }
  }

  /** In-flight conservation: as long as the server has not failed, the pages it awaits are,
      each exactly once, the requests on their way, the client's queue and the data on its way;
      and all of them are pages the client has announced. */
  lemma {:induction false} Conservation(h: Hash, store0: Store, db: LocalDb, actions: seq<Action>)
    requires IsRun(h, db, Init(store0), actions)
    requires !After(h, db, Init(store0), actions).server.Failed?
    ensures var s := After(h, db, Init(store0), actions);
            && multiset(s.fsm.pendingRequests) == RequestsIn(s.s2c) + multiset(s.client.pending) + DataIn(s.c2s)
            && forall k | k in s.fsm.pendingRequests :: HasPage(db, k) && k < s.client.nextPage
  {
    InvAfter(h, store0, db, Init(store0), actions);
    var s := After(h, db, Init(store0), actions);
    hide IsRun, After, Init;
    if !Greeting(store0, db, s) {
      var v :| Syncing(h, store0, db, s, v);
      hide QueuesFit, TotalsFit;
      QueuesHold(h, db, s, v);
    }
  }

  lemma {:induction false} QueuesHold(h: Hash, db: LocalDb, s: PushSys, v: View)
    requires QueuesFit(h, db, s, v)
    ensures RequestsIn(s.s2c) == multiset(v.reqs)
    ensures DataIn(s.c2s) == multiset(v.datas)
  {
    RequestsInReplies(v.reqs, v.finish, SyncComplete(s.fsm.pagesTransferred, s.fsm.bytesTransferred));
    DataInFrames(h, db, v.lo, s.client.nextPage, v.complete, v.datas);
    hide RequestsIn, DataIn, HashFrames, DataFrames, RequestFrames;
  }

  lemma {:induction false} RequestsInReplies(ks: seq<nat>, finish: bool, last: SyncMessage)
    requires last.SyncComplete?
    ensures RequestsIn(RequestFrames(ks) + Only(finish, last)) == multiset(ks)
  {
    RequestsInAppend(RequestFrames(ks), Only(finish, last));
    RequestsInRequests(ks);
  }

  lemma {:induction false} DataInFrames(h: Hash, db: LocalDb, lo: nat, hi: nat, complete: bool, ks: seq<nat>)
    requires lo <= hi
    ensures DataIn(HashFrames(h, db, lo, hi) + Only(complete, Complete) + DataFrames(db, ks)) == multiset(ks)
  {
    RequestsInAppend(HashFrames(h, db, lo, hi) + Only(complete, Complete), DataFrames(db, ks));
    RequestsInAppend(HashFrames(h, db, lo, hi), Only(complete, Complete));
    NoDataInHashes(h, db, lo, hi);
    DataInData(db, ks);
  }

  // ----- Progress -----

  lemma {:induction false} RankedIsBounded(h: Hash, store0: Store, db: LocalDb, sys: PushSys, n: int)
    requires Ranked(h, store0, db, sys, n)
    ensures n >= 0 && Inv(h, store0, db, sys)
    ensures !sys.server.Failed? && !sys.client.phase.Aborted?
  {
  }

  /** Without faults no peer ever fails, and every step uses up rank. */
  lemma {:induction false} RankedRun(h: Hash, store0: Store, db: LocalDb, sys: PushSys, n: int, actions: seq<Action>)
    returns (m: int)
    requires Ranked(h, store0, db, sys, n) && IsRun(h, db, sys, actions)
    requires forall a | a in actions :: FaultFree(a)
    ensures Ranked(h, store0, db, After(h, db, sys, actions), m) && |actions| + m <= n
    decreases |actions|
  {
    m := n;
    if actions != [] {
      m := RankedStep(h, store0, db, sys, n, actions[0]);
      hide Ranked, Do;
      m := RankedRun(h, store0, db, Do(h, db, sys, actions[0]), m, actions[1..]);
    }
  }

  lemma {:induction false} RankedStep(h: Hash, store0: Store, db: LocalDb, sys: PushSys, n: int, a: Action)
    returns (m: int)
    requires Ranked(h, store0, db, sys, n) && Enabled(db, sys, a) && FaultFree(a)
    ensures Ranked(h, store0, db, Do(h, db, sys, a), m) && m < n
  {
    hide Greeting, Syncing, Do;
    if Greeting(store0, db, sys) && n == GreetingRank(db, sys) {
      GreetingStep(h, store0, db, sys, a);
    } else {
      var v :| Syncing(h, store0, db, sys, v) && n == Rank(db, sys, v);
      SyncingStep(h, store0, db, sys, v, a);
    }
    m :| Ranked(h, store0, db, Do(h, db, sys, a), m) && m < n;
  }

  /** Until the client has its SyncComplete, somebody can always move. */
  lemma {:induction false} NeverStuck(h: Hash, store0: Store, db: LocalDb, sys: PushSys, n: int) returns (a: Action)
    requires Ranked(h, store0, db, sys, n) && !sys.client.phase.Synced?
    ensures Enabled(db, sys, a) && FaultFree(a)
  {
    hide Syncing;
    if Greeting(store0, db, sys) {
      a := if sys.client.phase.Connecting? then Client(SendHello)
           else if sys.c2s != [] then Server(Unlimited, Unlimited) else Client(ReadReply);
    } else {
      var v :| Syncing(h, store0, db, sys, v);
      a := SyncingCanMove(h, store0, db, sys, v);
    }
  }

  lemma {:induction false} SyncingCanMove(h: Hash, store0: Store, db: LocalDb, sys: PushSys, v: View)
    returns (a: Action)
    requires Syncing(h, store0, db, sys, v) && !sys.client.phase.Synced?
    ensures Enabled(db, sys, a) && FaultFree(a)
  {
    hide QueuesFit, Conserved, StoreFits, TotalsFit;
    if sys.client.phase.Hashing? {
      a := if sys.client.nextPage <= |db| then Client(SendHash) else Client(SendComplete);
    } else if sys.client.pending != [] {
      a := Client(Serve);
    } else if sys.s2c != [] {
      a := Client(Read);
    } else {
      SilenceIsTheServersTurn(h, db, sys, v);
      a := Server(Unlimited, Unlimited);
    }
  }

  /** A draining client with nothing to serve and nothing to read has left work for the server. */
  lemma {:induction false} SilenceIsTheServersTurn(h: Hash, db: LocalDb, sys: PushSys, v: View)
    requires QueuesFit(h, db, sys, v) && PhasesFit(db, sys, v) && Conserved(sys.fsm.pendingRequests, sys.client, v)
    requires sys.client.phase.Draining? && sys.client.pending == [] && sys.s2c == []
    ensures sys.server.Open? && sys.c2s != []
  {
    assert v.reqs == [] && !v.finish by {
      assert |sys.s2c| == |v.reqs| + |Only(v.finish, Complete)|;
    }
    assert sys.c2s == [] ==> v.datas == [] && v.lo == sys.client.nextPage && !v.complete;
    NothingAwaited(sys.fsm.pendingRequests, sys.client, v);
    hide QueuesFit, Conserved;
  }

  /** Progress and termination: a run without faults takes at most 5n + 6 steps for n pages;
      no peer aborts or fails on the way; and a run that cannot be continued has delivered
      SyncComplete, with the store converged. */
  lemma {:induction false} Terminates(h: Hash, store0: Store, db: LocalDb, actions: seq<Action>)
    requires IsRun(h, db, Init(store0), actions)
    requires forall a | a in actions :: FaultFree(a)
    ensures var end := After(h, db, Init(store0), actions);
            && |actions| <= 5 * |db| + 6
            && !end.client.phase.Aborted? && !end.server.Failed?
            && ((forall a | FaultFree(a) :: !Enabled(db, end, a)) ==>
                  end.client.phase.Synced? && end.store == Overlay(h, store0, db))
  {
    var start := Init(store0);
    assert Ranked(h, store0, db, start, GreetingRank(db, start));
    var m := RankedRun(h, store0, db, start, GreetingRank(db, start), actions);
    var end := After(h, db, start, actions);
    RankedIsBounded(h, store0, db, end, m);
    if end.client.phase.Synced? {
      Converges(h, store0, db, actions);
    } else {
      var a := NeverStuck(h, store0, db, end, m);
    }
  }

  /** From wherever a fault-free push has come, it can be completed. */
  lemma {:induction false} CanFinish(h: Hash, store0: Store, db: LocalDb, sys: PushSys, n: int)
    returns (actions: seq<Action>)
    requires Ranked(h, store0, db, sys, n)
    ensures IsRun(h, db, sys, actions) && After(h, db, sys, actions).client.phase.Synced?
    decreases n
  {
    RankedIsBounded(h, store0, db, sys, n);
    hide Ranked, Do, Inv, FaultFree;
    if sys.client.phase.Synced? {
      actions := [];
    } else {
      var a := NeverStuck(h, store0, db, sys, n);
      var m := RankedStep(h, store0, db, sys, n, a);
      RankedIsBounded(h, store0, db, Do(h, db, sys, a), m);
      var rest := CanFinish(h, store0, db, Do(h, db, sys, a), m);
      actions := [a] + rest;
      assert actions[1..] == rest;
    }
  }

  /** Every push can complete. */
  lemma {:induction false} Completes(h: Hash, store0: Store, db: LocalDb) returns (actions: seq<Action>)
    ensures IsRun(h, db, Init(store0), actions) && After(h, db, Init(store0), actions).client.phase.Synced?
  {
    assert Ranked(h, store0, db, Init(store0), GreetingRank(db, Init(store0)));
    actions := CanFinish(h, store0, db, Init(store0), GreetingRank(db, Init(store0)));
  }

  // ----- Resuming and repeating -----

  /** After some of the differing pages were written, exactly the others still differ. */
  lemma {:induction false} StillDiffering(h: Hash, store0: Store, db: LocalDb, written: set<nat>)
    requires written <= Differing(h, store0, db)
    ensures var store := store0 + LocalPages(h, db, written);
            && Differing(h, store, db) == Differing(h, store0, db) - written
            && Overlay(h, store, db) == Overlay(h, store0, db)
  {
    var store := store0 + LocalPages(h, db, written);
    forall k: nat | HasPage(db, k)
      ensures Differs(h, store, db, k) <==> Differs(h, store0, db, k) && k !in written
    {
    }
    assert Differing(h, store, db) == Differing(h, store0, db) - written;
    assert Overlay(h, store, db).Keys == Overlay(h, store0, db).Keys;
  }

  /** Resumability: cut the first push anywhere, for any reason; a second push that completes
      leaves the store an uninterrupted push would have left, and together they move exactly
      the pages that differed at the start. */
  lemma {:induction false} Resumes(h: Hash, store0: Store, db: LocalDb, first: seq<Action>, second: seq<Action>)
    requires IsRun(h, db, Init(store0), first)
    requires IsRun(h, db, Init(After(h, db, Init(store0), first).store), second)
    requires After(h, db, Init(After(h, db, Init(store0), first).store), second).client.phase.Synced?
    ensures var cut := After(h, db, Init(store0), first);
            var end := After(h, db, Init(cut.store), second);
            && end.store == Overlay(h, store0, db)
            && cut.fsm.pagesTransferred + end.client.phase.pages == |Differing(h, store0, db)|
  {
    var cut := After(h, db, Init(store0), first);
    var written := AnyPrefixIsSafe(h, store0, db, first);
    StillDiffering(h, store0, db, written);
    SubsetIsSmall(written, Differing(h, store0, db));
    Converges(h, cut.store, db, second);
  }

  /** Repeating a completed push reports 0 pages and 0 bytes and changes nothing. */
  lemma {:induction false} RepeatIsIdle(h: Hash, store0: Store, db: LocalDb, actions: seq<Action>)
    requires IsRun(h, db, Init(Overlay(h, store0, db)), actions)
    requires After(h, db, Init(Overlay(h, store0, db)), actions).client.phase.Synced?
    ensures var end := After(h, db, Init(Overlay(h, store0, db)), actions);
            end.client.phase == Synced(0, 0) && end.store == Overlay(h, store0, db)
  {
    var store := Overlay(h, store0, db);
    StillDiffering(h, store0, db, Differing(h, store0, db));
    Converges(h, store, db, actions);
    NoDifferenceNoBytes(h, store, db, |db| + 1);
    assert store + LocalPages(h, db, {}) == store;
  }

  lemma {:induction false} NoDifferenceNoBytes(h: Hash, store: Store, db: LocalDb, end: nat)
    requires end <= |db| + 1 && Differing(h, store, db) == {}
    ensures DifferingBytes(h, store, db, end) == 0
    decreases end
  {
    if end > 1 {
      NoDifferenceNoBytes(h, store, db, end - 1);
      assert end - 1 !in Differing(h, store, db);
    }
  }

  /** Equal hashes are equal bytes when the hash tells the pages in play apart: then a
      completed push leaves the client's bytes at every one of its page numbers. */
  lemma {:induction false} OverlayHoldsTheBytes(h: Hash, store0: Store, db: LocalDb, k: nat)
    requires Intact(h, store0) && HasPage(db, k)
    requires k in store0 && DigestOf(h, store0[k].data) == HashAt(h, db, k) ==> store0[k].data == PageAt(db, k)
    ensures k in Overlay(h, store0, db)
    ensures Overlay(h, store0, db)[k] == Page(PageAt(db, k), HashAt(h, db, k))
  {
  }
}
