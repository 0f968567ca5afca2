/** Every step of a push keeps the invariant of PushSystem. */
module PushProof {
  import opened Protocol
  import opened PageStore
  import opened SyncSpec
  import opened Session
  import opened SyncClient
  import opened Link
  import opened PushSystem

  // ----- Lists in flight -----

  lemma {:induction false} SizeSumSnoc(db: LocalDb, ks: seq<nat>, k: nat)
    ensures SizeSum(db, ks + [k]) == SizeSum(db, ks) + |PageAt(db, k)|
  {
    if ks == [] {
      assert ks + [k] == [k];
    } else {
      assert (ks + [k])[1..] == ks[1..] + [k];
      SizeSumSnoc(db, ks[1..], k);
    }
  }

  lemma {:induction false} Uncons(ks: seq<nat>)
    requires ks != []
    ensures multiset(ks) == multiset{ks[0]} + multiset(ks[1..])
  {
    assert ks == [ks[0]] + ks[1..];
  }

  /** Moving a page from the head of one in-flight list to the tail of another loses nothing. */
  lemma {:induction false} MovePage(db: LocalDb, from: seq<nat>, to: seq<nat>)
    requires from != []
    ensures multiset(from) + multiset(to) == multiset(from[1..]) + multiset(to + [from[0]])
    ensures SizeSum(db, from) + SizeSum(db, to) == SizeSum(db, from[1..]) + SizeSum(db, to + [from[0]])
  {
    Uncons(from);
    SizeSumSnoc(db, to, from[0]);
  }

  /** Pages in flight are pages the client has. */
  lemma {:induction false} FlightIsLocal(h: Hash, store0: Store, db: LocalDb, sys: PushSys, v: View, k: nat)
    requires Conserved(sys.fsm.pendingRequests, sys.client, v) && StoreFits(h, store0, db, sys, v)
    requires k in v.reqs || k in sys.client.pending || k in v.datas
    ensures HasPage(db, k) && k in sys.fsm.pendingRequests
  {
    assert k in multiset(v.reqs) || k in multiset(sys.client.pending) || k in multiset(v.datas);
    assert k in multiset(sys.fsm.pendingRequests);
  }

  // ----- Client steps -----

  lemma {:induction false} SendHashQueues(h: Hash, db: LocalDb, sys: PushSys, v: View)
    requires QueuesFit(h, db, sys, v) && Enabled(db, sys, Client(SendHash)) && !v.complete && v.datas == []
    ensures QueuesFit(h, db, Do(h, db, sys, Client(SendHash)), v)
  {
    HashFramesSnoc(h, db, v.lo, sys.client.nextPage);
  }

  lemma {:induction false} SendHashKeeps(h: Hash, store0: Store, db: LocalDb, sys: PushSys, v: View)
    requires Syncing(h, store0, db, sys, v) && Enabled(db, sys, Client(SendHash))
    ensures Syncing(h, store0, db, Do(h, db, sys, Client(SendHash)), v)
  {
    SendHashQueues(h, db, sys, v);
  }

  lemma {:induction false} SendCompleteKeeps(h: Hash, store0: Store, db: LocalDb, sys: PushSys, v: View)
    requires Syncing(h, store0, db, sys, v) && Enabled(db, sys, Client(SendComplete))
    ensures Syncing(h, store0, db, Do(h, db, sys, Client(SendComplete)), v.(complete := true))
  {
  }

  lemma {:induction false} ServeQueues(h: Hash, db: LocalDb, sys: PushSys, v: View)
    requires QueuesFit(h, db, sys, v) && Enabled(db, sys, Client(Serve))
    requires HasPage(db, sys.client.pending[0])
    ensures Do(h, db, sys, Client(Serve)).client == sys.client.(pending := sys.client.pending[1..])
    ensures QueuesFit(h, db, Do(h, db, sys, Client(Serve)), v.(datas := v.datas + [sys.client.pending[0]]))
  {
    var k := sys.client.pending[0];
    assert DataFrames(db, v.datas + [k]) == DataFrames(db, v.datas) + [PageData(k, PageAt(db, k))];
  }

  lemma {:induction false} ServeKeeps(h: Hash, store0: Store, db: LocalDb, sys: PushSys, v: View)
    requires Syncing(h, store0, db, sys, v) && Enabled(db, sys, Client(Serve))
    ensures Syncing(h, store0, db, Do(h, db, sys, Client(Serve)), v.(datas := v.datas + [sys.client.pending[0]]))
  {
    hide QueuesFit, Conserved, LocalPages, Wrap64, SizeSum, DifferingBytes;
    FlightIsLocal(h, store0, db, sys, v, sys.client.pending[0]);
    ServeQueues(h, db, sys, v);
    MovePage(db, sys.client.pending, v.datas);
    ServeConserves(sys.fsm.pendingRequests, sys.client, v);
  }

  lemma {:induction false} ServeConserves(awaited: set<nat>, client: PushClient, v: View)
    requires Conserved(awaited, client, v) && client.pending != []
    ensures Conserved(awaited, client.(pending := client.pending[1..]), v.(datas := v.datas + [client.pending[0]]))
  {
    Uncons(client.pending);
    assert multiset(v.datas + [client.pending[0]]) == multiset(v.datas) + multiset{client.pending[0]};
  }

  lemma {:induction false} RequestQueues(h: Hash, db: LocalDb, sys: PushSys, v: View, act: PushAction)
    requires QueuesFit(h, db, sys, v) && Enabled(db, sys, Client(act))
    requires act == DrainOne || act == Read
    requires v.reqs != []
    ensures Do(h, db, sys, Client(act)).client == sys.client.(pending := sys.client.pending + [v.reqs[0]])
    ensures QueuesFit(h, db, Do(h, db, sys, Client(act)), v.(reqs := v.reqs[1..]))
  {
    assert sys.s2c[0] == RequestPage(v.reqs[0]);
    assert RequestFrames(v.reqs)[1..] == RequestFrames(v.reqs[1..]);
  }

  /** Reading a request, while hashing or while draining. */
  lemma {:induction false} RequestKeeps(h: Hash, store0: Store, db: LocalDb, sys: PushSys, v: View, act: PushAction)
    requires Syncing(h, store0, db, sys, v) && Enabled(db, sys, Client(act))
    requires act == DrainOne || act == Read
    requires v.reqs != []
    ensures Syncing(h, store0, db, Do(h, db, sys, Client(act)), v.(reqs := v.reqs[1..]))
  {
    RequestQueues(h, db, sys, v, act);
    MovePage(db, v.reqs, sys.client.pending);
  }

  lemma {:induction false} FinishQueues(h: Hash, db: LocalDb, sys: PushSys, v: View)
    requires QueuesFit(h, db, sys, v) && Enabled(db, sys, Client(Read))
    requires v.reqs == []
    ensures v.finish
    ensures Do(h, db, sys, Client(Read)) == sys.(client := sys.client.(phase :=
              Synced(sys.fsm.pagesTransferred, sys.fsm.bytesTransferred)), s2c := [])
  {
    assert sys.s2c == [SyncComplete(sys.fsm.pagesTransferred, sys.fsm.bytesTransferred)];
  }

  lemma {:induction false} FinishKeeps(h: Hash, store0: Store, db: LocalDb, sys: PushSys, v: View)
    requires Syncing(h, store0, db, sys, v) && Enabled(db, sys, Client(Read))
    requires v.reqs == []
    ensures Syncing(h, store0, db, Do(h, db, sys, Client(Read)), v.(finish := false))
  {
    FinishQueues(h, db, sys, v);
  }

  // ----- What the server does with each frame of a push -----

  predicate HashOutcome(w: World, k: nat, hash: Bytes, step: Step) {
    var seen := w.fsm.(clientSeen := w.fsm.clientSeen + {k});
    var asks := !(k in w.store && w.store[k].hash == hash);
    && (Reliable(w) ==> step.error.None?)
    && if step.error.Some? then Inert(w, step)
       else
         && step.world.store == w.store
         && step.world.fsm == (if asks then seen.(pendingRequests := seen.pendingRequests + {k}) else seen)
         && Frames(step.world.log) == Only(asks, RequestPage(k))
  }

  lemma {:induction false} HashEffect(h: Hash, w: World, k: nat, hash: Bytes)
    requires w.fsm.sawHello && w.fsm.direction.Push? && w.log == []
    ensures HashOutcome(w, k, hash, Apply(h, w, PageHash(k, hash)))
  {
    var e := Sent(RequestPage(k));
    FramesOfFew(e, e);
    assert [] + [e] == [e];
  }

  predicate CompleteOutcome(w: World, step: Step) {
    var opens := w.fsm.pendingRequests == {};
    && (Reliable(w) ==> step.error.None?)
    && if step.error.Some? then Inert(w, step)
       else
         && step.world.store == w.store
         && step.world.fsm == w.fsm.(completedHashPhase := true, emittedComplete := opens)
         && Frames(step.world.log) == Only(opens, SyncComplete(w.fsm.pagesTransferred, w.fsm.bytesTransferred))
  }

  lemma {:induction false} CompleteEffect(h: Hash, w: World)
    requires w.fsm.sawHello && w.fsm.direction.Push? && w.log == [] && !w.fsm.emittedComplete
    ensures CompleteOutcome(w, Apply(h, w, Complete))
  {
    GateEffect(w.(fsm := w.fsm.(completedHashPhase := true)));
    var e := Sent(SyncComplete(w.fsm.pagesTransferred, w.fsm.bytesTransferred));
    FramesOfFew(e, e);
    assert [] + [e] == [e];
  }

  predicate DataOutcome(h: Hash, w: World, k: nat, data: Bytes, step: Step) {
    var stored := w.store[k := Page(data, DigestOf(h, data))];
    var pages := Wrap64(w.fsm.pagesTransferred + 1);
    var bytes := Wrap64(w.fsm.bytesTransferred + |data|);
    && (Reliable(w) ==> step.error.None?)
    && if step.error.Some? then
         || Inert(w, step)
         || (Frames(step.world.log) == [] && step.world.store == stored && step.world.fsm.pagesTransferred == pages)
       else
         var pending := w.fsm.pendingRequests - {k};
         var opens := w.fsm.completedHashPhase && pending == {};
         && step.world.store == stored
         && step.world.fsm == w.fsm.(pendingRequests := pending, pagesTransferred := pages,
                                     bytesTransferred := bytes, emittedComplete := opens)
         && Frames(step.world.log) == Only(opens, SyncComplete(pages, bytes))
  }

  lemma {:induction false} StoreEffect(h: Hash, w: World, k: nat, data: Bytes)
    ensures var step := StorePage(h, w, k, data);
            && (Reliable(w) ==> step.error.None? && Reliable(step.world))
            && (step.error.Some? ==>
                  step.world.log == w.log && step.world.store == w.store
                  && step.world.fsm.pagesTransferred == w.fsm.pagesTransferred)
            && (step.error.None? ==>
                  && step.world.store == w.store[k := Page(data, DigestOf(h, data))]
                  && step.world.log == w.log + [Stored(k, |data|)]
                  && step.world.fsm == w.fsm.(pendingRequests := w.fsm.pendingRequests - {k},
                                              pagesTransferred := Wrap64(w.fsm.pagesTransferred + 1),
                                              bytesTransferred := Wrap64(w.fsm.bytesTransferred + |data|)))
  {
  }

  lemma {:induction false} DataEffect(h: Hash, w: World, k: nat, data: Bytes)
    requires w.fsm.sawHello && w.log == [] && !w.fsm.emittedComplete
    ensures DataOutcome(h, w, k, data, Apply(h, w, PageData(k, data)))
  {
    assert Apply(h, w, PageData(k, data)) == HandlePageData(h, w, k, data);
    StoreEffect(h, w, k, data);
    var stored := StorePage(h, w, k, data);
    hide StorePage, Apply, Wrap64;
    if stored.error.None? {
      StoredThenGate(h, w, k, data, stored.world);
      hide MaybeEmitComplete, DataOutcome;
    }
  }

  /** The gate after a page has been stored. */
  lemma {:induction false} StoredThenGate(h: Hash, w: World, k: nat, data: Bytes, stored: World)
    requires w.log == [] && !w.fsm.emittedComplete && (Reliable(w) ==> Reliable(stored))
    requires stored.store == w.store[k := Page(data, DigestOf(h, data))] && stored.log == [Stored(k, |data|)]
    requires stored.fsm == w.fsm.(pendingRequests := w.fsm.pendingRequests - {k},
                                  pagesTransferred := Wrap64(w.fsm.pagesTransferred + 1),
                                  bytesTransferred := Wrap64(w.fsm.bytesTransferred + |data|))
    ensures DataOutcome(h, w, k, data, MaybeEmitComplete(stored))
  {
    GateEffect(stored);
    hide MaybeEmitComplete, Wrap64;
    var e := Stored(k, |data|);
    var done := Sent(SyncComplete(stored.fsm.pagesTransferred, stored.fsm.bytesTransferred));
    FramesOfFew(e, done);
    assert [e] + [done] == [e, done];
    hide Frames;
  }

  // ----- Which frame comes next -----

  lemma {:induction false} NextIsHash(h: Hash, db: LocalDb, sys: PushSys, v: View)
    requires QueuesFit(h, db, sys, v) && v.lo < sys.client.nextPage
    ensures sys.c2s != [] && sys.c2s[0] == PageHash(v.lo, HashAt(h, db, v.lo))
    ensures QueuesFit(h, db, sys.(c2s := sys.c2s[1..]), v.(lo := v.lo + 1))
  {
    HashFramesUncons(h, db, v.lo, sys.client.nextPage);
    assert sys.c2s[1..]
           == HashFrames(h, db, v.lo + 1, sys.client.nextPage) + Only(v.complete, Complete) + DataFrames(db, v.datas);
  }

  lemma {:induction false} NextIsComplete(h: Hash, db: LocalDb, sys: PushSys, v: View)
    requires QueuesFit(h, db, sys, v) && v.lo == sys.client.nextPage && v.complete
    ensures sys.c2s != [] && sys.c2s[0] == Complete
    ensures QueuesFit(h, db, sys.(c2s := sys.c2s[1..]), v.(complete := false))
  {
    assert HashFrames(h, db, v.lo, v.lo) == [];
  }

  lemma {:induction false} NextIsData(h: Hash, db: LocalDb, sys: PushSys, v: View)
    requires QueuesFit(h, db, sys, v) && v.lo == sys.client.nextPage && !v.complete && sys.c2s != []
    ensures v.datas != []
    ensures sys.c2s[0] == PageData(v.datas[0], PageAt(db, v.datas[0]))
    ensures QueuesFit(h, db, sys.(c2s := sys.c2s[1..]), v.(datas := v.datas[1..]))
  {
    assert HashFrames(h, db, v.lo, v.lo) == [];
    assert sys.c2s == DataFrames(db, v.datas);
    assert DataFrames(db, v.datas)[1..] == DataFrames(db, v.datas[1..]);
  }

  // ----- Server steps that succeed, on the pieces of the state they change -----

  /** The state after the server found page `k` up to date. */
  function Matched(sys: PushSys, k: nat): PushSys
    requires sys.c2s != []
  {
    sys.(c2s := sys.c2s[1..], fsm := sys.fsm.(clientSeen := sys.fsm.clientSeen + {k}))
  }

  lemma {:induction false} HashMatched(h: Hash, store0: Store, db: LocalDb, sys: PushSys, v: View)
    requires Syncing(h, store0, db, sys, v) && v.lo < sys.client.nextPage
    requires !Differs(h, store0, db, v.lo)
    ensures sys.c2s != []
    ensures Syncing(h, store0, db, Matched(sys, v.lo), v.(lo := v.lo + 1))
  {
    hide Wrap64, LocalPages, SizeSum;
    NextIsHash(h, db, sys, v);
    assert DifferingBelow(h, store0, db, v.lo + 1) == DifferingBelow(h, store0, db, v.lo);
  }

  /** A differing page joins the pages seen and the pages awaited at once. */
  lemma {:induction false} AwaitOne(h: Hash, store0: Store, db: LocalDb, pending: set<nat>, k: nat)
    requires HasPage(db, k) && Differs(h, store0, db, k)
    requires pending <= DifferingBelow(h, store0, db, k)
    ensures pending + {k} <= DifferingBelow(h, store0, db, k + 1)
    ensures DifferingBelow(h, store0, db, k + 1) - (pending + {k}) == DifferingBelow(h, store0, db, k) - pending
    ensures multiset(pending + {k}) == multiset(pending) + multiset{k}
  {
    assert k !in pending;
  }

  /** The server's reply joins the queue; the totals it may carry are the current ones. */
  lemma {:induction false} ReplyQueues(h: Hash, db: LocalDb, sys: PushSys, v: View, fsm: Fsm, store: Store,
                                       server: Status, ks: seq<nat>, finish: bool)
    requires QueuesFit(h, db, sys, v) && !v.finish
    ensures QueuesFit(h, db,
              PushSys(sys.client, sys.c2s,
                      sys.s2c + RequestFrames(ks) + Only(finish, SyncComplete(fsm.pagesTransferred, fsm.bytesTransferred)),
                      fsm, store, server),
              v.(reqs := v.reqs + ks, finish := finish))
  {
    assert RequestFrames(v.reqs + ks) == RequestFrames(v.reqs) + RequestFrames(ks);
  }

  /** The state after the server asked for page `k`. */
  function Asked(sys: PushSys, k: nat): PushSys
    requires sys.c2s != []
  {
    PushSys(sys.client, sys.c2s[1..], sys.s2c + [RequestPage(k)],
            sys.fsm.(clientSeen := sys.fsm.clientSeen + {k}, pendingRequests := sys.fsm.pendingRequests + {k}),
            sys.store, sys.server)
  }

  lemma {:induction false} AskedQueues(h: Hash, db: LocalDb, sys: PushSys, v: View)
    requires QueuesFit(h, db, sys, v) && v.lo < sys.client.nextPage && !v.finish
    ensures sys.c2s != []
    ensures QueuesFit(h, db, Asked(sys, v.lo), v.(lo := v.lo + 1, reqs := v.reqs + [v.lo]))
  {
    hide QueuesFit;
    NextIsHash(h, db, sys, v);
    var k := v.lo;
    ReplyQueues(h, db, sys.(c2s := sys.c2s[1..]), v.(lo := k + 1), Asked(sys, k).fsm, sys.store, sys.server, [k], false);
    assert sys.s2c + RequestFrames([k]) + [] == sys.s2c + [RequestPage(k)];
  }

  lemma {:induction false} AskedStore(h: Hash, store0: Store, db: LocalDb, sys: PushSys, v: View)
    requires StoreFits(h, store0, db, sys, v) && HasPage(db, v.lo) && Differs(h, store0, db, v.lo) && sys.c2s != []
    ensures StoreFits(h, store0, db, Asked(sys, v.lo), v.(lo := v.lo + 1, reqs := v.reqs + [v.lo]))
    ensures Conserved(sys.fsm.pendingRequests, sys.client, v) ==>
              Conserved(Asked(sys, v.lo).fsm.pendingRequests, sys.client, v.(lo := v.lo + 1, reqs := v.reqs + [v.lo]))
  {
    AwaitOne(h, store0, db, sys.fsm.pendingRequests, v.lo);
    assert multiset(v.reqs + [v.lo]) == multiset(v.reqs) + multiset{v.lo};
  }

  lemma {:induction false} AskedTotals(h: Hash, store0: Store, db: LocalDb, sys: PushSys, v: View)
    requires TotalsFit(h, store0, db, sys, v) && v.lo >= 1 && Differs(h, store0, db, v.lo) && sys.c2s != []
    ensures TotalsFit(h, store0, db, Asked(sys, v.lo), v.(lo := v.lo + 1, reqs := v.reqs + [v.lo]))
  {
    SizeSumSnoc(db, v.reqs, v.lo);
    assert DifferingBytes(h, store0, db, v.lo + 1) == DifferingBytes(h, store0, db, v.lo) + |PageAt(db, v.lo)|;
    hide Wrap64, DifferingBytes, SizeSum;
  }

  lemma {:induction false} AskedPhases(db: LocalDb, sys: PushSys, v: View)
    requires PhasesFit(db, sys, v) && v.lo < sys.client.nextPage <= |db| + 1 && sys.c2s != []
    ensures PhasesFit(db, Asked(sys, v.lo), v.(lo := v.lo + 1, reqs := v.reqs + [v.lo]))
  {
  }

  lemma {:induction false} HashRequested(h: Hash, store0: Store, db: LocalDb, sys: PushSys, v: View)
    requires Syncing(h, store0, db, sys, v) && v.lo < sys.client.nextPage
    requires Differs(h, store0, db, v.lo)
    ensures sys.c2s != []
    ensures Syncing(h, store0, db, Asked(sys, v.lo), v.(lo := v.lo + 1, reqs := v.reqs + [v.lo]))
  {
    AskedQueues(h, db, sys, v);
    AskedStore(h, store0, db, sys, v);
    AskedTotals(h, store0, db, sys, v);
    AskedPhases(db, sys, v);
  }

  /** The state after the server learned that the hash phase is over. */
  function HashesOver(sys: PushSys): PushSys
    requires sys.c2s != []
  {
    var opens := sys.fsm.pendingRequests == {};
    PushSys(sys.client, sys.c2s[1..],
            sys.s2c + Only(opens, SyncComplete(sys.fsm.pagesTransferred, sys.fsm.bytesTransferred)),
            sys.fsm.(completedHashPhase := true, emittedComplete := opens), sys.store,
            if opens then Finished else Open)
  }

  lemma {:induction false} HashesOverQueues(h: Hash, db: LocalDb, sys: PushSys, v: View)
    requires QueuesFit(h, db, sys, v) && v.lo == sys.client.nextPage && v.complete && !v.finish
    ensures sys.c2s != []
    ensures QueuesFit(h, db, HashesOver(sys), v.(complete := false, finish := sys.fsm.pendingRequests == {}))
  {
    NextIsComplete(h, db, sys, v);
    var after := HashesOver(sys);
    ReplyQueues(h, db, sys.(c2s := sys.c2s[1..]), v.(complete := false), after.fsm, after.store, after.server, [],
                sys.fsm.pendingRequests == {});
    assert v.reqs + [] == v.reqs;
    assert sys.s2c + RequestFrames([]) == sys.s2c;
  }

  lemma {:induction false} CompleteArrived(h: Hash, store0: Store, db: LocalDb, sys: PushSys, v: View)
    requires Syncing(h, store0, db, sys, v) && v.lo == sys.client.nextPage && v.complete
    ensures sys.c2s != []
    ensures Syncing(h, store0, db, HashesOver(sys), v.(complete := false, finish := sys.fsm.pendingRequests == {}))
  {
    HashesOverQueues(h, db, sys, v);
    hide QueuesFit;
  }

  /** Data that arrives answers one awaited page. */
  lemma {:induction false} ArriveOne(awaited: set<nat>, client: PushClient, v: View)
    requires Conserved(awaited, client, v) && v.datas != []
    ensures v.datas[0] in awaited
    ensures Conserved(awaited - {v.datas[0]}, client, v.(datas := v.datas[1..]))
  {
    var k := v.datas[0];
    Uncons(v.datas);
    assert k in multiset(awaited);
    assert multiset(awaited - {k}) == multiset(awaited) - multiset{k};
  }

  lemma {:induction false} StoreOne(h: Hash, store0: Store, db: LocalDb, written: set<nat>, k: nat)
    ensures (store0 + LocalPages(h, db, written))[k := Page(PageAt(db, k), HashAt(h, db, k))]
            == store0 + LocalPages(h, db, written + {k})
  {
    var one := (store0 + LocalPages(h, db, written))[k := Page(PageAt(db, k), HashAt(h, db, k))];
    var all := store0 + LocalPages(h, db, written + {k});
    assert one.Keys == all.Keys;
  }

  /** The state after the server stored page `k`. */
  function Received(h: Hash, db: LocalDb, sys: PushSys, k: nat): PushSys
    requires sys.c2s != []
  {
    var pages := Wrap64(sys.fsm.pagesTransferred + 1);
    var bytes := Wrap64(sys.fsm.bytesTransferred + |PageAt(db, k)|);
    var pending := sys.fsm.pendingRequests - {k};
    var opens := sys.fsm.completedHashPhase && pending == {};
    PushSys(sys.client, sys.c2s[1..], sys.s2c + Only(opens, SyncComplete(pages, bytes)),
            sys.fsm.(pendingRequests := pending, pagesTransferred := pages, bytesTransferred := bytes,
                     emittedComplete := opens),
            sys.store[k := Page(PageAt(db, k), HashAt(h, db, k))],
            if opens then Finished else Open)
  }

  function ReceivedView(db: LocalDb, sys: PushSys, v: View): View
    requires v.datas != []
  {
    var k := v.datas[0];
    v.(datas := v.datas[1..],
       finish := sys.fsm.completedHashPhase && sys.fsm.pendingRequests - {k} == {},
       written := v.written + {k},
       bytes := v.bytes + |PageAt(db, k)|)
  }

  lemma {:induction false} ReceivedQueues(h: Hash, db: LocalDb, sys: PushSys, v: View)
    requires QueuesFit(h, db, sys, v) && !v.finish
    requires v.lo == sys.client.nextPage && !v.complete && sys.c2s != []
    ensures v.datas != [] && sys.c2s[0] == PageData(v.datas[0], PageAt(db, v.datas[0]))
    ensures QueuesFit(h, db, Received(h, db, sys, v.datas[0]), ReceivedView(db, sys, v))
  {
    NextIsData(h, db, sys, v);
    var after := Received(h, db, sys, v.datas[0]);
    var opens := ReceivedView(db, sys, v).finish;
    ReplyQueues(h, db, sys.(c2s := sys.c2s[1..]), v.(datas := v.datas[1..]),
                after.fsm, after.store, after.server, [], opens);
    assert v.reqs + [] == v.reqs;
    assert sys.s2c + RequestFrames([]) == sys.s2c;
  }

  lemma {:induction false} ReceivedStore(h: Hash, store0: Store, db: LocalDb, sys: PushSys, v: View)
    requires StoreFits(h, store0, db, sys, v) && v.datas != [] && sys.c2s != []
    requires Conserved(sys.fsm.pendingRequests, sys.client, v)
    ensures v.datas[0] in sys.fsm.pendingRequests && v.datas[0] !in v.written
    ensures StoreFits(h, store0, db, Received(h, db, sys, v.datas[0]), ReceivedView(db, sys, v))
    ensures Conserved(Received(h, db, sys, v.datas[0]).fsm.pendingRequests, sys.client, ReceivedView(db, sys, v))
  {
    ArriveOne(sys.fsm.pendingRequests, sys.client, v);
    StoreOne(h, store0, db, v.written, v.datas[0]);
  }

  lemma {:induction false} ReceivedTotals(h: Hash, store0: Store, db: LocalDb, sys: PushSys, v: View)
    requires TotalsFit(h, store0, db, sys, v) && v.datas != [] && sys.c2s != []
    requires v.datas[0] !in v.written && !sys.client.phase.Synced?
    ensures TotalsFit(h, store0, db, Received(h, db, sys, v.datas[0]), ReceivedView(db, sys, v))
  {
    Wrap64Adds(|v.written|, 1);
    Wrap64Adds(v.bytes, |PageAt(db, v.datas[0])|);
    hide Wrap64, DifferingBytes;
  }

  lemma {:induction false} DataArrived(h: Hash, store0: Store, db: LocalDb, sys: PushSys, v: View)
    requires Syncing(h, store0, db, sys, v)
    requires v.lo == sys.client.nextPage && !v.complete && sys.c2s != [] && !sys.fsm.emittedComplete
    ensures v.datas != [] && sys.c2s[0] == PageData(v.datas[0], PageAt(db, v.datas[0]))
    ensures Syncing(h, store0, db, Received(h, db, sys, v.datas[0]), ReceivedView(db, sys, v))
  {
    ReceivedQueues(h, db, sys, v);
    ReceivedStore(h, store0, db, sys, v);
    ReceivedTotals(h, store0, db, sys, v);
  }

  // ----- Any step -----

  /** An action during which nothing fails. */
  predicate FaultFree(a: Action) {
    a == Server(Unlimited, Unlimited) || a.Client?
  }

  /** How much work a push in this state still has before it. */
  function Rank(db: LocalDb, sys: PushSys, v: View): int {
    5 * (|db| + 1 - sys.client.nextPage) + 4 * (sys.client.nextPage - v.lo)
    + 3 * |v.reqs| + 2 * |sys.client.pending| + |v.datas|
    + (if sys.client.phase.Hashing? then 3 else if v.complete then 2 else if sys.client.phase.Synced? then 0 else 1)
  }

  /** A step from `Syncing` either ends in `Syncing` with less work left, or breaks. */
  ghost predicate Advances(h: Hash, store0: Store, db: LocalDb, sys: PushSys, v: View, sys': PushSys, v': View) {
    Syncing(h, store0, db, sys', v') && Rank(db, sys', v') < Rank(db, sys, v)
  }

  lemma {:induction false} ClientAdvances(h: Hash, store0: Store, db: LocalDb, sys: PushSys, v: View, act: PushAction)
    returns (v': View)
    requires Syncing(h, store0, db, sys, v) && Enabled(db, sys, Client(act))
    ensures Advances(h, store0, db, sys, v, Do(h, db, sys, Client(act)), v')
  {
    match act {
      case SendHash =>
        SendHashKeeps(h, store0, db, sys, v);
        v' := v;
      case SendComplete =>
        SendCompleteKeeps(h, store0, db, sys, v);
        v' := v.(complete := true);
      case Serve =>
        ServeKeeps(h, store0, db, sys, v);
        v' := v.(datas := v.datas + [sys.client.pending[0]]);
        FlightIsLocal(h, store0, db, sys, v, sys.client.pending[0]);
      case Read =>
        if v.reqs != [] {
          RequestKeeps(h, store0, db, sys, v, act);
          RequestQueues(h, db, sys, v, act);
          v' := v.(reqs := v.reqs[1..]);
        } else {
          FinishKeeps(h, store0, db, sys, v);
          FinishQueues(h, db, sys, v);
          v' := v.(finish := false);
        }
      case DrainOne =>
        RequestKeeps(h, store0, db, sys, v, act);
        RequestQueues(h, db, sys, v, act);
        v' := v.(reqs := v.reqs[1..]);
      case _ =>
        v' := v;
    }
  }

  function WorldOf(sys: PushSys, a: Action): World
    requires a.Server?
  {
    World(sys.fsm, sys.store, a.storeCredit, a.sendCredit, [])
  }

  lemma {:induction false} SyncingMeans(h: Hash, store0: Store, db: LocalDb, sys: PushSys, v: View)
    requires Syncing(h, store0, db, sys, v)
    ensures QueuesFit(h, db, sys, v) && StoreFits(h, store0, db, sys, v)
    ensures Conserved(sys.fsm.pendingRequests, sys.client, v)
    ensures sys.store == store0 + LocalPages(h, db, v.written)
    ensures sys.fsm.pagesTransferred == Wrap64(|v.written|)
    ensures v.written <= Differing(h, store0, db)
    ensures forall k | k in sys.fsm.pendingRequests :: k in Differing(h, store0, db) && k !in v.written
    ensures !sys.fsm.emittedComplete ==> !v.finish && !sys.client.phase.Synced?
    ensures sys.fsm.sawHello && sys.fsm.direction.Push?
    ensures sys.server == (if sys.fsm.emittedComplete then Finished else Open)
  {
  }

  /** The next page to be compared has not been written in this session. */
  lemma {:induction false} NextIsUntouched(h: Hash, store0: Store, db: LocalDb, sys: PushSys, v: View)
    requires Syncing(h, store0, db, sys, v)
    ensures Differs(h, sys.store, db, v.lo) <==> Differs(h, store0, db, v.lo)
  {
    assert v.lo !in v.written;
  }

  lemma {:induction false} HashSettles(h: Hash, db: LocalDb, sys: PushSys, k: nat, w: World, step: Step)
    requires sys.c2s != [] && !sys.fsm.emittedComplete && sys.server == Open
    requires w.fsm == sys.fsm && w.store == sys.store
    requires HashOutcome(w, k, HashAt(h, db, k), step) && step.error.None?
    ensures Settle(sys, step) == if Differs(h, sys.store, db, k) then Asked(sys, k) else Matched(sys, k)
  {
    assert sys.s2c + [] + [] == sys.s2c;
  }

  lemma {:induction false} HashAdvances(h: Hash, store0: Store, db: LocalDb, sys: PushSys, v: View, w: World,
                                        step: Step)
    returns (v': View)
    requires Syncing(h, store0, db, sys, v) && v.lo < sys.client.nextPage
    requires sys.c2s != [] && !sys.fsm.emittedComplete
    requires w.fsm == sys.fsm && w.store == sys.store
    requires HashOutcome(w, v.lo, HashAt(h, db, v.lo), step) && step.error.None?
    ensures Advances(h, store0, db, sys, v, Settle(sys, step), v')
  {
    SyncingMeans(h, store0, db, sys, v);
    NextIsUntouched(h, store0, db, sys, v);
    HashSettles(h, db, sys, v.lo, w, step);
    hide Syncing, QueuesFit, StoreFits, Conserved, HashOutcome, Settle, Differs;
    if Differs(h, store0, db, v.lo) {
      HashRequested(h, store0, db, sys, v);
      v' := v.(lo := v.lo + 1, reqs := v.reqs + [v.lo]);
    } else {
      HashMatched(h, store0, db, sys, v);
      v' := v.(lo := v.lo + 1);
    }
  }

  lemma {:induction false} CompleteAdvances(h: Hash, store0: Store, db: LocalDb, sys: PushSys, v: View, w: World,
                                            step: Step)
    returns (v': View)
    requires Syncing(h, store0, db, sys, v) && v.lo == sys.client.nextPage && v.complete
    requires sys.c2s != [] && !sys.fsm.emittedComplete
    requires w.fsm == sys.fsm && w.store == sys.store
    requires CompleteOutcome(w, step) && step.error.None?
    ensures Advances(h, store0, db, sys, v, Settle(sys, step), v')
  {
    SyncingMeans(h, store0, db, sys, v);
    hide Syncing;
    CompleteArrived(h, store0, db, sys, v);
    v' := v.(complete := false, finish := sys.fsm.pendingRequests == {});
    assert Settle(sys, step) == HashesOver(sys);
  }

  lemma {:induction false} DataAdvances(h: Hash, store0: Store, db: LocalDb, sys: PushSys, v: View, w: World,
                                        step: Step)
    returns (v': View)
    requires Syncing(h, store0, db, sys, v) && v.lo == sys.client.nextPage && !v.complete
    requires sys.c2s != [] && !sys.fsm.emittedComplete && v.datas != []
    requires w.fsm == sys.fsm && w.store == sys.store
    requires DataOutcome(h, w, v.datas[0], PageAt(db, v.datas[0]), step) && step.error.None?
    ensures Advances(h, store0, db, sys, v, Settle(sys, step), v')
  {
    hide Syncing;
    DataArrived(h, store0, db, sys, v);
    v' := ReceivedView(db, sys, v);
    assert Settle(sys, step) == Received(h, db, sys, v.datas[0]);
  }

  /** A failed server step leaves some of the differing pages written. */
  lemma {:induction false} Breaks(h: Hash, store0: Store, db: LocalDb, sys: PushSys, v: View, step: Step,
                                  written: set<nat>)
    requires QueuesFit(h, db, sys, v) && !v.finish && !sys.client.phase.Synced? && sys.c2s != []
    requires step.error.Some? && Frames(step.world.log) == []
    requires step.world.store == store0 + LocalPages(h, db, written)
    requires step.world.fsm.pagesTransferred == Wrap64(|written|)
    requires written <= Differing(h, store0, db)
    ensures Broken(h, store0, db, Settle(sys, step), written)
  {
    forall m | m in Settle(sys, step).s2c
      ensures !m.SyncComplete?
    {
      assert m in RequestFrames(v.reqs) || m in ErrorFrames(step);
    }
  }

  /** What a server step does to a push in the state `Syncing`. */
  ghost predicate Moves(h: Hash, store0: Store, db: LocalDb, sys: PushSys, v: View, w: World, step: Step, v': View,
                        written: set<nat>)
    requires sys.c2s != []
  {
    if step.error.None? then Advances(h, store0, db, sys, v, Settle(sys, step), v')
    else !Reliable(w) && Broken(h, store0, db, Settle(sys, step), written)
  }

  lemma {:induction false} HashMoves(h: Hash, store0: Store, db: LocalDb, sys: PushSys, v: View, w: World, step: Step)
    returns (v': View, written: set<nat>)
    requires Syncing(h, store0, db, sys, v) && v.lo < sys.client.nextPage
    requires sys.c2s != [] && !sys.fsm.emittedComplete
    requires w.fsm == sys.fsm && w.store == sys.store
    requires HashOutcome(w, v.lo, HashAt(h, db, v.lo), step)
    ensures Moves(h, store0, db, sys, v, w, step, v', written)
  {
    v', written := v, v.written;
    SyncingMeans(h, store0, db, sys, v);
    hide Syncing;
    if step.error.None? {
      v' := HashAdvances(h, store0, db, sys, v, w, step);
    } else {
      Breaks(h, store0, db, sys, v, step, written);
    }
  }

  lemma {:induction false} CompleteMoves(h: Hash, store0: Store, db: LocalDb, sys: PushSys, v: View, w: World,
                                         step: Step)
    returns (v': View, written: set<nat>)
    requires Syncing(h, store0, db, sys, v) && v.lo == sys.client.nextPage && v.complete
    requires sys.c2s != [] && !sys.fsm.emittedComplete
    requires w.fsm == sys.fsm && w.store == sys.store
    requires CompleteOutcome(w, step)
    ensures Moves(h, store0, db, sys, v, w, step, v', written)
  {
    v', written := v, v.written;
    SyncingMeans(h, store0, db, sys, v);
    hide Syncing;
    if step.error.None? {
      v' := CompleteAdvances(h, store0, db, sys, v, w, step);
    } else {
      Breaks(h, store0, db, sys, v, step, written);
    }
  }

  /** Data arrived but the step failed: the page was stored or it was not. */
  lemma {:induction false} DataFails(h: Hash, w: World, k: nat, data: Bytes, step: Step)
    requires DataOutcome(h, w, k, data, step) && step.error.Some?
    ensures Frames(step.world.log) == []
    ensures (&& step.world.store == w.store
             && step.world.fsm.pagesTransferred == w.fsm.pagesTransferred)
            || (&& step.world.store == w.store[k := Page(data, DigestOf(h, data))]
                && step.world.fsm.pagesTransferred == Wrap64(w.fsm.pagesTransferred + 1))
  {
    hide Frames, Wrap64;
  }

  lemma {:induction false} DataBreaks(h: Hash, store0: Store, db: LocalDb, sys: PushSys, v: View, w: World, step: Step)
    returns (written: set<nat>)
    requires QueuesFit(h, db, sys, v) && !v.finish && !sys.client.phase.Synced? && sys.c2s != []
    requires v.datas != [] && v.datas[0] in Differing(h, store0, db) && v.datas[0] !in v.written
    requires v.written <= Differing(h, store0, db)
    requires w.store == store0 + LocalPages(h, db, v.written)
    requires w.fsm.pagesTransferred == Wrap64(|v.written|)
    requires DataOutcome(h, w, v.datas[0], PageAt(db, v.datas[0]), step) && step.error.Some?
    ensures Broken(h, store0, db, Settle(sys, step), written)
  {
    hide QueuesFit, Broken, Settle, DataOutcome, Frames, Wrap64, LocalPages, Differing;
    var k := v.datas[0];
    DataFails(h, w, k, PageAt(db, k), step);
    Wrap64Adds(|v.written|, 1);
    StoreOne(h, store0, db, v.written, k);
    written := if step.world.store == w.store && step.world.fsm.pagesTransferred == w.fsm.pagesTransferred
               then v.written else v.written + {k};
    Breaks(h, store0, db, sys, v, step, written);
  }

  lemma {:induction false} DataMoves(h: Hash, store0: Store, db: LocalDb, sys: PushSys, v: View, w: World, step: Step)
    returns (v': View, written: set<nat>)
    requires Syncing(h, store0, db, sys, v) && v.lo == sys.client.nextPage && !v.complete
    requires sys.c2s != [] && !sys.fsm.emittedComplete && v.datas != []
    requires w.fsm == sys.fsm && w.store == sys.store
    requires DataOutcome(h, w, v.datas[0], PageAt(db, v.datas[0]), step)
    ensures Moves(h, store0, db, sys, v, w, step, v', written)
  {
    v', written := v, v.written;
    SyncingMeans(h, store0, db, sys, v);
    ReceivedStore(h, store0, db, sys, v);
    assert DataOutcome(h, w, v.datas[0], PageAt(db, v.datas[0]), step) && step.error.Some? ==> !Reliable(w);
    hide Syncing, QueuesFit, StoreFits, Conserved, DataOutcome, Broken, Advances;
    if step.error.None? {
      v' := DataAdvances(h, store0, db, sys, v, w, step);
    } else {
      written := DataBreaks(h, store0, db, sys, v, w, step);
    }
  }

  lemma {:induction false} ServerMoves(h: Hash, store0: Store, db: LocalDb, sys: PushSys, v: View, a: Action)
    returns (v': View, written: set<nat>)
    requires Syncing(h, store0, db, sys, v) && Enabled(db, sys, a) && a.Server?
    ensures Moves(h, store0, db, sys, v, WorldOf(sys, a), ServerStep(h, sys, a.storeCredit, a.sendCredit), v', written)
  {
    var w := WorldOf(sys, a);
    var step := ServerStep(h, sys, a.storeCredit, a.sendCredit);
    SyncingMeans(h, store0, db, sys, v);
    hide Syncing, Apply, HashOutcome, CompleteOutcome, DataOutcome, Moves;
    if v.lo < sys.client.nextPage {
      NextIsHash(h, db, sys, v);
      HashEffect(h, w, v.lo, HashAt(h, db, v.lo));
      v', written := HashMoves(h, store0, db, sys, v, w, step);
    } else if v.complete {
      NextIsComplete(h, db, sys, v);
      CompleteEffect(h, w);
      v', written := CompleteMoves(h, store0, db, sys, v, w, step);
    } else {
      NextIsData(h, db, sys, v);
      DataEffect(h, w, v.datas[0], PageAt(db, v.datas[0]));
      v', written := DataMoves(h, store0, db, sys, v, w, step);
    }
  }
}
