/** What a client may see after SyncComplete.  The state machine sends nothing after it, but
    the session loop reports every later error of the same `apply` call, so an Error frame can
    follow it: exactly when storage fails on a later entry of the batch that completed the
    session. */
module Endings {
  import opened Protocol
  import opened PageStore
  import opened SyncSpec
  import opened Session

  /** The session has sent SyncComplete, and then the step failed. */
  predicate LateFailure(step: Step) {
    step.error.Some? && StageOf(step.world.log) == Closed
  }

  lemma {:induction false} SendTalks(w: World, pageNo: nat, data: Bytes)
    requires StageOf(w.log) == Talking
    ensures StageOf(SendPage(w, pageNo, data).world.log) == Talking
    ensures StageOf(WalkPage(w, pageNo, data).world.log) == Talking
  {
    Snoc(Direction.Pull, w.log, Sent(PageData(pageNo, data)));
    hide StageOf;
  }

  lemma {:induction false} WalkTalks(w: World, from: nat, last: nat)
    requires StageOf(w.log) == Talking
    ensures StageOf(Walk(w, from, last).world.log) == Talking
    decreases last + 1 - from
  {
    hide StageOf, WalkPage;
    if from <= last {
      if from !in w.store {
        WalkTalks(w, from + 1, last);
      } else if Charge(w).error.None? {
        SendTalks(Charge(w).world, from, w.store[from].data);
        var sent := WalkPage(Charge(w).world, from, w.store[from].data);
        if sent.error.None? {
          WalkTalks(sent.world, from + 1, last);
        }
      }
    }
  }

  lemma {:induction false} CompleteIsNeverLate(w: World)
    requires StageOf(w.log) == Talking
    ensures !LateFailure(HandleComplete(w))
  {
    var w1 := w.(fsm := w.fsm.(completedHashPhase := true));
    if w.fsm.direction.Pull? && w.fsm.serverMaxPage > 0 && Charge(w1).error.None? {
      WalkTalks(Charge(w1).world, 1, w.fsm.serverMaxPage);
    }
    hide StageOf, Walk;
  }

  lemma {:induction false} DataIsNeverLate(h: Hash, w: World, pageNo: nat, data: Bytes)
    requires StageOf(w.log) == Talking
    ensures !LateFailure(HandlePageData(h, w, pageNo, data))
  {
    Snoc(Direction.Push, w.log, Stored(pageNo, |data|));
    hide StageOf;
  }

  lemma {:induction false} HashIsNeverLate(h: Hash, w: World, msg: SyncMessage)
    requires StageOf(w.log) == Talking && w.fsm.sawHello && (msg.PageHash? || msg.PageHashBatch?)
    ensures !LateFailure(Apply(h, w, msg))
  {
    if msg.PageHash? {
      SendTalks(w, msg.pageNo, []);
    }
    hide StageOf;
  }

  /** Only storage can fail once SyncComplete is out. */
  lemma {:induction false} ClosedFailsInStorage(h: Hash, w: World, pages: seq<PageDataEntry>)
    requires w.fsm.emittedComplete
    ensures HandlePageDataBatch(h, w, pages).error.Some? ==> HandlePageDataBatch(h, w, pages).error.value == StorageFailed
    decreases |pages|
  {
    if pages != [] {
      var first := HandlePageData(h, w, pages[0].pageNo, pages[0].data);
      if first.error.None? {
        ClosedFailsInStorage(h, first.world, pages[1..]);
      }
    }
  }

  lemma {:induction false} BatchIsLateInStorage(h: Hash, w: World, pages: seq<PageDataEntry>)
    requires Consistent(w.fsm, w.log) && Gate(w.fsm) && !w.fsm.emittedComplete
    requires LateFailure(HandlePageDataBatch(h, w, pages))
    ensures HandlePageDataBatch(h, w, pages).error.value == StorageFailed && |pages| >= 2
    decreases |pages|
  {
    if pages == [] {
      assert false;
    } else {
      PageDataKeeps(h, w, pages[0].pageNo, pages[0].data);
      DataIsNeverLate(h, w, pages[0].pageNo, pages[0].data);
      var first := HandlePageData(h, w, pages[0].pageNo, pages[0].data);
      assert first.error.None?;
      hide HandlePageData, StageOf;
      if first.world.fsm.emittedComplete {
        ClosedFailsInStorage(h, first.world, pages[1..]);
      } else {
        BatchIsLateInStorage(h, first.world, pages[1..]);
      }
    }
  }

  /** The page numbers of the first `n` entries. */
  function FirstNumbers(pages: seq<PageDataEntry>, n: nat): set<nat> {
    set i | 0 <= i < n && i < |pages| :: pages[i].pageNo
  }

  lemma {:induction false} FirstNumbersCons(pages: seq<PageDataEntry>, n: nat)
    requires pages != [] && n >= 1
    ensures FirstNumbers(pages, n) == {pages[0].pageNo} + FirstNumbers(pages[1..], n - 1)
  {
    forall k | k in FirstNumbers(pages, n)
      ensures k in {pages[0].pageNo} + FirstNumbers(pages[1..], n - 1)
    {
      var i :| 0 <= i < n && i < |pages| && pages[i].pageNo == k;
      assert i > 0 ==> pages[1..][i - 1] == pages[i];
    }
    forall k | k in FirstNumbers(pages[1..], n - 1)
      ensures k in FirstNumbers(pages, n)
    {
      var i :| 0 <= i < n - 1 && i < |pages[1..]| && pages[1..][i].pageNo == k;
      assert pages[i + 1].pageNo == k;
    }
  }

  /** Storage will store the first entries of the batch but not all of them, the hash phase is
      over, all awaited pages are among those entries, and the socket takes one more frame. */
  predicate WillBeLate(w: World, pages: seq<PageDataEntry>) {
    && w.fsm.completedHashPhase
    && w.sendCredit != Limited(0)
    && w.storeCredit.Limited? && w.storeCredit.left < |pages|
    && w.fsm.pendingRequests <= FirstNumbers(pages, w.storeCredit.left)
  }

  /** Storing pages after SyncComplete sends nothing, and fails only when storage does. */
  lemma {:induction false} ClosedStaysClosed(h: Hash, w: World, pages: seq<PageDataEntry>)
    requires w.fsm.emittedComplete && StageOf(w.log) == Closed
    ensures StageOf(HandlePageDataBatch(h, w, pages).world.log) == Closed
    ensures HandlePageDataBatch(h, w, pages).error.Some? <==> w.storeCredit.Limited? && w.storeCredit.left < |pages|
    decreases |pages|
  {
    if pages != [] {
      Snoc(Direction.Push, w.log, Stored(pages[0].pageNo, |pages[0].data|));
      var first := HandlePageData(h, w, pages[0].pageNo, pages[0].data);
      hide StageOf;
      if first.error.None? {
        ClosedStaysClosed(h, first.world, pages[1..]);
      }
    }
  }

  /** What the first entry does to the things the condition depends on. */
  lemma {:induction false} FirstEntry(h: Hash, w: World, e: PageDataEntry)
    requires Consistent(w.fsm, w.log) && Gate(w.fsm) && !w.fsm.emittedComplete
    ensures var first := HandlePageData(h, w, e.pageNo, e.data);
            var opens := w.fsm.completedHashPhase && w.fsm.pendingRequests - {e.pageNo} == {};
            && !LateFailure(first)
            && (first.error.None? <==>
                  w.storeCredit != Limited(0) && (opens ==> w.sendCredit != Limited(0)))
            && (first.error.None? ==>
                  && first.world.storeCredit == Spend(w.storeCredit)
                  && first.world.fsm.emittedComplete == opens
                  && first.world.fsm.completedHashPhase == w.fsm.completedHashPhase
                  && first.world.fsm.pendingRequests == w.fsm.pendingRequests - {e.pageNo}
                  && (!opens ==> first.world.sendCredit == w.sendCredit)
                  && Consistent(first.world.fsm, first.world.log) && Gate(first.world.fsm))
  {
    PageDataKeeps(h, w, e.pageNo, e.data);
    DataIsNeverLate(h, w, e.pageNo, e.data);
    hide StageOf, Consistent, Wrap64;
  }

  /** An Error can follow SyncComplete exactly when the batch completes the session before its
      last entry and storage gives out on a later one: a test on the state and the batch. */
  lemma {:induction false} LateExactly(h: Hash, w: World, pages: seq<PageDataEntry>)
    requires Consistent(w.fsm, w.log) && Gate(w.fsm) && !w.fsm.emittedComplete
    ensures LateFailure(HandlePageDataBatch(h, w, pages)) <==> WillBeLate(w, pages)
    decreases |pages|
  {
    if pages != [] {
      var first := HandlePageData(h, w, pages[0].pageNo, pages[0].data);
      FirstEntry(h, w, pages[0]);
      hide HandlePageData, StageOf, Consistent;
      if first.error.None? {
        if w.storeCredit.Limited? {
          FirstNumbersCons(pages, w.storeCredit.left);
        }
        if first.world.fsm.emittedComplete {
          assert StageOf(first.world.log) == Closed by {
            ConsistentStage(first.world.fsm, first.world.log);
          }
          ClosedStaysClosed(h, first.world, pages[1..]);
        } else {
          LateExactly(h, first.world, pages[1..]);
        }
      } else {
        assert w.storeCredit == Limited(0) ==> FirstNumbers(pages, 0) == {};
      }
      hide FirstNumbers;
    }
  }

  lemma {:induction false} ConsistentStage(fsm: Fsm, log: seq<Event>)
    requires Consistent(fsm, log) && fsm.emittedComplete
    ensures StageOf(log) == Closed
  {
  }

  /** The same for any frame of any client in any session: only a PageDataBatch of at least two
      entries can fail late, and only in storage.  No frame the shipped client sends is one. */
  lemma {:induction false} LateOnlyInBatches(h: Hash, direction: Direction, s: Session, a: Arrival)
    requires Sound(direction, s) && s.status.Open?
    ensures var w := World(s.fsm, a.store, a.storeCredit, a.sendCredit, s.log);
            && (LateFailure(Apply(h, w, a.msg)) <==>
                  s.fsm.sawHello && a.msg.PageDataBatch? && WillBeLate(w, a.msg.pages))
            && (LateFailure(Apply(h, w, a.msg)) ==>
                  Deliver(h, s, a).status == Failed(StorageFailed) && |a.msg.pages| >= 2)
  {
    var w := World(s.fsm, a.store, a.storeCredit, a.sendCredit, s.log);
    assert StageOf([]) == Silent;
    hide StageOf, WillBeLate;
    if s.fsm.sawHello {
      match a.msg
      case PageHash(_, _) => HashIsNeverLate(h, w, a.msg);
      case PageHashBatch(_, _, _) => HashIsNeverLate(h, w, a.msg);
      case PageData(pageNo, data) => DataIsNeverLate(h, w, pageNo, data);
      case PageDataBatch(pages) =>
        LateExactly(h, w, pages);
        if WillBeLate(w, pages) {
          BatchIsLateInStorage(h, w, pages);
        }
      case Complete => CompleteIsNeverLate(w);
      case _ =>
    }
  }

  lemma {:induction false} LastBatch(h: Hash, s: Session, data: Bytes)
    requires s.status.Open? && s.fsm.sawHello && s.fsm.completedHashPhase && !s.fsm.emittedComplete
    requires s.fsm.pendingRequests == {1} && s.fsm.pagesTransferred == 0 && s.fsm.bytesTransferred == 0
    ensures var a := Arrival(PageDataBatch([PageDataEntry(1, data), PageDataEntry(2, data)]), map[], Limited(1), Unlimited);
            var s' := Deliver(h, s, a);
            && s'.status == Failed(StorageFailed)
            && StageOf(s'.log) == Closed
            && Frames(s'.log) == Frames(s.log) + [SyncComplete(1, |data| % U64_MODULUS)]
  {
    var w := World(s.fsm, map[], Limited(1), Unlimited, s.log);
    var pages := [PageDataEntry(1, data), PageDataEntry(2, data)];
    var stored := StorePage(h, w, 1, data).world;
    var first := HandlePageData(h, w, 1, data);
    assert first.error.None? && first.world.storeCredit == Limited(0);
    assert pages[1..] == [PageDataEntry(2, data)];
    var second := HandlePageDataBatch(h, first.world, pages[1..]);
    assert second.error == Some(StorageFailed) && second.world.log == first.world.log;
    assert HandlePageDataBatch(h, w, pages) == second;
    FramesSnoc(w.log, Stored(1, |data|));
    FramesSnoc(stored.log, Sent(SyncComplete(stored.fsm.pagesTransferred, stored.fsm.bytesTransferred)));
    Snoc(Direction.Push, stored.log, Sent(SyncComplete(stored.fsm.pagesTransferred, stored.fsm.bytesTransferred)));
  }

  function Plainly(store: Store, msg: SyncMessage): Arrival {
    Arrival(msg, store, Unlimited, Unlimited)
  }

  /** A push of one page in a batch of two, with storage that fails on the second. */
  function UnluckyBatch(data: Bytes): seq<Arrival> {
    [Plainly(map[], Hello(PROTOCOL_VERSION, DEFAULT_PAGE_SIZE, 1)),
     Plainly(map[], PageHash(1, [])),
     Plainly(map[], Complete),
     Arrival(PageDataBatch([PageDataEntry(1, data), PageDataEntry(2, data)]), map[], Limited(1), Unlimited)]
  }

  /** It does happen: this session sends SyncComplete and fails, so its client is told both. */
  lemma {:induction false} LateFailureHappens(h: Hash, data: Bytes)
    ensures var s := Run(h, Direction.Push, UnluckyBatch(data));
            && s.status == Failed(StorageFailed)
            && StageOf(s.log) == Closed
            && Frames(s.log) == [HelloReply(PROTOCOL_VERSION, DEFAULT_PAGE_SIZE, 0), RequestPage(1),
                                 SyncComplete(1, |data| % U64_MODULUS)]
  {
    var all := UnluckyBatch(data);
    var s1 := Run(h, Direction.Push, all[..1]);
    var s2 := Run(h, Direction.Push, all[..2]);
    var s3 := Run(h, Direction.Push, all[..3]);
    RunSnoc(h, Direction.Push, [], all[0]);
    RunSnoc(h, Direction.Push, all[..1], all[1]);
    RunSnoc(h, Direction.Push, all[..2], all[2]);
    RunSnoc(h, Direction.Push, all[..3], all[3]);
    assert [] + [all[0]] == all[..1] && all[..1] + [all[1]] == all[..2];
    assert all[..2] + [all[2]] == all[..3] && all[..3] + [all[3]] == all;
    hide Run;
    var reply := Sent(HelloReply(PROTOCOL_VERSION, DEFAULT_PAGE_SIZE, 0));
    assert s1 == Session(NewFsm(Direction.Push).(sawHello := true), [reply], Open);
    var asked := s1.fsm.(clientSeen := {1}, pendingRequests := {1});
    assert s2 == Session(asked, [reply, Sent(RequestPage(1))], Open);
    assert s3 == Session(asked.(completedHashPhase := true), [reply, Sent(RequestPage(1))], Open);
    LastBatch(h, s3, data);
  }
}
