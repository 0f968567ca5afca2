/** The invariant of a pull, step by step. */
module PullSteps {
  import opened Protocol
  import opened PageStore
  import opened SyncSpec
  import opened Session
  import opened SyncClient
  import opened Link
  import opened PullSystem
  import opened PullProof

  // ----- Client steps -----

  /** The client's steps touch neither the server nor the record. */
  lemma {:induction false} ServerSideCarries(h: Hash, db: LocalDb, sys: PullSys, v: View, sys': PullSys, v': View)
    requires TotalsFit(sys, v) && HistoryFits(sys) && SentFits(h, db, sys, v) && KeptFits(h, db, sys, v)
    requires Covered(db, sys, v)
    requires sys'.fsm == sys.fsm && sys'.store == sys.store && sys'.server == sys.server && sys'.history == sys.history
    requires v'.lo == v.lo && v'.sent == v.sent && v'.versions == v.versions && v'.kept == v.kept && v'.walk == v.walk
    ensures TotalsFit(sys', v') && HistoryFits(sys') && SentFits(h, db, sys', v') && KeptFits(h, db, sys', v')
    ensures Covered(db, sys', v')
  {
    hide Sendable, PageNos, TotalSize, Wrap64;
  }

  lemma {:induction false} HashQueues(h: Hash, db: LocalDb, sys: PullSys, v: View)
    requires QueuesFit(h, db, sys, v) && Enabled(db, sys, Client(PullHash)) && !v.complete
    ensures QueuesFit(h, db, Do(h, db, sys, Client(PullHash)), v)
  {
    HashFramesSnoc(h, db, v.lo, sys.client.nextPage);
  }

  lemma {:induction false} HashKeeps(h: Hash, db: LocalDb, sys: PullSys, v: View)
    requires Pulling(h, db, sys, v) && Enabled(db, sys, Client(PullHash))
    ensures Pulling(h, db, Do(h, db, sys, Client(PullHash)), v)
  {
    HashQueues(h, db, sys, v);
    ServerSideCarries(h, db, sys, v, Do(h, db, sys, Client(PullHash)), v);
    hide QueuesFit, TotalsFit, HistoryFits, SentFits, KeptFits, Covered, WriteAll, TotalSize, PagesOf;
  }

  lemma {:induction false} CompleteQueues(h: Hash, db: LocalDb, sys: PullSys, v: View)
    requires QueuesFit(h, db, sys, v) && Enabled(db, sys, Client(PullComplete)) && !v.complete
    ensures QueuesFit(h, db, Do(h, db, sys, Client(PullComplete)), v.(complete := true))
  {
  }

  lemma {:induction false} CompletePhases(h: Hash, db: LocalDb, sys: PullSys, v: View)
    requires PhasesFit(db, sys, v) && ClientFits(db, sys, v) && Enabled(db, sys, Client(PullComplete))
    requires sys.client.nextPage <= |db| + 1
    ensures PhasesFit(db, Do(h, db, sys, Client(PullComplete)), v.(complete := true))
    ensures ClientFits(db, Do(h, db, sys, Client(PullComplete)), v.(complete := true))
  {
    hide WriteAll, TotalSize, PagesOf;
  }

  lemma {:induction false} CompleteKeeps(h: Hash, db: LocalDb, sys: PullSys, v: View)
    requires Pulling(h, db, sys, v) && Enabled(db, sys, Client(PullComplete))
    ensures Pulling(h, db, Do(h, db, sys, Client(PullComplete)), v.(complete := true))
  {
    CompleteQueues(h, db, sys, v);
    CompletePhases(h, db, sys, v);
    ServerSideCarries(h, db, sys, v, Do(h, db, sys, Client(PullComplete)), v.(complete := true));
    hide QueuesFit, PhasesFit, ClientFits, TotalsFit, HistoryFits, SentFits, KeptFits, Covered;
  }

  lemma {:induction false} ReadQueues(h: Hash, db: LocalDb, sys: PullSys, v: View)
    requires QueuesFit(h, db, sys, v) && Enabled(db, sys, Client(PullRead)) && v.received < |v.sent|
    ensures var e := v.sent[v.received];
            && sys.s2c[0] == PageData(e.pageNo, e.data)
            && QueuesFit(h, db, Do(h, db, sys, Client(PullRead)), v.(received := v.received + 1))
  {
    assert v.sent[v.received..][1..] == v.sent[v.received + 1..];
    assert EntryFrames(v.sent[v.received..])[1..] == EntryFrames(v.sent[v.received + 1..]);
  }

  lemma {:induction false} ReadPhases(h: Hash, db: LocalDb, sys: PullSys, v: View)
    requires PhasesFit(db, sys, v) && ClientFits(db, sys, v) && Enabled(db, sys, Client(PullRead))
    requires v.received < |v.sent|
    requires sys.s2c[0] == PageData(v.sent[v.received].pageNo, v.sent[v.received].data)
    ensures PhasesFit(db, Do(h, db, sys, Client(PullRead)), v.(received := v.received + 1))
    ensures ClientFits(db, Do(h, db, sys, Client(PullRead)), v.(received := v.received + 1))
  {
    WriteAllSnoc(map[], v.sent[..v.received], v.sent[v.received]);
    assert v.sent[..v.received + 1] == v.sent[..v.received] + [v.sent[v.received]];
    hide WriteAll, TotalSize, PagesOf;
  }

  lemma {:induction false} ReadKeeps(h: Hash, db: LocalDb, sys: PullSys, v: View)
    requires Pulling(h, db, sys, v) && Enabled(db, sys, Client(PullRead)) && v.received < |v.sent|
    ensures Pulling(h, db, Do(h, db, sys, Client(PullRead)), v.(received := v.received + 1))
  {
    ReadQueues(h, db, sys, v);
    ReadPhases(h, db, sys, v);
    ServerSideCarries(h, db, sys, v, Do(h, db, sys, Client(PullRead)), v.(received := v.received + 1));
    hide QueuesFit, PhasesFit, ClientFits, TotalsFit, HistoryFits, SentFits, KeptFits, Covered;
  }

  lemma {:induction false} FinishQueues(h: Hash, db: LocalDb, sys: PullSys, v: View)
    requires QueuesFit(h, db, sys, v) && Enabled(db, sys, Client(PullRead)) && v.received == |v.sent|
    ensures v.finish
    ensures Do(h, db, sys, Client(PullRead)) == sys.(
              client := PullCommit(sys.client).(phase := Synced(sys.fsm.pagesTransferred, sys.fsm.bytesTransferred)),
              s2c := [])
  {
    assert v.sent[v.received..] == [];
    assert sys.s2c == [SyncComplete(sys.fsm.pagesTransferred, sys.fsm.bytesTransferred)];
  }

  lemma {:induction false} FinishKeeps(h: Hash, db: LocalDb, sys: PullSys, v: View)
    requires Pulling(h, db, sys, v) && Enabled(db, sys, Client(PullRead)) && v.received == |v.sent|
    ensures Pulling(h, db, Do(h, db, sys, Client(PullRead)), v.(finish := false))
  {
    FinishQueues(h, db, sys, v);
    assert v.sent[..v.received] == v.sent;
    assert v.sent[v.received..] == [];
    ServerSideCarries(h, db, sys, v, Do(h, db, sys, Client(PullRead)), v.(finish := false));
    hide HistoryFits, SentFits, KeptFits, Covered, WriteAll, TotalSize, PagesOf;
  }

  // ----- Which frame comes next -----

  lemma {:induction false} NextIsHash(h: Hash, db: LocalDb, sys: PullSys, v: View)
    requires QueuesFit(h, db, sys, v) && v.lo < sys.client.nextPage
    ensures sys.c2s != [] && sys.c2s[0] == PageHash(v.lo, HashAt(h, db, v.lo))
    ensures sys.c2s[1..] == HashFrames(h, db, v.lo + 1, sys.client.nextPage) + Only(v.complete, Complete)
  {
    HashFramesUncons(h, db, v.lo, sys.client.nextPage);
  }

  lemma {:induction false} NextIsComplete(h: Hash, db: LocalDb, sys: PullSys, v: View)
    requires QueuesFit(h, db, sys, v) && v.lo == sys.client.nextPage && sys.c2s != []
    ensures v.complete && sys.c2s == [Complete]
  {
    assert HashFrames(h, db, v.lo, v.lo) == [];
  }

  // ----- Server steps that succeed -----

  /** A hash the server deals with leaves the client, the record and the phases alone. */
  lemma {:induction false} HashStepCarries(db: LocalDb, sys: PullSys, v: View, sys': PullSys, v': View)
    requires PhasesFit(db, sys, v) && ClientFits(db, sys, v) && HistoryFits(sys)
    requires v.lo < sys.client.nextPage <= |db| + 1
    requires sys'.client == sys.client && sys'.store == sys.store && sys'.server == sys.server
    requires sys'.history == sys.history
    requires sys'.fsm == sys.fsm.(clientSeen := sys'.fsm.clientSeen, pagesTransferred := sys'.fsm.pagesTransferred,
                                  bytesTransferred := sys'.fsm.bytesTransferred)
    requires v'.complete == v.complete && v'.finish == v.finish && v'.received == v.received
    requires v.sent <= v'.sent && (sys.client.phase.Synced? ==> v'.sent == v.sent)
    ensures PhasesFit(db, sys', v') && ClientFits(db, sys', v') && HistoryFits(sys')
  {
    assert v'.sent[..v.received] == v.sent[..v.received];
    hide WriteAll, TotalSize, PagesOf;
  }

  /** The state after the server skipped page `k`. */
  function Skipped(sys: PullSys, k: nat): PullSys
    requires sys.c2s != []
  {
    sys.(c2s := sys.c2s[1..], fsm := sys.fsm.(clientSeen := sys.fsm.clientSeen + {k}))
  }

  function SkippedView(sys: PullSys, v: View): View
    requires sys.history != []
  {
    v.(lo := v.lo + 1, kept := v.kept[v.lo := |sys.history| - 1])
  }

  lemma {:induction false} SkipQueues(h: Hash, db: LocalDb, sys: PullSys, v: View)
    requires QueuesFit(h, db, sys, v) && v.lo < sys.client.nextPage && sys.history != []
    ensures sys.c2s != [] && QueuesFit(h, db, Skipped(sys, v.lo), SkippedView(sys, v))
  {
    NextIsHash(h, db, sys, v);
  }

  /** Before the walk, only pages below `lo` have been sent. */
  predicate SentBelow(v: View) {
    forall i | 0 <= i < |v.sent| :: v.sent[i].pageNo < v.lo
  }

  lemma {:induction false} SkipCovers(h: Hash, db: LocalDb, sys: PullSys, v: View)
    requires Covered(db, sys, v) && !sys.fsm.completedHashPhase && HasPage(db, v.lo)
    requires sys.history != [] && sys.c2s != []
    ensures Covered(db, Skipped(sys, v.lo), SkippedView(sys, v))
  {
    assert SentBelow(v);
    assert v.lo !in PageNos(v.sent);
  }

  lemma {:induction false} SkipKept(h: Hash, db: LocalDb, sys: PullSys, v: View)
    requires KeptFits(h, db, sys, v) && HasPage(db, v.lo) && sys.history != [] && sys.c2s != []
    requires !Sendable(h, sys.history[|sys.history| - 1], db, v.lo)
    ensures KeptFits(h, db, Skipped(sys, v.lo), SkippedView(sys, v))
  {
    hide Sendable;
  }

  lemma {:induction false} SkipSent(h: Hash, db: LocalDb, sys: PullSys, v: View)
    requires SentFits(h, db, sys, v) && TotalsFit(sys, v) && sys.history != [] && sys.c2s != []
    ensures SentFits(h, db, Skipped(sys, v.lo), SkippedView(sys, v)) && TotalsFit(Skipped(sys, v.lo), SkippedView(sys, v))
  {
    hide Sendable, TotalSize;
  }

  lemma {:induction false} SkipKeeps(h: Hash, db: LocalDb, sys: PullSys, v: View)
    requires Pulling(h, db, sys, v) && v.lo < sys.client.nextPage && sys.server.Open?
    requires !Sendable(h, sys.store, db, v.lo)
    ensures sys.c2s != [] && Pulling(h, db, Skipped(sys, v.lo), SkippedView(sys, v))
  {
    SkipQueues(h, db, sys, v);
    SkipCovers(h, db, sys, v);
    SkipKept(h, db, sys, v);
    SkipSent(h, db, sys, v);
    HashStepCarries(db, sys, v, Skipped(sys, v.lo), SkippedView(sys, v));
    hide QueuesFit, PhasesFit, ClientFits, TotalsFit, HistoryFits, SentFits, KeptFits, Covered;
  }

  /** The state after the server answered a hash with the page. */
  function Answered(sys: PullSys, e: PageDataEntry): PullSys
    requires sys.c2s != []
  {
    PullSys(sys.client, sys.c2s[1..], sys.s2c + [PageData(e.pageNo, e.data)],
            sys.fsm.(clientSeen := sys.fsm.clientSeen + {e.pageNo},
                     pagesTransferred := Wrap64(sys.fsm.pagesTransferred + 1),
                     bytesTransferred := Wrap64(sys.fsm.bytesTransferred + |e.data|)),
            sys.store, sys.server, sys.history)
  }

  function AnsweredView(sys: PullSys, v: View, e: PageDataEntry): View
    requires sys.history != []
  {
    v.(lo := v.lo + 1, sent := v.sent + [e], versions := v.versions + [|sys.history| - 1])
  }

  /** The next page to be sent, as stored. */
  predicate NextEntry(h: Hash, db: LocalDb, sys: PullSys, v: View, e: PageDataEntry) {
    && sys.history != [] && sys.c2s != []
    && e.pageNo == v.lo
    && Sendable(h, sys.history[|sys.history| - 1], db, v.lo)
    && e.data == sys.history[|sys.history| - 1][v.lo].data
  }

  lemma {:induction false} AnswerQueues(h: Hash, db: LocalDb, sys: PullSys, v: View, e: PageDataEntry)
    requires QueuesFit(h, db, sys, v) && v.lo < sys.client.nextPage && sys.history != [] && !v.finish
    ensures sys.c2s != [] && QueuesFit(h, db, Answered(sys, e), AnsweredView(sys, v, e))
  {
    NextIsHash(h, db, sys, v);
    assert (v.sent + [e])[v.received..] == v.sent[v.received..] + [e];
    assert EntryFrames(v.sent[v.received..] + [e]) == EntryFrames(v.sent[v.received..]) + [PageData(e.pageNo, e.data)];
  }

  lemma {:induction false} AnswerSent(h: Hash, db: LocalDb, sys: PullSys, v: View, e: PageDataEntry)
    requires SentFits(h, db, sys, v) && SentBelow(v) && NextEntry(h, db, sys, v, e)
    ensures SentFits(h, db, Answered(sys, e), AnsweredView(sys, v, e))
  {
    hide Sendable;
  }

  lemma {:induction false} AnswerCovers(h: Hash, db: LocalDb, sys: PullSys, v: View, e: PageDataEntry)
    requires Covered(db, sys, v) && !sys.fsm.completedHashPhase && NextEntry(h, db, sys, v, e)
    ensures Covered(db, Answered(sys, e), AnsweredView(sys, v, e))
  {
    PageNosAppend(v.sent, [e]);
    assert PageNos([e]) == {e.pageNo} by {
      assert [e][0].pageNo == e.pageNo;
    }
    hide Sendable, PageNos;
  }

  lemma {:induction false} AnswerClient(db: LocalDb, sys: PullSys, v: View, es: seq<PageDataEntry>)
    requires ClientFits(db, sys, v) && !sys.client.phase.Synced?
    ensures ClientFits(db, sys, v.(sent := v.sent + es))
  {
    assert (v.sent + es)[..v.received] == v.sent[..v.received];
  }

  lemma {:induction false} AnswerTotals(sys: PullSys, v: View, e: PageDataEntry)
    requires TotalsFit(sys, v) && sys.history != [] && sys.c2s != []
    ensures TotalsFit(Answered(sys, e), AnsweredView(sys, v, e))
  {
    assert TotalSize([e]) == |e.data|;
    hide TotalSize, Wrap64;
    Wrap64Adds(|v.sent|, 1);
    Wrap64Adds(TotalSize(v.sent), |e.data|);
    TotalSizeAppend(v.sent, [e]);
  }

  lemma {:induction false} AnswerKept(h: Hash, db: LocalDb, sys: PullSys, v: View, e: PageDataEntry)
    requires KeptFits(h, db, sys, v) && sys.history != [] && sys.c2s != []
    ensures KeptFits(h, db, Answered(sys, e), AnsweredView(sys, v, e))
  {
    hide Sendable;
  }

  lemma {:induction false} AnswerKeeps(h: Hash, db: LocalDb, sys: PullSys, v: View, e: PageDataEntry)
    requires Pulling(h, db, sys, v) && v.lo < sys.client.nextPage && sys.server.Open?
    requires NextEntry(h, db, sys, v, e)
    ensures Pulling(h, db, Answered(sys, e), AnsweredView(sys, v, e))
  {
    AnswerQueues(h, db, sys, v, e);
    AnswerSent(h, db, sys, v, e);
    AnswerCovers(h, db, sys, v, e);
    AnswerTotals(sys, v, e);
    AnswerKept(h, db, sys, v, e);
    HashStepCarries(db, sys, v, Answered(sys, e), AnsweredView(sys, v, e));
    hide QueuesFit, PhasesFit, ClientFits, TotalsFit, HistoryFits, SentFits, KeptFits, Covered;
  }

  /** The state after the final walk. */
  function Delivered(sys: PullSys, es: seq<PageDataEntry>): PullSys
    requires sys.c2s != []
  {
    var pages := Wrap64(sys.fsm.pagesTransferred + |es|);
    var bytes := Wrap64(sys.fsm.bytesTransferred + TotalSize(es));
    PullSys(sys.client, sys.c2s[1..], sys.s2c + EntryFrames(es) + [SyncComplete(pages, bytes)],
            sys.fsm.(completedHashPhase := true, emittedComplete := true,
                     pagesTransferred := pages, bytesTransferred := bytes),
            sys.store, Finished, sys.history)
  }

  function DeliveredView(sys: PullSys, v: View, es: seq<PageDataEntry>): View
    requires sys.history != []
  {
    v.(complete := false, finish := true, sent := v.sent + es,
       versions := v.versions + seq(|es|, i => |sys.history| - 1), walk := |sys.history| - 1)
  }

  /** `es` are the stored pages from `lo` to the last page known at the handshake. */
  ghost predicate IsWalk(sys: PullSys, v: View, es: seq<PageDataEntry>)
    requires sys.history != []
  {
    var store := sys.history[|sys.history| - 1];
    && (forall i, j | 0 <= i < j < |es| :: es[i].pageNo < es[j].pageNo)
    && (forall i | 0 <= i < |es| ::
          && v.lo <= es[i].pageNo && es[i].pageNo in store && es[i].data == store[es[i].pageNo].data)
    && (forall k :: k in PageNos(es) <==> v.lo <= k <= sys.fsm.serverMaxPage && k in store)
  }

  lemma {:induction false} DeliverQueues(h: Hash, db: LocalDb, sys: PullSys, v: View, es: seq<PageDataEntry>)
    requires QueuesFit(h, db, sys, v) && v.lo == sys.client.nextPage && sys.history != [] && !v.finish
    requires sys.c2s != []
    ensures QueuesFit(h, db, Delivered(sys, es), DeliveredView(sys, v, es))
  {
    NextIsComplete(h, db, sys, v);
    assert HashFrames(h, db, v.lo, v.lo) == [];
    assert (v.sent + es)[v.received..] == v.sent[v.received..] + es;
    assert EntryFrames(v.sent[v.received..] + es) == EntryFrames(v.sent[v.received..]) + EntryFrames(es);
  }

  lemma {:induction false} DeliverSent(h: Hash, db: LocalDb, sys: PullSys, v: View, es: seq<PageDataEntry>)
    requires SentFits(h, db, sys, v) && SentBelow(v) && v.lo == |db| + 1
    requires sys.history != [] && sys.c2s != [] && IsWalk(sys, v, es)
    ensures SentFits(h, db, Delivered(sys, es), DeliveredView(sys, v, es))
  {
    var store := sys.history[|sys.history| - 1];
    forall i | 0 <= i < |es|
      ensures Sendable(h, store, db, es[i].pageNo)
    {
    }
    hide Sendable, PageNos;
  }

  lemma {:induction false} DeliverCovers(h: Hash, db: LocalDb, sys: PullSys, v: View, es: seq<PageDataEntry>)
    requires Covered(db, sys, v) && !sys.fsm.completedHashPhase
    requires sys.history != [] && sys.c2s != [] && IsWalk(sys, v, es)
    ensures Covered(db, Delivered(sys, es), DeliveredView(sys, v, es))
  {
    PageNosAppend(v.sent, es);
    forall k | k >= v.lo
      ensures k !in PageNos(v.sent)
    {
      assert SentBelow(v);
    }
    hide PageNos;
  }

  lemma {:induction false} DeliverTotals(sys: PullSys, v: View, es: seq<PageDataEntry>)
    requires TotalsFit(sys, v) && sys.history != [] && sys.c2s != []
    ensures TotalsFit(Delivered(sys, es), DeliveredView(sys, v, es))
  {
    hide TotalSize, Wrap64, EntryFrames;
    Wrap64Adds(|v.sent|, |es|);
    Wrap64Adds(TotalSize(v.sent), TotalSize(es));
    TotalSizeAppend(v.sent, es);
  }

  lemma {:induction false} DeliverPhases(db: LocalDb, sys: PullSys, v: View, es: seq<PageDataEntry>)
    requires PhasesFit(db, sys, v) && v.complete && sys.history != [] && sys.c2s != []
    requires v.lo == sys.client.nextPage
    ensures PhasesFit(db, Delivered(sys, es), DeliveredView(sys, v, es))
  {
  }

  lemma {:induction false} DeliverClient(db: LocalDb, sys: PullSys, v: View, es: seq<PageDataEntry>)
    requires ClientFits(db, sys, v) && PhasesFit(db, sys, v) && sys.server.Open? && sys.history != [] && sys.c2s != []
    ensures ClientFits(db, Delivered(sys, es), DeliveredView(sys, v, es))
  {
    AnswerClient(db, sys, v, es);
    hide WriteAll, TotalSize, PagesOf;
  }

  /** While the session is open, the walk has not happened. */
  lemma {:induction false} NothingBeyond(h: Hash, db: LocalDb, sys: PullSys, v: View)
    requires Pulling(h, db, sys, v) && sys.server.Open?
    ensures !sys.fsm.completedHashPhase && !v.finish && SentBelow(v) && sys.history != []
    ensures v.lo == sys.client.nextPage && sys.c2s != [] ==> v.lo == |db| + 1 && v.complete
  {
    if v.lo == sys.client.nextPage && sys.c2s != [] {
      NextIsComplete(h, db, sys, v);
    }
    hide QueuesFit, ClientFits, TotalsFit, SentFits, KeptFits, PageNos;
  }

  lemma {:induction false} DeliverKeeps(h: Hash, db: LocalDb, sys: PullSys, v: View, es: seq<PageDataEntry>)
    requires Pulling(h, db, sys, v) && v.lo == sys.client.nextPage && sys.server.Open? && sys.c2s != []
    requires IsWalk(sys, v, es)
    ensures Pulling(h, db, Delivered(sys, es), DeliveredView(sys, v, es))
  {
    NothingBeyond(h, db, sys, v);
    DeliverClient(db, sys, v, es);
    hide QueuesFit, SentFits, Covered, TotalsFit, WriteAll, IsWalk, PhasesFit, ClientFits, SentBelow, EntryFrames;
    NextIsComplete(h, db, sys, v);
    DeliverQueues(h, db, sys, v, es);
    DeliverSent(h, db, sys, v, es);
    DeliverCovers(h, db, sys, v, es);
    DeliverTotals(sys, v, es);
    DeliverPhases(db, sys, v, es);
  }

  // ----- Another session's step -----

  lemma {:induction false} DisturbRecord(h: Hash, db: LocalDb, sys: PullSys, v: View, store: Store)
    requires HistoryFits(sys) && SentFits(h, db, sys, v) && KeptFits(h, db, sys, v) && Covered(db, sys, v)
    requires sys.store.Keys <= store.Keys
    ensures var sys' := Disturb(sys, store);
            HistoryFits(sys') && SentFits(h, db, sys', v) && KeptFits(h, db, sys', v) && Covered(db, sys', v)
  {
    hide Sendable, PageNos, MaxPage;
  }

  lemma {:induction false} DisturbKeeps(h: Hash, db: LocalDb, sys: PullSys, v: View, store: Store)
    requires Pulling(h, db, sys, v) && sys.store.Keys <= store.Keys
    ensures Pulling(h, db, Disturb(sys, store), v)
  {
    hide HistoryFits, SentFits, KeptFits, Covered, WriteAll, HashFrames, EntryFrames, TotalSize, Wrap64, PagesOf;
    DisturbRecord(h, db, sys, v, store);
  }
}
