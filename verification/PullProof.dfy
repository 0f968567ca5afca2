/** Every step of a pull, and every step of another session, keeps the invariant of PullSystem. */
module PullProof {
  import opened Protocol
  import opened PageStore
  import opened SyncSpec
  import opened Session
  import opened SyncClient
  import opened Link
  import opened PullSystem

  // ----- Lists of pages -----

  lemma {:induction false} TotalSizeAppend(a: seq<PageDataEntry>, b: seq<PageDataEntry>)
    ensures TotalSize(a + b) == TotalSize(a) + TotalSize(b)
    decreases |b|
  {
    if b == [] {
      assert a + b == a;
    } else {
      assert (a + b)[..|a + b| - 1] == a + b[..|b| - 1];
      TotalSizeAppend(a, b[..|b| - 1]);
    }
  }

  lemma {:induction false} PageNosAppend(a: seq<PageDataEntry>, b: seq<PageDataEntry>)
    ensures PageNos(a + b) == PageNos(a) + PageNos(b)
  {
    var both := a + b;
    forall k | k in PageNos(a)
      ensures k in PageNos(both)
    {
      var i :| 0 <= i < |a| && a[i].pageNo == k;
      assert both[i].pageNo == k;
    }
    forall k | k in PageNos(b)
      ensures k in PageNos(both)
    {
      var i :| 0 <= i < |b| && b[i].pageNo == k;
      assert both[|a| + i].pageNo == k;
    }
  }

  lemma {:induction false} WriteAllSnoc(staged: map<nat, Bytes>, entries: seq<PageDataEntry>, e: PageDataEntry)
    ensures WriteAll(staged, entries + [e]) == WriteAll(staged, entries)[e.pageNo := e.data]
    decreases |entries|
  {
    if entries == [] {
      assert entries + [e] == [e];
    } else {
      assert (entries + [e])[1..] == entries[1..] + [e];
      WriteAllSnoc(staged[entries[0].pageNo := entries[0].data], entries[1..], e);
    }
  }

  // ----- What the server does with each frame of a pull -----

  predicate HashOutcome(w: World, k: nat, hash: Bytes, step: Step) {
    var seen := w.fsm.(clientSeen := w.fsm.clientSeen + {k});
    var sends := k in w.store && w.store[k].hash != hash;
    && (Reliable(w) ==> step.error.None?)
    && step.world.store == w.store
    && if step.error.Some? then Frames(step.world.log) == []
       else if sends then
         && step.world.fsm == seen.(pagesTransferred := Wrap64(w.fsm.pagesTransferred + 1),
                                    bytesTransferred := Wrap64(w.fsm.bytesTransferred + |w.store[k].data|))
         && Frames(step.world.log) == [PageData(k, w.store[k].data)]
       else step.world.fsm == seen && Frames(step.world.log) == []
  }

  lemma {:induction false} SendEffect(w: World, k: nat, data: Bytes)
    ensures var step := SendPage(w, k, data);
            && (Reliable(w) ==> step.error.None? && Reliable(step.world))
            && step.world.store == w.store
            && (step.error.Some? ==> step.world.log == w.log)
            && (step.error.None? ==>
                  && step.world.fsm == w.fsm.(pagesTransferred := Wrap64(w.fsm.pagesTransferred + 1),
                                              bytesTransferred := Wrap64(w.fsm.bytesTransferred + |data|))
                  && step.world.log == w.log + [Sent(PageData(k, data))])
  {
  }

  lemma {:induction false} HashEffect(h: Hash, w: World, k: nat, hash: Bytes)
    requires w.fsm.sawHello && w.fsm.direction.Pull? && w.log == []
    ensures HashOutcome(w, k, hash, Apply(h, w, PageHash(k, hash)))
  {
    assert Apply(h, w, PageHash(k, hash)) == HandlePageHash(w, k, hash);
    hide Apply;
    var seen := Charge(w.(fsm := w.fsm.(clientSeen := w.fsm.clientSeen + {k})));
    if k in w.store && seen.error.None? && Charge(seen.world).error.None? {
      var data := w.store[k].data;
      SendEffect(Charge(seen.world).world, k, data);
      hide SendPage;
      var e := Sent(PageData(k, data));
      FramesOfFew(e, e);
      assert [] + [e] == [e];
    }
  }

  /** The pages the final walk sends. */
  function Walked(store: Store, seen: set<nat>, from: nat, last: nat): seq<PageDataEntry>
    decreases last + 1 - from
  {
    if from > last then []
    else (if from in store && from !in seen then [PageDataEntry(from, store[from].data)] else [])
         + Walked(store, seen, from + 1, last)
  }

  /** No SyncComplete among these frames. */
  predicate Unfinished(frames: seq<SyncMessage>) {
    forall m | m in frames :: !m.SyncComplete?
  }

  /** `es` were sent, and counted modulo 2^64. */
  predicate WalkOutcome(w: World, es: seq<PageDataEntry>, step: Step) {
    && (Reliable(w) ==> step.error.None? && Reliable(step.world))
    && step.world.store == w.store
    && Unfinished(Frames(step.world.log))
    && (step.error.None? ==>
          && step.world.fsm == w.fsm.(pagesTransferred := Wrap64(w.fsm.pagesTransferred + |es|),
                                      bytesTransferred := Wrap64(w.fsm.bytesTransferred + TotalSize(es)))
          && Frames(step.world.log) == Frames(w.log) + EntryFrames(es))
  }

  predicate Countable(fsm: Fsm) {
    fsm.pagesTransferred < U64_MODULUS && fsm.bytesTransferred < U64_MODULUS
  }

  lemma {:induction false} EntriesCons(e: PageDataEntry, es: seq<PageDataEntry>, sent: seq<SyncMessage>)
    ensures |[e] + es| == 1 + |es| && TotalSize([e] + es) == |e.data| + TotalSize(es)
    ensures sent + EntryFrames([e] + es) == sent + [PageData(e.pageNo, e.data)] + EntryFrames(es)
  {
    TotalSizeAppend([e], es);
    assert TotalSize([e]) == |e.data|;
    assert EntryFrames([e] + es) == [PageData(e.pageNo, e.data)] + EntryFrames(es);
  }

  /** Sending one page and then the rest. */
  lemma {:induction false} WalkChains(w: World, mid: World, e: PageDataEntry, es: seq<PageDataEntry>, step: Step)
    requires mid.store == w.store && (Reliable(w) ==> Reliable(mid))
    requires mid.fsm == w.fsm.(pagesTransferred := Wrap64(w.fsm.pagesTransferred + 1),
                               bytesTransferred := Wrap64(w.fsm.bytesTransferred + |e.data|))
    requires Frames(mid.log) == Frames(w.log) + [PageData(e.pageNo, e.data)]
    requires WalkOutcome(mid, es, step)
    ensures WalkOutcome(w, [e] + es, step)
  {
    hide Frames, Wrap64, TotalSize, EntryFrames, Unfinished;
    EntriesCons(e, es, Frames(w.log));
    Wrap64Adds(w.fsm.pagesTransferred + 1, |es|);
    Wrap64Adds(w.fsm.bytesTransferred + |e.data|, TotalSize(es));
    var all := [e] + es;
    assert w.fsm.pagesTransferred + 1 + |es| == w.fsm.pagesTransferred + |all|;
    assert w.fsm.bytesTransferred + |e.data| + TotalSize(es) == w.fsm.bytesTransferred + TotalSize(all);
  }

  lemma {:induction false} RowEffect(w: World, k: nat)
    requires k in w.store && Countable(w.fsm) && Unfinished(Frames(w.log))
    ensures var row := Charge(w);
            && row.world.fsm == w.fsm && row.world.store == w.store && row.world.log == w.log
            && (Reliable(w) ==> row.error.None? && Reliable(row.world))
    ensures var row := Charge(w).world;
            var sent := WalkPage(row, k, w.store[k].data);
            && sent.world.store == w.store
            && Countable(sent.world.fsm) && Unfinished(Frames(sent.world.log))
            && (Reliable(row) ==> sent.error.None? && Reliable(sent.world))
            && sent.world.fsm.clientSeen == w.fsm.clientSeen
            && (sent.error.None? ==>
                  if k in w.fsm.clientSeen then sent.world == row
                  else
                    && sent.world.fsm == w.fsm.(pagesTransferred := Wrap64(w.fsm.pagesTransferred + 1),
                                                bytesTransferred := Wrap64(w.fsm.bytesTransferred + |w.store[k].data|))
                    && Frames(sent.world.log) == Frames(w.log) + [PageData(k, w.store[k].data)])
  {
    hide Frames;
    var row := Charge(w).world;
    SendEffect(row, k, w.store[k].data);
    FramesSnoc(w.log, Sent(PageData(k, w.store[k].data)));
  }

  lemma {:induction false} WalkEffect(w: World, from: nat, last: nat)
    requires Countable(w.fsm) && Unfinished(Frames(w.log))
    ensures WalkOutcome(w, Walked(w.store, w.fsm.clientSeen, from, last), Walk(w, from, last))
    decreases last + 1 - from
  {
    var es := Walked(w.store, w.fsm.clientSeen, from, last);
    if from > last {
    } else if from !in w.store {
      assert es == Walked(w.store, w.fsm.clientSeen, from + 1, last);
      WalkEffect(w, from + 1, last);
    } else {
      RowEffect(w, from);
      var row := Charge(w);
      var sent := WalkPage(row.world, from, w.store[from].data);
      if row.error.Some? {
        assert Walk(w, from, last) == row;
      } else if sent.error.Some? {
        assert Walk(w, from, last) == sent;
      } else {
        WalkEffect(sent.world, from + 1, last);
        assert Walk(w, from, last) == Walk(sent.world, from + 1, last);
        WalkJoins(w, from, last, sent.world, Walk(sent.world, from + 1, last));
      }
    }
  }

  /** A row the client claimed changes nothing. */
  lemma {:induction false} WalkStays(w: World, mid: World, es: seq<PageDataEntry>, step: Step)
    requires mid.store == w.store && (Reliable(w) ==> Reliable(mid))
    requires mid.fsm == w.fsm && mid.log == w.log
    requires WalkOutcome(mid, es, step)
    ensures WalkOutcome(w, es, step)
  {
    hide Frames, Wrap64, TotalSize, EntryFrames, Unfinished;
  }

  lemma {:induction false} WalkedUnfolds(store: Store, seen: set<nat>, from: nat, last: nat)
    requires from <= last && from in store
    ensures var rest := Walked(store, seen, from + 1, last);
            Walked(store, seen, from, last)
            == if from in seen then rest else [PageDataEntry(from, store[from].data)] + rest
  {
  }

  /** One row of the walk and then the rest. */
  lemma {:induction false} WalkJoins(w: World, from: nat, last: nat, mid: World, step: Step)
    requires from <= last && from in w.store && Countable(w.fsm)
    requires mid.store == w.store && (Reliable(w) ==> Reliable(mid))
    requires if from in w.fsm.clientSeen then mid.fsm == w.fsm && mid.log == w.log
             else
               && mid.fsm == w.fsm.(pagesTransferred := Wrap64(w.fsm.pagesTransferred + 1),
                                    bytesTransferred := Wrap64(w.fsm.bytesTransferred + |w.store[from].data|))
               && Frames(mid.log) == Frames(w.log) + [PageData(from, w.store[from].data)]
    requires WalkOutcome(mid, Walked(w.store, w.fsm.clientSeen, from + 1, last), step)
    ensures WalkOutcome(w, Walked(w.store, w.fsm.clientSeen, from, last), step)
  {
    var rest := Walked(w.store, w.fsm.clientSeen, from + 1, last);
    WalkedUnfolds(w.store, w.fsm.clientSeen, from, last);
    hide Walked, WalkOutcome, Frames;
    if from in w.fsm.clientSeen {
      WalkStays(w, mid, rest, step);
    } else {
      WalkChains(w, mid, PageDataEntry(from, w.store[from].data), rest, step);
    }
  }

  predicate CompleteOutcome(w: World, es: seq<PageDataEntry>, step: Step) {
    && (Reliable(w) ==> step.error.None?)
    && step.world.store == w.store
    && if step.error.Some? then Unfinished(Frames(step.world.log))
       else
         var pages := Wrap64(w.fsm.pagesTransferred + |es|);
         var bytes := Wrap64(w.fsm.bytesTransferred + TotalSize(es));
         && step.world.fsm == w.fsm.(completedHashPhase := true, emittedComplete := true,
                                     pagesTransferred := pages, bytesTransferred := bytes)
         && Frames(step.world.log) == EntryFrames(es) + [SyncComplete(pages, bytes)]
  }

  /** The gate at the end of a walk that went through. */
  lemma {:induction false} FinishEffect(w: World, walked: World, es: seq<PageDataEntry>)
    requires Countable(w.fsm) && w.log == [] && !w.fsm.emittedComplete && w.fsm.pendingRequests == {}
    requires walked.store == w.store && (Reliable(w) ==> Reliable(walked))
    requires walked.fsm == w.fsm.(completedHashPhase := true,
                                  pagesTransferred := Wrap64(w.fsm.pagesTransferred + |es|),
                                  bytesTransferred := Wrap64(w.fsm.bytesTransferred + TotalSize(es)))
    requires Frames(walked.log) == EntryFrames(es)
    ensures CompleteOutcome(w, es, MaybeEmitComplete(walked))
  {
    GateEffect(walked);
    hide MaybeEmitComplete;
    FramesSnoc(walked.log, Sent(SyncComplete(walked.fsm.pagesTransferred, walked.fsm.bytesTransferred)));
    hide Frames;
  }

  lemma {:induction false} CompleteEffect(h: Hash, w: World)
    requires w.fsm.sawHello && w.fsm.direction.Pull? && w.log == [] && Countable(w.fsm)
    requires !w.fsm.emittedComplete && w.fsm.pendingRequests == {}
    ensures CompleteOutcome(w, Walked(w.store, w.fsm.clientSeen, 1, w.fsm.serverMaxPage), Apply(h, w, Complete))
  {
    assert Apply(h, w, Complete) == HandleComplete(w);
    hide Apply, Wrap64, TotalSize;
    var es := Walked(w.store, w.fsm.clientSeen, 1, w.fsm.serverMaxPage);
    var w1 := w.(fsm := w.fsm.(completedHashPhase := true));
    if w.fsm.serverMaxPage > 0 {
      var w2 := Charge(w1);
      if w2.error.None? {
        WalkEffect(w2.world, 1, w.fsm.serverMaxPage);
        var walked := Walk(w2.world, 1, w.fsm.serverMaxPage);
        hide Walk, Walked;
        if walked.error.None? {
          assert Frames(walked.world.log) == [] + EntryFrames(es);
          FinishEffect(w, walked.world, es);
          hide MaybeEmitComplete;
        }
      }
    } else {
      assert es == [] && EntryFrames(es) == [];
      FinishEffect(w, w1, es);
      hide MaybeEmitComplete;
    }
  }

  // ----- What another session can do to the store -----

  /** Page numbers are never lost, and new bytes come with their own digest. */
  ghost predicate Grows(h: Hash, before: Store, after: Store) {
    && before.Keys <= after.Keys
    && forall k | k in after :: (k in before && after[k] == before[k]) || after[k].hash == DigestOf(h, after[k].data)
  }

  lemma {:induction false} PageDataGrows(h: Hash, w: World, pageNo: nat, data: Bytes)
    ensures Grows(h, w.store, HandlePageData(h, w, pageNo, data).world.store)
  {
  }

  lemma {:induction false} BatchGrows(h: Hash, w: World, pages: seq<PageDataEntry>)
    ensures Grows(h, w.store, HandlePageDataBatch(h, w, pages).world.store)
    decreases |pages|
  {
    if pages != [] {
      PageDataGrows(h, w, pages[0].pageNo, pages[0].data);
      var first := HandlePageData(h, w, pages[0].pageNo, pages[0].data);
      hide HandlePageData;
      if first.error.None? {
        BatchGrows(h, first.world, pages[1..]);
      }
    }
  }

  lemma {:induction false} WalkLeavesStore(w: World, from: nat, last: nat)
    ensures Walk(w, from, last).world.store == w.store
    decreases last + 1 - from
  {
    if from <= last {
      if from !in w.store {
        WalkLeavesStore(w, from + 1, last);
      } else if Charge(w).error.None? {
        var sent := WalkPage(Charge(w).world, from, w.store[from].data);
        if sent.error.None? {
          WalkLeavesStore(sent.world, from + 1, last);
        }
      }
    }
  }

  /** Any frame of any client in any session. */
  lemma {:induction false} ApplyGrows(h: Hash, w: World, msg: SyncMessage)
    ensures Grows(h, w.store, Apply(h, w, msg).world.store)
  {
    if w.fsm.sawHello {
      match msg
      case PageData(pageNo, data) => PageDataGrows(h, w, pageNo, data);
      case PageDataBatch(pages) => BatchGrows(h, w, pages);
      case Complete => CompleteLeavesStore(w);
      case _ =>
    }
  }

  lemma {:induction false} CompleteLeavesStore(w: World)
    ensures HandleComplete(w).world.store == w.store
  {
    var w1 := w.(fsm := w.fsm.(completedHashPhase := true));
    if Charge(w1).error.None? {
      WalkLeavesStore(Charge(w1).world, 1, w.fsm.serverMaxPage);
      hide Walk;
    }
  }
}
