/** What a failing storage or socket does to a session: it cuts a step short and nothing else.
    For every frame of every client, and for credits that run out at any call, the step does
    what it would have done without the failure, up to some event. */
module Faults {
  import opened Protocol
  import opened PageStore
  import opened SyncSpec
  import opened Session
  import Projections

  /** The same world, with nothing to fail in it. */
  function Mended(w: World): World {
    w.(storeCredit := Unlimited, sendCredit := Unlimited)
  }

  /** Every frame took one credit. */
  predicate Paid(w: World, w': World) {
    if w.sendCredit.Unlimited? then w'.sendCredit.Unlimited?
    else
      && w'.sendCredit.Limited? && |Frames(w.log)| <= |Frames(w'.log)|
      && w'.sendCredit.left + |Frames(w'.log)| == w.sendCredit.left + |Frames(w.log)|
  }

  /** `step` starts in `w`; `full` is the same step in the mended world. */
  predicate CutShort(w: World, step: Step, full: Step) {
    && w.log <= step.world.log <= full.world.log
    && Paid(w, step.world)
    && (w.storeCredit.Unlimited? ==> step.world.storeCredit.Unlimited?)
    && full.error != Some(StorageFailed) && full.error != Some(SendFailed)
    && full.world == Mended(full.world)
    && match step.error
       case None => full.error.None? && full.world == Mended(step.world)
       case Some(StorageFailed) => step.world.storeCredit == Limited(0)
       case Some(SendFailed) =>
         step.world.sendCredit == Limited(0) && |Frames(step.world.log)| < |Frames(full.world.log)|
       case Some(_) => full.error == step.error && full.world == Mended(step.world)
  }

  lemma {:induction false} PrefixHasFewer(a: seq<Event>, b: seq<Event>)
    requires a <= b
    ensures |Frames(a)| <= |Frames(b)|
  {
    assert b == a + b[|a|..];
    Projections.FramesConcat(a, b[|a|..]);
  }

  /** One step after another. */
  lemma {:induction false} CutThen(w: World, first: Step, full: Step, second: Step, full': Step)
    requires CutShort(w, first, full)
    requires first.error.None? ==> CutShort(first.world, second, full')
    requires full.error.None? ==> full.world.log <= full'.world.log && full'.world == Mended(full'.world)
    requires full.error.None? ==> full'.error != Some(StorageFailed) && full'.error != Some(SendFailed)
    requires first.error.Some? ==> second == first
    requires full.error.Some? ==> full' == full
    ensures CutShort(w, second, full')
  {
    if full.error.None? {
      PrefixHasFewer(full.world.log, full'.world.log);
    }
    hide Frames;
  }

  lemma {:induction false} EmitCut(w: World, frame: SyncMessage)
    ensures CutShort(w, Emit(w, frame), Emit(Mended(w), frame))
  {
    FramesSnoc(w.log, Sent(frame));
    hide Frames;
  }

  lemma {:induction false} ChargeCut(w: World)
    ensures CutShort(w, Charge(w), Charge(Mended(w)))
  {
    hide Frames;
  }

  lemma {:induction false} GateCut(w: World)
    ensures CutShort(w, MaybeEmitComplete(w), MaybeEmitComplete(Mended(w)))
  {
    EmitCut(w, SyncComplete(w.fsm.pagesTransferred, w.fsm.bytesTransferred));
    hide Frames;
  }

  lemma {:induction false} SendCut(w: World, pageNo: nat, data: Bytes)
    ensures CutShort(w, SendPage(w, pageNo, data), SendPage(Mended(w), pageNo, data))
    ensures CutShort(w, WalkPage(w, pageNo, data), WalkPage(Mended(w), pageNo, data))
  {
    hide Frames, Emit;
    EmitCut(Count(w, |data|), PageData(pageNo, data));
    assert Mended(Count(w, |data|)) == Count(Mended(w), |data|);
  }

  lemma {:induction false} HelloCut(w: World, version: nat, pageSize: nat)
    ensures CutShort(w, HandleHello(w, version, pageSize), HandleHello(Mended(w), version, pageSize))
  {
    hide Frames;
    var greeting := w.(fsm := w.fsm.(sawHello := true));
    ChargeCut(greeting);
    if Charge(greeting).error.None? {
      var ready := Charge(greeting).world;
      EmitCut(ready.(fsm := ready.fsm.(serverMaxPage := MaxPage(w.store))),
              HelloReply(PROTOCOL_VERSION, pageSize, MaxPage(w.store)));
    }
  }

  lemma {:induction false} HashCut(w: World, pageNo: nat, hash: Bytes)
    ensures CutShort(w, HandlePageHash(w, pageNo, hash), HandlePageHash(Mended(w), pageNo, hash))
  {
    hide Frames;
    var seen := w.(fsm := w.fsm.(clientSeen := w.fsm.clientSeen + {pageNo}));
    ChargeCut(seen);
    var looked := Charge(seen);
    if looked.error.None? {
      var asked := looked.world.(fsm := looked.world.fsm.(pendingRequests := looked.world.fsm.pendingRequests + {pageNo}));
      EmitCut(asked, RequestPage(pageNo));
      ChargeCut(looked.world);
      var read := Charge(looked.world);
      if read.error.None? && pageNo in w.store {
        SendCut(read.world, pageNo, w.store[pageNo].data);
      }
    }
  }

  lemma {:induction false} RangeCut(h: Hash, w: World, start: nat, end: nat, combined: Bytes)
    ensures CutShort(w, HandlePageHashBatch(h, w, start, end, combined),
                     HandlePageHashBatch(h, Mended(w), start, end, combined))
  {
    hide Frames, CombinedHash;
    var seen := w.(fsm := w.fsm.(clientSeen := w.fsm.clientSeen + PageSet(start, end)));
    ChargeCut(seen);
    if Charge(seen).error.None? {
      EmitCut(Charge(seen).world, HashMismatchBatch(PageRange(start, end)));
    }
  }

  lemma {:induction false} StoreCut(h: Hash, w: World, pageNo: nat, data: Bytes)
    ensures CutShort(w, StorePage(h, w, pageNo, data), StorePage(h, Mended(w), pageNo, data))
  {
    hide Frames, Wrap64;
    FramesSnoc(w.log, Stored(pageNo, |data|));
    var taken := w.(fsm := w.fsm.(pendingRequests := w.fsm.pendingRequests - {pageNo}));
    ChargeCut(taken);
    if Charge(taken).error.None? {
      StoreGoesOn(h, w, pageNo, data);
    }
  }

  lemma {:induction false} StoreGoesOn(h: Hash, w: World, pageNo: nat, data: Bytes)
    requires w.storeCredit != Limited(0)
    ensures StorePage(h, w, pageNo, data).error.None? && StorePage(h, Mended(w), pageNo, data).error.None?
    ensures StorePage(h, Mended(w), pageNo, data).world == Mended(StorePage(h, w, pageNo, data).world)
    ensures StorePage(h, w, pageNo, data).world.log == w.log + [Stored(pageNo, |data|)]
    ensures StorePage(h, w, pageNo, data).world.sendCredit == w.sendCredit
  {
    hide Wrap64;
  }

  lemma {:induction false} DataCut(h: Hash, w: World, pageNo: nat, data: Bytes)
    ensures CutShort(w, HandlePageData(h, w, pageNo, data), HandlePageData(h, Mended(w), pageNo, data))
  {
    var stored, full := StorePage(h, w, pageNo, data), StorePage(h, Mended(w), pageNo, data);
    StoreCut(h, w, pageNo, data);
    GateCut(stored.world);
    GateCut(full.world);
    CutThen(w, stored, full, HandlePageData(h, w, pageNo, data), HandlePageData(h, Mended(w), pageNo, data));
    hide StorePage, MaybeEmitComplete, Frames;
  }

  lemma {:induction false} NothingCut(w: World)
    ensures CutShort(w, Done(w), Done(Mended(w)))
  {
    hide Frames;
  }

  lemma {:induction false} BatchCut(h: Hash, w: World, pages: seq<PageDataEntry>)
    ensures CutShort(w, HandlePageDataBatch(h, w, pages), HandlePageDataBatch(h, Mended(w), pages))
    decreases |pages|
  {
    hide HandlePageData, Frames;
    if pages == [] {
      NothingCut(w);
    } else {
      DataCut(h, w, pages[0].pageNo, pages[0].data);
      var first := HandlePageData(h, w, pages[0].pageNo, pages[0].data);
      var full := HandlePageData(h, Mended(w), pages[0].pageNo, pages[0].data);
      BatchCut(h, first.world, pages[1..]);
      BatchCut(h, full.world, pages[1..]);
      CutThen(w, first, full, HandlePageDataBatch(h, w, pages), HandlePageDataBatch(h, Mended(w), pages));
    }
  }

  /** One row of the walk. */
  function Row(w: World, pageNo: nat, data: Bytes): Step {
    var w :- Charge(w);
    WalkPage(w, pageNo, data)
  }

  lemma {:induction false} RowCut(w: World, pageNo: nat, data: Bytes)
    ensures CutShort(w, Row(w, pageNo, data), Row(Mended(w), pageNo, data))
  {
    hide WalkPage, Frames;
    ChargeCut(w);
    SendCut(Charge(w).world, pageNo, data);
    SendCut(Charge(Mended(w)).world, pageNo, data);
    CutThen(w, Charge(w), Charge(Mended(w)), Row(w, pageNo, data), Row(Mended(w), pageNo, data));
  }

  lemma {:induction false} WalkCut(w: World, from: nat, last: nat)
    ensures CutShort(w, Walk(w, from, last), Walk(Mended(w), from, last))
    decreases last + 1 - from
  {
    hide Frames;
    if from > last {
      NothingCut(w);
    } else if from !in w.store {
      WalkCut(w, from + 1, last);
    } else {
      var row, full := Row(w, from, w.store[from].data), Row(Mended(w), from, w.store[from].data);
      RowCut(w, from, w.store[from].data);
      assert Walk(w, from, last) == if row.error.None? then Walk(row.world, from + 1, last) else row;
      assert Walk(Mended(w), from, last) == if full.error.None? then Walk(full.world, from + 1, last) else full;
      hide Row, Walk;
      WalkCut(row.world, from + 1, last);
      WalkCut(full.world, from + 1, last);
      CutThen(w, row, full, Walk(w, from, last), Walk(Mended(w), from, last));
    }
  }

  /** The part of `handle_complete` before the gate. */
  function WalkAll(w: World): Step {
    if w.fsm.direction.Pull? && w.fsm.serverMaxPage > 0 then
      var w :- Charge(w);
      Walk(w, 1, w.fsm.serverMaxPage)
    else Done(w)
  }

  lemma {:induction false} WalkAllCut(w: World)
    ensures CutShort(w, WalkAll(w), WalkAll(Mended(w)))
  {
    hide Walk, Frames;
    if w.fsm.direction.Pull? && w.fsm.serverMaxPage > 0 {
      ChargeCut(w);
      WalkCut(Charge(w).world, 1, w.fsm.serverMaxPage);
      WalkCut(Charge(Mended(w)).world, 1, w.fsm.serverMaxPage);
      CutThen(w, Charge(w), Charge(Mended(w)), WalkAll(w), WalkAll(Mended(w)));
    } else {
      NothingCut(w);
    }
  }

  lemma {:induction false} CompleteCut(w: World)
    ensures CutShort(w, HandleComplete(w), HandleComplete(Mended(w)))
  {
    var w1 := w.(fsm := w.fsm.(completedHashPhase := true));
    var walked, full := WalkAll(w1), WalkAll(Mended(w1));
    WalkAllCut(w1);
    assert HandleComplete(w) == if walked.error.None? then MaybeEmitComplete(walked.world) else walked;
    assert HandleComplete(Mended(w)) == if full.error.None? then MaybeEmitComplete(full.world) else full;
    hide WalkAll, HandleComplete, MaybeEmitComplete, Frames;
    GateCut(walked.world);
    GateCut(full.world);
    CutThen(w1, walked, full, HandleComplete(w), HandleComplete(Mended(w)));
  }

  lemma {:induction false} ApplyCut(h: Hash, w: World, msg: SyncMessage)
    ensures CutShort(w, Apply(h, w, msg), Apply(h, Mended(w), msg))
  {
    hide HandleHello, HandlePageHash, HandlePageHashBatch, HandlePageData, HandlePageDataBatch, HandleComplete, Frames;
    if !w.fsm.sawHello {
      if msg.Hello? {
        HelloCut(w, msg.protocolVersion, msg.pageSize);
      }
    } else {
      match msg
      case PageHash(pageNo, hash) => HashCut(w, pageNo, hash);
      case PageHashBatch(start, end, combined) => RangeCut(h, w, start, end, combined);
      case PageData(pageNo, data) => DataCut(h, w, pageNo, data);
      case PageDataBatch(pages) => BatchCut(h, w, pages);
      case Complete => CompleteCut(w);
      case _ =>
    }
  }

  /** What happens to a session when storage or the socket fails at some call of a frame: its log
      is the beginning of what it would have been, and it ends for that reason.  If neither
      fails, nothing is different.  A socket that takes `n` more frames takes exactly the first
      `n`, and the session fails if there were more to send. */
  lemma {:induction false} FailureCutsShort(h: Hash, direction: Direction, arrivals: seq<Arrival>, a: Arrival)
    requires Run(h, direction, arrivals).status.Open?
    ensures var s := Run(h, direction, arrivals);
            var s' := Run(h, direction, arrivals + [a]);
            var full := Run(h, direction, arrivals + [a.(storeCredit := Unlimited, sendCredit := Unlimited)]);
            && s.log <= s'.log <= full.log
            && full.status != Failed(StorageFailed) && full.status != Failed(SendFailed)
            && (s'.status == Failed(StorageFailed) ==> a.storeCredit.Limited?)
            && (s'.status == Failed(SendFailed) ==> a.sendCredit.Limited?)
            && (s'.status != Failed(StorageFailed) && s'.status != Failed(SendFailed) ==> s' == full)
            && (a.sendCredit.Limited? && a.storeCredit.Unlimited? ==>
                  var most := |Frames(s.log)| + a.sendCredit.left;
                  && (s'.status == Failed(SendFailed) <==> |Frames(full.log)| > most)
                  && |Frames(s'.log)| == if |Frames(full.log)| > most then most else |Frames(full.log)|)
  {
    hide Run, Frames, Apply;
    var s := Run(h, direction, arrivals);
    RunSnoc(h, direction, arrivals, a);
    RunSnoc(h, direction, arrivals, a.(storeCredit := Unlimited, sendCredit := Unlimited));
    var w := World(s.fsm, a.store, a.storeCredit, a.sendCredit, s.log);
    ApplyCut(h, w, a.msg);
  }
}
