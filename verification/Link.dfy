/** What a push and a pull have in common: the frames of the hash phase, the handshake and
    the frames a server step sends. */
module Link {
  import opened Protocol
  import opened PageStore
  import opened SyncSpec
  import opened SyncClient

  /** The announcements of pages `lo` up to, not including, `hi`. */
  function HashFrames(h: Hash, db: LocalDb, lo: nat, hi: nat): (frames: seq<SyncMessage>)
    requires lo <= hi
    ensures |frames| == hi - lo
    ensures forall i | 0 <= i < hi - lo :: frames[i] == PageHash(lo + i, HashAt(h, db, lo + i))
  {
    seq(hi - lo, i requires 0 <= i < hi - lo => PageHash(lo + i, HashAt(h, db, lo + i)))
  }

  lemma {:induction false} HashFramesUncons(h: Hash, db: LocalDb, lo: nat, hi: nat)
    requires lo < hi
    ensures HashFrames(h, db, lo, hi) == [PageHash(lo, HashAt(h, db, lo))] + HashFrames(h, db, lo + 1, hi)
  {
  }

  lemma {:induction false} HashFramesSnoc(h: Hash, db: LocalDb, lo: nat, hi: nat)
    requires lo <= hi
    ensures HashFrames(h, db, lo, hi + 1) == HashFrames(h, db, lo, hi) + [PageHash(hi, HashAt(h, db, hi))]
  {
  }

  function Only(present: bool, frame: SyncMessage): seq<SyncMessage> {
    if present then [frame] else []
  }

  /** Nothing fails in this world. */
  predicate Reliable(w: World) {
    w.storeCredit.Unlimited? && w.sendCredit.Unlimited?
  }

  /** A step that sent nothing and stored nothing. */
  predicate Inert(w: World, step: Step) {
    && Frames(step.world.log) == []
    && step.world.store == w.store
    && step.world.fsm.pagesTransferred == w.fsm.pagesTransferred
  }

  /** The frames of a log of one or two events. */
  lemma {:induction false} FramesOfFew(e: Event, e': Event)
    ensures Frames([e]) == if e.Sent? then [e.frame] else []
    ensures Frames([e, e']) == Frames([e]) + if e'.Sent? then [e'.frame] else []
  {
    FramesSnoc([], e);
    assert [] + [e] == [e];
    FramesSnoc([e], e');
    assert [e] + [e'] == [e, e'];
  }

  predicate HelloOutcome(w: World, maxPage: nat, step: Step) {
    && (Reliable(w) ==> step.error.None?)
    && (step.error.Some? ==> Inert(w, step))
    && (step.error.None? ==>
          && step.world.store == w.store
          && step.world.fsm == w.fsm.(sawHello := true, serverMaxPage := maxPage)
          && Frames(step.world.log) == [HelloReply(PROTOCOL_VERSION, DEFAULT_PAGE_SIZE, maxPage)])
  }

  lemma {:induction false} HelloEffect(h: Hash, w: World, clientMax: nat)
    requires w.fsm == NewFsm(w.fsm.direction) && w.log == []
    ensures HelloOutcome(w, MaxPage(w.store), Apply(h, w, Hello(PROTOCOL_VERSION, DEFAULT_PAGE_SIZE, clientMax)))
  {
    var e := Sent(HelloReply(PROTOCOL_VERSION, DEFAULT_PAGE_SIZE, MaxPage(w.store)));
    FramesOfFew(e, e);
    assert [] + [e] == [e];
  }

  /** The gate, with its one event. */
  lemma {:induction false} GateEffect(w: World)
    requires !w.fsm.emittedComplete
    ensures var step := MaybeEmitComplete(w);
            var opens := w.fsm.completedHashPhase && w.fsm.pendingRequests == {};
            && (Reliable(w) ==> step.error.None?)
            && step.world.store == w.store
            && step.world.fsm.pagesTransferred == w.fsm.pagesTransferred
            && (step.error.Some? ==> step.world.log == w.log)
            && (step.error.None? ==>
                  && step.world.fsm == w.fsm.(emittedComplete := opens)
                  && step.world.log == w.log + if opens then
                       [Sent(SyncComplete(w.fsm.pagesTransferred, w.fsm.bytesTransferred))] else [])
  {
  }
}
