/** One server session with any client: the loop of `handle_upgrade`
    (worker/src/do_sync_ws.rs) delivers frames to the state machine until the first error
    or until it is done.  Nothing is assumed of the client, of the other sessions that share
    the store, or of the moment at which storage or sending fails. */
module Session {
  import opened Protocol
  import opened PageStore
  import opened SyncSpec

  datatype Status = Open | Finished | Failed(why: Failure)

  datatype Session = Session(fsm: Fsm, log: seq<Event>, status: Status)

  /** A frame from the client, the store as other sessions left it, and how long the
      storage and the socket will keep working. */
  datatype Arrival = Arrival(msg: SyncMessage, store: Store, storeCredit: Credit, sendCredit: Credit)

  function NewSession(direction: Direction): Session {
    Session(NewFsm(direction), [], Open)
  }

  function StatusAfter(step: Step): Status {
    match step.error
    case Some(why) => Failed(why)
    case None => if step.world.fsm.emittedComplete then Finished else Open
  }

  function Reason(why: Failure): string {
    match why
    case VersionMismatch => "protocol_version mismatch"
    case HelloExpected => "first message must be Hello"
    case HelloRepeated => "Hello may only be sent once"
    case ServerMessageFromClient => "client may not send server-originated message"
    case StorageFailed => "storage"
    case SendFailed => "ws send"
  }

  /** The loop reports every failure but a lost socket to the client before it closes. */
  function ErrorFrames(step: Step): seq<SyncMessage> {
    match step.error
    case Some(why) => if why == SendFailed then [] else [Error(Reason(why))]
    case None => []
  }

  ghost function Deliver(h: Hash, s: Session, a: Arrival): Session {
    if !s.status.Open? then s
    else
      var step := Apply(h, World(s.fsm, a.store, a.storeCredit, a.sendCredit, s.log), a.msg);
      Session(step.world.fsm, step.world.log, StatusAfter(step))
  }

  ghost function Run(h: Hash, direction: Direction, arrivals: seq<Arrival>): Session {
    if arrivals == [] then NewSession(direction)
    else Deliver(h, Run(h, direction, arrivals[..|arrivals| - 1]), arrivals[|arrivals| - 1])
  }

  lemma {:induction false} RunSnoc(h: Hash, direction: Direction, arrivals: seq<Arrival>, a: Arrival)
    ensures Run(h, direction, arrivals + [a]) == Deliver(h, Run(h, direction, arrivals), a)
  {
    assert (arrivals + [a])[..|arrivals|] == arrivals;
  }

  // ----- What a log says by itself, independently of the state machine -----

  datatype Stage = Silent | Talking | Closed

  /** Silent until HelloReply, talking until SyncComplete. */
  function StageOf(log: seq<Event>): Stage {
    if log == [] then Silent
    else
      match log[|log| - 1]
      case Sent(HelloReply(_, _, _)) => Talking
      case Sent(SyncComplete(_, _)) => Closed
      case _ => StageOf(log[..|log| - 1])
  }

  /** The pages requested and not stored since. */
  function Outstanding(log: seq<Event>): set<nat> {
    if log == [] then {}
    else
      var before := Outstanding(log[..|log| - 1]);
      match log[|log| - 1]
      case Sent(RequestPage(k)) => before + {k}
      case Stored(k, _) => before - {k}
      case _ => before
  }

  /** The size of the page an event moves, if it moves one. */
  function Moves(e: Event): Option<nat> {
    match e
    case Sent(PageData(_, data)) => Some(|data|)
    case Stored(_, size) => Some(size)
    case _ => None
  }

  function PagesMoved(log: seq<Event>): nat {
    if log == [] then 0
    else PagesMoved(log[..|log| - 1]) + (if Moves(log[|log| - 1]).Some? then 1 else 0)
  }

  function BytesMoved(log: seq<Event>): nat {
    if log == [] then 0
    else
      var moved := Moves(log[|log| - 1]);
      BytesMoved(log[..|log| - 1]) + (if moved.Some? then moved.value else 0)
  }

  /** May `e` follow `before` in a session of this direction? */
  predicate Permitted(direction: Direction, before: seq<Event>, e: Event) {
    match e
    case Stored(_, _) => StageOf(before) != Silent
    case Sent(HelloReply(_, _, _)) => before == []
    case Sent(RequestPage(_)) => direction.Push? && StageOf(before) == Talking
    case Sent(PageData(_, _)) => direction.Pull? && StageOf(before) == Talking
    case Sent(HashMismatchBatch(_)) => StageOf(before) == Talking
    case Sent(SyncComplete(pages, bytes)) =>
      && StageOf(before) == Talking
      && Outstanding(before) == {}
      && pages == Wrap64(PagesMoved(before))
      && bytes == Wrap64(BytesMoved(before))
    case Sent(_) => false
  }

  /** Every event of the log was permitted when it happened. */
  predicate Lawful(direction: Direction, log: seq<Event>) {
    log == [] || (Lawful(direction, log[..|log| - 1]) && Permitted(direction, log[..|log| - 1], log[|log| - 1]))
  }

  lemma {:induction false} Snoc(direction: Direction, log: seq<Event>, e: Event)
    ensures StageOf(log + [e]) == (match e
                                   case Sent(HelloReply(_, _, _)) => Talking
                                   case Sent(SyncComplete(_, _)) => Closed
                                   case _ => StageOf(log))
    ensures Outstanding(log + [e]) == (match e
                                       case Sent(RequestPage(k)) => Outstanding(log) + {k}
                                       case Stored(k, _) => Outstanding(log) - {k}
                                       case _ => Outstanding(log))
    ensures PagesMoved(log + [e]) == PagesMoved(log) + (if Moves(e).Some? then 1 else 0)
    ensures BytesMoved(log + [e]) == BytesMoved(log) + (if Moves(e).Some? then Moves(e).value else 0)
    ensures Lawful(direction, log + [e]) <==> Lawful(direction, log) && Permitted(direction, log, e)
  {
    assert (log + [e])[..|log|] == log;
  }

  // ----- The invariant of a session that has answered Hello -----

  /** The fields say exactly what the log says. */
  predicate Consistent(fsm: Fsm, log: seq<Event>) {
    && fsm.sawHello
    && Lawful(fsm.direction, log)
    && StageOf(log) == (if fsm.emittedComplete then Closed else Talking)
    && fsm.pendingRequests == Outstanding(log)
    && fsm.pagesTransferred == Wrap64(PagesMoved(log))
    && fsm.bytesTransferred == Wrap64(BytesMoved(log))
  }

  /** The completion gate: done exactly when nothing is left to wait for. */
  predicate Gate(fsm: Fsm) {
    fsm.emittedComplete <==> fsm.completedHashPhase && fsm.pendingRequests == {}
  }

  /** What every step keeps: its log is lawful even if it was cut short, and if it was not,
      the fields still agree with the log and with the gate. */
  predicate Keeps(direction: Direction, step: Step) {
    && step.world.fsm.direction == direction
    && Lawful(direction, step.world.log)
    && (step.error.None? ==> Consistent(step.world.fsm, step.world.log))
  }

  lemma {:induction false} CountOne(w: World, size: nat)
    ensures Count(w, size).fsm.pagesTransferred == Wrap64(w.fsm.pagesTransferred + 1)
    ensures Count(w, size).fsm.bytesTransferred == Wrap64(w.fsm.bytesTransferred + size)
    ensures Wrap64(Wrap64(PagesMoved(w.log)) + 1) == Wrap64(PagesMoved(w.log) + 1)
    ensures Wrap64(Wrap64(BytesMoved(w.log)) + size) == Wrap64(BytesMoved(w.log) + size)
  {
  }

  lemma {:induction false} EmitCompleteKeeps(w: World)
    requires Consistent(w.fsm, w.log)
    requires w.fsm.emittedComplete ==> Gate(w.fsm)
    ensures Keeps(w.fsm.direction, MaybeEmitComplete(w))
    ensures MaybeEmitComplete(w).error.None? ==> Gate(MaybeEmitComplete(w).world.fsm)
  {
    hide StageOf, Outstanding, PagesMoved, BytesMoved, Lawful;
    Snoc(w.fsm.direction, w.log, Sent(SyncComplete(w.fsm.pagesTransferred, w.fsm.bytesTransferred)));
  }

  lemma {:induction false} HelloKeeps(w: World, version: nat, pageSize: nat)
    requires !w.fsm.sawHello && w.log == [] && w.fsm == NewFsm(w.fsm.direction)
    ensures Keeps(w.fsm.direction, HandleHello(w, version, pageSize))
    ensures HandleHello(w, version, pageSize).error.None? ==> Gate(HandleHello(w, version, pageSize).world.fsm)
  {
    Snoc(w.fsm.direction, w.log, Sent(HelloReply(PROTOCOL_VERSION, pageSize, MaxPage(w.store))));
  }

  /** A walk in progress: nothing is complete yet and `completed` does not change. */
  predicate Walking(w: World, completed: bool) {
    && Consistent(w.fsm, w.log)
    && w.fsm.direction.Pull?
    && !w.fsm.emittedComplete
    && w.fsm.completedHashPhase == completed
  }

  lemma {:induction false} SendPageKeeps(w: World, pageNo: nat, data: Bytes)
    requires Walking(w, w.fsm.completedHashPhase)
    ensures Lawful(Pull, SendPage(w, pageNo, data).world.log)
    ensures SendPage(w, pageNo, data).world.fsm.direction == Pull
    ensures SendPage(w, pageNo, data).error.None? ==>
              && Walking(SendPage(w, pageNo, data).world, w.fsm.completedHashPhase)
              && SendPage(w, pageNo, data).world.fsm.pendingRequests == w.fsm.pendingRequests
  {
    hide StageOf, Outstanding, PagesMoved, BytesMoved, Lawful;
    Snoc(Pull, w.log, Sent(PageData(pageNo, data)));
    CountOne(w, |data|);
  }

  lemma {:induction false} PageHashKeeps(w: World, pageNo: nat, hash: Bytes)
    requires Consistent(w.fsm, w.log) && Gate(w.fsm) && !w.fsm.emittedComplete
    ensures Keeps(w.fsm.direction, HandlePageHash(w, pageNo, hash))
    ensures HandlePageHash(w, pageNo, hash).error.None? ==> Gate(HandlePageHash(w, pageNo, hash).world.fsm)
  {
    hide StageOf, Outstanding, PagesMoved, BytesMoved, Lawful;
    Snoc(w.fsm.direction, w.log, Sent(RequestPage(pageNo)));
    if w.fsm.direction.Pull? && pageNo in w.store {
      var seen := Charge(w.(fsm := w.fsm.(clientSeen := w.fsm.clientSeen + {pageNo})));
      if seen.error.None? && Charge(seen.world).error.None? {
        SendPageKeeps(Charge(seen.world).world, pageNo, w.store[pageNo].data);
        hide SendPage;
      }
    }
  }

  lemma {:induction false} PageHashBatchKeeps(h: Hash, w: World, start: nat, end: nat, combined: Bytes)
    requires Consistent(w.fsm, w.log) && Gate(w.fsm) && !w.fsm.emittedComplete
    ensures Keeps(w.fsm.direction, HandlePageHashBatch(h, w, start, end, combined))
    ensures HandlePageHashBatch(h, w, start, end, combined).error.None? ==>
              Gate(HandlePageHashBatch(h, w, start, end, combined).world.fsm)
  {
    hide StageOf, Outstanding, PagesMoved, BytesMoved, Lawful;
    Snoc(w.fsm.direction, w.log, Sent(HashMismatchBatch(PageRange(start, end))));
  }

  lemma {:induction false} PageDataKeeps(h: Hash, w: World, pageNo: nat, data: Bytes)
    requires Consistent(w.fsm, w.log) && Gate(w.fsm)
    ensures Keeps(w.fsm.direction, HandlePageData(h, w, pageNo, data))
    ensures HandlePageData(h, w, pageNo, data).error.None? ==> Gate(HandlePageData(h, w, pageNo, data).world.fsm)
  {
    hide StageOf, Outstanding, PagesMoved, BytesMoved, Lawful;
    Snoc(w.fsm.direction, w.log, Stored(pageNo, |data|));
    CountOne(w, |data|);
    var stored := StorePage(h, w, pageNo, data);
    if stored.error.None? {
      EmitCompleteKeeps(stored.world);
    }
  }

  lemma {:induction false} PageDataBatchKeeps(h: Hash, w: World, pages: seq<PageDataEntry>)
    requires Consistent(w.fsm, w.log) && Gate(w.fsm)
    ensures Keeps(w.fsm.direction, HandlePageDataBatch(h, w, pages))
    ensures HandlePageDataBatch(h, w, pages).error.None? ==> Gate(HandlePageDataBatch(h, w, pages).world.fsm)
    decreases |pages|
  {
    if pages != [] {
      PageDataKeeps(h, w, pages[0].pageNo, pages[0].data);
      var first := HandlePageData(h, w, pages[0].pageNo, pages[0].data);
      if first.error.None? {
        PageDataBatchKeeps(h, first.world, pages[1..]);
      }
    }
  }

  lemma {:induction false} WalkPageKeeps(w: World, pageNo: nat, data: Bytes)
    requires Walking(w, w.fsm.completedHashPhase)
    ensures Lawful(Pull, WalkPage(w, pageNo, data).world.log)
    ensures WalkPage(w, pageNo, data).world.fsm.direction == Pull
    ensures WalkPage(w, pageNo, data).error.None? ==>
              Walking(WalkPage(w, pageNo, data).world, w.fsm.completedHashPhase)
  {
    SendPageKeeps(w, pageNo, data);
    hide SendPage;
  }

  lemma {:induction false} WalkKeeps(w: World, pageNo: nat, last: nat)
    requires Walking(w, w.fsm.completedHashPhase)
    ensures Lawful(Pull, Walk(w, pageNo, last).world.log)
    ensures Walk(w, pageNo, last).world.fsm.direction == Pull
    ensures Walk(w, pageNo, last).error.None? ==> Walking(Walk(w, pageNo, last).world, w.fsm.completedHashPhase)
    decreases last + 1 - pageNo
  {
    hide StageOf, Outstanding, PagesMoved, BytesMoved, WalkPage;
    if pageNo <= last {
      if pageNo !in w.store {
        WalkKeeps(w, pageNo + 1, last);
      } else {
        var row := Charge(w);
        if row.error.None? {
          assert Walking(row.world, w.fsm.completedHashPhase);
          WalkPageKeeps(row.world, pageNo, w.store[pageNo].data);
          var sent := WalkPage(row.world, pageNo, w.store[pageNo].data);
          if sent.error.None? {
            WalkKeeps(sent.world, pageNo + 1, last);
          }
        }
      }
    }
  }

  lemma {:induction false} CompleteKeeps(w: World)
    requires Consistent(w.fsm, w.log) && !w.fsm.emittedComplete
    ensures Keeps(w.fsm.direction, HandleComplete(w))
    ensures HandleComplete(w).error.None? ==> Gate(HandleComplete(w).world.fsm)
  {
    var w1 := w.(fsm := w.fsm.(completedHashPhase := true));
    if w.fsm.direction.Pull? && w.fsm.serverMaxPage > 0 {
      var w2 := Charge(w1);
      if w2.error.None? {
        WalkKeeps(w2.world, 1, w.fsm.serverMaxPage);
        var w3 := Walk(w2.world, 1, w.fsm.serverMaxPage);
        if w3.error.None? {
          EmitCompleteKeeps(w3.world);
        }
      }
    } else {
      EmitCompleteKeeps(w1);
    }
  }

  /** The invariant of a session at the top of the loop. */
  predicate Sound(direction: Direction, s: Session) {
    && s.fsm.direction == direction
    && Lawful(direction, s.log)
    && match s.status
       case Open =>
         if s.fsm.sawHello then Consistent(s.fsm, s.log) && Gate(s.fsm) && !s.fsm.emittedComplete
         else s.fsm == NewFsm(direction) && s.log == []
       case Finished => Consistent(s.fsm, s.log) && Gate(s.fsm) && s.fsm.emittedComplete
       case Failed(_) => true
  }

  lemma {:induction false} DeliverKeeps(h: Hash, direction: Direction, s: Session, a: Arrival)
    requires Sound(direction, s)
    ensures Sound(direction, Deliver(h, s, a))
  {
    if s.status.Open? {
      var w := World(s.fsm, a.store, a.storeCredit, a.sendCredit, s.log);
      if !s.fsm.sawHello {
        if a.msg.Hello? {
          HelloKeeps(w, a.msg.protocolVersion, a.msg.pageSize);
        }
      } else {
        match a.msg
        case PageHash(pageNo, hash) => PageHashKeeps(w, pageNo, hash);
        case PageHashBatch(start, end, combined) => PageHashBatchKeeps(h, w, start, end, combined);
        case PageData(pageNo, data) => PageDataKeeps(h, w, pageNo, data);
        case PageDataBatch(pages) => PageDataBatchKeeps(h, w, pages);
        case Complete => CompleteKeeps(w);
        case _ =>
      }
    }
  }

  lemma {:induction false} RunIsSound(h: Hash, direction: Direction, arrivals: seq<Arrival>)
    ensures Sound(direction, Run(h, direction, arrivals))
  {
    if arrivals != [] {
      RunIsSound(h, direction, arrivals[..|arrivals| - 1]);
      DeliverKeeps(h, direction, Run(h, direction, arrivals[..|arrivals| - 1]), arrivals[|arrivals| - 1]);
    }
  }

  // ----- What follows for every run of every client -----

  lemma {:induction false} LawfulAt(direction: Direction, log: seq<Event>, i: nat)
    requires Lawful(direction, log) && i < |log|
    ensures Lawful(direction, log[..i]) && Permitted(direction, log[..i], log[i])
  {
    var init := log[..|log| - 1];
    if i < |init| {
      LawfulAt(direction, init, i);
      assert init[..i] == log[..i];
    }
  }

  /** Nothing; or HelloReply, then requests (push) or page data (pull) and batch mismatches,
      then at most one SyncComplete, and nothing after it. */
  predicate Grammatical(direction: Direction, frames: seq<SyncMessage>) {
    forall i | 0 <= i < |frames| ::
      match frames[i]
      case HelloReply(_, _, _) => i == 0
      case RequestPage(_) => i > 0 && direction.Push?
      case PageData(_, _) => i > 0 && direction.Pull?
      case HashMismatchBatch(_) => i > 0
      case SyncComplete(_, _) => i > 0 && i == |frames| - 1
      case _ => false
  }

  lemma {:induction false} LawfulIsGrammatical(direction: Direction, log: seq<Event>)
    requires Lawful(direction, log)
    ensures Grammatical(direction, Frames(log))
    ensures StageOf(log) == Silent <==> Frames(log) == []
    ensures StageOf(log) == Silent ==> log == []
    ensures StageOf(log) == Closed <==> Frames(log) != [] && Frames(log)[|Frames(log)| - 1].SyncComplete?
  {
    if log != [] {
      LawfulIsGrammatical(direction, log[..|log| - 1]);
    }
  }

  /** Trace grammar: whatever the client sends and wherever storage or a send fails, the
      frames of a session form a sentence of the grammar, and a session that ended well is
      one whose last frame is SyncComplete. */
  lemma {:induction false} TraceGrammar(h: Hash, direction: Direction, arrivals: seq<Arrival>)
    ensures var s := Run(h, direction, arrivals);
            var frames := Frames(s.log);
            && Grammatical(direction, frames)
            && (s.status == Finished ==> frames != [] && frames[|frames| - 1].SyncComplete?)
            && (s.status == Open ==> forall i | 0 <= i < |frames| :: !frames[i].SyncComplete?)
  {
    RunIsSound(h, direction, arrivals);
    LawfulIsGrammatical(direction, Run(h, direction, arrivals).log);
  }

  lemma {:induction false} StillOutstanding(log: seq<Event>, j: nat, k: nat)
    requires j < |log| && log[j] == Sent(RequestPage(k))
    requires forall m | j < m < |log| :: !(log[m].Stored? && log[m].pageNo == k)
    ensures k in Outstanding(log)
  {
    var init := log[..|log| - 1];
    if j < |init| {
      StillOutstanding(init, j, k);
      assert log[|init|] != Sent(RequestPage(k)) ==> log[|init|].Stored? ==> log[|init|].pageNo != k;
    }
  }

  /** When SyncComplete goes out, data has been stored for every page requested before it,
      after the request, and its totals count exactly the pages moved up to that moment. */
  lemma {:induction false} CompletionIsEarned(h: Hash, direction: Direction, arrivals: seq<Arrival>, i: nat)
    requires i < |Run(h, direction, arrivals).log|
    requires Run(h, direction, arrivals).log[i].Sent?
    requires Run(h, direction, arrivals).log[i].frame.SyncComplete?
    ensures var log := Run(h, direction, arrivals).log;
            && log[i].frame.pagesTransferred == Wrap64(PagesMoved(log[..i]))
            && log[i].frame.bytesTransferred == Wrap64(BytesMoved(log[..i]))
            && forall j, k | 0 <= j < i && log[j] == Sent(RequestPage(k)) ::
                 exists m | j < m < i :: log[m].Stored? && log[m].pageNo == k
  {
    RunIsSound(h, direction, arrivals);
    var log := Run(h, direction, arrivals).log;
    LawfulAt(direction, log, i);
    forall j, k | 0 <= j < i && log[j] == Sent(RequestPage(k))
      ensures exists m | j < m < i :: log[m].Stored? && log[m].pageNo == k
    {
      if forall m | j < m < i :: !(log[m].Stored? && log[m].pageNo == k) {
        StillOutstanding(log[..i], j, k);
        assert false;
      }
    }
  }

  /** Between frames, done() means exactly that the hash phase is over and no page is awaited,
      and the awaited pages are exactly the ones the log shows requested and not yet stored. */
  lemma {:induction false} CompletionGate(h: Hash, direction: Direction, arrivals: seq<Arrival>)
    ensures var s := Run(h, direction, arrivals);
            !s.status.Failed? ==>
              && (s.fsm.emittedComplete <==> s.fsm.completedHashPhase && s.fsm.pendingRequests == {})
              && (s.fsm.emittedComplete <==> s.status == Finished)
              && s.fsm.pendingRequests == Outstanding(s.log)
  {
    RunIsSound(h, direction, arrivals);
  }

  /** A peer that closes an error-free session changes nothing. */
  lemma {:induction false} ClosingIsIdle(h: Hash, direction: Direction, arrivals: seq<Arrival>)
    requires !Run(h, direction, arrivals).status.Failed?
    ensures ClientClosed(Run(h, direction, arrivals).fsm) == Run(h, direction, arrivals).fsm
  {
    RunIsSound(h, direction, arrivals);
  }
}
