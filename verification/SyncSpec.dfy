/** The server's session state machine (worker/src/services/sync_fsm.rs) as functions on
    values.  `SyncFsm` in SyncFsm.dfy is the mutable object that refines them; the session
    loop and the whole-system models are built from them. */
module SyncSpec {
  import opened Protocol
  import opened PageStore

  /** The fields of `SyncFsm`. */
  datatype Fsm = Fsm(
    direction: Direction,
    sawHello: bool,
    completedHashPhase: bool,
    pendingRequests: set<nat>,
    clientSeen: set<nat>,
    serverMaxPage: nat,
    pagesTransferred: nat,
    bytesTransferred: nat,
    emittedComplete: bool)

  function NewFsm(direction: Direction): Fsm {
    Fsm(direction, false, false, {}, {}, 0, 0, 0, false)
  }

  /** How many more calls of a fallible resource succeed before one fails.  A session ends at
      its first failure, so this covers every way storage and sending can fail. */
  datatype Credit = Unlimited | Limited(left: nat)

  function Spend(c: Credit): Credit
    requires c != Limited(0)
  {
    if c.Unlimited? then c else Limited(c.left - 1)
  }

  /** What a session does to the outside world, in order: frames it sends, pages it stores. */
  datatype Event = Sent(frame: SyncMessage) | Stored(pageNo: nat, size: nat)

  datatype World = World(
    fsm: Fsm,
    store: Store,
    storeCredit: Credit,
    sendCredit: Credit,
    log: seq<Event>)

  datatype Failure =
    | VersionMismatch
    | HelloExpected
    | HelloRepeated
    | ServerMessageFromClient
    | StorageFailed
    | SendFailed

  /** The result of a fallible step: the world it leaves behind and, if it was cut short,
      why.  It is failure-compatible, so `:-` reads like `?` in the source. */
  datatype Step = Step(world: World, error: Option<Failure>) {
    predicate IsFailure() {
      error.Some?
    }
    function PropagateFailure(): Step
      requires IsFailure()
    {
      this
    }
    function Extract(): World
      requires !IsFailure()
    {
      world
    }
  }

  function Done(w: World): Step {
    Step(w, None)
  }

  function Fail(w: World, f: Failure): Step {
    Step(w, Some(f))
  }

  /** One call of the `emit` callback. */
  function Emit(w: World, frame: SyncMessage): Step {
    if w.sendCredit == Limited(0) then Fail(w, SendFailed)
    else Done(w.(sendCredit := Spend(w.sendCredit), log := w.log + [Sent(frame)]))
  }

  /** One storage call; what it reads or writes is up to the caller. */
  function Charge(w: World): Step {
    if w.storeCredit == Limited(0) then Fail(w, StorageFailed)
    else Done(w.(storeCredit := Spend(w.storeCredit)))
  }

  /** Count one transferred page of `size` bytes in the 64-bit counters. */
  function Count(w: World, size: nat): World {
    w.(fsm := w.fsm.(pagesTransferred := Wrap64(w.fsm.pagesTransferred + 1),
                     bytesTransferred := Wrap64(w.fsm.bytesTransferred + size)))
  }

  ghost function HandleHello(w: World, protocolVersion: nat, pageSize: nat): Step {
    if protocolVersion != PROTOCOL_VERSION then Fail(w, VersionMismatch)
    else
      var w :- Charge(w.(fsm := w.fsm.(sawHello := true)));
      var w := w.(fsm := w.fsm.(serverMaxPage := MaxPage(w.store)));
      Emit(w, HelloReply(PROTOCOL_VERSION, pageSize, w.fsm.serverMaxPage))
  }

  /** Count a page, then send it. */
  function SendPage(w: World, pageNo: nat, data: Bytes): Step {
    Emit(Count(w, |data|), PageData(pageNo, data))
  }

  function HandlePageHash(w: World, pageNo: nat, hash: Bytes): Step {
    var w :- Charge(w.(fsm := w.fsm.(clientSeen := w.fsm.clientSeen + {pageNo})));
    if pageNo in w.store && w.store[pageNo].hash == hash then Done(w)
    else
      match w.fsm.direction
      case Push =>
        Emit(w.(fsm := w.fsm.(pendingRequests := w.fsm.pendingRequests + {pageNo})), RequestPage(pageNo))
      case Pull =>
        var w :- Charge(w);
        if pageNo in w.store then SendPage(w, pageNo, w.store[pageNo].data) else Done(w)
  }

  function HandlePageHashBatch(h: Hash, w: World, start: nat, end: nat, clientCombined: Bytes): Step {
    var w :- Charge(w.(fsm := w.fsm.(clientSeen := w.fsm.clientSeen + PageSet(start, end))));
    if CombinedHash(h, w.store, start, end) == clientCombined then Done(w)
    else Emit(w, HashMismatchBatch(PageRange(start, end)))
  }

  function HandlePageData(h: Hash, w: World, pageNo: nat, data: Bytes): Step {
    var w :- StorePage(h, w, pageNo, data);
    MaybeEmitComplete(w)
  }

  function StorePage(h: Hash, w: World, pageNo: nat, data: Bytes): Step {
    var w :- Charge(w.(fsm := w.fsm.(pendingRequests := w.fsm.pendingRequests - {pageNo})));
    var w := w.(store := w.store[pageNo := Page(data, DigestOf(h, data))], log := w.log + [Stored(pageNo, |data|)]);
    Done(Count(w, |data|))
  }

  function HandlePageDataBatch(h: Hash, w: World, pages: seq<PageDataEntry>): Step
    decreases |pages|
  {
    if pages == [] then Done(w)
    else
      var w :- HandlePageData(h, w, pages[0].pageNo, pages[0].data);
      HandlePageDataBatch(h, w, pages[1..])
  }

  function HandleComplete(w: World): Step {
    var w := w.(fsm := w.fsm.(completedHashPhase := true));
    if w.fsm.direction.Pull? && w.fsm.serverMaxPage > 0 then
      var w :- Charge(w);
      var w :- Walk(w, 1, w.fsm.serverMaxPage);
      MaybeEmitComplete(w)
    else
      MaybeEmitComplete(w)
  }

  /** The walk over the stored pages `pageNo..=last`, sending those the client did not claim. */
  function Walk(w: World, pageNo: nat, last: nat): Step
    decreases last + 1 - pageNo
  {
    if pageNo > last then Done(w)
    else if pageNo !in w.store then Walk(w, pageNo + 1, last)
    else
      var w :- Charge(w);
      var w :- WalkPage(w, pageNo, w.store[pageNo].data);
      Walk(w, pageNo + 1, last)
  }

  /** The walk's callback on one row. */
  function WalkPage(w: World, pageNo: nat, data: Bytes): Step {
    if pageNo in w.fsm.clientSeen then Done(w)
    else SendPage(w, pageNo, data)
  }

  function MaybeEmitComplete(w: World): Step {
    if w.fsm.emittedComplete || !w.fsm.completedHashPhase || w.fsm.pendingRequests != {} then Done(w)
    else
      var w :- Emit(w, SyncComplete(w.fsm.pagesTransferred, w.fsm.bytesTransferred));
      Done(w.(fsm := w.fsm.(emittedComplete := true)))
  }

  ghost function Apply(h: Hash, w: World, msg: SyncMessage): Step {
    if !w.fsm.sawHello then
      match msg
      case Hello(version, pageSize, _) => HandleHello(w, version, pageSize)
      case _ => Fail(w, HelloExpected)
    else
      match msg
      case Hello(_, _, _) => Fail(w, HelloRepeated)
      case PageHash(pageNo, hash) => HandlePageHash(w, pageNo, hash)
      case PageHashBatch(start, end, combined) => HandlePageHashBatch(h, w, start, end, combined)
      case PageData(pageNo, data) => HandlePageData(h, w, pageNo, data)
      case PageDataBatch(pages) => HandlePageDataBatch(h, w, pages)
      case Complete => HandleComplete(w)
      case _ => Fail(w, ServerMessageFromClient)
  }

  /** `client_closed`: the gate with a sink that accepts everything and delivers nothing. */
  function ClientClosed(fsm: Fsm): Fsm {
    if fsm.sawHello && fsm.pendingRequests == {}
    then MaybeEmitComplete(World(fsm, map[], Unlimited, Unlimited, [])).world.fsm
    else fsm
  }

  /** The frames a log shows were sent. */
  function Frames(log: seq<Event>): seq<SyncMessage> {
    if log == [] then []
    else
      var last := log[|log| - 1];
      Frames(log[..|log| - 1]) + (if last.Sent? then [last.frame] else [])
  }

  lemma {:induction false} FramesSnoc(log: seq<Event>, e: Event)
    ensures Frames(log + [e]) == Frames(log) + (if e.Sent? then [e.frame] else [])
  {
    assert (log + [e])[..|log|] == log;
  }
}
