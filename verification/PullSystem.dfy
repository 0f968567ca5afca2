/** A whole pull: the shipped client with its open transaction, the two queues of one
    connection and a server session, while any number of other sessions, of any clients, work
    on the same store between its steps. */
module PullSystem {
  import opened Protocol
  import opened PageStore
  import opened SyncSpec
  import opened Session
  import opened SyncClient
  import opened Link

  /** `history` is what the store has been from this session's Hello on, for as long as the
      session is open: an observer's record, read by no peer. */
  datatype PullSys = PullSys(
    client: PullClient,
    c2s: seq<SyncMessage>,
    s2c: seq<SyncMessage>,
    fsm: Fsm,
    store: Store,
    server: Status,
    history: seq<Store>)

  /** `Other` is another session, in whatever state, handling one frame of its client. */
  datatype Action =
    | Client(act: PullAction)
    | Server(storeCredit: Credit, sendCredit: Credit)
    | Other(fsm: Fsm, msg: SyncMessage, storeCredit: Credit, sendCredit: Credit)

  function Init(store: Store, db: LocalDb): PullSys {
    PullSys(NewPullClient(db), [], [], NewFsm(Direction.Pull), store, Open, [])
  }

  predicate Enabled(db: LocalDb, sys: PullSys, a: Action) {
    match a
    case Client(act) => PullEnabled(db, PullSide(sys.client, sys.s2c, sys.c2s), act)
    case Server(_, _) => sys.server.Open? && sys.c2s != []
    case Other(_, _, _, _) => true
  }

  ghost function ServerStep(h: Hash, sys: PullSys, storeCredit: Credit, sendCredit: Credit): Step
    requires sys.c2s != []
  {
    Apply(h, World(sys.fsm, sys.store, storeCredit, sendCredit, []), sys.c2s[0])
  }

  /** The server consumed the next frame.  Its first success is the answer to Hello. */
  function Settle(sys: PullSys, step: Step): PullSys
    requires sys.c2s != []
  {
    PullSys(sys.client, sys.c2s[1..], sys.s2c + Frames(step.world.log) + ErrorFrames(step),
            step.world.fsm, step.world.store, StatusAfter(step),
            if sys.history == [] && step.error.None? then [step.world.store] else sys.history)
  }

  /** The store was changed by somebody else. */
  function Disturb(sys: PullSys, store: Store): PullSys {
    sys.(store := store,
         history := if sys.history != [] && sys.server.Open? then sys.history + [store] else sys.history)
  }

  ghost function OtherStore(h: Hash, store: Store, a: Action): Store
    requires a.Other?
  {
    Apply(h, World(a.fsm, store, a.storeCredit, a.sendCredit, []), a.msg).world.store
  }

  ghost function Do(h: Hash, db: LocalDb, sys: PullSys, a: Action): PullSys
    requires Enabled(db, sys, a)
  {
    match a
    case Client(act) =>
      var side := PullStep(h, db, PullSide(sys.client, sys.s2c, sys.c2s), act);
      sys.(client := side.client, s2c := side.inbound, c2s := side.outbound)
    case Server(storeCredit, sendCredit) => Settle(sys, ServerStep(h, sys, storeCredit, sendCredit))
    case Other(_, _, _, _) => Disturb(sys, OtherStore(h, sys.store, a))
  }

  ghost predicate IsRun(h: Hash, db: LocalDb, start: PullSys, actions: seq<Action>)
    decreases |actions|
  {
    actions != [] ==>
      && Enabled(db, start, actions[0])
      && IsRun(h, db, Do(h, db, start, actions[0]), actions[1..])
  }

  ghost function After(h: Hash, db: LocalDb, start: PullSys, actions: seq<Action>): PullSys
    requires IsRun(h, db, start, actions)
    decreases |actions|
  {
    if actions == [] then start else After(h, db, Do(h, db, start, actions[0]), actions[1..])
  }

  // ----- What a pull over an unchanging store should move -----

  /** A pull has to send page `k` of the store: the client lacks it, or has other bytes. */
  predicate Sendable(h: Hash, store: Store, db: LocalDb, k: nat) {
    k >= 1 && k in store && !(HasPage(db, k) && store[k].hash == HashAt(h, db, k))
  }

  /** The pages to be sent among `from..=last`, in page order. */
  function Shipment(h: Hash, store: Store, db: LocalDb, from: nat, last: nat): seq<PageDataEntry>
    decreases last + 1 - from
  {
    if from > last then []
    else (if Sendable(h, store, db, from) then [PageDataEntry(from, store[from].data)] else [])
         + Shipment(h, store, db, from + 1, last)
  }

  /** The client's pages overlaid with the pages a pull has to send. */
  function PullOverlay(h: Hash, store: Store, db: LocalDb): map<nat, Bytes> {
    PagesOf(db) + map k | k in store && Sendable(h, store, db, k) :: store[k].data
  }

  function TotalSize(entries: seq<PageDataEntry>): nat {
    if entries == [] then 0 else TotalSize(entries[..|entries| - 1]) + |entries[|entries| - 1].data|
  }

  function PageNos(entries: seq<PageDataEntry>): set<nat> {
    set i | 0 <= i < |entries| :: entries[i].pageNo
  }

  // ----- The shape of the queues -----

  function EntryFrames(entries: seq<PageDataEntry>): (frames: seq<SyncMessage>)
    ensures |frames| == |entries|
    ensures forall i | 0 <= i < |entries| :: frames[i] == PageData(entries[i].pageNo, entries[i].data)
  {
    seq(|entries|, i requires 0 <= i < |entries| => PageData(entries[i].pageNo, entries[i].data))
  }

  // ----- The invariant -----

  /** The server has dealt with the hashes below `lo`.  `sent` are all pages it has sent, in
      order, of which the client has read `received`; `versions[i]` says which store of the
      history `sent[i]` was read from.  `kept` maps each page the server skipped to the store
      it compared it with.  `walk` is the store the final walk ran over. */
  datatype View = View(
    lo: nat,
    complete: bool,
    finish: bool,
    sent: seq<PageDataEntry>,
    received: nat,
    versions: seq<nat>,
    kept: map<nat, nat>,
    walk: nat)

  ghost predicate QueuesFit(h: Hash, db: LocalDb, sys: PullSys, v: View) {
    && 1 <= v.lo <= sys.client.nextPage <= |db| + 1
    && v.received <= |v.sent|
    && sys.c2s == HashFrames(h, db, v.lo, sys.client.nextPage) + Only(v.complete, Complete)
    && sys.s2c == EntryFrames(v.sent[v.received..])
                  + Only(v.finish, SyncComplete(sys.fsm.pagesTransferred, sys.fsm.bytesTransferred))
  }

  ghost predicate PhasesFit(db: LocalDb, sys: PullSys, v: View) {
    && (sys.client.phase.Hashing? || sys.client.phase.Draining? || sys.client.phase.Synced?)
    && sys.fsm.sawHello && sys.fsm.direction.Pull? && sys.fsm.pendingRequests == {}
    && (sys.client.phase.Hashing? ==> !v.complete && v.received == 0)
    && (!sys.client.phase.Hashing? ==> sys.client.nextPage == |db| + 1)
    && (sys.fsm.completedHashPhase <==> !sys.client.phase.Hashing? && !v.complete)
    && (sys.fsm.completedHashPhase ==> v.lo == |db| + 1)
    && (sys.fsm.emittedComplete <==> sys.fsm.completedHashPhase)
    && (sys.fsm.emittedComplete <==> v.finish || sys.client.phase.Synced?)
    && !(v.finish && sys.client.phase.Synced?)
    && sys.server == (if sys.fsm.emittedComplete then Finished else Open)
  }

  /** The transaction holds exactly the pages read so far; the file changes on commit only. */
  ghost predicate ClientFits(db: LocalDb, sys: PullSys, v: View) {
    && v.received <= |v.sent|
    && sys.client.pagesWritten == v.received
    && (sys.client.phase.Synced? ==>
          && v.received == |v.sent|
          && sys.client.phase == Synced(Wrap64(|v.sent|), Wrap64(TotalSize(v.sent)))
          && sys.client.committed == PagesOf(db) + WriteAll(map[], v.sent)
          && sys.client.staged == map[])
    && (!sys.client.phase.Synced? ==>
          && sys.client.committed == PagesOf(db)
          && sys.client.staged == WriteAll(map[], v.sent[..v.received]))
  }

  ghost predicate TotalsFit(sys: PullSys, v: View) {
    && sys.fsm.pagesTransferred == Wrap64(|v.sent|)
    && sys.fsm.bytesTransferred == Wrap64(TotalSize(v.sent))
  }

  /** The record starts at Hello and never loses a page number. */
  ghost predicate HistoryFits(sys: PullSys) {
    && sys.history != []
    && sys.fsm.serverMaxPage == MaxPage(sys.history[0])
    && (sys.server.Open? ==> sys.store == sys.history[|sys.history| - 1])
    && (forall i, j | 0 <= i <= j < |sys.history| :: sys.history[i].Keys <= sys.history[j].Keys)
  }

  /** `sent` is in page order and every page in it was read from the history; where the client
      has the page, its hash did not match. */
  ghost predicate SentFits(h: Hash, db: LocalDb, sys: PullSys, v: View) {
    && |v.versions| == |v.sent|
    && (forall i, j | 0 <= i < j < |v.sent| :: v.sent[i].pageNo < v.sent[j].pageNo)
    && (forall i | 0 <= i < |v.sent| ::
          && v.versions[i] < |sys.history|
          && Sendable(h, sys.history[v.versions[i]], db, v.sent[i].pageNo)
          && v.sent[i].data == sys.history[v.versions[i]][v.sent[i].pageNo].data)
  }

  /** Skipped pages matched, or the server did not have them. */
  ghost predicate KeptFits(h: Hash, db: LocalDb, sys: PullSys, v: View) {
    forall k | k in v.kept ::
      && HasPage(db, k)
      && v.kept[k] < |sys.history|
      && !Sendable(h, sys.history[v.kept[k]], db, k)
  }

  /** Each page dealt with is skipped or sent, never both; the walk covers the rest. */
  ghost predicate Covered(db: LocalDb, sys: PullSys, v: View) {
    && v.lo >= 1 && sys.fsm.clientSeen == PageSet(1, v.lo - 1)
    && v.kept.Keys !! PageNos(v.sent)
    && (forall k | 1 <= k < v.lo :: k in v.kept || k in PageNos(v.sent))
    && (forall k | k in v.kept :: k < v.lo)
    && (!sys.fsm.completedHashPhase ==> forall i | 0 <= i < |v.sent| :: v.sent[i].pageNo < v.lo)
    && (sys.fsm.completedHashPhase ==>
          && v.walk < |sys.history|
          && forall k | k >= v.lo :: k in PageNos(v.sent) <==> k <= sys.fsm.serverMaxPage && k in sys.history[v.walk])
  }

  /** After the handshake, as long as neither peer has failed. */
  ghost predicate Pulling(h: Hash, db: LocalDb, sys: PullSys, v: View) {
    && QueuesFit(h, db, sys, v)
    && PhasesFit(db, sys, v)
    && ClientFits(db, sys, v)
    && TotalsFit(sys, v)
    && HistoryFits(sys)
    && SentFits(h, db, sys, v)
    && KeptFits(h, db, sys, v)
    && Covered(db, sys, v)
  }

  /** Before the client has read HelloReply. */
  ghost predicate Greeting(db: LocalDb, sys: PullSys) {
    && sys.server.Open?
    && sys.client == NewPullClient(db).(phase := sys.client.phase)
    && match sys.client.phase
       case Connecting => sys.c2s == [] && sys.s2c == [] && sys.fsm == NewFsm(Direction.Pull) && sys.history == []
       case AwaitingReply =>
         || (&& sys.c2s == [Hello(PROTOCOL_VERSION, DEFAULT_PAGE_SIZE, |db|)] && sys.s2c == []
             && sys.fsm == NewFsm(Direction.Pull) && sys.history == [])
         || (&& sys.c2s == []
             && sys.s2c == [HelloReply(PROTOCOL_VERSION, DEFAULT_PAGE_SIZE, sys.fsm.serverMaxPage)]
             && sys.fsm == NewFsm(Direction.Pull).(sawHello := true, serverMaxPage := sys.fsm.serverMaxPage)
             && HistoryFits(sys))
       case _ => false
  }

  /** The server failed before SyncComplete, or the client gave up; the file is untouched. */
  ghost predicate Lost(db: LocalDb, sys: PullSys) {
    && !sys.client.phase.Synced?
    && (sys.client.phase.Aborted? || (sys.server.Failed? && forall m | m in sys.s2c :: !m.SyncComplete?))
  }

  ghost predicate Inv(h: Hash, db: LocalDb, sys: PullSys) {
    || Greeting(db, sys)
    || (exists v :: Pulling(h, db, sys, v))
    || Lost(db, sys)
  }
}
