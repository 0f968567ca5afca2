/** A whole push: the shipped client, the two ordered queues of one connection and a server
    session, composed.  Client and server steps interleave freely, the client drains whenever
    it likes, and storage or sending may fail on the server at any call. */
module PushSystem {
  import opened Protocol
  import opened PageStore
  import opened SyncSpec
  import opened Session
  import opened SyncClient
  import opened Link

  datatype PushSys = PushSys(
    client: PushClient,
    c2s: seq<SyncMessage>,
    s2c: seq<SyncMessage>,
    fsm: Fsm,
    store: Store,
    server: Status)

  datatype Action = Client(act: PushAction) | Server(storeCredit: Credit, sendCredit: Credit)

  function Init(store: Store): PushSys {
    PushSys(NEW_PUSH_CLIENT, [], [], NewFsm(Push), store, Open)
  }

  predicate Enabled(db: LocalDb, sys: PushSys, a: Action) {
    match a
    case Client(act) => PushEnabled(db, PushSide(sys.client, sys.s2c, sys.c2s), act)
    case Server(_, _) => sys.server.Open? && sys.c2s != []
  }

  ghost function ServerStep(h: Hash, sys: PushSys, storeCredit: Credit, sendCredit: Credit): Step
    requires sys.c2s != []
  {
    Apply(h, World(sys.fsm, sys.store, storeCredit, sendCredit, []), sys.c2s[0])
  }

  /** The server consumed the next frame; what it sent is on its way. */
  function Settle(sys: PushSys, step: Step): PushSys
    requires sys.c2s != []
  {
    PushSys(sys.client, sys.c2s[1..], sys.s2c + Frames(step.world.log) + ErrorFrames(step),
            step.world.fsm, step.world.store, StatusAfter(step))
  }

  ghost function Do(h: Hash, db: LocalDb, sys: PushSys, a: Action): PushSys
    requires Enabled(db, sys, a)
  {
    match a
    case Client(act) =>
      var side := PushStep(h, db, PushSide(sys.client, sys.s2c, sys.c2s), act);
      sys.(client := side.client, s2c := side.inbound, c2s := side.outbound)
    case Server(storeCredit, sendCredit) =>
      Settle(sys, ServerStep(h, sys, storeCredit, sendCredit))
  }

  ghost predicate IsRun(h: Hash, db: LocalDb, start: PushSys, actions: seq<Action>)
    decreases |actions|
  {
    actions != [] ==>
      && Enabled(db, start, actions[0])
      && IsRun(h, db, Do(h, db, start, actions[0]), actions[1..])
  }

  ghost function After(h: Hash, db: LocalDb, start: PushSys, actions: seq<Action>): PushSys
    requires IsRun(h, db, start, actions)
    decreases |actions|
  {
    if actions == [] then start else After(h, db, Do(h, db, start, actions[0]), actions[1..])
  }

  // ----- What a push should do to the store -----

  /** The server does not hold this page of the client's, as far as hashes can tell. */
  predicate Differs(h: Hash, store: Store, db: LocalDb, k: nat) {
    !(k in store && store[k].hash == HashAt(h, db, k))
  }

  /** The client's pages below `end` that the server does not hold. */
  function DifferingBelow(h: Hash, store: Store, db: LocalDb, end: nat): (s: set<nat>)
    ensures forall k: nat :: k in s <==> HasPage(db, k) && k < end && Differs(h, store, db, k)
  {
    set k | 1 <= k <= |db| && HasPage(db, k) && k < end && Differs(h, store, db, k)
  }

  function Differing(h: Hash, store: Store, db: LocalDb): set<nat> {
    DifferingBelow(h, store, db, |db| + 1)
  }

  function LocalPages(h: Hash, db: LocalDb, ks: set<nat>): map<nat, Page> {
    map k | k in ks :: Page(PageAt(db, k), HashAt(h, db, k))
  }

  /** The old store overlaid with the client's pages it did not hold. */
  function Overlay(h: Hash, store: Store, db: LocalDb): Store {
    store + LocalPages(h, db, Differing(h, store, db))
  }

  /** Total size of the listed pages. */
  function SizeSum(db: LocalDb, ks: seq<nat>): nat {
    if ks == [] then 0 else |PageAt(db, ks[0])| + SizeSum(db, ks[1..])
  }

  /** Total size of the differing pages below `end`. */
  function DifferingBytes(h: Hash, store: Store, db: LocalDb, end: nat): nat {
    if end <= 1 then 0
    else DifferingBytes(h, store, db, end - 1) + (if Differs(h, store, db, end - 1) then |PageAt(db, end - 1)| else 0)
  }

  // ----- The shape of the queues -----

  function DataFrames(db: LocalDb, ks: seq<nat>): (frames: seq<SyncMessage>)
    ensures |frames| == |ks|
    ensures forall i | 0 <= i < |ks| :: frames[i] == PageData(ks[i], PageAt(db, ks[i]))
  {
    seq(|ks|, i requires 0 <= i < |ks| => PageData(ks[i], PageAt(db, ks[i])))
  }

  function RequestFrames(ks: seq<nat>): (frames: seq<SyncMessage>)
    ensures |frames| == |ks|
    ensures forall i | 0 <= i < |ks| :: frames[i] == RequestPage(ks[i])
  {
    seq(|ks|, i requires 0 <= i < |ks| => RequestPage(ks[i]))
  }

  // ----- The invariant -----

  /** What is in flight: hashes not yet seen by the server start at `lo`; `complete` and
      `datas` follow them.  Towards the client go the requests `reqs`, then `finish`.
      `written` are the pages stored so far, of `bytes` bytes in all. */
  datatype View = View(
    lo: nat,
    complete: bool,
    datas: seq<nat>,
    reqs: seq<nat>,
    finish: bool,
    written: set<nat>,
    bytes: nat)

  /** In-flight conservation: every awaited page is exactly once a request on its way, an
      entry of the client's queue, or data on its way back. */
  ghost predicate Conserved(pending: set<nat>, client: PushClient, v: View) {
    multiset(pending) == multiset(v.reqs) + multiset(client.pending) + multiset(v.datas)
  }

  ghost predicate QueuesFit(h: Hash, db: LocalDb, sys: PushSys, v: View) {
    && 1 <= v.lo <= sys.client.nextPage <= |db| + 1
    && sys.c2s == HashFrames(h, db, v.lo, sys.client.nextPage) + Only(v.complete, Complete) + DataFrames(db, v.datas)
    && sys.s2c == RequestFrames(v.reqs)
                  + Only(v.finish, SyncComplete(sys.fsm.pagesTransferred, sys.fsm.bytesTransferred))
  }

  ghost predicate StoreFits(h: Hash, store0: Store, db: LocalDb, sys: PushSys, v: View) {
    && v.lo <= |db| + 1
    && sys.fsm.pendingRequests <= DifferingBelow(h, store0, db, v.lo)
    && v.written == DifferingBelow(h, store0, db, v.lo) - sys.fsm.pendingRequests
    && sys.store == store0 + LocalPages(h, db, v.written)
  }

  ghost predicate TotalsFit(h: Hash, store0: Store, db: LocalDb, sys: PushSys, v: View) {
    && sys.fsm.pagesTransferred == Wrap64(|v.written|)
    && sys.fsm.bytesTransferred == Wrap64(v.bytes)
    && v.bytes + SizeSum(db, v.reqs) + SizeSum(db, sys.client.pending) + SizeSum(db, v.datas)
       == DifferingBytes(h, store0, db, v.lo)
    && (sys.client.phase.Synced? ==>
          sys.client.phase == Synced(sys.fsm.pagesTransferred, sys.fsm.bytesTransferred))
  }

  ghost predicate PhasesFit(db: LocalDb, sys: PushSys, v: View) {
    && (sys.client.phase.Hashing? || sys.client.phase.Draining? || sys.client.phase.Synced?)
    && sys.fsm.sawHello && sys.fsm.direction.Push?
    && (sys.client.phase.Hashing? ==> !v.complete && v.datas == [])
    && (!sys.client.phase.Hashing? ==> sys.client.nextPage == |db| + 1)
    && (sys.fsm.completedHashPhase <==> !sys.client.phase.Hashing? && !v.complete)
    && (sys.fsm.completedHashPhase ==> v.lo == |db| + 1)
    && (sys.fsm.emittedComplete <==> sys.fsm.completedHashPhase && sys.fsm.pendingRequests == {})
    && (sys.fsm.emittedComplete <==> v.finish || sys.client.phase.Synced?)
    && !(v.finish && sys.client.phase.Synced?)
    && sys.server == (if sys.fsm.emittedComplete then Finished else Open)
  }

  /** After the handshake, as long as the server has not failed. */
  ghost predicate Syncing(h: Hash, store0: Store, db: LocalDb, sys: PushSys, v: View) {
    && QueuesFit(h, db, sys, v)
    && PhasesFit(db, sys, v)
    && Conserved(sys.fsm.pendingRequests, sys.client, v)
    && StoreFits(h, store0, db, sys, v)
    && TotalsFit(h, store0, db, sys, v)
  }

  /** Before the client has read HelloReply. */
  ghost predicate Greeting(store0: Store, db: LocalDb, sys: PushSys) {
    && sys.store == store0
    && sys.server.Open?
    && sys.client.nextPage == 1 && sys.client.pending == []
    && match sys.client.phase
       case Connecting => sys.c2s == [] && sys.s2c == [] && sys.fsm == NewFsm(Push)
       case AwaitingReply =>
         || (sys.c2s == [Hello(PROTOCOL_VERSION, DEFAULT_PAGE_SIZE, |db|)] && sys.s2c == [] && sys.fsm == NewFsm(Push))
         || (&& sys.c2s == []
             && sys.s2c == [HelloReply(PROTOCOL_VERSION, DEFAULT_PAGE_SIZE, MaxPage(store0))]
             && sys.fsm == NewFsm(Push).(sawHello := true, serverMaxPage := MaxPage(store0)))
       case _ => false
  }

  /** After a failure on the server: `written` of the differing pages made it. */
  ghost predicate Broken(h: Hash, store0: Store, db: LocalDb, sys: PushSys, written: set<nat>) {
    && sys.server.Failed?
    && written <= Differing(h, store0, db)
    && sys.store == store0 + LocalPages(h, db, written)
    && sys.fsm.pagesTransferred == Wrap64(|written|)
    && !sys.client.phase.Synced?
    && (forall m | m in sys.s2c :: !m.SyncComplete?)
  }

  ghost predicate Inv(h: Hash, store0: Store, db: LocalDb, sys: PushSys) {
    || Greeting(store0, db, sys)
    || (exists v :: Syncing(h, store0, db, sys, v))
    || (exists written :: Broken(h, store0, db, sys, written))
  }
}
