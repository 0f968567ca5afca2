/** The command-line client's half of the protocol (client/src/sync_ws.rs) as two machines,
    one for `push` and one for `pull`.  A step is the work between two suspension points of
    the loop; it reads frames off the front of `inbound` and appends to `outbound`. */
module SyncClient {
  import opened Protocol

  /** A local database is its pages 1..=|db|.  SQLite's largest page number is 2^32 - 2. */
  type LocalDb = db: seq<Bytes> | |db| < 0xFFFF_FFFF

  /** The reader's cursor starts at page 1. */
  type Cursor = k: nat | k >= 1 witness 1

  predicate HasPage(db: LocalDb, pageNo: nat) {
    1 <= pageNo <= |db|
  }

  /** The bytes of a page; nothing where there is no page. */
  function PageAt(db: LocalDb, pageNo: nat): Bytes {
    if HasPage(db, pageNo) then db[pageNo - 1] else []
  }

  function HashAt(h: Hash, db: LocalDb, pageNo: nat): Digest {
    DigestOf(h, PageAt(db, pageNo))
  }

  function PagesOf(db: LocalDb): map<nat, Bytes> {
    map k: nat | 1 <= k <= |db| && HasPage(db, k) :: PageAt(db, k)
  }

  datatype Phase =
    | Connecting
    | AwaitingReply
    | Hashing
    | Draining
    | Synced(pages: nat, bytes: nat)
    | Aborted

  // ----- push -----

  /** `nextPage` is the reader's cursor, `pending` the queue of requested pages. */
  datatype PushClient = PushClient(phase: Phase, nextPage: Cursor, pending: seq<nat>)

  const NEW_PUSH_CLIENT := PushClient(Connecting, 1, [])

  datatype PushSide = PushSide(client: PushClient, inbound: seq<SyncMessage>, outbound: seq<SyncMessage>)

  datatype PushAction = SendHello | ReadReply | SendHash | DrainOne | SendComplete | Serve | Read

  predicate PushEnabled(db: LocalDb, s: PushSide, a: PushAction) {
    match a
    case SendHello => s.client.phase == Connecting
    case ReadReply => s.client.phase == AwaitingReply && s.inbound != []
    case SendHash => s.client.phase == Hashing && s.client.nextPage <= |db|
    case DrainOne => s.client.phase == Hashing && s.client.nextPage > 1 && s.inbound != []
    case SendComplete => s.client.phase == Hashing && s.client.nextPage > |db|
    case Serve => s.client.phase == Draining && s.client.pending != []
    case Read => s.client.phase == Draining && s.client.pending == [] && s.inbound != []
  }

  function PhaseAfterReply(reply: SyncMessage): Phase {
    if reply.HelloReply? && reply.protocolVersion == PROTOCOL_VERSION then Hashing else Aborted
  }

  function PushStep(h: Hash, db: LocalDb, s: PushSide, a: PushAction): PushSide
    requires PushEnabled(db, s, a)
  {
    var c := s.client;
    match a
    case SendHello =>
      PushSide(c.(phase := AwaitingReply), s.inbound,
               s.outbound + [Hello(PROTOCOL_VERSION, DEFAULT_PAGE_SIZE, |db|)])
    case ReadReply =>
      PushSide(c.(phase := PhaseAfterReply(s.inbound[0])), s.inbound[1..], s.outbound)
    case SendHash =>
      PushSide(c.(nextPage := c.nextPage + 1), s.inbound,
               s.outbound + [PageHash(c.nextPage, HashAt(h, db, c.nextPage))])
    case DrainOne =>
      PushSide(match s.inbound[0]
               case RequestPage(k) => c.(pending := c.pending + [k])
               case RequestPages(ks) => c.(pending := c.pending + ks)
               case _ => c.(phase := Aborted), s.inbound[1..], s.outbound)
    case SendComplete =>
      PushSide(c.(phase := Draining), s.inbound, s.outbound + [Complete])
    case Serve =>
      var k := c.pending[0];
      if HasPage(db, k) then
        PushSide(c.(pending := c.pending[1..]), s.inbound, s.outbound + [PageData(k, PageAt(db, k))])
      else s.(client := c.(phase := Aborted))
    case Read =>
      PushSide(match s.inbound[0]
               case RequestPage(k) => c.(pending := c.pending + [k])
               case RequestPages(ks) => c.(pending := c.pending + ks)
               case SyncComplete(pages, bytes) => c.(phase := Synced(pages, bytes))
               case _ => c.(phase := Aborted), s.inbound[1..], s.outbound)
  }

  // ----- pull -----

  /** `committed` is the database file, `staged` what the open transaction has written. */
  datatype PullClient = PullClient(
    phase: Phase,
    nextPage: Cursor,
    committed: map<nat, Bytes>,
    staged: map<nat, Bytes>,
    pagesWritten: nat)

  function NewPullClient(db: LocalDb): PullClient {
    PullClient(Connecting, 1, PagesOf(db), map[], 0)
  }

  datatype PullSide = PullSide(client: PullClient, inbound: seq<SyncMessage>, outbound: seq<SyncMessage>)

  datatype PullAction = PullHello | PullReply | PullHash | PullComplete | PullRead | PullWriteFails

  predicate PullEnabled(db: LocalDb, s: PullSide, a: PullAction) {
    match a
    case PullHello => s.client.phase == Connecting
    case PullReply => s.client.phase == AwaitingReply && s.inbound != []
    case PullHash => s.client.phase == Hashing && s.client.nextPage <= |db|
    case PullComplete => s.client.phase == Hashing && s.client.nextPage > |db|
    case PullRead => s.client.phase == Draining && s.inbound != []
    case PullWriteFails => s.client.phase == Draining && s.inbound != []
  }

  /** The writes of one batch, in order. */
  function WriteAll(staged: map<nat, Bytes>, pages: seq<PageDataEntry>): map<nat, Bytes>
    decreases |pages|
  {
    if pages == [] then staged
    else WriteAll(staged[pages[0].pageNo := pages[0].data], pages[1..])
  }

  function PullReceive(c: PullClient, m: SyncMessage): PullClient {
    match m
    case PageData(k, data) => c.(staged := c.staged[k := data], pagesWritten := c.pagesWritten + 1)
    case PageDataBatch(pages) =>
      c.(staged := WriteAll(c.staged, pages), pagesWritten := c.pagesWritten + |pages|)
    case SyncComplete(pages, bytes) => PullCommit(c).(phase := Synced(pages, bytes))
    case _ => PullRollback(c)
  }

  function PullCommit(c: PullClient): PullClient {
    c.(committed := c.committed + c.staged, staged := map[])
  }

  /** The writer is dropped without a commit. */
  function PullRollback(c: PullClient): PullClient {
    c.(phase := Aborted, staged := map[])
  }

  function PullStep(h: Hash, db: LocalDb, s: PullSide, a: PullAction): PullSide
    requires PullEnabled(db, s, a)
  {
    var c := s.client;
    match a
    case PullHello =>
      PullSide(c.(phase := AwaitingReply), s.inbound,
               s.outbound + [Hello(PROTOCOL_VERSION, DEFAULT_PAGE_SIZE, |db|)])
    case PullReply =>
      PullSide(c.(phase := PhaseAfterReply(s.inbound[0])), s.inbound[1..], s.outbound)
    case PullHash =>
      PullSide(c.(nextPage := c.nextPage + 1), s.inbound,
               s.outbound + [PageHash(c.nextPage, HashAt(h, db, c.nextPage))])
    case PullComplete =>
      PullSide(c.(phase := Draining), s.inbound, s.outbound + [Complete])
    case PullRead =>
      PullSide(PullReceive(c, s.inbound[0]), s.inbound[1..], s.outbound)
    case PullWriteFails =>
      PullSide(PullRollback(c), s.inbound[1..], s.outbound)
  }

  // ----- Runs of the machines -----

  /** The push machine after these actions, if each of them was possible. */
  function PushRun(h: Hash, db: LocalDb, s: PushSide, trace: seq<PushAction>): Option<PushSide> {
    if trace == [] then Some(s)
    else
      var n := |trace| - 1;
      match PushRun(h, db, s, trace[..n])
      case Some(mid) => if PushEnabled(db, mid, trace[n]) then Some(PushStep(h, db, mid, trace[n])) else None
      case None => None
  }

  lemma {:induction false} PushRunSnoc(h: Hash, db: LocalDb, s: PushSide, trace: seq<PushAction>, a: PushAction)
    requires PushRun(h, db, s, trace).Some? && PushEnabled(db, PushRun(h, db, s, trace).value, a)
    ensures PushRun(h, db, s, trace + [a]) == Some(PushStep(h, db, PushRun(h, db, s, trace).value, a))
  {
    assert (trace + [a])[..|trace|] == trace;
  }

  /** The pull machine after these actions, if each of them was possible. */
  function PullRun(h: Hash, db: LocalDb, s: PullSide, trace: seq<PullAction>): Option<PullSide> {
    if trace == [] then Some(s)
    else
      var n := |trace| - 1;
      match PullRun(h, db, s, trace[..n])
      case Some(mid) => if PullEnabled(db, mid, trace[n]) then Some(PullStep(h, db, mid, trace[n])) else None
      case None => None
  }

  lemma {:induction false} PullRunSnoc(h: Hash, db: LocalDb, s: PullSide, trace: seq<PullAction>, a: PullAction)
    requires PullRun(h, db, s, trace).Some? && PullEnabled(db, PullRun(h, db, s, trace).value, a)
    ensures PullRun(h, db, s, trace + [a]) == Some(PullStep(h, db, PullRun(h, db, s, trace).value, a))
  {
    assert (trace + [a])[..|trace|] == trace;
  }
}
