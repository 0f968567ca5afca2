/** `push` and `pull` of the command-line client as they run (client/src/sync_ws.rs, with the
    page reader and the page writer of client/src/pages.rs).  Each loop is proved to be a run
    of the machine of the same name in SyncClient; Projections.dfy says how the runs of those
    machines and the runs of whole systems correspond. */
module ClientLoops {
  import opened Protocol
  import opened SyncSpec
  import opened SyncClient

  // ----- The connection -----

  /** What polling the socket can yield; `Pause` means that nothing has arrived yet. */
  datatype Incoming = Binary(msg: SyncMessage) | Undecodable | Text | CloseFrame | Control | ReadError | Pause

  /** The decodable frames still to come, in order. */
  function Messages(script: seq<Incoming>): seq<SyncMessage> {
    if script == [] then []
    else (if script[0].Binary? then [script[0].msg] else []) + Messages(script[1..])
  }

  lemma {:induction false} NextMessage(script: seq<Incoming>)
    requires script != []
    ensures Messages(script) == if script[0].Binary? then [script[0].msg] + Messages(script[1..]) else Messages(script[1..])
  {
  }

  /** What waiting for a frame yields: pings are skipped, anything else unexpected is fatal. */
  function NextBinary(script: seq<Incoming>): Option<SyncMessage> {
    if script == [] then None
    else
      match script[0]
      case Binary(msg) => Some(msg)
      case Control => NextBinary(script[1..])
      case Pause => NextBinary(script[1..])
      case _ => None
  }

  predicate Skipped(i: Incoming) {
    i.Control? || i.Pause?
  }

  /** Waiting ends at the first thing that is neither a ping nor a pause, and yields it if it is a
      frame. */
  ghost predicate IsNext(script: seq<Incoming>, m: Option<SyncMessage>, n: nat) {
    && n <= |script| && (forall i | 0 <= i < n :: Skipped(script[i]))
    && if n == |script| then m.None?
       else !Skipped(script[n]) && m == if script[n].Binary? then Some(script[n].msg) else None
  }

  lemma {:induction false} NextIs(script: seq<Incoming>, n: nat)
    requires n <= |script| && (forall i | 0 <= i < n :: Skipped(script[i])) && (n < |script| ==> !Skipped(script[n]))
    ensures IsNext(script, NextBinary(script), n)
  {
    if n > 0 {
      NextIs(script[1..], n - 1);
      assert n < |script| ==> script[1..][n - 1] == script[n];
    }
  }

  /** What waiting yields, and what it leaves to come. */
  ghost predicate Awaited(before: seq<Incoming>, m: Option<SyncMessage>, after: seq<Incoming>) {
    exists n: nat :: IsNext(before, m, n) && after == if n < |before| then before[n + 1..] else []
  }

  lemma {:induction false} WaitEnds(before: seq<Incoming>, n: nat, after: seq<Incoming>)
    requires n <= |before| && (forall i | 0 <= i < n :: Skipped(before[i])) && (n < |before| ==> !Skipped(before[n]))
    requires after == if n < |before| then before[n + 1..] else []
    ensures Awaited(before, NextBinary(before), after)
  {
    NextIs(before, n);
    hide IsNext;
  }

  /** The pauses, at each of which the loop goes on to the next page. */
  function Pauses(script: seq<Incoming>): nat {
    if script == [] then 0 else Pauses(script[..|script| - 1]) + if script[|script| - 1].Pause? then 1 else 0
  }

  lemma {:induction false} NoPause(script: seq<Incoming>)
    requires Pause !in script
    ensures Pauses(script) == 0
  {
    if script != [] {
      NoPause(script[..|script| - 1]);
    }
  }

  lemma {:induction false} PausesSplit(a: seq<Incoming>, b: seq<Incoming>)
    ensures Pauses(a + b) == Pauses(a) + Pauses(b)
    decreases |b|
  {
    if b == [] {
      assert a + b == a;
    } else {
      PausesSplit(a, b[..|b| - 1]);
      assert (a + b)[..|a + b| - 1] == a + b[..|b| - 1];
    }
  }

  /** The script up to its first pause. */
  ghost predicate ToPause(before: seq<Incoming>, after: seq<Incoming>) {
    exists n | 0 <= n < |before| :: before[n].Pause? && Pause !in before[..n] && after == before[n + 1..]
  }

  /** The script after this many pauses. */
  ghost predicate PausesLater(before: seq<Incoming>, after: seq<Incoming>, count: nat) {
    exists n | 0 <= n <= |before| :: after == before[n..] && Pauses(before[..n]) == count
  }

  lemma {:induction false} NoneYet(script: seq<Incoming>)
    ensures PausesLater(script, script, 0)
  {
    assert script[0..] == script && Pauses(script[..0]) == 0;
  }

  lemma {:induction false} OnePauseLater(before: seq<Incoming>, mid: seq<Incoming>, after: seq<Incoming>, count: nat)
    requires PausesLater(before, mid, count) && ToPause(mid, after)
    ensures PausesLater(before, after, count + 1)
  {
    var n :| 0 <= n <= |before| && mid == before[n..] && Pauses(before[..n]) == count;
    var k :| 0 <= k < |mid| && mid[k].Pause? && Pause !in mid[..k] && after == mid[k + 1..];
    hide Pauses;
    PausesToPause(mid, k);
    PausesSplit(before[..n], mid[..k + 1]);
    FurtherOn(before, n, k + 1);
  }

  lemma {:induction false} FurtherOn(script: seq<Incoming>, n: nat, k: nat)
    requires n + k <= |script|
    ensures script[..n + k] == script[..n] + script[n..][..k] && script[n..][k..] == script[n + k..]
  {
  }

  lemma {:induction false} PausesToPause(script: seq<Incoming>, k: nat)
    requires k < |script| && script[k].Pause? && Pause !in script[..k]
    ensures Pauses(script[..k + 1]) == 1
  {
    NoPause(script[..k]);
    assert script[..k + 1][..k] == script[..k];
  }

  /** A socket with a script of what will arrive, and a number of sends that will succeed.
      `closed` records that reading has failed. */
  class Socket {
    var script: seq<Incoming>
    var sent: seq<SyncMessage>
    var credit: Credit
    var closed: bool

    method Send(m: SyncMessage) returns (ok: bool)
      modifies this`sent, this`credit
      ensures ok == (old(credit) != Limited(0))
      ensures credit == if ok then Spend(old(credit)) else old(credit)
      ensures sent == if ok then old(sent) + [m] else old(sent)
    {
      ok := credit != Limited(0);
      if ok {
        credit := Spend(credit);
        sent := sent + [m];
      }
    }

    /** The next frame; anything but a binary frame or a ping ends the session. */
    method Recv() returns (m: Option<SyncMessage>)
      modifies this`script, this`closed
      ensures m == NextBinary(old(script))
      ensures closed == (old(closed) || m.None?)
      ensures Messages(old(script)) == (if m.Some? then [m.value] else []) + Messages(script)
      ensures m.Some? ==> |script| < |old(script)|
      ensures Awaited(old(script), m, script)
    {
      hide Awaited;
      ghost var n := 0;
      while script != []
        invariant n <= |old(script)| && script == old(script)[n..]
        invariant forall i | 0 <= i < n :: Skipped(old(script)[i])
        invariant Messages(script) == Messages(old(script))
        invariant NextBinary(script) == NextBinary(old(script))
        invariant |script| <= |old(script)|
        invariant closed == old(closed)
        decreases |script|
      {
        var next := script[0];
        script := script[1..];
        if !Skipped(next) {
          WaitEnds(old(script), n, script);
        }
        n := n + 1;
        match next
        case Binary(msg) => return Some(msg);
        case Control =>
        case Pause =>
        case _ =>
          closed := true;
          return None;
      }
      WaitEnds(old(script), n, script);
      closed := true;
      return None;
    }
  }

  /** Hello, and a HelloReply of our version.  `reply` is the frame that was read. */
  method Handshake(ws: Socket, maxPage: nat) returns (ok: bool, ghost greeted: bool, ghost reply: Option<SyncMessage>)
    modifies ws
    ensures greeted == (old(ws.credit) != Limited(0))
    ensures ws.sent == old(ws.sent) + if greeted then [Hello(PROTOCOL_VERSION, DEFAULT_PAGE_SIZE, maxPage)] else []
    ensures ws.credit == if greeted then Spend(old(ws.credit)) else old(ws.credit)
    ensures reply == if greeted then NextBinary(old(ws.script)) else None
    ensures ws.closed == (old(ws.closed) || (greeted && reply.None?))
    ensures Messages(old(ws.script)) == (if reply.Some? then [reply.value] else []) + Messages(ws.script)
    ensures greeted ==> ws.sent == old(ws.sent) + [Hello(1, 4096, maxPage)]
    ensures ok <==> reply.Some? && reply.value.HelloReply? && reply.value.protocolVersion == 1
    ensures ok <==> reply.Some? && PhaseAfterReply(reply.value).Hashing?
  {
    var sent := ws.Send(Hello(PROTOCOL_VERSION, DEFAULT_PAGE_SIZE, maxPage));
    greeted, reply := sent, None;
    if !sent {
      return false, false, None;
    }
    var m := ws.Recv();
    reply := m;
    if m.None? {
      return false, greeted, reply;
    }
    ok := m.value.HelloReply? && m.value.protocolVersion == PROTOCOL_VERSION;
  }

  // ----- The local database -----

  /** The database file; every call into SQLite may fail, to open it, to read or to write. */
  class LocalFile {
    var created: bool
    var pages: map<nat, Bytes>
    var credit: Credit

    method Use() returns (ok: bool)
      modifies this`credit
      ensures ok == (old(credit) != Limited(0))
      ensures credit == if ok then Spend(old(credit)) else old(credit)
    {
      ok := credit != Limited(0);
      if ok {
        credit := Spend(credit);
      }
    }
  }

  /** What asking for the next hash yields. */
  datatype NextHash = Next(pageNo: nat, hash: Bytes) | Exhausted | Unreadable

  /** The reader's cursor over pages 1..=maxPage. */
  class PageReader {
    const db: LocalDb
    const file: LocalFile
    var nextPage: Cursor

    constructor (db: LocalDb, file: LocalFile)
      ensures this.db == db && this.file == file && nextPage == 1
    {
      this.db, this.file := db, file;
      nextPage := 1;
    }

    /** The cursor only moves past a page that was read. */
    method NextHash(h: Hash) returns (r: NextHash)
      modifies this, file`credit
      ensures old(nextPage) > |db| ==> r == Exhausted && nextPage == old(nextPage) && file.credit == old(file.credit)
      ensures old(nextPage) <= |db| && old(file.credit) == Limited(0) ==>
                r == Unreadable && nextPage == old(nextPage) && file.credit == Limited(0)
      ensures old(nextPage) <= |db| && old(file.credit) != Limited(0) ==>
                && r == Next(old(nextPage), HashAt(h, db, old(nextPage))) && nextPage == old(nextPage) + 1
                && file.credit == Spend(old(file.credit))
    {
      if nextPage > |db| {
        return Exhausted;
      }
      var pageNo := nextPage;
      var data := ReadPage(pageNo);
      if data.None? {
        return Unreadable;
      }
      nextPage := pageNo + 1;
      return Next(pageNo, DigestOf(h, data.value));
    }

    /** Fails when the query does, or when there is no such page. */
    method ReadPage(pageNo: nat) returns (r: Option<Bytes>)
      modifies file`credit
      ensures r == if old(file.credit) != Limited(0) && HasPage(db, pageNo) then Some(PageAt(db, pageNo)) else None
      ensures file.credit == if old(file.credit) != Limited(0) then Spend(old(file.credit)) else old(file.credit)
    {
      var ok := file.Use();
      if ok && HasPage(db, pageNo) {
        return Some(db[pageNo - 1]);
      }
      return None;
    }
  }

  /** `PageReader::open`: opening the file and asking for its last page. */
  method OpenReader(db: LocalDb, file: LocalFile) returns (r: Option<PageReader>)
    modifies file`credit
    ensures r.Some? == (old(file.credit) != Limited(0))
    ensures file.credit == if r.Some? then Spend(old(file.credit)) else old(file.credit)
    ensures r.Some? ==> fresh(r.value) && r.value.db == db && r.value.file == file && r.value.nextPage == 1
  {
    var ok := file.Use();
    if !ok {
      return None;
    }
    var reader := new PageReader(db, file);
    return Some(reader);
  }

  /** An open transaction on the file. */
  class PageWriter {
    const file: LocalFile
    var staged: map<nat, Bytes>
    var committed: bool

    constructor (file: LocalFile)
      ensures this.file == file && staged == map[] && !committed
    {
      this.file := file;
      staged := map[];
      committed := false;
    }

    /** One row of the transaction. */
    method Write(pageNo: nat, data: Bytes) returns (ok: bool)
      modifies this`staged, file`credit
      ensures ok == (old(file.credit) != Limited(0))
      ensures file.credit == if ok then Spend(old(file.credit)) else old(file.credit)
      ensures staged == if ok then old(staged)[pageNo := data] else old(staged)
    {
      ok := file.Use();
      if ok {
        staged := staged[pageNo := data];
      }
    }

    method Commit() returns (ok: bool)
      modifies this, file
      ensures ok == (old(file.credit) != Limited(0))
      ensures file.credit == if ok then Spend(old(file.credit)) else old(file.credit)
      ensures committed == (old(committed) || ok)
      ensures file.pages == if ok then old(file.pages) + old(staged) else old(file.pages)
      ensures staged == if ok then map[] else old(staged)
    {
      ok := file.Use();
      if ok {
        file.pages := file.pages + staged;
        staged := map[];
        committed := true;
      }
    }

    /** Going out of scope without a commit rolls back. */
    method Drop()
      modifies this`staged
      ensures staged == if committed then old(staged) else map[]
    {
      if !committed {
        staged := map[];
      }
    }
  }

  /** `PageWriter::open` creates the file if need be and begins the transaction. */
  method OpenWriter(file: LocalFile) returns (r: Option<PageWriter>)
    modifies file
    ensures r.Some? == (old(file.credit) != Limited(0))
    ensures file.credit == if r.Some? then Spend(old(file.credit)) else old(file.credit)
    ensures file.pages == old(file.pages) && file.created == (old(file.created) || r.Some?)
    ensures r.Some? ==> fresh(r.value) && r.value.file == file && r.value.staged == map[] && !r.value.committed
  {
    var ok := file.Use();
    if !ok {
      return None;
    }
    file.created := true;
    var writer := new PageWriter(file);
    return Some(writer);
  }

  // ----- push: the state of the loop -----

  datatype Outcome = Completed(pages: nat, bytes: nat) | Bailed

  /** Where the machine stands when the loop is here. */
  ghost predicate AtPush(h: Hash, db: LocalDb, start: PushSide, trace: seq<PushAction>,
                         phase: Phase, reader: PageReader, pending: seq<nat>, ws: Socket)
    reads reader, ws
  {
    && reader.db == db
    && PushRun(h, db, start, trace)
       == Some(PushSide(PushClient(phase, reader.nextPage, pending), Messages(ws.script), ws.sent))
  }

  /** The loop cannot go on from here: the machine has aborted, what it has to send cannot be
      sent, what it has to read of the database cannot be read, or what it waits for will not
      come. */
  predicate PushStuck(c: PushClient, unsendable: bool, unreadable: bool, closed: bool) {
    match c.phase
    case Aborted => true
    case Connecting => unsendable || unreadable
    case AwaitingReply => closed
    case Hashing => unsendable || unreadable || closed
    case Draining => if c.pending != [] then unsendable || unreadable else closed
    case Synced(_, _) => false
  }

  /** The client gave up: what it read and sent are those of a run that cannot go on. */
  ghost predicate Stopped(h: Hash, db: LocalDb, start: PushSide, trace: seq<PushAction>, ws: Socket, file: LocalFile)
    reads ws, file
  {
    var s := PushRun(h, db, start, trace);
    && s.Some?
    && PushStuck(s.value.client, ws.credit == Limited(0), file.credit == Limited(0), ws.closed)
    && s.value.inbound == Messages(ws.script)
    && s.value.outbound == ws.sent
  }

  /** What was read and sent is that of a run of the machine that ends in this phase. */
  ghost predicate Reached(h: Hash, db: LocalDb, start: PushSide, trace: seq<PushAction>, phase: Phase, ws: Socket)
    reads ws
  {
    var s := PushRun(h, db, start, trace);
    && s.Some?
    && s.value.client.phase == phase
    && s.value.inbound == Messages(ws.script)
    && s.value.outbound == ws.sent
  }

  /** The queue after a request; nothing else may arrive during the hash phase. */
  function Queued(pending: seq<nat>, m: SyncMessage): Option<seq<nat>> {
    match m
    case RequestPage(k) => Some(pending + [k])
    case RequestPages(ks) => Some(pending + ks)
    case _ => None
  }

  lemma {:induction false} DrainIsAStep(h: Hash, db: LocalDb, start: PushSide, trace: seq<PushAction>,
                                        s: PushSide, m: SyncMessage, rest: seq<SyncMessage>)
    requires PushRun(h, db, start, trace) == Some(s)
    requires s.client.phase.Hashing? && s.client.nextPage > 1 && s.inbound == [m] + rest
    ensures var queue := Queued(s.client.pending, m);
            PushRun(h, db, start, trace + [DrainOne])
            == Some(PushSide(if queue.Some? then s.client.(pending := queue.value) else s.client.(phase := Aborted),
                             rest, s.outbound))
  {
    PushRunSnoc(h, db, start, trace, DrainOne);
    hide PushRun;
  }

  /** The frames already there, without waiting; other traffic is ignored here. */
  method DrainReady(h: Hash, ws: Socket, pending: seq<nat>, ghost reader: PageReader, ghost start: PushSide,
                    ghost trace: seq<PushAction>)
    returns (ok: bool, queue: seq<nat>, ghost drained: seq<PushAction>)
    requires AtPush(h, reader.db, start, trace, Hashing, reader, pending, ws) && reader.nextPage > 1
    modifies ws`script, ws`closed
    ensures ok ==> AtPush(h, reader.db, start, drained, Hashing, reader, queue, ws)
    ensures ok ==> ToPause(old(ws.script), ws.script)
    ensures !ok ==> Stopped(h, reader.db, start, drained, ws, reader.file)
  {
    hide PushRun, Messages;
    queue, drained := pending, trace;
    ghost var n := 0;
    while ws.script != []
      invariant n <= |old(ws.script)| && ws.script == old(ws.script)[n..] && Pause !in old(ws.script)[..n]
      invariant AtPush(h, reader.db, start, drained, Hashing, reader, queue, ws)
      decreases |ws.script|
    {
      var next := ws.script[0];
      NextMessage(ws.script);
      ws.script := ws.script[1..];
      n := n + 1;
      assert old(ws.script)[..n] == old(ws.script)[..n - 1] + [next];
      match next
      case Binary(msg) =>
        DrainIsAStep(h, reader.db, start, drained, PushRun(h, reader.db, start, drained).value, msg, Messages(ws.script));
        drained := drained + [DrainOne];
        var more := Queued(queue, msg);
        if more.None? {
          return false, queue, drained;
        }
        queue := more.value;
      case Undecodable =>
        ws.closed := true;
        return false, queue, drained;
      case ReadError =>
        ws.closed := true;
        return false, queue, drained;
      case Pause => return true, queue, drained;
      case _ =>
    }
    ws.closed := true;
    return false, queue, drained;
  }

  // ----- push -----

  lemma {:induction false} PushBegins(h: Hash, db: LocalDb, start: PushSide)
    requires start.client == NEW_PUSH_CLIENT
    ensures PushRun(h, db, start, []) == Some(start)
    ensures var greeting := Hello(PROTOCOL_VERSION, DEFAULT_PAGE_SIZE, |db|);
            var awaiting := PushSide(start.client.(phase := AwaitingReply), start.inbound, start.outbound + [greeting]);
            && PushRun(h, db, start, [SendHello]) == Some(awaiting)
            && (start.inbound != [] ==>
                  PushRun(h, db, start, [SendHello, ReadReply])
                  == Some(PushSide(start.client.(phase := PhaseAfterReply(start.inbound[0])),
                                   start.inbound[1..], awaiting.outbound)))
  {
    PushRunSnoc(h, db, start, [], SendHello);
    assert [] + [SendHello] == [SendHello];
    if start.inbound != [] {
      PushRunSnoc(h, db, start, [SendHello], ReadReply);
      assert [SendHello] + [ReadReply] == [SendHello, ReadReply];
    }
    hide PushRun;
  }

  method PushHandshake(h: Hash, ws: Socket, reader: PageReader, ghost start: PushSide)
    returns (ok: bool, ghost trace: seq<PushAction>)
    requires start == PushSide(NEW_PUSH_CLIENT, Messages(ws.script), ws.sent) && reader.nextPage == 1
    modifies ws
    ensures ok ==> AtPush(h, reader.db, start, trace, Hashing, reader, [], ws)
    ensures !ok ==> Stopped(h, reader.db, start, trace, ws, reader.file)
  {
    PushBegins(h, reader.db, start);
    hide PushRun, Messages;
    ghost var greeted, reply;
    ok, greeted, reply := Handshake(ws, |reader.db|);
    trace := if reply.Some? then [SendHello, ReadReply] else if greeted then [SendHello] else [];
  }

  /** The hash phase: announce every page, draining requests in between. */
  method PushHashes(h: Hash, ws: Socket, reader: PageReader, ghost start: PushSide, ghost begun: seq<PushAction>)
    returns (ok: bool, pending: seq<nat>, ghost trace: seq<PushAction>)
    requires AtPush(h, reader.db, start, begun, Hashing, reader, [], ws)
    modifies ws, reader, reader.file`credit
    ensures ok ==> AtPush(h, reader.db, start, trace, Hashing, reader, pending, ws) && reader.nextPage > |reader.db|
    ensures ok ==> old(reader.nextPage) <= reader.nextPage
                   && PausesLater(old(ws.script), ws.script, reader.nextPage - old(reader.nextPage))
    ensures !ok ==> Stopped(h, reader.db, start, trace, ws, reader.file)
  {
    hide PushRun, Messages, PausesLater, ToPause;
    pending, trace := [], begun;
    NoneYet(ws.script);
    while true
      invariant old(reader.nextPage) <= reader.nextPage
      invariant PausesLater(old(ws.script), ws.script, reader.nextPage - old(reader.nextPage))
      invariant AtPush(h, reader.db, start, trace, Hashing, reader, pending, ws)
      decreases |reader.db| + 1 - reader.nextPage
    {
      var next := reader.NextHash(h);
      if !next.Next? {
        return next.Exhausted?, pending, trace;
      }
      var sent := ws.Send(PageHash(next.pageNo, next.hash));
      if !sent {
        return false, pending, trace;
      }
      PushRunSnoc(h, reader.db, start, trace, SendHash);
      trace := trace + [SendHash];
      ghost var mid := ws.script;
      ok, pending, trace := DrainReady(h, ws, pending, reader, start, trace);
      if !ok {
        return;
      }
      OnePauseLater(old(ws.script), mid, ws.script, reader.nextPage - 1 - old(reader.nextPage));
    }
  }

  /** The drain phase: serve requests first, then wait for more, until SyncComplete. */
  method PushDrain(h: Hash, ws: Socket, reader: PageReader, queued: seq<nat>, ghost start: PushSide,
                   ghost begun: seq<PushAction>)
    returns (outcome: Outcome, ghost trace: seq<PushAction>)
    requires AtPush(h, reader.db, start, begun, Draining, reader, queued, ws)
    modifies ws, reader.file`credit
    ensures outcome.Completed? ==> Reached(h, reader.db, start, trace, Synced(outcome.pages, outcome.bytes), ws)
    ensures outcome.Bailed? ==> Stopped(h, reader.db, start, trace, ws, reader.file)
  {
    hide PushRun, Messages;
    var pending := queued;
    trace := begun;
    while true
      invariant AtPush(h, reader.db, start, trace, Draining, reader, pending, ws)
      decreases |ws.script|, |pending|
    {
      if pending != [] {
        var pageNo := pending[0];
        pending := pending[1..];
        ghost var readable := reader.file.credit != Limited(0);
        var data := reader.ReadPage(pageNo);
        if data.None? {
          if readable {
            PushRunSnoc(h, reader.db, start, trace, Serve);
            trace := trace + [Serve];
          }
          return Bailed, trace;
        }
        var sent := ws.Send(PageData(pageNo, data.value));
        if !sent {
          return Bailed, trace;
        }
        PushRunSnoc(h, reader.db, start, trace, Serve);
        trace := trace + [Serve];
      } else {
        var m := ws.Recv();
        if m.None? {
          return Bailed, trace;
        }
        PushRunSnoc(h, reader.db, start, trace, Read);
        trace := trace + [Read];
        match m.value
        case RequestPage(k) => pending := pending + [k];
        case RequestPages(ks) => pending := pending + ks;
        case SyncComplete(pages, bytes) => return Completed(pages, bytes), trace;
        case _ => return Bailed, trace;
      }
    }
  }

  /** `push`: when it completes, the machine has reached Synced on the same frames, with the
      totals it reports; when it gives up, the machine, on what was read and sent, cannot go on. */
  method Push(h: Hash, ws: Socket, db: LocalDb, file: LocalFile) returns (outcome: Outcome, ghost trace: seq<PushAction>)
    requires ws.sent == [] && !ws.closed
    modifies ws, file`credit
    ensures var start := PushSide(NEW_PUSH_CLIENT, Messages(old(ws.script)), []);
            && (outcome.Completed? ==> Reached(h, db, start, trace, Synced(outcome.pages, outcome.bytes), ws))
            && (outcome.Bailed? ==> Stopped(h, db, start, trace, ws, file))
  {
    ghost var start := PushSide(NEW_PUSH_CLIENT, Messages(ws.script), []);
    PushBegins(h, db, start);
    hide PushRun, Messages;
    trace := [];
    var opening := OpenReader(db, file);
    if opening.None? {
      return Bailed, trace;
    }
    var reader := opening.value;
    var ok;
    ok, trace := PushHandshake(h, ws, reader, start);
    if !ok {
      return Bailed, trace;
    }
    var pending;
    ok, pending, trace := PushHashes(h, ws, reader, start, trace);
    if !ok {
      return Bailed, trace;
    }
    ok := ws.Send(Complete);
    if !ok {
      return Bailed, trace;
    }
    PushRunSnoc(h, db, start, trace, SendComplete);
    trace := trace + [SendComplete];
    outcome, trace := PushDrain(h, ws, reader, pending, start, trace);
  }

  // ----- pull -----

  ghost predicate AtPull(h: Hash, db: LocalDb, start: PullSide, trace: seq<PullAction>, client: PullClient, ws: Socket)
    reads ws
  {
    PullRun(h, db, start, trace) == Some(PullSide(client, Messages(ws.script), ws.sent))
  }

  /** As for a push; while draining, the file may fail to open for writing. */
  predicate PullStuck(c: PullClient, unsendable: bool, unusable: bool, closed: bool) {
    match c.phase
    case Aborted => true
    case Connecting => unsendable || unusable
    case AwaitingReply => closed
    case Hashing => unsendable || unusable
    case Draining => closed || unusable
    case Synced(_, _) => false
  }

  /** The client gave up, and a write has failed only if the file takes no more writes. */
  ghost predicate PullStopped(h: Hash, db: LocalDb, start: PullSide, trace: seq<PullAction>, ws: Socket,
                              file: LocalFile)
    reads ws, file
  {
    var s := PullRun(h, db, start, trace);
    && s.Some?
    && PullStuck(s.value.client, ws.credit == Limited(0), file.credit == Limited(0), ws.closed)
    && s.value.inbound == Messages(ws.script)
    && s.value.outbound == ws.sent
    && (PullWriteFails in trace ==> file.credit == Limited(0))
  }

  lemma {:induction false} PullBegins(h: Hash, db: LocalDb, start: PullSide)
    requires start.client == NewPullClient(db)
    ensures PullRun(h, db, start, []) == Some(start)
    ensures var greeting := Hello(PROTOCOL_VERSION, DEFAULT_PAGE_SIZE, |db|);
            var awaiting := PullSide(start.client.(phase := AwaitingReply), start.inbound, start.outbound + [greeting]);
            && PullRun(h, db, start, [PullHello]) == Some(awaiting)
            && (start.inbound != [] ==>
                  PullRun(h, db, start, [PullHello, PullReply])
                  == Some(PullSide(start.client.(phase := PhaseAfterReply(start.inbound[0])),
                                   start.inbound[1..], awaiting.outbound)))
  {
    PullRunSnoc(h, db, start, [], PullHello);
    assert [] + [PullHello] == [PullHello];
    if start.inbound != [] {
      PullRunSnoc(h, db, start, [PullHello], PullReply);
      assert [PullHello] + [PullReply] == [PullHello, PullReply];
    }
    hide PullRun;
  }

  method PullHandshake(h: Hash, ws: Socket, db: LocalDb, ghost file: LocalFile, ghost start: PullSide)
    returns (ok: bool, ghost trace: seq<PullAction>)
    requires start == PullSide(NewPullClient(db), Messages(ws.script), ws.sent)
    modifies ws
    ensures ok ==> AtPull(h, db, start, trace, NewPullClient(db).(phase := Hashing), ws) && PullWriteFails !in trace
    ensures !ok ==> PullStopped(h, db, start, trace, ws, file)
  {
    PullBegins(h, db, start);
    hide PullRun, Messages;
    ghost var greeted, reply;
    ok, greeted, reply := Handshake(ws, |db|);
    trace := if reply.Some? then [PullHello, PullReply] else if greeted then [PullHello] else [];
  }

  /** The hash phase opens the file again, unless it has no pages. */
  method PullHashes(h: Hash, ws: Socket, db: LocalDb, file: LocalFile, ghost start: PullSide,
                    ghost begun: seq<PullAction>)
    returns (ok: bool, ghost trace: seq<PullAction>)
    requires AtPull(h, db, start, begun, NewPullClient(db).(phase := Hashing), ws) && PullWriteFails !in begun
    modifies ws, file`credit
    ensures ok ==> AtPull(h, db, start, trace, NewPullClient(db).(phase := Draining, nextPage := |db| + 1), ws)
    ensures ok ==> PullWriteFails !in trace
    ensures !ok ==> PullStopped(h, db, start, trace, ws, file)
  {
    hide PullRun, Messages, PagesOf;
    trace := begun;
    if |db| > 0 {
      var opening := OpenReader(db, file);
      if opening.None? {
        return false, trace;
      }
      ok, trace := AnnounceAll(h, ws, opening.value, start, trace);
      if !ok {
        return;
      }
    }
    ok := ws.Send(Complete);
    if ok {
      PullRunSnoc(h, db, start, trace, PullComplete);
      trace := trace + [PullComplete];
    }
  }

  method AnnounceAll(h: Hash, ws: Socket, reader: PageReader, ghost start: PullSide, ghost begun: seq<PullAction>)
    returns (ok: bool, ghost trace: seq<PullAction>)
    requires reader.nextPage == 1 && PullWriteFails !in begun
    requires AtPull(h, reader.db, start, begun, NewPullClient(reader.db).(phase := Hashing), ws)
    modifies ws, reader, reader.file`credit
    ensures ok ==> AtPull(h, reader.db, start, trace,
                          NewPullClient(reader.db).(phase := Hashing, nextPage := |reader.db| + 1), ws)
    ensures ok ==> PullWriteFails !in trace
    ensures !ok ==> PullStopped(h, reader.db, start, trace, ws, reader.file)
  {
    hide PullRun, Messages, PagesOf;
    trace := begun;
    while true
      invariant reader.nextPage <= |reader.db| + 1
      invariant PullWriteFails !in trace
      invariant AtPull(h, reader.db, start, trace,
                       NewPullClient(reader.db).(phase := Hashing, nextPage := reader.nextPage), ws)
      decreases |reader.db| + 1 - reader.nextPage
    {
      var next := reader.NextHash(h);
      if !next.Next? {
        return next.Exhausted?, trace;
      }
      ok := ws.Send(PageHash(next.pageNo, next.hash));
      if !ok {
        return;
      }
      PullRunSnoc(h, reader.db, start, trace, PullHash);
      trace := trace + [PullHash];
    }
  }

  /** The entries of one batch, in order, up to the first write that fails. */
  method WriteBatch(writer: PageWriter, pages: seq<PageDataEntry>) returns (ok: bool)
    modifies writer`staged, writer.file`credit
    ensures ok ==> writer.staged == WriteAll(old(writer.staged), pages)
    ensures !ok ==> writer.file.credit == Limited(0)
  {
    var i := 0;
    while i < |pages|
      invariant 0 <= i <= |pages|
      invariant WriteAll(old(writer.staged), pages) == WriteAll(writer.staged, pages[i..])
    {
      assert pages[i..][0] == pages[i] && pages[i..][1..] == pages[i + 1..];
      ok := writer.Write(pages[i].pageNo, pages[i].data);
      if !ok {
        return;
      }
      i := i + 1;
    }
    return true;
  }

  /** What reading one frame does to the machine, and what a failed write does. */
  lemma {:induction false} ReadSteps(h: Hash, db: LocalDb, start: PullSide, trace: seq<PullAction>,
                                     c: PullClient, m: SyncMessage, rest: seq<SyncMessage>, sent: seq<SyncMessage>)
    requires PullRun(h, db, start, trace) == Some(PullSide(c, [m] + rest, sent)) && c.phase.Draining?
    ensures PullRun(h, db, start, trace + [PullRead]) == Some(PullSide(PullReceive(c, m), rest, sent))
    ensures PullRun(h, db, start, trace + [PullWriteFails]) == Some(PullSide(PullRollback(c), rest, sent))
  {
    hide PullRun, PullReceive;
    PullRunSnoc(h, db, start, trace, PullRead);
    PullRunSnoc(h, db, start, trace, PullWriteFails);
  }

  /** Pages go into the transaction as they come; SyncComplete commits it. */
  method PullDrain(h: Hash, ws: Socket, db: LocalDb, file: LocalFile, ghost start: PullSide,
                   ghost begun: seq<PullAction>)
    returns (outcome: Outcome, pagesWritten: nat, ghost trace: seq<PullAction>)
    requires file.pages == PagesOf(db)
    requires AtPull(h, db, start, begun, NewPullClient(db).(phase := Draining, nextPage := |db| + 1), ws)
    requires PullWriteFails !in begun
    modifies ws, file
    ensures outcome.Completed? ==>
              AtPull(h, db, start, trace,
                     PullClient(Synced(outcome.pages, outcome.bytes), |db| + 1, file.pages, map[], pagesWritten), ws)
    ensures outcome.Bailed? ==> PullStopped(h, db, start, trace, ws, file) && file.pages == old(file.pages)
  {
    hide PullRun, Messages, PagesOf, WriteAll, NextBinary;
    pagesWritten, trace := 0, begun;
    var opening := OpenWriter(file);
    if opening.None? {
      return Bailed, 0, trace;
    }
    var writer := opening.value;
    ghost var client := PullClient(Draining, |db| + 1, file.pages, map[], 0);
    while true
      invariant writer.file == file && !writer.committed && fresh(writer)
      invariant file.pages == PagesOf(db)
      invariant PullWriteFails !in trace
      invariant client == PullClient(Draining, |db| + 1, file.pages, writer.staged, pagesWritten)
      invariant AtPull(h, db, start, trace, client, ws)
      decreases |ws.script|
    {
      var m := ws.Recv();
      if m.None? {
        writer.Drop();
        return Bailed, pagesWritten, trace;
      }
      ReadSteps(h, db, start, trace, client, m.value, Messages(ws.script), ws.sent);
      ghost var failed := trace + [PullWriteFails];
      trace := trace + [PullRead];
      client := PullReceive(client, m.value);
      var ok := true;
      match m.value {
        case PageData(k, data) =>
          ok := writer.Write(k, data);
          pagesWritten := if ok then pagesWritten + 1 else pagesWritten;
        case PageDataBatch(pages) =>
          ok := WriteBatch(writer, pages);
          pagesWritten := if ok then pagesWritten + |pages| else pagesWritten;
        case SyncComplete(pages, bytes) =>
          ok := writer.Commit();
          if ok {
            return Completed(pages, bytes), pagesWritten, trace;
          }
        case _ =>
          writer.Drop();
          return Bailed, pagesWritten, trace;
      }
      if !ok {
        writer.Drop();
        return Bailed, pagesWritten, failed;
      }
    }
  }

  /** `pull`: when it completes, the machine has reached Synced on the same frames and the file
      holds what the machine committed; when it gives up, the machine cannot go on, and no page
      of the file has changed. */
  method Pull(h: Hash, ws: Socket, db: LocalDb, file: LocalFile)
    returns (outcome: Outcome, pagesWritten: nat, ghost trace: seq<PullAction>)
    requires file.pages == PagesOf(db) && (file.created || |db| == 0)
    requires ws.sent == [] && !ws.closed
    modifies ws, file
    ensures var start := PullSide(NewPullClient(db), Messages(old(ws.script)), []);
            && (outcome.Completed? ==>
                  AtPull(h, db, start, trace,
                         PullClient(Synced(outcome.pages, outcome.bytes), |db| + 1, file.pages, map[], pagesWritten), ws))
            && (outcome.Bailed? ==> PullStopped(h, db, start, trace, ws, file) && file.pages == old(file.pages))
  {
    ghost var start := PullSide(NewPullClient(db), Messages(ws.script), []);
    PullBegins(h, db, start);
    hide PullRun, Messages, PagesOf;
    pagesWritten, trace := 0, [];
    if file.created {
      var opening := OpenReader(db, file);
      if opening.None? {
        return Bailed, 0, trace;
      }
    }
    var ok;
    ok, trace := PullHandshake(h, ws, db, file, start);
    if !ok {
      return Bailed, 0, trace;
    }
    ok, trace := PullHashes(h, ws, db, file, start, trace);
    if !ok {
      return Bailed, 0, trace;
    }
    outcome, pagesWritten, trace := PullDrain(h, ws, db, file, start, trace);
  }
}
