/** `SyncFsm` (worker/src/services/sync_fsm.rs) as the mutable object it is: handlers that
    update fields, write to a shared page table and call an emit sink that may fail at any
    call.  Every handler is proved to be the step of the same name in SyncSpec. */
module SyncFsm {
  import opened Protocol
  import opened PageStore
  import opened SyncSpec

  datatype StoreResult<+T> = Ok(value: T) | Err

  /** The storage handle; every call may fail, and then changes nothing. */
  class PageTable {
    var pages: Store
    var credit: Credit

    constructor (pages: Store, credit: Credit)
      ensures this.pages == pages && this.credit == credit
    {
      this.pages, this.credit := pages, credit;
    }

    /** One call into the database. */
    method Access() returns (ok: bool)
      modifies this`credit
      ensures ok == (old(credit) != Limited(0))
      ensures credit == if ok then Spend(old(credit)) else old(credit)
    {
      ok := credit != Limited(0);
      if ok {
        credit := Spend(credit);
      }
    }

    method GetPageHash(pageNo: nat) returns (r: StoreResult<Option<Bytes>>)
      modifies this`credit
      ensures r.Ok? == (old(credit) != Limited(0))
      ensures credit == if r.Ok? then Spend(old(credit)) else old(credit)
      ensures r.Ok? ==> r.value == if pageNo in pages then Some(pages[pageNo].hash) else None
    {
      var ok := Access();
      if !ok {
        return Err;
      }
      return Ok(if pageNo in pages then Some(pages[pageNo].hash) else None);
    }

    method GetPage(pageNo: nat) returns (r: StoreResult<Option<Bytes>>)
      modifies this`credit
      ensures r.Ok? == (old(credit) != Limited(0))
      ensures credit == if r.Ok? then Spend(old(credit)) else old(credit)
      ensures r.Ok? ==> r.value == if pageNo in pages then Some(pages[pageNo].data) else None
    {
      var ok := Access();
      if !ok {
        return Err;
      }
      return Ok(if pageNo in pages then Some(pages[pageNo].data) else None);
    }

    /** `INSERT OR REPLACE` */
    method PutPage(pageNo: nat, data: Bytes, hash: Bytes) returns (ok: bool)
      modifies this
      ensures ok == (old(credit) != Limited(0))
      ensures credit == if ok then Spend(old(credit)) else old(credit)
      ensures pages == if ok then old(pages)[pageNo := Page(data, hash)] else old(pages)
    {
      ok := Access();
      if ok {
        pages := pages[pageNo := Page(data, hash)];
      }
    }

    method GetMaxPage() returns (r: StoreResult<nat>)
      modifies this`credit
      ensures r.Ok? == (old(credit) != Limited(0))
      ensures credit == if r.Ok? then Spend(old(credit)) else old(credit)
      ensures r.Ok? ==> r.value == MaxPage(pages)
    {
      var ok := Access();
      if !ok {
        return Err;
      }
      var max: nat := 0;
      var todo := pages.Keys;
      while todo != {}
        invariant todo <= pages.Keys
        invariant forall k | k in pages && k !in todo :: k <= max
        invariant max in pages || (max == 0 && todo == pages.Keys)
        decreases |todo|
      {
        var k :| k in todo;
        todo := todo - {k};
        max := if max < k then k else max;
      }
      return Ok(max);
    }

    method GetCombinedHash(h: Hash, start: nat, end: nat) returns (r: StoreResult<Digest>)
      modifies this`credit
      ensures r.Ok? == (old(credit) != Limited(0))
      ensures credit == if r.Ok? then Spend(old(credit)) else old(credit)
      ensures r.Ok? ==> r.value == CombinedHash(h, pages, start, end)
    {
      var ok := Access();
      if !ok {
        return Err;
      }
      var digest := CombinedHashScan(h, pages, {}, start, end, Scan(pages, start, end));
      return Ok(digest.value);
    }
  }

  /** The socket behind the emit callback. */
  class Sink {
    var sent: seq<SyncMessage>
    var credit: Credit

    constructor (credit: Credit)
      ensures sent == [] && this.credit == credit
    {
      sent, this.credit := [], credit;
    }

    method Send(frame: SyncMessage) returns (ok: bool)
      modifies this
      ensures ok == (old(credit) != Limited(0))
      ensures credit == if ok then Spend(old(credit)) else old(credit)
      ensures sent == if ok then old(sent) + [frame] else old(sent)
    {
      ok := credit != Limited(0);
      if ok {
        credit := Spend(credit);
        sent := sent + [frame];
      }
    }
  }

  class SyncFsm {
    const hash: Hash
    const storage: PageTable
    const direction: Direction
    var sawHello: bool
    var completedHashPhase: bool
    var pendingRequests: set<nat>
    var clientSeen: set<nat>
    var serverMaxPage: nat
    var pagesTransferred: nat
    var bytesTransferred: nat
    var emittedComplete: bool
    /** What this session has sent and stored so far. */
    ghost var log: seq<Event>

    ghost function State(): Fsm
      reads this
    {
      Fsm(direction, sawHello, completedHashPhase, pendingRequests, clientSeen, serverMaxPage,
          pagesTransferred, bytesTransferred, emittedComplete)
    }

    /** The object, its storage and the socket as one value. */
    ghost function Snapshot(sink: Sink): World
      reads this, storage, sink
    {
      World(State(), storage.pages, storage.credit, sink.credit, log)
    }

    /** The socket has carried exactly the frames of the log. */
    ghost predicate Valid(sink: Sink)
      reads this, sink
    {
      sink.sent == Frames(log)
    }

    constructor (hash: Hash, storage: PageTable, direction: Direction)
      ensures this.hash == hash && this.storage == storage && this.direction == direction
      ensures State() == NewFsm(direction) && log == []
    {
      this.hash, this.storage, this.direction := hash, storage, direction;
      sawHello, completedHashPhase := false, false;
      pendingRequests, clientSeen := {}, {};
      serverMaxPage, pagesTransferred, bytesTransferred := 0, 0, 0;
      emittedComplete := false;
      log := [];
    }

    method EmitFrame(frame: SyncMessage, sink: Sink) returns (r: Option<Failure>)
      requires Valid(sink)
      modifies this`log, sink
      ensures Valid(sink)
      ensures Step(Snapshot(sink), r) == Emit(old(Snapshot(sink)), frame)
    {
      var ok := sink.Send(frame);
      if !ok {
        return Some(SendFailed);
      }
      FramesSnoc(log, Sent(frame));
      log := log + [Sent(frame)];
      return None;
    }

    ghost method LogStored(pageNo: nat, size: nat, sink: Sink)
      requires Valid(sink)
      modifies this`log
      ensures Valid(sink) && log == old(log) + [Stored(pageNo, size)]
    {
      FramesSnoc(log, Stored(pageNo, size));
      log := log + [Stored(pageNo, size)];
    }

    method CountPage(size: nat)
      modifies this`pagesTransferred, this`bytesTransferred
      ensures pagesTransferred == Wrap64(old(pagesTransferred) + 1)
      ensures bytesTransferred == Wrap64(old(bytesTransferred) + size)
    {
      pagesTransferred := Wrap64(pagesTransferred + 1);
      bytesTransferred := Wrap64(bytesTransferred + size);
    }

    method OnHello(protocolVersion: nat, pageSize: nat, sink: Sink) returns (r: Option<Failure>)
      requires Valid(sink)
      modifies this, storage`credit, sink
      ensures Valid(sink)
      ensures Step(Snapshot(sink), r) == HandleHello(old(Snapshot(sink)), protocolVersion, pageSize)
    {
      if protocolVersion != PROTOCOL_VERSION {
        return Some(VersionMismatch);
      }
      sawHello := true;
      var max := storage.GetMaxPage();
      if max.Err? {
        return Some(StorageFailed);
      }
      serverMaxPage := max.value;
      r := EmitFrame(HelloReply(PROTOCOL_VERSION, pageSize, serverMaxPage), sink);
    }

    method OnPageHash(pageNo: nat, hash: Bytes, sink: Sink) returns (r: Option<Failure>)
      requires Valid(sink)
      modifies this, storage`credit, sink
      ensures Valid(sink)
      ensures Step(Snapshot(sink), r) == HandlePageHash(old(Snapshot(sink)), pageNo, hash)
    {
      hide Frames, Wrap64;
      clientSeen := clientSeen + {pageNo};
      var stored := storage.GetPageHash(pageNo);
      if stored.Err? {
        return Some(StorageFailed);
      }
      if stored.value == Some(hash) {
        return None;
      }
      match direction
      case Push =>
        pendingRequests := pendingRequests + {pageNo};
        r := EmitFrame(RequestPage(pageNo), sink);
      case Pull =>
        var page := storage.GetPage(pageNo);
        if page.Err? {
          return Some(StorageFailed);
        }
        if page.value.Some? {
          CountPage(|page.value.value|);
          r := EmitFrame(PageData(pageNo, page.value.value), sink);
          return;
        }
        return None;
    }

    method OnPageHashBatch(start: nat, end: nat, clientCombined: Bytes, sink: Sink) returns (r: Option<Failure>)
      requires Valid(sink)
      modifies this, storage`credit, sink
      ensures Valid(sink)
      ensures Step(Snapshot(sink), r) == HandlePageHashBatch(hash, old(Snapshot(sink)), start, end, clientCombined)
    {
      clientSeen := clientSeen + PageSet(start, end);
      var stored := storage.GetCombinedHash(hash, start, end);
      if stored.Err? {
        return Some(StorageFailed);
      }
      if stored.value == clientCombined {
        return None;
      }
      r := EmitFrame(HashMismatchBatch(PageRange(start, end)), sink);
    }

    method OnPageData(pageNo: nat, data: Bytes, sink: Sink) returns (r: Option<Failure>)
      requires Valid(sink)
      modifies this, storage, sink
      ensures Valid(sink)
      ensures Step(Snapshot(sink), r) == HandlePageData(hash, old(Snapshot(sink)), pageNo, data)
    {
      r := StoreData(pageNo, data, sink);
      if r.None? {
        r := OnMaybeComplete(sink);
      }
    }

    method StoreData(pageNo: nat, data: Bytes, ghost sink: Sink) returns (r: Option<Failure>)
      requires Valid(sink)
      modifies this, storage
      ensures Valid(sink)
      ensures Step(Snapshot(sink), r) == StorePage(hash, old(Snapshot(sink)), pageNo, data)
    {
      pendingRequests := pendingRequests - {pageNo};
      var ok := storage.PutPage(pageNo, data, DigestOf(hash, data));
      if !ok {
        return Some(StorageFailed);
      }
      LogStored(pageNo, |data|, sink);
      CountPage(|data|);
      return None;
    }

    method OnPageDataBatch(pages: seq<PageDataEntry>, sink: Sink) returns (r: Option<Failure>)
      requires Valid(sink)
      modifies this, storage, sink
      ensures Valid(sink)
      ensures Step(Snapshot(sink), r) == HandlePageDataBatch(hash, old(Snapshot(sink)), pages)
    {
      var i := 0;
      while i < |pages|
        invariant 0 <= i <= |pages|
        invariant Valid(sink)
        invariant HandlePageDataBatch(hash, old(Snapshot(sink)), pages)
                  == HandlePageDataBatch(hash, Snapshot(sink), pages[i..])
      {
        var entry := pages[i];
        assert pages[i..][0] == entry && pages[i..][1..] == pages[i + 1..];
        r := OnPageData(entry.pageNo, entry.data, sink);
        if r.Some? {
          return;
        }
        i := i + 1;
      }
      return None;
    }

    method OnComplete(sink: Sink) returns (r: Option<Failure>)
      requires Valid(sink)
      modifies this, storage`credit, sink
      ensures Valid(sink)
      ensures Step(Snapshot(sink), r) == HandleComplete(old(Snapshot(sink)))
    {
      completedHashPhase := true;
      if direction.Pull? && serverMaxPage > 0 {
        var ok := storage.Access();
        if !ok {
          return Some(StorageFailed);
        }
        r := SendUnclaimed(sink);
        if r.Some? {
          return;
        }
      }
      r := OnMaybeComplete(sink);
    }

    /** The cursor loop of the pull walk: one row at a time, sent before the next is read. */
    method SendUnclaimed(sink: Sink) returns (r: Option<Failure>)
      requires Valid(sink)
      modifies this, storage`credit, sink
      ensures Valid(sink)
      ensures Step(Snapshot(sink), r) == Walk(old(Snapshot(sink)), 1, old(serverMaxPage))
    {
      var last := serverMaxPage;
      var rows := Scan(storage.pages, 1, last);
      ghost var from: nat := 1;
      var i := 0;
      hide IsScan, HashBytes;
      assert rows[0..] == rows;
      while i < |rows|
        invariant 0 <= i <= |rows|
        invariant Valid(sink)
        invariant storage.pages == old(storage.pages)
        invariant IsScan(storage.pages, from, last, rows[i..])
        invariant Walk(old(Snapshot(sink)), 1, last) == Walk(Snapshot(sink), from, last)
      {
        var pageNo := rows[i];
        NextRow(storage.pages, from, last, rows, i);
        WalkSkips(Snapshot(sink), from, pageNo, last);
        var ok := storage.Access();
        if !ok {
          return Some(StorageFailed);
        }
        r := SendRow(pageNo, storage.pages[pageNo].data, sink);
        if r.Some? {
          return;
        }
        from := pageNo + 1;
        i := i + 1;
      }
      assert rows[i..] == [];
      EmptyScan(storage.pages, from, last);
      WalkSkips(Snapshot(sink), from, if from <= last then last + 1 else from, last);
      return None;
    }

    method SendRow(pageNo: nat, data: Bytes, sink: Sink) returns (r: Option<Failure>)
      requires Valid(sink)
      modifies this, sink
      ensures Valid(sink)
      ensures Step(Snapshot(sink), r) == WalkPage(old(Snapshot(sink)), pageNo, data)
    {
      if pageNo in clientSeen {
        return None;
      }
      CountPage(|data|);
      r := EmitFrame(PageData(pageNo, data), sink);
    }

    method OnMaybeComplete(sink: Sink) returns (r: Option<Failure>)
      requires Valid(sink)
      modifies this, sink
      ensures Valid(sink)
      ensures Step(Snapshot(sink), r) == MaybeEmitComplete(old(Snapshot(sink)))
    {
      if emittedComplete || !completedHashPhase || pendingRequests != {} {
        return None;
      }
      r := EmitFrame(SyncComplete(pagesTransferred, bytesTransferred), sink);
      if r.None? {
        emittedComplete := true;
      }
    }

    method ApplyFrame(msg: SyncMessage, sink: Sink) returns (r: Option<Failure>)
      requires Valid(sink)
      modifies this, storage, sink
      ensures Valid(sink)
      ensures Step(Snapshot(sink), r) == Apply(hash, old(Snapshot(sink)), msg)
    {
      hide Frames, MaxPage;
      if !sawHello {
        match msg {
          case Hello(version, pageSize, _) => r := OnHello(version, pageSize, sink);
          case _ => r := Some(HelloExpected);
        }
        return;
      }
      match msg
      case Hello(_, _, _) => r := Some(HelloRepeated);
      case PageHash(pageNo, claimed) => r := OnPageHash(pageNo, claimed, sink);
      case PageHashBatch(start, end, combined) => r := OnPageHashBatch(start, end, combined, sink);
      case PageData(pageNo, data) => r := OnPageData(pageNo, data, sink);
      case PageDataBatch(pages) => r := OnPageDataBatch(pages, sink);
      case Complete => r := OnComplete(sink);
      case _ => r := Some(ServerMessageFromClient);
    }

    /** The peer closed: run the gate against a sink that swallows everything. */
    method OnClientClosed()
      modifies this
      ensures State() == ClientClosed(old(State()))
      ensures emittedComplete ==
              (old(emittedComplete) || (sawHello && completedHashPhase && pendingRequests == {}))
      ensures log == old(log)
    {
      if sawHello && pendingRequests == {} {
        if !emittedComplete && completedHashPhase {
          emittedComplete := true;
        }
      }
    }
  }

  /** Absent pages are skipped by the walk. */
  lemma {:induction false} WalkSkips(w: World, from: nat, next: nat, last: nat)
    requires from <= next && forall k | from <= k < next && k <= last :: k !in w.store
    ensures Walk(w, from, last) == Walk(w, next, last)
    decreases next - from
  {
    if from < next {
      WalkSkips(w, from + 1, next, last);
    }
  }

  /** One row of the walk, as the callback of a range query. */
  function WalkRow(before: Step, pageNo: nat, data: Bytes): Progress<Step> {
    var row := Charge(before.world);
    var sent := if row.error.Some? then row else WalkPage(row.world, pageNo, data);
    if sent.error.None? then Continue(sent) else Abort(sent)
  }

  lemma {:induction false} RowLeavesStore(before: Step, pageNo: nat, data: Bytes)
    ensures WalkRow(before, pageNo, data).acc.world.store == before.world.store
  {
  }

  /** The walk is the range query over the pages up to the handshake's maximum, with a callback
      that sends the unclaimed ones. */
  lemma {:induction false} WalkIsQuery(w: World, from: nat, last: nat)
    ensures Walk(w, from, last) == IterRange(w.store, {}, from, last, WalkRow, Done(w)).acc
    decreases last + 1 - from
  {
    if from <= last {
      if from !in w.store {
        WalkIsQuery(w, from + 1, last);
      } else {
        var next := WalkRow(Done(w), from, w.store[from].data);
        RowLeavesStore(Done(w), from, w.store[from].data);
        assert Walk(w, from, last) == if next.Continue? then Walk(next.acc.world, from + 1, last) else next.acc;
        assert next.Continue? ==> next.acc == Done(next.acc.world);
        hide WalkRow;
        WalkIsQuery(next.acc.world, from + 1, last);
      }
    }
  }
}
