/** What a session answers, read off the frames it has received: for every run of any client,
    the events that the next frame adds to the log and the way the session goes on.  Nothing
    here looks at the state machine's fields. */
module Replies {
  import opened Protocol
  import opened PageStore
  import opened SyncSpec
  import opened Session
  import Endings

  /** An arrival at which neither storage nor the socket fails. */
  predicate Reliable(a: Arrival) {
    a.storeCredit.Unlimited? && a.sendCredit.Unlimited?
  }

  /** This frame claims page `k`. */
  predicate Claims(msg: SyncMessage, k: nat) {
    match msg
    case PageHash(pageNo, _) => k == pageNo
    case PageHashBatch(start, end, _) => start <= k <= end
    case _ => false
  }

  /** The client has claimed page `k`. */
  predicate HasClaimed(arrivals: seq<Arrival>, k: nat) {
    exists i | 0 <= i < |arrivals| :: Claims(arrivals[i].msg, k)
  }

  /** The client has sent Complete. */
  predicate HasCompleted(arrivals: seq<Arrival>) {
    exists i | 0 <= i < |arrivals| :: arrivals[i].msg.Complete?
  }

  lemma {:induction false} HeardSnoc(arrivals: seq<Arrival>, a: Arrival)
    ensures HasCompleted(arrivals + [a]) <==> HasCompleted(arrivals) || a.msg.Complete?
    ensures forall k :: HasClaimed(arrivals + [a], k) <==> HasClaimed(arrivals, k) || Claims(a.msg, k)
  {
    var all := arrivals + [a];
    assert all[|arrivals|] == a && forall i | 0 <= i < |arrivals| :: all[i] == arrivals[i];
    forall k
      ensures HasClaimed(all, k) <==> HasClaimed(arrivals, k) || Claims(a.msg, k)
    {
      if i :| 0 <= i < |arrivals| && Claims(arrivals[i].msg, k) {
        assert Claims(all[i].msg, k);
      }
    }
    if i :| 0 <= i < |arrivals| && arrivals[i].msg.Complete? {
      assert all[i].msg.Complete?;
    }
  }

  // ----- An open session remembers what it heard, and nothing else -----

  /** The fields no page moves. */
  predicate SameNotes(fsm: Fsm, fsm': Fsm) {
    && fsm'.direction == fsm.direction && fsm'.sawHello == fsm.sawHello
    && fsm'.completedHashPhase == fsm.completedHashPhase
    && fsm'.clientSeen == fsm.clientSeen && fsm'.serverMaxPage == fsm.serverMaxPage
  }

  lemma {:induction false} WalkNotes(w: World, from: nat, last: nat)
    ensures SameNotes(w.fsm, Walk(w, from, last).world.fsm)
    decreases last + 1 - from
  {
    if from <= last {
      if from !in w.store {
        WalkNotes(w, from + 1, last);
      } else if Charge(w).error.None? {
        var sent := WalkPage(Charge(w).world, from, w.store[from].data);
        if sent.error.None? {
          WalkNotes(sent.world, from + 1, last);
        }
      }
    }
  }

  lemma {:induction false} BatchNotes(h: Hash, w: World, pages: seq<PageDataEntry>)
    ensures SameNotes(w.fsm, HandlePageDataBatch(h, w, pages).world.fsm)
    decreases |pages|
  {
    if pages != [] {
      var first := HandlePageData(h, w, pages[0].pageNo, pages[0].data);
      if first.error.None? {
        BatchNotes(h, first.world, pages[1..]);
      }
    }
  }

  lemma {:induction false} CompleteNotes(w: World)
    ensures SameNotes(w.fsm.(completedHashPhase := true), HandleComplete(w).world.fsm)
  {
    var w1 := w.(fsm := w.fsm.(completedHashPhase := true));
    if Charge(w1).error.None? {
      WalkNotes(Charge(w1).world, 1, w.fsm.serverMaxPage);
      hide Walk;
    }
  }

  /** What one frame after Hello adds to the notes. */
  lemma {:induction false} Noted(h: Hash, w: World, msg: SyncMessage)
    requires w.fsm.sawHello && Apply(h, w, msg).error.None?
    ensures var fsm' := Apply(h, w, msg).world.fsm;
            && fsm'.sawHello && fsm'.serverMaxPage == w.fsm.serverMaxPage
            && fsm'.completedHashPhase == (w.fsm.completedHashPhase || msg.Complete?)
            && forall k :: k in fsm'.clientSeen <==> k in w.fsm.clientSeen || Claims(msg, k)
  {
    match msg
    case PageDataBatch(pages) =>
      BatchNotes(h, w, pages);
      hide HandlePageDataBatch;
    case Complete =>
      CompleteNotes(w);
      hide HandleComplete;
    case _ =>
  }

  /** The fields of an open session, in terms of what it has received. */
  ghost predicate Remembers(arrivals: seq<Arrival>, s: Session) {
    && (s.fsm.sawHello <==> arrivals != [])
    && (arrivals != [] ==> arrivals[0].msg.Hello? && s.fsm.serverMaxPage == MaxPage(arrivals[0].store))
    && (s.fsm.completedHashPhase <==> HasCompleted(arrivals))
    && (forall k :: k in s.fsm.clientSeen <==> HasClaimed(arrivals, k))
  }

  lemma {:induction false} DeliverRemembers(h: Hash, direction: Direction, arrivals: seq<Arrival>, s: Session, a: Arrival)
    requires s.status.Open? && Sound(direction, s) && Remembers(arrivals, s)
    ensures Deliver(h, s, a).status.Open? ==> Remembers(arrivals + [a], Deliver(h, s, a))
  {
    HeardSnoc(arrivals, a);
    assert (arrivals + [a])[0] == if arrivals == [] then a else arrivals[0];
    hide MaxPage, HasClaimed, HasCompleted;
    var w := World(s.fsm, a.store, a.storeCredit, a.sendCredit, s.log);
    if !s.fsm.sawHello {
      hide Consistent, Gate;
    } else if Apply(h, w, a.msg).error.None? {
      Noted(h, w, a.msg);
      hide Apply;
    }
  }

  lemma {:induction false} RunRemembers(h: Hash, direction: Direction, arrivals: seq<Arrival>)
    requires Run(h, direction, arrivals).status.Open?
    ensures Remembers(arrivals, Run(h, direction, arrivals))
  {
    if arrivals != [] {
      var n := |arrivals| - 1;
      assert arrivals == arrivals[..n] + [arrivals[n]];
      RunRemembers(h, direction, arrivals[..n]);
      RunIsSound(h, direction, arrivals[..n]);
      DeliverRemembers(h, direction, arrivals[..n], Run(h, direction, arrivals[..n]), arrivals[n]);
      hide Deliver, Remembers, Sound;
    }
  }

  // ----- The first frame -----

  /** A connection opens with a Hello of version 1 and is answered with the greatest stored page
      number; any other version and any other frame ends it without an answer. */
  lemma {:induction false} FirstFrame(h: Hash, direction: Direction, a: Arrival)
    requires Reliable(a)
    ensures var s := Run(h, direction, [a]);
            if !a.msg.Hello? then s.log == [] && s.status == Failed(HelloExpected)
            else if a.msg.protocolVersion != 1 then s.log == [] && s.status == Failed(VersionMismatch)
            else exists max: nat ::
                   && s.log == [Sent(HelloReply(1, a.msg.pageSize, max))] && s.status == Open
                   && (forall k | k in a.store :: k <= max)
                   && (max in a.store || (a.store == map[] && max == 0))
  {
    RunSnoc(h, direction, [], a);
    assert [] + [a] == [a];
    if a.msg.Hello? && a.msg.protocolVersion == 1 {
      assert forall e: Event :: [] + [e] == [e];
      var max := MaxPage(a.store);
      assert a.store == map[] || a.store.Keys != {};
      assert Run(h, direction, [a]).log == [Sent(HelloReply(1, a.msg.pageSize, max))];
    }
  }

  // ----- Every later frame -----

  /** The session is open and has received Hello. */
  ghost predicate Talks(h: Hash, direction: Direction, arrivals: seq<Arrival>) {
    arrivals != [] && Run(h, direction, arrivals).status.Open?
  }

  /** The store as the next frame leaves it. */
  ghost function StoreAfter(h: Hash, direction: Direction, arrivals: seq<Arrival>, a: Arrival): Store {
    var s := Run(h, direction, arrivals);
    Apply(h, World(s.fsm, a.store, a.storeCredit, a.sendCredit, s.log), a.msg).world.store
  }

  /** The next frame adds these events to the log and leaves the session like this. */
  ghost predicate Adds(h: Hash, direction: Direction, arrivals: seq<Arrival>, a: Arrival, events: seq<Event>,
                       status: Status) {
    && Run(h, direction, arrivals + [a]).log == Run(h, direction, arrivals).log + events
    && Run(h, direction, arrivals + [a]).status == status
  }

  /** What the next frame meets. */
  ghost function Before(h: Hash, direction: Direction, arrivals: seq<Arrival>, a: Arrival): World {
    var s := Run(h, direction, arrivals);
    World(s.fsm, a.store, a.storeCredit, a.sendCredit, s.log)
  }

  /** What the lemmas below start from. */
  ghost predicate Talking(direction: Direction, arrivals: seq<Arrival>, w: World) {
    && w.fsm.direction == direction
    && Consistent(w.fsm, w.log) && Gate(w.fsm) && !w.fsm.emittedComplete
    && arrivals != [] && w.fsm.serverMaxPage == MaxPage(arrivals[0].store)
    && (w.fsm.completedHashPhase <==> HasCompleted(arrivals))
    && (forall k :: k in w.fsm.clientSeen <==> HasClaimed(arrivals, k))
    && w.fsm.pendingRequests == Outstanding(w.log)
  }

  lemma {:induction false} NextStep(h: Hash, direction: Direction, arrivals: seq<Arrival>, a: Arrival)
    requires Talks(h, direction, arrivals)
    ensures var w := Before(h, direction, arrivals, a);
            var s' := Run(h, direction, arrivals + [a]);
            && Talking(direction, arrivals, w)
            && w.log == Run(h, direction, arrivals).log
            && w.store == a.store && w.storeCredit == a.storeCredit && w.sendCredit == a.sendCredit
            && s'.log == Apply(h, w, a.msg).world.log && s'.status == StatusAfter(Apply(h, w, a.msg))
            && StoreAfter(h, direction, arrivals, a) == Apply(h, w, a.msg).world.store
  {
    RunSnoc(h, direction, arrivals, a);
    RunIsSound(h, direction, arrivals);
    RunRemembers(h, direction, arrivals);
    hide Run, Apply, HasClaimed, HasCompleted, MaxPage;
  }

  /** A second Hello, or a frame only a server may send, ends the session without an answer. */
  lemma {:induction false} OutOfPlace(h: Hash, direction: Direction, arrivals: seq<Arrival>, a: Arrival)
    requires Talks(h, direction, arrivals)
    ensures a.msg.Hello? ==> Adds(h, direction, arrivals, a, [], Failed(HelloRepeated))
    ensures a.msg.HelloReply? || a.msg.RequestPage? || a.msg.RequestPages? || a.msg.HashMismatch?
            || a.msg.HashMismatchBatch? || a.msg.SyncComplete? || a.msg.Error? ==>
              Adds(h, direction, arrivals, a, [], Failed(ServerMessageFromClient))
  {
    hide Run, HasClaimed, HasCompleted, MaxPage, Consistent, Gate, Outstanding;
    NextStep(h, direction, arrivals, a);
    var w := Before(h, direction, arrivals, a);
    SawHello(direction, arrivals, w);
    hide Talking;
    assert w.log + [] == w.log;
  }

  lemma {:induction false} SawHello(direction: Direction, arrivals: seq<Arrival>, w: World)
    requires Talking(direction, arrivals, w)
    ensures w.fsm.sawHello
  {
  }

  /** A page hash that matches is not answered.  Any other one is requested in a push, and in a
      pull answered with the stored page, if there is one. */
  lemma {:induction false} HashAnswer(h: Hash, direction: Direction, arrivals: seq<Arrival>, a: Arrival, k: nat, hash: Bytes)
    requires Talks(h, direction, arrivals) && Reliable(a) && a.msg == PageHash(k, hash)
    ensures Adds(h, direction, arrivals, a,
                 if k in a.store && a.store[k].hash == hash then []
                 else if direction == Push then [Sent(RequestPage(k))]
                 else if k in a.store then [Sent(PageData(k, a.store[k].data))]
                 else [], Open)
    ensures StoreAfter(h, direction, arrivals, a) == a.store
  {
    NextStep(h, direction, arrivals, a);
    assert Apply(h, Before(h, direction, arrivals, a), a.msg) == HandlePageHash(Before(h, direction, arrivals, a), k, hash);
    hide Run, Apply, Before, HasClaimed, HasCompleted, MaxPage, Frames, StoreAfter;
  }

  /** A range claim is answered with the page numbers of the range exactly when it is not the
      hash of the stored hashes of the range's rows, in order. */
  lemma {:induction false} RangeAnswer(h: Hash, direction: Direction, arrivals: seq<Arrival>, a: Arrival,
                                       start: nat, end: nat, combined: Bytes)
    requires Talks(h, direction, arrivals) && Reliable(a) && a.msg == PageHashBatch(start, end, combined)
    ensures var numbers := seq(if start > end then 0 else end + 1 - start, i requires 0 <= i => start + i);
            Adds(h, direction, arrivals, a,
                 if combined == h(RowHashes(a.store, Scan(a.store, start, end))) then []
                 else [Sent(HashMismatchBatch(numbers))], Open)
    ensures StoreAfter(h, direction, arrivals, a) == a.store
  {
    NextStep(h, direction, arrivals, a);
    DigestsTheRows(h, a.store, start, end);
    var numbers := seq(if start > end then 0 else end + 1 - start, i requires 0 <= i => start + i);
    assert PageRange(start, end) == numbers;
    hide Run, Before, HasClaimed, HasCompleted, MaxPage, Frames, StoreAfter, CombinedHash, RowHashes, PageRange;
  }

  /** The Stored events of these entries, in order. */
  function Writes(pages: seq<PageDataEntry>): seq<Event> {
    seq(|pages|, i requires 0 <= i < |pages| => Stored(pages[i].pageNo, |pages[i].data|))
  }

  function Totals(log: seq<Event>): SyncMessage {
    SyncComplete(PagesMoved(log) % 0x1_0000_0000_0000_0000, BytesMoved(log) % 0x1_0000_0000_0000_0000)
  }

  /** A page that arrives is stored with the hash of its bytes, whether it was asked for or not.
      SyncComplete follows exactly when the client has sent Complete and this was the last page
      asked for. */
  lemma {:induction false} DataAnswer(h: Hash, direction: Direction, arrivals: seq<Arrival>, a: Arrival, k: nat, data: Bytes)
    requires Talks(h, direction, arrivals) && Reliable(a) && a.msg == PageData(k, data)
    ensures var log := Run(h, direction, arrivals).log;
            var stored := Stored(k, |data|);
            if HasCompleted(arrivals) && Outstanding(log) <= {k}
            then Adds(h, direction, arrivals, a, [stored, Sent(Totals(log + [stored]))], Finished)
            else Adds(h, direction, arrivals, a, [stored], Open)
    ensures StoreAfter(h, direction, arrivals, a) == a.store[k := Page(data, h(data))]
  {
    NextStep(h, direction, arrivals, a);
    var w := Before(h, direction, arrivals, a);
    OneEntry(h, w, k, data);
    assert Apply(h, w, a.msg) == HandlePageData(h, w, k, data);
    hide Run, Apply, Before, HasClaimed, HasCompleted, MaxPage, Frames, StoreAfter, HandlePageData, Outstanding;
  }

  /** One entry of a batch, or a page on its own. */
  lemma {:induction false} OneEntry(h: Hash, w: World, k: nat, data: Bytes)
    requires w.storeCredit.Unlimited? && w.sendCredit.Unlimited?
    requires Consistent(w.fsm, w.log) && Gate(w.fsm)
    ensures var step := HandlePageData(h, w, k, data);
            var stored := Stored(k, |data|);
            var ends := !w.fsm.emittedComplete && w.fsm.completedHashPhase && w.fsm.pendingRequests <= {k};
            && step.error.None?
            && step.world.storeCredit.Unlimited? && step.world.sendCredit.Unlimited?
            && step.world.store == w.store[k := Page(data, h(data))]
            && step.world.log == w.log + [stored] + (if ends then [Sent(Totals(w.log + [stored]))] else [])
            && step.world.fsm.emittedComplete == (w.fsm.emittedComplete || ends)
            && step.world.fsm.completedHashPhase == w.fsm.completedHashPhase
            && step.world.fsm.pendingRequests == w.fsm.pendingRequests - {k}
            && Consistent(step.world.fsm, step.world.log) && Gate(step.world.fsm)
  {
    PageDataKeeps(h, w, k, data);
    Snoc(w.fsm.direction, w.log, Stored(k, |data|));
    CountOne(w, |data|);
    hide StageOf, Outstanding, PagesMoved, BytesMoved, Lawful;
  }

  lemma {:induction false} WritesCons(pages: seq<PageDataEntry>)
    requires pages != []
    ensures Writes(pages) == [Stored(pages[0].pageNo, |pages[0].data|)] + Writes(pages[1..])
  {
  }

  /** No entry of the batch names page `k`. */
  predicate Unnamed(pages: seq<PageDataEntry>, k: nat) {
    forall i | 0 <= i < |pages| :: pages[i].pageNo != k
  }

  lemma {:induction false} UnnamedTail(pages: seq<PageDataEntry>, k: nat)
    requires pages != []
    ensures Unnamed(pages, k) <==> pages[0].pageNo != k && Unnamed(pages[1..], k)
  {
    assert forall i | 0 < i < |pages| :: pages[1..][i - 1] == pages[i];
  }

  /** Nothing fails in this world, and it is between frames. */
  predicate Sturdy(w: World) {
    w.storeCredit.Unlimited? && w.sendCredit.Unlimited? && Consistent(w.fsm, w.log) && Gate(w.fsm)
  }

  lemma {:induction false} BatchLeaves(h: Hash, w: World, pages: seq<PageDataEntry>, k: nat)
    requires Sturdy(w) && Unnamed(pages, k)
    ensures var store' := HandlePageDataBatch(h, w, pages).world.store;
            (k in store' <==> k in w.store) && (k in w.store ==> store'[k] == w.store[k])
    decreases |pages|
  {
    if pages != [] {
      UnnamedTail(pages, k);
      OneEntry(h, w, pages[0].pageNo, pages[0].data);
      var next := HandlePageData(h, w, pages[0].pageNo, pages[0].data).world;
      hide HandlePageData, Consistent, Gate;
      BatchLeaves(h, next, pages[1..], k);
    }
  }

  lemma {:induction false} BatchStores(h: Hash, w: World, pages: seq<PageDataEntry>, i: nat)
    requires Sturdy(w) && i < |pages| && Unnamed(pages[i + 1..], pages[i].pageNo)
    ensures var store' := HandlePageDataBatch(h, w, pages).world.store;
            pages[i].pageNo in store' && store'[pages[i].pageNo] == Page(pages[i].data, h(pages[i].data))
    decreases |pages|
  {
    OneEntry(h, w, pages[0].pageNo, pages[0].data);
    var next := HandlePageData(h, w, pages[0].pageNo, pages[0].data).world;
    hide HandlePageData, Consistent, Gate;
    if i == 0 {
      BatchLeaves(h, next, pages[1..], pages[0].pageNo);
    } else {
      assert pages[1..][i - 1] == pages[i] && pages[1..][i..] == pages[i + 1..];
      BatchStores(h, next, pages[1..], i - 1);
    }
  }

  /** The number of entries after which the session completes, if it does. */
  ghost predicate CompletesAfter(pages: seq<PageDataEntry>, awaited: set<nat>, n: nat) {
    && 1 <= n <= |pages|
    && awaited <= Endings.FirstNumbers(pages, n)
    && !(awaited <= Endings.FirstNumbers(pages, n - 1))
  }

  /** Once SyncComplete is out, a batch only stores. */
  lemma {:induction false} LateBatch(h: Hash, w: World, pages: seq<PageDataEntry>)
    requires Sturdy(w) && w.fsm.emittedComplete
    ensures var step := HandlePageDataBatch(h, w, pages);
            step.error.None? && step.world.log == w.log + Writes(pages) && step.world.fsm.emittedComplete
    decreases |pages|
  {
    if pages == [] {
      assert w.log + Writes(pages) == w.log;
    } else {
      OneEntry(h, w, pages[0].pageNo, pages[0].data);
      WritesCons(pages);
      var next := HandlePageData(h, w, pages[0].pageNo, pages[0].data).world;
      hide HandlePageData, Consistent, Gate, Writes;
      LateBatch(h, next, pages[1..]);
      Regroup(w.log, [Stored(pages[0].pageNo, |pages[0].data|)], Writes(pages[1..]));
    }
  }

  lemma {:induction false} Regroup(a: seq<Event>, b: seq<Event>, c: seq<Event>)
    ensures a + b + c == a + (b + c)
  {
  }

  /** All entries are stored, and SyncComplete is among them at one place. */
  ghost predicate SplitsAt(log: seq<Event>, pages: seq<PageDataEntry>, n: nat, log': seq<Event>)
    requires n <= |pages|
  {
    log' == log + Writes(pages[..n]) + [Sent(Totals(log + Writes(pages[..n])))] + Writes(pages[n..])
  }

  lemma {:induction false} SplitsFirst(log: seq<Event>, pages: seq<PageDataEntry>)
    requires pages != []
    ensures var stored := Stored(pages[0].pageNo, |pages[0].data|);
            SplitsAt(log, pages, 1, log + [stored] + [Sent(Totals(log + [stored]))] + Writes(pages[1..]))
  {
    assert Writes(pages[..1]) == [Stored(pages[0].pageNo, |pages[0].data|)];
  }

  lemma {:induction false} SplitsLater(log: seq<Event>, pages: seq<PageDataEntry>, n: nat, log': seq<Event>)
    requires pages != [] && n <= |pages| - 1
    requires SplitsAt(log + [Stored(pages[0].pageNo, |pages[0].data|)], pages[1..], n, log')
    ensures SplitsAt(log, pages, n + 1, log')
  {
    var stored: seq<Event> := [Stored(pages[0].pageNo, |pages[0].data|)];
    assert pages[1..][..n] == pages[..n + 1][1..] && pages[1..][n..] == pages[n + 1..];
    WritesCons(pages[..n + 1]);
    Regroup(log, stored, Writes(pages[1..][..n]));
    hide Writes;
  }

  lemma {:induction false} CompletesLater(pages: seq<PageDataEntry>, awaited: set<nat>, n: nat)
    requires pages != [] && CompletesAfter(pages[1..], awaited - {pages[0].pageNo}, n)
    ensures CompletesAfter(pages, awaited, n + 1)
  {
    Endings.FirstNumbersCons(pages, n + 1);
    Endings.FirstNumbersCons(pages, n);
    hide Endings.FirstNumbers;
  }

  lemma {:induction false} BatchLog(h: Hash, w: World, pages: seq<PageDataEntry>) returns (n: nat)
    requires Sturdy(w) && !w.fsm.emittedComplete
    ensures HandlePageDataBatch(h, w, pages).error.None?
    ensures var last := HandlePageDataBatch(h, w, pages).world;
            if w.fsm.completedHashPhase && w.fsm.pendingRequests <= Endings.FirstNumbers(pages, |pages|) then
              && CompletesAfter(pages, w.fsm.pendingRequests, n)
              && last.fsm.emittedComplete && SplitsAt(w.log, pages, n, last.log)
            else !last.fsm.emittedComplete && last.log == w.log + Writes(pages)
    decreases |pages|
  {
    n := 0;
    if pages == [] {
      assert w.log + Writes(pages) == w.log;
    } else {
      var k, stored := pages[0].pageNo, Stored(pages[0].pageNo, |pages[0].data|);
      OneEntry(h, w, k, pages[0].data);
      var next := HandlePageData(h, w, k, pages[0].data).world;
      Endings.FirstNumbersCons(pages, |pages|);
      hide HandlePageData, Consistent, Writes, SplitsAt, CompletesAfter, Totals;
      if next.fsm.emittedComplete {
        n := 1;
        LateBatch(h, next, pages[1..]);
        SplitsFirst(w.log, pages);
        CompletesFirst(pages, w.fsm.pendingRequests);
      } else {
        n := BatchLog(h, next, pages[1..]);
        if next.fsm.completedHashPhase && next.fsm.pendingRequests <= Endings.FirstNumbers(pages[1..], |pages| - 1) {
          CompletesLater(pages, w.fsm.pendingRequests, n);
          assert n <= |pages| - 1 by {
            CompletesInside(pages[1..], next.fsm.pendingRequests, n);
          }
          SplitsLater(w.log, pages, n, HandlePageDataBatch(h, w, pages).world.log);
          n := n + 1;
        } else {
          WritesCons(pages);
          Regroup(w.log, [stored], Writes(pages[1..]));
        }
      }
    }
  }

  lemma {:induction false} CompletesInside(pages: seq<PageDataEntry>, awaited: set<nat>, n: nat)
    requires CompletesAfter(pages, awaited, n)
    ensures 1 <= n <= |pages|
  {
  }

  lemma {:induction false} CompletesFirst(pages: seq<PageDataEntry>, awaited: set<nat>)
    requires pages != [] && awaited != {} && awaited <= {pages[0].pageNo}
    ensures CompletesAfter(pages, awaited, 1)
  {
    assert Endings.FirstNumbers(pages, 0) == {};
    Endings.FirstNumbersCons(pages, 1);
    hide Endings.FirstNumbers;
  }

  /** A batch stores all its entries in order, so each page it names ends with the last bytes
      given for it and no other page changes.  SyncComplete goes out right after the entry that
      brings the last page asked for, if the client has sent Complete, and the entries after it
      are stored all the same. */
  lemma {:induction false} BatchAnswer(h: Hash, direction: Direction, arrivals: seq<Arrival>, a: Arrival,
                                       pages: seq<PageDataEntry>) returns (n: nat)
    requires Talks(h, direction, arrivals) && Reliable(a) && a.msg == PageDataBatch(pages)
    ensures var log := Run(h, direction, arrivals).log;
            if HasCompleted(arrivals) && Outstanding(log) <= Endings.FirstNumbers(pages, |pages|) then
              && CompletesAfter(pages, Outstanding(log), n)
              && SplitsAt(log, pages, n, Run(h, direction, arrivals + [a]).log)
              && Run(h, direction, arrivals + [a]).status == Finished
            else Adds(h, direction, arrivals, a, Writes(pages), Open)
    ensures var store := StoreAfter(h, direction, arrivals, a);
            && (forall i | 0 <= i < |pages| && Unnamed(pages[i + 1..], pages[i].pageNo) ::
                  && pages[i].pageNo in store
                  && store[pages[i].pageNo] == Page(pages[i].data, h(pages[i].data)))
            && (forall k | Unnamed(pages, k) ::
                  (k in store <==> k in a.store) && (k in a.store ==> store[k] == a.store[k]))
  {
    NextStep(h, direction, arrivals, a);
    var w := Before(h, direction, arrivals, a);
    assert Apply(h, w, a.msg) == HandlePageDataBatch(h, w, pages);
    hide Run, Apply, Before, HasClaimed, HasCompleted, MaxPage, Frames, StoreAfter, HandlePageData, Consistent, Gate;
    hide HandlePageDataBatch, Outstanding, SplitsAt, CompletesAfter, Endings.FirstNumbers, Writes;
    n := BatchLog(h, w, pages);
    var store := StoreAfter(h, direction, arrivals, a);
    forall i | 0 <= i < |pages| && Unnamed(pages[i + 1..], pages[i].pageNo)
      ensures pages[i].pageNo in store && store[pages[i].pageNo] == Page(pages[i].data, h(pages[i].data))
    {
      BatchStores(h, w, pages, i);
    }
    forall k | Unnamed(pages, k)
      ensures (k in store <==> k in a.store) && (k in a.store ==> store[k] == a.store[k])
    {
      BatchLeaves(h, w, pages, k);
    }
  }

  // ----- Complete -----

  /** In a push, Complete is answered by SyncComplete exactly when every page asked for has
      arrived. */
  lemma {:induction false} PushCompletes(h: Hash, arrivals: seq<Arrival>, a: Arrival)
    requires Talks(h, Direction.Push, arrivals) && Reliable(a) && a.msg == Complete
    ensures var log := Run(h, Direction.Push, arrivals).log;
            if Outstanding(log) == {} then Adds(h, Direction.Push, arrivals, a, [Sent(Totals(log))], Finished)
            else Adds(h, Direction.Push, arrivals, a, [], Open)
    ensures StoreAfter(h, Direction.Push, arrivals, a) == a.store
  {
    NextStep(h, Direction.Push, arrivals, a);
    assert Apply(h, Before(h, Direction.Push, arrivals, a), a.msg) == HandleComplete(Before(h, Direction.Push, arrivals, a));
    hide Run, Apply, Before, HasClaimed, HasCompleted, MaxPage, Frames, StoreAfter, Outstanding, StageOf, Lawful;
  }

  /** Nothing is ever asked for in a pull. */
  lemma {:induction false} PullAwaitsNothing(log: seq<Event>)
    requires Lawful(Direction.Pull, log)
    ensures Outstanding(log) == {}
  {
    if log != [] {
      PullAwaitsNothing(log[..|log| - 1]);
    }
  }

  /** These pages, sent. */
  function Sendings(store: Store, rows: seq<nat>): seq<Event>
    requires forall k | k in rows :: k in store
  {
    seq(|rows|, i requires 0 <= i < |rows| => Sent(PageData(rows[i], store[rows[i]].data)))
  }

  /** The stored pages up to `last` that the client has not claimed, in page order. */
  ghost predicate IsRest(arrivals: seq<Arrival>, store: Store, last: nat, rows: seq<nat>) {
    && (forall i, j | 0 <= i < j < |rows| :: rows[i] < rows[j])
    && (forall k :: k in rows <==> k in store && 1 <= k <= last && !HasClaimed(arrivals, k))
  }

  lemma {:induction false} WalkSends(w: World, from: nat, last: nat) returns (rows: seq<nat>)
    requires w.storeCredit.Unlimited? && w.sendCredit.Unlimited?
    ensures forall i, j | 0 <= i < j < |rows| :: rows[i] < rows[j]
    ensures forall k :: k in rows <==> k in w.store && from <= k <= last && k !in w.fsm.clientSeen
    ensures var step := Walk(w, from, last);
            && step.error.None?
            && step.world.storeCredit.Unlimited? && step.world.sendCredit.Unlimited?
            && step.world.store == w.store && step.world.log == w.log + Sendings(w.store, rows)
            && step.world.fsm.pendingRequests == w.fsm.pendingRequests
            && step.world.fsm.completedHashPhase == w.fsm.completedHashPhase
            && step.world.fsm.emittedComplete == w.fsm.emittedComplete
    decreases last + 1 - from
  {
    rows := [];
    if from > last {
      assert w.log + Sendings(w.store, rows) == w.log;
    } else if from !in w.store || from in w.fsm.clientSeen {
      rows := WalkSends(w, from + 1, last);
    } else {
      var data := w.store[from].data;
      var sent := SendPage(w, from, data).world;
      assert sent.log == w.log + [Sent(PageData(from, data))];
      assert Walk(w, from, last) == Walk(sent, from + 1, last);
      hide Walk;
      var rest := WalkSends(sent, from + 1, last);
      rows := [from] + rest;
      hide SendPage;
      assert Sendings(w.store, rows) == [Sent(PageData(from, data))] + Sendings(w.store, rest);
      Regroup(w.log, [Sent(PageData(from, data))], Sendings(w.store, rest));
      assert forall i | 0 <= i < |rest| :: rest[i] in rest;
    }
  }

  lemma {:induction false} CompleteSends(w: World) returns (rows: seq<nat>, frame: SyncMessage)
    requires w.storeCredit.Unlimited? && w.sendCredit.Unlimited?
    requires w.fsm.direction.Pull? && !w.fsm.emittedComplete && w.fsm.pendingRequests == {}
    ensures forall i, j | 0 <= i < j < |rows| :: rows[i] < rows[j]
    ensures forall k :: k in rows <==> k in w.store && 1 <= k <= w.fsm.serverMaxPage && k !in w.fsm.clientSeen
    ensures var step := HandleComplete(w);
            && step.error.None? && step.world.fsm.emittedComplete && step.world.store == w.store
            && frame.SyncComplete? && step.world.log == w.log + Sendings(w.store, rows) + [Sent(frame)]
  {
    var w1 := w.(fsm := w.fsm.(completedHashPhase := true));
    rows := WalkSends(w1, 1, w.fsm.serverMaxPage);
    var walked := Walk(w1, 1, w.fsm.serverMaxPage).world;
    frame := SyncComplete(walked.fsm.pagesTransferred, walked.fsm.bytesTransferred);
    hide Walk;
  }

  lemma {:induction false} EndsInTotals(direction: Direction, before: seq<Event>, frame: SyncMessage)
    requires Lawful(direction, before + [Sent(frame)]) && frame.SyncComplete?
    ensures frame == Totals(before)
  {
    Snoc(direction, before, Sent(frame));
    hide Lawful, StageOf, Outstanding, PagesMoved, BytesMoved;
  }

  /** In a pull, Complete is answered by every stored page that the client has not claimed and
      whose number was in use at the handshake, in page order, and then by SyncComplete. */
  lemma {:induction false} PullCompletes(h: Hash, arrivals: seq<Arrival>, a: Arrival) returns (rows: seq<nat>)
    requires Talks(h, Direction.Pull, arrivals) && Reliable(a) && a.msg == Complete
    ensures IsRest(arrivals, a.store, MaxPage(arrivals[0].store), rows)
    ensures var sent := Sendings(a.store, rows);
            var log := Run(h, Direction.Pull, arrivals).log;
            Adds(h, Direction.Pull, arrivals, a, sent + [Sent(Totals(log + sent))], Finished)
    ensures StoreAfter(h, Direction.Pull, arrivals, a) == a.store
  {
    hide Run, Apply, HasClaimed, HasCompleted, MaxPage, Frames, StoreAfter, Outstanding, StageOf, Lawful;
    hide HandleComplete, Gate, Totals, Sendings;
    NextStep(h, Direction.Pull, arrivals, a);
    var w := Before(h, Direction.Pull, arrivals, a);
    CompleteApplies(h, w);
    PullAwaitsNothing(w.log);
    RunIsSound(h, Direction.Pull, arrivals + [a]);
    var frame;
    rows, frame := CompleteSends(w);
    EndsInTotals(Direction.Pull, w.log + Sendings(a.store, rows), frame);
    Regroup(w.log, Sendings(a.store, rows), [Sent(frame)]);
    hide Before;
  }

  lemma {:induction false} CompleteApplies(h: Hash, w: World)
    requires w.fsm.sawHello
    ensures Apply(h, w, Complete) == HandleComplete(w)
  {
    hide HandleComplete;
  }
}
