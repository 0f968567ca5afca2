/** What the client says and does, read off the frames it has received: for every run of its two
    machines on any frames from any server.  Nothing here looks at the machines' queues. */
module ClientLaws {
  import opened Protocol
  import opened SyncClient

  /** Hello, and the hashes of the first `n` pages. */
  function Opening(h: Hash, db: LocalDb, n: nat): seq<SyncMessage>
    requires n <= |db|
  {
    [Hello(1, 4096, |db|)] + seq(n, i requires 0 <= i < n => PageHash(i + 1, h(db[i])))
  }

  lemma {:induction false} OpeningSnoc(h: Hash, db: LocalDb, n: nat)
    requires n < |db|
    ensures Opening(h, db, n + 1) == Opening(h, db, n) + [PageHash(n + 1, h(db[n]))]
  {
  }

  predicate IsReply(m: SyncMessage) {
    m.HelloReply? && m.protocolVersion == 1
  }

  // ----- push -----

  /** The page numbers these frames ask for, in order. */
  function Requested(frames: seq<SyncMessage>): seq<nat> {
    if frames == [] then []
    else
      Requested(frames[..|frames| - 1]) +
      match frames[|frames| - 1]
      case RequestPage(k) => [k]
      case RequestPages(ks) => ks
      case _ => []
  }

  predicate OnlyRequests(frames: seq<SyncMessage>) {
    forall m | m in frames :: m.RequestPage? || m.RequestPages?
  }

  lemma {:induction false} RequestedSnoc(all: seq<SyncMessage>, n: nat)
    requires 1 <= n < |all|
    ensures Requested(all[1..n + 1]) == Requested(all[1..n]) + match all[n]
                                                               case RequestPage(k) => [k]
                                                               case RequestPages(ks) => ks
                                                               case _ => []
    ensures OnlyRequests(all[1..n + 1]) <==> OnlyRequests(all[1..n]) && (all[n].RequestPage? || all[n].RequestPages?)
  {
    assert all[1..n + 1] == all[1..n] + [all[n]];
  }

  /** Each of these pages, if the database has them all. */
  function Answers(db: LocalDb, ks: seq<nat>): seq<SyncMessage>
    requires forall k | k in ks :: 1 <= k <= |db|
  {
    seq(|ks|, i requires 0 <= i < |ks| && ks[i] in ks => PageData(ks[i], db[ks[i] - 1]))
  }

  lemma {:induction false} AnswersSnoc(db: LocalDb, ks: seq<nat>, k: nat)
    requires (forall k' | k' in ks :: 1 <= k' <= |db|) && 1 <= k <= |db|
    ensures forall k' | k' in ks + [k] :: 1 <= k' <= |db|
    ensures Answers(db, ks + [k]) == Answers(db, ks) + [PageData(k, db[k - 1])]
  {
  }

  /** After `read` frames, the first of them the reply and the others requests, the client has
      announced every page and said Complete; it has answered the requests in order, down to
      those still queued. */
  ghost predicate HasServed(h: Hash, db: LocalDb, inbound: seq<SyncMessage>, read: nat, pending: seq<nat>,
                            outbound: seq<SyncMessage>) {
    && 1 <= read <= |inbound| && IsReply(inbound[0]) && OnlyRequests(inbound[1..read])
    && var asked := Requested(inbound[1..read]);
       && |pending| <= |asked|
       && var n := |asked| - |pending|;
          && pending == asked[n..]
          && (forall k | k in asked[..n] :: 1 <= k <= |db|)
          && outbound == Opening(h, db, |db|) + [Complete] + Answers(db, asked[..n])
  }

  /** Where a push stands, by the frames it has read and sent. */
  ghost predicate PushStands(h: Hash, db: LocalDb, inbound: seq<SyncMessage>, s: PushSide) {
    && |s.inbound| <= |inbound|
    && var read := |inbound| - |s.inbound|;
       && s.inbound == inbound[read..]
       && match s.client.phase
          case Connecting => read == 0 && s.outbound == [] && s.client.pending == [] && s.client.nextPage == 1
          case AwaitingReply =>
            read == 0 && s.outbound == Opening(h, db, 0) && s.client.pending == [] && s.client.nextPage == 1
          case Hashing =>
            && read >= 1 && IsReply(inbound[0]) && OnlyRequests(inbound[1..read])
            && s.client.nextPage <= |db| + 1 && s.outbound == Opening(h, db, s.client.nextPage - 1)
            && s.client.pending == Requested(inbound[1..read])
          case Draining => HasServed(h, db, inbound, read, s.client.pending, s.outbound)
          case Synced(pages, bytes) =>
            && read >= 2 && inbound[read - 1] == SyncComplete(pages, bytes)
            && HasServed(h, db, inbound, read - 1, [], s.outbound)
          case Aborted => true
  }

  lemma {:induction false} ServeStands(h: Hash, db: LocalDb, inbound: seq<SyncMessage>, read: nat, pending: seq<nat>,
                                       outbound: seq<SyncMessage>)
    requires HasServed(h, db, inbound, read, pending, outbound)
    requires pending != [] && 1 <= pending[0] <= |db|
    ensures HasServed(h, db, inbound, read, pending[1..], outbound + [PageData(pending[0], db[pending[0] - 1])])
  {
    hide Opening, Answers, Requested, OnlyRequests;
    var asked := Requested(inbound[1..read]);
    var n := |asked| - |pending|;
    assert asked[..n + 1] == asked[..n] + [pending[0]] && asked[n..][1..] == asked[n + 1..];
    AnswersSnoc(db, asked[..n], pending[0]);
    Regroup(Opening(h, db, |db|) + [Complete], Answers(db, asked[..n]), [PageData(pending[0], db[pending[0] - 1])]);
  }

  lemma {:induction false} Regroup(a: seq<SyncMessage>, b: seq<SyncMessage>, c: seq<SyncMessage>)
    ensures a + b + c == a + (b + c)
  {
  }

  lemma {:induction false} RequestStands(h: Hash, db: LocalDb, inbound: seq<SyncMessage>, read: nat, pending: seq<nat>,
                                         outbound: seq<SyncMessage>)
    requires HasServed(h, db, inbound, read, pending, outbound) && read < |inbound|
    ensures inbound[read].RequestPage? ==>
              HasServed(h, db, inbound, read + 1, pending + [inbound[read].pageNo], outbound)
    ensures inbound[read].RequestPages? ==>
              HasServed(h, db, inbound, read + 1, pending + inbound[read].pageNumbers, outbound)
  {
    hide Opening, Answers, Requested, OnlyRequests;
    RequestedSnoc(inbound, read);
    var asked, more := Requested(inbound[1..read]), Requested(inbound[1..read + 1]);
    var n := |asked| - |pending|;
    if inbound[read].RequestPage? || inbound[read].RequestPages? {
      assert more[..n] == asked[..n];
      assert more[n..] == asked[n..] + more[|asked|..];
    }
  }

  /** When a step makes the push give up: the reply is not one, something else than a request
      arrives, or a page is asked for that the database does not have.  It sends nothing then. */
  lemma {:induction false} PushGivesUp(h: Hash, db: LocalDb, s: PushSide, a: PushAction)
    requires PushEnabled(db, s, a)
    ensures PushStep(h, db, s, a).client.phase.Aborted? <==>
              || (a == ReadReply && !(s.inbound[0].HelloReply? && s.inbound[0].protocolVersion == 1))
              || (a == DrainOne && !s.inbound[0].RequestPage? && !s.inbound[0].RequestPages?)
              || (a == Read && !s.inbound[0].RequestPage? && !s.inbound[0].RequestPages? && !s.inbound[0].SyncComplete?)
              || (a == Serve && !(1 <= s.client.pending[0] <= |db|))
    ensures PushStep(h, db, s, a).client.phase.Aborted? ==> PushStep(h, db, s, a).outbound == s.outbound
  {
  }

  lemma {:induction false} GreetingStands(h: Hash, db: LocalDb, inbound: seq<SyncMessage>, s: PushSide, a: PushAction)
    requires PushStands(h, db, inbound, s) && PushEnabled(db, s, a) && (a.SendHello? || a.ReadReply?)
    ensures PushStands(h, db, inbound, PushStep(h, db, s, a))
  {
    hide Requested, OnlyRequests, HasServed, Opening;
    HelloOpens(h, db);
    assert [] + Opening(h, db, 0) == Opening(h, db, 0);
    NoneRequested();
    assert inbound != [] ==> inbound[1..1] == [];
  }

  lemma {:induction false} HashingStands(h: Hash, db: LocalDb, inbound: seq<SyncMessage>, s: PushSide, a: PushAction)
    requires PushStands(h, db, inbound, s) && PushEnabled(db, s, a) && (a.SendHash? || a.DrainOne?)
    ensures PushStands(h, db, inbound, PushStep(h, db, s, a))
  {
    hide Requested, OnlyRequests, HasServed, Opening;
    if a.SendHash? {
      OpeningSnoc(h, db, s.client.nextPage - 1);
    } else {
      RequestedSnoc(inbound, |inbound| - |s.inbound|);
    }
  }

  lemma {:induction false} DrainingStands(h: Hash, db: LocalDb, inbound: seq<SyncMessage>, s: PushSide, a: PushAction)
    requires PushStands(h, db, inbound, s) && PushEnabled(db, s, a) && (a.SendComplete? || a.Serve?)
    ensures PushStands(h, db, inbound, PushStep(h, db, s, a))
  {
    hide Requested, OnlyRequests, HasServed, Opening;
    var read := |inbound| - |s.inbound|;
    if a.SendComplete? {
      CompleteStands(h, db, inbound, read, s.client.pending, s.outbound);
    } else if HasPage(db, s.client.pending[0]) {
      ServeStands(h, db, inbound, read, s.client.pending, s.outbound);
    }
  }

  lemma {:induction false} ReadStands(h: Hash, db: LocalDb, inbound: seq<SyncMessage>, s: PushSide)
    requires PushStands(h, db, inbound, s) && PushEnabled(db, s, Read)
    ensures PushStands(h, db, inbound, PushStep(h, db, s, Read))
  {
    hide Requested, OnlyRequests, HasServed, Opening;
    var read := |inbound| - |s.inbound|;
    ReadsOn(h, db, inbound, read, s.client.pending, s.outbound);
    RequestStands(h, db, inbound, read, s.client.pending, s.outbound);
    assert [] + s.client.pending == s.client.pending;
  }

  lemma {:induction false} PushStepStands(h: Hash, db: LocalDb, inbound: seq<SyncMessage>, s: PushSide, a: PushAction)
    requires PushStands(h, db, inbound, s) && PushEnabled(db, s, a)
    ensures PushStands(h, db, inbound, PushStep(h, db, s, a))
  {
    hide PushStands, PushStep, PushEnabled;
    match a {
      case SendHello => GreetingStands(h, db, inbound, s, a);
      case ReadReply => GreetingStands(h, db, inbound, s, a);
      case SendHash => HashingStands(h, db, inbound, s, a);
      case DrainOne => HashingStands(h, db, inbound, s, a);
      case SendComplete => DrainingStands(h, db, inbound, s, a);
      case Serve => DrainingStands(h, db, inbound, s, a);
      case Read => ReadStands(h, db, inbound, s);
    }
  }

  lemma {:induction false} HelloOpens(h: Hash, db: LocalDb)
    ensures Opening(h, db, 0) == [Hello(PROTOCOL_VERSION, DEFAULT_PAGE_SIZE, |db|)]
  {
  }

  lemma {:induction false} NoneRequested()
    ensures Requested([]) == [] && OnlyRequests([])
  {
  }

  lemma {:induction false} ReadsOn(h: Hash, db: LocalDb, inbound: seq<SyncMessage>, read: nat, pending: seq<nat>,
                                   outbound: seq<SyncMessage>)
    requires HasServed(h, db, inbound, read, pending, outbound)
    ensures 1 <= read <= |inbound|
  {
  }

  lemma {:induction false} CompleteStands(h: Hash, db: LocalDb, inbound: seq<SyncMessage>, read: nat, pending: seq<nat>,
                                          outbound: seq<SyncMessage>)
    requires 1 <= read <= |inbound| && IsReply(inbound[0]) && OnlyRequests(inbound[1..read])
    requires pending == Requested(inbound[1..read]) && outbound == Opening(h, db, |db|)
    ensures HasServed(h, db, inbound, read, pending, outbound + [Complete])
  {
    hide Opening, Requested, OnlyRequests;
    assert pending[0..] == pending && Answers(db, pending[..0]) == [];
    assert outbound + [Complete] + [] == outbound + [Complete];
  }

  /** Whatever a server sends: a push says Hello, announces its pages in order, each with the hash
      of its bytes, says Complete, and answers the requests it has read with its pages, in the
      order of the requests; and it reads nothing but a reply, requests and SyncComplete. */
  lemma {:induction false} PushSpeaks(h: Hash, db: LocalDb, inbound: seq<SyncMessage>, trace: seq<PushAction>)
    requires PushRun(h, db, PushSide(NEW_PUSH_CLIENT, inbound, []), trace).Some?
    ensures PushStands(h, db, inbound, PushRun(h, db, PushSide(NEW_PUSH_CLIENT, inbound, []), trace).value)
  {
    var start := PushSide(NEW_PUSH_CLIENT, inbound, []);
    if trace == [] {
      assert inbound[0..] == inbound;
    } else {
      var n := |trace| - 1;
      PushSpeaks(h, db, inbound, trace[..n]);
      var mid := PushRun(h, db, start, trace[..n]).value;
      hide PushStep, PushStands;
      PushStepStands(h, db, inbound, mid, trace[n]);
    }
  }

  // ----- pull -----

  /** The pages these frames bring, in order. */
  function Brought(frames: seq<SyncMessage>): seq<PageDataEntry> {
    if frames == [] then []
    else
      Brought(frames[..|frames| - 1]) +
      match frames[|frames| - 1]
      case PageData(k, data) => [PageDataEntry(k, data)]
      case PageDataBatch(pages) => pages
      case _ => []
  }

  predicate OnlyPages(frames: seq<SyncMessage>) {
    forall m | m in frames :: m.PageData? || m.PageDataBatch?
  }

  lemma {:induction false} BroughtSnoc(all: seq<SyncMessage>, n: nat)
    requires 1 <= n < |all|
    ensures Brought(all[1..n + 1]) == Brought(all[1..n]) + match all[n]
                                                           case PageData(k, data) => [PageDataEntry(k, data)]
                                                           case PageDataBatch(pages) => pages
                                                           case _ => []
    ensures OnlyPages(all[1..n + 1]) <==> OnlyPages(all[1..n]) && (all[n].PageData? || all[n].PageDataBatch?)
  {
    assert all[1..n + 1] == all[1..n] + [all[n]];
  }

  predicate Unnamed(pages: seq<PageDataEntry>, k: nat) {
    forall i | 0 <= i < |pages| :: pages[i].pageNo != k
  }

  /** Writing a list of pages over a map leaves the last bytes given for each page, and the others
      as they were. */
  ghost predicate Overlaid(before: map<nat, Bytes>, pages: seq<PageDataEntry>, after: map<nat, Bytes>) {
    && (forall i | 0 <= i < |pages| && Unnamed(pages[i + 1..], pages[i].pageNo) ::
          pages[i].pageNo in after && after[pages[i].pageNo] == pages[i].data)
    && (forall k | Unnamed(pages, k) ::
          (k in after <==> k in before) && (k in before ==> after[k] == before[k]))
  }

  lemma {:induction false} WriteAllSplits(before: map<nat, Bytes>, a: seq<PageDataEntry>, b: seq<PageDataEntry>)
    ensures WriteAll(before, a + b) == WriteAll(WriteAll(before, a), b)
    decreases |a|
  {
    if a == [] {
      assert a + b == b;
    } else {
      assert (a + b)[1..] == a[1..] + b;
      WriteAllSplits(before[a[0].pageNo := a[0].data], a[1..], b);
    }
  }

  lemma {:induction false} WriteLeaves(before: map<nat, Bytes>, pages: seq<PageDataEntry>, k: nat)
    requires Unnamed(pages, k)
    ensures var after := WriteAll(before, pages);
            (k in after <==> k in before) && (k in before ==> after[k] == before[k])
    decreases |pages|
  {
    if pages != [] {
      assert pages[0].pageNo != k && forall i | 0 <= i < |pages[1..]| :: pages[1..][i] == pages[i + 1];
      WriteLeaves(before[pages[0].pageNo := pages[0].data], pages[1..], k);
    }
  }

  lemma {:induction false} WritesLast(before: map<nat, Bytes>, pages: seq<PageDataEntry>)
    ensures Overlaid(before, pages, WriteAll(before, pages))
  {
    var after := WriteAll(before, pages);
    forall i | 0 <= i < |pages| && Unnamed(pages[i + 1..], pages[i].pageNo)
      ensures pages[i].pageNo in after && after[pages[i].pageNo] == pages[i].data
    {
      var mid := WriteAll(before, pages[..i]);
      assert pages == pages[..i] + ([pages[i]] + pages[i + 1..]);
      WriteAllSplits(before, pages[..i], [pages[i]] + pages[i + 1..]);
      assert ([pages[i]] + pages[i + 1..])[1..] == pages[i + 1..];
      WriteLeaves(mid[pages[i].pageNo := pages[i].data], pages[i + 1..], pages[i].pageNo);
    }
    forall k | Unnamed(pages, k)
      ensures (k in after <==> k in before) && (k in before ==> after[k] == before[k])
    {
      WriteLeaves(before, pages, k);
    }
    hide WriteAll;
  }

  lemma {:induction false} OverlayOnFile(file: map<nat, Bytes>, pages: seq<PageDataEntry>)
    ensures Overlaid(file, pages, file + WriteAll(map[], pages))
  {
    WritesLast(map[], pages);
    hide WriteAll, Unnamed;
  }

  /** The pages of the file before the pull. */
  ghost predicate IsLocal(db: LocalDb, file: map<nat, Bytes>) {
    forall k: nat :: (k in file <==> 1 <= k <= |db|) && (k in file ==> file[k] == db[k - 1])
  }

  lemma {:induction false} PagesAreLocal(db: LocalDb)
    ensures IsLocal(db, PagesOf(db))
  {
  }

  /** Where a pull stands, by the frames it has read and sent: nothing reaches the file before
      SyncComplete, and then everything read does, in order. */
  ghost predicate PullStands(h: Hash, db: LocalDb, inbound: seq<SyncMessage>, s: PullSide) {
    && |s.inbound| <= |inbound|
    && var read := |inbound| - |s.inbound|;
       && s.inbound == inbound[read..]
       && (!s.client.phase.Synced? ==> s.client.committed == PagesOf(db))
       && match s.client.phase
          case Connecting =>
            read == 0 && s.outbound == [] && s.client.staged == map[] && s.client.nextPage == 1 && s.client.pagesWritten == 0
          case AwaitingReply =>
            && read == 0 && s.outbound == Opening(h, db, 0) && s.client.staged == map[] && s.client.nextPage == 1
            && s.client.pagesWritten == 0
          case Hashing =>
            && read == 1 && IsReply(inbound[0])
            && s.client.nextPage <= |db| + 1 && s.outbound == Opening(h, db, s.client.nextPage - 1)
            && s.client.staged == map[] && s.client.pagesWritten == 0
          case Draining =>
            && read >= 1 && IsReply(inbound[0]) && OnlyPages(inbound[1..read])
            && s.outbound == Opening(h, db, |db|) + [Complete]
            && s.client.staged == WriteAll(map[], Brought(inbound[1..read]))
            && s.client.pagesWritten == |Brought(inbound[1..read])|
          case Synced(pages, bytes) =>
            && read >= 2 && IsReply(inbound[0]) && OnlyPages(inbound[1..read - 1])
            && inbound[read - 1] == SyncComplete(pages, bytes)
            && s.outbound == Opening(h, db, |db|) + [Complete]
            && s.client.committed == PagesOf(db) + WriteAll(map[], Brought(inbound[1..read - 1]))
            && s.client.pagesWritten == |Brought(inbound[1..read - 1])|
          case Aborted => s.client.staged == map[]
  }

  lemma {:induction false} PullStepStands(h: Hash, db: LocalDb, inbound: seq<SyncMessage>, s: PullSide, a: PullAction)
    requires PullStands(h, db, inbound, s) && PullEnabled(db, s, a)
    ensures PullStands(h, db, inbound, PullStep(h, db, s, a))
  {
    match a {
      case PullRead => PullReadStands(h, db, inbound, s);
      case PullHello => PullGreetingStands(h, db, inbound, s, a);
      case PullReply => PullGreetingStands(h, db, inbound, s, a);
      case _ => PullOtherStands(h, db, inbound, s, a);
    }
    hide PullStands, PullReceive;
  }

  /** One frame of pages more. */
  lemma {:induction false} BringsMore(inbound: seq<SyncMessage>, n: nat, staged: map<nat, Bytes>)
    requires 1 <= n < |inbound| && staged == WriteAll(map[], Brought(inbound[1..n]))
    ensures inbound[n].PageData? ==>
              && WriteAll(map[], Brought(inbound[1..n + 1])) == staged[inbound[n].pageNo := inbound[n].data]
              && |Brought(inbound[1..n + 1])| == |Brought(inbound[1..n])| + 1
    ensures inbound[n].PageDataBatch? ==>
              && WriteAll(map[], Brought(inbound[1..n + 1])) == WriteAll(staged, inbound[n].pages)
              && |Brought(inbound[1..n + 1])| == |Brought(inbound[1..n])| + |inbound[n].pages|
  {
    hide Brought, OnlyPages, WriteAll;
    BroughtSnoc(inbound, n);
    OneWrite(staged, inbound[n]);
    if inbound[n].PageData? {
      WriteAllSplits(map[], Brought(inbound[1..n]), [PageDataEntry(inbound[n].pageNo, inbound[n].data)]);
    } else if inbound[n].PageDataBatch? {
      WriteAllSplits(map[], Brought(inbound[1..n]), inbound[n].pages);
    }
  }

  lemma {:induction false} PullReadStands(h: Hash, db: LocalDb, inbound: seq<SyncMessage>, s: PullSide)
    requires PullStands(h, db, inbound, s) && s.client.phase.Draining? && s.inbound != []
    ensures PullStands(h, db, inbound, PullSide(PullReceive(s.client, s.inbound[0]), s.inbound[1..], s.outbound))
  {
    hide Brought, OnlyPages, PagesOf, WriteAll, Opening;
    var read := |inbound| - |s.inbound|;
    assert s.inbound[1..] == inbound[read + 1..] && s.inbound[0] == inbound[read];
    BroughtSnoc(inbound, read);
    BringsMore(inbound, read, s.client.staged);
  }

  lemma {:induction false} PullGreetingStands(h: Hash, db: LocalDb, inbound: seq<SyncMessage>, s: PullSide, a: PullAction)
    requires PullStands(h, db, inbound, s) && PullEnabled(db, s, a) && (a.PullHello? || a.PullReply?)
    ensures PullStands(h, db, inbound, PullStep(h, db, s, a))
  {
    hide Brought, OnlyPages, PagesOf, WriteAll, Opening, PullReceive;
    assert [] + Opening(h, db, 0) == Opening(h, db, 0);
    HelloOpens(h, db);
  }

  lemma {:induction false} PullOtherStands(h: Hash, db: LocalDb, inbound: seq<SyncMessage>, s: PullSide, a: PullAction)
    requires PullStands(h, db, inbound, s) && PullEnabled(db, s, a)
    requires a.PullHash? || a.PullComplete? || a.PullWriteFails?
    ensures PullStands(h, db, inbound, PullStep(h, db, s, a))
  {
    hide Brought, OnlyPages, PagesOf, WriteAll, Opening, PullReceive;
    NothingBrought();
    assert inbound != [] ==> inbound[1..1] == [];
    if a.PullHash? {
      OpeningSnoc(h, db, s.client.nextPage - 1);
    }
  }

  lemma {:induction false} NothingBrought()
    ensures Brought([]) == [] && OnlyPages([]) && WriteAll(map[], []) == map[]
  {
  }

  lemma {:induction false} OneWrite(staged: map<nat, Bytes>, m: SyncMessage)
    ensures m.PageData? ==> WriteAll(staged, [PageDataEntry(m.pageNo, m.data)]) == staged[m.pageNo := m.data]
    ensures WriteAll(staged, []) == staged
  {
    if m.PageData? {
      assert [PageDataEntry(m.pageNo, m.data)][1..] == [];
    }
  }

  lemma {:induction false} PullRunStands(h: Hash, db: LocalDb, inbound: seq<SyncMessage>, trace: seq<PullAction>)
    requires PullRun(h, db, PullSide(NewPullClient(db), inbound, []), trace).Some?
    ensures PullStands(h, db, inbound, PullRun(h, db, PullSide(NewPullClient(db), inbound, []), trace).value)
  {
    var start := PullSide(NewPullClient(db), inbound, []);
    hide PagesOf;
    if trace == [] {
      assert inbound[0..] == inbound;
    } else {
      var n := |trace| - 1;
      PullRunStands(h, db, inbound, trace[..n]);
      var mid := PullRun(h, db, start, trace[..n]).value;
      hide PullStep, PullStands;
      PullStepStands(h, db, inbound, mid, trace[n]);
    }
  }

  /** Whatever a server sends: a pull that has read SyncComplete leaves in the file exactly its old
      pages with those of the frames in between written over them in order, and reports how many
      there were; one that has not leaves the file as it was. */
  lemma {:induction false} PullDelivers(h: Hash, db: LocalDb, inbound: seq<SyncMessage>, trace: seq<PullAction>)
    requires PullRun(h, db, PullSide(NewPullClient(db), inbound, []), trace).Some?
    ensures var s := PullRun(h, db, PullSide(NewPullClient(db), inbound, []), trace).value;
            var read := |inbound| - |s.inbound|;
            && PullStands(h, db, inbound, s)
            && (!s.client.phase.Synced? ==> IsLocal(db, s.client.committed))
            && (s.client.phase.Synced? ==>
                  exists file ::
                    && IsLocal(db, file)
                    && Overlaid(file, Brought(inbound[1..read - 1]), s.client.committed)
                    && s.client.pagesWritten == |Brought(inbound[1..read - 1])|)
  {
    hide PagesOf, Brought, OnlyPages, Overlaid, IsLocal, PullRun, Opening, WriteAll;
    var s := PullRun(h, db, PullSide(NewPullClient(db), inbound, []), trace).value;
    PullRunStands(h, db, inbound, trace);
    PagesAreLocal(db);
    if s.client.phase.Synced? {
      OverlayOnFile(PagesOf(db), Brought(inbound[1..|inbound| - |s.inbound| - 1]));
    }
  }
}
