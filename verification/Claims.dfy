/** A pull session over an unchanging store with any client: which pages it sends, for any
    sequence of single-page and whole-range claims. */
module Claims {
  import opened Protocol
  import opened PageStore
  import opened SyncSpec
  import opened Session
  import opened SyncClient
  import PullSystem
  import PullProof
  import Pull
  import Batch
  import Replies
  import Projections

  datatype Claim = One(pageNo: nat, hash: Bytes) | Range(start: nat, end: nat, combined: Bytes)

  function ClaimFrame(c: Claim): SyncMessage {
    match c
    case One(k, hash) => PageHash(k, hash)
    case Range(start, end, combined) => PageHashBatch(start, end, combined)
  }

  /** Hello and the claims, over a store nobody changes and with nothing failing. */
  function Claiming(store: Store, claims: seq<Claim>): seq<Arrival> {
    [Reaching(store, Hello(PROTOCOL_VERSION, DEFAULT_PAGE_SIZE, 0))]
    + seq(|claims|, i requires 0 <= i < |claims| => Reaching(store, ClaimFrame(claims[i])))
  }

  function Reaching(store: Store, msg: SyncMessage): Arrival {
    Arrival(msg, store, Unlimited, Unlimited)
  }

  /** The whole session. */
  ghost function Serve(h: Hash, store: Store, claims: seq<Claim>): Session {
    Run(h, Direction.Pull, Claiming(store, claims) + [Reaching(store, Complete)])
  }

  /** The pages the session has sent, in order. */
  function SentPages(log: seq<Event>): seq<PageDataEntry> {
    if log == [] then []
    else
      SentPages(log[..|log| - 1]) +
      match log[|log| - 1]
      case Sent(PageData(k, data)) => [PageDataEntry(k, data)]
      case _ => []
  }

  // ----- What the claims say by themselves -----

  function Claimed(claims: seq<Claim>): set<nat> {
    if claims == [] then {}
    else
      Claimed(claims[..|claims| - 1]) +
      match claims[|claims| - 1]
      case One(k, _) => {k}
      case Range(start, end, _) => PageSet(start, end)
  }

  /** A single-page claim the store contradicts. */
  predicate Contradicted(store: Store, c: Claim) {
    c.One? && c.pageNo in store && store[c.pageNo].hash != c.hash
  }

  /** The answers to the claims the store contradicts, in the order of the claims. */
  function Answers(store: Store, claims: seq<Claim>): seq<PageDataEntry> {
    if claims == [] then []
    else
      var c := claims[|claims| - 1];
      Answers(store, claims[..|claims| - 1])
      + if Contradicted(store, c) then [PageDataEntry(c.pageNo, store[c.pageNo].data)] else []
  }

  /** The walk after Complete: the unclaimed pages, in page order. */
  ghost function Rest(store: Store, claims: seq<Claim>): seq<PageDataEntry> {
    PullProof.Walked(store, Claimed(claims), 1, MaxPage(store))
  }

  // ----- The session follows the claims -----

  lemma {:induction false} SentSnoc(log: seq<Event>, e: Event)
    ensures SentPages(log + [e]) == SentPages(log) + match e
                                                     case Sent(PageData(k, data)) => [PageDataEntry(k, data)]
                                                     case _ => []
  {
    assert (log + [e])[..|log|] == log;
  }

  /** The state after the claims: as told, and nothing else. */
  ghost predicate Told(store: Store, claims: seq<Claim>, s: Session) {
    && s.status == Open
    && s.fsm.sawHello && s.fsm.direction.Pull? && s.fsm.pendingRequests == {}
    && !s.fsm.completedHashPhase && !s.fsm.emittedComplete
    && s.fsm.serverMaxPage == MaxPage(store)
    && s.fsm.clientSeen == Claimed(claims)
    && SentPages(s.log) == Answers(store, claims)
  }

  ghost function Reached(h: Hash, s: Session, store: Store, msg: SyncMessage): Step {
    Apply(h, World(s.fsm, store, Unlimited, Unlimited, s.log), msg)
  }

  lemma {:induction false} OneIsTold(h: Hash, store: Store, claims: seq<Claim>, s: Session, c: Claim)
    requires Told(store, claims, s) && c.One?
    ensures Told(store, claims + [c], Deliver(h, s, Reaching(store, ClaimFrame(c))))
  {
    ClaimsSnoc(store, claims, c);
    var w := World(s.fsm, store, Unlimited, Unlimited, s.log);
    assert Reached(h, s, store, ClaimFrame(c)) == HandlePageHash(w, c.pageNo, c.hash);
    hide Apply, MaxPage, SentPages, Answers, Claimed;
    if Contradicted(store, c) {
      SentSnoc(s.log, Sent(PageData(c.pageNo, store[c.pageNo].data)));
    }
  }

  lemma {:induction false} RangeIsTold(h: Hash, store: Store, claims: seq<Claim>, s: Session, c: Claim)
    requires Told(store, claims, s) && c.Range?
    ensures Told(store, claims + [c], Deliver(h, s, Reaching(store, ClaimFrame(c))))
  {
    ClaimsSnoc(store, claims, c);
    var w := World(s.fsm, store, Unlimited, Unlimited, s.log);
    assert Reached(h, s, store, ClaimFrame(c)) == HandlePageHashBatch(h, w, c.start, c.end, c.combined);
    hide Apply, MaxPage, SentPages, Answers, Claimed;
    SentSnoc(s.log, Sent(HashMismatchBatch(PageRange(c.start, c.end))));
  }

  lemma {:induction false} ClaimsSnoc(store: Store, claims: seq<Claim>, c: Claim)
    ensures Claimed(claims + [c]) == Claimed(claims) + match c
                                                       case One(k, _) => {k}
                                                       case Range(start, end, _) => PageSet(start, end)
    ensures Answers(store, claims + [c]) ==
            Answers(store, claims)
            + if Contradicted(store, c) then [PageDataEntry(c.pageNo, store[c.pageNo].data)] else []
  {
    assert (claims + [c])[..|claims|] == claims;
  }

  lemma {:induction false} HelloIsTold(h: Hash, store: Store)
    ensures Told(store, [], Run(h, Direction.Pull, Claiming(store, [])))
  {
    RunSnoc(h, Direction.Pull, [], Reaching(store, Hello(PROTOCOL_VERSION, DEFAULT_PAGE_SIZE, 0)));
    assert [] + [Reaching(store, Hello(PROTOCOL_VERSION, DEFAULT_PAGE_SIZE, 0))] == Claiming(store, []);
    SentSnoc([], Sent(HelloReply(PROTOCOL_VERSION, DEFAULT_PAGE_SIZE, MaxPage(store))));
    hide Run, SentPages;
  }

  lemma {:induction false} ClaimsAreTold(h: Hash, store: Store, claims: seq<Claim>)
    ensures Told(store, claims, Run(h, Direction.Pull, Claiming(store, claims)))
  {
    hide Run, Deliver, Told;
    if claims == [] {
      HelloIsTold(h, store);
    } else {
      var n := |claims| - 1;
      var before, c := claims[..n], claims[n];
      ClaimsAreTold(h, store, before);
      assert Claiming(store, claims) == Claiming(store, before) + [Reaching(store, ClaimFrame(c))];
      hide Claiming;
      RunSnoc(h, Direction.Pull, Claiming(store, before), Reaching(store, ClaimFrame(c)));
      assert before + [c] == claims;
      var s := Run(h, Direction.Pull, Claiming(store, before));
      if c.One? {
        OneIsTold(h, store, before, s, c);
      } else {
        RangeIsTold(h, store, before, s, c);
      }
    }
  }

  /** The walk, when nothing fails. */
  ghost predicate Walks(w: World, es: seq<PageDataEntry>, step: Step) {
    && step.error.None?
    && step.world.storeCredit.Unlimited? && step.world.sendCredit.Unlimited?
    && step.world.fsm == w.fsm.(pagesTransferred := step.world.fsm.pagesTransferred,
                                bytesTransferred := step.world.fsm.bytesTransferred)
    && SentPages(step.world.log) == SentPages(w.log) + es
  }

  /** One row of it. */
  lemma {:induction false} RowSends(w: World, from: nat, last: nat)
    requires w.storeCredit.Unlimited? && w.sendCredit.Unlimited? && from <= last && from in w.store
    ensures var sent := WalkPage(w, from, w.store[from].data).world;
            && Walk(w, from, last) == Walk(sent, from + 1, last)
            && sent.storeCredit.Unlimited? && sent.sendCredit.Unlimited? && sent.store == w.store
            && sent.fsm == w.fsm.(pagesTransferred := sent.fsm.pagesTransferred,
                                  bytesTransferred := sent.fsm.bytesTransferred)
            && SentPages(sent.log)
               == SentPages(w.log) + if from in w.fsm.clientSeen then [] else [PageDataEntry(from, w.store[from].data)]
  {
    hide SentPages, Wrap64;
    SentSnoc(w.log, Sent(PageData(from, w.store[from].data)));
    assert SentPages(w.log) + [] == SentPages(w.log);
  }

  lemma {:induction false} WalkSends(w: World, from: nat, last: nat)
    requires w.storeCredit.Unlimited? && w.sendCredit.Unlimited?
    ensures Walks(w, PullProof.Walked(w.store, w.fsm.clientSeen, from, last), Walk(w, from, last))
    decreases last + 1 - from
  {
    if from > last {
    } else if from !in w.store {
      WalkSends(w, from + 1, last);
    } else {
      hide SentPages, WalkPage, Walk, PullProof.Walked;
      PullProof.WalkedUnfolds(w.store, w.fsm.clientSeen, from, last);
      RowSends(w, from, last);
      WalkSends(WalkPage(w, from, w.store[from].data).world, from + 1, last);
    }
  }

  lemma {:induction false} CompleteIsServed(h: Hash, store: Store, claims: seq<Claim>, s: Session)
    requires Told(store, claims, s)
    ensures var s' := Deliver(h, s, Reaching(store, Complete));
            s'.status == Finished && SentPages(s'.log) == Answers(store, claims) + Rest(store, claims)
  {
    var w := World(s.fsm.(completedHashPhase := true), store, Unlimited, Unlimited, s.log);
    assert Reached(h, s, store, Complete) == HandleComplete(w.(fsm := s.fsm));
    hide Apply;
    var walked := if MaxPage(store) > 0 then Walk(w, 1, MaxPage(store)).world else w;
    WalkSends(w, 1, MaxPage(store));
    SentSnoc(walked.log, Sent(SyncComplete(walked.fsm.pagesTransferred, walked.fsm.bytesTransferred)));
    hide Walk, SentPages, MaxPage;
  }

  lemma {:induction false} Serves(h: Hash, store: Store, claims: seq<Claim>)
    ensures var s := Serve(h, store, claims);
            s.status == Finished && SentPages(s.log) == Answers(store, claims) + Rest(store, claims)
  {
    ClaimsAreTold(h, store, claims);
    RunSnoc(h, Direction.Pull, Claiming(store, claims), Reaching(store, Complete));
    CompleteIsServed(h, store, claims, Run(h, Direction.Pull, Claiming(store, claims)));
  }

  // ----- The partition -----

  predicate DistinctOnes(claims: seq<Claim>) {
    forall i, j | 0 <= i < j < |claims| && claims[i].One? && claims[j].One? :: claims[i].pageNo != claims[j].pageNo
  }

  /** Page `k` was claimed singly, with a hash the store contradicts. */
  predicate Mismatched(store: Store, claims: seq<Claim>, k: nat) {
    exists i | 0 <= i < |claims| :: claims[i].One? && claims[i].pageNo == k && Contradicted(store, claims[i])
  }

  lemma {:induction false} MismatchedSnoc(store: Store, before: seq<Claim>, c: Claim, k: nat)
    ensures Mismatched(store, before + [c], k) <==>
              Mismatched(store, before, k) || (Contradicted(store, c) && c.pageNo == k)
  {
    var claims := before + [c];
    assert claims[|before|] == c;
    forall i | 0 <= i < |before|
      ensures claims[i] == before[i]
    {
    }
    if Mismatched(store, before, k) {
      var i :| 0 <= i < |before| && before[i].One? && before[i].pageNo == k && Contradicted(store, before[i]);
      assert claims[i] == before[i];
    }
  }

  /** A list of stored pages, no page number twice. */
  predicate Copies(store: Store, es: seq<PageDataEntry>) {
    && (forall i, j | 0 <= i < j < |es| :: es[i].pageNo != es[j].pageNo)
    && (forall i | 0 <= i < |es| :: es[i].pageNo in store && es[i].data == store[es[i].pageNo].data)
  }

  lemma {:induction false} CopiesAppend(store: Store, a: seq<PageDataEntry>, b: seq<PageDataEntry>)
    requires Copies(store, a) && Copies(store, b) && PullSystem.PageNos(a) !! PullSystem.PageNos(b)
    ensures Copies(store, a + b) && PullSystem.PageNos(a + b) == PullSystem.PageNos(a) + PullSystem.PageNos(b)
  {
    PullProof.PageNosAppend(a, b);
    forall i, j | 0 <= i < |a| && 0 <= j < |b|
      ensures a[i].pageNo != b[j].pageNo
    {
      assert a[i].pageNo in PullSystem.PageNos(a) && b[j].pageNo in PullSystem.PageNos(b);
    }
    hide PullSystem.PageNos;
  }

  lemma {:induction false} OneCopy(store: Store, k: nat)
    requires k in store
    ensures var es := [PageDataEntry(k, store[k].data)];
            Copies(store, es) && PullSystem.PageNos(es) == {k}
  {
    var es := [PageDataEntry(k, store[k].data)];
    assert es[0].pageNo == k;
  }

  /** A claim of a page comes with nothing known of it from the claims before. */
  lemma {:induction false} FirstOfItsPage(store: Store, before: seq<Claim>, c: Claim)
    requires DistinctOnes(before + [c])
    ensures DistinctOnes(before)
    ensures c.One? ==> !Mismatched(store, before, c.pageNo)
  {
    var claims := before + [c];
    assert claims[|before|] == c && forall i | 0 <= i < |before| :: claims[i] == before[i];
  }

  /** The answers go to the mismatched pages, once each. */
  lemma {:induction false} AnswersMean(store: Store, claims: seq<Claim>)
    requires DistinctOnes(claims)
    ensures Copies(store, Answers(store, claims))
    ensures forall k :: k in PullSystem.PageNos(Answers(store, claims)) <==> Mismatched(store, claims, k)
  {
    if claims == [] {
      assert PullSystem.PageNos(Answers(store, claims)) == {};
    } else {
      hide Mismatched, Copies, PullSystem.PageNos, DistinctOnes, Answers;
      var n := |claims| - 1;
      var before, c := claims[..n], claims[n];
      assert before + [c] == claims;
      FirstOfItsPage(store, before, c);
      AnswersMean(store, before);
      ClaimsSnoc(store, before, c);
      forall k
        ensures Mismatched(store, claims, k) <==>
                  Mismatched(store, before, k) || (Contradicted(store, c) && c.pageNo == k)
      {
        MismatchedSnoc(store, before, c, k);
      }
      if Contradicted(store, c) {
        OneCopy(store, c.pageNo);
        CopiesAppend(store, Answers(store, before), [PageDataEntry(c.pageNo, store[c.pageNo].data)]);
      } else {
        assert Answers(store, before) + [] == Answers(store, before);
      }
    }
  }

  lemma {:induction false} MismatchedIsClaimed(store: Store, claims: seq<Claim>, k: nat)
    requires Mismatched(store, claims, k)
    ensures k in Claimed(claims)
  {
    var n := |claims| - 1;
    var i :| 0 <= i < |claims| && claims[i].One? && claims[i].pageNo == k && Contradicted(store, claims[i]);
    if i < n {
      assert claims[..n][i] == claims[i];
      MismatchedIsClaimed(store, claims[..n], k);
    }
  }

  /** Pull partition: the session answers every contradicted claim with the stored page, in
      the order of the claims, and then sends the pages nobody claimed, in page order; no page
      is sent twice; and a stored page is left out exactly when it is claimed and no single
      claim of it is contradicted. */
  lemma {:induction false} Partition(h: Hash, store: Store, claims: seq<Claim>)
    requires DistinctOnes(claims)
    ensures var s := Serve(h, store, claims);
            var answers := Answers(store, claims);
            var rest := Rest(store, claims);
            && s.status == Finished
            && SentPages(s.log) == answers + rest
            && Copies(store, answers + rest)
            && (forall i, j | 0 <= i < j < |rest| :: rest[i].pageNo < rest[j].pageNo)
            && (forall k :: k in PullSystem.PageNos(answers) <==> Mismatched(store, claims, k))
            && (forall k :: k in PullSystem.PageNos(rest) <==> k >= 1 && k in store && k !in Claimed(claims))
            && (forall k | k >= 1 && k in store ::
                  k in PullSystem.PageNos(answers + rest) <==> Mismatched(store, claims, k) || k !in Claimed(claims))
  {
    Serves(h, store, claims);
    AnswersMean(store, claims);
    Pull.WalkedIsWalk(store, Claimed(claims), 1, MaxPage(store));
    forall k | Mismatched(store, claims, k)
      ensures k in Claimed(claims)
    {
      MismatchedIsClaimed(store, claims, k);
    }
    CopiesAppend(store, Answers(store, claims), Rest(store, claims));
    hide Serve, SentPages, Answers, PullProof.Walked, Claimed, Mismatched, PullSystem.PageNos;
  }

  // ----- A client that claims whole ranges -----

  /** The claims of a client that holds what it claims. */
  predicate Honest(h: Hash, db: LocalDb, c: Claim) {
    match c
    case One(k, hash) => HasPage(db, k) && hash == HashAt(h, db, k)
    case Range(start, end, combined) => Batch.HoldsAll(db, start, end) && combined == Batch.LocalDigest(h, db, start, end)
  }

  /** The server answered this range claim with its page numbers. */
  predicate Rejected(h: Hash, store: Store, c: Claim) {
    c.Range? && CombinedHash(h, store, c.start, c.end) != c.combined
  }

  ghost predicate Covers(c: Claim, k: nat) {
    if c.One? then c.pageNo == k else c.start <= k <= c.end
  }

  predicate ClaimedSingly(claims: seq<Claim>, k: nat) {
    exists j | 0 <= j < |claims| :: claims[j].One? && claims[j].pageNo == k
  }

  /** All the client's pages are claimed, and every page of which it is told a mismatch has been
      claimed singly as well. */
  ghost predicate Thorough(h: Hash, db: LocalDb, claims: seq<Claim>, frames: seq<SyncMessage>) {
    && (forall i | 0 <= i < |claims| :: Honest(h, db, claims[i]))
    && (forall k | HasPage(db, k) :: exists i | 0 <= i < |claims| :: Covers(claims[i], k))
    && (forall m | m in frames && m.HashMismatchBatch? :: forall k | k in m.pageNumbers :: ClaimedSingly(claims, k))
  }

  lemma {:induction false} ClaimedMeans(claims: seq<Claim>, k: nat)
    ensures k in Claimed(claims) <==> exists i | 0 <= i < |claims| :: Covers(claims[i], k)
  {
    if claims != [] {
      var n := |claims| - 1;
      ClaimedMeans(claims[..n], k);
      if i :| 0 <= i < |claims| && Covers(claims[i], k) {
        assert i < n ==> claims[..n][i] == claims[i];
      }
      if i :| 0 <= i < n && Covers(claims[..n][i], k) {
        assert claims[..n][i] == claims[i];
      }
    }
  }

  /** The same in terms of the claims: those of rejected ranges are repeated singly. */
  ghost predicate Settled(h: Hash, store: Store, db: LocalDb, claims: seq<Claim>) {
    && (forall i | 0 <= i < |claims| :: Honest(h, db, claims[i]))
    && (forall k | HasPage(db, k) :: exists i | 0 <= i < |claims| :: Covers(claims[i], k))
    && (forall i, k | 0 <= i < |claims| && Rejected(h, store, claims[i]) && Covers(claims[i], k) ::
          ClaimedSingly(claims, k))
  }

  // ----- What the client is told about its range claims -----

  /** This range claim is answered with these page numbers. */
  predicate Refused(h: Hash, store: Store, c: Claim, ks: seq<nat>) {
    Rejected(h, store, c) && ks == PageRange(c.start, c.end)
  }

  /** These frames refuse exactly the range claims whose digest is not that of the stored rows,
      each with the page numbers of its range. */
  ghost predicate Refuses(h: Hash, store: Store, claims: seq<Claim>, frames: seq<SyncMessage>) {
    forall ks: seq<nat> ::
      HashMismatchBatch(ks) in frames <==>
      exists i | 0 <= i < |claims| :: Refused(h, store, claims[i], ks)
  }

  lemma {:induction false} RefusesMore(h: Hash, store: Store, claims: seq<Claim>, frames: seq<SyncMessage>, c: Claim,
                                       more: seq<SyncMessage>)
    requires Refuses(h, store, claims, frames)
    requires forall ks: seq<nat> ::
               HashMismatchBatch(ks) in more <==> Refused(h, store, c, ks)
    ensures Refuses(h, store, claims + [c], frames + more)
  {
    var all := claims + [c];
    hide Refused;
    forall ks: seq<nat>
      ensures HashMismatchBatch(ks) in frames + more <==>
              exists i | 0 <= i < |all| :: Refused(h, store, all[i], ks)
    {
      assert all[|claims|] == c;
      if HashMismatchBatch(ks) in frames {
        var i :| 0 <= i < |claims| && Refused(h, store, claims[i], ks);
        assert all[i] == claims[i];
      }
      if i :| 0 <= i < |all| && Refused(h, store, all[i], ks) {
        assert i < |claims| ==> all[i] == claims[i];
      }
    }
  }

  lemma {:induction false} Alone(h: Hash, store: Store)
    ensures Refuses(h, store, [], [])
  {
  }

  /** What one claim adds to the frames. */
  lemma {:induction false} ClaimIsAnswered(h: Hash, store: Store, claims: seq<Claim>, c: Claim)
    returns (more: seq<SyncMessage>)
    requires Replies.Talks(h, Direction.Pull, Claiming(store, claims))
    ensures Frames(Run(h, Direction.Pull, Claiming(store, claims + [c])).log)
            == Frames(Run(h, Direction.Pull, Claiming(store, claims)).log) + more
    ensures forall ks: seq<nat> ::
              HashMismatchBatch(ks) in more <==> Refused(h, store, c, ks)
  {
    var before := Claiming(store, claims);
    assert Claiming(store, claims + [c]) == before + [Reaching(store, ClaimFrame(c))];
    hide Run, Claiming, Frames, Replies.Talks;
    if c.One? {
      OneIsAnswered(h, store, before, c);
      more := if c.pageNo in store && store[c.pageNo].hash != c.hash then [PageData(c.pageNo, store[c.pageNo].data)] else [];
    } else {
      RangeIsAnswered(h, store, before, c);
      more := if Rejected(h, store, c) then [HashMismatchBatch(PageRange(c.start, c.end))] else [];
    }
    hide PageRange, CombinedHash;
  }

  lemma {:induction false} OneIsAnswered(h: Hash, store: Store, before: seq<Arrival>, c: Claim)
    requires Replies.Talks(h, Direction.Pull, before) && c.One?
    ensures Frames(Run(h, Direction.Pull, before + [Reaching(store, ClaimFrame(c))]).log)
            == Frames(Run(h, Direction.Pull, before).log)
               + if c.pageNo in store && store[c.pageNo].hash != c.hash
                 then [PageData(c.pageNo, store[c.pageNo].data)] else []
  {
    hide Run, Frames, Replies.Talks;
    var log := Run(h, Direction.Pull, before).log;
    Replies.HashAnswer(h, Direction.Pull, before, Reaching(store, ClaimFrame(c)), c.pageNo, c.hash);
    assert log + [] == log && Frames(log) + [] == Frames(log);
    if c.pageNo in store {
      FramesSnoc(log, Sent(PageData(c.pageNo, store[c.pageNo].data)));
    }
  }

  lemma {:induction false} RangeIsAnswered(h: Hash, store: Store, before: seq<Arrival>, c: Claim)
    requires Replies.Talks(h, Direction.Pull, before) && c.Range?
    ensures Frames(Run(h, Direction.Pull, before + [Reaching(store, ClaimFrame(c))]).log)
            == Frames(Run(h, Direction.Pull, before).log)
               + if Rejected(h, store, c) then [HashMismatchBatch(PageRange(c.start, c.end))] else []
  {
    hide Run, Frames, Replies.Talks, Scan, RowHashes;
    var log := Run(h, Direction.Pull, before).log;
    Replies.RangeAnswer(h, Direction.Pull, before, Reaching(store, ClaimFrame(c)), c.start, c.end, c.combined);
    DigestsTheRows(h, store, c.start, c.end);
    assert log + [] == log && Frames(log) + [] == Frames(log);
    var numbers := seq(if c.start > c.end then 0 else c.end + 1 - c.start, i requires 0 <= i => c.start + i);
    assert PageRange(c.start, c.end) == numbers;
    FramesSnoc(log, Sent(HashMismatchBatch(numbers)));
    hide CombinedHash, PageRange;
  }

  lemma {:induction false} ClaimsAreRefused(h: Hash, store: Store, claims: seq<Claim>)
    ensures Refuses(h, store, claims, Frames(Run(h, Direction.Pull, Claiming(store, claims)).log))
  {
    ClaimsStayOpen(h, store, claims[..if claims == [] then 0 else |claims| - 1]);
    hide Refuses, Frames, Run, Replies.Talks;
    if claims == [] {
      var a := Reaching(store, Hello(PROTOCOL_VERSION, DEFAULT_PAGE_SIZE, 0));
      assert Claiming(store, claims) == [a];
      Replies.FirstFrame(h, Direction.Pull, a);
      HelloRefusesNothing(h, store, Run(h, Direction.Pull, [a]).log);
    } else {
      var n := |claims| - 1;
      ClaimsAreRefused(h, store, claims[..n]);
      assert claims[..n] + [claims[n]] == claims;
      var more := ClaimIsAnswered(h, store, claims[..n], claims[n]);
      RefusesMore(h, store, claims[..n], Frames(Run(h, Direction.Pull, Claiming(store, claims[..n])).log), claims[n], more);
    }
  }

  lemma {:induction false} HelloRefusesNothing(h: Hash, store: Store, log: seq<Event>)
    requires |log| == 1 && log[0].Sent? && log[0].frame.HelloReply?
    ensures Refuses(h, store, [], Frames(log))
  {
    FramesSnoc([], log[0]);
    assert [] + [log[0]] == log;
    Alone(h, store);
  }

  /** The frames of the walk and of SyncComplete refuse nothing. */
  lemma {:induction false} FramesOfSendings(store: Store, rows: seq<nat>, m: SyncMessage)
    requires forall k | k in rows :: k in store
    ensures m in Frames(Replies.Sendings(store, rows)) ==> m.PageData?
    decreases |rows|
  {
    if rows != [] {
      var n := |rows| - 1;
      FramesOfSendings(store, rows[..n], m);
      var e := Sent(PageData(rows[n], store[rows[n]].data));
      assert rows[n] in rows && Replies.Sendings(store, rows) == Replies.Sendings(store, rows[..n]) + [e];
      FramesSnoc(Replies.Sendings(store, rows[..n]), e);
    }
  }

  lemma {:induction false} RefusesNoMore(h: Hash, store: Store, claims: seq<Claim>, frames: seq<SyncMessage>,
                                         more: seq<SyncMessage>)
    requires Refuses(h, store, claims, frames) && forall m | m in more :: !m.HashMismatchBatch?
    ensures Refuses(h, store, claims, frames + more)
  {
    hide Refused;
  }

  /** The whole session tells a claim's mismatch exactly when the digest is not that of the
      stored rows. */
  lemma {:induction false} RefusalsAreTold(h: Hash, store: Store, claims: seq<Claim>)
    ensures Refuses(h, store, claims, Frames(Serve(h, store, claims).log))
  {
    var before := Claiming(store, claims);
    ClaimsAreTold(h, store, claims);
    ClaimsAreRefused(h, store, claims);
    assert before != [];
    hide Run, Claiming, Frames, Refuses, Replies.Sendings, Replies.Totals, Replies.IsRest, Told;
    var rows := Replies.PullCompletes(h, before, Reaching(store, Complete));
    var log := Run(h, Direction.Pull, before).log;
    var sent := Replies.Sendings(store, rows);
    var last := Sent(Replies.Totals(log + sent));
    Projections.FramesConcat(log, sent + [last]);
    FramesSnoc(sent, last);
    forall m | m in Frames(sent)
      ensures !m.HashMismatchBatch?
    {
      FramesOfSendings(store, rows, m);
    }
    RefusesNoMore(h, store, claims, Frames(log), Frames(sent) + [last.frame]);
  }

  lemma {:induction false} ThoroughIsSettled(h: Hash, store: Store, db: LocalDb, claims: seq<Claim>, frames: seq<SyncMessage>)
    requires Thorough(h, db, claims, frames) && Refuses(h, store, claims, frames)
    ensures Settled(h, store, db, claims)
  {
    forall i, k | 0 <= i < |claims| && Rejected(h, store, claims[i]) && Covers(claims[i], k)
      ensures ClaimedSingly(claims, k)
    {
      var ks := PageRange(claims[i].start, claims[i].end);
      assert Refused(h, store, claims[i], ks);
      assert HashMismatchBatch(ks) in frames && k in ks;
    }
    hide Rejected, Honest, ClaimedSingly;
  }

  /** For a client that holds the whole range it claims: it is told of a mismatch, with the page
      numbers of the range, exactly when the server lacks one of the pages or has another
      version of it. */
  lemma {:induction false} RangeIsTested(h: Hash, store: Store, db: LocalDb, claims: seq<Claim>, start: nat, end: nat)
    requires Intact(h, store) && Batch.HoldsAll(db, start, end)
    requires Batch.ToldApart(h, HashBytes(store, start, end), Batch.LocalHashBytes(h, db, start, end))
    ensures var before := Run(h, Direction.Pull, Claiming(store, claims)).log;
            var range := Range(start, end, Batch.LocalDigest(h, db, start, end));
            Frames(Run(h, Direction.Pull, Claiming(store, claims + [range])).log)
            == Frames(before) + if forall k | start <= k <= end :: Batch.SamePage(h, store, db, k) then []
                                else [HashMismatchBatch(PageRange(start, end))]
  {
    hide Run, HashBytes, Frames, Batch.SamePage, Replies.Talks;
    var arrivals := Claiming(store, claims);
    var range := Range(start, end, Batch.LocalDigest(h, db, start, end));
    assert Claiming(store, claims + [range]) == arrivals + [Reaching(store, ClaimFrame(range))];
    ClaimsStayOpen(h, store, claims);
    hide Claiming;
    RangeIsAnswered(h, store, arrivals, range);
    Batch.MatchIsExact(h, store, db, start, end);
  }

  lemma {:induction false} ClaimsStayOpen(h: Hash, store: Store, claims: seq<Claim>)
    ensures Replies.Talks(h, Direction.Pull, Claiming(store, claims))
  {
    ClaimsAreTold(h, store, claims);
    hide Run;
  }

  /** The claim that decides about a page the client holds. */
  lemma {:induction false} Decided(h: Hash, store: Store, db: LocalDb, claims: seq<Claim>, k: nat)
    requires Intact(h, store) && Settled(h, store, db, claims) && HasPage(db, k) && k in store
    requires forall i | 0 <= i < |claims| && claims[i].Range? ::
               Batch.ToldApart(h, HashBytes(store, claims[i].start, claims[i].end),
                               Batch.LocalHashBytes(h, db, claims[i].start, claims[i].end))
    ensures Mismatched(store, claims, k) <==> store[k].hash != HashAt(h, db, k)
  {
    if Mismatched(store, claims, k) {
      var i :| 0 <= i < |claims| && claims[i].One? && claims[i].pageNo == k && Contradicted(store, claims[i]);
      assert Honest(h, db, claims[i]);
    }
    if store[k].hash != HashAt(h, db, k) {
      var i :| 0 <= i < |claims| && Covers(claims[i], k);
      assert Honest(h, db, claims[i]);
      if claims[i].Range? && !Rejected(h, store, claims[i]) {
        var same := Batch.SamePage(h, store, db, k);
        Batch.MatchIsExact(h, store, db, claims[i].start, claims[i].end);
        assert false;
      } else if claims[i].Range? {
        assert ClaimedSingly(claims, k);
        var j :| 0 <= j < |claims| && claims[j].One? && claims[j].pageNo == k;
        assert Honest(h, db, claims[j]) && Contradicted(store, claims[j]);
      } else {
        assert Contradicted(store, claims[i]);
      }
    }
  }

  lemma {:induction false} SendsTheSendable(h: Hash, store: Store, db: LocalDb, claims: seq<Claim>,
                                            sent: seq<PageDataEntry>, k: nat)
    requires Intact(h, store) && Settled(h, store, db, claims) && Copies(store, sent)
    requires forall i | 0 <= i < |claims| && claims[i].Range? ::
               Batch.ToldApart(h, HashBytes(store, claims[i].start, claims[i].end),
                               Batch.LocalHashBytes(h, db, claims[i].start, claims[i].end))
    requires k >= 1 && k in store ==>
               (k in PullSystem.PageNos(sent) <==> Mismatched(store, claims, k) || k !in Claimed(claims))
    requires k == 0 ==> k in PullSystem.PageNos(sent) ==> Mismatched(store, claims, k)
    ensures k in PullSystem.PageNos(sent) <==> PullSystem.Sendable(h, store, db, k)
  {
    ClaimedMeans(claims, k);
    if k in PullSystem.PageNos(sent) {
      assert k in store;
    }
    hide PullSystem.PageNos, Claimed, Copies;
    if Mismatched(store, claims, k) {
      var i :| 0 <= i < |claims| && claims[i].One? && claims[i].pageNo == k && Contradicted(store, claims[i]);
      assert Honest(h, db, claims[i]);
    }
    if HasPage(db, k) && k in store {
      Decided(h, store, db, claims, k);
    } else if i :| 0 <= i < |claims| && Covers(claims[i], k) {
      assert Honest(h, db, claims[i]);
      assert HasPage(db, k);
    }
  }

  /** Batches restore nothing less than single claims do: if the client holds the ranges it
      digests and claims the pages of every rejected range again one by one, the session sends
      exactly the pages a pull has to send, and writing them gives the same database. */
  lemma {:induction false} BatchedPull(h: Hash, store: Store, db: LocalDb, claims: seq<Claim>)
    requires Intact(h, store) && DistinctOnes(claims)
    requires Thorough(h, db, claims, Frames(Serve(h, store, claims).log))
    requires forall i | 0 <= i < |claims| && claims[i].Range? ::
               Batch.ToldApart(h, HashBytes(store, claims[i].start, claims[i].end),
                               Batch.LocalHashBytes(h, db, claims[i].start, claims[i].end))
    ensures var sent := SentPages(Serve(h, store, claims).log);
            && (forall k :: k in PullSystem.PageNos(sent) <==> PullSystem.Sendable(h, store, db, k))
            && PagesOf(db) + WriteAll(map[], sent) == PullSystem.PullOverlay(h, store, db)
  {
    Partition(h, store, claims);
    RefusalsAreTold(h, store, claims);
    ThoroughIsSettled(h, store, db, claims, Frames(Serve(h, store, claims).log));
    var sent := SentPages(Serve(h, store, claims).log);
    assert sent == Answers(store, claims) + Rest(store, claims);
    hide Serve, SentPages, Answers, Rest, Thorough, Refuses, Frames;
    forall k
      ensures k in PullSystem.PageNos(sent) <==> PullSystem.Sendable(h, store, db, k)
    {
      SendsTheSendable(h, store, db, claims, sent, k);
    }
    hide PullSystem.Sendable, PullSystem.PageNos, Settled, Mismatched, Claimed, DistinctOnes, Batch.ToldApart;
    Pull.ShipmentIsOverlay(h, store, db, sent);
  }

  /** Without holding the whole range, its digest can cost the client a page: there is a store
      whose matching digest makes the session leave out a page a pull has to send. */
  lemma {:induction false} UnsafeRangeLoses(h: Hash, db: LocalDb, start: nat, end: nat) returns (store: Store, k: nat)
    requires 1 <= start <= end && !Batch.HoldsAll(db, start, end) && !Batch.HoldsNone(db, start, end)
    ensures Intact(h, store) && PullSystem.Sendable(h, store, db, k)
    ensures var sent := SentPages(Serve(h, store, [Range(start, end, Batch.LocalDigest(h, db, start, end))]).log);
            k !in PullSystem.PageNos(sent)
  {
    store := Batch.Misleads(h, db, start, end);
    k :| start <= k <= end && k in store && !Batch.SamePage(h, store, db, k);
    RangeLeavesOut(h, store, start, end, Batch.LocalDigest(h, db, start, end), k);
    hide Serve, SentPages, PullSystem.PageNos;
  }

  /** Nothing of a lone range claim is sent. */
  lemma {:induction false} RangeLeavesOut(h: Hash, store: Store, start: nat, end: nat, combined: Bytes, k: nat)
    requires start <= k <= end && k >= 1 && k in store
    ensures k !in PullSystem.PageNos(SentPages(Serve(h, store, [Range(start, end, combined)]).log))
  {
    var claims := [Range(start, end, combined)];
    Partition(h, store, claims);
    ClaimedMeans(claims, k);
    assert Covers(claims[0], k) && !Mismatched(store, claims, k);
    hide Serve, SentPages, Answers, Rest, Claimed, PullSystem.PageNos, Copies, Mismatched;
  }
}
