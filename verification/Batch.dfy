/** Whole-range claims (`PageHashBatch`): when a matching digest may be trusted. */
module Batch {
  import opened Protocol
  import opened PageStore
  import opened SyncClient

  /** What an honest range claim digests: the hashes of the client's pages of the range. */
  function LocalHashBytes(h: Hash, db: LocalDb, start: nat, end: nat): Bytes
    decreases end + 1 - start
  {
    if start > end then []
    else (if HasPage(db, start) then HashAt(h, db, start) else []) + LocalHashBytes(h, db, start + 1, end)
  }

  function LocalDigest(h: Hash, db: LocalDb, start: nat, end: nat): Digest {
    DigestOf(h, LocalHashBytes(h, db, start, end))
  }

  /** The server's test of the claim. */
  predicate Matches(h: Hash, store: Store, db: LocalDb, start: nat, end: nat) {
    CombinedHash(h, store, start, end) == LocalDigest(h, db, start, end)
  }

  /** The hash tells these two inputs apart. */
  predicate ToldApart(h: Hash, a: Bytes, b: Bytes) {
    DigestOf(h, a) == DigestOf(h, b) ==> a == b
  }

  predicate SamePage(h: Hash, store: Store, db: LocalDb, k: nat) {
    HasPage(db, k) && k in store && store[k].hash == HashAt(h, db, k)
  }

  predicate HoldsAll(db: LocalDb, start: nat, end: nat) {
    start > end || (start >= 1 && end <= |db|)
  }

  predicate HoldsNone(db: LocalDb, start: nat, end: nat) {
    start > |db| || end < 1 || |db| == 0
  }

  // ----- Fixed-size blocks -----

  lemma {:induction false} StoredLength(h: Hash, store: Store, start: nat, end: nat)
    requires Intact(h, store) && start <= end + 1
    ensures |HashBytes(store, start, end)| <= DIGEST_LENGTH * (end + 1 - start)
    ensures HashBytes(store, start, end) == [] ==> forall k | start <= k <= end :: k !in store
    decreases end + 1 - start
  {
    if start <= end {
      StoredLength(h, store, start + 1, end);
      assert start in store ==> |store[start].hash| == DIGEST_LENGTH;
    }
  }

  lemma {:induction false} LocalLength(h: Hash, db: LocalDb, start: nat, end: nat)
    requires HoldsAll(db, start, end) && start <= end + 1
    ensures |LocalHashBytes(h, db, start, end)| == DIGEST_LENGTH * (end + 1 - start)
    decreases end + 1 - start
  {
    if start <= end {
      LocalLength(h, db, start + 1, end);
    }
  }

  lemma {:induction false} FirstBlock(a: Bytes, b: Bytes, rest: Bytes, rest': Bytes)
    requires |a| == |b| && a + rest == b + rest'
    ensures a == b && rest == rest'
  {
    assert (a + rest)[..|a|] == a && (b + rest')[..|a|] == b;
    assert (a + rest)[|a|..] == rest && (b + rest')[|a|..] == rest';
  }

  /** As many blocks as page numbers leave no room for an absent page, and then the blocks
      agree one by one. */
  lemma {:induction false} BlocksAgree(h: Hash, store: Store, db: LocalDb, start: nat, end: nat)
    requires Intact(h, store) && HoldsAll(db, start, end)
    requires HashBytes(store, start, end) == LocalHashBytes(h, db, start, end)
    ensures forall k | start <= k <= end :: SamePage(h, store, db, k)
    decreases end + 1 - start
  {
    if start <= end {
      StoredLength(h, store, start + 1, end);
      LocalLength(h, db, start, end);
      assert start in store;
      FirstBlock(store[start].hash, HashAt(h, db, start),
                 HashBytes(store, start + 1, end), LocalHashBytes(h, db, start + 1, end));
      BlocksAgree(h, store, db, start + 1, end);
    }
  }

  lemma {:induction false} AgreeingBlocks(h: Hash, store: Store, db: LocalDb, start: nat, end: nat)
    requires forall k | start <= k <= end :: SamePage(h, store, db, k)
    ensures HashBytes(store, start, end) == LocalHashBytes(h, db, start, end)
    decreases end + 1 - start
  {
    if start <= end {
      assert SamePage(h, store, db, start);
      AgreeingBlocks(h, store, db, start + 1, end);
    }
  }

  /** For a client that holds the whole range, the digests match exactly when the server holds
      every page of the range with an equal hash. */
  lemma {:induction false} MatchIsExact(h: Hash, store: Store, db: LocalDb, start: nat, end: nat)
    requires Intact(h, store) && HoldsAll(db, start, end)
    requires ToldApart(h, HashBytes(store, start, end), LocalHashBytes(h, db, start, end))
    ensures Matches(h, store, db, start, end) <==> forall k | start <= k <= end :: SamePage(h, store, db, k)
  {
    if Matches(h, store, db, start, end) {
      BlocksAgree(h, store, db, start, end);
    }
    if forall k | start <= k <= end :: SamePage(h, store, db, k) {
      AgreeingBlocks(h, store, db, start, end);
    }
  }

  // ----- Which ranges may be claimed -----

  /** Marking the range as seen hides nothing the client lacks or has different bytes of. */
  ghost predicate HidesNothing(h: Hash, store: Store, db: LocalDb, start: nat, end: nat) {
    forall k | start <= k <= end && k in store :: SamePage(h, store, db, k)
  }

  /** No store with a matching digest hides anything, short of a collision of the hash. */
  ghost predicate Safe(h: Hash, db: LocalDb, start: nat, end: nat) {
    forall store: Store |
      && Intact(h, store)
      && ToldApart(h, HashBytes(store, start, end), LocalHashBytes(h, db, start, end))
      && Matches(h, store, db, start, end) ::
      HidesNothing(h, store, db, start, end)
  }

  /** The client's page `k - up`, as the server would store it. */
  function CopyDown(h: Hash, db: LocalDb, k: nat, up: int): Page
    requires k >= up
  {
    Page(PageAt(db, k - up), HashAt(h, db, k - up))
  }

  /** The client's pages `from..=to`, stored `up` page numbers higher. */
  function Shifted(h: Hash, db: LocalDb, from: nat, to: nat, up: int): Store
    requires from <= to && from + up >= 0
  {
    var numbers := PageSet(from + up, to + up);
    map k | k in numbers :: CopyDown(h, db, k, up)
  }

  lemma {:induction false} BlocksAfter(h: Hash, db: LocalDb, from: nat, to: nat, up: int, end: nat, next: nat)
    requires 1 <= from <= to <= |db| && from + up >= 0 && next > to + up
    ensures HashBytes(Shifted(h, db, from, to, up), next, end) == []
    decreases end + 1 - next
  {
    if next <= end {
      BlocksAfter(h, db, from, to, up, end, next + 1);
      hide Shifted;
    }
  }

  lemma {:induction false} BlockStarts(h: Hash, store: Store, db: LocalDb, next: nat, end: nat, up: int, to: nat)
    requires next <= end && next - up >= 0 && next - up <= to && HasPage(db, next - up)
    requires next in store && store[next].hash == HashAt(h, db, next - up)
    ensures HashBytes(store, next, end) == HashAt(h, db, next - up) + HashBytes(store, next + 1, end)
    ensures LocalHashBytes(h, db, next - up, to) == HashAt(h, db, next - up) + LocalHashBytes(h, db, next - up + 1, to)
  {
  }

  lemma {:induction false} BlocksWithin(h: Hash, db: LocalDb, from: nat, to: nat, up: int, end: nat, next: nat)
    requires 1 <= from <= to <= |db| && from + up >= 0 && to + up <= end && from + up <= next <= to + up + 1
    ensures HashBytes(Shifted(h, db, from, to, up), next, end) == LocalHashBytes(h, db, next - up, to)
    decreases end + 1 - next
  {
    if next > to + up {
      BlocksAfter(h, db, from, to, up, end, next);
    } else {
      var store := Shifted(h, db, from, to, up);
      assert next in store && store[next].hash == HashAt(h, db, next - up);
      hide Shifted, HashBytes, LocalHashBytes;
      BlocksWithin(h, db, from, to, up, end, next + 1);
      BlockStarts(h, store, db, next, end, up, to);
    }
  }

  lemma {:induction false} ShiftedBlocks(h: Hash, db: LocalDb, from: nat, to: nat, up: int, end: nat, next: nat)
    requires 1 <= from <= to <= |db| && from + up >= 0 && to + up <= end && next <= from + up
    ensures HashBytes(Shifted(h, db, from, to, up), next, end) == LocalHashBytes(h, db, from, to)
    decreases from + up - next
  {
    if next == from + up {
      BlocksWithin(h, db, from, to, up, end, next);
    } else {
      var store := Shifted(h, db, from, to, up);
      assert next !in store;
      hide Shifted, HashBytes, LocalHashBytes;
      NextBlock(store, next, end, []);
      assert [] + HashBytes(store, next, end) == HashBytes(store, next, end);
      assert [] + HashBytes(store, next + 1, end) == HashBytes(store, next + 1, end);
      ShiftedBlocks(h, db, from, to, up, end, next + 1);
    }
  }

  /** Page numbers the client does not have leave no trace in its digest. */
  lemma {:induction false} OnlyHeldPagesCount(h: Hash, db: LocalDb, start: nat, end: nat)
    requires start <= |db| && end >= 1 && start <= end
    ensures var from := if start == 0 then 1 else start;
            var to := if end > |db| then |db| else end;
            LocalHashBytes(h, db, start, end) == LocalHashBytes(h, db, from, to)
    decreases end + 1 - start
  {
    if start == 0 {
      if 1 <= |db| {
        OnlyHeldPagesCount(h, db, 1, end);
      } else {
        NoLocalBlocks(h, db, 1, end);
      }
    } else if end > |db| {
      if start < |db| {
        OnlyHeldPagesCount(h, db, start + 1, end);
      } else {
        NoLocalBlocks(h, db, start + 1, end);
      }
    }
  }

  lemma {:induction false} NoLocalBlocks(h: Hash, db: LocalDb, start: nat, end: nat)
    requires HoldsNone(db, start, end)
    ensures LocalHashBytes(h, db, start, end) == []
    decreases end + 1 - start
  {
    if start <= end {
      NoLocalBlocks(h, db, start + 1, end);
    }
  }

  /** A store that a client holding some but not all of a range cannot tell from its own. */
  lemma {:induction false} Misleads(h: Hash, db: LocalDb, start: nat, end: nat) returns (store: Store)
    requires start <= end && !HoldsAll(db, start, end) && !HoldsNone(db, start, end)
    ensures Intact(h, store)
    ensures HashBytes(store, start, end) == LocalHashBytes(h, db, start, end)
    ensures !HidesNothing(h, store, db, start, end)
  {
    OnlyHeldPagesCount(h, db, start, end);
    var from := if start == 0 then 1 else start;
    var to := if end > |db| then |db| else end;
    var up := if end > |db| then end - |db| else -1;
    store := Shifted(h, db, from, to, up);
    ShiftedBlocks(h, db, from, to, up, end, start);
    var hidden := if end > |db| then end else 0;
    assert hidden in store && !HasPage(db, hidden);
  }

  /** A range may be claimed by its digest exactly when the client holds all of it, or none:
      the digest skips absent pages and carries no page numbers. */
  lemma {:induction false} SafeExactly(h: Hash, db: LocalDb, start: nat, end: nat)
    ensures Safe(h, db, start, end) <==> HoldsAll(db, start, end) || HoldsNone(db, start, end)
  {
    if HoldsAll(db, start, end) || HoldsNone(db, start, end) {
      forall store: Store |
        && Intact(h, store)
        && ToldApart(h, HashBytes(store, start, end), LocalHashBytes(h, db, start, end))
        && Matches(h, store, db, start, end)
        ensures HidesNothing(h, store, db, start, end)
      {
        if HoldsAll(db, start, end) {
          MatchIsExact(h, store, db, start, end);
        } else {
          NoLocalBlocks(h, db, start, end);
          StoredLength(h, store, start, end);
        }
      }
    } else {
      var store := Misleads(h, db, start, end);
    }
  }
}
