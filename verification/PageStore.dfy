/** The page table all sessions of a database share (worker/src/services/sync_storage.rs). */
module PageStore {
  import opened Protocol

  datatype Page = Page(data: Bytes, hash: Bytes)

  type Store = map<nat, Page>

  /** Every stored hash is the digest of the bytes beside it. */
  ghost predicate Intact(h: Hash, store: Store) {
    forall k | k in store :: store[k].hash == DigestOf(h, store[k].data)
  }

  /** `start..=end`, as a set and as a list; both are empty when `start > end`. */
  function PageRange(start: nat, end: nat): (s: seq<nat>)
    ensures |s| == if start > end then 0 else end + 1 - start
    ensures forall i | 0 <= i < |s| :: s[i] == start + i
    ensures forall k :: k in s <==> start <= k <= end
  {
    var s := seq(if start > end then 0 else end + 1 - start, i requires 0 <= i => start + i);
    assert forall k :: start <= k <= end ==> k in s by {
      forall k | start <= k <= end ensures k in s {
        assert s[k - start] == k;
      }
    }
    s
  }

  function PageSet(start: nat, end: nat): (s: set<nat>)
    ensures forall k :: k in s <==> start <= k <= end
  {
    set k | k in PageRange(start, end)
  }

  ghost function MaxOf(s: set<nat>): (m: nat)
    ensures s == {} ==> m == 0
    ensures s != {} ==> m in s
    ensures forall k | k in s :: k <= m
  {
    if s == {} then 0
    else
      var k :| k in s;
      var m := MaxOf(s - {k});
      assert s == (s - {k}) + {k};
      if k < m then m else k
  }

  /** `MAX(page_no)`, 0 on an empty table. */
  ghost function MaxPage(store: Store): nat {
    MaxOf(store.Keys)
  }

  /** The stored hashes of `start..=end` in page order; absent pages leave no trace. */
  function HashBytes(store: Store, start: nat, end: nat): Bytes
    decreases end + 1 - start
  {
    if start > end then []
    else (if start in store then store[start].hash else []) + HashBytes(store, start + 1, end)
  }

  function CombinedHash(h: Hash, store: Store, start: nat, end: nat): Digest {
    DigestOf(h, HashBytes(store, start, end))
  }

  // ----- Range queries: one query per page, or one ordered scan -----

  /** What `SELECT ... WHERE page_no BETWEEN start AND end ORDER BY page_no` returns: the
      stored page numbers of the range, strictly ascending. */
  ghost predicate IsScan(store: Store, start: nat, end: nat, rows: seq<nat>) {
    && (forall i, j | 0 <= i < j < |rows| :: rows[i] < rows[j])
    && (forall k :: k in rows <==> k in store && start <= k <= end)
  }

  function Scan(store: Store, start: nat, end: nat): (rows: seq<nat>)
    ensures IsScan(store, start, end, rows)
    decreases end + 1 - start
  {
    if start > end then []
    else
      var rest := Scan(store, start + 1, end);
      assert forall i | 0 <= i < |rest| :: rest[i] in rest;
      if start in store then [start] + rest else rest
  }

  /** A scan and the numbers it starts from determine it: its first row is the first stored
      page, and the remaining rows are the scan of the remaining numbers. */
  lemma {:induction false} ScanUnfolds(store: Store, start: nat, end: nat, rows: seq<nat>)
    requires IsScan(store, start, end, rows) && start <= end
    ensures start in store ==> rows != [] && rows[0] == start && IsScan(store, start + 1, end, rows[1..])
    ensures start !in store ==> IsScan(store, start + 1, end, rows)
  {
    if start in store {
      assert start in rows;
      var i :| 0 <= i < |rows| && rows[i] == start;
      assert rows[0] in rows;
      var rest := rows[1..];
      forall k ensures k in rest <==> k in store && start + 1 <= k <= end {
        if k in store && start + 1 <= k <= end {
          assert k in rows;
          var j :| 0 <= j < |rows| && rows[j] == k;
          assert rest[j - 1] == k;
        }
        if k in rest {
          var j :| 0 <= j < |rest| && rest[j] == k;
          assert rows[j + 1] == k && start <= rows[0] < k;
        }
      }
    }
  }

  lemma {:induction false} ScanIsUnique(store: Store, start: nat, end: nat, rows: seq<nat>)
    requires IsScan(store, start, end, rows)
    ensures rows == Scan(store, start, end)
    decreases end + 1 - start
  {
    assert rows == [] || rows[0] in rows;
    if start <= end {
      ScanUnfolds(store, start, end, rows);
      hide IsScan;
      ScanIsUnique(store, start + 1, end, if start in store then rows[1..] else rows);
      assert start in store ==> rows == [start] + rows[1..];
    }
  }

  /** The lookup of some page of the range fails. */
  predicate Faulty(faults: set<nat>, start: nat, end: nat) {
    exists k | k in faults :: start <= k <= end
  }

  /** The outcome of a callback that may abort the iteration; or storage broke before it. */
  datatype Progress<A> = Continue(acc: A) | Abort(acc: A) | Unread(acc: A)

  /** Callbacks on the stored pages of `start..=end` in page order, up to the first abort or
      the first page in `faults`, whose lookup fails. */
  function IterRange<A>(store: Store, faults: set<nat>, start: nat, end: nat,
                        emit: (A, nat, Bytes) -> Progress<A>, acc: A): Progress<A>
    decreases end + 1 - start
  {
    if start > end then Continue(acc)
    else if start in faults then Unread(acc)
    else if start !in store then IterRange(store, faults, start + 1, end, emit, acc)
    else
      var step := emit(acc, start, store[start].data);
      if step.Continue? then IterRange(store, faults, start + 1, end, emit, step.acc) else step
  }

  // ----- What the range queries mean, row by row -----

  /** The stored hashes of these rows, one after the other. */
  function RowHashes(store: Store, rows: seq<nat>): Bytes
    requires forall k | k in rows :: k in store
  {
    if rows == [] then []
    else RowHashes(store, rows[..|rows| - 1]) + store[rows[|rows| - 1]].hash
  }

  lemma {:induction false} RowHashesCons(store: Store, row: nat, rows: seq<nat>)
    requires row in store && forall k | k in rows :: k in store
    ensures RowHashes(store, [row] + rows) == store[row].hash + RowHashes(store, rows)
  {
    var n := |rows| - 1;
    if rows == [] {
      assert [row] + rows == [row] && [row][..0] == rows;
    } else {
      RowHashesCons(store, row, rows[..n]);
      var last := store[rows[n]].hash;
      assert RowHashes(store, [row] + rows) == RowHashes(store, [row] + rows[..n]) + last by {
        assert ([row] + rows)[..n + 1] == [row] + rows[..n];
      }
      assert RowHashes(store, rows) == RowHashes(store, rows[..n]) + last;
      hide RowHashes;
      assert store[row].hash + RowHashes(store, rows[..n]) + last == store[row].hash + (RowHashes(store, rows[..n]) + last);
    }
  }

  /** What is digested for a range is the hashes of its rows, in order. */
  lemma {:induction false} DigestsTheRows(h: Hash, store: Store, start: nat, end: nat)
    ensures HashBytes(store, start, end) == RowHashes(store, Scan(store, start, end))
    ensures CombinedHash(h, store, start, end) == h(RowHashes(store, Scan(store, start, end)))
    decreases end + 1 - start
  {
    if start <= end {
      DigestsTheRows(h, store, start + 1, end);
      if start in store {
        RowHashesCons(store, start, Scan(store, start + 1, end));
      }
    }
  }

  lemma {:induction false} SliceAfter(a: Bytes, b: Bytes, from: nat, to: nat)
    requires from <= to <= |b|
    ensures (a + b)[|a| + from..|a| + to] == b[from..to]
  {
  }

  lemma {:induction false} DigestsEach(store: Store, start: nat, end: nat)
    requires forall k | k in store :: |store[k].hash| == 32
    ensures |HashBytes(store, start, end)| == 32 * |Scan(store, start, end)|
    decreases end + 1 - start
  {
    if start <= end {
      DigestsEach(store, start + 1, end);
    }
  }

  /** With hashes of the same length, row `i` of the scan is block `i` of what is digested. */
  lemma {:induction false} DigestsInOrder(store: Store, start: nat, end: nat, i: nat)
    requires forall k | k in store :: |store[k].hash| == 32
    requires i < |Scan(store, start, end)|
    ensures 32 * i + 32 <= |HashBytes(store, start, end)| == 32 * |Scan(store, start, end)|
    ensures HashBytes(store, start, end)[32 * i..32 * i + 32] == store[Scan(store, start, end)[i]].hash
    decreases end + 1 - start
  {
    hide IsScan;
    DigestsEach(store, start, end);
    assert start <= end;
    var rest := HashBytes(store, start + 1, end);
    if start !in store {
      assert HashBytes(store, start, end) == rest;
      DigestsInOrder(store, start + 1, end, i);
    } else {
      var hash := store[start].hash;
      assert HashBytes(store, start, end) == hash + rest;
      if i > 0 {
        DigestsInOrder(store, start + 1, end, i - 1);
        SliceAfter(hash, rest, 32 * (i - 1), 32 * (i - 1) + 32);
      }
      hide HashBytes;
    }
  }

  /** The values a callback goes through when it is called with these rows' pages in order:
      the first before any call, then one after each call that did not stop it. */
  ghost predicate Threads<A>(store: Store, rows: seq<nat>, emit: (A, nat, Bytes) -> Progress<A>, init: A, accs: seq<A>) {
    && 1 <= |accs| <= |rows| + 1 && accs[0] == init
    && forall i | 0 <= i < |accs| - 1 ::
         rows[i] in store && emit(accs[i], rows[i], store[rows[i]].data) == Continue(accs[i + 1])
  }

  /** The first lookup to fail comes after the first `n` rows and no later than the next. */
  ghost predicate FaultAfter(faults: set<nat>, start: nat, end: nat, rows: seq<nat>, n: nat) {
    exists f | f in faults ::
      && start <= f <= end
      && (forall f' | f' in faults && start <= f' :: f <= f')
      && (forall i | 0 <= i < n && i < |rows| :: rows[i] < f)
      && (n < |rows| ==> f <= rows[n])
  }

  /** How a range query ends after `|accs| - 1` calls: past the last row, at a failing lookup,
      or at the call that stopped it. */
  ghost predicate EndsAs<A>(store: Store, faults: set<nat>, start: nat, end: nat,
                            emit: (A, nat, Bytes) -> Progress<A>, accs: seq<A>, result: Progress<A>)
    requires accs != []
  {
    var rows := Scan(store, start, end);
    var n := |accs| - 1;
    || (n == |rows| && !Faulty(faults, start, end) && result == Continue(accs[n]))
    || (FaultAfter(faults, start, end, rows, n) && result == Unread(accs[n]))
    || (&& n < |rows| && rows[n] in store && !Faulty(faults, start, rows[n])
        && result == emit(accs[n], rows[n], store[rows[n]].data) && !result.Continue?)
  }

  /** A range query calls back with the bytes of exactly the stored pages of the range, in page
      order, up to the first call that stops it or the first lookup that fails. */
  lemma {:induction false} IterMeans<A>(store: Store, faults: set<nat>, start: nat, end: nat,
                                        emit: (A, nat, Bytes) -> Progress<A>, init: A) returns (accs: seq<A>)
    ensures accs != []
    ensures Threads(store, Scan(store, start, end), emit, init, accs)
    ensures EndsAs(store, faults, start, end, emit, accs, IterRange(store, faults, start, end, emit, init))
    decreases end + 1 - start
  {
    hide IsScan, Faulty, Threads, EndsAs, Scan;
    accs := [init];
    if start > end || start in faults {
      EndsAtOnce(store, faults, start, end, emit, init);
    } else if start !in store {
      accs := IterMeans(store, faults, start + 1, end, emit, init);
      EndsLater(store, faults, start, end, emit, accs, IterRange(store, faults, start + 1, end, emit, init));
      assert Scan(store, start, end) == Scan(store, start + 1, end) by { ScanSkips(store, start, end); }
    } else {
      var step := emit(init, start, store[start].data);
      if step.Continue? {
        var rest := IterMeans(store, faults, start + 1, end, emit, step.acc);
        accs := [init] + rest;
        assert Scan(store, start, end) == [start] + Scan(store, start + 1, end) by { ScanSkips(store, start, end); }
        ThreadsCons(store, start, Scan(store, start + 1, end), emit, init, rest);
        EndsCons(store, faults, start, end, emit, init, rest, IterRange(store, faults, start + 1, end, emit, step.acc));
      } else {
        StopsAtOnce(store, faults, start, end, emit, init);
      }
    }
  }

  lemma {:induction false} ScanSkips(store: Store, start: nat, end: nat)
    requires start <= end
    ensures Scan(store, start, end)
            == if start in store then [start] + Scan(store, start + 1, end) else Scan(store, start + 1, end)
  {
  }

  lemma {:induction false} EndsAtOnce<A>(store: Store, faults: set<nat>, start: nat, end: nat,
                                         emit: (A, nat, Bytes) -> Progress<A>, init: A)
    requires start > end || start in faults
    ensures Threads(store, Scan(store, start, end), emit, init, [init])
    ensures EndsAs(store, faults, start, end, emit, [init], IterRange(store, faults, start, end, emit, init))
  {
    if start <= end {
      FaultFirst(faults, start, end, Scan(store, start, end));
      hide FaultAfter;
    }
  }

  lemma {:induction false} EndsLater<A>(store: Store, faults: set<nat>, start: nat, end: nat,
                                        emit: (A, nat, Bytes) -> Progress<A>, accs: seq<A>, result: Progress<A>)
    requires start !in store && start !in faults && start <= end && accs != []
    requires EndsAs(store, faults, start + 1, end, emit, accs, result)
    ensures EndsAs(store, faults, start, end, emit, accs, result)
  {
    ScanSkips(store, start, end);
    FaultBefore(faults, start, end, Scan(store, start, end), |accs| - 1);
    assert forall to :: Faulty(faults, start, to) <==> Faulty(faults, start + 1, to);
    hide Faulty, FaultAfter, Scan, IsScan;
  }

  lemma {:induction false} StopsAtOnce<A>(store: Store, faults: set<nat>, start: nat, end: nat,
                                          emit: (A, nat, Bytes) -> Progress<A>, init: A)
    requires start <= end && start in store && start !in faults && !emit(init, start, store[start].data).Continue?
    ensures Threads(store, Scan(store, start, end), emit, init, [init])
    ensures EndsAs(store, faults, start, end, emit, [init], IterRange(store, faults, start, end, emit, init))
  {
    ScanSkips(store, start, end);
    hide Scan, IsScan, FaultAfter;
  }

  lemma {:induction false} ThreadsCons<A>(store: Store, row: nat, rows: seq<nat>,
                                          emit: (A, nat, Bytes) -> Progress<A>, init: A, rest: seq<A>)
    requires row in store && emit(init, row, store[row].data).Continue?
    requires Threads(store, rows, emit, emit(init, row, store[row].data).acc, rest)
    ensures Threads(store, [row] + rows, emit, init, [init] + rest)
  {
  }

  lemma {:induction false} EndsCons<A>(store: Store, faults: set<nat>, start: nat, end: nat,
                                       emit: (A, nat, Bytes) -> Progress<A>, init: A, rest: seq<A>, result: Progress<A>)
    requires start in store && start <= end && start !in faults && rest != []
    requires EndsAs(store, faults, start + 1, end, emit, rest, result)
    ensures EndsAs(store, faults, start, end, emit, [init] + rest, result)
  {
    var rows := Scan(store, start + 1, end);
    var n := |rest| - 1;
    assert Scan(store, start, end) == [start] + rows;
    assert ([init] + rest)[n + 1] == rest[n] && (n < |rows| ==> ([start] + rows)[n + 1] == rows[n]);
    assert forall to :: Faulty(faults, start, to) <==> Faulty(faults, start + 1, to);
    hide Faulty, IsScan;
    FaultBefore(faults, start, end, rows, |rest| - 1);
    FaultShifts(faults, start, end, rows, |rest| - 1);
    hide FaultAfter, Scan;
  }

  lemma {:induction false} FaultFirst(faults: set<nat>, start: nat, end: nat, rows: seq<nat>)
    requires start in faults && start <= end
    requires forall k | k in rows :: start <= k
    ensures FaultAfter(faults, start, end, rows, 0)
  {
    assert rows == [] || rows[0] in rows;
  }

  lemma {:induction false} FaultBefore(faults: set<nat>, start: nat, end: nat, rows: seq<nat>, n: nat)
    requires start !in faults
    ensures FaultAfter(faults, start + 1, end, rows, n) ==> FaultAfter(faults, start, end, rows, n)
  {
  }

  lemma {:induction false} FaultShifts(faults: set<nat>, start: nat, end: nat, rows: seq<nat>, n: nat)
    requires start !in faults
    ensures FaultAfter(faults, start, end, rows, n) ==> FaultAfter(faults, start, end, [start] + rows, n + 1)
  {
  }

  /** A callback that collects its calls and stops at call number `n`. */
  function Collector(n: nat): (seq<(nat, Bytes)>, nat, Bytes) -> Progress<seq<(nat, Bytes)>> {
    (calls: seq<(nat, Bytes)>, k: nat, data: Bytes) =>
      if |calls| == n then Abort(calls) else Continue(calls + [(k, data)])
  }

  /** The calls such a callback sees are the stored pages of the range with their bytes, in
      page order, and none after the one that stops it. */
  lemma {:induction false} IterCollects(store: Store, start: nat, end: nat, n: nat)
    ensures var rows := Scan(store, start, end);
            var calls := seq(|rows|, i requires 0 <= i < |rows| && rows[i] in rows => (rows[i], store[rows[i]].data));
            IterRange(store, {}, start, end, Collector(n), [])
            == if n < |rows| then Abort(calls[..n]) else Continue(calls)
  {
    var rows := Scan(store, start, end);
    var calls := seq(|rows|, i requires 0 <= i < |rows| && rows[i] in rows => (rows[i], store[rows[i]].data));
    var none: seq<(nat, Bytes)> := [];
    var accs := IterMeans(store, {}, start, end, Collector(n), none);
    Collected(store, rows, calls, n, accs, |accs| - 1);
    assert calls[..|rows|] == calls;
    hide Threads, IterRange, IsScan;
  }

  lemma {:induction false} Collected(store: Store, rows: seq<nat>, calls: seq<(nat, Bytes)>, n: nat,
                                     accs: seq<seq<(nat, Bytes)>>, i: nat)
    requires Threads(store, rows, Collector(n), [], accs) && i < |accs|
    requires |calls| == |rows| && forall i | 0 <= i < |rows| :: rows[i] in store && calls[i] == (rows[i], store[rows[i]].data)
    ensures i <= n && accs[i] == calls[..i]
  {
    if i > 0 {
      Collected(store, rows, calls, n, accs, i - 1);
      assert Collector(n)(accs[i - 1], rows[i - 1], store[rows[i - 1]].data) == Continue(accs[i - 1 + 1]);
      assert calls[..i] == calls[..i - 1] + [calls[i - 1]];
    }
  }

  /** Page numbers before the next row of a scan are absent and leave no trace. */
  lemma {:induction false} SkipGap(store: Store, start: nat, end: nat, rows: seq<nat>) returns (next: nat)
    requires IsScan(store, start, end, rows) && rows != []
    ensures start <= next == rows[0] <= end && next in store
    ensures IsScan(store, next, end, rows)
    ensures HashBytes(store, start, end) == HashBytes(store, next, end)
    ensures forall k | start <= k < next :: k !in store
    decreases end + 1 - start
  {
    assert rows[0] in rows;
    if start in store {
      ScanUnfolds(store, start, end, rows);
      next := start;
    } else {
      ScanUnfolds(store, start, end, rows);
      next := SkipGap(store, start + 1, end, rows);
    }
  }

  lemma {:induction false} EmptyScan(store: Store, start: nat, end: nat)
    requires IsScan(store, start, end, [])
    ensures HashBytes(store, start, end) == []
    ensures forall k | start <= k <= end :: k !in store
  {
    forall k: nat | start <= k <= end
      ensures k !in store
    {
      assert k !in [];
    }
    hide IsScan;
    NothingStored(store, start, end);
  }

  lemma {:induction false} NothingStored(store: Store, start: nat, end: nat)
    requires forall k | start <= k <= end :: k !in store
    ensures HashBytes(store, start, end) == []
    decreases end + 1 - start
  {
    if start <= end {
      NothingStored(store, start + 1, end);
    }
  }

  /** The next row of a scan: it is stored, nothing is stored before it, and the scan goes on
      after it. */
  lemma {:induction false} NextRow(store: Store, from: nat, end: nat, rows: seq<nat>, i: nat)
    requires i < |rows| && IsScan(store, from, end, rows[i..])
    ensures from <= rows[i] <= end && rows[i] in store
    ensures forall k | from <= k < rows[i] :: k !in store
    ensures IsScan(store, rows[i] + 1, end, rows[i + 1..])
    ensures HashBytes(store, from, end) == store[rows[i]].hash + HashBytes(store, rows[i] + 1, end)
  {
    var next := SkipGap(store, from, end, rows[i..]);
    ScanUnfolds(store, next, end, rows[i..]);
    assert rows[i..][1..] == rows[i + 1..];
  }

  lemma {:induction false} NextBlock(store: Store, pageNo: nat, end: nat, hasher: Bytes)
    requires pageNo <= end
    ensures hasher + HashBytes(store, pageNo, end)
            == (if pageNo in store then hasher + store[pageNo].hash else hasher) + HashBytes(store, pageNo + 1, end)
  {
    var hash := if pageNo in store then store[pageNo].hash else [];
    assert hasher + (hash + HashBytes(store, pageNo + 1, end)) == hasher + hash + HashBytes(store, pageNo + 1, end);
    assert hasher + [] == hasher;
  }

  /** The trait's default `combined_hash`: one lookup per page number, each of which may fail. */
  method CombinedHashPerPage(h: Hash, store: Store, faults: set<nat>, start: nat, end: nat) returns (digest: Option<Digest>)
    ensures digest == if Faulty(faults, start, end) then None else Some(CombinedHash(h, store, start, end))
  {
    var hasher: Bytes := [];
    var pageNo := start;
    assert HashBytes(store, start, end) == hasher + HashBytes(store, pageNo, end);
    while pageNo <= end
      invariant start <= pageNo
      invariant forall k | k in faults && start <= k < pageNo :: k > end
      invariant HashBytes(store, start, end) == hasher + HashBytes(store, pageNo, end)
      decreases end + 1 - pageNo
    {
      if pageNo in faults {
        return None;
      }
      NextBlock(store, pageNo, end, hasher);
      hide HashBytes;
      if pageNo in store {
        hasher := hasher + store[pageNo].hash;
      }
      pageNo := pageNo + 1;
    }
    assert hasher + [] == hasher;
    return Some(DigestOf(h, hasher));
  }

  /** The SQL override: one ordered scan, of which only the rows there are can fail. */
  method CombinedHashScan(h: Hash, store: Store, faults: set<nat>, start: nat, end: nat, rows: seq<nat>)
    returns (digest: Option<Digest>)
    requires IsScan(store, start, end, rows)
    ensures digest == if Faulty(faults * store.Keys, start, end) then None else Some(CombinedHash(h, store, start, end))
  {
    hide IsScan, HashBytes;
    var hasher: Bytes := [];
    ghost var from: nat := start;
    var i := 0;
    assert rows[0..] == rows;
    while i < |rows|
      invariant 0 <= i <= |rows|
      invariant start <= from
      invariant IsScan(store, from, end, rows[i..])
      invariant forall k | k in faults && k in store && start <= k < from :: k > end
      invariant HashBytes(store, start, end) == hasher + HashBytes(store, from, end)
    {
      NextRow(store, from, end, rows, i);
      if rows[i] in faults {
        assert rows[i] in faults * store.Keys;
        return None;
      }
      hasher := hasher + store[rows[i]].hash;
      from := rows[i] + 1;
      i := i + 1;
    }
    assert rows[i..] == [];
    EmptyScan(store, from, end);
    assert hasher + [] == hasher;
    return Some(DigestOf(h, hasher));
  }

  /** The trait's default `iter_pages_in_range`. */
  method IterPagesPerPage<A>(store: Store, faults: set<nat>, start: nat, end: nat,
                             emit: (A, nat, Bytes) -> Progress<A>, init: A)
    returns (result: Progress<A>)
    ensures result == IterRange(store, faults, start, end, emit, init)
  {
    var acc := init;
    var pageNo := start;
    while pageNo <= end
      invariant IterRange(store, faults, start, end, emit, init) == IterRange(store, faults, pageNo, end, emit, acc)
      decreases end + 1 - pageNo
    {
      if pageNo in faults {
        return Unread(acc);
      }
      if pageNo in store {
        var step := emit(acc, pageNo, store[pageNo].data);
        if !step.Continue? {
          return step;
        }
        acc := step.acc;
      }
      pageNo := pageNo + 1;
    }
    return Continue(acc);
  }

  lemma {:induction false} IterSkipsGap<A>(store: Store, faults: set<nat>, start: nat, next: nat, end: nat,
                                           emit: (A, nat, Bytes) -> Progress<A>, acc: A)
    requires start <= next && forall k | start <= k < next && k <= end :: k !in store && k !in faults
    ensures IterRange(store, faults, start, end, emit, acc) == IterRange(store, faults, next, end, emit, acc)
    decreases next - start
  {
    if start < next {
      IterSkipsGap(store, faults, start + 1, next, end, emit, acc);
    }
  }

  /** The SQL override: a cursor over one ordered scan, of which only the rows there are can
      fail. */
  method IterPagesScan<A>(store: Store, faults: set<nat>, start: nat, end: nat, rows: seq<nat>,
                          emit: (A, nat, Bytes) -> Progress<A>, init: A)
    returns (result: Progress<A>)
    requires IsScan(store, start, end, rows)
    ensures result == IterRange(store, faults * store.Keys, start, end, emit, init)
  {
    hide IsScan;
    var acc := init;
    ghost var bad := faults * store.Keys;
    ghost var from: nat := start;
    var i := 0;
    assert rows[0..] == rows;
    while i < |rows|
      invariant 0 <= i <= |rows|
      invariant IsScan(store, from, end, rows[i..])
      invariant IterRange(store, bad, start, end, emit, init) == IterRange(store, bad, from, end, emit, acc)
    {
      NextRow(store, from, end, rows, i);
      IterSkipsGap(store, bad, from, rows[i], end, emit, acc);
      if rows[i] in faults {
        return Unread(acc);
      }
      var step := emit(acc, rows[i], store[rows[i]].data);
      if !step.Continue? {
        return step;
      }
      acc := step.acc;
      from := rows[i] + 1;
      i := i + 1;
    }
    assert rows[i..] == [];
    EmptyScan(store, from, end);
    IterSkipsGap(store, bad, from, if from <= end then end + 1 else from, end, emit, acc);
    return Continue(acc);
  }
}
