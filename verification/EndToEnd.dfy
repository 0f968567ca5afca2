/** Pushes and pulls one after the other: what one replica learns of another through the
    server, and what a second sync still has to do. */
module EndToEnd {
  import opened Protocol
  import opened PageStore
  import opened SyncClient
  import Push
  import PushSystem
  import Pull
  import PullSystem

  /** A completed push. */
  ghost predicate Pushed(h: Hash, store0: Store, db: LocalDb, actions: seq<PushSystem.Action>, store: Store) {
    && PushSystem.IsRun(h, db, PushSystem.Init(store0), actions)
    && PushSystem.After(h, db, PushSystem.Init(store0), actions).client.phase.Synced?
    && PushSystem.After(h, db, PushSystem.Init(store0), actions).store == store
  }

  /** A completed pull that no other session interferes with. */
  ghost predicate Pulled(h: Hash, store: Store, db: LocalDb, actions: seq<PullSystem.Action>, end: PullSystem.PullSys) {
    && PullSystem.IsRun(h, db, PullSystem.Init(store, db), actions)
    && (forall a | a in actions :: !a.Other?)
    && end == PullSystem.After(h, db, PullSystem.Init(store, db), actions)
    && end.client.phase.Synced?
  }

  lemma {:induction false} PushedStore(h: Hash, store0: Store, db: LocalDb, actions: seq<PushSystem.Action>,
                                       store: Store)
    requires Pushed(h, store0, db, actions, store)
    ensures store == PushSystem.Overlay(h, store0, db)
  {
    Push.Converges(h, store0, db, actions);
  }

  lemma {:induction false} PulledPages(h: Hash, store: Store, db: LocalDb, actions: seq<PullSystem.Action>,
                                       end: PullSystem.PullSys)
    requires Pulled(h, store, db, actions, end)
    ensures end.store == store && end.client.committed == PullSystem.PullOverlay(h, store, db)
    ensures var shipment := PullSystem.Shipment(h, store, db, 1, MaxPage(store));
            end.client.phase == Synced(Wrap64(|shipment|), Wrap64(PullSystem.TotalSize(shipment)))
  {
    Pull.Exact(h, store, db, actions);
  }

  /** No two different pages with the same number and the same hash are in play. */
  ghost predicate VersionsToldApart(h: Hash, store0: Store, a: LocalDb, b: LocalDb) {
    && (forall k | HasPage(a, k) && k in store0 && store0[k].hash == HashAt(h, a, k) :: store0[k].data == PageAt(a, k))
    && (forall k | HasPage(a, k) && HasPage(b, k) && HashAt(h, b, k) == HashAt(h, a, k) :: PageAt(b, k) == PageAt(a, k))
  }

  lemma {:induction false} OverlaysChain(h: Hash, store0: Store, a: LocalDb, b: LocalDb, k: nat)
    requires VersionsToldApart(h, store0, a, b)
    ensures var mine := PullSystem.PullOverlay(h, PushSystem.Overlay(h, store0, a), b);
            && (HasPage(a, k) ==> k in mine && mine[k] == PageAt(a, k))
            && (k in mine ==> HasPage(a, k) || HasPage(b, k) || (k >= 1 && k in store0))
  {
    if HasPage(a, k) {
      var store := PushSystem.Overlay(h, store0, a);
      assert k in store && store[k] == Page(PageAt(a, k), HashAt(h, a, k)) by {
        assert k in PushSystem.Differing(h, store0, a) <==> PushSystem.Differs(h, store0, a, k);
      }
    }
  }

  lemma {:induction false} SamePages(db: LocalDb, pages: map<nat, Bytes>)
    requires forall k :: k in pages <==> HasPage(db, k)
    requires forall k | HasPage(db, k) :: pages[k] == PageAt(db, k)
    ensures pages == PagesOf(db)
  {
  }

  lemma {:induction false} OverlaysAgree(h: Hash, store0: Store, a: LocalDb, b: LocalDb)
    requires VersionsToldApart(h, store0, a, b)
    ensures var mine := PullSystem.PullOverlay(h, PushSystem.Overlay(h, store0, a), b);
            && (forall k | HasPage(a, k) :: k in mine && mine[k] == PageAt(a, k))
            && ((forall k | k in store0 && k >= 1 :: HasPage(a, k)) && |b| <= |a| ==> mine == PagesOf(a))
  {
    hide PullSystem.PullOverlay, PushSystem.Overlay, VersionsToldApart, PagesOf, PageAt;
    var mine := PullSystem.PullOverlay(h, PushSystem.Overlay(h, store0, a), b);
    forall k: nat
      ensures HasPage(a, k) ==> k in mine && mine[k] == PageAt(a, k)
      ensures k in mine ==> HasPage(a, k) || HasPage(b, k) || (k >= 1 && k in store0)
    {
      OverlaysChain(h, store0, a, b, k);
    }
    if (forall k | k in store0 && k >= 1 :: HasPage(a, k)) && |b| <= |a| {
      SamePages(a, mine);
    }
  }

  /** Push `a`, pull into `b`: what `a` holds arrives.  Pages the server or `b` had besides
      those of `a` stay; `b` is exactly `a` when there are none. */
  lemma {:induction false} ReplicasAgree(h: Hash, store0: Store, a: LocalDb, b: LocalDb,
                                         pushes: seq<PushSystem.Action>, store: Store,
                                         pulls: seq<PullSystem.Action>, end: PullSystem.PullSys)
    requires Pushed(h, store0, a, pushes, store) && Pulled(h, store, b, pulls, end)
    requires VersionsToldApart(h, store0, a, b)
    ensures forall k | HasPage(a, k) :: k in end.client.committed && end.client.committed[k] == PageAt(a, k)
    ensures (forall k | k in store0 && k >= 1 :: HasPage(a, k)) && |b| <= |a| ==> end.client.committed == PagesOf(a)
  {
    PushedStore(h, store0, a, pushes, store);
    PulledPages(h, store, b, pulls, end);
    OverlaysAgree(h, store0, a, b);
    hide Pushed, Pulled, PullSystem.PullOverlay, PushSystem.Overlay, VersionsToldApart, PagesOf;
  }

  /** The first replica of a new database: everything, and nothing else, whatever the hash. */
  lemma {:induction false} FirstReplica(h: Hash, a: LocalDb, pushes: seq<PushSystem.Action>, store: Store,
                                        pulls: seq<PullSystem.Action>, end: PullSystem.PullSys)
    requires Pushed(h, map[], a, pushes, store) && Pulled(h, store, [], pulls, end)
    ensures end.client.committed == PagesOf(a)
  {
    ReplicasAgree(h, map[], a, [], pushes, store, pulls, end);
  }

  /** A pull right after a push sends only the pages the client does not number at all. */
  lemma {:induction false} PullAfterPush(h: Hash, store0: Store, db: LocalDb, pushes: seq<PushSystem.Action>,
                                         store: Store)
    requires Pushed(h, store0, db, pushes, store)
    ensures forall k :: PullSystem.Sendable(h, store, db, k) <==> k >= 1 && k in store0 && !HasPage(db, k)
  {
    PushedStore(h, store0, db, pushes, store);
    hide Pushed;
  }

  /** So nothing is left to pull after a push exactly when the server numbered no page that the
      client does not: a push reconciles nothing in the other direction. */
  lemma {:induction false} NothingLeftToPull(h: Hash, store0: Store, db: LocalDb, pushes: seq<PushSystem.Action>, store: Store)
    requires Pushed(h, store0, db, pushes, store)
    ensures (forall k :: !PullSystem.Sendable(h, store, db, k)) <==> (forall k | k >= 1 && k in store0 :: HasPage(db, k))
  {
    PullAfterPush(h, store0, db, pushes, store);
    hide Pushed, PullSystem.Sendable;
    if k :| k >= 1 && k in store0 && !HasPage(db, k) {
      assert PullSystem.Sendable(h, store, db, k);
    }
  }

  /** Whenever the server has a page beyond the client's last, there is a push that completes
      and leaves the client without it. */
  lemma {:induction false} UnreconciledPush(h: Hash, store0: Store, db: LocalDb, k: nat)
    returns (pushes: seq<PushSystem.Action>, store: Store)
    requires k in store0 && k > |db|
    ensures Pushed(h, store0, db, pushes, store)
    ensures PullSystem.Sendable(h, store, db, k) && store[k] == store0[k]
  {
    pushes := Push.Completes(h, store0, db);
    store := PushSystem.After(h, db, PushSystem.Init(store0), pushes).store;
    PushedStore(h, store0, db, pushes, store);
    hide Pushed, PushSystem.IsRun, PushSystem.After;
  }

  /** After a pull the client's pages and the store's agree; what still differs is what the
      store does not have. */
  lemma {:induction false} PulledAgrees(h: Hash, store: Store, db: LocalDb, pulls: seq<PullSystem.Action>,
                                        end: PullSystem.PullSys, db': LocalDb)
    requires Intact(h, store) && Pulled(h, store, db, pulls, end) && PagesOf(db') == end.client.committed
    ensures forall k | HasPage(db', k) && k in store :: store[k].hash == HashAt(h, db', k)
    ensures forall k | k >= 1 && k in store :: HasPage(db', k)
    ensures forall k :: !PullSystem.Sendable(h, store, db', k)
    ensures forall k | HasPage(db', k) :: PushSystem.Differs(h, store, db', k) <==> k !in store
  {
    PulledPages(h, store, db, pulls, end);
    hide Pulled;
    assert PagesOf(db') == PullSystem.PullOverlay(h, store, db);
    forall k: nat | k >= 1 && k in store
      ensures HasPage(db', k) && store[k].hash == HashAt(h, db', k)
    {
      assert k in PagesOf(db');
      assert PagesOf(db')[k] == PageAt(db', k);
      if !PullSystem.Sendable(h, store, db, k) {
        assert PagesOf(db)[k] == PageAt(db, k);
      }
    }
  }

  /** Repeating a completed pull reports 0 pages and 0 bytes and changes neither side. */
  lemma {:induction false} RepeatIsIdle(h: Hash, store: Store, db: LocalDb, pulls: seq<PullSystem.Action>,
                                        end: PullSystem.PullSys, db': LocalDb, again: seq<PullSystem.Action>,
                                        last: PullSystem.PullSys)
    requires Intact(h, store) && Pulled(h, store, db, pulls, end) && PagesOf(db') == end.client.committed
    requires Pulled(h, end.store, db', again, last)
    ensures last.client.phase == Synced(0, 0)
    ensures last.client.committed == PagesOf(db') && last.store == store
  {
    PulledPages(h, store, db, pulls, end);
    PulledAgrees(h, store, db, pulls, end, db');
    PulledPages(h, store, db', again, last);
    NothingToShip(h, store, db', 1, MaxPage(store));
    hide Pulled, PullSystem.Shipment;
    NothingToOverlay(h, store, db');
  }

  lemma {:induction false} NothingToOverlay(h: Hash, store: Store, db: LocalDb)
    requires forall k :: !PullSystem.Sendable(h, store, db, k)
    ensures PullSystem.PullOverlay(h, store, db) == PagesOf(db)
  {
    hide PullSystem.Sendable, PagesOf;
  }

  lemma {:induction false} NothingToShip(h: Hash, store: Store, db: LocalDb, from: nat, last: nat)
    requires forall k :: !PullSystem.Sendable(h, store, db, k)
    ensures PullSystem.Shipment(h, store, db, from, last) == []
    decreases last + 1 - from
  {
    if from <= last {
      NothingToShip(h, store, db, from + 1, last);
    }
  }
}
