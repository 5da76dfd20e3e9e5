/**
 How far pruning reaches over a session. Removal stops at the first height that is not cached, so
 the bound rests on the cached heights having no gap up to the best block.
 */
module Pruning {
  import opened BlockTree
  import opened HeadersCache
  import opened Follower

  /** The best block is cached, and so is every height from the lowest cached one up to it. */
  ghost predicate Anchored(cached: Headers, best: HashAndNumber) {
    best.hash in cached && cached[best.hash].number == best.number && Gapless(Heights(cached), best.number)
  }

  /** `m` is at most one below the lowest of the heights. */
  ghost predicate Near(heights: set<nat>, m: nat) {
    exists k | k in heights :: k <= m + 1
  }

  /** Every header at or below the cleaning height of block `number` is gone. */
  ghost predicate Pruned(cached: Headers, number: nat) {
    forall h | h in cached :: cached[h].number > SaturatingSub(number, CACHE_HEADER_DEPTH)
  }

  /** The import of a header keeps the anchor when the header is near. */
  lemma AddKeepsGapless(heights: set<nat>, m: nat, n: nat)
    requires Gapless(heights, n) && Near(heights, m)
    ensures Gapless(heights + {m}, n)
  {
  }

  lemma AddHeights(cached: Headers, h: Hash, header: Header)
    requires h in cached ==> cached[h] == header
    ensures Heights(cached[h := header]) == Heights(cached) + {header.number}
  {
    var added := cached[h := header];
    forall k | k in Heights(cached)
      ensures k in Heights(added)
    {
      var g :| g in cached && cached[g].number == k;
      assert added[g].number == k;
    }
    assert added[h].number in Heights(added);
  }

  predicate Within(a: nat, k: nat, b: nat) {
    a <= k <= b
  }

  ghost function Span(a: nat, b: nat): set<nat> {
    set k: nat | a <= k <= b && Within(a, k, b)
  }

  ghost function HeightsOf(t: Headers, hashes: set<Hash>): set<nat>
    requires hashes <= t.Keys
  {
    set h | h in hashes :: t[h].number
  }

  /** The heights of a path's upper part are all those from `n` up to its tip. */
  lemma SuffixHeights(t: Headers, h: Hash, p: seq<Hash>, n: nat)
    requires h in t && IsPath(t, h, p) && Suffix(p, n) <= t.Keys
    ensures HeightsOf(t, Suffix(p, n)) == Span(n, t[h].number)
  {
    forall k | k in Span(n, t[h].number)
      ensures k in HeightsOf(t, Suffix(p, n))
    {
      assert p[k] in Suffix(p, n) && t[p[k]].number == k;
    }
  }

  lemma UnionHeights(t: Headers, a: set<Hash>, b: set<Hash>)
    requires a <= t.Keys && b <= t.Keys
    ensures HeightsOf(t, a + b) == HeightsOf(t, a) + HeightsOf(t, b)
  {
    forall k | k in HeightsOf(t, a)
      ensures k in HeightsOf(t, a + b)
    {
      var h :| h in a && t[h].number == k;
      assert h in a + b;
    }
    forall k | k in HeightsOf(t, b)
      ensures k in HeightsOf(t, a + b)
    {
      var h :| h in b && t[h].number == k;
      assert h in a + b;
    }
  }

  lemma FaithfulHeights(t: Headers, known: Headers)
    requires Faithful(known, t)
    ensures known.Keys <= t.Keys && Heights(known) == HeightsOf(t, known.Keys)
  {
    forall k | k in HeightsOf(t, known.Keys)
      ensures k in Heights(known)
    {
      var h :| h in known.Keys && t[h].number == k;
      assert known[h].number == k;
    }
  }

  /** The route adds all heights from the common block up to either tip. */
  lemma FilledHeights(t: Headers, cached: Headers, best: HashAndNumber, e: Import)
    requires WellFormed(t) && InTree(t, best) && Truthful(t, e) && Faithful(cached, t)
    ensures var c := Shared(t, best.hash, e.hash) - 1;
            && c <= best.number && c <= e.header.number
            && Heights(Filled(t, cached, best.hash, e))
               == Heights(cached) + Span(c, best.number) + Span(c, e.header.number)
  {
    var c, filled := Shared(t, best.hash, e.hash) - 1, Filled(t, cached, best.hash, e);
    var old', new' := Suffix(Path(t, best.hash), c), Suffix(Path(t, e.hash), c);
    assert Path(t, e.hash)[e.header.number] in new';
    assert filled.Keys == cached.Keys + old' + new';
    assert old' <= RouteBlocks(t, best.hash, e.hash) && new' <= RouteBlocks(t, best.hash, e.hash);
    FaithfulHeights(t, cached);
    FaithfulHeights(t, filled);
    UnionHeights(t, cached.Keys + old', new');
    UnionHeights(t, cached.Keys, old');
    SuffixHeights(t, best.hash, Path(t, best.hash), c);
    SuffixHeights(t, e.hash, Path(t, e.hash), c);
  }

  /** Filling in every height from `c` to two tips leaves no gap below either. */
  lemma FillKeepsGapless(heights: set<nat>, c: nat, b: nat, x: nat)
    requires c <= b && c <= x && Gapless(heights, b)
    ensures Gapless(heights + Span(c, b) + Span(c, x), b)
    ensures Gapless(heights + Span(c, b) + Span(c, x), x)
  {
    var all := heights + Span(c, b) + Span(c, x);
    forall m, k | m in all && m <= k && (k <= b || k <= x)
      ensures k in all
    {
      if k <= b && m in heights {
        assert k in heights;
      }
    }
  }

  /** With one more height `m`, filling leaves no gap up to `n` exactly when `m` is joined to the rest. */
  lemma FillGaplessIff(heights: set<nat>, m: nat, c: nat, b: nat, x: nat, n: nat)
    requires c <= b && c <= x && n <= x && Gapless(heights, b)
    ensures Gapless(heights + {m} + Span(c, b) + Span(c, x), n) <==> Near(heights, m) || c <= m + 1 || n <= m
  {
    var all := heights + {m} + Span(c, b) + Span(c, x);
    if Near(heights, m) || c <= m + 1 || n <= m {
      forall a, k | a in all && a <= k <= n
        ensures k in all
      {
        if Near(heights, m) {
          var near :| near in heights && near <= m + 1;
        }
      }
    } else {
      assert m in all && m + 1 !in all;
    }
  }

  lemma PruneKeepsAnchor(cached: Headers, best: HashAndNumber, n: nat)
    requires Anchored(cached, best) && n < best.number
    ensures Anchored(WithoutRun(cached, n), best)
    ensures forall h | h in WithoutRun(cached, n) :: cached[h].number > n
  {
    var kept := WithoutRun(cached, n);
    PruneClearsIff(cached, n);
    forall m, k | m in Heights(kept) && m <= k <= best.number
      ensures k in Heights(kept)
    {
      var g :| g in kept && kept[g].number == m;
      assert cached[g].number in Heights(cached);
      assert k in Heights(cached);
      var h :| h in cached && cached[h].number == k;
      assert h in kept;
    }
  }

  /** After the route, the cache is anchored at the old best block and at the imported one. */
  lemma RouteKeepsAnchor(t: Headers, cached: Headers, best: HashAndNumber, e: Import)
    requires WellFormed(t) && InTree(t, best) && Truthful(t, e) && Faithful(cached, t)
    requires Anchored(cached, best)
    ensures Anchored(Filled(t, cached, best.hash, e), best)
    ensures Anchored(Filled(t, cached, best.hash, e), HashAndNumber(e.hash, e.header.number))
  {
    var c, filled := Shared(t, best.hash, e.hash) - 1, Filled(t, cached, best.hash, e);
    assert filled[best.hash].number == best.number && filled[e.hash].number == e.header.number;
    FilledHeights(t, cached, best, e);
    FillKeepsGapless(Heights(cached), c, best.number, e.header.number);
  }

  /** One handled import keeps the anchor; if it is broadcast, the cache is pruned. */
  lemma StepKeepsAnchor(t: Headers, cached: Headers, best: HashAndNumber, e: Import)
    requires WellFormed(t) && InTree(t, best) && Truthful(t, e) && Faithful(cached, t)
    requires Anchored(cached, best)
    requires e.answer != Canonical ==> Near(Heights(cached), e.header.number)
    ensures Anchored(CacheStep(t, cached, best.hash, e), Moved(best, e, Message(t, best.hash, e)))
    ensures Message(t, best.hash, e).Some? ==> Pruned(CacheStep(t, cached, best.hash, e), e.header.number)
  {
    if e.answer != Canonical {
      AddKeepsGapless(Heights(cached), e.header.number, best.number);
      AddHeights(cached, e.hash, e.header);
    } else {
      RouteKeepsAnchor(t, cached, best, e);
      if Message(t, best.hash, e).Some? {
        PruneKeepsAnchor(Filled(t, cached, best.hash, e), HashAndNumber(e.hash, e.header.number),
                         SaturatingSub(e.header.number, CACHE_HEADER_DEPTH));
      }
    }
  }

  /** No import of the run that is off the canonical chain is more than one below the lowest cached height. */
  ghost predicate NearForks(t: Headers, cached: Headers, start: HashAndNumber, events: seq<Import>)
    requires WellFormed(t) && InTree(t, start) && Faithful(cached, t) && AllTruthful(t, events)
  {
    events == [] ||
    var before, e := events[..|events| - 1], events[|events| - 1];
    && NearForks(t, cached, start, before)
    && (e.answer != Canonical ==> Near(Heights(CacheAfter(t, cached, start, before)), e.header.number))
  }

  /**
   After the run the best block is cached, without a gap below it, and if the last import was
   broadcast nothing is cached at or below its cleaning height.
   */
  ghost predicate Bounded(t: Headers, cached: Headers, start: HashAndNumber, events: seq<Import>)
    requires WellFormed(t) && InTree(t, start) && Faithful(cached, t) && AllTruthful(t, events)
  {
    var best, known := Listen(t, start, events).best, CacheAfter(t, cached, start, events);
    && Anchored(known, best)
    && (events != []
        && Message(t, Listen(t, start, events[..|events| - 1]).best.hash, events[|events| - 1]).Some?
        ==> Pruned(known, best.number))
  }

  /**
   Over every such run the best block stays cached, whatever was refetched and however far down a
   canonical import moved it, and right after a broadcast nothing is cached at or below its cleaning height.
   */
  lemma {:induction false} PruningBound(t: Headers, cached: Headers, start: HashAndNumber, events: seq<Import>)
    requires WellFormed(t) && InTree(t, start) && Faithful(cached, t) && AllTruthful(t, events)
    requires Anchored(cached, start) && NearForks(t, cached, start, events)
    ensures Bounded(t, cached, start, events)
  {
    if events != [] {
      var before, e := events[..|events| - 1], events[|events| - 1];
      PruningBound(t, cached, start, before);
      StepKeepsAnchor(t, CacheAfter(t, cached, start, before), Listen(t, start, before).best, e);
    }
  }

  /** Loading an empty cache from one chain anchors it at the latest block. */
  lemma LoadAnchors(t: Headers, latest: HashAndNumber, canonical: map<nat, Hash>, first: nat, known: Headers)
    requires WellFormed(t) && InTree(t, latest) && Faithful(known, t) && first <= latest.number
    requires forall n | first <= n <= latest.number :: n in canonical && canonical[n] == Path(t, latest.hash)[n]
    requires known.Keys == CanonicalBetween(canonical, first, latest.number + 1)
    ensures Anchored(known, latest)
  {
    assert canonical[latest.number] in known;
    forall m, k | m in Heights(known) && m <= k <= latest.number
      ensures k in Heights(known)
    {
      var g :| g in known && known[g].number == m;
      assert first <= k;
      assert canonical[k] in known;
      assert known[canonical[k]].number == k;
    }
  }

  /**
   The exact condition, for any cache: a broadcast leaves nothing at or below its cleaning height if
   and only if the cached heights, with those of the route, have no gap up to there.
   */
  lemma PrunedIff(t: Headers, cached: Headers, best: HashAndNumber, e: Import)
    requires WellFormed(t) && InTree(t, best) && Faithful(cached, t) && Truthful(t, e)
    requires Message(t, best.hash, e).Some?
    ensures var c := Shared(t, best.hash, e.hash) - 1;
            && c <= best.number && c <= e.header.number
            && (Pruned(CacheStep(t, cached, best.hash, e), e.header.number) <==>
                Gapless(Heights(cached) + Span(c, best.number) + Span(c, e.header.number),
                        SaturatingSub(e.header.number, CACHE_HEADER_DEPTH)))
  {
    FilledHeights(t, cached, best, e);
    PruneClearsIff(Filled(t, cached, best.hash, e), SaturatingSub(e.header.number, CACHE_HEADER_DEPTH));
  }

  /**
   One header imported from below an anchored cache is cleared by the next broadcast exactly when it
   is near, or the route comes down to it, or it is not below the cleaning height.
   */
  lemma FarImportLeaksIff(t: Headers, cached: Headers, best: HashAndNumber, fork: Import, e: Import)
    requires WellFormed(t) && InTree(t, best) && Faithful(cached, t) && Truthful(t, fork) && Truthful(t, e)
    requires Anchored(cached, best)
    requires fork.answer == Fork && Message(t, best.hash, e).Some?
    ensures var c := Shared(t, best.hash, e.hash) - 1;
            var m := fork.header.number;
            Pruned(CacheStep(t, CacheStep(t, cached, best.hash, fork), best.hash, e), e.header.number) <==>
            (Near(Heights(cached), m) || c <= m + 1 || SaturatingSub(e.header.number, CACHE_HEADER_DEPTH) <= m)
  {
    var added := cached[fork.hash := fork.header];
    var c, n := Shared(t, best.hash, e.hash) - 1, SaturatingSub(e.header.number, CACHE_HEADER_DEPTH);
    PrunedIff(t, added, best, e);
    AddHeights(cached, fork.hash, fork.header);
    FillGaplessIff(Heights(cached), fork.header.number, c, best.number, e.header.number, n);
  }

  /* ---------- What a reload leaves ---------- */

  /** The heights of a cache after a reload: those it had, and the loaded ones. */
  lemma ReloadedHeights(t: Headers, cached: Headers, canonical: map<nat, Hash>, rpc: Headers, first: nat, last: nat,
                        known: Headers)
    requires Faithful(cached, t) && Faithful(known, t) && TruthfulChain(t, canonical, rpc)
    requires forall n | first <= n <= last :: n in canonical
    requires known.Keys == cached.Keys + CanonicalBetween(canonical, first, last + 1)
    ensures Heights(known) == Heights(cached) + Span(first, last)
  {
    var loaded := CanonicalBetween(canonical, first, last + 1);
    FaithfulHeights(t, cached);
    FaithfulHeights(t, known);
    UnionHeights(t, cached.Keys, loaded);
    forall k | k in Span(first, last)
      ensures k in HeightsOf(t, loaded)
    {
      assert canonical[k] in loaded;
    }
    assert HeightsOf(t, loaded) == Span(first, last);
  }

  /** Heights up to `top`, loaded ones, and a route: no gap up to `n` exactly when the first two are joined. */
  lemma ReloadGaplessIff(heights: set<nat>, top: nat, first: nat, last: nat, c: nat, x: nat, n: nat)
    requires top in heights && Gapless(heights, top) && forall k | k in heights :: k <= top
    requires first <= last && c <= last && c <= x && n <= x
    ensures Gapless(heights + Span(first, last) + Span(c, last) + Span(c, x), n)
       <==> first <= top + 1 || c <= top + 1 || n <= top
  {
    var all := heights + Span(first, last) + Span(c, last) + Span(c, x);
    if first <= top + 1 || c <= top + 1 || n <= top {
      forall a, k | a in all && a <= k <= n
        ensures k in all
      {
        if k <= last && first <= k {
          assert k in Span(first, last);
        } else if c <= k {
          assert k in Span(c, x);
        }
      }
    } else {
      assert top in all && top + 1 !in all;
    }
  }

  lemma PrunedAfterReloadIff(t: Headers, heights: set<nat>, top: nat, first: nat, latest: HashAndNumber,
                             known: Headers, e: Import)
    requires WellFormed(t) && InTree(t, latest) && Faithful(known, t) && Truthful(t, e)
    requires top in heights && Gapless(heights, top) && forall k | k in heights :: k <= top
    requires first <= latest.number && Heights(known) == heights + Span(first, latest.number)
    requires Message(t, latest.hash, e).Some?
    ensures Pruned(CacheStep(t, known, latest.hash, e), e.header.number) <==>
            (|| first <= top + 1
             || Shared(t, latest.hash, e.hash) - 1 <= top + 1
             || SaturatingSub(e.header.number, CACHE_HEADER_DEPTH) <= top)
  {
    var c, n := Shared(t, latest.hash, e.hash) - 1, SaturatingSub(e.header.number, CACHE_HEADER_DEPTH);
    var all := heights + Span(first, latest.number) + Span(c, latest.number) + Span(c, e.header.number);
    var pruned := Pruned(CacheStep(t, known, latest.hash, e), e.header.number);
    assert c <= latest.number && c <= e.header.number && (pruned <==> Gapless(all, n)) by {
      PrunedIff(t, known, latest, e);
    }
    ReloadGaplessIff(heights, top, first, latest.number, c, e.header.number, n);
  }

  /**
   After a reload, the first broadcast clears what an earlier session left, up to height `top`,
   exactly when the loaded headers start right above it at the latest, or the route comes down to
   it, or the cleaning height does not go above it. So a reload more than a hundred and one blocks
   above `top` leaves a gap, and the headers below the gap stay.
   */
  lemma ReloadLeaksIff(t: Headers, cached: Headers, top: nat, latest: HashAndNumber, canonical: map<nat, Hash>,
                       rpc: Headers, known: Headers, e: Import)
    requires WellFormed(t) && InTree(t, latest) && Faithful(cached, t) && Faithful(known, t) && Truthful(t, e)
    requires TruthfulChain(t, canonical, rpc)
    requires top in Heights(cached) && Gapless(Heights(cached), top) && forall k | k in Heights(cached) :: k <= top
    requires forall n | SaturatingSub(latest.number, CACHE_HEADER_DEPTH) <= n <= latest.number :: n in canonical
    requires known.Keys == cached.Keys
             + CanonicalBetween(canonical, SaturatingSub(latest.number, CACHE_HEADER_DEPTH), latest.number + 1)
    requires Message(t, latest.hash, e).Some?
    ensures top + 101 < latest.number ==> top + 1 !in Heights(known)
    ensures Pruned(CacheStep(t, known, latest.hash, e), e.header.number) <==>
            (|| SaturatingSub(latest.number, CACHE_HEADER_DEPTH) <= top + 1
             || Shared(t, latest.hash, e.hash) - 1 <= top + 1
             || SaturatingSub(e.header.number, CACHE_HEADER_DEPTH) <= top)
  {
    var first := SaturatingSub(latest.number, CACHE_HEADER_DEPTH);
    ReloadedHeights(t, cached, canonical, rpc, first, latest.number, known);
    PrunedAfterReloadIff(t, Heights(cached), top, first, latest, known, e);
  }

  /* ---------- What has leaked stays ---------- */

  /**
   An import spares the gap at height `gap` above a header at height `low`: it is not of that height,
   its route stays above the gap, and its cleaning height is not between the two.
   */
  ghost predicate SparesGap(t: Headers, best: Hash, e: Import, low: nat, gap: nat)
    requires WellFormed(t) && best in t && Truthful(t, e)
  {
    var n := SaturatingSub(e.header.number, CACHE_HEADER_DEPTH);
    && (e.answer != Canonical ==> e.header.number != gap)
    && (e.answer == Canonical ==> gap < Shared(t, best, e.hash) - 1)
    && (Message(t, best, e).Some? ==> n < low || gap <= n)
  }

  /** One such import leaves the header cached and the gap open; if it cleans above the gap, the bound fails. */
  lemma StaleStep(t: Headers, cached: Headers, best: HashAndNumber, e: Import, stale: Hash, gap: nat)
    requires WellFormed(t) && InTree(t, best) && Faithful(cached, t) && Truthful(t, e)
    requires stale in cached && cached[stale].number < gap && gap !in Heights(cached)
    requires SparesGap(t, best.hash, e, cached[stale].number, gap)
    ensures stale in CacheStep(t, cached, best.hash, e)
    ensures gap !in Heights(CacheStep(t, cached, best.hash, e))
    ensures Message(t, best.hash, e).Some? && gap <= SaturatingSub(e.header.number, CACHE_HEADER_DEPTH) ==>
              !Pruned(CacheStep(t, cached, best.hash, e), e.header.number)
  {
    var after := CacheStep(t, cached, best.hash, e);
    if e.answer != Canonical {
      AddHeights(cached, e.hash, e.header);
    } else {
      FilledHeights(t, cached, best, e);
      assert gap !in Heights(Filled(t, cached, best.hash, e));
    }
    assert after[stale].number < gap;
  }

  /** Every import of the run spares the gap. */
  ghost predicate AllSpareGap(t: Headers, start: HashAndNumber, events: seq<Import>, low: nat, gap: nat)
    requires WellFormed(t) && InTree(t, start) && AllTruthful(t, events)
  {
    events == [] ||
    var before := events[..|events| - 1];
    && AllSpareGap(t, start, before, low, gap)
    && SparesGap(t, Listen(t, start, before).best.hash, events[|events| - 1], low, gap)
  }

  /** What has leaked below a gap stays cached, and the gap open, over every run that spares the gap. */
  lemma {:induction false} StaleBelowGapStays(t: Headers, cached: Headers, start: HashAndNumber, events: seq<Import>,
                                             stale: Hash, gap: nat)
    requires WellFormed(t) && InTree(t, start) && Faithful(cached, t) && AllTruthful(t, events)
    requires stale in cached && cached[stale].number < gap && gap !in Heights(cached)
    requires AllSpareGap(t, start, events, cached[stale].number, gap)
    ensures stale in CacheAfter(t, cached, start, events)
    ensures gap !in Heights(CacheAfter(t, cached, start, events))
  {
    if events != [] {
      var before, e := events[..|events| - 1], events[|events| - 1];
      StaleBelowGapStays(t, cached, start, before, stale, gap);
      StaleStep(t, CacheAfter(t, cached, start, before), Listen(t, start, before).best, e, stale, gap);
    }
  }

  /** A block shares its parent's whole path. */
  lemma ExtensionShares(t: Headers, h: Hash)
    requires WellFormed(t) && h in t && t[h].number > 0
    ensures t[h].parentHash in t && Shared(t, t[h].parentHash, h) == t[h].number
    ensures Announcement(t, t[h].parentHash, h).Some?
  {
    assert Linked(t, h);
    var p, q := Path(t, t[h].parentHash), Path(t, h);
    assert q == p + [h];
    assert forall i | 0 <= i < |p| :: p[i] == q[i];
  }
}
