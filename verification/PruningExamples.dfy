/**
 Runs of the follower in which pruning leaves headers behind: a fork imported from far below the
 cache, and a reload far above what an earlier session left. The node answers every query.
 */
module PruningExamples {
  import opened Wrappers
  import opened BlockTree
  import opened HeadersCache
  import opened Follower
  import opened Pruning
  import opened Sessions

  /* ---------- Far forks in general ---------- */

  /**
   An anchored cache, a fork header more than one below it, and a child of the best block that becomes
   best with a cleaning height above the fork header.
   */
  ghost predicate FarFork(t: Headers, cached: Headers, best: HashAndNumber, fork: Import, e: Import) {
    && WellFormed(t) && InTree(t, best) && Faithful(cached, t) && Truthful(t, fork) && Truthful(t, e)
    && Anchored(cached, best) && !Near(Heights(cached), fork.header.number)
    && fork.answer == Fork && e.answer == Canonical
    && e.header.number == best.number + 1 && e.header.parentHash == best.hash
    && fork.header.number < SaturatingSub(e.header.number, CACHE_HEADER_DEPTH)
  }

  /** Whenever this happens the bound fails. */
  lemma FarForkLeaks(t: Headers, cached: Headers, best: HashAndNumber, fork: Import, e: Import)
    requires FarFork(t, cached, best, fork, e)
    ensures Message(t, best.hash, e).Some?
    ensures !Pruned(CacheStep(t, CacheStep(t, cached, best.hash, fork), best.hash, e), e.header.number)
  {
    ExtensionShares(t, e.hash);
    FarImportLeaksIff(t, cached, best, fork, e);
  }

  /* ---------- Sessions with a node that answers everything ---------- */

  /** An import handled by a node that serves the whole tree. */
  function Served(t: Headers, h: Hash, answer: Answer): Import
    requires h in t
  {
    Import(h, t[h], answer, t, MissingBlock)
  }

  ghost predicate FullyServed(t: Headers, events: seq<Import>) {
    forall i | 0 <= i < |events| :: events[i].answer != Unavailable && events[i].rpc.Keys == t.Keys
  }

  /** With such a node a session handles all its imports. */
  lemma HandlesAll(t: Headers, s: Session, before: Headers, run: Run, after: Headers)
    requires WellFormed(t) && TruthfulSession(t, s) && Faithful(before, t)
    requires Ran(t, s, before, run, after) && FullyServed(t, Imports(s))
    ensures run.handled == |Imports(s)| && run.error == s.ending
    ensures after == CacheAfter(t, Loaded(t, before, s), Latest(s), Imports(s))
    ensures run.best == Listen(t, Latest(s), Imports(s)).best
  {
    var events, n := Imports(s), run.handled;
    FullNodeAnswersAll(t, Loaded(t, before, s), Latest(s), events);
    assert n == |events|;
    assert events[..n] == events;
  }

  lemma AfterOne(t: Headers, cached: Headers, start: HashAndNumber, e: Import)
    requires WellFormed(t) && InTree(t, start) && Faithful(cached, t) && Truthful(t, e)
    ensures CacheAfter(t, cached, start, [e]) == CacheStep(t, cached, start.hash, e)
    ensures Listen(t, start, [e]) == ListenStep(t, Listener(start, []), e)
  {
    assert [e][..0] == [];
    assert Listen(t, start, []) == Listener(start, []);
    assert CacheAfter(t, cached, start, []) == cached;
  }

  lemma AfterForkAndOne(t: Headers, cached: Headers, start: HashAndNumber, fork: Import, e: Import)
    requires WellFormed(t) && InTree(t, start) && Faithful(cached, t) && Truthful(t, fork) && Truthful(t, e)
    requires fork.answer == Fork
    ensures CacheAfter(t, cached, start, [fork, e])
         == CacheStep(t, CacheStep(t, cached, start.hash, fork), start.hash, e)
    ensures Listen(t, start, [fork, e]) == ListenStep(t, Listener(start, []), e)
  {
    assert [fork, e][..1] == [fork];
    AfterOne(t, cached, start, fork);
  }

  /** A session from an empty cache that sees a far fork and then a new best block. */
  ghost predicate SeesFarFork(t: Headers, s: Session, fork: Import, e: Import) {
    && WellFormed(t) && TruthfulSession(t, s) && Loadable(s)
    && Imports(s) == [fork, e] && FullyServed(t, Imports(s))
    && FarFork(t, Loaded(t, map[], s), Latest(s), fork, e)
  }

  lemma SessionLeaksFork(t: Headers, s: Session, run: Run, after: Headers, fork: Import, e: Import)
    requires SeesFarFork(t, s, fork, e) && Ran(t, s, map[], run, after)
    ensures run.best == HashAndNumber(e.hash, e.header.number)
    ensures !Pruned(after, run.best.number)
  {
    HandlesAll(t, s, map[], run, after);
    AfterForkAndOne(t, Loaded(t, map[], s), Latest(s), fork, e);
    FarForkLeaks(t, Loaded(t, map[], s), Latest(s), fork, e);
  }

  /** Every such session leaves the fork cached. */
  method RunFarFork(hashOf: Header -> Hash, s: Session, ghost t: Headers, ghost fork: Import, ghost e: Import)
    returns (cache: HeadersMetadataCache, run: Run)
    requires ContentAddressed(t, hashOf) && SeesFarFork(t, s, fork, e)
    ensures run.best == HashAndNumber(e.hash, e.header.number)
    ensures !Pruned(cache.blockHeaderData, run.best.number)
  {
    var r;
    cache, r := FirstSession(hashOf, s, t);
    run := r.value;
    SessionLeaksFork(t, s, run, cache.blockHeaderData, fork, e);
  }

  /** A session that starts far above the cache an earlier one left, up to height `top`, and sees a child of its block. */
  ghost predicate StartsFarAbove(t: Headers, s: Session, cached: Headers, top: nat, e: Import) {
    && WellFormed(t) && TruthfulSession(t, s) && Loadable(s) && Faithful(cached, t)
    && Imports(s) == [e] && FullyServed(t, Imports(s)) && Truthful(t, e) && InTree(t, Latest(s))
    && e.answer == Canonical && e.header.number == Latest(s).number + 1 && e.header.parentHash == Latest(s).hash
    && top in Heights(cached) && Gapless(Heights(cached), top) && (forall k | k in Heights(cached) :: k <= top)
    && top + 101 < Latest(s).number
  }

  lemma ReloadedLeaksOld(t: Headers, s: Session, cached: Headers, top: nat, e: Import, known: Headers)
    requires StartsFarAbove(t, s, cached, top, e) && known == Loaded(t, cached, s)
    ensures Message(t, Latest(s).hash, e).Some?
    ensures !Pruned(CacheStep(t, known, Latest(s).hash, e), e.header.number)
  {
    ExtensionShares(t, e.hash);
    ReloadLeaksIff(t, cached, top, Latest(s), s.canonical, s.rpc, known, e);
  }

  /** Such a session does not clear that cache. */
  lemma SessionLeaksOld(t: Headers, s: Session, cached: Headers, top: nat, e: Import, run: Run, after: Headers)
    requires StartsFarAbove(t, s, cached, top, e) && Ran(t, s, cached, run, after)
    ensures run.best == HashAndNumber(e.hash, e.header.number)
    ensures !Pruned(after, run.best.number)
  {
    var known := Loaded(t, cached, s);
    HandlesAll(t, s, cached, run, after);
    AfterOne(t, known, Latest(s), e);
    ReloadedLeaksOld(t, s, cached, top, e, known);
  }

  /* ---------- Chains whose hashes are their heights ---------- */

  function LineHeader(k: nat): Header {
    Header(SaturatingSub(k, 1), k, 0, 0, [])
  }

  function Line(n: nat): (t: Headers)
    ensures forall k: nat :: k in t <==> k <= n
    ensures forall k | k in t :: t[k] == LineHeader(k)
  {
    map k: nat | 0 <= k <= n && Within(0, k, n) :: LineHeader(k)
  }

  const LineHash: Header -> Hash := (h: Header) => h.number

  lemma LineIsTree(n: nat)
    ensures WellFormed(Line(n)) && ContentAddressed(Line(n), LineHash)
  {
    assert forall k | k in Line(n) :: Linked(Line(n), k);
  }

  /** The canonical hashes of a line. */
  function CanonicalLine(n: nat): (canonical: map<nat, Hash>)
    ensures forall k: nat :: k in canonical <==> k <= n
    ensures forall k | k in canonical :: canonical[k] == k
  {
    map k: nat | 0 <= k <= n && Within(0, k, n) :: k
  }

  /** A line up to `b + 1` with one side block at height `m`. */
  function Forked(b: nat, m: nat): (t: Headers)
    requires 1 <= m <= b
    ensures forall k: nat | k <= b + 1 :: k in t && t[k] == LineHeader(k)
    ensures b + 2 in t && t[b + 2] == Header(m - 1, m, 0, 0, [1])
    ensures forall k | k in t :: k <= b + 2
  {
    Line(b + 1)[b + 2 := Header(m - 1, m, 0, 0, [1])]
  }

  function ForkedHash(b: nat): Header -> Hash {
    (h: Header) => if h.digest == [] then h.number else b + 2
  }

  lemma ForkedIsTree(b: nat, m: nat)
    requires 1 <= m <= b
    ensures WellFormed(Forked(b, m))
    ensures ContentAddressed(Forked(b, m), ForkedHash(b))
  {
    assert forall k | k in Forked(b, m) :: Linked(Forked(b, m), k);
  }

  lemma HeightsAreHashes(cached: Headers)
    requires forall k | k in cached :: cached[k].number == k
    ensures Heights(cached) == cached.Keys
  {
    forall k | k in cached
      ensures k in Heights(cached)
    {
      assert cached[k].number == k;
    }
  }

  lemma SpanIsGapless(a: nat, b: nat)
    ensures Gapless(Span(a, b), b)
  {
  }

  lemma CanonicalLineSpan(n: nat, first: nat, last: nat)
    requires last <= n
    ensures CanonicalBetween(CanonicalLine(n), first, last + 1) == Span(first, last)
  {
    forall k | k in Span(first, last)
      ensures k in CanonicalBetween(CanonicalLine(n), first, last + 1)
    {
      assert CanonicalLine(n)[k] == k;
    }
  }

  /** A session on a line loads the last hundred and one heights. */
  lemma LoadsLine(s: Session, n: nat, last: nat)
    requires Starts(s) && s.canonical == CanonicalLine(n) && Latest(s) == HashAndNumber(last, last) && last <= n
    ensures LoadedHashes(s) == Span(SaturatingSub(last, CACHE_HEADER_DEPTH), last)
  {
    CanonicalLineSpan(n, SaturatingSub(last, CACHE_HEADER_DEPTH), last);
  }

  /** A cache loaded from a line holds the heights that were loaded and is anchored at the last one. */
  lemma LoadedLine(known: Headers, first: nat, last: nat)
    requires first <= last && known.Keys == Span(first, last)
    requires forall k | k in known :: known[k].number == k
    ensures Heights(known) == Span(first, last) && Anchored(known, HashAndNumber(last, last))
  {
    HeightsAreHashes(known);
    SpanIsGapless(first, last);
    assert last in Span(first, last);
  }

  /* ---------- A far fork ---------- */

  /** The session starts at block `b`, sees the side block as a fork, and then block `b + 1`. */
  function FarForkSession(b: nat, m: nat): Session
    requires 1 <= m <= b
  {
    var t := Forked(b, m);
    Session([Served(t, b, Canonical), Served(t, b + 2, Fork), Served(t, b + 1, Canonical)], MissingBlock,
            CanonicalLine(b + 1), t, MissingBlock)
  }

  lemma FarForkSessionStarts(b: nat, m: nat)
    requires 1 <= m <= b
    ensures var t, s := Forked(b, m), FarForkSession(b, m);
            && TruthfulSession(t, s) && Loadable(s)
            && Latest(s) == HashAndNumber(b, b)
            && Imports(s) == [Served(t, b + 2, Fork), Served(t, b + 1, Canonical)]
            && FullyServed(t, Imports(s))
  {
    var s := FarForkSession(b, m);
    assert s.subscription[0].answer == Canonical;
    assert ForksFirst(s.subscription) == 0;
  }

  lemma FarForkOfLine(b: nat, m: nat, t: Headers, known: Headers)
    requires 1 <= m && m + 101 < b && t == Forked(b, m) && WellFormed(t)
    requires Faithful(known, t) && known.Keys == Span(b - 100, b)
    ensures FarFork(t, known, HashAndNumber(b, b), Served(t, b + 2, Fork), Served(t, b + 1, Canonical))
  {
    forall k | k in known
      ensures known[k].number == k
    {
      assert k in Span(b - 100, b);
    }
    LoadedLine(known, b - 100, b);
  }

  /** That session sees a far fork, with headers that a hash function can tell apart. */
  lemma FarForkSessionSeesFarFork(b: nat, m: nat, t: Headers, s: Session, fork: Import, e: Import)
    requires 1 <= m && m + 101 < b && t == Forked(b, m) && s == FarForkSession(b, m)
    requires fork == Served(t, b + 2, Fork) && e == Served(t, b + 1, Canonical)
    ensures ContentAddressed(t, ForkedHash(b))
    ensures SeesFarFork(t, s, fork, e)
  {
    ForkedIsTree(b, m);
    FarForkSessionStarts(b, m);
    LoadsLine(s, b + 1, b);
    var known := Loaded(t, map[], s);
    assert FarFork(t, known, HashAndNumber(b, b), fork, e) by {
      FarForkOfLine(b, m, t, known);
    }
  }

  /**
   Say blocks 202 to 302 are loaded, a side block of height 5 is imported and then block 303. The side
   block stays cached although the cleaning height is 203.
   */
  method FarForkExample(b: nat, m: nat) returns (cache: HeadersMetadataCache, run: Run)
    requires 1 <= m && m + 101 < b
    ensures run.best == HashAndNumber(b + 1, b + 1)
    ensures !Pruned(cache.blockHeaderData, run.best.number)
  {
    var t, s := Forked(b, m), FarForkSession(b, m);
    ghost var fork, e := Served(t, b + 2, Fork), Served(t, b + 1, Canonical);
    FarForkSessionSeesFarFork(b, m, t, s, fork, e);
    cache, run := RunFarFork(ForkedHash(b), s, t, fork, e);
  }

  /* ---------- A reload ---------- */

  /** The first session loses its connection at block `a`; the second starts at block `b` and sees `b + 1`. */
  function ReloadSessions(a: nat, b: nat): seq<Session>
    requires a <= b
  {
    var t, canonical := Line(b + 1), CanonicalLine(b + 1);
    [Session([Served(t, a, Canonical)], Rpc, canonical, t, MissingBlock),
     Session([Served(t, b, Canonical), Served(t, b + 1, Canonical)], MissingBlock, canonical, t, MissingBlock)]
  }

  lemma ReloadSessionsStart(a: nat, b: nat)
    requires a <= b
    ensures var t, first, second := Line(b + 1), ReloadSessions(a, b)[0], ReloadSessions(a, b)[1];
            && AllTruthfulSessions(t, ReloadSessions(a, b))
            && Loadable(first) && Latest(first) == HashAndNumber(a, a) && Imports(first) == []
            && Loadable(second) && Latest(second) == HashAndNumber(b, b)
            && Imports(second) == [Served(t, b + 1, Canonical)]
  {
    var first, second := ReloadSessions(a, b)[0], ReloadSessions(a, b)[1];
    assert first.subscription[0].answer == Canonical && second.subscription[0].answer == Canonical;
    assert ForksFirst(first.subscription) == 0 && ForksFirst(second.subscription) == 0;
  }

  /** The first session leaves the headers it loaded. */
  lemma FirstLeaves(a: nat, b: nat, run: Run, after: Headers)
    requires a <= b && WellFormed(Line(b + 1))
    requires TruthfulSession(Line(b + 1), ReloadSessions(a, b)[0])
    requires Ran(Line(b + 1), ReloadSessions(a, b)[0], map[], run, after)
    requires Latest(ReloadSessions(a, b)[0]) == HashAndNumber(a, a) && Imports(ReloadSessions(a, b)[0]) == []
    ensures run.error == Rpc
    ensures Heights(after) == Span(SaturatingSub(a, CACHE_HEADER_DEPTH), a)
  {
    var t, s := Line(b + 1), ReloadSessions(a, b)[0];
    HandlesAll(t, s, map[], run, after);
    LoadsLine(s, b + 1, a);
    assert after == Loaded(t, map[], s);
    LoadedLine(after, SaturatingSub(a, CACHE_HEADER_DEPTH), a);
  }

  /** The second one starts far above them. */
  lemma SecondStartsFarAbove(a: nat, b: nat, t: Headers, s: Session, between: Headers)
    requires a + 101 < b && t == Line(b + 1) && WellFormed(t) && Faithful(between, t) && s == ReloadSessions(a, b)[1]
    requires Heights(between) == Span(SaturatingSub(a, CACHE_HEADER_DEPTH), a)
    ensures StartsFarAbove(t, s, between, a, Served(t, b + 1, Canonical))
  {
    ReloadSessionsStart(a, b);
    SpanIsGapless(SaturatingSub(a, CACHE_HEADER_DEPTH), a);
    assert a in Span(SaturatingSub(a, CACHE_HEADER_DEPTH), a);
  }

  /** The first session loses its connection, so both run. */
  lemma BothRun(a: nat, b: nat, t: Headers, sessions: seq<Session>, stop: Option<Error>, runs: seq<Run>,
                caches: seq<Headers>, last: Headers)
    requires a + 101 < b && t == Line(b + 1) && WellFormed(t) && sessions == ReloadSessions(a, b)
    requires AllTruthfulSessions(t, sessions) && AllRan(t, sessions, runs, caches, map[], last)
    requires ReasonToStop(sessions, runs, stop)
    ensures |runs| == 2 && Faithful(caches[1], t) && Ran(t, sessions[1], caches[1], runs[1], caches[2])
    ensures Heights(caches[1]) == Span(SaturatingSub(a, CACHE_HEADER_DEPTH), a)
  {
    ReloadSessionsStart(a, b);
    assert |runs| > 0;
    assert Ran(t, sessions[0], caches[0], runs[0], caches[1]);
    FirstLeaves(a, b, runs[0], caches[1]);
    assert |runs| == 2;
    assert Ran(t, sessions[1], caches[1], runs[1], caches[2]);
  }

  /** The second session follows the first and does not clear what the first has left. */
  lemma ReloadLeaves(a: nat, b: nat, t: Headers, sessions: seq<Session>, stop: Option<Error>, runs: seq<Run>,
                     caches: seq<Headers>, last: Headers)
    requires a + 101 < b && t == Line(b + 1) && WellFormed(t) && sessions == ReloadSessions(a, b)
    requires AllTruthfulSessions(t, sessions) && AllRan(t, sessions, runs, caches, map[], last)
    requires ReasonToStop(sessions, runs, stop)
    ensures |runs| == 2 && runs[1].best == HashAndNumber(b + 1, b + 1)
    ensures !Pruned(last, runs[1].best.number)
  {
    BothRun(a, b, t, sessions, stop, runs, caches, last);
    var e := Served(t, b + 1, Canonical);
    assert StartsFarAbove(t, sessions[1], caches[1], a, e) by {
      SecondStartsFarAbove(a, b, t, sessions[1], caches[1]);
    }
    SessionLeaksOld(t, sessions[1], caches[1], a, e, runs[1], caches[2]);
  }

  /**
   Say the first session leaves blocks 100 to 200, the second loads 400 to 500 and sees 501. Blocks 100
   to 200 stay cached although the cleaning height is 401.
   */
  method ReloadExample(a: nat, b: nat) returns (cache: HeadersMetadataCache, run: Run)
    requires a + 101 < b
    ensures run.best == HashAndNumber(b + 1, b + 1)
    ensures !Pruned(cache.blockHeaderData, run.best.number)
  {
    var t, sessions := Line(b + 1), ReloadSessions(a, b);
    LineIsTree(b + 1);
    ReloadSessionsStart(a, b);
    cache := new HeadersMetadataCache(LineHash);
    var stop, runs, caches := ListenForAllBlocks(cache, sessions, t);
    ReloadLeaves(a, b, t, sessions, stop, runs, caches, cache.blockHeaderData);
    run := runs[1];
  }
}
