/**
 Sessions: the follower loads its cache, listens until the session fails, and after a lost connection
 starts over with whatever the cache then holds.
 */
module Sessions {
  import opened Wrappers
  import opened BlockTree
  import opened HeadersCache
  import opened Follower
  import opened Pruning

  /**
   One connection: the imports of its subscription and how that ends, and the node's canonical hashes
   and headers while the cache is loaded and how a query then fails.
   */
  datatype Session = Session(
    subscription: seq<Import>,
    ending: NodeError,
    canonical: map<nat, Hash>,
    rpc: Headers,
    loadFailure: NodeError)

  /**
   What came of a session: the import it started from, best block and broadcasts, the number of imports
   handled after that one, the error at its end.
   */
  datatype Run = Run(first: nat, best: HashAndNumber, sink: seq<BlocksExt>, handled: nat, error: NodeError)

  /* ---------- Finding the first canonical block ---------- */

  /** The number of imports before the first one that is not a fork. */
  function ForksFirst(imports: seq<Import>): (n: nat)
    ensures n <= |imports|
    ensures forall i | 0 <= i < n :: imports[i].answer == Fork
    ensures n < |imports| ==> imports[n].answer != Fork
  {
    if imports == [] || imports[0].answer != Fork then 0 else 1 + ForksFirst(imports[1..])
  }

  /** There is a canonical block to start from, and the node serves its header. */
  predicate Starts(s: Session) {
    var n := ForksFirst(s.subscription);
    n < |s.subscription|
    && s.subscription[n].answer == Canonical && s.subscription[n].hash in s.subscription[n].rpc
  }

  /** The block a session starts from. */
  function Latest(s: Session): HashAndNumber
    requires Starts(s)
  {
    var first := s.subscription[ForksFirst(s.subscription)];
    HashAndNumber(first.hash, first.rpc[first.hash].number)
  }

  /** The imports that are left to listen to. */
  function Imports(s: Session): seq<Import>
    requires Starts(s)
  {
    s.subscription[ForksFirst(s.subscription) + 1..]
  }

  ghost predicate TruthfulSession(t: Headers, s: Session) {
    AllTruthful(t, s.subscription) && TruthfulChain(t, s.canonical, s.rpc)
  }

  lemma StartIsTruthful(t: Headers, s: Session)
    requires TruthfulSession(t, s) && Starts(s)
    ensures InTree(t, Latest(s)) && AllTruthful(t, Imports(s))
  {
    var n := ForksFirst(s.subscription);
    assert Truthful(t, s.subscription[n]);
    assert forall i | 0 <= i < |Imports(s)| :: Imports(s)[i] == s.subscription[n + 1 + i];
  }

  /** How a session fails that does not find its first block. */
  function StartFailure(s: Session): NodeError {
    var n := ForksFirst(s.subscription);
    if n == |s.subscription| then s.ending else s.subscription[n].failure
  }

  /** Import `i` is the first that is not a fork. */
  ghost predicate FirstNotFork(s: Session, i: nat) {
    && i <= |s.subscription|
    && (forall k | 0 <= k < i :: s.subscription[k].answer == Fork)
    && (i < |s.subscription| ==> s.subscription[i].answer != Fork)
  }

  /**
   The session starts from import `i`, with the number that the node's header for it says, and `left`
   is what follows.
   */
  ghost predicate StartsFrom(s: Session, i: nat, latest: HashAndNumber, left: seq<Import>) {
    && FirstNotFork(s, i) && i < |s.subscription|
    && s.subscription[i].answer == Canonical && s.subscription[i].hash in s.subscription[i].rpc
    && latest.hash == s.subscription[i].hash
    && latest.number == s.subscription[i].rpc[s.subscription[i].hash].number
    && left == s.subscription[i + 1..]
  }

  /** At import `i` the session fails: the subscription ended, or a query about that import was not answered. */
  ghost predicate FailsToStart(s: Session, i: nat, error: NodeError) {
    && FirstNotFork(s, i)
    && if i == |s.subscription| then error == s.ending
       else
         && error == s.subscription[i].failure
         && (s.subscription[i].answer == Unavailable || s.subscription[i].hash !in s.subscription[i].rpc)
  }

  /**
   Waits for the first canonical block and looks up its header. It fails as the first query does that
   is not answered, or as the subscription ends.
   */
  method AwaitLatest(s: Session) returns (r: Result<HashAndNumber>, i: nat)
    ensures r.Ok? <==> Starts(s)
    ensures r.Ok? ==> StartsFrom(s, i, r.value, Imports(s)) && r.value == Latest(s)
    ensures r.Err? ==> !r.error.MissingBlockHashFromCache? && FailsToStart(s, i, r.error) && r.error == StartFailure(s)
  {
    i := 0;
    while i < |s.subscription| && s.subscription[i].answer == Fork
      invariant i <= |s.subscription|
      invariant forall k | 0 <= k < i :: s.subscription[k].answer == Fork
    {
      i := i + 1;
    }
    assert i == ForksFirst(s.subscription);
    if i == |s.subscription| {
      return Err(s.ending), i;
    }
    var block := s.subscription[i];
    if block.answer == Unavailable || block.hash !in block.rpc {
      return Err(block.failure), i;
    }
    r := Ok(HashAndNumber(block.hash, block.rpc[block.hash].number));
  }

  /* ---------- One session ---------- */

  function FirstLoaded(s: Session): nat
    requires Starts(s)
  {
    SaturatingSub(Latest(s).number, CACHE_HEADER_DEPTH)
  }

  /** The session finds its first block, and the node serves every header that is loaded. */
  ghost predicate Loadable(s: Session) {
    && Starts(s)
    && forall n | FirstLoaded(s) <= n <= Latest(s).number :: n in s.canonical && s.canonical[n] in s.rpc
  }

  /** How a session fails that cannot load its cache. */
  function LoadFailure(s: Session): NodeError {
    if Starts(s) then s.loadFailure else StartFailure(s)
  }

  ghost function LoadedHashes(s: Session): set<Hash>
    requires Starts(s)
  {
    CanonicalBetween(s.canonical, FirstLoaded(s), Latest(s).number + 1)
  }

  /** The cache when the session starts to listen. */
  ghost function Loaded(t: Headers, cached: Headers, s: Session): (known: Headers)
    requires TruthfulSession(t, s) && Starts(s) && Faithful(cached, t)
    ensures Faithful(known, t)
    ensures known.Keys == cached.Keys + LoadedHashes(s)
  {
    map h | h in cached.Keys + LoadedHashes(s) :: t[h]
  }

  /** What is loaded: the canonical headers of the hundred heights below the first block, and of its own. */
  lemma LoadedAre(t: Headers, cached: Headers, s: Session, h: Hash)
    requires TruthfulSession(t, s) && Starts(s) && Faithful(cached, t)
    ensures h in Loaded(t, cached, s) <==>
            || h in cached
            || exists n | n in s.canonical && n <= Latest(s).number <= n + 100 :: s.canonical[n] == h
  {
  }

  lemma LoadableIff(s: Session)
    ensures Loadable(s) <==>
            && Starts(s)
            && forall n: nat | n <= Latest(s).number <= n + 100 :: n in s.canonical && s.canonical[n] in s.rpc
  {
  }

  lemma LoadedIs(t: Headers, cached: Headers, s: Session, known: Headers)
    requires TruthfulSession(t, s) && Starts(s) && Faithful(cached, t) && Faithful(known, t)
    requires known.Keys == cached.Keys + LoadedHashes(s)
    ensures known == Loaded(t, cached, s)
  {
  }

  /** The session was loaded and listened, from the cache `before` to the cache `after`. */
  ghost predicate Ran(t: Headers, s: Session, before: Headers, run: Run, after: Headers)
    requires WellFormed(t) && TruthfulSession(t, s) && Faithful(before, t)
  {
    && Loadable(s)
    && StartsFrom(s, run.first, Latest(s), Imports(s))
    && InTree(t, Latest(s)) && AllTruthful(t, Imports(s))
    && Listened(t, Loaded(t, before, s), Latest(s), Imports(s), s.ending, Listener(run.best, run.sink), run.handled,
                run.error, after)
  }

  /** Finds the first block and loads the cache. */
  method Start(cache: HeadersMetadataCache, session: Session, ghost t: Headers)
    returns (r: Result<HashAndNumber>, first: nat)
    requires ContentAddressed(t, cache.hashOf) && TruthfulSession(t, session)
    requires cache.Valid() && Faithful(cache.blockHeaderData, t)
    modifies cache
    ensures cache.Valid() && Faithful(cache.blockHeaderData, t)
    ensures r.Ok? <==> Loadable(session)
    ensures r.Err? ==> r.error == LoadFailure(session) && cache.blockHeaderData == old(cache.blockHeaderData)
    ensures r.Err? ==> if Starts(session) then r.error == session.loadFailure
                       else !r.error.MissingBlockHashFromCache? && FailsToStart(session, first, r.error)
    ensures r.Ok? ==> StartsFrom(session, first, r.value, Imports(session)) && r.value == Latest(session)
    ensures r.Ok? ==> cache.blockHeaderData == Loaded(t, old(cache.blockHeaderData), session)
  {
    ghost var before := cache.blockHeaderData;
    var awaited;
    awaited, first := AwaitLatest(session);
    if awaited.Err? {
      return Err(awaited.error), first;
    }
    var latest := awaited.value;
    r := LoadCache(cache, latest, session.canonical, session.rpc, session.loadFailure, t);
    if r.Ok? {
      LoadedIs(t, before, session, cache.blockHeaderData);
    }
  }

  /** One connection: start, then listen. */
  method RunSession(cache: HeadersMetadataCache, session: Session, ghost t: Headers) returns (r: Result<Run>)
    requires WellFormed(t) && ContentAddressed(t, cache.hashOf) && TruthfulSession(t, session)
    requires cache.Valid() && Faithful(cache.blockHeaderData, t)
    modifies cache
    ensures cache.Valid() && Faithful(cache.blockHeaderData, t)
    ensures r.Ok? <==> Loadable(session)
    ensures r.Err? ==> r.error == LoadFailure(session) && cache.blockHeaderData == old(cache.blockHeaderData)
    ensures r.Ok? ==> Ran(t, session, old(cache.blockHeaderData), r.value, cache.blockHeaderData)
  {
    var latest, first := Start(cache, session, t);
    if latest.Err? {
      return Err(latest.error);
    }
    StartIsTruthful(t, session);
    var error, best, sink, handled := ListenForBlocks(cache, latest.value, Imports(session), session.ending, t);
    r := Ok(Run(first, best, sink, handled, error));
  }

  /* ---------- The first session ---------- */

  /** The canonical hashes are those of one chain, the path of the first block. */
  ghost predicate OneChain(t: Headers, s: Session)
    requires WellFormed(t) && Starts(s) && InTree(t, Latest(s))
  {
    forall n | FirstLoaded(s) <= n <= Latest(s).number && n in s.canonical :: s.canonical[n] == Path(t, Latest(s).hash)[n]
  }

  /** In a session from an empty cache, as long as fork imports are near, the pruning bound holds after every import. */
  ghost predicate BoundedThroughout(t: Headers, s: Session, handled: nat)
    requires WellFormed(t) && TruthfulSession(t, s) && Starts(s) && InTree(t, Latest(s)) && AllTruthful(t, Imports(s))
    requires handled <= |Imports(s)|
  {
    var loaded := Loaded(t, map[], s);
    NearForks(t, loaded, Latest(s), Imports(s)[..handled]) ==>
    forall k | 0 <= k <= handled :: Bounded(t, loaded, Latest(s), Imports(s)[..k])
  }

  lemma {:induction false} NearForksPrefix(t: Headers, cached: Headers, start: HashAndNumber, events: seq<Import>, k: nat)
    requires WellFormed(t) && InTree(t, start) && Faithful(cached, t) && AllTruthful(t, events)
    requires NearForks(t, cached, start, events) && k <= |events|
    ensures NearForks(t, cached, start, events[..k])
  {
    if k == |events| {
      assert events[..k] == events;
    } else {
      var before := events[..|events| - 1];
      NearForksPrefix(t, cached, start, before, k);
      assert before[..k] == events[..k];
    }
  }

  lemma BoundedFromAnchor(t: Headers, loaded: Headers, start: HashAndNumber, events: seq<Import>, handled: nat, k: nat)
    requires WellFormed(t) && InTree(t, start) && Faithful(loaded, t) && AllTruthful(t, events)
    requires k <= handled <= |events| && Anchored(loaded, start) && NearForks(t, loaded, start, events[..handled])
    ensures Bounded(t, loaded, start, events[..k])
  {
    NearForksPrefix(t, loaded, start, events[..handled], k);
    assert events[..handled][..k] == events[..k];
    PruningBound(t, loaded, start, events[..k]);
  }

  /** From an empty cache loaded from one chain, the pruning bound holds all through the session. */
  lemma FirstSessionIsBounded(t: Headers, s: Session, handled: nat)
    requires WellFormed(t) && TruthfulSession(t, s) && Loadable(s) && InTree(t, Latest(s)) && AllTruthful(t, Imports(s))
    requires OneChain(t, s) && handled <= |Imports(s)|
    ensures BoundedThroughout(t, s, handled)
  {
    var loaded := Loaded(t, map[], s);
    if NearForks(t, loaded, Latest(s), Imports(s)[..handled]) {
      LoadAnchors(t, Latest(s), s.canonical, FirstLoaded(s), loaded);
      forall k | 0 <= k <= handled
        ensures Bounded(t, loaded, Latest(s), Imports(s)[..k])
      {
        BoundedFromAnchor(t, loaded, Latest(s), Imports(s), handled, k);
      }
    }
  }

  /** A follower that starts: an empty cache and one session, in which the pruning bound holds throughout. */
  method FirstSession(hashOf: Header -> Hash, session: Session, ghost t: Headers)
    returns (cache: HeadersMetadataCache, r: Result<Run>)
    requires WellFormed(t) && ContentAddressed(t, hashOf) && TruthfulSession(t, session)
    ensures fresh(cache) && cache.Valid() && Faithful(cache.blockHeaderData, t)
    ensures r.Ok? <==> Loadable(session)
    ensures r.Ok? ==> Ran(t, session, map[], r.value, cache.blockHeaderData)
    ensures r.Ok? && OneChain(t, session) ==> BoundedThroughout(t, session, r.value.handled)
  {
    cache := new HeadersMetadataCache(hashOf);
    r := RunSession(cache, session, t);
    if r.Ok? && OneChain(t, session) {
      FirstSessionIsBounded(t, session, r.value.handled);
    }
  }

  /* ---------- Reconnections ---------- */

  ghost predicate AllTruthfulSessions(t: Headers, sessions: seq<Session>) {
    forall i | 0 <= i < |sessions| :: TruthfulSession(t, sessions[i])
  }

  ghost predicate AllFaithful(t: Headers, caches: seq<Headers>) {
    forall i | 0 <= i < |caches| :: Faithful(caches[i], t)
  }

  /**
   The first sessions, as many as there are runs, ran one after the other on the caches in between,
   from the cache `first` to the cache `last`.
   */
  ghost predicate AllRan(t: Headers, sessions: seq<Session>, runs: seq<Run>, caches: seq<Headers>, first: Headers,
                         last: Headers)
    requires WellFormed(t) && AllTruthfulSessions(t, sessions)
  {
    && |runs| <= |sessions| && |caches| == |runs| + 1 && AllFaithful(t, caches)
    && caches[0] == first && caches[|runs|] == last
    && (forall i, j | 0 <= i < |runs| && j == i + 1 :: Ran(t, sessions[i], caches[i], runs[i], caches[j]))
  }

  lemma OneMoreRan(t: Headers, sessions: seq<Session>, runs: seq<Run>, caches: seq<Headers>, first: Headers,
                   last: Headers, run: Run, after: Headers)
    requires WellFormed(t) && AllTruthfulSessions(t, sessions) && AllRan(t, sessions, runs, caches, first, last)
    requires |runs| < |sessions| && Faithful(last, t) && Faithful(after, t)
    requires Ran(t, sessions[|runs|], last, run, after)
    ensures AllRan(t, sessions, runs + [run], caches + [after], first, after)
  {
    var caches' := caches + [after];
    forall i, j | 0 <= i < |runs| + 1 && j == i + 1
      ensures Ran(t, sessions[i], caches'[i], (runs + [run])[i], caches'[j])
    {
      if i < |runs| {
        assert Ran(t, sessions[i], caches[i], runs[i], caches[j]);
      }
    }
  }

  /** Every one of these runs ended with a lost connection. */
  ghost predicate AllDisconnected(runs: seq<Run>) {
    forall i | 0 <= i < |runs| :: runs[i].error == Rpc
  }

  /** Why the follower stopped: a session ended with another error, or the cache could not be loaded. */
  ghost predicate Stopped(sessions: seq<Session>, runs: seq<Run>, error: Error) {
    || (&& runs != [] && AllDisconnected(runs[..|runs| - 1])
        && runs[|runs| - 1].error == error && error != Rpc)
    || (&& |runs| < |sessions| && AllDisconnected(runs)
        && !Loadable(sessions[|runs|]) && error == LoadFailure(sessions[|runs|]))
  }

  /** One more run either leaves all disconnected or is why the follower stopped. */
  lemma OneMoreStops(sessions: seq<Session>, runs: seq<Run>, run: Run)
    requires AllDisconnected(runs)
    ensures if run.error == Rpc then AllDisconnected(runs + [run]) else Stopped(sessions, runs + [run], run.error)
  {
    assert (runs + [run])[..|runs|] == runs;
  }

  /** Without an error, all the sessions ran and the last lost its connection. */
  ghost predicate ReasonToStop(sessions: seq<Session>, runs: seq<Run>, stop: Option<Error>) {
    match stop
    case None => |runs| == |sessions| && AllDisconnected(runs)
    case Some(error) => Stopped(sessions, runs, error)
  }

  /**
   Sessions follow one another exactly as long as each ends with a lost connection and the next one
   can load its cache.
   */
  method ListenForAllBlocks(cache: HeadersMetadataCache, sessions: seq<Session>, ghost t: Headers)
    returns (stop: Option<Error>, runs: seq<Run>, ghost caches: seq<Headers>)
    requires WellFormed(t) && ContentAddressed(t, cache.hashOf) && AllTruthfulSessions(t, sessions)
    requires cache.Valid() && Faithful(cache.blockHeaderData, t)
    modifies cache
    ensures cache.Valid() && Faithful(cache.blockHeaderData, t)
    ensures AllRan(t, sessions, runs, caches, old(cache.blockHeaderData), cache.blockHeaderData)
    ensures ReasonToStop(sessions, runs, stop)
  {
    ghost var first := cache.blockHeaderData;
    runs, caches := [], [first];
    for i := 0 to |sessions|
      invariant cache.Valid() && Faithful(cache.blockHeaderData, t)
      invariant |runs| == i && AllDisconnected(runs)
      invariant AllRan(t, sessions, runs, caches, first, cache.blockHeaderData)
    {
      ghost var last := cache.blockHeaderData;
      var r := RunSession(cache, sessions[i], t);
      if r.Err? {
        return Some(r.error), runs, caches;
      }
      OneMoreRan(t, sessions, runs, caches, first, last, r.value, cache.blockHeaderData);
      OneMoreStops(sessions, runs, r.value);
      runs, caches := runs + [r.value], caches + [cache.blockHeaderData];
      if r.value.error != Rpc {
        return Some(r.value.error), runs, caches;
      }
    }
    stop := None;
  }
}
