/**
 The chain follower: it caches imported headers, routes from the old best block to the new one over
 the cache, refetches what the cache lacks, broadcasts the enacted blocks and prunes.
 It is proved to behave like a listener that holds the whole block tree and has no cache.
 */
module Follower {
  import opened Wrappers
  import opened BlockTree
  import opened HeadersCache
  import opened TreeRoutes

  const CACHE_HEADER_DEPTH: nat := 100

  datatype BlockExt = BlockExt(
    number: nat,
    hash: Hash,
    parentHash: Hash,
    stateRoot: Hash,
    extrinsicsRoot: Hash)

  datatype ReorgData = ReorgData(
    enacted: seq<HashAndNumber>,
    retracted: seq<HashAndNumber>,
    commonBlock: HashAndNumber)

  datatype BlocksExt = BlocksExt(blocks: seq<BlockExt>, maybeReorgData: Option<ReorgData>)

  /** What the node says when asked whether an imported block is on its canonical chain. */
  datatype Answer = Canonical | Fork | Unavailable

  /**
   One imported block, with the node's answers while it is handled: the headers it serves, and how
   a query fails that it does not answer.
   */
  datatype Import = Import(hash: Hash, header: Header, answer: Answer, rpc: Headers, failure: NodeError)

  /** Imports and header lookups tell the truth about the tree `t`; lookups may fail. */
  ghost predicate Truthful(t: Headers, e: Import) {
    e.hash in t && e.header == t[e.hash] && Faithful(e.rpc, t)
  }

  ghost predicate AllTruthful(t: Headers, events: seq<Import>) {
    forall i | 0 <= i < |events| :: Truthful(t, events[i])
  }

  ghost predicate InTree(t: Headers, b: HashAndNumber) {
    b.hash in t && b.number == t[b.hash].number
  }

  function SaturatingSub(a: nat, b: nat): nat {
    if a < b then 0 else a - b
  }

  /* ---------- The listener without a cache ---------- */

  function ExtOf(hash: Hash, header: Header): BlockExt {
    BlockExt(header.number, hash, header.parentHash, header.stateRoot, header.extrinsicsRoot)
  }

  ghost function Exts(t: Headers, hashes: seq<Hash>): (s: seq<BlockExt>)
    requires forall i | 0 <= i < |hashes| :: hashes[i] in t
    ensures |s| == |hashes|
  {
    seq(|hashes|, i requires 0 <= i < |hashes| => ExtOf(hashes[i], t[hashes[i]]))
  }

  /**
   What becomes known when the best block moves from the tip of `p` to the tip of `q`, which share
   their first `n` blocks: the blocks of the new path above those and, if the old path went above
   them too, the reorg. Nothing, if the new tip is on the old path.
   */
  ghost function Change(t: Headers, p: seq<Hash>, q: seq<Hash>, n: nat): (m: Option<BlocksExt>)
    requires 1 <= n <= |p| && n <= |q|
    requires forall i | 0 <= i < |q| :: q[i] in t
  {
    if n == |q| then
      None
    else
      var reorg :=
        if n == |p| then None
        else Some(ReorgData(Segment(q, n)[..|q| - n - 1], Segment(p, n), HashAndNumber(p[n - 1], n - 1)));
      Some(BlocksExt(Exts(t, q[n..]), reorg))
  }

  /** The change from one best block to another, above their highest common ancestor. */
  ghost function Announcement(t: Headers, best: Hash, to: Hash): (m: Option<BlocksExt>)
    requires WellFormed(t) && best in t && to in t
  {
    Change(t, Path(t, best), Path(t, to), Shared(t, best, to))
  }

  /** What is broadcast when an import is handled. */
  ghost function Message(t: Headers, best: Hash, e: Import): Option<BlocksExt>
    requires WellFormed(t) && best in t && Truthful(t, e)
  {
    if e.answer == Canonical then Announcement(t, best, e.hash) else None
  }

  datatype Listener = Listener(best: HashAndNumber, messages: seq<BlocksExt>)

  /** The best block moves exactly when something is broadcast. */
  function Moved(best: HashAndNumber, e: Import, m: Option<BlocksExt>): HashAndNumber {
    if m.Some? then HashAndNumber(e.hash, e.header.number) else best
  }

  function Sent(sink: seq<BlocksExt>, m: Option<BlocksExt>): seq<BlocksExt> {
    if m.Some? then sink + [m.value] else sink
  }

  ghost function ListenStep(t: Headers, s: Listener, e: Import): (s': Listener)
    requires WellFormed(t) && InTree(t, s.best) && Truthful(t, e)
    ensures InTree(t, s'.best)
  {
    var m := Message(t, s.best.hash, e);
    Listener(Moved(s.best, e, m), Sent(s.messages, m))
  }

  /** The best block and all messages after a run of imports. */
  ghost function Listen(t: Headers, best: HashAndNumber, events: seq<Import>): (s: Listener)
    requires WellFormed(t) && InTree(t, best)
    requires AllTruthful(t, events)
    ensures InTree(t, s.best)
  {
    if events == [] then
      Listener(best, [])
    else
      ListenStep(t, Listen(t, best, events[..|events| - 1]), events[|events| - 1])
  }

  /* ---------- What the listener does, in terms of the tree ---------- */

  lemma ChangeEnds(t: Headers, p: seq<Hash>, q: seq<Hash>, n: nat)
    requires 1 <= n <= |p| && n < |q|
    requires forall i | 0 <= i < |q| :: q[i] in t
    ensures Change(t, p, q, n).Some?
    ensures var blocks := Change(t, p, q, n).value.blocks;
            blocks != [] && blocks[|blocks| - 1].hash == q[|q| - 1] && blocks[|blocks| - 1].number == t[q[|q| - 1]].number
  {
  }

  /** There is something to announce exactly when the new block is off the old best path; it ends with that block. */
  lemma AnnouncedIff(t: Headers, best: Hash, to: Hash)
    requires WellFormed(t) && best in t && to in t
    ensures Announcement(t, best, to).Some? <==> to !in Path(t, best)
    ensures to !in Path(t, best) ==>
              var blocks := Announcement(t, best, to).value.blocks;
              blocks != [] && blocks[|blocks| - 1].hash == to && blocks[|blocks| - 1].number == t[to].number
  {
    OnPathIff(t, best, to);
    if to !in Path(t, best) {
      ChangeEnds(t, Path(t, best), Path(t, to), Shared(t, best, to));
    }
  }

  /** `after` has sent one message more than `before`, which ends with the block `tip`, its best block. */
  ghost predicate SentOneMore(before: Listener, after: Listener, tip: HashAndNumber) {
    && after.best == tip
    && |after.messages| == |before.messages| + 1
    && after.messages[..|before.messages|] == before.messages
    && var blocks := after.messages[|before.messages|].blocks;
       blocks != [] && blocks[|blocks| - 1].hash == tip.hash && blocks[|blocks| - 1].number == tip.number
  }

  /**
   The last import of a run: if it is on the node's canonical chain and off the path of the best block
   so far, it becomes the best block and is sent as the last block of one more message. Otherwise
   nothing is sent and the best block stays.
   */
  lemma ListenerMoves(t: Headers, start: HashAndNumber, before: seq<Import>, e: Import)
    requires WellFormed(t) && InTree(t, start) && AllTruthful(t, before + [e])
    ensures AllTruthful(t, before) && Truthful(t, e)
    ensures var s, s' := Listen(t, start, before), Listen(t, start, before + [e]);
            if e.answer == Canonical && e.hash !in Path(t, s.best.hash)
            then SentOneMore(s, s', HashAndNumber(e.hash, t[e.hash].number))
            else s' == s
    ensures Listen(t, start, []) == Listener(start, [])
  {
    var all := before + [e];
    assert all[..|before|] == before && all[|before|] == e;
    assert forall i | 0 <= i < |before| :: before[i] == all[i];
    AnnouncedIff(t, Listen(t, start, before).best.hash, e.hash);
  }

  /** Right after a canonical import, that block is on the path of the best block. */
  lemma CanonicalIsFollowed(t: Headers, start: HashAndNumber, before: seq<Import>, e: Import)
    requires WellFormed(t) && InTree(t, start) && AllTruthful(t, before + [e]) && e.answer == Canonical
    ensures e.hash in Path(t, Listen(t, start, before + [e]).best.hash)
  {
    ListenerMoves(t, start, before, e);
    var p := Path(t, e.hash);
    assert p[|p| - 1] == e.hash;
  }

  /* ---------- What the cache holds along the way ---------- */

  /** The cache with every block of the route to the imported block. */
  ghost function Filled(t: Headers, cached: Headers, best: Hash, e: Import): (c: Headers)
    requires WellFormed(t) && best in t && Truthful(t, e) && Faithful(cached, t)
    ensures Faithful(c, t)
    ensures c.Keys == cached.Keys + {e.hash} + RouteBlocks(t, best, e.hash)
  {
    map h | h in cached.Keys + {e.hash} + RouteBlocks(t, best, e.hash) :: t[h]
  }

  ghost function CacheStep(t: Headers, cached: Headers, best: Hash, e: Import): (c: Headers)
    requires WellFormed(t) && best in t && Truthful(t, e) && Faithful(cached, t)
    ensures Faithful(c, t)
  {
    if e.answer != Canonical then
      cached[e.hash := e.header]
    else if Message(t, best, e).None? then
      Filled(t, cached, best, e)
    else
      WithoutRun(Filled(t, cached, best, e), SaturatingSub(e.header.number, CACHE_HEADER_DEPTH))
  }

  /** The cache after a run of imports that were all handled. */
  ghost function CacheAfter(t: Headers, cached: Headers, best: HashAndNumber, events: seq<Import>): (c: Headers)
    requires WellFormed(t) && InTree(t, best) && Faithful(cached, t)
    requires AllTruthful(t, events)
    ensures Faithful(c, t)
  {
    if events == [] then
      cached
    else
      var before := events[..|events| - 1];
      CacheStep(t, CacheAfter(t, cached, best, before), Listen(t, best, before).best.hash, events[|events| - 1])
  }

  ghost predicate Obtainable(needed: set<Hash>, cached: set<Hash>, served: set<Hash>) {
    forall h | h in needed :: h in cached || h in served
  }

  /** The node answers all that the follower has to ask about an import. */
  ghost predicate Answered(t: Headers, cached: Headers, best: Hash, e: Import)
    requires WellFormed(t) && best in t && Truthful(t, e)
  {
    && e.answer != Unavailable
    && (e.answer == Canonical ==> Obtainable(RouteBlocks(t, best, e.hash), cached.Keys + {e.hash}, e.rpc.Keys))
  }

  /** The node answered for the last import of a run. */
  ghost predicate LastAnswered(t: Headers, cached: Headers, best: HashAndNumber, events: seq<Import>)
    requires WellFormed(t) && InTree(t, best) && Faithful(cached, t)
    requires AllTruthful(t, events) && events != []
  {
    var before := events[..|events| - 1];
    Answered(t, CacheAfter(t, cached, best, before), Listen(t, best, before).best.hash, events[|events| - 1])
  }

  /** The node answered for each of the first `n` imports of a run. */
  ghost predicate AllAnswered(t: Headers, cached: Headers, best: HashAndNumber, events: seq<Import>, n: nat)
    requires WellFormed(t) && InTree(t, best) && Faithful(cached, t)
    requires AllTruthful(t, events) && n <= |events|
  {
    forall k | 0 < k <= n :: LastAnswered(t, cached, best, events[..k])
  }

  /* ---------- The same, in terms of the tree ---------- */

  /** `h` is an ancestor of either block, or one of them, and not below their highest common ancestor `c`. */
  ghost predicate OnTheWay(t: Headers, best: Hash, to: Hash, c: Hash, h: Hash)
    requires WellFormed(t) && best in t && to in t && c in t
  {
    (h in Path(t, best) || h in Path(t, to)) && t[h].number >= t[c].number
  }

  lemma FilledIs(t: Headers, cached: Headers, best: Hash, e: Import, c: Hash, h: Hash)
    requires WellFormed(t) && best in t && Truthful(t, e) && Faithful(cached, t)
    requires IsHighestCommonAncestor(t, best, e.hash, c)
    ensures h in Filled(t, cached, best, e) <==> h in cached || h == e.hash || OnTheWay(t, best, e.hash, c, h)
  {
    RouteBlocksAre(t, best, e.hash, c, h);
  }

  /**
   A fork only adds itself. A canonical import on the old best path adds itself and what is missing on
   the way; any other one also removes the unbroken run of cached heights that ends a hundred below it.
   */
  lemma CacheStepIs(t: Headers, cached: Headers, best: Hash, e: Import, n: nat, h: Hash)
    requires WellFormed(t) && best in t && Truthful(t, e) && Faithful(cached, t)
    requires n == if e.header.number < 100 then 0 else e.header.number - 100
    ensures var filled, after := Filled(t, cached, best, e), CacheStep(t, cached, best, e);
            if e.answer != Canonical then
              h in after <==> h in cached || h == e.hash
            else if e.hash in Path(t, best) then
              h in after <==> h in filled
            else
              h in after <==>
                h in filled && !(t[h].number <= n && forall k | t[h].number <= k <= n :: k in Heights(filled))
  {
    AnnouncedIff(t, best, e.hash);
  }

  /**
   The node answers for an import exactly when it says whether the block is canonical and, if so,
   serves every header on the way that is not cached.
   */
  lemma AnsweredIff(t: Headers, cached: Headers, best: Hash, e: Import, c: Hash)
    requires WellFormed(t) && best in t && Truthful(t, e)
    requires IsHighestCommonAncestor(t, best, e.hash, c)
    ensures Answered(t, cached, best, e) <==>
            match e.answer
            case Fork => true
            case Unavailable => false
            case Canonical =>
              forall h | h in t && OnTheWay(t, best, e.hash, c, h) :: h in cached || h == e.hash || h in e.rpc
  {
    forall h
      ensures h in RouteBlocks(t, best, e.hash) <==> OnTheWay(t, best, e.hash, c, h)
    {
      RouteBlocksAre(t, best, e.hash, c, h);
    }
  }

  /** What an import that could not be handled leaves: its own header and perhaps some of its route. */
  ghost predicate LeftBehind(t: Headers, cached: Headers, best: Hash, e: Import, known: Headers)
    requires WellFormed(t) && best in t && Truthful(t, e)
  {
    && cached.Keys + {e.hash} <= known.Keys
    && known.Keys <= cached.Keys + {e.hash} + if e.answer == Canonical then RouteBlocks(t, best, e.hash) else {}
  }

  lemma FullNodeAnswers(t: Headers, cached: Headers, best: HashAndNumber, events: seq<Import>)
    requires WellFormed(t) && InTree(t, best) && Faithful(cached, t) && AllTruthful(t, events) && events != []
    requires events[|events| - 1].answer != Unavailable && events[|events| - 1].rpc.Keys == t.Keys
    ensures LastAnswered(t, cached, best, events)
  {
  }

  /** A node that says whether each block is canonical and serves every header answers every run. */
  lemma FullNodeAnswersAll(t: Headers, cached: Headers, best: HashAndNumber, events: seq<Import>)
    requires WellFormed(t) && InTree(t, best) && Faithful(cached, t) && AllTruthful(t, events)
    requires forall i | 0 <= i < |events| :: events[i].answer != Unavailable && events[i].rpc.Keys == t.Keys
    ensures AllAnswered(t, cached, best, events, |events|)
  {
    forall k | 0 < k <= |events|
      ensures LastAnswered(t, cached, best, events[..k])
    {
      FullNodeAnswers(t, cached, best, events[..k]);
    }
  }

  /**
   The outcome of listening from a cache: the imports are handled up to the first one that the node
   does not answer for; the best block and the messages are those of the listener without a cache
   over these; the error is that of the unanswered import, or `ending` if there is none; the cache
   is the one given for the handled imports, with what the unanswered one left behind.
   */
  ghost predicate Listened(t: Headers, cached: Headers, start: HashAndNumber, events: seq<Import>, ending: NodeError,
                           s: Listener, processed: nat, error: NodeError, known: Headers)
    requires WellFormed(t) && InTree(t, start) && Faithful(cached, t) && AllTruthful(t, events)
  {
    && processed <= |events|
    && s == Listen(t, start, events[..processed])
    && AllAnswered(t, cached, start, events, processed)
    && var handled := CacheAfter(t, cached, start, events[..processed]);
       if processed == |events| then
         error == ending && known == handled
       else
         && !LastAnswered(t, cached, start, events[..processed + 1])
         && error == events[processed].failure
         && LeftBehind(t, handled, s.best.hash, events[processed], known)
  }

  /** A follower with these values has handled the first `i` imports as the listener without a cache would. */
  ghost predicate Tracks(t: Headers, cached: Headers, start: HashAndNumber, events: seq<Import>, i: nat,
                         best: HashAndNumber, sink: seq<BlocksExt>, known: Headers)
    requires WellFormed(t) && InTree(t, start) && Faithful(cached, t) && AllTruthful(t, events)
  {
    && i <= |events|
    && Listen(t, start, events[..i]) == Listener(best, sink)
    && CacheAfter(t, cached, start, events[..i]) == known
    && AllAnswered(t, cached, start, events, i)
  }

  lemma TracksOneMore(t: Headers, cached: Headers, start: HashAndNumber, events: seq<Import>, i: nat,
                      best: HashAndNumber, sink: seq<BlocksExt>, known: Headers)
    requires WellFormed(t) && InTree(t, start) && Faithful(cached, t) && AllTruthful(t, events)
    requires i < |events| && Tracks(t, cached, start, events, i, best, sink, known)
    ensures InTree(t, best) && Faithful(known, t)
    ensures LastAnswered(t, cached, start, events[..i + 1]) <==> Answered(t, known, best.hash, events[i])
    ensures Answered(t, known, best.hash, events[i]) ==>
              var m := Message(t, best.hash, events[i]);
              Tracks(t, cached, start, events, i + 1, Moved(best, events[i], m), Sent(sink, m),
                     CacheStep(t, known, best.hash, events[i]))
  {
    assert events[..i + 1][..i] == events[..i];
  }

  lemma TracksToEnd(t: Headers, cached: Headers, start: HashAndNumber, events: seq<Import>, ending: NodeError,
                    best: HashAndNumber, sink: seq<BlocksExt>, known: Headers)
    requires WellFormed(t) && InTree(t, start) && Faithful(cached, t) && AllTruthful(t, events)
    requires Tracks(t, cached, start, events, |events|, best, sink, known)
    ensures Listened(t, cached, start, events, ending, Listener(best, sink), |events|, ending, known)
  {
  }

  lemma TracksToFailure(t: Headers, cached: Headers, start: HashAndNumber, events: seq<Import>, ending: NodeError,
                        i: nat, best: HashAndNumber, sink: seq<BlocksExt>, before: Headers, known: Headers)
    requires WellFormed(t) && InTree(t, start) && Faithful(cached, t) && AllTruthful(t, events)
    requires i < |events| && Tracks(t, cached, start, events, i, best, sink, before) && InTree(t, best)
    requires !Answered(t, before, best.hash, events[i]) && LeftBehind(t, before, best.hash, events[i], known)
    ensures Listened(t, cached, start, events, ending, Listener(best, sink), i, events[i].failure, known)
  {
    TracksOneMore(t, cached, start, events, i, best, sink, before);
  }

  /* ---------- The follower ---------- */

  ghost function Elements(s: seq<Hash>): set<Hash> {
    set h | h in s
  }

  /** `fetched` lists, each once, exactly the blocks that joined `before`; all of them are `needed`. */
  ghost predicate FetchedOnce(fetched: seq<Hash>, before: set<Hash>, after: set<Hash>, needed: set<Hash>) {
    && (forall i, j | 0 <= i < j < |fetched| :: fetched[i] != fetched[j])
    && (forall i | 0 <= i < |fetched| :: fetched[i] in needed - before)
    && after == before + Elements(fetched)
  }

  lemma FetchedOneMore(hash: Hash, fetched: seq<Hash>, before: set<Hash>, after: set<Hash>, needed: set<Hash>)
    requires hash in needed - before && FetchedOnce(fetched, before + {hash}, after, needed)
    ensures FetchedOnce([hash] + fetched, before, after, needed)
  {
    var all := [hash] + fetched;
    assert Elements(all) == {hash} + Elements(fetched);
  }

  lemma FetchProgresses(hash: Hash, before: set<Hash>, needed: set<Hash>, served: set<Hash>)
    requires hash in needed - before && hash in served
    ensures needed - (before + {hash}) < needed - before
    ensures Obtainable(needed, before + {hash}, served) <==> Obtainable(needed, before, served)
  {
    assert hash !in needed - (before + {hash});
  }

  /** Caches a header of the tree; the hash it is stored under is the block's. */
  method CacheHeader(cache: HeadersMetadataCache, header: Header, ghost hash: Hash, ghost t: Headers)
    returns (added: Hash)
    requires ContentAddressed(t, cache.hashOf) && hash in t && header == t[hash]
    requires cache.Valid() && Faithful(cache.blockHeaderData, t)
    modifies cache
    ensures added == hash
    ensures cache.Valid() && Faithful(cache.blockHeaderData, t)
    ensures cache.blockHeaderData.Keys == old(cache.blockHeaderData.Keys) + {hash}
  {
    added := cache.AddHeader(header);
  }

  /** Fetches a header from the node and caches it. */
  method FetchHeader(cache: HeadersMetadataCache, hash: Hash, rpc: Headers, failure: NodeError, ghost t: Headers)
    returns (r: Result<Hash>)
    requires ContentAddressed(t, cache.hashOf) && Faithful(rpc, t)
    requires cache.Valid() && Faithful(cache.blockHeaderData, t)
    modifies cache
    ensures cache.Valid() && Faithful(cache.blockHeaderData, t)
    ensures r.Ok? <==> hash in rpc
    ensures r.Ok? ==> r.value == hash
    ensures r.Err? ==> r.error == failure
    ensures cache.blockHeaderData.Keys == old(cache.blockHeaderData.Keys) + if r.Ok? then {hash} else {}
  {
    if hash !in rpc {
      return Err(failure);
    }
    var added := CacheHeader(cache, rpc[hash], hash, t);
    r := Ok(added);
  }

  /**
   Retries the walk until the cache suffices, fetching the missing header each time. The headers
   fetched by a successful call are exactly the route blocks that were not cached, each once.
   It succeeds exactly when the node still serves all of those.
   */
  method RecursiveTreeRoute(cache: HeadersMetadataCache, from: Hash, to: Hash, rpc: Headers, failure: NodeError,
                            ghost t: Headers)
    returns (r: Result<TreeRoute>, ghost fetched: seq<Hash>)
    requires WellFormed(t) && ContentAddressed(t, cache.hashOf) && from in t && to in t
    requires Faithful(rpc, t)
    requires cache.Valid() && Faithful(cache.blockHeaderData, t)
    modifies cache
    ensures cache.Valid() && Faithful(cache.blockHeaderData, t)
    ensures FetchedOnce(fetched, old(cache.blockHeaderData.Keys), cache.blockHeaderData.Keys,
                        RouteBlocks(t, from, to))
    ensures r.Ok? <==> Obtainable(RouteBlocks(t, from, to), old(cache.blockHeaderData.Keys), rpc.Keys)
    ensures r.Ok? ==> r.value == RouteOf(t, from, to)
    ensures r.Ok? ==> RouteBlocks(t, from, to) <= cache.blockHeaderData.Keys
    ensures r.Err? ==> r.error == failure
    decreases RouteBlocks(t, from, to) - cache.blockHeaderData.Keys
  {
    ghost var before, needed := cache.blockHeaderData.Keys, RouteBlocks(t, from, to);
    r := WalkRoute(cache, from, to, t);
    fetched := [];
    if r.Err? {
      var hash := r.error.hash;
      var _ :- FetchHeader(cache, hash, rpc, failure, t);
      FetchProgresses(hash, before, needed, rpc.Keys);
      r, fetched := RecursiveTreeRoute(cache, from, to, rpc, failure, t);
      FetchedOneMore(hash, fetched, before, cache.blockHeaderData.Keys, needed);
      fetched := [hash] + fetched;
    }
  }

  function GetBlockExt(cache: HeadersMetadataCache, hash: Hash): (r: Result<BlockExt>)
    reads cache
    ensures r.Ok? <==> hash in cache.blockHeaderData
    ensures r.Ok? ==> r.value == ExtOf(hash, cache.blockHeaderData[hash])
    ensures r.Ok? ==> r.value.hash == hash
    ensures r.Ok? ==> r.value.number == cache.blockHeaderData[hash].number
    ensures r.Ok? ==> r.value.parentHash == cache.blockHeaderData[hash].parentHash
    ensures r.Ok? ==> r.value.stateRoot == cache.blockHeaderData[hash].stateRoot
    ensures r.Ok? ==> r.value.extrinsicsRoot == cache.blockHeaderData[hash].extrinsicsRoot
    ensures r.Err? ==> r.error == MissingBlockHashFromCache(hash)
  {
    var header :- cache.GetHeader(hash);
    Ok(ExtOf(hash, header))
  }

  method GetBlockExts(cache: HeadersMetadataCache, enacted: seq<HashAndNumber>)
    returns (r: Result<seq<BlockExt>>)
    ensures r.Ok? <==> forall i | 0 <= i < |enacted| :: enacted[i].hash in cache.blockHeaderData
    ensures r.Ok? ==> |r.value| == |enacted|
    ensures r.Ok? ==> forall i | 0 <= i < |enacted| ::
                        r.value[i] == ExtOf(enacted[i].hash, cache.blockHeaderData[enacted[i].hash])
    ensures r.Err? ==> exists i | 0 <= i < |enacted| && enacted[i].hash !in cache.blockHeaderData ::
                         r.error == MissingBlockHashFromCache(enacted[i].hash)
  {
    var exts := [];
    for i := 0 to |enacted|
      invariant |exts| == i
      invariant forall k | 0 <= k < i :: enacted[k].hash in cache.blockHeaderData
      invariant forall k | 0 <= k < i ::
                  exts[k] == ExtOf(enacted[k].hash, cache.blockHeaderData[enacted[k].hash])
    {
      var ext :- GetBlockExt(cache, enacted[i].hash);
      exts := exts + [ext];
    }
    r := Ok(exts);
  }

  /** The blocks that a route enacts are known. */
  ghost predicate EnactedKnown(known: Headers, route: TreeRoute)
    requires route.Valid()
  {
    forall i | 0 <= i < |route.Enacted()| :: route.Enacted()[i].hash in known
  }

  /** Turns a route into a message; the new best block is not among the enacted blocks of a reorg. */
  ghost function MessageOf(known: Headers, route: TreeRoute): (m: BlocksExt)
    requires route.Valid() && EnactedKnown(known, route) && route.Enacted() != []
  {
    var enacted, retracted := route.Enacted(), route.Retracted();
    BlocksExt(
      seq(|enacted|, i requires 0 <= i < |enacted| => ExtOf(enacted[i].hash, known[enacted[i].hash])),
      if retracted == [] then None
      else Some(ReorgData(enacted[..|enacted| - 1], Reverse(retracted), route.Common())))
  }

  lemma RouteAlongAnnounces(t: Headers, known: Headers, p: seq<Hash>, q: seq<Hash>, n: nat)
    requires 1 <= n <= |p| && n <= |q|
    requires forall i | 0 <= i < |q| :: q[i] in t
    requires Faithful(known, t) && Suffix(q, n - 1) <= known.Keys
    ensures var route := RouteAlong(p, q, n);
            && EnactedKnown(known, route)
            && (route.Enacted() == [] <==> Change(t, p, q, n).None?)
            && (route.Enacted() != [] ==>
                && Change(t, p, q, n) == Some(MessageOf(known, route))
                && route.Enacted()[|route.Enacted()| - 1] == HashAndNumber(q[|q| - 1], |q| - 1))
  {
    var route := RouteAlong(p, q, n);
    assert forall i | n <= i < |q| :: q[i] in Suffix(q, n - 1);
    if n < |q| {
      assert Reverse(route.Retracted()) == Segment(p, n);
      assert MessageOf(known, route).blocks == Exts(t, q[n..]);
    }
  }

  /** The message of the route over the whole tree is the announcement. */
  lemma RouteAnnounces(t: Headers, best: Hash, to: Hash, known: Headers)
    requires WellFormed(t) && best in t && to in t
    requires Faithful(known, t) && RouteBlocks(t, best, to) <= known.Keys
    ensures var route := RouteOf(t, best, to);
            && EnactedKnown(known, route)
            && (route.Enacted() == [] <==> Announcement(t, best, to).None?)
            && (route.Enacted() != [] ==>
                && Announcement(t, best, to) == Some(MessageOf(known, route))
                && route.Enacted()[|route.Enacted()| - 1] == HashAndNumber(to, t[to].number))
  {
    RouteAlongAnnounces(t, known, Path(t, best), Path(t, to), Shared(t, best, to));
  }

  method Compose(cache: HeadersMetadataCache, route: TreeRoute)
    returns (message: BlocksExt, newBest: HashAndNumber)
    requires route.Valid() && EnactedKnown(cache.blockHeaderData, route) && route.Enacted() != []
    ensures message == MessageOf(cache.blockHeaderData, route)
    ensures newBest == route.Enacted()[|route.Enacted()| - 1]
  {
    var enacted, retracted := route.Enacted(), route.Retracted();
    var exts := GetBlockExts(cache, enacted);
    assert exts.Ok?;
    newBest := enacted[|enacted| - 1];
    enacted := enacted[..|enacted| - 1];
    var reorg :=
      if retracted == [] then None else Some(ReorgData(enacted, Reverse(retracted), route.Common()));
    message := BlocksExt(exts.value, reorg);
    assert message.blocks == MessageOf(cache.blockHeaderData, route).blocks;
  }

  /** After a successful route the cache holds what it held, the import and the route. */
  lemma FilledByRoute(t: Headers, cached: Headers, best: Hash, e: Import, fetched: seq<Hash>, known: Headers)
    requires WellFormed(t) && best in t && Truthful(t, e) && Faithful(cached, t) && Faithful(known, t)
    requires FetchedOnce(fetched, cached.Keys + {e.hash}, known.Keys, RouteBlocks(t, best, e.hash))
    requires RouteBlocks(t, best, e.hash) <= known.Keys
    ensures known == Filled(t, cached, best, e)
  {
    assert known.Keys == Filled(t, cached, best, e).Keys;
  }

  lemma FailedRouteLeaves(t: Headers, cached: Headers, best: Hash, e: Import, fetched: seq<Hash>, known: Headers)
    requires WellFormed(t) && best in t && Truthful(t, e) && e.answer == Canonical
    requires FetchedOnce(fetched, cached.Keys + {e.hash}, known.Keys, RouteBlocks(t, best, e.hash))
    ensures LeftBehind(t, cached, best, e, known)
  {
    assert Elements(fetched) <= RouteBlocks(t, best, e.hash);
  }

  /** A canonical import: route, refetch, broadcast, prune. */
  method HandleCanonical(cache: HeadersMetadataCache, best: HashAndNumber, e: Import, ghost t: Headers,
                         ghost cached: Headers)
    returns (r: Result<Option<BlocksExt>>, newBest: HashAndNumber)
    requires WellFormed(t) && ContentAddressed(t, cache.hashOf)
    requires InTree(t, best) && Truthful(t, e) && e.answer == Canonical
    requires cache.Valid() && Faithful(cached, t) && cache.blockHeaderData == cached[e.hash := e.header]
    modifies cache
    ensures cache.Valid() && Faithful(cache.blockHeaderData, t)
    ensures r.Ok? <==> Answered(t, cached, best.hash, e)
    ensures r.Err? ==> r.error == e.failure && newBest == best
    ensures r.Err? ==> LeftBehind(t, cached, best.hash, e, cache.blockHeaderData)
    ensures r.Ok? ==> r.value == Message(t, best.hash, e)
    ensures r.Ok? ==> (r.value.Some? <==> e.hash !in Path(t, best.hash))
    ensures r.Ok? ==> newBest == if r.value.Some? then HashAndNumber(e.hash, e.header.number) else best
    ensures r.Ok? ==> cache.blockHeaderData == CacheStep(t, cached, best.hash, e)
  {
    newBest := best;
    assert cache.blockHeaderData.Keys == cached.Keys + {e.hash};
    var route, fetched := RecursiveTreeRoute(cache, best.hash, e.hash, e.rpc, e.failure, t);
    if route.Err? {
      FailedRouteLeaves(t, cached, best.hash, e, fetched, cache.blockHeaderData);
      return Err(route.error), best;
    }
    FilledByRoute(t, cached, best.hash, e, fetched, cache.blockHeaderData);
    RouteAnnounces(t, best.hash, e.hash, cache.blockHeaderData);
    AnnouncedIff(t, best.hash, e.hash);
    var enacted, retracted := route.value.Enacted(), route.value.Retracted();
    if enacted == [] && retracted == [] {
      // The imported block is the best block.
      return Ok(None), best;
    }
    if enacted == [] {
      // The imported block is below the best block on the same path.
      return Ok(None), best;
    }
    var message;
    message, newBest := Compose(cache, route.value);
    cache.RemoveHeaderUntil(SaturatingSub(e.header.number, CACHE_HEADER_DEPTH));
    r := Ok(Some(message));
  }

  /** One turn of the follower's loop. */
  method HandleImport(cache: HeadersMetadataCache, best: HashAndNumber, e: Import, ghost t: Headers)
    returns (r: Result<Option<BlocksExt>>, newBest: HashAndNumber)
    requires WellFormed(t) && ContentAddressed(t, cache.hashOf)
    requires InTree(t, best) && Truthful(t, e)
    requires cache.Valid() && Faithful(cache.blockHeaderData, t)
    modifies cache
    ensures cache.Valid() && Faithful(cache.blockHeaderData, t)
    ensures r.Ok? <==> Answered(t, old(cache.blockHeaderData), best.hash, e)
    ensures r.Err? ==> r.error == e.failure && newBest == best
    ensures r.Err? ==> LeftBehind(t, old(cache.blockHeaderData), best.hash, e, cache.blockHeaderData)
    ensures r.Ok? ==> r.value == Message(t, best.hash, e)
    ensures r.Ok? ==> (r.value.Some? <==> e.answer == Canonical && e.hash !in Path(t, best.hash))
    ensures r.Ok? ==> newBest == if r.value.Some? then HashAndNumber(e.hash, e.header.number) else best
    ensures r.Ok? ==> cache.blockHeaderData == CacheStep(t, old(cache.blockHeaderData), best.hash, e)
  {
    ghost var cached := cache.blockHeaderData;
    var hash := cache.AddHeader(e.header);
    assert hash == e.hash;
    match e.answer
    case Unavailable => return Err(e.failure), best;
    case Fork => return Ok(None), best;
    case Canonical => r, newBest := HandleCanonical(cache, best, e, t, cached);
  }

  /**
   Follows the imports until one cannot be handled or the subscription ends with `ending`.
   */
  method ListenForBlocks(cache: HeadersMetadataCache, start: HashAndNumber, events: seq<Import>, ending: NodeError,
                         ghost t: Headers)
    returns (error: NodeError, best: HashAndNumber, sink: seq<BlocksExt>, processed: nat)
    requires WellFormed(t) && ContentAddressed(t, cache.hashOf) && InTree(t, start)
    requires AllTruthful(t, events)
    requires cache.Valid() && Faithful(cache.blockHeaderData, t)
    modifies cache
    ensures cache.Valid() && Faithful(cache.blockHeaderData, t)
    ensures Listened(t, old(cache.blockHeaderData), start, events, ending, Listener(best, sink), processed, error,
                     cache.blockHeaderData)
    ensures processed <= |events| && error == if processed < |events| then events[processed].failure else ending
  {
    ghost var cached := cache.blockHeaderData;
    best, sink := start, [];
    var i := 0;
    while i < |events|
      invariant 0 <= i <= |events|
      invariant cache.Valid()
      invariant Tracks(t, cached, start, events, i, best, sink, cache.blockHeaderData)
    {
      TracksOneMore(t, cached, start, events, i, best, sink, cache.blockHeaderData);
      ghost var before := cache.blockHeaderData;
      var handled, newBest := HandleImport(cache, best, events[i], t);
      if handled.Err? {
        TracksToFailure(t, cached, start, events, ending, i, best, sink, before, cache.blockHeaderData);
        return events[i].failure, best, sink, i;
      }
      best, sink := newBest, Sent(sink, handled.value);
      i := i + 1;
    }
    TracksToEnd(t, cached, start, events, ending, best, sink, cache.blockHeaderData);
    return ending, best, sink, i;
  }

  /* ---------- Filling the cache ---------- */

  /** The node's canonical hashes by height, and the headers it serves. */
  ghost predicate TruthfulChain(t: Headers, canonical: map<nat, Hash>, rpc: Headers) {
    && (forall n | n in canonical :: canonical[n] in t && t[canonical[n]].number == n)
    && Faithful(rpc, t)
  }

  ghost predicate ServedAt(header: Header, n: nat, canonical: map<nat, Hash>, rpc: Headers) {
    n in canonical && canonical[n] in rpc && header == rpc[canonical[n]]
  }

  /** The headers of the canonical blocks from `first` up to `last`, if the node serves them all. */
  method CollectHeaders(first: nat, last: nat, canonical: map<nat, Hash>, rpc: Headers, failure: NodeError)
    returns (r: Result<seq<Header>>)
    requires first <= last
    ensures r.Ok? <==> forall n | first <= n <= last :: n in canonical && canonical[n] in rpc
    ensures r.Ok? ==> |r.value| == last + 1 - first
    ensures r.Ok? ==> forall i | 0 <= i < |r.value| :: ServedAt(r.value[i], first + i, canonical, rpc)
    ensures r.Err? ==> r.error == failure
  {
    var headers := [];
    for n := first to last + 1
      invariant |headers| == n - first
      invariant forall k | first <= k < n :: k in canonical && canonical[k] in rpc
      invariant forall i | 0 <= i < |headers| :: ServedAt(headers[i], first + i, canonical, rpc)
    {
      if n !in canonical || canonical[n] !in rpc {
        return Err(failure);
      }
      headers := headers + [rpc[canonical[n]]];
    }
    r := Ok(headers);
  }

  ghost function CanonicalBetween(canonical: map<nat, Hash>, first: nat, end: nat): set<Hash> {
    set n | first <= n < end && n in canonical :: canonical[n]
  }

  lemma CanonicalOneMore(canonical: map<nat, Hash>, first: nat, end: nat)
    requires first <= end && end in canonical
    ensures CanonicalBetween(canonical, first, end + 1)
         == CanonicalBetween(canonical, first, end) + {canonical[end]}
  {
  }

  method AddHeaders(cache: HeadersMetadataCache, headers: seq<Header>,
                    ghost first: nat, ghost canonical: map<nat, Hash>, ghost rpc: Headers, ghost t: Headers)
    requires ContentAddressed(t, cache.hashOf) && TruthfulChain(t, canonical, rpc)
    requires cache.Valid() && Faithful(cache.blockHeaderData, t)
    requires forall i | 0 <= i < |headers| :: ServedAt(headers[i], first + i, canonical, rpc)
    modifies cache
    ensures cache.Valid() && Faithful(cache.blockHeaderData, t)
    ensures cache.blockHeaderData.Keys
         == old(cache.blockHeaderData.Keys) + CanonicalBetween(canonical, first, first + |headers|)
  {
    ghost var cached := cache.blockHeaderData.Keys;
    for i := 0 to |headers|
      invariant cache.Valid() && Faithful(cache.blockHeaderData, t)
      invariant cache.blockHeaderData.Keys == cached + CanonicalBetween(canonical, first, first + i)
    {
      assert ServedAt(headers[i], first + i, canonical, rpc);
      CanonicalOneMore(canonical, first, first + i);
      var _ := CacheHeader(cache, headers[i], canonical[first + i], t);
    }
  }

  /**
   Caches the canonical chain down to `CACHE_HEADER_DEPTH` blocks below the latest block.
   The cache stays as it is if any of the headers is missing.
   */
  method LoadCache(cache: HeadersMetadataCache, latest: HashAndNumber, canonical: map<nat, Hash>, rpc: Headers,
                   failure: NodeError, ghost t: Headers)
    returns (r: Result<HashAndNumber>)
    requires ContentAddressed(t, cache.hashOf) && TruthfulChain(t, canonical, rpc)
    requires cache.Valid() && Faithful(cache.blockHeaderData, t)
    modifies cache
    ensures cache.Valid() && Faithful(cache.blockHeaderData, t)
    ensures r.Err? ==> r.error == failure && cache.blockHeaderData == old(cache.blockHeaderData)
    ensures r.Ok? ==> r.value == latest
    ensures r.Ok? <==> forall n | SaturatingSub(latest.number, CACHE_HEADER_DEPTH) <= n <= latest.number ::
                         n in canonical && canonical[n] in rpc
    ensures r.Ok? ==>
              cache.blockHeaderData.Keys
              == old(cache.blockHeaderData.Keys)
                 + CanonicalBetween(canonical, SaturatingSub(latest.number, CACHE_HEADER_DEPTH), latest.number + 1)
  {
    var first := SaturatingSub(latest.number, CACHE_HEADER_DEPTH);
    var headers :- CollectHeaders(first, latest.number, canonical, rpc, failure);
    AddHeaders(cache, headers, first, canonical, rpc, t);
    r := Ok(latest);
  }
}
