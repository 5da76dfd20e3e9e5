/**
 Routes between two blocks, computed by walking parents over whatever part of the tree is cached.
 */
module TreeRoutes {
  import opened BlockTree
  import opened HeadersCache

  /** The old branch from its tip down, the common block at `pivot`, the new branch up to its tip. */
  datatype TreeRoute = TreeRoute(route: seq<HashAndNumber>, pivot: nat) {
    predicate Valid() { pivot < |route| }
    function Retracted(): seq<HashAndNumber> requires Valid() { route[..pivot] }
    function Common(): HashAndNumber requires Valid() { route[pivot] }
    function Enacted(): seq<HashAndNumber> requires Valid() { route[pivot + 1..] }
  }

  function Reverse<T>(s: seq<T>): (r: seq<T>)
    ensures |r| == |s|
    ensures forall i | 0 <= i < |s| :: r[i] == s[|s| - 1 - i]
  {
    seq(|s|, i requires 0 <= i < |s| => s[|s| - 1 - i])
  }

  lemma ReverseTwice<T>(s: seq<T>)
    ensures Reverse(Reverse(s)) == s
  {
  }

  /** The route between the tips of two paths that share their first `n` blocks. */
  ghost function RouteAlong(p: seq<Hash>, q: seq<Hash>, n: nat): (r: TreeRoute)
    requires 1 <= n <= |p| && n <= |q|
    ensures r.Valid()
    ensures r.Retracted() == Reverse(Segment(p, n))
    ensures r.Common() == HashAndNumber(p[n - 1], n - 1)
    ensures r.Enacted() == Segment(q, n)
  {
    var retracted := Reverse(Segment(p, n));
    TreeRoute(retracted + [HashAndNumber(p[n - 1], n - 1)] + Segment(q, n), |retracted|)
  }

  /** The route over the whole tree, in terms of ancestor paths and the highest common ancestor. */
  ghost function RouteOf(t: Headers, from: Hash, to: Hash): (r: TreeRoute)
    requires WellFormed(t) && from in t && to in t
    ensures r.Valid()
  {
    RouteAlong(Path(t, from), Path(t, to), Shared(t, from, to))
  }

  /** Two paths that share the block at height `n - 1` and none above it. */
  ghost predicate PartAt(p: seq<Hash>, q: seq<Hash>, n: nat) {
    && 1 <= n <= |p| && n <= |q|
    && p[n - 1] == q[n - 1]
    && forall i | n <= i < |p| && i < |q| :: p[i] != q[i]
  }

  /** The blocks of `p` above index `i`, topmost first: what a walk from the tip has pushed. */
  ghost predicate Descends(branch: seq<HashAndNumber>, p: seq<Hash>, i: nat) {
    i < |p| && branch == Reverse(Segment(p, i + 1))
  }

  lemma DescendsFurther(branch: seq<HashAndNumber>, p: seq<Hash>, i: nat)
    requires 0 < i && Descends(branch, p, i)
    ensures Descends(branch + [HashAndNumber(p[i], i)], p, i - 1)
  {
    assert Segment(p, i) == [HashAndNumber(p[i], i)] + Segment(p, i + 1);
  }

  /**
   A walk from the tip of `p` holds the metadata of one of its blocks, has pushed the blocks above
   it, and found all of them in the cache.
   */
  ghost predicate Walking(known: Headers, p: seq<Hash>, m: CachedHeaderMetadata, branch: seq<HashAndNumber>) {
    && Descends(branch, p, m.number)
    && (forall k | m.number <= k < |p| :: p[k] in known)
    && m == CachedHeaderMetadata(p[m.number], m.number, known[p[m.number]].parentHash)
  }

  lemma BranchesMakeRoute(p: seq<Hash>, q: seq<Hash>, n: nat, fromBranch: seq<HashAndNumber>,
                          toBranch: seq<HashAndNumber>)
    requires 1 <= n && Descends(fromBranch, p, n - 1) && Descends(toBranch, q, n - 1)
    ensures TreeRoute(fromBranch + [HashAndNumber(p[n - 1], n - 1)] + Reverse(toBranch), |fromBranch|)
         == RouteAlong(p, q, n)
  {
    ReverseTwice(Segment(q, n));
  }

  lemma WalkedIsKnown(known: Headers, p: seq<Hash>, m: CachedHeaderMetadata, branch: seq<HashAndNumber>)
    requires Walking(known, p, m, branch)
    ensures Suffix(p, m.number) <= known.Keys
  {
  }

  /** Walks that meet have met at the common block, and what they pushed makes up the route. */
  lemma WalksMeet(known: Headers, p: seq<Hash>, q: seq<Hash>, n: nat, m: CachedHeaderMetadata,
                  fromBranch: seq<HashAndNumber>, toBranch: seq<HashAndNumber>)
    requires PartAt(p, q, n) && n - 1 <= m.number
    requires Walking(known, p, m, fromBranch) && Walking(known, q, m, toBranch)
    ensures Suffix(p, n - 1) + Suffix(q, n - 1) <= known.Keys
    ensures TreeRoute(fromBranch + [HashAndNumber(m.hash, m.number)] + Reverse(toBranch), |fromBranch|)
         == RouteAlong(p, q, n)
  {
    WalkedIsKnown(known, p, m, fromBranch);
    WalkedIsKnown(known, q, m, toBranch);
    assert m.number == n - 1 by {
      assert p[m.number] == q[m.number];
    }
    BranchesMakeRoute(p, q, n, fromBranch, toBranch);
  }

  /** A lookup failed for a block that the walk needs. */
  ghost predicate Missed(known: Headers, needed: set<Hash>, error: Error) {
    error.MissingBlockHashFromCache? && error.hash in needed && error.hash !in known
  }

  /** One parent step of a walk along an ancestor path. */
  method StepUp(backend: HeadersMetadataCache, m: CachedHeaderMetadata, blocks: seq<HashAndNumber>,
                ghost t: Headers, ghost h: Hash, ghost p: seq<Hash>)
    returns (r: Result<CachedHeaderMetadata>, branch: seq<HashAndNumber>)
    requires h in t && IsPath(t, h, p)
    requires backend.Keyed() && Faithful(backend.blockHeaderData, t)
    requires 0 < m.number && Walking(backend.blockHeaderData, p, m, blocks)
    ensures r.Ok? ==> r.value.number == m.number - 1 && Walking(backend.blockHeaderData, p, r.value, branch)
    ensures r.Err? ==> r.error == MissingBlockHashFromCache(p[m.number - 1])
    ensures r.Err? ==> p[m.number - 1] !in backend.blockHeaderData
  {
    assert t[p[m.number]].parentHash == p[m.number - 1];
    DescendsFurther(blocks, p, m.number);
    branch := blocks + [HashAndNumber(m.hash, m.number)];
    r := backend.HeaderMetadata(m.parent);
  }

  /** Walks up from the tip of `p` to height `floor`. */
  method Raise(backend: HeadersMetadataCache, tip: CachedHeaderMetadata, floor: nat,
               ghost t: Headers, ghost h: Hash, ghost p: seq<Hash>)
    returns (r: Result<CachedHeaderMetadata>, branch: seq<HashAndNumber>)
    requires h in t && IsPath(t, h, p)
    requires backend.Keyed() && Faithful(backend.blockHeaderData, t)
    requires floor <= tip.number && Walking(backend.blockHeaderData, p, tip, [])
    ensures r.Ok? ==> r.value.number == floor && Walking(backend.blockHeaderData, p, r.value, branch)
    ensures r.Err? ==> Missed(backend.blockHeaderData, Suffix(p, floor), r.error)
  {
    r, branch := Ok(tip), [];
    while r.value.number > floor
      invariant r.Ok? && floor <= r.value.number && Walking(backend.blockHeaderData, p, r.value, branch)
      decreases r.value.number
    {
      assert p[r.value.number - 1] in Suffix(p, floor);
      r, branch := StepUp(backend, r.value, branch, t, h, p);
      if r.Err? {
        return;
      }
    }
  }

  /** Both sides step up together, from equal heights, until they are at the same block. */
  method Meet(backend: HeadersMetadataCache, from: CachedHeaderMetadata, to: CachedHeaderMetadata,
              fromBlocks: seq<HashAndNumber>, toBlocks: seq<HashAndNumber>,
              ghost t: Headers, ghost a: Hash, ghost b: Hash,
              ghost p: seq<Hash>, ghost q: seq<Hash>, ghost n: nat)
    returns (r: Result<TreeRoute>)
    requires a in t && b in t && IsPath(t, a, p) && IsPath(t, b, q) && PartAt(p, q, n)
    requires backend.Keyed() && Faithful(backend.blockHeaderData, t)
    requires n - 1 <= from.number == to.number
    requires Walking(backend.blockHeaderData, p, from, fromBlocks)
    requires Walking(backend.blockHeaderData, q, to, toBlocks)
    ensures r.Ok? ==> Suffix(p, n - 1) + Suffix(q, n - 1) <= backend.blockHeaderData.Keys
    ensures r.Ok? ==> r.value == RouteAlong(p, q, n)
    ensures r.Err? ==> Missed(backend.blockHeaderData, Suffix(p, n - 1) + Suffix(q, n - 1), r.error)
  {
    var f, g, fromBranch, toBranch := from, to, fromBlocks, toBlocks;
    while g.hash != f.hash
      invariant n - 1 <= f.number == g.number
      invariant Walking(backend.blockHeaderData, p, f, fromBranch)
      invariant Walking(backend.blockHeaderData, q, g, toBranch)
      decreases f.number
    {
      assert n <= f.number;
      assert p[f.number - 1] in Suffix(p, n - 1) && q[g.number - 1] in Suffix(q, n - 1);
      var up;
      up, toBranch := StepUp(backend, g, toBranch, t, b, q);
      g :- up;
      up, fromBranch := StepUp(backend, f, fromBranch, t, a, p);
      f :- up;
    }
    WalksMeet(backend.blockHeaderData, p, q, n, f, fromBranch, toBranch);
    r := Ok(TreeRoute(fromBranch + [HashAndNumber(f.hash, f.number)] + Reverse(toBranch), |fromBranch|));
  }

  lemma PathsPart(t: Headers, from: Hash, to: Hash)
    requires WellFormed(t) && from in t && to in t
    ensures PartAt(Path(t, from), Path(t, to), Shared(t, from, to))
  {
    forall i | Shared(t, from, to) <= i < |Path(t, from)| && i < |Path(t, to)|
      ensures Path(t, from)[i] != Path(t, to)[i]
    {
      DisjointAbove(t, from, to, i, i);
    }
  }

  lemma TipOnPathIff(t: Headers, a: Hash, b: Hash, p: seq<Hash>, q: seq<Hash>, n: nat)
    requires a in t && b in t && IsPath(t, a, p) && IsPath(t, b, q) && PartAt(p, q, n)
    ensures b in p <==> n == |q|
  {
    if b in p {
      assert p[|q| - 1] == q[|q| - 1];
    }
  }

  /** All of a block's path is shared exactly when the block is on the other path. */
  lemma OnPathIff(t: Headers, best: Hash, to: Hash)
    requires WellFormed(t) && best in t && to in t
    ensures to in Path(t, best) <==> Shared(t, best, to) == |Path(t, to)|
  {
    PathsPart(t, best, to);
    TipOnPathIff(t, best, to, Path(t, best), Path(t, to), Shared(t, best, to));
  }

  /** Raises the higher side, then both sides until they meet. */
  method WalkPaths(backend: HeadersMetadataCache, from: Hash, to: Hash,
                   ghost t: Headers, ghost p: seq<Hash>, ghost q: seq<Hash>, ghost n: nat)
    returns (r: Result<TreeRoute>)
    requires from in t && to in t && IsPath(t, from, p) && IsPath(t, to, q) && PartAt(p, q, n)
    requires backend.Keyed() && Faithful(backend.blockHeaderData, t)
    ensures r.Ok? ==> Suffix(p, n - 1) + Suffix(q, n - 1) <= backend.blockHeaderData.Keys
    ensures r.Ok? ==> r.value == RouteAlong(p, q, n)
    ensures r.Err? ==> Missed(backend.blockHeaderData, Suffix(p, n - 1) + Suffix(q, n - 1), r.error)
  {
    assert p[|p| - 1] in Suffix(p, n - 1) && q[|q| - 1] in Suffix(q, n - 1);
    var f :- backend.HeaderMetadata(from);
    var g :- backend.HeaderMetadata(to);
    var floor := if f.number < g.number then f.number else g.number;
    assert Suffix(p, floor) <= Suffix(p, n - 1) && Suffix(q, floor) <= Suffix(q, n - 1);
    var raised, toBranch := Raise(backend, g, floor, t, to, q);
    g :- raised;
    var fromBranch;
    raised, fromBranch := Raise(backend, f, floor, t, from, p);
    f :- raised;
    r := Meet(backend, f, g, fromBranch, toBranch, t, from, to, p, q, n);
  }

  /**
   The parent walk over the cache. It needs every block of the route and nothing else; a block it
   misses is the error.
   */
  method WalkRoute(backend: HeadersMetadataCache, from: Hash, to: Hash, ghost t: Headers)
    returns (r: Result<TreeRoute>)
    requires WellFormed(t) && from in t && to in t
    requires backend.Keyed() && Faithful(backend.blockHeaderData, t)
    ensures r.Ok? <==> RouteBlocks(t, from, to) <= backend.blockHeaderData.Keys
    ensures r.Ok? ==> r.value == RouteOf(t, from, to)
    ensures r.Err? ==> Missed(backend.blockHeaderData, RouteBlocks(t, from, to), r.error)
  {
    PathsPart(t, from, to);
    r := WalkPaths(backend, from, to, t, Path(t, from), Path(t, to), Shared(t, from, to));
  }
}
