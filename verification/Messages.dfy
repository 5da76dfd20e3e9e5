/**
 What one route and one message consist of: how many headers a route can make the follower fetch,
 and the chain that the blocks, the reorg and the common block of a message form.
 */
module Messages {
  import opened BlockTree
  import opened TreeRoutes
  import opened Follower
  import opened Replay

  lemma {:induction false} SuffixSize(p: seq<Hash>, n: nat)
    requires Distinct(p) && n <= |p|
    ensures |Suffix(p, n)| == |p| - n
    decreases |p| - n
  {
    if n < |p| {
      SuffixSize(p, n + 1);
      assert Suffix(p, n) == {p[n]} + Suffix(p, n + 1);
    }
  }

  lemma UnionSize(a: set<Hash>, b: set<Hash>)
    requires a !! b
    ensures |a + b| == |a| + |b|
  {
  }

  lemma PartsSize(p: seq<Hash>, q: seq<Hash>, n: nat)
    requires Distinct(p) && Distinct(q) && 1 <= n <= |p| && n <= |q|
    requires Suffix(p, n - 1) !! Suffix(q, n)
    ensures |Suffix(p, n - 1) + Suffix(q, n)| == (|p| - n) + (|q| - n) + 1
  {
    SuffixSize(p, n - 1);
    SuffixSize(q, n);
    UnionSize(Suffix(p, n - 1), Suffix(q, n));
  }

  /** The old path from the common block on, and the new path above it, split the route. */
  lemma BranchesPart(t: Headers, a: Hash, b: Hash, p: seq<Hash>, q: seq<Hash>, n: nat)
    requires a in t && b in t && IsPath(t, a, p) && IsPath(t, b, q) && PartAt(p, q, n)
    ensures Suffix(p, n - 1) + Suffix(q, n - 1) == Suffix(p, n - 1) + Suffix(q, n)
    ensures Suffix(p, n - 1) !! Suffix(q, n)
  {
    forall i, j | n - 1 <= i < |p| && n <= j < |q|
      ensures p[i] != q[j]
    {
      assert t[p[i]].number == i && t[q[j]].number == j;
    }
    assert Suffix(q, n - 1) == {p[n - 1]} + Suffix(q, n);
  }

  lemma CountBlocks(t: Headers, from: Hash, to: Hash)
    requires WellFormed(t) && from in t && to in t
    ensures |RouteBlocks(t, from, to)|
         == (|Path(t, from)| - Shared(t, from, to)) + (|Path(t, to)| - Shared(t, from, to)) + 1
  {
    var p, q, n := Path(t, from), Path(t, to), Shared(t, from, to);
    PathIsDistinct(t, from);
    PathIsDistinct(t, to);
    PathsPart(t, from, to);
    BranchesPart(t, from, to, p, q, n);
    PartsSize(p, q, n);
  }

  lemma RouteLengths(p: seq<Hash>, q: seq<Hash>, n: nat)
    requires 1 <= n <= |p| && n <= |q|
    ensures |RouteAlong(p, q, n).Retracted()| == |p| - n && |RouteAlong(p, q, n).Enacted()| == |q| - n
  {
  }

  lemma NotBelowCommon(t: Headers, from: Hash, to: Hash)
    requires WellFormed(t) && from in t && to in t
    ensures forall h | h in RouteBlocks(t, from, to) :: t[h].number >= t[CommonBlock(t, from, to)].number
  {
  }

  /**
   A route has one block for each height between the common block and either tip: as many as it
   retracts and enacts, and the common block. None of them is below the common block.
   */
  lemma RouteSize(t: Headers, from: Hash, to: Hash)
    requires WellFormed(t) && from in t && to in t
    ensures var route := RouteOf(t, from, to);
            && |RouteBlocks(t, from, to)| == |route.Retracted()| + |route.Enacted()| + 1
            && |route.Retracted()| == t[from].number - route.Common().number
            && |route.Enacted()| == t[to].number - route.Common().number
    ensures forall h | h in RouteBlocks(t, from, to) :: t[h].number >= t[CommonBlock(t, from, to)].number
  {
    CountBlocks(t, from, to);
    RouteLengths(Path(t, from), Path(t, to), Shared(t, from, to));
    NotBelowCommon(t, from, to);
  }

  lemma {:induction false} DistinctSize(s: seq<Hash>)
    requires Distinct(s)
    ensures |Elements(s)| == |s|
  {
    if s != [] {
      var front, last := s[..|s| - 1], s[|s| - 1];
      DistinctSize(front);
      assert s == front + [last];
      assert Elements(s) == Elements(front) + {last};
    }
  }

  lemma SubsetSize(a: set<Hash>, b: set<Hash>)
    requires a <= b
    ensures |a| <= |b|
  {
    assert b == a + (b - a);
  }

  lemma FetchedExactly(fetched: seq<Hash>, before: set<Hash>, after: set<Hash>, needed: set<Hash>)
    requires FetchedOnce(fetched, before, after, needed)
    ensures needed <= after ==> Elements(fetched) == needed - before
    ensures |fetched| <= |needed|
  {
    DistinctSize(fetched);
    SubsetSize(Elements(fetched), needed);
  }

  /** The headers fetched by a successful route are the missing route blocks; there are at most this many. */
  lemma FetchBound(t: Headers, from: Hash, to: Hash, fetched: seq<Hash>, before: set<Hash>, after: set<Hash>)
    requires WellFormed(t) && from in t && to in t
    requires FetchedOnce(fetched, before, after, RouteBlocks(t, from, to))
    ensures RouteBlocks(t, from, to) <= after ==> Elements(fetched) == RouteBlocks(t, from, to) - before
    ensures |fetched| <= |RouteOf(t, from, to).Retracted()| + |RouteOf(t, from, to).Enacted()| + 1
  {
    FetchedExactly(fetched, before, after, RouteBlocks(t, from, to));
    RouteSize(t, from, to);
  }

  /** Blocks that follow `parent` one by one, each naming the one before as its parent. */
  ghost predicate Follows(t: Headers, parent: HashAndNumber, chain: seq<HashAndNumber>) {
    forall i | 0 <= i < |chain| ::
      && chain[i].number == parent.number + 1 + i
      && chain[i].hash in t
      && t[chain[i].hash].number == chain[i].number
      && t[chain[i].hash].parentHash == if i == 0 then parent.hash else chain[i - 1].hash
  }

  function HashesAndNumbers(blocks: seq<BlockExt>): (s: seq<HashAndNumber>)
    ensures |s| == |blocks|
  {
    seq(|blocks|, i requires 0 <= i < |blocks| => HashAndNumber(blocks[i].hash, blocks[i].number))
  }

  lemma SegmentFollows(t: Headers, h: Hash, p: seq<Hash>, n: nat)
    requires h in t && IsPath(t, h, p) && 1 <= n <= |p|
    ensures Follows(t, HashAndNumber(p[n - 1], n - 1), Segment(p, n))
  {
  }

  /** What a message says about the paths of the old and the new best block. */
  ghost predicate Describes(t: Headers, p: seq<Hash>, q: seq<Hash>, n: nat, m: BlocksExt)
    requires 1 <= n <= |p| && n < |q|
    requires forall i | 0 <= i < |q| :: q[i] in t
  {
    var common := HashAndNumber(p[n - 1], n - 1);
    var chain := HashesAndNumbers(m.blocks);
    && m.blocks != []
    && m.blocks[|m.blocks| - 1].hash == q[|q| - 1]
    && Follows(t, common, chain)
    && (forall i | 0 <= i < |m.blocks| ::
          && m.blocks[i].hash in t
          && m.blocks[i].parentHash == (if i == 0 then common.hash else m.blocks[i - 1].hash)
          && m.blocks[i].stateRoot == t[m.blocks[i].hash].stateRoot
          && m.blocks[i].extrinsicsRoot == t[m.blocks[i].hash].extrinsicsRoot)
    && (m.maybeReorgData.Some? <==> n < |p|)
    && (m.maybeReorgData.Some? ==>
        var reorg := m.maybeReorgData.value;
        && reorg.commonBlock == common
        && reorg.enacted == chain[..|chain| - 1]
        && Follows(t, common, reorg.retracted)
        && |reorg.retracted| == |p| - n
        && reorg.retracted[|p| - n - 1] == HashAndNumber(p[|p| - 1], |p| - 1))
  }

  lemma BlockOfChange(t: Headers, p: seq<Hash>, q: seq<Hash>, n: nat, i: nat)
    requires 1 <= n <= |p| && n < |q| && i < |q| - n
    requires forall k | 0 <= k < |q| :: q[k] in t
    requires Follows(t, HashAndNumber(p[n - 1], n - 1), Segment(q, n))
    ensures var block := Change(t, p, q, n).value.blocks[i];
            && block.hash == q[n + i]
            && block.parentHash == (if i == 0 then p[n - 1] else q[n + i - 1])
            && block.stateRoot == t[q[n + i]].stateRoot
            && block.extrinsicsRoot == t[q[n + i]].extrinsicsRoot
  {
    var chain := Segment(q, n);
    assert chain[i].hash == q[n + i];
    if i > 0 {
      assert chain[i - 1].hash == q[n + i - 1];
    }
  }

  lemma ChangeDescribes(t: Headers, p: seq<Hash>, q: seq<Hash>, n: nat)
    requires 1 <= n <= |p| && n < |q|
    requires forall i | 0 <= i < |q| :: q[i] in t && t[q[i]].number == i
    requires Follows(t, HashAndNumber(p[n - 1], n - 1), Segment(p, n))
    requires Follows(t, HashAndNumber(p[n - 1], n - 1), Segment(q, n))
    ensures Describes(t, p, q, n, Change(t, p, q, n).value)
  {
    var m := Change(t, p, q, n).value;
    assert HashesAndNumbers(m.blocks) == Segment(q, n);
    forall i: nat | i < |m.blocks|
      ensures m.blocks[i].hash == q[n + i]
      ensures m.blocks[i].parentHash == (if i == 0 then p[n - 1] else q[n + i - 1])
      ensures m.blocks[i].stateRoot == t[q[n + i]].stateRoot && m.blocks[i].extrinsicsRoot == t[q[n + i]].extrinsicsRoot
    {
      BlockOfChange(t, p, q, n, i);
    }
  }

  /**
   A message exists exactly when the new block is off the old best path. It then holds at least one
   block; its blocks lead from the highest common ancestor to the new best block. It reports a
   reorg exactly when the old best block is above that ancestor; the retracted blocks lead to the
   old best block, the enacted ones to the parent of the new best block.
   */
  lemma MessageShape(t: Headers, best: Hash, to: Hash)
    requires WellFormed(t) && best in t && to in t
    ensures Announcement(t, best, to).Some? <==> to !in Path(t, best)
    ensures IsHighestCommonAncestor(t, best, to, Path(t, best)[Shared(t, best, to) - 1])
    ensures Announcement(t, best, to).Some? ==>
              Describes(t, Path(t, best), Path(t, to), Shared(t, best, to), Announcement(t, best, to).value)
  {
    var n := Shared(t, best, to);
    CommonBlockIsHighest(t, best, to, CommonBlock(t, best, to));
    OnPathIff(t, best, to);
    if n < |Path(t, to)| {
      SegmentFollows(t, best, Path(t, best), n);
      SegmentFollows(t, to, Path(t, to), n);
      ChangeDescribes(t, Path(t, best), Path(t, to), n);
    }
  }

  /** So every message of every run is as described, whether the listener has it from one import or from many. */
  lemma SentMessageShape(t: Headers, start: HashAndNumber, before: seq<Import>, e: Import)
    requires WellFormed(t) && InTree(t, start) && AllTruthful(t, before) && Truthful(t, e)
    requires AllTruthful(t, before + [e])
    requires e.answer == Canonical && e.hash !in Path(t, Listen(t, start, before).best.hash)
    ensures var s, sent := Listen(t, start, before), Listen(t, start, before + [e]).messages;
            && |sent| == |s.messages| + 1
            && Shared(t, s.best.hash, e.hash) < |Path(t, e.hash)|
            && Describes(t, Path(t, s.best.hash), Path(t, e.hash), Shared(t, s.best.hash, e.hash), sent[|s.messages|])
  {
    assert (before + [e])[..|before|] == before;
    MessageShape(t, Listen(t, start, before).best.hash, e.hash);
    OnPathIff(t, Listen(t, start, before).best.hash, e.hash);
  }
}
