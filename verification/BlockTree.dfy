/**
 The block tree that the node serves, and the declarative notions the follower is judged against:
 the ancestor path of a block, the number of blocks two paths share, the highest common ancestor
 and the set of blocks a route between two blocks visits.
 */
module BlockTree {

  /** Block hashes are opaque identifiers. */
  type Hash = nat

  datatype Header = Header(
    parentHash: Hash,
    number: nat,
    stateRoot: Hash,
    extrinsicsRoot: Hash,
    digest: seq<nat>)

  datatype HashAndNumber = HashAndNumber(hash: Hash, number: nat)

  /** A set of blocks, each under its hash. */
  type Headers = map<Hash, Header>

  /** The parent of a non-genesis block exists and is numbered one less. */
  ghost predicate Linked(t: Headers, h: Hash)
    requires h in t
  {
    t[h].number > 0 ==> t[h].parentHash in t && t[t[h].parentHash].number == t[h].number - 1
  }

  /** Every block hangs below the one genesis block. */
  ghost predicate WellFormed(t: Headers) {
    && (forall h {:trigger Linked(t, h)} | h in t :: Linked(t, h))
    && (forall g, h | g in t && h in t && t[g].number == 0 && t[h].number == 0 :: g == h)
  }

  /** The content-addressing assumption: the header stored under a hash hashes to it. */
  ghost predicate ContentAddressed(t: Headers, hashOf: Header -> Hash) {
    forall h | h in t :: hashOf(t[h]) == h
  }

  /** Whatever is known about a block is what the tree says. */
  ghost predicate Faithful(known: Headers, t: Headers) {
    forall h | h in known :: h in t && known[h] == t[h]
  }

  /** `p` runs from genesis down to `h`, one block for each height. */
  ghost predicate IsPath(t: Headers, h: Hash, p: seq<Hash>)
    requires h in t
  {
    && |p| == t[h].number + 1
    && p[|p| - 1] == h
    && (forall i | 0 <= i < |p| :: p[i] in t && t[p[i]].number == i)
    && (forall i, j | 0 <= i && j == i + 1 && j < |p| :: t[p[j]].parentHash == p[i])
  }

  /** The ancestor path of a block, genesis first, the block itself last. */
  ghost function Path(t: Headers, h: Hash): (p: seq<Hash>)
    requires WellFormed(t) && h in t
    ensures IsPath(t, h, p)
    decreases t[h].number
  {
    if t[h].number == 0 then
      [h]
    else
      assert Linked(t, h);
      Path(t, t[h].parentHash) + [h]
  }

  /** The number of leading elements two sequences share. */
  ghost function CommonPrefix(p: seq<Hash>, q: seq<Hash>): (n: nat)
    ensures n <= |p| && n <= |q|
    ensures forall i | 0 <= i < n :: p[i] == q[i]
    ensures n < |p| && n < |q| ==> p[n] != q[n]
  {
    if p == [] || q == [] || p[0] != q[0] then 0 else 1 + CommonPrefix(p[1..], q[1..])
  }

  /** The number of blocks on both ancestor paths; the last of them is the common block. */
  ghost function Shared(t: Headers, a: Hash, b: Hash): (n: nat)
    requires WellFormed(t) && a in t && b in t
    ensures 1 <= n <= |Path(t, a)| && n <= |Path(t, b)|
  {
    assert Path(t, a)[0] == Path(t, b)[0];
    CommonPrefix(Path(t, a), Path(t, b))
  }

  ghost function CommonBlock(t: Headers, a: Hash, b: Hash): Hash
    requires WellFormed(t) && a in t && b in t
  {
    Path(t, a)[Shared(t, a, b) - 1]
  }

  ghost predicate IsHighestCommonAncestor(t: Headers, a: Hash, b: Hash, c: Hash)
    requires WellFormed(t) && a in t && b in t
  {
    && c in Path(t, a)
    && c in Path(t, b)
    && forall d | d in Path(t, a) && d in Path(t, b) :: t[d].number <= t[c].number
  }

  /** Paths that meet at one height agree at every height below it. */
  lemma {:induction false} AgreeBelow(t: Headers, a: Hash, b: Hash, i: nat, k: nat)
    requires WellFormed(t) && a in t && b in t
    requires k <= i < |Path(t, a)| && i < |Path(t, b)|
    requires Path(t, a)[i] == Path(t, b)[i]
    ensures Path(t, a)[k] == Path(t, b)[k]
    decreases i - k
  {
    if k < i {
      AgreeBelow(t, a, b, i, k + 1);
    }
  }

  /** Above the shared blocks the two paths have no block in common. */
  lemma DisjointAbove(t: Headers, a: Hash, b: Hash, i: nat, j: nat)
    requires WellFormed(t) && a in t && b in t
    requires Shared(t, a, b) <= i < |Path(t, a)| && j < |Path(t, b)|
    ensures Path(t, a)[i] != Path(t, b)[j]
  {
    if Path(t, a)[i] == Path(t, b)[j] {
      assert i == j;
      AgreeBelow(t, a, b, i, Shared(t, a, b));
      assert false;
    }
  }

  /** The common block is the highest common ancestor, and the only one. */
  lemma CommonBlockIsHighest(t: Headers, a: Hash, b: Hash, c: Hash)
    requires WellFormed(t) && a in t && b in t
    ensures CommonBlock(t, a, b) in t && t[CommonBlock(t, a, b)].number == Shared(t, a, b) - 1
    ensures IsHighestCommonAncestor(t, a, b, c) <==> c == CommonBlock(t, a, b)
  {
    var p, q, n := Path(t, a), Path(t, b), Shared(t, a, b);
    var common := CommonBlock(t, a, b);
    assert q[n - 1] == common;
    forall d | d in p && d in q
      ensures t[d].number < n
    {
      var i :| 0 <= i < |p| && p[i] == d;
      var j :| 0 <= j < |q| && q[j] == d;
      if n <= i {
        DisjointAbove(t, a, b, i, j);
        assert false;
      }
    }
    if IsHighestCommonAncestor(t, a, b, c) {
      assert common in p && common in q;
      assert t[c].number == n - 1;
      assert p[n - 1] == c;
    }
  }

  /** The elements of `p` from index `n` on, with their heights. */
  ghost function Segment(p: seq<Hash>, n: nat): (s: seq<HashAndNumber>)
    requires n <= |p|
    ensures |s| == |p| - n
  {
    seq(|p| - n, i requires 0 <= i < |p| - n => HashAndNumber(p[n + i], n + i))
  }

  ghost function Suffix(p: seq<Hash>, n: nat): (s: set<Hash>) {
    set i | n <= i < |p| :: p[i]
  }

  /** The blocks a route from `a` to `b` touches: both branches and the common block. */
  ghost function RouteBlocks(t: Headers, a: Hash, b: Hash): (s: set<Hash>)
    requires WellFormed(t) && a in t && b in t
    ensures s <= t.Keys
  {
    Suffix(Path(t, a), Shared(t, a, b) - 1) + Suffix(Path(t, b), Shared(t, a, b) - 1)
  }

  lemma SuffixIs(t: Headers, a: Hash, p: seq<Hash>, n: nat, h: Hash)
    requires a in t && IsPath(t, a, p)
    ensures h in Suffix(p, n) <==> h in p && t[h].number >= n
  {
  }

  /** A route touches the ancestors of either tip that are not below the highest common one. */
  lemma RouteBlocksAre(t: Headers, a: Hash, b: Hash, c: Hash, h: Hash)
    requires WellFormed(t) && a in t && b in t && IsHighestCommonAncestor(t, a, b, c)
    ensures h in RouteBlocks(t, a, b) <==> (h in Path(t, a) || h in Path(t, b)) && t[h].number >= t[c].number
  {
    CommonBlockIsHighest(t, a, b, c);
    SuffixIs(t, a, Path(t, a), Shared(t, a, b) - 1, h);
    SuffixIs(t, b, Path(t, b), Shared(t, a, b) - 1, h);
  }
}
