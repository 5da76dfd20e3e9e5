/**
 The header cache of the follower: headers by hash, and the hashes known at each height.
 The two maps are updated separately and have to stay consistent.
 */
module HeadersCache {
  import opened BlockTree

  datatype Error = MissingBlock | Rpc | Subxt | MissingBlockHashFromCache(hash: Hash)

  /** The errors that come from the node or its subscription, not from the cache. */
  type NodeError = e: Error | !e.MissingBlockHashFromCache? witness MissingBlock

  datatype Result<+T> = Ok(value: T) | Err(error: Error) {
    predicate IsFailure() { Err? }
    function PropagateFailure<U>(): Result<U> requires Err? { Err(error) }
    function Extract(): T requires Ok? { value }
  }

  /** What a tree walk asks of a header. */
  datatype CachedHeaderMetadata = CachedHeaderMetadata(hash: Hash, number: nat, parent: Hash)

  type Index = map<nat, set<Hash>>

  predicate Filed(index: Index, n: nat, h: Hash) {
    n in index && h in index[n]
  }

  /** A hash is filed under a height exactly when a header of that height is stored under it. */
  ghost predicate Agree(data: Headers, index: Index) {
    && (forall h | h in data :: Filed(index, data[h].number, h))
    && (forall n, h | Filed(index, n, h) :: h in data && data[h].number == n)
    && (forall n | n in index :: index[n] != {})
  }

  /** The cached heights. */
  ghost function Heights(data: Headers): (s: set<nat>) {
    set h | h in data :: data[h].number
  }

  lemma HeightsAreIndexed(data: Headers, index: Index)
    requires Agree(data, index)
    ensures Heights(data) == index.Keys
  {
    forall n | n in index
      ensures n in Heights(data)
    {
      var h :| h in index[n];
      assert Filed(index, n, h);
    }
    forall h | h in data
      ensures data[h].number in index
    {
      assert Filed(index, data[h].number, h);
    }
  }

  /** Agreement leaves no freedom: the stored headers determine the height index. */
  lemma AgreementDeterminesIndex(data: Headers, index: Index, other: Index)
    requires Agree(data, index) && Agree(data, other)
    ensures index == other
    ensures forall m, n | m in index && n in index && m != n :: index[m] !! index[n]
  {
    HeightsAreIndexed(data, index);
    HeightsAreIndexed(data, other);
    assert index.Keys == other.Keys;
    forall n | n in index
      ensures index[n] == other[n]
    {
      assert forall h :: h in index[n] <==> Filed(index, n, h);
      assert forall h :: h in other[n] <==> Filed(other, n, h);
    }
    forall m, n | m in index && n in index && m != n
      ensures index[m] !! index[n]
    {
      assert forall h | h in index[m] :: Filed(index, m, h);
      assert forall h | h in index[n] :: Filed(index, n, h);
    }
  }

  /** Dropping one height from both maps drops exactly the headers of that height. */
  lemma DropHeightAgrees(data: Headers, index: Index, n: nat)
    requires Agree(data, index) && n in index
    ensures Agree(data - index[n], index - {n})
    ensures forall h :: h in data - index[n] <==> h in data && data[h].number != n
  {
    assert forall h :: h in index[n] <==> Filed(index, n, h);
    assert forall m, h :: Filed(index - {n}, m, h) <==> m != n && Filed(index, m, h);
  }

  function IndexInsert(index: Index, number: nat, hash: Hash): Index {
    index[number := (if number in index then index[number] else {}) + {hash}]
  }

  /**
   Storing a header under a hash keeps the maps in agreement exactly when the hash was not
   already taken by a header of another height.
   */
  lemma InsertAgreesIff(data: Headers, index: Index, hash: Hash, header: Header)
    requires Agree(data, index)
    ensures Agree(data[hash := header], IndexInsert(index, header.number, hash))
       <==> (hash in data ==> data[hash].number == header.number)
  {
    var data', index' := data[hash := header], IndexInsert(index, header.number, hash);
    assert forall n, h :: Filed(index', n, h) <==> Filed(index, n, h) || (n == header.number && h == hash);
    if hash in data && data[hash].number != header.number {
      assert Filed(index', data[hash].number, hash);
    }
  }

  /** `m` belongs to the unbroken run of `heights` that ends at `n`. */
  ghost predicate InRun(heights: set<nat>, m: nat, n: nat) {
    m <= n && forall k | m <= k <= n :: k in heights
  }

  /** The headers that are left when the unbroken run ending at `n` goes. */
  ghost function WithoutRun(data: Headers, n: nat): (kept: Headers)
    ensures Faithful(kept, data)
  {
    map h | h in data && !InRun(Heights(data), data[h].number, n) :: data[h]
  }

  /** The run that ends at `n` is everything above the first height that is not indexed. */
  lemma RunEndsAtGap(data: Headers, index: Index, n: nat, gap: int)
    requires Agree(data, index)
    requires -1 <= gap <= n && gap !in index
    requires forall k | gap < k <= n :: k in index
    ensures WithoutRun(data, n) == map h | h in data && !(gap < data[h].number <= n) :: data[h]
  {
    HeightsAreIndexed(data, index);
    forall h | h in data
      ensures InRun(Heights(data), data[h].number, n) <==> gap < data[h].number <= n
    {
      if data[h].number <= gap {
        assert gap !in Heights(data);
      }
    }
  }

  /** The heights above `next` up to `n`, all of them indexed, are gone from both maps. */
  ghost predicate Cleared(data: Headers, index: Index, data': Headers, index': Index, next: int, n: nat) {
    && (forall k | next < k <= n :: k in index)
    && index'.Keys == (set k | k in index && !(next < k <= n))
    && data' == map h | h in data && !(next < data[h].number <= n) :: data[h]
  }

  lemma ClearedFurther(data: Headers, index: Index, data': Headers, index': Index, next: nat, n: nat)
    requires Agree(data', index') && Cleared(data, index, data', index', next, n)
    requires next in index' && next <= n
    ensures Agree(data' - index'[next], index' - {next})
    ensures Cleared(data, index, data' - index'[next], index' - {next}, next - 1, n)
  {
    DropHeightAgrees(data', index', next);
  }

  /** No cached height at or below `n` is followed by a gap before `n`. */
  ghost predicate Gapless(heights: set<nat>, n: nat) {
    forall m, k | m in heights && m <= k <= n :: k in heights
  }

  /**
   Dropping the run that ends at `n` clears every height up to `n` exactly when the cached
   heights had no gap there: below a gap, headers stay for ever.
   */
  lemma PruneClearsIff(data: Headers, n: nat)
    ensures (forall h | h in WithoutRun(data, n) :: data[h].number > n) <==> Gapless(Heights(data), n)
  {
    if forall h | h in WithoutRun(data, n) :: data[h].number > n {
      forall m, k | m in Heights(data) && m <= k <= n
        ensures k in Heights(data)
      {
        var h :| h in data && data[h].number == m;
        assert h !in WithoutRun(data, n);
      }
    }
    if Gapless(Heights(data), n) {
      forall h | h in data && data[h].number <= n
        ensures InRun(Heights(data), data[h].number, n)
      {
        assert data[h].number in Heights(data);
      }
    }
  }

  class HeadersMetadataCache {
    const hashOf: Header -> Hash
    var blockHeaderData: Headers
    var blockNumberHashes: Index

    /** Every stored header hashes to its key. */
    ghost predicate Keyed()
      reads this
    {
      ContentAddressed(blockHeaderData, hashOf)
    }

    ghost predicate Valid()
      reads this
    {
      Agree(blockHeaderData, blockNumberHashes) && Keyed()
    }

    constructor (hashOf: Header -> Hash)
      ensures Valid()
      ensures this.hashOf == hashOf
      ensures blockHeaderData == map[]
    {
      this.hashOf := hashOf;
      blockHeaderData := map[];
      blockNumberHashes := map[];
    }

    /** Stores a header under its own hash. Two different headers must not share a hash. */
    method AddHeader(header: Header) returns (hash: Hash)
      requires Valid()
      requires hashOf(header) in blockHeaderData ==> blockHeaderData[hashOf(header)] == header
      modifies this
      ensures Valid()
      ensures hash == hashOf(header)
      ensures blockHeaderData == old(blockHeaderData)[hash := header]
    {
      hash := hashOf(header);
      InsertAgreesIff(blockHeaderData, blockNumberHashes, hash, header);
      blockHeaderData := blockHeaderData[hash := header];
      blockNumberHashes := IndexInsert(blockNumberHashes, header.number, hash);
    }

    /** Removes the unbroken run of cached heights that ends at `number`, in both maps. */
    method RemoveHeaderUntil(number: nat)
      requires Valid()
      modifies this
      ensures Valid()
      ensures blockHeaderData == WithoutRun(old(blockHeaderData), number)
    {
      ghost var data, index := blockHeaderData, blockNumberHashes;
      var toRemove := number;
      // The next height to try, had the counter not stopped at zero.
      ghost var next: int := number;
      while toRemove in blockNumberHashes
        invariant -1 <= next <= number
        invariant toRemove == if next < 0 then 0 else next
        invariant Agree(blockHeaderData, blockNumberHashes)
        invariant Cleared(data, index, blockHeaderData, blockNumberHashes, next, number)
        decreases next + 1
      {
        ClearedFurther(data, index, blockHeaderData, blockNumberHashes, next, number);
        var hashes := blockNumberHashes[toRemove];
        blockNumberHashes := blockNumberHashes - {toRemove};
        blockHeaderData := blockHeaderData - hashes;
        toRemove := if toRemove == 0 then 0 else toRemove - 1;
        next := next - 1;
      }
      RunEndsAtGap(data, index, number, next);
    }

    function GetHeader(hash: Hash): (r: Result<Header>)
      reads this
      ensures r.Ok? <==> hash in blockHeaderData
      ensures r.Ok? ==> r.value == blockHeaderData[hash]
      ensures r.Err? ==> r.error == MissingBlockHashFromCache(hash)
    {
      if hash in blockHeaderData then Ok(blockHeaderData[hash]) else Err(MissingBlockHashFromCache(hash))
    }

    /** The walk's view of a cached header; its hash is recomputed from the header. */
    function HeaderMetadata(hash: Hash): (r: Result<CachedHeaderMetadata>)
      reads this
      requires Keyed()
      ensures r.Ok? <==> hash in blockHeaderData
      ensures r.Ok? ==> r.value.hash == hash
      ensures r.Ok? ==> r.value.number == blockHeaderData[hash].number
      ensures r.Ok? ==> r.value.parent == blockHeaderData[hash].parentHash
      ensures r.Err? ==> r.error == MissingBlockHashFromCache(hash)
    {
      if hash in blockHeaderData then
        var header := blockHeaderData[hash];
        Ok(CachedHeaderMetadata(hashOf(header), header.number, header.parentHash))
      else
        Err(MissingBlockHashFromCache(hash))
    }
  }
}
