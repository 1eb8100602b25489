/** The block hash lookup of the EVM: a closure that walks back from a header and caches the hashes on its way. */
module HashFn {
  import opened BlockTree

  /** The plain walk: the hash of number n, starting at a hash known to have the given number. */
  function WalkTo(headers: Store, hash: Hash, number: nat, n: nat): Hash
    decreases number
  {
    if number <= n then hash
    else
      var header := GetBlock(headers, hash, number);
      if header.None? then ZERO_HASH else WalkTo(headers, header.value.parent, number - 1, n)
  }

  /** What the lookup answers for number n: the walk from the parent, and nothing at or above the header itself. */
  function HashAt(headers: Store, ref: Block, n: nat): Hash {
    if ref.number <= n then ZERO_HASH else WalkTo(headers, ref.parent, ref.number - 1, n)
  }

  /** On a tree that is the true ancestor. */
  lemma {:induction false} WalkFindsAncestor(headers: Store, genesis: Hash, hash: Hash, n: nat)
    requires Tree(headers, genesis) && hash in headers && n <= headers[hash].number
    ensures WalkTo(headers, hash, headers[hash].number, n) == AncestorAt(headers, hash, n)
    decreases headers[hash].number
  {
    assert Attached(headers, genesis, hash);
    if n < headers[hash].number {
      WalkFindsAncestor(headers, genesis, headers[hash].parent, n);
    }
  }

  /** So the lookup of a stored header answers with its ancestors, and with nothing for itself and what is above. */
  lemma HashAtIsAncestor(headers: Store, genesis: Hash, ref: Block, n: nat)
    requires Tree(headers, genesis) && Stored(headers, ref)
    ensures HashAt(headers, ref, n) == if n < ref.number then AncestorAt(headers, ref.hash, n) else ZERO_HASH
  {
    assert Attached(headers, genesis, ref.hash);
    if n < ref.number {
      WalkFindsAncestor(headers, genesis, ref.parent, n);
    }
  }

  /** The i-th cached hash: every query at or below its number may start from it. */
  ghost predicate Answers(headers: Store, ref: Block, i: nat, hash: Hash) {
    i < ref.number && forall n: nat | n <= ref.number - 1 - i ::
      HashAt(headers, ref, n) == WalkTo(headers, hash, ref.number - 1 - i, n)
  }

  lemma Answered(headers: Store, ref: Block, i: nat, hash: Hash)
    requires Answers(headers, ref, i, hash) && i + 1 < ref.number && GetBlock(headers, hash, ref.number - 1 - i).Some?
    ensures Answers(headers, ref, i + 1, GetBlock(headers, hash, ref.number - 1 - i).value.parent)
  {
  }

  lemma FirstAnswer(headers: Store, ref: Block)
    ensures ref.number > 0 ==> Answers(headers, ref, 0, ref.parent)
  {
  }

  lemma WalkEnds(headers: Store, hash: Hash, n: nat)
    ensures WalkTo(headers, hash, n, n) == hash
  {
  }

  lemma WalkStep(headers: Store, hash: Hash, number: nat, n: nat)
    requires n < number
    ensures var header := GetBlock(headers, hash, number);
            WalkTo(headers, hash, number, n)
            == if header.None? then ZERO_HASH else WalkTo(headers, header.value.parent, number - 1, n)
  {
  }

  class Lookup {
    const headers: Store
    const ref: Block
    var cache: seq<Hash>

    /** The cache holds the hashes below the header, one number after the other. */
    ghost predicate Valid()
      reads this
    {
      && |cache| <= ref.number
      && forall i | 0 <= i < |cache| :: Answers(headers, ref, i, cache[i])
    }

    constructor (headers: Store, ref: Block)
      ensures this.headers == headers && this.ref == ref && cache == [] && Valid()
    {
      this.headers, this.ref, this.cache := headers, ref, [];
    }

    /** Whatever queries came before, the answer is that of the plain walk. */
    method GetHash(n: nat) returns (hash: Hash)
      requires Valid()
      modifies this
      ensures Valid() && old(cache) <= cache
      ensures hash == HashAt(headers, ref, n)
    {
      hide WalkTo, GetBlock;
      FirstAnswer(headers, ref);
      if ref.number <= n {
        return ZERO_HASH;
      }
      if |cache| == 0 {
        cache := [ref.parent];
      }
      var idx := ref.number - n - 1;
      if idx < |cache| {
        assert Answers(headers, ref, idx, cache[idx]);
        WalkEnds(headers, cache[idx], n);
        return cache[idx];
      }
      var lastKnownHash, lastKnownNumber := cache[|cache| - 1], ref.number - |cache|;
      assert Answers(headers, ref, |cache| - 1, lastKnownHash);
      while true
        invariant Valid() && old(cache) <= cache && |cache| > 0
        invariant lastKnownNumber == ref.number - |cache| > n
        invariant lastKnownHash == cache[|cache| - 1]
        invariant HashAt(headers, ref, n) == WalkTo(headers, lastKnownHash, lastKnownNumber, n)
        decreases lastKnownNumber
      {
        var header := GetBlock(headers, lastKnownHash, lastKnownNumber);
        WalkStep(headers, lastKnownHash, lastKnownNumber, n);
        if header.None? {
          break;
        }
        Answered(headers, ref, |cache| - 1, lastKnownHash);
        cache := cache + [header.value.parent];
        lastKnownHash, lastKnownNumber := header.value.parent, header.value.number - 1;
        if n == lastKnownNumber {
          WalkEnds(headers, lastKnownHash, n);
          return lastKnownHash;
        }
      }
      return ZERO_HASH;
    }
  }
}
