/** The canonical chain: the number index, the transaction index and the head markers over the block tree. */
module CanonicalChain {
  import opened BlockTree
  import opened Reorg

  datatype WriteStatus = NonStat | Canon | Side

  function ReadCanonicalHash(canon: map<nat, Hash>, n: nat): Hash {
    if n in canon then canon[n] else ZERO_HASH
  }

  /** Canonical block n of the chain ending in h contains tx. */
  ghost predicate Contains(s: Store, h: Hash, n: nat, tx: Hash) {
    h in s && n <= s[h].number && AncestorAt(s, h, n) in s && tx in s[AncestorAt(s, h, n)].txs
  }

  /** The transaction index maps a hash to n exactly when block n of the chain contains it. */
  ghost predicate LookupExact(s: Store, lookup: map<Hash, nat>, h: Hash) {
    && (forall tx | tx in lookup :: Contains(s, h, lookup[tx], tx))
    && (forall n: nat, tx: Hash | Contains(s, h, n, tx) :: tx in lookup && lookup[tx] == n)
  }

  /** No transaction occurs in two blocks of the chain. */
  ghost predicate NoRepeats(s: Store, h: Hash) {
    forall m: nat, n: nat, tx: Hash | Contains(s, h, m, tx) && Contains(s, h, n, tx) :: m == n
  }

  /** An exact transaction index exists only for chains without repeated transactions. */
  lemma ExactMeansNoRepeats(s: Store, lookup: map<Hash, nat>, h: Hash)
    requires LookupExact(s, lookup, h)
    ensures NoRepeats(s, h)
  {
  }

  function IndexTxs(lookup: map<Hash, nat>, b: Block): map<Hash, nat> {
    lookup + map tx | tx in b.txs :: b.number
  }

  /** Where the index stands once reorg returns: the head itself is left to the caller, unless it was canonical. */
  ghost function Landing(s: Store, oldHead: Block, newHead: Block): Hash {
    if IsAncestor(s, newHead.hash, oldHead.hash) then newHead.hash else newHead.parent
  }

  /** The scan of reorg for numbers to delete: it stops at the first gap above number. */
  method StaleNumbers(canon: map<nat, Hash>, number: nat) returns (stale: set<nat>, ghost gap: nat)
    ensures gap > number && ReadCanonicalHash(canon, gap) == ZERO_HASH
    ensures forall n :: n in stale <==> number < n < gap
    ensures stale <= canon.Keys
  {
    var i := number + 1;
    stale := {};
    while ReadCanonicalHash(canon, i) != ZERO_HASH
      invariant i > number
      invariant forall n :: n in stale <==> number < n < i
      invariant stale <= canon.Keys
      decreases canon.Keys - stale
    {
      stale := stale + {i};
      i := i + 1;
    }
    gap := i;
  }

  method HashDifference(a: seq<Hash>, b: seq<Hash>) returns (keep: seq<Hash>)
    ensures forall h :: h in keep <==> h in a && h !in b
  {
    keep := [];
    for i := 0 to |a|
      invariant forall h :: h in keep <==> h in a[..i] && h !in b
    {
      if a[i] !in b {
        keep := keep + [a[i]];
      }
    }
    assert a[..|a|] == a;
  }

  /** What the index holds after blocks common+1 .. top of the new chain were written over canon. */
  ghost predicate Overwritten(s: Store, canon: map<nat, Hash>, newHead: Block, common: nat, top: nat,
                              result: map<nat, Hash>) {
    forall n: nat ::
      if common < n <= top then n in result && result[n] == AncestorAt(s, newHead.hash, n)
      else (n in result <==> n in canon) && (n in canon ==> result[n] == canon[n])
  }

  ghost predicate WrittenBy(chain: seq<Block>, from: nat, tx: Hash) {
    exists k :: from <= k < |chain| && tx in chain[k].txs
  }

  /** What the transaction index holds after the blocks of chain[from..] were written over lookup. */
  ghost predicate Indexed(lookup: map<Hash, nat>, chain: seq<Block>, from: nat, result: map<Hash, nat>) {
    forall tx: Hash ::
      if WrittenBy(chain, from, tx) then exists k ::
        from <= k < |chain| && tx in chain[k].txs && tx in result && result[tx] == chain[k].number
      else (tx in result <==> tx in lookup) && (tx in lookup ==> result[tx] == lookup[tx])
  }

  /** What FindFork promises of a fork between two stored heads. */
  ghost predicate ForkBetween(s: Store, oldHead: Block, newHead: Block, fork: Fork) {
    && HighestCommon(s, oldHead.hash, newHead.hash, fork.common.hash)
    && Segment(s, oldHead, fork.common, fork.oldChain)
    && Segment(s, newHead, fork.common, fork.newChain)
    && fork.deletedTxs == TxsOf(fork.oldChain)
  }

  /** The number reorg keeps indexes up to. */
  function KeptNumber(fork: Fork): nat {
    if |fork.newChain| > 1 then fork.newChain[1].number else fork.common.number
  }

  lemma LandingFacts(s: Store, genesis: Hash, oldHead: Block, newHead: Block, fork: Fork)
    requires Tree(s, genesis) && ForkBetween(s, oldHead, newHead, fork)
    ensures var l := Landing(s, oldHead, newHead);
            && l in s
            && s[l].number == KeptNumber(fork)
            && (forall n: nat | n <= s[l].number :: AncestorAt(s, l, n) == AncestorAt(s, newHead.hash, n))
            && (fork.newChain == [] <==> IsAncestor(s, newHead.hash, oldHead.hash))
            && (fork.newChain != [] ==> s[l].number == newHead.number - 1)
  {
    assert Attached(s, genesis, newHead.hash);
    if fork.newChain == [] {
      assert fork.common == newHead;
    } else {
      assert !IsAncestor(s, newHead.hash, oldHead.hash) by {
        if IsAncestor(s, newHead.hash, oldHead.hash) {
          assert IsAncestor(s, newHead.hash, newHead.hash);
        }
      }
      if |fork.newChain| > 1 {
        assert fork.newChain[1].number == newHead.number - 1;
      }
    }
  }

  /** Below the common block the old and the new path agree. */
  lemma ForkShares(s: Store, genesis: Hash, oldHead: Block, newHead: Block, fork: Fork)
    requires Tree(s, genesis) && ForkBetween(s, oldHead, newHead, fork)
    ensures forall n: nat | n <= fork.common.number :: AncestorAt(s, oldHead.hash, n) == AncestorAt(s, newHead.hash, n)
  {
    SharedBelow(s, genesis, oldHead.hash, newHead.hash, fork.common.number);
  }

  /** The index reorg may start from: the old path, with the new head perhaps already written. */
  ghost predicate StartsFrom(s: Store, canon: map<nat, Hash>, oldHead: Block, newHead: Block)
    requires oldHead.hash in s
  {
    canon == PathIndex(s, oldHead.hash) || canon == PathIndex(s, oldHead.hash)[newHead.number := newHead.hash]
  }

  /** At and below the kept number the written index is the path to the landing block. */
  lemma KeptEntry(s: Store, genesis: Hash, oldHead: Block, newHead: Block, fork: Fork,
                  before: map<nat, Hash>, written: map<nat, Hash>, n: nat)
    requires Tree(s, genesis) && ForkBetween(s, oldHead, newHead, fork)
    requires StartsFrom(s, before, oldHead, newHead)
    requires Overwritten(s, before, newHead, fork.common.number, KeptNumber(fork), written)
    requires n <= KeptNumber(fork)
    ensures n in written && written[n] == AncestorAt(s, newHead.hash, n)
  {
    if n <= fork.common.number {
      ForkShares(s, genesis, oldHead, newHead, fork);
      assert n in before && before[n] == AncestorAt(s, oldHead.hash, n);
    }
  }

  lemma StoredHashNonZero(s: Store, genesis: Hash, oldHead: Block, newHead: Block, canon: map<nat, Hash>, n: nat)
    requires Tree(s, genesis) && Stored(s, oldHead) && Stored(s, newHead)
    requires StartsFrom(s, canon, oldHead, newHead)
    requires n in canon
    ensures canon[n] != ZERO_HASH
  {
    assert Attached(s, genesis, newHead.hash);
    if n <= oldHead.number {
      AncestorStored(s, genesis, oldHead.hash, n);
      assert Attached(s, genesis, AncestorAt(s, oldHead.hash, n));
    }
  }

  /** Above the kept number the written index has no gap, so the scan meets every entry. */
  lemma StaleEntry(s: Store, genesis: Hash, oldHead: Block, newHead: Block, fork: Fork,
                   before: map<nat, Hash>, written: map<nat, Hash>, gap: nat, n: nat)
    requires Tree(s, genesis) && ForkBetween(s, oldHead, newHead, fork)
    requires StartsFrom(s, before, oldHead, newHead)
    requires Overwritten(s, before, newHead, fork.common.number, KeptNumber(fork), written)
    requires gap > KeptNumber(fork) && ReadCanonicalHash(written, gap) == ZERO_HASH
    requires n > KeptNumber(fork) && n in written
    ensures n < gap
  {
    if n >= gap {
      assert n in before;
      assert newHead.number <= KeptNumber(fork) + 1 by {
        LandingFacts(s, genesis, oldHead, newHead, fork);
      }
      assert forall m: nat :: m in before <==> m <= oldHead.number || (newHead.number in before && m == newHead.number);
      assert gap in before;
      StoredHashNonZero(s, genesis, oldHead, newHead, before, gap);
    }
  }

  /** The index is the path to the landing block. */
  ghost predicate IndexLanded(s: Store, canon: map<nat, Hash>, oldHead: Block, newHead: Block) {
    Landing(s, oldHead, newHead) in s && canon == PathIndex(s, Landing(s, oldHead, newHead))
  }

  /** If the transaction index was exact for the old chain and the new one repeats no transaction, it is exact for the
      landing block. */
  ghost predicate LookupLanded(s: Store, before: map<Hash, nat>, after: map<Hash, nat>, oldHead: Block,
                               newHead: Block) {
    LookupExact(s, before, oldHead.hash) && NoRepeats(s, Landing(s, oldHead, newHead)) ==>
      LookupExact(s, after, Landing(s, oldHead, newHead))
  }

  lemma IndexAfterReorg(s: Store, genesis: Hash, oldHead: Block, newHead: Block, fork: Fork,
                        before: map<nat, Hash>, written: map<nat, Hash>, stale: set<nat>, gap: nat)
    requires Tree(s, genesis) && ForkBetween(s, oldHead, newHead, fork)
    requires StartsFrom(s, before, oldHead, newHead)
    requires Overwritten(s, before, newHead, fork.common.number, KeptNumber(fork), written)
    requires gap > KeptNumber(fork) && ReadCanonicalHash(written, gap) == ZERO_HASH
    requires forall n :: n in stale <==> KeptNumber(fork) < n < gap
    ensures IndexLanded(s, written - stale, oldHead, newHead)
  {
    var l := Landing(s, oldHead, newHead);
    assert l in s && s[l].number == KeptNumber(fork)
           && forall n: nat | n <= s[l].number :: AncestorAt(s, l, n) == AncestorAt(s, newHead.hash, n) by {
      LandingFacts(s, genesis, oldHead, newHead, fork);
    }
    var after := written - stale;
    forall n: nat | n <= s[l].number
      ensures n in after && after[n] == AncestorAt(s, l, n)
    {
      KeptEntry(s, genesis, oldHead, newHead, fork, before, written, n);
    }
    forall n: nat | n in after
      ensures n <= s[l].number
    {
      if n > s[l].number {
        StaleEntry(s, genesis, oldHead, newHead, fork, before, written, gap, n);
      }
    }
  }

  /** The transactions of a segment are those its chain contains above the bottom block. */
  lemma SegmentTxs(s: Store, top: Block, bottom: Block, chain: seq<Block>, tx: Hash)
    requires Segment(s, top, bottom, chain)
    ensures tx in TxsOf(chain) <==> exists m: nat :: m > bottom.number && Contains(s, top.hash, m, tx)
  {
    TxsOfMember(chain, tx);
    if tx in TxsOf(chain) {
      var i :| 0 <= i < |chain| && tx in chain[i].txs;
      assert IsOnPath(s, top, chain[i]);
      assert Contains(s, top.hash, chain[i].number, tx);
    }
    forall m: nat | m > bottom.number && Contains(s, top.hash, m, tx)
      ensures tx in TxsOf(chain)
    {
      var i := top.number - m;
      assert IsOnPath(s, top, chain[i]) && chain[i].number == m;
    }
  }

  /** The blocks reorg writes are the landing chain above the fork. */
  lemma WrittenAreAboveFork(s: Store, genesis: Hash, oldHead: Block, newHead: Block, fork: Fork, tx: Hash, n: nat)
    requires Tree(s, genesis) && ForkBetween(s, oldHead, newHead, fork)
    requires fork.common.number < n
    ensures Contains(s, Landing(s, oldHead, newHead), n, tx)
            <==> exists k :: 1 <= k < |fork.newChain| && tx in fork.newChain[k].txs && fork.newChain[k].number == n
  {
    LandingFacts(s, genesis, oldHead, newHead, fork);
    if n <= KeptNumber(fork) {
      var k := newHead.number - n;
      var b := fork.newChain[k];
      assert b.number == n && IsOnPath(s, newHead, b);
      assert s[AncestorAt(s, Landing(s, oldHead, newHead), n)] == b;
    }
  }

  /** Below the fork the landing chain is the old chain. */
  lemma KeptBelowFork(s: Store, genesis: Hash, oldHead: Block, newHead: Block, fork: Fork, tx: Hash, n: nat)
    requires Tree(s, genesis) && ForkBetween(s, oldHead, newHead, fork)
    requires n <= fork.common.number
    ensures Contains(s, Landing(s, oldHead, newHead), n, tx) <==> Contains(s, oldHead.hash, n, tx)
  {
    LandingFacts(s, genesis, oldHead, newHead, fork);
    ForkShares(s, genesis, oldHead, newHead, fork);
  }

  /** Every entry left after the deletions is right. */
  lemma LookupSound(s: Store, genesis: Hash, oldHead: Block, newHead: Block, fork: Fork,
                    before: map<Hash, nat>, written: map<Hash, nat>, tx: Hash)
    requires Tree(s, genesis) && ForkBetween(s, oldHead, newHead, fork)
    requires LookupExact(s, before, oldHead.hash)
    requires Indexed(before, fork.newChain, 1, written)
    requires tx in written && (tx in fork.deletedTxs ==> WrittenBy(fork.newChain, 1, tx))
    ensures Contains(s, Landing(s, oldHead, newHead), written[tx], tx)
  {
    if WrittenBy(fork.newChain, 1, tx) {
      var k :| 1 <= k < |fork.newChain| && tx in fork.newChain[k].txs && written[tx] == fork.newChain[k].number;
      WrittenAreAboveFork(s, genesis, oldHead, newHead, fork, tx, written[tx]);
    } else {
      SegmentTxs(s, oldHead, fork.common, fork.oldChain, tx);
      assert Contains(s, oldHead.hash, before[tx], tx);
      KeptBelowFork(s, genesis, oldHead, newHead, fork, tx, before[tx]);
    }
  }

  /** No entry is missing or points elsewhere. */
  lemma LookupComplete(s: Store, genesis: Hash, oldHead: Block, newHead: Block, fork: Fork,
                       before: map<Hash, nat>, written: map<Hash, nat>, tx: Hash, n: nat)
    requires Tree(s, genesis) && ForkBetween(s, oldHead, newHead, fork)
    requires LookupExact(s, before, oldHead.hash)
    requires Indexed(before, fork.newChain, 1, written)
    requires NoRepeats(s, Landing(s, oldHead, newHead))
    requires Contains(s, Landing(s, oldHead, newHead), n, tx)
    ensures tx in written && written[tx] == n
    ensures tx in fork.deletedTxs ==> WrittenBy(fork.newChain, 1, tx)
  {
    if WrittenBy(fork.newChain, 1, tx) {
      var k :| && 1 <= k < |fork.newChain| && tx in fork.newChain[k].txs
               && tx in written && written[tx] == fork.newChain[k].number;
      WrittenAreAboveFork(s, genesis, oldHead, newHead, fork, tx, written[tx]);
    } else {
      if n > fork.common.number {
        WrittenAreAboveFork(s, genesis, oldHead, newHead, fork, tx, n);
      }
      KeptBelowFork(s, genesis, oldHead, newHead, fork, tx, n);
      SegmentTxs(s, oldHead, fork.common, fork.oldChain, tx);
    }
  }

  lemma LookupAfterReorg(s: Store, genesis: Hash, oldHead: Block, newHead: Block, fork: Fork,
                         before: map<Hash, nat>, written: map<Hash, nat>, dropped: set<Hash>)
    requires Tree(s, genesis) && ForkBetween(s, oldHead, newHead, fork)
    requires Indexed(before, fork.newChain, 1, written)
    requires forall tx :: tx in dropped <==> tx in fork.deletedTxs && !WrittenBy(fork.newChain, 1, tx)
    ensures LookupLanded(s, before, written - dropped, oldHead, newHead)
  {
    if LookupExact(s, before, oldHead.hash) && NoRepeats(s, Landing(s, oldHead, newHead)) {
      forall tx | tx in written - dropped
        ensures Contains(s, Landing(s, oldHead, newHead), written[tx], tx)
      {
        LookupSound(s, genesis, oldHead, newHead, fork, before, written, tx);
      }
      forall n: nat, tx: Hash | Contains(s, Landing(s, oldHead, newHead), n, tx)
        ensures tx in written - dropped && written[tx] == n
      {
        LookupComplete(s, genesis, oldHead, newHead, fork, before, written, tx, n);
      }
    }
  }

  lemma OverwriteStep(s: Store, canon: map<nat, Hash>, newHead: Block, common: nat, b: Block, result: map<nat, Hash>)
    requires b.number > common
    requires Overwritten(s, canon, newHead, common, b.number - 1, result)
    requires IsOnPath(s, newHead, b)
    ensures Overwritten(s, canon, newHead, common, b.number, result[b.number := b.hash])
  {
  }

  lemma IndexStep(lookup: map<Hash, nat>, chain: seq<Block>, i: nat, result: map<Hash, nat>)
    requires i < |chain|
    requires Indexed(lookup, chain, i + 1, result)
    ensures Indexed(lookup, chain, i, IndexTxs(result, chain[i]))
    ensures forall tx :: WrittenBy(chain, i, tx) <==> tx in chain[i].txs || WrittenBy(chain, i + 1, tx)
  {
    var next := IndexTxs(result, chain[i]);
    forall tx: Hash
      ensures WrittenBy(chain, i, tx) <==> tx in chain[i].txs || WrittenBy(chain, i + 1, tx)
      ensures if WrittenBy(chain, i, tx) then exists k ::
                i <= k < |chain| && tx in chain[k].txs && tx in next && next[tx] == chain[k].number
              else (tx in next <==> tx in lookup) && (tx in lookup ==> next[tx] == lookup[tx])
    {
      if tx in chain[i].txs {
        assert next[tx] == chain[i].number;
      } else if WrittenBy(chain, i + 1, tx) {
        var k :| i + 1 <= k < |chain| && tx in chain[k].txs && tx in result && result[tx] == chain[k].number;
        assert next[tx] == chain[k].number;
      }
    }
  }

  /** Writing a head on top of its own path, or on top of its parent's, gives the head's path. */
  lemma HeadOnPath(s: Store, genesis: Hash, canon: map<nat, Hash>, b: Block, under: Hash)
    requires Tree(s, genesis) && Stored(s, b)
    requires under == b.hash || (under == b.parent && b.number > 0)
    requires under in s && canon == PathIndex(s, under)
    ensures canon[b.number := b.hash] == PathIndex(s, b.hash)
  {
    if under != b.hash {
      PathExtends(s, genesis, b.hash);
    }
  }

  lemma HeadInLookup(s: Store, genesis: Hash, lookup: map<Hash, nat>, b: Block, under: Hash)
    requires Tree(s, genesis) && Stored(s, b)
    requires under == b.hash || (under == b.parent && b.number > 0)
    requires LookupExact(s, lookup, under)
    requires NoRepeats(s, b.hash)
    ensures LookupExact(s, IndexTxs(lookup, b), b.hash)
  {
    assert Attached(s, genesis, b.hash);
    var after := IndexTxs(lookup, b);
    forall n: nat, tx: Hash
      ensures Contains(s, b.hash, n, tx)
              <==> (n == b.number && tx in b.txs) || (n < b.number && Contains(s, under, n, tx))
    {
    }
    forall tx | tx in after
      ensures Contains(s, b.hash, after[tx], tx)
    {
      if tx !in b.txs {
        assert Contains(s, under, lookup[tx], tx);
      }
    }
    forall n: nat, tx: Hash | Contains(s, b.hash, n, tx)
      ensures tx in after && after[tx] == n
    {
      if tx in b.txs {
        assert Contains(s, b.hash, b.number, tx);
      }
    }
  }

  /** Storing more blocks leaves the transaction index of a stored chain exact. */
  lemma LookupInExtension(s: Store, t: Store, genesis: Hash, lookup: map<Hash, nat>, h: Hash)
    requires Tree(s, genesis)
    requires s.Keys <= t.Keys && forall x | x in s :: t[x] == s[x]
    requires h in s && LookupExact(s, lookup, h)
    ensures LookupExact(t, lookup, h)
  {
    forall n: nat, tx: Hash
      ensures Contains(t, h, n, tx) <==> Contains(s, h, n, tx)
    {
      if n <= s[h].number {
        AncestorInExtension(s, t, genesis, h, n);
        AncestorStored(s, genesis, h, n);
      }
    }
  }

  ghost predicate DifficultyExact(s: Store, td: map<Hash, nat>) {
    td.Keys == s.Keys && forall h {:trigger TotalDifficulty(s, h)} | h in s :: td[h] == TotalDifficulty(s, h)
  }

  lemma DifficultyGrows(s: Store, genesis: Hash, td: map<Hash, nat>, b: Block)
    requires Tree(s, genesis) && DifficultyExact(s, td)
    requires b.hash != ZERO_HASH && (b.hash in s ==> s[b.hash] == b)
    requires b.parent in s && s[b.parent].number == b.number - 1
    ensures Tree(s[b.hash := b], genesis)
    ensures DifficultyExact(s[b.hash := b], td[b.hash := td[b.parent] + b.difficulty])
  {
    var t := s[b.hash := b];
    if b.hash in s {
      assert t == s;
      assert TotalDifficulty(s, b.hash) == b.difficulty + TotalDifficulty(s, b.parent);
    } else {
      assert Tree(t, genesis) by { TreeGrows(s, genesis, b); }
      forall h | h in s
        ensures TotalDifficulty(t, h) == td[h]
      {
        DifficultyInExtension(s, t, genesis, h);
      }
      assert TotalDifficulty(t, b.hash) == b.difficulty + TotalDifficulty(t, b.parent);
    }
  }

  /** The index is exactly the path from genesis to the head, with nothing above it, over a tree whose total
      difficulties are right. */
  ghost predicate ChainState(s: Store, genesis: Hash, td: map<Hash, nat>, canon: map<nat, Hash>, head: Block) {
    Tree(s, genesis) && DifficultyExact(s, td) && Stored(s, head) && canon == PathIndex(s, head.hash)
  }

  lemma ChainStateGrows(s: Store, genesis: Hash, td: map<Hash, nat>, canon: map<nat, Hash>, lookup: map<Hash, nat>,
                        head: Block, b: Block)
    requires ChainState(s, genesis, td, canon, head)
    requires b.hash != ZERO_HASH && (b.hash in s ==> s[b.hash] == b)
    requires b.parent in s && s[b.parent].number == b.number - 1
    ensures ChainState(s[b.hash := b], genesis, td[b.hash := td[b.parent] + b.difficulty], canon, head)
    ensures LookupExact(s, lookup, head.hash) ==> LookupExact(s[b.hash := b], lookup, head.hash)
  {
    DifficultyGrows(s, genesis, td, b);
    PathInExtension(s, s[b.hash := b], genesis, head.hash);
    if LookupExact(s, lookup, head.hash) {
      LookupInExtension(s, s[b.hash := b], genesis, lookup, head.hash);
    }
  }

  lemma LandingUnderHead(s: Store, genesis: Hash, oldHead: Block, newHead: Block)
    requires Tree(s, genesis) && Stored(s, oldHead) && Stored(s, newHead)
    ensures var l := Landing(s, oldHead, newHead);
            && (l == newHead.hash || (l == newHead.parent && newHead.number > 0))
            && (NoRepeats(s, newHead.hash) ==> NoRepeats(s, l))
  {
    assert Attached(s, genesis, newHead.hash);
    AncestorStored(s, genesis, oldHead.hash, 0);
    var l := Landing(s, oldHead, newHead);
    if l != newHead.hash {
      assert forall n: nat, tx: Hash :: Contains(s, l, n, tx) ==> Contains(s, newHead.hash, n, tx);
    }
  }

  /** The head's own transactions complete what reorg left. */
  lemma HeadCompletesLookup(s: Store, genesis: Hash, before: map<Hash, nat>, lookup: map<Hash, nat>, oldHead: Block,
                            newHead: Block)
    requires Tree(s, genesis) && Stored(s, oldHead) && Stored(s, newHead)
    requires LookupLanded(s, before, lookup, oldHead, newHead)
    requires LookupExact(s, before, oldHead.hash)
    ensures NoRepeats(s, newHead.hash) ==> LookupExact(s, IndexTxs(lookup, newHead), newHead.hash)
  {
    if NoRepeats(s, newHead.hash) {
      LandingUnderHead(s, genesis, oldHead, newHead);
      HeadInLookup(s, genesis, lookup, newHead, Landing(s, oldHead, newHead));
    }
  }

  /** A block already on the canonical chain adds nothing to either index. */
  lemma AncestorAlreadyIndexed(s: Store, genesis: Hash, lookup: map<Hash, nat>, oldHead: Block, newHead: Block)
    requires Tree(s, genesis) && Stored(s, oldHead) && Stored(s, newHead)
    requires IsAncestor(s, newHead.hash, oldHead.hash)
    ensures PathIndex(s, oldHead.hash)[newHead.number := newHead.hash] == PathIndex(s, oldHead.hash)
    ensures LookupExact(s, lookup, oldHead.hash) ==> IndexTxs(lookup, newHead) == lookup && NoRepeats(s, newHead.hash)
  {
    SharedBelow(s, genesis, oldHead.hash, newHead.hash, newHead.number);
    if LookupExact(s, lookup, oldHead.hash) {
      forall tx | tx in newHead.txs
        ensures tx in lookup && lookup[tx] == newHead.number
      {
        assert Contains(s, oldHead.hash, newHead.number, tx);
      }
      assert forall n: nat, tx: Hash :: Contains(s, newHead.hash, n, tx) ==> Contains(s, oldHead.hash, n, tx);
    }
  }

  /** Two blocks on genesis: with one as the head the database is consistent, and the other is no ancestor of it. */
  lemma SiblingIsNotAncestor()
    ensures exists s: Store, td: map<Hash, nat>, canon: map<nat, Hash>, head: Block, other: Block ::
              ChainState(s, 1, td, canon, head) && Stored(s, other) && !IsAncestor(s, other.hash, head.hash)
  {
    var g, a, b := Block(1, 0, 0, 0, 0, 1, 0, []), Block(2, 1, 1, 0, 0, 1, 0, []), Block(3, 1, 1, 0, 0, 1, 0, []);
    var s := map[1 := g, 2 := a, 3 := b];
    var td := map[1 := 1, 2 := 2, 3 := 2];
    forall h | h in s
      ensures Attached(s, 1, h) && td[h] == TotalDifficulty(s, h)
    {
      assert TotalDifficulty(s, 1) == 1;
    }
    assert ChainState(s, 1, td, PathIndex(s, 2), a) && Stored(s, b) && !IsAncestor(s, b.hash, a.hash);
  }

  class BlockChain {
    ghost const genesis: Hash

    // Database
    var blocks: Store
    var td: map<Hash, nat>
    var canon: map<nat, Hash>
    var lookup: map<Hash, nat>
    var headHeaderHash: Hash
    var headFastHash: Hash
    var headBlockHash: Hash
    var states: set<Hash>

    // In-memory markers
    var currentHeader: Block
    var currentSnapBlock: Block
    var currentBlock: Block

    ghost predicate HeadsAt(b: Block)
      reads this
    {
      && headHeaderHash == headFastHash == headBlockHash == b.hash
      && currentHeader == currentSnapBlock == currentBlock == b
    }

    /** The index is exactly the path from genesis to the head, with nothing above it. */
    ghost predicate Consistent()
      reads this
    {
      HeadsAt(currentBlock) && ChainState(blocks, genesis, td, canon, currentBlock)
    }

    constructor (genesisBlock: Block)
      requires genesisBlock.number == 0 && genesisBlock.parent == ZERO_HASH && genesisBlock.hash != ZERO_HASH
      ensures Consistent() && currentBlock == genesisBlock && genesis == genesisBlock.hash
      ensures LookupExact(blocks, lookup, currentBlock.hash)
    {
      genesis := genesisBlock.hash;
      blocks := map[genesisBlock.hash := genesisBlock];
      td := map[genesisBlock.hash := genesisBlock.difficulty];
      canon := map[0 := genesisBlock.hash];
      lookup := IndexTxs(map[], genesisBlock);
      headHeaderHash, headFastHash, headBlockHash := genesisBlock.hash, genesisBlock.hash, genesisBlock.hash;
      states := {genesisBlock.root};
      currentHeader, currentSnapBlock, currentBlock := genesisBlock, genesisBlock, genesisBlock;
    }

    method WriteHeadBlock(block: Block)
      modifies `canon, `lookup, `headHeaderHash, `headFastHash, `headBlockHash, `currentHeader, `currentSnapBlock,
               `currentBlock
      ensures canon == old(canon)[block.number := block.hash]
      ensures lookup == IndexTxs(old(lookup), block)
      ensures HeadsAt(block)
    {
      headHeaderHash, headFastHash := block.hash, block.hash;
      canon := canon[block.number := block.hash];
      lookup := IndexTxs(lookup, block);
      headBlockHash := block.hash;
      currentHeader := block;
      currentSnapBlock := block;
      currentBlock := block;
    }

    /** Make the new chain canonical block by block, lowest first, without its head. */
    method WriteBranch(newChain: seq<Block>, ghost newHead: Block, ghost common: Block) returns (addedTxs: seq<Hash>)
      modifies `canon, `lookup, `headHeaderHash, `headFastHash, `headBlockHash, `currentHeader, `currentSnapBlock,
               `currentBlock
      ensures Indexed(old(lookup), newChain, 1, lookup)
      ensures forall tx :: tx in addedTxs <==> WrittenBy(newChain, 1, tx)
      ensures Segment(blocks, newHead, common, newChain) ==>
                Overwritten(blocks, old(canon), newHead, common.number,
                            if |newChain| > 1 then newChain[1].number else common.number, canon)
      ensures |newChain| > 1 ==> HeadsAt(newChain[1])
      ensures |newChain| <= 1 && old(HeadsAt(currentBlock)) ==>
                currentBlock == old(currentBlock) && HeadsAt(currentBlock)
    {
      ghost var seg := Segment(blocks, newHead, common, newChain);
      addedTxs := [];
      var i := |newChain| - 1;
      while i >= 1
        invariant -1 <= i < |newChain| && (|newChain| > 0 ==> i >= 0)
        invariant Indexed(old(lookup), newChain, i + 1, lookup)
        invariant forall tx :: tx in addedTxs <==> WrittenBy(newChain, i + 1, tx)
        invariant seg ==> Overwritten(blocks, old(canon), newHead, common.number, newHead.number - i - 1, canon)
        invariant i + 1 < |newChain| ==> HeadsAt(newChain[i + 1])
        invariant i + 1 == |newChain| && old(HeadsAt(currentBlock)) ==>
                    currentBlock == old(currentBlock) && HeadsAt(currentBlock)
      {
        if seg {
          OverwriteStep(blocks, old(canon), newHead, common.number, newChain[i], canon);
        }
        IndexStep(old(lookup), newChain, i, lookup);
        WriteHeadBlock(newChain[i]);
        addedTxs := addedTxs + newChain[i].txs;
        i := i - 1;
      }
    }

    /** The writing half of reorg: index the new branch, then drop what only the old one had. */
    method ApplyFork(fork: Fork, ghost oldHead: Block, newHead: Block)
      modifies `canon, `lookup, `headHeaderHash, `headFastHash, `headBlockHash, `currentHeader, `currentSnapBlock,
               `currentBlock
      ensures old(Tree(blocks, genesis) && ForkBetween(blocks, oldHead, newHead, fork)
                  && StartsFrom(blocks, canon, oldHead, newHead)) ==>
                && IndexLanded(blocks, canon, oldHead, newHead)
                && LookupLanded(blocks, old(lookup), lookup, oldHead, newHead)
      ensures fork.newChain == [] && old(HeadsAt(currentBlock)) ==>
                currentBlock == old(currentBlock) && HeadsAt(currentBlock)
    {
      ghost var good := && Tree(blocks, genesis)
                        && ForkBetween(blocks, oldHead, newHead, fork)
                        && StartsFrom(blocks, canon, oldHead, newHead);
      var addedTxs := WriteBranch(fork.newChain, newHead, fork.common);
      var dropped := HashDifference(fork.deletedTxs, addedTxs);
      var number := if |fork.newChain| > 1 then fork.newChain[1].number else fork.common.number;
      var stale, gap := StaleNumbers(canon, number);
      var droppedSet := set tx | tx in dropped;
      if good {
        IndexAfterReorg(blocks, genesis, oldHead, newHead, fork, old(canon), canon, stale, gap);
        LookupAfterReorg(blocks, genesis, oldHead, newHead, fork, old(lookup), lookup, droppedSet);
      }
      lookup := lookup - droppedSet;
      canon := canon - stale;
    }

    /** reorg: drop the old chain's indexes and write the new chain's, all but its head. An error leaves every
        index and marker as it was; on a tree there is no error. */
    method Reorg(oldHead: Block, newHead: Block) returns (err: Option<Error>)
      modifies `canon, `lookup, `headHeaderHash, `headFastHash, `headBlockHash, `currentHeader, `currentSnapBlock,
               `currentBlock
      ensures err.Some? ==> unchanged(this)
      ensures old(Tree(blocks, genesis) && Stored(blocks, oldHead) && Stored(blocks, newHead)
                  && StartsFrom(blocks, canon, oldHead, newHead)) ==>
                && err.None?
                && IndexLanded(blocks, canon, oldHead, newHead)
                && LookupLanded(blocks, old(lookup), lookup, oldHead, newHead)
                && (IsAncestor(blocks, newHead.hash, oldHead.hash) && old(HeadsAt(currentBlock)) ==>
                      currentBlock == old(currentBlock) && HeadsAt(currentBlock))
    {
      var oldBlock := GetBlock(blocks, oldHead.hash, oldHead.number);
      if oldBlock.None? {
        return Some(HeadMissing);
      }
      var found := FindFork(blocks, genesis, oldBlock.value, newHead);
      if found.Err? {
        return Some(found.error);
      }
      if Tree(blocks, genesis) && Stored(blocks, oldHead) && Stored(blocks, newHead) {
        LandingFacts(blocks, genesis, oldHead, newHead, found.value);
      }
      ApplyFork(found.value, oldHead, newHead);
      return None;
    }

    /** writeKnownBlock: make a stored block the head, reorganising first if it does not extend the current one. */
    method WriteKnownBlock(block: Block) returns (err: Option<Error>)
      modifies `canon, `lookup, `headHeaderHash, `headFastHash, `headBlockHash, `currentHeader, `currentSnapBlock,
               `currentBlock
      ensures err.Some? ==> unchanged(this)
      ensures old(Consistent() && Stored(blocks, block)) ==> err.None? && Consistent() && currentBlock == block
      ensures old(Consistent() && Stored(blocks, block) && LookupExact(blocks, lookup, currentBlock.hash)) ==>
                (LookupExact(blocks, lookup, block.hash) <==> NoRepeats(blocks, block.hash))
    {
      ghost var good := Consistent() && Stored(blocks, block);
      ghost var head, before := currentBlock, lookup;
      ghost var under := currentBlock.hash;
      if block.parent != currentBlock.hash {
        err := Reorg(currentBlock, block);
        if err.Some? {
          return;
        }
        under := Landing(blocks, head, block);
      }
      if good {
        assert Attached(blocks, genesis, block.hash) && Attached(blocks, genesis, head.hash);
        LandingUnderHead(blocks, genesis, head, block);
        HeadOnPath(blocks, genesis, canon, block, under);
        if LookupExact(blocks, before, head.hash) {
          if block.parent != head.hash {
            HeadCompletesLookup(blocks, genesis, before, lookup, head, block);
          } else if NoRepeats(blocks, block.hash) {
            HeadInLookup(blocks, genesis, lookup, block, under);
          }
        }
      }
      WriteHeadBlock(block);
      err := None;
    }

    /** SetCanonical; `recovered` is the outcome of re-executing the ancestors when the head's state is missing. */
    method SetCanonical(head: Block, recovered: bool) returns (err: Option<Error>)
      modifies `canon, `lookup, `headHeaderHash, `headFastHash, `headBlockHash, `currentHeader, `currentSnapBlock,
               `currentBlock, `states
      ensures err.Some? ==> canon == old(canon) && lookup == old(lookup) && currentBlock == old(currentBlock)
      ensures old(Consistent() && Stored(blocks, head)) ==>
                && Consistent()
                && (err.None? <==> head.root in old(states) || recovered)
                && (err.None? ==> currentBlock == head && head.root in states)
      ensures old(Consistent() && Stored(blocks, head) && LookupExact(blocks, lookup, currentBlock.hash))
              && err.None? ==>
                (LookupExact(blocks, lookup, head.hash) <==> NoRepeats(blocks, head.hash))
    {
      if head.root !in states {
        if !recovered {
          return Some(StateNotRecovered);
        }
        states := states + {head.root};
      }
      err := WriteKnownBlock(head);
    }

    /** writeBlockWithState: the block and its total difficulty, whether or not it becomes canonical; `committed` is the
        outcome of committing its state, which comes after the block is written. */
    method WriteBlockWithState(block: Block, committed: bool) returns (err: Option<Error>)
      requires block.hash != ZERO_HASH && (block.hash in blocks ==> blocks[block.hash] == block)
      modifies `blocks, `td, `states
      ensures err == if block.parent !in old(td) || GetBlock(old(blocks), block.parent, block.number - 1).None?
                     then Some(UnknownAncestor)
                     else if !committed then Some(StateCommitFailed) else None
      ensures err == Some(UnknownAncestor) ==> unchanged(this)
      ensures err != Some(UnknownAncestor) ==>
                && blocks == old(blocks)[block.hash := block]
                && states == if committed then old(states) + {block.root} else old(states)
      ensures old(Consistent()) ==> Consistent()
      ensures old(Consistent() && LookupExact(blocks, lookup, currentBlock.hash)) ==>
                LookupExact(blocks, lookup, currentBlock.hash)
    {
      if block.parent !in td || GetBlock(blocks, block.parent, block.number - 1).None? {
        return Some(UnknownAncestor);
      }
      if Consistent() {
        ChainStateGrows(blocks, genesis, td, canon, lookup, currentBlock, block);
      }
      td := td[block.hash := td[block.parent] + block.difficulty];
      blocks := blocks[block.hash := block];
      if !committed {
        return Some(StateCommitFailed);
      }
      states := states + {block.root};
      err := None;
    }

    /** writeBlockAndSetHead; `forkChoice` is the fork choice's answer, None if it failed. */
    method WriteBlockAndSetHead(block: Block, committed: bool, forkChoice: Option<bool>)
      returns (status: WriteStatus, err: Option<Error>)
      requires block.hash != ZERO_HASH && (block.hash in blocks ==> blocks[block.hash] == block)
      modifies this
      ensures err.Some? ==> canon == old(canon) && lookup == old(lookup) && currentBlock == old(currentBlock)
      ensures old(Consistent()) ==>
                && Consistent()
                && (err.None? <==>
                      GetBlock(old(blocks), block.parent, block.number - 1).Some? && committed && forkChoice.Some?)
                && (err.None? ==> status == (if forkChoice == Some(true) then Canon else Side) && Stored(blocks, block))
                && currentBlock == (if err.None? && status == Canon then block else old(currentBlock))
      ensures old(Consistent() && LookupExact(blocks, lookup, currentBlock.hash)) ==>
                (LookupExact(blocks, lookup, currentBlock.hash) <==> NoRepeats(blocks, currentBlock.hash))
    {
      err := WriteBlockWithState(block, committed);
      if LookupExact(blocks, lookup, currentBlock.hash) {
        ExactMeansNoRepeats(blocks, lookup, currentBlock.hash);
      }
      if err.Some? {
        return NonStat, err;
      }
      if forkChoice.None? {
        return NonStat, Some(ForkChoiceFailed);
      }
      if !forkChoice.value {
        return Side, None;
      }
      err := WriteKnownBlock(block);
      status := if err.Some? then NonStat else Canon;
    }

    /** ReorgToOldBlock writes the head before it reorganises, so reorg deletes the head's own index entry again
        unless the head was already canonical: the index ends on the new head exactly for ancestors. */
    method ReorgToOldBlock(newHead: Block) returns (err: Option<Error>)
      modifies `canon, `lookup, `headHeaderHash, `headFastHash, `headBlockHash, `currentHeader, `currentSnapBlock,
               `currentBlock
      ensures old(Consistent() && Stored(blocks, newHead)) ==>
                && err.None?
                && IndexLanded(blocks, canon, old(currentBlock), newHead)
                && (canon == PathIndex(blocks, newHead.hash)
                    <==> IsAncestor(blocks, newHead.hash, old(currentBlock.hash)))
                && (IsAncestor(blocks, newHead.hash, old(currentBlock.hash)) ==>
                     Consistent() && currentBlock == newHead)
                && (IsAncestor(blocks, newHead.hash, old(currentBlock.hash))
                    && old(LookupExact(blocks, lookup, currentBlock.hash)) ==>
                      LookupExact(blocks, lookup, newHead.hash))
    {
      var oldHead := currentBlock;
      if oldHead.hash == newHead.hash {
        return None;
      }
      ghost var good := Consistent() && Stored(blocks, newHead);
      if good {
        LandingUnderHead(blocks, genesis, oldHead, newHead);
        if IsAncestor(blocks, newHead.hash, oldHead.hash) {
          AncestorAlreadyIndexed(blocks, genesis, lookup, oldHead, newHead);
        } else {
          assert Attached(blocks, genesis, newHead.hash);
          assert newHead.number !in PathIndex(blocks, newHead.parent);
        }
      }
      WriteHeadBlock(newHead);
      err := Reorg(oldHead, newHead);
    }
  }
}
