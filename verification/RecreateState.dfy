/** Recreating the state of a block by re-executing its ancestors, while the canonical chain may change between
    reads. */
module RecreateState {
  import opened BlockTree
  import opened Words

  const INFINITE_DEPTH: int := -1

  datatype Receipt = Receipt(gasUsed: Uint64, gasUsedForL1: Uint64)

  datatype Error = Cancelled | NoState | NoReceipts | DepthLimitExceeded | BeyondGenesis | NoParent
                 | NoBlock | ReorgDetected | ProcessingFailed | HashMismatch | CommitFailed | BadRoot | NoRecording

  /** The database and the outside world as one call sees them. The i-th state lookup finds the states db(i), the i-th
      check of the context finds it cancelled or not, the i-th parent lookup finds the parent or not, and the block
      lookup by number number i answers canonical(i, number) from whatever chain is canonical just then. */
  datatype World<!S> = World(
    blocks: Store,
    genesis: Hash,
    genesisNumber: nat,
    db: nat -> map<Hash, S>,
    cancelled: nat -> bool,
    hasParent: nat -> bool,
    receipts: Hash -> Option<seq<Receipt>>,
    canonical: (nat, nat) -> Option<Block>,
    process: (S, Block) -> Option<S>,
    commits: nat -> bool,
    rootOf: S -> Hash
  )

  /** Blocks form a tree with proper state roots, and a block found by number is a block of the tree with that
      number. */
  ghost predicate Faithful<S(!new)>(w: World<S>) {
    && Tree(w.blocks, w.genesis)
    && (forall h | h in w.blocks :: w.blocks[h].root != ZERO_HASH)
    && forall i, n | w.canonical(i, n).Some? ::
         var b := w.canonical(i, n).value;
         b.number == n && b.hash in w.blocks && w.blocks[b.hash] == b
  }

  /** A state database object: processing a block changes it in place. */
  class StateDB<S> {
    var value: S

    constructor (value: S)
      ensures this.value == value
    {
      this.value := value;
    }
  }

  // ----- Gas of the blocks traversed

  /** The L2 gas of a block. */
  function L2Gas(receipts: seq<Receipt>): int {
    if receipts == [] then 0
    else L2Gas(receipts[..|receipts| - 1]) + receipts[|receipts| - 1].gasUsed - receipts[|receipts| - 1].gasUsedForL1
  }

  function GasUsed(receipts: seq<Receipt>): nat {
    if receipts == [] then 0 else receipts[0].gasUsed + GasUsed(receipts[1..])
  }

  function GasUsedForL1(receipts: seq<Receipt>): nat {
    if receipts == [] then 0 else receipts[0].gasUsedForL1 + GasUsedForL1(receipts[1..])
  }

  /** The L2 gas of a block is all its gas without that spent on L1. */
  lemma {:induction false} L2GasIsRest(receipts: seq<Receipt>)
    ensures L2Gas(receipts) == GasUsed(receipts) - GasUsedForL1(receipts)
    decreases |receipts|
  {
    var n := |receipts| - 1;
    if n > 0 {
      L2GasIsRest(receipts[..n]);
      L2GasIsRest(receipts[1..]);
      L2GasIsRest(receipts[1..n]);
      assert receipts[..n][1..] == receipts[1..n] == receipts[1..][..n - 1];
    } else if n == 0 {
      assert receipts[..0] == [] == receipts[1..];
    }
  }

  ghost function BlockGas<S>(w: World<S>, h: Hash): int {
    if w.receipts(h).Some? then L2Gas(w.receipts(h).value) else 0
  }

  /** Adds a block's L2 gas to a running total in unsigned 64-bit arithmetic. */
  method AddReceipts(total: Uint64, receipts: seq<Receipt>) returns (sum: Uint64)
    ensures sum == Wrap(total + L2Gas(receipts)) == Wrap(total + GasUsed(receipts) - GasUsedForL1(receipts))
  {
    hide Wrap;
    L2GasIsRest(receipts);
    sum := total;
    Fits(total);
    for i := 0 to |receipts|
      invariant sum == Wrap(total + L2Gas(receipts[..i]))
    {
      assert receipts[..i + 1][..i] == receipts[..i];
      WrapTwice(total + L2Gas(receipts[..i]), receipts[i].gasUsed - receipts[i].gasUsedForL1);
      sum := Wrap(sum + (receipts[i].gasUsed - receipts[i].gasUsedForL1));
    }
    assert receipts[..|receipts|] == receipts;
  }

  /** The L2 gas of h and its ancestors above number n. */
  ghost function GasAbove<S>(w: World<S>, h: Hash, n: nat): int
    decreases if h in w.blocks then w.blocks[h].number else 0
  {
    if h !in w.blocks || w.blocks[h].number <= n then 0
    else BlockGas(w, h)
         + if w.blocks[h].parent in w.blocks && w.blocks[w.blocks[h].parent].number < w.blocks[h].number
           then GasAbove(w, w.blocks[h].parent, n) else 0
  }

  lemma {:induction false} GasOneDeeper<S>(w: World<S>, h: Hash, n: nat)
    requires Tree(w.blocks, w.genesis) && h in w.blocks && 0 < n <= w.blocks[h].number
    ensures GasAbove(w, h, n - 1) == GasAbove(w, h, n) + BlockGas(w, AncestorAt(w.blocks, h, n))
    decreases w.blocks[h].number
  {
    assert Attached(w.blocks, w.genesis, h);
    if n < w.blocks[h].number {
      GasOneDeeper(w, w.blocks[h].parent, n);
    }
  }

  // ----- Re-execution

  /** The fold of block processing over the ancestors of h above base, from the state v of base. */
  function Replayed<S>(w: World<S>, h: Hash, base: Hash, v: S): Option<S>
    decreases if h in w.blocks then w.blocks[h].number else 0
  {
    if h == base then Some(v)
    else if h !in w.blocks || w.blocks[h].parent !in w.blocks then None
    else if w.blocks[w.blocks[h].parent].number >= w.blocks[h].number then None
    else
      var before := Replayed(w, w.blocks[h].parent, base, v);
      if before.None? then None else w.process(before.value, w.blocks[h])
  }

  /** The state after some blocks above base: that of the chain to last, which passes through base. */
  ghost predicate ReplayedTo<S(!new)>(w: World<S>, base: Hash, v: S, last: Hash, value: S) {
    && IsAncestor(w.blocks, base, last)
    && Replayed(w, last, base, v) == Some(value)
  }

  lemma ReplayOne<S(!new)>(w: World<S>, base: Hash, v: S, last: Hash, value: S, b: Block)
    requires Faithful(w) && ReplayedTo(w, base, v, last, value)
    requires b.hash in w.blocks && w.blocks[b.hash] == b && b.parent == last && b.number == w.blocks[last].number + 1
    requires w.process(value, b).Some?
    ensures ReplayedTo(w, base, v, b.hash, w.process(value, b).value)
  {
  }

  /** The canonical block of a number, at the i-th read, continues prevHash and can be processed. */
  predicate Advances<S>(w: World<S>, i: nat, value: S, number: nat, prevHash: Hash) {
    var b := w.canonical(i, number);
    b.Some? && b.value.parent == prevHash && w.process(value, b.value).Some?
  }

  /** Re-executes the canonical block of one number on the state, if it continues the block before it. The state object
      is changed in place and returned. */
  method AdvanceStateByBlock<S>(w: World<S>, i: nat, state: StateDB<S>, number: nat, prevHash: Hash)
    returns (r: StateDB?<S>, block: Option<Block>, err: Option<Error>)
    modifies state
    ensures err == (if w.canonical(i, number).None? then Some(NoBlock)
                    else if w.canonical(i, number).value.parent != prevHash then Some(ReorgDetected)
                    else if w.process(old(state.value), w.canonical(i, number).value).None? then Some(ProcessingFailed)
                    else None)
    ensures err.None? ==>
              && r == state && block.Some? && block == w.canonical(i, number)
              && block.value.parent == prevHash
              && w.process(old(state.value), block.value) == Some(state.value)
  {
    block := w.canonical(i, number);
    if block.None? {
      return null, None, Some(NoBlock);
    }
    if block.value.parent != prevHash {
      return null, None, Some(ReorgDetected);
    }
    var after := w.process(state.value, block.value);
    if after.None? {
      return null, None, Some(ProcessingFailed);
    }
    state.value := after.value;
    return state, block, None;
  }

  function CanonicalBlock<S>(w: World<S>, target: Block, n: nat): Option<Block> {
    GetBlock(w.blocks, AncestorAt(w.blocks, target.hash, n), n)
  }

  ghost predicate ReplaysWell<S>(w: World<S>, h: Hash, base: Hash, v: S) {
    h in w.blocks && Replayed(w, h, base, v).Some? && w.rootOf(Replayed(w, h, base, v).value) == w.blocks[h].root
  }

  /** Nothing gets in the way of re-execution: nobody cancels, the canonical chain stays the target's, commits
      succeed, and every block above base processes to its own state root. */
  ghost predicate Smooth<S(!new)>(w: World<S>, target: Block, base: Block, v: S) {
    && (forall i :: !w.cancelled(i))
    && (forall i :: w.commits(i))
    && (forall i, n: nat | n <= target.number :: w.canonical(i, n) == CanonicalBlock(w, target, n))
    && (forall n: nat | base.number < n <= target.number ::
          ReplaysWell(w, AncestorAt(w.blocks, target.hash, n), base.hash, v))
  }

  lemma SmoothStep<S(!new)>(w: World<S>, target: Block, base: Block, v: S, prev: Hash, value: S, i: nat)
    requires Faithful(w) && Stored(w.blocks, target) && Smooth(w, target, base, v)
    requires ReplayedTo(w, base.hash, v, prev, value) && IsAncestor(w.blocks, prev, target.hash)
    requires base.number <= w.blocks[prev].number < target.number
    requires base.hash in w.blocks && w.blocks[base.hash] == base
    ensures var b := w.canonical(i, w.blocks[prev].number + 1);
            && b.Some? && b.value.parent == prev && IsAncestor(w.blocks, b.value.hash, target.hash)
            && w.process(value, b.value).Some? && w.rootOf(w.process(value, b.value).value) == b.value.root
  {
    var n := w.blocks[prev].number + 1;
    var h := AncestorAt(w.blocks, target.hash, n);
    AncestorStored(w.blocks, w.genesis, target.hash, n);
    AncestorCompose(w.blocks, w.genesis, target.hash, n, n - 1);
    assert Attached(w.blocks, w.genesis, h);
    assert AncestorAt(w.blocks, h, n - 1) == w.blocks[h].parent;
    assert ReplaysWell(w, h, base.hash, v);
    assert w.canonical(i, n) == CanonicalBlock(w, target, n);
  }

  /** Re-executes blocks until the target. Although each block is looked up by number on a chain that may change, the
      result is the fold along the target's own ancestors from the given block. From a block at or above the target it
      always fails, and from an ancestor it succeeds if nothing gets in the way. check0 is the number of context
      checks already made. */
  method AdvanceStateUpToBlock<S(!new)>(w: World<S>, check0: nat, state: StateDB<S>, target: Block, last: Block)
    returns (r: StateDB?<S>, err: Option<Error>)
    modifies state
    ensures err.None? ==> r == state
    ensures err.None? && Faithful(w) && Stored(w.blocks, target) && Stored(w.blocks, last) ==>
              && last.number < target.number
              && ReplayedTo(w, last.hash, old(state.value), target.hash, state.value)
    ensures Faithful(w) && Stored(w.blocks, target) && Stored(w.blocks, last) && last.number < target.number ==>
              (IsAncestor(w.blocks, last.hash, target.hash) && Smooth(w, target, last, old(state.value)) ==> err.None?)
  {
    ghost var good := Faithful(w) && Stored(w.blocks, target) && Stored(w.blocks, last);
    ghost var v := state.value;
    ghost var smooth := && good && last.number < target.number
                        && IsAncestor(w.blocks, last.hash, target.hash) && Smooth(w, target, last, v);
    var number, prevHash, i := last.number + 1, last.hash, 0;
    while !w.cancelled(check0 + i)
      invariant number == last.number + 1 + i
      invariant smooth ==> number <= target.number && IsAncestor(w.blocks, prevHash, target.hash)
      invariant good ==> ReplayedTo(w, last.hash, v, prevHash, state.value) && w.blocks[prevHash].number == number - 1
      decreases target.number - number
    {
      ghost var value := state.value;
      if smooth {
        SmoothStep(w, target, last, v, prevHash, value, i);
      }
      var st, block, e := AdvanceStateByBlock(w, i, state, number, prevHash);
      if e.Some? {
        return null, e;
      }
      if good {
        ReplayOne(w, last.hash, v, prevHash, value, block.value);
      }
      prevHash := block.value.hash;
      if number >= target.number {
        if prevHash != target.hash {
          return null, Some(HashMismatch);
        }
        return st, None;
      }
      number, i := number + 1, i + 1;
    }
    return null, Some(Cancelled);
  }
}
