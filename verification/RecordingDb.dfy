/** The recording database: states it hands out stay referenced until they are dereferenced. */
module RecordingDbs {
  import opened BlockTree
  import opened Words
  import opened RecreateState

  /** The ancestor of t that is k blocks below it. */
  function Below<S>(w: World<S>, t: Block, k: nat): Hash {
    if k <= t.number then AncestorAt(w.blocks, t.hash, t.number - k) else t.hash
  }

  /** The state of that ancestor is found by the k-th lookup. */
  predicate Available<S>(w: World<S>, t: Block, k: nat) {
    Below(w, t, k) in w.blocks && w.blocks[Below(w, t, k)].root in w.db(k)
  }

  /** The walk from t goes on below its k-th ancestor. */
  predicate GoesOn<S>(w: World<S>, t: Block, k: nat) {
    t.number > w.genesisNumber + k && w.hasParent(k)
  }

  /** The L2 gas of t down to its k-th ancestor. */
  ghost function GasThrough<S>(w: World<S>, t: Block, k: nat): int {
    if k <= t.number then GasAbove(w, t.hash, t.number - k) + BlockGas(w, Below(w, t, k)) else 0
  }

  /** The depth limit lets the walk go below the k-th ancestor. */
  ghost predicate Allowed<S>(w: World<S>, t: Block, maxDepth: int, k: nat) {
    || maxDepth == INFINITE_DEPTH
    || (maxDepth > 0 && w.receipts(Below(w, t, k)).Some? && Wrap(GasThrough(w, t, k)) <= maxDepth)
  }

  /** The walk passed k ancestors whose state is missing, and nothing stopped it. */
  ghost predicate Passed<S>(w: World<S>, t: Block, maxDepth: int, k: nat) {
    forall j: nat | j < k :: !w.cancelled(j) && !Available(w, t, j) && Allowed(w, t, maxDepth, j) && GoesOn(w, t, j)
  }

  /** The walk finds the state of the k-th ancestor, the nearest that has one. */
  ghost predicate HitAt<S>(w: World<S>, t: Block, maxDepth: int, k: nat) {
    k <= t.number && Passed(w, t, maxDepth, k) && !w.cancelled(k) && Available(w, t, k)
  }

  /** b is the ancestor whose state v the walk finds. */
  ghost predicate Found<S>(w: World<S>, t: Block, maxDepth: int, b: Block, v: S) {
    && b.number <= t.number
    && Stored(w.blocks, b)
    && HitAt(w, t, maxDepth, t.number - b.number)
    && b.hash == Below(w, t, t.number - b.number)
    && v == w.db(t.number - b.number)[b.root]
  }

  /** The context is cancelled just after the state was found: the one way to fail with a reference taken. */
  ghost predicate CancelledAfterHit<S>(w: World<S>, t: Block) {
    exists k: nat :: HitAt(w, t, INFINITE_DEPTH, k) && w.cancelled(k + 1)
  }

  /** In plain terms: nobody cancelled at the ancestor of t with number n, its state was not there, a block lay below,
      and under a positive limit its receipts were there and the L2 gas from t through it, modulo 2^64, did not exceed
      the limit. */
  ghost predicate LeftBehind<S>(w: World<S>, t: Block, maxDepth: int, n: nat)
    requires 0 < n <= t.number
  {
    var i, h := t.number - n, AncestorAt(w.blocks, t.hash, n);
    && !w.cancelled(i) && h in w.blocks && w.blocks[h].root !in w.db(i)
    && n > w.genesisNumber && w.hasParent(i)
    && (maxDepth != -1 ==>
          maxDepth > 0 && w.receipts(h).Some? && Wrap(GasAbove(w, t.hash, n - 1)) <= maxDepth)
  }

  lemma PassedMeansLeft<S(!new)>(w: World<S>, t: Block, maxDepth: int, j: nat)
    requires Faithful(w) && Stored(w.blocks, t) && j < t.number
    ensures !w.cancelled(j) && !Available(w, t, j) && Allowed(w, t, maxDepth, j) && GoesOn(w, t, j)
            <==> LeftBehind(w, t, maxDepth, t.number - j)
  {
    hide Wrap, GasAbove;
    AncestorStored(w.blocks, w.genesis, t.hash, t.number - j);
    GasOneDeeper(w, t.hash, t.number - j);
  }

  /** The walk finds the state of the ancestor with number n if and only if it is there when looked up, and every block
      above was left behind. */
  lemma HitExactly<S(!new)>(w: World<S>, t: Block, maxDepth: int, n: nat)
    requires Faithful(w) && Stored(w.blocks, t) && n <= t.number
    ensures HitAt(w, t, maxDepth, t.number - n)
            <==> && !w.cancelled(t.number - n)
                 && AncestorAt(w.blocks, t.hash, n) in w.blocks
                 && w.blocks[AncestorAt(w.blocks, t.hash, n)].root in w.db(t.number - n)
                 && forall m: nat | n < m <= t.number :: LeftBehind(w, t, maxDepth, m)
  {
    hide Allowed, GoesOn, LeftBehind;
    var k := t.number - n;
    forall j: nat | j < k
      ensures !w.cancelled(j) && !Available(w, t, j) && Allowed(w, t, maxDepth, j) && GoesOn(w, t, j)
              <==> LeftBehind(w, t, maxDepth, t.number - j)
    {
      PassedMeansLeft(w, t, maxDepth, j);
    }
    if Passed(w, t, maxDepth, k) {
      forall m: nat | n < m <= t.number
        ensures LeftBehind(w, t, maxDepth, m)
      {
        assert !w.cancelled(t.number - m) && !Available(w, t, t.number - m);
      }
    }
  }

  lemma OneHit<S>(w: World<S>, t: Block, maxDepth: int, j: nat, k: nat)
    requires HitAt(w, t, maxDepth, j) && HitAt(w, t, maxDepth, k)
    ensures j == k
  {
  }

  /** The state of t: found, or the fold of block processing along its own ancestors from the nearest one found. */
  ghost predicate IsRecreation<S(!new)>(w: World<S>, t: Block, value: S) {
    exists base: Block, v: S :: Found(w, t, INFINITE_DEPTH, base, v) && ReplayedTo(w, base.hash, v, t.hash, value)
  }

  /** An ancestor's state is found, and nothing gets in the way of re-executing the blocks from there. */
  ghost predicate Recreatable<S(!new)>(w: World<S>, t: Block) {
    && (forall i :: !w.cancelled(i))
    && (exists k: nat :: HitAt(w, t, INFINITE_DEPTH, k))
    && forall b: Block, v: S | Found(w, t, INFINITE_DEPTH, b, v) && b != t :: Smooth(w, t, b, v)
  }

  lemma RecreatableHits<S(!new)>(w: World<S>, t: Block)
    requires Faithful(w) && Stored(w.blocks, t)
    ensures Recreatable(w, t) ==> (exists k: nat :: HitAt(w, t, INFINITE_DEPTH, k)) && forall i :: !w.cancelled(i)
  {
    hide HitAt, Found;
  }

  /** Nothing gets in the way of re-executing the blocks from last, an ancestor of the target, up to it. */
  ghost predicate OnTheWay<S(!new)>(w: World<S>, t: Block, last: Block, v: S) {
    last.number < t.number && IsAncestor(w.blocks, last.hash, t.hash) && Smooth(w, t, last, v)
  }

  lemma RecreatableFrom<S(!new)>(w: World<S>, t: Block, b: Block, v: S)
    requires Faithful(w) && Stored(w.blocks, t) && Found(w, t, INFINITE_DEPTH, b, v)
    ensures Recreatable(w, t) && b != t ==> OnTheWay(w, t, b, v)
  {
    hide HitAt;
    if b.number == t.number {
      assert AncestorAt(w.blocks, t.hash, t.number) == t.hash;
    }
  }

  lemma NoHitNoWindow<S(!new)>(w: World<S>, t: Block)
    ensures CancelledAfterHit(w, t) ==> exists k: nat :: HitAt(w, t, INFINITE_DEPTH, k)
  {
  }

  lemma WindowAfterHit<S(!new)>(w: World<S>, t: Block, b: Block, v: S)
    requires Found(w, t, INFINITE_DEPTH, b, v)
    ensures b.number <= t.number && Stored(w.blocks, b) && HitAt(w, t, INFINITE_DEPTH, t.number - b.number)
    ensures CancelledAfterHit(w, t) <==> w.cancelled(t.number - b.number + 1)
  {
    hide Passed, Available, GoesOn;
    forall k: nat | HitAt(w, t, INFINITE_DEPTH, k)
      ensures k == t.number - b.number
    {
      OneHit(w, t, INFINITE_DEPTH, k, t.number - b.number);
    }
  }

  lemma OwnState<S(!new)>(w: World<S>, t: Block, v: S)
    requires Faithful(w) && Stored(w.blocks, t)
    ensures Found(w, t, INFINITE_DEPTH, t, v) ==> IsRecreation(w, t, v)
  {
    hide Found;
    assert ReplayedTo(w, t.hash, v, t.hash, v);
  }

  lemma FromAncestor<S(!new)>(w: World<S>, t: Block, b: Block, v: S, value: S)
    requires Found(w, t, INFINITE_DEPTH, b, v) && ReplayedTo(w, b.hash, v, t.hash, value)
    ensures IsRecreation(w, t, value)
  {
    hide Found, ReplayedTo;
  }

  /** Committing the state after the canonical block of a number gives that block's root. */
  predicate CommitsTo<S>(w: World<S>, i: nat, value: S, number: nat) {
    var b := w.canonical(i, number);
    && b.Some? && w.process(value, b.value).Some?
    && w.commits(i) && w.rootOf(w.process(value, b.value).value) == b.value.root
  }

  lemma MoveReference(others: multiset<Hash>, from: Hash, to: Hash)
    ensures others + multiset{from} + multiset{to} - multiset{from} == others + multiset{to}
  {
  }

  /** The state reached by re-execution, and its root. */
  ghost predicate RecreatedTo<S(!new)>(w: World<S>, base: Hash, v: S, last: Hash, lastRoot: Hash, value: S,
                                       number: nat) {
    && ReplayedTo(w, base, v, last, value)
    && w.blocks[last].number == number - 1
    && lastRoot == w.blocks[last].root != ZERO_HASH
  }

  lemma RecreationStarts<S(!new)>(w: World<S>, last: Block, v: S)
    requires Faithful(w) && Stored(w.blocks, last)
    ensures RecreatedTo(w, last.hash, v, last.hash, last.root, v, last.number + 1)
  {
  }

  lemma SmoothStarts<S(!new)>(w: World<S>, t: Block, last: Block, v: S)
    requires OnTheWay(w, t, last, v)
    ensures last.number < t.number && IsAncestor(w.blocks, last.hash, t.hash) && forall i :: !w.cancelled(i)
  {
  }

  lemma SmoothRecreation<S(!new)>(w: World<S>, t: Block, base: Block, v: S, last: Hash, lastRoot: Hash, value: S,
                                  number: nat, i: nat)
    requires Faithful(w) && Stored(w.blocks, t) && Stored(w.blocks, base) && OnTheWay(w, t, base, v)
    requires RecreatedTo(w, base.hash, v, last, lastRoot, value, number)
    requires IsAncestor(w.blocks, last, t.hash) && number <= t.number
    ensures var b := w.canonical(i, number);
            && b.Some? && b.value.parent == last && IsAncestor(w.blocks, b.value.hash, t.hash)
            && w.process(value, b.value).Some? && w.commits(i)
            && w.rootOf(w.process(value, b.value).value) == b.value.root
            && (number == t.number ==> b.value.hash == t.hash)
  {
    SmoothStep(w, t, base, v, last, value, i);
  }

  lemma RecreationStep<S(!new)>(w: World<S>, base: Hash, v: S, last: Hash, lastRoot: Hash, value: S, number: nat,
                                i: nat, header: Block)
    requires Faithful(w) && RecreatedTo(w, base, v, last, lastRoot, value, number) && Stored(w.blocks, header)
    requires w.canonical(i, number).Some? && w.canonical(i, number).value.parent == last
    requires w.process(value, w.canonical(i, number).value).Some?
    ensures var b := w.canonical(i, number).value;
            && RecreatedTo(w, base, v, b.hash, b.root, w.process(value, b).value, number + 1)
            && (b.hash == header.hash ==> b.root == header.root)
  {
    ReplayOne(w, base, v, last, value, w.canonical(i, number).value);
  }

  /** The walk is at the i-th ancestor. */
  ghost predicate AtAncestor<S>(w: World<S>, t: Block, b: Block, i: nat) {
    i <= t.number && Stored(w.blocks, b) && b.hash == Below(w, t, i) && b.number == t.number - i
  }

  /** The running total is the gas above number n, modulo 2^64. */
  ghost predicate Metered<S>(w: World<S>, t: Block, n: nat, used: Uint64) {
    used == Wrap(GasAbove(w, t.hash, n))
  }

  lemma WalkStarts<S(!new)>(w: World<S>, t: Block, maxDepth: int)
    requires Faithful(w) && Stored(w.blocks, t)
    ensures AtAncestor(w, t, t, 0) && Passed(w, t, maxDepth, 0)
    ensures Metered(w, t, t.number, 0)
  {
  }

  lemma WalkEnds<S(!new)>(w: World<S>, t: Block, maxDepth: int, b: Block, i: nat)
    requires Faithful(w) && AtAncestor(w, t, b, i) && Passed(w, t, maxDepth, i)
    requires !w.cancelled(i) && b.root in w.db(i)
    ensures Found(w, t, maxDepth, b, w.db(i)[b.root]) && HitAt(w, t, maxDepth, i) && t.number - b.number == i
  {
    hide Passed, Allowed;
  }

  lemma NoHit<S(!new)>(w: World<S>, t: Block, maxDepth: int, i: nat)
    requires Passed(w, t, maxDepth, i)
    requires w.cancelled(i) || (!Available(w, t, i) && !(Allowed(w, t, maxDepth, i) && GoesOn(w, t, i)))
    ensures !exists k: nat :: HitAt(w, t, maxDepth, k)
  {
    hide Allowed, GoesOn;
  }

  /** The state is missing: the walk goes on to the parent, or nothing is ever found. */
  lemma WalkOn<S(!new)>(w: World<S>, t: Block, maxDepth: int, b: Block, i: nat)
    requires Faithful(w) && AtAncestor(w, t, b, i) && Passed(w, t, maxDepth, i)
    requires !w.cancelled(i) && b.root !in w.db(i)
    ensures GoesOn(w, t, i) <==> b.number > w.genesisNumber && w.hasParent(i)
    ensures var parent := GetBlock(w.blocks, b.parent, b.number - 1);
            if Allowed(w, t, maxDepth, i) && GoesOn(w, t, i) then
              && parent.Some? && parent.value.number == b.number - 1
              && AtAncestor(w, t, parent.value, i + 1) && Passed(w, t, maxDepth, i + 1)
            else !exists k: nat :: HitAt(w, t, maxDepth, k)
  {
    hide Allowed;
    if Allowed(w, t, maxDepth, i) && GoesOn(w, t, i) {
      assert Attached(w.blocks, w.genesis, b.hash);
      AncestorCompose(w.blocks, w.genesis, t.hash, t.number - i, t.number - i - 1);
      assert AncestorAt(w.blocks, b.hash, b.number - 1) == b.parent;
      assert Attached(w.blocks, w.genesis, b.parent);
    } else {
      NoHit(w, t, maxDepth, i);
    }
  }

  lemma DepthSwitch<S(!new)>(w: World<S>, t: Block, maxDepth: int, i: nat)
    requires maxDepth <= 0
    ensures Allowed(w, t, maxDepth, i) <==> maxDepth == INFINITE_DEPTH
  {
  }

  /** What the meter lets through is within the limit if and only if the meter has not wrapped. */
  lemma MeterRead<S(!new)>(w: World<S>, t: Block, n: nat, used: Uint64, maxDepth: nat)
    requires Metered(w, t, n, used) && used <= maxDepth <= MAX_UINT64
    ensures Wrap(GasAbove(w, t.hash, n)) <= maxDepth
    ensures GasAbove(w, t.hash, n) <= maxDepth <==> GasAbove(w, t.hash, n) <= MAX_UINT64
  {
    var gas := GasAbove(w, t.hash, n);
    if 0 <= gas <= MAX_UINT64 {
      Fits(gas);
    }
  }

  lemma GasStep<S(!new)>(w: World<S>, t: Block, maxDepth: int, b: Block, i: nat, used: Uint64)
    requires Faithful(w) && AtAncestor(w, t, b, i) && Metered(w, t, b.number, used)
    requires maxDepth > 0
    ensures Allowed(w, t, maxDepth, i)
            <==> w.receipts(b.hash).Some? && Wrap(used + L2Gas(w.receipts(b.hash).value)) <= maxDepth
    ensures b.number > 0 && w.receipts(b.hash).Some? ==>
              Metered(w, t, b.number - 1, Wrap(used + L2Gas(w.receipts(b.hash).value)))
  {
    hide Wrap;
    if w.receipts(b.hash).Some? {
      var gas := L2Gas(w.receipts(b.hash).value);
      WrapTwice(GasAbove(w, t.hash, b.number), gas);
      if b.number > 0 {
        GasOneDeeper(w, t.hash, b.number);
      }
    }
  }

  /** The search ends without a state at the k-th ancestor, for this reason. */
  ghost predicate EndsWith<S>(w: World<S>, t: Block, maxDepth: int, k: nat, err: Error) {
    && k <= t.number && Passed(w, t, maxDepth, k) && (w.cancelled(k) || !Available(w, t, k))
    && match err
       case Cancelled => w.cancelled(k)
       case NoState => !w.cancelled(k) && maxDepth <= 0 && maxDepth != INFINITE_DEPTH
       case NoReceipts => !w.cancelled(k) && maxDepth > 0 && w.receipts(Below(w, t, k)).None?
       case DepthLimitExceeded =>
         !w.cancelled(k) && maxDepth > 0 && w.receipts(Below(w, t, k)).Some? && !Allowed(w, t, maxDepth, k)
       case BeyondGenesis => !w.cancelled(k) && Allowed(w, t, maxDepth, k) && t.number - k <= w.genesisNumber
       case NoParent =>
         !w.cancelled(k) && Allowed(w, t, maxDepth, k) && t.number - k > w.genesisNumber && !w.hasParent(k)
       case _ => false
  }

  /** At block b, with the gas used so far: why the search cannot go on, if it cannot. */
  function Obstacle<S>(w: World<S>, maxDepth: int, b: Block, i: nat, used: Uint64): Option<Error> {
    if w.cancelled(i) then Some(Cancelled)
    else if maxDepth > 0 && w.receipts(b.hash).None? then Some(NoReceipts)
    else if maxDepth > 0 && Wrap(used + L2Gas(w.receipts(b.hash).value)) > maxDepth then Some(DepthLimitExceeded)
    else if maxDepth <= 0 && maxDepth != INFINITE_DEPTH then Some(NoState)
    else if b.number <= w.genesisNumber then Some(BeyondGenesis)
    else if !w.hasParent(i) then Some(NoParent)
    else None
  }

  lemma ObstacleEnds<S(!new)>(w: World<S>, t: Block, maxDepth: int, b: Block, i: nat, used: Uint64)
    requires Faithful(w) && AtAncestor(w, t, b, i) && Passed(w, t, maxDepth, i)
    requires w.cancelled(i) || b.root !in w.db(i)
    requires maxDepth > 0 ==> Metered(w, t, b.number, used)
    ensures var err := Obstacle(w, maxDepth, b, i, used); err.Some? ==> EndsWith(w, t, maxDepth, i, err.value)
  {
    hide Wrap, L2Gas, Allowed, Passed, GasAbove;
    if maxDepth > 0 {
      GasStep(w, t, maxDepth, b, i, used);
    } else {
      DepthSwitch(w, t, maxDepth, i);
    }
  }

  lemma CancelledEnds<S(!new)>(w: World<S>, t: Block, maxDepth: int, b: Block, i: nat)
    requires AtAncestor(w, t, b, i) && Passed(w, t, maxDepth, i) && w.cancelled(i)
    ensures EndsWith(w, t, maxDepth, i, Cancelled)
  {
    hide Passed;
  }

  /** The state is missing: either the search ends here, or it goes on to the parent. */
  lemma SearchStep<S(!new)>(w: World<S>, t: Block, maxDepth: int, b: Block, i: nat, used: Uint64)
    requires Faithful(w) && AtAncestor(w, t, b, i) && Passed(w, t, maxDepth, i)
    requires !w.cancelled(i) && b.root !in w.db(i)
    requires maxDepth > 0 ==> Metered(w, t, b.number, used)
    ensures var obstacle, parent := Obstacle(w, maxDepth, b, i, used), GetBlock(w.blocks, b.parent, b.number - 1);
            if obstacle.Some? then
              EndsWith(w, t, maxDepth, i, obstacle.value) && !exists k: nat :: HitAt(w, t, maxDepth, k)
            else
              && parent.Some? && AtAncestor(w, t, parent.value, i + 1) && Passed(w, t, maxDepth, i + 1)
              && (maxDepth > 0 ==>
                    Metered(w, t, parent.value.number, Wrap(used + L2Gas(w.receipts(b.hash).value))))
  {
    hide Wrap, L2Gas, Allowed, Passed, GasAbove, Metered, EndsWith, HitAt, AtAncestor, Faithful;
    ObstacleEnds(w, t, maxDepth, b, i, used);
    WalkOn(w, t, maxDepth, b, i);
    if maxDepth > 0 {
      GasStep(w, t, maxDepth, b, i, used);
    } else {
      DepthSwitch(w, t, maxDepth, i);
    }
  }

  /** One round of the search at a block without state: charge its gas, and find its parent. */
  method StepBack<S(!new)>(w: World<S>, maxDepth: int, current: Block, i: nat, used: Uint64)
    returns (parent: Block, total: Uint64, err: Option<Error>)
    requires maxDepth < 0x8000_0000_0000_0000 && !w.cancelled(i)
    ensures var obstacle, below := Obstacle(w, maxDepth, current, i, used),
              GetBlock(w.blocks, current.parent, current.number - 1);
            && (err.None? <==> obstacle.None? && below.Some?)
            && (err.Some? ==> err == if obstacle.Some? then obstacle else Some(NoParent))
            && (err.None? ==> parent == below.value && (maxDepth > 0 || maxDepth == INFINITE_DEPTH))
    ensures err.None? && maxDepth > 0 ==>
              total == Wrap(used + L2Gas(w.receipts(current.hash).value)) <= maxDepth
  {
    parent, total := current, used;
    if maxDepth > 0 {
      var receipts := w.receipts(current.hash);
      if receipts.None? {
        return parent, total, Some(NoReceipts);
      }
      total := AddReceipts(used, receipts.value);
      if total > maxDepth {
        return parent, total, Some(DepthLimitExceeded);
      }
    } else if maxDepth != INFINITE_DEPTH {
      return parent, total, Some(NoState);
    }
    if current.number <= w.genesisNumber {
      return parent, total, Some(BeyondGenesis);
    }
    var found := if w.hasParent(i) then GetBlock(w.blocks, current.parent, current.number - 1) else None;
    if found.None? {
      return parent, total, Some(NoParent);
    }
    return found.value, total, None;
  }

  class RecordingDatabase<S(!new)> {
    var references: int
    var refs: multiset<Hash>          // the reference counts of the trie database
    ghost var holds: multiset<Hash>   // the roots whose states callers hold and have not given back

    /** The references, and their count, are exactly what callers hold. */
    ghost predicate Accounted()
      reads this
    {
      refs == holds && references == |holds|
    }

    constructor ()
      ensures Accounted() && holds == multiset{}
    {
      references, refs, holds := 0, multiset{}, multiset{};
    }

    method ReferenceRoot(root: Hash)
      modifies `references, `refs
      ensures refs == old(refs) + multiset{root} && references == old(references) + 1
    {
      references := references + 1;
      refs := refs + multiset{root};
    }

    method DereferenceRoot(root: Hash)
      modifies `references, `refs
      ensures refs == old(refs) - multiset{root} && references == old(references) - 1
    {
      references := references - 1;
      refs := refs - multiset{root};
    }

    method StateFor(w: World<S>, i: nat, header: Block) returns (state: StateDB?<S>)
      modifies `references, `refs
      ensures state != null <==> header.root in w.db(i)
      ensures state != null ==> fresh(state) && state.value == w.db(i)[header.root]
      ensures state != null ==> refs == old(refs) + multiset{header.root} && references == old(references) + 1
      ensures state == null ==> refs == old(refs) && references == old(references)
    {
      state := null;
      if header.root in w.db(i) {
        state := new StateDB(w.db(i)[header.root]);
        ReferenceRoot(header.root);
      }
    }

    /** Finds the nearest ancestor of the target whose state is available. A positive depth limits the L2 gas of the
        blocks above it, -1 does not limit the search, and otherwise only the target's state is looked up. A state
        that is returned, even next to an error, holds one reference. */
    method FindLastAvailableState(w: World<S>, target: Block, maxDepth: int)
      returns (state: StateDB?<S>, header: Block, err: Option<Error>, checks: nat)
      requires maxDepth < 0x8000_0000_0000_0000
      modifies `references, `refs
      ensures state == null ==> refs == old(refs) && references == old(references)
      ensures state != null ==>
                && fresh(state)
                && refs == old(refs) + multiset{header.root} && references == old(references) + 1
      ensures err.Some? && state != null ==> err == Some(Cancelled)
      ensures err.None? ==> state != null
      ensures Faithful(w) && Stored(w.blocks, target) && state != null ==>
                && Found(w, target, maxDepth, header, state.value)
                && (err.Some? <==> w.cancelled(target.number - header.number + 1))
      ensures Faithful(w) && Stored(w.blocks, target) && state != null && maxDepth > 0 ==>
                && Wrap(GasAbove(w, target.hash, header.number)) <= maxDepth
                && (GasAbove(w, target.hash, header.number) <= maxDepth
                    <==> GasAbove(w, target.hash, header.number) <= MAX_UINT64)
      ensures state != null && maxDepth <= 0 && maxDepth != INFINITE_DEPTH ==> header == target
      ensures Faithful(w) && Stored(w.blocks, target) ==>
                (state != null <==> exists k: nat :: HitAt(w, target, maxDepth, k))
      ensures Faithful(w) && Stored(w.blocks, target) && state == null ==>
                err.Some? && exists k: nat :: EndsWith(w, target, maxDepth, k, err.value)
    {
      hide Faithful, Found, AtAncestor, Passed, HitAt, Available, Allowed, GoesOn, GasAbove, Stored, L2Gas,
           Wrap, Metered, EndsWith, Obstacle;
      ghost var good := Faithful(w) && Stored(w.blocks, target);
      ghost var metered := good && maxDepth > 0;
      var current, i: nat := target, 0;
      var l2GasUsed: Uint64 := 0;
      state, header, checks := null, target, 0;
      if good {
        WalkStarts(w, target, maxDepth);
      }
      while !w.cancelled(i)
        invariant refs == old(refs) && references == old(references)
        invariant state == null && header == current
        invariant i == 0 ==> current == target
        invariant good ==> AtAncestor(w, target, current, i) && Passed(w, target, maxDepth, i)
        invariant i > 0 ==> maxDepth > 0 || maxDepth == INFINITE_DEPTH
        invariant metered ==> l2GasUsed <= maxDepth && Metered(w, target, current.number, l2GasUsed)
        decreases current.number
      {
        state := StateFor(w, i, current);
        if state != null {
          if good {
            WalkEnds(w, target, maxDepth, current, i);
          }
          if metered {
            MeterRead(w, target, current.number, l2GasUsed, maxDepth);
          }
          break;
        }
        if good {
          SearchStep(w, target, maxDepth, current, i, l2GasUsed);
        }
        var parent, stop;
        parent, l2GasUsed, stop := StepBack(w, maxDepth, current, i, l2GasUsed);
        if stop.Some? {
          return null, header, stop, i + 1;
        }
        current, header, i := parent, parent, i + 1;
      }
      if good && state == null {
        NoHit(w, target, maxDepth, i);
        CancelledEnds(w, target, maxDepth, current, i);
      }
      err, checks := if w.cancelled(i) || w.cancelled(i + 1) then Some(Cancelled) else None, i + 2;
    }

    /** Commits the state and references its root, if it is the expected one. */
    method AddStateVerify(w: World<S>, i: nat, state: StateDB<S>, expected: Hash) returns (err: Option<Error>)
      modifies `references, `refs
      ensures err == if !w.commits(i) then Some(CommitFailed)
                     else if w.rootOf(state.value) != expected then Some(BadRoot) else None
      ensures err.None? ==> refs == old(refs) + multiset{expected} && references == old(references) + 1
      ensures err.Some? ==> refs == old(refs) && references == old(references)
    {
      if !w.commits(i) {
        return Some(CommitFailed);
      }
      if w.rootOf(state.value) != expected {
        return Some(BadRoot);
      }
      ReferenceRoot(expected);
      return None;
    }

    /** Re-executes one block and moves the reference from the root before it to its own. */
    method RecreateBlock(w: World<S>, i: nat, state: StateDB<S>, number: nat, prevHash: Hash, lastRoot: Hash,
                         ghost others: multiset<Hash>)
      returns (block: Option<Block>, err: Option<Error>)
      requires refs == others + multiset{lastRoot}
      modifies `references, `refs, state
      ensures err.None?
              <==> Advances(w, i, old(state.value), number, prevHash) && CommitsTo(w, i, old(state.value), number)
      ensures err.None? ==>
                && block.Some? && block == w.canonical(i, number) && block.value.parent == prevHash
                && w.process(old(state.value), block.value) == Some(state.value)
                && w.rootOf(state.value) == block.value.root
                && refs == others + multiset{block.value.root} && references == old(references)
      ensures err.Some? ==> refs == old(refs) && references == old(references)
    {
      var st;
      st, block, err := AdvanceStateByBlock(w, i, state, number, prevHash);
      if err.Some? {
        return;
      }
      err := AddStateVerify(w, i, state, block.value.root);
      if err.Some? {
        return;
      }
      MoveReference(others, lastRoot, block.value.root);
      DereferenceRoot(lastRoot);
    }

    /** The deferred dereference; the zero hash means that nothing is left to drop. */
    method Deferred(lastRoot: Hash, ghost others: multiset<Hash>)
      requires refs == others + multiset{lastRoot}
      modifies `references, `refs
      ensures lastRoot != ZERO_HASH ==> refs == others && references == old(references) - 1
      ensures lastRoot == ZERO_HASH ==> unchanged(this)
    {
      if lastRoot != ZERO_HASH {
        assert others + multiset{lastRoot} - multiset{lastRoot} == others;
        DereferenceRoot(lastRoot);
      }
    }

    /** Re-executes the blocks between last, whose root is referenced, and the target. The reference moves along with
        the state: on success it is on the target's root, on failure it is dropped. */
    method Recreate(w: World<S>, check0: nat, state: StateDB<S>, header: Block, last: Block,
                    ghost others: multiset<Hash>)
      returns (r: StateDB?<S>, err: Option<Error>)
      requires refs == others + multiset{last.root}
      modifies `references, `refs, state
      ensures err.None? ==> r == state
      ensures Faithful(w) && Stored(w.blocks, header) && Stored(w.blocks, last) ==>
                && (err.None? ==> ReplayedTo(w, last.hash, old(state.value), header.hash, state.value)
                                  && w.rootOf(state.value) == header.root)
                && refs == (if err.None? then others + multiset{header.root} else others)
                && references == old(references) - (if err.None? then 0 else 1)
                && (OnTheWay(w, header, last, old(state.value)) ==> err.None?)
    {
      hide Faithful, Stored, ReplayedTo, OnTheWay, IsAncestor;
      ghost var good := Faithful(w) && Stored(w.blocks, header) && Stored(w.blocks, last);
      ghost var v := state.value;
      ghost var smooth := good && OnTheWay(w, header, last, v);
      var lastRoot := last.root;
      var number, prevHash, i := last.number + 1, last.hash, 0;
      if good {
        RecreationStarts(w, last, v);
      }
      if smooth {
        SmoothStarts(w, header, last, v);
      }
      while !w.cancelled(check0 + i)
        invariant number == last.number + 1 + i
        invariant smooth ==> number <= header.number && IsAncestor(w.blocks, prevHash, header.hash)
        invariant good ==> RecreatedTo(w, last.hash, v, prevHash, lastRoot, state.value, number)
        invariant refs == others + multiset{lastRoot} && references == old(references)
        decreases header.number - number
      {
        ghost var value := state.value;
        if smooth {
          SmoothRecreation(w, header, last, v, prevHash, lastRoot, value, number, i);
        }
        var block, e := RecreateBlock(w, i, state, number, prevHash, lastRoot, others);
        if e.Some? {
          Deferred(lastRoot, others);
          return null, e;
        }
        if good {
          RecreationStep(w, last.hash, v, prevHash, lastRoot, value, number, i, header);
        }
        prevHash, lastRoot := block.value.hash, block.value.root;
        if number >= header.number {
          if prevHash != header.hash {
            Deferred(lastRoot, others);
            return null, Some(HashMismatch);
          }
          return state, None;
        }
        number, i := number + 1, i + 1;
      }
      Deferred(lastRoot, others);
      return null, Some(Cancelled);
    }

    /** A caller gives back a state it holds. */
    method Dereference(header: Block)
      requires header.root in holds
      modifies this
      ensures holds == old(holds) - multiset{header.root}
      ensures old(Accounted()) ==> Accounted()
    {
      DereferenceRoot(header.root);
      holds := holds - multiset{header.root};
    }

    /** Gets the state of the header, recreated from the nearest ancestor whose state is found if need be. On success
        the caller holds one more reference, on the header's root, and on failure none; except that a context
        cancelled just after a state was found leaves its reference behind, and nothing else ever does. */
    method GetOrRecreateState(w: World<S>, header: Block) returns (r: StateDB?<S>, err: Option<Error>)
      modifies this
      ensures holds == if err.None? then old(holds) + multiset{header.root} else old(holds)
      ensures Faithful(w) && Stored(w.blocks, header) && err.None? ==>
                r != null && fresh(r) && IsRecreation(w, header, r.value)
      ensures Faithful(w) && Stored(w.blocks, header) && old(Accounted()) ==>
                (Accounted() <==> !CancelledAfterHit(w, header))
      ensures Faithful(w) && Stored(w.blocks, header) && Recreatable(w, header) ==> err.None?
      ensures Faithful(w) && Stored(w.blocks, header) && old(Accounted()) && CancelledAfterHit(w, header) ==>
                err == Some(Cancelled) && references == |holds| + 1
    {
      hide Faithful, Stored, Found, HitAt, ReplayedTo, CancelledAfterHit, IsRecreation, Recreatable, OnTheWay;
      ghost var good := Faithful(w) && Stored(w.blocks, header);
      ghost var before := refs;
      NoHitNoWindow(w, header);
      var state, current, e, checks := FindLastAvailableState(w, header, INFINITE_DEPTH);
      ghost var found := state != null && good;
      if good {
        RecreatableHits(w, header);
      }
      if found {
        WindowAfterHit(w, header, current, state.value);
        RecreatableFrom(w, header, current, state.value);
      }
      if e.Some? {
        return null, e;
      }
      r, err := state, None;
      ghost var v := state.value;
      if found {
        OwnState(w, header, v);
      }
      if current != header {
        r, err := Recreate(w, checks, state, header, current, before);
        if found && err.None? {
          FromAncestor(w, header, current, v, state.value);
        }
      }
      if err.None? {
        holds := holds + multiset{header.root};
      }
    }

    /** Prepares to record the block after header: its state is held on success, and given back if a later step
        fails. */
    method PrepareRecording(w: World<S>, header: Block, opens: bool) returns (err: Option<Error>)
      modifies this
      ensures holds == if err.None? then old(holds) + multiset{header.root} else old(holds)
      ensures Faithful(w) && Stored(w.blocks, header) && old(Accounted()) ==>
                (Accounted() <==> !CancelledAfterHit(w, header))
      ensures err.None? ==> opens && header.number <= MAX_UINT64
      ensures Faithful(w) && Stored(w.blocks, header) && Recreatable(w, header) ==>
                (opens && header.number <= MAX_UINT64 ==> err.None?)
    {
      ghost var before := holds;
      var state;
      state, err := GetOrRecreateState(w, header);
      if err.Some? {
        return;
      }
      assert before + multiset{header.root} - multiset{header.root} == before;
      if !opens {
        Dereference(header);
        return Some(NoRecording);
      }
      if header.number > MAX_UINT64 {
        Dereference(header);
        return Some(NoRecording);
      }
    }
  }

  const HUGE: seq<Receipt> := [Receipt(0x8000_0000_0000_0000, 0), Receipt(0x8000_0000_0000_0000, 0)]

  lemma HugeSum()
    ensures L2Gas(HUGE) == MAX_UINT64 + 1
  {
    assert HUGE[..1] == [Receipt(0x8000_0000_0000_0000, 0)];
    assert HUGE[..1][..0] == [];
    assert L2Gas(HUGE[..1]) == 0x8000_0000_0000_0000;
  }

  /** A walk that breaks its limit: the meter is modulo 2^64, so a block whose receipts add up to 2^64 counts as
      nothing, and its parent's state is found within a limit of one. */
  lemma HugeBlockPassesLimit()
    ensures exists w: World<int>, t: Block ::
              && Faithful(w) && Stored(w.blocks, t) && HitAt(w, t, 1, 1)
              && GasAbove(w, t.hash, t.number - 1) == MAX_UINT64 + 1
  {
    hide L2Gas;
    var g, b := Block(1, 0, 0, 7, 0, 0, 0, []), Block(2, 1, 1, 8, 0, 0, 0, []);
    var blocks: Store := map[1 := g, 2 := b];
    var w := World(blocks, 1, 0, (i: nat) => map[7 := 0], (i: nat) => false, (i: nat) => true, (h: Hash) => Some(HUGE),
                   (i: nat, n: nat) => None, (v: int, b: Block) => Some(v), (i: nat) => true, (v: int) => 7);
    assert Attached(blocks, 1, 1) && Attached(blocks, 1, 2);
    assert Faithful(w);
    HugeSum();
    assert GasAbove(w, 2, 1) == 0 && GasAbove(w, 1, 0) == 0 && GasAbove(w, 2, 0) == MAX_UINT64 + 1;
    assert AncestorAt(blocks, 1, 0) == 1 && AncestorAt(blocks, 2, 0) == AncestorAt(blocks, 1, 0);
    assert Below(w, b, 0) == 2 && Below(w, b, 1) == 1;
    assert GasThrough(w, b, 0) == MAX_UINT64 + 1;
    assert Allowed(w, b, 1, 0) && GoesOn(w, b, 0) && !Available(w, b, 0);
    assert HitAt(w, b, 1, 1);
  }

  /** A context that is cancelled after the first lookup has found the state. */
  lemma CancelledAfterHitHappens()
    ensures exists w: World<int>, t: Block :: Faithful(w) && Stored(w.blocks, t) && CancelledAfterHit(w, t)
  {
    var g := Block(1, 0, 0, 7, 0, 0, 0, []);
    var blocks: Store := map[1 := g];
    var w := World(blocks, 1, 0, (i: nat) => map[7 := 0], (i: nat) => i > 0, (i: nat) => true, (h: Hash) => None,
                   (i: nat, n: nat) => None, (v: int, b: Block) => Some(v), (i: nat) => true, (v: int) => 7);
    assert Attached(blocks, 1, 1);
    assert HitAt(w, g, INFINITE_DEPTH, 0) && w.cancelled(0 + 1);
    assert Faithful(w) && Stored(w.blocks, g);
  }
}
