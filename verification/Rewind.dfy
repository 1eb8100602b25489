/** The rewind loop: from a target block down to a head whose state is on disk, past a snapshot root if one is asked
    for, but not past a limit of rolled back gas. */
module Rewind {
  import opened BlockTree
  import opened Words

  datatype Node = Node(
    blocks: Store,
    genesis: Block,
    states: set<Hash>,       // the roots whose state is available
    root: Hash,              // the root to rewind past, or zero
    limit: Uint64,           // the gas limit, or zero
    pivot: Option<nat>,
    l1Gas: Hash -> nat       // the L1 share of a block's gas
  )

  /** The last block with state seen so far; the source marks "none" by number zero. */
  datatype Full = Full(number: nat, hash: Hash)

  const NO_BLOCK := Full(0, ZERO_HASH)

  datatype Outcome = Crashed | Rewound(head: Block, blockNumber: nat, rootFound: bool, recommitted: bool)

  predicate HasState(e: Node, b: Block) {
    b.root in e.states
  }

  function RolledBack(e: Node, b: Block, last: Full, gas: Uint64): Uint64 {
    if e.limit > 0 && last.number != 0 then Wrap(gas + Wrap(b.gasUsed - e.l1Gas(b.hash))) else gas
  }

  /** The rewind ends on the block with state seen first. */
  function FallBack(e: Node, last: Full, rootFound: bool): Outcome {
    var b := GetBlock(e.blocks, last.hash, last.number);
    if b.None? then Crashed else Rewound(b.value, last.number, rootFound, false)
  }

  function AtGenesis(e: Node, found: bool, at: nat, last: Full): Outcome {
    if HasState(e, e.genesis) then Rewound(e.genesis, at, found, false)
    else if last.number != 0 then FallBack(e, last, found)
    else Rewound(e.genesis, at, found, true)
  }

  function Seen(e: Node, b: Block, last: Full): Full {
    if HasState(e, b) && last.number == 0 then Full(b.number, b.hash) else last
  }

  /** The loop from block b on: whether the root was found, at which number, and the gas rolled back so far. */
  function Walk(e: Node, b: Block, found: bool, at: nat, last: Full, gas: Uint64): Outcome
    decreases b.number
  {
    var rolled := RolledBack(e, b, last, gas);
    var here := e.root != ZERO_HASH && !found && b.root == e.root;
    var parent := GetBlock(e.blocks, b.parent, b.number - 1);
    if e.limit > 0 && last.number != 0 && rolled >= e.limit then FallBack(e, last, found)
    else if !HasState(e, b) then
      if (e.pivot.None? || b.number > e.pivot.value) && parent.Some?
      then Walk(e, parent.value, found || here, if here then b.number else at, last, rolled)
      else AtGenesis(e, found || here, if here then b.number else at, last)
    else if b.number <= e.genesis.number then
      AtGenesis(e, found || here, if here then b.number else at, Seen(e, b, last))
    else if found || here then Rewound(b, if here then b.number else at, true, false)
    else if parent.None? then Crashed
    else Walk(e, parent.value, false, at, Seen(e, b, last), rolled)
  }

  /** The rewind to the block of a header; a missing block aims at genesis. */
  function RewindTo(e: Node, hash: Hash, number: nat): Outcome {
    var b := GetBlock(e.blocks, hash, number);
    if b.None? then Rewound(e.genesis, 0, false, false)
    else Walk(e, b.value, e.root == ZERO_HASH, 0, NO_BLOCK, 0)
  }

  lemma ParentIsLower(e: Node, b: Block)
    ensures var parent := GetBlock(e.blocks, b.parent, b.number - 1); parent.Some? ==> parent.value.number < b.number
  {
  }

  method RewindHead(e: Node, hash: Hash, number: nat) returns (r: Outcome)
    ensures r == RewindTo(e, hash, number)
  {
    hide GetBlock, Wrap;
    var start := GetBlock(e.blocks, hash, number);
    if start.None? {
      return Rewound(e.genesis, 0, false, false);
    }
    var newHead, blockNumber := start.value, 0;
    var rootFound := e.root == ZERO_HASH;
    var lastFullBlock, lastFullBlockHash, gasRolledBack: Uint64 := 0, ZERO_HASH, 0;
    while true
      invariant RewindTo(e, hash, number)
                == Walk(e, newHead, rootFound, blockNumber, Full(lastFullBlock, lastFullBlockHash), gasRolledBack)
      decreases newHead.number
    {
      if e.limit > 0 && lastFullBlock != 0 {
        var gasUsedInBlock := Wrap(newHead.gasUsed - e.l1Gas(newHead.hash));
        gasRolledBack := Wrap(gasRolledBack + gasUsedInBlock);
        if gasRolledBack >= e.limit {
          var b := GetBlock(e.blocks, lastFullBlockHash, lastFullBlock);
          return if b.None? then Crashed else Rewound(b.value, lastFullBlock, rootFound, false);
        }
      }
      if e.root != ZERO_HASH && !rootFound && newHead.root == e.root {
        rootFound, blockNumber := true, newHead.number;
      }
      if newHead.root !in e.states {
        if e.pivot.None? || newHead.number > e.pivot.value {
          var parent := GetBlock(e.blocks, newHead.parent, newHead.number - 1);
          if parent.Some? {
            ParentIsLower(e, newHead);
            newHead := parent.value;
            continue;
          }
          newHead := e.genesis;
        } else {
          newHead := e.genesis;
        }
      } else if lastFullBlock == 0 {
        lastFullBlock, lastFullBlockHash := newHead.number, newHead.hash;
      }
      if rootFound || newHead.number <= e.genesis.number {
        var recommitted := false;
        if newHead.number <= e.genesis.number {
          if e.genesis.root !in e.states {
            if lastFullBlock != 0 {
              var b := GetBlock(e.blocks, lastFullBlockHash, lastFullBlock);
              return if b.None? then Crashed else Rewound(b.value, lastFullBlock, rootFound, false);
            }
            recommitted := true;
          }
          newHead := e.genesis;
        }
        return Rewound(newHead, blockNumber, rootFound, recommitted);
      }
      var parent := GetBlock(e.blocks, newHead.parent, newHead.number - 1);
      if parent.None? {
        return Crashed;
      }
      ParentIsLower(e, newHead);
      newHead := parent.value;
    }
  }

  // ----- The chain below a block

  /** A stored block is the one its key names; above genesis its parent is stored, and at its number there is only
      genesis. */
  ghost predicate Placed(e: Node, h: Hash)
    requires h in e.blocks
  {
    var b := e.blocks[h];
    && b.hash == h
    && b.number >= e.genesis.number
    && if b.number == e.genesis.number then b == e.genesis
       else b.parent in e.blocks && e.blocks[b.parent].number == b.number - 1
  }

  /** The store is closed under parents down to genesis, which may have any number. */
  ghost predicate Rooted(e: Node) {
    && e.genesis.hash in e.blocks && e.blocks[e.genesis.hash] == e.genesis
    && forall h {:trigger Placed(e, h)} | h in e.blocks :: Placed(e, h)
  }

  function Parent(e: Node, b: Block): Option<Block> {
    if b.number <= e.genesis.number then None else GetBlock(e.blocks, b.parent, b.number - 1)
  }

  /** The block at or below the pivot that has no state sends the loop straight to genesis. */
  predicate PassesPivot(e: Node, b: Block) {
    e.pivot.Some? && b.number <= e.pivot.value && !HasState(e, b)
  }

  /** The block the loop looks at after b. */
  function Below(e: Node, b: Block): Option<Block> {
    if PassesPivot(e, b) then None else Parent(e, b)
  }

  lemma ParentStored(e: Node, b: Block)
    requires Rooted(e) && Stored(e.blocks, b)
    ensures b.number >= e.genesis.number
    ensures if b.number == e.genesis.number then b == e.genesis
            else Parent(e, b).Some? && Stored(e.blocks, Parent(e, b).value) && Parent(e, b).value.hash == b.parent
    ensures GetBlock(e.blocks, b.parent, b.number - 1) == Parent(e, b)
  {
    assert Placed(e, b.hash);
    if b.parent in e.blocks {
      assert Placed(e, b.parent);
    }
  }

  /** The first block the loop looks at from b on, above genesis, whose state is available. */
  function Nearest(e: Node, b: Block): Option<Block>
    decreases b.number
  {
    if b.number <= e.genesis.number then None
    else if HasState(e, b) then Some(b)
    else if Below(e, b).None? then None else Nearest(e, Below(e, b).value)
  }

  /** The first block the loop looks at from b on that has the requested root. */
  function RootBlock(e: Node, b: Block): Option<Block>
    decreases b.number
  {
    if b.root == e.root then Some(b)
    else if Below(e, b).None? then None else RootBlock(e, Below(e, b).value)
  }

  ghost predicate OnChain(e: Node, b: Block, x: Block) {
    Stored(e.blocks, x) && x.number <= b.number && AncestorAt(e.blocks, b.hash, x.number) == x.hash
  }

  /** The chain of a block is itself and the chain of its parent. */
  lemma ChainStep(e: Node, b: Block)
    requires Rooted(e) && Stored(e.blocks, b) && b.number > e.genesis.number
    ensures Parent(e, b).Some? && forall x :: OnChain(e, b, x) <==> x == b || OnChain(e, Parent(e, b).value, x)
  {
    ParentStored(e, b);
    var parent := Parent(e, b).value;
    forall x
      ensures OnChain(e, b, x) <==> x == b || OnChain(e, parent, x)
    {
      if Stored(e.blocks, x) && x.number == b.number {
        assert AncestorAt(e.blocks, b.hash, x.number) == b.hash;
      }
    }
  }

  /** It is the nearest such block of the chain; if there is none, all of them lie below the pivot. */
  lemma {:induction false} NearestIsNearest(e: Node, b: Block)
    requires Rooted(e) && Stored(e.blocks, b)
    ensures var x := Nearest(e, b);
            && (x.Some? ==> OnChain(e, b, x.value) && HasState(e, x.value) && x.value.number > e.genesis.number)
            && forall y | OnChain(e, b, y) && HasState(e, y) && y.number > e.genesis.number ::
                 if x.Some? then y.number <= x.value.number else e.pivot.Some? && y.number < e.pivot.value
    decreases b.number
  {
    ParentStored(e, b);
    if b.number > e.genesis.number {
      NearestIsNearest(e, Parent(e, b).value);
      ChainStep(e, b);
    }
  }

  lemma {:induction false} RootBlockIsNearest(e: Node, b: Block)
    requires Rooted(e) && Stored(e.blocks, b)
    ensures var x := RootBlock(e, b);
            && (x.Some? ==> OnChain(e, b, x.value) && x.value.root == e.root)
            && forall y | OnChain(e, b, y) && y.root == e.root ::
                 if x.Some? then y.number <= x.value.number else e.pivot.Some? && y.number < e.pivot.value
    decreases b.number
  {
    ParentStored(e, b);
    if b.number > e.genesis.number {
      RootBlockIsNearest(e, Parent(e, b).value);
      ChainStep(e, b);
    } else {
      forall y | OnChain(e, b, y)
        ensures y == b
      {
        assert Placed(e, y.hash);
      }
    }
  }

  // ----- What the loop finds

  /** With the root found and no block with state seen yet, whatever the gas limit: the nearest block with state, or
      genesis, recommitted if need be. */
  lemma {:induction false} WalkToState(e: Node, b: Block, at: nat)
    requires Rooted(e) && Stored(e.blocks, b)
    ensures Walk(e, b, true, at, NO_BLOCK, 0)
            == if Nearest(e, b).Some? then Rewound(Nearest(e, b).value, at, true, false)
               else Rewound(e.genesis, at, true, !HasState(e, e.genesis))
    decreases b.number
  {
    ParentStored(e, b);
    if b.number > e.genesis.number && !HasState(e, b) && !PassesPivot(e, b) {
      WalkToState(e, Parent(e, b).value, at);
    }
  }

  // ----- The gas limit

  /** The gas rolled back from block b down to number stop reaches the limit on the way. */
  predicate Reaches(e: Node, b: Block, gas: Uint64, stop: nat)
    decreases b.number
  {
    var rolled := Wrap(gas + Wrap(b.gasUsed - e.l1Gas(b.hash)));
    && e.limit > 0
    && (rolled >= e.limit || (b.number > stop && Below(e, b).Some? && Reaches(e, Below(e, b).value, rolled, stop)))
  }

  /** The loop looks at a block of number n from b on. */
  predicate Looks(e: Node, b: Block, n: nat)
    decreases b.number
  {
    b.number == n || (Below(e, b).Some? && Looks(e, Below(e, b).value, n))
  }

  /** The gas used by the blocks it looks at from b down to number n. */
  function UsedDown(e: Node, b: Block, n: nat): nat
    decreases b.number
  {
    b.gasUsed + if b.number > n && Below(e, b).Some? then UsedDown(e, Below(e, b).value, n) else 0
  }

  /** How much of that was spent on L1. */
  function L1Down(e: Node, b: Block, n: nat): nat
    decreases b.number
  {
    e.l1Gas(b.hash) + if b.number > n && Below(e, b).Some? then L1Down(e, Below(e, b).value, n) else 0
  }

  lemma {:induction false} LooksDown(e: Node, b: Block, n: nat)
    ensures Looks(e, b, n) ==> n <= b.number
    decreases b.number
  {
    if Below(e, b).Some? {
      LooksDown(e, Below(e, b).value, n);
    }
  }

  /** The limit is reached at number n: the L2 gas of the blocks looked at down to there, modulo 2^64, is not below. */
  predicate ReachedAt(e: Node, b: Block, gas: Uint64, n: nat) {
    Looks(e, b, n) && Wrap(gas + UsedDown(e, b, n) - L1Down(e, b, n)) >= e.limit
  }

  lemma ReachedBelow(e: Node, b: Block, gas: Uint64, n: nat)
    requires n < b.number && Below(e, b).Some?
    ensures ReachedAt(e, b, gas, n)
            <==> ReachedAt(e, Below(e, b).value, Wrap(gas + Wrap(b.gasUsed - e.l1Gas(b.hash))), n)
  {
    hide Wrap, Below;
    var own, c := b.gasUsed - e.l1Gas(b.hash), Below(e, b).value;
    var rest := UsedDown(e, c, n) - L1Down(e, c, n);
    WrapTwice(own, gas);
    WrapTwice(own + gas, rest);
    assert UsedDown(e, b, n) == b.gasUsed + UsedDown(e, c, n) && L1Down(e, b, n) == e.l1Gas(b.hash) + L1Down(e, c, n);
    assert gas + UsedDown(e, b, n) - L1Down(e, b, n) == own + gas + rest;
  }

  lemma ReachedHere(e: Node, b: Block, gas: Uint64)
    ensures ReachedAt(e, b, gas, b.number) <==> Wrap(gas + Wrap(b.gasUsed - e.l1Gas(b.hash))) >= e.limit
    ensures forall n: nat | ReachedAt(e, b, gas, n) :: n <= b.number && (Below(e, b).None? ==> n == b.number)
    ensures Below(e, b).Some? ==>
              forall n: nat, rolled: Uint64 | ReachedAt(e, Below(e, b).value, rolled, n) :: n < b.number
  {
    hide Wrap;
    WrapTwice(b.gasUsed - e.l1Gas(b.hash), gas);
    forall n: nat
      ensures Looks(e, b, n) ==> n <= b.number
      ensures Below(e, b).Some? && Looks(e, Below(e, b).value, n) ==> n < b.number
    {
      LooksDown(e, b, n);
      if Below(e, b).Some? {
        LooksDown(e, Below(e, b).value, n);
      }
    }
  }

  /** The limit is reached on the way down to number stop if and only if it is at some number from there on. */
  lemma {:induction false} ReachesExactly(e: Node, b: Block, gas: Uint64, stop: nat)
    requires stop <= b.number
    ensures Reaches(e, b, gas, stop) <==> e.limit > 0 && exists n: nat :: n >= stop && ReachedAt(e, b, gas, n)
    decreases b.number
  {
    hide Wrap, ReachedAt;
    ReachedHere(e, b, gas);
    if b.number > stop && Below(e, b).Some? {
      var c, rolled := Below(e, b).value, Wrap(gas + Wrap(b.gasUsed - e.l1Gas(b.hash)));
      ReachesExactly(e, c, rolled, stop);
      forall n: nat | stop <= n < b.number
        ensures ReachedAt(e, b, gas, n) <==> ReachedAt(e, c, rolled, n)
      {
        ReachedBelow(e, b, gas, n);
      }
    }
  }

  /** Where the loop ends once the root is found: the nearest block with state, or genesis. */
  function Stop(e: Node, b: Block): nat {
    if Nearest(e, b).Some? then Nearest(e, b).value.number else e.genesis.number
  }

  lemma {:induction false} NearestIsLower(e: Node, b: Block)
    requires Rooted(e) && Stored(e.blocks, b)
    ensures e.genesis.number <= Stop(e, b) <= b.number
    ensures Nearest(e, b).Some? ==> e.genesis.number < Nearest(e, b).value.number
    decreases b.number
  {
    ParentStored(e, b);
    if b.number > e.genesis.number && !HasState(e, b) && !PassesPivot(e, b) {
      NearestIsLower(e, Parent(e, b).value);
    }
  }

  /** With the root found and a block with state seen before. */
  lemma {:induction false} WalkBeyondRoot(e: Node, b: Block, at: nat, last: Full, gas: Uint64)
    requires Rooted(e) && Stored(e.blocks, b) && last.number != 0
    ensures Walk(e, b, true, at, last, gas)
            == if Reaches(e, b, gas, Stop(e, b)) then FallBack(e, last, true)
               else if Nearest(e, b).Some? then Rewound(Nearest(e, b).value, at, true, false)
               else AtGenesis(e, true, at, last)
    decreases b.number
  {
    hide Wrap;
    ParentStored(e, b);
    NearestIsLower(e, b);
    if b.number > e.genesis.number && !HasState(e, b) && !PassesPivot(e, b) {
      NearestIsLower(e, Parent(e, b).value);
      WalkBeyondRoot(e, Parent(e, b).value, at, last, RolledBack(e, b, last, gas));
    }
  }

  lemma {:induction false} RootIsLower(e: Node, b: Block)
    ensures RootBlock(e, b).Some? ==> RootBlock(e, b).value.number <= b.number
    decreases b.number
  {
    if b.root != e.root && Below(e, b).Some? {
      RootIsLower(e, Below(e, b).value);
    }
  }

  /** Looking for the root after a block with state was seen. */
  lemma {:induction false} WalkToRoot(e: Node, b: Block, last: Full, gas: Uint64)
    requires Rooted(e) && Stored(e.blocks, b) && e.root != ZERO_HASH && last.number != 0
    ensures var r := RootBlock(e, b);
            Walk(e, b, false, 0, last, gas)
            == if Reaches(e, b, gas, if r.Some? then r.value.number else e.genesis.number) then FallBack(e, last, false)
               else if r.None? then AtGenesis(e, false, 0, last)
               else if Reaches(e, b, gas, Stop(e, r.value)) then FallBack(e, last, true)
               else if Nearest(e, r.value).Some? then Rewound(Nearest(e, r.value).value, r.value.number, true, false)
               else AtGenesis(e, true, r.value.number, last)
    decreases b.number
  {
    hide Wrap;
    ParentStored(e, b);
    RootIsLower(e, b);
    if b.root == e.root {
      NearestIsLower(e, b);
      if b.number > e.genesis.number && !HasState(e, b) && !PassesPivot(e, b) {
        NearestIsLower(e, Parent(e, b).value);
        WalkBeyondRoot(e, Parent(e, b).value, b.number, last, RolledBack(e, b, last, gas));
      }
    } else if b.number > e.genesis.number && !PassesPivot(e, b) {
      WalkToRoot(e, Parent(e, b).value, last, RolledBack(e, b, last, gas));
      RootIsLower(e, Parent(e, b).value);
    }
  }

  /** From the start: the root at or above the nearest block with state ends the loop there; otherwise the search
      goes on below that block, which is the one to fall back to. */
  lemma {:induction false} WalkFromStart(e: Node, b: Block)
    requires Rooted(e) && Stored(e.blocks, b) && e.root != ZERO_HASH
    ensures var f, r := Nearest(e, b), RootBlock(e, b);
            if f.None? then
              Walk(e, b, false, 0, NO_BLOCK, 0)
              == Rewound(e.genesis, if r.Some? then r.value.number else 0, r.Some?, !HasState(e, e.genesis))
            else if r.Some? && f.value.number <= r.value.number then
              Walk(e, b, false, 0, NO_BLOCK, 0) == Rewound(f.value, r.value.number, true, false)
            else
              && Parent(e, f.value).Some? && RootBlock(e, Parent(e, f.value).value) == r
              && Walk(e, b, false, 0, NO_BLOCK, 0)
                 == Walk(e, Parent(e, f.value).value, false, 0, Full(f.value.number, f.value.hash), 0)
    decreases b.number
  {
    ParentStored(e, b);
    NearestIsLower(e, b);
    RootIsLower(e, b);
    if b.number > e.genesis.number && !PassesPivot(e, b) {
      var parent := Parent(e, b).value;
      NearestIsLower(e, parent);
      RootIsLower(e, parent);
      if !HasState(e, b) {
        if b.root == e.root {
          WalkToState(e, parent, b.number);
        } else {
          WalkFromStart(e, parent);
        }
      }
    }
  }

  ghost predicate EndsOnState(e: Node, out: Outcome) {
    && out.Rewound? && Stored(e.blocks, out.head)
    && (HasState(e, out.head) || out.head == e.genesis)
    && (out.recommitted <==> !HasState(e, out.head))
  }

  /** Whatever root, gas limit and pivot: the rewind ends on a block whose state is available, or on genesis, whose
      state is recommitted exactly if it is missing. */
  lemma {:induction false} WalkEndsOnState(e: Node, b: Block, found: bool, at: nat, last: Full, gas: Uint64)
    requires Rooted(e) && Stored(e.blocks, b)
    requires last.number != 0 ==> EndsOnState(e, FallBack(e, last, found))
    ensures EndsOnState(e, Walk(e, b, found, at, last, gas))
    decreases b.number
  {
    hide Wrap, RolledBack;
    ParentStored(e, b);
    var rolled := RolledBack(e, b, last, gas);
    var here := e.root != ZERO_HASH && !found && b.root == e.root;
    if b.number > e.genesis.number {
      WalkEndsOnState(e, Parent(e, b).value, found || here, if here then b.number else at, Seen(e, b, last), rolled);
    }
  }

  /** The rewind ends on a block of the store with its state available; a start that is not stored ends on genesis. */
  lemma RewindEndsOnState(e: Node, hash: Hash, number: nat)
    requires Rooted(e)
    ensures var out := RewindTo(e, hash, number);
            if GetBlock(e.blocks, hash, number).Some? then EndsOnState(e, out)
            else out == Rewound(e.genesis, 0, false, false)
  {
    var b := GetBlock(e.blocks, hash, number);
    if b.Some? {
      assert Placed(e, hash);
      WalkEndsOnState(e, b.value, e.root == ZERO_HASH, 0, NO_BLOCK, 0);
    }
  }

  /** Without a root, the head is the nearest block at or below the start whose state is available, genesis counting as
      available, if that is not below the pivot; the gas limit plays no part. */
  lemma RewindFindsNearest(e: Node, hash: Hash, number: nat)
    requires Rooted(e) && e.root == ZERO_HASH && GetBlock(e.blocks, hash, number).Some?
    ensures var b, out := GetBlock(e.blocks, hash, number).value, RewindTo(e, hash, number);
            && out.Rewound? && out.rootFound && out.blockNumber == 0
            && (out.head == e.genesis || (OnChain(e, b, out.head) && HasState(e, out.head)))
            && forall y | OnChain(e, b, y) && HasState(e, y) ::
                 y.number <= out.head.number || (out.head == e.genesis && e.pivot.Some? && y.number < e.pivot.value)
  {
    var b := GetBlock(e.blocks, hash, number).value;
    assert Placed(e, hash);
    WalkToState(e, b, 0);
    NearestIsNearest(e, b);
    forall y | OnChain(e, b, y)
      ensures y.number >= e.genesis.number
    {
      assert Placed(e, y.hash);
    }
  }

  /** The gas from below b down to number stop reaches the limit. */
  predicate ReachesBelow(e: Node, b: Block, stop: nat) {
    Parent(e, b).Some? && Reaches(e, Parent(e, b).value, 0, stop)
  }

  predicate FindsRoot(e: Node, b: Block) {
    var f, r := Nearest(e, b), RootBlock(e, b);
    r.Some? && (f.None? || f.value.number <= r.value.number || !ReachesBelow(e, f.value, r.value.number))
  }

  predicate EndsBelowRoot(e: Node, b: Block)
    requires RootBlock(e, b).Some?
  {
    var f, r := Nearest(e, b), RootBlock(e, b).value;
    || f.None?
    || f.value.number <= r.number
    || (!ReachesBelow(e, f.value, Stop(e, r)) && (HasState(e, e.genesis) || Nearest(e, r).Some?))
  }

  /** The chain of a block of the chain is the rest of it. */
  lemma {:induction false} ChainBelow(e: Node, b: Block, r: Block, y: Block)
    requires Rooted(e) && Stored(e.blocks, b) && OnChain(e, b, r) && OnChain(e, b, y) && y.number <= r.number
    ensures OnChain(e, r, y)
    decreases b.number
  {
    ParentStored(e, b);
    if r != b {
      assert Placed(e, r.hash) && Placed(e, y.hash);
      if b.number > e.genesis.number {
        ChainStep(e, b);
        ChainBelow(e, Parent(e, b).value, r, y);
      }
    }
  }

  /** No block of the chain of b, from number top on down, has its state closer by than head, unless it lies below the
      pivot. */
  ghost predicate NoneCloser(e: Node, b: Block, top: nat, head: Block) {
    forall y | OnChain(e, b, y) && HasState(e, y) && y.number <= top ::
      y.number <= head.number || (head == e.genesis && e.pivot.Some? && y.number < e.pivot.value)
  }

  lemma NearestToRoot(e: Node, b: Block, r: Block)
    requires Rooted(e) && Stored(e.blocks, b) && OnChain(e, b, r)
    ensures NoneCloser(e, b, r.number, if Nearest(e, r).Some? then Nearest(e, r).value else e.genesis)
    ensures Nearest(e, b).Some? ==> NoneCloser(e, b, r.number, Nearest(e, b).value)
    ensures Nearest(e, b).None? ==> NoneCloser(e, b, r.number, e.genesis)
  {
    hide Nearest;
    NearestIsNearest(e, b);
    NearestIsNearest(e, r);
    forall y | OnChain(e, b, y) && y.number <= r.number
      ensures OnChain(e, r, y) && y.number >= e.genesis.number
    {
      ChainBelow(e, b, r, y);
      assert Placed(e, y.hash);
    }
  }

  /** The block number the rewind reports: that of the block it fell back to, or else the root's if it was found. */
  function Reported(e: Node, b: Block, out: Outcome): nat
    requires out.Rewound?
  {
    var f, r := Nearest(e, b), RootBlock(e, b);
    if f == Some(out.head) && (r.None? || r.value.number < f.value.number) then f.value.number
    else if r.Some? && out.rootFound then r.value.number
    else 0
  }

  /** With a root, for every gas limit and pivot. Let f be the first block with state and r the first one with the
      root that the loop looks at. The root is reported found exactly when there is an r and, if f lies above it, the
      gas from below f down to r stays under the limit. The head is then at or below r, if and only if f is not above
      it; or else if the gas stays under the limit down to where the loop would end, and that is not a genesis
      without state. There it is the closest block to r that has its state; in all other cases it is f, or
      genesis. */
  lemma RewindPassesRoot(e: Node, hash: Hash, number: nat)
    requires Rooted(e) && e.root != ZERO_HASH && GetBlock(e.blocks, hash, number).Some?
    ensures var b, out := GetBlock(e.blocks, hash, number).value, RewindTo(e, hash, number);
            && out.Rewound?
            && out.blockNumber == Reported(e, b, out)
            && (out.rootFound <==> FindsRoot(e, b))
            && (out.rootFound ==>
                  if EndsBelowRoot(e, b)
                  then out.head.number <= RootBlock(e, b).value.number
                       && NoneCloser(e, b, RootBlock(e, b).value.number, out.head)
                  else out.head.number > RootBlock(e, b).value.number && Nearest(e, b) == Some(out.head))
            && (!out.rootFound ==> out.head == e.genesis || Nearest(e, b) == Some(out.head))
  {
    hide Reaches, Wrap, NoneCloser, OnChain;
    var b := GetBlock(e.blocks, hash, number).value;
    assert Placed(e, hash);
    var f, r := Nearest(e, b), RootBlock(e, b);
    WalkFromStart(e, b);
    NearestIsNearest(e, b);
    NearestIsLower(e, b);
    RootBlockIsNearest(e, b);
    if r.Some? {
      ParentStored(e, r.value);
      NearestIsLower(e, r.value);
      NearestToRoot(e, b, r.value);
    }
    if f.Some? && !(r.Some? && f.value.number <= r.value.number) {
      ParentStored(e, f.value);
      WalkToRoot(e, Parent(e, f.value).value, Full(f.value.number, f.value.hash), 0);
    }
  }

  /** With a gas limit the root may be reported found although the head stays above it: block 3 has state, block 2 has
      the root but no state, and the gas of block 1 reaches the limit. */
  lemma GasLimitStopsAboveRoot()
    ensures exists e: Node, hash: Hash ::
              && Rooted(e) && e.pivot.None? && HasState(e, e.genesis)
              && var out := RewindTo(e, hash, 3);
                 && out.Rewound? && out.rootFound && out.head.number == 3
                 && 12 in e.blocks && e.blocks[12].number == 2 && e.blocks[12].root == e.root
  {
    var b0, b1 := Block(10, 0, 0, 20, 0, 0, 0, []), Block(11, 10, 1, 21, 0, 0, 1, []);
    var b2, b3 := Block(12, 11, 2, 22, 0, 0, 0, []), Block(13, 12, 3, 23, 0, 0, 0, []);
    var e := Node(map[10 := b0, 11 := b1, 12 := b2, 13 := b3], b0, {20, 23}, 22, 1, None, _ => 0);
    forall h | h in e.blocks
      ensures Placed(e, h)
    {
    }
    var last := Full(3, 13);
    assert Walk(e, b1, true, 2, last, 0) == FallBack(e, last, true);
    assert Walk(e, b2, false, 0, last, 0) == Walk(e, b1, true, 2, last, 0);
    assert Walk(e, b3, false, 0, NO_BLOCK, 0) == Walk(e, b2, false, 0, last, 0);
    assert RewindTo(e, 13, 3) == FallBack(e, last, true) == Rewound(b3, 3, true, false);
  }

  /** Nor is a gas limit needed: if genesis and everything up to the block of the root have lost their state, the
      head stays on the block above it that has one. */
  lemma StatelessGenesisStopsAboveRoot()
    ensures exists e: Node, hash: Hash ::
              && Rooted(e) && e.pivot.None? && e.limit == 0
              && var out := RewindTo(e, hash, 2);
                 && out.Rewound? && out.rootFound && out.head.number == 2
                 && 11 in e.blocks && e.blocks[11].number == 1 && e.blocks[11].root == e.root
  {
    var b0, b1 := Block(10, 0, 0, 20, 0, 0, 0, []), Block(11, 10, 1, 21, 0, 0, 0, []);
    var b2 := Block(12, 11, 2, 22, 0, 0, 0, []);
    var e := Node(map[10 := b0, 11 := b1, 12 := b2], b0, {22}, 21, 0, None, _ => 0);
    forall h | h in e.blocks
      ensures Placed(e, h)
    {
    }
    var last := Full(2, 12);
    assert Walk(e, b0, true, 1, last, 0) == FallBack(e, last, true);
    assert Walk(e, b1, false, 0, last, 0) == Walk(e, b0, true, 1, last, 0);
    assert Walk(e, b2, false, 0, NO_BLOCK, 0) == Walk(e, b1, false, 0, last, 0);
    assert RewindTo(e, 12, 2) == FallBack(e, last, true) == Rewound(b2, 2, true, false);
  }
}
