/** The hash-linked block tree every other module walks.

    A block is identified by its hash, so the store is a map from hashes to blocks. The zero hash stands
    for "no entry", as common.Hash{} does in the database accessors. A header is a block whose body is
    ignored, so headers and blocks share one datatype.
 */
module BlockTree {
  type Hash = nat

  const ZERO_HASH: Hash := 0

  datatype Option<+T> = None | Some(value: T)

  datatype Block = Block(
    hash: Hash,
    parent: Hash,
    number: nat,
    root: Hash,
    time: nat,
    difficulty: nat,
    gasUsed: nat,
    txs: seq<Hash>
  )

  type Store = map<Hash, Block>

  /** Block lookup by hash and number; nothing is stored under a number below zero. */
  function GetBlock(s: Store, hash: Hash, number: int): (r: Option<Block>)
    ensures r.Some? ==> hash in s && r.value == s[hash] && r.value.number == number
  {
    if hash in s && s[hash].number == number then Some(s[hash]) else None
  }

  ghost predicate Stored(s: Store, b: Block) {
    b.hash in s && s[b.hash] == b
  }

  /** A stored block is the block its key names, and its parent is stored one number below it. */
  predicate Attached(s: Store, genesis: Hash, h: Hash)
    requires h in s
  {
    && h != ZERO_HASH
    && s[h].hash == h
    && if s[h].number == 0 then h == genesis && s[h].parent == ZERO_HASH
       else s[h].parent in s && s[s[h].parent].number == s[h].number - 1
  }

  /** The store is a tree: one block at number 0, and closed under parents. */
  ghost predicate Tree(s: Store, genesis: Hash) {
    && genesis in s
    && ZERO_HASH !in s
    && s[genesis].number == 0
    && forall h {:trigger Attached(s, genesis, h)} | h in s :: Attached(s, genesis, h)
  }

  /** The plain parent walk from h down to number n (it stops where the store ends). */
  function AncestorAt(s: Store, h: Hash, n: nat): Hash
    decreases if h in s then s[h].number else 0
  {
    if h in s && n < s[h].number && s[h].parent in s && s[s[h].parent].number < s[h].number
    then AncestorAt(s, s[h].parent, n)
    else h
  }

  /** The path from genesis to h, as an index from numbers to hashes: what a canonical index should hold. */
  ghost function PathIndex(s: Store, h: Hash): map<nat, Hash>
    requires h in s
  {
    map n: nat | n <= s[h].number :: AncestorAt(s, h, n)
  }

  ghost predicate IsAncestor(s: Store, a: Hash, h: Hash) {
    && a in s
    && h in s
    && s[a].number <= s[h].number
    && AncestorAt(s, h, s[a].number) == a
  }

  /** c lies on both chains and no block above c does. */
  ghost predicate HighestCommon(s: Store, a: Hash, b: Hash, c: Hash) {
    && IsAncestor(s, c, a)
    && IsAncestor(s, c, b)
    && forall x | IsAncestor(s, x, a) && IsAncestor(s, x, b) :: s[x].number <= s[c].number
  }

  lemma {:induction false} AncestorStored(s: Store, genesis: Hash, h: Hash, n: nat)
    requires Tree(s, genesis)
    requires h in s && n <= s[h].number
    ensures AncestorAt(s, h, n) in s
    ensures s[AncestorAt(s, h, n)].number == n
    ensures AncestorAt(s, h, n) != ZERO_HASH && s[AncestorAt(s, h, n)].hash == AncestorAt(s, h, n)
    ensures n == 0 ==> AncestorAt(s, h, n) == genesis
    decreases s[h].number
  {
    assert Attached(s, genesis, h);
    if n < s[h].number {
      AncestorStored(s, genesis, s[h].parent, n);
    }
  }

  lemma {:induction false} AncestorCompose(s: Store, genesis: Hash, h: Hash, m: nat, n: nat)
    requires Tree(s, genesis)
    requires h in s && n <= m <= s[h].number
    ensures AncestorAt(s, AncestorAt(s, h, m), n) == AncestorAt(s, h, n)
    decreases s[h].number
  {
    assert Attached(s, genesis, h);
    if m < s[h].number {
      AncestorCompose(s, genesis, s[h].parent, m, n);
    }
  }

  /** Two chains that share a block share everything below it. */
  lemma SharedBelow(s: Store, genesis: Hash, a: Hash, b: Hash, m: nat)
    requires Tree(s, genesis)
    requires a in s && b in s && m <= s[a].number && m <= s[b].number
    requires AncestorAt(s, a, m) == AncestorAt(s, b, m)
    ensures forall n: nat | n <= m :: AncestorAt(s, a, n) == AncestorAt(s, b, n)
  {
    forall n: nat | n <= m
      ensures AncestorAt(s, a, n) == AncestorAt(s, b, n)
    {
      AncestorCompose(s, genesis, a, m, n);
      AncestorCompose(s, genesis, b, m, n);
    }
  }

  /** A child's path is its parent's path and the child. */
  lemma PathExtends(s: Store, genesis: Hash, h: Hash)
    requires Tree(s, genesis)
    requires h in s && s[h].number > 0
    ensures s[h].parent in s
    ensures PathIndex(s, h) == PathIndex(s, s[h].parent)[s[h].number := h]
  {
    assert Attached(s, genesis, h);
  }

  /** Adding blocks to the store changes no path in it. */
  lemma {:induction false} AncestorInExtension(s: Store, t: Store, genesis: Hash, h: Hash, n: nat)
    requires Tree(s, genesis)
    requires s.Keys <= t.Keys && forall x | x in s :: t[x] == s[x]
    requires h in s && n <= s[h].number
    ensures AncestorAt(t, h, n) == AncestorAt(s, h, n)
    decreases s[h].number
  {
    assert Attached(s, genesis, h);
    if n < s[h].number {
      AncestorInExtension(s, t, genesis, s[h].parent, n);
    }
  }

  lemma PathInExtension(s: Store, t: Store, genesis: Hash, h: Hash)
    requires Tree(s, genesis)
    requires s.Keys <= t.Keys && forall x | x in s :: t[x] == s[x]
    requires h in s
    ensures PathIndex(t, h) == PathIndex(s, h)
  {
    forall n: nat | n <= s[h].number
      ensures AncestorAt(t, h, n) == AncestorAt(s, h, n)
    {
      AncestorInExtension(s, t, genesis, h, n);
    }
  }

  /** The sum of difficulties along the ancestors of h. */
  function TotalDifficulty(s: Store, h: Hash): nat
    decreases if h in s then s[h].number else 0
  {
    if h !in s then 0
    else s[h].difficulty +
         if s[h].number > 0 && s[h].parent in s && s[s[h].parent].number < s[h].number
         then TotalDifficulty(s, s[h].parent) else 0
  }

  lemma {:induction false} DifficultyInExtension(s: Store, t: Store, genesis: Hash, h: Hash)
    requires Tree(s, genesis)
    requires s.Keys <= t.Keys && forall x | x in s :: t[x] == s[x]
    requires h in s
    ensures TotalDifficulty(t, h) == TotalDifficulty(s, h)
    decreases s[h].number
  {
    assert Attached(s, genesis, h);
    if s[h].number > 0 {
      DifficultyInExtension(s, t, genesis, s[h].parent);
    }
  }

  /** Attaching one new block under a stored parent keeps the store a tree. */
  lemma TreeGrows(s: Store, genesis: Hash, b: Block)
    requires Tree(s, genesis)
    requires b.hash != ZERO_HASH && b.hash !in s
    requires b.parent in s && s[b.parent].number == b.number - 1
    ensures Tree(s[b.hash := b], genesis)
  {
    var t := s[b.hash := b];
    forall h | h in t
      ensures Attached(t, genesis, h)
    {
      if h != b.hash {
        assert Attached(s, genesis, h);
      }
    }
  }
}
