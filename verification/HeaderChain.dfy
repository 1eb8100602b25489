/** The header chain: batches of headers written, made canonical, rewound and searched. */
module HeaderChains {
  import opened BlockTree
  import opened Reorg
  import opened CanonicalChain
  import opened Words

  datatype HeaderError = NoAncestor | Aborted | MissingParent | ChoiceFailed

  /** A rewind target: a block number, or a timestamp. */
  datatype Target = Number(n: nat) | Time(t: nat)

  /** A zero timestamp means that the target is a number. */
  function TargetOf(headBlock: nat, headTime: nat): Target {
    if headTime > 0 then Time(headTime) else Number(headBlock)
  }

  predicate Done(target: Target, header: Block) {
    match target
    case Number(n) => header.number <= n
    case Time(t) => header.time <= t
  }

  predicate Follows(a: Block, b: Block) {
    b.parent == a.hash && b.number == a.number + 1
  }

  /** Contiguous and hash-linked. */
  ghost predicate Linked(batch: seq<Block>) {
    forall i, j {:trigger Follows(batch[i], batch[j])} | 0 <= i && j == i + 1 < |batch| :: Follows(batch[i], batch[j])
  }

  /** Equal hashes mean equal headers, within the batch and with the store. */
  ghost predicate Identified(s: Store, batch: seq<Block>) {
    && (forall i | 0 <= i < |batch| ::
          batch[i].hash != ZERO_HASH && (batch[i].hash in s ==> s[batch[i].hash] == batch[i]))
    && (forall i, j | 0 <= i < j < |batch| :: batch[i].hash != batch[j].hash)
  }

  /** A batch that header validation lets through; it is attached by number if its parent is known. */
  ghost predicate Validated(s: Store, batch: seq<Block>) {
    && Linked(batch)
    && Identified(s, batch)
    && (|batch| > 0 && batch[0].parent in s ==> batch[0].number == s[batch[0].parent].number + 1)
  }

  ghost predicate AllStored(s: Store, batch: seq<Block>) {
    forall i | 0 <= i < |batch| :: Stored(s, batch[i])
  }

  /** Once a header of a linked batch is unknown, so is every later one. */
  lemma UnknownStaysUnknown(s: Store, genesis: Hash, batch: seq<Block>, i: nat)
    requires Tree(s, genesis) && Validated(s, batch)
    requires 0 < i < |batch|
    ensures batch[i - 1].hash !in s ==> batch[i].hash !in s
  {
    assert Follows(batch[i - 1], batch[i]);
    if batch[i].hash in s {
      assert Attached(s, genesis, batch[i].hash);
    }
  }

  lemma FrontLinked(batch: seq<Block>, k: nat)
    requires Linked(batch) && k <= |batch|
    ensures Linked(batch[..k])
  {
    var front := batch[..k];
    forall i, j | 0 <= i && j == i + 1 < |front|
      ensures Follows(front[i], front[j])
    {
      assert Follows(batch[i], batch[j]);
    }
  }

  lemma {:induction false} BatchNumber(batch: seq<Block>, i: nat)
    requires Linked(batch) && i < |batch|
    ensures batch[i].number == batch[0].number + i
  {
    if i > 0 {
      assert Follows(batch[i - 1], batch[i]);
      BatchNumber(batch, i - 1);
    }
  }

  /** A stored linked batch lies on the path to its last header. */
  lemma {:induction false} BatchOnPath(s: Store, genesis: Hash, batch: seq<Block>, i: nat)
    requires Tree(s, genesis) && Linked(batch) && AllStored(s, batch)
    requires i < |batch|
    ensures AncestorAt(s, batch[|batch| - 1].hash, batch[i].number) == batch[i].hash
    ensures batch[i].number == batch[0].number + i
    decreases |batch|
  {
    var last := |batch| - 1;
    assert Stored(s, batch[last]);
    if i < last {
      var front := batch[..last];
      FrontLinked(batch, last);
      BatchOnPath(s, genesis, front, i);
      assert Follows(batch[last - 1], batch[last]);
      assert Stored(s, front[last - 1]);
      BatchNumber(batch, last);
    } else {
      BatchNumber(batch, last);
    }
  }

  /** Reorg's walk back from the first header to the cross link with the canonical chain. */
  method CrossLink(s: Store, canon: map<nat, Hash>, ghost genesis: Hash, ghost head: Block, first: Block)
    returns (ok: bool, writes: map<nat, Hash>, ghost link: nat)
    ensures Tree(s, genesis) && Stored(s, head) && canon == PathIndex(s, head.hash) && Stored(s, first) ==> ok
    ensures Tree(s, genesis) && Stored(s, head) && canon == PathIndex(s, head.hash) && Stored(s, first) ==>
              && link <= first.number
              && ReadCanonicalHash(canon, link) == AncestorAt(s, first.hash, link)
              && writes == map n: nat | link < n <= first.number :: AncestorAt(s, first.hash, n)
  {
    ghost var good := Tree(s, genesis) && Stored(s, head) && canon == PathIndex(s, head.hash) && Stored(s, first);
    var header, headNumber, headHash := first, first.number, first.hash;
    writes, link := map[], headNumber;
    while ReadCanonicalHash(canon, headNumber) != headHash
      invariant header.number == headNumber == link <= first.number
      invariant good ==> Stored(s, header) && header.hash == headHash == AncestorAt(s, first.hash, headNumber)
      invariant good ==> writes == map n: nat | headNumber < n <= first.number :: AncestorAt(s, first.hash, n)
      decreases headNumber
    {
      writes := writes[headNumber := headHash];
      if good {
        assert Attached(s, genesis, headHash);
        AncestorStored(s, genesis, head.hash, 0);
      }
      if headNumber == 0 {
        break;
      }
      if good {
        AncestorCompose(s, genesis, first.hash, headNumber, headNumber - 1);
        assert Attached(s, genesis, header.parent);
      }
      headHash, headNumber := header.parent, header.number - 1;
      link := headNumber;
      var parent := GetBlock(s, headHash, headNumber);
      if parent.None? {
        return false, writes, link;
      }
      header := parent.value;
    }
    ok := true;
  }

  /** result is canon with everything above the batch gone, the batch written, and first's ancestors down to the
      cross link written. */
  ghost predicate BatchWritten(s: Store, canon: map<nat, Hash>, batch: seq<Block>, link: nat, result: map<nat, Hash>)
    requires |batch| > 0
  {
    && (forall n | n in result :: n <= batch[|batch| - 1].number)
    && (forall i | 0 <= i < |batch| :: batch[i].number in result && result[batch[i].number] == batch[i].hash)
    && (forall n: nat | link < n < batch[0].number :: n in result && result[n] == AncestorAt(s, batch[0].hash, n))
    && (forall n: nat | n <= link && n < batch[0].number && n in canon :: n in result && result[n] == canon[n])
  }

  /** Then it is the path to the batch's last header. */
  lemma IndexAfterBatch(s: Store, genesis: Hash, head: Block, batch: seq<Block>, canon: map<nat, Hash>, link: nat,
                        result: map<nat, Hash>)
    requires Tree(s, genesis) && Stored(s, head) && canon == PathIndex(s, head.hash)
    requires |batch| > 0 && Linked(batch) && AllStored(s, batch)
    requires link <= batch[0].number && link <= head.number
    requires AncestorAt(s, head.hash, link) == AncestorAt(s, batch[0].hash, link)
    requires BatchWritten(s, canon, batch, link, result)
    ensures result == PathIndex(s, batch[|batch| - 1].hash)
  {
    var last := batch[|batch| - 1];
    assert Stored(s, last) && Stored(s, batch[0]);
    forall n: nat | n <= last.number
      ensures n in result && result[n] == AncestorAt(s, last.hash, n)
    {
      if n >= batch[0].number {
        BatchNumber(batch, |batch| - 1);
        BatchOnPath(s, genesis, batch, n - batch[0].number);
      } else {
        BatchOnPath(s, genesis, batch, 0);
        AncestorCompose(s, genesis, last.hash, batch[0].number, n);
        if n <= link {
          SharedBelow(s, genesis, head.hash, batch[0].hash, link);
        }
      }
    }
  }

  ghost predicate EntriesOf(batch: seq<Block>, entries: map<nat, Hash>)
    requires |batch| > 0
  {
    && (forall i | 0 <= i < |batch| :: batch[i].number in entries && entries[batch[i].number] == batch[i].hash)
    && (forall n | n in entries :: batch[0].number <= n <= batch[|batch| - 1].number)
  }

  /** Piling a batch on the current head. */
  lemma IndexAfterExtension(s: Store, genesis: Hash, head: Block, batch: seq<Block>, canon: map<nat, Hash>,
                            entries: map<nat, Hash>)
    requires Tree(s, genesis) && Stored(s, head) && canon == PathIndex(s, head.hash)
    requires |batch| > 0 && Linked(batch) && AllStored(s, batch)
    requires batch[0].parent == head.hash
    requires EntriesOf(batch, entries)
    ensures canon + entries == PathIndex(s, batch[|batch| - 1].hash)
  {
    var first := batch[0];
    assert Stored(s, first) && Attached(s, genesis, first.hash) && Attached(s, genesis, head.hash);
    BatchNumber(batch, |batch| - 1);
    IndexAfterBatch(s, genesis, head, batch, canon, head.number, canon + entries);
  }

  /** Switching to a batch that does not extend the current head. */
  lemma IndexAfterSwitch(s: Store, genesis: Hash, head: Block, batch: seq<Block>, canon: map<nat, Hash>,
                         entries: map<nat, Hash>,
                         stale: set<nat>, gap: nat, writes: map<nat, Hash>, link: nat)
    requires Tree(s, genesis) && Stored(s, head) && canon == PathIndex(s, head.hash)
    requires |batch| > 0 && Linked(batch) && AllStored(s, batch)
    requires gap > batch[|batch| - 1].number && ReadCanonicalHash(canon, gap) == ZERO_HASH
    requires forall n :: n in stale <==> batch[|batch| - 1].number < n < gap
    requires link <= batch[0].number && ReadCanonicalHash(canon, link) == AncestorAt(s, batch[0].hash, link)
    requires writes == map n: nat | link < n <= batch[0].number :: AncestorAt(s, batch[0].hash, n)
    requires EntriesOf(batch, entries)
    ensures (canon - stale) + writes + entries == PathIndex(s, batch[|batch| - 1].hash)
  {
    var first, last := batch[0], batch[|batch| - 1];
    assert Stored(s, first);
    assert link <= head.number by {
      AncestorStored(s, genesis, first.hash, link);
    }
    assert gap > head.number by {
      if gap <= head.number {
        AncestorStored(s, genesis, head.hash, gap);
      }
    }
    BatchNumber(batch, |batch| - 1);
    IndexAfterBatch(s, genesis, head, batch, canon, link, (canon - stale) + writes + entries);
  }

  /** The batch's own entries. */
  method BatchEntries(batch: seq<Block>) returns (entries: map<nat, Hash>)
    requires |batch| > 0
    requires Linked(batch)
    ensures EntriesOf(batch, entries)
  {
    entries := map[];
    for i := 0 to |batch| - 1
      invariant forall j | 0 <= j < i ::
                  batch[j].number in entries && entries[batch[j].number] == batch[j].hash
                  && batch[j].number < batch[i].number
      invariant forall n | n in entries :: batch[0].number <= n < batch[i].number
      invariant batch[0].number <= batch[i].number
    {
      assert Follows(batch[i], batch[i + 1]);
      entries := entries[batch[i].number := batch[i + 1].parent];
    }
    var last := batch[|batch| - 1];
    entries := entries[last.number := last.hash];
  }

  /** The headers of a batch, by hash. */
  ghost function BatchHashes(batch: seq<Block>): set<Hash> {
    set i | 0 <= i < |batch| :: batch[i].hash
  }

  /** The header before batch[i]: the batch's own, or the stored parent of the first. */
  function Before(batch: seq<Block>, i: nat): Hash
    requires i <= |batch| && |batch| > 0
  {
    if i == 0 then batch[0].parent else batch[i - 1].hash
  }

  /** After i headers: the store t completed by the pending writes is consistent and holds batch[..i]. */
  ghost predicate Completed(t: Store, genesis: Hash, ttd: map<Hash, nat>, canon: map<nat, Hash>, head: Block,
                            batch: seq<Block>, i: nat)
    requires i <= |batch| && |batch| > 0
  {
    && ChainState(t, genesis, ttd, canon, head)
    && (forall j | 0 <= j < i :: Stored(t, batch[j]))
    && Before(batch, i) in t
    && (i < |batch| ==> t[Before(batch, i)].number == batch[i].number - 1)
  }

  /** After i headers: the pending writes are the headers of batch[..i] the store lacks. */
  ghost predicate Missing(s: Store, batch: seq<Block>, i: nat, newHeaders: Store)
    requires i <= |batch|
  {
    && newHeaders.Keys !! s.Keys
    && (forall h | h in newHeaders :: exists j :: 0 <= j < i && batch[j].hash == h)
    && (forall j | 0 <= j < i :: batch[j].hash in s || batch[j].hash in newHeaders)
  }

  /** A stored header's total difficulty is its parent's plus its own. */
  lemma DifficultyStep(s: Store, genesis: Hash, td: map<Hash, nat>, b: Block)
    requires Tree(s, genesis) && DifficultyExact(s, td) && Stored(s, b) && b.number > 0
    ensures b.parent in s && td[b.hash] == td[b.parent] + b.difficulty
  {
    assert Attached(s, genesis, b.hash);
    assert TotalDifficulty(s, b.hash) == b.difficulty + TotalDifficulty(s, b.parent);
    assert td[b.hash] == TotalDifficulty(s, b.hash) && td[b.parent] == TotalDifficulty(s, b.parent);
  }

  /** One more header, already stored or newly added. */
  lemma CompletedStep(s: Store, t: Store, genesis: Hash, ttd: map<Hash, nat>, canon: map<nat, Hash>, head: Block,
                      batch: seq<Block>, i: nat)
    requires |batch| > 0 && Validated(s, batch) && i < |batch|
    requires Completed(t, genesis, ttd, canon, head, batch, i)
    requires batch[i].hash in t ==> t[batch[i].hash] == batch[i]
    ensures Completed(t[batch[i].hash := batch[i]], genesis,
                      ttd[batch[i].hash := ttd[Before(batch, i)] + batch[i].difficulty],
                      canon, head, batch, i + 1)
  {
    var b := batch[i];
    assert i > 0 ==> Follows(batch[i - 1], b);
    ChainStateGrows(t, genesis, ttd, canon, map[], head, b);
    assert i + 1 < |batch| ==> Follows(b, batch[i + 1]);
  }

  lemma SameEntry<K, V>(m: map<K, V>, k: K, v: V)
    requires k in m && m[k] == v
    ensures m[k := v] == m
  {
  }

  lemma KnownUnchanged(t: Store, genesis: Hash, ttd: map<Hash, nat>, b: Block)
    requires Tree(t, genesis) && DifficultyExact(t, ttd) && Stored(t, b) && b.number > 0
    ensures b.parent in t
    ensures t[b.hash := b] == t && ttd[b.hash := ttd[b.parent] + b.difficulty] == ttd
  {
    DifficultyStep(t, genesis, ttd, b);
    SameEntry(t, b.hash, b);
    SameEntry(ttd, b.hash, ttd[b.parent] + b.difficulty);
  }

  lemma MissingStep(s: Store, batch: seq<Block>, i: nat, newHeaders: Store)
    requires i < |batch| && Identified(s, batch)
    requires Missing(s, batch, i, newHeaders)
    ensures batch[i].hash !in newHeaders
    ensures batch[i].hash in s ==> Missing(s, batch, i + 1, newHeaders)
    ensures batch[i].hash !in s ==> Missing(s, batch, i + 1, newHeaders[batch[i].hash := batch[i]])
  {
    if batch[i].hash !in s {
      var grown := newHeaders[batch[i].hash := batch[i]];
      forall h | h in grown
        ensures exists j :: 0 <= j < i + 1 && batch[j].hash == h
      {
        if h != batch[i].hash {
          var j :| 0 <= j < i && batch[j].hash == h;
        }
      }
    }
  }

  /** The completed store has the batch's hashes besides its own. */
  lemma MissingKeys(s: Store, batch: seq<Block>, newHeaders: Store)
    requires Missing(s, batch, |batch|, newHeaders)
    ensures s.Keys + newHeaders.Keys == s.Keys + BatchHashes(batch)
  {
    forall h | h in newHeaders
      ensures h in BatchHashes(batch)
    {
      var j :| 0 <= j < |batch| && batch[j].hash == h;
    }
  }

  /** All the batch was known exactly when nothing is pending. */
  lemma NothingMissing(s: Store, batch: seq<Block>, newHeaders: Store)
    requires Missing(s, batch, |batch|, newHeaders) && Identified(s, batch)
    ensures newHeaders == map[] <==> AllStored(s, batch)
  {
    MissingKeys(s, batch, newHeaders);
    if AllStored(s, batch) {
      assert BatchHashes(batch) <= s.Keys;
      assert newHeaders.Keys == {};
    }
  }

  lemma PendingKeys(s: Store, batch: seq<Block>, newHeaders: Store)
    requires Missing(s, batch, |batch|, newHeaders)
    ensures newHeaders.Keys !! s.Keys
  {
  }

  lemma UnionSize(s: Store, t: Store)
    requires s.Keys !! t.Keys
    ensures (s + t).Keys == s.Keys + t.Keys && |s + t| == |s| + |t|
  {
    assert |(s + t).Keys| == |s.Keys + t.Keys|;
  }

  /** t is s with the batch's headers, of which `inserted` were missing. */
  ghost predicate WroteHeaders(s: Store, t: Store, batch: seq<Block>, inserted: nat) {
    && AllStored(t, batch)
    && t.Keys == s.Keys + BatchHashes(batch)
    && (forall h | h in s :: t[h] == s[h])
    && inserted == |t| - |s|
  }

  lemma PendingWritten(s: Store, batch: seq<Block>, newHeaders: Store)
    requires Missing(s, batch, |batch|, newHeaders) && AllStored(s + newHeaders, batch)
    ensures WroteHeaders(s, s + newHeaders, batch, |newHeaders|)
  {
    hide AllStored;
    MissingKeys(s, batch, newHeaders);
    UnionSize(s, newHeaders);
  }

  /** The loop invariant of WriteHeaders after i headers. */
  ghost predicate Gathered(s: Store, genesis: Hash, td: map<Hash, nat>, canon: map<nat, Hash>, head: Block,
                           batch: seq<Block>, i: nat, newHeaders: Store, newTds: map<Hash, nat>)
    requires i <= |batch| && |batch| > 0
  {
    && Completed(s + newHeaders, genesis, td + newTds, canon, head, batch, i)
    && Missing(s, batch, i, newHeaders)
    && newTds.Keys == newHeaders.Keys
  }

  /** The chain state of a header database with a known genesis header. */
  ghost predicate HeaderState(s: Store, genesisHeader: Block, td: map<Hash, nat>, canon: map<nat, Hash>, head: Block) {
    Stored(s, genesisHeader) && ChainState(s, genesisHeader.hash, td, canon, head)
  }

  lemma GatherOutcome(s: Store, genesisHeader: Block, td: map<Hash, nat>, canon: map<nat, Hash>, head: Block,
                      batch: seq<Block>, newHeaders: Store, newTds: map<Hash, nat>)
    requires |batch| > 0 && Validated(s, batch) && Stored(s, genesisHeader)
    requires Gathered(s, genesisHeader.hash, td, canon, head, batch, |batch|, newHeaders, newTds)
    ensures newTds.Keys == newHeaders.Keys && newHeaders.Keys !! s.Keys
    ensures HeaderState(s + newHeaders, genesisHeader, td + newTds, canon, head)
    ensures WroteHeaders(s, s + newHeaders, batch, |newHeaders|)
    ensures newHeaders == map[] <==> AllStored(s, batch)
  {
    hide ChainState, WroteHeaders, Linked, Missing;
    NothingMissing(s, batch, newHeaders);
    PendingKeys(s, batch, newHeaders);
    PendingWritten(s, batch, newHeaders);
  }

  lemma GatherStart(s: Store, genesis: Hash, td: map<Hash, nat>, canon: map<nat, Hash>, head: Block, batch: seq<Block>)
    requires ChainState(s, genesis, td, canon, head)
    requires |batch| > 0 && Validated(s, batch) && batch[0].parent in s
    ensures Gathered(s, genesis, td, canon, head, batch, 0, map[], map[])
    ensures td + map[] == td
  {
    assert s + map[] == s && td + map[] == td;
  }

  /** A stored header adds nothing; its recorded total difficulty is the running one. */
  lemma GatherKnown(s: Store, genesis: Hash, td: map<Hash, nat>, canon: map<nat, Hash>, head: Block,
                    batch: seq<Block>, i: nat, newHeaders: Store, newTds: map<Hash, nat>)
    requires i < |batch| && Validated(s, batch)
    requires Gathered(s, genesis, td, canon, head, batch, i, newHeaders, newTds)
    requires batch[i].hash in s
    ensures Gathered(s, genesis, td, canon, head, batch, i + 1, newHeaders, newTds)
    ensures (td + newTds)[batch[i].hash] == (td + newTds)[Before(batch, i)] + batch[i].difficulty
  {
    var t, ttd := s + newHeaders, td + newTds;
    MissingStep(s, batch, i, newHeaders);
    CompletedStep(s, t, genesis, ttd, canon, head, batch, i);
    assert i > 0 ==> Follows(batch[i - 1], batch[i]);
    KnownUnchanged(t, genesis, ttd, batch[i]);
  }

  /** A missing header is added with the running total difficulty. */
  lemma GatherMissing(s: Store, genesis: Hash, td: map<Hash, nat>, canon: map<nat, Hash>, head: Block,
                      batch: seq<Block>, i: nat, newHeaders: Store, newTds: map<Hash, nat>, newTd: nat)
    requires i < |batch| && Validated(s, batch)
    requires Gathered(s, genesis, td, canon, head, batch, i, newHeaders, newTds)
    requires batch[i].hash !in s
    requires newTd == (td + newTds)[Before(batch, i)] + batch[i].difficulty
    ensures Gathered(s, genesis, td, canon, head, batch, i + 1, newHeaders[batch[i].hash := batch[i]],
                     newTds[batch[i].hash := newTd])
  {
    hide ChainState, Missing;
    var t, ttd := s + newHeaders, td + newTds;
    MissingStep(s, batch, i, newHeaders);
    CompletedStep(s, t, genesis, ttd, canon, head, batch, i);
    assert s + newHeaders[batch[i].hash := batch[i]] == t[batch[i].hash := batch[i]];
    assert td + newTds[batch[i].hash := newTd] == ttd[batch[i].hash := newTd];
  }

  /** Not checking presence after the first unknown header loses nothing. */
  lemma KnownDecided(s: Store, genesis: Hash, batch: seq<Block>, i: nat, newHeaders: Store)
    requires Tree(s, genesis) && Validated(s, batch) && i < |batch|
    requires Missing(s, batch, i, newHeaders)
    requires i == 0 ==> batch[0].parent in s
    ensures batch[i].hash !in newHeaders
    ensures batch[i].hash in s ==> Before(batch, i) in s
  {
    MissingStep(s, batch, i, newHeaders);
    if i > 0 {
      UnknownStaysUnknown(s, genesis, batch, i);
    }
  }

  /** The loop of WriteHeaders is at header i, with the total difficulty of the header before and whether the store
      had it. */
  ghost predicate Gathering(s: Store, genesis: Hash, td: map<Hash, nat>, canon: map<nat, Hash>, head: Block,
                            batch: seq<Block>,
                            i: nat, newHeaders: Store, newTds: map<Hash, nat>, newTd: nat, parentKnown: bool)
    requires i <= |batch| && |batch| > 0
  {
    && Gathered(s, genesis, td, canon, head, batch, i, newHeaders, newTds)
    && Before(batch, i) in (td + newTds) && newTd == (td + newTds)[Before(batch, i)]
    && parentKnown == (Before(batch, i) in s)
    && (i == 0 ==> parentKnown)
  }

  lemma GatheringStarts(s: Store, genesis: Hash, td: map<Hash, nat>, canon: map<nat, Hash>, head: Block,
                        batch: seq<Block>)
    requires ChainState(s, genesis, td, canon, head)
    requires |batch| > 0 && Validated(s, batch) && batch[0].parent in s
    ensures batch[0].parent in td
            && Gathering(s, genesis, td, canon, head, batch, 0, map[], map[], td[batch[0].parent], true)
  {
    hide Gathered, Validated, Tree, PathIndex;
    GatherStart(s, genesis, td, canon, head, batch);
  }

  lemma GatheringKnown(s: Store, genesis: Hash, td: map<Hash, nat>, canon: map<nat, Hash>, head: Block,
                       batch: seq<Block>,
                       i: nat, newHeaders: Store, newTds: map<Hash, nat>, newTd: nat)
    requires i < |batch| && Validated(s, batch) && batch[i].hash in s
    requires Gathering(s, genesis, td, canon, head, batch, i, newHeaders, newTds, newTd, true)
    ensures Gathering(s, genesis, td, canon, head, batch, i + 1, newHeaders, newTds, newTd + batch[i].difficulty, true)
  {
    hide Validated, Missing;
    GatherKnown(s, genesis, td, canon, head, batch, i, newHeaders, newTds);
  }

  lemma GatheringMissing(s: Store, genesis: Hash, td: map<Hash, nat>, canon: map<nat, Hash>, head: Block,
                         batch: seq<Block>,
                         i: nat, newHeaders: Store, newTds: map<Hash, nat>, newTd: nat, parentKnown: bool)
    requires i < |batch| && Validated(s, batch) && batch[i].hash !in s
    requires Gathering(s, genesis, td, canon, head, batch, i, newHeaders, newTds, newTd, parentKnown)
    ensures var b, newer := batch[i], newTd + batch[i].difficulty;
            Gathering(s, genesis, td, canon, head, batch, i + 1, newHeaders[b.hash := b], newTds[b.hash := newer],
                      newer, false)
  {
    hide Validated, Gathered;
    GatherMissing(s, genesis, td, canon, head, batch, i, newHeaders, newTds, newTd + batch[i].difficulty);
  }

  /** Whether the source takes a header for known is whether the store has it. */
  lemma GatheringDecides(s: Store, genesis: Hash, td: map<Hash, nat>, canon: map<nat, Hash>, head: Block,
                         batch: seq<Block>,
                         i: nat, newHeaders: Store, newTds: map<Hash, nat>, newTd: nat, parentKnown: bool)
    requires i < |batch| && Validated(s, batch) && ChainState(s, genesis, td, canon, head)
    requires Gathering(s, genesis, td, canon, head, batch, i, newHeaders, newTds, newTd, parentKnown)
    ensures batch[i].hash !in newHeaders && (batch[i].hash in s ==> parentKnown)
  {
    hide Validated, Completed, Missing, DifficultyExact, PathIndex;
    KnownDecided(s, genesis, batch, i, newHeaders);
  }

  /** The source takes the hash of a header from the next header's parent field. */
  lemma NextParent(s: Store, batch: seq<Block>, i: nat)
    requires i < |batch| && Validated(s, batch)
    ensures i + 1 < |batch| ==> batch[i + 1].parent == batch[i].hash
  {
    assert i + 1 < |batch| ==> Follows(batch[i], batch[i + 1]);
  }

  /** The loop of WriteHeaders: gather the writes of the missing headers and cache them at once. */
  method GatherHeaders(s: Store, ghost genesis: Hash, ghost td: map<Hash, nat>, ghost canon: map<nat, Hash>,
                       ghost head: Block, cached: Store, batch: seq<Block>, ptd: nat)
    returns (newHeaders: Store, newTds: map<Hash, nat>)
    requires |batch| > 0 && Validated(s, batch)
    ensures ChainState(s, genesis, td, canon, head) && cached.Keys <= s.Keys
            && batch[0].parent in s && ptd == td[batch[0].parent] ==>
              Gathered(s, genesis, td, canon, head, batch, |batch|, newHeaders, newTds)
  {
    hide Gathered, Validated, PathIndex, Tree;
    ghost var good := && ChainState(s, genesis, td, canon, head) && cached.Keys <= s.Keys
                      && batch[0].parent in s && ptd == td[batch[0].parent];
    var newTd: nat, parentKnown := ptd, true;
    var cache := cached;
    newHeaders, newTds := map[], map[];
    if good {
      GatheringStarts(s, genesis, td, canon, head, batch);
    }
    for i := 0 to |batch|
      invariant good ==> Gathering(s, genesis, td, canon, head, batch, i, newHeaders, newTds, newTd, parentKnown)
      invariant cache.Keys == cached.Keys + newHeaders.Keys
    {
      hide Gathering;
      var header := batch[i];
      var hash := if i < |batch| - 1 then batch[i + 1].parent else header.hash;
      NextParent(s, batch, i);
      var alreadyKnown := parentKnown && (hash in cache || hash in s);
      if good {
        GatheringDecides(s, genesis, td, canon, head, batch, i, newHeaders, newTds, newTd, parentKnown);
        if alreadyKnown {
          GatheringKnown(s, genesis, td, canon, head, batch, i, newHeaders, newTds, newTd);
        } else {
          GatheringMissing(s, genesis, td, canon, head, batch, i, newHeaders, newTds, newTd, parentKnown);
        }
      }
      newTd := newTd + header.difficulty;
      if !alreadyKnown {
        newTds := newTds[hash := newTd];
        newHeaders := newHeaders[hash := header];
        cache := cache[hash := header];
      }
      parentKnown := alreadyKnown;
    }
  }

  lemma TdKeys(s: Store, genesis: Hash, td: map<Hash, nat>, canon: map<nat, Hash>, head: Block)
    requires ChainState(s, genesis, td, canon, head)
    ensures td.Keys == s.Keys
  {
  }

  lemma LastIsStored(s: Store, t: Store, batch: seq<Block>, inserted: nat)
    requires |batch| > 0 && WroteHeaders(s, t, batch, inserted)
    ensures AllStored(t, batch) && Stored(t, batch[|batch| - 1])
  {
  }

  /** The special case of writeHeadersAndSetHead: its two reads tell whether a header is already canonical. */
  lemma CanonicalIsAncestor(s: Store, genesis: Hash, td: map<Hash, nat>, canon: map<nat, Hash>, head: Block, b: Block)
    requires ChainState(s, genesis, td, canon, head) && Stored(s, b)
    ensures (ReadCanonicalHash(canon, b.number) == b.hash && b.number <= head.number)
            <==> IsAncestor(s, b.hash, head.hash)
  {
  }

  lemma WroteNothing(s: Store)
    ensures WroteHeaders(s, s, [], 0)
  {
  }

  lemma AttachedByNumber(s: Store, batch: seq<Block>)
    requires |batch| > 0 && Validated(s, batch)
    ensures batch[0].parent in s ==> s[batch[0].parent].number == batch[0].number - 1
  {
  }

  /** Everything cached is in the database. */
  ghost predicate CachesWithin(s: Store, td: map<Hash, nat>, headerCache: Store, tdCache: map<Hash, nat>) {
    && (forall h | h in headerCache :: h in s && s[h] == headerCache[h])
    && (forall h | h in tdCache :: h in td && td[h] == tdCache[h])
  }

  /** Caching the pending writes keeps the caches within the database exactly if the writes follow, or there are
      none. */
  lemma CachesAfterGather(s: Store, td: map<Hash, nat>, headerCache: Store, tdCache: map<Hash, nat>,
                          newHeaders: Store, newTds: map<Hash, nat>)
    requires CachesWithin(s, td, headerCache, tdCache)
    requires td.Keys == s.Keys && newTds.Keys == newHeaders.Keys && newHeaders.Keys !! s.Keys
    ensures CachesWithin(s + newHeaders, td + newTds, headerCache + newHeaders, tdCache + newTds)
    ensures CachesWithin(s, td, headerCache + newHeaders, tdCache + newTds) <==> newHeaders == map[]
  {
    if newHeaders != map[] {
      assert newHeaders.Keys != {};
      var h :| h in newHeaders.Keys;
      assert h in headerCache + newHeaders && h !in s;
    } else {
      assert headerCache + newHeaders == headerCache && tdCache + newTds == tdCache;
    }
  }

  /** The batch of WriteHeaders: the store and the difficulties it will leave, and the caches as they are already. */
  method PlanHeaders(s: Store, ghost genesisHeader: Block, td: map<Hash, nat>, ghost canon: map<nat, Hash>,
                     ghost head: Block,
                     headerCache: Store, tdCache: map<Hash, nat>, batch: seq<Block>, ptd: nat)
    returns (s': Store, td': map<Hash, nat>, headerCache': Store, tdCache': map<Hash, nat>, inserted: nat)
    requires |batch| > 0 && Validated(s, batch)
    ensures HeaderState(s, genesisHeader, td, canon, head) && CachesWithin(s, td, headerCache, tdCache)
            && batch[0].parent in td && ptd == td[batch[0].parent] ==>
              && HeaderState(s', genesisHeader, td', canon, head)
              && WroteHeaders(s, s', batch, inserted)
              && CachesWithin(s', td', headerCache', tdCache')
              && (CachesWithin(s, td, headerCache', tdCache') <==> AllStored(s, batch))
  {
    ghost var good := HeaderState(s, genesisHeader, td, canon, head) && CachesWithin(s, td, headerCache, tdCache)
                      && batch[0].parent in td && ptd == td[batch[0].parent];
    var newHeaders, newTds := GatherHeaders(s, genesisHeader.hash, td, canon, head, headerCache, batch, ptd);
    if good {
      GatherOutcome(s, genesisHeader, td, canon, head, batch, newHeaders, newTds);
      CachesAfterGather(s, td, headerCache, tdCache, newHeaders, newTds);
    }
    s', td' := s + newHeaders, td + newTds;
    headerCache', tdCache' := headerCache + newHeaders, tdCache + newTds;
    inserted := |newHeaders|;
  }

  /** What a rewind to number k keeps of a store. */
  ghost function Below(s: Store, k: nat): Store {
    map h | h in s && s[h].number <= k :: s[h]
  }

  lemma BelowIsTree(s: Store, genesis: Hash, k: nat)
    requires Tree(s, genesis)
    ensures Tree(Below(s, k), genesis)
  {
    forall h | h in Below(s, k)
      ensures Attached(Below(s, k), genesis, h)
    {
      assert Attached(s, genesis, h);
    }
  }

  lemma RewoundDifficulty(s: Store, genesis: Hash, td: map<Hash, nat>, k: nat)
    requires Tree(s, genesis) && DifficultyExact(s, td)
    ensures DifficultyExact(Below(s, k), map h | h in td && h in Below(s, k) :: td[h])
  {
    var t := Below(s, k);
    var ttd := map h | h in td && h in t :: td[h];
    BelowIsTree(s, genesis, k);
    forall h | h in t
      ensures ttd[h] == TotalDifficulty(t, h)
    {
      DifficultyInExtension(t, s, genesis, h);
    }
  }

  lemma RewoundIndex(s: Store, genesis: Hash, h: Hash, k: nat)
    requires Tree(s, genesis) && h in s && k <= s[h].number
    ensures AncestorAt(s, h, k) in Below(s, k)
    ensures (map n | n in PathIndex(s, h) && n <= k :: PathIndex(s, h)[n])
            == PathIndex(Below(s, k), AncestorAt(s, h, k))
  {
    var t, a := Below(s, k), AncestorAt(s, h, k);
    BelowIsTree(s, genesis, k);
    AncestorStored(s, genesis, h, k);
    forall n: nat | n <= k
      ensures AncestorAt(t, a, n) == AncestorAt(s, h, n)
    {
      AncestorInExtension(t, s, genesis, a, n);
      AncestorCompose(s, genesis, h, k, n);
    }
  }

  /** Rewinding to an ancestor of the head, and dropping everything above it, keeps the state consistent. */
  lemma RewoundState(s: Store, genesisHeader: Block, td: map<Hash, nat>, canon: map<nat, Hash>, head: Block, k: nat)
    requires HeaderState(s, genesisHeader, td, canon, head) && k <= head.number
    ensures AncestorAt(s, head.hash, k) in s
    ensures HeaderState(Below(s, k), genesisHeader, map h | h in td && h in Below(s, k) :: td[h],
                        map n | n in canon && n <= k :: canon[n], s[AncestorAt(s, head.hash, k)])
  {
    hide DifficultyExact, PathIndex;
    BelowIsTree(s, genesisHeader.hash, k);
    AncestorStored(s, genesisHeader.hash, head.hash, k);
    RewoundDifficulty(s, genesisHeader.hash, td, k);
    RewoundIndex(s, genesisHeader.hash, head.hash, k);
  }

  /** The hashes of every fork at one number. */
  function ReadAllHashes(s: Store, n: nat): set<Hash> {
    set h | h in s && s[h].number == n
  }

  lemma NoEmptyLevel(s: Store, genesis: Hash, h: Hash, n: nat)
    requires Tree(s, genesis) && h in s && n <= s[h].number
    ensures ReadAllHashes(s, n) != {}
  {
    AncestorStored(s, genesis, h, n);
    assert AncestorAt(s, h, n) in ReadAllHashes(s, n);
  }

  /** setHead's scan for data left above the head; on a tree no number is skipped. */
  method LeftoverNumbers(s: Store, ghost genesis: Hash, num: nat) returns (nums: seq<nat>)
    ensures forall n | n in nums :: n > num && ReadAllHashes(s, n) != {}
    ensures Tree(s, genesis) ==> forall h | h in s && s[h].number > num :: s[h].number in nums
  {
    nums := [];
    var n := num + 1;
    ghost var seen: set<Hash> := {};
    while ReadAllHashes(s, n) != {}
      invariant n > num
      invariant forall m :: m in nums <==> num < m < n
      invariant forall m | m in nums :: ReadAllHashes(s, m) != {}
      invariant forall h | h in seen :: h in s && s[h].number < n
      decreases s.Keys - seen
    {
      var h :| h in ReadAllHashes(s, n);
      seen := seen + {h};
      nums := [n] + nums;
      n := n + 1;
    }
    if Tree(s, genesis) {
      forall h | h in s && s[h].number > num
        ensures s[h].number in nums
      {
        if s[h].number >= n {
          NoEmptyLevel(s, genesis, h, n);
        }
      }
    }
  }

  ghost predicate NoneAbove(s: Store, n: nat) {
    forall h | h in s :: s[h].number <= n
  }

  /** How many steps back the nearest canonical ancestor of h is. */
  ghost function CanonicalGap(s: Store, canon: map<nat, Hash>, h: Hash): nat
    decreases if h in s then s[h].number else 0
  {
    if h in s && ReadCanonicalHash(canon, s[h].number) != h && s[h].parent in s && s[s[h].parent].number < s[h].number
    then 1 + CanonicalGap(s, canon, s[h].parent)
    else 0
  }

  /** One step back towards the canonical chain. */
  lemma GapStep(s: Store, genesis: Hash, canon: map<nat, Hash>, head: Block, h: Hash)
    requires Tree(s, genesis) && Stored(s, head) && canon == PathIndex(s, head.hash)
    requires h in s
    ensures CanonicalGap(s, canon, h) == 0 <==> ReadCanonicalHash(canon, s[h].number) == h
    ensures CanonicalGap(s, canon, h) > 0 ==>
              && s[h].number > 0 && s[h].parent in s && s[s[h].parent].number == s[h].number - 1
              && CanonicalGap(s, canon, h) == 1 + CanonicalGap(s, canon, s[h].parent)
  {
    assert Attached(s, genesis, h);
    if s[h].number == 0 {
      AncestorStored(s, genesis, head.hash, 0);
    }
  }

  /** The canonical shortcut: below a canonical header the index gives the true ancestor. */
  lemma ShortcutIsAncestor(s: Store, genesis: Hash, canon: map<nat, Hash>, head: Block, h: Hash, n: nat)
    requires Tree(s, genesis) && Stored(s, head) && canon == PathIndex(s, head.hash)
    requires h in s && ReadCanonicalHash(canon, s[h].number) == h && n <= s[h].number
    ensures ReadCanonicalHash(canon, n) == AncestorAt(s, h, n) != ZERO_HASH
  {
    assert Attached(s, genesis, h);
    AncestorCompose(s, genesis, head.hash, s[h].number, n);
    AncestorStored(s, genesis, h, n);
  }

  /** Canonical hashes are stored, and the zero hash is not. */
  lemma CanonicalStored(s: Store, genesis: Hash, canon: map<nat, Hash>, head: Block, n: nat)
    requires Tree(s, genesis) && Stored(s, head) && canon == PathIndex(s, head.hash)
    ensures ReadCanonicalHash(canon, n) in s <==> n <= head.number
    ensures ReadCanonicalHash(canon, n) == ZERO_HASH <==> n > head.number
  {
    if n <= head.number {
      AncestorStored(s, genesis, head.hash, n);
    }
  }

  /** The loop of GetAncestor. */
  method WalkBack(s: Store, canon: map<nat, Hash>, ghost genesis: Hash, ghost head: Block,
                  hash: Hash, number: nat, ancestor: nat, maxNonCanonical: nat)
    returns (h: Hash, n: nat, left: nat)
    requires ancestor <= number
    ensures Tree(s, genesis) && Stored(s, head) && canon == PathIndex(s, head.hash) && hash in s
            && s[hash].number == number ==>
              var steps := Min(ancestor, CanonicalGap(s, canon, hash));
              if steps <= maxNonCanonical
              then h == AncestorAt(s, hash, number - ancestor) != ZERO_HASH && n == number - ancestor
                   && left == maxNonCanonical - steps
              else h == ZERO_HASH && n == 0
    ensures Tree(s, genesis) && Stored(s, head) && canon == PathIndex(s, head.hash) && hash !in s ==>
              h == if ancestor == 0 then hash
                   else if hash == ZERO_HASH && number > head.number then ReadCanonicalHash(canon, number - ancestor)
                   else ZERO_HASH
  {
    ghost var sound := Tree(s, genesis) && Stored(s, head) && canon == PathIndex(s, head.hash);
    ghost var good := sound && hash in s && s[hash].number == number;
    var togo: nat := ancestor;
    h, n, left := hash, number, maxNonCanonical;
    if good {
      AncestorStored(s, genesis, hash, number);
    }
    while togo != 0
      invariant togo <= n && n - togo == number - ancestor && left + (number - n) == maxNonCanonical
      invariant sound && hash !in s ==> h == hash && n == number
      invariant good ==> h in s && s[h].number == n && h == AncestorAt(s, hash, n)
      invariant good ==> CanonicalGap(s, canon, hash) == CanonicalGap(s, canon, h) + (number - n)
      decreases togo
    {
      if good {
        GapStep(s, genesis, canon, head, h);
      } else if sound {
        CanonicalStored(s, genesis, canon, head, n);
      }
      if ReadCanonicalHash(canon, n) == h {
        if good {
          ShortcutIsAncestor(s, genesis, canon, head, h, n - togo);
          AncestorCompose(s, genesis, hash, n, n - togo);
        }
        return ReadCanonicalHash(canon, n - togo), n - togo, left;
      }
      if left == 0 {
        return ZERO_HASH, 0, left;
      }
      left := left - 1;
      togo := togo - 1;
      var header := GetBlock(s, h, n);
      if header.None? {
        return ZERO_HASH, 0, left;
      }
      if good {
        AncestorCompose(s, genesis, hash, n, n - 1);
      }
      h := header.value.parent;
      n := n - 1;
    }
    if good {
      AncestorStored(s, genesis, hash, n);
    }
  }

  /** The header at number n of the chain ending in h is not one the rewind may stop at. */
  ghost predicate Passed(target: Target, s: Store, h: Hash, n: nat) {
    AncestorAt(s, h, n) in s && !Done(target, s[AncestorAt(s, h, n)])
  }

  lemma ParentOnPath(s: Store, genesis: Hash, start: Block, b: Block)
    requires Tree(s, genesis) && Stored(s, start)
    requires IsOnPath(s, start, b) && b.number <= start.number
    ensures b.number > 0 ==> b.parent in s && s[b.parent].number == b.number - 1 && IsOnPath(s, start, s[b.parent])
    ensures b.number == 0 ==> b.hash == genesis
  {
    assert Attached(s, genesis, b.hash);
    if b.number > 0 {
      AncestorCompose(s, genesis, start.hash, b.number, b.number - 1);
      assert Attached(s, genesis, b.parent);
    }
  }

  /** The deletions gathered so far: nothing yet, or every header and every index entry above number k. */
  ghost predicate DoomedAbove(s: Store, canon: map<nat, Hash>, doomed: set<Hash>, numbers: set<nat>, k: Option<nat>) {
    match k
    case None => doomed == {} && numbers == {}
    case Some(k) =>
      && (forall h :: h in doomed <==> h in s && s[h].number > k)
      && (forall n | n in canon && n > k :: n in numbers)
      && (forall n | n in numbers :: n > k)
  }

  /** One round of setHead's deletions: all forks at the head's number, and in the first round all above it. */
  method DoomedData(s: Store, ghost genesis: Hash, hdr: Block, origin: bool)
    returns (doomed: set<Hash>, numbers: set<nat>)
    ensures hdr.number in numbers && forall n | n in numbers :: n >= hdr.number
    ensures Tree(s, genesis) && Stored(s, hdr) ==>
              forall h :: h in doomed <==> h in s && (s[h].number == hdr.number || (origin && s[h].number > hdr.number))
  {
    var nums: seq<nat> := [];
    if origin {
      nums := LeftoverNumbers(s, genesis, hdr.number);
    }
    nums := nums + [hdr.number];
    doomed, numbers := {}, {};
    for i := 0 to |nums|
      invariant forall n :: n in numbers <==> n in nums[..i]
      invariant Tree(s, genesis) && Stored(s, hdr) ==> forall h :: h in doomed <==> h in s && s[h].number in nums[..i]
    {
      var hashes := ReadAllHashes(s, nums[i]);
      assert Stored(s, hdr) ==> hdr.hash in ReadAllHashes(s, hdr.number);
      assert nums[i] in nums;
      if hashes == {} {
        hashes := {hdr.hash};
      }
      doomed := doomed + hashes;
      numbers := numbers + {nums[i]};
    }
    assert nums[..|nums|] == nums;
  }

  lemma DoomStep(s: Store, genesisHeader: Block, td: map<Hash, nat>, canon: map<nat, Hash>, start: Block, hdr: Block,
                 doomed: set<Hash>, numbers: set<nat>, moreDoomed: set<Hash>, moreNumbers: set<nat>, origin: bool)
    requires HeaderState(s, genesisHeader, td, canon, start)
    requires hdr.number > 0 && hdr.number <= start.number && (origin <==> hdr.number == start.number)
    requires DoomedAbove(s, canon, doomed, numbers, if origin then None else Some(hdr.number))
    requires hdr.number in moreNumbers && forall n | n in moreNumbers :: n >= hdr.number
    requires forall h ::
               h in moreDoomed <==> h in s && (s[h].number == hdr.number || (origin && s[h].number > hdr.number))
    ensures DoomedAbove(s, canon, doomed + moreDoomed, numbers + moreNumbers, Some(hdr.number - 1))
  {
  }

  /** Flushing the deletions leaves the rewound state. */
  lemma RewindFlushed(s: Store, genesisHeader: Block, td: map<Hash, nat>, canon: map<nat, Hash>, start: Block,
                      head: Block,
                      doomed: set<Hash>, numbers: set<nat>, origin: bool)
    requires HeaderState(s, genesisHeader, td, canon, start)
    requires IsOnPath(s, start, head) && head.number <= start.number
    requires origin <==> head.number == start.number
    requires DoomedAbove(s, canon, doomed, numbers, if origin then None else Some(head.number))
    ensures HeaderState(s - doomed, genesisHeader, td - doomed, canon - numbers, head)
    ensures s - doomed == if origin then s else Below(s, head.number)
  {
    if origin {
      assert s - doomed == s && td - doomed == td && canon - numbers == canon;
      assert head == start;
    } else {
      RewoundState(s, genesisHeader, td, canon, start, head.number);
      assert s - doomed == Below(s, head.number);
      assert td - doomed == map h | h in td && h in Below(s, head.number) :: td[h];
      assert canon - numbers == map n | n in canon && n <= head.number :: canon[n];
    }
  }

  /** The header chain is being rewound from start: it is at head, has passed no header that meets the target, and has
      gathered the deletion of everything above head. */
  ghost predicate Rewinding(s: Store, genesisHeader: Block, td: map<Hash, nat>, canon: map<nat, Hash>, start: Block,
                            target: Target,
                            head: Block, doomed: set<Hash>, numbers: set<nat>, origin: bool) {
    && HeaderState(s, genesisHeader, td, canon, start)
    && IsOnPath(s, start, head) && head.number <= start.number
    && (origin <==> head.number == start.number)
    && DoomedAbove(s, canon, doomed, numbers, if origin then None else Some(head.number))
    && forall n: nat | head.number < n <= start.number :: Passed(target, s, start.hash, n)
  }

  lemma RewindStarts(s: Store, genesisHeader: Block, td: map<Hash, nat>, canon: map<nat, Hash>, start: Block,
                     target: Target)
    requires HeaderState(s, genesisHeader, td, canon, start)
    ensures Rewinding(s, genesisHeader, td, canon, start, target, start, {}, {}, true)
  {
    hide Tree, DifficultyExact, PathIndex;
  }

  lemma RewindStep(s: Store, genesisHeader: Block, td: map<Hash, nat>, canon: map<nat, Hash>, start: Block,
                   target: Target, hdr: Block,
                   doomed: set<Hash>, numbers: set<nat>, moreDoomed: set<Hash>, moreNumbers: set<nat>, origin: bool)
    requires Rewinding(s, genesisHeader, td, canon, start, target, hdr, doomed, numbers, origin)
    requires Done(target, genesisHeader) && !Done(target, hdr)
    requires hdr.number in moreNumbers && forall n | n in moreNumbers :: n >= hdr.number
    requires Tree(s, genesisHeader.hash) && Stored(s, hdr) ==>
               forall h ::
                 h in moreDoomed <==> h in s && (s[h].number == hdr.number || (origin && s[h].number > hdr.number))
    ensures var parent := GetBlock(s, hdr.parent, hdr.number - 1);
            && parent.Some?
            && Rewinding(s, genesisHeader, td, canon, start, target, parent.value, doomed + moreDoomed,
                         numbers + moreNumbers,
                         false)
  {
    hide Tree, DifficultyExact, PathIndex, DoomedAbove;
    ParentOnPath(s, genesisHeader.hash, start, hdr);
    DoomStep(s, genesisHeader, td, canon, start, hdr, doomed, numbers, moreDoomed, moreNumbers, origin);
  }

  /** What setHead does to a store whose head was start: the head is the block at number k of its chain, the highest one
      that meets the target, and everything above it is gone unless the head did not move. */
  ghost predicate HeadSet(before: Store, start: Block, target: Target, k: nat, after: Store, head: Block) {
    && k <= start.number && head.hash == AncestorAt(before, start.hash, k) && Done(target, head)
    && (forall n: nat | k < n <= start.number :: Passed(target, before, start.hash, n))
    && after == (if k < start.number then Below(before, k) else before)
    && (target.Number? ==>
          && k == Min(target.n, start.number)
          && (NoneAbove(after, target.n) <==> start.number > target.n || NoneAbove(before, target.n)))
  }

  lemma RewindEnds(s: Store, genesisHeader: Block, td: map<Hash, nat>, canon: map<nat, Hash>, start: Block,
                   target: Target,
                   head: Block, doomed: set<Hash>, numbers: set<nat>, origin: bool)
    requires Rewinding(s, genesisHeader, td, canon, start, target, head, doomed, numbers, origin) && Done(target, head)
    ensures HeaderState(s - doomed, genesisHeader, td - doomed, canon - numbers, head)
    ensures HeadSet(s, start, target, head.number, s - doomed, head)
  {
    hide Tree, DifficultyExact, PathIndex, DoomedAbove;
    RewindFlushed(s, genesisHeader, td, canon, start, head, doomed, numbers, origin);
    if head.number < start.number {
      assert Passed(target, s, start.hash, head.number + 1);
      AncestorStored(s, genesisHeader.hash, start.hash, head.number + 1);
    }
  }

  /** The same in plain terms: for a number the chain ends there or where it ended before; for a timestamp it ends on a
      header that is not younger, and every header of the chain above it is. Unless the head did not move, exactly the
      headers above it are gone; so for a number none above it remains if and only if the head was above it or there was
      none. */
  ghost predicate RewoundPlainly(before: Store, start: Block, headBlock: nat, headTime: nat, k: nat, after: Store,
                                 head: Block) {
    && k <= start.number && head.hash == AncestorAt(before, start.hash, k)
    && (headTime == 0 ==>
          && k == Min(headBlock, start.number)
          && (NoneAbove(after, headBlock) <==> start.number > headBlock || NoneAbove(before, headBlock)))
    && (headTime > 0 ==>
          && head.time <= headTime
          && forall n: nat | k < n <= start.number ::
               AncestorAt(before, start.hash, n) in before && before[AncestorAt(before, start.hash, n)].time > headTime)
    && (forall h :: h in after <==> h in before && (k == start.number || before[h].number <= k))
    && (forall h | h in after :: after[h] == before[h])
  }

  lemma HeadSetPlainly(before: Store, start: Block, headBlock: nat, headTime: nat, k: nat, after: Store, head: Block)
    requires HeadSet(before, start, TargetOf(headBlock, headTime), k, after, head)
    ensures RewoundPlainly(before, start, headBlock, headTime, k, after, head)
  {
    hide AncestorAt;
    if headTime > 0 {
      forall n: nat | k < n <= start.number
        ensures AncestorAt(before, start.hash, n) in before && before[AncestorAt(before, start.hash, n)].time > headTime
      {
        assert Passed(Time(headTime), before, start.hash, n);
      }
    }
  }

  /** A fork may reach above the head: then setHead to the head's own number leaves a header above the target. */
  lemma ForkAboveHead()
    ensures exists s: Store, td: map<Hash, nat>, canon: map<nat, Hash>, genesis: Block, head: Block ::
              HeaderState(s, genesis, td, canon, head) && Done(Number(head.number), head) && !NoneAbove(s, head.number)
  {
    var g, a := Block(1, 0, 0, 0, 0, 1, 0, []), Block(2, 1, 1, 0, 0, 1, 0, []);
    var b, c := Block(3, 1, 1, 0, 0, 1, 0, []), Block(4, 3, 2, 0, 0, 1, 0, []);
    var s := map[1 := g, 2 := a, 3 := b, 4 := c];
    var td := map[1 := 1, 2 := 2, 3 := 2, 4 := 3];
    forall h | h in s
      ensures Attached(s, 1, h) && td[h] == TotalDifficulty(s, h)
    {
      assert TotalDifficulty(s, 1) == 1 && TotalDifficulty(s, 3) == 2;
    }
    assert HeaderState(s, g, td, PathIndex(s, 2), a);
    assert 4 in s && s[4].number > a.number;
  }

  lemma EmptyCaches(s: Store, td: map<Hash, nat>)
    ensures CachesWithin(s, td, map[], map[])
  {
  }

  class HeaderChain {
    const genesisHeader: Block

    // Database
    var headers: Store
    var td: map<Hash, nat>
    var canon: map<nat, Hash>
    var headHeaderHash: Hash

    // In memory. Reads also fill the caches, but only with what the database holds, so only the fills of
    // WriteHeaders are modelled.
    var currentHeader: Block
    var currentHeaderHash: Hash
    var headerCache: Store
    var tdCache: map<Hash, nat>

    ghost predicate Coherent()
      reads `headers, `td, `headerCache, `tdCache
    {
      CachesWithin(headers, td, headerCache, tdCache)
    }

    ghost predicate Consistent()
      reads `headers, `td, `canon, `headHeaderHash, `currentHeader, `currentHeaderHash
    {
      && currentHeaderHash == headHeaderHash == currentHeader.hash
      && HeaderState(headers, genesisHeader, td, canon, currentHeader)
    }

    constructor (genesisBlock: Block)
      requires genesisBlock.number == 0 && genesisBlock.parent == ZERO_HASH && genesisBlock.hash != ZERO_HASH
      ensures Consistent() && Coherent() && currentHeader == genesisBlock
    {
      genesisHeader := genesisBlock;
      headers := map[genesisBlock.hash := genesisBlock];
      td := map[genesisBlock.hash := genesisBlock.difficulty];
      canon := map[0 := genesisBlock.hash];
      headHeaderHash, currentHeader, currentHeaderHash := genesisBlock.hash, genesisBlock, genesisBlock.hash;
      headerCache, tdCache := map[], map[];
    }

    /** The database batch Reorg gathers: the index it will leave, or an error. */
    method PlanReorg(batch: seq<Block>) returns (plan: Option<map<nat, Hash>>)
      requires |batch| > 0 && Linked(batch)
      ensures Consistent() && AllStored(headers, batch) ==> plan == Some(PathIndex(headers, batch[|batch| - 1].hash))
    {
      var first, last := batch[0], batch[|batch| - 1];
      ghost var good := Consistent() && AllStored(headers, batch);
      var entries := BatchEntries(batch);
      if first.parent == currentHeaderHash {
        if good {
          IndexAfterExtension(headers, genesisHeader.hash, currentHeader, batch, canon, entries);
        }
        return Some(canon + entries);
      }
      var stale, gap := StaleNumbers(canon, last.number);
      var ok, writes, link := CrossLink(headers, canon, genesisHeader.hash, currentHeader, first);
      if !ok {
        return None;
      }
      if good {
        IndexAfterSwitch(headers, genesisHeader.hash, currentHeader, batch, canon, entries, stale, gap, writes, link);
      }
      return Some((canon - stale) + writes + entries);
    }

    /** Reorg: make a stored batch canonical. Nothing is written before the whole walk has succeeded. */
    method Reorg(batch: seq<Block>) returns (err: Option<HeaderError>)
      requires Linked(batch)
      modifies `canon, `headHeaderHash, `currentHeader, `currentHeaderHash
      ensures err.Some? || batch == [] ==> unchanged(this)
      ensures old(Consistent()) && AllStored(headers, batch) ==>
                && err.None?
                && Consistent()
                && (batch != [] ==> currentHeader == batch[|batch| - 1])
    {
      if batch == [] {
        return None;
      }
      var plan := PlanReorg(batch);
      if plan.None? {
        return Some(MissingParent);
      }
      var last := batch[|batch| - 1];
      canon := plan.value;
      headHeaderHash := last.hash;
      currentHeaderHash := last.hash;
      currentHeader := last;
      err := None;
    }

    function GetTd(h: Hash, number: int): (r: Option<nat>)
      reads this
      ensures Consistent() && Coherent() && (h in headers ==> headers[h].number == number) ==>
                r == if h in headers then Some(td[h]) else None
    {
      if h in tdCache then Some(tdCache[h])
      else if h in td && GetBlock(headers, h, number).Some? then Some(td[h])
      else None
    }

    /** WriteHeaders; `interrupted` is the answer of the interrupt callback, asked after the caches are filled. */
    method WriteHeaders(batch: seq<Block>, interrupted: bool) returns (inserted: nat, err: Option<HeaderError>)
      requires Validated(headers, batch)
      modifies `headers, `td, `headerCache, `tdCache
      ensures err.Some? ==> headers == old(headers) && td == old(td) && inserted == 0
      ensures old(Consistent() && Coherent()) ==>
                && Consistent()
                && (err == Some(NoAncestor) <==> batch != [] && batch[0].parent !in old(headers))
                && (err.None? <==> batch == [] || (batch[0].parent in old(headers) && !interrupted))
                && (err.None? ==> Coherent() && WroteHeaders(old(headers), headers, batch, inserted))
                && (err == Some(Aborted) ==> (Coherent() <==> AllStored(headers, batch)))
    {
      hide WroteHeaders, CachesWithin, AllStored, Validated, Tree, DifficultyExact, PathIndex;
      if batch == [] {
        WroteNothing(headers);
        return 0, None;
      }
      AttachedByNumber(headers, batch);
      if Consistent() {
        TdKeys(headers, genesisHeader.hash, td, canon, currentHeader);
      }
      var ptd := GetTd(batch[0].parent, batch[0].number - 1);
      if ptd.None? {
        return 0, Some(NoAncestor);
      }
      var s, tds;
      s, tds, headerCache, tdCache, inserted :=
        PlanHeaders(headers, genesisHeader, td, canon, currentHeader, headerCache, tdCache, batch, ptd.value);
      if interrupted {
        return 0, Some(Aborted);
      }
      headers, td := s, tds;
      err := None;
    }

    /** writeHeadersAndSetHead; an empty batch panics in the source. */
    method WriteHeadersAndSetHead(batch: seq<Block>, interrupted: bool, forkChoice: Option<bool>)
      returns (status: WriteStatus, imported: nat, ignored: int, err: Option<HeaderError>)
      requires |batch| > 0 && Validated(headers, batch)
      modifies `headers, `td, `canon, `headHeaderHash, `currentHeader, `currentHeaderHash, `headerCache, `tdCache
      ensures old(Consistent() && Coherent()) ==>
                && Consistent()
                && (err.None? <==> batch[0].parent in old(headers) && !interrupted && forkChoice.Some?)
                && (err.None? ==>
                     Coherent() && WroteHeaders(old(headers), headers, batch, imported)
                     && ignored == |batch| - imported)
                && (err.Some? || status != Canon ==> currentHeader == old(currentHeader))
                && (err.None? && status == Canon ==> currentHeader == batch[|batch| - 1])
                && (err.None? && status != Canon ==>
                     status == if !forkChoice.value && imported != 0 then Side else NonStat)
                && (err.None? ==> (status == Canon <==>
                      forkChoice.value && !IsAncestor(headers, batch[|batch| - 1].hash, old(currentHeader.hash))))
    {
      hide WroteHeaders, CachesWithin, AllStored, Tree, DifficultyExact, PathIndex, IsAncestor;
      var last := batch[|batch| - 1];
      ghost var good := Consistent() && Coherent();
      status := NonStat;
      imported, err := WriteHeaders(batch, interrupted);
      ignored := |batch| - imported;
      if err.Some? {
        return;
      }
      if good {
        LastIsStored(old(headers), headers, batch, imported);
        CanonicalIsAncestor(headers, genesisHeader.hash, td, canon, currentHeader, last);
      }
      if forkChoice.None? {
        err := Some(ChoiceFailed);
        return;
      }
      if !forkChoice.value {
        status := if imported != 0 then Side else NonStat;
        return;
      }
      if ReadCanonicalHash(canon, last.number) == last.hash && last.number <= currentHeader.number {
        return;
      }
      err := Reorg(batch);
      if err.None? {
        status := Canon;
      }
    }

    /** setHead, with a callback that forces nothing further. A target before genesis ends the process. On a consistent
        chain the head moves back to the highest header of its chain that meets the target, every header of every fork
        above it goes and nothing else does. k is the number it ends on. */
    method SetHead(headBlock: nat, headTime: nat) returns (ghost k: nat)
      requires if headTime > 0 then genesisHeader.time <= headTime else genesisHeader.number <= headBlock
      modifies this
      ensures old(Consistent()) ==>
                && Consistent() && Coherent()
                && RewoundPlainly(old(headers), old(currentHeader), headBlock, headTime, k, headers, currentHeader)
    {
      hide HeaderState, Rewinding, HeadSet, CachesWithin, RewoundPlainly;
      var target := TargetOf(headBlock, headTime);
      ghost var good, start := Consistent(), currentHeader;
      var doomed: set<Hash>, doomedNumbers: set<nat>, origin := {}, {}, true;
      if good {
        RewindStarts(headers, genesisHeader, td, canon, start, target);
      }
      while !Done(target, currentHeader)
        invariant good ==> currentHeaderHash == headHeaderHash == currentHeader.hash
        invariant good ==>
                    Rewinding(headers, genesisHeader, td, canon, start, target, currentHeader, doomed,
                              doomedNumbers, origin)
        invariant unchanged(`headers) && unchanged(`td) && unchanged(`canon)
        decreases !Done(target, currentHeader), currentHeader.number
      {
        var hdr := currentHeader;
        var found := GetBlock(headers, hdr.parent, hdr.number - 1);
        var parent := if found.Some? then found.value else genesisHeader;
        headHeaderHash := parent.hash;
        currentHeader := parent;
        currentHeaderHash := parent.hash;
        var hashes, numbers := DoomedData(headers, genesisHeader.hash, hdr, origin);
        if good {
          RewindStep(headers, genesisHeader, td, canon, start, target, hdr, doomed, doomedNumbers, hashes, numbers,
                     origin);
        }
        doomed, doomedNumbers, origin := doomed + hashes, doomedNumbers + numbers, false;
      }
      k := currentHeader.number;
      if good {
        RewindEnds(headers, genesisHeader, td, canon, start, target, currentHeader, doomed, doomedNumbers, origin);
      }
      headers := headers - doomed;
      td := td - doomed;
      canon := canon - doomedNumbers;
      headerCache, tdCache := map[], map[];
      EmptyCaches(headers, td);
      if good {
        HeadSetPlainly(old(headers), start, headBlock, headTime, k, headers, currentHeader);
      }
    }

    /** GetAncestor: the canonical shortcut, within a budget of non-canonical steps. It refines the parent walk on every
        stored header; asked about the zero hash above the head it takes "no entry" for a match and answers from the
        canonical chain. */
    method GetAncestor(hash: Hash, number: nat, ancestor: nat, maxNonCanonical: nat)
      returns (h: Hash, n: nat, left: nat)
      ensures Consistent() && hash in headers && headers[hash].number == number ==>
                var steps := Min(ancestor, CanonicalGap(headers, canon, hash));
                if ancestor <= number && (ancestor == 1 || steps <= maxNonCanonical)
                then h == AncestorAt(headers, hash, number - ancestor) != ZERO_HASH && n == number - ancestor
                     && left == if ancestor == 1 then maxNonCanonical else maxNonCanonical - steps
                else h == ZERO_HASH && n == 0
      ensures Consistent() && hash !in headers ==>
                h == if ancestor > number then ZERO_HASH
                     else if ancestor == 0 then hash
                     else if hash == ZERO_HASH && ancestor > 1 && number > currentHeader.number
                     then ReadCanonicalHash(canon, number - ancestor)
                     else ZERO_HASH
    {
      left := maxNonCanonical;
      if ancestor > number {
        return ZERO_HASH, 0, left;
      }
      ghost var good := Consistent() && hash in headers && headers[hash].number == number;
      if ancestor == 1 {
        var header := GetBlock(headers, hash, number);
        if good {
          assert Attached(headers, genesisHeader.hash, hash);
          AncestorStored(headers, genesisHeader.hash, hash, number - 1);
        }
        if header.Some? {
          return header.value.parent, number - 1, left;
        }
        return ZERO_HASH, 0, left;
      }
      h, n, left := WalkBack(headers, canon, genesisHeader.hash, currentHeader, hash, number, ancestor,
                             maxNonCanonical);
    }
  }
}
