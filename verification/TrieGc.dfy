/** How long a written state stays alive: commits that an archive node may skip, and the queue from which the states of
    old blocks are garbage collected. */
module TrieGc {
  import opened BlockTree
  import opened Words

  datatype Config = Config(
    archive: bool,
    maxBlocks: nat,          // most blocks whose commit may be skipped, zero for no such limit
    maxGas: Uint64,          // most gas in such blocks, zero for no such limit
    triesInMemory: nat,
    retention: int,          // seconds before which a state is not collected
    flushInterval: int
  )

  // ----- Skipped commits

  /** The counters an archive node keeps, and what it has skipped since its last commit. */
  datatype Skips = Skips(blocksLeft: nat, gasLeft: nat, blocks: nat, gas: nat)

  predicate MustCommit(c: Config, s: Skips, gasUsed: Uint64) {
    || (c.maxBlocks == 0 && c.maxGas == 0)
    || (c.maxBlocks != 0 && s.blocksLeft == 0)
    || (c.maxGas != 0 && s.gasLeft < gasUsed)
  }

  function AfterBlock(c: Config, s: Skips, gasUsed: Uint64): Skips {
    if MustCommit(c, s, gasUsed) then Skips(c.maxBlocks, c.maxGas, 0, 0)
    else Skips(if c.maxBlocks != 0 then s.blocksLeft - 1 else s.blocksLeft,
               if c.maxGas != 0 then s.gasLeft - gasUsed else s.gasLeft,
               s.blocks + 1, s.gas + gasUsed)
  }

  const NO_SKIPS := Skips(0, 0, 0, 0)

  function AfterBlocks(c: Config, gasUsed: seq<Uint64>): Skips {
    if gasUsed == [] then NO_SKIPS
    else AfterBlock(c, AfterBlocks(c, gasUsed[..|gasUsed| - 1]), gasUsed[|gasUsed| - 1])
  }

  /** The counters bound what is still to be skipped. */
  ghost predicate Within(c: Config, s: Skips) {
    && (c.maxBlocks != 0 ==> s.blocks + s.blocksLeft <= c.maxBlocks)
    && (c.maxGas != 0 ==> s.gas + s.gasLeft <= c.maxGas)
    && (c.maxBlocks == 0 && c.maxGas == 0 ==> s.blocks == 0 && s.gas == 0)
  }

  lemma {:induction false} AlwaysWithin(c: Config, gasUsed: seq<Uint64>)
    ensures Within(c, AfterBlocks(c, gasUsed))
  {
    if gasUsed != [] {
      AlwaysWithin(c, gasUsed[..|gasUsed| - 1]);
    }
  }

  /** Over every run, at most maxBlocks commits in a row are skipped: if and only if that limit is set or neither is. */
  lemma SkippedBlocksBounded(c: Config)
    ensures (forall gasUsed: seq<Uint64> :: AfterBlocks(c, gasUsed).blocks <= c.maxBlocks)
            <==> c.maxBlocks != 0 || c.maxGas == 0
  {
    if c.maxBlocks != 0 || c.maxGas == 0 {
      forall gasUsed: seq<Uint64>
        ensures AfterBlocks(c, gasUsed).blocks <= c.maxBlocks
      {
        AlwaysWithin(c, gasUsed);
      }
    } else {
      var run: seq<Uint64> := [0];
      assert run[..0] == [];
      assert AfterBlocks(c, run).blocks == 1;
    }
  }

  /** Over every run, blocks skipped in a row use at most maxGas: if and only if that limit is set or neither is. */
  lemma SkippedGasBounded(c: Config)
    ensures (forall gasUsed: seq<Uint64> :: AfterBlocks(c, gasUsed).gas <= c.maxGas)
            <==> c.maxGas != 0 || c.maxBlocks == 0
  {
    if c.maxGas != 0 || c.maxBlocks == 0 {
      forall gasUsed: seq<Uint64>
        ensures AfterBlocks(c, gasUsed).gas <= c.maxGas
      {
        AlwaysWithin(c, gasUsed);
      }
    } else {
      var one: seq<Uint64> := [1];
      var two: seq<Uint64> := [1, 1];
      assert one[..0] == [] && two[..1] == one;
      assert AfterBlocks(c, one) == Skips(c.maxBlocks, c.maxGas, 0, 0);
      assert AfterBlocks(c, two).gas == 1;
    }
  }

  /** Whether the state of block i of a run is committed. */
  predicate CommitsAt(c: Config, run: seq<Uint64>, i: nat)
    requires i < |run|
  {
    MustCommit(c, AfterBlocks(c, run[..i]), run[i])
  }

  function GasOf(gasUsed: seq<Uint64>): nat {
    if gasUsed == [] then 0 else GasOf(gasUsed[..|gasUsed| - 1]) + gasUsed[|gasUsed| - 1]
  }

  lemma GasMore(run: seq<Uint64>, j: nat, i: nat)
    requires j <= i < |run|
    ensures GasOf(run[j..i + 1]) == GasOf(run[j..i]) + run[i]
  {
    assert run[j..i + 1][..i - j] == run[j..i];
  }

  lemma OneBlockMore(c: Config, run: seq<Uint64>, i: nat)
    requires i < |run|
    ensures AfterBlocks(c, run[..i + 1]) == AfterBlock(c, AfterBlocks(c, run[..i]), run[i])
  {
    assert run[..i + 1][..i] == run[..i];
  }

  lemma {:induction false} LeftSince(c: Config, run: seq<Uint64>, j: nat, i: nat)
    requires j < i <= |run| && CommitsAt(c, run, j) && forall k | j < k < i :: !CommitsAt(c, run, k)
    ensures var s := AfterBlocks(c, run[..i]);
            && (c.maxBlocks != 0 ==> s.blocksLeft == c.maxBlocks - (i - j - 1))
            && (c.maxGas != 0 ==> s.gasLeft == c.maxGas - GasOf(run[j + 1..i]))
    decreases i
  {
    hide AfterBlocks;
    OneBlockMore(c, run, i - 1);
    if j + 1 < i {
      hide GasOf;
      LeftSince(c, run, j, i - 1);
      assert !CommitsAt(c, run, i - 1);
      GasMore(run, j + 1, i - 1);
    }
  }

  /** After a commit of block j, block i is the next one committed: in every run, as soon as maxBlocks blocks have been
      skipped or the gas of those skipped and its own exceeds maxGas; and at once if neither limit is set. */
  lemma NextCommit(c: Config, run: seq<Uint64>, j: nat, i: nat)
    requires j < i < |run| && CommitsAt(c, run, j) && forall k | j < k < i :: !CommitsAt(c, run, k)
    ensures CommitsAt(c, run, i)
            <==> || (c.maxBlocks == 0 && c.maxGas == 0)
                 || (c.maxBlocks != 0 && i - j > c.maxBlocks)
                 || (c.maxGas != 0 && GasOf(run[j + 1..i + 1]) > c.maxGas)
  {
    hide AfterBlocks, GasOf;
    LeftSince(c, run, j, i);
    GasMore(run, j + 1, i);
  }

  lemma {:induction false} NothingLeft(c: Config, run: seq<Uint64>, i: nat)
    requires i <= |run| && forall k | 0 <= k < i :: !CommitsAt(c, run, k)
    ensures var s := AfterBlocks(c, run[..i]); s.blocksLeft == 0 && s.gasLeft == 0
  {
    if i > 0 {
      NothingLeft(c, run, i - 1);
      OneBlockMore(c, run, i - 1);
      assert !CommitsAt(c, run, i - 1);
    }
  }

  /** The first commit of a run: the counters start at zero, so only blocks without gas under a gas limit alone come
      before it. */
  lemma FirstCommit(c: Config, run: seq<Uint64>, i: nat)
    requires i < |run| && forall k | 0 <= k < i :: !CommitsAt(c, run, k)
    ensures CommitsAt(c, run, i) <==> c.maxBlocks != 0 || c.maxGas == 0 || run[i] > 0
  {
    NothingLeft(c, run, i);
  }

  // ----- The collection queue

  datatype Entry = Entry(root: Hash, time: nat, number: nat)

  function Roots(queue: seq<Entry>): multiset<Hash> {
    if queue == [] then multiset{} else Roots(queue[..|queue| - 1]) + multiset{queue[|queue| - 1].root}
  }

  function Without(queue: seq<Entry>, k: nat): (rest: seq<Entry>)
    requires k < |queue|
    ensures |rest| == |queue| - 1
  {
    queue[..k] + queue[k + 1..]
  }

  lemma WithoutLast(queue: seq<Entry>, k: nat)
    requires k < |queue|
    ensures var n := |queue| - 1;
            Without(queue, k) == if k == n then queue[..n] else Without(queue[..n], k) + [queue[n]]
  {
  }

  lemma EitherOrder(roots: multiset<Hash>, a: Hash, b: Hash)
    ensures roots + multiset{a} + multiset{b} == roots + multiset{b} + multiset{a}
  {
  }

  lemma RootsSnoc(queue: seq<Entry>, e: Entry)
    ensures Roots(queue + [e]) == Roots(queue) + multiset{e.root}
  {
    assert (queue + [e])[..|queue|] == queue;
  }

  lemma {:induction false} RootsWithout(queue: seq<Entry>, k: nat)
    requires k < |queue|
    ensures Roots(queue) == Roots(Without(queue, k)) + multiset{queue[k].root}
  {
    hide Without;
    var n := |queue| - 1;
    WithoutLast(queue, k);
    if k < n {
      RootsWithout(queue[..n], k);
      RootsSnoc(Without(queue[..n], k), queue[n]);
      EitherOrder(Roots(Without(queue[..n], k)), queue[k].root, queue[n].root);
    }
  }

  /** An entry of lowest number. */
  ghost predicate Lowest(queue: seq<Entry>, k: nat) {
    k < |queue| && forall i | 0 <= i < |queue| :: queue[k].number <= queue[i].number
  }

  /** The position of an entry with the lowest number. */
  method FindLowest(queue: seq<Entry>) returns (k: nat)
    requires queue != []
    ensures Lowest(queue, k)
  {
    k := 0;
    for j := 1 to |queue|
      invariant k < |queue| && forall i | 0 <= i < j :: queue[k].number <= queue[i].number
    {
      if queue[j].number < queue[k].number {
        k := j;
      }
    }
  }

  /** The entry is far enough below the block being written and old enough to be collected. */
  predicate Matured(e: Entry, blockLimit: int, timeLimit: int) {
    e.number <= blockLimit && e.time <= timeLimit
  }

  /** Some of the queue is gone: it has matured, and what remains has no lower numbers. */
  ghost predicate Popping(before: seq<Entry>, gone: seq<Entry>, queue: seq<Entry>, blockLimit: int, timeLimit: int) {
    && multiset(queue) + multiset(gone) == multiset(before)
    && (forall e | e in gone :: Matured(e, blockLimit, timeLimit))
    && (forall e, f | e in gone && f in queue :: e.number <= f.number)
  }

  /** What one collection leaves: everything that was queued is kept or collected, what is collected has matured and
      has the lowest numbers, and collection stops only at an entry of lowest number that has not matured. */
  ghost predicate Collected(before: seq<Entry>, gone: seq<Entry>, after: seq<Entry>, blockLimit: int, timeLimit: int) {
    && Popping(before, gone, after, blockLimit, timeLimit)
    && (after == [] || exists k: nat :: Lowest(after, k) && !Matured(after[k], blockLimit, timeLimit))
  }

  lemma WithoutContents(queue: seq<Entry>, k: nat)
    requires k < |queue|
    ensures multiset(queue) == multiset(Without(queue, k)) + multiset{queue[k]}
  {
    assert queue == queue[..k] + [queue[k]] + queue[k + 1..];
  }

  lemma PopStart(queue: seq<Entry>, blockLimit: int, timeLimit: int)
    ensures Popping(queue, [], queue, blockLimit, timeLimit)
  {
  }

  lemma PopStep(before: seq<Entry>, gone: seq<Entry>, queue: seq<Entry>, k: nat, blockLimit: int, timeLimit: int)
    requires Popping(before, gone, queue, blockLimit, timeLimit)
    requires Lowest(queue, k) && Matured(queue[k], blockLimit, timeLimit)
    ensures Popping(before, gone + [queue[k]], Without(queue, k), blockLimit, timeLimit)
  {
    WithoutContents(queue, k);
    assert multiset(Without(queue, k)) + multiset(gone + [queue[k]]) == multiset(queue) + multiset(gone);
    forall f | f in Without(queue, k)
      ensures f in queue
    {
      assert f in multiset(queue);
    }
  }

  lemma PopStop(before: seq<Entry>, gone: seq<Entry>, queue: seq<Entry>, k: nat, blockLimit: int, timeLimit: int)
    requires Popping(before, gone, queue, blockLimit, timeLimit)
    requires Lowest(queue, k) && !Matured(queue[k], blockLimit, timeLimit)
    ensures Collected(before, gone, Without(queue, k) + [queue[k]], blockLimit, timeLimit)
  {
    hide Matured;
    var back := Without(queue, k) + [queue[k]];
    WithoutContents(queue, k);
    assert multiset(back) == multiset(queue);
    forall f | f in back
      ensures f in queue
    {
      assert f in multiset(queue);
    }
    assert Lowest(back, |back| - 1);
  }

  function RootOf(e: Option<Entry>): multiset<Hash> {
    if e.Some? then multiset{e.value.root} else multiset{}
  }

  /** A state is referenced as often as it is queued, and the entry popped last keeps its reference for a while. */
  ghost predicate Matched(refs: multiset<Hash>, queue: seq<Entry>, prev: Option<Entry>) {
    refs == Roots(queue) + RootOf(prev)
  }

  lemma MatchedPush(refs: multiset<Hash>, queue: seq<Entry>, e: Entry)
    requires Matched(refs, queue, None)
    ensures Matched(refs + multiset{e.root}, queue + [e], None)
  {
    RootsSnoc(queue, e);
  }

  lemma MatchedPop(refs: multiset<Hash>, queue: seq<Entry>, k: nat, prev: Option<Entry>)
    requires k < |queue| && Matched(refs, queue, prev)
    ensures Matched(refs - RootOf(prev), Without(queue, k), Some(queue[k]))
  {
    hide Roots, Without;
    RootsWithout(queue, k);
  }

  lemma MatchedBack(refs: multiset<Hash>, queue: seq<Entry>, k: nat, prev: Option<Entry>)
    requires k < |queue| && Matched(refs, queue, prev)
    ensures Matched(refs, Without(queue, k) + [queue[k]], prev)
  {
    hide Roots, Without;
    RootsWithout(queue, k);
    RootsSnoc(Without(queue, k), queue[k]);
  }

  lemma MatchedEnd(refs: multiset<Hash>, queue: seq<Entry>, prev: Option<Entry>)
    requires Matched(refs, queue, prev)
    ensures Matched(refs - RootOf(prev), queue, None)
  {
    hide Roots;
  }

  lemma PopEnd(before: seq<Entry>, gone: seq<Entry>, blockLimit: int, timeLimit: int)
    requires Popping(before, gone, [], blockLimit, timeLimit)
    ensures Collected(before, gone, [], blockLimit, timeLimit)
  {
  }

  /** The state a full node flushes: once processing has taken long enough, that of the canonical header at the
      number of the entry collected last. */
  ghost function Flushed(c: Config, gcproc: int, gone: seq<Entry>, headerRoot: nat -> Option<Hash>): Option<Hash> {
    if !c.archive && gcproc > c.flushInterval && gone != [] then headerRoot(gone[|gone| - 1].number) else None
  }

  /** Nothing is collected before the chain is longer than triesInMemory and the clock past the retention time. */
  ghost predicate CollectedFor(c: Config, before: seq<Entry>, gone: seq<Entry>, after: seq<Entry>, number: nat,
                               now: int) {
    if number > c.triesInMemory && now > c.retention
    then Collected(before, gone, after, number - c.triesInMemory, now - c.retention)
    else after == before && gone == []
  }

  /** Once collection runs, an entry of lowest number that remains is still in use: less than triesInMemory blocks below
      the given number, or younger than the retention time. */
  ghost predicate NothingOverdue(c: Config, queue: seq<Entry>, number: nat, now: int) {
    number > c.triesInMemory && now > c.retention && queue != [] ==>
      exists k: nat ::
        Lowest(queue, k) && (queue[k].number + c.triesInMemory > number || queue[k].time + c.retention > now)
  }

  lemma PlainCollection(c: Config, before: seq<Entry>, gone: seq<Entry>, after: seq<Entry>, number: nat, now: int)
    requires CollectedFor(c, before, gone, after, number, now)
    ensures forall e | e in gone :: e.number + c.triesInMemory <= number && e.time + c.retention <= now
    ensures NothingOverdue(c, after, number, now)
  {
    if number > c.triesInMemory && now > c.retention && after != [] {
      var k: nat :| Lowest(after, k) && !Matured(after[k], number - c.triesInMemory, now - c.retention);
    }
  }

  class Collector {
    const config: Config
    var refs: multiset<Hash>        // the metadata references that keep states alive
    var queue: seq<Entry>
    var commits: set<Hash>
    var blocksLeft: nat
    var gasLeft: nat
    var gcproc: int
    var lastWrite: nat
    ghost var skippedBlocks: nat    // since the last commit of an archive node
    ghost var skippedGas: nat

    /** A state is referenced as often as it is queued. */
    ghost predicate Balanced()
      reads `refs, `queue
    {
      Matched(refs, queue, None)
    }

    ghost function Skipped(): Skips
      reads this
    {
      Skips(blocksLeft, gasLeft, skippedBlocks, skippedGas)
    }

    constructor (config: Config)
      ensures this.config == config && queue == [] && Balanced() && Skipped() == NO_SKIPS
    {
      this.config := config;
      refs, queue, commits, blocksLeft, gasLeft, gcproc, lastWrite := multiset{}, [], {}, 0, 0, 0, 0;
      skippedBlocks, skippedGas := 0, 0;
    }

    /** Pops matured entries in the order of their numbers. Each but the last is dereferenced; the last is returned. */
    method PopMatured(blockLimit: int, timeLimit: int) returns (prev: Option<Entry>, ghost gone: seq<Entry>)
      modifies `refs, `queue
      ensures Collected(old(queue), gone, queue, blockLimit, timeLimit)
      ensures old(Balanced()) ==> Matched(refs, queue, prev)
      ensures prev.Some? ==> gone != [] && prev.value == gone[|gone| - 1]
      ensures prev.None? ==> gone == []
    {
      hide Matured, Matched, RootOf, Popping, Collected, Without;
      prev, gone := None, [];
      ghost var balanced := Balanced();
      PopStart(queue, blockLimit, timeLimit);
      while queue != []
        invariant Popping(old(queue), gone, queue, blockLimit, timeLimit)
        invariant balanced ==> Matched(refs, queue, prev)
        invariant prev.Some? ==> gone != [] && prev.value == gone[|gone| - 1]
        invariant prev.None? ==> gone == []
        decreases |queue|
      {
        var k := FindLowest(queue);
        var e := queue[k];
        if !Matured(e, blockLimit, timeLimit) {
          PopStop(old(queue), gone, queue, k, blockLimit, timeLimit);
          if balanced {
            MatchedBack(refs, queue, k, prev);
          }
          queue := Without(queue, k) + [e];
          return;
        }
        PopStep(old(queue), gone, queue, k, blockLimit, timeLimit);
        if balanced {
          MatchedPop(refs, queue, k, prev);
        }
        queue := Without(queue, k);
        refs := refs - RootOf(prev);
        prev, gone := Some(e), gone + [e];
      }
      PopEnd(old(queue), gone, blockLimit, timeLimit);
    }

    /** Decides whether an archive node commits the state of this block, and updates its counters. */
    method ArchiveCommits(gasUsed: Uint64) returns (commit: bool)
      modifies `blocksLeft, `gasLeft, `skippedBlocks, `skippedGas
      ensures commit <==> old(MustCommit(config, Skipped(), gasUsed))
      ensures Skipped() == AfterBlock(config, old(Skipped()), gasUsed)
    {
      var maySkip, blockLimitReached, gasLimitReached := false, false, false;
      if config.maxBlocks != 0 {
        maySkip := true;
        if blocksLeft > 0 {
          blocksLeft := blocksLeft - 1;
        } else {
          blockLimitReached := true;
        }
      }
      if config.maxGas != 0 {
        maySkip := true;
        if gasLeft >= gasUsed {
          gasLeft := gasLeft - gasUsed;
        } else {
          gasLimitReached := true;
        }
      }
      skippedBlocks, skippedGas := skippedBlocks + 1, skippedGas + gasUsed;
      commit := !maySkip || blockLimitReached || gasLimitReached;
      if commit {
        blocksLeft, gasLeft, skippedBlocks, skippedGas := config.maxBlocks, config.maxGas, 0, 0;
      }
    }

    /** Collects what has matured when the block of the given number is written at the time now. headerRoot gives the
        canonical header's root by number; that state is flushed once processing has taken long enough. */
    method CollectGarbage(number: nat, now: int, headerRoot: nat -> Option<Hash>) returns (ghost gone: seq<Entry>)
      modifies `refs, `queue, `commits, `gcproc, `lastWrite
      ensures old(Balanced()) ==> Balanced()
      ensures CollectedFor(config, old(queue), gone, queue, number, now)
      ensures var flushed := Flushed(config, old(gcproc), gone, headerRoot);
              if flushed.Some?
              then commits == old(commits) + {flushed.value} && lastWrite == gone[|gone| - 1].number && gcproc == 0
              else commits == old(commits) && lastWrite == old(lastWrite) && gcproc == old(gcproc)
    {
      hide Matched, RootOf, Collected;
      gone := [];
      ghost var balanced := Balanced();
      var blockLimit, timeLimit := number - config.triesInMemory, now - config.retention;
      if blockLimit > 0 && timeLimit > 0 {
        var prev;
        prev, gone := PopMatured(blockLimit, timeLimit);
        if balanced {
          MatchedEnd(refs, queue, prev);
        }
        if gcproc > config.flushInterval && prev.Some? && !config.archive {
          var header := headerRoot(prev.value.number);
          if header.Some? {
            commits, lastWrite, gcproc := commits + {header.value}, prev.value.number, 0;
          }
        }
        refs := refs - RootOf(prev);
      }
    }

    /** Writes the state of a block and collects what has matured. Every reference stays matched by a queue entry. What
        is collected lies at least triesInMemory blocks below this one and is older than the retention time. */
    method WriteState(root: Hash, number: nat, time: nat, gasUsed: Uint64, now: int, headerRoot: nat -> Option<Hash>)
      returns (ghost gone: seq<Entry>)
      modifies this
      ensures old(Balanced()) ==> Balanced()
      ensures config.archive ==>
                && Skipped() == AfterBlock(config, old(Skipped()), gasUsed)
                && commits == old(commits) + if old(MustCommit(config, Skipped(), gasUsed)) then {root} else {}
      ensures forall e | e in gone :: e.number + config.triesInMemory <= number && e.time + config.retention <= now
      ensures !config.archive ==>
                commits == if old(gcproc) > config.flushInterval && gone != []
                              && headerRoot(gone[|gone| - 1].number).Some?
                           then old(commits) + {headerRoot(gone[|gone| - 1].number).value}
                           else old(commits)
      ensures if config.archive && old(MustCommit(config, Skipped(), gasUsed))
              then queue == old(queue) && gone == []
              else CollectedFor(config, old(queue) + [Entry(root, time, number)], gone, queue, number, now)
                   && NothingOverdue(config, queue, number, now)
    {
      hide Matched, CollectedFor, NothingOverdue, MustCommit, AfterBlock;
      gone := [];
      if config.archive {
        var commit := ArchiveCommits(gasUsed);
        if commit {
          commits := commits + {root};
          return;
        }
      }
      if Balanced() {
        MatchedPush(refs, queue, Entry(root, time, number));
      }
      refs := refs + multiset{root};
      queue := queue + [Entry(root, time, number)];
      gone := CollectGarbage(number, now, headerRoot);
      PlainCollection(config, old(queue) + [Entry(root, time, number)], gone, queue, number, now);
    }
  }
}
