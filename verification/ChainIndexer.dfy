/** The section indexer: it records the last block hash of every finished section of the canonical chain, while the
    canonical chain may switch between any two of its reads. */
module ChainIndexers {
  import opened BlockTree
  import opened Words

  /** What does not change: every header that is ever in the chain database, and the indexer's configuration. */
  datatype Config = Config(headers: Store, genesis: Hash, size: nat, confirms: nat)

  ghost predicate Configured(p: Config) {
    Tree(p.headers, p.genesis) && p.size > 0
  }

  /** The canonical hash at number n while the canonical chain ends on head. */
  function CanonicalHash(p: Config, head: Hash, n: nat): Hash {
    if head in p.headers && n <= p.headers[head].number then AncestorAt(p.headers, head, n) else ZERO_HASH
  }

  function Start(p: Config, section: nat): nat {
    section * p.size
  }

  /** The number of the last block of a section. */
  function End(p: Config, section: nat): nat
    requires p.size > 0
  {
    Start(p, section) + p.size - 1
  }

  lemma StartsGrow(p: Config, i: nat, j: nat)
    requires i <= j
    ensures Start(p, i) <= Start(p, j)
  {
    assert j * p.size == i * p.size + (j - i) * p.size;
  }

  lemma EndIsNextStart(p: Config, i: nat)
    requires p.size > 0
    ensures End(p, i) + 1 == Start(p, i + 1)
  {
    assert (i + 1) * p.size == i * p.size + p.size;
  }

  // ----- The index and its operations

  datatype Index = Index(
    stored: nat,
    known: nat,
    cascaded: int,
    heads: map<nat, Hash>,
    checkpoint: nat,      // number of sections the checkpoint covers
    checkpointHead: Hash
  )

  function SectionHead(x: Index, section: nat): Hash {
    if section in x.heads then x.heads[section] else ZERO_HASH
  }

  /** Sections from n on are forgotten. */
  function SetValid(x: Index, n: nat): Index {
    x.(stored := n, heads := map k | k in x.heads && !(n <= k < x.stored) :: x.heads[k])
  }

  predicate IsCanonical(p: Config, x: Index, section: nat, view: Hash)
    requires p.size > 0
  {
    SectionHead(x, section) == CanonicalHash(p, view, End(p, section))
  }

  /** The roll back to a section head that is still canonical; views(i) is the canonical head at the i-th read. */
  function Verify(p: Config, x: Index, views: nat -> Hash, i: nat): Index
    requires p.size > 0
    decreases x.stored
  {
    if x.stored == 0 || x.stored <= x.checkpoint then x
    else if IsCanonical(p, x, x.stored - 1, views(i)) then x
    else Verify(p, SetValid(x, x.stored - 1), views, i + 1)
  }

  /** The number of the last read of Verify. */
  function LastRead(p: Config, x: Index, views: nat -> Hash, i: nat): nat
    requires p.size > 0
    decreases x.stored
  {
    if x.stored == 0 || x.stored <= x.checkpoint then i
    else if IsCanonical(p, x, x.stored - 1, views(i)) then i
    else LastRead(p, SetValid(x, x.stored - 1), views, i + 1)
  }

  function Reorged(p: Config, x: Index, head: nat): Index
    requires p.size > 0
  {
    var sections := (head + 1) / p.size;
    var known := if sections < x.checkpoint then 0 else sections;
    var stored := Max(sections, x.checkpoint);
    var y := if known < x.known then x.(known := known) else x;
    var z := if stored < y.stored then SetValid(y, stored) else y;
    if known * p.size < z.cascaded then z.(cascaded := known * p.size) else z
  }

  predicate CheckpointMatches(p: Config, x: Index, view: Hash)
    requires p.size > 0 && x.checkpoint > 0
  {
    CanonicalHash(p, view, End(p, x.checkpoint - 1)) == x.checkpointHead
  }

  function Advanced(p: Config, x: Index, head: nat, view: Hash): Index
    requires p.size > 0
  {
    if head < p.confirms then x else
    var complete := (head + 1 - p.confirms) / p.size;
    var sections := if complete < x.checkpoint then 0 else complete;
    if sections <= x.known then x
    else if x.known < x.checkpoint && !CheckpointMatches(p, x, view) then x
    else x.(known := sections)
  }

  function Checkpointed(x: Index, section: nat, head: Hash): Index {
    if x.checkpoint >= section + 1 || section < x.stored then x
    else SetValid(x.(checkpoint := section + 1, checkpointHead := head, heads := x.heads[section := head]), section + 1)
  }

  /** What a restarted indexer loads: the section count and the heads, but no checkpoint. */
  function Reloaded(x: Index): Index {
    Index(x.stored, 0, 0, x.heads, 0, ZERO_HASH)
  }

  /** A processed section is recorded only if the section before it still ends where processing started. */
  predicate StillContinues(x: Index, section: nat, oldHead: Hash) {
    section == 0 || oldHead == SectionHead(x, section - 1)
  }

  function Recorded(p: Config, x: Index, section: nat, newHead: Hash): Index
    requires p.size > 0
  {
    SetValid(x.(heads := x.heads[section := newHead]), section + 1).(cascaded := End(p, section))
  }

  function GivenUp(p: Config, x: Index, views: nat -> Hash): Index
    requires p.size > 0
  {
    var y := Verify(p, x, views, 0);
    y.(known := y.stored)
  }

  /** One header of a section: the hash it extends the run to, unless the chain does not continue the run. */
  function NextHead(p: Config, lastHead: Hash, number: nat, view: Hash, present: bool): Option<Hash> {
    var hash := CanonicalHash(p, view, number);
    if hash == ZERO_HASH || hash !in p.headers || !present then None
    else if p.headers[hash].parent != lastHead then None
    else Some(hash)
  }

  lemma Divides(p: Config, k: nat, n: nat)
    requires p.size > 0
    ensures k < (n + 1) / p.size <==> End(p, k) <= n
  {
    var q := (n + 1) / p.size;
    EndIsNextStart(p, k);
    assert n + 1 == q * p.size + (n + 1) % p.size;
    if k < q {
      StartsGrow(p, k + 1, q);
    } else {
      StartsGrow(p, q + 1, k + 1);
      EndIsNextStart(p, q);
    }
  }

  // ----- What heads and checkpoints make known

  /** The checkpoint does not hold back what becomes known: it is passed already, or canonical now. */
  predicate CheckpointPassed(p: Config, x: Index, view: Hash)
    requires p.size > 0
  {
    x.checkpoint > x.known ==> CheckpointMatches(p, x, view)
  }

  /** A new head makes known exactly the sections whose last block has enough blocks on top of it, unless the
      checkpoint does not match or its own last block has not enough yet. */
  lemma HeadMakesKnown(p: Config, x: Index, head: nat, view: Hash, k: nat)
    requires p.size > 0
    ensures var y := Advanced(p, x, head, view);
            && (k < y.known
                <==> k < x.known
                     || (&& End(p, k) + p.confirms <= head
                         && (x.checkpoint > 0 ==> End(p, x.checkpoint - 1) + p.confirms <= head)
                         && CheckpointPassed(p, x, view)))
            && y == x.(known := y.known)
  {
    if head >= p.confirms {
      Divides(p, k, head - p.confirms);
      if x.checkpoint > 0 {
        Divides(p, x.checkpoint - 1, head - p.confirms);
      }
    }
  }

  /** A reorg leaves known exactly the sections that end at or below its block, and none if the checkpoint's own does
      not; stored those too, and those of the checkpoint; and cascaded no more than what is known. */
  lemma ReorgLeaves(p: Config, x: Index, head: nat, k: nat)
    requires p.size > 0
    ensures var y := Reorged(p, x, head);
            var kept := End(p, k) <= head && (x.checkpoint > 0 ==> End(p, x.checkpoint - 1) <= head);
            && (k < y.known <==> k < x.known && kept)
            && (k < y.stored <==> k < x.stored && (End(p, k) <= head || k < x.checkpoint))
            && (End(p, k) < y.cascaded <==> End(p, k) < x.cascaded && kept)
  {
    Divides(p, k, head);
    if x.checkpoint > 0 {
      Divides(p, x.checkpoint - 1, head);
    }
    var sections := (head + 1) / p.size;
    var known := if sections < x.checkpoint then 0 else sections;
    EndIsNextStart(p, k);
    if k < known {
      StartsGrow(p, k + 1, known);
    } else {
      StartsGrow(p, known, k);
    }
  }

  /** A checkpoint beyond the index stands for all sections up to its own, and lets nothing become known before its
      own section is confirmed with its head. */
  lemma CheckpointGates(p: Config, x: Index, section: nat, cpHead: Hash, head: nat, view: Hash, k: nat)
    requires p.size > 0 && x.checkpoint <= section && x.stored <= section && x.known <= section
    ensures var y := Checkpointed(x, section, cpHead);
            && y.stored == y.checkpoint == section + 1 && SectionHead(y, section) == cpHead
            && (k < Advanced(p, y, head, view).known
                <==> k < x.known
                     || (&& End(p, k) + p.confirms <= head && End(p, section) + p.confirms <= head
                         && CanonicalHash(p, view, End(p, section)) == cpHead))
  {
    hide CanonicalHash;
    HeadMakesKnown(p, Checkpointed(x, section, cpHead), head, view, k);
  }

  // ----- The invariant of the index

  /** Section j ends on a header of the right number. */
  ghost predicate EndsSection(p: Config, h: Hash, j: nat)
    requires p.size > 0
  {
    h in p.headers && p.headers[h].number == End(p, j)
  }

  /** The head of section j is the section-length descendant of the head before it. */
  ghost predicate Continues(p: Config, x: Index, j: nat)
    requires p.size > 0
  {
    && j in x.heads
    && EndsSection(p, x.heads[j], j)
    && (j > 0 ==> j - 1 in x.heads && AncestorAt(p.headers, x.heads[j], End(p, j - 1)) == x.heads[j - 1])
  }

  /** The sections from base on continue each other, and the one before them has a head. The base is the highest
      checkpoint ever stored, which the indexer itself forgets when it is restarted. */
  ghost predicate Chained(p: Config, x: Index, base: nat)
    requires p.size > 0
  {
    && (forall k | k in x.heads :: k < x.stored)
    && (forall j: nat | base <= j + 1 && j < x.stored :: j in x.heads)
    && (forall j: nat | base <= j < x.stored :: Continues(p, x, j))
  }

  // ----- Every operation keeps it

  lemma SetValidKeeps(p: Config, x: Index, base: nat, n: nat)
    requires Configured(p) && Chained(p, x, base) && n <= x.stored
    ensures Chained(p, SetValid(x, n), base)
  {
    var y := SetValid(x, n);
    forall j: nat | base <= j < y.stored
      ensures Continues(p, y, j)
    {
      assert Continues(p, x, j);
    }
  }

  /** The roll back forgets exactly the sections from where it ends on. */
  lemma {:induction false} VerifyForgets(p: Config, x: Index, views: nat -> Hash, i: nat)
    requires p.size > 0
    ensures var y := Verify(p, x, views, i); y.stored <= x.stored && y == SetValid(x, y.stored)
    decreases x.stored
  {
    hide IsCanonical;
    if x.stored > x.checkpoint && !IsCanonical(p, x, x.stored - 1, views(i)) {
      VerifyForgets(p, SetValid(x, x.stored - 1), views, i + 1);
    }
  }

  lemma {:induction false} VerifyKeeps(p: Config, x: Index, base: nat, views: nat -> Hash, i: nat)
    requires Configured(p) && Chained(p, x, base)
    ensures var y := Verify(p, x, views, i);
            Chained(p, y, base) && y.stored <= x.stored && y.checkpoint == x.checkpoint
    decreases x.stored
  {
    hide Chained, CanonicalHash;
    if x.stored > x.checkpoint && !IsCanonical(p, x, x.stored - 1, views(i)) {
      SetValidKeeps(p, x, base, x.stored - 1);
      VerifyKeeps(p, SetValid(x, x.stored - 1), base, views, i + 1);
    }
  }

  /** The invariant is about the stored sections alone: a restart keeps it. */
  lemma OnlyHeadsMatter(p: Config, x: Index, y: Index, base: nat)
    requires p.size > 0 && Chained(p, x, base)
    requires y.stored == x.stored && y.heads == x.heads
    ensures Chained(p, y, base)
  {
    forall j: nat | base <= j < y.stored
      ensures Continues(p, y, j)
    {
      assert Continues(p, x, j);
    }
  }

  lemma ReorgedKeeps(p: Config, x: Index, base: nat, head: nat)
    requires Configured(p) && Chained(p, x, base)
    ensures Chained(p, Reorged(p, x, head), base)
  {
    var sections := (head + 1) / p.size;
    var stored := Max(sections, x.checkpoint);
    if stored < x.stored {
      SetValidKeeps(p, x, base, stored);
      OnlyHeadsMatter(p, SetValid(x, stored), Reorged(p, x, head), base);
    } else {
      OnlyHeadsMatter(p, x, Reorged(p, x, head), base);
    }
  }

  lemma CheckpointedKeeps(p: Config, x: Index, base: nat, section: nat, head: Hash)
    requires Configured(p) && Chained(p, x, base)
    ensures var y := Checkpointed(x, section, head); Chained(p, y, Max(base, y.checkpoint))
  {
    var y := Checkpointed(x, section, head);
    forall j: nat | Max(base, y.checkpoint) <= j < y.stored
      ensures Continues(p, y, j)
    {
      assert Continues(p, x, j);
    }
  }

  /** The head of a processed section, and what processing it established. */
  ghost predicate Extends(p: Config, section: nat, oldHead: Hash, head: Hash, number: nat)
    requires p.size > 0
  {
    if number == Start(p, section) then head == oldHead
    else
      && head in p.headers
      && p.headers[head].number == number - 1
      && (section > 0 ==> oldHead != ZERO_HASH && AncestorAt(p.headers, head, End(p, section - 1)) == oldHead)
  }

  lemma RecordedKeeps(p: Config, x: Index, base: nat, section: nat, oldHead: Hash, newHead: Hash)
    requires Configured(p) && Chained(p, x, base)
    requires Extends(p, section, oldHead, newHead, Start(p, section + 1))
    requires StillContinues(x, section, oldHead)
    ensures Chained(p, Recorded(p, x, section, newHead), base)
  {
    EndIsNextStart(p, section);
    var y := Recorded(p, x, section, newHead);
    forall j: nat | base <= j < y.stored
      ensures Continues(p, y, j)
    {
      if j < section {
        assert Continues(p, x, j);
      }
    }
  }

  /** One more header, read from whatever chain is canonical at that moment, extends the run. */
  lemma NextHeadExtends(p: Config, section: nat, oldHead: Hash, lastHead: Hash, number: nat, view: Hash, present: bool)
    requires Configured(p) && Start(p, section) <= number
    requires Extends(p, section, oldHead, lastHead, number)
    requires NextHead(p, lastHead, number, view, present).Some?
    ensures Extends(p, section, oldHead, NextHead(p, lastHead, number, view, present).value, number + 1)
  {
    var hash := CanonicalHash(p, view, number);
    AncestorStored(p.headers, p.genesis, view, number);
    assert Attached(p.headers, p.genesis, hash);
    if section > 0 {
      EndIsNextStart(p, section - 1);
    }
  }

  // ----- The step system: the update loop, with its lock released while it processes, against everything else

  datatype Pc =
    | Waiting
    | Resetting(section: nat, oldHead: Hash)
    | Processing(section: nat, oldHead: Hash, lastHead: Hash, number: nat)
    | Processed(section: nat, oldHead: Hash, newHead: Hash)
    | Failed

  datatype State = State(index: Index, pc: Pc)

  /** The views are the canonical heads found by the reads of the action: the chain may differ at each of them. */
  datatype Action =
    | NewHead(head: nat, reorg: bool, view: Hash)
    | AddCheckpoint(section: nat, head: Hash)
    | Query(views: nat -> Hash)
    | Restart
    | Begin(views: nat -> Hash)
    | Reset(ok: bool)
    | ReadHeader(view: Hash, present: bool, ok: bool)
    | Commit(ok: bool)
    | Finish(views: nat -> Hash)

  predicate Enabled(p: Config, s: State, a: Action) {
    match a
    case NewHead(_, _, _) => true
    case AddCheckpoint(_, _) => true
    case Query(_) => true
    case Restart => true
    case Begin(_) => s.pc.Waiting?
    case Reset(_) => s.pc.Resetting?
    case ReadHeader(_, _, _) => s.pc.Processing? && s.pc.number < Start(p, s.pc.section + 1)
    case Commit(_) => s.pc.Processing? && s.pc.number >= Start(p, s.pc.section + 1)
    case Finish(_) => s.pc.Processed? || s.pc.Failed?
  }

  function LastSection(x: Index): Hash {
    if x.stored > 0 then SectionHead(x, x.stored - 1) else ZERO_HASH
  }

  function Apply(p: Config, s: State, a: Action): State
    requires p.size > 0 && Enabled(p, s, a)
  {
    var x := s.index;
    match a
    case NewHead(head, reorg, view) => s.(index := if reorg then Reorged(p, x, head) else Advanced(p, x, head, view))
    case AddCheckpoint(section, head) => s.(index := Checkpointed(x, section, head))
    case Query(views) => s.(index := Verify(p, x, views, 0))
    case Restart => State(Reloaded(x), Waiting)
    case Begin(views) =>
      if x.known <= x.stored then s else
      var y := Verify(p, x, views, 0);
      State(y, Resetting(y.stored, LastSection(y)))
    case Reset(ok) =>
      if ok then s.(pc := Processing(s.pc.section, s.pc.oldHead, s.pc.oldHead, Start(p, s.pc.section)))
      else State(SetValid(x, 0), Failed)
    case ReadHeader(view, present, ok) =>
      var next := NextHead(p, s.pc.lastHead, s.pc.number, view, present);
      if next.None? || !ok then s.(pc := Failed)
      else s.(pc := s.pc.(lastHead := next.value, number := s.pc.number + 1))
    case Commit(ok) =>
      if ok then s.(pc := Processed(s.pc.section, s.pc.oldHead, s.pc.lastHead)) else s.(pc := Failed)
    case Finish(views) =>
      if s.pc.Processed? && StillContinues(x, s.pc.section, s.pc.oldHead)
      then State(Recorded(p, x, s.pc.section, s.pc.newHead), Waiting)
      else State(GivenUp(p, x, views), Waiting)
  }

  ghost predicate Inv(p: Config, s: State, base: nat)
    requires p.size > 0
  {
    && s.index.checkpoint <= base
    && Chained(p, s.index, base)
    && match s.pc
       case Processing(section, oldHead, lastHead, number) =>
         && Start(p, section) <= number <= Start(p, section + 1)
         && Extends(p, section, oldHead, lastHead, number)
       case Processed(section, oldHead, newHead) => Extends(p, section, oldHead, newHead, Start(p, section + 1))
       case _ => true
  }

  lemma FinishKeeps(p: Config, s: State, base: nat, views: nat -> Hash)
    requires Configured(p) && Inv(p, s, base) && (s.pc.Processed? || s.pc.Failed?)
    ensures Inv(p, Apply(p, s, Finish(views)), base)
  {
    hide Chained, Extends, Verify;
    if s.pc.Processed? && StillContinues(s.index, s.pc.section, s.pc.oldHead) {
      RecordedKeeps(p, s.index, base, s.pc.section, s.pc.oldHead, s.pc.newHead);
    } else {
      var y := Verify(p, s.index, views, 0);
      VerifyKeeps(p, s.index, base, views, 0);
      OnlyHeadsMatter(p, y, y.(known := y.stored), base);
    }
  }

  lemma ResetKeeps(p: Config, s: State, base: nat, ok: bool)
    requires Configured(p) && Inv(p, s, base) && s.pc.Resetting?
    ensures Inv(p, Apply(p, s, Reset(ok)), base)
    ensures !ok ==> Apply(p, s, Reset(ok)).index.stored == 0 && Apply(p, s, Reset(ok)).index.heads == map[]
  {
    if ok {
      StartsGrow(p, s.pc.section, s.pc.section + 1);
    } else {
      SetValidKeeps(p, s.index, base, 0);
    }
  }

  lemma CheckpointsUnchanged(p: Config, x: Index, head: nat, view: Hash)
    requires p.size > 0
    ensures Reorged(p, x, head).checkpoint == x.checkpoint
    ensures var y := Advanced(p, x, head, view);
            y.checkpoint == x.checkpoint && y.stored == x.stored && y.heads == x.heads
  {
  }

  /** Every step keeps the invariant, with the base raised to the checkpoint the step may have added. */
  lemma ActionKeeps(p: Config, s: State, base: nat, a: Action)
    requires Configured(p) && Inv(p, s, base) && Enabled(p, s, a)
    ensures var t := Apply(p, s, a); Inv(p, t, Max(base, t.index.checkpoint))
  {
    hide Chained, Extends, Reorged, Advanced, Checkpointed, Verify, NextHead, GivenUp;
    match a
    case NewHead(head, reorg, view) =>
      CheckpointsUnchanged(p, s.index, head, view);
      ReorgedKeeps(p, s.index, base, head);
      OnlyHeadsMatter(p, s.index, Advanced(p, s.index, head, view), base);
    case AddCheckpoint(section, head) => CheckpointedKeeps(p, s.index, base, section, head);
    case Query(views) => VerifyKeeps(p, s.index, base, views, 0);
    case Restart => OnlyHeadsMatter(p, s.index, Reloaded(s.index), base);
    case Begin(views) => VerifyKeeps(p, s.index, base, views, 0);
    case Reset(ok) => ResetKeeps(p, s, base, ok);
    case ReadHeader(view, present, ok) =>
      if NextHead(p, s.pc.lastHead, s.pc.number, view, present).Some? {
        NextHeadExtends(p, s.pc.section, s.pc.oldHead, s.pc.lastHead, s.pc.number, view, present);
      }
    case Commit(ok) =>
    case Finish(views) => FinishKeeps(p, s, base, views);
  }

  // ----- Runs

  predicate IsRun(p: Config, s: State, acts: seq<Action>)
    requires p.size > 0
    decreases |acts|
  {
    |acts| > 0 ==> Enabled(p, s, acts[0]) && IsRun(p, Apply(p, s, acts[0]), acts[1..])
  }

  function Run(p: Config, s: State, acts: seq<Action>): State
    requires p.size > 0 && IsRun(p, s, acts)
    decreases |acts|
  {
    if |acts| == 0 then s else Run(p, Apply(p, s, acts[0]), acts[1..])
  }

  /** The highest checkpoint of a run. */
  function Base(p: Config, s: State, acts: seq<Action>, base: nat): nat
    requires p.size > 0 && IsRun(p, s, acts)
    decreases |acts|
  {
    if |acts| == 0 then base
    else var t := Apply(p, s, acts[0]); Base(p, t, acts[1..], Max(base, t.index.checkpoint))
  }

  lemma {:induction false} RunKeeps(p: Config, s: State, base: nat, acts: seq<Action>)
    requires Configured(p) && Inv(p, s, base) && IsRun(p, s, acts)
    ensures Inv(p, Run(p, s, acts), Base(p, s, acts, base))
    decreases |acts|
  {
    hide Inv;
    if |acts| > 0 {
      var t := Apply(p, s, acts[0]);
      ActionKeeps(p, s, base, acts[0]);
      RunKeeps(p, t, Max(base, t.index.checkpoint), acts[1..]);
    }
  }

  /** An indexer whose database is still empty. Every later one is reached from it by a run, restarts included. */
  function Fresh(): State {
    State(Index(0, 0, 0, map[], 0, ZERO_HASH), Waiting)
  }

  // ----- What checking the last section head alone establishes

  /** If section j is canonical, so is every section before it down to the one before the base. */
  lemma {:induction false} CanonicalBelow(p: Config, x: Index, base: nat, view: Hash, j: nat, k: nat)
    requires Configured(p) && Chained(p, x, base)
    requires base <= j < x.stored && base <= k + 1 && k <= j
    requires IsCanonical(p, x, j, view)
    ensures k in x.heads && IsCanonical(p, x, k, view)
    decreases j
  {
    if k < j {
      assert Continues(p, x, j);
      EndIsNextStart(p, j - 1);
      AncestorCompose(p.headers, p.genesis, view, End(p, j), End(p, j - 1));
      if k < j - 1 {
        CanonicalBelow(p, x, base, view, j - 1, k);
      }
    }
  }

  lemma {:induction false} VerifyEndsCanonical(p: Config, x: Index, views: nat -> Hash, i: nat)
    requires p.size > 0
    ensures var y := Verify(p, x, views, i);
            y.stored > y.checkpoint ==> IsCanonical(p, y, y.stored - 1, views(LastRead(p, x, views, i)))
    decreases x.stored
  {
    hide CanonicalHash, SectionHead, IsCanonical;
    if x.stored > x.checkpoint && !IsCanonical(p, x, x.stored - 1, views(i)) {
      VerifyEndsCanonical(p, SetValid(x, x.stored - 1), views, i + 1);
    }
  }

  lemma FreshIsChained(p: Config)
    requires p.size > 0
    ensures Chained(p, Fresh().index, 0)
  {
  }

  /** In every interleaving with arbitrary chain switches and restarts: once the last head has been checked, every
      stored section from the highest checkpoint on, and the one before, ends on the hash that was canonical at the
      check's last read. */
  lemma VerifiedSectionsAreCanonical(p: Config, acts: seq<Action>, views: nat -> Hash, k: nat)
    requires Configured(p) && IsRun(p, Fresh(), acts)
    ensures var x, base := Run(p, Fresh(), acts).index, Base(p, Fresh(), acts, 0);
            var y := Verify(p, x, views, 0);
            base < y.stored && base <= k + 1 && k < y.stored ==>
              k in y.heads && IsCanonical(p, y, k, views(LastRead(p, x, views, 0)))
  {
    hide Chained, IsCanonical;
    FreshIsChained(p);
    RunKeeps(p, Fresh(), 0, acts);
    var x, base := Run(p, Fresh(), acts).index, Base(p, Fresh(), acts, 0);
    VerifyKeeps(p, x, base, views, 0);
    VerifyEndsCanonical(p, x, views, 0);
    var y := Verify(p, x, views, 0);
    if base < y.stored && base <= k + 1 && k < y.stored {
      CanonicalBelow(p, y, base, views(LastRead(p, x, views, 0)), y.stored - 1, k);
    }
  }

  /** In every interleaving, with restarts, the head of each stored section from the highest checkpoint on is the
      section-length descendant of the head stored before it. */
  lemma SectionsContinue(p: Config, acts: seq<Action>, j: nat)
    requires Configured(p) && IsRun(p, Fresh(), acts)
    ensures var x := Run(p, Fresh(), acts).index;
            Base(p, Fresh(), acts, 0) <= j < x.stored ==>
              && EndsSection(p, SectionHead(x, j), j)
              && (j > 0 ==> AncestorAt(p.headers, SectionHead(x, j), End(p, j - 1)) == SectionHead(x, j - 1))
  {
    FreshIsChained(p);
    RunKeeps(p, Fresh(), 0, acts);
    var x := Run(p, Fresh(), acts).index;
    if Base(p, Fresh(), acts, 0) <= j < x.stored {
      assert Continues(p, x, j);
    }
  }

  // ----- What a restart loses

  /** A restarted indexer has forgotten its checkpoint, so it takes all stored sections for its own. They are chained
      from the first one on if and only if those below the highest checkpoint continue each other too. */
  lemma ReloadIsExact(p: Config, x: Index, base: nat)
    requires Configured(p) && Chained(p, x, base)
    ensures Chained(p, Reloaded(x), 0) <==> forall j: nat | j < base && j < x.stored :: Continues(p, x, j)
  {
    var y := Reloaded(x);
    forall j: nat | j < x.stored
      ensures Continues(p, y, j) <==> Continues(p, x, j)
      ensures base <= j ==> Continues(p, x, j)
      ensures Continues(p, x, j) ==> j in y.heads
    {
    }
    if Chained(p, y, 0) {
      forall j: nat | j < base && j < x.stored
        ensures Continues(p, x, j)
      {
        assert Continues(p, y, j);
      }
    }
  }

  /** For an index that was chained from the first section on, a checkpoint survives a restart if and only if it is for
      the next section and its head continues the last one. */
  lemma CheckpointSurvivesRestart(p: Config, x: Index, section: nat, head: Hash)
    requires Configured(p) && Chained(p, x, 0) && x.checkpoint <= section && x.stored <= section
    ensures Chained(p, Reloaded(Checkpointed(x, section, head)), 0)
            <==> section == x.stored && EndsSection(p, head, section)
                 && (section > 0 ==> AncestorAt(p.headers, head, End(p, section - 1)) == x.heads[section - 1])
  {
    var y := Reloaded(Checkpointed(x, section, head));
    forall j: nat | j < x.stored
      ensures Continues(p, y, j)
    {
      assert Continues(p, x, j);
    }
    if Chained(p, y, 0) {
      assert Continues(p, y, section);
    }
  }

  lemma RunOfFour(p: Config, s: State, acts: seq<Action>)
    requires p.size > 0 && |acts| == 4 && Enabled(p, s, acts[0])
    requires var s1 := Apply(p, s, acts[0]);
             && Enabled(p, s1, acts[1])
             && var s2 := Apply(p, s1, acts[1]);
                Enabled(p, s2, acts[2]) && Enabled(p, Apply(p, s2, acts[2]), acts[3])
    ensures IsRun(p, s, acts)
    ensures Run(p, s, acts) == Apply(p, Apply(p, Apply(p, Apply(p, s, acts[0]), acts[1]), acts[2]), acts[3])
  {
    var s1 := Apply(p, s, acts[0]);
    var s2 := Apply(p, s1, acts[1]);
    var s3 := Apply(p, s2, acts[2]);
    var s4 := Apply(p, s3, acts[3]);
    var last := acts[1..][1..][1..];
    assert last == [acts[3]] && |last[1..]| == 0;
    assert IsRun(p, s4, last[1..]) && Run(p, s4, last[1..]) == s4;
    assert IsRun(p, s3, last) && Run(p, s3, last) == s4;
    assert IsRun(p, s2, acts[1..][1..]) && Run(p, s2, acts[1..][1..]) == s4;
    assert IsRun(p, s1, acts[1..]) && Run(p, s1, acts[1..]) == s4;
  }

  /** A checkpoint for section 3 on an empty index, a restart and the same checkpoint again: the second one is
      ignored, and on a chain that is still short the check stops at three stored sections of which none has a head. */
  lemma RestartForgetsCheckpoint()
    ensures exists p: Config, acts: seq<Action> ::
              && Configured(p) && IsRun(p, Fresh(), acts)
              && var x := Run(p, Fresh(), acts).index;
                 x.checkpoint == 0 && x.stored == 3 && x.heads == map[]
  {
    var g := Block(1, 0, 0, 0, 0, 0, 0, []);
    var p := Config(map[1 := g], 1, 1, 0);
    assert Attached(p.headers, 1, 1);
    var short: nat -> Hash := _ => 1;
    var acts := [AddCheckpoint(3, 9), Restart, AddCheckpoint(3, 9), Query(short)];
    var x1 := Index(4, 0, 0, map[3 := 9], 4, 9);
    var x2 := Index(4, 0, 0, map[3 := 9], 0, ZERO_HASH);
    var x3 := Index(3, 0, 0, map[], 0, ZERO_HASH);
    assert Checkpointed(Fresh().index, 3, 9) == x1;
    assert Checkpointed(x2, 3, 9) == x2;
    assert SetValid(x2, 3) == x3;
    assert End(p, 3) == 3 && End(p, 2) == 2;
    assert Verify(p, x3, short, 1) == x3;
    assert Verify(p, x2, short, 0) == x3;
    RunOfFour(p, Fresh(), acts);
  }

  /** While the chain stands still, the check drops exactly the sections that left it. */
  lemma {:induction false} VerifyIsExact(p: Config, x: Index, base: nat, view: Hash, i: nat, k: nat)
    requires Configured(p) && Chained(p, x, base) && x.checkpoint <= base
    requires base <= k < x.stored
    ensures k < Verify(p, x, _ => view, i).stored <==> IsCanonical(p, x, k, view)
    decreases x.stored
  {
    hide CanonicalHash;
    if IsCanonical(p, x, x.stored - 1, view) {
      CanonicalBelow(p, x, base, view, x.stored - 1, k);
    } else {
      var y := SetValid(x, x.stored - 1);
      SetValidKeeps(p, x, base, x.stored - 1);
      VerifyKeeps(p, y, base, _ => view, i + 1);
      if k < x.stored - 1 {
        VerifyIsExact(p, y, base, view, i + 1, k);
      }
    }
  }

  /** A reorg notice for the last common block keeps exactly the sections the new chain shares: if a section from the
      base on was on the chain to prev, it remains if and only if it is on the chain to next. */
  lemma ReorgIsExact(p: Config, x: Index, base: nat, prev: Hash, next: Hash, common: Hash, k: nat)
    requires Configured(p) && Chained(p, x, base) && x.checkpoint <= base
    requires HighestCommon(p.headers, prev, next, common)
    requires base <= k < x.stored && IsCanonical(p, x, k, prev)
    ensures k < Reorged(p, x, p.headers[common].number).stored <==> IsCanonical(p, x, k, next)
  {
    var n := p.headers[common].number;
    Divides(p, k, n);
    assert Continues(p, x, k);
    if End(p, k) <= n {
      SharedBelow(p.headers, p.genesis, prev, next, n);
    } else if IsCanonical(p, x, k, next) {
      assert IsAncestor(p.headers, x.heads[k], next);
    }
  }

  /** The hash before a section on the chain that ends on view. */
  function Anchor(p: Config, view: Hash, section: nat): Hash
    requires p.size > 0
  {
    if section == 0 then ZERO_HASH else CanonicalHash(p, view, End(p, section - 1))
  }

  /** While the chain stands still on view: what has been read so far lies on it, from lastHead on. */
  ghost predicate OnView(p: Config, view: Hash, section: nat, lastHead: Hash, head: Hash, number: nat)
    requires p.size > 0
  {
    number > Start(p, section) ==>
      && head == CanonicalHash(p, view, number - 1) != ZERO_HASH
      && lastHead == Anchor(p, view, section)
  }

  /** The chain that ends on view has all of the section, and passes through lastHead just before it. */
  ghost predicate Covers(p: Config, view: Hash, section: nat, lastHead: Hash)
    requires p.size > 0
  {
    CanonicalHash(p, view, End(p, section)) != ZERO_HASH && lastHead == Anchor(p, view, section)
  }

  /** The chain stands still, and neither a header nor the backend fails. */
  ghost predicate Calm(views: nat -> Hash, present: nat -> bool, processOk: nat -> bool) {
    (forall k :: present(k) && processOk(k)) && (forall k :: views(k) == views(0))
  }

  lemma CalmRead(p: Config, view: Hash, section: nat, lastHead: Hash, head: Hash, number: nat)
    requires Configured(p) && Start(p, section) <= number < Start(p, section + 1)
    requires OnView(p, view, section, lastHead, head, number)
    requires number == Start(p, section) ==> head == lastHead
    ensures var next := NextHead(p, head, number, view, true);
            && (next.Some? ==> OnView(p, view, section, lastHead, next.value, number + 1))
            && (next.None? ==> !Covers(p, view, section, lastHead))
  {
    EndIsNextStart(p, section);
    if view in p.headers && number <= p.headers[view].number {
      var hash := AncestorAt(p.headers, view, number);
      AncestorStored(p.headers, p.genesis, view, number);
      assert Attached(p.headers, p.genesis, hash);
      if number > 0 {
        AncestorCompose(p.headers, p.genesis, view, number, number - 1);
        assert AncestorAt(p.headers, hash, number - 1) == p.headers[hash].parent;
      }
      if section > 0 {
        EndIsNextStart(p, section - 1);
      }
    }
  }

  // ----- Progress

  /** A missing header and every error of the backend make the section fail. */
  lemma ErrorsFail(p: Config, s: State, a: Action)
    requires p.size > 0 && Enabled(p, s, a)
    requires a == Reset(false) || a == Commit(false) || (a.ReadHeader? && !(a.present && a.ok))
    ensures Apply(p, s, a).pc.Failed?
  {
  }

  /** After a section that could not be recorded the loop rests until more becomes known. */
  lemma FailureRests(p: Config, s: State, views: nat -> Hash, later: nat -> Hash)
    requires p.size > 0 && (s.pc.Failed? || (s.pc.Processed? && !StillContinues(s.index, s.pc.section, s.pc.oldHead)))
    ensures var t := Apply(p, s, Finish(views)); Apply(p, t, Begin(later)) == t
  {
    hide Verify;
  }

  function Still(view: Hash): nat -> Hash {
    (i: nat) => view
  }

  /** The rest of an update of which n headers are left to read, all from the chain that ends on view. */
  function Reading(view: Hash, n: nat): seq<Action> {
    if n == 0 then [Commit(true), Finish(Still(view))] else [ReadHeader(view, true, true)] + Reading(view, n - 1)
  }

  /** One round of the update loop. */
  function Update(p: Config, view: Hash): seq<Action> {
    [Begin(Still(view))] + ([Reset(true)] + Reading(view, p.size))
  }

  function Updates(p: Config, view: Hash, n: nat): seq<Action> {
    if n == 0 then [] else Update(p, view) + Updates(p, view, n - 1)
  }

  lemma RunCons(p: Config, s: State, a: Action, rest: seq<Action>)
    requires p.size > 0 && Enabled(p, s, a) && IsRun(p, Apply(p, s, a), rest)
    ensures IsRun(p, s, [a] + rest) && Run(p, s, [a] + rest) == Run(p, Apply(p, s, a), rest)
  {
    hide Enabled, Apply;
    assert ([a] + rest)[1..] == rest;
  }

  lemma {:induction false} RunAppend(p: Config, s: State, acts: seq<Action>, rest: seq<Action>)
    requires p.size > 0 && IsRun(p, s, acts) && IsRun(p, Run(p, s, acts), rest)
    ensures IsRun(p, s, acts + rest) && Run(p, s, acts + rest) == Run(p, Run(p, s, acts), rest)
    decreases |acts|
  {
    hide Enabled, Apply;
    if |acts| == 0 {
      assert acts + rest == rest;
    } else {
      RunAppend(p, Apply(p, s, acts[0]), acts[1..], rest);
      assert (acts + rest)[1..] == acts[1..] + rest;
    }
  }

  lemma ReadingEnds(p: Config, s: State, view: Hash)
    requires Configured(p) && s.pc.Processing? && s.pc.number == Start(p, s.pc.section + 1)
    requires StillContinues(s.index, s.pc.section, s.pc.oldHead)
    ensures IsRun(p, s, Reading(view, 0))
    ensures Run(p, s, Reading(view, 0)) == State(Recorded(p, s.index, s.pc.section, s.pc.lastHead), Waiting)
  {
    hide Recorded, GivenUp, StillContinues;
    var t := Apply(p, s, Commit(true));
    var none: seq<Action> := [];
    RunCons(p, t, Finish(Still(view)), none);
    RunCons(p, s, Commit(true), [Finish(Still(view))] + none);
    assert [Commit(true)] + ([Finish(Still(view))] + none) == Reading(view, 0);
  }

  lemma RunNone(p: Config, s: State)
    requires p.size > 0
    ensures IsRun(p, s, []) && Run(p, s, []) == s
  {
  }

  /** Processing on a chain that stands still and covers the section reads it to its end. */
  lemma {:induction false} ReadingRecords(p: Config, s: State, view: Hash, n: nat)
    requires Configured(p) && s.pc.Processing?
    requires Start(p, s.pc.section) <= s.pc.number == Start(p, s.pc.section + 1) - n
    requires OnView(p, view, s.pc.section, s.pc.oldHead, s.pc.lastHead, s.pc.number)
    requires s.pc.number == Start(p, s.pc.section) ==> s.pc.lastHead == s.pc.oldHead
    requires Covers(p, view, s.pc.section, s.pc.oldHead)
    requires StillContinues(s.index, s.pc.section, s.pc.oldHead)
    ensures IsRun(p, s, Reading(view, n))
    ensures Run(p, s, Reading(view, n))
            == State(Recorded(p, s.index, s.pc.section, CanonicalHash(p, view, End(p, s.pc.section))), Waiting)
    decreases n
  {
    hide CanonicalHash, Recorded, StillContinues, Covers, NextHead;
    EndIsNextStart(p, s.pc.section);
    if n == 0 {
      ReadingEnds(p, s, view);
    } else {
      CalmRead(p, view, s.pc.section, s.pc.oldHead, s.pc.lastHead, s.pc.number);
      var a := ReadHeader(view, true, true);
      ReadingRecords(p, Apply(p, s, a), view, n - 1);
      RunCons(p, s, a, Reading(view, n - 1));
    }
  }

  /** The chain that ends on view has the next section, and a head that the check takes from a checkpoint is on it. */
  ghost predicate Ready(p: Config, y: Index, view: Hash)
    requires p.size > 0
  {
    && view in p.headers && End(p, y.stored) <= p.headers[view].number
    && (0 < y.stored <= y.checkpoint ==> IsCanonical(p, y, y.stored - 1, view))
  }

  lemma ReadyCovers(p: Config, x: Index, view: Hash)
    requires Configured(p) && Ready(p, Verify(p, x, Still(view), 0), view)
    ensures var y := Verify(p, x, Still(view), 0);
            Covers(p, view, y.stored, LastSection(y)) && StillContinues(y, y.stored, LastSection(y))
  {
    hide Verify, LastRead;
    var y := Verify(p, x, Still(view), 0);
    AncestorStored(p.headers, p.genesis, view, End(p, y.stored));
    VerifyEndsCanonical(p, x, Still(view), 0);
  }

  /** One round of the update loop on a chain that stands still records the next section with its canonical head. */
  lemma UpdateRecords(p: Config, x: Index, view: Hash)
    requires Configured(p) && x.known > x.stored && Ready(p, Verify(p, x, Still(view), 0), view)
    ensures IsRun(p, State(x, Waiting), Update(p, view))
    ensures var y := Verify(p, x, Still(view), 0);
            Run(p, State(x, Waiting), Update(p, view))
            == State(Recorded(p, y, y.stored, CanonicalHash(p, view, End(p, y.stored))), Waiting)
  {
    hide Verify, CanonicalHash, Recorded, StillContinues, Covers, Ready, Reading, IsRun, Run, LastSection;
    var y := Verify(p, x, Still(view), 0);
    var s := State(x, Waiting);
    var reset := Apply(p, s, Begin(Still(view)));
    var processing := Apply(p, reset, Reset(true));
    ReadyCovers(p, x, view);
    EndIsNextStart(p, y.stored);
    ReadingRecords(p, processing, view, p.size);
    RunCons(p, reset, Reset(true), Reading(view, p.size));
    RunCons(p, s, Begin(Still(view)), [Reset(true)] + Reading(view, p.size));
  }

  /** The recorded section is the last one, its head canonical, and the others are as they were. */
  lemma RecordedNext(p: Config, y: Index, view: Hash)
    requires p.size > 0
    ensures var x := Recorded(p, y, y.stored, CanonicalHash(p, view, End(p, y.stored)));
            && x.stored == y.stored + 1 && x.known == y.known && x.checkpoint == y.checkpoint
            && IsCanonical(p, x, y.stored, view)
            && Verify(p, x, Still(view), 0) == x
            && forall k: nat | k < y.stored :: SectionHead(x, k) == SectionHead(y, k)
  {
    hide CanonicalHash;
  }

  /** The indexer catches up: while the chain stands still and has all known sections, as many rounds of the update
      loop as are missing leave all of them stored, with their canonical heads. */
  lemma {:induction false} CatchesUp(p: Config, x: Index, view: Hash, n: nat)
    requires Configured(p) && x.known > x.stored && Ready(p, Verify(p, x, Still(view), 0), view)
    requires End(p, x.known - 1) <= p.headers[view].number
    requires n == x.known - Verify(p, x, Still(view), 0).stored
    ensures IsRun(p, State(x, Waiting), Updates(p, view, n))
    ensures var y, t := Verify(p, x, Still(view), 0), Run(p, State(x, Waiting), Updates(p, view, n));
            && t.pc.Waiting? && t.index.stored == t.index.known == x.known
            && (forall k: nat | k < y.stored :: SectionHead(t.index, k) == SectionHead(y, k))
            && (forall k: nat | y.stored <= k < x.known :: IsCanonical(p, t.index, k, view))
    decreases n
  {
    hide CanonicalHash, Recorded, SectionHead, IsRun, Run, Update, Verify;
    var y := Verify(p, x, Still(view), 0);
    VerifyForgets(p, x, Still(view), 0);
    UpdateRecords(p, x, view);
    RecordedNext(p, y, view);
    var next := Recorded(p, y, y.stored, CanonicalHash(p, view, End(p, y.stored)));
    var s := State(next, Waiting);
    if n == 1 {
      RunNone(p, s);
      assert Updates(p, view, 0) == [];
    } else {
      StartsGrow(p, y.stored + 1, x.known - 1);
      CatchesUp(p, next, view, n - 1);
    }
    RunAppend(p, State(x, Waiting), Update(p, view), Updates(p, view, n - 1));
  }

  /** One round of the roll back. */
  lemma VerifyUnfolds(p: Config, x: Index, views: nat -> Hash, i: nat)
    requires p.size > 0
    ensures Verify(p, x, views, i)
            == if x.stored == 0 || x.stored <= x.checkpoint || IsCanonical(p, x, x.stored - 1, views(i)) then x
               else Verify(p, SetValid(x, x.stored - 1), views, i + 1)
  {
  }

  /** Subtracting one from an unsigned zero wraps around. */
  function Decrement(n: nat): nat {
    if n == 0 then MAX_UINT64 else n - 1
  }

  class ChainIndexer {
    const config: Config
    var storedSections: nat
    var knownSections: nat
    var cascadedHead: int
    var checkpointSections: nat
    var checkpointHead: Hash
    var count: nat                  // the section count in the index database
    var sectionHeads: map<nat, Hash>

    function Contents(): Index
      reads this
    {
      Index(storedSections, knownSections, cascadedHead, sectionHeads, checkpointSections, checkpointHead)
    }

    constructor (config: Config, count: nat, sectionHeads: map<nat, Hash>)
      ensures this.config == config && this.count == count
      ensures Contents() == Reloaded(Index(count, 0, 0, sectionHeads, 0, ZERO_HASH))
    {
      this.config, this.count, this.sectionHeads := config, count, sectionHeads;
      storedSections, knownSections, cascadedHead, checkpointSections, checkpointHead := count, 0, 0, 0, ZERO_HASH;
    }

    method SetValidSections(sections: nat)
      modifies `storedSections, `sectionHeads, `count
      ensures Contents() == SetValid(old(Contents()), sections)
      ensures count == sections
    {
      count := sections;
      while storedSections > sections
        invariant count == sections
        invariant storedSections <= old(storedSections)
        invariant storedSections < sections ==> storedSections == old(storedSections)
        invariant forall k ::
                    k in sectionHeads
                    <==> k in old(sectionHeads) && !(Max(storedSections, sections) <= k < old(storedSections))
        invariant forall k | k in sectionHeads :: sectionHeads[k] == old(sectionHeads)[k]
      {
        storedSections := storedSections - 1;
        sectionHeads := sectionHeads - {storedSections};
      }
      storedSections := sections;
      assert sectionHeads == SetValid(old(Contents()), sections).heads;
    }

    /** Checks only the last stored head, and rolls back one section at a time until it is canonical. */
    method VerifyLastHead(views: nat -> Hash)
      requires config.size > 0
      modifies `storedSections, `sectionHeads, `count
      ensures Contents() == Verify(config, old(Contents()), views, 0)
      ensures storedSections < old(storedSections) ==> count == storedSections
    {
      hide CanonicalHash, Verify, SectionHead;
      var i := 0;
      while storedSections > 0 && storedSections > checkpointSections
        invariant Verify(config, old(Contents()), views, 0) == Verify(config, Contents(), views, i)
        invariant storedSections <= old(storedSections)
        invariant storedSections < old(storedSections) ==> count == storedSections
        decreases storedSections
      {
        EndIsNextStart(config, storedSections - 1);
        VerifyUnfolds(config, Contents(), views, i);
        var canonical := CanonicalHash(config, views(i), storedSections * config.size - 1);
        if SectionHead(Contents(), storedSections - 1) == canonical {
          return;
        }
        SetValidSections(storedSections - 1);
        i := i + 1;
      }
      VerifyUnfolds(config, Contents(), views, i);
    }

    method NewHead(head: nat, reorg: bool, view: Hash)
      requires config.size > 0
      modifies this
      ensures Contents() == if reorg then Reorged(config, old(Contents()), head)
                            else Advanced(config, old(Contents()), head, view)
    {
      if reorg {
        var known := (head + 1) / config.size;
        var stored := known;
        if known < checkpointSections {
          known := 0;
        }
        if stored < checkpointSections {
          stored := checkpointSections;
        }
        if known < knownSections {
          knownSections := known;
        }
        if stored < storedSections {
          SetValidSections(stored);
        }
        if known * config.size < cascadedHead {
          cascadedHead := known * config.size;
        }
        return;
      }
      if head >= config.confirms {
        var sections := (head + 1 - config.confirms) / config.size;
        if sections < checkpointSections {
          sections := 0;
        }
        if sections > knownSections {
          if knownSections < checkpointSections {
            EndIsNextStart(config, checkpointSections - 1);
            if CanonicalHash(config, view, checkpointSections * config.size - 1) != checkpointHead {
              return;
            }
          }
          knownSections := sections;
        }
      }
    }

    method AddCheckpoint(section: nat, head: Hash)
      modifies this
      ensures Contents() == Checkpointed(old(Contents()), section, head)
    {
      if checkpointSections >= section + 1 || section < storedSections {
        return;
      }
      checkpointSections, checkpointHead := section + 1, head;
      sectionHeads := sectionHeads[section := head];
      SetValidSections(section + 1);
    }

    /** The answer names a block that was canonical at the last read, once a section above the checkpoint is stored. */
    method Sections(views: nat -> Hash) returns (sections: nat, number: nat, hash: Hash)
      requires config.size > 0
      modifies `storedSections, `sectionHeads, `count
      ensures Contents() == Verify(config, old(Contents()), views, 0)
      ensures sections == storedSections
      ensures number == if sections == 0 then MAX_UINT64 else End(config, sections - 1)
      ensures hash == SectionHead(Contents(), if sections == 0 then MAX_UINT64 else sections - 1)
      ensures sections > checkpointSections ==>
                hash == CanonicalHash(config, views(LastRead(config, old(Contents()), views, 0)), number)
    {
      ghost var before := Contents();
      VerifyLastHead(views);
      sections, number := storedSections, Decrement(storedSections * config.size);
      hash := SectionHead(Contents(), Decrement(storedSections));
      if sections > 0 {
        EndIsNextStart(config, sections - 1);
      }
      VerifyEndsCanonical(config, before, views, 0);
    }

    /** The locked part of the update loop before processing. */
    method BeginUpdate(views: nat -> Hash) returns (busy: bool, section: nat, oldHead: Hash)
      requires config.size > 0
      modifies `storedSections, `sectionHeads, `count
      ensures busy == (old(knownSections) > old(storedSections))
      ensures var s := Apply(config, State(old(Contents()), Waiting), Begin(views));
              s == State(Contents(), if busy then Resetting(section, oldHead) else Waiting)
    {
      busy, section, oldHead := knownSections > storedSections, 0, ZERO_HASH;
      if busy {
        VerifyLastHead(views);
        section := storedSections;
        if section > 0 {
          oldHead := SectionHead(Contents(), section - 1);
        }
      }
    }

    /** Processing reads one header at a time, each from the chain that is canonical just then; a run that succeeds
        is still a chain of parents from lastHead over exactly the section's numbers. While the chain stands still
        and the backend does not fail, it succeeds if and only if that chain covers the section and passes through
        lastHead. */
    method ProcessSection(section: nat, lastHead: Hash, resetOk: bool, views: nat -> Hash, present: nat -> bool,
                          processOk: nat -> bool, commitOk: bool) returns (head: Hash, ok: bool)
      requires config.size > 0
      modifies `storedSections, `sectionHeads, `count
      ensures resetOk ==> unchanged(this)
      ensures !resetOk ==> !ok && Contents() == SetValid(old(Contents()), 0)
      ensures ok ==> resetOk && commitOk && forall i: nat | i < config.size :: present(i) && processOk(i)
      ensures ok && Configured(config) ==>
                && EndsSection(config, head, section)
                && (section > 0 ==> AncestorAt(config.headers, head, End(config, section - 1)) == lastHead)
      ensures Configured(config) && Calm(views, present, processOk) && resetOk && commitOk ==>
                (ok <==> Covers(config, views(0), section, lastHead))
    {
      head, ok := ZERO_HASH, false;
      EndIsNextStart(config, section);
      if !resetOk {
        SetValidSections(0);
        return;
      }
      ghost var good := Configured(config);
      ghost var calm := good && Calm(views, present, processOk);
      var last, number := lastHead, section * config.size;
      while number < (section + 1) * config.size
        invariant Start(config, section) <= number <= Start(config, section + 1)
        invariant unchanged(this)
        invariant forall i: nat | i < number - section * config.size :: present(i) && processOk(i)
        invariant good ==> Extends(config, section, lastHead, last, number)
        invariant calm ==> OnView(config, views(0), section, lastHead, last, number)
      {
        var i := number - section * config.size;
        var next := NextHead(config, last, number, views(i), present(i));
        if good && next.Some? {
          NextHeadExtends(config, section, lastHead, last, number, views(i), present(i));
        }
        if calm {
          CalmRead(config, views(0), section, lastHead, last, number);
        }
        if next.None? || !processOk(i) {
          return;
        }
        last, number := next.value, number + 1;
      }
      if !commitOk {
        return;
      }
      head, ok := last, true;
    }

    /** The locked part of the update loop after processing. */
    method FinishUpdate(section: nat, oldHead: Hash, newHead: Hash, ok: bool, views: nat -> Hash)
      requires config.size > 0
      modifies this
      ensures var pc := if ok then Processed(section, oldHead, newHead) else Failed;
              State(Contents(), Waiting) == Apply(config, State(old(Contents()), pc), Finish(views))
    {
      if ok && (section == 0 || oldHead == SectionHead(Contents(), section - 1)) {
        sectionHeads := sectionHeads[section := newHead];
        SetValidSections(section + 1);
        EndIsNextStart(config, section);
        cascadedHead := storedSections * config.size - 1;
      } else {
        VerifyLastHead(views);
        knownSections := storedSections;
      }
    }
  }
}
