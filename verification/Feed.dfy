/** The feed's delivery protocol as a state machine: any number of subscribers and unsubscribers interleave with the
    one Send that holds the send lock. Each action is one critical section or one channel operation of the source. */
module Feeds {
  import opened CaseLists

  /** How far the Unsubscribe call of a subscription has come. */
  datatype Phase = Live | Removing | Pending | Gone

  datatype Subscription = Subscription(ch: Chan, phase: Phase)

  /** Where the Send holding the lock is: Locked before it merges the inbox, Trying(i) in the fast path at case i,
      Selecting in the blocking select. Idle means that the lock is free. */
  datatype Pc = Idle | Locked | Trying(i: nat) | Selecting

  /** What happened to the channels merged by the current Send. */
  datatype Log = Log(
    merged: multiset<Chan>,     // all cases at the start
    delivered: multiset<Chan>,  // sent to
    dropped: multiset<Chan>,    // removed before they were sent to
    late: multiset<Chan>        // removed after they were sent to
  )

  datatype State = State(
    subs: seq<Subscription>,
    inbox: seq<Chan>,
    sendCases: seq<Chan>,
    active: nat,
    pc: Pc,
    nsent: nat,
    panicked: bool,
    log: Log
  )

  datatype Action =
    | Subscribe(ch: Chan)
    | Unsubscribe(id: nat)
    | InboxCheck(id: nat)
    | RemoveLocked(id: nat)
    | Lock
    | Merge
    | TrySend(ok: bool)
    | LoopEnd
    | SelectDeliver(k: nat)
    | SelectRemove(id: nat)

  const EMPTY_LOG := Log(multiset{}, multiset{}, multiset{}, multiset{})

  function Init(): State {
    State([], [], [REMOVE_SUB], FIRST_SUB, Idle, 0, false, EMPTY_LOG)
  }

  predicate InPhase(s: State, id: nat, p: Phase) {
    id < |s.subs| && s.subs[id].phase == p
  }

  predicate Enabled(s: State, a: Action) {
    match a
    case Subscribe(ch) => ch != REMOVE_SUB
    case Unsubscribe(id) => InPhase(s, id, Live)
    case InboxCheck(id) => InPhase(s, id, Removing)
    case RemoveLocked(id) => InPhase(s, id, Pending) && s.pc.Idle?
    case Lock => s.pc.Idle?
    case Merge => s.pc.Locked?
    case TrySend(ok) => s.pc.Trying? && s.pc.i < s.active <= |s.sendCases|
    case LoopEnd => s.pc.Trying? && s.pc.i >= s.active
    case SelectDeliver(k) => s.pc.Selecting? && FIRST_SUB <= k < s.active <= |s.sendCases|
    case SelectRemove(id) => s.pc.Selecting? && InPhase(s, id, Pending)
  }

  function SetPhase(s: State, id: nat, p: Phase): State
    requires id < |s.subs|
  {
    s.(subs := s.subs[id := s.subs[id].(phase := p)])
  }

  /** A send on case i succeeded: count it and move the case behind the prefix. */
  function Deliver(s: State, i: nat): State
    requires i < s.active <= |s.sendCases|
  {
    s.(sendCases := Swapped(s.sendCases, i, s.active - 1), active := s.active - 1, nsent := s.nsent + 1,
       log := s.log.(delivered := s.log.delivered + multiset{s.sendCases[i]}))
  }

  /** delete(find(ch)) on the full list; index -1 panics. */
  function DeleteCase(s: State, ch: Chan): State {
    var k := Find(s.sendCases, ch);
    if k < 0 then s.(panicked := true) else s.(sendCases := Deleted(s.sendCases, k))
  }

  /** The removal branch of the select: the prefix shrinks with the list if the case was still in it. */
  function RemoveWhileSending(s: State, ch: Chan): State {
    var k := Find(s.sendCases, ch);
    if k < 0 then s.(panicked := true)
    else if k < s.active then
      s.(sendCases := Deleted(s.sendCases, k), active := s.active - 1,
         log := s.log.(dropped := s.log.dropped + multiset{ch}))
    else
      s.(sendCases := Deleted(s.sendCases, k), log := s.log.(late := s.log.late + multiset{ch}))
  }

  function Apply(s: State, a: Action): State
    requires Enabled(s, a)
  {
    match a
    case Subscribe(ch) => s.(subs := s.subs + [Subscription(ch, Live)], inbox := s.inbox + [ch])
    case Unsubscribe(id) => SetPhase(s, id, Removing)
    case InboxCheck(id) =>
      var k := Find(s.inbox, s.subs[id].ch);
      if k >= 0 then SetPhase(s, id, Gone).(inbox := Deleted(s.inbox, k)) else SetPhase(s, id, Pending)
    case RemoveLocked(id) => DeleteCase(SetPhase(s, id, Gone), s.subs[id].ch)
    case Lock => s.(pc := Locked)
    case Merge =>
      var cases := s.sendCases + s.inbox;
      s.(sendCases := cases, inbox := [], active := |cases|, pc := Trying(FIRST_SUB), nsent := 0,
         log := EMPTY_LOG.(merged := multiset(cases) - multiset{REMOVE_SUB}))
    case TrySend(ok) => if ok then Deliver(s, s.pc.i) else s.(pc := Trying(s.pc.i + 1))
    case LoopEnd => if s.active == FIRST_SUB then s.(pc := Idle) else s.(pc := Selecting)
    case SelectDeliver(k) => Deliver(s, k).(pc := Trying(FIRST_SUB))
    case SelectRemove(id) => RemoveWhileSending(SetPhase(s, id, Gone), s.subs[id].ch).(pc := Trying(FIRST_SUB))
  }

  // ----- Invariants

  function One(sub: Subscription, phases: set<Phase>): multiset<Chan> {
    if sub.phase in phases then multiset{sub.ch} else multiset{}
  }

  /** The channels of the subscriptions in one of the given phases. */
  function Tally(subs: seq<Subscription>, phases: set<Phase>): multiset<Chan> {
    if subs == [] then multiset{} else Tally(subs[..|subs| - 1], phases) + One(subs[|subs| - 1], phases)
  }

  const OUTSTANDING: set<Phase> := {Live, Removing, Pending}

  ghost predicate Shaped(s: State) {
    && |s.sendCases| >= FIRST_SUB
    && s.sendCases[0] == REMOVE_SUB
    && REMOVE_SUB !in s.sendCases[FIRST_SUB..]
    && REMOVE_SUB !in s.inbox
    && forall i | 0 <= i < |s.subs| :: s.subs[i].ch != REMOVE_SUB
  }

  ghost function Subscribed(s: State): multiset<Chan> {
    if |s.sendCases| < FIRST_SUB then multiset{} else multiset(s.sendCases[FIRST_SUB..])
  }

  ghost predicate BalancedParts(subs: seq<Subscription>, inbox: multiset<Chan>, cases: multiset<Chan>) {
    inbox + cases == Tally(subs, OUTSTANDING) && Tally(subs, {Pending}) <= cases
  }

  /** Every subscription not yet removed has one case, and every pending remover one in sendCases. */
  ghost predicate Balanced(s: State) {
    BalancedParts(s.subs, multiset(s.inbox), Subscribed(s))
  }

  ghost predicate Tallied(front: multiset<Chan>, back: multiset<Chan>, log: Log) {
    front + log.delivered + log.dropped == log.merged && back + log.late == log.delivered
  }

  /** The prefix holds what is still to be sent, the rest what was sent and not removed. */
  ghost predicate AccountedParts(cases: seq<Chan>, active: nat, nsent: nat, log: Log) {
    && FIRST_SUB <= active <= |cases|
    && Tallied(multiset(cases[FIRST_SUB..active]), multiset(cases[active..]), log)
    && nsent == |log.delivered|
  }

  ghost predicate Accounted(s: State) {
    s.pc.Trying? || s.pc.Selecting? ==>
      && AccountedParts(s.sendCases, s.active, s.nsent, s.log)
      && (s.pc.Trying? ==> FIRST_SUB <= s.pc.i <= s.active)
  }

  /** The blocking select is entered only with a case left to serve. */
  predicate Waits(s: State) {
    s.pc.Selecting? ==> s.active > FIRST_SUB
  }

  ghost predicate Inv(s: State) {
    !s.panicked && Shaped(s) && Balanced(s) && Accounted(s) && Waits(s)
  }

  // ----- Lemmas about slices and tallies

  lemma Exchanged(front: seq<Chan>, mid: seq<Chan>, x: Chan, y: Chan)
    ensures multiset(front + [y] + mid) + multiset{x} == multiset(front + [x] + mid + [y])
  {
  }

  lemma SwapFront(cs: seq<Chan>, i: nat, a: nat)
    requires FIRST_SUB <= i < a <= |cs|
    ensures multiset(Swapped(cs, i, a - 1)[FIRST_SUB..a - 1]) + multiset{cs[i]} == multiset(cs[FIRST_SUB..a])
  {
    var r := Swapped(cs, i, a - 1);
    var front := cs[FIRST_SUB..i];
    if i == a - 1 {
      assert r[FIRST_SUB..a - 1] == front;
      assert cs[FIRST_SUB..a] == front + [cs[i]];
    } else {
      var mid := cs[i + 1..a - 1];
      assert cs[FIRST_SUB..a] == front + [cs[i]] + mid + [cs[a - 1]];
      assert r[FIRST_SUB..a - 1] == front + [cs[a - 1]] + mid;
      Exchanged(front, mid, cs[i], cs[a - 1]);
    }
  }

  lemma SwapBack(cs: seq<Chan>, i: nat, a: nat)
    requires FIRST_SUB <= i < a <= |cs|
    ensures var r := Swapped(cs, i, a - 1);
            |r| == |cs| && r[0] == cs[0] && multiset(r[a - 1..]) == multiset(cs[a..]) + multiset{cs[i]}
  {
    assert Swapped(cs, i, a - 1)[a - 1..] == [cs[i]] + cs[a..];
  }

  lemma SliceContents(cs: seq<Chan>, a: nat)
    requires FIRST_SUB <= a <= |cs|
    ensures multiset(cs[FIRST_SUB..]) == multiset(cs[FIRST_SUB..a]) + multiset(cs[a..])
  {
    assert cs[FIRST_SUB..] == cs[FIRST_SUB..a] + cs[a..];
  }

  lemma SwapSlices(cs: seq<Chan>, i: nat, a: nat)
    requires FIRST_SUB <= i < a <= |cs|
    ensures var r := Swapped(cs, i, a - 1);
            && |r| == |cs| && r[0] == cs[0]
            && multiset(r[FIRST_SUB..a - 1]) + multiset{cs[i]} == multiset(cs[FIRST_SUB..a])
            && multiset(r[a - 1..]) == multiset(cs[a..]) + multiset{cs[i]}
            && multiset(r[FIRST_SUB..]) == multiset(cs[FIRST_SUB..])
  {
    var r := Swapped(cs, i, a - 1);
    SwapFront(cs, i, a);
    SwapBack(cs, i, a);
    hide Swapped;
    SliceContents(r, a - 1);
    SliceContents(cs, a);
  }

  lemma DeleteSlices(cs: seq<Chan>, k: nat, a: nat)
    requires FIRST_SUB <= k < |cs| && FIRST_SUB <= a <= |cs|
    ensures var r := Deleted(cs, k);
            && |r| == |cs| - 1 && r[0] == cs[0]
            && multiset(r[FIRST_SUB..]) + multiset{cs[k]} == multiset(cs[FIRST_SUB..])
            && (k < a ==>
                 multiset(r[FIRST_SUB..a - 1]) + multiset{cs[k]} == multiset(cs[FIRST_SUB..a]) && r[a - 1..] == cs[a..])
            && (k >= a ==>
                 r[FIRST_SUB..a] == cs[FIRST_SUB..a] && multiset(r[a..]) + multiset{cs[k]} == multiset(cs[a..]))
  {
    var r := Deleted(cs, k);
    assert cs[FIRST_SUB..] == cs[FIRST_SUB..k] + [cs[k]] + cs[k + 1..];
    assert r[FIRST_SUB..] == cs[FIRST_SUB..k] + cs[k + 1..];
    if k < a {
      assert cs[FIRST_SUB..a] == cs[FIRST_SUB..k] + [cs[k]] + cs[k + 1..a];
      assert r[FIRST_SUB..a - 1] == cs[FIRST_SUB..k] + cs[k + 1..a];
    } else {
      assert cs[a..] == cs[a..k] + [cs[k]] + cs[k + 1..];
      assert r[a..] == cs[a..k] + cs[k + 1..];
    }
  }

  lemma Regroup(a: multiset<Chan>, b: multiset<Chan>, c: multiset<Chan>, x: multiset<Chan>, y: multiset<Chan>)
    requires a + x == b + y
    ensures a + c + x == b + c + y
  {
    assert a + c + x == (a + x) + c;
    assert b + c + y == (b + y) + c;
  }

  lemma {:induction false} TallySet(subs: seq<Subscription>, phases: set<Phase>, id: nat, p: Phase)
    requires id < |subs|
    ensures var next := subs[id := subs[id].(phase := p)];
            Tally(next, phases) + One(subs[id], phases) == Tally(subs, phases) + One(next[id], phases)
  {
    var n := |subs| - 1;
    var next := subs[id := subs[id].(phase := p)];
    if id < n {
      TallySet(subs[..n], phases, id, p);
      assert next[..n] == subs[..n][id := subs[id].(phase := p)];
      Regroup(Tally(next[..n], phases), Tally(subs[..n], phases), One(subs[n], phases), One(subs[id], phases),
              One(next[id], phases));
    } else {
      assert next[..n] == subs[..n];
    }
  }

  lemma {:induction false} TallySplit(subs: seq<Subscription>, p: set<Phase>, q: set<Phase>)
    requires p !! q
    ensures Tally(subs, p + q) == Tally(subs, p) + Tally(subs, q)
  {
    if subs != [] {
      TallySplit(subs[..|subs| - 1], p, q);
    }
  }

  lemma {:induction false} TallyHas(subs: seq<Subscription>, phases: set<Phase>, id: nat)
    requires id < |subs| && subs[id].phase in phases
    ensures subs[id].ch in Tally(subs, phases)
  {
    if id < |subs| - 1 {
      TallyHas(subs[..|subs| - 1], phases, id);
    }
  }

  lemma TallySnoc(subs: seq<Subscription>, phases: set<Phase>, sub: Subscription)
    ensures Tally(subs + [sub], phases) == Tally(subs, phases) + One(sub, phases)
  {
    assert (subs + [sub])[..|subs|] == subs;
  }

  function WithPhase(subs: seq<Subscription>, id: nat, p: Phase): seq<Subscription>
    requires id < |subs|
  {
    subs[id := subs[id].(phase := p)]
  }

  lemma Cancel(a: multiset<Chan>, b: multiset<Chan>, ch: Chan)
    requires a + multiset{ch} == b + multiset{ch}
    ensures a == b
  {
    assert a == (a + multiset{ch}) - multiset{ch};
    assert b == (b + multiset{ch}) - multiset{ch};
  }

  lemma TallyKept(subs: seq<Subscription>, phases: set<Phase>, id: nat, p: Phase)
    requires id < |subs| && (subs[id].phase in phases <==> p in phases)
    ensures Tally(WithPhase(subs, id, p), phases) == Tally(subs, phases)
  {
    hide Tally;
    TallySet(subs, phases, id, p);
    var a, b := Tally(WithPhase(subs, id, p), phases), Tally(subs, phases);
    if p in phases {
      Cancel(a, b, subs[id].ch);
    } else {
      assert a + multiset{} == a && b + multiset{} == b;
    }
  }

  lemma TallyLost(subs: seq<Subscription>, phases: set<Phase>, id: nat, p: Phase)
    requires id < |subs| && subs[id].phase in phases && p !in phases
    ensures Tally(WithPhase(subs, id, p), phases) + multiset{subs[id].ch} == Tally(subs, phases)
  {
    hide Tally;
    TallySet(subs, phases, id, p);
  }

  lemma TallyGained(subs: seq<Subscription>, phases: set<Phase>, id: nat, p: Phase)
    requires id < |subs| && subs[id].phase !in phases && p in phases
    ensures Tally(WithPhase(subs, id, p), phases) == Tally(subs, phases) + multiset{subs[id].ch}
  {
    hide Tally;
    TallySet(subs, phases, id, p);
  }

  // ----- Every action keeps the balance of cases and subscriptions

  lemma SubscribeBalances(subs: seq<Subscription>, inbox: multiset<Chan>, cases: multiset<Chan>, ch: Chan)
    requires BalancedParts(subs, inbox, cases)
    ensures BalancedParts(subs + [Subscription(ch, Live)], inbox + multiset{ch}, cases)
  {
    hide Tally;
    TallySnoc(subs, OUTSTANDING, Subscription(ch, Live));
    TallySnoc(subs, {Pending}, Subscription(ch, Live));
    assert inbox + multiset{ch} + cases == (inbox + cases) + multiset{ch};
  }

  lemma UnsubscribeBalances(subs: seq<Subscription>, inbox: multiset<Chan>, cases: multiset<Chan>, id: nat)
    requires BalancedParts(subs, inbox, cases)
    requires id < |subs| && subs[id].phase == Live
    ensures BalancedParts(WithPhase(subs, id, Removing), inbox, cases)
  {
    hide Tally;
    TallyKept(subs, OUTSTANDING, id, Removing);
    TallyKept(subs, {Pending}, id, Removing);
  }

  lemma InboxRemovalBalances(subs: seq<Subscription>, inbox: multiset<Chan>, cases: multiset<Chan>, id: nat)
    requires id < |subs| && subs[id].phase == Removing
    requires BalancedParts(subs, inbox + multiset{subs[id].ch}, cases)
    ensures BalancedParts(WithPhase(subs, id, Gone), inbox, cases)
  {
    hide Tally;
    TallyLost(subs, OUTSTANDING, id, Gone);
    TallyKept(subs, {Pending}, id, Gone);
    assert inbox + multiset{subs[id].ch} + cases == (inbox + cases) + multiset{subs[id].ch};
    Cancel(inbox + cases, Tally(WithPhase(subs, id, Gone), OUTSTANDING), subs[id].ch);
  }

  lemma RoomFor(inbox: multiset<Chan>, cases: multiset<Chan>, pending: multiset<Chan>, other: multiset<Chan>, ch: Chan)
    requires inbox + cases == pending + other && pending <= cases
    requires ch !in inbox && ch in other
    ensures pending + multiset{ch} <= cases
  {
    assert (inbox + cases)[ch] == pending[ch] + other[ch];
  }

  /** A remover whose channel is not in the inbox finds room among the cases: its own subscription is outstanding and
      not yet counted as pending. */
  lemma PendingBalances(subs: seq<Subscription>, inbox: multiset<Chan>, cases: multiset<Chan>, id: nat)
    requires BalancedParts(subs, inbox, cases)
    requires id < |subs| && subs[id].phase == Removing && subs[id].ch !in inbox
    ensures BalancedParts(WithPhase(subs, id, Pending), inbox, cases)
  {
    hide Tally;
    var ch := subs[id].ch;
    TallyKept(subs, OUTSTANDING, id, Pending);
    TallyGained(subs, {Pending}, id, Pending);
    TallySplit(subs, {Pending}, {Live, Removing});
    assert {Pending} + {Live, Removing} == OUTSTANDING;
    TallyHas(subs, {Live, Removing}, id);
    RoomFor(inbox, cases, Tally(subs, {Pending}), Tally(subs, {Live, Removing}), ch);
  }

  lemma CancelWithin(a: multiset<Chan>, b: multiset<Chan>, ch: Chan)
    requires a + multiset{ch} <= b + multiset{ch}
    ensures a <= b
  {
    forall c
      ensures a[c] <= b[c]
    {
      assert (a + multiset{ch})[c] <= (b + multiset{ch})[c];
    }
  }

  lemma RemovalBalances(subs: seq<Subscription>, inbox: multiset<Chan>, cases: multiset<Chan>, id: nat)
    requires id < |subs| && subs[id].phase == Pending
    requires BalancedParts(subs, inbox, cases + multiset{subs[id].ch})
    ensures BalancedParts(WithPhase(subs, id, Gone), inbox, cases)
  {
    hide Tally;
    var ch := subs[id].ch;
    TallyLost(subs, OUTSTANDING, id, Gone);
    TallyLost(subs, {Pending}, id, Gone);
    assert inbox + (cases + multiset{ch}) == (inbox + cases) + multiset{ch};
    Cancel(inbox + cases, Tally(WithPhase(subs, id, Gone), OUTSTANDING), ch);
    CancelWithin(Tally(WithPhase(subs, id, Gone), {Pending}), cases, ch);
  }

  // ----- Every action keeps the invariant

  lemma DeletedContents(cs: seq<Chan>, k: nat)
    requires k < |cs|
    ensures multiset(cs) == multiset(Deleted(cs, k)) + multiset{cs[k]}
    ensures forall x | x in Deleted(cs, k) :: x in cs
  {
    assert cs == cs[..k] + [cs[k]] + cs[k + 1..];
  }

  lemma InboxCheckKeeps(s: State, id: nat)
    requires Inv(s) && InPhase(s, id, Removing)
    ensures Inv(Apply(s, InboxCheck(id)))
  {
    hide BalancedParts;
    var ch := s.subs[id].ch;
    var k := Find(s.inbox, ch);
    if k >= 0 {
      DeletedContents(s.inbox, k);
      InboxRemovalBalances(s.subs, multiset(Deleted(s.inbox, k)), Subscribed(s), id);
    } else {
      PendingBalances(s.subs, multiset(s.inbox), Subscribed(s), id);
    }
  }

  /** A pending remover's channel is among the cases, in a slot after removeSub. */
  lemma PendingIsFound(s: State, id: nat)
    requires Inv(s) && InPhase(s, id, Pending)
    ensures Find(s.sendCases, s.subs[id].ch) >= FIRST_SUB
  {
    hide Tally;
    TallyHas(s.subs, {Pending}, id);
    assert s.subs[id].ch in s.sendCases[FIRST_SUB..];
  }

  lemma DeletedKeepsShape(s: State, k: nat)
    requires Shaped(s) && FIRST_SUB <= k < |s.sendCases|
    ensures Shaped(s.(sendCases := Deleted(s.sendCases, k)))
  {
    var r := Deleted(s.sendCases, k);
    assert r[FIRST_SUB..] == s.sendCases[FIRST_SUB..k] + s.sendCases[k + 1..];
  }

  lemma RemoveLockedKeeps(s: State, id: nat)
    requires Inv(s) && InPhase(s, id, Pending) && s.pc.Idle?
    ensures Inv(Apply(s, RemoveLocked(id)))
  {
    hide BalancedParts;
    PendingIsFound(s, id);
    var k := Find(s.sendCases, s.subs[id].ch);
    DeleteSlices(s.sendCases, k, FIRST_SUB);
    RemovalBalances(s.subs, multiset(s.inbox), multiset(Deleted(s.sendCases, k)[FIRST_SUB..]), id);
    DeletedKeepsShape(s, k);
  }

  /** A Send starts with all its cases still to be served. */
  lemma MergeAccounts(cases: seq<Chan>)
    requires |cases| >= FIRST_SUB && cases[0] == REMOVE_SUB
    ensures AccountedParts(cases, |cases|, 0, EMPTY_LOG.(merged := multiset(cases) - multiset{REMOVE_SUB}))
  {
    assert cases == [REMOVE_SUB] + cases[FIRST_SUB..];
    assert cases[FIRST_SUB..|cases|] == cases[FIRST_SUB..];
    assert cases[|cases|..] == [];
  }

  lemma MergeKeeps(s: State)
    requires Inv(s) && s.pc.Locked?
    ensures Inv(Apply(s, Merge))
  {
    hide Tally, AccountedParts;
    var cases := s.sendCases + s.inbox;
    assert cases[FIRST_SUB..] == s.sendCases[FIRST_SUB..] + s.inbox;
    MergeAccounts(cases);
  }

  lemma DeliverKeepsCases(s: State, i: nat)
    requires Shaped(s) && Balanced(s) && FIRST_SUB <= i < s.active <= |s.sendCases|
    ensures Shaped(Deliver(s, i)) && Balanced(Deliver(s, i))
  {
    hide BalancedParts, Swapped;
    SwapSlices(s.sendCases, i, s.active);
    var r := Swapped(s.sendCases, i, s.active - 1);
    assert REMOVE_SUB !in multiset(s.sendCases[FIRST_SUB..]);
    assert REMOVE_SUB !in r[FIRST_SUB..];
  }

  lemma MovedToDelivered(front: multiset<Chan>, back: multiset<Chan>, log: Log, ch: Chan)
    requires Tallied(front + multiset{ch}, back, log)
    ensures Tallied(front, back + multiset{ch}, log.(delivered := log.delivered + multiset{ch}))
  {
    assert front + (log.delivered + multiset{ch}) + log.dropped == (front + multiset{ch}) + log.delivered + log.dropped;
    assert (back + multiset{ch}) + log.late == (back + log.late) + multiset{ch};
  }

  lemma DeliveredParts(cases: seq<Chan>, active: nat, nsent: nat, log: Log, i: nat)
    requires AccountedParts(cases, active, nsent, log) && FIRST_SUB <= i < active
    ensures AccountedParts(Swapped(cases, i, active - 1), active - 1, nsent + 1,
                           log.(delivered := log.delivered + multiset{cases[i]}))
  {
    hide Tallied, Swapped;
    SwapSlices(cases, i, active);
    MovedToDelivered(multiset(Swapped(cases, i, active - 1)[FIRST_SUB..active - 1]), multiset(cases[active..]), log,
                     cases[i]);
  }

  lemma DeliverAccounted(s: State, i: nat)
    requires Accounted(s) && (s.pc.Trying? || s.pc.Selecting?)
    requires FIRST_SUB <= i < s.active <= |s.sendCases| && (s.pc.Trying? ==> s.pc.i <= i)
    ensures Accounted(Deliver(s, i))
  {
    hide AccountedParts, Swapped;
    DeliveredParts(s.sendCases, s.active, s.nsent, s.log, i);
  }

  /** The fast path may start over from the first case. */
  lemma StartOver(s: State)
    requires Shaped(s) && Balanced(s) && Accounted(s) && (s.pc.Trying? || s.pc.Selecting?)
    ensures var t := s.(pc := Trying(FIRST_SUB)); Shaped(t) && Balanced(t) && Accounted(t)
  {
    hide BalancedParts, Tallied;
  }

  lemma PartsInRange(cases: seq<Chan>, active: nat, nsent: nat, log: Log)
    requires AccountedParts(cases, active, nsent, log)
    ensures FIRST_SUB <= active <= |cases|
  {
  }

  lemma DeliverKeeps(s: State, i: nat)
    requires Inv(s) && (s.pc.Trying? || s.pc.Selecting?)
    requires FIRST_SUB <= i < s.active && (s.pc.Trying? ==> s.pc.i <= i)
    ensures s.pc.Trying? ==> Inv(Deliver(s, i))
    ensures Inv(Deliver(s, i).(pc := Trying(FIRST_SUB)))
  {
    hide Shaped, Balanced, AccountedParts, Swapped;
    PartsInRange(s.sendCases, s.active, s.nsent, s.log);
    DeliverKeepsCases(s, i);
    DeliverAccounted(s, i);
    StartOver(Deliver(s, i));
  }

  lemma MovedToDropped(front: multiset<Chan>, back: multiset<Chan>, log: Log, ch: Chan)
    requires Tallied(front + multiset{ch}, back, log)
    ensures Tallied(front, back, log.(dropped := log.dropped + multiset{ch}))
  {
    assert front + log.delivered + (log.dropped + multiset{ch}) == (front + multiset{ch}) + log.delivered + log.dropped;
  }

  /** A removal keeps the account: the case was still to be sent. */
  lemma DroppedParts(cases: seq<Chan>, active: nat, nsent: nat, log: Log, k: nat)
    requires AccountedParts(cases, active, nsent, log) && FIRST_SUB <= k < active
    ensures AccountedParts(Deleted(cases, k), active - 1, nsent, log.(dropped := log.dropped + multiset{cases[k]}))
  {
    hide Tallied, Deleted;
    var r := Deleted(cases, k);
    DeleteSlices(cases, k, active);
    MovedToDropped(multiset(r[FIRST_SUB..active - 1]), multiset(r[active - 1..]), log, cases[k]);
  }

  lemma MovedToLate(front: multiset<Chan>, back: multiset<Chan>, log: Log, ch: Chan)
    requires Tallied(front, back + multiset{ch}, log)
    ensures Tallied(front, back, log.(late := log.late + multiset{ch}))
  {
    assert back + (log.late + multiset{ch}) == (back + multiset{ch}) + log.late;
  }

  /** A removal keeps the account: the case was already served. */
  lemma LateParts(cases: seq<Chan>, active: nat, nsent: nat, log: Log, k: nat)
    requires AccountedParts(cases, active, nsent, log) && active <= k < |cases|
    ensures AccountedParts(Deleted(cases, k), active, nsent, log.(late := log.late + multiset{cases[k]}))
  {
    hide Tallied, Deleted;
    var r := Deleted(cases, k);
    DeleteSlices(cases, k, active);
    MovedToLate(multiset(r[FIRST_SUB..active]), multiset(r[active..]), log, cases[k]);
  }

  lemma RemovalAccounted(s: State, ch: Chan)
    requires Accounted(s) && s.pc.Selecting? && Find(s.sendCases, ch) >= FIRST_SUB
    ensures Accounted(RemoveWhileSending(s, ch).(pc := Trying(FIRST_SUB)))
  {
    hide AccountedParts, Find, Deleted;
    var k := Find(s.sendCases, ch);
    PartsInRange(s.sendCases, s.active, s.nsent, s.log);
    if k < s.active {
      DroppedParts(s.sendCases, s.active, s.nsent, s.log, k);
    } else {
      LateParts(s.sendCases, s.active, s.nsent, s.log, k);
    }
  }

  lemma SubsOutsideAccount(s: State, id: nat)
    requires id < |s.subs| && Accounted(s)
    ensures Accounted(SetPhase(s, id, Gone))
  {
  }

  lemma SelectRemoveKeeps(s: State, id: nat)
    requires Inv(s) && s.pc.Selecting? && InPhase(s, id, Pending)
    ensures Inv(Apply(s, SelectRemove(id)))
  {
    hide BalancedParts, Accounted, Find, Deleted;
    PendingIsFound(s, id);
    var ch := s.subs[id].ch;
    var k := Find(s.sendCases, ch);
    var r := Deleted(s.sendCases, k);
    DeleteSlices(s.sendCases, k, FIRST_SUB);
    RemovalBalances(s.subs, multiset(s.inbox), multiset(r[FIRST_SUB..]), id);
    DeletedKeepsShape(s, k);
    SubsOutsideAccount(s, id);
    RemovalAccounted(SetPhase(s, id, Gone), ch);
  }

  lemma SubscribeKeeps(s: State, ch: Chan)
    requires Inv(s) && ch != REMOVE_SUB
    ensures Inv(Apply(s, Subscribe(ch)))
  {
    hide BalancedParts, Tallied;
    SubscribeBalances(s.subs, multiset(s.inbox), Subscribed(s), ch);
  }

  lemma UnsubscribeKeeps(s: State, id: nat)
    requires Inv(s) && InPhase(s, id, Live)
    ensures Inv(Apply(s, Unsubscribe(id)))
  {
    hide BalancedParts, Tallied;
    UnsubscribeBalances(s.subs, multiset(s.inbox), Subscribed(s), id);
  }

  /** Steps that only move the program counter of Send. */
  lemma MoveKeeps(s: State, a: Action)
    requires Inv(s) && Enabled(s, a) && (a.Lock? || a.LoopEnd? || a == TrySend(false))
    ensures Inv(Apply(s, a))
  {
    hide BalancedParts, Tallied;
  }

  lemma ActionKeeps(s: State, a: Action)
    requires Inv(s) && Enabled(s, a)
    ensures Inv(Apply(s, a))
  {
    hide Shaped, Balanced, Tallied, Find, Swapped, Deleted;
    match a
    case Subscribe(ch) => SubscribeKeeps(s, ch);
    case Unsubscribe(id) => UnsubscribeKeeps(s, id);
    case InboxCheck(id) => InboxCheckKeeps(s, id);
    case RemoveLocked(id) => RemoveLockedKeeps(s, id);
    case Lock => MoveKeeps(s, a);
    case Merge => MergeKeeps(s);
    case TrySend(ok) => if ok { DeliverKeeps(s, s.pc.i); } else { MoveKeeps(s, a); }
    case LoopEnd => MoveKeeps(s, a);
    case SelectDeliver(k) => DeliverKeeps(s, k);
    case SelectRemove(id) => SelectRemoveKeeps(s, id);
  }

  // ----- Runs

  predicate IsRun(s: State, acts: seq<Action>)
    decreases |acts|
  {
    acts != [] ==> Enabled(s, acts[0]) && IsRun(Apply(s, acts[0]), acts[1..])
  }

  function Run(s: State, acts: seq<Action>): State
    requires IsRun(s, acts)
    decreases |acts|
  {
    if acts == [] then s else Run(Apply(s, acts[0]), acts[1..])
  }

  lemma {:induction false} RunKeeps(s: State, acts: seq<Action>)
    requires Inv(s) && IsRun(s, acts)
    ensures Inv(Run(s, acts))
    decreases |acts|
  {
    if acts != [] {
      ActionKeeps(s, acts[0]);
      RunKeeps(Apply(s, acts[0]), acts[1..]);
    }
  }

  lemma RunFromInit(acts: seq<Action>)
    requires IsRun(Init(), acts)
    ensures Inv(Run(Init(), acts))
  {
    RunKeeps(Init(), acts);
  }

  /** In every interleaving: the cases in the inbox and in sendCases are the outstanding subscriptions, no channel
      has more pending removers than cases, and no delete(find(ch)) ever sees index -1. */
  lemma EveryRunIsBalanced(acts: seq<Action>)
    requires IsRun(Init(), acts)
    ensures var s := Run(Init(), acts);
            && !s.panicked
            && multiset(s.inbox) + Subscribed(s) == Tally(s.subs, OUTSTANDING)
            && Tally(s.subs, {Pending}) <= Subscribed(s)
            && forall id: nat | InPhase(s, id, Pending) :: Find(s.sendCases, s.subs[id].ch) >= FIRST_SUB
  {
    RunFromInit(acts);
    var s := Run(Init(), acts);
    forall id: nat | InPhase(s, id, Pending)
      ensures Find(s.sendCases, s.subs[id].ch) >= FIRST_SUB
    {
      PendingIsFound(s, id);
    }
  }

  lemma MergedContents(cases: seq<Chan>, inbox: seq<Chan>)
    requires |cases| >= FIRST_SUB && cases[0] == REMOVE_SUB
    ensures multiset(cases + inbox) - multiset{REMOVE_SUB} == multiset(inbox) + multiset(cases[FIRST_SUB..])
  {
    assert cases == [REMOVE_SUB] + cases[FIRST_SUB..];
    assert multiset(cases) == multiset{REMOVE_SUB} + multiset(cases[FIRST_SUB..]);
  }

  /** A Send takes on every subscription outstanding when it merges the inbox. */
  lemma MergeTakesAll(s: State)
    requires Inv(s) && s.pc.Locked?
    ensures Apply(s, Merge).log.merged == Tally(s.subs, OUTSTANDING)
  {
    hide Tally, Tallied, AccountedParts;
    MergedContents(s.sendCases, s.inbox);
  }

  /** With nothing left in the prefix, every case was delivered to or dropped. */
  lemma AllServed(cases: seq<Chan>, nsent: nat, log: Log)
    requires AccountedParts(cases, FIRST_SUB, nsent, log)
    ensures |cases| >= FIRST_SUB && log.merged == log.delivered + log.dropped && nsent == |log.delivered|
    ensures log.delivered == multiset(cases[FIRST_SUB..]) + log.late
  {
    assert cases[FIRST_SUB..FIRST_SUB] == [];
    assert log.merged == multiset{} + log.delivered + log.dropped;
  }

  /** When a Send returns, in every interleaving: each case merged at its start was sent to once or removed before; the
      survivors were all sent to, and are what sendCases holds; the result is the number of deliveries. */
  lemma SendOutcome(acts: seq<Action>)
    requires IsRun(Init(), acts)
    requires var s := Run(Init(), acts); Enabled(s, LoopEnd) && s.active == FIRST_SUB
    ensures var s := Run(Init(), acts);
            && s.log.merged == s.log.delivered + s.log.dropped
            && s.log.delivered == Subscribed(s) + s.log.late
            && s.nsent == |s.log.delivered|
            && Apply(s, LoopEnd) == s.(pc := Idle)
  {
    hide Shaped, Balanced, AccountedParts, IsRun, Run;
    RunFromInit(acts);
    var s := Run(Init(), acts);
    AllServed(s.sendCases, s.nsent, s.log);
  }

  // ----- What a run does to the subscriptions

  function Channels(subs: seq<Subscription>): seq<Chan> {
    seq(|subs|, i requires 0 <= i < |subs| => subs[i].ch)
  }

  /** The channels of the Subscribe calls of a run, in order. */
  function Subscribes(acts: seq<Action>): seq<Chan> {
    if acts == [] then [] else (if acts[0].Subscribe? then [acts[0].ch] else []) + Subscribes(acts[1..])
  }

  function PhaseOf(s: State, id: nat): Phase {
    if id < |s.subs| then s.subs[id].phase else Live
  }

  lemma ActionSubscribes(s: State, a: Action)
    requires Enabled(s, a)
    ensures Channels(Apply(s, a).subs) == Channels(s.subs) + if a.Subscribe? then [a.ch] else []
  {
    hide Find, Deleted, Swapped;
  }

  lemma ActionPhases(s: State, a: Action, id: nat)
    requires Enabled(s, a)
    ensures PhaseOf(Apply(s, a), id).Live? <==> PhaseOf(s, id).Live? && a != Unsubscribe(id)
    ensures PhaseOf(Apply(s, a), id) in {Live, Removing} <==> PhaseOf(s, id) in {Live, Removing} && a != InboxCheck(id)
    ensures a in {RemoveLocked(id), SelectRemove(id)} || PhaseOf(s, id).Gone? ==> PhaseOf(Apply(s, a), id).Gone?
  {
    hide Find, Deleted, Swapped;
  }

  lemma {:induction false} RunSubscribes(s: State, acts: seq<Action>)
    requires IsRun(s, acts)
    ensures Channels(Run(s, acts).subs) == Channels(s.subs) + Subscribes(acts)
    decreases |acts|
  {
    hide Apply, Enabled, Channels;
    if acts != [] {
      ActionSubscribes(s, acts[0]);
      RunSubscribes(Apply(s, acts[0]), acts[1..]);
    }
  }

  lemma {:induction false} RunPhases(s: State, acts: seq<Action>, id: nat)
    requires IsRun(s, acts)
    ensures PhaseOf(Run(s, acts), id).Live? <==> PhaseOf(s, id).Live? && Unsubscribe(id) !in acts
    ensures PhaseOf(Run(s, acts), id) in {Live, Removing}
            <==> PhaseOf(s, id) in {Live, Removing} && InboxCheck(id) !in acts
    ensures RemoveLocked(id) in acts || SelectRemove(id) in acts || PhaseOf(s, id).Gone? ==>
              PhaseOf(Run(s, acts), id).Gone?
    decreases |acts|
  {
    hide Apply, Enabled, PhaseOf;
    if acts != [] {
      ActionPhases(s, acts[0], id);
      RunPhases(Apply(s, acts[0]), acts[1..], id);
      assert acts == [acts[0]] + acts[1..];
    }
  }

  /** After every run the subscriptions are those of its Subscribe calls, in their order. One is live if and only if its
      Unsubscribe has not been called, it has looked into the inbox if and only if that step was taken, and it is gone
      once a removal was. */
  lemma SubscriptionsFollowRun(acts: seq<Action>, id: nat)
    requires IsRun(Init(), acts)
    ensures var s := Run(Init(), acts);
            && Channels(s.subs) == Subscribes(acts)
            && (id < |s.subs| ==>
                  && (InPhase(s, id, Live) <==> Unsubscribe(id) !in acts)
                  && (InPhase(s, id, Live) || InPhase(s, id, Removing) <==> InboxCheck(id) !in acts)
                  && (RemoveLocked(id) in acts || SelectRemove(id) in acts ==> InPhase(s, id, Gone)))
  {
    RunSubscribes(Init(), acts);
    RunPhases(Init(), acts, id);
  }

  // ----- What a Send does

  /** The Send that holds the lock is never stuck by itself: it can merge, go through its fast path, or it waits for at
      least one receiver. */
  lemma SendCanStep(acts: seq<Action>)
    requires IsRun(Init(), acts)
    ensures var s := Run(Init(), acts);
            match s.pc
            case Idle => Enabled(s, Lock)
            case Locked => Enabled(s, Merge)
            case Trying(i) => Enabled(s, TrySend(true)) || Enabled(s, LoopEnd)
            case Selecting => Enabled(s, SelectDeliver(FIRST_SUB))
  {
    hide Shaped, Balanced, Tallied, Apply;
    RunFromInit(acts);
  }

  predicate IsDelivery(a: Action) {
    a == TrySend(true) || a.SelectDeliver?
  }

  /** The successful sends of a run. */
  function Deliveries(acts: seq<Action>): nat {
    if acts == [] then 0 else (if IsDelivery(acts[0]) then 1 else 0) + Deliveries(acts[1..])
  }

  /** The removals of a run that the blocking select served. */
  function Removals(acts: seq<Action>): nat {
    if acts == [] then 0 else (if acts[0].SelectRemove? then 1 else 0) + Removals(acts[1..])
  }

  predicate InLoop(s: State) {
    s.pc.Trying? || s.pc.Selecting?
  }

  /** The actions of a run that stay inside one Send's loops. */
  predicate StaysInLoop(s: State, acts: seq<Action>)
    requires IsRun(s, acts)
    decreases |acts|
  {
    InLoop(s) && (acts != [] ==> StaysInLoop(Apply(s, acts[0]), acts[1..]))
  }

  lemma ActionCounts(s: State, a: Action)
    requires Inv(s) && Enabled(s, a) && InLoop(s) && InLoop(Apply(s, a))
    ensures var t := Apply(s, a);
            && t.nsent == s.nsent + (if IsDelivery(a) then 1 else 0)
            && |t.log.dropped| + |t.log.late| == |s.log.dropped| + |s.log.late| + (if a.SelectRemove? then 1 else 0)
            && t.log.merged == s.log.merged
  {
    hide Balanced, Tallied, Find, Deleted, Swapped;
    if a.SelectRemove? {
      PendingIsFound(s, a.id);
    }
  }

  /** Every successful send of a Send is counted once, and so is every removal it serves. */
  lemma {:induction false} SendCounts(s: State, acts: seq<Action>)
    requires Inv(s) && IsRun(s, acts) && StaysInLoop(s, acts)
    ensures var t := Run(s, acts);
            && t.nsent == s.nsent + Deliveries(acts)
            && |t.log.dropped| + |t.log.late| == |s.log.dropped| + |s.log.late| + Removals(acts)
            && t.log.merged == s.log.merged
    decreases |acts|
  {
    hide Inv, Apply, Enabled;
    if acts != [] {
      ActionKeeps(s, acts[0]);
      ActionCounts(s, acts[0]);
      SendCounts(Apply(s, acts[0]), acts[1..]);
    }
  }

  lemma RunCons(s: State, a: Action, rest: seq<Action>)
    requires Enabled(s, a) && IsRun(Apply(s, a), rest)
    ensures IsRun(s, [a] + rest) && Run(s, [a] + rest) == Run(Apply(s, a), rest)
  {
    hide Enabled, Apply;
    assert ([a] + rest)[1..] == rest;
  }

  /** The fast path if every receiver is ready. */
  function ReadySends(n: nat): seq<Action> {
    if n == 0 then [LoopEnd] else [TrySend(true)] + ReadySends(n - 1)
  }

  lemma {:induction false} FastPathServes(s: State, n: nat)
    requires Inv(s) && s.pc == Trying(FIRST_SUB) && s.active == n + FIRST_SUB
    ensures IsRun(s, ReadySends(n))
    ensures var t := Run(s, ReadySends(n));
            && t.pc.Idle? && t.subs == s.subs && t.log.merged == s.log.merged && t.log.dropped == s.log.dropped
            && t.log.delivered + t.log.dropped == t.log.merged && t.nsent == |t.log.delivered|
    decreases n
  {
    hide Shaped, Balanced, AccountedParts, Swapped;
    PartsInRange(s.sendCases, s.active, s.nsent, s.log);
    if n == 0 {
      AllServed(s.sendCases, s.nsent, s.log);
      RunCons(s, LoopEnd, []);
      assert [LoopEnd] + [] == ReadySends(0);
    } else {
      ActionKeeps(s, TrySend(true));
      FastPathServes(Apply(s, TrySend(true)), n - 1);
      RunCons(s, TrySend(true), ReadySends(n - 1));
    }
  }

  lemma MergeCount(s: State)
    requires Inv(s) && s.pc.Locked?
    ensures var t := Apply(s, Merge);
            && t.pc == Trying(FIRST_SUB) && t.active == |Tally(s.subs, OUTSTANDING)| + FIRST_SUB
            && t.log.merged == Tally(s.subs, OUTSTANDING) && t.log.dropped == multiset{} && t.subs == s.subs
  {
    hide Tally;
    MergeTakesAll(s);
    assert |multiset(s.inbox)| == |s.inbox|;
    assert |multiset(s.sendCases[FIRST_SUB..])| == |s.sendCases| - FIRST_SUB;
    assert |multiset(s.inbox) + multiset(s.sendCases[FIRST_SUB..])| == |s.inbox| + (|s.sendCases| - FIRST_SUB);
  }

  lemma ReadySend(s: State)
    requires Inv(s) && s.pc.Idle?
    ensures var all := Tally(s.subs, OUTSTANDING);
            var send := [Lock, Merge] + ReadySends(|all|);
            && IsRun(s, send)
            && var t := Run(s, send); t.pc.Idle? && t.log.delivered == all && t.nsent == |all|
  {
    hide Inv, Tally, ReadySends;
    var all := Tally(s.subs, OUTSTANDING);
    var locked := Apply(s, Lock);
    ActionKeeps(s, Lock);
    ActionKeeps(locked, Merge);
    MergeCount(locked);
    var rest := ReadySends(|all|);
    FastPathServes(Apply(locked, Merge), |all|);
    RunCons(locked, Merge, rest);
    RunCons(s, Lock, [Merge] + rest);
    assert [Lock] + ([Merge] + rest) == [Lock, Merge] + rest;
  }

  /** From every reachable state in which the lock is free, a Send whose receivers are all ready serves every
      outstanding subscription exactly once, returns their number and frees the lock. */
  lemma ReadySendServesAll(acts: seq<Action>)
    requires IsRun(Init(), acts) && Run(Init(), acts).pc.Idle?
    ensures var s := Run(Init(), acts);
            var all := Tally(s.subs, OUTSTANDING);
            var send := [Lock, Merge] + ReadySends(|all|);
            && IsRun(s, send)
            && var t := Run(s, send); t.pc.Idle? && t.log.delivered == all && t.nsent == |all|
  {
    hide Tally;
    RunFromInit(acts);
    ReadySend(Run(Init(), acts));
  }

  // ----- Termination

  predicate IsSendStep(a: Action) {
    a.TrySend? || a.LoopEnd? || a.SelectDeliver? || a.SelectRemove?
  }

  /** Bounds the steps the loops of Send have left, for a list of len cases of which active are still in the prefix and
      a fast path with ahead cases to go. */
  function RankOf(len: nat, active: nat, ahead: nat): nat {
    (len + active) * (len + 2) + ahead
  }

  function Ahead(s: State): nat {
    if s.pc.Trying? && s.pc.i <= s.active then s.active - s.pc.i + 1 else 0
  }

  function Rank(s: State): nat {
    RankOf(|s.sendCases|, s.active, Ahead(s))
  }

  /** A delivery shortens the prefix by one; the fast path may start over. */
  lemma RankDelivered(len: nat, active: nat, ahead: nat, again: nat)
    requires 0 < active <= len && again <= active
    ensures RankOf(len, active - 1, again) < RankOf(len, active, ahead)
  {
    assert (len + active) * (len + 2) == (len + (active - 1)) * (len + 2) + (len + 2);
  }

  /** A removal shortens the list, and the prefix or not; the fast path starts over. */
  lemma RankRemoved(len: nat, active: nat, after: nat, again: nat)
    requires after <= active <= len && 0 < len && again <= active
    ensures RankOf(len - 1, after, again) < RankOf(len, active, 0)
  {
    assert (len + active) * (len + 2) == (len - 1 + active) * (len + 1) + (len + 1) + (len + active);
    assert (len - 1 + active) * (len + 1) == (len - 1 + after) * (len + 1) + (active - after) * (len + 1);
    assert (active - after) * (len + 1) >= 0;
  }

  lemma SelectRemoveRanks(s: State, id: nat)
    requires Inv(s) && s.pc.Selecting? && InPhase(s, id, Pending)
    ensures Rank(Apply(s, SelectRemove(id))) < Rank(s)
  {
    hide RankOf, BalancedParts, Tallied, Find;
    PendingIsFound(s, id);
    var t := Apply(s, SelectRemove(id));
    RankRemoved(|s.sendCases|, s.active, t.active, Ahead(t));
  }

  lemma DeliveryRanks(s: State, i: nat, pc: Pc)
    requires InLoop(s) && FIRST_SUB <= i < s.active <= |s.sendCases|
    requires pc.Trying? && FIRST_SUB <= pc.i
    ensures Rank(Deliver(s, i).(pc := pc)) < Rank(s)
  {
    hide RankOf;
    RankDelivered(|s.sendCases|, s.active, Ahead(s), Ahead(Deliver(s, i).(pc := pc)));
  }

  lemma StepRanks(s: State, a: Action)
    requires Inv(s) && Enabled(s, a) && InLoop(s) && InLoop(Apply(s, a))
    ensures IsSendStep(a) ==> Rank(Apply(s, a)) < Rank(s)
    ensures !IsSendStep(a) ==> Rank(Apply(s, a)) == Rank(s)
  {
    hide Balanced, Shaped, Tallied, Find, Deleted, Swapped;
    match a
    case TrySend(ok) => if ok { DeliveryRanks(s, s.pc.i, s.pc); }
    case SelectDeliver(k) => DeliveryRanks(s, k, Trying(FIRST_SUB));
    case SelectRemove(id) => SelectRemoveRanks(s, id);
    case _ =>
  }

  function SendSteps(acts: seq<Action>): nat {
    if acts == [] then 0 else (if IsSendStep(acts[0]) then 1 else 0) + SendSteps(acts[1..])
  }

  /** Send terminates: whatever subscribers and removers do meanwhile, its loops take at most Rank(s) more steps. */
  lemma {:induction false} SendTerminates(s: State, acts: seq<Action>)
    requires Inv(s) && IsRun(s, acts) && StaysInLoop(s, acts)
    ensures SendSteps(acts) <= Rank(s)
    decreases |acts|
  {
    hide Inv, Rank;
    if acts != [] {
      ActionKeeps(s, acts[0]);
      StepRanks(s, acts[0]);
      SendTerminates(Apply(s, acts[0]), acts[1..]);
    }
  }

  // ----- Progress of removers

  /** Steps of a Send that need neither a receiver nor another goroutine. */
  predicate NeedsNobody(a: Action) {
    a == Merge || a == TrySend(false) || a == LoopEnd
  }

  /** The rest of the fast path if no receiver is ready. */
  function FailedTries(n: nat): seq<Action> {
    if n == 0 then [LoopEnd] else [TrySend(false)] + FailedTries(n - 1)
  }

  lemma {:induction false} FastPathEnds(s: State, n: nat)
    requires s.pc.Trying? && s.pc.i <= s.active <= |s.sendCases| && n == s.active - s.pc.i
    ensures var acts := FailedTries(n);
            && |acts| == n + 1 && (forall a | a in acts :: NeedsNobody(a))
            && IsRun(s, acts) && Run(s, acts) == s.(pc := if s.active == FIRST_SUB then Idle else Selecting)
    decreases n
  {
    var acts := FailedTries(n);
    if n == 0 {
      assert acts[1..] == [];
    } else {
      FastPathEnds(Apply(s, TrySend(false)), n - 1);
      assert acts[1..] == FailedTries(n - 1);
    }
  }

  /** What the Send that holds the lock does until it waits or is done, if no receiver is ready. */
  function Clearing(s: State): seq<Action> {
    match s.pc
    case Locked => [Merge] + FailedTries(if s.sendCases == [] then 0 else |s.sendCases| + |s.inbox| - FIRST_SUB)
    case Trying(i) => if i <= s.active then FailedTries(s.active - i) else []
    case _ => []
  }

  lemma MergeLength(s: State)
    requires Shaped(s) && s.pc.Locked?
    ensures s.sendCases != []
            && FIRST_SUB <= Apply(s, Merge).active == |s.sendCases| + |s.inbox| == |Apply(s, Merge).sendCases|
  {
  }

  lemma ClearsAfterMerge(s: State)
    requires Shaped(s) && s.pc.Locked?
    ensures var acts := Clearing(s);
            && IsRun(s, acts) && (forall a | a in acts :: NeedsNobody(a)) && |acts| <= |s.sendCases| + |s.inbox| + 2
            && Run(s, acts).subs == s.subs && (Run(s, acts).pc.Idle? || Run(s, acts).pc.Selecting?)
  {
    hide Shaped;
    MergeLength(s);
    var t := Apply(s, Merge);
    var rest := FailedTries(t.active - FIRST_SUB);
    FastPathEnds(t, t.active - FIRST_SUB);
    RunCons(s, Merge, rest);
  }

  lemma SendClears(s: State)
    requires Shaped(s) && Accounted(s)
    ensures var acts := Clearing(s);
            && IsRun(s, acts) && (forall a | a in acts :: NeedsNobody(a))
            && |acts| <= (if s.pc.Locked? then |s.sendCases| + |s.inbox| else s.active) + 2
            && Run(s, acts).subs == s.subs && (Run(s, acts).pc.Idle? || Run(s, acts).pc.Selecting?)
  {
    hide Shaped, AccountedParts, Apply, Enabled;
    match s.pc
    case Locked => ClearsAfterMerge(s);
    case Trying(i) =>
      PartsInRange(s.sendCases, s.active, s.nsent, s.log);
      FastPathEnds(s, s.active - i);
    case _ =>
  }

  /** A pending remover is never held up by a Send that waits for its receivers: from every state the Send alone, in at
      most as many steps as it has cases and two more, comes to a point where the remover can act. */
  lemma RemoverProgresses(s: State, id: nat)
    requires Inv(s) && InPhase(s, id, Pending)
    ensures var acts := Clearing(s);
            && IsRun(s, acts) && (forall a | a in acts :: NeedsNobody(a))
            && |acts| <= (if s.pc.Locked? then |s.sendCases| + |s.inbox| else s.active) + 2
            && var t := Run(s, acts); Enabled(t, RemoveLocked(id)) || Enabled(t, SelectRemove(id))
  {
    hide Shaped, Balanced, Accounted, Clearing, IsRun, Run, NeedsNobody;
    SendClears(s);
  }
}
