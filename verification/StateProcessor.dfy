/** The transaction loop of a block: one gas pool and one running total of gas for all its transactions. */
module StateProcessors {
  import opened BlockTree
  import opened GasPools
  import opened Ledger
  import opened StateTransitions
  import opened Words

  datatype Tx = Tx(msg: Message, signed: bool)

  datatype Receipt = Receipt(cumulativeGasUsed: Uint64, gasUsed: Uint64, failed: bool)

  datatype Status = Processed | Invalid(index: nat) | Crashed(index: nat)

  ghost function WorldOf(state: StateDB, gp: GasPool): World
    reads state, gp
  {
    World(state.balances, state.nonces, state.contracts, gp.gas)
  }

  method ApplyMessage(gp: GasPool, state: StateDB, rules: Rules, msg: Message, fx: Effects) returns (out: Outcome)
    requires |msg.data| <= MAX_UINT64
    modifies gp, state`balances, state`nonces
    ensures out == old(Verdict(WorldOf(state, gp), msg, rules, fx))
    ensures out.Done? ==> WorldOf(state, gp) == old(Next(WorldOf(state, gp), msg, rules, fx))
  {
    hide Verdict, Next;
    var st := new StateTransition(gp, state, rules, msg);
    out := st.TransitionDb(fx);
  }

  /** Given that the EVM and the hooks only use gas up, an applied message returns to the pool all but the gas it used,
      which is within its limit; the pool never overflows. */
  lemma PoolAfterMessage(w: World, msg: Message, rules: Rules, fx: Effects)
    requires |msg.data| <= MAX_UINT64 && GasOnlyShrinks(msg.gasLimit, fx)
    ensures !Verdict(w, msg, rules, fx).Panicked?
    ensures var out := Verdict(w, msg, rules, fx);
            out.Done? ==>
              && Next(w, msg, rules, fx).pool == w.pool - (if fx.endTxNow then 0 else out.usedGas)
              && (!fx.endTxNow ==> out.usedGas <= msg.gasLimit)
  {
    hide FinalGas, Wrap, Plus, Get, Settled, Bought, Objection, Refusal;
    var left := FinalGas(msg.gasLimit, fx, RefundQuotient(rules));
    RefundCapped(msg.gasLimit, fx, RefundQuotient(rules));
    WrapsOnce(msg.gasLimit, left);
    if Verdict(w, msg, rules, fx).Done? && !fx.endTxNow {
      Fits(w.pool - msg.gasLimit + left);
    }
  }

  ghost function Burnt(used: Uint64, rules: Rules, fx: Effects): nat {
    if fx.endTxNow then 0 else used * rules.baseFee
  }

  lemma TotalBurn(before: Sheet, after: Sheet, sent: Message, rules: Rules, fx: Effects)
    requires (fx.endTxNow || Priced(sent, rules)) && GasOnlyShrinks(sent.gasLimit, fx)
    requires fx.endTxNow ==> after == Plus(before, fx.start)
    requires !fx.endTxNow ==>
               forall a ::
                 Get(after, a) == Get(before, a) + Get(Changes(WithoutTip(sent, rules, fx.dropTip), rules, fx), a)
    ensures var used := Wrap(sent.gasLimit - FinalGas(sent.gasLimit, fx, RefundQuotient(rules)));
            Total(after) == Total(before) + OutsideTotal(fx) - Burnt(used, rules, fx)
  {
    hide FinalGas, Changes, Wrap, Total;
    if fx.endTxNow {
      TotalOfPlus(before, fx.start);
    } else {
      RefundCapped(sent.gasLimit, fx, RefundQuotient(rules));
      TotalOfChange(before, Changes(WithoutTip(sent, rules, fx.dropTip), rules, fx), after);
      BurnsByFinalGas(sent, rules, fx);
    }
  }

  /** An accepted message that was priced under the base fee has a cap that covers it. */
  lemma AcceptedIsPriced(w: World, tx: Message, rules: Rules, fx: Effects)
    requires |tx.data| <= MAX_UINT64 && rules.london && !rules.noBaseFee && !fx.endTxNow
    requires Verdict(w, ToMessage(tx, Some(rules.baseFee)), rules, fx).Done?
    ensures Priced(ToMessage(tx, Some(rules.baseFee)), rules)
  {
    hide FinalGas, Wrap, Plus, Get, Bought, Objection, Refusal;
    var msg := ToMessage(tx, Some(rules.baseFee));
    ObjectionExact(WithoutTip(msg, rules, fx.dropTip), rules, Get(Plus(w.balances, fx.start), msg.from),
                   Nonce(w.nonces, msg.from), msg.from in w.contracts, w.pool);
  }

  /** And under the base fee it burns exactly the base fee of the gas it used, apart from what the EVM and the hooks
      do. */
  lemma BurnOfMessage(w: World, msg: Message, rules: Rules, fx: Effects)
    requires |msg.data| <= MAX_UINT64 && GasOnlyShrinks(msg.gasLimit, fx) && (fx.endTxNow || Priced(msg, rules))
    requires Verdict(w, msg, rules, fx).Done?
    ensures Total(Next(w, msg, rules, fx).balances)
            == Total(w.balances) + OutsideTotal(fx) - Burnt(Verdict(w, msg, rules, fx).usedGas, rules, fx)
  {
    hide FinalGas, Wrap, Plus, Get, Settled, Bought, Objection, Refusal, Total, OutsideTotal, Changes;
    if !fx.endTxNow {
      forall a
        ensures Get(Next(w, msg, rules, fx).balances, a)
                == Get(w.balances, a) + Get(Changes(WithoutTip(msg, rules, fx.dropTip), rules, fx), a)
      {
        NextChanges(w, msg, rules, fx, a);
      }
    }
    TotalBurn(w.balances, Next(w, msg, rules, fx).balances, msg, rules, fx);
  }

  // ----- The block

  /** A block's transactions, with what the EVM and the hooks do for each, and its header's gas limit and base fee. */
  datatype Body = Body(txs: seq<Tx>, fxs: seq<Effects>, gasLimit: Uint64, baseFee: Option<nat>, rules: Rules)

  ghost predicate WellFormed(y: Body) {
    |y.fxs| == |y.txs| && forall i | 0 <= i < |y.txs| :: |y.txs[i].msg.data| <= MAX_UINT64
  }

  function MessageAt(y: Body, i: nat): Message
    requires i < |y.txs|
  {
    ToMessage(y.txs[i].msg, y.baseFee)
  }

  /** The world after the first n transactions. */
  function After(w: World, y: Body, n: nat): World
    requires n <= |y.txs| == |y.fxs|
  {
    if n == 0 then w else Next(After(w, y, n - 1), MessageAt(y, n - 1), y.rules, y.fxs[n - 1])
  }

  ghost function VerdictAt(w: World, y: Body, i: nat): Outcome
    requires WellFormed(y) && i < |y.txs|
  {
    Verdict(After(w, y, i), MessageAt(y, i), y.rules, y.fxs[i])
  }

  ghost predicate Accepted(w: World, y: Body, i: nat)
    requires WellFormed(y) && i < |y.txs|
  {
    y.txs[i].signed && VerdictAt(w, y, i).Done?
  }

  ghost predicate AllAccepted(w: World, y: Body, n: nat)
    requires WellFormed(y) && n <= |y.txs|
  {
    forall i | 0 <= i < n :: Accepted(w, y, i)
  }

  /** The gas used by those of the first n transactions that bought gas. */
  ghost function BoughtGas(w: World, y: Body, n: nat): nat
    requires WellFormed(y) && n <= |y.txs|
  {
    if n == 0 then 0
    else BoughtGas(w, y, n - 1)
         + if !y.fxs[n - 1].endTxNow && VerdictAt(w, y, n - 1).Done? then VerdictAt(w, y, n - 1).usedGas else 0
  }

  ghost function OutsideSum(fxs: seq<Effects>, n: nat): int
    requires n <= |fxs|
  {
    if n == 0 then 0 else OutsideSum(fxs, n - 1) + OutsideTotal(fxs[n - 1])
  }

  /** The EVM and the hooks only use gas up. */
  ghost predicate AllShrink(y: Body)
    requires WellFormed(y)
  {
    forall i | 0 <= i < |y.txs| :: GasOnlyShrinks(MessageAt(y, i).gasLimit, y.fxs[i])
  }

  /** The block has a base fee, and its transactions are priced under it. */
  predicate HasBaseFee(y: Body) {
    y.rules.london && !y.rules.noBaseFee && y.baseFee == Some(y.rules.baseFee)
  }

  /** What is left of the pool and the gas of the transactions that bought gas make up the block's limit; no transaction
      overflows the pool. */
  lemma {:induction false} PoolConserved(w: World, y: Body, n: nat)
    requires WellFormed(y) && n <= |y.txs| && AllShrink(y) && AllAccepted(w, y, n)
    ensures After(w, y, n).pool + BoughtGas(w, y, n) == w.pool
    ensures n < |y.txs| ==> !VerdictAt(w, y, n).Panicked?
  {
    hide Verdict, Next, GasOnlyShrinks;
    if n > 0 {
      assert Accepted(w, y, n - 1);
      PoolConserved(w, y, n - 1);
      PoolAfterMessage(After(w, y, n - 1), MessageAt(y, n - 1), y.rules, y.fxs[n - 1]);
    }
    if n < |y.txs| {
      PoolAfterMessage(After(w, y, n), MessageAt(y, n), y.rules, y.fxs[n]);
    }
  }

  lemma BurntSnoc(bought: nat, used: Uint64, rules: Rules, fx: Effects)
    ensures (bought + if fx.endTxNow then 0 else used) * rules.baseFee
            == bought * rules.baseFee + Burnt(used, rules, fx)
  {
    if !fx.endTxNow {
      assert (bought + used) * rules.baseFee == bought * rules.baseFee + used * rules.baseFee;
    }
  }

  /** The block burns exactly the base fee of that gas, apart from what the EVM and the hooks do. */
  lemma {:induction false} BaseFeeBurnt(w: World, y: Body, n: nat)
    requires WellFormed(y) && n <= |y.txs| && AllShrink(y) && HasBaseFee(y) && AllAccepted(w, y, n)
    ensures Total(After(w, y, n).balances)
            == Total(w.balances) + OutsideSum(y.fxs, n) - BoughtGas(w, y, n) * y.rules.baseFee
  {
    hide Verdict, Next, GasOnlyShrinks, Priced, Total, OutsideTotal;
    if n > 0 {
      assert Accepted(w, y, n - 1);
      BaseFeeBurnt(w, y, n - 1);
      if !y.fxs[n - 1].endTxNow {
        AcceptedIsPriced(After(w, y, n - 1), y.txs[n - 1].msg, y.rules, y.fxs[n - 1]);
      }
      BurnOfMessage(After(w, y, n - 1), MessageAt(y, n - 1), y.rules, y.fxs[n - 1]);
      BurntSnoc(BoughtGas(w, y, n - 1), VerdictAt(w, y, n - 1).usedGas, y.rules, y.fxs[n - 1]);
    }
  }

  /** From the i-th transaction on no account check is skipped. */
  ghost predicate AllChecked(y: Body, i: nat, n: nat)
    requires n <= |y.txs|
  {
    forall k | i <= k < n :: !y.txs[k].msg.skipAccountChecks
  }

  lemma NonceOfAccepted(w: World, msg: Message, rules: Rules, fx: Effects)
    requires |msg.data| <= MAX_UINT64 && !fx.endTxNow && Verdict(w, msg, rules, fx).Done? && !msg.skipAccountChecks
    ensures msg.nonce == Nonce(w.nonces, msg.from) < MAX_UINT64
  {
    hide FinalGas, Wrap, Plus, Get, Bought, Objection, Refusal;
    var b := Plus(w.balances, fx.start);
    ObjectionExact(WithoutTip(msg, rules, fx.dropTip), rules, Get(b, msg.from), Nonce(w.nonces, msg.from),
                   msg.from in w.contracts, w.pool);
  }

  /** No nonce ever goes down. */
  lemma {:induction false} NoncesGrow(w: World, y: Body, i: nat, n: nat, a: Address)
    requires WellFormed(y) && i <= n <= |y.txs| && AllAccepted(w, y, n) && AllChecked(y, i, n)
    ensures Nonce(After(w, y, i).nonces, a) <= Nonce(After(w, y, n).nonces, a)
    decreases n
  {
    hide Verdict, Next, Wrap;
    if i < n {
      var before, msg, fx := After(w, y, n - 1), MessageAt(y, n - 1), y.fxs[n - 1];
      NoncesGrow(w, y, i, n - 1, a);
      assert Accepted(w, y, n - 1);
      NonceAfter(before, msg, y.rules, fx, a);
      if !fx.endTxNow {
        NonceOfAccepted(before, msg, y.rules, fx);
        Fits(msg.nonce + 1);
      }
    }
  }

  /** Within a block the nonces of one sender's transactions go up from every call on: none is applied twice, and none
      after a later one. */
  lemma NoncesInOrder(w: World, y: Body, i: nat, j: nat)
    requires WellFormed(y) && i < j < |y.txs| && AllAccepted(w, y, j + 1) && AllChecked(y, i, j + 1)
    requires !y.fxs[i].endTxNow && !y.fxs[j].endTxNow
    requires y.txs[i].msg.from == y.txs[j].msg.from && y.txs[i].msg.to.Some?
    ensures y.txs[i].msg.nonce < y.txs[j].msg.nonce
  {
    hide Verdict, Next, Wrap;
    assert Accepted(w, y, i) && Accepted(w, y, j);
    var before, msg := After(w, y, i), MessageAt(y, i);
    NonceOfAccepted(before, msg, y.rules, y.fxs[i]);
    NonceOfAccepted(After(w, y, j), MessageAt(y, j), y.rules, y.fxs[j]);
    NonceAfter(before, msg, y.rules, y.fxs[i], msg.from);
    Fits(msg.nonce + 1);
    NoncesGrow(w, y, i + 1, j, msg.from);
  }

  // ----- The loop

  function GasSum(receipts: seq<Receipt>): nat {
    if receipts == [] then 0 else GasSum(receipts[..|receipts| - 1]) + receipts[|receipts| - 1].gasUsed
  }

  /** Each receipt has the sum of the gas used up to it. */
  ghost predicate Cumulative(receipts: seq<Receipt>) {
    forall i | 0 <= i < |receipts| :: receipts[i].cumulativeGasUsed == Wrap(GasSum(receipts[..i + 1]))
  }

  lemma CumulativeSnoc(receipts: seq<Receipt>, r: Receipt)
    requires Cumulative(receipts) && r.cumulativeGasUsed == Wrap(GasSum(receipts) + r.gasUsed)
    ensures Cumulative(receipts + [r]) && GasSum(receipts + [r]) == GasSum(receipts) + r.gasUsed
  {
    hide Wrap;
    var all := receipts + [r];
    assert all[..|receipts|] == receipts;
    forall i | 0 <= i < |all|
      ensures all[i].cumulativeGasUsed == Wrap(GasSum(all[..i + 1]))
    {
      if i < |receipts| {
        assert all[..i + 1] == receipts[..i + 1];
      } else {
        assert all[..i + 1] == all;
      }
    }
  }

  /** The receipts report the verdicts of the transactions, and the sums of their gas. */
  ghost predicate Receipted(w: World, y: Body, receipts: seq<Receipt>)
    requires WellFormed(y)
  {
    && |receipts| <= |y.txs|
    && (forall i | 0 <= i < |receipts| :: VerdictAt(w, y, i) == Done(receipts[i].gasUsed, receipts[i].failed))
    && Cumulative(receipts)
  }

  lemma ReceiptedSnoc(w: World, y: Body, receipts: seq<Receipt>, r: Receipt)
    requires WellFormed(y) && Receipted(w, y, receipts) && |receipts| < |y.txs|
    requires VerdictAt(w, y, |receipts|) == Done(r.gasUsed, r.failed)
    requires r.cumulativeGasUsed == Wrap(GasSum(receipts) + r.gasUsed)
    ensures Receipted(w, y, receipts + [r]) && GasSum(receipts + [r]) == GasSum(receipts) + r.gasUsed
  {
    hide VerdictAt, Cumulative, Wrap, GasSum;
    CumulativeSnoc(receipts, r);
  }

  ghost function Opened(state: StateDB, gasLimit: Uint64): World
    reads state
  {
    World(state.balances, state.nonces, state.contracts, gasLimit)
  }

  lemma NoReceipts(w: World, y: Body)
    requires WellFormed(y)
    ensures Receipted(w, y, []) && Wrap(0) == 0
  {
  }

  /** Processes the transactions in order, stopping at the first that is not accepted. */
  method Process(y: Body, state: StateDB)
    returns (status: Status, receipts: seq<Receipt>, usedGas: Uint64, pool: GasPool)
    requires WellFormed(y)
    modifies state`balances, state`nonces
    ensures fresh(pool)
    ensures Receipted(old(Opened(state, y.gasLimit)), y, receipts) && usedGas == Wrap(GasSum(receipts))
    ensures var w := old(Opened(state, y.gasLimit));
            match status
            case Processed => AllAccepted(w, y, |y.txs|) && |receipts| == |y.txs|
                              && WorldOf(state, pool) == After(w, y, |y.txs|)
            case Invalid(i) => receipts == [] && i < |y.txs| && AllAccepted(w, y, i)
                               && (!y.txs[i].signed || VerdictAt(w, y, i).Rejected?)
            case Crashed(i) => receipts == [] && i < |y.txs| && AllAccepted(w, y, i) && VerdictAt(w, y, i).Panicked?
  {
    hide Wrap, Verdict, Next, Receipted;
    ghost var w := Opened(state, y.gasLimit);
    receipts, usedGas := [], 0;
    pool := new GasPool();
    var added := pool.AddGas(y.gasLimit);
    NoReceipts(w, y);
    for i := 0 to |y.txs|
      invariant |receipts| == i && Receipted(w, y, receipts) && usedGas == Wrap(GasSum(receipts))
      invariant fresh(pool) && WorldOf(state, pool) == After(w, y, i) && AllAccepted(w, y, i)
    {
      var msg := ToMessage(y.txs[i].msg, y.baseFee);
      if !y.txs[i].signed {
        return Invalid(i), [], 0, pool;
      }
      var out := ApplyMessage(pool, state, y.rules, msg, y.fxs[i]);
      assert out == VerdictAt(w, y, i);
      if out.Rejected? {
        return Invalid(i), [], 0, pool;
      }
      if out.Panicked? {
        return Crashed(i), [], 0, pool;
      }
      WrapTwice(GasSum(receipts), out.usedGas);
      usedGas := Wrap(usedGas + out.usedGas);
      var receipt := Receipt(usedGas, out.usedGas, out.failed);
      ReceiptedSnoc(w, y, receipts, receipt);
      receipts := receipts + [receipt];
    }
    status := Status.Processed;
  }
}
