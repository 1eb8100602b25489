/** What applying one message charges, refunds and pays, with the EVM and the processing hooks left arbitrary. */
module StateTransitions {
  import opened BlockTree
  import opened GasPools
  import opened Ledger
  import opened Words

  datatype AccessList = AccessList(addresses: nat, storageKeys: nat)

  datatype Message = Message(
    from: Address,
    to: Option<Address>,
    nonce: Uint64,
    value: nat,
    gasLimit: Uint64,
    gasPrice: nat,
    gasFeeCap: nat,
    gasTipCap: nat,
    data: seq<bv8>,
    accessList: Option<AccessList>,
    skipAccountChecks: bool
  )

  datatype Rules = Rules(homestead: bool, istanbul: bool, london: bool, shanghai: bool, noBaseFee: bool,
                         baseFee: nat, maxInitCodeSize: nat)

  /** What the hooks and the EVM did during one message. A change is what the step did to the balances; gas amounts are
      what the step left or granted. Any behaviour of theirs is some value of this type. */
  datatype Effects = Effects(
    endTxNow: bool,
    startUsedGas: Uint64,
    startFailed: bool,
    start: Sheet,
    dropTip: bool,
    chargeOk: bool,
    tipRecipient: Address,
    chargeLeft: Uint64,      // gas left by the gas charging hook
    charge: Sheet,
    callLeft: Uint64,        // gas left by the call or creation
    callFailed: bool,
    call: Sheet,
    forceRefund: Uint64,
    nonrefundable: Uint64,
    refundCounter: Uint64,
    end: Sheet
  )

  datatype Error =
    | NonceTooHigh | NonceTooLow | NonceMax | SenderNoEOA
    | FeeCapVeryHigh | TipVeryHigh | TipAboveFeeCap | FeeCapTooLow
    | InsufficientFunds | GasLimitReached | GasUintOverflow | IntrinsicGasTooLow
    | HookFailed | InsufficientFundsForTransfer | MaxInitCodeSizeExceeded

  datatype Outcome = Done(usedGas: Uint64, failed: bool) | Rejected(error: Error) | Panicked

  const TX_GAS: nat := 21000
  const TX_GAS_CONTRACT_CREATION: nat := 53000
  const TX_DATA_ZERO_GAS: nat := 4
  const TX_DATA_NON_ZERO_GAS_FRONTIER: nat := 68
  const TX_DATA_NON_ZERO_GAS_EIP2028: nat := 16
  const INIT_CODE_WORD_GAS: nat := 2
  const TX_ACCESS_LIST_ADDRESS_GAS: nat := 2400
  const TX_ACCESS_LIST_STORAGE_KEY_GAS: nat := 1900
  const REFUND_QUOTIENT: nat := 2
  const REFUND_QUOTIENT_EIP3529: nat := 5
  const MAX_256_BITS: nat := 0x1_0000_0000_0000_0000_0000_0000_0000_0000_0000_0000_0000_0000_0000_0000_0000_0000 - 1

  // ----- Intrinsic gas

  function NonZeros(data: seq<bv8>): nat {
    if data == [] then 0 else NonZeros(data[..|data| - 1]) + if data[|data| - 1] != 0 then 1 else 0
  }

  lemma {:induction false} NonZerosBound(data: seq<bv8>)
    ensures NonZeros(data) <= |data|
  {
    if data != [] {
      NonZerosBound(data[..|data| - 1]);
    }
  }

  /** The number of 32-byte words that hold size bytes, for every unsigned 64-bit size. */
  function ToWordSize(size: Uint64): (words: Uint64)
    ensures 32 * (words - 1) < size <= 32 * words
  {
    if size > MAX_UINT64 - 31 then MAX_UINT64 / 32 + 1 else (size + 31) / 32
  }

  /** The price of the data as a plain number. */
  ghost function DataGas(data: seq<bv8>, creation: bool, homestead: bool, eip2028: bool, eip3860: bool): nat
    requires |data| <= MAX_UINT64
  {
    NonZerosBound(data);
    (if creation && homestead then TX_GAS_CONTRACT_CREATION else TX_GAS)
    + NonZeros(data) * (if eip2028 then TX_DATA_NON_ZERO_GAS_EIP2028 else TX_DATA_NON_ZERO_GAS_FRONTIER)
    + (|data| - NonZeros(data)) * TX_DATA_ZERO_GAS
    + if creation && eip3860 then ToWordSize(|data|) * INIT_CODE_WORD_GAS else 0
  }

  ghost function ListGas(list: Option<AccessList>): nat {
    if list.None? then 0
    else list.value.addresses * TX_ACCESS_LIST_ADDRESS_GAS + list.value.storageKeys * TX_ACCESS_LIST_STORAGE_KEY_GAS
  }

  lemma WordsGrow(size: Uint64)
    requires size < MAX_UINT64
    ensures ToWordSize(size + 1) == ToWordSize(size) + if size % 32 == 0 then 1 else 0
  {
  }

  /** What a message costs before it runs: a call 21000 and a creation since Homestead 53000; one more zero byte adds 4
      and another byte 16, or 68 before EIP-2028; every 32nd byte of init code 2 since EIP-3860; and the access list
      2400 for each address and 1900 for each storage key. */
  lemma GasOfByte(data: seq<bv8>, b: bv8, creation: bool, homestead: bool, eip2028: bool, eip3860: bool)
    requires |data| < MAX_UINT64
    ensures DataGas([], creation, homestead, eip2028, eip3860) == if creation && homestead then 53000 else 21000
    ensures DataGas(data + [b], creation, homestead, eip2028, eip3860)
            == DataGas(data, creation, homestead, eip2028, eip3860)
               + (if b == 0 then 4 else if eip2028 then 16 else 68)
               + (if creation && eip3860 && |data| % 32 == 0 then 2 else 0)
    ensures ListGas(None) == 0
    ensures forall addresses: nat, keys: nat ::
              ListGas(Some(AccessList(addresses, keys))) == 2400 * addresses + 1900 * keys
  {
    hide ToWordSize;
    NonZerosBound(data);
    WordsGrow(|data|);
    assert (data + [b])[..|data|] == data;
  }

  lemma Scale(a: nat, b: nat, c: nat)
    requires a <= b
    ensures a * c <= b * c
  {
    assert b * c == a * c + (b - a) * c;
  }

  lemma Quotient(n: nat, count: nat, price: nat)
    requires price > 0
    ensures n / price < count <==> count * price > n
  {
    var q := n / price;
    assert q * price <= n < q * price + price;
    if q < count {
      Scale(q + 1, count, price);
      assert (q + 1) * price == q * price + price;
    } else {
      Scale(count, q, price);
    }
  }

  /** The guarded addition of the source: it divides first, so that the check itself cannot overflow. */
  function Charge(gas: Uint64, count: nat, price: nat): (r: Option<Uint64>)
    requires price > 0
    ensures r.Some? <==> gas + count * price <= MAX_UINT64
    ensures r.Some? ==> r.value == gas + count * price
  {
    Quotient(MAX_UINT64 - gas, count, price);
    if (MAX_UINT64 - gas) / price < count then None else Some(Wrap(gas + count * price))
  }

  method CountNonZeros(data: seq<bv8>) returns (nz: nat)
    ensures nz == NonZeros(data)
  {
    nz := 0;
    for i := 0 to |data|
      invariant nz == NonZeros(data[..i])
    {
      assert data[..i + 1][..i] == data[..i];
      if data[i] != 0 {
        nz := nz + 1;
      }
    }
    assert data[..|data|] == data;
  }

  method WithAccessList(gas: Uint64, list: Option<AccessList>) returns (sum: Uint64)
    ensures sum == Wrap(gas + ListGas(list))
  {
    sum := gas;
    if list.Some? {
      sum := Wrap(sum + list.value.addresses * TX_ACCESS_LIST_ADDRESS_GAS);
      sum := Wrap(sum + list.value.storageKeys * TX_ACCESS_LIST_STORAGE_KEY_GAS);
      WrapTwice(gas + list.value.addresses * TX_ACCESS_LIST_ADDRESS_GAS,
                list.value.storageKeys * TX_ACCESS_LIST_STORAGE_KEY_GAS);
    }
  }

  /** Reports an overflow exactly when the price of the data does not fit; the access list is then added modulo 2^64. */
  method IntrinsicGas(data: seq<bv8>, list: Option<AccessList>, creation: bool, homestead: bool, eip2028: bool,
                      eip3860: bool)
    returns (r: Option<Uint64>)
    requires |data| <= MAX_UINT64
    ensures r.Some? <==> DataGas(data, creation, homestead, eip2028, eip3860) <= MAX_UINT64
    ensures r.Some? ==> r.value == Wrap(DataGas(data, creation, homestead, eip2028, eip3860) + ListGas(list))
  {
    hide Charge, Wrap, ToWordSize;
    var gas: Uint64 := if creation && homestead then TX_GAS_CONTRACT_CREATION else TX_GAS;
    if |data| > 0 {
      var nz := CountNonZeros(data);
      NonZerosBound(data);
      var nonZero := Charge(gas, nz, if eip2028 then TX_DATA_NON_ZERO_GAS_EIP2028 else TX_DATA_NON_ZERO_GAS_FRONTIER);
      if nonZero.None? {
        return None;
      }
      var zero := Charge(nonZero.value, |data| - nz, TX_DATA_ZERO_GAS);
      if zero.None? {
        return None;
      }
      gas := zero.value;
      if creation && eip3860 {
        var words := Charge(gas, ToWordSize(|data|), INIT_CODE_WORD_GAS);
        if words.None? {
          return None;
        }
        gas := words.value;
      }
    }
    var sum := WithAccessList(gas, list);
    return Some(sum);
  }

  // ----- Prices

  /** The price a message pays per gas: the transaction's own, or under a base fee the tip above it, capped. */
  function EffectivePrice(tx: Message, baseFee: Option<nat>): nat {
    if baseFee.None? then tx.gasPrice else Min(tx.gasTipCap + baseFee.value, tx.gasFeeCap)
  }

  function ToMessage(tx: Message, baseFee: Option<nat>): Message {
    tx.(gasPrice := EffectivePrice(tx, baseFee))
  }

  /** Delayed messages pay no more than the base fee. */
  function WithoutTip(msg: Message, rules: Rules, dropTip: bool): Message {
    if dropTip && msg.gasPrice > rules.baseFee then msg.(gasPrice := rules.baseFee, gasTipCap := 0) else msg
  }

  /** What the tip recipient earns per gas. */
  function EffectiveTip(msg: Message, rules: Rules): int {
    if rules.london then Min(msg.gasTipCap, msg.gasFeeCap - rules.baseFee) else msg.gasPrice
  }

  predicate SkipsFees(msg: Message, rules: Rules) {
    rules.noBaseFee && msg.gasFeeCap == 0 && msg.gasTipCap == 0
  }

  /** After London the price is the base fee plus the effective tip, whether or not the tip is dropped. Without a base
      fee it is the transaction's own. */
  lemma PriceSplits(tx: Message, rules: Rules, dropTip: bool)
    requires rules.london && rules.baseFee <= tx.gasFeeCap
    ensures ToMessage(tx, None) == tx
    ensures var msg := WithoutTip(ToMessage(tx, Some(rules.baseFee)), rules, dropTip);
            && msg.gasPrice == rules.baseFee + EffectiveTip(msg, rules)
            && rules.baseFee <= msg.gasPrice <= msg.gasFeeCap
            && (dropTip ==> msg.gasPrice == rules.baseFee)
  {
  }

  // ----- Refunds

  /** The refund is the counter, capped to a fraction of the refundable gas used. */
  function Refund(used: Uint64, nonrefundable: Uint64, counter: Uint64, quotient: nat): Uint64
    requires quotient > 0
  {
    if nonrefundable < used then Min((used - nonrefundable) / quotient, counter) else 0
  }

  /** The gas a message has left after the forced and the counted refund. */
  function FinalGas(limit: Uint64, fx: Effects, quotient: nat): Uint64
    requires quotient > 0
  {
    var left := Wrap(fx.callLeft + fx.forceRefund);
    Wrap(left + Refund(Wrap(limit - left), fx.nonrefundable, fx.refundCounter, quotient))
  }

  function RefundQuotient(rules: Rules): nat {
    if rules.london then REFUND_QUOTIENT_EIP3529 else REFUND_QUOTIENT
  }

  /** The gas contract of the EVM and the hooks: they only use gas up, and force no refund of gas that was not used. */
  predicate GasOnlyShrinks(limit: Uint64, fx: Effects) {
    fx.callLeft <= fx.chargeLeft <= limit && fx.callLeft + fx.forceRefund <= limit
  }

  lemma DividesDown(n: nat, counter: nat, quotient: nat)
    requires quotient > 0
    ensures var r := Min(n / quotient, counter); 0 <= r <= n && quotient * r <= n
  {
    var q := n / quotient;
    assert q * quotient <= n;
    var r := Min(q, counter);
    Scale(r, q, quotient);
    Scale(1, quotient, r);
  }

  lemma RefundWithinUsed(used: Uint64, nonrefundable: Uint64, counter: Uint64, quotient: nat)
    requires quotient > 0
    ensures Refund(used, nonrefundable, counter, quotient) <= used
  {
    if nonrefundable < used {
      DividesDown(used - nonrefundable, counter, quotient);
    }
  }

  /** The refund respects the quotient cap, and no message ends with more gas than it bought. */
  lemma RefundCapped(limit: Uint64, fx: Effects, quotient: nat)
    requires quotient > 0 && fx.callLeft + fx.forceRefund <= limit
    ensures var left := fx.callLeft + fx.forceRefund;
            var refund := FinalGas(limit, fx, quotient) - left;
            && 0 <= refund <= fx.refundCounter
            && left + refund <= limit
            && (refund == 0 || quotient * refund + fx.nonrefundable <= limit - left)
  {
    hide Wrap;
    var left := fx.callLeft + fx.forceRefund;
    Fits(left);
    Fits(limit - left);
    var used := limit - left;
    if fx.nonrefundable < used {
      DividesDown(used - fx.nonrefundable, fx.refundCounter, quotient);
    }
    Fits(left + Refund(used, fx.nonrefundable, fx.refundCounter, quotient));
  }

  /** It is the largest that does: any r within the counter and the cap is at most the refund. */
  lemma RefundLargest(used: Uint64, nonrefundable: Uint64, counter: Uint64, quotient: nat, r: nat)
    requires quotient > 0 && r <= counter && quotient * r + nonrefundable <= used
    ensures r <= Refund(used, nonrefundable, counter, quotient)
  {
    if nonrefundable < used {
      Quotient(used - nonrefundable, r, quotient);
    } else {
      Scale(1, quotient, r);
    }
  }

  /** The gas a message ends with, without naming how it is computed: what the call left and the hooks forced back, and
      of the refund counter as much as stays within a fifth of the refundable gas used, or a half before London. */
  lemma FinalGasFixed(limit: Uint64, fx: Effects, rules: Rules, final: nat)
    requires fx.callLeft + fx.forceRefund <= limit
    ensures var left := fx.callLeft + fx.forceRefund;
            var share := if rules.london then 5 else 2;
            final == FinalGas(limit, fx, RefundQuotient(rules))
            <==> && left <= final <= left + fx.refundCounter
                 && (final == left || share * (final - left) + fx.nonrefundable <= limit - left)
                 && (final == left + fx.refundCounter
                     || share * (final + 1 - left) + fx.nonrefundable > limit - left)
  {
    hide Wrap, Refund;
    var left := fx.callLeft + fx.forceRefund;
    var quotient := RefundQuotient(rules);
    var best: nat := Refund(limit - left, fx.nonrefundable, fx.refundCounter, quotient);
    Fits(left);
    Fits(limit - left);
    RefundCapped(limit, fx, quotient);
    RefundWithinUsed(limit - left, fx.nonrefundable, fx.refundCounter, quotient);
    Fits(left + best);
    forall r: nat | r <= fx.refundCounter && quotient * r + fx.nonrefundable <= limit - left
      ensures r <= best
    {
      RefundLargest(limit - left, fx.nonrefundable, fx.refundCounter, quotient, r);
    }
  }

  /** No more gas is forced back than was used; or so much that adding the counted refund wraps the total around. */
  predicate RefundFits(limit: Uint64, fx: Effects, quotient: nat)
    requires quotient > 0
  {
    var left := Wrap(fx.callLeft + fx.forceRefund);
    left <= limit || left + Refund(Wrap(limit - left), fx.nonrefundable, fx.refundCounter, quotient) > MAX_UINT64
  }

  lemma WrapsOver(n: nat)
    requires n <= 2 * MAX_UINT64
    ensures Wrap(n) == if n <= MAX_UINT64 then n else n - MAX_UINT64 - 1
  {
  }

  lemma WrapsOnce(limit: Uint64, left: Uint64)
    ensures Wrap(limit - left) == limit - left + if left <= limit then 0 else MAX_UINT64 + 1
  {
  }

  /** A forced refund beyond the gas used leaves the message with more gas than it bought, and only that does. */
  lemma ForceRefundExact(limit: Uint64, fx: Effects, quotient: nat)
    requires quotient > 0
    ensures FinalGas(limit, fx, quotient) <= limit <==> RefundFits(limit, fx, quotient)
  {
    hide Wrap, Refund;
    var left: nat := Wrap(fx.callLeft + fx.forceRefund);
    var used := Wrap(limit - left);
    var refund: nat := Refund(used, fx.nonrefundable, fx.refundCounter, quotient);
    WrapsOnce(limit, left);
    RefundWithinUsed(used, fx.nonrefundable, fx.refundCounter, quotient);
    WrapsOver(left + refund);
  }

  /** Where nothing wraps, that is: no more gas is forced back than was used. */
  lemma RefundFitsPlainly(limit: Uint64, fx: Effects, quotient: nat)
    requires quotient > 0 && fx.callLeft <= limit
    requires fx.callLeft + fx.forceRefund + fx.refundCounter <= MAX_UINT64
    ensures RefundFits(limit, fx, quotient) <==> fx.forceRefund <= limit - fx.callLeft
  {
    hide Wrap;
    Fits(fx.callLeft + fx.forceRefund);
  }

  /** What the sender pays for gas and the recipient earns, per the reported gas used, burns exactly the base fee of
      that gas: if and only if nothing is paid at all or the message ends with no more gas than it bought. */
  lemma FeeLaw(limit: Uint64, left: Uint64, price: nat, baseFee: nat, tip: int)
    requires price == baseFee + tip
    ensures var used := Wrap(limit - left);
            (left - limit) * price + used * tip == -(used * baseFee) <==> price == 0 || left <= limit
  {
    hide Wrap;
    var used := Wrap(limit - left);
    WrapsOnce(limit, left);
    assert used * tip == used * price - used * baseFee;
    assert (left - limit) * price + used * price == (left - limit + used) * price;
  }

  // ----- The state and the transition

  function Nonce(nonces: map<Address, Uint64>, a: Address): Uint64 {
    if a in nonces then nonces[a] else 0
  }

  class StateDB {
    var balances: Sheet
    var nonces: map<Address, Uint64>
    var contracts: set<Address>   // the accounts that have code

    constructor (balances: Sheet, nonces: map<Address, Uint64>, contracts: set<Address>)
      ensures this.balances == balances && this.nonces == nonces && this.contracts == contracts
    {
      this.balances, this.nonces, this.contracts := balances, nonces, contracts;
    }

    function GetBalance(a: Address): int
      reads `balances
    {
      Get(balances, a)
    }

    function GetNonce(a: Address): Uint64
      reads `nonces
    {
      Nonce(nonces, a)
    }

    method AddBalance(a: Address, amount: int)
      modifies `balances
      ensures balances == Plus(old(balances), map[a := amount])
    {
      balances := balances[a := Get(balances, a) + amount];
    }

    method SubBalance(a: Address, amount: int)
      modifies `balances
      ensures balances == Plus(old(balances), map[a := -amount])
    {
      balances := balances[a := Get(balances, a) - amount];
    }

    method SetNonce(a: Address, nonce: Uint64)
      modifies `nonces
      ensures nonces == old(nonces)[a := nonce]
    {
      nonces := nonces[a := nonce];
    }

    /** Whatever a hook or the EVM does to the balances. */
    method Change(d: Sheet)
      modifies `balances
      ensures balances == Plus(old(balances), d)
    {
      balances := Plus(balances, d);
    }
  }

  /** The first consensus rule a message breaks before it may buy gas. */
  function Objection(msg: Message, rules: Rules, balance: int, nonce: Uint64, hasCode: bool,
                     pool: Uint64): (err: Option<Error>)
    ensures err != Some(InsufficientFundsForTransfer)
    ensures err.None? ==> balance >= msg.gasLimit * msg.gasFeeCap + msg.value && pool >= msg.gasLimit
  {
    if !msg.skipAccountChecks && nonce < msg.nonce then Some(NonceTooHigh)
    else if !msg.skipAccountChecks && nonce > msg.nonce then Some(NonceTooLow)
    else if !msg.skipAccountChecks && Wrap(nonce + 1) < nonce then Some(NonceMax)
    else if !msg.skipAccountChecks && hasCode then Some(SenderNoEOA)
    else if rules.london && !SkipsFees(msg, rules) && msg.gasFeeCap > MAX_256_BITS then Some(FeeCapVeryHigh)
    else if rules.london && !SkipsFees(msg, rules) && msg.gasTipCap > MAX_256_BITS then Some(TipVeryHigh)
    else if rules.london && !SkipsFees(msg, rules) && msg.gasFeeCap < msg.gasTipCap then Some(TipAboveFeeCap)
    else if rules.london && !SkipsFees(msg, rules) && msg.gasFeeCap < rules.baseFee then Some(FeeCapTooLow)
    else if balance < msg.gasLimit * msg.gasFeeCap + msg.value then Some(InsufficientFunds)
    else if pool < msg.gasLimit then Some(GasLimitReached)
    else None
  }

  /** The sender may send this message next: its checks are skipped; or it is an account without code, the nonce is its
      own and has a successor. */
  predicate MaySend(msg: Message, nonce: Uint64, hasCode: bool) {
    msg.skipAccountChecks || (msg.nonce == nonce < MAX_UINT64 && !hasCode)
  }

  predicate ChecksFees(msg: Message, rules: Rules) {
    rules.london && !SkipsFees(msg, rules)
  }

  /** The caps are in order: base fee and tip within a fee cap of at most 256 bits. */
  predicate CapsInOrder(msg: Message, rules: Rules) {
    rules.baseFee <= msg.gasFeeCap <= MAX_256_BITS && msg.gasTipCap <= msg.gasFeeCap
  }

  /** A message may buy gas if and only if it breaks none of the rules, and each error has its own condition. */
  lemma ObjectionExact(msg: Message, rules: Rules, balance: int, nonce: Uint64, hasCode: bool, pool: Uint64)
    ensures var err := Objection(msg, rules, balance, nonce, hasCode, pool);
            var checked, fees := !msg.skipAccountChecks, MaySend(msg, nonce, hasCode) && ChecksFees(msg, rules);
            var sound := MaySend(msg, nonce, hasCode) && (ChecksFees(msg, rules) ==> CapsInOrder(msg, rules));
            var cost := msg.gasLimit * msg.gasFeeCap + msg.value;
            && (err.None? <==> sound && cost <= balance && msg.gasLimit <= pool)
            && (err == Some(NonceTooHigh) <==> checked && msg.nonce > nonce)
            && (err == Some(NonceTooLow) <==> checked && msg.nonce < nonce)
            && (err == Some(NonceMax) <==> checked && msg.nonce == nonce == MAX_UINT64)
            && (err == Some(SenderNoEOA) <==> checked && msg.nonce == nonce < MAX_UINT64 && hasCode)
            && (err == Some(FeeCapVeryHigh) <==> fees && msg.gasFeeCap > MAX_256_BITS)
            && (err == Some(TipVeryHigh) <==> fees && msg.gasFeeCap <= MAX_256_BITS < msg.gasTipCap)
            && (err == Some(TipAboveFeeCap) <==> fees && msg.gasFeeCap < msg.gasTipCap <= MAX_256_BITS)
            && (err == Some(FeeCapTooLow) <==>
                  fees && msg.gasTipCap <= msg.gasFeeCap <= MAX_256_BITS && msg.gasFeeCap < rules.baseFee)
            && (err == Some(InsufficientFunds) <==> sound && balance < cost)
            && (err == Some(GasLimitReached) <==> sound && cost <= balance && pool < msg.gasLimit)
  {
  }

  /** What the recipient is paid, as a change of balances. */
  function TipPaid(msg: Message, rules: Rules, fx: Effects, used: Uint64): Sheet {
    if SkipsFees(msg, rules) then map[] else map[fx.tipRecipient := used * EffectiveTip(msg, rules)]
  }

  /** Everything one message changes, account by account, once it has bought gas. */
  function Changes(msg: Message, rules: Rules, fx: Effects): Sheet {
    var left := FinalGas(msg.gasLimit, fx, RefundQuotient(rules));
    var used := Wrap(msg.gasLimit - left);
    Plus(Plus(Plus(fx.start, fx.charge), Plus(fx.call, fx.end)),
         Plus(map[msg.from := (left - msg.gasLimit) * msg.gasPrice],
              TipPaid(msg, rules, fx, used)))
  }

  lemma PlusNothing(b: Sheet)
    ensures Plus(b, map[]) == b
  {
  }

  lemma GetPlus(b: Sheet, d: Sheet, a: Address)
    ensures Get(Plus(b, d), a) == Get(b, a) + Get(d, a)
  {
  }

  lemma GetOne(a: Address, v: int)
    ensures Get(map[a := v], a) == v
  {
  }

  function Bought(b: Sheet, msg: Message): Sheet {
    Plus(b, map[msg.from := -(msg.gasLimit * msg.gasPrice)])
  }

  /** The end of a message: the refund, the tip and the last hook. */
  function Settled(b: Sheet, msg: Message, rules: Rules, fx: Effects, left: Uint64): Sheet {
    Plus(Plus(Plus(b, map[msg.from := left * msg.gasPrice]), TipPaid(msg, rules, fx, Wrap(msg.gasLimit - left))),
         fx.end)
  }

  lemma GetChanges(msg: Message, rules: Rules, fx: Effects, a: Address)
    ensures var left := FinalGas(msg.gasLimit, fx, RefundQuotient(rules));
            Get(Changes(msg, rules, fx), a)
            == Get(fx.start, a) + Get(fx.charge, a) + Get(fx.call, a) + Get(fx.end, a)
               + (if a == msg.from then (left - msg.gasLimit) * msg.gasPrice else 0)
               + Get(TipPaid(msg, rules, fx, Wrap(msg.gasLimit - left)), a)
  {
    hide FinalGas, Wrap, TipPaid, Plus;
    var left := FinalGas(msg.gasLimit, fx, RefundQuotient(rules));
    var tip := TipPaid(msg, rules, fx, Wrap(msg.gasLimit - left));
    var own := map[msg.from := (left - msg.gasLimit) * msg.gasPrice];
    GetPlus(fx.start, fx.charge, a);
    GetPlus(fx.call, fx.end, a);
    GetPlus(Plus(fx.start, fx.charge), Plus(fx.call, fx.end), a);
    GetPlus(own, tip, a);
    GetPlus(Plus(Plus(fx.start, fx.charge), Plus(fx.call, fx.end)), Plus(own, tip), a);
  }

  /** The steps of a message, one after the other, add up to its changes. */
  lemma StepsAddUp(b: Sheet, msg: Message, rules: Rules, fx: Effects, a: Address)
    ensures var left := FinalGas(msg.gasLimit, fx, RefundQuotient(rules));
            var called := Plus(Plus(Bought(Plus(b, fx.start), msg), fx.charge), fx.call);
            Get(Settled(called, msg, rules, fx, left), a) == Get(b, a) + Get(Changes(msg, rules, fx), a)
  {
    hide FinalGas, Wrap, TipPaid, Plus;
    var left := FinalGas(msg.gasLimit, fx, RefundQuotient(rules));
    var tip := TipPaid(msg, rules, fx, Wrap(msg.gasLimit - left));
    var bought := Plus(Plus(b, fx.start), map[msg.from := -(msg.gasLimit * msg.gasPrice)]);
    var called := Plus(Plus(bought, fx.charge), fx.call);
    GetPlus(b, fx.start, a);
    GetPlus(Plus(b, fx.start), map[msg.from := -(msg.gasLimit * msg.gasPrice)], a);
    GetPlus(bought, fx.charge, a);
    GetPlus(Plus(bought, fx.charge), fx.call, a);
    GetPlus(called, map[msg.from := left * msg.gasPrice], a);
    GetPlus(Plus(called, map[msg.from := left * msg.gasPrice]), tip, a);
    GetPlus(Plus(Plus(called, map[msg.from := left * msg.gasPrice]), tip), fx.end, a);
    GetChanges(msg, rules, fx, a);
    assert (left - msg.gasLimit) * msg.gasPrice == left * msg.gasPrice - msg.gasLimit * msg.gasPrice;
  }

  /** After the purchase the sender can still afford the transfer. */
  lemma TransferAffordable(b: Sheet, msg: Message, rules: Rules, nonce: Uint64, hasCode: bool, pool: Uint64,
                           charge: Sheet)
    requires Objection(msg, rules, Get(b, msg.from), nonce, hasCode, pool).None?
    requires msg.gasPrice <= msg.gasFeeCap && Get(charge, msg.from) >= 0
    ensures Get(Plus(Bought(b, msg), charge), msg.from) >= msg.value
  {
    Scale(msg.gasPrice, msg.gasFeeCap, msg.gasLimit);
  }

  /** What a message can see and change: the balances, the nonces, which accounts have code, and the block's gas
      pool. */
  datatype World = World(balances: Sheet, nonces: map<Address, Uint64>, contracts: set<Address>, pool: Uint64)

  /** Why a message that has bought gas is still rejected, given the balances after the purchase. */
  ghost function Refusal(bought: Sheet, msg: Message, rules: Rules, fx: Effects): Option<Error>
    requires |msg.data| <= MAX_UINT64
  {
    var dataGas := DataGas(msg.data, msg.to.None?, rules.homestead, rules.istanbul, rules.shanghai);
    if dataGas > MAX_UINT64 then Some(GasUintOverflow)
    else if msg.gasLimit < Wrap(dataGas + ListGas(msg.accessList)) then Some(IntrinsicGasTooLow)
    else if !fx.chargeOk then Some(HookFailed)
    else if msg.value > 0 && Get(Plus(bought, fx.charge), msg.from) < msg.value then Some(InsufficientFundsForTransfer)
    else if rules.shanghai && msg.to.None? && |msg.data| > rules.maxInitCodeSize then Some(MaxInitCodeSizeExceeded)
    else None
  }

  /** Whether a message sent to the world is applied, with the gas it reports, or why it is rejected. */
  ghost function Verdict(w: World, sent: Message, rules: Rules, fx: Effects): Outcome
    requires |sent.data| <= MAX_UINT64
  {
    if fx.endTxNow then Done(fx.startUsedGas, fx.startFailed) else
    var msg := WithoutTip(sent, rules, fx.dropTip);
    var b := Plus(w.balances, fx.start);
    var objection := Objection(msg, rules, Get(b, msg.from), Nonce(w.nonces, msg.from), msg.from in w.contracts,
                               w.pool);
    if objection.Some? then Rejected(objection.value) else
    var refusal := Refusal(Bought(b, msg), msg, rules, fx);
    if refusal.Some? then Rejected(refusal.value) else
    var left := FinalGas(msg.gasLimit, fx, RefundQuotient(rules));
    if w.pool - msg.gasLimit + left > MAX_UINT64 then Panicked else Done(Wrap(msg.gasLimit - left), fx.callFailed)
  }

  /** The world after an applied message, step by step. */
  function Next(w: World, sent: Message, rules: Rules, fx: Effects): World {
    var b := Plus(w.balances, fx.start);
    if fx.endTxNow then w.(balances := b) else
    var msg := WithoutTip(sent, rules, fx.dropTip);
    var left := FinalGas(msg.gasLimit, fx, RefundQuotient(rules));
    World(Settled(Plus(Plus(Bought(b, msg), fx.charge), fx.call), msg, rules, fx, left),
          if msg.to.Some? then w.nonces[msg.from := Wrap(Nonce(w.nonces, msg.from) + 1)] else w.nonces,
          w.contracts,
          Wrap(w.pool - msg.gasLimit + left))
  }

  class StateTransition {
    const gp: GasPool
    const state: StateDB
    const rules: Rules
    var msg: Message
    var gasRemaining: Uint64
    var initialGas: Uint64

    constructor (gp: GasPool, state: StateDB, rules: Rules, msg: Message)
      ensures this.gp == gp && this.state == state && this.rules == rules && this.msg == msg
      ensures gasRemaining == 0 && initialGas == 0
    {
      this.gp, this.state, this.rules, this.msg, gasRemaining, initialGas := gp, state, rules, msg, 0, 0;
    }

    function GasUsed(): Uint64
      reads this
    {
      Wrap(initialGas - gasRemaining)
    }

    method BuyGas() returns (err: Option<Error>)
      modifies `gasRemaining, `initialGas, gp, state`balances
      ensures err == if old(state.GetBalance(msg.from)) < msg.gasLimit * msg.gasFeeCap + msg.value
                     then Some(InsufficientFunds)
                     else if old(gp.gas) < msg.gasLimit then Some(GasLimitReached) else None
      ensures err.Some? ==> unchanged(this) && gp.gas == old(gp.gas) && unchanged(state)
      ensures err.None? ==>
                && gasRemaining == Wrap(old(gasRemaining) + msg.gasLimit) && initialGas == msg.gasLimit
                && gp.gas == old(gp.gas) - msg.gasLimit
                && state.balances == Bought(old(state.balances), msg)
    {
      var mgval := msg.gasLimit * msg.gasPrice;
      var balanceCheck := msg.gasLimit * msg.gasFeeCap + msg.value;
      if state.GetBalance(msg.from) < balanceCheck {
        return Some(InsufficientFunds);
      }
      var ok := gp.SubGas(msg.gasLimit);
      if !ok {
        return Some(GasLimitReached);
      }
      gasRemaining, initialGas := Wrap(gasRemaining + msg.gasLimit), msg.gasLimit;
      state.SubBalance(msg.from, mgval);
      return None;
    }

    method PreCheck() returns (err: Option<Error>)
      modifies `gasRemaining, `initialGas, gp, state`balances
      ensures err
              == old(Objection(msg, rules, state.GetBalance(msg.from), state.GetNonce(msg.from),
                               msg.from in state.contracts, gp.gas))
      ensures err.Some? ==> unchanged(this) && gp.gas == old(gp.gas) && unchanged(state)
      ensures err.None? ==>
                && gasRemaining == Wrap(old(gasRemaining) + msg.gasLimit) && initialGas == msg.gasLimit
                && gp.gas == old(gp.gas) - msg.gasLimit
                && state.balances == Bought(old(state.balances), msg)
    {
      if !msg.skipAccountChecks {
        var stNonce := state.GetNonce(msg.from);
        if stNonce < msg.nonce {
          return Some(NonceTooHigh);
        } else if stNonce > msg.nonce {
          return Some(NonceTooLow);
        } else if Wrap(stNonce + 1) < stNonce {
          return Some(NonceMax);
        }
        if msg.from in state.contracts {
          return Some(SenderNoEOA);
        }
      }
      if rules.london {
        if !rules.noBaseFee || msg.gasFeeCap > 0 || msg.gasTipCap > 0 {
          if msg.gasFeeCap > MAX_256_BITS {
            return Some(FeeCapVeryHigh);
          }
          if msg.gasTipCap > MAX_256_BITS {
            return Some(TipVeryHigh);
          }
          if msg.gasFeeCap < msg.gasTipCap {
            return Some(TipAboveFeeCap);
          }
          if msg.gasFeeCap < rules.baseFee {
            return Some(FeeCapTooLow);
          }
        }
      }
      err := BuyGas();
    }

    method RefundGas(fx: Effects, quotient: nat) returns (ok: bool)
      requires quotient > 0
      requires gasRemaining == fx.callLeft
      modifies `gasRemaining, gp, state`balances
      ensures gasRemaining == FinalGas(initialGas, fx, quotient)
      ensures state.balances == Plus(old(state.balances), map[msg.from := gasRemaining * msg.gasPrice])
      ensures ok <==> old(gp.gas) + gasRemaining <= MAX_UINT64
      ensures gp.gas == if ok then old(gp.gas) + gasRemaining else old(gp.gas)
    {
      hide Plus, Wrap;
      gasRemaining := Wrap(gasRemaining + fx.forceRefund);
      Fits(gasRemaining);
      if fx.nonrefundable < GasUsed() {
        var refund: nat := (GasUsed() - fx.nonrefundable) / quotient;
        if refund > fx.refundCounter {
          refund := fx.refundCounter;
        }
        gasRemaining := Wrap(gasRemaining + refund);
      }
      state.AddBalance(msg.from, gasRemaining * msg.gasPrice);
      ok := gp.AddGas(gasRemaining);
    }

    /** The end of a message: refund the remaining gas, pay the tip, run the last hook. */
    method Settle(fx: Effects) returns (out: Outcome)
      requires gasRemaining == fx.callLeft && initialGas == msg.gasLimit
      modifies `gasRemaining, gp, state`balances
      ensures gasRemaining == FinalGas(msg.gasLimit, fx, RefundQuotient(rules))
      ensures out.Panicked? <==> old(gp.gas) + gasRemaining > MAX_UINT64
      ensures !out.Panicked? ==>
                && out == Done(Wrap(msg.gasLimit - gasRemaining), fx.callFailed)
                && gp.gas == old(gp.gas) + gasRemaining
                && state.balances == Settled(old(state.balances), msg, rules, fx, gasRemaining)
    {
      hide FinalGas, Wrap, Plus, Min;
      var ok := RefundGas(fx, if rules.london then REFUND_QUOTIENT_EIP3529 else REFUND_QUOTIENT);
      if !ok {
        return Panicked;
      }
      var effectiveTip := msg.gasPrice;
      if rules.london {
        effectiveTip := Min(msg.gasTipCap, msg.gasFeeCap - rules.baseFee);
      }
      if !(rules.noBaseFee && msg.gasFeeCap == 0 && msg.gasTipCap == 0) {
        state.AddBalance(fx.tipRecipient, GasUsed() * effectiveTip);
      } else {
        PlusNothing(state.balances);
      }
      state.Change(fx.end);
      return Done(GasUsed(), fx.callFailed);
    }

    /** What follows the purchase: intrinsic gas, the charging hook, the transfer check, the call, and the
        settlement. */
    method Execute(fx: Effects) returns (out: Outcome)
      requires |msg.data| <= MAX_UINT64 && initialGas == gasRemaining == msg.gasLimit
      modifies `gasRemaining, gp, state`balances, state`nonces
      ensures var refusal := Refusal(old(state.balances), msg, rules, fx);
              var left := FinalGas(msg.gasLimit, fx, RefundQuotient(rules));
              out == if refusal.Some? then Rejected(refusal.value)
                     else if old(gp.gas) + left > MAX_UINT64 then Panicked
                     else Done(Wrap(msg.gasLimit - left), fx.callFailed)
      ensures out.Done? ==>
                && gasRemaining == FinalGas(msg.gasLimit, fx, RefundQuotient(rules))
                && gp.gas == old(gp.gas) + gasRemaining
                && state.balances
                   == Settled(Plus(Plus(old(state.balances), fx.charge), fx.call), msg, rules, fx, gasRemaining)
                && state.nonces
                   == if msg.to.Some? then old(state.nonces)[msg.from := Wrap(old(Nonce(state.nonces, msg.from)) + 1)]
                      else old(state.nonces)
    {
      hide FinalGas, Wrap, Plus, Settled, DataGas, ListGas;
      var gas := IntrinsicGas(msg.data, msg.accessList, msg.to.None?, rules.homestead, rules.istanbul, rules.shanghai);
      if gas.None? {
        return Rejected(GasUintOverflow);
      }
      if gasRemaining < gas.value {
        return Rejected(IntrinsicGasTooLow);
      }
      gasRemaining := gasRemaining - gas.value;
      state.Change(fx.charge);
      gasRemaining := fx.chargeLeft;
      if !fx.chargeOk {
        return Rejected(HookFailed);
      }
      if msg.value > 0 && state.GetBalance(msg.from) < msg.value {
        return Rejected(InsufficientFundsForTransfer);
      }
      if rules.shanghai && msg.to.None? && |msg.data| > rules.maxInitCodeSize {
        return Rejected(MaxInitCodeSizeExceeded);
      }
      if msg.to.Some? {
        state.SetNonce(msg.from, Wrap(state.GetNonce(msg.from) + 1));
      }
      state.Change(fx.call);
      gasRemaining := fx.callLeft;
      out := Settle(fx);
    }

    /** Applies the message: accepted or rejected exactly as Verdict says, and then the world is the next one. */
    method TransitionDb(fx: Effects) returns (out: Outcome)
      requires gasRemaining == 0 && initialGas == 0
      requires |msg.data| <= MAX_UINT64
      modifies this, gp, state`balances, state`nonces
      ensures out == old(Verdict(World(state.balances, state.nonces, state.contracts, gp.gas), msg, rules, fx))
      ensures out.Done? ==>
                World(state.balances, state.nonces, state.contracts, gp.gas)
                == old(Next(World(state.balances, state.nonces, state.contracts, gp.gas), msg, rules, fx))
    {
      hide FinalGas, Plus, Get, Settled, Bought, Objection, Wrap, Refusal;
      state.Change(fx.start);
      if fx.endTxNow {
        return Done(fx.startUsedGas, fx.startFailed);
      }
      if fx.dropTip && msg.gasPrice > rules.baseFee {
        msg := msg.(gasPrice := rules.baseFee, gasTipCap := 0);
      }
      Fits(msg.gasLimit);
      var err := PreCheck();
      if err.Some? {
        return Rejected(err.value);
      }
      out := Execute(fx);
      if out.Done? {
        Fits(gp.gas);
      }
    }
  }

  // ----- The laws of one message

  /** Every account changes by exactly what Changes says. */
  lemma NextChanges(w: World, sent: Message, rules: Rules, fx: Effects, a: Address)
    requires !fx.endTxNow
    ensures Get(Next(w, sent, rules, fx).balances, a)
            == Get(w.balances, a) + Get(Changes(WithoutTip(sent, rules, fx.dropTip), rules, fx), a)
  {
    hide FinalGas, Wrap, Plus, Settled, Bought, Changes;
    StepsAddUp(w.balances, WithoutTip(sent, rules, fx.dropTip), rules, fx, a);
  }

  /** What each account gains or loses: all accounts what the EVM and the hooks do; the sender the price of the gas that
      is not left; and the recipient the tip on the gas used, which before London is the whole price, and which is
      not paid if fees are skipped. A tip that is dropped is neither paid nor earned. If the first hook ends the
      message, that hook's change is all. */
  lemma AccountChanges(w: World, sent: Message, rules: Rules, fx: Effects, a: Address)
    ensures fx.endTxNow ==> Get(Next(w, sent, rules, fx).balances, a) == Get(w.balances, a) + Get(fx.start, a)
    ensures !fx.endTxNow ==>
              var left := FinalGas(sent.gasLimit, fx, RefundQuotient(rules));
              var dropped := fx.dropTip && sent.gasPrice > rules.baseFee;
              var price := if dropped then rules.baseFee else sent.gasPrice;
              var tipCap := if dropped then 0 else sent.gasTipCap;
              var tip := if rules.london then Min(tipCap, sent.gasFeeCap - rules.baseFee) else price;
              var free := rules.noBaseFee && sent.gasFeeCap == 0 && tipCap == 0;
              Get(Next(w, sent, rules, fx).balances, a)
              == Get(w.balances, a) + Get(fx.start, a) + Get(fx.charge, a) + Get(fx.call, a) + Get(fx.end, a)
                 - (if a == sent.from then (sent.gasLimit - left) * price else 0)
                 + (if a == fx.tipRecipient && !free then Wrap(sent.gasLimit - left) * tip else 0)
  {
    hide FinalGas, Wrap, Plus, Changes, Settled, Bought;
    if fx.endTxNow {
      GetPlus(w.balances, fx.start, a);
    } else {
      var msg := WithoutTip(sent, rules, fx.dropTip);
      var left := FinalGas(sent.gasLimit, fx, RefundQuotient(rules));
      NextChanges(w, sent, rules, fx, a);
      GetChanges(msg, rules, fx, a);
      assert (left - sent.gasLimit) * msg.gasPrice == -((sent.gasLimit - left) * msg.gasPrice);
    }
  }

  /** A message that has bought gas is refused for exactly one of these reasons, or not at all. */
  lemma RefusalExact(bought: Sheet, msg: Message, rules: Rules, fx: Effects)
    requires |msg.data| <= MAX_UINT64
    ensures var err := Refusal(bought, msg, rules, fx);
            var dataGas := DataGas(msg.data, msg.to.None?, rules.homestead, rules.istanbul, rules.shanghai);
            var priced := dataGas <= MAX_UINT64 && Wrap(dataGas + ListGas(msg.accessList)) <= msg.gasLimit;
            var poor := 0 < msg.value && Get(bought, msg.from) + Get(fx.charge, msg.from) < msg.value;
            var long := rules.shanghai && msg.to.None? && |msg.data| > rules.maxInitCodeSize;
            && (err.None? <==> priced && fx.chargeOk && !poor && !long)
            && (err == Some(GasUintOverflow) <==> dataGas > MAX_UINT64)
            && (err == Some(IntrinsicGasTooLow) <==> dataGas <= MAX_UINT64 && !priced)
            && (err == Some(HookFailed) <==> priced && !fx.chargeOk)
            && (err == Some(InsufficientFundsForTransfer) <==> priced && fx.chargeOk && poor)
            && (err == Some(MaxInitCodeSizeExceeded) <==> priced && fx.chargeOk && !poor && long)
  {
    hide DataGas, ListGas, Wrap, Plus;
    GetPlus(bought, fx.charge, msg.from);
  }

  /** A message is applied if and only if it may be sent, its caps are in order, the balance covers the worst price and
      the pool the limit, the limit covers the intrinsic gas, the charging hook agrees, the value can be moved after the
      purchase, the init code is short enough, and the gas it ends with fits into the pool. If the first hook ends it,
      it is applied as that hook says. */
  lemma AppliedExactly(w: World, sent: Message, rules: Rules, fx: Effects)
    requires |sent.data| <= MAX_UINT64
    ensures fx.endTxNow ==> Verdict(w, sent, rules, fx) == Done(fx.startUsedGas, fx.startFailed)
    ensures !fx.endTxNow ==>
              var msg := WithoutTip(sent, rules, fx.dropTip);
              var funds := Get(w.balances, sent.from) + Get(fx.start, sent.from);
              var dataGas := DataGas(sent.data, sent.to.None?, rules.homestead, rules.istanbul, rules.shanghai);
              var left := FinalGas(sent.gasLimit, fx, RefundQuotient(rules));
              Verdict(w, sent, rules, fx) == Done(Wrap(sent.gasLimit - left), fx.callFailed)
              <==> && MaySend(sent, Nonce(w.nonces, sent.from), sent.from in w.contracts)
                   && (ChecksFees(msg, rules) ==> CapsInOrder(msg, rules))
                   && sent.gasLimit * sent.gasFeeCap + sent.value <= funds
                   && sent.gasLimit <= w.pool
                   && dataGas <= MAX_UINT64 && Wrap(dataGas + ListGas(sent.accessList)) <= sent.gasLimit
                   && fx.chargeOk
                   && (sent.value > 0 ==>
                         sent.value <= funds - sent.gasLimit * msg.gasPrice + Get(fx.charge, sent.from))
                   && (rules.shanghai && sent.to.None? ==> |sent.data| <= rules.maxInitCodeSize)
                   && w.pool - sent.gasLimit + left <= MAX_UINT64
  {
    hide FinalGas, Wrap, Plus, Get, DataGas, ListGas, Objection, Refusal, ChecksFees, CapsInOrder;
    var msg := WithoutTip(sent, rules, fx.dropTip);
    var b := Plus(w.balances, fx.start);
    GetPlus(w.balances, fx.start, msg.from);
    GetPlus(b, map[msg.from := -(msg.gasLimit * msg.gasPrice)], msg.from);
    GetOne(msg.from, -(msg.gasLimit * msg.gasPrice));
    ObjectionExact(msg, rules, Get(b, msg.from), Nonce(w.nonces, msg.from), msg.from in w.contracts, w.pool);
    RefusalExact(Bought(b, msg), msg, rules, fx);
  }

  /** The nonce of the sender of a call goes up by one, and no other does. */
  lemma NonceAfter(w: World, sent: Message, rules: Rules, fx: Effects, a: Address)
    ensures Nonce(Next(w, sent, rules, fx).nonces, a)
            == if a == sent.from && sent.to.Some? && !fx.endTxNow then Wrap(Nonce(w.nonces, a) + 1)
               else Nonce(w.nonces, a)
  {
    hide FinalGas, Wrap, Plus, Settled, Bought;
  }

  /** A call that has been applied is never applied again: not under any rules, with any behaviour of the EVM and the
      hooks that lets it come to the check, in any world with the sender's nonce of the world it left or a later one. */
  lemma NoReplay(w: World, sent: Message, rules: Rules, fx: Effects, w': World, rules': Rules, fx': Effects)
    requires |sent.data| <= MAX_UINT64 && !fx.endTxNow && !fx'.endTxNow
    requires sent.to.Some? && !sent.skipAccountChecks && Verdict(w, sent, rules, fx).Done?
    requires Nonce(w'.nonces, sent.from) >= Nonce(Next(w, sent, rules, fx).nonces, sent.from)
    ensures Verdict(w', sent, rules', fx') == Rejected(NonceTooLow)
  {
    hide FinalGas, Plus, Get, Bought, Objection, Refusal, Next, Wrap;
    NonceAfter(w, sent, rules, fx, sent.from);
    var b, b' := Plus(w.balances, fx.start), Plus(w'.balances, fx'.start);
    var nonce := Nonce(w.nonces, sent.from);
    ObjectionExact(WithoutTip(sent, rules, fx.dropTip), rules, Get(b, sent.from), nonce, sent.from in w.contracts,
                   w.pool);
    ObjectionExact(WithoutTip(sent, rules', fx'.dropTip), rules', Get(b', sent.from), Nonce(w'.nonces, sent.from),
                   sent.from in w'.contracts, w'.pool);
    Fits(nonce + 1);
  }

  /** The transfer check can fail only through the gas charging hook or a price above the cap. */
  lemma TransferCheckHolds(w: World, sent: Message, rules: Rules, fx: Effects)
    requires |sent.data| <= MAX_UINT64
    ensures Verdict(w, sent, rules, fx) == Rejected(InsufficientFundsForTransfer) ==>
              Get(fx.charge, sent.from) < 0 || WithoutTip(sent, rules, fx.dropTip).gasPrice > sent.gasFeeCap
  {
    hide FinalGas, Wrap, Plus, Get, Bought, Objection, DataGas, ListGas;
    var msg := WithoutTip(sent, rules, fx.dropTip);
    var transferFails := Verdict(w, sent, rules, fx) == Rejected(InsufficientFundsForTransfer);
    if transferFails && Get(fx.charge, msg.from) >= 0 && msg.gasPrice <= msg.gasFeeCap {
      TransferAffordable(Plus(w.balances, fx.start), msg, rules, Nonce(w.nonces, msg.from), msg.from in w.contracts,
                         w.pool, fx.charge);
    }
  }

  /** The pool can overflow only if the message ends with more gas than it bought. */
  lemma PoolOverflow(w: World, sent: Message, rules: Rules, fx: Effects)
    requires |sent.data| <= MAX_UINT64
    ensures Verdict(w, sent, rules, fx).Panicked? ==> FinalGas(sent.gasLimit, fx, RefundQuotient(rules)) > sent.gasLimit
  {
    hide FinalGas, Wrap, Plus, Get, Bought, Objection, Refusal;
  }

  lemma TotalOfPlus(b: Sheet, d: Sheet)
    ensures Total(Plus(b, d)) == Total(b) + Total(d)
  {
    hide Total;
    TotalOfChange(b, d, Plus(b, d));
  }

  /** What the EVM and the hooks did to the total balance. */
  ghost function OutsideTotal(fx: Effects): int {
    if fx.endTxNow then Total(fx.start) else Total(fx.start) + Total(fx.charge) + Total(fx.call) + Total(fx.end)
  }

  lemma TotalOfTip(msg: Message, rules: Rules, fx: Effects, used: Uint64)
    ensures Total(TipPaid(msg, rules, fx, used)) == if SkipsFees(msg, rules) then 0 else used * EffectiveTip(msg, rules)
  {
    hide EffectiveTip;
    if SkipsFees(msg, rules) {
      var empty: Sheet := map[];
      assert empty.Keys == {};
    } else {
      TotalOfOne(fx.tipRecipient, used * EffectiveTip(msg, rules));
    }
  }

  lemma TotalOfChanges(msg: Message, rules: Rules, fx: Effects)
    requires !fx.endTxNow
    ensures var left := FinalGas(msg.gasLimit, fx, RefundQuotient(rules));
            var used := Wrap(msg.gasLimit - left);
            Total(Changes(msg, rules, fx)) == OutsideTotal(fx) + (left - msg.gasLimit) * msg.gasPrice
                                              + if SkipsFees(msg, rules) then 0 else used * EffectiveTip(msg, rules)
  {
    hide FinalGas, Wrap, TipPaid, Plus, Total, EffectiveTip, SkipsFees;
    var left := FinalGas(msg.gasLimit, fx, RefundQuotient(rules));
    var used := Wrap(msg.gasLimit - left);
    var tip := TipPaid(msg, rules, fx, used);
    var own := map[msg.from := (left - msg.gasLimit) * msg.gasPrice];
    TotalOfPlus(fx.start, fx.charge);
    TotalOfPlus(fx.call, fx.end);
    TotalOfPlus(Plus(fx.start, fx.charge), Plus(fx.call, fx.end));
    TotalOfPlus(own, tip);
    TotalOfPlus(Plus(Plus(fx.start, fx.charge), Plus(fx.call, fx.end)), Plus(own, tip));
    TotalOfOne(msg.from, (left - msg.gasLimit) * msg.gasPrice);
    TotalOfTip(msg, rules, fx, used);
  }

  /** The message is priced under the base fee, and pays fees. */
  predicate Priced(msg: Message, rules: Rules) {
    && rules.london
    && msg == ToMessage(msg, Some(rules.baseFee))
    && rules.baseFee <= msg.gasFeeCap
    && !rules.noBaseFee
  }

  lemma BurnsByFinalGas(sent: Message, rules: Rules, fx: Effects)
    requires Priced(sent, rules) && !fx.endTxNow
    ensures var msg := WithoutTip(sent, rules, fx.dropTip);
            var left := FinalGas(msg.gasLimit, fx, RefundQuotient(rules));
            Total(Changes(msg, rules, fx)) == OutsideTotal(fx) - Wrap(msg.gasLimit - left) * rules.baseFee
            <==> msg.gasPrice == 0 || left <= msg.gasLimit
  {
    hide FinalGas, Wrap, Total, Changes, OutsideTotal;
    var msg := WithoutTip(sent, rules, fx.dropTip);
    PriceSplits(sent, rules, fx.dropTip);
    TotalOfChanges(msg, rules, fx);
    FeeLaw(msg.gasLimit, FinalGas(msg.gasLimit, fx, RefundQuotient(rules)), msg.gasPrice, rules.baseFee,
           EffectiveTip(msg, rules));
  }

  /** EIP-1559: a message changes the total balance by exactly minus its reported gas times the base fee, apart from
      what the EVM and the hooks do, also when the tip is dropped; if and only if it pays nothing at all or the
      forced refund fits. */
  lemma BurnsBaseFee(sent: Message, rules: Rules, fx: Effects)
    requires Priced(sent, rules) && !fx.endTxNow
    ensures var msg := WithoutTip(sent, rules, fx.dropTip);
            var used := Wrap(msg.gasLimit - FinalGas(msg.gasLimit, fx, RefundQuotient(rules)));
            Total(Changes(msg, rules, fx)) == OutsideTotal(fx) - used * rules.baseFee
            <==> msg.gasPrice == 0 || RefundFits(sent.gasLimit, fx, RefundQuotient(rules))
  {
    hide FinalGas, Wrap, Total, Changes, OutsideTotal;
    BurnsByFinalGas(sent, rules, fx);
    ForceRefundExact(sent.gasLimit, fx, RefundQuotient(rules));
  }

  const MINTING_MESSAGE := Message(1, Some(2), 0, 0, 21000, 1, 1, 0, [], None, false)
  const MINTING_RULES := Rules(true, true, true, true, false, 1, 0)
  const MINTING_EFFECTS :=
    Effects(false, 0, false, map[], false, true, 3, 0, map[], 0, false, map[], 21001, MAX_UINT64, 0, map[])
  const MINTING_WORLD := World(map[1 := 21000], map[], {}, 21000)

  lemma MintingTotal()
    ensures FinalGas(21000, MINTING_EFFECTS, REFUND_QUOTIENT_EIP3529) == 21001
    ensures OutsideTotal(MINTING_EFFECTS) == 0
    ensures Total(Changes(MINTING_MESSAGE, MINTING_RULES, MINTING_EFFECTS)) == 1
  {
    hide Changes, Plus, TipPaid;
    var none: Sheet := map[];
    assert none.Keys == {};
    assert Total(none) == 0;
    TotalOfChanges(MINTING_MESSAGE, MINTING_RULES, MINTING_EFFECTS);
  }

  lemma MintingVerdict()
    ensures Verdict(MINTING_WORLD, MINTING_MESSAGE, MINTING_RULES, MINTING_EFFECTS).Done?
  {
    hide FinalGas, Plus, Bought;
    PlusNothing(MINTING_WORLD.balances);
    MintingTotal();
  }

  /** A world that accepts a message whose hooks force back one unit of gas too many: the EVM and the hooks move no
      money, and yet there is more of it afterwards. */
  lemma ForcedRefundMintsMoney()
    ensures exists w: World, sent: Message, rules: Rules, fx: Effects ::
              && |sent.data| <= MAX_UINT64 && Priced(sent, rules) && !fx.endTxNow
              && fx.callLeft <= fx.chargeLeft <= sent.gasLimit && OutsideTotal(fx) == 0
              && Verdict(w, sent, rules, fx).Done? && Total(Next(w, sent, rules, fx).balances) > Total(w.balances)
  {
    hide Changes, Verdict, Next, Total, OutsideTotal, FinalGas, Get;
    var w, sent, rules, fx := MINTING_WORLD, MINTING_MESSAGE, MINTING_RULES, MINTING_EFFECTS;
    MintingTotal();
    MintingVerdict();
    forall a
      ensures Get(Next(w, sent, rules, fx).balances, a) == Get(w.balances, a) + Get(Changes(sent, rules, fx), a)
    {
      NextChanges(w, sent, rules, fx, a);
    }
    TotalOfChange(w.balances, Changes(sent, rules, fx), Next(w, sent, rules, fx).balances);
    assert Priced(sent, rules);
  }

  /** What the EVM and the hooks may take from the sender: a call at most the value it transfers. */
  predicate SparesSender(msg: Message, fx: Effects) {
    Get(fx.charge, msg.from) >= 0 && Get(fx.call, msg.from) + msg.value >= 0 && Get(fx.end, msg.from) >= 0
  }

  /** The sender is not overdrawn by the purchase, the charging hook and the call. */
  lemma SenderAffordsCall(b: Sheet, msg: Message, fx: Effects)
    requires Get(b, msg.from) >= msg.gasLimit * msg.gasFeeCap + msg.value
    requires msg.gasPrice <= msg.gasFeeCap && SparesSender(msg, fx)
    ensures Get(Bought(b, msg), msg.from) >= msg.value
    ensures Get(Plus(Plus(Bought(b, msg), fx.charge), fx.call), msg.from) >= 0
  {
    hide Plus;
    GetPlus(b, map[msg.from := -(msg.gasLimit * msg.gasPrice)], msg.from);
    GetPlus(Bought(b, msg), fx.charge, msg.from);
    GetPlus(Plus(Bought(b, msg), fx.charge), fx.call, msg.from);
    Scale(msg.gasPrice, msg.gasFeeCap, msg.gasLimit);
  }

  lemma TipIsIncome(msg: Message, rules: Rules, fx: Effects, used: Uint64)
    requires SkipsFees(msg, rules) || EffectiveTip(msg, rules) >= 0
    ensures Get(TipPaid(msg, rules, fx, used), msg.from) >= 0
  {
    hide EffectiveTip;
    if !SkipsFees(msg, rules) {
      assert used * EffectiveTip(msg, rules) >= 0;
    }
  }

  /** Nor does the settlement overdraw the sender. */
  lemma SettlementOnlyAdds(b: Sheet, msg: Message, rules: Rules, fx: Effects, left: Uint64)
    requires Get(b, msg.from) >= 0 && SparesSender(msg, fx)
    requires SkipsFees(msg, rules) || EffectiveTip(msg, rules) >= 0
    ensures Get(Settled(b, msg, rules, fx, left), msg.from) >= 0
  {
    hide Plus, Wrap, TipPaid, EffectiveTip, SkipsFees;
    var from, own := msg.from, map[msg.from := left * msg.gasPrice];
    var tip := TipPaid(msg, rules, fx, Wrap(msg.gasLimit - left));
    GetPlus(b, own, from);
    GetPlus(Plus(b, own), tip, from);
    GetPlus(Plus(Plus(b, own), tip), fx.end, from);
    TipIsIncome(msg, rules, fx, Wrap(msg.gasLimit - left));
  }

  /** The sender of an applied message is never overdrawn: not by the purchase, which leaves the value to transfer,
      nor by the call, nor by the settlement. */
  lemma SenderNotOverdrawn(w: World, sent: Message, rules: Rules, fx: Effects)
    requires |sent.data| <= MAX_UINT64 && !fx.endTxNow && Priced(sent, rules) && SparesSender(sent, fx)
    ensures var msg := WithoutTip(sent, rules, fx.dropTip);
            var bought := Bought(Plus(w.balances, fx.start), msg);
            Verdict(w, sent, rules, fx).Done? ==>
              && Get(bought, msg.from) >= msg.value
              && Get(Plus(Plus(bought, fx.charge), fx.call), msg.from) >= 0
              && Get(Next(w, sent, rules, fx).balances, msg.from) >= 0
  {
    hide FinalGas, Wrap, Plus, Get, Changes, Bought, Settled, Objection, Refusal;
    var msg := WithoutTip(sent, rules, fx.dropTip);
    var b := Plus(w.balances, fx.start);
    PriceSplits(sent, rules, fx.dropTip);
    if Verdict(w, sent, rules, fx).Done? {
      SenderAffordsCall(b, msg, fx);
      SettlementOnlyAdds(Plus(Plus(Bought(b, msg), fx.charge), fx.call), msg, rules, fx, FinalGas(msg.gasLimit, fx,
                         RefundQuotient(rules)));
    }
  }
}
