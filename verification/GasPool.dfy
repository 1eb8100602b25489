/** The gas pool that a block's transactions buy from. */
module GasPools {
  import opened Words

  class GasPool {
    var gas: Uint64

    constructor ()
      ensures gas == 0
    {
      gas := 0;
    }

    /** Fails, as the source panics, exactly when the sum does not fit. */
    method AddGas(amount: Uint64) returns (ok: bool)
      modifies this
      ensures ok <==> old(gas) + amount <= MAX_UINT64
      ensures gas == if ok then old(gas) + amount else old(gas)
    {
      if gas > MAX_UINT64 - amount {
        return false;
      }
      gas := Wrap(gas + amount);
      return true;
    }

    method SubGas(amount: Uint64) returns (ok: bool)
      modifies this
      ensures ok <==> amount <= old(gas)
      ensures gas == if ok then old(gas) - amount else old(gas)
    {
      if gas < amount {
        return false;
      }
      gas := gas - amount;
      return true;
    }
  }
}
