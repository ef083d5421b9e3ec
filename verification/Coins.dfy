/**
 `CCoins`: the unspent outputs of one transaction.
 */
module Coins {
  datatype Option<+T> = None | Some(value: T)

  /** An output with value -1 is the null output: spent, or not there. */
  datatype CTxOut = CTxOut(nValue: int, scriptPubKey: seq<nat>) {
    predicate IsNull() { nValue == -1 }
  }

  const NULL_TXOUT := CTxOut(-1, [])

  datatype CCoins = CCoins(fCoinBase: bool, vout: seq<CTxOut>, nHeight: int, nVersion: int) {

    predicate IsPruned() {
      forall i :: 0 <= i < |vout| ==> vout[i].IsNull()
    }

    /** No spent output at the end of `vout`. */
    predicate IsTrimmed() {
      vout == [] || !vout[|vout| - 1].IsNull()
    }

    predicate IsAvailable(n: nat) {
      n < |vout| && !vout[n].IsNull()
    }

    function Cleanup(): CCoins {
      this.(vout := Trim(vout))
    }
  }

  const CLEARED := CCoins(false, [], 0, 0)

  function Trim(vout: seq<CTxOut>): seq<CTxOut> {
    if vout != [] && vout[|vout| - 1].IsNull() then Trim(vout[..|vout| - 1]) else vout
  }

  /** Trimming keeps the availability of every output and leaves nothing exactly when all is spent. */
  lemma {:induction false} CleanupKeepsOutputs(c: CCoins)
    ensures c.Cleanup().IsTrimmed()
    ensures forall n: nat :: c.Cleanup().IsAvailable(n) == c.IsAvailable(n)
    ensures forall n: nat :: c.IsAvailable(n) ==> n < |c.Cleanup().vout| && c.Cleanup().vout[n] == c.vout[n]
    ensures c.Cleanup().vout == [] <==> c.IsPruned()
    decreases |c.vout|
  {
    if c.vout != [] {
      var last := |c.vout| - 1;
      if c.vout[last].IsNull() {
        CleanupKeepsOutputs(c.(vout := c.vout[..last]));
      } else {
        assert c.Cleanup() == c;
      }
    }
  }
}
