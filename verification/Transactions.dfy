/**
 Transactions over the set of unspent outputs: what it means for a list of transactions to
 connect, one after the other, and what every list that connects satisfies.
 */
module Transactions {
  import opened Amount
  import opened Coins

  const OP_RETURN := 0x6a

  datatype COutPoint = COutPoint(hash: nat, n: nat)

  datatype CTransaction = CTransaction(hash: nat, vin: seq<COutPoint>, vout: seq<CTxOut>, nSize: nat, nSigOps: nat,
    isCoinBase: bool)

  /** The unspent outputs, which a stack of coin caches stands for transaction by transaction (module `UpdateCoins`). */
  type View = map<COutPoint, CTxOut>

  predicate HaveCoins(view: View, hash: nat) {
    exists o :: o in view && o.hash == hash
  }

  predicate HaveInputs(view: View, tx: CTransaction) {
    forall i :: 0 <= i < |tx.vin| ==> tx.vin[i] in view
  }

  function ValueIn(view: View, vin: seq<COutPoint>): int
    requires forall i :: 0 <= i < |vin| ==> vin[i] in view
  {
    if vin == [] then 0 else ValueIn(view, vin[..|vin| - 1]) + view[vin[|vin| - 1]].nValue
  }

  function ValueOut(vout: seq<CTxOut>): int {
    if vout == [] then 0 else ValueOut(vout[..|vout| - 1]) + vout[|vout| - 1].nValue
  }

  /** Each value and each partial sum is in range. */
  predicate InputsInRange(view: View, vin: seq<COutPoint>)
    requires forall i :: 0 <= i < |vin| ==> vin[i] in view
  {
    vin == [] || (InputsInRange(view, vin[..|vin| - 1]) && MoneyRange(view[vin[|vin| - 1]].nValue) &&
      MoneyRange(ValueIn(view, vin)))
  }

  predicate OutputsInRange(vout: seq<CTxOut>) {
    vout == [] || (OutputsInRange(vout[..|vout| - 1]) && MoneyRange(vout[|vout| - 1].nValue) &&
      MoneyRange(ValueOut(vout)))
  }

  predicate DistinctInputs(tx: CTransaction) {
    forall i, j :: 0 <= i < j < |tx.vin| ==> tx.vin[i] != tx.vin[j]
  }

  /** The context-free check that every transaction in the memory pool has passed. */
  predicate CheckTransaction(tx: CTransaction) {
    OutputsInRange(tx.vout) && DistinctInputs(tx)
  }

  function Fee(view: View, tx: CTransaction): int
    requires HaveInputs(view, tx)
  {
    ValueIn(view, tx.vin) - ValueOut(tx.vout)
  }

  /** The check against the view; `scripts` stands for coinbase maturity and the script checks. */
  predicate CheckInputs(view: View, tx: CTransaction, scripts: (CTransaction, View) -> bool) {
    && HaveInputs(view, tx)
    && InputsInRange(view, tx.vin)
    && MoneyRange(Fee(view, tx))
    && scripts(tx, view)
  }

  predicate IsUnspendable(out: CTxOut) {
    |out.scriptPubKey| > 0 && out.scriptPubKey[0] == OP_RETURN
  }

  /** Only scripts that begin with `OP_RETURN` are. */
  lemma {:induction false} UnspendableIff(out: CTxOut)
    ensures IsUnspendable(out) <==> exists rest: seq<nat> :: out.scriptPubKey == [0x6a] + rest
  {
    if IsUnspendable(out) {
      assert out.scriptPubKey == [0x6a] + out.scriptPubKey[1..];
    }
  }

  /** Not null and not unspendable. */
  predicate IsKept(out: CTxOut) {
    !out.IsNull() && !IsUnspendable(out)
  }

  /** What is kept of the first `n` outputs. */
  function FirstCreated(tx: CTransaction, n: nat): View
    requires n <= |tx.vout|
  {
    map i | 0 <= i < n && IsKept(tx.vout[i]) :: COutPoint(tx.hash, i) := tx.vout[i]
  }

  /** The outputs that are kept. */
  function Created(tx: CTransaction): View {
    FirstCreated(tx, |tx.vout|)
  }

  function Inputs(tx: CTransaction): set<COutPoint> {
    set i | 0 <= i < |tx.vin| :: tx.vin[i]
  }

  /** `UpdateCoins`: the inputs are spent, then the coins of the transaction are overwritten with its outputs. */
  function UpdateCoins(view: View, tx: CTransaction): View {
    (map o | o in view && o !in Inputs(tx) && o.hash != tx.hash :: view[o]) + Created(tx)
  }

  function After(view: View, block: seq<CTransaction>): View {
    if block == [] then view else UpdateCoins(After(view, block[..|block| - 1]), block[|block| - 1])
  }

  /** Every transaction passes its checks in the view left by the ones before it. */
  predicate Connects(view: View, block: seq<CTransaction>, scripts: (CTransaction, View) -> bool) {
    forall j :: 0 <= j < |block| ==>
      CheckTransaction(block[j]) && CheckInputs(After(view, block[..j]), block[j], scripts)
  }

  predicate Spendable(view: View, block: seq<CTransaction>) {
    forall j :: 0 <= j < |block| ==> HaveInputs(After(view, block[..j]), block[j])
  }

  function Fees(view: View, block: seq<CTransaction>): int
    requires Spendable(view, block)
  {
    if block == [] then 0 else
      assert forall j :: 0 <= j < |block| - 1 ==> block[..|block| - 1][..j] == block[..j];
      Fees(view, block[..|block| - 1]) + Fee(After(view, block[..|block| - 1]), block[|block| - 1])
  }

  predicate DistinctHashes(block: seq<CTransaction>) {
    forall i, j :: 0 <= i < j < |block| ==> block[i].hash != block[j].hash
  }

  lemma {:induction false} AfterStep(view: View, block: seq<CTransaction>, j: nat)
    requires j < |block|
    ensures After(view, block[..j + 1]) == UpdateCoins(After(view, block[..j]), block[j])
  {
    assert block[..j + 1][..j] == block[..j];
  }

  /** Whatever is unspent was there at the start or was made by a transaction of the list. */
  lemma {:induction false} UnspentHasSource(view: View, block: seq<CTransaction>, j: nat, o: COutPoint)
    requires j <= |block| && o in After(view, block[..j])
    ensures o in view || exists i :: 0 <= i < j && o in Created(block[i])
  {
    hide Created, After;
    if j > 0 {
      AfterStep(view, block, j - 1);
      if o !in Created(block[j - 1]) {
        UnspentHasSource(view, block, j - 1, o);
      }
    } else {
      AfterNothing(view, block);
    }
  }

  lemma {:induction false} AfterNothing(view: View, block: seq<CTransaction>)
    ensures After(view, block[..0]) == view
  {
  }

  /** Parents come before children: an input that is not in the base view is an output of an earlier transaction. */
  lemma {:induction false} ParentsComeFirst(view: View, block: seq<CTransaction>,
          scripts: (CTransaction, View) -> bool, j: nat, o: COutPoint)
    requires Connects(view, block, scripts) && j < |block| && o in Inputs(block[j]) && o !in view
    ensures exists i :: 0 <= i < j && o in Created(block[i])
  {
    UnspentHasSource(view, block, j, o);
  }

  /** Once spent, an output stays spent unless a transaction with its hash comes again. */
  lemma {:induction false} SpentStaysSpent(view: View, block: seq<CTransaction>, j: nat, k: nat, o: COutPoint)
    requires j < k <= |block| && o in Inputs(block[j])
    requires forall i :: j <= i < |block| ==> block[i].hash != o.hash
    ensures o !in After(view, block[..k])
    decreases k
  {
    hide After;
    AfterStep(view, block, k - 1);
    if j < k - 1 {
      SpentStaysSpent(view, block, j, k - 1, o);
    }
  }

  /** No output is spent by two transactions, as long as no hash comes twice or already has unspent outputs. */
  lemma {:induction false} NothingIsSpentTwice(view: View, block: seq<CTransaction>,
          scripts: (CTransaction, View) -> bool, j: nat, k: nat)
    requires Connects(view, block, scripts) && DistinctHashes(block) && j < k < |block|
    requires forall i :: 0 <= i < |block| ==> !HaveCoins(view, block[i].hash)
    ensures Inputs(block[j]) !! Inputs(block[k])
  {
    forall o | o in Inputs(block[j]) ensures o !in Inputs(block[k]) {
      assert o in After(view, block[..j]);
      UnspentHasSource(view, block, j, o);
      if o in view {
        forall i | j <= i < |block| ensures block[i].hash != o.hash {
          assert !HaveCoins(view, block[i].hash);
        }
      }
      SpentStaysSpent(view, block, j, k, o);
    }
  }

  // Conservation of money.

  /** The total value of the unspent outputs. */
  ghost function Total(view: View): int {
    if view == map[] then 0 else
      var o :| o in view;
      view[o].nValue + Total(view - {o})
  }

  lemma {:induction false} TotalWithout(view: View, o: COutPoint)
    requires o in view
    ensures Total(view) == view[o].nValue + Total(view - {o})
    decreases |view|
  {
    var p :| p in view && Total(view) == view[p].nValue + Total(view - {p});
    if p != o {
      TotalWithout(view - {p}, o);
      TotalWithout(view - {o}, p);
      assert view - {p} - {o} == view - {o} - {p};
    }
  }

  function Spend(view: View, vin: seq<COutPoint>): View {
    map o | o in view && o !in vin :: view[o]
  }

  /** Distinct inputs take exactly their value out. */
  lemma {:induction false} SpendingTakesValueIn(view: View, vin: seq<COutPoint>)
    requires forall i :: 0 <= i < |vin| ==> vin[i] in view
    requires forall i, j :: 0 <= i < j < |vin| ==> vin[i] != vin[j]
    ensures Total(view) == Total(Spend(view, vin)) + ValueIn(view, vin)
  {
    if vin == [] {
      assert Spend(view, vin) == view;
    } else {
      var front, last := vin[..|vin| - 1], vin[|vin| - 1];
      SpendingTakesValueIn(view, front);
      assert last !in front;
      assert vin == front + [last];
      assert Spend(view, vin) == Spend(view, front) - {last};
      TotalWithout(Spend(view, front), last);
    }
  }

  /** The value that disappears in outputs nobody can spend. */
  function Burnt(vout: seq<CTxOut>): int {
    if vout == [] then 0 else
      var last := vout[|vout| - 1];
      Burnt(vout[..|vout| - 1]) + if IsKept(last) then 0 else last.nValue
  }

  lemma {:induction false} FirstCreatedStep(tx: CTransaction, n: nat)
    requires 0 < n <= |tx.vout|
    ensures FirstCreated(tx, n) == if IsKept(tx.vout[n - 1]) then
      FirstCreated(tx, n - 1)[COutPoint(tx.hash, n - 1) := tx.vout[n - 1]] else FirstCreated(tx, n - 1)
    ensures COutPoint(tx.hash, n - 1) !in FirstCreated(tx, n - 1)
  {
    hide IsKept;
    var before, o := FirstCreated(tx, n - 1), COutPoint(tx.hash, n - 1);
    forall p: COutPoint ensures p in FirstCreated(tx, n) <==> p in before || (p == o && IsKept(tx.vout[n - 1])) {
      assert p in before <==> p.hash == tx.hash && p.n < n - 1 && IsKept(tx.vout[p.n]);
      assert p in FirstCreated(tx, n) <==> p.hash == tx.hash && p.n < n && IsKept(tx.vout[p.n]);
    }
  }

  lemma {:induction false} AddOne(view: View, made: View, o: COutPoint, out: CTxOut)
    ensures view + made[o := out] == (view + made)[o := out]
  {
  }

  lemma {:induction false} TotalWith(view: View, o: COutPoint, out: CTxOut)
    requires o !in view
    ensures Total(view[o := out]) == Total(view) + out.nValue
  {
    TotalWithout(view[o := out], o);
    assert view[o := out] - {o} == view;
  }

  lemma {:induction false} CreatingAddsValueOut(view: View, tx: CTransaction, n: nat)
    requires n <= |tx.vout| && forall o :: o in view ==> o.hash != tx.hash
    ensures Total(view + FirstCreated(tx, n)) + Burnt(tx.vout[..n]) == Total(view) + ValueOut(tx.vout[..n])
  {
    hide Total, FirstCreated;
    if n == 0 {
      assert view + FirstCreated(tx, 0) == view by {
        NothingCreatedYet(tx);
      }
    } else {
      CreatingAddsValueOut(view, tx, n - 1);
      assert tx.vout[..n][..n - 1] == tx.vout[..n - 1];
      FirstCreatedStep(tx, n);
      if IsKept(tx.vout[n - 1]) {
        AddOne(view, FirstCreated(tx, n - 1), COutPoint(tx.hash, n - 1), tx.vout[n - 1]);
        TotalWith(view + FirstCreated(tx, n - 1), COutPoint(tx.hash, n - 1), tx.vout[n - 1]);
      }
    }
  }

  lemma {:induction false} NothingCreatedYet(tx: CTransaction)
    ensures FirstCreated(tx, 0) == map[]
  {
  }

  lemma {:induction false} UpdateInTwoSteps(view: View, tx: CTransaction)
    requires HaveInputs(view, tx) && !HaveCoins(view, tx.hash)
    ensures UpdateCoins(view, tx) == Spend(view, tx.vin) + FirstCreated(tx, |tx.vout|)
    ensures forall o :: o in Spend(view, tx.vin) ==> o.hash != tx.hash
  {
    hide Total;
    assert (map o | o in view && o !in Inputs(tx) && o.hash != tx.hash :: view[o]) == Spend(view, tx.vin);
  }

  /** One transaction moves its fee, and what it burns, out of the unspent outputs. */
  lemma {:induction false} TransactionConservesMoney(view: View, tx: CTransaction)
    requires HaveInputs(view, tx) && DistinctInputs(tx) && !HaveCoins(view, tx.hash)
    ensures Total(UpdateCoins(view, tx)) + Fee(view, tx) + Burnt(tx.vout) == Total(view)
  {
    hide Total, FirstCreated, UpdateCoins, Spend, ValueIn, ValueOut, Burnt;
    UpdateInTwoSteps(view, tx);
    SpendingTakesValueIn(view, tx.vin);
    CreatingAddsValueOut(Spend(view, tx.vin), tx, |tx.vout|);
    assert tx.vout[..|tx.vout|] == tx.vout;
  }

  function BurntBy(block: seq<CTransaction>): int {
    if block == [] then 0 else BurntBy(block[..|block| - 1]) + Burnt(block[|block| - 1].vout)
  }

  lemma {:induction false} HashStaysUnused(view: View, block: seq<CTransaction>, j: nat)
    requires DistinctHashes(block) && j < |block| && !HaveCoins(view, block[j].hash)
    ensures !HaveCoins(After(view, block[..j]), block[j].hash)
  {
    forall o | o in After(view, block[..j]) ensures o.hash != block[j].hash {
      UnspentHasSource(view, block, j, o);
    }
  }

  /** The front of a list that connects also connects. */
  lemma {:induction false} FrontConnects(view: View, block: seq<CTransaction>, scripts: (CTransaction, View) -> bool)
    requires Connects(view, block, scripts) && block != []
    ensures Connects(view, block[..|block| - 1], scripts)
    ensures CheckTransaction(block[|block| - 1]) &&
      CheckInputs(After(view, block[..|block| - 1]), block[|block| - 1], scripts)
  {
    hide After, CheckTransaction, CheckInputs;
    assert forall j :: 0 <= j < |block| - 1 ==> block[..|block| - 1][..j] == block[..j];
  }

  /** Over a whole list: what leaves the unspent outputs is the fees and what was burnt, nothing else. */
  lemma {:induction false} MoneyIsConserved(view: View, block: seq<CTransaction>, scripts: (CTransaction, View) -> bool)
    requires Connects(view, block, scripts) && DistinctHashes(block)
    requires forall i :: 0 <= i < |block| ==> !HaveCoins(view, block[i].hash)
    ensures Total(After(view, block)) + Fees(view, block) + BurntBy(block) == Total(view)
    ensures Fees(view, block) >= 0
  {
    hide Total, UpdateCoins, HaveCoins, Fee, Burnt, InputsInRange, OutputsInRange, Connects;
    if block != [] {
      FrontConnects(view, block, scripts);
      MoneyIsConserved(view, block[..|block| - 1], scripts);
      LastConservesMoney(view, block, scripts);
    }
  }

  lemma {:induction false} LastConservesMoney(view: View, block: seq<CTransaction>,
          scripts: (CTransaction, View) -> bool)
    requires Connects(view, block, scripts) && DistinctHashes(block) && block != []
    requires !HaveCoins(view, block[|block| - 1].hash)
    ensures var last, before := block[|block| - 1], After(view, block[..|block| - 1]);
      HaveInputs(before, last) && Fee(before, last) >= 0 &&
        Total(After(view, block)) + Fee(before, last) + Burnt(last.vout) == Total(before)
  {
    hide Total, HaveCoins, Burnt, UpdateCoins, Fee;
    HashStaysUnused(view, block, |block| - 1);
    TransactionConservesMoney(After(view, block[..|block| - 1]), block[|block| - 1]);
  }
}
