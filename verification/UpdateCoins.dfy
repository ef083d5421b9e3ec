/**
 `UpdateCoins` on a stack of coin caches does to the unspent outputs what
 `Transactions.UpdateCoins` says, and dates them.
 */
module UpdateCoins {
  import opened Coins
  import opened CoinsCache
  import T = Transactions

  /** What a map of coins has at an outpoint. */
  function OutputAt(m: map<Txid, CCoins>, o: T.COutPoint): Option<CTxOut> {
    if o.hash in m && m[o.hash].IsAvailable(o.n) then Some(m[o.hash].vout[o.n]) else None
  }

  /** The outputs that are available are those of the view. */
  ghost predicate StandsFor(m: map<Txid, CCoins>, outputs: T.View) {
    forall o :: OutputAt(m, o) == if o in outputs then Some(outputs[o]) else None
  }

  /** Where coins come from: what a spend of some of them must not change. */
  ghost predicate SameOrigin(c: CCoins, c': CCoins) {
    c'.fCoinBase == c.fCoinBase && c'.nHeight == c.nHeight && c'.nVersion == c.nVersion
  }

  /** Coins that are still there have the origin that they had. */
  ghost predicate OriginsStay(m: map<Txid, CCoins>, m': map<Txid, CCoins>) {
    forall h :: h in m' ==> h in m && SameOrigin(m[h], m'[h])
  }

  /** The coins of transaction `tx`, if any are left, come from it; all others are as old as before. */
  ghost predicate OriginsAre(m: map<Txid, CCoins>, m': map<Txid, CCoins>, tx: T.CTransaction, nHeight: int,
          nVersion: int) {
    forall h :: h in m' ==>
      if h == tx.hash
      then m'[h].fCoinBase == tx.isCoinBase && m'[h].nHeight == nHeight && m'[h].nVersion == nVersion
      else h in m && SameOrigin(m[h], m'[h])
  }

  /** `CCoins::Spend`; `UpdateCoins` asserts that the output is available. */
  function Spend(c: CCoins, n: nat): CCoins {
    if c.IsAvailable(n) then c.(vout := c.vout[n := NULL_TXOUT]).Cleanup() else c
  }

  function Kept(out: CTxOut): CTxOut {
    if T.IsUnspendable(out) then NULL_TXOUT else out
  }

  function FromTx(tx: T.CTransaction, nHeight: int, nVersion: int): CCoins {
    CCoins(tx.isCoinBase, seq(|tx.vout|, i requires 0 <= i < |tx.vout| => Kept(tx.vout[i])), nHeight,
      nVersion).Cleanup()
  }

  function SpendThrough(v: View, o: T.COutPoint): View
    requires v.Cache?
  {
    var w := BeginModify(v, o.hash);
    EndModify(w, o.hash, Spend(w.entries[o.hash].coins, o.n))
  }

  /** The loop over the inputs. */
  function SpendAll(v: View, vin: seq<T.COutPoint>): (r: View)
    requires v.Cache?
    ensures r.Cache?
  {
    if vin == [] then v else SpendThrough(SpendAll(v, vin[..|vin| - 1]), vin[|vin| - 1])
  }

  /** A coinbase spends nothing: its one input is no outpoint. */
  function Spent(tx: T.CTransaction): seq<T.COutPoint> {
    if tx.isCoinBase then [] else tx.vin
  }

  function Update(v: View, tx: T.CTransaction, nHeight: int, nVersion: int): View
    requires v.Cache?
  {
    EndModify(BeginModify(SpendAll(v, Spent(tx)), tx.hash), tx.hash, FromTx(tx, nHeight, nVersion))
  }

  /** The assertion in the loop: the coins that the modifier hands out have the output. */
  ghost predicate Found(v: View, o: T.COutPoint)
    requires v.Cache?
  {
    BeginModify(v, o.hash).entries[o.hash].coins.IsAvailable(o.n)
  }

  lemma {:induction false} PutStandsFor(m: map<Txid, CCoins>, outputs: T.View, txid: Txid, c: CCoins, outputs': T.View)
    requires StandsFor(m, outputs)
    requires forall o: T.COutPoint :: o.hash != txid ==>
      (o in outputs <==> o in outputs') && (o in outputs ==> outputs[o] == outputs'[o])
    requires forall n: nat :: c.IsAvailable(n) <==> T.COutPoint(txid, n) in outputs'
    requires forall n: nat :: c.IsAvailable(n) ==> outputs'[T.COutPoint(txid, n)] == c.vout[n]
    ensures StandsFor(Put(m, txid, c), outputs')
  {
    CleanupKeepsOutputs(c);
    forall o ensures OutputAt(Put(m, txid, c), o) == if o in outputs' then Some(outputs'[o]) else None {
      assert OutputAt(m, o) == if o in outputs then Some(outputs[o]) else None;
      if o.hash == txid {
        assert o == T.COutPoint(txid, o.n);
      }
    }
  }

  /** One modifier, from opening to closing: the top stands for the same map with one put. */
  lemma {:induction false} ModifyIsPut(v: View, txid: Txid, c: CCoins)
    requires v.Cache? && Inv(v)
    ensures var w := BeginModify(v, txid);
            && Unspent(Some(w.entries[txid].coins)) == Get(AsMap(v), txid)
            && Inv(EndModify(w, txid, c)) && AsMap(EndModify(w, txid, c)) == Put(AsMap(v), txid, c)
  {
    hide Inv, AsMap, Lookup, Put, BeginModify, EndModify;
    BeginModifyKeepsView(v, txid);
    BeginKeepsLayers(v, txid);
    AsMapIsLookup(v, txid);
    SameLookupSameMap(BeginModify(v, txid), v);
    EndModifyIsPut(BeginModify(v, txid), txid, c);
  }

  lemma {:induction false} SpentOutputs(c: CCoins, n: nat)
    requires c.IsAvailable(n)
    ensures forall i: nat :: Spend(c, n).IsAvailable(i) <==> i != n && c.IsAvailable(i)
    ensures forall i: nat :: Spend(c, n).IsAvailable(i) ==> i < |c.vout| && Spend(c, n).vout[i] == c.vout[i]
  {
    CleanupKeepsOutputs(c.(vout := c.vout[n := NULL_TXOUT]));
  }

  lemma {:induction false} SpendKeepsOrigin(m: map<Txid, CCoins>, h: Txid, n: nat)
    requires h in m
    ensures OriginsStay(m, Put(m, h, Spend(m[h], n)))
  {
  }

  lemma {:induction false} SpendOne(v: View, outputs: T.View, o: T.COutPoint)
    requires v.Cache? && Inv(v) && StandsFor(AsMap(v), outputs) && o in outputs
    ensures Found(v, o) && Inv(SpendThrough(v, o)) && StandsFor(AsMap(SpendThrough(v, o)), outputs - {o})
    ensures OriginsStay(AsMap(v), AsMap(SpendThrough(v, o)))
  {
    hide Inv, AsMap, BeginModify, EndModify, Put, Spend;
    var c := BeginModify(v, o.hash).entries[o.hash].coins;
    ModifyIsPut(v, o.hash, Spend(c, o.n));
    assert OutputAt(AsMap(v), o) == Some(outputs[o]);
    assert c == AsMap(v)[o.hash];
    SpentOutputs(c, o.n);
    forall n: nat ensures c.IsAvailable(n) <==> T.COutPoint(o.hash, n) in outputs
      ensures c.IsAvailable(n) ==> outputs[T.COutPoint(o.hash, n)] == c.vout[n]
    {
      assert OutputAt(AsMap(v), T.COutPoint(o.hash, n)) == if c.IsAvailable(n) then Some(c.vout[n]) else None;
    }
    PutStandsFor(AsMap(v), outputs, o.hash, Spend(c, o.n), outputs - {o});
    SpendKeepsOrigin(AsMap(v), o.hash, o.n);
  }

  /** The inputs of the first positions, as a set. */
  function InputSet(vin: seq<T.COutPoint>): set<T.COutPoint> {
    set i | 0 <= i < |vin| :: vin[i]
  }

  lemma {:induction false} SpendEach(v: View, outputs: T.View, vin: seq<T.COutPoint>)
    requires v.Cache? && Inv(v) && StandsFor(AsMap(v), outputs) && forall i :: 0 <= i < |vin| ==> vin[i] in outputs
    requires forall i, j :: 0 <= i < j < |vin| ==> vin[i] != vin[j]
    ensures forall i :: 0 <= i < |vin| ==> Found(SpendAll(v, vin[..i]), vin[i])
    ensures Inv(SpendAll(v, vin)) && StandsFor(AsMap(SpendAll(v, vin)), outputs - InputSet(vin))
    ensures OriginsStay(AsMap(v), AsMap(SpendAll(v, vin)))
  {
    hide Inv, AsMap, SpendThrough, StandsFor, Found, InputSet, OriginsStay;
    if vin == [] {
      NoInputs(outputs);
      SameOrigins(AsMap(v));
    } else {
      var last := |vin| - 1;
      var front := vin[..last];
      SpendEach(v, outputs, front);
      LastInput(outputs, vin);
      SpendOne(SpendAll(v, front), outputs - InputSet(front), vin[last]);
      OriginsStayTwice(AsMap(v), AsMap(SpendAll(v, front)), AsMap(SpendAll(v, vin)));
      forall i | 0 <= i < |vin| ensures Found(SpendAll(v, vin[..i]), vin[i]) {
        if i < last {
          assert front[..i] == vin[..i];
        }
      }
    }
  }

  lemma {:induction false} SameOrigins(m: map<Txid, CCoins>)
    ensures OriginsStay(m, m)
  {
  }

  lemma {:induction false} OriginsStayTwice(m: map<Txid, CCoins>, m1: map<Txid, CCoins>, m2: map<Txid, CCoins>)
    requires OriginsStay(m, m1) && OriginsStay(m1, m2)
    ensures OriginsStay(m, m2)
  {
  }

  lemma {:induction false} NoInputs(outputs: T.View)
    ensures outputs - InputSet([]) == outputs
  {
  }

  lemma {:induction false} LastInput(outputs: T.View, vin: seq<T.COutPoint>)
    requires vin != [] && vin[|vin| - 1] in outputs && forall i, j :: 0 <= i < j < |vin| ==> vin[i] != vin[j]
    ensures var front, last := InputSet(vin[..|vin| - 1]), vin[|vin| - 1];
            last in outputs - front && outputs - front - {last} == outputs - InputSet(vin)
  {
    var last := |vin| - 1;
    assert InputSet(vin) == InputSet(vin[..last]) + {vin[last]};
  }

  lemma {:induction false} CreatedOutputs(tx: T.CTransaction, nHeight: int, nVersion: int)
    ensures var c := FromTx(tx, nHeight, nVersion);
            && (forall n: nat :: c.IsAvailable(n) <==> T.COutPoint(tx.hash, n) in T.Created(tx))
            && (forall n: nat :: c.IsAvailable(n) ==> T.Created(tx)[T.COutPoint(tx.hash, n)] == c.vout[n])
  {
    var raw := CCoins(tx.isCoinBase, seq(|tx.vout|, i requires 0 <= i < |tx.vout| => Kept(tx.vout[i])), nHeight,
      nVersion);
    CleanupKeepsOutputs(raw);
    forall n: nat ensures raw.IsAvailable(n) <==> n < |tx.vout| && T.IsKept(tx.vout[n]) {}
  }

  /**
   Through any stack of caches, `UpdateCoins` never comes to its assertion when the inputs are unspent
   and distinct, and leaves the top of the stack standing for the updated set of unspent outputs. New
   coins carry the height and version of their transaction and whether it is a coinbase; old ones
   keep theirs.
   */
  lemma {:induction false} UpdateIsUpdateCoins(v: View, outputs: T.View, tx: T.CTransaction, nHeight: int,
      nVersion: int)
    requires v.Cache? && Inv(v) && StandsFor(AsMap(v), outputs)
    requires tx.isCoinBase || (T.HaveInputs(outputs, tx) && T.DistinctInputs(tx))
    ensures forall i :: 0 <= i < |Spent(tx)| ==> Found(SpendAll(v, Spent(tx)[..i]), Spent(tx)[i])
    ensures Inv(Update(v, tx, nHeight, nVersion))
    ensures var spending := if tx.isCoinBase then tx.(vin := []) else tx;
            StandsFor(AsMap(Update(v, tx, nHeight, nVersion)), T.UpdateCoins(outputs, spending))
    ensures OriginsAre(AsMap(v), AsMap(Update(v, tx, nHeight, nVersion)), tx, nHeight, nVersion)
  {
    hide Inv, AsMap, BeginModify, EndModify, Put, StandsFor, SpendAll, T.Created, FromTx, Found, OriginsStay,
      OriginsAre;
    var spending := tx.(vin := Spent(tx));
    SpendEach(v, outputs, spending.vin);
    var w, c := SpendAll(v, spending.vin), FromTx(tx, nHeight, nVersion);
    ModifyIsPut(w, tx.hash, c);
    CreatedOutputs(tx, nHeight, nVersion);
    CreatedHashes(tx);
    assert T.Created(spending) == T.Created(tx) by {
      SameOutputsCreated(spending, tx);
    }
    assert InputSet(spending.vin) == T.Inputs(spending);
    PutStandsFor(AsMap(w), outputs - InputSet(spending.vin), tx.hash, c, T.UpdateCoins(outputs, spending));
    PutOrigins(AsMap(v), AsMap(w), tx, nHeight, nVersion);
  }

  lemma {:induction false} PutOrigins(m: map<Txid, CCoins>, w: map<Txid, CCoins>, tx: T.CTransaction, nHeight: int,
          nVersion: int)
    requires OriginsStay(m, w)
    ensures OriginsAre(m, Put(w, tx.hash, FromTx(tx, nHeight, nVersion)), tx, nHeight, nVersion)
  {
  }

  lemma {:induction false} SameOutputsCreated(a: T.CTransaction, b: T.CTransaction)
    requires a.hash == b.hash && a.vout == b.vout
    ensures T.Created(a) == T.Created(b)
  {
  }

  lemma {:induction false} CreatedHashes(tx: T.CTransaction)
    ensures forall o :: o in T.Created(tx) ==> o.hash == tx.hash
  {
  }
}
