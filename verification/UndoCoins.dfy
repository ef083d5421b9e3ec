/**
 Disconnecting a block: undo information brings back exactly the coins that there were before,
 through any stack of caches.
 */
module UndoCoins {
  import opened Coins
  import opened CoinsCache
  import opened U = UpdateCoins
  import T = Transactions
  import opened Compressor
  import opened V = CoinsViewCache
  import opened VarInt

  /** The output that was spent, and the origin of its coins if it was the last one. */
  datatype CTxInUndo = CTxInUndo(txout: CTxOut, fCoinBase: bool, nHeight: int, nVersion: int)

  /** What `CCoins::Spend` records. */
  function UndoOf(c: CCoins, n: nat): CTxInUndo
    requires c.IsAvailable(n)
  {
    if Spend(c, n).vout == [] then CTxInUndo(c.vout[n], c.fCoinBase, c.nHeight, c.nVersion)
    else CTxInUndo(c.vout[n], false, 0, 0)
  }

  /** `resize`, which fills up with null outputs. */
  function AtLeast(vout: seq<CTxOut>, n: nat): (r: seq<CTxOut>)
    ensures |r| == (if |vout| < n then n else |vout|)
    ensures forall i :: 0 <= i < |r| ==> r[i] == if i < |vout| then vout[i] else NULL_TXOUT
  {
    if |vout| >= n then vout else vout + seq(n - |vout|, _ => NULL_TXOUT)
  }

  /** What `DisconnectBlock` makes of the coins that an input had spent. */
  function Restored(c: CCoins, n: nat, undo: CTxInUndo): CCoins {
    var base := if undo.nHeight != 0 then CCoins(undo.fCoinBase, [], undo.nHeight, undo.nVersion) else c;
    base.(vout := AtLeast(base.vout, n + 1)[n := undo.txout])
  }

  // ---------------------------------------------------------------------- one output

  /** Spent outputs are cleared, and the coins are none of the genesis block, which is never connected. */
  ghost predicate IsProper(c: CCoins) {
    c.IsTrimmed() && c.nHeight != 0 && forall i :: 0 <= i < |c.vout| && c.vout[i].IsNull() ==> c.vout[i] == NULL_TXOUT
  }

  ghost predicate Proper(m: map<Txid, CCoins>) {
    forall h :: h in m ==> IsProper(m[h]) && !m[h].IsPruned()
  }

  /** Spending and restoring an output, of coins that are left or of coins that were pruned and forgotten. */
  lemma {:induction false} RestoredIs(c: CCoins, n: nat, handed: CCoins)
    requires IsProper(c) && c.IsAvailable(n)
    requires if Spend(c, n).IsPruned() then handed.IsPruned() else handed == Spend(c, n)
    ensures Restored(handed, n, UndoOf(c, n)) == c
  {
    hide Trim, AtLeast, CCoins.IsPruned;
    SpentIsTrimmed(c, n);
    BackInPlace(c.vout, n);
    var spent := Spend(c, n);
    assert spent.vout == Trim(c.vout[n := NULL_TXOUT]);
  }

  lemma {:induction false} BackInPlace(vout: seq<CTxOut>, n: nat)
    requires n < |vout| && !vout[n].IsNull() && !vout[|vout| - 1].IsNull()
    requires forall i :: 0 <= i < |vout| && vout[i].IsNull() ==> vout[i] == NULL_TXOUT
    ensures AtLeast(Trim(vout[n := NULL_TXOUT]), n + 1)[n := vout[n]] == vout
  {
    hide Trim;
    var cleared := vout[n := NULL_TXOUT];
    TrimKeepsFront(cleared);
    LastStays(cleared);
    assert n < |vout| - 1 ==> Trim(cleared) == cleared;
    var r := AtLeast(Trim(cleared), n + 1)[n := vout[n]];
    forall i | 0 <= i < |vout| ensures i < |r| && r[i] == vout[i] {
      assert i != n ==> cleared[i] == vout[i];
    }
    assert |r| == |vout|;
  }

  lemma {:induction false} LastStays(vout: seq<CTxOut>)
    ensures vout != [] && !vout[|vout| - 1].IsNull() ==> Trim(vout) == vout
  {
  }

  lemma {:induction false} SpentIsTrimmed(c: CCoins, n: nat)
    requires c.IsAvailable(n)
    ensures Spend(c, n).IsTrimmed() && (Spend(c, n).IsPruned() <==> Spend(c, n).vout == [])
  {
    CleanupKeepsOutputs(c.(vout := c.vout[n := NULL_TXOUT]));
    CleanupKeepsOutputs(Spend(c, n));
  }

  lemma {:induction false} TrimKeepsFront(vout: seq<CTxOut>)
    ensures |Trim(vout)| <= |vout| && Trim(vout) == vout[..|Trim(vout)|]
    ensures forall i :: |Trim(vout)| <= i < |vout| ==> vout[i].IsNull()
  {
    if vout != [] && vout[|vout| - 1].IsNull() {
      TrimKeepsFront(vout[..|vout| - 1]);
    }
  }

  // ----------------------------------------------------------------------- one input

  /** What `DisconnectBlock` expects of the coins that it restores an output to. */
  predicate IsCleanRestore(c: CCoins, n: nat, undo: CTxInUndo) {
    if undo.nHeight != 0 then c.IsPruned() else !c.IsPruned() && !c.IsAvailable(n)
  }

  lemma {:induction false} RestoreIsClean(c: CCoins, n: nat, handed: CCoins)
    requires IsProper(c) && c.IsAvailable(n)
    requires if Spend(c, n).IsPruned() then handed.IsPruned() else handed == Spend(c, n)
    ensures IsCleanRestore(handed, n, UndoOf(c, n))
  {
    SpentIsTrimmed(c, n);
    SpentOutputs(c, n);
  }

  /**
   A restore is clean if and only if spending the output again would give back the coins and the undo information
   that there were, and there is something that says where the coins come from.
   */
  lemma {:induction false} CleanRestoreIff(c: CCoins, n: nat, undo: CTxInUndo)
    requires c.IsTrimmed() && forall i :: 0 <= i < |c.vout| && c.vout[i].IsNull() ==> c.vout[i] == NULL_TXOUT
    requires !undo.txout.IsNull() && (undo.nHeight == 0 ==> !undo.fCoinBase && undo.nVersion == 0)
    ensures var r := Restored(c, n, undo);
            && r.IsAvailable(n)
            && (IsCleanRestore(c, n, undo) <==>
              SameCoins(Spend(r, n), c) && UndoOf(r, n) == undo && (undo.nHeight == 0 ==> !c.IsPruned()))
  {
    hide Trim;
    var r := Restored(c, n, undo);
    SpentIsTrimmed(r, n);
    SpentOutputs(r, n);
    EmptyStays();
    LastStays(c.vout);
    if undo.nHeight != 0 {
      assert Spend(r, n).IsPruned();
    } else if !c.IsPruned() && !c.IsAvailable(n) {
      SpendOfExtended(c, n);
      assert r.vout[n := NULL_TXOUT] == AtLeast(c.vout, n + 1)[n := NULL_TXOUT];
      assert Spend(r, n) == c;
    }
  }

  lemma {:induction false} SpendOfExtended(c: CCoins, n: nat)
    requires c.IsTrimmed() && !c.IsPruned() && !c.IsAvailable(n)
    requires forall i :: 0 <= i < |c.vout| && c.vout[i].IsNull() ==> c.vout[i] == NULL_TXOUT
    ensures Trim(AtLeast(c.vout, n + 1)[n := NULL_TXOUT]) == c.vout
  {
    var vout := AtLeast(c.vout, n + 1)[n := NULL_TXOUT];
    assert vout == c.vout + seq(|vout| - |c.vout|, _ => NULL_TXOUT);
    TrimOfPadded(c.vout, |vout| - |c.vout|);
  }

  lemma {:induction false} TrimOfPadded(vout: seq<CTxOut>, k: nat)
    requires vout != [] && !vout[|vout| - 1].IsNull()
    ensures Trim(vout + seq(k, _ => NULL_TXOUT)) == vout
  {
    var padded := vout + seq(k, _ => NULL_TXOUT);
    if k > 0 {
      TrimOfPadded(vout, k - 1);
      assert padded[..|padded| - 1] == vout + seq(k - 1, _ => NULL_TXOUT);
    } else {
      assert padded == vout;
    }
  }

  /** One modifier of the loop that restores inputs. */
  function RestoreThrough(v: View, o: T.COutPoint, undo: CTxInUndo): (r: View)
    requires v.Cache?
    ensures r.Cache?
  {
    var w := BeginModify(v, o.hash);
    EndModify(w, o.hash, Restored(w.entries[o.hash].coins, o.n, undo))
  }

  /** The undo information that spending `o` collects. */
  function UndoAt(v: View, o: T.COutPoint): CTxInUndo
    requires v.Cache?
  {
    var c := BeginModify(v, o.hash).entries[o.hash].coins;
    if c.IsAvailable(o.n) then UndoOf(c, o.n) else CTxInUndo(NULL_TXOUT, false, 0, 0)
  }

  lemma {:induction false} SpendIsPut(v: View, o: T.COutPoint)
    requires v.Cache? && Inv(v) && Proper(AsMap(v)) && Found(v, o)
    ensures o.hash in AsMap(v) && AsMap(v)[o.hash].IsAvailable(o.n) && UndoAt(v, o) == UndoOf(AsMap(v)[o.hash], o.n)
    ensures Inv(SpendThrough(v, o))
    ensures AsMap(SpendThrough(v, o)) == Put(AsMap(v), o.hash, Spend(AsMap(v)[o.hash], o.n))
    ensures Proper(AsMap(SpendThrough(v, o)))
  {
    hide Inv, AsMap, BeginModify, EndModify, Put, Spend, UndoOf, IsProper;
    var c := BeginModify(v, o.hash).entries[o.hash].coins;
    ModifyIsPut(v, o.hash, Spend(c, o.n));
    assert c == AsMap(v)[o.hash];
    SpendStaysProper(AsMap(v), o.hash, o.n);
  }

  lemma {:induction false} SpendStaysProper(m: map<Txid, CCoins>, h: Txid, n: nat)
    requires Proper(m) && h in m && m[h].IsAvailable(n)
    ensures Proper(Put(m, h, Spend(m[h], n)))
  {
    hide Trim;
    var c := m[h];
    SpentIsTrimmed(c, n);
    TrimKeepsFront(c.vout[n := NULL_TXOUT]);
    LastStays(Spend(c, n).vout);
    EmptyStays();
    assert Spend(c, n).Cleanup() == Spend(c, n);
  }

  lemma {:induction false} RestoreUndoesOne(m: map<Txid, CCoins>, v: View, o: T.COutPoint)
    requires v.Cache? && Inv(v) && Proper(m) && o.hash in m && m[o.hash].IsAvailable(o.n)
    requires AsMap(v) == Put(m, o.hash, Spend(m[o.hash], o.n))
    ensures Inv(RestoreThrough(v, o, UndoOf(m[o.hash], o.n)))
    ensures AsMap(RestoreThrough(v, o, UndoOf(m[o.hash], o.n))) == m
    ensures IsCleanRestore(BeginModify(v, o.hash).entries[o.hash].coins, o.n, UndoOf(m[o.hash], o.n))
  {
    hide Inv, AsMap, BeginModify, EndModify, Restored, UndoOf, Spend, IsProper, IsCleanRestore;
    var c, undo := m[o.hash], UndoOf(m[o.hash], o.n);
    var handed := BeginModify(v, o.hash).entries[o.hash].coins;
    ModifyIsPut(v, o.hash, Restored(handed, o.n, undo));
    SpentIsTrimmed(c, o.n);
    PutAgain(m, o.hash, Spend(c, o.n));
    RestoredIs(c, o.n, handed);
    RestoreIsClean(c, o.n, handed);
  }

  lemma {:induction false} PutAgain(m: map<Txid, CCoins>, h: Txid, c: CCoins)
    requires Proper(m) && h in m && c.IsTrimmed()
    ensures Put(Put(m, h, c), h, m[h]) == m
    ensures Get(Put(m, h, c), h) == Unspent(Some(c))
  {
    assert m[h].Cleanup() == m[h] && c.Cleanup() == c;
  }

  // -------------------------------------------------------------------- a transaction

  /** The undo information of all inputs. */
  function Undos(v: View, vin: seq<T.COutPoint>): (undos: seq<CTxInUndo>)
    requires v.Cache?
    ensures |undos| == |vin|
  {
    if vin == [] then [] else
      var front := vin[..|vin| - 1];
      Undos(v, front) + [UndoAt(SpendAll(v, front), vin[|vin| - 1])]
  }

  /** The inputs are restored from the last one to the first. */
  function RestoreAll(v: View, vin: seq<T.COutPoint>, undos: seq<CTxInUndo>): (r: View)
    requires v.Cache? && |undos| == |vin|
    ensures r.Cache?
    decreases |vin|
  {
    if vin == [] then v else
      var last := |vin| - 1;
      RestoreAll(RestoreThrough(v, vin[last], undos[last]), vin[..last], undos[..last])
  }

  predicate RestoresCleanly(v: View, vin: seq<T.COutPoint>, undos: seq<CTxInUndo>)
    requires v.Cache? && |undos| == |vin|
    decreases |vin|
  {
    vin == [] ||
      var last := |vin| - 1;
      && IsCleanRestore(BeginModify(v, vin[last].hash).entries[vin[last].hash].coins, vin[last].n, undos[last])
      && RestoresCleanly(RestoreThrough(v, vin[last], undos[last]), vin[..last], undos[..last])
  }

  ghost predicate AllFound(v: View, vin: seq<T.COutPoint>)
    requires v.Cache?
  {
    forall i :: 0 <= i < |vin| ==> Found(SpendAll(v, vin[..i]), vin[i])
  }

  lemma {:induction false} FrontIsFound(v: View, vin: seq<T.COutPoint>)
    requires v.Cache? && vin != [] && AllFound(v, vin)
    ensures AllFound(v, vin[..|vin| - 1]) && Found(SpendAll(v, vin[..|vin| - 1]), vin[|vin| - 1])
  {
    hide Found, SpendAll;
    var front := vin[..|vin| - 1];
    forall i | 0 <= i < |front| ensures Found(SpendAll(v, front[..i]), front[i]) {
      assert front[..i] == vin[..i];
    }
  }

  lemma {:induction false} SpendsStayProper(v: View, vin: seq<T.COutPoint>)
    requires v.Cache? && Inv(v) && Proper(AsMap(v)) && AllFound(v, vin)
    ensures Inv(SpendAll(v, vin)) && Proper(AsMap(SpendAll(v, vin)))
  {
    hide Inv, AsMap, Proper, SpendThrough, Found, AllFound;
    if vin != [] {
      FrontIsFound(v, vin);
      SpendsStayProper(v, vin[..|vin| - 1]);
      SpendIsPut(SpendAll(v, vin[..|vin| - 1]), vin[|vin| - 1]);
    }
  }

  /** Whatever stack stands for the coins after the spends, restoring makes it stand for those before. */
  lemma {:induction false} RestoreUndoesAll(v0: View, v: View, vin: seq<T.COutPoint>)
    requires v0.Cache? && Inv(v0) && Proper(AsMap(v0)) && AllFound(v0, vin)
    requires v.Cache? && Inv(v) && AsMap(v) == AsMap(SpendAll(v0, vin))
    ensures Inv(RestoreAll(v, vin, Undos(v0, vin))) && AsMap(RestoreAll(v, vin, Undos(v0, vin))) == AsMap(v0)
    ensures RestoresCleanly(v, vin, Undos(v0, vin))
    decreases |vin|
  {
    hide Inv, AsMap, Proper, SpendThrough, RestoreThrough, Found, AllFound, UndoAt, UndoOf, Put, Spend, IsCleanRestore,
      BeginModify;
    if vin != [] {
      var last := |vin| - 1;
      var front, o := vin[..last], vin[last];
      var v1, undos := SpendAll(v0, front), Undos(v0, vin);
      FrontIsFound(v0, vin);
      SpendsStayProper(v0, front);
      SpendIsPut(v1, o);
      RestoreUndoesOne(AsMap(v1), v, o);
      assert undos[..last] == Undos(v0, front) && undos[last] == UndoAt(v1, o);
      RestoreUndoesAll(v0, RestoreThrough(v, o, undos[last]), front);
    }
  }

  /** `ClearUnspendable`. */
  function ClearUnspendable(c: CCoins): CCoins {
    c.(vout := seq(|c.vout|, i requires 0 <= i < |c.vout| => U.Kept(c.vout[i]))).Cleanup()
  }

  /** `operator==`: all pruned coins are equal. */
  predicate SameCoins(a: CCoins, b: CCoins) { (a.IsPruned() && b.IsPruned()) || a == b }

  /** What is found of a transaction is what it made; a negative version is lost when coins are stored, and ignored. */
  predicate IsCleanRemoval(found: CCoins, tx: T.CTransaction, nHeight: int, nVersion: int) {
    var outs := ClearUnspendable(found);
    SameCoins(if nVersion < 0 then outs.(nVersion := nVersion) else outs, FromTx(tx, nHeight, nVersion))
  }

  /**
   Coins without unspendable outputs are found as they should be if and only if nothing was to be left and nothing is,
   or they are those of the transaction, except for a version that is negative and may have been stored.
   */
  lemma {:induction false} CleanRemovalIff(found: CCoins, tx: T.CTransaction, nHeight: int, nVersion: int)
    requires found.IsTrimmed() && forall i :: 0 <= i < |found.vout| ==> U.Kept(found.vout[i]) == found.vout[i]
    ensures var made := FromTx(tx, nHeight, nVersion);
            IsCleanRemoval(found, tx, nHeight, nVersion) <==>
              || (found.IsPruned() && made.IsPruned())
              || (found.vout == made.vout && found.fCoinBase == tx.isCoinBase && found.nHeight == nHeight &&
                  (nVersion >= 0 ==> found.nVersion == nVersion))
  {
    hide Trim;
    assert seq(|found.vout|, i requires 0 <= i < |found.vout| => U.Kept(found.vout[i])) == found.vout;
    LastStays(found.vout);
    EmptyStays();
    assert ClearUnspendable(found) == found;
  }

  /** The coins of the transaction are removed, and its inputs restored. */
  function UndoTx(v: View, tx: T.CTransaction, undos: seq<CTxInUndo>): (r: View)
    requires v.Cache? && |undos| == |Spent(tx)|
    ensures r.Cache?
  {
    RestoreAll(EndModify(BeginModify(v, tx.hash), tx.hash, CLEARED), Spent(tx), undos)
  }

  predicate UndoesCleanly(v: View, tx: T.CTransaction, nHeight: int, nVersion: int, undos: seq<CTxInUndo>)
    requires v.Cache? && |undos| == |Spent(tx)|
  {
    var w := BeginModify(v, tx.hash);
    && IsCleanRemoval(w.entries[tx.hash].coins, tx, nHeight, nVersion)
    && RestoresCleanly(EndModify(w, tx.hash, CLEARED), Spent(tx), undos)
  }

  lemma {:induction false} FromTxIsProper(tx: T.CTransaction, nHeight: int, nVersion: int)
    requires nHeight != 0 && forall i :: 0 <= i < |tx.vout| ==> !tx.vout[i].IsNull()
    ensures var c := FromTx(tx, nHeight, nVersion);
            IsProper(c) && ClearUnspendable(c) == c && c.Cleanup() == c && c.nVersion == nVersion
  {
    hide Trim;
    var vout := seq(|tx.vout|, i requires 0 <= i < |tx.vout| => U.Kept(tx.vout[i]));
    var c := FromTx(tx, nHeight, nVersion);
    assert c.vout == Trim(vout);
    TrimKeepsFront(vout);
    CleanupKeepsOutputs(CCoins(tx.isCoinBase, vout, nHeight, nVersion));
    LastStays(c.vout);
    EmptyStays();
    assert seq(|c.vout|, i requires 0 <= i < |c.vout| => U.Kept(c.vout[i])) == c.vout;
  }

  /** A transaction whose coins are new can be undone: what stands for what it left then stands for what it found. */
  lemma {:induction false} UndoUndoesUpdate(v0: View, v: View, tx: T.CTransaction, nHeight: int, nVersion: int)
    requires v0.Cache? && Inv(v0) && Proper(AsMap(v0)) && AllFound(v0, Spent(tx))
    requires tx.hash !in AsMap(SpendAll(v0, Spent(tx))) && nHeight != 0
    requires forall i :: 0 <= i < |tx.vout| ==> !tx.vout[i].IsNull()
    requires v.Cache? && Inv(v) && AsMap(v) == AsMap(Update(v0, tx, nHeight, nVersion))
    ensures Inv(Update(v0, tx, nHeight, nVersion)) && Proper(AsMap(v))
    ensures Inv(UndoTx(v, tx, Undos(v0, Spent(tx)))) && AsMap(UndoTx(v, tx, Undos(v0, Spent(tx)))) == AsMap(v0)
    ensures UndoesCleanly(v, tx, nHeight, nVersion, Undos(v0, Spent(tx)))
  {
    hide Inv, AsMap, IsProper, SpendAll, Found, AllFound, Undos, FromTx, BeginModify, EndModify, RestoreAll,
      RestoresCleanly, ClearUnspendable;
    var u, c := SpendAll(v0, Spent(tx)), FromTx(tx, nHeight, nVersion);
    SpendsStayProper(v0, Spent(tx));
    ModifyIsPut(u, tx.hash, c);
    FromTxIsProper(tx, nHeight, nVersion);
    var w := BeginModify(v, tx.hash);
    ModifyIsPut(v, tx.hash, CLEARED);
    assert Put(Put(AsMap(u), tx.hash, c), tx.hash, CLEARED) == AsMap(u);
    RestoreUndoesAll(v0, EndModify(w, tx.hash, CLEARED), Spent(tx));
    FoundIsClean(w.entries[tx.hash].coins, tx, nHeight, nVersion);
  }

  lemma {:induction false} EmptyStays()
    ensures Trim([]) == []
  {
  }

  lemma {:induction false} FoundIsClean(found: CCoins, tx: T.CTransaction, nHeight: int, nVersion: int)
    requires nHeight != 0 && forall i :: 0 <= i < |tx.vout| ==> !tx.vout[i].IsNull()
    requires var c := FromTx(tx, nHeight, nVersion); if c.IsPruned() then found.IsPruned() else found == c
    ensures IsCleanRemoval(found, tx, nHeight, nVersion)
  {
    FromTxIsProper(tx, nHeight, nVersion);
    if found.IsPruned() {
      CleanupKeepsPruned(found.(vout := seq(|found.vout|, i requires 0 <= i < |found.vout| => U.Kept(found.vout[i]))));
    }
  }

  // Coins that a transaction overwrites are lost.

  lemma {:induction false} OutputOfPut(m: map<Txid, CCoins>, h: Txid, c: CCoins, o: T.COutPoint)
    ensures OutputAt(Put(m, h, c), o) ==
      if o.hash != h then OutputAt(m, o) else if c.IsAvailable(o.n) then Some(c.vout[o.n]) else None
  {
    CleanupKeepsOutputs(c);
  }

  lemma {:induction false} RestoreAddsOnly(v: View, vin: seq<T.COutPoint>, undos: seq<CTxInUndo>, o: T.COutPoint)
    requires v.Cache? && Inv(v) && |undos| == |vin|
    ensures OutputAt(AsMap(RestoreAll(v, vin, undos)), o).Some? ==> OutputAt(AsMap(v), o).Some? || o in vin
    decreases |vin|
  {
    hide Inv, AsMap, RestoreThrough;
    if vin != [] {
      var last := |vin| - 1;
      RestoreAddsOne(v, vin[last], undos[last], o);
      RestoreAddsOnly(RestoreThrough(v, vin[last], undos[last]), vin[..last], undos[..last], o);
    }
  }

  lemma {:induction false} RestoreAddsOne(v: View, p: T.COutPoint, undo: CTxInUndo, o: T.COutPoint)
    requires v.Cache? && Inv(v)
    ensures Inv(RestoreThrough(v, p, undo))
    ensures OutputAt(AsMap(RestoreThrough(v, p, undo)), o).Some? ==> OutputAt(AsMap(v), o).Some? || o == p
  {
    hide Inv, AsMap, BeginModify, EndModify, Put;
    var handed := BeginModify(v, p.hash).entries[p.hash].coins;
    var c := Restored(handed, p.n, undo);
    ModifyIsPut(v, p.hash, c);
    OutputOfPut(AsMap(v), p.hash, c, o);
    if o.hash == p.hash && o.n != p.n && c.IsAvailable(o.n) {
      assert handed.IsAvailable(o.n) && !handed.IsPruned();
      assert handed == AsMap(v)[p.hash];
    }
  }

  lemma {:induction false} SpendRemoves(v: View, vin: seq<T.COutPoint>, o: T.COutPoint)
    requires v.Cache? && Inv(v) && Proper(AsMap(v)) && AllFound(v, vin)
    requires OutputAt(AsMap(SpendAll(v, vin)), o).Some?
    ensures OutputAt(AsMap(v), o).Some? && o !in vin
  {
    hide Inv, AsMap, Proper, SpendThrough, Found, AllFound, Put, Spend, UndoAt, UndoOf;
    if vin != [] {
      var last := |vin| - 1;
      var u, p := SpendAll(v, vin[..last]), vin[last];
      FrontIsFound(v, vin);
      SpendsStayProper(v, vin[..last]);
      SpendIsPut(u, p);
      OutputOfPut(AsMap(u), p.hash, Spend(AsMap(u)[p.hash], p.n), o);
      SpentOutputs(AsMap(u)[p.hash], p.n);
      SpendRemoves(v, vin[..last], o);
    }
  }

  /** Undoing gives back the coins there were if and only if the transaction overwrote none. */
  lemma {:induction false} UndoIsRightIff(v0: View, v: View, tx: T.CTransaction, nHeight: int, nVersion: int)
    requires v0.Cache? && Inv(v0) && Proper(AsMap(v0)) && AllFound(v0, Spent(tx)) && nHeight != 0
    requires forall i :: 0 <= i < |tx.vout| ==> !tx.vout[i].IsNull()
    requires v.Cache? && Inv(v) && AsMap(v) == AsMap(Update(v0, tx, nHeight, nVersion))
    ensures AsMap(UndoTx(v, tx, Undos(v0, Spent(tx)))) == AsMap(v0) <==> tx.hash !in AsMap(SpendAll(v0, Spent(tx)))
  {
    hide Inv, AsMap, IsProper, SpendAll, Update, AllFound, Undos, RestoreAll, BeginModify, EndModify, Put;
    var u := SpendAll(v0, Spent(tx));
    if tx.hash in AsMap(u) {
      SpendsStayProper(v0, Spent(tx));
      var n :| 0 <= n < |AsMap(u)[tx.hash].vout| && !AsMap(u)[tx.hash].vout[n].IsNull();
      var o := T.COutPoint(tx.hash, n);
      SpendRemoves(v0, Spent(tx), o);
      var w := BeginModify(v, tx.hash);
      ModifyIsPut(v, tx.hash, CLEARED);
      OutputOfPut(AsMap(v), tx.hash, CLEARED, o);
      RestoreAddsOnly(EndModify(w, tx.hash, CLEARED), Spent(tx), Undos(v0, Spent(tx)), o);
    } else {
      UndoUndoesUpdate(v0, v, tx, nHeight, nVersion);
    }
  }

  /** The origin of coins at height zero is not recorded: their last output comes back without it. */
  lemma {:induction false} OriginAtZeroIsLost(out: CTxOut)
    requires !out.IsNull()
    ensures var c := CCoins(true, [out], 0, 1);
            c.IsAvailable(0) && Restored(CLEARED, 0, UndoOf(c, 0)) == CCoins(false, [out], 0, 0)
  {
    var c := CCoins(true, [out], 0, 1);
    assert c.vout[0 := NULL_TXOUT] == [NULL_TXOUT] && Trim([NULL_TXOUT]) == [];
    assert AtLeast([], 1) == [NULL_TXOUT];
  }

  // -------------------------------------------------------------------------- a block

  /** The transactions of a block, with their versions, updating the coins one after the other. */
  function Connect(v: View, block: seq<T.CTransaction>, nHeight: int, version: T.CTransaction -> int): (r: View)
    requires v.Cache?
    ensures r.Cache?
  {
    if block == [] then v else
      var last := block[|block| - 1];
      Update(Connect(v, block[..|block| - 1], nHeight, version), last, nHeight, version(last))
  }

  /** The undo information of the whole block; that of the coinbase is empty. */
  function BlockUndos(v: View, block: seq<T.CTransaction>, nHeight: int, version: T.CTransaction -> int):
      (undos: seq<seq<CTxInUndo>>)
    requires v.Cache?
    ensures |undos| == |block| && forall i :: 0 <= i < |block| ==> |undos[i]| == |Spent(block[i])|
  {
    if block == [] then [] else
      var front, last := block[..|block| - 1], block[|block| - 1];
      BlockUndos(v, front, nHeight, version) + [Undos(Connect(v, front, nHeight, version), Spent(last))]
  }

  ghost predicate Matches(block: seq<T.CTransaction>, undos: seq<seq<CTxInUndo>>) {
    |undos| == |block| && forall i :: 0 <= i < |block| ==> |undos[i]| == |Spent(block[i])|
  }

  /** From the last transaction to the first. */
  function Disconnect(v: View, block: seq<T.CTransaction>, undos: seq<seq<CTxInUndo>>): (r: View)
    requires v.Cache? && Matches(block, undos)
    ensures r.Cache?
    decreases |block|
  {
    if block == [] then v else
      var last := |block| - 1;
      Disconnect(UndoTx(v, block[last], undos[last]), block[..last], undos[..last])
  }

  ghost predicate DisconnectsCleanly(v: View, block: seq<T.CTransaction>, nHeight: int,
          version: T.CTransaction -> int, undos: seq<seq<CTxInUndo>>)
    requires v.Cache? && Matches(block, undos)
    decreases |block|
  {
    block == [] ||
      var last := |block| - 1;
      && UndoesCleanly(v, block[last], nHeight, version(block[last]), undos[last])
      && DisconnectsCleanly(UndoTx(v, block[last], undos[last]), block[..last], nHeight, version, undos[..last])
  }

  /** Each transaction finds its inputs, and none whose coins it would overwrite; no output is null. */
  ghost predicate Connectable(v: View, block: seq<T.CTransaction>, nHeight: int, version: T.CTransaction -> int)
    requires v.Cache?
  {
    forall i :: 0 <= i < |block| ==> CanFollow(Connect(v, block[..i], nHeight, version), block[i])
  }

  ghost predicate CanFollow(v: View, tx: T.CTransaction)
    requires v.Cache?
  {
    && AllFound(v, Spent(tx)) && tx.hash !in AsMap(SpendAll(v, Spent(tx)))
    && forall i :: 0 <= i < |tx.vout| ==> !tx.vout[i].IsNull()
  }

  lemma {:induction false} FrontConnects(v: View, block: seq<T.CTransaction>, nHeight: int,
          version: T.CTransaction -> int)
    requires v.Cache? && block != [] && Connectable(v, block, nHeight, version)
    ensures var front := block[..|block| - 1];
            Connectable(v, front, nHeight, version) &&
              CanFollow(Connect(v, front, nHeight, version), block[|block| - 1])
  {
    hide CanFollow, Connect;
    var front := block[..|block| - 1];
    forall i | 0 <= i < |front| ensures CanFollow(Connect(v, front[..i], nHeight, version), front[i]) {
      assert front[..i] == block[..i];
    }
  }

  lemma {:induction false} ConnectStaysProper(v: View, block: seq<T.CTransaction>, nHeight: int,
          version: T.CTransaction -> int)
    requires v.Cache? && Inv(v) && Proper(AsMap(v)) && nHeight != 0 && Connectable(v, block, nHeight, version)
    ensures Inv(Connect(v, block, nHeight, version)) && Proper(AsMap(Connect(v, block, nHeight, version)))
  {
    hide Inv, AsMap, Proper, Update, CanFollow, Connectable;
    if block != [] {
      FrontConnects(v, block, nHeight, version);
      ConnectStaysProper(v, block[..|block| - 1], nHeight, version);
      OneMoreConnects(Connect(v, block[..|block| - 1], nHeight, version), block[|block| - 1], nHeight,
        version(block[|block| - 1]));
    }
  }

  lemma {:induction false} OneMoreConnects(v: View, tx: T.CTransaction, nHeight: int, nVersion: int)
    requires v.Cache? && Inv(v) && Proper(AsMap(v)) && nHeight != 0 && CanFollow(v, tx)
    ensures Inv(Update(v, tx, nHeight, nVersion)) && Proper(AsMap(Update(v, tx, nHeight, nVersion)))
  {
    hide Inv, AsMap, IsProper, SpendAll, AllFound, FromTx, BeginModify, EndModify;
    var u, c := SpendAll(v, Spent(tx)), FromTx(tx, nHeight, nVersion);
    SpendsStayProper(v, Spent(tx));
    ModifyIsPut(u, tx.hash, c);
    FromTxIsProper(tx, nHeight, nVersion);
  }

  /**
   Disconnecting a block from any stack of caches that stands for the coins it left makes the stack stand for the
   coins that there were before the block, and finds nothing to complain about.
   */
  lemma {:induction false} DisconnectUndoesConnect(v0: View, v: View, block: seq<T.CTransaction>, nHeight: int,
          version: T.CTransaction -> int)
    requires v0.Cache? && Inv(v0) && Proper(AsMap(v0)) && nHeight != 0 && Connectable(v0, block, nHeight, version)
    requires v.Cache? && Inv(v) && AsMap(v) == AsMap(Connect(v0, block, nHeight, version))
    ensures var undos := BlockUndos(v0, block, nHeight, version);
            && Matches(block, undos)
            && Inv(Disconnect(v, block, undos)) && AsMap(Disconnect(v, block, undos)) == AsMap(v0)
            && DisconnectsCleanly(v, block, nHeight, version, undos)
    decreases |block|
  {
    hide Inv, AsMap, Proper, Update, CanFollow, Connectable, UndoTx, UndoesCleanly, Undos;
    if block != [] {
      var last := |block| - 1;
      var front, tx := block[..last], block[last];
      var u, undos := Connect(v0, front, nHeight, version), BlockUndos(v0, block, nHeight, version);
      FrontConnects(v0, block, nHeight, version);
      ConnectStaysProper(v0, front, nHeight, version);
      UndoOne(u, v, tx, nHeight, version(tx));
      assert undos[..last] == BlockUndos(v0, front, nHeight, version) && undos[last] == Undos(u, Spent(tx));
      DisconnectUndoesConnect(v0, UndoTx(v, tx, undos[last]), front, nHeight, version);
    }
  }

  lemma {:induction false} UndoOne(v0: View, v: View, tx: T.CTransaction, nHeight: int, nVersion: int)
    requires v0.Cache? && Inv(v0) && Proper(AsMap(v0)) && nHeight != 0 && CanFollow(v0, tx)
    requires v.Cache? && Inv(v) && AsMap(v) == AsMap(Update(v0, tx, nHeight, nVersion))
    ensures Inv(UndoTx(v, tx, Undos(v0, Spent(tx)))) && AsMap(UndoTx(v, tx, Undos(v0, Spent(tx)))) == AsMap(v0)
    ensures UndoesCleanly(v, tx, nHeight, nVersion, Undos(v0, Spent(tx)))
  {
    hide Inv, AsMap, Proper, Update, AllFound, UndoTx, UndoesCleanly, Undos;
    UndoUndoesUpdate(v0, v, tx, nHeight, nVersion);
  }

  // ------------------------------------------------------------------------- as stored

  function WriteUndo(curve: Curve, u: CTxInUndo): Stream
    requires u.txout.nValue >= 0
  {
    Write(u.nHeight * 2 + if u.fCoinBase then 1 else 0) + (if u.nHeight > 0 then Write(u.nVersion) else []) +
      WriteTxOut(curve, u.txout)
  }

  function ReadUndo(curve: Curve, s: Stream): Read<CTxInUndo> {
    match ReadFrom(s, 0)
    case Fail => Fail
    case Got(nCode, s1) =>
      match if nCode / 2 > 0 then ReadFrom(s1, 0) else Got(0, s1)
      case Fail => Fail
      case Got(nVersion, s2) =>
        match ReadTxOut(curve, s2)
        case Fail => Fail
        case Got(txout, rest) => Got(CTxInUndo(txout, nCode % 2 == 1, nCode / 2, nVersion), rest)
  }

  lemma {:induction false} ReadOfWriteUndo(curve: Curve, u: CTxInUndo, rest: Stream)
    requires IsCurve(curve) && u.txout.nValue >= 0 && u.nHeight >= 0
    ensures ReadUndo(curve, WriteUndo(curve, u) + rest) ==
      Got(u.(nVersion := if u.nHeight == 0 then 0 else if u.nVersion >= 0 then u.nVersion else u.nVersion % 128), rest)
  {
    hide Write, ReadFrom, WriteTxOut, ReadTxOut, IsCurve;
    var out := WriteTxOut(curve, u.txout) + rest;
    var version := if u.nHeight > 0 then Write(u.nVersion) else [];
    var code := u.nHeight * 2 + if u.fCoinBase then 1 else 0;
    ReadOfWriteTxOut(curve, u.txout, rest);
    ReadOfWrite(u.nVersion, out);
    ReadOfWrite(code, version + out);
    assert WriteUndo(curve, u) + rest == Write(code) + (version + out);
    assert u.nHeight == 0 ==> version + out == out;
  }

  /** What spending records of proper coins comes back from the disk if and only if no negative version is recorded. */
  lemma {:induction false} StoredUndoIff(curve: Curve, c: CCoins, n: nat, rest: Stream)
    requires IsCurve(curve) && IsProper(c) && c.IsAvailable(n) && c.vout[n].nValue >= 0 && c.nHeight >= 0
    ensures UndoOf(c, n).txout.nValue >= 0
    ensures ReadUndo(curve, WriteUndo(curve, UndoOf(c, n)) + rest) == Got(UndoOf(c, n), rest) <==>
      (Spend(c, n).IsPruned() ==> c.nVersion >= 0)
  {
    hide IsCurve, WriteUndo, ReadUndo, Trim;
    SpentIsTrimmed(c, n);
    ReadOfWriteUndo(curve, UndoOf(c, n), rest);
  }

  // --------------------------------------------------------------------------- as loops

  /** `UpdateCoins`, with the undo information that it collects. */
  method ConnectTx(view: CCoinsViewCache, tx: T.CTransaction, nHeight: int, nVersion: int)
    returns (vprevout: seq<CTxInUndo>)
    requires view.Valid() && !view.hasModifier && AllFound(view.Contents(), Spent(tx))
    modifies view.Caches()`cacheCoins, view`hasModifier
    ensures !view.hasModifier && view.Contents() == Update(old(view.Contents()), tx, nHeight, nVersion)
    ensures vprevout == Undos(old(view.Contents()), Spent(tx))
  {
    hide BeginModify, EndModify, Spend, FromTx, UndoOf, SpendAll, Undos, AllFound;
    ghost var v0 := view.Contents();
    vprevout := [];
    NothingToSpend(v0);
    if !tx.isCoinBase {
      assert tx.vin[..0] == [];
      for i := 0 to |tx.vin|
        invariant !view.hasModifier && view.Contents() == SpendAll(v0, tx.vin[..i])
        invariant vprevout == Undos(v0, tx.vin[..i])
      {
        var prevout := tx.vin[i];
        SpendNext(v0, tx.vin, i);
        var coins := view.ModifyCoins(prevout.hash);
        vprevout := vprevout + [UndoOf(coins, prevout.n)];
        view.ReleaseModifier(prevout.hash, Spend(coins, prevout.n));
      }
      assert tx.vin[..|tx.vin|] == tx.vin;
    }
    var _ := view.ModifyCoins(tx.hash);
    view.ReleaseModifier(tx.hash, FromTx(tx, nHeight, nVersion));
  }

  lemma {:induction false} NothingToSpend(v: View)
    requires v.Cache?
    ensures SpendAll(v, []) == v && Undos(v, []) == []
  {
  }

  lemma {:induction false} SpendNext(v: View, vin: seq<T.COutPoint>, i: nat)
    requires v.Cache? && i < |vin| && AllFound(v, vin)
    ensures var u := SpendAll(v, vin[..i]);
            var coins := BeginModify(u, vin[i].hash).entries[vin[i].hash].coins;
            && coins.IsAvailable(vin[i].n)
            && Undos(v, vin[..i + 1]) == Undos(v, vin[..i]) + [UndoOf(coins, vin[i].n)]
            && SpendAll(v, vin[..i + 1]) ==
              EndModify(BeginModify(u, vin[i].hash), vin[i].hash, Spend(coins, vin[i].n))
  {
    hide BeginModify, EndModify, Spend, UndoOf;
    assert vin[..i + 1][..i] == vin[..i];
    assert Found(SpendAll(v, vin[..i]), vin[i]);
  }

  /** The inner loop of `DisconnectBlock`. */
  method RestoreInputs(view: CCoinsViewCache, vin: seq<T.COutPoint>, vprevout: seq<CTxInUndo>) returns (fClean: bool)
    requires view.Valid() && !view.hasModifier && |vprevout| == |vin|
    modifies view.Caches()`cacheCoins, view`hasModifier
    ensures !view.hasModifier && view.Contents() == RestoreAll(old(view.Contents()), vin, vprevout)
    ensures fClean <==> RestoresCleanly(old(view.Contents()), vin, vprevout)
  {
    hide BeginModify, EndModify, Restored, IsCleanRestore;
    ghost var v0 := view.Contents();
    fClean := true;
    var j := |vin|;
    assert vin[..j] == vin && vprevout[..j] == vprevout;
    while j > 0
      invariant 0 <= j <= |vin| && !view.hasModifier
      invariant RestoreAll(v0, vin, vprevout) == RestoreAll(view.Contents(), vin[..j], vprevout[..j])
      invariant RestoresCleanly(v0, vin, vprevout) <==>
        fClean && RestoresCleanly(view.Contents(), vin[..j], vprevout[..j])
    {
      j := j - 1;
      var out, undo := vin[j], vprevout[j];
      assert vin[..j + 1][..j] == vin[..j] && vprevout[..j + 1][..j] == vprevout[..j];
      var coins := view.ModifyCoins(out.hash);
      fClean := fClean && IsCleanRestore(coins, out.n, undo);
      view.ReleaseModifier(out.hash, Restored(coins, out.n, undo));
    }
  }

  /**
   `DisconnectBlock` on a block whose first transaction alone is a coinbase: it gives up on undo data of the
   wrong shape, and otherwise undoes every transaction and says whether it found what it expected.
   */
  method DisconnectBlock(view: CCoinsViewCache, block: seq<T.CTransaction>, nHeight: int,
          version: T.CTransaction -> int, vtxundo: seq<seq<CTxInUndo>>)
    returns (ok: bool, fClean: bool)
    requires view.Valid() && !view.hasModifier && block != []
    requires forall i :: 0 <= i < |block| ==> (block[i].isCoinBase <==> i == 0)
    modifies view.Caches()`cacheCoins, view`hasModifier
    ensures !view.hasModifier && (ok <==> Matches(block, [[]] + vtxundo))
    ensures ok ==> view.Contents() == Disconnect(old(view.Contents()), block, [[]] + vtxundo)
    ensures ok ==> (fClean <==> DisconnectsCleanly(old(view.Contents()), block, nHeight, version, [[]] + vtxundo))
  {
    hide UndoTx, UndoesCleanly, Disconnect, DisconnectsCleanly;
    ghost var v0, undos := view.Contents(), [[]] + vtxundo;
    ok, fClean := false, true;
    if |vtxundo| + 1 != |block| {
      return;
    }
    var i := |block|;
    assert block[..i] == block && undos[..i] == undos;
    while i > 0
      invariant 0 <= i <= |block| && !view.hasModifier
      invariant forall k :: i <= k < |block| ==> |undos[k]| == |Spent(block[k])|
      invariant Matches(block, undos) ==>
        && Disconnect(v0, block, undos) == Disconnect(view.Contents(), block[..i], undos[..i])
        && (DisconnectsCleanly(v0, block, nHeight, version, undos) <==>
          fClean && DisconnectsCleanly(view.Contents(), block[..i], nHeight, version, undos[..i]))
    {
      i := i - 1;
      ghost var v := view.Contents();
      var vprevout := if i > 0 then vtxundo[i - 1] else [];
      var fits, clean := DisconnectTx(view, block[i], nHeight, version(block[i]), vprevout);
      if !fits {
        return;
      }
      fClean := fClean && clean;
      DisconnectNext(v, block, undos, i, nHeight, version);
    }
    NothingConnected(view.Contents(), nHeight, version);
    ok := true;
  }

  /** One round: the outputs are removed, and the inputs of all but the coinbase restored. */
  method DisconnectTx(view: CCoinsViewCache, tx: T.CTransaction, nHeight: int, nVersion: int,
          vprevout: seq<CTxInUndo>)
    returns (fits: bool, fClean: bool)
    requires view.Valid() && !view.hasModifier && (tx.isCoinBase ==> vprevout == [])
    modifies view.Caches()`cacheCoins, view`hasModifier
    ensures !view.hasModifier && (fits <==> |vprevout| == |Spent(tx)|)
    ensures fits ==> view.Contents() == UndoTx(old(view.Contents()), tx, vprevout)
    ensures fits ==> (fClean <==> UndoesCleanly(old(view.Contents()), tx, nHeight, nVersion, vprevout))
  {
    hide BeginModify, EndModify, RestoreAll, RestoresCleanly, IsCleanRemoval;
    var outs := view.ModifyCoins(tx.hash);
    fits, fClean := true, IsCleanRemoval(outs, tx, nHeight, nVersion);
    view.ReleaseModifier(tx.hash, CLEARED);
    if tx.isCoinBase {
      NothingToRestore(view.Contents());
      return;
    }
    if |vprevout| != |tx.vin| {
      return false, fClean;
    }
    var restored := RestoreInputs(view, tx.vin, vprevout);
    fClean := fClean && restored;
  }

  lemma {:induction false} NothingConnected(v: View, nHeight: int, version: T.CTransaction -> int)
    requires v.Cache?
    ensures Disconnect(v, [], []) == v && DisconnectsCleanly(v, [], nHeight, version, [])
  {
  }

  lemma {:induction false} DisconnectNext(v: View, block: seq<T.CTransaction>, undos: seq<seq<CTxInUndo>>, i: nat,
          nHeight: int, version: T.CTransaction -> int)
    requires v.Cache? && i < |block| == |undos| && |undos[i]| == |Spent(block[i])|
    ensures Matches(block, undos) ==>
      var w := UndoTx(v, block[i], undos[i]);
      && Disconnect(v, block[..i + 1], undos[..i + 1]) == Disconnect(w, block[..i], undos[..i])
      && (DisconnectsCleanly(v, block[..i + 1], nHeight, version, undos[..i + 1]) <==>
        UndoesCleanly(v, block[i], nHeight, version(block[i]), undos[i]) &&
          DisconnectsCleanly(w, block[..i], nHeight, version, undos[..i]))
  {
    hide UndoTx, UndoesCleanly;
    assert block[..i + 1][..i] == block[..i] && undos[..i + 1][..i] == undos[..i];
  }

  lemma {:induction false} NothingToRestore(v: View)
    requires v.Cache?
    ensures RestoreAll(v, [], []) == v && RestoresCleanly(v, [], [])
  {
  }
}
