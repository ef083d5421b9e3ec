/**
 What a flush of a coin cache has to write: nothing that was only read, and nothing that came
 and went within the cache.
 */
module CoinsWrites {
  import opened Coins
  import opened CoinsCache

  /** In every layer, an entry whose base has nothing to spend is FRESH; with `Inv`, exactly then. */
  ghost predicate Lean(v: View) {
    v.Cache? ==> Lean(v.base) && forall k :: k in v.entries && Lookup(v.base, k) == None ==> v.entries[k].isFresh
  }

  /** In every layer, no DIRTY entry came and went: none is pruned and FRESH, but for the `open` one of the top. */
  ghost predicate Tidy(v: View, open: Option<Txid>) {
    v.Cache? ==>
      && Tidy(v.base, None)
      && forall k :: k in v.entries && v.entries[k].isDirty && v.entries[k].isFresh && Some(k) != open ==>
        !v.entries[k].coins.IsPruned()
  }

  /** What a flush of the cache hands over. */
  function Writes(v: View): set<Txid> {
    if v.Cache? then set k | k in v.entries && v.entries[k].isDirty else {}
  }

  /** A cache hands over an entry only for coins to be had, or for a spend of coins that its base has. */
  lemma {:induction false} WrittenIsNeeded(v: View, k: Txid)
    requires Lean(v) && Tidy(v, None) && k in Writes(v)
    ensures v.entries[k].coins.IsPruned() ==> Lookup(v.base, k).Some?
  {
  }

  // ------------------------------------------------------------------- reads write nothing

  lemma {:induction false} FetchWritesNothing(v: View, txid: Txid)
    ensures var r := Fetch(v, txid).view;
            Writes(r) == Writes(v) && (v.Cache? ==> r.Cache? && Writes(r.base) == Writes(v.base))
  {
    if v.Cache? && txid !in v.entries {
      FetchWritesNothing(v.base, txid);
    }
  }

  /** A read of any layer leaves what every layer would hand over as it is. */
  lemma {:induction false} ReadsWriteNothing(v: View, depth: nat, txid: Txid, d: nat)
    ensures Writes(LayerAt(FetchAt(v, depth, txid), d)) == Writes(LayerAt(v, d))
    decreases depth, v
  {
    hide Fetch;
    if depth == 0 || v.Db? {
      FetchWritesNothingBelow(v, txid, d);
    } else if d > 0 {
      ReadsWriteNothing(v.base, depth - 1, txid, d - 1);
    }
  }

  lemma {:induction false} FetchWritesNothingBelow(v: View, txid: Txid, d: nat)
    ensures Writes(LayerAt(Fetch(v, txid).view, d)) == Writes(LayerAt(v, d))
    decreases v
  {
    FetchWritesNothing(v, txid);
    if v.Cache? && d > 0 && txid !in v.entries {
      FetchWritesNothingBelow(v.base, txid, d - 1);
    }
  }

  /** A modifier adds its own transaction to what the top hands over, and takes it out again if nothing came of it. */
  lemma {:induction false} ModifierWritesOne(v: View, txid: Txid, coins: CCoins)
    requires v.Cache? && Inv(v) && Lean(v)
    ensures var w := BeginModify(v, txid);
            && Writes(w) == Writes(v) + {txid}
            && Writes(EndModify(w, txid, coins)) ==
              if coins.IsPruned() && Lookup(v.base, txid) == None then Writes(v) - {txid} else Writes(v) + {txid}
  {
    var w := BeginModify(v, txid);
    BeginModifyKeepsView(v, txid);
    BeginKeepsLean(v, txid);
    CleanupKeepsPruned(coins);
    assert EntryOk(w.entries[txid], w.base, txid);
  }

  // ------------------------------------------------------------------- every step keeps it

  lemma {:induction false} FetchKeepsLean(v: View, txid: Txid)
    requires Inv(v) && Lean(v)
    ensures Lean(Fetch(v, txid).view)
  {
    if v.Cache? && txid !in v.entries {
      FetchKeepsLean(v.base, txid);
      FetchKeepsView(v.base, txid);
    }
  }

  lemma {:induction false} FetchAtKeepsLean(v: View, depth: nat, txid: Txid)
    requires Inv(v) && Lean(v)
    ensures Lean(FetchAt(v, depth, txid))
    decreases depth, v
  {
    hide Fetch, Inv, Lookup, Layers, AsMap;
    if depth == 0 || v.Db? {
      FetchKeepsLean(v, txid);
    } else {
      InvBelow(v);
      FetchAtKeepsLean(v.base, depth - 1, txid);
      FetchAtKeepsLayers(v.base, depth - 1, txid);
    }
  }

  lemma {:induction false} BeginKeepsLean(v: View, txid: Txid)
    requires v.Cache? && Inv(v) && Lean(v)
    ensures Lean(BeginModify(v, txid))
  {
    hide Fetch;
    if txid !in v.entries {
      FetchKeepsLean(v.base, txid);
      FetchKeepsView(v.base, txid);
    }
  }

  lemma {:induction false} FlushAtKeepsLean(v: View, depth: nat)
    requires Inv(v) && Lean(v) && LayerAt(v, depth).Cache? && HandsOver(LayerAt(v, depth))
    ensures Lean(FlushAt(v, depth))
    decreases depth
  {
    hide Inv, Lookup, HandsOver;
    if depth == 0 {
      BatchWriteKeepsLean(v);
    } else {
      InvBelow(v);
      FlushAtKeepsLean(v.base, depth - 1);
      FlushCopiesLayer(v.base, depth - 1);
    }
  }

  lemma {:induction false} BatchWriteKeepsLean(v: View)
    requires v.Cache? && Lean(v)
    ensures Lean(BatchWrite(v.base, v.entries, v.hashBlock))
  {
    if v.base.Cache? {
      var m := MergeAll(v.base.entries, v.entries);
      forall k | k in m && Lookup(v.base.base, k) == None ensures m[k].isFresh {
        assert Merged(v.base.entries, v.entries, k) == Some(m[k]);
      }
    }
  }

  lemma {:induction false} StepKeepsLean(s: State, op: Op)
    requires GoodState(s) && Lean(s.view) && Allowed(s, op)
    ensures Lean(Step(s, op).view)
  {
    hide Inv, Lookup, Fetch, FetchAt, BeginModify, Flush, FlushAt, LayerAt, HandsOver;
    match op
    case Read(txid) => FetchKeepsLean(s.view, txid);
    case Peek(depth, txid) => FetchAtKeepsLean(s.view, depth, txid);
    case Begin(txid) => BeginKeepsLean(s.view, txid);
    case End(coins) =>
    case FlushLayer(depth) => FlushAtKeepsLean(s.view, depth);
    case Push =>
    case Discard =>
  }

  lemma {:induction false} FetchKeepsTidy(v: View, txid: Txid, open: Option<Txid>)
    requires Tidy(v, open)
    ensures Tidy(Fetch(v, txid).view, open)
  {
    if v.Cache? && txid !in v.entries {
      FetchKeepsTidy(v.base, txid, None);
    }
  }

  lemma {:induction false} FetchAtKeepsTidy(v: View, depth: nat, txid: Txid, open: Option<Txid>)
    requires Tidy(v, open)
    ensures Tidy(FetchAt(v, depth, txid), open)
    decreases depth, v
  {
    hide Fetch;
    if depth == 0 || v.Db? {
      FetchKeepsTidy(v, txid, open);
    } else {
      FetchAtKeepsTidy(v.base, depth - 1, txid, None);
    }
  }

  lemma {:induction false} BeginKeepsTidy(v: View, txid: Txid)
    requires v.Cache? && Tidy(v, None)
    ensures Tidy(BeginModify(v, txid), Some(txid))
  {
    hide Fetch;
    if txid !in v.entries {
      FetchKeepsTidy(v.base, txid, None);
    }
  }

  lemma {:induction false} EndKeepsTidy(v: View, txid: Txid, coins: CCoins)
    requires v.Cache? && txid in v.entries && Tidy(v, Some(txid))
    ensures Tidy(EndModify(v, txid, coins), None)
  {
  }

  lemma {:induction false} FlushAtKeepsTidy(v: View, depth: nat, open: Option<Txid>)
    requires Tidy(v, open) && LayerAt(v, depth).Cache? && (depth == 0 ==> open == None)
    ensures Tidy(FlushAt(v, depth), open)
    decreases depth
  {
    if depth == 0 {
      BatchWriteKeepsTidy(v);
    } else {
      FlushAtKeepsTidy(v.base, depth - 1, None);
    }
  }

  lemma {:induction false} BatchWriteKeepsTidy(v: View)
    requires v.Cache? && Tidy(v, None)
    ensures Tidy(BatchWrite(v.base, v.entries, v.hashBlock), None)
  {
    if v.base.Cache? {
      var m := MergeAll(v.base.entries, v.entries);
      forall k | k in m && m[k].isDirty && m[k].isFresh ensures !m[k].coins.IsPruned() {
        assert Merged(v.base.entries, v.entries, k) == Some(m[k]);
      }
    }
  }

  lemma {:induction false} StepKeepsTidy(s: State, op: Op)
    requires Tidy(s.view, s.modifier) && Possible(s, op)
    ensures Tidy(Step(s, op).view, Step(s, op).modifier)
  {
    hide Fetch, FetchAt, BeginModify, EndModify, Flush, FlushAt, LayerAt;
    match op
    case Read(txid) => FetchKeepsTidy(s.view, txid, s.modifier);
    case Peek(depth, txid) => FetchAtKeepsTidy(s.view, depth, txid, s.modifier);
    case Begin(txid) => BeginKeepsTidy(s.view, txid);
    case End(coins) => EndKeepsTidy(s.view, s.modifier.value, coins);
    case FlushLayer(depth) => FlushAtKeepsTidy(s.view, depth, s.modifier);
    case Push =>
    case Discard =>
  }

  // ---------------------------------------------------------------------------- every run

  lemma {:induction false} RunKeepsLean(s: State, ops: seq<Op>)
    requires GoodState(s) && Lean(s.view) && Tidy(s.view, s.modifier) && AllowedRun(s, ops)
    ensures GoodState(Run(s, ops)) && Lean(Run(s, ops).view) && Tidy(Run(s, ops).view, Run(s, ops).modifier)
    decreases |ops|
  {
    hide Lean, Tidy, GoodState, Step, HandsOver, Possible;
    if ops != [] {
      StepRefinesPlain(s, ops[0]);
      StepKeepsLean(s, ops[0]);
      StepKeepsTidy(s, ops[0]);
      RunKeepsLean(Step(s, ops[0]), ops[1..]);
    }
  }

  /**
   Over every run from a new cache, whenever no modifier is open: what a flush of any layer hands over is either
   coins to be had or a spend of coins that the layer below has. What was made and spent within a cache is not written.
   */
  lemma {:induction false} NothingNeedlessIsWritten(coins: map<Txid, CCoins>, best: nat, ops: seq<Op>, depth: nat,
          k: Txid)
    requires forall h :: h in coins ==> coins[h].IsTrimmed()
    requires var s := State(Cache(map[], 0, Db(coins, best)), None); AllowedRun(s, ops) && Run(s, ops).modifier == None
    ensures var s := State(Cache(map[], 0, Db(coins, best)), None);
            var v := LayerAt(Run(s, ops).view, depth);
            k in Writes(v) ==> k in v.entries && (v.entries[k].coins.IsPruned() ==> Lookup(v.base, k).Some?)
  {
    hide Lean, Tidy, GoodState, Run, AllowedRun, LayerAt;
    var s := State(Cache(map[], 0, Db(coins, best)), None);
    FreshStackIsGood(coins, best);
    FreshStackIsLean(coins, best);
    RunKeepsLean(s, ops);
    LayersAreLean(Run(s, ops).view, depth);
    if k in Writes(LayerAt(Run(s, ops).view, depth)) {
      WrittenIsNeeded(LayerAt(Run(s, ops).view, depth), k);
    }
  }

  lemma {:induction false} FreshStackIsLean(coins: map<Txid, CCoins>, best: nat)
    ensures var v := Cache(map[], 0, Db(coins, best)); Lean(v) && Tidy(v, None)
  {
  }

  lemma {:induction false} LayersAreLean(v: View, depth: nat)
    requires Lean(v) && Tidy(v, None)
    ensures Lean(LayerAt(v, depth)) && Tidy(LayerAt(v, depth), None)
    decreases depth
  {
    if depth > 0 && v.Cache? {
      LayersAreLean(v.base, depth - 1);
    }
  }
}
