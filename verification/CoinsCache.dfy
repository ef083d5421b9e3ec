/**
 A stack of `CCoinsViewCache`s over a coin database, on values: the invariant behind the DIRTY and
 FRESH flags, and the plain map that the stack cannot be told from.
 */
module CoinsCache {
  import opened Coins
  import opened Common

  type Txid = uint256

  datatype Entry = Entry(coins: CCoins, isDirty: bool, isFresh: bool)

  type CoinsMap = map<Txid, Entry>

  /** Bottom of a stack: the database, or a cache over another view. */
  datatype View =
    | Db(coins: map<Txid, CCoins>, best: uint256)
    | Cache(entries: CoinsMap, hashBlock: uint256, base: View)

  // --------------------------------------------------------------- operations

  datatype Fetched = Fetched(coins: Option<CCoins>, view: View)

  /** `FetchCoins` and `GetCoins`: a miss pulls the entry into every cache on the way down. */
  function Fetch(v: View, txid: Txid): Fetched {
    match v
    case Db(coins, _) => Fetched(if txid in coins then Some(coins[txid]) else None, v)
    case Cache(entries, _, base) =>
      if txid in entries then Fetched(Some(entries[txid].coins), v)
      else
        var below := Fetch(base, txid);
        match below.coins
        case None => Fetched(None, v.(base := below.view))
        case Some(c) => Fetched(Some(c),
          v.(base := below.view, entries := entries[txid := Entry(c, false, c.IsPruned())]))
  }

  /** `HaveCoins`, as a cache answers it from what `FetchCoins` found. */
  predicate Have(found: Option<CCoins>) {
    found.Some? && found.value.vout != []
  }

  /** `ModifyCoins`: the entry the caller is handed, already marked DIRTY. */
  function BeginModify(v: View, txid: Txid): (r: View)
    requires v.Cache?
    ensures r.Cache? && txid in r.entries
  {
    if txid in v.entries then
      v.(entries := v.entries[txid := v.entries[txid].(isDirty := true)])
    else
      var below := Fetch(v.base, txid);
      var entry := match below.coins
        case None => Entry(CLEARED, true, true)
        case Some(c) => Entry(c, true, c.IsPruned());
      v.(base := below.view, entries := v.entries[txid := entry])
  }

  /** The modifier's destructor, after the caller left `coins` in the entry. */
  function EndModify(v: View, txid: Txid, coins: CCoins): (r: View)
    requires v.Cache? && txid in v.entries
    ensures r.Cache?
  {
    var entry := v.entries[txid].(coins := coins.Cleanup());
    v.(entries := if entry.isFresh && entry.coins.IsPruned() then v.entries - {txid} else v.entries[txid := entry])
  }

  /** What becomes of the parent's entry when the child hands over `theirs`. */
  function MergeEntry(ours: Option<Entry>, theirs: Entry): Option<Entry> {
    if !theirs.isDirty then ours
    else match ours
      case None => if theirs.coins.IsPruned() then None else Some(Entry(theirs.coins, true, true))
      case Some(e) =>
        if e.isFresh && theirs.coins.IsPruned() then None else Some(e.(coins := theirs.coins, isDirty := true))
  }

  function Get<T>(m: map<Txid, T>, k: Txid): Option<T> {
    if k in m then Some(m[k]) else None
  }

  function Merged(entries: CoinsMap, child: CoinsMap, k: Txid): Option<Entry> {
    if k in child then MergeEntry(Get(entries, k), child[k]) else Get(entries, k)
  }

  function MergeAll(entries: CoinsMap, child: CoinsMap): CoinsMap {
    map k | k in entries.Keys + child.Keys && Merged(entries, child, k).Some? :: Merged(entries, child, k).value
  }

  function Written(coins: map<Txid, CCoins>, child: CoinsMap, k: Txid): Option<CCoins> {
    if k in child && child[k].isDirty then (if child[k].coins.IsPruned() then None else Some(child[k].coins))
    else Get(coins, k)
  }

  function WriteAll(coins: map<Txid, CCoins>, child: CoinsMap): map<Txid, CCoins> {
    map k | k in coins.Keys + child.Keys && Written(coins, child, k).Some? :: Written(coins, child, k).value
  }

  function BatchWrite(v: View, child: CoinsMap, hashBlock: uint256): View {
    match v
    case Db(coins, best) => Db(WriteAll(coins, child), if hashBlock != 0 then hashBlock else best)
    case Cache(entries, _, base) => Cache(MergeAll(entries, child), hashBlock, base)
  }

  /** The assertion in the loop of `CCoinsViewCache::BatchWrite` holds for every entry handed over. */
  ghost predicate BatchAssertions(v: View, child: CoinsMap) {
    v.Cache? ==> forall k :: k in child && child[k].isDirty && k !in v.entries && !child[k].coins.IsPruned() ==>
      child[k].isFresh
  }

  function Flush(v: View): View
    requires v.Cache?
  {
    Cache(map[], v.hashBlock, BatchWrite(v.base, v.entries, v.hashBlock))
  }

  // ------------------------------------------------------------- the plain map

  /** Pruned and absent are the same thing. */
  function Unspent(c: Option<CCoins>): Option<CCoins> {
    if c.Some? && c.value.IsPruned() then None else c
  }

  function Lookup(v: View, txid: Txid): Option<CCoins> {
    match v
    case Db(coins, _) => Unspent(Get(coins, txid))
    case Cache(entries, _, base) => if txid in entries then Unspent(Some(entries[txid].coins)) else Lookup(base, txid)
  }

  function UnspentOf(coins: map<Txid, CCoins>): map<Txid, CCoins> {
    map k | k in coins && !coins[k].IsPruned() :: coins[k]
  }

  /** The unspent coins that a view stands for. */
  function AsMap(v: View): map<Txid, CCoins> {
    match v
    case Db(coins, _) => UnspentOf(coins)
    case Cache(entries, _, base) =>
      map k | k in AsMap(base).Keys + entries.Keys && Lookup(v, k).Some? :: Lookup(v, k).value
  }

  lemma {:induction false} AsMapIsLookup(v: View, k: Txid)
    ensures Get(AsMap(v), k) == Lookup(v, k)
  {
    if v.Cache? {
      AsMapIsLookup(v.base, k);
    }
  }

  lemma {:induction false} SameLookupSameMap(v: View, w: View)
    requires forall k :: Lookup(v, k) == Lookup(w, k)
    ensures AsMap(v) == AsMap(w)
  {
    forall k ensures Get(AsMap(v), k) == Get(AsMap(w), k) {
      AsMapIsLookup(v, k);
      AsMapIsLookup(w, k);
    }
    SameGetSameMap(AsMap(v), AsMap(w));
  }

  lemma {:induction false} SameGetSameMap<T>(m: map<Txid, T>, m': map<Txid, T>)
    requires forall k :: Get(m, k) == Get(m', k)
    ensures m == m'
  {
    forall k ensures k in m <==> k in m' {
      assert Get(m, k) == Get(m', k);
    }
    forall k | k in m ensures m[k] == m'[k] {
      assert Get(m, k) == Get(m', k);
    }
  }

  // ---------------------------------------------------------------- invariant

  /** What an entry's flags promise about the view below it. */
  ghost predicate EntryOk(e: Entry, base: View, k: Txid) {
    && e.coins.IsTrimmed()
    && (!e.isDirty ==> Lookup(base, k) == Unspent(Some(e.coins)))
    && (e.isFresh ==> Lookup(base, k) == None)
  }

  ghost predicate Inv(v: View) {
    match v
    case Db(coins, _) => forall k :: k in coins ==> coins[k].IsTrimmed()
    case Cache(entries, _, base) => Inv(base) && forall k :: k in entries ==> EntryOk(entries[k], base, k)
  }

  /** Entries that are not FRESH have one below them to be written to, in every layer. */
  ghost predicate Backed(v: View) {
    v.Cache? ==> Backed(v.base) && forall k :: k in v.entries && !v.entries[k].isFresh && v.base.Cache? ==>
      k in v.base.entries
  }

  /**
   Every entry that a flush has to hand over finds its place: it is FRESH, or the parent has
   an entry for it, or there is nothing to spend.
   */
  ghost predicate HandsOver(v: View) {
    v.Cache? && v.base.Cache? ==>
      forall k :: k in v.entries && v.entries[k].isDirty && !v.entries[k].isFresh && k !in v.base.entries ==>
        v.entries[k].coins.IsPruned() && Lookup(v.base, k) == None
  }

  lemma {:induction false} BackedHandsOver(v: View)
    requires Backed(v)
    ensures HandsOver(v)
  {
  }

  lemma {:induction false} FetchKeepsView(v: View, txid: Txid)
    requires Inv(v)
    ensures var r := Fetch(v, txid);
            && Inv(r.view)
            && Unspent(r.coins) == Lookup(v, txid)
            && (r.coins.Some? ==> r.coins.value.IsTrimmed())
            && (forall k :: Lookup(r.view, k) == Lookup(v, k))
            && r.view.Cache? == v.Cache?
  {
    if v.Cache? && txid !in v.entries {
      FetchKeepsView(v.base, txid);
      var r, below := Fetch(v, txid), Fetch(v.base, txid);
      forall k | k in r.view.entries ensures EntryOk(r.view.entries[k], r.view.base, k) {
        if k != txid {
          assert EntryOk(v.entries[k], v.base, k);
        }
      }
    } else if v.Cache? {
      assert EntryOk(v.entries[txid], v.base, txid);
    }
  }

  /** Opening a modifier hands out the current coins and changes nothing that can be looked up. */
  lemma {:induction false} BeginModifyKeepsView(v: View, txid: Txid)
    requires v.Cache? && Inv(v)
    ensures var r := BeginModify(v, txid);
            && Inv(r) && r.base.Cache? == v.base.Cache?
            && Unspent(Some(r.entries[txid].coins)) == Lookup(v, txid)
            && (forall k :: Lookup(r, k) == Lookup(v, k))
            && (forall k :: Lookup(r.base, k) == Lookup(v.base, k))
  {
    var r := BeginModify(v, txid);
    if txid in v.entries {
      assert EntryOk(v.entries[txid], v.base, txid);
    } else {
      FetchKeepsView(v.base, txid);
    }
    forall k | k in r.entries ensures EntryOk(r.entries[k], r.base, k) {
      if k in v.entries {
        assert EntryOk(v.entries[k], v.base, k);
      }
    }
  }

  /** The plain-map meaning of a modification: store what is unspent, drop what is pruned. */
  function Put(m: map<Txid, CCoins>, txid: Txid, coins: CCoins): map<Txid, CCoins> {
    if coins.IsPruned() then m - {txid} else m[txid := coins.Cleanup()]
  }

  /** Closing it stores exactly what the caller left there. */
  lemma {:induction false} EndModifyIsPut(v: View, txid: Txid, coins: CCoins)
    requires v.Cache? && Inv(v) && txid in v.entries && v.entries[txid].isDirty
    ensures Inv(EndModify(v, txid, coins))
    ensures AsMap(EndModify(v, txid, coins)) == Put(AsMap(v), txid, coins)
  {
    var r := EndModify(v, txid, coins);
    CleanupKeepsOutputs(coins);
    CleanupKeepsPruned(coins);
    assert EntryOk(v.entries[txid], v.base, txid);
    forall k | k in r.entries ensures EntryOk(r.entries[k], r.base, k) {
      assert EntryOk(v.entries[k], v.base, k);
    }
    forall k ensures Get(AsMap(r), k) == Get(Put(AsMap(v), txid, coins), k) {
      AsMapIsLookup(r, k);
      AsMapIsLookup(v, k);
    }
    SameGetSameMap(AsMap(r), Put(AsMap(v), txid, coins));
  }

  lemma {:induction false} CleanupKeepsPruned(c: CCoins)
    ensures c.Cleanup().IsPruned() <==> c.IsPruned()
  {
    CleanupKeepsOutputs(c);
    if c.Cleanup().IsPruned() {
      forall i | 0 <= i < |c.vout| ensures c.vout[i].IsNull() {
        assert c.Cleanup().IsAvailable(i) == c.IsAvailable(i);
      }
    }
  }

  /** The assertion in `BatchWrite` holds for entries that find their place. */
  lemma {:induction false} FreshAssertionHolds(v: View)
    requires v.Cache? && HandsOver(v)
    ensures BatchAssertions(v.base, v.entries)
  {
  }

  lemma {:induction false} BatchWriteLookup(v: View, k: Txid)
    requires v.Cache? && Inv(v) && HandsOver(v)
    ensures Lookup(BatchWrite(v.base, v.entries, v.hashBlock), k) == Lookup(v, k)
  {
    if k in v.entries {
      assert EntryOk(v.entries[k], v.base, k);
    }
    match v.base
    case Db(coins, _) =>
      var w := WriteAll(coins, v.entries);
      assert Get(w, k) == Written(coins, v.entries, k);
    case Cache(entries, _, below) =>
      var m := MergeAll(entries, v.entries);
      assert Get(m, k) == Merged(entries, v.entries, k);
      if k in entries {
        assert EntryOk(entries[k], below, k);
      }
  }

  lemma {:induction false} BatchWriteKeepsInv(v: View)
    requires v.Cache? && Inv(v) && HandsOver(v)
    ensures Inv(BatchWrite(v.base, v.entries, v.hashBlock))
  {
    match v.base
    case Db(coins, _) =>
      var w := WriteAll(coins, v.entries);
      forall k | k in w ensures w[k].IsTrimmed() {
        if k in v.entries {
          assert EntryOk(v.entries[k], v.base, k);
        }
      }
    case Cache(entries, _, below) =>
      var m := MergeAll(entries, v.entries);
      forall k | k in m ensures EntryOk(m[k], below, k) {
        if k in v.entries {
          assert EntryOk(v.entries[k], v.base, k);
        }
        if k in entries {
          assert EntryOk(entries[k], below, k);
        }
      }
  }

  /** `Flush` makes the base stand for what the cache stood for, and leaves the cache standing for the same. */
  lemma {:induction false} FlushMovesViewDown(v: View)
    requires v.Cache? && Inv(v) && HandsOver(v)
    ensures Inv(Flush(v)) && BatchAssertions(v.base, v.entries)
    ensures AsMap(Flush(v).base) == AsMap(v) && AsMap(Flush(v)) == AsMap(v)
    ensures forall k :: Lookup(Flush(v), k) == Lookup(v, k)
  {
    FreshAssertionHolds(v);
    BatchWriteKeepsInv(v);
    forall k ensures Lookup(Flush(v).base, k) == Lookup(v, k) == Lookup(Flush(v), k) {
      BatchWriteLookup(v, k);
    }
    SameLookupSameMap(Flush(v).base, v);
    SameLookupSameMap(Flush(v), v);
  }

  /** Exactly then: otherwise the assertion fails, or a spend is lost on the way. */
  lemma {:induction false} FlushIsRightIff(v: View)
    requires v.Cache? && Inv(v)
    ensures BatchAssertions(v.base, v.entries) && AsMap(Flush(v).base) == AsMap(v) <==> HandsOver(v)
  {
    hide AsMap;
    if HandsOver(v) {
      FlushMovesViewDown(v);
    } else if BatchAssertions(v.base, v.entries) {
      var k :| k in v.entries && v.entries[k].isDirty && !v.entries[k].isFresh && k !in v.base.entries &&
        !(v.entries[k].coins.IsPruned() && Lookup(v.base, k) == None);
      var m := MergeAll(v.base.entries, v.entries);
      assert Get(m, k) == Merged(v.base.entries, v.entries, k) == None;
      AsMapIsLookup(v, k);
      AsMapIsLookup(Flush(v).base, k);
    }
  }

  // --------------------------------------------------------------------- runs

  /**
   What a program does to a stack: read or modify through the top cache, read a cache below it,
   flush any cache, put a new cache on the top or throw the top away.
   */
  datatype Op =
    | Read(txid: Txid)
    | Peek(depth: nat, txid: Txid)
    | Begin(txid: Txid)
    | End(coins: CCoins)
    | FlushLayer(depth: nat)
    | Push
    | Discard

  /** The stack and the transaction whose modifier is open on the top cache. */
  datatype State = State(view: View, modifier: Option<Txid>)

  function FetchAt(v: View, depth: nat, txid: Txid): View {
    if depth == 0 || v.Db? then Fetch(v, txid).view else v.(base := FetchAt(v.base, depth - 1, txid))
  }

  function LayerAt(v: View, depth: nat): View {
    if depth == 0 || v.Db? then v else LayerAt(v.base, depth - 1)
  }

  function FlushAt(v: View, depth: nat): View
    requires LayerAt(v, depth).Cache?
    decreases depth
  {
    if depth == 0 then Flush(v) else v.(base := FlushAt(v.base, depth - 1))
  }

  /** What callers respect: one modifier at a time, and none open on a cache that is left, covered or emptied. */
  predicate Possible(s: State, op: Op) {
    s.view.Cache? &&
    match op
    case Read(_) => true
    case Peek(_, _) => true
    case Begin(_) => s.modifier == None
    case End(_) => s.modifier.Some? && s.modifier.value in s.view.entries
    case FlushLayer(depth) => LayerAt(s.view, depth).Cache? && (depth == 0 ==> s.modifier == None)
    case Push => s.modifier == None
    case Discard => s.modifier == None && s.view.base.Cache?
  }

  /** And what a flush needs. */
  ghost predicate Allowed(s: State, op: Op) {
    Possible(s, op) && (op.FlushLayer? ==> HandsOver(LayerAt(s.view, op.depth)))
  }

  function Step(s: State, op: Op): State
    requires Possible(s, op)
  {
    match op
    case Read(txid) => s.(view := Fetch(s.view, txid).view)
    case Peek(depth, txid) => s.(view := FetchAt(s.view, depth, txid))
    case Begin(txid) => State(BeginModify(s.view, txid), Some(txid))
    case End(coins) => State(EndModify(s.view, s.modifier.value, coins), None)
    case FlushLayer(depth) => s.(view := FlushAt(s.view, depth))
    case Push => s.(view := Cache(map[], 0, s.view))
    case Discard => s.(view := s.view.base)
  }

  /** The reference: one plain map of unspent coins per layer, top first. */
  datatype Plain = Plain(layers: seq<map<Txid, CCoins>>, modifier: Option<Txid>)

  predicate PlainPossible(p: Plain, op: Op) {
    |p.layers| > 1 && (op.End? ==> p.modifier.Some?) && (op.FlushLayer? ==> op.depth + 1 < |p.layers|)
  }

  function PlainStep(p: Plain, op: Op): Plain
    requires PlainPossible(p, op)
  {
    match op
    case Read(_) => p
    case Peek(_, _) => p
    case Begin(txid) => p.(modifier := Some(txid))
    case End(coins) => Plain(p.layers[0 := Put(p.layers[0], p.modifier.value, coins)], None)
    case FlushLayer(depth) => p.(layers := p.layers[depth + 1 := p.layers[depth]])
    case Push => p.(layers := [p.layers[0]] + p.layers)
    case Discard => p.(layers := p.layers[1..])
  }

  function Layers(v: View): (layers: seq<map<Txid, CCoins>>)
    ensures |layers| > 0 && layers[0] == AsMap(v)
    ensures v.Cache? ==> layers == [AsMap(v)] + Layers(v.base)
  {
    match v
    case Db(_, _) => [AsMap(v)]
    case Cache(_, _, base) => [AsMap(v)] + Layers(base)
  }

  function Abstract(s: State): Plain {
    Plain(Layers(s.view), s.modifier)
  }

  ghost predicate GoodState(s: State) {
    && s.view.Cache? && Inv(s.view)
    && (s.modifier.Some? ==> s.modifier.value in s.view.entries && s.view.entries[s.modifier.value].isDirty)
  }

  /** Reading any layer leaves every layer standing for what it stood for. */
  lemma {:induction false} FetchAtKeepsLayers(v: View, depth: nat, txid: Txid)
    requires Inv(v)
    ensures var r := FetchAt(v, depth, txid);
            && Inv(r) && Layers(r) == Layers(v) && r.Cache? == v.Cache?
            && (forall k :: Lookup(r, k) == Lookup(v, k))
            && (v.Cache? ==> forall k :: k in v.entries ==> k in r.entries && r.entries[k] == v.entries[k])
    decreases depth, v
  {
    hide Fetch, AsMap, EntryOk;
    if depth == 0 || v.Db? {
      FetchKeepsLayers(v, txid);
    } else {
      FetchAtKeepsLayers(v.base, depth - 1, txid);
      SameBelowSameAbove(v, FetchAt(v.base, depth - 1, txid));
    }
  }

  lemma {:induction false} FetchKeepsLayers(v: View, txid: Txid)
    requires Inv(v)
    ensures var r := Fetch(v, txid).view;
            && Inv(r) && Layers(r) == Layers(v) && r.Cache? == v.Cache?
            && (forall k :: Lookup(r, k) == Lookup(v, k))
            && (v.Cache? ==> forall k :: k in v.entries ==> k in r.entries && r.entries[k] == v.entries[k])
  {
    FetchKeepsView(v, txid);
    SameLookupSameMap(Fetch(v, txid).view, v);
    if v.Cache? && txid !in v.entries {
      FetchKeepsLayers(v.base, txid);
    }
  }

  /** One step of the stack is one step of the plain maps. */
  lemma {:induction false} StepRefinesPlain(s: State, op: Op)
    requires GoodState(s) && Allowed(s, op)
    ensures GoodState(Step(s, op))
    ensures PlainPossible(Abstract(s), op) && Abstract(Step(s, op)) == PlainStep(Abstract(s), op)
    ensures op.FlushLayer? ==>
      var layer := LayerAt(s.view, op.depth); BatchAssertions(layer.base, layer.entries)
  {
    hide AsMap, EntryOk, Lookup, Fetch, FetchAt, BeginModify, EndModify, Flush, FlushAt, LayerAt, Put, HandsOver;
    var v := s.view;
    match op
    case Read(txid) => FetchKeepsLayers(v, txid);
    case Peek(depth, txid) => FetchAtKeepsLayers(v, depth, txid);
    case Begin(txid) => BeginKeepsLayers(v, txid);
    case End(coins) => EndPutsInTopLayer(v, s.modifier.value, coins);
    case FlushLayer(depth) =>
      FlushCopiesLayer(v, depth);
      FreshAssertionHolds(LayerAt(v, depth));
    case Push => PushKeepsMap(v);
    case Discard =>
  }

  lemma {:induction false} BeginKeepsLayers(v: View, txid: Txid)
    requires v.Cache? && Inv(v)
    ensures var r := BeginModify(v, txid);
            r.Cache? && Inv(r) && Layers(r) == Layers(v) && txid in r.entries && r.entries[txid].isDirty
  {
    BeginModifyKeepsView(v, txid);
    SameLookupSameMap(BeginModify(v, txid), v);
    if txid !in v.entries {
      FetchKeepsLayers(v.base, txid);
    }
  }

  lemma {:induction false} EndPutsInTopLayer(v: View, txid: Txid, coins: CCoins)
    requires v.Cache? && Inv(v) && txid in v.entries && v.entries[txid].isDirty
    ensures var r := EndModify(v, txid, coins);
            r.Cache? && Inv(r) && Layers(r) == Layers(v)[0 := Put(AsMap(v), txid, coins)]
  {
    hide AsMap, EntryOk, Lookup, Put;
    EndModifyIsPut(v, txid, coins);
  }

  lemma {:induction false} FlushCopiesTopLayer(v: View)
    requires v.Cache? && Inv(v) && HandsOver(v)
    ensures |Layers(v)| > 1 && Flush(v).Cache? && Inv(Flush(v)) && Layers(Flush(v)) == Layers(v)[1 := AsMap(v)]
    ensures forall k :: Lookup(Flush(v), k) == Lookup(v, k)
  {
    hide AsMap, EntryOk, Lookup, HandsOver;
    FlushMovesViewDown(v);
    FlushKeepsLowerLayers(v);
  }

  /** A cache does not notice when the view below it is exchanged for one that answers the same. */
  lemma {:induction false} SameBelowSameAbove(v: View, base: View)
    requires v.Cache? && Inv(v) && Inv(base) && forall k :: Lookup(base, k) == Lookup(v.base, k)
    ensures var r := v.(base := base);
            Inv(r) && AsMap(r) == AsMap(v) && forall k :: Lookup(r, k) == Lookup(v, k)
  {
    var r := v.(base := base);
    forall k | k in r.entries ensures EntryOk(r.entries[k], r.base, k) {
      assert EntryOk(v.entries[k], v.base, k);
    }
    SameLookupSameMap(r, v);
  }

  lemma {:induction false} InvBelow(v: View)
    requires Inv(v) && v.Cache?
    ensures Inv(v.base)
  {
  }

  lemma {:induction false} CopiedBelow<T>(x: T, layers: seq<T>, depth: nat)
    requires 0 < depth < |layers|
    ensures [x] + layers[depth := layers[depth - 1]] == ([x] + layers)[depth + 1 := ([x] + layers)[depth]]
  {
  }

  lemma {:induction false} LayersCopiedBelow(v: View, base: View, depth: nat)
    requires v.Cache? && AsMap(v.(base := base)) == AsMap(v) && 0 < depth < |Layers(v.base)|
    requires Layers(base) == Layers(v.base)[depth := Layers(v.base)[depth - 1]]
    ensures |Layers(v)| == |Layers(v.base)| + 1
    ensures Layers(v.(base := base)) == Layers(v)[depth + 1 := Layers(v)[depth]]
  {
    hide AsMap, Layers;
    CopiedBelow(AsMap(v), Layers(v.base), depth);
  }

  /** Flushing a cache, also below live ones, copies its map down one layer; no other layer and no lookup changes. */
  lemma {:induction false} FlushCopiesLayer(v: View, depth: nat)
    requires Inv(v) && LayerAt(v, depth).Cache? && HandsOver(LayerAt(v, depth))
    ensures v.Cache? && depth + 1 < |Layers(v)|
    ensures var r := FlushAt(v, depth);
            && Inv(r) && r.Cache? && (depth > 0 ==> r.entries == v.entries)
            && Layers(r) == Layers(v)[depth + 1 := Layers(v)[depth]]
            && forall k :: Lookup(r, k) == Lookup(v, k)
    decreases depth
  {
    hide HandsOver, Flush, Lookup, AsMap, EntryOk, Inv, Layers;
    if depth == 0 {
      FlushCopiesTopLayer(v);
    } else {
      InvBelow(v);
      FlushCopiesLayer(v.base, depth - 1);
      SameBelowSameAbove(v, FlushAt(v.base, depth - 1));
      LayersCopiedBelow(v, FlushAt(v.base, depth - 1), depth);
    }
  }

  lemma {:induction false} PushKeepsMap(v: View)
    ensures AsMap(Cache(map[], 0, v)) == AsMap(v)
  {
    forall k ensures Lookup(Cache(map[], 0, v), k) == Lookup(v, k) {}
    SameLookupSameMap(Cache(map[], 0, v), v);
  }

  lemma {:induction false} FlushKeepsLowerLayers(v: View)
    requires v.Cache?
    ensures |Layers(Flush(v))| == |Layers(v)|
    ensures Layers(Flush(v))[2..] == Layers(v)[2..]
  {
    hide Layers, AsMap, MergeAll, WriteAll;
    FromThirdLayer(v);
    FromThirdLayer(Flush(v));
  }

  lemma {:induction false} FromThirdLayer(v: View)
    requires v.Cache?
    ensures |Layers(v)| > 1
    ensures Layers(v)[2..] == if v.base.Cache? then Layers(v.base.base) else []
  {
    hide AsMap, Layers;
    if v.base.Db? {
      DatabaseIsOneLayer(v.base);
    }
  }

  lemma {:induction false} DatabaseIsOneLayer(v: View)
    requires v.Db?
    ensures |Layers(v)| == 1
  {
    hide AsMap;
  }

  ghost predicate AllowedRun(s: State, ops: seq<Op>)
    decreases |ops|
  {
    ops == [] || (Allowed(s, ops[0]) && AllowedRun(Step(s, ops[0]), ops[1..]))
  }

  function Run(s: State, ops: seq<Op>): State
    requires AllowedRun(s, ops)
    decreases |ops|
  {
    if ops == [] then s else Run(Step(s, ops[0]), ops[1..])
  }

  ghost predicate PlainAllowed(p: Plain, ops: seq<Op>)
    decreases |ops|
  {
    ops == [] || (PlainPossible(p, ops[0]) && PlainAllowed(PlainStep(p, ops[0]), ops[1..]))
  }

  function PlainRun(p: Plain, ops: seq<Op>): Plain
    requires PlainAllowed(p, ops)
    decreases |ops|
  {
    if ops == [] then p else PlainRun(PlainStep(p, ops[0]), ops[1..])
  }

  /** Every run keeps the invariant and cannot be told from the same run on plain maps. */
  lemma {:induction false} RunRefinesPlain(s: State, ops: seq<Op>)
    requires GoodState(s) && AllowedRun(s, ops)
    ensures GoodState(Run(s, ops))
    ensures PlainAllowed(Abstract(s), ops) && Abstract(Run(s, ops)) == PlainRun(Abstract(s), ops)
    decreases |ops|
  {
    if ops != [] {
      StepRefinesPlain(s, ops[0]);
      RunRefinesPlain(Step(s, ops[0]), ops[1..]);
    }
  }

  lemma {:induction false} FreshStackIsGood(coins: map<Txid, CCoins>, best: uint256)
    requires forall k :: k in coins ==> coins[k].IsTrimmed()
    ensures var s := State(Cache(map[], 0, Db(coins, best)), None); GoodState(s) && Backed(s.view)
  {
  }

  /** What a read returns after any run: what the plain map of that layer holds. */
  lemma {:induction false} ReadsSeePlainMap(s: State, txid: Txid)
    requires GoodState(s)
    ensures Unspent(Fetch(s.view, txid).coins) == Get(Abstract(s).layers[0], txid)
    ensures Have(Fetch(s.view, txid).coins) <==> txid in Abstract(s).layers[0]
  {
    FetchKeepsView(s.view, txid);
    AsMapIsLookup(s.view, txid);
  }

  // ------------------------------------------------- flushing below a live cache

  /** A run in which only the top is ever flushed needs no further care: `Backed` stays, so every flush hands over. */
  ghost predicate TopFlushesOnly(s: State, ops: seq<Op>)
    decreases |ops|
  {
    ops == [] ||
    (Possible(s, ops[0]) && (ops[0].FlushLayer? ==> ops[0].depth == 0) && TopFlushesOnly(Step(s, ops[0]), ops[1..]))
  }

  lemma {:induction false} TopFlushesAreAllowed(s: State, ops: seq<Op>)
    requires GoodState(s) && Backed(s.view) && TopFlushesOnly(s, ops)
    ensures AllowedRun(s, ops)
    decreases |ops|
  {
    hide Inv, Backed, HandsOver, Possible, Step, GoodState;
    if ops != [] {
      TopFlushIsAllowed(s, ops[0]);
      StepKeepsBacked(s, ops[0]);
      StepRefinesPlain(s, ops[0]);
      TopFlushesAreAllowed(Step(s, ops[0]), ops[1..]);
    }
  }

  lemma {:induction false} TopFlushIsAllowed(s: State, op: Op)
    requires Backed(s.view) && Possible(s, op) && (op.FlushLayer? ==> op.depth == 0)
    ensures Allowed(s, op)
  {
    BackedHandsOver(s.view);
  }

  lemma {:induction false} StepKeepsBacked(s: State, op: Op)
    requires GoodState(s) && Backed(s.view) && Possible(s, op) && (op.FlushLayer? ==> op.depth == 0)
    ensures Backed(Step(s, op).view)
  {
    hide Inv, EntryOk, Lookup, Fetch, FetchAt, BeginModify, EndModify, BatchWrite;
    match op
    case Read(txid) => FetchKeepsBacked(s.view, txid);
    case Peek(depth, txid) => FetchAtKeepsBacked(s.view, depth, txid);
    case Begin(txid) => BeginKeepsBacked(s.view, txid);
    case End(coins) => EndKeepsBacked(s.view, s.modifier.value, coins);
    case FlushLayer(_) => BatchWriteKeepsBacked(s.view);
    case Push =>
    case Discard =>
  }

  lemma {:induction false} FetchKeepsBacked(v: View, txid: Txid)
    requires Backed(v)
    ensures var r := Fetch(v, txid);
            && Backed(r.view) && r.view.Cache? == v.Cache?
            && (v.Cache? ==> v.entries.Keys <= r.view.entries.Keys)
            && (v.Cache? && r.coins.Some? ==> txid in r.view.entries)
  {
    if v.Cache? && txid !in v.entries {
      FetchKeepsBacked(v.base, txid);
    }
  }

  lemma {:induction false} FetchAtKeepsBacked(v: View, depth: nat, txid: Txid)
    requires Backed(v)
    ensures var r := FetchAt(v, depth, txid);
            Backed(r) && r.Cache? == v.Cache? && (v.Cache? ==> v.entries.Keys <= r.entries.Keys)
    decreases depth, v
  {
    hide Fetch;
    if depth == 0 || v.Db? {
      FetchKeepsBacked(v, txid);
    } else {
      FetchAtKeepsBacked(v.base, depth - 1, txid);
    }
  }

  lemma {:induction false} BeginKeepsBacked(v: View, txid: Txid)
    requires v.Cache? && Backed(v)
    ensures Backed(BeginModify(v, txid))
  {
    hide Fetch;
    if txid !in v.entries {
      FetchKeepsBacked(v.base, txid);
    }
  }

  lemma {:induction false} EndKeepsBacked(v: View, txid: Txid, coins: CCoins)
    requires v.Cache? && txid in v.entries && Backed(v)
    ensures Backed(EndModify(v, txid, coins))
  {
  }

  lemma {:induction false} BatchWriteKeepsBacked(v: View)
    requires v.Cache? && Backed(v)
    ensures Backed(BatchWrite(v.base, v.entries, v.hashBlock))
  {
    if v.base.Cache? {
      var m := MergeAll(v.base.entries, v.entries);
      forall k | k in m && !m[k].isFresh && v.base.base.Cache? ensures k in v.base.base.entries {
        assert Merged(v.base.entries, v.entries, k) == Some(m[k]);
      }
    }
  }

  /**
   Flushing the parent of a live cache changes nothing that can be looked up, but it takes away what
   entries that are not FRESH were backed by: the assertion for the cache still holds if and only if
   none of them carries coins to hand over, and its flush is still right if and only if none of them
   carries even a spend.
   */
  lemma {:induction false} FlushBelowChildIff(v: View)
    requires v.Cache? && v.base.Cache? && Inv(v) && HandsOver(v.base)
    ensures var w := FlushAt(v, 1);
            && Inv(w) && AsMap(w) == AsMap(v) && AsMap(w.base) == AsMap(v.base)
            && (BatchAssertions(w.base, w.entries) <==>
                  forall k :: k in v.entries && v.entries[k].isDirty && !v.entries[k].coins.IsPruned() ==>
                    v.entries[k].isFresh)
            && (HandsOver(w) <==>
                  forall k :: k in v.entries && v.entries[k].isDirty && !v.entries[k].isFresh ==>
                    v.entries[k].coins.IsPruned() && Lookup(v.base, k) == None)
  {
    hide AsMap, EntryOk;
    assert LayerAt(v, 1) == v.base;
    FlushCopiesLayer(v, 1);
    FlushMovesViewDown(v.base);
    SameLookupSameMap(FlushAt(v, 1), v);
    assert FlushAt(v, 1) == v.(base := Flush(v.base));
  }

  /** A case where it fails: the parent has fetched some coins, the child has opened a modifier on them. */
  lemma {:induction false} FlushUnderLiveChild(c: CCoins)
    requires c.IsTrimmed() && !c.IsPruned()
    ensures var parent := Cache(map[7 := Entry(c, false, false)], 0, Db(map[7 := c], 1));
            var child := BeginModify(Cache(map[], 0, parent), 7);
            Inv(child) && BatchAssertions(child.base, child.entries)
            && !BatchAssertions(Flush(child.base), child.entries)
  {
    var parent := Cache(map[7 := Entry(c, false, false)], 0, Db(map[7 := c], 1));
    assert EntryOk(parent.entries[7], parent.base, 7);
    var child := Cache(map[], 0, parent);
    BeginModifyKeepsView(child, 7);
    assert Backed(parent) && Backed(child);
    BeginKeepsBacked(child, 7);
    BackedHandsOver(BeginModify(child, 7));
    FreshAssertionHolds(BeginModify(child, 7));
    assert 7 in BeginModify(child, 7).entries;
  }

  /** Another: the child has spent them. The assertion holds, but the spend is lost when the child is flushed. */
  lemma {:induction false} SpendIsLost(c: CCoins)
    requires c.IsTrimmed() && !c.IsPruned()
    ensures var parent := Cache(map[7 := Entry(c, false, false)], 0, Db(map[7 := c], 1));
            var child := EndModify(BeginModify(Cache(map[], 0, parent), 7), 7, CLEARED);
            var w := child.(base := Flush(child.base));
            BatchAssertions(w.base, w.entries) && 7 !in AsMap(w) && 7 in AsMap(Flush(w))
  {
    var parent := Cache(map[7 := Entry(c, false, false)], 0, Db(map[7 := c], 1));
    var child := EndModify(BeginModify(Cache(map[], 0, parent), 7), 7, CLEARED);
    assert child.entries == map[7 := Entry(CLEARED, true, false)];
    var w := child.(base := Flush(child.base));
    assert w.base.base.coins == map[7 := c] && w.base.entries == map[];
    assert MergeAll(map[], w.entries) == map[];
    AsMapIsLookup(w, 7);
    AsMapIsLookup(Flush(w), 7);
    assert Flush(w).base == Cache(map[], 0, w.base.base);
    assert Lookup(Flush(w), 7) == Lookup(Flush(w).base, 7) == Lookup(w.base.base, 7);
  }

  // --------------------------------------------------------------- best block

  function BestBlock(v: View): uint256 {
    match v
    case Db(_, best) => best
    case Cache(_, hashBlock, base) => if hashBlock != 0 then hashBlock else BestBlock(base)
  }

  /**
   A flush passes the cache's own `hashBlock` down even when it is still unset, and a
   parent cache then forgets its own. The best block survives exactly in these cases.
   */
  lemma {:induction false} FlushKeepsBestBlockIff(v: View)
    requires v.Cache?
    ensures BestBlock(Flush(v)) == BestBlock(v) <==>
      || v.hashBlock != 0
      || v.base.Db?
      || v.base.hashBlock == 0
      || v.base.hashBlock == BestBlock(v.base.base)
  {
    var w := Flush(v);
    if v.hashBlock == 0 && v.base.Cache? {
      assert BestBlock(w) == BestBlock(w.base) == BestBlock(v.base.base);
    }
  }

  /** A case where it does not: the cache never asked for the best block that its parent cache was given. */
  lemma {:induction false} FlushForgetsBestBlock()
    ensures var v := Cache(map[], 0, Cache(map[], 5, Db(map[], 1)));
            BestBlock(v) == 5 && BestBlock(Flush(v)) == 1
  {
    var v := Cache(map[], 0, Cache(map[], 5, Db(map[], 1)));
    FlushKeepsBestBlockIff(v);
    assert BestBlock(Flush(v)) == BestBlock(Flush(v).base) == BestBlock(Db(map[], 1));
  }
}
