/**
 Block template selection: the best ready transaction is taken into the block or refused;
 `COrphan`s wait for their parents.
 */
module Miner {
  import opened Common
  import Consensus
  import opened Heap
  import opened Transactions

  const MAX_BLOCK_SIGOPS := MAX_BLOCK_SIZE / 50
  const ALLOW_FREE_THRESHOLD: real := 230400000.0

  type Pool = map<nat, CTransaction>

  /** Everything the selection reads. Priorities, fee rates and the script checks are whatever they are. */
  datatype Context = Context(
    pool: Pool, base: View,
    nBlockMaxSize: nat, nBlockPrioritySize: nat, nBlockMinSize: nat,
    isFinal: CTransaction -> bool,
    dPriority: CTransaction -> real,
    feeRate: CTransaction -> int,
    isPrioritised: CTransaction -> bool,
    minRelayTxFee: int,
    p2shSigOps: (CTransaction, View) -> nat,
    scripts: (CTransaction, View) -> bool)
  {
    /** The pool's own guarantees: entries are filed under their hash, checked, and have known inputs. */
    ghost predicate Valid() {
      && nBlockMaxSize >= 1000
      && (forall h :: h in pool ==> pool[h].hash == h && CheckTransaction(pool[h]))
      && (forall h, i :: h in pool && 0 <= i < |pool[h].vin| ==>
        HaveCoins(base, pool[h].vin[i].hash) || pool[h].vin[i].hash in pool)
    }

    predicate IsCandidate(tx: CTransaction) {
      !tx.isCoinBase && isFinal(tx)
    }

    /** The parents that are not in the chain yet, among those of the first `n` inputs. */
    function ParentsOf(tx: CTransaction, n: nat): set<nat>
      requires n <= |tx.vin|
    {
      set i | 0 <= i < n && !HaveCoins(base, tx.vin[i].hash) :: tx.vin[i].hash
    }

    function Parents(tx: CTransaction): set<nat> {
      ParentsOf(tx, |tx.vin|)
    }

    function Entry(tx: CTransaction): TxPriority {
      TxPriority(dPriority(tx), feeRate(tx), tx)
    }

    /** The candidates among `some` whose parents have all been chosen. */
    ghost function Ready(some: set<nat>, chosen: set<nat>): set<nat> {
      set h | h in some && h in pool && IsCandidate(pool[h]) && Parents(pool[h]) <= chosen
    }
  }

  datatype TxPriority = TxPriority(dPriority: real, feeRate: int, tx: CTransaction)

  /** `TxPriorityCompare`. */
  predicate Less(byFee: bool, a: TxPriority, b: TxPriority) {
    if byFee then
      if a.feeRate == b.feeRate then a.dPriority < b.dPriority else a.feeRate < b.feeRate
    else
      if a.dPriority == b.dPriority then a.feeRate < b.feeRate else a.dPriority < b.dPriority
  }

  function Comparer(byFee: bool): (TxPriority, TxPriority) -> bool {
    (a: TxPriority, b: TxPriority) => Less(byFee, a, b)
  }

  lemma {:induction false} ComparerIsOrder(byFee: bool)
    ensures IsOrder(Comparer(byFee))
  {
  }

  ghost function HashesOf(vecPriority: seq<TxPriority>): set<nat> {
    set i | 0 <= i < |vecPriority| :: vecPriority[i].tx.hash
  }

  ghost function BlockHashes(block: seq<CTransaction>): set<nat> {
    set i | 0 <= i < |block| :: block[i].hash
  }

  /** A transaction that waits for the parents in `setDependsOn`. */
  class COrphan {
    const ptx: CTransaction
    var setDependsOn: set<nat>
    var feeRate: int
    var dPriority: real

    constructor (ptx: CTransaction)
      ensures this.ptx == ptx && setDependsOn == {}
    {
      this.ptx := ptx;
      setDependsOn, feeRate, dPriority := {}, 0, 0.0;
    }
  }

  function DependersOf(mapDependers: map<nat, seq<COrphan>>, hash: nat): seq<COrphan> {
    if hash in mapDependers then mapDependers[hash] else []
  }

  /** Each candidate with pool parents has one orphan record, filed under each of those parents. */
  ghost predicate Linked(c: Context, some: set<nat>, vOrphan: seq<COrphan>, mapDependers: map<nat, seq<COrphan>>) {
    && (forall i, j :: 0 <= i < j < |vOrphan| ==> vOrphan[i].ptx.hash != vOrphan[j].ptx.hash)
    && (forall o :: o in vOrphan ==> OrphanOk(c, some, o))
    && (forall h :: h in some && h in c.pool && c.IsCandidate(c.pool[h]) && c.Parents(c.pool[h]) != {} ==>
      exists o :: o in vOrphan && o.ptx.hash == h)
    && Filed(c, vOrphan, mapDependers)
  }

  ghost predicate OrphanOk(c: Context, some: set<nat>, o: COrphan) {
    o.ptx.hash in some && o.ptx.hash in c.pool &&
      o.ptx == c.pool[o.ptx.hash] && c.IsCandidate(o.ptx) && c.Parents(o.ptx) != {}
  }

  /** Every orphan waits for exactly its parents that are not chosen yet. */
  ghost predicate Waiting(c: Context, chosen: set<nat>, vOrphan: seq<COrphan>)
    reads vOrphan
  {
    forall o :: o in vOrphan ==> o.setDependsOn == c.Parents(o.ptx) - chosen && Ranked(c, o)
  }

  ghost predicate Ranked(c: Context, o: COrphan)
    reads o
  {
    o.dPriority == c.dPriority(o.ptx) && o.feeRate == c.feeRate(o.ptx)
  }

  ghost predicate Filed(c: Context, vOrphan: seq<COrphan>, mapDependers: map<nat, seq<COrphan>>) {
    && (forall h :: h in mapDependers ==> forall o :: o in mapDependers[h] ==> o in vOrphan && h in c.Parents(o.ptx))
    && (forall o :: o in vOrphan ==> forall h :: h in c.Parents(o.ptx) ==> o in DependersOf(mapDependers, h))
  }

  /** The queue holds each ready candidate once, until it has been considered. */
  ghost predicate QueueOk(c: Context, some: set<nat>, chosen: set<nat>, seen: set<nat>, vecPriority: seq<TxPriority>) {
    && EntriesOk(c, some, vecPriority)
    && HashesOf(vecPriority) !! seen
    && HashesOf(vecPriority) + seen == c.Ready(some, chosen)
  }

  ghost predicate EntriesOk(c: Context, some: set<nat>, vecPriority: seq<TxPriority>) {
    && (forall i :: 0 <= i < |vecPriority| ==>
      vecPriority[i].tx.hash in some && vecPriority[i].tx.hash in c.pool &&
        vecPriority[i] == c.Entry(c.pool[vecPriority[i].tx.hash]))
    && (forall i, j :: 0 <= i < j < |vecPriority| ==> vecPriority[i].tx.hash != vecPriority[j].tx.hash)
  }

  // Collecting the pool.

  /** One more input: a parent outside the chain is a dependency, filed under its hash. */
  method LinkInputs(c: Context, tx: CTransaction, vOrphan: seq<COrphan>, mapDependers: map<nat, seq<COrphan>>)
    returns (porphan: COrphan?, vOrphan': seq<COrphan>, mapDependers': map<nat, seq<COrphan>>)
    ensures porphan == null <==> c.Parents(tx) == {}
    ensures porphan == null ==> vOrphan' == vOrphan && mapDependers' == mapDependers
    ensures porphan != null ==>
      fresh(porphan) && porphan.ptx == tx && porphan.setDependsOn == c.Parents(tx) && vOrphan' == vOrphan + [porphan]
    ensures porphan != null ==> forall h, o :: o in DependersOf(mapDependers', h) <==>
      o in DependersOf(mapDependers, h) || (o == porphan && h in c.Parents(tx))
  {
    hide HaveCoins, DependersOf, Context.ParentsOf;
    NoInputs(c, tx);
    porphan, vOrphan', mapDependers' := null, vOrphan, mapDependers;
    for i := 0 to |tx.vin|
      invariant porphan == null <==> c.ParentsOf(tx, i) == {}
      invariant porphan == null ==> vOrphan' == vOrphan && mapDependers' == mapDependers
      invariant porphan != null ==>
        fresh(porphan) && porphan.ptx == tx && porphan.setDependsOn == c.ParentsOf(tx, i) &&
          vOrphan' == vOrphan + [porphan]
      invariant porphan != null ==> forall h, o :: o in DependersOf(mapDependers', h) <==>
        o in DependersOf(mapDependers, h) || (o == porphan && h in c.ParentsOf(tx, i))
    {
      var hash := tx.vin[i].hash;
      OneMoreInput(c, tx, i);
      if !HaveCoins(c.base, hash) {
        if porphan == null {
          porphan := new COrphan(tx);
          vOrphan' := vOrphan' + [porphan];
        }
        ghost var before := mapDependers';
        mapDependers' := mapDependers'[hash := DependersOf(mapDependers', hash) + [porphan]];
        porphan.setDependsOn := porphan.setDependsOn + {hash};
        forall h, o
          ensures o in DependersOf(mapDependers', h) <==>
            o in DependersOf(mapDependers, h) || (o == porphan && h in c.ParentsOf(tx, i + 1))
        {
          FileUnder(before, hash, porphan, h, o);
        }
      }
    }
  }

  lemma {:induction false} NoInputs(c: Context, tx: CTransaction)
    ensures c.ParentsOf(tx, 0) == {}
  {
  }

  lemma {:induction false} OneMoreInput(c: Context, tx: CTransaction, i: nat)
    requires i < |tx.vin|
    ensures HaveCoins(c.base, tx.vin[i].hash) ==> c.ParentsOf(tx, i + 1) == c.ParentsOf(tx, i)
    ensures !HaveCoins(c.base, tx.vin[i].hash) ==> c.ParentsOf(tx, i + 1) == c.ParentsOf(tx, i) + {tx.vin[i].hash}
  {
  }

  lemma {:induction false} FileUnder(mapDependers: map<nat, seq<COrphan>>, hash: nat, porphan: COrphan, h: nat,
          o: COrphan)
    ensures var filed := mapDependers[hash := DependersOf(mapDependers, hash) + [porphan]];
      o in DependersOf(filed, h) <==> o in DependersOf(mapDependers, h) || (h == hash && o == porphan)
  {
  }

  lemma {:induction false} NothingToLink(c: Context, some: set<nat>, hash: nat, vOrphan: seq<COrphan>,
          mapDependers: map<nat, seq<COrphan>>)
    requires some <= c.pool.Keys && hash in c.pool && Linked(c, some, vOrphan, mapDependers)
    requires !c.IsCandidate(c.pool[hash]) || c.Parents(c.pool[hash]) == {}
    ensures Linked(c, some + {hash}, vOrphan, mapDependers)
  {
    hide Filed, Context.Parents, Context.IsCandidate;
    forall o | o in vOrphan ensures OrphanOk(c, some + {hash}, o) {
      assert OrphanOk(c, some, o);
    }
  }

  lemma {:induction false} OneMoreLinked(c: Context, some: set<nat>, hash: nat, vOrphan: seq<COrphan>,
          mapDependers: map<nat, seq<COrphan>>,
                                         porphan: COrphan, mapDependers': map<nat, seq<COrphan>>)
    requires some <= c.pool.Keys && hash in c.pool - some && Linked(c, some, vOrphan, mapDependers)
    requires porphan.ptx == c.pool[hash] && porphan.ptx.hash == hash && OrphanOk(c, some + {hash}, porphan)
    requires Filed(c, vOrphan + [porphan], mapDependers')
    ensures Linked(c, some + {hash}, vOrphan + [porphan], mapDependers')
  {
    hide Filed, Context.Parents, Context.IsCandidate;
    forall o | o in vOrphan ensures OrphanOk(c, some + {hash}, o) && o.ptx.hash != hash {
      assert OrphanOk(c, some, o);
    }
    assert porphan in vOrphan + [porphan];
    forall h | h in some + {hash} && c.IsCandidate(c.pool[h]) && c.Parents(c.pool[h]) != {}
      ensures exists o :: o in vOrphan + [porphan] && o.ptx.hash == h
    {
      if h != hash {
        var o :| o in vOrphan && o.ptx.hash == h;
        assert o in vOrphan + [porphan];
      }
    }
  }

  lemma {:induction false} OneMoreFiled(c: Context, some: set<nat>, vOrphan: seq<COrphan>,
          mapDependers: map<nat, seq<COrphan>>,
          porphan: COrphan, mapDependers': map<nat, seq<COrphan>>)
    requires Linked(c, some, vOrphan, mapDependers)
    requires forall h, o :: o in DependersOf(mapDependers', h) <==>
      o in DependersOf(mapDependers, h) || (o == porphan && h in c.Parents(porphan.ptx))
    ensures Filed(c, vOrphan + [porphan], mapDependers')
  {
    hide Context.Parents;
    forall h, o | h in mapDependers' && o in mapDependers'[h]
      ensures o in vOrphan + [porphan] && h in c.Parents(o.ptx) {
      assert o in DependersOf(mapDependers', h);
    }
  }

  lemma {:induction false} PushReady(c: Context, some: set<nat>, chosen: set<nat>, vecPriority: seq<TxPriority>,
          hash: nat)
    requires some <= c.pool.Keys && EntriesOk(c, some, vecPriority)
    requires hash in some && c.pool[hash].hash == hash && hash !in HashesOf(vecPriority)
    ensures EntriesOk(c, some, vecPriority + [c.Entry(c.pool[hash])])
    ensures HashesOf(vecPriority + [c.Entry(c.pool[hash])]) == HashesOf(vecPriority) + {hash}
  {
    HashesOfPush(vecPriority, c.Entry(c.pool[hash]));
  }

  /** The order of the queue does not matter to what it holds. */
  lemma {:induction false} PermutedEntries(c: Context, some: set<nat>, v: seq<TxPriority>, w: seq<TxPriority>)
    requires EntriesOk(c, some, v) && multiset(w) == multiset(v)
    ensures EntriesOk(c, some, w) && HashesOf(w) == HashesOf(v)
  {
    forall x ensures x in v <==> x in w {
      assert x in multiset(v) <==> x in multiset(w);
    }
    forall i | 0 <= i < |w| ensures exists k :: 0 <= k < |v| && v[k] == w[i] {
      assert w[i] in v;
    }
    forall i, j | 0 <= i < j < |w| ensures w[i].tx.hash != w[j].tx.hash {
      if w[i] == w[j] {
        CountedTwice(w, i, j);
        CountedOnce(v, w[i]);
      }
    }
    SameHashes(v, w);
    SameHashes(w, v);
  }

  lemma {:induction false} SameHashes(v: seq<TxPriority>, w: seq<TxPriority>)
    requires forall x :: x in v ==> x in w
    ensures HashesOf(v) <= HashesOf(w)
  {
    forall h | h in HashesOf(v) ensures h in HashesOf(w) {
      var i :| 0 <= i < |v| && v[i].tx.hash == h;
      assert v[i] in w;
    }
  }

  lemma {:induction false} CountedTwice<T>(w: seq<T>, i: nat, j: nat)
    requires i < j < |w| && w[i] == w[j]
    ensures multiset(w)[w[i]] >= 2
  {
    assert w == w[..i] + [w[i]] + w[i + 1..j] + [w[j]] + w[j + 1..];
  }

  lemma {:induction false} CountedOnce<T>(v: seq<T>, x: T)
    requires forall i, j :: 0 <= i < j < |v| ==> v[i] != v[j]
    ensures multiset(v)[x] <= 1
  {
    if v != [] {
      CountedOnce(v[1..], x);
      assert v == [v[0]] + v[1..];
      if x == v[0] {
        assert x !in v[1..];
      }
    }
  }

  lemma {:induction false} HashesOfPush(vecPriority: seq<TxPriority>, e: TxPriority)
    ensures HashesOf(vecPriority + [e]) == HashesOf(vecPriority) + {e.tx.hash}
  {
    var longer := vecPriority + [e];
    assert longer[|vecPriority|] == e;
    forall h | h in HashesOf(vecPriority) ensures h in HashesOf(longer) {
      var i :| 0 <= i < |vecPriority| && vecPriority[i].tx.hash == h;
      assert longer[i].tx.hash == h;
    }
  }

  lemma {:induction false} MoreToCollect(c: Context, some: set<nat>, hash: nat, vecPriority: seq<TxPriority>)
    requires hash in c.pool && hash !in some && EntriesOk(c, some, vecPriority)
    ensures EntriesOk(c, some + {hash}, vecPriority) && hash !in HashesOf(vecPriority)
    ensures c.Ready(some + {hash}, {}) ==
      c.Ready(some, {}) + if c.IsCandidate(c.pool[hash]) && c.Parents(c.pool[hash]) <= {} then {hash} else {}
  {
  }

  lemma {:induction false} NothingCollected(c: Context)
    ensures Linked(c, {}, [], map[]) && Waiting(c, {}, [])
    ensures EntriesOk(c, {}, []) && HashesOf([]) == {} == c.Ready({}, {})
  {
  }

  lemma {:induction false} OneMoreWaits(c: Context, vOrphan: seq<COrphan>, porphan: COrphan)
    requires Waiting(c, {}, vOrphan) && porphan.setDependsOn == c.Parents(porphan.ptx) && Ranked(c, porphan)
    ensures Waiting(c, {}, vOrphan + [porphan])
  {
    hide Context.Parents;
  }

  lemma {:induction false} NothingSeen(c: Context, vecPriority: seq<TxPriority>)
    requires EntriesOk(c, c.pool.Keys, vecPriority) && HashesOf(vecPriority) == c.Ready(c.pool.Keys, {})
    ensures QueueOk(c, c.pool.Keys, {}, {}, vecPriority)
  {
  }

  /** The pool is split into ready transactions and orphans; what is neither coinbase nor final is left out. */
  method CollectPool(c: Context)
    returns (vecPriority: seq<TxPriority>, vOrphan: seq<COrphan>, mapDependers: map<nat, seq<COrphan>>)
    requires c.Valid()
    ensures fresh(vOrphan)
    ensures Linked(c, c.pool.Keys, vOrphan, mapDependers) && Waiting(c, {}, vOrphan)
    ensures QueueOk(c, c.pool.Keys, {}, {}, vecPriority)
  {
    hide HaveCoins, DependersOf, Context.ParentsOf, Context.Parents, Context.IsCandidate, Context.Ready,
      CheckTransaction, Filed, Linked, EntriesOk, HashesOf, QueueOk, Waiting;
    vecPriority, vOrphan, mapDependers := [], [], map[];
    NothingCollected(c);
    var todo := c.pool.Keys;
    assert c.pool.Keys - todo == {};
    while todo != {}
      invariant todo <= c.pool.Keys
      invariant fresh(vOrphan)
      invariant Linked(c, c.pool.Keys - todo, vOrphan, mapDependers) && Waiting(c, {}, vOrphan)
      invariant EntriesOk(c, c.pool.Keys - todo, vecPriority)
      invariant HashesOf(vecPriority) == c.Ready(c.pool.Keys - todo, {})
      decreases todo
    {
      var hash :| hash in todo;
      ghost var some := c.pool.Keys - todo;
      todo := todo - {hash};
      assert c.pool.Keys - todo == some + {hash};
      MoreToCollect(c, some, hash, vecPriority);
      var tx := c.pool[hash];
      if !c.IsCandidate(tx) {
        NothingToLink(c, some, hash, vOrphan, mapDependers);
        continue;
      }
      ghost var vOrphan0, mapDependers0 := vOrphan, mapDependers;
      var porphan;
      porphan, vOrphan, mapDependers := LinkInputs(c, tx, vOrphan, mapDependers);
      if porphan != null {
        porphan.dPriority := c.dPriority(tx);
        porphan.feeRate := c.feeRate(tx);
        OneMoreFiled(c, some, vOrphan0, mapDependers0, porphan, mapDependers);
        OneMoreLinked(c, some, hash, vOrphan0, mapDependers0, porphan, mapDependers);
        OneMoreWaits(c, vOrphan0, porphan);
      } else {
        NothingToLink(c, some, hash, vOrphan, mapDependers);
        PushReady(c, some + {hash}, {}, vecPriority, hash);
        vecPriority := vecPriority + [TxPriority(c.dPriority(tx), c.feeRate(tx), tx)];
      }
    }
    assert c.pool.Keys - todo == c.pool.Keys;
    NothingSeen(c, vecPriority);
  }

  // Releasing children.

  ghost function Released(c: Context, chosen: set<nat>, dependers: seq<COrphan>): set<nat> {
    set k | 0 <= k < |dependers| && c.Parents(dependers[k].ptx) <= chosen :: dependers[k].ptx.hash
  }

  /** In the middle of the pass over the dependers of `hash`, the first `i` of them no longer wait for it. */
  ghost predicate PartlyWaiting(c: Context, chosen: set<nat>, hash: nat, dependers: seq<COrphan>, vOrphan: seq<COrphan>)
    reads vOrphan
  {
    forall o :: o in vOrphan ==>
      o.setDependsOn == c.Parents(o.ptx) - chosen - (if o in dependers then {hash} else {}) && Ranked(c, o)
  }

  lemma {:induction false} OneMoreReleased(c: Context, chosen: set<nat>, dependers: seq<COrphan>, i: nat)
    requires i < |dependers|
    ensures Released(c, chosen, dependers[..i + 1]) == Released(c, chosen, dependers[..i])
      + if c.Parents(dependers[i].ptx) <= chosen then {dependers[i].ptx.hash} else {}
  {
    hide Context.Parents;
    assert dependers[..i + 1] == dependers[..i] + [dependers[i]];
  }

  lemma {:induction false} DependerIsOrphan(c: Context, hash: nat, vOrphan: seq<COrphan>, mapDependers: map<nat,
          seq<COrphan>>, i: nat)
    requires Linked(c, c.pool.Keys, vOrphan, mapDependers) && i < |DependersOf(mapDependers, hash)|
    ensures var o := DependersOf(mapDependers, hash)[i];
      o in vOrphan && hash in c.Parents(o.ptx) && OrphanOk(c, c.pool.Keys, o)
  {
    hide Context.Parents, OrphanOk;
  }

  /** A record comes up among the dependers of one parent once or more, but counts as released once. */
  lemma {:induction false} ReleasedIffSeen(c: Context, chosen: set<nat>, vOrphan: seq<COrphan>, before: seq<COrphan>,
          o: COrphan)
    requires forall i, j :: 0 <= i < j < |vOrphan| ==> vOrphan[i].ptx.hash != vOrphan[j].ptx.hash
    requires o in vOrphan && c.Parents(o.ptx) <= chosen && forall p :: p in before ==> p in vOrphan
    ensures o.ptx.hash in Released(c, chosen, before) <==> o in before
  {
    hide Context.Parents;
    if o in before {
      var k :| 0 <= k < |before| && before[k] == o;
      assert before[k].ptx.hash in Released(c, chosen, before);
    }
    forall k | 0 <= k < |before| && before[k].ptx.hash == o.ptx.hash ensures before[k] == o {
      assert before[k] in vOrphan;
    }
  }

  /** A depender that comes up for the first time is not in the queue, and has not been. */
  lemma {:induction false} FirstTime(c: Context, chosen: set<nat>, hash: nat, vOrphan: seq<COrphan>,
          mapDependers: map<nat, seq<COrphan>>, i: nat)
    requires Linked(c, c.pool.Keys, vOrphan, mapDependers) && hash !in chosen && i < |DependersOf(mapDependers, hash)|
    ensures var dependers := DependersOf(mapDependers, hash); var o := dependers[i];
      && o in vOrphan && hash in c.Parents(o.ptx) && OrphanOk(c, c.pool.Keys, o)
      && o.ptx.hash !in c.Ready(c.pool.Keys, chosen)
      && (c.Parents(o.ptx) <= chosen + {hash} ==>
        (o.ptx.hash in Released(c, chosen + {hash}, dependers[..i]) <==> o in dependers[..i]))
  {
    hide Context.Parents, Context.IsCandidate, Filed, Released, DependersOf;
    var dependers := DependersOf(mapDependers, hash);
    DependerIsOrphan(c, hash, vOrphan, mapDependers, i);
    forall p | p in dependers[..i] ensures p in vOrphan {
      var k :| 0 <= k < i && dependers[k] == p;
      DependerIsOrphan(c, hash, vOrphan, mapDependers, k);
    }
    if c.Parents(dependers[i].ptx) <= chosen + {hash} {
      ReleasedIffSeen(c, chosen + {hash}, vOrphan, dependers[..i], dependers[i]);
    }
  }

  /** What becomes ready when `hash` is chosen is exactly what its dependers release. */
  lemma {:induction false} AllReleased(c: Context, chosen: set<nat>, hash: nat, vOrphan: seq<COrphan>,
          mapDependers: map<nat, seq<COrphan>>)
    requires Linked(c, c.pool.Keys, vOrphan, mapDependers)
    ensures c.Ready(c.pool.Keys, chosen + {hash}) ==
      c.Ready(c.pool.Keys, chosen) + Released(c, chosen + {hash}, DependersOf(mapDependers, hash))
  {
    hide Context.Parents, Context.IsCandidate;
    var dependers := DependersOf(mapDependers, hash);
    forall h | h in c.Ready(c.pool.Keys, chosen + {hash}) && h !in c.Ready(c.pool.Keys, chosen)
      ensures h in Released(c, chosen + {hash}, dependers)
    {
      assert hash in c.Parents(c.pool[h]);
      var o :| o in vOrphan && o.ptx.hash == h;
      assert OrphanOk(c, c.pool.Keys, o);
      assert o in dependers;
      var k :| 0 <= k < |dependers| && dependers[k] == o;
    }
    forall h | h in Released(c, chosen + {hash}, dependers) ensures h in c.Ready(c.pool.Keys, chosen + {hash}) {
      var k :| 0 <= k < |dependers| && c.Parents(dependers[k].ptx) <= chosen + {hash} && dependers[k].ptx.hash == h;
      assert OrphanOk(c, c.pool.Keys, dependers[k]);
    }
  }

  /** `hash` has been chosen: its dependers stop waiting for it, and those left without dependencies join the queue. */
  method QueueDependers(c: Context, hash: nat, ghost chosen: set<nat>, ghost seen: set<nat>,
          vecPriority: seq<TxPriority>, comparer: (TxPriority, TxPriority) -> bool, ghost vOrphan: seq<COrphan>,
          mapDependers: map<nat, seq<COrphan>>)
    returns (queue: seq<TxPriority>)
    requires Linked(c, c.pool.Keys, vOrphan, mapDependers) && Waiting(c, chosen, vOrphan)
    requires QueueOk(c, c.pool.Keys, chosen, seen, vecPriority) && hash !in chosen
    requires IsOrder(comparer) && IsHeap(vecPriority, comparer)
    modifies vOrphan
    ensures Waiting(c, chosen + {hash}, vOrphan)
    ensures QueueOk(c, c.pool.Keys, chosen + {hash}, seen, queue) && IsHeap(queue, comparer)
  {
    hide Context.ParentsOf, Context.Parents, Context.IsCandidate, Context.Ready, Filed, Linked, EntriesOk, HashesOf,
      Released, DependersOf, IsOrder, IsHeap;
    queue := vecPriority;
    var dependers := DependersOf(mapDependers, hash);
    NothingReleased(c, chosen + {hash});
    assert dependers[..0] == [];
    for i := 0 to |dependers|
      invariant PartlyWaiting(c, chosen, hash, dependers[..i], vOrphan)
      invariant EntriesOk(c, c.pool.Keys, queue) && HashesOf(queue) !! seen && IsHeap(queue, comparer)
      invariant HashesOf(queue) + seen == c.Ready(c.pool.Keys, chosen) + Released(c, chosen + {hash}, dependers[..i])
    {
      var porphan := dependers[i];
      FirstTime(c, chosen, hash, vOrphan, mapDependers, i);
      OneMoreReleased(c, chosen + {hash}, dependers, i);
      DependsOnNothing(c.Parents(porphan.ptx), chosen, hash);
      assert dependers[..i + 1] == dependers[..i] + [porphan];
      if porphan.setDependsOn != {} {
        porphan.setDependsOn := porphan.setDependsOn - {hash};
        if porphan.setDependsOn == {} {
          PushReady(c, c.pool.Keys, chosen, queue, porphan.ptx.hash);
          var longer := queue + [TxPriority(porphan.dPriority, porphan.feeRate, porphan.ptx)];
          assert longer[..|longer| - 1] == queue;
          queue := PushHeap(longer, comparer);
          PermutedEntries(c, c.pool.Keys, longer, queue);
        }
      }
    }
    assert dependers[..|dependers|] == dependers;
    AllReleased(c, chosen, hash, vOrphan, mapDependers);
    NobodyWaitsFor(c, chosen, hash, vOrphan, mapDependers);
  }

  lemma {:induction false} DependsOnNothing(parents: set<nat>, chosen: set<nat>, hash: nat)
    ensures parents - chosen - {hash} == {} <==> parents <= chosen + {hash}
    ensures parents - chosen - {hash} == parents - (chosen + {hash})
  {
  }

  lemma {:induction false} NobodyWaitsFor(c: Context, chosen: set<nat>, hash: nat, vOrphan: seq<COrphan>,
          mapDependers: map<nat, seq<COrphan>>)
    requires Linked(c, c.pool.Keys, vOrphan, mapDependers) &&
      PartlyWaiting(c, chosen, hash, DependersOf(mapDependers, hash), vOrphan)
    ensures Waiting(c, chosen + {hash}, vOrphan)
  {
    hide Context.Parents, Context.IsCandidate;
    forall o | o in vOrphan ensures o.setDependsOn == c.Parents(o.ptx) - (chosen + {hash}) {
      DependsOnNothing(c.Parents(o.ptx), chosen, hash);
    }
  }

  lemma {:induction false} NothingReleased(c: Context, chosen: set<nat>)
    ensures Released(c, chosen, []) == {}
  {
  }

  // Selecting.

  function SizeOf(block: seq<CTransaction>): nat {
    if block == [] then 0 else SizeOf(block[..|block| - 1]) + block[|block| - 1].nSize
  }

  function SigOpsIn(c: Context, view: View, tx: CTransaction): nat {
    tx.nSigOps + c.p2shSigOps(tx, view)
  }

  function SigOpsOf(c: Context, block: seq<CTransaction>): nat {
    if block == [] then 0 else
      var front, last := block[..|block| - 1], block[|block| - 1];
      SigOpsOf(c, front) + SigOpsIn(c, After(c.base, front), last)
  }

  /** Why `tx` may be passed over once `block` has been chosen. */
  predicate Refused(c: Context, block: seq<CTransaction>, tx: CTransaction) {
    var view, size, sigOps := After(c.base, block), 1000 + SizeOf(block) + tx.nSize,
      100 + SigOpsOf(c, block) + tx.nSigOps;
    || size >= c.nBlockMaxSize
    || sigOps + c.p2shSigOps(tx, view) >= MAX_BLOCK_SIGOPS
    || (!c.isPrioritised(tx) && c.feeRate(tx) < c.minRelayTxFee && size >= c.nBlockMinSize)
    || !CheckInputs(view, tx, c.scripts)
  }

  /** The running totals match the block. */
  ghost predicate Totals(c: Context, block: seq<CTransaction>, view: View, nBlockSize: nat, nBlockSigOps: nat) {
    view == After(c.base, block) && nBlockSize == 1000 + SizeOf(block) && nBlockSigOps == 100 + SigOpsOf(c, block)
  }

  /** `tx` can be added to `block`; when the queue is ordered by fee, cheap ones only fill the minimum size. */
  predicate Fits(c: Context, block: seq<CTransaction>, tx: CTransaction, byFee: bool) {
    var view, size := After(c.base, block), 1000 + SizeOf(block) + tx.nSize;
    && size < c.nBlockMaxSize
    && 100 + SigOpsOf(c, block) + SigOpsIn(c, view, tx) < MAX_BLOCK_SIGOPS
    && (byFee ==> c.isPrioritised(tx) || c.feeRate(tx) >= c.minRelayTxFee || size < c.nBlockMinSize)
    && CheckInputs(view, tx, c.scripts)
  }

  /** `tx` ends the priority area: it is within the limits, but the area is full or its priority too low for it. */
  predicate EndsPriority(c: Context, block: seq<CTransaction>, tx: CTransaction) {
    var size := 1000 + SizeOf(block) + tx.nSize;
    && size < c.nBlockMaxSize && 100 + SigOpsOf(c, block) + tx.nSigOps < MAX_BLOCK_SIGOPS
    && (size >= c.nBlockPrioritySize || c.dPriority(tx) <= ALLOW_FREE_THRESHOLD)
  }

  /**
   The tests that decide about the transaction at the top of the queue. Past the priority area, or
   when the first low-priority transaction comes up, the queue is ordered by fee from then on.
   */
  method Consider(c: Context, ghost block: seq<CTransaction>, view: View, nBlockSize: nat, nBlockSigOps: nat,
          fSortedByFee: bool, top: TxPriority)
    returns (accepted: bool, byFee: bool, nTxFees: int, nTxSigOps: nat)
    requires Totals(c, block, view, nBlockSize, nBlockSigOps) && top == c.Entry(top.tx)
    ensures accepted <==> Fits(c, block, top.tx, fSortedByFee)
    ensures byFee <==> fSortedByFee || EndsPriority(c, block, top.tx)
    ensures !accepted ==> Refused(c, block, top.tx)
    ensures accepted ==>
      CheckInputs(view, top.tx, c.scripts) && nTxFees == Fee(view, top.tx) && nTxSigOps == SigOpsIn(c, view, top.tx)
    ensures accepted ==> nBlockSize + top.tx.nSize < c.nBlockMaxSize && nBlockSigOps + nTxSigOps < MAX_BLOCK_SIGOPS
    ensures accepted && !byFee ==>
      nBlockSize + top.tx.nSize < c.nBlockPrioritySize && top.dPriority > ALLOW_FREE_THRESHOLD
    ensures accepted && fSortedByFee ==>
      c.isPrioritised(top.tx) || top.feeRate >= c.minRelayTxFee || nBlockSize + top.tx.nSize < c.nBlockMinSize
  {
    var tx := top.tx;
    accepted, byFee, nTxFees, nTxSigOps := false, fSortedByFee, 0, tx.nSigOps;
    if nBlockSize + tx.nSize >= c.nBlockMaxSize {
      return;
    }
    if nBlockSigOps + nTxSigOps >= MAX_BLOCK_SIGOPS {
      return;
    }
    var isFree := !c.isPrioritised(tx) && top.feeRate < c.minRelayTxFee;
    if fSortedByFee && isFree && nBlockSize + tx.nSize >= c.nBlockMinSize {
      return;
    }
    if !byFee && (nBlockSize + tx.nSize >= c.nBlockPrioritySize || !(top.dPriority > ALLOW_FREE_THRESHOLD)) {
      byFee := true;
    }
    if !HaveInputs(view, tx) {
      return;
    }
    nTxFees := Fee(view, tx);
    nTxSigOps := nTxSigOps + c.p2shSigOps(tx, view);
    if nBlockSigOps + nTxSigOps >= MAX_BLOCK_SIGOPS {
      return;
    }
    accepted := CheckInputs(view, tx, c.scripts);
  }

  // The selection as a record of its rounds.

  /** One round: a candidate is considered while the queue is ordered one way or the other. */
  datatype Round = Round(tx: CTransaction, byFee: bool, accepted: bool)

  function BlockOf(rounds: seq<Round>): seq<CTransaction> {
    if rounds == [] then [] else
      var last := rounds[|rounds| - 1];
      BlockOf(rounds[..|rounds| - 1]) + if last.accepted then [last.tx] else []
  }

  ghost function Considered(rounds: seq<Round>): set<nat> {
    set i | 0 <= i < |rounds| :: rounds[i].tx.hash
  }

  /** By fee from the start if there is no priority area, and otherwise from the round that ends it. */
  predicate SortedByFee(c: Context, rounds: seq<Round>) {
    if rounds == [] then c.nBlockPrioritySize == 0 else
      var front, last := rounds[..|rounds| - 1], rounds[|rounds| - 1];
      SortedByFee(c, front) || EndsPriority(c, BlockOf(front), last.tx)
  }

  /** `a` goes before `b`: by fee rate or by priority, and the other one decides between equals. */
  predicate Outranks(c: Context, byFee: bool, a: CTransaction, b: CTransaction) {
    if byFee then c.feeRate(a) > c.feeRate(b) || (c.feeRate(a) == c.feeRate(b) && c.dPriority(a) > c.dPriority(b))
    else c.dPriority(a) > c.dPriority(b) || (c.dPriority(a) == c.dPriority(b) && c.feeRate(a) > c.feeRate(b))
  }

  /** The ready candidates after some rounds that none of them considered. */
  ghost function Waiters(c: Context, rounds: seq<Round>): set<nat> {
    c.Ready(c.pool.Keys, BlockHashes(BlockOf(rounds))) - Considered(rounds)
  }

  /** After `prior`, a round considers a best ready candidate that has not been considered, and adds it if it fits. */
  ghost predicate Follows(c: Context, prior: seq<Round>, r: Round) {
    && r.tx.hash in Waiters(c, prior) && r.tx.hash in c.pool && r.tx == c.pool[r.tx.hash]
    && r.byFee == SortedByFee(c, prior)
    && (forall h :: h in Waiters(c, prior) && h in c.pool ==> !Outranks(c, r.byFee, c.pool[h], r.tx))
    && r.accepted == Fits(c, BlockOf(prior), r.tx, r.byFee)
  }

  ghost predicate IsSelection(c: Context, rounds: seq<Round>) {
    forall i :: 0 <= i < |rounds| ==> Follows(c, rounds[..i], rounds[i])
  }

  lemma {:induction false} OneMoreRound(c: Context, rounds: seq<Round>, r: Round)
    requires IsSelection(c, rounds) && Follows(c, rounds, r)
    ensures IsSelection(c, rounds + [r])
    ensures BlockOf(rounds + [r]) == BlockOf(rounds) + if r.accepted then [r.tx] else []
    ensures Considered(rounds + [r]) == Considered(rounds) + {r.tx.hash}
    ensures SortedByFee(c, rounds + [r]) == (SortedByFee(c, rounds) || EndsPriority(c, BlockOf(rounds), r.tx))
  {
    hide Follows, EndsPriority;
    var longer := rounds + [r];
    assert longer[..|rounds|] == rounds;
    forall i | 0 <= i < |longer| ensures Follows(c, longer[..i], longer[i]) {
      assert i < |rounds| ==> longer[..i] == rounds[..i];
    }
    forall i | 0 <= i < |rounds| ensures rounds[i].tx.hash in Considered(longer) {
      assert longer[i] == rounds[i];
    }
    assert longer[|rounds|] == r;
  }

  /** What no queued entry comes before in the heap, no waiting candidate outranks. */
  lemma {:induction false} TopFollows(c: Context, rounds: seq<Round>, vecPriority: seq<TxPriority>, top: TxPriority,
          byFee: bool)
    requires c.Valid() && QueueOk(c, c.pool.Keys, BlockHashes(BlockOf(rounds)), Considered(rounds), vecPriority)
    requires byFee == SortedByFee(c, rounds) && vecPriority != [] && top == vecPriority[0]
    requires forall x :: x in vecPriority ==> !Comparer(byFee)(top, x)
    ensures Follows(c, rounds, Round(top.tx, byFee, Fits(c, BlockOf(rounds), top.tx, byFee)))
  {
    hide Context.Ready, BlockHashes, BlockOf, SortedByFee, Fits;
    assert top.tx.hash in HashesOf(vecPriority);
    forall h | h in Waiters(c, rounds) && h in c.pool ensures !Outranks(c, byFee, c.pool[h], top.tx) {
      assert h in HashesOf(vecPriority);
      var i :| 0 <= i < |vecPriority| && vecPriority[i].tx.hash == h;
      assert vecPriority[i] == c.Entry(c.pool[h]) && vecPriority[i] in vecPriority;
    }
  }

  ghost predicate FromPool(c: Context, block: seq<CTransaction>) {
    forall i :: 0 <= i < |block| ==> block[i].hash in c.pool && block[i] == c.pool[block[i].hash]
  }

  /** Every considered transaction that is not in the block was refused at some point of the selection. */
  ghost predicate RestRefused(c: Context, block: seq<CTransaction>, seen: set<nat>) {
    forall h :: h in seen - BlockHashes(block) && h in c.pool ==>
      exists k :: 0 <= k <= |block| && Refused(c, block[..k], c.pool[h])
  }

  ghost predicate FeesRecorded(c: Context, block: seq<CTransaction>, vTxFees: seq<int>, vTxSigOps: seq<int>)
    requires Spendable(c.base, block)
  {
    && |vTxFees| == |vTxSigOps| == |block| + 1
    && forall j :: 0 <= j < |block| ==>
      vTxFees[j + 1] == Fee(After(c.base, block[..j]), block[j]) &&
        vTxSigOps[j + 1] == SigOpsIn(c, After(c.base, block[..j]), block[j])
  }

  lemma {:induction false} Popped(c: Context, chosen: set<nat>, seen: set<nat>, vecPriority: seq<TxPriority>,
          rest: seq<TxPriority>)
    requires vecPriority != [] && QueueOk(c, c.pool.Keys, chosen, seen, vecPriority)
    requires multiset(rest) == multiset(vecPriority[1..])
    ensures var h := vecPriority[0].tx.hash;
      && h in c.pool && h !in seen && h in c.Ready(c.pool.Keys, chosen) && vecPriority[0] == c.Entry(c.pool[h])
      && QueueOk(c, c.pool.Keys, chosen, seen + {h}, rest)
  {
    hide Context.Ready, Context.Entry;
    var h, others := vecPriority[0].tx.hash, vecPriority[1..];
    forall g | g in HashesOf(vecPriority) && g != h ensures g in HashesOf(others) {
      var k :| 0 <= k < |vecPriority| && vecPriority[k].tx.hash == g;
      assert others[k - 1].tx.hash == g;
    }
    assert HashesOf(others) == HashesOf(vecPriority) - {h};
    assert EntriesOk(c, c.pool.Keys, others);
    PermutedEntries(c, c.pool.Keys, others, rest);
  }

  lemma {:induction false} PermutedQueue(c: Context, chosen: set<nat>, seen: set<nat>, v: seq<TxPriority>,
          w: seq<TxPriority>)
    requires QueueOk(c, c.pool.Keys, chosen, seen, v) && multiset(w) == multiset(v)
    ensures QueueOk(c, c.pool.Keys, chosen, seen, w)
  {
    PermutedEntries(c, c.pool.Keys, v, w);
  }

  lemma {:induction false} ConnectsLonger(c: Context, block: seq<CTransaction>, tx: CTransaction)
    requires Connects(c.base, block, c.scripts) && CheckTransaction(tx) &&
      CheckInputs(After(c.base, block), tx, c.scripts)
    ensures Connects(c.base, block + [tx], c.scripts) && Spendable(c.base, block + [tx])
  {
    hide CheckTransaction, InputsInRange, HaveInputs, Fee, After;
    var longer := block + [tx];
    forall j | 0 <= j < |longer|
      ensures CheckTransaction(longer[j]) && CheckInputs(After(c.base, longer[..j]), longer[j], c.scripts) {
      assert longer[..j] == block[..j];
      assert block[..|block|] == block;
    }
  }

  /** What adding an accepted transaction does to the totals. */
  lemma {:induction false} TotalsGrow(c: Context, block: seq<CTransaction>, tx: CTransaction)
    ensures After(c.base, block + [tx]) == UpdateCoins(After(c.base, block), tx)
    ensures SizeOf(block + [tx]) == SizeOf(block) + tx.nSize
    ensures SigOpsOf(c, block + [tx]) == SigOpsOf(c, block) + SigOpsIn(c, After(c.base, block), tx)
  {
    hide UpdateCoins, SigOpsIn;
    assert (block + [tx])[..|block|] == block;
  }

  lemma {:induction false} FeesGrow(c: Context, block: seq<CTransaction>, tx: CTransaction, vTxFees: seq<int>,
          vTxSigOps: seq<int>)
    requires Spendable(c.base, block) && Spendable(c.base, block + [tx]) && FeesRecorded(c, block, vTxFees, vTxSigOps)
    ensures HaveInputs(After(c.base, block), tx)
    ensures Fees(c.base, block + [tx]) == Fees(c.base, block) + Fee(After(c.base, block), tx)
    ensures var fees, sigOps := vTxFees + [Fee(After(c.base, block), tx)],
      vTxSigOps + [SigOpsIn(c, After(c.base, block), tx)];
      FeesRecorded(c, block + [tx], fees, sigOps)
  {
    hide After, HaveInputs, Fee, SigOpsIn;
    var longer := block + [tx];
    assert longer[..|block|] == block;
    assert HaveInputs(After(c.base, longer[..|block|]), longer[|block|]);
    assert forall j :: 0 <= j < |block| ==> longer[..j] == block[..j];
  }

  lemma {:induction false} BlockHashesGrow(block: seq<CTransaction>, tx: CTransaction)
    ensures BlockHashes(block + [tx]) == BlockHashes(block) + {tx.hash}
  {
    assert (block + [tx])[|block|] == tx;
    forall i | 0 <= i < |block| ensures block[i].hash in BlockHashes(block + [tx]) {
      assert (block + [tx])[i] == block[i];
    }
  }

  lemma {:induction false} OneMoreRefused(c: Context, block: seq<CTransaction>, seen: set<nat>, h: nat)
    requires seen <= c.pool.Keys && h in c.pool && RestRefused(c, block, seen) && Refused(c, block, c.pool[h])
    ensures RestRefused(c, block, seen + {h})
  {
    hide Refused;
    assert block[..|block|] == block;
  }

  lemma {:induction false} OneMoreChosen(c: Context, block: seq<CTransaction>, seen: set<nat>, tx: CTransaction)
    requires seen <= c.pool.Keys && tx.hash in c.pool && RestRefused(c, block, seen)
    ensures RestRefused(c, block + [tx], seen + {tx.hash})
  {
    hide Refused, BlockHashes;
    BlockHashesGrow(block, tx);
    forall h | h in seen - BlockHashes(block + [tx])
      ensures exists k :: 0 <= k <= |block| + 1 && Refused(c, (block + [tx])[..k], c.pool[h]) {
      var k :| 0 <= k <= |block| && Refused(c, block[..k], c.pool[h]);
      assert (block + [tx])[..k] == block[..k];
    }
  }

  /** The transactions after the coinbase, the value of the coinbase, and the recorded fees and sigops. */
  datatype CBlockTemplate = CBlockTemplate(nValue: int, vtx: seq<CTransaction>, vTxFees: seq<int>, vTxSigOps: seq<int>,
    nBlockSize: nat)

  /**
   The selection loop. The result connects to the base view; each candidate was considered exactly
   when all its pool parents were chosen, and left out then only for a reason; the coinbase gets
   the subsidy and the fees. The selection is the greedy one: each round considers a best of the candidates
   that are ready, by the order that holds in that round.
   */
  method CreateNewBlock(c: Context, nHeight: nat) returns (t: CBlockTemplate, ghost rounds: seq<Round>)
    requires c.Valid() && nHeight < Consensus.LAST_HEIGHT
    ensures IsSelection(c, rounds) && t.vtx == BlockOf(rounds) && Waiters(c, rounds) == {}
    ensures Connects(c.base, t.vtx, c.scripts) && DistinctHashes(t.vtx) && FromPool(c, t.vtx)
    ensures BlockHashes(t.vtx) <= c.Ready(c.pool.Keys, BlockHashes(t.vtx))
    ensures RestRefused(c, t.vtx, c.Ready(c.pool.Keys, BlockHashes(t.vtx)))
    ensures t.nBlockSize == 1000 + SizeOf(t.vtx) <= c.nBlockMaxSize
    ensures 100 + SigOpsOf(c, t.vtx) < MAX_BLOCK_SIGOPS
    ensures Spendable(c.base, t.vtx) && FeesRecorded(c, t.vtx, t.vTxFees, t.vTxSigOps)
    ensures t.nValue == Consensus.Subsidy(nHeight) + Fees(c.base, t.vtx) && t.vTxFees[0] == -Fees(c.base, t.vtx)
  {
    hide Connects, After, Fees, FromPool, DistinctHashes, BlockHashes, Context.Ready, Context.Entry, RestRefused,
      SizeOf, SigOpsOf, SigOpsIn, Spendable, FeesRecorded, Refused, CheckTransaction, CheckInputs, UpdateCoins, QueueOk,
      Linked, Waiting, Fee, HaveInputs, HaveCoins, IsOrder, IsHeap, Comparer, IsSelection, BlockOf, Considered,
      SortedByFee, Fits, EndsPriority, Follows;
    var vecPriority, vOrphan, mapDependers := CollectPool(c);
    rounds := [];
    NoRounds(c);
    var block: seq<CTransaction>, view, fSortedByFee := [], c.base, c.nBlockPrioritySize == 0;
    vecPriority := Heapify(c, {}, {}, vecPriority, fSortedByFee);
    var vTxFees, vTxSigOps: seq<int>, nFees: int := [-1], [-1], 0;
    var nBlockSize: nat, nBlockSigOps: nat := 1000, 100;
    ghost var seen: set<nat> := {};
    EmptyBlock(c, vTxFees, vTxSigOps);
    while vecPriority != []
      invariant fresh(vOrphan)
      invariant Linked(c, c.pool.Keys, vOrphan, mapDependers) && Waiting(c, BlockHashes(block), vOrphan)
      invariant QueueOk(c, c.pool.Keys, BlockHashes(block), seen, vecPriority)
      invariant IsHeap(vecPriority, Comparer(fSortedByFee))
      invariant Totals(c, block, view, nBlockSize, nBlockSigOps) && nBlockSize <= c.nBlockMaxSize &&
        nBlockSigOps < MAX_BLOCK_SIGOPS
      invariant Connects(c.base, block, c.scripts) && Spendable(c.base, block) && DistinctHashes(block) &&
        FromPool(c, block)
      invariant FeesRecorded(c, block, vTxFees, vTxSigOps) && nFees == Fees(c.base, block)
      invariant seen <= c.pool.Keys && BlockHashes(block) <= seen && RestRefused(c, block, seen)
      invariant IsSelection(c, rounds) && block == BlockOf(rounds) && seen == Considered(rounds) &&
        fSortedByFee == SortedByFee(c, rounds)
      decreases c.pool.Keys - seen
    {
      ghost var before := vecPriority;
      ComparerIsOrder(fSortedByFee);
      var top;
      top, vecPriority := PopHeap(vecPriority, Comparer(fSortedByFee));
      TopFollows(c, rounds, before, top, fSortedByFee);
      Popped(c, BlockHashes(block), seen, before, vecPriority);
      var tx := top.tx;
      EntryOfPool(c, tx.hash, top);
      var accepted, byFee, nTxFees, nTxSigOps :=
        Consider(c, block, view, nBlockSize, nBlockSigOps, fSortedByFee, top);
      OneMoreRound(c, rounds, Round(tx, fSortedByFee, accepted));
      rounds := rounds + [Round(tx, fSortedByFee, accepted)];
      if byFee != fSortedByFee {
        fSortedByFee := byFee;
        vecPriority := Heapify(c, BlockHashes(block), seen + {tx.hash}, vecPriority, fSortedByFee);
      }
      ComparerIsOrder(fSortedByFee);
      if accepted {
        OneMoreChosen(c, block, seen, tx);
        ChooseTransaction(c, block, tx, vTxFees, vTxSigOps);
        BlockHashesGrow(block, tx);
        vecPriority := QueueDependers(c, tx.hash, BlockHashes(block), seen + {tx.hash}, vecPriority,
          Comparer(fSortedByFee), vOrphan, mapDependers);
        view := UpdateCoins(view, tx);
        block, vTxFees, vTxSigOps := block + [tx], vTxFees + [nTxFees], vTxSigOps + [nTxSigOps];
        nBlockSize, nBlockSigOps, nFees := nBlockSize + tx.nSize, nBlockSigOps + nTxSigOps, nFees + nTxFees;
      } else {
        OneMoreRefused(c, block, seen, tx.hash);
      }
      seen := seen + {tx.hash};
    }
    AllSeen(c, BlockHashes(block), seen);
    var nValue := Consensus.GetBlockValue(nHeight, nFees);
    FirstFeeIsFree(c, block, vTxFees, vTxSigOps, -nFees);
    t := CBlockTemplate(nValue, block, vTxFees[0 := -nFees], vTxSigOps, nBlockSize);
  }

  /** `make_heap` under the comparer of the order that holds from now on. */
  method Heapify(c: Context, ghost chosen: set<nat>, ghost seen: set<nat>, vecPriority: seq<TxPriority>, byFee: bool)
    returns (heap: seq<TxPriority>)
    requires QueueOk(c, c.pool.Keys, chosen, seen, vecPriority)
    ensures QueueOk(c, c.pool.Keys, chosen, seen, heap) && IsHeap(heap, Comparer(byFee))
  {
    hide QueueOk, IsOrder, IsHeap, Comparer;
    ComparerIsOrder(byFee);
    heap := MakeHeap(vecPriority, Comparer(byFee));
    PermutedQueue(c, chosen, seen, vecPriority, heap);
  }

  lemma {:induction false} EmptyBlock(c: Context, vTxFees: seq<int>, vTxSigOps: seq<int>)
    requires |vTxFees| == |vTxSigOps| == 1
    ensures Connects(c.base, [], c.scripts) && Spendable(c.base, []) && DistinctHashes([]) && FromPool(c, [])
    ensures FeesRecorded(c, [], vTxFees, vTxSigOps) && Fees(c.base, []) == 0 && BlockHashes([]) == {} &&
      RestRefused(c, [], {})
    ensures Totals(c, [], c.base, 1000, 100)
  {
  }

  lemma {:induction false} NoRounds(c: Context)
    ensures IsSelection(c, []) && BlockOf([]) == [] && Considered([]) == {}
    ensures SortedByFee(c, []) == (c.nBlockPrioritySize == 0)
  {
  }

  lemma {:induction false} EntryOfPool(c: Context, h: nat, top: TxPriority)
    requires c.Valid() && h in c.pool && top == c.Entry(c.pool[h])
    ensures top.tx == c.pool[h] && top == c.Entry(top.tx) && CheckTransaction(top.tx)
  {
  }

  lemma {:induction false} AllSeen(c: Context, chosen: set<nat>, seen: set<nat>)
    requires QueueOk(c, c.pool.Keys, chosen, seen, [])
    ensures seen == c.Ready(c.pool.Keys, chosen)
  {
    assert HashesOf([]) == {};
  }

  lemma {:induction false} FirstFeeIsFree(c: Context, block: seq<CTransaction>, vTxFees: seq<int>,
          vTxSigOps: seq<int>, fee: int)
    requires Spendable(c.base, block) && FeesRecorded(c, block, vTxFees, vTxSigOps)
    ensures |vTxFees| > 0 && FeesRecorded(c, block, vTxFees[0 := fee], vTxSigOps)
  {
    hide After, Fee, SigOpsIn, Spendable;
  }

  /** An accepted transaction keeps everything that holds of the block. */
  lemma {:induction false} ChooseTransaction(c: Context, block: seq<CTransaction>, tx: CTransaction,
          vTxFees: seq<int>, vTxSigOps: seq<int>)
    requires Connects(c.base, block, c.scripts) && Spendable(c.base, block) && DistinctHashes(block) &&
      FromPool(c, block)
    requires FeesRecorded(c, block, vTxFees, vTxSigOps)
    requires tx.hash in c.pool && tx == c.pool[tx.hash] && tx.hash !in BlockHashes(block)
    requires CheckTransaction(tx) && CheckInputs(After(c.base, block), tx, c.scripts)
    ensures HaveInputs(After(c.base, block), tx)
    ensures Connects(c.base, block + [tx], c.scripts) && Spendable(c.base, block + [tx]) &&
      DistinctHashes(block + [tx]) && FromPool(c, block + [tx])
    ensures FeesRecorded(c, block + [tx], vTxFees + [Fee(After(c.base, block), tx)],
      vTxSigOps + [SigOpsIn(c, After(c.base, block), tx)])
    ensures Fees(c.base, block + [tx]) == Fees(c.base, block) + Fee(After(c.base, block), tx)
    ensures After(c.base, block + [tx]) == UpdateCoins(After(c.base, block), tx)
    ensures SizeOf(block + [tx]) == SizeOf(block) + tx.nSize
    ensures SigOpsOf(c, block + [tx]) == SigOpsOf(c, block) + SigOpsIn(c, After(c.base, block), tx)
  {
    hide Connects, After, Fees, FeesRecorded, Spendable, CheckTransaction, CheckInputs, UpdateCoins, Fee, SigOpsIn,
      SizeOf, SigOpsOf;
    ConnectsLonger(c, block, tx);
    FeesGrow(c, block, tx, vTxFees, vTxSigOps);
    TotalsGrow(c, block, tx);
    forall i | 0 <= i < |block| ensures block[i].hash != tx.hash {
      assert block[i].hash in BlockHashes(block);
    }
  }

  // What a selection means.

  /** Ready are the final ones that are no coinbase and whose inputs are all of transactions in the chain or chosen. */
  lemma {:induction false} ReadyIff(c: Context, chosen: set<nat>, h: nat)
    ensures h in c.Ready(c.pool.Keys, chosen) <==>
      && h in c.pool && !c.pool[h].isCoinBase && c.isFinal(c.pool[h])
      && forall i :: 0 <= i < |c.pool[h].vin| ==>
        HaveCoins(c.base, c.pool[h].vin[i].hash) || c.pool[h].vin[i].hash in chosen
  {
    hide HaveCoins;
    if h in c.pool {
      var vin := c.pool[h].vin;
      if c.Parents(c.pool[h]) <= chosen {
        forall i | 0 <= i < |vin| && !HaveCoins(c.base, vin[i].hash) ensures vin[i].hash in chosen {
          assert vin[i].hash in c.Parents(c.pool[h]);
        }
      }
    }
  }

  lemma {:induction false} ConsideredBefore(rounds: seq<Round>, i: nat, j: nat)
    requires i <= j <= |rounds|
    ensures Considered(rounds[..i]) <= Considered(rounds[..j])
    ensures BlockOf(rounds[..i]) <= BlockOf(rounds[..j])
    decreases j
  {
    if i < j {
      ConsideredBefore(rounds, i, j - 1);
      assert rounds[..j][..j - 1] == rounds[..j - 1];
      forall k | 0 <= k < j - 1 ensures rounds[k].tx.hash in Considered(rounds[..j]) {
        assert rounds[..j][k] == rounds[k];
      }
    }
  }

  /** Nobody is considered twice, and who comes later, though ready before, does not outrank who came first. */
  lemma {:induction false} NobodyIsOvertaken(c: Context, rounds: seq<Round>, i: nat, j: nat)
    requires IsSelection(c, rounds) && i < j < |rounds|
    ensures rounds[i].tx.hash != rounds[j].tx.hash
    ensures rounds[j].tx.hash in c.Ready(c.pool.Keys, BlockHashes(BlockOf(rounds[..i]))) ==>
      !Outranks(c, rounds[i].byFee, rounds[j].tx, rounds[i].tx)
  {
    hide Context.Ready, BlockHashes, BlockOf, SortedByFee, Fits, Outranks;
    assert Follows(c, rounds[..i], rounds[i]) && Follows(c, rounds[..j], rounds[j]);
    ConsideredBefore(rounds, i, j);
    assert rounds[..j][i] == rounds[i];
    assert rounds[i].tx.hash in Considered(rounds[..j]);
  }

  /** The order changes at most once, and whatever is added in a round before that belongs into the priority area. */
  lemma {:induction false} PriorityAreaComesFirst(c: Context, rounds: seq<Round>, i: nat, j: nat)
    requires IsSelection(c, rounds) && i < j < |rounds|
    ensures rounds[i].byFee ==> rounds[j].byFee
    ensures rounds[i].accepted && !rounds[j].byFee ==>
      && c.dPriority(rounds[i].tx) > ALLOW_FREE_THRESHOLD
      && 1000 + SizeOf(BlockOf(rounds[..i])) + rounds[i].tx.nSize < c.nBlockPrioritySize
  {
    hide Context.Ready, BlockHashes, BlockOf, Outranks;
    assert Follows(c, rounds[..i], rounds[i]) && Follows(c, rounds[..j], rounds[j]);
    StaysSorted(c, rounds, i + 1, j);
    assert rounds[..i + 1][..i] == rounds[..i];
  }

  lemma {:induction false} StaysSorted(c: Context, rounds: seq<Round>, i: nat, j: nat)
    requires i <= j <= |rounds|
    ensures SortedByFee(c, rounds[..i]) ==> SortedByFee(c, rounds[..j])
    decreases j
  {
    if i < j {
      StaysSorted(c, rounds, i, j - 1);
      assert rounds[..j][..j - 1] == rounds[..j - 1];
    }
  }

  // What a template means.

  /** A parent that is not in the chain stands before its child in the block. */
  lemma {:induction false} ParentStandsBefore(c: Context, block: seq<CTransaction>, j: nat, parent: nat)
    requires Connects(c.base, block, c.scripts) && j < |block| && parent in c.Parents(block[j])
    ensures exists i :: 0 <= i < j && block[i].hash == parent
  {
    hide Connects;
    var k :| 0 <= k < |block[j].vin| && !HaveCoins(c.base, block[j].vin[k].hash) && block[j].vin[k].hash == parent;
    var o := block[j].vin[k];
    assert o in Inputs(block[j]);
    ParentsComeFirst(c.base, block, c.scripts, j, o);
    var i :| 0 <= i < j && o in Created(block[i]);
  }

  /**
   If no pool transaction has unspent outputs in the chain yet, a template spends nothing twice, and the
   unspent money falls by what the fees collect and what is burnt: the coinbase mints the subsidy only.
   */
  lemma {:induction false} TemplateMintsTheSubsidy(c: Context, block: seq<CTransaction>, nHeight: nat, nValue: int)
    requires Connects(c.base, block, c.scripts) && DistinctHashes(block) && FromPool(c, block) &&
      Spendable(c.base, block)
    requires forall h :: h in c.pool ==> !HaveCoins(c.base, h)
    requires nHeight < Consensus.LAST_HEIGHT && nValue == Consensus.Subsidy(nHeight) + Fees(c.base, block)
    ensures forall j, k :: 0 <= j < k < |block| ==> Inputs(block[j]) !! Inputs(block[k])
    ensures Total(After(c.base, block)) + nValue + BurntBy(block) == Total(c.base) + Consensus.Subsidy(nHeight)
    ensures nValue >= Consensus.Subsidy(nHeight)
  {
    hide Connects, DistinctHashes, After, Fees, Total, HaveCoins, Spendable, BurntBy, Inputs;
    forall j, k | 0 <= j < k < |block| ensures Inputs(block[j]) !! Inputs(block[k]) {
      NothingIsSpentTwice(c.base, block, c.scripts, j, k);
    }
    MoneyIsConserved(c.base, block, c.scripts);
  }
}
