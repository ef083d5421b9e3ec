/**
 The address manager on values: its redundant indexes, the primitive table operations
 and the consistency that the debug routine `Check_` describes. The keyed hashes that choose
 buckets and positions are parameters, as is every random number and clock reading.
 What the operations do beyond keeping it consistent is the subject of `AddrManEffects`.
 */
module AddrMan {
  import opened Powers

  type NetAddr = nat

  /** An address with its port: what bucket positions depend on. */
  datatype CService = CService(net: NetAddr, port: nat)

  datatype CAddress = CAddress(service: CService, nServices: nat, nTime: int)

  datatype CAddrInfo = CAddrInfo(service: CService, nServices: nat, nTime: int, source: NetAddr,
                                 nLastTry: int, nLastSuccess: int, nAttempts: int,
                                 nRefCount: int, fInTried: bool, nRandomPos: int)

  type Infos = map<nat, CAddrInfo>

  const ADDRMAN_TRIED_BUCKET_COUNT: nat := 256
  const ADDRMAN_NEW_BUCKET_COUNT: nat := 1024
  const ADDRMAN_BUCKET_SIZE: nat := 64
  const ADDRMAN_NEW_BUCKETS_PER_ADDRESS: nat := 8
  const ADDRMAN_HORIZON_DAYS: nat := 10
  const ADDRMAN_RETRIES: nat := 3
  const ADDRMAN_MAX_FAILURES: nat := 7
  const ADDRMAN_MIN_FAIL_DAYS: nat := 7

  /** The hashes keyed with `nKey`, before they are reduced to a bucket or a position. */
  datatype Keyed = Keyed(tried: CService -> nat, unseen: (NetAddr, NetAddr) -> nat,
    place: (bool, nat, CService) -> nat) {

    function GetTriedBucket(s: CService): nat { tried(s) % ADDRMAN_TRIED_BUCKET_COUNT }

    function GetNewBucket(net: NetAddr, src: NetAddr): nat { unseen(net, src) % ADDRMAN_NEW_BUCKET_COUNT }

    function GetBucketPosition(fNew: bool, nBucket: nat, s: CService): nat {
      place(fNew, nBucket, s) % ADDRMAN_BUCKET_SIZE
    }

    function NewSlot(nBucket: nat, s: CService): Slot { Slot(nBucket, GetBucketPosition(true, nBucket, s)) }

    function TriedSlot(s: CService): Slot {
      Slot(GetTriedBucket(s), GetBucketPosition(false, GetTriedBucket(s), s))
    }
  }

  datatype Slot = Slot(bucket: nat, pos: nat)

  /** `vvTried` and `vvNew` hold the occupied slots; a slot with -1 in it is not in the map. */
  datatype Tables = Tables(nIdCount: nat, mapInfo: map<nat, CAddrInfo>, mapAddr: map<NetAddr, nat>, vRandom: seq<nat>,
                           nTried: int, nNew: int, vvTried: map<Slot, nat>, vvNew: map<Slot, nat>)

  const EMPTY := Tables(0, map[], map[], [], 0, 0, map[], map[])

  // ---------------------------------------------------------------- consistency

  function NewIds(infos: Infos): set<nat> {
    set n | n in infos && !infos[n].fInTried
  }

  function TriedIds(infos: Infos): set<nat> {
    set n | n in infos && infos[n].fInTried
  }

  function SlotsOf(vv: map<Slot, nat>, n: nat): set<Slot> {
    set s | s in vv && vv[s] == n
  }

  /** Entries in `loose` are between tables: not tried, and in no new slot. */
  ghost predicate InfoOk(n: nat, info: CAddrInfo, nIdCount: nat, loose: bool) {
    && n < nIdCount && info.nLastTry >= 0 && info.nLastSuccess >= 0
    && (loose ==> !info.fInTried && info.nRefCount == 0)
    && (info.fInTried ==> info.nLastSuccess != 0 && info.nRefCount == 0)
    && (!info.fInTried && !loose ==> 1 <= info.nRefCount <= ADDRMAN_NEW_BUCKETS_PER_ADDRESS)
  }

  ghost predicate InfosOk(infos: Infos, nIdCount: nat, loose: set<nat>) {
    && loose <= infos.Keys
    && forall n :: n in infos ==> InfoOk(n, infos[n], nIdCount, n in loose)
  }

  ghost predicate AddrsOk(infos: Infos, mapAddr: map<NetAddr, nat>) {
    && (forall n :: n in infos ==> infos[n].service.net in mapAddr && mapAddr[infos[n].service.net] == n)
    && (forall a :: a in mapAddr ==> mapAddr[a] in infos && infos[mapAddr[a]].service.net == a)
  }

  /** `vRandom` lists every id once, and each entry knows where. */
  ghost predicate RandomOk(infos: Infos, vRandom: seq<nat>) {
    && (forall n :: n in infos ==> 0 <= infos[n].nRandomPos < |vRandom| && vRandom[infos[n].nRandomPos] == n)
    && (forall i :: 0 <= i < |vRandom| ==> vRandom[i] in infos && infos[vRandom[i]].nRandomPos == i)
  }

  /** Every tried entry sits in its own slot and nowhere else. */
  ghost predicate TriedOk(k: Keyed, infos: Infos, vvTried: map<Slot, nat>) {
    && (forall s :: s in vvTried ==>
          vvTried[s] in infos && infos[vvTried[s]].fInTried && s == k.TriedSlot(infos[vvTried[s]].service))
    && (forall n :: n in infos && infos[n].fInTried ==>
          k.TriedSlot(infos[n].service) in vvTried && vvTried[k.TriedSlot(infos[n].service)] == n)
  }

  /** New slots hold new entries, each at its position in that bucket. */
  ghost predicate PlacedOk(k: Keyed, infos: Infos, vvNew: map<Slot, nat>) {
    forall s :: s in vvNew ==>
      && s.bucket < ADDRMAN_NEW_BUCKET_COUNT
      && vvNew[s] in infos && !infos[vvNew[s]].fInTried
      && s == k.NewSlot(s.bucket, infos[vvNew[s]].service)
  }

  /** The reference counts count the slots held. */
  ghost predicate RefsOk(infos: Infos, vvNew: map<Slot, nat>) {
    forall n :: n in infos && !infos[n].fInTried ==> infos[n].nRefCount == |SlotsOf(vvNew, n)|
  }

  /** `uncounted` of the new entries are not in `nNew`. */
  ghost predicate CountsOk(infos: Infos, nRandom: int, nTried: int, nNew: int, uncounted: set<nat>) {
    && uncounted <= NewIds(infos)
    && nTried == |TriedIds(infos)|
    && nNew == |NewIds(infos)| - |uncounted|
    && nRandom == nTried + nNew + |uncounted|
  }

  ghost predicate Consistent(k: Keyed, m: Tables, loose: set<nat>, uncounted: set<nat>) {
    && uncounted <= loose
    && InfosOk(m.mapInfo, m.nIdCount, loose)
    && AddrsOk(m.mapInfo, m.mapAddr)
    && RandomOk(m.mapInfo, m.vRandom)
    && TriedOk(k, m.mapInfo, m.vvTried)
    && PlacedOk(k, m.mapInfo, m.vvNew)
    && RefsOk(m.mapInfo, m.vvNew)
    && CountsOk(m.mapInfo, |m.vRandom|, m.nTried, m.nNew, uncounted)
  }

  /** All that `Check_` checks, and that both maps and both orders of lookup agree. */
  ghost predicate Check(k: Keyed, m: Tables) {
    Consistent(k, m, {}, {})
  }

  // -------------------------------- how each part fares when one entry is added,
  // -------------------------------- removed, changed, or moved in `vRandom`

  /** Only places in `vRandom` differ. */
  ghost predicate SameButRandom(infos: Infos, infos': Infos) {
    infos'.Keys == infos.Keys && forall n :: n in infos ==> infos'[n] == infos[n].(nRandomPos := infos'[n].nRandomPos)
  }

  lemma {:induction false} RandomMovesKeepParts(k: Keyed, m: Tables, infos': Infos, loose: set<nat>,
          uncounted: set<nat>)
    requires Consistent(k, m, loose, uncounted) && SameButRandom(m.mapInfo, infos')
    ensures InfosOk(infos', m.nIdCount, loose) && AddrsOk(infos', m.mapAddr) && TriedOk(k, infos', m.vvTried)
    ensures PlacedOk(k, infos', m.vvNew) && RefsOk(infos', m.vvNew)
    ensures CountsOk(infos', |m.vRandom|, m.nTried, m.nNew, uncounted)
  {
    hide Kept, InfosOk, AddrsOk, TriedOk, PlacedOk, RefsOk, RandomOk;
    MoveInfos(m.mapInfo, infos', m.nIdCount, loose);
    MoveAddrs(m.mapInfo, infos', m.mapAddr);
    MoveTables(k, m, infos');
    assert NewIds(infos') == NewIds(m.mapInfo) && TriedIds(infos') == TriedIds(m.mapInfo);
  }

  lemma {:induction false} MoveInfos(infos: Infos, infos': Infos, nIdCount: nat, loose: set<nat>)
    requires InfosOk(infos, nIdCount, loose) && SameButRandom(infos, infos')
    ensures InfosOk(infos', nIdCount, loose)
  {
    forall n | n in infos' ensures InfoOk(n, infos'[n], nIdCount, n in loose) {
      assert InfoOk(n, infos[n], nIdCount, n in loose);
    }
  }

  lemma {:induction false} MoveAddrs(infos: Infos, infos': Infos, mapAddr: map<NetAddr, nat>)
    requires AddrsOk(infos, mapAddr) && SameButRandom(infos, infos')
    ensures AddrsOk(infos', mapAddr)
  {
  }

  lemma {:induction false} MoveTables(k: Keyed, m: Tables, infos': Infos)
    requires TriedOk(k, m.mapInfo, m.vvTried) && PlacedOk(k, m.mapInfo, m.vvNew) && RefsOk(m.mapInfo, m.vvNew)
    requires SameButRandom(m.mapInfo, infos')
    ensures TriedOk(k, infos', m.vvTried) && PlacedOk(k, infos', m.vvNew) && RefsOk(infos', m.vvNew)
  {
  }

  lemma {:induction false} AddInfos(infos: Infos, nIdCount: nat, loose: set<nat>, n: nat, info: CAddrInfo)
    requires InfosOk(infos, nIdCount, loose) && n == nIdCount && InfoOk(n, info, nIdCount + 1, true)
    ensures n !in infos && InfosOk(infos[n := info], nIdCount + 1, loose + {n})
  {
    forall x | x in infos ensures x < nIdCount && InfoOk(x, infos[x], nIdCount + 1, x in loose) {
      assert InfoOk(x, infos[x], nIdCount, x in loose);
    }
  }

  lemma {:induction false} AddAddrs(infos: Infos, mapAddr: map<NetAddr, nat>, n: nat, info: CAddrInfo)
    requires AddrsOk(infos, mapAddr) && n !in infos && info.service.net !in mapAddr
    ensures AddrsOk(infos[n := info], mapAddr[info.service.net := n])
  {
  }

  lemma {:induction false} AddRandom(infos: Infos, vRandom: seq<nat>, n: nat, info: CAddrInfo)
    requires RandomOk(infos, vRandom) && n !in infos && info.nRandomPos == |vRandom|
    ensures RandomOk(infos[n := info], vRandom + [n])
  {
  }

  lemma {:induction false} AddTables(k: Keyed, infos: Infos, vvTried: map<Slot, nat>, vvNew: map<Slot, nat>, n: nat,
          info: CAddrInfo)
    requires TriedOk(k, infos, vvTried) && PlacedOk(k, infos, vvNew) && RefsOk(infos, vvNew)
    requires n !in infos && !info.fInTried && info.nRefCount == 0
    ensures TriedOk(k, infos[n := info], vvTried) && PlacedOk(k, infos[n := info], vvNew) &&
      RefsOk(infos[n := info], vvNew)
  {
    assert SlotsOf(vvNew, n) == {};
  }

  lemma {:induction false} CardAdd<T>(a: set<T>, x: T, b: set<T>)
    requires x !in a && b == a + {x}
    ensures |b| == |a| + 1
  {
  }

  lemma {:induction false} IdsAfterUpdate(infos: Infos, n: nat, info: CAddrInfo)
    ensures NewIds(infos[n := info]) == if info.fInTried then NewIds(infos) - {n} else NewIds(infos) + {n}
    ensures TriedIds(infos[n := info]) == if info.fInTried then TriedIds(infos) + {n} else TriedIds(infos) - {n}
  {
  }

  lemma {:induction false} AddCounts(infos: Infos, nRandom: int, nTried: int, nNew: int, n: nat, info: CAddrInfo)
    requires CountsOk(infos, nRandom, nTried, nNew, {}) && n !in infos && !info.fInTried
    ensures CountsOk(infos[n := info], nRandom + 1, nTried, nNew, {n})
  {
    IdsAfterUpdate(infos, n, info);
    CardAdd(NewIds(infos), n, NewIds(infos[n := info]));
  }

  lemma {:induction false} DropInfos(infos: Infos, nIdCount: nat, loose: set<nat>, n: nat)
    requires InfosOk(infos, nIdCount, loose) && n in loose
    ensures InfosOk(infos - {n}, nIdCount, loose - {n})
  {
    forall x | x in infos - {n} ensures InfoOk(x, (infos - {n})[x], nIdCount, x in loose - {n}) {
      assert InfoOk(x, infos[x], nIdCount, x in loose);
    }
  }

  lemma {:induction false} DropAddrs(infos: Infos, mapAddr: map<NetAddr, nat>, n: nat)
    requires AddrsOk(infos, mapAddr) && n in infos
    ensures AddrsOk(infos - {n}, mapAddr - {infos[n].service.net})
  {
  }

  lemma {:induction false} DropRandom(infos: Infos, vRandom: seq<nat>, n: nat)
    requires RandomOk(infos, vRandom) && |vRandom| > 0 && vRandom[|vRandom| - 1] == n
    ensures RandomOk(infos - {n}, vRandom[..|vRandom| - 1])
  {
  }

  lemma {:induction false} DropTables(k: Keyed, infos: Infos, vvTried: map<Slot, nat>, vvNew: map<Slot, nat>, n: nat)
    requires TriedOk(k, infos, vvTried) && PlacedOk(k, infos, vvNew) && RefsOk(infos, vvNew)
    requires n in infos && !infos[n].fInTried && infos[n].nRefCount == 0
    ensures TriedOk(k, infos - {n}, vvTried) && PlacedOk(k, infos - {n}, vvNew) && RefsOk(infos - {n}, vvNew)
  {
    forall s | s in vvNew ensures vvNew[s] != n {
      assert vvNew[s] == n ==> s in SlotsOf(vvNew, n);
    }
  }

  lemma {:induction false} DropCounts(infos: Infos, nRandom: int, nTried: int, nNew: int, uncounted: set<nat>, n: nat)
    requires CountsOk(infos, nRandom, nTried, nNew, uncounted) && n in infos && !infos[n].fInTried && n !in uncounted
    ensures CountsOk(infos - {n}, nRandom - 1, nTried, nNew - 1, uncounted)
  {
    CardAdd(NewIds(infos - {n}), n, NewIds(infos));
    assert TriedIds(infos - {n}) == TriedIds(infos);
  }

  // ------------------------------------------------------- primitive operations

  function Update(m: Tables, n: nat, info: CAddrInfo): Tables {
    m.(mapInfo := m.mapInfo[n := info])
  }

  /** An entry under the next id, in all indexes but the two tables. */
  function Insert(m: Tables, info: CAddrInfo): Tables {
    m.(nIdCount := m.nIdCount + 1,
       mapInfo := m.mapInfo[m.nIdCount := info],
       mapAddr := m.mapAddr[info.service.net := m.nIdCount],
       vRandom := m.vRandom + [m.nIdCount])
  }

  /** `Create`; the caller counts the entry. */
  function Create(m: Tables, addr: CAddress, source: NetAddr): Tables {
    Insert(m, NewInfo(addr, source, |m.vRandom|))
  }

  function NewInfo(addr: CAddress, source: NetAddr, nRandomPos: int): CAddrInfo {
    CAddrInfo(addr.service, addr.nServices, addr.nTime, source, 0, 0, 0, 0, false, nRandomPos)
  }

  /** What is recorded of an address is the same; its places in the tables may differ. */
  ghost predicate SameRecord(info: CAddrInfo, info': CAddrInfo) {
    info' == info.(nRefCount := info'.nRefCount, fInTried := info'.fInTried, nRandomPos := info'.nRandomPos)
  }

  /** No entry is made up, and none changes in what is recorded of its address. */
  ghost predicate Kept(m: Tables, m': Tables) {
    forall n :: n in m'.mapInfo ==> n in m.mapInfo && SameRecord(m.mapInfo[n], m'.mapInfo[n])
  }

  /** What `SwapRandom` asserts of a position. */
  predicate IsPlace(m: Tables, i: int) {
    0 <= i < |m.vRandom| && m.vRandom[i] in m.mapInfo
  }

  function SwapRandom(m: Tables, i: int, j: int): (r: Tables)
    ensures Kept(m, r)
  {
    if i == j || !IsPlace(m, i) || !IsPlace(m, j) then m else
    var a, b := m.vRandom[i], m.vRandom[j];
    var infos := m.mapInfo[a := m.mapInfo[a].(nRandomPos := j)];
    m.(mapInfo := infos[b := infos[b].(nRandomPos := i)], vRandom := m.vRandom[i := b][j := a])
  }

  function Delete(m: Tables, n: nat): (r: Tables)
    requires n in m.mapInfo && m.vRandom != []
    ensures Kept(m, r)
  {
    var s := SwapRandom(m, m.mapInfo[n].nRandomPos, |m.vRandom| - 1);
    s.(vRandom := s.vRandom[..|m.vRandom| - 1], mapAddr := s.mapAddr - {m.mapInfo[n].service.net},
       mapInfo := s.mapInfo - {n}, nNew := s.nNew - 1)
  }

  /** `ClearNew`: free a new slot, deleting its entry with its last reference. */
  function ClearNew(m: Tables, s: Slot): (r: Tables)
    ensures Kept(m, r)
  {
    if s !in m.vvNew || m.vvNew[s] !in m.mapInfo || m.vRandom == [] then m else
    var n := m.vvNew[s];
    var info := m.mapInfo[n].(nRefCount := m.mapInfo[n].nRefCount - 1);
    var m1 := Update(m, n, info).(vvNew := m.vvNew - {s});
    if info.nRefCount == 0 then Delete(m1, n) else m1
  }

  /** Give entry `n` a free new slot. */
  function Occupy(m: Tables, n: nat, s: Slot): (r: Tables)
    requires n in m.mapInfo
    ensures Kept(m, r)
  {
    Update(m, n, m.mapInfo[n].(nRefCount := m.mapInfo[n].nRefCount + 1)).(vvNew := m.vvNew[s := n])
  }

  // ------------------------------------------- what each of them does to consistency

  lemma {:induction false} CreateIsConsistent(k: Keyed, m: Tables, addr: CAddress, source: NetAddr)
    requires Check(k, m) && addr.service.net !in m.mapAddr
    ensures Consistent(k, Create(m, addr, source), {m.nIdCount}, {m.nIdCount})
    ensures m.nIdCount !in m.mapInfo
  {
    hide Kept, InfosOk, AddrsOk, TriedOk, PlacedOk, RefsOk, RandomOk, CountsOk;
    InsertIsConsistent(k, m, NewInfo(addr, source, |m.vRandom|), {});
    assert {} + {m.nIdCount} == {m.nIdCount};
  }

  lemma {:induction false} InsertIsConsistent(k: Keyed, m: Tables, info: CAddrInfo, loose: set<nat>)
    requires Consistent(k, m, loose, {}) && info.service.net !in m.mapAddr && info.nRandomPos == |m.vRandom|
    requires !info.fInTried && info.nRefCount == 0 && info.nLastTry >= 0 && info.nLastSuccess >= 0
    ensures Consistent(k, Insert(m, info), loose + {m.nIdCount}, {m.nIdCount})
    ensures m.nIdCount !in m.mapInfo
  {
    hide Kept, InfosOk, AddrsOk, TriedOk, PlacedOk, RefsOk, RandomOk, CountsOk;
    var n := m.nIdCount;
    AddInfos(m.mapInfo, m.nIdCount, loose, n, info);
    AddAddrs(m.mapInfo, m.mapAddr, n, info);
    AddRandom(m.mapInfo, m.vRandom, n, info);
    AddTables(k, m.mapInfo, m.vvTried, m.vvNew, n, info);
    AddCounts(m.mapInfo, |m.vRandom|, m.nTried, m.nNew, n, info);
  }

  lemma {:induction false} SwappedIsRandomOk(infos: Infos, vRandom: seq<nat>, i: nat, j: nat)
    requires RandomOk(infos, vRandom) && i < |vRandom| && j < |vRandom| && i != j
    ensures vRandom[i] != vRandom[j] && vRandom[i] in infos && vRandom[j] in infos
    ensures var a, b := vRandom[i], vRandom[j];
            RandomOk(infos[a := infos[a].(nRandomPos := j)][b := infos[b].(nRandomPos := i)], vRandom[i := b][j := a])
  {
    var a, b := vRandom[i], vRandom[j];
    assert infos[a].nRandomPos == i && infos[b].nRandomPos == j;
    var infos', v := infos[a := infos[a].(nRandomPos := j)][b := infos[b].(nRandomPos := i)], vRandom[i := b][j := a];
    forall n | n in infos' ensures 0 <= infos'[n].nRandomPos < |v| && v[infos'[n].nRandomPos] == n {
      assert vRandom[infos[n].nRandomPos] == n;
    }
    forall p | 0 <= p < |v| ensures v[p] in infos' && infos'[v[p]].nRandomPos == p {
      assert vRandom[p] in infos && infos[vRandom[p]].nRandomPos == p;
    }
  }

  lemma {:induction false} SwapMovesOnlyPlaces(m: Tables, i: int, j: int)
    requires RandomOk(m.mapInfo, m.vRandom) && 0 <= i < |m.vRandom| && 0 <= j < |m.vRandom|
    ensures var r := SwapRandom(m, i, j);
            && SameButRandom(m.mapInfo, r.mapInfo) && RandomOk(r.mapInfo, r.vRandom)
            && r == m.(mapInfo := r.mapInfo, vRandom := m.vRandom[i := m.vRandom[j]][j := m.vRandom[i]])
  {
    hide RandomOk;
    if i == j {
      assert m.vRandom == m.vRandom[i := m.vRandom[j]][j := m.vRandom[i]];
    } else {
      SwappedIsRandomOk(m.mapInfo, m.vRandom, i, j);
    }
  }

  lemma {:induction false} SwapKeepsConsistency(k: Keyed, m: Tables, i: int, j: int, loose: set<nat>,
          uncounted: set<nat>)
    requires Consistent(k, m, loose, uncounted) && 0 <= i < |m.vRandom| && 0 <= j < |m.vRandom|
    ensures Consistent(k, SwapRandom(m, i, j), loose, uncounted)
  {
    hide Kept, InfosOk, AddrsOk, TriedOk, PlacedOk, RefsOk, RandomOk, CountsOk, SwapRandom, SameButRandom;
    SwapMovesOnlyPlaces(m, i, j);
    RandomMovesKeepParts(k, m, SwapRandom(m, i, j).mapInfo, loose, uncounted);
  }

  /** `n` is there before and after, and only its place in `vRandom` may differ. */
  ghost predicate Spared(m: Tables, m': Tables, n: nat) {
    n in m.mapInfo && n in m'.mapInfo && m'.mapInfo[n] == m.mapInfo[n].(nRandomPos := m'.mapInfo[n].nRandomPos)
  }

  lemma {:induction false} DeleteIsConsistent(k: Keyed, m: Tables, n: nat, loose: set<nat>, uncounted: set<nat>)
    requires Consistent(k, m, loose, uncounted) && n in m.mapInfo && n in loose && n !in uncounted
    ensures m.vRandom != [] && Consistent(k, Delete(m, n), loose - {n}, uncounted)
  {
    hide Kept, InfosOk, AddrsOk, TriedOk, PlacedOk, RefsOk, CountsOk, RandomOk, SwapRandom;
    EntryHasPlace(m.mapInfo, m.vRandom, n);
    var i, last := m.mapInfo[n].nRandomPos, |m.vRandom| - 1;
    var s := SwapRandom(m, i, last);
    SwapMovesOnlyPlaces(m, i, last);
    SwapKeepsConsistency(k, m, i, last, loose, uncounted);
    LooseIsUnreferenced(s.mapInfo, s.nIdCount, loose, n);
    assert s.vRandom[last] == n;
    assert s.mapInfo[n].service == m.mapInfo[n].service;
    DropLastIsConsistent(k, s, n, loose, uncounted);
  }

  lemma {:induction false} EntryHasPlace(infos: Infos, vRandom: seq<nat>, n: nat)
    requires RandomOk(infos, vRandom) && n in infos
    ensures 0 <= infos[n].nRandomPos < |vRandom| && vRandom[infos[n].nRandomPos] == n
  {
  }

  lemma {:induction false} DropLastIsConsistent(k: Keyed, s: Tables, n: nat, loose: set<nat>, uncounted: set<nat>)
    requires Consistent(k, s, loose, uncounted) && n in s.mapInfo && n in loose && n !in uncounted
    requires s.vRandom != [] && s.vRandom[|s.vRandom| - 1] == n
    ensures Consistent(k, s.(vRandom := s.vRandom[..|s.vRandom| - 1], mapAddr := s.mapAddr - {s.mapInfo[n].service.net},
                             mapInfo := s.mapInfo - {n}, nNew := s.nNew - 1), loose - {n}, uncounted)
  {
    hide Kept, InfosOk, AddrsOk, TriedOk, PlacedOk, RefsOk, CountsOk, RandomOk;
    LooseIsUnreferenced(s.mapInfo, s.nIdCount, loose, n);
    DropInfos(s.mapInfo, s.nIdCount, loose, n);
    DropAddrs(s.mapInfo, s.mapAddr, n);
    DropRandom(s.mapInfo, s.vRandom, n);
    DropTables(k, s.mapInfo, s.vvTried, s.vvNew, n);
    DropCounts(s.mapInfo, |s.vRandom|, s.nTried, s.nNew, uncounted, n);
  }

  /** Besides the entry itself, a delete moves at most one other entry in `vRandom`. */
  lemma {:induction false} DeleteSparesOthers(m: Tables, n: nat)
    requires RandomOk(m.mapInfo, m.vRandom) && n in m.mapInfo
    ensures m.vRandom != []
    ensures var d := Delete(m, n);
            && d.mapInfo.Keys == m.mapInfo.Keys - {n}
            && (forall x :: x in m.mapInfo && x != n ==> Spared(m, d, x))
            && d == m.(mapInfo := d.mapInfo, vRandom := d.vRandom, nNew := m.nNew - 1,
              mapAddr := m.mapAddr - {m.mapInfo[n].service.net})
  {
    hide Kept, RandomOk, SwapRandom;
    EntryHasPlace(m.mapInfo, m.vRandom, n);
    SwapMovesOnlyPlaces(m, m.mapInfo[n].nRandomPos, |m.vRandom| - 1);
  }

  lemma {:induction false} LooseIsUnreferenced(infos: Infos, nIdCount: nat, loose: set<nat>, n: nat)
    requires InfosOk(infos, nIdCount, loose) && n in loose
    ensures n in infos && !infos[n].fInTried && infos[n].nRefCount == 0
  {
    assert InfoOk(n, infos[n], nIdCount, true);
  }

  /** Changing an entry's statistics or references leaves what does not speak of them. */
  lemma {:induction false} UpdateKeepsParts(k: Keyed, m: Tables, n: nat, info: CAddrInfo, uncounted: set<nat>)
    requires AddrsOk(m.mapInfo, m.mapAddr) && RandomOk(m.mapInfo, m.vRandom) && TriedOk(k, m.mapInfo, m.vvTried)
    requires PlacedOk(k, m.mapInfo, m.vvNew) && CountsOk(m.mapInfo, |m.vRandom|, m.nTried, m.nNew, uncounted)
    requires n in m.mapInfo && info.service == m.mapInfo[n].service
    requires info.fInTried == m.mapInfo[n].fInTried && info.nRandomPos == m.mapInfo[n].nRandomPos
    ensures var infos := m.mapInfo[n := info];
            && AddrsOk(infos, m.mapAddr) && RandomOk(infos, m.vRandom) && TriedOk(k, infos, m.vvTried)
            && PlacedOk(k, infos, m.vvNew) && CountsOk(infos, |m.vRandom|, m.nTried, m.nNew, uncounted)
  {
    hide AddrsOk, RandomOk, TriedOk, PlacedOk;
    UpdateAddrs(m.mapInfo, m.mapAddr, n, info);
    UpdateRandom(m.mapInfo, m.vRandom, n, info);
    UpdateTables(k, m.mapInfo, m.vvTried, m.vvNew, n, info);
    IdsAfterUpdate(m.mapInfo, n, info);
    assert NewIds(m.mapInfo[n := info]) == NewIds(m.mapInfo) && TriedIds(m.mapInfo[n := info]) == TriedIds(m.mapInfo);
  }

  lemma {:induction false} UpdateAddrs(infos: Infos, mapAddr: map<NetAddr, nat>, n: nat, info: CAddrInfo)
    requires AddrsOk(infos, mapAddr) && n in infos && info.service.net == infos[n].service.net
    ensures AddrsOk(infos[n := info], mapAddr)
  {
  }

  lemma {:induction false} UpdateRandom(infos: Infos, vRandom: seq<nat>, n: nat, info: CAddrInfo)
    requires RandomOk(infos, vRandom) && n in infos && info.nRandomPos == infos[n].nRandomPos
    ensures RandomOk(infos[n := info], vRandom)
  {
  }

  lemma {:induction false} UpdateTables(k: Keyed, infos: Infos, vvTried: map<Slot, nat>, vvNew: map<Slot, nat>,
          n: nat, info: CAddrInfo)
    requires TriedOk(k, infos, vvTried) && PlacedOk(k, infos, vvNew)
    requires n in infos && info.service == infos[n].service && info.fInTried == infos[n].fInTried
    ensures TriedOk(k, infos[n := info], vvTried) && PlacedOk(k, infos[n := info], vvNew)
  {
  }

  lemma {:induction false} UpdateInfos(infos: Infos, nIdCount: nat, loose: set<nat>, n: nat, info: CAddrInfo,
          loose': set<nat>)
    requires InfosOk(infos, nIdCount, loose) && n in infos && InfoOk(n, info, nIdCount, n in loose')
    requires forall x :: x != n ==> (x in loose <==> x in loose')
    ensures InfosOk(infos[n := info], nIdCount, loose')
  {
    forall x | x in infos && x != n ensures InfoOk(x, infos[x], nIdCount, x in loose') {
      assert InfoOk(x, infos[x], nIdCount, x in loose);
    }
  }

  lemma {:induction false} FreeSlotRefs(infos: Infos, vvNew: map<Slot, nat>, s: Slot, info: CAddrInfo)
    requires RefsOk(infos, vvNew) && s in vvNew && vvNew[s] in infos && !infos[vvNew[s]].fInTried
    requires info == infos[vvNew[s]].(nRefCount := infos[vvNew[s]].nRefCount - 1)
    ensures RefsOk(infos[vvNew[s] := info], vvNew - {s})
  {
    CardAdd(SlotsOf(vvNew - {s}, vvNew[s]), s, SlotsOf(vvNew, vvNew[s]));
    forall x | x != vvNew[s] ensures SlotsOf(vvNew - {s}, x) == SlotsOf(vvNew, x) {}
  }

  lemma {:induction false} TakeSlotRefs(infos: Infos, vvNew: map<Slot, nat>, n: nat, s: Slot, info: CAddrInfo)
    requires RefsOk(infos, vvNew) && s !in vvNew && n in infos && !infos[n].fInTried
    requires info == infos[n].(nRefCount := infos[n].nRefCount + 1)
    ensures RefsOk(infos[n := info], vvNew[s := n])
  {
    CardAdd(SlotsOf(vvNew, n), s, SlotsOf(vvNew[s := n], n));
    forall x | x != n ensures SlotsOf(vvNew[s := n], x) == SlotsOf(vvNew, x) {}
  }

  /** The entry that is in a slot. */
  lemma {:induction false} SlotHolder(k: Keyed, m: Tables, s: Slot, loose: set<nat>, uncounted: set<nat>)
    requires Consistent(k, m, loose, uncounted) && s in m.vvNew
    ensures var n := m.vvNew[s];
            && n in m.mapInfo && !m.mapInfo[n].fInTried && n !in loose && m.mapInfo[n].nRefCount >= 1 && n < m.nIdCount
            && InfoOk(n, m.mapInfo[n], m.nIdCount, false)
  {
    var n := m.vvNew[s];
    assert s in SlotsOf(m.vvNew, n);
    assert InfoOk(n, m.mapInfo[n], m.nIdCount, n in loose);
  }

  lemma {:induction false} ClearNewIsConsistent(k: Keyed, m: Tables, s: Slot, loose: set<nat>, uncounted: set<nat>)
    requires Consistent(k, m, loose, uncounted)
    ensures Consistent(k, ClearNew(m, s), loose, uncounted)
  {
    hide Kept, InfosOk, InfoOk, AddrsOk, TriedOk, RefsOk, CountsOk, RandomOk, Delete;
    if s in m.vvNew {
      SlotHolder(k, m, s, loose, uncounted);
      var n := m.vvNew[s];
      var info := m.mapInfo[n].(nRefCount := m.mapInfo[n].nRefCount - 1);
      var m1 := Update(m, n, info).(vvNew := m.vvNew - {s});
      EntryHasPlace(m.mapInfo, m.vRandom, n);
      UpdateKeepsParts(k, m, n, info, uncounted);
      FreeSlotRefs(m.mapInfo, m.vvNew, s, info);
      FreedInfoOk(n, m.mapInfo[n], m.nIdCount);
      if info.nRefCount == 0 {
        UpdateInfos(m.mapInfo, m.nIdCount, loose, n, info, loose + {n});
        DeleteIsConsistent(k, m1, n, loose + {n}, uncounted);
        assert loose + {n} - {n} == loose;
      } else {
        UpdateInfos(m.mapInfo, m.nIdCount, loose, n, info, loose);
      }
    }
  }

  lemma {:induction false} FreedInfoOk(n: nat, info: CAddrInfo, nIdCount: nat)
    requires InfoOk(n, info, nIdCount, false) && !info.fInTried
    ensures InfoOk(n, info.(nRefCount := info.nRefCount - 1), nIdCount, info.nRefCount == 1)
  {
  }

  /** What clearing a slot leaves alone. */
  lemma {:induction false} ClearNewSpares(k: Keyed, m: Tables, s: Slot, loose: set<nat>, uncounted: set<nat>)
    requires Consistent(k, m, loose, uncounted)
    ensures var r := ClearNew(m, s);
            && r.vvNew == m.vvNew - {s} && r.vvTried == m.vvTried && r.nIdCount == m.nIdCount && r.nTried == m.nTried
            && (forall n :: n in m.mapInfo && !(s in m.vvNew && m.vvNew[s] == n) ==> Spared(m, r, n))
  {
    hide Kept, InfosOk, InfoOk, AddrsOk, TriedOk, PlacedOk, RefsOk, CountsOk, RandomOk, Delete;
    if s in m.vvNew {
      SlotHolder(k, m, s, loose, uncounted);
      var n := m.vvNew[s];
      var info := m.mapInfo[n].(nRefCount := m.mapInfo[n].nRefCount - 1);
      EntryHasPlace(m.mapInfo, m.vRandom, n);
      UpdateRandom(m.mapInfo, m.vRandom, n, info);
      DeleteSparesOthers(Update(m, n, info).(vvNew := m.vvNew - {s}), n);
    }
  }

  lemma {:induction false} OccupyIsConsistent(k: Keyed, m: Tables, n: nat, s: Slot, loose: set<nat>,
          uncounted: set<nat>)
    requires Consistent(k, m, loose, uncounted) && n in m.mapInfo && n !in uncounted
    requires s !in m.vvNew && s.bucket < ADDRMAN_NEW_BUCKET_COUNT && s == k.NewSlot(s.bucket, m.mapInfo[n].service)
    requires !m.mapInfo[n].fInTried && m.mapInfo[n].nRefCount < ADDRMAN_NEW_BUCKETS_PER_ADDRESS
    ensures Consistent(k, Occupy(m, n, s), loose - {n}, uncounted)
  {
    hide Kept, InfosOk, AddrsOk, TriedOk, RefsOk, CountsOk, RandomOk;
    var info := m.mapInfo[n].(nRefCount := m.mapInfo[n].nRefCount + 1);
    OccupantOk(m.mapInfo, m.nIdCount, loose, n);
    UpdateKeepsParts(k, m, n, info, uncounted);
    UpdateInfos(m.mapInfo, m.nIdCount, loose, n, info, loose - {n});
    TakeSlotRefs(m.mapInfo, m.vvNew, n, s, info);
  }

  lemma {:induction false} OccupantOk(infos: Infos, nIdCount: nat, loose: set<nat>, n: nat)
    requires InfosOk(infos, nIdCount, loose) && n in infos && !infos[n].fInTried
    requires infos[n].nRefCount < ADDRMAN_NEW_BUCKETS_PER_ADDRESS
    ensures InfoOk(n, infos[n].(nRefCount := infos[n].nRefCount + 1), nIdCount, false) && loose <= infos.Keys
  {
    assert InfoOk(n, infos[n], nIdCount, n in loose);
  }

  // --------------------------------------------------------- promotion to tried

  /** What the first loop of `MakeTried` frees in its first rounds: in each bucket, the slot at the entry's position. */
  function Freed(k: Keyed, m: Tables, n: nat, rounds: nat): set<Slot>
    requires n in m.mapInfo
  {
    set s | s in SlotsOf(m.vvNew, n) && s.bucket < rounds && s == k.NewSlot(s.bucket, m.mapInfo[n].service)
  }

  /** That loop: out of the slots at its positions, counting down, and out of the count of new entries. */
  function Detach(k: Keyed, m: Tables, n: nat): (r: Tables)
    requires n in m.mapInfo
    ensures Kept(m, r)
  {
    var freed := Freed(k, m, n, ADDRMAN_NEW_BUCKET_COUNT);
    Update(m, n, m.mapInfo[n].(nRefCount := m.mapInfo[n].nRefCount - |freed|))
      .(vvNew := m.vvNew - freed, nNew := m.nNew - 1)
  }

  /** What `MakeTried` asserts after that loop: no reference is left. */
  predicate LeavesAllSlots(k: Keyed, m: Tables, n: nat)
    requires n in m.mapInfo
  {
    Detach(k, m, n).mapInfo[n].nRefCount == 0
  }

  /** The occupant of a tried slot loses its place there. */
  function Untry(m: Tables, s: Slot): (r: Tables)
    requires s in m.vvTried && m.vvTried[s] in m.mapInfo
    ensures Kept(m, r)
  {
    Update(m, m.vvTried[s], m.mapInfo[m.vvTried[s]].(fInTried := false)).(vvTried := m.vvTried - {s},
      nTried := m.nTried - 1)
  }

  /** It goes back to the new slot of its source, whatever was there. */
  function Demote(k: Keyed, m: Tables, s: Slot): (r: Tables)
    requires s in m.vvTried && m.vvTried[s] in m.mapInfo
    ensures Kept(m, r)
  {
    var o := m.vvTried[s];
    var info := m.mapInfo[o];
    var u := k.NewSlot(k.GetNewBucket(info.service.net, info.source), info.service);
    var c := ClearNew(Untry(m, s), u);
    if o !in c.mapInfo then c else
    Update(c, o, c.mapInfo[o].(nRefCount := 1)).(vvNew := c.vvNew[u := o], nNew := c.nNew + 1)
  }

  function Promote(m: Tables, n: nat, s: Slot): (r: Tables)
    requires n in m.mapInfo
    ensures Kept(m, r)
  {
    Update(m, n, m.mapInfo[n].(fInTried := true)).(vvTried := m.vvTried[s := n], nTried := m.nTried + 1)
  }

  function MakeTried(k: Keyed, m: Tables, n: nat): (r: Tables)
    requires n in m.mapInfo
    ensures Kept(m, r)
  {
    var d := Detach(k, m, n);
    var s := k.TriedSlot(m.mapInfo[n].service);
    var e := if s in d.vvTried && d.vvTried[s] in d.mapInfo then Demote(k, d, s) else d;
    if n in e.mapInfo then Promote(e, n, s) else e
  }

  /** In a consistent manager every slot of an entry is at its position, so that the loop frees them all. */
  lemma {:induction false} FreesAll(k: Keyed, m: Tables, n: nat)
    requires PlacedOk(k, m.mapInfo, m.vvNew) && RefsOk(m.mapInfo, m.vvNew) && n in m.mapInfo && !m.mapInfo[n].fInTried
    ensures Freed(k, m, n, ADDRMAN_NEW_BUCKET_COUNT) == SlotsOf(m.vvNew, n) && LeavesAllSlots(k, m, n)
  {
  }

  lemma {:induction false} DetachIsConsistent(k: Keyed, m: Tables, n: nat)
    requires Check(k, m) && n in m.mapInfo && !m.mapInfo[n].fInTried
    ensures LeavesAllSlots(k, m, n) && Consistent(k, Detach(k, m, n), {n}, {n})
  {
    hide Kept, InfosOk, AddrsOk, TriedOk, RefsOk, RandomOk, Freed;
    FreesAll(k, m, n);
    var info := m.mapInfo[n].(nRefCount := 0);
    UpdateKeepsParts(k, m, n, info, {});
    DetachedInfoOk(m.mapInfo, m.nIdCount, n);
    UpdateInfos(m.mapInfo, m.nIdCount, {}, n, info, {n});
    DetachRefs(m.mapInfo, m.vvNew, n);
  }

  lemma {:induction false} DetachedInfoOk(infos: Infos, nIdCount: nat, n: nat)
    requires InfosOk(infos, nIdCount, {}) && n in infos && !infos[n].fInTried
    ensures InfoOk(n, infos[n].(nRefCount := 0), nIdCount, true)
  {
    assert InfoOk(n, infos[n], nIdCount, false);
  }

  lemma {:induction false} DetachRefs(infos: Infos, vvNew: map<Slot, nat>, n: nat)
    requires RefsOk(infos, vvNew) && n in infos
    ensures RefsOk(infos[n := infos[n].(nRefCount := 0)], vvNew - SlotsOf(vvNew, n))
  {
    var vv := vvNew - SlotsOf(vvNew, n);
    assert SlotsOf(vv, n) == {};
    forall x | x != n ensures SlotsOf(vv, x) == SlotsOf(vvNew, x) {}
  }

  lemma {:induction false} UntryTables(k: Keyed, infos: Infos, vvTried: map<Slot, nat>, vvNew: map<Slot, nat>, s: Slot)
    requires TriedOk(k, infos, vvTried) && PlacedOk(k, infos, vvNew) && RefsOk(infos, vvNew)
    requires s in vvTried && infos[vvTried[s]].nRefCount == 0
    ensures var o := vvTried[s];
            var infos' := infos[o := infos[o].(fInTried := false)];
            TriedOk(k, infos', vvTried - {s}) && PlacedOk(k, infos', vvNew) && RefsOk(infos', vvNew)
  {
    var o := vvTried[s];
    assert SlotsOf(vvNew, o) == {};
    assert s == k.TriedSlot(infos[o].service);
  }

  lemma {:induction false} UntryIsConsistent(k: Keyed, m: Tables, s: Slot, loose: set<nat>)
    requires Consistent(k, m, loose, loose) && s in m.vvTried
    ensures m.vvTried[s] in m.mapInfo && m.vvTried[s] !in loose
    ensures Consistent(k, Untry(m, s), loose + {m.vvTried[s]}, loose + {m.vvTried[s]})
  {
    hide Kept, InfosOk, InfoOk, AddrsOk, PlacedOk, RefsOk, RandomOk;
    var o := m.vvTried[s];
    var info := m.mapInfo[o].(fInTried := false);
    TriedInfoOk(m.mapInfo, m.nIdCount, loose, o);
    UpdateInfos(m.mapInfo, m.nIdCount, loose, o, info, loose + {o});
    UpdateAddrs(m.mapInfo, m.mapAddr, o, info);
    UpdateRandom(m.mapInfo, m.vRandom, o, info);
    UntryTables(k, m.mapInfo, m.vvTried, m.vvNew, s);
    UntryCounts(m.mapInfo, |m.vRandom|, m.nTried, m.nNew, loose, o, info);
  }

  lemma {:induction false} TriedInfoOk(infos: Infos, nIdCount: nat, loose: set<nat>, o: nat)
    requires InfosOk(infos, nIdCount, loose) && o in infos && infos[o].fInTried
    ensures o !in loose && infos[o].nRefCount == 0 && InfoOk(o, infos[o].(fInTried := false), nIdCount, true)
  {
    assert InfoOk(o, infos[o], nIdCount, o in loose);
  }

  lemma {:induction false} UntryCounts(infos: Infos, nRandom: int, nTried: int, nNew: int, uncounted: set<nat>,
          o: nat, info: CAddrInfo)
    requires CountsOk(infos, nRandom, nTried, nNew, uncounted) && o in infos && infos[o].fInTried && !info.fInTried
    ensures CountsOk(infos[o := info], nRandom, nTried - 1, nNew, uncounted + {o})
  {
    IdsAfterUpdate(infos, o, info);
    CardAdd(NewIds(infos), o, NewIds(infos[o := info]));
    CardAdd(TriedIds(infos[o := info]), o, TriedIds(infos));
    CardAdd(uncounted, o, uncounted + {o});
  }

  /** Counting an entry as it takes its first slot. */
  lemma {:induction false} CountIn(infos: Infos, nRandom: int, nTried: int, nNew: int, uncounted: set<nat>, n: nat)
    requires CountsOk(infos, nRandom, nTried, nNew, uncounted) && n in uncounted
    ensures CountsOk(infos, nRandom, nTried, nNew + 1, uncounted - {n})
  {
    CardAdd(uncounted - {n}, n, uncounted);
  }

  lemma {:induction false} DemoteIsConsistent(k: Keyed, m: Tables, s: Slot, loose: set<nat>)
    requires Consistent(k, m, loose, loose) && s in m.vvTried
    ensures m.vvTried[s] in m.mapInfo && Consistent(k, Demote(k, m, s), loose, loose)
  {
    hide Kept, InfosOk, InfoOk, AddrsOk, PlacedOk, RefsOk, RandomOk, TriedOk, CountsOk, ClearNew;
    UntryIsConsistent(k, m, s, loose);
    var o := m.vvTried[s];
    var t, l := Untry(m, s), loose + {o};
    var u := k.NewSlot(k.GetNewBucket(m.mapInfo[o].service.net, m.mapInfo[o].source), m.mapInfo[o].service);
    if u in t.vvNew {
      SlotHolder(k, t, u, l, l);
    }
    ClearNewIsConsistent(k, t, u, l, l);
    ClearNewSpares(k, t, u, l, l);
    var c := ClearNew(t, u);
    assert Spared(t, c, o);
    LooseIsUnreferenced(c.mapInfo, c.nIdCount, l, o);
    CountIn(c.mapInfo, |c.vRandom|, c.nTried, c.nNew, l, o);
    assert l - {o} == loose;
    OccupyIsConsistent(k, c.(nNew := c.nNew + 1), o, u, l, loose);
  }

  lemma {:induction false} PromoteTables(k: Keyed, infos: Infos, vvTried: map<Slot, nat>, vvNew: map<Slot, nat>,
          n: nat, s: Slot)
    requires TriedOk(k, infos, vvTried) && PlacedOk(k, infos, vvNew) && RefsOk(infos, vvNew)
    requires n in infos && !infos[n].fInTried && infos[n].nRefCount == 0 && s == k.TriedSlot(infos[n].service) &&
      s !in vvTried
    ensures var infos' := infos[n := infos[n].(fInTried := true)];
            TriedOk(k, infos', vvTried[s := n]) && PlacedOk(k, infos', vvNew) && RefsOk(infos', vvNew)
  {
    forall t | t in vvNew ensures vvNew[t] != n {
      assert vvNew[t] == n ==> t in SlotsOf(vvNew, n);
    }
  }

  lemma {:induction false} PromoteCounts(infos: Infos, nRandom: int, nTried: int, nNew: int, n: nat, info: CAddrInfo)
    requires CountsOk(infos, nRandom, nTried, nNew, {n}) && n in infos && !infos[n].fInTried && info.fInTried
    ensures CountsOk(infos[n := info], nRandom, nTried + 1, nNew, {})
  {
    IdsAfterUpdate(infos, n, info);
    CardAdd(NewIds(infos[n := info]), n, NewIds(infos));
    CardAdd(TriedIds(infos), n, TriedIds(infos[n := info]));
  }

  lemma {:induction false} PromoteIsConsistent(k: Keyed, m: Tables, n: nat, s: Slot, loose: set<nat>)
    requires Consistent(k, m, loose, {n}) && n in m.mapInfo && m.mapInfo[n].nLastSuccess != 0
    requires s == k.TriedSlot(m.mapInfo[n].service) && s !in m.vvTried
    ensures Consistent(k, Promote(m, n, s), loose - {n}, {})
  {
    hide Kept, InfosOk, InfoOk, AddrsOk, PlacedOk, RefsOk, RandomOk, TriedOk, CountsOk;
    var info := m.mapInfo[n].(fInTried := true);
    LooseIsUnreferenced(m.mapInfo, m.nIdCount, loose, n);
    PromotedInfoOk(m.mapInfo, m.nIdCount, n, loose);
    UpdateInfos(m.mapInfo, m.nIdCount, loose, n, info, loose - {n});
    UpdateAddrs(m.mapInfo, m.mapAddr, n, info);
    UpdateRandom(m.mapInfo, m.vRandom, n, info);
    PromoteTables(k, m.mapInfo, m.vvTried, m.vvNew, n, s);
    PromoteCounts(m.mapInfo, |m.vRandom|, m.nTried, m.nNew, n, info);
  }

  lemma {:induction false} PromotedInfoOk(infos: Infos, nIdCount: nat, n: nat, loose: set<nat>)
    requires InfosOk(infos, nIdCount, loose) && n in loose && n in infos && infos[n].nLastSuccess != 0
    ensures InfoOk(n, infos[n].(fInTried := true), nIdCount, false)
  {
    assert InfoOk(n, infos[n], nIdCount, true);
  }

  /** Moving an entry to tried keeps every index and counter right, evictions included. */
  lemma {:induction false} MakeTriedKeepsCheck(k: Keyed, m: Tables, n: nat)
    requires Check(k, m) && n in m.mapInfo && !m.mapInfo[n].fInTried && m.mapInfo[n].nLastSuccess != 0
    ensures LeavesAllSlots(k, m, n) && Check(k, MakeTried(k, m, n))
    ensures n in MakeTried(k, m, n).mapInfo && MakeTried(k, m, n).mapInfo[n].fInTried
  {
    hide Kept, InfosOk, InfoOk, AddrsOk, PlacedOk, RefsOk, RandomOk, TriedOk, CountsOk, Demote, Freed, SlotsOf;
    DetachIsConsistent(k, m, n);
    var d, s := Detach(k, m, n), k.TriedSlot(m.mapInfo[n].service);
    if s in d.vvTried {
      DemoteIsConsistent(k, d, s, {n});
      DemoteSpares(k, d, s, {n}, n);
    }
    var e := if s in d.vvTried then Demote(k, d, s) else d;
    PromoteIsConsistent(k, e, n, s, {n});
    assert {n} - {n} == {};
  }

  lemma {:induction false} DemoteSpares(k: Keyed, m: Tables, s: Slot, loose: set<nat>, n: nat)
    requires Consistent(k, m, loose, loose) && s in m.vvTried && n in loose
    ensures m.vvTried[s] in m.mapInfo && Spared(m, Demote(k, m, s), n) && Demote(k, m, s).vvTried == m.vvTried - {s}
  {
    hide Kept, InfosOk, InfoOk, AddrsOk, PlacedOk, RefsOk, RandomOk, TriedOk, CountsOk, ClearNew;
    UntryIsConsistent(k, m, s, loose);
    var o := m.vvTried[s];
    var t, l := Untry(m, s), loose + {o};
    var u := k.NewSlot(k.GetNewBucket(m.mapInfo[o].service.net, m.mapInfo[o].source), m.mapInfo[o].service);
    LooseIsUnreferenced(m.mapInfo, m.nIdCount, loose, n);
    if u in t.vvNew {
      SlotHolder(k, t, u, l, l);
    }
    ClearNewSpares(k, t, u, l, l);
    assert Spared(t, ClearNew(t, u), o) && Spared(t, ClearNew(t, u), n);
  }

  // ------------------------------------------------------------ public operations

  /** Some new bucket has the entry at its position: what the search in `Good_` looks for. */
  ghost predicate InSomeNewBucket(k: Keyed, m: Tables, n: nat)
    requires n in m.mapInfo
  {
    exists b: nat :: b < ADDRMAN_NEW_BUCKET_COUNT && InBucket(k, m, n, b)
  }

  predicate InBucket(k: Keyed, m: Tables, n: nat, b: nat)
    requires n in m.mapInfo
  {
    var s := k.NewSlot(b, m.mapInfo[n].service);
    s in m.vvNew && m.vvNew[s] == n
  }

  function Marked(info: CAddrInfo, addr: CAddress, nTime: int): CAddrInfo {
    info.(service := CService(info.service.net, addr.service.port), nServices := addr.nServices,
          nLastSuccess := nTime, nLastTry := nTime, nAttempts := 0)
  }

  ghost function Good(k: Keyed, m: Tables, addr: CAddress, nTime: int): Tables {
    if addr.service.net !in m.mapAddr || m.mapAddr[addr.service.net] !in m.mapInfo then m else
    var n := m.mapAddr[addr.service.net];
    var m1 := Update(m, n, Marked(m.mapInfo[n], addr, nTime));
    if m1.mapInfo[n].fInTried || !InSomeNewBucket(k, m1, n) then m1 else MakeTried(k, m1, n)
  }

  /** Whether `Good_` gets past the assertion in `MakeTried`, if it comes to it. */
  ghost predicate GoodPasses(k: Keyed, m: Tables, addr: CAddress, nTime: int) {
    addr.service.net in m.mapAddr && m.mapAddr[addr.service.net] in m.mapInfo ==>
      var n := m.mapAddr[addr.service.net];
      var m1 := Update(m, n, Marked(m.mapInfo[n], addr, nTime));
      m1.mapInfo[n].fInTried || !InSomeNewBucket(k, m1, n) || LeavesAllSlots(k, m1, n)
  }

  function NotNegative(n: int): nat { if n < 0 then 0 else n }

  function Max(a: int, b: int): int { if a < b then b else a }

  /** `nTime` is an unsigned 32-bit field. */
  function Word(n: int): int { n % 0x1_0000_0000 }

  /** The clock and the random number that one call of `Add_` meets. */
  datatype Chance = Chance(now: int, random: nat)

  predicate IsTerrible(info: CAddrInfo, now: int) {
    if info.nLastTry != 0 && info.nLastTry >= now - 60 then false
    else if info.nTime > now + 10 * 60 then true
    else if info.nTime == 0 || now - info.nTime > ADDRMAN_HORIZON_DAYS * 24 * 60 * 60 then true
    else if info.nLastSuccess == 0 && info.nAttempts >= ADDRMAN_RETRIES then true
    else now - info.nLastSuccess > ADDRMAN_MIN_FAIL_DAYS * 24 * 60 * 60 && info.nAttempts >= ADDRMAN_MAX_FAILURES
  }

  function Refreshed(info: CAddrInfo, addr: CAddress, source: NetAddr, nTimePenalty: int, now: int): CAddrInfo {
    var nUpdateInterval := if now - addr.nTime < 24 * 60 * 60 then 60 * 60 else 24 * 60 * 60;
    var timed := if addr.nTime != 0 && (info.nTime == 0 || info.nTime < addr.nTime - nUpdateInterval - nTimePenalty)
                 then info.(nTime := Word(Max(0, addr.nTime - nTimePenalty))) else info;
    if addr.service.net == source
    then timed.(nServices := addr.nServices, service := CService(info.service.net, addr.service.port)) else timed
  }

  /** Whether a known address may get one more new slot: each that it has makes this half as likely. */
  predicate MayMultiply(info: CAddrInfo, addr: CAddress, random: nat) {
    PowPositive(2, NotNegative(info.nRefCount));
    && addr.nTime != 0 && (info.nTime == 0 || addr.nTime > info.nTime)
    && !info.fInTried
    && info.nRefCount != ADDRMAN_NEW_BUCKETS_PER_ADDRESS
    && random % Pow(2, NotNegative(info.nRefCount)) == 0
  }

  /** The second half of `Add_`: a new slot for entry `n`, or none. */
  function PlaceNew(k: Keyed, m: Tables, n: nat, source: NetAddr, now: int): (r: Tables)
    requires n in m.mapInfo
    ensures Kept(m, r)
  {
    var s := k.NewSlot(k.GetNewBucket(m.mapInfo[n].service.net, source), m.mapInfo[n].service);
    if s in m.vvNew && m.vvNew[s] == n then m
    else if s !in m.vvNew ||
      (m.vvNew[s] in m.mapInfo &&
        (IsTerrible(m.mapInfo[m.vvNew[s]], now) ||
          (m.mapInfo[m.vvNew[s]].nRefCount > 1 && m.mapInfo[n].nRefCount == 0))) then
      var c := ClearNew(m, s);
      if n in c.mapInfo then Occupy(c, n, s) else c
    else if m.mapInfo[n].nRefCount == 0 && m.vRandom != [] then Delete(m, n)
    else m
  }

  datatype Added = Added(m: Tables, fNew: bool)

  function Add(k: Keyed, m: Tables, addr: CAddress, routable: bool, source: NetAddr, nTimePenalty: int,
          chance: Chance): Added {
    if !routable then Added(m, false)
    else if addr.service.net in m.mapAddr && m.mapAddr[addr.service.net] in m.mapInfo then
      var n := m.mapAddr[addr.service.net];
      var info := Refreshed(m.mapInfo[n], addr, source, nTimePenalty, chance.now);
      var m1 := Update(m, n, info);
      if MayMultiply(info, addr, chance.random) then Added(PlaceNew(k, m1, n, source, chance.now), false)
        else Added(m1, false)
    else
      var n := m.nIdCount;
      var c := Create(m, addr, source);
      var info := c.mapInfo[n].(nTime := Word(Max(0, addr.nTime - nTimePenalty)));
      Added(PlaceNew(k, Update(c, n, info).(nNew := c.nNew + 1), n, source, chance.now), true)
  }

  function Attempt(m: Tables, service: CService, nTime: int): Tables {
    if service.net !in m.mapAddr || m.mapAddr[service.net] !in m.mapInfo then m else
    var n := m.mapAddr[service.net];
    var info := m.mapInfo[n];
    if info.service != service then m else Update(m, n, info.(nLastTry := nTime, nAttempts := info.nAttempts + 1))
  }

  function Connected(m: Tables, service: CService, nTime: int): Tables {
    if service.net !in m.mapAddr || m.mapAddr[service.net] !in m.mapInfo then m else
    var n := m.mapAddr[service.net];
    var info := m.mapInfo[n];
    if info.service != service || nTime - info.nTime <= 20 * 60 then m else Update(m, n, info.(nTime := Word(nTime)))
  }

  /** The first `|randoms|` rounds of the shuffle in `GetAddr_`. */
  function Shuffle(m: Tables, randoms: seq<nat>): Tables {
    if randoms == [] then m else
    var i := |randoms| - 1;
    var before := Shuffle(m, randoms[..i]);
    if i < |before.vRandom| then SwapRandom(before, i, i + randoms[i] % (|before.vRandom| - i)) else before
  }

  // --------------------------------------------------------- they keep the check

  /** Statistics of an entry may change freely, as long as tried entries have a success on record. */
  lemma {:induction false} StatisticsKeepConsistency(k: Keyed, m: Tables, n: nat, info: CAddrInfo, loose: set<nat>,
          uncounted: set<nat>)
    requires Consistent(k, m, loose, uncounted) && n in m.mapInfo
    requires info.service == m.mapInfo[n].service && info.fInTried == m.mapInfo[n].fInTried
    requires info.nRandomPos == m.mapInfo[n].nRandomPos && info.nRefCount == m.mapInfo[n].nRefCount
    requires info.nLastTry >= 0 && info.nLastSuccess >= 0 && (info.fInTried ==> info.nLastSuccess != 0)
    ensures Consistent(k, Update(m, n, info), loose, uncounted)
  {
    hide Kept, InfosOk, AddrsOk, RandomOk, TriedOk, CountsOk, PlacedOk;
    UpdateKeepsParts(k, m, n, info, uncounted);
    StatisticsInfoOk(m.mapInfo, m.nIdCount, loose, n, info);
    UpdateInfos(m.mapInfo, m.nIdCount, loose, n, info, loose);
    assert RefsOk(m.mapInfo[n := info], m.vvNew);
  }

  lemma {:induction false} StatisticsInfoOk(infos: Infos, nIdCount: nat, loose: set<nat>, n: nat, info: CAddrInfo)
    requires InfosOk(infos, nIdCount, loose) && n in infos
    requires info.fInTried == infos[n].fInTried && info.nRefCount == infos[n].nRefCount
    requires info.nLastTry >= 0 && info.nLastSuccess >= 0 && (info.fInTried ==> info.nLastSuccess != 0)
    ensures InfoOk(n, info, nIdCount, n in loose)
  {
    assert InfoOk(n, infos[n], nIdCount, n in loose);
  }

  lemma {:induction false} InfoIsOk(k: Keyed, m: Tables, n: nat, loose: set<nat>, uncounted: set<nat>)
    requires Consistent(k, m, loose, uncounted) && n in m.mapInfo
    ensures InfoOk(n, m.mapInfo[n], m.nIdCount, n in loose)
  {
  }

  /** `Find` through `mapAddr` reaches the entry with that address. */
  lemma {:induction false} FindIsRight(k: Keyed, m: Tables, net: NetAddr)
    requires Check(k, m) && net in m.mapAddr
    ensures m.mapAddr[net] in m.mapInfo && m.mapInfo[m.mapAddr[net]].service.net == net
  {
  }

  /** An entry of the new table is always found in one of its buckets. */
  lemma {:induction false} NewEntryIsFound(k: Keyed, m: Tables, n: nat)
    requires Check(k, m) && n in m.mapInfo && !m.mapInfo[n].fInTried
    ensures InSomeNewBucket(k, m, n)
  {
    InfoIsOk(k, m, n, {}, {});
    assert |SlotsOf(m.vvNew, n)| > 0;
    var s :| s in SlotsOf(m.vvNew, n);
    assert InBucket(k, m, n, s.bucket);
  }

  // ------------------------------------------------------------- changing a port

  /** Whether the slots that entry `n` has would be its slots under another address and port, too. */
  ghost predicate SlotsFit(k: Keyed, m: Tables, n: nat, service: CService)
    requires n in m.mapInfo
  {
    if m.mapInfo[n].fInTried then k.TriedSlot(service) == k.TriedSlot(m.mapInfo[n].service)
    else forall s :: s in SlotsOf(m.vvNew, n) ==> s == k.NewSlot(s.bucket, service)
  }

  /**
   `SetPort` on a known entry, which the code does without moving it: consistency stays exactly
   when the entry's slots are still the slots of its new address and port.
   */
  lemma {:induction false} SetPortKeepsCheckIff(k: Keyed, m: Tables, n: nat, info: CAddrInfo)
    requires Check(k, m) && n in m.mapInfo
    requires info.service.net == m.mapInfo[n].service.net && info.fInTried == m.mapInfo[n].fInTried
    requires info.nRandomPos == m.mapInfo[n].nRandomPos && info.nRefCount == m.mapInfo[n].nRefCount
    requires info.nLastTry >= 0 && info.nLastSuccess >= 0 && (info.fInTried ==> info.nLastSuccess != 0)
    ensures Check(k, Update(m, n, info)) <==> SlotsFit(k, m, n, info.service)
  {
    hide RandomOk, CountsOk, InfosOk, AddrsOk, RefsOk, TriedOk, PlacedOk, Kept, SlotsFit;
    StatisticsInfoOk(m.mapInfo, m.nIdCount, {}, n, info);
    UpdateInfos(m.mapInfo, m.nIdCount, {}, n, info, {});
    UpdateAddrs(m.mapInfo, m.mapAddr, n, info);
    UpdateRandom(m.mapInfo, m.vRandom, n, info);
    UpdateCounts(m.mapInfo, |m.vRandom|, m.nTried, m.nNew, n, info);
    SameRefs(m.mapInfo, m.vvNew, n, info);
    SetPortTables(k, m, n, info);
  }

  lemma {:induction false} SameRefs(infos: Infos, vvNew: map<Slot, nat>, n: nat, info: CAddrInfo)
    requires RefsOk(infos, vvNew) && n in infos
    requires info.fInTried == infos[n].fInTried && info.nRefCount == infos[n].nRefCount
    ensures RefsOk(infos[n := info], vvNew)
  {
  }

  lemma {:induction false} UpdateCounts(infos: Infos, nRandom: int, nTried: int, nNew: int, n: nat, info: CAddrInfo)
    requires CountsOk(infos, nRandom, nTried, nNew, {}) && n in infos && info.fInTried == infos[n].fInTried
    ensures CountsOk(infos[n := info], nRandom, nTried, nNew, {})
  {
    IdsAfterUpdate(infos, n, info);
    assert NewIds(infos[n := info]) == NewIds(infos) && TriedIds(infos[n := info]) == TriedIds(infos);
  }

  lemma {:induction false} SetPortTables(k: Keyed, m: Tables, n: nat, info: CAddrInfo)
    requires TriedOk(k, m.mapInfo, m.vvTried) && PlacedOk(k, m.mapInfo, m.vvNew) && n in m.mapInfo
    requires info.fInTried == m.mapInfo[n].fInTried
    ensures TriedOk(k, m.mapInfo[n := info], m.vvTried) && PlacedOk(k, m.mapInfo[n := info], m.vvNew) <==>
      SlotsFit(k, m, n, info.service)
  {
    var infos := m.mapInfo[n := info];
    if info.fInTried {
      var s := k.TriedSlot(m.mapInfo[n].service);
      assert s in m.vvTried && m.vvTried[s] == n;
      if TriedOk(k, infos, m.vvTried) {
        assert s == k.TriedSlot(infos[n].service);
      }
    } else if TriedOk(k, infos, m.vvTried) && PlacedOk(k, infos, m.vvNew) {
      forall s | s in SlotsOf(m.vvNew, n) ensures s == k.NewSlot(s.bucket, info.service) {
        assert infos[m.vvNew[s]] == info;
      }
    } else if SlotsFit(k, m, n, info.service) {
      forall s | s in m.vvNew ensures s == k.NewSlot(s.bucket, infos[m.vvNew[s]].service) {
        if m.vvNew[s] == n {
          assert s in SlotsOf(m.vvNew, n);
        }
      }
      assert PlacedOk(k, infos, m.vvNew);
      assert TriedOk(k, infos, m.vvTried);
    }
  }

  lemma {:induction false} OwnServiceFits(k: Keyed, m: Tables, n: nat)
    requires Check(k, m) && n in m.mapInfo
    ensures SlotsFit(k, m, n, m.mapInfo[n].service)
  {
  }

  /** The loop of `MakeTried` leaves no reference only if each of the entry's slots is at its position. */
  lemma {:induction false} LeavesAllOnlyIfFit(k: Keyed, m: Tables, n: nat)
    requires RefsOk(m.mapInfo, m.vvNew) && n in m.mapInfo && !m.mapInfo[n].fInTried && LeavesAllSlots(k, m, n)
    ensures SlotsFit(k, m, n, m.mapInfo[n].service)
  {
    hide RefsOk, SlotsOf;
    var freed := Freed(k, m, n, ADDRMAN_NEW_BUCKET_COUNT);
    assert |freed| == |SlotsOf(m.vvNew, n)| by {
      RefsAt(m.mapInfo, m.vvNew, n);
    }
    SameSize(freed, SlotsOf(m.vvNew, n));
  }

  lemma {:induction false} RefsAt(infos: Infos, vvNew: map<Slot, nat>, n: nat)
    requires RefsOk(infos, vvNew) && n in infos && !infos[n].fInTried
    ensures infos[n].nRefCount == |SlotsOf(vvNew, n)|
  {
  }

  lemma {:induction false} SameSize<T>(a: set<T>, b: set<T>)
    requires a <= b && |a| == |b|
    ensures a == b
  {
    assert b == a + (b - a);
    assert |b| == |a| + |b - a|;
  }

  /**
   `Good_` on a known address at a positive time, whatever the port: its assertion holds and the
   manager is consistent afterwards exactly when the entry's slots fit the port. Then the entry
   ends up tried.
   */
  lemma {:induction false} GoodKeepsCheckIff(k: Keyed, m: Tables, addr: CAddress, nTime: int)
    requires Check(k, m) && nTime > 0 && addr.service.net in m.mapAddr
    ensures m.mapAddr[addr.service.net] in m.mapInfo
    ensures var n, r := m.mapAddr[addr.service.net], Good(k, m, addr, nTime);
            && (GoodPasses(k, m, addr, nTime) && Check(k, r) <==> SlotsFit(k, m, n, addr.service))
            && (Check(k, r) && GoodPasses(k, m, addr, nTime) ==> n in r.mapInfo && r.mapInfo[n].fInTried)
  {
    hide InfosOk, AddrsOk, RandomOk, TriedOk, CountsOk, PlacedOk, RefsOk, MakeTried, InSomeNewBucket, SlotsFit, Detach,
      LeavesAllSlots, Kept;
    FindIsRight(k, m, addr.service.net);
    var n := m.mapAddr[addr.service.net];
    var info := Marked(m.mapInfo[n], addr, nTime);
    assert info.service == addr.service;
    var m1 := Update(m, n, info);
    SetPortKeepsCheckIff(k, m, n, info);
    SameRefs(m.mapInfo, m.vvNew, n, info);
    if !info.fInTried {
      SameSlots(k, m, n, info);
      if Check(k, m1) {
        NewEntryIsFound(k, m1, n);
        MakeTriedKeepsCheck(k, m1, n);
      }
      if LeavesAllSlots(k, m1, n) {
        LeavesAllOnlyIfFit(k, m1, n);
      }
    }
  }

  /** The assertion fails exactly for an entry of the new table with slots that fit the port and slots that do not. */
  lemma {:induction false} GoodAbortsIff(k: Keyed, m: Tables, addr: CAddress, nTime: int)
    requires Check(k, m) && addr.service.net in m.mapAddr
    ensures m.mapAddr[addr.service.net] in m.mapInfo
    ensures !GoodPasses(k, m, addr, nTime) <==>
      var n := m.mapAddr[addr.service.net];
      && !m.mapInfo[n].fInTried && !SlotsFit(k, m, n, addr.service)
      && exists s :: s in SlotsOf(m.vvNew, n) && s == k.NewSlot(s.bucket, addr.service)
  {
    hide InfosOk, AddrsOk, RandomOk, TriedOk, CountsOk, RefsOk, SlotsFit, Detach, LeavesAllSlots, Kept;
    FindIsRight(k, m, addr.service.net);
    var n := m.mapAddr[addr.service.net];
    var info := Marked(m.mapInfo[n], addr, nTime);
    var m1 := Update(m, n, info);
    if !info.fInTried {
      SameSlots(k, m, n, info);
      SameRefs(m.mapInfo, m.vvNew, n, info);
      if LeavesAllSlots(k, m1, n) {
        LeavesAllOnlyIfFit(k, m1, n);
      } else if SlotsFit(k, m1, n, info.service) {
        FitLeavesAll(k, m, m1, n);
      }
      if InSomeNewBucket(k, m1, n) {
        var b: nat :| b < ADDRMAN_NEW_BUCKET_COUNT && InBucket(k, m1, n, b);
        assert k.NewSlot(b, addr.service) in SlotsOf(m.vvNew, n);
      }
      if s :| s in SlotsOf(m.vvNew, n) && s == k.NewSlot(s.bucket, addr.service) {
        assert InBucket(k, m1, n, s.bucket);
      }
    }
  }

  lemma {:induction false} FitLeavesAll(k: Keyed, m: Tables, m1: Tables, n: nat)
    requires PlacedOk(k, m.mapInfo, m.vvNew) && RefsOk(m1.mapInfo, m1.vvNew) && m1.vvNew == m.vvNew
    requires n in m1.mapInfo && !m1.mapInfo[n].fInTried && SlotsFit(k, m1, n, m1.mapInfo[n].service)
    ensures LeavesAllSlots(k, m1, n)
  {
    hide Kept, TriedOk;
    assert Freed(k, m1, n, ADDRMAN_NEW_BUCKET_COUNT) == SlotsOf(m.vvNew, n);
  }

  lemma {:induction false} SameSlots(k: Keyed, m: Tables, n: nat, info: CAddrInfo)
    requires n in m.mapInfo && info.fInTried == m.mapInfo[n].fInTried && !info.fInTried
    ensures SlotsFit(k, Update(m, n, info), n, info.service) <==> SlotsFit(k, m, n, info.service)
  {
  }

  /** Entry `n` gets its slot, or, if it has none at all, goes: in no case does it stay without one. */
  lemma {:induction false} PlaceNewKeepsCheck(k: Keyed, m: Tables, n: nat, source: NetAddr, now: int,
          loose: set<nat>)
    requires Consistent(k, m, loose, {}) && n in m.mapInfo && loose <= {n}
    requires !m.mapInfo[n].fInTried && m.mapInfo[n].nRefCount < ADDRMAN_NEW_BUCKETS_PER_ADDRESS
    ensures Check(k, PlaceNew(k, m, n, source, now))
  {
    hide Kept, InfosOk, InfoOk, AddrsOk, RandomOk, TriedOk, CountsOk, PlacedOk, RefsOk, ClearNew, Delete;
    var service := m.mapInfo[n].service;
    var b := k.GetNewBucket(service.net, source);
    var s := k.NewSlot(b, service);
    NoSlotNoReference(k, m, n, loose);
    if s in m.vvNew {
      SlotHolder(k, m, s, loose, {});
    }
    if s in m.vvNew && m.vvNew[s] == n {
      assert loose == {};
    } else if s !in m.vvNew || IsTerrible(m.mapInfo[m.vvNew[s]], now) ||
      (m.mapInfo[m.vvNew[s]].nRefCount > 1 && m.mapInfo[n].nRefCount == 0) {
      ClearNewIsConsistent(k, m, s, loose, {});
      ClearNewSpares(k, m, s, loose, {});
      assert Spared(m, ClearNew(m, s), n);
      OccupyIsConsistent(k, ClearNew(m, s), n, s, loose, {});
      assert loose - {n} == {};
    } else if m.mapInfo[n].nRefCount == 0 {
      assert loose == {n};
      DeleteIsConsistent(k, m, n, loose, {});
      assert loose - {n} == {};
    }
  }

  lemma {:induction false} NoSlotNoReference(k: Keyed, m: Tables, n: nat, loose: set<nat>)
    requires Consistent(k, m, loose, {}) && n in m.mapInfo && loose <= {n} && !m.mapInfo[n].fInTried
    ensures m.mapInfo[n].nRefCount == 0 <==> n in loose
    ensures n !in loose ==> loose == {}
  {
    InfoIsOk(k, m, n, loose, {});
  }

  /** Whether `Add_` sets the port of a known entry: only if the address is its own source. */
  predicate SetsPort(m: Tables, addr: CAddress, routable: bool, source: NetAddr) {
    routable && addr.service.net in m.mapAddr && addr.service.net == source
  }

  /**
   `Add_`, whatever it is called with: the manager is consistent afterwards unless an address
   that is its own source is known under a port that the entry's slots do not fit.
   */
  lemma {:induction false} AddKeepsCheckIff(k: Keyed, m: Tables, addr: CAddress, routable: bool, source: NetAddr,
          nTimePenalty: int, chance: Chance)
    requires Check(k, m)
    ensures addr.service.net in m.mapAddr ==> m.mapAddr[addr.service.net] in m.mapInfo
    ensures Check(k, Add(k, m, addr, routable, source, nTimePenalty, chance).m) <==>
      (SetsPort(m, addr, routable, source) ==> SlotsFit(k, m, m.mapAddr[addr.service.net], addr.service))
  {
    hide Kept, InfosOk, AddrsOk, RandomOk, TriedOk, CountsOk, PlacedOk, RefsOk, PlaceNew, SlotsFit, Create;
    if addr.service.net in m.mapAddr {
      FindIsRight(k, m, addr.service.net);
      if routable {
        AddKnownKeepsCheckIff(k, m, addr, source, nTimePenalty, chance);
      }
    } else if routable {
      AddUnknownKeepsCheck(k, m, addr, source, nTimePenalty, chance);
    }
  }

  lemma {:induction false} AddUnknownKeepsCheck(k: Keyed, m: Tables, addr: CAddress, source: NetAddr,
          nTimePenalty: int, chance: Chance)
    requires Check(k, m) && addr.service.net !in m.mapAddr
    ensures Check(k, Add(k, m, addr, true, source, nTimePenalty, chance).m)
  {
    hide Kept, InfosOk, AddrsOk, RandomOk, TriedOk, CountsOk, PlacedOk, RefsOk, PlaceNew;
    CreateIsConsistent(k, m, addr, source);
    var n, c := m.nIdCount, Create(m, addr, source);
    var info := c.mapInfo[n].(nTime := Word(Max(0, addr.nTime - nTimePenalty)));
    StatisticsKeepConsistency(k, c, n, info, {n}, {n});
    var u := Update(c, n, info);
    CountIn(u.mapInfo, |u.vRandom|, u.nTried, u.nNew, {n}, n);
    assert {n} - {n} == {};
    PlaceNewKeepsCheck(k, u.(nNew := u.nNew + 1), n, source, chance.now, {n});
  }

  lemma {:induction false} AddKnownKeepsCheckIff(k: Keyed, m: Tables, addr: CAddress, source: NetAddr,
          nTimePenalty: int, chance: Chance)
    requires Check(k, m) && addr.service.net in m.mapAddr && m.mapAddr[addr.service.net] in m.mapInfo
    ensures Check(k, Add(k, m, addr, true, source, nTimePenalty, chance).m) <==>
      (SetsPort(m, addr, true, source) ==> SlotsFit(k, m, m.mapAddr[addr.service.net], addr.service))
  {
    hide Kept, InfosOk, AddrsOk, RandomOk, TriedOk, CountsOk, PlacedOk, RefsOk, PlaceNew, SlotsFit;
    FindIsRight(k, m, addr.service.net);
    var n := m.mapAddr[addr.service.net];
    var info := Refreshed(m.mapInfo[n], addr, source, nTimePenalty, chance.now);
    var m1 := Update(m, n, info);
    InfoIsOk(k, m, n, {}, {});
    SetPortKeepsCheckIff(k, m, n, info);
    OwnServiceFits(k, m, n);
    assert SetsPort(m, addr, true, source) ==> info.service == addr.service;
    assert !SetsPort(m, addr, true, source) ==> info.service == m.mapInfo[n].service;
    if MayMultiply(info, addr, chance.random) {
      if Check(k, m1) {
        PlaceNewKeepsCheck(k, m1, n, source, chance.now, {});
      } else {
        SameSlots(k, m, n, info);
        PlaceNewKeepsMisfit(k, m1, n, source, chance.now);
      }
    }
  }

  /** One more slot does not mend an entry with a slot that is not at its position. */
  lemma {:induction false} PlaceNewKeepsMisfit(k: Keyed, m: Tables, n: nat, source: NetAddr, now: int)
    requires n in m.mapInfo && !m.mapInfo[n].fInTried && m.mapInfo[n].nRefCount > 0
    requires !SlotsFit(k, m, n, m.mapInfo[n].service)
    ensures !Check(k, PlaceNew(k, m, n, source, now))
  {
    hide InfosOk, AddrsOk, RandomOk, TriedOk, CountsOk, RefsOk, Delete, Kept;
    var t :| t in SlotsOf(m.vvNew, n) && t != k.NewSlot(t.bucket, m.mapInfo[n].service);
    var r := PlaceNew(k, m, n, source, now);
    ClearNewTables(m, k.NewSlot(k.GetNewBucket(m.mapInfo[n].service.net, source), m.mapInfo[n].service), n);
    assert t in r.vvNew && r.vvNew[t] == n;
    assert n in r.mapInfo ==> r.mapInfo[n].service == m.mapInfo[n].service;
  }

  lemma {:induction false} ClearNewTables(m: Tables, s: Slot, n: nat)
    ensures var c := ClearNew(m, s);
            && (c.vvNew == m.vvNew || c.vvNew == m.vvNew - {s})
            && (n in c.mapInfo ==> n in m.mapInfo && c.mapInfo[n].service == m.mapInfo[n].service)
  {
  }

  lemma {:induction false} AttemptKeepsCheck(k: Keyed, m: Tables, service: CService, nTime: int)
    requires Check(k, m) && nTime >= 0
    ensures Check(k, Attempt(m, service, nTime))
  {
    hide InfosOk, AddrsOk, RandomOk, TriedOk, CountsOk, PlacedOk, RefsOk;
    if Attempt(m, service, nTime) != m {
      var n := m.mapAddr[service.net];
      InfoIsOk(k, m, n, {}, {});
      StatisticsKeepConsistency(k, m, n, m.mapInfo[n].(nLastTry := nTime, nAttempts := m.mapInfo[n].nAttempts + 1), {},
        {});
    }
  }

  lemma {:induction false} ConnectedKeepsCheck(k: Keyed, m: Tables, service: CService, nTime: int)
    requires Check(k, m)
    ensures Check(k, Connected(m, service, nTime))
  {
    hide InfosOk, AddrsOk, RandomOk, TriedOk, CountsOk, PlacedOk, RefsOk;
    if Connected(m, service, nTime) != m {
      var n := m.mapAddr[service.net];
      InfoIsOk(k, m, n, {}, {});
      StatisticsKeepConsistency(k, m, n, m.mapInfo[n].(nTime := Word(nTime)), {}, {});
    }
  }

  /** `vRandom` is permuted, and nothing else that can be looked up changes. */
  ghost predicate Shuffled(m: Tables, r: Tables) {
    && Kept(m, r) && SameButRandom(m.mapInfo, r.mapInfo)
    && r == m.(mapInfo := r.mapInfo, vRandom := r.vRandom)
    && multiset(r.vRandom) == multiset(m.vRandom)
  }

  lemma {:induction false} SwapShuffles(m: Tables, i: int, j: int)
    requires RandomOk(m.mapInfo, m.vRandom) && 0 <= i < |m.vRandom| && 0 <= j < |m.vRandom|
    ensures Shuffled(m, SwapRandom(m, i, j))
  {
    hide RandomOk, SwapRandom, SameButRandom;
    SwapMovesOnlyPlaces(m, i, j);
  }

  lemma {:induction false} ShuffledTwice(m: Tables, b: Tables, r: Tables)
    requires Shuffled(m, b) && Shuffled(b, r)
    ensures Shuffled(m, r)
  {
  }

  lemma {:induction false} ShuffleKeepsCheck(k: Keyed, m: Tables, randoms: seq<nat>)
    requires Check(k, m)
    ensures Check(k, Shuffle(m, randoms)) && Shuffled(m, Shuffle(m, randoms))
    decreases |randoms|
  {
    hide InfosOk, AddrsOk, TriedOk, CountsOk, PlacedOk, RefsOk, RandomOk, SwapRandom, Shuffled;
    if randoms == [] {
      NothingShuffled(m);
    } else {
      var i := |randoms| - 1;
      ShuffleKeepsCheck(k, m, randoms[..i]);
      var b := Shuffle(m, randoms[..i]);
      if i < |b.vRandom| {
        var j := i + randoms[i] % (|b.vRandom| - i);
        SwapKeepsConsistency(k, b, i, j, {}, {});
        SwapShuffles(b, i, j);
        ShuffledTwice(m, b, SwapRandom(b, i, j));
      }
    }
  }

  lemma {:induction false} NothingShuffled(m: Tables)
    ensures Shuffled(m, m)
  {
  }

  // --------------------------------------------------------------------- runs

  datatype Op =
    | OpAdd(addr: CAddress, routable: bool, source: NetAddr, nTimePenalty: int, chance: Chance)
    | OpGood(addr: CAddress, time: int)
    | OpAttempt(service: CService, time: int)
    | OpConnected(service: CService, time: int)
    | OpGetAddr(randoms: seq<nat>)

  ghost function Step(k: Keyed, m: Tables, op: Op): Tables {
    match op
    case OpAdd(addr, routable, source, nTimePenalty, chance) => Add(k, m, addr, routable, source, nTimePenalty,
      chance).m
    case OpGood(addr, time) => Good(k, m, addr, time)
    case OpAttempt(service, time) => Attempt(m, service, time)
    case OpConnected(service, time) => Connected(m, service, time)
    case OpGetAddr(randoms) => Shuffle(m, randoms)
  }

  /** A time that is a clock reading. */
  predicate ClockOk(op: Op) {
    match op
    case OpGood(_, time) => time > 0
    case OpAttempt(_, time) => time >= 0
    case _ => true
  }

  /** The port of a known address, where the operation sets it, fits the slots that the entry has. */
  ghost predicate PortFits(k: Keyed, m: Tables, op: Op) {
    match op
    case OpAdd(addr, routable, source, _, _) =>
      SetsPort(m, addr, routable, source) ==> KnownFits(k, m, addr.service)
    case OpGood(addr, _) => addr.service.net in m.mapAddr ==> KnownFits(k, m, addr.service)
    case _ => true
  }

  ghost predicate KnownFits(k: Keyed, m: Tables, service: CService) {
    && service.net in m.mapAddr && m.mapAddr[service.net] in m.mapInfo
    && SlotsFit(k, m, m.mapAddr[service.net], service)
  }

  /** The operation passes its assertions and leaves a consistent manager. */
  ghost predicate StepIsSafe(k: Keyed, m: Tables, op: Op) {
    (op.OpGood? ==> GoodPasses(k, m, op.addr, op.time)) && Check(k, Step(k, m, op))
  }

  lemma {:induction false} StepIsSafeIff(k: Keyed, m: Tables, op: Op)
    requires Check(k, m) && ClockOk(op)
    ensures StepIsSafe(k, m, op) <==> PortFits(k, m, op)
  {
    hide Check, PlaceNew, Shuffle, SlotsFit, Good, Add, Attempt, Connected, SetsPort;
    match op
    case OpAdd(addr, routable, source, nTimePenalty, chance) =>
      AddKeepsCheckIff(k, m, addr, routable, source, nTimePenalty, chance);
      SetsKnownPort(m, addr, routable, source);
    case OpGood(addr, time) =>
      if addr.service.net in m.mapAddr {
        GoodKeepsCheckIff(k, m, addr, time);
      } else {
        GoodOfUnknown(k, m, addr, time);
      }
    case OpAttempt(service, time) => AttemptKeepsCheck(k, m, service, time);
    case OpConnected(service, time) => ConnectedKeepsCheck(k, m, service, time);
    case OpGetAddr(randoms) => ShuffleKeepsCheck(k, m, randoms);
  }

  lemma {:induction false} SetsKnownPort(m: Tables, addr: CAddress, routable: bool, source: NetAddr)
    ensures SetsPort(m, addr, routable, source) ==> addr.service.net in m.mapAddr
  {
  }

  lemma {:induction false} GoodOfUnknown(k: Keyed, m: Tables, addr: CAddress, nTime: int)
    requires addr.service.net !in m.mapAddr
    ensures Good(k, m, addr, nTime) == m && GoodPasses(k, m, addr, nTime)
  {
  }

  ghost function Run(k: Keyed, m: Tables, ops: seq<Op>): Tables
    decreases |ops|
  {
    if ops == [] then m else Run(k, Step(k, m, ops[0]), ops[1..])
  }

  ghost predicate RunIsSafe(k: Keyed, m: Tables, ops: seq<Op>)
    decreases |ops|
  {
    ops != [] ==> StepIsSafe(k, m, ops[0]) && RunIsSafe(k, Step(k, m, ops[0]), ops[1..])
  }

  ghost predicate PortsFit(k: Keyed, m: Tables, ops: seq<Op>)
    decreases |ops|
  {
    ops != [] ==> PortFits(k, m, ops[0]) && PortsFit(k, Step(k, m, ops[0]), ops[1..])
  }

  /** A run passes every assertion and keeps `Check_` throughout if and only if each port that it sets fits. */
  lemma {:induction false} RunIsSafeIff(k: Keyed, m: Tables, ops: seq<Op>)
    requires Check(k, m) && forall i :: 0 <= i < |ops| ==> ClockOk(ops[i])
    ensures RunIsSafe(k, m, ops) <==> PortsFit(k, m, ops)
    ensures RunIsSafe(k, m, ops) ==> Check(k, Run(k, m, ops))
    decreases |ops|
  {
    hide Check, Step, PortFits, ClockOk;
    if ops != [] {
      StepIsSafeIff(k, m, ops[0]);
      if StepIsSafe(k, m, ops[0]) {
        RunIsSafeIff(k, Step(k, m, ops[0]), ops[1..]);
      }
    }
  }

  /** An address that is always reported with one and the same port never misfits. */
  predicate OnePort(portOf: NetAddr -> nat, op: Op) {
    match op
    case OpAdd(addr, _, _, _, _) => addr.service.port == portOf(addr.service.net)
    case OpGood(addr, _) => addr.service.port == portOf(addr.service.net)
    case _ => true
  }

  ghost predicate PortsOk(portOf: NetAddr -> nat, m: Tables) {
    forall n :: n in m.mapInfo ==> m.mapInfo[n].service.port == portOf(m.mapInfo[n].service.net)
  }

  lemma {:induction false} OnePortFits(k: Keyed, portOf: NetAddr -> nat, m: Tables, op: Op)
    requires Check(k, m) && PortsOk(portOf, m) && OnePort(portOf, op)
    ensures PortFits(k, m, op)
  {
    hide InfosOk, AddrsOk, RandomOk, TriedOk, CountsOk, PlacedOk, RefsOk, SlotsFit;
    if (op.OpAdd? || op.OpGood?) && op.addr.service.net in m.mapAddr {
      FindIsRight(k, m, op.addr.service.net);
      OwnServiceFits(k, m, m.mapAddr[op.addr.service.net]);
    }
  }

  lemma {:induction false} OnePortStays(k: Keyed, portOf: NetAddr -> nat, m: Tables, op: Op)
    requires Check(k, m) && PortsOk(portOf, m) && OnePort(portOf, op)
    ensures PortsOk(portOf, Step(k, m, op))
  {
    hide InfosOk, AddrsOk, TriedOk, CountsOk, PlacedOk, RefsOk, RandomOk, PlaceNew, Shuffle, MakeTried, InSomeNewBucket;
    if (op.OpAdd? || op.OpGood?) && op.addr.service.net in m.mapAddr {
      FindIsRight(k, m, op.addr.service.net);
    }
    if op.OpGetAddr? {
      ShuffleKeepsCheck(k, m, op.randoms);
    }
  }

  lemma {:induction false} OnePortRunFits(k: Keyed, portOf: NetAddr -> nat, m: Tables, ops: seq<Op>)
    requires Check(k, m) && PortsOk(portOf, m)
    requires forall i :: 0 <= i < |ops| ==> OnePort(portOf, ops[i]) && ClockOk(ops[i])
    ensures PortsFit(k, m, ops)
    decreases |ops|
  {
    hide Check, Step, PortsOk, OnePort, ClockOk, PortFits;
    if ops != [] {
      OnePortFits(k, portOf, m, ops[0]);
      StepIsSafeIff(k, m, ops[0]);
      OnePortStays(k, portOf, m, ops[0]);
      OnePortRunFits(k, portOf, Step(k, m, ops[0]), ops[1..]);
    }
  }

  lemma {:induction false} EmptyIsConsistent(k: Keyed)
    ensures Check(k, EMPTY)
  {
    assert NewIds(EMPTY.mapInfo) == {} && TriedIds(EMPTY.mapInfo) == {};
  }

  /** Every run from an empty manager, whatever the hashes and random numbers, is safe if addresses keep their ports. */
  lemma {:induction false} EveryRunIsConsistent(k: Keyed, portOf: NetAddr -> nat, ops: seq<Op>)
    requires forall i :: 0 <= i < |ops| ==> OnePort(portOf, ops[i]) && ClockOk(ops[i])
    ensures RunIsSafe(k, EMPTY, ops) && Check(k, Run(k, EMPTY, ops))
  {
    hide Check, OnePort, ClockOk;
    EmptyIsConsistent(k);
    OnePortRunFits(k, portOf, EMPTY, ops);
    RunIsSafeIff(k, EMPTY, ops);
  }

  /** One such case: a manager that knows one new entry, marked good under another port. */
  lemma {:induction false} PortChangeBreaksCheck()
    ensures var k := Keyed(_ => 0, (_, _) => 0, (fNew, b, s: CService) => s.port);
            var info := CAddrInfo(CService(5, 0), 0, 9, 5, 0, 0, 0, 1, false, 0);
            var m := Tables(1, map[0 := info], map[5 := 0], [0], 0, 1, map[], map[Slot(0, 0) := 0]);
            Check(k, m) && !Check(k, Good(k, m, CAddress(CService(5, 1), 0, 9), 10))
  {
    var k := Keyed(_ => 0, (_, _) => 0, (fNew, b, s: CService) => s.port);
    var info := CAddrInfo(CService(5, 0), 0, 9, 5, 0, 0, 0, 1, false, 0);
    var infos := map[0 := info];
    var vvNew := map[Slot(0, 0) := 0];
    var m := Tables(1, infos, map[5 := 0], [0], 0, 1, map[], vvNew);
    assert k.NewSlot(0, CService(5, 0)) == Slot(0, 0) && k.NewSlot(0, CService(5, 1)) == Slot(0, 1);
    assert Check(k, m) by {
      assert NewIds(infos) == {0} && TriedIds(infos) == {} && SlotsOf(vvNew, 0) == {Slot(0, 0)};
    }
    var moved := Marked(info, CAddress(CService(5, 1), 0, 9), 10);
    SetPortIsNotFound(k, m, moved);
  }

  lemma {:induction false} SetPortIsNotFound(k: Keyed, m: Tables, moved: CAddrInfo)
    requires m.vvNew == map[Slot(0, 0) := 0] && 0 in m.mapInfo && m.mapAddr == map[5 := 0]
    requires moved == Marked(m.mapInfo[0], CAddress(CService(5, 1), 0, 9), 10) && !moved.fInTried
    requires forall b :: k.NewSlot(b, moved.service) != Slot(0, 0)
    ensures Good(k, m, CAddress(CService(5, 1), 0, 9), 10) == Update(m, 0, moved)
    ensures !Check(k, Update(m, 0, moved))
  {
    hide MakeTried;
    var m1 := Update(m, 0, moved);
    assert !InSomeNewBucket(k, m1, 0);
    assert Slot(0, 0) in m1.vvNew;
  }

  /** Another: one of the entry's two slots fits the other port, one does not, and the assertion fails. */
  lemma {:induction false} PortChangeFailsAssertion()
    ensures var k := Keyed(_ => 0, (_, _) => 0, (fNew, b, s: CService) => if b == 1 then s.port else 0);
            var info := CAddrInfo(CService(5, 0), 0, 9, 5, 0, 0, 0, 2, false, 0);
            var m := Tables(1, map[0 := info], map[5 := 0], [0], 0, 1, map[], map[Slot(0, 0) := 0, Slot(1, 0) := 0]);
            Check(k, m) && !GoodPasses(k, m, CAddress(CService(5, 1), 0, 9), 10)
  {
    hide GoodPasses;
    var k := Keyed(_ => 0, (_, _) => 0, (fNew, b, s: CService) => if b == 1 then s.port else 0);
    var info := CAddrInfo(CService(5, 0), 0, 9, 5, 0, 0, 0, 2, false, 0);
    var infos, vvNew := map[0 := info], map[Slot(0, 0) := 0, Slot(1, 0) := 0];
    var m := Tables(1, infos, map[5 := 0], [0], 0, 1, map[], vvNew);
    assert k.NewSlot(0, CService(5, 0)) == Slot(0, 0) && k.NewSlot(1, CService(5, 0)) == Slot(1, 0);
    assert Check(k, m) by {
      assert NewIds(infos) == {0} && TriedIds(infos) == {} && SlotsOf(vvNew, 0) == {Slot(0, 0), Slot(1, 0)};
    }
    assert k.NewSlot(0, CService(5, 1)) == Slot(0, 0) && k.NewSlot(1, CService(5, 1)) == Slot(1, 1);
    GoodAbortsIff(k, m, CAddress(CService(5, 1), 0, 9), 10);
  }

  /** Promoting an entry loses no other, except the holder of the one new slot that an evicted entry takes. */
  lemma {:induction false} MakeTriedLosesAtMostOne(k: Keyed, m: Tables, n: nat, x: nat)
    requires Check(k, m) && n in m.mapInfo && !m.mapInfo[n].fInTried && m.mapInfo[n].nLastSuccess != 0
    requires x in m.mapInfo && x !in MakeTried(k, m, n).mapInfo
    ensures var s := k.TriedSlot(m.mapInfo[n].service);
            s in m.vvTried && m.vvTried[s] in m.mapInfo &&
            var evicted := m.mapInfo[m.vvTried[s]];
            var u := k.NewSlot(k.GetNewBucket(evicted.service.net, evicted.source), evicted.service);
            x != m.vvTried[s] && x != n && u in m.vvNew && m.vvNew[u] == x
  {
    hide Kept, InfosOk, InfoOk, AddrsOk, PlacedOk, RefsOk, RandomOk, CountsOk, ClearNew, Freed;
    DetachIsConsistent(k, m, n);
    var d, s := Detach(k, m, n), k.TriedSlot(m.mapInfo[n].service);
    if s in m.vvTried {
      UntryIsConsistent(k, d, s, {n});
      var o := d.vvTried[s];
      var u := k.NewSlot(k.GetNewBucket(d.mapInfo[o].service.net, d.mapInfo[o].source), d.mapInfo[o].service);
      var t, l := Untry(d, s), {n} + {o};
      var c := ClearNew(t, u);
      ClearNewSpares(k, t, u, l, l);
      if u in t.vvNew {
        SlotHolder(k, t, u, l, l);
      }
      assert Spared(t, c, o) && Spared(t, c, n);
      assert (u in t.vvNew && t.vvNew[u] == x) || Spared(t, c, x);
    }
  }
}
