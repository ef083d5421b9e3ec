/**
 Saving the address manager and reading it back: the file lists the entries without ids, and the
 new table as indexes into that list; reading rebuilds ids, address map, random order and tried table.
 Ids come back in the order of the file, so that what is read is what was written up to a renaming.
 Files that nobody wrote are the subject of `AddrManLoad`.
 */
module AddrManFile {
  import opened AddrMan

  /** What is stored of an entry. */
  datatype StoredInfo = StoredInfo(service: CService, nServices: nat, nTime: int, source: NetAddr, nLastSuccess: int,
    nAttempts: int)

  /** The bucket count is given as it is after its mask has been taken off. */
  datatype PeersFile = PeersFile(nVersion: nat, nUBuckets: nat, newInfos: seq<StoredInfo>, triedInfos: seq<StoredInfo>,
    buckets: seq<seq<int>>)

  function Store(info: CAddrInfo): StoredInfo {
    StoredInfo(info.service, info.nServices, info.nTime, info.source, info.nLastSuccess, info.nAttempts)
  }

  /** The memory-only fields start afresh, and only the low service bits are taken over. */
  function Load(stored: StoredInfo, nRandomPos: int, fInTried: bool): CAddrInfo {
    CAddrInfo(stored.service, stored.nServices % 256, stored.nTime, stored.source, 0, stored.nLastSuccess,
      stored.nAttempts, 0, fInTried, nRandomPos)
  }

  // Writing.

  /** The condition of the two loops that write entries. */
  predicate IsListed(info: CAddrInfo, tried: bool) {
    if tried then info.fInTried else info.nRefCount != 0
  }

  /** The listed ids below `n`, in the order of the map. */
  function Order(infos: Infos, tried: bool, n: nat): seq<nat> {
    if n == 0 then [] else Order(infos, tried, n - 1) + if n - 1 in infos && IsListed(infos[n - 1], tried) then [n - 1]
      else []
  }

  /** The listed entries, in the same order. */
  function Listed(infos: Infos, tried: bool, n: nat): seq<StoredInfo> {
    if n == 0 then [] else
      Listed(infos, tried, n - 1) + if n - 1 in infos && IsListed(infos[n - 1], tried) then [Store(infos[n - 1])]
        else []
  }

  lemma {:induction false} ListedInOrder(infos: Infos, tried: bool, n: nat)
    ensures |Listed(infos, tried, n)| == |Order(infos, tried, n)|
    ensures forall i :: 0 <= i < |Order(infos, tried, n)| ==> var id := Order(infos, tried, n)[i];
      id in infos && Listed(infos, tried, n)[i] == Store(infos[id])
  {
    hide Store, IsListed;
    if n > 0 {
      ListedInOrder(infos, tried, n - 1);
    }
  }

  /** `mapUnkIds`: how many listed entries have a smaller id. */
  function UnkId(infos: Infos, n: nat): nat {
    |Order(infos, false, n)|
  }

  /** The indexes written for the first `p` positions of a bucket. */
  function BucketList(infos: Infos, vvNew: map<Slot, nat>, bucket: nat, p: nat): seq<int> {
    if p == 0 then [] else
      BucketList(infos, vvNew, bucket, p - 1)
      + if Slot(bucket, p - 1) in vvNew then [UnkId(infos, vvNew[Slot(bucket, p - 1)])] else []
  }

  function Buckets(infos: Infos, vvNew: map<Slot, nat>, n: nat): (buckets: seq<seq<int>>)
    ensures |buckets| == n
    ensures forall b :: 0 <= b < n ==> buckets[b] == BucketList(infos, vvNew, b, ADDRMAN_BUCKET_SIZE)
  {
    if n == 0 then [] else Buckets(infos, vvNew, n - 1) + [BucketList(infos, vvNew, n - 1, ADDRMAN_BUCKET_SIZE)]
  }

  lemma {:induction false} OrderIsListed(infos: Infos, tried: bool, n: nat, i: nat)
    requires i < |Order(infos, tried, n)|
    ensures var id := Order(infos, tried, n)[i];
      id < n && id in infos && IsListed(infos[id], tried) && |Order(infos, tried, id)| == i
  {
    if i < |Order(infos, tried, n - 1)| {
      OrderIsListed(infos, tried, n - 1, i);
    }
  }

  lemma {:induction false} ListedIsInOrder(infos: Infos, tried: bool, n: nat, id: nat)
    requires id < n && id in infos && IsListed(infos[id], tried)
    ensures |Order(infos, tried, id)| < |Order(infos, tried, n)| &&
      Order(infos, tried, n)[|Order(infos, tried, id)|] == id
  {
    if id < n - 1 {
      ListedIsInOrder(infos, tried, n - 1, id);
    }
  }

  function Serialize(m: Tables): PeersFile {
    PeersFile(1, ADDRMAN_NEW_BUCKET_COUNT, Listed(m.mapInfo, false, m.nIdCount), Listed(m.mapInfo, true, m.nIdCount),
              Buckets(m.mapInfo, m.vvNew, ADDRMAN_NEW_BUCKET_COUNT))
  }

  // Reading.

  function Enter(m: Tables, n: nat, info: CAddrInfo): Tables {
    m.(mapInfo := m.mapInfo[n := info], mapAddr := m.mapAddr[info.service.net := n], vRandom := m.vRandom + [n])
  }

  /** One new entry; if the stored table cannot be used, it gets the slot of its primary source if that is free. */
  function AddNew(k: Keyed, m: Tables, n: nat, stored: StoredInfo, usable: bool): Tables {
    var r := Enter(m, n, Load(stored, |m.vRandom|, false));
    var s := k.NewSlot(k.GetNewBucket(stored.service.net, stored.source), stored.service);
    if usable || s in r.vvNew then r else Take(r, n, s)
  }

  function Take(m: Tables, n: nat, s: Slot): Tables
    requires n in m.mapInfo
  {
    m.(mapInfo := m.mapInfo[n := m.mapInfo[n].(nRefCount := m.mapInfo[n].nRefCount + 1)], vvNew := m.vvNew[s := n])
  }

  function ReadNew(k: Keyed, m: Tables, newInfos: seq<StoredInfo>, usable: bool): Tables {
    if newInfos == [] then m else
      AddNew(k, ReadNew(k, m, newInfos[..|newInfos| - 1], usable), |newInfos| - 1, newInfos[|newInfos| - 1], usable)
  }

  /** One tried entry; it is lost if its slot is taken. */
  function AddTried(k: Keyed, m: Tables, stored: StoredInfo): Tables {
    var s := k.TriedSlot(stored.service);
    if s in m.vvTried then m.(nTried := m.nTried - 1) else
      Enter(m, m.nIdCount, Load(stored, |m.vRandom|, true)).(vvTried := m.vvTried[s := m.nIdCount],
        nIdCount := m.nIdCount + 1)
  }

  function ReadTried(k: Keyed, m: Tables, triedInfos: seq<StoredInfo>): Tables {
    if triedInfos == [] then m else
      AddTried(k, ReadTried(k, m, triedInfos[..|triedInfos| - 1]), triedInfos[|triedInfos| - 1])
  }

  /** One index of a bucket; those out of range, in taken slots or of entries with enough references are skipped. */
  function PlaceIndex(k: Keyed, m: Tables, bucket: nat, nIndex: int, usable: bool): Tables {
    if !(0 <= nIndex < m.nNew) || nIndex !in m.mapInfo then m else
      var s := k.NewSlot(bucket, m.mapInfo[nIndex].service);
      if usable && s !in m.vvNew && m.mapInfo[nIndex].nRefCount < ADDRMAN_NEW_BUCKETS_PER_ADDRESS then
        Take(m, nIndex, s) else m
  }

  function ReadBucket(k: Keyed, m: Tables, bucket: nat, list: seq<int>, usable: bool): Tables {
    if list == [] then m else
      PlaceIndex(k, ReadBucket(k, m, bucket, list[..|list| - 1], usable), bucket, list[|list| - 1], usable)
  }

  function ReadBuckets(k: Keyed, m: Tables, buckets: seq<seq<int>>, usable: bool): Tables {
    if buckets == [] then m else
      ReadBucket(k, ReadBuckets(k, m, buckets[..|buckets| - 1], usable), |buckets| - 1, buckets[|buckets| - 1], usable)
  }

  predicate IsUnplaced(m: Tables, n: nat) {
    n in m.mapInfo && !m.mapInfo[n].fInTried && m.mapInfo[n].nRefCount == 0
  }

  /** New entries that found no slot are deleted. */
  function Prune(m: Tables, n: nat): Tables {
    if n == 0 then m else
      var r := Prune(m, n - 1);
      if IsUnplaced(r, n - 1) && r.vRandom != [] then Delete(r, n - 1) else r
  }

  /** The stored table is used only if the version is known and the bucket count has not changed. */
  predicate IsUsable(f: PeersFile) {
    f.nVersion == 1 && f.nUBuckets == ADDRMAN_NEW_BUCKET_COUNT
  }

  function WithNew(k: Keyed, f: PeersFile): Tables {
    ReadNew(k, EMPTY.(nNew := |f.newInfos|, nTried := |f.triedInfos|), f.newInfos,
      IsUsable(f)).(nIdCount := |f.newInfos|)
  }

  function WithTried(k: Keyed, f: PeersFile): Tables {
    ReadTried(k, WithNew(k, f), f.triedInfos)
  }

  function WithBuckets(k: Keyed, f: PeersFile): Tables {
    ReadBuckets(k, WithTried(k, f), f.buckets, IsUsable(f))
  }

  /** Reading into an empty manager. */
  function Unserialize(k: Keyed, f: PeersFile): Tables {
    Prune(WithBuckets(k, f), WithBuckets(k, f).nIdCount)
  }

  // Reading never breaks the random order, whatever the file says: the deletions at the end are safe.

  ghost predicate IdsBelow(m: Tables, n: nat) {
    RandomOk(m.mapInfo, m.vRandom) && forall id :: id in m.mapInfo ==> id < n
  }

  lemma {:induction false} AddNewKeepsOrder(k: Keyed, m: Tables, n: nat, stored: StoredInfo, usable: bool)
    requires IdsBelow(m, n)
    ensures IdsBelow(AddNew(k, m, n, stored, usable), n + 1)
  {
    hide RandomOk, Keyed.NewSlot, Keyed.GetNewBucket;
    var info := Load(stored, |m.vRandom|, false);
    AddRandom(m.mapInfo, m.vRandom, n, info);
    UpdateRandom(m.mapInfo[n := info], m.vRandom + [n], n, info.(nRefCount := 1));
  }

  lemma {:induction false} AddTriedKeepsOrder(k: Keyed, m: Tables, stored: StoredInfo)
    requires IdsBelow(m, m.nIdCount)
    ensures IdsBelow(AddTried(k, m, stored), AddTried(k, m, stored).nIdCount)
  {
    hide RandomOk, Keyed.TriedSlot;
    AddRandom(m.mapInfo, m.vRandom, m.nIdCount, Load(stored, |m.vRandom|, true));
  }

  lemma {:induction false} PlaceKeepsOrder(k: Keyed, m: Tables, bucket: nat, nIndex: int, usable: bool)
    requires RandomOk(m.mapInfo, m.vRandom)
    ensures var r := PlaceIndex(k, m, bucket, nIndex, usable); RandomOk(r.mapInfo, r.vRandom)
  {
    hide RandomOk, Keyed.NewSlot;
    if nIndex in m.mapInfo {
      UpdateRandom(m.mapInfo, m.vRandom, nIndex, m.mapInfo[nIndex].(nRefCount := m.mapInfo[nIndex].nRefCount + 1));
    }
  }

  lemma {:induction false} DeleteKeepsOrder(m: Tables, n: nat)
    requires RandomOk(m.mapInfo, m.vRandom) && n in m.mapInfo
    ensures m.vRandom != [] && RandomOk(Delete(m, n).mapInfo, Delete(m, n).vRandom)
  {
    hide Kept, RandomOk, SwapRandom, SameButRandom;
    EntryHasPlace(m.mapInfo, m.vRandom, n);
    var i, last := m.mapInfo[n].nRandomPos, |m.vRandom| - 1;
    var s := SwapRandom(m, i, last);
    SwapMovesOnlyPlaces(m, i, last);
    DropRandom(s.mapInfo, s.vRandom, n);
  }

  // The renaming.

  /** `order` lists the ids of `infos`, each once, and `rename` is its inverse. */
  ghost predicate Renames(infos: Infos, order: seq<nat>, rename: map<nat, nat>) {
    && rename.Keys == infos.Keys
    && (forall i :: 0 <= i < |order| ==> order[i] in infos && rename[order[i]] == i)
    && (forall n :: n in infos ==> rename[n] < |order| && order[rename[n]] == n)
  }

  /** An entry as it comes back, before it has its references. */
  function Reborn(info: CAddrInfo, nRandomPos: int, nRefCount: int): CAddrInfo {
    info.(nServices := info.nServices % 256, nLastTry := 0, nRandomPos := nRandomPos, nRefCount := nRefCount)
  }

  /** The manager as read back: all ids renamed, the random order that of the file, nothing else changed. */
  ghost predicate Renamed(m: Tables, r: Tables, order: seq<nat>, rename: map<nat, nat>) {
    && Renames(m.mapInfo, order, rename)
    && (forall i: nat :: i in r.mapInfo <==> i < |order|)
    && (forall i :: 0 <= i < |order| ==> r.mapInfo[i] == Reborn(m.mapInfo[order[i]], i, m.mapInfo[order[i]].nRefCount))
    && (forall a :: a in r.mapAddr <==> a in m.mapAddr)
    && (forall a :: a in m.mapAddr ==> m.mapAddr[a] in rename && r.mapAddr[a] == rename[m.mapAddr[a]])
    && |r.vRandom| == |order| && (forall i :: 0 <= i < |order| ==> r.vRandom[i] == i)
    && (forall s :: s in r.vvTried <==> s in m.vvTried) &&
      (forall s :: s in m.vvTried ==> m.vvTried[s] in rename && r.vvTried[s] == rename[m.vvTried[s]])
    && (forall s :: s in r.vvNew <==> s in m.vvNew) &&
      (forall s :: s in m.vvNew ==> m.vvNew[s] in rename && r.vvNew[s] == rename[m.vvNew[s]])
    && r.nIdCount == |order| && r.nNew == m.nNew && r.nTried == m.nTried
  }

  // The round trip: loading the entries.

  function Renaming(infos: Infos, n: nat): map<nat, nat> {
    map x | x in infos :: if infos[x].fInTried then |Order(infos, false, n)| + |Order(infos, true, x)|
      else |Order(infos, false, x)|
  }

  function WholeOrder(m: Tables): seq<nat> {
    Order(m.mapInfo, false, m.nIdCount) + Order(m.mapInfo, true, m.nIdCount)
  }

  /** In a consistent manager an entry is listed as new or as tried, never both. */
  lemma {:induction false} ListedOnce(infos: Infos, nIdCount: nat, n: nat)
    requires InfosOk(infos, nIdCount, {}) && n in infos
    ensures n < nIdCount && IsListed(infos[n], infos[n].fInTried) && !IsListed(infos[n], !infos[n].fInTried)
    ensures infos[n].fInTried ==> infos[n].nRefCount == 0
  {
    assert InfoOk(n, infos[n], nIdCount, false);
  }

  lemma {:induction false} OrderRenames(m: Tables)
    requires InfosOk(m.mapInfo, m.nIdCount, {})
    ensures Renames(m.mapInfo, WholeOrder(m), Renaming(m.mapInfo, m.nIdCount))
    ensures forall i :: 0 <= i < |WholeOrder(m)| ==> WholeOrder(m)[i] in m.mapInfo
    ensures forall i :: 0 <= i < |WholeOrder(m)| ==>
      (m.mapInfo[WholeOrder(m)[i]].fInTried <==> i >= |Order(m.mapInfo, false, m.nIdCount)|)
  {
    hide InfosOk, IsListed, Order;
    var infos, n, order, rename := m.mapInfo, m.nIdCount, WholeOrder(m), Renaming(m.mapInfo, m.nIdCount);
    var count := |Order(infos, false, n)|;
    forall i | 0 <= i < |order|
      ensures order[i] in infos && rename[order[i]] == i && (infos[order[i]].fInTried <==> i >= count)
    {
      OrderIsListed(infos, i >= count, n, if i >= count then i - count else i);
      ListedOnce(infos, n, order[i]);
    }
    forall x | x in infos ensures rename[x] < |order| && order[rename[x]] == x {
      ListedOnce(infos, n, x);
      ListedIsInOrder(infos, infos[x].fInTried, n, x);
    }
  }

  function ListedIds(infos: Infos, tried: bool, n: nat): set<nat> {
    set x | x in infos && x < n && IsListed(infos[x], tried)
  }

  lemma {:induction false} NextListed(infos: Infos, tried: bool, n: nat)
    ensures ListedIds(infos, tried, 0) == {} && n !in ListedIds(infos, tried, n)
    ensures ListedIds(infos, tried, n + 1) == if n in infos &&
      IsListed(infos[n], tried) then ListedIds(infos, tried, n) + {n} else ListedIds(infos, tried, n)
  {
    hide IsListed;
  }

  lemma {:induction false} OrderCounts(infos: Infos, tried: bool, n: nat)
    ensures |Order(infos, tried, n)| == |ListedIds(infos, tried, n)|
  {
    hide IsListed, ListedIds;
    if n == 0 {
      NextListed(infos, tried, 0);
    } else {
      OrderCounts(infos, tried, n - 1);
      NextListed(infos, tried, n - 1);
    }
  }

  /** The counters are right, so the assertions in the writing loops do not fire. */
  lemma {:induction false} CountersMatch(m: Tables)
    requires InfosOk(m.mapInfo, m.nIdCount, {}) && CountsOk(m.mapInfo, |m.vRandom|, m.nTried, m.nNew, {})
    ensures |Order(m.mapInfo, false, m.nIdCount)| == m.nNew && |Order(m.mapInfo, true, m.nIdCount)| == m.nTried
  {
    hide InfosOk, IsListed, Order;
    var infos, n := m.mapInfo, m.nIdCount;
    OrderCounts(infos, false, n);
    OrderCounts(infos, true, n);
    forall x | x in infos
      ensures x < n && (IsListed(infos[x], false) <==> !infos[x].fInTried) &&
        (IsListed(infos[x], true) <==> infos[x].fInTried) {
      ListedOnce(infos, n, x);
    }
    assert ListedIds(infos, false, n) == NewIds(infos);
    assert ListedIds(infos, true, n) == TriedIds(infos);
  }

  /** The first `i` entries have been read. */
  ghost predicate Loaded(m: Tables, r: Tables, order: seq<nat>, rename: map<nat, nat>, i: nat)
    requires Renames(m.mapInfo, order, rename) && i <= |order|
  {
    && (forall j: nat :: j in r.mapInfo <==> j < i)
    && (forall j :: 0 <= j < i ==> r.mapInfo[j] == Reborn(m.mapInfo[order[j]], j, 0))
    && |r.vRandom| == i && (forall j :: 0 <= j < i ==> r.vRandom[j] == j)
    && AddrsPart(m, r.mapAddr, rename, i)
  }

  ghost predicate AddrsPart(m: Tables, mapAddr: map<NetAddr, nat>, rename: map<nat, nat>, i: nat) {
    && (forall a :: a in mapAddr <==> a in m.mapAddr && m.mapAddr[a] in rename && rename[m.mapAddr[a]] < i)
    && (forall a :: a in mapAddr ==> mapAddr[a] == rename[m.mapAddr[a]])
  }

  lemma {:induction false} NextAddr(m: Tables, mapAddr: map<NetAddr, nat>, order: seq<nat>, rename: map<nat, nat>,
          i: nat)
    requires Renames(m.mapInfo, order, rename) && i < |order| && AddrsOk(m.mapInfo, m.mapAddr) &&
      AddrsPart(m, mapAddr, rename, i)
    ensures AddrsPart(m, mapAddr[m.mapInfo[order[i]].service.net := i], rename, i + 1)
  {
    var net := m.mapInfo[order[i]].service.net;
    assert m.mapAddr[net] == order[i];
    forall a | a in m.mapAddr && m.mapAddr[a] in rename && rename[m.mapAddr[a]] == i ensures a == net {
      assert m.mapAddr[a] == order[i];
    }
  }

  lemma {:induction false} EnterNext(m: Tables, r: Tables, order: seq<nat>, rename: map<nat, nat>, i: nat)
    requires Renames(m.mapInfo, order, rename) && i < |order| && AddrsOk(m.mapInfo, m.mapAddr) &&
      Loaded(m, r, order, rename, i)
    ensures |r.vRandom| == i && Loaded(m, Enter(r, i, Reborn(m.mapInfo[order[i]], i, 0)), order, rename, i + 1)
  {
    hide AddrsPart, AddrsOk;
    NextAddr(m, r.mapAddr, order, rename, i);
  }

  lemma {:induction false} StoreThenLoad(info: CAddrInfo, nRandomPos: int)
    requires info.fInTried ==> info.nRefCount == 0
    ensures Load(Store(info), nRandomPos, info.fInTried) == Reborn(info, nRandomPos, 0)
  {
  }

  lemma {:induction false} NewAreLoaded(k: Keyed, m: Tables, m0: Tables, order: seq<nat>, rename: map<nat, nat>,
          stored: seq<StoredInfo>)
    requires Renames(m.mapInfo, order, rename) && |stored| <= |order| && AddrsOk(m.mapInfo, m.mapAddr)
    requires forall i :: 0 <= i < |stored| ==> stored[i] == Store(m.mapInfo[order[i]]) && !m.mapInfo[order[i]].fInTried
    requires m0 == EMPTY.(nNew := m0.nNew, nTried := m0.nTried)
    ensures var r := ReadNew(k, m0, stored, true);
      Loaded(m, r, order, rename, |stored|) &&
        r == m0.(mapInfo := r.mapInfo, mapAddr := r.mapAddr, vRandom := r.vRandom)
  {
    hide Loaded, AddrsOk, Enter;
    if stored == [] {
      NothingLoaded(m, m0, order, rename);
    } else {
      var i := |stored| - 1;
      NewAreLoaded(k, m, m0, order, rename, stored[..i]);
      var r := ReadNew(k, m0, stored[..i], true);
      EnterNext(m, r, order, rename, i);
      StoreThenLoad(m.mapInfo[order[i]], i);
      EnterChanges(r, i, Load(stored[i], i, false));
    }
  }

  lemma {:induction false} EnterChanges(r: Tables, n: nat, info: CAddrInfo)
    ensures var e := Enter(r, n, info); e == r.(mapInfo := e.mapInfo, mapAddr := e.mapAddr, vRandom := e.vRandom)
  {
  }

  lemma {:induction false} NothingLoaded(m: Tables, m0: Tables, order: seq<nat>, rename: map<nat, nat>)
    requires Renames(m.mapInfo, order, rename) && m0.mapInfo == map[] && m0.mapAddr == map[] && m0.vRandom == []
    ensures Loaded(m, m0, order, rename, 0)
  {
  }

  /** The slots of the tried entries read so far. */
  ghost predicate TriedPart(m: Tables, vvTried: map<Slot, nat>, rename: map<nat, nat>, i: nat) {
    && (forall s :: s in vvTried <==> s in m.vvTried && m.vvTried[s] in rename && rename[m.vvTried[s]] < i)
    && (forall s :: s in vvTried ==> vvTried[s] == rename[m.vvTried[s]])
  }

  lemma {:induction false} NextTriedSlot(k: Keyed, m: Tables, vvTried: map<Slot, nat>, order: seq<nat>,
          rename: map<nat, nat>, i: nat)
    requires Renames(m.mapInfo, order, rename) && i < |order| && TriedOk(k, m.mapInfo, m.vvTried) &&
      m.mapInfo[order[i]].fInTried
    requires TriedPart(m, vvTried, rename, i)
    ensures var s := k.TriedSlot(m.mapInfo[order[i]].service);
      s !in vvTried && TriedPart(m, vvTried[s := i], rename, i + 1)
  {
    var s := k.TriedSlot(m.mapInfo[order[i]].service);
    assert s in m.vvTried && m.vvTried[s] == order[i];
    forall t | t in m.vvTried && m.vvTried[t] in rename && rename[m.vvTried[t]] == i ensures t == s {
      assert m.vvTried[t] == order[i];
    }
  }

  /** No tried entry is lost. */
  lemma {:induction false} TriedAreLoaded(k: Keyed, m: Tables, m1: Tables, order: seq<nat>, rename: map<nat, nat>,
          first: nat, stored: seq<StoredInfo>)
    requires Renames(m.mapInfo, order, rename) && first + |stored| <= |order| && AddrsOk(m.mapInfo, m.mapAddr) &&
      TriedOk(k, m.mapInfo, m.vvTried)
    requires forall j :: first <= j < first + |stored| ==>
      stored[j - first] == Store(m.mapInfo[order[j]]) && m.mapInfo[order[j]].fInTried &&
        m.mapInfo[order[j]].nRefCount == 0
    requires Loaded(m, m1, order, rename, first) && m1.nIdCount == first && TriedPart(m, m1.vvTried, rename, first)
    ensures var r, i := ReadTried(k, m1, stored), first + |stored|;
      && Loaded(m, r, order, rename, i) && TriedPart(m, r.vvTried, rename, i) && r.nIdCount == i
      && r.vvNew == m1.vvNew && r.nNew == m1.nNew && r.nTried == m1.nTried
  {
    hide Loaded, AddrsOk, TriedOk, TriedPart, AddTried;
    if stored != [] {
      var i := first + |stored| - 1;
      TriedAreLoaded(k, m, m1, order, rename, first, stored[..|stored| - 1]);
      NextTried(k, m, ReadTried(k, m1, stored[..|stored| - 1]), order, rename, i);
    }
  }

  lemma {:induction false} NextTried(k: Keyed, m: Tables, r: Tables, order: seq<nat>, rename: map<nat, nat>, i: nat)
    requires Renames(m.mapInfo, order, rename) && i < |order| && AddrsOk(m.mapInfo, m.mapAddr) &&
      TriedOk(k, m.mapInfo, m.vvTried)
    requires m.mapInfo[order[i]].fInTried && m.mapInfo[order[i]].nRefCount == 0
    requires Loaded(m, r, order, rename, i) && TriedPart(m, r.vvTried, rename, i) && r.nIdCount == i
    ensures var r' := AddTried(k, r, Store(m.mapInfo[order[i]]));
      && Loaded(m, r', order, rename, i + 1) && TriedPart(m, r'.vvTried, rename, i + 1) && r'.nIdCount == i + 1
      && r'.vvNew == r.vvNew && r'.nNew == r.nNew && r'.nTried == r.nTried
  {
    hide Loaded, AddrsOk, TriedOk, TriedPart, Enter;
    EnterNext(m, r, order, rename, i);
    StoreThenLoad(m.mapInfo[order[i]], i);
    NextTriedSlot(k, m, r.vvTried, order, rename, i);
    var e := Enter(r, i, Load(Store(m.mapInfo[order[i]]), i, true));
    EnterChanges(r, i, Load(Store(m.mapInfo[order[i]]), i, true));
    LoadedReads(m, e, AddTried(k, r, Store(m.mapInfo[order[i]])), order, rename, i + 1);
  }

  lemma {:induction false} LoadedReads(m: Tables, r: Tables, r': Tables, order: seq<nat>, rename: map<nat, nat>, i: nat)
    requires Renames(m.mapInfo, order, rename) && i <= |order| && Loaded(m, r, order, rename, i)
    requires r'.mapInfo == r.mapInfo && r'.mapAddr == r.mapAddr && r'.vRandom == r.vRandom
    ensures Loaded(m, r', order, rename, i)
  {
  }

  // The round trip: placing the new entries.

  predicate Before(s: Slot, bucket: nat, p: nat) {
    s.bucket < bucket || (s.bucket == bucket && s.pos < p)
  }

  function SlotsBefore(vvNew: map<Slot, nat>, n: nat, bucket: nat, p: nat): set<Slot> {
    set s | s in SlotsOf(vvNew, n) && Before(s, bucket, p)
  }

  /** The slots before position `p` of `bucket` have been read, and are what the references count. */
  ghost predicate Placed(m: Tables, r: Tables, order: seq<nat>, rename: map<nat, nat>, bucket: nat, p: nat)
    requires Renames(m.mapInfo, order, rename)
  {
    && (forall j: nat :: j in r.mapInfo <==> j < |order|)
    && (forall j :: 0 <= j < |order| ==>
      r.mapInfo[j] == Reborn(m.mapInfo[order[j]], j, |SlotsBefore(m.vvNew, order[j], bucket, p)|))
    && SlotsPart(m, r.vvNew, rename, bucket, p)
  }

  ghost predicate SlotsPart(m: Tables, vvNew: map<Slot, nat>, rename: map<nat, nat>, bucket: nat, p: nat) {
    && (forall s :: s in vvNew <==> s in m.vvNew && m.vvNew[s] in rename && Before(s, bucket, p))
    && (forall s :: s in vvNew ==> vvNew[s] == rename[m.vvNew[s]])
  }

  lemma {:induction false} NextSlot(vvNew: map<Slot, nat>, n: nat, bucket: nat, p: nat)
    ensures SlotsBefore(vvNew, n, bucket, p + 1)
      == SlotsBefore(vvNew, n, bucket, p) + if Slot(bucket, p) in vvNew && vvNew[Slot(bucket, p)] == n then
        {Slot(bucket, p)} else {}
    ensures Slot(bucket, p) !in SlotsBefore(vvNew, n, bucket, p)
  {
  }

  lemma {:induction false} NextSlotCount(vvNew: map<Slot, nat>, n: nat, bucket: nat, p: nat)
    ensures |SlotsBefore(vvNew, n, bucket, p + 1)|
      == |SlotsBefore(vvNew, n, bucket, p)| + if Slot(bucket, p) in vvNew && vvNew[Slot(bucket, p)] == n then 1 else 0
  {
    hide SlotsBefore;
    NextSlot(vvNew, n, bucket, p);
  }

  lemma {:induction false} FewerThanAll(vvNew: map<Slot, nat>, bucket: nat, p: nat)
    requires Slot(bucket, p) in vvNew
    ensures var n := vvNew[Slot(bucket, p)]; |SlotsBefore(vvNew, n, bucket, p)| < |SlotsOf(vvNew, n)|
  {
    var n := vvNew[Slot(bucket, p)];
    CardLess(SlotsBefore(vvNew, n, bucket, p), SlotsOf(vvNew, n), Slot(bucket, p));
  }

  lemma {:induction false} CardLess<T>(a: set<T>, b: set<T>, x: T)
    requires a <= b && x in b - a
    ensures |a| < |b|
  {
    assert b == a + (b - a) && a * (b - a) == {} && x in b - a;
  }

  /** What a slot of the original tells about its entry. */
  lemma {:induction false} SlotEntry(k: Keyed, m: Tables, s: Slot)
    requires InfosOk(m.mapInfo, m.nIdCount, {}) && PlacedOk(k, m.mapInfo, m.vvNew) && RefsOk(m.mapInfo, m.vvNew) &&
      s in m.vvNew
    ensures var n := m.vvNew[s];
      && n in m.mapInfo && !m.mapInfo[n].fInTried && s == k.NewSlot(s.bucket, m.mapInfo[n].service)
      && |SlotsOf(m.vvNew, n)| <= ADDRMAN_NEW_BUCKETS_PER_ADDRESS
  {
    assert InfoOk(m.vvNew[s], m.mapInfo[m.vvNew[s]], m.nIdCount, false);
  }

  lemma {:induction false} EmptySlot(m: Tables, r: Tables, order: seq<nat>, rename: map<nat, nat>, bucket: nat, p: nat)
    requires Renames(m.mapInfo, order, rename) && Placed(m, r, order, rename, bucket, p) && Slot(bucket, p) !in m.vvNew
    ensures Placed(m, r, order, rename, bucket, p + 1)
  {
    hide SlotsBefore, Before;
    NextSlotsPart(m, r.vvNew, rename, bucket, p);
    forall j | 0 <= j < |order|
      ensures r.mapInfo[j] == Reborn(m.mapInfo[order[j]], j, |SlotsBefore(m.vvNew, order[j], bucket, p + 1)|)
    {
      NextSlotCount(m.vvNew, order[j], bucket, p);
    }
  }

  lemma {:induction false} NextSlotsPart(m: Tables, vvNew: map<Slot, nat>, rename: map<nat, nat>, bucket: nat, p: nat)
    requires SlotsPart(m, vvNew, rename, bucket, p)
    ensures Slot(bucket, p) !in m.vvNew ==> SlotsPart(m, vvNew, rename, bucket, p + 1)
    ensures Slot(bucket, p) !in vvNew
    ensures Slot(bucket, p) in m.vvNew && m.vvNew[Slot(bucket, p)] in rename ==>
      SlotsPart(m, vvNew[Slot(bucket, p) := rename[m.vvNew[Slot(bucket, p)]]], rename, bucket, p + 1)
  {
    forall s: Slot ensures Before(s, bucket, p + 1) <==> Before(s, bucket, p) || s == Slot(bucket, p) {
    }
  }

  /** The index of a slot is placed where it was, and counted. */
  lemma {:induction false} TakenSlot(k: Keyed, m: Tables, r: Tables, order: seq<nat>, rename: map<nat, nat>,
          bucket: nat, p: nat)
    requires InfosOk(m.mapInfo, m.nIdCount, {}) && PlacedOk(k, m.mapInfo, m.vvNew) && RefsOk(m.mapInfo, m.vvNew)
    requires Renames(m.mapInfo, order, rename) && Placed(m, r, order, rename, bucket, p) && Slot(bucket, p) in m.vvNew
    requires m.vvNew[Slot(bucket, p)] in rename ==> rename[m.vvNew[Slot(bucket, p)]] < r.nNew
    ensures m.vvNew[Slot(bucket, p)] in rename && rename[m.vvNew[Slot(bucket, p)]] in r.mapInfo
    ensures var n := m.vvNew[Slot(bucket, p)];
      && PlaceIndex(k, r, bucket, rename[n], true) == Take(r, rename[n], Slot(bucket, p))
      && Placed(m, Take(r, rename[n], Slot(bucket, p)), order, rename, bucket, p + 1)
  {
    hide SlotsBefore, SlotsOf, Before, InfosOk, PlacedOk, RefsOk, SlotsPart;
    var s := Slot(bucket, p);
    var n := m.vvNew[s];
    SlotEntry(k, m, s);
    FewerThanAll(m.vvNew, bucket, p);
    NextSlotsPart(m, r.vvNew, rename, bucket, p);
    var r' := Take(r, rename[n], s);
    forall j | 0 <= j < |order|
      ensures r'.mapInfo[j] == Reborn(m.mapInfo[order[j]], j, |SlotsBefore(m.vvNew, order[j], bucket, p + 1)|)
    {
      NextSlotCount(m.vvNew, order[j], bucket, p);
    }
  }

  /** The indexes in the file are the new ids of the new entries. */
  ghost predicate IndexesMatch(m: Tables, rename: map<nat, nat>, nNew: int) {
    forall n :: n in m.mapInfo && !m.mapInfo[n].fInTried ==> n in rename && rename[n] == UnkId(m.mapInfo, n) < nNew
  }

  ghost predicate NewTableOk(k: Keyed, m: Tables) {
    InfosOk(m.mapInfo, m.nIdCount, {}) && PlacedOk(k, m.mapInfo, m.vvNew) && RefsOk(m.mapInfo, m.vvNew)
  }

  ghost predicate SameButPlaced(r: Tables, r': Tables) {
    r' == r.(mapInfo := r'.mapInfo, vvNew := r'.vvNew)
  }

  lemma {:induction false} BucketIsRead(k: Keyed, m: Tables, r: Tables, order: seq<nat>, rename: map<nat, nat>,
          bucket: nat, p: nat)
    requires NewTableOk(k, m) && Renames(m.mapInfo, order, rename) && IndexesMatch(m, rename, r.nNew)
    requires Placed(m, r, order, rename, bucket, 0)
    ensures var r' := ReadBucket(k, r, bucket, BucketList(m.mapInfo, m.vvNew, bucket, p), true);
      Placed(m, r', order, rename, bucket, p) && SameButPlaced(r, r')
  {
    hide Placed, InfosOk, PlacedOk, RefsOk, Renames, UnkId, PlaceIndex;
    if p > 0 {
      BucketIsRead(k, m, r, order, rename, bucket, p - 1);
      var list, s := BucketList(m.mapInfo, m.vvNew, bucket, p - 1), Slot(bucket, p - 1);
      var r1 := ReadBucket(k, r, bucket, list, true);
      if s in m.vvNew {
        SlotEntry(k, m, s);
        TakenSlot(k, m, r1, order, rename, bucket, p - 1);
        TakeChanges(r1, rename[m.vvNew[s]], s);
        ReadOneMore(k, r, bucket, list, rename[m.vvNew[s]]);
      } else {
        EmptySlot(m, r1, order, rename, bucket, p - 1);
        assert BucketList(m.mapInfo, m.vvNew, bucket, p) == list;
      }
    }
  }

  lemma {:induction false} ReadOneMore(k: Keyed, r: Tables, bucket: nat, list: seq<int>, nIndex: int)
    ensures ReadBucket(k, r, bucket, list + [nIndex], true) ==
      PlaceIndex(k, ReadBucket(k, r, bucket, list, true), bucket, nIndex, true)
  {
    assert (list + [nIndex])[..|list|] == list;
  }

  lemma {:induction false} TakeChanges(r: Tables, n: nat, s: Slot)
    requires n in r.mapInfo
    ensures SameButPlaced(r, Take(r, n, s))
  {
  }

  /** The end of one bucket is the start of the next. */
  lemma {:induction false} NextBucket(k: Keyed, m: Tables, r: Tables, order: seq<nat>, rename: map<nat, nat>,
          bucket: nat)
    requires NewTableOk(k, m) && Renames(m.mapInfo, order, rename) &&
      Placed(m, r, order, rename, bucket, ADDRMAN_BUCKET_SIZE)
    ensures Placed(m, r, order, rename, bucket + 1, 0)
  {
    hide InfosOk, PlacedOk, RefsOk, SlotsBefore;
    forall s | s in m.vvNew ensures Before(s, bucket, ADDRMAN_BUCKET_SIZE) <==> Before(s, bucket + 1, 0) {
      SlotEntry(k, m, s);
    }
    forall j | 0 <= j < |order|
      ensures SlotsBefore(m.vvNew, order[j], bucket, ADDRMAN_BUCKET_SIZE) ==
        SlotsBefore(m.vvNew, order[j], bucket + 1, 0)
    {
      SameSlotsBefore(m.vvNew, order[j], bucket);
    }
  }

  lemma {:induction false} SameSlotsBefore(vvNew: map<Slot, nat>, n: nat, bucket: nat)
    requires forall s :: s in vvNew ==> (Before(s, bucket, ADDRMAN_BUCKET_SIZE) <==> Before(s, bucket + 1, 0))
    ensures SlotsBefore(vvNew, n, bucket, ADDRMAN_BUCKET_SIZE) == SlotsBefore(vvNew, n, bucket + 1, 0)
  {
    hide Before;
  }

  lemma {:induction false} BucketsAreRead(k: Keyed, m: Tables, r: Tables, order: seq<nat>, rename: map<nat, nat>,
          n: nat)
    requires NewTableOk(k, m) && Renames(m.mapInfo, order, rename) && IndexesMatch(m, rename, r.nNew)
    requires Placed(m, r, order, rename, 0, 0)
    ensures var r' := ReadBuckets(k, r, Buckets(m.mapInfo, m.vvNew, n), true);
      Placed(m, r', order, rename, n, 0) && SameButPlaced(r, r')
  {
    hide Placed, NewTableOk, Renames, IndexesMatch, ReadBucket, BucketList;
    if n > 0 {
      BucketsAreRead(k, m, r, order, rename, n - 1);
      assert Buckets(m.mapInfo, m.vvNew, n)[..n - 1] == Buckets(m.mapInfo, m.vvNew, n - 1);
      var r1 := ReadBuckets(k, r, Buckets(m.mapInfo, m.vvNew, n - 1), true);
      BucketIsRead(k, m, r1, order, rename, n - 1, ADDRMAN_BUCKET_SIZE);
      NextBucket(k, m, ReadBucket(k, r1, n - 1, BucketList(m.mapInfo, m.vvNew, n - 1, ADDRMAN_BUCKET_SIZE), true),
        order, rename, n - 1);
    }
  }

  lemma {:induction false} NoSlotRead(m: Tables, r: Tables, order: seq<nat>, rename: map<nat, nat>)
    requires Renames(m.mapInfo, order, rename) && Loaded(m, r, order, rename, |order|) && r.vvNew == map[]
    ensures Placed(m, r, order, rename, 0, 0)
  {
    forall n ensures SlotsBefore(m.vvNew, n, 0, 0) == {} {
    }
  }

  /** When all buckets are read, every reference count is what it was. */
  lemma {:induction false} AllSlotsRead(k: Keyed, m: Tables, r: Tables, order: seq<nat>, rename: map<nat, nat>)
    requires NewTableOk(k, m) && Renames(m.mapInfo, order, rename) &&
      Placed(m, r, order, rename, ADDRMAN_NEW_BUCKET_COUNT, 0)
    ensures forall j :: 0 <= j < |order| ==>
      j in r.mapInfo && r.mapInfo[j] == Reborn(m.mapInfo[order[j]], j, m.mapInfo[order[j]].nRefCount)
    ensures forall j :: 0 <= j < |order| ==> !IsUnplaced(r, j)
  {
    forall j | 0 <= j < |order|
      ensures |SlotsBefore(m.vvNew, order[j], ADDRMAN_NEW_BUCKET_COUNT, 0)| == m.mapInfo[order[j]].nRefCount
      ensures m.mapInfo[order[j]].fInTried || m.mapInfo[order[j]].nRefCount != 0
    {
      RefsAreSlots(k, m, order[j]);
    }
  }

  lemma {:induction false} RefsAreSlots(k: Keyed, m: Tables, n: nat)
    requires NewTableOk(k, m) && n in m.mapInfo
    ensures |SlotsBefore(m.vvNew, n, ADDRMAN_NEW_BUCKET_COUNT, 0)| == m.mapInfo[n].nRefCount
    ensures m.mapInfo[n].fInTried || m.mapInfo[n].nRefCount != 0
  {
    assert InfoOk(n, m.mapInfo[n], m.nIdCount, false);
    assert SlotsBefore(m.vvNew, n, ADDRMAN_NEW_BUCKET_COUNT, 0) == SlotsOf(m.vvNew, n);
    if m.mapInfo[n].fInTried {
      assert SlotsOf(m.vvNew, n) == {};
    }
  }

  lemma {:induction false} NothingToPrune(m: Tables, n: nat)
    requires forall j: nat :: j < n ==> !IsUnplaced(m, j)
    ensures Prune(m, n) == m
  {
    hide IsUnplaced;
    if n > 0 {
      NothingToPrune(m, n - 1);
    }
  }

  // The round trip.

  lemma {:induction false} FileOf(m: Tables)
    ensures var f, news, trieds := Serialize(m), Order(m.mapInfo, false, m.nIdCount),
      Order(m.mapInfo, true, m.nIdCount);
      && IsUsable(f) && |f.newInfos| == |news| && |f.triedInfos| == |trieds|
      && (forall i :: 0 <= i < |news| ==> news[i] in m.mapInfo && f.newInfos[i] == Store(m.mapInfo[news[i]]))
      && (forall i :: 0 <= i < |trieds| ==> trieds[i] in m.mapInfo && f.triedInfos[i] == Store(m.mapInfo[trieds[i]]))
  {
    hide Order, Store, Listed;
    ListedInOrder(m.mapInfo, false, m.nIdCount);
    ListedInOrder(m.mapInfo, true, m.nIdCount);
  }

  lemma {:induction false} NewComeBack(k: Keyed, m: Tables)
    requires Check(k, m)
    ensures var order, rename, count := WholeOrder(m), Renaming(m.mapInfo, m.nIdCount),
      |Order(m.mapInfo, false, m.nIdCount)|;
      var r := WithNew(k, Serialize(m));
      && Renames(m.mapInfo, order, rename) && Loaded(m, r, order, rename, count)
      && r.vvTried == map[] && r.vvNew == map[] && r.nIdCount == r.nNew == count &&
        r.nTried == |Order(m.mapInfo, true, m.nIdCount)|
  {
    hide Renames, Loaded, InfosOk, AddrsOk, TriedOk, RandomOk, PlacedOk, RefsOk, CountsOk, Order, ReadNew, Serialize,
      Store, Renaming;
    var order, rename, f := WholeOrder(m), Renaming(m.mapInfo, m.nIdCount), Serialize(m);
    FileOf(m);
    OrderRenames(m);
    var m0 := EMPTY.(nNew := |f.newInfos|, nTried := |f.triedInfos|);
    NewAreLoaded(k, m, m0, order, rename, f.newInfos);
    var r := ReadNew(k, m0, f.newInfos, true);
    LoadedReads(m, r, WithNew(k, f), order, rename, |f.newInfos|);
  }

  /** All entries are read, none is lost to a collision. */
  lemma {:induction false} EntriesComeBack(k: Keyed, m: Tables)
    requires Check(k, m)
    ensures var order, rename := WholeOrder(m), Renaming(m.mapInfo, m.nIdCount);
      var r := WithTried(k, Serialize(m));
      && Renames(m.mapInfo, order, rename) && Loaded(m, r, order, rename, |order|) &&
        TriedPart(m, r.vvTried, rename, |order|)
      && r.nIdCount == |order| &&
        r.vvNew == map[] && r.nNew == m.nNew == |Order(m.mapInfo, false, m.nIdCount)| && r.nTried == m.nTried
  {
    hide Renames, Loaded, TriedPart, InfosOk, AddrsOk, TriedOk, RandomOk, PlacedOk, RefsOk, CountsOk, Order, ReadTried,
      Serialize, Store, Renaming, WithNew;
    var order, rename, f := WholeOrder(m), Renaming(m.mapInfo, m.nIdCount), Serialize(m);
    FileOf(m);
    OrderRenames(m);
    CountersMatch(m);
    NewComeBack(k, m);
    NoTriedYet(k, m, order, rename, |f.newInfos|);
    forall j | |f.newInfos| <= j < |order| ensures m.mapInfo[order[j]].nRefCount == 0 {
      ListedOnce(m.mapInfo, m.nIdCount, order[j]);
    }
    TriedAreLoaded(k, m, WithNew(k, f), order, rename, |f.newInfos|, f.triedInfos);
  }

  lemma {:induction false} NoTriedYet(k: Keyed, m: Tables, order: seq<nat>, rename: map<nat, nat>, count: nat)
    requires Renames(m.mapInfo, order, rename) && TriedOk(k, m.mapInfo, m.vvTried) && count <= |order|
    requires forall i :: 0 <= i < |order| ==> (m.mapInfo[order[i]].fInTried <==> i >= count)
    ensures TriedPart(m, map[], rename, count)
  {
    forall s | s in m.vvTried ensures m.vvTried[s] in rename && rename[m.vvTried[s]] >= count {
      var n := m.vvTried[s];
      assert order[rename[n]] == n;
    }
  }

  lemma {:induction false} RenamingGivesIndexes(m: Tables)
    requires InfosOk(m.mapInfo, m.nIdCount, {}) && m.nNew == |Order(m.mapInfo, false, m.nIdCount)|
    ensures IndexesMatch(m, Renaming(m.mapInfo, m.nIdCount), m.nNew)
  {
    hide InfosOk, Order, IsListed;
    forall n | n in m.mapInfo && !m.mapInfo[n].fInTried ensures UnkId(m.mapInfo, n) < m.nNew {
      ListedOnce(m.mapInfo, m.nIdCount, n);
      ListedIsInOrder(m.mapInfo, false, m.nIdCount, n);
    }
  }

  lemma {:induction false} PlacesComeBack(k: Keyed, m: Tables)
    requires Check(k, m)
    ensures var order, rename := WholeOrder(m), Renaming(m.mapInfo, m.nIdCount);
      var r := WithBuckets(k, Serialize(m));
      && Renames(m.mapInfo, order, rename) && Placed(m, r, order, rename, ADDRMAN_NEW_BUCKET_COUNT, 0) &&
        SameButPlaced(WithTried(k, Serialize(m)), r)
  {
    hide Check, Renames, Loaded, Placed, TriedPart, NewTableOk, IndexesMatch, Order, ReadBuckets, WithTried,
      WholeOrder, Renaming, SameButPlaced;
    var order, rename, r2 := WholeOrder(m), Renaming(m.mapInfo, m.nIdCount), WithTried(k, Serialize(m));
    FileOf(m);
    EntriesComeBack(k, m);
    NewTableIsOk(k, m);
    RenamingGivesIndexes(m);
    NoSlotRead(m, r2, order, rename);
    BucketsAreRead(k, m, r2, order, rename, ADDRMAN_NEW_BUCKET_COUNT);
  }

  /** Reading what was written gives the same manager back, up to the names of the ids. */
  lemma {:induction false} UnserializeOfSerialize(k: Keyed, m: Tables)
    requires Check(k, m)
    ensures Renamed(m, Unserialize(k, Serialize(m)), WholeOrder(m), Renaming(m.mapInfo, m.nIdCount))
    ensures Check(k, Unserialize(k, Serialize(m)))
  {
    hide Check, Renames, Loaded, Placed, TriedPart, NewTableOk, Order, WithTried, WithBuckets, Serialize, WholeOrder,
      Renaming, IsUnplaced, Prune, Renamed;
    var order, rename, f := WholeOrder(m), Renaming(m.mapInfo, m.nIdCount), Serialize(m);
    EntriesComeBack(k, m);
    PlacesComeBack(k, m);
    NewTableIsOk(k, m);
    var r := WithBuckets(k, f);
    AllSlotsRead(k, m, r, order, rename);
    NothingToPrune(r, r.nIdCount);
    EverythingRenamed(k, m, WithTried(k, f), r, order, rename);
    RenamedKeepsCheck(k, m, r, order, rename);
  }

  lemma {:induction false} NewTableIsOk(k: Keyed, m: Tables)
    requires Check(k, m)
    ensures NewTableOk(k, m) && InfosOk(m.mapInfo, m.nIdCount, {})
  {
    hide InfosOk, AddrsOk, TriedOk, RandomOk, PlacedOk, RefsOk, CountsOk;
  }

  lemma {:induction false} AllAddrs(m: Tables, mapAddr: map<NetAddr, nat>, order: seq<nat>, rename: map<nat, nat>)
    requires AddrsOk(m.mapInfo, m.mapAddr) && Renames(m.mapInfo, order, rename) &&
      AddrsPart(m, mapAddr, rename, |order|)
    ensures forall a :: a in mapAddr <==> a in m.mapAddr
    ensures forall a :: a in m.mapAddr ==> m.mapAddr[a] in rename && mapAddr[a] == rename[m.mapAddr[a]]
  {
    forall a | a in m.mapAddr ensures m.mapAddr[a] in rename && rename[m.mapAddr[a]] < |order| {
      assert m.mapAddr[a] in m.mapInfo;
    }
  }

  lemma {:induction false} AllTried(k: Keyed, m: Tables, vvTried: map<Slot, nat>, order: seq<nat>, rename: map<nat,
          nat>)
    requires TriedOk(k, m.mapInfo, m.vvTried) && Renames(m.mapInfo, order, rename) &&
      TriedPart(m, vvTried, rename, |order|)
    ensures forall s :: s in vvTried <==> s in m.vvTried
    ensures forall s :: s in m.vvTried ==> m.vvTried[s] in rename && vvTried[s] == rename[m.vvTried[s]]
  {
    forall s | s in m.vvTried ensures m.vvTried[s] in rename && rename[m.vvTried[s]] < |order| {
      assert m.vvTried[s] in m.mapInfo;
    }
  }

  lemma {:induction false} AllNew(k: Keyed, m: Tables, vvNew: map<Slot, nat>, order: seq<nat>, rename: map<nat, nat>)
    requires PlacedOk(k, m.mapInfo, m.vvNew) && Renames(m.mapInfo, order, rename) &&
      SlotsPart(m, vvNew, rename, ADDRMAN_NEW_BUCKET_COUNT, 0)
    ensures forall s :: s in vvNew <==> s in m.vvNew
    ensures forall s :: s in m.vvNew ==> m.vvNew[s] in rename && vvNew[s] == rename[m.vvNew[s]]
  {
    forall s | s in m.vvNew ensures m.vvNew[s] in rename && Before(s, ADDRMAN_NEW_BUCKET_COUNT, 0) {
      assert m.vvNew[s] in m.mapInfo;
    }
  }

  lemma {:induction false} EverythingRenamed(k: Keyed, m: Tables, r: Tables, r': Tables, order: seq<nat>,
          rename: map<nat, nat>)
    requires Check(k, m) && Renames(m.mapInfo, order, rename)
    requires Loaded(m, r, order, rename, |order|) && TriedPart(m, r.vvTried, rename, |order|)
    requires r.nIdCount == |order| && r.nNew == m.nNew && r.nTried == m.nTried
    requires SameButPlaced(r, r') && Placed(m, r', order, rename, ADDRMAN_NEW_BUCKET_COUNT, 0)
    requires forall j :: 0 <= j < |order| ==>
      j in r'.mapInfo && r'.mapInfo[j] == Reborn(m.mapInfo[order[j]], j, m.mapInfo[order[j]].nRefCount)
    ensures Renamed(m, r', order, rename)
  {
    hide InfosOk, AddrsOk, TriedOk, PlacedOk, RandomOk, RefsOk, CountsOk, SlotsBefore, TriedPart, SlotsPart, AddrsPart,
      Renames, Reborn;
    AllAddrs(m, r.mapAddr, order, rename);
    AllTried(k, m, r.vvTried, order, rename);
    AllNew(k, m, r'.vvNew, order, rename);
  }

  // A renamed manager is as consistent as the original.

  lemma {:induction false} RenamedKeepsCheck(k: Keyed, m: Tables, r: Tables, order: seq<nat>, rename: map<nat, nat>)
    requires Check(k, m) && Renamed(m, r, order, rename)
    ensures Check(k, r)
  {
    hide Renamed, InfosOk, AddrsOk, RandomOk, TriedOk, PlacedOk, RefsOk, CountsOk;
    RenamedInfos(m, r, order, rename);
    RenamedAddrs(m, r, order, rename);
    RenamedRandom(m, r, order, rename);
    RenamedTried(k, m, r, order, rename);
    RenamedPlaced(k, m, r, order, rename);
    RenamedRefs(m, r, order, rename);
    RenamedCounts(m, r, order, rename);
  }

  lemma {:induction false} RenamedInfos(m: Tables, r: Tables, order: seq<nat>, rename: map<nat, nat>)
    requires InfosOk(m.mapInfo, m.nIdCount, {}) && Renamed(m, r, order, rename)
    ensures InfosOk(r.mapInfo, r.nIdCount, {})
  {
    forall n | n in r.mapInfo ensures InfoOk(n, r.mapInfo[n], r.nIdCount, false) {
      assert InfoOk(order[n], m.mapInfo[order[n]], m.nIdCount, false);
    }
  }

  lemma {:induction false} RenamedAddrs(m: Tables, r: Tables, order: seq<nat>, rename: map<nat, nat>)
    requires AddrsOk(m.mapInfo, m.mapAddr) && Renamed(m, r, order, rename)
    ensures AddrsOk(r.mapInfo, r.mapAddr)
  {
  }

  lemma {:induction false} RenamedRandom(m: Tables, r: Tables, order: seq<nat>, rename: map<nat, nat>)
    requires Renamed(m, r, order, rename)
    ensures RandomOk(r.mapInfo, r.vRandom)
  {
  }

  lemma {:induction false} RenamedTried(k: Keyed, m: Tables, r: Tables, order: seq<nat>, rename: map<nat, nat>)
    requires TriedOk(k, m.mapInfo, m.vvTried) && Renamed(m, r, order, rename)
    ensures TriedOk(k, r.mapInfo, r.vvTried)
  {
    hide Keyed.TriedSlot;
    forall n | n in r.mapInfo && r.mapInfo[n].fInTried
      ensures k.TriedSlot(r.mapInfo[n].service) in r.vvTried && r.vvTried[k.TriedSlot(r.mapInfo[n].service)] == n
    {
      assert m.vvTried[k.TriedSlot(m.mapInfo[order[n]].service)] == order[n];
    }
  }

  lemma {:induction false} RenamedPlaced(k: Keyed, m: Tables, r: Tables, order: seq<nat>, rename: map<nat, nat>)
    requires PlacedOk(k, m.mapInfo, m.vvNew) && Renamed(m, r, order, rename)
    ensures PlacedOk(k, r.mapInfo, r.vvNew)
  {
    hide Keyed.NewSlot;
  }

  lemma {:induction false} RenamedRefs(m: Tables, r: Tables, order: seq<nat>, rename: map<nat, nat>)
    requires RefsOk(m.mapInfo, m.vvNew) && Renamed(m, r, order, rename)
    ensures RefsOk(r.mapInfo, r.vvNew)
  {
    forall n | n in r.mapInfo && !r.mapInfo[n].fInTried ensures r.mapInfo[n].nRefCount == |SlotsOf(r.vvNew, n)| {
      assert SlotsOf(r.vvNew, n) == SlotsOf(m.vvNew, order[n]) by {
        forall s ensures s in SlotsOf(r.vvNew, n) <==> s in SlotsOf(m.vvNew, order[n]) {
          assert s in m.vvNew ==> order[rename[m.vvNew[s]]] == m.vvNew[s];
        }
      }
    }
  }

  lemma {:induction false} RenamedIds(m: Tables, r: Tables, order: seq<nat>, rename: map<nat, nat>)
    requires Renamed(m, r, order, rename)
    ensures |NewIds(m.mapInfo)| == |NewIds(r.mapInfo)| && |TriedIds(m.mapInfo)| == |TriedIds(r.mapInfo)|
    ensures |r.mapInfo.Keys| == |r.vRandom| && r.nNew == m.nNew && r.nTried == m.nTried
  {
    RenamedCard(NewIds(m.mapInfo), NewIds(r.mapInfo), order, rename);
    RenamedCard(TriedIds(m.mapInfo), TriedIds(r.mapInfo), order, rename);
    InitialCard(r.mapInfo.Keys, |order|);
  }

  lemma {:induction false} IdsAddUp(infos: Infos)
    ensures |NewIds(infos)| + |TriedIds(infos)| == |infos.Keys|
  {
    assert NewIds(infos) + TriedIds(infos) == infos.Keys && NewIds(infos) * TriedIds(infos) == {};
  }

  lemma {:induction false} RenamedCounts(m: Tables, r: Tables, order: seq<nat>, rename: map<nat, nat>)
    requires CountsOk(m.mapInfo, |m.vRandom|, m.nTried, m.nNew, {}) && Renamed(m, r, order, rename)
    ensures CountsOk(r.mapInfo, |r.vRandom|, r.nTried, r.nNew, {})
  {
    hide Renamed, NewIds, TriedIds;
    RenamedIds(m, r, order, rename);
    IdsAddUp(r.mapInfo);
  }

  lemma {:induction false} InitialCard(s: set<nat>, n: nat)
    requires forall i: nat :: i in s <==> i < n
    ensures |s| == n
  {
    if n == 0 {
      assert s == {};
    } else {
      InitialCard(s - {n - 1}, n - 1);
    }
  }

  lemma {:induction false} RenamedCard(a: set<nat>, b: set<nat>, order: seq<nat>, rename: map<nat, nat>)
    requires forall x :: x in a ==> x in rename && rename[x] in b
    requires forall y :: y in b ==> y < |order| && order[y] in a && order[y] in rename && rename[order[y]] == y
    requires forall x :: x in a ==> x in rename && rename[x] < |order| && order[rename[x]] == x
    ensures |a| == |b|
    decreases |a|
  {
    if a == {} {
      assert b == {};
    } else {
      var x :| x in a;
      RenamedCard(a - {x}, b - {rename[x]}, order, rename);
    }
  }
}
