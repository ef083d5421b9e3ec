/**
 Reading a peers file that nobody vouches for. Whatever it says, all tables and counters come out right;
 whether the manager passes its check is then a matter of addresses and success times alone, and exactly
 decided by the entries that are kept.
 */
module AddrManLoad {
  import opened AddrMan
  import opened AddrManFile

  // --------------------------------- what holds of every file: all but addresses and times

  ghost predicate ShapeOk(n: nat, info: CAddrInfo, nIdCount: nat) {
    && n < nIdCount && info.nLastTry >= 0
    && 0 <= info.nRefCount <= ADDRMAN_NEW_BUCKETS_PER_ADDRESS && (info.fInTried ==> info.nRefCount == 0)
  }

  ghost predicate ShapesOk(infos: Infos, nIdCount: nat) {
    forall n :: n in infos ==> ShapeOk(n, infos[n], nIdCount)
  }

  ghost predicate Sound(k: Keyed, m: Tables) {
    && ShapesOk(m.mapInfo, m.nIdCount)
    && RandomOk(m.mapInfo, m.vRandom)
    && TriedOk(k, m.mapInfo, m.vvTried)
    && PlacedOk(k, m.mapInfo, m.vvNew)
    && RefsOk(m.mapInfo, m.vvNew)
    && CountsOk(m.mapInfo, |m.vRandom|, m.nTried, m.nNew, {})
  }

  lemma {:induction false} IdIsNew(infos: Infos, nIdCount: nat)
    requires ShapesOk(infos, nIdCount)
    ensures nIdCount !in infos
  {
    assert nIdCount in infos ==> ShapeOk(nIdCount, infos[nIdCount], nIdCount);
  }

  lemma {:induction false} ShapesUpdate(infos: Infos, nIdCount: nat, n: nat, info: CAddrInfo, nIdCount': nat)
    requires ShapesOk(infos, nIdCount) && nIdCount <= nIdCount' && ShapeOk(n, info, nIdCount')
    ensures ShapesOk(infos[n := info], nIdCount')
  {
    forall x | x in infos && x != n ensures ShapeOk(x, infos[x], nIdCount') {
      assert ShapeOk(x, infos[x], nIdCount);
    }
  }

  lemma {:induction false} InsertIsSound(k: Keyed, m: Tables, info: CAddrInfo)
    requires Sound(k, m) && !info.fInTried && info.nRefCount == 0 && info.nLastTry >= 0
    requires info.nRandomPos == |m.vRandom|
    ensures m.nIdCount !in m.mapInfo && Sound(k, Insert(m, info).(nNew := m.nNew + 1))
  {
    hide ShapesOk, RandomOk, TriedOk, PlacedOk, RefsOk, CountsOk;
    var n := m.nIdCount;
    IdIsNew(m.mapInfo, n);
    ShapesUpdate(m.mapInfo, n, n, info, n + 1);
    AddRandom(m.mapInfo, m.vRandom, n, info);
    AddTables(k, m.mapInfo, m.vvTried, m.vvNew, n, info);
    AddCounts(m.mapInfo, |m.vRandom|, m.nTried, m.nNew, n, info);
    CountIn(m.mapInfo[n := info], |m.vRandom| + 1, m.nTried, m.nNew, {n}, n);
    assert {n} - {n} == {};
  }

  /** A tried entry, entered straight into its free slot. */
  function InsertTried(k: Keyed, m: Tables, info: CAddrInfo): Tables {
    Insert(m, info).(vvTried := m.vvTried[k.TriedSlot(info.service) := m.nIdCount], nTried := m.nTried + 1)
  }

  lemma {:induction false} InsertTriedIsSound(k: Keyed, m: Tables, info: CAddrInfo)
    requires Sound(k, m) && info.fInTried && info.nRefCount == 0 && info.nLastTry >= 0
    requires info.nRandomPos == |m.vRandom| && k.TriedSlot(info.service) !in m.vvTried
    ensures m.nIdCount !in m.mapInfo && Sound(k, InsertTried(k, m, info))
  {
    hide ShapesOk, RandomOk, TriedOk, PlacedOk, RefsOk, CountsOk;
    var n := m.nIdCount;
    IdIsNew(m.mapInfo, n);
    ShapesUpdate(m.mapInfo, n, n, info, n + 1);
    AddRandom(m.mapInfo, m.vRandom, n, info);
    AddTriedTables(k, m.mapInfo, m.vvTried, m.vvNew, n, info);
    AddTriedCounts(m.mapInfo, |m.vRandom|, m.nTried, m.nNew, n, info);
  }

  lemma {:induction false} AddTriedTables(k: Keyed, infos: Infos, vvTried: map<Slot, nat>, vvNew: map<Slot, nat>,
          n: nat, info: CAddrInfo)
    requires TriedOk(k, infos, vvTried) && PlacedOk(k, infos, vvNew) && RefsOk(infos, vvNew)
    requires n !in infos && info.fInTried && k.TriedSlot(info.service) !in vvTried
    ensures TriedOk(k, infos[n := info], vvTried[k.TriedSlot(info.service) := n])
    ensures PlacedOk(k, infos[n := info], vvNew) && RefsOk(infos[n := info], vvNew)
  {
    hide Keyed.TriedSlot, Keyed.NewSlot;
  }

  lemma {:induction false} AddTriedCounts(infos: Infos, nRandom: int, nTried: int, nNew: int, n: nat, info: CAddrInfo)
    requires CountsOk(infos, nRandom, nTried, nNew, {}) && n !in infos && info.fInTried
    ensures CountsOk(infos[n := info], nRandom + 1, nTried + 1, nNew, {})
  {
    IdsAfterUpdate(infos, n, info);
    NotThere(infos, n);
    CardAdd(TriedIds(infos), n, TriedIds(infos[n := info]));
  }

  lemma {:induction false} NotThere(infos: Infos, n: nat)
    requires n !in infos
    ensures n !in NewIds(infos) && n !in TriedIds(infos)
    ensures NewIds(infos) - {n} == NewIds(infos) && TriedIds(infos) - {n} == TriedIds(infos)
  {
  }

  lemma {:induction false} TakeIsSound(k: Keyed, m: Tables, n: nat, s: Slot)
    requires Sound(k, m) && n in m.mapInfo && !m.mapInfo[n].fInTried
    requires m.mapInfo[n].nRefCount < ADDRMAN_NEW_BUCKETS_PER_ADDRESS
    requires s !in m.vvNew && s.bucket < ADDRMAN_NEW_BUCKET_COUNT && s == k.NewSlot(s.bucket, m.mapInfo[n].service)
    ensures Sound(k, Take(m, n, s))
  {
    hide ShapesOk, RandomOk, TriedOk, RefsOk, CountsOk;
    var info := m.mapInfo[n].(nRefCount := m.mapInfo[n].nRefCount + 1);
    TakenShape(m.mapInfo, m.nIdCount, n);
    ShapesUpdate(m.mapInfo, m.nIdCount, n, info, m.nIdCount);
    UpdateRandom(m.mapInfo, m.vRandom, n, info);
    UpdateTables(k, m.mapInfo, m.vvTried, m.vvNew, n, info);
    UpdateCounts(m.mapInfo, |m.vRandom|, m.nTried, m.nNew, n, info);
    TakeSlotRefs(m.mapInfo, m.vvNew, n, s, info);
  }

  lemma {:induction false} TakenShape(infos: Infos, nIdCount: nat, n: nat)
    requires ShapesOk(infos, nIdCount) && n in infos && !infos[n].fInTried
    requires infos[n].nRefCount < ADDRMAN_NEW_BUCKETS_PER_ADDRESS
    ensures ShapeOk(n, infos[n].(nRefCount := infos[n].nRefCount + 1), nIdCount)
  {
    assert ShapeOk(n, infos[n], nIdCount);
  }

  lemma {:induction false} DeleteIsSound(k: Keyed, m: Tables, n: nat)
    requires Sound(k, m) && IsUnplaced(m, n)
    ensures m.vRandom != [] && Sound(k, Delete(m, n))
  {
    hide Kept, ShapesOk, RandomOk, TriedOk, PlacedOk, RefsOk, CountsOk, SwapRandom, SameButRandom;
    EntryHasPlace(m.mapInfo, m.vRandom, n);
    var i, last := m.mapInfo[n].nRandomPos, |m.vRandom| - 1;
    var s := SwapRandom(m, i, last);
    SwapMovesOnlyPlaces(m, i, last);
    MoveTables(k, m, s.mapInfo);
    SameButPlace(m.mapInfo, s.mapInfo, n);
    SameCounts(m.mapInfo, s.mapInfo, |m.vRandom|, m.nTried, m.nNew);
    DropRandom(s.mapInfo, s.vRandom, n);
    DropTables(k, s.mapInfo, s.vvTried, s.vvNew, n);
    DropCounts(s.mapInfo, |s.vRandom|, s.nTried, s.nNew, {}, n);
    ShapesDrop(m.mapInfo, s.mapInfo, m.nIdCount, n);
  }

  lemma {:induction false} SameCounts(infos: Infos, infos': Infos, nRandom: int, nTried: int, nNew: int)
    requires CountsOk(infos, nRandom, nTried, nNew, {})
    requires SameButRandom(infos, infos')
    ensures CountsOk(infos', nRandom, nTried, nNew, {})
  {
    assert NewIds(infos') == NewIds(infos) && TriedIds(infos') == TriedIds(infos);
  }

  lemma {:induction false} SameButPlace(infos: Infos, infos': Infos, n: nat)
    requires SameButRandom(infos, infos') && n in infos
    ensures n in infos' && infos'[n] == infos[n].(nRandomPos := infos'[n].nRandomPos)
  {
  }

  lemma {:induction false} ShapesDrop(infos: Infos, infos': Infos, nIdCount: nat, n: nat)
    requires ShapesOk(infos, nIdCount) && SameButRandom(infos, infos')
    ensures ShapesOk(infos' - {n}, nIdCount)
  {
    forall x | x in infos' && x != n ensures ShapeOk(x, infos'[x], nIdCount) {
      assert ShapeOk(x, infos[x], nIdCount);
    }
  }

  // -------------------------------------------------- addresses, until entries are deleted

  /** Each address of an entry is known, for this entry or another one with the same address. */
  ghost predicate AddrsReach(infos: Infos, mapAddr: map<NetAddr, nat>) {
    && (forall n :: n in infos ==> infos[n].service.net in mapAddr)
    && (forall a :: a in mapAddr ==> mapAddr[a] in infos && infos[mapAddr[a]].service.net == a)
  }

  lemma {:induction false} EnterReaches(infos: Infos, mapAddr: map<NetAddr, nat>, n: nat, info: CAddrInfo)
    requires AddrsReach(infos, mapAddr) && n !in infos
    ensures AddrsReach(infos[n := info], mapAddr[info.service.net := n])
  {
  }

  lemma {:induction false} UpdateReaches(infos: Infos, mapAddr: map<NetAddr, nat>, n: nat, info: CAddrInfo)
    requires AddrsReach(infos, mapAddr) && n in infos && info.service == infos[n].service
    ensures AddrsReach(infos[n := info], mapAddr)
  {
  }

  // ------------------------------------------------------- which entry of the file is which

  ghost predicate IsEntry(info: CAddrInfo, stored: StoredInfo, tried: bool) {
    info.service == stored.service && info.nLastSuccess == stored.nLastSuccess && info.fInTried == tried
  }

  /** New entries have their index as id; tried ones follow, and `kept` lists those that were not lost to collisions. */
  ghost predicate Lists(m: Tables, news: seq<StoredInfo>, trieds: seq<StoredInfo>, kept: seq<nat>) {
    && m.nIdCount == |news| + |kept|
    && (forall x: nat :: x in m.mapInfo <==> x < m.nIdCount)
    && (forall j :: 0 <= j < |news| ==> IsEntry(m.mapInfo[j], news[j], false))
    && (forall t :: 0 <= t < |kept| ==> kept[t] < |trieds| && IsEntry(m.mapInfo[|news| + t], trieds[kept[t]], true))
    && (forall t, u :: 0 <= t < u < |kept| ==> kept[t] < kept[u])
  }

  /** The manager while entries are read, with the counters that belong to what has been read. */
  function Settled(m: Tables, nIdCount: nat): Tables {
    m.(nIdCount := nIdCount, nNew := |NewIds(m.mapInfo)|, nTried := |TriedIds(m.mapInfo)|)
  }

  lemma {:induction false} CountersAre(k: Keyed, m: Tables)
    requires Sound(k, m)
    ensures m.nNew == |NewIds(m.mapInfo)| && m.nTried == |TriedIds(m.mapInfo)|
  {
  }

  lemma {:induction false} TakeKeepsIds(m: Tables, n: nat, s: Slot)
    requires n in m.mapInfo
    ensures NewIds(Take(m, n, s).mapInfo) == NewIds(m.mapInfo) && TriedIds(Take(m, n, s).mapInfo) == TriedIds(m.mapInfo)
  {
    IdsAfterUpdate(m.mapInfo, n, m.mapInfo[n].(nRefCount := m.mapInfo[n].nRefCount + 1));
  }

  // ---------------------------------------------------------------- reading new entries

  lemma {:induction false} EnterNewIsSound(k: Keyed, m: Tables, i: nat, stored: StoredInfo)
    requires Sound(k, Settled(m, i))
    ensures var r := Enter(m, i, Load(stored, |m.vRandom|, false));
            && i !in m.mapInfo && Sound(k, Settled(r, i + 1))
            && NewIds(r.mapInfo) == NewIds(m.mapInfo) + {i} && TriedIds(r.mapInfo) == TriedIds(m.mapInfo)
  {
    hide Sound, NewIds, TriedIds;
    var info := Load(stored, |m.vRandom|, false);
    InsertIsSound(k, Settled(m, i), info);
    CountersAre(k, Insert(Settled(m, i), info).(nNew := |NewIds(m.mapInfo)| + 1));
    IdsAfterUpdate(m.mapInfo, i, info);
    NotThere(m.mapInfo, i);
  }

  lemma {:induction false} NewStep(k: Keyed, m: Tables, news: seq<StoredInfo>, i: nat, usable: bool)
    requires i < |news| && Sound(k, Settled(m, i)) && AddrsReach(m.mapInfo, m.mapAddr)
    requires Lists(Settled(m, i), news[..i], [], [])
    ensures var r := AddNew(k, m, i, news[i], usable);
            && i !in m.mapInfo && Sound(k, Settled(r, i + 1)) && AddrsReach(r.mapInfo, r.mapAddr)
            && Lists(Settled(r, i + 1), news[..i + 1], [], [])
            && NewIds(r.mapInfo) == NewIds(m.mapInfo) + {i} && TriedIds(r.mapInfo) == TriedIds(m.mapInfo)
            && r.nNew == m.nNew && r.nTried == m.nTried
  {
    hide Sound, AddrsReach, NewIds, TriedIds, Keyed.GetBucketPosition, Lists;
    var stored := news[i];
    var info := Load(stored, |m.vRandom|, false);
    var e := Enter(m, i, info);
    EnterNewIsSound(k, m, i, stored);
    EnterReaches(m.mapInfo, m.mapAddr, i, info);
    OneMoreNew(m, news, i, info);
    var s := k.NewSlot(k.GetNewBucket(stored.service.net, stored.source), stored.service);
    if !usable && s !in e.vvNew {
      TakeIsSound(k, Settled(e, i + 1), i, s);
      TakeKeepsIds(e, i, s);
      assert Take(Settled(e, i + 1), i, s) == Settled(Take(e, i, s), i + 1);
      UpdateReaches(e.mapInfo, e.mapAddr, i, e.mapInfo[i].(nRefCount := 1));
      OneMoreNew(m, news, i, info.(nRefCount := 1));
      var entered := Enter(m, i, info.(nRefCount := 1));
      SameLists(Settled(entered, i + 1), Settled(Take(e, i, s), i + 1), news[..i + 1], [], []);
    }
  }

  lemma {:induction false} OneMoreNew(m: Tables, news: seq<StoredInfo>, i: nat, info: CAddrInfo)
    requires i < |news| && Lists(Settled(m, i), news[..i], [], []) && IsEntry(info, news[i], false)
    ensures Lists(Settled(Enter(m, i, info), i + 1), news[..i + 1], [], [])
  {
    hide NewIds, TriedIds;
    assert news[..i + 1][i] == news[i];
    forall j | 0 <= j < i ensures news[..i + 1][j] == news[..i][j] {}
  }

  lemma {:induction false} SameLists(m: Tables, r: Tables, news: seq<StoredInfo>, trieds: seq<StoredInfo>,
          kept: seq<nat>)
    requires Lists(m, news, trieds, kept) && r.nIdCount == m.nIdCount && r.mapInfo.Keys == m.mapInfo.Keys
    requires forall n :: n in m.mapInfo ==> r.mapInfo[n] == m.mapInfo[n].(nRefCount := r.mapInfo[n].nRefCount)
    ensures Lists(r, news, trieds, kept)
  {
  }

  lemma {:induction false} NewEntriesAreRead(k: Keyed, m0: Tables, news: seq<StoredInfo>, n: nat, usable: bool)
    requires m0 == EMPTY.(nNew := m0.nNew, nTried := m0.nTried) && n <= |news|
    ensures var r := ReadNew(k, m0, news[..n], usable);
            && Sound(k, Settled(r, n)) && AddrsReach(r.mapInfo, r.mapAddr) && Lists(Settled(r, n), news[..n], [], [])
            && |NewIds(r.mapInfo)| == n && TriedIds(r.mapInfo) == {} && r.nNew == m0.nNew && r.nTried == m0.nTried
    decreases n
  {
    hide Sound, AddrsReach, Lists, NewIds, TriedIds, AddNew;
    if n == 0 {
      NothingRead(k, m0);
    } else {
      var i := n - 1;
      NewEntriesAreRead(k, m0, news, i, usable);
      assert news[..n][..i] == news[..i];
      var r := ReadNew(k, m0, news[..i], usable);
      NewStep(k, r, news, i, usable);
      NotThere(r.mapInfo, i);
      CardAdd(NewIds(r.mapInfo), i, NewIds(AddNew(k, r, i, news[i], usable).mapInfo));
    }
  }

  lemma {:induction false} NothingRead(k: Keyed, m0: Tables)
    requires m0 == EMPTY.(nNew := m0.nNew, nTried := m0.nTried)
    ensures Sound(k, Settled(m0, 0)) && AddrsReach(m0.mapInfo, m0.mapAddr) && Lists(Settled(m0, 0), [], [], [])
    ensures NewIds(m0.mapInfo) == {} && TriedIds(m0.mapInfo) == {}
  {
    assert NewIds(m0.mapInfo) == {} && TriedIds(m0.mapInfo) == {};
  }

  // -------------------------------------------------------------- reading tried entries

  lemma {:induction false} TriedStep(k: Keyed, m: Tables, news: seq<StoredInfo>, trieds: seq<StoredInfo>, i: nat,
          kept: seq<nat>)
    returns (kept': seq<nat>)
    requires i < |trieds| && Sound(k, Settled(m, m.nIdCount)) && AddrsReach(m.mapInfo, m.mapAddr)
    requires Lists(m, news, trieds[..i], kept)
    ensures var r := AddTried(k, m, trieds[i]);
            && Sound(k, Settled(r, r.nIdCount)) && AddrsReach(r.mapInfo, r.mapAddr)
            && Lists(r, news, trieds[..i + 1], kept') && NewIds(r.mapInfo) == NewIds(m.mapInfo) && r.nNew == m.nNew
            && r.nTried - |TriedIds(r.mapInfo)| == m.nTried - |TriedIds(m.mapInfo)| - 1
  {
    hide Sound, AddrsReach, NewIds, TriedIds, Keyed.TriedSlot, Lists;
    var stored := trieds[i];
    if k.TriedSlot(stored.service) in m.vvTried {
      kept' := kept;
      NoMoreTried(m, AddTried(k, m, stored), news, trieds, i, kept);
    } else {
      kept' := kept + [i];
      EnterTried(k, m, stored);
      OneMoreTried(m, AddTried(k, m, stored), news, trieds, i, kept, Load(stored, |m.vRandom|, true));
    }
  }

  lemma {:induction false} EnterTried(k: Keyed, m: Tables, stored: StoredInfo)
    requires Sound(k, Settled(m, m.nIdCount)) && AddrsReach(m.mapInfo, m.mapAddr)
    requires k.TriedSlot(stored.service) !in m.vvTried
    ensures var r := AddTried(k, m, stored);
            && Sound(k, Settled(r, r.nIdCount)) && AddrsReach(r.mapInfo, r.mapAddr)
            && NewIds(r.mapInfo) == NewIds(m.mapInfo) && |TriedIds(r.mapInfo)| == |TriedIds(m.mapInfo)| + 1
  {
    hide Sound, AddrsReach, NewIds, TriedIds, Keyed.TriedSlot;
    var info, n := Load(stored, |m.vRandom|, true), m.nIdCount;
    InsertTriedIsSound(k, Settled(m, n), info);
    CountersAre(k, InsertTried(k, Settled(m, n), info));
    IdsAfterUpdate(m.mapInfo, n, info);
    NotThere(m.mapInfo, n);
    assert InsertTried(k, Settled(m, n), info) == Settled(AddTried(k, m, stored), n + 1);
    EnterReaches(m.mapInfo, m.mapAddr, n, info);
  }

  lemma {:induction false} NoMoreTried(m: Tables, r: Tables, news: seq<StoredInfo>, trieds: seq<StoredInfo>, i: nat,
          kept: seq<nat>)
    requires i < |trieds| && Lists(m, news, trieds[..i], kept) && r == m.(nTried := r.nTried)
    ensures Lists(r, news, trieds[..i + 1], kept)
  {
    forall j | 0 <= j < i ensures trieds[..i + 1][j] == trieds[..i][j] {}
  }

  lemma {:induction false} OneMoreTried(m: Tables, r: Tables, news: seq<StoredInfo>, trieds: seq<StoredInfo>, i: nat,
          kept: seq<nat>, info: CAddrInfo)
    requires i < |trieds| && Lists(m, news, trieds[..i], kept) && IsEntry(info, trieds[i], true)
    requires r.mapInfo == m.mapInfo[m.nIdCount := info] && r.nIdCount == m.nIdCount + 1
    ensures Lists(r, news, trieds[..i + 1], kept + [i])
  {
    hide IsEntry;
    forall j | 0 <= j < i ensures trieds[..i + 1][j] == trieds[..i][j] {}
    assert trieds[..i + 1][i] == trieds[i];
  }

  lemma {:induction false} TriedEntriesAreRead(k: Keyed, m: Tables, news: seq<StoredInfo>, trieds: seq<StoredInfo>,
          n: nat)
    returns (kept: seq<nat>)
    requires Sound(k, Settled(m, m.nIdCount)) && AddrsReach(m.mapInfo, m.mapAddr) && Lists(m, news, [], [])
    requires TriedIds(m.mapInfo) == {} && n <= |trieds|
    ensures var r := ReadTried(k, m, trieds[..n]);
            && Sound(k, Settled(r, r.nIdCount)) && AddrsReach(r.mapInfo, r.mapAddr)
            && Lists(r, news, trieds[..n], kept) && NewIds(r.mapInfo) == NewIds(m.mapInfo) && r.nNew == m.nNew
            && r.nTried - |TriedIds(r.mapInfo)| == m.nTried - n
    decreases n
  {
    hide Sound, AddrsReach, Lists, NewIds, TriedIds, AddTried;
    if n == 0 {
      kept := [];
      assert trieds[..0] == [];
    } else {
      var i := n - 1;
      kept := TriedEntriesAreRead(k, m, news, trieds, i);
      assert trieds[..n][..i] == trieds[..i];
      kept := TriedStep(k, ReadTried(k, m, trieds[..i]), news, trieds, i, kept);
    }
  }

  // ------------------------------------------------------------------ positions

  /** A step that only places entries. */
  ghost predicate OnlyPlaces(m: Tables, r: Tables) {
    && r == m.(mapInfo := r.mapInfo, vvNew := r.vvNew) && r.mapInfo.Keys == m.mapInfo.Keys
    && forall n :: n in m.mapInfo ==> r.mapInfo[n] == m.mapInfo[n].(nRefCount := r.mapInfo[n].nRefCount)
  }

  /** New entries come first, in the order of ids. */
  ghost predicate NewFirst(m: Tables) {
    forall n :: n in m.mapInfo && n < m.nNew ==> !m.mapInfo[n].fInTried
  }

  lemma {:induction false} IndexIsPlaced(k: Keyed, m: Tables, bucket: nat, nIndex: int, usable: bool)
    requires Sound(k, m) && NewFirst(m) && (usable ==> bucket < ADDRMAN_NEW_BUCKET_COUNT)
    ensures var r := PlaceIndex(k, m, bucket, nIndex, usable); Sound(k, r) && OnlyPlaces(m, r)
  {
    hide Sound, Keyed.GetBucketPosition;
    if 0 <= nIndex < m.nNew && nIndex in m.mapInfo {
      var s := k.NewSlot(bucket, m.mapInfo[nIndex].service);
      if usable && s !in m.vvNew && m.mapInfo[nIndex].nRefCount < ADDRMAN_NEW_BUCKETS_PER_ADDRESS {
        TakeIsSound(k, m, nIndex, s);
      }
    }
  }

  lemma {:induction false} BucketIsRead(k: Keyed, m: Tables, bucket: nat, list: seq<int>, usable: bool)
    requires Sound(k, m) && NewFirst(m) && (usable ==> bucket < ADDRMAN_NEW_BUCKET_COUNT)
    ensures var r := ReadBucket(k, m, bucket, list, usable); Sound(k, r) && OnlyPlaces(m, r)
    decreases |list|
  {
    hide Sound, PlaceIndex;
    if list != [] {
      var front := list[..|list| - 1];
      BucketIsRead(k, m, bucket, front, usable);
      IndexIsPlaced(k, ReadBucket(k, m, bucket, front, usable), bucket, list[|list| - 1], usable);
    }
  }

  lemma {:induction false} AllBucketsAreRead(k: Keyed, m: Tables, buckets: seq<seq<int>>, usable: bool)
    requires Sound(k, m) && NewFirst(m) && (usable ==> |buckets| <= ADDRMAN_NEW_BUCKET_COUNT)
    ensures var r := ReadBuckets(k, m, buckets, usable); Sound(k, r) && OnlyPlaces(m, r)
    decreases |buckets|
  {
    hide Sound, ReadBucket;
    if buckets != [] {
      var last := |buckets| - 1;
      AllBucketsAreRead(k, m, buckets[..last], usable);
      BucketIsRead(k, ReadBuckets(k, m, buckets[..last], usable), last, buckets[last], usable);
    }
  }

  lemma {:induction false} PlacesReach(m: Tables, r: Tables)
    requires AddrsReach(m.mapInfo, m.mapAddr) && OnlyPlaces(m, r)
    ensures AddrsReach(r.mapInfo, r.mapAddr)
  {
  }

  // ------------------------------------------------------------------- deletion

  function Unplaced(m: Tables, n: nat): set<nat> {
    set x | x in m.mapInfo && x < n && IsUnplaced(m, x)
  }

  function NetsOf(m: Tables, ids: set<nat>): set<NetAddr> {
    set x | x in ids && x in m.mapInfo :: m.mapInfo[x].service.net
  }

  /** What the deletions have done: those entries are gone, and their addresses are forgotten, whoever else had them. */
  ghost predicate Pruned(m: Tables, r: Tables, ids: set<nat>) {
    && r.nIdCount == m.nIdCount && r.mapInfo.Keys == m.mapInfo.Keys - ids
    && (forall x :: x in r.mapInfo ==> r.mapInfo[x] == m.mapInfo[x].(nRandomPos := r.mapInfo[x].nRandomPos))
    && r.mapAddr == m.mapAddr - NetsOf(m, ids)
  }

  lemma {:induction false} UnplacedAreDeleted(k: Keyed, m: Tables, n: nat)
    requires Sound(k, m)
    ensures Sound(k, Prune(m, n)) && Pruned(m, Prune(m, n), Unplaced(m, n))
  {
    hide Sound, Delete, Pruned, Unplaced;
    if n == 0 {
      NothingPruned(m);
    } else {
      UnplacedAreDeleted(k, m, n - 1);
      var r := Prune(m, n - 1);
      NextUnplaced(m, r, n - 1);
      if IsUnplaced(r, n - 1) {
        DeleteIsSound(k, r, n - 1);
        OneMoreDeleted(k, m, r, Unplaced(m, n - 1), n - 1);
      }
    }
  }

  lemma {:induction false} NothingPruned(m: Tables)
    ensures Unplaced(m, 0) == {} && Pruned(m, m, {})
  {
    assert NetsOf(m, {}) == {};
  }

  lemma {:induction false} NextUnplaced(m: Tables, r: Tables, n: nat)
    requires Pruned(m, r, Unplaced(m, n))
    ensures IsUnplaced(r, n) <==> IsUnplaced(m, n)
    ensures Unplaced(m, n + 1) == if IsUnplaced(m, n) then Unplaced(m, n) + {n} else Unplaced(m, n)
  {
    hide NetsOf;
  }

  lemma {:induction false} OneMoreDeleted(k: Keyed, m: Tables, r: Tables, ids: set<nat>, n: nat)
    requires Pruned(m, r, ids) && Sound(k, r) && n in r.mapInfo
    ensures r.vRandom != [] && Pruned(m, Delete(r, n), ids + {n})
  {
    hide Delete, RandomOk, ShapesOk, TriedOk, PlacedOk, RefsOk, CountsOk;
    DeleteSparesOthers(r, n);
    assert NetsOf(m, ids + {n}) == NetsOf(m, ids) + {r.mapInfo[n].service.net};
  }

  // ---------------------------------------------------------------- the verdict

  /** Each entry that stays has its address to itself among all entries read, and a success time that makes sense. */
  ghost predicate KeptMakesSense(b: Tables) {
    forall x :: x in b.mapInfo && !IsUnplaced(b, x) ==> EntryMakesSense(b, x)
  }

  ghost predicate EntryMakesSense(b: Tables, x: nat)
    requires x in b.mapInfo
  {
    && b.mapInfo[x].nLastSuccess >= 0 && (b.mapInfo[x].fInTried ==> b.mapInfo[x].nLastSuccess != 0)
    && forall o :: o in b.mapInfo && o != x ==> b.mapInfo[o].service.net != b.mapInfo[x].service.net
  }

  ghost predicate OwnAddresses(b: Tables, r: Tables)
    requires r.mapInfo.Keys <= b.mapInfo.Keys
  {
    forall x, o :: x in r.mapInfo && o in b.mapInfo && o != x ==> b.mapInfo[o].service.net != b.mapInfo[x].service.net
  }

  /** An address that is listed twice is wrong for an entry that stays: it belongs to the other one, or went with it. */
  lemma {:induction false} AddrsOkIff(b: Tables, r: Tables, ids: set<nat>)
    requires AddrsReach(b.mapInfo, b.mapAddr) && Pruned(b, r, ids)
    ensures AddrsOk(r.mapInfo, r.mapAddr) <==> OwnAddresses(b, r)
  {
    if AddrsOk(r.mapInfo, r.mapAddr) {
      forall x, o | x in r.mapInfo && o in b.mapInfo && o != x
        ensures b.mapInfo[o].service.net != b.mapInfo[x].service.net
      {
        assert o in ids ==> b.mapInfo[o].service.net in NetsOf(b, ids);
        assert r.mapInfo[x].service.net in r.mapAddr;
      }
    } else if OwnAddresses(b, r) {
      forall x | x in r.mapInfo
        ensures r.mapInfo[x].service.net in r.mapAddr && r.mapAddr[r.mapInfo[x].service.net] == x
      {
        assert b.mapInfo[x].service.net in b.mapAddr;
      }
      forall a | a in r.mapAddr ensures r.mapAddr[a] in r.mapInfo && r.mapInfo[r.mapAddr[a]].service.net == a {
        assert b.mapAddr[a] in ids ==> a in NetsOf(b, ids);
      }
    }
  }

  lemma {:induction false} CheckIff(k: Keyed, m: Tables)
    requires Sound(k, m) && forall x :: x in m.mapInfo ==> !IsUnplaced(m, x)
    ensures Check(k, m) <==>
      AddrsOk(m.mapInfo, m.mapAddr) && forall x :: x in m.mapInfo ==>
        m.mapInfo[x].nLastSuccess >= 0 && (m.mapInfo[x].fInTried ==> m.mapInfo[x].nLastSuccess != 0)
  {
    hide AddrsOk, RandomOk, TriedOk, PlacedOk, RefsOk, CountsOk;
    forall x | x in m.mapInfo
      ensures InfoOk(x, m.mapInfo[x], m.nIdCount, false) <==>
        m.mapInfo[x].nLastSuccess >= 0 && (m.mapInfo[x].fInTried ==> m.mapInfo[x].nLastSuccess != 0)
    {
      assert ShapeOk(x, m.mapInfo[x], m.nIdCount);
      assert !IsUnplaced(m, x);
    }
  }

  lemma {:induction false} VerdictIff(k: Keyed, b: Tables)
    requires Sound(k, b) && AddrsReach(b.mapInfo, b.mapAddr)
    ensures Check(k, Prune(b, b.nIdCount)) <==> KeptMakesSense(b)
  {
    hide RandomOk, TriedOk, PlacedOk, RefsOk, CountsOk, AddrsOk, AddrsReach, Prune, NetsOf, Check;
    var ids, r := Unplaced(b, b.nIdCount), Prune(b, b.nIdCount);
    UnplacedAreDeleted(k, b, b.nIdCount);
    forall x | x in b.mapInfo ensures x in r.mapInfo <==> !IsUnplaced(b, x) {
      assert ShapeOk(x, b.mapInfo[x], b.nIdCount);
    }
    CheckIff(k, r);
    AddrsOkIff(b, r, ids);
    if KeptMakesSense(b) {
      forall x | x in r.mapInfo ensures EntryMakesSense(b, x) {
        assert !IsUnplaced(b, x);
      }
    }
  }

  /** All entries and positions of any file, before the deletions. */
  lemma {:induction false} AllIsRead(k: Keyed, f: PeersFile) returns (kept: seq<nat>)
    requires |f.buckets| == f.nUBuckets
    ensures var b := WithBuckets(k, f);
            Sound(k, b) && AddrsReach(b.mapInfo, b.mapAddr) && Lists(b, f.newInfos, f.triedInfos, kept)
  {
    hide Sound, AddrsReach, ReadNew, ReadTried, ReadBuckets, NewIds, TriedIds, IsEntry, OnlyPlaces;
    kept := EntriesAreRead(k, f);
    var t, b := WithTried(k, f), WithBuckets(k, f);
    AllBucketsAreRead(k, t, f.buckets, IsUsable(f));
    PlacesReach(t, b);
    SameListsPlaced(t, b, f.newInfos, f.triedInfos, kept);
  }

  lemma {:induction false} SameListsPlaced(m: Tables, r: Tables, news: seq<StoredInfo>, trieds: seq<StoredInfo>,
          kept: seq<nat>)
    requires Lists(m, news, trieds, kept) && OnlyPlaces(m, r)
    ensures Lists(r, news, trieds, kept)
  {
    hide Lists;
    SameLists(m, r, news, trieds, kept);
  }

  lemma {:induction false} EntriesAreRead(k: Keyed, f: PeersFile) returns (kept: seq<nat>)
    ensures var t := WithTried(k, f);
            && Sound(k, t) && AddrsReach(t.mapInfo, t.mapAddr) && NewFirst(t)
            && Lists(t, f.newInfos, f.triedInfos, kept)
  {
    hide Sound, AddrsReach, ReadNew, ReadTried, NewIds, TriedIds, Lists, NewFirst;
    var news, trieds, n := f.newInfos, f.triedInfos, WithNew(k, f);
    var m0 := EMPTY.(nNew := |news|, nTried := |trieds|);
    assert news[..|news|] == news && trieds[..|trieds|] == trieds;
    NewEntriesAreRead(k, m0, news, |news|, IsUsable(f));
    assert Settled(n, |news|) == Settled(ReadNew(k, m0, news, IsUsable(f)), |news|);
    assert n == Settled(n, |news|).(nTried := |trieds|);
    SameLists(Settled(n, |news|), n, news, [], []);
    kept := TriedEntriesAreRead(k, n, news, trieds, |trieds|);
    var t := WithTried(k, f);
    assert Settled(t, t.nIdCount) == t;
    NewComeFirst(t, news, trieds, kept);
  }

  lemma {:induction false} NewComeFirst(m: Tables, news: seq<StoredInfo>, trieds: seq<StoredInfo>, kept: seq<nat>)
    requires Lists(m, news, trieds, kept) && m.nNew == |news|
    ensures NewFirst(m)
  {
    forall x | x in m.mapInfo && x < m.nNew ensures !m.mapInfo[x].fInTried {
      assert IsEntry(m.mapInfo[x], news[x], false);
    }
  }

  /** Reading any file: the manager passes its check if and only if the entries that are kept make sense. */
  lemma {:induction false} AnyFileIsConsistentIff(k: Keyed, f: PeersFile)
    requires |f.buckets| == f.nUBuckets
    ensures Check(k, Unserialize(k, f)) <==> KeptMakesSense(WithBuckets(k, f))
  {
    hide Sound, AddrsReach, Check, KeptMakesSense, WithBuckets, Prune, Lists;
    var _ := AllIsRead(k, f);
    VerdictIff(k, WithBuckets(k, f));
  }

  // -------------------------------------------------------------- in terms of the file

  function Entries(f: PeersFile): seq<StoredInfo> { f.newInfos + f.triedInfos }

  /** No address twice, no negative success time, and a success on record for tried entries. */
  ghost predicate MakesSense(f: PeersFile) {
    && (forall i, j :: 0 <= i < j < |Entries(f)| ==> Entries(f)[i].service.net != Entries(f)[j].service.net)
    && (forall i :: 0 <= i < |f.newInfos| ==> f.newInfos[i].nLastSuccess >= 0)
    && (forall i :: 0 <= i < |f.triedInfos| ==> f.triedInfos[i].nLastSuccess > 0)
  }

  /** Where entry `x` stands in the file. */
  function PlaceInFile(f: PeersFile, kept: seq<nat>, x: nat): nat {
    if x < |f.newInfos| then x else if x - |f.newInfos| < |kept| then |f.newInfos| + kept[x - |f.newInfos|] else 0
  }

  lemma {:induction false} EntryInFile(f: PeersFile, m: Tables, kept: seq<nat>, x: nat)
    requires Lists(m, f.newInfos, f.triedInfos, kept) && x in m.mapInfo
    ensures var p := PlaceInFile(f, kept, x);
            p < |Entries(f)| && IsEntry(m.mapInfo[x], Entries(f)[p], p >= |f.newInfos|)
    ensures forall o :: o in m.mapInfo && o != x ==> PlaceInFile(f, kept, o) != PlaceInFile(f, kept, x)
  {
    hide IsEntry;
    if x >= |f.newInfos| {
      var t := x - |f.newInfos|;
      assert IsEntry(m.mapInfo[|f.newInfos| + t], f.triedInfos[kept[t]], true);
    }
  }

  lemma {:induction false} FileEntryMakesSense(f: PeersFile, m: Tables, kept: seq<nat>, x: nat)
    requires MakesSense(f) && Lists(m, f.newInfos, f.triedInfos, kept) && x in m.mapInfo
    ensures EntryMakesSense(m, x)
  {
    hide Lists, PlaceInFile;
    EntryInFile(f, m, kept, x);
    var p := PlaceInFile(f, kept, x);
    assert Entries(f)[p] == if p < |f.newInfos| then f.newInfos[p] else f.triedInfos[p - |f.newInfos|];
    forall o | o in m.mapInfo && o != x ensures m.mapInfo[o].service.net != m.mapInfo[x].service.net {
      EntryInFile(f, m, kept, o);
    }
  }

  /** In particular any file that makes sense gives a consistent manager, whether its table can be used or not. */
  lemma {:induction false} AnyFileGivesConsistent(k: Keyed, f: PeersFile)
    requires MakesSense(f) && |f.buckets| == f.nUBuckets
    ensures Check(k, Unserialize(k, f))
  {
    hide Sound, AddrsReach, Check, WithBuckets, Prune, Lists, Unserialize, PlaceInFile, EntryMakesSense;
    var kept := AllIsRead(k, f);
    var b := WithBuckets(k, f);
    forall x | x in b.mapInfo ensures EntryMakesSense(b, x) {
      FileEntryMakesSense(f, b, kept, x);
    }
    AnyFileIsConsistentIff(k, f);
  }

  /** A file that does not: one tried entry without a success on record. */
  lemma {:induction false} TriedWithoutSuccess(k: Keyed)
    ensures var f := PeersFile(1, 0, [], [StoredInfo(CService(5, 0), 0, 9, 5, 0, 0)], []);
            !Check(k, Unserialize(k, f))
  {
    hide Check, Prune, Keyed.TriedSlot, Keyed.NewSlot;
    var stored := StoredInfo(CService(5, 0), 0, 9, 5, 0, 0);
    var f := PeersFile(1, 0, [], [stored], []);
    AnyFileIsConsistentIff(k, f);
    var n := WithNew(k, f);
    assert [stored][..0] == [];
    assert ReadTried(k, n, [stored]) == AddTried(k, ReadTried(k, n, []), stored);
    var b := WithBuckets(k, f);
    assert 0 in b.mapInfo && b.mapInfo[0] == Load(stored, 0, true);
    assert !IsUnplaced(b, 0) && !EntryMakesSense(b, 0);
  }

  /** Another: two new entries with one address, both of which find a slot. */
  lemma {:induction false} AddressTwice()
    ensures var k := Keyed(_ => 0, (net, src) => src, (_, _, _) => 0);
            var one, two := StoredInfo(CService(5, 0), 0, 9, 1, 0, 0), StoredInfo(CService(5, 0), 0, 9, 2, 0, 0);
            var f := PeersFile(1, 0, [one, two], [], []);
            !Check(k, Unserialize(k, f))
  {
    hide Check, WithBuckets, AddNew;
    var k := Keyed(_ => 0, (net, src) => src, (_, _, _) => 0);
    var one, two := StoredInfo(CService(5, 0), 0, 9, 1, 0, 0), StoredInfo(CService(5, 0), 0, 9, 2, 0, 0);
    var f := PeersFile(1, 0, [one, two], [], []);
    AnyFileIsConsistentIff(k, f);
    var m1 := AddNew(k, EMPTY.(nNew := 2), 0, one, false);
    var m2 := AddNew(k, m1, 1, two, false);
    TwoNewAreRead(k, f);
    assert k.NewSlot(1, CService(5, 0)) == Slot(1, 0) && k.NewSlot(2, CService(5, 0)) == Slot(2, 0);
    Fallback(k, EMPTY.(nNew := 2), 0, one);
    Fallback(k, m1, 1, two);
    assert m2.mapInfo[0].nRefCount == 1 && m2.mapInfo[1].service == m2.mapInfo[0].service;
    assert !IsUnplaced(WithBuckets(k, f), 0) && !EntryMakesSense(WithBuckets(k, f), 0);
  }

  lemma {:induction false} TwoNewAreRead(k: Keyed, f: PeersFile)
    requires |f.newInfos| == 2 && f.triedInfos == [] && f.buckets == [] && !IsUsable(f)
    ensures WithBuckets(k, f).mapInfo ==
      AddNew(k, AddNew(k, EMPTY.(nNew := 2), 0, f.newInfos[0], false), 1, f.newInfos[1], false).mapInfo
  {
    hide AddNew;
    var m0 := EMPTY.(nNew := 2);
    assert f.newInfos[..1] == [f.newInfos[0]] && [f.newInfos[0]][..0] == [];
    assert ReadNew(k, m0, f.newInfos[..1], false) == AddNew(k, m0, 0, f.newInfos[0], false);
  }

  /** The fallback placement, when the slot is free. */
  lemma {:induction false} Fallback(k: Keyed, m: Tables, n: nat, stored: StoredInfo)
    requires k.NewSlot(k.GetNewBucket(stored.service.net, stored.source), stored.service) !in m.vvNew
    ensures var r, s := AddNew(k, m, n, stored, false),
      k.NewSlot(k.GetNewBucket(stored.service.net, stored.source), stored.service);
            r.mapInfo == m.mapInfo[n := Load(stored, |m.vRandom|, false).(nRefCount := 1)] &&
            r.vvNew == m.vvNew[s := n]
  {
    hide Keyed.NewSlot, Keyed.GetNewBucket;
  }

  // ---------------------------------------------------------- where new entries are placed

  function OwnSlot(k: Keyed, stored: StoredInfo): Slot {
    k.NewSlot(k.GetNewBucket(stored.service.net, stored.source), stored.service)
  }

  /** The slots are those of the entries' own sources, and in each is the first entry that has it. */
  ghost predicate FirstsAreIn(k: Keyed, news: seq<StoredInfo>, vvNew: map<Slot, nat>) {
    && (forall i :: 0 <= i < |news| ==> OwnSlot(k, news[i]) in vvNew && vvNew[OwnSlot(k, news[i])] <= i)
    && (forall s :: s in vvNew ==> vvNew[s] < |news| && s == OwnSlot(k, news[vvNew[s]]))
  }

  lemma {:induction false} FallbacksAreFirst(k: Keyed, m: Tables, news: seq<StoredInfo>)
    requires m.vvNew == map[]
    ensures FirstsAreIn(k, news, ReadNew(k, m, news, false).vvNew)
  {
    hide AddNew, OwnSlot;
    if news != [] {
      var last := |news| - 1;
      FallbacksAreFirst(k, m, news[..last]);
      FallbackSlot(k, ReadNew(k, m, news[..last], false), last, news[last]);
    }
  }

  lemma {:induction false} FallbackSlot(k: Keyed, m: Tables, n: nat, stored: StoredInfo)
    ensures var s := OwnSlot(k, stored);
            AddNew(k, m, n, stored, false).vvNew == if s in m.vvNew then m.vvNew else m.vvNew[s := n]
  {
    hide Keyed.NewSlot, Keyed.GetNewBucket;
  }

  lemma {:induction false} NotPlacedYet(k: Keyed, m: Tables, news: seq<StoredInfo>)
    ensures ReadNew(k, m, news, true).vvNew == m.vvNew
  {
    if news != [] {
      NotPlacedYet(k, m, news[..|news| - 1]);
    }
  }

  lemma {:induction false} TriedLeavesNew(k: Keyed, m: Tables, trieds: seq<StoredInfo>)
    ensures ReadTried(k, m, trieds).vvNew == m.vvNew
  {
    if trieds != [] {
      TriedLeavesNew(k, m, trieds[..|trieds| - 1]);
    }
  }

  lemma {:induction false} BucketsAreIgnored(k: Keyed, m: Tables, buckets: seq<seq<int>>)
    ensures ReadBuckets(k, m, buckets, false) == m
  {
    if buckets != [] {
      BucketsAreIgnored(k, m, buckets[..|buckets| - 1]);
      BucketIsIgnored(k, m, |buckets| - 1, buckets[|buckets| - 1]);
    }
  }

  lemma {:induction false} BucketIsIgnored(k: Keyed, m: Tables, bucket: nat, list: seq<int>)
    ensures ReadBucket(k, m, bucket, list, false) == m
  {
    if list != [] {
      BucketIsIgnored(k, m, bucket, list[..|list| - 1]);
    }
  }

  /**
   The buckets of a file of another version, or with another number of them, are ignored: each new entry has the slot
   of its own source if it is the first with that slot. Otherwise only the buckets in the file place new entries.
   */
  lemma {:induction false} PlacedByFormat(k: Keyed, f: PeersFile)
    ensures f.nVersion != 1 || f.nUBuckets != 1024 ==> FirstsAreIn(k, f.newInfos, WithBuckets(k, f).vvNew)
    ensures f.nVersion == 1 && f.nUBuckets == 1024 ==> WithTried(k, f).vvNew == map[]
  {
    hide ReadNew, ReadTried, ReadBuckets;
    var m := EMPTY.(nNew := |f.newInfos|, nTried := |f.triedInfos|);
    FallbacksAreFirst(k, m, f.newInfos);
    NotPlacedYet(k, m, f.newInfos);
    TriedLeavesNew(k, WithNew(k, f), f.triedInfos);
    BucketsAreIgnored(k, WithTried(k, f), f.buckets);
  }
}
