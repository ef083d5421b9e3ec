/**
 The address manager as the object it is: methods that change the indexes in place, each
 proved to do what `AddrMan` says of the tables, and to be called only where the source's
 assertions hold. `Contents` is the value of all the fields together; a method's postcondition
 gives the new value as a function of the old one, and that the function keeps the consistency
 check is a lemma of `AddrMan`. Writing and reading the peers file are the loops that
 `AddrManFile` describes on values.
 */
module CAddrMan {
  import opened AddrMan
  import opened Powers
  import File = AddrManFile

  const ADDRMAN_GETADDR_MAX_PCT: nat := 70
  const ADDRMAN_GETADDR_MAX: nat := 625

  function AddressOf(info: CAddrInfo): CAddress { CAddress(info.service, info.nServices, info.nTime) }

  /** Neither terrible nor of a private network. */
  function Shareable(now: int, isRFC1918: CAddrInfo -> bool): CAddrInfo -> bool {
    (info: CAddrInfo) => !IsTerrible(info, now) && !isRFC1918(info)
  }

  /** The addresses of the given ids that pass `GetAddr_`'s filter, in order. */
  function Picked(infos: Infos, ids: seq<nat>, shareable: CAddrInfo -> bool): (picked: seq<CAddress>)
    ensures |picked| <= |ids|
  {
    if ids == [] then [] else
    var rest, id := Picked(infos, ids[..|ids| - 1], shareable), ids[|ids| - 1];
    if id in infos && shareable(infos[id]) then rest + [AddressOf(infos[id])] else rest
  }

  /** Swaps further back do not disturb what was picked from the front. */
  /** What is picked is what the entries record: the addresses of those that are neither terrible nor private. */
  lemma {:induction false} PickedIff(infos: Infos, ids: seq<nat>, now: int, isRFC1918: CAddrInfo -> bool, a: CAddress)
    ensures a in Picked(infos, ids, Shareable(now, isRFC1918)) <==>
      exists id :: id in ids && id in infos && !IsTerrible(infos[id], now) && !isRFC1918(infos[id]) &&
        a == CAddress(infos[id].service, infos[id].nServices, infos[id].nTime)
  {
    hide IsTerrible;
    if ids != [] {
      var last := |ids| - 1;
      PickedIff(infos, ids[..last], now, isRFC1918, a);
      assert ids == ids[..last] + [ids[last]];
      assert forall id :: id in ids <==> id in ids[..last] || id == ids[last];
    }
  }

  lemma {:induction false} PickedIsStable(m: Tables, i: nat, j: nat, n: nat, shareable: CAddrInfo -> bool)
    requires RandomOk(m.mapInfo, m.vRandom) && n <= i < |m.vRandom| && n <= j < |m.vRandom|
    ensures var r := SwapRandom(m, i, j);
            |r.vRandom| == |m.vRandom| &&
              Picked(r.mapInfo, r.vRandom[..n], shareable) == Picked(m.mapInfo, m.vRandom[..n], shareable)
  {
    hide Kept, RandomOk, AddrMan.SwapRandom;
    var r := SwapRandom(m, i, j);
    SwapKeepsSize(m, i, j);
    if n > 0 {
      PickedIsStable(m, i, j, n - 1, shareable);
      assert r.vRandom[..n][..n - 1] == r.vRandom[..n - 1] && m.vRandom[..n][..n - 1] == m.vRandom[..n - 1];
      FrontIsUntouched(m, i, j, n - 1);
    }
  }

  lemma {:induction false} SwapKeepsSize(m: Tables, i: nat, j: nat)
    ensures |SwapRandom(m, i, j).vRandom| == |m.vRandom|
  {
  }

  lemma {:induction false} FrontIsUntouched(m: Tables, i: nat, j: nat, p: nat)
    requires RandomOk(m.mapInfo, m.vRandom) && p < i < |m.vRandom| && p < j < |m.vRandom|
    ensures var r, id := SwapRandom(m, i, j), m.vRandom[p];
            |r.vRandom| == |m.vRandom| && r.vRandom[p] == id && id in m.mapInfo && id in r.mapInfo &&
              r.mapInfo[id] == m.mapInfo[id]
  {
    assert m.mapInfo[m.vRandom[p]].nRandomPos == p && m.mapInfo[m.vRandom[i]].nRandomPos == i &&
      m.mapInfo[m.vRandom[j]].nRandomPos == j;
  }

  /** One round of the first loop of `MakeTried`: the slot at the entry's position, if the entry is there. */
  lemma {:induction false} FreeOneMore(k: Keyed, m: Tables, n: nat, bucket: nat)
    requires n in m.mapInfo
    ensures var freed, s := Freed(k, m, n, bucket), k.NewSlot(bucket, m.mapInfo[n].service);
            && s !in freed
            && Freed(k, m, n, bucket + 1) == (if s in m.vvNew && m.vvNew[s] == n then freed + {s} else freed)
  {
  }

  lemma {:induction false} FreeNone(k: Keyed, m: Tables, n: nat)
    requires n in m.mapInfo
    ensures Freed(k, m, n, 0) == {}
  {
  }

  /** The bucket that round `n` of the search in `Good_` looks at. */
  function Turn(n: nat, nRnd: nat): nat { (n + nRnd) % ADDRMAN_NEW_BUCKET_COUNT }

  lemma {:induction false} EveryBucketHasItsTurn(b: nat, nRnd: nat) returns (n: nat)
    requires b < ADDRMAN_NEW_BUCKET_COUNT
    ensures n < ADDRMAN_NEW_BUCKET_COUNT && Turn(n, nRnd) == b
  {
    var r := nRnd % ADDRMAN_NEW_BUCKET_COUNT;
    n := if b >= r then b - r else b + ADDRMAN_NEW_BUCKET_COUNT - r;
  }

  class CAddrMan {
    const k: Keyed
    var nIdCount: nat
    var mapInfo: Infos
    var mapAddr: map<NetAddr, nat>
    var vRandom: seq<nat>
    var nTried: int
    var nNew: int
    var vvTried: map<Slot, nat>
    var vvNew: map<Slot, nat>

    ghost function Contents(): Tables
      reads this
    {
      Tables(nIdCount, mapInfo, mapAddr, vRandom, nTried, nNew, vvTried, vvNew)
    }

    constructor (k: Keyed)
      ensures this.k == k && Contents() == EMPTY && Check(k, Contents())
    {
      this.k := k;
      nIdCount, mapInfo, mapAddr, vRandom, nTried, nNew, vvTried, vvNew := 0, map[], map[], [], 0, 0, map[], map[];
      new;
      EmptyIsConsistent(k);
    }

    method Create(addr: CAddress, addrSource: NetAddr) returns (nId: nat)
      modifies this
      ensures nId == old(nIdCount) && Contents() == AddrMan.Create(old(Contents()), addr, addrSource)
    {
      nId := nIdCount;
      nIdCount := nIdCount + 1;
      mapInfo := mapInfo[nId := NewInfo(addr, addrSource, -1)];
      mapAddr := mapAddr[addr.service.net := nId];
      mapInfo := mapInfo[nId := mapInfo[nId].(nRandomPos := |vRandom|)];
      vRandom := vRandom + [nId];
    }

    method SwapRandom(nRndPos1: nat, nRndPos2: nat)
      requires nRndPos1 != nRndPos2 ==> IsPlace(Contents(), nRndPos1) && IsPlace(Contents(), nRndPos2)
      modifies this`mapInfo, this`vRandom
      ensures Contents() == AddrMan.SwapRandom(old(Contents()), nRndPos1, nRndPos2)
    {
      if nRndPos1 == nRndPos2 {
        return;
      }
      var nId1, nId2 := vRandom[nRndPos1], vRandom[nRndPos2];
      mapInfo := mapInfo[nId1 := mapInfo[nId1].(nRandomPos := nRndPos2)];
      mapInfo := mapInfo[nId2 := mapInfo[nId2].(nRandomPos := nRndPos1)];
      vRandom := vRandom[nRndPos1 := nId2];
      vRandom := vRandom[nRndPos2 := nId1];
    }

    static lemma {:induction false} PlacesAreTaken(m: Tables, i: int)
      requires RandomOk(m.mapInfo, m.vRandom) && 0 <= i < |m.vRandom|
      ensures IsPlace(m, i)
    {
    }

    method Delete(nId: nat)
      requires RandomOk(mapInfo, vRandom) && nId in mapInfo && !mapInfo[nId].fInTried && mapInfo[nId].nRefCount == 0
      modifies this
      ensures old(vRandom) != [] && Contents() == AddrMan.Delete(old(Contents()), nId)
    {
      hide AddrMan.SwapRandom, RandomOk, Kept, SameButRandom;
      ghost var m := Contents();
      var info := mapInfo[nId];
      EntryHasPlace(mapInfo, vRandom, nId);
      PlacesAreTaken(m, info.nRandomPos);
      PlacesAreTaken(m, |vRandom| - 1);
      SwapMovesOnlyPlaces(m, info.nRandomPos, |vRandom| - 1);
      SwapRandom(info.nRandomPos, |vRandom| - 1);
      vRandom := vRandom[..|vRandom| - 1];
      mapAddr := mapAddr - {info.service.net};
      mapInfo := mapInfo - {nId};
      nNew := nNew - 1;
    }

    /** In place, clearing a slot needs its holder to be a referenced new entry. */
    ghost predicate CanClear(s: Slot)
      reads this
    {
      s in vvNew ==> vvNew[s] in mapInfo && !mapInfo[vvNew[s]].fInTried && mapInfo[vvNew[s]].nRefCount > 0
    }

    method ClearNew(s: Slot)
      requires RandomOk(mapInfo, vRandom) && CanClear(s)
      modifies this
      ensures Contents() == AddrMan.ClearNew(old(Contents()), s)
    {
      if s in vvNew {
        hide RandomOk, AddrMan.Delete;
        var nIdDelete := vvNew[s];
        var infoDelete := mapInfo[nIdDelete];
        EntryHasPlace(mapInfo, vRandom, nIdDelete);
        infoDelete := infoDelete.(nRefCount := infoDelete.nRefCount - 1);
        UpdateRandom(mapInfo, vRandom, nIdDelete, infoDelete);
        mapInfo := mapInfo[nIdDelete := infoDelete];
        vvNew := vvNew - {s};
        if infoDelete.nRefCount == 0 {
          Delete(nIdDelete);
        }
      }
    }

    /** The first loop of `MakeTried`. */
    method LeaveNewBuckets(nId: nat)
      requires nId in mapInfo
      modifies this`vvNew, this`mapInfo
      ensures nId in mapInfo && mapInfo[nId].service == old(mapInfo[nId].service)
      ensures Contents().(nNew := nNew - 1) == Detach(k, old(Contents()), nId)
    {
      hide Kept, Freed;
      ghost var m := Contents();
      FreeNone(k, m, nId);
      assert mapInfo == m.mapInfo[nId := m.mapInfo[nId].(nRefCount := m.mapInfo[nId].nRefCount - 0)];
      for bucket := 0 to ADDRMAN_NEW_BUCKET_COUNT
        invariant nId in mapInfo && vvNew == m.vvNew - Freed(k, m, nId, bucket)
        invariant var freed := |Freed(k, m, nId, bucket)|;
                  mapInfo == m.mapInfo[nId := m.mapInfo[nId].(nRefCount := m.mapInfo[nId].nRefCount - freed)]
      {
        var s := k.NewSlot(bucket, mapInfo[nId].service);
        FreeOneMore(k, m, nId, bucket);
        if s in vvNew && vvNew[s] == nId {
          vvNew := vvNew - {s};
          mapInfo := mapInfo[nId := mapInfo[nId].(nRefCount := mapInfo[nId].nRefCount - 1)];
        }
      }
    }

    /** `passed` is false where the assertion after that loop fails, which ends the program. */
    method MakeTried(nId: nat) returns (passed: bool)
      requires nId in mapInfo && !mapInfo[nId].fInTried && mapInfo[nId].nLastSuccess != 0
      requires LeavesAllSlots(k, Contents(), nId) ==> Check(k, Contents())
      modifies this
      ensures passed <==> LeavesAllSlots(k, old(Contents()), nId)
      ensures passed ==> Contents() == AddrMan.MakeTried(k, old(Contents()), nId)
    {
      hide InfosOk, InfoOk, AddrsOk, RandomOk, TriedOk, CountsOk, PlacedOk, RefsOk, Kept, AddrMan.ClearNew, Freed,
        SlotsOf, Demote, Detach;
      ghost var m := Contents();
      LeaveNewBuckets(nId);
      nNew := nNew - 1;
      passed := mapInfo[nId].nRefCount == 0;
      if !passed {
        return;
      }
      DetachIsConsistent(k, m, nId);
      var s := k.TriedSlot(mapInfo[nId].service);
      if s in vvTried {
        UntryIsConsistent(k, Contents(), s, {nId});
        Evict(s, {nId});
      }
      assert nId in mapInfo;
      vvTried := vvTried[s := nId];
      nTried := nTried + 1;
      mapInfo := mapInfo[nId := mapInfo[nId].(fInTried := true)];
    }

    /** Making room in a tried slot. */
    method Evict(s: Slot, ghost loose: set<nat>)
      requires Consistent(k, Contents(), loose, loose) && s in vvTried && vvTried[s] in mapInfo
      modifies this
      ensures Contents() == Demote(k, old(Contents()), s) && vvTried == old(vvTried) - {s}
      ensures forall n :: n in loose ==> Spared(old(Contents()), Contents(), n)
    {
      hide InfosOk, InfoOk, AddrsOk, RandomOk, TriedOk, CountsOk, PlacedOk, RefsOk, Kept, AddrMan.ClearNew;
      ghost var m := Contents();
      forall n | n in loose ensures Spared(m, Demote(k, m, s), n) {
        DemoteSpares(k, m, s, loose, n);
      }
      UntryIsConsistent(k, m, s, loose);
      var nIdEvict := vvTried[s];
      mapInfo := mapInfo[nIdEvict := mapInfo[nIdEvict].(fInTried := false)];
      vvTried := vvTried - {s};
      nTried := nTried - 1;
      ghost var l := loose + {nIdEvict};
      var infoOld := mapInfo[nIdEvict];
      var u := k.NewSlot(k.GetNewBucket(infoOld.service.net, infoOld.source), infoOld.service);
      if u in vvNew {
        SlotHolder(k, Contents(), u, l, l);
      }
      ClearNewSpares(k, Contents(), u, l, l);
      assert Spared(Contents(), AddrMan.ClearNew(Contents(), u), nIdEvict);
      ClearNew(u);
      mapInfo := mapInfo[nIdEvict := mapInfo[nIdEvict].(nRefCount := 1)];
      vvNew := vvNew[u := nIdEvict];
      nNew := nNew + 1;
    }
  
    method Find(net: NetAddr) returns (found: bool, nId: nat)
      ensures found <==> net in mapAddr && mapAddr[net] in mapInfo
      ensures found ==> nId == mapAddr[net]
    {
      found, nId := false, 0;
      if net in mapAddr {
        nId := mapAddr[net];
        found := nId in mapInfo;
      }
    }

    /** `nRnd` is the random bucket the search starts from; the outcome does not depend on it. */
    method FindNewBucket(nId: nat, nRnd: nat) returns (found: bool)
      requires nId in mapInfo
      ensures found <==> InSomeNewBucket(k, Contents(), nId)
    {
      hide Turn, InBucket;
      found := false;
      for n := 0 to ADDRMAN_NEW_BUCKET_COUNT
        invariant !found
        invariant forall i :: 0 <= i < n ==> !InBucket(k, Contents(), nId, Turn(i, nRnd))
      {
        var nB := (n + nRnd) % ADDRMAN_NEW_BUCKET_COUNT;
        TurnIs(n, nRnd);
        if InBucket(k, Tables(nIdCount, mapInfo, mapAddr, vRandom, nTried, nNew, vvTried, vvNew), nId, nB) {
          return true;
        }
      }
      forall b: nat | b < ADDRMAN_NEW_BUCKET_COUNT ensures !InBucket(k, Contents(), nId, b) {
        var i := EveryBucketHasItsTurn(b, nRnd);
      }
    }

    static lemma {:induction false} TurnIs(n: nat, nRnd: nat)
      ensures Turn(n, nRnd) == (n + nRnd) % ADDRMAN_NEW_BUCKET_COUNT < ADDRMAN_NEW_BUCKET_COUNT
    {
    }

    /** `passed` is false where the assertion in `MakeTried` fails. */
    method Good_(addr: CAddress, nTime: int, nRnd: nat) returns (passed: bool)
      requires Check(k, Contents()) && nTime > 0
      modifies this
      ensures passed <==> GoodPasses(k, old(Contents()), addr, nTime)
      ensures passed ==> Contents() == Good(k, old(Contents()), addr, nTime)
      ensures passed && Check(k, Contents()) <==> PortFits(k, old(Contents()), OpGood(addr, nTime))
    {
      hide InfosOk, InfoOk, AddrsOk, RandomOk, TriedOk, CountsOk, PlacedOk, RefsOk, Kept, AddrMan.MakeTried,
        InSomeNewBucket, LeavesAllSlots, SlotsFit;
      ghost var m := Contents();
      StepIsSafeIff(k, m, OpGood(addr, nTime));
      passed := true;
      var found, nId := Find(addr.service.net);
      if !found {
        return;
      }
      GoodAssertionFits(k, m, addr, nTime);
      var info := Marked(mapInfo[nId], addr, nTime);
      mapInfo := mapInfo[nId := info];
      if mapInfo[nId].fInTried {
        return;
      }
      var fBucket := FindNewBucket(nId, nRnd);
      if !fBucket {
        return;
      }
      passed := MakeTried(nId);
    }

    /** Where the assertion in `MakeTried` holds, the port fits. */
    static lemma {:induction false} GoodAssertionFits(k: Keyed, m: Tables, addr: CAddress, nTime: int)
      requires Check(k, m) && nTime > 0 && addr.service.net in m.mapAddr
      ensures m.mapAddr[addr.service.net] in m.mapInfo
      ensures var n := m.mapAddr[addr.service.net];
              var m1 := Update(m, n, Marked(m.mapInfo[n], addr, nTime));
              !m.mapInfo[n].fInTried && LeavesAllSlots(k, m1, n) ==> Check(k, m1)
    {
      hide InfosOk, AddrsOk, RandomOk, TriedOk, CountsOk, PlacedOk, RefsOk, LeavesAllSlots, SlotsFit;
      FindIsRight(k, m, addr.service.net);
      var n := m.mapAddr[addr.service.net];
      var info := Marked(m.mapInfo[n], addr, nTime);
      if !info.fInTried && LeavesAllSlots(k, Update(m, n, info), n) {
        SetPortKeepsCheckIff(k, m, n, info);
        SameRefs(m.mapInfo, m.vvNew, n, info);
        SameSlots(k, m, n, info);
        LeavesAllOnlyIfFit(k, Update(m, n, info), n);
      }
    }

    method Add_(addr: CAddress, routable: bool, source: NetAddr, nTimePenalty: int, chance: Chance) returns (fNew: bool)
      requires Check(k, Contents())
      modifies this
      ensures Added(Contents(), fNew) == Add(k, old(Contents()), addr, routable, source, nTimePenalty, chance)
      ensures Check(k, Contents()) <==>
        PortFits(k, old(Contents()), OpAdd(addr, routable, source, nTimePenalty, chance))
    {
      hide Check, PortFits, AddrMan.Create, AddrMan.PlaceNew, CanPlace, Kept, Word, Max, Refreshed, MayMultiply;
      ghost var m := Contents();
      StepIsSafeIff(k, m, OpAdd(addr, routable, source, nTimePenalty, chance));
      fNew := false;
      if !routable {
        return;
      }
      var found, nId := Find(addr.service.net);
      if found {
        var info := Refreshed(mapInfo[nId], addr, source, nTimePenalty, chance.now);
        mapInfo := mapInfo[nId := info];
        var multiplies := Multiplies(info, addr, chance.random);
        if !multiplies {
          return;
        }
        MultipliedIsNew(m.mapInfo[nId], addr, source, nTimePenalty, chance);
        KnownCanBePlaced(k, m, nId, info);
        PlaceNew(nId, source, chance.now);
      } else {
        AddrsReach(k, m, addr.service.net);
        nId := Create(addr, source);
        CreatedCanBePlaced(k, m, addr, source, Word(Max(0, addr.nTime - nTimePenalty)));
        mapInfo := mapInfo[nId := mapInfo[nId].(nTime := Word(Max(0, mapInfo[nId].nTime - nTimePenalty)))];
        nNew := nNew + 1;
        fNew := true;
        PlaceNew(nId, source, chance.now);
      }
    }

    /** What placing a new entry relies on: places are right, and who is in a slot is a referenced new entry. */
    static ghost predicate CanPlace(m: Tables, n: nat) {
      && RandomOk(m.mapInfo, m.vRandom) && n in m.mapInfo && !m.mapInfo[n].fInTried
      && forall s :: s in m.vvNew ==>
        m.vvNew[s] in m.mapInfo && !m.mapInfo[m.vvNew[s]].fInTried && m.mapInfo[m.vvNew[s]].nRefCount > 0
    }

    /** The tests that a known address has to pass for one more slot, the stochastic one last. */
    static method Multiplies(info: CAddrInfo, addr: CAddress, random: nat) returns (multiplies: bool)
      ensures multiplies <==> MayMultiply(info, addr, random)
    {
      hide Pow;
      if addr.nTime == 0 || (info.nTime != 0 && addr.nTime <= info.nTime) {
        return false;
      }
      if info.fInTried {
        return false;
      }
      if info.nRefCount == ADDRMAN_NEW_BUCKETS_PER_ADDRESS {
        return false;
      }
      var nFactor := 1;
      Doubled(0);
      var n := 0;
      while n < info.nRefCount
        invariant 0 <= n <= NotNegative(info.nRefCount) && nFactor == Pow(2, n) > 0
      {
        Doubled(n);
        nFactor := nFactor * 2;
        n := n + 1;
      }
      if nFactor > 1 && random % nFactor != 0 {
        return false;
      }
      return true;
    }

    static lemma {:induction false} Doubled(n: nat)
      ensures Pow(2, 0) == 1 && Pow(2, n + 1) == Pow(2, n) * 2
    {
    }

    static lemma {:induction false} MultipliedIsNew(info: CAddrInfo, addr: CAddress, source: NetAddr,
        nTimePenalty: int, chance: Chance)
      ensures var r := Refreshed(info, addr, source, nTimePenalty, chance.now);
              && r.nRandomPos == info.nRandomPos && r.nRefCount == info.nRefCount && r.fInTried == info.fInTried
              && (MayMultiply(r, addr, chance.random) ==> !r.fInTried)
    {
    }

    static lemma {:induction false} KnownCanBePlaced(k: Keyed, m: Tables, n: nat, info: CAddrInfo)
      requires Check(k, m) && n in m.mapInfo && !info.fInTried && info.nRandomPos == m.mapInfo[n].nRandomPos
      requires info.nRefCount == m.mapInfo[n].nRefCount && info.fInTried == m.mapInfo[n].fInTried
      ensures CanPlace(Update(m, n, info), n)
    {
      hide InfosOk, AddrsOk, RandomOk, TriedOk, CountsOk, PlacedOk, RefsOk;
      UpdateRandom(m.mapInfo, m.vRandom, n, info);
      forall s | s in m.vvNew
        ensures m.vvNew[s] in m.mapInfo && !m.mapInfo[m.vvNew[s]].fInTried && m.mapInfo[m.vvNew[s]].nRefCount > 0
      {
        SlotHolder(k, m, s, {}, {});
      }
    }

    static lemma {:induction false} CreatedCanBePlaced(k: Keyed, m: Tables, addr: CAddress, source: NetAddr, nTime: int)
      requires Check(k, m) && addr.service.net !in m.mapAddr
      ensures var c, n := AddrMan.Create(m, addr, source), m.nIdCount;
              && n in c.mapInfo && c.mapInfo[n].nTime == addr.nTime
              && CanPlace(Update(c, n, c.mapInfo[n].(nTime := nTime)).(nNew := c.nNew + 1), n)
    {
      hide InfosOk, AddrsOk, RandomOk, TriedOk, CountsOk, PlacedOk, RefsOk;
      CreateIsConsistent(k, m, addr, source);
      var c, n := AddrMan.Create(m, addr, source), m.nIdCount;
      var info := c.mapInfo[n].(nTime := nTime);
      UpdateRandom(c.mapInfo, c.vRandom, n, info);
      forall s | s in m.vvNew
        ensures m.vvNew[s] in m.mapInfo && !m.mapInfo[m.vvNew[s]].fInTried && m.mapInfo[m.vvNew[s]].nRefCount > 0
      {
        SlotHolder(k, m, s, {}, {});
      }
    }

    static lemma {:induction false} AddrsReach(k: Keyed, m: Tables, net: NetAddr)
      requires Check(k, m)
      ensures net in m.mapAddr ==> m.mapAddr[net] in m.mapInfo
    {
    }

    /** Clearing a slot spares everyone but its holder. */
    static lemma {:induction false} HolderOnly(m: Tables, s: Slot, n: nat)
      requires CanPlace(m, n) && !(s in m.vvNew && m.vvNew[s] == n)
      ensures Spared(m, AddrMan.ClearNew(m, s), n)
    {
      hide RandomOk, AddrMan.Delete;
      EntryHasPlace(m.mapInfo, m.vRandom, n);
      if s in m.vvNew {
        var h := m.vvNew[s];
        var info := m.mapInfo[h].(nRefCount := m.mapInfo[h].nRefCount - 1);
        UpdateRandom(m.mapInfo, m.vRandom, h, info);
        DeleteSparesOthers(Update(m, h, info).(vvNew := m.vvNew - {s}), h);
      }
    }

    method PlaceNew(nId: nat, source: NetAddr, now: int)
      requires CanPlace(Contents(), nId)
      modifies this
      ensures Contents() == AddrMan.PlaceNew(k, old(Contents()), nId, source, now)
    {
      hide RandomOk, Kept, AddrMan.ClearNew, AddrMan.Delete;
      ghost var m := Contents();
      var nUBucket := k.GetNewBucket(mapInfo[nId].service.net, source);
      var s := k.NewSlot(nUBucket, mapInfo[nId].service);
      EntryHasPlace(mapInfo, vRandom, nId);
      if !(s in vvNew && vvNew[s] == nId) {
        var fInsert := s !in vvNew;
        if !fInsert {
          if IsTerrible(mapInfo[vvNew[s]], now) || (mapInfo[vvNew[s]].nRefCount > 1 && mapInfo[nId].nRefCount == 0) {
            fInsert := true;
          }
        }
        if fInsert {
          HolderOnly(m, s, nId);
          ClearNew(s);
          mapInfo := mapInfo[nId := mapInfo[nId].(nRefCount := mapInfo[nId].nRefCount + 1)];
          vvNew := vvNew[s := nId];
        } else if mapInfo[nId].nRefCount == 0 {
          Delete(nId);
        }
      }
    }

    method Attempt_(addr: CService, nTime: int)
      modifies this`mapInfo
      ensures Contents() == Attempt(old(Contents()), addr, nTime)
    {
      var found, nId := Find(addr.net);
      if !found {
        return;
      }
      if mapInfo[nId].service != addr {
        return;
      }
      mapInfo := mapInfo[nId := mapInfo[nId].(nLastTry := nTime)];
      mapInfo := mapInfo[nId := mapInfo[nId].(nAttempts := mapInfo[nId].nAttempts + 1)];
    }

    method Connected_(addr: CService, nTime: int)
      modifies this`mapInfo
      ensures Contents() == Connected(old(Contents()), addr, nTime)
    {
      var found, nId := Find(addr.net);
      if !found {
        return;
      }
      if mapInfo[nId].service != addr {
        return;
      }
      if nTime - mapInfo[nId].nTime > 20 * 60 {
        mapInfo := mapInfo[nId := mapInfo[nId].(nTime := Word(nTime))];
      }
    }

    /**
     A random sample without repetition: the entries that pass the filter among a random
     prefix of the shuffled ids, which is all of them unless the sample is full.
     */
    method GetAddr_(now: int, isRFC1918: CAddrInfo -> bool)
      returns (vAddr: seq<CAddress>, ghost visited: nat, ghost randoms: seq<nat>)
      requires Check(k, Contents())
      modifies this`mapInfo, this`vRandom
      ensures Contents() == Shuffle(old(Contents()), randoms) && Check(k, Contents())
      ensures visited <= |vRandom| == |old(vRandom)|
      ensures vAddr == Picked(mapInfo, vRandom[..visited], Shareable(now, isRFC1918))
      ensures |vAddr| <= MaxShared(|vRandom|) && (visited < |vRandom| ==> |vAddr| == MaxShared(|vRandom|))
    {
      hide Check, Kept, AddrMan.SwapRandom, Picked, Shuffle, Shareable;
      ghost var m := Contents();
      var shareable := Shareable(now, isRFC1918);
      var nNodes := ADDRMAN_GETADDR_MAX_PCT * |vRandom| / 100;
      if nNodes > ADDRMAN_GETADDR_MAX {
        nNodes := ADDRMAN_GETADDR_MAX;
      }
      vAddr, visited, randoms := [], 0, [];
      NothingPicked(m, mapInfo, shareable);
      assert vRandom[..0] == [];
      for n := 0 to |vRandom|
        invariant n == visited <= |randoms| == n && |vRandom| == |m.vRandom| && |vAddr| <= nNodes
        invariant Contents() == Shuffle(m, randoms) && Check(k, Contents())
        invariant vAddr == Picked(mapInfo, vRandom[..n], shareable)
      {
        if |vAddr| >= nNodes {
          break;
        }
        ghost var drawn := Draw(n, shareable);
        ShuffleNext(m, randoms, drawn);
        randoms := randoms + [drawn];
        visited := n + 1;
        PickNext(mapInfo, vRandom, n, shareable);
        if vRandom[n] in mapInfo && shareable(mapInfo[vRandom[n]]) {
          vAddr := vAddr + [AddressOf(mapInfo[vRandom[n]])];
        }
      }
    }

    static function MaxShared(n: nat): nat {
      var nNodes := ADDRMAN_GETADDR_MAX_PCT * n / 100;
      if nNodes > ADDRMAN_GETADDR_MAX then ADDRMAN_GETADDR_MAX else nNodes
    }

    /** At most 625, and the largest number of at most 70 percent that is. */
    static lemma {:induction false} ShareIsLimited(n: nat)
      ensures MaxShared(n) <= 625 && 100 * MaxShared(n) <= 70 * n
      ensures MaxShared(n) == 625 || 100 * (MaxShared(n) + 1) > 70 * n
    {
    }

    static lemma {:induction false} NothingPicked(m: Tables, infos: Infos, shareable: CAddrInfo -> bool)
      ensures Picked(infos, [], shareable) == [] && Shuffle(m, []) == m
    {
    }

    static lemma {:induction false} ShuffleNext(m: Tables, randoms: seq<nat>, r: nat)
      requires |randoms| < |Shuffle(m, randoms).vRandom| && r < |Shuffle(m, randoms).vRandom| - |randoms|
      ensures Shuffle(m, randoms + [r]) == AddrMan.SwapRandom(Shuffle(m, randoms), |randoms|, |randoms| + r)
    {
      hide AddrMan.SwapRandom;
      assert (randoms + [r])[..|randoms|] == randoms;
      SmallMod(r, |Shuffle(m, randoms).vRandom| - |randoms|);
    }

    static lemma {:induction false} SmallMod(r: nat, d: nat)
      requires r < d
      ensures r % d == r
    {
    }

    static lemma {:induction false} PickNext(infos: Infos, vRandom: seq<nat>, n: nat, shareable: CAddrInfo -> bool)
      requires n < |vRandom|
      ensures Picked(infos, vRandom[..n + 1], shareable) == Picked(infos, vRandom[..n], shareable)
        + if vRandom[n] in infos && shareable(infos[vRandom[n]]) then [AddressOf(infos[vRandom[n]])] else []
    {
      assert vRandom[..n + 1][..n] == vRandom[..n];
    }

    /** One round of the shuffle: a random id from position `n` on comes to position `n`. */
    method Draw(n: nat, ghost shareable: CAddrInfo -> bool) returns (ghost drawn: nat)
      requires Check(k, Contents()) && n < |vRandom|
      modifies this`mapInfo, this`vRandom
      ensures |vRandom| == |old(vRandom)| && Check(k, Contents()) && drawn < |vRandom| - n
      ensures Contents() == AddrMan.SwapRandom(old(Contents()), n, n + drawn)
      ensures Picked(mapInfo, vRandom[..n], shareable) == Picked(old(mapInfo), old(vRandom)[..n], shareable)
    {
      hide InfosOk, AddrsOk, TriedOk, CountsOk, PlacedOk, RefsOk, RandomOk, Kept, AddrMan.SwapRandom, SameButRandom,
        Picked;
      var nRndPos :| n <= nRndPos < |vRandom|;
      drawn := nRndPos - n;
      SwapKeepsConsistency(k, Contents(), n, nRndPos, {}, {});
      PickedIsStable(Contents(), n, nRndPos, n, shareable);
      PlacesAreTaken(Contents(), n);
      PlacesAreTaken(Contents(), nRndPos);
      SwapRandom(n, nRndPos);
    }

    // Saving and restoring.

    /** One of the two loops that write entries; the counter is never reached before the last entry. */
    method WriteEntries(tried: bool) returns (stored: seq<File.StoredInfo>, mapUnkIds: map<nat, nat>)
      requires Check(k, Contents())
      ensures stored == File.Listed(mapInfo, tried, nIdCount)
      ensures !tried ==> forall n :: n in mapInfo ==> n in mapUnkIds && mapUnkIds[n] == File.UnkId(mapInfo, n)
    {
      hide Check, File.Store, File.IsListed, File.Listed, File.Order;
      var nIds := 0;
      stored, mapUnkIds := [], map[];
      IdsAreCounted(k, Contents());
      NothingWritten(mapInfo, tried);
      for id := 0 to nIdCount
        invariant stored == File.Listed(mapInfo, tried, id) && nIds == |File.Order(mapInfo, tried, id)|
        invariant !tried ==>
          forall n :: n in mapInfo && n < id ==> n in mapUnkIds && mapUnkIds[n] == File.UnkId(mapInfo, n)
      {
        WriteNext(k, Contents(), tried, id);
        if id in mapInfo {
          if !tried {
            mapUnkIds := mapUnkIds[id := nIds];
          }
          if File.IsListed(mapInfo[id], tried) {
            assert nIds != if tried then nTried else nNew;
            stored := stored + [File.Store(mapInfo[id])];
            nIds := nIds + 1;
          }
        }
      }
    }

    static lemma {:induction false} NothingWritten(infos: Infos, tried: bool)
      ensures File.Listed(infos, tried, 0) == [] && File.Order(infos, tried, 0) == []
    {
    }

    static lemma {:induction false} WriteNext(k: Keyed, m: Tables, tried: bool, id: nat)
      requires Check(k, m) && id < m.nIdCount
      ensures var listed := id in m.mapInfo && File.IsListed(m.mapInfo[id], tried);
        && File.Listed(m.mapInfo, tried, id + 1)
           == (if listed then File.Listed(m.mapInfo, tried, id) + [File.Store(m.mapInfo[id])]
               else File.Listed(m.mapInfo, tried, id))
        && |File.Order(m.mapInfo, tried, id + 1)| == |File.Order(m.mapInfo, tried, id)| + (if listed then 1 else 0)
        && (listed ==> |File.Order(m.mapInfo, tried, id)| != if tried then m.nTried else m.nNew)
    {
      hide InfosOk, AddrsOk, RandomOk, TriedOk, CountsOk, PlacedOk, RefsOk, File.Store, File.IsListed;
      File.CountersMatch(m);
      if id in m.mapInfo && File.IsListed(m.mapInfo[id], tried) {
        File.ListedIsInOrder(m.mapInfo, tried, m.nIdCount, id);
      }
    }

    static lemma {:induction false} IdsAreCounted(k: Keyed, m: Tables)
      requires Check(k, m)
      ensures forall n :: n in m.mapInfo ==> n < m.nIdCount
    {
      forall n | n in m.mapInfo ensures n < m.nIdCount {
        assert InfoOk(n, m.mapInfo[n], m.nIdCount, false);
      }
    }

    method WriteBuckets(mapUnkIds: map<nat, nat>) returns (buckets: seq<seq<int>>)
      requires forall s :: s in vvNew ==> vvNew[s] in mapUnkIds && mapUnkIds[vvNew[s]] == File.UnkId(mapInfo, vvNew[s])
      ensures buckets == File.Buckets(mapInfo, vvNew, ADDRMAN_NEW_BUCKET_COUNT)
    {
      hide File.UnkId;
      buckets := [];
      for bucket := 0 to ADDRMAN_NEW_BUCKET_COUNT
        invariant buckets == File.Buckets(mapInfo, vvNew, bucket)
      {
        var list: seq<int> := [];
        for i := 0 to ADDRMAN_BUCKET_SIZE
          invariant list == File.BucketList(mapInfo, vvNew, bucket, i)
        {
          if Slot(bucket, i) in vvNew {
            var nIndex := mapUnkIds[vvNew[Slot(bucket, i)]];
            list := list + [nIndex];
          }
        }
        buckets := buckets + [list];
      }
    }

    method Serialize() returns (f: File.PeersFile)
      requires Check(k, Contents())
      ensures f == File.Serialize(Contents())
    {
      hide InfosOk, AddrsOk, RandomOk, TriedOk, CountsOk, RefsOk, File.Listed, File.Buckets;
      var newInfos, mapUnkIds := WriteEntries(false);
      var triedInfos, _ := WriteEntries(true);
      var buckets := WriteBuckets(mapUnkIds);
      f := File.PeersFile(1, ADDRMAN_NEW_BUCKET_COUNT, newInfos, triedInfos, buckets);
    }

    /** `Clear` as it is: the tables go, `mapInfo` and `mapAddr` stay. */
    method Clear()
      modifies this
      ensures Contents() == Cleared(old(Contents()))
      ensures mapInfo == old(mapInfo) && mapAddr == old(mapAddr) && vRandom == [] && nTried == nNew == nIdCount == 0
      ensures vvTried == vvNew == map[]
    {
      vRandom, vvNew, vvTried, nIdCount, nTried, nNew := [], map[], map[], 0, 0, 0;
    }

    static function Cleared(m: Tables): Tables {
      EMPTY.(mapInfo := m.mapInfo, mapAddr := m.mapAddr)
    }

    /** So a cleared manager is consistent exactly when it was empty before. */
    static lemma {:induction false} ClearedIsConsistentIff(k: Keyed, m: Tables)
      requires Check(k, m)
      ensures Check(k, Cleared(m)) <==> m.mapInfo == map[]
    {
      if m.mapInfo == map[] {
        assert m.mapAddr == map[];
        assert Cleared(m) == EMPTY;
        EmptyIsConsistent(k);
      } else {
        var n :| n in m.mapInfo;
        assert Check(k, Cleared(m)) ==> RandomOk(m.mapInfo, []);
      }
    }

    /** A case where it is not: a manager that has been told one address. */
    static lemma {:induction false} ClearLeavesAnEntry(k: Keyed)
      ensures var m := Add(k, EMPTY, CAddress(CService(5, 0), 0, 9), true, 5, 0, Chance(9, 0)).m;
              Check(k, m) && !Check(k, Cleared(m))
    {
      hide Check, Keyed.NewSlot;
      EmptyIsConsistent(k);
      AddKeepsCheckIff(k, EMPTY, CAddress(CService(5, 0), 0, 9), true, 5, 0, Chance(9, 0));
      var m := Add(k, EMPTY, CAddress(CService(5, 0), 0, 9), true, 5, 0, Chance(9, 0)).m;
      assert 0 in m.mapInfo;
      ClearedIsConsistentIff(k, m);
    }

    method ReadOneNew(n: nat, stored: File.StoredInfo, usable: bool)
      modifies this
      ensures Contents() == File.AddNew(k, old(Contents()), n, stored, usable)
    {
      var info := File.Load(stored, |vRandom|, false);
      mapAddr := mapAddr[info.service.net := n];
      vRandom := vRandom + [n];
      mapInfo := mapInfo[n := info];
      if !usable {
        var s := k.NewSlot(k.GetNewBucket(info.service.net, info.source), info.service);
        if s !in vvNew {
          vvNew := vvNew[s := n];
          mapInfo := mapInfo[n := info.(nRefCount := info.nRefCount + 1)];
        }
      }
    }

    method ReadNewEntries(f: File.PeersFile)
      requires Contents() == EMPTY.(nNew := nNew, nTried := nTried)
      modifies this
      ensures Contents() == File.ReadNew(k, old(Contents()), f.newInfos, File.IsUsable(f)) &&
        File.IdsBelow(Contents(), |f.newInfos|)
    {
      hide RandomOk, File.AddNew;
      ghost var m := Contents();
      NothingRead(k, m, f);
      for n := 0 to |f.newInfos|
        invariant Contents() == File.ReadNew(k, m, f.newInfos[..n], File.IsUsable(f)) && File.IdsBelow(Contents(), n)
      {
        File.AddNewKeepsOrder(k, Contents(), n, f.newInfos[n], File.IsUsable(f));
        ReadNextNew(k, m, f, n);
        ReadOneNew(n, f.newInfos[n], File.IsUsable(f));
      }
      assert f.newInfos[..|f.newInfos|] == f.newInfos;
    }

    static lemma {:induction false} NothingRead(k: Keyed, m: Tables, f: File.PeersFile)
      requires m == EMPTY.(nNew := m.nNew, nTried := m.nTried)
      ensures m == File.ReadNew(k, m, f.newInfos[..0], File.IsUsable(f)) && File.IdsBelow(m, 0)
    {
    }

    static lemma {:induction false} ReadNextNew(k: Keyed, m: Tables, f: File.PeersFile, n: nat)
      requires n < |f.newInfos|
      ensures File.ReadNew(k, m, f.newInfos[..n + 1], File.IsUsable(f)) ==
        File.AddNew(k, File.ReadNew(k, m, f.newInfos[..n], File.IsUsable(f)), n, f.newInfos[n], File.IsUsable(f))
    {
      assert f.newInfos[..n + 1][..n] == f.newInfos[..n];
    }

    method ReadOneTried(stored: File.StoredInfo) returns (lost: bool)
      modifies this
      ensures Contents().(nTried := if lost then nTried - 1 else nTried) == File.AddTried(k, old(Contents()), stored)
      ensures nTried == old(nTried)
    {
      var s := k.TriedSlot(stored.service);
      if s in vvTried {
        return true;
      }
      var info := File.Load(stored, |vRandom|, true);
      vRandom := vRandom + [nIdCount];
      mapInfo := mapInfo[nIdCount := info];
      mapAddr := mapAddr[info.service.net := nIdCount];
      vvTried := vvTried[s := nIdCount];
      nIdCount := nIdCount + 1;
      return false;
    }

    static lemma {:induction false} CountApart(k: Keyed, m: Tables, stored: File.StoredInfo, nTried: int)
      ensures var r := File.AddTried(k, m, stored);
        File.AddTried(k, m.(nTried := nTried), stored) == r.(nTried := nTried + r.nTried - m.nTried)
    {
      hide Keyed.TriedSlot, File.Load;
      var s := k.TriedSlot(stored.service);
      if s !in m.vvTried {
        assert File.AddTried(k, m.(nTried := nTried), stored).mapInfo == File.AddTried(k, m, stored).mapInfo;
      }
    }

    method ReadTriedEntries(f: File.PeersFile)
      requires File.IdsBelow(Contents(), nIdCount)
      modifies this
      ensures Contents() == File.ReadTried(k, old(Contents()), f.triedInfos) && File.IdsBelow(Contents(), nIdCount)
    {
      hide RandomOk, File.AddTried;
      ghost var m := Contents();
      var nLost := 0;
      for n := 0 to |f.triedInfos|
        invariant Contents().(nTried := nTried - nLost) == File.ReadTried(k, m, f.triedInfos[..n])
        invariant File.IdsBelow(Contents(), nIdCount)
      {
        ReadNextTried(k, m, f, n);
        CountApart(k, Contents(), f.triedInfos[n], nTried - nLost);
        File.AddTriedKeepsOrder(k, Contents(), f.triedInfos[n]);
        var lost := ReadOneTried(f.triedInfos[n]);
        if lost {
          nLost := nLost + 1;
        }
      }
      assert f.triedInfos[..|f.triedInfos|] == f.triedInfos;
      nTried := nTried - nLost;
    }

    static lemma {:induction false} ReadNextTried(k: Keyed, m: Tables, f: File.PeersFile, n: nat)
      requires n < |f.triedInfos|
      ensures File.ReadTried(k, m, f.triedInfos[..n + 1]) ==
        File.AddTried(k, File.ReadTried(k, m, f.triedInfos[..n]), f.triedInfos[n])
    {
      assert f.triedInfos[..n + 1][..n] == f.triedInfos[..n];
    }

    method ReadPositions(f: File.PeersFile)
      requires RandomOk(mapInfo, vRandom)
      modifies this
      ensures Contents() == File.ReadBuckets(k, old(Contents()), f.buckets, File.IsUsable(f)) &&
        RandomOk(mapInfo, vRandom)
    {
      hide RandomOk, File.ReadBucket;
      ghost var m := Contents();
      for bucket := 0 to |f.buckets|
        invariant Contents() == File.ReadBuckets(k, m, f.buckets[..bucket], File.IsUsable(f)) &&
          RandomOk(mapInfo, vRandom)
      {
        assert f.buckets[..bucket + 1][..bucket] == f.buckets[..bucket];
        ReadOneBucket(bucket, f.buckets[bucket], File.IsUsable(f));
      }
      assert f.buckets[..|f.buckets|] == f.buckets;
    }

    method ReadOneIndex(bucket: nat, nIndex: int, usable: bool)
      modifies this
      ensures Contents() == File.PlaceIndex(k, old(Contents()), bucket, nIndex, usable)
    {
      if 0 <= nIndex < nNew && nIndex in mapInfo {
        var s := k.NewSlot(bucket, mapInfo[nIndex].service);
        if usable && s !in vvNew && mapInfo[nIndex].nRefCount < ADDRMAN_NEW_BUCKETS_PER_ADDRESS {
          mapInfo := mapInfo[nIndex := mapInfo[nIndex].(nRefCount := mapInfo[nIndex].nRefCount + 1)];
          vvNew := vvNew[s := nIndex];
        }
      }
    }

    method ReadOneBucket(bucket: nat, list: seq<int>, usable: bool)
      requires RandomOk(mapInfo, vRandom)
      modifies this
      ensures Contents() == File.ReadBucket(k, old(Contents()), bucket, list, usable) && RandomOk(mapInfo, vRandom)
    {
      hide RandomOk, File.PlaceIndex;
      ghost var m := Contents();
      for n := 0 to |list|
        invariant Contents() == File.ReadBucket(k, m, bucket, list[..n], usable) && RandomOk(mapInfo, vRandom)
      {
        assert list[..n + 1][..n] == list[..n];
        File.PlaceKeepsOrder(k, Contents(), bucket, list[n], usable);
        ReadOneIndex(bucket, list[n], usable);
      }
      assert list[..|list|] == list;
    }

    method PruneUnplaced()
      requires RandomOk(mapInfo, vRandom)
      modifies this
      ensures Contents() == File.Prune(old(Contents()), old(nIdCount))
    {
      hide RandomOk, AddrMan.Delete;
      ghost var m := Contents();
      var count := nIdCount;
      for id := 0 to count
        invariant Contents() == File.Prune(m, id) && RandomOk(mapInfo, vRandom)
      {
        if id in mapInfo && !mapInfo[id].fInTried && mapInfo[id].nRefCount == 0 {
          File.DeleteKeepsOrder(Contents(), id);
          Delete(id);
        }
      }
    }

    /** Reading a file into a manager that has never held anything. The file's key becomes the manager's. */
    method Unserialize(f: File.PeersFile)
      requires mapInfo == map[] && mapAddr == map[]
      modifies this
      ensures Contents() == File.Unserialize(k, f)
    {
      hide File.ReadNew, File.ReadTried, File.ReadBuckets, File.Prune, RandomOk;
      Clear();
      nNew, nTried := |f.newInfos|, |f.triedInfos|;
      ReadNewEntries(f);
      nIdCount := |f.newInfos|;
      ReadTriedEntries(f);
      ReadPositions(f);
      PruneUnplaced();
    }
  }
}
