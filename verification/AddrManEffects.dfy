/**
 What the operations of the address manager do to its entries: who gets a slot, who is
 displaced, and what is recorded.
 */
module AddrManEffects {
  import opened AddrMan
  import opened Powers

  // ------------------------------------------------------------------------ announcements

  /** The new slot that an announcement of an address leads to; the port is the recorded one, unless it is set. */
  function SlotFor(k: Keyed, m: Tables, addr: CAddress, source: NetAddr): Slot {
    var net := addr.service.net;
    var recorded := net in m.mapAddr && m.mapAddr[net] in m.mapInfo && net != source;
    k.NewSlot(k.GetNewBucket(net, source), if recorded then m.mapInfo[m.mapAddr[net]].service else addr.service)
  }

  /** The slot is taken, by an entry that has no other. */
  ghost predicate IsOnlySlot(vvNew: map<Slot, nat>, s: Slot) {
    s in vvNew && forall t :: t in vvNew && vvNew[t] == vvNew[s] ==> t == s
  }

  ghost predicate HeldByTerrible(m: Tables, s: Slot, now: int) {
    s in m.vvNew && m.vvNew[s] in m.mapInfo && IsTerrible(m.mapInfo[m.vvNew[s]], now)
  }

  /** Who goes when a slot is taken: its holder, if it has no other. */
  ghost function Displaced(m: Tables, s: Slot): set<nat> {
    if IsOnlySlot(m.vvNew, s) then {m.vvNew[s]} else {}
  }

  lemma {:induction false} OneReferenceIff(k: Keyed, m: Tables, s: Slot, loose: set<nat>, uncounted: set<nat>)
    requires Consistent(k, m, loose, uncounted) && s in m.vvNew
    ensures m.vvNew[s] in m.mapInfo && m.mapInfo[m.vvNew[s]].nRefCount >= 1
    ensures m.mapInfo[m.vvNew[s]].nRefCount == 1 <==> IsOnlySlot(m.vvNew, s)
  {
    hide InfosOk, AddrsOk, RandomOk, TriedOk, CountsOk, PlacedOk, SlotsOf, IsOnlySlot;
    SlotHolder(k, m, s, loose, uncounted);
    OneSlotIff(m.vvNew, s);
  }

  lemma {:induction false} OneSlotIff(vvNew: map<Slot, nat>, s: Slot)
    requires s in vvNew
    ensures |SlotsOf(vvNew, vvNew[s])| == 1 <==> IsOnlySlot(vvNew, s)
  {
    var slots := SlotsOf(vvNew, vvNew[s]);
    assert s in slots && slots == {s} + (slots - {s});
    if IsOnlySlot(vvNew, s) {
      assert slots == {s};
    } else {
      var t :| t in vvNew && vvNew[t] == vvNew[s] && t != s;
      assert t in slots - {s};
    }
  }

  /** Freeing a slot and giving it to `n`. */
  lemma {:induction false} TakingDisplaces(k: Keyed, m: Tables, n: nat, s: Slot, loose: set<nat>)
    requires Consistent(k, m, loose, {}) && n in m.mapInfo && !(s in m.vvNew && m.vvNew[s] == n)
    ensures n in ClearNew(m, s).mapInfo
    ensures var r := Occupy(ClearNew(m, s), n, s);
            && r.mapInfo.Keys == m.mapInfo.Keys - Displaced(m, s) && r.vvNew == m.vvNew[s := n]
            && r.vvTried == m.vvTried && SameRecord(m.mapInfo[n], r.mapInfo[n])
            && r.mapInfo[n].nRefCount == m.mapInfo[n].nRefCount + 1
  {
    hide InfosOk, AddrsOk, RandomOk, TriedOk, CountsOk, PlacedOk, RefsOk, ClearNew, Kept, IsOnlySlot;
    ClearNewSpares(k, m, s, loose, {});
    assert Spared(m, ClearNew(m, s), n);
    ClearNewDisplaces(k, m, s, loose, {});
  }

  lemma {:induction false} ClearNewDisplaces(k: Keyed, m: Tables, s: Slot, loose: set<nat>, uncounted: set<nat>)
    requires Consistent(k, m, loose, uncounted)
    ensures ClearNew(m, s).mapInfo.Keys == m.mapInfo.Keys - Displaced(m, s)
  {
    hide InfosOk, AddrsOk, TriedOk, CountsOk, PlacedOk, RefsOk, RandomOk, Kept, Delete, IsOnlySlot;
    if s in m.vvNew {
      OneReferenceIff(k, m, s, loose, uncounted);
      var n := m.vvNew[s];
      var info := m.mapInfo[n].(nRefCount := m.mapInfo[n].nRefCount - 1);
      EntryHasPlace(m.mapInfo, m.vRandom, n);
      UpdateRandom(m.mapInfo, m.vRandom, n, info);
      DeleteSparesOthers(Update(m, n, info).(vvNew := m.vvNew - {s}), n);
    } else {
      NotTakenNotOnly(m.vvNew, s);
    }
  }

  lemma {:induction false} NotTakenNotOnly(vvNew: map<Slot, nat>, s: Slot)
    ensures s !in vvNew ==> !IsOnlySlot(vvNew, s)
  {
  }

  /** Entry `n`, which has no slot yet if it is `loose`, is given a slot that it does not have. */
  ghost predicate HasRoom(m: Tables, s: Slot, now: int, unplaced: bool) {
    s !in m.vvNew || HeldByTerrible(m, s, now) || (unplaced && !IsOnlySlot(m.vvNew, s))
  }

  /** The consistency may be one under other hashes, because nothing but the slot depends on them. */
  lemma {:induction false} PlacingDisplaces(k: Keyed, k': Keyed, m: Tables, n: nat, source: NetAddr, now: int,
          loose: set<nat>)
    requires Consistent(k', m, loose, {}) && n in m.mapInfo && loose <= {n} && !m.mapInfo[n].fInTried
    ensures var r, s := PlaceNew(k, m, n, source, now),
      k.NewSlot(k.GetNewBucket(m.mapInfo[n].service.net, source), m.mapInfo[n].service);
            var taken := !(s in m.vvNew && m.vvNew[s] == n) && HasRoom(m, s, now, n in loose);
            && r.vvTried == m.vvTried
            && r.vvNew == (if taken then m.vvNew[s := n] else m.vvNew)
            && r.mapInfo.Keys == m.mapInfo.Keys - (if taken then Displaced(m, s) else loose)
            && (n in r.mapInfo ==> SameRecord(m.mapInfo[n], r.mapInfo[n]))
  {
    hide InfosOk, AddrsOk, RandomOk, TriedOk, CountsOk, PlacedOk, RefsOk, ClearNew, Delete, IsOnlySlot, Keyed.NewSlot;
    var s := k.NewSlot(k.GetNewBucket(m.mapInfo[n].service.net, source), m.mapInfo[n].service);
    NoSlotNoReference(k', m, n, loose);
    EntryHasPlace(m.mapInfo, m.vRandom, n);
    DeleteSparesOthers(m, n);
    if s in m.vvNew {
      OneReferenceIff(k', m, s, loose, {});
      SlotHolder(k', m, s, loose, {});
    }
    if !(s in m.vvNew && m.vvNew[s] == n) {
      TakingDisplaces(k', m, n, s, loose);
    }
  }

  /** An unsigned 32-bit time, and a penalty. */
  predicate TimesFit(addr: CAddress, nTimePenalty: int) {
    0 <= addr.nTime < 0x1_0000_0000 && 0 <= nTimePenalty
  }

  /** The manager once an unknown address has its entry, counted but not placed yet. */
  ghost function WithNewcomer(m: Tables, addr: CAddress, source: NetAddr, nTimePenalty: int): Tables {
    var c, n := Create(m, addr, source), m.nIdCount;
    Update(c, n, c.mapInfo[n].(nTime := Word(Max(0, addr.nTime - nTimePenalty)))).(nNew := c.nNew + 1)
  }

  lemma {:induction false} NewcomerIsConsistent(k: Keyed, m: Tables, addr: CAddress, source: NetAddr, nTimePenalty: int)
    requires Check(k, m) && addr.service.net !in m.mapAddr && TimesFit(addr, nTimePenalty)
    ensures var u, n := WithNewcomer(m, addr, source, nTimePenalty), m.nIdCount;
            && Consistent(k, u, {n}, {}) && n !in m.mapInfo && u.vvNew == m.vvNew && u.vvTried == m.vvTried
            && n in u.mapInfo && u.mapInfo == m.mapInfo[n := u.mapInfo[n]]
            && u.mapInfo[n] == CAddrInfo(addr.service, addr.nServices, Max(0, addr.nTime - nTimePenalty), source, 0, 0,
              0, 0, false, |m.vRandom|)
  {
    hide InfosOk, AddrsOk, RandomOk, TriedOk, CountsOk, PlacedOk, RefsOk;
    var n, c := m.nIdCount, Create(m, addr, source);
    CreateIsConsistent(k, m, addr, source);
    var info := c.mapInfo[n].(nTime := Word(Max(0, addr.nTime - nTimePenalty)));
    StatisticsKeepConsistency(k, c, n, info, {n}, {n});
    var u := Update(c, n, info);
    CountIn(u.mapInfo, |u.vRandom|, u.nTried, u.nNew, {n}, n);
    assert {n} - {n} == {};
  }

  lemma {:induction false} AddIsPlaceNew(k: Keyed, m: Tables, addr: CAddress, source: NetAddr, nTimePenalty: int,
          chance: Chance)
    requires addr.service.net !in m.mapAddr
    ensures var u := WithNewcomer(m, addr, source, nTimePenalty);
            m.nIdCount in u.mapInfo && Add(k, m, addr, true, source, nTimePenalty, chance) ==
              Added(PlaceNew(k, u, m.nIdCount, source, chance.now), true)
  {
    hide PlaceNew, Kept;
  }

  /**
   An unknown address is known afterwards if and only if its slot is free, its holder is terrible, or its holder
   has another slot; then it has that slot, and nobody goes but a holder that had no other. Otherwise nothing changes.
   */
  lemma {:induction false} UnknownIsAddedIff(k: Keyed, m: Tables, addr: CAddress, source: NetAddr, nTimePenalty: int,
          chance: Chance)
    requires Check(k, m) && addr.service.net !in m.mapAddr && TimesFit(addr, nTimePenalty)
    ensures var a, s, n := Add(k, m, addr, true, source, nTimePenalty, chance), SlotFor(k, m, addr, source),
      m.nIdCount;
            var added := s !in m.vvNew || HeldByTerrible(m, s, chance.now) || !IsOnlySlot(m.vvNew, s);
            && a.fNew && (addr.service.net in a.m.mapAddr <==> added)
            && a.m.vvNew == (if added then m.vvNew[s := n] else m.vvNew) && a.m.vvTried == m.vvTried
            && a.m.mapInfo.Keys == (if added then m.mapInfo.Keys + {n} - Displaced(m, s) else m.mapInfo.Keys)
            && (added ==> n in a.m.mapInfo && SameRecord(a.m.mapInfo[n],
              CAddrInfo(addr.service, addr.nServices, Max(0, addr.nTime - nTimePenalty), source, 0, 0, 0, 0, false, 0)))
  {
    hide Check, Consistent, PlaceNew, IsOnlySlot, Kept, Add, WithNewcomer, Displaced, HeldByTerrible;
    var n, u, s := m.nIdCount, WithNewcomer(m, addr, source, nTimePenalty), SlotFor(k, m, addr, source);
    NewcomerIsConsistent(k, m, addr, source, nTimePenalty);
    AddIsPlaceNew(k, m, addr, source, nTimePenalty, chance);
    PlacingDisplaces(k, k, u, n, source, chance.now, {n});
    SameRoom(k, m, u, n, s, chance.now);
    AddUnknownKeepsCheck(k, m, addr, source, nTimePenalty, chance);
    KnownIffEntry(k, u, PlaceNew(k, u, n, source, chance.now), n, {n});
  }

  lemma {:induction false} SameRoom(k: Keyed, m: Tables, u: Tables, n: nat, s: Slot, now: int)
    requires Check(k, m) && n !in m.mapInfo && u.vvNew == m.vvNew
    requires n in u.mapInfo && u.mapInfo == m.mapInfo[n := u.mapInfo[n]]
    ensures HeldByTerrible(u, s, now) == HeldByTerrible(m, s, now) && !(s in u.vvNew && u.vvNew[s] == n)
    ensures Displaced(u, s) == Displaced(m, s) <= m.mapInfo.Keys
  {
    hide InfosOk, AddrsOk, RandomOk, TriedOk, CountsOk, PlacedOk, RefsOk, IsOnlySlot;
    if s in m.vvNew {
      SlotHolder(k, m, s, {}, {});
    } else {
      NotTakenNotOnly(m.vvNew, s);
    }
  }

  /** An address is known afterwards if and only if its entry is still there. */
  lemma {:induction false} KnownIffEntry(k: Keyed, u: Tables, r: Tables, n: nat, loose: set<nat>)
    requires Consistent(k, u, loose, {}) && Check(k, r) && Kept(u, r) && n in u.mapInfo
    ensures u.mapInfo[n].service.net in r.mapAddr <==> n in r.mapInfo
  {
    hide InfosOk, RandomOk, TriedOk, CountsOk, PlacedOk, RefsOk;
    var net := u.mapInfo[n].service.net;
    if net in r.mapAddr {
      assert u.mapInfo[r.mapAddr[net]].service.net == net;
    }
  }

  // A known address.

  /** An announcement is news if it is dated, and later than the record unless that has just been set to its date. */
  predicate IsNews(recorded: int, addr: CAddress, nTimePenalty: int, now: int) {
    var nUpdateInterval := if now - addr.nTime < 24 * 60 * 60 then 60 * 60 else 24 * 60 * 60;
    addr.nTime > 0 &&
      if recorded == 0 || recorded + nUpdateInterval + nTimePenalty < addr.nTime then nTimePenalty > 0
      else addr.nTime > recorded
  }

  lemma {:induction false} NewsIff(info: CAddrInfo, addr: CAddress, source: NetAddr, nTimePenalty: int, now: int)
    requires TimesFit(addr, nTimePenalty)
    ensures var i := Refreshed(info, addr, source, nTimePenalty, now);
            addr.nTime != 0 && (i.nTime == 0 || addr.nTime > i.nTime) <==> IsNews(info.nTime, addr, nTimePenalty, now)
  {
  }

  /** Hashes under which entry `n` belongs to its slots also with another port. */
  function Moved(k: Keyed, was: CService, now: CService): Keyed {
    Keyed(s => k.tried(if s == now then was else s), k.unseen,
      (fNew, b, s) => k.place(fNew, b, if s == now then was else s))
  }

  lemma {:induction false} MovedFits(k: Keyed, m: Tables, n: nat, info: CAddrInfo)
    requires Check(k, m) && n in m.mapInfo && info.service.net == m.mapInfo[n].service.net
    requires info.fInTried == m.mapInfo[n].fInTried && info.nRandomPos == m.mapInfo[n].nRandomPos
    requires info.nRefCount == m.mapInfo[n].nRefCount
    requires info.nLastTry == m.mapInfo[n].nLastTry && info.nLastSuccess == m.mapInfo[n].nLastSuccess
    ensures Check(Moved(k, m.mapInfo[n].service, info.service), Update(m, n, info))
  {
    hide InfosOk, AddrsOk, RandomOk, CountsOk, RefsOk, TriedOk, PlacedOk;
    var k' := Moved(k, m.mapInfo[n].service, info.service);
    InfoIsOk(k, m, n, {}, {});
    OthersStay(k, m, n, info.service);
    SetPortKeepsCheckIff(k', m, n, info);
  }

  lemma {:induction false} OthersStay(k: Keyed, m: Tables, n: nat, now: CService)
    requires Check(k, m) && n in m.mapInfo && now.net == m.mapInfo[n].service.net
    ensures Check(Moved(k, m.mapInfo[n].service, now), m)
    ensures SlotsFit(Moved(k, m.mapInfo[n].service, now), m, n, now)
  {
    hide InfosOk, RandomOk, CountsOk, RefsOk, AddrsOk, TriedOk, PlacedOk, SlotsFit, Moved, Keyed.NewSlot,
      Keyed.TriedSlot;
    var k' := Moved(k, m.mapInfo[n].service, now);
    forall x | x in m.mapInfo
      ensures SameSlotsUnder(k, k', m.mapInfo[x].service, m.mapInfo[x].service)
    {
      OtherService(k, m, n, x, now);
    }
    MovedSlots(k, m.mapInfo[n].service, now, now);
    UnderOtherHashes(k, k', m, n, now);
  }

  /** Service `t` has under `k'` the slots that `s` has under `k`. */
  ghost predicate SameSlotsUnder(k: Keyed, k': Keyed, s: CService, t: CService) {
    k'.TriedSlot(t) == k.TriedSlot(s) && forall b :: k'.NewSlot(b, t) == k.NewSlot(b, s)
  }

  lemma {:induction false} MovedSlots(k: Keyed, was: CService, now: CService, s: CService)
    ensures SameSlotsUnder(k, Moved(k, was, now), if s == now then was else s, s)
  {
  }

  lemma {:induction false} OtherService(k: Keyed, m: Tables, n: nat, x: nat, now: CService)
    requires Check(k, m) && n in m.mapInfo && x in m.mapInfo && now.net == m.mapInfo[n].service.net
    ensures var s := m.mapInfo[x].service; SameSlotsUnder(k, Moved(k, m.mapInfo[n].service, now), s, s)
  {
    hide InfosOk, RandomOk, CountsOk, RefsOk, TriedOk, PlacedOk, SameSlotsUnder;
    MovedSlots(k, m.mapInfo[n].service, now, m.mapInfo[x].service);
    assert m.mapAddr[now.net] == n;
  }

  lemma {:induction false} UnderOtherHashes(k: Keyed, k': Keyed, m: Tables, n: nat, now: CService)
    requires Check(k, m) && n in m.mapInfo && SameSlotsUnder(k, k', m.mapInfo[n].service, now)
    requires forall x :: x in m.mapInfo ==> SameSlotsUnder(k, k', m.mapInfo[x].service, m.mapInfo[x].service)
    ensures Check(k', m) && SlotsFit(k', m, n, now)
  {
    hide InfosOk, RandomOk, CountsOk, RefsOk, AddrsOk, Keyed.NewSlot, Keyed.TriedSlot;
    assert TriedOk(k', m.mapInfo, m.vvTried);
    assert PlacedOk(k', m.mapInfo, m.vvNew);
  }

  /**
   A known address gets the slot of the announcement if and only if it is not tried, has fewer than eight slots, the
   announcement is news, a draw of one in two to the number of its slots succeeds, and the slot is free or held by a
   terrible other one. Nobody goes but that one, if it has no other slot.
   */
  lemma {:induction false} KnownGainsIff(k: Keyed, m: Tables, addr: CAddress, source: NetAddr, nTimePenalty: int,
          chance: Chance)
    requires Check(k, m) && addr.service.net in m.mapAddr && TimesFit(addr, nTimePenalty)
    ensures m.mapAddr[addr.service.net] in m.mapInfo
    ensures var a, s, n := Add(k, m, addr, true, source, nTimePenalty, chance), SlotFor(k, m, addr, source),
      m.mapAddr[addr.service.net];
            var info, slots := m.mapInfo[n], SlotsOf(m.vvNew, n);
            var gains :=
              && !info.fInTried && |slots| < 8 && s !in slots && (s !in m.vvNew || HeldByTerrible(m, s, chance.now))
              && IsNews(info.nTime, addr, nTimePenalty, chance.now)
              && (PowPositive(2, |slots|); chance.random % Pow(2, |slots|) == 0);
            && !a.fNew && n in a.m.mapInfo && a.m.vvTried == m.vvTried
            && a.m.vvNew == (if gains then m.vvNew[s := n] else m.vvNew)
            && a.m.mapInfo.Keys == m.mapInfo.Keys - (if gains then Displaced(m, s) else {})
  {
    hide Consistent, PlaceNew, IsOnlySlot, Kept, Moved, Displaced, HeldByTerrible, IsNews, Refreshed, SlotsOf,
      IsTerrible, Pow, Keyed.NewSlot, Keyed.GetNewBucket;
    FindIsRight(k, m, addr.service.net);
    var n := m.mapAddr[addr.service.net];
    var info := Refreshed(m.mapInfo[n], addr, source, nTimePenalty, chance.now);
    var k' := Moved(k, m.mapInfo[n].service, info.service);
    var u, s := Update(m, n, info), SlotFor(k, m, addr, source);
    RefreshKeepsPlaces(m.mapInfo[n], addr, source, nTimePenalty, chance.now);
    NewsIff(m.mapInfo[n], addr, source, nTimePenalty, chance.now);
    MovedFits(k, m, n, info);
    SlotsAreCounted(k, m, n);
    PowPositive(2, |SlotsOf(m.vvNew, n)|);
    if MayMultiply(info, addr, chance.random) {
      PlacingDisplaces(k, k', u, n, source, chance.now, {});
      SameHolder(m, u, n, s, chance.now);
    }
  }

  lemma {:induction false} RefreshKeepsPlaces(info: CAddrInfo, addr: CAddress, source: NetAddr, nTimePenalty: int,
          now: int)
    requires info.service.net == addr.service.net
    ensures var i := Refreshed(info, addr, source, nTimePenalty, now);
            && SameRecord(i, info.(service := i.service, nTime := i.nTime, nServices := i.nServices))
            && i.fInTried == info.fInTried && i.nRefCount == info.nRefCount && i.nRandomPos == info.nRandomPos
            && i.service == if addr.service.net == source then addr.service else info.service
  {
  }

  lemma {:induction false} SlotsAreCounted(k: Keyed, m: Tables, n: nat)
    requires Check(k, m) && n in m.mapInfo
    ensures !m.mapInfo[n].fInTried ==> m.mapInfo[n].nRefCount == |SlotsOf(m.vvNew, n)|
    ensures m.mapInfo[n].nRefCount <= 8
    ensures forall s :: s in SlotsOf(m.vvNew, n) <==> s in m.vvNew && m.vvNew[s] == n
  {
    InfoIsOk(k, m, n, {}, {});
  }

  lemma {:induction false} SameHolder(m: Tables, u: Tables, n: nat, s: Slot, now: int)
    requires u.vvNew == m.vvNew && n in m.mapInfo && n in u.mapInfo && u.mapInfo == m.mapInfo[n := u.mapInfo[n]]
    ensures !(s in m.vvNew && m.vvNew[s] == n) ==>
      HeldByTerrible(u, s, now) == HeldByTerrible(m, s, now) && n !in Displaced(m, s)
    ensures Displaced(u, s) == Displaced(m, s)
  {
  }

  /** Whatever is announced, an entry can only go because its one slot is wanted while it is terrible. */
  lemma {:induction false} AddLosesOnlyTerrible(k: Keyed, m: Tables, addr: CAddress, routable: bool, source: NetAddr,
          nTimePenalty: int, chance: Chance, x: nat)
    requires Check(k, m) && TimesFit(addr, nTimePenalty)
    requires x in m.mapInfo && x !in Add(k, m, addr, routable, source, nTimePenalty, chance).m.mapInfo
    ensures var s := SlotFor(k, m, addr, source);
            routable && HeldByTerrible(m, s, chance.now) && IsOnlySlot(m.vvNew, s) && m.vvNew[s] == x
  {
    hide Consistent, IsOnlySlot, HeldByTerrible, Add, IsNews, Keyed.NewSlot, SlotsOf, Pow;
    if !routable {
      NotRoutable(k, m, addr, source, nTimePenalty, chance);
    } else if addr.service.net in m.mapAddr {
      KnownGainsIff(k, m, addr, source, nTimePenalty, chance);
      NotTakenNotOnly(m.vvNew, SlotFor(k, m, addr, source));
    } else {
      UnknownIsAddedIff(k, m, addr, source, nTimePenalty, chance);
      NotTakenNotOnly(m.vvNew, SlotFor(k, m, addr, source));
    }
  }

  lemma {:induction false} NotRoutable(k: Keyed, m: Tables, addr: CAddress, source: NetAddr, nTimePenalty: int,
          chance: Chance)
    ensures Add(k, m, addr, false, source, nTimePenalty, chance) == Added(m, false)
  {
  }

  // --------------------------------------------------------------------------- promotions

  /**
   An entry that is moved has its tried slot afterwards and no new one. Who was in that slot takes the new slot of its
   own source, from whoever was there, and that one goes if it had no other. Nothing else changes in the tables.
   */
  lemma {:induction false} MakeTriedMoves(k: Keyed, m: Tables, n: nat)
    requires Check(k, m) && n in m.mapInfo && !m.mapInfo[n].fInTried && m.mapInfo[n].nLastSuccess != 0
    ensures var r, s, free := MakeTried(k, m, n), k.TriedSlot(m.mapInfo[n].service), m.vvNew - SlotsOf(m.vvNew, n);
            && r.vvTried == m.vvTried[s := n]
            && if s !in m.vvTried then r.vvNew == free && r.mapInfo.Keys == m.mapInfo.Keys
            else
              && m.vvTried[s] in m.mapInfo
              && var o := m.mapInfo[m.vvTried[s]];
              var u := k.NewSlot(k.GetNewBucket(o.service.net, o.source), o.service);
              && r.vvNew == free[u := m.vvTried[s]]
              && r.mapInfo.Keys == m.mapInfo.Keys - if IsOnlySlot(free, u) then {free[u]} else {}
  {
    hide Kept, InfosOk, InfoOk, AddrsOk, PlacedOk, RefsOk, RandomOk, CountsOk, ClearNew, Freed, SlotsOf, IsOnlySlot,
      Keyed.NewSlot, Keyed.TriedSlot;
    FreesAll(k, m, n);
    DetachIsConsistent(k, m, n);
    var d, s := Detach(k, m, n), k.TriedSlot(m.mapInfo[n].service);
    if s in d.vvTried {
      DemoteMoves(k, d, s, {n});
      DemoteSpares(k, d, s, {n}, n);
    }
  }

  lemma {:induction false} DemoteMoves(k: Keyed, m: Tables, s: Slot, loose: set<nat>)
    requires Consistent(k, m, loose, loose) && s in m.vvTried
    ensures m.vvTried[s] in m.mapInfo && m.vvTried[s] !in loose
    ensures var r, o := Demote(k, m, s), m.mapInfo[m.vvTried[s]];
            var u := k.NewSlot(k.GetNewBucket(o.service.net, o.source), o.service);
            && r.vvTried == m.vvTried - {s} && r.vvNew == m.vvNew[u := m.vvTried[s]]
            && r.mapInfo.Keys == m.mapInfo.Keys - if IsOnlySlot(m.vvNew, u) then {m.vvNew[u]} else {}
  {
    hide Kept, InfosOk, InfoOk, AddrsOk, PlacedOk, RefsOk, RandomOk, TriedOk, CountsOk, ClearNew, IsOnlySlot,
      Keyed.NewSlot, Keyed.GetNewBucket;
    UntryIsConsistent(k, m, s, loose);
    var o := m.vvTried[s];
    var t, l := Untry(m, s), loose + {o};
    var u := k.NewSlot(k.GetNewBucket(m.mapInfo[o].service.net, m.mapInfo[o].source), m.mapInfo[o].service);
    if u in t.vvNew {
      SlotHolder(k, t, u, l, l);
    }
    ClearNewSpares(k, t, u, l, l);
    ClearNewDisplaces(k, t, u, l, l);
    assert Spared(t, ClearNew(t, u), o);
  }

  // ------------------------------------------------------------------------------ records

  predicate IsGood(op: Op, net: NetAddr) { op.OpGood? && op.addr.service.net == net }

  /** An announcement by the address itself, which is believed about its port and services. */
  predicate IsOwn(op: Op, net: NetAddr) { op.OpAdd? && op.routable && op.addr.service.net == net == op.source }

  predicate IsAttempt(op: Op, service: CService) { op.OpAttempt? && op.service == service }

  /** What an operation records of an address that it does not lose; only its time is left open here. */
  ghost predicate Records(op: Op, i: CAddrInfo, r: CAddrInfo) {
    var good, own, attempt := IsGood(op, i.service.net), IsOwn(op, i.service.net), IsAttempt(op, i.service);
    && r.source == i.source
    && r.service == (if good || own then op.addr.service else i.service)
    && r.nServices == (if good || own then op.addr.nServices else i.nServices)
    && r.nLastSuccess == (if good then op.time else i.nLastSuccess)
    && r.nLastTry == (if good || attempt then op.time else i.nLastTry)
    && r.nAttempts == (if good then 0 else if attempt then i.nAttempts + 1 else i.nAttempts)
  }

  lemma {:induction false} StepRecords(k: Keyed, m: Tables, op: Op, x: nat)
    requires Check(k, m) && x in m.mapInfo && x in Step(k, m, op).mapInfo
    ensures Records(op, m.mapInfo[x], Step(k, m, op).mapInfo[x])
  {
    hide Consistent, Records, Add, Good, Attempt, Connected, Shuffle;
    match op
    case OpAdd(addr, routable, source, nTimePenalty, chance) => AddRecords(k, m, op, x);
    case OpGood(addr, time) => GoodRecords(k, m, op, x);
    case OpAttempt(service, time) => TimesRecord(k, m, op, x);
    case OpConnected(service, time) => TimesRecord(k, m, op, x);
    case OpGetAddr(randoms) =>
      ShuffleKeepsCheck(k, m, randoms);
      NothingRecords(op, m.mapInfo[x], Shuffle(m, randoms).mapInfo[x]);
  }

  lemma {:induction false} NothingRecords(op: Op, i: CAddrInfo, r: CAddrInfo)
    requires SameRecord(i, r) && !IsGood(op, i.service.net) && !IsOwn(op, i.service.net) && !IsAttempt(op, i.service)
    ensures Records(op, i, r)
  {
  }

  lemma {:induction false} IdOf(k: Keyed, m: Tables, x: nat)
    requires Check(k, m) && x in m.mapInfo
    ensures m.mapInfo[x].service.net in m.mapAddr && m.mapAddr[m.mapInfo[x].service.net] == x
  {
  }

  lemma {:induction false} AddRecords(k: Keyed, m: Tables, op: Op, x: nat)
    requires Check(k, m) && op.OpAdd? && x in m.mapInfo && x in Step(k, m, op).mapInfo
    ensures Records(op, m.mapInfo[x], Step(k, m, op).mapInfo[x])
  {
    hide Consistent, PlaceNew, Create, Refreshed, MayMultiply;
    IdOf(k, m, x);
    var net := op.addr.service.net;
    if op.routable && net in m.mapAddr {
      FindIsRight(k, m, net);
      RefreshKeepsPlaces(m.mapInfo[m.mapAddr[net]], op.addr, op.source, op.nTimePenalty, op.chance.now);
      RefreshRecords(op, m.mapInfo[m.mapAddr[net]]);
    } else if op.routable {
      IdsAreOld(k, m);
      CreatedBeside(m, op.addr, op.source, x);
    }
  }

  lemma {:induction false} CreatedBeside(m: Tables, addr: CAddress, source: NetAddr, x: nat)
    requires x in m.mapInfo && m.nIdCount !in m.mapInfo
    ensures x in Create(m, addr, source).mapInfo && Create(m, addr, source).mapInfo[x] == m.mapInfo[x]
  {
  }

  lemma {:induction false} RefreshRecords(op: Op, info: CAddrInfo)
    requires op.OpAdd? && op.routable && info.service.net == op.addr.service.net
    ensures Records(op, info, Refreshed(info, op.addr, op.source, op.nTimePenalty, op.chance.now))
  {
  }

  lemma {:induction false} GoodRecords(k: Keyed, m: Tables, op: Op, x: nat)
    requires Check(k, m) && op.OpGood? && x in m.mapInfo && x in Step(k, m, op).mapInfo
    ensures Records(op, m.mapInfo[x], Step(k, m, op).mapInfo[x])
  {
    hide Consistent, MakeTried, InSomeNewBucket;
    IdOf(k, m, x);
    if op.addr.service.net in m.mapAddr {
      FindIsRight(k, m, op.addr.service.net);
    }
  }

  lemma {:induction false} TimesRecord(k: Keyed, m: Tables, op: Op, x: nat)
    requires Check(k, m) && (op.OpAttempt? || op.OpConnected?) && x in m.mapInfo && x in Step(k, m, op).mapInfo
    ensures Records(op, m.mapInfo[x], Step(k, m, op).mapInfo[x])
  {
    hide Consistent;
    IdOf(k, m, x);
  }

  lemma {:induction false} IdsAreOld(k: Keyed, m: Tables)
    requires Check(k, m)
    ensures m.nIdCount !in m.mapInfo
  {
    hide AddrsOk, RandomOk, TriedOk, CountsOk, PlacedOk, RefsOk;
    if m.nIdCount in m.mapInfo {
      InfoIsOk(k, m, m.nIdCount, {}, {});
    }
  }

  /** The address is never lost on the way. */
  ghost predicate StaysKnown(k: Keyed, m: Tables, ops: seq<Op>, net: NetAddr)
    decreases |ops|
  {
    net in m.mapAddr && (ops != [] ==> StaysKnown(k, Step(k, m, ops[0]), ops[1..], net))
  }

  function Attempts(ops: seq<Op>, service: CService): nat {
    if ops == [] then 0 else (if IsAttempt(ops[0], service) then 1 else 0) + Attempts(ops[1..], service)
  }

  /** An operation that does not lose an address leaves it under its id. */
  lemma {:induction false} IdStays(k: Keyed, m: Tables, op: Op, net: NetAddr)
    requires Check(k, m) && Check(k, Step(k, m, op)) && net in m.mapAddr && net in Step(k, m, op).mapAddr
    ensures m.mapAddr[net] in m.mapInfo && m.mapInfo[m.mapAddr[net]].service.net == net
    ensures Step(k, m, op).mapAddr[net] == m.mapAddr[net] && m.mapAddr[net] in Step(k, m, op).mapInfo
  {
    hide Consistent, Step;
    FindIsRight(k, m, net);
    var r := Step(k, m, op);
    FindIsRight(k, r, net);
    if r.mapAddr[net] != m.mapAddr[net] {
      OthersAreOld(k, m, op, r.mapAddr[net]);
      if r.mapAddr[net] in m.mapInfo {
        IdOf(k, m, r.mapAddr[net]);
      }
    }
  }

  /** The only new entry is that of an unknown address that is announced. */
  ghost predicate IsOld(m: Tables, r: Tables, x: nat)
    requires x in r.mapInfo
  {
    var net := r.mapInfo[x].service.net;
    if x in m.mapInfo then m.mapInfo[x].service.net == net else net !in m.mapAddr
  }

  lemma {:induction false} OthersAreOld(k: Keyed, m: Tables, op: Op, x: nat)
    requires Check(k, m) && x in Step(k, m, op).mapInfo
    ensures IsOld(m, Step(k, m, op), x)
  {
    hide Consistent, Add, Good, Shuffle;
    match op
    case OpAdd(addr, routable, source, nTimePenalty, chance) => AddedAreOld(k, m, op, x);
    case OpGood(addr, time) => GoodAreOld(k, m, op, x);
    case OpAttempt(service, time) =>
    case OpConnected(service, time) =>
    case OpGetAddr(randoms) => ShuffleKeepsCheck(k, m, randoms);
  }

  lemma {:induction false} AddedAreOld(k: Keyed, m: Tables, op: Op, x: nat)
    requires Check(k, m) && op.OpAdd? && x in Step(k, m, op).mapInfo
    ensures IsOld(m, Step(k, m, op), x)
  {
    hide Consistent, PlaceNew, Refreshed, MayMultiply;
    IdsAreOld(k, m);
    if op.routable && op.addr.service.net in m.mapAddr {
      var n := m.mapAddr[op.addr.service.net];
      FindIsRight(k, m, op.addr.service.net);
      RefreshKeepsPlaces(m.mapInfo[n], op.addr, op.source, op.nTimePenalty, op.chance.now);
    }
  }

  lemma {:induction false} GoodAreOld(k: Keyed, m: Tables, op: Op, x: nat)
    requires Check(k, m) && op.OpGood? && x in Step(k, m, op).mapInfo
    ensures IsOld(m, Step(k, m, op), x)
  {
    hide Consistent, MakeTried, InSomeNewBucket;
    if op.addr.service.net in m.mapAddr {
      FindIsRight(k, m, op.addr.service.net);
    }
  }

  /**
   Over a run that never loses an address and marks it good at no point, attempts add up, and its last success
   and its source stay as they are.
   */
  lemma {:induction false} AttemptsAdd(k: Keyed, portOf: NetAddr -> nat, m: Tables, ops: seq<Op>, net: NetAddr)
    requires Check(k, m) && PortsOk(portOf, m) && StaysKnown(k, m, ops, net)
    requires forall i :: 0 <= i < |ops| ==> OnePort(portOf, ops[i]) && ClockOk(ops[i]) && !IsGood(ops[i], net)
    ensures var r, n := Run(k, m, ops), m.mapAddr[net];
            && n in m.mapInfo && n in r.mapInfo && net in r.mapAddr && r.mapAddr[net] == n
            && r.mapInfo[n].nAttempts == m.mapInfo[n].nAttempts + Attempts(ops, CService(net, portOf(net)))
            && r.mapInfo[n].nLastSuccess == m.mapInfo[n].nLastSuccess && r.mapInfo[n].source == m.mapInfo[n].source
    decreases |ops|
  {
    hide Check, Step, PortsOk, OnePort, ClockOk, PortFits;
    FindIsRight(k, m, net);
    if ops != [] {
      OnePortFits(k, portOf, m, ops[0]);
      StepIsSafeIff(k, m, ops[0]);
      OnePortStays(k, portOf, m, ops[0]);
      IdStays(k, m, ops[0], net);
      StepRecords(k, m, ops[0], m.mapAddr[net]);
      PortIs(portOf, m, m.mapAddr[net]);
      AttemptsAdd(k, portOf, Step(k, m, ops[0]), ops[1..], net);
    }
  }

  lemma {:induction false} PortIs(portOf: NetAddr -> nat, m: Tables, n: nat)
    requires PortsOk(portOf, m) && n in m.mapInfo
    ensures m.mapInfo[n].service == CService(m.mapInfo[n].service.net, portOf(m.mapInfo[n].service.net))
  {
  }

  /** `nAttempts` counts the attempts since the address was last marked good, and `nLastSuccess` says when that was. */
  lemma {:induction false} AttemptsSinceGood(k: Keyed, portOf: NetAddr -> nat, m: Tables, addr: CAddress, time: int,
          ops: seq<Op>)
    requires Check(k, m) && PortsOk(portOf, m) && time > 0 && addr.service.port == portOf(addr.service.net)
    requires StaysKnown(k, m, [OpGood(addr, time)] + ops, addr.service.net)
    requires forall i :: 0 <= i < |ops| ==>
      OnePort(portOf, ops[i]) && ClockOk(ops[i]) && !IsGood(ops[i], addr.service.net)
    ensures var r, n := Run(k, m, [OpGood(addr, time)] + ops), m.mapAddr[addr.service.net];
            && n in r.mapInfo && r.mapInfo[n].service == addr.service
            && r.mapInfo[n].nAttempts == Attempts(ops, addr.service) && r.mapInfo[n].nLastSuccess == time
  {
    hide Check, Step, PortsOk, OnePort, ClockOk, PortFits, StaysKnown, Attempts;
    var op, net := OpGood(addr, time), addr.service.net;
    assert OnePort(portOf, op) && ClockOk(op) by { GoodIsProper(portOf, op); }
    assert ([op] + ops)[1..] == ops;
    StaysKnownStep(k, m, op, ops, net);
    var r := Step(k, m, op);
    OnePortFits(k, portOf, m, op);
    StepIsSafeIff(k, m, op);
    OnePortStays(k, portOf, m, op);
    IdStays(k, m, op, net);
    StepRecords(k, m, op, m.mapAddr[net]);
    AttemptsAdd(k, portOf, r, ops, net);
    RunKeepsPorts(k, portOf, r, ops);
    FindIsRight(k, Run(k, r, ops), net);
    PortIs(portOf, Run(k, r, ops), m.mapAddr[net]);
  }

  lemma {:induction false} GoodIsProper(portOf: NetAddr -> nat, op: Op)
    requires op.OpGood? && op.time > 0 && op.addr.service.port == portOf(op.addr.service.net)
    ensures OnePort(portOf, op) && ClockOk(op)
  {
  }

  lemma {:induction false} StaysKnownStep(k: Keyed, m: Tables, op: Op, ops: seq<Op>, net: NetAddr)
    requires StaysKnown(k, m, [op] + ops, net)
    ensures net in m.mapAddr && net in Step(k, m, op).mapAddr && StaysKnown(k, Step(k, m, op), ops, net)
  {
    hide Step;
    assert ([op] + ops)[1..] == ops;
  }

  lemma {:induction false} RunKeepsPorts(k: Keyed, portOf: NetAddr -> nat, m: Tables, ops: seq<Op>)
    requires Check(k, m) && PortsOk(portOf, m)
    requires forall i :: 0 <= i < |ops| ==> OnePort(portOf, ops[i]) && ClockOk(ops[i])
    ensures Check(k, Run(k, m, ops)) && PortsOk(portOf, Run(k, m, ops))
    decreases |ops|
  {
    hide Check, Step, PortsOk, OnePort, ClockOk, PortFits;
    if ops != [] {
      OnePortFits(k, portOf, m, ops[0]);
      StepIsSafeIff(k, m, ops[0]);
      OnePortStays(k, portOf, m, ops[0]);
      RunKeepsPorts(k, portOf, Step(k, m, ops[0]), ops[1..]);
    }
  }

  // Times.

  /** How far the recorded time of a known address may lag behind a dated announcement: an hour if it is current. */
  function Lag(addr: CAddress, now: int): int { if now - addr.nTime < 24 * 60 * 60 then 60 * 60 else 24 * 60 * 60 }

  /**
   An announcement leaves the recorded time at most that far behind its date less the penalty; and it changes it only
   to that date, from a time further behind.
   */
  lemma {:induction false} AnnouncementRefreshes(k: Keyed, m: Tables, addr: CAddress, source: NetAddr,
          nTimePenalty: int, chance: Chance)
    requires Check(k, m) && addr.service.net in m.mapAddr && TimesFit(addr, nTimePenalty)
    ensures m.mapAddr[addr.service.net] in m.mapInfo
    ensures var n, r := m.mapAddr[addr.service.net], Add(k, m, addr, true, source, nTimePenalty, chance).m;
            n in r.mapInfo ==>
              var before, after := m.mapInfo[n].nTime, r.mapInfo[n].nTime;
              && (addr.nTime != 0 ==> after + Lag(addr, chance.now) >= addr.nTime - nTimePenalty)
              && (after != before ==>
                addr.nTime != 0 && after == Max(0, addr.nTime - nTimePenalty) &&
                  (before == 0 || before + Lag(addr, chance.now) < after))
  {
    hide Consistent, PlaceNew, MayMultiply;
    FindIsRight(k, m, addr.service.net);
  }

  /** The time of an address that is connected to under its recorded port is never more than 20 minutes behind. */
  lemma {:induction false} ConnectionRefreshes(k: Keyed, m: Tables, service: CService, nTime: int)
    requires Check(k, m) && 0 <= nTime < 0x1_0000_0000 && service.net in m.mapAddr
    ensures m.mapAddr[service.net] in m.mapInfo
    ensures var n, r := m.mapAddr[service.net], Connected(m, service, nTime);
            var before, after := m.mapInfo[n].nTime, r.mapInfo[n].nTime;
            && (m.mapInfo[n].service == service ==> after >= nTime - 20 * 60)
            && (after != before ==> m.mapInfo[n].service == service && after == nTime && before + 20 * 60 < after)
  {
    hide Consistent;
    FindIsRight(k, m, service.net);
  }

  // Terrible addresses.

  /** Unless it was tried in the last minute, an address is terrible exactly for one of these five reasons. */
  lemma {:induction false} TerribleIff(info: CAddrInfo, now: int)
    ensures IsTerrible(info, now) <==>
      (info.nLastTry == 0 || info.nLastTry < now - 60) &&
      var fromTheFuture, neverSeen, notSeenForTenDays := info.nTime > now + 600, info.nTime == 0,
        info.nTime < now - 864000;
      var neverGood, notGoodForAWeek := info.nLastSuccess == 0, info.nLastSuccess < now - 604800;
      || fromTheFuture || neverSeen || notSeenForTenDays
      || (neverGood && info.nAttempts >= 3) || (notGoodForAWeek && info.nAttempts >= 7)
  {
  }

  /** An address that does not come from the future and is terrible stays so until something is recorded of it. */
  lemma {:induction false} TerribleStays(info: CAddrInfo, now: int, later: int)
    requires IsTerrible(info, now) && info.nTime <= now + 10 * 60 && now <= later
    ensures IsTerrible(info, later)
  {
  }

  /** One that was seen, and was good, within the last week is not terrible, however often it failed. */
  lemma {:induction false} RecentlyGoodIsNotTerrible(info: CAddrInfo, now: int)
    requires 0 < info.nTime <= now + 10 * 60 && now - info.nTime <= 7 * 24 * 60 * 60
    requires 0 < info.nLastSuccess && now - info.nLastSuccess <= 7 * 24 * 60 * 60
    ensures !IsTerrible(info, now)
  {
  }
}
