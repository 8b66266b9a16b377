/** The address manager's public operations on values, what each of them does to
    the tables, and the invariant over every run of them. */
module AddrManOps {
  import opened Options
  import opened AddrManState
  import opened AddrManSteps

  function Max(a: int, b: int): int { if a < b then b else a }

  function Find(s: State, a: Service): Option<int> {
    var k := s.config.Squash(a);
    if k in s.mapAddr && s.mapAddr[k] in s.mapInfo then Some(s.mapAddr[k]) else None
  }

  // The entry for exactly this service, port included.
  function FindExact(s: State, a: Service): (r: Option<int>)
    ensures r.Some? ==> r.value in s.mapInfo
  {
    match Find(s, a)
    case Some(id) => if s.mapInfo[id].service == a then Some(id) else None
    case None => None
  }

  // In a consistent state the lookup is exact: it finds the one entry whose key matches.
  lemma {:induction false} FindFinds(s: State, a: Service, id: int)
    requires AddrOk(s)
    ensures Find(s, a) == Some(id) <==> id in s.mapInfo && s.config.Squash(s.mapInfo[id].service) == s.config.Squash(a)
  {
  }

  function Touch(s: State, id: int, info: Info): State { s.(mapInfo := s.mapInfo[id := info]) }

  /* ---- moving an entry to the tried table ---- */

  // Record the success; the tables are not touched yet.
  function Marked(s: State, a: Service, nTime: int): State {
    match FindExact(s, a)
    case None => s.(nLastGood := nTime)
    case Some(id) =>
      Touch(s.(nLastGood := nTime), id, s.mapInfo[id].(nLastSuccess := nTime, nLastTry := nTime, nAttempts := 0))
  }

  // The entry that has yet to move to the tried table, if any.
  function Untried(s: State, a: Service): (r: Option<int>)
    ensures r.Some? ==> r.value in s.mapInfo && !s.mapInfo[r.value].fInTried
  {
    match FindExact(s, a)
    case None => None
    case Some(id) => if s.mapInfo[id].fInTried then None else Some(id)
  }

  function Good(s: State, a: Service, nTime: int): State
    requires Sound(s)
  {
    var m := Marked(s, a, nTime);
    match Untried(m, a)
    case None => m
    case Some(id) => MarkedKeeps(s, a, nTime); MakeTried(m, id)
  }

  // Only nNew and nLastGood differ, which no index and no table depends on.
  lemma {:induction false} CountersAside(s: State, r: State, limbo: set<int>)
    requires s.config.Valid() && r == s.(nLastGood := r.nLastGood, nNew := r.nNew)
    ensures RandomOk(s) ==> RandomOk(r)
    ensures AddrOk(s) ==> AddrOk(r)
    ensures NewTableOk(s) ==> NewTableOk(r)
    ensures TriedTableOk(s) ==> TriedTableOk(r)
    ensures Tried(r) == Tried(s) && New(r) == New(s)
  {
  }

  lemma {:induction false} CountersAsideEntries(s: State, r: State, limbo: set<int>)
    requires s.config.Valid() && r == s.(nLastGood := r.nLastGood, nNew := r.nNew) && EntriesOk(s, limbo)
    ensures EntriesOk(r, limbo)
  {
    hide Slots;
    forall k | k in r.mapInfo ensures EntryOk(r, limbo, k) { assert EntryOk(s, limbo, k); }
  }

  lemma {:induction false} LastGoodKeeps(s: State, nTime: int, limbo: set<int>, counted: int)
    requires Inv(s, limbo, counted)
    ensures Inv(s.(nLastGood := nTime), limbo, counted)
  {
    hide RandomOk, AddrOk, NewTableOk, TriedTableOk, EntriesOk, Tried, New;
    CountersAside(s, s.(nLastGood := nTime), limbo);
    CountersAsideEntries(s, s.(nLastGood := nTime), limbo);
  }

  lemma {:induction false} MarkedKeeps(s: State, a: Service, nTime: int)
    requires Sound(s)
    ensures Sound(Marked(s, a, nTime))
  {
    LastGoodKeeps(s, nTime, {}, 0);
    match FindExact(s, a)
    case None =>
    case Some(id) =>
      TouchKeeps(s.(nLastGood := nTime), id, s.mapInfo[id].(nLastSuccess := nTime, nLastTry := nTime, nAttempts := 0),
                 {}, 0);
  }

  // Afterwards the entry for the service, if there is one, is in the tried table.
  lemma {:induction false} GoodTries(s: State, a: Service, nTime: int)
    requires Sound(s) && FindExact(s, a).Some?
    ensures var r, id := Good(s, a, nTime), FindExact(s, a).value;
      id in r.mapInfo && r.mapInfo[id].fInTried && r.mapInfo[id].service == a && r.mapInfo[id].nLastSuccess == nTime
  {
    hide Sound, MakeTried;
    var m := Marked(s, a, nTime);
    if !m.mapInfo[FindExact(s, a).value].fInTried {
      MarkedKeeps(s, a, nTime);
      MakeTriedMoves(m, FindExact(s, a).value);
    }
  }

  lemma {:induction false} GoodSound(s: State, a: Service, nTime: int)
    requires Sound(s)
    ensures Sound(Good(s, a, nTime))
  {
    hide Sound, MakeTried;
    MarkedKeeps(s, a, nTime);
    match Untried(Marked(s, a, nTime), a)
    case None =>
    case Some(id) => MakeTriedKeeps(Marked(s, a, nTime), id);
  }

  lemma {:induction false} GoodTimed(s: State, a: Service, nTime: int)
    requires Sound(s) && Timed(s) && (nTime > 0 || FindExact(s, a).None?)
    ensures Timed(Good(s, a, nTime)) && Good(s, a, nTime).key == s.key
  {
    hide Sound, MakeTried;
    MarkedKeeps(s, a, nTime);
    match Untried(Marked(s, a, nTime), a)
    case None =>
    case Some(id) => MakeTriedRecords(Marked(s, a, nTime), id);
  }

  // A tried entry must have a time of success, so the clock has to be past zero when there is an
  // entry to record it in.
  lemma {:induction false} GoodKeeps(s: State, a: Service, nTime: int)
    requires Consistent(s)
    ensures Consistent(Good(s, a, nTime)) <==> nTime > 0 || FindExact(s, a).None?
  {
    hide Sound, Good;
    GoodSound(s, a, nTime);
    if nTime > 0 || FindExact(s, a).None? { GoodTimed(s, a, nTime); } else { GoodTries(s, a, nTime); }
  }

  // The slots an entry moves between, and the new table without it.
  function Without(s: State, id: int): Table { EraseUpTo(s.vvNew, id, |s.vvNew|) }

  function TriedHolder(s: State, id: int): int
    requires s.config.Valid() && Shaped(s.vvTried, s.config.triedBuckets, s.config.bucketSize) && id in s.mapInfo
  {
    s.vvTried[s.TriedBucket(s.mapInfo[id].service)][s.TriedPosition(s.mapInfo[id].service)]
  }

  // The entry reaches the slot it hashes to and leaves every new bucket.
  lemma {:induction false} MakeTriedMoves(s: State, id: int)
    requires Sound(s) && id in s.mapInfo && !s.mapInfo[id].fInTried
    ensures var r := MakeTried(s, id);
      && r.vvTried == Put(s.vvTried, s.TriedBucket(s.mapInfo[id].service), s.TriedPosition(s.mapInfo[id].service), id)
      && id in r.mapInfo
      && r.mapInfo[id] == s.mapInfo[id].(fInTried := true, nRefCount := 0, nRandomPos := r.mapInfo[id].nRandomPos)
  {
    MadeRoom(s, id);
    PutTwice(s.vvTried, s.TriedBucket(s.mapInfo[id].service), s.TriedPosition(s.mapInfo[id].service), EMPTY, id);
  }

  // Into a free slot: no other entry changes.
  lemma {:induction false} MakeTriedFree(s: State, id: int)
    requires Sound(s) && id in s.mapInfo && !s.mapInfo[id].fInTried && TriedHolder(s, id) == EMPTY
    ensures MakeTried(s, id).vvNew == Without(s, id)
    ensures forall k :: k in s.mapInfo && k != id ==> SameEntry(s, MakeTried(s, id), k)
  {
    hide Inv, Midway, Evict;
    InvIsMidway(s, {}, 0);
    MidwayShape(s);
    MadeRoom(s, id);
  }

  // Into a taken slot: its holder goes back to one slot of the new table, the
  // entry displaced from there loses one reference, and nothing else changes.
  lemma {:induction false} MakeTriedEvicts(s: State, id: int)
    requires Sound(s) && id in s.mapInfo && !s.mapInfo[id].fInTried && TriedHolder(s, id) != EMPTY
    ensures var r, v := MakeTried(s, id), TriedHolder(s, id);
      var b, p := NewBucketOf(s, v, s.mapInfo[v].source), NewPositionOf(s, v, s.mapInfo[v].source);
      var w := Without(s, id)[b][p];
      && v in r.mapInfo
      && r.mapInfo[v] == s.mapInfo[v].(fInTried := false, nRefCount := 1, nRandomPos := r.mapInfo[v].nRandomPos)
      && r.vvNew == Put(Without(s, id), b, p, v)
      && (w != EMPTY ==> w in s.mapInfo && LostReference(s, r, w))
      && forall k :: k in s.mapInfo && k != id && k != v && k != w ==> SameEntry(s, r, k)
  {
    hide Inv, Midway, Evict;
    InvIsMidway(s, {}, 0);
    MidwayShape(s);
    var f, v := ForgetNew(s, id), TriedHolder(s, id);
    var b, p := s.TriedBucket(s.mapInfo[id].service), s.TriedPosition(s.mapInfo[id].service);
    MadeRoom(s, id);
    InvIsMidway(f, {id}, 0);
    MidwayShape(f);
    MidwayTried(f, b, p);
    EvictFrame(f, b, p, {id}, 0);
    var ub, up := NewBucketOf(f, v, f.mapInfo[v].source), NewPositionOf(f, v, f.mapInfo[v].source);
    MidwaySlot(f, ub, up);
    LimboNotHeld(f, ub, up, {id}, 0, id);
    EnterTriedOthers(s, id, Evict(f, b, p), v, f.vvNew[ub][up]);
  }

  lemma {:induction false} EnterTriedOthers(s: State, id: int, e: State, v: int, w: int)
    requires s.config.Valid() && Shaped(e.vvTried, s.config.triedBuckets, s.config.bucketSize)
    requires id in s.mapInfo && id in e.mapInfo && v in s.mapInfo && v != id && w != id
    requires w != EMPTY ==> w in s.mapInfo && LostReference(ForgetNew(s, id), e, w)
    requires forall k :: k in ForgetNew(s, id).mapInfo && k != v && k != w ==> SameEntry(ForgetNew(s, id), e, k)
    ensures var r := EnterTried(e, id, s.TriedBucket(s.mapInfo[id].service), s.TriedPosition(s.mapInfo[id].service));
      && (w != EMPTY ==> LostReference(s, r, w))
      && forall k :: k in s.mapInfo && k != id && k != v && k != w ==> SameEntry(s, r, k)
  {
    var r := EnterTried(e, id, s.TriedBucket(s.mapInfo[id].service), s.TriedPosition(s.mapInfo[id].service));
    forall k | k in s.mapInfo && k != id && k != v && k != w ensures SameEntry(s, r, k) {
      assert SameEntry(ForgetNew(s, id), e, k);
    }
  }

  /* ---- adding an address ---- */

  // Claim the slot for this source if it is free or its holder may be dropped.
  function TryPlace(s: State, id: int, source: NetAddr, now: int): State
    requires Midway(s) && id in s.mapInfo
  {
    var holder := s.vvNew[NewBucketOf(s, id, source)][NewPositionOf(s, id, source)];
    if holder == id then s
    else if holder == EMPTY || IsTerrible(s.mapInfo[holder], now)
         || (s.mapInfo[holder].nRefCount > 1 && s.mapInfo[id].nRefCount == 0) then Place(s, id, source, 0)
    else if s.mapInfo[id].nRefCount == 0 then Delete(s, id)
    else s
  }

  // An entry fresh from creation either gets its slot or is deleted again.
  lemma {:induction false} TryPlaceFresh(s: State, id: int, source: NetAddr, now: int)
    requires id in s.mapInfo && !s.mapInfo[id].fInTried && s.mapInfo[id].nRefCount == 0 && Inv(s, {id}, 1)
    ensures Sound(TryPlace(s, id, source, now))
  {
    LimboNotHeld(s, NewBucketOf(s, id, source), NewPositionOf(s, id, source), {id}, 1, id);
    PlaceKeeps(s, id, source, 0, {id}, 1);
    DeleteKeeps(s, id, {id}, 1);
    assert {id} - {id} == {};
  }

  lemma {:induction false} TryPlaceKnown(s: State, id: int, source: NetAddr, now: int)
    requires id in s.mapInfo && !s.mapInfo[id].fInTried && 0 < s.mapInfo[id].nRefCount < NEW_BUCKETS_PER_ADDRESS
    requires Sound(s)
    ensures Sound(TryPlace(s, id, source, now))
  {
    hide RandomOk, AddrOk, TriedTableOk, EntryOk, Place;
    if s.vvNew[NewBucketOf(s, id, source)][NewPositionOf(s, id, source)] != id {
      PlaceKeeps(s, id, source, 0, {}, 0);
      assert {} - {id} == {};
    }
  }

  lemma {:induction false} NewCountKeeps(s: State, limbo: set<int>, counted: int, d: int)
    requires Inv(s, limbo, counted)
    ensures Inv(s.(nNew := s.nNew + d), limbo, counted + d)
  {
    hide RandomOk, AddrOk, NewTableOk, TriedTableOk, EntriesOk, Tried, New;
    CountersAside(s, s.(nNew := s.nNew + d), limbo);
    CountersAsideEntries(s, s.(nNew := s.nNew + d), limbo);
  }

  lemma {:induction false} TimeKeeps(s: State, id: int, nTime: int, limbo: set<int>, counted: int)
    requires Inv(s, limbo, counted) && id in s.mapInfo
    ensures Inv(Touch(s, id, s.mapInfo[id].(nTime := nTime)), limbo, counted)
  {
    hide Inv;
    TouchKeeps(s, id, s.mapInfo[id].(nTime := nTime), limbo, counted);
  }

  // Set a new entry's time and count it.
  function Counted(s: State, id: int, nTime: int): State
    requires id in s.mapInfo
  {
    Touch(s, id, s.mapInfo[id].(nTime := nTime)).(nNew := s.nNew + 1)
  }

  lemma {:induction false} CountedKeeps(s: State, id: int, nTime: int, limbo: set<int>)
    requires Inv(s, limbo, 0) && id in s.mapInfo
    ensures Inv(Counted(s, id, nTime), limbo, 1)
  {
    TimeKeeps(s, id, nTime, limbo, 0);
    NewCountKeeps(Touch(s, id, s.mapInfo[id].(nTime := nTime)), limbo, 0, 1);
  }

  // The entry that Add_ creates, already counted in nNew but in no table yet.
  function CreateCounted(s: State, addr: Address, source: NetAddr, penalty: int): State {
    Counted(Create(s, addr, source), s.nIdCount, Max(0, addr.nTime - penalty))
  }

  lemma {:induction false} CreateCountedKeeps(s: State, addr: Address, source: NetAddr, penalty: int)
    requires Sound(s) && s.config.Squash(addr.service) !in s.mapAddr
    ensures Inv(CreateCounted(s, addr, source, penalty), {s.nIdCount}, 1)
  {
    hide Inv;
    CreateKeeps(s, addr, source, {}, 0);
    assert {} + {s.nIdCount} == {s.nIdCount};
    CountedKeeps(Create(s, addr, source), s.nIdCount, Max(0, addr.nTime - penalty), {s.nIdCount});
  }

  // A known address: refresh its time and flags.
  function Refreshed(info: Info, addr: Address, penalty: int, now: int): Info {
    var interval := if now - addr.nTime < 24 * 60 * 60 then 60 * 60 else 24 * 60 * 60;
    var timed :=
      if addr.nTime != 0 && (info.nTime == 0 || info.nTime < addr.nTime - interval - penalty)
      then info.(nTime := Max(0, addr.nTime - penalty)) else info;
    timed.(nServices := timed.nServices + addr.nServices)
  }

  // Nothing new, already tried, already in enough buckets, or unlucky in a draw
  // that gets twice as hard with every reference.
  predicate NoMoreSlots(info: Info, addr: Address, pick: nat) {
    || addr.nTime == 0 || (info.nTime != 0 && addr.nTime <= info.nTime)
    || info.fInTried
    || info.nRefCount == NEW_BUCKETS_PER_ADDRESS
    || (info.nRefCount >= 0 && Power2(info.nRefCount) > 1 && pick % Power2(info.nRefCount) != 0)
  }

  function Power2(n: nat): (r: int)
    ensures r >= 1
  {
    if n == 0 then 1 else Power2(n - 1) * 2
  }

  function Add(s: State, addr: Address, source: NetAddr, nTimePenalty: int, now: int, pick: nat): (State, bool)
    requires Sound(s)
  {
    if !s.config.routable(addr.service.ip) then (s, false)
    else
      var penalty := if addr.service.ip == source then 0 else nTimePenalty;
      match Find(s, addr.service)
      case Some(id) =>
        var r := Touch(s, id, Refreshed(s.mapInfo[id], addr, penalty, now));
        RefreshKeeps(s, id, addr, penalty, now);
        if NoMoreSlots(r.mapInfo[id], addr, pick) then (r, false) else (TryPlace(r, id, source, now), false)
      case None =>
        CreateCountedKeeps(s, addr, source, penalty);
        (TryPlace(CreateCounted(s, addr, source, penalty), s.nIdCount, source, now), true)
  }

  lemma {:induction false} RefreshKeeps(s: State, id: int, addr: Address, penalty: int, now: int)
    requires Sound(s) && id in s.mapInfo
    ensures Sound(Touch(s, id, Refreshed(s.mapInfo[id], addr, penalty, now)))
  {
    assert EntryOk(s, {}, id);
    TouchKeeps(s, id, Refreshed(s.mapInfo[id], addr, penalty, now), {}, 0);
  }

  lemma {:induction false} AddSound(s: State, addr: Address, source: NetAddr, nTimePenalty: int, now: int, pick: nat)
    requires Sound(s)
    ensures Sound(Add(s, addr, source, nTimePenalty, now, pick).0)
  {
    if s.config.routable(addr.service.ip) {
      var penalty := if addr.service.ip == source then 0 else nTimePenalty;
      match Find(s, addr.service)
      case Some(id) =>
        var r := Touch(s, id, Refreshed(s.mapInfo[id], addr, penalty, now));
        RefreshKeeps(s, id, addr, penalty, now);
        if !NoMoreSlots(r.mapInfo[id], addr, pick) {
          assert EntryOk(r, {}, id);
          TryPlaceKnown(r, id, source, now);
        }
      case None =>
        CreateCountedKeeps(s, addr, source, penalty);
        TryPlaceFresh(CreateCounted(s, addr, source, penalty), s.nIdCount, source, now);
    }
  }

  lemma {:induction false} TryPlaceRecords(s: State, id: int, source: NetAddr, now: int)
    requires Midway(s) && id in s.mapInfo
    ensures RecordsFrom(s, TryPlace(s, id, source, now), EMPTY)
  {
    hide Place, Delete, Midway, RandomOk;
    MidwayShape(s);
    MidwaySlot(s, NewBucketOf(s, id, source), NewPositionOf(s, id, source));
    if s.vvNew[NewBucketOf(s, id, source)][NewPositionOf(s, id, source)] != id { PlaceRecords(s, id, source, 0); }
    DeleteRemoves(s, id);
    RemovedRecords(s, Delete(s, id), id);
  }

  lemma {:induction false} RemovedRecords(s: State, r: State, id: int)
    requires id in s.mapInfo && Removed(s, r, id)
    ensures RecordsFrom(s, r, EMPTY)
  {
  }

  lemma {:induction false} NotFound(s: State, a: Service)
    requires Sound(s) && Find(s, a).None?
    ensures s.config.Squash(a) !in s.mapAddr
  {
  }

  lemma {:induction false} StillTimed(s: State, r: State)
    requires Midway(s) && RecordsFrom(s, r, EMPTY) && Timed(s)
    ensures Timed(r) && r.key == s.key && r.config == s.config
  {
    hide Midway;
    MidwayShape(s);
  }

  lemma {:induction false} KnownTimed(s: State, addr: Address, source: NetAddr, penalty: int, now: int, id: int)
    requires Sound(s) && Timed(s) && id in s.mapInfo
    ensures var t := Touch(s, id, Refreshed(s.mapInfo[id], addr, penalty, now));
      && Midway(t) && Timed(t) && t.key == s.key && t.config == s.config
      && var r := TryPlace(t, id, source, now); Timed(r) && r.key == s.key && r.config == s.config
  {
    hide Inv, Midway, TryPlace;
    var t := Touch(s, id, Refreshed(s.mapInfo[id], addr, penalty, now));
    RefreshKeeps(s, id, addr, penalty, now);
    InvIsMidway(t, {}, 0);
    TryPlaceRecords(t, id, source, now);
    StillTimed(t, TryPlace(t, id, source, now));
  }

  lemma {:induction false} UnknownTimed(s: State, addr: Address, source: NetAddr, penalty: int, now: int)
    requires Sound(s) && Timed(s) && s.config.Squash(addr.service) !in s.mapAddr
    ensures var c := CreateCounted(s, addr, source, penalty);
      && Midway(c) && s.nIdCount in c.mapInfo
      && var r := TryPlace(c, s.nIdCount, source, now); Timed(r) && r.key == s.key && r.config == s.config
  {
    hide Inv, Midway, TryPlace;
    var c := CreateCounted(s, addr, source, penalty);
    CreateCountedKeeps(s, addr, source, penalty);
    InvIsMidway(c, {s.nIdCount}, 1);
    TryPlaceRecords(c, s.nIdCount, source, now);
    StillTimed(c, TryPlace(c, s.nIdCount, source, now));
  }

  lemma {:induction false} AddTimed(s: State, addr: Address, source: NetAddr, nTimePenalty: int, now: int, pick: nat)
    requires Sound(s) && Timed(s)
    ensures var r := Add(s, addr, source, nTimePenalty, now, pick).0;
      Timed(r) && r.key == s.key && r.config == s.config
  {
    hide Sound, TryPlace, Timed, Midway, CreateCounted;
    if s.config.routable(addr.service.ip) {
      var penalty := if addr.service.ip == source then 0 else nTimePenalty;
      match Find(s, addr.service)
      case Some(id) => KnownTimed(s, addr, source, penalty, now, id);
      case None =>
        NotFound(s, addr.service);
        UnknownTimed(s, addr, source, penalty, now);
    }
  }

  lemma {:induction false} AddKeeps(s: State, addr: Address, source: NetAddr, nTimePenalty: int, now: int, pick: nat)
    requires Consistent(s)
    ensures Consistent(Add(s, addr, source, nTimePenalty, now, pick).0)
  {
    hide Sound, Add;
    AddSound(s, addr, source, nTimePenalty, now, pick);
    AddTimed(s, addr, source, nTimePenalty, now, pick);
  }

  // Whether the holder of a slot gives way to an entry with n references.
  predicate GivesWay(s: State, holder: int, n: int, now: int)
    requires holder != EMPTY ==> holder in s.mapInfo
  {
    holder == EMPTY || IsTerrible(s.mapInfo[holder], now) || (s.mapInfo[holder].nRefCount > 1 && n == 0)
  }

  // The slot a new address competes for.
  function Rival(s: State, a: Service, source: NetAddr): int
    requires Sound(s)
  {
    var b := s.config.NewBucket(s.key, a, source);
    s.vvNew[b][s.NewPosition(b, a)]
  }

  lemma {:induction false} DropCreated(s: State, addr: Address, source: NetAddr, penalty: int)
    requires s.nIdCount !in s.mapInfo && s.config.Squash(addr.service) !in s.mapAddr
    ensures DropLast(CreateCounted(s, addr, source, penalty), s.nIdCount) == s.(nIdCount := s.nIdCount + 1)
  {
    var c := CreateCounted(s, addr, source, penalty);
    assert c.vRandom[..|c.vRandom| - 1] == s.vRandom;
    assert c.mapInfo - {s.nIdCount} == s.mapInfo;
    assert c.mapAddr - {s.config.Squash(addr.service)} == s.mapAddr;
  }

  // Creating an entry and deleting it again leaves only the used-up id behind.
  lemma {:induction false} CreateThenDelete(s: State, addr: Address, source: NetAddr, penalty: int)
    requires RandomOk(CreateCounted(s, addr, source, penalty))
    requires s.nIdCount !in s.mapInfo && s.config.Squash(addr.service) !in s.mapAddr
    ensures Delete(CreateCounted(s, addr, source, penalty), s.nIdCount) == s.(nIdCount := s.nIdCount + 1)
  {
    var c := CreateCounted(s, addr, source, penalty);
    var last := |c.vRandom| - 1;
    assert c.mapInfo[s.nIdCount].nRandomPos == last;
    assert SwapRandom(c, last, last) == c;
    DropCreated(s, addr, source, penalty);
  }

  lemma {:induction false} PlaceCreated(s: State, c: State, id: int, source: NetAddr)
    requires Inv(c, {id}, 1) && id !in s.mapInfo && !c.mapInfo[id].fInTried && c.mapInfo[id].nRefCount == 0
    requires c.vvNew == s.vvNew && c.mapInfo == s.mapInfo[id := c.mapInfo[id]]
    ensures var h := c.vvNew[NewBucketOf(c, id, source)][NewPositionOf(c, id, source)];
      && h != id && (h != EMPTY ==> h in s.mapInfo)
      && var r := Place(c, id, source, 0);
      && id in r.mapInfo && r.mapInfo[id].service == c.mapInfo[id].service && r.mapInfo[id].nRefCount == 1
      && (h != EMPTY ==> LostReference(s, r, h))
      && forall k :: k in s.mapInfo && k != h ==> SameEntry(s, r, k)
  {
    var h := c.vvNew[NewBucketOf(c, id, source)][NewPositionOf(c, id, source)];
    LimboNotHeld(c, NewBucketOf(c, id, source), NewPositionOf(c, id, source), {id}, 1, id);
    PlaceFrame(c, id, source, 0);
    var r := Place(c, id, source, 0);
    forall k | k in s.mapInfo && k != h ensures SameEntry(s, r, k) { assert SameEntry(c, r, k); }
  }

  // What becomes of an entry fresh from creation, against the state before it.
  ghost predicate StoredOrForgotten(s: State, r: State, id: int, a: Service, h: int, now: int)
    requires h != EMPTY ==> h in s.mapInfo
  {
    if GivesWay(s, h, 0, now) then
      && id in r.mapInfo && r.mapInfo[id].service == a && r.mapInfo[id].nRefCount == 1
      && (h != EMPTY ==> LostReference(s, r, h))
      && forall k :: k in s.mapInfo && k != h ==> SameEntry(s, r, k)
    else
      r == s.(nIdCount := id + 1)
  }

  // c is s with an entry that is in no table yet.
  ghost predicate JustCreated(s: State, c: State, id: int, a: Service) {
    && id !in s.mapInfo && RandomOk(c)
    && c.config == s.config && c.key == s.key && c.vvNew == s.vvNew
    && id in c.mapInfo && c.mapInfo == s.mapInfo[id := c.mapInfo[id]]
    && c.mapInfo[id].service == a && !c.mapInfo[id].fInTried && c.mapInfo[id].nRefCount == 0
    && Delete(c, id) == s.(nIdCount := id + 1)
  }

  lemma {:induction false} CreateCountedJustCreated(s: State, addr: Address, source: NetAddr, penalty: int)
    requires RandomOk(CreateCounted(s, addr, source, penalty))
    requires s.nIdCount !in s.mapInfo && s.config.Squash(addr.service) !in s.mapAddr
    ensures JustCreated(s, CreateCounted(s, addr, source, penalty), s.nIdCount, addr.service)
  {
    CreateThenDelete(s, addr, source, penalty);
  }

  lemma {:induction false} TryPlaceCreated(s: State, c: State, id: int, a: Service, source: NetAddr, now: int)
    requires Sound(s) && JustCreated(s, c, id, a) && Inv(c, {id}, 1)
    ensures StoredOrForgotten(s, TryPlace(c, id, source, now), id, a, Rival(s, a, source), now)
  {
    PlaceCreated(s, c, id, source);
  }

  lemma {:induction false} CreatedStoredOrForgotten(s: State, addr: Address, source: NetAddr, penalty: int, now: int)
    requires Sound(s) && s.config.Squash(addr.service) !in s.mapAddr
    ensures Inv(CreateCounted(s, addr, source, penalty), {s.nIdCount}, 1)
    ensures StoredOrForgotten(s, TryPlace(CreateCounted(s, addr, source, penalty), s.nIdCount, source, now),
                              s.nIdCount, addr.service, Rival(s, addr.service, source), now)
  {
    CreateCountedKeeps(s, addr, source, penalty);
    CreateCountedJustCreated(s, addr, source, penalty);
    TryPlaceCreated(s, CreateCounted(s, addr, source, penalty), s.nIdCount, addr.service, source, now);
  }

  // Add_ reports a new address even when it ends up not storing it: it is stored
  // if and only if the slot's holder gives way.
  lemma {:induction false} AddUnknown(s: State, addr: Address, source: NetAddr, nTimePenalty: int, now: int, pick: nat)
    requires Sound(s) && s.config.routable(addr.service.ip) && s.config.Squash(addr.service) !in s.mapAddr
    ensures Add(s, addr, source, nTimePenalty, now, pick).1
    ensures StoredOrForgotten(s, Add(s, addr, source, nTimePenalty, now, pick).0, s.nIdCount, addr.service,
                              Rival(s, addr.service, source), now)
  {
    CreatedStoredOrForgotten(s, addr, source, if addr.service.ip == source then 0 else nTimePenalty, now);
  }

  // The first address of an empty manager takes its slot.
  lemma {:induction false} FirstAdded(config: Config, key: nat, addr: Address, source: NetAddr, now: int, pick: nat)
    requires config.Valid() && config.routable(addr.service.ip) && Sound(Empty(config, key))
    ensures var s := Add(Empty(config, key), addr, source, 0, now, pick).0;
      var b := config.NewBucket(key, addr.service, source);
      var p := config.Position(key, true, b, addr.service);
      && s == Acquire(CreateCounted(Empty(config, key), addr, source, 0), 0, b, p, 0)
      && b < |s.vvNew| && p < |s.vvNew[b]| && s.vvNew[b][p] == 0
  {
    hide Sound;
    var e := Empty(config, key);
    var c := CreateCounted(e, addr, source, 0);
    NotFoundInEmpty(config, key, addr.service);
    CreateCountedKeeps(e, addr, source, 0);
    InvIsMidway(c, {0}, 1);
    var b := config.NewBucket(key, addr.service, source);
    var p := config.Position(key, true, b, addr.service);
    assert c.vvNew[b][p] == EMPTY;
    assert ClearNew(c, b, p) == c;
  }

  lemma {:induction false} NotFoundInEmpty(config: Config, key: nat, a: Service)
    ensures Find(Empty(config, key), a).None? && config.Squash(a) !in Empty(config, key).mapAddr
  {
  }

  // A second address with the same slot is reported as added and leaves only an id behind.
  lemma {:induction false} AddedNotStored(config: Config, key: nat, one: Address, two: Address, source: NetAddr,
                                          source': NetAddr, now: int, pick: nat)
    requires config.Valid() && one.nTime == now > 0
    requires config.routable(one.service.ip) && config.routable(two.service.ip)
    requires config.Squash(one.service) != config.Squash(two.service)
    requires var b := config.NewBucket(key, one.service, source);
      && config.NewBucket(key, two.service, source') == b
      && config.Position(key, true, b, two.service) == config.Position(key, true, b, one.service)
    ensures var s := Add(Empty(config, key), one, source, 0, now, pick).0;
      Sound(s) && Add(s, two, source', 0, now, pick) == (s.(nIdCount := s.nIdCount + 1), true)
  {
    hide Sound, Add, Delete;
    EmptyConsistent(config, key);
    FirstAdded(config, key, one, source, now, pick);
    AddSound(Empty(config, key), one, source, 0, now, pick);
    var s := Add(Empty(config, key), one, source, 0, now, pick).0;
    assert !IsTerrible(s.mapInfo[0], now) && s.mapInfo[0].nRefCount == 1;
    AddUnknown(s, two, source', 0, now, pick);
  }

  lemma {:induction false} PlaceTouched(s: State, id: int, info: Info, source: NetAddr)
    requires Sound(Touch(s, id, info)) && id in s.mapInfo && !info.fInTried && info.nRefCount > 0
    requires Touch(s, id, info).vvNew[NewBucketOf(Touch(s, id, info), id, source)]
        [NewPositionOf(Touch(s, id, info), id, source)] != id
    ensures var t := Touch(s, id, info);
      var r, h := Place(t, id, source, 0), t.vvNew[NewBucketOf(t, id, source)][NewPositionOf(t, id, source)];
      && id in r.mapInfo
      && r.mapInfo[id] == info.(nRefCount := info.nRefCount + 1, nRandomPos := r.mapInfo[id].nRandomPos)
      && (h != EMPTY ==> h in s.mapInfo && LostReference(s, r, h))
      && forall k :: k in s.mapInfo && k != id && k != h ==> SameEntry(s, r, k)
  {
    var t := Touch(s, id, info);
    var h := t.vvNew[NewBucketOf(t, id, source)][NewPositionOf(t, id, source)];
    PlaceFrame(t, id, source, 0);
    var r := Place(t, id, source, 0);
    forall k | k in s.mapInfo && k != id && k != h ensures SameEntry(s, r, k) { assert SameEntry(t, r, k); }
  }

  // A known address: only its own entry and its rival change, and it gains at
  // most one reference.
  lemma {:induction false} AddKnown(s: State, addr: Address, source: NetAddr, nTimePenalty: int, now: int, pick: nat)
    requires Sound(s) && s.config.routable(addr.service.ip) && Find(s, addr.service).Some?
    ensures !Add(s, addr, source, nTimePenalty, now, pick).1
    ensures var r, id := Add(s, addr, source, nTimePenalty, now, pick).0, Find(s, addr.service).value;
      var penalty := if addr.service.ip == source then 0 else nTimePenalty;
      var info := Refreshed(s.mapInfo[id], addr, penalty, now);
      var h := Rival(s, info.service, source);
      if !NoMoreSlots(info, addr, pick) && h != id && GivesWay(Touch(s, id, info), h, info.nRefCount, now) then
        && id in r.mapInfo
        && r.mapInfo[id] == info.(nRefCount := info.nRefCount + 1, nRandomPos := r.mapInfo[id].nRandomPos)
        && (h != EMPTY ==> LostReference(s, r, h))
        && forall k :: k in s.mapInfo && k != id && k != h ==> SameEntry(s, r, k)
      else
        r == Touch(s, id, info)
  {
    var id := Find(s, addr.service).value;
    var penalty := if addr.service.ip == source then 0 else nTimePenalty;
    var info := Refreshed(s.mapInfo[id], addr, penalty, now);
    RefreshKeeps(s, id, addr, penalty, now);
    assert EntryOk(s, {}, id);
    if !NoMoreSlots(info, addr, pick) && Rival(s, info.service, source) != id {
      PlaceTouched(s, id, info, source);
    }
  }

  /* ---- the remaining operations ---- */

  function Attempt(s: State, a: Service, fCountFailure: bool, nTime: int): State {
    match FindExact(s, a)
    case None => s
    case Some(id) =>
      var info := s.mapInfo[id].(nLastTry := nTime);
      Touch(s, id, if fCountFailure && info.nLastCountAttempt < s.nLastGood
                   then info.(nLastCountAttempt := nTime, nAttempts := info.nAttempts + 1) else info)
  }

  function Connected(s: State, a: Service, nTime: int): State {
    match FindExact(s, a)
    case None => s
    case Some(id) =>
      if nTime - s.mapInfo[id].nTime > 20 * 60 then Touch(s, id, s.mapInfo[id].(nTime := nTime)) else s
  }

  function SetServices(s: State, a: Service, nServices: set<nat>): State {
    match FindExact(s, a)
    case None => s
    case Some(id) => Touch(s, id, s.mapInfo[id].(nServices := nServices))
  }

  lemma {:induction false} AttemptSound(s: State, a: Service, fCountFailure: bool, nTime: int)
    requires Sound(s)
    ensures Sound(Attempt(s, a, fCountFailure, nTime))
  {
    hide Inv;
    match FindExact(s, a)
    case None =>
    case Some(id) => TouchKeeps(s, id, Attempt(s, a, fCountFailure, nTime).mapInfo[id], {}, 0);
  }

  lemma {:induction false} AttemptKeeps(s: State, a: Service, fCountFailure: bool, nTime: int)
    requires Consistent(s)
    ensures Consistent(Attempt(s, a, fCountFailure, nTime)) <==> nTime >= 0 || FindExact(s, a).None?
  {
    hide Sound;
    AttemptSound(s, a, fCountFailure, nTime);
    var r := Attempt(s, a, fCountFailure, nTime);
    assert nTime < 0 && FindExact(s, a).Some? ==> !TimesOk(r.mapInfo[FindExact(s, a).value]);
  }

  lemma {:induction false} ConnectedSound(s: State, a: Service, nTime: int)
    requires Sound(s)
    ensures Sound(Connected(s, a, nTime))
  {
    hide Inv;
    match FindExact(s, a)
    case None =>
    case Some(id) => TimeKeeps(s, id, nTime, {}, 0);
  }

  lemma {:induction false} ConnectedKeeps(s: State, a: Service, nTime: int)
    requires Consistent(s)
    ensures Consistent(Connected(s, a, nTime))
  {
    hide Sound;
    ConnectedSound(s, a, nTime);
  }

  lemma {:induction false} SetServicesSound(s: State, a: Service, nServices: set<nat>)
    requires Sound(s)
    ensures Sound(SetServices(s, a, nServices))
  {
    hide Inv;
    match FindExact(s, a)
    case None =>
    case Some(id) => TouchKeeps(s, id, s.mapInfo[id].(nServices := nServices), {}, 0);
  }

  lemma {:induction false} SetServicesKeeps(s: State, a: Service, nServices: set<nat>)
    requires Consistent(s)
    ensures Consistent(SetServices(s, a, nServices))
  {
    hide Sound;
    SetServicesSound(s, a, nServices);
  }

  // The random swaps GetAddr_ makes while it picks addresses: at step n, position n
  // changes places with some position from n on.
  function Shuffle(s: State, n: nat, picks: seq<nat>): (r: State)
    requires RandomOk(s)
    ensures RandomOk(r)
    decreases |picks|
  {
    if picks == [] || n >= |s.vRandom| then s
    else
      var j := n + picks[0] % (|s.vRandom| - n);
      SwapRandomKeeps(s, n, j);
      Shuffle(SwapRandom(s, n, j), n + 1, picks[1..])
  }

  lemma {:induction false} ShuffleReorders(s: State, n: nat, picks: seq<nat>)
    requires RandomOk(s)
    ensures SameButOrder(s, Shuffle(s, n, picks))
    decreases |picks|
  {
    hide RandomOk, SameButOrder, SwapRandom;
    if picks == [] || n >= |s.vRandom| {
      SameOrder(s);
    } else {
      var j := n + picks[0] % (|s.vRandom| - n);
      SwapRandomKeeps(s, n, j);
      ShuffleReorders(SwapRandom(s, n, j), n + 1, picks[1..]);
      SameButOrderAgain(s, SwapRandom(s, n, j), Shuffle(s, n, picks));
    }
  }

  lemma {:induction false} SameOrder(s: State)
    ensures SameButOrder(s, s)
  {
  }

  lemma {:induction false} SameButOrderConsistent(s: State, r: State)
    requires Sound(s) && RandomOk(r) && SameButOrder(s, r)
    ensures Sound(r) && (Consistent(s) ==> Consistent(r))
  {
    hide RandomOk, TablesOk;
    SameButOrderKeeps(s, r, {}, 0);
  }

  lemma {:induction false} ShuffleKeeps(s: State, picks: seq<nat>)
    requires Consistent(s)
    ensures Consistent(Shuffle(s, 0, picks))
  {
    hide RandomOk, TablesOk, SameButOrder, Shuffle;
    ShuffleReorders(s, 0, picks);
    SameButOrderConsistent(s, Shuffle(s, 0, picks));
  }

  /* ---- every run ---- */

  datatype Op =
    | OpAdd(addr: Address, source: NetAddr, nTimePenalty: int, now: int, pick: nat)
    | OpGood(service: Service, nTime: int)
    | OpAttempt(service: Service, fCountFailure: bool, nTime: int)
    | OpConnected(service: Service, nTime: int)
    | OpSetServices(service: Service, nServices: set<nat>)
    | OpGetAddr(picks: seq<nat>)
  {
    // Only a time that is recorded has to be one that the check accepts.
    predicate Valid(s: State) {
      match this
      case OpGood(a, t) => t > 0 || FindExact(s, a).None?
      case OpAttempt(a, _, t) => t >= 0 || FindExact(s, a).None?
      case _ => true
    }
  }

  function Step(s: State, op: Op): (r: State)
    requires Consistent(s) && op.Valid(s)
    ensures Consistent(r)
  {
    match op
    case OpAdd(addr, source, penalty, now, pick) =>
      AddKeeps(s, addr, source, penalty, now, pick); Add(s, addr, source, penalty, now, pick).0
    case OpGood(a, t) => GoodKeeps(s, a, t); Good(s, a, t)
    case OpAttempt(a, f, t) => AttemptKeeps(s, a, f, t); Attempt(s, a, f, t)
    case OpConnected(a, t) => ConnectedKeeps(s, a, t); Connected(s, a, t)
    case OpSetServices(a, f) => SetServicesKeeps(s, a, f); SetServices(s, a, f)
    case OpGetAddr(picks) => ShuffleKeeps(s, picks); Shuffle(s, 0, picks)
  }

  ghost predicate Admissible(s: State, ops: seq<Op>)
    requires Consistent(s)
    decreases |ops|
  {
    ops == [] || (ops[0].Valid(s) && Admissible(Step(s, ops[0]), ops[1..]))
  }

  ghost function Run(s: State, ops: seq<Op>): (r: State)
    requires Consistent(s) && Admissible(s, ops)
    ensures Consistent(r)
    decreases |ops|
  {
    if ops == [] then s else Run(Step(s, ops[0]), ops[1..])
  }
}
