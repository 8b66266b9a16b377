/** The address manager's state as a value, the invariant that its consistency
    check states, and its internal steps as functions from state to state. */
module AddrManState {

  // The 16 address bytes, read as a number.
  type NetAddr = nat

  datatype Service = Service(ip: NetAddr, port: nat)

  // CAddress: a service with its advertised flags, as the set of bits, and last-seen time.
  datatype Address = Address(service: Service, nServices: set<nat>, nTime: int)

  // CAddrInfo, with the CAddress it extends flattened into it.
  datatype Info = Info(
    service: Service,
    nServices: set<nat>,
    nTime: int,
    source: NetAddr,
    nLastSuccess: int,
    nAttempts: int,
    nLastTry: int,
    nLastCountAttempt: int,
    nRefCount: int,
    fInTried: bool,
    nRandomPos: int)

  // Table sizes and the hash functions, which are left uninterpreted.
  datatype Config = Config(
    newBuckets: nat,
    triedBuckets: nat,
    bucketSize: nat,
    discriminatePorts: bool,
    routable: NetAddr -> bool,
    group: NetAddr -> nat,
    hashKey: (nat, Service) -> nat,
    hashTried: (nat, nat, nat) -> nat,
    hashGroups: (nat, nat, nat) -> nat,
    hashSource: (nat, nat, nat) -> nat,
    hashPosition: (nat, bool, nat, Service) -> nat)
  {
    predicate Valid() { newBuckets > 0 && triedBuckets > 0 && bucketSize > 0 }

    function TriedBucket(key: nat, a: Service): (b: nat)
      requires Valid()
      ensures b < triedBuckets
    {
      hashTried(key, group(a.ip), hashKey(key, a) % TRIED_BUCKETS_PER_GROUP) % triedBuckets
    }

    function NewBucket(key: nat, a: Service, source: NetAddr): (b: nat)
      requires Valid()
      ensures b < newBuckets
    {
      hashSource(key, group(source), hashGroups(key, group(a.ip),
                                                group(source)) % NEW_BUCKETS_PER_SOURCE_GROUP) % newBuckets
    }

    function Position(key: nat, fNew: bool, bucket: nat, a: Service): (p: nat)
      requires Valid()
      ensures p < bucketSize
    {
      hashPosition(key, fNew, bucket, a) % bucketSize
    }

    // The key under which a service is indexed: its port counts only on request.
    function Squash(a: Service): Service {
      if discriminatePorts then a else a.(port := 0)
    }
  }

  const TRIED_BUCKETS_PER_GROUP := 8
  const NEW_BUCKETS_PER_SOURCE_GROUP := 64
  const NEW_BUCKETS_PER_ADDRESS := 8
  const HORIZON_DAYS := 30
  const RETRIES := 3
  const MAX_FAILURES := 10
  const MIN_FAIL_DAYS := 7
  const GETADDR_MAX_PCT := 23
  const GETADDR_MAX := 2500
  const EMPTY := -1

  predicate IsTerrible(info: Info, now: int) {
    if info.nLastTry != 0 && info.nLastTry >= now - 60 then false
    else if info.nTime > now + 10 * 60 then true
    else if info.nTime == 0 || now - info.nTime > HORIZON_DAYS * 24 * 60 * 60 then true
    else if info.nLastSuccess == 0 && info.nAttempts >= RETRIES then true
    else now - info.nLastSuccess > MIN_FAIL_DAYS * 24 * 60 * 60 && info.nAttempts >= MAX_FAILURES
  }

  type Table = seq<seq<int>>

  predicate Shaped(t: Table, rows: nat, columns: nat) {
    |t| == rows && forall b :: 0 <= b < rows ==> |t[b]| == columns
  }

  function Put(t: Table, b: nat, p: nat, id: int): (r: Table)
    requires b < |t| && p < |t[b]|
    ensures |r| == |t| && forall k :: 0 <= k < |t| ==> |r[k]| == |t[k]|
  {
    t[b := t[b][p := id]]
  }

  lemma {:induction false} PutTwice(t: Table, b: nat, p: nat, x: int, y: int)
    requires b < |t| && p < |t[b]|
    ensures Put(Put(t, b, p, x), b, p, y) == Put(t, b, p, y)
  {
    assert t[b][p := x][p := y] == t[b][p := y];
    assert t[b := t[b][p := x]][b := t[b][p := y]] == t[b := t[b][p := y]];
  }

  predicate Holds(t: Table, b: nat, p: nat, id: int) { b < |t| && p < |t[b]| && t[b][p] == id }

  // The slots of a table that hold an id.
  ghost function Slots(t: Table, id: int): set<(nat, nat)> {
    set b: nat, p: nat | b < |t| && p < |t[b]| && t[b][p] == id :: (b, p)
  }

  datatype State = State(
    config: Config,
    key: nat,
    nIdCount: int,
    mapInfo: map<int, Info>,
    mapAddr: map<Service, int>,
    vRandom: seq<int>,
    nTried: int,
    vvTried: Table,
    nNew: int,
    vvNew: Table,
    nLastGood: int)
  {
    function NewPosition(bucket: nat, a: Service): (p: nat)
      requires config.Valid()
      ensures p < config.bucketSize
    {
      config.Position(key, true, bucket, a)
    }

    function TriedBucket(a: Service): (b: nat)
      requires config.Valid()
      ensures b < config.triedBuckets
    {
      config.TriedBucket(key, a)
    }

    function TriedPosition(a: Service): (p: nat)
      requires config.Valid()
      ensures p < config.bucketSize
    {
      config.Position(key, false, TriedBucket(a), a)
    }
  }

  ghost function Tried(s: State): set<int> { set id | id in s.mapInfo && s.mapInfo[id].fInTried }

  ghost function New(s: State): set<int> { set id | id in s.mapInfo && !s.mapInfo[id].fInTried }

  // A range of ids is as large as its bounds say.
  lemma {:induction false} RangeSize(n: nat, range: set<int>, lo: nat)
    requires lo <= n && forall k :: k in range <==> lo <= k < n
    ensures |range| == n - lo
    decreases n
  {
    if n == lo {
      forall k ensures k !in range {
        assert k in range <==> lo <= k < n;
      }
    } else {
      RangeSize(n - 1, range - {n - 1}, lo);
    }
  }

  /* ---- the invariant ---- */

  // vRandom lists every id once, and each entry knows its place there.
  ghost predicate RandomOk(s: State) {
    && |s.vRandom| == |s.mapInfo|
    && (forall i :: 0 <= i < |s.vRandom| ==>
          s.vRandom[i] in s.mapInfo && s.mapInfo[s.vRandom[i]].nRandomPos == i)
    && (forall id :: id in s.mapInfo ==>
          0 <= s.mapInfo[id].nRandomPos < |s.vRandom| && s.vRandom[s.mapInfo[id].nRandomPos] == id)
  }

  lemma {:induction false} RandomPos(s: State, id: int)
    requires RandomOk(s) && id in s.mapInfo
    ensures 0 <= s.mapInfo[id].nRandomPos < |s.vRandom| && s.vRandom[s.mapInfo[id].nRandomPos] == id
  {
  }

  // mapAddr and mapInfo are inverse to each other.
  ghost predicate AddrOk(s: State) {
    && (forall id :: id in s.mapInfo ==>
          0 <= id < s.nIdCount &&
          s.config.Squash(s.mapInfo[id].service) in s.mapAddr &&
          s.mapAddr[s.config.Squash(s.mapInfo[id].service)] == id)
    && (forall a :: a in s.mapAddr ==>
          s.mapAddr[a] in s.mapInfo && s.config.Squash(s.mapInfo[s.mapAddr[a]].service) == a)
  }

  // Every filled slot is the one its entry hashes to.
  ghost predicate NewTableOk(s: State)
    requires s.config.Valid()
  {
    && Shaped(s.vvNew, s.config.newBuckets, s.config.bucketSize)
    && (forall b, p :: 0 <= b < |s.vvNew| && 0 <= p < |s.vvNew[b]| && s.vvNew[b][p] != EMPTY ==>
          s.vvNew[b][p] in s.mapInfo &&
          !s.mapInfo[s.vvNew[b][p]].fInTried &&
          s.NewPosition(b, s.mapInfo[s.vvNew[b][p]].service) == p)
  }

  ghost predicate TriedTableOk(s: State)
    requires s.config.Valid()
  {
    && Shaped(s.vvTried, s.config.triedBuckets, s.config.bucketSize)
    && (forall b, p :: 0 <= b < |s.vvTried| && 0 <= p < |s.vvTried[b]| && s.vvTried[b][p] != EMPTY ==>
          s.vvTried[b][p] in s.mapInfo &&
          s.mapInfo[s.vvTried[b][p]].fInTried &&
          s.TriedBucket(s.mapInfo[s.vvTried[b][p]].service) == b &&
          s.TriedPosition(s.mapInfo[s.vvTried[b][p]].service) == p)
  }

  ghost predicate EntryOk(s: State, limbo: set<int>, id: int)
    requires s.config.Valid() && id in s.mapInfo
  {
    var info := s.mapInfo[id];
    && info.nRefCount == |Slots(s.vvNew, id)|
    && (info.fInTried ==>
          info.nRefCount == 0 && id !in limbo &&
          Holds(s.vvTried, s.TriedBucket(info.service), s.TriedPosition(info.service), id))
    && (!info.fInTried ==> info.nRefCount <= NEW_BUCKETS_PER_ADDRESS && (info.nRefCount == 0 <==> id in limbo))
  }

  ghost predicate EntriesOk(s: State, limbo: set<int>)
    requires s.config.Valid()
  {
    forall id :: id in s.mapInfo ==> EntryOk(s, limbo, id)
  }

  ghost predicate CountsOk(s: State, limbo: set<int>, counted: int) {
    s.nTried == |Tried(s)| && s.nNew == |New(s) - limbo| + counted
  }

  // Everything but the vRandom index. In the middle of an operation some entries,
  // the limbo, may be in no table; `counted` of them are still included in nNew.
  ghost predicate TablesOk(s: State, limbo: set<int>, counted: int) {
    && s.config.Valid()
    && AddrOk(s)
    && NewTableOk(s)
    && TriedTableOk(s)
    && limbo <= s.mapInfo.Keys
    && EntriesOk(s, limbo)
    && s.nIdCount >= 0
    && CountsOk(s, limbo, counted)
  }

  ghost predicate Inv(s: State, limbo: set<int>, counted: int) {
    RandomOk(s) && TablesOk(s, limbo, counted)
  }

  // The indexes, the tables and the counts agree.
  ghost predicate Sound(s: State) { Inv(s, {}, 0) }

  // No time is negative, and a tried entry has a time of success.
  predicate TimesOk(info: Info) {
    info.nLastTry >= 0 && info.nLastSuccess >= 0 && (info.fInTried ==> info.nLastSuccess != 0)
  }

  ghost predicate Timed(s: State) { forall id :: id in s.mapInfo ==> TimesOk(s.mapInfo[id]) }

  // All that Check_ demands, with mapAddr keyed as Find, Create and Delete key it.
  ghost predicate Consistent(s: State) { Sound(s) && Timed(s) && s.key != 0 }

  // Some stage of an operation.
  ghost predicate Midway(s: State) { exists limbo, counted :: Inv(s, limbo, counted) }

  /* ---- the steps ---- */

  function Empty(config: Config, key: nat): State {
    State(config, key, 0, map[], map[], [], 0,
          seq(config.triedBuckets, _ => seq(config.bucketSize, _ => EMPTY)), 0,
          seq(config.newBuckets, _ => seq(config.bucketSize, _ => EMPTY)), 1)
  }

  lemma {:induction false} EmptyConsistent(config: Config, key: nat)
    requires config.Valid()
    ensures Sound(Empty(config, key)) && (Consistent(Empty(config, key)) <==> key != 0)
  {
    var s := Empty(config, key);
    assert Tried(s) == {} && New(s) - {} == {};
  }

  // A slot update moves exactly one slot from the old holder to the new one.
  lemma {:induction false} PutSlots(t: Table, b: nat, p: nat, id: int, other: int)
    requires b < |t| && p < |t[b]|
    ensures other == id ==> Slots(Put(t, b, p, id), other) == Slots(t, other) + {(b, p)}
    ensures other != id ==> Slots(Put(t, b, p, id), other) == Slots(t, other) - {(b, p)}
    ensures (b, p) in Slots(t, other) <==> other == t[b][p]
  {
  }

  function SwapRandom(s: State, i: nat, j: nat): State
    requires i < |s.vRandom| && j < |s.vRandom|
    requires s.vRandom[i] in s.mapInfo && s.vRandom[j] in s.mapInfo
  {
    if i == j then s
    else
      var a, b := s.vRandom[i], s.vRandom[j];
      var m := s.mapInfo[a := s.mapInfo[a].(nRandomPos := j)];
      s.(mapInfo := m[b := m[b].(nRandomPos := i)], vRandom := s.vRandom[i := b][j := a])
  }

  // The two states differ at most in the order of vRandom.
  ghost predicate SameButOrder(s: State, r: State) {
    && r == s.(mapInfo := r.mapInfo, vRandom := r.vRandom)
    && r.mapInfo.Keys == s.mapInfo.Keys
    && forall id :: id in s.mapInfo ==> r.mapInfo[id] == s.mapInfo[id].(nRandomPos := r.mapInfo[id].nRandomPos)
  }

  lemma {:induction false} SameButOrderAgain(s: State, m: State, r: State)
    requires SameButOrder(s, m) && SameButOrder(m, r)
    ensures SameButOrder(s, r)
  {
  }

  // Which entries are tried is read off mapInfo alone.
  lemma {:induction false} SameFlags(s: State, r: State)
    requires r.mapInfo.Keys <= s.mapInfo.Keys
    requires forall id :: id in r.mapInfo ==> r.mapInfo[id].fInTried == s.mapInfo[id].fInTried
    ensures Tried(r) == Tried(s) * r.mapInfo.Keys
    ensures New(r) == New(s) * r.mapInfo.Keys
  {
    forall id
      ensures id in Tried(r) <==> id in Tried(s) * r.mapInfo.Keys
      ensures id in New(r) <==> id in New(s) * r.mapInfo.Keys
    {
    }
  }

  lemma {:induction false} NoEmptyId(s: State)
    requires AddrOk(s)
    ensures EMPTY !in s.mapInfo
  {
  }

  lemma {:induction false} SameButOrderParts(s: State, r: State)
    requires s.config.Valid() && AddrOk(s) && NewTableOk(s) && TriedTableOk(s) && SameButOrder(s, r)
    ensures AddrOk(r) && NewTableOk(r) && TriedTableOk(r)
  {
  }

  lemma {:induction false} SameButOrderKeeps(s: State, r: State, limbo: set<int>, counted: int)
    requires TablesOk(s, limbo, counted) && SameButOrder(s, r)
    ensures TablesOk(r, limbo, counted)
  {
    hide RandomOk, AddrOk, NewTableOk, TriedTableOk, EntriesOk, CountsOk;
    SameButOrderParts(s, r);
    SameButOrderEntries(s, r, limbo);
    SameButOrderCounts(s, r, limbo, counted);
  }

  lemma {:induction false} SameButOrderEntries(s: State, r: State, limbo: set<int>)
    requires s.config.Valid() && EntriesOk(s, limbo) && SameButOrder(s, r)
    ensures EntriesOk(r, limbo)
  {
    hide Slots;
    forall id | id in r.mapInfo ensures EntryOk(r, limbo, id) { assert EntryOk(s, limbo, id); }
  }

  lemma {:induction false} SameButOrderCounts(s: State, r: State, limbo: set<int>, counted: int)
    requires CountsOk(s, limbo, counted) && SameButOrder(s, r)
    ensures CountsOk(r, limbo, counted)
  {
    SameFlags(s, r);
    SameFlags(r, s);
  }

  // A new entry goes to the end of the random order.
  lemma {:induction false} AppendRandom(s: State, r: State, id: int, info: Info)
    requires RandomOk(s) && id !in s.mapInfo && info.nRandomPos == |s.vRandom|
    requires r.mapInfo == s.mapInfo[id := info] && r.vRandom == s.vRandom + [id]
    ensures RandomOk(r)
  {
    assert r.mapInfo.Keys == s.mapInfo.Keys + {id};
    assert |r.mapInfo.Keys| == |r.mapInfo| && |s.mapInfo.Keys| == |s.mapInfo|;
    AppendListed(s, r, id, info);
    AppendPlaced(s, r, id, info);
  }

  lemma {:induction false} AppendListed(s: State, r: State, id: int, info: Info)
    requires RandomOk(s) && id !in s.mapInfo && info.nRandomPos == |s.vRandom|
    requires r.mapInfo == s.mapInfo[id := info] && r.vRandom == s.vRandom + [id]
    ensures forall i :: 0 <= i < |r.vRandom| ==> r.vRandom[i] in r.mapInfo && r.mapInfo[r.vRandom[i]].nRandomPos == i
  {
    forall i | 0 <= i < |r.vRandom| ensures r.vRandom[i] in r.mapInfo && r.mapInfo[r.vRandom[i]].nRandomPos == i {
      if i < |s.vRandom| { assert r.vRandom[i] == s.vRandom[i]; }
    }
  }

  lemma {:induction false} AppendPlaced(s: State, r: State, id: int, info: Info)
    requires RandomOk(s) && id !in s.mapInfo && info.nRandomPos == |s.vRandom|
    requires r.mapInfo == s.mapInfo[id := info] && r.vRandom == s.vRandom + [id]
    ensures forall k :: k in r.mapInfo ==>
      0 <= r.mapInfo[k].nRandomPos < |r.vRandom| && r.vRandom[r.mapInfo[k].nRandomPos] == k
  {
  }

  lemma {:induction false} SwapRandomKeeps(s: State, i: nat, j: nat)
    requires RandomOk(s) && i < |s.vRandom| && j < |s.vRandom|
    ensures s.vRandom[i] in s.mapInfo && s.vRandom[j] in s.mapInfo
    ensures RandomOk(SwapRandom(s, i, j))
    ensures SameButOrder(s, SwapRandom(s, i, j))
    ensures |SwapRandom(s, i, j).vRandom| == |s.vRandom|
    ensures SwapRandom(s, i, j).mapInfo[s.vRandom[i]].nRandomPos == j
  {
    hide RandomOk, SwapRandom;
    SwapRandomOrder(s, i, j);
    SwapRandomOk(s, i, j);
  }

  lemma {:induction false} SwapRandomOrder(s: State, i: nat, j: nat)
    requires RandomOk(s) && i < |s.vRandom| && j < |s.vRandom|
    ensures s.vRandom[i] in s.mapInfo && s.vRandom[j] in s.mapInfo
    ensures SameButOrder(s, SwapRandom(s, i, j))
    ensures |SwapRandom(s, i, j).vRandom| == |s.vRandom|
    ensures SwapRandom(s, i, j).mapInfo[s.vRandom[i]].nRandomPos == j
  {
    var r := SwapRandom(s, i, j);
    assert r.mapInfo.Keys == s.mapInfo.Keys;
  }

  lemma {:induction false} SwapRandomOk(s: State, i: nat, j: nat)
    requires RandomOk(s) && i < |s.vRandom| && j < |s.vRandom|
    ensures s.vRandom[i] in s.mapInfo && s.vRandom[j] in s.mapInfo
    ensures RandomOk(SwapRandom(s, i, j))
  {
    var r := SwapRandom(s, i, j);
    assert r.mapInfo.Keys == s.mapInfo.Keys;
    assert |r.mapInfo| == |r.mapInfo.Keys| && |s.mapInfo| == |s.mapInfo.Keys|;
  }

  // Remove the entry that vRandom lists last.
  function DropLast(s: State, id: int): State
    requires id in s.mapInfo && |s.vRandom| > 0
  {
    s.(vRandom := s.vRandom[..|s.vRandom| - 1],
       mapAddr := s.mapAddr - {s.config.Squash(s.mapInfo[id].service)},
       mapInfo := s.mapInfo - {id},
       nNew := s.nNew - 1)
  }

  function Delete(s: State, id: int): State
    requires id in s.mapInfo && RandomOk(s)
  {
    SwapRandomKeeps(s, s.mapInfo[id].nRandomPos, |s.vRandom| - 1);
    DropLast(SwapRandom(s, s.mapInfo[id].nRandomPos, |s.vRandom| - 1), id)
  }

  // r is s without entry id, up to the order of vRandom.
  ghost predicate Removed(s: State, r: State, id: int)
    requires id in s.mapInfo
  {
    && r == s.(mapInfo := r.mapInfo, vRandom := r.vRandom, mapAddr := r.mapAddr, nNew := s.nNew - 1)
    && r.mapInfo.Keys == s.mapInfo.Keys - {id}
    && (forall k :: k in r.mapInfo ==> r.mapInfo[k] == s.mapInfo[k].(nRandomPos := r.mapInfo[k].nRandomPos))
    && r.mapAddr == s.mapAddr - {s.config.Squash(s.mapInfo[id].service)}
  }

  lemma {:induction false} DropLastRemoves(m: State, id: int)
    requires RandomOk(m) && id in m.mapInfo && m.mapInfo[id].nRandomPos == |m.vRandom| - 1
    ensures RandomOk(DropLast(m, id)) && Removed(m, DropLast(m, id), id)
  {
    var r := DropLast(m, id);
    assert r.mapInfo.Keys == m.mapInfo.Keys - {id};
    assert |m.mapInfo.Keys| == |m.mapInfo| && |r.mapInfo.Keys| == |r.mapInfo|;
  }

  lemma {:induction false} OrderThenDrop(s: State, m: State, id: int)
    requires id in s.mapInfo && SameButOrder(s, m) && RandomOk(m) && m.mapInfo[id].nRandomPos == |m.vRandom| - 1
    ensures RandomOk(DropLast(m, id)) && Removed(s, DropLast(m, id), id)
  {
    DropLastRemoves(m, id);
  }

  lemma {:induction false} DeleteRemoves(s: State, id: int)
    requires RandomOk(s) && id in s.mapInfo
    ensures RandomOk(Delete(s, id)) && Removed(s, Delete(s, id), id)
  {
    hide RandomOk, SwapRandom, Removed, DropLast;
    RandomPos(s, id);
    var i, j := s.mapInfo[id].nRandomPos, |s.vRandom| - 1;
    SwapRandomKeeps(s, i, j);
    OrderThenDrop(s, SwapRandom(s, i, j), id);
    assert Delete(s, id) == DropLast(SwapRandom(s, i, j), id);
  }

  lemma {:induction false} NoSlot(t: Table, id: int)
    requires |Slots(t, id)| == 0
    ensures forall b, p :: 0 <= b < |t| && 0 <= p < |t[b]| ==> t[b][p] != id
  {
    forall b, p | 0 <= b < |t| && 0 <= p < |t[b]| ensures t[b][p] != id {
      assert (b, p) in Slots(t, id) <==> t[b][p] == id;
    }
  }

  lemma {:induction false} RemovedAddrOk(s: State, r: State, id: int)
    requires AddrOk(s) && id in s.mapInfo && Removed(s, r, id)
    ensures AddrOk(r)
  {
  }

  lemma {:induction false} RemovedTablesOk(s: State, r: State, id: int)
    requires s.config.Valid() && NewTableOk(s) && TriedTableOk(s)
    requires id in s.mapInfo && Removed(s, r, id) && !s.mapInfo[id].fInTried && |Slots(s.vvNew, id)| == 0
    ensures NewTableOk(r) && TriedTableOk(r)
  {
    NoSlot(s.vvNew, id);
  }

  lemma {:induction false} RemovedKeeps(s: State, r: State, id: int, limbo: set<int>, counted: int)
    requires TablesOk(s, limbo, counted) && id in limbo && !s.mapInfo[id].fInTried && Removed(s, r, id)
    ensures TablesOk(r, limbo - {id}, counted - 1)
  {
    hide RandomOk, AddrOk, NewTableOk, TriedTableOk, EntriesOk, CountsOk;
    RemovedAddrOk(s, r, id);
    LimboHasNoSlot(s, id, limbo);
    RemovedTablesOk(s, r, id);
    RemovedEntries(s, r, id, limbo);
    RemovedCounts(s, r, id, limbo, counted);
  }

  lemma {:induction false} FlagOf(s: State, id: int)
    requires id in s.mapInfo && !s.mapInfo[id].fInTried
    ensures id in New(s) && id !in Tried(s) && Tried(s) <= s.mapInfo.Keys && New(s) <= s.mapInfo.Keys
  {
  }

  lemma {:induction false} LimboHasNoSlot(s: State, id: int, limbo: set<int>)
    requires s.config.Valid() && EntriesOk(s, limbo) && id in limbo && id in s.mapInfo && !s.mapInfo[id].fInTried
    ensures s.mapInfo[id].nRefCount == 0 && |Slots(s.vvNew, id)| == 0
  {
    hide Slots;
    assert EntryOk(s, limbo, id);
  }

  lemma {:induction false} RemovedEntries(s: State, r: State, id: int, limbo: set<int>)
    requires s.config.Valid() && EntriesOk(s, limbo) && id in s.mapInfo && Removed(s, r, id)
    ensures EntriesOk(r, limbo - {id})
  {
    hide Slots;
    forall k | k in r.mapInfo ensures EntryOk(r, limbo - {id}, k) { assert EntryOk(s, limbo, k); }
  }

  lemma {:induction false} RemovedCounts(s: State, r: State, id: int, limbo: set<int>, counted: int)
    requires id in limbo && id in s.mapInfo && !s.mapInfo[id].fInTried && Removed(s, r, id)
    requires CountsOk(s, limbo, counted)
    ensures CountsOk(r, limbo - {id}, counted - 1)
  {
    hide Tried, New;
    SameFlags(s, r);
    FlagOf(s, id);
    assert Tried(r) == Tried(s);
    assert New(r) - (limbo - {id}) == New(s) - limbo;
  }

  lemma {:induction false} DeleteKeeps(s: State, id: int, limbo: set<int>, counted: int)
    requires Inv(s, limbo, counted) && id in limbo && !s.mapInfo[id].fInTried
    ensures Inv(Delete(s, id), limbo - {id}, counted - 1)
  {
    DeleteRemoves(s, id);
    RemovedKeeps(s, Delete(s, id), id, limbo, counted);
  }

  /* ---- updates of a single entry ---- */

  // r is s with the entry at id replaced, and possibly other tables and counters.
  ghost predicate Updated(s: State, r: State, id: int, info: Info) {
    && id in s.mapInfo
    && r == s.(mapInfo := s.mapInfo[id := info], vvNew := r.vvNew, vvTried := r.vvTried, nNew := r.nNew,
               nTried := r.nTried)
    && info.service == s.mapInfo[id].service
    && info.nRandomPos == s.mapInfo[id].nRandomPos
  }

  lemma {:induction false} UpdatedIndexes(s: State, r: State, id: int, info: Info)
    requires Updated(s, r, id, info)
    ensures r.mapInfo.Keys == s.mapInfo.Keys
    ensures RandomOk(s) ==> RandomOk(r)
    ensures AddrOk(s) ==> AddrOk(r)
  {
    assert r.mapInfo.Keys == s.mapInfo.Keys;
    assert |r.mapInfo.Keys| == |r.mapInfo| && |s.mapInfo.Keys| == |s.mapInfo|;
  }

  lemma {:induction false} UpdatedFlags(s: State, r: State, id: int, info: Info)
    requires Updated(s, r, id, info) && info.fInTried == s.mapInfo[id].fInTried
    ensures Tried(r) == Tried(s) && New(r) == New(s)
  {
    SameFlags(s, r);
    SameFlags(r, s);
  }

  lemma {:induction false} UpdatedCounts(s: State, r: State, id: int, info: Info, limbo: set<int>, counted: int)
    requires Updated(s, r, id, info) && info.fInTried == s.mapInfo[id].fInTried
    requires CountsOk(s, limbo, counted) && r.nTried == s.nTried && r.nNew == s.nNew
    ensures CountsOk(r, limbo, counted)
  {
    hide Tried, New;
    UpdatedFlags(s, r, id, info);
  }

  // Statistics that no table depends on may change freely.
  ghost predicate Touched(info: Info, info': Info) {
    info' == info.(nTime := info'.nTime, nServices := info'.nServices, nLastSuccess := info'.nLastSuccess,
                   nLastTry := info'.nLastTry, nLastCountAttempt := info'.nLastCountAttempt,
                   nAttempts := info'.nAttempts)
  }

  lemma {:induction false} TouchEntries(s: State, id: int, info: Info, limbo: set<int>)
    requires s.config.Valid() && id in s.mapInfo && Touched(s.mapInfo[id], info) && EntriesOk(s, limbo)
    ensures EntriesOk(s.(mapInfo := s.mapInfo[id := info]), limbo)
  {
    hide Slots;
    var r := s.(mapInfo := s.mapInfo[id := info]);
    forall k | k in r.mapInfo ensures EntryOk(r, limbo, k) { assert EntryOk(s, limbo, k); }
  }

  lemma {:induction false} TouchTables(s: State, id: int, info: Info)
    requires s.config.Valid() && NewTableOk(s) && TriedTableOk(s) && id in s.mapInfo && Touched(s.mapInfo[id], info)
    ensures NewTableOk(s.(mapInfo := s.mapInfo[id := info])) && TriedTableOk(s.(mapInfo := s.mapInfo[id := info]))
  {
  }

  lemma {:induction false} TouchKeeps(s: State, id: int, info: Info, limbo: set<int>, counted: int)
    requires Inv(s, limbo, counted) && id in s.mapInfo && Touched(s.mapInfo[id], info)
    ensures Inv(s.(mapInfo := s.mapInfo[id := info]), limbo, counted)
  {
    hide RandomOk, AddrOk, NewTableOk, TriedTableOk, EntriesOk, CountsOk;
    var r := s.(mapInfo := s.mapInfo[id := info]);
    UpdatedIndexes(s, r, id, info);
    UpdatedCounts(s, r, id, info, limbo, counted);
    TouchEntries(s, id, info, limbo);
    TouchTables(s, id, info);
  }

  // Drop one reference of the entry at a filled slot.
  function Release(s: State, b: nat, p: nat): State
    requires b < |s.vvNew| && p < |s.vvNew[b]| && s.vvNew[b][p] in s.mapInfo
  {
    var id := s.vvNew[b][p];
    s.(mapInfo := s.mapInfo[id := s.mapInfo[id].(nRefCount := s.mapInfo[id].nRefCount - 1)],
       vvNew := Put(s.vvNew, b, p, EMPTY))
  }

  lemma {:induction false} ReleaseEntries(s: State, b: nat, p: nat, limbo: set<int>, k: int)
    requires s.config.Valid() && NewTableOk(s) && TriedTableOk(s) && b < |s.vvNew| && p < |s.vvNew[b]|
    requires s.vvNew[b][p] != EMPTY && s.vvNew[b][p] in s.mapInfo && k in s.mapInfo && k != EMPTY
    requires EntryOk(s, limbo, k) && s.vvNew[b][p] !in limbo
    ensures var id := s.vvNew[b][p];
      EntryOk(Release(s, b, p), if s.mapInfo[id].nRefCount == 1 then limbo + {id} else limbo, k)
  {
    hide Slots, NewTableOk, TriedTableOk;
    SlotHasEntry(s, b, p);
    PutSlots(s.vvNew, b, p, EMPTY, k);
  }

  lemma {:induction false} ReleaseAllEntries(s: State, b: nat, p: nat, limbo: set<int>)
    requires s.config.Valid() && NewTableOk(s) && TriedTableOk(s) && EMPTY !in s.mapInfo
    requires b < |s.vvNew| && p < |s.vvNew[b]| && s.vvNew[b][p] != EMPTY && s.vvNew[b][p] !in limbo
    requires s.vvNew[b][p] in s.mapInfo && EntriesOk(s, limbo)
    ensures var id := s.vvNew[b][p];
      EntriesOk(Release(s, b, p), if s.mapInfo[id].nRefCount == 1 then limbo + {id} else limbo)
  {
    hide NewTableOk, TriedTableOk, EntryOk;
    var id, r := s.vvNew[b][p], Release(s, b, p);
    forall k | k in r.mapInfo ensures EntryOk(r, if s.mapInfo[id].nRefCount == 1 then limbo + {id} else limbo, k) {
      ReleaseEntries(s, b, p, limbo, k);
    }
  }

  lemma {:induction false} ReleaseCounts(s: State, b: nat, p: nat, limbo: set<int>, counted: int)
    requires b < |s.vvNew| && p < |s.vvNew[b]| && s.vvNew[b][p] in s.mapInfo && s.vvNew[b][p] !in limbo
    requires !s.mapInfo[s.vvNew[b][p]].fInTried && CountsOk(s, limbo, counted)
    ensures var id := s.vvNew[b][p];
      var last := s.mapInfo[id].nRefCount == 1;
      CountsOk(Release(s, b, p), if last then limbo + {id} else limbo, if last then counted + 1 else counted)
  {
    var id, r := s.vvNew[b][p], Release(s, b, p);
    UpdatedFlags(s, r, id, r.mapInfo[id]);
    assert New(s) - limbo == New(r) - (limbo + {id}) + {id};
  }

  lemma {:induction false} ReleaseTables(s: State, b: nat, p: nat)
    requires s.config.Valid() && NewTableOk(s) && TriedTableOk(s)
    requires b < |s.vvNew| && p < |s.vvNew[b]| && s.vvNew[b][p] != EMPTY
    ensures NewTableOk(Release(s, b, p)) && TriedTableOk(Release(s, b, p))
  {
  }

  lemma {:induction false} SlotHasEntry(s: State, b: nat, p: nat)
    requires s.config.Valid() && NewTableOk(s) && b < |s.vvNew| && p < |s.vvNew[b]| && s.vvNew[b][p] != EMPTY
    ensures s.vvNew[b][p] in s.mapInfo && !s.mapInfo[s.vvNew[b][p]].fInTried
  {
  }

  lemma {:induction false} FilledSlot(s: State, b: nat, p: nat, limbo: set<int>)
    requires s.config.Valid() && NewTableOk(s) && TriedTableOk(s)
    requires b < |s.vvNew| && p < |s.vvNew[b]| && s.vvNew[b][p] != EMPTY
    requires s.vvNew[b][p] in s.mapInfo && EntriesOk(s, limbo)
    ensures s.vvNew[b][p] !in limbo && s.mapInfo[s.vvNew[b][p]].nRefCount > 0
  {
    assert EntryOk(s, limbo, s.vvNew[b][p]);
    assert (b, p) in Slots(s.vvNew, s.vvNew[b][p]);
  }

  lemma {:induction false} ReleaseKeeps(s: State, b: nat, p: nat, limbo: set<int>, counted: int)
    requires Inv(s, limbo, counted) && b < |s.vvNew| && p < |s.vvNew[b]| && s.vvNew[b][p] != EMPTY
    ensures s.vvNew[b][p] !in limbo && s.mapInfo[s.vvNew[b][p]].nRefCount > 0
    ensures var id := s.vvNew[b][p];
      var last := s.mapInfo[id].nRefCount == 1;
      Inv(Release(s, b, p), if last then limbo + {id} else limbo, if last then counted + 1 else counted)
  {
    hide RandomOk, AddrOk, NewTableOk, TriedTableOk, EntriesOk, CountsOk;
    NoEmptyId(s);
    SlotHasEntry(s, b, p);
    var id, r := s.vvNew[b][p], Release(s, b, p);
    FilledSlot(s, b, p, limbo);
    UpdatedIndexes(s, r, id, r.mapInfo[id]);
    ReleaseAllEntries(s, b, p, limbo);
    ReleaseTables(s, b, p);
    ReleaseCounts(s, b, p, limbo, counted);
  }

  // Empty a slot of the new table; an entry that loses its last slot is deleted.
  function ClearNew(s: State, b: nat, p: nat): State
    requires RandomOk(s) && b < |s.vvNew| && p < |s.vvNew[b]|
    requires s.vvNew[b][p] != EMPTY ==> s.vvNew[b][p] in s.mapInfo
  {
    var id := s.vvNew[b][p];
    if id == EMPTY then s
    else
      var r := Release(s, b, p);
      if r.mapInfo[id].nRefCount == 0 then UpdatedIndexes(s, r, id, r.mapInfo[id]); Delete(r, id) else r
  }

  lemma {:induction false} ClearNewKeeps(s: State, b: nat, p: nat, limbo: set<int>, counted: int)
    requires Inv(s, limbo, counted) && b < |s.vvNew| && p < |s.vvNew[b]|
    ensures Inv(ClearNew(s, b, p), limbo, counted)
  {
    var id := s.vvNew[b][p];
    if id != EMPTY {
      ReleaseKeeps(s, b, p, limbo, counted);
      var r := Release(s, b, p);
      if r.mapInfo[id].nRefCount == 0 {
        DeleteKeeps(r, id, limbo + {id}, counted + 1);
        assert limbo + {id} - {id} == limbo;
      }
    }
  }

  // Entry k is the same in both states, up to its place in vRandom.
  ghost predicate SameEntry(s: State, r: State, k: int)
    requires k in s.mapInfo
  {
    k in r.mapInfo && r.mapInfo[k] == s.mapInfo[k].(nRandomPos := r.mapInfo[k].nRandomPos)
  }

  // Entry k lost one reference, and is gone if that was its last.
  ghost predicate LostReference(s: State, r: State, k: int)
    requires k in s.mapInfo
  {
    if s.mapInfo[k].nRefCount == 1 then k !in r.mapInfo
    else
      && k in r.mapInfo
      && r.mapInfo[k] == s.mapInfo[k].(nRefCount := s.mapInfo[k].nRefCount - 1, nRandomPos := r.mapInfo[k].nRandomPos)
  }

  lemma {:induction false} MidwayShape(s: State)
    requires Midway(s)
    ensures s.config.Valid() && RandomOk(s) && EMPTY !in s.mapInfo
    ensures Shaped(s.vvNew, s.config.newBuckets, s.config.bucketSize)
    ensures Shaped(s.vvTried, s.config.triedBuckets, s.config.bucketSize)
  {
  }

  lemma {:induction false} MidwayTried(s: State, b: nat, p: nat)
    requires Midway(s) && b < |s.vvTried| && p < |s.vvTried[b]|
    ensures s.vvTried[b][p] != EMPTY ==> s.vvTried[b][p] in s.mapInfo && s.mapInfo[s.vvTried[b][p]].fInTried
  {
  }

  lemma {:induction false} InvIsMidway(s: State, limbo: set<int>, counted: int)
    requires Inv(s, limbo, counted)
    ensures Midway(s)
  {
  }

  // Midway too, a slot holds nothing or an id that has an entry.
  lemma {:induction false} MidwaySlot(s: State, b: nat, p: nat)
    requires Midway(s) && b < |s.vvNew| && p < |s.vvNew[b]|
    ensures RandomOk(s) && (s.vvNew[b][p] != EMPTY ==> s.vvNew[b][p] in s.mapInfo)
  {
  }

  // ClearNew touches one slot, and no entry but the one that was there.
  lemma {:induction false} ClearNewFrame(s: State, b: nat, p: nat)
    requires RandomOk(s) && b < |s.vvNew| && p < |s.vvNew[b]|
    requires s.vvNew[b][p] != EMPTY ==> s.vvNew[b][p] in s.mapInfo
    ensures var r := ClearNew(s, b, p);
      r == s.(mapInfo := r.mapInfo, mapAddr := r.mapAddr, vRandom := r.vRandom, nNew := r.nNew,
              vvNew := Put(s.vvNew, b, p, EMPTY))
    ensures ClearNew(s, b, p).mapInfo.Keys <= s.mapInfo.Keys
    ensures forall k :: k in s.mapInfo && k != s.vvNew[b][p] ==> SameEntry(s, ClearNew(s, b, p), k)
    ensures s.vvNew[b][p] != EMPTY ==> LostReference(s, ClearNew(s, b, p), s.vvNew[b][p])
  {
    hide RandomOk, Delete;
    var id := s.vvNew[b][p];
    if id == EMPTY {
      assert s.vvNew[b][p := EMPTY] == s.vvNew[b];
    } else {
      var r := Release(s, b, p);
      UpdatedIndexes(s, r, id, r.mapInfo[id]);
      if r.mapInfo[id].nRefCount == 0 {
        DeleteRemoves(r, id);
      }
    }
  }

  // Enter an entry into a free slot of the new table, changing nNew by d.
  function Acquire(s: State, id: int, b: nat, p: nat, d: int): State
    requires b < |s.vvNew| && p < |s.vvNew[b]| && id in s.mapInfo
  {
    s.(mapInfo := s.mapInfo[id := s.mapInfo[id].(nRefCount := s.mapInfo[id].nRefCount + 1)],
       vvNew := Put(s.vvNew, b, p, id), nNew := s.nNew + d)
  }

  lemma {:induction false} AcquireEntries(s: State, id: int, b: nat, p: nat, d: int, limbo: set<int>, k: int)
    requires s.config.Valid() && NewTableOk(s) && TriedTableOk(s) && b < |s.vvNew| && p < |s.vvNew[b]|
    requires s.vvNew[b][p] == EMPTY && id in s.mapInfo && !s.mapInfo[id].fInTried && k in s.mapInfo && k != EMPTY
    requires s.mapInfo[id].nRefCount < NEW_BUCKETS_PER_ADDRESS && id != EMPTY
    requires EntryOk(s, limbo, k)
    ensures EntryOk(Acquire(s, id, b, p, d), limbo - {id}, k)
  {
    PutSlots(s.vvNew, b, p, id, k);
  }

  lemma {:induction false} AcquireAllEntries(s: State, id: int, b: nat, p: nat, d: int, limbo: set<int>)
    requires s.config.Valid() && NewTableOk(s) && TriedTableOk(s) && EMPTY !in s.mapInfo
    requires b < |s.vvNew| && p < |s.vvNew[b]| && s.vvNew[b][p] == EMPTY
    requires id in s.mapInfo && !s.mapInfo[id].fInTried && s.mapInfo[id].nRefCount < NEW_BUCKETS_PER_ADDRESS
    requires EntriesOk(s, limbo)
    ensures EntriesOk(Acquire(s, id, b, p, d), limbo - {id})
  {
    hide NewTableOk, TriedTableOk, EntryOk;
    var r := Acquire(s, id, b, p, d);
    forall k | k in r.mapInfo ensures EntryOk(r, limbo - {id}, k) { AcquireEntries(s, id, b, p, d, limbo, k); }
  }

  lemma {:induction false} AcquireCounts(s: State, id: int, b: nat, p: nat, d: int, limbo: set<int>, counted: int)
    requires b < |s.vvNew| && p < |s.vvNew[b]| && id in s.mapInfo && !s.mapInfo[id].fInTried
    requires CountsOk(s, limbo, counted)
    ensures CountsOk(Acquire(s, id, b, p, d), limbo - {id}, counted + d - (if id in limbo then 1 else 0))
  {
    var r := Acquire(s, id, b, p, d);
    UpdatedFlags(s, r, id, r.mapInfo[id]);
    assert id in limbo ==> New(r) - (limbo - {id}) == New(s) - limbo + {id};
    assert id !in limbo ==> limbo - {id} == limbo;
  }

  lemma {:induction false} AcquireTables(s: State, id: int, b: nat, p: nat, d: int)
    requires s.config.Valid() && NewTableOk(s) && TriedTableOk(s)
    requires b < |s.vvNew| && p < |s.vvNew[b]| && id in s.mapInfo && !s.mapInfo[id].fInTried
    requires s.NewPosition(b, s.mapInfo[id].service) == p
    ensures NewTableOk(Acquire(s, id, b, p, d)) && TriedTableOk(Acquire(s, id, b, p, d))
  {
  }

  lemma {:induction false} AcquireKeeps(s: State, id: int, b: nat, p: nat, d: int, limbo: set<int>, counted: int)
    requires Inv(s, limbo, counted) && b < |s.vvNew| && p < |s.vvNew[b]| && s.vvNew[b][p] == EMPTY
    requires id in s.mapInfo && !s.mapInfo[id].fInTried && s.mapInfo[id].nRefCount < NEW_BUCKETS_PER_ADDRESS
    requires s.NewPosition(b, s.mapInfo[id].service) == p
    ensures Inv(Acquire(s, id, b, p, d), limbo - {id}, counted + d - (if id in limbo then 1 else 0))
  {
    hide RandomOk, AddrOk, NewTableOk, TriedTableOk, EntriesOk, CountsOk;
    var r := Acquire(s, id, b, p, d);
    NoEmptyId(s);
    UpdatedIndexes(s, r, id, r.mapInfo[id]);
    AcquireAllEntries(s, id, b, p, d, limbo);
    AcquireTables(s, id, b, p, d);
    AcquireCounts(s, id, b, p, d, limbo, counted);
  }
}
