/** What a manager read from any stream is: the entries, the random order, the tables and the
    counts agree, whatever was read, and only the index by address may be wrong. */
module AddrManLoading {
  import opened AddrManState
  import opened AddrManDisk

  ghost function Strays(s: State): set<int> { set id | id in s.mapInfo && Stray(s, id) }

  // The tables and the entries agree, strays being in no table.
  ghost predicate Half(s: State) {
    && s.config.Valid() && NewTableOk(s) && TriedTableOk(s) && EMPTY !in s.mapInfo
    && EntriesOk(s, Strays(s))
  }

  // Every entry's service is a key, and every key leads to an entry with that very service.
  ghost predicate Indexed(s: State) {
    && (forall id :: id in s.mapInfo ==> s.mapInfo[id].service in s.mapAddr)
    && (forall a :: a in s.mapAddr ==> s.mapAddr[a] in s.mapInfo && s.mapInfo[s.mapAddr[a]].service == a)
  }

  // Ids run up to n, the tried entries from cut on, and all are indexed by their service.
  ghost predicate Numbered(s: State, cut: int, n: int) {
    && 0 <= cut <= n
    && (forall id :: id in s.mapInfo <==> 0 <= id < n)
    && (forall id :: id in s.mapInfo ==> (s.mapInfo[id].fInTried <==> id >= cut))
    && Indexed(s)
  }

  /* ---- one entry ---- */

  lemma {:induction false} NoSlotsYet(s: State, id: int)
    requires s.config.Valid() && NewTableOk(s) && id !in s.mapInfo && id != EMPTY
    ensures Slots(s.vvNew, id) == {}
  {
  }

  // A new entry in no table is a stray.
  lemma {:induction false} StrayKeeps(s: State, r: State, id: int, info: Info)
    requires Half(s) && id !in s.mapInfo && id != EMPTY && !info.fInTried && info.nRefCount == 0
    requires r == s.(mapInfo := s.mapInfo[id := info], mapAddr := r.mapAddr, vRandom := r.vRandom)
    ensures Half(r)
  {
    NoSlotsYet(s, id);
    forall k | k in r.mapInfo ensures EntryOk(r, Strays(r), k) {
      if k != id { assert EntryOk(s, Strays(s), k); }
    }
  }

  // A stray or any other new entry gets a slot.
  lemma {:induction false} SlotKeeps(s: State, id: int, b: nat, p: nat)
    requires Half(s) && id in s.mapInfo && !s.mapInfo[id].fInTried && b < |s.vvNew| && p < |s.vvNew[b]|
    requires s.vvNew[b][p] == EMPTY && s.NewPosition(b, s.mapInfo[id].service) == p
    requires s.mapInfo[id].nRefCount < NEW_BUCKETS_PER_ADDRESS
    ensures Half(Acquire(s, id, b, p, 0))
  {
    hide NewTableOk, TriedTableOk, EntryOk;
    var r := Acquire(s, id, b, p, 0);
    AcquireTables(s, id, b, p, 0);
    assert EntryOk(s, Strays(s), id);
    HasReferences(s, id);
    assert Strays(r) == Strays(s) - {id};
    forall k | k in r.mapInfo ensures EntryOk(r, Strays(r), k) {
      AcquireEntries(s, id, b, p, 0, Strays(s), k);
    }
  }

  lemma {:induction false} HasReferences(s: State, id: int)
    requires s.config.Valid() && id in s.mapInfo && EntryOk(s, Strays(s), id)
    ensures s.mapInfo[id].nRefCount >= 0
  {
    hide Slots;
  }

  // A tried entry gets its free slot.
  lemma {:induction false} TriedKeeps(s: State, r: State, id: int, info: Info)
    requires Half(s) && id !in s.mapInfo && id != EMPTY && info.fInTried && info.nRefCount == 0
    requires var b, p := s.TriedBucket(info.service), s.TriedPosition(info.service);
      && s.vvTried[b][p] == EMPTY
      && r == s.(mapInfo := s.mapInfo[id := info], mapAddr := r.mapAddr, vRandom := r.vRandom, nIdCount := r.nIdCount,
                 vvTried := Put(s.vvTried, b, p, id))
    ensures Half(r)
  {
    NoSlotsYet(s, id);
    forall k | k in r.mapInfo ensures EntryOk(r, Strays(r), k) {
      if k != id { assert EntryOk(s, Strays(s), k); }
    }
  }

  lemma {:induction false} HalfShape(s: State)
    requires Half(s)
    ensures s.config.Valid()
    ensures Shaped(s.vvNew, s.config.newBuckets, s.config.bucketSize)
    ensures Shaped(s.vvTried, s.config.triedBuckets, s.config.bucketSize)
  {
  }

  /* ---- the stages of loading ---- */

  lemma {:induction false} LoadNewEntryKeeps(s: State, n: nat, d: Disk, positions: bool)
    requires Half(s) && Numbered(s, n, n)
    ensures var r := LoadNewEntry(s, n, d, positions); Half(r) && Numbered(r, n + 1, n + 1)
  {
    hide NewTableOk, TriedTableOk, EntriesOk;
    HalfShape(s);
    var info := FromDisk(d, 0, false, |s.vRandom|);
    var r := s.(mapInfo := s.mapInfo[n := info], mapAddr := s.mapAddr[d.service := n], vRandom := s.vRandom + [n]);
    StrayKeeps(s, r, n, info);
    var b := s.config.NewBucket(s.key, d.service, d.source);
    var p := s.NewPosition(b, d.service);
    if s.vvNew[b][p] == EMPTY { SlotKeeps(r, n, b, p); }
  }

  lemma {:induction false} LoadNewKeeps(s: State, n: nat, tokens: seq<Token>, positions: bool)
    requires Half(s) && Numbered(s, n, n) && n <= s.nNew
    ensures var r := LoadNew(s, n, tokens, positions);
      r.Ok? ==> Half(r.state) && Numbered(r.state, s.nNew, s.nNew) && SameCounts(s, r.state)
    decreases s.nNew - n
  {
    hide Half, Numbered;
    HalfShape(s);
    if n < s.nNew && tokens != [] && tokens[0].Entry? {
      LoadNewEntryKeeps(s, n, tokens[0].disk, positions);
      LoadNewKeeps(LoadNewEntry(s, n, tokens[0].disk, positions), n + 1, tokens[1..], positions);
    }
  }

  ghost predicate SameCounts(s: State, r: State) {
    r.config == s.config && r.key == s.key && r.nNew == s.nNew && r.nTried == s.nTried
  }

  lemma {:induction false} LoadTriedEntryKeeps(s: State, d: Disk)
    requires Half(s) && Numbered(s, s.nNew, s.nIdCount)
    ensures var r := LoadTriedEntry(s, d);
      && Half(r) && Numbered(r, s.nNew, r.nIdCount) && SameCounts(s, r)
  {
    hide NewTableOk, TriedTableOk, EntriesOk;
    HalfShape(s);
    var r := LoadTriedEntry(s, d);
    if r != s { TriedKeeps(s, r, s.nIdCount, FromDisk(d, 0, true, |s.vRandom|)); }
  }

  lemma {:induction false} LoadTriedKeeps(s: State, n: nat, tokens: seq<Token>)
    requires Half(s) && Numbered(s, s.nNew, s.nIdCount)
    ensures var r := LoadTried(s, n, tokens);
      r.Ok? ==> Half(r.state) && Numbered(r.state, s.nNew, r.state.nIdCount) && SameCounts(s, r.state)
    decreases s.nTried - n
  {
    hide Half, Numbered;
    HalfShape(s);
    if n < s.nTried && tokens != [] && tokens[0].Entry? {
      LoadTriedEntryKeeps(s, tokens[0].disk);
      LoadTriedKeeps(LoadTriedEntry(s, tokens[0].disk), n + 1, tokens[1..]);
    }
  }

  // Positions change reference counts and the new table only.
  ghost predicate Filling(s: State, r: State) { SameCounts(s, r) && r.nIdCount == s.nIdCount }

  lemma {:induction false} LoadIndexKeeps(s: State, bucket: nat, nIndex: int, positions: bool)
    requires Half(s) && Numbered(s, s.nNew, s.nIdCount) && (positions ==> bucket < s.config.newBuckets)
    ensures var r := LoadIndex(s, bucket, nIndex, positions);
      Half(r) && Numbered(r, r.nNew, r.nIdCount)
  {
    hide NewTableOk, TriedTableOk, EntriesOk;
    HalfShape(s);
    var r := LoadIndex(s, bucket, nIndex, positions);
    if r != s { SlotKeeps(s, nIndex, bucket, s.NewPosition(bucket, s.mapInfo[nIndex].service)); }
  }

  lemma {:induction false} LoadRowKeeps(s: State, bucket: nat, nSize: int, tokens: seq<Token>, positions: bool)
    requires Half(s) && Numbered(s, s.nNew, s.nIdCount) && (positions ==> bucket < s.config.newBuckets)
    ensures var r := LoadRow(s, bucket, nSize, tokens, positions);
      r.Ok? ==> Half(r.state) && Numbered(r.state, r.state.nNew, r.state.nIdCount)
    decreases nSize
  {
    hide Half, Numbered;
    HalfShape(s);
    if nSize > 0 && tokens != [] && tokens[0].Num? {
      var m := LoadIndex(s, bucket, tokens[0].n, positions);
      LoadIndexKeeps(s, bucket, tokens[0].n, positions);
      LoadRowKeeps(m, bucket, nSize - 1, tokens[1..], positions);
    }
  }

  lemma {:induction false} LoadTableKeeps(s: State, bucket: nat, nUBuckets: int, tokens: seq<Token>, positions: bool)
    requires Half(s) && Numbered(s, s.nNew, s.nIdCount) && (positions ==> nUBuckets == s.config.newBuckets)
    ensures var r := LoadTable(s, bucket, nUBuckets, tokens, positions);
      r.Ok? ==> Half(r.state) && Numbered(r.state, r.state.nNew, r.state.nIdCount)
    decreases nUBuckets - bucket
  {
    hide Half, Numbered;
    HalfShape(s);
    if bucket < nUBuckets && tokens != [] && tokens[0].Num? {
      LoadRowKeeps(s, bucket, tokens[0].n, tokens[1..], positions);
      var row := LoadRow(s, bucket, tokens[0].n, tokens[1..], positions);
      if row.Ok? { LoadTableKeeps(row.state, bucket + 1, nUBuckets, row.rest, positions); }
    }
  }

  lemma {:induction false} LoadRowFills(s: State, bucket: nat, nSize: int, tokens: seq<Token>, positions: bool)
    requires s.config.Valid() && Shaped(s.vvNew, s.config.newBuckets, s.config.bucketSize)
    requires positions ==> bucket < s.config.newBuckets
    ensures var r := LoadRow(s, bucket, nSize, tokens, positions); r.Ok? ==> Filling(s, r.state)
    decreases nSize
  {
    if nSize > 0 && tokens != [] && tokens[0].Num? {
      LoadRowFills(LoadIndex(s, bucket, tokens[0].n, positions), bucket, nSize - 1, tokens[1..], positions);
    }
  }

  lemma {:induction false} LoadTableFills(s: State, bucket: nat, nUBuckets: int, tokens: seq<Token>, positions: bool)
    requires s.config.Valid() && Shaped(s.vvNew, s.config.newBuckets, s.config.bucketSize)
    requires positions ==> nUBuckets == s.config.newBuckets
    ensures var r := LoadTable(s, bucket, nUBuckets, tokens, positions); r.Ok? ==> Filling(s, r.state)
    decreases nUBuckets - bucket
  {
    if bucket < nUBuckets && tokens != [] && tokens[0].Num? {
      LoadRowFills(s, bucket, tokens[0].n, tokens[1..], positions);
      var row := LoadRow(s, bucket, tokens[0].n, tokens[1..], positions);
      if row.Ok? { LoadTableFills(row.state, bucket + 1, nUBuckets, row.rest, positions); }
    }
  }

  /* ---- counts ---- */

  // Until the strays go, nNew includes them all.
  lemma {:induction false} CountedWithStrays(s: State, cut: nat, n: nat)
    requires Numbered(s, cut, n) && s.nNew == cut && s.nTried == n - cut
    ensures CountsOk(s, Strays(s), |Strays(s)|)
  {
    RangeSize(n, Tried(s), cut);
    RangeSize(cut, New(s), 0);
    assert New(s) == (New(s) - Strays(s)) + Strays(s);
  }

  /* ---- strays go ---- */

  ghost function Keys(s: State, gone: set<int>): set<Service>
    requires gone <= s.mapInfo.Keys
  {
    set id | id in gone :: s.config.Squash(s.mapInfo[id].service)
  }

  // r is s without some entries and their keys.
  ghost predicate Without(s: State, r: State, gone: set<int>) {
    && gone <= s.mapInfo.Keys
    && r == s.(mapInfo := r.mapInfo, vRandom := r.vRandom, mapAddr := r.mapAddr, nNew := s.nNew - |gone|)
    && r.mapInfo.Keys == s.mapInfo.Keys - gone
    && (forall k :: k in r.mapInfo ==> r.mapInfo[k] == s.mapInfo[k].(nRandomPos := r.mapInfo[k].nRandomPos))
    && r.mapAddr == s.mapAddr - Keys(s, gone)
  }

  lemma {:induction false} OneLess(s: State, m: State, r: State, gone: set<int>, id: int)
    requires Without(s, m, gone) && id in m.mapInfo && Removed(m, r, id)
    ensures Without(s, r, gone + {id})
  {
    assert Keys(s, gone + {id}) == Keys(s, gone) + {s.config.Squash(s.mapInfo[id].service)};
  }

  ghost function StraysBelow(s: State, n: int): set<int> { set id | id in Strays(s) && 0 <= id < n }

  lemma {:induction false} StillStray(s: State, r: State, n: nat)
    requires Without(s, r, StraysBelow(s, n))
    ensures Stray(r, n) <==> Stray(s, n)
    ensures Stray(s, n) ==> StraysBelow(s, n + 1) == StraysBelow(s, n) + {n}
    ensures !Stray(s, n) ==> StraysBelow(s, n + 1) == StraysBelow(s, n)
  {
    assert n !in StraysBelow(s, n);
  }

  lemma {:induction false} PruneRemoves(s: State, n: nat)
    requires RandomOk(s)
    ensures Without(s, Prune(s, n), StraysBelow(s, n))
  {
    hide RandomOk, Without, Delete, Stray;
    if n == 0 {
      NoneGone(s);
    } else {
      var m := Prune(s, n - 1);
      PruneRemoves(s, n - 1);
      StillStray(s, m, n - 1);
      if Stray(m, n - 1) {
        StrayKnown(m, n - 1);
        DeleteRemoves(m, n - 1);
        OneLess(s, m, Delete(m, n - 1), StraysBelow(s, n - 1), n - 1);
      }
    }
  }

  lemma {:induction false} StrayKnown(s: State, id: int)
    requires Stray(s, id)
    ensures id in s.mapInfo
  {
  }

  lemma {:induction false} NoneGone(s: State)
    ensures Without(s, s, StraysBelow(s, 0))
  {
    assert StraysBelow(s, 0) == {};
    assert Keys(s, {}) == {};
  }

  // What is left once all strays are gone is in the tables and counted.
  lemma {:induction false} LeftEntries(s: State, r: State)
    requires Half(s) && Without(s, r, Strays(s))
    ensures EntriesOk(r, {}) && NewTableOk(r) && TriedTableOk(r)
  {
    hide Slots, NewTableOk, TriedTableOk;
    forall k | k in r.mapInfo ensures EntryOk(r, {}, k) { assert EntryOk(s, Strays(s), k); }
    forall id | id in Strays(s) ensures |Slots(s.vvNew, id)| == 0 { LimboHasNoSlot(s, id, Strays(s)); }
    LeftTables(s, r);
  }

  lemma {:induction false} LeftTables(s: State, r: State)
    requires s.config.Valid() && NewTableOk(s) && TriedTableOk(s) && Without(s, r, Strays(s))
    requires forall id :: id in Strays(s) ==> |Slots(s.vvNew, id)| == 0
    ensures NewTableOk(r) && TriedTableOk(r)
  {
    forall id | id in Strays(s)
      ensures forall b, p :: 0 <= b < |s.vvNew| && 0 <= p < |s.vvNew[b]| ==> s.vvNew[b][p] != id
    {
      NoSlot(s.vvNew, id);
    }
  }

  lemma {:induction false} LeftCounts(s: State, r: State)
    requires CountsOk(s, Strays(s), |Strays(s)|) && Without(s, r, Strays(s))
    ensures CountsOk(r, {}, 0)
  {
    assert Tried(r) == Tried(s);
    assert New(r) - {} == New(s) - Strays(s);
  }

  /* ---- the index by address ---- */

  // No entry read has a port that lookups drop, and none that is kept shares its service.
  ghost predicate Unambiguous(s: State) {
    && (forall id :: id in s.mapInfo ==> s.config.Squash(s.mapInfo[id].service) == s.mapInfo[id].service)
    && (forall id, other :: id in s.mapInfo && other in s.mapInfo && !Stray(s, id) && id != other ==>
          s.mapInfo[id].service != s.mapInfo[other].service)
  }

  lemma {:induction false} KeptIndex(s: State, r: State)
    requires Indexed(s) && Without(s, r, Strays(s)) && Unambiguous(s)
    requires forall id :: id in s.mapInfo ==> 0 <= id < s.nIdCount
    ensures AddrOk(r)
  {
    forall id | id in r.mapInfo
      ensures r.config.Squash(r.mapInfo[id].service) in r.mapAddr && r.mapAddr[r.mapInfo[id].service] == id
    {
      var a := s.mapInfo[id].service;
      assert s.mapAddr[a] == id;
      assert a !in Keys(s, Strays(s));
    }
    forall a | a in r.mapAddr
      ensures r.mapAddr[a] in r.mapInfo && r.config.Squash(r.mapInfo[r.mapAddr[a]].service) == a
    {
      var id := s.mapAddr[a];
      assert id in Strays(s) ==> s.config.Squash(a) in Keys(s, Strays(s));
    }
  }

  lemma {:induction false} KeptUnambiguous(s: State, r: State)
    requires Indexed(s) && Without(s, r, Strays(s)) && AddrOk(r)
    ensures Unambiguous(s)
  {
    forall id | id in s.mapInfo ensures s.config.Squash(s.mapInfo[id].service) == s.mapInfo[id].service {
      var a := s.mapInfo[id].service;
      assert a in Keys(s, Strays(s)) || a in r.mapAddr;
    }
    forall id, other | id in s.mapInfo && other in s.mapInfo && !Stray(s, id) && id != other
      ensures s.mapInfo[id].service != s.mapInfo[other].service
    {
      assert id in r.mapInfo && (other in r.mapInfo || other in Strays(s));
      assert other in Strays(s) ==> s.config.Squash(s.mapInfo[other].service) in Keys(s, Strays(s));
    }
  }

  /* ---- any stream ---- */

  predicate Positions(config: Config, tokens: seq<Token>)
    requires HeaderOk(config, tokens)
  {
    tokens[0].n == 1 && BucketCount(tokens) == config.newBuckets
  }

  // All that is read, strays included.
  function ReadIn(config: Config, tokens: seq<Token>): Read
    requires config.Valid() && HeaderOk(config, tokens)
  {
    var r := LoadEntries(config, tokens);
    if r.Fail? then Fail else LoadTable(r.state, 0, BucketCount(tokens), r.rest, Positions(config, tokens))
  }

  lemma {:induction false} EmptyHalf(config: Config, key: nat, nNew: nat, nTried: int)
    requires config.Valid()
    ensures var s := Empty(config, key).(nNew := nNew, nTried := nTried); Half(s) && Numbered(s, 0, 0)
  {
  }

  // The stages of LoadEntries.
  lemma {:induction false} Stages(config: Config, tokens: seq<Token>) returns (s: State, r1: Read, s1: State, r2: Read)
    requires config.Valid() && HeaderOk(config, tokens) && LoadEntries(config, tokens).Ok?
    ensures s == Empty(config, tokens[2].n).(nNew := tokens[3].n, nTried := tokens[4].n)
    ensures Shaped(s.vvNew, config.newBuckets, config.bucketSize)
    ensures r1 == LoadNew(s, 0, tokens[6..], Positions(config, tokens)) && r1.Ok?
    ensures s1 == r1.state.(nIdCount := s.nNew) && SameCounts(s, s1)
    ensures Shaped(s1.vvTried, config.triedBuckets, config.bucketSize)
    ensures r2 == LoadTried(s1, 0, r1.rest) && r2.Ok?
    ensures r2.state.nNew == s.nNew && r2.state.config == s.config
    ensures var nLost := (if s.nTried < 0 then 0 else s.nTried) - (r2.state.nIdCount - s.nNew);
      LoadEntries(config, tokens) == Ok(r2.state.(nTried := s.nTried - nLost), r2.rest)
  {
    hide LoadNew, LoadTried;
    s := Empty(config, tokens[2].n).(nNew := tokens[3].n, nTried := tokens[4].n);
    r1 := LoadNew(s, 0, tokens[6..], Positions(config, tokens));
    LoadNewSound(s, 0, tokens[6..], Positions(config, tokens));
    s1 := r1.state.(nIdCount := s.nNew);
    r2 := LoadTried(s1, 0, r1.rest);
    LoadTriedSound(s1, 0, r1.rest);
  }

  lemma {:induction false} EntriesHalf(config: Config, tokens: seq<Token>)
    requires config.Valid() && HeaderOk(config, tokens) && tokens[3].n >= 0 && tokens[4].n >= 0
    requires LoadEntries(config, tokens).Ok?
    ensures var r := LoadEntries(config, tokens).state;
      && Half(r) && Numbered(r, r.nNew, r.nIdCount)
      && r.nNew == tokens[3].n && r.nTried == r.nIdCount - r.nNew
  {
    hide Half, Numbered, RandomOk, LoadEntries, LoadNew, LoadTried, Shaped, Empty;
    var s, r1, s1, r2 := Stages(config, tokens);
    EmptyHalf(config, tokens[2].n, tokens[3].n, tokens[4].n);
    LoadNewKeeps(s, 0, tokens[6..], Positions(config, tokens));
    Recounted(r1.state, s1, s.nNew, s.nNew);
    LoadTriedKeeps(s1, 0, r1.rest);
    Recounted(r2.state, LoadEntries(config, tokens).state, s.nNew, r2.state.nIdCount);
  }

  // Counters do not matter to what the entries and tables say.
  lemma {:induction false} Recounted(s: State, r: State, cut: int, n: int)
    requires Half(s) && Numbered(s, cut, n) && r == s.(nIdCount := r.nIdCount, nTried := r.nTried)
    ensures Half(r) && Numbered(r, cut, n)
  {
    hide Slots;
    assert Strays(r) == Strays(s);
    forall k | k in r.mapInfo ensures EntryOk(r, Strays(r), k) { assert EntryOk(s, Strays(s), k); }
  }

  // With no negative count, everything read is in order, strays apart.
  lemma {:induction false} ReadInHalf(config: Config, tokens: seq<Token>)
    requires config.Valid() && HeaderOk(config, tokens) && tokens[3].n >= 0 && tokens[4].n >= 0
    requires ReadIn(config, tokens).Ok?
    ensures var m := ReadIn(config, tokens).state;
      && Half(m) && Numbered(m, m.nNew, m.nIdCount) && RandomOk(m) && CountsOk(m, Strays(m), |Strays(m)|)
  {
    hide Half, Numbered, RandomOk, CountsOk, LoadEntries, LoadTable;
    var r := LoadEntries(config, tokens);
    EntriesHalf(config, tokens);
    var positions := Positions(config, tokens);
    LoadTableKeeps(r.state, 0, BucketCount(tokens), r.rest, positions);
    LoadTableFills(r.state, 0, BucketCount(tokens), r.rest, positions);
    LoadTableSound(r.state, 0, BucketCount(tokens), r.rest, positions);
    var m := ReadIn(config, tokens).state;
    NumberedBounds(m);
    CountedWithStrays(m, m.nNew, m.nIdCount);
  }

  lemma {:induction false} NumberedBounds(s: State)
    requires Numbered(s, s.nNew, s.nIdCount)
    ensures 0 <= s.nNew <= s.nIdCount && StraysBelow(s, s.nIdCount) == Strays(s)
    ensures Indexed(s) && forall id :: id in s.mapInfo ==> 0 <= id < s.nIdCount
  {
  }

  // A negative count stays.
  lemma {:induction false} NegativeCounts(config: Config, tokens: seq<Token>)
    requires config.Valid() && HeaderOk(config, tokens) && ReadIn(config, tokens).Ok?
    ensures var m := ReadIn(config, tokens).state;
      && m.config == config && m.key == tokens[2].n && m.nNew == tokens[3].n && RandomOk(m)
      && (tokens[4].n < 0 ==> m.nTried == tokens[4].n)
  {
    hide RandomOk, LoadEntries, LoadNew, LoadTable, Shaped;
    var s, r1, s1, r2 := Stages(config, tokens);
    TriedKeepsKey(s1, 0, r1.rest);
    var r := LoadEntries(config, tokens);
    LoadTableFills(r.state, 0, BucketCount(tokens), r.rest, Positions(config, tokens));
    LoadTableSound(r.state, 0, BucketCount(tokens), r.rest, Positions(config, tokens));
  }

  lemma {:induction false} TriedKeepsKey(s: State, n: nat, tokens: seq<Token>)
    requires s.config.Valid() && Shaped(s.vvTried, s.config.triedBuckets, s.config.bucketSize)
    ensures var r := LoadTried(s, n, tokens); r.Ok? ==> r.state.key == s.key
    decreases s.nTried - n
  {
    if n < s.nTried && tokens != [] && tokens[0].Entry? {
      TriedKeepsKey(LoadTriedEntry(s, tokens[0].disk), n + 1, tokens[1..]);
    }
  }

  ghost predicate KeptTimed(s: State) {
    forall id :: id in s.mapInfo && !Stray(s, id) ==> TimesOk(s.mapInfo[id])
  }

  lemma {:induction false} LeftTimed(s: State, r: State)
    requires Without(s, r, Strays(s))
    ensures Timed(r) <==> KeptTimed(s)
  {
    forall id | id in s.mapInfo && !Stray(s, id)
      ensures id in r.mapInfo && (TimesOk(s.mapInfo[id]) <==> TimesOk(r.mapInfo[id]))
    {
    }
    forall id | id in r.mapInfo ensures id in s.mapInfo && !Stray(s, id) { assert id !in Strays(s); }
  }

  // What Unserialize makes of any stream that it accepts: the random order, the tables, the
  // entries and the counts agree unless a count is negative, and the index by address agrees
  // too exactly when what was read is unambiguous.
  lemma {:induction false} LoadedSound(config: Config, tokens: seq<Token>)
    requires config.Valid() && Unserialize(config, tokens).Done?
    ensures HeaderOk(config, tokens) && ReadIn(config, tokens).Ok?
    ensures var r, m := Unserialize(config, tokens).state, ReadIn(config, tokens).state;
      && r.config == config
      && (tokens[3].n >= 0 && tokens[4].n >= 0 ==>
            RandomOk(r) && NewTableOk(r) && TriedTableOk(r) && EntriesOk(r, {}) && CountsOk(r, {}, 0))
      && (Sound(r) <==> tokens[3].n >= 0 && tokens[4].n >= 0 && Unambiguous(m))
      && (Consistent(r) <==> Sound(r) && tokens[2].n != 0 && KeptTimed(m))
  {
    hide RandomOk, NewTableOk, TriedTableOk, EntriesOk, CountsOk, AddrOk, Unambiguous, Numbered, Half, ReadIn, Prune;
    var m := Pruned(config, tokens);
    var r := Unserialize(config, tokens).state;
    NegativeCounts(config, tokens);
    var n := if m.nIdCount < 0 then 0 else m.nIdCount;
    PruneRemoves(m, n);
    if tokens[3].n >= 0 && tokens[4].n >= 0 {
      ReadInHalf(config, tokens);
      NumberedBounds(m);
      LeftEntries(m, r);
      LeftCounts(m, r);
      LeftTimed(m, r);
      if AddrOk(r) { KeptUnambiguous(m, r); }
      if Unambiguous(m) { KeptIndex(m, r); }
    } else {
      Uncounted(r);
    }
  }

  lemma {:induction false} Uncounted(s: State)
    requires s.nNew < 0 || s.nTried < 0
    ensures !CountsOk(s, {}, 0)
  {
  }

  // Unserialize prunes what was read.
  lemma {:induction false} Pruned(config: Config, tokens: seq<Token>) returns (m: State)
    requires config.Valid() && Unserialize(config, tokens).Done?
    ensures HeaderOk(config, tokens) && ReadIn(config, tokens).Ok? && m == ReadIn(config, tokens).state
    ensures RandomOk(m) && Unserialize(config, tokens).state == Prune(m, if m.nIdCount < 0 then 0 else m.nIdCount)
  {
    hide RandomOk, LoadEntries, LoadTable, Prune;
    m := ReadIn(config, tokens).state;
    NegativeCounts(config, tokens);
  }
}
