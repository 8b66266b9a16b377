/** Saving the address manager to a stream and loading it again, as functions on
    states, and the round trip between the two. */
module AddrManDisk {
  import opened AddrManState

  // What is kept of an entry on disk.
  datatype Disk = Disk(
    service: Service, nServices: set<nat>, nTime: int, source: NetAddr, nLastSuccess: int, nAttempts: int)

  datatype Token = Num(n: int) | Entry(disk: Disk)

  function ToDisk(info: Info): Disk {
    Disk(info.service, info.nServices, info.nTime, info.source, info.nLastSuccess, info.nAttempts)
  }

  function FromDisk(d: Disk, nRefCount: int, fInTried: bool, nRandomPos: int): Info {
    Info(d.service, d.nServices, d.nTime, d.source, d.nLastSuccess, d.nAttempts, 0, 0, nRefCount, fInTried, nRandomPos)
  }

  // Flip bit 30, as the exclusive or with 2^30 does.
  function Xor30(n: int): int {
    if (n / 0x4000_0000) % 2 == 1 then n - 0x4000_0000 else n + 0x4000_0000
  }

  /* ---- saving ---- */

  predicate Wanted(info: Info, tried: bool) {
    if tried then info.fInTried else info.nRefCount != 0
  }

  // The new, or the tried, ids below n in ascending order.
  function Ids(s: State, tried: bool, n: nat): seq<int> {
    if n == 0 then []
    else Ids(s, tried, n - 1) + if n - 1 in s.mapInfo && Wanted(s.mapInfo[n - 1], tried) then [n - 1] else []
  }

  function Entries(s: State, ids: seq<int>): seq<Token>
    requires forall i :: 0 <= i < |ids| ==> ids[i] in s.mapInfo
  {
    seq(|ids|, i requires 0 <= i < |ids| => Entry(ToDisk(s.mapInfo[ids[i]])))
  }

  lemma {:induction false} OneMoreId(s: State, tried: bool, n: nat)
    ensures Ids(s, tried, 0) == []
    ensures n in s.mapInfo && Wanted(s.mapInfo[n], tried) ==> Ids(s, tried, n + 1) == Ids(s, tried, n) + [n]
    ensures !(n in s.mapInfo && Wanted(s.mapInfo[n], tried)) ==> Ids(s, tried, n + 1) == Ids(s, tried, n)
    ensures Rank(s, tried, n) == |Ids(s, tried, n)|
  {
  }

  lemma {:induction false} OneMoreEntry(s: State, ids: seq<int>, id: int)
    requires id in s.mapInfo && forall i :: 0 <= i < |ids| ==> ids[i] in s.mapInfo
    ensures Entries(s, ids + [id]) == Entries(s, ids) + [Entry(ToDisk(s.mapInfo[id]))]
  {
  }

  lemma {:induction false} NextBucket(s: State, bucket: nat, nUBuckets: int, tokens: seq<Token>, positions: bool)
    requires s.config.Valid() && Shaped(s.vvNew, s.config.newBuckets, s.config.bucketSize)
    requires positions ==> nUBuckets == s.config.newBuckets
    ensures bucket >= nUBuckets ==> LoadTable(s, bucket, nUBuckets, tokens, positions) == Ok(s, tokens)
    ensures bucket < nUBuckets && (tokens == [] || !tokens[0].Num?) ==>
      LoadTable(s, bucket, nUBuckets, tokens, positions) == Fail
    ensures bucket < nUBuckets && tokens != [] && tokens[0].Num? ==>
      var row := LoadRow(s, bucket, tokens[0].n, tokens[1..], positions);
      LoadTable(s, bucket, nUBuckets, tokens, positions)
        == if row.Fail? then Fail else LoadTable(row.state, bucket + 1, nUBuckets, row.rest, positions)
  {
  }

  lemma {:induction false} IdsKnown(s: State, tried: bool, n: nat)
    ensures forall i :: 0 <= i < |Ids(s, tried, n)| ==>
      0 <= Ids(s, tried, n)[i] < n && Ids(s, tried, n)[i] in s.mapInfo && Wanted(s.mapInfo[Ids(s, tried, n)[i]], tried)
  {
    if n > 0 { IdsKnown(s, tried, n - 1); }
  }

  // The index a new entry has on disk: how many come before it.
  function Rank(s: State, tried: bool, id: int): nat { if id < 0 then 0 else |Ids(s, tried, id)| }

  function Filled(row: seq<int>): nat {
    if row == [] then 0 else (if row[0] != EMPTY then 1 else 0) + Filled(row[1..])
  }

  function RowTokens(s: State, row: seq<int>): seq<Token> {
    if row == [] then [] else (if row[0] != EMPTY then [Num(Rank(s, false, row[0]))] else []) + RowTokens(s, row[1..])
  }

  function TableTokens(s: State, t: Table): seq<Token> {
    if t == [] then [] else [Num(Filled(t[0]))] + RowTokens(s, t[0]) + TableTokens(s, t[1..])
  }

  function Header(s: State): seq<Token> {
    [Num(1), Num(32), Num(s.key), Num(s.nNew), Num(s.nTried), Num(Xor30(s.config.newBuckets))]
  }

  function Serialize(s: State): seq<Token>
    requires s.nIdCount >= 0
  {
    IdsKnown(s, false, s.nIdCount);
    IdsKnown(s, true, s.nIdCount);
    Header(s) + Entries(s, Ids(s, false, s.nIdCount)) + Entries(s, Ids(s, true, s.nIdCount)) + TableTokens(s, s.vvNew)
  }

  /* ---- loading ---- */

  // A read past the end or of the wrong kind throws.
  datatype Read = Fail | Ok(state: State, rest: seq<Token>)

  // One entry of the new table. Without usable positions it gets its own source's slot.
  function LoadNewEntry(s: State, n: nat, d: Disk, positions: bool): (r: State)
    requires s.config.Valid() && Shaped(s.vvNew, s.config.newBuckets, s.config.bucketSize)
    ensures r.nNew == s.nNew && r.config == s.config && Shaped(r.vvNew, s.config.newBuckets, s.config.bucketSize)
  {
    var r := s.(mapInfo := s.mapInfo[n := FromDisk(d, 0, false, |s.vRandom|)],
                mapAddr := s.mapAddr[d.service := n],
                vRandom := s.vRandom + [n]);
    if positions then r
    else
      var b := s.config.NewBucket(s.key, d.service, d.source);
      var p := s.NewPosition(b, d.service);
      if s.vvNew[b][p] != EMPTY then r
      else r.(mapInfo := r.mapInfo[n := r.mapInfo[n].(nRefCount := 1)], vvNew := Put(s.vvNew, b, p, n))
  }

  function LoadNew(s: State, n: nat, tokens: seq<Token>, positions: bool): (r: Read)
    requires s.config.Valid() && Shaped(s.vvNew, s.config.newBuckets, s.config.bucketSize)
    decreases s.nNew - n
  {
    if n >= s.nNew then Ok(s, tokens)
    else if tokens == [] || !tokens[0].Entry? then Fail
    else LoadNew(LoadNewEntry(s, n, tokens[0].disk, positions), n + 1, tokens[1..], positions)
  }

  // One entry of the tried table; it is lost if its slot is taken.
  function LoadTriedEntry(s: State, d: Disk): (r: State)
    requires s.config.Valid() && Shaped(s.vvTried, s.config.triedBuckets, s.config.bucketSize)
    ensures r.nTried == s.nTried && r.config == s.config
    ensures Shaped(r.vvTried, s.config.triedBuckets, s.config.bucketSize)
  {
    var b, p := s.TriedBucket(d.service), s.TriedPosition(d.service);
    if s.vvTried[b][p] != EMPTY then s
    else
      s.(mapInfo := s.mapInfo[s.nIdCount := FromDisk(d, 0, true, |s.vRandom|)],
         mapAddr := s.mapAddr[d.service := s.nIdCount],
         vRandom := s.vRandom + [s.nIdCount],
         vvTried := Put(s.vvTried, b, p, s.nIdCount),
         nIdCount := s.nIdCount + 1)
  }

  function LoadTried(s: State, n: nat, tokens: seq<Token>): (r: Read)
    requires s.config.Valid() && Shaped(s.vvTried, s.config.triedBuckets, s.config.bucketSize)
    decreases s.nTried - n
  {
    if n >= s.nTried then Ok(s, tokens)
    else if tokens == [] || !tokens[0].Entry? then Fail
    else LoadTried(LoadTriedEntry(s, tokens[0].disk), n + 1, tokens[1..])
  }

  // One position in a new bucket.
  function LoadIndex(s: State, bucket: nat, nIndex: int, positions: bool): State
    requires s.config.Valid() && Shaped(s.vvNew, s.config.newBuckets, s.config.bucketSize)
    requires positions ==> bucket < s.config.newBuckets
  {
    if !(0 <= nIndex < s.nNew && nIndex in s.mapInfo && positions) then s
    else
      var info := s.mapInfo[nIndex];
      var p := s.NewPosition(bucket, info.service);
      if s.vvNew[bucket][p] == EMPTY && info.nRefCount < NEW_BUCKETS_PER_ADDRESS then
        s.(mapInfo := s.mapInfo[nIndex := info.(nRefCount := info.nRefCount + 1)],
            vvNew := Put(s.vvNew, bucket, p, nIndex))
      else s
  }

  function LoadRow(s: State, bucket: nat, nSize: int, tokens: seq<Token>, positions: bool): (r: Read)
    requires s.config.Valid() && Shaped(s.vvNew, s.config.newBuckets, s.config.bucketSize)
    requires positions ==> bucket < s.config.newBuckets
    ensures r.Ok? ==> r.state.config == s.config && Shaped(r.state.vvNew, s.config.newBuckets, s.config.bucketSize)
    decreases nSize
  {
    if nSize <= 0 then Ok(s, tokens)
    else if tokens == [] || !tokens[0].Num? then Fail
    else LoadRow(LoadIndex(s, bucket, tokens[0].n, positions), bucket, nSize - 1, tokens[1..], positions)
  }

  function LoadTable(s: State, bucket: nat, nUBuckets: int, tokens: seq<Token>, positions: bool): Read
    requires s.config.Valid() && Shaped(s.vvNew, s.config.newBuckets, s.config.bucketSize)
    requires positions ==> nUBuckets == s.config.newBuckets
    decreases nUBuckets - bucket
  {
    if bucket >= nUBuckets then Ok(s, tokens)
    else if tokens == [] || !tokens[0].Num? then Fail
    else
      var row := LoadRow(s, bucket, tokens[0].n, tokens[1..], positions);
      if row.Fail? then Fail else LoadTable(row.state, bucket + 1, nUBuckets, row.rest, positions)
  }

  // An entry that ended up in no table.
  predicate Stray(s: State, id: int) { id in s.mapInfo && !s.mapInfo[id].fInTried && s.mapInfo[id].nRefCount == 0 }

  function PruneOne(s: State, id: int): (r: State)
    requires RandomOk(s)
    ensures RandomOk(r)
  {
    if Stray(s, id) then DeleteRemoves(s, id); Delete(s, id) else s
  }

  // Strays are dropped in the order of their ids.
  function Prune(s: State, n: nat): (r: State)
    requires RandomOk(s)
    ensures RandomOk(r)
  {
    if n == 0 then s else PruneOne(Prune(s, n - 1), n - 1)
  }

  // Loading only ever appends to vRandom, so the index is sound for any stream.
  ghost predicate Loading(s: State, n: int) {
    RandomOk(s) && forall id :: id in s.mapInfo ==> id < n
  }

  lemma {:induction false} AppendRandomOk(s: State, r: State, n: int, info: Info)
    requires Loading(s, n) && info.nRandomPos == |s.vRandom|
    requires r.mapInfo == s.mapInfo[n := info] && r.vRandom == s.vRandom + [n]
    ensures Loading(r, n + 1)
  {
    hide RandomOk;
    AppendRandom(s, r, n, info);
  }

  lemma {:induction false} LoadNewSound(s: State, n: nat, tokens: seq<Token>, positions: bool)
    requires s.config.Valid() && Shaped(s.vvNew, s.config.newBuckets, s.config.bucketSize) && Loading(s, n)
    requires n <= s.nNew || (n == 0 && s.mapInfo == map[])
    ensures var r := LoadNew(s, n, tokens, positions);
      r.Ok? ==>
        && r.state.config == s.config && r.state.key == s.key && r.state.nNew == s.nNew && r.state.nTried == s.nTried
        && r.state.vvTried == s.vvTried
        && Shaped(r.state.vvNew, s.config.newBuckets, s.config.bucketSize) && Loading(r.state, s.nNew)
    decreases s.nNew - n
  {
    hide RandomOk;
    if n < s.nNew && tokens != [] && tokens[0].Entry? {
      var r := LoadNewEntry(s, n, tokens[0].disk, positions);
      AppendRandomOk(s, r, n, r.mapInfo[n]);
      LoadNewSound(r, n + 1, tokens[1..], positions);
    }
  }

  lemma {:induction false} LoadTriedSound(s: State, n: nat, tokens: seq<Token>)
    requires s.config.Valid() && Shaped(s.vvNew, s.config.newBuckets, s.config.bucketSize)
    requires Shaped(s.vvTried, s.config.triedBuckets, s.config.bucketSize) && Loading(s, s.nIdCount)
    ensures var r := LoadTried(s, n, tokens);
      r.Ok? ==>
        && r.state.config == s.config && r.state.vvNew == s.vvNew && r.state.nNew == s.nNew
        && Loading(r.state, r.state.nIdCount)
    decreases s.nTried - n
  {
    if n < s.nTried && tokens != [] && tokens[0].Entry? {
      var d := tokens[0].disk;
      var r := LoadTriedEntry(s, d);
      if s.vvTried[s.TriedBucket(d.service)][s.TriedPosition(d.service)] == EMPTY {
        AppendRandomOk(s, r, s.nIdCount, r.mapInfo[s.nIdCount]);
      }
      LoadTriedSound(r, n + 1, tokens[1..]);
    }
  }

  lemma {:induction false} LoadIndexSound(s: State, bucket: nat, nIndex: int, positions: bool)
    requires s.config.Valid() && Shaped(s.vvNew, s.config.newBuckets, s.config.bucketSize) && RandomOk(s)
    requires positions ==> bucket < s.config.newBuckets
    ensures RandomOk(LoadIndex(s, bucket, nIndex, positions))
  {
    var r := LoadIndex(s, bucket, nIndex, positions);
    if r != s {
      UpdatedIndexes(s, r, nIndex, r.mapInfo[nIndex]);
    }
  }

  lemma {:induction false} LoadRowSound(s: State, bucket: nat, nSize: int, tokens: seq<Token>, positions: bool)
    requires s.config.Valid() && Shaped(s.vvNew, s.config.newBuckets, s.config.bucketSize) && RandomOk(s)
    requires positions ==> bucket < s.config.newBuckets
    ensures LoadRow(s, bucket, nSize, tokens, positions).Ok? ==>
      RandomOk(LoadRow(s, bucket, nSize, tokens, positions).state)
    decreases nSize
  {
    if nSize > 0 && tokens != [] && tokens[0].Num? {
      LoadIndexSound(s, bucket, tokens[0].n, positions);
      LoadRowSound(LoadIndex(s, bucket, tokens[0].n, positions), bucket, nSize - 1, tokens[1..], positions);
    }
  }

  lemma {:induction false} LoadTableSound(s: State, bucket: nat, nUBuckets: int, tokens: seq<Token>, positions: bool)
    requires s.config.Valid() && Shaped(s.vvNew, s.config.newBuckets, s.config.bucketSize) && RandomOk(s)
    requires positions ==> nUBuckets == s.config.newBuckets
    ensures LoadTable(s, bucket, nUBuckets, tokens, positions).Ok? ==>
      RandomOk(LoadTable(s, bucket, nUBuckets, tokens, positions).state)
    decreases nUBuckets - bucket
  {
    if bucket < nUBuckets && tokens != [] && tokens[0].Num? {
      LoadRowSound(s, bucket, tokens[0].n, tokens[1..], positions);
      var row := LoadRow(s, bucket, tokens[0].n, tokens[1..], positions);
      if row.Ok? { LoadTableSound(row.state, bucket + 1, nUBuckets, row.rest, positions); }
    }
  }

  datatype Loaded = Thrown | Done(state: State)

  // The header: version, key size, key and the three counts.
  predicate HeaderOk(config: Config, tokens: seq<Token>) {
    && |tokens| >= 6
    && (forall i :: 0 <= i < 6 ==> tokens[i].Num?)
    && tokens[1].n == 32 && tokens[2].n >= 0
    && tokens[3].n <= config.newBuckets * config.bucketSize
    && tokens[4].n <= config.triedBuckets * config.bucketSize
  }

  function BucketCount(tokens: seq<Token>): int
    requires |tokens| >= 6 && tokens[0].Num? && tokens[5].Num?
  {
    if tokens[0].n != 0 then Xor30(tokens[5].n) else tokens[5].n
  }

  // Read all entries; nTried is corrected for the lost ones.
  function LoadEntries(config: Config, tokens: seq<Token>): (r: Read)
    requires config.Valid() && HeaderOk(config, tokens)
    ensures r.Ok? ==>
      r.state.config == config && Shaped(r.state.vvNew, config.newBuckets, config.bucketSize) && RandomOk(r.state)
  {
    var positions := tokens[0].n == 1 && BucketCount(tokens) == config.newBuckets;
    var s := Empty(config, tokens[2].n).(nNew := tokens[3].n, nTried := tokens[4].n);
    var r1 := LoadNew(s, 0, tokens[6..], positions);
    LoadNewSound(s, 0, tokens[6..], positions);
    if r1.Fail? then Fail
    else
      var s1 := r1.state.(nIdCount := s.nNew);
      var r2 := LoadTried(s1, 0, r1.rest);
      LoadTriedSound(s1, 0, r1.rest);
      if r2.Fail? then Fail
      else
        var attempts := if s.nTried < 0 then 0 else s.nTried;
        var nLost := attempts - (r2.state.nIdCount - s.nNew);
        Ok(r2.state.(nTried := s.nTried - nLost), r2.rest)
  }

  function Unserialize(config: Config, tokens: seq<Token>): Loaded
    requires config.Valid()
  {
    if !HeaderOk(config, tokens) then Thrown
    else
      var nUBuckets := BucketCount(tokens);
      var positions := tokens[0].n == 1 && nUBuckets == config.newBuckets;
      var r := LoadEntries(config, tokens);
      if r.Fail? then Thrown
      else
        var t := LoadTable(r.state, 0, nUBuckets, r.rest, positions);
        LoadTableSound(r.state, 0, nUBuckets, r.rest, positions);
        if t.Fail? then Thrown
        else Done(Prune(t.state, if t.state.nIdCount < 0 then 0 else t.state.nIdCount))
  }
}
