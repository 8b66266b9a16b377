/** Saving and loading the address manager with the source's loops, proved to
    write and read exactly what the functions on states say. */
module AddrManStream {
  import opened AddrManState
  import opened AddrManDisk
  import opened AddrManRoundTrip
  import opened AddrMan

  // One list of entries, in the order of the ids, with the index of each.
  lemma {:induction false} NoEntries(s: State)
    ensures Entries(s, []) == []
  {
  }

  method WriteEntries(m: AddrMan, tried: bool, count: int) returns (tokens: seq<Token>, mapUnkIds: map<int, int>)
    requires m.nIdCount >= 0 && |Ids(m.Abs(), tried, m.nIdCount)| == count
    ensures (forall i :: 0 <= i < |Ids(m.Abs(), tried, m.nIdCount)| ==> Ids(m.Abs(), tried, m.nIdCount)[i] in m.mapInfo)
    ensures tokens == Entries(m.Abs(), Ids(m.Abs(), tried, m.nIdCount))
    ensures forall id :: id in m.mapInfo && 0 <= id < m.nIdCount ==>
      id in mapUnkIds && mapUnkIds[id] == Rank(m.Abs(), tried, id)
  {
    hide Ids, Rank, Entries;
    ghost var s := m.Abs();
    tokens, mapUnkIds := [], map[];
    var nIds := 0;
    IdsKnown(s, tried, m.nIdCount);
    OneMoreId(s, tried, 0);
    NoEntries(s);
    for id := 0 to m.nIdCount
      invariant nIds == |Ids(s, tried, id)|
      invariant (forall i :: 0 <= i < |Ids(s, tried, id)| ==> Ids(s, tried, id)[i] in s.mapInfo)
      invariant tokens == Entries(s, Ids(s, tried, id))
      invariant forall k :: k in m.mapInfo && 0 <= k < id ==> k in mapUnkIds && mapUnkIds[k] == Rank(s, tried, k)
    {
      OneMoreId(s, tried, id);
      if id in m.mapInfo {
        mapUnkIds := mapUnkIds[id := nIds];
        var info := m.mapInfo[id];
        if (if tried then info.fInTried else info.nRefCount != 0) {
          IdsPrefix(s, tried, id + 1, m.nIdCount);
          assert nIds != count;
          OneMoreEntry(s, Ids(s, tried, id), id);
          tokens := tokens + [Entry(ToDisk(info))];
          nIds := nIds + 1;
        }
      }
    }
  }

  // The filled positions of one bucket, after their number.
  lemma {:induction false} NextToken(s: State, row: seq<int>, i: nat)
    requires i < |row|
    ensures RowTokens(s, row[i..])
         == (if row[i] != EMPTY then [Num(Rank(s, false, row[i]))] else []) + RowTokens(s, row[i + 1..])
  {
    assert row[i..][1..] == row[i + 1..];
  }

  lemma {:induction false} NoTokens(s: State, row: seq<int>)
    ensures RowTokens(s, row[|row|..]) == []
  {
  }

  method CountRow(m: AddrMan, bucket: nat) returns (nSize: nat)
    requires bucket < m.vvNew.Length0
    ensures nSize == Filled(Rows(m.vvNew)[bucket])
  {
    ghost var row := Rows(m.vvNew)[bucket];
    nSize := 0;
    for i := 0 to m.vvNew.Length1
      invariant nSize + Filled(row[i..]) == Filled(row)
    {
      assert row[i..][1..] == row[i + 1..];
      if m.vvNew[bucket, i] != EMPTY {
        nSize := nSize + 1;
      }
    }
  }

  method WriteRow(m: AddrMan, bucket: nat, mapUnkIds: map<int, int>) returns (tokens: seq<Token>)
    requires bucket < m.vvNew.Length0
    requires forall i :: 0 <= i < m.vvNew.Length1 && m.vvNew[bucket, i] != EMPTY ==>
      m.vvNew[bucket, i] in mapUnkIds && mapUnkIds[m.vvNew[bucket, i]] == Rank(m.Abs(), false, m.vvNew[bucket, i])
    ensures tokens == [Num(Filled(Rows(m.vvNew)[bucket]))] + RowTokens(m.Abs(), Rows(m.vvNew)[bucket])
  {
    hide RowTokens, Filled, Rank;
    ghost var row := Rows(m.vvNew)[bucket];
    var nSize := CountRow(m, bucket);
    tokens := [Num(nSize)];
    assert row[0..] == row;
    for i := 0 to m.vvNew.Length1
      invariant tokens + RowTokens(m.Abs(), row[i..]) == [Num(nSize)] + RowTokens(m.Abs(), row)
    {
      NextToken(m.Abs(), row, i);
      if m.vvNew[bucket, i] != EMPTY {
        var nIndex := mapUnkIds[m.vvNew[bucket, i]];
        tokens := tokens + [Num(nIndex)];
      }
    }
    NoTokens(m.Abs(), row);
  }

  method Serialize(m: AddrMan) returns (tokens: seq<Token>)
    requires m.Valid()
    ensures tokens == AddrManDisk.Serialize(m.Abs())
  {
    ghost var s := m.Abs();
    CountsExact(s);
    tokens := [Num(1), Num(32), Num(m.key), Num(m.nNew), Num(m.nTried), Num(Xor30(m.config.newBuckets))];
    var news, mapUnkIds := WriteEntries(m, false, m.nNew);
    var trieds, _ := WriteEntries(m, true, m.nTried);
    tokens := tokens + news + trieds;
    var rows := WriteTable(m, mapUnkIds);
    tokens := tokens + rows;
  }

  method WriteTable(m: AddrMan, mapUnkIds: map<int, int>) returns (tokens: seq<Token>)
    requires forall b, i :: 0 <= b < m.vvNew.Length0 && 0 <= i < m.vvNew.Length1 && m.vvNew[b, i] != EMPTY ==>
      m.vvNew[b, i] in mapUnkIds && mapUnkIds[m.vvNew[b, i]] == Rank(m.Abs(), false, m.vvNew[b, i])
    ensures tokens == TableTokens(m.Abs(), Rows(m.vvNew))
  {
    ghost var t := Rows(m.vvNew);
    tokens := [];
    for bucket := 0 to m.vvNew.Length0
      invariant tokens + TableTokens(m.Abs(), t[bucket..]) == TableTokens(m.Abs(), t)
    {
      assert t[bucket..][1..] == t[bucket + 1..];
      var row := WriteRow(m, bucket, mapUnkIds);
      assert tokens + TableTokens(m.Abs(), t[bucket..]) == tokens + row + TableTokens(m.Abs(), t[bucket + 1..]);
      tokens := tokens + row;
    }
  }

  // The loop bodies of loading, each one step of its function.

  // The new entry joins the maps and the order.
  method AppendNew(m: AddrMan, n: nat, d: Disk)
    requires m.Shape()
    modifies m`mapInfo, m`mapAddr, m`vRandom
    ensures m.mapInfo == old(m.mapInfo)[n := FromDisk(d, 0, false, |old(m.vRandom)|)]
    ensures m.mapAddr == old(m.mapAddr)[d.service := n] && m.vRandom == old(m.vRandom) + [n]
  {
    m.mapInfo := m.mapInfo[n := FromDisk(d, 0, false, -1)];
    m.mapAddr := m.mapAddr[d.service := n];
    m.mapInfo := m.mapInfo[n := m.mapInfo[n].(nRandomPos := |m.vRandom|)];
    m.vRandom := m.vRandom + [n];
  }

  method ReadNewEntry(m: AddrMan, n: nat, d: Disk, positions: bool)
    requires m.Shape()
    modifies m, m.vvNew
    ensures m.Abs() == LoadNewEntry(old(m.Abs()), n, d, positions)
  {
    AppendNew(m, n, d);
    if !positions {
      var nUBucket := m.config.NewBucket(m.key, d.service, d.source);
      var nUBucketPos := m.config.Position(m.key, true, nUBucket, d.service);
      if m.vvNew[nUBucket, nUBucketPos] == EMPTY {
        SetSlot(m.vvNew, nUBucket, nUBucketPos, n);
        m.mapInfo := m.mapInfo[n := m.mapInfo[n].(nRefCount := m.mapInfo[n].nRefCount + 1)];
      }
    }
  }

  method ReadNew(m: AddrMan, tokens: seq<Token>, at: nat, positions: bool) returns (ok: bool, at': nat)
    requires m.Shape() && at <= |tokens|
    modifies m, m.vvNew
    ensures at' <= |tokens|
    ensures LoadNew(old(m.Abs()), 0, tokens[at..], positions) == if ok then Ok(m.Abs(), tokens[at'..]) else Fail
  {
    hide LoadNewEntry;
    ghost var s := m.Abs();
    ok, at' := true, at;
    var n := 0;
    while n < m.nNew
      invariant at <= at' <= |tokens| && m.nNew == s.nNew && 0 <= n
      invariant LoadNew(m.Abs(), n, tokens[at'..], positions) == LoadNew(s, 0, tokens[at..], positions)
      decreases m.nNew - n
    {
      if at' == |tokens| || !tokens[at'].Entry? {
        return false, at';
      }
      assert tokens[at'..][1..] == tokens[at' + 1..];
      ReadNewEntry(m, n, tokens[at'].disk, positions);
      at', n := at' + 1, n + 1;
    }
  }

  method ReadTriedEntry(m: AddrMan, d: Disk) returns (lost: bool)
    requires m.Shape()
    modifies m, m.vvTried
    ensures m.Abs() == LoadTriedEntry(old(m.Abs()), d)
    ensures m.nIdCount == old(m.nIdCount) + if lost then 0 else 1
  {
    var nKBucket := m.config.TriedBucket(m.key, d.service);
    var nKBucketPos := m.config.Position(m.key, false, nKBucket, d.service);
    lost := m.vvTried[nKBucket, nKBucketPos] != EMPTY;
    if !lost {
      var info := FromDisk(d, 0, true, |m.vRandom|);
      m.vRandom := m.vRandom + [m.nIdCount];
      m.mapInfo := m.mapInfo[m.nIdCount := info];
      m.mapAddr := m.mapAddr[d.service := m.nIdCount];
      SetSlot(m.vvTried, nKBucket, nKBucketPos, m.nIdCount);
      m.nIdCount := m.nIdCount + 1;
    }
  }

  method ReadTried(m: AddrMan, tokens: seq<Token>, at: nat) returns (ok: bool, at': nat, nLost: nat)
    requires m.Shape() && at <= |tokens|
    modifies m, m.vvTried
    ensures at' <= |tokens|
    ensures LoadTried(old(m.Abs()), 0, tokens[at..]) == if ok then Ok(m.Abs(), tokens[at'..]) else Fail
    ensures m.nTried == old(m.nTried)
    ensures ok ==> nLost == (if m.nTried < 0 then 0 else m.nTried) - (m.nIdCount - old(m.nIdCount))
  {
    hide LoadTriedEntry;
    ghost var s := m.Abs();
    ok, at', nLost := true, at, 0;
    var n := 0;
    while n < m.nTried
      invariant at <= at' <= |tokens| && m.nTried == s.nTried && 0 <= n && (n <= m.nTried || n == 0)
      invariant nLost == n - (m.nIdCount - s.nIdCount)
      invariant LoadTried(m.Abs(), n, tokens[at'..]) == LoadTried(s, 0, tokens[at..])
      decreases m.nTried - n
    {
      if at' == |tokens| || !tokens[at'].Entry? {
        return false, at', nLost;
      }
      assert tokens[at'..][1..] == tokens[at' + 1..];
      var lost := ReadTriedEntry(m, tokens[at'].disk);
      if lost {
        nLost := nLost + 1;
      }
      at', n := at' + 1, n + 1;
    }
  }

  method ReadIndex(m: AddrMan, bucket: nat, nIndex: int, positions: bool)
    requires m.Shape() && (positions ==> bucket < m.config.newBuckets)
    requires forall n :: 0 <= n < m.nNew ==> n in m.mapInfo
    modifies m`mapInfo, m.vvNew
    ensures m.Abs() == LoadIndex(old(m.Abs()), bucket, nIndex, positions)
    ensures forall n :: 0 <= n < m.nNew ==> n in m.mapInfo
  {
    if 0 <= nIndex < m.nNew {
      var info := m.mapInfo[nIndex];
      var nUBucketPos := m.config.Position(m.key, true, bucket, info.service);
      if positions && m.vvNew[bucket, nUBucketPos] == EMPTY && info.nRefCount < NEW_BUCKETS_PER_ADDRESS {
        m.mapInfo := m.mapInfo[nIndex := info.(nRefCount := info.nRefCount + 1)];
        SetSlot(m.vvNew, bucket, nUBucketPos, nIndex);
      }
    }
  }

  method ReadRow(m: AddrMan, bucket: nat, nSize: int, tokens: seq<Token>, at: nat, positions: bool)
    returns (ok: bool, at': nat)
    requires m.Shape() && at <= |tokens| && (positions ==> bucket < m.config.newBuckets)
    requires forall n :: 0 <= n < m.nNew ==> n in m.mapInfo
    modifies m`mapInfo, m.vvNew
    ensures at' <= |tokens|
    ensures LoadRow(old(m.Abs()), bucket, nSize, tokens[at..], positions)
         == if ok then Ok(m.Abs(), tokens[at'..]) else Fail
    ensures forall n :: 0 <= n < m.nNew ==> n in m.mapInfo
  {
    ghost var s := m.Abs();
    ok, at' := true, at;
    var n := 0;
    while n < nSize
      invariant at <= at' <= |tokens| && 0 <= n && (n <= nSize || n == 0)
      invariant forall k :: 0 <= k < m.nNew ==> k in m.mapInfo
      invariant LoadRow(m.Abs(), bucket, nSize - n, tokens[at'..], positions)
           == LoadRow(s, bucket, nSize, tokens[at..], positions)
    {
      if at' == |tokens| || !tokens[at'].Num? {
        return false, at';
      }
      assert tokens[at'..][1..] == tokens[at' + 1..];
      ReadIndex(m, bucket, tokens[at'].n, positions);
      at', n := at' + 1, n + 1;
    }
  }

  method ReadTable(m: AddrMan, nUBuckets: int, tokens: seq<Token>, at: nat, positions: bool)
    returns (ok: bool, at': nat)
    requires m.Shape() && at <= |tokens| && (positions ==> nUBuckets == m.config.newBuckets)
    requires forall n :: 0 <= n < m.nNew ==> n in m.mapInfo
    modifies m`mapInfo, m.vvNew
    ensures at' <= |tokens|
    ensures LoadTable(old(m.Abs()), 0, nUBuckets, tokens[at..], positions)
         == if ok then Ok(m.Abs(), tokens[at'..]) else Fail
  {
    hide LoadTable, LoadRow;
    ghost var s := m.Abs();
    ok, at' := true, at;
    var bucket := 0;
    while bucket < nUBuckets
      invariant at' <= |tokens| && 0 <= bucket
      invariant forall k :: 0 <= k < m.nNew ==> k in m.mapInfo
      invariant LoadTable(m.Abs(), bucket, nUBuckets, tokens[at'..], positions)
           == LoadTable(s, 0, nUBuckets, tokens[at..], positions)
    {
      NextBucket(m.Abs(), bucket, nUBuckets, tokens[at'..], positions);
      if at' == |tokens| || !tokens[at'].Num? {
        return false, at';
      }
      assert tokens[at'..][1..] == tokens[at' + 1..];
      ok, at' := ReadRow(m, bucket, tokens[at'].n, tokens, at' + 1, positions);
      if !ok {
        return;
      }
      bucket := bucket + 1;
    }
    NextBucket(m.Abs(), bucket, nUBuckets, tokens[at'..], positions);
  }

  method PruneStray(m: AddrMan, n: int)
    requires RandomOk(m.Abs())
    modifies m
    ensures RandomOk(m.Abs()) && m.Abs() == PruneOne(old(m.Abs()), n)
  {
    if n in m.mapInfo && !m.mapInfo[n].fInTried && m.mapInfo[n].nRefCount == 0 {
      DeleteRemoves(m.Abs(), n);
      m.Delete(n);
    }
  }

  method PruneStrays(m: AddrMan)
    requires RandomOk(m.Abs())
    modifies m
    ensures m.Abs() == Prune(old(m.Abs()), if old(m.nIdCount) < 0 then 0 else old(m.nIdCount))
  {
    hide RandomOk, PruneOne;
    ghost var s := m.Abs();
    var n, end := 0, m.nIdCount;
    while n < end
      invariant 0 <= n && (n <= end || n == 0)
      invariant RandomOk(m.Abs()) && m.Abs() == Prune(s, n)
    {
      PruneStray(m, n);
      n := n + 1;
    }
  }

  // Every index below nNew is loaded before positions refer to it.
  lemma {:induction false} LoadedAll(s: State, n: nat, tokens: seq<Token>, positions: bool)
    requires s.config.Valid() && Shaped(s.vvNew, s.config.newBuckets, s.config.bucketSize)
    requires forall k :: 0 <= k < n ==> k in s.mapInfo
    ensures var r := LoadNew(s, n, tokens, positions);
      r.Ok? ==> r.state.nNew == s.nNew && forall k :: 0 <= k < s.nNew ==> k in r.state.mapInfo
    decreases s.nNew - n
  {
    if n < s.nNew && tokens != [] && tokens[0].Entry? {
      LoadedAll(LoadNewEntry(s, n, tokens[0].disk, positions), n + 1, tokens[1..], positions);
    }
  }

  lemma {:induction false} TriedKeepsLoaded(s: State, n: nat, tokens: seq<Token>)
    requires s.config.Valid() && Shaped(s.vvTried, s.config.triedBuckets, s.config.bucketSize)
    ensures LoadTried(s, n, tokens).Ok? ==> s.mapInfo.Keys <= LoadTried(s, n, tokens).state.mapInfo.Keys
    decreases s.nTried - n
  {
    if n < s.nTried && tokens != [] && tokens[0].Entry? {
      TriedKeepsLoaded(LoadTriedEntry(s, tokens[0].disk), n + 1, tokens[1..]);
    }
  }

  // The state that the header gives.
  function Begun(config: Config, tokens: seq<Token>): State
    requires HeaderOk(config, tokens)
  {
    Empty(config, tokens[2].n).(nNew := tokens[3].n, nTried := tokens[4].n)
  }

  predicate Positions(config: Config, tokens: seq<Token>)
    requires HeaderOk(config, tokens)
  {
    tokens[0].n == 1 && BucketCount(tokens) == config.newBuckets
  }

  method ReadHeaderAndNew(m: AddrMan, tokens: seq<Token>) returns (ok: bool, at: nat)
    requires m.Shape() && HeaderOk(m.config, tokens)
    modifies m, m.vvTried, m.vvNew
    ensures at <= |tokens|
    ensures LoadNew(Begun(m.config, tokens), 0, tokens[6..], Positions(m.config, tokens)) ==
      if ok then Ok(m.Abs(), tokens[at..]) else Fail
  {
    m.Clear(tokens[2].n);
    m.nNew := tokens[3].n;
    m.nTried := tokens[4].n;
    ok, at := ReadNew(m, tokens, 6, tokens[0].n == 1 && BucketCount(tokens) == m.config.newBuckets);
  }

  method ReadTriedAndCount(m: AddrMan, tokens: seq<Token>, at: nat) returns (ok: bool, at': nat)
    requires m.Shape() && at <= |tokens|
    modifies m, m.vvTried
    ensures at' <= |tokens|
    ensures var r := LoadTried(old(m.Abs()).(nIdCount := old(m.nNew)), 0, tokens[at..]);
      ok == r.Ok? &&
      (ok ==>
        var attempts := if old(m.nTried) < 0 then 0 else old(m.nTried);
        tokens[at'..] == r.rest &&
        m.Abs() == r.state.(nTried := r.state.nTried - (attempts - (r.state.nIdCount - old(m.nNew)))))
  {
    m.nIdCount := m.nNew;
    var nLost;
    ok, at', nLost := ReadTried(m, tokens, at);
    ghost var s := m.Abs();
    if ok {
      m.nTried := m.nTried - nLost;
      assert m.Abs() == s.(nTried := m.nTried);
    }
  }

  lemma {:induction false} LoadedBeforePositions(config: Config, tokens: seq<Token>)
    requires config.Valid() && HeaderOk(config, tokens)
    ensures var r := LoadEntries(config, tokens);
      r.Ok? ==> forall n :: 0 <= n < r.state.nNew ==> n in r.state.mapInfo
  {
    var s, positions := Begun(config, tokens), Positions(config, tokens);
    LoadedAll(s, 0, tokens[6..], positions);
    LoadNewSound(s, 0, tokens[6..], positions);
    var r1 := LoadNew(s, 0, tokens[6..], positions);
    if r1.Ok? {
      TriedKeepsLoaded(r1.state.(nIdCount := s.nNew), 0, r1.rest);
      LoadTriedSound(r1.state.(nIdCount := s.nNew), 0, r1.rest);
    }
  }

  lemma {:induction false} LoadTriedCounts(s: State, n: nat, tokens: seq<Token>)
    requires s.config.Valid() && Shaped(s.vvTried, s.config.triedBuckets, s.config.bucketSize)
    ensures LoadTried(s, n, tokens).Ok? ==> LoadTried(s, n, tokens).state.nTried == s.nTried
    decreases s.nTried - n
  {
    if n < s.nTried && tokens != [] && tokens[0].Entry? {
      LoadTriedCounts(LoadTriedEntry(s, tokens[0].disk), n + 1, tokens[1..]);
    }
  }

  method ReadEntries(m: AddrMan, tokens: seq<Token>) returns (ok: bool, at: nat)
    requires m.Shape() && HeaderOk(m.config, tokens)
    modifies m, m.vvTried, m.vvNew
    ensures at <= |tokens|
    ensures LoadEntries(m.config, tokens) == if ok then Ok(m.Abs(), tokens[at..]) else Fail
  {
    hide LoadNew, LoadTried;
    LoadNewSound(Begun(m.config, tokens), 0, tokens[6..], Positions(m.config, tokens));
    ok, at := ReadHeaderAndNew(m, tokens);
    if ok {
      LoadTriedCounts(m.Abs().(nIdCount := m.nNew), 0, tokens[at..]);
      ok, at := ReadTriedAndCount(m, tokens, at);
    }
  }

  method Unserialize(m: AddrMan, tokens: seq<Token>) returns (ok: bool)
    requires m.Shape()
    modifies m, m.vvTried, m.vvNew
    ensures ok == AddrManDisk.Unserialize(m.config, tokens).Done?
    ensures ok ==> m.Abs() == AddrManDisk.Unserialize(m.config, tokens).state
  {
    if !HeaderOk(m.config, tokens) {
      return false;
    }
    var nUBuckets := BucketCount(tokens);
    var positions := tokens[0].n == 1 && nUBuckets == m.config.newBuckets;
    var at;
    ok, at := ReadEntries(m, tokens);
    if !ok {
      return;
    }
    LoadedBeforePositions(m.config, tokens);
    LoadTableSound(m.Abs(), 0, nUBuckets, tokens[at..], positions);
    ok, at := ReadTable(m, nUBuckets, tokens, at, positions);
    if ok {
      PruneStrays(m);
    }
  }
}
