/** The limits the address manager promises: over how many buckets addresses of one group are
    spread, when an entry is not worth keeping, and how a saved address book begins. */
module AddrManLimits {
  import opened AddrManState
  import opened AddrManDisk
  import opened AddrManOps

  // Tried addresses of one group are spread over at most eight buckets.
  lemma {:induction false} TriedSpread(config: Config, key: nat, group: nat) returns (buckets: seq<nat>)
    requires config.Valid()
    ensures |buckets| == 8
    ensures forall a: Service :: config.group(a.ip) == group ==> config.TriedBucket(key, a) in buckets
  {
    buckets := seq(8, i requires 0 <= i < 8 => config.hashTried(key, group, i) % config.triedBuckets);
    forall a: Service | config.group(a.ip) == group ensures config.TriedBucket(key, a) in buckets {
      var i := config.hashKey(key, a) % 8;
      assert buckets[i] == config.TriedBucket(key, a);
    }
  }

  // New addresses told by one group are spread over at most 64 buckets.
  lemma {:induction false} NewSpread(config: Config, key: nat, group: nat) returns (buckets: seq<nat>)
    requires config.Valid()
    ensures |buckets| == 64
    ensures forall a: Service, source: NetAddr :: config.group(source) == group ==>
      config.NewBucket(key, a, source) in buckets
  {
    buckets := seq(64, i requires 0 <= i < 64 => config.hashSource(key, group, i) % config.newBuckets);
    forall a: Service, source: NetAddr | config.group(source) == group
      ensures config.NewBucket(key, a, source) in buckets
    {
      var i := config.hashGroups(key, config.group(a.ip), group) % 64;
      assert buckets[i] == config.NewBucket(key, a, source);
    }
  }

  // Which of them depends on the groups of the address and of who told it, and on nothing else.
  lemma {:induction false} NewBucketByGroups(config: Config, key: nat, a: Service, b: Service, s: NetAddr, t: NetAddr)
    requires config.Valid() && config.group(a.ip) == config.group(b.ip) && config.group(s) == config.group(t)
    ensures config.NewBucket(key, a, s) == config.NewBucket(key, b, t)
  {
  }

  // No entry is in more than eight new buckets, and a tried one is in none.
  lemma {:induction false} AtMostEightBuckets(s: State, id: int)
    requires Sound(s) && id in s.mapInfo
    ensures |Slots(s.vvNew, id)| == s.mapInfo[id].nRefCount <= 8
    ensures s.mapInfo[id].fInTried ==> Slots(s.vvNew, id) == {}
  {
    hide Slots, AddrOk, RandomOk, NewTableOk, TriedTableOk;
    assert EntryOk(s, {}, id);
  }

  // Where an entry is within a bucket is hashed from its bucket, and in the two tables apart.
  lemma {:induction false} SlotsAreHashed(s: State, b: nat, p: nat)
    requires Sound(s)
    ensures b < |s.vvNew| && p < |s.vvNew[b]| && s.vvNew[b][p] != -1 ==>
      var id := s.vvNew[b][p];
      id in s.mapInfo && p == s.config.hashPosition(s.key, true, b, s.mapInfo[id].service) % s.config.bucketSize
    ensures b < |s.vvTried| && p < |s.vvTried[b]| && s.vvTried[b][p] != -1 ==>
      var id := s.vvTried[b][p];
      id in s.mapInfo && p == s.config.hashPosition(s.key, false, b, s.mapInfo[id].service) % s.config.bucketSize
  {
    hide AddrOk, RandomOk, EntriesOk, CountsOk;
  }

  // A known address gets another slot only on news, while it is new and in fewer than eight, and
  // then with one chance in two for every slot it has.
  lemma {:induction false} AnotherSlot(info: Info, addr: Address, pick: nat)
    requires 0 <= info.nRefCount <= 8
    ensures !NoMoreSlots(info, addr, pick) <==>
      && addr.nTime != 0 && (info.nTime == 0 || info.nTime < addr.nTime) && !info.fInTried && info.nRefCount < 8
      && pick % [1, 2, 4, 8, 16, 32, 64, 128][info.nRefCount] == 0
  {
    assert Power2(3) == 8;
    assert Power2(5) == 32;
    assert Power2(7) == 128;
  }

  // What was tried in the last minute stays. Anything else may go if it was never seen, or not for
  // thirty days, or ten minutes from now, or was tried three times and never reached, or ten
  // times and not for a week.
  lemma {:induction false} TerribleExactly(info: Info, now: int)
    ensures info.nLastTry != 0 && now - info.nLastTry <= 60 ==> !IsTerrible(info, now)
    ensures info.nLastTry == 0 || now - info.nLastTry > 60 ==>
      (IsTerrible(info, now) <==>
        || info.nTime == 0
        || now - info.nTime > 2_592_000
        || info.nTime - now > 600
        || (info.nLastSuccess == 0 && info.nAttempts >= 3)
        || (now - info.nLastSuccess > 604_800 && info.nAttempts >= 10))
  {
  }

  // A saved address book begins with the version, the size of the key, the key, the counts and the
  // number of buckets with bit 30 set.
  lemma {:induction false} SavedHeader(s: State)
    requires s.nIdCount >= 0 && s.config.newBuckets < 0x4000_0000
    ensures |Serialize(s)| >= 6
    ensures Serialize(s)[..6]
         == [Num(1), Num(32), Num(s.key), Num(s.nNew), Num(s.nTried), Num(s.config.newBuckets + 0x4000_0000)]
  {
    hide Ids, Entries, TableTokens;
    IdsKnown(s, false, s.nIdCount);
    IdsKnown(s, true, s.nIdCount);
    var rest := Entries(s, Ids(s, false, s.nIdCount)) + Entries(s, Ids(s, true, s.nIdCount)) + TableTokens(s, s.vvNew);
    assert Serialize(s) == Header(s) + rest;
  }

  // Of an entry, only when it was last tried and last counted as failing is lost on disk.
  lemma {:induction false} LostOnDisk(info: Info, nRefCount: int, fInTried: bool, nRandomPos: int)
    ensures FromDisk(ToDisk(info), nRefCount, fInTried, nRandomPos)
         == info.(nLastTry := 0, nLastCountAttempt := 0, nRefCount := nRefCount, fInTried := fInTried,
                  nRandomPos := nRandomPos)
  {
  }

  // Flipping bit 30 twice gives the number back.
  lemma {:induction false} FlippedTwice(n: nat)
    ensures Xor30(Xor30(n)) == n
  {
    var q, r := n / 0x4000_0000, n % 0x4000_0000;
    assert n == q * 0x4000_0000 + r;
  }
}
