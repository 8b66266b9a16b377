/** The address manager with the source's own in-place updates. Every method is
    proved to take the state to the value that its specification function gives,
    and every assertion of the source holds. */
module AddrMan {
  import opened Options
  import opened AddrManState
  import opened AddrManSteps
  import opened AddrManOps

  ghost function Rows(t: array2<int>): (r: Table)
    reads t
    ensures Shaped(r, t.Length0, t.Length1)
    ensures forall b, p :: 0 <= b < t.Length0 && 0 <= p < t.Length1 ==> r[b][p] == t[b, p]
  {
    seq(t.Length0, b requires 0 <= b < t.Length0 reads t =>
      seq(t.Length1, p requires 0 <= p < t.Length1 reads t => t[b, p]))
  }

  method SetSlot(t: array2<int>, b: nat, p: nat, id: int)
    requires b < t.Length0 && p < t.Length1
    modifies t
    ensures Rows(t) == Put(old(Rows(t)), b, p, id)
  {
    t[b, p] := id;
    ghost var was := old(Rows(t));
    forall k | 0 <= k < t.Length0 ensures Rows(t)[k] == Put(was, b, p, id)[k] {
      assert forall q :: 0 <= q < t.Length1 ==> Rows(t)[k][q] == Put(was, b, p, id)[k][q];
    }
  }

  method Wipe(t: array2<int>)
    modifies t
    ensures Rows(t) == seq(t.Length0, _ => seq(t.Length1, _ => EMPTY))
  {
    for b := 0 to t.Length0
      invariant forall k, q :: 0 <= k < b && 0 <= q < t.Length1 ==> t[k, q] == EMPTY
    {
      for p := 0 to t.Length1
        invariant forall k, q :: 0 <= k < b && 0 <= q < t.Length1 ==> t[k, q] == EMPTY
        invariant forall q :: 0 <= q < p ==> t[b, q] == EMPTY
      {
        t[b, p] := EMPTY;
      }
    }
    forall k | 0 <= k < t.Length0 ensures Rows(t)[k] == seq(t.Length1, _ => EMPTY) {
    }
  }

  // Emptying a bucket's one possible slot is one step of erasing the whole id.
  lemma {:induction false} EraseStep(t: Table, id: int, k: nat, p: nat)
    requires k < |t| && p < |t[k]| && id != EMPTY
    requires forall q :: 0 <= q < |t[k]| && t[k][q] == id ==> q == p
    ensures EraseUpTo(t, id, k)[k] == t[k]
    ensures t[k][p] == id ==> EraseUpTo(t, id, k + 1) == Put(EraseUpTo(t, id, k), k, p, EMPTY)
    ensures t[k][p] != id ==> EraseUpTo(t, id, k + 1) == EraseUpTo(t, id, k)
    ensures |Slots(EraseUpTo(t, id, k + 1), id)| == |Slots(EraseUpTo(t, id, k), id)| - (if t[k][p] == id then 1 else 0)
  {
    var before, after := EraseUpTo(t, id, k), EraseUpTo(t, id, k + 1);
    if t[k][p] == id {
      assert EraseRow(t[k], id) == t[k][p := EMPTY];
      assert after == Put(before, k, p, EMPTY);
      PutSlots(before, k, p, EMPTY, id);
    } else {
      assert EraseRow(t[k], id) == t[k];
      assert after == before;
    }
  }

  lemma {:induction false} EraseEnds(t: Table, id: int)
    requires id != EMPTY
    ensures EraseUpTo(t, id, 0) == t
    ensures Slots(EraseUpTo(t, id, |t|), id) == {}
  {
  }

  // The bucket index wraps around at most once.
  lemma {:induction false} WrapOnce(x: nat, n: nat)
    requires 0 < n && x < 2 * n
    ensures x % n == if x < n then x else x - n
  {
    var q := x / n;
    assert x == n * q + x % n;
    assert q >= 2 ==> n * q >= n * 2;
    assert q == 1 ==> n * q == n;
  }

  // What holds before and between the steps of MakeTried.
  lemma {:induction false} MakeTriedInSteps(s: State, id: int)
    requires Sound(s) && id in s.mapInfo && !s.mapInfo[id].fInTried
    ensures s.config.Valid() && id != EMPTY && AtOwnPositions(s, id) && s.mapInfo[id].nRefCount == |Slots(s.vvNew, id)|
    ensures var f := ForgetNew(s, id);
      var b, p := s.TriedBucket(s.mapInfo[id].service), s.TriedPosition(s.mapInfo[id].service);
      && Midway(f) && id in f.mapInfo && f.mapInfo[id].service == s.mapInfo[id].service
      && f.config == s.config && f.key == s.key && f.vvTried == s.vvTried && b < |f.vvTried| && p < |f.vvTried[b]|
      && var e := if f.vvTried[b][p] == EMPTY then f else Evict(f, b, p);
      && id in e.mapInfo && b < |e.vvTried| && p < |e.vvTried[b]| && e.vvTried[b][p] == EMPTY
      && MakeTried(s, id) == EnterTried(e, id, b, p)
  {
    hide RandomOk, EraseUpTo, Evict;
    assert EntryOk(s, {}, id);
    MadeRoom(s, id);
    InvIsMidway(ForgetNew(s, id), {id}, 0);
  }

  // The state with the slot cleared and given to an entry.
  ghost function Taken(s: State, id: int, b: nat, p: nat): State
    requires b < |s.vvNew| && p < |s.vvNew[b]| && RandomOk(s) && (s.vvNew[b][p] != EMPTY ==> s.vvNew[b][p] in s.mapInfo)
    requires id in s.mapInfo && s.vvNew[b][p] != id
  {
    ClearNewFrame(s, b, p);
    assert SameEntry(s, ClearNew(s, b, p), id);
    Acquire(ClearNew(s, b, p), id, b, p, 0)
  }

  class AddrMan {
    const config: Config
    var key: nat
    var nIdCount: int
    var mapInfo: map<int, Info>
    var mapAddr: map<Service, int>
    var vRandom: seq<int>
    var nTried: int
    const vvTried: array2<int>
    var nNew: int
    const vvNew: array2<int>
    var nLastGood: int

    ghost function Abs(): State
      reads this, vvTried, vvNew
    {
      State(config, key, nIdCount, mapInfo, mapAddr, vRandom, nTried, Rows(vvTried), nNew, Rows(vvNew), nLastGood)
    }

    // The two tables are distinct buffers of the configured sizes.
    ghost predicate Shape() {
      && config.Valid()
      && vvTried != vvNew
      && vvTried.Length0 == config.triedBuckets && vvTried.Length1 == config.bucketSize
      && vvNew.Length0 == config.newBuckets && vvNew.Length1 == config.bucketSize
    }

    ghost predicate Valid()
      reads this, vvTried, vvNew
    {
      Shape() && Sound(Abs())
    }

    constructor (config: Config, key: nat)
      requires config.Valid()
      ensures Valid() && fresh(vvTried) && fresh(vvNew)
      ensures this.config == config && Abs() == Empty(config, key)
    {
      this.config := config;
      vvTried := new int[config.triedBuckets, config.bucketSize];
      vvNew := new int[config.newBuckets, config.bucketSize];
      new;
      Clear(key);
    }

    method Clear(key: nat)
      requires Shape()
      modifies this, vvTried, vvNew
      ensures Valid() && Abs() == Empty(config, key)
    {
      vRandom := [];
      this.key := key;
      Wipe(vvNew);
      Wipe(vvTried);
      nIdCount := 0;
      nTried := 0;
      nNew := 0;
      nLastGood := 1;
      mapInfo := map[];
      mapAddr := map[];
      EmptyConsistent(config, key);
    }

    method Find(addr: Service) returns (id: Option<int>)
      ensures id == AddrManOps.Find(Abs(), addr)
    {
      var addr2 := if config.discriminatePorts then addr else addr.(port := 0);
      if addr2 !in mapAddr || mapAddr[addr2] !in mapInfo {
        return None;
      }
      return Some(mapAddr[addr2]);
    }

    method Create(addr: Address, source: NetAddr) returns (nId: int)
      modifies this
      ensures Abs() == AddrManSteps.Create(old(Abs()), addr, source) && nId == old(nIdCount)
    {
      var addr2 := if config.discriminatePorts then addr.service else addr.service.(port := 0);
      nId := nIdCount;
      nIdCount := nIdCount + 1;
      mapInfo := mapInfo[nId := Info(addr.service, addr.nServices, addr.nTime, source, 0, 0, 0, 0, 0, false, -1)];
      mapAddr := mapAddr[addr2 := nId];
      mapInfo := mapInfo[nId := mapInfo[nId].(nRandomPos := |vRandom|)];
      vRandom := vRandom + [nId];
    }

    method SwapRandom(nRndPos1: nat, nRndPos2: nat)
      requires RandomOk(Abs()) && nRndPos1 < |vRandom| && nRndPos2 < |vRandom|
      modifies this
      ensures Abs() == AddrManState.SwapRandom(old(Abs()), nRndPos1, nRndPos2)
    {
      if nRndPos1 == nRndPos2 {
        return;
      }
      var nId1 := vRandom[nRndPos1];
      var nId2 := vRandom[nRndPos2];
      assert nId1 in mapInfo;
      assert nId2 in mapInfo;
      mapInfo := mapInfo[nId1 := mapInfo[nId1].(nRandomPos := nRndPos2)];
      mapInfo := mapInfo[nId2 := mapInfo[nId2].(nRandomPos := nRndPos1)];
      vRandom := vRandom[nRndPos1 := nId2];
      vRandom := vRandom[nRndPos2 := nId1];
    }

    method Delete(nId: int)
      requires RandomOk(Abs()) && nId in mapInfo && !mapInfo[nId].fInTried && mapInfo[nId].nRefCount == 0
      modifies this
      ensures Abs() == AddrManState.Delete(old(Abs()), nId)
    {
      hide RandomOk, AddrManState.SwapRandom;
      var info := mapInfo[nId];
      var addr := if config.discriminatePorts then info.service else info.service.(port := 0);
      RandomPos(Abs(), nId);
      SwapRandomKeeps(Abs(), info.nRandomPos, |vRandom| - 1);
      SwapRandom(info.nRandomPos, |vRandom| - 1);
      vRandom := vRandom[..|vRandom| - 1];
      mapAddr := mapAddr - {addr};
      mapInfo := mapInfo - {nId};
      nNew := nNew - 1;
    }

    method ClearNew(nUBucket: nat, nUBucketPos: nat)
      requires Shape() && Midway(Abs()) && nUBucket < config.newBuckets && nUBucketPos < config.bucketSize
      modifies this, vvNew
      ensures Abs() == AddrManState.ClearNew(old(Abs()), nUBucket, nUBucketPos)
    {
      hide AddrOk, TriedTableOk, EntryOk, AddrManState.Delete;
      ghost var s := Abs();
      if vvNew[nUBucket, nUBucketPos] != EMPTY {
        var nIdDelete := vvNew[nUBucket, nUBucketPos];
        ghost var limbo, counted :| Inv(s, limbo, counted);
        ReleaseKeeps(s, nUBucket, nUBucketPos, limbo, counted);
        assert mapInfo[nIdDelete].nRefCount > 0;
        mapInfo := mapInfo[nIdDelete := mapInfo[nIdDelete].(nRefCount := mapInfo[nIdDelete].nRefCount - 1)];
        SetSlot(vvNew, nUBucket, nUBucketPos, EMPTY);
        assert Abs() == Release(s, nUBucket, nUBucketPos);
        if mapInfo[nIdDelete].nRefCount == 0 {
          Delete(nIdDelete);
        }
      }
    }
  
    // Remove an entry from one new bucket; t is the table before the first of them.
    method LeaveBucket(nId: int, bucket: nat, ghost t: Table)
      requires Shape() && bucket < config.newBuckets && Shaped(t, config.newBuckets, config.bucketSize)
      requires nId in mapInfo && nId != EMPTY
      requires forall q :: 0 <= q < |t[bucket]| && t[bucket][q] == nId ==>
        q == config.Position(key, true, bucket, mapInfo[nId].service)
      requires Rows(vvNew) == EraseUpTo(t, nId, bucket)
      requires mapInfo[nId].nRefCount == |Slots(EraseUpTo(t, nId, bucket), nId)|
      modifies this`mapInfo, vvNew
      ensures Rows(vvNew) == EraseUpTo(t, nId, bucket + 1)
      ensures mapInfo
           == old(mapInfo)[nId := old(mapInfo[nId]).(nRefCount := |Slots(EraseUpTo(t, nId, bucket + 1), nId)|)]
    {
      var pos := config.Position(key, true, bucket, mapInfo[nId].service);
      EraseStep(t, nId, bucket, pos);
      if vvNew[bucket, pos] == nId {
        SetSlot(vvNew, bucket, pos, EMPTY);
        mapInfo := mapInfo[nId := mapInfo[nId].(nRefCount := mapInfo[nId].nRefCount - 1)];
      }
    }

    // Remove an entry from every new bucket.
    method LeaveNew(nId: int)
      requires Shape() && nId in mapInfo && nId != EMPTY && AtOwnPositions(Abs(), nId)
      requires mapInfo[nId].nRefCount == |Slots(Rows(vvNew), nId)|
      modifies this`mapInfo, this`nNew, vvNew
      ensures Abs() == ForgetNew(old(Abs()), nId)
    {
      hide EraseUpTo, Slots;
      ghost var was, t := mapInfo, Rows(vvNew);
      EraseEnds(t, nId);
      for bucket := 0 to config.newBuckets
        invariant Rows(vvNew) == EraseUpTo(t, nId, bucket) && nNew == old(nNew)
        invariant mapInfo == was[nId := was[nId].(nRefCount := |Slots(EraseUpTo(t, nId, bucket), nId)|)]
      {
        LeaveBucket(nId, bucket, t);
      }
      nNew := nNew - 1;
      assert mapInfo[nId].nRefCount == 0;
    }
  
    // Take an entry out of its tried slot.
    method LeaveTriedSlot(nKBucket: nat, nKBucketPos: nat) returns (nIdEvict: int)
      requires Shape() && nKBucket < config.triedBuckets && nKBucketPos < config.bucketSize
      requires vvTried[nKBucket, nKBucketPos] in mapInfo
      modifies this`mapInfo, this`nTried, vvTried
      ensures nIdEvict == old(vvTried[nKBucket, nKBucketPos])
      ensures Abs() == LeaveTried(old(Abs()), nKBucket, nKBucketPos)
    {
      nIdEvict := vvTried[nKBucket, nKBucketPos];
      mapInfo := mapInfo[nIdEvict := mapInfo[nIdEvict].(fInTried := false)];
      SetSlot(vvTried, nKBucket, nKBucketPos, EMPTY);
      nTried := nTried - 1;
    }

    // Enter an entry into a new slot as its nRefCount-th reference.
    method EnterNewSlot(nId: int, nUBucket: nat, nUBucketPos: nat, nRefCount: int)
      requires Shape() && nUBucket < config.newBuckets && nUBucketPos < config.bucketSize
      requires nId in mapInfo && nRefCount == mapInfo[nId].nRefCount + 1
      modifies this`mapInfo, vvNew
      ensures Abs() == Acquire(old(Abs()), nId, nUBucket, nUBucketPos, 0)
    {
      mapInfo := mapInfo[nId := mapInfo[nId].(nRefCount := nRefCount)];
      SetSlot(vvNew, nUBucket, nUBucketPos, nId);
    }

    method EnterTriedSlot(nId: int, nKBucket: nat, nKBucketPos: nat)
      requires Shape() && nKBucket < config.triedBuckets && nKBucketPos < config.bucketSize && nId in mapInfo
      modifies this`mapInfo, this`nTried, vvTried
      ensures Abs() == EnterTried(old(Abs()), nId, nKBucket, nKBucketPos)
    {
      SetSlot(vvTried, nKBucket, nKBucketPos, nId);
      nTried := nTried + 1;
      mapInfo := mapInfo[nId := mapInfo[nId].(fInTried := true)];
    }

    // Enter an entry that is in no table into the new bucket of its own source.
    method Readmit(nId: int)
      requires Shape() && Midway(Abs()) && nId in mapInfo && mapInfo[nId].nRefCount == 0
      requires Abs().vvNew[NewBucketOf(Abs(), nId, mapInfo[nId].source)]
          [NewPositionOf(Abs(), nId, mapInfo[nId].source)] != nId
      modifies this, vvNew
      ensures Abs() == Place(old(Abs()), nId, old(mapInfo[nId]).source, 1)
    {
      hide RandomOk, TablesOk, AddrManState.ClearNew;
      MidwaySlot(Abs(), config.NewBucket(key, mapInfo[nId].service, mapInfo[nId].source),
                 config.Position(key, true, config.NewBucket(key, mapInfo[nId].service, mapInfo[nId].source),
                                 mapInfo[nId].service));
      var nUBucket := config.NewBucket(key, mapInfo[nId].service, mapInfo[nId].source);
      var nUBucketPos := config.Position(key, true, nUBucket, mapInfo[nId].service);
      ClearNewFrame(Abs(), nUBucket, nUBucketPos);
      assert SameEntry(Abs(), AddrManState.ClearNew(Abs(), nUBucket, nUBucketPos), nId);
      ClearNew(nUBucket, nUBucketPos);
      assert vvNew[nUBucket, nUBucketPos] == EMPTY;
      EnterNewSlot(nId, nUBucket, nUBucketPos, 1);
      nNew := nNew + 1;
    }

    // Move the holder of a tried slot back to the new table.
    method Evict(nKBucket: nat, nKBucketPos: nat)
      requires Shape() && Midway(Abs()) && nKBucket < config.triedBuckets && nKBucketPos < config.bucketSize
      requires vvTried[nKBucket, nKBucketPos] != EMPTY
      modifies this, vvTried, vvNew
      ensures Abs() == AddrManSteps.Evict(old(Abs()), nKBucket, nKBucketPos)
    {
      ghost var limbo, counted :| Inv(Abs(), limbo, counted);
      EvictPre(Abs(), nKBucket, nKBucketPos, limbo, counted);
      var nIdEvict := LeaveTriedSlot(nKBucket, nKBucketPos);
      Readmit(nIdEvict);
    }

    method MakeTried(nId: int)
      requires Valid() && nId in mapInfo && !mapInfo[nId].fInTried
      modifies this, vvTried, vvNew
      ensures Abs() == AddrManSteps.MakeTried(old(Abs()), nId)
    {
      hide Sound, Midway, ForgetNew, EnterTried, AddrManSteps.Evict, AddrManSteps.MakeTried, AtOwnPositions;
      MakeTriedInSteps(Abs(), nId);
      LeaveNew(nId);
      var nKBucket := config.TriedBucket(key, mapInfo[nId].service);
      var nKBucketPos := config.Position(key, false, nKBucket, mapInfo[nId].service);
      // first make space to add it
      if vvTried[nKBucket, nKBucketPos] != EMPTY {
        Evict(nKBucket, nKBucketPos);
      }
      assert vvTried[nKBucket, nKBucketPos] == EMPTY;
      EnterTriedSlot(nId, nKBucket, nKBucketPos);
    }

    // Look for a new bucket that holds the entry, from a random start. The source
    // allows for finding none, which cannot happen.
    method FindBucket(nId: int, nRnd: nat) returns (nUBucket: int)
      requires Shape() && nId in mapInfo && nRnd < config.newBuckets && InSomeBucket(Abs(), nId)
      ensures 0 <= nUBucket < config.newBuckets
      ensures vvNew[nUBucket, Abs().NewPosition(nUBucket, mapInfo[nId].service)] == nId
    {
      nUBucket := -1;
      for n := 0 to config.newBuckets
        invariant forall b ::
          0 <= b < config.newBuckets && (nRnd <= b < nRnd + n || b < nRnd + n - config.newBuckets) ==>
          vvNew[b, Abs().NewPosition(b, mapInfo[nId].service)] != nId
      {
        WrapOnce(n + nRnd, config.newBuckets);
        var nB := (n + nRnd) % config.newBuckets;
        var nBpos := config.Position(key, true, nB, mapInfo[nId].service);
        if vvNew[nB, nBpos] == nId {
          return nB;
        }
      }
    }

    method MoveToTried(nId: int, nRnd: nat)
      requires Valid() && nId in mapInfo && !mapInfo[nId].fInTried && nRnd < config.newBuckets
      modifies this, vvTried, vvNew
      ensures Abs() == AddrManSteps.MakeTried(old(Abs()), nId)
    {
      HasBucket(Abs(), nId);
      var nUBucket := FindBucket(nId, nRnd);
      if nUBucket == -1 {
        return;
      }
      MakeTried(nId);
    }

    method MarkGood(addr: Service, nTime: int) returns (nId: Option<int>)
      modifies this
      ensures Abs() == Marked(old(Abs()), addr, nTime) && nId == Untried(Abs(), addr)
    {
      nLastGood := nTime;
      var found := Find(addr);
      if found.None? || mapInfo[found.value].service != addr {
        return None;
      }
      var id := found.value;
      mapInfo := mapInfo[id := mapInfo[id].(nLastSuccess := nTime, nLastTry := nTime, nAttempts := 0)];
      return if mapInfo[id].fInTried then None else Some(id);
    }

    method Good_(addr: Service, nTime: int, nRnd: nat)
      requires Valid() && nRnd < config.newBuckets
      modifies this, vvTried, vvNew
      ensures Abs() == AddrManOps.Good(old(Abs()), addr, nTime)
    {
      MarkedKeeps(Abs(), addr, nTime);
      var nId := MarkGood(addr, nTime);
      if nId.Some? {
        MoveToTried(nId.value, nRnd);
      }
    }
  
    // Claim the slot for this source if its holder gives way.
    method TryPlace(nId: int, source: NetAddr, now: int)
      requires Shape() && Midway(Abs()) && nId in mapInfo && !mapInfo[nId].fInTried
      modifies this, vvNew
      ensures Abs() == AddrManOps.TryPlace(old(Abs()), nId, source, now)
    {
      var nUBucket := config.NewBucket(key, mapInfo[nId].service, source);
      var nUBucketPos := config.Position(key, true, nUBucket, mapInfo[nId].service);
      if vvNew[nUBucket, nUBucketPos] != nId {
        var fInsert := vvNew[nUBucket, nUBucketPos] == EMPTY;
        if !fInsert {
          var infoExisting := mapInfo[vvNew[nUBucket, nUBucketPos]];
          if IsTerrible(infoExisting, now) || (infoExisting.nRefCount > 1 && mapInfo[nId].nRefCount == 0) {
            fInsert := true;
          }
        }
        if fInsert {
          TakeSlot(nId, nUBucket, nUBucketPos);
        } else {
          if mapInfo[nId].nRefCount == 0 {
            Delete(nId);
          }
        }
      }
    }

    method TakeSlot(nId: int, nUBucket: nat, nUBucketPos: nat)
      requires Shape() && nUBucket < config.newBuckets && nUBucketPos < config.bucketSize
      requires RandomOk(Abs()) && (vvNew[nUBucket, nUBucketPos] != EMPTY ==> vvNew[nUBucket, nUBucketPos] in mapInfo)
      requires nId in mapInfo && vvNew[nUBucket, nUBucketPos] != nId && Midway(Abs())
      modifies this, vvNew
      ensures Abs() == Taken(old(Abs()), nId, nUBucket, nUBucketPos)
    {
      hide Midway, RandomOk, AddrManState.ClearNew;
      MidwaySlot(Abs(), nUBucket, nUBucketPos);
      ClearNewFrame(Abs(), nUBucket, nUBucketPos);
      assert SameEntry(Abs(), AddrManState.ClearNew(Abs(), nUBucket, nUBucketPos), nId);
      ClearNew(nUBucket, nUBucketPos);
      EnterNewSlot(nId, nUBucket, nUBucketPos, mapInfo[nId].nRefCount + 1);
    }

    // Refresh a known entry; says whether it may get another slot.
    method Refresh(nId: int, addr: Address, nTimePenalty: int, now: int, pick: nat) returns (more: bool)
      requires nId in mapInfo && 0 <= mapInfo[nId].nRefCount
      modifies this`mapInfo
      ensures Abs() == Touch(old(Abs()), nId, Refreshed(old(mapInfo[nId]), addr, nTimePenalty, now))
      ensures more == !NoMoreSlots(mapInfo[nId], addr, pick)
    {
      var fCurrentlyOnline := now - addr.nTime < 24 * 60 * 60;
      var nUpdateInterval := if fCurrentlyOnline then 60 * 60 else 24 * 60 * 60;
      var info := mapInfo[nId];
      if addr.nTime != 0 && (info.nTime == 0 || info.nTime < addr.nTime - nUpdateInterval - nTimePenalty) {
        info := info.(nTime := Max(0, addr.nTime - nTimePenalty));
      }
      info := info.(nServices := info.nServices + addr.nServices);
      mapInfo := mapInfo[nId := info];
      if addr.nTime == 0 || (info.nTime != 0 && addr.nTime <= info.nTime) {
        return false;
      }
      if info.fInTried {
        return false;
      }
      if info.nRefCount == NEW_BUCKETS_PER_ADDRESS {
        return false;
      }
      var nFactor := 1;
      for n := 0 to info.nRefCount
        invariant nFactor == Power2(n)
      {
        nFactor := nFactor * 2;
      }
      return !(nFactor > 1 && pick % nFactor != 0);
    }

    method Add_(addr: Address, source: NetAddr, nTimePenalty: int, now: int, pick: nat) returns (fNew: bool)
      requires Valid()
      modifies this, vvNew
      ensures (Abs(), fNew) == AddrManOps.Add(old(Abs()), addr, source, nTimePenalty, now, pick)
    {
      if !config.routable(addr.service.ip) {
        return false;
      }
      var found := Find(addr.service);
      var penalty := if addr.service.ip == source then 0 else nTimePenalty;
      if found.Some? {
        fNew := false;
        AddToKnown(found.value, addr, source, penalty, now, pick);
      } else {
        fNew := true;
        AddFresh(addr, source, penalty, now);
      }
    }

    method AddToKnown(nId: int, addr: Address, source: NetAddr, penalty: int, now: int, pick: nat)
      requires Valid() && nId in mapInfo
      modifies this, vvNew
      ensures Midway(Touch(old(Abs()), nId, Refreshed(old(mapInfo[nId]), addr, penalty, now)))
      ensures var r := Touch(old(Abs()), nId, Refreshed(old(mapInfo[nId]), addr, penalty, now));
        Abs() == if NoMoreSlots(r.mapInfo[nId], addr, pick) then r else AddrManOps.TryPlace(r, nId, source, now)
    {
      assert EntryOk(Abs(), {}, nId);
      RefreshKeeps(Abs(), nId, addr, penalty, now);
      var more := Refresh(nId, addr, penalty, now, pick);
      if more {
        TryPlace(nId, source, now);
      }
    }

    method AddFresh(addr: Address, source: NetAddr, penalty: int, now: int)
      requires Valid() && config.Squash(addr.service) !in mapAddr
      modifies this, vvNew
      ensures Midway(CreateCounted(old(Abs()), addr, source, penalty))
      ensures Abs() == AddrManOps.TryPlace(CreateCounted(old(Abs()), addr, source, penalty), old(nIdCount), source, now)
    {
      CreateCountedKeeps(Abs(), addr, source, penalty);
      var nId := CreateAndCount(addr, source, penalty);
      TryPlace(nId, source, now);
    }

    method CreateAndCount(addr: Address, source: NetAddr, penalty: int) returns (nId: int)
      modifies this
      ensures Abs() == CreateCounted(old(Abs()), addr, source, penalty) && nId == old(nIdCount)
    {
      nId := Create(addr, source);
      mapInfo := mapInfo[nId := mapInfo[nId].(nTime := Max(0, mapInfo[nId].nTime - penalty))];
      nNew := nNew + 1;
    }

    method Attempt_(addr: Service, fCountFailure: bool, nTime: int)
      modifies this`mapInfo
      ensures Abs() == AddrManOps.Attempt(old(Abs()), addr, fCountFailure, nTime)
    {
      var found := Find(addr);
      if found.None? || mapInfo[found.value].service != addr {
        return;
      }
      var info := mapInfo[found.value].(nLastTry := nTime);
      if fCountFailure && info.nLastCountAttempt < nLastGood {
        info := info.(nLastCountAttempt := nTime, nAttempts := info.nAttempts + 1);
      }
      mapInfo := mapInfo[found.value := info];
    }

    method Connected_(addr: Service, nTime: int)
      modifies this`mapInfo
      ensures Abs() == AddrManOps.Connected(old(Abs()), addr, nTime)
    {
      var found := Find(addr);
      if found.None? || mapInfo[found.value].service != addr {
        return;
      }
      var info := mapInfo[found.value];
      if nTime - info.nTime > 20 * 60 {
        mapInfo := mapInfo[found.value := info.(nTime := nTime)];
      }
    }

    method SetServices_(addr: Service, nServices: set<nat>)
      modifies this`mapInfo
      ensures Abs() == AddrManOps.SetServices(old(Abs()), addr, nServices)
    {
      var found := Find(addr);
      if found.None? || mapInfo[found.value].service != addr {
        return;
      }
      mapInfo := mapInfo[found.value := mapInfo[found.value].(nServices := nServices)];
    }

    // A swap beyond position n leaves what is picked from before n alone.
    method SwapLater(n: nat, nRndPos: nat, ghost now: int)
      requires RandomOk(Abs()) && n <= nRndPos < |vRandom|
      modifies this
      ensures RandomOk(Abs()) && SameButOrder(old(Abs()), Abs()) && |vRandom| == old(|vRandom|)
      ensures GoodAddresses(Abs(), n, now) == GoodAddresses(old(Abs()), n, now)
    {
      ghost var s := Abs();
      SwapRandomKeeps(s, n, nRndPos);
      SwapRandom(n, nRndPos);
      SameGoodAddresses(s, Abs(), n, now);
    }

    // Pick random addresses, at most 23% of them and at most 2500: after the swaps,
    // the result lists the good ones among the first n of vRandom, and n only stops
    // short of all when the result is full.
    method GetAddr_(now: int) returns (vAddr: seq<Address>, n: nat)
      requires RandomOk(Abs())
      modifies this
      ensures RandomOk(Abs()) && SameButOrder(old(Abs()), Abs())
      ensures n <= |vRandom| && vAddr == GoodAddresses(Abs(), n, now)
      ensures |vAddr| <= MaxAddresses(|vRandom|) <= 2_500 && 100 * |vAddr| <= 23 * |vRandom|
      ensures n < |vRandom| ==> |vAddr| == MaxAddresses(|vRandom|)
      ensures n < |vRandom| ==> |vAddr| == 2_500 || 100 * (|vAddr| + 1) > 23 * |vRandom|
    {
      hide RandomOk, SameButOrder, GoodAddresses;
      SameOrder(Abs());
      NoneYet(Abs(), now);
      var nNodes := GETADDR_MAX_PCT * |vRandom| / 100;
      if nNodes > GETADDR_MAX {
        nNodes := GETADDR_MAX;
      }
      vAddr := [];
      n := 0;
      var size := |vRandom|;
      while n < size
        invariant 0 <= n <= size == |vRandom|
        invariant RandomOk(Abs()) && SameButOrder(old(Abs()), Abs())
        invariant vAddr == GoodAddresses(Abs(), n, now) && |vAddr| <= nNodes
      {
        if |vAddr| >= nNodes {
          break;
        }
        var nRndPos :| n <= nRndPos < |vRandom|;
        ghost var m := Abs();
        SwapLater(n, nRndPos, now);
        SameButOrderAgain(old(Abs()), m, Abs());
        OneMoreAddress(Abs(), n, now);
        var ai := mapInfo[vRandom[n]];
        if !IsTerrible(ai, now) {
          vAddr := vAddr + [Address(ai.service, ai.nServices, ai.nTime)];
        }
        n := n + 1;
      }
    }

    /* ---- the public operations, each with the consistency check around it ---- */

    method Add(addr: Address, source: NetAddr, nTimePenalty: int, now: int, pick: nat) returns (fNew: bool)
      requires Valid()
      modifies this, vvNew
      ensures Valid() && (Abs(), fNew) == AddrManOps.Add(old(Abs()), addr, source, nTimePenalty, now, pick)
      ensures old(Consistent(Abs())) ==> Consistent(Abs())
    {
      if Consistent(Abs()) { AddKeeps(Abs(), addr, source, nTimePenalty, now, pick); }
      AddSound(Abs(), addr, source, nTimePenalty, now, pick);
      fNew := Add_(addr, source, nTimePenalty, now, pick);
    }

    method Good(addr: Service, nTime: int, nRnd: nat)
      requires Valid() && nRnd < config.newBuckets
      modifies this, vvTried, vvNew
      ensures Valid() && Abs() == AddrManOps.Good(old(Abs()), addr, nTime)
      ensures old(Consistent(Abs())) ==> (Consistent(Abs()) <==> nTime > 0 || old(FindExact(Abs(), addr)).None?)
    {
      if Consistent(Abs()) { GoodKeeps(Abs(), addr, nTime); }
      GoodSound(Abs(), addr, nTime);
      Good_(addr, nTime, nRnd);
    }

    method Attempt(addr: Service, fCountFailure: bool, nTime: int)
      requires Valid()
      modifies this
      ensures Valid() && Abs() == AddrManOps.Attempt(old(Abs()), addr, fCountFailure, nTime)
      ensures old(Consistent(Abs())) ==> (Consistent(Abs()) <==> nTime >= 0 || old(FindExact(Abs(), addr)).None?)
    {
      if Consistent(Abs()) { AttemptKeeps(Abs(), addr, fCountFailure, nTime); }
      AttemptSound(Abs(), addr, fCountFailure, nTime);
      Attempt_(addr, fCountFailure, nTime);
    }

    method Connected(addr: Service, nTime: int)
      requires Valid()
      modifies this
      ensures Valid() && Abs() == AddrManOps.Connected(old(Abs()), addr, nTime)
      ensures old(Consistent(Abs())) ==> Consistent(Abs())
    {
      if Consistent(Abs()) { ConnectedKeeps(Abs(), addr, nTime); }
      ConnectedSound(Abs(), addr, nTime);
      Connected_(addr, nTime);
    }

    method SetServices(addr: Service, nServices: set<nat>)
      requires Valid()
      modifies this
      ensures Valid() && Abs() == AddrManOps.SetServices(old(Abs()), addr, nServices)
      ensures old(Consistent(Abs())) ==> Consistent(Abs())
    {
      if Consistent(Abs()) { SetServicesKeeps(Abs(), addr, nServices); }
      SetServicesSound(Abs(), addr, nServices);
      SetServices_(addr, nServices);
    }

    method GetAddr(now: int) returns (vAddr: seq<Address>, n: nat)
      requires Valid()
      modifies this
      ensures Valid() && SameButOrder(old(Abs()), Abs())
      ensures n <= |vRandom| && vAddr == GoodAddresses(Abs(), n, now)
      ensures old(Consistent(Abs())) ==> Consistent(Abs())
    {
      vAddr, n := GetAddr_(now);
      SameButOrderConsistent(old(Abs()), Abs());
    }
  }

  function MaxAddresses(size: nat): nat {
    if GETADDR_MAX_PCT * size / 100 > GETADDR_MAX then GETADDR_MAX else GETADDR_MAX_PCT * size / 100
  }

  // The addresses worth handing out among the first n of vRandom.
  ghost function GoodAddresses(s: State, n: nat, now: int): seq<Address>
    requires RandomOk(s) && n <= |s.vRandom|
  {
    if n == 0 then []
    else
      var ai := s.mapInfo[s.vRandom[n - 1]];
      GoodAddresses(s, n - 1, now) + if IsTerrible(ai, now) then [] else [Address(ai.service, ai.nServices, ai.nTime)]
  }

  lemma {:induction false} NoneYet(s: State, now: int)
    requires RandomOk(s)
    ensures GoodAddresses(s, 0, now) == []
  {
  }

  lemma {:induction false} OneMoreAddress(s: State, n: nat, now: int)
    requires RandomOk(s) && n < |s.vRandom|
    ensures s.vRandom[n] in s.mapInfo
    ensures var ai := s.mapInfo[s.vRandom[n]];
      GoodAddresses(s, n + 1, now)
        == GoodAddresses(s, n, now) + if IsTerrible(ai, now) then [] else [Address(ai.service, ai.nServices, ai.nTime)]
  {
  }

  lemma {:induction false} SameGoodAddresses(s: State, r: State, n: nat, now: int)
    requires RandomOk(s) && RandomOk(r) && n <= |s.vRandom| && n <= |r.vRandom|
    requires SameButOrder(s, r) && s.vRandom[..n] == r.vRandom[..n]
    ensures GoodAddresses(s, n, now) == GoodAddresses(r, n, now)
  {
    hide RandomOk, GoodAddresses;
    NoneYet(s, now);
    NoneYet(r, now);
    if n > 0 {
      assert s.vRandom[..n - 1] == s.vRandom[..n][..n - 1];
      assert r.vRandom[..n - 1] == r.vRandom[..n][..n - 1];
      assert s.vRandom[n - 1] == s.vRandom[..n][n - 1] == r.vRandom[n - 1];
      OneMoreAddress(s, n - 1, now);
      OneMoreAddress(r, n - 1, now);
      SameGoodAddresses(s, r, n - 1, now);
    }
  }

  ghost predicate InSomeBucket(s: State, id: int)
    requires id in s.mapInfo && s.config.Valid() && Shaped(s.vvNew, s.config.newBuckets, s.config.bucketSize)
  {
    exists b :: 0 <= b < |s.vvNew| && s.vvNew[b][s.NewPosition(b, s.mapInfo[id].service)] == id
  }

  // An entry of the new table is in some bucket, at its own position.
  lemma {:induction false} HasBucket(s: State, id: int)
    requires Sound(s) && id in s.mapInfo && !s.mapInfo[id].fInTried
    ensures InSomeBucket(s, id)
  {
    assert EntryOk(s, {}, id);
    var slot :| slot in Slots(s.vvNew, id);
    assert s.vvNew[slot.0][slot.1] == id;
  }

  ghost predicate AtOwnPositions(s: State, id: int)
    requires id in s.mapInfo && s.config.Valid()
  {
    forall b, q :: 0 <= b < |s.vvNew| && 0 <= q < |s.vvNew[b]| && s.vvNew[b][q] == id ==>
      q == s.NewPosition(b, s.mapInfo[id].service)
  }
}
