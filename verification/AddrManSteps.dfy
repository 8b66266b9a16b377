/** The address manager's operations as functions from state to state, and the
    proofs that each of them, and so every run, keeps the invariant. */
module AddrManSteps {
  import opened AddrManState

  /* ---- creating an entry ---- */

  function Create(s: State, addr: Address, source: NetAddr): State {
    var id := s.nIdCount;
    var info := Info(addr.service, addr.nServices, addr.nTime, source, 0, 0, 0, 0, 0, false, |s.vRandom|);
    s.(nIdCount := id + 1,
       mapInfo := s.mapInfo[id := info],
       mapAddr := s.mapAddr[s.config.Squash(addr.service) := id],
       vRandom := s.vRandom + [id])
  }

  lemma {:induction false} CreateRandomOk(s: State, addr: Address, source: NetAddr)
    requires RandomOk(s) && s.nIdCount !in s.mapInfo
    ensures RandomOk(Create(s, addr, source))
  {
    hide RandomOk;
    var r := Create(s, addr, source);
    AppendRandom(s, r, s.nIdCount, r.mapInfo[s.nIdCount]);
  }

  lemma {:induction false} CreateAddrOk(s: State, addr: Address, source: NetAddr)
    requires AddrOk(s) && s.nIdCount >= 0 && s.config.Squash(addr.service) !in s.mapAddr
    ensures AddrOk(Create(s, addr, source))
  {
  }

  lemma {:induction false} CreateEntries(s: State, addr: Address, source: NetAddr, limbo: set<int>)
    requires s.config.Valid() && NewTableOk(s) && s.nIdCount !in s.mapInfo && s.nIdCount >= 0 && EntriesOk(s, limbo)
    ensures EntriesOk(Create(s, addr, source), limbo + {s.nIdCount})
  {
    var r := Create(s, addr, source);
    assert Slots(s.vvNew, s.nIdCount) == {};
    forall k | k in r.mapInfo ensures EntryOk(r, limbo + {s.nIdCount}, k) {
      assert k != s.nIdCount ==> EntryOk(s, limbo, k);
    }
  }

  lemma {:induction false} CreateTables(s: State, addr: Address, source: NetAddr)
    requires s.config.Valid() && NewTableOk(s) && TriedTableOk(s) && s.nIdCount !in s.mapInfo
    ensures NewTableOk(Create(s, addr, source)) && TriedTableOk(Create(s, addr, source))
  {
  }

  lemma {:induction false} CreateCounts(s: State, addr: Address, source: NetAddr, limbo: set<int>, counted: int)
    requires s.nIdCount !in s.mapInfo && CountsOk(s, limbo, counted)
    ensures CountsOk(Create(s, addr, source), limbo + {s.nIdCount}, counted)
  {
    var r := Create(s, addr, source);
    forall k
      ensures k in Tried(r) <==> k in Tried(s)
      ensures k in New(r) <==> k in New(s) + {s.nIdCount}
    {
    }
    assert Tried(r) == Tried(s);
    assert New(r) - (limbo + {s.nIdCount}) == New(s) - limbo;
  }

  lemma {:induction false} FreshId(s: State)
    requires AddrOk(s)
    ensures s.nIdCount !in s.mapInfo
  {
  }

  lemma {:induction false} CreateFields(s: State, addr: Address, source: NetAddr)
    ensures var r := Create(s, addr, source);
      && r.config == s.config && r.nIdCount == s.nIdCount + 1 && r.nTried == s.nTried && r.nNew == s.nNew
      && r.mapInfo.Keys == s.mapInfo.Keys + {s.nIdCount}
  {
  }

  lemma {:induction false} CreateKeeps(s: State, addr: Address, source: NetAddr, limbo: set<int>, counted: int)
    requires Inv(s, limbo, counted) && s.config.Squash(addr.service) !in s.mapAddr
    ensures Inv(Create(s, addr, source), limbo + {s.nIdCount}, counted)
  {
    hide RandomOk, AddrOk, NewTableOk, TriedTableOk, EntriesOk, CountsOk, Create;
    FreshId(s);
    CreateFields(s, addr, source);
    CreateRandomOk(s, addr, source);
    CreateAddrOk(s, addr, source);
    CreateEntries(s, addr, source, limbo);
    CreateTables(s, addr, source);
    CreateCounts(s, addr, source, limbo, counted);
  }

  /* ---- between the new and the tried table ---- */

  function EraseRow(row: seq<int>, id: int): (r: seq<int>)
    ensures |r| == |row|
  {
    seq(|row|, p requires 0 <= p < |row| => if row[p] == id then EMPTY else row[p])
  }

  // The first k buckets without id.
  function EraseUpTo(t: Table, id: int, k: nat): (r: Table)
    ensures |r| == |t| && forall b :: 0 <= b < |t| ==> |r[b]| == |t[b]|
  {
    seq(|t|, b requires 0 <= b < |t| => if b < k then EraseRow(t[b], id) else t[b])
  }

  function ForgetNew(s: State, id: int): State
    requires id in s.mapInfo
  {
    s.(mapInfo := s.mapInfo[id := s.mapInfo[id].(nRefCount := 0)],
       vvNew := EraseUpTo(s.vvNew, id, |s.vvNew|), nNew := s.nNew - 1)
  }

  lemma {:induction false} ForgetNewEntries(s: State, id: int, limbo: set<int>)
    requires s.config.Valid() && EMPTY !in s.mapInfo && id in s.mapInfo && !s.mapInfo[id].fInTried
    requires EntriesOk(s, limbo)
    ensures EntriesOk(ForgetNew(s, id), limbo + {id})
  {
    var r := ForgetNew(s, id);
    forall k | k in s.mapInfo ensures EntryOk(r, limbo + {id}, k) {
      assert EntryOk(s, limbo, k);
      ForgetSlots(s, id, k);
    }
  }

  lemma {:induction false} ForgetSlots(s: State, id: int, k: int)
    requires id in s.mapInfo && id != EMPTY && k != EMPTY
    ensures Slots(ForgetNew(s, id).vvNew, k) == if k == id then {} else Slots(s.vvNew, k)
  {
  }

  lemma {:induction false} ForgetNewCounts(s: State, id: int, limbo: set<int>, counted: int)
    requires id in s.mapInfo && !s.mapInfo[id].fInTried && id !in limbo && CountsOk(s, limbo, counted)
    ensures CountsOk(ForgetNew(s, id), limbo + {id}, counted)
  {
    hide EraseUpTo;
    var r := ForgetNew(s, id);
    UpdatedFlags(s, r, id, r.mapInfo[id]);
    assert New(s) - limbo == New(r) - (limbo + {id}) + {id};
  }

  lemma {:induction false} ForgetNewTables(s: State, id: int)
    requires s.config.Valid() && NewTableOk(s) && TriedTableOk(s) && id in s.mapInfo && !s.mapInfo[id].fInTried
    ensures NewTableOk(ForgetNew(s, id)) && TriedTableOk(ForgetNew(s, id))
  {
  }

  lemma {:induction false} ForgetNewKeeps(s: State, id: int, limbo: set<int>, counted: int)
    requires Inv(s, limbo, counted) && id in s.mapInfo && !s.mapInfo[id].fInTried && id !in limbo
    ensures Inv(ForgetNew(s, id), limbo + {id}, counted)
  {
    hide RandomOk, AddrOk, NewTableOk, TriedTableOk, EntriesOk, CountsOk, EraseUpTo;
    var r := ForgetNew(s, id);
    NoEmptyId(s);
    UpdatedIndexes(s, r, id, r.mapInfo[id]);
    ForgetNewEntries(s, id, limbo);
    ForgetNewTables(s, id);
    ForgetNewCounts(s, id, limbo, counted);
  }

  // Take the entry at a filled slot out of the tried table.
  function LeaveTried(s: State, b: nat, p: nat): State
    requires b < |s.vvTried| && p < |s.vvTried[b]| && s.vvTried[b][p] in s.mapInfo
  {
    var id := s.vvTried[b][p];
    s.(mapInfo := s.mapInfo[id := s.mapInfo[id].(fInTried := false)],
       vvTried := Put(s.vvTried, b, p, EMPTY), nTried := s.nTried - 1)
  }

  lemma {:induction false} LeaveTriedEntries(s: State, b: nat, p: nat, limbo: set<int>)
    requires s.config.Valid() && TriedTableOk(s) && b < |s.vvTried| && p < |s.vvTried[b]|
    requires s.vvTried[b][p] in s.mapInfo && s.mapInfo[s.vvTried[b][p]].fInTried && s.vvTried[b][p] != EMPTY
    requires EntriesOk(s, limbo)
    ensures EntriesOk(LeaveTried(s, b, p), limbo + {s.vvTried[b][p]})
  {
    hide Slots;
    var r := LeaveTried(s, b, p);
    forall k | k in s.mapInfo ensures EntryOk(r, limbo + {s.vvTried[b][p]}, k) {
      assert EntryOk(s, limbo, k);
      assert EntryOk(s, limbo, s.vvTried[b][p]);
    }
  }

  lemma {:induction false} LeaveTriedTables(s: State, b: nat, p: nat, limbo: set<int>)
    requires s.config.Valid() && NewTableOk(s) && TriedTableOk(s)
    requires b < |s.vvTried| && p < |s.vvTried[b]| && s.vvTried[b][p] != EMPTY
    requires s.vvTried[b][p] in s.mapInfo && EntriesOk(s, limbo)
    ensures NewTableOk(LeaveTried(s, b, p)) && TriedTableOk(LeaveTried(s, b, p))
  {
    assert EntryOk(s, limbo, s.vvTried[b][p]);
  }

  lemma {:induction false} TriedHasEntry(s: State, b: nat, p: nat, limbo: set<int>)
    requires s.config.Valid() && TriedTableOk(s) && b < |s.vvTried| && p < |s.vvTried[b]| && s.vvTried[b][p] != EMPTY
    requires EntriesOk(s, limbo)
    ensures var id := s.vvTried[b][p]; id in s.mapInfo && s.mapInfo[id].fInTried && id !in limbo
  {
    assert EntryOk(s, limbo, s.vvTried[b][p]);
  }

  lemma {:induction false} LeaveTriedKeeps(s: State, b: nat, p: nat, limbo: set<int>, counted: int)
    requires Inv(s, limbo, counted) && b < |s.vvTried| && p < |s.vvTried[b]| && s.vvTried[b][p] != EMPTY
    ensures s.vvTried[b][p] !in limbo && Inv(LeaveTried(s, b, p), limbo + {s.vvTried[b][p]}, counted)
  {
    hide RandomOk, AddrOk, NewTableOk, TriedTableOk, EntriesOk, CountsOk;
    TriedHasEntry(s, b, p, limbo);
    var r, id := LeaveTried(s, b, p), s.vvTried[b][p];
    UpdatedIndexes(s, r, id, r.mapInfo[id]);
    LeaveTriedEntries(s, b, p, limbo);
    LeaveTriedTables(s, b, p, limbo);
    LeaveTriedCounts(s, b, p, limbo, counted);
  }

  lemma {:induction false} LeaveTriedCounts(s: State, b: nat, p: nat, limbo: set<int>, counted: int)
    requires b < |s.vvTried| && p < |s.vvTried[b]| && s.vvTried[b][p] in s.mapInfo
    requires s.mapInfo[s.vvTried[b][p]].fInTried && CountsOk(s, limbo, counted)
    ensures CountsOk(LeaveTried(s, b, p), limbo + {s.vvTried[b][p]}, counted)
  {
    var r, id := LeaveTried(s, b, p), s.vvTried[b][p];
    assert id in Tried(s);
    assert Tried(r) == Tried(s) - {id};
    assert New(r) - (limbo + {id}) == New(s) - limbo;
  }

  function EnterTried(s: State, id: int, b: nat, p: nat): State
    requires b < |s.vvTried| && p < |s.vvTried[b]| && id in s.mapInfo
  {
    s.(mapInfo := s.mapInfo[id := s.mapInfo[id].(fInTried := true)],
       vvTried := Put(s.vvTried, b, p, id), nTried := s.nTried + 1)
  }

  lemma {:induction false} EnterTriedEntries(s: State, id: int, b: nat, p: nat, limbo: set<int>)
    requires s.config.Valid() && TriedTableOk(s) && EMPTY !in s.mapInfo
    requires id in limbo && id in s.mapInfo && !s.mapInfo[id].fInTried
    requires b == s.TriedBucket(s.mapInfo[id].service) && p == s.TriedPosition(s.mapInfo[id].service)
    requires s.vvTried[b][p] == EMPTY && EntriesOk(s, limbo)
    ensures EntriesOk(EnterTried(s, id, b, p), limbo - {id})
  {
    hide Slots;
    var r := EnterTried(s, id, b, p);
    forall k | k in s.mapInfo ensures EntryOk(r, limbo - {id}, k) { assert EntryOk(s, limbo, k); }
  }

  lemma {:induction false} EnterTriedTables(s: State, id: int, b: nat, p: nat)
    requires s.config.Valid() && NewTableOk(s) && TriedTableOk(s)
    requires id in s.mapInfo && !s.mapInfo[id].fInTried && |Slots(s.vvNew, id)| == 0
    requires b == s.TriedBucket(s.mapInfo[id].service) && p == s.TriedPosition(s.mapInfo[id].service)
    ensures NewTableOk(EnterTried(s, id, b, p)) && TriedTableOk(EnterTried(s, id, b, p))
  {
    NoSlot(s.vvNew, id);
  }

  lemma {:induction false} EnterTriedKeeps(s: State, id: int, b: nat, p: nat, limbo: set<int>, counted: int)
    requires Inv(s, limbo, counted) && id in limbo && !s.mapInfo[id].fInTried
    requires b == s.TriedBucket(s.mapInfo[id].service) && p == s.TriedPosition(s.mapInfo[id].service)
    requires s.vvTried[b][p] == EMPTY
    ensures Inv(EnterTried(s, id, b, p), limbo - {id}, counted)
  {
    hide RandomOk, AddrOk, NewTableOk, TriedTableOk, EntriesOk, CountsOk, Slots;
    TriedShape(s);
    NoEmptyId(s);
    var r := EnterTried(s, id, b, p);
    LimboHasNoSlot(s, id, limbo);
    UpdatedIndexes(s, r, id, r.mapInfo[id]);
    EnterTriedEntries(s, id, b, p, limbo);
    EnterTriedTables(s, id, b, p);
    EnterTriedCounts(s, id, b, p, limbo, counted);
  }

  lemma {:induction false} TriedShape(s: State)
    requires s.config.Valid() && TriedTableOk(s)
    ensures Shaped(s.vvTried, s.config.triedBuckets, s.config.bucketSize)
  {
  }

  lemma {:induction false} EnterTriedCounts(s: State, id: int, b: nat, p: nat, limbo: set<int>, counted: int)
    requires b < |s.vvTried| && p < |s.vvTried[b]| && id in s.mapInfo && id in limbo && !s.mapInfo[id].fInTried
    requires CountsOk(s, limbo, counted)
    ensures CountsOk(EnterTried(s, id, b, p), limbo - {id}, counted)
  {
    var r := EnterTried(s, id, b, p);
    assert id !in Tried(s);
    assert Tried(r) == Tried(s) + {id};
    assert New(r) - (limbo - {id}) == New(s) - limbo;
  }

  lemma {:induction false} LimboNotHeld(s: State, b: nat, p: nat, limbo: set<int>, counted: int, id: int)
    requires Inv(s, limbo, counted) && b < |s.vvNew| && p < |s.vvNew[b]|
    requires id in limbo && !s.mapInfo[id].fInTried
    ensures s.vvNew[b][p] != id
  {
    assert EntryOk(s, limbo, id);
    NoSlot(s.vvNew, id);
  }

  // The slot of the new table that an address has for a given source.
  function NewBucketOf(s: State, id: int, source: NetAddr): (b: nat)
    requires s.config.Valid() && id in s.mapInfo
    ensures b < s.config.newBuckets
  {
    s.config.NewBucket(s.key, s.mapInfo[id].service, source)
  }

  function NewPositionOf(s: State, id: int, source: NetAddr): (p: nat)
    requires s.config.Valid() && id in s.mapInfo
    ensures p < s.config.bucketSize
  {
    s.NewPosition(NewBucketOf(s, id, source), s.mapInfo[id].service)
  }

  // Enter an entry into that slot, whatever is there, changing nNew by d.
  function Place(s: State, id: int, source: NetAddr, d: int): State
    requires Midway(s) && id in s.mapInfo
    requires s.vvNew[NewBucketOf(s, id, source)][NewPositionOf(s, id, source)] != id
  {
    var b, p := NewBucketOf(s, id, source), NewPositionOf(s, id, source);
    ClearNewFrame(s, b, p);
    Acquire(ClearNew(s, b, p), id, b, p, d)
  }

  lemma {:induction false} PlaceKeeps(s: State, id: int, source: NetAddr, d: int, limbo: set<int>, counted: int)
    requires Inv(s, limbo, counted) && id in s.mapInfo && !s.mapInfo[id].fInTried
    requires s.mapInfo[id].nRefCount < NEW_BUCKETS_PER_ADDRESS
    requires s.vvNew[NewBucketOf(s, id, source)][NewPositionOf(s, id, source)] != id
    ensures Inv(Place(s, id, source, d), limbo - {id}, counted + d - (if id in limbo then 1 else 0))
  {
    hide RandomOk, AddrOk, NewTableOk, TriedTableOk, EntriesOk, CountsOk, ClearNew;
    InvIsMidway(s, limbo, counted);
    MidwayShape(s);
    var b, p := NewBucketOf(s, id, source), NewPositionOf(s, id, source);
    MidwaySlot(s, b, p);
    ClearNewFrame(s, b, p);
    ClearNewKeeps(s, b, p, limbo, counted);
    AcquireKeeps(ClearNew(s, b, p), id, b, p, d, limbo, counted);
  }

  // Placing an entry changes it, one slot, and the entry displaced from that slot.
  lemma {:induction false} PlaceFrame(s: State, id: int, source: NetAddr, d: int)
    requires Midway(s) && id in s.mapInfo
    requires s.vvNew[NewBucketOf(s, id, source)][NewPositionOf(s, id, source)] != id
    ensures var b, p, r := NewBucketOf(s, id, source), NewPositionOf(s, id, source), Place(s, id, source, d);
      && r == s.(mapInfo := r.mapInfo, mapAddr := r.mapAddr, vRandom := r.vRandom, nNew := r.nNew,
                 vvNew := Put(s.vvNew, b, p, id))
      && r.mapInfo.Keys <= s.mapInfo.Keys
      && id in r.mapInfo
      && r.mapInfo[id] == s.mapInfo[id].(nRefCount := s.mapInfo[id].nRefCount + 1,
                                         nRandomPos := r.mapInfo[id].nRandomPos)
      && (s.vvNew[b][p] != EMPTY ==> LostReference(s, r, s.vvNew[b][p]))
      && (forall k :: k in s.mapInfo && k != id && k != s.vvNew[b][p] ==> SameEntry(s, r, k))
  {
    hide Midway, RandomOk, ClearNew;
    MidwayShape(s);
    var b, p := NewBucketOf(s, id, source), NewPositionOf(s, id, source);
    MidwaySlot(s, b, p);
    ClearNewFrame(s, b, p);
    assert SameEntry(s, ClearNew(s, b, p), id);
    PutTwice(s.vvNew, b, p, EMPTY, id);
    forall k | k in s.mapInfo && k != id && k != s.vvNew[b][p] ensures SameEntry(s, Place(s, id, source, d), k) {
      assert SameEntry(s, ClearNew(s, b, p), k);
    }
  }

  // Move a tried entry back to the new table, into the bucket of its own source.
  function Evict(s: State, b: nat, p: nat): State
    requires Midway(s) && b < |s.vvTried| && p < |s.vvTried[b]| && s.vvTried[b][p] != EMPTY
  {
    var id := s.vvTried[b][p];
    ghost var limbo, counted :| Inv(s, limbo, counted);
    EvictPre(s, b, p, limbo, counted);
    Place(LeaveTried(s, b, p), id, s.mapInfo[id].source, 1)
  }

  lemma {:induction false} EvictPre(s: State, b: nat, p: nat, limbo: set<int>, counted: int)
    requires Inv(s, limbo, counted) && b < |s.vvTried| && p < |s.vvTried[b]| && s.vvTried[b][p] != EMPTY
    ensures var id, m := s.vvTried[b][p], LeaveTried(s, b, p);
      && Inv(m, limbo + {id}, counted)
      && id !in limbo && m.mapInfo[id].nRefCount == 0
      && m.vvNew[NewBucketOf(m, id, s.mapInfo[id].source)][NewPositionOf(m, id, s.mapInfo[id].source)] != id
  {
    var id, m := s.vvTried[b][p], LeaveTried(s, b, p);
    LeaveTriedKeeps(s, b, p, limbo, counted);
    LimboNotHeld(m, NewBucketOf(m, id, s.mapInfo[id].source), NewPositionOf(m, id, s.mapInfo[id].source),
                 limbo + {id}, counted, id);
    assert EntryOk(s, limbo, id);
  }

  lemma {:induction false} EvictKeeps(s: State, b: nat, p: nat, limbo: set<int>, counted: int)
    requires Inv(s, limbo, counted) && b < |s.vvTried| && p < |s.vvTried[b]| && s.vvTried[b][p] != EMPTY
    ensures Inv(Evict(s, b, p), limbo, counted)
  {
    var id, m := s.vvTried[b][p], LeaveTried(s, b, p);
    EvictPre(s, b, p, limbo, counted);
    PlaceKeeps(m, id, s.mapInfo[id].source, 1, limbo + {id}, counted);
    assert limbo + {id} - {id} == limbo;
  }

  lemma {:induction false} EvictFrame(s: State, b: nat, p: nat, limbo: set<int>, counted: int)
    requires Inv(s, limbo, counted) && b < |s.vvTried| && p < |s.vvTried[b]| && s.vvTried[b][p] != EMPTY
    ensures var id, r := s.vvTried[b][p], Evict(s, b, p);
      var ub, up := NewBucketOf(s, id, s.mapInfo[id].source), NewPositionOf(s, id, s.mapInfo[id].source);
      && r == s.(mapInfo := r.mapInfo, mapAddr := r.mapAddr, vRandom := r.vRandom, nNew := r.nNew, nTried := r.nTried,
                 vvTried := Put(s.vvTried, b, p, EMPTY), vvNew := Put(s.vvNew, ub, up, id))
      && r.mapInfo.Keys <= s.mapInfo.Keys
      && id in r.mapInfo
      && r.mapInfo[id] == s.mapInfo[id].(fInTried := false, nRefCount := 1, nRandomPos := r.mapInfo[id].nRandomPos)
      && (s.vvNew[ub][up] != EMPTY ==> LostReference(s, r, s.vvNew[ub][up]))
      && (forall k :: k in s.mapInfo && k != id && k != s.vvNew[ub][up] ==> SameEntry(s, r, k))
  {
    hide Inv, Midway, Place;
    InvIsMidway(s, limbo, counted);
    MidwayShape(s);
    MidwayTried(s, b, p);
    var id, m := s.vvTried[b][p], LeaveTried(s, b, p);
    EvictPre(s, b, p, limbo, counted);
    InvIsMidway(m, limbo + {id}, counted);
    PlaceFrame(m, id, s.mapInfo[id].source, 1);
    var ub, up := NewBucketOf(s, id, s.mapInfo[id].source), NewPositionOf(s, id, s.mapInfo[id].source);
    forall k | k in s.mapInfo && k != id && k != s.vvNew[ub][up] ensures SameEntry(s, Evict(s, b, p), k) {
      assert SameEntry(m, Evict(s, b, p), k);
    }
  }

  // Move an entry from the new to the tried table.
  function MakeTried(s: State, id: int): State
    requires Sound(s) && id in s.mapInfo && !s.mapInfo[id].fInTried
  {
    var f := ForgetNew(s, id);
    ForgetNewKeeps(s, id, {}, 0);
    var b, p := s.TriedBucket(s.mapInfo[id].service), s.TriedPosition(s.mapInfo[id].service);
    var e := if f.vvTried[b][p] == EMPTY then f else Evict(f, b, p);
    MadeRoom(s, id);
    EnterTried(e, id, b, p)
  }

  // The tried slot is free before the entry goes there, and the entry is untouched.
  lemma {:induction false} MadeRoom(s: State, id: int)
    requires Sound(s) && id in s.mapInfo && !s.mapInfo[id].fInTried
    ensures Inv(ForgetNew(s, id), {id}, 0)
    ensures var f := ForgetNew(s, id);
      var b, p := s.TriedBucket(s.mapInfo[id].service), s.TriedPosition(s.mapInfo[id].service);
      var e := if f.vvTried[b][p] == EMPTY then f else Evict(f, b, p);
      && Inv(e, {id}, 0)
      && e.config == s.config && e.key == s.key
      && e.vvTried == Put(s.vvTried, b, p, EMPTY)
      && SameEntry(f, e, id)
  {
    hide Inv, Midway, Evict;
    InvIsMidway(s, {}, 0);
    MidwayShape(s);
    var f, b, p := ForgetNew(s, id), s.TriedBucket(s.mapInfo[id].service), s.TriedPosition(s.mapInfo[id].service);
    ForgetNewKeeps(s, id, {}, 0);
    assert {} + {id} == {id};
    InvIsMidway(f, {id}, 0);
    MidwayShape(f);
    MidwayTried(f, b, p);
    if f.vvTried[b][p] == EMPTY {
      assert s.vvTried[b][p := EMPTY] == s.vvTried[b];
    } else {
      EvictKeeps(f, b, p, {id}, 0);
      EvictFrame(f, b, p, {id}, 0);
      var v := f.vvTried[b][p];
      LimboNotHeld(f, NewBucketOf(f, v, f.mapInfo[v].source), NewPositionOf(f, v, f.mapInfo[v].source), {id}, 0, id);
    }
  }

  lemma {:induction false} MakeTriedKeeps(s: State, id: int)
    requires Sound(s) && id in s.mapInfo && !s.mapInfo[id].fInTried
    ensures Sound(MakeTried(s, id))
  {
    MadeRoom(s, id);
    var f, b, p := ForgetNew(s, id), s.TriedBucket(s.mapInfo[id].service), s.TriedPosition(s.mapInfo[id].service);
    var e := if f.vvTried[b][p] == EMPTY then f else Evict(f, b, p);
    EnterTriedKeeps(e, id, b, p, {id}, 0);
    assert {id} - {id} == {};
  }

  /* ---- times ---- */

  // The two differ only in where the entry is kept.
  predicate SameRecord(a: Info, b: Info) {
    b == a.(nRefCount := b.nRefCount, fInTried := b.fInTried, nRandomPos := b.nRandomPos)
  }

  // What is recorded stays, and no entry becomes tried but id.
  ghost predicate RecordsFrom(s: State, r: State, id: int) {
    && r.config == s.config && r.key == s.key && r.nIdCount == s.nIdCount && r.nLastGood == s.nLastGood
    && forall k :: k in r.mapInfo ==>
         && k in s.mapInfo && SameRecord(s.mapInfo[k], r.mapInfo[k])
         && (r.mapInfo[k].fInTried ==> s.mapInfo[k].fInTried || k == id)
  }

  lemma {:induction false} PlaceRecords(s: State, id: int, source: NetAddr, d: int)
    requires Midway(s) && id in s.mapInfo
    requires s.vvNew[NewBucketOf(s, id, source)][NewPositionOf(s, id, source)] != id
    ensures RecordsFrom(s, Place(s, id, source, d), EMPTY)
  {
    hide Place, Midway;
    MidwayShape(s);
    MidwaySlot(s, NewBucketOf(s, id, source), NewPositionOf(s, id, source));
    PlaceFrame(s, id, source, d);
    OthersRecords(s, Place(s, id, source, d), id, s.vvNew[NewBucketOf(s, id, source)][NewPositionOf(s, id, source)]);
  }

  lemma {:induction false} OthersRecords(s: State, r: State, v: int, w: int)
    requires EMPTY !in s.mapInfo && r.mapInfo.Keys <= s.mapInfo.Keys
    requires r.config == s.config && r.key == s.key && r.nIdCount == s.nIdCount && r.nLastGood == s.nLastGood
    requires v in s.mapInfo && v in r.mapInfo && (r.mapInfo[v].fInTried ==> s.mapInfo[v].fInTried)
    requires SameRecord(s.mapInfo[v], r.mapInfo[v])
    requires w != EMPTY ==> w in s.mapInfo && LostReference(s, r, w)
    requires forall k :: k in s.mapInfo && k != v && k != w ==> SameEntry(s, r, k)
    ensures RecordsFrom(s, r, EMPTY)
  {
    forall k | k in r.mapInfo && k != v && k != w ensures SameEntry(s, r, k) {}
  }

  lemma {:induction false} MakeTriedRecords(s: State, id: int)
    requires Sound(s) && id in s.mapInfo && !s.mapInfo[id].fInTried
    ensures RecordsFrom(s, MakeTried(s, id), id)
  {
    hide Inv, Midway, Evict, EraseUpTo, RecordsFrom;
    InvIsMidway(s, {}, 0);
    MidwayShape(s);
    MadeRoom(s, id);
    var f, b, p := ForgetNew(s, id), s.TriedBucket(s.mapInfo[id].service), s.TriedPosition(s.mapInfo[id].service);
    InvIsMidway(f, {id}, 0);
    MidwayShape(f);
    if f.vvTried[b][p] != EMPTY {
      MidwayTried(f, b, p);
      var v := f.vvTried[b][p];
      var ub, up := NewBucketOf(f, v, f.mapInfo[v].source), NewPositionOf(f, v, f.mapInfo[v].source);
      MidwaySlot(f, ub, up);
      EvictFrame(f, b, p, {id}, 0);
      OthersRecords(f, Evict(f, b, p), v, f.vvNew[ub][up]);
    } else {
      SameRecords(f);
    }
    EnterRecords(s, id, if f.vvTried[b][p] == EMPTY then f else Evict(f, b, p), b, p);
  }

  lemma {:induction false} SameRecords(f: State)
    ensures RecordsFrom(f, f, EMPTY)
  {
  }

  lemma {:induction false} EnterRecords(s: State, id: int, e: State, b: nat, p: nat)
    requires id in s.mapInfo && EMPTY !in s.mapInfo && RecordsFrom(ForgetNew(s, id), e, EMPTY)
    requires id in e.mapInfo && b < |e.vvTried| && p < |e.vvTried[b]|
    ensures RecordsFrom(s, EnterTried(e, id, b, p), id)
  {
    hide EraseUpTo;
  }
}
