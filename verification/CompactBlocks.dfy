/** Compact blocks, BIP 152: a block announced by short transaction ids is put together
    from prefilled transactions, the mempool and extra transactions, and completed with
    the transactions the receiver asked for. The short-id hash is a parameter. */
module CompactBlocks {
  import opened Options

  // A transaction; a null one has neither inputs nor outputs.
  datatype Tx = Tx(id: nat, isNull: bool)

  type ShortId = Tx -> nat

  datatype Prefilled = Prefilled(index: nat, tx: Tx)

  datatype Message = Message(shortIds: seq<nat>, prefilled: seq<Prefilled>)

  const MAX_UINT16 := 0xffff
  const TWO_16 := 0x1_0000

  function TxCount(m: Message): nat { |m.shortIds| + |m.prefilled| }

  type Slots = seq<Option<Tx>>

  /* ---- prefilled transactions ---- */

  // Position of the k-th prefilled transaction: each index counts from the one before.
  function PrefilledAt(p: seq<Prefilled>, k: nat): (r: int)
    requires k <= |p|
    ensures r >= k - 1
  {
    if k == 0 then -1 else PrefilledAt(p, k - 1) + p[k - 1].index + 1
  }

  // The first k prefilled transactions are acceptable: not null, at 16-bit positions, and
  // leaving room for no more than the short ids before them.
  ghost predicate PrefilledOk(m: Message, k: nat)
    requires k <= |m.prefilled|
  {
    forall i :: 0 <= i < k ==> AcceptedAt(m, i)
  }

  predicate AcceptedAt(m: Message, i: nat)
    requires i < |m.prefilled|
  {
    && !m.prefilled[i].tx.isNull
    && PrefilledAt(m.prefilled, i + 1) <= MAX_UINT16
    && PrefilledAt(m.prefilled, i + 1) <= |m.shortIds| + i
  }

  // Taking them in stops at the i-th.
  ghost predicate StoppedAt(m: Message, i: nat)
    requires i < |m.prefilled|
  {
    PrefilledOk(m, i) && !AcceptedAt(m, i)
  }

  lemma {:induction false} PrefilledFewer(m: Message, k: nat, j: nat)
    requires j <= k <= |m.prefilled| && PrefilledOk(m, k)
    ensures PrefilledOk(m, j)
  {
    hide AcceptedAt;
  }

  lemma {:induction false} PrefilledInRange(m: Message, k: nat)
    requires 0 < k <= |m.prefilled| && PrefilledOk(m, k)
    ensures PrefilledAt(m.prefilled, k - 1) < PrefilledAt(m.prefilled, k) < TxCount(m)
  {
    assert AcceptedAt(m, k - 1);
  }

  lemma {:induction false} PrefilledIncrease(p: seq<Prefilled>, i: nat, j: nat)
    requires i < j <= |p|
    ensures PrefilledAt(p, i) < PrefilledAt(p, j)
    decreases j
  {
    if i < j - 1 { PrefilledIncrease(p, i, j - 1); }
  }

  // The slots once the first k were put in.
  function Placed(m: Message, k: nat): (r: Slots)
    requires k <= |m.prefilled| && PrefilledOk(m, k)
    ensures |r| == TxCount(m)
    decreases k
  {
    if k == 0 then seq(TxCount(m), _ => None)
    else
      PrefilledFewer(m, k, k - 1);
      PrefilledInRange(m, k);
      Placed(m, k - 1)[PrefilledAt(m.prefilled, k) := Some(m.prefilled[k - 1].tx)]
  }

  // Positions from the last one put in on are free.
  lemma {:induction false} FreeAbove(m: Message, k: nat, p: nat)
    requires k <= |m.prefilled| && PrefilledOk(m, k) && PrefilledAt(m.prefilled, k) < p < TxCount(m)
    ensures Placed(m, k)[p] == None
    decreases k
  {
    hide PrefilledOk;
    if k > 0 {
      PrefilledFewer(m, k, k - 1);
      FreeAbove(m, k - 1, p);
    }
  }

  /* ---- free slots ---- */

  function FreeSlots(s: Slots, from: nat): (r: seq<nat>)
    requires from <= |s|
    ensures forall i :: 0 <= i < |r| ==> from <= r[i] < |s| && s[r[i]] == None
    ensures forall i, j :: 0 <= i < j < |r| ==> r[i] < r[j]
    decreases |s| - from
  {
    if from == |s| then [] else if s[from].None? then [from] + FreeSlots(s, from + 1) else FreeSlots(s, from + 1)
  }

  function Filled(s: Slots): nat { if s == [] then 0 else (if s[0].Some? then 1 else 0) + Filled(s[1..]) }

  lemma {:induction false} FilledUpdate(s: Slots, i: nat, x: Option<Tx>)
    requires i < |s|
    ensures Filled(s[i := x]) == Filled(s) - (if s[i].Some? then 1 else 0) + if x.Some? then 1 else 0
  {
    if i == 0 {
      assert s[i := x][1..] == s[1..];
    } else {
      assert s[i := x][1..] == s[1..][i - 1 := x];
      FilledUpdate(s[1..], i - 1, x);
    }
  }

  lemma {:induction false} FilledNone(s: Slots)
    requires forall i :: 0 <= i < |s| ==> s[i].None?
    ensures Filled(s) == 0
  {
    if s != [] { FilledNone(s[1..]); }
  }

  lemma {:induction false} FreeAndFilled(s: Slots, from: nat)
    requires from <= |s|
    ensures |FreeSlots(s, from)| + Filled(s[from..]) == |s| - from
    decreases |s| - from
  {
    if from < |s| {
      assert s[from..][1..] == s[from + 1..];
      FreeAndFilled(s, from + 1);
    }
  }

  lemma {:induction false} FreeSlotsAll(s: Slots, from: nat, p: nat)
    requires from <= p < |s| && s[p].None?
    ensures p in FreeSlots(s, from)
    decreases p - from
  {
    if from < p { FreeSlotsAll(s, from + 1, p); }
  }

  // As many slots stay free as there are short ids.
  lemma {:induction false} PlacedFilled(m: Message, k: nat)
    requires k <= |m.prefilled| && PrefilledOk(m, k)
    ensures Filled(Placed(m, k)) == k
    decreases k
  {
    hide PrefilledOk, Filled;
    if k == 0 {
      FilledNone(Placed(m, 0));
    } else {
      PrefilledFewer(m, k, k - 1);
      PrefilledInRange(m, k);
      PlacedFilled(m, k - 1);
      var p := PrefilledAt(m.prefilled, k);
      FreeAbove(m, k - 1, p);
      FilledUpdate(Placed(m, k - 1), p, Some(m.prefilled[k - 1].tx));
    }
  }

  lemma {:induction false} OneSlotPerShortId(m: Message)
    requires PrefilledOk(m, |m.prefilled|)
    ensures |FreeSlots(Placed(m, |m.prefilled|), 0)| == |m.shortIds|
  {
    var s := Placed(m, |m.prefilled|);
    PlacedFilled(m, |m.prefilled|);
    FreeAndFilled(s, 0);
    assert s[0..] == s;
  }

  /* ---- short ids and slots ---- */

  // The table keeps 16 bits of a position.
  function Kept(slot: nat): nat { slot % TWO_16 }

  // The i-th short id goes with the i-th free slot; the table keeps 16 bits of it.
  function SlotTable(ids: seq<nat>, free: seq<nat>, k: nat): map<nat, nat>
    requires k <= |ids| == |free|
    decreases k
  {
    if k == 0 then map[] else SlotTable(ids, free, k - 1)[ids[k - 1] := Kept(free[k - 1])]
  }

  lemma {:induction false} TableGrows(ids: seq<nat>, free: seq<nat>, k: nat)
    requires 0 < k <= |ids| == |free|
    ensures |SlotTable(ids, free, k)|
         == |SlotTable(ids, free, k - 1)| + if ids[k - 1] in SlotTable(ids, free, k - 1) then 0 else 1
  {
    var t, t' := SlotTable(ids, free, k - 1), SlotTable(ids, free, k);
    assert t'.Keys == t.Keys + {ids[k - 1]};
    assert ids[k - 1] in t ==> t'.Keys == t.Keys;
    assert |t'.Keys| == |t'| && |t.Keys| == |t|;
  }

  lemma {:induction false} TableKeys(ids: seq<nat>, free: seq<nat>, k: nat, x: nat)
    requires k <= |ids| == |free|
    ensures x in SlotTable(ids, free, k) <==> x in ids[..k]
    decreases k
  {
    if k > 0 {
      TableKeys(ids, free, k - 1, x);
      assert ids[..k] == ids[..k - 1] + [ids[k - 1]];
    }
  }

  ghost predicate Differ(ids: seq<nat>) { forall i, j :: 0 <= i < j < |ids| ==> ids[i] != ids[j] }

  // The table is full size exactly when the short ids differ.
  lemma {:induction false} TableFull(ids: seq<nat>, free: seq<nat>, k: nat)
    requires k <= |ids| == |free|
    ensures |SlotTable(ids, free, k)| <= k
    ensures |SlotTable(ids, free, k)| == k <==> Differ(ids[..k])
    decreases k
  {
    if k > 0 {
      TableFull(ids, free, k - 1);
      TableGrows(ids, free, k);
      TableKeys(ids, free, k - 1, ids[k - 1]);
      DifferNext(ids, k);
    }
  }

  lemma {:induction false} DifferNext(ids: seq<nat>, k: nat)
    requires 0 < k <= |ids|
    ensures Differ(ids[..k]) <==> Differ(ids[..k - 1]) && ids[k - 1] !in ids[..k - 1]
  {
    var a, b := ids[..k], ids[..k - 1];
    assert forall i :: 0 <= i < k - 1 ==> b[i] == a[i];
    assert a[k - 1] == ids[k - 1];
    if Differ(b) && ids[k - 1] !in b {
      forall i, j | 0 <= i < j < k ensures a[i] != a[j] {
        if j == k - 1 { assert b[i] in b; }
      }
    }
  }

  // Then every id has its own entry.
  lemma {:induction false} TableEntry(ids: seq<nat>, free: seq<nat>, k: nat, i: nat)
    requires i < k <= |ids| == |free| && Differ(ids)
    ensures ids[i] in SlotTable(ids, free, k) && SlotTable(ids, free, k)[ids[i]] == Kept(free[i])
    decreases k
  {
    if i < k - 1 { TableEntry(ids, free, k - 1, i); }
  }

  // The kept position is the slot itself exactly for the first 65536 slots.
  lemma {:induction false} KeptExactly(slot: nat)
    ensures Kept(slot) == slot <==> slot < 65_536
  {
  }

  /* ---- filling slots from the mempool and the extra transactions ---- */

  // The slots, which of them were matched, and how many are filled by a match.
  datatype Scan = Scan(slots: Slots, have: seq<bool>, count: int)

  // A transaction whose short id is asked for fills its slot; a second match empties it
  // again, unless it is an extra transaction that is there already.
  function Offer(sc: Scan, table: map<nat, nat>, short: ShortId, tx: Tx, isExtra: bool): (r: Scan)
    requires |sc.have| == |sc.slots| && forall id :: id in table ==> table[id] < |sc.slots|
    ensures |r.have| == |r.slots| == |sc.slots|
  {
    if short(tx) !in table then sc
    else
      var p := table[short(tx)];
      if !sc.have[p] then Scan(sc.slots[p := Some(tx)], sc.have[p := true], sc.count + 1)
      else if sc.slots[p].Some? && !(isExtra && sc.slots[p].value == tx) then
          Scan(sc.slots[p := None], sc.have, sc.count - 1)
      else sc
  }

  // Offers the transactions in turn until as many are found as are asked for.
  function Offers(sc: Scan, table: map<nat, nat>, short: ShortId, txs: seq<Tx>, isExtra: bool): (r: Scan)
    requires |sc.have| == |sc.slots| && forall id :: id in table ==> table[id] < |sc.slots|
    ensures |r.have| == |r.slots| == |sc.slots|
    decreases |txs|
  {
    if txs == [] then sc
    else
      var next := Offer(sc, table, short, txs[0], isExtra);
      if next.count == |table| then next else Offers(next, table, short, txs[1..], isExtra)
  }

  // Every id has a slot that is free before the scan.
  ghost predicate TableFree(table: map<nat, nat>, base: Slots) {
    forall id :: id in table ==> table[id] < |base| && base[table[id]].None?
  }

  ghost predicate OwnSlots(table: map<nat, nat>) {
    forall a, b :: a in table && b in table && table[a] == table[b] ==> a == b
  }

  // Slots of the table hold nothing or a transaction sent there by its short id; the others
  // are as before; and the count is that of the slots filled.
  ghost predicate ScanOk(sc: Scan, table: map<nat, nat>, base: Slots, short: ShortId) {
    && |sc.slots| == |sc.have| == |base|
    && sc.count == Filled(sc.slots) - Filled(base)
    && (forall p :: 0 <= p < |base| && base[p].Some? ==> sc.slots[p] == base[p])
    && (forall p :: 0 <= p < |base| && p !in table.Values ==> sc.slots[p] == base[p])
    && (forall p :: 0 <= p < |base| && p in table.Values && sc.slots[p].Some? ==>
          sc.have[p] && SentTo(table, short, sc.slots[p].value, p))
  }

  ghost predicate SentTo(table: map<nat, nat>, short: ShortId, tx: Tx, p: nat) {
    short(tx) in table && table[short(tx)] == p
  }

  lemma {:induction false} OfferKeeps(sc: Scan, table: map<nat, nat>, base: Slots, short: ShortId, tx: Tx,
                                      isExtra: bool)
    requires TableFree(table, base) && ScanOk(sc, table, base, short)
    ensures ScanOk(Offer(sc, table, short, tx, isExtra), table, base, short)
  {
    hide Filled;
    if short(tx) in table {
      var p := table[short(tx)];
      assert p in table.Values;
      FilledUpdate(sc.slots, p, Some(tx));
      FilledUpdate(sc.slots, p, None);
    }
  }

  lemma {:induction false} OffersKeep(sc: Scan, table: map<nat, nat>, base: Slots, short: ShortId, txs: seq<Tx>,
                                      isExtra: bool)
    requires TableFree(table, base) && ScanOk(sc, table, base, short)
    ensures ScanOk(Offers(sc, table, short, txs, isExtra), table, base, short)
    decreases |txs|
  {
    hide Offer, ScanOk, TableFree;
    OfferFits(sc, table, base, short);
    if txs != [] {
      var next := Offer(sc, table, short, txs[0], isExtra);
      OfferKeeps(sc, table, base, short, txs[0], isExtra);
      OffersKeep(next, table, base, short, txs[1..], isExtra);
    }
  }

  lemma {:induction false} OfferFits(sc: Scan, table: map<nat, nat>, base: Slots, short: ShortId)
    requires TableFree(table, base) && ScanOk(sc, table, base, short)
    ensures |sc.have| == |sc.slots| && forall id :: id in table ==> table[id] < |sc.slots|
  {
  }

  /* ---- the whole of InitData ---- */

  function Table(m: Message): (r: map<nat, nat>)
    requires PrefilledOk(m, |m.prefilled|)
  {
    OneSlotPerShortId(m);
    SlotTable(m.shortIds, FreeSlots(Placed(m, |m.prefilled|), 0), |m.shortIds|)
  }

  // In an accepted message of at most 65536 transactions the i-th short id stands for the
  // i-th slot that is not prefilled.
  lemma {:induction false} IdsPairWithSlots(m: Message)
    requires PrefilledOk(m, |m.prefilled|) && TxCount(m) <= TWO_16 && |Table(m)| == |m.shortIds|
    ensures |FreeSlots(Placed(m, |m.prefilled|), 0)| == |m.shortIds|
    ensures forall i :: 0 <= i < |m.shortIds| ==>
      m.shortIds[i] in Table(m) && Table(m)[m.shortIds[i]] == FreeSlots(Placed(m, |m.prefilled|), 0)[i]
    ensures OwnSlots(Table(m))
  {
    hide Placed, PrefilledOk, FreeSlots, SlotTable;
    OneSlotPerShortId(m);
    var ids, base := m.shortIds, Placed(m, |m.prefilled|);
    var free := FreeSlots(base, 0);
    TableFull(ids, free, |ids|);
    assert ids[..|ids|] == ids;
    forall i | 0 <= i < |ids| ensures ids[i] in Table(m) && Table(m)[ids[i]] == free[i] {
      TableEntry(ids, free, |ids|, i);
      KeptExactly(free[i]);
    }
    TableOwnSlots(ids, free, Table(m));
  }

  // With more transactions some id is sent to another slot: the pairing is right exactly
  // up to 65536.
  lemma {:induction false} PairingIsExactUpTo(m: Message)
    requires PrefilledOk(m, |m.prefilled|) && Differ(m.shortIds)
    ensures |FreeSlots(Placed(m, |m.prefilled|), 0)| == |m.shortIds|
    ensures forall i :: 0 <= i < |m.shortIds| ==> m.shortIds[i] in Table(m)
    ensures (forall i :: 0 <= i < |m.shortIds| ==>
        Table(m)[m.shortIds[i]] == FreeSlots(Placed(m, |m.prefilled|), 0)[i]) <==> TxCount(m) <= TWO_16
  {
    hide Placed, FreeSlots, SlotTable, PrefilledOk, PrefilledAt;
    OneSlotPerShortId(m);
    LastPrefilled(m);
    var ids, base := m.shortIds, Placed(m, |m.prefilled|);
    var free := FreeSlots(base, 0);
    forall i | 0 <= i < |ids| ensures ids[i] in Table(m) && Table(m)[ids[i]] == Kept(free[i]) {
      TableEntry(ids, free, |ids|, i);
    }
    if TxCount(m) > TWO_16 {
      var last := TxCount(m) - 1;
      FreeAbove(m, |m.prefilled|, last);
      FreeSlotsAll(base, 0, last);
      var i :| 0 <= i < |free| && free[i] == last;
      assert Table(m)[ids[i]] != free[i];
    }
  }

  lemma {:induction false} LastPrefilled(m: Message)
    requires PrefilledOk(m, |m.prefilled|)
    ensures PrefilledAt(m.prefilled, |m.prefilled|) <= MAX_UINT16
  {
    var k := |m.prefilled|;
    if k > 0 {
      assert AcceptedAt(m, k - 1);
    }
  }

  lemma {:induction false} TableOwnSlots(ids: seq<nat>, free: seq<nat>, table: map<nat, nat>)
    requires |ids| == |free| && table == SlotTable(ids, free, |ids|)
    requires forall i :: 0 <= i < |ids| ==> ids[i] in table && table[ids[i]] == free[i]
    requires forall i, j :: 0 <= i < j < |free| ==> free[i] < free[j]
    ensures OwnSlots(table)
  {
    hide SlotTable;
    forall id | id in table ensures exists i :: 0 <= i < |ids| && ids[i] == id {
      TableKeys(ids, free, |ids|, id);
      assert ids[..|ids|] == ids;
    }
  }

  /* ---- ids sent to a slot that is not theirs ---- */

  // No slot beyond the first 65536 is sent to one that is prefilled.
  ghost predicate NoClash(m: Message)
    requires PrefilledOk(m, |m.prefilled|)
  {
    forall p :: TWO_16 <= p < TxCount(m) ==> Placed(m, |m.prefilled|)[Kept(p)].None?
  }

  lemma {:induction false} SmallHasNoClash(m: Message)
    requires PrefilledOk(m, |m.prefilled|) && TxCount(m) <= TWO_16
    ensures NoClash(m)
  {
  }

  // An entry of the table is the slot of some short id, cut to 16 bits.
  lemma {:induction false} EntryComesFrom(ids: seq<nat>, free: seq<nat>, k: nat, id: nat) returns (i: nat)
    requires k <= |ids| == |free| && id in SlotTable(ids, free, k)
    ensures i < k && ids[i] == id && SlotTable(ids, free, k)[id] == Kept(free[i])
    decreases k
  {
    if ids[k - 1] == id { i := k - 1; } else { i := EntryComesFrom(ids, free, k - 1, id); }
  }

  // Every position kept is a slot of the block.
  lemma {:induction false} TableInRange(m: Message)
    requires PrefilledOk(m, |m.prefilled|)
    ensures forall id :: id in Table(m) ==> Table(m)[id] < TxCount(m)
  {
    hide PrefilledOk, Placed, SlotTable, FreeSlots;
    OneSlotPerShortId(m);
    var free := FreeSlots(Placed(m, |m.prefilled|), 0);
    forall id | id in Table(m) ensures Table(m)[id] < TxCount(m) {
      var i := EntryComesFrom(m.shortIds, free, |m.shortIds|, id);
    }
  }

  // The slots of the table are free exactly when nothing clashes, if the ids differ.
  lemma {:induction false} FreeUnlessClash(m: Message)
    requires PrefilledOk(m, |m.prefilled|) && NoClash(m)
    ensures TableFree(Table(m), Placed(m, |m.prefilled|))
  {
    hide PrefilledOk, Placed, SlotTable, FreeSlots;
    OneSlotPerShortId(m);
    TableInRange(m);
    var base := Placed(m, |m.prefilled|);
    var free := FreeSlots(base, 0);
    forall id | id in Table(m) ensures base[Table(m)[id]].None? {
      var i := EntryComesFrom(m.shortIds, free, |m.shortIds|, id);
      KeptExactly(free[i]);
    }
  }

  /* ---- does the search for the next slot end? ---- */

  // The offset is a 16-bit counter, so after 65536 steps the search is back where it began.
  function LooksAt(at: nat, offset: nat, n: nat): nat { at + (offset + n) % TWO_16 }

  ghost predicate FreeStep(s: Slots, at: nat, offset: nat, n: nat) {
    LooksAt(at, offset, n) < |s| && s[LooksAt(at, offset, n)].None?
  }

  ghost predicate SearchEnds(s: Slots, at: nat, offset: nat) { exists n: nat :: FreeStep(s, at, offset, n) }

  // The first free slot has only prefilled ones before it.
  lemma {:induction false} FilledBefore(s: Slots, from: nat)
    requires from <= |s| && FreeSlots(s, from) != []
    ensures FreeSlots(s, from)[0] - from <= Filled(s[from..])
    decreases |s| - from
  {
    assert s[from..][1..] == s[from + 1..];
    if s[from].Some? { FilledBefore(s, from + 1); }
  }

  lemma {:induction false} PlacedAt(m: Message, k: nat, i: nat)
    requires i < k <= |m.prefilled| && PrefilledOk(m, k)
    ensures 0 <= PrefilledAt(m.prefilled, i + 1) < TxCount(m)
    ensures Placed(m, k)[PrefilledAt(m.prefilled, i + 1)].Some?
    decreases k
  {
    PrefilledInRange(m, k);
    if i < k - 1 {
      PrefilledFewer(m, k, k - 1);
      PlacedAt(m, k - 1, i);
    }
  }

  lemma {:induction false} PrefilledSpread(p: seq<Prefilled>, i: nat, j: nat)
    requires i <= j <= |p|
    ensures PrefilledAt(p, j) - PrefilledAt(p, i) >= j - i
    decreases j
  {
    if i < j { PrefilledSpread(p, i, j - 1); }
  }

  // 65536 prefilled transactions fill the first 65536 slots.
  lemma {:induction false} AllPrefilled(m: Message, q: nat)
    requires PrefilledOk(m, |m.prefilled|) && |m.prefilled| >= TWO_16 && q < TWO_16
    ensures q < TxCount(m) && Placed(m, |m.prefilled|)[q].Some?
  {
    hide Placed, PrefilledOk, PrefilledAt;
    LastPrefilled(m);
    PrefilledSpread(m.prefilled, q + 1, |m.prefilled|);
    PlacedAt(m, |m.prefilled|, q);
  }

  // The search for the slot of the first short id ends exactly with fewer prefilled ones.
  lemma {:induction false} SearchEndsExactly(m: Message)
    requires PrefilledOk(m, |m.prefilled|) && m.shortIds != []
    ensures SearchEnds(Placed(m, |m.prefilled|), 0, 0) <==> |m.prefilled| < TWO_16
  {
    hide Placed, PrefilledOk, FreeSlots, Filled;
    var s := Placed(m, |m.prefilled|);
    if |m.prefilled| < TWO_16 {
      OneSlotPerShortId(m);
      PlacedFilled(m, |m.prefilled|);
      FilledBefore(s, 0);
      assert s[0..] == s;
      assert FreeStep(s, 0, 0, FreeSlots(s, 0)[0]);
    } else {
      forall n: nat ensures !FreeStep(s, 0, 0, n) { AllPrefilled(m, LooksAt(0, 0, n)); }
    }
  }

  lemma {:induction false} OneAfterAnother(p: seq<Prefilled>, k: nat)
    requires k <= |p| && forall i :: 0 <= i < |p| ==> p[i].index == 0
    ensures PrefilledAt(p, k) == k - 1
    decreases k
  {
    if k > 0 { OneAfterAnother(p, k - 1); }
  }

  // A message that is accepted as far as that and whose search does not end.
  lemma {:induction false} SearchFails(tx: Tx, id: nat)
    requires !tx.isNull
    ensures var m := Message([id], seq(TWO_16, _ => Prefilled(0, tx)));
      TxCount(m) == TWO_16 + 1 && PrefilledOk(m, |m.prefilled|) && !SearchEnds(Placed(m, |m.prefilled|), 0, 0)
  {
    hide Placed, PrefilledAt, SearchEnds;
    var m := Message([id], seq(TWO_16, _ => Prefilled(0, tx)));
    forall k: nat | k <= |m.prefilled| ensures PrefilledAt(m.prefilled, k) == k - 1 { OneAfterAnother(m.prefilled, k); }
    SearchEndsExactly(m);
  }

  /* ---- completing the block ---- */

  // The block from the slots, the missing ones taken from the list in order.
  function Fill(s: Slots, missing: seq<Tx>): Option<seq<Tx>> {
    if s == [] then (if missing == [] then Some([]) else None)
    else if s[0].Some? then
      match Fill(s[1..], missing)
      case None => None
      case Some(rest) => Some([s[0].value] + rest)
    else if missing == [] then None
    else
      match Fill(s[1..], missing[1..])
      case None => None
      case Some(rest) => Some([missing[0]] + rest)
  }

  // The block is completed exactly when there is one transaction for each empty slot.
  lemma {:induction false} FillExactly(s: Slots, missing: seq<Tx>)
    ensures Fill(s, missing).Some? <==> |missing| + Filled(s) == |s|
    ensures Fill(s, missing).Some? ==>
      |Fill(s, missing).value| == |s|
      && forall i :: 0 <= i < |s| && s[i].Some? ==> Fill(s, missing).value[i] == s[i].value
    decreases |s|
  {
    if s != [] {
      FilledAtMost(s[1..]);
      if s[0].Some? { FillExactly(s[1..], missing); } else if missing != [] { FillExactly(s[1..], missing[1..]); }
    }
  }

  lemma {:induction false} FilledAtMost(s: Slots)
    ensures Filled(s) <= |s|
  {
    if s != [] { FilledAtMost(s[1..]); }
  }

  // What the sender has at the slots that are empty.
  function MissingOf(s: Slots, vtx: seq<Tx>): seq<Tx>
    requires |s| == |vtx|
  {
    if s == [] then [] else (if s[0].None? then [vtx[0]] else []) + MissingOf(s[1..], vtx[1..])
  }

  ghost predicate Agrees(s: Slots, vtx: seq<Tx>) {
    |s| == |vtx| && forall i :: 0 <= i < |s| ==> s[i].None? || s[i].value == vtx[i]
  }

  lemma {:induction false} FillRebuilds(s: Slots, vtx: seq<Tx>)
    requires Agrees(s, vtx)
    ensures Fill(s, MissingOf(s, vtx)) == Some(vtx)
    decreases |s|
  {
    if s != [] {
      assert Agrees(s[1..], vtx[1..]);
      FillRebuilds(s[1..], vtx[1..]);
      assert vtx == [vtx[0]] + vtx[1..];
      var rest := MissingOf(s[1..], vtx[1..]);
      assert [] + rest == rest && ([vtx[0]] + rest)[1..] == rest;
    } else {
      assert vtx == [];
    }
  }

  /* ---- sender and receiver ---- */

  // The sender prefills the coinbase and gives short ids for the rest.
  function Announce(vtx: seq<Tx>, short: ShortId): Message
    requires vtx != []
  {
    Message(seq(|vtx| - 1, i requires 0 <= i < |vtx| - 1 => short(vtx[i + 1])), [Prefilled(0, vtx[0])])
  }

  lemma {:induction false} AnnounceAccepted(vtx: seq<Tx>, short: ShortId)
    requires vtx != [] && !vtx[0].isNull
    ensures var m := Announce(vtx, short); TxCount(m) == |vtx| && PrefilledOk(m, 1)
    ensures Placed(Announce(vtx, short), 1) == [Some(vtx[0])] + seq(|vtx| - 1, _ => None)
    ensures FreeSlots(Placed(Announce(vtx, short), 1), 0) == seq(|vtx| - 1, i => i + 1)
  {
    var m := Announce(vtx, short);
    assert PrefilledAt(m.prefilled, 1) == 0;
    var s := Placed(m, 1);
    assert s == Placed(m, 0)[0 := Some(vtx[0])];
    FreeRange(s, 1);
  }

  lemma {:induction false} FreeRange(s: Slots, from: nat)
    requires from <= |s| && forall i :: from <= i < |s| ==> s[i].None?
    ensures FreeSlots(s, from) == seq(|s| - from, i => i + from)
    decreases |s| - from
  {
    if from < |s| { FreeRange(s, from + 1); }
  }

  // No transaction the receiver tries has the short id of another one in the block.
  ghost predicate NoForeign(txs: seq<Tx>, vtx: seq<Tx>, short: ShortId) {
    forall t, i :: t in txs && 1 <= i < |vtx| && short(t) == short(vtx[i]) ==> t == vtx[i]
  }

  // What the scans start from, and the slots after them.
  function ScanStart(m: Message): Scan
    requires PrefilledOk(m, |m.prefilled|)
  {
    Scan(Placed(m, |m.prefilled|), seq(TxCount(m), _ => false), 0)
  }

  function Scanned(m: Message, short: ShortId, pool: seq<Tx>, extra: seq<Tx>): Scan
    requires PrefilledOk(m, |m.prefilled|) && forall id :: id in Table(m) ==> Table(m)[id] < TxCount(m)
  {
    Offers(Offers(ScanStart(m), Table(m), short, pool, false), Table(m), short, extra, true)
  }

  // The transactions sent to a slot, in order.
  ghost function Matching(txs: seq<Tx>, table: map<nat, nat>, short: ShortId, p: nat): seq<Tx> {
    if txs == [] then []
    else
      var last := txs[|txs| - 1];
      Matching(txs[..|txs| - 1], table, short, p) + if SentTo(table, short, last, p) then [last] else []
  }

  // A slot is settled by at most one transaction of the pool and by extra ones that are all
  // that same transaction.
  ghost predicate Unrivalled(pool: seq<Tx>, extra: seq<Tx>) {
    pool + extra != [] && |pool| <= 1 && forall i :: 0 <= i < |extra| ==> extra[i] == (pool + extra)[0]
  }

  // A slot nothing was sent to is as it was before the scan.
  ghost predicate SlotSettled(sc: Scan, p: nat, was: Option<Tx>, pool: seq<Tx>, extra: seq<Tx>)
    requires p < |sc.slots| == |sc.have|
  {
    && (sc.have[p] <==> pool + extra != [])
    && sc.slots[p] == if pool + extra == [] then was
          else if Unrivalled(pool, extra) then Some((pool + extra)[0]) else None
  }

  ghost predicate SlotsSettled(sc: Scan, table: map<nat, nat>, base: Slots, short: ShortId, pool: seq<Tx>,
                               extra: seq<Tx>) {
    && |sc.slots| == |sc.have| == |base|
    && (forall id :: id in table ==> table[id] < |base|)
    && (forall p :: 0 <= p < |base| ==>
          SlotSettled(sc, p, base[p], Matching(pool, table, short, p), Matching(extra, table, short, p)))
  }

  lemma {:induction false} MatchingMore(txs: seq<Tx>, table: map<nat, nat>, short: ShortId, p: nat, tx: Tx)
    ensures Matching(txs + [tx], table, short, p)
         == Matching(txs, table, short, p) + if SentTo(table, short, tx, p) then [tx] else []
  {
    assert (txs + [tx])[..|txs|] == txs;
  }

  lemma {:induction false} OfferSettlesSlot(sc: Scan, table: map<nat, nat>, short: ShortId, was: Option<Tx>,
                                            pm: seq<Tx>, em: seq<Tx>,
                         tx: Tx, isExtra: bool, p: nat)
    requires |sc.slots| == |sc.have| && (forall i :: i in table ==> table[i] < |sc.slots|)
    requires p < |sc.slots| && SlotSettled(sc, p, was, pm, em) && (!isExtra ==> em == [])
    ensures var more := if SentTo(table, short, tx, p) then [tx] else [];
      SlotSettled(Offer(sc, table, short, tx, isExtra), p, was, if isExtra then pm else pm + more,
                  if isExtra then em + more else em)
  {
    hide SlotSettled;
    var r := Offer(sc, table, short, tx, isExtra);
    if SentTo(table, short, tx, p) {
      if isExtra { MoreExtra(sc, r, p, was, pm, em, tx); } else { MorePool(sc, r, p, was, pm, tx); }
    } else {
      assert pm + [] == pm && em + [] == em;
      SameSlot(sc, r, p, was, pm, em);
    }
  }

  lemma {:induction false} SameSlot(sc: Scan, r: Scan, p: nat, was: Option<Tx>, pm: seq<Tx>, em: seq<Tx>)
    requires p < |sc.slots| == |sc.have| == |r.slots| == |r.have| && SlotSettled(sc, p, was, pm, em)
    requires r.slots[p] == sc.slots[p] && r.have[p] == sc.have[p]
    ensures SlotSettled(r, p, was, pm, em)
  {
  }

  lemma {:induction false} MorePool(sc: Scan, r: Scan, p: nat, was: Option<Tx>, pm: seq<Tx>, tx: Tx)
    requires |r.slots| == |r.have| == |sc.slots| == |sc.have| && p < |sc.slots| && SlotSettled(sc, p, was, pm, [])
    requires r.have[p] && r.slots[p] == if sc.have[p] then None else Some(tx)
    ensures SlotSettled(r, p, was, pm + [tx], [])
  {
    assert pm + [tx] + [] == pm + [tx] && pm + [] == pm;
  }

  lemma {:induction false} MoreExtra(sc: Scan, r: Scan, p: nat, was: Option<Tx>, pm: seq<Tx>, em: seq<Tx>, tx: Tx)
    requires |r.slots| == |r.have| == |sc.slots| == |sc.have| && p < |sc.slots| && SlotSettled(sc, p, was, pm, em)
    requires r.have[p]
    requires r.slots[p] == if !sc.have[p] then Some(tx) else if sc.slots[p] == Some(tx) then Some(tx) else None
    ensures SlotSettled(r, p, was, pm, em + [tx])
  {
    var all := pm + em;
    assert pm + (em + [tx]) == all + [tx];
    if all != [] {
      assert (all + [tx])[0] == all[0];
      assert Unrivalled(pm, em + [tx]) <==> Unrivalled(pm, em) && tx == all[0] by {
        assert (em + [tx])[|em|] == tx;
        assert forall i :: 0 <= i < |em| ==> (em + [tx])[i] == em[i];
      }
    }
  }

  lemma {:induction false} OfferSettles(sc: Scan, table: map<nat, nat>, base: Slots, short: ShortId, pool: seq<Tx>,
                                        extra: seq<Tx>,
                     tx: Tx, isExtra: bool)
    requires SlotsSettled(sc, table, base, short, pool, extra) && (!isExtra ==> extra == [])
    ensures SlotsSettled(Offer(sc, table, short, tx, isExtra), table, base, short,
                         if isExtra then pool else pool + [tx], if isExtra then extra + [tx] else extra)
  {
    hide SlotSettled, Offer, SentTo;
    var r := Offer(sc, table, short, tx, isExtra);
    forall p | 0 <= p < |base|
      ensures SlotSettled(r, p, base[p], Matching(if isExtra then pool else pool + [tx], table, short, p),
                          Matching(if isExtra then extra + [tx] else extra, table, short, p))
    {
      OfferSettlesSlot(sc, table, short, base[p], Matching(pool, table, short, p), Matching(extra, table, short, p), tx,
                       isExtra, p);
      if isExtra { MatchingMore(extra, table, short, p, tx); } else { MatchingMore(pool, table, short, p, tx); }
    }
  }

  // A scan settles the slots by the transactions it looked at: all of them, unless as many
  // were found as are asked for.
  lemma {:induction false} OffersSettle(sc: Scan, table: map<nat, nat>, base: Slots, short: ShortId, pool: seq<Tx>,
                                        extra: seq<Tx>,
                                        txs: seq<Tx>, isExtra: bool) returns (n: nat)
    requires SlotsSettled(sc, table, base, short, pool, extra) && (!isExtra ==> extra == [])
    ensures n <= |txs| && (n < |txs| ==> Offers(sc, table, short, txs, isExtra).count == |table|)
    ensures SlotsSettled(Offers(sc, table, short, txs, isExtra), table, base, short,
                         if isExtra then pool else pool + txs[..n], if isExtra then extra + txs[..n] else extra)
    decreases |txs|
  {
    hide Offer, SlotsSettled;
    SettledFits(sc, table, base, short, pool, extra);
    if txs == [] {
      n := 0;
      assert pool + txs[..0] == pool && extra + txs[..0] == extra;
      return;
    }
    var next := Offer(sc, table, short, txs[0], isExtra);
    OfferSettles(sc, table, base, short, pool, extra, txs[0], isExtra);
    if next.count == |table| {
      n := 1;
      assert txs[..1] == [txs[0]];
    } else {
      var k;
      if isExtra {
        k := OffersSettle(next, table, base, short, pool, extra + [txs[0]], txs[1..], isExtra);
      } else {
        k := OffersSettle(next, table, base, short, pool + [txs[0]], extra, txs[1..], isExtra);
      }
      n := k + 1;
      assert pool + txs[..n] == pool + [txs[0]] + txs[1..][..k];
      assert extra + txs[..n] == extra + [txs[0]] + txs[1..][..k];
    }
  }

  lemma {:induction false} SettledFits(sc: Scan, table: map<nat, nat>, base: Slots, short: ShortId, pool: seq<Tx>,
                                       extra: seq<Tx>)
    requires SlotsSettled(sc, table, base, short, pool, extra)
    ensures |sc.have| == |sc.slots| && forall id :: id in table ==> table[id] < |sc.slots|
  {
  }

  lemma {:induction false} StartSettled(m: Message, short: ShortId)
    requires PrefilledOk(m, |m.prefilled|)
    ensures forall id :: id in Table(m) ==> Table(m)[id] < TxCount(m)
    ensures SlotsSettled(ScanStart(m), Table(m), Placed(m, |m.prefilled|), short, [], [])
  {
    hide Table, PrefilledOk, Placed;
    TableInRange(m);
  }

  // In every accepted message, of whatever size, a slot that transactions looked at are sent to
  // holds one exactly when it has no rival; every other slot is as it was.
  lemma {:induction false} ScanSettles(m: Message, short: ShortId, pool: seq<Tx>, extra: seq<Tx>)
    returns (n: nat, k: nat)
    requires PrefilledOk(m, |m.prefilled|)
    ensures forall id :: id in Table(m) ==> Table(m)[id] < TxCount(m)
    ensures n <= |pool| && (n < |pool| ==> Offers(ScanStart(m), Table(m), short, pool, false).count == |Table(m)|)
    ensures k <= |extra| && (k < |extra| ==> Scanned(m, short, pool, extra).count == |Table(m)|)
    ensures SlotsSettled(Scanned(m, short, pool, extra), Table(m), Placed(m, |m.prefilled|), short, pool[..n],
                         extra[..k])
  {
    hide Table, Placed, PrefilledOk, Offers, SlotsSettled;
    StartSettled(m, short);
    var base := Placed(m, |m.prefilled|);
    var start := ScanStart(m);
    n := OffersSettle(start, Table(m), base, short, [], [], pool, false);
    assert [] + pool[..n] == pool[..n];
    var mid := Offers(start, Table(m), short, pool, false);
    k := OffersSettle(mid, Table(m), base, short, pool[..n], [], extra, true);
    assert [] + extra[..k] == extra[..k];
  }

  // mempool_count is the number of slots filled beyond the prefilled.
  ghost predicate CountRight(m: Message, short: ShortId, pool: seq<Tx>, extra: seq<Tx>)
    requires PrefilledOk(m, |m.prefilled|)
  {
    TableInRange(m);
    Scanned(m, short, pool, extra).count == Filled(Scanned(m, short, pool, extra).slots) - |m.prefilled|
  }

  // Where nothing clashes slots hold what they should and the count is right.
  lemma {:induction false} ScanIsRight(m: Message, short: ShortId, pool: seq<Tx>, extra: seq<Tx>)
    requires PrefilledOk(m, |m.prefilled|) && NoClash(m)
    ensures forall id :: id in Table(m) ==> Table(m)[id] < TxCount(m)
    ensures ScanOk(Scanned(m, short, pool, extra), Table(m), Placed(m, |m.prefilled|), short)
    ensures From(Scanned(m, short, pool, extra), Table(m), pool + extra)
    ensures CountRight(m, short, pool, extra)
  {
    hide Table, Placed, PrefilledOk, Filled, Offers, NoClash;
    TableInRange(m);
    FreeUnlessClash(m);
    PlacedFilled(m, |m.prefilled|);
    var start, table, base := ScanStart(m), Table(m), Placed(m, |m.prefilled|);
    StartOk(m, short);
    OffersKeep(start, table, base, short, pool, false);
    OffersKeep(Offers(start, table, short, pool, false), table, base, short, extra, true);
    OffersFrom(start, table, short, pool, false, []);
    OffersFrom(Offers(start, table, short, pool, false), table, short, extra, true, [] + pool);
    assert [] + pool + extra == pool + extra;
  }

  lemma {:induction false} StartOk(m: Message, short: ShortId)
    requires PrefilledOk(m, |m.prefilled|) && TableFree(Table(m), Placed(m, |m.prefilled|))
    ensures ScanOk(ScanStart(m), Table(m), Placed(m, |m.prefilled|), short)
    ensures From(ScanStart(m), Table(m), [])
  {
    hide Table, Placed, PrefilledOk, Filled;
  }

  // A transaction sent to a prefilled slot takes its place and is counted all the same.
  lemma {:induction false} ClashMiscounts(m: Message, short: ShortId, tx: Tx)
    requires PrefilledOk(m, |m.prefilled|) && short(tx) in Table(m)
    requires Table(m)[short(tx)] < TxCount(m) && Placed(m, |m.prefilled|)[Table(m)[short(tx)]].Some?
    ensures !CountRight(m, short, [tx], [])
  {
    hide Table, Placed, PrefilledOk, Filled;
    TableInRange(m);
    var start, table := ScanStart(m), Table(m);
    var next := Offer(start, table, short, tx, false);
    assert [tx][1..] == [];
    assert Offers(start, table, short, [tx], false) == next;
    assert Scanned(m, short, [tx], []) == next;
    PlacedFilled(m, |m.prefilled|);
    FilledUpdate(start.slots, table[short(tx)], Some(tx));
  }

  // If every short id of the message is that of some transaction, the count is right whatever
  // is in the mempool and among the extra transactions exactly when nothing clashes.
  lemma {:induction false} CountExactly(m: Message, short: ShortId)
    requires PrefilledOk(m, |m.prefilled|) && Differ(m.shortIds)
    requires forall i :: 0 <= i < |m.shortIds| ==> exists tx :: short(tx) == m.shortIds[i]
    ensures (forall pool, extra :: CountRight(m, short, pool, extra)) <==> NoClash(m)
  {
    hide Table, PrefilledOk, Placed, CountRight;
    if NoClash(m) {
      forall pool, extra ensures CountRight(m, short, pool, extra) { ScanIsRight(m, short, pool, extra); }
    } else {
      var p :| TWO_16 <= p < TxCount(m) && Placed(m, |m.prefilled|)[Kept(p)].Some?;
      var i := IdOfSlot(m, p);
      var tx :| short(tx) == m.shortIds[i];
      ClashMiscounts(m, short, tx);
    }
  }

  // Beyond the first 65536 slots all are free, and each has a short id.
  lemma {:induction false} IdOfSlot(m: Message, p: nat) returns (i: nat)
    requires PrefilledOk(m, |m.prefilled|) && Differ(m.shortIds) && TWO_16 <= p < TxCount(m)
    ensures i < |m.shortIds| && m.shortIds[i] in Table(m) && Table(m)[m.shortIds[i]] == Kept(p)
  {
    hide Placed, FreeSlots, SlotTable, PrefilledOk, PrefilledAt;
    OneSlotPerShortId(m);
    LastPrefilled(m);
    var base := Placed(m, |m.prefilled|);
    FreeAbove(m, |m.prefilled|, p);
    FreeSlotsAll(base, 0, p);
    var free := FreeSlots(base, 0);
    i :| 0 <= i < |free| && free[i] == p;
    TableEntry(m.shortIds, free, |m.shortIds|, i);
  }

  // The message a sender makes of 65537 transactions with ids 0 to 65536.
  ghost predicate OneTooMany(m: Message) { m == Message(seq(TWO_16, i => i + 1), [Prefilled(0, Tx(0, false))]) }

  // It is accepted, and its last short id is sent to the slot of the coinbase instead of its own.
  lemma {:induction false} PairingFails(m: Message)
    requires OneTooMany(m)
    ensures PrefilledOk(m, |m.prefilled|) && Differ(m.shortIds) && |Table(m)| == |m.shortIds|
    ensures FreeSlots(Placed(m, |m.prefilled|), 0) == seq(TWO_16, i => i + 1)
    ensures m.shortIds[TWO_16 - 1] == TWO_16 && TWO_16 in Table(m) && Table(m)[TWO_16] == 0
    ensures Placed(m, |m.prefilled|)[0].Some?
  {
    hide Table;
    FirstSlotTaken(m);
    TableIsFull(m);
    LastIdAt(m);
  }

  // With that transaction in the mempool the count is one and no slot is filled.
  lemma {:induction false} CountFails(m: Message, short: ShortId)
    requires OneTooMany(m) && short(Tx(TWO_16, false)) == TWO_16
    ensures PrefilledOk(m, |m.prefilled|) && !CountRight(m, short, [Tx(TWO_16, false)], [])
  {
    hide Table, CountRight, Placed, PrefilledOk, OneTooMany;
    PairingFails(m);
    TableInRange(m);
    ClashMiscounts(m, short, Tx(TWO_16, false));
  }

  lemma {:induction false} FirstSlotTaken(m: Message)
    requires OneTooMany(m)
    ensures PrefilledOk(m, 1) && Placed(m, 1)[0].Some?
    ensures FreeSlots(Placed(m, 1), 0) == seq(TWO_16, i => i + 1)
  {
    assert PrefilledAt(m.prefilled, 1) == 0;
    var s := Placed(m, 1);
    assert s == Placed(m, 0)[0 := Some(Tx(0, false))];
    FreeRange(s, 1);
  }

  lemma {:induction false} LastIdAt(m: Message)
    requires m.shortIds == seq(TWO_16, i => i + 1) && |m.prefilled| == 1 && PrefilledOk(m, 1)
    requires FreeSlots(Placed(m, 1), 0) == seq(TWO_16, i => i + 1)
    ensures TWO_16 in Table(m) && Table(m)[TWO_16] == 0
  {
    hide Placed, PrefilledOk, FreeSlots, SlotTable;
    var free := FreeSlots(Placed(m, 1), 0);
    assert m.shortIds[TWO_16 - 1] == TWO_16 == free[TWO_16 - 1];
    TableEntry(m.shortIds, free, TWO_16, TWO_16 - 1);
  }

  // What the slots of the table hold is one of the given transactions.
  ghost predicate From(sc: Scan, table: map<nat, nat>, txs: seq<Tx>) {
    forall id :: id in table && table[id] < |sc.slots| && sc.slots[table[id]].Some? ==> sc.slots[table[id]].value in txs
  }

  lemma {:induction false} OffersFrom(sc: Scan, table: map<nat, nat>, short: ShortId, txs: seq<Tx>, isExtra: bool,
                                      before: seq<Tx>)
    requires |sc.have| == |sc.slots| && forall id :: id in table ==> table[id] < |sc.slots|
    requires From(sc, table, before)
    ensures From(Offers(sc, table, short, txs, isExtra), table, before + txs)
    decreases |txs|
  {
    if txs == [] {
      assert before + txs == before;
    } else {
      var next := Offer(sc, table, short, txs[0], isExtra);
      OffersFrom(next, table, short, txs[1..], isExtra, before + [txs[0]]);
      assert before + [txs[0]] + txs[1..] == before + txs;
    }
  }

  // Without short-id collisions, the missing transactions in order rebuild the block.
  lemma {:induction false} Reconstructs(vtx: seq<Tx>, short: ShortId, pool: seq<Tx>, extra: seq<Tx>)
    requires vtx != [] && !vtx[0].isNull && |vtx| <= TWO_16 && Differ(Announce(vtx, short).shortIds)
    requires NoForeign(pool + extra, vtx, short)
    ensures var m := Announce(vtx, short);
      && PrefilledOk(m, 1) && |Table(m)| == |m.shortIds| && (forall id :: id in Table(m) ==> Table(m)[id] < TxCount(m))
      && var s := Scanned(m, short, pool, extra).slots;
         Agrees(s, vtx) && Fill(s, MissingOf(s, vtx)) == Some(vtx)
  {
    hide Table, Placed, PrefilledOk, Offers, FreeSlots, Scanned, Fill, MissingOf, SlotTable;
    var m := Announce(vtx, short);
    AnnounceAccepted(vtx, short);
    TableIsFull(m);
    IdsPairWithSlots(m);
    SmallHasNoClash(m);
    ScanIsRight(m, short, pool, extra);
    var sc := Scanned(m, short, pool, extra);
    var table := Table(m);
    forall i | 0 <= i < |vtx| ensures sc.slots[i].None? || sc.slots[i].value == vtx[i] {
      if i > 0 {
        var id := m.shortIds[i - 1];
        assert id == short(vtx[i]) && table[id] == i;
        if sc.slots[i].Some? {
          assert table[id] in table.Values && sc.slots[table[id]].value in pool + extra;
          assert SentTo(table, short, sc.slots[i].value, i);
        }
      }
    }
    FillRebuilds(sc.slots, vtx);
  }

  lemma {:induction false} TableIsFull(m: Message)
    requires PrefilledOk(m, |m.prefilled|)
    ensures |Table(m)| == |m.shortIds| <==> Differ(m.shortIds)
  {
    OneSlotPerShortId(m);
    assert m.shortIds[..|m.shortIds|] == m.shortIds;
    TableFull(m.shortIds, FreeSlots(Placed(m, |m.prefilled|), 0), |m.shortIds|);
  }

  /* ---- differential indexes of a request ---- */

  // Each index counts from the one before.
  function Diff(indexes: seq<nat>): seq<int> {
    seq(|indexes|, i requires 0 <= i < |indexes| => indexes[i] as int - if i == 0 then 0 else indexes[i - 1] + 1)
  }

  ghost predicate Increasing(indexes: seq<nat>) { forall i, j :: 0 <= i < j < |indexes| ==> indexes[i] < indexes[j] }

  // Reads differences back; fails where an index does not fit 16 bits.
  function Undiff(diffs: seq<int>, k: nat): Option<seq<nat>>
    requires k <= |diffs|
  {
    if k == 0 then Some([])
    else
      match Undiff(diffs, k - 1)
      case None => None
      case Some(r) =>
        var offset := if r == [] then 0 else (r[|r| - 1] + 1) % TWO_16;
        if diffs[k - 1] < 0 || diffs[k - 1] > MAX_UINT16 || diffs[k - 1] + offset > MAX_UINT16 then None
        else Some(r + [diffs[k - 1] + offset])
  }

  lemma {:induction false} UndiffStep(diffs: seq<int>, k: nat)
    requires k <= |diffs|
    ensures k == 0 ==> Undiff(diffs, k) == Some([])
    ensures k > 0 && Undiff(diffs, k - 1).Some? ==>
      var r := Undiff(diffs, k - 1).value;
      var offset := if r == [] then 0 else (r[|r| - 1] + 1) % TWO_16;
      0 <= diffs[k - 1] <= MAX_UINT16 && diffs[k - 1] + offset <= MAX_UINT16 ==>
      Undiff(diffs, k) == Some(r + [diffs[k - 1] + offset])
  {
  }

  lemma {:induction false} Before(indexes: seq<nat>, k: nat)
    requires Increasing(indexes) && 0 < k < |indexes|
    ensures indexes[k - 1] < indexes[k]
  {
  }

  // Increasing 16-bit indexes survive the round trip.
  lemma {:induction false} DiffRoundTrip(indexes: seq<nat>, k: nat)
    requires k <= |indexes| && Increasing(indexes) && forall i :: 0 <= i < |indexes| ==> indexes[i] <= MAX_UINT16
    ensures Undiff(Diff(indexes), k) == Some(indexes[..k])
    decreases k
  {
    hide Undiff, Increasing;
    UndiffStep(Diff(indexes), k);
    if k > 0 {
      DiffRoundTrip(indexes, k - 1);
      if k > 1 { Before(indexes, k - 1); }
      assert indexes[..k] == indexes[..k - 1] + [indexes[k - 1]];
    }
  }
}
