/** The partially downloaded block: taking in a compact block message and completing the
    block with the transactions asked for. */
module PartialBlock {
  import opened Options
  import opened CompactBlocks

  // ENDLESS stands for a call that does not return.
  datatype Status = OK | INVALID | FAILED | CHECKBLOCK_FAILED | ENDLESS

  datatype Mapping = Endless | Crowded | Mapped(table: map<nat, nat>)

  // With slots left, the scan is within the block and either passes a filled slot or is
  // at the first of them.
  lemma {:induction false} NextFree(s: Slots, at: nat, free: seq<nat>)
    requires at <= |s| && free != []
    ensures at < |s| && s[at].None? && FreeSlots(s, at) == free ==> free[0] == at && FreeSlots(s, at + 1) == free[1..]
    ensures at < |s| && s[at].Some? ==> FreeSlots(s, at) == FreeSlots(s, at + 1)
    ensures FreeSlots(s, at) == free ==> at < |s|
    ensures at > 0 && s[at - 1].Some? ==> FreeSlots(s, at - 1) == FreeSlots(s, at)
  {
  }

  lemma {:induction false} NoIds(ids: seq<nat>, free: seq<nat>)
    requires |ids| == |free|
    ensures SlotTable(ids, free, 0) == map[]
  {
  }

  lemma {:induction false} OneMoreId(ids: seq<nat>, free: seq<nat>, k: nat)
    requires k < |ids| == |free|
    ensures SlotTable(ids, free, k + 1) == SlotTable(ids, free, k)[ids[k] := Kept(free[k])]
  {
  }

  // Prefilled positions have 16 bits.
  lemma {:induction false} BelowTwo16(m: Message, p: nat)
    requires PrefilledOk(m, |m.prefilled|) && p < TxCount(m) && Placed(m, |m.prefilled|)[p].Some?
    ensures p < TWO_16
  {
    hide Placed, PrefilledOk, PrefilledAt;
    LastPrefilled(m);
    if p >= TWO_16 { FreeAbove(m, |m.prefilled|, p); }
  }

  ghost predicate AllFilled(s: Slots, from: nat, to: nat) {
    to <= |s| && forall p :: from <= p < to ==> s[p].Some?
  }

  lemma {:induction false} GoesRound(s: Slots)
    requires AllFilled(s, 0, TWO_16)
    ensures !SearchEnds(s, 0, 0)
  {
    forall n: nat ensures !FreeStep(s, 0, 0, n) { assert s[LooksAt(0, 0, n)].Some?; }
  }

  // Past the first short id the search comes upon a free slot before the offset wraps.
  lemma {:induction false} LaterSearchEnds(m: Message, at: nat, offset: nat)
    requires PrefilledOk(m, |m.prefilled|) && 0 < at && offset < TWO_16 && at + offset <= TxCount(m)
    requires FreeSlots(Placed(m, |m.prefilled|), at + offset) != []
    ensures SearchEnds(Placed(m, |m.prefilled|), at, offset)
  {
    hide Placed, PrefilledOk, PrefilledAt, FreeSlots;
    var s := Placed(m, |m.prefilled|);
    if at + MAX_UINT16 < |s| {
      if s[at + MAX_UINT16].Some? { BelowTwo16(m, at + MAX_UINT16); }
      assert FreeStep(s, at, offset, MAX_UINT16 - offset);
    } else {
      var f := FreeSlots(s, at + offset)[0];
      assert FreeStep(s, at, offset, f - at - offset);
    }
  }

  function Prepend(a: seq<Tx>, b: Option<seq<Tx>>): Option<seq<Tx>> { if b.None? then None else Some(a + b.value) }

  class PartiallyDownloadedBlock {
    var headerIsNull: bool
    var txnAvailable: Slots
    var prefilledCount: nat
    var mempoolCount: int

    constructor ()
      ensures headerIsNull && txnAvailable == [] && mempoolCount == 0 && prefilledCount == 0
    {
      headerIsNull, txnAvailable, prefilledCount, mempoolCount := true, [], 0, 0;
    }

    // The message is invalid, or its ids collide or crowd one bucket, or it is taken in.
    method InitData(m: Message, nullHeader: bool, cap: nat, short: ShortId, pool: seq<Tx>, extra: seq<Tx>)
      returns (status: Status)
      requires headerIsNull && txnAvailable == [] && mempoolCount == 0
      modifies this
      ensures status == INVALID <==>
        nullHeader || TxCount(m) == 0 || TxCount(m) > cap || !PrefilledOk(m, |m.prefilled|)
      ensures status == ENDLESS <==>
        && !(nullHeader || TxCount(m) == 0 || TxCount(m) > cap) && PrefilledOk(m, |m.prefilled|)
        && m.shortIds != [] && !SearchEnds(Placed(m, |m.prefilled|), 0, 0)
      ensures status == OK ==>
        && PrefilledOk(m, |m.prefilled|) && |Table(m)| == |m.shortIds| && !headerIsNull
        && (forall id :: id in Table(m) ==> Table(m)[id] < TxCount(m))
        && Scanned(m, short, pool, extra).slots == txnAvailable && Scanned(m, short, pool, extra).count == mempoolCount
        && prefilledCount == |m.prefilled|
      ensures nullHeader || TxCount(m) == 0 || TxCount(m) > cap ==>
        headerIsNull && txnAvailable == [] && mempoolCount == 0 && prefilledCount == old(prefilledCount)
      ensures status == INVALID && !(nullHeader || TxCount(m) == 0 || TxCount(m) > cap) ==>
        && !headerIsNull && mempoolCount == 0 && prefilledCount == old(prefilledCount)
        && exists i :: 0 <= i < |m.prefilled| && StoppedAt(m, i) && txnAvailable == Placed(m, i)
      ensures status == FAILED || status == ENDLESS ==>
        && PrefilledOk(m, |m.prefilled|) && !headerIsNull && mempoolCount == 0
        && prefilledCount == |m.prefilled| && txnAvailable == Placed(m, |m.prefilled|)
      ensures status != CHECKBLOCK_FAILED
    {
      hide PrefilledOk, Placed, SearchEnds, Table, Scanned, Offers, ScanStart, FreeSlots, SlotTable, PrefilledAt;
      if nullHeader || (|m.shortIds| == 0 && |m.prefilled| == 0) { return INVALID; }
      if |m.shortIds| + |m.prefilled| > cap { return INVALID; }
      headerIsNull := false;
      var good, stop := PlacePrefilled(m);
      if !good { return INVALID; }
      prefilledCount := |m.prefilled|;
      TableInRange(m);
      var mapping := MapShortIds(m);
      if mapping.Endless? { return ENDLESS; }
      if mapping.Crowded? { return FAILED; }
      var table := mapping.table;
      if |table| != |m.shortIds| { return FAILED; }
      Start(m);
      var have := seq(|txnAvailable|, _ => false);
      have := OfferAll(table, short, pool, false, have);
      have := OfferAll(table, short, extra, true, have);
      ScannedIs(m, short, pool, extra);
      status := OK;
    }

    // Puts the prefilled transactions in, if all are acceptable.
    method PlacePrefilled(m: Message) returns (good: bool, ghost stop: nat)
      modifies this`txnAvailable
      ensures good <==> PrefilledOk(m, |m.prefilled|)
      ensures good ==> txnAvailable == Placed(m, |m.prefilled|)
      ensures !good ==> stop < |m.prefilled| && StoppedAt(m, stop) && txnAvailable == Placed(m, stop)
    {
      txnAvailable := seq(TxCount(m), _ => None);
      var last := -1;
      for i := 0 to |m.prefilled|
        invariant PrefilledOk(m, i) && txnAvailable == Placed(m, i) && last == PrefilledAt(m.prefilled, i)
      {
        assert PrefilledAt(m.prefilled, i + 1) == last + m.prefilled[i].index + 1;
        assert PrefilledOk(m, |m.prefilled|) ==> AcceptedAt(m, i);
        if m.prefilled[i].tx.isNull { return false, i; }
        last := last + m.prefilled[i].index + 1;
        if last > MAX_UINT16 { return false, i; }
        if last > |m.shortIds| + i { return false, i; }
        txnAvailable := txnAvailable[last := Some(m.prefilled[i].tx)];
      }
      good, stop := true, |m.prefilled|;
    }

    // Looks for a slot that is not prefilled. The offset wraps at 16 bits: when it comes back to
    // where it began every slot looked at was filled, and the search goes round for ever.
    method NextSlot(m: Message, at: nat, from: nat) returns (ended: bool, offset: nat)
      requires PrefilledOk(m, |m.prefilled|) && txnAvailable == Placed(m, |m.prefilled|)
      requires from < TWO_16 && (at == 0 ==> from == 0)
      requires at + from <= |txnAvailable| && FreeSlots(txnAvailable, at + from) != []
      ensures ended <==> SearchEnds(txnAvailable, at, from)
      ensures ended ==> from <= offset < TWO_16 && at + offset < |txnAvailable| && txnAvailable[at + offset].None?
      ensures ended ==> FreeSlots(txnAvailable, at + offset) == FreeSlots(txnAvailable, at + from)
    {
      hide Placed, PrefilledOk, FreeSlots, PrefilledAt;
      ghost var free := FreeSlots(txnAvailable, at + from);
      NextFree(txnAvailable, at + from, free);
      offset := from;
      var turns := 0;
      while txnAvailable[at + offset].Some?
        invariant turns < TWO_16 && offset == from + turns < TWO_16 && at + offset < |txnAvailable|
        invariant FreeSlots(txnAvailable, at + offset) == free
        invariant AllFilled(txnAvailable, at + from, at + offset)
        decreases TWO_16 - turns
      {
        BelowTwo16(m, at + offset);
        NextFree(txnAvailable, at + offset + 1, free);
        offset := (offset + 1) % TWO_16;
        turns := turns + 1;
        if turns == TWO_16 {
          GoesRound(txnAvailable);
          return false, offset;
        }
      }
      assert FreeStep(txnAvailable, at, from, turns);
      ended := true;
    }

    // Goes through the short ids and the free slots side by side.
    method MapShortIds(m: Message) returns (r: Mapping)
      requires PrefilledOk(m, |m.prefilled|) && txnAvailable == Placed(m, |m.prefilled|)
      ensures r.Endless? <==> m.shortIds != [] && !SearchEnds(txnAvailable, 0, 0)
      ensures r.Mapped? ==> r.table == Table(m)
    {
      hide Placed, PrefilledOk, FreeSlots, SlotTable, SearchEnds;
      OneSlotPerShortId(m);
      ghost var free := FreeSlots(txnAvailable, 0);
      assert free[0..] == free;
      var table: map<nat, nat> := map[];
      NoIds(m.shortIds, free);
      var offset := 0;
      for i := 0 to |m.shortIds|
        invariant 0 <= offset < TWO_16 && i + offset <= |txnAvailable| && (i == 0 ==> offset == 0)
        invariant i > 0 ==> SearchEnds(txnAvailable, 0, 0)
        invariant FreeSlots(txnAvailable, i + offset) == free[i..]
        invariant table == SlotTable(m.shortIds, free, i)
      {
        if i > 0 { LaterSearchEnds(m, i, offset); }
        var ended;
        var o;
        ended, o := NextSlot(m, i, offset);
        if !ended { return Endless; }
        offset := o;
        NextFree(txnAvailable, i + offset, free[i..]);
        assert free[i..][0] == free[i] && free[i..][1..] == free[i + 1..];
        OneMoreId(m.shortIds, free, i);
        table := table[m.shortIds[i] := (i + offset) % TWO_16];
        var tooMany: bool := *;
        if tooMany { return Crowded; }
      }
      r := Mapped(table);
    }

    method OfferAll(table: map<nat, nat>, short: ShortId, txs: seq<Tx>, isExtra: bool, have0: seq<bool>)
      returns (have: seq<bool>)
      requires |have0| == |txnAvailable| && forall id :: id in table ==> table[id] < |txnAvailable|
      modifies this`txnAvailable, this`mempoolCount
      ensures Scan(txnAvailable, have, mempoolCount)
           == Offers(old(Scan(txnAvailable, have0, mempoolCount)), table, short, txs, isExtra)
    {
      hide Offer;
      have := have0;
      ghost var start := Scan(txnAvailable, have, mempoolCount);
      for i := 0 to |txs|
        invariant |have| == |txnAvailable| == |start.slots|
        invariant Offers(start, table, short, txs, isExtra)
             == Offers(Scan(txnAvailable, have, mempoolCount), table, short, txs[i..], isExtra)
      {
        assert txs[i..][0] == txs[i] && txs[i..][1..] == txs[i + 1..];
        have := OfferOne(table, short, txs[i], isExtra, have);
        if mempoolCount == |table| { return; }
      }
    }

    method OfferOne(table: map<nat, nat>, short: ShortId, tx: Tx, isExtra: bool, have0: seq<bool>)
      returns (have: seq<bool>)
      requires |have0| == |txnAvailable| && forall id :: id in table ==> table[id] < |txnAvailable|
      modifies this`txnAvailable, this`mempoolCount
      ensures Scan(txnAvailable, have, mempoolCount)
           == Offer(old(Scan(txnAvailable, have0, mempoolCount)), table, short, tx, isExtra)
    {
      have := have0;
      var shortid := short(tx);
      if shortid in table {
        var p := table[shortid];
        if !have[p] {
          txnAvailable := txnAvailable[p := Some(tx)];
          have := have[p := true];
          mempoolCount := mempoolCount + 1;
        } else if txnAvailable[p].Some? && (!isExtra || txnAvailable[p].value != tx) {
          txnAvailable := txnAvailable[p := None];
          mempoolCount := mempoolCount - 1;
        }
      }
    }

    // The block with the missing transactions in order; too few or too many are invalid.
    method FillBlock(missing: seq<Tx>, check: seq<Tx> -> Status) returns (status: Status, vtx: seq<Tx>)
      requires !headerIsNull
      modifies this
      ensures Fill(old(txnAvailable), missing).None? ==> status == INVALID
      ensures Fill(old(txnAvailable), missing).Some? ==>
        && vtx == Fill(old(txnAvailable), missing).value && status == check(vtx)
        && headerIsNull && txnAvailable == []
      ensures var free := |old(txnAvailable)| - Filled(old(txnAvailable));
        if |missing| < free then !headerIsNull else headerIsNull && txnAvailable == []
    {
      ghost var s := txnAvailable;
      vtx := [];
      var offset := 0;
      assert s[0..] == s && missing[0..] == missing;
      assert Fill(s, missing).Some? ==> [] + Fill(s, missing).value == Fill(s, missing).value;
      for i := 0 to |txnAvailable|
        invariant |txnAvailable| == |s| && txnAvailable[i..] == s[i..] && offset <= |missing|
        invariant !headerIsNull
        invariant Fill(s, missing) == Prepend(vtx, Fill(s[i..], missing[offset..]))
        invariant |s| - Filled(s) == offset + |s[i..]| - Filled(s[i..])
      {
        assert s[i..][0] == s[i] == txnAvailable[i..][0] && s[i..][1..] == s[i + 1..];
        if txnAvailable[i].None? {
          if |missing| <= offset {
            FilledAtMost(s[i + 1..]);
            return INVALID, vtx;
          }
          assert missing[offset..][0] == missing[offset] && missing[offset..][1..] == missing[offset + 1..];
          FillNext(vtx, missing[offset], Fill(s[i + 1..], missing[offset + 1..]));
          vtx := vtx + [missing[offset]];
          offset := offset + 1;
        } else {
          FillNext(vtx, txnAvailable[i].value, Fill(s[i + 1..], missing[offset..]));
          vtx := vtx + [txnAvailable[i].value];
          txnAvailable := txnAvailable[i := None];
        }
        assert txnAvailable[i + 1..] == s[i..][1..];
      }
      headerIsNull := true;
      txnAvailable := [];
      if |missing| != offset { return INVALID, vtx; }
      assert missing[offset..] == [];
      status := check(vtx);
    }
  }

  lemma {:induction false} FillNext(a: seq<Tx>, x: Tx, rest: Option<seq<Tx>>)
    ensures Prepend(a, if rest.None? then None else Some([x] + rest.value)) == Prepend(a + [x], rest)
  {
    if rest.Some? { assert a + ([x] + rest.value) == a + [x] + rest.value; }
  }

  lemma {:induction false} Start(m: Message)
    requires PrefilledOk(m, |m.prefilled|)
    ensures ScanStart(m) == Scan(Placed(m, |m.prefilled|), seq(TxCount(m), _ => false), 0)
  {
  }

  lemma {:induction false} ScannedIs(m: Message, short: ShortId, pool: seq<Tx>, extra: seq<Tx>)
    requires PrefilledOk(m, |m.prefilled|) && forall id :: id in Table(m) ==> Table(m)[id] < TxCount(m)
    ensures Scanned(m, short, pool, extra)
         == Offers(Offers(ScanStart(m), Table(m), short, pool, false), Table(m), short, extra, true)
  {
  }
}
