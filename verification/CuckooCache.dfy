/** The cuckoo cache as it is kept: a table, bit-packed collection flags and epoch flags,
    updated in place. */
module CuckooCache {
  import opened Options
  import opened Bits
  import opened Cuckoo
  import opened Scaling

  /* ---- collection flags ---- */

  class BitPackedFlags {
    const mem: array<bv8>

    predicate IsSet(s: nat)
      requires s < 8 * mem.Length
      reads mem
    {
      Bit(mem[s / 8], s % 8)
    }

    // Room for at least `size` flags, all set.
    constructor (size: nat)
      ensures fresh(mem) && size <= 8 * mem.Length < size + 8
      ensures forall s :: 0 <= s < 8 * mem.Length ==> IsSet(s)
    {
      mem := new bv8[(size + 7) / 8](_ => 0xFF);
      new;
      forall s | 0 <= s < 8 * mem.Length ensures IsSet(s) { AllBits(s % 8); }
    }

    method BitSet(s: nat)
      requires s < 8 * mem.Length
      modifies mem
      ensures forall i :: 0 <= i < 8 * mem.Length ==> (IsSet(i) <==> i == s || old(IsSet(i)))
    {
      mem[s / 8] := mem[s / 8] | (1 << (s % 8));
      forall i | 0 <= i < 8 * mem.Length ensures IsSet(i) <==> i == s || old(IsSet(i)) {
        if i / 8 == s / 8 { OrBit(old(mem[s / 8]), s % 8, i % 8); }
      }
    }

    method BitUnset(s: nat)
      requires s < 8 * mem.Length
      modifies mem
      ensures forall i :: 0 <= i < 8 * mem.Length ==> (IsSet(i) <==> i != s && old(IsSet(i)))
    {
      mem[s / 8] := mem[s / 8] & !(1 << (s % 8));
      forall i | 0 <= i < 8 * mem.Length ensures IsSet(i) <==> i != s && old(IsSet(i)) {
        if i / 8 == s / 8 { AndNotBit(old(mem[s / 8]), s % 8, i % 8); }
      }
    }
  }

  /* ---- the cache ---- */

  class CuckooCache {
    const hash: Hash
    const table: array<Element>
    const flags: BitPackedFlags
    const epochFlags: array<bool>
    var counter: nat
    const epochSize: nat
    const depthLimit: nat

    ghost predicate Shaped()
    {
      && table.Length >= 2 && epochFlags.Length == table.Length && table.Length <= 8 * flags.mem.Length
      && epochSize >= 1 && depthLimit >= 1
      && (table as object) != epochFlags && (table as object) != flags.mem && (epochFlags as object) != flags.mem
    }

    ghost function Slots(): (r: seq<Slot>)
      requires Shaped()
      reads table, epochFlags, flags.mem
      ensures |r| == table.Length
      ensures forall i :: 0 <= i < |r| ==> r[i] == Slot(table[i], flags.IsSet(i), epochFlags[i])
    {
      seq(table.Length, i requires 0 <= i < table.Length reads table, epochFlags, flags.mem requires Shaped() =>
        Slot(table[i], flags.IsSet(i), epochFlags[i]))
    }

    ghost function Abs(): Cache
      requires Shaped()
      reads this, table, epochFlags, flags.mem
    {
      Cache(hash, Slots(), counter, epochSize, depthLimit)
    }

    // setup; the depth limit, the logarithm of the size, is a parameter.
    constructor (hash: Hash, newSize: nat, depthLimit: nat, blank: Element)
      requires depthLimit >= 1
      ensures Shaped() && fresh(table) && fresh(epochFlags) && fresh(flags) && fresh(flags.mem)
      ensures Abs() == Setup(hash, newSize, depthLimit, blank)
    {
      var size := if newSize < 2 then 2 else newSize;
      this.hash := hash;
      this.depthLimit := depthLimit;
      table := new Element[size](_ => blank);
      var f := new BitPackedFlags(size);
      flags := f;
      epochFlags := new bool[size](_ => false);
      var e := 45 * size % TWO_32 / 100;
      if e < 1 { e := 1; }
      epochSize := e;
      counter := e;
    }

    // Index of the first place that holds the element, or 8.
    method Find(locs: seq<nat>, e: Element) returns (k: nat)
      requires Shaped() && |locs| == 8 && forall i :: 0 <= i < 8 ==> locs[i] < table.Length
      ensures k == Holding(Slots(), locs, e, 0)
    {
      k := 0;
      while k < 8
        invariant 0 <= k <= 8 && Holding(Slots(), locs, e, 0) == Holding(Slots(), locs, e, k)
      {
        if table[locs[k]] == e { return; }
        k := k + 1;
      }
    }

    method FindOpen(locs: seq<nat>) returns (k: nat)
      requires Shaped() && |locs| == 8 && forall i :: 0 <= i < 8 ==> locs[i] < table.Length
      ensures k == Open(Slots(), locs, 0)
    {
      k := 0;
      while k < 8
        invariant 0 <= k <= 8 && Open(Slots(), locs, 0) == Open(Slots(), locs, k)
      {
        if flags.IsSet(locs[k]) { return; }
        k := k + 1;
      }
    }

    method AllowErase(n: nat)
      requires Shaped() && n < table.Length
      modifies flags.mem
      ensures Slots() == old(Slots())[n := old(Slots())[n].(discard := true)]
    {
      hide Slots, BitPackedFlags.IsSet;
      ghost var was := Slots();
      flags.BitSet(n);
      assert Slots() == was[n := was[n].(discard := true)];
    }

    method PleaseKeep(n: nat)
      requires Shaped() && n < table.Length
      modifies flags.mem
      ensures Slots() == old(Slots())[n := old(Slots())[n].(discard := false)]
    {
      hide Slots, BitPackedFlags.IsSet;
      ghost var was := Slots();
      flags.BitUnset(n);
      assert Slots() == was[n := was[n].(discard := false)];
    }

    method SetEpoch(n: nat, epoch: bool)
      requires Shaped() && n < table.Length
      modifies epochFlags
      ensures Slots() == old(Slots())[n := old(Slots())[n].(epoch := epoch)]
    {
      hide Slots, BitPackedFlags.IsSet;
      ghost var was := Slots();
      epochFlags[n] := epoch;
      assert Slots() == was[n := was[n].(epoch := epoch)];
    }

    method SetElement(n: nat, e: Element)
      requires Shaped() && n < table.Length
      modifies table
      ensures Slots() == old(Slots())[n := old(Slots())[n].(element := e)]
    {
      hide Slots, BitPackedFlags.IsSet;
      ghost var was := Slots();
      table[n] := e;
      assert Slots() == was[n := was[n].(element := e)];
    }

    method Contains(e: Element, erase: bool) returns (found: bool)
      requires Shaped()
      modifies flags.mem
      ensures (Abs(), found) == Cuckoo.Contains(old(Abs()), e, erase)
    {
      hide Slots, Locs;
      var locs := Locs(hash, table.Length, e);
      var k := Find(locs, e);
      if k == 8 { return false; }
      if erase { AllowErase(locs[k]); }
      found := true;
    }

    method EpochCheck()
      requires Shaped()
      modifies this`counter, epochFlags, flags.mem
      ensures Abs() == Cuckoo.EpochCheck(old(Abs()))
    {
      hide Slots;
      if counter != 0 {
        counter := counter - 1;
        return;
      }
      var unused := CountRecent();
      if unused >= epochSize {
        Age();
        counter := epochSize;
      } else {
        counter := Max(1, Max(epochSize / 16, epochSize - unused));
      }
    }

    method CountRecent() returns (unused: nat)
      requires Shaped()
      ensures unused == Count(Recent, Slots())
    {
      hide BitPackedFlags.IsSet, Count;
      unused := 0;
      CountNone(Recent, Slots());
      for i := 0 to table.Length
        invariant unused == Count(Recent, Slots()[..i])
      {
        CountNext(Recent, Slots(), i);
        if epochFlags[i] && !flags.IsSet(i) { unused := unused + 1; }
      }
      assert Slots()[..table.Length] == Slots();
    }

    method Age()
      requires Shaped()
      modifies epochFlags, flags.mem
      ensures Slots() == Aged(old(Slots()))
    {
      hide BitPackedFlags.IsSet;
      ghost var was := Slots();
      for i := 0 to table.Length
        invariant forall j :: 0 <= j < table.Length ==> Slots()[j] == if j < i then Aged(was)[j] else was[j]
      {
        assert Slots()[i] == was[i];
        if epochFlags[i] { SetEpoch(i, false); } else { AllowErase(i); }
      }
    }

    method Insert(e0: Element) returns (lost: Option<Element>)
      requires Shaped()
      modifies this`counter, table, epochFlags, flags.mem
      ensures (Abs(), lost) == Cuckoo.Insert(old(Abs()), e0)
    {
      hide Slots, Locs, Holding, Open, IndexOf;
      EpochCheck();
      var locs := Locs(hash, table.Length, e0);
      var k := Find(locs, e0);
      if k < 8 {
        ghost var was := Slots();
        PleaseKeep(locs[k]);
        SetEpoch(locs[k], true);
        assert Slots() == was[locs[k] := Slot(e0, false, true)];
        return None;
      }
      lost := PlaceOrKick(e0, locs);
    }

    method PlaceOrKick(e0: Element, locs0: seq<nat>) returns (lost: Option<Element>)
      requires Shaped() && locs0 == Locs(hash, table.Length, e0)
      modifies table, epochFlags, flags.mem
      ensures var r := Kick(hash, old(Slots()), e0, true, INVALID, depthLimit); Slots() == r.slots && lost == r.lost
    {
      hide Slots, Locs, IndexOf, Kick, Open;
      ghost var was := Slots();
      var e, lastLoc, lastEpoch, locs := e0, INVALID, true, locs0;
      for depth := 0 to depthLimit
        invariant Slots() != [] && locs == Locs(hash, table.Length, e)
        invariant Kick(hash, was, e0, true, INVALID, depthLimit)
             == Kick(hash, Slots(), e, lastEpoch, lastLoc, depthLimit - depth)
      {
        KickStep(hash, Slots(), e, lastEpoch, lastLoc, depthLimit - depth);
        var k := FindOpen(locs);
        if k < 8 {
          Store(locs[k], e, lastEpoch);
          return None;
        }
        lastLoc := NextLoc(locs, lastLoc);
        e, lastEpoch := Swap(lastLoc, e, lastEpoch);
        locs := Locs(hash, table.Length, e);
      }
      KickStep(hash, Slots(), e, lastEpoch, lastLoc, 0);
      lost := Some(e);
    }

    method Store(loc: nat, e: Element, epoch: bool)
      requires Shaped() && loc < table.Length
      modifies table, epochFlags, flags.mem
      ensures Slots() == old(Slots())[loc := Slot(e, false, epoch)]
    {
      hide Slots, BitPackedFlags.IsSet;
      ghost var was := Slots();
      SetElement(loc, e);
      PleaseKeep(loc);
      SetEpoch(loc, epoch);
      assert Slots() == was[loc := Slot(e, false, epoch)];
    }

    // Swaps an element and its epoch with those of a slot.
    method Swap(loc: nat, e: Element, epoch: bool) returns (evicted: Element, evictedEpoch: bool)
      requires Shaped() && loc < table.Length
      modifies table, epochFlags
      ensures Slots() == old(Slots())[loc := Slot(e, old(Slots())[loc].discard, epoch)]
      ensures evicted == old(Slots())[loc].element && evictedEpoch == old(Slots())[loc].epoch
    {
      hide Slots, BitPackedFlags.IsSet;
      ghost var was := Slots();
      evicted, evictedEpoch := table[loc], epochFlags[loc];
      SetElement(loc, e);
      SetEpoch(loc, epoch);
      assert Slots() == was[loc := Slot(e, was[loc].discard, epoch)];
    }
  }

  lemma {:induction false} KickStep(hash: Hash, slots: seq<Slot>, e: Element, epoch: bool, last: nat, depth: nat)
    requires slots != []
    ensures depth == 0 ==> Kick(hash, slots, e, epoch, last, depth) == Kicked(slots, Some(e), epoch)
    ensures depth > 0 ==>
      var locs := Locs(hash, |slots|, e);
      var k := Open(slots, locs, 0);
      var l := NextLoc(locs, last);
      Kick(hash, slots, e, epoch, last, depth)
      == if k < 8 then Kicked(slots[locs[k] := Slot(e, false, epoch)], None, false)
         else Kick(hash, slots[l := Slot(e, slots[l].discard, epoch)], slots[l].element, slots[l].epoch, l, depth - 1)
  {
    hide Locs, IndexOf, Open;
  }

  lemma {:induction false} CountNone(f: Slot -> bool, slots: seq<Slot>)
    ensures Count(f, slots[..0]) == 0
  {
  }

  lemma {:induction false} CountNext(f: Slot -> bool, slots: seq<Slot>, i: nat)
    requires i < |slots|
    ensures Count(f, slots[..i + 1]) == Count(f, slots[..i]) + if f(slots[i]) then 1 else 0
  {
    if i == 0 {
      assert slots[..1] == [slots[0]];
    } else {
      assert slots[..i + 1][1..] == slots[1..][..i] && slots[..i][1..] == slots[1..][..i - 1];
      CountNext(f, slots[1..], i - 1);
    }
  }
}
