/** The cuckoo cache of signature checks: eight places per element, erased lazily, aged in
    epochs. Slots are values here; CuckooCache has them as arrays updated in place. */
module Cuckoo {
  import opened Options
  import opened Scaling

  datatype Element = Element(v: nat)

  // What the slot holds, whether that may be overwritten, and whether it is recent.
  datatype Slot = Slot(element: Element, discard: bool, epoch: bool)

  const INVALID: nat := TWO_32 - 1

  type Hash = h: (nat, Element) -> nat | (forall k, e :: h(k, e) < TWO_32) witness (k, e) => 0

  // The eight places of an element: each hash scaled to the table size.
  function Place(hash: Hash, size: nat, e: Element, k: nat): (r: nat)
    requires 0 < size
    ensures r < size
  {
    Scaled(hash(k, e), size)
  }

  function Locs(hash: Hash, size: nat, e: Element): (r: seq<nat>)
    requires 0 < size
    ensures |r| == 8 && forall k :: 0 <= k < 8 ==> r[k] < size
  {
    seq(8, k requires 0 <= k < 8 => Place(hash, size, e, k))
  }

  /* ---- searching the places ---- */

  // Index of the first place that holds the element, or 8.
  function Holding(slots: seq<Slot>, locs: seq<nat>, e: Element, k: nat): (r: nat)
    requires |locs| == 8 && k <= 8 && forall i :: 0 <= i < 8 ==> locs[i] < |slots|
    ensures k <= r <= 8
    ensures r < 8 ==> slots[locs[r]].element == e
    ensures forall i :: k <= i < r ==> slots[locs[i]].element != e
    decreases 8 - k
  {
    if k == 8 then 8 else if slots[locs[k]].element == e then k else Holding(slots, locs, e, k + 1)
  }

  // Index of the first place that may be overwritten, or 8.
  function Open(slots: seq<Slot>, locs: seq<nat>, k: nat): (r: nat)
    requires |locs| == 8 && k <= 8 && forall i :: 0 <= i < 8 ==> locs[i] < |slots|
    ensures k <= r <= 8
    ensures r < 8 ==> slots[locs[r]].discard
    ensures forall i :: k <= i < r ==> !slots[locs[i]].discard
    decreases 8 - k
  {
    if k == 8 then 8 else if slots[locs[k]].discard then k else Open(slots, locs, k + 1)
  }

  // Index of a place among the eight, or 8.
  function IndexOf(locs: seq<nat>, loc: nat, k: nat): (r: nat)
    requires k <= |locs|
    ensures k <= r <= |locs|
    decreases |locs| - k
  {
    if k == |locs| then k else if locs[k] == loc then k else IndexOf(locs, loc, k + 1)
  }

  // The place after the last one used, wrapping around.
  function NextLoc(locs: seq<nat>, last: nat): nat
    requires |locs| == 8
  {
    locs[(1 + IndexOf(locs, last, 0)) % 8]
  }

  // With no place used yet that is the second one.
  lemma {:induction false} FirstEviction(locs: seq<nat>)
    requires |locs| == 8 && INVALID !in locs
    ensures NextLoc(locs, INVALID) == locs[1]
  {
    var i := IndexOf(locs, INVALID, 0);
    IndexFound(locs, INVALID, 0);
  }

  lemma {:induction false} IndexFound(locs: seq<nat>, loc: nat, k: nat)
    requires k <= |locs|
    ensures IndexOf(locs, loc, k) < |locs| ==> loc in locs
    decreases |locs| - k
  {
    if k < |locs| { IndexFound(locs, loc, k + 1); }
  }

  /* ---- the cache ---- */

  datatype Cache = Cache(hash: Hash, slots: seq<Slot>, counter: nat, epochSize: nat, depthLimit: nat)

  // A setup cache: at least two slots, all free. The share of an epoch is worked out in 32 bits.
  ghost predicate Ready(c: Cache) { |c.slots| >= 2 && c.epochSize >= 1 && c.depthLimit >= 1 }

  function Setup(hash: Hash, newSize: nat, depthLimit: nat, blank: Element): Cache {
    var size := if newSize < 2 then 2 else newSize;
    var share := 45 * size % TWO_32 / 100;
    var epochSize := if share < 1 then 1 else share;
    Cache(hash, seq(size, _ => Slot(blank, true, false)), epochSize, epochSize, depthLimit)
  }

  /* ---- counting slots ---- */

  function Count(f: Slot -> bool, slots: seq<Slot>): nat {
    if slots == [] then 0 else (if f(slots[0]) then 1 else 0) + Count(f, slots[1..])
  }

  function One(b: bool): nat { if b then 1 else 0 }

  lemma {:induction false} CountUpdate(f: Slot -> bool, slots: seq<Slot>, i: nat, s: Slot)
    requires i < |slots|
    ensures Count(f, slots[i := s]) + One(f(slots[i])) == Count(f, slots) + One(f(s))
  {
    if i == 0 {
      assert slots[i := s][1..] == slots[1..];
    } else {
      assert slots[i := s][1..] == slots[1..][i - 1 := s];
      CountUpdate(f, slots[1..], i - 1, s);
    }
  }

  // Live copies of an element, copies in any state, and live slots of the current epoch.
  function LiveCopy(x: Element): Slot -> bool { (s: Slot) => !s.discard && s.element == x }
  function AnyCopy(x: Element): Slot -> bool { (s: Slot) => s.element == x }
  function Recent(s: Slot): bool { s.epoch && !s.discard }

  /* ---- aging ---- */

  function Aged(slots: seq<Slot>): seq<Slot> {
    seq(|slots|, i requires 0 <= i < |slots| =>
      if slots[i].epoch then slots[i].(epoch := false) else slots[i].(discard := true))
  }

  function Max(a: int, b: int): int { if a < b then b else a }

  function EpochCheck(c: Cache): Cache {
    if c.counter != 0 then c.(counter := c.counter - 1)
    else
      var unused := Count(Recent, c.slots);
      if unused >= c.epochSize then c.(slots := Aged(c.slots), counter := c.epochSize)
      else c.(counter := Max(1, Max(c.epochSize / 16, c.epochSize - unused)))
  }

  /* ---- inserting ---- */

  datatype Kicked = Kicked(slots: seq<Slot>, lost: Option<Element>, lostEpoch: bool)

  // Puts the element into an open place or swaps it with another, at most `depth` times;
  // what is left without a place is lost.
  function Kick(hash: Hash, slots: seq<Slot>, e: Element, epoch: bool, last: nat, depth: nat): (r: Kicked)
    requires slots != []
    ensures |r.slots| == |slots|
    decreases depth
  {
    if depth == 0 then Kicked(slots, Some(e), epoch)
    else
      var locs := Locs(hash, |slots|, e);
      var k := Open(slots, locs, 0);
      if k < 8 then Kicked(slots[locs[k] := Slot(e, false, epoch)], None, false)
      else
        var l := NextLoc(locs, last);
        Kick(hash, slots[l := Slot(e, slots[l].discard, epoch)], slots[l].element, slots[l].epoch, l, depth - 1)
  }

  function Insert(c: Cache, e: Element): (Cache, Option<Element>)
    requires Ready(c)
  {
    var c := EpochCheck(c);
    var locs := Locs(c.hash, |c.slots|, e);
    var k := Holding(c.slots, locs, e, 0);
    if k < 8 then (c.(slots := c.slots[locs[k] := Slot(e, false, true)]), None)
    else
      var r := Kick(c.hash, c.slots, e, true, INVALID, c.depthLimit);
      (c.(slots := r.slots), r.lost)
  }

  // Whether the element is in one of its places; erasing lets it be overwritten.
  function Contains(c: Cache, e: Element, erase: bool): (Cache, bool)
    requires Ready(c)
  {
    var locs := Locs(c.hash, |c.slots|, e);
    var k := Holding(c.slots, locs, e, 0);
    if k == 8 then (c, false)
    else (if erase then c.(slots := c.slots[locs[k] := c.slots[locs[k]].(discard := true)]) else c, true)
  }

  /* ---- invariant ---- */

  // Every live element sits in one of its own places.
  ghost predicate Placed(hash: Hash, slots: seq<Slot>) {
    slots != [] && forall i :: 0 <= i < |slots| && !slots[i].discard ==> i in Locs(hash, |slots|, slots[i].element)
  }

  // Live slots of the current epoch and inserts before the next scan.
  ghost predicate EpochBound(c: Cache) {
    Count(Recent, c.slots) + c.counter <= c.epochSize + Max(1, c.epochSize / 16)
  }

  ghost predicate Inv(c: Cache) { Ready(c) && Placed(c.hash, c.slots) && EpochBound(c) }

  // A live element is found.
  lemma {:induction false} LiveIsFound(c: Cache, i: nat, erase: bool)
    requires Ready(c) && Placed(c.hash, c.slots) && i < |c.slots| && !c.slots[i].discard
    ensures Contains(c, c.slots[i].element, erase).1
  {
    var e := c.slots[i].element;
    var locs := Locs(c.hash, |c.slots|, e);
    var k :| 0 <= k < 8 && locs[k] == i;
    var r := Holding(c.slots, locs, e, 0);
    assert r <= k;
  }

  // What is found is in the table.
  lemma {:induction false} FoundIsStored(c: Cache, e: Element, erase: bool)
    requires Ready(c) && Contains(c, e, erase).1
    ensures exists i :: 0 <= i < |c.slots| && c.slots[i].element == e
  {
    var locs := Locs(c.hash, |c.slots|, e);
    var k := Holding(c.slots, locs, e, 0);
    assert c.slots[locs[k]].element == e;
  }

  lemma {:induction false} PlacedUpdate(hash: Hash, slots: seq<Slot>, i: nat, s: Slot)
    requires Placed(hash, slots) && i < |slots| && (s.discard || i in Locs(hash, |slots|, s.element))
    ensures Placed(hash, slots[i := s])
  {
  }

  // An insertion conserves live elements with their epochs: whatever is counted of them, the new
  // one is added and the one left without a place, if any, is gone.
  lemma {:induction false} KickConservesLive(hash: Hash, slots: seq<Slot>, e: Element, epoch: bool, last: nat,
                                             depth: nat, f: Slot -> bool)
    requires slots != [] && forall s :: f(s) ==> !s.discard
    ensures var r := Kick(hash, slots, e, epoch, last, depth);
      Count(f, r.slots) + One(r.lost.Some? && f(Slot(r.lost.value, false, r.lostEpoch)))
      == Count(f, slots) + One(f(Slot(e, false, epoch)))
    decreases depth
  {
    hide Locs, IndexOf, Count;
    if depth > 0 {
      var locs := Locs(hash, |slots|, e);
      var k := Open(slots, locs, 0);
      if k < 8 {
        CountUpdate(f, slots, locs[k], Slot(e, false, epoch));
      } else {
        var l := NextLoc(locs, last);
        assert !slots[l].discard && slots[l] == Slot(slots[l].element, false, slots[l].epoch);
        var s := Slot(e, slots[l].discard, epoch);
        CountUpdate(f, slots, l, s);
        KickConservesLive(hash, slots[l := s], slots[l].element, slots[l].epoch, l, depth - 1, f);
      }
    }
  }

  lemma {:induction false} KickConserves(hash: Hash, slots: seq<Slot>, e: Element, epoch: bool, last: nat, depth: nat,
                                         x: Element)
    requires slots != []
    ensures var r := Kick(hash, slots, e, epoch, last, depth);
      Count(LiveCopy(x), r.slots) + One(r.lost == Some(x)) == Count(LiveCopy(x), slots) + One(e == x)
  {
    hide Kick, Count;
    KickConservesLive(hash, slots, e, epoch, last, depth, LiveCopy(x));
  }

  // The same for all copies: one element goes, the one overwritten or the one left without a
  // place, and every other is stored as often as before.
  lemma {:induction false} KickKeepsStored(hash: Hash, slots: seq<Slot>, e: Element, epoch: bool, last: nat, depth: nat)
    returns (gone: Element)
    requires slots != []
    ensures var r := Kick(hash, slots, e, epoch, last, depth);
      Exchanged(slots, e, r.slots, gone) && r.lost in {None, Some(gone)}
    decreases depth
  {
    hide Locs, IndexOf, Count;
    if depth == 0 {
      gone := e;
    } else {
      var locs := Locs(hash, |slots|, e);
      var k := Open(slots, locs, 0);
      if k < 8 {
        PutExchanges(slots, locs[k], Slot(e, false, epoch));
        gone := slots[locs[k]].element;
      } else {
        var l := NextLoc(locs, last);
        var s := Slot(e, slots[l].discard, epoch);
        PutExchanges(slots, l, s);
        gone := KickKeepsStored(hash, slots[l := s], slots[l].element, slots[l].epoch, l, depth - 1);
      }
    }
  }

  // One e came in and one gone went out.
  ghost predicate Exchanged(was: seq<Slot>, e: Element, now: seq<Slot>, gone: Element) {
    forall x :: Count(AnyCopy(x), now) + One(gone == x) == Count(AnyCopy(x), was) + One(e == x)
  }

  lemma {:induction false} PutExchanges(slots: seq<Slot>, i: nat, s: Slot)
    requires i < |slots|
    ensures Exchanged(slots, s.element, slots[i := s], slots[i].element)
  {
    hide Count;
    forall x
        ensures Count(AnyCopy(x), slots[i := s]) + One(slots[i].element == x)
           == Count(AnyCopy(x), slots) + One(s.element == x)
    {
      CountUpdate(AnyCopy(x), slots, i, s);
    }
  }

  // At most one more live slot of the current epoch.
  lemma {:induction false} KickRecent(hash: Hash, slots: seq<Slot>, e: Element, epoch: bool, last: nat, depth: nat)
    requires slots != []
    ensures var r := Kick(hash, slots, e, epoch, last, depth);
      Count(Recent, r.slots) + One(r.lost.Some? && r.lostEpoch) == Count(Recent, slots) + One(epoch)
  {
    hide Kick, Count;
    KickConservesLive(hash, slots, e, epoch, last, depth, Recent);
  }

  lemma {:induction false} KickPlaced(hash: Hash, slots: seq<Slot>, e: Element, epoch: bool, last: nat, depth: nat)
    requires slots != [] && Placed(hash, slots)
    ensures Placed(hash, Kick(hash, slots, e, epoch, last, depth).slots)
    decreases depth
  {
    hide Locs, IndexOf, Placed;
    if depth > 0 {
      var locs := Locs(hash, |slots|, e);
      var k := Open(slots, locs, 0);
      if k < 8 {
        PlacedUpdate(hash, slots, locs[k], Slot(e, false, epoch));
      } else {
        var l := NextLoc(locs, last);
        var s := Slot(e, slots[l].discard, epoch);
        PlacedUpdate(hash, slots, l, s);
        KickPlaced(hash, slots[l := s], slots[l].element, slots[l].epoch, l, depth - 1);
      }
    }
  }

  /* ---- aging ---- */

  lemma {:induction false} AgedNoneRecent(slots: seq<Slot>)
    ensures Count(Recent, Aged(slots)) == 0
  {
    if slots != [] {
      assert Aged(slots)[1..] == Aged(slots[1..]);
      AgedNoneRecent(slots[1..]);
    }
  }

  // Before an insertion there is room for one more recent slot.
  lemma {:induction false} EpochCheckBounds(c: Cache)
    requires Inv(c)
    ensures var c' := EpochCheck(c);
      && Ready(c') && Placed(c'.hash, c'.slots) && c'.hash == c.hash && |c'.slots| == |c.slots|
      && Count(Recent, c'.slots) + c'.counter + 1 <= c'.epochSize + Max(1, c'.epochSize / 16)
  {
    AgedNoneRecent(c.slots);
    AgedPlaced(c.hash, c.slots);
  }

  lemma {:induction false} AgedPlaced(hash: Hash, slots: seq<Slot>)
    requires Placed(hash, slots)
    ensures Placed(hash, Aged(slots))
  {
    hide Locs;
  }

  // Aging frees slots but moves and overwrites nothing.
  lemma {:induction false} EpochCheckKeeps(c: Cache)
    requires Ready(c)
    ensures var c' := EpochCheck(c);
      |c'.slots| == |c.slots| && forall i :: 0 <= i < |c.slots| ==> c'.slots[i].element == c.slots[i].element
  {
  }

  /* ---- runs ---- */

  lemma {:induction false} InsertKeeps(c: Cache, e: Element)
    requires Inv(c)
    ensures Inv(Insert(c, e).0)
  {
    EpochCheckBounds(c);
    var c := EpochCheck(c);
    hide EpochCheck, Locs, Placed, Count;
    var locs := Locs(c.hash, |c.slots|, e);
    var k := Holding(c.slots, locs, e, 0);
    if k < 8 {
      PlacedUpdate(c.hash, c.slots, locs[k], Slot(e, false, true));
      CountUpdate(Recent, c.slots, locs[k], Slot(e, false, true));
    } else {
      KickPlaced(c.hash, c.slots, e, true, INVALID, c.depthLimit);
      KickRecent(c.hash, c.slots, e, true, INVALID, c.depthLimit);
    }
  }

  // Each insertion adds its element to the live ones and loses at most one; aging apart.
  lemma {:induction false} InsertLosesAtMostOne(c: Cache, e: Element, x: Element)
    requires Ready(c)
    ensures var (c', lost) := Insert(c, e);
      var before := EpochCheck(c);
      if lost.Some?
      then Count(LiveCopy(x), c'.slots) + One(lost.value == x) == Count(LiveCopy(x), before.slots) + One(e == x)
      else Count(LiveCopy(x), before.slots) <= Count(LiveCopy(x), c'.slots)
          <= Count(LiveCopy(x), before.slots) + One(e == x)
    ensures Insert(c, e).1.None? ==> Count(LiveCopy(e), Insert(c, e).0.slots) >= 1
  {
    EpochCheckKeeps(c);
    InsertLoses(EpochCheck(c), e, x);
    InsertLoses(EpochCheck(c), e, e);
  }

  // An insertion, aging included, takes one element into the table and at most one out of it: what
  // it counts as lost, or what it overwrites, or nothing but the element itself.
  lemma {:induction false} InsertKeepsStored(c: Cache, e: Element) returns (gone: Element)
    requires Ready(c)
    ensures var (c', lost) := Insert(c, e); Exchanged(c.slots, e, c'.slots, gone) && lost in {None, Some(gone)}
  {
    hide Locs, Count, Kick, EpochCheck, Exchanged;
    EpochCheckKeeps(c);
    var a := EpochCheck(c);
    var locs := Locs(a.hash, |a.slots|, e);
    var k := Holding(a.slots, locs, e, 0);
    if k < 8 {
      PutExchanges(a.slots, locs[k], Slot(e, false, true));
      gone := e;
    } else {
      gone := KickKeepsStored(a.hash, a.slots, e, true, INVALID, a.depthLimit);
    }
    ExchangedFrom(c.slots, a.slots, e, Insert(c, e).0.slots, gone);
  }

  lemma {:induction false} ExchangedFrom(was: seq<Slot>, aged: seq<Slot>, e: Element, now: seq<Slot>, gone: Element)
    requires |was| == |aged| && (forall i :: 0 <= i < |was| ==> aged[i].element == was[i].element)
    requires Exchanged(aged, e, now, gone)
    ensures Exchanged(was, e, now, gone)
  {
    hide Count;
    forall x ensures Count(AnyCopy(x), aged) == Count(AnyCopy(x), was) { SameCopies(was, aged, x); }
  }

  lemma {:induction false} SameCopies(was: seq<Slot>, aged: seq<Slot>, x: Element)
    requires |was| == |aged| && (forall i :: 0 <= i < |was| ==> aged[i].element == was[i].element)
    ensures Count(AnyCopy(x), aged) == Count(AnyCopy(x), was)
  {
    if was != [] { SameCopies(was[1..], aged[1..], x); }
  }

  lemma {:induction false} InsertLoses(c: Cache, e: Element, x: Element)
    requires Ready(c)
    ensures var locs := Locs(c.hash, |c.slots|, e);
      var k := Holding(c.slots, locs, e, 0);
      var r := Kick(c.hash, c.slots, e, true, INVALID, c.depthLimit);
      if k < 8 then
        var now := c.slots[locs[k] := Slot(e, false, true)];
        && Count(LiveCopy(x), c.slots) <= Count(LiveCopy(x), now) <= Count(LiveCopy(x), c.slots) + One(e == x)
        && (x == e ==> Count(LiveCopy(x), now) >= 1)
      else Count(LiveCopy(x), r.slots) + One(r.lost == Some(x)) == Count(LiveCopy(x), c.slots) + One(e == x)
  {
    hide Locs, Count, Kick;
    var locs := Locs(c.hash, |c.slots|, e);
    var k := Holding(c.slots, locs, e, 0);
    if k < 8 {
      var now := c.slots[locs[k] := Slot(e, false, true)];
      CountUpdate(LiveCopy(x), c.slots, locs[k], Slot(e, false, true));
      CountUpdate(LiveCopy(x), now, locs[k], Slot(e, true, true));
    } else {
      KickConserves(c.hash, c.slots, e, true, INVALID, c.depthLimit, x);
    }
  }

  lemma {:induction false} ContainsKeeps(c: Cache, e: Element, erase: bool)
    requires Inv(c)
    ensures Inv(Contains(c, e, erase).0)
  {
    hide Locs, Count, Placed;
    var locs := Locs(c.hash, |c.slots|, e);
    var k := Holding(c.slots, locs, e, 0);
    if k < 8 {
      var s := c.slots[locs[k]].(discard := true);
      PlacedUpdate(c.hash, c.slots, locs[k], s);
      CountUpdate(Recent, c.slots, locs[k], s);
    }
  }

  lemma {:induction false} SetupHolds(hash: Hash, newSize: nat, depthLimit: nat, blank: Element)
    requires depthLimit >= 1
    ensures Inv(Setup(hash, newSize, depthLimit, blank))
  {
    NoneRecent(Setup(hash, newSize, depthLimit, blank).slots);
  }

  lemma {:induction false} NoneRecent(slots: seq<Slot>)
    requires forall i :: 0 <= i < |slots| ==> slots[i].discard
    ensures Count(Recent, slots) == 0
  {
    if slots != [] { NoneRecent(slots[1..]); }
  }

  datatype Op = InsertOp(e: Element) | ContainsOp(e: Element, erase: bool)

  ghost function Run(c: Cache, ops: seq<Op>): (r: Cache)
    requires Inv(c)
    ensures Inv(r)
    decreases |ops|
  {
    if ops == [] then c
    else
      var c := Run(c, ops[..|ops| - 1]);
      match ops[|ops| - 1]
      case InsertOp(e) => InsertKeeps(c, e); Insert(c, e).0
      case ContainsOp(e, erase) => ContainsKeeps(c, e, erase); Contains(c, e, erase).0
  }

  // In every run from a fresh cache live elements are found and the epoch keeps its bound.
  lemma {:induction false} EveryRun(hash: Hash, newSize: nat, depthLimit: nat, blank: Element, ops: seq<Op>)
    requires depthLimit >= 1
    ensures Inv(Setup(hash, newSize, depthLimit, blank))
    ensures var c := Run(Setup(hash, newSize, depthLimit, blank), ops);
      && EpochBound(c)
      && forall i :: 0 <= i < |c.slots| && !c.slots[i].discard ==> Contains(c, c.slots[i].element, false).1
  {
    SetupHolds(hash, newSize, depthLimit, blank);
    var c := Run(Setup(hash, newSize, depthLimit, blank), ops);
    forall i | 0 <= i < |c.slots| && !c.slots[i].discard ensures Contains(c, c.slots[i].element, false).1 {
      LiveIsFound(c, i, false);
    }
  }
}
