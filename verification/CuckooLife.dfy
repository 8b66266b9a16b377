/** The life of an element in the cuckoo cache: how long it is found, when it is freed, and what a
    lookup changes. */
module CuckooLife {
  import opened Options
  import opened Cuckoo
  import opened Scaling

  /* ---- aging ---- */

  // The scan takes place and finds a full epoch.
  predicate Ages(c: Cache) { c.counter == 0 && Count(Recent, c.slots) >= c.epochSize }

  // Aging frees what was not of the current epoch and nothing else, and what was of it no longer
  // is. Without it nothing changes.
  lemma {:induction false} EpochCheckFrees(c: Cache)
    ensures var r := EpochCheck(c);
      && |r.slots| == |c.slots| && r == c.(slots := r.slots, counter := r.counter)
      && (!Ages(c) ==> r.slots == c.slots)
      && forall i :: 0 <= i < |c.slots| ==>
           && r.slots[i].element == c.slots[i].element
           && (r.slots[i].discard <==> c.slots[i].discard || (Ages(c) && !c.slots[i].epoch))
           && (r.slots[i].epoch <==> c.slots[i].epoch && !Ages(c))
  {
  }

  // Scans are a whole epoch apart after aging, and otherwise as far as the epoch can be from full,
  // but at least a sixteenth of an epoch.
  lemma {:induction false} ScansApart(c: Cache)
    requires Ready(c)
    ensures var n := EpochCheck(c).counter;
      && (c.counter > 0 ==> n == c.counter - 1)
      && (Ages(c) ==> n == c.epochSize)
      && (c.counter == 0 ==> n >= 1 && 16 * (n + 1) > c.epochSize && n + Count(Recent, c.slots) >= c.epochSize)
      && (c.counter == 0 && !Ages(c) ==>
            n == 1 || 16 * n <= c.epochSize || n + Count(Recent, c.slots) == c.epochSize)
  {
  }

  // A set up cache has the slots asked for, at least two, and an epoch is 45 of 100 slots, as long
  // as 45 times the slots fit 32 bits, and at least one.
  lemma {:induction false} SetupShape(hash: Hash, newSize: nat, depthLimit: nat, blank: Element)
    ensures var c := Setup(hash, newSize, depthLimit, blank);
      && |c.slots| == Max(2, newSize) && c.counter == c.epochSize && c.depthLimit == depthLimit && c.hash == hash
      && (forall i :: 0 <= i < |c.slots| ==> c.slots[i].discard && !c.slots[i].epoch)
      && (|c.slots| <= 2 ==> c.epochSize == 1)
      && (2 < |c.slots| && 45 * |c.slots| < TWO_32 ==>
            100 * c.epochSize <= 45 * |c.slots| < 100 * (c.epochSize + 1))
  {
  }

  /* ---- evictions ---- */

  lemma {:induction false} IndexFirst(locs: seq<nat>, i: nat, k: nat)
    requires k <= i < |locs| && forall j :: 0 <= j < |locs| && j != i ==> locs[j] != locs[i]
    ensures IndexOf(locs, locs[i], k) == i
    decreases i - k
  {
    if k < i { IndexFirst(locs, i, k + 1); }
  }

  // With eight different places, what was just put into one of them is not moved again: the next
  // place is taken, the first after the last.
  lemma {:induction false} NextEviction(locs: seq<nat>, i: nat)
    requires |locs| == 8 && i < 8 && forall j, k :: 0 <= j < k < 8 ==> locs[j] != locs[k]
    ensures NextLoc(locs, locs[i]) == locs[(i + 1) % 8] != locs[i]
  {
    forall j | 0 <= j < 8 && j != i ensures locs[j] != locs[i] {}
    IndexFirst(locs, i, 0);
  }

  /* ---- lookups ---- */

  // A lookup changes nothing unless it finds and erases, and then it only marks one copy of the
  // element, in one of its places.
  lemma {:induction false} ContainsMarks(c: Cache, e: Element, erase: bool)
    requires Ready(c)
    ensures var (r, found) := Contains(c, e, erase);
      && (found <==> exists i :: i in Locs(c.hash, |c.slots|, e) && c.slots[i].element == e)
      && (!(found && erase) ==> r == c)
      && (found && erase ==>
            exists i :: i in Locs(c.hash, |c.slots|, e) && c.slots[i].element == e
                        && r == c.(slots := c.slots[i := c.slots[i].(discard := true)]))
  {
    hide Place;
    var locs := Locs(c.hash, |c.slots|, e);
    var k := Holding(c.slots, locs, e, 0);
    if k < 8 {
      assert locs[k] in locs;
    } else {
      forall i | i in locs ensures c.slots[i].element != e { var j :| 0 <= j < 8 && locs[j] == i; }
    }
  }

  // An erased element is found until its slot is needed.
  lemma {:induction false} ErasedIsFound(c: Cache, e: Element)
    requires Ready(c) && Contains(c, e, true).1
    ensures Ready(Contains(c, e, true).0) && Contains(Contains(c, e, true).0, e, false).1
  {
    hide Locs;
    var r := Contains(c, e, true).0;
    var locs := Locs(c.hash, |c.slots|, e);
    var k := Holding(c.slots, locs, e, 0);
    var n := Holding(r.slots, locs, e, 0);
    assert r.slots[locs[k]].element == e;
    assert n <= k;
  }

  /* ---- one operation, for one element ---- */

  function RecentCopy(x: Element): Slot -> bool { (s: Slot) => !s.discard && s.epoch && s.element == x }

  // The operation does not take the element away: it neither erases it nor loses it.
  predicate Spares(c: Cache, op: Op, x: Element)
    requires Ready(c)
  {
    match op
    case InsertOp(e) => Insert(c, e).1 != Some(x)
    case ContainsOp(e, erase) => !(erase && e == x)
  }

  predicate AgesAt(c: Cache, op: Op) { op.InsertOp? && Ages(c) }

  function After(c: Cache, op: Op): Cache
    requires Ready(c)
  {
    match op
    case InsertOp(e) => Insert(c, e).0
    case ContainsOp(e, erase) => Contains(c, e, erase).0
  }

  // Where g holds after f held before, slot by slot, g counts no fewer.
  lemma {:induction false} CountGrows(f: Slot -> bool, g: Slot -> bool, a: seq<Slot>, b: seq<Slot>)
    requires |a| == |b| && forall i :: 0 <= i < |a| && f(a[i]) ==> g(b[i])
    ensures Count(f, a) <= Count(g, b)
    decreases |a|
  {
    if a != [] { CountGrows(f, g, a[1..], b[1..]); }
  }

  lemma {:induction false} CountNever(f: Slot -> bool, a: seq<Slot>)
    requires forall i :: 0 <= i < |a| ==> !f(a[i])
    ensures Count(f, a) == 0
  {
    if a != [] { CountNever(f, a[1..]); }
  }

  // Live copies outlive a check unless it ages and they are old; recent copies become old.
  lemma {:induction false} CheckCopies(c: Cache, x: Element)
    ensures var r := EpochCheck(c);
      && (!Ages(c) ==> r.slots == c.slots)
      && (Ages(c) ==> Count(LiveCopy(x), r.slots) == Count(RecentCopy(x), c.slots))
      && (Ages(c) ==> Count(RecentCopy(x), r.slots) == 0)
  {
    hide Count;
    EpochCheckFrees(c);
    var r := EpochCheck(c);
    if Ages(c) {
      CountGrows(RecentCopy(x), LiveCopy(x), c.slots, r.slots);
      CountGrows(LiveCopy(x), RecentCopy(x), r.slots, c.slots);
      CountNever(RecentCopy(x), r.slots);
    }
  }

  // An insertion after the check, of this element or another.
  lemma {:induction false} PlaceCopies(c: Cache, e: Element, x: Element, f: Slot -> bool)
    requires Ready(c) && (f == LiveCopy(x) || f == RecentCopy(x))
    ensures var locs := Locs(c.hash, |c.slots|, e);
      var k := Holding(c.slots, locs, e, 0);
      var r := Kick(c.hash, c.slots, e, true, INVALID, c.depthLimit);
      var now := if k < 8 then c.slots[locs[k] := Slot(e, false, true)] else r.slots;
      && (e != x && (k < 8 || r.lost != Some(x)) ==> Count(f, now) == Count(f, c.slots))
      && (e != x ==> Count(f, now) <= Count(f, c.slots))
      && (e == x && (k < 8 || r.lost != Some(x)) ==> Count(f, now) >= Count(f, c.slots) && Count(f, now) >= 1)
  {
    hide Locs, Count, Kick;
    var locs := Locs(c.hash, |c.slots|, e);
    var k := Holding(c.slots, locs, e, 0);
    if k < 8 {
      var now := c.slots[locs[k] := Slot(e, false, true)];
      CountUpdate(f, c.slots, locs[k], Slot(e, false, true));
      CountUpdate(f, now, locs[k], Slot(e, true, true));
    } else {
      KickConservesLive(c.hash, c.slots, e, true, INVALID, c.depthLimit, f);
    }
  }

  // What one operation that spares the element does to its live and to its recent copies.
  lemma {:induction false} StepCopies(c: Cache, op: Op, x: Element)
    requires Inv(c)
    ensures Inv(After(c, op))
    ensures var r := After(c, op);
      && (Spares(c, op, x) && !AgesAt(c, op) ==>
            && Count(LiveCopy(x), r.slots) >= Count(LiveCopy(x), c.slots)
            && Count(RecentCopy(x), r.slots) >= Count(RecentCopy(x), c.slots))
      && (Spares(c, op, x) && AgesAt(c, op) ==> Count(LiveCopy(x), r.slots) >= Count(RecentCopy(x), c.slots))
      && (op != InsertOp(x) ==> Count(RecentCopy(x), r.slots) <= Count(RecentCopy(x), c.slots))
      && (op != InsertOp(x) && AgesAt(c, op) ==>
            Count(RecentCopy(x), r.slots) == 0 && Count(LiveCopy(x), r.slots) <= Count(RecentCopy(x), c.slots))
      && (op != InsertOp(x) ==> Count(LiveCopy(x), r.slots) <= Count(LiveCopy(x), c.slots))
      && (op == InsertOp(x) && Spares(c, op, x) ==> Count(RecentCopy(x), r.slots) >= 1)
  {
    hide Locs, Count, Kick, EpochCheck, Holding, Placed, EpochBound;
    match op
    case InsertOp(e) =>
      InsertKeeps(c, e);
      EpochCheckFrees(c);
      CheckCopies(c, x);
      FewerRecent(c.slots, x);
      PlaceCopies(EpochCheck(c), e, x, LiveCopy(x));
      PlaceCopies(EpochCheck(c), e, x, RecentCopy(x));
    case ContainsOp(e, erase) =>
      ContainsKeeps(c, e, erase);
      LookupCopies(c, e, erase, x);
  }

  lemma {:induction false} FewerRecent(slots: seq<Slot>, x: Element)
    ensures Count(RecentCopy(x), slots) <= Count(LiveCopy(x), slots)
  {
    CountGrows(RecentCopy(x), LiveCopy(x), slots, slots);
  }

  lemma {:induction false} LookupCopies(c: Cache, e: Element, erase: bool, x: Element)
    requires Ready(c)
    ensures var r := Contains(c, e, erase).0;
      && Count(LiveCopy(x), r.slots) <= Count(LiveCopy(x), c.slots)
      && Count(RecentCopy(x), r.slots) <= Count(RecentCopy(x), c.slots)
      && (!(erase && e == x) ==>
            && Count(LiveCopy(x), r.slots) == Count(LiveCopy(x), c.slots)
            && Count(RecentCopy(x), r.slots) == Count(RecentCopy(x), c.slots))
  {
    hide Locs, Count;
    var locs := Locs(c.hash, |c.slots|, e);
    var k := Holding(c.slots, locs, e, 0);
    if k < 8 {
      CountUpdate(LiveCopy(x), c.slots, locs[k], c.slots[locs[k]].(discard := true));
      CountUpdate(RecentCopy(x), c.slots, locs[k], c.slots[locs[k]].(discard := true));
    }
  }

  /* ---- runs ---- */

  lemma {:induction false} RunAfter(c: Cache, ops: seq<Op>)
    requires Inv(c) && ops != []
    ensures Run(c, ops) == After(Run(c, ops[..|ops| - 1]), ops[|ops| - 1])
  {
  }

  ghost predicate SparedBy(c: Cache, ops: seq<Op>, x: Element)
    requires Inv(c)
  {
    ops == []
    || (SparedBy(c, ops[..|ops| - 1], x) && Spares(Run(c, ops[..|ops| - 1]), ops[|ops| - 1], x))
  }

  // How often the cache was aged in the run.
  ghost function Agings(c: Cache, ops: seq<Op>): nat
    requires Inv(c)
  {
    if ops == [] then 0
    else Agings(c, ops[..|ops| - 1]) + One(AgesAt(Run(c, ops[..|ops| - 1]), ops[|ops| - 1]))
  }

  // A recent element that is neither erased nor lost stays recent until the first aging, and live
  // until the second.
  lemma {:induction false} LiveUntilSecondAging(c: Cache, ops: seq<Op>, x: Element)
    requires Inv(c) && Count(RecentCopy(x), c.slots) >= 1 && SparedBy(c, ops, x) && Agings(c, ops) <= 1
    ensures Agings(c, ops) == 0 ==> Count(RecentCopy(x), Run(c, ops).slots) >= 1
    ensures Count(LiveCopy(x), Run(c, ops).slots) >= 1
    decreases |ops|
  {
    hide Inv, Count, Spares, After, Run, AgesAt;
    if ops == [] {
      RunNothing(c);
      FewerRecent(c.slots, x);
    } else {
      var front, op := ops[..|ops| - 1], ops[|ops| - 1];
      LiveUntilSecondAging(c, front, x);
      RunAfter(c, ops);
      StepCopies(Run(c, front), op, x);
      FewerRecent(Run(c, ops).slots, x);
    }
  }

  lemma {:induction false} RunNothing(c: Cache)
    requires Inv(c)
    ensures Run(c, []) == c
  {
  }

  // An element inserted and not lost then is found after any run that neither erases it nor
  // loses it and ages the cache at most once.
  lemma {:induction false} InsertedIsFound(c: Cache, x: Element, ops: seq<Op>)
    requires Inv(c) && Insert(c, x).1 != Some(x)
    ensures Inv(Insert(c, x).0)
    ensures var start := Insert(c, x).0;
      SparedBy(start, ops, x) && Agings(start, ops) <= 1 ==> Contains(Run(start, ops), x, false).1
  {
    hide Count, Insert, Contains, Run, Placed, EpochBound, SparedBy, Agings;
    InsertKeeps(c, x);
    StepCopies(c, InsertOp(x), x);
    var start := Insert(c, x).0;
    assert After(c, InsertOp(x)) == start;
    if SparedBy(start, ops, x) && Agings(start, ops) <= 1 {
      LiveUntilSecondAging(start, ops, x);
      LiveSomewhere(Run(start, ops), x);
    }
  }

  lemma {:induction false} CountedSomewhere(f: Slot -> bool, a: seq<Slot>) returns (i: nat)
    requires Count(f, a) >= 1
    ensures i < |a| && f(a[i])
  {
    if f(a[0]) {
      i := 0;
    } else {
      i := CountedSomewhere(f, a[1..]);
      i := i + 1;
    }
  }

  lemma {:induction false} LiveSomewhere(c: Cache, x: Element)
    requires Inv(c) && Count(LiveCopy(x), c.slots) >= 1
    ensures Contains(c, x, false).1
  {
    var i := CountedSomewhere(LiveCopy(x), c.slots);
    LiveIsFound(c, i, false);
  }

  // An element that is not inserted again is free to be overwritten from the second aging on.
  lemma {:induction false} FreeFromSecondAging(c: Cache, ops: seq<Op>, x: Element)
    requires Inv(c) && InsertOp(x) !in ops
    ensures Agings(c, ops) >= 1 ==> Count(RecentCopy(x), Run(c, ops).slots) == 0
    ensures Agings(c, ops) >= 2 ==> Count(LiveCopy(x), Run(c, ops).slots) == 0
    decreases |ops|
  {
    hide Inv, Count, Spares, After, Run, AgesAt;
    if ops != [] {
      var front, op := ops[..|ops| - 1], ops[|ops| - 1];
      assert ops == front + [op];
      FreeFromSecondAging(c, front, x);
      RunAfter(c, ops);
      StepCopies(Run(c, front), op, x);
    }
  }
}
