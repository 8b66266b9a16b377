/** A sender that prefills any transactions it likes: where the receiver puts them, and that the
    block is rebuilt. */
module CompactSender {
  import opened Options
  import opened CompactBlocks

  /* ---- positions ---- */

  // The indexes sent for some positions: how many transactions are passed over before each.
  ghost predicate SentFor(p: seq<Prefilled>, a: seq<nat>) {
    && |p| == |a| && Increasing(a) && (a != [] ==> p[0].index == a[0])
    && forall i :: 0 < i < |a| ==> p[i].index == a[i] - a[i - 1] - 1
  }

  // The receiver puts the i-th prefilled transaction at the i-th position.
  lemma {:induction false} PositionsAreMeant(p: seq<Prefilled>, a: seq<nat>, i: nat)
    requires SentFor(p, a) && i < |a|
    ensures PrefilledAt(p, i + 1) == a[i]
    decreases i
  {
    if i > 0 {
      PositionsAreMeant(p, a, i - 1);
    } else {
      assert PrefilledAt(p, 0) == -1;
      assert PrefilledAt(p, 1) == PrefilledAt(p, 0) + p[0].index + 1;
    }
  }

  // Whatever indexes are sent, as many slots are passed over before a prefilled transaction as
  // they say together.
  lemma {:induction false} PositionIsSum(p: seq<Prefilled>, k: nat)
    requires k <= |p|
    ensures PrefilledAt(p, k) == PassedOver(p, k) + k - 1
    decreases k
  {
    if k > 0 { PositionIsSum(p, k - 1); }
  }

  function PassedOver(p: seq<Prefilled>, k: nat): nat
    requires k <= |p|
  {
    if k == 0 then 0 else PassedOver(p, k - 1) + p[k - 1].index
  }

  /* ---- the sender ---- */

  // Positions from `from` on that are not prefilled.
  function Others(n: nat, a: seq<nat>, from: nat): (r: seq<nat>)
    requires from <= n
    ensures forall i :: 0 <= i < |r| ==> from <= r[i] < n && r[i] !in a
    decreases n - from
  {
    if from == n then [] else (if from in a then [] else [from]) + Others(n, a, from + 1)
  }

  function Indexes(a: seq<nat>, vtx: seq<Tx>): seq<Prefilled>
    requires Increasing(a) && forall i :: 0 <= i < |a| ==> a[i] < |vtx|
  {
    seq(|a|, i requires 0 <= i < |a| => Prefilled(if i == 0 then a[0] else a[i] - a[i - 1] - 1, vtx[a[i]]))
  }

  // The message that prefills the given positions and gives short ids for the rest.
  function AnnounceWith(vtx: seq<Tx>, a: seq<nat>, short: ShortId): (m: Message)
    requires Increasing(a) && forall i :: 0 <= i < |a| ==> a[i] < |vtx|
    ensures SentFor(m.prefilled, a)
  {
    var rest := Others(|vtx|, a, 0);
    Message(seq(|rest|, i requires 0 <= i < |rest| => short(vtx[rest[i]])), Indexes(a, vtx))
  }

  // What senders owe: positions in order and within a block of at most 65536 transactions, and no
  // null transaction prefilled.
  ghost predicate Sendable(vtx: seq<Tx>, a: seq<nat>) {
    && Increasing(a) && |vtx| <= TWO_16
    && forall i :: 0 <= i < |a| ==> a[i] < |vtx| && !vtx[a[i]].isNull
  }

  /* ---- every position is prefilled or not ---- */

  // Prefilled positions below a bound.
  function Below(a: seq<nat>, bound: nat): nat {
    if a == [] then 0 else Below(a[..|a| - 1], bound) + if a[|a| - 1] < bound then 1 else 0
  }

  lemma {:induction false} BelowNext(a: seq<nat>, bound: nat)
    requires Increasing(a)
    ensures Below(a, bound + 1) == Below(a, bound) + if bound in a then 1 else 0
    decreases |a|
  {
    if a != [] {
      var front := a[..|a| - 1];
      assert a == front + [a[|a| - 1]];
      BelowNext(front, bound);
      assert bound in front ==> bound < a[|a| - 1];
    }
  }

  lemma {:induction false} BelowNone(a: seq<nat>)
    ensures Below(a, 0) == 0
  {
    if a != [] { BelowNone(a[..|a| - 1]); }
  }

  lemma {:induction false} BelowAll(a: seq<nat>, bound: nat)
    requires forall i :: 0 <= i < |a| ==> a[i] < bound
    ensures Below(a, bound) == |a|
  {
    if a != [] { BelowAll(a[..|a| - 1], bound); }
  }

  lemma {:induction false} OthersCount(n: nat, a: seq<nat>, from: nat)
    requires from <= n && Increasing(a)
    ensures |Others(n, a, from)| == n - from - (Below(a, n) - Below(a, from))
    decreases n - from
  {
    if from < n {
      OthersCount(n, a, from + 1);
      BelowNext(a, from);
    }
  }

  // A message has as many transactions as the block.
  lemma {:induction false} AnnouncesAll(vtx: seq<Tx>, a: seq<nat>, short: ShortId)
    requires Increasing(a) && forall i :: 0 <= i < |a| ==> a[i] < |vtx|
    ensures TxCount(AnnounceWith(vtx, a, short)) == |vtx|
  {
    OthersCount(|vtx|, a, 0);
    BelowNone(a);
    BelowAll(a, |vtx|);
  }

  // With all later positions still to come, the i-th is not too far.
  lemma {:induction false} RoomAfter(a: seq<nat>, i: nat, j: nat)
    requires Increasing(a) && i <= j < |a|
    ensures a[j] - a[i] >= j - i
    decreases j
  {
    if i < j { RoomAfter(a, i, j - 1); }
  }

  lemma {:induction false} AnnounceWithAccepted(vtx: seq<Tx>, a: seq<nat>, short: ShortId)
    requires Sendable(vtx, a)
    ensures var m := AnnounceWith(vtx, a, short); TxCount(m) == |vtx| && |m.prefilled| == |a| && PrefilledOk(m, |a|)
  {
    hide Increasing, Others;
    var m := AnnounceWith(vtx, a, short);
    AnnouncesAll(vtx, a, short);
    forall i | 0 <= i < |a| ensures AcceptedAt(m, i) {
      PositionsAreMeant(m.prefilled, a, i);
      RoomAfter(a, i, |a| - 1);
    }
  }

  // Where the prefilled transactions are put, and nothing else.
  lemma {:induction false} PlacedWith(vtx: seq<Tx>, a: seq<nat>, short: ShortId, k: nat, p: nat)
    requires Sendable(vtx, a) && k <= |a| && p < |vtx|
    ensures var m := AnnounceWith(vtx, a, short);
      TxCount(m) == |vtx| && PrefilledOk(m, k) && Placed(m, k)[p] == if p in a[..k] then Some(vtx[p]) else None
    decreases k
  {
    hide Others, Increasing, PrefilledOk, PrefilledAt;
    var m := AnnounceWith(vtx, a, short);
    AnnounceWithAccepted(vtx, a, short);
    PrefilledFewer(m, |a|, k);
    if k > 0 {
      PlacedWith(vtx, a, short, k - 1, p);
      PositionsAreMeant(m.prefilled, a, k - 1);
      assert a[..k] == a[..k - 1] + [a[k - 1]];
    }
  }

  lemma {:induction false} FreeAreOthers(vtx: seq<Tx>, a: seq<nat>, s: Slots, from: nat)
    requires |s| == |vtx| && from <= |vtx|
    requires forall p :: 0 <= p < |vtx| ==> (s[p].Some? <==> p in a)
    ensures FreeSlots(s, from) == Others(|vtx|, a, from)
    decreases |vtx| - from
  {
    if from < |vtx| { FreeAreOthers(vtx, a, s, from + 1); }
  }

  lemma {:induction false} OthersStep(n: nat, a: seq<nat>, from: nat)
    requires from < n
    ensures Others(n, a, from) == (if from in a then [] else [from]) + Others(n, a, from + 1)
  {
  }

  // Every position that is not prefilled has its short id.
  lemma {:induction false} OtherIndex(n: nat, a: seq<nat>, from: nat, p: nat) returns (i: nat)
    requires from <= p < n && p !in a
    ensures i < |Others(n, a, from)| && Others(n, a, from)[i] == p
    decreases p - from
  {
    hide Others;
    OthersStep(n, a, from);
    if from == p {
      i := 0;
    } else {
      i := OtherIndex(n, a, from + 1, p);
      if from !in a { i := i + 1; }
    }
  }

  // No transaction the receiver tries has the short id of another one announced by it.
  ghost predicate NoForeignId(txs: seq<Tx>, vtx: seq<Tx>, a: seq<nat>, short: ShortId) {
    forall t, p :: t in txs && 0 <= p < |vtx| && p !in a && short(t) == short(vtx[p]) ==> t == vtx[p]
  }

  lemma {:induction false} PlacedAll(vtx: seq<Tx>, a: seq<nat>, short: ShortId)
    requires Sendable(vtx, a)
    ensures var m := AnnounceWith(vtx, a, short);
      && TxCount(m) == |vtx| && |m.prefilled| == |a| && PrefilledOk(m, |a|)
      && (forall p :: 0 <= p < |vtx| ==> Placed(m, |a|)[p] == if p in a then Some(vtx[p]) else None)
      && FreeSlots(Placed(m, |a|), 0) == Others(|vtx|, a, 0)
  {
    hide Others, Increasing, PrefilledOk, Placed;
    AnnounceWithAccepted(vtx, a, short);
    var m := AnnounceWith(vtx, a, short);
    assert a[..|a|] == a;
    forall p | 0 <= p < |vtx| ensures Placed(m, |a|)[p] == if p in a then Some(vtx[p]) else None {
      PlacedWith(vtx, a, short, |a|, p);
    }
    FreeAreOthers(vtx, a, Placed(m, |a|), 0);
  }

  // Without short-id collisions the receiver rebuilds the block, whatever was prefilled, from the
  // transactions it lacks in their order.
  lemma {:induction false} RebuildsWith(vtx: seq<Tx>, a: seq<nat>, short: ShortId, pool: seq<Tx>, extra: seq<Tx>)
    requires Sendable(vtx, a) && Differ(AnnounceWith(vtx, a, short).shortIds)
    requires NoForeignId(pool + extra, vtx, a, short)
    ensures var m := AnnounceWith(vtx, a, short);
      && |m.prefilled| == |a| && PrefilledOk(m, |a|) && |Table(m)| == |m.shortIds|
      && (forall id :: id in Table(m) ==> Table(m)[id] < TxCount(m))
      && var s := Scanned(m, short, pool, extra).slots;
         Agrees(s, vtx) && Fill(s, MissingOf(s, vtx)) == Some(vtx)
  {
    hide Table, Placed, PrefilledOk, Offers, FreeSlots, Scanned, Fill, MissingOf, SlotTable, Others, Increasing;
    var m := AnnounceWith(vtx, a, short);
    PlacedAll(vtx, a, short);
    TableIsFull(m);
    IdsPairWithSlots(m);
    SmallHasNoClash(m);
    ScanIsRight(m, short, pool, extra);
    var sc, table := Scanned(m, short, pool, extra), Table(m);
    forall p | 0 <= p < |vtx| ensures sc.slots[p].None? || sc.slots[p].value == vtx[p] {
      if p !in a {
        var i := OtherIndex(|vtx|, a, 0, p);
        var id := m.shortIds[i];
        assert id == short(vtx[p]) && table[id] == p;
        if sc.slots[p].Some? {
          assert table[id] in table.Values && sc.slots[table[id]].value in pool + extra;
          assert SentTo(table, short, sc.slots[p].value, p);
        }
      }
    }
    FillRebuilds(sc.slots, vtx);
  }

  // The sender of the node prefills position zero alone.
  lemma {:induction false} CoinbaseOnly(vtx: seq<Tx>, short: ShortId)
    requires vtx != []
    ensures Increasing([0]) && Announce(vtx, short) == AnnounceWith(vtx, [0], short)
  {
    OthersFrom(|vtx|, [0], 1);
    var rest := Others(|vtx|, [0], 0);
    assert rest == Others(|vtx|, [0], 1);
  }

  lemma {:induction false} OthersFrom(n: nat, a: seq<nat>, from: nat)
    requires from <= n && forall p :: from <= p < n ==> p !in a
    ensures Others(n, a, from) == seq(n - from, i => i + from)
    decreases n - from
  {
    if from < n { OthersFrom(n, a, from + 1); }
  }

  /* ---- requests ---- */

  // The differences of a request say how many indexes are passed over before each.
  lemma {:induction false} DiffIsSum(indexes: seq<nat>, k: nat)
    requires k < |indexes|
    ensures indexes[k] == Total(Diff(indexes), k + 1) + k
    decreases k
  {
    if k > 0 { DiffIsSum(indexes, k - 1); } else { assert Total(Diff(indexes), 0) == 0; }
  }

  function Total(diffs: seq<int>, k: nat): int
    requires k <= |diffs|
  {
    if k == 0 then 0 else Total(diffs, k - 1) + diffs[k - 1]
  }
}
