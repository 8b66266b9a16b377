/** The rolling bloom filter: every position of the filter carries the label of the
    generation that set it last, 1 to 3, or 0; a new generation first wipes the labels
    that used its number. The hash functions are a parameter. */
module RollingBloom {
  import opened Powers
  import opened Scaling

  type Bytes = seq<nat>

  type Hash = h: (nat, Bytes) -> nat | (forall n, k :: h(n, k) < TWO_32) witness (n, k) => 0

  /* ---- positions ---- */

  // The position a hash selects in a filter of `size` words: 64 to each pair of words.
  function Position(h: nat, size: nat): (r: nat)
    requires h < TWO_32 && size > 0 && size % 2 == 0
    ensures r < 32 * size
  {
    Scaled(h, size) / 2 * 64 + h % 64
  }

  function KeyPosition(hash: Hash, n: nat, key: Bytes, size: nat): (r: nat)
    requires size > 0 && size % 2 == 0
    ensures r < 32 * size
  {
    Position(hash(n, key), size)
  }

  /* ---- the filter on labels ---- */

  datatype Filter = Filter(hash: Hash, nHashFuncs: nat, size: nat, labels: seq<nat>, perGeneration: nat,
                           thisGeneration: nat, generation: nat)

  ghost predicate Shaped(f: Filter) {
    && f.size > 0 && f.size % 2 == 0 && |f.labels| == 32 * f.size
    && f.perGeneration >= 1 && 1 <= f.generation <= 3
  }

  function Fresh(hash: Hash, nHashFuncs: nat, size: nat, nElements: nat): Filter {
    Filter(hash, nHashFuncs, size, seq(32 * size, _ => 0), (nElements + 1) / 2, 0, 1)
  }

  function NextGeneration(g: nat): nat { if g + 1 == 4 then 1 else g + 1 }

  // Labels that used the generation's number are cleared.
  function Wiped(labels: seq<nat>, g: nat): seq<nat> {
    seq(|labels|, i requires 0 <= i < |labels| => if labels[i] == g then 0 else labels[i])
  }

  // The first n hash positions of the key are labelled.
  function Labelled(hash: Hash, size: nat, key: Bytes, labels: seq<nat>, g: nat, n: nat): (r: seq<nat>)
    requires size > 0 && size % 2 == 0 && |labels| == 32 * size
    ensures |r| == |labels|
  {
    if n == 0 then labels else Labelled(hash, size, key, labels, g, n - 1)[KeyPosition(hash, n - 1, key, size) := g]
  }

  function Turned(f: Filter): Filter {
    if f.thisGeneration == f.perGeneration then
      var g := NextGeneration(f.generation);
      f.(thisGeneration := 0, generation := g, labels := Wiped(f.labels, g))
    else f
  }

  function Insert(f: Filter, key: Bytes): Filter
    requires Shaped(f)
  {
    var t := Turned(f);
    t.(thisGeneration := t.thisGeneration + 1,
        labels := Labelled(t.hash, t.size, key, t.labels, t.generation, t.nHashFuncs))
  }

  ghost predicate Contains(f: Filter, key: Bytes)
    requires Shaped(f)
  {
    forall n :: 0 <= n < f.nHashFuncs ==> f.labels[KeyPosition(f.hash, n, key, f.size)] != 0
  }

  /* ---- generations ---- */

  // How many generations ago a label was given.
  function Age(l: nat, g: nat): int { if l <= g then g - l else g + 3 - l }

  // Generation of the i-th key, counted from zero and never wrapping.
  function GenerationOf(i: nat, perGeneration: nat): nat
    requires perGeneration >= 1
  {
    i / perGeneration
  }

  // After the given keys were inserted: the counters, and for every key of the current
  // generation or the two before, labels on its positions no older than the key.
  ghost predicate Remembers(f: Filter, keys: seq<Bytes>) {
    && Shaped(f) && Small(f.labels)
    && (keys == [] ==> f.thisGeneration == 0 && f.generation == 1)
    && (keys != [] ==>
          var now := GenerationOf(|keys| - 1, f.perGeneration);
          && f.thisGeneration == (|keys| - 1) % f.perGeneration + 1 && f.generation == now % 3 + 1
          && forall i :: 0 <= i < |keys| ==> KeyHeld(f, keys[i], now - GenerationOf(i, f.perGeneration)))
  }

  // A key inserted `since` generations ago is still fully labelled, unless that is more than two.
  ghost predicate KeyHeld(f: Filter, key: Bytes, since: int)
    requires Shaped(f)
  {
    since <= 2 ==> forall n :: 0 <= n < f.nHashFuncs ==>
        Held(f.labels, KeyPosition(f.hash, n, key, f.size), f.generation, since)
  }

  predicate Held(labels: seq<nat>, p: nat, g: nat, since: int)
    requires p < |labels|
  {
    1 <= labels[p] <= 3 && Age(labels[p], g) <= since
  }

  /* ---- each step keeps this ---- */

  // Labelling gives every position of the key the current label and touches no other.
  lemma {:induction false} LabelledAt(hash: Hash, size: nat, key: Bytes, labels: seq<nat>, g: nat, n: nat, p: nat)
    requires size > 0 && size % 2 == 0 && |labels| == 32 * size && p < |labels|
    ensures Labelled(hash, size, key, labels, g, n)[p] == if IsKeyPosition(hash, size, key, n, p) then g else labels[p]
    decreases n
  {
    if n > 0 {
      LabelledAt(hash, size, key, labels, g, n - 1, p);
      OneMorePosition(hash, size, key, n, p);
    }
  }

  // One of the first n positions of a key.
  ghost predicate IsKeyPosition(hash: Hash, size: nat, key: Bytes, n: nat, p: nat)
    requires size > 0 && size % 2 == 0
  {
    exists m :: 0 <= m < n && KeyPosition(hash, m, key, size) == p
  }

  lemma {:induction false} OneMorePosition(hash: Hash, size: nat, key: Bytes, n: nat, p: nat)
    requires size > 0 && size % 2 == 0 && n > 0
    ensures IsKeyPosition(hash, size, key, n, p) <==>
      IsKeyPosition(hash, size, key, n - 1, p) || KeyPosition(hash, n - 1, key, size) == p
  {
    hide KeyPosition;
  }

  // A wipe clears only labels three generations old, which then number as the new one.
  lemma {:induction false} WipeKeeps(labels: seq<nat>, p: nat, g: nat, since: int)
    requires p < |labels| && 1 <= g <= 3 && since <= 1 && Held(labels, p, g, since)
    ensures Held(Wiped(labels, NextGeneration(g)), p, NextGeneration(g), since + 1)
  {
  }

  lemma {:induction false} TurnKeeps(f: Filter, key: Bytes, since: int)
    requires Shaped(f) && KeyHeld(f, key, since)
    ensures Shaped(Turned(f))
    ensures KeyHeld(Turned(f), key, if f.thisGeneration == f.perGeneration then since + 1 else since)
  {
    if f.thisGeneration == f.perGeneration && since <= 1 {
      forall n | 0 <= n < f.nHashFuncs
        ensures Held(Turned(f).labels, KeyPosition(f.hash, n, key, f.size), Turned(f).generation, since + 1)
      {
        WipeKeeps(f.labels, KeyPosition(f.hash, n, key, f.size), f.generation, since);
      }
    }
  }

  lemma {:induction false} LabelKeeps(f: Filter, key: Bytes, other: Bytes, since: int)
    requires Shaped(f) && since >= 0 && KeyHeld(f, other, since)
    ensures var r := f.(labels := Labelled(f.hash, f.size, key, f.labels, f.generation, f.nHashFuncs));
      Shaped(r) && KeyHeld(r, other, since)
  {
    hide KeyPosition, Labelled;
    var r := f.(labels := Labelled(f.hash, f.size, key, f.labels, f.generation, f.nHashFuncs));
    if since <= 2 {
      forall n | 0 <= n < f.nHashFuncs ensures Held(r.labels, KeyPosition(f.hash, n, other, f.size), r.generation,
                                                    since) {
        var p := KeyPosition(f.hash, n, other, f.size);
        assert Held(f.labels, p, f.generation, since);
        LabelledAt(f.hash, f.size, key, f.labels, f.generation, f.nHashFuncs, p);
      }
    }
  }

  lemma {:induction false} LabelHolds(f: Filter, key: Bytes)
    requires Shaped(f)
    ensures var r := f.(labels := Labelled(f.hash, f.size, key, f.labels, f.generation, f.nHashFuncs));
      Shaped(r) && KeyHeld(r, key, 0)
  {
    hide KeyPosition, Labelled;
    var r := f.(labels := Labelled(f.hash, f.size, key, f.labels, f.generation, f.nHashFuncs));
    forall n | 0 <= n < f.nHashFuncs ensures Held(r.labels, KeyPosition(f.hash, n, key, f.size), r.generation, 0) {
      LabelledAt(f.hash, f.size, key, f.labels, f.generation, f.nHashFuncs, KeyPosition(f.hash, n, key, f.size));
    }
  }

  // The counters follow the number of keys.
  lemma {:induction false} Counters(n: nat, per: nat)
    requires per >= 1 && n >= 1
    ensures (n - 1) % per + 1 == per ==> n / per == (n - 1) / per + 1 && n % per == 0
    ensures (n - 1) % per + 1 != per ==> n / per == (n - 1) / per && n % per == (n - 1) % per + 1
  {
    var q, r := (n - 1) / per, (n - 1) % per;
    if r + 1 == per {
      assert n == (q + 1) * per;
      DivMod(n, per, q + 1, 0);
    } else {
      DivMod(n, per, q, r + 1);
    }
  }

  ghost predicate Small(labels: seq<nat>) { forall p :: 0 <= p < |labels| ==> labels[p] <= 3 }

  lemma {:induction false} InsertSmall(f: Filter, key: Bytes)
    requires Shaped(f) && Small(f.labels)
    ensures Shaped(Insert(f, key)) && Small(Insert(f, key).labels)
  {
    hide KeyPosition, Labelled;
    var t := Turned(f);
    assert Small(t.labels);
    forall p | 0 <= p < |t.labels| ensures Insert(f, key).labels[p] <= 3 {
      LabelledAt(t.hash, t.size, key, t.labels, t.generation, t.nHashFuncs, p);
    }
  }

  lemma {:induction false} InsertHolds(f: Filter, key: Bytes, other: Bytes, since: int)
    requires Shaped(f) && since >= 0 && KeyHeld(f, other, since)
    ensures Shaped(Insert(f, key))
    ensures KeyHeld(Insert(f, key), other, if f.thisGeneration == f.perGeneration then since + 1 else since)
    ensures KeyHeld(Insert(f, key), key, 0)
  {
    hide KeyPosition, Labelled, Wiped, Held;
    TurnKeeps(f, other, since);
    var t := Turned(f);
    LabelKeeps(t, key, other, if f.thisGeneration == f.perGeneration then since + 1 else since);
    LabelHolds(t, key);
  }

  lemma {:induction false} InsertRemembers(f: Filter, keys: seq<Bytes>, key: Bytes)
    requires Remembers(f, keys)
    ensures Remembers(Insert(f, key), keys + [key])
  {
    hide KeyPosition, Labelled, Wiped, Held;
    InsertSmall(f, key);
    var r, all, per := Insert(f, key), keys + [key], f.perGeneration;
    HoldsNew(f, key);
    if keys == [] {
      DivMod(0, per, 0, 0);
    } else {
      Counters(|keys|, per);
      var was, now := GenerationOf(|keys| - 1, per), GenerationOf(|keys|, per);
      NextLabel(was);
      forall i | 0 <= i < |all| ensures KeyHeld(r, all[i], now - GenerationOf(i, per)) {
        if i < |keys| {
          GenerationGrows(i, |keys| - 1, per);
          InsertHolds(f, key, keys[i], was - GenerationOf(i, per));
        }
      }
    }
  }

  lemma {:induction false} HoldsNew(f: Filter, key: Bytes)
    requires Shaped(f)
    ensures Shaped(Insert(f, key)) && KeyHeld(Insert(f, key), key, 0)
  {
    hide KeyPosition, Labelled, Held;
    LabelHolds(Turned(f), key);
  }

  lemma {:induction false} NextLabel(g: nat)
    ensures NextGeneration(g % 3 + 1) == (g + 1) % 3 + 1
  {
  }

  lemma {:induction false} GenerationGrows(i: nat, j: nat, per: nat)
    requires i <= j && per >= 1
    ensures GenerationOf(i, per) <= GenerationOf(j, per)
  {
    DivLess(j, i / per, per);
  }

  /* ---- runs ---- */

  ghost function Run(f: Filter, keys: seq<Bytes>): (r: Filter)
    requires Remembers(f, [])
    ensures Remembers(r, keys)
    decreases |keys|
  {
    if keys == [] then f
    else
      var last := |keys| - 1;
      var r := Run(f, keys[..last]);
      InsertRemembers(r, keys[..last], keys[last]);
      assert keys[..last] + [keys[last]] == keys;
      Insert(r, keys[last])
  }

  lemma {:induction false} FreshRemembers(hash: Hash, nHashFuncs: nat, size: nat, nElements: nat)
    requires size > 0 && size % 2 == 0 && nElements >= 1
    ensures Remembers(Fresh(hash, nHashFuncs, size, nElements), [])
  {
  }

  // However many keys were inserted since the reset, each of the current generation and of the two
  // before it is reported: between two and three generations of half the elements each.
  lemma {:induction false} WindowIsReported(hash: Hash, nHashFuncs: nat, size: nat, nElements: nat, keys: seq<Bytes>,
                                            i: nat)
    requires size > 0 && size % 2 == 0 && nElements >= 1 && i < |keys|
    requires var per := (nElements + 1) / 2; i >= |keys| - 2 * per - ((|keys| - 1) % per + 1)
    ensures Remembers(Fresh(hash, nHashFuncs, size, nElements), [])
    ensures Contains(Run(Fresh(hash, nHashFuncs, size, nElements), keys), keys[i])
  {
    FreshRemembers(hash, nHashFuncs, size, nElements);
    var f := Run(Fresh(hash, nHashFuncs, size, nElements), keys);
    RunKeepsSize(Fresh(hash, nHashFuncs, size, nElements), keys);
    WithinWindow(i, |keys| - 1, f.perGeneration);
    assert KeyHeld(f, keys[i], GenerationOf(|keys| - 1, f.perGeneration) - GenerationOf(i, f.perGeneration));
  }

  lemma {:induction false} WithinWindow(i: nat, j: nat, per: nat)
    requires per >= 1 && i <= j && i >= j - 2 * per - j % per
    ensures GenerationOf(j, per) - GenerationOf(i, per) <= 2
  {
    var q := j / per;
    assert j == q * per + j % per;
    if q >= 2 {
      assert (q - 2) * per == q * per - 2 * per;
      DivLess(i, q - 2, per);
    }
  }

  // So is each of the last nElements.
  lemma {:induction false} LastAreReported(hash: Hash, nHashFuncs: nat, size: nat, nElements: nat, keys: seq<Bytes>,
                                           i: nat)
    requires size > 0 && size % 2 == 0 && nElements >= 1
    requires |keys| - nElements <= i < |keys|
    ensures Remembers(Fresh(hash, nHashFuncs, size, nElements), [])
    ensures Contains(Run(Fresh(hash, nHashFuncs, size, nElements), keys), keys[i])
  {
    WindowIsReported(hash, nHashFuncs, size, nElements, keys, i);
  }

  lemma {:induction false} RunKeepsSize(f: Filter, keys: seq<Bytes>)
    requires Remembers(f, [])
    ensures Run(f, keys).perGeneration == f.perGeneration
    decreases |keys|
  {
    if keys != [] { RunKeepsSize(f, keys[..|keys| - 1]); }
  }
}
