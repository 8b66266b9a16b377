/** What the rolling bloom filter answers, exactly: a key is reported if and only if each of its
    positions is one of a key of the window. */
module RollingBloomAnswers {
  import opened Powers
  import opened Scaling
  import opened RollingBloom

  /* ---- positions ---- */

  // A hash selects a pair of words by its upper bits and a bit by its lowest six; two hashes share
  // a position exactly when they agree in both.
  lemma {:induction false} PositionExactly(h: nat, g: nat, size: nat)
    requires h < TWO_32 && g < TWO_32 && size > 0 && size % 2 == 0
    ensures Position(h, size) / 64 == Scaled(h, size / 2) && Position(h, size) % 64 == h % 64
    ensures Position(h, size) == Position(g, size) <==>
      Scaled(h, size / 2) == Scaled(g, size / 2) && h % 64 == g % 64
  {
    HalfScaled(h, size / 2);
    HalfScaled(g, size / 2);
    DivMod(Position(h, size), 64, Scaled(h, size / 2), h % 64);
    DivMod(Position(g, size), 64, Scaled(g, size / 2), g % 64);
  }

  lemma {:induction false} HalfScaled(h: nat, n: nat)
    requires h < TWO_32 && n > 0
    ensures Scaled(h, 2 * n) / 2 == Scaled(h, n)
  {
    var y := h * n;
    assert h * (2 * n) == 2 * y;
    var q, r := y / TWO_32, y % TWO_32;
    assert y == q * TWO_32 + r && 2 * y == (2 * q) * TWO_32 + 2 * r;
    if 2 * r < TWO_32 {
      DivMod(2 * y, TWO_32, 2 * q, 2 * r);
    } else {
      DivMod(2 * y, TWO_32, 2 * q + 1, 2 * r - TWO_32);
    }
  }

  /* ---- where labels come from ---- */

  // The i-th key has the position and was inserted when its label says.
  ghost predicate OwnedBy(f: Filter, keys: seq<Bytes>, i: int, p: nat)
    requires Shaped(f) && p < |f.labels|
  {
    && 0 <= i < |keys| && IsKeyPosition(f.hash, f.size, keys[i], f.nHashFuncs, p)
    && GenerationOf(|keys| - 1, f.perGeneration) - GenerationOf(i, f.perGeneration) == Age(f.labels[p], f.generation)
  }

  ghost predicate AllOwned(f: Filter, keys: seq<Bytes>)
    requires Shaped(f)
  {
    forall p :: 0 <= p < |f.labels| && f.labels[p] != 0 ==> exists i :: OwnedBy(f, keys, i, p)
  }

  // A label that is not wiped is one generation older in the next.
  lemma {:induction false} AgeGrows(l: nat, g: nat)
    requires 1 <= l <= 3 && 1 <= g <= 3 && l != NextGeneration(g)
    ensures Age(l, NextGeneration(g)) == Age(l, g) + 1
  {
  }

  lemma {:induction false} InsertOwned(f: Filter, keys: seq<Bytes>, key: Bytes)
    requires Remembers(f, keys) && AllOwned(f, keys)
    ensures Shaped(Insert(f, key)) && AllOwned(Insert(f, key), keys + [key])
  {
    hide KeyPosition, Labelled, IsKeyPosition, Remembers, OwnedBy;
    RemembersParts(f, keys);
    InsertSmall(f, key);
    var r := Insert(f, key);
    forall p | 0 <= p < |r.labels| && r.labels[p] != 0 ensures exists i :: OwnedBy(r, keys + [key], i, p) {
      var t := Turned(f);
      LabelledAt(t.hash, t.size, key, t.labels, t.generation, t.nHashFuncs, p);
      if IsKeyPosition(f.hash, f.size, key, f.nHashFuncs, p) {
        NewOwner(f, keys, key, p);
      } else {
        var i :| OwnedBy(f, keys, i, p);
        OldOwner(f, keys, key, i, p);
      }
    }
  }

  lemma {:induction false} RemembersParts(f: Filter, keys: seq<Bytes>)
    requires Remembers(f, keys)
    ensures Shaped(f) && Small(f.labels)
    ensures keys != [] ==>
      && f.thisGeneration == (|keys| - 1) % f.perGeneration + 1
      && f.generation == GenerationOf(|keys| - 1, f.perGeneration) % 3 + 1
    ensures keys == [] ==> f.thisGeneration == 0 && f.generation == 1
  {
  }

  lemma {:induction false} NewOwner(f: Filter, keys: seq<Bytes>, key: Bytes, p: nat)
    requires Remembers(f, keys) && p < |f.labels| && IsKeyPosition(f.hash, f.size, key, f.nHashFuncs, p)
    ensures Shaped(Insert(f, key)) && OwnedBy(Insert(f, key), keys + [key], |keys|, p)
  {
    hide KeyPosition, Labelled, IsKeyPosition, Remembers;
    RemembersParts(f, keys);
    InsertSmall(f, key);
    var t := Turned(f);
    LabelledAt(t.hash, t.size, key, t.labels, t.generation, t.nHashFuncs, p);
  }

  lemma {:induction false} OldOwner(f: Filter, keys: seq<Bytes>, key: Bytes, i: int, p: nat)
    requires Remembers(f, keys) && p < |f.labels| && OwnedBy(f, keys, i, p)
    requires !IsKeyPosition(f.hash, f.size, key, f.nHashFuncs, p)
    requires Shaped(Insert(f, key)) && Insert(f, key).labels[p] != 0
    ensures OwnedBy(Insert(f, key), keys + [key], i, p)
  {
    hide KeyPosition, Labelled, IsKeyPosition, Remembers;
    RemembersParts(f, keys);
    var t, per := Turned(f), f.perGeneration;
    LabelledAt(t.hash, t.size, key, t.labels, t.generation, t.nHashFuncs, p);
    assert (keys + [key])[i] == keys[i];
    Counters(|keys|, per);
    if f.thisGeneration == per { AgeGrows(f.labels[p], f.generation); }
  }

  lemma {:induction false} RunOwned(f: Filter, keys: seq<Bytes>)
    requires Remembers(f, []) && forall p :: 0 <= p < |f.labels| ==> f.labels[p] == 0
    ensures AllOwned(Run(f, keys), keys)
    decreases |keys|
  {
    hide Insert, OwnedBy;
    if keys != [] {
      var front := keys[..|keys| - 1];
      RunOwned(f, front);
      InsertOwned(Run(f, front), front, keys[|keys| - 1]);
      assert front + [keys[|keys| - 1]] == keys;
    }
  }

  /* ---- the answer ---- */

  // The key is one of the current generation or of the two before.
  predicate InWindow(i: int, n: nat, per: nat)
    requires per >= 1
  {
    0 <= i < n && GenerationOf(n - 1, per) - GenerationOf(i, per) <= 2
  }

  // Some key of the window has the position.
  ghost predicate Taken(f: Filter, keys: seq<Bytes>, p: nat)
    requires Shaped(f)
  {
    exists i :: InWindow(i, |keys|, f.perGeneration) && IsKeyPosition(f.hash, f.size, keys[i], f.nHashFuncs, p)
  }

  lemma {:induction false} LabelledIffTaken(f: Filter, keys: seq<Bytes>, p: nat)
    requires Remembers(f, keys) && AllOwned(f, keys) && p < |f.labels|
    ensures f.labels[p] != 0 <==> Taken(f, keys, p)
  {
    hide KeyPosition, GenerationOf;
    if f.labels[p] != 0 {
      var i :| OwnedBy(f, keys, i, p);
      assert Small(f.labels) && Age(f.labels[p], f.generation) <= 2;
      assert InWindow(i, |keys|, f.perGeneration);
    }
    if Taken(f, keys, p) {
      var i :| InWindow(i, |keys|, f.perGeneration) && IsKeyPosition(f.hash, f.size, keys[i], f.nHashFuncs, p);
      assert KeyHeld(f, keys[i], GenerationOf(|keys| - 1, f.perGeneration) - GenerationOf(i, f.perGeneration));
    }
  }

  // After any number of insertions since the reset, a key is reported if and only if each of its
  // positions is a position of a key of the window.
  lemma {:induction false} ReportsExactly(hash: Hash, nHashFuncs: nat, size: nat, nElements: nat, keys: seq<Bytes>,
                                          key: Bytes)
    requires size > 0 && size % 2 == 0 && nElements >= 1
    ensures Remembers(Fresh(hash, nHashFuncs, size, nElements), [])
    ensures var f := Run(Fresh(hash, nHashFuncs, size, nElements), keys);
      Contains(f, key) <==>
        forall n :: 0 <= n < f.nHashFuncs ==> Taken(f, keys, KeyPosition(f.hash, n, key, f.size))
  {
    hide KeyPosition, Run, Taken, Remembers, AllOwned;
    FreshRemembers(hash, nHashFuncs, size, nElements);
    RunOwned(Fresh(hash, nHashFuncs, size, nElements), keys);
    var f := Run(Fresh(hash, nHashFuncs, size, nElements), keys);
    RemembersParts(f, keys);
    forall n | 0 <= n < f.nHashFuncs
      ensures f.labels[KeyPosition(f.hash, n, key, f.size)] != 0 <==>
        Taken(f, keys, KeyPosition(f.hash, n, key, f.size))
    {
      LabelledIffTaken(f, keys, KeyPosition(f.hash, n, key, f.size));
    }
  }
}
