/** The root of a merkle tree by levels, and which messages of a partial tree are refused. */
module MerkleRoots {
  import opened Options
  import opened Powers
  import opened MerkleTree
  import opened MerkleProofs

  /* ---- level by level ---- */

  // The level above: neighbours are hashed together in their order, and the last one with itself
  // if it has none.
  function Paired(hash: PairHash, level: seq<Digest>): (r: seq<Digest>)
    ensures |r| == (|level| + 1) / 2
  {
    seq((|level| + 1) / 2, i requires 0 <= i < (|level| + 1) / 2 =>
      hash(level[2 * i], if 2 * i + 1 < |level| then level[2 * i + 1] else level[2 * i]))
  }

  function LevelRoot(hash: PairHash, level: seq<Digest>): Digest
    requires level != []
    decreases |level|
  {
    if |level| == 1 then level[0] else LevelRoot(hash, Paired(hash, level))
  }

  // Nodes of the tree are nodes of the tree over the level above, one height lower.
  lemma {:induction false} NodeAbove(n: nat, h: nat, pos: nat)
    requires h > 0
    ensures IsNode(n, h, pos) <==> IsNode((n + 1) / 2, h - 1, pos)
  {
    var m := Pow2(h - 1);
    assert Pow2(h) == 2 * m;
    assert pos * (2 * m) == 2 * (pos * m);
  }

  lemma {:induction false} HashAbove(hash: PairHash, h: nat, pos: nat, txids: seq<Digest>)
    requires h > 0 && IsNode(|txids|, h, pos)
    ensures IsNode(|Paired(hash, txids)|, h - 1, pos)
    ensures CalcHash(hash, h, pos, txids) == CalcHash(hash, h - 1, pos, Paired(hash, txids))
    decreases h
  {
    hide First, IsNode, HasRight;
    var n, up := |txids|, Paired(hash, txids);
    NodeAbove(n, h, pos);
    Children(n, h, pos);
    CalcHashStep(hash, h, pos, txids);
    if h == 1 {
      LeafPair(hash, pos, txids);
    } else {
      Children(|up|, h - 1, pos);
      CalcHashStep(hash, h - 1, pos, up);
      NodeAbove(n, h - 1, pos * 2 + 1);
      HashAbove(hash, h - 1, pos * 2, txids);
      if HasRight(n, h, pos) { HashAbove(hash, h - 1, pos * 2 + 1, txids); }
    }
  }

  lemma {:induction false} LeafPair(hash: PairHash, pos: nat, txids: seq<Digest>)
    requires IsNode(|txids|, 1, pos)
    ensures IsNode(|Paired(hash, txids)|, 0, pos)
    ensures CalcHash(hash, 1, pos, txids) == CalcHash(hash, 0, pos, Paired(hash, txids))
  {
    assert Pow2(0) == 1 && Pow2(1) == 2;
    Children(|txids|, 1, pos);
    assert CalcHash(hash, 0, pos * 2, txids) == txids[pos * 2];
  }

  // The height of the level above is one less.
  lemma {:induction false} HeightAbove(n: nat)
    requires n > 1
    ensures TreeHeight(n) == TreeHeight((n + 1) / 2) + 1
  {
    var up := (n + 1) / 2;
    var h, k := TreeHeight(n), TreeHeight(up);
    assert Pow2(0) == 1;
    WidthMeans(n, h, 1);
    WidthMeans(up, k, 1);
    NodeAbove(n, k + 1, 1);
    WidthMeans(n, k + 1, 1);
    var w := TreeWidth(n, k + 1);
    assert h > k + 1 ==> w > 1;
    if h > 0 {
      NodeAbove(n, h, 1);
      WidthMeans(up, h - 1, 1);
      var v := TreeWidth(up, h - 1);
      assert k > h - 1 ==> v > 1;
    }
  }

  // The root that a partial tree has is that of pairing the txids level by level.
  lemma {:induction false} RootByLevels(hash: PairHash, txids: seq<Digest>)
    requires txids != []
    ensures Root(hash, txids) == LevelRoot(hash, txids)
    decreases |txids|
  {
    hide Root, Paired;
    if |txids| == 1 {
      OneLeaf(hash, txids);
    } else {
      RootAbove(hash, txids);
      RootByLevels(hash, Paired(hash, txids));
    }
  }

  lemma {:induction false} RootAbove(hash: PairHash, txids: seq<Digest>)
    requires |txids| > 1
    ensures Root(hash, txids) == Root(hash, Paired(hash, txids))
  {
    hide TreeHeight, CalcHash, Paired, HasRight;
    HeightAbove(|txids|);
    HashAbove(hash, TreeHeight(|txids|), 0, txids);
  }

  lemma {:induction false} OneLeaf(hash: PairHash, txids: seq<Digest>)
    requires |txids| == 1
    ensures Root(hash, txids) == txids[0]
  {
    assert Pow2(0) == 1;
    assert TreeWidth(1, 0) == 1;
  }

  /* ---- messages that are refused ---- */

  // What is read without a fault is read the same with more behind it.
  lemma {:induction false} ExtractMore(hash: PairHash, n: nat, h: nat, pos: nat, p: Partial, q: Partial, r: Reader)
    requires p.bits <= q.bits && p.hashes <= q.hashes && !Extract(hash, n, h, pos, p, r).0.bad
    ensures Extract(hash, n, h, pos, q, r) == Extract(hash, n, h, pos, p, r)
    decreases h
  {
    if h > 0 && p.bits[r.nBits] {
      var r0 := r.(nBits := r.nBits + 1);
      var r1 := Extract(hash, n, h - 1, pos * 2, p, r0).0;
      if HasRight(n, h, pos) { ExtractKeeps(hash, n, h - 1, pos * 2 + 1, p, r1); }
      ExtractMore(hash, n, h - 1, pos * 2, p, q, r0);
      if HasRight(n, h, pos) { ExtractMore(hash, n, h - 1, pos * 2 + 1, p, q, r1); }
    }
  }

  // One hash more than is used is refused.
  lemma {:induction false} UnusedHashRefused(hash: PairHash, n: nat, cap: nat, p: Partial, d: Digest)
    requires ExtractMatches(hash, n, cap, p).Some?
    ensures ExtractMatches(hash, n, cap, p.(hashes := p.hashes + [d])).None?
  {
    hide Extract, TreeHeight;
    ExtractMore(hash, n, TreeHeight(n), 0, p, p.(hashes := p.hashes + [d]), Reader(0, 0, false, []));
  }

  // Bits to fill up the last byte are allowed; a byte more than is used is refused.
  lemma {:induction false} UnusedByteRefused(hash: PairHash, n: nat, cap: nat, p: Partial, more: seq<bool>)
    requires ExtractMatches(hash, n, cap, p).Some?
    ensures var q := p.(bits := p.bits + more);
      ExtractMatches(hash, n, cap, q)
      == if (|p.bits| + |more| + 7) / 8 == (|p.bits| + 7) / 8 then ExtractMatches(hash, n, cap, p) else None
  {
    hide Extract, TreeHeight;
    ExtractMore(hash, n, TreeHeight(n), 0, p, p.(bits := p.bits + more), Reader(0, 0, false, []));
  }

  // Somewhere in what is read, two children of a node have the same hash.
  ghost predicate Twins(hash: PairHash, n: nat, h: nat, pos: nat, p: Partial, r: Reader)
    decreases h
  {
    && r.nBits < |p.bits| && h > 0 && p.bits[r.nBits]
    && var r0 := r.(nBits := r.nBits + 1);
       var (r1, left) := Extract(hash, n, h - 1, pos * 2, p, r0);
       || Twins(hash, n, h - 1, pos * 2, p, r0)
       || (HasRight(n, h, pos)
           && (Twins(hash, n, h - 1, pos * 2 + 1, p, r1)
               || Extract(hash, n, h - 1, pos * 2 + 1, p, r1).1 == left))
  }

  lemma {:induction false} TwinsAreBad(hash: PairHash, n: nat, h: nat, pos: nat, p: Partial, r: Reader)
    requires Twins(hash, n, h, pos, p, r)
    ensures Extract(hash, n, h, pos, p, r).0.bad
    decreases h
  {
    var r0 := r.(nBits := r.nBits + 1);
    var r1 := Extract(hash, n, h - 1, pos * 2, p, r0).0;
    if Twins(hash, n, h - 1, pos * 2, p, r0) {
      TwinsAreBad(hash, n, h - 1, pos * 2, p, r0);
      ExtractKeeps(hash, n, h - 1, pos * 2 + 1, p, r1);
    } else if HasRight(n, h, pos) && Twins(hash, n, h - 1, pos * 2 + 1, p, r1) {
      TwinsAreBad(hash, n, h - 1, pos * 2 + 1, p, r1);
    }
  }

  // Then the message is refused.
  lemma {:induction false} TwinsRefused(hash: PairHash, n: nat, cap: nat, p: Partial)
    requires Twins(hash, n, TreeHeight(n), 0, p, Reader(0, 0, false, []))
    ensures ExtractMatches(hash, n, cap, p).None?
  {
    hide Twins, TreeHeight;
    TwinsAreBad(hash, n, TreeHeight(n), 0, p, Reader(0, 0, false, []));
  }

  // A message that is accepted has no more hashes than transactions, nor than bits, is of at most
  // `cap` transactions, and is used up but for the rest of the last byte.
  lemma {:induction false} AcceptedIsUsed(hash: PairHash, n: nat, cap: nat, p: Partial)
    requires ExtractMatches(hash, n, cap, p).Some?
    ensures 0 < n <= cap && |p.hashes| <= n && |p.hashes| <= |p.bits|
    ensures var r := Extract(hash, n, TreeHeight(n), 0, p, Reader(0, 0, false, [])).0;
      r.nHashes == |p.hashes| && r.nBits <= |p.bits| < r.nBits + 8
  {
    hide TreeHeight;
    ExtractWithin(hash, n, TreeHeight(n), 0, p, Reader(0, 0, false, []));
  }

  lemma {:induction false} ExtractWithin(hash: PairHash, n: nat, h: nat, pos: nat, p: Partial, r: Reader)
    requires r.nBits <= |p.bits|
    ensures r.nBits <= Extract(hash, n, h, pos, p, r).0.nBits <= |p.bits|
    decreases h
  {
    if r.nBits < |p.bits| && h > 0 && p.bits[r.nBits] {
      var r0 := r.(nBits := r.nBits + 1);
      var r1 := Extract(hash, n, h - 1, pos * 2, p, r0).0;
      ExtractWithin(hash, n, h - 1, pos * 2, p, r0);
      if HasRight(n, h, pos) { ExtractWithin(hash, n, h - 1, pos * 2 + 1, p, r1); }
    }
  }
}
