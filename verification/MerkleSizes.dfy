/** How many flag bits a partial merkle tree takes, and exactly when that keeps within the
    documented two per hash, less one. */
module MerkleSizes {
  import opened Powers
  import opened MerkleTree
  import opened MerkleProofs

  /* ---- nodes with one child are last at their height ---- */

  predicate IsLast(n: nat, h: nat, pos: nat) { IsNode(n, h, pos) && (pos + 1) * Pow2(h) >= n }

  lemma {:induction false} WidthAtLast(n: nat, h: nat, pos: nat)
    requires IsLast(n, h, pos)
    ensures TreeWidth(n, h) == pos + 1
  {
    WidthMeans(n, h, pos);
    WidthMeans(n, h, pos + 1);
  }

  // The last node has one child only when the level below has an odd number of nodes.
  lemma {:induction false} LastChild(n: nat, h: nat, pos: nat)
    requires IsLast(n, h, pos) && h > 0
    ensures HasRight(n, h, pos) <==> TreeWidth(n, h - 1) % 2 == 0
    ensures IsLast(n, h - 1, if HasRight(n, h, pos) then pos * 2 + 1 else pos * 2)
  {
    hide TreeWidth, Pow2;
    Children(n, h, pos);
    var m := Pow2(h - 1);
    Pow2Next(h - 1);
    Halves(pos, m);
    WidthAtLast(n, h - 1, if HasRight(n, h, pos) then pos * 2 + 1 else pos * 2);
  }

  // A node all of whose leaves exist has no such node below it.
  lemma {:induction false} CompleteHasNone(h: nat, pos: nat, n: nat, matches: seq<bool>)
    requires n == |matches| && (pos + 1) * Pow2(h) <= n && IsNode(n, h, pos)
    ensures Lonely(h, pos, n, matches) == 0
    decreases h
  {
    hide Pow2, IsNode, HasRight, ParentOfMatch, First, Past;
    if h > 0 {
      CompleteChildren(h, pos, n);
      CompleteHasNone(h - 1, pos * 2, n, matches);
      CompleteHasNone(h - 1, pos * 2 + 1, n, matches);
    }
  }

  lemma {:induction false} Halves(pos: nat, m: nat)
    ensures (pos + 1) * (2 * m) == (pos * 2 + 2) * m
    ensures (pos * 2 + 1) * m == (pos * 2) * m + m
    ensures (pos * 2 + 2) * m == (pos * 2 + 1) * m + m
  {
  }

  lemma {:induction false} CompleteChildren(h: nat, pos: nat, n: nat)
    requires h > 0 && (pos + 1) * Pow2(h) <= n && IsNode(n, h, pos)
    ensures HasRight(n, h, pos) && IsNode(n, h - 1, pos * 2) && IsNode(n, h - 1, pos * 2 + 1)
    ensures (pos * 2 + 1) * Pow2(h - 1) <= n && (pos * 2 + 2) * Pow2(h - 1) <= n
  {
    hide Pow2;
    Pow2Next(h - 1);
    Halves(pos, Pow2(h - 1));
    Children(n, h, pos);
  }

  lemma {:induction false} LeftIsComplete(h: nat, pos: nat, n: nat)
    requires h > 0 && IsNode(n, h, pos) && HasRight(n, h, pos)
    ensures (pos * 2 + 1) * Pow2(h - 1) <= n
  {
    Children(n, h, pos);
  }

  lemma {:induction false} AtMostOnePerLevel(h: nat, pos: nat, n: nat, matches: seq<bool>)
    requires n == |matches| && IsNode(n, h, pos)
    ensures Lonely(h, pos, n, matches) <= h
    decreases h
  {
    if h > 0 && ParentOfMatch(matches, First(h, pos), Past(n, h, pos)) {
      Children(n, h, pos);
      if HasRight(n, h, pos) {
        LeftIsComplete(h, pos, n);
        CompleteHasNone(h - 1, pos * 2, n, matches);
        AtMostOnePerLevel(h - 1, pos * 2 + 1, n, matches);
      } else {
        AtMostOnePerLevel(h - 1, pos * 2, n, matches);
      }
    }
  }

  /* ---- when there is one ---- */

  // First leaf below the last node of a level.
  function LastLeaves(n: nat, k: nat): int { (TreeWidth(n, k) - 1) * Pow2(k) }

  // The level below has an odd number of nodes and the node above the odd one covers a match.
  ghost predicate OddAboveMatch(n: nat, matches: seq<bool>, k: nat) {
    k >= 1 && TreeWidth(n, k - 1) % 2 == 1 && exists p :: LastLeaves(n, k) <= p < n && 0 <= p < |matches| && matches[p]
  }

  lemma {:induction false} LastNested(n: nat, h: nat, pos: nat, k: nat)
    requires IsLast(n, h, pos) && k <= h
    ensures LastLeaves(n, k) >= First(h, pos)
    decreases h - k
  {
    WidthAtLast(n, h, pos);
    if k < h {
      LastChild(n, h, pos);
      Children(n, h, pos);
      LastNested(n, h - 1, if HasRight(n, h, pos) then pos * 2 + 1 else pos * 2, k);
    }
  }

  ghost predicate SomeOdd(n: nat, matches: seq<bool>, h: nat) {
    exists k :: 1 <= k <= h && OddAboveMatch(n, matches, k)
  }

  lemma {:induction false} LonelyMeans(h: nat, pos: nat, n: nat, matches: seq<bool>)
    requires n == |matches| && IsLast(n, h, pos)
    ensures Lonely(h, pos, n, matches) > 0 <==> SomeOdd(n, matches, h)
    decreases h
  {
    if h > 0 {
      Children(n, h, pos);
      LastChild(n, h, pos);
      WidthAtLast(n, h, pos);
      assert SomeOdd(n, matches, h) <==> OddAboveMatch(n, matches, h) || SomeOdd(n, matches, h - 1);
      if !ParentOfMatch(matches, First(h, pos), Past(n, h, pos)) {
        NoneBelow(h, pos, n, matches);
      } else if HasRight(n, h, pos) {
        LeftIsComplete(h, pos, n);
        CompleteHasNone(h - 1, pos * 2, n, matches);
        LonelyMeans(h - 1, pos * 2 + 1, n, matches);
      } else {
        assert OddAboveMatch(n, matches, h);
      }
    }
  }

  lemma {:induction false} NoneBelow(h: nat, pos: nat, n: nat, matches: seq<bool>)
    requires n == |matches| && IsLast(n, h, pos) && !Any(matches, First(h, pos), Past(n, h, pos))
    ensures !SomeOdd(n, matches, h)
  {
    assert Past(n, h, pos) == n;
    forall k | 1 <= k <= h ensures !OddAboveMatch(n, matches, k) {
      LastNested(n, h, pos, k);
    }
  }

  /* ---- the bound ---- */

  function Written(hash: PairHash, txids: seq<Digest>, matches: seq<bool>): Partial
    requires txids != [] && |txids| == |matches|
  {
    Build(hash, TreeHeight(|txids|), 0, txids, matches)
  }

  // The bits exceed two per hash, less one, by no more than the height of the tree, and
  // exceed it at all exactly when some level has an odd number of nodes and the node
  // above the odd one covers a match.
  lemma {:induction false} BitBound(hash: PairHash, txids: seq<Digest>, matches: seq<bool>)
    requires txids != [] && |txids| == |matches|
    ensures var e := Written(hash, txids, matches);
      && |e.bits| <= 2 * |e.hashes| - 1 + TreeHeight(|txids|)
      && (|e.bits| <= 2 * |e.hashes| - 1 <==> !SomeOdd(|txids|, matches, TreeHeight(|txids|)))
  {
    var h := TreeHeight(|txids|);
    BitsWritten(hash, h, 0, txids, matches);
    AtMostOnePerLevel(h, 0, |txids|, matches);
    LonelyMeans(h, 0, |txids|, matches);
  }

  // Five transactions with only the last one matched.
  lemma {:induction false} BitBoundFails(hash: PairHash, txids: seq<Digest>)
    requires |txids| == 5
    ensures var e := Written(hash, txids, [false, false, false, false, true]); |e.bits| > 2 * |e.hashes| - 1
  {
    hide Written, SomeOdd, TreeHeight;
    FiveIsOdd();
    BitBound(hash, txids, [false, false, false, false, true]);
  }

  lemma {:induction false} FiveIsOdd()
    ensures SomeOdd(5, [false, false, false, false, true], TreeHeight(5))
  {
    hide TreeHeight;
    var matches := [false, false, false, false, true];
    assert Pow2(0) == 1 && Pow2(1) == 2;
    assert TreeWidth(5, 0) == 5 && TreeWidth(5, 1) == 3 && LastLeaves(5, 1) == 4;
    assert OddAboveMatch(5, matches, 1) by { assert matches[4]; }
    assert TreeHeight(5) >= 1;
  }

  // Hashes: one per transaction at most, and one more than one per match and level.
  lemma {:induction false} HashBound(hash: PairHash, txids: seq<Digest>, matches: seq<bool>)
    requires txids != [] && |txids| == |matches|
    ensures var e := Written(hash, txids, matches);
      && 1 <= |e.hashes| <= |txids| && |e.hashes| <= |e.bits|
      && |e.hashes| <= 1 + |Matched(txids, matches, 0, |txids|)| * TreeHeight(|txids|)
  {
    var h := TreeHeight(|txids|);
    assert First(h, 0) == 0 && Past(|txids|, h, 0) == |txids|;
    HashesPerLeaf(hash, h, 0, txids, matches);
    HashesPerMatch(hash, h, 0, txids, matches);
    BitsWritten(hash, h, 0, txids, matches);
  }

  /* ---- the serialized size ---- */

  // Bytes of a count in front of a vector.
  function CompactSize(n: nat): nat {
    if n < 253 then 1 else if n <= 0xffff then 3 else if n <= 0xffff_ffff then 5 else 9
  }

  function FlagBytes(e: Partial): nat { (|e.bits| + 7) / 8 }

  // The number of transactions, the hashes and the packed bits.
  function SerializedSize(e: Partial): nat {
    4 + CompactSize(|e.hashes|) + 32 * |e.hashes| + CompactSize(FlagBytes(e)) + FlagBytes(e)
  }

  // 10 + ceil(32.25 * N)
  function PromisedSize(n: nat): nat { 10 + (129 * n + 3) / 4 }

  lemma {:induction false} ExtraBytes(x: nat, l: nat, s: int)
    ensures (x + l) / 8 < x / 8 + s <==> x % 8 + l < 8 * s
  {
  }

  lemma {:induction false} SizeArithmetic(n: nat, l: nat, c: int, d: int)
    ensures 4 + c + 32 * n + d + (2 * n + 6 + l) / 8 <= 10 + (129 * n + 3) / 4 <==>
      (2 * n + 6) % 8 + l < 8 * (7 - c - d)
  {
    ExtraBytes(2 * n + 6, l, 7 - c - d);
    assert (129 * n + 3) / 4 == 32 * n + (n + 3) / 4;
    assert (2 * n + 6) / 8 == (n + 3) / 4;
  }

  // The size keeps the promise exactly when the nodes with one child on the way to a match
  // are few enough for what the two counts leave: with counts of three bytes, when their bits
  // need no byte of their own. Both numbers are those of the transactions and the matches.
  lemma {:induction false} SizeBound(hash: PairHash, txids: seq<Digest>, matches: seq<bool>)
    requires txids != [] && |txids| == |matches|
    ensures var h, n := TreeHeight(|txids|), |txids|;
      var leaves, lonely := Leaves(h, 0, n, matches), Lonely(h, 0, n, matches);
      && |Written(hash, txids, matches).hashes| == leaves
      && (SerializedSize(Written(hash, txids, matches)) <= PromisedSize(leaves) <==>
            (2 * leaves + 6) % 8 + lonely
              < 8 * (7 - CompactSize(leaves) - CompactSize((2 * leaves + 6 + lonely) / 8)))
  {
    hide CompactSize, Lonely, Leaves, TreeHeight, Build;
    var h, e := TreeHeight(|txids|), Written(hash, txids, matches);
    BitsWritten(hash, h, 0, txids, matches);
    HashesWritten(hash, h, 0, txids, matches);
    HashBound(hash, txids, matches);
    SizeArithmetic(|e.hashes|, Lonely(h, 0, |txids|, matches), CompactSize(|e.hashes|), CompactSize(FlagBytes(e)));
  }

  // The levels below height h with an odd number of nodes.
  function OddLevels(n: nat, h: nat): nat { if h == 0 then 0 else OddLevels(n, h - 1) + TreeWidth(n, h - 1) % 2 }

  // With the last transaction matched, each of them has such a node above.
  lemma {:induction false} LonelyCounts(h: nat, pos: nat, n: nat, matches: seq<bool>)
    requires n == |matches| && IsLast(n, h, pos) && matches[n - 1]
    ensures Lonely(h, pos, n, matches) == OddLevels(n, h)
    decreases h
  {
    if h > 0 {
      Children(n, h, pos);
      LastChild(n, h, pos);
      LastIsCovered(h, pos, n, matches);
      if HasRight(n, h, pos) {
        LeftIsComplete(h, pos, n);
        CompleteHasNone(h - 1, pos * 2, n, matches);
        LonelyCounts(h - 1, pos * 2 + 1, n, matches);
      } else {
        LonelyCounts(h - 1, pos * 2, n, matches);
      }
    }
  }

  lemma {:induction false} LastIsCovered(h: nat, pos: nat, n: nat, matches: seq<bool>)
    requires n == |matches| && IsLast(n, h, pos) && matches[n - 1]
    ensures ParentOfMatch(matches, First(h, pos), Past(n, h, pos))
  {
    assert First(h, pos) <= n - 1 < Past(n, h, pos);
  }

  lemma {:induction false} AllBuilt(hash: PairHash, h: nat, pos: nat, txids: seq<Digest>, matches: seq<bool>)
    requires |txids| == |matches| && IsNode(|txids|, h, pos) && forall i :: 0 <= i < |matches| ==> matches[i]
    ensures h == 0 ==> |Build(hash, h, pos, txids, matches).hashes| == Past(|txids|, h, pos) - First(h, pos) == 1
    ensures h > 0 ==>
      IsNode(|txids|, h - 1, pos * 2) && (HasRight(|txids|, h, pos) ==> IsNode(|txids|, h - 1, pos * 2 + 1))
    ensures h > 0 ==>
      |Build(hash, h, pos, txids, matches).hashes| == |Build(hash, h - 1, pos * 2, txids, matches).hashes|
        + if HasRight(|txids|, h, pos) then |Build(hash, h - 1, pos * 2 + 1, txids, matches).hashes| else 0
  {
    assert matches[First(h, pos)];
    if h > 0 { Children(|txids|, h, pos); }
  }

  // With all of them matched every transaction has its hash.
  lemma {:induction false} AllHashes(hash: PairHash, h: nat, pos: nat, txids: seq<Digest>, matches: seq<bool>)
    requires |txids| == |matches| && IsNode(|txids|, h, pos) && forall i :: 0 <= i < |matches| ==> matches[i]
    ensures |Build(hash, h, pos, txids, matches).hashes| == Past(|txids|, h, pos) - First(h, pos)
    decreases h
  {
    hide First, Past, IsNode, HasRight, Build;
    AllBuilt(hash, h, pos, txids, matches);
    if h > 0 {
      Children(|txids|, h, pos);
      AllHashes(hash, h - 1, pos * 2, txids, matches);
      if HasRight(|txids|, h, pos) { AllHashes(hash, h - 1, pos * 2 + 1, txids, matches); }
    }
  }

  // 1012 transactions, all of them matched: two levels, of 253 and 127 nodes, are odd.
  lemma {:induction false} SizeFails(hash: PairHash, txids: seq<Digest>, matches: seq<bool>)
    requires |txids| == |matches| == 1012 && forall i :: 0 <= i < |matches| ==> matches[i]
    ensures var e := Written(hash, txids, matches); SerializedSize(e) == PromisedSize(|e.hashes|) + 1
  {
    hide Lonely, TreeHeight, TreeWidth, Build, OddLevels;
    Levels1012();
    LonelyCounts(10, 0, 1012, matches);
    AllHashes(hash, 10, 0, txids, matches);
    BitsWritten(hash, 10, 0, txids, matches);
  }

  lemma {:induction false} Levels1012()
    ensures TreeHeight(1012) == 10 && IsLast(1012, 10, 0) && OddLevels(1012, 10) == 2
    ensures First(10, 0) == 0 && Past(1012, 10, 0) == 1012
  {
    hide TreeHeight, TreeWidth, OddLevels, Pow2;
    NoLevels(1012);
    var p := 1;
    for h := 0 to 10
      invariant p == Pow2(h) && OddLevels(1012, h) == if h < 3 then 0 else if h == 3 then 1 else 2
      invariant h == 0 ==> p == 1
      invariant h == 1 ==> p == 2
      invariant h == 2 ==> p == 4
      invariant h == 3 ==> p == 8
      invariant h == 4 ==> p == 16
      invariant h == 5 ==> p == 32
      invariant h == 6 ==> p == 64
      invariant h == 7 ==> p == 128
      invariant h == 8 ==> p == 256
      invariant h == 9 ==> p == 512
      invariant h == 10 ==> p == 1024
      invariant h == 10 ==> TreeWidth(1012, 9) == 2
    {
      OneMoreLevel(1012, h, p);
      p := 2 * p;
    }
    OneMoreLevel(1012, 10, p);
    HeightIs(1012, 10);
  }

  lemma {:induction false} NoLevels(n: nat)
    ensures OddLevels(n, 0) == 0 && Pow2(0) == 1
  {
  }

  lemma {:induction false} OneMoreLevel(n: nat, h: nat, p: nat)
    requires p == Pow2(h) > 0
    ensures TreeWidth(n, h) == (n + p - 1) / p && OddLevels(n, h + 1) == OddLevels(n, h) + (n + p - 1) / p % 2
    ensures Pow2(h + 1) == 2 * p
  {
  }

  lemma {:induction false} HeightIs(n: nat, h: nat)
    requires n > 0 && h > 0 && TreeWidth(n, h) <= 1 && TreeWidth(n, h - 1) > 1
    ensures TreeHeight(n) == h
  {
    hide TreeWidth, Pow2;
    var t := TreeHeight(n);
    WidthMeans(n, h - 1, 1);
    if t < h { Pow2Grows(t, h - 1); }
  }
}
