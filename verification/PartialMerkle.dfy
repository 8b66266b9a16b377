/** The partial merkle tree object: built from a list of txids and a mask, its bits packed
    for the wire and unpacked, and its matches extracted. */
module PartialMerkle {
  import opened Options
  import opened Bits
  import opened Powers
  import opened MerkleTree
  import opened MerkleProofs
  import opened MerkleSizes

  /* ---- bits in bytes ---- */

  // The bytes hold the bits in order, least significant first, and no others.
  ghost predicate Packs(bits: seq<bool>, bytes: seq<bv8>) {
    && |bytes| == (|bits| + 7) / 8
    && (forall p :: 0 <= p < |bits| ==> (Bit(bytes[p / 8], p % 8) <==> bits[p]))
    && (forall p :: |bits| <= p < 8 * |bytes| ==> !Bit(bytes[p / 8], p % 8))
  }

  method PackBits(vBits: seq<bool>) returns (vBytes: seq<bv8>)
    ensures Packs(vBits, vBytes)
  {
    vBytes := seq((|vBits| + 7) / 8, _ => 0);
    for p := 0 to |vBits|
      invariant |vBytes| == (|vBits| + 7) / 8
      invariant forall q :: 0 <= q < p ==> (Bit(vBytes[q / 8], q % 8) <==> vBits[q])
      invariant forall q :: p <= q < 8 * |vBytes| ==> !Bit(vBytes[q / 8], q % 8)
    {
      ghost var was := vBytes;
      vBytes := vBytes[p / 8 := vBytes[p / 8] | ((if vBits[p] then 1 else 0) << (p % 8))];
      forall q | 0 <= q < 8 * |vBytes|
        ensures Bit(vBytes[q / 8], q % 8) <==> if q == p then vBits[p] else Bit(was[q / 8], q % 8)
      {
        if q / 8 == p / 8 { SetBit(was[p / 8], vBits[p], p % 8, q % 8); }
      }
    }
  }

  ghost predicate Unpacks(bytes: seq<bv8>, bits: seq<bool>) {
    |bits| == 8 * |bytes| && forall p :: 0 <= p < |bits| ==> (bits[p] <==> Bit(bytes[p / 8], p % 8))
  }

  method UnpackBits(vBytes: seq<bv8>) returns (vBits: seq<bool>)
    ensures Unpacks(vBytes, vBits)
  {
    vBits := seq(|vBytes| * 8, _ => false);
    for p := 0 to |vBits|
      invariant |vBits| == 8 * |vBytes|
      invariant forall q :: 0 <= q < p ==> (vBits[q] <==> Bit(vBytes[q / 8], q % 8))
    {
      vBits := vBits[p := Bit(vBytes[p / 8], p % 8)];
    }
  }

  // Unpacking gives the bits back, padded to whole bytes.
  lemma {:induction false} PackUnpack(bits: seq<bool>, bytes: seq<bv8>, back: seq<bool>)
    requires Packs(bits, bytes) && Unpacks(bytes, back)
    ensures |bits| <= |back| && back[..|bits|] == bits
    ensures (|back| + 7) / 8 == (|bits| + 7) / 8
  {
  }

  // Building, packing, unpacking and extracting gives the root and exactly the matched
  // txids with their positions, in order.
  lemma {:induction false} RoundTrip(hash: PairHash, txids: seq<Digest>, matches: seq<bool>, cap: nat, bytes: seq<bv8>,
                                     back: seq<bool>)
    requires Injective(hash) && Distinct(txids) && txids != [] && |txids| == |matches| && |txids| <= cap
    requires Packs(Written(hash, txids, matches).bits, bytes) && Unpacks(bytes, back)
    ensures ExtractMatches(hash, |txids|, cap, Partial(back, Written(hash, txids, matches).hashes))
         == Some(Result(Root(hash, txids), Matched(txids, matches, 0, |txids|)))
  {
    var h, e := TreeHeight(|txids|), Written(hash, txids, matches);
    var p, start := Partial(back, e.hashes), Reader(0, 0, false, []);
    assert First(h, 0) == 0 && Past(|txids|, h, 0) == |txids|;
    PackUnpack(e.bits, bytes, back);
    HashBound(hash, txids, matches);
    assert StandsAt(e, p, start) by {
      assert p.bits[0..|e.bits|] == e.bits && p.hashes[0..|e.hashes|] == e.hashes;
    }
    ExtractBuilt(hash, h, 0, txids, matches, p, start);
    assert [] + Matched(txids, matches, 0, |txids|) == Matched(txids, matches, 0, |txids|);
  }

  /* ---- the object ---- */

  // The two result vectors hold what was found; the index vector may hold older entries.
  ghost predicate Tracks(found: seq<(nat, Digest)>, vMatch: seq<Digest>, older: seq<nat>, vnIndex: seq<nat>) {
    && |vMatch| == |found| && |vnIndex| == |older| + |found| && older <= vnIndex
    && forall k :: 0 <= k < |found| ==> found[k] == (vnIndex[|older| + k], vMatch[k])
  }

  lemma {:induction false} BuildUnfolds(hash: PairHash, h: nat, pos: nat, txids: seq<Digest>, matches: seq<bool>)
    requires |txids| == |matches| && IsNode(|txids|, h, pos)
    ensures var above := ParentOfMatch(matches, First(h, pos), Past(|txids|, h, pos));
      && (h == 0 || !above ==> Build(hash, h, pos, txids, matches) == Partial([above], [CalcHash(hash, h, pos, txids)]))
      && (h > 0 && above ==>
            && IsNode(|txids|, h - 1, pos * 2) && (HasRight(|txids|, h, pos) ==> IsNode(|txids|, h - 1, pos * 2 + 1))
            && var left := Build(hash, h - 1, pos * 2, txids, matches);
            var both := if HasRight(|txids|, h, pos)
              then Join(left, Build(hash, h - 1, pos * 2 + 1, txids, matches)) else left;
            Build(hash, h, pos, txids, matches) == Partial([above] + both.bits, both.hashes))
  {
    if h > 0 { Children(|txids|, h, pos); }
  }

  lemma {:induction false} JoinLeaf(was: Partial, above: bool, d: Digest)
    ensures Partial(was.bits + [above], was.hashes + [d]) == Join(was, Partial([above], [d]))
  {
  }

  lemma {:induction false} JoinOne(was: Partial, above: bool, left: Partial)
    ensures Join(Partial(was.bits + [above], was.hashes), left) == Join(was, Partial([above] + left.bits, left.hashes))
  {
    assert was.bits + [above] + left.bits == was.bits + ([above] + left.bits);
  }

  lemma {:induction false} JoinBoth(was: Partial, above: bool, left: Partial, right: Partial)
    ensures var both := Join(left, right);
      Join(Join(Partial(was.bits + [above], was.hashes), left), right)
        == Join(was, Partial([above] + both.bits, both.hashes))
  {
    assert was.bits + [above] + left.bits + right.bits == was.bits + ([above] + (left.bits + right.bits));
    assert was.hashes + left.hashes + right.hashes == was.hashes + (left.hashes + right.hashes);
  }

  class PartialMerkleTree {
    const hash: PairHash
    var nTransactions: nat
    var vBits: seq<bool>
    var vHash: seq<Digest>
    var fBad: bool

    ghost function Abs(): Partial
      reads this
    {
      Partial(vBits, vHash)
    }

    constructor (hash: PairHash, vTxid: seq<Digest>, vMatch: seq<bool>)
      requires vTxid != [] && |vTxid| == |vMatch|
      ensures this.hash == hash && nTransactions == |vTxid| && !fBad
      ensures Abs() == Written(hash, vTxid, vMatch)
    {
      this.hash, nTransactions, fBad := hash, |vTxid|, false;
      vBits, vHash := [], [];
      new;
      var nHeight := CalcHeight();
      TraverseAndBuild(nHeight, 0, vTxid, vMatch);
    }

    method CalcHeight() returns (nHeight: nat)
      ensures nHeight == TreeHeight(nTransactions)
    {
      hide TreeWidth, Pow2;
      nHeight := 0;
      while TreeWidth(nTransactions, nHeight) > 1
        invariant nHeight <= TreeHeight(nTransactions)
        decreases TreeHeight(nTransactions) - nHeight
      {
        nHeight := nHeight + 1;
      }
    }

    method AboveMatch(height: nat, pos: nat, vMatch: seq<bool>) returns (fParentOfMatch: bool)
      requires nTransactions == |vMatch| && IsNode(nTransactions, height, pos)
      ensures fParentOfMatch == ParentOfMatch(vMatch, First(height, pos), Past(nTransactions, height, pos))
    {
      hide Pow2;
      fParentOfMatch := false;
      var p, end := First(height, pos), (pos + 1) * Pow2(height);
      assert First(height, pos) <= end;
      while p < end && p < nTransactions
        invariant First(height, pos) <= p <= end && p <= nTransactions
        invariant fParentOfMatch <==> Any(vMatch, First(height, pos), p)
      {
        fParentOfMatch := fParentOfMatch || vMatch[p];
        p := p + 1;
      }
    }

    method TraverseAndBuild(height: nat, pos: nat, vTxid: seq<Digest>, vMatch: seq<bool>)
      requires nTransactions == |vTxid| == |vMatch| && IsNode(nTransactions, height, pos)
      modifies this`vBits, this`vHash
      ensures Abs() == Join(old(Abs()), Build(hash, height, pos, vTxid, vMatch))
      decreases height
    {
      hide First, Past, IsNode, ParentOfMatch, TreeWidth, CalcHash, Build, Join;
      var fParentOfMatch := AboveMatch(height, pos, vMatch);
      ghost var was := Abs();
      BuildUnfolds(hash, height, pos, vTxid, vMatch);
      vBits := vBits + [fParentOfMatch];
      if height == 0 || !fParentOfMatch {
        vHash := vHash + [CalcHash(hash, height, pos, vTxid)];
        JoinLeaf(was, fParentOfMatch, CalcHash(hash, height, pos, vTxid));
      } else {
        Children(nTransactions, height, pos);
        TraverseAndBuild(height - 1, pos * 2, vTxid, vMatch);
        if pos * 2 + 1 < TreeWidth(nTransactions, height - 1) {
          TraverseAndBuild(height - 1, pos * 2 + 1, vTxid, vMatch);
          JoinBoth(was, fParentOfMatch, Build(hash, height - 1, pos * 2, vTxid, vMatch),
                   Build(hash, height - 1, pos * 2 + 1, vTxid, vMatch));
        } else {
          JoinOne(was, fParentOfMatch, Build(hash, height - 1, pos * 2, vTxid, vMatch));
        }
      }
    }

    method TraverseAndExtract(height: nat, pos: nat, nBits0: nat, nHash0: nat, vMatch0: seq<Digest>, vnIndex0: seq<nat>,
                              ghost found0: seq<(nat, Digest)>, ghost older: seq<nat>)
      returns (d: Digest, nBitsUsed: nat, nHashUsed: nat, vMatch: seq<Digest>, vnIndex: seq<nat>,
          ghost found: seq<(nat, Digest)>)
      requires Tracks(found0, vMatch0, older, vnIndex0)
      modifies this`fBad
      ensures Extract(hash, nTransactions, height, pos, Abs(), Reader(nBits0, nHash0, old(fBad), found0))
           == (Reader(nBitsUsed, nHashUsed, fBad, found), d)
      ensures Tracks(found, vMatch, older, vnIndex)
      decreases height
    {
      d, nBitsUsed, nHashUsed, vMatch, vnIndex, found := ZERO, nBits0, nHash0, vMatch0, vnIndex0, found0;
      if nBitsUsed >= |vBits| {
        fBad := true;
        return;
      }
      var fParentOfMatch := vBits[nBitsUsed];
      nBitsUsed := nBitsUsed + 1;
      if height == 0 || !fParentOfMatch {
        if nHashUsed >= |vHash| {
          fBad := true;
          return;
        }
        d := vHash[nHashUsed];
        nHashUsed := nHashUsed + 1;
        if height == 0 && fParentOfMatch {
          vMatch, vnIndex, found := vMatch + [d], vnIndex + [pos], found + [(pos, d)];
        }
      } else {
        var left, right;
        left, nBitsUsed, nHashUsed, vMatch, vnIndex, found :=
          TraverseAndExtract(height - 1, pos * 2, nBitsUsed, nHashUsed, vMatch, vnIndex, found, older);
        if pos * 2 + 1 < TreeWidth(nTransactions, height - 1) {
          right, nBitsUsed, nHashUsed, vMatch, vnIndex, found :=
            TraverseAndExtract(height - 1, pos * 2 + 1, nBitsUsed, nHashUsed, vMatch, vnIndex, found, older);
          if right == left { fBad := true; }
        } else {
          right := left;
        }
        d := hash(left, right);
      }
    }

    // The root and the matches, or the zero hash if something was wrong; vnIndex keeps
    // what it held before.
    method ExtractMatches(cap: nat, vnIndex0: seq<nat>) returns (root: Digest, vMatch: seq<Digest>, vnIndex: seq<nat>)
      modifies this`fBad
      ensures old(fBad) || MerkleProofs.ExtractMatches(hash, nTransactions, cap, Abs()).None? ==> root == ZERO
      ensures !old(fBad) && MerkleProofs.ExtractMatches(hash, nTransactions, cap, Abs()).Some? ==>
        && root == MerkleProofs.ExtractMatches(hash, nTransactions, cap, Abs()).value.root
        && Tracks(MerkleProofs.ExtractMatches(hash, nTransactions, cap, Abs()).value.found, vMatch, vnIndex0, vnIndex)
    {
      root, vMatch, vnIndex := ZERO, [], vnIndex0;
      if nTransactions == 0 { return; }
      if nTransactions > cap { return; }
      if |vHash| > nTransactions { return; }
      if |vBits| < |vHash| { return; }
      var nHeight := CalcHeight();
      var d, nBitsUsed, nHashUsed;
      ghost var found;
      ghost var start := Reader(0, 0, fBad, []);
      d, nBitsUsed, nHashUsed, vMatch, vnIndex, found :=
          TraverseAndExtract(nHeight, 0, 0, 0, vMatch, vnIndex, [], vnIndex);
      ExtractKeeps(hash, nTransactions, nHeight, 0, Abs(), start);
      if fBad { return; }
      if (nBitsUsed + 7) / 8 != (|vBits| + 7) / 8 { return; }
      if nHashUsed != |vHash| { return; }
      root := d;
    }
  }
}
