/** What a partial merkle tree proves: whatever bits and hashes a peer sends, a proof that
    extracts to the root of a list of txids reports only true members of it; how large a
    written proof can get; and the packing of its bits into bytes. */
module MerkleProofs {
  import opened Options
  import opened MerkleTree

  /* ---- soundness ---- */

  // The entries from `from` on name leaves of the range, in increasing order and truly.
  ghost predicate Sound(txids: seq<Digest>, found: seq<(nat, Digest)>, from: nat, lo: nat, hi: nat) {
    && (forall k :: from <= k < |found| ==> lo <= found[k].0 < hi <= |txids| && txids[found[k].0] == found[k].1)
    && (forall k, l :: from <= k < l < |found| ==> found[k].0 < found[l].0)
  }

  lemma {:induction false} SoundJoin(txids: seq<Digest>, a: seq<(nat, Digest)>, b: seq<(nat, Digest)>, from: nat,
                                     lo: nat, mid: nat,
                  hi: nat)
    requires Sound(txids, a, from, lo, mid) && Sound(txids, b, |a|, mid, hi) && from <= |a| && a <= b
    requires lo <= mid <= hi <= |txids|
    ensures Sound(txids, b, from, lo, hi)
  {
    assert forall k :: 0 <= k < |a| ==> b[k] == a[k];
  }

  // Once something was wrong it stays so, and what was found stays found.
  lemma {:induction false} ExtractKeeps(hash: PairHash, n: nat, h: nat, pos: nat, p: Partial, r: Reader)
    ensures r.bad ==> Extract(hash, n, h, pos, p, r).0.bad
    ensures r.found <= Extract(hash, n, h, pos, p, r).0.found
    decreases h
  {
    if r.nBits < |p.bits| && h > 0 && p.bits[r.nBits] {
      var r0 := r.(nBits := r.nBits + 1);
      var r1 := Extract(hash, n, h - 1, pos * 2, p, r0).0;
      ExtractKeeps(hash, n, h - 1, pos * 2, p, r0);
      if HasRight(n, h, pos) { ExtractKeeps(hash, n, h - 1, pos * 2 + 1, p, r1); }
    }
  }

  // Two different pairs of nodes with the same hash.
  datatype Collision = Collision(left: Digest, right: Digest, left': Digest, right': Digest)

  predicate IsCollision(hash: PairHash, c: Collision) {
    (c.left != c.left' || c.right != c.right') && hash(c.left, c.right) == hash(c.left', c.right')
  }

  // If a node extracts to the hash of that node, all it reports is true, or two pairs of nodes,
  // one sent and one of the tree, collide.
  lemma {:induction false} ExtractSound(hash: PairHash, h: nat, pos: nat, txids: seq<Digest>, p: Partial, r: Reader)
    returns (c: Option<Collision>)
    requires IsNode(|txids|, h, pos)
    requires !Extract(hash, |txids|, h, pos, p, r).0.bad
    requires Extract(hash, |txids|, h, pos, p, r).1 == CalcHash(hash, h, pos, txids)
    ensures c.Some? ==> IsCollision(hash, c.value)
    ensures c.None? ==>
      Sound(txids, Extract(hash, |txids|, h, pos, p, r).0.found, |r.found|, First(h, pos), Past(|txids|, h, pos))
    decreases h
  {
    c := None;
    if h == 0 {
      assert First(h, pos) == pos && Past(|txids|, h, pos) == pos + 1;
    } else if p.bits[r.nBits] {
      if HasRight(|txids|, h, pos) {
        c := SoundBoth(hash, h, pos, txids, p, r);
      } else {
        c := SoundOnly(hash, h, pos, txids, p, r);
      }
    }
  }

  lemma {:induction false} SoundBoth(hash: PairHash, h: nat, pos: nat, txids: seq<Digest>, p: Partial, r: Reader)
    returns (c: Option<Collision>)
    requires IsNode(|txids|, h, pos) && h > 0 && HasRight(|txids|, h, pos)
    requires r.nBits < |p.bits| && p.bits[r.nBits]
    requires !Extract(hash, |txids|, h, pos, p, r).0.bad
    requires Extract(hash, |txids|, h, pos, p, r).1 == CalcHash(hash, h, pos, txids)
    ensures c.Some? ==> IsCollision(hash, c.value)
    ensures c.None? ==>
      Sound(txids, Extract(hash, |txids|, h, pos, p, r).0.found, |r.found|, First(h, pos), Past(|txids|, h, pos))
    decreases h, 0
  {
    hide First, Past, IsNode, HasRight, Extract, CalcHash, Sound;
    var n := |txids|;
    Children(n, h, pos);
    ExtractStep(hash, n, h, pos, p, r);
    CalcHashStep(hash, h, pos, txids);
    var r0 := r.(nBits := r.nBits + 1);
    var (r1, left) := Extract(hash, n, h - 1, pos * 2, p, r0);
    var (r2, right) := Extract(hash, n, h - 1, pos * 2 + 1, p, r1);
    var hl, hr := CalcHash(hash, h - 1, pos * 2, txids), CalcHash(hash, h - 1, pos * 2 + 1, txids);
    if left != hl || right != hr { return Some(Collision(left, right, hl, hr)); }
    ExtractKeeps(hash, n, h - 1, pos * 2, p, r0);
    ExtractKeeps(hash, n, h - 1, pos * 2 + 1, p, r1);
    c := ExtractSound(hash, h - 1, pos * 2, txids, p, r0);
    if c.Some? { return; }
    c := ExtractSound(hash, h - 1, pos * 2 + 1, txids, p, r1);
    if c.Some? { return; }
    SoundJoin(txids, r1.found, r2.found, |r.found|, First(h, pos), First(h - 1, pos * 2 + 1), Past(n, h, pos));
  }

  lemma {:induction false} SoundOnly(hash: PairHash, h: nat, pos: nat, txids: seq<Digest>, p: Partial, r: Reader)
    returns (c: Option<Collision>)
    requires IsNode(|txids|, h, pos) && h > 0 && !HasRight(|txids|, h, pos)
    requires r.nBits < |p.bits| && p.bits[r.nBits]
    requires !Extract(hash, |txids|, h, pos, p, r).0.bad
    requires Extract(hash, |txids|, h, pos, p, r).1 == CalcHash(hash, h, pos, txids)
    ensures c.Some? ==> IsCollision(hash, c.value)
    ensures c.None? ==>
      Sound(txids, Extract(hash, |txids|, h, pos, p, r).0.found, |r.found|, First(h, pos), Past(|txids|, h, pos))
    decreases h, 0
  {
    hide First, Past, IsNode, HasRight, Extract, CalcHash, Sound;
    var n := |txids|;
    Children(n, h, pos);
    ExtractStep(hash, n, h, pos, p, r);
    CalcHashStep(hash, h, pos, txids);
    var r0 := r.(nBits := r.nBits + 1);
    var (r1, left) := Extract(hash, n, h - 1, pos * 2, p, r0);
    var hl := CalcHash(hash, h - 1, pos * 2, txids);
    if left != hl { return Some(Collision(left, left, hl, hl)); }
    c := ExtractSound(hash, h - 1, pos * 2, txids, p, r0);
  }

  /* ---- the whole message ---- */

  datatype Result = Result(root: Digest, found: seq<(nat, Digest)>)

  // The root and the matches, unless the message is malformed; `cap` is the largest
  // number of transactions a block can have.
  function ExtractMatches(hash: PairHash, n: nat, cap: nat, p: Partial): Option<Result> {
    if n == 0 || n > cap || |p.hashes| > n || |p.bits| < |p.hashes| then None
    else
      var (r, root) := Extract(hash, n, TreeHeight(n), 0, p, Reader(0, 0, false, []));
      if r.bad || (r.nBits + 7) / 8 != (|p.bits| + 7) / 8 || r.nHashes != |p.hashes| then None
      else Some(Result(root, r.found))
  }

  function Root(hash: PairHash, txids: seq<Digest>): Digest
    requires txids != []
  {
    CalcHash(hash, TreeHeight(|txids|), 0, txids)
  }

  // Whatever was sent: with the right root every reported match is a txid of the list
  // at the reported position, and positions increase, or the proof holds a collision.
  lemma {:induction false} ProofIsSound(hash: PairHash, txids: seq<Digest>, cap: nat, p: Partial)
    returns (c: Option<Collision>)
    requires txids != []
    requires ExtractMatches(hash, |txids|, cap, p).Some?
    requires ExtractMatches(hash, |txids|, cap, p).value.root == Root(hash, txids)
    ensures c.Some? ==> IsCollision(hash, c.value)
    ensures var found := ExtractMatches(hash, |txids|, cap, p).value.found;
      c.None? ==>
      && (forall k :: 0 <= k < |found| ==> found[k].0 < |txids| && txids[found[k].0] == found[k].1)
      && (forall k, l :: 0 <= k < l < |found| ==> found[k].0 < found[l].0)
  {
    c := ExtractSound(hash, TreeHeight(|txids|), 0, txids, p, Reader(0, 0, false, []));
  }

  /* ---- sizes ---- */

  // Nodes descended into that have one child only.
  function Lonely(h: nat, pos: nat, n: nat, matches: seq<bool>): nat
    requires n == |matches| && IsNode(n, h, pos)
    decreases h
  {
    if h == 0 || !ParentOfMatch(matches, First(h, pos), Past(n, h, pos)) then 0
    else
      Children(n, h, pos);
      if HasRight(n, h, pos)
      then Lonely(h - 1, pos * 2, n, matches) + Lonely(h - 1, pos * 2 + 1, n, matches)
      else 1 + Lonely(h - 1, pos * 2, n, matches)
  }

  // Nodes that are not descended into: leaves, and nodes with no match below.
  function Leaves(h: nat, pos: nat, n: nat, matches: seq<bool>): nat
    requires n == |matches| && IsNode(n, h, pos)
    decreases h
  {
    if h == 0 || !ParentOfMatch(matches, First(h, pos), Past(n, h, pos)) then 1
    else
      Children(n, h, pos);
      Leaves(h - 1, pos * 2, n, matches) + if HasRight(n, h, pos) then Leaves(h - 1, pos * 2 + 1, n, matches) else 0
  }

  // Each of them has its hash written.
  lemma {:induction false} HashesWritten(hash: PairHash, h: nat, pos: nat, txids: seq<Digest>, matches: seq<bool>)
    requires |txids| == |matches| && IsNode(|txids|, h, pos)
    ensures |Build(hash, h, pos, txids, matches).hashes| == Leaves(h, pos, |txids|, matches)
    decreases h
  {
    hide First, Past, IsNode, HasRight, ParentOfMatch, CalcHash;
    if h > 0 && ParentOfMatch(matches, First(h, pos), Past(|txids|, h, pos)) {
      Children(|txids|, h, pos);
      HashesWritten(hash, h - 1, pos * 2, txids, matches);
      if HasRight(|txids|, h, pos) { HashesWritten(hash, h - 1, pos * 2 + 1, txids, matches); }
    }
  }

  // Two bits for each hash but one, and one more for each such node.
  lemma {:induction false} BitsWritten(hash: PairHash, h: nat, pos: nat, txids: seq<Digest>, matches: seq<bool>)
    requires |txids| == |matches| && IsNode(|txids|, h, pos)
    ensures var e := Build(hash, h, pos, txids, matches);
      |e.bits| == 2 * |e.hashes| - 1 + Lonely(h, pos, |txids|, matches)
    decreases h
  {
    if h > 0 && ParentOfMatch(matches, First(h, pos), Past(|txids|, h, pos)) {
      Children(|txids|, h, pos);
      hide First, Past, IsNode, ParentOfMatch;
      BitsWritten(hash, h - 1, pos * 2, txids, matches);
      if HasRight(|txids|, h, pos) { BitsWritten(hash, h - 1, pos * 2 + 1, txids, matches); }
    }
  }

  // One hash per leaf at most.
  lemma {:induction false} HashesPerLeaf(hash: PairHash, h: nat, pos: nat, txids: seq<Digest>, matches: seq<bool>)
    requires |txids| == |matches| && IsNode(|txids|, h, pos)
    ensures 1 <= |Build(hash, h, pos, txids, matches).hashes| <= Past(|txids|, h, pos) - First(h, pos)
    decreases h
  {
    if h == 0 {
      assert First(h, pos) == pos && Past(|txids|, h, pos) == pos + 1;
    } else {
      Children(|txids|, h, pos);
      HashesPerLeaf(hash, h - 1, pos * 2, txids, matches);
      if HasRight(|txids|, h, pos) { HashesPerLeaf(hash, h - 1, pos * 2 + 1, txids, matches); }
    }
  }

  function Found(h: nat, pos: nat, txids: seq<Digest>, matches: seq<bool>): nat
    requires |txids| == |matches|
  {
    |Matched(txids, matches, First(h, pos), Past(|txids|, h, pos))|
  }

  // Besides the first, at most one hash per matched leaf and level.
  lemma {:induction false} HashesPerMatch(hash: PairHash, h: nat, pos: nat, txids: seq<Digest>, matches: seq<bool>)
    requires |txids| == |matches| && IsNode(|txids|, h, pos)
    ensures |Build(hash, h, pos, txids, matches).hashes| <= 1 + Found(h, pos, txids, matches) * h
    decreases h
  {
    hide First, Past, IsNode, HasRight, ParentOfMatch, Found, CalcHash;
    if h > 0 && ParentOfMatch(matches, First(h, pos), Past(|txids|, h, pos)) {
      Children(|txids|, h, pos);
      FoundSplit(h, pos, txids, matches);
      var m, a := Found(h, pos, txids, matches), Found(h - 1, pos * 2, txids, matches);
      HashesPerMatch(hash, h - 1, pos * 2, txids, matches);
      Distribute(a, m - a, h);
      if HasRight(|txids|, h, pos) {
        HashesPerMatch(hash, h - 1, pos * 2 + 1, txids, matches);
        assert Found(h - 1, pos * 2 + 1, txids, matches) == m - a;
      }
    } else {
      Distribute(Found(h, pos, txids, matches), 0, h);
    }
  }

  lemma {:induction false} Distribute(a: nat, b: nat, h: nat)
    ensures (a + b) * h >= 0
    ensures (a + b) * h == a * (h - 1) + b * (h - 1) + (a + b)
  {
  }

  lemma {:induction false} FoundSplit(h: nat, pos: nat, txids: seq<Digest>, matches: seq<bool>)
    requires |txids| == |matches| && IsNode(|txids|, h, pos) && h > 0
    requires ParentOfMatch(matches, First(h, pos), Past(|txids|, h, pos))
    ensures Found(h, pos, txids, matches) >= 1
    ensures Found(h, pos, txids, matches)
         == Found(h - 1, pos * 2, txids, matches)
               + if HasRight(|txids|, h, pos) then Found(h - 1, pos * 2 + 1, txids, matches) else 0
  {
    var n := |txids|;
    Children(n, h, pos);
    MatchedNone(txids, matches, First(h, pos), Past(n, h, pos));
    if HasRight(n, h, pos) {
      MatchedSplit(txids, matches, First(h, pos), First(h - 1, pos * 2 + 1), Past(n, h, pos));
    }
  }
}
