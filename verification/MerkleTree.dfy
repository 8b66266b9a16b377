/** Partial merkle trees: what is written for a list of txids and a match mask, and how
    it is read back, as functions; the pair hash is a parameter. */
module MerkleTree {
  import opened Powers

  datatype Digest = Digest(v: nat)

  const ZERO := Digest(0)

  type PairHash = (Digest, Digest) -> Digest

  ghost predicate Injective(hash: PairHash) {
    forall a, b, c, d :: hash(a, b) == hash(c, d) ==> a == c && b == d
  }

  ghost predicate Distinct(txids: seq<Digest>) {
    forall i, j :: 0 <= i < j < |txids| ==> txids[i] != txids[j]
  }

  /* ---- shape of the tree ---- */

  // Number of nodes at a height.
  function TreeWidth(n: nat, h: nat): nat { (n + Pow2(h) - 1) / Pow2(h) }

  // A position is within the width when its first leaf is a transaction.
  lemma {:induction false} WidthMeans(n: nat, h: nat, pos: nat)
    ensures pos < TreeWidth(n, h) <==> pos * Pow2(h) < n
  {
    CeilAbove(n, Pow2(h), pos);
  }

  lemma {:induction false} CeilAbove(n: nat, m: nat, k: nat)
    requires m >= 1
    ensures k < (n + m - 1) / m <==> k * m < n
  {
    var q := (n + m - 1) / m;
    assert q * m <= n + m - 1 < q * m + m;
    if k < q {
      assert (k + 1) * m <= q * m;
    } else {
      assert q * m <= k * m;
    }
  }

  function TreeHeight(n: nat): (h: nat)
    ensures TreeWidth(n, h) <= 1
    ensures n > 0 ==> n <= Pow2(h)
    ensures forall k :: 0 <= k < h ==> TreeWidth(n, k) > 1
  {
    HeightFrom(n, 0)
  }

  function HeightFrom(n: nat, h: nat): (r: nat)
    requires forall k :: 0 <= k < h ==> TreeWidth(n, k) > 1
    ensures r >= h && TreeWidth(n, r) <= 1
    ensures n <= Pow2(r)
    ensures forall k :: 0 <= k < r ==> TreeWidth(n, k) > 1
    decreases n - h
  {
    WidthMeans(n, h, 1);
    HeightBelow(h);
    if TreeWidth(n, h) <= 1 then h else HeightFrom(n, h + 1)
  }

  lemma {:induction false} HeightBelow(h: nat)
    ensures h < Pow2(h)
  {
    if h > 0 { HeightBelow(h - 1); }
  }

  // First leaf below a node, and the one after its last leaf.
  function First(h: nat, pos: nat): nat { pos * Pow2(h) }
  function Past(n: nat, h: nat, pos: nat): (r: nat)
    ensures r <= n
  {
    if (pos + 1) * Pow2(h) < n then (pos + 1) * Pow2(h) else n
  }

  predicate IsNode(n: nat, h: nat, pos: nat) { First(h, pos) < n }

  predicate HasRight(n: nat, h: nat, pos: nat)
    requires h > 0
  {
    pos * 2 + 1 < TreeWidth(n, h - 1)
  }

  // The leaves of a node are those of its left child followed by those of its right
  // child, if it has one.
  lemma {:induction false} Children(n: nat, h: nat, pos: nat)
    requires h > 0 && IsNode(n, h, pos)
    ensures IsNode(n, h - 1, pos * 2) && First(h - 1, pos * 2) == First(h, pos)
    ensures HasRight(n, h, pos) <==> IsNode(n, h - 1, pos * 2 + 1)
    ensures HasRight(n, h, pos) ==>
      Past(n, h - 1, pos * 2) == First(h - 1, pos * 2 + 1) && Past(n, h - 1, pos * 2 + 1) == Past(n, h, pos)
    ensures HasRight(n, h, pos) ==> First(h, pos) < First(h - 1, pos * 2 + 1) < Past(n, h, pos)
    ensures !HasRight(n, h, pos) ==> Past(n, h - 1, pos * 2) == Past(n, h, pos)
    ensures First(h, pos) < Past(n, h, pos) <= n
  {
    var m := Pow2(h - 1);
    assert Pow2(h) == 2 * m;
    assert pos * (2 * m) == (pos * 2) * m;
    assert (pos + 1) * (2 * m) == (pos * 2 + 2) * m;
    assert (pos * 2 + 1) * m == (pos * 2) * m + m;
    assert (pos * 2 + 2) * m == (pos * 2) * m + 2 * m;
    WidthMeans(n, h - 1, pos * 2 + 1);
  }

  /* ---- hashes and matches ---- */

  function CalcHash(hash: PairHash, h: nat, pos: nat, txids: seq<Digest>): Digest
    requires IsNode(|txids|, h, pos)
    decreases h
  {
    if h == 0 then txids[pos]
    else
      Children(|txids|, h, pos);
      var left := CalcHash(hash, h - 1, pos * 2, txids);
      var right := if HasRight(|txids|, h, pos) then CalcHash(hash, h - 1, pos * 2 + 1, txids) else left;
      hash(left, right)
  }

  // Some transaction in the range is matched.
  ghost predicate Any(matches: seq<bool>, lo: nat, hi: nat) {
    exists p :: lo <= p < hi && p < |matches| && matches[p]
  }

  function ParentOfMatch(matches: seq<bool>, lo: nat, hi: nat): (r: bool)
    requires hi <= |matches|
    ensures r <==> Any(matches, lo, hi)
    decreases hi - lo
  {
    if lo >= hi then false else matches[lo] || ParentOfMatch(matches, lo + 1, hi)
  }

  // The matched transactions of a range with their positions, in order.
  function Matched(txids: seq<Digest>, matches: seq<bool>, lo: nat, hi: nat): seq<(nat, Digest)>
    requires hi <= |txids| == |matches|
    decreases hi - lo
  {
    if lo >= hi then []
    else (if matches[lo] then [(lo, txids[lo])] else []) + Matched(txids, matches, lo + 1, hi)
  }

  lemma {:induction false} MatchedSplit(txids: seq<Digest>, matches: seq<bool>, lo: nat, mid: nat, hi: nat)
    requires lo <= mid <= hi <= |txids| == |matches|
    ensures Matched(txids, matches, lo, hi) == Matched(txids, matches, lo, mid) + Matched(txids, matches, mid, hi)
    decreases mid - lo
  {
    if lo < mid { MatchedSplit(txids, matches, lo + 1, mid, hi); }
  }

  lemma {:induction false} MatchedNone(txids: seq<Digest>, matches: seq<bool>, lo: nat, hi: nat)
    requires hi <= |txids| == |matches|
    ensures Matched(txids, matches, lo, hi) == [] <==> !Any(matches, lo, hi)
    decreases hi - lo
  {
    if lo < hi {
      MatchedNone(txids, matches, lo + 1, hi);
      assert Any(matches, lo, hi) <==> matches[lo] || Any(matches, lo + 1, hi);
    }
  }

  /* ---- writing ---- */

  datatype Partial = Partial(bits: seq<bool>, hashes: seq<Digest>)

  function Join(a: Partial, b: Partial): Partial { Partial(a.bits + b.bits, a.hashes + b.hashes) }

  function Build(hash: PairHash, h: nat, pos: nat, txids: seq<Digest>, matches: seq<bool>): Partial
    requires |txids| == |matches| && IsNode(|txids|, h, pos)
    decreases h
  {
    var n := |txids|;
    var above := ParentOfMatch(matches, First(h, pos), Past(n, h, pos));
    if h == 0 || !above then Partial([above], [CalcHash(hash, h, pos, txids)])
    else
      Children(n, h, pos);
      var left := Build(hash, h - 1, pos * 2, txids, matches);
      var both := if HasRight(n, h, pos) then Join(left, Build(hash, h - 1, pos * 2 + 1, txids, matches)) else left;
      Partial([above] + both.bits, both.hashes)
  }

  /* ---- reading ---- */

  // Where the reader is: bits and hashes used, whether something was wrong, what was found.
  datatype Reader = Reader(nBits: nat, nHashes: nat, bad: bool, found: seq<(nat, Digest)>)

  function Extract(hash: PairHash, n: nat, h: nat, pos: nat, p: Partial, r: Reader): (Reader, Digest)
    decreases h
  {
    if r.nBits >= |p.bits| then (r.(bad := true), ZERO)
    else
      var above := p.bits[r.nBits];
      var r := r.(nBits := r.nBits + 1);
      if h == 0 || !above then
        if r.nHashes >= |p.hashes| then (r.(bad := true), ZERO)
        else
          var d := p.hashes[r.nHashes];
          (r.(nHashes := r.nHashes + 1, found := if h == 0 && above then r.found + [(pos, d)] else r.found), d)
      else
        var (r1, left) := Extract(hash, n, h - 1, pos * 2, p, r);
        if HasRight(n, h, pos) then
          var (r2, right) := Extract(hash, n, h - 1, pos * 2 + 1, p, r1);
          (if right == left then r2.(bad := true) else r2, hash(left, right))
        else
          (r1, hash(left, left))
  }

  /* ---- reading back what was written ---- */

  // Distinct txids and an injective pair hash make all nodes of a height distinct.
  lemma {:induction false} NodesDiffer(hash: PairHash, h: nat, a: nat, b: nat, txids: seq<Digest>)
    requires Injective(hash) && Distinct(txids) && a < b
    requires IsNode(|txids|, h, a) && IsNode(|txids|, h, b)
    ensures CalcHash(hash, h, a, txids) != CalcHash(hash, h, b, txids)
    decreases h
  {
    if h == 0 {
      assert First(h, a) == a && First(h, b) == b;
    } else {
      Children(|txids|, h, a);
      Children(|txids|, h, b);
      NodesDiffer(hash, h - 1, a * 2, b * 2, txids);
    }
  }

  // A piece of what was written stands in `p` from where the reader is.
  ghost predicate StandsAt(e: Partial, p: Partial, r: Reader) {
    && r.nBits + |e.bits| <= |p.bits| && p.bits[r.nBits..r.nBits + |e.bits|] == e.bits
    && r.nHashes + |e.hashes| <= |p.hashes| && p.hashes[r.nHashes..r.nHashes + |e.hashes|] == e.hashes
  }

  function Advance(r: Reader, e: Partial, found: seq<(nat, Digest)>): Reader {
    Reader(r.nBits + |e.bits|, r.nHashes + |e.hashes|, r.bad, r.found + found)
  }

  lemma {:induction false} StandsJoin(a: Partial, b: Partial, p: Partial, r: Reader, found: seq<(nat, Digest)>)
    requires StandsAt(Join(a, b), p, r)
    ensures StandsAt(a, p, r) && StandsAt(b, p, Advance(r, a, found))
  {
    var e := Join(a, b);
    assert p.bits[r.nBits..r.nBits + |a.bits|] == e.bits[..|a.bits|];
    assert p.bits[r.nBits + |a.bits|..r.nBits + |e.bits|] == e.bits[|a.bits|..];
    assert p.hashes[r.nHashes..r.nHashes + |a.hashes|] == e.hashes[..|a.hashes|];
    assert p.hashes[r.nHashes + |a.hashes|..r.nHashes + |e.hashes|] == e.hashes[|a.hashes|..];
  }

  lemma {:induction false} AdvanceOnce(r: Reader, a: Partial, x: seq<(nat, Digest)>)
    ensures Advance(r.(nBits := r.nBits + 1), a, x) == Advance(r, Partial([true] + a.bits, a.hashes), x)
  {
  }

  lemma {:induction false} AdvanceTwice(r: Reader, a: Partial, b: Partial, x: seq<(nat, Digest)>, y: seq<(nat, Digest)>)
    ensures Advance(Advance(r.(nBits := r.nBits + 1), a, x), b, y)
         == Advance(r, Partial([true] + Join(a, b).bits, Join(a, b).hashes), x + y)
  {
    assert r.found + x + y == r.found + (x + y);
  }

  lemma {:induction false} StandsHead(bit: bool, e: Partial, p: Partial, r: Reader)
    requires StandsAt(Partial([bit] + e.bits, e.hashes), p, r)
    ensures r.nBits < |p.bits| && p.bits[r.nBits] == bit
    ensures StandsAt(e, p, r.(nBits := r.nBits + 1))
  {
    var w := [bit] + e.bits;
    assert p.bits[r.nBits] == p.bits[r.nBits..r.nBits + |w|][0];
    assert p.bits[r.nBits + 1..r.nBits + |w|] == w[1..];
  }

  // Reading a written node gives its hash and its matched transactions, in order.
  lemma {:induction false} ExtractBuilt(hash: PairHash, h: nat, pos: nat, txids: seq<Digest>, matches: seq<bool>,
                                        p: Partial, r: Reader)
    requires Injective(hash) && Distinct(txids)
    requires |txids| == |matches| && IsNode(|txids|, h, pos)
    requires StandsAt(Build(hash, h, pos, txids, matches), p, r)
    ensures Extract(hash, |txids|, h, pos, p, r)
         == (Advance(r, Build(hash, h, pos, txids, matches),
               Matched(txids, matches, First(h, pos), Past(|txids|, h, pos))),
             CalcHash(hash, h, pos, txids))
    decreases h, 1
  {
    if h == 0 || !ParentOfMatch(matches, First(h, pos), Past(|txids|, h, pos)) {
      ExtractLeaf(hash, h, pos, txids, matches, p, r);
    } else if HasRight(|txids|, h, pos) {
      ExtractBoth(hash, h, pos, txids, matches, p, r);
    } else {
      ExtractOnly(hash, h, pos, txids, matches, p, r);
    }
  }

  lemma {:induction false} ExtractBoth(hash: PairHash, h: nat, pos: nat, txids: seq<Digest>, matches: seq<bool>,
                                       p: Partial, r: Reader)
    requires Injective(hash) && Distinct(txids)
    requires |txids| == |matches| && IsNode(|txids|, h, pos)
    requires h > 0 && ParentOfMatch(matches, First(h, pos), Past(|txids|, h, pos)) && HasRight(|txids|, h, pos)
    requires StandsAt(Build(hash, h, pos, txids, matches), p, r)
    ensures Extract(hash, |txids|, h, pos, p, r)
         == (Advance(r, Build(hash, h, pos, txids, matches),
               Matched(txids, matches, First(h, pos), Past(|txids|, h, pos))),
             CalcHash(hash, h, pos, txids))
    decreases h, 0
  {
    hide First, Past, IsNode, HasRight, StandsAt, Injective, Distinct, Build, Extract, CalcHash, Matched, ParentOfMatch,
         Advance, Join;
    var n := |txids|;
    Children(n, h, pos);
    var el := Build(hash, h - 1, pos * 2, txids, matches);
    var hl := CalcHash(hash, h - 1, pos * 2, txids);
    var ml := Matched(txids, matches, First(h - 1, pos * 2), Past(n, h - 1, pos * 2));
    var r0 := r.(nBits := r.nBits + 1);
    var er := Build(hash, h - 1, pos * 2 + 1, txids, matches);
    var hr := CalcHash(hash, h - 1, pos * 2 + 1, txids);
    var mr := Matched(txids, matches, First(h - 1, pos * 2 + 1), Past(n, h - 1, pos * 2 + 1));
    MatchedSplit(txids, matches, First(h, pos), First(h - 1, pos * 2 + 1), Past(n, h, pos));
    NodesDiffer(hash, h - 1, pos * 2, pos * 2 + 1, txids);
    BuildStep(hash, h, pos, txids, matches);
    CalcHashStep(hash, h, pos, txids);
    AdvanceTwice(r, el, er, ml, mr);
    StandsHead(true, Join(el, er), p, r);
    StandsJoin(el, er, p, r0, ml);
    ExtractBuilt(hash, h - 1, pos * 2, txids, matches, p, r0);
    ExtractBuilt(hash, h - 1, pos * 2 + 1, txids, matches, p, Advance(r0, el, ml));
    ExtractTwo(hash, n, h, pos, p, r, Advance(r0, el, ml), hl, Advance(Advance(r0, el, ml), er, mr), hr);
  }

  lemma {:induction false} ExtractOnly(hash: PairHash, h: nat, pos: nat, txids: seq<Digest>, matches: seq<bool>,
                                       p: Partial, r: Reader)
    requires Injective(hash) && Distinct(txids)
    requires |txids| == |matches| && IsNode(|txids|, h, pos)
    requires h > 0 && ParentOfMatch(matches, First(h, pos), Past(|txids|, h, pos)) && !HasRight(|txids|, h, pos)
    requires StandsAt(Build(hash, h, pos, txids, matches), p, r)
    ensures Extract(hash, |txids|, h, pos, p, r)
         == (Advance(r, Build(hash, h, pos, txids, matches),
               Matched(txids, matches, First(h, pos), Past(|txids|, h, pos))),
             CalcHash(hash, h, pos, txids))
    decreases h, 0
  {
    hide First, Past, IsNode, HasRight, StandsAt, Injective, Distinct, Build, Extract, CalcHash, Matched, ParentOfMatch,
         Advance, Join;
    var n := |txids|;
    Children(n, h, pos);
    var el := Build(hash, h - 1, pos * 2, txids, matches);
    var hl := CalcHash(hash, h - 1, pos * 2, txids);
    var ml := Matched(txids, matches, First(h - 1, pos * 2), Past(n, h - 1, pos * 2));
    var r0 := r.(nBits := r.nBits + 1);
    BuildStep(hash, h, pos, txids, matches);
    CalcHashStep(hash, h, pos, txids);
    AdvanceOnce(r, el, ml);
    StandsHead(true, el, p, r);
    ExtractBuilt(hash, h - 1, pos * 2, txids, matches, p, r0);
    ExtractOne(hash, n, h, pos, p, r, Advance(r0, el, ml), hl);
  }

  // Reading an inner node, and the hash of one, in terms of its children.
  lemma {:induction false} ExtractStep(hash: PairHash, n: nat, h: nat, pos: nat, p: Partial, r: Reader)
    requires h > 0 && r.nBits < |p.bits| && p.bits[r.nBits]
    ensures var (r1, left) := Extract(hash, n, h - 1, pos * 2, p, r.(nBits := r.nBits + 1));
      var (r2, right) := Extract(hash, n, h - 1, pos * 2 + 1, p, r1);
      Extract(hash, n, h, pos, p, r)
      == if HasRight(n, h, pos) then (if right == left then r2.(bad := true) else r2,
                                      hash(left, right)) else (r1, hash(left, left))
  {
  }

  lemma {:induction false} CalcHashStep(hash: PairHash, h: nat, pos: nat, txids: seq<Digest>)
    requires h > 0 && IsNode(|txids|, h, pos)
    ensures IsNode(|txids|, h - 1, pos * 2) && (HasRight(|txids|, h, pos) ==> IsNode(|txids|, h - 1, pos * 2 + 1))
    ensures var left := CalcHash(hash, h - 1, pos * 2, txids);
      CalcHash(hash, h, pos, txids)
      == hash(left, if HasRight(|txids|, h, pos) then CalcHash(hash, h - 1, pos * 2 + 1, txids) else left)
  {
    Children(|txids|, h, pos);
  }

  lemma {:induction false} BuildStep(hash: PairHash, h: nat, pos: nat, txids: seq<Digest>, matches: seq<bool>)
    requires |txids| == |matches| && h > 0 && IsNode(|txids|, h, pos)
    requires ParentOfMatch(matches, First(h, pos), Past(|txids|, h, pos))
    ensures IsNode(|txids|, h - 1, pos * 2) && (HasRight(|txids|, h, pos) ==> IsNode(|txids|, h - 1, pos * 2 + 1))
    ensures var el := Build(hash, h - 1, pos * 2, txids, matches);
      var both := if HasRight(|txids|, h, pos) then Join(el, Build(hash, h - 1, pos * 2 + 1, txids, matches)) else el;
      Build(hash, h, pos, txids, matches) == Partial([true] + both.bits, both.hashes)
  {
    Children(|txids|, h, pos);
  }

  lemma {:induction false} ExtractTwo(hash: PairHash, n: nat, h: nat, pos: nat, p: Partial, r: Reader, r1: Reader,
                                      left: Digest,
                   r2: Reader, right: Digest)
    requires h > 0 && r.nBits < |p.bits| && p.bits[r.nBits] && HasRight(n, h, pos)
    requires Extract(hash, n, h - 1, pos * 2, p, r.(nBits := r.nBits + 1)) == (r1, left)
    requires Extract(hash, n, h - 1, pos * 2 + 1, p, r1) == (r2, right) && right != left
    ensures Extract(hash, n, h, pos, p, r) == (r2, hash(left, right))
  {
    hide Extract;
    ExtractStep(hash, n, h, pos, p, r);
  }

  lemma {:induction false} ExtractOne(hash: PairHash, n: nat, h: nat, pos: nat, p: Partial, r: Reader, r1: Reader,
                                      left: Digest)
    requires h > 0 && r.nBits < |p.bits| && p.bits[r.nBits] && !HasRight(n, h, pos)
    requires Extract(hash, n, h - 1, pos * 2, p, r.(nBits := r.nBits + 1)) == (r1, left)
    ensures Extract(hash, n, h, pos, p, r) == (r1, hash(left, left))
  {
  }

  lemma {:induction false} ExtractLeaf(hash: PairHash, h: nat, pos: nat, txids: seq<Digest>, matches: seq<bool>,
                                       p: Partial, r: Reader)
    requires |txids| == |matches| && IsNode(|txids|, h, pos)
    requires h == 0 || !ParentOfMatch(matches, First(h, pos), Past(|txids|, h, pos))
    requires StandsAt(Build(hash, h, pos, txids, matches), p, r)
    ensures Extract(hash, |txids|, h, pos, p, r)
         == (Advance(r, Build(hash, h, pos, txids, matches),
               Matched(txids, matches, First(h, pos), Past(|txids|, h, pos))),
             CalcHash(hash, h, pos, txids))
  {
    var e := Build(hash, h, pos, txids, matches);
    assert p.bits[r.nBits] == e.bits[0];
    assert p.hashes[r.nHashes] == e.hashes[0];
    MatchedNone(txids, matches, First(h, pos), Past(|txids|, h, pos));
    if h == 0 {
      assert First(h, pos) == pos && Past(|txids|, h, pos) == pos + 1;
      assert Matched(txids, matches, pos + 1, pos + 1) == [];
      assert Matched(txids, matches, pos, pos + 1) == if matches[pos] then [(pos, txids[pos])] else [];
      assert Any(matches, pos, pos + 1) <==> matches[pos];
      assert r.found + [] == r.found;
    } else {
      assert r.found + [] == r.found;
    }
  }
}
