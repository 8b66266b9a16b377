/** The rolling bloom filter as it is kept: two 64-bit words for every 64 positions, the
    low bits of the labels in the first and the high bits in the second. A word is the
    sequence of its bits, and the bitwise operations act bit by bit. */
module RollingBloomFilter {
  import opened RollingBloom
  import opened Scaling

  type Word = w: seq<bool> | |w| == 64 witness seq(64, _ => false)

  function Filled(b: bool): Word { seq(64, _ => b) }
  function Xor(a: Word, b: Word): Word { seq(64, i requires 0 <= i < 64 => a[i] != b[i]) }
  function Or(a: Word, b: Word): Word { seq(64, i requires 0 <= i < 64 => a[i] || b[i]) }
  function And(a: Word, b: Word): Word { seq(64, i requires 0 <= i < 64 => a[i] && b[i]) }
  function Not(a: Word): Word { seq(64, i requires 0 <= i < 64 => !a[i]) }
  // One bit, shifted into place.
  function Shifted(b: bool, k: nat): Word
    requires k < 64
  {
    seq(64, i requires 0 <= i < 64 => i == k && b)
  }

  function LabelOf(low: bool, high: bool): nat { (if low then 1 else 0) + (if high then 2 else 0) }

  ghost function LabelAt(data: seq<Word>, p: nat): nat
    requires |data| % 2 == 0 && p < 32 * |data|
  {
    LabelOf(data[p / 64 * 2][p % 64], data[p / 64 * 2 + 1][p % 64])
  }

  ghost function Labels(data: seq<Word>): (r: seq<nat>)
    requires |data| % 2 == 0
    ensures |r| == 32 * |data| && forall p :: 0 <= p < |r| ==> r[p] == LabelAt(data, p)
  {
    seq(32 * |data|, p requires 0 <= p < 32 * |data| => LabelAt(data, p))
  }

  // The two bits of a generation's number.
  predicate LowBit(g: nat) { g % 2 == 1 }
  predicate HighBit(g: nat) { g / 2 == 1 }

  /* ---- what the word operations do to labels ---- */

  // Keeps the bits of a pair of words except where both spell the generation.
  function Mask(p1: Word, p2: Word, g: nat): Word { Or(Xor(p1, Filled(LowBit(g))), Xor(p2, Filled(HighBit(g)))) }

  lemma {:induction false} MaskClears(p1: Word, p2: Word, g: nat, b: nat)
    requires b < 64 && 1 <= g <= 3
    ensures var m := Mask(p1, p2, g); var l := LabelOf(p1[b], p2[b]);
      LabelOf(And(p1, m)[b], And(p2, m)[b]) == if l == g then 0 else l
  {
  }

  // Replaces one bit of a word.
  function Replaced(w: Word, b: bool, k: nat): Word
    requires k < 64
  {
    Or(And(w, Not(Shifted(true, k))), Shifted(b, k))
  }

  lemma {:induction false} SetLabels(data: seq<Word>, pair: nat, bit: nat, g: nat)
    requires |data| % 2 == 0 && pair * 2 + 1 < |data| && bit < 64 && 1 <= g <= 3
    ensures var d := data[pair * 2 := Replaced(data[pair * 2], LowBit(g),
                                               bit)][pair * 2 + 1 := Replaced(data[pair * 2 + 1], HighBit(g), bit)];
      Labels(d) == Labels(data)[pair * 64 + bit := g]
  {
    var d := data[pair * 2 := Replaced(data[pair * 2], LowBit(g), bit)]
        [pair * 2 + 1 := Replaced(data[pair * 2 + 1], HighBit(g), bit)];
    forall p | 0 <= p < 32 * |data| ensures LabelAt(d, p) == if p == pair * 64 + bit then g else LabelAt(data, p) {
      if p / 64 == pair {
        ReplacedAt(data[pair * 2], LowBit(g), bit, p % 64);
        ReplacedAt(data[pair * 2 + 1], HighBit(g), bit, p % 64);
      }
    }
  }

  lemma {:induction false} ReplacedAt(w: Word, b: bool, k: nat, i: nat)
    requires k < 64 && i < 64
    ensures Replaced(w, b, k)[i] == if i == k then b else w[i]
  {
  }

  /* ---- the filter ---- */

  class RollingBloomFilter {
    const hash: Hash
    const nHashFuncs: nat
    const nEntriesPerGeneration: nat
    var nEntriesThisGeneration: nat
    var nGeneration: nat
    const data: array<Word>

    ghost predicate Valid()
      reads this
    {
      data.Length > 0 && data.Length % 2 == 0 && nEntriesPerGeneration >= 1 && 1 <= nGeneration <= 3
    }

    ghost function Abs(): Filter
      requires Valid()
      reads this, data
    {
      Filter(hash, nHashFuncs, data.Length, Labels(data[..]), nEntriesPerGeneration, nEntriesThisGeneration,
             nGeneration)
    }

    // The number of hash functions and of words follow from the false-positive rate and
    // are parameters.
    constructor (hash: Hash, nHashFuncs: nat, nWords: nat, nElements: nat)
      requires nWords > 0 && nWords % 2 == 0 && nElements >= 1
      ensures Valid() && fresh(data) && Abs() == Fresh(hash, nHashFuncs, nWords, nElements)
    {
      this.hash, this.nHashFuncs, nEntriesPerGeneration := hash, nHashFuncs, (nElements + 1) / 2;
      data := new Word[nWords](_ => Filled(false));
      nEntriesThisGeneration, nGeneration := 0, 1;
    }

    method Reset()
      requires Valid()
      modifies this, data
      ensures Valid()
      ensures Abs() == old(Abs()).(labels := seq(32 * data.Length, _ => 0), thisGeneration := 0, generation := 1)
    {
      nEntriesThisGeneration, nGeneration := 0, 1;
      for i := 0 to data.Length
        invariant Valid() && nEntriesThisGeneration == 0 && nGeneration == 1
        invariant forall j :: 0 <= j < i ==> data[j] == Filled(false)
      {
        data[i] := Filled(false);
      }
    }

    method Insert(vKey: Bytes)
      requires Valid()
      modifies this, data
      ensures Valid() && Abs() == RollingBloom.Insert(old(Abs()), vKey)
    {
      hide Labels, Labelled, KeyPosition, Wiped;
      if nEntriesThisGeneration == nEntriesPerGeneration {
        nEntriesThisGeneration := 0;
        nGeneration := nGeneration + 1;
        if nGeneration == 4 { nGeneration := 1; }
        Wipe();
      }
      nEntriesThisGeneration := nEntriesThisGeneration + 1;
      ghost var f := Abs();
      LabelledNone(f.hash, f.size, vKey, f.labels, f.generation);
      var n := 0;
      while n < nHashFuncs
        invariant 0 <= n <= nHashFuncs && Valid() && Abs().(labels := f.labels) == f
        invariant Labels(data[..]) == Labelled(f.hash, f.size, vKey, f.labels, f.generation, n)
      {
        LabelOne(hash(n, vKey));
        LabelledNext(f.hash, f.size, vKey, f.labels, f.generation, n);
        n := n + 1;
      }
    }

    // Wipes the entries that used the current generation's number.
    method Wipe()
      requires Valid()
      modifies data
      ensures Labels(data[..]) == Wiped(old(Labels(data[..])), nGeneration)
    {
      ghost var was := data[..];
      var p := 0;
      while p < data.Length
        invariant 0 <= p <= data.Length && p % 2 == 0
        invariant forall j :: p <= j < data.Length ==> data[j] == was[j]
        invariant forall j :: 0 <= j < p / 2 ==>
          data[2 * j] == And(was[2 * j], Mask(was[2 * j], was[2 * j + 1], nGeneration))
          && data[2 * j + 1] == And(was[2 * j + 1], Mask(was[2 * j], was[2 * j + 1], nGeneration))
      {
        var p1, p2 := data[p], data[p + 1];
        var mask := Mask(p1, p2, nGeneration);
        data[p] := And(p1, mask);
        data[p + 1] := And(p2, mask);
        p := p + 2;
      }
      WipedLabels(was, data[..], nGeneration);
    }

    method LabelOne(h: nat)
      requires Valid() && h < TWO_32
      modifies data
      ensures Labels(data[..]) == old(Labels(data[..]))[Position(h, data.Length) := nGeneration]
    {
      var bit := h % 64;
      var pos := Scaled(h, data.Length);
      var low, high := pos / 2 * 2, pos / 2 * 2 + 1;
      SetLabels(data[..], pos / 2, bit, nGeneration);
      data[low] := Or(And(data[low], Not(Shifted(true, bit))), Shifted(nGeneration % 2 == 1, bit));
      data[high] := Or(And(data[high], Not(Shifted(true, bit))), Shifted(nGeneration / 2 == 1, bit));
    }

    method Contains(vKey: Bytes) returns (found: bool)
      requires Valid()
      ensures found <==> RollingBloom.Contains(Abs(), vKey)
    {
      var n := 0;
      while n < nHashFuncs
        invariant 0 <= n <= nHashFuncs
        invariant forall m :: 0 <= m < n ==> Labels(data[..])[KeyPosition(hash, m, vKey, data.Length)] != 0
      {
        var h := hash(n, vKey);
        var bit := h % 64;
        var pos := Scaled(h, data.Length);
        assert KeyPosition(hash, n, vKey, data.Length) == pos / 2 * 64 + bit;
        if !Or(data[pos / 2 * 2], data[pos / 2 * 2 + 1])[bit] { return false; }
        n := n + 1;
      }
      found := true;
    }
  }

  lemma {:induction false} LabelledNone(hash: Hash, size: nat, key: Bytes, labels: seq<nat>, g: nat)
    requires size > 0 && size % 2 == 0 && |labels| == 32 * size
    ensures Labelled(hash, size, key, labels, g, 0) == labels
  {
  }

  lemma {:induction false} LabelledNext(hash: Hash, size: nat, key: Bytes, labels: seq<nat>, g: nat, n: nat)
    requires size > 0 && size % 2 == 0 && |labels| == 32 * size
    ensures Labelled(hash, size, key, labels, g, n + 1)
         == Labelled(hash, size, key, labels, g, n)[KeyPosition(hash, n, key, size) := g]
    ensures KeyPosition(hash, n, key, size) == Position(hash(n, key), size)
  {
  }

  lemma {:induction false} WipedLabels(was: seq<Word>, now: seq<Word>, g: nat)
    requires |was| == |now| && |was| % 2 == 0 && 1 <= g <= 3
    requires forall j :: 0 <= j < |was| / 2 ==>
      now[2 * j] == And(was[2 * j], Mask(was[2 * j], was[2 * j + 1], g))
      && now[2 * j + 1] == And(was[2 * j + 1], Mask(was[2 * j], was[2 * j + 1], g))
    ensures Labels(now) == Wiped(Labels(was), g)
  {
    forall p | 0 <= p < 32 * |was| ensures LabelAt(now, p) == if LabelAt(was, p) == g then 0 else LabelAt(was, p) {
      var j := p / 64;
      assert now[2 * j] == And(was[2 * j], Mask(was[2 * j], was[2 * j + 1], g));
      MaskClears(was[2 * j], was[2 * j + 1], g, p % 64);
    }
  }
}
