/** The mempool as a finite graph of transactions with ancestor totals, and what the
    block assembler keeps true of the block, its totals and the modified entries
    while it adds packages. */
module BlockAssembly {
  import opened Sums

  const WITNESS_SCALE_FACTOR := 4
  const MAX_BLOCK_SIGOPS_COST := 80000
  const COINBASE_WEIGHT := 4000
  const COINBASE_SIGOPS := 400
  const MAX_CONSECUTIVE_FAILURES := 1000
  const TWO_32 := 0x1_0000_0000

  datatype Txid = Txid(hash: nat)

  lemma {:induction false} SumBound(f: Txid -> nat, g: Txid -> nat, s: set<Txid>)
    requires forall x :: x in s ==> f(x) <= WITNESS_SCALE_FACTOR * g(x)
    ensures Sum(f, s) <= WITNESS_SCALE_FACTOR * Sum(g, s)
    decreases |s|
  {
    if s != {} {
      var x :| x in s;
      SumWithout(f, s, x);
      SumWithout(g, s, x);
      SumBound(f, g, s - {x});
    }
  }

  /* ---- the mempool ---- */

  datatype Pool = Pool(
    ids: set<Txid>,
    ancestors: Txid -> set<Txid>,
    weight: Txid -> nat,
    size: Txid -> nat,
    sigOps: Txid -> nat,
    fee: Txid -> nat,
    isFinal: Txid -> bool,
    hasWitness: Txid -> bool,
    isSafe: Txid -> bool,
    countWithAncestors: Txid -> nat,
    sizeWithAncestors: Txid -> nat,
    sigOpsWithAncestors: Txid -> nat)
  {
    // Ancestry is transitive and acyclic, and the cached totals are exact and small
    // enough for the 32-bit parameter they are passed in.
    ghost predicate Valid() {
      && (forall x :: x in ids ==> ancestors(x) <= ids && x !in ancestors(x))
      && (forall x, a :: x in ids && a in ancestors(x) ==> ancestors(a) <= ancestors(x))
      && (forall x :: x in ids ==> weight(x) <= WITNESS_SCALE_FACTOR * size(x))
      && (forall x :: x in ids ==> countWithAncestors(x) == 1 + |ancestors(x)|)
      && (forall x :: x in ids ==> sizeWithAncestors(x) == size(x) + Sum(size, ancestors(x)))
      && (forall x :: x in ids ==> sigOpsWithAncestors(x) == sigOps(x) + Sum(sigOps, ancestors(x)))
      && (forall x :: x in ids ==> sigOpsWithAncestors(x) < TWO_32)
    }

    function Descendants(x: Txid): set<Txid> { set d | d in ids && (d == x || x in ancestors(d)) }
  }

  // What a transaction still brings in: itself and its ancestors outside the block.
  function Package(pool: Pool, x: Txid, inBlock: set<Txid>): set<Txid> { {x} + (pool.ancestors(x) - inBlock) }

  ghost function Outstanding(pool: Pool, f: Txid -> nat, x: Txid, inBlock: set<Txid>): nat {
    f(x) + Sum(f, pool.ancestors(x) - inBlock)
  }

  lemma {:induction false} PackageSum(pool: Pool, f: Txid -> nat, x: Txid, inBlock: set<Txid>)
    requires pool.Valid() && x in pool.ids
    ensures Sum(f, Package(pool, x, inBlock)) == Outstanding(pool, f, x, inBlock)
  {
    SumUnion(f, {x}, pool.ancestors(x) - inBlock);
    SumWithout(f, {x}, x);
    assert {x} - {x} == {};
  }

  /* ---- the block ---- */

  ghost predicate Closed(pool: Pool, s: set<Txid>) {
    s <= pool.ids && forall x :: x in s ==> pool.ancestors(x) <= s
  }

  // The transactions of the block, each once and after all its ancestors.
  ghost predicate Ordered(pool: Pool, vtx: seq<Txid>, inBlock: set<Txid>) {
    && (forall x :: x in vtx <==> x in inBlock)
    && (forall i, j :: 0 <= i < j < |vtx| ==> vtx[i] != vtx[j])
    && (forall i, a :: 0 <= i < |vtx| && a in pool.ancestors(vtx[i]) ==> a in vtx[..i])
  }

  predicate Minable(pool: Pool, includeWitness: bool, x: Txid) {
    pool.isFinal(x) && (includeWitness || !pool.hasWitness(x)) && pool.isSafe(x)
  }

  // Recorded totals of an entry some of whose ancestors are in the block.
  datatype Mod = Mod(size: int, sigOps: int)

  type Mods = map<Txid, Mod>

  // As every transaction has.
  ghost predicate PositiveSizes(pool: Pool) { forall x :: x in pool.ids ==> pool.size(x) > 0 }

  // The recorded totals never fall short of the outstanding ones. They are exact unless the
  // entry failed before, and then the size is too large.
  ghost predicate ModOk(pool: Pool, inBlock: set<Txid>, m: Mod, x: Txid, hasFailed: bool) {
    && m.size >= Outstanding(pool, pool.size, x, inBlock)
    && m.sigOps >= Outstanding(pool, pool.sigOps, x, inBlock)
    && m.sigOps <= pool.sigOpsWithAncestors(x)
    && (!hasFailed ==> m.size == Outstanding(pool, pool.size, x, inBlock))
    && (!hasFailed ==> m.sigOps == Outstanding(pool, pool.sigOps, x, inBlock))
    && (hasFailed && PositiveSizes(pool) ==> m.size > Outstanding(pool, pool.size, x, inBlock))
  }

  // An entry without a record has no ancestor in the block, unless it failed.
  ghost predicate ModsOk(pool: Pool, inBlock: set<Txid>, mods: Mods, failed: set<Txid>) {
    && mods.Keys <= pool.ids - inBlock
    && (forall x :: x in mods ==> ModOk(pool, inBlock, mods[x], x, x in failed))
    && (forall x :: x in pool.ids && x !in inBlock && x !in mods && x !in failed ==> pool.ancestors(x) !! inBlock)
  }

  /* ---- adding a package ---- */

  lemma {:induction false} PackageCloses(pool: Pool, x: Txid, inBlock: set<Txid>)
    requires pool.Valid() && x in pool.ids && Closed(pool, inBlock)
    ensures Closed(pool, inBlock + Package(pool, x, inBlock))
  {
    forall y | y in Package(pool, x, inBlock) ensures pool.ancestors(y) <= inBlock + Package(pool, x, inBlock) {
      PackageMember(pool, x, inBlock, y);
    }
  }

  // Its weight is covered by the size that was tested.
  lemma {:induction false} PackageFits(pool: Pool, x: Txid, inBlock: set<Txid>, packageSize: int)
    requires pool.Valid() && x in pool.ids && Closed(pool, inBlock)
    requires packageSize >= Outstanding(pool, pool.size, x, inBlock)
    ensures Sum(pool.weight, Package(pool, x, inBlock)) <= WITNESS_SCALE_FACTOR * packageSize
  {
    PackageSum(pool, pool.size, x, inBlock);
    SumBound(pool.weight, pool.size, Package(pool, x, inBlock));
  }

  // Adding it grows the totals by no more than what was tested.
  lemma {:induction false} PackageWithin(pool: Pool, x: Txid, inBlock: set<Txid>, packageSize: int, packageSigOps: int)
    requires pool.Valid() && x in pool.ids && x !in inBlock && Closed(pool, inBlock)
    requires packageSize >= Outstanding(pool, pool.size, x, inBlock)
    requires packageSigOps >= Outstanding(pool, pool.sigOps, x, inBlock)
    ensures Sum(pool.weight, inBlock + Package(pool, x, inBlock))
        <= Sum(pool.weight, inBlock) + WITNESS_SCALE_FACTOR * packageSize
    ensures Sum(pool.sigOps, inBlock + Package(pool, x, inBlock)) <= Sum(pool.sigOps, inBlock) + packageSigOps
  {
    PackageSum(pool, pool.sigOps, x, inBlock);
    PackageFits(pool, x, inBlock, packageSize);
    SumUnion(pool.weight, inBlock, Package(pool, x, inBlock));
    SumUnion(pool.sigOps, inBlock, Package(pool, x, inBlock));
  }

  // One more transaction, all of whose ancestors are there, keeps the order.
  lemma {:induction false} OrderedAppend(pool: Pool, vtx: seq<Txid>, inBlock: set<Txid>, x: Txid)
    requires Ordered(pool, vtx, inBlock) && x !in inBlock && pool.ancestors(x) <= inBlock
    ensures Ordered(pool, vtx + [x], inBlock + {x})
  {
    var r := vtx + [x];
    forall i, a | 0 <= i < |r| && a in pool.ancestors(r[i]) ensures a in r[..i] {
      if i < |vtx| {
        assert r[..i] == vtx[..i];
      } else {
        assert r[..i] == vtx;
      }
    }
  }

  lemma {:induction false} ClosedAppend(pool: Pool, inBlock: set<Txid>, x: Txid)
    requires Closed(pool, inBlock) && x in pool.ids && pool.ancestors(x) <= inBlock
    ensures Closed(pool, inBlock + {x})
  {
  }

  lemma {:induction false} EachAppend(f: Txid -> nat, s: seq<Txid>, x: Txid)
    ensures Each(f, s + [x]) == Each(f, s) + [f(x)]
  {
  }

  // Ancestors have fewer ancestors, so sorting by their number is a valid order.
  lemma {:induction false} AncestorsCountLess(pool: Pool, x: Txid, a: Txid)
    requires pool.Valid() && x in pool.ids && a in pool.ancestors(x)
    ensures pool.countWithAncestors(a) < pool.countWithAncestors(x)
  {
    ProperSubsetSize(pool.ancestors(a), pool.ancestors(x), a);
  }

  lemma {:induction false} ProperSubsetSize(a: set<Txid>, b: set<Txid>, x: Txid)
    requires a <= b && x in b && x !in a
    ensures |a| < |b|
  {
    SubsetSize(a, b - {x});
  }

  lemma {:induction false} SubsetSize(a: set<Txid>, b: set<Txid>)
    requires a <= b
    ensures |a| <= |b|
  {
    if a != {} {
      var x :| x in a;
      SubsetSize(a - {x}, b - {x});
    }
  }

  /* ---- sorting a package ---- */

  predicate Before(pool: Pool, a: Txid, b: Txid) {
    if pool.countWithAncestors(a) != pool.countWithAncestors(b)
    then pool.countWithAncestors(a) < pool.countWithAncestors(b)
    else a.hash < b.hash
  }

  ghost predicate Sorted(pool: Pool, s: seq<Txid>) {
    forall i, j :: 0 <= i < j < |s| ==> Before(pool, s[i], s[j])
  }

  function Insert(pool: Pool, s: seq<Txid>, x: Txid): (r: seq<Txid>)
    requires Sorted(pool, s) && x !in s
    ensures Sorted(pool, r)
    ensures forall y :: y in r <==> y == x || y in s
  {
    if s == [] then [x]
    else if Before(pool, x, s[0]) then
      InsertFirst(pool, s, x);
      [x] + s
    else
      var r := Insert(pool, s[1..], x);
      assert forall y :: y in s <==> y == s[0] || y in s[1..];
      InsertFirst(pool, r, s[0]);
      [s[0]] + r
  }

  lemma {:induction false} InsertFirst(pool: Pool, s: seq<Txid>, x: Txid)
    requires Sorted(pool, s)
    requires (s != [] && Before(pool, x, s[0])) || forall y :: y in s ==> Before(pool, x, y)
    ensures Sorted(pool, [x] + s)
  {
    forall j | 0 <= j < |s| ensures Before(pool, x, s[j]) {
      if 0 < j { assert Before(pool, s[0], s[j]); }
    }
  }

  // In a package sorted by number of ancestors, every transaction has all its
  // ancestors in the block or earlier in the package.
  lemma {:induction false} SortedAfterAncestors(pool: Pool, x: Txid, inBlock: set<Txid>, s: seq<Txid>, i: nat)
    requires pool.Valid() && x in pool.ids && Closed(pool, inBlock) && Sorted(pool, s) && i < |s|
    requires forall y :: y in s <==> y in Package(pool, x, inBlock)
    ensures s[i] in pool.ids && s[i] !in s[..i] && (x !in inBlock ==> s[i] !in inBlock)
    ensures pool.ancestors(s[i]) <= inBlock + Elements(s[..i])
  {
    var e := s[i];
    PackageMember(pool, x, inBlock, e);
    forall a | a in pool.ancestors(e) && a !in inBlock ensures a in s[..i] {
      AncestorsCountLess(pool, e, a);
      SortedEarlier(pool, a, s, i);
    }
  }

  lemma {:induction false} PackageMember(pool: Pool, x: Txid, inBlock: set<Txid>, e: Txid)
    requires pool.Valid() && x in pool.ids && e in Package(pool, x, inBlock)
    ensures e in pool.ids
    ensures forall a :: a in pool.ancestors(e) && a !in inBlock ==> a in Package(pool, x, inBlock)
  {
    assert e != x ==> e in pool.ancestors(x) && pool.ancestors(e) <= pool.ancestors(x);
  }

  lemma {:induction false} SortedEarlier(pool: Pool, a: Txid, s: seq<Txid>, i: nat)
    requires Sorted(pool, s) && i < |s| && a in s
    requires pool.countWithAncestors(a) < pool.countWithAncestors(s[i])
    ensures a in s[..i]
  {
    var j :| 0 <= j < |s| && s[j] == a;
    assert j > i ==> Before(pool, s[i], s[j]);
    assert s[..i][j] == a;
  }

  function Elements(s: seq<Txid>): set<Txid> { set x | x in s }

  lemma {:induction false} PrefixStep(s: seq<Txid>, i: nat)
    requires i < |s|
    ensures s[..i + 1] == s[..i] + [s[i]]
    ensures Elements(s[..i + 1]) == Elements(s[..i]) + {s[i]}
  {
  }

  function Each(f: Txid -> nat, s: seq<Txid>): seq<nat> { seq(|s|, i requires 0 <= i < |s| => f(s[i])) }

  /* ---- updating the modified entries ---- */

  // The record an entry gets when the given ancestors of it enter the block.
  ghost function Deducted(pool: Pool, was: Mods, x: Txid, added: set<Txid>): Mod {
    var start := if x in was then was[x] else Mod(pool.sizeWithAncestors(x), pool.sigOpsWithAncestors(x));
    Mod(start.size - Sum(pool.size, pool.ancestors(x) * added),
        start.sigOps - Sum(pool.sigOps, pool.ancestors(x) * added))
  }

  // What the record of `x` is once the transactions of `seen`, out of those just added,
  // have been accounted for.
  ghost predicate Recorded(pool: Pool, was: Mods, added: set<Txid>, seen: set<Txid>, now: Mods, x: Txid) {
    && (x in now <==> x in was || (x in pool.ids && x !in added && pool.ancestors(x) * seen != {}))
    && (x in now ==> now[x] == if x in added || pool.ancestors(x) * seen == {} then was[x]
          else Deducted(pool, was, x, seen))
  }

  ghost predicate Updated(pool: Pool, was: Mods, added: set<Txid>, seen: set<Txid>, now: Mods) {
    forall x :: Recorded(pool, was, added, seen, now, x)
  }

  lemma {:induction false} UpdatedNone(pool: Pool, was: Mods, added: set<Txid>)
    ensures Updated(pool, was, added, {}, was)
  {
    forall x ensures Recorded(pool, was, added, {}, was, x) {
      assert pool.ancestors(x) * {} == {};
    }
  }

  // One more parent is deducted from the record of a descendant.
  lemma {:induction false} RecordedStep(pool: Pool, was: Mods, added: set<Txid>, seen: set<Txid>, parent: Txid,
                                        mid: Mods, now: Mods, x: Txid)
    requires x in pool.ids && x !in added && parent in pool.ancestors(x) && parent !in seen
    requires Recorded(pool, was, added, seen, mid, x)
    requires x in now
    requires var m := if x in mid then mid[x] else Mod(pool.sizeWithAncestors(x), pool.sigOpsWithAncestors(x));
      now[x] == Mod(m.size - pool.size(parent), m.sigOps - pool.sigOps(parent))
    ensures Recorded(pool, was, added, seen + {parent}, now, x)
  {
    var a, b := pool.ancestors(x) * seen, pool.ancestors(x) * (seen + {parent});
    assert parent in b && b - {parent} == a;
    SumWithout(pool.size, b, parent);
    SumWithout(pool.sigOps, b, parent);
    if a == {} { assert Sum(pool.size, a) == 0 && Sum(pool.sigOps, a) == 0; }
  }

  lemma {:induction false} RecordedSame(pool: Pool, was: Mods, added: set<Txid>, seen: set<Txid>, parent: Txid,
                                        now: Mods, x: Txid)
    requires x in added || parent !in pool.ancestors(x)
    requires Recorded(pool, was, added, seen, now, x)
    ensures Recorded(pool, was, added, seen + {parent}, now, x)
  {
    if x !in added {
      assert pool.ancestors(x) * (seen + {parent}) == pool.ancestors(x) * seen;
    }
  }

  lemma {:induction false} OutstandingAfter(pool: Pool, f: Txid -> nat, x: Txid, inBlock: set<Txid>, p: set<Txid>)
    requires p !! inBlock
    ensures Outstanding(pool, f, x, inBlock) == Outstanding(pool, f, x, inBlock + p) + Sum(f, pool.ancestors(x) * p)
  {
    var a := pool.ancestors(x) - inBlock;
    SumSplit(f, a, p);
    assert a - p == pool.ancestors(x) - (inBlock + p);
    assert a * p == pool.ancestors(x) * p;
  }

  // Accounting for a whole package keeps the records right for the larger block.
  lemma {:induction false} UpdatedKeeps(pool: Pool, inBlock: set<Txid>, mods: Mods, failed: set<Txid>, p: set<Txid>,
                                        now: Mods)
    requires pool.Valid() && Closed(pool, inBlock) && ModsOk(pool, inBlock, mods, failed)
    requires p !! inBlock && Closed(pool, inBlock + p) && Updated(pool, mods - p, p, p, now)
    requires Descend(pool, inBlock, failed)
    ensures ModsOk(pool, inBlock + p, now, failed)
  {
    hide Closed, ModOk, Recorded;
    forall x | x in now ensures x in pool.ids - (inBlock + p) && ModOk(pool, inBlock + p, now[x], x, x in failed) {
      UpdatedEntry(pool, inBlock, mods, failed, p, now, x);
    }
    forall x | x in pool.ids && x !in inBlock + p && x !in now && x !in failed
      ensures pool.ancestors(x) !! inBlock + p
    {
      UnrecordedEntry(pool, inBlock, mods, failed, p, now, x);
    }
  }

  lemma {:induction false} UnrecordedEntry(pool: Pool, inBlock: set<Txid>, mods: Mods, failed: set<Txid>, p: set<Txid>,
                                           now: Mods, x: Txid)
    requires ModsOk(pool, inBlock, mods, failed) && Recorded(pool, mods - p, p, p, now, x)
    requires x in pool.ids && x !in inBlock + p && x !in now && x !in failed
    ensures pool.ancestors(x) !! inBlock + p
  {
    hide ModOk;
    assert x in mods ==> x in mods - p;
    assert pool.ancestors(x) !! inBlock;
    forall a | a in pool.ancestors(x) ensures a !in inBlock + p { assert a in p ==> a in pool.ancestors(x) * p; }
  }

  lemma {:induction false} UpdatedEntry(pool: Pool, inBlock: set<Txid>, mods: Mods, failed: set<Txid>, p: set<Txid>,
                                        now: Mods, x: Txid)
    requires pool.Valid() && Closed(pool, inBlock) && ModsOk(pool, inBlock, mods, failed)
    requires p !! inBlock && x in now && Recorded(pool, mods - p, p, p, now, x) && Descend(pool, inBlock, failed)
    ensures x in pool.ids - (inBlock + p) && ModOk(pool, inBlock + p, now[x], x, x in failed)
  {
    OutstandingAfter(pool, pool.size, x, inBlock, p);
    OutstandingAfter(pool, pool.sigOps, x, inBlock, p);
    if x !in mods {
      // a new record starts from the full ancestor totals
      SumSplit(pool.size, pool.ancestors(x), inBlock);
      SumSplit(pool.sigOps, pool.ancestors(x), inBlock);
      var a :| a in pool.ancestors(x) * p;
      assert x in inBlock ==> a in inBlock;
      if x !in failed {
        assert pool.ancestors(x) * inBlock == {};
      } else if PositiveSizes(pool) {
        // what was in the block before is not deducted again
        SumPositive(pool, pool.ancestors(x) * inBlock);
      }
    } else {
      assert ModOk(pool, inBlock, mods[x], x, x in failed);
      if pool.ancestors(x) * p == {} { assert Sum(pool.size, pool.ancestors(x) * p) == 0; }
    }
  }

  lemma {:induction false} SumPositive(pool: Pool, s: set<Txid>)
    requires PositiveSizes(pool) && s <= pool.ids && s != {}
    ensures Sum(pool.size, s) > 0
  {
    var x :| x in s;
    SumWithout(pool.size, s, x);
  }

  // The recorded size is right exactly for the entries that have not failed.
  lemma {:induction false} RecordIsExact(pool: Pool, inBlock: set<Txid>, mods: Mods, failed: set<Txid>, x: Txid)
    requires ModsOk(pool, inBlock, mods, failed) && x in mods
    ensures x !in failed ==>
      mods[x] == Mod(Outstanding(pool, pool.size, x, inBlock), Outstanding(pool, pool.sigOps, x, inBlock))
    ensures PositiveSizes(pool) ==> (mods[x].size == Outstanding(pool, pool.size, x, inBlock) <==> x !in failed)
  {
    hide Outstanding;
    assert ModOk(pool, inBlock, mods[x], x, x in failed);
  }

  // Before anything was accounted for, accounting for the whole block gives right records.
  lemma {:induction false} FirstRecords(pool: Pool, inBlock: set<Txid>, mods: Mods)
    requires pool.Valid() && Closed(pool, inBlock) && Updated(pool, map[], inBlock, inBlock, mods)
    ensures ModsOk(pool, inBlock, mods, {})
  {
    var none: Mods := map[];
    assert none - inBlock == none;
    assert {} + inBlock == inBlock;
    UpdatedKeeps(pool, {}, none, {}, inBlock, mods);
  }

  lemma {:induction false} FewerEntries(mods: Mods, x: Txid)
    requires x in mods
    ensures |mods - {x}| < |mods|
  {
    assert (mods - {x}).Keys == mods.Keys - {x};
    assert |mods - {x}| == |mods.Keys - {x}| && |mods| == |mods.Keys|;
  }

  // Giving up on a modified entry keeps the others right.
  lemma {:induction false} FailedKeeps(pool: Pool, inBlock: set<Txid>, mods: Mods, failed: set<Txid>, x: Txid)
    requires ModsOk(pool, inBlock, mods, failed) && x in mods
    ensures ModsOk(pool, inBlock, mods - {x}, failed + {x})
    ensures |mods - {x}| < |mods|
  {
    hide ModOk;
    FewerEntries(mods, x);
    forall y | y in mods - {x} ensures ModOk(pool, inBlock, (mods - {x})[y], y, y in failed + {x}) {
      assert ModOk(pool, inBlock, mods[y], y, y in failed);
    }
  }

  lemma {:induction false} FailedDescends(pool: Pool, inBlock: set<Txid>, mods: Mods, failed: set<Txid>, x: Txid)
    requires Descend(pool, inBlock, mods.Keys) && Descend(pool, inBlock, failed) && x in mods
    ensures Descend(pool, inBlock, (mods - {x}).Keys) && Descend(pool, inBlock, failed + {x})
  {
  }

  // An entry that is not skipped still has its cached totals.
  lemma {:induction false} CachedIsOutstanding(pool: Pool, inBlock: set<Txid>, mods: Mods, failed: set<Txid>, x: Txid)
    requires pool.Valid() && ModsOk(pool, inBlock, mods, failed)
    requires x in pool.ids && x !in inBlock && x !in mods && x !in failed
    ensures pool.sizeWithAncestors(x) == Outstanding(pool, pool.size, x, inBlock)
    ensures pool.sigOpsWithAncestors(x) == Outstanding(pool, pool.sigOps, x, inBlock)
  {
    assert pool.ancestors(x) - inBlock == pool.ancestors(x);
  }

  /* ---- what is left out ---- */

  // The block as an entry meets it: what is in it, and the room left for weight and
  // signature operations.
  datatype View = View(inBlock: set<Txid>, room: int, sigOpsRoom: int, includeWitness: bool)

  ghost predicate Grown(v: View, p: set<Txid>, w: View) {
    && w.inBlock == v.inBlock + p && w.includeWitness == v.includeWitness
    && w.room <= v.room && w.sigOpsRoom <= v.sigOpsRoom
  }

  // The package of the entry does not fit the block, or holds a transaction unfit for mining.
  ghost predicate Refused(pool: Pool, v: View, x: Txid) {
    || WITNESS_SCALE_FACTOR * Outstanding(pool, pool.size, x, v.inBlock) >= v.room
    || Outstanding(pool, pool.sigOps, x, v.inBlock) >= v.sigOpsRoom
    || (exists y :: y in Package(pool, x, v.inBlock) && !Minable(pool, v.includeWitness, y))
  }

  // The entry is in the block or refused, or still to be looked at, or failed again: on a
  // record made after it had failed before.
  ghost predicate Settled(pool: Pool, v: View, mods: Mods, again: set<Txid>, x: Txid) {
    x in v.inBlock || x in mods || x in again || Refused(pool, v, x)
  }

  // Growing the block by a package that holds no ancestor of the entry does not help.
  lemma {:induction false} StillRefused(pool: Pool, v: View, p: set<Txid>, w: View, x: Txid)
    requires Refused(pool, v, x) && pool.ancestors(x) !! p && Grown(v, p, w)
    ensures Refused(pool, w, x)
  {
    assert pool.ancestors(x) - w.inBlock == pool.ancestors(x) - v.inBlock;
  }

  ghost predicate AllSettled(pool: Pool, v: View, mods: Mods, again: set<Txid>, s: set<Txid>) {
    s <= pool.ids && forall x :: x in s ==> Settled(pool, v, mods, again, x)
  }

  ghost predicate Covers(s: set<Txid>, order: seq<Txid>, n: nat) {
    n <= |order| && forall i :: 0 <= i < n ==> order[i] in s
  }

  // A step of the walk covers one more entry or none.
  lemma {:induction false} CoversNext(s: set<Txid>, t: set<Txid>, order: seq<Txid>, n: nat, m: nat)
    requires Covers(s, order, n) && s <= t
    requires m == n || (m == n + 1 <= |order| && order[n] in t)
    ensures Covers(t, order, m)
  {
  }

  ghost predicate Exhausted(pool: Pool, v: View, again: set<Txid>, order: seq<Txid>) {
    forall x :: x in order ==> x in v.inBlock || x in again || Refused(pool, v, x)
  }

  // Once no modified entry is left, every entry walked over is in the block, refused or failed again.
  lemma {:induction false} EachSettled(pool: Pool, v: View, again: set<Txid>, order: seq<Txid>, n: nat, s: set<Txid>)
    requires n == |order| && AllSettled(pool, v, map[], again, s) && Covers(s, order, n)
    ensures Exhausted(pool, v, again, order)
  {
    hide Refused;
    forall x | x in order ensures x in v.inBlock || x in again || Refused(pool, v, x) {
      assert x in s;
      assert Settled(pool, v, map[], again, x);
    }
  }

  lemma {:induction false} OneMoreSettled(pool: Pool, v: View, mods: Mods, again: set<Txid>, s: set<Txid>, x: Txid)
    requires AllSettled(pool, v, mods, again, s) && x in pool.ids && Settled(pool, v, mods, again, x)
    ensures AllSettled(pool, v, mods, again, s + {x})
  {
    hide Settled;
  }

  // An entry that gained an ancestor in the block is looked at again.
  lemma {:induction false} SettledKeeps(pool: Pool, v: View, p: set<Txid>, w: View, was: Mods, now: Mods,
                                        again: set<Txid>, s: set<Txid>)
    requires Grown(v, p, w) && Updated(pool, was - p, p, p, now) && AllSettled(pool, v, was, again, s)
    ensures AllSettled(pool, w, now, again, s)
  {
    hide Refused;
    forall x | x in s ensures Settled(pool, w, now, again, x) {
      assert Recorded(pool, was - p, p, p, now, x);
      if x !in w.inBlock && x !in now && x !in again {
        assert pool.ancestors(x) * p == {};
        assert forall y :: y in pool.ancestors(x) && y in p ==> y in pool.ancestors(x) * p;
        StillRefused(pool, v, p, w, x);
      }
    }
  }

  // So is the rest when a modified entry fails, and that entry itself.
  lemma {:induction false} SettledWithout(pool: Pool, v: View, mods: Mods, again: set<Txid>, now: set<Txid>,
                                          s: set<Txid>, x: Txid)
    requires AllSettled(pool, v, mods, again, s) && again <= now && x in pool.ids && (x in now || Refused(pool, v, x))
    ensures AllSettled(pool, v, mods - {x}, now, s + {x})
  {
    hide Refused;
    forall y | y in s + {x} ensures Settled(pool, v, mods - {x}, now, y) {
      if y != x { assert Settled(pool, v, mods, again, y); }
    }
  }

  // An entry that is skipped is settled.
  lemma {:induction false} SkippedSettled(pool: Pool, v: View, mods: Mods, failed: set<Txid>, again: set<Txid>,
                                          s: set<Txid>, x: Txid)
    requires AllSettled(pool, v, mods, again, s) && failed <= s && (x in mods || x in v.inBlock || x in failed)
    ensures Settled(pool, v, mods, again, x)
  {
    hide Refused;
  }

  // Every modified entry, and every one that failed, has an ancestor in the block.
  ghost predicate Descend(pool: Pool, inBlock: set<Txid>, s: set<Txid>) {
    forall x :: x in s ==> pool.ancestors(x) * inBlock != {}
  }

  lemma {:induction false} DescendKeeps(pool: Pool, inBlock: set<Txid>, p: set<Txid>, was: Mods, now: Mods,
                                        failed: set<Txid>)
    requires Descend(pool, inBlock, was.Keys) && Descend(pool, inBlock, failed) && Updated(pool, was - p, p, p, now)
    ensures Descend(pool, inBlock + p, now.Keys) && Descend(pool, inBlock + p, failed)
  {
    forall x | x in now ensures pool.ancestors(x) * (inBlock + p) != {} {
      assert Recorded(pool, was - p, p, p, now, x);
      if x in was {
        DescendMore(pool.ancestors(x), inBlock, inBlock + p);
      } else {
        DescendMore(pool.ancestors(x), p, inBlock + p);
      }
    }
    forall x | x in failed ensures pool.ancestors(x) * (inBlock + p) != {} {
      DescendMore(pool.ancestors(x), inBlock, inBlock + p);
    }
  }

  lemma {:induction false} FirstDescend(pool: Pool, inBlock: set<Txid>, mods: Mods)
    requires Updated(pool, map[], inBlock, inBlock, mods)
    ensures Descend(pool, inBlock, mods.Keys)
  {
    forall x | x in mods ensures pool.ancestors(x) * inBlock != {} {
      assert Recorded(pool, map[], inBlock, inBlock, mods, x);
    }
  }

  lemma {:induction false} DescendMore(a: set<Txid>, b: set<Txid>, c: set<Txid>)
    requires a * b != {} && b <= c
    ensures a * c != {}
  {
    var y :| y in a * b;
    assert y in a * c;
  }

  /* ---- records made again ---- */

  // Ancestors came into the block at two times at least.
  ghost predicate Twice(pool: Pool, inBlock: set<Txid>, s: set<Txid>) {
    forall x :: x in s ==> |pool.ancestors(x) * inBlock| >= 2
  }

  // The entries recorded again, and those that failed again.
  ghost function Repeated(mods: Mods, failed: set<Txid>, again: set<Txid>): set<Txid> { mods.Keys * failed + again }

  lemma {:induction false} TwoParts(a: set<Txid>, b: set<Txid>, p: set<Txid>)
    requires b !! p
    ensures |a * (b + p)| == |a * b| + |a * p|
  {
    assert a * (b + p) == a * b + a * p;
  }

  lemma {:induction false} TwiceKeeps(pool: Pool, inBlock: set<Txid>, p: set<Txid>, was: Mods, now: Mods,
                                      failed: set<Txid>, again: set<Txid>)
    requires p !! inBlock && Descend(pool, inBlock, failed) && Updated(pool, was - p, p, p, now)
    requires Twice(pool, inBlock, Repeated(was, failed, again))
    ensures Twice(pool, inBlock + p, Repeated(now, failed, again))
  {
    forall x | x in Repeated(now, failed, again) ensures |pool.ancestors(x) * (inBlock + p)| >= 2 {
      TwoParts(pool.ancestors(x), inBlock, p);
      if x !in Repeated(was, failed, again) {
        assert Recorded(pool, was - p, p, p, now, x);
        assert x !in was - p;
        NotEmpty(pool.ancestors(x) * inBlock);
        NotEmpty(pool.ancestors(x) * p);
      }
    }
  }

  lemma {:induction false} NotEmpty(s: set<Txid>)
    ensures s != {} ==> |s| >= 1
  {
  }

  lemma {:induction false} TwiceFailed(pool: Pool, inBlock: set<Txid>, mods: Mods, failed: set<Txid>, again: set<Txid>,
                                       x: Txid)
    requires x in mods && Twice(pool, inBlock, Repeated(mods, failed, again))
    ensures Twice(pool, inBlock, Repeated(mods - {x}, failed + {x}, if x in failed then again + {x} else again))
  {
    var q := Repeated(mods - {x}, failed + {x}, if x in failed then again + {x} else again);
    assert q <= Repeated(mods, failed, again);
  }

  lemma {:induction false} AgainTwice(pool: Pool, inBlock: set<Txid>, mods: Mods, failed: set<Txid>, again: set<Txid>)
    requires Twice(pool, inBlock, Repeated(mods, failed, again))
    ensures Twice(pool, inBlock, again)
  {
  }

  lemma {:induction false} PackageOutside(pool: Pool, x: Txid, inBlock: set<Txid>)
    requires x !in inBlock
    ensures Package(pool, x, inBlock) !! inBlock
  {
  }

  // Two transactions and one that spends both.
  ghost predicate ThreePool(pool: Pool, a: Txid, b: Txid, c: Txid) {
    && a != b && a != c && b != c && pool.ids == {a, b, c}
    && pool.ancestors(a) == {} && pool.ancestors(b) == {} && pool.ancestors(c) == {a, b}
  }

  // With the first in the block the spender fails, as large as it is; with the second in the block
  // it is recorded again, and the first is counted although it is in the block.
  lemma {:induction false} RecordFails(pool: Pool, a: Txid, b: Txid, c: Txid, first: Mods, second: Mods)
    requires pool.Valid() && ThreePool(pool, a, b, c) && pool.size(a) > 0
    requires Updated(pool, map[], {a}, {a}, first)
    requires Updated(pool, first - {c} - {b}, {b}, {b}, second)
    ensures c in first && first[c].size == Outstanding(pool, pool.size, c, {a})
    ensures c in second && second[c].size == Outstanding(pool, pool.size, c, {a, b}) + pool.size(a)
  {
    hide Updated, Recorded, Outstanding, Sum, Pool.Valid;
    ThreeOutstanding(pool, a, b, c);
    assert pool.ancestors(c) * {a} == {a} && pool.ancestors(c) * {b} == {b};
    RecordedAfresh(pool, map[], a, first, c);
    RecordedAfresh(pool, first - {c} - {b}, b, second, c);
  }

  lemma {:induction false} RecordedAfresh(pool: Pool, was: Mods, p: Txid, now: Mods, x: Txid)
    requires Updated(pool, was, {p}, {p}, now) && x in pool.ids && x != p && x !in was && pool.ancestors(x) * {p} == {p}
    ensures x in now && now[x].size == pool.sizeWithAncestors(x) - pool.size(p)
  {
    assert Recorded(pool, was, {p}, {p}, now, x);
    SumOne(pool.size, p);
  }

  lemma {:induction false} ThreeOutstanding(pool: Pool, a: Txid, b: Txid, c: Txid)
    requires pool.Valid() && ThreePool(pool, a, b, c)
    ensures pool.sizeWithAncestors(c) == pool.size(c) + pool.size(a) + pool.size(b)
    ensures Outstanding(pool, pool.size, c, {a}) == pool.size(c) + pool.size(b)
    ensures Outstanding(pool, pool.size, c, {a, b}) == pool.size(c)
  {
    assert {a, b} - {a} == {b} && {a, b} * {a} == {a} && {a, b} - {a, b} == {};
    SumSplit(pool.size, {a, b}, {a});
    SumOne(pool.size, a);
    SumOne(pool.size, b);
  }

  lemma {:induction false} SumOne(f: Txid -> nat, x: Txid)
    ensures Sum(f, {x}) == f(x)
  {
    SumWithout(f, {x}, x);
    assert {x} - {x} == {};
  }

  // There is such a mempool.
  lemma {:induction false} ThreeExist() returns (pool: Pool, a: Txid, b: Txid, c: Txid)
    ensures pool.Valid() && ThreePool(pool, a, b, c) && PositiveSizes(pool)
  {
    a, b, c := Txid(0), Txid(1), Txid(2);
    var anc := (x: Txid) => if x == Txid(2) then {Txid(0), Txid(1)} else {};
    var one := (x: Txid) => 1;
    var none := (x: Txid) => 0;
    var yes := (x: Txid) => true;
    var no := (x: Txid) => false;
    var count := (x: Txid) => if x == Txid(2) then 3 else 1;
    pool := Pool({a, b, c}, anc, one, one, none, none, yes, no, yes, count, count, none);
    assert {a, b} - {a} == {b};
    SumSplit(one, {a, b}, {a});
    SumOne(one, a);
    SumOne(one, b);
    assert {a, b} * {a} == {a};
    SumNone(none, anc(c));
  }

  lemma {:induction false} SumNone(f: Txid -> nat, s: set<Txid>)
    requires forall x :: f(x) == 0
    ensures Sum(f, s) == 0
    decreases |s|
  {
    if s != {} {
      var x :| x in s;
      SumWithout(f, s, x);
      SumNone(f, s - {x});
    }
  }

  // A modified entry is outside the block and its record covers its package.
  lemma {:induction false} RecordCovers(pool: Pool, inBlock: set<Txid>, mods: Mods, failed: set<Txid>, x: Txid)
    requires pool.Valid() && ModsOk(pool, inBlock, mods, failed) && x in mods
    ensures x in pool.ids && x !in inBlock
    ensures mods[x].size >= Outstanding(pool, pool.size, x, inBlock)
    ensures Outstanding(pool, pool.sigOps, x, inBlock) <= mods[x].sigOps < TWO_32
  {
  }

  ghost function Remaining(pool: Pool, inBlock: set<Txid>): nat { |pool.ids - inBlock| }

  lemma {:induction false} FewerOutside(pool: Pool, inBlock: set<Txid>, x: Txid)
    requires x in pool.ids && x !in inBlock
    ensures Remaining(pool, inBlock + Package(pool, x, inBlock)) < Remaining(pool, inBlock)
  {
    ProperSubsetSize(pool.ids - (inBlock + Package(pool, x, inBlock)), pool.ids - inBlock, x);
  }

  /* ---- giving up ---- */

  // What became of a package: too large, added, or not fit for mining.
  datatype Trial = TooBig | WentIn | Unfit

  function StreakNext(n: nat, t: Trial): nat {
    match t
    case TooBig => n + 1
    case WentIn => 0
    case Unfit => n
  }

  // Packages too large since the last that went in.
  function Streak(log: seq<Trial>): nat {
    if log == [] then 0 else StreakNext(Streak(log[..|log| - 1]), log[|log| - 1])
  }

  lemma {:induction false} StreakGrows(log: seq<Trial>, t: Trial)
    ensures Streak(log + [t]) == StreakNext(Streak(log), t)
  {
    assert (log + [t])[..|log|] == log;
  }
}
