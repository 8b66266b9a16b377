/** The block assembler: adds packages of mempool transactions to a block, keeping the
    totals of the transactions left over in step with what the block holds. */
module BlockAssembler {
  import opened BlockAssembly
  import opened Sums

  class BlockAssembler {
    const pool: Pool
    const nBlockMaxWeight: nat
    var fIncludeWitness: bool
    var vtx: seq<Txid>
    var vTxFees: seq<nat>
    var vTxSigOpsCost: seq<nat>
    var nBlockWeight: nat
    var nBlockSigOpsCost: nat
    var nBlockTx: nat
    var nFees: nat
    var inBlock: set<Txid>

    // The block holds each transaction once and after its ancestors, all ancestors
    // included, and the totals are those of the transactions in it.
    ghost predicate Built()
      reads this
    {
      && Closed(pool, inBlock) && Ordered(pool, vtx, inBlock)
      && nBlockWeight == COINBASE_WEIGHT + Sum(pool.weight, inBlock)
      && nBlockSigOpsCost == COINBASE_SIGOPS + Sum(pool.sigOps, inBlock)
      && nFees == Sum(pool.fee, inBlock)
      && nBlockTx == |vtx|
      && vTxFees == Each(pool.fee, vtx)
      && vTxSigOpsCost == Each(pool.sigOps, vtx)
    }

    // It also keeps within the limits and holds only transactions fit for mining.
    ghost predicate Valid()
      reads this
    {
      && pool.Valid() && Built()
      && COINBASE_WEIGHT <= nBlockMaxWeight
      && (inBlock != {} ==> nBlockWeight < nBlockMaxWeight)
      && nBlockSigOpsCost < MAX_BLOCK_SIGOPS_COST
      && (forall x :: x in inBlock ==> Minable(pool, fIncludeWitness, x))
    }

    ghost function Now(): View
      reads this
    {
      View(inBlock, nBlockMaxWeight - nBlockWeight, MAX_BLOCK_SIGOPS_COST - nBlockSigOpsCost, fIncludeWitness)
    }

    constructor (pool: Pool, maxBlockWeight: nat, blockMaxWeight: nat, includeWitness: bool)
      requires pool.Valid() && maxBlockWeight >= 4000
      ensures this.pool == pool && fIncludeWitness == includeWitness
      ensures Valid() && inBlock == {} && nBlockWeight == 4000 && nBlockSigOpsCost == 400
      ensures 4000 <= nBlockMaxWeight && (nBlockMaxWeight == 4000 || nBlockMaxWeight <= maxBlockWeight - 4000)
      ensures 4000 <= blockMaxWeight <= maxBlockWeight - 4000 ==> nBlockMaxWeight == blockMaxWeight
      ensures blockMaxWeight > maxBlockWeight - 4000 >= 4000 ==> nBlockMaxWeight == maxBlockWeight - 4000
    {
      this.pool := pool;
      var limit := if maxBlockWeight - 4000 < blockMaxWeight then maxBlockWeight - 4000 else blockMaxWeight;
      nBlockMaxWeight := if limit < 4000 then 4000 else limit;
      fIncludeWitness := includeWitness;
      vtx, vTxFees, vTxSigOpsCost := [], [], [];
      nBlockWeight, nBlockSigOpsCost, nBlockTx, nFees, inBlock := COINBASE_WEIGHT, COINBASE_SIGOPS, 0, 0, {};
    }

    method OnlyUnconfirmed(testSet: set<Txid>) returns (r: set<Txid>)
      ensures r == testSet - inBlock
    {
      r := testSet;
      var todo := testSet;
      while todo != {}
        invariant todo <= testSet && r == testSet - (inBlock - todo)
        decreases |todo|
      {
        var x :| x in todo;
        todo := todo - {x};
        if x in inBlock { r := r - {x}; }
      }
    }

    method TestPackage(packageSize: nat, packageSigOpsCost: nat) returns (fits: bool)
      ensures fits ==> nBlockWeight + WITNESS_SCALE_FACTOR * packageSize < nBlockMaxWeight
      ensures fits ==> nBlockSigOpsCost + packageSigOpsCost < MAX_BLOCK_SIGOPS_COST
      ensures fits <==>
        nBlockWeight + 4 * packageSize < nBlockMaxWeight && nBlockSigOpsCost + packageSigOpsCost < 80_000
      ensures !fits ==>
        || nBlockWeight + WITNESS_SCALE_FACTOR * packageSize >= nBlockMaxWeight
        || nBlockSigOpsCost + packageSigOpsCost >= MAX_BLOCK_SIGOPS_COST
    {
      if nBlockWeight + WITNESS_SCALE_FACTOR * packageSize >= nBlockMaxWeight { return false; }
      if nBlockSigOpsCost + packageSigOpsCost >= MAX_BLOCK_SIGOPS_COST { return false; }
      return true;
    }

    method TestPackageTransactions(package: set<Txid>) returns (good: bool)
      ensures good <==> forall x :: x in package ==> Minable(pool, fIncludeWitness, x)
      ensures good <==> forall x :: x in package ==>
        pool.isFinal(x) && pool.isSafe(x) && (pool.hasWitness(x) ==> fIncludeWitness)
    {
      var todo := package;
      while todo != {}
        invariant todo <= package
        invariant forall x :: x in package - todo ==> Minable(pool, fIncludeWitness, x)
        decreases |todo|
      {
        var x :| x in todo;
        if !pool.isFinal(x) { return false; }
        if !fIncludeWitness && pool.hasWitness(x) { return false; }
        if !pool.isSafe(x) { return false; }
        todo := todo - {x};
      }
      return true;
    }

    method AddToBlock(x: Txid)
      requires Built() && x in pool.ids && x !in inBlock && pool.ancestors(x) <= inBlock
      modifies this`vtx, this`vTxFees, this`vTxSigOpsCost, this`nBlockWeight, this`nBlockTx, this`nBlockSigOpsCost,
               this`nFees, this`inBlock
      ensures Built()
      ensures vtx == old(vtx) + [x] && inBlock == old(inBlock) + {x}
      ensures nBlockWeight == old(nBlockWeight) + pool.weight(x)
      ensures nBlockSigOpsCost == old(nBlockSigOpsCost) + pool.sigOps(x)
    {
      OrderedAppend(pool, vtx, inBlock, x);
      ClosedAppend(pool, inBlock, x);
      SumWith(pool.weight, inBlock, x);
      SumWith(pool.sigOps, inBlock, x);
      SumWith(pool.fee, inBlock, x);
      EachAppend(pool.fee, vtx, x);
      EachAppend(pool.sigOps, vtx, x);
      vtx := vtx + [x];
      vTxFees := vTxFees + [pool.fee(x)];
      vTxSigOpsCost := vTxSigOpsCost + [pool.sigOps(x)];
      nBlockWeight := nBlockWeight + pool.weight(x);
      nBlockTx := nBlockTx + 1;
      nBlockSigOpsCost := nBlockSigOpsCost + pool.sigOps(x);
      nFees := nFees + pool.fee(x);
      inBlock := inBlock + {x};
    }

    method SortForBlock(package: set<Txid>) returns (sorted: seq<Txid>)
      ensures Sorted(pool, sorted)
      ensures forall y :: y in sorted <==> y in package
    {
      sorted := [];
      var todo := package;
      while todo != {}
        invariant todo <= package && Sorted(pool, sorted)
        invariant forall y :: y in sorted <==> y in package - todo
        decreases |todo|
      {
        var x :| x in todo;
        sorted := Insert(pool, sorted, x);
        todo := todo - {x};
      }
    }

    predicate SkipMapTxEntry(x: Txid, mods: Mods, failed: set<Txid>)
      reads this
    {
      x in mods || x in inBlock || x in failed
    }

    // Deducts one transaction of the package from the records of its descendants.
    method UpdateDescendants(added: set<Txid>, parent: Txid, was: Mods, ghost start: Mods, ghost seen: set<Txid>)
      returns (mods: Mods)
      requires start.Keys <= pool.ids && parent in added && parent !in seen
      requires Updated(pool, start, added, seen, was)
      ensures Updated(pool, start, added, seen + {parent}, mods)
    {
      mods := was;
      var todo := pool.Descendants(parent);
      ghost var all := todo;
      while todo != {}
        invariant todo <= all
        invariant forall x :: x in todo ==> Recorded(pool, start, added, seen, mods, x)
        invariant forall x :: x !in todo ==>
          Recorded(pool, start, added, if x in all then seen + {parent} else seen, mods, x)
        decreases |todo|
      {
        var desc :| desc in todo;
        todo := todo - {desc};
        if desc in added {
          RecordedSame(pool, start, added, seen, parent, mods, desc);
        } else {
          ghost var mid := mods;
          var m := if desc in mods then mods[desc] else Mod(pool.sizeWithAncestors(desc),
                                                            pool.sigOpsWithAncestors(desc));
          mods := mods[desc := Mod(m.size - pool.size(parent), m.sigOps - pool.sigOps(parent))];
          RecordedStep(pool, start, added, seen, parent, mid, mods, desc);
          forall x | x != desc ensures x in todo ==> Recorded(pool, start, added, seen, mods, x)
                               ensures x !in todo ==>
                                 Recorded(pool, start, added, if x in all then seen + {parent} else seen, mods, x)
          {
            assert x in mods <==> x in mid;
          }
        }
      }
      forall x ensures Recorded(pool, start, added, seen + {parent}, mods, x) {
        if x !in all {
          RecordedOutside(parent, start, added, seen, mods, x);
        }
      }
    }

    lemma {:induction false} RecordedOutside(parent: Txid, start: Mods, added: set<Txid>, seen: set<Txid>, mods: Mods,
                                             x: Txid)
      requires start.Keys <= pool.ids && x !in pool.Descendants(parent)
      requires Recorded(pool, start, added, seen, mods, x)
      ensures Recorded(pool, start, added, seen + {parent}, mods, x)
    {
      if x in pool.ids {
        RecordedSame(pool, start, added, seen, parent, mods, x);
      }
    }

    method UpdatePackagesForAdded(alreadyAdded: set<Txid>, start: Mods) returns (mods: Mods)
      requires start.Keys <= pool.ids
      ensures Updated(pool, start, alreadyAdded, alreadyAdded, mods)
    {
      mods := start;
      var todo := alreadyAdded;
      ghost var seen := {};
      UpdatedNone(pool, start, alreadyAdded);
      while todo != {}
        invariant todo <= alreadyAdded && seen == alreadyAdded - todo
        invariant Updated(pool, start, alreadyAdded, seen, mods)
        decreases |todo|
      {
        var x :| x in todo;
        mods := UpdateDescendants(alreadyAdded, x, mods, start, seen);
        todo := todo - {x};
        seen := seen + {x};
      }
      assert seen == alreadyAdded;
    }

    // Adds a sorted package and takes its transactions out of the modified entries.
    method AddSorted(x: Txid, sorted: seq<Txid>, was: Mods) returns (mods: Mods)
      requires pool.Valid() && Built() && x in pool.ids && x !in inBlock
      requires Sorted(pool, sorted) && forall y :: y in sorted <==> y in Package(pool, x, inBlock)
      modifies this`vtx, this`vTxFees, this`vTxSigOpsCost, this`nBlockWeight, this`nBlockTx, this`nBlockSigOpsCost,
               this`nFees, this`inBlock
      ensures Built() && vtx == old(vtx) + sorted
      ensures inBlock == old(inBlock) + Package(pool, x, old(inBlock))
      ensures mods == was - Package(pool, x, old(inBlock))
      ensures nBlockWeight >= old(nBlockWeight) && nBlockSigOpsCost >= old(nBlockSigOpsCost)
    {
      hide Ordered, Closed, Sum;
      mods := was;
      var i := 0;
      while i < |sorted|
        invariant 0 <= i <= |sorted|
        invariant Built() && vtx == old(vtx) + sorted[..i]
        invariant inBlock == old(inBlock) + Elements(sorted[..i])
        invariant mods == was - Elements(sorted[..i])
        invariant nBlockWeight >= old(nBlockWeight) && nBlockSigOpsCost >= old(nBlockSigOpsCost)
      {
        SortedAfterAncestors(pool, x, old(inBlock), sorted, i);
        PrefixStep(sorted, i);
        AddToBlock(sorted[i]);
        mods := mods - {sorted[i]};
        i := i + 1;
      }
      assert sorted[..i] == sorted;
      assert Elements(sorted) == Package(pool, x, old(inBlock));
    }

    // The entry and its ancestors outside the block.
    method PackageOf(x: Txid) returns (package: set<Txid>)
      ensures package == Package(pool, x, inBlock)
    {
      package := OnlyUnconfirmed(pool.ancestors(x));
      package := package + {x};
    }

    // Adds the package of an entry that passed the tests.
    method AddPackage(x: Txid, package: set<Txid>, was: Mods, ghost failed: set<Txid>, ghost packageSize: nat,
                      ghost packageSigOps: nat)
      returns (mods: Mods)
      requires Valid() && x in pool.ids && x !in inBlock && package == Package(pool, x, inBlock)
      requires ModsOk(pool, inBlock, was, failed) && Descend(pool, inBlock, failed)
      requires packageSize >= Outstanding(pool, pool.size, x, inBlock)
      requires packageSigOps >= Outstanding(pool, pool.sigOps, x, inBlock)
      requires nBlockWeight + WITNESS_SCALE_FACTOR * packageSize < nBlockMaxWeight
      requires nBlockSigOpsCost + packageSigOps < MAX_BLOCK_SIGOPS_COST
      requires forall y :: y in package ==> Minable(pool, fIncludeWitness, y)
      modifies this`vtx, this`vTxFees, this`vTxSigOpsCost, this`nBlockWeight, this`nBlockTx, this`nBlockSigOpsCost,
               this`nFees, this`inBlock
      ensures Valid() && ModsOk(pool, inBlock, mods, failed)
      ensures inBlock == old(inBlock) + Package(pool, x, old(inBlock)) && old(vtx) <= vtx
      ensures Remaining(pool, inBlock) < Remaining(pool, old(inBlock)) && x in inBlock
      ensures nBlockWeight >= old(nBlockWeight) && nBlockSigOpsCost >= old(nBlockSigOpsCost)
      ensures Updated(pool, was - package, package, package, mods)
    {
      hide Remaining, Ordered, Closed, Sum, Updated, Outstanding, Sorted;
      ghost var before := inBlock;
      FewerOutside(pool, inBlock, x);
      PackageWithin(pool, x, inBlock, packageSize, packageSigOps);
      var sorted := SortForBlock(package);
      mods := AddSorted(x, sorted, was);
      mods := UpdatePackagesForAdded(package, mods);
      UpdatedKeeps(pool, before, was, failed, package, mods);
    }

    // Whether the package of an entry can go into the block.
    method TestEntry(x: Txid, packageSize: nat, packageSigOps: nat)
      returns (tooBig: bool, good: bool, package: set<Txid>)
      requires packageSigOps < TWO_32
      ensures good ==> package == Package(pool, x, inBlock) && forall y :: y in package ==>
        Minable(pool, fIncludeWitness, y)
      ensures good ==> nBlockWeight + WITNESS_SCALE_FACTOR * packageSize < nBlockMaxWeight
      ensures good ==> nBlockSigOpsCost + packageSigOps < MAX_BLOCK_SIGOPS_COST
      ensures tooBig <==>
        nBlockWeight + 4 * packageSize >= nBlockMaxWeight || nBlockSigOpsCost + packageSigOps >= 80_000
      ensures good || Refused(pool, Now(), x)
           || packageSize != Outstanding(pool, pool.size, x, inBlock)
           || packageSigOps != Outstanding(pool, pool.sigOps, x, inBlock)
    {
      hide Outstanding;
      tooBig, good, package := false, false, {};
      var fits := TestPackage(packageSize, packageSigOps % TWO_32);
      if !fits {
        tooBig := true;
      } else {
        package := PackageOf(x);
        good := TestPackageTransactions(package);
      }
    }

    // Tests the package of an entry, and adds it if it passes. A modified entry that does not pass
    // is refused, unless its record was made after it had failed before.
    method TryPackage(x: Txid, usingModified: bool, packageSize: nat, packageSigOps: nat, was: Mods,
                      wasFailed: set<Txid>, ghost wasAgain: set<Txid>, ghost s: set<Txid>)
      returns (trial: Trial, mods: Mods, failed: set<Txid>, ghost again: set<Txid>)
      requires Valid() && x in pool.ids && x !in inBlock && ModsOk(pool, inBlock, was, wasFailed)
      requires Descend(pool, inBlock, was.Keys) && Descend(pool, inBlock, wasFailed)
      requires AllSettled(pool, Now(), was, wasAgain, s) && wasAgain <= wasFailed <= s
      requires Twice(pool, inBlock, Repeated(was, wasFailed, wasAgain))
      requires packageSize >= Outstanding(pool, pool.size, x, inBlock)
      requires Outstanding(pool, pool.sigOps, x, inBlock) <= packageSigOps < TWO_32
      requires usingModified ==> x in was && was[x] == Mod(packageSize, packageSigOps)
      requires !usingModified ==> packageSize == Outstanding(pool, pool.size, x, inBlock)
      requires !usingModified ==> packageSigOps == Outstanding(pool, pool.sigOps, x, inBlock)
      modifies this`vtx, this`vTxFees, this`vTxSigOpsCost, this`nBlockWeight, this`nBlockTx, this`nBlockSigOpsCost,
               this`nFees, this`inBlock
      ensures Valid() && ModsOk(pool, inBlock, mods, failed) && old(vtx) <= vtx
      ensures Descend(pool, inBlock, mods.Keys) && Descend(pool, inBlock, failed)
      ensures trial.WentIn? ==> inBlock == old(inBlock) + Package(pool, x, old(inBlock))
      ensures trial.WentIn? ==> Remaining(pool, inBlock) < Remaining(pool, old(inBlock))
      ensures !trial.WentIn? ==> inBlock == old(inBlock)
      ensures !trial.WentIn? && usingModified ==> |mods| < |was|
      ensures !trial.WentIn? && !usingModified ==> mods == was
      ensures trial.TooBig? <==>
        old(nBlockWeight) + 4 * packageSize >= nBlockMaxWeight || old(nBlockSigOpsCost) + packageSigOps >= 80_000
      ensures failed == if usingModified && !trial.WentIn? then wasFailed + {x} else wasFailed
      ensures again == if usingModified && !trial.WentIn? && x in wasFailed then wasAgain + {x} else wasAgain
      ensures AllSettled(pool, Now(), mods, again, s + {x}) && again <= failed <= s + {x}
      ensures Twice(pool, inBlock, Repeated(mods, failed, again))
    {
      hide Remaining, Ordered, Closed, Sum, ModsOk, Outstanding, Package, Updated, Refused, Descend, AllSettled,
           Twice, Repeated;
      mods, failed, again := was, wasFailed, wasAgain;
      if usingModified { RecordIsExact(pool, inBlock, was, wasFailed, x); }
      var tooBig, added, package := TestEntry(x, packageSize, packageSigOps);
      trial := if tooBig then TooBig else if added then WentIn else Unfit;
      if added {
        mods := AddPackage(x, package, mods, failed, packageSize, packageSigOps);
        DescendKeeps(pool, old(inBlock), package, was, mods, failed);
        PackageOutside(pool, x, old(inBlock));
        TwiceKeeps(pool, old(inBlock), package, was, mods, failed, again);
        SettledKeeps(pool, old(Now()), package, Now(), was, mods, again, s);
        OneMoreSettled(pool, Now(), mods, again, s, x);
      } else if usingModified {
        FailedKeeps(pool, inBlock, mods, failed, x);
        FailedDescends(pool, inBlock, mods, failed, x);
        TwiceFailed(pool, inBlock, mods, failed, again, x);
        if x in failed { again := again + {x}; }
        SettledWithout(pool, Now(), mods, wasAgain, again, s, x);
        mods := mods - {x};
        failed := failed + {x};
      } else {
        OneMoreSettled(pool, Now(), mods, again, s, x);
      }
    }

    // The next entry of the walk or a modified one, with the totals it goes by.
    method NextEntry(order: seq<Txid>, mi: nat, mods: Mods, ghost failed: set<Txid>)
      returns (x: Txid, usingModified: bool, packageSize: nat, packageSigOps: nat)
      requires pool.Valid() && ModsOk(pool, inBlock, mods, failed)
      requires mi < |order| || (mi == |order| && mods != map[])
      requires mi < |order| ==>
        order[mi] in pool.ids && !(order[mi] in mods || order[mi] in inBlock || order[mi] in failed)
      ensures x in pool.ids && x !in inBlock
      ensures packageSize >= Outstanding(pool, pool.size, x, inBlock)
      ensures Outstanding(pool, pool.sigOps, x, inBlock) <= packageSigOps < TWO_32
      ensures usingModified ==> x in mods && mods[x] == Mod(packageSize, packageSigOps)
      ensures !usingModified ==> mi < |order| && x == order[mi]
      ensures !usingModified ==> packageSize == Outstanding(pool, pool.size, x, inBlock)
      ensures !usingModified ==> packageSigOps == Outstanding(pool, pool.sigOps, x, inBlock)
    {
      hide ModsOk, Outstanding, Sum;
      var modifiedIsBetter: bool := *;
      usingModified := mods != map[] && (mi == |order| || modifiedIsBetter);
      if usingModified {
        x :| x in mods;
        RecordCovers(pool, inBlock, mods, failed, x);
        packageSize, packageSigOps := mods[x].size, mods[x].sigOps;
      } else {
        x := order[mi];
        CachedIsOutstanding(pool, inBlock, mods, failed, x);
        packageSize, packageSigOps := pool.sizeWithAncestors(x), pool.sigOpsWithAncestors(x);
      }
    }

    // One round of the walk: evaluates an entry and decides whether to go on.
    method Evaluate(order: seq<Txid>, mi: nat, nFailed: nat, was: Mods, wasFailed: set<Txid>, ghost wasAgain: set<Txid>,
                    ghost s: set<Txid>)
      returns (stop: bool, lowFee: bool, next: nat, nConsecutiveFailed: nat, mods: Mods, failed: set<Txid>,
               ghost again: set<Txid>, ghost settled: set<Txid>, trial: Trial)
      requires Valid() && ModsOk(pool, inBlock, was, wasFailed)
      requires Descend(pool, inBlock, was.Keys) && Descend(pool, inBlock, wasFailed)
      requires AllSettled(pool, Now(), was, wasAgain, s) && wasAgain <= wasFailed <= s
      requires Twice(pool, inBlock, Repeated(was, wasFailed, wasAgain))
      requires mi < |order| || (mi == |order| && was != map[])
      requires mi < |order| ==>
        order[mi] in pool.ids && !(order[mi] in was || order[mi] in inBlock || order[mi] in wasFailed)
      modifies this`vtx, this`vTxFees, this`vTxSigOpsCost, this`nBlockWeight, this`nBlockTx, this`nBlockSigOpsCost,
               this`nFees, this`inBlock
      ensures Valid() && ModsOk(pool, inBlock, mods, failed) && old(vtx) <= vtx
      ensures Descend(pool, inBlock, mods.Keys) && Descend(pool, inBlock, failed)
      ensures AllSettled(pool, Now(), mods, again, settled) && again <= failed <= settled
      ensures Twice(pool, inBlock, Repeated(mods, failed, again))
      ensures s <= settled && (next == mi || (next == mi + 1 <= |order| && order[mi] in settled))
      ensures lowFee ==> stop && vtx == old(vtx)
      ensures stop && !lowFee ==> nConsecutiveFailed > 1000 && nBlockWeight > nBlockMaxWeight - 4000
      ensures !lowFee ==> nConsecutiveFailed == StreakNext(nFailed, trial)
      ensures !lowFee && trial.WentIn? ==> Remaining(pool, inBlock) < Remaining(pool, old(inBlock))
      ensures !lowFee && !trial.WentIn? ==> inBlock == old(inBlock)
      ensures stop || Remaining(pool, inBlock) < Remaining(pool, old(inBlock))
           || (inBlock == old(inBlock) && |mods| - next < |was| - mi)
    {
      assert pool.Valid();
      hide Valid, Pool.Valid, Remaining, ModsOk, Refused, Outstanding, AllSettled, Package, Descend,
           Twice, Repeated;
      mods, failed, again, nConsecutiveFailed, settled := was, wasFailed, wasAgain, nFailed, s;
      var x, usingModified, packageSize, packageSigOps := NextEntry(order, mi, mods, failed);
      next := if usingModified then mi else mi + 1;
      assert x !in inBlock;
      lowFee := *;
      if lowFee { return true, true, mi, nFailed, was, wasFailed, wasAgain, s, Unfit; }
      trial, mods, failed, again :=
        TryPackage(x, usingModified, packageSize, packageSigOps, mods, failed, again, s);
      settled := s + {x};
      nConsecutiveFailed, stop := CountFailures(nConsecutiveFailed, trial);
    }

    // Packages too large since the last that went in; after more than a thousand of them, with the
    // block close to full, the walk gives up.
    method CountFailures(was: nat, trial: Trial) returns (nConsecutiveFailed: nat, giveUp: bool)
      ensures nConsecutiveFailed == StreakNext(was, trial)
      ensures giveUp <==> trial.TooBig? && nConsecutiveFailed > 1000 && nBlockMaxWeight - nBlockWeight < 4000
    {
      nConsecutiveFailed, giveUp := was, false;
      if trial.TooBig? {
        nConsecutiveFailed := nConsecutiveFailed + 1;
        giveUp := nConsecutiveFailed > MAX_CONSECUTIVE_FAILURES && nBlockWeight > nBlockMaxWeight - 4000;
      } else if trial.WentIn? {
        nConsecutiveFailed := 0;
      }
    }

    // Walks the entries of the mempool in the given order, each time taking either the
    // next one or some modified entry; scores and the minimum fee rate decide which and
    // when to stop, and are left open here.
    method AddPackageTxs(order: seq<Txid>)
      returns (exhausted: bool, lowFee: bool, failed: set<Txid>, ghost again: set<Txid>, ghost log: seq<Trial>)
      requires Valid() && forall x :: x in order ==> x in pool.ids
      modifies this`vtx, this`vTxFees, this`vTxSigOpsCost, this`nBlockWeight, this`nBlockTx, this`nBlockSigOpsCost,
               this`nFees, this`inBlock
      ensures Valid() && old(vtx) <= vtx
      ensures exhausted ==> Exhausted(pool, Now(), again, order) && again <= failed
      ensures exhausted || lowFee || (Streak(log) > 1000 && nBlockWeight > nBlockMaxWeight - 4000)
      ensures forall x :: x in failed ==> pool.ancestors(x) * inBlock != {}
      ensures forall x :: x in again ==> |pool.ancestors(x) * inBlock| >= 2
    {
      assert pool.Valid() && Closed(pool, inBlock);
      hide Valid, Pool.Valid, Updated, ModsOk, Refused, Exhausted;
      var empty: Mods := map[];
      var mods := UpdatePackagesForAdded(inBlock, empty);
      FirstRecords(pool, inBlock, mods);
      FirstDescend(pool, inBlock, mods);
      exhausted, lowFee, failed, again, log := Walk(order, mods);
    }

    method Walk(order: seq<Txid>, start: Mods)
      returns (exhausted: bool, lowFee: bool, failed: set<Txid>, ghost again: set<Txid>, ghost log: seq<Trial>)
      requires Valid() && forall x :: x in order ==> x in pool.ids
      requires ModsOk(pool, inBlock, start, {}) && Descend(pool, inBlock, start.Keys)
      modifies this`vtx, this`vTxFees, this`vTxSigOpsCost, this`nBlockWeight, this`nBlockTx, this`nBlockSigOpsCost,
               this`nFees, this`inBlock
      ensures Valid() && old(vtx) <= vtx && Descend(pool, inBlock, failed) && Twice(pool, inBlock, again)
      ensures exhausted ==> Exhausted(pool, Now(), again, order) && again <= failed
      ensures exhausted || lowFee || (Streak(log) > 1000 && nBlockWeight > nBlockMaxWeight - 4000)
    {
      var mods := start;
      exhausted, lowFee, failed, again, log := false, false, {}, {}, [];
      assert pool.Valid() && Descend(pool, inBlock, failed) && AllSettled(pool, Now(), mods, again, {});
      assert Twice(pool, inBlock, Repeated(mods, failed, again)) && Streak(log) == 0;
      hide Valid, Pool.Valid, Remaining, ModsOk, Refused, AllSettled, Exhausted, Covers, Descend, Twice,
           Repeated, Streak;
      var mi, nConsecutiveFailed := 0, 0;
      ghost var s: set<Txid> := {};
      while mi < |order| || mods != map[]
        invariant 0 <= mi <= |order| && nConsecutiveFailed == Streak(log)
        invariant Valid() && ModsOk(pool, inBlock, mods, failed) && old(vtx) <= vtx
        invariant Descend(pool, inBlock, mods.Keys) && Descend(pool, inBlock, failed)
        invariant Twice(pool, inBlock, Repeated(mods, failed, again))
        invariant AllSettled(pool, Now(), mods, again, s) && Covers(s, order, mi) && again <= failed <= s
        decreases Remaining(pool, inBlock), |order| - mi + |mods|
      {
        ghost var n, covered := mi, s;
        if mi < |order| && SkipMapTxEntry(order[mi], mods, failed) {
          SkippedSettled(pool, Now(), mods, failed, again, s, order[mi]);
          OneMoreSettled(pool, Now(), mods, again, s, order[mi]);
          s := s + {order[mi]};
          mi := mi + 1;
        } else {
          var stop;
          var trial;
          stop, lowFee, mi, nConsecutiveFailed, mods, failed, again, s, trial :=
            Evaluate(order, mi, nConsecutiveFailed, mods, failed, again, s);
          StreakGrows(log, trial);
          if !lowFee { log := log + [trial]; }
          if stop {
            AgainTwice(pool, inBlock, mods, failed, again);
            return;
          }
        }
        CoversNext(covered, s, order, n, mi);
      }
      exhausted := true;
      AgainTwice(pool, inBlock, mods, failed, again);
      EachSettled(pool, Now(), again, order, mi, s);
    }
  }
}
