/** The cache stack as linked views that update their entries in place. Each method
    is proved to take the whole stack to the value its specification gives. */
module CoinsCache {
  import opened Options
  import opened Coins

  class CoinsView {
    const env: Env
    // The view below, or none for the database.
    const base: CoinsView?
    var coins: map<OutPoint, Coin>
    var cacheCoins: Entries
    var cachedCoinsUsage: int
    var hashBlock: nat

    // This view and all below it.
    ghost const Repr: set<CoinsView>

    ghost predicate Linked()
      decreases Repr
    {
      && this in Repr
      && (base != null ==> this !in base.Repr && Repr == base.Repr + {this} && base.env == env && base.Linked())
      && (base == null ==> Repr == {this})
    }

    ghost function Abs(): View
      requires Linked()
      reads Repr
      decreases Repr
    {
      if base == null then Db(coins, hashBlock) else Cache(cacheCoins, cachedCoinsUsage, hashBlock, base.Abs())
    }

    constructor Database(env: Env, coins: map<OutPoint, Coin>, best: nat)
      ensures Linked() && this.env == env && Abs() == Db(coins, best)
    {
      this.env := env;
      base := null;
      this.coins := coins;
      hashBlock := best;
      cacheCoins := map[];
      cachedCoinsUsage := 0;
      Repr := {this};
    }

    constructor OnTop(base: CoinsView)
      requires base.Linked()
      ensures Linked() && this.base == base && Abs() == Cache(map[], 0, 0, base.Abs())
    {
      env := base.env;
      this.base := base;
      coins := map[];
      cacheCoins := map[];
      cachedCoinsUsage := 0;
      hashBlock := 0;
      Repr := base.Repr + {this};
      new;
    }

    method FetchCoin(o: OutPoint) returns (found: bool)
      requires Linked() && base != null
      modifies Repr
      ensures Abs() == Fetch(env, old(Abs()), o) && found == (o in cacheCoins)
      decreases Repr, 0
    {
      if o in cacheCoins {
        return true;
      }
      var tmp := base.GetCoin(o);
      if tmp.None? {
        return false;
      }
      var entry := Entry(tmp.value, false, false);
      if entry.coin.IsSpent() {
        entry := entry.(isFresh := true);
      }
      cacheCoins := cacheCoins[o := entry];
      cachedCoinsUsage := cachedCoinsUsage + env.memory(entry.coin);
      return true;
    }

    method GetCoin(o: OutPoint) returns (coin: Option<Coin>)
      requires Linked()
      modifies Repr
      ensures (Abs(), coin) == Get(env, old(Abs()), o)
      decreases Repr, 1
    {
      if base == null {
        return if o in coins then Some(coins[o]) else None;
      }
      var found := FetchCoin(o);
      if found && !cacheCoins[o].coin.IsSpent() {
        return Some(cacheCoins[o].coin);
      }
      return None;
    }

    method HaveCoin(o: OutPoint) returns (have: bool)
      requires Linked() && base != null
      modifies Repr
      ensures (Abs(), have) == Have(env, old(Abs()), o)
    {
      var found := FetchCoin(o);
      return found && !cacheCoins[o].coin.IsSpent();
    }

    // Not ok is the "replaces non-pruned entry" exception. It leaves the entry in
    // place but has already deducted its memory.
    method AddCoin(o: OutPoint, coin: Coin, possibleOverwrite: bool) returns (ok: bool)
      requires Linked() && base != null && !coin.IsSpent()
      modifies this
      ensures ok == Coins.AddCoin(env, old(Abs()), o, coin, possibleOverwrite).Added?
      ensures ok ==> Abs() == Coins.AddCoin(env, old(Abs()), o, coin, possibleOverwrite).view
      ensures !ok ==>
        && o in old(cacheCoins)
        && Abs() == old(Abs()).(usage := old(cachedCoinsUsage) - env.memory(old(cacheCoins)[o].coin))
    {
      if env.unspendable(coin.out.script) {
        return true;
      }
      var inserted := o !in cacheCoins;
      var entry := if inserted then Entry(SPENT, false, false) else cacheCoins[o];
      var isFresh := false;
      if !inserted {
        cachedCoinsUsage := cachedCoinsUsage - env.memory(entry.coin);
      }
      if !possibleOverwrite {
        if !entry.coin.IsSpent() {
          return false;
        }
        isFresh := !entry.isDirty;
      }
      entry := entry.(coin := coin, isDirty := true, isFresh := entry.isFresh || isFresh);
      cacheCoins := cacheCoins[o := entry];
      cachedCoinsUsage := cachedCoinsUsage + env.memory(entry.coin);
      return true;
    }

    method SpendCoin(o: OutPoint) returns (ok: bool, moveout: Coin)
      requires Linked() && base != null
      modifies Repr
      ensures (Abs(), ok) == Coins.SpendCoin(env, old(Abs()), o)
      ensures ok ==> o in Fetch(env, old(Abs()), o).entries && moveout == Fetch(env, old(Abs()), o).entries[o].coin
    {
      ok := FetchCoin(o);
      if !ok {
        return false, SPENT;
      }
      moveout := cacheCoins[o].coin;
      cachedCoinsUsage := cachedCoinsUsage - env.memory(cacheCoins[o].coin);
      if cacheCoins[o].isFresh {
        cacheCoins := cacheCoins - {o};
      } else {
        cacheCoins := cacheCoins[o := cacheCoins[o].(isDirty := true, coin := SPENT)];
      }
    }

    method Uncache(o: OutPoint)
      requires Linked() && base != null
      modifies this
      ensures Abs() == Coins.Uncache(env, old(Abs()), o)
    {
      if o in cacheCoins && !cacheCoins[o].isDirty && !cacheCoins[o].isFresh {
        cachedCoinsUsage := cachedCoinsUsage - env.memory(cacheCoins[o].coin);
        cacheCoins := cacheCoins - {o};
      }
    }

    method GetBestBlock() returns (best: nat)
      requires Linked()
      modifies Repr
      ensures (Abs(), best) == GetBest(old(Abs()))
      decreases Repr
    {
      if base != null && hashBlock == 0 {
        hashBlock := base.GetBestBlock();
      }
      return hashBlock;
    }

    method SetBestBlock(hashBlockIn: nat)
      requires Linked() && base != null
      modifies this
      ensures Abs() == Cache(old(cacheCoins), old(cachedCoinsUsage), hashBlockIn, old(base.Abs()))
    {
      hashBlock := hashBlockIn;
    }

    // Not ok is the "FRESH flag misapplied" exception.
    method BatchWrite(mapCoins: Entries, hashBlockIn: nat) returns (ok: bool)
      requires Linked() && (base != null ==> cachedCoinsUsage == Memory(env, cacheCoins))
      requires base == null ==> hashBlockIn != 0
      modifies this
      ensures ok == Coins.BatchWrite(env, old(Abs()), mapCoins, hashBlockIn).Some?
      ensures ok ==> Abs() == Coins.BatchWrite(env, old(Abs()), mapCoins, hashBlockIn).value
    {
      if base == null {
        WriteToDatabase(mapCoins);
        ok := true;
      } else {
        ok := WriteToCache(mapCoins);
      }
      if ok {
        hashBlock := hashBlockIn;
      }
    }

    method WriteToCache(mapCoins: Entries) returns (ok: bool)
      requires cachedCoinsUsage == Memory(env, cacheCoins)
      modifies this`cacheCoins, this`cachedCoinsUsage
      ensures ok == Mergeable(old(cacheCoins), mapCoins)
      ensures ok ==> cacheCoins == Merged(old(cacheCoins), mapCoins) && cachedCoinsUsage == Memory(env, cacheCoins)
    {
      ghost var us := cacheCoins;
      var rest := mapCoins;
      ghost var done: Entries := map[];
      MergedNothing(us);
      while rest != map[]
        invariant MergedSoFar(us, mapCoins, rest, done)
        invariant cacheCoins == Merged(us, done) && cachedCoinsUsage == Memory(env, cacheCoins)
        decreases |rest|
      {
        var o :| o in rest;
        MergeStep(us, done, o, rest[o]);
        RestStep(us, mapCoins, rest, done, o);
        ok := WriteBack(o, rest[o]);
        if !ok {
          assert o in mapCoins;
          return;
        }
        done := done[o := rest[o]];
        rest := rest - {o};
      }
      assert done == mapCoins;
      return true;
    }

    // One dirty entry of the child meets this cache.
    method WriteBack(o: OutPoint, child: Entry) returns (ok: bool)
      requires cachedCoinsUsage == Memory(env, cacheCoins)
      modifies this`cacheCoins, this`cachedCoinsUsage
      ensures var m := MergeEntry(At(old(cacheCoins), o), Some(child));
        && ok == !m.Misapplied?
        && (ok ==> cacheCoins == if m.Keep? then old(cacheCoins)[o := m.entry] else old(cacheCoins) - {o})
        && (ok ==> cachedCoinsUsage == Memory(env, cacheCoins))
    {
      ok := true;
      if child.isDirty {
        if o !in cacheCoins {
          if !(child.isFresh && child.coin.IsSpent()) {
            MemoryWith(env, cacheCoins, o, Entry(child.coin, true, child.isFresh));
            var entry := Entry(child.coin, true, false);
            cachedCoinsUsage := cachedCoinsUsage + env.memory(entry.coin);
            if child.isFresh {
              entry := entry.(isFresh := true);
            }
            cacheCoins := cacheCoins[o := entry];
          } else {
            assert cacheCoins - {o} == cacheCoins;
          }
        } else {
          var itUs := cacheCoins[o];
          if child.isFresh && !itUs.coin.IsSpent() {
            return false;
          }
          if itUs.isFresh && child.coin.IsSpent() {
            MemoryWithout(env, cacheCoins, o);
            cachedCoinsUsage := cachedCoinsUsage - env.memory(itUs.coin);
            cacheCoins := cacheCoins - {o};
          } else {
            MemoryWith(env, cacheCoins, o, itUs.(coin := child.coin, isDirty := true));
            cachedCoinsUsage := cachedCoinsUsage - env.memory(itUs.coin);
            itUs := itUs.(coin := child.coin);
            cachedCoinsUsage := cachedCoinsUsage + env.memory(itUs.coin);
            itUs := itUs.(isDirty := true);
            cacheCoins := cacheCoins[o := itUs];
          }
        }
      } else if o in cacheCoins {
        assert cacheCoins[o := cacheCoins[o]] == cacheCoins;
      } else {
        assert cacheCoins - {o} == cacheCoins;
      }
    }

    method WriteToDatabase(mapCoins: Entries)
      modifies this`coins
      ensures coins == Written(old(coins), mapCoins)
    {
      hide Written, SplitInto;
      ghost var was := coins;
      var rest := mapCoins;
      ghost var done: Entries := map[];
      WrittenNothing(was, mapCoins);
      while rest != map[]
        invariant SplitInto(mapCoins, rest, done)
        invariant coins == Written(was, done)
        decreases |rest|
      {
        var o :| o in rest;
        SplitStep(mapCoins, rest, done, o);
        WrittenStep(was, done, o, rest[o]);
        if rest[o].isDirty {
          if rest[o].coin.IsSpent() {
            coins := coins - {o};
          } else {
            coins := coins[o := rest[o].coin];
          }
        }
        done := done[o := rest[o]];
        rest := rest - {o};
      }
      SplitAll(mapCoins, done);
    }

    method Flush() returns (ok: bool)
      requires Linked() && base != null && (base.base != null ==> base.cachedCoinsUsage == Memory(env, base.cacheCoins))
      requires base.base == null ==> hashBlock != 0
      modifies Repr
      ensures ok == Coins.Flush(env, old(Abs())).Some?
      ensures ok ==> Abs() == Coins.Flush(env, old(Abs())).value
    {
      ok := base.BatchWrite(cacheCoins, hashBlock);
      if !ok {
        return;
      }
      cacheCoins := map[];
      cachedCoinsUsage := 0;
    }
  }

  // done and rest split the child's entries.
  ghost predicate SplitInto(child: Entries, rest: Entries, done: Entries) {
    && (forall o :: o in child <==> o in rest || o in done)
    && (forall o :: o in rest ==> o !in done && rest[o] == child[o])
    && (forall o :: o in done ==> done[o] == child[o])
  }

  lemma {:induction false} SplitStep(child: Entries, rest: Entries, done: Entries, o: OutPoint)
    requires SplitInto(child, rest, done) && o in rest
    ensures |rest - {o}| < |rest| && o !in done
    ensures SplitInto(child, rest - {o}, done[o := rest[o]])
  {
    assert (rest - {o}).Keys == rest.Keys - {o};
    assert |(rest - {o}).Keys| == |rest - {o}| && |rest.Keys| == |rest|;
  }

  // Writes of different keys do not interfere.
  lemma {:induction false} WrittenNothing(coins: map<OutPoint, Coin>, child: Entries)
    ensures Written(coins, map[]) == coins && SplitInto(child, child, map[])
  {
  }

  lemma {:induction false} SplitAll(child: Entries, done: Entries)
    requires SplitInto(child, map[], done)
    ensures done == child
  {
  }

  lemma {:induction false} WrittenStep(coins: map<OutPoint, Coin>, done: Entries, o: OutPoint, c: Entry)
    requires o !in done
    ensures var w, r := Written(coins, done), Written(coins, done[o := c]);
      r == if !c.isDirty then w else if c.coin.IsSpent() then w - {o} else w[o := c.coin]
  {
    var w, r := Written(coins, done), Written(coins, done[o := c]);
    var t := if !c.isDirty then w else if c.coin.IsSpent() then w - {o} else w[o := c.coin];
    forall k ensures CoinAt(r, k) == CoinAt(t, k) { }
    SameCoins(r, t);
  }

  ghost predicate MergedSoFar(us: Entries, child: Entries, rest: Entries, done: Entries) {
    SplitInto(child, rest, done) && Mergeable(us, done)
  }

  function Kept(m: Merge): Option<Entry> { if m.Keep? then Some(m.entry) else None }

  lemma {:induction false} MergedAt(us: Entries, child: Entries, o: OutPoint)
    ensures At(Merged(us, child), o) == Kept(MergeEntry(At(us, o), At(child, o)))
  {
  }

  lemma {:induction false} SameEntries(a: Entries, b: Entries)
    requires forall o :: At(a, o) == At(b, o)
    ensures a == b
  {
    forall o ensures (o in a <==> o in b) && (o in a ==> a[o] == b[o]) { assert At(a, o) == At(b, o); }
  }

  lemma {:induction false} MergedNothing(us: Entries)
    ensures Merged(us, map[]) == us && Mergeable(us, map[])
  {
    forall o ensures At(Merged(us, map[]), o) == At(us, o) { MergedAt(us, map[], o); }
    SameEntries(Merged(us, map[]), us);
  }

  // Keys are merged independently of each other.
  lemma {:induction false} MergeStep(us: Entries, done: Entries, o: OutPoint, c: Entry)
    requires o !in done
    ensures At(Merged(us, done), o) == At(us, o)
    ensures var m := MergeEntry(At(us, o), Some(c));
      Merged(us, done[o := c]) == if m.Keep? then Merged(us, done)[o := m.entry] else Merged(us, done) - {o}
  {
    MergedAt(us, done, o);
    var m, r := MergeEntry(At(us, o), Some(c)), Merged(us, done[o := c]);
    var t := if m.Keep? then Merged(us, done)[o := m.entry] else Merged(us, done) - {o};
    forall k ensures At(r, k) == At(t, k) {
      MergedAt(us, done[o := c], k);
      MergedAt(us, done, k);
    }
    SameEntries(r, t);
  }

  lemma {:induction false} RestStep(us: Entries, child: Entries, rest: Entries, done: Entries, o: OutPoint)
    requires MergedSoFar(us, child, rest, done) && o in rest
    ensures |rest - {o}| < |rest|
    ensures At(child, o) == Some(rest[o])
    ensures !MergeEntry(At(us, o), At(child, o)).Misapplied? ==> MergedSoFar(us, child, rest - {o}, done[o := rest[o]])
  {
    SplitStep(child, rest, done, o);
    forall k | k in done[o := rest[o]] && !MergeEntry(At(us, o), At(child, o)).Misapplied?
      ensures !MergeEntry(At(us, k), At(done[o := rest[o]], k)).Misapplied?
    {
      assert k != o ==> At(done[o := rest[o]], k) == At(done, k);
    }
  }
}
