/** The unspent-output cache stack on values: a tower of write-back caches over a
    database, the plain map that the tower shows, and the proofs that every
    operation acts on that map as its documentation says. */
module Coins {
  import opened Options

  datatype OutPoint = OutPoint(hash: nat, n: nat)

  // A transaction output; value -1 marks the null one.
  datatype TxOut = TxOut(nValue: int, script: seq<nat>)

  datatype Coin = Coin(out: TxOut, fCoinBase: bool, nHeight: nat)
  {
    predicate IsSpent() { out.nValue == -1 }
  }

  const SPENT := Coin(TxOut(-1, []), false, 0)

  // A cached coin. Not dirty: the parent view shows the same. Fresh: the parent
  // view shows no unspent coin.
  datatype Entry = Entry(coin: Coin, isDirty: bool, isFresh: bool)

  type Entries = map<OutPoint, Entry>

  // What the views do not compute themselves: the memory of a coin, which a
  // cleared coin has none of, and which scripts can never be spent.
  datatype Env = Env(memory: Coin -> nat, unspendable: seq<nat> -> bool)
  {
    ghost predicate Valid() { memory(SPENT) == 0 }
  }

  datatype View =
    | Db(coins: map<OutPoint, Coin>, best: nat)
    | Cache(entries: Entries, usage: int, hashBlock: nat, base: View)

  /* ---- the map that a view shows ---- */

  predicate Unspent(entries: Entries, o: OutPoint) { o in entries && !entries[o].coin.IsSpent() }

  // Entries seen through onto a map below.
  function Over(entries: Entries, below: map<OutPoint, Coin>): (r: map<OutPoint, Coin>)
    ensures forall o :: o in r <==> if o in entries then !entries[o].coin.IsSpent() else o in below
    ensures forall o :: o in r ==> r[o] == if o in entries then entries[o].coin else below[o]
  {
    map o | o in entries.Keys + below.Keys && (if o in entries then !entries[o].coin.IsSpent() else o in below)
      :: if o in entries then entries[o].coin else below[o]
  }

  function Shown(v: View): map<OutPoint, Coin> {
    match v
    case Db(coins, _) => coins
    case Cache(entries, _, _, base) => Over(entries, Shown(base))
  }

  // The best block a view holds itself; zero is the null hash.
  function Held(v: View): nat {
    match v
    case Db(_, best) => best
    case Cache(_, _, hashBlock, _) => hashBlock
  }

  datatype Level = Level(coins: map<OutPoint, Coin>, best: nat)

  // What every level shows and holds, from the top down.
  function Levels(v: View): (r: seq<Level>)
    ensures |r| > 0 && r[0] == Level(Shown(v), Held(v))
    ensures v.Cache? ==> |r| > 1 && r[1] == Level(Shown(v.base), Held(v.base))
  {
    match v
    case Db(coins, best) => [Level(coins, best)]
    case Cache(_, _, _, base) => [Level(Shown(v), Held(v))] + Levels(base)
  }

  /* ---- the invariant ---- */

  ghost predicate FlagsOk(entries: Entries, below: map<OutPoint, Coin>) {
    forall o :: o in entries ==>
      && (!entries[o].isDirty ==>
            if entries[o].coin.IsSpent() then o !in below else o in below && below[o] == entries[o].coin)
      && (entries[o].isFresh ==> o !in below)
  }

  ghost function Memory(env: Env, entries: Entries): int
    decreases |entries|
  {
    if entries == map[] then 0
    else
      var o :| o in entries;
      env.memory(entries[o].coin) + Memory(env, entries - {o})
  }

  ghost predicate Sound(env: Env, v: View) {
    match v
    case Db(coins, _) => forall o :: o in coins ==> !coins[o].IsSpent()
    case Cache(entries, usage, _, base) =>
      Sound(env, base) && FlagsOk(entries, Shown(base)) && usage == Memory(env, entries)
  }

  /* ---- counting memory ---- */

  lemma {:induction false} MemoryWithout(env: Env, entries: Entries, o: OutPoint)
    requires o in entries
    ensures Memory(env, entries) == env.memory(entries[o].coin) + Memory(env, entries - {o})
    decreases |entries|
  {
    var x :| x in entries && Memory(env, entries) == env.memory(entries[x].coin) + Memory(env, entries - {x});
    if x != o {
      var less := entries - {x};
      assert less.Keys == entries.Keys - {x};
      assert |less.Keys| == |less| && |entries.Keys| == |entries|;
      MemoryWithout(env, less, o);
      var rest := entries - {o};
      assert rest.Keys == entries.Keys - {o};
      assert |rest.Keys| == |rest|;
      MemoryWithout(env, rest, x);
      assert less - {o} == rest - {x};
    }
  }

  lemma {:induction false} MemoryWith(env: Env, entries: Entries, o: OutPoint, e: Entry)
    ensures Memory(env, entries[o := e]) ==
      Memory(env, entries) + env.memory(e.coin) - (if o in entries then env.memory(entries[o].coin) else 0)
  {
    MemoryWithout(env, entries[o := e], o);
    if o in entries {
      MemoryWithout(env, entries, o);
      assert entries[o := e] - {o} == entries - {o};
    } else {
      assert entries[o := e] - {o} == entries;
    }
  }

  /* ---- reading ---- */

  // Fill the cache from the base if need be.
  function Fetch(env: Env, v: View, o: OutPoint): (r: View)
    requires v.Cache?
    ensures r.Cache?
    decreases v, 0
  {
    if o in v.entries then v
    else
      var (base, coin) := Get(env, v.base, o);
      match coin
      case None => v.(base := base)
      case Some(c) =>
        v.(base := base, entries := v.entries[o := Entry(c, false, c.IsSpent())], usage := v.usage + env.memory(c))
  }

  function Get(env: Env, v: View, o: OutPoint): (View, Option<Coin>)
    decreases v, 1
  {
    match v
    case Db(coins, _) => (v, if o in coins then Some(coins[o]) else None)
    case Cache(_, _, _, _) =>
      var f := Fetch(env, v, o);
      (f, if Unspent(f.entries, o) then Some(f.entries[o].coin) else None)
  }

  // Reading changes what is cached, never what is shown.
  lemma {:induction false} GetReads(env: Env, v: View, o: OutPoint)
    requires Sound(env, v)
    ensures var (r, coin) := Get(env, v, o);
      && Sound(env, r) && Levels(r) == Levels(v) && r.Cache? == v.Cache?
      && coin == if o in Shown(v) then Some(Shown(v)[o]) else None
    decreases v, 1
  {
    if v.Cache? { FetchReads(env, v, o); }
  }

  // Copying a shown coin up is invisible.
  lemma {:induction false} FillKeeps(entries: Entries, below: map<OutPoint, Coin>, o: OutPoint)
    requires FlagsOk(entries, below) && o !in entries && o in below && !below[o].IsSpent()
    ensures FlagsOk(entries[o := Entry(below[o], false, false)], below)
    ensures Over(entries[o := Entry(below[o], false, false)], below) == Over(entries, below)
  {
  }

  // What fetching does to the cache itself.
  ghost predicate Filled(v: View, r: View, o: OutPoint)
    requires v.Cache? && r.Cache?
  {
    && Levels(r.base) == Levels(v.base) && r.hashBlock == v.hashBlock
    && r.entries == if o !in v.entries && o in Shown(v.base)
                    then v.entries[o := Entry(Shown(v.base)[o], false, false)] else v.entries
  }

  lemma {:induction false} FetchReads(env: Env, v: View, o: OutPoint)
    requires v.Cache? && Sound(env, v)
    ensures var r := Fetch(env, v, o);
      && Sound(env, r) && Levels(r) == Levels(v) && Filled(v, r, o)
      && (o in r.entries <==> o in v.entries || o in Shown(v.base))
      && (Unspent(r.entries, o) <==> o in Shown(v))
    decreases v, 0
  {
    if o !in v.entries {
      GetReads(env, v.base, o);
      if o in Shown(v.base) {
        ShownUnspent(env, v.base);
        FillKeeps(v.entries, Shown(v.base), o);
        MemoryWith(env, v.entries, o, Entry(Shown(v.base)[o], false, false));
      }
    }
  }

  // Only unspent coins are shown.
  lemma {:induction false} ShownUnspent(env: Env, v: View)
    requires Sound(env, v)
    ensures forall o :: o in Shown(v) ==> !Shown(v)[o].IsSpent()
  {
    if v.Cache? { ShownUnspent(env, v.base); }
  }

  function Have(env: Env, v: View, o: OutPoint): (View, bool)
    requires v.Cache?
  {
    var f := Fetch(env, v, o);
    (f, Unspent(f.entries, o))
  }

  /* ---- adding and spending a coin ---- */

  datatype Added = Threw | Added(view: View)

  function AddCoin(env: Env, v: View, o: OutPoint, coin: Coin, possibleOverwrite: bool): Added
    requires v.Cache? && !coin.IsSpent()
  {
    if env.unspendable(coin.out.script) then Added(v)
    else
      var was := if o in v.entries then v.entries[o] else Entry(SPENT, false, false);
      var usage := if o in v.entries then v.usage - env.memory(was.coin) else v.usage;
      if !possibleOverwrite && !was.coin.IsSpent() then Threw
      else
        var fresh' := !possibleOverwrite && !was.isDirty;
        Added(v.(entries := v.entries[o := Entry(coin, true, was.isFresh || fresh')],
                 usage := usage + env.memory(coin)))
  }

  lemma {:induction false} AddKeepsFlags(entries: Entries, below: map<OutPoint, Coin>, o: OutPoint, coin: Coin,
                                         isFresh: bool)
    requires FlagsOk(entries, below) && !coin.IsSpent() && (isFresh ==> o !in below)
    ensures FlagsOk(entries[o := Entry(coin, true, isFresh)], below)
    ensures Over(entries[o := Entry(coin, true, isFresh)], below) == Over(entries, below)[o := coin]
  {
  }

  // Under its documented precondition AddCoin sets exactly one key.
  lemma {:induction false} AddCoinAdds(env: Env, v: View, o: OutPoint, coin: Coin, possibleOverwrite: bool)
    requires v.Cache? && Sound(env, v) && !coin.IsSpent() && (possibleOverwrite || o !in Shown(v))
    ensures var r := AddCoin(env, v, o, coin, possibleOverwrite);
      && r.Added? && Sound(env, r.view) && r.view.Cache?
      && r.view.base == v.base && r.view.hashBlock == v.hashBlock
      && Shown(r.view) == if env.unspendable(coin.out.script) then Shown(v) else Shown(v)[o := coin]
  {
    if !env.unspendable(coin.out.script) {
      var e := AddCoin(env, v, o, coin, possibleOverwrite).view.entries[o];
      AddKeepsFlags(v.entries, Shown(v.base), o, coin, e.isFresh);
      MemoryWith(env, v.entries, o, e);
    }
  }

  // And the precondition is exactly what is needed: without it, either the call
  // throws or it marks as fresh a coin that the parent still shows.
  lemma {:induction false} AddCoinPrecondition(env: Env, v: View, o: OutPoint, coin: Coin)
    requires v.Cache? && Sound(env, v) && !coin.IsSpent() && !env.unspendable(coin.out.script)
    ensures var r := AddCoin(env, v, o, coin, false);
      (r.Added? && Sound(env, r.view)) <==> o !in Shown(v)
  {
    if o !in Shown(v) {
      AddCoinAdds(env, v, o, coin, false);
    } else if o !in v.entries {
      var r := AddCoin(env, v, o, coin, false).view;
      assert r.entries[o].isFresh && o in Shown(r.base);
    }
  }

  function SpendCoin(env: Env, v: View, o: OutPoint): (View, bool)
    requires v.Cache?
  {
    var f := Fetch(env, v, o);
    if o !in f.entries then (f, false)
    else
      var e := f.entries[o];
      var usage := f.usage - env.memory(e.coin);
      if e.isFresh then (f.(entries := f.entries - {o}, usage := usage), true)
      else (f.(entries := f.entries[o := Entry(SPENT, true, false)], usage := usage), true)
  }

  // An entry that is fresh, or spends nothing the parent shows, can be dropped.
  lemma {:induction false} DropKeepsFlags(entries: Entries, below: map<OutPoint, Coin>, o: OutPoint)
    requires FlagsOk(entries, below) && o in entries
    ensures FlagsOk(entries - {o}, below)
    ensures entries[o].isFresh ==> Over(entries - {o}, below) == Over(entries, below) - {o}
    ensures !entries[o].isDirty ==> Over(entries - {o}, below) == Over(entries, below)
  {
  }

  lemma {:induction false} SpendKeepsFlags(entries: Entries, below: map<OutPoint, Coin>, o: OutPoint)
    requires FlagsOk(entries, below) && o in entries
    ensures FlagsOk(entries[o := Entry(SPENT, true, false)], below)
    ensures Over(entries[o := Entry(SPENT, true, false)], below) == Over(entries, below) - {o}
  {
  }

  // SpendCoin removes exactly one key. It also answers true for a coin that is
  // already spent, as long as the cache still remembers it.
  lemma {:induction false} SpendCoinSpends(env: Env, v: View, o: OutPoint)
    requires env.Valid() && v.Cache? && Sound(env, v)
    ensures var (r, ok) := SpendCoin(env, v, o);
      && r.Cache? && Sound(env, r) && Shown(r) == Shown(v) - {o} && Levels(r.base) == Levels(v.base)
      && r.hashBlock == v.hashBlock
      && (ok <==> o in v.entries || o in Shown(v))
  {
    var f := Fetch(env, v, o);
    FetchReads(env, v, o);
    if o in f.entries {
      DropKeepsFlags(f.entries, Shown(f.base), o);
      SpendKeepsFlags(f.entries, Shown(f.base), o);
      MemoryWithout(env, f.entries, o);
      MemoryWith(env, f.entries, o, Entry(SPENT, true, false));
    }
  }

  // Drop an unmodified entry.
  function Uncache(env: Env, v: View, o: OutPoint): View
    requires v.Cache?
  {
    if o in v.entries && !v.entries[o].isDirty && !v.entries[o].isFresh
    then v.(entries := v.entries - {o}, usage := v.usage - env.memory(v.entries[o].coin)) else v
  }

  lemma {:induction false} UncacheKeeps(env: Env, v: View, o: OutPoint)
    requires v.Cache? && Sound(env, v)
    ensures Sound(env, Uncache(env, v, o)) && Levels(Uncache(env, v, o)) == Levels(v)
    ensures var modified := o in v.entries && (v.entries[o].isDirty || v.entries[o].isFresh);
      Uncache(env, v, o).entries == if modified then v.entries else v.entries - {o}
  {
    if o in v.entries {
      MemoryWithout(env, v.entries, o);
      DropKeepsFlags(v.entries, Shown(v.base), o);
    }
  }

  /* ---- writing a cache back to its base ---- */

  datatype Merge = Misapplied | Absent | Keep(entry: Entry)

  // What becomes of one key of the parent cache.
  function MergeEntry(us: Option<Entry>, child: Option<Entry>): Merge {
    match (us, child)
    case (None, None) => Absent
    case (Some(e), None) => Keep(e)
    case (None, Some(c)) =>
      if !c.isDirty then Absent
      else if c.isFresh && c.coin.IsSpent() then Absent
      else Keep(Entry(c.coin, true, c.isFresh))
    case (Some(e), Some(c)) =>
      if !c.isDirty then Keep(e)
      else if c.isFresh && !e.coin.IsSpent() then Misapplied
      else if e.isFresh && c.coin.IsSpent() then Absent
      else Keep(Entry(c.coin, true, e.isFresh))
  }

  function At(entries: Entries, o: OutPoint): Option<Entry> { if o in entries then Some(entries[o]) else None }

  predicate Mergeable(us: Entries, child: Entries) {
    forall o :: o in child ==> !MergeEntry(At(us, o), At(child, o)).Misapplied?
  }

  function Merged(us: Entries, child: Entries): (r: Entries)
    ensures forall o :: o in r <==> MergeEntry(At(us, o), At(child, o)).Keep?
    ensures forall o :: o in r ==> r[o] == MergeEntry(At(us, o), At(child, o)).entry
  {
    map o | o in us.Keys + child.Keys && MergeEntry(At(us, o), At(child, o)).Keep?
        :: MergeEntry(At(us, o), At(child, o)).entry
  }

  // The database takes the dirty entries: spent ones are erased, others written.
  function Written(coins: map<OutPoint, Coin>, child: Entries): (r: map<OutPoint, Coin>)
    ensures forall o :: o in r <==> if o in child && child[o].isDirty then !child[o].coin.IsSpent() else o in coins
    ensures forall o :: o in r ==> r[o] == if o in child && child[o].isDirty then child[o].coin else coins[o]
  {
    map o |
      && o in coins.Keys + child.Keys
      && (if o in child && child[o].isDirty then !child[o].coin.IsSpent() else o in coins)
      :: if o in child && child[o].isDirty then child[o].coin else coins[o]
  }

  // The memory the loop leaves recorded is stated by its exact total.
  ghost function BatchWrite(env: Env, v: View, child: Entries, hashBlock: nat): Option<View> {
    match v
    case Db(coins, _) => Some(Db(Written(coins, child), hashBlock))
    case Cache(entries, _, _, base) =>
      if !Mergeable(entries, child) then None
      else Some(Cache(Merged(entries, child), Memory(env, Merged(entries, child)), hashBlock, base))
  }

  // One key at a time: what a cache shows there, and when its flags are right.
  function OverAt(e: Option<Entry>, below: Option<Coin>): Option<Coin> {
    match e
    case None => below
    case Some(x) => if x.coin.IsSpent() then None else Some(x.coin)
  }

  predicate FlagOk(e: Option<Entry>, below: Option<Coin>) {
    e.Some? ==>
      && (!e.value.isDirty ==> below == OverAt(e, below))
      && (e.value.isFresh ==> below.None?)
  }

  function CoinAt(m: map<OutPoint, Coin>, o: OutPoint): Option<Coin> { if o in m then Some(m[o]) else None }

  // The flags of the child make the merge safe, and it shows what the child showed.
  lemma {:induction false} MergeOne(us: Option<Entry>, below: Option<Coin>, child: Option<Entry>)
    requires FlagOk(us, below) && FlagOk(child, OverAt(us, below))
    ensures var m := MergeEntry(us, child);
      && !m.Misapplied?
      && var e := if m.Keep? then Some(m.entry) else None;
      && FlagOk(e, below) && OverAt(e, below) == OverAt(child, OverAt(us, below))
  {
  }

  lemma {:induction false} FlagsAt(entries: Entries, below: map<OutPoint, Coin>, o: OutPoint)
    ensures CoinAt(Over(entries, below), o) == OverAt(At(entries, o), CoinAt(below, o))
    ensures FlagsOk(entries, below) ==> FlagOk(At(entries, o), CoinAt(below, o))
  {
  }

  lemma {:induction false} FlagsEverywhere(entries: Entries, below: map<OutPoint, Coin>)
    requires forall o :: FlagOk(At(entries, o), CoinAt(below, o))
    ensures FlagsOk(entries, below)
  {
    forall o | o in entries
      ensures !entries[o].isDirty ==>
        if entries[o].coin.IsSpent() then o !in below else o in below && below[o] == entries[o].coin
      ensures entries[o].isFresh ==> o !in below
    {
      assert FlagOk(At(entries, o), CoinAt(below, o));
    }
  }

  lemma {:induction false} SameCoins(a: map<OutPoint, Coin>, b: map<OutPoint, Coin>)
    requires forall o :: CoinAt(a, o) == CoinAt(b, o)
    ensures a == b
  {
    forall o ensures (o in a <==> o in b) && (o in a ==> a[o] == b[o]) { assert CoinAt(a, o) == CoinAt(b, o); }
  }

  lemma {:induction false} MergeShows(us: Entries, below: map<OutPoint, Coin>, child: Entries)
    requires FlagsOk(us, below) && FlagsOk(child, Over(us, below))
    ensures Mergeable(us, child)
    ensures FlagsOk(Merged(us, child), below)
    ensures Over(Merged(us, child), below) == Over(child, Over(us, below))
  {
    var m := Merged(us, child);
    forall o
      ensures !MergeEntry(At(us, o), At(child, o)).Misapplied?
      ensures FlagOk(At(m, o), CoinAt(below, o))
      ensures CoinAt(Over(m, below), o) == CoinAt(Over(child, Over(us, below)), o)
    {
      FlagsAt(us, below, o);
      FlagsAt(child, Over(us, below), o);
      FlagsAt(m, below, o);
      MergeOne(At(us, o), CoinAt(below, o), At(child, o));
    }
    FlagsEverywhere(m, below);
    SameCoins(Over(m, below), Over(child, Over(us, below)));
  }

  // Writing a sound child back never hits the misapplied-flag error, and the
  // parent then shows what the child showed.
  lemma {:induction false} BatchWriteShows(env: Env, v: View, child: Entries, hashBlock: nat)
    requires Sound(env, v) && FlagsOk(child, Shown(v))
    ensures var r := BatchWrite(env, v, child, hashBlock);
      && r.Some? && Sound(env, r.value) && Shown(r.value) == Over(child, Shown(v)) && r.value.Cache? == v.Cache?
      && Held(r.value) == hashBlock
      && (v.Cache? ==> r.value.base == v.base)
  {
    match v
    case Db(coins, _) =>
      assert Written(coins, child) == Over(child, coins);
    case Cache(entries, _, _, base) => MergeShows(entries, Shown(base), child);
  }

  ghost function Flush(env: Env, v: View): Option<View>
    requires v.Cache?
  {
    match BatchWrite(env, v.base, v.entries, v.hashBlock)
    case None => None
    case Some(base) => Some(Cache(map[], 0, v.hashBlock, base))
  }

  // Flushing is invisible at the top, and the base shows the same and holds the same best block
  // afterwards.
  lemma {:induction false} FlushShows(env: Env, v: View)
    requires v.Cache? && Sound(env, v)
    ensures var r := Flush(env, v);
      && r.Some? && r.value.Cache? && Sound(env, r.value) && r.value.entries == map[]
      && Levels(r.value) == [Levels(v)[0], Levels(v)[0]] + Levels(v)[2..]
  {
    hide BatchWrite, Shown, Sound, Levels, Held;
    SoundParts(env, v);
    BatchWriteShows(env, v.base, v.entries, v.hashBlock);
    var base := BatchWrite(env, v.base, v.entries, v.hashBlock).value;
    EmptyCache(env, base, v.hashBlock);
    LevelsBelow(v, base);
  }

  lemma {:induction false} SoundParts(env: Env, v: View)
    requires v.Cache? && Sound(env, v)
    ensures Sound(env, v.base) && FlagsOk(v.entries, Shown(v.base)) && Shown(v) == Over(v.entries, Shown(v.base))
  {
  }

  // A cache that holds nothing shows what its base shows.
  lemma {:induction false} EmptyCache(env: Env, base: View, hashBlock: nat)
    requires Sound(env, base)
    ensures Sound(env, Cache(map[], 0, hashBlock, base)) && Shown(Cache(map[], 0, hashBlock, base)) == Shown(base)
  {
    assert Over(map[], Shown(base)) == Shown(base);
  }

  lemma {:induction false} LevelsBelow(v: View, base: View)
    requires v.Cache? && base.Cache? == v.base.Cache? && (base.Cache? ==> base.base == v.base.base)
    requires Shown(Cache(map[], 0, v.hashBlock, base)) == Shown(base) && Held(base) == v.hashBlock
    ensures var l := Level(Shown(base), v.hashBlock);
      Levels(Cache(map[], 0, v.hashBlock, base)) == [l, l] + Levels(v)[2..]
    ensures Levels(v)[0] == Level(Shown(v), v.hashBlock)
  {
    hide Shown;
  }

  /* ---- the best block ---- */

  // A cache that holds none takes that of its base and keeps it.
  function GetBest(v: View): (View, nat) {
    match v
    case Db(_, best) => (v, best)
    case Cache(_, _, hashBlock, base) =>
      if hashBlock != 0 then (v, hashBlock)
      else var (b, h) := GetBest(base); (v.(base := b, hashBlock := h), h)
  }

  // The first level that holds a best block, or else the lowest.
  function Holder(levels: seq<Level>): (k: nat)
    requires levels != []
    ensures k < |levels| && (levels[k].best != 0 || k == |levels| - 1)
    ensures forall i :: 0 <= i < k ==> levels[i].best == 0
  {
    if levels[0].best != 0 || |levels| == 1 then 0 else 1 + Holder(levels[1..])
  }

  // All levels above it learn it.
  function Informed(levels: seq<Level>): seq<Level>
    requires levels != []
  {
    seq(|levels|, i requires 0 <= i < |levels| =>
      if i < Holder(levels) then levels[i].(best := levels[Holder(levels)].best) else levels[i])
  }

  lemma {:induction false} InformedStep(ls: seq<Level>)
    requires ls != []
    ensures ls[0].best != 0 || |ls| == 1 ==> Informed(ls) == ls && Holder(ls) == 0
    ensures ls[0].best == 0 && |ls| > 1 ==>
      var up, k := ls[1..], Holder(ls[1..]);
      Holder(ls) == k + 1 && ls[k + 1] == up[k] && Informed(ls) == [ls[0].(best := up[k].best)] + Informed(up)
  {
  }

  lemma {:induction false} GetBestReads(env: Env, v: View)
    requires Sound(env, v)
    ensures var (r, h) := GetBest(v);
      && Sound(env, r) && r.Cache? == v.Cache? && Shown(r) == Shown(v)
      && h == Levels(v)[Holder(Levels(v))].best && Levels(r) == Informed(Levels(v))
  {
    hide Holder, Informed;
    InformedStep(Levels(v));
    if v.Cache? && v.hashBlock == 0 {
      assert Levels(v)[1..] == Levels(v.base);
      GetBestReads(env, v.base);
    }
  }

  /* ---- coins that come and go ---- */

  // A coin new to a cache and all below it leaves no trace when it is spent there.
  lemma {:induction false} AddThenSpend(env: Env, v: View, o: OutPoint, coin: Coin)
    requires v.Cache? && o !in v.entries && !coin.IsSpent() && !env.unspendable(coin.out.script)
    ensures var r := AddCoin(env, v, o, coin, false); r.Added? && SpendCoin(env, r.view, o) == (v, true)
  {
    var e := v.entries;
    assert e[o := Entry(coin, true, true)] - {o} == e;
  }

  // Nor does it when it has been flushed to the next cache before it is spent.
  lemma {:induction false} MergedThenSpent(us: Entries, o: OutPoint, coin: Coin)
    requires o !in us && !coin.IsSpent()
    ensures Merged(Merged(us, map[o := Entry(coin, true, true)]), map[o := Entry(SPENT, true, false)]) == us
  {
    var m := Merged(us, map[o := Entry(coin, true, true)]);
    assert m == us[o := Entry(coin, true, true)];
  }

  /* ---- every run of a stack of caches ---- */

  datatype Op =
    | OpGet(o: OutPoint)
    | OpHave(o: OutPoint)
    | OpAdd(o: OutPoint, coin: Coin, possibleOverwrite: bool)
    | OpSpend(o: OutPoint)
    | OpUncache(o: OutPoint)
    | OpBest
    | OpSetBest(hashBlock: nat)
    | OpFlush
    | OpPush
    | OpPop

  // What a caller sees: nothing, a coin, an answer, a best block, or the coin moved out by a
  // spending that succeeded. NoCoin is what the plain maps have to say where there is no coin to
  // spend.
  datatype Seen =
    | Nothing
    | SawCoin(coin: Option<Coin>)
    | SawBool(b: bool)
    | SawBest(best: nat)
    | SawSpent(moved: Option<Coin>)
    | NoCoin

  // Without a coin to spend the call fails, or succeeds and moves out a spent one that the cache
  // remembers. In all else caches and plain maps agree.
  predicate Agrees(seen: Seen, plain: Seen) {
    if plain.NoCoin? then seen.SawSpent? && (seen.moved.Some? ==> seen.moved.value.IsSpent()) else seen == plain
  }

  ghost predicate AllAgree(seen: seq<Seen>, plain: seq<Seen>) {
    |seen| == |plain| && forall i :: 0 <= i < |seen| ==> Agrees(seen[i], plain[i])
  }

  // The same operations on a stack of plain maps, each with the best block it holds.
  function PlainStep(env: Env, levels: seq<Level>, op: Op): (seq<Level>, Seen)
    requires |levels| > 1
  {
    var top := levels[0];
    match op
    case OpGet(o) => (levels, SawCoin(CoinAt(top.coins, o)))
    case OpHave(o) => (levels, SawBool(o in top.coins))
    case OpAdd(o, coin, _) =>
      (if env.unspendable(coin.out.script) then levels else [top.(coins := top.coins[o := coin])] + levels[1..],
       Nothing)
    case OpSpend(o) =>
      ([top.(coins := top.coins - {o})] + levels[1..], if o in top.coins then SawSpent(Some(top.coins[o])) else NoCoin)
    case OpUncache(_) => (levels, Nothing)
    case OpBest => (Informed(levels), SawBest(levels[Holder(levels)].best))
    case OpSetBest(h) => ([top.(best := h)] + levels[1..], Nothing)
    case OpFlush => ([top, top] + levels[2..], Nothing)
    case OpPush => ([Level(top.coins, 0)] + levels, Nothing)
    case OpPop => (levels[1..], Nothing)
  }

  // What callers owe: new coins are unspent, overwriting is announced, the database is given a
  // best block, and the last cache stays.
  predicate Allowed(levels: seq<Level>, op: Op)
    requires |levels| > 1
  {
    match op
    case OpAdd(o, coin, possibleOverwrite) => !coin.IsSpent() && (possibleOverwrite || o !in levels[0].coins)
    case OpFlush => |levels| == 2 ==> levels[0].best != 0
    case OpPop => |levels| > 2
    case _ => true
  }

  // A coin of the database, spent through a cache and spent once more: both calls succeed.
  lemma {:induction false} SpendTwice(env: Env, o: OutPoint, coin: Coin, best: nat)
    requires !coin.IsSpent()
    ensures var v := Cache(map[], 0, 0, Db(map[o := coin], best));
      var (w, first) := SpendCoin(env, v, o);
      first && o in Shown(v) && o !in Shown(w) && SpendCoin(env, w, o).1
  {
    var v := Cache(map[], 0, 0, Db(map[o := coin], best));
    assert Get(env, v.base, o) == (v.base, Some(coin));
    var f := Fetch(env, v, o);
    assert o in f.entries && f.entries[o].coin == coin && !f.entries[o].isFresh;
    var w := SpendCoin(env, v, o).0;
    assert o in w.entries && w.entries[o] == Entry(SPENT, true, false);
  }

  // The coin that SpendCoin moves out.
  function EntryAt(v: View, o: OutPoint): Option<Coin> {
    if v.Cache? && o in v.entries then Some(v.entries[o].coin) else None
  }

  lemma {:induction false} SpentSeen(env: Env, v: View, o: OutPoint)
    requires env.Valid() && v.Cache? && Sound(env, v)
    ensures Agrees(Step(env, v, OpSpend(o)).1, PlainStep(env, Levels(v), OpSpend(o)).1)
    ensures var seen := Step(env, v, OpSpend(o)).1; seen.moved.Some? <==> SpendCoin(env, v, o).1
  {
    hide Sound;
    SpendCoinSpends(env, v, o);
    FetchReads(env, v, o);
  }

  ghost function Step(env: Env, v: View, op: Op): (View, Seen)
    requires v.Cache? && Sound(env, v) && Allowed(Levels(v), op)
  {
    match op
    case OpGet(o) => var (r, c) := Get(env, v, o); (r, SawCoin(c))
    case OpHave(o) => var (r, b) := Have(env, v, o); (r, SawBool(b))
    case OpAdd(o, coin, possibleOverwrite) =>
      AddCoinAdds(env, v, o, coin, possibleOverwrite);
      (AddCoin(env, v, o, coin, possibleOverwrite).view, Nothing)
    case OpSpend(o) =>
      var (r, ok) := SpendCoin(env, v, o);
      (r, SawSpent(if ok then EntryAt(Fetch(env, v, o), o) else None))
    case OpUncache(o) => (Uncache(env, v, o), Nothing)
    case OpBest => var (r, h) := GetBest(v); (r, SawBest(h))
    case OpSetBest(h) => (v.(hashBlock := h), Nothing)
    case OpFlush => FlushShows(env, v); (Flush(env, v).value, Nothing)
    case OpPush => (Cache(map[], 0, 0, v), Nothing)
    case OpPop => (v.base, Nothing)
  }

  // One step of the caches is one step of the plain maps, at every level.
  lemma {:induction false} StepRefines(env: Env, v: View, op: Op)
    requires env.Valid() && v.Cache? && Sound(env, v) && Allowed(Levels(v), op)
    ensures var (r, seen) := Step(env, v, op);
      && r.Cache? && Sound(env, r)
      && Levels(r) == PlainStep(env, Levels(v), op).0 && Agrees(seen, PlainStep(env, Levels(v), op).1)
  {
    match op
    case OpGet(o) => GetReads(env, v, o);
    case OpHave(o) => FetchReads(env, v, o);
    case OpAdd(o, coin, possibleOverwrite) => AddCoinAdds(env, v, o, coin, possibleOverwrite);
    case OpSpend(o) => SpendCoinSpends(env, v, o); SpentSeen(env, v, o);
    case OpUncache(o) => UncacheKeeps(env, v, o);
    case OpBest => GetBestReads(env, v);
    case OpSetBest(_) =>
    case OpFlush => FlushShows(env, v);
    case OpPush => assert Over(map[], Shown(v)) == Shown(v);
    case OpPop =>
  }

  // A run of operations, each allowed by what the plain maps show at that point.
  ghost predicate AllowedRun(env: Env, levels: seq<Level>, ops: seq<Op>)
    decreases |ops|
  {
    ops == []
    || (|levels| > 1 && Allowed(levels, ops[0]) && AllowedRun(env, PlainStep(env, levels, ops[0]).0, ops[1..]))
  }

  ghost function PlainRun(env: Env, levels: seq<Level>, ops: seq<Op>): (seq<Level>, seq<Seen>)
    requires AllowedRun(env, levels, ops)
    decreases |ops|
  {
    if ops == [] then (levels, [])
    else
      var (next, seen) := PlainStep(env, levels, ops[0]);
      var (end, more) := PlainRun(env, next, ops[1..]);
      (end, [seen] + more)
  }

  ghost function Run(env: Env, v: View, ops: seq<Op>): (View, seq<Seen>)
    requires env.Valid() && v.Cache? && Sound(env, v) && AllowedRun(env, Levels(v), ops)
    decreases |ops|
  {
    if ops == [] then (v, [])
    else
      StepRefines(env, v, ops[0]);
      var (next, seen) := Step(env, v, ops[0]);
      var (end, more) := Run(env, next, ops[1..]);
      (end, [seen] + more)
  }

  // The tower of caches refines a stack of plain maps: same maps and best blocks at every level,
  // same answers, over every run.
  lemma {:induction false} RunRefines(env: Env, v: View, ops: seq<Op>)
    requires env.Valid() && v.Cache? && Sound(env, v) && AllowedRun(env, Levels(v), ops)
    ensures var (r, seen) := Run(env, v, ops);
      Sound(env, r) && Levels(r) == PlainRun(env, Levels(v), ops).0 && AllAgree(seen, PlainRun(env, Levels(v), ops).1)
    decreases |ops|
  {
    if ops != [] {
      StepRefines(env, v, ops[0]);
      RunRefines(env, Step(env, v, ops[0]).0, ops[1..]);
    }
  }
}
