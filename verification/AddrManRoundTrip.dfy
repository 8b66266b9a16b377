/** A saved address manager loads back to the same entries and tables, under new
    ids: saving numbers the new entries first and the tried ones after them. */
module AddrManRoundTrip {
  import opened AddrManState
  import opened AddrManOps
  import opened AddrManDisk

  /* ---- the numbering ---- */

  lemma {:induction false} IdsPrefix(s: State, tried: bool, m: nat, n: nat)
    requires m <= n
    ensures |Ids(s, tried, m)| <= |Ids(s, tried, n)| && Ids(s, tried, n)[..|Ids(s, tried, m)|] == Ids(s, tried, m)
    decreases n
  {
    if m < n { IdsPrefix(s, tried, m, n - 1); }
  }

  lemma {:induction false} RankFinds(s: State, tried: bool, id: int, n: nat)
    requires 0 <= id < n && id in s.mapInfo && Wanted(s.mapInfo[id], tried)
    ensures Rank(s, tried, id) < |Ids(s, tried, n)| && Ids(s, tried, n)[Rank(s, tried, id)] == id
  {
    IdsPrefix(s, tried, id + 1, n);
    assert Ids(s, tried, id + 1) == Ids(s, tried, id) + [id];
    assert Ids(s, tried, n)[Rank(s, tried, id)] == Ids(s, tried, n)[..|Ids(s, tried, id + 1)|][Rank(s, tried, id)];
  }

  lemma {:induction false} RankOfIds(s: State, tried: bool, n: nat, i: nat)
    requires i < |Ids(s, tried, n)|
    ensures Rank(s, tried, Ids(s, tried, n)[i]) == i
  {
    IdsKnown(s, tried, n);
    if i < |Ids(s, tried, n - 1)| { RankOfIds(s, tried, n - 1, i); }
  }

  ghost function WantedBelow(s: State, tried: bool, n: nat): set<int> {
    set id | id in s.mapInfo && 0 <= id < n && Wanted(s.mapInfo[id], tried)
  }

  lemma {:induction false} CountIds(s: State, tried: bool, n: nat)
    ensures |Ids(s, tried, n)| == |WantedBelow(s, tried, n)|
  {
    hide Wanted, WantedBelow;
    WantedOneMore(s, tried, n);
    if n > 0 { CountIds(s, tried, n - 1); }
  }

  lemma {:induction false} WantedOneMore(s: State, tried: bool, n: nat)
    ensures n == 0 ==> WantedBelow(s, tried, n) == {}
    ensures n > 0 ==> n - 1 !in WantedBelow(s, tried, n - 1)
    ensures n > 0 && n - 1 in s.mapInfo && Wanted(s.mapInfo[n - 1], tried) ==>
      WantedBelow(s, tried, n) == WantedBelow(s, tried, n - 1) + {n - 1}
    ensures n > 0 && !(n - 1 in s.mapInfo && Wanted(s.mapInfo[n - 1], tried)) ==>
      WantedBelow(s, tried, n) == WantedBelow(s, tried, n - 1)
  {
    hide Wanted;
  }

  function News(s: State): seq<int> requires s.nIdCount >= 0 { Ids(s, false, s.nIdCount) }
  function Trieds(s: State): seq<int> requires s.nIdCount >= 0 { Ids(s, true, s.nIdCount) }
  function All(s: State): seq<int> requires s.nIdCount >= 0 { News(s) + Trieds(s) }

  function Renum(s: State, id: int): nat
    requires id in s.mapInfo && s.nIdCount >= 0
  {
    if s.mapInfo[id].fInTried then |News(s)| + Rank(s, true, id) else Rank(s, false, id)
  }

  // Every id is on exactly one of the two lists.
  ghost predicate Split(s: State) {
    && s.nIdCount >= 0
    && forall id :: id in s.mapInfo ==>
         0 <= id < s.nIdCount && (s.mapInfo[id].nRefCount != 0 <==> !s.mapInfo[id].fInTried)
  }

  lemma {:induction false} ConsistentSplit(s: State)
    requires Sound(s)
    ensures Split(s)
  {
    forall id | id in s.mapInfo ensures s.mapInfo[id].nRefCount != 0 <==> !s.mapInfo[id].fInTried {
      assert EntryOk(s, {}, id);
    }
  }

  lemma {:induction false} CountsExact(s: State)
    requires Sound(s)
    ensures |News(s)| == s.nNew && |Trieds(s)| == s.nTried
  {
    hide RandomOk, AddrOk, NewTableOk, TriedTableOk, EntriesOk, Ids, WantedBelow, Tried, New, Split;
    ConsistentSplit(s);
    SplitCounts(s);
    CountIds(s, false, s.nIdCount);
    CountIds(s, true, s.nIdCount);
    assert New(s) - {} == New(s);
  }

  lemma {:induction false} SplitCounts(s: State)
    requires Split(s)
    ensures WantedBelow(s, false, s.nIdCount) == New(s) && WantedBelow(s, true, s.nIdCount) == Tried(s)
  {
  }

  // Renum is a bijection between the ids and the positions on disk.
  lemma {:induction false} RenumFinds(s: State, id: int)
    requires Split(s) && id in s.mapInfo
    ensures Renum(s, id) < |All(s)| && All(s)[Renum(s, id)] == id
    ensures Renum(s, id) < |News(s)| <==> !s.mapInfo[id].fInTried
  {
    if s.mapInfo[id].fInTried {
      RankFinds(s, true, id, s.nIdCount);
    } else {
      RankFinds(s, false, id, s.nIdCount);
    }
  }

  lemma {:induction false} RenumOfAll(s: State, n: nat)
    requires Split(s) && n < |All(s)|
    ensures All(s)[n] in s.mapInfo && Renum(s, All(s)[n]) == n
    ensures s.mapInfo[All(s)[n]].fInTried <==> n >= |News(s)|
  {
    IdsKnown(s, false, s.nIdCount);
    IdsKnown(s, true, s.nIdCount);
    if n < |News(s)| {
      RankOfIds(s, false, s.nIdCount, n);
    } else {
      RankOfIds(s, true, s.nIdCount, n - |News(s)|);
    }
  }

  /* ---- loading the entries ---- */

  // The entries in the order they are on disk, and where each of them is; those
  // from `cut` on are tried.
  datatype Order = Order(ids: seq<int>, index: map<int, int>, cut: nat)

  ghost predicate Numbered(s: State, o: Order) {
    && o.cut <= |o.ids|
    && o.index.Keys == s.mapInfo.Keys && EMPTY !in s.mapInfo
    && (forall n :: 0 <= n < |o.ids| ==>
          o.ids[n] in s.mapInfo && o.index[o.ids[n]] == n && (s.mapInfo[o.ids[n]].fInTried <==> n >= o.cut))
    && (forall id :: id in s.mapInfo ==> 0 <= o.index[id] < |o.ids| && o.ids[o.index[id]] == id)
  }

  ghost function DiskOrder(s: State): Order
    requires s.nIdCount >= 0
  {
    Order(All(s), map id | id in s.mapInfo :: Renum(s, id), |News(s)|)
  }

  lemma {:induction false} DiskOrderNumbers(s: State)
    requires Split(s)
    ensures Numbered(s, DiskOrder(s))
  {
    var o := DiskOrder(s);
    forall n | 0 <= n < |o.ids|
      ensures o.ids[n] in s.mapInfo && o.index[o.ids[n]] == n && (s.mapInfo[o.ids[n]].fInTried <==> n >= o.cut)
    {
      RenumOfAll(s, n);
    }
    forall id | id in s.mapInfo ensures 0 <= o.index[id] < |o.ids| && o.ids[o.index[id]] == id { RenumFinds(s, id); }
  }

  // The entry that ends up at index n, with a given number of references.
  ghost function ReInfo(s: State, o: Order, n: nat, nRefCount: int): Info
    requires Numbered(s, o) && n < |o.ids|
  {
    FromDisk(ToDisk(s.mapInfo[o.ids[n]]), nRefCount, s.mapInfo[o.ids[n]].fInTried, n)
  }

  ghost function ReInfos(s: State, o: Order, k: nat): (m: map<int, Info>)
    requires Numbered(s, o) && k <= |o.ids|
    ensures forall n :: n in m <==> 0 <= n < k
    ensures forall n :: n in m ==> m[n] == ReInfo(s, o, n, 0)
  {
    if k == 0 then map[] else ReInfos(s, o, k - 1)[k - 1 := ReInfo(s, o, k - 1, 0)]
  }

  // mapAddr after the first k entries.
  ghost function AddrIndex(s: State, o: Order, k: nat): map<Service, int>
    requires Numbered(s, o) && k <= |o.ids|
  {
    if k == 0 then map[] else AddrIndex(s, o, k - 1)[s.mapInfo[o.ids[k - 1]].service := k - 1]
  }

  // A table under the new ids, leaving out those from k on.
  ghost function ReCell(o: Order, id: int, k: int): int {
    if id in o.index && o.index[id] < k then o.index[id] else EMPTY
  }

  ghost function ReRow(o: Order, row: seq<int>, k: int): (r: seq<int>)
    ensures |r| == |row| && forall p :: 0 <= p < |row| ==> r[p] == ReCell(o, row[p], k)
  {
    seq(|row|, p requires 0 <= p < |row| => ReCell(o, row[p], k))
  }

  ghost function ReTable(o: Order, t: Table, k: int): (r: Table)
    ensures |r| == |t| && forall b :: 0 <= b < |t| ==> r[b] == ReRow(o, t[b], k)
  {
    seq(|t|, b requires 0 <= b < |t| => ReRow(o, t[b], k))
  }

  ghost function Stage(s: State, o: Order, k: nat): State
    requires Numbered(s, o) && k <= |o.ids|
  {
    Empty(s.config, s.key).(
      nNew := s.nNew, nTried := s.nTried,
      mapInfo := ReInfos(s, o, k),
      mapAddr := AddrIndex(s, o, k),
      vRandom := seq(k, i => i),
      vvTried := ReTable(o, s.vvTried, k))
  }

  // The tokens of the entries from index k to index n.
  ghost function Listing(s: State, o: Order, k: nat, n: nat): seq<Token>
    requires Numbered(s, o) && k <= n <= |o.ids|
  {
    seq(n - k, i requires 0 <= i < n - k => Entry(ToDisk(s.mapInfo[o.ids[k + i]])))
  }

  lemma {:induction false} TriedFromCutOn(s: State, o: Order, k: nat)
    requires Numbered(s, o) && s.config.Valid() && TriedTableOk(s) && k <= o.cut
    ensures ReTable(o, s.vvTried, k) == Empty(s.config, s.key).vvTried
  {
    forall b | 0 <= b < |s.vvTried| ensures ReTable(o, s.vvTried, k)[b] == Empty(s.config, s.key).vvTried[b] {
      forall p | 0 <= p < |s.vvTried[b]| ensures ReCell(o, s.vvTried[b][p], k) == EMPTY {
        if s.vvTried[b][p] in o.index { assert o.ids[o.index[s.vvTried[b][p]]] == s.vvTried[b][p]; }
      }
    }
  }

  lemma {:induction false} StageNewStep(s: State, o: Order, k: nat)
    requires Numbered(s, o) && s.config.Valid() && TriedTableOk(s) && k < o.cut
    ensures LoadNewEntry(Stage(s, o, k), k, ToDisk(s.mapInfo[o.ids[k]]), true) == Stage(s, o, k + 1)
  {
    TriedFromCutOn(s, o, k);
    TriedFromCutOn(s, o, k + 1);
    assert seq(k + 1, i => i) == seq(k, i => i) + [k];
  }

  // One step of loading, from state a to state b.
  ghost predicate NewStep(a: State, b: State, n: nat, nNew: int, token: Token) {
    && a.config.Valid() && Shaped(a.vvNew, a.config.newBuckets, a.config.bucketSize) && a.nNew == nNew
    && token.Entry? && b == LoadNewEntry(a, n, token.disk, true)
  }

  lemma {:induction false} LoadNewRun(st: seq<State>, n: nat, tokens: seq<Token>, rest: seq<Token>)
    requires |st| == |tokens| + 1
    requires forall i :: 0 <= i < |tokens| ==> NewStep(st[i], st[i + 1], n + i, n + |tokens|, tokens[i])
    requires st[0].config.Valid() && Shaped(st[0].vvNew, st[0].config.newBuckets, st[0].config.bucketSize)
    requires st[0].nNew == n + |tokens|
    ensures LoadNew(st[0], n, tokens + rest, true) == Ok(st[|tokens|], rest)
    decreases |tokens|
  {
    if tokens == [] {
      assert tokens + rest == rest;
    } else {
      assert (tokens + rest)[1..] == tokens[1..] + rest;
      assert NewStep(st[0], st[0 + 1], n + 0, n + |tokens|, tokens[0]);
      forall i | 0 <= i < |tokens[1..]| ensures NewStep(st[1..][i], st[1..][i + 1], n + 1 + i, n + 1 + |tokens[1..]|,
                                                        tokens[1..][i]) {
        assert NewStep(st[i + 1], st[(i + 1) + 1], n + (i + 1), n + |tokens|, tokens[i + 1]);
      }
      LoadNewRun(st[1..], n + 1, tokens[1..], rest);
    }
  }

  lemma {:induction false} NewStageStep(s: State, o: Order, k: nat)
    requires Numbered(s, o) && s.config.Valid() && TriedTableOk(s) && k < o.cut
    ensures NewStep(Stage(s, o, k), Stage(s, o, k + 1), k, s.nNew, Listing(s, o, 0, o.cut)[k])
  {
    StageNewStep(s, o, k);
  }

  lemma {:induction false} FirstStage(s: State, o: Order)
    requires Numbered(s, o) && s.config.Valid()
    ensures o.cut <= |o.ids| && |Listing(s, o, 0, o.cut)| == o.cut
    ensures var f := Stage(s, o, 0);
      f.config == s.config && f.nNew == s.nNew && Shaped(f.vvNew, s.config.newBuckets, s.config.bucketSize)
  {
  }

  lemma {:induction false} LoadsNew(s: State, o: Order, rest: seq<Token>)
    requires Numbered(s, o) && s.config.Valid() && TriedTableOk(s) && o.cut == s.nNew
    ensures LoadNew(Stage(s, o, 0), 0, Listing(s, o, 0, o.cut) + rest, true) == Ok(Stage(s, o, o.cut), rest)
  {
    hide LoadNew, Stage, Numbered, NewStep, TriedTableOk, Listing;
    FirstStage(s, o);
    var st := seq(o.cut + 1, k requires 0 <= k <= o.cut => Stage(s, o, k));
    var tokens := Listing(s, o, 0, o.cut);
    forall i | 0 <= i < |tokens| ensures NewStep(st[i], st[i + 1], 0 + i, 0 + |tokens|, tokens[i]) {
      NewStageStep(s, o, i);
    }
    LoadNewRun(st, 0, tokens, rest);
  }

  // Every tried entry is in the slot it hashes to.
  ghost predicate OwnSlots(s: State)
    requires s.config.Valid() && TriedTableOk(s)
  {
    forall id :: id in s.mapInfo && s.mapInfo[id].fInTried ==>
      s.vvTried[s.TriedBucket(s.mapInfo[id].service)][s.TriedPosition(s.mapInfo[id].service)] == id
  }

  // The slot of the k-th entry is still free when it is loaded.
  lemma {:induction false} TriedSlotFree(s: State, o: Order, k: nat)
    requires Numbered(s, o) && s.config.Valid() && TriedTableOk(s) && OwnSlots(s) && o.cut <= k < |o.ids|
    ensures var a := s.mapInfo[o.ids[k]].service;
      && ReTable(o, s.vvTried, k)[s.TriedBucket(a)][s.TriedPosition(a)] == EMPTY
      && ReTable(o, s.vvTried, k + 1) == Put(ReTable(o, s.vvTried, k), s.TriedBucket(a), s.TriedPosition(a), k)
  {
    var a := s.mapInfo[o.ids[k]].service;
    var b, p := s.TriedBucket(a), s.TriedPosition(a);
    var now, next := ReTable(o, s.vvTried, k), ReTable(o, s.vvTried, k + 1);
    forall i | 0 <= i < |s.vvTried| ensures next[i] == Put(now, b, p, k)[i] {
      forall j | 0 <= j < |s.vvTried[i]| ensures next[i][j] == Put(now, b, p, k)[i][j] {
        assert s.vvTried[i][j] == o.ids[k] ==> i == b && j == p;
      }
    }
  }

  ghost function TriedStage(s: State, o: Order, k: nat): State
    requires Numbered(s, o) && k <= |o.ids|
  {
    Stage(s, o, k).(nIdCount := k)
  }

  lemma {:induction false} TriedStageStep(s: State, o: Order, k: nat)
    requires Numbered(s, o) && s.config.Valid() && TriedTableOk(s) && OwnSlots(s) && o.cut <= k < |o.ids|
    ensures LoadTriedEntry(TriedStage(s, o, k), ToDisk(s.mapInfo[o.ids[k]])) == TriedStage(s, o, k + 1)
  {
    TriedSlotFree(s, o, k);
    assert seq(k + 1, i => i) == seq(k, i => i) + [k];
  }

  ghost predicate TriedStep(a: State, b: State, nTried: int, token: Token) {
    && a.config.Valid() && Shaped(a.vvTried, a.config.triedBuckets, a.config.bucketSize) && a.nTried == nTried
    && token.Entry? && b == LoadTriedEntry(a, token.disk)
  }

  lemma {:induction false} LoadTriedRun(st: seq<State>, tokens: seq<Token>, cut: nat, k: nat, rest: seq<Token>)
    requires |st| == |tokens| + 1 && cut <= k <= |tokens|
    requires forall i :: cut <= i < |tokens| ==> TriedStep(st[i], st[i + 1], |tokens| - cut, tokens[i])
    requires st[k].config.Valid() && Shaped(st[k].vvTried, st[k].config.triedBuckets, st[k].config.bucketSize)
    requires st[k].nTried == |tokens| - cut
    ensures LoadTried(st[k], k - cut, tokens[k..] + rest) == Ok(st[|tokens|], rest)
    decreases |tokens| - k
  {
    if k == |tokens| {
      assert tokens[k..] + rest == rest;
    } else {
      assert (tokens[k..] + rest)[0] == tokens[k];
      assert (tokens[k..] + rest)[1..] == tokens[k + 1..] + rest;
      assert TriedStep(st[k], st[k + 1], |tokens| - cut, tokens[k]);
      LoadTriedRun(st, tokens, cut, k + 1, rest);
    }
  }

  lemma {:induction false} TriedStageIsStep(s: State, o: Order, k: nat)
    requires Numbered(s, o) && s.config.Valid() && TriedTableOk(s) && OwnSlots(s) && o.cut <= k < |o.ids|
    ensures TriedStep(TriedStage(s, o, k), TriedStage(s, o, k + 1), s.nTried, Entry(ToDisk(s.mapInfo[o.ids[k]])))
  {
    TriedStageStep(s, o, k);
  }

  lemma {:induction false} TriedStageRun(s: State, o: Order, st: seq<State>)
    requires Numbered(s, o) && s.config.Valid() && TriedTableOk(s) && OwnSlots(s)
    requires |st| == |o.ids| + 1 && forall k :: 0 <= k < |st| ==> st[k] == TriedStage(s, o, k)
    ensures forall k :: o.cut <= k < |o.ids| ==>
      TriedStep(st[k], st[k + 1], s.nTried, Entry(ToDisk(s.mapInfo[o.ids[k]])))
  {
    forall k | o.cut <= k < |o.ids| ensures TriedStep(st[k], st[k + 1], s.nTried, Entry(ToDisk(s.mapInfo[o.ids[k]]))) {
      TriedStageIsStep(s, o, k);
    }
  }

  lemma {:induction false} TriedStageShape(s: State, o: Order)
    requires Numbered(s, o) && s.config.Valid() && TriedTableOk(s)
    ensures var r := TriedStage(s, o, o.cut);
      r.config == s.config && r.nTried == s.nTried && Shaped(r.vvTried, s.config.triedBuckets, s.config.bucketSize)
  {
  }

  lemma {:induction false} LoadsTried(s: State, o: Order, rest: seq<Token>)
    requires Numbered(s, o) && s.config.Valid() && TriedTableOk(s) && OwnSlots(s) && |o.ids| == o.cut + s.nTried
    ensures LoadTried(TriedStage(s, o, o.cut), 0, Listing(s, o, 0, |o.ids|)[o.cut..] + rest)
         == Ok(TriedStage(s, o, |o.ids|), rest)
  {
    hide LoadTried, TriedStep, TriedTableOk, OwnSlots, TriedStage;
    TriedStageShape(s, o);
    var st := seq(|o.ids| + 1, k requires 0 <= k <= |o.ids| => TriedStage(s, o, k));
    TriedStageRun(s, o, st);
    LoadTriedRun(st, Listing(s, o, 0, |o.ids|), o.cut, o.cut, rest);
  }

  /* ---- loading the positions ---- */

  // The new table under the new ids, up to but excluding position p of bucket b.
  ghost function PartTable(o: Order, t: Table, b: nat, p: nat): (r: Table)
    ensures |r| == |t| && forall i :: 0 <= i < |t| ==> |r[i]| == |t[i]|
    ensures forall i, j :: 0 <= i < |t| && 0 <= j < |t[i]| ==>
      r[i][j] == if i < b || (i == b && j < p) then ReCell(o, t[i][j], |o.ids|) else EMPTY
  {
    seq(|t|, i requires 0 <= i < |t| =>
      seq(|t[i]|, j requires 0 <= j < |t[i]| =>
        if i < b || (i == b && j < p) then ReCell(o, t[i][j], |o.ids|) else EMPTY))
  }

  ghost function PartInfos(s: State, o: Order, b: nat, p: nat): (m: map<int, Info>)
    requires Numbered(s, o)
    ensures forall n :: n in m <==> 0 <= n < |o.ids|
    ensures forall n :: n in m ==> m[n] == ReInfo(s, o, n, |Slots(PartTable(o, s.vvNew, b, p), n)|)
  {
    map n | 0 <= n < |o.ids| :: ReInfo(s, o, n, |Slots(PartTable(o, s.vvNew, b, p), n)|)
  }

  ghost function Part(s: State, o: Order, b: nat, p: nat): State
    requires Numbered(s, o)
  {
    TriedStage(s, o, |o.ids|).(mapInfo := PartInfos(s, o, b, p), vvNew := PartTable(o, s.vvNew, b, p))
  }

  lemma {:induction false} PartStart(s: State, o: Order)
    requires Numbered(s, o) && s.config.Valid() && NewTableOk(s)
    ensures Part(s, o, 0, 0) == TriedStage(s, o, |o.ids|)
  {
    var t, e := PartTable(o, s.vvNew, 0, 0), Empty(s.config, s.key).vvNew;
    assert forall i :: 0 <= i < |t| ==> t[i] == e[i];
    assert t == e;
    forall n | 0 <= n < |o.ids| ensures PartInfos(s, o, 0, 0)[n] == ReInfos(s, o, |o.ids|)[n] {
      assert Slots(t, n) == {};
    }
    assert PartInfos(s, o, 0, 0) == ReInfos(s, o, |o.ids|);
  }

  lemma {:induction false} PartNextRow(s: State, o: Order, b: nat)
    requires Numbered(s, o) && s.config.Valid() && NewTableOk(s) && b < s.config.newBuckets
    ensures Part(s, o, b, s.config.bucketSize) == Part(s, o, b + 1, 0)
  {
    var x, y := PartTable(o, s.vvNew, b, s.config.bucketSize), PartTable(o, s.vvNew, b + 1, 0);
    assert forall i :: 0 <= i < |x| ==> x[i] == y[i];
    assert x == y;
    assert PartInfos(s, o, b, s.config.bucketSize) == PartInfos(s, o, b + 1, 0);
  }

  // The next position changes one cell, or none.
  lemma {:induction false} PartTableStep(o: Order, t: Table, b: nat, p: nat)
    requires b < |t| && p < |t[b]|
    ensures PartTable(o, t, b, p)[b][p] == EMPTY
    ensures PartTable(o, t, b, p + 1) == Put(PartTable(o, t, b, p), b, p, ReCell(o, t[b][p], |o.ids|))
  {
    var x, y := PartTable(o, t, b, p + 1), Put(PartTable(o, t, b, p), b, p, ReCell(o, t[b][p], |o.ids|));
    forall i | 0 <= i < |t| ensures x[i] == y[i] {
      assert forall j :: 0 <= j < |t[i]| ==> x[i][j] == y[i][j];
    }
  }

  // Before the last reference is placed, the count is below the final one.
  lemma {:induction false} PartSlots(s: State, o: Order, b: nat, p: nat, id: int)
    requires Numbered(s, o) && id in s.mapInfo && b < |s.vvNew| && p < |s.vvNew[b]| && s.vvNew[b][p] == id
    ensures |Slots(PartTable(o, s.vvNew, b, p), o.index[id])| < |Slots(s.vvNew, id)|
  {
    var part, whole := Slots(PartTable(o, s.vvNew, b, p), o.index[id]), Slots(s.vvNew, id);
    assert o.ids[o.index[id]] == id;
    forall x | x in part ensures x in whole && x != (b, p) {
      assert ReCell(o, s.vvNew[x.0][x.1], |o.ids|) == o.index[id] != EMPTY;
      assert s.vvNew[x.0][x.1] in o.index.Keys;
      assert o.ids[o.index[s.vvNew[x.0][x.1]]] == s.vvNew[x.0][x.1];
    }
    assert (b, p) in whole;
    SubsetSize(part, whole - {(b, p)});
  }

  lemma {:induction false} SubsetSize<T>(a: set<T>, b: set<T>)
    requires a <= b
    ensures |a| <= |b|
  {
    if a != {} {
      var x :| x in a;
      SubsetSize(a - {x}, b - {x});
    }
  }

  lemma {:induction false} PartCountsStep(s: State, o: Order, b: nat, p: nat, n: nat)
    requires b < |s.vvNew| && p < |s.vvNew[b]|
    ensures |Slots(PartTable(o, s.vvNew, b, p + 1), n)| ==
      |Slots(PartTable(o, s.vvNew, b, p), n)| + (if n == ReCell(o, s.vvNew[b][p], |o.ids|) then 1 else 0)
  {
    PartTableStep(o, s.vvNew, b, p);
    PutSlots(PartTable(o, s.vvNew, b, p), b, p, ReCell(o, s.vvNew[b][p], |o.ids|), n);
  }

  lemma {:induction false} PartInfosStep(s: State, o: Order, b: nat, p: nat, c: int)
    requires Numbered(s, o) && b < |s.vvNew| && p < |s.vvNew[b]| && c == ReCell(o, s.vvNew[b][p], |o.ids|)
    ensures c == EMPTY ==> PartInfos(s, o, b, p + 1) == PartInfos(s, o, b, p)
    ensures 0 <= c < |o.ids| ==>
      var info := PartInfos(s, o, b, p)[c];
      PartInfos(s, o, b, p + 1) == PartInfos(s, o, b, p)[c := info.(nRefCount := info.nRefCount + 1)]
  {
    hide PartInfos, PartTable, Slots;
    var now, next := PartInfos(s, o, b, p), PartInfos(s, o, b, p + 1);
    forall n | 0 <= n < |o.ids|
      ensures next[n] == if n == c then now[n].(nRefCount := now[n].nRefCount + 1) else now[n]
    {
      PartCountsStep(s, o, b, p, n);
    }
    if c == EMPTY {
      assert next == now;
    } else if 0 <= c < |o.ids| {
      assert next == now[c := now[c].(nRefCount := now[c].nRefCount + 1)];
    }
  }

  // The tokens of one bucket.
  ghost function RowNums(o: Order, row: seq<int>): seq<Token>
    requires forall p :: 0 <= p < |row| && row[p] != EMPTY ==> row[p] in o.index
  {
    if row == [] then [] else (if row[0] != EMPTY then [Num(o.index[row[0]])] else []) + RowNums(o, row[1..])
  }

  // One position of loading, from state x to state y.
  ghost predicate PosStep(o: Order, x: State, y: State, b: nat, id: int) {
    && x.config.Valid() && Shaped(x.vvNew, x.config.newBuckets, x.config.bucketSize) && b < x.config.newBuckets
    && (id != EMPTY ==> id in o.index)
    && y == if id == EMPTY then x else LoadIndex(x, b, o.index[id], true)
  }

  lemma {:induction false} PartIsStep(s: State, o: Order, b: nat, p: nat)
    requires Numbered(s, o) && s.config.Valid() && NewTableOk(s) && o.cut == s.nNew
    requires b < |s.vvNew| && p < |s.vvNew[b]|
    requires s.vvNew[b][p] != EMPTY ==>
      s.vvNew[b][p] in s.mapInfo && |Slots(s.vvNew, s.vvNew[b][p])| <= NEW_BUCKETS_PER_ADDRESS
    ensures PosStep(o, Part(s, o, b, p), Part(s, o, b, p + 1), b, s.vvNew[b][p])
  {
    hide PartInfos, Slots;
    var id := s.vvNew[b][p];
    PartTableStep(o, s.vvNew, b, p);
    PartInfosStep(s, o, b, p, ReCell(o, id, |o.ids|));
    if id == EMPTY {
      assert PartTable(o, s.vvNew, b, p)[b][p := EMPTY] == PartTable(o, s.vvNew, b, p)[b];
    } else {
      PartSlots(s, o, b, p, id);
      assert o.ids[o.index[id]] == id;
    }
  }

  lemma {:induction false} LoadRowRun(o: Order, st: seq<State>, row: seq<int>, b: nat, p: nat, rest: seq<Token>)
    requires |st| == |row| + 1 && p <= |row|
    requires forall q :: 0 <= q < |row| && row[q] != EMPTY ==> row[q] in o.index
    requires forall q :: 0 <= q < |row| ==> PosStep(o, st[q], st[q + 1], b, row[q])
    requires st[p].config.Valid() && Shaped(st[p].vvNew, st[p].config.newBuckets, st[p].config.bucketSize)
    requires b < st[p].config.newBuckets
    ensures LoadRow(st[p], b, Filled(row[p..]), RowNums(o, row[p..]) + rest, true) == Ok(st[|row|], rest)
    decreases |row| - p
  {
    hide LoadIndex, LoadRow, RowNums, Filled;
    if p == |row| {
      RowEnds(o, row[p..], st[p], b, rest);
    } else {
      assert row[p..][0] == row[p] && row[p..][1..] == row[p + 1..];
      assert PosStep(o, st[p], st[p + 1], b, row[p]);
      if row[p] != EMPTY { LoadIndexShape(st[p], b, o.index[row[p]]); }
      LoadRowRun(o, st, row, b, p + 1, rest);
      RowBegins(o, row[p..]);
      if row[p] != EMPTY {
        LoadRowOnce(st[p], b, Filled(row[p + 1..]), o.index[row[p]], RowNums(o, row[p + 1..]) + rest);
        assert [Num(o.index[row[p]])] + RowNums(o, row[p + 1..]) + rest
            == [Num(o.index[row[p]])] + (RowNums(o, row[p + 1..]) + rest);
      }
    }
  }

  lemma {:induction false} LoadIndexShape(s: State, b: nat, i: int)
    requires s.config.Valid() && Shaped(s.vvNew, s.config.newBuckets, s.config.bucketSize) && b < s.config.newBuckets
    ensures var r := LoadIndex(s, b, i, true);
      r.config == s.config && Shaped(r.vvNew, s.config.newBuckets, s.config.bucketSize)
  {
  }

  lemma {:induction false} RowEnds(o: Order, row: seq<int>, s: State, b: nat, rest: seq<Token>)
    requires row == [] && s.config.Valid() && Shaped(s.vvNew, s.config.newBuckets, s.config.bucketSize)
    requires b < s.config.newBuckets
    ensures LoadRow(s, b, Filled(row), RowNums(o, row) + rest, true) == Ok(s, rest)
  {
    assert [] + rest == rest;
  }

  lemma {:induction false} RowBegins(o: Order, row: seq<int>)
    requires row != [] && forall q :: 0 <= q < |row| && row[q] != EMPTY ==> row[q] in o.index
    ensures row[0] == EMPTY ==> Filled(row) == Filled(row[1..]) && RowNums(o, row) == RowNums(o, row[1..])
    ensures row[0] != EMPTY ==>
      Filled(row) == 1 + Filled(row[1..]) && RowNums(o, row) == [Num(o.index[row[0]])] + RowNums(o, row[1..])
  {
    assert [] + RowNums(o, row[1..]) == RowNums(o, row[1..]);
  }

  lemma {:induction false} LoadRowOnce(s: State, b: nat, n: nat, i: int, tokens: seq<Token>)
    requires s.config.Valid() && Shaped(s.vvNew, s.config.newBuckets, s.config.bucketSize) && b < s.config.newBuckets
    ensures LoadRow(s, b, 1 + n, [Num(i)] + tokens, true) == LoadRow(LoadIndex(s, b, i, true), b, n, tokens, true)
  {
    assert ([Num(i)] + tokens)[1..] == tokens;
  }

  // What of the consistency the positions depend on.
  ghost predicate Placed(s: State, o: Order) {
    && Numbered(s, o) && s.config.Valid() && NewTableOk(s) && o.cut == s.nNew
    && forall id :: id in s.mapInfo ==> |Slots(s.vvNew, id)| <= NEW_BUCKETS_PER_ADDRESS
  }

  lemma {:induction false} LoadsRow(s: State, o: Order, b: nat, rest: seq<Token>)
    requires Placed(s, o) && b < |s.vvNew|
    ensures LoadRow(Part(s, o, b, 0), b, Filled(s.vvNew[b]), RowNums(o, s.vvNew[b]) + rest, true)
      == Ok(Part(s, o, b, s.config.bucketSize), rest)
  {
    hide LoadRow, PartInfos, PartTable, PosStep;
    var row := s.vvNew[b];
    var st := seq(|row| + 1, p requires 0 <= p <= |row| => Part(s, o, b, p));
    forall q | 0 <= q < |row| ensures PosStep(o, st[q], st[q + 1], b, row[q]) { PartIsStep(s, o, b, q); }
    LoadRowRun(o, st, row, b, 0, rest);
    assert row[0..] == row;
  }

  ghost function TableNums(o: Order, t: Table): seq<Token>
    requires forall b, p :: 0 <= b < |t| && 0 <= p < |t[b]| && t[b][p] != EMPTY ==> t[b][p] in o.index
  {
    if t == [] then [] else [Num(Filled(t[0]))] + RowNums(o, t[0]) + TableNums(o, t[1..])
  }

  ghost predicate RowStep(o: Order, x: State, y: State, b: nat, row: seq<int>) {
    && x.config.Valid() && Shaped(x.vvNew, x.config.newBuckets, x.config.bucketSize) && b < x.config.newBuckets
    && (forall p :: 0 <= p < |row| && row[p] != EMPTY ==> row[p] in o.index)
    && forall rest :: LoadRow(x, b, Filled(row), RowNums(o, row) + rest, true) == Ok(y, rest)
  }

  lemma {:induction false} PartRowIsStep(s: State, o: Order, b: nat)
    requires Placed(s, o) && b < |s.vvNew|
    ensures RowStep(o, Part(s, o, b, 0), Part(s, o, b + 1, 0), b, s.vvNew[b])
  {
    PartNextRow(s, o, b);
    forall rest
      ensures LoadRow(Part(s, o, b, 0), b, Filled(s.vvNew[b]), RowNums(o, s.vvNew[b]) + rest, true)
           == Ok(Part(s, o, b + 1, 0), rest)
    {
      LoadsRow(s, o, b, rest);
    }
  }

  lemma {:induction false} LoadTableRun(o: Order, st: seq<State>, t: Table, b: nat)
    requires |st| == |t| + 1 && b <= |t|
    requires forall i, p :: 0 <= i < |t| && 0 <= p < |t[i]| && t[i][p] != EMPTY ==> t[i][p] in o.index
    requires forall i :: 0 <= i < |t| ==> RowStep(o, st[i], st[i + 1], i, t[i])
    requires st[b].config.Valid() && Shaped(st[b].vvNew, st[b].config.newBuckets, st[b].config.bucketSize)
    requires st[b].config.newBuckets == |t|
    ensures LoadTable(st[b], b, |t|, TableNums(o, t[b..]), true) == Ok(st[|t|], [])
    decreases |t| - b
  {
    if b < |t| {
      assert t[b..][1..] == t[b + 1..];
      var tokens := TableNums(o, t[b..]);
      assert tokens[0] == Num(Filled(t[b]));
      assert tokens[1..] == RowNums(o, t[b]) + TableNums(o, t[b + 1..]);
      assert RowStep(o, st[b], st[b + 1], b, t[b]);
      assert LoadRow(st[b], b, Filled(t[b]), tokens[1..], true) == Ok(st[b + 1], TableNums(o, t[b + 1..]));
      LoadTableRun(o, st, t, b + 1);
    }
  }

  lemma {:induction false} LoadsTable(s: State, o: Order)
    requires Placed(s, o)
    ensures LoadTable(Part(s, o, 0, 0), 0, |s.vvNew|, TableNums(o, s.vvNew), true) == Ok(Part(s, o, |s.vvNew|, 0), [])
  {
    hide LoadTable, RowStep, PartInfos, PartTable;
    var st := seq(|s.vvNew| + 1, b requires 0 <= b <= |s.vvNew| => Part(s, o, b, 0));
    forall i | 0 <= i < |s.vvNew| ensures RowStep(o, st[i], st[i + 1], i, s.vvNew[i]) { PartRowIsStep(s, o, i); }
    LoadTableRun(o, st, s.vvNew, 0);
    assert s.vvNew[0..] == s.vvNew;
  }

  /* ---- the tokens that saving writes ---- */

  lemma {:induction false} RowTokensAre(s: State, o: Order, row: seq<int>)
    requires forall p :: 0 <= p < |row| && row[p] != EMPTY ==>
      row[p] in o.index && o.index[row[p]] == Rank(s, false, row[p])
    ensures RowTokens(s, row) == RowNums(o, row)
  {
    if row != [] { RowTokensAre(s, o, row[1..]); }
  }

  lemma {:induction false} TableTokensAre(s: State, o: Order, t: Table)
    requires forall b, p :: 0 <= b < |t| && 0 <= p < |t[b]| && t[b][p] != EMPTY ==>
      t[b][p] in o.index && o.index[t[b][p]] == Rank(s, false, t[b][p])
    ensures TableTokens(s, t) == TableNums(o, t)
  {
    if t != [] {
      RowTokensAre(s, o, t[0]);
      TableTokensAre(s, o, t[1..]);
    }
  }

  lemma {:induction false} NewEntriesAre(s: State, o: Order)
    requires Split(s) && o == DiskOrder(s) && Numbered(s, o)
    ensures forall i :: 0 <= i < |News(s)| ==> News(s)[i] in s.mapInfo
    ensures Entries(s, News(s)) == Listing(s, o, 0, o.cut)
  {
    hide Ids;
    IdsKnown(s, false, s.nIdCount);
    assert forall i :: 0 <= i < |News(s)| ==> o.ids[i] == News(s)[i];
  }

  lemma {:induction false} TriedEntriesAre(s: State, o: Order)
    requires Split(s) && o == DiskOrder(s) && Numbered(s, o)
    ensures forall i :: 0 <= i < |Trieds(s)| ==> Trieds(s)[i] in s.mapInfo
    ensures Entries(s, Trieds(s)) == Listing(s, o, 0, |o.ids|)[o.cut..]
  {
    hide Ids, Numbered, Renum;
    IdsKnown(s, true, s.nIdCount);
    var e, l := Entries(s, Trieds(s)), Listing(s, o, 0, |o.ids|)[o.cut..];
    assert |e| == |l|;
    forall i | 0 <= i < |e| ensures e[i] == l[i] { assert o.ids[o.cut + i] == Trieds(s)[i]; }
  }

  lemma {:induction false} EntriesAre(s: State, o: Order)
    requires Split(s) && o == DiskOrder(s) && Numbered(s, o)
    ensures forall i :: 0 <= i < |News(s)| ==> News(s)[i] in s.mapInfo
    ensures forall i :: 0 <= i < |Trieds(s)| ==> Trieds(s)[i] in s.mapInfo
    ensures Entries(s, News(s)) == Listing(s, o, 0, o.cut)
    ensures Entries(s, Trieds(s)) == Listing(s, o, 0, |o.ids|)[o.cut..]
  {
    hide *;
    NewEntriesAre(s, o);
    TriedEntriesAre(s, o);
  }

  lemma {:induction false} NewSlotsNumbered(s: State, o: Order)
    requires s.config.Valid() && NewTableOk(s) && s.nIdCount >= 0 && o == DiskOrder(s)
    ensures forall b, p :: 0 <= b < |s.vvNew| && 0 <= p < |s.vvNew[b]| && s.vvNew[b][p] != EMPTY ==>
      s.vvNew[b][p] in o.index && o.index[s.vvNew[b][p]] == Rank(s, false, s.vvNew[b][p])
  {
  }

  lemma {:induction false} SerializeIs(s: State, o: Order)
    requires Sound(s) && o == DiskOrder(s) && Numbered(s, o)
    ensures Serialize(s)
         == Header(s) + (Listing(s, o, 0, o.cut) + (Listing(s, o, 0, |o.ids|)[o.cut..] + TableNums(o, s.vvNew)))
  {
    hide RandomOk, AddrOk, EntriesOk, CountsOk, Entries, Listing, Split, Numbered, TableNums, TableTokens, DiskOrder;
    ConsistentSplit(s);
    EntriesAre(s, o);
    NewSlotsNumbered(s, o);
    TableTokensAre(s, o, s.vvNew);
  }

  /* ---- what is loaded ---- */

  lemma {:induction false} PruneNothing(s: State, n: nat)
    requires RandomOk(s)
    requires forall id :: !Stray(s, id)
    ensures Prune(s, n) == s
  {
    hide RandomOk, Delete, Stray;
    if n > 0 { PruneNothing(s, n - 1); }
  }

  // The complete new table, and each entry's references in it.
  lemma {:induction false} PartEnd(s: State, o: Order)
    requires Numbered(s, o)
    ensures PartTable(o, s.vvNew, |s.vvNew|, 0) == ReTable(o, s.vvNew, |o.ids|)
    ensures forall n :: 0 <= n < |o.ids| ==>
      |Slots(PartTable(o, s.vvNew, |s.vvNew|, 0), n)| == |Slots(s.vvNew, o.ids[n])|
  {
    var t := PartTable(o, s.vvNew, |s.vvNew|, 0);
    assert forall i :: 0 <= i < |t| ==> t[i] == ReTable(o, s.vvNew, |o.ids|)[i];
    forall n | 0 <= n < |o.ids| ensures Slots(t, n) == Slots(s.vvNew, o.ids[n]) {
      forall b: nat, p: nat | b < |t| && p < |t[b]| ensures t[b][p] == n <==> s.vvNew[b][p] == o.ids[n] {
        assert t[b][p] == ReCell(o, s.vvNew[b][p], |o.ids|);
        assert s.vvNew[b][p] in s.mapInfo ==> o.ids[o.index[s.vvNew[b][p]]] == s.vvNew[b][p];
      }
    }
  }

  // r holds the entries of s under new ids, in the same slots.
  ghost predicate Reloaded(s: State, r: State, o: Order) {
    && Numbered(s, o)
    && r.config == s.config && r.key == s.key && r.nNew == s.nNew && r.nTried == s.nTried && r.nIdCount == |o.ids|
    && (forall n :: n in r.mapInfo <==> 0 <= n < |o.ids|)
    && (forall n :: 0 <= n < |o.ids| ==> r.mapInfo[n] == ReInfo(s, o, n, s.mapInfo[o.ids[n]].nRefCount))
    && r.vvNew == ReTable(o, s.vvNew, |o.ids|)
    && r.vvTried == ReTable(o, s.vvTried, |o.ids|)
    && r.mapAddr == AddrIndex(s, o, |o.ids|)
    && r.vRandom == seq(|o.ids|, i => i)
  }

  lemma {:induction false} PartReloaded(s: State, o: Order)
    requires Placed(s, o) && forall id :: id in s.mapInfo ==> s.mapInfo[id].nRefCount == |Slots(s.vvNew, id)|
    ensures Reloaded(s, Part(s, o, |s.vvNew|, 0), o)
  {
    PartEnd(s, o);
  }

  /* ---- a table holds no more ids than it has slots ---- */

  ghost function Values(t: Table): set<int> {
    if t == [] then {} else (set x | x in t[0]) + Values(t[1..])
  }

  lemma {:induction false} RowValues(row: seq<int>)
    ensures |set x | x in row| <= |row|
  {
    if row != [] {
      RowValues(row[1..]);
      assert (set x | x in row) == {row[0]} + set x | x in row[1..];
    }
  }

  lemma {:induction false} ValuesBound(t: Table, columns: nat)
    requires forall b :: 0 <= b < |t| ==> |t[b]| == columns
    ensures |Values(t)| <= |t| * columns
  {
    if t != [] {
      RowValues(t[0]);
      ValuesBound(t[1..], columns);
      assert |t| * columns == columns + |t[1..]| * columns;
    }
  }

  lemma {:induction false} HoldsValue(t: Table, b: nat, p: nat)
    requires b < |t| && p < |t[b]|
    ensures t[b][p] in Values(t)
  {
    if b > 0 { HoldsValue(t[1..], b - 1, p); }
  }

  lemma {:induction false} CountsFit(s: State)
    requires Sound(s)
    ensures s.nNew <= s.config.newBuckets * s.config.bucketSize
    ensures s.nTried <= s.config.triedBuckets * s.config.bucketSize
  {
    forall id | id in New(s) ensures id in Values(s.vvNew) {
      assert EntryOk(s, {}, id);
      var slot :| slot in Slots(s.vvNew, id);
      HoldsValue(s.vvNew, slot.0, slot.1);
    }
    forall id | id in Tried(s) ensures id in Values(s.vvTried) {
      assert EntryOk(s, {}, id);
      HoldsValue(s.vvTried, s.TriedBucket(s.mapInfo[id].service), s.TriedPosition(s.mapInfo[id].service));
    }
    ValuesBound(s.vvNew, s.config.bucketSize);
    ValuesBound(s.vvTried, s.config.bucketSize);
    assert New(s) - {} == New(s);
    SubsetSize(New(s), Values(s.vvNew));
    SubsetSize(Tried(s), Values(s.vvTried));
  }

  /* ---- the round trip ---- */

  // What a consistent state offers to the loading lemmas.
  ghost predicate Savable(s: State, o: Order) {
    && Placed(s, o) && TriedTableOk(s) && OwnSlots(s)
    && |o.ids| == o.cut + s.nTried
    && (forall id :: id in s.mapInfo ==> s.mapInfo[id].nRefCount == |Slots(s.vvNew, id)|)
    && (forall id :: id in s.mapInfo && !s.mapInfo[id].fInTried ==> s.mapInfo[id].nRefCount != 0)
  }

  lemma {:induction false} ConsistentSavable(s: State)
    requires Sound(s)
    ensures Savable(s, DiskOrder(s))
  {
    ConsistentSplit(s);
    DiskOrderNumbers(s);
    CountsExact(s);
    forall id | id in s.mapInfo
      ensures |Slots(s.vvNew, id)| <= NEW_BUCKETS_PER_ADDRESS && s.mapInfo[id].nRefCount == |Slots(s.vvNew, id)|
      ensures s.mapInfo[id].fInTried ==>
        s.vvTried[s.TriedBucket(s.mapInfo[id].service)][s.TriedPosition(s.mapInfo[id].service)] == id
    {
      assert EntryOk(s, {}, id);
    }
  }

  lemma {:induction false} StageStart(s: State, o: Order)
    requires Savable(s, o)
    ensures Stage(s, o, 0) == Empty(s.config, s.key).(nNew := s.nNew, nTried := s.nTried)
  {
    TriedFromCutOn(s, o, 0);
    assert seq(0, i => i) == [];
  }

  // The entries load back, in order and none lost.
  lemma {:induction false} EntriesReload(s: State, o: Order, tokens: seq<Token>, rest: seq<Token>)
    requires Savable(s, o) && HeaderOk(s.config, tokens) && tokens[..6] == Header(s)
    requires BucketCount(tokens) == s.config.newBuckets
    requires tokens[6..] == Listing(s, o, 0, o.cut) + (Listing(s, o, 0, |o.ids|)[o.cut..] + rest)
    ensures LoadEntries(s.config, tokens) == Ok(TriedStage(s, o, |o.ids|), rest)
  {
    assert tokens[0] == tokens[..6][0] == Num(1);
    assert tokens[2] == tokens[..6][2] == Num(s.key);
    assert tokens[3] == tokens[..6][3] == Num(s.nNew);
    assert tokens[4] == tokens[..6][4] == Num(s.nTried);
    StageStart(s, o);
    LoadsNew(s, o, Listing(s, o, 0, |o.ids|)[o.cut..] + rest);
    LoadsTried(s, o, rest);
  }

  lemma {:induction false} HeaderReads(s: State, tokens: seq<Token>, rest: seq<Token>)
    requires tokens == Header(s) + rest
    requires s.nNew <= s.config.newBuckets * s.config.bucketSize
    requires s.nTried <= s.config.triedBuckets * s.config.bucketSize
    ensures HeaderOk(s.config, tokens) && tokens[..6] == Header(s) && tokens[6..] == rest
    ensures BucketCount(tokens) == s.config.newBuckets
  {
    assert forall i :: 0 <= i < 6 ==> tokens[i] == Header(s)[i];
    assert Xor30(Xor30(s.config.newBuckets)) == s.config.newBuckets;
  }

  lemma {:induction false} SerializedHeader(s: State, o: Order)
    requires s.nIdCount >= 0 && Sound(s) && o == DiskOrder(s) && Savable(s, o)
    ensures var tokens := Serialize(s);
      && HeaderOk(s.config, tokens) && tokens[..6] == Header(s) && BucketCount(tokens) == s.config.newBuckets
      && tokens[6..] == Listing(s, o, 0, o.cut) + (Listing(s, o, 0, |o.ids|)[o.cut..] + TableNums(o, s.vvNew))
  {
    SerializeIs(s, o);
    CountsFit(s);
    HeaderReads(s, Serialize(s),
        Listing(s, o, 0, o.cut) + (Listing(s, o, 0, |o.ids|)[o.cut..] + TableNums(o, s.vvNew)));
  }

  // With every stored position in place nothing is left to prune.
  lemma {:induction false} TableReloads(s: State, o: Order)
    requires Savable(s, o)
    ensures var t := LoadTable(TriedStage(s, o, |o.ids|), 0, s.config.newBuckets, TableNums(o, s.vvNew), true);
      t.Ok? && Reloaded(s, t.state, o)
  {
    PartStart(s, o);
    LoadsTable(s, o);
    PartReloaded(s, o);
  }

  lemma {:induction false} NoStrays(s: State, r: State, o: Order)
    requires Savable(s, o) && Reloaded(s, r, o)
    ensures forall id :: !Stray(r, id)
  {
    forall id ensures !Stray(r, id) {
      assert id in r.mapInfo <==> 0 <= id < |o.ids|;
      if 0 <= id < |o.ids| {
        var k := o.ids[id];
        assert k in s.mapInfo;
        var info := s.mapInfo[k];
        assert r.mapInfo[id] == ReInfo(s, o, id, info.nRefCount);
        assert info.fInTried || info.nRefCount != 0;
      }
    }
  }

  // Loading what was saved gives back every entry, with the tables the same under
  // the new ids.
  lemma {:induction false} RoundTrip(s: State)
    requires Sound(s)
    ensures var l := Unserialize(s.config, Serialize(s));
      l.Done? && Reloaded(s, l.state, DiskOrder(s))
  {
    hide Serialize, Sound, Savable, Reloaded, DiskOrder, LoadEntries, LoadTable, Prune, Inv;
    ConsistentConfig(s);
    var o, tokens := DiskOrder(s), Serialize(s);
    ConsistentSavable(s);
    SerializedHeader(s, o);
    assert tokens[0] == tokens[..6][0];
    SavableCells(s, o);
    EntriesReload(s, o, tokens, TableNums(o, s.vvNew));
    TableReloads(s, o);
    var r := LoadEntries(s.config, tokens);
    var t := LoadTable(r.state, 0, s.config.newBuckets, r.rest, true);
    LoadTableSound(r.state, 0, s.config.newBuckets, r.rest, true);
    NoStrays(s, t.state, o);
    ReloadedCount(s, t.state, o);
    PruneNothing(t.state, |o.ids|);
  }

  lemma {:induction false} SavableCells(s: State, o: Order)
    requires Savable(s, o)
    ensures forall b, p :: 0 <= b < |s.vvNew| && 0 <= p < |s.vvNew[b]| && s.vvNew[b][p] != EMPTY ==>
      s.vvNew[b][p] in o.index
  {
  }

  lemma {:induction false} ConsistentConfig(s: State)
    requires Sound(s)
    ensures s.config.Valid() && s.nIdCount >= 0
  {
  }

  lemma {:induction false} ReloadedCount(s: State, r: State, o: Order)
    requires Reloaded(s, r, o)
    ensures r.nIdCount == |o.ids|
  {
  }

  /* ---- when the reloaded state is consistent again ---- */

  ghost predicate DistinctServices(s: State, o: Order)
    requires Numbered(s, o)
  {
    forall m, n :: 0 <= m < n < |o.ids| ==> s.mapInfo[o.ids[m]].service != s.mapInfo[o.ids[n]].service
  }

  lemma {:induction false} AddrIndexFinds(s: State, o: Order, k: nat)
    requires Numbered(s, o) && k <= |o.ids| && DistinctServices(s, o)
    ensures forall n :: 0 <= n < k ==>
      s.mapInfo[o.ids[n]].service in AddrIndex(s, o, k) && AddrIndex(s, o, k)[s.mapInfo[o.ids[n]].service] == n
    ensures forall a :: a in AddrIndex(s, o, k) ==>
      0 <= AddrIndex(s, o, k)[a] < k && s.mapInfo[o.ids[AddrIndex(s, o, k)[a]]].service == a
  {
    if k > 0 { AddrIndexFinds(s, o, k - 1); }
  }

  // Squashing changes no stored service.
  ghost predicate Portless(s: State) {
    forall id :: id in s.mapInfo ==> s.config.Squash(s.mapInfo[id].service) == s.mapInfo[id].service
  }

  lemma {:induction false} AddrOkDistinct(s: State, o: Order)
    requires AddrOk(s) && Numbered(s, o)
    ensures DistinctServices(s, o)
  {
    forall m, n | 0 <= m < n < |o.ids| ensures s.mapInfo[o.ids[m]].service != s.mapInfo[o.ids[n]].service {
      var x, y := o.ids[m], o.ids[n];
      assert x in s.mapInfo && y in s.mapInfo && o.index[x] != o.index[y];
    }
  }

  lemma {:induction false} PortlessAddrOk(s: State, r: State, o: Order)
    requires AddrOk(s) && Reloaded(s, r, o) && Portless(s)
    ensures AddrOk(r)
  {
    AddrOkDistinct(s, o);
    AddrIndexFinds(s, o, |o.ids|);
    forall n | n in r.mapInfo
      ensures 0 <= n < r.nIdCount && r.config.Squash(r.mapInfo[n].service) in r.mapAddr
      ensures r.mapAddr[r.config.Squash(r.mapInfo[n].service)] == n
    {
      var k := o.ids[n];
      assert k in s.mapInfo && r.mapInfo[n].service == s.mapInfo[k].service;
    }
    forall a | a in r.mapAddr
      ensures r.mapAddr[a] in r.mapInfo && r.config.Squash(r.mapInfo[r.mapAddr[a]].service) == a
    {
      var n := r.mapAddr[a];
      var k := o.ids[n];
      assert k in s.mapInfo && r.mapInfo[n].service == s.mapInfo[k].service;
    }
  }

  lemma {:induction false} AddrOkPortless(s: State, r: State, o: Order)
    requires AddrOk(s) && Reloaded(s, r, o) && AddrOk(r)
    ensures Portless(s)
  {
    AddrOkDistinct(s, o);
    AddrIndexFinds(s, o, |o.ids|);
    forall id | id in s.mapInfo ensures s.config.Squash(s.mapInfo[id].service) == s.mapInfo[id].service {
      var n := o.index[id];
      assert o.ids[n] == id && r.mapInfo[n].service == s.mapInfo[id].service;
      assert r.mapAddr[s.mapInfo[id].service] == n;
    }
  }

  /* ---- the other parts of the invariant survive the renumbering ---- */

  lemma {:induction false} ReloadedRandomOk(s: State, r: State, o: Order)
    requires Reloaded(s, r, o)
    ensures RandomOk(r)
  {
    RangeSize(|o.ids|, r.mapInfo.Keys, 0);
    assert |r.mapInfo| == |r.mapInfo.Keys|;
  }

  // A renumbered slot holds the renumbered id.
  lemma {:induction false} ReCellInverse(s: State, o: Order, id: int, n: nat)
    requires Numbered(s, o) && n < |o.ids|
    ensures ReCell(o, id, |o.ids|) == n <==> id == o.ids[n]
  {
    if id in s.mapInfo { assert o.ids[o.index[id]] == id; }
  }

  lemma {:induction false} ReloadedTables(s: State, r: State, o: Order)
    requires s.config.Valid() && Reloaded(s, r, o) && NewTableOk(s) && TriedTableOk(s)
    ensures NewTableOk(r) && TriedTableOk(r)
  {
    forall b, p | 0 <= b < |r.vvNew| && 0 <= p < |r.vvNew[b]| && r.vvNew[b][p] != EMPTY
      ensures r.vvNew[b][p] in r.mapInfo && !r.mapInfo[r.vvNew[b][p]].fInTried
      ensures r.NewPosition(b, r.mapInfo[r.vvNew[b][p]].service) == p
    {
      ReCellKnown(s, r, o, s.vvNew[b][p], r.vvNew[b][p]);
    }
    forall b, p | 0 <= b < |r.vvTried| && 0 <= p < |r.vvTried[b]| && r.vvTried[b][p] != EMPTY
      ensures r.vvTried[b][p] in r.mapInfo && r.mapInfo[r.vvTried[b][p]].fInTried
      ensures r.TriedBucket(r.mapInfo[r.vvTried[b][p]].service) == b
      ensures r.TriedPosition(r.mapInfo[r.vvTried[b][p]].service) == p
    {
      ReCellKnown(s, r, o, s.vvTried[b][p], r.vvTried[b][p]);
    }
  }

  lemma {:induction false} ReCellKnown(s: State, r: State, o: Order, id: int, n: int)
    requires Reloaded(s, r, o) && n == ReCell(o, id, |o.ids|) && n != EMPTY
    ensures id in s.mapInfo && n in r.mapInfo
    ensures r.mapInfo[n] == FromDisk(ToDisk(s.mapInfo[id]), s.mapInfo[id].nRefCount, s.mapInfo[id].fInTried, n)
  {
    assert id in o.index.Keys;
    assert o.ids[o.index[id]] == id;
  }

  lemma {:induction false} ReloadedEntry(s: State, r: State, o: Order, n: nat)
    requires s.config.Valid() && Reloaded(s, r, o) && NewTableOk(s) && TriedTableOk(s) && TriedTableOk(r) && n < |o.ids|
    requires EntryOk(s, {}, o.ids[n])
    ensures EntryOk(r, {}, n)
  {
    var id := o.ids[n];
    assert Slots(r.vvNew, n) == Slots(s.vvNew, id) by {
      forall b: nat, p: nat | b < |s.vvNew| && p < |s.vvNew[b]| ensures r.vvNew[b][p] == n <==> s.vvNew[b][p] == id {
        ReCellInverse(s, o, s.vvNew[b][p], n);
      }
    }
    var info := s.mapInfo[id];
    assert r.mapInfo[n] == ReInfo(s, o, n, info.nRefCount);
    if info.fInTried {
      ReCellInverse(s, o, s.vvTried[s.TriedBucket(info.service)][s.TriedPosition(info.service)], n);
    }
  }

  lemma {:induction false} ReloadedCounts(s: State, r: State, o: Order)
    requires Reloaded(s, r, o) && o.cut == s.nNew && |o.ids| == o.cut + s.nTried
    ensures r.nTried == |Tried(r)| && r.nNew == |New(r) - {}|
  {
    forall n | n in r.mapInfo ensures r.mapInfo[n].fInTried <==> n >= o.cut {
      var k := o.ids[n];
      assert k in s.mapInfo;
    }
    RangeSize(|o.ids|, Tried(r), o.cut);
    RangeSize(o.cut, New(r), 0);
    assert New(r) - {} == New(r);
  }

  // A saved and reloaded address manager is consistent if and only if no stored
  // port is squashed by the lookup, as is the case whenever ports are discriminated.
  lemma {:induction false} ReloadedConsistent(s: State)
    requires Sound(s)
    ensures var l := Unserialize(s.config, Serialize(s));
      && l.Done? && (Sound(l.state) <==> Portless(s))
      && (Consistent(s) ==> (Consistent(l.state) <==> Portless(s)))
  {
    hide Unserialize, Serialize, DiskOrder, Reloaded, RandomOk, NewTableOk, TriedTableOk, EntryOk;
    RoundTrip(s);
    var r, o := Unserialize(s.config, Serialize(s)).state, DiskOrder(s);
    ConsistentSavable(s);
    ReloadedTimed(s, r, o);
    if Portless(s) {
      PortlessAddrOk(s, r, o);
      PortlessConsistent(s, r, o);
    }
    if Sound(r) { AddrOkPortless(s, r, o); }
  }

  lemma {:induction false} ReloadedTimed(s: State, r: State, o: Order)
    requires Reloaded(s, r, o)
    ensures r.key == s.key && (Timed(s) ==> Timed(r))
  {
    if Timed(s) {
      forall n | n in r.mapInfo ensures TimesOk(r.mapInfo[n]) {
        var k := o.ids[n];
        assert k in s.mapInfo && TimesOk(s.mapInfo[k]);
        assert r.mapInfo[n] == ReInfo(s, o, n, s.mapInfo[k].nRefCount);
      }
    }
  }

  // One address with a port, where ports are not told apart, is enough to lose consistency.
  lemma {:induction false} ReloadFails(config: Config, key: nat, addr: Address, source: NetAddr, now: int)
    requires config.Valid() && !config.discriminatePorts && key != 0
    requires config.routable(addr.service.ip) && addr.service.port != 0
    ensures Sound(Empty(config, key))
    ensures var s := Add(Empty(config, key), addr, source, 0, now, 0).0;
      && Consistent(s) && !Portless(s)
      && var l := Unserialize(config, Serialize(s)); l.Done? && !Consistent(l.state)
  {
    hide Add, Sound, Unserialize, Serialize;
    var e := Empty(config, key);
    EmptyConsistent(config, key);
    AddKeeps(e, addr, source, 0, now, 0);
    AddUnknown(e, addr, source, 0, now, 0);
    EmptyRival(config, key, addr.service, source);
    var s := Add(e, addr, source, 0, now, 0).0;
    assert s.mapInfo[0].service == addr.service;
    AddTimed(e, addr, source, 0, now, 0);
    ReloadedConsistent(s);
  }

  lemma {:induction false} EmptyRival(config: Config, key: nat, a: Service, source: NetAddr)
    requires config.Valid() && Sound(Empty(config, key))
    ensures Rival(Empty(config, key), a, source) == EMPTY
  {
  }

  lemma {:induction false} PortlessConsistent(s: State, r: State, o: Order)
    requires Sound(s) && Savable(s, o) && Reloaded(s, r, o) && AddrOk(r)
    ensures Sound(r)
  {
    ReloadedRandomOk(s, r, o);
    ReloadedTables(s, r, o);
    ReloadedCounts(s, r, o);
    forall n | n in r.mapInfo ensures EntryOk(r, {}, n) {
      var k := o.ids[n];
      assert k in s.mapInfo && EntryOk(s, {}, k);
      ReloadedEntry(s, r, o, n);
    }
  }

  lemma {:induction false} DiscriminatingIsPortless(s: State)
    requires s.config.discriminatePorts
    ensures Portless(s)
  {
  }
}
