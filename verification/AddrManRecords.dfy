/** What the address manager records of an address: what each operation changes in an entry, and
    what an entry holds after any run. */
module AddrManRecords {
  import opened Options
  import opened AddrManState
  import opened AddrManSteps
  import opened AddrManOps

  // The entry found for a service, port included, is the one that has it.
  lemma {:induction false} ExactFinds(s: State, a: Service, k: int)
    requires AddrOk(s) && k in s.mapInfo
    ensures FindExact(s, a) == Some(k) <==> s.mapInfo[k].service == a
  {
  }

  lemma {:induction false} ExactMissing(s: State, a: Service)
    requires AddrOk(s) && FindExact(s, a).None?
    ensures forall k :: k in s.mapInfo ==> s.mapInfo[k].service != a
  {
    forall k | k in s.mapInfo ensures s.mapInfo[k].service != a { ExactFinds(s, a, k); }
  }

  /* ---- one operation ---- */

  // No id is given out and no entry added.
  ghost predicate Kept(s: State, r: State) {
    r.nIdCount == s.nIdCount && r.mapInfo.Keys <= s.mapInfo.Keys
  }

  // Good_ sets the time of the last success of all, of any address, known or not. Of the
  // entries only the one with the very service changes.
  lemma {:induction false} GoodRecords(s: State, a: Service, nTime: int)
    requires Sound(s)
    ensures var r := Good(s, a, nTime);
      && Kept(s, r) && r.nLastGood == nTime
      && forall k :: k in r.mapInfo ==>
           var was := s.mapInfo[k];
           SameRecord(if was.service == a then was.(nLastSuccess := nTime, nLastTry := nTime, nAttempts := 0) else was,
                      r.mapInfo[k])
  {
    hide Sound, MakeTried, RecordsFrom, FindExact;
    SoundAddr(s);
    var m := Marked(s, a, nTime);
    MarkedRecords(s, a, nTime);
    MarkedKeeps(s, a, nTime);
    match Untried(m, a)
    case None =>
    case Some(id) =>
      MakeTriedRecords(m, id);
      RecordsKept(m, MakeTried(m, id), id);
  }

  lemma {:induction false} SoundAddr(s: State)
    requires Sound(s)
    ensures AddrOk(s) && RandomOk(s)
  {
  }

  lemma {:induction false} RecordsKept(s: State, r: State, id: int)
    requires RecordsFrom(s, r, id)
    ensures Kept(s, r) && r.nLastGood == s.nLastGood
    ensures forall k :: k in r.mapInfo ==> SameRecord(s.mapInfo[k], r.mapInfo[k])
  {
    assert forall k :: k in r.mapInfo.Keys ==> k in s.mapInfo;
  }

  lemma {:induction false} MarkedRecords(s: State, a: Service, nTime: int)
    requires AddrOk(s)
    ensures var m := Marked(s, a, nTime);
      && m.nIdCount == s.nIdCount && m.mapInfo.Keys == s.mapInfo.Keys && m.nLastGood == nTime
      && forall k :: k in m.mapInfo ==>
           var was := s.mapInfo[k];
           m.mapInfo[k]
             == if was.service == a then was.(nLastSuccess := nTime, nLastTry := nTime, nAttempts := 0) else was
  {
    hide AddrOk, FindExact;
    if FindExact(s, a).None? { ExactMissing(s, a); }
    forall k | k in s.mapInfo ensures FindExact(s, a) == Some(k) <==> s.mapInfo[k].service == a {
      ExactFinds(s, a, k);
    }
  }

  // An attempt is a try, and a failure only if none was counted since the last success of all.
  lemma {:induction false} AttemptRecords(s: State, a: Service, fCountFailure: bool, nTime: int)
    requires AddrOk(s)
    ensures var r := Attempt(s, a, fCountFailure, nTime);
      && r == s.(mapInfo := r.mapInfo) && r.mapInfo.Keys == s.mapInfo.Keys
      && forall k :: k in s.mapInfo ==>
           var was := s.mapInfo[k];
           if was.service != a then r.mapInfo[k] == was
           else if fCountFailure && was.nLastCountAttempt < s.nLastGood
           then r.mapInfo[k]
                  == was.(nLastTry := nTime, nLastCountAttempt := nTime, nAttempts := was.nAttempts + 1)
           else r.mapInfo[k] == was.(nLastTry := nTime)
  {
    hide AddrOk, FindExact;
    if FindExact(s, a).None? { ExactMissing(s, a); }
    forall k | k in s.mapInfo ensures FindExact(s, a) == Some(k) <==> s.mapInfo[k].service == a {
      ExactFinds(s, a, k);
    }
  }

  // The time an address was last seen moves only when it is more than twenty minutes behind.
  lemma {:induction false} ConnectedRecords(s: State, a: Service, nTime: int)
    requires AddrOk(s)
    ensures var r := Connected(s, a, nTime);
      && r == s.(mapInfo := r.mapInfo) && r.mapInfo.Keys == s.mapInfo.Keys
      && forall k :: k in s.mapInfo ==>
           r.mapInfo[k] == if s.mapInfo[k].service == a && s.mapInfo[k].nTime + 1200 < nTime
                           then s.mapInfo[k].(nTime := nTime) else s.mapInfo[k]
  {
    hide AddrOk, FindExact;
    if FindExact(s, a).None? { ExactMissing(s, a); }
    forall k | k in s.mapInfo ensures FindExact(s, a) == Some(k) <==> s.mapInfo[k].service == a {
      ExactFinds(s, a, k);
    }
  }

  lemma {:induction false} SetServicesRecords(s: State, a: Service, nServices: set<nat>)
    requires AddrOk(s)
    ensures var r := SetServices(s, a, nServices);
      && r == s.(mapInfo := r.mapInfo) && r.mapInfo.Keys == s.mapInfo.Keys
      && forall k :: k in s.mapInfo ==>
           r.mapInfo[k] == if s.mapInfo[k].service == a then s.mapInfo[k].(nServices := nServices) else s.mapInfo[k]
  {
    hide AddrOk, FindExact;
    if FindExact(s, a).None? { ExactMissing(s, a); }
    forall k | k in s.mapInfo ensures FindExact(s, a) == Some(k) <==> s.mapInfo[k].service == a {
      ExactFinds(s, a, k);
    }
  }

  /* ---- adding ---- */

  // What an announcement is taken to say of the time, told by another or by the address itself.
  function Announced(addr: Address, source: NetAddr, nTimePenalty: int): int {
    Max(0, addr.nTime - if addr.service.ip == source then 0 else nTimePenalty)
  }

  // A known address gains flags, loses none, and takes the announced time only if its own is
  // unset, or behind by an hour more than the penalty, or a day more if the time is a day old.
  ghost predicate KnownRecord(was: Info, now: Info, addr: Address, source: NetAddr, nTimePenalty: int, clock: int) {
    var penalty := if addr.service.ip == source then 0 else nTimePenalty;
    var slack := if clock - addr.nTime < 86400 then 3600 else 86400;
    && SameRecord(was.(nTime := now.nTime, nServices := was.nServices + addr.nServices), now)
    && (now.nTime == was.nTime || now.nTime == Announced(addr, source, nTimePenalty))
    && (addr.nTime != 0 && (was.nTime == 0 || was.nTime + slack + penalty < addr.nTime) ==>
          now.nTime == Announced(addr, source, nTimePenalty))
    && (addr.nTime == 0 || (was.nTime != 0 && was.nTime + slack + penalty >= addr.nTime) ==> now.nTime == was.nTime)
  }

  // The entry of an address that was not known.
  ghost predicate NewRecord(now: Info, addr: Address, source: NetAddr, nTimePenalty: int) {
    && now.service == addr.service && now.nServices == addr.nServices && now.source == source
    && now.nTime == Announced(addr, source, nTimePenalty)
    && now.nLastSuccess == 0 && now.nLastTry == 0 && now.nAttempts == 0 && now.nLastCountAttempt == 0
  }

  lemma {:induction false} RefreshedRecord(info: Info, addr: Address, source: NetAddr, nTimePenalty: int, now: int)
    ensures KnownRecord(info, Refreshed(info, addr, if addr.service.ip == source then 0 else nTimePenalty, now), addr,
                        source, nTimePenalty, now)
  {
  }

  lemma {:induction false} KnownRecordKept(was: Info, mid: Info, end: Info, addr: Address, source: NetAddr,
                                           nTimePenalty: int, clock: int)
    requires KnownRecord(was, mid, addr, source, nTimePenalty, clock) && SameRecord(mid, end)
    ensures KnownRecord(was, end, addr, source, nTimePenalty, clock)
  {
  }

  // An address that is not routable leaves no trace, any other changes what is recorded of the
  // address with its key, or begins a record under a new id, and of no other.
  lemma {:induction false} AddRecords(s: State, addr: Address, source: NetAddr, nTimePenalty: int, now: int, pick: nat)
    requires Sound(s)
    ensures var r := Add(s, addr, source, nTimePenalty, now, pick).0;
      && r.nLastGood == s.nLastGood && s.nIdCount <= r.nIdCount
      && (!s.config.routable(addr.service.ip) ==> r == s)
      && forall k :: k in r.mapInfo ==>
           if k !in s.mapInfo then k == s.nIdCount && NewRecord(r.mapInfo[k], addr, source, nTimePenalty)
           else if s.config.routable(addr.service.ip)
                   && s.config.Squash(s.mapInfo[k].service) == s.config.Squash(addr.service)
           then KnownRecord(s.mapInfo[k], r.mapInfo[k], addr, source, nTimePenalty, now)
           else SameRecord(s.mapInfo[k], r.mapInfo[k])
  {
    hide Sound, TryPlace, RecordsFrom, KnownRecord, AddrOk, RandomOk, Find;
    SoundAddr(s);
    if s.config.routable(addr.service.ip) {
      if Find(s, addr.service).Some? {
        AddKnownRecords(s, addr, source, nTimePenalty, now, pick);
      } else {
        AddNewRecords(s, addr, source, nTimePenalty, now, pick);
      }
    }
  }

  lemma {:induction false} AddKnownRecords(s: State, addr: Address, source: NetAddr, nTimePenalty: int, now: int,
                                           pick: nat)
    requires Sound(s) && s.config.routable(addr.service.ip) && Find(s, addr.service).Some?
    ensures var r := Add(s, addr, source, nTimePenalty, now, pick).0;
      && r.nLastGood == s.nLastGood && s.nIdCount == r.nIdCount && r.mapInfo.Keys <= s.mapInfo.Keys
      && forall k :: k in r.mapInfo ==>
           if s.config.Squash(s.mapInfo[k].service) == s.config.Squash(addr.service)
           then KnownRecord(s.mapInfo[k], r.mapInfo[k], addr, source, nTimePenalty, now)
           else SameRecord(s.mapInfo[k], r.mapInfo[k])
  {
    hide Sound, Add, TryPlace, RecordsFrom, KnownRecord, SameRecord, Refreshed, Find, Midway;
    SoundAddr(s);
    var id := Find(s, addr.service).value;
    OneWithKey(s, addr.service, id);
    var penalty := if addr.service.ip == source then 0 else nTimePenalty;
    var info := Refreshed(s.mapInfo[id], addr, penalty, now);
    AddIsRefreshed(s, addr, source, nTimePenalty, now, pick, id, info);
    RefreshedRecord(s.mapInfo[id], addr, source, nTimePenalty, now);
    var r := Add(s, addr, source, nTimePenalty, now, pick).0;
    if id in r.mapInfo {
      KnownRecordKept(s.mapInfo[id], info, r.mapInfo[id], addr, source, nTimePenalty, now);
    }
  }

  lemma {:induction false} OneWithKey(s: State, a: Service, id: int)
    requires AddrOk(s) && Find(s, a) == Some(id)
    ensures id in s.mapInfo
    ensures forall k :: k in s.mapInfo ==> (k == id <==> s.config.Squash(s.mapInfo[k].service) == s.config.Squash(a))
  {
    hide AddrOk, Find;
    FindFinds(s, a, id);
    forall k | k in s.mapInfo ensures k == id <==> s.config.Squash(s.mapInfo[k].service) == s.config.Squash(a) {
      FindFinds(s, a, k);
    }
  }

  // Adding a known address refreshes its entry, and what is recorded stays so when it gets a slot.
  lemma {:induction false} AddIsRefreshed(s: State, addr: Address, source: NetAddr, nTimePenalty: int, now: int,
                                          pick: nat, id: int, info: Info)
    requires Sound(s) && s.config.routable(addr.service.ip) && Find(s, addr.service) == Some(id) && id in s.mapInfo
    requires info == Refreshed(s.mapInfo[id], addr, if addr.service.ip == source then 0 else nTimePenalty, now)
    ensures var r := Add(s, addr, source, nTimePenalty, now, pick).0;
      && r.nLastGood == s.nLastGood && s.nIdCount == r.nIdCount && r.mapInfo.Keys <= s.mapInfo.Keys
      && forall k :: k in r.mapInfo ==> SameRecord(if k == id then info else s.mapInfo[k], r.mapInfo[k])
  {
    hide Sound, Inv, Add, TryPlace, RecordsFrom, Refreshed, Find, Midway, NoMoreSlots;
    var t := Touch(s, id, info);
    AddKnownIs(s, addr, source, nTimePenalty, now, pick, id, info);
    TryPlaceRecords(t, id, source, now);
    RecordsKept(t, TryPlace(t, id, source, now), EMPTY);
  }

  lemma {:induction false} AddKnownIs(s: State, addr: Address, source: NetAddr, nTimePenalty: int, now: int, pick: nat,
                                      id: int, info: Info)
    requires Sound(s) && s.config.routable(addr.service.ip) && Find(s, addr.service) == Some(id) && id in s.mapInfo
    requires info == Refreshed(s.mapInfo[id], addr, if addr.service.ip == source then 0 else nTimePenalty, now)
    ensures var t := Touch(s, id, info);
      Midway(t) && Add(s, addr, source, nTimePenalty, now, pick).0 in {t, TryPlace(t, id, source, now)}
  {
    hide Inv, TryPlace, Refreshed, Find, Midway, NoMoreSlots;
    RefreshKeeps(s, id, addr, if addr.service.ip == source then 0 else nTimePenalty, now);
    InvIsMidway(Touch(s, id, info), {}, 0);
  }

  lemma {:induction false} AddNewRecords(s: State, addr: Address, source: NetAddr, nTimePenalty: int, now: int,
                                         pick: nat)
    requires Sound(s) && s.config.routable(addr.service.ip) && Find(s, addr.service).None?
    ensures var r := Add(s, addr, source, nTimePenalty, now, pick).0;
      && r.nLastGood == s.nLastGood && r.nIdCount == s.nIdCount + 1
      && forall k :: k in r.mapInfo ==>
           if k in s.mapInfo
           then SameRecord(s.mapInfo[k], r.mapInfo[k])
                && s.config.Squash(s.mapInfo[k].service) != s.config.Squash(addr.service)
           else k == s.nIdCount && NewRecord(r.mapInfo[k], addr, source, nTimePenalty)
  {
    hide Sound, Inv, Add, TryPlace, RecordsFrom, Find, Midway;
    SoundAddr(s);
    forall k | k in s.mapInfo ensures s.config.Squash(s.mapInfo[k].service) != s.config.Squash(addr.service) {
      FindFinds(s, addr.service, k);
    }
    var c := CreateCounted(s, addr, source, if addr.service.ip == source then 0 else nTimePenalty);
    AddNewIs(s, addr, source, nTimePenalty, now, pick);
    TryPlaceRecords(c, s.nIdCount, source, now);
    RecordsKept(c, TryPlace(c, s.nIdCount, source, now), EMPTY);
  }

  lemma {:induction false} AddNewIs(s: State, addr: Address, source: NetAddr, nTimePenalty: int, now: int, pick: nat)
    requires Sound(s) && s.config.routable(addr.service.ip) && Find(s, addr.service).None?
    ensures var c := CreateCounted(s, addr, source, if addr.service.ip == source then 0 else nTimePenalty);
      && s.nIdCount in c.mapInfo && Midway(c)
      && Add(s, addr, source, nTimePenalty, now, pick).0 == TryPlace(c, s.nIdCount, source, now)
  {
    hide Inv, TryPlace, Find, Midway;
    var penalty := if addr.service.ip == source then 0 else nTimePenalty;
    SoundAddr(s);
    NotFound(s, addr.service);
    CreateCountedKeeps(s, addr, source, penalty);
    InvIsMidway(CreateCounted(s, addr, source, penalty), {s.nIdCount}, 1);
  }

  /* ---- every run ---- */

  function LastGood(g: int, ops: seq<Op>): int {
    if ops == [] then g
    else match ops[|ops| - 1] case OpGood(_, t) => t case _ => LastGood(g, ops[..|ops| - 1])
  }

  function LastSuccess(x: int, a: Service, ops: seq<Op>): int {
    if ops == [] then x
    else
      match ops[|ops| - 1]
      case OpGood(b, t) => if a == b then t else LastSuccess(x, a, ops[..|ops| - 1])
      case _ => LastSuccess(x, a, ops[..|ops| - 1])
  }

  function LastTry(x: int, a: Service, ops: seq<Op>): int {
    if ops == [] then x
    else
      match ops[|ops| - 1]
      case OpGood(b, t) => if a == b then t else LastTry(x, a, ops[..|ops| - 1])
      case OpAttempt(b, _, t) => if a == b then t else LastTry(x, a, ops[..|ops| - 1])
      case _ => LastTry(x, a, ops[..|ops| - 1])
  }

  // After ops, op is a failure to count: the last one counted is before the last success of all.
  predicate Counts(g: int, c: int, a: Service, ops: seq<Op>, op: Op)
    decreases |ops|, 1
  {
    op.OpAttempt? && op.service == a && op.fCountFailure && LastCounted(g, c, a, ops) < LastGood(g, ops)
  }

  function LastCounted(g: int, c: int, a: Service, ops: seq<Op>): int
    decreases |ops|, 0
  {
    if ops == [] then c
    else if Counts(g, c, a, ops[..|ops| - 1], ops[|ops| - 1]) then ops[|ops| - 1].nTime
    else LastCounted(g, c, a, ops[..|ops| - 1])
  }

  // The failures counted since the last success of this address.
  function Failures(g: int, c: int, n: int, a: Service, ops: seq<Op>): int {
    if ops == [] then n
    else if ops[|ops| - 1].OpGood? && ops[|ops| - 1].service == a then 0
    else
      Failures(g, c, n, a, ops[..|ops| - 1]) + if Counts(g, c, a, ops[..|ops| - 1], ops[|ops| - 1]) then 1 else 0
  }

  lemma {:induction false} RunLast(s: State, ops: seq<Op>)
    requires Consistent(s) && Admissible(s, ops) && ops != []
    ensures var front := ops[..|ops| - 1];
      && Admissible(s, front) && ops[|ops| - 1].Valid(Run(s, front))
      && Run(s, ops) == Step(Run(s, front), ops[|ops| - 1])
    decreases |ops|
  {
    hide Consistent, Step;
    var front := ops[..|ops| - 1];
    if |ops| > 1 {
      RunLast(Step(s, ops[0]), ops[1..]);
      assert front[1..] == ops[1..][..|ops[1..]| - 1];
    } else {
      assert ops[1..] == [];
    }
  }

  // One operation, for one entry.
  lemma {:induction false} StepRecords(s: State, op: Op, k: int)
    requires Consistent(s) && op.Valid(s)
    ensures var r := Step(s, op);
      && r.nLastGood == (if op.OpGood? then op.nTime else s.nLastGood) && s.nIdCount <= r.nIdCount
      && (k in r.mapInfo && k !in s.mapInfo ==> k >= s.nIdCount)
      && (k in r.mapInfo && k in s.mapInfo ==>
            var was, now := s.mapInfo[k], r.mapInfo[k];
            var mine := (op.OpGood? || op.OpAttempt?) && op.service == was.service;
            var counted := mine && op.OpAttempt? && op.fCountFailure && was.nLastCountAttempt < s.nLastGood;
            && now.service == was.service && now.source == was.source
            && now.nLastSuccess == (if mine && op.OpGood? then op.nTime else was.nLastSuccess)
            && now.nLastTry == (if mine then op.nTime else was.nLastTry)
            && now.nLastCountAttempt == (if counted then op.nTime else was.nLastCountAttempt)
            && now.nAttempts
                 == if mine && op.OpGood? then 0 else if counted then was.nAttempts + 1 else was.nAttempts)
  {
    hide Sound, Add, Good, Attempt, Connected, SetServices, Shuffle, Timed, AddrOk, RandomOk;
    SoundAddr(s);
    match op
    case OpAdd(addr, source, penalty, now, pick) => AddRecords(s, addr, source, penalty, now, pick);
    case OpGood(a, t) => GoodRecords(s, a, t);
    case OpAttempt(a, f, t) => AttemptRecords(s, a, f, t);
    case OpConnected(a, t) => ConnectedRecords(s, a, t);
    case OpSetServices(a, f) => SetServicesRecords(s, a, f);
    case OpGetAddr(picks) => ShuffleReorders(s, 0, picks);
  }

  // After any run, an entry that was there at the beginning holds the times of the last success
  // and the last try of its address, the failures counted since that success, and the time of
  // the last of them; and the manager the time of the last success of all.
  lemma {:induction false} RunRecords(s: State, ops: seq<Op>, id: int)
    requires Consistent(s) && Admissible(s, ops) && id in s.mapInfo
    ensures var r, was := Run(s, ops), s.mapInfo[id];
      && r.nLastGood == LastGood(s.nLastGood, ops) && s.nIdCount <= r.nIdCount
      && (id in r.mapInfo ==>
            var now, a := r.mapInfo[id], was.service;
            && now.service == a && now.source == was.source
            && now.nLastSuccess == LastSuccess(was.nLastSuccess, a, ops)
            && now.nLastTry == LastTry(was.nLastTry, a, ops)
            && now.nLastCountAttempt == LastCounted(s.nLastGood, was.nLastCountAttempt, a, ops)
            && now.nAttempts == Failures(s.nLastGood, was.nLastCountAttempt, was.nAttempts, a, ops))
    decreases |ops|
  {
    hide Consistent, Step;
    if ops != [] {
      var front := ops[..|ops| - 1];
      RunLast(s, ops);
      RunRecords(s, front, id);
      StepRecords(Run(s, front), ops[|ops| - 1], id);
      IdsBelow(s, id);
    }
  }

  lemma {:induction false} IdsBelow(s: State, id: int)
    requires Consistent(s) && id in s.mapInfo
    ensures id < s.nIdCount
  {
  }

  // While no success of any address is recorded and the clock does not go back, at most one
  // failure of an address is counted.
  lemma {:induction false} OneFailureCounted(g: int, c: int, n: int, a: Service, ops: seq<Op>)
    requires forall i :: 0 <= i < |ops| ==> !ops[i].OpGood?
    requires forall i :: 0 <= i < |ops| && ops[i].OpAttempt? ==> g <= ops[i].nTime
    ensures LastGood(g, ops) == g
    ensures Failures(g, c, n, a, ops) == n || Failures(g, c, n, a, ops) == n + 1
    ensures Failures(g, c, n, a, ops) == n + 1 ==> LastCounted(g, c, a, ops) >= g
    ensures Failures(g, c, n, a, ops) == n ==> LastCounted(g, c, a, ops) == c
    decreases |ops|
  {
    if ops != [] {
      var front := ops[..|ops| - 1];
      assert forall i :: 0 <= i < |front| ==> front[i] == ops[i];
      OneFailureCounted(g, c, n, a, front);
    }
  }
}
