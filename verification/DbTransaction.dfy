/** Database transactions: writes and deletes kept over a parent store until they are
    committed, and the iterator that merges the two in key order. */
module DbTransaction {
  import opened Options
  import opened Sums

  /* ---- keys ---- */

  type Key = seq<nat>

  // Byte order.
  predicate Less(a: Key, b: Key) {
    b != [] && (a == [] || a[0] < b[0] || (a[0] == b[0] && Less(a[1..], b[1..])))
  }

  lemma {:induction false} LessIrreflexive(a: Key)
    ensures !Less(a, a)
  {
    if a != [] { LessIrreflexive(a[1..]); }
  }

  lemma {:induction false} LessTransitive(a: Key, b: Key, c: Key)
    requires Less(a, b) && Less(b, c)
    ensures Less(a, c)
  {
    if a != [] && a[0] == b[0] == c[0] { LessTransitive(a[1..], b[1..], c[1..]); }
  }

  lemma {:induction false} LessTotal(a: Key, b: Key)
    ensures Less(a, b) || a == b || Less(b, a)
  {
    if a != [] && b != [] && a[0] == b[0] {
      LessTotal(a[1..], b[1..]);
      if a[1..] == b[1..] { assert a == [a[0]] + a[1..] && b == [b[0]] + b[1..]; }
    }
  }

  ghost predicate Sorted(ks: seq<Key>) { forall i, j :: 0 <= i < j < |ks| ==> Less(ks[i], ks[j]) }

  ghost predicate Lists(ks: seq<Key>, s: set<Key>) {
    Sorted(ks) && forall k :: k in ks <==> k in s
  }

  /* ---- overlays ---- */

  datatype Value = Value(data: nat, size: nat)

  type Store = map<Key, Value>

  // What reads through a transaction show.
  function View(parent: Store, writes: map<Key, Value>, deletes: set<Key>): Store { (parent - deletes) + writes }

  function KeySize(): Key -> nat { (k: Key) => |k| }
  function EntrySize(writes: map<Key, Value>): Key -> nat {
    (k: Key) => |k| + if k in writes then writes[k].size else 0
  }

  // Bytes of all keys and values held.
  ghost function Usage(writes: map<Key, Value>, deletes: set<Key>): nat {
    Sum(EntrySize(writes), writes.Keys) + Sum(KeySize(), deletes)
  }

  lemma {:induction false} UsageWrite(writes: map<Key, Value>, deletes: set<Key>, k: Key, v: Value)
    ensures Usage(writes[k := v], deletes - {k})
         == Usage(writes, deletes) - (if k in deletes then |k| else 0)
            - (if k in writes then |k| + writes[k].size else 0) + |k| + v.size
  {
    UsageErase(writes, deletes, k);
    var rest := writes - {k};
    var now := writes[k := v];
    assert now.Keys == rest.Keys + {k};
    SumWith(EntrySize(now), rest.Keys, k);
    SumSame(EntrySize(now), EntrySize(rest), rest.Keys);
  }

  // Dropping a key from both.
  lemma {:induction false} UsageErase(writes: map<Key, Value>, deletes: set<Key>, k: Key)
    ensures Sum(EntrySize(writes - {k}), (writes - {k}).Keys)
         == Sum(EntrySize(writes), writes.Keys) - if k in writes then |k| + writes[k].size else 0
    ensures Sum(KeySize(), deletes - {k}) == Sum(KeySize(), deletes) - if k in deletes then |k| else 0
  {
    var rest := writes - {k};
    if k in writes {
      assert rest.Keys == writes.Keys - {k};
      SumWithout(EntrySize(writes), writes.Keys, k);
    } else {
      assert rest.Keys == writes.Keys;
    }
    SumSame(EntrySize(writes), EntrySize(rest), rest.Keys);
    if k in deletes { SumWithout(KeySize(), deletes, k); } else { assert deletes - {k} == deletes; }
  }

  lemma {:induction false} UsageDelete(writes: map<Key, Value>, deletes: set<Key>, k: Key)
    ensures Usage(writes - {k}, deletes + {k})
         == Usage(writes, deletes) - (if k in writes then |k| + writes[k].size else 0) + if k in deletes then 0 else |k|
  {
    UsageErase(writes, deletes, k);
    SumWith(KeySize(), deletes - {k}, k);
    assert deletes - {k} + {k} == deletes + {k};
  }

  lemma {:induction false} ViewWrite(parent: Store, writes: map<Key, Value>, deletes: set<Key>, k: Key, v: Value)
    ensures View(parent, writes[k := v], deletes - {k}) == View(parent, writes, deletes)[k := v]
  {
  }

  lemma {:induction false} ViewErase(parent: Store, writes: map<Key, Value>, deletes: set<Key>, k: Key)
    ensures View(parent, writes - {k}, deletes + {k}) == View(parent, writes, deletes) - {k}
  {
  }

  /* ---- stores and transactions ---- */

  // The store once all but the given keys were written.
  ghost function Partly(start: Store, writes: map<Key, Value>, todo: set<Key>): Store { start + (writes - todo) }

  lemma {:induction false} OneMoreWritten(start: Store, writes: map<Key, Value>, todo: set<Key>, k: Key)
    requires todo <= writes.Keys && k in todo
    ensures Partly(start, writes, todo)[k := writes[k]] == Partly(start, writes, todo - {k})
  {
  }

  lemma {:induction false} NoneWritten(start: Store, writes: map<Key, Value>)
    ensures Partly(start, writes, writes.Keys) == start
  {
  }

  lemma {:induction false} AllWritten(start: Store, writes: map<Key, Value>)
    ensures Partly(start, writes, {}) == start + writes
  {
    assert writes - {} == writes;
  }

  class Database {
    var data: Store

    constructor ()
      ensures data == map[]
    {
      data := map[];
    }

    method Write(k: Key, v: Value)
      modifies this
      ensures data == old(data)[k := v]
    {
      data := data[k := v];
    }

    method Erase(k: Key)
      modifies this
      ensures data == old(data) - {k}
    {
      data := data - {k};
    }
  }

  function Lookup(s: Store, k: Key): Option<Value> { if k in s then Some(s[k]) else None }

  class Transaction {
    const parent: Database
    const commitTarget: Database
    var writes: map<Key, Value>
    var deletes: set<Key>
    var memoryUsage: int

    // No key is both written and deleted, and the memory used is accounted exactly.
    ghost predicate Valid()
      reads this
    {
      writes.Keys !! deletes && memoryUsage == Usage(writes, deletes)
    }

    ghost function Shown(): Store
      reads this, parent
    {
      View(parent.data, writes, deletes)
    }

    constructor (parent: Database, commitTarget: Database)
      ensures Valid() && this.parent == parent && this.commitTarget == commitTarget
      ensures Shown() == parent.data && writes == map[] && deletes == {}
    {
      this.parent, this.commitTarget := parent, commitTarget;
      writes, deletes, memoryUsage := map[], {}, 0;
    }

    method Write(k: Key, v: Value)
      requires Valid()
      modifies this
      ensures Valid() && Shown() == old(Shown())[k := v]
    {
      hide Usage, View;
      UsageWrite(writes, deletes, k, v);
      ViewWrite(parent.data, writes, deletes, k, v);
      assert k !in deletes ==> deletes - {k} == deletes;
      if k in deletes {
        deletes := deletes - {k};
        memoryUsage := memoryUsage - |k|;
      }
      if k in writes {
        memoryUsage := memoryUsage - (|k| + writes[k].size);
      }
      writes := writes[k := v];
      memoryUsage := memoryUsage + |k| + v.size;
    }

    method Erase(k: Key)
      requires Valid()
      modifies this
      ensures Valid() && Shown() == old(Shown()) - {k}
    {
      hide Usage, View;
      UsageDelete(writes, deletes, k);
      ViewErase(parent.data, writes, deletes, k);
      assert k !in writes ==> writes - {k} == writes;
      assert k in deletes ==> deletes + {k} == deletes;
      if k in writes {
        memoryUsage := memoryUsage - (|k| + writes[k].size);
        writes := writes - {k};
      }
      if k !in deletes {
        deletes := deletes + {k};
        memoryUsage := memoryUsage + |k|;
      }
    }

    method Read(k: Key) returns (r: Option<Value>)
      requires Valid()
      ensures r == Lookup(Shown(), k)
    {
      if k in deletes { return None; }
      if k in writes { return Some(writes[k]); }
      r := Lookup(parent.data, k);
    }

    method Exists(k: Key) returns (r: bool)
      requires Valid()
      ensures r <==> k in Shown()
    {
      if k in deletes { return false; }
      if k in writes { return true; }
      r := k in parent.data;
    }

    method Clear()
      modifies this
      ensures Valid() && writes == map[] && deletes == {}
    {
      writes, deletes, memoryUsage := map[], {}, 0;
    }

    // Brings the target to the view: the parent's own view when it is the target.
    method Commit()
      requires Valid()
      modifies this, commitTarget
      ensures Valid() && writes == map[] && deletes == {} && memoryUsage == 0
      ensures commitTarget.data == View(old(commitTarget.data), old(writes), old(deletes))
      ensures commitTarget == parent ==> parent.data == old(Shown()) == Shown()
    {
      CommitDeletes();
      CommitWrites();
      Clear();
    }

    method CommitDeletes()
      modifies commitTarget
      ensures commitTarget.data == old(commitTarget.data) - deletes
    {
      ghost var start := commitTarget.data;
      var todo := deletes;
      while todo != {}
        invariant todo <= deletes && commitTarget.data == start - (deletes - todo)
        decreases |todo|
      {
        var k :| k in todo;
        commitTarget.Erase(k);
        todo := todo - {k};
      }
      assert deletes - todo == deletes;
    }

    method CommitWrites()
      modifies commitTarget
      ensures commitTarget.data == old(commitTarget.data) + writes
    {
      hide Partly;
      ghost var start := commitTarget.data;
      var todo := writes.Keys;
      NoneWritten(start, writes);
      while todo != {}
        invariant todo <= writes.Keys && commitTarget.data == Partly(start, writes, todo)
        decreases |todo|
      {
        var k :| k in todo;
        OneMoreWritten(start, writes, todo, k);
        commitTarget.Write(k, writes[k]);
        todo := todo - {k};
      }
      AllWritten(start, writes);
    }
  }
}
