/** The iterator over a transaction: it walks the transaction's writes and the parent's
    keys side by side and shows the smaller key, passing over parent keys that were
    deleted or overwritten. */
module DbIterator {
  import opened DbTransaction

  /* ---- positions in sorted key lists ---- */

  // First position whose key is not below the given one.
  function LowerBound(ks: seq<Key>, key: Key): (r: nat)
    ensures r <= |ks|
    ensures forall i :: 0 <= i < r ==> Less(ks[i], key)
    ensures r < |ks| ==> !Less(ks[r], key)
  {
    if ks == [] || !Less(ks[0], key) then 0
    else
      var r := LowerBound(ks[1..], key);
      assert forall i :: 1 <= i < r + 1 ==> ks[i] == ks[1..][i - 1];
      r + 1
  }

  lemma {:induction false} AboveLowerBound(ks: seq<Key>, key: Key, j: nat)
    requires Sorted(ks) && LowerBound(ks, key) <= j < |ks|
    ensures !Less(ks[j], key)
  {
    var r := LowerBound(ks, key);
    if r < j && Less(ks[j], key) { LessTransitive(ks[r], ks[j], key); }
  }

  // Keys still to be shown: the writes from position ti on, and from position pi on the
  // parent's keys that are neither deleted nor overwritten.
  ghost predicate Pending(w: seq<Key>, p: seq<Key>, hidden: set<Key>, ti: nat, pi: nat, k: Key) {
    || (exists i :: ti <= i < |w| && w[i] == k)
    || (k !in hidden && exists i :: pi <= i < |p| && p[i] == k)
  }

  // Positioned: the parent's position, if within its keys, is at a key to show.
  ghost predicate Positioned(w: seq<Key>, p: seq<Key>, hidden: set<Key>, ti: nat, pi: nat) {
    && Sorted(w) && Sorted(p) && ti <= |w| && pi <= |p|
    && (forall i :: 0 <= i < |w| ==> w[i] in hidden)
    && (pi < |p| ==> p[pi] !in hidden)
  }

  // The smaller of the two current keys, when there is one.
  function Current(w: seq<Key>, p: seq<Key>, ti: nat, pi: nat): Key
    requires ti <= |w| && pi <= |p| && (ti < |w| || pi < |p|)
  {
    if ti < |w| && (pi == |p| || Less(w[ti], p[pi])) then w[ti] else p[pi]
  }

  // It is pending and below every other pending key.
  lemma {:induction false} CurrentIsLeast(w: seq<Key>, p: seq<Key>, hidden: set<Key>, ti: nat, pi: nat, k: Key)
    requires Positioned(w, p, hidden, ti, pi) && (ti < |w| || pi < |p|)
    ensures Pending(w, p, hidden, ti, pi, Current(w, p, ti, pi))
    ensures Pending(w, p, hidden, ti, pi, k) ==> k == Current(w, p, ti, pi) || Less(Current(w, p, ti, pi), k)
  {
    var c := Current(w, p, ti, pi);
    if ti < |w| && pi < |p| { LessTotal(w[ti], p[pi]); }
    if Pending(w, p, hidden, ti, pi, k) && k != c {
      if i :| ti <= i < |w| && w[i] == k {
        if c != w[ti] && i > ti { LessTransitive(c, w[ti], k); }
      } else {
        var i :| pi <= i < |p| && p[i] == k;
        if c != p[pi] && i > pi { LessTransitive(c, p[pi], k); }
      }
    }
  }

  // Passing the current key leaves exactly the others.
  lemma {:induction false} PassWrite(w: seq<Key>, p: seq<Key>, hidden: set<Key>, ti: nat, pi: nat, k: Key)
    requires Positioned(w, p, hidden, ti, pi) && ti < |w|
    ensures Pending(w, p, hidden, ti + 1, pi, k) <==> Pending(w, p, hidden, ti, pi, k) && k != w[ti]
  {
    LessIrreflexive(w[ti]);
  }

  lemma {:induction false} PassParent(w: seq<Key>, p: seq<Key>, hidden: set<Key>, ti: nat, pi: nat, k: Key)
    requires Sorted(p) && ti <= |w| && pi < |p| && forall i :: 0 <= i < |w| ==> w[i] in hidden
    ensures Pending(w, p, hidden, ti, pi + 1, k) <==>
      Pending(w, p, hidden, ti, pi, k) && (k != p[pi] || p[pi] in hidden)
  {
    LessIrreflexive(p[pi]);
  }

  /* ---- the iterator ---- */

  class TransactionIterator {
    const tx: Transaction
    // The keys written and those of the parent, in byte order.
    const writeKeys: seq<Key>
    const parentKeys: seq<Key>
    var ti: nat
    var pi: nat
    var parentKey: Key
    var curIsParent: bool

    ghost predicate Fits()
      reads this, tx, tx.parent
    {
      && Lists(writeKeys, tx.writes.Keys) && Lists(parentKeys, tx.parent.data.Keys)
      && ti <= |writeKeys| && pi <= |parentKeys| && tx.writes.Keys !! tx.deletes
    }

    ghost function Hidden(): set<Key>
      reads tx
    {
      tx.deletes + tx.writes.Keys
    }

    ghost predicate ToShow(k: Key)
      reads this, tx
    {
      Pending(writeKeys, parentKeys, Hidden(), ti, pi, k)
    }

    // Fits, the parent's position is at a key to show, and the smaller key is current.
    ghost predicate Ready()
      reads this, tx, tx.parent
    {
      && Fits() && Positioned(writeKeys, parentKeys, Hidden(), ti, pi)
      && (pi < |parentKeys| ==> parentKey == parentKeys[pi])
      && (Valid() ==>
            (curIsParent <==> !(ti < |writeKeys| && (pi == |parentKeys| || Less(writeKeys[ti], parentKeys[pi])))))
    }

    constructor (tx: Transaction, writeKeys: seq<Key>, parentKeys: seq<Key>)
      requires Lists(writeKeys, tx.writes.Keys) && Lists(parentKeys, tx.parent.data.Keys)
      requires tx.writes.Keys !! tx.deletes
      ensures this.tx == tx && this.writeKeys == writeKeys && this.parentKeys == parentKeys && Ready() && !Valid()
    {
      this.tx, this.writeKeys, this.parentKeys := tx, writeKeys, parentKeys;
      ti, pi, parentKey, curIsParent := |writeKeys|, |parentKeys|, [], false;
    }

    predicate Valid()
      reads this
    {
      ti < |writeKeys| || pi < |parentKeys|
    }

    method SkipDeletedAndOverwritten()
      requires Fits()
      modifies this`pi, this`parentKey
      ensures Fits() && Positioned(writeKeys, parentKeys, Hidden(), ti, pi)
      ensures pi < |parentKeys| ==> parentKey == parentKeys[pi]
      ensures forall k :: ToShow(k) <==> old(ToShow(k))
      ensures pi >= old(pi)
    {
      hide Less, Pending;
      while pi < |parentKeys|
        invariant Fits() && pi >= old(pi)
        invariant forall k :: Pending(writeKeys, parentKeys, Hidden(), ti, pi, k) <==> old(ToShow(k))
        decreases |parentKeys| - pi
      {
        parentKey := parentKeys[pi];
        if parentKey !in tx.deletes && parentKey !in tx.writes { break; }
        forall k ensures Pending(writeKeys, parentKeys, Hidden(), ti, pi + 1, k) <==> old(ToShow(k)) {
          PassParent(writeKeys, parentKeys, Hidden(), ti, pi, k);
          PassedHidden(writeKeys, parentKeys, Hidden(), ti, pi, k);
        }
        pi := pi + 1;
      }
    }

    method DecideCur()
      requires Fits() && Positioned(writeKeys, parentKeys, Hidden(), ti, pi)
      requires (pi < |parentKeys| ==> parentKey == parentKeys[pi])
      modifies this`curIsParent
      ensures Ready()
    {
      hide Less;
      if ti != |writeKeys| && pi == |parentKeys| {
        curIsParent := false;
      } else if ti == |writeKeys| && pi < |parentKeys| {
        curIsParent := true;
      } else if ti != |writeKeys| && pi < |parentKeys| {
        curIsParent := !Less(writeKeys[ti], parentKey);
      }
    }

    // Positions at the first key of the view that is not below the given one.
    method Seek(key: Key)
      requires Fits()
      modifies this
      ensures Ready()
      ensures forall k :: ToShow(k) <==> k in tx.Shown() && !Less(k, key)
    {
      hide Less, LowerBound, Pending;
      ti := LowerBound(writeKeys, key);
      pi := LowerBound(parentKeys, key);
      forall k ensures ToShow(k) <==> k in tx.Shown() && !Less(k, key) {
        SeekShows(writeKeys, parentKeys, tx.writes.Keys, tx.parent.data.Keys, tx.deletes, key, k);
      }
      SkipDeletedAndOverwritten();
      DecideCur();
    }

    method GetKey() returns (key: Key)
      requires Ready()
      ensures !Valid() ==> key == []
      ensures Valid() ==> ToShow(key) && key == Current(writeKeys, parentKeys, ti, pi)
      ensures Valid() ==> forall k :: ToShow(k) ==> k == key || Less(key, k)
    {
      hide Less, Pending;
      if !Valid() { return []; }
      key := if curIsParent then parentKey else writeKeys[ti];
      forall k ensures ToShow(k) ==> k == key || Less(key, k) {
        CurrentIsLeast(writeKeys, parentKeys, Hidden(), ti, pi, k);
      }
      CurrentIsLeast(writeKeys, parentKeys, Hidden(), ti, pi, key);
    }

    // Moves past the current key and no other.
    method Next()
      requires Ready()
      modifies this
      ensures Ready()
      ensures old(Valid()) ==> forall k :: ToShow(k) <==>
        old(ToShow(k)) && k != old(Current(writeKeys, parentKeys, ti, pi))
      ensures !old(Valid()) ==> !Valid()
      ensures ti >= old(ti) && pi >= old(pi) && (old(Valid()) ==> ti + pi > old(ti) + old(pi))
    {
      hide Less, Pending;
      if ti == |writeKeys| && pi == |parentKeys| { return; }
      ghost var cur := Current(writeKeys, parentKeys, ti, pi);
      if curIsParent {
        forall k ensures Pending(writeKeys, parentKeys, Hidden(), ti, pi + 1, k) <==> old(ToShow(k)) && k != cur {
          PassParent(writeKeys, parentKeys, Hidden(), ti, pi, k);
        }
        pi := pi + 1;
        assert forall k :: ToShow(k) <==> old(ToShow(k)) && k != cur;
        SkipDeletedAndOverwritten();
        assert forall k :: ToShow(k) <==> old(ToShow(k)) && k != cur;
      } else {
        forall k ensures Pending(writeKeys, parentKeys, Hidden(), ti + 1, pi, k) <==> old(ToShow(k)) && k != cur {
          PassWrite(writeKeys, parentKeys, Hidden(), ti, pi, k);
        }
        ti := ti + 1;
        assert forall k :: ToShow(k) <==> old(ToShow(k)) && k != cur;
      }
      DecideCur();
    }

    // A whole walk shows every key of the view from the given one on, once each, in order.
    method Walk(key: Key) returns (shown: seq<Key>)
      requires Fits()
      modifies this
      ensures Sorted(shown)
      ensures forall k :: k in shown <==> k in tx.Shown() && !Less(k, key)
    {
      hide Less, Pending, View;
      shown := [];
      Seek(key);
      ghost var all := iset k | ToShow(k);
      while Valid()
        invariant Ready() && Sorted(shown)
        invariant forall k :: k in shown || ToShow(k) <==> k in all
        invariant forall i, k :: 0 <= i < |shown| && ToShow(k) ==> Less(shown[i], k)
        decreases |writeKeys| - ti + |parentKeys| - pi
      {
        var k := GetKey();
        shown := shown + [k];
        Next();
      }
      forall k ensures !ToShow(k) { NothingLeft(writeKeys, parentKeys, Hidden(), k); }
    }
  }

  lemma {:induction false} NothingLeft(w: seq<Key>, p: seq<Key>, hidden: set<Key>, k: Key)
    ensures !Pending(w, p, hidden, |w|, |p|, k)
  {
  }

  // A hidden parent key is pending, if at all, through the writes only.
  lemma {:induction false} PassedHidden(w: seq<Key>, p: seq<Key>, hidden: set<Key>, ti: nat, pi: nat, k: Key)
    requires pi < |p| && p[pi] in hidden
    ensures Pending(w, p, hidden, ti, pi, k) && k == p[pi] ==> Pending(w, p, hidden, ti, pi + 1, k)
  {
  }

  lemma {:induction false} SeekShows(w: seq<Key>, p: seq<Key>, writes: set<Key>, parent: set<Key>, deletes: set<Key>,
                                     key: Key, k: Key)
    requires Lists(w, writes) && Lists(p, parent) && writes !! deletes
    ensures Pending(w, p, deletes + writes, LowerBound(w, key), LowerBound(p, key), k)
       <==> ((k in parent && k !in deletes) || k in writes) && !Less(k, key)
  {
    if !Less(k, key) {
      if k in writes {
        var i :| 0 <= i < |w| && w[i] == k;
        assert LowerBound(w, key) <= i;
      } else if k in parent && k !in deletes {
        var i :| 0 <= i < |p| && p[i] == k;
        assert LowerBound(p, key) <= i;
      }
    }
    if Pending(w, p, deletes + writes, LowerBound(w, key), LowerBound(p, key), k) {
      if i :| LowerBound(w, key) <= i < |w| && w[i] == k {
        AboveLowerBound(w, key, i);
        assert w[i] in w;
      } else {
        var i :| LowerBound(p, key) <= i < |p| && p[i] == k;
        AboveLowerBound(p, key, i);
        assert p[i] in p;
      }
    }
  }
}
