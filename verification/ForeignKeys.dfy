/** Tables with foreign keys that are checked with each row, and what folding a list of entities into them does. */
module ForeignKeys {
  import opened Wrappers

  /** Every reference of every row is to a row. */
  ghost predicate Intact<K(!new), R(!new)>(t: map<K, R>, refs: (K, R) -> set<K>) {
    forall k :: k in t ==> refs(k, t[k]) <= t.Keys
  }

  /** The tables with one row written, or deleted when there is none. */
  function Changed<K, R>(t: map<K, R>, key: K, row: Option<R>): map<K, R> {
    if row.Some? then t[key := row.value] else t - {key}
  }

  /** The change, if the references of a row written are to rows, and none is to a row deleted. */
  function Put<K, R>(t: map<K, R>, refs: (K, R) -> set<K>, key: K, row: Option<R>): Option<map<K, R>> {
    var fits := if row.Some? then refs(key, row.value) <= t.Keys + {key}
                else forall k :: k in t && k != key ==> key !in refs(k, t[k]);
    if fits then Some(Changed(t, key, row)) else None
  }

  /** One entity after the other; what cannot be written fails all of it. */
  function PutAll<K, R>(t: map<K, R>, refs: (K, R) -> set<K>, rows: K -> Option<R>, order: seq<K>): Option<map<K, R>>
    decreases |order|
  {
    if order == [] then Some(t)
    else
      match Put(t, refs, order[0], rows(order[0]))
      case None => None
      case Some(next) => PutAll(next, refs, rows, order[1..])
  }

  /** The tables in which all of the keys have their rows, or none. */
  function After<K, R>(t: map<K, R>, rows: K -> Option<R>, keys: seq<K>): map<K, R> {
    map k | k in t.Keys + Present(rows, keys) && (k in keys ==> rows(k).Some?) ::
      if k in keys then rows(k).value else t[k]
  }

  /** The keys that have a row. */
  function Present<K, R>(rows: K -> Option<R>, keys: seq<K>): set<K> {
    set k | k in keys && rows(k).Some?
  }

  /** A change succeeds exactly when it leaves the tables intact. */
  lemma PutIsIntactIff<K(!new), R(!new)>(t: map<K, R>, refs: (K, R) -> set<K>, key: K, row: Option<R>)
    requires Intact(t, refs)
    ensures Put(t, refs, key, row).Some? <==> Intact(Changed(t, key, row), refs)
  {
    var next := Changed(t, key, row);
    if row.Some? {
      assert next.Keys == t.Keys + {key};
      if Intact(next, refs) {
        assert refs(key, next[key]) <= next.Keys;
      }
    } else {
      assert next.Keys == t.Keys - {key};
      forall k | k in next ensures refs(k, next[k]) <= next.Keys <==> key !in refs(k, t[k]) {
        assert refs(k, t[k]) <= t.Keys;
      }
    }
  }

  lemma AfterOne<K, R>(t: map<K, R>, rows: K -> Option<R>, keys: seq<K>, first: K)
    ensures After(Changed(t, first, rows(first)), rows, keys) == After(t, rows, [first] + keys)
  {
    var one, all := After(Changed(t, first, rows(first)), rows, keys), After(t, rows, [first] + keys);
    forall k ensures (k in one <==> k in all) && (k in one ==> one[k] == all[k]) {
      assert k in [first] + keys <==> k == first || k in keys;
    }
  }

  lemma AfterMore<K, R>(t: map<K, R>, rows: K -> Option<R>, order: seq<K>, i: nat)
    requires 1 <= i <= |order|
    ensures After(t, rows, order[..i]) == After(Changed(t, order[0], rows(order[0])), rows, order[1..][..i - 1])
  {
    AfterOne(t, rows, order[1..][..i - 1], order[0]);
    assert order[..i] == [order[0]] + order[1..][..i - 1];
  }

  lemma AfterNone<K, R>(t: map<K, R>, rows: K -> Option<R>)
    ensures After(t, rows, []) == t
  {
  }

  /** Folding entities succeeds exactly when the tables are intact after each of them. */
  lemma {:induction false} PutAllIff<K(!new), R(!new)>(t: map<K, R>, refs: (K, R) -> set<K>, rows: K -> Option<R>, order: seq<K>)
    requires Intact(t, refs)
    ensures PutAll(t, refs, rows, order).Some? <==> forall i :: 0 <= i <= |order| ==> Intact(After(t, rows, order[..i]), refs)
    decreases |order|
  {
    AfterNone(t, rows);
    if order == [] {
      assert order[..0] == [];
    } else {
      var next := Changed(t, order[0], rows(order[0]));
      PutIsIntactIff(t, refs, order[0], rows(order[0]));
      assert order[..0] == [];
      forall i | 1 <= i <= |order| ensures After(t, rows, order[..i]) == After(next, rows, order[1..][..i - 1]) {
        AfterMore(t, rows, order, i);
      }
      AfterNone(next, rows);
      assert order[1..][..0] == [];
      assert After(t, rows, order[..1]) == next;
      if Intact(next, refs) {
        PutAllIff(next, refs, rows, order[1..]);
        SameUpToOne(t, refs, rows, order, next);
      }
    }
  }

  /** And then it leaves each with its row, or none. */
  lemma {:induction false} PutAllLeaves<K, R>(t: map<K, R>, refs: (K, R) -> set<K>, rows: K -> Option<R>, order: seq<K>)
    requires PutAll(t, refs, rows, order).Some?
    ensures PutAll(t, refs, rows, order).value == After(t, rows, order)
    decreases |order|
  {
    if order == [] {
      AfterNone(t, rows);
    } else {
      PutAllLeaves(Changed(t, order[0], rows(order[0])), refs, rows, order[1..]);
      AfterMore(t, rows, order, |order|);
      assert order[..|order|] == order && order[1..][..|order| - 1] == order[1..];
    }
  }

  lemma SameUpToOne<K(!new), R(!new)>(
      t: map<K, R>, refs: (K, R) -> set<K>, rows: K -> Option<R>, order: seq<K>, next: map<K, R>)
    requires order != [] && Intact(t, refs) && After(t, rows, order[..0]) == t
    requires forall i :: 1 <= i <= |order| ==> After(t, rows, order[..i]) == After(next, rows, order[1..][..i - 1])
    ensures (forall i :: 0 <= i <= |order| ==> Intact(After(t, rows, order[..i]), refs))
       <==> (forall i :: 0 <= i <= |order| - 1 ==> Intact(After(next, rows, order[1..][..i]), refs))
  {
    forall i | 0 <= i <= |order| - 1 ensures After(next, rows, order[1..][..i]) == After(t, rows, order[..i + 1]) {
    }
  }

  /** Each entity's row refers to rows that were there, or to entities that come no later than it. */
  ghost predicate TargetsComeFirst<K(!new), R(!new)>(
      t: map<K, R>, refs: (K, R) -> set<K>, rows: K -> Option<R>, order: seq<K>)
  {
    forall i :: 0 <= i < |order| && rows(order[i]).Some? ==>
      refs(order[i], rows(order[i]).value) <= t.Keys + Present(rows, order[..i + 1])
  }

  lemma LateTarget<K(!new), R(!new)>(
      t: map<K, R>, refs: (K, R) -> set<K>, rows: K -> Option<R>, order: seq<K>, m: nat, target: K)
    requires m < |order| && rows(order[m]).Some? && target in refs(order[m], rows(order[m]).value)
    requires target !in t && target !in order[..m + 1]
    ensures !TargetsComeFirst(t, refs, rows, order)
  {
  }

  lemma PresentInLonger<K, R>(rows: K -> Option<R>, some: seq<K>, all: seq<K>)
    requires forall k :: k in some ==> k in all
    ensures Present(rows, some) <= Present(rows, all)
  {
  }

  /** Where no row is deleted, folding succeeds exactly when every target comes no later than what refers to it. */
  lemma PutAllInOrderIff<K(!new), R(!new)>(t: map<K, R>, refs: (K, R) -> set<K>, rows: K -> Option<R>, order: seq<K>)
    requires Intact(t, refs) && forall k :: k in order && rows(k).None? ==> k !in t
    ensures PutAll(t, refs, rows, order).Some? <==> TargetsComeFirst(t, refs, rows, order)
  {
    PutAllIff(t, refs, rows, order);
    if TargetsComeFirst(t, refs, rows, order) {
      forall i | 0 <= i <= |order| ensures Intact(After(t, rows, order[..i]), refs) {
        TargetsKeepIntact(t, refs, rows, order, i);
      }
    }
    if forall i :: 0 <= i <= |order| ==> Intact(After(t, rows, order[..i]), refs) {
      forall i | 0 <= i < |order| && rows(order[i]).Some?
        ensures refs(order[i], rows(order[i]).value) <= t.Keys + Present(rows, order[..i + 1])
      {
        var later := After(t, rows, order[..i + 1]);
        assert order[..i + 1][i] == order[i];
        assert order[i] in later && later[order[i]] == rows(order[i]).value;
      }
    }
  }

  lemma TargetsKeepIntact<K(!new), R(!new)>(
      t: map<K, R>, refs: (K, R) -> set<K>, rows: K -> Option<R>, order: seq<K>, i: nat)
    requires Intact(t, refs) && (forall k :: k in order && rows(k).None? ==> k !in t)
    requires TargetsComeFirst(t, refs, rows, order) && i <= |order|
    ensures Intact(After(t, rows, order[..i]), refs)
  {
    var later := After(t, rows, order[..i]);
    assert forall k :: k in t ==> k in later;
    assert forall k :: k in Present(rows, order[..i]) ==> k in later;
    forall k | k in later ensures refs(k, later[k]) <= later.Keys {
      if k in order[..i] {
        var j :| 0 <= j < i && order[..i][j] == k;
        assert order[j] == k;
        assert forall x :: x in order[..j + 1] ==> x in order[..i];
        assert Present(rows, order[..j + 1]) <= Present(rows, order[..i]);
      } else {
        assert refs(k, t[k]) <= t.Keys;
      }
    }
  }
}
