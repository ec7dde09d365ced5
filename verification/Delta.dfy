/** Incremental exports: each takes what was committed after the cursor of the one before. */
module Delta {
  import opened Wrappers
  import opened SyncEvents
  import opened Sequences
  import opened EventStore
  import opened Bundle

  /** The committed events' rows of a collection, in commit order: all that deltas are to carry. */
  function CommittedRows(rows: seq<StoreRow>, collection: string): seq<StoreRow> {
    Filter(CollectionRows(rows, collection), (r: StoreRow) => r.committedRev.Some?)
  }

  predicate IsCommittedOf(r: StoreRow, collection: string) {
    IsLive(r) && r.event.collection == collection && r.committedRev.Some?
  }

  /** No two rows share a revision. */
  predicate RevisionsDiffer(rows: seq<StoreRow>) {
    rows == []
    || (RevisionsDiffer(rows[1..])
        && (rows[0].committedRev.Some? ==> forall r :: r in rows[1..] ==> r.committedRev != rows[0].committedRev))
  }

  /** Revisions are positive, and no two rows share one. */
  ghost predicate HasRevisions(rows: seq<StoreRow>) {
    (forall r :: r in rows && r.committedRev.Some? ==> r.committedRev.value > 0) && RevisionsDiffer(rows)
  }

  predicate IsBelow(revision: int, rows: seq<StoreRow>) {
    forall r :: r in rows ==> r.committedRev.Some? && revision < r.committedRev.value
  }

  /** All are committed, each after those before it. */
  predicate RevisionsIncrease(rows: seq<StoreRow>) {
    rows == []
    || (rows[0].committedRev.Some? && IsBelow(rows[0].committedRev.value, rows[1..]) && RevisionsIncrease(rows[1..]))
  }

  /** A table in revision order is determined by its rows. */
  lemma {:induction false} SameRowsSameTable(a: seq<StoreRow>, b: seq<StoreRow>)
    requires RevisionsIncrease(a) && RevisionsIncrease(b)
    requires forall r :: r in a <==> r in b
    ensures a == b
  {
    assert forall i :: 0 <= i < |a| ==> a[i] in b;
    assert forall i :: 0 <= i < |b| ==> b[i] in a;
    if a != [] && b != [] {
      assert a == [a[0]] + a[1..] && b == [b[0]] + b[1..];
      assert a[0] == b[0];
      forall r ensures r in a[1..] <==> r in b[1..] {
        assert a[0] !in a[1..] && b[0] !in b[1..];
      }
      SameRowsSameTable(a[1..], b[1..]);
    }
  }

  lemma {:induction false} FilterDiffers(rows: seq<StoreRow>, p: StoreRow -> bool)
    requires RevisionsDiffer(rows)
    ensures RevisionsDiffer(Filter(rows, p))
  {
    if rows != [] {
      FilterDiffers(rows[1..], p);
      var rest := Filter(rows[1..], p);
      assert ([rows[0]] + rest)[1..] == rest;
    }
  }

  lemma {:induction false} InsertDiffers(x: StoreRow, rows: seq<StoreRow>)
    requires Sorted(rows) && RevisionsDiffer(rows)
    requires x.committedRev.Some? ==> forall r :: r in rows ==> r.committedRev != x.committedRev
    ensures RevisionsDiffer(Insert(x, rows))
  {
    if rows == [] || KeyLe(x, rows[0]) {
      assert ([x] + rows)[1..] == rows;
    } else {
      var rest := Insert(x, rows[1..]);
      assert ([rows[0]] + rest)[1..] == rest;
      assert rows[0] in rows && forall r :: r in rows[1..] ==> r in rows;
      InsertDiffers(x, rows[1..]);
      InsertKeeps(x, rows[1..]);
    }
  }

  lemma {:induction false} SortDiffers(rows: seq<StoreRow>)
    requires RevisionsDiffer(rows)
    ensures RevisionsDiffer(Sort(rows))
  {
    if rows != [] {
      SortDiffers(rows[1..]);
      SortIsSorted(rows[1..]);
      InsertDiffers(rows[0], Sort(rows[1..]));
    }
  }

  lemma {:induction false} SortedDifferIncrease(rows: seq<StoreRow>)
    requires Sorted(rows) && RevisionsDiffer(rows) && forall r :: r in rows ==> r.committedRev.Some?
    ensures RevisionsIncrease(rows)
  {
    if rows != [] {
      var x, rest := rows[0], rows[1..];
      assert x in rows && forall r :: r in rest ==> r in rows;
      SortedDifferIncrease(rest);
      forall r | r in rest ensures KeyLe(x, r) {
        var i :| 0 <= i < |rest| && rest[i] == r;
        assert KeyLe(rows[0], rows[i + 1]);
      }
    }
  }

  /** Selected and in resolution order, the committed rows have increasing revisions. */
  lemma CommittedRowsIncrease(rows: seq<StoreRow>, collection: string)
    requires HasRevisions(rows)
    ensures RevisionsIncrease(CommittedRows(rows, collection))
    ensures forall r :: r in CommittedRows(rows, collection) <==> r in rows && IsCommittedOf(r, collection)
  {
    var p := (r: StoreRow) => IsLive(r) && r.event.collection == collection;
    var q := (r: StoreRow) => r.committedRev.Some?;
    var kept := Filter(rows, p);
    FilterDiffers(rows, p);
    SortIsSorted(kept);
    SortDiffers(kept);
    FilterKeepsSorted(Sort(kept), q);
    FilterDiffers(Sort(kept), q);
    SortedDifferIncrease(CommittedRows(rows, collection));
  }

  // ------------------------------------------------------------------------------------ deltas

  /** What a delta carries is committed, after the cursor, and in commit order. */
  lemma TakenIsCommitted(rows: seq<StoreRow>, collection: string, since: int)
    ensures Taken(rows, collection, Some(since))
         == Filter(CommittedRows(rows, collection), (r: StoreRow) => r.committedRev.Some? && r.committedRev.value > since)
  {
    var q := (r: StoreRow) => r.committedRev.Some?;
    var above := (r: StoreRow) => r.committedRev.Some? && r.committedRev.value > since;
    FilterTwice(CollectionRows(rows, collection), q, above, r => IsTaken(r, Some(since)));
  }

  /** A table in revision order splits at any revision. */
  lemma {:induction false} SplitAt(rows: seq<StoreRow>, k: int, low: StoreRow -> bool, high: StoreRow -> bool)
    requires RevisionsIncrease(rows)
    requires forall r :: low(r) <==> r.committedRev.Some? && r.committedRev.value <= k
    requires forall r :: high(r) <==> r.committedRev.Some? && r.committedRev.value > k
    ensures rows == Filter(rows, low) + Filter(rows, high)
  {
    if rows != [] {
      var x, rest := rows[0], rows[1..];
      SplitAt(rest, k, low, high);
      if high(x) {
        FilterDropsAll(rest, low);
        assert rows == [] + ([x] + Filter(rest, high));
      } else {
        assert rows == ([x] + Filter(rest, low)) + Filter(rest, high);
      }
    }
  }

  lemma {:induction false} FilterIncreases(rows: seq<StoreRow>, p: StoreRow -> bool)
    requires RevisionsIncrease(rows)
    ensures RevisionsIncrease(Filter(rows, p))
  {
    if rows != [] {
      var rest := Filter(rows[1..], p);
      FilterIncreases(rows[1..], p);
      assert ([rows[0]] + rest)[1..] == rest;
    }
  }

  /** What an earlier store has committed, a later one still has. */
  ghost predicate Extends(earlier: seq<StoreRow>, later: seq<StoreRow>, models: seq<string>) {
    forall c, r :: c in models && r in earlier && IsCommittedOf(r, c) ==> r in later
  }

  /** Everything that was committed since the earlier store has a revision above its cursor. */
  ghost predicate NewAboveCursor(earlier: seq<StoreRow>, later: seq<StoreRow>, models: seq<string>) {
    forall c, r :: c in models && r in later && IsCommittedOf(r, c) && r !in earlier ==>
      r.committedRev.value > CursorOver(earlier, models)
  }

  /** The first delta, and the one that continues it, carry everything committed by then. */
  ghost predicate DeltasJoin(earlier: seq<StoreRow>, later: seq<StoreRow>, models: seq<string>) {
    forall c :: c in models ==>
      Taken(earlier, c, Some(0)) + Taken(later, c, Some(CursorOver(earlier, models))) == Taken(later, c, Some(0))
  }

  lemma {:induction false} CursorIsAbove(rows: seq<StoreRow>, models: seq<string>, collection: string)
    requires collection in models
    ensures forall r :: r in CollectionRows(rows, collection) && r.committedRev.Some? ==>
              r.committedRev.value <= CursorOver(rows, models)
  {
    var init, last := models[..|models| - 1], models[|models| - 1];
    assert models == init + [last];
    if collection != last {
      CursorIsAbove(rows, init, collection);
    }
  }

  /** From cursor 0 a delta carries every committed row. */
  lemma TakenFromZero(rows: seq<StoreRow>, collection: string)
    requires HasRevisions(rows)
    ensures Taken(rows, collection, Some(0)) == CommittedRows(rows, collection)
  {
    var low := (r: StoreRow) => r.committedRev.Some? && r.committedRev.value <= 0;
    var high := (r: StoreRow) => r.committedRev.Some? && r.committedRev.value > 0;
    var committed := CommittedRows(rows, collection);
    TakenIsCommitted(rows, collection, 0);
    CommittedRowsIncrease(rows, collection);
    SplitAt(committed, 0, low, high);
    FilterDropsAll(committed, low);
  }

  /**
   A delta continues the one before it without a gap and without a repetition exactly when
   everything committed in between has a revision above the cursor.
   */
  lemma DeltasJoinIff(earlier: seq<StoreRow>, later: seq<StoreRow>, models: seq<string>)
    requires HasRevisions(earlier) && HasRevisions(later) && Extends(earlier, later, models)
    ensures DeltasJoin(earlier, later, models) <==> NewAboveCursor(earlier, later, models)
  {
    forall c | c in models
      ensures Taken(earlier, c, Some(0)) + Taken(later, c, Some(CursorOver(earlier, models))) == Taken(later, c, Some(0))
              <==> NewOfAbove(earlier, later, c, CursorOver(earlier, models))
    {
      CollectionJoinsIff(earlier, later, models, c);
    }
    if DeltasJoin(earlier, later, models) {
      forall c, r | c in models && r in later && IsCommittedOf(r, c) && r !in earlier
        ensures r.committedRev.value > CursorOver(earlier, models)
      {
        assert NewOfAbove(earlier, later, c, CursorOver(earlier, models));
      }
    }
    if NewAboveCursor(earlier, later, models) {
      forall c | c in models
        ensures Taken(earlier, c, Some(0)) + Taken(later, c, Some(CursorOver(earlier, models))) == Taken(later, c, Some(0))
      {
        assert NewOfAbove(earlier, later, c, CursorOver(earlier, models));
      }
    }
  }

  ghost predicate NewOfAbove(earlier: seq<StoreRow>, later: seq<StoreRow>, collection: string, cursor: int) {
    forall r :: r in later && IsCommittedOf(r, collection) && r !in earlier ==> r.committedRev.value > cursor
  }

  lemma CollectionJoinsIff(earlier: seq<StoreRow>, later: seq<StoreRow>, models: seq<string>, c: string)
    requires HasRevisions(earlier) && HasRevisions(later) && Extends(earlier, later, models) && c in models
    ensures Taken(earlier, c, Some(0)) + Taken(later, c, Some(CursorOver(earlier, models))) == Taken(later, c, Some(0))
            <==> NewOfAbove(earlier, later, c, CursorOver(earlier, models))
  {
    var k := CursorOver(earlier, models);
    var a, b := CommittedRows(earlier, c), CommittedRows(later, c);
    var low := (r: StoreRow) => r.committedRev.Some? && r.committedRev.value <= k;
    var high := (r: StoreRow) => r.committedRev.Some? && r.committedRev.value > k;
    TakenFromZero(earlier, c);
    TakenFromZero(later, c);
    TakenIsCommitted(later, c, k);
    CommittedRowsIncrease(earlier, c);
    CommittedRowsIncrease(later, c);
    SplitAt(b, k, low, high);
    FilterIncreases(b, low);
    CursorIsAbove(earlier, models, c);
    assert Taken(later, c, Some(k)) == Filter(b, high);
    JoinIff(a, b, Filter(b, low), Filter(b, high));
    if NewOfAbove(earlier, later, c, k) {
      forall r ensures r in a <==> r in Filter(b, low) {
        assert r in a ==> r in CollectionRows(earlier, c);
      }
      SameRowsSameTable(a, Filter(b, low));
    }
    if a == Filter(b, low) {
      forall r | r in later && IsCommittedOf(r, c) && r !in earlier ensures r.committedRev.value > k {
        assert r in b && r !in a;
      }
    }
  }

  lemma JoinIff(a: seq<StoreRow>, b: seq<StoreRow>, low: seq<StoreRow>, high: seq<StoreRow>)
    requires b == low + high
    ensures a + high == b <==> a == low
  {
    if a + high == b {
      assert |a| == |low|;
      assert a == b[..|a|] && low == b[..|low|];
    }
  }

  /** The deltas of a chain of exports, each from the cursor of the one before, put end to end. */
  function Chain(stores: seq<seq<StoreRow>>, models: seq<string>, collection: string): seq<StoreRow> {
    if stores == [] then []
    else
      var init, last := stores[..|stores| - 1], stores[|stores| - 1];
      var since := if init == [] then 0 else CursorOver(init[|init| - 1], models);
      Chain(init, models, collection) + Taken(last, collection, Some(since))
  }

  /** Every store of a chain extends the one before it, above its cursor. */
  ghost predicate IsChain(stores: seq<seq<StoreRow>>, models: seq<string>) {
    && (forall i :: 0 <= i < |stores| ==> HasRevisions(stores[i]))
    && (forall i :: 0 < i < |stores| ==> Follows(stores[i - 1], stores[i], models))
  }

  ghost predicate Follows(earlier: seq<StoreRow>, later: seq<StoreRow>, models: seq<string>) {
    Extends(earlier, later, models) && NewAboveCursor(earlier, later, models)
  }

  /**
   A chain of deltas carries the committed log of every collection in commit order, each
   event once and no pending one.
   */
  lemma {:induction false} ChainIsCommittedLog(stores: seq<seq<StoreRow>>, models: seq<string>, collection: string)
    requires stores != [] && collection in models && IsChain(stores, models)
    ensures Chain(stores, models, collection) == CommittedRows(stores[|stores| - 1], collection)
  {
    var init, last := stores[..|stores| - 1], stores[|stores| - 1];
    TakenFromZero(last, collection);
    if init == [] {
      assert Chain(init, models, collection) == [];
    } else {
      ChainIsCommittedLog(init, models, collection);
      assert Follows(init[|init| - 1], last, models);
      FollowsJoins(init[|init| - 1], last, models, collection);
    }
  }

  lemma FollowsJoins(earlier: seq<StoreRow>, later: seq<StoreRow>, models: seq<string>, collection: string)
    requires HasRevisions(earlier) && HasRevisions(later) && Follows(earlier, later, models) && collection in models
    ensures CommittedRows(earlier, collection) + Taken(later, collection, Some(CursorOver(earlier, models)))
         == CommittedRows(later, collection)
  {
    TakenFromZero(earlier, collection);
    TakenFromZero(later, collection);
    DeltasJoinIff(earlier, later, models);
  }

  /** What is committed later at a revision that the cursor has passed is in neither delta. */
  lemma BelowCursorIsMissed(earlier: seq<StoreRow>, later: seq<StoreRow>, models: seq<string>, collection: string, r: StoreRow)
    requires IsCommittedOf(r, collection) && r !in earlier && r.committedRev.value <= CursorOver(earlier, models)
    ensures r !in Taken(earlier, collection, Some(0)) && r !in Taken(later, collection, Some(CursorOver(earlier, models)))
  {
    SortIsSorted(Filter(earlier, r => IsLive(r) && r.event.collection == collection));
  }

  const OURS := StoreRow(Event("e1", "tickets", "t", "a", 1, Patch, None, None, map[], None), Some(10), Committed)
  const THEIRS := StoreRow(Event("e2", "tickets", "t", "b", 1, Patch, None, None, map[], None), Some(8), Committed)

  /** Our write is committed at 10 and exported before theirs, committed at 8, has been pulled: no delta has it. */
  lemma LatePullIsMissed(models: seq<string>)
    requires "tickets" in models
    ensures HasRevisions([OURS]) && HasRevisions([OURS, THEIRS]) && Extends([OURS], [OURS, THEIRS], models)
    ensures !DeltasJoin([OURS], [OURS, THEIRS], models)
    ensures THEIRS in [OURS, THEIRS] && THEIRS !in Taken([OURS], "tickets", Some(0))
    ensures THEIRS !in Taken([OURS, THEIRS], "tickets", Some(CursorOver([OURS], models)))
  {
    var both := [OURS, THEIRS];
    assert both[1..] == [THEIRS] && [THEIRS][1..] == [] && [OURS][1..] == [];
    assert RevisionsDiffer([THEIRS]) && OURS != THEIRS;
    FilterKeepsAll([OURS], (r: StoreRow) => IsLive(r) && r.event.collection == "tickets");
    SortedStays([OURS]);
    assert CollectionRows([OURS], "tickets") == [OURS] && OURS in CollectionRows([OURS], "tickets");
    CursorIsAbove([OURS], models, "tickets");
    BelowCursorIsMissed([OURS], both, models, "tickets", THEIRS);
    DeltasJoinIff([OURS], both, models);
    assert THEIRS in both && IsCommittedOf(THEIRS, "tickets");
  }
}
