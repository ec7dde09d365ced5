/** Reading the log with a revision cursor, a page at a time, while others may be committing. */
module Pull {
  import opened Wrappers
  import opened Sequences
  import opened SyncEvents

  /** Within a workspace, the rows are in revision order. */
  ghost predicate IncreasingIn(rows: seq<LogRow>, workspace: string) {
    forall i, j :: 0 <= i < j < |rows| && rows[i].workspace == workspace == rows[j].workspace ==>
      rows[i].revision < rows[j].revision
  }

  predicate Matches(r: LogRow, workspace: string, collection: Option<string>, since: int) {
    && r.workspace == workspace && r.revision > since
    && (collection.Some? ==> r.event.collection == collection.value)
  }

  /** Every matching row, in order: what a pull is to return. */
  function Matching(rows: seq<LogRow>, workspace: string, collection: Option<string>, since: int): seq<LogRow> {
    Filter(rows, r => Matches(r, workspace, collection, since))
  }

  /** A row is returned exactly when it is in the log and matches. */
  lemma MatchingHas(rows: seq<LogRow>, workspace: string, collection: Option<string>, since: int)
    ensures forall r :: r in Matching(rows, workspace, collection, since) <==>
                        r in rows && Matches(r, workspace, collection, since)
  {
  }

  function Take<T>(s: seq<T>, n: nat): seq<T> {
    if |s| <= n then s else s[..n]
  }

  /** One page: the first matching rows, at most `limit` of them. */
  function Page(rows: seq<LogRow>, workspace: string, collection: Option<string>, cursor: int, limit: nat): seq<LogRow> {
    Take(Matching(rows, workspace, collection, cursor), limit)
  }

  lemma {:induction false} MatchingIncreases(rows: seq<LogRow>, workspace: string, collection: Option<string>, since: int)
    requires IncreasingIn(rows, workspace)
    ensures Increasing(Matching(rows, workspace, collection, since))
  {
    if rows != [] {
      MatchingIncreases(rows[1..], workspace, collection, since);
      MatchingHas(rows[1..], workspace, collection, since);
      var rest := Matching(rows[1..], workspace, collection, since);
      forall i | 0 <= i < |rest| && Matches(rows[0], workspace, collection, since)
        ensures rows[0].revision < rest[i].revision
      {
        assert rest[i] in rest && rest[i] in rows[1..];
        var j :| 0 <= j < |rows[1..]| && rows[1..][j] == rest[i];
        assert rows[j + 1] == rest[i];
      }
    }
  }

  lemma MatchingConcat(xs: seq<LogRow>, ys: seq<LogRow>, workspace: string, collection: Option<string>, since: int)
    ensures Matching(xs + ys, workspace, collection, since)
         == Matching(xs, workspace, collection, since) + Matching(ys, workspace, collection, since)
  {
    FilterConcat(xs, ys, r => Matches(r, workspace, collection, since));
  }

  /** Rows above a later cursor are the matching rows without those up to it. */
  lemma {:induction false} MatchingAfter(
      rows: seq<LogRow>, workspace: string, collection: Option<string>, since: int, all: seq<LogRow>, n: nat)
    requires IncreasingIn(rows, workspace)
    requires all == Matching(rows, workspace, collection, since) && 0 < n <= |all|
    ensures Matching(rows, workspace, collection, all[n - 1].revision) == all[n..]
    decreases |rows|
  {
    var head, tail := rows[0], rows[1..];
    var rest := Matching(tail, workspace, collection, since);
    TailIncreases(rows, workspace);
    if !Matches(head, workspace, collection, since) {
      assert all == rest;
      AboveCursor(rows, workspace, collection, since, all[n - 1]);
      MatchingAfter(tail, workspace, collection, since, rest, n);
      HeadIsLeftOut(rows, workspace, collection, since, all[n - 1].revision);
    } else {
      assert all == [head] + rest && all[n..] == rest[n - 1..];
      if n == 1 {
        SameWhenNoneBetween(tail, workspace, collection, since, head.revision);
      } else {
        assert all[n - 1] == rest[n - 2];
        LaterThanHead(rows, workspace, collection, since, rest[n - 2]);
        MatchingAfter(tail, workspace, collection, since, rest, n - 1);
      }
      HeadIsPassed(rows, workspace, collection, all[n - 1].revision);
    }
  }

  lemma AboveCursor(rows: seq<LogRow>, workspace: string, collection: Option<string>, since: int, r: LogRow)
    requires r in Matching(rows, workspace, collection, since)
    ensures r in rows && Matches(r, workspace, collection, since)
  {
    MatchingHas(rows, workspace, collection, since);
  }

  lemma TailIncreases(rows: seq<LogRow>, workspace: string)
    requires rows != [] && IncreasingIn(rows, workspace)
    ensures IncreasingIn(rows[1..], workspace)
  {
  }

  lemma HeadIsPassed(rows: seq<LogRow>, workspace: string, collection: Option<string>, cursor: int)
    requires rows != [] && rows[0].revision <= cursor
    ensures Matching(rows, workspace, collection, cursor) == Matching(rows[1..], workspace, collection, cursor)
  {
  }

  lemma LaterThanHead(rows: seq<LogRow>, workspace: string, collection: Option<string>, since: int, r: LogRow)
    requires IncreasingIn(rows, workspace) && rows != [] && rows[0].workspace == workspace
    requires r in Matching(rows[1..], workspace, collection, since)
    ensures rows[0].revision < r.revision
  {
    AboveCursor(rows[1..], workspace, collection, since, r);
  }

  lemma HeadIsLeftOut(rows: seq<LogRow>, workspace: string, collection: Option<string>, since: int, cursor: int)
    requires rows != [] && !Matches(rows[0], workspace, collection, since) && since < cursor
    ensures Matching(rows, workspace, collection, cursor) == Matching(rows[1..], workspace, collection, cursor)
    ensures Matching(rows, workspace, collection, since) == Matching(rows[1..], workspace, collection, since)
  {
  }

  /** Raising the cursor past no row of the workspace changes nothing. */
  lemma {:induction false} SameWhenNoneBetween(rows: seq<LogRow>, workspace: string, collection: Option<string>, since: int, cursor: int)
    requires since <= cursor
    requires forall r :: r in rows && r.workspace == workspace ==> r.revision > cursor
    ensures Matching(rows, workspace, collection, cursor) == Matching(rows, workspace, collection, since)
  {
    if rows != [] {
      assert rows[0] in rows;
      SameWhenNoneBetween(rows[1..], workspace, collection, since, cursor);
    }
  }

  // --------------------------------------------------------------- pages read from a growing log

  /** What each page read saw; the rows visible in a workspace only grow at their end. */
  ghost predicate GrowsSafely(logs: nat -> seq<LogRow>, workspace: string) {
    forall k: nat :: IncreasingIn(logs(k), workspace) && logs(k) <= logs(k + 1)
  }

  lemma {:induction false} GrowsFromTo(logs: nat -> seq<LogRow>, workspace: string, j: nat, k: nat)
    requires GrowsSafely(logs, workspace) && j <= k
    ensures logs(j) <= logs(k) && IncreasingIn(logs(k), workspace)
  {
    if j < k {
      GrowsFromTo(logs, workspace, j, k - 1);
      assert logs(k - 1) <= logs(k - 1 + 1);
    }
  }

  /** The entries collected by the first `n` pages, each read from the log as it then was. */
  function Collected(logs: nat -> seq<LogRow>, workspace: string, collection: Option<string>, since: int, limit: nat, n: nat)
    : seq<LogRow>
  {
    if n == 0 then []
    else
      var before := Collected(logs, workspace, collection, since, limit, n - 1);
      before + Page(logs(n - 1), workspace, collection, Cursor(before, since), limit)
  }

  function Cursor(entries: seq<LogRow>, since: int): int {
    if entries == [] then since else entries[|entries| - 1].revision
  }

  /**
   Pages read between cursor-safe commits miss nothing and repeat nothing: after any number
   of pages, and whatever is committed later, the entries are exactly the matching rows up to
   the last one returned, in order.
   */
  lemma {:induction false} PagesMissNothing(
      logs: nat -> seq<LogRow>, workspace: string, collection: Option<string>, since: int, limit: nat, n: nat, later: nat)
    requires GrowsSafely(logs, workspace) && n <= later + 1
    ensures var entries := Collected(logs, workspace, collection, since, limit, n);
            && entries <= Matching(logs(later), workspace, collection, since)
            && Matching(logs(later), workspace, collection, Cursor(entries, since))
               == Matching(logs(later), workspace, collection, since)[|entries|..]
    decreases n
  {
    if n > 0 {
      PagesMissNothing(logs, workspace, collection, since, limit, n - 1, n - 1);
      GrowsFromTo(logs, workspace, n - 1, later);
      StillUpToCursor(logs(n - 1), logs(later), workspace, collection, since,
                      Collected(logs, workspace, collection, since, limit, n));
    }
  }

  /** The first matching rows of a log are those of any longer one, and all of its rows up to the last of them. */
  lemma StillUpToCursor(
      rows: seq<LogRow>, later: seq<LogRow>, workspace: string, collection: Option<string>, since: int, entries: seq<LogRow>)
    requires rows <= later && IncreasingIn(later, workspace)
    requires entries <= Matching(rows, workspace, collection, since)
    ensures entries <= Matching(later, workspace, collection, since)
    ensures Matching(later, workspace, collection, Cursor(entries, since))
         == Matching(later, workspace, collection, since)[|entries|..]
  {
    assert later == rows + later[|rows|..];
    MatchingConcat(rows, later[|rows|..], workspace, collection, since);
    var all := Matching(later, workspace, collection, since);
    if entries != [] {
      assert entries[|entries| - 1] == all[|entries| - 1];
      MatchingAfter(later, workspace, collection, since, all, |entries|);
    }
  }

  /** A short page ends the pull: then the entries are everything that matched when it was read. */
  lemma ShortPageIsComplete(logs: nat -> seq<LogRow>, workspace: string, collection: Option<string>, since: int, limit: nat, n: nat)
    requires GrowsSafely(logs, workspace)
    requires |Page(logs(n), workspace, collection, Cursor(Collected(logs, workspace, collection, since, limit, n), since), limit)| < limit
    ensures Collected(logs, workspace, collection, since, limit, n + 1) == Matching(logs(n), workspace, collection, since)
  {
    PagesMissNothing(logs, workspace, collection, since, limit, n, n);
    var before, all := Collected(logs, workspace, collection, since, limit, n), Matching(logs(n), workspace, collection, since);
    assert all == before + all[|before|..];
  }
}
