/** The window of the audit table between two ids, by position, and what verifying it answers. */
module AuditWindow {
  import opened Wrappers
  import opened Sequences
  import opened AuditChain
  import Merkle

  /** Of an ordered table, the rows at `lo` up to `hi` are those from one id to another, both included; a bound may be absent. */
  ghost predicate IsWindow(rows: seq<Row>, start: Option<Id>, end: Option<Id>, lo: int, hi: int) {
    && 0 <= lo <= hi <= |rows|
    && (forall i :: 0 <= i < lo ==> start.Some? && rows[i].entry.id < start.value)
    && (forall i :: lo <= i < |rows| ==> start.Some? ==> rows[i].entry.id >= start.value)
    && (forall i :: lo <= i < hi ==> end.Some? ==> rows[i].entry.id <= end.value)
    && (forall i :: hi <= i < |rows| ==> end.Some? && rows[i].entry.id > end.value)
  }

  /** The position at which an ordered table passes a bound. */
  lemma {:induction false} CutAtBound(rows: seq<Row>, bound: Id) returns (k: nat)
    requires Sorted(rows)
    ensures k <= |rows|
    ensures forall i :: 0 <= i < k ==> rows[i].entry.id < bound
    ensures forall i :: k <= i < |rows| ==> rows[i].entry.id >= bound
  {
    k := 0;
    while k < |rows| && rows[k].entry.id < bound
      invariant k <= |rows| && forall i :: 0 <= i < k ==> rows[i].entry.id < bound
    {
      k := k + 1;
    }
  }

  /** There is one window between any two bounds. */
  lemma {:induction false} WindowBetween(rows: seq<Row>, start: Option<Id>, end: Option<Id>) returns (lo: nat, hi: nat)
    requires Sorted(rows)
    ensures IsWindow(rows, start, end, lo, hi)
  {
    lo := 0;
    if start.Some? {
      lo := CutAtBound(rows, start.value);
    }
    hi := |rows|;
    if end.Some? {
      hi := CutAtBound(rows, end.value + 1);
    }
    if hi < lo {
      hi := lo;
    }
  }

  lemma {:induction false} FilterMiddle(xs: seq<Row>, ys: seq<Row>, zs: seq<Row>, p: Row -> bool)
    requires forall r :: r in xs || r in zs ==> !p(r)
    requires forall r :: r in ys ==> p(r)
    ensures Filter(xs + ys + zs, p) == ys
  {
    FilterConcat(xs + ys, zs, p);
    FilterConcat(xs, ys, p);
    FilterDropsAll(xs, p);
    FilterKeepsAll(ys, p);
    FilterDropsAll(zs, p);
  }

  lemma {:induction false} SelectIsWindow(rows: seq<Row>, start: Option<Id>, end: Option<Id>, lo: nat, hi: nat)
    requires IsWindow(rows, start, end, lo, hi)
    ensures Select(rows, start, end) == rows[lo..hi]
  {
    var within := WithinBounds(start, end);
    forall i | 0 <= i < |rows| ensures within(rows[i]) <==> lo <= i < hi {
    }
    assert rows == rows[..lo] + rows[lo..hi] + rows[hi..];
    FilterMiddle(rows[..lo], rows[lo..hi], rows[hi..], within);
  }

  /** The walk of a window is seeded with the hash of the row before it. */
  lemma {:induction false} SeedIsTipBefore(rows: seq<Row>, start: Option<Id>, end: Option<Id>, lo: nat, hi: nat)
    requires IsWindow(rows, start, end, lo, hi)
    ensures Seed(rows, start) == Tip(rows[..lo])
  {
    if start.Some? {
      var below := BelowId(start.value);
      assert rows == rows[..lo] + rows[lo..];
      FilterConcat(rows[..lo], rows[lo..], below);
      FilterKeepsAll(rows[..lo], below);
      FilterDropsAll(rows[lo..], below);
    }
  }

  /** The row holds the hash of the one before it and its own content, which the codec accepts. */
  ghost predicate IsLinked(previous: Option<Link>, row: Row) {
    && row.chainHash == Some(Hash(previous, ChainRecord(row.entry)))
    && Encodable(ChainRecord(row.entry)) && WellSpelled(previous)
  }

  /** A link cannot be computed exactly when the hash before it is not spelled as one, or the record cannot be written. */
  lemma LinkFailsIff(previous: Option<Link>, record: Record)
    ensures ChainHash(previous, record).Err? <==>
              || !Encodable(record)
              || (previous.Some? && previous.value.Text?
                  && var s := previous.value.spelling;
                     !(|s| == 64 && forall i :: 0 <= i < 64 ==> 48 <= s[i] as int <= 57 || 97 <= s[i] as int <= 102))
  {
    if previous.Some? && previous.value.Text? {
      Merkle.SpellingIff<Record>(previous.value.spelling);
    }
  }

  /** The hash that the row at `i` is to be linked to. */
  function HashBefore(previous: Option<Link>, rows: seq<Row>, i: nat): Option<Link>
    requires i <= |rows|
  {
    if i == 0 then previous else rows[i - 1].chainHash
  }

  /** Rows are chained when each is linked to the one before it. */
  lemma {:induction false} ChainedIff(previous: Option<Link>, rows: seq<Row>)
    ensures Chained(previous, rows) <==> forall i :: 0 <= i < |rows| ==> IsLinked(HashBefore(previous, rows, i), rows[i])
    decreases |rows|
  {
    if rows != [] {
      ChainedIff(rows[0].chainHash, rows[1..]);
      FirstIsLinked(previous, rows);
    }
  }

  lemma {:induction false} FirstIsLinked(previous: Option<Link>, rows: seq<Row>)
    requires rows != []
    ensures (forall i :: 0 <= i < |rows| ==> IsLinked(HashBefore(previous, rows, i), rows[i]))
       <==> && IsLinked(previous, rows[0])
            && var tail := rows[1..]; forall i :: 0 <= i < |tail| ==> IsLinked(HashBefore(rows[0].chainHash, tail, i), tail[i])
  {
    var tail := rows[1..];
    forall i | 0 <= i < |tail|
      ensures tail[i] == rows[i + 1] && HashBefore(rows[0].chainHash, tail, i) == HashBefore(previous, rows, i + 1)
    {
    }
    if forall i :: 0 <= i < |rows| ==> IsLinked(HashBefore(previous, rows, i), rows[i]) {
      assert HashBefore(previous, rows, 0) == previous;
    }
  }

  // -------------------------------------------------------------------------------- verdicts

  /** The verdict on rows that hold together: nothing to verify, or the last row verified. */
  function Verified(window: seq<Row>): Verification {
    if window == [] then Verification(true, ChainEmpty, None)
    else Verification(true, ChainOk, Some(window[|window| - 1].entry.id))
  }

  lemma {:induction false} WalkVerifies(previous: Option<Link>, rows: seq<Row>, lastId: Option<Id>, expectedTip: Option<Link>)
    requires Chained(previous, rows) && (expectedTip.Some? ==> TipFrom(previous, rows) == expectedTip)
    ensures Walk(previous, rows, lastId, expectedTip)
         == Ok(if rows == [] && lastId.Some? then Verification(true, ChainOk, lastId) else Verified(rows))
    decreases |rows|
  {
    if rows != [] {
      WalkVerifies(rows[0].chainHash, rows[1..], Some(rows[0].entry.id), expectedTip);
    }
  }

  /** The first row of a window that is not linked to what comes before it. */
  ghost predicate BreaksFirstAt(previous: Option<Link>, window: seq<Row>, k: int) {
    && 0 <= k < |window|
    && !Chained(TipFrom(previous, window[..k]), [window[k]]) && Chained(previous, window[..k])
  }

  /**
   What verifying rows that follow a hash has to answer: success when they are chained and meet
   the tip expected, truncation when they are chained and do not, and else the first break.
   */
  ghost predicate IsVerdict(previous: Option<Link>, window: seq<Row>, expectedTip: Option<Link>, r: Result<Verification, AuditError>) {
    if !Chained(previous, window) then
      exists k :: BreaksFirstAt(previous, window, k) && r == BreakAt(TipFrom(previous, window[..k]), window[k])
    else if expectedTip.Some? && expectedTip != TipFrom(previous, window) then
      r == Ok(Verification(false, ChainTruncated, Verified(window).eventId))
    else
      r == Ok(Verified(window))
  }

  lemma {:induction false} FirstBreak(previous: Option<Link>, window: seq<Row>) returns (k: nat)
    requires !Chained(previous, window)
    ensures BreaksFirstAt(previous, window, k)
    decreases |window|
  {
    var init, last := window[..|window| - 1], window[|window| - 1];
    assert window == init + [last];
    ChainedConcat(previous, init, [last]);
    if Chained(previous, init) {
      k := |init|;
    } else {
      k := FirstBreak(previous, init);
      assert init[..k] == window[..k];
    }
  }

  lemma {:induction false} WalkIsVerdict(previous: Option<Link>, window: seq<Row>, expectedTip: Option<Link>)
    ensures IsVerdict(previous, window, expectedTip, Walk(previous, window, None, expectedTip))
  {
    if Chained(previous, window) {
      WalkPassesIff(previous, window, None, expectedTip);
      if expectedTip.Some? ==> TipFrom(previous, window) == expectedTip {
        WalkVerifies(previous, window, None, expectedTip);
      }
    } else {
      var k := FirstBreak(previous, window);
      assert window == window[..k] + [window[k]] + window[k + 1..];
      WalkStopsAt(previous, window[..k], window[k], window[k + 1..], None, expectedTip);
    }
  }

  /** Verifying between two bounds is verifying the rows between them, after the hash of the row before them. */
  lemma {:induction false} VerifyAnswers(
      rows: seq<Row>, start: Option<Id>, end: Option<Id>, expectedTip: Option<Link>, lo: nat, hi: nat)
    requires IsWindow(rows, start, end, lo, hi)
    ensures IsVerdict(Tip(rows[..lo]), rows[lo..hi], expectedTip, Verify(rows, start, end, expectedTip))
  {
    SelectIsWindow(rows, start, end, lo, hi);
    SeedIsTipBefore(rows, start, end, lo, hi);
    WalkIsVerdict(Tip(rows[..lo]), rows[lo..hi], expectedTip);
  }

  /** From the id of one row to that of another, that is the rows from the one to the other. */
  lemma {:induction false} WindowVerifiesIff(rows: seq<Row>, i: nat, j: nat, expectedTip: Option<Link>)
    requires Sorted(rows) && i <= j < |rows|
    ensures Passes(Verify(rows, Some(rows[i].entry.id), Some(rows[j].entry.id), expectedTip))
       <==> Chained(Tip(rows[..i]), rows[i..j + 1]) && (expectedTip.Some? ==> rows[j].chainHash == expectedTip)
  {
    var start, end, window := Some(rows[i].entry.id), Some(rows[j].entry.id), rows[i..j + 1];
    assert IsWindow(rows, start, end, i, j + 1);
    SelectIsWindow(rows, start, end, i, j + 1);
    SeedIsTipBefore(rows, start, end, i, j + 1);
    WalkPassesIff(Tip(rows[..i]), window, None, expectedTip);
    assert window[|window| - 1] == rows[j];
  }
}
