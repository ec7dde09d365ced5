/**
 When an entity has a row, and which, read off its events and their revisions alone: a committed
 deletion stands until a write that has seen it, or that says it revives the entity.
 */
module Revival {
  import opened Wrappers
  import opened Json
  import opened SyncEvents
  import opened EventStore

  /** The write was made on a revision that is not before the deletion's, or carries a flag that holds. */
  predicate HasSeen(e: Event, deleted: int) {
    || (e.baseRev.Some? && deleted <= e.baseRev.value)
    || ("__revive__" in e.payload && Holds(e.payload["__revive__"]))
  }

  /** What an `if` takes for true. */
  predicate Holds(j: Json) {
    && j != Null && j != Bool(false) && j != Int(0) && j != Float(0.0)
    && j != Str("") && j != Arr([]) && j != Obj(map[])
  }

  /** Where the last deletion is, or -1. */
  ghost predicate IsLastDeletion(rows: seq<StoreRow>, j: int) {
    && -1 <= j < |rows| && (j >= 0 ==> rows[j].event.op.Tombstone?)
    && forall i :: j < i < |rows| ==> !rows[i].event.op.Tombstone?
  }

  /** Before position `n`, the committed deletion at `i` is followed by no other and by no write that has seen it. */
  ghost predicate Stands(rows: seq<StoreRow>, i: int, n: int) {
    && 0 <= i < n <= |rows| && rows[i].event.op.Tombstone? && rows[i].committedRev.Some?
    && forall k :: i < k < n ==>
         if rows[k].event.op.Tombstone? then rows[k].committedRev.None?
         else !HasSeen(rows[k].event, rows[i].committedRev.value)
  }

  /** A write after the last deletion, at `j`, that takes effect whatever came before it. */
  ghost predicate Restores(rows: seq<StoreRow>, j: int, k: int) {
    j < k < |rows| && forall i :: Stands(rows, i, j + 1) ==> HasSeen(rows[k].event, rows[i].committedRev.value)
  }

  ghost predicate RestoresFirst(rows: seq<StoreRow>, j: int, k: int) {
    Restores(rows, j, k) && forall i :: j < i < k ==> !Restores(rows, j, i)
  }

  /** The payloads of the rows, later ones over earlier ones, without the flag. */
  function Merged(rows: seq<StoreRow>): Payload {
    if rows == [] then map[] else Merged(rows[..|rows| - 1]) + (rows[|rows| - 1].event.payload - {"__revive__"})
  }

  /** An entity has a row when some write restores it after its last deletion: the writes from the first such one on. */
  ghost predicate IsRowOf(rows: seq<StoreRow>, state: Option<Payload>) {
    forall j :: IsLastDeletion(rows, j) ==>
      && (state.Some? <==> exists k :: Restores(rows, j, k))
      && forall k :: j < k < |rows| && RestoresFirst(rows, j, k) ==> state == Some(Merged(rows[k..]))
  }

  // ----------------------------------------------------------------------------- the guard

  lemma RevivesIff(e: Event, deleted: int)
    ensures Revives(e, deleted) <==> HasSeen(e, deleted)
  {
  }

  lemma StandsInTwo(init: seq<StoreRow>, last: StoreRow, i: int)
    ensures i < |init| ==>
              (Stands(init + [last], i, |init| + 1)
               <==> && Stands(init, i, |init|)
                    && (if last.event.op.Tombstone? then last.committedRev.None?
                        else !HasSeen(last.event, init[i].committedRev.value)))
    ensures Stands(init + [last], |init|, |init| + 1) <==> last.event.op.Tombstone? && last.committedRev.Some?
  {
    var rows := init + [last];
    assert forall k :: 0 <= k < |init| ==> rows[k] == init[k];
    assert rows[|init|] == last;
  }

  /** At most one deletion stands. */
  lemma OneStands(rows: seq<StoreRow>, n: nat)
    ensures forall i, k :: Stands(rows, i, n) && Stands(rows, k, n) ==> i == k
  {
  }

  /** What the fold remembers is the revision of the deletion that stands. */
  lemma {:induction false} GuardStands(rows: seq<StoreRow>)
    ensures forall i :: Stands(rows, i, |rows|) ==> FoldEntity(rows).tombstoneRev == rows[i].committedRev
    ensures FoldEntity(rows).tombstoneRev.Some? ==> exists i :: Stands(rows, i, |rows|)
  {
    if rows != [] {
      var init, last := rows[..|rows| - 1], rows[|rows| - 1];
      assert rows == init + [last];
      GuardStands(init);
      OneStands(init, |init|);
      forall i {
        StandsInTwo(init, last, i);
      }
      if FoldEntity(init).tombstoneRev.Some? {
        RevivesIff(last.event, FoldEntity(init).tombstoneRev.value);
        var i :| Stands(init, i, |init|);
        StandsInTwo(init, last, i);
      }
    }
  }

  // ------------------------------------------------------------------- what writes leave

  predicate LetsIn(guard: Option<int>, e: Event) {
    guard.Some? ==> HasSeen(e, guard.value)
  }

  /** The write at `k` is the first that the guard lets in. */
  ghost predicate AdmitsFirst(tail: seq<StoreRow>, guard: Option<int>, k: int) {
    && 0 <= k < |tail| && LetsIn(guard, tail[k].event)
    && forall i :: 0 <= i < k ==> !LetsIn(guard, tail[i].event)
  }

  /** The fold of an entity that has no row, after more writes: nothing, or all of them from the first admitted one on. */
  ghost predicate IsAfter(tail: seq<StoreRow>, guard: Option<int>, folded: Folding) {
    && (folded.state.Some? ==> folded.tombstoneRev.None? && exists k :: AdmitsFirst(tail, guard, k))
    && (folded.state.None? ==> folded.tombstoneRev == guard && forall k :: !AdmitsFirst(tail, guard, k))
    && (forall k :: 0 <= k < |tail| && AdmitsFirst(tail, guard, k) ==> folded.state == Some(Merged(tail[k..])))
  }

  lemma {:induction false} WritesLeave(head: seq<StoreRow>, tail: seq<StoreRow>, guard: Option<int>)
    requires FoldEntity(head) == Folding(None, guard) && forall i :: 0 <= i < |tail| ==> !tail[i].event.op.Tombstone?
    ensures IsAfter(tail, guard, FoldEntity(head + tail))
  {
    if tail == [] {
      assert head + tail == head;
    } else {
      var init, last := tail[..|tail| - 1], tail[|tail| - 1];
      WritesLeave(head, init, guard);
      assert (head + tail)[..|head + tail| - 1] == head + init;
      assert FoldEntity(head + tail) == FoldStep(FoldEntity(head + init), last.event, last.committedRev);
      OneMoreWrite(init, last, guard, FoldEntity(head + init));
      assert tail == init + [last];
    }
  }

  lemma AdmitsFirstInTwo(init: seq<StoreRow>, last: StoreRow, guard: Option<int>, k: int)
    ensures k < |init| ==> (AdmitsFirst(init + [last], guard, k) <==> AdmitsFirst(init, guard, k))
  {
    var tail := init + [last];
    assert forall i :: 0 <= i < |init| ==> tail[i] == init[i];
  }

  lemma FirstOrNone(tail: seq<StoreRow>, guard: Option<int>)
    ensures (forall k :: !AdmitsFirst(tail, guard, k)) ==>
              forall i :: 0 <= i < |tail| ==> !LetsIn(guard, tail[i].event)
  {
    if forall k :: !AdmitsFirst(tail, guard, k) {
      forall i | 0 <= i < |tail| ensures !LetsIn(guard, tail[i].event) {
        NoneUpTo(tail, guard, i + 1);
      }
    }
  }

  lemma {:induction false} NoneUpTo(tail: seq<StoreRow>, guard: Option<int>, n: nat)
    requires n <= |tail| && forall k :: !AdmitsFirst(tail, guard, k)
    ensures forall i :: 0 <= i < n ==> !LetsIn(guard, tail[i].event)
  {
    if n > 0 {
      NoneUpTo(tail, guard, n - 1);
      assert !AdmitsFirst(tail, guard, n - 1);
    }
  }

  lemma OneMoreWrite(init: seq<StoreRow>, last: StoreRow, guard: Option<int>, folded: Folding)
    requires IsAfter(init, guard, folded) && !last.event.op.Tombstone?
    ensures IsAfter(init + [last], guard, FoldStep(folded, last.event, last.committedRev))
  {
    var tail := init + [last];
    forall k | k < |init| ensures AdmitsFirst(tail, guard, k) <==> AdmitsFirst(init, guard, k) {
      AdmitsFirstInTwo(init, last, guard, k);
    }
    if guard.Some? {
      RevivesIff(last.event, guard.value);
    }
    if folded.state.Some? {
      var k :| AdmitsFirst(init, guard, k);
      MergedInTwo(init, last, k);
      assert AdmitsFirst(tail, guard, k);
      OneIsFirst(tail, guard, k);
    } else {
      FirstOrNone(init, guard);
      MergedInTwo(init, last, |init|);
      assert AdmitsFirst(tail, guard, |init|) <==> LetsIn(guard, last.event);
    }
  }

  lemma OneIsFirst(tail: seq<StoreRow>, guard: Option<int>, k: int)
    requires AdmitsFirst(tail, guard, k)
    ensures forall i :: AdmitsFirst(tail, guard, i) ==> i == k
  {
  }

  lemma MergedInTwo(init: seq<StoreRow>, last: StoreRow, k: nat)
    requires k <= |init|
    ensures Merged((init + [last])[k..]) == Merged(init[k..]) + (last.event.payload - {"__revive__"})
  {
    var part := (init + [last])[k..];
    assert part[..|part| - 1] == init[k..] && part[|part| - 1] == last;
  }

  // -------------------------------------------------------------------------------- results

  /** The guard after the last deletion lets in exactly the writes that restore. */
  lemma RestoresIff(rows: seq<StoreRow>, j: int, k: int)
    requires IsLastDeletion(rows, j) && j < k < |rows|
    ensures var guard := FoldEntity(rows[..j + 1]).tombstoneRev;
            Restores(rows, j, k) <==> LetsIn(guard, rows[k].event)
  {
    var head := rows[..j + 1];
    GuardStands(head);
    forall i ensures Stands(head, i, |head|) <==> Stands(rows, i, j + 1) {
    }
    if FoldEntity(head).tombstoneRev.Some? {
      var i :| Stands(head, i, |head|);
      OneStands(rows, j + 1);
    }
  }

  /** The fold gives an entity the row that its events and revisions call for. */
  lemma FoldIsRow(rows: seq<StoreRow>)
    ensures IsRowOf(rows, FoldEntity(rows).state)
  {
    forall j | IsLastDeletion(rows, j)
      ensures FoldEntity(rows).state.Some? <==> exists k :: Restores(rows, j, k)
      ensures forall k :: j < k < |rows| && RestoresFirst(rows, j, k) ==> FoldEntity(rows).state == Some(Merged(rows[k..]))
    {
      FoldIsRowAfter(rows, j);
    }
  }

  lemma FoldIsRowAfter(rows: seq<StoreRow>, j: int)
    requires IsLastDeletion(rows, j)
    ensures FoldEntity(rows).state.Some? <==> exists k :: Restores(rows, j, k)
    ensures forall k :: j < k < |rows| && RestoresFirst(rows, j, k) ==> FoldEntity(rows).state == Some(Merged(rows[k..]))
  {
    var tail := rows[j + 1..];
    var guard := GuardAfter(rows, j);
    FoldsOn(rows, rows[..j + 1], tail, guard);
    RestoringWrites(rows, j, guard, tail);
    AfterDeletion(rows, tail, j, guard, FoldEntity(rows));
  }

  ghost predicate AreWrites(rows: seq<StoreRow>) {
    forall i :: 0 <= i < |rows| ==> !rows[i].event.op.Tombstone?
  }

  lemma GuardAfter(rows: seq<StoreRow>, j: int) returns (guard: Option<int>)
    requires IsLastDeletion(rows, j)
    ensures FoldEntity(rows[..j + 1]) == Folding(None, guard)
    ensures AreWrites(rows[j + 1..])
  {
    guard := FoldEntity(rows[..j + 1]).tombstoneRev;
  }

  /** The fold goes on from the last deletion, which leaves no row. */
  lemma FoldsOn(rows: seq<StoreRow>, head: seq<StoreRow>, tail: seq<StoreRow>, guard: Option<int>)
    requires rows == head + tail && FoldEntity(head) == Folding(None, guard)
    requires AreWrites(tail)
    ensures IsAfter(tail, guard, FoldEntity(rows))
  {
    WritesLeave(head, tail, guard);
  }

  lemma RestoringWrite(rows: seq<StoreRow>, j: int, guard: Option<int>, tail: seq<StoreRow>, m: nat)
    requires IsLastDeletion(rows, j) && tail == rows[j + 1..] && m < |tail|
    requires guard == FoldEntity(rows[..j + 1]).tombstoneRev
    ensures Restores(rows, j, j + 1 + m) <==> LetsIn(guard, tail[m].event)
  {
    RestoresIff(rows, j, j + 1 + m);
  }

  ghost predicate TailRestores(rows: seq<StoreRow>, tail: seq<StoreRow>, j: int, guard: Option<int>) {
    forall m :: 0 <= m < |tail| ==> (Restores(rows, j, j + 1 + m) <==> LetsIn(guard, tail[m].event))
  }

  lemma RestoringWrites(rows: seq<StoreRow>, j: int, guard: Option<int>, tail: seq<StoreRow>)
    requires IsLastDeletion(rows, j) && tail == rows[j + 1..] && guard == FoldEntity(rows[..j + 1]).tombstoneRev
    ensures TailRestores(rows, tail, j, guard)
  {
    forall m | 0 <= m < |tail| ensures Restores(rows, j, j + 1 + m) <==> LetsIn(guard, tail[m].event) {
      RestoringWrite(rows, j, guard, tail, m);
    }
  }

  lemma HasRowAfter(rows: seq<StoreRow>, tail: seq<StoreRow>, j: int, guard: Option<int>, folded: Folding)
    requires -1 <= j < |rows| && tail == rows[j + 1..] && IsAfter(tail, guard, folded)
    requires TailRestores(rows, tail, j, guard)
    ensures folded.state.Some? <==> exists k :: Restores(rows, j, k)
  {
    FirstOrNone(tail, guard);
    if m :| 0 <= m < |tail| && AdmitsFirst(tail, guard, m) {
      assert Restores(rows, j, j + 1 + m);
    }
    if k :| Restores(rows, j, k) {
      assert LetsIn(guard, tail[k - j - 1].event);
    }
  }

  lemma RowAfter(rows: seq<StoreRow>, tail: seq<StoreRow>, j: int, guard: Option<int>, folded: Folding, k: int)
    requires -1 <= j < |rows| && tail == rows[j + 1..] && IsAfter(tail, guard, folded)
    requires TailRestores(rows, tail, j, guard)
    requires j < k < |rows| && RestoresFirst(rows, j, k)
    ensures folded.state == Some(Merged(rows[k..]))
  {
    var m := k - j - 1;
    assert tail[m] == rows[k];
    forall i | 0 <= i < m ensures !LetsIn(guard, tail[i].event) {
      assert !Restores(rows, j, j + 1 + i);
    }
    assert AdmitsFirst(tail, guard, m);
    assert tail[m..] == rows[k..];
  }

  lemma AfterDeletion(rows: seq<StoreRow>, tail: seq<StoreRow>, j: int, guard: Option<int>, folded: Folding)
    requires -1 <= j < |rows| && tail == rows[j + 1..] && IsAfter(tail, guard, folded) && TailRestores(rows, tail, j, guard)
    ensures folded.state.Some? <==> exists k :: Restores(rows, j, k)
    ensures forall k :: j < k < |rows| && RestoresFirst(rows, j, k) ==> folded.state == Some(Merged(rows[k..]))
  {
    HasRowAfter(rows, tail, j, guard, folded);
    forall k | j < k < |rows| && RestoresFirst(rows, j, k) ensures folded.state == Some(Merged(rows[k..])) {
      RowAfter(rows, tail, j, guard, folded, k);
    }
  }

  /** After a last deletion committed at a revision, an entity has a row if and only if a later write has seen that. */
  lemma CommittedDeletionSticks(rows: seq<StoreRow>, j: nat, deleted: int)
    requires IsLastDeletion(rows, j) && rows[j].committedRev == Some(deleted)
    ensures FoldEntity(rows).state.Some?
       <==> exists k :: j < k < |rows| && HasSeen(rows[k].event, deleted)
    ensures forall k :: j < k < |rows| && HasSeen(rows[k].event, deleted) && (forall i :: j < i < k ==> !HasSeen(rows[i].event, deleted)) ==>
              FoldEntity(rows).state == Some(Merged(rows[k..]))
  {
    FoldIsRowAfter(rows, j);
    assert Stands(rows, j, j + 1);
    OneStands(rows, j + 1);
    forall k | j < k < |rows| ensures Restores(rows, j, k) <==> HasSeen(rows[k].event, deleted) {
    }
  }

  /** What a fold that knows no revisions leaves: every write after the last deletion. */
  ghost predicate IsPlain(rows: seq<StoreRow>, folded: Folding) {
    && folded.tombstoneRev.None?
    && forall j :: IsLastDeletion(rows, j) ==> folded.state == if j + 1 == |rows| then None else Some(Merged(rows[j + 1..]))
  }

  lemma LastDeletionInTwo(init: seq<StoreRow>, last: StoreRow, j: int)
    requires IsLastDeletion(init + [last], j)
    ensures if j == |init| then last.event.op.Tombstone? else !last.event.op.Tombstone? && IsLastDeletion(init, j)
  {
    var rows := init + [last];
    assert rows[|init|] == last && forall i :: 0 <= i < |init| ==> rows[i] == init[i];
  }

  lemma StepMerges(folded: Folding, e: Event)
    requires folded.tombstoneRev.None?
    ensures var next := FoldStep(folded, e, None);
            && next.tombstoneRev.None?
            && next.state == if e.op.Tombstone? then None
                             else Some((if folded.state.Some? then folded.state.value else map[]) + (e.payload - {"__revive__"}))
  {
  }

  /** One more write after the last deletion. */
  lemma PlainWrite(init: seq<StoreRow>, last: StoreRow, before: Option<Payload>, j: int)
    requires -1 <= j < |init| && before == if j + 1 == |init| then None else Some(Merged(init[j + 1..]))
    ensures (if before.Some? then before.value else map[]) + (last.event.payload - {"__revive__"}) == Merged((init + [last])[j + 1..])
  {
    MergedInTwo(init, last, j + 1);
    assert Merged(init[|init|..]) == map[];
  }

  lemma PlainInTwo(init: seq<StoreRow>, last: StoreRow, folded: Folding, next: Folding)
    requires IsPlain(init, folded) && next.tombstoneRev.None?
    requires next.state == if last.event.op.Tombstone? then None
                           else Some((if folded.state.Some? then folded.state.value else map[]) + (last.event.payload - {"__revive__"}))
    ensures IsPlain(init + [last], next)
  {
    var rows := init + [last];
    forall j | IsLastDeletion(rows, j) ensures next.state == if j + 1 == |rows| then None else Some(Merged(rows[j + 1..])) {
      LastDeletionInTwo(init, last, j);
      if j < |init| {
        PlainWrite(init, last, folded.state, j);
      }
    }
  }

  lemma SnapshotInTwo(init: seq<StoreRow>, last: StoreRow)
    ensures FoldPlainly(EventsOf(init + [last])) == FoldStep(FoldPlainly(EventsOf(init)), last.event, None)
  {
    assert EventsOf(init + [last]) == EventsOf(init) + [last.event];
    assert (EventsOf(init) + [last.event])[..|init|] == EventsOf(init);
  }

  /** The fold of a snapshot is one. */
  lemma {:induction false} SnapshotIsPlain(rows: seq<StoreRow>)
    ensures IsPlain(rows, FoldPlainly(EventsOf(rows)))
  {
    if rows != [] {
      var init, last := rows[..|rows| - 1], rows[|rows| - 1];
      SnapshotIsPlain(init);
      SnapshotInTwo(init, last);
      StepMerges(FoldPlainly(EventsOf(init)), last.event);
      PlainInTwo(init, last, FoldPlainly(EventsOf(init)), FoldPlainly(EventsOf(init + [last])));
      assert rows == init + [last];
    } else {
      assert IsPlain([], Folding(None, None));
    }
  }
}
