/** Folding an imported log again: renumbering can change which writes a deletion keeps out. */
module Refold {
  import opened Wrappers
  import opened Json
  import opened Text
  import opened SyncEvents
  import opened Sequences
  import opened EventStore
  import opened Bundle
  import opened BundleRoundTrip
  import opened BundleNormalForm
  import opened BundleExample

  predicate SameEvents(a: seq<StoreRow>, b: seq<StoreRow>) {
    |a| == |b| && forall i :: 0 <= i < |a| ==> a[i].event == b[i].event
  }

  // ------------------------------------------------------------- what the last deletion decides

  /** The position of the last deletion. */
  function LastDeletion(rows: seq<StoreRow>): (j: Option<nat>)
    ensures j.Some? ==> j.value < |rows| && rows[j.value].event.op.Tombstone?
    ensures j.Some? ==> forall i :: j.value < i < |rows| ==> !rows[i].event.op.Tombstone?
    ensures j.None? ==> forall i :: 0 <= i < |rows| ==> !rows[i].event.op.Tombstone?
  {
    if rows == [] then None
    else if rows[|rows| - 1].event.op.Tombstone? then Some(|rows| - 1)
    else LastDeletion(rows[..|rows| - 1])
  }

  /** The revision that a write after the deletion at `j` has to have seen: its own, or while it is pending, an older one. */
  function Guard(rows: seq<StoreRow>, j: nat): Option<int>
    requires j < |rows|
  {
    if rows[j].committedRev.Some? then rows[j].committedRev else FoldEntity(rows[..j]).tombstoneRev
  }

  /** The events from the first one on that the guard admits. */
  function AdmittedFrom(events: seq<Event>, guard: Option<int>): seq<Event> {
    if events == [] || Admits(guard, events[0]) then events else AdmittedFrom(events[1..], guard)
  }

  /** What events leave of an entity when all of them take effect. */
  function Written(events: seq<Event>): Option<Payload> {
    FoldPlainly(events).state
  }

  /** What writes after a deletion leave: those from the first one on that has seen the guard. */
  function LeftBy(writes: seq<Event>, guard: Option<int>): Option<Payload> {
    Written(AdmittedFrom(writes, guard))
  }

  lemma {:induction false} PlainHasNoGuard(events: seq<Event>)
    ensures FoldPlainly(events).tombstoneRev == None
  {
    if events != [] {
      PlainHasNoGuard(events[..|events| - 1]);
    }
  }

  lemma {:induction false} AdmittedFromLast(events: seq<Event>, last: Event, guard: Option<int>)
    ensures AdmittedFrom(events + [last], guard) ==
            if AdmittedFrom(events, guard) != [] then AdmittedFrom(events, guard) + [last]
            else if Admits(guard, last) then [last]
            else []
  {
    if events == [] {
      assert events + [last] == [last] && [last][1..] == [];
    } else {
      assert (events + [last])[1..] == events[1..] + [last];
      AdmittedFromLast(events[1..], last, guard);
    }
  }

  lemma PlainStep(events: seq<Event>, last: Event)
    requires !last.op.Tombstone?
    ensures FoldPlainly(events + [last]) == FoldStep(Folding(Written(events), None), last, None)
  {
    PlainHasNoGuard(events);
    assert (events + [last])[..|events|] == events;
  }

  lemma FoldLast(rows: seq<StoreRow>, last: StoreRow)
    ensures FoldEntity(rows + [last]) == FoldStep(FoldEntity(rows), last.event, last.committedRev)
  {
    assert (rows + [last])[..|rows|] == rows;
  }

  /** After a deletion, an entity is what is written from the first admitted write on. */
  lemma {:induction false} FoldAfterDeletion(head: seq<StoreRow>, tail: seq<StoreRow>, guard: Option<int>)
    requires FoldEntity(head) == Folding(None, guard) && forall i :: 0 <= i < |tail| ==> !tail[i].event.op.Tombstone?
    ensures FoldEntity(head + tail) == Since(guard, AdmittedFrom(EventsOf(tail), guard))
  {
    if tail == [] {
      assert head + tail == head;
    } else {
      var init, last := tail[..|tail| - 1], tail[|tail| - 1];
      FoldAfterDeletion(head, init, guard);
      OneMoreAfterDeletion(head, init, last, guard);
      assert init + [last] == tail;
    }
  }

  lemma OneMoreAfterDeletion(head: seq<StoreRow>, init: seq<StoreRow>, last: StoreRow, guard: Option<int>)
    requires FoldEntity(head + init) == Since(guard, AdmittedFrom(EventsOf(init), guard)) && !last.event.op.Tombstone?
    ensures FoldEntity(head + (init + [last])) == Since(guard, AdmittedFrom(EventsOf(init + [last]), guard))
  {
    assert head + (init + [last]) == head + init + [last];
    FoldLast(head + init, last);
    StepAfterDeletion(guard, AdmittedFrom(EventsOf(init), guard), last);
    AdmittedFromLast(EventsOf(init), last.event, guard);
    EventsOfAppend(init, last);
  }

  /** The entity after a deletion, from what has been admitted since. */
  function Since(guard: Option<int>, admitted: seq<Event>): Folding {
    if admitted == [] then Folding(None, guard) else Folding(Written(admitted), None)
  }

  lemma StepAfterDeletion(guard: Option<int>, admitted: seq<Event>, last: StoreRow)
    requires !last.event.op.Tombstone?
    ensures FoldStep(Since(guard, admitted), last.event, last.committedRev) ==
            Since(guard, if admitted != [] then admitted + [last.event] else if Admits(guard, last.event) then [last.event] else [])
  {
    PlainStep(admitted, last.event);
    PlainStep([], last.event);
    assert [] + [last.event] == [last.event];
  }

  /** The fold from the last deletion on is all of it. */
  lemma FoldFromDeletionAt(rows: seq<StoreRow>, j: nat)
    requires LastDeletion(rows) == Some(j)
    ensures FoldEntity(rows).state == LeftBy(EventsOf(rows[j + 1..]), Guard(rows, j))
  {
    DeletionFolds(rows, j);
    FoldAfterDeletion(rows[..j + 1], rows[j + 1..], Guard(rows, j));
    assert rows == rows[..j + 1] + rows[j + 1..];
  }

  lemma DeletionFolds(rows: seq<StoreRow>, j: nat)
    requires j < |rows| && rows[j].event.op.Tombstone?
    ensures FoldEntity(rows[..j + 1]) == Folding(None, Guard(rows, j))
  {
    assert rows[..j + 1] == rows[..j] + [rows[j]];
    FoldLast(rows[..j], rows[j]);
  }

  lemma FoldWithoutDeletion(rows: seq<StoreRow>)
    requires LastDeletion(rows).None?
    ensures FoldEntity(rows).state == Written(EventsOf(rows))
  {
    assert [] + rows == rows;
    FoldAfterDeletion([], rows, None);
    assert EventsOf(rows) == [] || AdmittedFrom(EventsOf(rows), None) == EventsOf(rows);
  }

  lemma {:induction false} EventsOfFilter(rows: seq<StoreRow>, p: StoreRow -> bool, entityId: string)
    requires forall r :: p(r) <==> r.event.entityId == entityId
    ensures EventsOf(Filter(rows, p)) == OfEntityId(EventsOf(rows), entityId)
  {
    if rows != [] {
      EventsOfFilter(rows[1..], p, entityId);
      var rest := Filter(rows[1..], p);
      assert EventsOf(rows)[1..] == EventsOf(rows[1..]);
      assert EventsOf([rows[0]] + rest) == [rows[0].event] + EventsOf(rest);
    }
  }

  lemma SameEntityEvents(xs: seq<StoreRow>, ys: seq<StoreRow>, collection: string, entityId: string)
    requires EventsOf(CollectionRows(xs, collection)) == EventsOf(CollectionRows(ys, collection))
    ensures SameEvents(RowsOfEntity(xs, collection, entityId), RowsOfEntity(ys, collection, entityId))
  {
    EntityRowsOfCollection(xs, collection, entityId);
    EntityRowsOfCollection(ys, collection, entityId);
    var p := (r: StoreRow) => r.event.entityId == entityId;
    EventsOfFilter(CollectionRows(xs, collection), p, entityId);
    EventsOfFilter(CollectionRows(ys, collection), p, entityId);
    var a, b := RowsOfEntity(xs, collection, entityId), RowsOfEntity(ys, collection, entityId);
    assert EventsOf(a) == EventsOf(b);
    assert forall i :: 0 <= i < |a| ==> EventsOf(a)[i] == a[i].event && EventsOf(b)[i] == b[i].event;
  }

  // ------------------------------------------------------------------------ what an import keeps

  /** The position of the first such event. */
  function PositionOf(events: seq<Event>, e: Event): nat {
    if events == [] || events[0] == e then 0 else 1 + PositionOf(events[1..], e)
  }

  lemma {:induction false} PositionIsUnique(events: seq<Event>, i: nat)
    requires DistinctKeys(events) && i < |events|
    ensures PositionOf(events, events[i]) == i
  {
    if i > 0 {
      assert events[1..][i - 1] == events[i] && events[i] in events[1..];
      PositionIsUnique(events[1..], i - 1);
    }
  }

  /** The revision that an event gets when everything is exported and imported into a fresh store. */
  function RevisionOnImport(p: Platform, rows: seq<StoreRow>, e: Event): int {
    1 + PositionOf(ExportedOver(rows, p.models), e)
  }

  /**
   The entity's last deletion is judged alike by its guard and by the revision it gets on import:
   the writes that each lets in leave the same. It speaks of the store to be exported alone.
   */
  predicate KeepsRow(p: Platform, rows: seq<StoreRow>, collection: string, entityId: string) {
    SameAtRevisions(RowsOfEntity(rows, collection, entityId), e => RevisionOnImport(p, rows, e))
  }

  predicate SameAtRevisions(a: seq<StoreRow>, revision: Event -> int) {
    var j := LastDeletion(a);
    j.Some? ==>
      var writes := EventsOf(a[j.value + 1..]);
      LeftBy(writes, Guard(a, j.value)) == LeftBy(writes, Some(revision(a[j.value].event)))
  }

  lemma SameFoldIff(a: seq<StoreRow>, b: seq<StoreRow>, revision: Event -> int)
    requires SameEvents(a, b) && forall i :: 0 <= i < |b| ==> b[i].committedRev == Some(revision(b[i].event))
    ensures FoldEntity(a).state == FoldEntity(b).state <==> SameAtRevisions(a, revision)
  {
    SameLastDeletion(a, b);
    if LastDeletion(a).Some? {
      SameAfterDeletionIff(a, b, revision, LastDeletion(a).value);
    } else {
      SameWithoutDeletion(a, b);
    }
  }

  lemma SameAfterDeletionIff(a: seq<StoreRow>, b: seq<StoreRow>, revision: Event -> int, j: nat)
    requires SameEvents(a, b) && forall i :: 0 <= i < |b| ==> b[i].committedRev == Some(revision(b[i].event))
    requires LastDeletion(a) == LastDeletion(b) == Some(j)
    ensures FoldEntity(a).state == FoldEntity(b).state <==> SameAtRevisions(a, revision)
  {
    NumberedAfterDeletion(a, b, revision, j);
  }

  lemma NumberedAfterDeletion(a: seq<StoreRow>, b: seq<StoreRow>, revision: Event -> int, j: nat)
    requires SameEvents(a, b) && forall i :: 0 <= i < |b| ==> b[i].committedRev == Some(revision(b[i].event))
    requires LastDeletion(a) == LastDeletion(b) == Some(j)
    ensures FoldEntity(a).state == LeftBy(EventsOf(a[j + 1..]), Guard(a, j))
    ensures FoldEntity(b).state == LeftBy(EventsOf(a[j + 1..]), Some(revision(a[j].event)))
  {
    FoldFromDeletionAt(a, j);
    FoldFromDeletionAt(b, j);
    SameTailEvents(a, b, j + 1);
  }

  lemma SameWithoutDeletion(a: seq<StoreRow>, b: seq<StoreRow>)
    requires SameEvents(a, b) && LastDeletion(a).None? && LastDeletion(b).None?
    ensures FoldEntity(a).state == FoldEntity(b).state
  {
    FoldWithoutDeletion(a);
    FoldWithoutDeletion(b);
    SameTailEvents(a, b, 0);
    assert a[0..] == a && b[0..] == b;
  }

  lemma {:induction false} SameLastDeletion(a: seq<StoreRow>, b: seq<StoreRow>)
    requires SameEvents(a, b)
    ensures LastDeletion(a) == LastDeletion(b)
  {
    if a != [] {
      SameLastDeletion(a[..|a| - 1], b[..|b| - 1]);
    }
  }

  lemma SameTailEvents(a: seq<StoreRow>, b: seq<StoreRow>, k: nat)
    requires SameEvents(a, b) && k <= |a|
    ensures EventsOf(a[k..]) == EventsOf(b[k..])
  {
    assert forall i :: 0 <= i < |a| - k ==> EventsOf(a[k..])[i] == EventsOf(b[k..])[i];
  }

  /** A row of the imported entity is one of the imported events, at the revision that its position gives it. */
  lemma ImportedAt(events: seq<Event>, collection: string, entityId: string, r: StoreRow) returns (i: nat)
    requires r in RowsOfEntity(Numbered(events, 0), collection, entityId)
    ensures i < |events| && r == StoreRow(events[i], Some(1 + i), Committed)
  {
    var imported := Numbered(events, 0);
    SortIsSorted(Filter(imported, (r: StoreRow) => IsLive(r) && r.event.collection == collection && r.event.entityId == entityId));
    i :| 0 <= i < |imported| && imported[i] == r;
  }

  /**
   An import rebuilds an entity's row as it was if and only if the writes that the revision of its
   last deletion lets in, after the import, leave what those let in before it left.
   */
  lemma ImportKeepsRowIff(
      p: Platform, rows: seq<StoreRow>, workspace: string, others: map<string, string>, sign: Option<Core -> string>,
      bundle: Bundle, collection: string, entityId: string)
    requires IsFullExport(p, rows, workspace, others, sign, bundle) && Import(p, bundle, []).Ok?
    requires collection in p.models
    ensures Refolded(Import(p, bundle, []).value.rows, collection, entityId) == Refolded(rows, collection, entityId)
            <==> KeepsRow(p, rows, collection, entityId)
  {
    var imported := Import(p, bundle, []).value.rows;
    ImportAcceptsIff(p, rows, workspace, others, sign, bundle);
    ReExportIsIdentical(p, rows, workspace, others, sign, bundle, collection);
    FullExportTakesAll(rows, collection);
    FullExportTakesAll(imported, collection);
    SameEntityEvents(rows, imported, collection, entityId);
    ExportedOverDistinct(rows, p.models);
    RefoldedByRevision(p, rows, collection, entityId);
  }

  lemma RefoldedByRevision(p: Platform, rows: seq<StoreRow>, collection: string, entityId: string)
    requires DistinctKeys(ExportedOver(rows, p.models))
    requires SameEvents(RowsOfEntity(rows, collection, entityId),
                        RowsOfEntity(Numbered(ExportedOver(rows, p.models), 0), collection, entityId))
    ensures Refolded(Numbered(ExportedOver(rows, p.models), 0), collection, entityId) == Refolded(rows, collection, entityId)
            <==> KeepsRow(p, rows, collection, entityId)
  {
    var a := RowsOfEntity(rows, collection, entityId);
    var b := RowsOfEntity(Numbered(ExportedOver(rows, p.models), 0), collection, entityId);
    forall i | 0 <= i < |b| ensures b[i].committedRev == Some(RevisionOnImport(p, rows, b[i].event)) {
      assert b[i] in b;
      var k := ImportedAt(ExportedOver(rows, p.models), collection, entityId, b[i]);
      PositionIsUnique(ExportedOver(rows, p.models), k);
    }
    SameFoldIff(a, b, e => RevisionOnImport(p, rows, e));
  }

  // ------------------------------------------------------------------- an entity that is lost

  const CREATED := Event("e1", "tickets", "t", "m", 1, Patch, None, None, map["title" := Str("x")], None)
  const DELETED := Event("e2", "tickets", "t", "m", 2, Tombstone, None, None, map[], None)
  const RESTORED := Event("e3", "tickets", "t", "m", 3, Patch, None, None, map["title" := Str("y")], None)

  /** A deletion and a restoring write, both still waiting to be committed. */
  const OUTBOX := [StoreRow(CREATED, Some(1), Committed), StoreRow(DELETED, None, Pending), StoreRow(RESTORED, None, Pending)]

  const OUTBOX_TEXTS := map[CREATED := "{1", DELETED := "{2", RESTORED := "{3"]
  const OUTBOX_MEANINGS := map["{1" := CREATED, "{2" := DELETED, "{3" := RESTORED]
  const OUTBOX_BOOK := Book(OUTBOX_TEXTS, OUTBOX_MEANINGS)

  lemma OutboxBookIsCodec()
    ensures IsCodec(OUTBOX_BOOK)
    ensures forall e :: e in [CREATED, DELETED, RESTORED] ==> e in OUTBOX_BOOK.writes && !HasBreak(OUTBOX_BOOK.writes[e])
  {
    OutboxTextsMatch();
    assert forall t, k | 0 <= k < |t| && t in OUTBOX_MEANINGS :: |t| == 2 && |t[..k]| < 2;
  }

  lemma OutboxTextsMatch()
    ensures forall e :: e in OUTBOX_TEXTS ==> OUTBOX_TEXTS[e] in OUTBOX_MEANINGS && OUTBOX_MEANINGS[OUTBOX_TEXTS[e]] == e
    ensures forall t :: t in OUTBOX_MEANINGS ==> OUTBOX_MEANINGS[t] in OUTBOX_TEXTS && OUTBOX_TEXTS[OUTBOX_MEANINGS[t]] == t
    ensures forall t :: t in OUTBOX_MEANINGS ==> |t| == 2 && t[0] == '{'
  {
  }

  lemma OutboxKeysDiffer()
    ensures DistinctKeys([CREATED, DELETED, RESTORED])
  {
    var events := [CREATED, DELETED, RESTORED];
    assert events[1..] == [DELETED, RESTORED] && [DELETED, RESTORED][1..] == [RESTORED] && [RESTORED][1..] == [];
    assert DistinctKeys([RESTORED]) && DistinctKeys([DELETED, RESTORED]);
  }

  lemma OutboxIsSample(models: seq<string>)
    requires NoRepeats(models) && "tickets" in models
    ensures IsSample(OUTBOX_BOOK, models, OUTBOX) && EventsOf(OUTBOX) == [CREATED, DELETED, RESTORED]
  {
    OutboxEvents();
    OutboxBookIsCodec();
    OutboxKeysDiffer();
  }

  lemma OutboxEvents()
    ensures EventsOf(OUTBOX) == [CREATED, DELETED, RESTORED]
  {
  }

  lemma EntityIsTable(rows: seq<StoreRow>)
    requires EventsOf(rows) == [CREATED, DELETED, RESTORED] && Sorted(rows) && forall r :: r in rows ==> IsLive(r)
    ensures RowsOfEntity(rows, "tickets", "t") == rows && CollectionRows(rows, "tickets") == rows
  {
    forall r | r in rows ensures r.event.collection == "tickets" && r.event.entityId == "t" {
      var i :| 0 <= i < |rows| && rows[i] == r;
      assert EventsOf(rows)[i] == r.event;
    }
    FilterKeepsAll(rows, (r: StoreRow) => IsLive(r) && r.event.collection == "tickets" && r.event.entityId == "t");
    FilterKeepsAll(rows, (r: StoreRow) => IsLive(r) && r.event.collection == "tickets");
    SortedStays(rows);
  }

  /** With the deletion pending the restoring write takes effect; with the deletion at revision 2 it does not. */
  lemma OutboxFolds()
    ensures FoldEntity(OUTBOX).state == Some(map["title" := Str("y")])
    ensures FoldEntity(Numbered([CREATED, DELETED, RESTORED], 0)).state == None
  {
    assert "title"[0] != REVIVE_FIELD[0];
    FoldThree(OUTBOX);
    FoldThree(Numbered([CREATED, DELETED, RESTORED], 0));
    assert map["title" := Str("y")] - {REVIVE_FIELD} == map["title" := Str("y")];
    assert map[] + map["title" := Str("y")] == map["title" := Str("y")];
  }

  /**
   An entity deleted and restored before either was committed has a row; the bundle is exported,
   signed and accepted, and the import leaves no row of it.
   */
  lemma ImportLosesRestoredEntity(models: seq<string>) returns (bundle: Bundle)
    requires NoRepeats(models) && "tickets" in models
    ensures IsFullExport(PlatformOf(OUTBOX_BOOK, models), OUTBOX, "w", OTHERS, SIGN, bundle)
    ensures Import(PlatformOf(OUTBOX_BOOK, models), bundle, []).Ok?
    ensures Refolded(OUTBOX, "tickets", "t") == Some(map["title" := Str("y")])
    ensures Refolded(Import(PlatformOf(OUTBOX_BOOK, models), bundle, []).value.rows, "tickets", "t") == None
  {
    OutboxIsSample(models);
    bundle := TicketsRoundTripIff(OUTBOX_BOOK, models, OUTBOX);
    OutboxTables();
    OutboxBookIsCodec();
    OutboxFolds();
  }

  lemma OutboxTables()
    ensures RowsOfEntity(OUTBOX, "tickets", "t") == OUTBOX && EventsOf(CollectionRows(OUTBOX, "tickets")) == [CREATED, DELETED, RESTORED]
    ensures var imported := Numbered([CREATED, DELETED, RESTORED], 0); RowsOfEntity(imported, "tickets", "t") == imported
  {
    assert EventsOf(OUTBOX) == [CREATED, DELETED, RESTORED];
    EntityIsTable(OUTBOX);
    var imported := Numbered([CREATED, DELETED, RESTORED], 0);
    assert EventsOf(imported) == [CREATED, DELETED, RESTORED];
    EntityIsTable(imported);
  }

  lemma FoldThree(rows: seq<StoreRow>)
    requires |rows| == 3
    ensures var one := FoldStep(Folding(None, None), rows[0].event, rows[0].committedRev);
            var two := FoldStep(one, rows[1].event, rows[1].committedRev);
            && FoldEntity(rows[..2]) == two
            && FoldEntity(rows) == FoldStep(two, rows[2].event, rows[2].committedRev)
  {
    assert rows[..2][..1] == rows[..1] && rows[..1][..0] == [];
    assert FoldEntity(rows[..1][..0]) == Folding(None, None);
    assert FoldEntity(rows[..1]) == FoldStep(Folding(None, None), rows[0].event, rows[0].committedRev);
    assert FoldEntity(rows[..2]) == FoldStep(FoldEntity(rows[..2][..1]), rows[1].event, rows[1].committedRev);
  }
}
