/** The local event log: its rows, the order in which they are resolved, and the two ways they fold. */
module EventStore {
  import opened Wrappers
  import opened Json
  import opened Text
  import opened Sequences
  import opened SyncEvents

  datatype SyncState = Pending | Committed | Rejected | RebaseRequired

  datatype StoreRow = StoreRow(event: Event, committedRev: Option<int>, state: SyncState)

  predicate IsLive(r: StoreRow) {
    r.state != Rejected && r.state != RebaseRequired
  }

  // ------------------------------------------------------------------------- resolution order

  /** Committed rows by revision; after them the others, by actor and then sequence number. */
  predicate KeyLe(a: StoreRow, b: StoreRow) {
    if a.committedRev.Some? && b.committedRev.Some? then a.committedRev.value <= b.committedRev.value
    else if a.committedRev.Some? || b.committedRev.Some? then a.committedRev.Some?
    else
      if a.event.actorId == b.event.actorId then a.event.actorSeq <= b.event.actorSeq
      else TextLe(a.event.actorId, b.event.actorId)
  }

  lemma KeyLeIsTotal(a: StoreRow, b: StoreRow)
    ensures KeyLe(a, b) || KeyLe(b, a)
  {
    TextLeIsTotal(a.event.actorId, b.event.actorId);
  }

  lemma KeyLeIsTransitive(a: StoreRow, b: StoreRow, c: StoreRow)
    requires KeyLe(a, b) && KeyLe(b, c)
    ensures KeyLe(a, c)
  {
    if a.committedRev.None? && b.committedRev.None? && c.committedRev.None? {
      TextLeIsTotal(a.event.actorId, b.event.actorId);
      TextLeIsTotal(b.event.actorId, c.event.actorId);
      if a.event.actorId != b.event.actorId && b.event.actorId != c.event.actorId {
        TextLeIsTransitive(a.event.actorId, b.event.actorId, c.event.actorId);
      }
    }
  }

  ghost predicate Sorted(rows: seq<StoreRow>) {
    forall i, j :: 0 <= i < j < |rows| ==> KeyLe(rows[i], rows[j])
  }

  function Insert(x: StoreRow, rows: seq<StoreRow>): seq<StoreRow> {
    if rows == [] || KeyLe(x, rows[0]) then [x] + rows else [rows[0]] + Insert(x, rows[1..])
  }

  /** The stable sort by resolution key. */
  function Sort(rows: seq<StoreRow>): seq<StoreRow> {
    if rows == [] then [] else Insert(rows[0], Sort(rows[1..]))
  }

  lemma {:induction false} InsertKeeps(x: StoreRow, rows: seq<StoreRow>)
    requires Sorted(rows)
    ensures Sorted(Insert(x, rows)) && multiset(Insert(x, rows)) == multiset{x} + multiset(rows)
    ensures forall r :: r in Insert(x, rows) <==> r == x || r in rows
  {
    if rows != [] {
      if KeyLe(x, rows[0]) {
        forall j | 0 <= j < |rows| ensures KeyLe(x, rows[j]) {
          if j > 0 {
            KeyLeIsTransitive(x, rows[0], rows[j]);
          }
        }
      } else {
        KeyLeIsTotal(x, rows[0]);
        InsertKeeps(x, rows[1..]);
        assert rows == [rows[0]] + rows[1..];
        var rest := Insert(x, rows[1..]);
        forall j | 0 <= j < |rest| ensures KeyLe(rows[0], rest[j]) {
          assert rest[j] in rest;
          if rest[j] != x {
            var i :| 0 <= i < |rows[1..]| && rows[1..][i] == rest[j];
            assert rows[i + 1] == rest[j];
          }
        }
      }
    }
  }

  /** Sorting is a permutation in resolution order. */
  lemma {:induction false} SortIsSorted(rows: seq<StoreRow>)
    ensures Sorted(Sort(rows)) && multiset(Sort(rows)) == multiset(rows)
    ensures forall r :: r in Sort(rows) <==> r in rows
  {
    if rows != [] {
      SortIsSorted(rows[1..]);
      InsertKeeps(rows[0], Sort(rows[1..]));
      assert rows == [rows[0]] + rows[1..];
    }
  }

  /** What is in resolution order stays as it is. */
  lemma {:induction false} SortedStays(rows: seq<StoreRow>)
    requires Sorted(rows)
    ensures Sort(rows) == rows
  {
    if rows != [] {
      SortedStays(rows[1..]);
      assert rows == [rows[0]] + rows[1..];
      if |rows| > 1 {
        assert KeyLe(rows[0], rows[1]);
      }
    }
  }

  /** Keeping some rows of a sorted table keeps it sorted. */
  lemma {:induction false} FilterKeepsSorted(rows: seq<StoreRow>, p: StoreRow -> bool)
    requires Sorted(rows)
    ensures Sorted(Filter(rows, p))
  {
    if rows != [] {
      FilterKeepsSorted(rows[1..], p);
      var rest := Filter(rows[1..], p);
      forall j | 0 <= j < |rest| ensures KeyLe(rows[0], rest[j]) {
        assert rest[j] in rest;
        var i :| 0 <= i < |rows[1..]| && rows[1..][i] == rest[j];
        assert rows[i + 1] == rest[j];
      }
    }
  }

  lemma {:induction false} InsertThenFilter(x: StoreRow, rows: seq<StoreRow>, p: StoreRow -> bool)
    requires Sorted(rows)
    ensures Filter(Insert(x, rows), p) == if p(x) then Insert(x, Filter(rows, p)) else Filter(rows, p)
  {
    if rows == [] || KeyLe(x, rows[0]) {
      assert ([x] + rows)[1..] == rows;
      FirstKeptIsAfter(x, rows, p);
    } else {
      var rest := Insert(x, rows[1..]);
      InsertThenFilter(x, rows[1..], p);
      assert ([rows[0]] + rest)[1..] == rest;
      if p(rows[0]) {
        assert ([rows[0]] + Filter(rows[1..], p))[1..] == Filter(rows[1..], p);
      }
    }
  }

  lemma FirstKeptIsAfter(x: StoreRow, rows: seq<StoreRow>, p: StoreRow -> bool)
    requires Sorted(rows) && (rows == [] || KeyLe(x, rows[0]))
    ensures Insert(x, Filter(rows, p)) == [x] + Filter(rows, p)
  {
    var kept := Filter(rows, p);
    if kept != [] {
      assert kept[0] in kept;
      var i :| 0 <= i < |rows| && rows[i] == kept[0];
      if i > 0 {
        KeyLeIsTransitive(x, rows[0], rows[i]);
      }
    }
  }

  /** Selecting from a sorted table is sorting the selection. */
  lemma {:induction false} SortThenFilter(rows: seq<StoreRow>, p: StoreRow -> bool)
    ensures Filter(Sort(rows), p) == Sort(Filter(rows, p))
  {
    if rows != [] {
      var rest := Filter(rows[1..], p);
      SortThenFilter(rows[1..], p);
      SortIsSorted(rows[1..]);
      InsertThenFilter(rows[0], Sort(rows[1..]), p);
    }
  }

  // ----------------------------------------------------------------------------------- queries

  /** A collection's live rows in resolution order. */
  function CollectionRows(rows: seq<StoreRow>, collection: string): seq<StoreRow> {
    Sort(Filter(rows, r => IsLive(r) && r.event.collection == collection))
  }

  /** An entity's live rows in resolution order. */
  function RowsOfEntity(rows: seq<StoreRow>, collection: string, entityId: string): seq<StoreRow> {
    Sort(Filter(rows, r => IsLive(r) && r.event.collection == collection && r.event.entityId == entityId))
  }

  /** An entity's rows are those of its collection that are its own, in the same order. */
  lemma EntityRowsOfCollection(rows: seq<StoreRow>, collection: string, entityId: string)
    ensures RowsOfEntity(rows, collection, entityId)
         == Filter(CollectionRows(rows, collection), (r: StoreRow) => r.event.entityId == entityId)
  {
    var p := (r: StoreRow) => IsLive(r) && r.event.collection == collection;
    var q := (r: StoreRow) => r.event.entityId == entityId;
    var both := (r: StoreRow) => IsLive(r) && r.event.collection == collection && r.event.entityId == entityId;
    SortThenFilter(Filter(rows, p), q);
    FilterTwice(rows, p, q, both);
  }

  /** The order in which rows take effect: what is committed by revision, and then what is not by actor and number. */
  ghost predicate TakesEffectBy(a: StoreRow, b: StoreRow) {
    if b.committedRev.Some? then a.committedRev.Some? && a.committedRev.value <= b.committedRev.value
    else
      || a.committedRev.Some?
      || (a.event.actorId == b.event.actorId && a.event.actorSeq <= b.event.actorSeq)
      || (a.event.actorId != b.event.actorId && exists k :: PartsAt(a.event.actorId, b.event.actorId, k))
  }

  ghost predicate InOrder(rows: seq<StoreRow>) {
    forall i, j :: 0 <= i < j < |rows| ==> TakesEffectBy(rows[i], rows[j])
  }

  lemma SortedIsInOrder(rows: seq<StoreRow>)
    requires Sorted(rows)
    ensures InOrder(rows)
  {
    forall i, j | 0 <= i < j < |rows| ensures TakesEffectBy(rows[i], rows[j]) {
      TextLeIff(rows[i].event.actorId, rows[j].event.actorId);
    }
  }

  lemma {:induction false} FilterCounts(rows: seq<StoreRow>, p: StoreRow -> bool, r: StoreRow)
    ensures multiset(Filter(rows, p))[r] == if p(r) then multiset(rows)[r] else 0
  {
    if rows != [] {
      FilterCounts(rows[1..], p, r);
      assert rows == [rows[0]] + rows[1..];
    }
  }

  /** A collection's rows are those of the log that have not been turned down, as often as they are there, in that order. */
  lemma CollectionRowsAre(rows: seq<StoreRow>, collection: string)
    ensures InOrder(CollectionRows(rows, collection))
    ensures forall r :: multiset(CollectionRows(rows, collection))[r] ==
              if (r.state == Pending || r.state == Committed) && r.event.collection == collection then multiset(rows)[r] else 0
  {
    var own := (r: StoreRow) => IsLive(r) && r.event.collection == collection;
    SortIsSorted(Filter(rows, own));
    SortedIsInOrder(CollectionRows(rows, collection));
    forall r ensures multiset(Filter(rows, own))[r] == if own(r) then multiset(rows)[r] else 0 {
      FilterCounts(rows, own, r);
    }
    assert CollectionRows(rows, collection) == Sort(Filter(rows, own));
  }

  function EventsOf(rows: seq<StoreRow>): (events: seq<Event>)
    ensures |events| == |rows|
    ensures forall i :: 0 <= i < |rows| ==> events[i] == rows[i].event
  {
    if rows == [] then [] else [rows[0].event] + EventsOf(rows[1..])
  }

  /** Two rows that the table's keys do not let stand together. */
  predicate Clash(e: Event, f: Event) {
    e.eventId == f.eventId || SameKey(e, f)
  }

  predicate Clashes(events: seq<Event>, e: Event) {
    exists f :: f in events && Clash(f, e)
  }

  predicate DistinctKeys(events: seq<Event>) {
    events == [] || (!Clashes(events[1..], events[0]) && DistinctKeys(events[1..]))
  }

  // ------------------------------------------------------------------------------------- fold

  datatype Folding = Folding(state: Option<Payload>, tombstoneRev: Option<int>)

  predicate IsTruthy(j: Json) {
    match j
    case Null => false
    case Bool(b) => b
    case Int(n) => n != 0
    case Float(x) => x != 0.0
    case Str(s) => s != ""
    case Arr(items) => items != []
    case Obj(fields) => fields != map[]
  }

  /** A write that saw the deletion, or says that it revives the entity. */
  predicate Revives(e: Event, tombstoneRev: int) {
    || (e.baseRev.Some? && e.baseRev.value >= tombstoneRev)
    || (REVIVE_FIELD in e.payload && IsTruthy(e.payload[REVIVE_FIELD]))
  }

  predicate Admits(tombstoneRev: Option<int>, e: Event) {
    tombstoneRev.None? || Revives(e, tombstoneRev.value)
  }

  function FoldStep(s: Folding, e: Event, committedRev: Option<int>): Folding {
    if e.op.Tombstone? then Folding(None, if committedRev.Some? then committedRev else s.tombstoneRev)
    else if !Admits(s.tombstoneRev, e) then s
    else
      var fields := if s.state.Some? then s.state.value else map[];
      Folding(Some(fields + (e.payload - {REVIVE_FIELD})), None)
  }

  /** The fold of an entity's events, in which a committed deletion sticks. */
  function FoldEntity(rows: seq<StoreRow>): Folding {
    if rows == [] then Folding(None, None)
    else
      var last := rows[|rows| - 1];
      FoldStep(FoldEntity(rows[..|rows| - 1]), last.event, last.committedRev)
  }

  /** The fold that snapshots show, which knows no revisions. */
  function FoldPlainly(events: seq<Event>): Folding {
    if events == [] then Folding(None, None)
    else FoldStep(FoldPlainly(events[..|events| - 1]), events[|events| - 1], None)
  }

  /** The state of the entity's domain row once it has been folded again. */
  function Refolded(rows: seq<StoreRow>, collection: string, entityId: string): Option<Payload> {
    FoldEntity(RowsOfEntity(rows, collection, entityId)).state
  }

  function OfEntityId(events: seq<Event>, entityId: string): seq<Event> {
    Filter(events, (e: Event) => e.entityId == entityId)
  }

  /** The state of an entity in its collection's snapshot; `None` when it has no line there. */
  function SnapshotState(rows: seq<StoreRow>, collection: string, entityId: string): Option<Payload> {
    FoldPlainly(OfEntityId(EventsOf(CollectionRows(rows, collection)), entityId)).state
  }
}
