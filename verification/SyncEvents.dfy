/** Protocol events, the committed log, the merge decision and the fold, on values. */
module SyncEvents {
  import opened Sequences
  import opened Wrappers
  import opened Json

  datatype Op = Patch | Append | Tombstone

  type Payload = map<string, Json>

  datatype Event = Event(
    eventId: string,
    collection: string,
    entityId: string,
    actorId: string,
    actorSeq: int,
    op: Op,
    baseRev: Option<int>,
    policyRef: Option<string>,
    payload: Payload,
    sig: Option<string>)

  /** The key that the log deduplicates by. */
  predicate SameKey(e: Event, f: Event) {
    e.actorId == f.actorId && e.actorSeq == f.actorSeq
  }

  /** A row of the append-only log. */
  datatype LogRow = LogRow(revision: nat, workspace: string, event: Event)

  ghost predicate Increasing(rows: seq<LogRow>) {
    forall i, j :: 0 <= i < j < |rows| ==> rows[i].revision < rows[j].revision
  }

  predicate OfEntity(r: LogRow, workspace: string, collection: string, entityId: string) {
    r.workspace == workspace && r.event.collection == collection && r.event.entityId == entityId
  }

  /** The history of one entity, in commit order. */
  function EntityRows(rows: seq<LogRow>, workspace: string, collection: string, entityId: string): (history: seq<LogRow>)
    ensures forall r :: r in history <==> r in rows && OfEntity(r, workspace, collection, entityId)
  {
    Filter(rows, r => OfEntity(r, workspace, collection, entityId))
  }

  lemma EntityRowsLast(rows: seq<LogRow>, last: LogRow, workspace: string, collection: string, entityId: string)
    ensures EntityRows(rows + [last], workspace, collection, entityId)
         == EntityRows(rows, workspace, collection, entityId) + if OfEntity(last, workspace, collection, entityId) then [last] else []
  {
    var p := r => OfEntity(r, workspace, collection, entityId);
    FilterConcat(rows, [last], p);
    assert [last][1..] == [];
    assert Filter([last], p) == if p(last) then [last] else [];
  }

  lemma {:induction false} EntityRowsIncrease(rows: seq<LogRow>, workspace: string, collection: string, entityId: string)
    requires Increasing(rows)
    ensures Increasing(EntityRows(rows, workspace, collection, entityId))
  {
    if rows != [] {
      var init, last := rows[..|rows| - 1], rows[|rows| - 1];
      assert rows == init + [last];
      EntityRowsIncrease(init, workspace, collection, entityId);
      EntityRowsLast(init, last, workspace, collection, entityId);
      var history := EntityRows(init, workspace, collection, entityId);
      forall i | 0 <= i < |history| ensures history[i].revision < last.revision {
        assert history[i] in history && history[i] in init;
      }
    }
  }

  /** The revision of the last row, or 0. */
  function Head(history: seq<LogRow>): nat {
    if history == [] then 0 else history[|history| - 1].revision
  }

  // -------------------------------------------------------------------------- merge decision

  /** A contended field: who contends, with which value, and the value that arrives. */
  datatype FieldConflict = FieldConflict(contendingRevision: nat, headValue: Json, incomingValue: Json)

  const REVIVE_FIELD := "__revive__"
  const ENTITY_FIELD := "__entity__"

  function Base(e: Event): int {
    if e.baseRev.Some? then e.baseRev.value else 0
  }

  /** The last row after `base` that sets the field. */
  function FieldHead(history: seq<LogRow>, base: int, field: string): Option<LogRow> {
    if history == [] then None
    else
      var last := history[|history| - 1];
      if last.revision > base && !last.event.op.Tombstone? && field in last.event.payload then Some(last)
      else FieldHead(history[..|history| - 1], base, field)
  }

  /** The last deletion after `base`. */
  function LastTombstone(history: seq<LogRow>, base: int): Option<LogRow> {
    if history == [] then None
    else
      var last := history[|history| - 1];
      if last.revision > base && last.event.op.Tombstone? then Some(last)
      else LastTombstone(history[..|history| - 1], base)
  }

  predicate Contends(history: seq<LogRow>, e: Event, field: string)
    requires field in e.payload
  {
    var contender := FieldHead(history, Base(e), field);
    field != REVIVE_FIELD && contender.Some? && ContenderValue(contender.value, field) != e.payload[field]
  }

  function ContenderValue(r: LogRow, field: string): Json {
    if field in r.event.payload then r.event.payload[field] else Null
  }

  /** The conflicts of an event against an entity's history, by field. */
  function DetectConflicts(history: seq<LogRow>, e: Event): map<string, FieldConflict> {
    if !e.op.Patch? then map[]
    else
      var deleted := LastTombstone(history, Base(e));
      if deleted.Some? then
        map[ENTITY_FIELD := FieldConflict(deleted.value.revision, Null, Obj(e.payload))]
      else
        map f | f in e.payload && Contends(history, e, f) ::
          var contender := FieldHead(history, Base(e), f).value;
          FieldConflict(contender.revision, ContenderValue(contender, f), e.payload[f])
  }

  lemma ConflictKeys(history: seq<LogRow>, e: Event)
    requires e.op.Patch?
    ensures LastTombstone(history, Base(e)).Some? ==> DetectConflicts(history, e).Keys == {ENTITY_FIELD}
    ensures LastTombstone(history, Base(e)).None? ==>
              forall f :: f in DetectConflicts(history, e) <==> f in e.payload && Contends(history, e, f)
  {
  }

  /** A row after `base` that names the field, other than as a deletion. */
  predicate Names(r: LogRow, base: int, field: string) {
    r.revision > base && !r.event.op.Tombstone? && field in r.event.payload
  }

  predicate Deletes(r: LogRow, base: int) {
    r.revision > base && r.event.op.Tombstone?
  }

  /** Of the rows with the property, the one with the largest revision. */
  ghost predicate IsLast(history: seq<LogRow>, p: LogRow -> bool, r: LogRow) {
    r in history && p(r) && forall other :: other in history && p(other) ==> other.revision <= r.revision
  }

  /** The last row with the property is the whole history's, when that row has it, and else the rest's. */
  lemma IsLastInTwo(init: seq<LogRow>, last: LogRow, p: LogRow -> bool)
    requires Increasing(init + [last])
    ensures p(last) ==> IsLast(init + [last], p, last)
    ensures !p(last) ==> forall r :: IsLast(init, p, r) ==> IsLast(init + [last], p, r)
  {
    var history := init + [last];
    assert history[|history| - 1] == last;
    LastIsLargest(history);
    assert forall r :: r in history <==> r in init || r == last;
  }

  lemma {:induction false} FieldHeadIsLast(history: seq<LogRow>, base: int, field: string)
    requires Increasing(history)
    ensures FieldHead(history, base, field).None? ==> forall r :: r in history ==> !Names(r, base, field)
    ensures FieldHead(history, base, field).Some? ==>
              IsLast(history, r => Names(r, base, field), FieldHead(history, base, field).value)
  {
    if history != [] {
      var init, last := history[..|history| - 1], history[|history| - 1];
      assert history == init + [last];
      if !Names(last, base, field) {
        FieldHeadIsLast(init, base, field);
      }
      IsLastInTwo(init, last, r => Names(r, base, field));
    }
  }

  lemma {:induction false} LastTombstoneIsLast(history: seq<LogRow>, base: int)
    requires Increasing(history)
    ensures LastTombstone(history, base).None? ==> forall r :: r in history ==> !Deletes(r, base)
    ensures LastTombstone(history, base).Some? ==>
              IsLast(history, r => Deletes(r, base), LastTombstone(history, base).value)
  {
    if history != [] {
      var init, last := history[..|history| - 1], history[|history| - 1];
      assert history == init + [last];
      if !Deletes(last, base) {
        LastTombstoneIsLast(init, base);
      }
      IsLastInTwo(init, last, r => Deletes(r, base));
    }
  }

  lemma LastIsLargest(history: seq<LogRow>)
    requires Increasing(history) && history != []
    ensures forall r :: r in history ==> r.revision <= history[|history| - 1].revision
  {
  }

  /** Who contends with a field: the last unseen row to name it, when it brings another value. */
  ghost predicate ContendsWith(history: seq<LogRow>, e: Event, field: string, r: LogRow) {
    && field in e.payload && field != REVIVE_FIELD
    && IsLast(history, s => Names(s, Base(e), field), r) && r.event.payload[field] != e.payload[field]
  }

  /**
   What a reported conflict means. After an unseen deletion there is one, against the last
   deletion. Otherwise there is one for a field exactly when the last unseen row to name it
   brings another value, and it tells that row's revision and both values. None is reported exactly
   when nothing unseen deletes and no field has such a contender.
   */
  lemma ConflictsAreDetected(history: seq<LogRow>, e: Event)
    requires Increasing(history) && e.op.Patch?
    ensures forall r :: IsLast(history, s => Deletes(s, Base(e)), r) ==>
              DetectConflicts(history, e) == map[ENTITY_FIELD := FieldConflict(r.revision, Null, Obj(e.payload))]
    ensures (forall r :: r in history ==> !Deletes(r, Base(e))) ==>
              && (forall f, r :: ContendsWith(history, e, f, r) ==>
                    && f in DetectConflicts(history, e)
                    && DetectConflicts(history, e)[f] == FieldConflict(r.revision, r.event.payload[f], e.payload[f]))
              && (forall f :: f in DetectConflicts(history, e) ==> exists r :: ContendsWith(history, e, f, r))
    ensures DetectConflicts(history, e) == map[] <==>
              && (forall r :: r in history ==> !Deletes(r, Base(e)))
              && (forall f, r :: !ContendsWith(history, e, f, r))
  {
    ConflictKeys(history, e);
    LastTombstoneIsLast(history, Base(e));
    forall r | IsLast(history, s => Deletes(s, Base(e)), r)
      ensures DetectConflicts(history, e) == map[ENTITY_FIELD := FieldConflict(r.revision, Null, Obj(e.payload))]
    {
    }
    forall f, r | ContendsWith(history, e, f, r) ensures FieldHead(history, Base(e), f) == Some(r) {
      FieldHeadIsLast(history, Base(e), f);
    }
    if LastTombstone(history, Base(e)).None? {
      forall f | f in DetectConflicts(history, e) ensures exists r :: ContendsWith(history, e, f, r) {
        FieldHeadIsLast(history, Base(e), f);
        assert ContendsWith(history, e, f, FieldHead(history, Base(e), f).value);
      }
    }
  }

  // ------------------------------------------------------------------------------------ fold

  /** The fold of an entity's events by commit order, as far as scalar fields go; None: no such entity. */
  function Fold(history: seq<LogRow>): Option<Payload> {
    if history == [] then None
    else
      var before, e := Fold(history[..|history| - 1]), history[|history| - 1].event;
      var fields := if before.Some? then before.value else map[];
      match e.op
      case Tombstone => None
      case Append => Some(fields)
      case Patch => Some(fields + e.payload)
  }

  function FieldOf(state: Option<Payload>, field: string): Option<Json> {
    if state.Some? && field in state.value then Some(state.value[field]) else None
  }

  /** The part of a history that a writer with the given base has seen. */
  function Seen(history: seq<LogRow>, base: int): seq<LogRow> {
    if history == [] then []
    else if history[|history| - 1].revision > base then Seen(history[..|history| - 1], base)
    else history
  }

  /** The last row after `base` that sets the field: an append names fields but sets none. */
  function LastPatch(history: seq<LogRow>, base: int, field: string): Option<LogRow> {
    if history == [] then None
    else
      var last := history[|history| - 1];
      if last.revision > base && last.event.op.Patch? && field in last.event.payload then Some(last)
      else LastPatch(history[..|history| - 1], base, field)
  }

  lemma {:induction false} LastPatchSets(history: seq<LogRow>, base: int, field: string)
    ensures LastPatch(history, base, field).Some? ==>
              LastPatch(history, base, field).value in history
              && Names(LastPatch(history, base, field).value, base, field)
              && LastPatch(history, base, field).value.event.op.Patch?
  {
    if history != [] {
      LastPatchSets(history[..|history| - 1], base, field);
    }
  }

  /** The field keeps the value that the writer of the patch saw, or has the one it brings. */
  predicate LosesNothing(history: seq<LogRow>, e: Event, field: string)
    requires field in e.payload
  {
    || FieldOf(Fold(history), field) == FieldOf(Fold(Seen(history, Base(e))), field)
    || FieldOf(Fold(history), field) == Some(e.payload[field])
  }

  /**
   No lost update, exactly: a patch that meets no conflict overwrites only what its writer saw or
   its own value if and only if no unseen patch set the field, or the last one to do so
   set it to the value that arrives or back to the value seen.
   */
  lemma NoConflictLosesNothingIff(history: seq<LogRow>, e: Event, field: string)
    requires Increasing(history) && e.op.Patch? && DetectConflicts(history, e) == map[]
    requires field in e.payload && field != REVIVE_FIELD
    ensures LastPatch(history, Base(e), field).Some? ==> field in LastPatch(history, Base(e), field).value.event.payload
    ensures LosesNothing(history, e, field) <==>
              var patch := LastPatch(history, Base(e), field);
              || patch.None?
              || patch.value.event.payload[field] == e.payload[field]
              || FieldOf(Fold(Seen(history, Base(e))), field) == Some(patch.value.event.payload[field])
  {
    ConflictKeys(history, e);
    LastPatchSets(history, Base(e), field);
    FoldIsSeenOrLastPatch(history, Base(e), field);
  }

  /** So nothing is lost unless an unseen append names the field. */
  lemma NoConflictLosesNothing(history: seq<LogRow>, e: Event, field: string)
    requires Increasing(history) && e.op.Patch? && DetectConflicts(history, e) == map[]
    requires field in e.payload && field != REVIVE_FIELD
    requires forall r :: r in history && Names(r, Base(e), field) ==> !r.event.op.Append?
    ensures LosesNothing(history, e, field)
  {
    NoConflictLosesNothingIff(history, e, field);
    ConflictKeys(history, e);
    assert !Contends(history, e, field);
    HeadIsLastPatch(history, Base(e), field);
  }

  lemma {:induction false} HeadIsLastPatch(history: seq<LogRow>, base: int, field: string)
    requires forall r :: r in history && Names(r, base, field) ==> !r.event.op.Append?
    ensures LastPatch(history, base, field) == FieldHead(history, base, field)
  {
    if history != [] {
      assert history[|history| - 1] in history;
      HeadIsLastPatch(history[..|history| - 1], base, field);
    }
  }

  /** A field's value is what was seen at `base`, unless it was set since: then it is what the last patch set. */
  lemma {:induction false} FoldIsSeenOrLastPatch(history: seq<LogRow>, base: int, field: string)
    requires Increasing(history) && LastTombstone(history, base).None?
    ensures LastPatch(history, base, field).Some? ==> field in LastPatch(history, base, field).value.event.payload
    ensures var patch := LastPatch(history, base, field);
            FieldOf(Fold(history), field) ==
            if patch.None? then FieldOf(Fold(Seen(history, base)), field) else Some(patch.value.event.payload[field])
  {
    if history != [] {
      var init, last := history[..|history| - 1], history[|history| - 1];
      if last.revision > base {
        if !(last.event.op.Patch? && field in last.event.payload) {
          FoldIsSeenOrLastPatch(init, base, field);
        }
      } else {
        NothingAfterBase(history, base, field);
      }
    }
  }

  lemma {:induction false} NothingAfterBase(history: seq<LogRow>, base: int, field: string)
    requires forall r :: r in history ==> r.revision <= base
    ensures LastPatch(history, base, field).None?
  {
    if history != [] {
      NothingAfterBase(history[..|history| - 1], base, field);
    }
  }

  // ------------------------------------------------------------- why appends are left to other collections

  const SEEN_TITLE := Event("e1", "tickets", "t", "a", 1, Patch, None, None, map["title" := Str("x")], None)
  const APPENDED := Event("e2", "tickets", "t", "a", 2, Append, None, None, map["title" := Str("y")], None)
  const INCOMING := Event("e3", "tickets", "t", "b", 1, Patch, None, None, map["title" := Str("y")], None)
  const MIXED := [LogRow(1, "w", SEEN_TITLE), LogRow(2, "w", APPENDED)]

  /**
   When one does, something can be: the append is taken for the head of a field it does not set, so a
   patch with the appended value overwrites an unseen one without a conflict.
   */
  lemma AppendHidesPatch()
    ensures Increasing(MIXED) && DetectConflicts(MIXED, INCOMING) == map[]
    ensures FieldOf(Fold(MIXED), "title") == Some(Str("x"))
    ensures FieldOf(Fold(Seen(MIXED, 0)), "title") == None && !LosesNothing(MIXED, INCOMING, "title")
  {
    assert "x"[0] != "y"[0];
    assert MIXED[..1] == [LogRow(1, "w", SEEN_TITLE)] && MIXED[..1][..0] == [];
    assert LastTombstone(MIXED[..1][..0], 0) == None && LastTombstone(MIXED[..1], 0) == None;
    assert LastTombstone(MIXED, 0) == None;
    assert FieldHead(MIXED, 0, "title") == Some(MIXED[1]);
    assert Fold(MIXED[..1][..0]) == None && Fold(MIXED[..1]) == Some(map[] + map["title" := Str("x")]);
    assert Fold(MIXED) == Fold(MIXED[..1]);
    assert Seen(MIXED[..1][..0], 0) == [] && Seen(MIXED[..1], 0) == [] && Seen(MIXED, 0) == [];
    ConflictKeys(MIXED, INCOMING);
    assert DetectConflicts(MIXED, INCOMING) == map[] by {
      assert forall f :: f in INCOMING.payload ==> f == "title";
      assert !Contends(MIXED, INCOMING, "title");
      assert DetectConflicts(MIXED, INCOMING).Keys == {};
    }
  }
}
