/**
 What a commit says of the rows that its writer has not seen, in terms of the rows of the log and
 their revisions alone: which events compare-and-swap refuses, and which conflicts are reported.
 */
module Contention {
  import opened Wrappers
  import opened Sequences
  import opened Json
  import opened SyncEvents
  import opened CommitLog

  /** A row of the event's entity, between the event's base (or 0) and a revision, both left out. */
  ghost predicate IsUnseen(rows: seq<LogRow>, workspace: string, e: Event, revision: nat, r: LogRow) {
    && r in rows && r.workspace == workspace && r.event.collection == e.collection && r.event.entityId == e.entityId
    && (e.baseRev.Some? ==> e.baseRev.value < r.revision) && (e.baseRev.None? ==> 0 < r.revision)
    && r.revision < revision
  }

  ghost predicate IsDeletion(rows: seq<LogRow>, workspace: string, e: Event, revision: nat, r: LogRow) {
    IsUnseen(rows, workspace, e, revision, r) && r.event.op.Tombstone?
  }

  ghost predicate NothingDeleted(rows: seq<LogRow>, workspace: string, e: Event, revision: nat) {
    forall r :: !IsDeletion(rows, workspace, e, revision, r)
  }

  ghost predicate IsLastDeletion(rows: seq<LogRow>, workspace: string, e: Event, revision: nat, r: LogRow) {
    && IsDeletion(rows, workspace, e, revision, r)
    && forall s :: IsDeletion(rows, workspace, e, revision, s) ==> s.revision <= r.revision
  }

  ghost predicate IsSetter(rows: seq<LogRow>, workspace: string, e: Event, revision: nat, field: string, r: LogRow) {
    IsUnseen(rows, workspace, e, revision, r) && !r.event.op.Tombstone? && field in r.event.payload
  }

  /** The last unseen row to name a field of the event, when it brings another value. */
  ghost predicate IsContender(rows: seq<LogRow>, workspace: string, e: Event, revision: nat, field: string, r: LogRow) {
    && field in e.payload && field != "__revive__"
    && IsSetter(rows, workspace, e, revision, field, r)
    && (forall s :: IsSetter(rows, workspace, e, revision, field, s) ==> s.revision <= r.revision)
    && r.event.payload[field] != e.payload[field]
  }

  /** The event's collection is merged field by field, the last writer winning. */
  predicate IsMerged(collection: string) {
    collection in {
      "workspaces", "projects", "tickets", "ticket_relationships", "members", "agent_proposals", "memory_entries",
      "memory_links", "devices", "skill_containers", "skill_mappings", "milestones", "ticket_milestones", "follow_ups"}
  }

  /** The event is a patch, and something unseen deletes its entity or contends with a field of it. */
  ghost predicate IsContended(rows: seq<LogRow>, workspace: string, e: Event, revision: nat) {
    && e.op.Patch? && IsMerged(e.collection)
    && (|| !NothingDeleted(rows, workspace, e, revision)
        || (exists f, r :: IsContender(rows, workspace, e, revision, f, r)))
  }

  /** The conflicts are one for the whole entity after an unseen deletion, and else one for each contended field. */
  ghost predicate Reports(
      rows: seq<LogRow>, workspace: string, e: Event, revision: nat, conflicts: map<string, FieldConflict>)
  {
    && (conflicts != map[] <==> IsContended(rows, workspace, e, revision))
    && (IsContended(rows, workspace, e, revision) ==>
          && (forall r :: IsLastDeletion(rows, workspace, e, revision, r) ==>
                conflicts == map["__entity__" := FieldConflict(r.revision, Null, Obj(e.payload))])
          && (NothingDeleted(rows, workspace, e, revision) ==>
                && (forall f :: f in conflicts ==> exists r :: IsContender(rows, workspace, e, revision, f, r))
                && (forall f, r :: IsContender(rows, workspace, e, revision, f, r) ==>
                      f in conflicts && conflicts[f] == FieldConflict(r.revision, r.event.payload[f], e.payload[f]))))
  }

  lemma MergedCollections(collection: string)
    ensures IsMerged(collection) <==> collection in MERGE_POLICY && MERGE_POLICY[collection] == Lww
  {
  }

  /** What is unseen of a log is what lies past the event's base in its entity's history. */
  lemma UnseenInHistory(log: Log, workspace: string, e: Event, r: LogRow)
    requires Valid(log)
    ensures IsUnseen(log.rows, workspace, e, log.sequence + 1, r) <==> r in History(log.rows, workspace, e) && r.revision > Base(e)
  {
  }

  /** A head at or below the base leaves nothing unseen, so the shortcut that it takes loses no conflict. */
  lemma ConflictsAreThoseDetected(log: Log, workspace: string, e: Event)
    requires Valid(log) && e.op.Patch? && IsMerged(e.collection)
    ensures ConflictsFor(log.rows, workspace, e) == DetectConflicts(History(log.rows, workspace, e), e)
  {
    var history := History(log.rows, workspace, e);
    MergedCollections(e.collection);
    if Head(history) <= Base(e) {
      HeadIsLargest(log.rows, workspace, e);
      NothingUnseen(history, e);
    }
  }

  lemma NothingUnseen(history: seq<LogRow>, e: Event)
    requires e.op.Patch? && forall r :: r in history ==> r.revision <= Base(e)
    ensures DetectConflicts(history, e) == map[]
  {
    NoTombstoneUnseen(history, Base(e));
    forall f | f in e.payload ensures FieldHead(history, Base(e), f).None? {
      NoFieldHeadUnseen(history, Base(e), f);
    }
    ConflictKeys(history, e);
  }

  lemma {:induction false} NoTombstoneUnseen(history: seq<LogRow>, base: int)
    requires forall r :: r in history ==> r.revision <= base
    ensures LastTombstone(history, base).None?
  {
    if history != [] {
      NoTombstoneUnseen(history[..|history| - 1], base);
    }
  }

  lemma {:induction false} NoFieldHeadUnseen(history: seq<LogRow>, base: int, field: string)
    requires forall r :: r in history ==> r.revision <= base
    ensures FieldHead(history, base, field).None?
  {
    if history != [] {
      NoFieldHeadUnseen(history[..|history| - 1], base, field);
    }
  }

  lemma ContendersAre(log: Log, workspace: string, e: Event, f: string, r: LogRow)
    requires Valid(log)
    ensures IsContender(log.rows, workspace, e, log.sequence + 1, f, r) <==> ContendsWith(History(log.rows, workspace, e), e, f, r)
  {
    var history := History(log.rows, workspace, e);
    forall s ensures IsSetter(log.rows, workspace, e, log.sequence + 1, f, s) <==> s in history && Names(s, Base(e), f) {
      UnseenInHistory(log, workspace, e, s);
    }
  }

  lemma DeletionsAre(log: Log, workspace: string, e: Event, r: LogRow)
    requires Valid(log)
    ensures IsDeletion(log.rows, workspace, e, log.sequence + 1, r) <==> r in History(log.rows, workspace, e) && Deletes(r, Base(e))
    ensures IsLastDeletion(log.rows, workspace, e, log.sequence + 1, r)
       <==> IsLast(History(log.rows, workspace, e), s => Deletes(s, Base(e)), r)
  {
    forall s
      ensures IsDeletion(log.rows, workspace, e, log.sequence + 1, s) <==> s in History(log.rows, workspace, e) && Deletes(s, Base(e))
    {
      UnseenInHistory(log, workspace, e, s);
    }
  }

  lemma ContendedIff(log: Log, workspace: string, e: Event)
    requires Valid(log) && e.op.Patch? && IsMerged(e.collection)
    ensures IsContended(log.rows, workspace, e, log.sequence + 1) <==> DetectConflicts(History(log.rows, workspace, e), e) != map[]
  {
    var history, revision := History(log.rows, workspace, e), log.sequence + 1;
    EntityRowsIncrease(log.rows, workspace, e.collection, e.entityId);
    ConflictsAreDetected(history, e);
    forall r ensures IsDeletion(log.rows, workspace, e, revision, r) <==> r in history && Deletes(r, Base(e)) {
      DeletionsAre(log, workspace, e, r);
    }
    forall f, r ensures IsContender(log.rows, workspace, e, revision, f, r) <==> ContendsWith(history, e, f, r) {
      ContendersAre(log, workspace, e, f, r);
    }
  }

  lemma DeletionIsReported(log: Log, workspace: string, e: Event, r: LogRow)
    requires Valid(log) && e.op.Patch? && IsLastDeletion(log.rows, workspace, e, log.sequence + 1, r)
    ensures DetectConflicts(History(log.rows, workspace, e), e)
         == map["__entity__" := FieldConflict(r.revision, Null, Obj(e.payload))]
  {
    EntityRowsIncrease(log.rows, workspace, e.collection, e.entityId);
    DeletionsAre(log, workspace, e, r);
    ConflictsAreDetected(History(log.rows, workspace, e), e);
  }

  lemma ContenderIsReported(log: Log, workspace: string, e: Event, f: string, r: LogRow)
    requires Valid(log) && e.op.Patch? && NothingDeleted(log.rows, workspace, e, log.sequence + 1)
    requires IsContender(log.rows, workspace, e, log.sequence + 1, f, r)
    ensures var conflicts := DetectConflicts(History(log.rows, workspace, e), e);
            f in conflicts && conflicts[f] == FieldConflict(r.revision, r.event.payload[f], e.payload[f])
  {
    NothingDeletes(log, workspace, e);
    ContendersAre(log, workspace, e, f, r);
    ConflictsAreDetected(History(log.rows, workspace, e), e);
  }

  lemma NothingDeletes(log: Log, workspace: string, e: Event)
    requires Valid(log) && NothingDeleted(log.rows, workspace, e, log.sequence + 1)
    ensures Increasing(History(log.rows, workspace, e))
    ensures forall s :: s in History(log.rows, workspace, e) ==> !Deletes(s, Base(e))
  {
    EntityRowsIncrease(log.rows, workspace, e.collection, e.entityId);
    forall s | s in History(log.rows, workspace, e) ensures !Deletes(s, Base(e)) {
      DeletionsAre(log, workspace, e, s);
    }
  }

  lemma ReportedHasContender(log: Log, workspace: string, e: Event, f: string) returns (r: LogRow)
    requires Valid(log) && e.op.Patch? && NothingDeleted(log.rows, workspace, e, log.sequence + 1)
    requires f in DetectConflicts(History(log.rows, workspace, e), e)
    ensures IsContender(log.rows, workspace, e, log.sequence + 1, f, r)
  {
    NothingDeletes(log, workspace, e);
    ConflictsAreDetected(History(log.rows, workspace, e), e);
    r :| ContendsWith(History(log.rows, workspace, e), e, f, r);
    ContendersAre(log, workspace, e, f, r);
  }

  /** A patch's conflicts, as far as they are detected against its history, are those that the log calls for. */
  lemma DetectedAreReported(log: Log, workspace: string, e: Event)
    requires Valid(log) && e.op.Patch? && IsMerged(e.collection)
    ensures Reports(log.rows, workspace, e, log.sequence + 1, DetectConflicts(History(log.rows, workspace, e), e))
  {
    var conflicts, revision := DetectConflicts(History(log.rows, workspace, e), e), log.sequence + 1;
    ContendedIff(log, workspace, e);
    forall r | IsLastDeletion(log.rows, workspace, e, revision, r)
      ensures conflicts == map["__entity__" := FieldConflict(r.revision, Null, Obj(e.payload))]
    {
      DeletionIsReported(log, workspace, e, r);
    }
    if NothingDeleted(log.rows, workspace, e, revision) {
      forall f, r | IsContender(log.rows, workspace, e, revision, f, r)
        ensures f in conflicts && conflicts[f] == FieldConflict(r.revision, r.event.payload[f], e.payload[f])
      {
        ContenderIsReported(log, workspace, e, f, r);
      }
      forall f | f in conflicts ensures exists r :: IsContender(log.rows, workspace, e, revision, f, r) {
        var r := ReportedHasContender(log, workspace, e, f);
      }
    }
  }

  /** The conflicts that a commit computes are those that the rows of the log call for. */
  lemma ConflictsAreReported(log: Log, workspace: string, e: Event)
    requires Valid(log)
    ensures Reports(log.rows, workspace, e, log.sequence + 1, ConflictsFor(log.rows, workspace, e))
  {
    MergedCollections(e.collection);
    if e.op.Patch? && IsMerged(e.collection) {
      ConflictsAreThoseDetected(log, workspace, e);
      DetectedAreReported(log, workspace, e);
    }
  }

  // ------------------------------------------------------------------------------ one event

  /** No row of the log has the event's key or its id. */
  ghost predicate IsFree(rows: seq<LogRow>, e: Event) {
    forall r :: r in rows ==>
      !(r.event.actorId == e.actorId && r.event.actorSeq == e.actorSeq) && r.event.eventId != e.eventId
  }

  /**
   Compare-and-swap refuses an event exactly when it is contended, with the conflicts that the log
   calls for, and commits it exactly when it is not, the log lists its collection, and its keys are
   free. A plain commit that commits it reports the conflicts that the log calls for.
   */
  lemma CasCommitsIff(log: Log, workspace: string, e: Event)
    requires Valid(log)
    ensures var cas, contended := CommitOne(log, workspace, e, true).result, IsContended(log.rows, workspace, e, log.sequence + 1);
            && (cas.Err? && cas.error.RebaseRequired? <==> contended)
            && (contended ==> cas.error.event == e && Reports(log.rows, workspace, e, log.sequence + 1, cas.error.conflicts))
            && (cas.Ok? && cas.value.status == Committed
                <==> !contended && e.collection in SYNCABLE_COLLECTIONS && IsFree(log.rows, e))
    ensures var plain := CommitOne(log, workspace, e, false).result;
            && (plain.Ok? && plain.value.status == Committed <==> e.collection in SYNCABLE_COLLECTIONS && IsFree(log.rows, e))
            && (plain.Ok? && plain.value.status == Committed ==>
                  Reports(log.rows, workspace, e, log.sequence + 1, plain.value.conflicts))
  {
    ConflictsAreReported(log, workspace, e);
    FreeIff(log.rows, e);
  }

  lemma FreeIff(rows: seq<LogRow>, e: Event)
    ensures IsFree(rows, e) <==> FindKey(rows, e).None? && !HasEventId(rows, e.eventId)
  {
    if FindKey(rows, e).None? && !HasEventId(rows, e.eventId) {
      forall r | r in rows ensures !SameKey(r.event, e) && r.event.eventId != e.eventId {
        var i :| 0 <= i < |rows| && rows[i] == r;
      }
    }
    if FindKey(rows, e).Some? {
      assert rows[FindKey(rows, e).value] in rows;
    }
  }

  /** Later rows do not change what was unseen below a row's own revision. */
  lemma ReportsLater(
      rows: seq<LogRow>, workspace: string, e: Event, revision: nat, conflicts: map<string, FieldConflict>, later: seq<LogRow>)
    requires rows + [LogRow(revision, workspace, e)] <= later && Increasing(later)
    requires Reports(rows, workspace, e, revision, conflicts)
    ensures Reports(later, workspace, e, revision, conflicts)
  {
    RowsBefore(rows, LogRow(revision, workspace, e), later);
    forall r ensures IsUnseen(rows, workspace, e, revision, r) <==> IsUnseen(later, workspace, e, revision, r) {
    }
    forall r
      ensures IsDeletion(rows, workspace, e, revision, r) <==> IsDeletion(later, workspace, e, revision, r)
      ensures IsLastDeletion(rows, workspace, e, revision, r) <==> IsLastDeletion(later, workspace, e, revision, r)
    {
    }
    forall f, r ensures IsContender(rows, workspace, e, revision, f, r) <==> IsContender(later, workspace, e, revision, f, r) {
      assert forall s :: IsSetter(rows, workspace, e, revision, f, s) <==> IsSetter(later, workspace, e, revision, f, s);
    }
  }

  // -------------------------------------------------------------------------------- a batch

  /** A committed result tells the conflicts of its event; under compare-and-swap there are none. */
  ghost predicate IsReported(rows: seq<LogRow>, workspace: string, e: Event, result: CommitRow, cas: bool) {
    && Reports(rows, workspace, e, result.revision, result.conflicts)
    && (cas ==> !IsContended(rows, workspace, e, result.revision))
  }

  lemma CommitOneReports(log: Log, workspace: string, e: Event, cas: bool, later: seq<LogRow>)
    requires Valid(log) && Increasing(later)
    requires var out := CommitOne(log, workspace, e, cas);
             out.result.Ok? && out.result.value.status == Committed && out.log.rows <= later
    ensures IsReported(later, workspace, e, CommitOne(log, workspace, e, cas).result.value, cas)
  {
    var row := CommitOne(log, workspace, e, cas).result.value;
    CommittedRowIs(log, workspace, e, cas);
    ConflictsAreReported(log, workspace, e);
    ReportedLater(log, workspace, e, row, cas, later);
  }

  lemma CommittedRowIs(log: Log, workspace: string, e: Event, cas: bool)
    requires var out := CommitOne(log, workspace, e, cas); out.result.Ok? && out.result.value.status == Committed
    ensures var out := CommitOne(log, workspace, e, cas);
            && out.log.rows == log.rows + [LogRow(log.sequence + 1, workspace, e)] && out.result.value.revision == log.sequence + 1
            && out.result.value.conflicts == ConflictsFor(log.rows, workspace, e)
            && (cas ==> out.result.value.conflicts == map[])
  {
  }

  lemma ReportedLater(log: Log, workspace: string, e: Event, row: CommitRow, cas: bool, later: seq<LogRow>)
    requires log.rows + [LogRow(log.sequence + 1, workspace, e)] <= later && Increasing(later)
    requires row.revision == log.sequence + 1 && (cas ==> row.conflicts == map[])
    requires Reports(log.rows, workspace, e, log.sequence + 1, row.conflicts)
    ensures IsReported(later, workspace, e, row, cas)
  {
    ReportsLater(log.rows, workspace, e, row.revision, row.conflicts, later);
  }

  ghost predicate AllReported(
      rows: seq<LogRow>, workspace: string, events: seq<Event>, results: seq<CommitRow>, cas: bool)
  {
    && |results| == |events|
    && forall i :: 0 <= i < |events| && results[i].status == Committed ==> IsReported(rows, workspace, events[i], results[i], cas)
  }

  lemma AllReportedInTwo(
      rows: seq<LogRow>, workspace: string, events: seq<Event>, row: CommitRow, rest: seq<CommitRow>,
      results: seq<CommitRow>, cas: bool)
    requires events != [] && results == [row] + rest
    requires row.status == Committed ==> IsReported(rows, workspace, events[0], row, cas)
    requires AllReported(rows, workspace, events[1..], rest, cas)
    ensures AllReported(rows, workspace, events, results, cas)
  {
    forall i | 0 <= i < |events| && results[i].status == Committed ensures IsReported(rows, workspace, events[i], results[i], cas) {
      if i > 0 {
        assert events[i] == events[1..][i - 1] && results[i] == rest[i - 1];
      }
    }
  }

  /** So does every committed result of a batch, in the log that the batch leaves and in every later one. */
  lemma {:induction false} BatchReports(log: Log, workspace: string, events: seq<Event>, cas: bool, later: seq<LogRow>)
    requires Valid(log) && Increasing(later)
    requires CommitAll(log, workspace, events, cas).result.Ok? && CommitAll(log, workspace, events, cas).log.rows <= later
    ensures AllReported(later, workspace, events, CommitAll(log, workspace, events, cas).result.value, cas)
    decreases |events|
  {
    if events != [] {
      FirstAndRest(log, workspace, events, cas);
      var first := CommitOne(log, workspace, events[0], cas);
      CommitOneKeepsValid(log, workspace, events[0], cas);
      CommitAllKeepsValid(first.log, workspace, events[1..], cas);
      if first.result.value.status == Committed {
        CommitOneReports(log, workspace, events[0], cas, later);
      }
      BatchReports(first.log, workspace, events[1..], cas, later);
      AllReportedInTwo(later, workspace, events, first.result.value,
                       CommitAll(first.log, workspace, events[1..], cas).result.value,
                       CommitAll(log, workspace, events, cas).result.value, cas);
    }
  }

  // ------------------------------------------------------------------- where a batch is refused

  /** What comes before the event at `k` can be committed, and the event is contended in the log that leaves. */
  ghost predicate ContendsAt(log: Log, workspace: string, events: seq<Event>, k: int) {
    0 <= k < |events| && ContendsAfter(CommitAll(log, workspace, events[..k], false), workspace, events[k])
  }

  ghost predicate ContendsAfter(before: Outcome, workspace: string, e: Event) {
    before.result.Ok? && IsContended(before.log.rows, workspace, e, before.log.sequence + 1)
  }

  ghost predicate ContendsFirstAt(log: Log, workspace: string, events: seq<Event>, k: int) {
    ContendsAt(log, workspace, events, k) && forall i :: 0 <= i < k ==> !ContendsAt(log, workspace, events, i)
  }

  lemma ContendsAtStart(log: Log, workspace: string, events: seq<Event>)
    requires Valid(log) && events != []
    ensures ContendsAt(log, workspace, events, 0) <==> ConflictsFor(log.rows, workspace, events[0]) != map[]
  {
    assert events[..0] == [];
    ConflictsAreReported(log, workspace, events[0]);
  }

  lemma ContendsAtNext(log: Log, workspace: string, events: seq<Event>, k: int)
    requires 0 < k < |events|
    ensures var first := CommitOne(log, workspace, events[0], false);
            ContendsAt(log, workspace, events, k) <==> first.result.Ok? && ContendsAt(first.log, workspace, events[1..], k - 1)
  {
    var first := CommitOne(log, workspace, events[0], false);
    if first.result.Ok? {
      PrefixCommits(log, workspace, events, k - 1);
      assert events[1..][k - 1] == events[k];
    } else {
      assert events[..k][0] == events[0];
    }
  }

  ghost predicate IsFirstContention(log: Log, workspace: string, events: seq<Event>, k: Option<nat>) {
    && (k.None? ==> forall i :: !ContendsAt(log, workspace, events, i))
    && (k.Some? ==> ContendsFirstAt(log, workspace, events, k.value))
  }

  lemma FirstIsRefused(log: Log, workspace: string, events: seq<Event>)
    requires events != [] && !ContendsAt(log, workspace, events, 0) && CommitOne(log, workspace, events[0], false).result.Err?
    ensures IsFirstContention(log, workspace, events, None)
  {
    forall i | 0 < i < |events| ensures !ContendsAt(log, workspace, events, i) {
      ContendsAtNext(log, workspace, events, i);
    }
  }

  lemma FirstInRest(log: Log, workspace: string, events: seq<Event>, next: Log, rest: Option<nat>)
    requires events != [] && !ContendsAt(log, workspace, events, 0)
    requires CommitOne(log, workspace, events[0], false).result.Ok? && next == CommitOne(log, workspace, events[0], false).log
    requires IsFirstContention(next, workspace, events[1..], rest)
    ensures IsFirstContention(log, workspace, events, if rest.Some? then Some(rest.value + 1) else None)
  {
    forall i | 0 < i < |events| ensures ContendsAt(log, workspace, events, i) <==> ContendsAt(next, workspace, events[1..], i - 1) {
      ContendsAtNext(log, workspace, events, i);
    }
  }

  /** The first contention is what it says: the first event that something unseen deletes or contends with. */
  lemma {:induction false} FirstContentionIs(log: Log, workspace: string, events: seq<Event>)
    requires Valid(log)
    ensures IsFirstContention(log, workspace, events, FirstContention(log, workspace, events))
    decreases |events|
  {
    if events != [] {
      var first := CommitOne(log, workspace, events[0], false);
      ContendsAtStart(log, workspace, events);
      if ConflictsFor(log.rows, workspace, events[0]) == map[] {
        if first.result.Ok? {
          CommitOneKeepsValid(log, workspace, events[0], false);
          FirstContentionIs(first.log, workspace, events[1..]);
          FirstInRest(log, workspace, events, first.log, FirstContention(first.log, workspace, events[1..]));
        } else {
          FirstIsRefused(log, workspace, events);
        }
      }
    }
  }

  /** A refusal at `k` names the event there, with the conflicts that the log before it calls for. */
  ghost predicate IsRefusedAt(log: Log, workspace: string, events: seq<Event>, k: nat, cas: Outcome)
    requires k < |events|
  {
    IsRefusedOn(CommitAll(log, workspace, events[..k], false).log, workspace, events[k], cas)
  }

  ghost predicate IsRefusedOn(before: Log, workspace: string, e: Event, cas: Outcome) {
    && cas.result.Err? && cas.result.error.RebaseRequired? && cas.result.error.event == e
    && Reports(before.rows, workspace, e, before.sequence + 1, cas.result.error.conflicts)
  }

  lemma RaisedOn(before: Log, workspace: string, e: Event, cas: Outcome)
    requires Valid(before) && cas.result == Err(RebaseRequired(e, ConflictsFor(before.rows, workspace, e)))
    ensures IsRefusedOn(before, workspace, e, cas)
  {
    ConflictsAreReported(before, workspace, e);
  }

  lemma RaisedIsRefused(log: Log, workspace: string, events: seq<Event>, k: nat, cas: Outcome)
    requires Valid(log) && k < |events| && RaisesAt(log, workspace, events, k, cas)
    ensures IsRefusedAt(log, workspace, events, k, cas)
  {
    CommitAllKeepsValid(log, workspace, events[..k], false);
    RaisedOn(CommitAll(log, workspace, events[..k], false).log, workspace, events[k], cas);
  }

  /** Under compare-and-swap a batch is refused at its first contended event. */
  lemma CasRefusesFirstContended(log: Log, workspace: string, events: seq<Event>, k: nat)
    requires Valid(log) && ContendsFirstAt(log, workspace, events, k)
    ensures IsRefusedAt(log, workspace, events, k, CommitAll(log, workspace, events, true))
  {
    FirstContentionIs(log, workspace, events);
    assert FirstContention(log, workspace, events) == Some(k);
    CasRefinesCommit(log, workspace, events);
    RaisedIsRefused(log, workspace, events, k, CommitAll(log, workspace, events, true));
  }

  /** Without one it is committed, or refused for another reason, as a plain commit would. */
  lemma CasCommitsUncontended(log: Log, workspace: string, events: seq<Event>)
    requires Valid(log) && forall k :: !ContendsAt(log, workspace, events, k)
    ensures CommitAll(log, workspace, events, true) == CommitAll(log, workspace, events, false)
  {
    FirstContentionIs(log, workspace, events);
    CasRefinesCommit(log, workspace, events);
  }
}
