/**
 The atomic commit of the self-hosted backend: validate every event, then commit them in
 submission order with a dedup floor and, on request, compare-and-swap.
 */
module CommitLog {
  import opened Wrappers
  import opened Sequences
  import opened Json
  import opened SyncEvents

  datatype MergePolicy = Lww | AppendOnly | AuthoritativeTx

  const MERGE_POLICY: map<string, MergePolicy> := map[
    "workspaces" := Lww, "projects" := Lww, "tickets" := Lww, "comments" := AppendOnly,
    "ticket_relationships" := Lww, "members" := Lww, "tokens" := AuthoritativeTx, "audit_events" := AppendOnly,
    "agent_proposals" := Lww, "memory_entries" := Lww, "memory_links" := Lww, "devices" := Lww,
    "capability_grants" := AuthoritativeTx, "skill_containers" := Lww, "skill_mappings" := Lww,
    "conflict_records" := AuthoritativeTx, "audit_anchors" := AppendOnly, "milestones" := Lww,
    "ticket_milestones" := Lww, "follow_ups" := Lww]

  /** What the log's check constraint lets in. */
  const SYNCABLE_COLLECTIONS := {
    "workspaces", "projects", "tickets", "comments", "ticket_relationships", "members", "agent_proposals",
    "memory_entries", "memory_links", "devices", "capability_grants", "conflict_records", "milestones",
    "ticket_milestones"}

  /** The log, and the last value its identity sequence has handed out. */
  datatype Log = Log(rows: seq<LogRow>, sequence: nat)

  /** Revisions increase and come from the sequence; the two unique keys and the check constraint hold. */
  ghost predicate Valid(log: Log) {
    && Increasing(log.rows)
    && (forall r :: r in log.rows ==> 0 < r.revision <= log.sequence && r.event.collection in SYNCABLE_COLLECTIONS)
    && (forall i, j :: 0 <= i < j < |log.rows| ==>
          !SameKey(log.rows[i].event, log.rows[j].event) && log.rows[i].event.eventId != log.rows[j].event.eventId)
  }

  // ------------------------------------------------------------------------ one event's commit

  datatype Status = Committed | Duplicate

  datatype CommitRow = CommitRow(
    eventId: string,
    status: Status,
    revision: nat,
    baseRev: Option<int>,
    headRev: Option<nat>,
    staleBaseRev: Option<int>,
    conflicts: map<string, FieldConflict>)

  datatype Constraint = CollectionCheck | UniqueEventId

  datatype CommitError =
    | EventRejected(event: Event)
    | RebaseRequired(event: Event, conflicts: map<string, FieldConflict>)
    | IntegrityError(event: Event, constraint: Constraint)

  function History(rows: seq<LogRow>, workspace: string, e: Event): seq<LogRow> {
    EntityRows(rows, workspace, e.collection, e.entityId)
  }

  /** The conflicts that a patch on an `lww` collection meets once the head has moved past its base. */
  function ConflictsFor(rows: seq<LogRow>, workspace: string, e: Event): map<string, FieldConflict> {
    var history := History(rows, workspace, e);
    if !e.op.Patch? || !(e.collection in MERGE_POLICY && MERGE_POLICY[e.collection] == Lww) || Head(history) <= Base(e)
    then map[]
    else DetectConflicts(history, e)
  }

  /** The position of the row with the event's dedup key. */
  function FindKey(rows: seq<LogRow>, e: Event): (found: Option<nat>)
    ensures found.Some? ==> found.value < |rows| && SameKey(rows[found.value].event, e)
    ensures found.None? ==> forall i :: 0 <= i < |rows| ==> !SameKey(rows[i].event, e)
  {
    if rows == [] then None
    else if SameKey(rows[|rows| - 1].event, e) then Some(|rows| - 1)
    else FindKey(rows[..|rows| - 1], e)
  }

  predicate HasEventId(rows: seq<LogRow>, eventId: string) {
    exists i :: 0 <= i < |rows| && rows[i].event.eventId == eventId
  }

  function StaleBase(e: Event, head: nat): Option<int> {
    if e.baseRev.Some? && e.baseRev.value < head then e.baseRev else None
  }

  datatype StepOutcome = StepOutcome(log: Log, result: Result<CommitRow, CommitError>)

  /**
   One insert: the check constraint first, then the dedup floor, then the unique event id.
   The identity sequence advances even when nothing is inserted.
   */
  function CommitOne(log: Log, workspace: string, e: Event, cas: bool): StepOutcome {
    var head, conflicts := Head(History(log.rows, workspace, e)), ConflictsFor(log.rows, workspace, e);
    var drawn := log.sequence + 1;
    var held := Log(log.rows, drawn);
    if cas && conflicts != map[] then StepOutcome(log, Err(RebaseRequired(e, conflicts)))
    else if e.collection !in SYNCABLE_COLLECTIONS then StepOutcome(held, Err(IntegrityError(e, CollectionCheck)))
    else
      var found := FindKey(log.rows, e);
      if found.Some? then
        StepOutcome(held, Ok(CommitRow(e.eventId, Duplicate, log.rows[found.value].revision, None, None, None, map[])))
      else if HasEventId(log.rows, e.eventId) then StepOutcome(held, Err(IntegrityError(e, UniqueEventId)))
      else
        StepOutcome(Log(log.rows + [LogRow(drawn, workspace, e)], drawn),
                    Ok(CommitRow(e.eventId, Committed, drawn, e.baseRev, Some(head), StaleBase(e, head), conflicts)))
  }

  // ---------------------------------------------------------------------------- a whole batch

  /** The log inside the transaction, and what the loop returns or raises. */
  datatype Outcome = Outcome(log: Log, result: Result<seq<CommitRow>, CommitError>)

  function CommitAll(log: Log, workspace: string, events: seq<Event>, cas: bool): Outcome
    decreases |events|
  {
    if events == [] then Outcome(log, Ok([]))
    else
      var first := CommitOne(log, workspace, events[0], cas);
      match first.result
      case Err(error) => Outcome(first.log, Err(error))
      case Ok(row) =>
        var rest := CommitAll(first.log, workspace, events[1..], cas);
        Outcome(rest.log, if rest.result.Ok? then Ok([row] + rest.result.value) else rest.result)
  }

  type Verifier = Event -> bool

  /** The first event that is refused on its own. */
  function FirstRejected(events: seq<Event>, verify: Verifier): Option<Event> {
    if events == [] then None
    else if !verify(events[0]) then Some(events[0])
    else FirstRejected(events[1..], verify)
  }

  /** The transaction: what is raised rolls the rows back, but never the identity sequence. */
  function Commit(log: Log, workspace: string, events: seq<Event>, verify: Verifier, cas: bool): Outcome {
    var rejected := FirstRejected(events, verify);
    if rejected.Some? then Outcome(log, Err(EventRejected(rejected.value)))
    else
      var out := CommitAll(log, workspace, events, cas);
      if out.result.Ok? then out else Outcome(Log(log.rows, out.log.sequence), out.result)
  }

  // ------------------------------------------------------------------------------ the log grows

  lemma CommitOneKeepsValid(log: Log, workspace: string, e: Event, cas: bool)
    requires Valid(log)
    ensures var out := CommitOne(log, workspace, e, cas);
            Valid(out.log) && log.rows <= out.log.rows && log.sequence <= out.log.sequence
  {
    var out := CommitOne(log, workspace, e, cas);
    if out.log.rows == log.rows {
      assert Valid(Log(log.rows, out.log.sequence));
    } else {
      AppendKeepsValid(log, LogRow(log.sequence + 1, workspace, e));
    }
  }

  lemma AppendKeepsValid(log: Log, row: LogRow)
    requires Valid(log) && row.revision == log.sequence + 1 && row.event.collection in SYNCABLE_COLLECTIONS
    requires FindKey(log.rows, row.event).None? && !HasEventId(log.rows, row.event.eventId)
    ensures Valid(Log(log.rows + [row], log.sequence + 1))
  {
    forall i | 0 <= i < |log.rows|
      ensures log.rows[i].revision < row.revision && !SameKey(log.rows[i].event, row.event)
      ensures log.rows[i].event.eventId != row.event.eventId
    {
      assert log.rows[i] in log.rows;
    }
  }

  /** Every commit extends the log at its end and keeps its keys unique. */
  lemma {:induction false} CommitAllKeepsValid(log: Log, workspace: string, events: seq<Event>, cas: bool)
    requires Valid(log)
    ensures var out := CommitAll(log, workspace, events, cas);
            && Valid(out.log) && log.rows <= out.log.rows && log.sequence <= out.log.sequence
            && (out.result.Ok? ==> |out.result.value| == |events|)
    decreases |events|
  {
    if events != [] {
      CommitOneKeepsValid(log, workspace, events[0], cas);
      var first := CommitOne(log, workspace, events[0], cas);
      if first.result.Ok? {
        CommitAllKeepsValid(first.log, workspace, events[1..], cas);
      }
    }
  }

  lemma CommitKeepsValid(log: Log, workspace: string, events: seq<Event>, verify: Verifier, cas: bool)
    requires Valid(log)
    ensures var out := Commit(log, workspace, events, verify, cas);
            Valid(out.log) && log.rows <= out.log.rows && (out.result.Err? ==> out.log.rows == log.rows)
  {
    CommitAllKeepsValid(log, workspace, events, cas);
  }

  /** Where a batch is refused: what comes before can be committed, and the event there is the one named. */
  ghost predicate IsRefusedIn(log: Log, workspace: string, events: seq<Event>, cas: bool, out: Outcome, k: int) {
    && 0 <= k < |events| && CommitAll(log, workspace, events[..k], cas).result.Ok?
    && out.result.Err? && out.result.error.event == events[k] && !out.result.error.EventRejected?
    && out.log.sequence == log.sequence + k + if out.result.error.IntegrityError? then 1 else 0
  }

  lemma RefusedInRest(log: Log, workspace: string, events: seq<Event>, cas: bool, first: StepOutcome, k: int)
    requires events != [] && first == CommitOne(log, workspace, events[0], cas) && first.result.Ok?
    requires first.log.sequence == log.sequence + 1
    requires IsRefusedIn(first.log, workspace, events[1..], cas, CommitAll(first.log, workspace, events[1..], cas), k)
    ensures IsRefusedIn(log, workspace, events, cas, CommitAll(log, workspace, events, cas), k + 1)
  {
    assert events[..k + 1][0] == events[0] && events[..k + 1][1..] == events[1..][..k];
    assert events[1..][k] == events[k + 1];
  }

  /**
   Every event of a batch draws one revision, whether it is inserted or not, up to and with the one
   that breaks a constraint; what a compare-and-swap refuses draws none.
   */
  lemma {:induction false} BatchDraws(log: Log, workspace: string, events: seq<Event>, cas: bool)
    ensures var out := CommitAll(log, workspace, events, cas);
            && (out.result.Ok? ==> out.log.sequence == log.sequence + |events|)
            && (out.result.Err? ==> exists k :: IsRefusedIn(log, workspace, events, cas, out, k))
    decreases |events|
  {
    if events != [] {
      var first := CommitOne(log, workspace, events[0], cas);
      if first.result.Ok? {
        BatchDraws(first.log, workspace, events[1..], cas);
        if CommitAll(first.log, workspace, events[1..], cas).result.Err? {
          var k :| IsRefusedIn(first.log, workspace, events[1..], cas, CommitAll(first.log, workspace, events[1..], cas), k);
          RefusedInRest(log, workspace, events, cas, first, k);
        }
      } else {
        assert events[..0] == [];
        assert IsRefusedIn(log, workspace, events, cas, CommitAll(log, workspace, events, cas), 0);
      }
    }
  }

  /** A refused batch takes back its rows and not the revisions that it drew. */
  lemma CommitDraws(log: Log, workspace: string, events: seq<Event>, verify: Verifier, cas: bool)
    ensures var out := Commit(log, workspace, events, verify, cas);
            && (out.result.Ok? ==> out.log.sequence == log.sequence + |events|)
            && (out.result.Err? ==> out.log.rows == log.rows)
            && (out.result.Err? && out.result.error.EventRejected? ==> out.log == log)
            && (out.result.Err? && !out.result.error.EventRejected? ==>
                  exists k :: IsRefusedIn(log, workspace, events, cas, out, k))
  {
    BatchDraws(log, workspace, events, cas);
    var all := CommitAll(log, workspace, events, cas);
    if FirstRejected(events, verify).None? && all.result.Err? {
      var k :| IsRefusedIn(log, workspace, events, cas, all, k);
      assert IsRefusedIn(log, workspace, events, cas, Commit(log, workspace, events, verify, cas), k);
    }
  }

  /** No batch with an event of a collection that the check constraint does not list is ever committed. */
  lemma {:induction false} UnlistedNeverCommits(log: Log, workspace: string, events: seq<Event>, cas: bool, e: Event)
    requires e in events && e.collection !in SYNCABLE_COLLECTIONS
    ensures CommitAll(log, workspace, events, cas).result.Err?
    decreases |events|
  {
    if e != events[0] {
      UnlistedNeverCommits(CommitOne(log, workspace, events[0], cas).log, workspace, events[1..], cas, e);
    }
  }

  // -------------------------------------------------------------------------------------- split

  /** Committing a batch is committing its parts one after the other, inside one transaction. */
  lemma {:induction false} CommitAllSplits(log: Log, workspace: string, xs: seq<Event>, ys: seq<Event>, cas: bool)
    ensures CommitAll(log, workspace, xs + ys, cas) ==
            var first := CommitAll(log, workspace, xs, cas);
            if first.result.Err? then first
            else
              var second := CommitAll(first.log, workspace, ys, cas);
              Outcome(second.log, if second.result.Ok? then Ok(first.result.value + second.result.value) else second.result)
    decreases |xs|
  {
    if xs == [] {
      assert xs + ys == ys;
      var all := CommitAll(log, workspace, ys, cas);
      assert all.result.Ok? ==> [] + all.result.value == all.result.value;
    } else {
      assert (xs + ys)[1..] == xs[1..] + ys;
      var first := CommitOne(log, workspace, xs[0], cas);
      if first.result.Ok? {
        CommitAllSplits(first.log, workspace, xs[1..], ys, cas);
        var a := CommitAll(first.log, workspace, xs[1..], cas);
        if a.result.Ok? {
          var b := CommitAll(a.log, workspace, ys, cas);
          if b.result.Ok? {
            assert [first.result.value] + (a.result.value + b.result.value) == [first.result.value] + a.result.value + b.result.value;
          }
        }
      }
    }
  }

  lemma {:induction false} RejectedSplits(xs: seq<Event>, ys: seq<Event>, verify: Verifier)
    ensures FirstRejected(xs + ys, verify)
         == if FirstRejected(xs, verify).Some? then FirstRejected(xs, verify) else FirstRejected(ys, verify)
  {
    if xs == [] {
      assert xs + ys == ys;
    } else {
      assert (xs + ys)[1..] == xs[1..] + ys;
      RejectedSplits(xs[1..], ys, verify);
    }
  }

  /** One commit of `xs + ys` succeeds exactly when committing `xs` and then `ys` does, to the same effect. */
  lemma CommitSplits(log: Log, workspace: string, xs: seq<Event>, ys: seq<Event>, verify: Verifier, cas: bool)
    ensures var whole, first := Commit(log, workspace, xs + ys, verify, cas), Commit(log, workspace, xs, verify, cas);
            var second := Commit(first.log, workspace, ys, verify, cas);
            && (whole.result.Ok? <==> first.result.Ok? && second.result.Ok?)
            && (whole.result.Ok? ==>
                  whole == Outcome(second.log, Ok(first.result.value + second.result.value)))
  {
    RejectedSplits(xs, ys, verify);
    CommitAllSplits(log, workspace, xs, ys, cas);
  }

  // -------------------------------------------------------------------------------------- retry

  /** The log holds the event's dedup key, at the given revision. */
  ghost predicate Holds(rows: seq<LogRow>, e: Event, revision: nat) {
    exists r :: r in rows && SameKey(r.event, e) && r.revision == revision
  }

  lemma CommitOneHolds(log: Log, workspace: string, e: Event, cas: bool)
    requires CommitOne(log, workspace, e, cas).result.Ok?
    ensures var out := CommitOne(log, workspace, e, cas);
            && e.collection in SYNCABLE_COLLECTIONS && out.result.value.eventId == e.eventId
            && Holds(out.log.rows, e, out.result.value.revision)
  {
    var out, found := CommitOne(log, workspace, e, cas), FindKey(log.rows, e);
    if found.Some? {
      assert log.rows[found.value] in out.log.rows;
    } else {
      assert out.log.rows[|log.rows|] in out.log.rows;
    }
  }

  /** What a result says of its event: its id, and the revision at which the log holds its key. */
  ghost predicate Answers(rows: seq<LogRow>, e: Event, result: CommitRow) {
    e.collection in SYNCABLE_COLLECTIONS && result.eventId == e.eventId && Holds(rows, e, result.revision)
  }

  lemma {:induction false} ResultsNameRevisions(log: Log, workspace: string, events: seq<Event>, cas: bool)
    requires Valid(log) && CommitAll(log, workspace, events, cas).result.Ok?
    ensures var out := CommitAll(log, workspace, events, cas);
            AllAnswered(out.log.rows, events, out.result.value)
    decreases |events|
  {
    if events != [] {
      var first := CommitOne(log, workspace, events[0], cas);
      CommitOneKeepsValid(log, workspace, events[0], cas);
      CommitOneHolds(log, workspace, events[0], cas);
      FirstAndRest(log, workspace, events, cas);
      var rest := CommitAll(first.log, workspace, events[1..], cas);
      CommitAllKeepsValid(first.log, workspace, events[1..], cas);
      ResultsNameRevisions(first.log, workspace, events[1..], cas);
    }
  }

  ghost predicate AllAnswered(rows: seq<LogRow>, events: seq<Event>, results: seq<CommitRow>) {
    |results| == |events| && forall i :: 0 <= i < |events| ==> Answers(rows, events[i], results[i])
  }

  /** The dedup floor: a key already in the log is answered with its revision, and nothing is inserted. */
  lemma HeldKeyIsDuplicate(log: Log, workspace: string, e: Event, revision: nat)
    requires Valid(log) && Holds(log.rows, e, revision) && e.collection in SYNCABLE_COLLECTIONS
    ensures CommitOne(log, workspace, e, false)
         == StepOutcome(Log(log.rows, log.sequence + 1), Ok(CommitRow(e.eventId, Duplicate, revision, None, None, None, map[])))
  {
    var r :| r in log.rows && SameKey(r.event, e) && r.revision == revision;
    var found := FindKey(log.rows, e);
    var i :| 0 <= i < |log.rows| && log.rows[i] == r;
    assert found.Some? && found.value == i;
  }

  lemma FirstDuplicate(results: seq<CommitRow>)
    requires results != []
    ensures AsDuplicates(results)
         == [CommitRow(results[0].eventId, Duplicate, results[0].revision, None, None, None, map[])] + AsDuplicates(results[1..])
  {
  }

  lemma {:induction false} HeldBatchIsDuplicate(log: Log, workspace: string, events: seq<Event>, results: seq<CommitRow>)
    requires Valid(log) && |results| == |events|
    requires forall i :: 0 <= i < |events| ==> Answers(log.rows, events[i], results[i])
    ensures CommitAll(log, workspace, events, false)
         == Outcome(Log(log.rows, log.sequence + |events|), Ok(AsDuplicates(results)))
    decreases |events|
  {
    if events != [] {
      var next := Log(log.rows, log.sequence + 1);
      assert Answers(log.rows, events[0], results[0]);
      HeldKeyIsDuplicate(log, workspace, events[0], results[0].revision);
      forall i | 0 <= i < |events[1..]| ensures Answers(next.rows, events[1..][i], results[1..][i]) {
        assert Answers(log.rows, events[i + 1], results[i + 1]);
      }
      HeldBatchIsDuplicate(next, workspace, events[1..], results[1..]);
      CommitAllPrepends(log, workspace, events, false, CommitOne(log, workspace, events[0], false));
      FirstDuplicate(results);
    }
  }

  function AsDuplicates(results: seq<CommitRow>): (again: seq<CommitRow>)
    ensures |again| == |results|
    ensures forall i :: 0 <= i < |results| ==>
              again[i] == CommitRow(results[i].eventId, Duplicate, results[i].revision, None, None, None, map[])
  {
    seq(|results|, i requires 0 <= i < |results| =>
      CommitRow(results[i].eventId, Duplicate, results[i].revision, None, None, None, map[]))
  }

  /**
   Retry: a batch that was committed can be submitted again at any later time without
   effect on the log; every event is a duplicate with the revision it had.
   */
  lemma RetryChangesNothing(log: Log, workspace: string, events: seq<Event>, later: Log, cas: bool)
    requires Valid(log) && Valid(later)
    requires var first := CommitAll(log, workspace, events, cas); first.result.Ok? && first.log.rows <= later.rows
    ensures var first, again := CommitAll(log, workspace, events, cas), CommitAll(later, workspace, events, false);
            again.log.rows == later.rows && again.result == Ok(AsDuplicates(first.result.value))
  {
    var first := CommitAll(log, workspace, events, cas);
    ResultsNameRevisions(log, workspace, events, cas);
    forall i | 0 <= i < |events| ensures Answers(later.rows, events[i], first.result.value[i]) {
      assert Answers(first.log.rows, events[i], first.result.value[i]);
    }
    HeldBatchIsDuplicate(later, workspace, events, first.result.value);
  }

  // --------------------------------------------------------------------------- compare and swap

  /** The position of the first event that contends with what is committed before it. */
  function FirstContention(log: Log, workspace: string, events: seq<Event>): (k: Option<nat>)
    ensures k.Some? ==> k.value < |events|
    decreases |events|
  {
    if events == [] then None
    else if ConflictsFor(log.rows, workspace, events[0]) != map[] then Some(0)
    else
      var first := CommitOne(log, workspace, events[0], false);
      if first.result.Err? then None
      else
        var rest := FirstContention(first.log, workspace, events[1..]);
        if rest.Some? then Some(rest.value + 1) else None
  }

  /**
   Compare-and-swap refines plain commit: it raises at the first contending event, naming its
   conflicts; with none it does exactly what plain commit does, and no conflict is reported.
   */
  lemma {:induction false} CasRefinesCommit(log: Log, workspace: string, events: seq<Event>)
    ensures Refines(log, workspace, events, FirstContention(log, workspace, events), CommitAll(log, workspace, events, true))
    decreases |events|
  {
    if events != [] && ConflictsFor(log.rows, workspace, events[0]) == map[] {
      var first := CommitOne(log, workspace, events[0], false);
      FirstDoesNotContend(log, workspace, events[0]);
      if first.result.Ok? {
        CasRefinesCommit(first.log, workspace, events[1..]);
        var k := FirstContention(first.log, workspace, events[1..]);
        CommitAllPrepends(log, workspace, events, true, first);
        if k.None? {
          CommitAllPrepends(log, workspace, events, false, first);
          PrependKeepsNoConflicts(first.result.value, CommitAll(first.log, workspace, events[1..], true));
        } else {
          PrefixCommits(log, workspace, events, k.value);
        }
      }
    }
  }

  /** What a compare-and-swap commit is in terms of plain commit, `k` being the first contention. */
  ghost predicate Refines(log: Log, workspace: string, events: seq<Event>, k: Option<nat>, cas: Outcome) {
    && (k.None? ==> cas == CommitAll(log, workspace, events, false) && (cas.result.Ok? ==> NoConflicts(cas.result.value)))
    && (k.Some? ==> k.value < |events| && RaisesAt(log, workspace, events, k.value, cas))
  }

  /** Nothing contends before `k`, and there it is refused with its conflicts. */
  ghost predicate RaisesAt(log: Log, workspace: string, events: seq<Event>, k: nat, cas: Outcome)
    requires k < |events|
  {
    var before := CommitAll(log, workspace, events[..k], false);
    && before.result.Ok?
    && cas.result == Err(RebaseRequired(events[k], ConflictsFor(before.log.rows, workspace, events[k])))
  }

  lemma FirstDoesNotContend(log: Log, workspace: string, e: Event)
    requires ConflictsFor(log.rows, workspace, e) == map[]
    ensures var out := CommitOne(log, workspace, e, false);
            out == CommitOne(log, workspace, e, true) && (out.result.Ok? ==> out.result.value.conflicts == map[])
  {
  }

  /** A row in front of an outcome's rows. */
  function Prepend(row: CommitRow, rest: Outcome): Outcome {
    Outcome(rest.log, if rest.result.Ok? then Ok([row] + rest.result.value) else rest.result)
  }

  lemma CommitAllPrepends(log: Log, workspace: string, events: seq<Event>, cas: bool, first: StepOutcome)
    requires events != [] && first == CommitOne(log, workspace, events[0], cas) && first.result.Ok?
    ensures CommitAll(log, workspace, events, cas)
         == Prepend(first.result.value, CommitAll(first.log, workspace, events[1..], cas))
  {
  }

  lemma PrependKeepsNoConflicts(row: CommitRow, rest: Outcome)
    requires row.conflicts == map[] && (rest.result.Ok? ==> NoConflicts(rest.result.value))
    ensures Prepend(row, rest).result.Ok? ==> NoConflicts(Prepend(row, rest).result.value)
  {
  }

  lemma PrefixCommits(log: Log, workspace: string, events: seq<Event>, k: nat)
    requires k < |events| - 1 && CommitOne(log, workspace, events[0], false).result.Ok?
    ensures var first := CommitOne(log, workspace, events[0], false);
            var rest, whole := CommitAll(first.log, workspace, events[1..][..k], false), CommitAll(log, workspace, events[..k + 1], false);
            (whole.result.Ok? <==> rest.result.Ok?) && whole.log == rest.log
  {
    assert events[..k + 1][0] == events[0] && events[..k + 1][1..] == events[1..][..k];
  }

  predicate NoConflicts(results: seq<CommitRow>) {
    forall i :: 0 <= i < |results| ==> results[i].conflicts == map[]
  }

  predicate NoDuplicates(results: seq<CommitRow>) {
    forall i :: 0 <= i < |results| ==> results[i].status == Committed
  }

  /** Conversely, a plain commit that reports no conflict and meets no dedup hit would have passed. */
  lemma {:induction false} CleanCommitPassesCas(log: Log, workspace: string, events: seq<Event>)
    requires var plain := CommitAll(log, workspace, events, false);
             plain.result.Ok? && NoConflicts(plain.result.value) && NoDuplicates(plain.result.value)
    ensures CommitAll(log, workspace, events, true) == CommitAll(log, workspace, events, false)
    decreases |events|
  {
    if events != [] {
      var first := CommitOne(log, workspace, events[0], false);
      var rest := CommitAll(first.log, workspace, events[1..], false);
      FirstAndRest(log, workspace, events, false);
      CleanInTwo(first.result.value, rest.result.value);
      CommittedDoesNotContend(log, workspace, events[0]);
      CleanCommitPassesCas(first.log, workspace, events[1..]);
      CommitAllPrepends(log, workspace, events, true, first);
    }
  }

  lemma CleanInTwo(row: CommitRow, rest: seq<CommitRow>)
    requires NoConflicts([row] + rest) && NoDuplicates([row] + rest)
    ensures row.conflicts == map[] && row.status == Committed && NoConflicts(rest) && NoDuplicates(rest)
  {
    var all := [row] + rest;
    assert all[0] == row && forall i :: 0 <= i < |rest| ==> rest[i] == all[i + 1];
  }

  lemma CommittedDoesNotContend(log: Log, workspace: string, e: Event)
    requires var out := CommitOne(log, workspace, e, false);
             out.result.Ok? && out.result.value.status == Committed && out.result.value.conflicts == map[]
    ensures CommitOne(log, workspace, e, true) == CommitOne(log, workspace, e, false)
  {
  }

  const MINE := Event("e1", "tickets", "t", "a", 1, Patch, None, None, map["title" := Str("x")], None)
  const THEIRS := Event("e2", "tickets", "t", "b", 1, Patch, Some(1), None, map["title" := Str("y")], None)
  const TWO_EDITS := [LogRow(1, "w", MINE), LogRow(2, "w", THEIRS)]

  lemma TwoEditsAreOneHistory()
    ensures History(TWO_EDITS, "w", MINE) == TWO_EDITS
  {
    assert forall i :: 0 <= i < |TWO_EDITS| ==> OfEntity(TWO_EDITS[i], "w", "tickets", "t");
    FilterKeepsAll(TWO_EDITS, r => OfEntity(r, "w", "tickets", "t"));
  }

  lemma MineContends()
    ensures ConflictsFor(TWO_EDITS, "w", MINE) != map[]
  {
    TwoEditsAreOneHistory();
    assert TWO_EDITS[..1][..0] == [];
    assert LastTombstone(TWO_EDITS[..1], 0).None?;
    assert LastTombstone(TWO_EDITS, 0) == LastTombstone(TWO_EDITS[..1], 0);
    assert FieldHead(TWO_EDITS, 0, "title") == Some(LogRow(2, "w", THEIRS));
    ConflictKeys(TWO_EDITS, MINE);
    assert "title" != REVIVE_FIELD by { assert "title"[0] != REVIVE_FIELD[0]; }
    assert Str("x") != Str("y") by { assert "x"[0] != "y"[0]; }
    assert Contends(TWO_EDITS, MINE, "title");
  }

  /**
   Without the second proviso it fails, because contention is tested before the dedup floor:
   a plain retry reports a duplicate and no conflict, the same retry under compare-and-swap is refused.
   */
  lemma CasRefusesRetry()
    ensures Valid(Log(TWO_EDITS, 2)) && Holds(TWO_EDITS, MINE, 1)
    ensures CommitOne(Log(TWO_EDITS, 2), "w", MINE, false).result
         == Ok(CommitRow("e1", Duplicate, 1, None, None, None, map[]))
    ensures CommitOne(Log(TWO_EDITS, 2), "w", MINE, true).result.Err?
  {
    assert "e1"[1] != "e2"[1] && "a"[0] != "b"[0];
    assert TWO_EDITS[0] in TWO_EDITS && Holds(TWO_EDITS, MINE, 1);
    HeldKeyIsDuplicate(Log(TWO_EDITS, 2), "w", MINE, 1);
    MineContends();
  }

  // --------------------------------------------------------------------------- entity linkage

  /** The revision of the entity's last row below `revision`, or 0. */
  ghost predicate IsPreceding(rows: seq<LogRow>, workspace: string, e: Event, revision: nat, preceding: nat) {
    && (preceding == 0 || exists r :: r in History(rows, workspace, e) && r.revision == preceding < revision)
    && forall r :: r in History(rows, workspace, e) && r.revision < revision ==> r.revision <= preceding
  }

  lemma HeadIsLargest(rows: seq<LogRow>, workspace: string, e: Event)
    requires Increasing(rows)
    ensures forall r :: r in History(rows, workspace, e) ==> r.revision <= Head(History(rows, workspace, e))
    ensures History(rows, workspace, e) != [] ==> History(rows, workspace, e)[|History(rows, workspace, e)| - 1] in rows
  {
    var history := History(rows, workspace, e);
    EntityRowsIncrease(rows, workspace, e.collection, e.entityId);
    if history != [] {
      assert history[|history| - 1] in history;
    }
  }

  /**
   What a committed result says of the event's place in the log: the row is there; `headRev` is the
   entity's revision just before it; the base is reported as stale when a revision of the entity
   lies between the base and the row (or when the base is negative, as no revision is).
   */
  ghost predicate Linked(rows: seq<LogRow>, workspace: string, e: Event, result: CommitRow) {
    && LogRow(result.revision, workspace, e) in rows
    && result.headRev.Some? && IsPreceding(rows, workspace, e, result.revision, result.headRev.value)
    && result.baseRev == e.baseRev
    && (result.staleBaseRev.Some? ==> result.staleBaseRev == e.baseRev)
    && (e.baseRev.Some? ==>
          (result.staleBaseRev.Some? <==>
             e.baseRev.value < 0
             || exists r :: r in History(rows, workspace, e) && e.baseRev.value < r.revision < result.revision))
  }

  /** The result of a committed event says which revision it follows, now and in every later log. */
  lemma CommitOneLinks(log: Log, workspace: string, e: Event, cas: bool, later: seq<LogRow>)
    requires Valid(log) && Increasing(later)
    requires var out := CommitOne(log, workspace, e, cas);
             out.result.Ok? && out.result.value.status == Committed && out.log.rows <= later
    ensures Linked(later, workspace, e, CommitOne(log, workspace, e, cas).result.value)
  {
    var row := CommitOne(log, workspace, e, cas).result.value;
    assert log.rows + [LogRow(row.revision, workspace, e)] <= later;
    HeadIsLargest(log.rows, workspace, e);
    RowsBefore(log.rows, LogRow(row.revision, workspace, e), later);
  }

  /** In a longer log, the rows below a row's revision are the rows before it. */
  lemma RowsBefore(rows: seq<LogRow>, row: LogRow, later: seq<LogRow>)
    requires rows + [row] <= later && Increasing(later)
    ensures row in later && forall r :: r in rows <==> r in later && r.revision < row.revision
  {
    assert later[|rows|] == row;
    forall r | r in later && r.revision < row.revision ensures r in rows {
      var i :| 0 <= i < |later| && later[i] == r;
      assert i < |rows| && rows[i] == r;
    }
    forall r | r in rows ensures r in later && r.revision < row.revision {
      var i :| 0 <= i < |rows| && rows[i] == r;
      assert later[i] == r;
    }
  }

  /** A successful batch is its first event's commit and then the rest's. */
  lemma FirstAndRest(log: Log, workspace: string, events: seq<Event>, cas: bool)
    requires events != [] && CommitAll(log, workspace, events, cas).result.Ok?
    ensures var first := CommitOne(log, workspace, events[0], cas);
            && first.result.Ok?
            && var rest := CommitAll(first.log, workspace, events[1..], cas);
               && rest.result.Ok?
               && CommitAll(log, workspace, events, cas) == Outcome(rest.log, Ok([first.result.value] + rest.result.value))
  {
  }

  ghost predicate AllLinked(rows: seq<LogRow>, workspace: string, events: seq<Event>, results: seq<CommitRow>) {
    && |results| == |events|
    && forall i :: 0 <= i < |events| && results[i].status == Committed ==> Linked(rows, workspace, events[i], results[i])
  }

  lemma AllLinkedInTwo(
      rows: seq<LogRow>, workspace: string, events: seq<Event>, row: CommitRow, rest: seq<CommitRow>, results: seq<CommitRow>)
    requires events != [] && results == [row] + rest
    requires row.status == Committed ==> Linked(rows, workspace, events[0], row)
    requires AllLinked(rows, workspace, events[1..], rest)
    ensures AllLinked(rows, workspace, events, results)
  {
    forall i | 0 <= i < |events| && results[i].status == Committed ensures Linked(rows, workspace, events[i], results[i]) {
      if i > 0 {
        assert events[i] == events[1..][i - 1] && results[i] == rest[i - 1];
      }
    }
  }

  /** The same for every committed event of a batch, in the log it leaves and in every later one. */
  lemma {:induction false} BatchLinks(log: Log, workspace: string, events: seq<Event>, cas: bool, later: seq<LogRow>)
    requires Valid(log) && Increasing(later)
    requires CommitAll(log, workspace, events, cas).result.Ok? && CommitAll(log, workspace, events, cas).log.rows <= later
    ensures AllLinked(later, workspace, events, CommitAll(log, workspace, events, cas).result.value)
    decreases |events|
  {
    if events != [] {
      FirstAndRest(log, workspace, events, cas);
      var first := CommitOne(log, workspace, events[0], cas);
      CommitOneKeepsValid(log, workspace, events[0], cas);
      CommitAllKeepsValid(first.log, workspace, events[1..], cas);
      if first.result.value.status == Committed {
        CommitOneLinks(log, workspace, events[0], cas, later);
      }
      BatchLinks(first.log, workspace, events[1..], cas, later);
      AllLinkedInTwo(later, workspace, events, first.result.value,
                     CommitAll(first.log, workspace, events[1..], cas).result.value,
                     CommitAll(log, workspace, events, cas).result.value);
    }
  }
}
