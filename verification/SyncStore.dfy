/**
 The self-hosted backend over one workspace, its store updated in place, and the client that
 reaches it over a wire that carries less than the backend knows.
 */
module SyncStore {
  import opened Wrappers
  import opened Json
  import opened Sequences
  import opened SyncEvents
  import opened CommitLog
  import opened Contention
  import opened Pull

  // ------------------------------------------------------------------------------- specification

  /** The rest of a batch, with the results collected before it. */
  function After(results: seq<CommitRow>, rest: Outcome): Outcome {
    Outcome(rest.log, if rest.result.Ok? then Ok(results + rest.result.value) else rest.result)
  }

  /** The committed events of a batch at their revisions; duplicates are left out. */
  function CommittedOf(workspace: string, events: seq<Event>, results: seq<CommitRow>): seq<LogRow>
    requires |events| == |results|
  {
    if events == [] then []
    else
      (if results[0].status == Committed then [LogRow(results[0].revision, workspace, events[0])] else [])
        + CommittedOf(workspace, events[1..], results[1..])
  }

  lemma CommitOneAdds(log: Log, workspace: string, e: Event, cas: bool)
    ensures var out := CommitOne(log, workspace, e, cas);
            out.result.Ok? ==>
              && out.result.value.eventId == e.eventId
              && out.log.rows == log.rows + CommittedOf(workspace, [e], [out.result.value])
  {
  }

  /** The committed events of a successful batch are exactly what it added to the log. */
  lemma {:induction false} CommittedAreAdded(log: Log, workspace: string, events: seq<Event>, cas: bool)
    requires CommitAll(log, workspace, events, cas).result.Ok?
    ensures |CommitAll(log, workspace, events, cas).result.value| == |events|
    ensures forall i :: 0 <= i < |events| ==> CommitAll(log, workspace, events, cas).result.value[i].eventId == events[i].eventId
    ensures CommitAll(log, workspace, events, cas).log.rows
         == log.rows + CommittedOf(workspace, events, CommitAll(log, workspace, events, cas).result.value)
    decreases |events|
  {
    if events != [] {
      var first := CommitOne(log, workspace, events[0], cas);
      var rest := CommitAll(first.log, workspace, events[1..], cas);
      CommitOneAdds(log, workspace, events[0], cas);
      CommittedAreAdded(first.log, workspace, events[1..], cas);
      AddedInTwo(log.rows, first.log.rows, rest.log.rows, workspace, events, first.result.value, rest.result.value);
    }
  }

  lemma AddedInTwo(
      before: seq<LogRow>, middle: seq<LogRow>, later: seq<LogRow>, workspace: string,
      events: seq<Event>, row: CommitRow, rows: seq<CommitRow>)
    requires |events| == 1 + |rows|
    requires middle == before + CommittedOf(workspace, [events[0]], [row])
    requires later == middle + CommittedOf(workspace, events[1..], rows)
    ensures later == before + CommittedOf(workspace, events, [row] + rows)
  {
    assert ([row] + rows)[1..] == rows;
    assert [events[0]][1..] == [] && [row][1..] == [];
    var a, b := CommittedOf(workspace, [events[0]], [row]), CommittedOf(workspace, events[1..], rows);
    assert CommittedOf(workspace, events, [row] + rows) == a + b;
    assert (before + a) + b == before + (a + b);
  }

  lemma AfterFirst(log: Log, workspace: string, events: seq<Event>, cas: bool, results: seq<CommitRow>)
    requires events != []
    ensures var first := CommitOne(log, workspace, events[0], cas);
            After(results, CommitAll(log, workspace, events, cas))
            == if first.result.Err? then Outcome(first.log, Err(first.result.error))
               else After(results + [first.result.value], CommitAll(first.log, workspace, events[1..], cas))
  {
    var first := CommitOne(log, workspace, events[0], cas);
    if first.result.Ok? {
      var rest := CommitAll(first.log, workspace, events[1..], cas);
      if rest.result.Ok? {
        assert results + ([first.result.value] + rest.result.value) == results + [first.result.value] + rest.result.value;
      }
    }
  }

  lemma AfterNothing(out: Outcome)
    ensures After([], out) == out
  {
    if out.result.Ok? {
      assert [] + out.result.value == out.result.value;
    }
  }

  /** What is left after a page that is not empty is what matches above its last row. */
  lemma NextPage(
      rows: seq<LogRow>, workspace: string, collection: Option<string>, cursor: int, left: seq<LogRow>,
      page: seq<LogRow>, entries: seq<LogRow>)
    requires IncreasingIn(rows, workspace) && left == Matching(rows, workspace, collection, cursor)
    requires page != [] && page <= left
    ensures var now := Matching(rows, workspace, collection, page[|page| - 1].revision);
            |now| < |left| && entries + page + now == entries + left
  {
    var n := |page|;
    assert page[n - 1] == left[n - 1];
    MatchingAfter(rows, workspace, collection, cursor, left, n);
    PartThenRest(entries, page, left);
  }

  lemma PartThenRest(entries: seq<LogRow>, page: seq<LogRow>, left: seq<LogRow>)
    requires page <= left
    ensures entries + page + left[|page|..] == entries + left
  {
    assert page + left[|page|..] == left;
  }

  /** Two outcomes that differ at most in their result rows. */
  predicate SameEnd(a: Outcome, b: Outcome) {
    a.log == b.log && (a.result.Ok? <==> b.result.Ok?) && (a.result.Err? ==> a.result.error == b.result.error)
  }

  /** A call that ends as an outcome says, whatever it returns when it succeeds. */
  predicate EndsLike<T>(result: Result<T, CommitError>, log: Log, out: Outcome) {
    log == out.log && (result.Ok? <==> out.result.Ok?) && (result.Err? ==> result.error == out.result.error)
  }

  lemma CommitAllStep(log: Log, workspace: string, events: seq<Event>, cas: bool)
    requires events != []
    ensures var first := CommitOne(log, workspace, events[0], cas);
            SameEnd(CommitAll(log, workspace, events, cas),
                    if first.result.Err? then Outcome(first.log, Err(first.result.error))
                    else CommitAll(first.log, workspace, events[1..], cas))
  {
  }

  lemma {:induction false} NoneRejected(events: seq<Event>)
    ensures FirstRejected(events, e => true).None?
  {
    if events != [] {
      NoneRejected(events[1..]);
    }
  }

  /** What a commit that succeeds says of its events, and a refused compare-and-swap of the one it names. */
  ghost predicate Tells(log: Log, workspace: string, events: seq<Event>, cas: bool, out: Outcome) {
    && (out.result.Ok? ==>
          && AllAnswered(out.log.rows, events, out.result.value) && AllLinked(out.log.rows, workspace, events, out.result.value)
          && AllReported(out.log.rows, workspace, events, out.result.value, cas))
    && (cas ==> forall k :: ContendsFirstAt(log, workspace, events, k) ==> IsRefusedAt(log, workspace, events, k, out))
  }

  lemma CommitAllTells(log: Log, workspace: string, events: seq<Event>, cas: bool)
    requires Valid(log)
    ensures Tells(log, workspace, events, cas, CommitAll(log, workspace, events, cas))
  {
    var out := CommitAll(log, workspace, events, cas);
    CommitAllKeepsValid(log, workspace, events, cas);
    if out.result.Ok? {
      ResultsNameRevisions(log, workspace, events, cas);
      BatchLinks(log, workspace, events, cas, out.log.rows);
      BatchReports(log, workspace, events, cas, out.log.rows);
    }
    if cas {
      forall k | ContendsFirstAt(log, workspace, events, k) ensures IsRefusedAt(log, workspace, events, k, out) {
        CasRefusesFirstContended(log, workspace, events, k);
      }
    }
  }

  ghost predicate NothingContended(log: Log, workspace: string, events: seq<Event>) {
    forall k :: !ContendsAt(log, workspace, events, k)
  }

  lemma {:induction false} AllVerified(events: seq<Event>, verify: Verifier)
    requires forall i :: 0 <= i < |events| ==> verify(events[i])
    ensures FirstRejected(events, verify).None?
  {
    if events != [] {
      AllVerified(events[1..], verify);
    }
  }

  lemma CommitTells(log: Log, workspace: string, events: seq<Event>, verify: Verifier, cas: bool)
    requires Valid(log) && forall i :: 0 <= i < |events| ==> verify(events[i])
    ensures Tells(log, workspace, events, cas, Commit(log, workspace, events, verify, cas))
    ensures NothingContended(log, workspace, events) ==>
              Commit(log, workspace, events, verify, true) == Commit(log, workspace, events, verify, false)
  {
    AllVerified(events, verify);
    CommitAllTells(log, workspace, events, cas);
    if NothingContended(log, workspace, events) {
      CasCommitsUncontended(log, workspace, events);
    }
  }

  // ----------------------------------------------------------------------------------- backend

  datatype PullError = IndexError

  class SyncBackend {
    const workspace: string
    const pageSize: nat
    var rows: seq<LogRow>
    var sequence: nat

    constructor (workspace: string, pageSize: nat)
      ensures this.workspace == workspace && this.pageSize == pageSize
      ensures rows == [] && sequence == 0 && Valid(Log(rows, sequence))
    {
      this.workspace, this.pageSize := workspace, pageSize;
      rows, sequence := [], 0;
    }

    /** The insert that does nothing on a dedup hit: the new revision, `None`, or a constraint error. */
    method Insert(e: Event) returns (inserted: Result<Option<nat>, CommitError>)
      modifies this
      ensures sequence == old(sequence) + 1
      ensures var out := CommitOne(old(Log(rows, sequence)), workspace, e, false);
              && out.log == Log(rows, sequence)
              && match inserted
                 case Err(error) => out.result == Err(error)
                 case Ok(None) => out.result.Ok? && out.result.value.status == Duplicate
                                  && rows == old(rows) && FindKey(rows, e).Some?
                 case Ok(Some(revision)) => out.result.Ok? && out.result.value.status == Committed
                                            && revision == sequence && out.result.value.revision == revision
                                            && rows == old(rows) + [LogRow(revision, workspace, e)]
    {
      sequence := sequence + 1;
      if e.collection !in SYNCABLE_COLLECTIONS {
        return Err(IntegrityError(e, CollectionCheck));
      }
      var found := FindKey(rows, e);
      if found.Some? {
        return Ok(None);
      }
      if HasEventId(rows, e.eventId) {
        return Err(IntegrityError(e, UniqueEventId));
      }
      rows := rows + [LogRow(sequence, workspace, e)];
      inserted := Ok(Some(sequence));
    }

    /** The commit of one event, inside the transaction. */
    method CommitEvent(e: Event, cas: bool) returns (result: Result<CommitRow, CommitError>)
      modifies this
      ensures StepOutcome(Log(rows, sequence), result) == CommitOne(old(Log(rows, sequence)), workspace, e, cas)
    {
      var head := Head(History(rows, workspace, e));
      var conflicts := ConflictsFor(rows, workspace, e);
      if cas && conflicts != map[] {
        return Err(RebaseRequired(e, conflicts));
      }
      var inserted := Insert(e);
      match inserted {
        case Err(error) =>
          result := Err(error);
        case Ok(None) =>
          var existing := rows[FindKey(rows, e).value].revision;
          result := Ok(CommitRow(e.eventId, Duplicate, existing, None, None, None, map[]));
        case Ok(Some(revision)) =>
          result := Ok(CommitRow(e.eventId, Committed, revision, e.baseRev, Some(head), StaleBase(e, head), conflicts));
      }
    }

    /** The second pass: in submission order, each event on what the ones before it left. */
    method CommitBatch(events: seq<Event>, cas: bool) returns (result: Result<seq<CommitRow>, CommitError>)
      modifies this
      ensures Outcome(Log(rows, sequence), result) == CommitAll(old(Log(rows, sequence)), workspace, events, cas)
    {
      ghost var all := CommitAll(Log(rows, sequence), workspace, events, cas);
      var results := [];
      AfterNothing(all);
      for i := 0 to |events|
        invariant all == After(results, CommitAll(Log(rows, sequence), workspace, events[i..], cas))
      {
        AfterFirst(Log(rows, sequence), workspace, events[i..], cas, results);
        assert events[i..][0] == events[i] && events[i..][1..] == events[i + 1..];
        var committed := CommitEvent(events[i], cas);
        if committed.Err? {
          return Err(committed.error);
        }
        results := results + [committed.value];
      }
      assert results + [] == results;
      result := Ok(results);
    }

    /**
     Validate every event, then commit them in order; whatever is raised rolls the rows back. A
     committed event's result tells what unseen rows contend with it, and under compare-and-swap none do.
     */
    method CommitEvents(events: seq<Event>, verify: Verifier, cas: bool) returns (result: Result<seq<CommitRow>, CommitError>)
      modifies this
      ensures Outcome(Log(rows, sequence), result) == Commit(old(Log(rows, sequence)), workspace, events, verify, cas)
      ensures old(Valid(Log(rows, sequence))) ==> Valid(Log(rows, sequence)) && old(rows) <= rows
      ensures result.Err? ==> rows == old(rows)
      ensures old(Valid(Log(rows, sequence))) && (forall i :: 0 <= i < |events| ==> verify(events[i])) ==>
                && Tells(old(Log(rows, sequence)), workspace, events, cas, Outcome(Log(rows, sequence), result))
                && (cas && NothingContended(old(Log(rows, sequence)), workspace, events) ==>
                      Outcome(Log(rows, sequence), result) == Commit(old(Log(rows, sequence)), workspace, events, verify, false))
      ensures (exists i :: 0 <= i < |events| && !verify(events[i])) ==> result.Err? && result.error.EventRejected?
    {
      ghost var origin := Log(rows, sequence);
      if Valid(origin) {
        CommitKeepsValid(origin, workspace, events, verify, cas);
        if forall i :: 0 <= i < |events| ==> verify(events[i]) {
          CommitTells(origin, workspace, events, verify, cas);
        }
      }
      for i := 0 to |events|
        invariant rows == old(rows) && sequence == old(sequence)
        invariant FirstRejected(events, verify) == FirstRejected(events[i..], verify)
        invariant forall j :: 0 <= j < i ==> verify(events[j])
      {
        assert events[i..][0] == events[i] && events[i..][1..] == events[i + 1..];
        if !verify(events[i]) {
          return Err(EventRejected(events[i]));
        }
      }
      if events == [] {
        return Ok([]);
      }
      var before := rows;
      result := CommitBatch(events, cas);
      if result.Err? {
        rows := before;
      }
    }

    /** The inserts of a push, inside the transaction. */
    method InsertAll(events: seq<Event>) returns (result: Result<seq<LogRow>, CommitError>)
      modifies this
      ensures EndsLike(result, Log(rows, sequence), CommitAll(old(Log(rows, sequence)), workspace, events, false))
      ensures result.Ok? ==> rows == old(rows) + result.value
    {
      ghost var all := CommitAll(Log(rows, sequence), workspace, events, false);
      var committed := [];
      for i := 0 to |events|
        invariant rows == old(rows) + committed
        invariant SameEnd(all, CommitAll(Log(rows, sequence), workspace, events[i..], false))
      {
        CommitAllStep(Log(rows, sequence), workspace, events[i..], false);
        assert events[i..][0] == events[i] && events[i..][1..] == events[i + 1..];
        var inserted := InsertOne(events[i]);
        if inserted.Err? {
          return Err(inserted.error);
        }
        committed := committed + inserted.value;
      }
      result := Ok(committed);
    }

    /** An insert, and the row it added if any. */
    method InsertOne(e: Event) returns (added: Result<seq<LogRow>, CommitError>)
      modifies this
      ensures var out := CommitOne(old(Log(rows, sequence)), workspace, e, false);
              && out.log == Log(rows, sequence)
              && (added.Ok? <==> out.result.Ok?) && (added.Err? ==> added.error == out.result.error)
      ensures added.Ok? ==> rows == old(rows) + added.value
    {
      var inserted := Insert(e);
      match inserted {
        case Err(error) => added := Err(error);
        case Ok(None) => added := Ok([]);
        case Ok(Some(revision)) => added := Ok([LogRow(revision, workspace, e)]);
      }
    }

    /** Raw transport: a plain commit without validation, which returns the rows it added. */
    method Push(events: seq<Event>) returns (result: Result<seq<LogRow>, CommitError>)
      modifies this
      ensures old(Valid(Log(rows, sequence))) ==> Valid(Log(rows, sequence))
      ensures EndsLike(result, Log(rows, sequence),
                       Commit(old(Log(rows, sequence)), workspace, events, e => true, false))
      ensures rows == old(rows) + if result.Ok? then result.value else []
    {
      NoneRejected(events);
      if Valid(Log(rows, sequence)) {
        CommitKeepsValid(Log(rows, sequence), workspace, events, e => true, false);
      }
      var before := rows;
      result := InsertAll(events);
      if result.Err? {
        rows := before;
      }
    }

    /** Pages of the log above a cursor, until a short one. */
    method Pull(collection: Option<string>, since: int) returns (result: Result<seq<LogRow>, PullError>)
      requires Valid(Log(rows, sequence))
      ensures result == if pageSize == 0 then Err(IndexError) else Ok(Matching(rows, workspace, collection, since))
      ensures result.Ok? ==> Increasing(result.value) && forall r :: r in result.value <==>
                && r in rows && r.workspace == workspace && since < r.revision
                && (collection.None? || r.event.collection == collection.value)
    {
      MatchingIncreases(rows, workspace, collection, since);
      var entries, cursor := [], since;
      ghost var left := Matching(rows, workspace, collection, since);
      while true
        invariant left == Matching(rows, workspace, collection, cursor)
        invariant entries + left == Matching(rows, workspace, collection, since)
        decreases |left|
      {
        var page := Page(rows, workspace, collection, cursor, pageSize);
        if |page| < pageSize {
          return Ok(entries + page);
        }
        if page == [] {
          return Err(IndexError);
        }
        NextPage(rows, workspace, collection, cursor, left, page, entries);
        entries := entries + page;
        cursor := page[|page| - 1].revision;
        left := Matching(rows, workspace, collection, cursor);
      }
    }
  }

  // ------------------------------------------------------------------------------------- client

  /** What the server answers: result rows, a refusal that names one event, a contention, or a failure. */
  datatype Reply = Rows(rows: seq<CommitRow>) | Refused(eventId: string) | Contention(eventId: string) | ServerFailure

  function ReplyTo(result: Result<seq<CommitRow>, CommitError>): Reply {
    match result
    case Ok(rows) => Rows(rows)
    case Err(EventRejected(e)) => Refused(e.eventId)
    case Err(RebaseRequired(e, _)) => Contention(e.eventId)
    case Err(IntegrityError(_, _)) => ServerFailure
  }

  datatype ClientError = Rejected(event: Event) | Rebase(event: Event) | SyncBackendError

  /** The position of the first event that has the id. */
  function FirstWithId(events: seq<Event>, eventId: string): (k: Option<nat>)
    ensures k.Some? ==> k.value < |events| && events[k.value].eventId == eventId
    ensures k.Some? ==> forall i :: 0 <= i < k.value ==> events[i].eventId != eventId
    ensures k.None? ==> forall i :: 0 <= i < |events| ==> events[i].eventId != eventId
  {
    if events == [] then None
    else if events[0].eventId == eventId then Some(0)
    else
      var rest := FirstWithId(events[1..], eventId);
      if rest.Some? then Some(rest.value + 1) else None
  }

  /** The position of the first patch. */
  function FirstPatch(events: seq<Event>): (k: Option<nat>)
    ensures k.Some? ==> k.value < |events| && events[k.value].op.Patch?
    ensures k.Some? ==> forall i :: 0 <= i < k.value ==> !events[i].op.Patch?
    ensures k.None? ==> forall i :: 0 <= i < |events| ==> !events[i].op.Patch?
  {
    if events == [] then None
    else if events[0].op.Patch? then Some(0)
    else
      var rest := FirstPatch(events[1..]);
      if rest.Some? then Some(rest.value + 1) else None
  }

  /** How the client reads the reply: a refusal by the id it carries, a contention by the first patch it sent. */
  function Interpret(reply: Reply, events: seq<Event>, cas: bool): Result<seq<CommitRow>, ClientError> {
    match reply
    case Rows(rows) => Ok(rows)
    case Refused(eventId) =>
      var k := FirstWithId(events, eventId);
      if k.Some? then Err(Rejected(events[k.value])) else Err(SyncBackendError)
    case Contention(_) =>
      if !cas then Err(SyncBackendError)
      else
        var k := FirstPatch(events);
        if k.Some? then Err(Rebase(events[k.value]))
        else if events != [] then Err(Rebase(events[0]))
        else Err(SyncBackendError)
    case ServerFailure => Err(SyncBackendError)
  }

  /** What the caller of the client is told. */
  function ClientSees(log: Log, workspace: string, events: seq<Event>, verify: Verifier, cas: bool)
    : Result<seq<CommitRow>, ClientError>
  {
    Interpret(ReplyTo(Commit(log, workspace, events, verify, cas).result), events, cas)
  }

  lemma {:induction false} RejectedIsFirst(events: seq<Event>, verify: Verifier)
    ensures var e := FirstRejected(events, verify);
            && (e.None? <==> forall i :: 0 <= i < |events| ==> verify(events[i]))
            && (e.Some? ==> exists k :: IsFirstRejected(events, verify, k) && events[k] == e.value)
  {
    if events != [] {
      if verify(events[0]) {
        RejectedIsFirst(events[1..], verify);
        if FirstRejected(events, verify).Some? {
          var k :| IsFirstRejected(events[1..], verify, k) && events[1..][k] == FirstRejected(events, verify).value;
          assert forall i :: 0 <= i < k ==> verify(events[1..][i]);
          assert IsFirstRejected(events, verify, k + 1);
        } else {
          assert forall i :: 0 <= i < |events[1..]| ==> verify(events[1..][i]) && events[1..][i] == events[i + 1];
        }
      } else {
        assert IsFirstRejected(events, verify, 0);
      }
    }
  }

  ghost predicate IsFirstRejected(events: seq<Event>, verify: Verifier, k: int) {
    0 <= k < |events| && !verify(events[k]) && forall i :: 0 <= i < k ==> verify(events[i])
  }

  lemma FirstRejectedIs(events: seq<Event>, verify: Verifier, k: nat)
    requires IsFirstRejected(events, verify, k)
    ensures FirstRejected(events, verify) == Some(events[k])
  {
    RejectedIsFirst(events, verify);
    var j :| IsFirstRejected(events, verify, j) && events[j] == FirstRejected(events, verify).value;
    assert j == k;
  }

  /**
   A refused batch is reported as the refusal of one of its events, and of the right one exactly
   when no event before that one shares its id.
   */
  lemma RefusalNamesEventIff(log: Log, workspace: string, events: seq<Event>, verify: Verifier, cas: bool, k: nat)
    requires IsFirstRejected(events, verify, k)
    ensures var seen := ClientSees(log, workspace, events, verify, cas);
            && seen.Err? && seen.error.Rejected?
            && (seen.error.event == events[k] <==> forall i :: 0 <= i < k ==> events[i].eventId != events[k].eventId)
  {
    FirstRejectedIs(events, verify, k);
    assert Commit(log, workspace, events, verify, cas).result == Err(EventRejected(events[k]));
  }

  const NAMESAKE := MINE.(actorId := "b", collection := "comments")

  /** Two events of one id, of which the server refuses the second: the client names the first. */
  lemma WrongEventIsRefused(log: Log, workspace: string, cas: bool)
    ensures ClientSees(log, workspace, [MINE, NAMESAKE], e => e == MINE, cas) == Err(Rejected(MINE))
    ensures MINE != NAMESAKE && IsFirstRejected([MINE, NAMESAKE], e => e == MINE, 1)
  {
    assert "a"[0] != "b"[0];
    RefusalNamesEventIff(log, workspace, [MINE, NAMESAKE], e => e == MINE, cas, 1);
  }

  lemma {:induction false} ContentionIsPatch(log: Log, workspace: string, events: seq<Event>)
    requires FirstContention(log, workspace, events).Some?
    ensures events[FirstContention(log, workspace, events).value].op.Patch?
    decreases |events|
  {
    if ConflictsFor(log.rows, workspace, events[0]) == map[] {
      ContentionIsPatch(CommitOne(log, workspace, events[0], false).log, workspace, events[1..]);
    }
  }

  /**
   A compare-and-swap refusal reaches the caller as one, but the client names the first patch of
   the batch: the contending event exactly when no patch comes before it.
   */
  lemma RebaseNamesContenderIff(log: Log, workspace: string, events: seq<Event>, verify: Verifier)
    requires FirstRejected(events, verify).None? && FirstContention(log, workspace, events).Some?
    ensures var k, named := FirstContention(log, workspace, events).value, FirstPatch(events);
            && named.Some? && named.value <= k
            && ClientSees(log, workspace, events, verify, true) == Err(Rebase(events[named.value]))
            && (named.value == k <==> forall i :: 0 <= i < k ==> !events[i].op.Patch?)
  {
    CasRefinesCommit(log, workspace, events);
    ContentionIsPatch(log, workspace, events);
  }

  const HARMLESS := MINE.(eventId := "e0", entityId := "u", actorSeq := 0)

  /** A harmless patch sent before a contending one takes the blame for it. */
  lemma WrongPatchIsNamed()
    ensures ClientSees(Log(TWO_EDITS, 2), "w", [HARMLESS, MINE], e => true, true) == Err(Rebase(HARMLESS))
  {
    HarmlessCommits();
    MineContendsAfter();
    var log := CommitOne(Log(TWO_EDITS, 2), "w", HARMLESS, false).log;
    assert [HARMLESS, MINE][1..] == [MINE];
    assert FirstContention(log, "w", [MINE]) == Some(0);
    assert FirstContention(Log(TWO_EDITS, 2), "w", [HARMLESS, MINE]) == Some(1);
    NoneRejected([HARMLESS, MINE]);
    RebaseNamesContenderIff(Log(TWO_EDITS, 2), "w", [HARMLESS, MINE], e => true);
  }

  lemma HarmlessCommits()
    ensures ConflictsFor(TWO_EDITS, "w", HARMLESS) == map[]
    ensures var out := CommitOne(Log(TWO_EDITS, 2), "w", HARMLESS, false);
            out.result.Ok? && out.log == Log(TWO_EDITS + [LogRow(3, "w", HARMLESS)], 3)
  {
    assert "u"[0] != "t"[0] && "e0"[1] != "e1"[1] && "e0"[1] != "e2"[1];
    NoHistory(TWO_EDITS, "w", HARMLESS);
    var found := FindKey(TWO_EDITS, HARMLESS);
    assert !SameKey(TWO_EDITS[0].event, HARMLESS) && !SameKey(TWO_EDITS[1].event, HARMLESS) by {
      assert "a"[0] != "b"[0];
    }
  }

  lemma NoHistory(rows: seq<LogRow>, workspace: string, e: Event)
    requires forall r :: r in rows ==> !OfEntity(r, workspace, e.collection, e.entityId)
    ensures History(rows, workspace, e) == []
  {
    FilterDropsAll(rows, r => OfEntity(r, workspace, e.collection, e.entityId));
  }

  lemma MineContendsAfter()
    ensures ConflictsFor(TWO_EDITS + [LogRow(3, "w", HARMLESS)], "w", MINE) != map[]
  {
    assert "u"[0] != "t"[0];
    var rows := TWO_EDITS + [LogRow(3, "w", HARMLESS)];
    assert rows[..|rows| - 1] == TWO_EDITS;
    assert !OfEntity(rows[|rows| - 1], "w", "tickets", "t");
    EntityRowsLast(TWO_EDITS, LogRow(3, "w", HARMLESS), "w", "tickets", "t");
    MineContends();
    TwoEditsAreOneHistory();
    assert History(rows, "w", MINE) == History(TWO_EDITS, "w", MINE);
  }

  /** The event that the batch has under an event's id: of those that share it, the last. */
  function LastWithId(events: seq<Event>, like: Event): Event {
    if events == [] then like
    else if events[|events| - 1].eventId == like.eventId then events[|events| - 1]
    else LastWithId(events[..|events| - 1], like)
  }

  lemma {:induction false} LastWithIdIs(events: seq<Event>, like: Event, i: nat)
    requires i < |events| && events[i].eventId == like.eventId
    requires forall j :: i < j < |events| ==> events[j].eventId != like.eventId
    ensures LastWithId(events, like) == events[i]
  {
    if i < |events| - 1 {
      LastWithIdIs(events[..|events| - 1], like, i);
    }
  }

  /** The rows, each with the event that the batch has under its id. */
  function AsMatched(events: seq<Event>, added: seq<LogRow>): (matched: seq<LogRow>)
    ensures |matched| == |added|
    ensures forall i :: 0 <= i < |added| ==>
              matched[i] == LogRow(added[i].revision, added[i].workspace, LastWithId(events, added[i].event))
  {
    seq(|added|, i requires 0 <= i < |added| =>
      LogRow(added[i].revision, added[i].workspace, LastWithId(events, added[i].event)))
  }

  lemma MatchedRowByRow(events: seq<Event>, added: seq<LogRow>)
    ensures AsMatched(events, added) == added <==> forall r :: r in added ==> LastWithId(events, r.event) == r.event
  {
    var matched := AsMatched(events, added);
    forall i | 0 <= i < |added| ensures matched[i] == added[i] <==> LastWithId(events, added[i].event) == added[i].event {
    }
    forall r | r in added ensures exists i :: 0 <= i < |added| && added[i] == r {
    }
    if forall i :: 0 <= i < |added| ==> matched[i] == added[i] {
      assert matched == added;
    }
  }

  /** The event's key is neither in the log nor that of an earlier event of the batch. */
  predicate IsNew(log: Log, events: seq<Event>, i: nat)
    requires i < |events|
  {
    FindKey(log.rows, events[i]).None? && forall j :: 0 <= j < i ==> !SameKey(events[j], events[i])
  }

  /** No new event is followed by another content under its id. */
  predicate NewKeepTheirIds(log: Log, events: seq<Event>) {
    forall i :: 0 <= i < |events| && IsNew(log, events, i) ==> LastWithId(events, events[i]) == events[i]
  }

  lemma KeyAfterOne(log: Log, workspace: string, e: Event, f: Event)
    requires CommitOne(log, workspace, e, false).result.Ok?
    ensures FindKey(CommitOne(log, workspace, e, false).log.rows, f).None?
       <==> FindKey(log.rows, f).None? && !SameKey(e, f)
  {
    var found := FindKey(log.rows, e);
    if found.Some? {
      assert SameKey(log.rows[found.value].event, e);
    } else {
      var rows := CommitOne(log, workspace, e, false).log.rows;
      assert rows[..|rows| - 1] == log.rows;
    }
  }

  /** In a batch that succeeds, the new events are the ones that are committed. */
  lemma {:induction false} NewAreCommitted(log: Log, workspace: string, events: seq<Event>)
    requires CommitAll(log, workspace, events, false).result.Ok?
    ensures var rows := CommitAll(log, workspace, events, false).result.value;
            |rows| == |events| && forall i :: 0 <= i < |events| ==> (rows[i].status == Committed <==> IsNew(log, events, i))
    decreases |events|
  {
    if events != [] {
      var first := CommitOne(log, workspace, events[0], false);
      NewAreCommitted(first.log, workspace, events[1..]);
      forall i | 1 <= i < |events| ensures IsNew(first.log, events[1..], i - 1) <==> IsNew(log, events, i) {
        KeyAfterOne(log, workspace, events[0], events[i]);
        assert forall j :: 1 <= j < i ==> events[1..][j - 1] == events[j];
      }
    }
  }

  /** What holds of all committed rows holds of the events whose results say so. */
  lemma {:induction false} CommittedAre(workspace: string, events: seq<Event>, rows: seq<CommitRow>, good: Event -> bool)
    requires |events| == |rows|
    ensures (forall r :: r in CommittedOf(workspace, events, rows) ==> good(r.event))
       <==> (forall i :: 0 <= i < |events| && rows[i].status == Committed ==> good(events[i]))
  {
    if events != [] {
      var first, rest := LogRow(rows[0].revision, workspace, events[0]), CommittedOf(workspace, events[1..], rows[1..]);
      CommittedAre(workspace, events[1..], rows[1..], good);
      assert forall i :: 1 <= i < |events| ==> rows[1..][i - 1] == rows[i] && events[1..][i - 1] == events[i];
      if rows[0].status == Committed {
        assert CommittedOf(workspace, events, rows) == [first] + rest;
      } else {
        assert CommittedOf(workspace, events, rows) == rest;
      }
    }
  }

  /**
   Of a plain commit that succeeds, matching by id tells the client the rows that were added exactly
   when no new event of the batch is followed by another content under its id.
   */
  lemma MatchedExactlyIff(log: Log, workspace: string, events: seq<Event>)
    requires CommitAll(log, workspace, events, false).result.Ok?
    ensures var rows := CommitAll(log, workspace, events, false).log.rows;
            && log.rows <= rows
            && (AsMatched(events, rows[|log.rows|..]) == rows[|log.rows|..] <==> NewKeepTheirIds(log, events))
  {
    var out := CommitAll(log, workspace, events, false);
    CommittedAreAdded(log, workspace, events, false);
    var added := CommittedOf(workspace, events, out.result.value);
    AddedAreTheRest(log.rows, added, out.log.rows);
    MatchedRowByRow(events, added);
    NewAreCommitted(log, workspace, events);
    CommittedAre(workspace, events, out.result.value, e => LastWithId(events, e) == e);
  }

  lemma AddedAreTheRest(before: seq<LogRow>, added: seq<LogRow>, after: seq<LogRow>)
    requires after == before + added
    ensures before <= after && after[|before|..] == added
  {
  }

  const RETITLED := MINE.(payload := map["title" := Str("z")])

  /** The same id and key with two contents: the first is stored, and the client is told of the second. */
  lemma WrongEventIsReported()
    ensures var out := CommitAll(Log([], 0), "w", [MINE, RETITLED], false);
            && out.result.Ok? && out.log.rows == [LogRow(1, "w", MINE)]
            && AsMatched([MINE, RETITLED], out.log.rows) == [LogRow(1, "w", RETITLED)] != out.log.rows
  {
    assert [MINE, RETITLED][1..] == [RETITLED] && [RETITLED][1..] == [];
    MineIsFirst();
    RetitledIsDuplicate();
    LastWithIdIs([MINE, RETITLED], MINE, 1);
    assert MINE.payload["title"] != RETITLED.payload["title"];
  }

  lemma MineIsFirst()
    ensures var out := CommitOne(Log([], 0), "w", MINE, false);
            out.result.Ok? && out.log == Log([LogRow(1, "w", MINE)], 1)
  {
    NoHistory([], "w", MINE);
  }

  lemma RetitledIsDuplicate()
    ensures var log := Log([LogRow(1, "w", MINE)], 1);
            var out := CommitAll(log, "w", [RETITLED], false);
            out.result.Ok? && out.log.rows == log.rows
  {
    var log := Log([LogRow(1, "w", MINE)], 1);
    assert SameKey(log.rows[0].event, RETITLED);
    assert FindKey(log.rows, RETITLED) == Some(0);
    assert [RETITLED][1..] == [];
  }

  /** The first `i` of the committed events, and one more. */
  lemma {:induction false} CommittedOfLast(workspace: string, events: seq<Event>, rows: seq<CommitRow>)
    requires |events| == |rows| > 0
    ensures var i := |events| - 1;
            CommittedOf(workspace, events, rows)
            == CommittedOf(workspace, events[..i], rows[..i])
               + if rows[i].status == Committed then [LogRow(rows[i].revision, workspace, events[i])] else []
  {
    var i := |events| - 1;
    if i > 0 {
      CommittedOfLast(workspace, events[1..], rows[1..]);
      assert events[1..][..i - 1] == events[..i][1..] && rows[1..][..i - 1] == rows[..i][1..];
    }
  }

  /** Each committed row, with the submitted event that has its id. */
  method MatchById(workspace: string, events: seq<Event>, rows: seq<CommitRow>) returns (committed: seq<LogRow>)
    requires |rows| == |events| && forall i :: 0 <= i < |rows| ==> rows[i].eventId == events[i].eventId
    ensures committed == AsMatched(events, CommittedOf(workspace, events, rows))
  {
    committed := [];
    for i := 0 to |rows|
      invariant committed == AsMatched(events, CommittedOf(workspace, events[..i], rows[..i]))
    {
      CommittedOfLast(workspace, events[..i + 1], rows[..i + 1]);
      assert events[..i + 1][..i] == events[..i] && rows[..i + 1][..i] == rows[..i];
      if rows[i].status == Committed {
        committed := committed + [LogRow(rows[i].revision, workspace, LastWithId(events, events[i]))];
      }
    }
    assert events[..|rows|] == events && rows[..|rows|] == rows;
  }

  ghost predicate IsFirstWithId(events: seq<Event>, eventId: string, k: int) {
    0 <= k < |events| && events[k].eventId == eventId && forall i :: 0 <= i < k ==> events[i].eventId != eventId
  }

  ghost predicate IsFirstPatch(events: seq<Event>, k: int) {
    0 <= k < |events| && events[k].op.Patch? && forall i :: 0 <= i < k ==> !events[i].op.Patch?
  }

  /** What the client makes of an error of the server: a refusal by the event's id, a contention by the first patch sent. */
  ghost predicate IsRead(events: seq<Event>, raised: CommitError, seen: ClientError) {
    match raised
    case EventRejected(e) => exists k :: IsFirstWithId(events, e.eventId, k) && seen == Rejected(events[k])
    case RebaseRequired(_, _) => exists k :: IsFirstPatch(events, k) && seen == Rebase(events[k])
    case IntegrityError(_, _) => seen == SyncBackendError
  }

  lemma {:induction false} PlainNeverRebases(log: Log, workspace: string, events: seq<Event>)
    ensures var result := CommitAll(log, workspace, events, false).result; result.Err? ==> result.error.IntegrityError?
    decreases |events|
  {
    if events != [] {
      PlainNeverRebases(CommitOne(log, workspace, events[0], false).log, workspace, events[1..]);
    }
  }

  /** A contention is raised only under compare-and-swap, and only over a patch. */
  lemma RebaseMeansPatch(log: Log, workspace: string, events: seq<Event>, cas: bool)
    requires var result := CommitAll(log, workspace, events, cas).result; result.Err? && result.error.RebaseRequired?
    ensures cas && FirstPatch(events).Some?
  {
    PlainNeverRebases(log, workspace, events);
    CasRefinesCommit(log, workspace, events);
    ContentionIsPatch(log, workspace, events);
  }

  lemma {:induction false} NeverRejectedInside(log: Log, workspace: string, events: seq<Event>, cas: bool)
    ensures var result := CommitAll(log, workspace, events, cas).result; result.Err? ==> !result.error.EventRejected?
    decreases |events|
  {
    if events != [] {
      NeverRejectedInside(CommitOne(log, workspace, events[0], cas).log, workspace, events[1..], cas);
    }
  }

  /** The server's list reaches the caller as it is, and its errors as the client reads them. */
  lemma ClientSeesServer(log: Log, workspace: string, events: seq<Event>, verify: Verifier, cas: bool)
    ensures var served, seen := Commit(log, workspace, events, verify, cas).result, ClientSees(log, workspace, events, verify, cas);
            && (served.Ok? ==> seen == Ok(served.value))
            && (served.Err? ==> seen.Err? && IsRead(events, served.error, seen.error))
  {
    var served := Commit(log, workspace, events, verify, cas).result;
    if served.Err? {
      if served.error.EventRejected? {
        NeverRejectedInside(log, workspace, events, cas);
        RejectedIsFirst(events, verify);
        assert IsFirstWithId(events, served.error.event.eventId, FirstWithId(events, served.error.event.eventId).value);
      } else if served.error.RebaseRequired? {
        RebaseMeansPatch(log, workspace, events, cas);
        assert IsFirstPatch(events, FirstPatch(events).value);
      }
    }
  }

  class SyncClient {
    const server: SyncBackend
    const pageSize: nat

    constructor (server: SyncBackend, pageSize: nat)
      ensures this.server == server && this.pageSize == pageSize
    {
      this.server, this.pageSize := server, pageSize;
    }

    method CommitEvents(events: seq<Event>, verify: Verifier, cas: bool) returns (result: Result<seq<CommitRow>, ClientError>)
      modifies server
      ensures var before := old(Log(server.rows, server.sequence));
              && Log(server.rows, server.sequence) == Commit(before, server.workspace, events, verify, cas).log
              && result == ClientSees(before, server.workspace, events, verify, cas)
      ensures var served := Commit(old(Log(server.rows, server.sequence)), server.workspace, events, verify, cas).result;
              && (served.Ok? ==> result == Ok(served.value))
              && (served.Err? ==> result.Err? && IsRead(events, served.error, result.error))
      ensures old(Valid(Log(server.rows, server.sequence))) && result.Ok? ==> AllAnswered(server.rows, events, result.value)
    {
      ghost var origin := Log(server.rows, server.sequence);
      ClientSeesServer(origin, server.workspace, events, verify, cas);
      if Valid(origin) && Commit(origin, server.workspace, events, verify, cas).result.Ok? {
        ResultsNameRevisions(origin, server.workspace, events, cas);
      }
      var answer := server.CommitEvents(events, verify, cas);
      result := Interpret(ReplyTo(answer), events, cas);
    }

    /** The committed rows of an unsigned commit, matched to the submitted events by id. */
    method Push(events: seq<Event>, verify: Verifier) returns (result: Result<seq<LogRow>, ClientError>)
      requires Valid(Log(server.rows, server.sequence))
      modifies server
      ensures result.Err? ==> server.rows == old(server.rows)
      ensures var served := Commit(old(Log(server.rows, server.sequence)), server.workspace, events, verify, false).result;
              && (result.Ok? <==> served.Ok?) && (result.Err? ==> IsRead(events, served.error, result.error))
      ensures result.Ok? ==>
                old(server.rows) <= server.rows && result.value == AsMatched(events, server.rows[|old(server.rows)|..])
      ensures result.Ok? ==> (server.rows == old(server.rows) + result.value
                              <==> NewKeepTheirIds(old(Log(server.rows, server.sequence)), events))
    {
      ghost var before := Log(server.rows, server.sequence);
      ClientSeesServer(before, server.workspace, events, verify, false);
      var answer := server.CommitEvents(events, verify, false);
      if answer.Err? {
        return Err(Interpret(ReplyTo(answer), events, false).error);
      }
      var rows := answer.value;
      CommittedAreAdded(before, server.workspace, events, false);
      var committed := MatchById(server.workspace, events, rows);
      ghost var added := CommittedOf(server.workspace, events, rows);
      assert server.rows == before.rows + added && server.rows[|before.rows|..] == added;
      MatchedExactlyIff(before, server.workspace, events);
      result := Ok(committed);
    }

    /** The same loop over an endpoint that already returns every page. */
    method Pull(collection: Option<string>, since: int) returns (result: Result<seq<LogRow>, PullError>)
      requires Valid(Log(server.rows, server.sequence))
      ensures result == if server.pageSize == 0 || pageSize == 0 then Err(IndexError)
                        else Ok(Matching(server.rows, server.workspace, collection, since))
      ensures result.Ok? ==> Increasing(result.value) && forall r :: r in result.value <==>
                && r in server.rows && r.workspace == server.workspace && since < r.revision
                && (collection.None? || r.event.collection == collection.value)
    {
      MatchingIncreases(server.rows, server.workspace, collection, since);
      var entries, cursor := [], since;
      ghost var left := Matching(server.rows, server.workspace, collection, since);
      while true
        invariant left == Matching(server.rows, server.workspace, collection, cursor)
        invariant entries + left == Matching(server.rows, server.workspace, collection, since)
        decreases |left|
      {
        var reply := server.Pull(collection, cursor);
        if reply.Err? {
          return Err(reply.error);
        }
        var page := reply.value;
        if |page| < pageSize {
          return Ok(entries + page);
        }
        if page == [] {
          return Err(IndexError);
        }
        NextPage(server.rows, server.workspace, collection, cursor, left, page, entries);
        entries := entries + page;
        cursor := page[|page| - 1].revision;
        left := Matching(server.rows, server.workspace, collection, cursor);
      }
    }
  }
}
