/**
 Replicas that write locally, flush to the backend and pull from it, in any order: once two of
 them have pulled everything and have nothing pending, they fold every entity alike.
 */
module Convergence {
  import opened Wrappers
  import opened Json
  import opened SyncEvents
  import opened Sequences
  import opened EventStore
  import opened Delta

  predicate HasKey(rows: seq<StoreRow>, e: Event) {
    exists i :: 0 <= i < |rows| && SameKey(rows[i].event, e)
  }

  /**
   A replica's log, how much of the backend's it has pulled (its cursor is the revision of the last
   row pulled), and the actors that write on it.
   */
  datatype Replica = Replica(rows: seq<StoreRow>, pulled: nat, actors: set<string>)

  /** The backend's log, whose rows are all committed, and the replicas. */
  datatype World = World(log: seq<StoreRow>, replicas: seq<Replica>)

  // ------------------------------------------------------------------------------------- steps

  /** The row with the committed row's key becomes it, unless it already has a revision. */
  function Mark(rows: seq<StoreRow>, l: StoreRow): (marked: seq<StoreRow>)
    ensures |marked| == |rows|
    ensures forall i :: 0 <= i < |rows| ==>
              marked[i] == if SameKey(rows[i].event, l.event) && rows[i].committedRev.None?
                           then StoreRow(rows[i].event, l.committedRev, Committed) else rows[i]
  {
    seq(|rows|, i requires 0 <= i < |rows| =>
      if SameKey(rows[i].event, l.event) && rows[i].committedRev.None?
      then StoreRow(rows[i].event, l.committedRev, Committed) else rows[i])
  }

  /** One row of a pull: reconciled with a row of the replica's own, or inserted. */
  function Ingest(rows: seq<StoreRow>, l: StoreRow): seq<StoreRow> {
    if HasKey(rows, l.event) then Mark(rows, l) else rows + [l]
  }

  function IngestAll(rows: seq<StoreRow>, batch: seq<StoreRow>): seq<StoreRow> {
    if batch == [] then rows else Ingest(IngestAll(rows, batch[..|batch| - 1]), batch[|batch| - 1])
  }

  /** A row of the backend's log with the event's key, if it has one. */
  function Find(log: seq<StoreRow>, e: Event): (k: Option<nat>)
    ensures k.Some? ==> k.value < |log| && SameKey(log[k.value].event, e)
    ensures k.None? ==> !HasKey(log, e)
  {
    if log == [] then None
    else if SameKey(log[|log| - 1].event, e) then Some(|log| - 1)
    else Find(log[..|log| - 1], e)
  }

  /** The highest number of an actor in a log, if it has any there. */
  function LastNumber(rows: seq<StoreRow>, actorId: string): (last: Option<int>)
    ensures forall x :: x in rows && x.event.actorId == actorId ==> last.Some? && x.event.actorSeq <= last.value
  {
    if rows == [] then None
    else
      var before, e := LastNumber(rows[..|rows| - 1], actorId), rows[|rows| - 1].event;
      if e.actorId != actorId || (before.Some? && e.actorSeq <= before.value) then before else Some(e.actorSeq)
  }

  /** The number an actor's next event gets, for which only the replica's own log is looked at. */
  function NextNumber(rows: seq<StoreRow>, actorId: string): int {
    match LastNumber(rows, actorId)
    case None => 1
    case Some(last) => last + 1
  }

  /**
   `Flush` sends one pending row, which is committed at the revision given unless the backend has
   its key already; the acknowledgement may be lost. `Reject` takes a row out of the fold.
   */
  datatype Step =
    | WriteLocal(replica: nat, event: Event)
    | Flush(replica: nat, row: nat, revision: int, acked: bool)
    | Reject(replica: nat, row: nat)
    | Pull(replica: nat, upTo: nat)

  predicate Enabled(w: World, step: Step) {
    step.replica < |w.replicas| &&
    var r := w.replicas[step.replica];
    match step
    case WriteLocal(_, e) => e.actorId in r.actors && e.actorSeq == NextNumber(r.rows, e.actorId)
    case Flush(_, k, revision, _) =>
      && k < |r.rows| && r.rows[k].state == Pending && r.rows[k].committedRev.None? && revision > 0
      && (w.log != [] ==> w.log[|w.log| - 1].committedRev.Some? && revision > w.log[|w.log| - 1].committedRev.value)
    case Reject(_, k) => k < |r.rows| && r.rows[k].state == Pending && r.rows[k].committedRev.None?
    case Pull(_, upTo) => r.pulled <= upTo <= |w.log|
  }

  function WithRows(w: World, i: nat, rows: seq<StoreRow>): World
    requires i < |w.replicas|
  {
    w.(replicas := w.replicas[i := w.replicas[i].(rows := rows)])
  }

  function Next(w: World, step: Step): World
    requires Enabled(w, step)
  {
    var r := w.replicas[step.replica];
    match step
    case WriteLocal(i, e) => WithRows(w, i, r.rows + [StoreRow(e, None, Pending)])
    case Flush(i, k, revision, acked) =>
      var found := Find(w.log, r.rows[k].event);
      var l := if found.Some? then w.log[found.value] else StoreRow(r.rows[k].event, Some(revision), Committed);
      var sent := if found.Some? then w else w.(log := w.log + [l]);
      if acked then WithRows(sent, i, Mark(r.rows, l)) else sent
    case Reject(i, k) => WithRows(w, i, r.rows[k := r.rows[k].(state := Rejected)])
    case Pull(i, upTo) =>
      w.(replicas := w.replicas[i := r.(rows := IngestAll(r.rows, w.log[r.pulled..upTo]), pulled := upTo)])
  }

  ghost predicate IsRun(w: World, steps: seq<Step>, end: World)
    decreases |steps|
  {
    if steps == [] then w == end
    else Enabled(w, steps[0]) && IsRun(Next(w, steps[0]), steps[1..], end)
  }

  // --------------------------------------------------------------------------------- invariant

  ghost predicate UniqueKeys(rows: seq<StoreRow>) {
    forall i, j :: 0 <= i < j < |rows| ==> !SameKey(rows[i].event, rows[j].event)
  }

  /** The backend's log: committed rows in revision order, each key once. */
  ghost predicate IsLog(log: seq<StoreRow>) {
    && UniqueKeys(log)
    && (forall i :: 0 <= i < |log| ==> log[i].committedRev.Some? && log[i].committedRev.value > 0 && log[i].state == Committed)
    && (forall i, j :: 0 <= i < j < |log| ==> log[i].committedRev.value < log[j].committedRev.value)
  }

  function Events(rows: seq<StoreRow>): set<Event> {
    set x | x in rows :: x.event
  }

  /** Whether the event is in any log. */
  ghost predicate IsKnown(w: World, e: Event) {
    e in Events(w.log) || exists i :: 0 <= i < |w.replicas| && e in Events(w.replicas[i].rows)
  }

  /** What is marked as committed has a revision. */
  ghost predicate HaveRevisions(rows: seq<StoreRow>) {
    forall x :: x in rows && x.state == Committed ==> x.committedRev.Some?
  }

  /** What a replica holds as committed is in the backend's log, and it holds all it has pulled. */
  ghost predicate Follows(log: seq<StoreRow>, r: Replica) {
    && r.pulled <= |log| && UniqueKeys(r.rows)
    && (forall x :: x in r.rows && x.committedRev.Some? ==> x in log)
    && HaveRevisions(r.rows)
    && (forall k :: 0 <= k < r.pulled ==> log[k] in r.rows)
  }

  /** One key, one event, wherever it is. */
  ghost predicate OneEventPerKey(w: World) {
    forall e, f :: IsKnown(w, e) && IsKnown(w, f) && SameKey(e, f) ==> e == f
  }

  /** No actor writes on two replicas. */
  ghost predicate WritersApart(w: World) {
    forall i, j :: 0 <= i < j < |w.replicas| ==> w.replicas[i].actors !! w.replicas[j].actors
  }

  /** Whatever an actor has written is on the replica it writes on. */
  ghost predicate KeepsOwn(w: World, r: Replica) {
    forall e :: IsKnown(w, e) && e.actorId in r.actors ==> e in Events(r.rows)
  }

  ghost predicate Inv(w: World) {
    && IsLog(w.log) && OneEventPerKey(w) && WritersApart(w)
    && forall i :: 0 <= i < |w.replicas| ==> Follows(w.log, w.replicas[i]) && KeepsOwn(w, w.replicas[i])
  }

  /** The rows' events have the log row's event for its key. */
  ghost predicate AgreesWith(rows: seq<StoreRow>, e: Event) {
    forall x :: x in rows && SameKey(x.event, e) ==> x.event == e
  }

  /** So does ingesting, after which the log row is there. */
  lemma IngestKeeps(log: seq<StoreRow>, rows: seq<StoreRow>, l: StoreRow)
    requires IsLog(log) && l in log && AgreesWith(rows, l.event) && UniqueKeys(rows)
    requires forall x :: x in rows && x.committedRev.Some? ==> x in log
    ensures var after := Ingest(rows, l);
            && UniqueKeys(after) && l in after && Events(after) == Events(rows) + {l.event}
            && (forall x :: x in after && x.committedRev.Some? ==> x in log)
            && (forall x :: x in rows && x.committedRev.Some? ==> x in after)
  {
    if HasKey(rows, l.event) {
      assert l.event in Events(Mark(rows, l));
    } else {
      assert (rows + [l])[|rows|] == l;
    }
  }

  /** What ingesting a batch leaves: all that was committed, all of the batch, and the events of both. */
  ghost predicate Ingested(log: seq<StoreRow>, rows: seq<StoreRow>, batch: seq<StoreRow>, after: seq<StoreRow>) {
    && UniqueKeys(after) && (forall l :: l in batch ==> l in after) && Events(after) == Events(rows) + Events(batch)
    && (forall x :: x in after && x.committedRev.Some? ==> x in log)
    && (forall x :: x in rows && x.committedRev.Some? ==> x in after)
  }

  lemma OneMoreIngested(log: seq<StoreRow>, rows: seq<StoreRow>, init: seq<StoreRow>, last: StoreRow, middle: seq<StoreRow>)
    requires IsLog(log) && last in log && (forall l :: l in init ==> l in log)
    requires Ingested(log, rows, init, middle) && AgreesWith(middle, last.event)
    ensures Ingested(log, rows, init + [last], Ingest(middle, last))
  {
    IngestKeeps(log, middle, last);
    forall l | l in init ensures l in Ingest(middle, last) {
      assert l in log && l in middle;
    }
    assert Events(init + [last]) == Events(init) + {last.event};
  }

  lemma {:induction false} IngestAllKeeps(log: seq<StoreRow>, rows: seq<StoreRow>, batch: seq<StoreRow>)
    requires IsLog(log) && UniqueKeys(rows) && forall l :: l in batch ==> l in log && AgreesWith(rows, l.event)
    requires forall x :: x in rows && x.committedRev.Some? ==> x in log
    ensures Ingested(log, rows, batch, IngestAll(rows, batch))
  {
    if batch == [] {
      assert Events(batch) == {};
    } else {
      var init, last := batch[..|batch| - 1], batch[|batch| - 1];
      assert batch == init + [last];
      IngestAllKeeps(log, rows, init);
      IngestedAgrees(log, rows, init, last, IngestAll(rows, init));
      OneMoreIngested(log, rows, init, last, IngestAll(rows, init));
    }
  }

  lemma IngestedAgrees(log: seq<StoreRow>, rows: seq<StoreRow>, init: seq<StoreRow>, last: StoreRow, middle: seq<StoreRow>)
    requires IsLog(log) && last in log && (forall l :: l in init ==> l in log) && AgreesWith(rows, last.event)
    requires Ingested(log, rows, init, middle)
    ensures AgreesWith(middle, last.event)
  {
    forall x | x in middle && SameKey(x.event, last.event) ensures x.event == last.event {
      assert x.event in Events(middle);
      if x.event in Events(init) {
        var l :| l in init && l.event == x.event;
        LogKeyIsUnique(log, l, last);
      }
    }
  }

  lemma LogKeyIsUnique(log: seq<StoreRow>, k: StoreRow, l: StoreRow)
    requires IsLog(log) && k in log && l in log && SameKey(k.event, l.event)
    ensures k == l
  {
    var i :| 0 <= i < |log| && log[i] == k;
    var j :| 0 <= j < |log| && log[j] == l;
  }

  // ------------------------------------------------------------------------- every step keeps it

  /** The log may be extended by an event of some replica. */
  lemma LogExtended(w: World, l: StoreRow)
    requires Inv(w) && IsLog(w.log + [l]) && IsKnown(w, l.event)
    ensures Inv(w.(log := w.log + [l]))
  {
    var n := w.(log := w.log + [l]);
    forall e | IsKnown(n, e) ensures IsKnown(w, e) {
      if !(exists i :: 0 <= i < |w.replicas| && e in Events(w.replicas[i].rows)) {
        assert e in Events(w.log + [l]);
        assert e in Events(w.log) || e == l.event;
      }
    }
    forall i | 0 <= i < |n.replicas| ensures Follows(n.log, n.replicas[i]) {
      assert Follows(w.log, w.replicas[i]);
    }
  }

  lemma KnownOf(w: World, i: nat)
    requires i < |w.replicas|
    ensures forall x :: x in w.replicas[i].rows ==> IsKnown(w, x.event)
    ensures forall l :: l in w.log ==> IsKnown(w, l.event)
  {
    forall x | x in w.replicas[i].rows ensures IsKnown(w, x.event) {
      assert x.event in Events(w.replicas[i].rows);
    }
    forall l | l in w.log ensures IsKnown(w, l.event) {
      assert l.event in Events(w.log);
    }
  }

  /** The number that an actor's replica gives next is taken nowhere. */
  lemma NumberIsFree(w: World, i: nat, e: Event, f: Event)
    requires Inv(w) && Enabled(w, WriteLocal(i, e)) && IsKnown(w, f)
    ensures !SameKey(e, f)
  {
    var r := w.replicas[i];
    assert KeepsOwn(w, r);
    if f.actorId == e.actorId {
      var x :| x in r.rows && x.event == f;
    }
  }

  lemma WrittenFollows(log: seq<StoreRow>, r: Replica, e: Event)
    requires Follows(log, r) && forall x :: x in r.rows ==> !SameKey(e, x.event)
    ensures Follows(log, r.(rows := r.rows + [StoreRow(e, None, Pending)]))
    ensures Events(r.rows + [StoreRow(e, None, Pending)]) == Events(r.rows) + {e}
  {
    var rows := r.rows + [StoreRow(e, None, Pending)];
    assert rows[|r.rows|].event == e;
    forall i | 0 <= i < |r.rows| ensures !SameKey(rows[i].event, e) {
      assert r.rows[i] in r.rows;
    }
  }

  lemma WriteKeepsInv(w: World, i: nat, e: Event)
    requires Inv(w) && Enabled(w, WriteLocal(i, e))
    ensures Inv(Next(w, WriteLocal(i, e)))
  {
    var n, r := Next(w, WriteLocal(i, e)), w.replicas[i];
    OnlyOneMoreIsKnown(w, i, e);
    forall f | IsKnown(w, f) ensures !SameKey(e, f) {
      NumberIsFree(w, i, e, f);
    }
    KnownOf(w, i);
    assert Follows(w.log, r);
    WrittenFollows(w.log, r, e);
    forall j | 0 <= j < |n.replicas| ensures KeepsOwn(n, n.replicas[j]) {
      assert KeepsOwn(w, w.replicas[j]);
    }
  }

  lemma OnlyOneMoreIsKnown(w: World, i: nat, e: Event)
    requires Enabled(w, WriteLocal(i, e))
    ensures forall f :: IsKnown(Next(w, WriteLocal(i, e)), f) ==> IsKnown(w, f) || f == e
  {
    var n := Next(w, WriteLocal(i, e));
    forall f | IsKnown(n, f) ensures IsKnown(w, f) || f == e {
      if f !in Events(w.log) {
        var j :| 0 <= j < |n.replicas| && f in Events(n.replicas[j].rows);
        assert f == e || f in Events(w.replicas[j].rows);
      }
    }
  }

  /** A replica may change its rows as long as it follows the log, loses no event and gets no unknown one. */
  lemma ReplicaChanges(w: World, i: nat, r: Replica)
    requires Inv(w) && i < |w.replicas| && Follows(w.log, r) && r.actors == w.replicas[i].actors
    requires Events(w.replicas[i].rows) <= Events(r.rows) && forall e :: e in Events(r.rows) ==> IsKnown(w, e)
    ensures Inv(w.(replicas := w.replicas[i := r]))
  {
    var n := w.(replicas := w.replicas[i := r]);
    forall e | IsKnown(n, e) ensures IsKnown(w, e) {
      if e !in Events(w.log) {
        var j :| 0 <= j < |n.replicas| && e in Events(n.replicas[j].rows);
        assert e in Events(w.replicas[j].rows) || j == i;
      }
    }
    forall j | 0 <= j < |n.replicas| ensures Follows(n.log, n.replicas[j]) && KeepsOwn(n, n.replicas[j]) {
      assert Follows(w.log, w.replicas[j]) && KeepsOwn(w, w.replicas[j]);
    }
  }

  lemma RejectKeepsInv(w: World, i: nat, k: nat)
    requires Inv(w) && Enabled(w, Reject(i, k))
    ensures Inv(Next(w, Reject(i, k)))
  {
    var r := w.replicas[i];
    var rows := r.rows[k := r.rows[k].(state := Rejected)];
    assert Follows(w.log, r);
    KnownOf(w, i);
    RejectedRows(r.rows, rows, k);
    LogRowsStay(w.log, r, rows);
    ReplicaChanges(w, i, r.(rows := rows));
  }

  lemma RejectedRows(before: seq<StoreRow>, after: seq<StoreRow>, k: nat)
    requires k < |before| && before[k].committedRev.None? && after == before[k := before[k].(state := Rejected)]
    ensures Events(after) == Events(before)
    ensures forall x: StoreRow :: x.committedRev.Some? ==> (x in after <==> x in before)
  {
    forall j | 0 <= j < |before| ensures before[j].event in Events(after) && after[j].event in Events(before) {
      assert after[j] in after && before[j] in before;
    }
    forall x | x in before && x.committedRev.Some? ensures x in after {
      var j :| 0 <= j < |before| && before[j] == x;
      assert after[j] == x;
    }
  }

  /** Rows that keep what is committed keep what has been pulled. */
  lemma LogRowsStay(log: seq<StoreRow>, r: Replica, rows: seq<StoreRow>)
    requires IsLog(log) && Follows(log, r) && forall x :: x in r.rows && x.committedRev.Some? ==> x in rows
    ensures forall k :: 0 <= k < r.pulled ==> log[k] in rows
  {
  }

  lemma MarkKeepsInv(w: World, i: nat, l: StoreRow)
    requires Inv(w) && i < |w.replicas| && l in w.log
    ensures Inv(WithRows(w, i, Mark(w.replicas[i].rows, l)))
  {
    var r := w.replicas[i];
    KnownOf(w, i);
    assert Follows(w.log, r);
    MarkedRows(w, i, l);
    LogRowsStay(w.log, r, Mark(r.rows, l));
    ReplicaChanges(w, i, r.(rows := Mark(r.rows, l)));
  }

  lemma MarkedRows(w: World, i: nat, l: StoreRow)
    requires Inv(w) && i < |w.replicas| && l in w.log
    ensures var rows := w.replicas[i].rows;
            && Events(Mark(rows, l)) == Events(rows)
            && (forall x :: x in rows && x.committedRev.Some? ==> x in Mark(rows, l))
            && (forall x :: x in Mark(rows, l) && x.committedRev.Some? ==> x in rows || x == l)
  {
    var rows := w.replicas[i].rows;
    KnownOf(w, i);
    forall k | 0 <= k < |rows| ensures rows[k].event in Events(Mark(rows, l)) && Mark(rows, l)[k].event in Events(rows) {
      assert Mark(rows, l)[k] in Mark(rows, l) && rows[k] in rows;
    }
  }

  lemma FlushKeepsInv(w: World, i: nat, k: nat, revision: int, acked: bool)
    requires Inv(w) && Enabled(w, Flush(i, k, revision, acked))
    ensures Inv(Next(w, Flush(i, k, revision, acked)))
  {
    var r := w.replicas[i];
    var found := Find(w.log, r.rows[k].event);
    if found.Some? {
      MarkKeepsInv(w, i, w.log[found.value]);
    } else {
      var l := StoreRow(r.rows[k].event, Some(revision), Committed);
      KnownOf(w, i);
      assert r.rows[k] in r.rows;
      LogGrows(w.log, l);
      LogExtended(w, l);
      assert (w.log + [l])[|w.log|] == l;
      MarkKeepsInv(w.(log := w.log + [l]), i, l);
    }
  }

  lemma LogGrows(log: seq<StoreRow>, l: StoreRow)
    requires IsLog(log) && !HasKey(log, l.event) && l.committedRev.Some? && l.committedRev.value > 0 && l.state == Committed
    requires log != [] ==> l.committedRev.value > log[|log| - 1].committedRev.value
    ensures IsLog(log + [l])
  {
  }

  lemma {:induction false} IngestedHaveRevisions(rows: seq<StoreRow>, batch: seq<StoreRow>)
    requires HaveRevisions(rows) && HaveRevisions(batch) && forall l :: l in batch ==> l.committedRev.Some?
    ensures HaveRevisions(IngestAll(rows, batch))
  {
    if batch != [] {
      var init, last := batch[..|batch| - 1], batch[|batch| - 1];
      IngestedHaveRevisions(rows, init);
      OneMoreHasRevision(IngestAll(rows, init), last);
    }
  }

  lemma OneMoreHasRevision(rows: seq<StoreRow>, l: StoreRow)
    requires HaveRevisions(rows) && l.committedRev.Some?
    ensures HaveRevisions(Ingest(rows, l))
  {
    var after := Ingest(rows, l);
    forall x | x in after && x.state == Committed ensures x.committedRev.Some? {
      var k :| 0 <= k < |after| && after[k] == x;
      assert k < |rows| ==> rows[k] in rows;
    }
  }

  lemma PulledFollows(w: World, i: nat, upTo: nat)
    requires Inv(w) && Enabled(w, Pull(i, upTo))
    ensures var r := w.replicas[i];
            var rows := IngestAll(r.rows, w.log[r.pulled..upTo]);
            && Follows(w.log, r.(rows := rows, pulled := upTo))
            && Events(rows) == Events(r.rows) + Events(w.log[r.pulled..upTo])
  {
    var r := w.replicas[i];
    var batch := w.log[r.pulled..upTo];
    assert Follows(w.log, r);
    ReplicaAgrees(w, i, batch);
    IngestAllKeeps(w.log, r.rows, batch);
    IngestedHaveRevisions(r.rows, batch);
    var rows := IngestAll(r.rows, batch);
    LogRowsStay(w.log, r, rows);
    PulledAreThere(w.log, r.pulled, upTo, rows);
  }

  lemma PullKeepsInv(w: World, i: nat, upTo: nat)
    requires Inv(w) && Enabled(w, Pull(i, upTo))
    ensures Inv(Next(w, Pull(i, upTo)))
  {
    var r := w.replicas[i];
    PulledFollows(w, i, upTo);
    OnlyKnown(w, i, w.log[r.pulled..upTo]);
    ReplicaChanges(w, i, r.(rows := IngestAll(r.rows, w.log[r.pulled..upTo]), pulled := upTo));
  }

  lemma ReplicaAgrees(w: World, i: nat, batch: seq<StoreRow>)
    requires Inv(w) && i < |w.replicas| && forall l :: l in batch ==> l in w.log
    ensures forall l :: l in batch ==> AgreesWith(w.replicas[i].rows, l.event)
  {
    KnownOf(w, i);
  }

  lemma PulledAreThere(log: seq<StoreRow>, pulled: nat, upTo: nat, rows: seq<StoreRow>)
    requires pulled <= upTo <= |log| && forall k :: 0 <= k < pulled ==> log[k] in rows
    requires forall l :: l in log[pulled..upTo] ==> l in rows
    ensures forall k :: 0 <= k < upTo ==> log[k] in rows
  {
    forall k | pulled <= k < upTo ensures log[k] in rows {
      assert log[pulled..upTo][k - pulled] == log[k];
    }
  }

  lemma OnlyKnown(w: World, i: nat, batch: seq<StoreRow>)
    requires i < |w.replicas| && forall l :: l in batch ==> l in w.log
    ensures forall e :: e in Events(w.replicas[i].rows) + Events(batch) ==> IsKnown(w, e)
  {
    KnownOf(w, i);
  }

  lemma {:induction false} RunsKeepInv(w: World, steps: seq<Step>, end: World)
    requires Inv(w) && IsRun(w, steps, end)
    ensures Inv(end)
    decreases |steps|
  {
    if steps != [] {
      match steps[0] {
        case WriteLocal(i, e) => WriteKeepsInv(w, i, e);
        case Flush(i, k, revision, acked) => FlushKeepsInv(w, i, k, revision, acked);
        case Reject(i, k) => RejectKeepsInv(w, i, k);
        case Pull(i, upTo) => PullKeepsInv(w, i, upTo);
      }
      RunsKeepInv(Next(w, steps[0]), steps[1..], end);
    }
  }

  // ------------------------------------------------------------------------------ convergence

  /** Everything is pulled, and nothing that is folded is pending. */
  ghost predicate IsSettled(w: World, i: nat)
    requires i < |w.replicas|
  {
    w.replicas[i].pulled == |w.log| && forall x :: x in w.replicas[i].rows && IsLive(x) ==> x.committedRev.Some?
  }

  lemma {:induction false} UniqueRevisions(log: seq<StoreRow>, rows: seq<StoreRow>)
    requires IsLog(log) && UniqueKeys(rows) && forall x :: x in rows && x.committedRev.Some? ==> x in log
    ensures HasRevisions(rows)
  {
    assert forall x :: x in rows && x.committedRev.Some? ==> x.committedRev.value > 0;
    if rows != [] {
      assert rows[0] in rows && forall x :: x in rows[1..] ==> x in rows;
      forall i, j | 0 <= i < j < |rows[1..]| ensures !SameKey(rows[1..][i].event, rows[1..][j].event) {
        assert !SameKey(rows[i + 1].event, rows[j + 1].event);
      }
      UniqueRevisions(log, rows[1..]);
      forall r | r in rows[1..] && rows[0].committedRev.Some? ensures r.committedRev != rows[0].committedRev {
        var j :| 0 <= j < |rows[1..]| && rows[1..][j] == r;
        assert rows[j + 1] == r;
        if r.committedRev == rows[0].committedRev {
          RevisionIsUnique(log, r, rows[0]);
        }
      }
    }
  }

  lemma RevisionIsUnique(log: seq<StoreRow>, x: StoreRow, y: StoreRow)
    requires IsLog(log) && x in log && y in log && x.committedRev == y.committedRev
    ensures SameKey(x.event, y.event)
  {
    var i :| 0 <= i < |log| && log[i] == x;
    var j :| 0 <= j < |log| && log[j] == y;
  }

  /** A settled replica's collection is the backend's, row for row. */
  lemma SettledIsLog(w: World, i: nat, collection: string)
    requires Inv(w) && i < |w.replicas| && IsSettled(w, i)
    ensures CollectionRows(w.replicas[i].rows, collection) == CommittedRows(w.log, collection)
  {
    var r := w.replicas[i];
    assert Follows(w.log, r);
    UniqueRevisions(w.log, r.rows);
    UniqueRevisions(w.log, w.log);
    CommittedRowsIncrease(r.rows, collection);
    CommittedRowsIncrease(w.log, collection);
    forall x ensures x in r.rows && IsCommittedOf(x, collection) <==> x in w.log && IsCommittedOf(x, collection) {
      if x in w.log {
        var k :| 0 <= k < |w.log| && w.log[k] == x;
      }
    }
    SameRowsSameTable(CommittedRows(r.rows, collection), CommittedRows(w.log, collection));
    SortIsSorted(Filter(r.rows, (x: StoreRow) => IsLive(x) && x.event.collection == collection));
    FilterKeepsAll(CollectionRows(r.rows, collection), (x: StoreRow) => x.committedRev.Some?);
  }

  /**
   Convergence: whatever was written, flushed, rejected and pulled, in whatever order and with
   whatever acknowledgements lost, two settled replicas fold every entity to the same row: that
   of the backend's log.
   */
  lemma SettledReplicasConverge(
      w: World, steps: seq<Step>, end: World, i: nat, j: nat, collection: string, entityId: string)
    requires Inv(w) && IsRun(w, steps, end)
    requires i < |end.replicas| && j < |end.replicas| && IsSettled(end, i) && IsSettled(end, j)
    ensures RowsOfEntity(end.replicas[i].rows, collection, entityId) == RowsOfEntity(end.replicas[j].rows, collection, entityId)
    ensures Refolded(end.replicas[i].rows, collection, entityId) == Refolded(end.replicas[j].rows, collection, entityId)
    ensures Refolded(end.replicas[i].rows, collection, entityId) == Refolded(end.log, collection, entityId)
  {
    RunsKeepInv(w, steps, end);
    SettledIsLog(end, i, collection);
    SettledIsLog(end, j, collection);
    LogIsCollection(end.log, collection);
    EntityRowsOfCollection(end.replicas[i].rows, collection, entityId);
    EntityRowsOfCollection(end.replicas[j].rows, collection, entityId);
    EntityRowsOfCollection(end.log, collection, entityId);
  }

  lemma LogIsCollection(log: seq<StoreRow>, collection: string)
    requires IsLog(log)
    ensures CollectionRows(log, collection) == CommittedRows(log, collection)
  {
    SortIsSorted(Filter(log, (x: StoreRow) => IsLive(x) && x.event.collection == collection));
    assert forall x :: x in CollectionRows(log, collection) ==> x.committedRev.Some?;
    FilterKeepsAll(CollectionRows(log, collection), (x: StoreRow) => x.committedRev.Some?);
  }

  /** Replicas that have not begun, with actors of their own. */
  lemma EmptyIsGood(actors: seq<set<string>>)
    requires forall i, j :: 0 <= i < j < |actors| ==> actors[i] !! actors[j]
    ensures Inv(World([], seq(|actors|, i requires 0 <= i < |actors| => Replica([], 0, actors[i]))))
  {
  }

  // -------------------------------------------------------------------------- what steps do

  /** The world with one row of a replica replaced. */
  function WithRow(w: World, i: nat, k: nat, x: StoreRow): World
    requires i < |w.replicas| && k < |w.replicas[i].rows|
  {
    WithRows(w, i, w.replicas[i].rows[k := x])
  }

  /** A row that is folded and still waits to be committed. */
  predicate IsOpen(x: StoreRow) {
    IsLive(x) && x.committedRev.None?
  }

  /** An actor's numbers begin with 1, and the next is one more than the largest. */
  lemma NumbersCount(rows: seq<StoreRow>, actorId: string)
    ensures (forall x :: x in rows ==> x.event.actorId != actorId) ==> NextNumber(rows, actorId) == 1
    ensures forall x :: x in rows && x.event.actorId == actorId ==> x.event.actorSeq < NextNumber(rows, actorId)
    ensures (exists x :: x in rows && x.event.actorId == actorId) ==>
              exists x :: x in rows && x.event.actorId == actorId && x.event.actorSeq + 1 == NextNumber(rows, actorId)
  {
    LastNumberIsUsed(rows, actorId);
  }

  lemma {:induction false} LastNumberIsUsed(rows: seq<StoreRow>, actorId: string)
    ensures LastNumber(rows, actorId).Some? ==>
              exists x :: x in rows && x.event.actorId == actorId && LastNumber(rows, actorId) == Some(x.event.actorSeq)
  {
    if rows != [] {
      LastNumberIsUsed(rows[..|rows| - 1], actorId);
    }
  }

  /**
   Only a row that is folded and waits is flushed. That adds its event to the log at the revision
   given, unless its key is there already. When it is acknowledged the row has the revision that the
   log has for its key; nothing else changes.
   */
  lemma FlushDoes(w: World, i: nat, k: nat, revision: int, acked: bool)
    requires Inv(w) && Enabled(w, Flush(i, k, revision, acked))
    ensures IsOpen(w.replicas[i].rows[k])
    ensures var n, row := Next(w, Flush(i, k, revision, acked)), w.replicas[i].rows[k];
            && n.log == (if HasKey(w.log, row.event) then w.log else w.log + [StoreRow(row.event, Some(revision), Committed)])
            && exists l :: l in n.log && SameKey(l.event, row.event)
                 && n.replicas == if acked then WithRow(w, i, k, StoreRow(row.event, l.committedRev, Committed)).replicas
                                  else w.replicas
  {
    var r := w.replicas[i];
    var row, found := r.rows[k], Find(w.log, r.rows[k].event);
    var l := if found.Some? then w.log[found.value] else StoreRow(row.event, Some(revision), Committed);
    var n := Next(w, Flush(i, k, revision, acked));
    assert l in n.log;
    assert Follows(w.log, r);
    MarkOfOne(r.rows, k, l);
  }

  lemma MarkOfOne(rows: seq<StoreRow>, k: nat, l: StoreRow)
    requires UniqueKeys(rows) && k < |rows| && SameKey(rows[k].event, l.event) && rows[k].committedRev.None?
    ensures Mark(rows, l) == rows[k := StoreRow(rows[k].event, l.committedRev, Committed)]
  {
    forall j | 0 <= j < |rows| && j != k ensures !SameKey(rows[j].event, l.event) {
      assert !SameKey(rows[j].event, rows[k].event);
    }
  }

  /** What a pull leaves of a replica's rows, the rows between two positions of the log being given. */
  ghost predicate IsPulled(rows: seq<StoreRow>, batch: seq<StoreRow>, after: seq<StoreRow>) {
    && (forall l :: l in batch ==> l in after)
    && (forall x :: x in after ==> x in rows || x in batch)
    && (forall x :: x in rows ==> x in after || HasKey(batch, x.event))
  }

  /** A pull brings the rows between two positions of the log, and leaves what else is there. */
  lemma PullDoes(w: World, i: nat, upTo: nat)
    requires Inv(w) && Enabled(w, Pull(i, upTo))
    ensures var n := Next(w, Pull(i, upTo));
            && n.log == w.log && |n.replicas| == |w.replicas| && n.replicas[i].pulled == upTo
            && (forall j :: 0 <= j < |w.replicas| && j != i ==> n.replicas[j] == w.replicas[j])
            && IsPulled(w.replicas[i].rows, w.log[w.replicas[i].pulled..upTo], n.replicas[i].rows)
  {
    var r := w.replicas[i];
    var batch := w.log[r.pulled..upTo];
    assert Follows(w.log, r);
    ReplicaAgrees(w, i, batch);
    IngestAllKeeps(w.log, r.rows, batch);
    IngestAllBrings(w.log, r.rows, batch);
  }

  lemma {:induction false} IngestAllBrings(log: seq<StoreRow>, rows: seq<StoreRow>, batch: seq<StoreRow>)
    requires IsLog(log) && UniqueKeys(rows) && forall l :: l in batch ==> l in log && AgreesWith(rows, l.event)
    requires forall x :: x in rows && x.committedRev.Some? ==> x in log
    ensures forall x :: x in IngestAll(rows, batch) ==> x in rows || x in batch
    ensures forall x :: x in rows ==> x in IngestAll(rows, batch) || HasKey(batch, x.event)
  {
    if batch != [] {
      var init, last := batch[..|batch| - 1], batch[|batch| - 1];
      assert batch == init + [last];
      IngestAllBrings(log, rows, init);
      IngestAllKeeps(log, rows, init);
      IngestedAgrees(log, rows, init, last, IngestAll(rows, init));
      OneMoreBrought(rows, init, last, IngestAll(rows, init));
    }
  }

  lemma OneMoreBrought(rows: seq<StoreRow>, init: seq<StoreRow>, last: StoreRow, middle: seq<StoreRow>)
    requires AgreesWith(middle, last.event) && last.committedRev.Some? && last.state == Committed
    requires forall x :: x in middle ==> x in rows || x in init
    requires forall x :: x in rows ==> x in middle || HasKey(init, x.event)
    ensures forall x :: x in Ingest(middle, last) ==> x in rows || x in init + [last]
    ensures forall x :: x in rows ==> x in Ingest(middle, last) || HasKey(init + [last], x.event)
  {
    IngestBrings(middle, last);
    var batch := init + [last];
    forall x | x in rows ensures x in Ingest(middle, last) || HasKey(batch, x.event) {
      if HasKey(init, x.event) {
        var k :| 0 <= k < |init| && SameKey(init[k].event, x.event);
        assert SameKey(batch[k].event, x.event);
      } else if SameKey(last.event, x.event) {
        assert SameKey(batch[|init|].event, x.event);
      }
    }
  }

  lemma IngestBrings(rows: seq<StoreRow>, l: StoreRow)
    requires AgreesWith(rows, l.event) && l.committedRev.Some? && l.state == Committed
    ensures forall x :: x in Ingest(rows, l) ==> x in rows || x == l
    ensures forall x :: x in rows && !SameKey(l.event, x.event) ==> x in Ingest(rows, l)
  {
    var after := Ingest(rows, l);
    forall x | x in after ensures x in rows || x == l {
      var k :| 0 <= k < |after| && after[k] == x;
      assert k < |rows| ==> rows[k] in rows;
    }
    forall x | x in rows && !SameKey(l.event, x.event) ensures x in after {
      var k :| 0 <= k < |rows| && rows[k] == x;
      assert after[k] == x;
    }
  }

  // ------------------------------------------------------------------- settling is possible

  /** Where open rows are: by replica and position. */
  ghost function OpenRows(w: World): set<(nat, nat)> {
    set i: nat, k: nat | i < |w.replicas| && k < |w.replicas[i].rows| && IsOpen(w.replicas[i].rows[k]) :: (i, k)
  }

  lemma RunsJoin(w: World, xs: seq<Step>, middle: World, ys: seq<Step>, end: World)
    requires IsRun(w, xs, middle) && IsRun(middle, ys, end)
    ensures IsRun(w, xs + ys, end)
    decreases |xs|
  {
    if xs == [] {
      assert xs + ys == ys;
    } else {
      assert (xs + ys)[0] == xs[0] && (xs + ys)[1..] == xs[1..] + ys;
      RunsJoin(Next(w, xs[0]), xs[1..], middle, ys, end);
    }
  }

  lemma OneStep(w: World, step: Step)
    requires Enabled(w, step)
    ensures IsRun(w, [step], Next(w, step))
  {
    assert [step][1..] == [];
  }

  /** A revision that a flush can be given next. */
  function NextRevision(log: seq<StoreRow>): int {
    if log == [] || log[|log| - 1].committedRev.None? then 1 else log[|log| - 1].committedRev.value + 1
  }

  /** An open row can be flushed at any revision past those of the log, and can be rejected. */
  lemma OpenIsEnabled(w: World, i: nat, k: nat, revision: int, acked: bool)
    requires Inv(w) && (i, k) in OpenRows(w) && revision > 0
    requires forall l :: l in w.log && l.committedRev.Some? ==> l.committedRev.value < revision
    ensures Enabled(w, Flush(i, k, revision, acked)) && Enabled(w, Reject(i, k))
  {
    assert Follows(w.log, w.replicas[i]) && w.replicas[i].rows[k] in w.replicas[i].rows;
    assert w.log != [] ==> w.log[|w.log| - 1] in w.log;
  }

  lemma OneLessIsOpen(w: World, n: World, i: nat, k: nat, closed: StoreRow)
    requires i < |w.replicas| && k < |w.replicas[i].rows| && !IsOpen(closed)
    requires n.replicas == w.replicas[i := w.replicas[i].(rows := w.replicas[i].rows[k := closed])]
    ensures OpenRows(n) == OpenRows(w) - {(i, k)}
  {
    forall p ensures p in OpenRows(n) <==> p in OpenRows(w) - {(i, k)} {
      if p.0 == i && p.1 < |w.replicas[i].rows| {
        assert n.replicas[i].rows[p.1] == if p.1 == k then closed else w.replicas[i].rows[p.1];
      }
    }
  }

  /** An open row can be flushed, and is open no more; all others stay as they were. */
  lemma FlushCloses(w: World, i: nat, k: nat)
    requires Inv(w) && (i, k) in OpenRows(w)
    ensures var step := Flush(i, k, NextRevision(w.log), true);
            && Enabled(w, step) && Inv(Next(w, step))
            && OpenRows(Next(w, step)) == OpenRows(w) - {(i, k)} && |Next(w, step).replicas| == |w.replicas|
  {
    OpenIsEnabled(w, i, k, NextRevision(w.log), true);
    FlushKeepsInv(w, i, k, NextRevision(w.log), true);
    FlushDoes(w, i, k, NextRevision(w.log), true);
    var n, x := Next(w, Flush(i, k, NextRevision(w.log), true)), w.replicas[i].rows[k];
    var l :| l in n.log && SameKey(l.event, x.event)
             && n.replicas == WithRow(w, i, k, StoreRow(x.event, l.committedRev, Committed)).replicas;
    OneLessIsOpen(w, n, i, k, StoreRow(x.event, l.committedRev, Committed));
  }

  /** Only an open row is rejected; it stays where it is, is open no more, and nothing else changes. */
  lemma RejectDoes(w: World, i: nat, k: nat)
    requires Inv(w) && Enabled(w, Reject(i, k))
    ensures var n := Next(w, Reject(i, k));
            && (i, k) in OpenRows(w) && OpenRows(n) == OpenRows(w) - {(i, k)}
            && n.log == w.log && |n.replicas| == |w.replicas| && |n.replicas[i].rows| == |w.replicas[i].rows|
            && n.replicas[i].rows[k].event == w.replicas[i].rows[k].event && !IsLive(n.replicas[i].rows[k])
  {
    var row := w.replicas[i].rows[k];
    assert Follows(w.log, w.replicas[i]) && row in w.replicas[i].rows;
    OneLessIsOpen(w, Next(w, Reject(i, k)), i, k, row.(state := Rejected));
  }

  /** All open rows can be flushed, one after the other. */
  lemma {:induction false} CanFlushAll(w: World) returns (steps: seq<Step>, end: World)
    requires Inv(w)
    ensures IsRun(w, steps, end) && Inv(end) && OpenRows(end) == {} && |end.replicas| == |w.replicas|
    decreases |OpenRows(w)|
  {
    steps, end := [], w;
    if OpenRows(w) != {} {
      var p :| p in OpenRows(w);
      var step := Flush(p.0, p.1, NextRevision(w.log), true);
      FlushCloses(w, p.0, p.1);
      steps, end := CanFlushAll(Next(w, step));
      OneStep(w, step);
      RunsJoin(w, [step], Next(w, step), steps, end);
      steps := [step] + steps;
    }
  }

  lemma PullOpensNothing(w: World, i: nat)
    requires Inv(w) && i < |w.replicas| && OpenRows(w) == {}
    ensures var step := Pull(i, |w.log|);
            && Enabled(w, step) && Inv(Next(w, step)) && OpenRows(Next(w, step)) == {}
            && Next(w, step).log == w.log && |Next(w, step).replicas| == |w.replicas|
            && Next(w, step).replicas[i].pulled == |w.log|
            && forall j :: 0 <= j < |w.replicas| && j != i ==> Next(w, step).replicas[j] == w.replicas[j]
  {
    assert Follows(w.log, w.replicas[i]);
    PullKeepsInv(w, i, |w.log|);
    PullDoes(w, i, |w.log|);
    var n, rows := Next(w, Pull(i, |w.log|)), w.replicas[i].rows;
    forall k | 0 <= k < |n.replicas[i].rows| ensures !IsOpen(n.replicas[i].rows[k]) {
      var x := n.replicas[i].rows[k];
      assert x in n.replicas[i].rows;
      if x in rows {
        var m: nat :| m < |rows| && rows[m] == x;
        assert (i, m) !in OpenRows(w);
      }
    }
    forall p | p in OpenRows(n) ensures p in OpenRows(w) {
    }
  }

  lemma {:induction false} CanPullAll(w: World, n: nat) returns (steps: seq<Step>, end: World)
    requires Inv(w) && OpenRows(w) == {} && n <= |w.replicas|
    requires forall i :: 0 <= i < n ==> w.replicas[i].pulled == |w.log|
    ensures IsRun(w, steps, end) && OpenRows(end) == {} && |end.replicas| == |w.replicas|
    ensures forall i :: 0 <= i < |end.replicas| ==> end.replicas[i].pulled == |end.log|
    decreases |w.replicas| - n
  {
    steps, end := [], w;
    if n < |w.replicas| {
      PullOpensNothing(w, n);
      var step := Pull(n, |w.log|);
      steps, end := CanPullAll(Next(w, step), n + 1);
      OneStep(w, step);
      RunsJoin(w, [step], Next(w, step), steps, end);
      steps := [step] + steps;
    }
  }

  /** From every world that a run comes to, another run leads to one in which every replica is settled. */
  lemma EveryWorldCanSettle(w: World) returns (steps: seq<Step>, end: World)
    requires Inv(w)
    ensures IsRun(w, steps, end) && |end.replicas| == |w.replicas|
    ensures forall i :: 0 <= i < |end.replicas| ==> IsSettled(end, i)
  {
    var flushes, middle := CanFlushAll(w);
    var pulls, last := CanPullAll(middle, 0);
    RunsJoin(w, flushes, middle, pulls, last);
    steps, end := flushes + pulls, last;
    forall i | 0 <= i < |end.replicas| ensures IsSettled(end, i) {
      forall x | x in end.replicas[i].rows && IsLive(x) ensures x.committedRev.Some? {
        var k: nat :| k < |end.replicas[i].rows| && end.replicas[i].rows[k] == x;
        assert (i, k) !in OpenRows(end);
      }
    }
  }

  // ------------------------------------------------------------ one actor on two replicas

  const OURS := Event("e1", "tickets", "t", "ann", 1, Patch, None, None, map["title" := Str("x")], None)
  const THEIRS := Event("e2", "tickets", "t", "ann", 1, Patch, None, None, map["title" := Str("y")], None)

  function Waiting(e: Event): StoreRow { StoreRow(e, None, Pending) }

  function First(e: Event): StoreRow { StoreRow(e, Some(1), Committed) }

  /** Two replicas on which the same actor writes. */
  function Twins(log: seq<StoreRow>, ours: seq<StoreRow>, theirs: seq<StoreRow>, pulled: nat, alsoPulled: nat): World {
    World(log, [Replica(ours, pulled, {"ann"}), Replica(theirs, alsoPulled, {"ann"})])
  }

  const COLLISION := [WriteLocal(0, OURS), WriteLocal(1, THEIRS), Flush(0, 0, 1, true), Flush(1, 0, 2, true), Pull(0, 1), Pull(1, 1)]

  lemma OneMoreStep(w: World, step: Step, next: World, steps: seq<Step>, rest: seq<Step>, end: World)
    requires steps != [] && steps[0] == step && steps[1..] == rest
    requires Enabled(w, step) && Next(w, step) == next && IsRun(next, rest, end)
    ensures IsRun(w, steps, end)
  {
  }

  lemma TwinsWrite()
    ensures var a, b := Twins([], [], [], 0, 0), Twins([], [Waiting(OURS)], [], 0, 0);
            && Enabled(a, WriteLocal(0, OURS)) && Next(a, WriteLocal(0, OURS)) == b
            && Enabled(b, WriteLocal(1, THEIRS))
            && Next(b, WriteLocal(1, THEIRS)) == Twins([], [Waiting(OURS)], [Waiting(THEIRS)], 0, 0)
  {
    assert [] + [Waiting(OURS)] == [Waiting(OURS)] && [] + [Waiting(THEIRS)] == [Waiting(THEIRS)];
  }

  /** The second event has the first one's key, and is taken for it. */
  lemma TwinsFlush()
    ensures var a, b := Twins([], [Waiting(OURS)], [Waiting(THEIRS)], 0, 0), Twins([First(OURS)], [First(OURS)], [Waiting(THEIRS)], 0, 0);
            && Enabled(a, Flush(0, 0, 1, true)) && Next(a, Flush(0, 0, 1, true)) == b
            && Enabled(b, Flush(1, 0, 2, true))
            && Next(b, Flush(1, 0, 2, true)) == Twins([First(OURS)], [First(OURS)], [First(THEIRS)], 0, 0)
  {
    assert Mark([Waiting(OURS)], First(OURS)) == [First(OURS)];
    assert Find([First(OURS)], THEIRS) == Some(0);
    assert Mark([Waiting(THEIRS)], First(OURS)) == [First(THEIRS)];
  }

  lemma PullOfOwn(e: Event)
    requires SameKey(e, OURS)
    ensures IngestAll([First(e)], [First(OURS)][0..1]) == [First(e)]
  {
    assert [First(OURS)][0..1] == [First(OURS)];
    assert [First(OURS)][..0] == [];
    assert SameKey([First(e)][0].event, OURS);
    assert Mark([First(e)], First(OURS)) == [First(e)];
  }

  lemma TwinsPull()
    ensures var a, b := Twins([First(OURS)], [First(OURS)], [First(THEIRS)], 0, 0), Twins([First(OURS)], [First(OURS)], [First(THEIRS)], 1, 0);
            && Enabled(a, Pull(0, 1)) && Next(a, Pull(0, 1)) == b
            && Enabled(b, Pull(1, 1)) && Next(b, Pull(1, 1)) == Twins([First(OURS)], [First(OURS)], [First(THEIRS)], 1, 1)
  {
    PullOfOwn(OURS);
    PullOfOwn(THEIRS);
  }

  /**
   An actor that writes on two replicas can use a number twice. The backend keeps one of the two
   events and acknowledges both, and then the settled replicas differ for good.
   */
  lemma SharedActorDiverges()
    ensures var begin, end := Twins([], [], [], 0, 0), Twins([First(OURS)], [First(OURS)], [First(THEIRS)], 1, 1);
            && IsRun(begin, COLLISION, end) && IsSettled(end, 0) && IsSettled(end, 1)
            && RowsOfEntity(end.replicas[0].rows, "tickets", "t") == [First(OURS)]
            && RowsOfEntity(end.replicas[1].rows, "tickets", "t") == [First(THEIRS)]
            && Refolded(end.replicas[0].rows, "tickets", "t") != Refolded(end.replicas[1].rows, "tickets", "t")
  {
    CollisionRuns();
    OneWriteFolds(OURS);
    OneWriteFolds(THEIRS);
    assert OURS.payload["title"] != THEIRS.payload["title"];
  }

  lemma CollisionRuns()
    ensures IsRun(Twins([], [], [], 0, 0), COLLISION, Twins([First(OURS)], [First(OURS)], [First(THEIRS)], 1, 1))
  {
    TwinsWrite();
    TwinsFlush();
    TwinsPull();
    var one := [First(OURS)];
    var end := Twins(one, one, [First(THEIRS)], 1, 1);
    OneMoreStep(Twins(one, one, [First(THEIRS)], 1, 0), Pull(1, 1), end, COLLISION[5..], [], end);
    OneMoreStep(Twins(one, one, [First(THEIRS)], 0, 0), Pull(0, 1), Twins(one, one, [First(THEIRS)], 1, 0), COLLISION[4..], COLLISION[5..], end);
    OneMoreStep(Twins(one, one, [Waiting(THEIRS)], 0, 0), Flush(1, 0, 2, true), Twins(one, one, [First(THEIRS)], 0, 0),
                COLLISION[3..], COLLISION[4..], end);
    OneMoreStep(Twins([], [Waiting(OURS)], [Waiting(THEIRS)], 0, 0), Flush(0, 0, 1, true), Twins(one, one, [Waiting(THEIRS)], 0, 0),
                COLLISION[2..], COLLISION[3..], end);
    OneMoreStep(Twins([], [Waiting(OURS)], [], 0, 0), WriteLocal(1, THEIRS), Twins([], [Waiting(OURS)], [Waiting(THEIRS)], 0, 0),
                COLLISION[1..], COLLISION[2..], end);
    OneMoreStep(Twins([], [], [], 0, 0), WriteLocal(0, OURS), Twins([], [Waiting(OURS)], [], 0, 0), COLLISION, COLLISION[1..], end);
  }

  lemma OneWriteFolds(e: Event)
    requires e == OURS || e == THEIRS
    ensures RowsOfEntity([First(e)], "tickets", "t") == [First(e)] && Refolded([First(e)], "tickets", "t") == Some(e.payload)
  {
    FilterKeepsAll([First(e)], (r: StoreRow) => IsLive(r) && r.event.collection == "tickets" && r.event.entityId == "t");
    SortedStays([First(e)]);
    assert [First(e)][..0] == [];
    assert FoldEntity([First(e)]) == FoldStep(FoldEntity([]), e, Some(1));
    assert "title"[0] != REVIVE_FIELD[0];
    assert map[] + (e.payload - {REVIVE_FIELD}) == e.payload;
  }
}
