/**
 The roll-up of agent reads: every read is counted in memory, and a flush writes one
 summary row per agent. What is counted is never lost or counted twice, in any
 interleaving of readers, flushes and other writers, except for the tallies that a failing
 flush write drops.
 */
module ReadLog {
  import opened Wrappers
  import opened Json
  import opened Text
  import opened AuditChain
  import opened AuditRetention
  import Canonical
  import AuditLog

  datatype Read = Read(actorId: string, objectRef: Option<string>, bytes: nat)

  datatype Tally = Tally(total: nat, bytes: nat, byObject: map<string, nat>)

  type Tallies = map<string, Tally>

  /** The three numbers that are kept for an agent; the last one, per object read. */
  datatype Measure = Reads | Bytes | OfObject(objectRef: string)

  function Value(t: Tally, m: Measure): nat {
    match m
    case Reads => t.total
    case Bytes => t.bytes
    case OfObject(o) => if o in t.byObject then t.byObject[o] else 0
  }

  /** What one read adds to each of them. */
  function ReadValue(r: Read, m: Measure): nat {
    match m
    case Reads => 1
    case Bytes => r.bytes
    case OfObject(o) => if r.objectRef == Some(o) then 1 else 0
  }

  function Bump(t: Tally, r: Read): Tally {
    Tally(t.total + 1, t.bytes + r.bytes,
          if r.objectRef.None? then t.byObject
          else t.byObject[r.objectRef.value := Value(t, OfObject(r.objectRef.value)) + 1])
  }

  function CountRead(ts: Tallies, r: Read): Tallies {
    ts[r.actorId := Bump(if r.actorId in ts then ts[r.actorId] else Tally(0, 0, map[]), r)]
  }

  function Pending(ts: Tallies, actorId: string, m: Measure): nat {
    if actorId in ts then Value(ts[actorId], m) else 0
  }

  lemma CountReadAdds(ts: Tallies, r: Read, actorId: string, m: Measure)
    ensures Pending(CountRead(ts, r), actorId, m)
         == Pending(ts, actorId, m) + if r.actorId == actorId then ReadValue(r, m) else 0
  {
  }

  function Accepted(history: seq<Read>, actorId: string, m: Measure): nat {
    if history == [] then 0
    else
      var last := history[|history| - 1];
      Accepted(history[..|history| - 1], actorId, m) + if last.actorId == actorId then ReadValue(last, m) else 0
  }

  // --------------------------------------------------------------------------- summary rows

  const AGENT_READ_ACTION := "agent.read"

  function ObjectCounts(t: Tally): map<string, Json> {
    map o | o in t.byObject :: Int(t.byObject[o])
  }

  function Detail(t: Tally): Snapshot {
    map["reads" := Int(t.total), "bytes" := Int(t.bytes), "objects" := Obj(ObjectCounts(t))]
  }

  /** The entry that a flush writes for one agent. */
  function SummaryEntry(id: Id, actorId: string, t: Tally, now: Instant): Entry {
    Entry(id, 0, now, actorId, AGENT_READ_ACTION, None, "mcp", None,
          Some(Detail(t)))
  }

  function NumberAt(fields: map<string, Json>, key: string): nat {
    if key in fields && fields[key].Int? && fields[key].number >= 0 then fields[key].number else 0
  }

  /** What a stored row says was read, decoded from its detail. */
  function Logged(e: Entry, actorId: string, m: Measure): nat {
    if e.actorId != actorId || e.action != AGENT_READ_ACTION || e.after.None? then 0
    else
      match m
      case Reads => NumberAt(e.after.value, "reads")
      case Bytes => NumberAt(e.after.value, "bytes")
      case OfObject(o) =>
        if "objects" in e.after.value && e.after.value["objects"].Obj? then NumberAt(e.after.value["objects"].fields, o) else 0
  }

  function LoggedIn(rows: seq<Row>, actorId: string, m: Measure): nat {
    if rows == [] then 0
    else LoggedIn(rows[..|rows| - 1], actorId, m) + Logged(rows[|rows| - 1].entry, actorId, m)
  }

  /** The summary row says what the tally held. */
  lemma SummarySaysTally(id: Id, actorId: string, t: Tally, now: Instant, other: string, m: Measure)
    ensures Logged(SummaryEntry(id, actorId, t, now), other, m) == if other == actorId then Value(t, m) else 0
  {
  }

  /** Only objects that were read are counted, and a read is counted for at most one. */
  ghost predicate Sensible(t: Tally) {
    forall o :: o in t.byObject ==> 0 < t.byObject[o] <= t.total
  }

  /** The bytes of an agent's summary row, which are the same for every id. */
  function SummarySize(actorId: string, t: Tally, now: Instant): nat {
    RecordSize(ChainRecord(SummaryEntry(0, actorId, t, now)))
  }

  /** The codec can write the agent's summary: its sums and its time stamp are in range, and it is not too long. */
  predicate CanWrite(actorId: string, t: Tally, now: Instant) {
    && t.total <= MAX_SAFE_INT && t.bytes <= MAX_SAFE_INT && IsSafeInt(EpochMicros(now))
    && SummarySize(actorId, t, now) <= Canonical.MAX_DOCUMENT_BYTES
  }

  lemma SummarySizeOf(id: Id, actorId: string, t: Tally, now: Instant)
    ensures RecordSize(ChainRecord(SummaryEntry(id, actorId, t, now))) == SummarySize(actorId, t, now)
  {
    var e := SummaryEntry(0, actorId, t, now);
    SizeWithDetail(e, id, e.after);
  }

  /** The sums of a tally, and no others, can be out of the codec's range. */
  lemma DetailInProfileIff(t: Tally)
    requires Sensible(t)
    ensures InProfile(Obj(Detail(t)), 1) <==> t.total <= MAX_SAFE_INT && t.bytes <= MAX_SAFE_INT
  {
    var detail := Detail(t);
    var objects := Obj(ObjectCounts(t));
    assert detail["reads"] == Int(t.total) && detail["bytes"] == Int(t.bytes) && detail["objects"] == objects;
    if t.total <= MAX_SAFE_INT {
      assert forall o :: o in t.byObject ==> InProfile(Int(t.byObject[o]), 3);
      assert InProfile(objects, 2);
      assert InProfile(Obj(detail), 1) <==> t.bytes <= MAX_SAFE_INT;
    } else {
      assert !InProfile(Int(t.total), 2);
    }
  }

  /** A flush write is refused exactly when the codec cannot write the summary. */
  lemma {:induction false} FlushWriteFailsIff(rows: seq<Row>, id: Id, actorId: string, t: Tally, now: Instant)
    requires !IsBlank(actorId) && WellSpelled(Tip(rows)) && Sensible(t)
    ensures NewRow(rows, SummaryEntry(id, actorId, t, now)).Err? <==> !CanWrite(actorId, t, now)
  {
    var e := SummaryEntry(id, actorId, t, now);
    assert !IsSpace(e.action[0]);
    DetailInProfileIff(t);
    SummarySizeOf(id, actorId, t, now);
  }

  // ------------------------------------------------------------------------ how long summaries are

  /** The longest summary there can be of reads of certain objects. */
  function Widest(objects: set<string>): Tally {
    Tally(MAX_SAFE_INT, MAX_SAFE_INT, map o | o in objects :: MAX_SAFE_INT)
  }

  lemma CountsAreShorter(t: Tally, objects: set<string>)
    requires t.total <= MAX_SAFE_INT && Sensible(t) && t.byObject.Keys <= objects
    ensures Canonical.Size(Obj(ObjectCounts(t))) <= Canonical.Size(Obj(ObjectCounts(Widest(objects))))
  {
    var counts, widest := ObjectCounts(t), ObjectCounts(Widest(objects));
    forall o | o in counts ensures o in widest && Canonical.Size(counts[o]) <= Canonical.Size(widest[o]) {
      Canonical.DecimalGrows(t.byObject[o], MAX_SAFE_INT);
    }
    Canonical.SmallerObject(Obj(counts), Obj(widest));
  }

  lemma DetailIsShorter(t: Tally, objects: set<string>)
    requires t.total <= MAX_SAFE_INT && t.bytes <= MAX_SAFE_INT && Sensible(t) && t.byObject.Keys <= objects
    ensures Canonical.Size(Obj(Detail(t))) <= Canonical.Size(Obj(Detail(Widest(objects))))
  {
    var counts, widest := Obj(ObjectCounts(t)), Obj(ObjectCounts(Widest(objects)));
    CountsAreShorter(t, objects);
    Canonical.DecimalGrows(t.total, MAX_SAFE_INT);
    Canonical.DecimalGrows(t.bytes, MAX_SAFE_INT);
    ThreeAreShorter(Int(t.total), Int(t.bytes), counts, Int(MAX_SAFE_INT), Int(MAX_SAFE_INT), widest);
  }

  lemma ThreeAreShorter(x: Json, y: Json, z: Json, u: Json, v: Json, w: Json)
    requires Canonical.Size(x) <= Canonical.Size(u) && Canonical.Size(y) <= Canonical.Size(v)
    requires Canonical.Size(z) <= Canonical.Size(w)
    ensures Canonical.Size(Obj(map["reads" := x, "bytes" := y, "objects" := z]))
         <= Canonical.Size(Obj(map["reads" := u, "bytes" := v, "objects" := w]))
  {
    Canonical.SmallerObject(Obj(map["reads" := x, "bytes" := y, "objects" := z]),
                            Obj(map["reads" := u, "bytes" := v, "objects" := w]));
  }

  /** If the longest can be written, then so can every other. */
  lemma ShorterCanBeWritten(actorId: string, t: Tally, objects: set<string>, now: Instant)
    requires t.total <= MAX_SAFE_INT && t.bytes <= MAX_SAFE_INT && Sensible(t) && t.byObject.Keys <= objects
    requires CanWrite(actorId, Widest(objects), now)
    ensures CanWrite(actorId, t, now)
  {
    DetailIsShorter(t, objects);
    SizeWithDetail(SummaryEntry(0, actorId, t, now), 0, Some(Detail(Widest(objects))));
  }

  lemma CountsTake(t: Tally)
    ensures forall o :: o in t.byObject ==> |o| < Canonical.Size(Obj(ObjectCounts(t)))
    ensures 3 * |t.byObject| < Canonical.Size(Obj(ObjectCounts(t)))
  {
    var objects := Obj(ObjectCounts(t));
    Canonical.MembersTake(objects, objects.fields.Keys);
    assert objects.fields.Keys == t.byObject.Keys && |t.byObject| == |t.byObject.Keys|;
  }

  /** A summary is longer than each object's name, and takes three bytes for every object it counts. */
  lemma SummaryTakes(actorId: string, t: Tally, now: Instant)
    ensures forall o :: o in t.byObject ==> |o| < SummarySize(actorId, t, now)
    ensures 3 * |t.byObject| < SummarySize(actorId, t, now)
  {
    CountsTake(t);
    assert Detail(t)["objects"] == Obj(ObjectCounts(t));
    Canonical.MemberIsPart(Obj(Detail(t)), "objects");
    SizeWithDetail(SummaryEntry(0, actorId, t, now), 0, None);
  }

  // ------------------------------------------------------------------------------ interleavings

  /**
   `tallies` is what readers add to; `inFlight` holds what each running flush took and has not
   written yet; `rows` is the table; `dropped` is what failed flushes took and will not write.
   */
  datatype State = State(tallies: Tallies, inFlight: seq<Tallies>, rows: seq<Row>, dropped: seq<Tallies>, accepted: seq<Read>)

  const IDLE := State(map[], [], [], [], [])

  datatype Step =
    | RecordRead(read: Read)
    | StartFlush
    | WriteSummary(flush: nat, actorId: string, id: Id, now: Instant)
    | OtherWrite(entry: Entry)

  ghost predicate Enabled(s: State, step: Step) {
    match step
    case RecordRead(_) => true
    case StartFlush => true
    case WriteSummary(k, a, id, now) =>
      k < |s.inFlight| && a in s.inFlight[k] && (forall i :: 0 <= i < |s.rows| ==> s.rows[i].entry.id < id)
    case OtherWrite(e) =>
      e.action != AGENT_READ_ACTION && (forall i :: 0 <= i < |s.rows| ==> s.rows[i].entry.id < e.id)
  }

  /** One atomic step. A read without an actor is refused; a summary write that fails ends its flush. */
  function Next(s: State, step: Step): State {
    match step
    case RecordRead(r) =>
      if IsBlank(r.actorId) then s else s.(tallies := CountRead(s.tallies, r), accepted := s.accepted + [r])
    case StartFlush => s.(tallies := map[], inFlight := s.inFlight + [s.tallies])
    case WriteSummary(k, a, id, now) =>
      if k < |s.inFlight| && a in s.inFlight[k] then
        (match NewRow(s.rows, SummaryEntry(id, a, s.inFlight[k][a], now))
         case Ok(row) => s.(rows := s.rows + [row], inFlight := s.inFlight[k := s.inFlight[k] - {a}])
         case Err(_) => s.(dropped := s.dropped + [s.inFlight[k]], inFlight := s.inFlight[k := map[]]))
      else s
    case OtherWrite(e) =>
      (match NewRow(s.rows, e)
       case Ok(row) => s.(rows := s.rows + [row])
       case Err(_) => s)
  }

  function SumOver(batches: seq<Tallies>, actorId: string, m: Measure): nat {
    if batches == [] then 0
    else SumOver(batches[..|batches| - 1], actorId, m) + Pending(batches[|batches| - 1], actorId, m)
  }

  lemma {:induction false} SumOverUpdate(batches: seq<Tallies>, k: nat, ts: Tallies, actorId: string, m: Measure)
    requires k < |batches|
    ensures SumOver(batches[k := ts], actorId, m) + Pending(batches[k], actorId, m)
         == SumOver(batches, actorId, m) + Pending(ts, actorId, m)
    decreases |batches|
  {
    var init := batches[..|batches| - 1];
    if k < |init| {
      assert batches[k := ts][..|batches| - 1] == init[k := ts];
      SumOverUpdate(init, k, ts, actorId, m);
    } else {
      assert batches[k := ts][..|batches| - 1] == init;
    }
  }

  /** Nothing counted is lost or counted twice: accepted, waiting, in flight, written and dropped add up. */
  ghost predicate Conserved(s: State, actorId: string, m: Measure) {
    Accepted(s.accepted, actorId, m)
      == Pending(s.tallies, actorId, m) + SumOver(s.inFlight, actorId, m)
       + LoggedIn(s.rows, actorId, m) + SumOver(s.dropped, actorId, m)
  }

  /** Writing one agent's row moves its tally from the batch to the table. */
  lemma {:induction false} WriteMovesTally(rows: seq<Row>, row: Row, batch: Tallies, a: string, actorId: string, m: Measure)
    requires a in batch && exists id, now :: row.entry == SummaryEntry(id, a, batch[a], now)
    ensures LoggedIn(rows + [row], actorId, m) + Pending(batch - {a}, actorId, m)
         == LoggedIn(rows, actorId, m) + Pending(batch, actorId, m)
  {
    assert (rows + [row])[..|rows|] == rows;
    var id, now :| row.entry == SummaryEntry(id, a, batch[a], now);
    SummarySaysTally(id, a, batch[a], now, actorId, m);
  }

  /** The ids from the `n`-th on are increasing, and larger than all in the table. */
  ghost predicate AllFresh(rows: seq<Row>, ids: seq<Id>, n: nat) {
    && (forall i, j :: n <= i < j < |ids| ==> ids[i] < ids[j])
    && (forall i, k :: n <= i < |ids| && 0 <= k < |rows| ==> rows[k].entry.id < ids[i])
  }

  lemma {:induction false} NextIsFresh(rows: seq<Row>, ids: seq<Id>, n: nat)
    requires AllFresh(rows, ids, n) && n < |ids|
    ensures forall k :: 0 <= k < |rows| ==> rows[k].entry.id < ids[n]
  {
  }

  lemma {:induction false} OthersStayFresh(rows: seq<Row>, row: Row, ids: seq<Id>, n: nat)
    requires AllFresh(rows, ids, n) && n < |ids| && row.entry.id == ids[n]
    ensures AllFresh(rows + [row], ids, n + 1)
  {
  }

  /** What is left of a batch is as it was, and the rest the codec can write. */
  predicate WrittenCanBe(batch: Tallies, todo: Tallies, now: Instant) {
    && (forall a :: a in todo ==> a in batch && todo[a] == batch[a])
    && (forall a :: a in batch && a !in todo ==> CanWrite(a, batch[a], now))
  }

  /** What the rows log and the batch still holds is what they did before. */
  ghost predicate SameReads(before: seq<Row>, taken: Tallies, rows: seq<Row>, batch: Tallies) {
    forall a, m :: LoggedIn(rows, a, m) + Pending(batch, a, m) == LoggedIn(before, a, m) + Pending(taken, a, m)
  }

  lemma {:induction false} WriteKeepsReads(before: seq<Row>, taken: Tallies, rows: seq<Row>, row: Row, batch: Tallies, actorId: string, id: Id, now: Instant)
    requires actorId in batch && row.entry == SummaryEntry(id, actorId, batch[actorId], now)
    requires SameReads(before, taken, rows, batch)
    ensures SameReads(before, taken, rows + [row], batch - {actorId})
  {
    forall a, m
      ensures LoggedIn(rows + [row], a, m) + Pending(batch - {actorId}, a, m) == LoggedIn(before, a, m) + Pending(taken, a, m)
    {
      WriteMovesTally(rows, row, batch, actorId, a, m);
    }
  }

  /** A row that a write appends to the rows. */
  ghost predicate Follows(rows: seq<Row>, row: Row) {
    NewRow(rows, row.entry) == Ok(row)
  }

  ghost predicate EachFollows(before: seq<Row>, written: seq<Row>) {
    written != [] ==>
      EachFollows(before, written[..|written| - 1]) && Follows(before + written[..|written| - 1], written[|written| - 1])
  }

  lemma {:induction false} OneMoreFollows(before: seq<Row>, written: seq<Row>, row: Row)
    requires EachFollows(before, written) && Follows(before + written, row)
    ensures EachFollows(before, written + [row])
  {
    var more := written + [row];
    assert more[..|more| - 1] == written;
  }

  /** Rows written one after the other extend a chain. */
  lemma {:induction false} FollowingKeepsChain(before: seq<Row>, written: seq<Row>)
    requires Chained(None, before) && EachFollows(before, written)
    ensures Chained(None, before + written)
  {
    if written == [] {
      assert before + written == before;
    } else {
      var init, last := written[..|written| - 1], written[|written| - 1];
      FirstsFollow(before, written);
      FollowingKeepsChain(before, init);
      OneMoreChained(before + init, last, before + written);
    }
  }

  lemma {:induction false} FirstsFollow(before: seq<Row>, written: seq<Row>)
    requires written != [] && EachFollows(before, written)
    ensures var init, last := written[..|written| - 1], written[|written| - 1];
            EachFollows(before, init) && Follows(before + init, last) && before + written == before + init + [last]
  {
    assert written == written[..|written| - 1] + [written[|written| - 1]];
  }

  lemma {:induction false} OneMoreChained(rows: seq<Row>, row: Row, longer: seq<Row>)
    requires Chained(None, rows) && Follows(rows, row) && longer == rows + [row]
    ensures Chained(None, longer)
  {
    NewRowIsChained(rows, row.entry);
  }

  /** A batch of which some summaries have been written, and the rest can be. */
  ghost predicate HalfWritten(
      before: seq<Row>, batch: Tallies, rows: seq<Row>, written: seq<Row>, todo: Tallies, ids: seq<Id>, now: Instant,
      exact: bool)
  {
    && rows == before + written && |written| + |todo| == |ids| && AllFresh(rows, ids, |written|)
    && EachFollows(before, written) && SameReads(before, batch, rows, todo)
    && (exact ==> WellSpelled(Tip(rows)) && Proper(todo) && WrittenCanBe(batch, todo, now))
  }

  lemma {:induction false} OneMoreWritten(
      before: seq<Row>, batch: Tallies, rows: seq<Row>, written: seq<Row>, row: Row, actorId: string, todo: Tallies,
      ids: seq<Id>, now: Instant, exact: bool)
    requires HalfWritten(before, batch, rows, written, todo, ids, now, exact) && actorId in todo && |written| < |ids|
    requires row.entry == SummaryEntry(ids[|written|], actorId, todo[actorId], now) && Follows(rows, row)
    requires exact ==> CanWrite(actorId, todo[actorId], now) && WellSpelled(Tip(rows + [row]))
    ensures HalfWritten(before, batch, rows + [row], written + [row], todo - {actorId}, ids, now, exact)
    ensures |todo - {actorId}| < |todo|
  {
    assert (todo - {actorId}).Keys == todo.Keys - {actorId};
    assert |(todo - {actorId}).Keys| == |todo.Keys| - 1;
    assert rows + [row] == before + (written + [row]);
    WriteKeepsReads(before, batch, rows, row, todo, actorId, ids[|written|], now);
    OthersStayFresh(rows, row, ids, |written|);
    OneMoreFollows(before, written, row);
  }

  lemma {:induction false} SummaryWriteConserves(s: State, step: Step, actorId: string, m: Measure)
    requires step.WriteSummary? && Enabled(s, step) && Conserved(s, actorId, m)
    ensures Conserved(Next(s, step), actorId, m)
  {
    var k, a := step.flush, step.actorId;
    var batch := s.inFlight[k];
    var written := NewRow(s.rows, SummaryEntry(step.id, a, batch[a], step.now));
    if written.Ok? {
      WriteMovesTally(s.rows, written.value, batch, a, actorId, m);
      SumOverUpdate(s.inFlight, k, batch - {a}, actorId, m);
    } else {
      assert (s.dropped + [batch])[..|s.dropped|] == s.dropped;
      SumOverUpdate(s.inFlight, k, map[], actorId, m);
    }
  }

  lemma {:induction false} NextConserves(s: State, step: Step, actorId: string, m: Measure)
    requires Enabled(s, step) && Conserved(s, actorId, m)
    ensures Conserved(Next(s, step), actorId, m)
  {
    match step
    case RecordRead(r) =>
      if !IsBlank(r.actorId) {
        CountReadAdds(s.tallies, r, actorId, m);
        assert (s.accepted + [r])[..|s.accepted|] == s.accepted;
      }
    case StartFlush =>
      assert (s.inFlight + [s.tallies])[..|s.inFlight|] == s.inFlight;
    case WriteSummary(_, _, _, _) => SummaryWriteConserves(s, step, actorId, m);
    case OtherWrite(e) =>
      if NewRow(s.rows, e).Ok? {
        assert (s.rows + [NewRow(s.rows, e).value])[..|s.rows|] == s.rows;
      }
  }

  /** Every tally has an actor, and counts of no object above its reads. */
  ghost predicate Proper(ts: Tallies) {
    forall a :: a in ts ==> !IsBlank(a) && Sensible(ts[a])
  }

  ghost predicate AllProper(batches: seq<Tallies>) {
    forall i :: 0 <= i < |batches| ==> Proper(batches[i])
  }

  /** A valid chain that logs no more reads of any object than reads. */
  ghost predicate IsTable(rows: seq<Row>) {
    && Sorted(rows) && Chained(None, rows)
    && forall a, o :: LoggedIn(rows, a, OfObject(o)) <= LoggedIn(rows, a, Reads)
  }

  ghost predicate Inv(s: State) {
    IsTable(s.rows) && AllProper(s.inFlight) && AllProper(s.dropped) && Proper(s.tallies)
  }

  lemma {:induction false} NewRowIsChained(rows: seq<Row>, e: Entry)
    requires Chained(None, rows) && NewRow(rows, e).Ok?
    ensures Chained(None, rows + [NewRow(rows, e).value])
  {
    ChainedConcat(None, rows, [NewRow(rows, e).value]);
  }

  /** A new row that logs no more reads of any object than reads keeps it so for the table. */
  lemma {:induction false} NewRowKeepsTable(rows: seq<Row>, e: Entry)
    requires IsTable(rows) && NewRow(rows, e).Ok? && forall i :: 0 <= i < |rows| ==> rows[i].entry.id < e.id
    requires forall a, o :: Logged(e, a, OfObject(o)) <= Logged(e, a, Reads)
    ensures IsTable(rows + [NewRow(rows, e).value])
  {
    var row := NewRow(rows, e).value;
    NewRowIsChained(rows, e);
    assert (rows + [row])[..|rows|] == rows;
  }

  lemma {:induction false} NextKeepsInv(s: State, step: Step)
    requires Enabled(s, step) && Inv(s)
    ensures Inv(Next(s, step))
  {
    match step
    case RecordRead(r) =>
    case StartFlush =>
    case WriteSummary(k, a, id, now) => WriteSummaryKeepsInv(s, k, a, id, now);
    case OtherWrite(e) =>
      if NewRow(s.rows, e).Ok? {
        NewRowKeepsTable(s.rows, e);
      }
  }

  lemma {:induction false} WriteSummaryKeepsInv(s: State, k: nat, a: string, id: Id, now: Instant)
    requires Enabled(s, WriteSummary(k, a, id, now)) && Inv(s)
    ensures Inv(Next(s, WriteSummary(k, a, id, now)))
  {
    var entry := SummaryEntry(id, a, s.inFlight[k][a], now);
    if NewRow(s.rows, entry).Ok? {
      SummaryIsSensible(id, a, s.inFlight[k][a], now);
      NewRowKeepsTable(s.rows, entry);
    }
  }

  lemma SummaryIsSensible(id: Id, a: string, t: Tally, now: Instant)
    requires Sensible(t)
    ensures forall b, o :: Logged(SummaryEntry(id, a, t, now), b, OfObject(o)) <= Logged(SummaryEntry(id, a, t, now), b, Reads)
  {
    forall b, o
      ensures Logged(SummaryEntry(id, a, t, now), b, OfObject(o)) <= Logged(SummaryEntry(id, a, t, now), b, Reads)
    {
      SummarySaysTally(id, a, t, now, b, OfObject(o));
      SummarySaysTally(id, a, t, now, b, Reads);
    }
  }

  ghost predicate Legal(s: State, steps: seq<Step>)
    decreases |steps|
  {
    steps == [] || (Enabled(s, steps[0]) && Legal(Next(s, steps[0]), steps[1..]))
  }

  function Run(s: State, steps: seq<Step>): State
    decreases |steps|
  {
    if steps == [] then s else Run(Next(s, steps[0]), steps[1..])
  }

  /** The guard of a summary write: the codec can write it. */
  predicate StepFits(s: State, step: Step) {
    step.WriteSummary? && step.flush < |s.inFlight| && step.actorId in s.inFlight[step.flush] ==>
      CanWrite(step.actorId, s.inFlight[step.flush][step.actorId], step.now)
  }

  predicate AllFit(s: State, steps: seq<Step>)
    decreases |steps|
  {
    steps == [] || (StepFits(s, steps[0]) && AllFit(Next(s, steps[0]), steps[1..]))
  }

  /** A step drops a batch exactly when it is a summary write outside the guard. */
  lemma {:induction false} NextDropsIff(s: State, step: Step)
    requires Inv(s) && Enabled(s, step)
    ensures Next(s, step).dropped == s.dropped <==> StepFits(s, step)
    ensures s.dropped <= Next(s, step).dropped
  {
    if step.WriteSummary? {
      var batch := s.inFlight[step.flush];
      assert Proper(batch);
      TipIsWellSpelled(s.rows);
      FlushWriteFailsIff(s.rows, step.id, step.actorId, batch[step.actorId], step.now);
    }
  }

  lemma {:induction false} TipIsWellSpelled(rows: seq<Row>)
    requires Chained(None, rows)
    ensures WellSpelled(Tip(rows))
  {
    if rows != [] {
      LastIsLinked(rows);
    }
  }

  /**
   Over every interleaving: for each agent and each measure, what was accepted is what waits,
   is in flight, is written or was dropped; written rows never log more reads of an
   object than reads; the table stays a valid chain; and nothing is dropped exactly when
   the codec can write every summary that is come to.
   */
  lemma {:induction false} ReadsAreConserved(s: State, steps: seq<Step>)
    requires Inv(s) && Legal(s, steps) && forall a, m :: Conserved(s, a, m)
    ensures Inv(Run(s, steps)) && forall a, m :: Conserved(Run(s, steps), a, m)
    ensures Run(s, steps).dropped == s.dropped <==> AllFit(s, steps)
    ensures s.dropped <= Run(s, steps).dropped
    decreases |steps|
  {
    if steps != [] {
      NextKeepsInv(s, steps[0]);
      NextDropsIff(s, steps[0]);
      forall a, m ensures Conserved(Next(s, steps[0]), a, m) {
        NextConserves(s, steps[0], a, m);
      }
      ReadsAreConserved(Next(s, steps[0]), steps[1..]);
    }
  }

  ghost predicate WithinRange(accepted: seq<Read>) {
    forall a :: Accepted(accepted, a, Reads) <= MAX_SAFE_INT && Accepted(accepted, a, Bytes) <= MAX_SAFE_INT
  }

  /** The objects that an agent has read. */
  function ObjectsRead(accepted: seq<Read>, actorId: string): set<string> {
    set r | r in accepted && r.actorId == actorId && r.objectRef.Some? :: r.objectRef.value
  }

  /** The longest summary of all that its agent ever reads can be written whenever one is. */
  predicate WidestFit(steps: seq<Step>, accepted: seq<Read>) {
    forall step :: step in steps && step.WriteSummary? ==>
      CanWrite(step.actorId, Widest(ObjectsRead(accepted, step.actorId)), step.now)
  }

  /** An object is counted for an agent exactly when the agent has read it. */
  lemma {:induction false} CountedIffRead(accepted: seq<Read>, actorId: string, o: string)
    ensures 0 < Accepted(accepted, actorId, OfObject(o)) <==> o in ObjectsRead(accepted, actorId)
  {
    if accepted != [] {
      var init, last := accepted[..|accepted| - 1], accepted[|accepted| - 1];
      assert accepted == init + [last];
      CountedIffRead(init, actorId, o);
      assert forall r :: r in accepted <==> r in init || r == last;
    }
  }

  lemma {:induction false} SumCoversEach(batches: seq<Tallies>, k: nat, actorId: string, m: Measure)
    requires k < |batches|
    ensures Pending(batches[k], actorId, m) <= SumOver(batches, actorId, m)
  {
    if k < |batches| - 1 {
      SumCoversEach(batches[..|batches| - 1], k, actorId, m);
    }
  }

  lemma {:induction false} AcceptedGrows(s: State, steps: seq<Step>, actorId: string, m: Measure)
    ensures Accepted(s.accepted, actorId, m) <= Accepted(Run(s, steps).accepted, actorId, m)
    decreases |steps|
  {
    if steps != [] {
      var next := Next(s, steps[0]);
      if next.accepted != s.accepted {
        assert next.accepted[..|s.accepted|] == s.accepted;
      }
      AcceptedGrows(next, steps[1..], actorId, m);
    }
  }

  /** A tally in flight is within what has been accepted, and counts only objects that were read. */
  lemma {:induction false} InFlightWasAccepted(s: State, steps: seq<Step>, k: nat, actorId: string)
    requires Inv(s) && k < |s.inFlight| && actorId in s.inFlight[k] && forall m :: Conserved(s, actorId, m)
    ensures var t, accepted := s.inFlight[k][actorId], Run(s, steps).accepted;
            && Sensible(t)
            && t.total <= Accepted(accepted, actorId, Reads) && t.bytes <= Accepted(accepted, actorId, Bytes)
            && t.byObject.Keys <= ObjectsRead(accepted, actorId)
  {
    var t, accepted := s.inFlight[k][actorId], Run(s, steps).accepted;
    assert Proper(s.inFlight[k]);
    forall m ensures Value(t, m) <= Accepted(accepted, actorId, m) {
      SumCoversEach(s.inFlight, k, actorId, m);
      AcceptedGrows(s, steps, actorId, m);
      assert Conserved(s, actorId, m);
    }
    assert Value(t, Reads) == t.total && Value(t, Bytes) == t.bytes;
    forall o | o in t.byObject ensures o in ObjectsRead(accepted, actorId) {
      assert Value(t, OfObject(o)) == t.byObject[o];
      CountedIffRead(accepted, actorId, o);
    }
  }

  /**
   As long as no agent's reads and bytes add up past the codec's range, and what an agent reads has
   names that fit into one summary, no interleaving drops anything.
   */
  lemma {:induction false} NothingIsDropped(s: State, steps: seq<Step>)
    requires Inv(s) && Legal(s, steps) && forall a, m :: Conserved(s, a, m)
    requires WithinRange(Run(s, steps).accepted) && WidestFit(steps, Run(s, steps).accepted)
    ensures AllFit(s, steps)
    decreases |steps|
  {
    if steps != [] {
      var step, accepted := steps[0], Run(s, steps).accepted;
      assert step in steps;
      if step.WriteSummary? {
        InFlightWasAccepted(s, steps, step.flush, step.actorId);
        ShorterCanBeWritten(step.actorId, s.inFlight[step.flush][step.actorId], ObjectsRead(accepted, step.actorId), step.now);
      }
      NextKeepsInv(s, step);
      forall a, m ensures Conserved(Next(s, step), a, m) {
        NextConserves(s, step, a, m);
      }
      NothingIsDropped(Next(s, step), steps[1..]);
    }
  }

  lemma IdleIsGood()
    ensures Inv(IDLE) && forall a, m :: Conserved(IDLE, a, m)
  {
  }

  /** An agent's one read, and the flush that is to log it. */
  function OneRead(r: Read): seq<Step> {
    [RecordRead(r), StartFlush, WriteSummary(0, r.actorId, 1, Instant(0, 0, 0))]
  }

  /** A read that is accepted but that no row ever logs: its flush fails and drops it. */
  ghost predicate IsLost(r: Read) {
    var steps := OneRead(r);
    && Legal(IDLE, steps) && Accepted(Run(IDLE, steps).accepted, r.actorId, Reads) == 1
    && Run(IDLE, steps).rows == [] && Run(IDLE, steps).tallies == map[]
  }

  lemma RunThree(s: State, a: Step, b: Step, c: Step)
    ensures Run(s, [a, b, c]) == Next(Next(Next(s, a), b), c)
    ensures Legal(s, [a, b, c]) <==> Enabled(s, a) && Enabled(Next(s, a), b) && Enabled(Next(Next(s, a), b), c)
  {
    assert [a, b, c][1..] == [b, c] && [b, c][1..] == [c] && [c][1..] == [];
    var t := Next(s, a);
    var u := Next(t, b);
    assert Legal(Next(u, c), [c][1..]) && Run(Next(u, c), [c][1..]) == Next(u, c);
    assert Run(u, [c]) == Next(u, c) && (Legal(u, [c]) <==> Enabled(u, c));
    assert Run(t, [b, c]) == Next(u, c) && (Legal(t, [b, c]) <==> Enabled(t, b) && Enabled(u, c));
  }

  /** What a read and the start of a flush leave: the read's tally in flight. */
  lemma FlushOfOneRead(r: Read)
    requires !IsBlank(r.actorId)
    ensures var two := Next(Next(IDLE, RecordRead(r)), StartFlush);
            && two == State(map[], [map[r.actorId := Bump(Tally(0, 0, map[]), r)]], [], [], [r])
            && Accepted([r], r.actorId, Reads) == 1
  {
    assert [] + [r] == [r] && [r][..0] == [];
    assert Accepted([r][..0], r.actorId, Reads) == 0;
  }

  /** The first read of an agent is lost exactly when the codec cannot write its summary. */
  lemma FirstReadIsLostIff(r: Read)
    requires !IsBlank(r.actorId)
    ensures IsLost(r) <==> !CanWrite(r.actorId, Bump(Tally(0, 0, map[]), r), Instant(0, 0, 0))
  {
    RunThree(IDLE, RecordRead(r), StartFlush, WriteSummary(0, r.actorId, 1, Instant(0, 0, 0)));
    FlushOfOneRead(r);
    FlushWriteFailsIff([], 1, r.actorId, Bump(Tally(0, 0, map[]), r), Instant(0, 0, 0));
  }

  const HUGE_READ := Read("agent", None, MAX_SAFE_INT + 1)

  /** One read past the codec's range is lost. */
  lemma HugeReadIsLost()
    ensures IsLost(HUGE_READ)
  {
    assert !IsSpace("agent"[0]);
    FirstReadIsLostIff(HUGE_READ);
  }

  const LONG_REFERENCE := seq(Canonical.MAX_DOCUMENT_BYTES, _ => 'x')

  /** So is a read of one byte of an object with a name that fills a document. */
  lemma LongReferenceIsLost()
    ensures IsLost(Read("agent", Some(LONG_REFERENCE), 1))
  {
    var r := Read("agent", Some(LONG_REFERENCE), 1);
    assert !IsSpace("agent"[0]);
    FirstReadIsLostIff(r);
    SummaryTakes("agent", Bump(Tally(0, 0, map[]), r), Instant(0, 0, 0));
    assert LONG_REFERENCE in Bump(Tally(0, 0, map[]), r).byObject;
  }

  /** And with short names, so are the reads of an agent that has read enough objects between two flushes. */
  lemma ManyObjectsCannotBeWritten(actorId: string, t: Tally, now: Instant)
    requires Canonical.MAX_DOCUMENT_BYTES < 3 * |t.byObject|
    ensures !CanWrite(actorId, t, now)
  {
    SummaryTakes(actorId, t, now);
  }

  // ------------------------------------------------------------------------------- the roll-up

  /** A row that says what an agent has read: how often, how much, and each object how often. */
  ghost predicate IsSummary(e: Entry, t: Tally, now: Instant) {
    && e.action == "agent.read" && e.source == "mcp" && e.createdAt == now && e.actorSeq == 0
    && e.objectRef.None? && e.before.None? && e.after.Some?
    && var detail := e.after.value;
       && detail.Keys == {"reads", "bytes", "objects"}
       && detail["reads"] == Int(t.total) && detail["bytes"] == Int(t.bytes)
       && detail["objects"].Obj? && detail["objects"].fields.Keys == t.byObject.Keys
       && forall o :: o in t.byObject ==> detail["objects"].fields[o] == Int(t.byObject[o])
  }

  lemma SummaryEntryIs(id: Id, actorId: string, t: Tally, now: Instant)
    ensures var e := SummaryEntry(id, actorId, t, now); e.id == id && e.actorId == actorId && IsSummary(e, t, now)
  {
    assert Detail(t).Keys == {"reads", "bytes", "objects"};
    assert |"reads"| == 5 && |"bytes"| == 5 && |"objects"| == 7 && "reads"[0] != "bytes"[0];
  }

  /** The rows are summaries of different agents of the batch, under the ids given. */
  ghost predicate AreSummaries(batch: Tallies, written: seq<Row>, ids: seq<Id>, now: Instant) {
    && |written| <= |ids|
    && (forall i :: 0 <= i < |written| ==>
          && written[i].entry.id == ids[i] && written[i].entry.actorId in batch
          && IsSummary(written[i].entry, batch[written[i].entry.actorId], now))
    && forall i, j :: 0 <= i < j < |written| ==> written[i].entry.actorId != written[j].entry.actorId
  }

  /** What is still to be written has no row yet. */
  ghost predicate IsLeft(batch: Tallies, written: seq<Row>, todo: Tallies) {
    && (forall a :: a in todo ==> a in batch && todo[a] == batch[a])
    && forall i :: 0 <= i < |written| ==> written[i].entry.actorId !in todo
  }

  lemma OneMoreSummary(batch: Tallies, written: seq<Row>, row: Row, actorId: string, todo: Tallies, ids: seq<Id>, now: Instant)
    requires AreSummaries(batch, written, ids, now) && IsLeft(batch, written, todo) && actorId in todo && |written| < |ids|
    requires row.entry == SummaryEntry(ids[|written|], actorId, todo[actorId], now)
    ensures AreSummaries(batch, written + [row], ids, now) && IsLeft(batch, written + [row], todo - {actorId})
  {
    SummaryEntryIs(ids[|written|], actorId, todo[actorId], now);
  }

  class AgentReadLog {
    var tallies: Tallies

    ghost predicate Valid()
      reads this
    {
      Proper(tallies)
    }

    constructor ()
      ensures Valid() && tallies == map[]
    {
      tallies := map[];
    }

    /** Counts one read, or refuses it and counts nothing. */
    method RecordRead(actorId: string, objectRef: Option<string>, payloadBytes: int)
      returns (refused: Option<AuditError>)
      requires Valid()
      modifies this
      ensures Valid()
      ensures refused == if IsBlank(actorId) then Some(MissingActor)
                         else if payloadBytes < 0 then Some(NegativeBytes) else None
      ensures refused.Some? ==> tallies == old(tallies)
      ensures refused.None? ==> tallies == CountRead(old(tallies), Read(actorId, objectRef, payloadBytes))
    {
      if IsBlank(actorId) { return Some(MissingActor); }
      if payloadBytes < 0 { return Some(NegativeBytes); }
      var tally := if actorId in tallies then tallies[actorId] else Tally(0, 0, map[]);
      tally := tally.(total := tally.total + 1, bytes := tally.bytes + payloadBytes);
      if objectRef.Some? {
        var o := objectRef.value;
        var seen := if o in tally.byObject then tally.byObject[o] else 0;
        tally := tally.(byObject := tally.byObject[o := seen + 1]);
      }
      tallies := tallies[actorId := tally];
      return None;
    }

    /**
     Takes every tally and writes one summary row for each agent. On a valid chain this succeeds
     exactly when the codec can write every agent's summary, and then the table logs exactly what
     was pending on top of what it logged; the tallies are gone either way.
     */
    method Flush(log: AuditLog.AuditLog, ids: seq<Id>, now: Instant) returns (r: Result<seq<Row>, AuditError>)
      requires Valid() && log.Valid() && |ids| == |tallies|
      requires forall i :: 0 <= i < |ids| ==> log.Fresh(ids[i])
      requires forall i, j :: 0 <= i < j < |ids| ==> ids[i] < ids[j]
      modifies this, log`rows
      ensures Valid() && log.Valid() && tallies == map[]
      ensures Chained(None, old(log.rows)) ==>
                (r.Ok? <==> forall a :: a in old(tallies) ==> CanWrite(a, old(tallies)[a], now))
      ensures Chained(None, old(log.rows)) ==> Chained(None, log.rows)
      ensures r.Ok? ==> log.rows == old(log.rows) + r.value && |r.value| == |old(tallies)|
      ensures old(log.rows) <= log.rows && AreSummaries(old(tallies), log.rows[|old(log.rows)|..], ids, now)
      ensures forall a, m :: LoggedIn(log.rows, a, m) <= LoggedIn(old(log.rows), a, m) + Pending(old(tallies), a, m)
      ensures r.Ok? ==>
                forall a, m :: LoggedIn(log.rows, a, m) == LoggedIn(old(log.rows), a, m) + Pending(old(tallies), a, m)
    {
      var batch := tallies;
      tallies := map[];
      if Chained(None, log.rows) {
        TipIsWellSpelled(log.rows);
      }
      ghost var left;
      r, left := WriteBatch(log, batch, ids, now);
      if Chained(None, old(log.rows)) {
        assert log.rows == old(log.rows) + log.rows[|old(log.rows)|..];
        FollowingKeepsChain(old(log.rows), log.rows[|old(log.rows)|..]);
      }
    }

    method WriteSummaryRow(log: AuditLog.AuditLog, id: Id, actorId: string, tally: Tally, now: Instant)
        returns (row: Result<Row, AuditError>)
      requires log.Valid() && log.Fresh(id)
      modifies log`rows
      ensures log.Valid() && log.rows == if row.Ok? then old(log.rows) + [row.value] else old(log.rows)
      ensures row.Ok? ==> row.value.entry == SummaryEntry(id, actorId, tally, now) && Follows(old(log.rows), row.value)
      ensures !IsBlank(actorId) && Sensible(tally) && WellSpelled(Tip(old(log.rows))) ==>
                (row.Ok? <==> CanWrite(actorId, tally, now)) && WellSpelled(Tip(log.rows))
    {
      if !IsBlank(actorId) && Sensible(tally) && WellSpelled(Tip(log.rows)) {
        FlushWriteFailsIff(log.rows, id, actorId, tally, now);
      }
      row := log.Write(id, actorId, AGENT_READ_ACTION, "mcp", None, None, SummaryEntry(id, actorId, tally, now).after, now);
    }

    /** One summary row for each actor; what cannot be written is left. */
    method WriteBatch(log: AuditLog.AuditLog, batch: Tallies, ids: seq<Id>, now: Instant)
        returns (r: Result<seq<Row>, AuditError>, ghost left: Tallies)
      requires log.Valid() && |ids| == |batch|
      requires forall i :: 0 <= i < |ids| ==> log.Fresh(ids[i])
      requires forall i, j :: 0 <= i < j < |ids| ==> ids[i] < ids[j]
      modifies log`rows
      ensures log.Valid()
      ensures old(log.rows) <= log.rows && EachFollows(old(log.rows), log.rows[|old(log.rows)|..])
      ensures AreSummaries(batch, log.rows[|old(log.rows)|..], ids, now)
      ensures SameReads(old(log.rows), batch, log.rows, left)
      ensures r.Ok? ==> left == map[] && log.rows == old(log.rows) + r.value && |r.value| == |batch|
      ensures Proper(batch) && WellSpelled(Tip(old(log.rows))) ==>
                (r.Ok? <==> forall a :: a in batch ==> CanWrite(a, batch[a], now))
    {
      ghost var exact := Proper(batch) && WellSpelled(Tip(log.rows));
      var written: seq<Row> := [];
      var todo := batch;
      while todo.Keys != {}
        invariant log.Valid() && HalfWritten(old(log.rows), batch, log.rows, written, todo, ids, now, exact)
        invariant AreSummaries(batch, written, ids, now) && IsLeft(batch, written, todo)
        decreases |todo|
      {
        var actorId :| actorId in todo.Keys;
        ghost var rows := log.rows;
        NextIsFresh(rows, ids, |written|);
        var row := WriteSummaryRow(log, ids[|written|], actorId, todo[actorId], now);
        if row.Err? {
          return Err(row.error), todo;
        }
        OneMoreWritten(old(log.rows), batch, rows, written, row.value, actorId, todo, ids, now, exact);
        OneMoreSummary(batch, written, row.value, actorId, todo, ids, now);
        written := written + [row.value];
        todo := todo - {actorId};
      }
      return Ok(written), map[];
    }
  }
}
