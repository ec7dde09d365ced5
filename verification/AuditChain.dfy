/**
 The audit table and its hash chain, on values: what each operation of the log
 computes from the rows, and what the chain guarantees.

 An id is a ULID read as the number its digits spell; ids sort as their numbers do.
 Hashing is ideal, as in the Merkle module: a link is the term it was computed from,
 and `Text` is any other string that may be stored in the hash column.
 */
module AuditChain {
  import opened Wrappers
  import opened Json
  import opened Canonical
  import opened Text
  import opened Sequences
  import Merkle

  type Id = nat

  type Snapshot = map<string, Json>

  // ------------------------------------------------------------------------- time stamps

  type SecondOfDay = s: nat | s < 86_400
  type Microsecond = u: nat | u < 1_000_000

  /** A UTC instant, split the way a time difference to the epoch is. */
  datatype Instant = Instant(days: int, seconds: SecondOfDay, micros: Microsecond)

  function EpochMicros(t: Instant): int {
    (t.days * 86_400 + t.seconds) * 1_000_000 + t.micros
  }

  /** An instant is counted in microseconds from the epoch: 86400 seconds a day, a million microseconds a second. */
  lemma EpochMicrosCounts(days: int, seconds: SecondOfDay, micros: Microsecond)
    ensures EpochMicros(Instant(days, seconds, micros)) == days * 86_400_000_000 + seconds * 1_000_000 + micros
  {
  }

  /** Binding the number of microseconds binds the instant. */
  lemma EpochMicrosIsInjective(t: Instant, u: Instant)
    requires EpochMicros(t) == EpochMicros(u)
    ensures t == u
  {
    EpochMicrosCounts(t.days, t.seconds, t.micros);
    EpochMicrosCounts(u.days, u.seconds, u.micros);
    var a, b := t.days * 86_400 + t.seconds, u.days * 86_400 + u.seconds;
    assert a == EpochMicros(t) / 1_000_000 && b == EpochMicros(u) / 1_000_000;
    assert t.days == a / 86_400 && u.days == b / 86_400;
  }

  // --------------------------------------------------------------------------------- rows

  /** The columns of an audit row that the chain binds. */
  datatype Entry = Entry(
    id: Id,
    actorSeq: int,
    createdAt: Instant,
    actorId: string,
    action: string,
    objectRef: Option<string>,
    source: string,
    before: Option<Snapshot>,
    after: Option<Snapshot>)

  /** What is hashed for a row: its entry, with the instant as a number of microseconds. */
  datatype Record = Record(entry: Entry, createdAtMicros: int)

  function ChainRecord(e: Entry): Record {
    Record(e.(createdAt := Instant(0, 0, 0)), EpochMicros(e.createdAt))
  }

  lemma ChainRecordIsInjective(e: Entry, f: Entry)
    requires ChainRecord(e) == ChainRecord(f)
    ensures e == f
  {
    EpochMicrosIsInjective(e.createdAt, f.createdAt);
  }

  function SnapshotJson(s: Option<Snapshot>): Json {
    if s.Some? then Obj(s.value) else Null
  }

  /** What a record's canonical text has besides values: braces, commas, and nine quoted names with their colons. */
  const FRAME_BYTES := 2 + 8 + 89

  /** The quoted digits of a ULID. */
  const ID_BYTES := 28

  const FIELDS := 8

  /** The value of a record's field besides the id, by the position of its name. */
  function FieldValue(r: Record, k: nat): Json {
    match k
    case 0 => Str(r.entry.action)
    case 1 => Str(r.entry.actorId)
    case 2 => Int(r.entry.actorSeq)
    case 3 => SnapshotJson(r.entry.after)
    case 4 => SnapshotJson(r.entry.before)
    case 5 => Int(r.createdAtMicros)
    case 6 => if r.entry.objectRef.Some? then Str(r.entry.objectRef.value) else Null
    case _ => Str(r.entry.source)
  }

  /** The values of its first fields. */
  function FieldValues(r: Record, n: nat): (values: seq<Json>)
    ensures |values| == n
  {
    if n == 0 then [] else FieldValues(r, n - 1) + [FieldValue(r, n - 1)]
  }

  /** The bytes of a record's canonical text. */
  function RecordSize(r: Record): nat {
    FRAME_BYTES + ID_BYTES + ItemsSize(Arr(FieldValues(r, FIELDS)), FIELDS)
  }

  /** The canonical codec accepts the record: what is in it, and how much. */
  predicate Encodable(r: Record) {
    && IsSafeInt(r.entry.actorSeq)
    && IsSafeInt(r.createdAtMicros)
    && InProfile(SnapshotJson(r.entry.before), 1)
    && InProfile(SnapshotJson(r.entry.after), 1)
    && RecordSize(r) <= MAX_DOCUMENT_BYTES
  }

  lemma {:induction false} FieldValuesAt(r: Record, n: nat, k: nat)
    requires k < n
    ensures FieldValues(r, n)[k] == FieldValue(r, k)
  {
    if k < n - 1 {
      FieldValuesAt(r, n - 1, k);
    }
  }

  lemma {:induction false} FieldsAddUp(r: Record, n: nat)
    requires n <= FIELDS
    ensures ItemsSize(Arr(FieldValues(r, FIELDS)), n) == FirstFields(r, n)
  {
    if n > 0 {
      FieldValuesAt(r, FIELDS, n - 1);
      FieldsAddUp(r, n - 1);
    }
  }

  /** The bytes of the values of a record's first fields. */
  function FirstFields(r: Record, n: nat): nat {
    if n == 0 then 0 else FirstFields(r, n - 1) + Size(FieldValue(r, n - 1))
  }

  /** The bytes of a record, value by value. */
  lemma RecordSizeIs(r: Record)
    ensures RecordSize(r) ==
            FRAME_BYTES + ID_BYTES + QuotedBytes(r.entry.action) + QuotedBytes(r.entry.actorId) + |Number(r.entry.actorSeq)|
            + Size(SnapshotJson(r.entry.after)) + Size(SnapshotJson(r.entry.before)) + |Number(r.createdAtMicros)|
            + Size(FieldValue(r, 6)) + QuotedBytes(r.entry.source)
  {
    FieldsAddUp(r, FIELDS);
    assert FirstFields(r, 8) == FirstFields(r, 7) + Size(Str(r.entry.source));
    assert FirstFields(r, 7) == FirstFields(r, 6) + Size(FieldValue(r, 6));
    assert FirstFields(r, 6) == FirstFields(r, 5) + Size(Int(r.createdAtMicros));
    assert FirstFields(r, 5) == FirstFields(r, 4) + Size(SnapshotJson(r.entry.before));
    assert FirstFields(r, 4) == FirstFields(r, 3) + Size(SnapshotJson(r.entry.after));
    assert FirstFields(r, 3) == FirstFields(r, 2) + Size(Int(r.entry.actorSeq));
    assert FirstFields(r, 2) == FirstFields(r, 1) + Size(Str(r.entry.actorId));
    assert FirstFields(r, 1) == FirstFields(r, 0) + Size(Str(r.entry.action));
  }

  /** Another id does not change the bytes of a record, and another detail by the difference of the two. */
  lemma SizeWithDetail(e: Entry, id: Id, after: Option<Snapshot>)
    ensures RecordSize(ChainRecord(e.(id := id, after := after))) + Size(SnapshotJson(e.after))
         == RecordSize(ChainRecord(e)) + Size(SnapshotJson(after))
    ensures Size(SnapshotJson(e.after)) < RecordSize(ChainRecord(e))
  {
    var r, s := ChainRecord(e), ChainRecord(e.(id := id, after := after));
    RecordSizeIs(r);
    RecordSizeIs(s);
    assert FieldValue(r, 6) == FieldValue(s, 6);
  }

  datatype Link = Hash(previous: Option<Link>, record: Record) | Text(spelling: string)

  function Depth(l: Link): nat {
    match l
    case Hash(Some(p), _) => 1 + Depth(p)
    case _ => 0
  }

  /** Hashing has no cycles: no link is its own predecessor. */
  lemma LinkIsNotOwnPredecessor(l: Link, r: Record)
    ensures l != Hash(Some(l), r)
  {
    assert Depth(Hash(Some(l), r)) == 1 + Depth(l);
  }

  datatype Row = Row(entry: Entry, chainHash: Option<Link>)

  datatype AuditError =
    | MissingActor
    | MissingAction
    | ActionTooLong
    | UnknownSource
    | EmptyRange
    | UnchainedRow(id: Id)
    | Unanchored
    | NegativeBytes
    | SchemaViolation

  predicate WellSpelled(l: Option<Link>) {
    l.Some? && l.value.Text? ==> Merkle.IsHex64(l.value.spelling)
  }

  /** One link of the chain. */
  function ChainHash(previous: Option<Link>, record: Record): Result<Link, AuditError> {
    if WellSpelled(previous) && Encodable(record) then Ok(Hash(previous, record)) else Err(SchemaViolation)
  }

  ghost predicate Sorted(rows: seq<Row>) {
    forall i, j :: 0 <= i < j < |rows| ==> rows[i].entry.id < rows[j].entry.id
  }

  /** The stored hash of the last row, or `previous` when there is none. */
  function TipFrom(previous: Option<Link>, rows: seq<Row>): Option<Link> {
    if rows == [] then previous else rows[|rows| - 1].chainHash
  }

  function Tip(rows: seq<Row>): Option<Link> {
    TipFrom(None, rows)
  }

  /** Every row stores the link that its predecessor's hash and its own content yield. */
  predicate Chained(previous: Option<Link>, rows: seq<Row>)
    decreases |rows|
  {
    rows == [] ||
    (&& rows[0].chainHash.Some?
     && ChainHash(previous, ChainRecord(rows[0].entry)) == Ok(rows[0].chainHash.value)
     && Chained(rows[0].chainHash, rows[1..]))
  }

  lemma {:induction false} ChainedConcat(previous: Option<Link>, xs: seq<Row>, ys: seq<Row>)
    ensures Chained(previous, xs + ys) <==> Chained(previous, xs) && Chained(TipFrom(previous, xs), ys)
    decreases |xs|
  {
    if xs == [] {
      assert xs + ys == ys;
    } else {
      assert (xs + ys)[1..] == xs[1..] + ys;
      ChainedConcat(xs[0].chainHash, xs[1..], ys);
    }
  }

  // --------------------------------------------------------------------------- row queries

  function WithinBounds(start: Option<Id>, end: Option<Id>): Row -> bool {
    (r: Row) => (start.Some? ==> start.value <= r.entry.id) && (end.Some? ==> r.entry.id <= end.value)
  }

  function BelowId(id: Id): Row -> bool {
    (r: Row) => r.entry.id < id
  }

  /** The rows with an id between the bounds, both included, in id order. */
  function Select(rows: seq<Row>, start: Option<Id>, end: Option<Id>): seq<Row> {
    Filter(rows, WithinBounds(start, end))
  }

  /** The rows with an id below `id`. */
  function Before(rows: seq<Row>, id: Id): seq<Row> {
    Filter(rows, BelowId(id))
  }

  /** In an ordered table, the rows below an id and the rows from it on are the two parts of a cut. */
  lemma {:induction false} SelectSplits(xs: seq<Row>, ys: seq<Row>, id: Id)
    requires forall r :: r in xs ==> r.entry.id < id
    requires forall r :: r in ys ==> id <= r.entry.id
    ensures Before(xs + ys, id) == xs && Select(xs + ys, Some(id), None) == ys
  {
    var from, below := WithinBounds(Some(id), None), BelowId(id);
    FilterConcat(xs, ys, from);
    FilterDropsAll(xs, from);
    FilterKeepsAll(ys, from);
    FilterConcat(xs, ys, below);
    FilterKeepsAll(xs, below);
    FilterDropsAll(ys, below);
  }

  /** In an ordered table, the rows up to one of its ids are a prefix. */
  lemma {:induction false} SelectPrefix(rows: seq<Row>, k: nat)
    requires Sorted(rows) && k < |rows|
    ensures Select(rows, None, Some(rows[k].entry.id)) == rows[..k + 1]
  {
    var upTo := WithinBounds(None, Some(rows[k].entry.id));
    assert rows == rows[..k + 1] + rows[k + 1..];
    FilterConcat(rows[..k + 1], rows[k + 1..], upTo);
    FilterKeepsAll(rows[..k + 1], upTo);
    FilterDropsAll(rows[k + 1..], upTo);
  }

  lemma {:induction false} SelectAll(rows: seq<Row>)
    ensures Select(rows, None, None) == rows
  {
    FilterKeepsAll(rows, WithinBounds(None, None));
  }

  // --------------------------------------------------------------------------------- write

  const SOURCES := {"app", "cli", "mcp", "sync"}
  const ACTION_MAX_LENGTH := 64

  function CheckWrite(e: Entry): Option<AuditError> {
    if IsBlank(e.actorId) then Some(MissingActor)
    else if IsBlank(e.action) then Some(MissingAction)
    else if |e.action| > ACTION_MAX_LENGTH then Some(ActionTooLong)
    else if e.source !in SOURCES then Some(UnknownSource)
    else None
  }

  /** The row that a write appends, linked to the current tip. */
  function NewRow(rows: seq<Row>, e: Entry): Result<Row, AuditError> {
    if CheckWrite(e).Some? then Err(CheckWrite(e).value)
    else
      match ChainHash(Tip(rows), ChainRecord(e))
      case Err(error) => Err(error)
      case Ok(link) => Ok(Row(e, Some(link)))
  }

  // --------------------------------------------------------------------------- verification

  datatype Reason = ChainOk | ChainEmpty | ChainUnchained | ChainTampered | ChainTruncated

  datatype Verification = Verification(ok: bool, reason: Reason, eventId: Option<Id>)

  /** Recomputes the links from a predecessor hash on, and names the first break. */
  function Walk(previous: Option<Link>, rows: seq<Row>, lastId: Option<Id>, expectedTip: Option<Link>)
    : Result<Verification, AuditError>
    decreases |rows|
  {
    if rows == [] then
      if expectedTip.Some? && previous != expectedTip then Ok(Verification(false, ChainTruncated, lastId))
      else if lastId.None? then Ok(Verification(true, ChainEmpty, None))
      else Ok(Verification(true, ChainOk, lastId))
    else
      var row := rows[0];
      if row.chainHash.None? then Ok(Verification(false, ChainUnchained, Some(row.entry.id)))
      else
        match ChainHash(previous, ChainRecord(row.entry))
        case Err(error) => Err(error)
        case Ok(link) =>
          if link != row.chainHash.value then Ok(Verification(false, ChainTampered, Some(row.entry.id)))
          else Walk(row.chainHash, rows[1..], Some(row.entry.id), expectedTip)
  }

  /** The hash that seeds a walk from `start`. */
  function Seed(rows: seq<Row>, start: Option<Id>): Option<Link> {
    if start.None? then None else Tip(Before(rows, start.value))
  }

  function Verify(rows: seq<Row>, start: Option<Id>, end: Option<Id>, expectedTip: Option<Link>)
    : Result<Verification, AuditError>
  {
    Walk(Seed(rows, start), Select(rows, start, end), None, expectedTip)
  }

  lemma {:induction false} VerifyAll(rows: seq<Row>, expectedTip: Option<Link>)
    ensures Verify(rows, None, None, expectedTip) == Walk(None, rows, None, expectedTip)
  {
    SelectAll(rows);
  }

  predicate Passes(r: Result<Verification, AuditError>) {
    r.Ok? && r.value.ok
  }

  /** What stops a walk at a row: no hash, content outside the profile, or a link that does not recompute. */
  function BreakAt(previous: Option<Link>, row: Row): Result<Verification, AuditError> {
    if row.chainHash.None? then Ok(Verification(false, ChainUnchained, Some(row.entry.id)))
    else if ChainHash(previous, ChainRecord(row.entry)).Err? then Err(SchemaViolation)
    else Ok(Verification(false, ChainTampered, Some(row.entry.id)))
  }

  /** A walk passes exactly when the rows are chained and end on the expected tip. */
  lemma {:induction false} WalkPassesIff(previous: Option<Link>, rows: seq<Row>, lastId: Option<Id>, expectedTip: Option<Link>)
    ensures Passes(Walk(previous, rows, lastId, expectedTip))
       <==> Chained(previous, rows) && (expectedTip.Some? ==> TipFrom(previous, rows) == expectedTip)
    ensures Chained(previous, rows) && expectedTip.Some? && TipFrom(previous, rows) != expectedTip ==>
            Walk(previous, rows, lastId, expectedTip)
            == Ok(Verification(false, ChainTruncated, if rows == [] then lastId else Some(rows[|rows| - 1].entry.id)))
    decreases |rows|
  {
    if rows != [] {
      WalkPassesIff(rows[0].chainHash, rows[1..], Some(rows[0].entry.id), expectedTip);
    }
  }

  /** A walk stops at the first row whose link fails, whatever follows it. */
  lemma {:induction false} WalkStopsAt(previous: Option<Link>, xs: seq<Row>, row: Row, ys: seq<Row>, lastId: Option<Id>, expectedTip: Option<Link>)
    requires Chained(previous, xs) && !Chained(TipFrom(previous, xs), [row])
    ensures Walk(previous, xs + [row] + ys, lastId, expectedTip) == BreakAt(TipFrom(previous, xs), row)
    decreases |xs|
  {
    if xs == [] {
      assert xs + [row] + ys == [row] + ys;
    } else {
      assert (xs + [row] + ys)[1..] == xs[1..] + [row] + ys;
      WalkStopsAt(xs[0].chainHash, xs[1..], row, ys, Some(xs[0].entry.id), expectedTip);
    }
  }

  /**
   Tamper evidence: a table that verifies from genesis against the tip of an honest log
   is that log, so no edit, removal, insertion, reordering or truncation survives.
   */
  lemma {:induction false} TamperEvidence(table: seq<Row>, log: seq<Row>)
    requires log != [] && Chained(None, log)
    ensures Passes(Verify(table, None, None, Tip(log))) <==> table == log
  {
    VerifyAll(table, Tip(log));
    WalkPassesIff(None, table, None, Tip(log));
    if Chained(None, table) && Tip(table) == Tip(log) {
      ChainIsDeterminedByTip(table, log);
    }
    LastIsLinked(log);
  }

  lemma {:induction false} LastIsLinked(rows: seq<Row>)
    requires Chained(None, rows) && rows != []
    ensures var init, last := rows[..|rows| - 1], rows[|rows| - 1];
            && Chained(None, init)
            && last.chainHash == Some(Hash(Tip(init), ChainRecord(last.entry)))
            && Encodable(ChainRecord(last.entry)) && WellSpelled(Tip(init))
  {
    var init, last := rows[..|rows| - 1], rows[|rows| - 1];
    assert rows == init + [last];
    ChainedConcat(None, init, [last]);
  }

  lemma {:induction false} ChainIsDeterminedByTip(xs: seq<Row>, ys: seq<Row>)
    requires Chained(None, xs) && Chained(None, ys) && Tip(xs) == Tip(ys)
    ensures xs == ys
    decreases |xs|
  {
    if xs != [] { LastIsLinked(xs); }
    if ys != [] { LastIsLinked(ys); }
    if xs != [] && ys != [] {
      var x, y := xs[|xs| - 1], ys[|ys| - 1];
      ChainRecordIsInjective(x.entry, y.entry);
      ChainIsDeterminedByTip(xs[..|xs| - 1], ys[..|ys| - 1]);
      assert xs == xs[..|xs| - 1] + [x] && ys == ys[..|ys| - 1] + [y];
    }
  }

  /** An edit that keeps the id and the stored hash is reported at the edited row. */
  lemma {:induction false} EditIsLocated(log: seq<Row>, k: nat, edited: Entry, expectedTip: Option<Link>)
    requires Chained(None, log) && k < |log|
    requires edited != log[k].entry && edited.id == log[k].entry.id
    ensures Verify(log[k := Row(edited, log[k].chainHash)], None, None, expectedTip) ==
            if Encodable(ChainRecord(edited)) then Ok(Verification(false, ChainTampered, Some(edited.id)))
            else Err(SchemaViolation)
  {
    var forged := Row(edited, log[k].chainHash);
    var table := log[k := forged];
    HeadIsLinked(log, k);
    if ChainRecord(edited) == ChainRecord(log[k].entry) { ChainRecordIsInjective(edited, log[k].entry); }
    VerifyAll(table, expectedTip);
    assert table == log[..k] + [forged] + log[k + 1..];
    WalkStopsAt(None, log[..k], forged, log[k + 1..], None, expectedTip);
  }

  /** The facts about row `k` of a chained log and the rows before it. */
  lemma {:induction false} HeadIsLinked(log: seq<Row>, k: nat)
    requires Chained(None, log) && k < |log|
    ensures Chained(None, log[..k]) && WellSpelled(Tip(log[..k])) && Encodable(ChainRecord(log[k].entry))
    ensures log[k].chainHash == Some(Hash(Tip(log[..k]), ChainRecord(log[k].entry)))
  {
    var longer, head, row := log[..k + 1], log[..k], log[k];
    HeadIsChained(log, k + 1);
    assert longer == head + [row];
    LastOfHead(longer, head, row);
  }

  lemma {:induction false} LastOfHead(longer: seq<Row>, head: seq<Row>, row: Row)
    requires Chained(None, longer) && longer == head + [row]
    ensures Chained(None, head) && WellSpelled(Tip(head)) && Encodable(ChainRecord(row.entry))
    ensures row.chainHash == Some(Hash(Tip(head), ChainRecord(row.entry)))
  {
    LastIsLinked(longer);
    assert longer[..|longer| - 1] == head;
  }

  lemma {:induction false} HeadIsChained(rows: seq<Row>, c: nat)
    requires Chained(None, rows) && c <= |rows|
    ensures Chained(None, rows[..c])
  {
    assert rows == rows[..c] + rows[c..];
    ChainedConcat(None, rows[..c], rows[c..]);
  }

  /** A row of a chained log does not fit where another row comes between. */
  lemma {:induction false} SkippedRowBreaks(log: seq<Row>, k: nat)
    requires Chained(None, log) && k + 1 < |log|
    ensures Chained(None, log[..k]) && !Chained(Tip(log[..k]), [log[k + 1]])
    ensures BreakAt(Tip(log[..k]), log[k + 1]) == Ok(Verification(false, ChainTampered, Some(log[k + 1].entry.id)))
  {
    HeadIsLinked(log, k);
    HeadIsLinked(log, k + 1);
    assert log[..k + 1][|log[..k + 1]| - 1] == log[k];
    LinkIsNotOwnPredecessor(log[k].chainHash.value, ChainRecord(log[k].entry));
  }

  /** Removing an interior row is reported at the row after it. */
  lemma {:induction false} RemovalIsLocated(log: seq<Row>, k: nat, expectedTip: Option<Link>)
    requires Chained(None, log) && k + 1 < |log|
    ensures Verify(log[..k] + log[k + 1..], None, None, expectedTip)
         == Ok(Verification(false, ChainTampered, Some(log[k + 1].entry.id)))
  {
    var head, next, rest := log[..k], log[k + 1], log[k + 2..];
    assert head + log[k + 1..] == head + [next] + rest;
    VerifyAll(head + [next] + rest, expectedTip);
    WalkSkipped(log, k, head, next, rest, expectedTip);
  }

  lemma {:induction false} WalkSkipped(log: seq<Row>, k: nat, head: seq<Row>, next: Row, rest: seq<Row>, expectedTip: Option<Link>)
    requires Chained(None, log) && k + 1 < |log| && head == log[..k] && next == log[k + 1]
    ensures Walk(None, head + [next] + rest, None, expectedTip)
         == Ok(Verification(false, ChainTampered, Some(next.entry.id)))
  {
    SkippedRowBreaks(log, k);
    WalkStopsAt(None, head, next, rest, None, expectedTip);
  }

  /** Removing the tail is reported as truncation at the last row left, given the tip. */
  lemma {:induction false} TruncationIsReported(log: seq<Row>, k: nat)
    requires Chained(None, log) && k < |log|
    ensures Verify(log[..k], None, None, Tip(log))
         == Ok(Verification(false, ChainTruncated, if k == 0 then None else Some(log[k - 1].entry.id)))
  {
    var head := log[..k];
    VerifyAll(head, Tip(log));
    ShorterChainHasOtherTip(log, k);
    WalkPassesIff(None, head, None, Tip(log));
  }

  lemma {:induction false} ShorterChainHasOtherTip(log: seq<Row>, k: nat)
    requires Chained(None, log) && k < |log|
    ensures Chained(None, log[..k]) && Tip(log).Some? && Tip(log[..k]) != Tip(log)
  {
    HeadIsLinked(log, k);
    LastIsLinked(log);
    if Tip(log[..k]) == Tip(log) {
      ChainIsDeterminedByTip(log[..k], log);
    }
  }

  /** Behind a row with a right link, the row that used to be there does not fit. */
  lemma {:induction false} DisplacedRowBreaks(log: seq<Row>, k: nat, forged: Row)
    requires Chained(None, log) && k < |log| && Chained(Tip(log[..k]), [forged])
    ensures Chained(None, log[..k] + [forged]) && !Chained(forged.chainHash, [log[k]])
    ensures BreakAt(forged.chainHash, log[k]) == Ok(Verification(false, ChainTampered, Some(log[k].entry.id)))
  {
    HeadIsLinked(log, k);
    ChainedConcat(None, log[..k], [forged]);
    LinkIsNotOwnPredecessor(forged.chainHash.value, ChainRecord(forged.entry));
  }

  /** A row inserted before the end is reported itself, or, if its own link is right, the row after it is. */
  lemma {:induction false} InsertionIsLocated(log: seq<Row>, k: nat, forged: Row, expectedTip: Option<Link>)
    requires Chained(None, log) && k < |log|
    ensures Verify(log[..k] + [forged] + log[k..], None, None, expectedTip) ==
            if Chained(Tip(log[..k]), [forged]) then Ok(Verification(false, ChainTampered, Some(log[k].entry.id)))
            else BreakAt(Tip(log[..k]), forged)
  {
    VerifyAll(log[..k] + [forged] + log[k..], expectedTip);
    if Chained(Tip(log[..k]), [forged]) {
      DisplacedRowStops(log, k, forged, expectedTip);
    } else {
      HeadIsLinked(log, k);
      WalkStopsAt(None, log[..k], forged, log[k..], None, expectedTip);
    }
  }

  lemma {:induction false} DisplacedRowStops(log: seq<Row>, k: nat, forged: Row, expectedTip: Option<Link>)
    requires Chained(None, log) && k < |log| && Chained(Tip(log[..k]), [forged])
    ensures Walk(None, log[..k] + [forged] + log[k..], None, expectedTip)
         == Ok(Verification(false, ChainTampered, Some(log[k].entry.id)))
  {
    var head := log[..k] + [forged];
    DisplacedRowBreaks(log, k, forged);
    assert log[..k] + [forged] + log[k..] == head + [log[k]] + log[k + 1..];
    WalkStopsAt(None, head, log[k], log[k + 1..], None, expectedTip);
  }

  /** Two adjacent windows verify exactly when the whole table does. */
  lemma {:induction false} WindowsCompose(rows: seq<Row>, k: nat, expectedTip: Option<Link>)
    requires Sorted(rows) && 0 < k < |rows|
    ensures Passes(Verify(rows, None, None, expectedTip))
       <==> && Passes(Verify(rows, None, Some(rows[k - 1].entry.id), None))
            && Passes(Verify(rows, Some(rows[k].entry.id), None, expectedTip))
  {
    WindowWalks(rows, k, expectedTip);
    WalkInTwo(rows[..k], rows[k..], expectedTip);
    assert rows == rows[..k] + rows[k..];
  }

  lemma {:induction false} WalkInTwo(head: seq<Row>, tail: seq<Row>, expectedTip: Option<Link>)
    requires tail != []
    ensures Passes(Walk(None, head + tail, None, expectedTip))
       <==> Passes(Walk(None, head, None, None)) && Passes(Walk(Tip(head), tail, None, expectedTip))
  {
    WalkPassesIff(None, head + tail, None, expectedTip);
    WalkPassesIff(None, head, None, None);
    WalkPassesIff(Tip(head), tail, None, expectedTip);
    ChainedConcat(None, head, tail);
  }

  /** The three verifications as walks over the whole table, its head and its tail. */
  lemma {:induction false} WindowWalks(rows: seq<Row>, k: nat, expectedTip: Option<Link>)
    requires Sorted(rows) && 0 < k < |rows|
    ensures Verify(rows, None, None, expectedTip) == Walk(None, rows, None, expectedTip)
    ensures Verify(rows, None, Some(rows[k - 1].entry.id), None) == Walk(None, rows[..k], None, None)
    ensures Verify(rows, Some(rows[k].entry.id), None, expectedTip) == Walk(Tip(rows[..k]), rows[k..], None, expectedTip)
  {
    VerifyAll(rows, expectedTip);
    SelectPrefix(rows, k - 1);
    CutWindow(rows, k);
  }

  lemma {:induction false} CutWindow(rows: seq<Row>, k: nat)
    requires Sorted(rows) && k < |rows|
    ensures Before(rows, rows[k].entry.id) == rows[..k] && Select(rows, Some(rows[k].entry.id), None) == rows[k..]
  {
    var id := rows[k].entry.id;
    assert rows == rows[..k] + rows[k..];
    forall r | r in rows[..k] ensures r.entry.id < id {
      var i :| 0 <= i < k && rows[i] == r;
    }
    forall r | r in rows[k..] ensures id <= r.entry.id {
      var i :| k <= i < |rows| && rows[i] == r;
    }
    SelectSplits(rows[..k], rows[k..], id);
  }
}
