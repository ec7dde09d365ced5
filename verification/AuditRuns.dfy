/**
 Whole runs of the audit log: writes, anchors and summaries in any order, from the
 empty table. A run also remembers, for every row, the entry it was written with and
 whether it was ever blanked; rows are only appended, so a position names a row for good.
 */
module AuditRuns {
  import opened Wrappers
  import opened Canonical
  import opened Text
  import opened Sequences
  import opened AuditChain
  import opened AuditRetention
  import Merkle

  datatype State = State(rows: seq<Row>, anchors: seq<Anchor>, originals: seq<Entry>, blanked: set<nat>)

  const EMPTY := State([], [], [], {})

  datatype Op =
    | Write(entry: Entry)
    | AnchorRange(actorId: string, start: Option<Id>, end: Option<Id>, pin: Option<Pin>, now: Instant)
    | SummarizeRows(ids: seq<Id>)

  /** New ids are larger than all there are. */
  ghost predicate CanApply(s: State, op: Op) {
    op.Write? ==> forall i :: 0 <= i < |s.rows| ==> s.rows[i].entry.id < op.entry.id
  }

  /** The positions of the rows that a list of ids names. */
  function Named(rows: seq<Row>, ids: seq<Id>): set<nat> {
    set i: nat | i < |rows| && rows[i].entry.id in ids
  }

  /** One operation; one that raises leaves the state as it was. */
  function Apply(s: State, op: Op): State {
    match op
    case Write(entry) =>
      (match NewRow(s.rows, entry)
       case Err(_) => s
       case Ok(row) => s.(rows := s.rows + [row], originals := s.originals + [entry]))
    case AnchorRange(actorId, start, end, pin, now) =>
      (match MakeAnchor(s.rows, actorId, start, end, pin, now)
       case Err(_) => s
       case Ok(anchor) => s.(anchors := s.anchors + [anchor]))
    case SummarizeRows(ids) =>
      var summary := Summarize(s.rows, s.anchors, ids);
      if summary.result.Ok? then s.(rows := summary.rows, blanked := s.blanked + Named(s.rows, ids)) else s
  }

  ghost predicate Legal(s: State, ops: seq<Op>)
    decreases |ops|
  {
    ops == [] || (CanApply(s, ops[0]) && Legal(Apply(s, ops[0]), ops[1..]))
  }

  function Run(s: State, ops: seq<Op>): State
    decreases |ops|
  {
    if ops == [] then s else Run(Apply(s, ops[0]), ops[1..])
  }

  // ---------------------------------------------------------------------------- invariants

  /** Every row is the entry it was written with, with its detail blanked if it ever was. */
  ghost predicate Faithful(rows: seq<Row>, originals: seq<Entry>, blanked: set<nat>) {
    && |rows| == |originals|
    && (forall i :: i in blanked ==> i < |rows|)
    && forall i :: 0 <= i < |rows| ==> rows[i].entry == if i in blanked then Blank(originals[i]) else originals[i]
  }

  predicate InRange(a: Anchor, id: Id) {
    a.rangeStart <= id <= a.rangeEnd
  }

  /** The anchor's root is over leaves from its range, every row of it that is still unblanked among them. */
  ghost predicate Commits(originals: seq<Entry>, blanked: set<nat>, a: Anchor, leaves: seq<Record>) {
    && leaves != [] && a.root == Merkle.MerkleRoot(leaves) && a.treeSize == |leaves|
    && a.rangeStart <= a.rangeEnd
    && originals != [] && a.rangeEnd <= originals[|originals| - 1].id
    && (forall x :: x in leaves ==> InRange(a, x.entry.id))
    && (forall i :: 0 <= i < |originals| && InRange(a, originals[i].id) && i !in blanked ==>
          ChainRecord(originals[i]) in leaves)
  }

  ghost predicate Sound(originals: seq<Entry>, blanked: set<nat>, a: Anchor) {
    exists leaves :: Commits(originals, blanked, a, leaves)
  }

  ghost predicate Inv(s: State) {
    && Sorted(s.rows) && Chained(None, s.rows)
    && Faithful(s.rows, s.originals, s.blanked)
    && forall a :: a in s.anchors ==> Sound(s.originals, s.blanked, a)
  }

  /** The entry's record is one of the leaves that the anchor's root commits to. */
  ghost predicate Proves(a: Anchor, original: Entry) {
    exists leaves :: leaves != [] && a.root == Merkle.MerkleRoot(leaves) && ChainRecord(original) in leaves
  }

  ghost predicate Proven(anchors: seq<Anchor>, original: Entry) {
    exists a :: a in anchors && Proves(a, original)
  }

  /** Every row that was ever blanked has its original record committed to by some anchor. */
  ghost predicate AnchorFirst(s: State) {
    forall i :: 0 <= i < |s.originals| && i in s.blanked ==> Proven(s.anchors, s.originals[i])
  }

  // ---------------------------------------------------------------- each operation keeps them

  /** A new row lies beyond every anchor. */
  lemma {:induction false} WriteKeepsSound(s: State, e: Entry, a: Anchor)
    requires Inv(s) && CanApply(s, Write(e)) && Sound(s.originals, s.blanked, a)
    ensures Sound(s.originals + [e], s.blanked, a) && a.rangeStart <= a.rangeEnd < e.id
  {
    var leaves :| Commits(s.originals, s.blanked, a, leaves);
    assert s.originals[|s.originals| - 1].id == s.rows[|s.rows| - 1].entry.id < e.id;
    assert Commits(s.originals + [e], s.blanked, a, leaves);
  }

  lemma {:induction false} WriteKeepsInv(s: State, e: Entry)
    requires Inv(s) && CanApply(s, Write(e))
    ensures Inv(Apply(s, Write(e)))
  {
    if NewRow(s.rows, e).Ok? {
      var row := NewRow(s.rows, e).value;
      ChainedConcat(None, s.rows, [row]);
      forall a | a in s.anchors ensures Sound(s.originals + [e], s.blanked, a) {
        WriteKeepsSound(s, e, a);
      }
    }
  }

  lemma {:induction false} FilterKeepsOrder(rows: seq<Row>, p: Row -> bool)
    requires Sorted(rows)
    ensures Sorted(Filter(rows, p))
  {
    if rows != [] {
      FilterKeepsOrder(rows[1..], p);
      var kept := Filter(rows[1..], p);
      forall i | 0 <= i < |kept| ensures rows[0].entry.id < kept[i].entry.id {
        assert kept[i] in kept && kept[i] in rows[1..];
      }
    }
  }

  /** A window of an ordered table holds every row between its first and its last. */
  lemma {:induction false} WindowIsRange(rows: seq<Row>, start: Option<Id>, end: Option<Id>)
    requires Sorted(rows) && Select(rows, start, end) != []
    ensures var w := Select(rows, start, end);
            && w[0] in rows && w[|w| - 1] in rows
            && (forall r :: r in w ==> r in rows && w[0].entry.id <= r.entry.id <= w[|w| - 1].entry.id)
            && (forall r :: r in rows && w[0].entry.id <= r.entry.id <= w[|w| - 1].entry.id ==> r in w)
  {
    var w := Select(rows, start, end);
    FilterKeepsOrder(rows, WithinBounds(start, end));
    assert w[0] in w && w[|w| - 1] in w;
  }

  /** Leaves taken over a window of a faithful table are as an anchor promises. */
  lemma {:induction false} WindowCommits(rows: seq<Row>, originals: seq<Entry>, blanked: set<nat>, w: seq<Row>, a: Anchor)
    requires Sorted(rows) && Faithful(rows, originals, blanked)
    requires w != [] && w[0] in rows && w[|w| - 1] in rows
    requires a.rangeStart == w[0].entry.id && a.rangeEnd == w[|w| - 1].entry.id
    requires a.root == Merkle.MerkleRoot(Records(w)) && a.treeSize == |w|
    requires forall r :: r in w ==> r in rows && InRange(a, r.entry.id)
    requires forall r :: r in rows && InRange(a, r.entry.id) ==> r in w
    ensures Commits(originals, blanked, a, Records(w))
  {
    assert w[0] in w;
    RecordsInRange(w, a);
    UnblankedInWindow(rows, originals, blanked, w, a);
    NoRowIsLarger(rows, originals, blanked, w[|w| - 1]);
  }

  lemma {:induction false} RecordsInRange(w: seq<Row>, a: Anchor)
    requires forall r :: r in w ==> InRange(a, r.entry.id)
    ensures forall x :: x in Records(w) ==> InRange(a, x.entry.id)
  {
    forall x | x in Records(w) ensures InRange(a, x.entry.id) {
      var i :| 0 <= i < |w| && x == Records(w)[i];
      assert w[i] in w;
    }
  }

  lemma {:induction false} UnblankedInWindow(rows: seq<Row>, originals: seq<Entry>, blanked: set<nat>, w: seq<Row>, a: Anchor)
    requires Faithful(rows, originals, blanked)
    requires forall r :: r in rows && InRange(a, r.entry.id) ==> r in w
    ensures forall i :: 0 <= i < |originals| && InRange(a, originals[i].id) && i !in blanked ==>
              ChainRecord(originals[i]) in Records(w)
  {
    forall i | 0 <= i < |originals| && InRange(a, originals[i].id) && i !in blanked
      ensures ChainRecord(originals[i]) in Records(w)
    {
      assert rows[i] in rows;
    }
  }

  lemma {:induction false} NoRowIsLarger(rows: seq<Row>, originals: seq<Entry>, blanked: set<nat>, r: Row)
    requires Sorted(rows) && Faithful(rows, originals, blanked) && r in rows
    ensures originals != [] && r.entry.id <= originals[|originals| - 1].id
  {
    var i :| 0 <= i < |rows| && rows[i] == r;
    assert rows[|rows| - 1].entry.id == originals[|originals| - 1].id;
  }

  /** An anchor says of its window where it lies, how many rows it has and what their records hash to. */
  ghost predicate IsOver(a: Anchor, w: seq<Row>) {
    && w != [] && a.rangeStart == w[0].entry.id && a.rangeEnd == w[|w| - 1].entry.id
    && a.root == Merkle.MerkleRoot(Records(w)) && a.treeSize == |w|
  }

  lemma {:induction false} NewAnchorIsOver(rows: seq<Row>, op: Op)
    requires op.AnchorRange? && MakeAnchor(rows, op.actorId, op.start, op.end, op.pin, op.now).Ok?
    ensures IsOver(MakeAnchor(rows, op.actorId, op.start, op.end, op.pin, op.now).value, Select(rows, op.start, op.end))
  {
  }

  lemma {:induction false} WindowIsSound(s: State, start: Option<Id>, end: Option<Id>, a: Anchor)
    requires Inv(s) && IsOver(a, Select(s.rows, start, end))
    ensures Sound(s.originals, s.blanked, a)
  {
    var w := Select(s.rows, start, end);
    WindowIsRange(s.rows, start, end);
    WindowCommits(s.rows, s.originals, s.blanked, w, a);
  }

  lemma {:induction false} NewAnchorIsSound(s: State, op: Op)
    requires Inv(s) && op.AnchorRange? && MakeAnchor(s.rows, op.actorId, op.start, op.end, op.pin, op.now).Ok?
    ensures Sound(s.originals, s.blanked, MakeAnchor(s.rows, op.actorId, op.start, op.end, op.pin, op.now).value)
  {
    NewAnchorIsOver(s.rows, op);
    WindowIsSound(s, op.start, op.end, MakeAnchor(s.rows, op.actorId, op.start, op.end, op.pin, op.now).value);
  }

  /** The rows a passed summary leaves: the same ids, the named ones blanked. */
  lemma {:induction false} SummaryEffect(s: State, ids: seq<Id>)
    requires Inv(s) && ids != [] && RangeIsAnchored(s.anchors, Max(ids)) && CanSummarize(s.rows, ids)
    ensures var t := Apply(s, SummarizeRows(ids));
            && t == s.(rows := t.rows, blanked := s.blanked + Named(s.rows, ids))
            && Sorted(t.rows) && Chained(None, t.rows) && |t.rows| == |s.rows|
            && forall i :: 0 <= i < |s.rows| ==> t.rows[i].entry == BlankEntry(s.rows[i].entry, ids)
  {
    SummarizeIsRebuild(s.rows, s.anchors, ids);
    SummarizeKeepsChain(s.rows, s.anchors, ids);
    var rows := Summarize(s.rows, s.anchors, ids).rows;
    assert |rows| == |Entries(rows)|;
    forall i | 0 <= i < |s.rows| ensures rows[i].entry == BlankEntry(s.rows[i].entry, ids) {
      assert Entries(rows)[i] == BlankEntries(Entries(s.rows), ids)[i];
    }
  }

  lemma {:induction false} BlankingKeepsFaithful(s: State, rows: seq<Row>, ids: seq<Id>)
    requires Inv(s) && |rows| == |s.rows|
    requires forall i :: 0 <= i < |s.rows| ==> rows[i].entry == BlankEntry(s.rows[i].entry, ids)
    ensures Faithful(rows, s.originals, s.blanked + Named(s.rows, ids))
  {
  }

  lemma {:induction false} BlankingKeepsSound(originals: seq<Entry>, blanked: set<nat>, more: set<nat>, a: Anchor)
    requires Sound(originals, blanked, a)
    ensures Sound(originals, blanked + more, a)
  {
    var leaves :| Commits(originals, blanked, a, leaves);
    assert Commits(originals, blanked + more, a, leaves);
  }

  lemma {:induction false} SummarizeKeepsInv(s: State, ids: seq<Id>)
    requires Inv(s)
    ensures Inv(Apply(s, SummarizeRows(ids)))
  {
    if ids == [] {
      assert Named(s.rows, ids) == {};
      assert Apply(s, SummarizeRows(ids)) == s;
    } else if RangeIsAnchored(s.anchors, Max(ids)) {
      SummarizeIsRebuild(s.rows, s.anchors, ids);
      if CanSummarize(s.rows, ids) {
        SummaryKeepsInv(s, ids);
      }
    }
  }

  lemma {:induction false} SummaryKeepsInv(s: State, ids: seq<Id>)
    requires Inv(s) && ids != [] && RangeIsAnchored(s.anchors, Max(ids)) && CanSummarize(s.rows, ids)
    ensures Inv(Apply(s, SummarizeRows(ids)))
  {
    SummaryEffect(s, ids);
    var t := Apply(s, SummarizeRows(ids));
    BlankingKeepsFaithful(s, t.rows, ids);
    forall a | a in s.anchors ensures Sound(s.originals, t.blanked, a) {
      BlankingKeepsSound(s.originals, s.blanked, Named(s.rows, ids), a);
    }
  }

  lemma {:induction false} ApplyKeepsInv(s: State, op: Op)
    requires Inv(s) && CanApply(s, op)
    ensures Inv(Apply(s, op))
  {
    match op
    case Write(e) => WriteKeepsInv(s, e);
    case AnchorRange(actorId, start, end, pin, now) =>
      if MakeAnchor(s.rows, actorId, start, end, pin, now).Ok? {
        NewAnchorIsSound(s, op);
      }
    case SummarizeRows(ids) => SummarizeKeepsInv(s, ids);
  }

  /**
   Over every run: the table stays ordered and chained, so it verifies from genesis, and a row
   never differs from the entry it was written with except by having its detail blanked.
   */
  lemma {:induction false} RunsKeepInv(s: State, ops: seq<Op>)
    requires Inv(s) && Legal(s, ops)
    ensures Inv(Run(s, ops)) && Passes(Verify(Run(s, ops).rows, None, None, None))
    decreases |ops|
  {
    if ops == [] {
      SelectAll(s.rows);
      WalkPassesIff(None, s.rows, None, None);
    } else {
      ApplyKeepsInv(s, ops[0]);
      RunsKeepInv(Apply(s, ops[0]), ops[1..]);
    }
  }

  // ---------------------------------------------------------------------------- anchor first

  ghost predicate InSomeRange(anchors: seq<Anchor>, id: Id) {
    exists a :: a in anchors && InRange(a, id)
  }

  /** While a row is unblanked, an anchor proves its record exactly when the row is in the anchor's range. */
  lemma {:induction false} ProvesIffInRange(s: State, a: Anchor, i: nat)
    requires Inv(s) && a in s.anchors && i < |s.originals| && i !in s.blanked
    ensures Proves(a, s.originals[i]) <==> InRange(a, s.originals[i].id)
  {
    var leaves :| Commits(s.originals, s.blanked, a, leaves);
    if Proves(a, s.originals[i]) {
      var others :| others != [] && a.root == Merkle.MerkleRoot(others) && ChainRecord(s.originals[i]) in others;
      Merkle.RootBinding(leaves, others);
    }
  }

  lemma {:induction false} ProvenIffInSomeRange(s: State, i: nat)
    requires Inv(s) && i < |s.originals| && i !in s.blanked
    ensures Proven(s.anchors, s.originals[i]) <==> InSomeRange(s.anchors, s.originals[i].id)
  {
    forall a | a in s.anchors ensures Proves(a, s.originals[i]) <==> InRange(a, s.originals[i].id) {
      ProvesIffInRange(s, a, i);
    }
  }

  /** The original of every row a list newly blanks is in the range of some anchor. */
  ghost predicate Covered(s: State, ids: seq<Id>) {
    forall i :: 0 <= i < |s.rows| && s.rows[i].entry.id in ids && i !in s.blanked ==>
      InSomeRange(s.anchors, s.rows[i].entry.id)
  }

  /**
   The gate looks only at where anchors end. A summary that it lets through keeps the
   original of every blanked row provable exactly when each row it newly blanks lies in the range
   of some anchor, unless one of the rows cannot be blanked and it raises.
   */
  lemma {:induction false} SummaryKeepsAnchorFirstIff(s: State, ids: seq<Id>)
    requires Inv(s) && AnchorFirst(s) && ids != [] && RangeIsAnchored(s.anchors, Max(ids))
    ensures AnchorFirst(Apply(s, SummarizeRows(ids))) <==> Covered(s, ids) || !CanSummarize(s.rows, ids)
  {
    SummarizeIsRebuild(s.rows, s.anchors, ids);
    if CanSummarize(s.rows, ids) {
      PassedSummaryKeepsAnchorFirstIff(s, ids);
    }
  }

  lemma {:induction false} UnblankedProvenIff(s: State)
    requires Inv(s)
    ensures forall i :: 0 <= i < |s.originals| && i !in s.blanked ==>
              (Proven(s.anchors, s.originals[i]) <==> InSomeRange(s.anchors, s.rows[i].entry.id))
  {
    forall i | 0 <= i < |s.originals| && i !in s.blanked
      ensures Proven(s.anchors, s.originals[i]) <==> InSomeRange(s.anchors, s.rows[i].entry.id)
    {
      ProvenIffInSomeRange(s, i);
    }
  }

  lemma {:induction false} PassedSummaryKeepsAnchorFirstIff(s: State, ids: seq<Id>)
    requires Inv(s) && AnchorFirst(s) && ids != [] && RangeIsAnchored(s.anchors, Max(ids)) && CanSummarize(s.rows, ids)
    ensures AnchorFirst(Apply(s, SummarizeRows(ids))) <==> Covered(s, ids)
  {
    SummaryEffect(s, ids);
    BlankingMoreIff(s, Apply(s, SummarizeRows(ids)), ids);
  }

  lemma {:induction false} BlankingMoreIff(s: State, t: State, ids: seq<Id>)
    requires Inv(s) && AnchorFirst(s)
    requires t.anchors == s.anchors && t.originals == s.originals && t.blanked == s.blanked + Named(s.rows, ids)
    ensures AnchorFirst(t) <==> Covered(s, ids)
  {
    UnblankedProvenIff(s);
    assert forall i :: 0 <= i < |s.rows| ==> (i in t.blanked <==> i in s.blanked || s.rows[i].entry.id in ids);
  }

  /** Every anchor starts no later than any row. */
  ghost predicate FromGenesis(s: State) {
    forall a :: a in s.anchors ==> s.rows != [] && a.rangeStart <= s.rows[0].entry.id
  }

  predicate AnchorsFromGenesis(op: Op) {
    op.AnchorRange? ==> op.start.None?
  }

  lemma {:induction false} AnchorKeepsAnchorFirst(s: State, op: Op)
    requires Inv(s) && AnchorFirst(s) && FromGenesis(s) && op.AnchorRange? && op.start.None?
    ensures AnchorFirst(Apply(s, op)) && FromGenesis(Apply(s, op))
  {
    if MakeAnchor(s.rows, op.actorId, op.start, op.end, op.pin, op.now).Ok? {
      StartsAtGenesis(s.rows, op.start, op.end);
      forall i | 0 <= i < |s.originals| && i in s.blanked ensures Proven(Apply(s, op).anchors, s.originals[i]) {
        var a :| a in s.anchors && Proves(a, s.originals[i]);
        assert a in Apply(s, op).anchors;
      }
    }
  }

  lemma {:induction false} StartsAtGenesis(rows: seq<Row>, start: Option<Id>, end: Option<Id>)
    requires Sorted(rows) && start.None? && Select(rows, start, end) != []
    ensures rows != [] && Select(rows, start, end)[0].entry.id <= rows[0].entry.id
  {
    var w := Select(rows, start, end);
    WindowIsRange(rows, start, end);
    assert WithinBounds(start, end)(rows[0]);
    assert rows[0] in w;
  }

  /** With anchors from genesis, the gate does cover every row named. */
  lemma {:induction false} GateCoversFromGenesis(s: State, ids: seq<Id>, i: nat)
    requires Inv(s) && FromGenesis(s) && ids != [] && RangeIsAnchored(s.anchors, Max(ids))
    requires i < |s.rows| && s.rows[i].entry.id in ids
    ensures InSomeRange(s.anchors, s.rows[i].entry.id)
  {
    var k :| 0 <= k < |s.anchors| && s.anchors[k].rangeEnd >= Max(ids);
    assert s.anchors[k] in s.anchors && InRange(s.anchors[k], s.rows[i].entry.id);
  }

  lemma {:induction false} SummaryKeepsAnchorFirst(s: State, ids: seq<Id>)
    requires Inv(s) && AnchorFirst(s) && FromGenesis(s)
    ensures AnchorFirst(Apply(s, SummarizeRows(ids))) && FromGenesis(Apply(s, SummarizeRows(ids)))
  {
    if ids == [] {
      assert Named(s.rows, ids) == {};
      assert Apply(s, SummarizeRows(ids)) == s;
    } else if RangeIsAnchored(s.anchors, Max(ids)) {
      forall i | 0 <= i < |s.rows| && s.rows[i].entry.id in ids ensures InSomeRange(s.anchors, s.rows[i].entry.id) {
        GateCoversFromGenesis(s, ids, i);
      }
      SummaryKeepsAnchorFirstIff(s, ids);
      SummaryKeepsGenesis(s, ids);
    }
  }

  lemma {:induction false} SummaryKeepsGenesis(s: State, ids: seq<Id>)
    requires Inv(s) && FromGenesis(s) && ids != [] && RangeIsAnchored(s.anchors, Max(ids))
    ensures FromGenesis(Apply(s, SummarizeRows(ids)))
  {
    SummarizeIsRebuild(s.rows, s.anchors, ids);
    if CanSummarize(s.rows, ids) {
      SummaryEffect(s, ids);
    }
  }

  /** Anchor first, over every run whose anchors are taken from genesis. */
  lemma {:induction false} AnchorFirstOverRuns(s: State, ops: seq<Op>)
    requires Inv(s) && AnchorFirst(s) && FromGenesis(s) && Legal(s, ops)
    requires forall op :: op in ops ==> AnchorsFromGenesis(op)
    ensures AnchorFirst(Run(s, ops))
    decreases |ops|
  {
    if ops != [] {
      var op := ops[0];
      assert AnchorsFromGenesis(op);
      ApplyKeepsInv(s, op);
      match op {
        case Write(e) => assert AnchorFirst(Apply(s, op)) && FromGenesis(Apply(s, op));
        case AnchorRange(_, _, _, _, _) => AnchorKeepsAnchorFirst(s, op);
        case SummarizeRows(ids) => SummaryKeepsAnchorFirst(s, ids);
      }
      AnchorFirstOverRuns(Apply(s, op), ops[1..]);
    }
  }

  /** The empty log is where runs start. */
  lemma EmptyLogIsGood()
    ensures Inv(EMPTY) && AnchorFirst(EMPTY) && FromGenesis(EMPTY)
  {
  }

  // ------------------------------------------------------------- why the start of an anchor matters

  function SampleEntry(id: Id): Entry {
    Entry(id, 0, Instant(0, 0, 0), "mbr", "ticket.update", None, "mcp", None, Some(map[]))
  }

  const SAMPLE_WRITE_1 := Write(SampleEntry(1))
  const SAMPLE_WRITE_2 := Write(SampleEntry(2))
  const SAMPLE_TAIL_ANCHOR := AnchorRange("mbr", Some(2), None, None, Instant(0, 0, 0))
  const SAMPLE_SUMMARY := SummarizeRows([1])

  lemma SampleSize(e: Entry, detail: Option<Snapshot>)
    requires detail.None? || detail == Some(map[])
    requires e.action == "ticket.update" && e.actorId == "mbr" && e.source == "mcp"
    requires e.actorSeq == 0 && e.createdAt == Instant(0, 0, 0) && e.objectRef.None?
    requires e.before.None? && e.after == detail
    ensures RecordSize(ChainRecord(e)) < 1000
  {
    RecordSizeIs(ChainRecord(e));
    QuotedAtMost(e.action);
    QuotedAtMost(e.actorId);
    QuotedAtMost(e.source);
    DetailSize(detail);
  }

  lemma SampleFits(id: Id)
    ensures Encodable(ChainRecord(SampleEntry(id))) && CanBlank(SampleEntry(id))
  {
    SampleSize(SampleEntry(id), Some(map[]));
    SampleSize(Blank(SampleEntry(id)), None);
  }

  lemma {:induction false} SampleWriteSucceeds(rows: seq<Row>, id: Id)
    requires WellSpelled(Tip(rows))
    ensures NewRow(rows, SampleEntry(id)) == Ok(Row(SampleEntry(id), Some(Hash(Tip(rows), ChainRecord(SampleEntry(id))))))
  {
    SampleFits(id);
    assert !IsSpace("mbr"[0]) && !IsSpace("ticket.update"[0]);
  }

  lemma SampleRows() returns (s: State)
    ensures s == Apply(Apply(EMPTY, SAMPLE_WRITE_1), SAMPLE_WRITE_2) && Inv(s)
    ensures CanApply(EMPTY, SAMPLE_WRITE_1) && CanApply(Apply(EMPTY, SAMPLE_WRITE_1), SAMPLE_WRITE_2)
    ensures |s.rows| == 2 && s.anchors == [] && s.originals == [SampleEntry(1), SampleEntry(2)] && s.blanked == {}
  {
    EmptyLogIsGood();
    SampleWriteSucceeds([], 1);
    ApplyKeepsInv(EMPTY, SAMPLE_WRITE_1);
    var one := Apply(EMPTY, SAMPLE_WRITE_1);
    SampleWriteSucceeds(one.rows, 2);
    ApplyKeepsInv(one, SAMPLE_WRITE_2);
    s := Apply(one, SAMPLE_WRITE_2);
  }

  lemma {:induction false} SampleAnchor(s: State)
    requires Inv(s) && |s.rows| == 2 && s.rows[0].entry.id == 1 && s.rows[1].entry.id == 2
    requires s.anchors == []
    ensures var t := Apply(s, SAMPLE_TAIL_ANCHOR);
            t.rows == s.rows && |t.anchors| == 1 && t.anchors[0].rangeStart == 2 && t.anchors[0].rangeEnd == 2
            && t.originals == s.originals && t.blanked == s.blanked
  {
    SampleWindow(s.rows);
    var window := [s.rows[1]];
    MakeAnchorOf(s.rows, "mbr", Some(2), None, None, Instant(0, 0, 0), window, s.rows[1], Merkle.MerkleRoot(Records(window)));
  }

  lemma {:induction false} SampleWindow(rows: seq<Row>)
    requires Chained(None, rows) && |rows| == 2 && rows[0].entry.id == 1 && rows[1].entry.id == 2
    ensures Select(rows, Some(2), None) == [rows[1]] && LeafError([rows[1]]).None?
  {
    SelectSplits([rows[0]], [rows[1]], 2);
    assert [rows[0]] + [rows[1]] == rows;
    HeadIsLinked(rows, 1);
    assert [rows[1]][1..] == [];
  }

  lemma {:induction false} RunFour(s: State, a: Op, b: Op, c: Op, d: Op)
    ensures Run(s, [a, b, c, d]) == Apply(Apply(Apply(Apply(s, a), b), c), d)
    ensures CanApply(s, a) && CanApply(Apply(s, a), b) && !c.Write? && !d.Write? ==> Legal(s, [a, b, c, d])
  {
    assert [a, b, c, d][1..] == [b, c, d] && [b, c, d][1..] == [c, d] && [c, d][1..] == [d] && [d][1..] == [];
    var t := Apply(Apply(s, a), b);
    assert Run(t, [c, d]) == Run(Apply(t, c), [d]) == Apply(Apply(t, c), d);
    assert !c.Write? && !d.Write? ==> Legal(Apply(t, c), [d]) && Legal(t, [c, d]);
  }

  lemma {:induction false} SampleSummary(t: State)
    requires Inv(t) && AnchorFirst(t) && |t.rows| == 2 && t.rows[0].entry == SampleEntry(1) && t.blanked == {}
    requires |t.anchors| == 1 && t.anchors[0].rangeStart == 2 == t.anchors[0].rangeEnd
    ensures 0 in Apply(t, SAMPLE_SUMMARY).blanked && !AnchorFirst(Apply(t, SAMPLE_SUMMARY))
  {
    SampleFits(1);
    assert forall r :: r in t.rows && r.entry.id in [1] ==> r == t.rows[0];
    assert t.rows[0].entry.id in [1] && !InSomeRange(t.anchors, 1);
    SummaryEffect(t, [1]);
    SummaryKeepsAnchorFirstIff(t, [1]);
  }

  lemma SampleRun() returns (t: State)
    ensures t == Apply(Apply(Apply(EMPTY, SAMPLE_WRITE_1), SAMPLE_WRITE_2), SAMPLE_TAIL_ANCHOR)
    ensures CanApply(EMPTY, SAMPLE_WRITE_1) && CanApply(Apply(EMPTY, SAMPLE_WRITE_1), SAMPLE_WRITE_2)
    ensures 0 in Apply(t, SAMPLE_SUMMARY).blanked && !AnchorFirst(Apply(t, SAMPLE_SUMMARY))
  {
    var s := SampleRows();
    SampleAnchor(s);
    ApplyKeepsInv(s, SAMPLE_TAIL_ANCHOR);
    t := Apply(s, SAMPLE_TAIL_ANCHOR);
    SampleSummary(t);
  }

  /** Without that, the gate is not enough: an anchor over row 2 alone lets row 1 be blanked unproven. */
  lemma AnchorOfTailLosesOriginal()
    ensures var ops := [SAMPLE_WRITE_1, SAMPLE_WRITE_2, SAMPLE_TAIL_ANCHOR, SAMPLE_SUMMARY];
            Legal(EMPTY, ops) && 0 in Run(EMPTY, ops).blanked && !AnchorFirst(Run(EMPTY, ops))
  {
    var t := SampleRun();
    RunFour(EMPTY, SAMPLE_WRITE_1, SAMPLE_WRITE_2, SAMPLE_TAIL_ANCHOR, SAMPLE_SUMMARY);
  }
}
