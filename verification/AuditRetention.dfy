/**
 Anchoring and summarizing, on values: the two operations that let old detail be
 blanked without the chain or the proof of the original content being lost.
 */
module AuditRetention {
  import opened Wrappers
  import opened Json
  import opened Canonical
  import opened Text
  import opened Sequences
  import opened AuditChain
  import opened AuditWindow
  import Merkle

  // -------------------------------------------------------------------------------- anchors

  datatype Anchor = Anchor(
    actorId: string,
    rangeStart: Id,
    rangeEnd: Id,
    root: Merkle.Digest<Record>,
    treeSize: nat,
    chainTip: Link,
    externalPin: Option<string>,
    createdAt: Instant)

  type Pin = Merkle.Digest<Record> -> Option<string>

  function Records(rows: seq<Row>): (records: seq<Record>)
    ensures |records| == |rows|
    ensures forall i :: 0 <= i < |rows| ==> records[i] == ChainRecord(rows[i].entry)
  {
    seq(|rows|, i requires 0 <= i < |rows| => ChainRecord(rows[i].entry))
  }

  /** What refuses the rows as leaves: the first one without a hash or outside the profile. */
  function LeafError(rows: seq<Row>): Option<AuditError> {
    if rows == [] then None
    else if rows[0].chainHash.None? then Some(UnchainedRow(rows[0].entry.id))
    else if !Encodable(ChainRecord(rows[0].entry)) then Some(SchemaViolation)
    else LeafError(rows[1..])
  }

  lemma {:induction false} NoLeafErrorMeansLinked(rows: seq<Row>)
    ensures LeafError(rows).None? ==> forall r :: r in rows ==> r.chainHash.Some? && Encodable(ChainRecord(r.entry))
  {
    if rows != [] { NoLeafErrorMeansLinked(rows[1..]); }
  }

  lemma {:induction false} LastHasHash(window: seq<Row>)
    requires window != [] && LeafError(window).None?
    ensures window[|window| - 1].chainHash.Some?
  {
    NoLeafErrorMeansLinked(window);
    assert window[|window| - 1] in window;
  }

  /** One Merkle root over the records of a range of rows. */
  function MakeAnchor(rows: seq<Row>, actorId: string, start: Option<Id>, end: Option<Id>, pin: Option<Pin>, now: Instant)
    : (r: Result<Anchor, AuditError>)
  {
    var window := Select(rows, start, end);
    if window == [] then Err(EmptyRange)
    else if LeafError(window).Some? then Err(LeafError(window).value)
    else
      var root, last := Merkle.MerkleRoot(Records(window)), window[|window| - 1];
      LastHasHash(window);
      Ok(Anchor(actorId, window[0].entry.id, last.entry.id, root, |window|, last.chainHash.value,
                if pin.Some? then pin.value(root) else None, now))
  }

  lemma {:induction false} MakeAnchorOf(
      rows: seq<Row>, actorId: string, start: Option<Id>, end: Option<Id>, pin: Option<Pin>, now: Instant,
      window: seq<Row>, last: Row, root: Merkle.Digest<Record>)
    requires window == Select(rows, start, end) && window != [] && LeafError(window).None?
    requires last == window[|window| - 1] && root == Merkle.MerkleRoot(Records(window))
    ensures last.chainHash.Some?
    ensures MakeAnchor(rows, actorId, start, end, pin, now)
         == Ok(Anchor(actorId, window[0].entry.id, last.entry.id, root, |window|, last.chainHash.value,
                      if pin.Some? then pin.value(root) else None, now))
  {
    LastHasHash(window);
  }

  /** Why a row cannot be a leaf. */
  function Unfit(row: Row): AuditError {
    if row.chainHash.None? then UnchainedRow(row.entry.id) else SchemaViolation
  }

  /** What anchoring the rows of a window has to give: their ends, number, root and last hash, or the first obstacle. */
  ghost predicate IsAnchorOf(window: seq<Row>, actorId: string, pin: Option<Pin>, now: Instant, r: Result<Anchor, AuditError>) {
    if window == [] then r == Err(EmptyRange)
    else if forall i :: 0 <= i < |window| ==> window[i].chainHash.Some? && Encodable(ChainRecord(window[i].entry)) then
      var last := window[|window| - 1];
      && r.Ok?
      && r.value.actorId == actorId && r.value.createdAt == now
      && r.value.rangeStart == window[0].entry.id && r.value.rangeEnd == last.entry.id
      && r.value.treeSize == |window| && r.value.root == Merkle.MerkleRoot(Records(window))
      && Some(r.value.chainTip) == last.chainHash
      && r.value.externalPin == if pin.Some? then pin.value(r.value.root) else None
    else
      exists k :: 0 <= k < |window| && r == Err(Unfit(window[k])) && IsFirstUnfit(window, k)
  }

  ghost predicate IsFirstUnfit(window: seq<Row>, k: int) {
    && 0 <= k < |window| && !(window[k].chainHash.Some? && Encodable(ChainRecord(window[k].entry)))
    && forall i :: 0 <= i < k ==> window[i].chainHash.Some? && Encodable(ChainRecord(window[i].entry))
  }

  lemma {:induction false} LeafErrorIs(window: seq<Row>)
    ensures LeafError(window).None? ==>
              forall i :: 0 <= i < |window| ==> window[i].chainHash.Some? && Encodable(ChainRecord(window[i].entry))
    ensures LeafError(window).Some? ==>
              exists k :: 0 <= k < |window| && LeafError(window) == Some(Unfit(window[k])) && IsFirstUnfit(window, k)
  {
    if window != [] && window[0].chainHash.Some? && Encodable(ChainRecord(window[0].entry)) {
      LeafErrorIs(window[1..]);
      if LeafError(window).Some? {
        var k :| 0 <= k < |window[1..]| && LeafError(window) == Some(Unfit(window[1..][k])) && IsFirstUnfit(window[1..], k);
        UnfitInRest(window, k);
      }
    } else if window != [] {
      assert IsFirstUnfit(window, 0);
    }
  }

  lemma {:induction false} UnfitInRest(window: seq<Row>, k: nat)
    requires window != [] && window[0].chainHash.Some? && Encodable(ChainRecord(window[0].entry))
    requires IsFirstUnfit(window[1..], k)
    ensures IsFirstUnfit(window, k + 1) && window[k + 1] == window[1..][k]
  {
    forall i | 0 <= i < k + 1 ensures window[i].chainHash.Some? && Encodable(ChainRecord(window[i].entry)) {
      if i > 0 {
        assert window[1..][i - 1] == window[i];
      }
    }
  }

  /** An anchor between two bounds is that of the rows between them. */
  lemma {:induction false} AnchorIsOfWindow(
      rows: seq<Row>, actorId: string, start: Option<Id>, end: Option<Id>, pin: Option<Pin>, now: Instant, lo: nat, hi: nat)
    requires IsWindow(rows, start, end, lo, hi)
    ensures IsAnchorOf(rows[lo..hi], actorId, pin, now, MakeAnchor(rows, actorId, start, end, pin, now))
  {
    SelectIsWindow(rows, start, end, lo, hi);
    LeafErrorIs(rows[lo..hi]);
  }

  /** So its range lies between the bounds. */
  lemma {:induction false} AnchorWithinBounds(
      rows: seq<Row>, actorId: string, start: Option<Id>, end: Option<Id>, pin: Option<Pin>, now: Instant)
    requires Sorted(rows) && MakeAnchor(rows, actorId, start, end, pin, now).Ok?
    ensures var anchor := MakeAnchor(rows, actorId, start, end, pin, now).value;
            && (start.Some? ==> start.value <= anchor.rangeStart) && (end.Some? ==> anchor.rangeEnd <= end.value)
            && anchor.rangeStart <= anchor.rangeEnd
            && anchor.treeSize == |set r | r in rows && anchor.rangeStart <= r.entry.id <= anchor.rangeEnd|
  {
    var lo, hi := WindowBetween(rows, start, end);
    AnchorIsOfWindow(rows, actorId, start, end, pin, now, lo, hi);
    var anchor := MakeAnchor(rows, actorId, start, end, pin, now).value;
    assert rows[lo..hi][0] == rows[lo] && rows[lo..hi][hi - lo - 1] == rows[hi - 1];
    CountBetween(rows, lo, hi);
  }

  lemma {:induction false} CountBetween(rows: seq<Row>, lo: nat, hi: nat)
    requires Sorted(rows) && lo < hi <= |rows|
    ensures |set r | r in rows && rows[lo].entry.id <= r.entry.id <= rows[hi - 1].entry.id| == hi - lo
    decreases hi - lo
  {
    var between := set r | r in rows && rows[lo].entry.id <= r.entry.id <= rows[hi - 1].entry.id;
    if hi - lo == 1 {
      assert between == {rows[lo]};
    } else {
      CountBetween(rows, lo, hi - 1);
      var shorter := set r | r in rows && rows[lo].entry.id <= r.entry.id <= rows[hi - 2].entry.id;
      assert between == shorter + {rows[hi - 1]};
    }
  }

  /** An anchor pins the content of its range: other entries, however relinked, give another root. */
  lemma {:induction false} AnchorPinsEntries(rows: seq<Row>, table: seq<Row>, actorId: string, start: Option<Id>, end: Option<Id>,
                          pin: Option<Pin>, now: Instant, later: Instant)
    requires MakeAnchor(rows, actorId, start, end, pin, now).Ok?
    requires MakeAnchor(table, actorId, start, end, pin, later).Ok?
    ensures MakeAnchor(rows, actorId, start, end, pin, now).value.root
         == MakeAnchor(table, actorId, start, end, pin, later).value.root
       <==> Entries(Select(rows, start, end)) == Entries(Select(table, start, end))
  {
    var v, w := Select(rows, start, end), Select(table, start, end);
    if Merkle.MerkleRoot(Records(v)) == Merkle.MerkleRoot(Records(w)) {
      Merkle.RootBinding(Records(v), Records(w));
      forall i | 0 <= i < |v| ensures v[i].entry == w[i].entry {
        assert Records(v)[i] == Records(w)[i];
        ChainRecordIsInjective(v[i].entry, w[i].entry);
      }
    }
    if Entries(v) == Entries(w) {
      forall i | 0 <= i < |v| ensures Records(v)[i] == Records(w)[i] {
        assert Entries(v)[i] == Entries(w)[i];
      }
      assert Records(v) == Records(w);
    }
  }

  /** The gate of the summary: some anchor ends at or after `end`. Its start is not looked at. */
  predicate RangeIsAnchored(anchors: seq<Anchor>, end: Id) {
    exists i :: 0 <= i < |anchors| && anchors[i].rangeEnd >= end
  }

  // -------------------------------------------------------------------------------- summary

  function Max(ids: seq<Id>): (m: Id)
    requires ids != []
    ensures m in ids && forall i :: i in ids ==> i <= m
  {
    if |ids| == 1 then ids[0]
    else
      var rest := Max(ids[1..]);
      assert forall i :: i in ids ==> i == ids[0] || i in ids[1..];
      if rest >= ids[0] then rest else ids[0]
  }

  function Min(ids: seq<Id>): (m: Id)
    requires ids != []
    ensures m in ids && forall i :: i in ids ==> m <= i
  {
    if |ids| == 1 then ids[0]
    else
      var rest := Min(ids[1..]);
      assert forall i :: i in ids ==> i == ids[0] || i in ids[1..];
      if rest <= ids[0] then rest else ids[0]
  }

  function Blank(e: Entry): Entry {
    e.(before := None, after := None)
  }

  function BlankEntry(e: Entry, ids: seq<Id>): Entry {
    if e.id in ids then Blank(e) else e
  }

  /** Blanks the detail of the rows named, and leaves every stored hash alone. */
  function BlankRows(rows: seq<Row>, ids: seq<Id>): (blanked: seq<Row>)
    ensures |blanked| == |rows|
    ensures forall i :: 0 <= i < |rows| ==> blanked[i] == Row(BlankEntry(rows[i].entry, ids), rows[i].chainHash)
  {
    seq(|rows|, i requires 0 <= i < |rows| => Row(BlankEntry(rows[i].entry, ids), rows[i].chainHash))
  }

  /** The rows after relinking, and whether every link could be computed. */
  datatype Relinked = Relinked(rows: seq<Row>, ok: bool)

  /** Recomputes the links in order; a link that cannot be computed stops it, leaving the rest. */
  function Relink(previous: Option<Link>, rows: seq<Row>): (r: Relinked)
    ensures |r.rows| == |rows|
    decreases |rows|
  {
    if rows == [] then Relinked([], true)
    else
      match ChainHash(previous, ChainRecord(rows[0].entry))
      case Err(_) => Relinked(rows, false)
      case Ok(link) =>
        var rest := Relink(Some(link), rows[1..]);
        Relinked([Row(rows[0].entry, Some(link))] + rest.rows, rest.ok)
  }

  /** What a summary returns, and the table it leaves. */
  datatype Summary = Summary(result: Result<nat, AuditError>, rows: seq<Row>)

  function Summarize(rows: seq<Row>, anchors: seq<Anchor>, ids: seq<Id>): Summary {
    if ids == [] then Summary(Ok(0), rows)
    else if !RangeIsAnchored(anchors, Max(ids)) then Summary(Err(Unanchored), rows)
    else
      var blanked, first := BlankRows(rows, ids), Min(ids);
      var head, tail := Before(blanked, first), Select(blanked, Some(first), None);
      var relinked := Relink(Tip(head), tail);
      Summary(if relinked.ok then Ok(|ids|) else Err(SchemaViolation), head + relinked.rows)
  }

  // ------------------------------------------------------------------- what a summary has to leave

  /** The entry without its detail, when it is named, and else as it was. */
  function Summarized(e: Entry, ids: seq<Id>): Entry {
    if e.id in ids then Entry(e.id, e.actorSeq, e.createdAt, e.actorId, e.action, e.objectRef, e.source, None, None) else e
  }

  /** Only the detail of rows named is gone, rows below every id named are as they were, and the others are linked anew. */
  ghost predicate IsSummaryOf(before: seq<Row>, after: seq<Row>, ids: seq<Id>, linked: bool) {
    && |after| == |before|
    && (forall i :: 0 <= i < |before| ==> after[i].entry == Summarized(before[i].entry, ids))
    && (forall i :: 0 <= i < |before| && (forall id :: id in ids ==> before[i].entry.id < id) ==> after[i] == before[i])
    && (linked ==> forall i :: 0 <= i < |before| && (exists id :: id in ids && id <= before[i].entry.id) ==>
          IsLinked(HashBefore(None, after, i), after[i]))
  }

  lemma {:induction false} RelinkLinks(previous: Option<Link>, rows: seq<Row>)
    ensures forall i :: 0 <= i < |rows| ==> Relink(previous, rows).rows[i].entry == rows[i].entry
    ensures Relink(previous, rows).ok ==> Chained(previous, Relink(previous, rows).rows)
    decreases |rows|
  {
    if rows != [] && ChainHash(previous, ChainRecord(rows[0].entry)).Ok? {
      var link := ChainHash(previous, ChainRecord(rows[0].entry)).value;
      RelinkLinks(Some(link), rows[1..]);
      var rest := Relink(Some(link), rows[1..]);
      assert ([Row(rows[0].entry, Some(link))] + rest.rows)[1..] == rest.rows;
    }
  }

  lemma {:induction false} BlankedIsSummarized(rows: seq<Row>, ids: seq<Id>, c: nat, linked: Relinked)
    requires c <= |rows| && linked == Relink(Tip(rows[..c]), BlankRows(rows, ids)[c..])
    requires forall i :: 0 <= i < c ==> rows[i].entry.id !in ids
    ensures |rows[..c] + linked.rows| == |rows|
    ensures forall i :: 0 <= i < |rows| ==> (rows[..c] + linked.rows)[i].entry == Summarized(rows[i].entry, ids)
  {
    var blanked := BlankRows(rows, ids);
    RelinkLinks(Tip(rows[..c]), blanked[c..]);
    forall i | 0 <= i < |rows| ensures (rows[..c] + linked.rows)[i].entry == Summarized(rows[i].entry, ids) {
      if i >= c {
        assert linked.rows[i - c].entry == blanked[c..][i - c].entry == blanked[i].entry;
      }
    }
  }

  lemma {:induction false} RestIsLinked(head: seq<Row>, tail: seq<Row>, i: nat)
    requires Chained(Tip(head), tail) && |head| <= i < |head| + |tail|
    ensures IsLinked(HashBefore(None, head + tail, i), (head + tail)[i])
  {
    ChainedIff(Tip(head), tail);
    var k := i - |head|;
    assert IsLinked(HashBefore(Tip(head), tail, k), tail[k]);
    assert (head + tail)[i] == tail[k] && HashBefore(None, head + tail, i) == HashBefore(Tip(head), tail, k);
  }

  /** A summary that passes the gate leaves what it has to. */
  lemma {:induction false} SummarizeLeaves(rows: seq<Row>, anchors: seq<Anchor>, ids: seq<Id>)
    requires Sorted(rows) && ids != [] && RangeIsAnchored(anchors, Max(ids))
    ensures var s := Summarize(rows, anchors, ids); IsSummaryOf(rows, s.rows, ids, s.result.Ok?)
  {
    var c := CutAt(rows, Min(ids));
    SummaryCut(rows, ids, c);
    SummarizeAtCut(rows, anchors, ids, c);
    var linked := Relink(Tip(rows[..c]), BlankRows(rows, ids)[c..]);
    BlankedIsSummarized(rows, ids, c, linked);
    if linked.ok {
      RelinkLinks(Tip(rows[..c]), BlankRows(rows, ids)[c..]);
    }
    CutIsSummary(rows, linked.rows, ids, c, linked.ok);
  }

  lemma {:induction false} CutIsSummary(rows: seq<Row>, tail: seq<Row>, ids: seq<Id>, c: nat, linked: bool)
    requires ids != [] && c <= |rows| && |tail| == |rows| - c
    requires forall i :: 0 <= i < c ==> rows[i].entry.id < Min(ids)
    requires forall i :: c <= i < |rows| ==> Min(ids) <= rows[i].entry.id
    requires forall i :: 0 <= i < |rows| ==> (rows[..c] + tail)[i].entry == Summarized(rows[i].entry, ids)
    requires linked ==> Chained(Tip(rows[..c]), tail)
    ensures IsSummaryOf(rows, rows[..c] + tail, ids, linked)
  {
    var after := rows[..c] + tail;
    if linked {
      forall i | c <= i < |rows| ensures IsLinked(HashBefore(None, after, i), after[i]) {
        RestIsLinked(rows[..c], tail, i);
      }
    }
  }

  /** The gate refuses exactly when no anchor ends at or after every id named. */
  lemma {:induction false} UnanchoredIff(rows: seq<Row>, anchors: seq<Anchor>, ids: seq<Id>)
    requires ids != []
    ensures Summarize(rows, anchors, ids).result == Err(Unanchored)
       <==> forall i :: 0 <= i < |anchors| ==> exists id :: id in ids && anchors[i].rangeEnd < id
  {
    if !RangeIsAnchored(anchors, Max(ids)) {
      forall i | 0 <= i < |anchors| ensures exists id :: id in ids && anchors[i].rangeEnd < id {
        assert anchors[i].rangeEnd < Max(ids);
      }
    }
  }

  // ------------------------------------------------------------- a chain is a function of entries

  function Entries(rows: seq<Row>): (entries: seq<Entry>)
    ensures |entries| == |rows|
    ensures forall i :: 0 <= i < |rows| ==> entries[i] == rows[i].entry
  {
    seq(|rows|, i requires 0 <= i < |rows| => rows[i].entry)
  }

  function BlankEntries(entries: seq<Entry>, ids: seq<Id>): (blanked: seq<Entry>)
    ensures |blanked| == |entries|
    ensures forall i :: 0 <= i < |entries| ==> blanked[i] == BlankEntry(entries[i], ids)
  {
    seq(|entries|, i requires 0 <= i < |entries| => BlankEntry(entries[i], ids))
  }

  /** The one chained table with the given entries. */
  function Build(previous: Option<Link>, entries: seq<Entry>): (rows: seq<Row>)
    ensures |rows| == |entries|
    ensures forall i :: 0 <= i < |entries| ==> rows[i].entry == entries[i]
    decreases |entries|
  {
    if entries == [] then []
    else
      var link := Hash(previous, ChainRecord(entries[0]));
      [Row(entries[0], Some(link))] + Build(Some(link), entries[1..])
  }

  ghost predicate AllEncodable(entries: seq<Entry>) {
    forall e :: e in entries ==> Encodable(ChainRecord(e))
  }

  lemma {:induction false} ChainedIsBuilt(previous: Option<Link>, rows: seq<Row>)
    requires WellSpelled(previous)
    ensures Chained(previous, rows) <==> AllEncodable(Entries(rows)) && rows == Build(previous, Entries(rows))
    decreases |rows|
  {
    if rows != [] {
      var link := Hash(previous, ChainRecord(rows[0].entry));
      assert Entries(rows)[1..] == Entries(rows[1..]);
      assert Entries(rows)[0] in Entries(rows);
      assert forall e :: e in Entries(rows) <==> e == rows[0].entry || e in Entries(rows[1..]);
      ChainedIsBuilt(Some(link), rows[1..]);
    }
  }

  lemma {:induction false} BuildConcat(previous: Option<Link>, xs: seq<Entry>, ys: seq<Entry>)
    ensures Build(previous, xs + ys) == Build(previous, xs) + Build(TipFrom(previous, Build(previous, xs)), ys)
    decreases |xs|
  {
    if xs == [] {
      assert xs + ys == ys;
    } else {
      assert (xs + ys)[1..] == xs[1..] + ys;
      BuildConcat(Some(Hash(previous, ChainRecord(xs[0]))), xs[1..], ys);
    }
  }

  /** Relinking comes through exactly when every entry can be encoded, and then it builds the chain anew. */
  lemma {:induction false} RelinkIsBuildIff(previous: Option<Link>, rows: seq<Row>)
    requires WellSpelled(previous)
    ensures Relink(previous, rows).ok <==> AllEncodable(Entries(rows))
    ensures AllEncodable(Entries(rows)) ==> Relink(previous, rows).rows == Build(previous, Entries(rows))
    decreases |rows|
  {
    if rows != [] {
      assert Entries(rows)[1..] == Entries(rows[1..]);
      assert Entries(rows)[0] in Entries(rows);
      assert forall e :: e in Entries(rows) <==> e == rows[0].entry || e in Entries(rows[1..]);
      RelinkIsBuildIff(Some(Hash(previous, ChainRecord(rows[0].entry))), rows[1..]);
    }
  }

  /** Where an ordered table is cut by an id. */
  function CutAt(rows: seq<Row>, id: Id): (c: nat)
    requires Sorted(rows)
    ensures c <= |rows|
    ensures forall i :: 0 <= i < c ==> rows[i].entry.id < id
    ensures forall i :: c <= i < |rows| ==> id <= rows[i].entry.id
  {
    if rows == [] || rows[0].entry.id >= id then 0
    else
      var c := 1 + CutAt(rows[1..], id);
      assert forall i :: 1 <= i < |rows| ==> rows[i] == rows[1..][i - 1];
      c
  }

  // ------------------------------------------------------------------- which rows can be blanked

  /** Without its detail the entry is still within the codec's bound on bytes. */
  predicate CanBlank(e: Entry) {
    RecordSize(ChainRecord(Blank(e))) <= MAX_DOCUMENT_BYTES
  }

  /** Every row named is. */
  predicate CanSummarize(rows: seq<Row>, ids: seq<Id>) {
    forall r :: r in rows && r.entry.id in ids ==> CanBlank(r.entry)
  }

  lemma BlankIsEncodableIff(e: Entry)
    requires Encodable(ChainRecord(e))
    ensures Encodable(ChainRecord(Blank(e))) <==> CanBlank(e)
  {
  }

  /** What blanking saves: each detail gives way to a `null`. */
  lemma BlankedSize(e: Entry)
    ensures RecordSize(ChainRecord(Blank(e))) + Size(SnapshotJson(e.before)) + Size(SnapshotJson(e.after))
         == RecordSize(ChainRecord(e)) + 2 * NULL_BYTES
  {
    RecordSizeIs(ChainRecord(e));
    RecordSizeIs(ChainRecord(Blank(e)));
    assert FieldValue(ChainRecord(e), 6) == FieldValue(ChainRecord(Blank(e)), 6);
  }

  /** An empty object is shorter than `null`; nothing else that a detail can be is. */
  lemma DetailSize(s: Option<Snapshot>)
    ensures Size(SnapshotJson(s)) < NULL_BYTES <==> s == Some(map[])
    ensures Size(SnapshotJson(Some(map[]))) == 2
  {
    if s.Some? && s.value != map[] {
      var keys := s.value.Keys;
      var key :| key in keys;
      assert key in s.value;
      TakeMember(Obj(s.value), keys, key);
      QuotedIsLonger(key);
    }
  }

  /** So only an entry with an empty detail can be impossible to blank. */
  lemma DetailedCanBeBlanked(e: Entry)
    requires Encodable(ChainRecord(e)) && e.before != Some(map[]) && e.after != Some(map[])
    ensures CanBlank(e)
  {
    BlankedSize(e);
    DetailSize(e.before);
    DetailSize(e.after);
  }

  lemma {:induction false} BlankingKeepsEncodableIff(rows: seq<Row>, ids: seq<Id>)
    requires AllEncodable(Entries(rows))
    ensures AllEncodable(BlankEntries(Entries(rows), ids)) <==> CanSummarize(rows, ids)
  {
    var blanked := BlankEntries(Entries(rows), ids);
    forall i | 0 <= i < |rows|
      ensures Encodable(ChainRecord(blanked[i])) <==> (rows[i].entry.id in ids ==> CanBlank(rows[i].entry))
    {
      assert Entries(rows)[i] in Entries(rows);
      BlankIsEncodableIff(rows[i].entry);
    }
    if AllEncodable(blanked) {
      forall r | r in rows && r.entry.id in ids ensures CanBlank(r.entry) {
        var i :| 0 <= i < |rows| && rows[i] == r;
        assert blanked[i] in blanked;
      }
    }
    if CanSummarize(rows, ids) {
      forall e | e in blanked ensures Encodable(ChainRecord(e)) {
        var i :| 0 <= i < |blanked| && blanked[i] == e;
        assert rows[i] in rows;
      }
    }
  }

  /** Rows before the earliest id named are not blanked, so the two queries cut the blanked table there. */
  lemma {:induction false} SummaryCut(rows: seq<Row>, ids: seq<Id>, c: nat)
    requires Sorted(rows) && ids != [] && c == CutAt(rows, Min(ids))
    ensures var blanked := BlankRows(rows, ids);
            Before(blanked, Min(ids)) == rows[..c] && Select(blanked, Some(Min(ids)), None) == blanked[c..]
  {
    var blanked := BlankRows(rows, ids);
    assert blanked == blanked[..c] + blanked[c..];
    SelectSplits(blanked[..c], blanked[c..], Min(ids));
    assert blanked[..c] == rows[..c];
  }

  /** A chained head followed by freshly built rows is built as a whole. */
  lemma {:induction false} BuildOnto(head: seq<Row>, entries: seq<Entry>)
    requires Chained(None, head)
    ensures Build(None, Entries(head) + entries) == head + Build(Tip(head), entries)
    ensures WellSpelled(Tip(head))
  {
    ChainedIsBuilt(None, head);
    BuildConcat(None, Entries(head), entries);
    if head != [] { LastIsLinked(head); }
  }

  /** The entries of a blanked table, cut where the blanking begins. */
  lemma {:induction false} BlankedInTwo(rows: seq<Row>, ids: seq<Id>, c: nat)
    requires c <= |rows| && AllEncodable(Entries(rows)) && BlankRows(rows, ids)[..c] == rows[..c]
    ensures var tail := Entries(BlankRows(rows, ids)[c..]);
            && BlankEntries(Entries(rows), ids) == Entries(rows[..c]) + tail
            && (AllEncodable(tail) <==> AllEncodable(BlankEntries(Entries(rows), ids)))
  {
    var whole, head, tail := BlankEntries(Entries(rows), ids), Entries(rows[..c]), Entries(BlankRows(rows, ids)[c..]);
    forall i | 0 <= i < |rows| ensures whole[i] == (head + tail)[i] {
      assert whole[i] == BlankRows(rows, ids)[i].entry;
      if i < c {
        assert BlankRows(rows, ids)[..c][i] == rows[..c][i];
      }
    }
    assert whole == head + tail;
    EncodableInTwo(Entries(rows), head, tail, c);
  }

  lemma {:induction false} EncodableInTwo(entries: seq<Entry>, head: seq<Entry>, tail: seq<Entry>, c: nat)
    requires c <= |entries| && AllEncodable(entries) && head == entries[..c]
    ensures AllEncodable(head + tail) <==> AllEncodable(tail)
  {
    assert forall e :: e in head + tail <==> e in head || e in tail;
    assert forall e :: e in head ==> e in entries;
  }

  /** What a passed summary does, once its two queries are known to cut the table at `c`. */
  lemma {:induction false} SummarizeAtCut(rows: seq<Row>, anchors: seq<Anchor>, ids: seq<Id>, c: nat)
    requires ids != [] && RangeIsAnchored(anchors, Max(ids)) && c <= |rows|
    requires var blanked := BlankRows(rows, ids);
             Before(blanked, Min(ids)) == rows[..c] && Select(blanked, Some(Min(ids)), None) == blanked[c..]
    ensures var relinked := Relink(Tip(rows[..c]), BlankRows(rows, ids)[c..]);
            Summarize(rows, anchors, ids)
            == Summary(if relinked.ok then Ok(|ids|) else Err(SchemaViolation), rows[..c] + relinked.rows)
  {
  }

  /**
   From a valid chain, a summary that passes the gate succeeds exactly when every row named can be
   blanked within the codec's bound, and relinking from the earliest of them then equals
   rebuilding the whole table.
   */
  lemma {:induction false} SummarizeIsRebuild(rows: seq<Row>, anchors: seq<Anchor>, ids: seq<Id>)
    requires Sorted(rows) && Chained(None, rows)
    requires ids != [] && RangeIsAnchored(anchors, Max(ids))
    ensures Summarize(rows, anchors, ids).result == if CanSummarize(rows, ids) then Ok(|ids|) else Err(SchemaViolation)
    ensures CanSummarize(rows, ids) ==> Summarize(rows, anchors, ids).rows == Build(None, BlankEntries(Entries(rows), ids))
  {
    var c := CutAt(rows, Min(ids));
    SummaryCut(rows, ids, c);
    SummarizeAtCut(rows, anchors, ids, c);
    RelinkedIsRebuild(rows, ids, c) by {
      assert forall i :: 0 <= i < c ==> BlankRows(rows, ids)[i] == rows[i];
    }
  }

  /** Relinking the blanked tail onto the head is rebuilding the whole. */
  lemma {:induction false} RelinkedIsRebuild(rows: seq<Row>, ids: seq<Id>, c: nat)
    requires Chained(None, rows) && c <= |rows| && forall i :: 0 <= i < c ==> BlankRows(rows, ids)[i] == rows[i]
    ensures var relinked := Relink(Tip(rows[..c]), BlankRows(rows, ids)[c..]);
            && (relinked.ok <==> CanSummarize(rows, ids))
            && (relinked.ok ==> rows[..c] + relinked.rows == Build(None, BlankEntries(Entries(rows), ids)))
  {
    var head, tail := rows[..c], BlankRows(rows, ids)[c..];
    ChainedIsBuilt(None, rows);
    assert BlankRows(rows, ids)[..c] == head;
    BlankedInTwo(rows, ids, c);
    BlankingKeepsEncodableIff(rows, ids);
    HeadIsChained(rows, c);
    BuildOnto(head, Entries(tail));
    RelinkIsBuildIff(Tip(head), tail);
  }

  /** Rows are determined by the entries up to them. */
  lemma {:induction false} BuildAgreesOnPrefix(es: seq<Entry>, fs: seq<Entry>, c: nat)
    requires c <= |es| && c <= |fs| && es[..c] == fs[..c]
    ensures Build(None, es)[..c] == Build(None, fs)[..c]
  {
    assert es == es[..c] + es[c..] && fs == fs[..c] + fs[c..];
    BuildConcat(None, es[..c], es[c..]);
    BuildConcat(None, fs[..c], fs[c..]);
  }

  /** Blanking an ordered, chained table and rebuilding it gives an ordered, chained table. */
  lemma {:induction false} RebuildIsChained(rows: seq<Row>, ids: seq<Id>)
    requires Sorted(rows) && Chained(None, rows) && CanSummarize(rows, ids)
    ensures var after := Build(None, BlankEntries(Entries(rows), ids));
            Sorted(after) && Chained(None, after) && Entries(after) == BlankEntries(Entries(rows), ids)
  {
    var entries := BlankEntries(Entries(rows), ids);
    var after := Build(None, entries);
    assert AllEncodable(entries) by {
      ChainedIsBuilt(None, rows);
      BlankingKeepsEncodableIff(rows, ids);
    }
    BuiltIsChained(entries);
    forall i | 0 <= i < |rows| ensures after[i].entry.id == rows[i].entry.id {
      assert after[i].entry == BlankEntry(rows[i].entry, ids);
    }
  }

  lemma {:induction false} BuiltIsChained(entries: seq<Entry>)
    requires AllEncodable(entries)
    ensures Entries(Build(None, entries)) == entries && Chained(None, Build(None, entries))
  {
    assert Entries(Build(None, entries)) == entries;
    ChainedIsBuilt(None, Build(None, entries));
  }

  /**
   A summary of a valid chain that succeeds leaves a valid chain, blanks exactly the detail of the
   rows named, and touches no stored hash before the earliest of them.
   */
  lemma {:induction false} SummarizeKeepsChain(rows: seq<Row>, anchors: seq<Anchor>, ids: seq<Id>)
    requires Sorted(rows) && Chained(None, rows) && CanSummarize(rows, ids)
    requires ids != [] && RangeIsAnchored(anchors, Max(ids))
    ensures var s := Summarize(rows, anchors, ids);
            && s.result == Ok(|ids|)
            && Sorted(s.rows) && Chained(None, s.rows)
            && Entries(s.rows) == BlankEntries(Entries(rows), ids)
            && forall i :: 0 <= i < |rows| && rows[i].entry.id < Min(ids) ==> s.rows[i] == rows[i]
  {
    SummarizeIsRebuild(rows, anchors, ids);
    RebuildIsChained(rows, ids);
    RebuildKeepsHead(rows, ids, CutAt(rows, Min(ids)));
  }

  lemma {:induction false} RebuildKeepsHead(rows: seq<Row>, ids: seq<Id>, c: nat)
    requires Chained(None, rows) && ids != [] && c <= |rows|
    requires forall i :: 0 <= i < c ==> rows[i].entry.id < Min(ids)
    ensures forall i :: 0 <= i < c ==> Build(None, BlankEntries(Entries(rows), ids))[i] == rows[i]
  {
    var entries := BlankEntries(Entries(rows), ids);
    ChainedIsBuilt(None, rows);
    assert forall i :: 0 <= i < c ==> entries[i] == Entries(rows)[i];
    assert entries[..c] == Entries(rows)[..c];
    BuildAgreesOnPrefix(entries, Entries(rows), c);
    var after := Build(None, entries);
    forall i | 0 <= i < c ensures after[i] == rows[i] {
      assert after[i] == after[..c][i] && rows[i] == rows[..c][i];
    }
  }

  lemma {:induction false} BlankTwice(entries: seq<Entry>, a: seq<Id>, b: seq<Id>)
    ensures BlankEntries(BlankEntries(entries, a), b) == BlankEntries(entries, a + b)
  {
    var twice, both := BlankEntries(BlankEntries(entries, a), b), BlankEntries(entries, a + b);
    forall i | 0 <= i < |entries| ensures twice[i] == both[i] {
      assert entries[i].id in a + b <==> entries[i].id in a || entries[i].id in b;
    }
  }

  /** Rows can be blanked after others exactly when they can be before. */
  lemma {:induction false} CanSummarizeAfter(rows: seq<Row>, once: seq<Row>, a: seq<Id>, b: seq<Id>)
    requires Entries(once) == BlankEntries(Entries(rows), a)
    ensures CanSummarize(once, b) <==> CanSummarize(rows, b)
  {
    assert |once| == |Entries(once)| == |rows|;
    forall i | 0 <= i < |rows|
      ensures once[i].entry.id == rows[i].entry.id && (CanBlank(once[i].entry) <==> CanBlank(rows[i].entry))
    {
      assert Entries(once)[i] == BlankEntries(Entries(rows), a)[i];
      assert Blank(Blank(rows[i].entry)) == Blank(rows[i].entry);
    }
  }

  lemma {:induction false} CanSummarizeBoth(rows: seq<Row>, a: seq<Id>, b: seq<Id>)
    ensures CanSummarize(rows, a + b) <==> CanSummarize(rows, a) && CanSummarize(rows, b)
  {
    assert forall id :: id in a + b <==> id in a || id in b;
  }

  /** Summarizing twice, by two lists of ids, is summarizing once by both: it succeeds alike and leaves the same. */
  lemma {:induction false} SummariesCompose(rows: seq<Row>, anchors: seq<Anchor>, a: seq<Id>, b: seq<Id>)
    requires Sorted(rows) && Chained(None, rows) && a != [] && b != []
    requires RangeIsAnchored(anchors, Max(a)) && RangeIsAnchored(anchors, Max(b))
    ensures var once, both := Summarize(rows, anchors, a), Summarize(rows, anchors, a + b);
            && (both.result.Ok? <==> once.result.Ok? && Summarize(once.rows, anchors, b).result.Ok?)
            && (both.result.Ok? ==> Summarize(once.rows, anchors, b).rows == both.rows)
  {
    var once := Summarize(rows, anchors, a).rows;
    SummarizeIsRebuild(rows, anchors, a);
    CanSummarizeBoth(rows, a, b);
    assert Max(a + b) in a || Max(a + b) in b;
    SummarizeIsRebuild(rows, anchors, a + b);
    if CanSummarize(rows, a) {
      SummarizeKeepsChain(rows, anchors, a);
      CanSummarizeAfter(rows, once, a, b);
      SummarizeIsRebuild(once, anchors, b);
      BlankTwice(Entries(rows), a, b);
    }
  }

  /** Summarizing again by the same ids changes nothing. */
  lemma {:induction false} SummarizeIsIdempotent(rows: seq<Row>, anchors: seq<Anchor>, ids: seq<Id>)
    requires Sorted(rows) && Chained(None, rows) && Summarize(rows, anchors, ids).result != Err(SchemaViolation)
    ensures var once := Summarize(rows, anchors, ids); Summarize(once.rows, anchors, ids) == once
  {
    if ids != [] && RangeIsAnchored(anchors, Max(ids)) {
      var once := Summarize(rows, anchors, ids).rows;
      SummarizeIsRebuild(rows, anchors, ids);
      SummarizeKeepsChain(rows, anchors, ids);
      CanSummarizeAfter(rows, once, ids, ids);
      SummarizeIsRebuild(once, anchors, ids);
      BlankAgain(Entries(rows), ids);
    }
  }

  lemma {:induction false} BlankAgain(entries: seq<Entry>, ids: seq<Id>)
    ensures BlankEntries(BlankEntries(entries, ids), ids) == BlankEntries(entries, ids)
  {
  }

  /** The ids of a table. */
  function Ids(rows: seq<Row>): set<Id> {
    set r | r in rows :: r.entry.id
  }

  function ToSet(ids: seq<Id>): set<Id> {
    set i | i in ids
  }

  lemma {:induction false} SetSize(ids: seq<Id>)
    ensures |ToSet(ids)| <= |ids|
    ensures |ToSet(ids)| == |ids| <==> forall i, j :: 0 <= i < j < |ids| ==> ids[i] != ids[j]
  {
    if ids != [] {
      SetSize(ids[1..]);
      assert ToSet(ids) == {ids[0]} + ToSet(ids[1..]);
      if ids[0] in ids[1..] {
        assert ToSet(ids) == ToSet(ids[1..]);
        var j :| 0 <= j < |ids[1..]| && ids[1..][j] == ids[0];
        assert ids[0] == ids[j + 1];
      } else {
        assert forall j :: 1 <= j < |ids| ==> ids[j] == ids[1..][j - 1];
      }
    }
  }

  /** The rows that a list of ids names. */
  function NamedRows(rows: seq<Row>, ids: seq<Id>): seq<Row> {
    Filter(rows, (r: Row) => r.entry.id in ids)
  }

  lemma {:induction false} NamedSize(rows: seq<Row>, ids: seq<Id>)
    requires Sorted(rows)
    ensures |NamedRows(rows, ids)| == |Ids(rows) * ToSet(ids)|
  {
    if rows == [] {
      assert Ids(rows) * ToSet(ids) == {};
    } else {
      FirstIdIsNew(rows);
      NamedSize(rows[1..], ids);
      NamedFirst(rows, ids);
      HitsFirst(Ids(rows[1..]), rows[0].entry.id, ToSet(ids));
    }
  }

  lemma {:induction false} NamedFirst(rows: seq<Row>, ids: seq<Id>)
    requires rows != []
    ensures |NamedRows(rows, ids)| == |NamedRows(rows[1..], ids)| + if rows[0].entry.id in ids then 1 else 0
  {
  }

  lemma HitsFirst(others: set<Id>, id: Id, wanted: set<Id>)
    requires id !in others
    ensures |({id} + others) * wanted| == |others * wanted| + if id in wanted then 1 else 0
  {
    if id in wanted {
      assert ({id} + others) * wanted == {id} + others * wanted;
    } else {
      assert ({id} + others) * wanted == others * wanted;
    }
  }

  lemma {:induction false} FirstIdIsNew(rows: seq<Row>)
    requires rows != [] && Sorted(rows)
    ensures Sorted(rows[1..]) && rows[0].entry.id !in Ids(rows[1..]) && Ids(rows) == {rows[0].entry.id} + Ids(rows[1..])
  {
    assert rows == [rows[0]] + rows[1..];
    forall r | r in rows[1..] ensures rows[0].entry.id < r.entry.id {
      var i :| 0 <= i < |rows[1..]| && rows[1..][i] == r;
      assert rows[i + 1] == r;
    }
  }

  /**
   A passed summary returns the length of the list given. That is the number of rows it blanks
   exactly when the list repeats no id and names only rows of the table.
   */
  lemma {:induction false} SummaryCountsRowsIff(rows: seq<Row>, anchors: seq<Anchor>, ids: seq<Id>)
    requires Sorted(rows) && Summarize(rows, anchors, ids).result.Ok?
    ensures Summarize(rows, anchors, ids).result == Ok(|NamedRows(rows, ids)|)
       <==> (forall i, j :: 0 <= i < j < |ids| ==> ids[i] != ids[j]) && (forall id :: id in ids ==> id in Ids(rows))
  {
    PassedReturnsLength(rows, anchors, ids);
    NamedSize(rows, ids);
    HitsAllIff(Ids(rows), ids);
  }

  lemma {:induction false} PassedReturnsLength(rows: seq<Row>, anchors: seq<Anchor>, ids: seq<Id>)
    requires Summarize(rows, anchors, ids).result.Ok?
    ensures Summarize(rows, anchors, ids).result == Ok(|ids|)
  {
  }

  /** A list has as many ids as it hits exactly when it repeats none and hits with each. */
  lemma {:induction false} HitsAllIff(present: set<Id>, ids: seq<Id>)
    ensures |ids| == |present * ToSet(ids)|
       <==> (forall i, j :: 0 <= i < j < |ids| ==> ids[i] != ids[j]) && (forall id :: id in ids ==> id in present)
  {
    SetSize(ids);
    var hit := present * ToSet(ids);
    if forall id :: id in ids ==> id in present {
      assert hit == ToSet(ids);
    } else {
      var id :| id in ids && id !in present;
      assert hit <= ToSet(ids) && id in ToSet(ids) && id !in hit;
      SubsetSize(hit, ToSet(ids));
    }
  }

  /** A row named twice is counted twice. */
  lemma {:induction false} RepeatedIdIsCountedTwice(rows: seq<Row>, anchors: seq<Anchor>, id: Id)
    requires Sorted(rows) && id in Ids(rows) && Summarize(rows, anchors, [id, id]).result.Ok?
    ensures Summarize(rows, anchors, [id, id]).result == Ok(2) && |NamedRows(rows, [id, id])| == 1
  {
    PassedReturnsLength(rows, anchors, [id, id]);
    NamedSize(rows, [id, id]);
    assert Ids(rows) * ToSet([id, id]) == {id};
  }

  /** What a call returns and leaves: nothing to do, a refusal, or a summary. */
  ghost predicate IsOutcome(rows: seq<Row>, anchors: seq<Anchor>, ids: seq<Id>, s: Summary) {
    if ids == [] then s == Summary(Ok(0), rows)
    else if forall i :: 0 <= i < |anchors| ==> exists id :: id in ids && anchors[i].rangeEnd < id then
      s == Summary(Err(Unanchored), rows)
    else
      && s.result in {Ok(|ids|), Err(SchemaViolation)}
      && IsSummaryOf(rows, s.rows, ids, s.result.Ok?)
      && (Chained(None, rows) ==>
            && (s.result.Ok? <==> forall r :: r in rows && r.entry.id in ids ==> CanBlank(r.entry))
            && (s.result.Ok? ==> Chained(None, s.rows)))
  }

  lemma {:induction false} SummarizeIsOutcome(rows: seq<Row>, anchors: seq<Anchor>, ids: seq<Id>)
    requires Sorted(rows)
    ensures IsOutcome(rows, anchors, ids, Summarize(rows, anchors, ids))
  {
    if ids != [] {
      UnanchoredIff(rows, anchors, ids);
      if RangeIsAnchored(anchors, Max(ids)) {
        SummarizeLeaves(rows, anchors, ids);
        if Chained(None, rows) {
          SummarizeIsRebuild(rows, anchors, ids);
          if CanSummarize(rows, ids) {
            SummarizeKeepsChain(rows, anchors, ids);
          }
        }
      }
    }
  }

  // ------------------------------------------------------------------- a row that cannot be blanked

  /** An entry with empty details, and so long an actor that its record takes all the bytes there may be. */
  const FULL_NAME_LENGTH := MAX_DOCUMENT_BYTES - 147
  const FULL := Entry(1, 0, Instant(0, 0, 0), seq(FULL_NAME_LENGTH, _ => 'x'), "a", None, "mcp", Some(map[]), Some(map[]))

  lemma PlainSize(e: Entry)
    requires e.actorSeq == 0 && e.createdAt == Instant(0, 0, 0) && e.objectRef.None?
    requires e.before == Some(map[]) && e.after == Some(map[])
    requires forall s, i | s in {e.actorId, e.action, e.source} && 0 <= i < |s| :: IsPlain(s[i])
    ensures RecordSize(ChainRecord(e)) == 143 + |e.actorId| + |e.action| + |e.source|
  {
    RecordSizeIs(ChainRecord(e));
    PlainQuoted(e.actorId);
    PlainQuoted(e.action);
    PlainQuoted(e.source);
    DetailSize(Some(map[]));
  }

  lemma FullSize()
    ensures RecordSize(ChainRecord(FULL)) == MAX_DOCUMENT_BYTES
  {
    assert |"a"| == 1 && |"mcp"| == 3;
    PlainSize(FULL);
  }

  lemma FullCannotBeBlanked()
    ensures Encodable(ChainRecord(FULL)) && !CanBlank(FULL)
  {
    FullSize();
    DetailSize(Some(map[]));
    BlankedSize(FULL);
  }

  /** Written and anchored, it makes every summary that names it fail, because `null` is longer than `{}`. */
  lemma {:induction false} EmptyDetailCannotBeBlanked(anchors: seq<Anchor>)
    requires RangeIsAnchored(anchors, 1)
    ensures NewRow([], FULL).Ok?
    ensures Summarize([NewRow([], FULL).value], anchors, [1]).result == Err(SchemaViolation)
  {
    FullCannotBeBlanked();
    assert !IsSpace(FULL.actorId[0]) && !IsSpace("a"[0]);
    var row := NewRow([], FULL).value;
    assert Chained(None, [row]) by {
      assert [row][1..] == [];
    }
    assert Max([1]) == 1 && row in [row];
    SummarizeIsRebuild([row], anchors, [1]);
  }

  lemma SubsetSize(a: set<Id>, b: set<Id>)
    requires a < b
    ensures |a| < |b|
  {
    assert b == a + (b - a);
  }
}
