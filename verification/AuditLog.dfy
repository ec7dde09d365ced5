/**
 The audit log as the program runs it: a table and a list of anchors that the
 operations update in place. What each operation leaves is tied to the functions of
 `AuditChain` and `AuditRetention`, whose properties are proved there and in `AuditRuns`.
 */
module AuditLog {
  import opened Wrappers
  import opened Text
  import opened AuditChain
  import opened AuditWindow
  import opened AuditRetention
  import Merkle

  /** A write is attributed: some actor does something with a name that fits its column, and it comes from one of four sources. */
  predicate IsAttributed(actorId: string, action: string, source: string) {
    && !IsBlank(actorId) && !IsBlank(action) && |action| <= 64
    && (source == "app" || source == "cli" || source == "mcp" || source == "sync")
  }

  /** The error tells the first thing that is missing. */
  ghost predicate IsRefusal(r: Result<Row, AuditError>, actorId: string, action: string, source: string) {
    && (r == Err(MissingActor) <==> IsBlank(actorId))
    && (r == Err(MissingAction) <==> !IsBlank(actorId) && IsBlank(action))
    && (r == Err(ActionTooLong) <==> !IsBlank(actorId) && !IsBlank(action) && |action| > 64)
    && (r == Err(UnknownSource) <==>
          && !IsBlank(actorId) && !IsBlank(action) && |action| <= 64
          && source != "app" && source != "cli" && source != "mcp" && source != "sync")
    && (r.Err? ==> r.error in {MissingActor, MissingAction, ActionTooLong, UnknownSource, AuditError.SchemaViolation})
  }

  class AuditLog {
    /** `audit_events`, in id order. */
    var rows: seq<Row>
    /** `audit_anchors`, in the order they were made. */
    var anchors: seq<Anchor>

    ghost predicate Valid()
      reads this
    {
      Sorted(rows)
    }

    /** The id is larger than all there are, as a new ULID is. */
    ghost predicate Fresh(id: Id)
      reads this
    {
      forall i :: 0 <= i < |rows| ==> rows[i].entry.id < id
    }

    constructor ()
      ensures Valid() && rows == [] && anchors == []
    {
      rows, anchors := [], [];
    }

    /** Appends one attributed row linked to the tip, or refuses it and appends nothing. */
    method Write(id: Id, actorId: string, action: string, source: string, objectRef: Option<string>,
                 before: Option<Snapshot>, after: Option<Snapshot>, now: Instant)
      returns (r: Result<Row, AuditError>)
      requires Valid() && Fresh(id)
      modifies this`rows
      ensures Valid()
      ensures r == NewRow(old(rows), Entry(id, 0, now, actorId, action, objectRef, source, before, after))
      ensures rows == if r.Ok? then old(rows) + [r.value] else old(rows)
      ensures r.Ok? ==> Chained(Tip(old(rows)), [r.value]) && (Chained(None, old(rows)) ==> Chained(None, rows))
      ensures IsRefusal(r, actorId, action, source)
      ensures var entry := Entry(id, 0, now, actorId, action, objectRef, source, before, after);
              && (r.Ok? <==> && IsAttributed(actorId, action, source)
                             && Encodable(ChainRecord(entry)) && WellSpelled(Tip(old(rows))))
              && (r.Ok? ==> r.value.entry == entry && IsLinked(Tip(old(rows)), r.value))
    {
      if IsBlank(actorId) { return Err(MissingActor); }
      if IsBlank(action) { return Err(MissingAction); }
      if |action| > ACTION_MAX_LENGTH { return Err(ActionTooLong); }
      if source !in SOURCES { return Err(UnknownSource); }
      var entry := Entry(id, 0, now, actorId, action, objectRef, source, before, after);
      var linked := ChainHash(Tip(rows), ChainRecord(entry));
      if linked.Err? { return Err(linked.error); }
      var row := Row(entry, Some(linked.value));
      ChainedConcat(None, rows, [row]);
      rows := rows + [row];
      return Ok(row);
    }

    /** Walks a window in id order and reports the first break. */
    method VerifyChain(start: Option<Id>, end: Option<Id>, expectedTip: Option<Link>)
      returns (r: Result<Verification, AuditError>)
      ensures r == Verify(rows, start, end, expectedTip)
      ensures Valid() ==> exists lo, hi :: IsWindow(rows, start, end, lo, hi)
                            && IsVerdict(Tip(rows[..lo]), rows[lo..hi], expectedTip, r)
    {
      if Valid() {
        ghost var lo, hi := WindowBetween(rows, start, end);
        VerifyAnswers(rows, start, end, expectedTip, lo, hi);
      }
      var previous: Option<Link> := if start.Some? then Tip(Before(rows, start.value)) else None;
      var window := Select(rows, start, end);
      var lastId: Option<Id> := None;
      for i := 0 to |window|
        invariant Walk(previous, window[i..], lastId, expectedTip) == Verify(rows, start, end, expectedTip)
      {
        var row := window[i];
        assert window[i..][0] == row && window[i..][1..] == window[i + 1..];
        if row.chainHash.None? { return Ok(Verification(false, ChainUnchained, Some(row.entry.id))); }
        var link := ChainHash(previous, ChainRecord(row.entry));
        if link.Err? { return Err(link.error); }
        if link.value != row.chainHash.value { return Ok(Verification(false, ChainTampered, Some(row.entry.id))); }
        previous, lastId := row.chainHash, Some(row.entry.id);
      }
      if expectedTip.Some? && previous != expectedTip { return Ok(Verification(false, ChainTruncated, lastId)); }
      if lastId.None? { return Ok(Verification(true, ChainEmpty, None)); }
      return Ok(Verification(true, ChainOk, lastId));
    }

    /** The records of the rows, unless one of them cannot be a leaf. */
    static method CollectLeaves(window: seq<Row>) returns (r: Result<seq<Record>, AuditError>)
      ensures r == if LeafError(window).Some? then Err(LeafError(window).value) else Ok(Records(window))
    {
      var leaves: seq<Record> := [];
      for i := 0 to |window|
        invariant leaves == Records(window[..i])
        invariant LeafError(window) == LeafError(window[i..])
      {
        assert window[i..][1..] == window[i + 1..];
        if window[i].chainHash.None? { return Err(UnchainedRow(window[i].entry.id)); }
        if !Encodable(ChainRecord(window[i].entry)) { return Err(SchemaViolation); }
        leaves := leaves + [ChainRecord(window[i].entry)];
      }
      assert window[..|window|] == window;
      return Ok(leaves);
    }

    /** Folds a window into one Merkle anchor and stores it. */
    method Anchor(actorId: string, start: Option<Id>, end: Option<Id>, pin: Option<Pin>, now: Instant)
      returns (r: Result<Anchor, AuditError>)
      modifies this`anchors
      ensures r == MakeAnchor(rows, actorId, start, end, pin, now)
      ensures anchors == if r.Ok? then old(anchors) + [r.value] else old(anchors)
      ensures Valid() ==> exists lo, hi :: IsWindow(rows, start, end, lo, hi) && IsAnchorOf(rows[lo..hi], actorId, pin, now, r)
      ensures Valid() && r.Ok? ==>
                && (start.Some? ==> start.value <= r.value.rangeStart) && (end.Some? ==> r.value.rangeEnd <= end.value)
                && r.value.treeSize == |set row | row in rows && r.value.rangeStart <= row.entry.id <= r.value.rangeEnd|
    {
      if Valid() {
        ghost var lo, hi := WindowBetween(rows, start, end);
        AnchorIsOfWindow(rows, actorId, start, end, pin, now, lo, hi);
        if MakeAnchor(rows, actorId, start, end, pin, now).Ok? {
          AnchorWithinBounds(rows, actorId, start, end, pin, now);
        }
      }
      var window := Select(rows, start, end);
      if window == [] { return Err(EmptyRange); }
      var leaves := CollectLeaves(window);
      if leaves.Err? { return Err(leaves.error); }
      var root := Merkle.MerkleRoot(leaves.value);
      var externalPin := if pin.Some? then pin.value(root) else None;
      var last := window[|window| - 1];
      MakeAnchorOf(rows, actorId, start, end, pin, now, window, last, root);
      var anchor := AuditRetention.Anchor(actorId, window[0].entry.id, last.entry.id, root, |window|,
                                          last.chainHash.value, externalPin, now);
      anchors := anchors + [anchor];
      return Ok(anchor);
    }

    /** Blanks the detail of the rows named and relinks from the earliest of them to the tip, in place. */
    method SummarizeRows(ids: seq<Id>) returns (r: Result<nat, AuditError>)
      requires Valid()
      modifies this`rows
      ensures Summary(r, rows) == Summarize(old(rows), anchors, ids)
      ensures Valid() && IsOutcome(old(rows), anchors, ids, Summary(r, rows))
    {
      SummarizeIsOutcome(rows, anchors, ids);
      if ids == [] { return Ok(0); }
      if !RangeIsAnchored(anchors, Max(ids)) { return Err(Unanchored); }
      BlankingCuts(rows, ids);
      rows := BlankRows(rows, ids);
      var head := Before(rows, Min(ids));
      var linked := RelinkFrom(|head|, Tip(head));
      return if linked then Ok(|ids|) else Err(SchemaViolation);
    }

    /** Relinks the rows from position `c` on, in place, until one cannot be linked. */
    method RelinkFrom(c: nat, seed: Option<Link>) returns (ok: bool)
      requires Valid() && c <= |rows|
      modifies this`rows
      ensures rows == old(rows)[..c] + Relink(seed, old(rows)[c..]).rows && ok == Relink(seed, old(rows)[c..]).ok
      ensures Valid()
    {
      ghost var target, done := rows[..c] + Relink(seed, rows[c..]).rows, Relink(seed, rows[c..]).ok;
      RelinkKeepsOrder(rows, c, seed);
      var previous, i := seed, c;
      while i < |rows|
        invariant i <= |rows|
        invariant rows[..i] + Relink(previous, rows[i..]).rows == target
        invariant Relink(previous, rows[i..]).ok == done
      {
        var link := ChainHash(previous, ChainRecord(rows[i].entry));
        if link.Err? {
          RelinkStops(rows, i, previous);
          return false;
        }
        RelinkAdvances(rows, i, previous);
        rows := rows[i := Row(rows[i].entry, Some(link.value))];
        previous := Some(link.value);
        i := i + 1;
      }
      assert rows[..i] == rows;
      return true;
    }
  }

  /** The blanked table is ordered, and is the rows before the earliest id followed by the rows from it on. */
  lemma {:induction false} BlankingCuts(rows: seq<Row>, ids: seq<Id>)
    requires Sorted(rows) && ids != []
    ensures var blanked := BlankRows(rows, ids);
            && Sorted(blanked)
            && |Before(blanked, Min(ids))| <= |blanked|
            && blanked[..|Before(blanked, Min(ids))|] == Before(blanked, Min(ids))
            && blanked[|Before(blanked, Min(ids))|..] == Select(blanked, Some(Min(ids)), None)
  {
    SummaryCut(rows, ids, CutAt(rows, Min(ids)));
  }

  /** Storing the next link does not change what relinking will have produced. */
  lemma {:induction false} RelinkAdvances(rows: seq<Row>, i: nat, previous: Option<Link>)
    requires i < |rows| && ChainHash(previous, ChainRecord(rows[i].entry)).Ok?
    ensures var link := ChainHash(previous, ChainRecord(rows[i].entry)).value;
            var after := rows[i := Row(rows[i].entry, Some(link))];
            && rows[..i] + Relink(previous, rows[i..]).rows == after[..i + 1] + Relink(Some(link), after[i + 1..]).rows
            && Relink(previous, rows[i..]).ok == Relink(Some(link), after[i + 1..]).ok
  {
    assert rows[i..][1..] == rows[i + 1..];
  }

  lemma {:induction false} RelinkStops(rows: seq<Row>, i: nat, previous: Option<Link>)
    requires i < |rows| && ChainHash(previous, ChainRecord(rows[i].entry)).Err?
    ensures rows[..i] + Relink(previous, rows[i..]).rows == rows && !Relink(previous, rows[i..]).ok
  {
  }

  lemma {:induction false} RelinkKeepsOrder(rows: seq<Row>, c: nat, previous: Option<Link>)
    requires Sorted(rows) && c <= |rows|
    ensures Sorted(rows[..c] + Relink(previous, rows[c..]).rows)
  {
    RelinkLinks(previous, rows[c..]);
    var linked := rows[..c] + Relink(previous, rows[c..]).rows;
    assert forall i :: 0 <= i < |rows| ==> linked[i].entry == rows[i].entry;
  }
}
