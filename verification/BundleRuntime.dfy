/** A runtime's log as export reads it and import appends to it. */
module BundleRuntime {
  import opened Wrappers
  import opened Text
  import opened SyncEvents
  import opened Sequences
  import opened EventStore
  import opened Bundle
  import opened BundleRoundTrip
  import opened BundleTrust

  lemma {:induction false} EncodeAllLast(p: Platform, events: seq<Event>, last: Event)
    ensures EncodeAll(p, events + [last]) ==
            if EncodeAll(p, events).Some? && p.encode(last).Some?
            then Some(EncodeAll(p, events).value + [p.encode(last).value]) else None
  {
    if events == [] {
      assert events + [last] == [last] && [last][1..] == [];
      assert EncodeAll(p, [last][1..]) == Some([]);
      var end := p.encode(last);
      assert end.Some? ==> [end.value] + [] == [] + [end.value];
    } else {
      assert (events + [last])[1..] == events[1..] + [last];
      EncodeAllLast(p, events[1..], last);
      var first, rest, end := p.encode(events[0]), EncodeAll(p, events[1..]), p.encode(last);
      if first.Some? && rest.Some? && end.Some? {
        assert [first.value] + (rest.value + [end.value]) == [first.value] + rest.value + [end.value];
      }
    }
  }

  /** Once an event cannot be encoded, no longer list of events can. */
  lemma {:induction false} EncodeAllPrefix(p: Platform, xs: seq<Event>, ys: seq<Event>)
    requires EncodeAll(p, xs).None?
    ensures EncodeAll(p, xs + ys).None?
  {
    if xs != [] {
      assert (xs + ys)[1..] == xs[1..] + ys;
      if p.encode(xs[0]).Some? {
        EncodeAllPrefix(p, xs[1..], ys);
      }
    }
  }

  /** The lines that an export writes for the first `i` rows of a collection. */
  function LinesUpTo(p: Platform, table: seq<StoreRow>, i: nat, since: Option<int>): Option<seq<string>>
    requires i <= |table|
  {
    EncodeAll(p, EventsOf(Filter(table[..i], r => IsTaken(r, since))))
  }

  lemma NextLine(p: Platform, table: seq<StoreRow>, i: nat, since: Option<int>, lines: seq<string>)
    requires i < |table| && LinesUpTo(p, table, i, since) == Some(lines)
    ensures LinesUpTo(p, table, i + 1, since) ==
            if !IsTaken(table[i], since) then Some(lines)
            else if p.encode(table[i].event).Some? then Some(lines + [p.encode(table[i].event).value])
            else None
    ensures HighWater(table[..i + 1]) ==
            if table[i].committedRev.Some? then Larger(HighWater(table[..i]), table[i].committedRev.value)
            else HighWater(table[..i])
  {
    var row, taken := table[i], (r: StoreRow) => IsTaken(r, since);
    var before := Filter(table[..i], taken);
    assert table[..i + 1] == table[..i] + [row] && table[..i + 1][..i] == table[..i];
    FilterConcat(table[..i], [row], taken);
    assert Filter([row], taken) == if taken(row) then [row] else [];
    if taken(row) {
      EventsOfConcat(before, [row]);
      EncodeAllLast(p, EventsOf(before), row.event);
      assert EventsOf([row]) == [row.event];
    } else {
      assert before + [] == before;
    }
  }

  lemma AllLines(p: Platform, rows: seq<StoreRow>, collection: string, since: Option<int>)
    ensures var table := CollectionRows(rows, collection);
            && LinesUpTo(p, table, |table|, since) == EncodeAll(p, Exported(rows, collection, since))
            && table[..|table|] == table
  {
    var table := CollectionRows(rows, collection);
    assert table[..|table|] == table;
  }

  class Runtime {
    var rows: seq<StoreRow>

    constructor ()
      ensures rows == []
    {
      rows := [];
    }

    /** A collection's file and its high-water revision, which counts the rows left out as well. */
    method CollectionEvents(p: Platform, collection: string, since: Option<int>) returns (result: Result<(string, int), ExportError>)
      ensures result == match EventsFile(p, rows, collection, since)
                        case Some(text) => Ok((text, HighWater(CollectionRows(rows, collection))))
                        case None => Err(SchemaViolation)
    {
      var table := CollectionRows(rows, collection);
      var high := 0;
      var lines: seq<string> := [];
      for i := 0 to |table|
        invariant high == HighWater(table[..i])
        invariant LinesUpTo(p, table, i, since) == Some(lines)
      {
        NextLine(p, table, i, since, lines);
        var row := table[i];
        if row.committedRev.Some? {
          high := Larger(high, row.committedRev.value);
        }
        if since.Some? && (row.committedRev.None? || row.committedRev.value <= since.value) {
          continue;
        }
        var line := p.encode(row.event);
        if line.None? {
          Unencodable(p, table, i + 1, since);
          AllLines(p, rows, collection, since);
          return Err(SchemaViolation);
        }
        lines := lines + [line.value];
      }
      AllLines(p, rows, collection, since);
      result := Ok((WriteLines(lines), high));
    }

    /** The export: the file of every collection, and the highest revision over all of them. */
    method BuildBundle(
        p: Platform, workspace: string, others: map<string, string>, sign: Option<Core -> string>, since: Option<int>)
        returns (result: Result<Bundle, ExportError>)
      ensures result == Export(p, rows, workspace, others, sign, since)
    {
      var files, cursor := others, 0;
      assert p.models[..|p.models|] == p.models;
      for i := 0 to |p.models|
        invariant cursor == CursorOver(rows, p.models[..i])
        invariant FilesOver(p, rows, others, p.models[..i], since) == Some(files)
      {
        NextFile(p, rows, others, p.models, i, since, files);
        var part := CollectionEvents(p, p.models[i], since);
        if part.Err? {
          UnwritableFile(p, rows, others, p.models, i + 1, since);
          return Err(part.error);
        }
        files := files[EventsPath(p.models[i]) := part.value.0];
        cursor := Larger(cursor, part.value.1);
      }
      var core := Core(workspace, since, cursor, Hashes(p, files));
      result := Ok(Bundle(core, if sign.Some? then Some(sign.value(core)) else None, files));
    }

    /** The events of one file, each decoded, passed by the gate and appended. */
    method ImportFile(p: Platform, trust: Trust, rev: int, lines: seq<string>) returns (result: Result<int, ImportError>)
      modifies this
      ensures old(rows) <= rows
      ensures match ImportLines(p, trust, Imported(old(rows), rev), lines)
              case Ok(at) => rows == at.rows && result == Ok(at.rev)
              case Err(error) => result == Err(error)
    {
      var next := rev;
      for i := 0 to |lines|
        invariant old(rows) <= rows
        invariant ImportLines(p, trust, Imported(old(rows), rev), lines)
               == ImportLines(p, trust, Imported(rows, next), lines[i..])
      {
        assert lines[i..][0] == lines[i] && lines[i..][1..] == lines[i + 1..];
        var e := p.decode(lines[i]);
        if e.None? {
          return Err(NotCanonical(lines[i]));
        }
        var refused := Gate(p, trust, e.value);
        if refused.Some? {
          return Err(refused.value);
        }
        if Clashes(EventsOf(rows), e.value) {
          return Err(IntegrityError(e.value));
        }
        next := next + 1;
        rows := rows + [StoreRow(e.value, Some(next), Committed)];
      }
      result := Ok(next);
    }

    /** The import, inside the caller's transaction: what is raised part of the way is the caller's to roll back. */
    method ImportBundle(p: Platform, bundle: Bundle) returns (result: Result<int, ImportError>)
      modifies this
      ensures old(rows) <= rows
      ensures match Import(p, bundle, old(rows))
              case Ok(at) => rows == at.rows && result == Ok(at.rev)
              case Err(error) => result == Err(error)
      ensures result.Ok? <==> IsReadable(p, bundle) && exists events :: Brings(p, bundle, old(rows), events)
      ensures result.Ok? ==> forall events :: Brings(p, bundle, old(rows), events) ==>
                rows == old(rows) + Numbered(events, 0) && result.value == |events|
    {
      ImportIff(p, bundle, rows);
      var opened_ := Open(p, bundle);
      if opened_.Err? {
        return Err(opened_.error);
      }
      var trust, collections := opened_.value, p.team(bundle.files[TEAM]);
      var rev := 0;
      for i := 0 to |collections|
        invariant old(rows) <= rows
        invariant ImportCollections(p, trust, bundle.files, Imported(old(rows), 0), collections)
               == ImportCollections(p, trust, bundle.files, Imported(rows, rev), collections[i..])
      {
        assert collections[i..][0] == collections[i] && collections[i..][1..] == collections[i + 1..];
        var part := ImportFile(p, trust, rev, ReadLines(FileOr(bundle.files, EventsPath(collections[i]))));
        if part.Err? {
          return Err(part.error);
        }
        rev := part.value;
      }
      result := Ok(rev);
    }
  }

  lemma Unencodable(p: Platform, table: seq<StoreRow>, i: nat, since: Option<int>)
    requires i <= |table| && LinesUpTo(p, table, i, since).None?
    ensures LinesUpTo(p, table, |table|, since).None?
  {
    var taken := (r: StoreRow) => IsTaken(r, since);
    assert table[..|table|] == table[..i] + table[i..];
    FilterConcat(table[..i], table[i..], taken);
    EventsOfConcat(Filter(table[..i], taken), Filter(table[i..], taken));
    EncodeAllPrefix(p, EventsOf(Filter(table[..i], taken)), EventsOf(Filter(table[i..], taken)));
  }

  lemma NextFile(
      p: Platform, rows: seq<StoreRow>, others: map<string, string>, collections: seq<string>, i: nat, since: Option<int>,
      files: map<string, string>)
    requires i < |collections| && FilesOver(p, rows, others, collections[..i], since) == Some(files)
    ensures var text := EventsFile(p, rows, collections[i], since);
            FilesOver(p, rows, others, collections[..i + 1], since)
            == if text.Some? then Some(files[EventsPath(collections[i]) := text.value]) else None
    ensures CursorOver(rows, collections[..i + 1])
         == Larger(CursorOver(rows, collections[..i]), HighWater(CollectionRows(rows, collections[i])))
  {
    assert collections[..i + 1][..i] == collections[..i];
  }

  lemma {:induction false} UnwritableFile(
      p: Platform, rows: seq<StoreRow>, others: map<string, string>, collections: seq<string>, i: nat, since: Option<int>)
    requires i <= |collections| && FilesOver(p, rows, others, collections[..i], since).None?
    ensures FilesOver(p, rows, others, collections, since).None?
    decreases |collections|
  {
    if i < |collections| {
      var init := collections[..|collections| - 1];
      assert init[..i] == collections[..i];
      UnwritableFile(p, rows, others, init, i, since);
    } else {
      assert collections[..i] == collections;
    }
  }
}
