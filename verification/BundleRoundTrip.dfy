/** What survives an export and an import. */
module BundleRoundTrip {
  import opened Wrappers
  import opened Text
  import opened SyncEvents
  import opened Sequences
  import opened EventStore
  import opened Bundle

  // --------------------------------------------------------------------- keys stay distinct

  lemma {:induction false} DistinctAreApart(events: seq<Event>, e: Event, f: Event)
    requires DistinctKeys(events) && e in events && f in events && e != f
    ensures !Clash(e, f)
  {
    assert events == [events[0]] + events[1..];
    if e != events[0] && f != events[0] {
      DistinctAreApart(events[1..], e, f);
    } else if e == events[0] {
      assert f in events[1..] && !Clash(f, e);
    }
  }

  predicate Apart(xs: seq<Event>, ys: seq<Event>) {
    forall x, y :: x in xs && y in ys ==> !Clash(x, y)
  }

  lemma {:induction false} ConcatDistinct(xs: seq<Event>, ys: seq<Event>)
    requires DistinctKeys(xs) && DistinctKeys(ys) && Apart(xs, ys)
    ensures DistinctKeys(xs + ys)
  {
    if xs == [] {
      assert xs + ys == ys;
    } else {
      assert xs[0] in xs && forall x :: x in xs[1..] ==> x in xs;
      ConcatDistinct(xs[1..], ys);
      assert (xs + ys)[1..] == xs[1..] + ys;
      assert forall f :: f in xs[1..] + ys <==> f in xs[1..] || f in ys;
    }
  }

  lemma {:induction false} InsertEvents(x: StoreRow, rows: seq<StoreRow>)
    ensures forall e :: e in EventsOf(Insert(x, rows)) <==> e == x.event || e in EventsOf(rows)
  {
    if rows == [] || KeyLe(x, rows[0]) {
      assert ([x] + rows)[1..] == rows;
    } else {
      var rest := Insert(x, rows[1..]);
      assert ([rows[0]] + rest)[1..] == rest;
      InsertEvents(x, rows[1..]);
    }
  }

  lemma {:induction false} InsertDistinct(x: StoreRow, rows: seq<StoreRow>)
    requires DistinctKeys(EventsOf(rows)) && !Clashes(EventsOf(rows), x.event)
    ensures DistinctKeys(EventsOf(Insert(x, rows)))
  {
    if rows == [] || KeyLe(x, rows[0]) {
      assert ([x] + rows)[1..] == rows;
      assert EventsOf([x] + rows)[1..] == EventsOf(rows);
    } else {
      var rest := Insert(x, rows[1..]);
      assert ([rows[0]] + rest)[1..] == rest;
      assert EventsOf(rows) == [rows[0].event] + EventsOf(rows[1..]);
      assert EventsOf(rows)[1..] == EventsOf(rows[1..]);
      assert rows[0].event in EventsOf(rows);
      assert forall e :: e in EventsOf(rows[1..]) ==> e in EventsOf(rows);
      InsertDistinct(x, rows[1..]);
      InsertEvents(x, rows[1..]);
      assert EventsOf([rows[0]] + rest)[1..] == EventsOf(rest);
    }
  }

  lemma {:induction false} SortDistinct(rows: seq<StoreRow>)
    requires DistinctKeys(EventsOf(rows))
    ensures DistinctKeys(EventsOf(Sort(rows)))
    ensures forall e :: e in EventsOf(Sort(rows)) <==> e in EventsOf(rows)
  {
    if rows != [] {
      assert EventsOf(rows)[1..] == EventsOf(rows[1..]);
      SortDistinct(rows[1..]);
      InsertDistinct(rows[0], Sort(rows[1..]));
      InsertEvents(rows[0], Sort(rows[1..]));
    }
  }

  lemma {:induction false} FilterDistinct(rows: seq<StoreRow>, p: StoreRow -> bool)
    requires DistinctKeys(EventsOf(rows))
    ensures DistinctKeys(EventsOf(Filter(rows, p)))
    ensures forall e :: e in EventsOf(Filter(rows, p)) ==> e in EventsOf(rows)
  {
    if rows != [] {
      assert EventsOf(rows)[1..] == EventsOf(rows[1..]);
      FilterDistinct(rows[1..], p);
      var rest := Filter(rows[1..], p);
      assert ([rows[0]] + rest)[1..] == rest;
      assert EventsOf([rows[0]] + rest)[1..] == EventsOf(rest);
    }
  }

  lemma ExportedDistinct(rows: seq<StoreRow>, collection: string, since: Option<int>)
    requires DistinctKeys(EventsOf(rows))
    ensures DistinctKeys(Exported(rows, collection, since))
    ensures forall e :: e in Exported(rows, collection, since) ==> e in EventsOf(rows) && e.collection == collection
  {
    var ofCollection := (r: StoreRow) => IsLive(r) && r.event.collection == collection;
    FilterDistinct(rows, ofCollection);
    SortDistinct(Filter(rows, ofCollection));
    FilterDistinct(CollectionRows(rows, collection), r => IsTaken(r, since));
    SortIsSorted(Filter(rows, ofCollection));
    var taken := Taken(rows, collection, since);
    forall e | e in Exported(rows, collection, since) ensures e.collection == collection {
      var i :| 0 <= i < |taken| && taken[i].event == e;
      assert taken[i] in taken;
    }
  }

  /** Everything a full export takes, collection by collection. */
  function ExportedOver(rows: seq<StoreRow>, collections: seq<string>): seq<Event> {
    if collections == [] then []
    else Exported(rows, collections[0], None) + ExportedOver(rows, collections[1..])
  }

  predicate NoRepeats(names: seq<string>) {
    forall i, j :: 0 <= i < j < |names| ==> names[i] != names[j]
  }

  lemma {:induction false} ExportedOverDistinct(rows: seq<StoreRow>, collections: seq<string>)
    requires DistinctKeys(EventsOf(rows)) && NoRepeats(collections)
    ensures DistinctKeys(ExportedOver(rows, collections))
    ensures forall e :: e in ExportedOver(rows, collections) ==> e in EventsOf(rows) && e.collection in collections
  {
    if collections != [] {
      var first, rest := Exported(rows, collections[0], None), ExportedOver(rows, collections[1..]);
      ExportedDistinct(rows, collections[0], None);
      ExportedOverDistinct(rows, collections[1..]);
      forall x, y | x in first && y in rest ensures !Clash(x, y) {
        DistinctAreApart(EventsOf(rows), x, y);
      }
      ConcatDistinct(first, rest);
    }
  }

  // ----------------------------------------------------------------- what an import inserts

  /** The rows of imported events: committed, and numbered on from `rev`. */
  function Numbered(events: seq<Event>, rev: int): (rows: seq<StoreRow>)
    ensures |rows| == |events|
    ensures forall i :: 0 <= i < |events| ==> rows[i] == StoreRow(events[i], Some(rev + 1 + i), Committed)
  {
    if events == [] then [] else [StoreRow(events[0], Some(rev + 1), Committed)] + Numbered(events[1..], rev + 1)
  }

  lemma NumberedConcat(xs: seq<Event>, ys: seq<Event>, rev: int)
    ensures Numbered(xs + ys, rev) == Numbered(xs, rev) + Numbered(ys, rev + |xs|)
  {
  }

  lemma NumberedAfter(rows: seq<StoreRow>, xs: seq<Event>, ys: seq<Event>, rev: int)
    ensures rows + Numbered(xs + ys, rev) == rows + Numbered(xs, rev) + Numbered(ys, rev + |xs|)
  {
    NumberedConcat(xs, ys, rev);
    InThree(rows, Numbered(xs, rev), Numbered(ys, rev + |xs|));
  }

  lemma InThree(a: seq<StoreRow>, b: seq<StoreRow>, c: seq<StoreRow>)
    ensures a + (b + c) == a + b + c
  {
  }

  predicate AllPass(p: Platform, trust: Trust, events: seq<Event>) {
    forall e :: e in events ==> Gate(p, trust, e).None?
  }

  predicate Decoded(p: Platform, lines: seq<string>, events: seq<Event>) {
    |lines| == |events| && forall i :: 0 <= i < |lines| ==> p.decode(lines[i]) == Some(events[i])
  }

  /** What an import of lines inserts, if it inserts anything. */
  lemma {:induction false} ImportLinesInsert(p: Platform, trust: Trust, at: Imported, lines: seq<string>, events: seq<Event>)
    requires Decoded(p, lines, events)
    ensures ImportLines(p, trust, at, lines).Ok? ==>
              ImportLines(p, trust, at, lines).value == NumberedOn(at, events)
    decreases |lines|
  {
    if lines != [] {
      assert p.decode(lines[0]) == Some(events[0]);
      var row := StoreRow(events[0], Some(at.rev + 1), Committed);
      ImportLinesInsert(p, trust, Imported(at.rows + [row], at.rev + 1), lines[1..], events[1..]);
      NumberedFirst(at.rows, events, at.rev);
    }
  }

  lemma NumberedFirst(rows: seq<StoreRow>, events: seq<Event>, rev: int)
    requires events != []
    ensures rows + Numbered(events, rev)
         == rows + [StoreRow(events[0], Some(rev + 1), Committed)] + Numbered(events[1..], rev + 1)
  {
    assert Numbered(events, rev) == [StoreRow(events[0], Some(rev + 1), Committed)] + Numbered(events[1..], rev + 1);
  }

  /** Lines of distinct events are imported exactly when each passes the gate and none clashes with the store. */
  lemma {:induction false} ImportLinesExactly(p: Platform, trust: Trust, at: Imported, lines: seq<string>, events: seq<Event>)
    requires Decoded(p, lines, events) && DistinctKeys(events)
    ensures ImportLines(p, trust, at, lines).Ok? <==> AllPass(p, trust, events) && Apart(EventsOf(at.rows), events)
    decreases |lines|
  {
    if lines != [] {
      var next := Imported(at.rows + [StoreRow(events[0], Some(at.rev + 1), Committed)], at.rev + 1);
      FirstLineImports(p, trust, at, lines, events[0]);
      EventsOfAppend(at.rows, StoreRow(events[0], Some(at.rev + 1), Committed));
      ImportLinesExactly(p, trust, next, lines[1..], events[1..]);
    }
  }

  lemma FirstLineImports(p: Platform, trust: Trust, at: Imported, lines: seq<string>, e: Event)
    requires lines != [] && p.decode(lines[0]) == Some(e)
    ensures ImportLines(p, trust, at, lines).Ok? <==>
              && Gate(p, trust, e).None? && !Clashes(EventsOf(at.rows), e)
              && ImportLines(p, trust, Imported(at.rows + [StoreRow(e, Some(at.rev + 1), Committed)], at.rev + 1), lines[1..]).Ok?
  {
  }

  lemma EventsOfAppend(rows: seq<StoreRow>, row: StoreRow)
    ensures EventsOf(rows + [row]) == EventsOf(rows) + [row.event]
  {
    EventsOfConcat(rows, [row]);
  }

  lemma {:induction false} EventsOfConcat(xs: seq<StoreRow>, ys: seq<StoreRow>)
    ensures EventsOf(xs + ys) == EventsOf(xs) + EventsOf(ys)
  {
  }

  lemma {:induction false} UndecodableLineFails(p: Platform, trust: Trust, at: Imported, lines: seq<string>, line: string)
    requires line in lines && p.decode(line).None?
    ensures ImportLines(p, trust, at, lines).Err?
    decreases |lines|
  {
    if line != lines[0] {
      var e := p.decode(lines[0]);
      if e.Some? {
        var row := StoreRow(e.value, Some(at.rev + 1), Committed);
        UndecodableLineFails(p, trust, Imported(at.rows + [row], at.rev + 1), lines[1..], line);
      }
    }
  }

  // -------------------------------------------------------------------------- the event file

  /** Every event has a canonical form that stands on one line. */
  predicate OneLineEach(p: Platform, events: seq<Event>) {
    forall e :: e in events ==> p.encode(e).Some? && !HasBreak(p.encode(e).value)
  }

  lemma {:induction false} EncodedDecodes(p: Platform, events: seq<Event>)
    requires IsCanonical(p) && EncodeAll(p, events).Some?
    ensures Decoded(p, EncodeAll(p, events).value, events)
    ensures forall i :: 0 <= i < |events| ==> p.encode(events[i]) == Some(EncodeAll(p, events).value[i])
  {
    if events != [] {
      EncodedDecodes(p, events[1..]);
    }
  }

  lemma DocumentIsNotBlank(p: Platform, t: string)
    requires IsCanonical(p) && p.decode(t).Some?
    ensures !IsBlank(t)
  {
    assert !IsSpace(t[0]);
  }

  /** Of a document with a break in it, the import reads a part that is no document. */
  lemma {:induction false} BrokenLineIsRead(p: Platform, lines: seq<string>)
    requires IsCanonical(p) && forall line :: line in lines ==> p.decode(line).Some?
    requires exists line :: line in lines && HasBreak(line)
    ensures exists piece :: piece in ReadLines(WriteLines(lines)) && p.decode(piece).None?
  {
    var first, rest := lines[0], WriteLines(lines[1..]);
    assert first in lines;
    assert WriteLines(lines) == first + "\n" + rest;
    if HasBreak(first) {
      FirstPiece(first, "\n" + rest);
      assert first + "\n" + rest == first + ("\n" + rest);
      assert p.decode(first[..LineEnd(first)]).None?;
    } else {
      assert forall line :: line in lines[1..] ==> line in lines;
      BrokenLineIsRead(p, lines[1..]);
      FirstLine(first, rest);
      DocumentIsNotBlank(p, first);
      assert ReadLines(WriteLines(lines)) == [first] + ReadLines(rest);
    }
  }

  lemma FirstPiece(line: string, rest: string)
    requires HasBreak(line) && line[0] == '{'
    ensures LineEnd(line) < |line| && line[..LineEnd(line)] in ReadLines(line + rest)
  {
    LineEndOfBroken(line, rest);
    FirstPieceIsRead(line + rest, line[..LineEnd(line)]);
  }

  lemma FirstPieceIsRead(s: string, piece: string)
    requires s != "" && s[0] == '{' && piece == s[..LineEnd(s)]
    ensures piece in ReadLines(s)
  {
    assert !IsBreak('{') && !IsSpace('{');
    assert piece[0] == '{';
    assert SplitLines(s)[0] == piece;
  }

  lemma {:induction false} LineEndOfBroken(line: string, rest: string)
    requires HasBreak(line)
    ensures LineEnd(line + rest) == LineEnd(line) < |line|
  {
    if !IsBreak(line[0]) {
      assert (line + rest)[1..] == line[1..] + rest;
      var i :| 0 <= i < |line| && IsBreak(line[i]);
      assert IsBreak(line[1..][i - 1]);
      LineEndOfBroken(line[1..], rest);
    }
  }

  lemma LinesOfEvents(p: Platform, events: seq<Event>, lines: seq<string>)
    requires IsCanonical(p) && EncodeAll(p, events) == Some(lines)
    ensures forall line :: line in lines ==> p.decode(line).Some? && !IsBlank(line)
    ensures OneLineEach(p, events) <==> forall line :: line in lines ==> !HasBreak(line)
  {
    EncodedDecodes(p, events);
    forall line | line in lines
      ensures p.decode(line).Some? && !IsBlank(line) && (OneLineEach(p, events) ==> !HasBreak(line))
    {
      var i :| 0 <= i < |lines| && lines[i] == line;
      assert events[i] in events;
      DocumentIsNotBlank(p, line);
    }
    if forall line :: line in lines ==> !HasBreak(line) {
      forall e | e in events ensures p.encode(e).Some? && !HasBreak(p.encode(e).value) {
        var i :| 0 <= i < |events| && events[i] == e;
        assert lines[i] in lines;
      }
    }
  }

  /** Each event stands on one line and passes, and none clashes with the store. */
  predicate CanImport(p: Platform, trust: Trust, store: seq<Event>, events: seq<Event>) {
    OneLineEach(p, events) && AllPass(p, trust, events) && Apart(store, events)
  }

  /** The import of events: they can be, and then they are numbered on. */
  predicate Imports(p: Platform, trust: Trust, at: Imported, events: seq<Event>, result: Result<Imported, ImportError>) {
    && (result.Ok? <==> CanImport(p, trust, EventsOf(at.rows), events))
    && (result.Ok? ==> result.value == NumberedOn(at, events))
  }

  /** The store with the events appended, numbered on from where it is. */
  function NumberedOn(at: Imported, events: seq<Event>): Imported {
    Imported(at.rows + Numbered(events, at.rev), at.rev + |events|)
  }

  lemma NumberedOnInTwo(at: Imported, xs: seq<Event>, ys: seq<Event>)
    ensures NumberedOn(NumberedOn(at, xs), ys) == NumberedOn(at, xs + ys)
    ensures EventsOf(NumberedOn(at, xs).rows) == EventsOf(at.rows) + xs
  {
    NumberedAfter(at.rows, xs, ys, at.rev);
  }

  lemma CanImportInTwo(p: Platform, trust: Trust, store: seq<Event>, xs: seq<Event>, ys: seq<Event>)
    requires DistinctKeys(xs + ys)
    ensures CanImport(p, trust, store, xs + ys) <==> CanImport(p, trust, store, xs) && CanImport(p, trust, store + xs, ys)
  {
    assert forall e :: e in xs + ys <==> e in xs || e in ys;
    DistinctInTwo(xs, ys);
  }

  lemma ImportsInTwo(
      p: Platform, trust: Trust, at: Imported, xs: seq<Event>, ys: seq<Event>,
      first: Result<Imported, ImportError>, whole: Result<Imported, ImportError>)
    requires DistinctKeys(xs + ys) && Imports(p, trust, at, xs, first)
    requires if first.Err? then whole == first else Imports(p, trust, first.value, ys, whole)
    ensures Imports(p, trust, at, xs + ys, whole)
  {
    CanImportInTwo(p, trust, EventsOf(at.rows), xs, ys);
    NumberedOnInTwo(at, xs, ys);
  }

  /** A collection's file is imported exactly when each of its events stands on one line, passes and clashes with nothing. */
  lemma ImportFileExactly(p: Platform, trust: Trust, at: Imported, events: seq<Event>)
    requires IsCanonical(p) && EncodeAll(p, events).Some? && DistinctKeys(events)
    ensures Imports(p, trust, at, events, ImportLines(p, trust, at, ReadLines(WriteLines(EncodeAll(p, events).value))))
  {
    var lines := EncodeAll(p, events).value;
    EncodedDecodes(p, events);
    LinesOfEvents(p, events, lines);
    if OneLineEach(p, events) {
      ReadsBack(lines);
      ImportLinesExactly(p, trust, at, lines, events);
      ImportLinesInsert(p, trust, at, lines, events);
    } else {
      BrokenLineIsRead(p, lines);
      var piece :| piece in ReadLines(WriteLines(lines)) && p.decode(piece).None?;
      UndecodableLineFails(p, trust, at, ReadLines(WriteLines(lines)), piece);
    }
  }

  // ------------------------------------------------------------------------- the whole bundle

  predicate HoldsEvents(p: Platform, rows: seq<StoreRow>, c: string, since: Option<int>, files: map<string, string>) {
    && EventsFile(p, rows, c, since).Some?
    && EventsPath(c) in files && files[EventsPath(c)] == EventsFile(p, rows, c, since).value
  }

  lemma {:induction false} FilesOverHold(
      p: Platform, rows: seq<StoreRow>, others: map<string, string>, collections: seq<string>, since: Option<int>)
    requires FilesOver(p, rows, others, collections, since).Some?
    ensures var files := FilesOver(p, rows, others, collections, since).value;
            && (forall c :: c in collections ==> HoldsEvents(p, rows, c, since, files))
            && (forall path :: path in others && (forall c :: c in collections ==> path != EventsPath(c)) ==>
                  path in files && files[path] == others[path])
  {
    if collections != [] {
      var init, last := collections[..|collections| - 1], collections[|collections| - 1];
      FilesOverHold(p, rows, others, init, since);
      assert collections == init + [last];
      forall c | c in collections && EventsPath(c) == EventsPath(last) ensures c == last {
        EventsPathIsInjective(c, last);
      }
    }
  }

  /** The collections' files are imported exactly when every event in them does. */
  lemma {:induction false} ImportCollectionsExactly(
      p: Platform, trust: Trust, files: map<string, string>, at: Imported, rows: seq<StoreRow>, collections: seq<string>)
    requires IsCanonical(p) && DistinctKeys(ExportedOver(rows, collections))
    requires forall c :: c in collections ==> HoldsEvents(p, rows, c, None, files)
    ensures Imports(p, trust, at, ExportedOver(rows, collections), ImportCollections(p, trust, files, at, collections))
    decreases |collections|
  {
    if collections != [] {
      var c := collections[0];
      var xs, ys := Exported(rows, c, None), ExportedOver(rows, collections[1..]);
      assert HoldsEvents(p, rows, c, None, files);
      DistinctInTwo(xs, ys);
      ImportFileExactly(p, trust, at, xs);
      var first := ImportLines(p, trust, at, ReadLines(FileOr(files, EventsPath(c))));
      if first.Ok? {
        ImportCollectionsExactly(p, trust, files, first.value, rows, collections[1..]);
      }
      ImportsInTwo(p, trust, at, xs, ys, first, ImportCollections(p, trust, files, at, collections));
    }
  }

  lemma {:induction false} DistinctInTwo(xs: seq<Event>, ys: seq<Event>)
    requires DistinctKeys(xs + ys)
    ensures DistinctKeys(xs) && DistinctKeys(ys) && Apart(xs, ys)
  {
    if xs == [] {
      assert xs + ys == ys;
    } else {
      assert (xs + ys)[1..] == xs[1..] + ys;
      DistinctInTwo(xs[1..], ys);
      assert xs == [xs[0]] + xs[1..];
      forall x, y | x in xs && y in ys ensures !Clash(x, y) {
        if x == xs[0] {
          assert y in xs[1..] + ys && !Clash(y, x);
        }
      }
    }
  }

  /** A bundle of everything, as the runtime writes one. */
  ghost predicate IsFullExport(
      p: Platform, rows: seq<StoreRow>, workspace: string, others: map<string, string>, sign: Option<Core -> string>,
      bundle: Bundle)
  {
    && IsCanonical(p) && NoRepeats(p.models) && DistinctKeys(EventsOf(rows))
    && TEAM in others && ACTORS in others && p.team(others[TEAM]) == p.models
    && Export(p, rows, workspace, others, sign, None) == Ok(bundle)
  }

  /** Two names of the list differ in length or in their first letter. */
  lemma SyncableNamesDiffer()
    ensures NoRepeats(SYNCABLE)
  {
    var marks := [(15, 'a'), (17, 'c'), (8, 'c'), (16, 'c'), (7, 'd'), (10, 'f'), (7, 'm'), (14, 'm'), (12, 'm'), (10, 'm'),
                  (8, 'p'), (17, 't'), (20, 't'), (7, 't'), (10, 'w')];
    assert forall i :: 0 <= i < |SYNCABLE| ==> (|SYNCABLE[i]|, SYNCABLE[i][0]) == marks[i];
    assert forall i, j :: 0 <= i < j < |marks| ==> marks[i] != marks[j];
  }
}
