/** What an export holds: the files, what is written in them, and what the manifest says of them. */
module BundleContents {
  import opened Wrappers
  import opened Text
  import opened SyncEvents
  import opened Sequences
  import opened EventStore
  import opened Bundle
  import opened BundleRoundTrip

  /** The row has not been turned down, and is of one of the collections. */
  predicate IsOf(r: StoreRow, collections: seq<string>) {
    (r.state == Pending || r.state == Committed) && r.event.collection in collections
  }

  /** The highest revision at which such a row was committed, or 0. */
  ghost predicate IsCursor(rows: seq<StoreRow>, collections: seq<string>, cursor: int) {
    && cursor >= 0
    && (forall r :: r in rows && IsOf(r, collections) && r.committedRev.Some? ==> r.committedRev.value <= cursor)
    && (cursor == 0 || exists r :: r in rows && IsOf(r, collections) && r.committedRev == Some(cursor))
  }

  /** The rows are those of a collection that an export takes, as often as the log has them, in the order they take effect. */
  ghost predicate AreTaken(rows: seq<StoreRow>, collection: string, since: Option<int>, taken: seq<StoreRow>) {
    && InOrder(taken)
    && forall r :: multiset(taken)[r] ==
         if IsOf(r, [collection]) && (since.None? || (r.committedRev.Some? && since.value < r.committedRev.value))
         then multiset(rows)[r] else 0
  }

  /** The text has one line for each row, its event in canonical form and a line feed. */
  ghost predicate IsFileOf(p: Platform, taken: seq<StoreRow>, text: string)
    decreases |taken|
  {
    if taken == [] then text == ""
    else
      && p.encode(taken[0].event).Some?
      && var line := p.encode(taken[0].event).value + "\n";
         line <= text && IsFileOf(p, taken[1..], text[|line|..])
  }

  /** The bundle's files are the others and one for each collection; its manifest has the hash of each of them. */
  ghost predicate IsExport(
      p: Platform, rows: seq<StoreRow>, workspace: string, others: map<string, string>, sign: Option<Core -> string>,
      since: Option<int>, bundle: Bundle)
  {
    && bundle.core.workspace == workspace && bundle.core.since == since && IsCursor(rows, p.models, bundle.core.cursor)
    && bundle.signature == (if sign.Some? then Some(sign.value(bundle.core)) else None)
    && bundle.core.hashes.Keys == bundle.files.Keys
    && (forall path :: path in bundle.files ==> bundle.core.hashes[path] == p.hash(bundle.files[path]))
    && HasFiles(p, rows, others, since, bundle.files)
  }

  /** The files are the others and those of the collections. */
  ghost predicate HasFiles(
      p: Platform, rows: seq<StoreRow>, others: map<string, string>, since: Option<int>, files: map<string, string>)
  {
    && (forall path :: path in files ==> path in others || exists c :: c in p.models && path == EventsPath(c))
    && (forall path :: path in others && (forall c :: c in p.models ==> path != EventsPath(c)) ==>
          path in files && files[path] == others[path])
    && (forall c :: c in p.models ==> HasFile(p, rows, c, since, files))
  }

  ghost predicate HasFile(p: Platform, rows: seq<StoreRow>, c: string, since: Option<int>, files: map<string, string>) {
    "collections/" + c + "/events.ndjson" in files
    && exists taken :: AreTaken(rows, c, since, taken) && IsFileOf(p, taken, files["collections/" + c + "/events.ndjson"])
  }

  // --------------------------------------------------------------------------------- files

  lemma TakenAre(rows: seq<StoreRow>, collection: string, since: Option<int>)
    ensures AreTaken(rows, collection, since, Taken(rows, collection, since))
  {
    var all, wanted := CollectionRows(rows, collection), (r: StoreRow) => IsTaken(r, since);
    CollectionRowsAre(rows, collection);
    SortIsSorted(Filter(rows, (r: StoreRow) => IsLive(r) && r.event.collection == collection));
    FilterKeepsSorted(all, wanted);
    SortedIsInOrder(Filter(all, wanted));
    forall r ensures multiset(Filter(all, wanted))[r] == if wanted(r) then multiset(all)[r] else 0 {
      FilterCounts(all, wanted, r);
    }
  }

  lemma {:induction false} EncodedIsFile(p: Platform, taken: seq<StoreRow>)
    requires EncodeAll(p, EventsOf(taken)).Some?
    ensures IsFileOf(p, taken, WriteLines(EncodeAll(p, EventsOf(taken)).value))
  {
    if taken != [] {
      assert EventsOf(taken)[1..] == EventsOf(taken[1..]);
      EncodedIsFile(p, taken[1..]);
    }
  }

  lemma HoldsFile(p: Platform, rows: seq<StoreRow>, c: string, since: Option<int>, files: map<string, string>)
    requires HoldsEvents(p, rows, c, since, files)
    ensures HasFile(p, rows, c, since, files)
  {
    assert EventsPath(c) == "collections/" + c + "/events.ndjson";
    TakenAre(rows, c, since);
    EncodedIsFile(p, Taken(rows, c, since));
  }

  lemma {:induction false} NoOtherFiles(
      p: Platform, rows: seq<StoreRow>, others: map<string, string>, collections: seq<string>, since: Option<int>)
    requires FilesOver(p, rows, others, collections, since).Some?
    ensures forall path :: path in FilesOver(p, rows, others, collections, since).value ==>
              path in others || exists c :: c in collections && path == EventsPath(c)
  {
    if collections != [] {
      var init, last := collections[..|collections| - 1], collections[|collections| - 1];
      NoOtherFiles(p, rows, others, init, since);
      assert collections == init + [last];
    }
  }

  // -------------------------------------------------------------------------------- cursor

  lemma HighWaterIsCursor(rows: seq<StoreRow>, collection: string)
    ensures IsCursor(rows, [collection], HighWater(CollectionRows(rows, collection)))
  {
    var own, high := CollectionRows(rows, collection), HighWater(CollectionRows(rows, collection));
    CollectionRowsAre(rows, collection);
    forall r ensures r in own <==> r in rows && IsOf(r, [collection]) {
      assert r in own <==> multiset(own)[r] > 0;
      assert r in rows <==> multiset(rows)[r] > 0;
    }
  }

  lemma {:induction false} CursorOverIsCursor(rows: seq<StoreRow>, collections: seq<string>)
    ensures IsCursor(rows, collections, CursorOver(rows, collections))
  {
    if collections != [] {
      var init, last := collections[..|collections| - 1], collections[|collections| - 1];
      CursorOverIsCursor(rows, init);
      HighWaterIsCursor(rows, last);
      assert collections == init + [last];
      LargerIsCursor(rows, init, last, CursorOver(rows, init), HighWater(CollectionRows(rows, last)));
    }
  }

  lemma LargerIsCursor(rows: seq<StoreRow>, init: seq<string>, last: string, a: int, b: int)
    requires IsCursor(rows, init, a) && IsCursor(rows, [last], b)
    ensures IsCursor(rows, init + [last], Larger(a, b))
  {
    forall r ensures IsOf(r, init + [last]) <==> IsOf(r, init) || IsOf(r, [last]) {
    }
  }

  // ------------------------------------------------------------------------- what cannot be

  /** The row is taken by an export of the collections, and its event has no canonical form. */
  ghost predicate CannotBeWritten(
      p: Platform, rows: seq<StoreRow>, collections: seq<string>, since: Option<int>, r: StoreRow)
  {
    && r in rows && IsOf(r, collections) && (since.None? || (r.committedRev.Some? && since.value < r.committedRev.value))
    && p.encode(r.event).None?
  }

  lemma {:induction false} EncodeAllIff(p: Platform, events: seq<Event>)
    ensures EncodeAll(p, events).Some? <==> forall e :: e in events ==> p.encode(e).Some?
  {
    if events != [] {
      EncodeAllIff(p, events[1..]);
      assert events == [events[0]] + events[1..];
    }
  }

  lemma TakenAreIn(rows: seq<StoreRow>, c: string, since: Option<int>, r: StoreRow)
    ensures r in Taken(rows, c, since)
       <==> r in rows && IsOf(r, [c]) && (since.None? || (r.committedRev.Some? && since.value < r.committedRev.value))
  {
    TakenAre(rows, c, since);
    assert r in rows <==> multiset(rows)[r] > 0;
    assert r in Taken(rows, c, since) <==> multiset(Taken(rows, c, since))[r] > 0;
  }

  lemma FileFailsIff(p: Platform, rows: seq<StoreRow>, c: string, since: Option<int>)
    ensures EventsFile(p, rows, c, since).None? <==> exists r :: CannotBeWritten(p, rows, [c], since, r)
  {
    var taken := Taken(rows, c, since);
    EncodeAllIff(p, EventsOf(taken));
    if EventsFile(p, rows, c, since).None? {
      var e :| e in EventsOf(taken) && p.encode(e).None?;
      var i :| 0 <= i < |taken| && EventsOf(taken)[i] == e;
      TakenAreIn(rows, c, since, taken[i]);
      assert CannotBeWritten(p, rows, [c], since, taken[i]);
    }
    if r :| CannotBeWritten(p, rows, [c], since, r) {
      TakenAreIn(rows, c, since, r);
      var i :| 0 <= i < |taken| && taken[i] == r;
      assert EventsOf(taken)[i] in EventsOf(taken);
    }
  }

  lemma {:induction false} FilesFailIff(
      p: Platform, rows: seq<StoreRow>, others: map<string, string>, collections: seq<string>, since: Option<int>)
    ensures FilesOver(p, rows, others, collections, since).None? <==> exists r :: CannotBeWritten(p, rows, collections, since, r)
  {
    if collections != [] {
      var init, last := collections[..|collections| - 1], collections[|collections| - 1];
      FilesFailIff(p, rows, others, init, since);
      FileFailsIff(p, rows, last, since);
      forall r
        ensures CannotBeWritten(p, rows, collections, since, r)
           <==> CannotBeWritten(p, rows, init, since, r) || CannotBeWritten(p, rows, [last], since, r)
      {
        assert collections == init + [last];
      }
    }
  }

  // -------------------------------------------------------------------------------- results

  /** An export that succeeds is what it says. */
  lemma ExportIs(
      p: Platform, rows: seq<StoreRow>, workspace: string, others: map<string, string>, sign: Option<Core -> string>,
      since: Option<int>)
    requires Export(p, rows, workspace, others, sign, since).Ok?
    ensures IsExport(p, rows, workspace, others, sign, since, Export(p, rows, workspace, others, sign, since).value)
  {
    CursorOverIsCursor(rows, p.models);
    FilesAreHeld(p, rows, others, since);
  }

  lemma FilesAreHeld(p: Platform, rows: seq<StoreRow>, others: map<string, string>, since: Option<int>)
    requires FilesOver(p, rows, others, p.models, since).Some?
    ensures HasFiles(p, rows, others, since, FilesOver(p, rows, others, p.models, since).value)
  {
    var files := FilesOver(p, rows, others, p.models, since).value;
    NoOtherFiles(p, rows, others, p.models, since);
    FilesOverHold(p, rows, others, p.models, since);
    forall c | c in p.models ensures HasFile(p, rows, c, since, files) {
      HoldsFile(p, rows, c, since, files);
    }
  }

  /** It fails exactly when it would take a row whose event has no canonical form. */
  lemma ExportFailsIff(
      p: Platform, rows: seq<StoreRow>, workspace: string, others: map<string, string>, sign: Option<Core -> string>,
      since: Option<int>)
    ensures Export(p, rows, workspace, others, sign, since).Err? <==> exists r :: CannotBeWritten(p, rows, p.models, since, r)
  {
    FilesFailIff(p, rows, others, p.models, since);
  }
}
