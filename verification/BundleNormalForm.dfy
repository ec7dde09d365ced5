/** Importing renumbers a log into a normal form, which exporting and importing again reproduces. */
module BundleNormalForm {
  import opened Wrappers
  import opened Json
  import opened Text
  import opened SyncEvents
  import opened Sequences
  import opened EventStore
  import opened Bundle
  import opened BundleRoundTrip

  lemma FullExportFiles(
      p: Platform, rows: seq<StoreRow>, workspace: string, others: map<string, string>, sign: Option<Core -> string>,
      bundle: Bundle)
    requires IsFullExport(p, rows, workspace, others, sign, bundle)
    ensures TEAM in bundle.files && bundle.files[TEAM] == others[TEAM]
    ensures ACTORS in bundle.files && bundle.files[ACTORS] == others[ACTORS]
    ensures HashesHold(p, bundle)
    ensures forall c :: c in p.models ==> HoldsEvents(p, rows, c, None, bundle.files)
  {
    FilesOverHold(p, rows, others, p.models, None);
    assert forall c :: EventsPath(c) != TEAM && EventsPath(c) != ACTORS;
  }

  /**
   What the import of an exported bundle goes by: its actors and grants, if they can be read and its
   signature, if it has one, verifies against a device root.
   */
  function TrustIn(p: Platform, others: map<string, string>, bundle: Bundle): Option<Trust>
    requires ACTORS in others
  {
    var roots, grants := p.roots(others[ACTORS]), p.grants(FileOr(bundle.files, GRANTS));
    if roots.None? || grants.None? || (bundle.signature.Some? && !IsAttested(p, bundle, roots.value)) then None
    else Some(Trust(roots.value, grants.value, IsAttested(p, bundle, roots.value)))
  }

  /**
   The events of an exported bundle are inserted into a store exactly when its actors and grants can
   be read, its signature, if it has one, verifies, and each of its events stands on one line,
   passes the gate and clashes with nothing in the store. The events of each collection are then
   appended in resolution order, numbered from 1 whatever the store holds.
   */
  lemma ImportOntoIff(
      p: Platform, rows: seq<StoreRow>, workspace: string, others: map<string, string>, sign: Option<Core -> string>,
      bundle: Bundle, store: seq<StoreRow>)
    requires IsFullExport(p, rows, workspace, others, sign, bundle)
    ensures var trust, events := TrustIn(p, others, bundle), ExportedOver(rows, p.models);
            var result := Import(p, bundle, store);
            && (result.Ok? <==> trust.Some? && CanImport(p, trust.value, EventsOf(store), events))
            && (result.Ok? ==> result.value == Imported(store + Numbered(events, 0), |events|))
  {
    OpenExport(p, rows, workspace, others, sign, bundle, store);
    if TrustIn(p, others, bundle).Some? {
      ImportFiles(p, TrustIn(p, others, bundle).value, bundle.files, rows, store) by {
        FullExportFiles(p, rows, workspace, others, sign, bundle);
      }
    }
  }

  /** The same for a fresh store, in which nothing can clash. */
  lemma ImportAcceptsIff(
      p: Platform, rows: seq<StoreRow>, workspace: string, others: map<string, string>, sign: Option<Core -> string>,
      bundle: Bundle)
    requires IsFullExport(p, rows, workspace, others, sign, bundle)
    ensures var trust, events := TrustIn(p, others, bundle), ExportedOver(rows, p.models);
            var result := Import(p, bundle, []);
            && (result.Ok? <==> trust.Some? && OneLineEach(p, events) && AllPass(p, trust.value, events))
            && (result.Ok? ==> result.value == Imported(Numbered(events, 0), |events|))
  {
    ImportOntoIff(p, rows, workspace, others, sign, bundle, []);
    var events := ExportedOver(rows, p.models);
    assert [] + Numbered(events, 0) == Numbered(events, 0);
  }

  lemma ImportFiles(p: Platform, trust: Trust, files: map<string, string>, rows: seq<StoreRow>, store: seq<StoreRow>)
    requires IsCanonical(p) && NoRepeats(p.models) && DistinctKeys(EventsOf(rows))
    requires forall c :: c in p.models ==> HoldsEvents(p, rows, c, None, files)
    ensures Imports(p, trust, Imported(store, 0), ExportedOver(rows, p.models),
                    ImportCollections(p, trust, files, Imported(store, 0), p.models))
  {
    ExportedOverDistinct(rows, p.models);
    ImportCollectionsExactly(p, trust, files, Imported(store, 0), rows, p.models);
  }

  lemma OpenExport(
      p: Platform, rows: seq<StoreRow>, workspace: string, others: map<string, string>, sign: Option<Core -> string>,
      bundle: Bundle, store: seq<StoreRow>)
    requires IsFullExport(p, rows, workspace, others, sign, bundle)
    ensures var trust := TrustIn(p, others, bundle);
            if trust.Some? then
              Import(p, bundle, store) == ImportCollections(p, trust.value, bundle.files, Imported(store, 0), p.models)
            else Import(p, bundle, store).Err?
  {
    FullExportFiles(p, rows, workspace, others, sign, bundle);
  }

  // --------------------------------------------------------------------------- reading back

  function OfCollection(events: seq<Event>, collection: string): seq<Event> {
    Filter(events, (e: Event) => e.collection == collection)
  }

  lemma OfCollectionAll(events: seq<Event>, own: string, collection: string)
    requires forall e :: e in events ==> e.collection == own
    ensures OfCollection(events, collection) == if own == collection then events else []
  {
    if own == collection {
      FilterKeepsAll(events, (e: Event) => e.collection == collection);
    } else {
      FilterDropsAll(events, (e: Event) => e.collection == collection);
    }
  }

  lemma {:induction false} OfCollectionExported(rows: seq<StoreRow>, collections: seq<string>, collection: string)
    requires DistinctKeys(EventsOf(rows)) && NoRepeats(collections)
    ensures OfCollection(ExportedOver(rows, collections), collection)
         == if collection in collections then Exported(rows, collection, None) else []
  {
    if collections != [] {
      var c, others := collections[0], collections[1..];
      ExportedDistinct(rows, c, None);
      FilterConcat(Exported(rows, c, None), ExportedOver(rows, others), (e: Event) => e.collection == collection);
      OfCollectionAll(Exported(rows, c, None), c, collection);
      OfCollectionExported(rows, others, collection);
      assert Exported(rows, c, None) + [] == Exported(rows, c, None);
    }
  }

  lemma NumberedIsSorted(events: seq<Event>, rev: int)
    ensures Sorted(Numbered(events, rev))
  {
  }

  lemma {:induction false} NumberedOfCollection(events: seq<Event>, rev: int, p: StoreRow -> bool, collection: string)
    requires forall r :: p(r) <==> IsLive(r) && r.event.collection == collection
    ensures EventsOf(Filter(Numbered(events, rev), p)) == OfCollection(events, collection)
  {
    if events != [] {
      NumberedOfCollection(events[1..], rev + 1, p, collection);
      var rest := Filter(Numbered(events[1..], rev + 1), p);
      var row := StoreRow(events[0], Some(rev + 1), Committed);
      assert Numbered(events, rev)[1..] == Numbered(events[1..], rev + 1);
      assert EventsOf([row] + rest) == [events[0]] + EventsOf(rest);
    }
  }

  /** A numbered log exports, collection by collection, the events it was numbered from. */
  lemma NumberedExports(events: seq<Event>, collection: string)
    ensures Exported(Numbered(events, 0), collection, None) == OfCollection(events, collection)
  {
    var p := (r: StoreRow) => IsLive(r) && r.event.collection == collection;
    NumberedIsSorted(events, 0);
    FilterKeepsSorted(Numbered(events, 0), p);
    SortedStays(Filter(Numbered(events, 0), p));
    NumberedOfCollection(events, 0, p, collection);
    FullExportTakesAll(Numbered(events, 0), collection);
  }

  lemma FullExportTakesAll(rows: seq<StoreRow>, collection: string)
    ensures Exported(rows, collection, None) == EventsOf(CollectionRows(rows, collection))
  {
    FilterKeepsAll(CollectionRows(rows, collection), r => IsTaken(r, None));
  }

  /**
   Round trip: after an accepted import every collection has the events it had, in the same
   order, and every entity the state it had in the snapshot.
   */
  lemma ReExportIsIdentical(
      p: Platform, rows: seq<StoreRow>, workspace: string, others: map<string, string>, sign: Option<Core -> string>,
      bundle: Bundle, collection: string)
    requires IsFullExport(p, rows, workspace, others, sign, bundle) && Import(p, bundle, []).Ok?
    requires collection in p.models
    ensures var imported := Import(p, bundle, []).value.rows;
            && Exported(imported, collection, None) == Exported(rows, collection, None)
            && EventsFile(p, imported, collection, None) == EventsFile(p, rows, collection, None)
            && (forall id :: SnapshotState(imported, collection, id) == SnapshotState(rows, collection, id))
  {
    ImportAcceptsIff(p, rows, workspace, others, sign, bundle);
    var events := ExportedOver(rows, p.models);
    OfCollectionExported(rows, p.models, collection);
    NumberedExports(events, collection);
    FullExportTakesAll(rows, collection);
    FullExportTakesAll(Numbered(events, 0), collection);
  }

  lemma {:induction false} SameExports(xs: seq<StoreRow>, ys: seq<StoreRow>, collections: seq<string>)
    requires forall c :: c in collections ==> Exported(xs, c, None) == Exported(ys, c, None)
    ensures ExportedOver(xs, collections) == ExportedOver(ys, collections)
  {
    if collections != [] {
      SameExports(xs, ys, collections[1..]);
    }
  }

  /** Normal form: exporting what was imported and importing that gives the same store, revisions included. */
  lemma SecondImportReproduces(
      p: Platform, rows: seq<StoreRow>, workspace: string, others: map<string, string>, sign: Option<Core -> string>,
      bundle: Bundle, others2: map<string, string>, sign2: Option<Core -> string>, bundle2: Bundle)
    requires IsFullExport(p, rows, workspace, others, sign, bundle) && Import(p, bundle, []).Ok?
    requires IsFullExport(p, Import(p, bundle, []).value.rows, workspace, others2, sign2, bundle2)
    requires Import(p, bundle2, []).Ok?
    ensures Import(p, bundle2, []) == Import(p, bundle, [])
  {
    var imported := Import(p, bundle, []).value.rows;
    ImportAcceptsIff(p, rows, workspace, others, sign, bundle);
    ImportAcceptsIff(p, imported, workspace, others2, sign2, bundle2);
    forall c | c in p.models ensures Exported(imported, c, None) == Exported(rows, c, None) {
      ReExportIsIdentical(p, rows, workspace, others, sign, bundle, c);
    }
    SameExports(imported, rows, p.models);
  }

  /** The store that an import leaves can be exported again: its keys are distinct and its events have canonical forms. */
  lemma ImportedCanBeExported(
      p: Platform, rows: seq<StoreRow>, workspace: string, others: map<string, string>, sign: Option<Core -> string>,
      bundle: Bundle)
    requires IsFullExport(p, rows, workspace, others, sign, bundle) && Import(p, bundle, []).Ok?
    ensures var imported := Import(p, bundle, []).value.rows;
            && DistinctKeys(EventsOf(imported))
            && forall since :: FilesOver(p, imported, others, p.models, since).Some?
  {
    ImportAcceptsIff(p, rows, workspace, others, sign, bundle);
    var events := ExportedOver(rows, p.models);
    var imported := Numbered(events, 0);
    ExportedOverDistinct(rows, p.models);
    assert EventsOf(imported) == events;
    forall since ensures FilesOver(p, imported, others, p.models, since).Some? {
      EncodableFiles(p, imported, others, p.models, since);
    }
  }

  lemma {:induction false} EncodableFiles(
      p: Platform, rows: seq<StoreRow>, others: map<string, string>, collections: seq<string>, since: Option<int>)
    requires DistinctKeys(EventsOf(rows)) && forall e :: e in EventsOf(rows) ==> p.encode(e).Some?
    ensures FilesOver(p, rows, others, collections, since).Some?
  {
    if collections != [] {
      var init, last := collections[..|collections| - 1], collections[|collections| - 1];
      EncodableFiles(p, rows, others, init, since);
      ExportedDistinct(rows, last, since);
      EncodableEvents(p, Exported(rows, last, since));
    }
  }

  lemma {:induction false} EncodableEvents(p: Platform, events: seq<Event>)
    requires forall e :: e in events ==> p.encode(e).Some?
    ensures EncodeAll(p, events).Some?
  {
    if events != [] {
      EncodableEvents(p, events[1..]);
    }
  }

  // ------------------------------------------------------------------------------- integrity

  lemma {:induction false} ImportReadsOnly(
      p: Platform, trust: Trust, a: map<string, string>, b: map<string, string>, at: Imported, collections: seq<string>)
    requires forall c :: c in collections ==> FileOr(a, EventsPath(c)) == FileOr(b, EventsPath(c))
    ensures ImportCollections(p, trust, a, at, collections) == ImportCollections(p, trust, b, at, collections)
    decreases |collections|
  {
    if collections != [] {
      var first := ImportLines(p, trust, at, ReadLines(FileOr(a, EventsPath(collections[0]))));
      if first.Ok? {
        ImportReadsOnly(p, trust, a, b, first.value, collections[1..]);
      }
    }
  }

  /**
   Integrity: an archive with the manifest of an export is refused, or imported as the export
   would be, whatever was done to its files.
   */
  lemma ManifestPinsImport(
      p: Platform, rows: seq<StoreRow>, workspace: string, others: map<string, string>, sign: Option<Core -> string>,
      bundle: Bundle, received: Bundle)
    requires IsFullExport(p, rows, workspace, others, sign, bundle) && GRANTS in others
    requires forall s, t :: p.hash(s) == p.hash(t) ==> s == t
    requires received.core == bundle.core && received.signature == bundle.signature
    requires Import(p, received, []).Ok?
    ensures Import(p, bundle, []) == Import(p, received, [])
  {
    FilesOverHold(p, rows, others, p.models, None);
    FullExportFiles(p, rows, workspace, others, sign, bundle);
    assert forall c :: EventsPath(c) != GRANTS;
    forall path | path in bundle.files ensures path in received.files && received.files[path] == bundle.files[path] {
      assert path in bundle.core.hashes;
    }
    var trust := Open(p, received);
    assert trust == Open(p, bundle);
    forall c | c in p.models ensures FileOr(received.files, EventsPath(c)) == FileOr(bundle.files, EventsPath(c)) {
      assert HoldsEvents(p, rows, c, None, bundle.files);
    }
    ImportReadsOnly(p, trust.value, received.files, bundle.files, Imported([], 0), p.models);
  }
}
