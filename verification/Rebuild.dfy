/**
 The second half of an import: the log is folded into the domain tables, entity by entity, and
 every row written is checked against the foreign keys at once.
 */
module Rebuild {
  import opened Wrappers
  import opened Json
  import opened Text
  import opened SyncEvents
  import opened Sequences
  import opened EventStore
  import opened Revival
  import opened Bundle
  import opened BundleRoundTrip
  import opened BundleNormalForm
  import opened BundleExample
  import opened ForeignKeys

  datatype EntityKey = EntityKey(collection: string, id: string)

  type Tables = map<EntityKey, Payload>

  /** A column that holds the id of a row of another collection, or of the same. */
  datatype ForeignKey = ForeignKey(column: string, target: string)

  function ForeignKeysOf(collection: string): seq<ForeignKey> {
    if collection == "tickets" then [ForeignKey("project_id", "projects"), ForeignKey("parent_id", "tickets")]
    else if collection in {"projects", "members"} then [ForeignKey("workspace_id", "workspaces")]
    else if collection == "milestones" then [ForeignKey("project_id", "projects")]
    else if collection in {"comments", "agent_proposals", "follow_ups"} then [ForeignKey("ticket_id", "tickets")]
    else if collection == "ticket_relationships" then [ForeignKey("from_id", "tickets"), ForeignKey("to_id", "tickets")]
    else if collection == "memory_links" then [ForeignKey("ticket_id", "tickets"), ForeignKey("memory_id", "memory_entries")]
    else if collection == "ticket_milestones" then [ForeignKey("ticket_id", "tickets"), ForeignKey("milestone_id", "milestones")]
    else []
  }

  /** The rows that a row refers to. */
  function References(key: EntityKey, row: Payload): set<EntityKey> {
    set k | k in ForeignKeysOf(key.collection) && k.column in row && row[k.column].Str? :: EntityKey(k.target, row[k.column].text)
  }

  /** The column of a collection's rows holds ids of the target's. */
  predicate RefersTo(collection: string, column: string, target: string) {
    match column
    case "project_id" => target == "projects" && (collection == "tickets" || collection == "milestones")
    case "workspace_id" => target == "workspaces" && (collection == "projects" || collection == "members")
    case "ticket_id" =>
      && target == "tickets"
      && (|| collection == "comments" || collection == "agent_proposals" || collection == "follow_ups"
          || collection == "memory_links" || collection == "ticket_milestones")
    case "parent_id" => target == "tickets" && collection == "tickets"
    case "from_id" => target == "tickets" && collection == "ticket_relationships"
    case "to_id" => target == "tickets" && collection == "ticket_relationships"
    case "memory_id" => target == "memory_entries" && collection == "memory_links"
    case "milestone_id" => target == "milestones" && collection == "ticket_milestones"
    case _ => false
  }

  lemma ForeignKeysAre(collection: string, column: string, target: string)
    ensures ForeignKey(column, target) in ForeignKeysOf(collection) <==> RefersTo(collection, column, target)
  {
  }

  /** A row refers to the entities whose ids its columns hold as text. */
  lemma ReferencesAre(key: EntityKey, row: Payload, to: EntityKey)
    ensures to in References(key, row)
       <==> exists column :: column in row && row[column] == Str(to.id) && RefersTo(key.collection, column, to.collection)
  {
    if column :| column in row && row[column] == Str(to.id) && RefersTo(key.collection, column, to.collection) {
      ForeignKeysAre(key.collection, column, to.collection);
    }
    if to in References(key, row) {
      var k :| k in ForeignKeysOf(key.collection) && k.column in row && row[k.column].Str? && to == EntityKey(k.target, row[k.column].text);
      ForeignKeysAre(key.collection, k.column, k.target);
    }
  }

  /** What each entity's row is folded to. */
  function FoldOf(rows: seq<StoreRow>): EntityKey -> Option<Payload> {
    (k: EntityKey) => Refolded(rows, k.collection, k.id)
  }

  datatype Store = Store(log: Imported, tables: Tables)

  datatype ImportFailure = EventsRefused(error: ImportError) | ForeignKeyFailed

  function WorkspaceKey(workspace: string): EntityKey {
    EntityKey("workspaces", workspace)
  }

  /** The tables with the workspace's row, which an import puts there before anything else. */
  function WithWorkspace(tables: Tables, workspace: string): Tables {
    if WorkspaceKey(workspace) in tables then tables
    else tables[WorkspaceKey(workspace) := map["id" := Str(workspace)]]
  }

  /** The whole import: the events are inserted, and then the entities are folded in the order given. */
  function ImportAndRebuild(p: Platform, bundle: Bundle, rows: seq<StoreRow>, tables: Tables, order: seq<EntityKey>)
    : Result<Store, ImportFailure>
  {
    var imported := Import(p, bundle, rows);
    if imported.Err? then Err(EventsRefused(imported.error))
    else
      var rebuilt := PutAll(WithWorkspace(tables, bundle.core.workspace), References, FoldOf(imported.value.rows), order);
      if rebuilt.None? then Err(ForeignKeyFailed) else Ok(Store(imported.value, rebuilt.value))
  }

  /** What a fresh runtime folds an exported log to. */
  function FoldOnImport(p: Platform, rows: seq<StoreRow>): EntityKey -> Option<Payload> {
    FoldOf(Numbered(ExportedOver(rows, p.models), 0))
  }

  lemma FreshIsIntact(workspace: string)
    ensures Intact(WithWorkspace(map[], workspace), References)
  {
    assert |"workspaces"| == 10 && |"projects"| == 8 && |"members"| == 7;
    assert ForeignKeysOf("workspaces") == [];
  }

  /**
   A fresh runtime imports an exported bundle exactly when its events are accepted and the tables
   keep their foreign keys after each entity that is folded; it then has every entity's row.
   */
  lemma ImportSucceedsIff(
      p: Platform, rows: seq<StoreRow>, workspace: string, others: map<string, string>, sign: Option<Core -> string>,
      bundle: Bundle, order: seq<EntityKey>)
    requires IsFullExport(p, rows, workspace, others, sign, bundle)
    ensures var trust, events := TrustIn(p, others, bundle), ExportedOver(rows, p.models);
            var start, fold := WithWorkspace(map[], workspace), FoldOnImport(p, rows);
            var result := ImportAndRebuild(p, bundle, [], map[], order);
            && (result.Ok? <==> && trust.Some? && OneLineEach(p, events) && AllPass(p, trust.value, events)
                                && forall i :: 0 <= i <= |order| ==> Intact(After(start, fold, order[..i]), References))
            && (result.Ok? ==> result.value == Store(Imported(Numbered(events, 0), |events|), After(start, fold, order)))
  {
    var start, fold := WithWorkspace(map[], workspace), FoldOnImport(p, rows);
    ImportAcceptsIff(p, rows, workspace, others, sign, bundle);
    FreshIsIntact(workspace);
    PutAllIff(start, References, fold, order);
    if PutAll(start, References, fold, order).Some? {
      PutAllLeaves(start, References, fold, order);
    }
  }

  /**
   As long as the workspace itself has not been deleted, that is when every row refers to entities
   that are folded no later than its own.
   */
  lemma ImportInOrderIff(
      p: Platform, rows: seq<StoreRow>, workspace: string, others: map<string, string>, sign: Option<Core -> string>,
      bundle: Bundle, order: seq<EntityKey>)
    requires IsFullExport(p, rows, workspace, others, sign, bundle)
    requires WorkspaceKey(workspace) in order ==> FoldOnImport(p, rows)(WorkspaceKey(workspace)).Some?
    ensures var trust, events := TrustIn(p, others, bundle), ExportedOver(rows, p.models);
            ImportAndRebuild(p, bundle, [], map[], order).Ok?
            <==> && trust.Some? && OneLineEach(p, events) && AllPass(p, trust.value, events)
                 && TargetsComeFirst(WithWorkspace(map[], workspace), References, FoldOnImport(p, rows), order)
  {
    var start, fold := WithWorkspace(map[], workspace), FoldOnImport(p, rows);
    ImportSucceedsIff(p, rows, workspace, others, sign, bundle, order);
    FreshIsIntact(workspace);
    PutAllIff(start, References, fold, order);
    PutAllInOrderIff(start, References, fold, order);
  }

  /** The domain tables as the fold updates them, inside the caller's transaction. */
  class DomainTables {
    var tables: Tables

    constructor ()
      ensures tables == map[]
    {
      tables := map[];
    }

    /** Writes an entity's row as the fold of its events, or deletes it; what breaks a foreign key is refused. */
    method RefoldEntity(rows: seq<StoreRow>, key: EntityKey) returns (ok: bool)
      modifies this
      ensures var put := Put(old(tables), References, key, FoldOf(rows)(key));
              ok == put.Some? && tables == if ok then put.value else old(tables)
      ensures forall k :: k != key ==>
                (k in tables <==> k in old(tables)) && (k in tables ==> tables[k] == old(tables)[k])
      ensures ok ==> IsRowOf(RowsOfEntity(rows, key.collection, key.id), if key in tables then Some(tables[key]) else None)
    {
      FoldIsRow(RowsOfEntity(rows, key.collection, key.id));
      var state := Refolded(rows, key.collection, key.id);
      if state.None? {
        if exists k :: k in tables && k != key && key in References(k, tables[k]) { return false; }
        tables := tables - {key};
        return true;
      }
      if !(References(key, state.value) <= tables.Keys + {key}) { return false; }
      tables := tables[key := state.value];
      return true;
    }

    /** Folds entities one after the other until one is refused. */
    method RefoldAll(rows: seq<StoreRow>, order: seq<EntityKey>) returns (ok: bool)
      modifies this
      ensures var all := PutAll(old(tables), References, FoldOf(rows), order); ok == all.Some? && (ok ==> tables == all.value)
      ensures ok && Intact(old(tables), References) ==> Intact(tables, References) && tables == After(old(tables), FoldOf(rows), order)
    {
      ghost var fold := FoldOf(rows);
      if Intact(tables, References) {
        PutAllIff(tables, References, fold, order);
        if PutAll(tables, References, fold, order).Some? {
          PutAllLeaves(tables, References, fold, order);
          assert order[..|order|] == order;
        }
      }
      for i := 0 to |order|
        invariant PutAll(old(tables), References, fold, order) == PutAll(tables, References, fold, order[i..])
      {
        assert order[i..][0] == order[i] && order[i..][1..] == order[i + 1..];
        var written := RefoldEntity(rows, order[i]);
        if !written { return false; }
      }
      return true;
    }
  }

  // ------------------------------------------------------ a ticket created before its parent

  function Written(id: string, seq_: int, collection: string, entityId: string, payload: Payload): Event {
    Event(id, collection, entityId, "m", seq_, Patch, None, None, payload, None)
  }

  const PROJECT := Written("e1", 1, "projects", "j", map["workspace_id" := Str("w")])
  const CHILD := Written("e2", 2, "tickets", "c", map["project_id" := Str("j")])
  const PARENT := Written("e3", 3, "tickets", "p", map["project_id" := Str("j")])
  const LINK := Written("e4", 4, "tickets", "c", map["parent_id" := Str("p")])

  const EVENTS := [PROJECT, CHILD, PARENT, LINK]
  const MODELS := ["projects", "tickets"]

  const J := EntityKey("projects", "j")
  const C := EntityKey("tickets", "c")
  const P := EntityKey("tickets", "p")

  /** A book in which the four events are written in two characters each. */
  const BOOK := Book(map[PROJECT := "{1", CHILD := "{2", PARENT := "{3", LINK := "{4"],
                     map["{1" := PROJECT, "{2" := CHILD, "{3" := PARENT, "{4" := LINK])

  lemma EventsDiffer()
    ensures DistinctKeys(EVENTS)
    ensures PROJECT != CHILD && PROJECT != PARENT && PROJECT != LINK && CHILD != PARENT && CHILD != LINK && PARENT != LINK
  {
    assert EVENTS[1..] == [CHILD, PARENT, LINK] && [CHILD, PARENT, LINK][1..] == [PARENT, LINK];
    assert [PARENT, LINK][1..] == [LINK] && [LINK][1..] == [];
    assert "e1"[1] == '1' && "e2"[1] == '2' && "e3"[1] == '3' && "e4"[1] == '4';
    assert DistinctKeys([LINK]) && DistinctKeys([PARENT, LINK]) && DistinctKeys([CHILD, PARENT, LINK]);
  }

  lemma BookWrites()
    ensures BOOK.writes.Keys == {PROJECT, CHILD, PARENT, LINK}
    ensures BOOK.writes[PROJECT] == "{1" && BOOK.writes[CHILD] == "{2" && BOOK.writes[PARENT] == "{3" && BOOK.writes[LINK] == "{4"
  {
    EventsDiffer();
  }

  lemma BookMeans()
    ensures BOOK.meanings.Keys == {"{1", "{2", "{3", "{4"}
    ensures BOOK.meanings["{1"] == PROJECT && BOOK.meanings["{2"] == CHILD
    ensures BOOK.meanings["{3"] == PARENT && BOOK.meanings["{4"] == LINK
  {
    assert "{1"[1] == '1' && "{2"[1] == '2' && "{3"[1] == '3' && "{4"[1] == '4';
  }

  lemma WritingReadsBack(e: Event)
    requires e in BOOK.writes
    ensures BOOK.writes[e] in BOOK.meanings && BOOK.meanings[BOOK.writes[e]] == e && !HasBreak(BOOK.writes[e])
  {
    BookWrites();
    BookMeans();
  }

  lemma MeaningWritesBack(t: string)
    requires t in BOOK.meanings
    ensures BOOK.meanings[t] in BOOK.writes && BOOK.writes[BOOK.meanings[t]] == t && |t| == 2 && t[0] == '{'
  {
    BookWrites();
    BookMeans();
  }

  lemma BookIsCodec()
    ensures IsCodec(BOOK)
  {
    forall e | e in BOOK.writes {
      WritingReadsBack(e);
    }
    forall t | t in BOOK.meanings {
      MeaningWritesBack(t);
    }
    assert forall t, k | 0 <= k < |t| && t in BOOK.meanings :: |t| == 2 && |t[..k]| < 2;
  }

  lemma EventsAreWritten()
    ensures forall e :: e in EVENTS ==> e in BOOK.writes && !HasBreak(BOOK.writes[e])
  {
    BookWrites();
    forall e | e in BOOK.writes {
      WritingReadsBack(e);
    }
  }

  function If<T>(keep: bool, x: T): seq<T> {
    if keep then [x] else []
  }

  lemma FilterFour<T(!new)>(a: T, b: T, c: T, d: T, p: T -> bool)
    ensures Filter([a, b, c, d], p) == If(p(a), a) + (If(p(b), b) + (If(p(c), c) + If(p(d), d)))
  {
    FilterConcat([a], [b, c, d], p);
    FilterConcat([b], [c, d], p);
    FilterConcat([c], [d], p);
    assert [a] + [b, c, d] == [a, b, c, d] && [b] + [c, d] == [b, c, d] && [c] + [d] == [c, d];
    FilterOne(a, p);
    FilterOne(b, p);
    FilterOne(c, p);
    FilterOne(d, p);
  }

  lemma FilterOne<T(!new)>(x: T, p: T -> bool)
    ensures Filter([x], p) == If(p(x), x)
  {
    assert [x][1..] == [];
  }

  lemma EventsByCollection()
    ensures OfCollection(EVENTS, "projects") == [PROJECT] && OfCollection(EVENTS, "tickets") == [CHILD, PARENT, LINK]
  {
    assert |"projects"| == 8 && |"tickets"| == 7;
    FilterFour(PROJECT, CHILD, PARENT, LINK, (e: Event) => e.collection == "projects");
    FilterFour(PROJECT, CHILD, PARENT, LINK, (e: Event) => e.collection == "tickets");
  }

  lemma EventsExport()
    ensures ExportedOver(Numbered(EVENTS, 0), MODELS) == EVENTS
  {
    var rows := Numbered(EVENTS, 0);
    EventsByCollection();
    NumberedExports(EVENTS, "projects");
    NumberedExports(EVENTS, "tickets");
    assert MODELS[1..] == ["tickets"] && ["tickets"][1..] == [];
    assert ExportedOver(rows, ["tickets"]) == Exported(rows, "tickets", None) + ExportedOver(rows, []);
  }

  lemma FoldOne(row: StoreRow)
    requires row.event.op.Patch? && REVIVE_FIELD !in row.event.payload
    ensures FoldEntity([row]).state == Some(row.event.payload)
  {
    assert [row][..0] == [];
    assert FoldEntity([row]) == FoldStep(FoldEntity([]), row.event, row.committedRev);
    assert map[] + (row.event.payload - {REVIVE_FIELD}) == row.event.payload;
  }

  lemma FoldTwo(first: StoreRow, second: StoreRow)
    requires first.event.op.Patch? && second.event.op.Patch?
    requires REVIVE_FIELD !in first.event.payload && REVIVE_FIELD !in second.event.payload
    ensures FoldEntity([first, second]).state == Some(first.event.payload + second.event.payload)
  {
    assert [first, second][..1] == [first] && [first][..0] == [];
    assert FoldEntity([first]) == FoldStep(FoldEntity([]), first.event, first.committedRev);
    assert map[] + (first.event.payload - {REVIVE_FIELD}) == first.event.payload;
    assert second.event.payload - {REVIVE_FIELD} == second.event.payload;
  }

  lemma RowsOf(k: EntityKey, rows: seq<StoreRow>, own: seq<StoreRow>)
    requires rows == Numbered(EVENTS, 0)
    requires own == Filter(rows, (r: StoreRow) => IsLive(r) && r.event.collection == k.collection && r.event.entityId == k.id)
    ensures RowsOfEntity(rows, k.collection, k.id) == own
  {
    NumberedIsSorted(EVENTS, 0);
    FilterKeepsSorted(rows, (r: StoreRow) => IsLive(r) && r.event.collection == k.collection && r.event.entityId == k.id);
    SortedStays(own);
  }

  lemma OwnRows(k: EntityKey)
    ensures var rows := Numbered(EVENTS, 0);
            RowsOfEntity(rows, k.collection, k.id)
            == If(k == J, rows[0]) + (If(k == C, rows[1]) + (If(k == P, rows[2]) + If(k == C, rows[3])))
  {
    var rows := Numbered(EVENTS, 0);
    var own := (r: StoreRow) => IsLive(r) && r.event.collection == k.collection && r.event.entityId == k.id;
    assert rows == [rows[0], rows[1], rows[2], rows[3]];
    FilterFour(rows[0], rows[1], rows[2], rows[3], own);
    RowsOf(k, rows, Filter(rows, own));
  }

  lemma KeysDiffer()
    ensures J != C && J != P && C != P
  {
    assert "j"[0] == 'j' && "c"[0] == 'c' && "p"[0] == 'p';
  }

  /** The rows at the end: the child refers to its parent. */
  lemma EventsFold()
    ensures var fold := FoldOf(Numbered(EVENTS, 0));
            && fold(J) == Some(PROJECT.payload) && fold(P) == Some(PARENT.payload)
            && fold(C) == Some(CHILD.payload + LINK.payload)
  {
    var rows := Numbered(EVENTS, 0);
    KeysDiffer();
    NoRevival();
    OwnRows(J);
    OwnRows(C);
    OwnRows(P);
    assert RowsOfEntity(rows, J.collection, J.id) == [rows[0]];
    assert RowsOfEntity(rows, C.collection, C.id) == [rows[1], rows[3]];
    assert RowsOfEntity(rows, P.collection, P.id) == [rows[2]];
    FoldOne(rows[0]);
    FoldOne(rows[2]);
    FoldTwo(rows[1], rows[3]);
  }

  lemma NoRevival()
    ensures forall e :: e in EVENTS ==> REVIVE_FIELD !in e.payload
  {
    assert REVIVE_FIELD[0] == '_' && "workspace_id"[0] == 'w' && "project_id"[0] == 'p' && "parent_id"[0] == 'p';
  }

  lemma TicketReferences(key: EntityKey, row: Payload)
    requires key.collection == "tickets" && "project_id" in row && row["project_id"] == Str("j")
    ensures References(key, row)
         == {J} + if "parent_id" in row && row["parent_id"].Str? then {EntityKey("tickets", row["parent_id"].text)} else {}
  {
    var keys := ForeignKeysOf("tickets");
    assert keys[0] in keys && keys[1] in keys;
    assert forall k :: k in keys ==> k == keys[0] || k == keys[1];
  }

  lemma ProjectReferences()
    ensures References(J, PROJECT.payload) == {WorkspaceKey("w")}
  {
    assert |"projects"| == 8 && |"tickets"| == 7;
    var keys := ForeignKeysOf("projects");
    assert keys == [ForeignKey("workspace_id", "workspaces")];
    assert keys[0] in keys;
  }

  lemma RowReferences()
    ensures References(P, PARENT.payload) == {J} && References(C, CHILD.payload + LINK.payload) == {J, P}
  {
    var row := CHILD.payload + LINK.payload;
    assert |"project_id"| == 10 && |"parent_id"| == 9;
    assert row["project_id"] == Str("j") && row["parent_id"] == Str("p");
    assert "parent_id" !in PARENT.payload;
    TicketReferences(P, PARENT.payload);
    TicketReferences(C, row);
  }

  /** Three entities in an order: each may refer to those up to it. */
  lemma ThreeInOrder(start: Tables, fold: EntityKey -> Option<Payload>, a: EntityKey, b: EntityKey, c: EntityKey)
    requires fold(a).Some? && fold(b).Some? && fold(c).Some?
    ensures TargetsComeFirst(start, References, fold, [a, b, c])
       <==> && References(a, fold(a).value) <= start.Keys + {a} && References(b, fold(b).value) <= start.Keys + {a, b}
            && References(c, fold(c).value) <= start.Keys + {a, b, c}
  {
    var order := [a, b, c];
    assert order[..1] == [a] && order[..2] == [a, b] && order[..3] == order;
    assert Present(fold, order[..1]) == {a} && Present(fold, order[..2]) == {a, b} && Present(fold, order[..3]) == {a, b, c};
    assert order[0] == a && order[1] == b && order[2] == c;
  }

  lemma NoWorkspace()
    ensures WorkspaceKey("w") != J && WorkspaceKey("w") != C && WorkspaceKey("w") != P
  {
    assert "j"[0] == 'j' && "c"[0] == 'c' && "p"[0] == 'p' && "w"[0] == 'w';
  }

  /** The tickets' rows can be written when the parent comes first, and only then. */
  lemma TargetsIn(second: EntityKey, third: EntityKey)
    requires (second == C && third == P) || (second == P && third == C)
    ensures TargetsComeFirst(WithWorkspace(map[], "w"), References, FoldOf(Numbered(EVENTS, 0)), [J, second, third])
            <==> second == P
  {
    var start := WithWorkspace(map[], "w");
    EventsFold();
    ProjectReferences();
    RowReferences();
    KeysDiffer();
    ThreeInOrder(start, FoldOf(Numbered(EVENTS, 0)), J, second, third);
    NoWorkspace();
    assert start.Keys == {WorkspaceKey("w")};
  }

  lemma AcceptedThenInOrder(
      p: Platform, rows: seq<StoreRow>, workspace: string, others: map<string, string>, sign: Option<Core -> string>,
      bundle: Bundle, order: seq<EntityKey>)
    requires IsFullExport(p, rows, workspace, others, sign, bundle) && Import(p, bundle, []).Ok?
    requires WorkspaceKey(workspace) !in order
    ensures ImportAndRebuild(p, bundle, [], map[], order).Ok?
            <==> TargetsComeFirst(WithWorkspace(map[], workspace), References, FoldOnImport(p, rows), order)
  {
    ImportAcceptsIff(p, rows, workspace, others, sign, bundle);
    ImportInOrderIff(p, rows, workspace, others, sign, bundle, order);
  }

  lemma TargetsOnImport(p: Platform, second: EntityKey, third: EntityKey)
    requires p.models == MODELS && ((second == C && third == P) || (second == P && third == C))
    ensures WorkspaceKey("w") !in [J, second, third]
    ensures TargetsComeFirst(WithWorkspace(map[], "w"), References, FoldOnImport(p, Numbered(EVENTS, 0)), [J, second, third])
            <==> second == P
  {
    EventsExport();
    TargetsIn(second, third);
    NoWorkspace();
  }

  /** The bundle of the four events is imported when the parent comes first, and only then. */
  lemma OrderDecides(p: Platform, bundle: Bundle, second: EntityKey, third: EntityKey)
    requires (second == C && third == P) || (second == P && third == C)
    requires p.models == MODELS && IsFullExport(p, Numbered(EVENTS, 0), "w", OTHERS, SIGN, bundle) && Import(p, bundle, []).Ok?
    ensures ImportAndRebuild(p, bundle, [], map[], [J, second, third]).Ok? <==> second == P
  {
    TargetsOnImport(p, second, third);
    AcceptedThenInOrder(p, Numbered(EVENTS, 0), "w", OTHERS, SIGN, bundle, [J, second, third]);
  }

  /**
   A store in which a ticket was made before the one that later became its parent. Its export is
   signed and its events are accepted, and the import fails when the tickets are folded as they were
   made; with the parent first it succeeds.
   */
  lemma ChildBeforeParentIsRefused() returns (bundle: Bundle)
    ensures IsFullExport(PlatformOf(BOOK, MODELS), Numbered(EVENTS, 0), "w", OTHERS, SIGN, bundle)
    ensures ImportAndRebuild(PlatformOf(BOOK, MODELS), bundle, [], map[], [J, C, P]) == Err(ForeignKeyFailed)
    ensures ImportAndRebuild(PlatformOf(BOOK, MODELS), bundle, [], map[], [J, P, C]).Ok?
  {
    EventsAreSample();
    bundle := SampleRoundTripsIff(BOOK, MODELS, Numbered(EVENTS, 0));
    EventsAreWritten();
    EventsExport();
    KeysDiffer();
    OrderDecides(PlatformOf(BOOK, MODELS), bundle, C, P);
    OrderDecides(PlatformOf(BOOK, MODELS), bundle, P, C);
  }

  lemma EventsAreSample()
    ensures IsSample(BOOK, MODELS, Numbered(EVENTS, 0))
  {
    BookIsCodec();
    EventsAreWritten();
    EventsDiffer();
    assert EventsOf(Numbered(EVENTS, 0)) == EVENTS;
    assert |"projects"| == 8 && |"tickets"| == 7;
  }
}
