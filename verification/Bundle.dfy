/** The portable bundle: the event log written out by collection, and read into a fresh store. */
module Bundle {
  import opened Wrappers
  import opened Text
  import opened SyncEvents
  import opened Sequences
  import opened EventStore

  /** The collections a replica can fold, sorted. */
  const SYNCABLE := [
    "agent_proposals", "capability_grants", "comments", "conflict_records", "devices", "follow_ups", "members",
    "memory_entries", "memory_links", "milestones", "projects", "ticket_milestones", "ticket_relationships",
    "tickets", "workspaces"]

  const TEAM := "team_manifest.json"
  const ACTORS := "actors.ndjson"
  const GRANTS := "grants.ndjson"

  function EventsPath(collection: string): string {
    "collections/" + collection + "/events.ndjson"
  }

  lemma EventsPathIsInjective(c: string, d: string)
    requires EventsPath(c) == EventsPath(d)
    ensures c == d
  {
    var a, z := |"collections/"|, |"/events.ndjson"|;
    assert EventsPath(c)[a..|EventsPath(c)| - z] == c;
    assert EventsPath(d)[a..|EventsPath(d)| - z] == d;
  }

  datatype Grant = Grant(issuer: string, subject: string)

  /** What the manifest's signature covers: among it the hash of every other file. */
  datatype Core = Core(workspace: string, since: Option<int>, cursor: int, hashes: map<string, string>)

  datatype Bundle = Bundle(core: Core, signature: Option<string>, files: map<string, string>)

  /**
   The collections of the runtime, the codec, the hash and the signature checks, and how the team
   manifest and the files of actors and grants are read; a file with a line that is no record cannot be.
   */
  datatype Platform = Platform(
    models: seq<string>,
    encode: Event -> Option<string>,
    decode: string -> Option<Event>,
    hash: string -> string,
    verifies: (Event, string) -> bool,
    attests: (Core, string, string) -> bool,
    team: string -> seq<string>,
    roots: string -> Option<map<string, string>>,
    grants: string -> Option<map<string, Grant>>)

  /**
   The canonical codec: decoding accepts what encoding writes and nothing else, a document
   starts with a brace, and no document is the start of another.
   */
  ghost predicate IsCanonical(p: Platform) {
    && (forall e, t :: p.encode(e) == Some(t) ==> p.decode(t) == Some(e))
    && (forall e, t :: p.decode(t) == Some(e) ==> p.encode(e) == Some(t))
    && (forall t :: p.decode(t).Some? ==> t != "" && t[0] == '{')
    && (forall t, k | 0 <= k < |t| && p.decode(t).Some? :: p.decode(t[..k]).None?)
  }

  // --------------------------------------------------------------------------------- export

  /** Whether an export takes a row: all of them, or only what was committed after `since`. */
  predicate IsTaken(r: StoreRow, since: Option<int>) {
    since.None? || (r.committedRev.Some? && r.committedRev.value > since.value)
  }

  function Taken(rows: seq<StoreRow>, collection: string, since: Option<int>): seq<StoreRow> {
    Filter(CollectionRows(rows, collection), r => IsTaken(r, since))
  }

  function EncodeAll(p: Platform, events: seq<Event>): Option<seq<string>> {
    if events == [] then Some([])
    else
      var first, rest := p.encode(events[0]), EncodeAll(p, events[1..]);
      if first.Some? && rest.Some? then Some([first.value] + rest.value) else None
  }

  function Exported(rows: seq<StoreRow>, collection: string, since: Option<int>): seq<Event> {
    EventsOf(Taken(rows, collection, since))
  }

  /** A collection's file; `None` when an event has no canonical form. */
  function EventsFile(p: Platform, rows: seq<StoreRow>, collection: string, since: Option<int>): Option<string> {
    var lines := EncodeAll(p, Exported(rows, collection, since));
    if lines.Some? then Some(WriteLines(lines.value)) else None
  }

  function Larger(a: int, b: int): int { if a < b then b else a }

  /** The largest revision among the rows, or 0. */
  function HighWater(rows: seq<StoreRow>): (high: int)
    ensures high >= 0
    ensures forall r :: r in rows && r.committedRev.Some? ==> r.committedRev.value <= high
    ensures high == 0 || exists r :: r in rows && r.committedRev == Some(high)
  {
    if rows == [] then 0
    else
      var last, before := rows[|rows| - 1], HighWater(rows[..|rows| - 1]);
      if last.committedRev.Some? then Larger(before, last.committedRev.value) else before
  }

  /** The highest revision over the first collections. */
  function CursorOver(rows: seq<StoreRow>, collections: seq<string>): int {
    if collections == [] then 0
    else
      var init, last := collections[..|collections| - 1], collections[|collections| - 1];
      Larger(CursorOver(rows, init), HighWater(CollectionRows(rows, last)))
  }

  /** The files of the first collections, on top of the others. */
  function FilesOver(
      p: Platform, rows: seq<StoreRow>, others: map<string, string>, collections: seq<string>, since: Option<int>)
    : Option<map<string, string>>
  {
    if collections == [] then Some(others)
    else
      var init, last := collections[..|collections| - 1], collections[|collections| - 1];
      var files, text := FilesOver(p, rows, others, init, since), EventsFile(p, rows, last, since);
      if files.Some? && text.Some? then Some(files.value[EventsPath(last) := text.value]) else None
  }

  function Hashes(p: Platform, files: map<string, string>): map<string, string> {
    map path | path in files :: p.hash(files[path])
  }

  datatype ExportError = SchemaViolation

  /** `others` holds the files that are not event logs; `sign` is the device key, when there is one. */
  function Export(
      p: Platform, rows: seq<StoreRow>, workspace: string, others: map<string, string>,
      sign: Option<Core -> string>, since: Option<int>)
    : Result<Bundle, ExportError>
  {
    var files := FilesOver(p, rows, others, p.models, since);
    if files.None? then Err(SchemaViolation)
    else
      var core := Core(workspace, since, CursorOver(rows, p.models), Hashes(p, files.value));
      Ok(Bundle(core, if sign.Some? then Some(sign.value(core)) else None, files.value))
  }

  // --------------------------------------------------------------------------------- import

  datatype ImportError =
    | MissingFile
    | HashMismatch
    | BadManifestSignature
    | Unreadable(path: string)
    | NotCanonical(line: string)
    | Unverified(event: Event)
    | WrongSubject(event: Event)
    | Unattested(event: Event)
    | IntegrityError(event: Event)

  /** What an import trusts: the device roots and grants of the bundle, and whether a root attests all of it. */
  datatype Trust = Trust(roots: map<string, string>, grants: map<string, Grant>, attested: bool)

  function Gate(p: Platform, trust: Trust, e: Event): Option<ImportError> {
    if e.sig.Some? then
      var ref := if e.policyRef.Some? then e.policyRef.value else "";
      if ref !in trust.grants || trust.grants[ref].issuer !in trust.roots
         || !p.verifies(e, trust.roots[trust.grants[ref].issuer])
      then Some(Unverified(e))
      else if trust.grants[ref].subject != e.actorId then Some(WrongSubject(e))
      else None
    else if !trust.attested then Some(Unattested(e))
    else None
  }

  /** The imported log, and the revision it has reached. */
  datatype Imported = Imported(rows: seq<StoreRow>, rev: int)

  function ImportLines(p: Platform, trust: Trust, at: Imported, lines: seq<string>): Result<Imported, ImportError>
    decreases |lines|
  {
    if lines == [] then Ok(at)
    else
      var e := p.decode(lines[0]);
      if e.None? then Err(NotCanonical(lines[0]))
      else if Gate(p, trust, e.value).Some? then Err(Gate(p, trust, e.value).value)
      else if Clashes(EventsOf(at.rows), e.value) then Err(IntegrityError(e.value))
      else
        ImportLines(p, trust, Imported(at.rows + [StoreRow(e.value, Some(at.rev + 1), Committed)], at.rev + 1), lines[1..])
  }

  function FileOr(files: map<string, string>, path: string): string {
    if path in files then files[path] else ""
  }

  function ImportCollections(
      p: Platform, trust: Trust, files: map<string, string>, at: Imported, collections: seq<string>)
    : Result<Imported, ImportError>
    decreases |collections|
  {
    if collections == [] then Ok(at)
    else
      var first := ImportLines(p, trust, at, ReadLines(FileOr(files, EventsPath(collections[0]))));
      if first.Err? then first
      else ImportCollections(p, trust, files, first.value, collections[1..])
  }

  predicate HashesHold(p: Platform, bundle: Bundle) {
    forall path :: path in bundle.core.hashes ==>
      path in bundle.files && p.hash(bundle.files[path]) == bundle.core.hashes[path]
  }

  /** Some device root verifies the manifest's signature. */
  predicate IsAttested(p: Platform, bundle: Bundle, roots: map<string, string>) {
    bundle.signature.Some? && exists id :: id in roots && p.attests(bundle.core, bundle.signature.value, roots[id])
  }

  /** What is checked before the first event is read. */
  function Open(p: Platform, bundle: Bundle): Result<Trust, ImportError> {
    if TEAM !in bundle.files || ACTORS !in bundle.files then Err(MissingFile)
    else if !HashesHold(p, bundle) then Err(HashMismatch)
    else
      var roots, grants := p.roots(bundle.files[ACTORS]), p.grants(FileOr(bundle.files, GRANTS));
      if roots.None? then Err(Unreadable(ACTORS))
      else if bundle.signature.Some? && !IsAttested(p, bundle, roots.value) then Err(BadManifestSignature)
      else if grants.None? then Err(Unreadable(GRANTS))
      else Ok(Trust(roots.value, grants.value, IsAttested(p, bundle, roots.value)))
  }

  /** The events that an import inserts into a store that already holds `rows`; a fresh one holds none. */
  function Import(p: Platform, bundle: Bundle, rows: seq<StoreRow>): Result<Imported, ImportError> {
    var trust := Open(p, bundle);
    if trust.Err? then Err(trust.error)
    else ImportCollections(p, trust.value, bundle.files, Imported(rows, 0), p.team(bundle.files[TEAM]))
  }
}
