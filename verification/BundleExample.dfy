/** Small bundles: that what the round-trip theorems ask for can be met, and what an import refuses. */
module BundleExample {
  import opened Wrappers
  import opened Json
  import opened Text
  import opened Sequences
  import opened SyncEvents
  import opened EventStore
  import opened Bundle
  import opened BundleRoundTrip
  import opened BundleNormalForm

  /** A codec for finitely many events: what each is written as, and what each text means. */
  datatype Book = Book(writes: map<Event, string>, meanings: map<string, Event>)

  ghost predicate IsCodec(b: Book) {
    && (forall e :: e in b.writes ==> b.writes[e] in b.meanings && b.meanings[b.writes[e]] == e)
    && (forall t :: t in b.meanings ==> b.meanings[t] in b.writes && b.writes[b.meanings[t]] == t)
    && (forall t :: t in b.meanings ==> t != "" && t[0] == '{')
    && (forall t, k | 0 <= k < |t| && t in b.meanings :: t[..k] !in b.meanings)
  }

  function Write(b: Book, e: Event): Option<string> {
    if e in b.writes then Some(b.writes[e]) else None
  }

  function Read(b: Book, text: string): Option<Event> {
    if text in b.meanings then Some(b.meanings[text]) else None
  }

  /** A platform with that codec, and one device whose signatures all verify. */
  function PlatformOf(b: Book, models: seq<string>): Platform {
    Platform(models, e => Write(b, e), t => Read(b, t), text => text, (e, key) => true, (core, signature, key) => true,
             text => models, text => Some(map["device" := "key"]), text => Some(map[]))
  }

  const OTHERS := map[TEAM := "", ACTORS := ""]
  const SIGN: Option<Core -> string> := Some(core => "signature")

  lemma BookIsCanonical(b: Book, models: seq<string>)
    requires IsCodec(b)
    ensures IsCanonical(PlatformOf(b, models))
  {
  }

  /** A log without signatures that the codec can write. */
  ghost predicate IsSample(b: Book, models: seq<string>, rows: seq<StoreRow>) {
    && IsCodec(b) && NoRepeats(models) && DistinctKeys(EventsOf(rows))
    && forall e :: e in EventsOf(rows) ==> e in b.writes && e.sig.None?
  }

  lemma {:induction false} OnlyTickets(rows: seq<StoreRow>, models: seq<string>)
    requires NoRepeats(models) && DistinctKeys(EventsOf(rows))
    requires forall e :: e in EventsOf(rows) ==> e.collection == "tickets"
    ensures ExportedOver(rows, models) == if "tickets" in models then EventsOf(CollectionRows(rows, "tickets")) else []
  {
    if models != [] {
      OnlyTickets(rows, models[1..]);
      ExportedDistinct(rows, models[0], None);
      FullExportTakesAll(rows, models[0]);
      var exported := Exported(rows, models[0], None);
      if models[0] != "tickets" {
        assert forall e :: e !in exported;
        assert exported == [];
      } else {
        assert exported + [] == exported;
      }
    }
  }

  /**
   Such a log exports under a signed manifest, and imports exactly when no text has a line
   break; then it is numbered from 1.
   */
  lemma SampleRoundTripsIff(b: Book, models: seq<string>, rows: seq<StoreRow>) returns (bundle: Bundle)
    requires IsSample(b, models, rows)
    ensures IsFullExport(PlatformOf(b, models), rows, "w", OTHERS, SIGN, bundle)
    ensures var result, events := Import(PlatformOf(b, models), bundle, []), ExportedOver(rows, models);
            && (result.Ok? <==> forall e :: e in events ==> Write(b, e).Some? && !HasBreak(Write(b, e).value))
            && (result.Ok? ==> result.value.rows == Numbered(events, 0))
  {
    var p := PlatformOf(b, models);
    bundle := SampleExports(b, models, rows);
    ImportAcceptsIff(p, rows, "w", OTHERS, SIGN, bundle);
    ExportedOverDistinct(rows, models);
    var roots := p.roots(OTHERS[ACTORS]).value;
    assert "device" in roots && p.attests(bundle.core, bundle.signature.value, roots["device"]);
    UnsignedPass(p, TrustIn(p, OTHERS, bundle).value, ExportedOver(rows, models));
  }

  /** The same for a log of tickets alone. */
  lemma TicketsRoundTripIff(b: Book, models: seq<string>, rows: seq<StoreRow>) returns (bundle: Bundle)
    requires IsSample(b, models, rows) && "tickets" in models && forall e :: e in EventsOf(rows) ==> e.collection == "tickets"
    ensures IsFullExport(PlatformOf(b, models), rows, "w", OTHERS, SIGN, bundle)
    ensures var result, events := Import(PlatformOf(b, models), bundle, []), EventsOf(CollectionRows(rows, "tickets"));
            && (result.Ok? <==> forall e :: e in events ==> Write(b, e).Some? && !HasBreak(Write(b, e).value))
            && (result.Ok? ==> result.value.rows == Numbered(events, 0))
  {
    bundle := SampleRoundTripsIff(b, models, rows);
    OnlyTickets(rows, models);
  }

  lemma UnsignedPass(p: Platform, trust: Trust, events: seq<Event>)
    requires trust.attested && forall e :: e in events ==> e.sig.None?
    ensures AllPass(p, trust, events)
  {
  }

  lemma SampleExports(b: Book, models: seq<string>, rows: seq<StoreRow>) returns (bundle: Bundle)
    requires IsSample(b, models, rows)
    ensures IsFullExport(PlatformOf(b, models), rows, "w", OTHERS, SIGN, bundle) && bundle.signature.Some?
  {
    var p := PlatformOf(b, models);
    BookIsCanonical(b, models);
    EncodableFiles(p, rows, OTHERS, models, None);
    assert TEAM[0] != ACTORS[0];
    bundle := Export(p, rows, "w", OTHERS, SIGN, None).value;
  }

  // ---------------------------------------------------------------------------- two bundles

  const PLAIN := Event("e1", "tickets", "t", "m", 1, Patch, None, None, map["title" := Str("x")], None)

  function OnePage(e: Event, text: string): Book {
    Book(map[e := text], map[text := e])
  }

  lemma OneRowIsSorted(row: StoreRow)
    requires IsLive(row) && row.event.collection == "tickets"
    ensures CollectionRows([row], "tickets") == [row]
  {
    FilterKeepsAll([row], (r: StoreRow) => IsLive(r) && r.event.collection == "tickets");
    SortedStays([row]);
  }

  lemma OneRowIsSample(row: StoreRow, text: string, models: seq<string>)
    requires NoRepeats(models) && "tickets" in models
    requires row.event.collection == "tickets" && row.event.sig.None? && text != "" && text[0] == '{'
    ensures IsSample(OnePage(row.event, text), models, [row]) && EventsOf([row]) == [row.event]
  {
    assert EventsOf([row]) == [row.event] && [row.event][1..] == [];
    assert forall k :: 0 <= k < |text| ==> |text[..k]| < |text|;
  }

  /** A bundle of one event goes round exactly when its text has no line break; the revision becomes 1. */
  lemma OneEventRoundTripsIff(models: seq<string>, row: StoreRow, text: string) returns (bundle: Bundle)
    requires NoRepeats(models) && "tickets" in models && IsLive(row)
    requires row.event.collection == "tickets" && row.event.sig.None? && text != "" && text[0] == '{'
    ensures IsFullExport(PlatformOf(OnePage(row.event, text), models), [row], "w", OTHERS, SIGN, bundle)
    ensures var result := Import(PlatformOf(OnePage(row.event, text), models), bundle, []);
            && (result.Ok? <==> !HasBreak(text))
            && (result.Ok? ==> result.value.rows == [StoreRow(row.event, Some(1), Committed)])
  {
    OneRowIsSample(row, text, models);
    OneRowIsSorted(row);
    bundle := TicketsRoundTripIff(OnePage(row.event, text), models, [row]);
    assert EventsOf([row])[0] == row.event;
  }

  lemma PlainBundleRoundTrips(models: seq<string>) returns (bundle: Bundle)
    requires NoRepeats(models) && "tickets" in models
    ensures IsFullExport(PlatformOf(OnePage(PLAIN, "{}"), models), [StoreRow(PLAIN, Some(7), Committed)], "w", OTHERS, SIGN, bundle)
    ensures Import(PlatformOf(OnePage(PLAIN, "{}"), models), bundle, []).Ok?
  {
    bundle := OneEventRoundTripsIff(models, StoreRow(PLAIN, Some(7), Committed), "{}");
    assert !HasBreak("{}");
  }

  const SEPARATOR := "a\U{2028}b"
  const SEPARATED := Event("e1", "tickets", "t", "m", 1, Patch, None, None, map["title" := Str(SEPARATOR)], None)

  /** The event's text, as far as it matters: its title, quoted as the codec quotes. */
  const SEPARATED_TEXT := "{" + Quote(SEPARATOR) + "}"

  lemma SeparatorStays()
    ensures HasBreak(SEPARATED_TEXT)
  {
    assert StaysBreak(SEPARATOR[1]);
    QuotedBreaks(SEPARATOR);
    BreakInTwo("{" + Quote(SEPARATOR), "}");
    BreakInTwo("{", Quote(SEPARATOR));
  }

  /** A title with a line separator is exported, signed, and refused by the import of that very bundle. */
  lemma SeparatorIsRefused(models: seq<string>) returns (bundle: Bundle)
    requires NoRepeats(models) && "tickets" in models
    ensures IsFullExport(PlatformOf(OnePage(SEPARATED, SEPARATED_TEXT), models), [StoreRow(SEPARATED, Some(1), Committed)], "w",
                         OTHERS, SIGN, bundle)
    ensures Import(PlatformOf(OnePage(SEPARATED, SEPARATED_TEXT), models), bundle, []).Err?
  {
    SeparatorStays();
    bundle := OneEventRoundTripsIff(models, StoreRow(SEPARATED, Some(1), Committed), SEPARATED_TEXT);
  }
}
