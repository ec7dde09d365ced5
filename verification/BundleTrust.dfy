/** What an import takes in from any archive whatever: who has to vouch for it, and for each of its events. */
module BundleTrust {
  import opened Wrappers
  import opened Text
  import opened SyncEvents
  import opened EventStore
  import opened Bundle
  import opened BundleRoundTrip

  /** Some device root attests what the manifest's signature covers. */
  ghost predicate IsSigned(p: Platform, bundle: Bundle, roots: map<string, string>) {
    bundle.signature.Some? && exists device :: device in roots && p.attests(bundle.core, bundle.signature.value, roots[device])
  }

  /**
   A signed event needs a grant under its policy reference (an absent one reads as empty) that was issued by
   a device whose root verifies the event, to the event's actor; an unsigned one needs a signed archive.
   */
  ghost predicate IsVouchedFor(p: Platform, bundle: Bundle, roots: map<string, string>, grants: map<string, Grant>, e: Event) {
    if e.sig.Some? then
      exists reference ::
        && reference in grants && reference == (if e.policyRef.Some? then e.policyRef.value else "")
        && grants[reference].issuer in roots && p.verifies(e, roots[grants[reference].issuer])
        && grants[reference].subject == e.actorId
    else
      IsSigned(p, bundle, roots)
  }

  /** The archive has its team and its actors, and every file that the manifest lists, unchanged. */
  ghost predicate IsIntact(p: Platform, bundle: Bundle) {
    && "team_manifest.json" in bundle.files && "actors.ndjson" in bundle.files
    && forall path :: path in bundle.core.hashes ==>
         path in bundle.files && p.hash(bundle.files[path]) == bundle.core.hashes[path]
  }

  /** A file's records, none when it is not there. */
  function RecordsIn(files: map<string, string>, path: string): seq<string> {
    if path in files then ReadLines(files[path]) else []
  }

  /** The records of the collections' event files, one after the other. */
  function EventLines(files: map<string, string>, collections: seq<string>): seq<string> {
    if collections == [] then []
    else RecordsIn(files, "collections/" + collections[0] + "/events.ndjson") + EventLines(files, collections[1..])
  }

  /** No event shares its id, or its actor and number, with another or with a row that was there before. */
  ghost predicate HaveNewKeys(rows: seq<StoreRow>, events: seq<Event>) {
    && (forall i, j :: 0 <= i < |rows| && 0 <= j < |events| ==>
          && rows[i].event.eventId != events[j].eventId
          && !(rows[i].event.actorId == events[j].actorId && rows[i].event.actorSeq == events[j].actorSeq))
    && (forall i, j :: 0 <= i < j < |events| ==>
          && events[i].eventId != events[j].eventId
          && !(events[i].actorId == events[j].actorId && events[i].actorSeq == events[j].actorSeq))
  }

  /** The lines are the events, each of them vouched for and new. */
  ghost predicate Admissible(
      p: Platform, bundle: Bundle, roots: map<string, string>, grants: map<string, Grant>, rows: seq<StoreRow>,
      lines: seq<string>, events: seq<Event>)
  {
    && |events| == |lines|
    && (forall i :: 0 <= i < |events| ==>
          p.decode(lines[i]) == Some(events[i]) && IsVouchedFor(p, bundle, roots, grants, events[i]))
    && HaveNewKeys(rows, events)
  }

  // ------------------------------------------------------------------------------ one event

  lemma GateIff(p: Platform, bundle: Bundle, trust: Trust, e: Event)
    requires trust.attested <==> IsSigned(p, bundle, trust.roots)
    ensures Gate(p, trust, e).None? <==> IsVouchedFor(p, bundle, trust.roots, trust.grants, e)
  {
  }

  lemma ClashesIff(rows: seq<StoreRow>, e: Event)
    ensures !Clashes(EventsOf(rows), e) <==> HaveNewKeys(rows, [e])
  {
    var events := EventsOf(rows);
    if !Clashes(events, e) {
      forall i | 0 <= i < |rows| ensures !Clash(rows[i].event, e) {
        assert events[i] in events;
      }
    }
    if HaveNewKeys(rows, [e]) {
      forall f | f in events ensures !Clash(f, e) {
        var i :| 0 <= i < |events| && events[i] == f;
        assert [e][0] == e;
      }
    }
  }

  lemma NewKeysApart(rows: seq<StoreRow>, row: StoreRow, rest: seq<Event>)
    requires HaveNewKeys(rows, [row.event] + rest)
    ensures HaveNewKeys(rows, [row.event]) && HaveNewKeys(rows + [row], rest)
  {
    var all, after := [row.event] + rest, rows + [row];
    assert all[0] == row.event == [row.event][0];
    forall i, j | 0 <= i < |after| && 0 <= j < |rest| ensures !Clash(after[i].event, rest[j]) {
      assert all[j + 1] == rest[j];
    }
    forall i, j | 0 <= i < j < |rest| ensures !Clash(rest[i], rest[j]) {
      assert all[i + 1] == rest[i] && all[j + 1] == rest[j];
    }
    assert forall i :: 0 <= i < |rows| ==> rows[i].event.eventId != all[0].eventId;
  }

  lemma NewKeysTogether(rows: seq<StoreRow>, row: StoreRow, rest: seq<Event>)
    requires HaveNewKeys(rows, [row.event]) && HaveNewKeys(rows + [row], rest)
    ensures HaveNewKeys(rows, [row.event] + rest)
  {
    var all, after := [row.event] + rest, rows + [row];
    assert after[|rows|] == row && [row.event][0] == all[0];
    forall i, j | 0 <= i < |rows| && 0 <= j < |all| ensures !Clash(rows[i].event, all[j]) {
      assert j > 0 ==> all[j] == rest[j - 1] && after[i] == rows[i];
    }
    forall i, j | 0 <= i < j < |all| ensures !Clash(all[i], all[j]) {
      assert all[j] == rest[j - 1];
      assert i > 0 ==> all[i] == rest[i - 1];
    }
  }

  // ------------------------------------------------------------------------------ the lines

  lemma AdmissibleInTwo(
      p: Platform, bundle: Bundle, roots: map<string, string>, grants: map<string, Grant>, rows: seq<StoreRow>,
      lines: seq<string>, row: StoreRow, rest: seq<Event>)
    requires lines != []
    ensures Admissible(p, bundle, roots, grants, rows, lines, [row.event] + rest)
       <==> && p.decode(lines[0]) == Some(row.event) && IsVouchedFor(p, bundle, roots, grants, row.event)
            && HaveNewKeys(rows, [row.event])
            && Admissible(p, bundle, roots, grants, rows + [row], lines[1..], rest)
  {
    var all := [row.event] + rest;
    if HaveNewKeys(rows, all) {
      NewKeysApart(rows, row, rest);
    }
    if HaveNewKeys(rows, [row.event]) && HaveNewKeys(rows + [row], rest) {
      NewKeysTogether(rows, row, rest);
    }
    assert all[0] == row.event && forall j :: 0 <= j < |rest| ==> all[j + 1] == rest[j];
    assert forall j :: 0 <= j < |lines| - 1 ==> lines[1..][j] == lines[j + 1];
    if Admissible(p, bundle, roots, grants, rows, lines, all) {
      forall j | 0 <= j < |rest|
        ensures p.decode(lines[1..][j]) == Some(rest[j]) && IsVouchedFor(p, bundle, roots, grants, rest[j])
      {
        assert p.decode(lines[j + 1]) == Some(all[j + 1]);
      }
    }
  }

  lemma FirstOfNumbered(at: Imported, e: Event, rest: seq<Event>)
    ensures NumberedOn(at, [e] + rest)
         == NumberedOn(Imported(at.rows + [StoreRow(e, Some(at.rev + 1), Committed)], at.rev + 1), rest)
  {
    OneThenRest(e, rest, at.rev);
    InThree(at.rows, [StoreRow(e, Some(at.rev + 1), Committed)], Numbered(rest, at.rev + 1));
  }

  lemma OneThenRest(e: Event, rest: seq<Event>, rev: int)
    ensures Numbered([e] + rest, rev) == [StoreRow(e, Some(rev + 1), Committed)] + Numbered(rest, rev + 1)
  {
    assert ([e] + rest)[1..] == rest;
  }

  /** What is imported is admissible, and numbered on. */
  lemma {:induction false} ImportedIsAdmissible(p: Platform, bundle: Bundle, trust: Trust, at: Imported, lines: seq<string>)
      returns (events: seq<Event>)
    requires trust.attested <==> IsSigned(p, bundle, trust.roots)
    requires ImportLines(p, trust, at, lines).Ok?
    ensures Admissible(p, bundle, trust.roots, trust.grants, at.rows, lines, events)
    ensures ImportLines(p, trust, at, lines) == Ok(NumberedOn(at, events))
    decreases |lines|
  {
    events := [];
    if lines != [] {
      var e := p.decode(lines[0]).value;
      var row := StoreRow(e, Some(at.rev + 1), Committed);
      GateIff(p, bundle, trust, e);
      ClashesIff(at.rows, e);
      var rest := ImportedIsAdmissible(p, bundle, trust, Imported(at.rows + [row], at.rev + 1), lines[1..]);
      AdmissibleInTwo(p, bundle, trust.roots, trust.grants, at.rows, lines, row, rest);
      FirstOfNumbered(at, e, rest);
      events := [e] + rest;
    } else {
      assert at.rows + Numbered([], at.rev) == at.rows;
    }
  }

  /** What is admissible is imported, and numbered on. */
  lemma {:induction false} AdmissibleIsImported(
      p: Platform, bundle: Bundle, trust: Trust, at: Imported, lines: seq<string>, events: seq<Event>)
    requires trust.attested <==> IsSigned(p, bundle, trust.roots)
    requires Admissible(p, bundle, trust.roots, trust.grants, at.rows, lines, events)
    ensures ImportLines(p, trust, at, lines) == Ok(NumberedOn(at, events))
    decreases |lines|
  {
    if lines != [] {
      var e, rest := events[0], events[1..];
      var row := StoreRow(e, Some(at.rev + 1), Committed);
      assert events == [e] + rest;
      AdmissibleInTwo(p, bundle, trust.roots, trust.grants, at.rows, lines, row, rest);
      GateIff(p, bundle, trust, e);
      ClashesIff(at.rows, e);
      AdmissibleIsImported(p, bundle, trust, Imported(at.rows + [row], at.rev + 1), lines[1..], rest);
      FirstOfNumbered(at, e, rest);
    } else {
      assert at.rows + Numbered([], at.rev) == at.rows;
    }
  }

  lemma {:induction false} ImportLinesInTwo(p: Platform, trust: Trust, at: Imported, xs: seq<string>, ys: seq<string>)
    ensures ImportLines(p, trust, at, xs + ys) ==
            var first := ImportLines(p, trust, at, xs);
            if first.Err? then first else ImportLines(p, trust, first.value, ys)
    decreases |xs|
  {
    if xs == [] {
      assert xs + ys == ys;
    } else {
      assert (xs + ys)[1..] == xs[1..] + ys;
      var e := p.decode(xs[0]);
      if e.Some? {
        ImportLinesInTwo(p, trust, Imported(at.rows + [StoreRow(e.value, Some(at.rev + 1), Committed)], at.rev + 1), xs[1..], ys);
      }
    }
  }

  /** The import of the files one after the other is that of all their records. */
  lemma {:induction false} CollectionsAreLines(
      p: Platform, trust: Trust, files: map<string, string>, at: Imported, collections: seq<string>)
    ensures ImportCollections(p, trust, files, at, collections) == ImportLines(p, trust, at, EventLines(files, collections))
    decreases |collections|
  {
    if collections != [] {
      var path := EventsPath(collections[0]);
      assert path == "collections/" + collections[0] + "/events.ndjson";
      assert ReadLines(FileOr(files, path)) == RecordsIn(files, path);
      ImportLinesInTwo(p, trust, at, RecordsIn(files, path), EventLines(files, collections[1..]));
      var first := ImportLines(p, trust, at, RecordsIn(files, path));
      if first.Ok? {
        CollectionsAreLines(p, trust, files, first.value, collections[1..]);
      }
    }
  }

  // ---------------------------------------------------------------------------- the archive

  /** The archive is whole, its actors and grants can be read, and a signature that it has is some device's. */
  ghost predicate IsReadable(p: Platform, bundle: Bundle) {
    && IsIntact(p, bundle)
    && var roots := p.roots(bundle.files["actors.ndjson"]);
       && roots.Some? && p.grants(if "grants.ndjson" in bundle.files then bundle.files["grants.ndjson"] else "").Some?
       && (bundle.signature.Some? ==> IsSigned(p, bundle, roots.value))
  }

  /** Of an archive that can be read, the events that it would have a store take in. */
  ghost predicate Brings(p: Platform, bundle: Bundle, rows: seq<StoreRow>, events: seq<Event>)
    requires IsReadable(p, bundle)
  {
    var roots := p.roots(bundle.files["actors.ndjson"]).value;
    var grants := p.grants(if "grants.ndjson" in bundle.files then bundle.files["grants.ndjson"] else "").value;
    Admissible(p, bundle, roots, grants, rows, EventLines(bundle.files, p.team(bundle.files["team_manifest.json"])), events)
  }

  lemma OpenIff(p: Platform, bundle: Bundle)
    ensures Open(p, bundle).Ok? <==> IsReadable(p, bundle)
    ensures IsReadable(p, bundle) ==>
              var trust, roots := Open(p, bundle).value, p.roots(bundle.files["actors.ndjson"]).value;
              && trust.roots == roots && (trust.attested <==> IsSigned(p, bundle, roots))
              && Some(trust.grants) == p.grants(if "grants.ndjson" in bundle.files then bundle.files["grants.ndjson"] else "")
  {
  }

  /** An archive is imported exactly when it can be read and all its records are events that are vouched for and new. */
  lemma ImportIff(p: Platform, bundle: Bundle, rows: seq<StoreRow>)
    ensures Import(p, bundle, rows).Ok? <==> IsReadable(p, bundle) && exists events :: Brings(p, bundle, rows, events)
    ensures IsReadable(p, bundle) ==> forall events :: Brings(p, bundle, rows, events) ==>
              Import(p, bundle, rows) == Ok(Imported(rows + Numbered(events, 0), |events|))
  {
    OpenIff(p, bundle);
    if IsReadable(p, bundle) {
      var trust, collections := Open(p, bundle).value, p.team(bundle.files["team_manifest.json"]);
      var lines := EventLines(bundle.files, collections);
      CollectionsAreLines(p, trust, bundle.files, Imported(rows, 0), collections);
      forall events | Brings(p, bundle, rows, events)
        ensures Import(p, bundle, rows) == Ok(Imported(rows + Numbered(events, 0), |events|))
      {
        AdmissibleIsImported(p, bundle, trust, Imported(rows, 0), lines, events);
      }
      if Import(p, bundle, rows).Ok? {
        var events := ImportedIsAdmissible(p, bundle, trust, Imported(rows, 0), lines);
        assert Brings(p, bundle, rows, events);
      }
    }
  }
}
