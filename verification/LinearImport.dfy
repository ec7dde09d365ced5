/** The importer from Linear: tickets, then their parents, then comments; safe to run again. */
module LinearImport {
  import opened Wrappers
  import opened Json
  import opened Text
  import opened Sequences

  /** Ids the importer derives by hashing, and all others; the hash is taken to be collision-free. */
  datatype Id = TicketId(linear: string) | CommentId(key: string) | OtherId(name: string)

  type Columns = map<string, Json>

  /** A ticket of the export; `columns` are its values in our vocabulary, `parent` is absent when empty. */
  datatype RawTicket = RawTicket(id: string, parent: Option<string>, columns: Columns, isEpic: bool)

  /** A comment of the export; `id` and `created` are absent when empty. */
  datatype RawComment = RawComment(id: Option<string>, ticketId: string, created: Option<string>, body: string)

  /** `tickets` is absent unless it is a list. */
  datatype Payload = Payload(tickets: Option<seq<RawTicket>>, comments: seq<RawComment>)

  datatype Ticket = Ticket(columns: Columns, parent: Option<Id>)
  datatype Comment = Comment(ticket: Id, body: string)

  datatype Tables = Tables(tickets: map<Id, Ticket>, comments: map<Id, Comment>)

  datatype Emitted = TicketPatch(id: Id, ticket: Ticket) | ParentPatch(id: Id, parent: Id) | CommentAppend(id: Id, comment: Comment)

  datatype Store = Store(tables: Tables, events: seq<Emitted>, audited: seq<Id>)

  datatype Counts = Counts(tickets: nat, comments: nat, parentLinks: nat, epics: nat, skippedTickets: nat, skippedComments: nat)

  datatype LinearImportError = NoTickets

  // ------------------------------------------------------------------------------ the three passes

  /** The store, the ids of all tickets met and of those created, and the counts so far. */
  datatype Run = Run(store: Store, idFor: map<string, Id>, created: map<string, Id>, counts: Counts)

  function AddTicket(store: Store, id: Id, ticket: Ticket): Store {
    Store(store.tables.(tickets := store.tables.tickets[id := ticket]),
          store.events + [TicketPatch(id, ticket)], store.audited + [id])
  }

  function SetParent(store: Store, id: Id, parent: Id): Store
    requires id in store.tables.tickets
  {
    store.(tables := store.tables.(tickets := store.tables.tickets[id := store.tables.tickets[id].(parent := Some(parent))]),
           events := store.events + [ParentPatch(id, parent)])
  }

  function AddComment(store: Store, id: Id, comment: Comment): Store {
    Store(store.tables.(comments := store.tables.comments[id := comment]),
          store.events + [CommentAppend(id, comment)], store.audited + [id])
  }

  function CreateTicket(s: Run, raw: RawTicket): Run {
    var id := TicketId(raw.id);
    var met := s.(idFor := s.idFor[raw.id := id]);
    if id in s.store.tables.tickets then met.(counts := s.counts.(skippedTickets := s.counts.skippedTickets + 1))
    else
      met.(store := AddTicket(s.store, id, Ticket(raw.columns, None)),
           created := s.created[raw.id := id],
           counts := s.counts.(tickets := s.counts.tickets + 1, epics := s.counts.epics + if raw.isEpic then 1 else 0))
  }

  function CreateTickets(s: Run, tickets: seq<RawTicket>): Run
    decreases |tickets|
  {
    if tickets == [] then s else CreateTickets(CreateTicket(s, tickets[0]), tickets[1..])
  }

  /** Only a ticket created in this run is linked, and only to a parent met in it. */
  function LinkParent(s: Run, raw: RawTicket): Run {
    if raw.parent.None? || raw.id !in s.created || raw.parent.value !in s.idFor
       || s.created[raw.id] !in s.store.tables.tickets
    then s
    else
      s.(store := SetParent(s.store, s.created[raw.id], s.idFor[raw.parent.value]),
         counts := s.counts.(parentLinks := s.counts.parentLinks + 1))
  }

  function LinkParents(s: Run, tickets: seq<RawTicket>): Run
    decreases |tickets|
  {
    if tickets == [] then s else LinkParents(LinkParent(s, tickets[0]), tickets[1..])
  }

  /** The key of a comment: its id, or its ticket with its time stamp, or with the count of comments created so far. */
  function Key(raw: RawComment, count: nat): string {
    if raw.id.Some? then raw.id.value
    else raw.ticketId + ":" + (if raw.created.Some? then raw.created.value else Decimal(count))
  }

  predicate IsOrphan(s: Run, raw: RawComment) {
    raw.ticketId !in s.idFor || s.idFor[raw.ticketId] !in s.store.tables.tickets
  }

  function ImportComment(s: Run, raw: RawComment): Run {
    var id := CommentId(Key(raw, s.counts.comments));
    if IsOrphan(s, raw) then s
    else if id in s.store.tables.comments then s.(counts := s.counts.(skippedComments := s.counts.skippedComments + 1))
    else
      s.(store := AddComment(s.store, id, Comment(s.idFor[raw.ticketId], raw.body)),
         counts := s.counts.(comments := s.counts.comments + 1))
  }

  function ImportComments(s: Run, comments: seq<RawComment>): Run
    decreases |comments|
  {
    if comments == [] then s else ImportComments(ImportComment(s, comments[0]), comments[1..])
  }

  const NOTHING_YET := Counts(0, 0, 0, 0, 0, 0)

  function Tickets(store: Store, tickets: seq<RawTicket>): Run {
    LinkParents(CreateTickets(Run(store, map[], map[], NOTHING_YET), tickets), tickets)
  }

  function Import(store: Store, tickets: seq<RawTicket>, comments: seq<RawComment>): Run {
    ImportComments(Tickets(store, tickets), comments)
  }

  // ---------------------------------------------------------------------------- what stays true

  function Apply(t: Tables, e: Emitted): Tables {
    match e
    case TicketPatch(id, ticket) => t.(tickets := t.tickets[id := ticket])
    case ParentPatch(id, parent) =>
      if id in t.tickets then t.(tickets := t.tickets[id := t.tickets[id].(parent := Some(parent))]) else t
    case CommentAppend(id, comment) => t.(comments := t.comments[id := comment])
  }

  /** What a replica has once the events have been applied in order. */
  function Replay(t: Tables, events: seq<Emitted>): Tables {
    if events == [] then t else Apply(Replay(t, events[..|events| - 1]), events[|events| - 1])
  }

  /** Parents of tickets and tickets of comments exist. */
  ghost predicate HasForeignKeys(t: Tables) {
    && (forall id :: id in t.tickets && t.tickets[id].parent.Some? ==> t.tickets[id].parent.value in t.tickets)
    && (forall id :: id in t.comments ==> t.comments[id].ticket in t.tickets)
  }

  /** After each of the events, that is. */
  ghost predicate KeysHoldThroughout(t: Tables, events: seq<Emitted>) {
    HasForeignKeys(Replay(t, events)) && (events != [] ==> KeysHoldThroughout(t, events[..|events| - 1]))
  }

  /** The events a run has added to those of `start`. */
  function Added(start: Store, store: Store): seq<Emitted> {
    if |start.events| <= |store.events| then store.events[|start.events|..] else []
  }

  /**
   The events a run has emitted rebuild its tables from those it began with, no moment of the log
   misses a parent or a ticket, and every row created is audited.
   */
  ghost predicate Faithful(start: Store, store: Store) {
    && start.events <= store.events
    && Replay(start.tables, Added(start, store)) == store.tables
    && KeysHoldThroughout(start.tables, Added(start, store))
    && start.audited <= store.audited
    && store.audited[|start.audited|..] == Creations(Added(start, store))
  }

  /** The rows that events create, in order. */
  function Creations(events: seq<Emitted>): seq<Id> {
    if events == [] then []
    else
      var init, last := Creations(events[..|events| - 1]), events[|events| - 1];
      if last.ParentPatch? then init else init + [last.id]
  }

  lemma FaithfulStep(start: Store, store: Store, next: Store, e: Emitted)
    requires Faithful(start, store)
    requires next.events == store.events + [e] && next.tables == Apply(store.tables, e) && HasForeignKeys(next.tables)
    requires next.audited == store.audited + if e.ParentPatch? then [] else [e.id]
    ensures Faithful(start, next)
  {
    var before, after := Added(start, store), Added(start, next);
    assert after == before + [e];
    assert after[..|after| - 1] == before;
    assert Creations(after) == if e.ParentPatch? then Creations(before) else Creations(before) + [e.id];
    assert next.audited[|start.audited|..] == store.audited[|start.audited|..] + if e.ParentPatch? then [] else [e.id];
  }

  /** Every ticket met is there, under the id derived for it. */
  ghost predicate MetExist(s: Run) {
    && (forall l :: l in s.idFor ==> s.idFor[l] == TicketId(l) && s.idFor[l] in s.store.tables.tickets)
    && (forall l :: l in s.created ==> l in s.idFor && s.created[l] == s.idFor[l])
  }

  ghost predicate Inv(start: Store, s: Run) {
    Faithful(start, s.store) && HasForeignKeys(s.store.tables) && MetExist(s)
  }

  lemma CreateTicketKeepsInv(start: Store, s: Run, raw: RawTicket)
    requires Inv(start, s)
    ensures Inv(start, CreateTicket(s, raw))
  {
    var id := TicketId(raw.id);
    if id !in s.store.tables.tickets {
      FaithfulStep(start, s.store, CreateTicket(s, raw).store, TicketPatch(id, Ticket(raw.columns, None)));
    }
  }

  lemma LinkParentKeepsInv(start: Store, s: Run, raw: RawTicket)
    requires Inv(start, s)
    ensures Inv(start, LinkParent(s, raw))
  {
    var next := LinkParent(s, raw);
    if next != s {
      FaithfulStep(start, s.store, next.store, ParentPatch(s.created[raw.id], s.idFor[raw.parent.value]));
    }
  }

  lemma ImportCommentKeepsInv(start: Store, s: Run, raw: RawComment)
    requires Inv(start, s)
    ensures Inv(start, ImportComment(s, raw))
  {
    var id := CommentId(Key(raw, s.counts.comments));
    if !IsOrphan(s, raw) && id !in s.store.tables.comments {
      var next := ImportComment(s, raw);
      FaithfulStep(start, s.store, next.store, CommentAppend(id, Comment(s.idFor[raw.ticketId], raw.body)));
    }
  }

  lemma {:induction false} CreateTicketsKeepInv(start: Store, s: Run, tickets: seq<RawTicket>)
    requires Inv(start, s)
    ensures Inv(start, CreateTickets(s, tickets))
    decreases |tickets|
  {
    if tickets != [] {
      CreateTicketKeepsInv(start, s, tickets[0]);
      CreateTicketsKeepInv(start, CreateTicket(s, tickets[0]), tickets[1..]);
    }
  }

  lemma {:induction false} LinkParentsKeepInv(start: Store, s: Run, tickets: seq<RawTicket>)
    requires Inv(start, s)
    ensures Inv(start, LinkParents(s, tickets))
    decreases |tickets|
  {
    if tickets != [] {
      LinkParentKeepsInv(start, s, tickets[0]);
      LinkParentsKeepInv(start, LinkParent(s, tickets[0]), tickets[1..]);
    }
  }

  lemma {:induction false} ImportCommentsKeepInv(start: Store, s: Run, comments: seq<RawComment>)
    requires Inv(start, s)
    ensures Inv(start, ImportComments(s, comments))
    decreases |comments|
  {
    if comments != [] {
      ImportCommentKeepsInv(start, s, comments[0]);
      ImportCommentsKeepInv(start, ImportComment(s, comments[0]), comments[1..]);
    }
  }

  /** An import leaves a faithful event log, and no dangling reference at any moment. */
  lemma ImportIsFaithful(store: Store, tickets: seq<RawTicket>, comments: seq<RawComment>)
    requires HasForeignKeys(store.tables)
    ensures Faithful(store, Import(store, tickets, comments).store)
    ensures HasForeignKeys(Import(store, tickets, comments).store.tables)
  {
    var s := Run(store, map[], map[], NOTHING_YET);
    assert Added(store, store) == [];
    CreateTicketsKeepInv(store, s, tickets);
    LinkParentsKeepInv(store, CreateTickets(s, tickets), tickets);
    ImportCommentsKeepInv(store, Tickets(store, tickets), comments);
  }

  // ------------------------------------------------------------------------ what is made of it

  /** A ticket is created at its first mention, if it was not there before. */
  predicate IsCreatedAt(store: Store, tickets: seq<RawTicket>, i: nat)
    requires i < |tickets|
  {
    TicketId(tickets[i].id) !in store.tables.tickets && forall j :: 0 <= j < i ==> tickets[j].id != tickets[i].id
  }

  /** Which of the first tickets are created, and which of those are epics. */
  ghost function CreatedOf(store: Store, tickets: seq<RawTicket>, n: nat): set<nat>
    requires n <= |tickets|
  {
    set i: nat | i < n && IsCreatedAt(store, tickets, i)
  }

  ghost function EpicsOf(store: Store, tickets: seq<RawTicket>, n: nat): set<nat>
    requires n <= |tickets|
  {
    set i | i in CreatedOf(store, tickets, n) && tickets[i].isEpic
  }

  lemma OneMoreMember(some: set<nat>, n: nat, added: bool, all: set<nat>)
    requires n !in some && forall i :: i in all <==> i in some || (i == n && added)
    ensures |all| == |some| + if added then 1 else 0
  {
    if added {
      assert all == some + {n};
    } else {
      assert all == some;
    }
  }

  lemma OneMoreOf(store: Store, tickets: seq<RawTicket>, n: nat)
    requires n < |tickets|
    ensures |CreatedOf(store, tickets, n + 1)| == |CreatedOf(store, tickets, n)| + if IsCreatedAt(store, tickets, n) then 1 else 0
    ensures |EpicsOf(store, tickets, n + 1)|
         == |EpicsOf(store, tickets, n)| + if IsCreatedAt(store, tickets, n) && tickets[n].isEpic then 1 else 0
  {
    OneMoreMember(CreatedOf(store, tickets, n), n, IsCreatedAt(store, tickets, n), CreatedOf(store, tickets, n + 1));
    OneMoreMember(EpicsOf(store, tickets, n), n, IsCreatedAt(store, tickets, n) && tickets[n].isEpic, EpicsOf(store, tickets, n + 1));
  }

  /** The names of the first tickets, and the ids derived from them. */
  ghost function NamesOf(tickets: seq<RawTicket>, n: nat): set<string>
    requires n <= |tickets|
  {
    set j: nat | j < n :: tickets[j].id
  }

  ghost function IdsOf(names: set<string>): set<Id> {
    set l | l in names :: TicketId(l)
  }

  /** The first tickets are all there, and no others besides those that were. */
  ghost predicate HasTickets(store: Store, tickets: seq<RawTicket>, n: nat, s: Run)
    requires n <= |tickets|
  {
    && s.idFor.Keys == NamesOf(tickets, n)
    && s.store.tables.tickets.Keys == store.tables.tickets.Keys + IdsOf(NamesOf(tickets, n))
    && s.store.tables.comments == store.tables.comments
  }

  /** Each is counted as created, perhaps as an epic, or as skipped. */
  ghost predicate AreCounted(store: Store, tickets: seq<RawTicket>, n: nat, counts: Counts)
    requires n <= |tickets|
  {
    && counts.tickets == |CreatedOf(store, tickets, n)| && counts.epics == |EpicsOf(store, tickets, n)|
    && counts.tickets + counts.skippedTickets == n
    && counts.comments == counts.skippedComments == counts.parentLinks == 0
  }

  lemma {:induction false} CreatingEmits(s: Run, tickets: seq<RawTicket>)
    requires MetExist(s)
    ensures var all := CreateTickets(s, tickets);
            MetExist(all) && |all.store.events| == |s.store.events| + all.counts.tickets - s.counts.tickets
    decreases |tickets|
  {
    if tickets != [] {
      CreatingEmits(CreateTicket(s, tickets[0]), tickets[1..]);
    }
  }

  lemma OneMoreTicket(store: Store, tickets: seq<RawTicket>, n: nat, s: Run)
    requires n < |tickets| && HasTickets(store, tickets, n, s)
    ensures HasTickets(store, tickets, n + 1, CreateTicket(s, tickets[n]))
    ensures TicketId(tickets[n].id) !in s.store.tables.tickets <==> IsCreatedAt(store, tickets, n)
  {
    assert NamesOf(tickets, n + 1) == NamesOf(tickets, n) + {tickets[n].id};
    assert IdsOf(NamesOf(tickets, n + 1)) == IdsOf(NamesOf(tickets, n)) + {TicketId(tickets[n].id)};
    assert tickets[n].id in NamesOf(tickets, n) <==> TicketId(tickets[n].id) in IdsOf(NamesOf(tickets, n));
  }

  lemma OneMoreCounted(store: Store, tickets: seq<RawTicket>, n: nat, s: Run)
    requires n < |tickets| && AreCounted(store, tickets, n, s.counts)
    requires TicketId(tickets[n].id) !in s.store.tables.tickets <==> IsCreatedAt(store, tickets, n)
    ensures AreCounted(store, tickets, n + 1, CreateTicket(s, tickets[n]).counts)
  {
    OneMoreOf(store, tickets, n);
  }

  ghost predicate IsMet(store: Store, tickets: seq<RawTicket>, n: nat, s: Run)
    requires n <= |tickets|
  {
    HasTickets(store, tickets, n, s) && AreCounted(store, tickets, n, s.counts)
  }

  lemma OneMoreMet(store: Store, tickets: seq<RawTicket>, n: nat, s: Run)
    requires n < |tickets| && IsMet(store, tickets, n, s)
    ensures IsMet(store, tickets, n + 1, CreateTicket(s, tickets[n]))
  {
    OneMoreTicket(store, tickets, n, s);
    OneMoreCounted(store, tickets, n, s);
  }

  lemma {:induction false} AllMet(store: Store, tickets: seq<RawTicket>, n: nat, s: Run)
    requires n <= |tickets| && IsMet(store, tickets, n, s)
    ensures IsMet(store, tickets, |tickets|, CreateTickets(s, tickets[n..]))
    decreases |tickets| - n
  {
    if n < |tickets| {
      OneMoreMet(store, tickets, n, s);
      assert tickets[n..][0] == tickets[n] && tickets[n..][1..] == tickets[n + 1..];
      AllMet(store, tickets, n + 1, CreateTicket(s, tickets[n]));
    }
  }

  /** Linking counts its events, and leaves all else that has been met and counted. */
  lemma {:induction false} LinkingCounts(s: Run, tickets: seq<RawTicket>)
    ensures var linked := LinkParents(s, tickets);
            && linked.store.tables.tickets.Keys == s.store.tables.tickets.Keys
            && linked.store.tables.comments == s.store.tables.comments
            && linked.idFor == s.idFor && linked.created == s.created
            && |linked.store.events| == |s.store.events| + linked.counts.parentLinks - s.counts.parentLinks
            && linked.counts == s.counts.(parentLinks := linked.counts.parentLinks)
    decreases |tickets|
  {
    if tickets != [] {
      LinkingCounts(LinkParent(s, tickets[0]), tickets[1..]);
    }
  }

  /** The id of the row that a comment of the export may be given: by its own id, or by its ticket and its time stamp or some count. */
  ghost predicate IsIdOf(id: Id, raw: RawComment) {
    if raw.id.Some? then id == CommentId(raw.id.value)
    else if raw.created.Some? then id == CommentId(raw.ticketId + ":" + raw.created.value)
    else exists n: nat :: id == CommentId(raw.ticketId + ":" + Decimal(n))
  }

  /** Of the first comments, those whose ticket is met have rows, and no others have been added. */
  ghost predicate HasComments(before: Run, comments: seq<RawComment>, n: nat, s: Run)
    requires n <= |comments|
  {
    && s.idFor == before.idFor && s.store.tables.tickets == before.store.tables.tickets
    && (forall id :: id in before.store.tables.comments ==>
          id in s.store.tables.comments && s.store.tables.comments[id] == before.store.tables.comments[id])
    && (forall j :: 0 <= j < n && comments[j].ticketId in before.idFor ==>
          exists id :: id in s.store.tables.comments && IsIdOf(id, comments[j]))
    && (forall id :: id in s.store.tables.comments && id !in before.store.tables.comments ==>
          exists j :: 0 <= j < n && IsRowOf(s, id, comments[j]))
  }

  /** The row under an id is what a comment whose ticket is met is turned into. */
  ghost predicate IsRowOf(s: Run, id: Id, raw: RawComment)
    requires id in s.store.tables.comments
  {
    && IsIdOf(id, raw) && raw.ticketId in s.idFor
    && s.store.tables.comments[id] == Comment(s.idFor[raw.ticketId], raw.body)
  }

  lemma OneMoreComment(before: Run, comments: seq<RawComment>, n: nat, s: Run)
    requires n < |comments| && HasComments(before, comments, n, s)
    requires forall l :: l in s.idFor ==> s.idFor[l] in s.store.tables.tickets
    ensures HasComments(before, comments, n + 1, ImportComment(s, comments[n]))
  {
    var raw, next := comments[n], ImportComment(s, comments[n]);
    var id := CommentId(Key(raw, s.counts.comments));
    assert IsIdOf(id, raw);
    RowsStay(s, raw);
    forall j | 0 <= j < n + 1 && comments[j].ticketId in before.idFor
      ensures exists other :: other in next.store.tables.comments && IsIdOf(other, comments[j])
    {
      if j == n {
        assert id in next.store.tables.comments;
      }
    }
    forall other | other in next.store.tables.comments && other !in before.store.tables.comments
      ensures exists j :: 0 <= j < n + 1 && IsRowOf(next, other, comments[j])
    {
      if other in s.store.tables.comments {
        var j :| 0 <= j < n && IsRowOf(s, other, comments[j]);
        assert IsRowOf(next, other, comments[j]);
      } else {
        assert IsRowOf(next, other, comments[n]);
      }
    }
  }

  lemma RowsStay(s: Run, raw: RawComment)
    ensures var next := ImportComment(s, raw);
            && next.idFor == s.idFor && next.store.tables.tickets == s.store.tables.tickets
            && forall id :: id in s.store.tables.comments ==>
                 id in next.store.tables.comments && next.store.tables.comments[id] == s.store.tables.comments[id]
  {
  }

  lemma {:induction false} AllComments(before: Run, comments: seq<RawComment>, n: nat, s: Run)
    requires n <= |comments| && HasComments(before, comments, n, s)
    requires forall l :: l in s.idFor ==> s.idFor[l] in s.store.tables.tickets
    ensures HasComments(before, comments, |comments|, ImportComments(s, comments[n..]))
    decreases |comments| - n
  {
    if n < |comments| {
      OneMoreComment(before, comments, n, s);
      assert comments[n..][0] == comments[n] && comments[n..][1..] == comments[n + 1..];
      AllComments(before, comments, n + 1, ImportComment(s, comments[n]));
    }
  }

  /** Every comment of a ticket met is counted as created or as skipped; what is created adds a row. */
  lemma {:induction false} CommentsCount(s: Run, comments: seq<RawComment>)
    requires forall l :: l in s.idFor ==> s.idFor[l] in s.store.tables.tickets
    ensures var all := ImportComments(s, comments);
            && |all.store.tables.comments| == |s.store.tables.comments| + all.counts.comments - s.counts.comments
            && |all.store.events| == |s.store.events| + all.counts.comments - s.counts.comments
            && all.counts.comments + all.counts.skippedComments
               == s.counts.comments + s.counts.skippedComments + |Filter(comments, (raw: RawComment) => raw.ticketId in s.idFor)|
            && all.counts == s.counts.(comments := all.counts.comments, skippedComments := all.counts.skippedComments)
    decreases |comments|
  {
    if comments != [] {
      CommentsCount(ImportComment(s, comments[0]), comments[1..]);
    }
  }

  /** Of the comments of an export, those whose ticket is in it. */
  function Attached(tickets: seq<RawTicket>, comments: seq<RawComment>): seq<RawComment> {
    Filter(comments, (raw: RawComment) => exists j :: 0 <= j < |tickets| && tickets[j].id == raw.ticketId)
  }

  /** What the counts of an import say: which tickets and comments it created, and how many events that took. */
  ghost predicate Tells(before: Store, tickets: seq<RawTicket>, comments: seq<RawComment>, after: Store, counts: Counts) {
    && counts.tickets == |CreatedOf(before, tickets, |tickets|)| && counts.epics == |EpicsOf(before, tickets, |tickets|)|
    && counts.tickets + counts.skippedTickets == |tickets|
    && counts.comments + counts.skippedComments == |Attached(tickets, comments)|
    && |after.tables.comments| == |before.tables.comments| + counts.comments
    && |after.events| == |before.events| + counts.tickets + counts.parentLinks + counts.comments
  }

  /** A row for each comment whose ticket is in the export, and no other new one. */
  ghost predicate HasRows(before: Store, tickets: seq<RawTicket>, comments: seq<RawComment>, after: Store) {
    && after.tables.tickets.Keys == before.tables.tickets.Keys + IdsOf(NamesOf(tickets, |tickets|))
    && (forall raw :: raw in Attached(tickets, comments) ==> exists id :: id in after.tables.comments && IsIdOf(id, raw))
    && (forall id :: id in after.tables.comments && id !in before.tables.comments ==>
          exists raw :: raw in Attached(tickets, comments) && IsIdOf(id, raw)
                        && after.tables.comments[id] == Comment(TicketId(raw.ticketId), raw.body))
  }

  lemma StartIsMet(store: Store, tickets: seq<RawTicket>)
    ensures IsMet(store, tickets, 0, Run(store, map[], map[], NOTHING_YET))
  {
    assert NamesOf(tickets, 0) == {} && IdsOf({}) == {};
    assert CreatedOf(store, tickets, 0) == {} && EpicsOf(store, tickets, 0) == {};
  }

  /** The first two passes, as far as tickets go. */
  ghost predicate HasMetAll(store: Store, tickets: seq<RawTicket>, s: Run) {
    && MetExist(s) && HasTickets(store, tickets, |tickets|, s)
    && s.counts.tickets == |CreatedOf(store, tickets, |tickets|)| && s.counts.epics == |EpicsOf(store, tickets, |tickets|)|
    && s.counts.tickets + s.counts.skippedTickets == |tickets| && s.counts.comments == s.counts.skippedComments == 0
    && |s.store.events| == |store.events| + s.counts.tickets + s.counts.parentLinks
  }

  lemma CreatingMeetsAll(store: Store, tickets: seq<RawTicket>)
    ensures HasMetAll(store, tickets, CreateTickets(Run(store, map[], map[], NOTHING_YET), tickets))
  {
    var start := Run(store, map[], map[], NOTHING_YET);
    StartIsMet(store, tickets);
    assert tickets[0..] == tickets;
    AllMet(store, tickets, 0, start);
    CreatingEmits(start, tickets);
  }

  lemma LinkingKeepsMet(store: Store, tickets: seq<RawTicket>, s: Run)
    requires HasMetAll(store, tickets, s)
    ensures HasMetAll(store, tickets, LinkParents(s, tickets))
  {
    LinkingCounts(s, tickets);
  }

  lemma TicketsMeetAll(store: Store, tickets: seq<RawTicket>)
    ensures HasMetAll(store, tickets, Tickets(store, tickets))
  {
    CreatingMeetsAll(store, tickets);
    LinkingKeepsMet(store, tickets, CreateTickets(Run(store, map[], map[], NOTHING_YET), tickets));
  }

  lemma MetIsListed(store: Store, tickets: seq<RawTicket>, s: Run, raw: RawComment)
    requires HasTickets(store, tickets, |tickets|, s)
    ensures raw.ticketId in s.idFor <==> exists j :: 0 <= j < |tickets| && tickets[j].id == raw.ticketId
  {
    assert raw.ticketId in s.idFor <==> raw.ticketId in NamesOf(tickets, |tickets|);
    if j: nat :| j < |tickets| && tickets[j].id == raw.ticketId {
      assert raw.ticketId in NamesOf(tickets, |tickets|);
    }
  }

  lemma {:induction false} SameFilter(s: seq<RawComment>, p: RawComment -> bool, q: RawComment -> bool)
    requires forall x :: p(x) <==> q(x)
    ensures Filter(s, p) == Filter(s, q)
  {
    if s != [] {
      SameFilter(s[1..], p, q);
    }
  }

  lemma AttachedAreMet(store: Store, tickets: seq<RawTicket>, comments: seq<RawComment>, s: Run)
    requires HasTickets(store, tickets, |tickets|, s)
    ensures Attached(tickets, comments) == Filter(comments, (raw: RawComment) => raw.ticketId in s.idFor)
  {
    forall raw: RawComment ensures raw.ticketId in s.idFor <==> exists j :: 0 <= j < |tickets| && tickets[j].id == raw.ticketId {
      MetIsListed(store, tickets, s, raw);
    }
    SameFilter(comments, (raw: RawComment) => raw.ticketId in s.idFor,
               (raw: RawComment) => exists j :: 0 <= j < |tickets| && tickets[j].id == raw.ticketId);
  }

  lemma CommentsHaveRows(store: Store, tickets: seq<RawTicket>, comments: seq<RawComment>, s: Run, run: Run)
    requires MetExist(s) && HasTickets(store, tickets, |tickets|, s) && HasComments(s, comments, |comments|, run)
    ensures HasRows(store, tickets, comments, run.store)
  {
    AttachedAreMet(store, tickets, comments, s);
    var attached := Attached(tickets, comments);
    forall raw | raw in attached ensures exists id :: id in run.store.tables.comments && IsIdOf(id, raw) {
      var j :| 0 <= j < |comments| && comments[j] == raw;
    }
    forall id | id in run.store.tables.comments && id !in store.tables.comments
      ensures exists raw :: raw in attached && IsIdOf(id, raw)
                            && run.store.tables.comments[id] == Comment(TicketId(raw.ticketId), raw.body)
    {
      var j :| 0 <= j < |comments| && IsRowOf(run, id, comments[j]);
      assert comments[j] in attached;
    }
  }

  /** The counts of an import and the rows that it leaves. */
  lemma ImportTells(store: Store, tickets: seq<RawTicket>, comments: seq<RawComment>)
    ensures var run := Import(store, tickets, comments); Tells(store, tickets, comments, run.store, run.counts)
    ensures HasRows(store, tickets, comments, Import(store, tickets, comments).store)
  {
    var s := Tickets(store, tickets);
    TicketsMeetAll(store, tickets);
    AttachedAreMet(store, tickets, comments, s);
    CommentsTell(store, tickets, comments, s);
  }

  lemma CommentsTell(store: Store, tickets: seq<RawTicket>, comments: seq<RawComment>, s: Run)
    requires HasMetAll(store, tickets, s)
    ensures var run := ImportComments(s, comments);
            Tells(store, tickets, comments, run.store, run.counts) && HasRows(store, tickets, comments, run.store)
  {
    var run := ImportComments(s, comments);
    AttachedAreMet(store, tickets, comments, s);
    CommentsCount(s, comments);
    assert comments[0..] == comments;
    AllComments(s, comments, 0, s);
    CommentsHaveRows(store, tickets, comments, s, run);
  }
}
