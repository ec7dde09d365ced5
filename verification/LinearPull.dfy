/**
 How a replica takes in what an import from Linear has emitted: a pull inserts a whole batch of
 events, and then folds the entities in the order in which the batch touches them first.
 */
module LinearPull {
  import opened Wrappers
  import opened ForeignKeys
  import opened LinearImport
  import opened LinearRerun
  import opened LinearPrefix

  datatype TableKey = OfTicket(id: Id) | OfComment(id: Id)

  datatype TableRow = TicketRow(ticket: Ticket) | CommentRow(comment: Comment)

  /** The row that an entity has, if it has one. */
  function RowIn(t: Tables): TableKey -> Option<TableRow> {
    (k: TableKey) =>
      match k
      case OfTicket(id) => if id in t.tickets then Some(TicketRow(t.tickets[id])) else None
      case OfComment(id) => if id in t.comments then Some(CommentRow(t.comments[id])) else None
  }

  /** Both tables as one. */
  function Flat(t: Tables): (flat: map<TableKey, TableRow>)
    ensures forall k :: k in flat <==> RowIn(t)(k).Some?
    ensures forall k :: k in flat ==> Some(flat[k]) == RowIn(t)(k)
  {
    var keys := (set id | id in t.tickets :: OfTicket(id)) + (set id | id in t.comments :: OfComment(id));
    map k | k in keys :: RowIn(t)(k).value
  }

  /** The parent of a ticket, and the ticket of a comment. */
  function Targets(k: TableKey, row: TableRow): set<TableKey> {
    match row
    case TicketRow(ticket) => if ticket.parent.Some? then {OfTicket(ticket.parent.value)} else {}
    case CommentRow(comment) => {OfTicket(comment.ticket)}
  }

  function KeyOf(e: Emitted): TableKey {
    if e.CommentAppend? then OfComment(e.id) else OfTicket(e.id)
  }

  /** The entities that a batch touches, in the order in which it does so first. */
  function Touched(batch: seq<Emitted>): seq<TableKey> {
    if batch == [] then []
    else
      var init, key := Touched(batch[..|batch| - 1]), KeyOf(batch[|batch| - 1]);
      if key in init then init else init + [key]
  }

  /** One pull: each entity touched gets the row that all events up to the end of the batch give it. */
  function PullBatch(t: Tables, batch: seq<Emitted>): Option<map<TableKey, TableRow>> {
    PutAll(Flat(t), Targets, RowIn(Replay(t, batch)), Touched(batch))
  }

  lemma FlatIsIntact(t: Tables)
    ensures Intact(Flat(t), Targets) <==> HasForeignKeys(t)
  {
    if Intact(Flat(t), Targets) {
      forall id | id in t.tickets && t.tickets[id].parent.Some? ensures t.tickets[id].parent.value in t.tickets {
        assert OfTicket(id) in Flat(t);
        assert OfTicket(t.tickets[id].parent.value) in Flat(t);
      }
      forall id | id in t.comments ensures t.comments[id].ticket in t.tickets {
        assert OfComment(id) in Flat(t);
        assert OfTicket(t.comments[id].ticket) in Flat(t);
      }
    }
  }

  /** Events leave alone what they do not touch, and take no row away. */
  lemma {:induction false} UntouchedStay(t: Tables, batch: seq<Emitted>)
    ensures forall k :: k !in Touched(batch) ==> RowIn(Replay(t, batch))(k) == RowIn(t)(k)
    ensures forall k :: RowIn(t)(k).Some? ==> RowIn(Replay(t, batch))(k).Some?
  {
    if batch != [] {
      UntouchedStay(t, batch[..|batch| - 1]);
    }
  }

  /** A batch is taken in exactly when each row's target was there or is touched no later, and leaves what replaying it does. */
  lemma BatchIsTakenIff(t: Tables, batch: seq<Emitted>)
    requires HasForeignKeys(t)
    ensures PullBatch(t, batch).Some? <==> TargetsComeFirst(Flat(t), Targets, RowIn(Replay(t, batch)), Touched(batch))
    ensures PullBatch(t, batch).Some? ==> PullBatch(t, batch).value == Flat(Replay(t, batch))
  {
    var rows, order := RowIn(Replay(t, batch)), Touched(batch);
    FlatIsIntact(t);
    UntouchedStay(t, batch);
    PutAllInOrderIff(Flat(t), Targets, rows, order);
    if PullBatch(t, batch).Some? {
      PutAllLeaves(Flat(t), Targets, rows, order);
      var after, end := After(Flat(t), rows, order), Flat(Replay(t, batch));
      forall k ensures (k in after <==> k in end) && (k in after ==> after[k] == end[k]) {
      }
    }
  }

  // -------------------------------------------------------------------- a whole import at once

  /** The tickets that are new, in the order of the export. */
  function NewKeys(before: map<Id, Ticket>, tickets: seq<RawTicket>): seq<TableKey> {
    if tickets == [] then []
    else (if TicketId(tickets[0].id) in before then [] else [OfTicket(TicketId(tickets[0].id))]) + NewKeys(before, tickets[1..])
  }

  lemma {:induction false} NewKeysInTwo(before: map<Id, Ticket>, xs: seq<RawTicket>, ys: seq<RawTicket>)
    ensures NewKeys(before, xs + ys) == NewKeys(before, xs) + NewKeys(before, ys)
  {
    if xs == [] {
      assert xs + ys == ys;
    } else {
      assert (xs + ys)[1..] == xs[1..] + ys;
      NewKeysInTwo(before, xs[1..], ys);
    }
  }

  lemma {:induction false} NewKeysHave(before: map<Id, Ticket>, tickets: seq<RawTicket>)
    ensures forall k :: k in NewKeys(before, tickets) <==>
              k.OfTicket? && k.id !in before && exists raw :: raw in tickets && k.id == TicketId(raw.id)
  {
    if tickets != [] {
      NewKeysHave(before, tickets[1..]);
      assert tickets == [tickets[0]] + tickets[1..];
    }
  }

  lemma {:induction false} SameNewKeys(a: map<Id, Ticket>, b: map<Id, Ticket>, tickets: seq<RawTicket>)
    requires forall raw :: raw in tickets ==> (TicketId(raw.id) in a <==> TicketId(raw.id) in b)
    ensures NewKeys(a, tickets) == NewKeys(b, tickets)
  {
    if tickets != [] {
      assert tickets[0] in tickets && forall raw :: raw in tickets[1..] ==> raw in tickets;
      SameNewKeys(a, b, tickets[1..]);
    }
  }

  lemma TouchedLast(batch: seq<Emitted>, e: Emitted)
    ensures Touched(batch + [e]) == if KeyOf(e) in Touched(batch) then Touched(batch) else Touched(batch) + [KeyOf(e)]
  {
    assert (batch + [e])[..|batch|] == batch;
  }

  /** What has been emitted since the start touches rows that are there. */
  ghost predicate TouchesRows(start: Store, s: Run) {
    start.events <= s.store.events && forall k :: k in Touched(Added(start, s.store)) ==> RowIn(s.store.tables)(k).Some?
  }

  lemma AddedLast(start: Store, a: Store, b: Store, e: Emitted)
    requires start.events <= a.events && b.events == a.events + [e]
    ensures start.events <= b.events && Added(start, b) == Added(start, a) + [e]
  {
  }

  lemma Regroup<T>(a: seq<T>, b: seq<T>, c: seq<T>)
    ensures a + b + c == a + (b + c)
  {
  }

  /** The first pass touches the new tickets, one after the other. */
  lemma {:induction false} CreatingTouches(start: Store, s: Run, tickets: seq<RawTicket>)
    requires UniqueTickets(tickets) && TouchesRows(start, s)
    ensures var after := CreateTickets(s, tickets);
            && TouchesRows(start, after)
            && Touched(Added(start, after.store)) == Touched(Added(start, s.store)) + NewKeys(s.store.tables.tickets, tickets)
    decreases |tickets|
  {
    if tickets == [] {
      assert Touched(Added(start, s.store)) + [] == Touched(Added(start, s.store));
    } else {
      FirstIsAlone(tickets);
      var next := CreateTicket(s, tickets[0]);
      CreatingOneTouches(start, s, tickets[0]);
      CreatingTouches(start, next, tickets[1..]);
      SameNewKeys(s.store.tables.tickets, next.store.tables.tickets, tickets[1..]);
      NewKeysInTwo(s.store.tables.tickets, [tickets[0]], tickets[1..]);
      assert [tickets[0]] + tickets[1..] == tickets;
      Regroup(Touched(Added(start, s.store)), NewKeys(s.store.tables.tickets, [tickets[0]]),
              NewKeys(s.store.tables.tickets, tickets[1..]));
    }
  }

  lemma CreatingOneTouches(start: Store, s: Run, raw: RawTicket)
    requires TouchesRows(start, s)
    ensures var next := CreateTicket(s, raw);
            && TouchesRows(start, next)
            && Touched(Added(start, next.store)) == Touched(Added(start, s.store)) + NewKeys(s.store.tables.tickets, [raw])
  {
    var id := TicketId(raw.id);
    assert [raw][1..] == [];
    if id in s.store.tables.tickets {
      assert Touched(Added(start, s.store)) + [] == Touched(Added(start, s.store));
    } else {
      var e := TicketPatch(id, Ticket(raw.columns, None));
      AddedLast(start, s.store, CreateTicket(s, raw).store, e);
      TouchedLast(Added(start, s.store), e);
      assert RowIn(s.store.tables)(KeyOf(e)).None?;
    }
  }

  ghost predicate CreatedAreTouched(start: Store, s: Run) {
    forall l :: l in s.created ==> OfTicket(s.created[l]) in Touched(Added(start, s.store))
  }

  /** The second pass touches nothing new. */
  lemma {:induction false} LinkingTouches(start: Store, s: Run, tickets: seq<RawTicket>)
    requires TouchesRows(start, s) && CreatedAreTouched(start, s)
    ensures var after := LinkParents(s, tickets);
            TouchesRows(start, after) && Touched(Added(start, after.store)) == Touched(Added(start, s.store))
    decreases |tickets|
  {
    if tickets != [] {
      var next := LinkParent(s, tickets[0]);
      if next != s {
        var e := ParentPatch(s.created[tickets[0].id], s.idFor[tickets[0].parent.value]);
        AddedLast(start, s.store, next.store, e);
        TouchedLast(Added(start, s.store), e);
        assert forall k :: RowIn(s.store.tables)(k).Some? ==> RowIn(next.store.tables)(k).Some?;
      }
      LinkingTouches(start, next, tickets[1..]);
    }
  }

  lemma CommentingOneTouches(start: Store, s: Run, raw: RawComment) returns (more: seq<TableKey>)
    requires start.events <= s.store.events
    ensures var next := ImportComment(s, raw);
            && start.events <= next.store.events
            && Touched(Added(start, next.store)) == Touched(Added(start, s.store)) + more
            && forall k :: k in more ==> k.OfComment?
  {
    more := [];
    var next := ImportComment(s, raw);
    if next.store != s.store {
      var e := next.store.events[|s.store.events|];
      AddedLast(start, s.store, next.store, e);
      TouchedLast(Added(start, s.store), e);
      more := if KeyOf(e) in Touched(Added(start, s.store)) then [] else [KeyOf(e)];
    }
    assert Touched(Added(start, s.store)) + [] == Touched(Added(start, s.store));
  }

  /** The third touches comments, after everything else. */
  lemma {:induction false} CommentingTouches(start: Store, s: Run, comments: seq<RawComment>) returns (more: seq<TableKey>)
    requires start.events <= s.store.events
    ensures var after := ImportComments(s, comments);
            && Touched(Added(start, after.store)) == Touched(Added(start, s.store)) + more
            && forall k :: k in more ==> k.OfComment?
    decreases |comments|
  {
    if comments == [] {
      more := [];
      assert Touched(Added(start, s.store)) + [] == Touched(Added(start, s.store));
    } else {
      var one := CommentingOneTouches(start, s, comments[0]);
      var rest := CommentingTouches(start, ImportComment(s, comments[0]), comments[1..]);
      more := one + rest;
      Regroup(Touched(Added(start, s.store)), one, rest);
    }
  }

  /** A whole import touches the new tickets in the order of the export, and then comments. */
  lemma ImportTouches(store: Store, tickets: seq<RawTicket>, comments: seq<RawComment>) returns (more: seq<TableKey>)
    requires HasForeignKeys(store.tables) && UniqueTickets(tickets)
    ensures Touched(Added(store, Import(store, tickets, comments).store)) == NewKeys(store.tables.tickets, tickets) + more
    ensures forall k :: k in more ==> k.OfComment?
  {
    var begin := Run(store, map[], map[], NOTHING_YET);
    var created := CreateTickets(begin, tickets);
    assert Added(store, store) == [];
    CreatingTouches(store, begin, tickets);
    assert [] + NewKeys(store.tables.tickets, tickets) == NewKeys(store.tables.tickets, tickets);
    CreatedAreNew(store, tickets);
    LinkingTouches(store, created, tickets);
    more := CommentingTouches(store, Tickets(store, tickets), comments);
  }

  lemma CreatedAreNew(store: Store, tickets: seq<RawTicket>)
    requires HasForeignKeys(store.tables) && UniqueTickets(tickets)
    ensures var created := CreateTickets(Run(store, map[], map[], NOTHING_YET), tickets).created;
            forall l :: l in created ==> OfTicket(created[l]) in NewKeys(store.tables.tickets, tickets)
  {
    var begin := Run(store, map[], map[], NOTHING_YET);
    var after := CreateTickets(begin, tickets);
    assert Added(store, store) == [];
    CreateTicketsKeepInv(store, begin, tickets);
    CreatedOnes(begin, tickets);
    CreateTicketsGrow(begin, tickets);
    assert MetExist(after);
    NewKeysHave(store.tables.tickets, tickets);
    forall l | l in after.created ensures OfTicket(after.created[l]) in NewKeys(store.tables.tickets, tickets) {
      assert l in after.idFor && Mentions(tickets, l);
      assert after.created[l] == TicketId(l);
    }
  }

  /** No new ticket is listed before a new one that is its parent. */
  ghost predicate ParentsListedFirst(store: Store, tickets: seq<RawTicket>) {
    forall i, j :: 0 <= i < j < |tickets| && tickets[i].parent == Some(tickets[j].id) ==>
      TicketId(tickets[i].id) in store.tables.tickets || TicketId(tickets[j].id) in store.tables.tickets
  }

  /** The ticket of a new key, and the keys up to it. */
  lemma {:induction false} NewKeyAt(before: map<Id, Ticket>, tickets: seq<RawTicket>, m: nat) returns (i: nat)
    requires m < |NewKeys(before, tickets)|
    ensures i < |tickets| && NewKeys(before, tickets)[m] == OfTicket(TicketId(tickets[i].id)) && TicketId(tickets[i].id) !in before
    ensures NewKeys(before, tickets)[..m + 1] == NewKeys(before, tickets[..i + 1])
  {
    var keys := NewKeys(before, tickets);
    if TicketId(tickets[0].id) !in before && m == 0 {
      i := 0;
      assert tickets[..1] == [tickets[0]] && [tickets[0]][1..] == [];
    } else {
      var skipped := if TicketId(tickets[0].id) in before then 0 else 1;
      var k := NewKeyAt(before, tickets[1..], m - skipped);
      i := k + 1;
      assert tickets[..i + 1][1..] == tickets[1..][..k + 1] && tickets[..i + 1][0] == tickets[0];
    }
  }

  /** Where a new ticket's key stands. */
  lemma PositionOfNew(before: map<Id, Ticket>, tickets: seq<RawTicket>, i: nat) returns (m: nat)
    requires i < |tickets| && TicketId(tickets[i].id) !in before
    ensures m < |NewKeys(before, tickets)| && NewKeys(before, tickets)[m] == OfTicket(TicketId(tickets[i].id))
    ensures NewKeys(before, tickets)[..m + 1] == NewKeys(before, tickets[..i + 1])
  {
    assert tickets == tickets[..i + 1] + tickets[i + 1..] && tickets[..i + 1] == tickets[..i] + [tickets[i]];
    NewKeysInTwo(before, tickets[..i + 1], tickets[i + 1..]);
    NewKeysInTwo(before, tickets[..i], [tickets[i]]);
    assert [tickets[i]][1..] == [];
    m := |NewKeys(before, tickets[..i])|;
  }

  /** What the theorem needs to know of the tables that a batch leaves: rows that were there, and those of new tickets. */
  ghost predicate IsImported(before: Tables, end: Tables, tickets: seq<RawTicket>) {
    && HasForeignKeys(end)
    && (forall id :: id in end.tickets && id !in before.tickets ==> exists raw :: raw in tickets && id == TicketId(raw.id))
    && (forall raw :: raw in tickets && TicketId(raw.id) !in before.tickets ==>
          TicketId(raw.id) in end.tickets && end.tickets[TicketId(raw.id)] == Ticket(raw.columns, ParentIn(raw, tickets)))
  }

  lemma ImportIsImported(store: Store, tickets: seq<RawTicket>, comments: seq<RawComment>)
    requires HasForeignKeys(store.tables) && UniqueTickets(tickets)
    ensures IsImported(store.tables, Import(store, tickets, comments).store.tables, tickets)
  {
    ImportIsFaithful(store, tickets, comments);
    TicketsOneByOne(store, tickets);
    ImportCommentsGrow(Tickets(store, tickets), comments);
  }

  lemma LaterIsNotAmong(before: map<Id, Ticket>, tickets: seq<RawTicket>, i: nat, j: nat)
    requires UniqueTickets(tickets) && i < j < |tickets|
    ensures OfTicket(TicketId(tickets[j].id)) !in NewKeys(before, tickets[..i + 1])
  {
    NewKeysHave(before, tickets[..i + 1]);
    forall raw | raw in tickets[..i + 1] ensures raw.id != tickets[j].id {
      var k :| 0 <= k <= i && tickets[k] == raw;
    }
  }

  lemma TargetOfChild(before: Tables, end: Tables, tickets: seq<RawTicket>, i: nat, j: nat)
    requires IsImported(before, end, tickets) && i < |tickets| && j < |tickets| && tickets[i].parent == Some(tickets[j].id)
    requires TicketId(tickets[i].id) !in before.tickets
    ensures var child := OfTicket(TicketId(tickets[i].id));
            RowIn(end)(child).Some? && Targets(child, RowIn(end)(child).value) == {OfTicket(TicketId(tickets[j].id))}
  {
    assert tickets[i] in tickets && tickets[j] in tickets;
    assert Mentions(tickets, tickets[j].id);
  }

  /** A parent that comes later is missing when its child is written. */
  lemma LateParentIsMissing(before: Tables, end: Tables, tickets: seq<RawTicket>, more: seq<TableKey>, i: nat, j: nat)
    requires IsImported(before, end, tickets) && UniqueTickets(tickets)
    requires i < j < |tickets| && tickets[i].parent == Some(tickets[j].id)
    requires TicketId(tickets[i].id) !in before.tickets && TicketId(tickets[j].id) !in before.tickets
    ensures !TargetsComeFirst(Flat(before), Targets, RowIn(end), NewKeys(before.tickets, tickets) + more)
  {
    var m := PositionOfNew(before.tickets, tickets, i);
    StartsWith(NewKeys(before.tickets, tickets), more, m);
    TargetOfChild(before, end, tickets, i, j);
    LaterIsNotAmong(before.tickets, tickets, i, j);
    assert RowIn(before)(OfTicket(TicketId(tickets[j].id))).None?;
    LateTarget(Flat(before), Targets, RowIn(end), NewKeys(before.tickets, tickets) + more, m, OfTicket(TicketId(tickets[j].id)));
  }

  lemma StartsWith<T>(xs: seq<T>, ys: seq<T>, m: nat)
    requires m < |xs|
    ensures (xs + ys)[m] == xs[m] && (xs + ys)[..m + 1] == xs[..m + 1]
  {
  }

  /** With parents listed first, a new ticket's target is there in time. */
  lemma ParentInTime(before: Tables, end: Tables, tickets: seq<RawTicket>, store: Store, i: nat)
    requires IsImported(before, end, tickets) && before == store.tables && ParentsListedFirst(store, tickets)
    requires i < |tickets| && TicketId(tickets[i].id) !in before.tickets
    ensures var child := OfTicket(TicketId(tickets[i].id));
            && RowIn(end)(child).Some?
            && Targets(child, RowIn(end)(child).value)
               <= Flat(before).Keys + Present(RowIn(end), NewKeys(before.tickets, tickets[..i + 1]))
  {
    assert tickets[i] in tickets;
    if ParentIn(tickets[i], tickets).Some? {
      var parent :| parent in tickets && parent.id == tickets[i].parent.value;
      var j :| 0 <= j < |tickets| && tickets[j] == parent;
      TargetOfChild(before, end, tickets, i, j);
      if TicketId(parent.id) in before.tickets {
        assert OfTicket(TicketId(parent.id)) in Flat(before);
      } else {
        assert j <= i;
        EarlierIsAmong(before, end, tickets, i, j);
      }
    }
  }

  lemma TicketTargetInTime(before: Tables, end: Tables, tickets: seq<RawTicket>, store: Store, m: nat)
    requires IsImported(before, end, tickets) && before == store.tables && ParentsListedFirst(store, tickets)
    requires m < |NewKeys(before.tickets, tickets)|
    ensures var keys := NewKeys(before.tickets, tickets);
            && RowIn(end)(keys[m]).Some?
            && Targets(keys[m], RowIn(end)(keys[m]).value) <= Flat(before).Keys + Present(RowIn(end), keys[..m + 1])
  {
    var i := NewKeyAt(before.tickets, tickets, m);
    ParentInTime(before, end, tickets, store, i);
  }

  lemma EarlierIsAmong(before: Tables, end: Tables, tickets: seq<RawTicket>, i: nat, j: nat)
    requires IsImported(before, end, tickets) && j <= i < |tickets| && TicketId(tickets[j].id) !in before.tickets
    ensures OfTicket(TicketId(tickets[j].id)) in Present(RowIn(end), NewKeys(before.tickets, tickets[..i + 1]))
  {
    NewKeysHave(before.tickets, tickets[..i + 1]);
    assert tickets[..i + 1][j] == tickets[j];
    assert tickets[j] in tickets[..i + 1] && tickets[j] in tickets;
  }

  lemma TicketIsThere(before: Tables, end: Tables, tickets: seq<RawTicket>, id: Id)
    requires IsImported(before, end, tickets) && id in end.comments
    ensures OfTicket(end.comments[id].ticket) in Flat(before).Keys + Present(RowIn(end), NewKeys(before.tickets, tickets))
  {
    NewKeysHave(before.tickets, tickets);
  }

  /** Tickets have all been written when comments are. */
  lemma CommentTargetInTime(before: Tables, end: Tables, tickets: seq<RawTicket>, more: seq<TableKey>, m: nat)
    requires IsImported(before, end, tickets) && (forall k :: k in more ==> k.OfComment?)
    requires |NewKeys(before.tickets, tickets)| <= m < |NewKeys(before.tickets, tickets) + more|
    requires RowIn(end)((NewKeys(before.tickets, tickets) + more)[m]).Some?
    ensures var order := NewKeys(before.tickets, tickets) + more;
            Targets(order[m], RowIn(end)(order[m]).value) <= Flat(before).Keys + Present(RowIn(end), order[..m + 1])
  {
    var keys := NewKeys(before.tickets, tickets);
    var order := keys + more;
    assert order[m] in more;
    TicketIsThere(before, end, tickets, order[m].id);
    assert keys <= order[..m + 1];
    PresentInLonger(RowIn(end), keys, order[..m + 1]);
  }

  /**
   A replica that has the tables from before an import, and pulls all that the import has emitted in
   one batch, can take it in if and only if no new ticket is listed before its new parent; it then
   has the tables from after.
   */
  lemma PulledAtOnceIff(store: Store, tickets: seq<RawTicket>, comments: seq<RawComment>)
    requires HasForeignKeys(store.tables) && UniqueTickets(tickets)
    ensures var end := Import(store, tickets, comments).store;
            var pulled := PullBatch(store.tables, Added(store, end));
            && (pulled.Some? <==> ParentsListedFirst(store, tickets))
            && (pulled.Some? ==> pulled.value == Flat(end.tables))
  {
    var end := Import(store, tickets, comments).store;
    ImportIsFaithful(store, tickets, comments);
    ImportIsImported(store, tickets, comments);
    BatchIsTakenIff(store.tables, Added(store, end));
    var more := ImportTouches(store, tickets, comments);
    InOrderIff(store, end.tables, tickets, more);
  }

  lemma InOrderIff(store: Store, end: Tables, tickets: seq<RawTicket>, more: seq<TableKey>)
    requires IsImported(store.tables, end, tickets) && UniqueTickets(tickets) && forall k :: k in more ==> k.OfComment?
    ensures TargetsComeFirst(Flat(store.tables), Targets, RowIn(end), NewKeys(store.tables.tickets, tickets) + more)
            <==> ParentsListedFirst(store, tickets)
  {
    var keys := NewKeys(store.tables.tickets, tickets);
    var order := keys + more;
    if ParentsListedFirst(store, tickets) {
      forall m | 0 <= m < |order| && RowIn(end)(order[m]).Some?
        ensures Targets(order[m], RowIn(end)(order[m]).value) <= Flat(store.tables).Keys + Present(RowIn(end), order[..m + 1])
      {
        if m < |keys| {
          TicketTargetInTime(store.tables, end, tickets, store, m);
          assert order[m] == keys[m] && order[..m + 1] == keys[..m + 1];
        } else {
          CommentTargetInTime(store.tables, end, tickets, more, m);
        }
      }
    } else {
      var i, j :| 0 <= i < j < |tickets| && tickets[i].parent == Some(tickets[j].id)
                  && TicketId(tickets[i].id) !in store.tables.tickets && TicketId(tickets[j].id) !in store.tables.tickets;
      LateParentIsMissing(store.tables, end, tickets, more, i, j);
    }
  }

  const EMPTY := Store(Tables(map[], map[]), [], [])
  const CHILD := RawTicket("c", Some("p"), map[], false)
  const PARENT := RawTicket("p", None, map[], false)

  /** A child that an export lists before its parent is imported, but no replica can take in the batch. */
  lemma ChildListedFirstIsNotTaken()
    ensures var end := Import(EMPTY, [CHILD, PARENT], []).store;
            && HasForeignKeys(end.tables) && KeysHoldThroughout(EMPTY.tables, Added(EMPTY, end))
            && PullBatch(EMPTY.tables, Added(EMPTY, end)) == None
  {
    var tickets := [CHILD, PARENT];
    assert "c"[0] != "p"[0];
    ImportIsFaithful(EMPTY, tickets, []);
    PulledAtOnceIff(EMPTY, tickets, []);
    assert tickets[0].parent == Some(tickets[1].id);
  }
}
