/** Importing part of an export first, and the whole of it later. */
module LinearPrefix {
  import opened Wrappers
  import opened LinearImport
  import opened LinearRerun

  ghost predicate UniqueTickets(tickets: seq<RawTicket>) {
    forall i, j :: 0 <= i < j < |tickets| ==> tickets[i].id != tickets[j].id
  }

  ghost predicate UniqueComments(comments: seq<RawComment>) {
    && (forall raw :: raw in comments ==> IsKeyed(raw))
    && (forall i, j :: 0 <= i < j < |comments| ==> Key(comments[i], 0) != Key(comments[j], 0))
  }

  // ----------------------------------------------------------------------- tickets, one by one

  lemma FirstIsAlone(tickets: seq<RawTicket>)
    requires tickets != [] && UniqueTickets(tickets)
    ensures UniqueTickets(tickets[1..]) && forall raw :: raw in tickets[1..] ==> raw.id != tickets[0].id
    ensures forall raw :: raw in tickets <==> raw == tickets[0] || raw in tickets[1..]
  {
    assert tickets == [tickets[0]] + tickets[1..];
    forall raw | raw in tickets[1..] ensures raw.id != tickets[0].id {
      var i :| 0 <= i < |tickets[1..]| && tickets[1..][i] == raw;
      assert tickets[i + 1] == raw;
    }
  }

  lemma {:induction false} CreatedOnes(s: Run, tickets: seq<RawTicket>)
    requires UniqueTickets(tickets)
    ensures var before, after := s.store.tables.tickets, CreateTickets(s, tickets);
            && (forall id :: id in before ==> id in after.store.tables.tickets && after.store.tables.tickets[id] == before[id])
            && (forall id :: id in after.store.tables.tickets && id !in before ==>
                  exists raw :: raw in tickets && id == TicketId(raw.id))
            && (forall raw :: raw in tickets && TicketId(raw.id) !in before ==>
                  && TicketId(raw.id) in after.store.tables.tickets
                  && after.store.tables.tickets[TicketId(raw.id)] == Ticket(raw.columns, None)
                  && raw.id in after.created && after.created[raw.id] == TicketId(raw.id))
    ensures forall l :: l in CreateTickets(s, tickets).created && l !in s.created ==>
              TicketId(l) !in s.store.tables.tickets
    decreases |tickets|
  {
    if tickets != [] {
      FirstIsAlone(tickets);
      var next := CreateTicket(s, tickets[0]);
      CreatedOnes(next, tickets[1..]);
      CreatedStay(next, tickets[1..]);
    }
  }

  lemma {:induction false} CreatedStay(s: Run, tickets: seq<RawTicket>)
    ensures forall l :: l in s.created && !Mentions(tickets, l) ==>
              l in CreateTickets(s, tickets).created && CreateTickets(s, tickets).created[l] == s.created[l]
    decreases |tickets|
  {
    if tickets != [] {
      assert tickets == [tickets[0]] + tickets[1..];
      assert Mentions(tickets, tickets[0].id);
      CreatedStay(CreateTicket(s, tickets[0]), tickets[1..]);
    }
  }

  ghost predicate CreatedAreThere(s: Run) {
    && (forall l :: l in s.created ==> s.created[l] == TicketId(l) && TicketId(l) in s.store.tables.tickets)
    && (forall l :: l in s.idFor ==> s.idFor[l] == TicketId(l))
  }

  /** The parent that a ticket is given, when the import has met it. */
  function ParentIn(raw: RawTicket, tickets: seq<RawTicket>): Option<Id> {
    if raw.parent.Some? && Mentions(tickets, raw.parent.value) then Some(TicketId(raw.parent.value)) else None
  }

  lemma {:induction false} LinkedOnes(s: Run, tickets: seq<RawTicket>)
    requires UniqueTickets(tickets) && CreatedAreThere(s)
    ensures var before, after := s.store.tables.tickets, LinkParents(s, tickets).store.tables.tickets;
            && after.Keys == before.Keys
            && (forall id :: id in before && (forall raw :: raw in tickets && raw.id in s.created ==> id != TicketId(raw.id)) ==>
                  after[id] == before[id])
            && (forall raw :: raw in tickets && raw.id in s.created ==>
                  after[TicketId(raw.id)] ==
                  if raw.parent.Some? && raw.parent.value in s.idFor
                  then before[TicketId(raw.id)].(parent := Some(TicketId(raw.parent.value)))
                  else before[TicketId(raw.id)])
    decreases |tickets|
  {
    if tickets != [] {
      FirstIsAlone(tickets);
      LinkedOnes(LinkParent(s, tickets[0]), tickets[1..]);
    }
  }

  /** What the first two passes make of the tickets: rows that were there stay, new ones get a parent they came with. */
  lemma TicketsOneByOne(store: Store, tickets: seq<RawTicket>)
    requires UniqueTickets(tickets)
    ensures var before, after := store.tables.tickets, Tickets(store, tickets).store.tables.tickets;
            && (forall id :: id in before ==> id in after && after[id] == before[id])
            && (forall id :: id in after && id !in before ==> exists raw :: raw in tickets && id == TicketId(raw.id))
            && (forall raw :: raw in tickets && TicketId(raw.id) !in before ==>
                  TicketId(raw.id) in after && after[TicketId(raw.id)] == Ticket(raw.columns, ParentIn(raw, tickets)))
  {
    var start := Run(store, map[], map[], NOTHING_YET);
    var s := CreateTickets(start, tickets);
    CreatedOnes(start, tickets);
    CreateTicketsGrow(start, tickets);
    CreateTicketsIds(start, tickets);
    CreatedIds(start, tickets);
    LinkedOnes(s, tickets);
  }

  lemma {:induction false} CreatedIds(s: Run, tickets: seq<RawTicket>)
    requires CreatedAreThere(s)
    ensures CreatedAreThere(CreateTickets(s, tickets))
    decreases |tickets|
  {
    if tickets != [] {
      CreatedIds(CreateTicket(s, tickets[0]), tickets[1..]);
    }
  }

  // ---------------------------------------------------------------------- comments, one by one

  /** What the third pass makes of the comments: those of tickets it has met, unless they were there. */
  lemma {:induction false} CommentsOneByOne(s: Run, comments: seq<RawComment>)
    requires UniqueComments(comments)
    ensures var before, after := s.store.tables.comments, ImportComments(s, comments).store.tables.comments;
            && (forall id :: id in before ==> id in after && after[id] == before[id])
            && (forall id :: id in after && id !in before ==>
                  exists raw :: raw in comments && !IsOrphan(s, raw) && id == CommentId(Key(raw, 0)))
            && (forall raw :: raw in comments && !IsOrphan(s, raw) && CommentId(Key(raw, 0)) !in before ==>
                  && CommentId(Key(raw, 0)) in after
                  && after[CommentId(Key(raw, 0))] == Comment(s.idFor[raw.ticketId], raw.body))
    decreases |comments|
  {
    if comments != [] {
      KeyedKey(comments[0], 0, s.counts.comments);
      var next := ImportComment(s, comments[0]);
      CommentsOneByOne(next, comments[1..]);
      assert forall raw :: IsOrphan(next, raw) <==> IsOrphan(s, raw);
    }
  }

  /** The same for a whole import. */
  lemma ImportOneByOne(store: Store, tickets: seq<RawTicket>, comments: seq<RawComment>)
    requires UniqueComments(comments)
    ensures var before, after := store.tables.comments, Import(store, tickets, comments).store.tables.comments;
            && (forall id :: id in before ==> id in after && after[id] == before[id])
            && (forall id :: id in after && id !in before ==>
                  exists raw :: raw in comments && Mentions(tickets, raw.ticketId) && id == CommentId(Key(raw, 0)))
            && (forall raw :: raw in comments && Mentions(tickets, raw.ticketId) && CommentId(Key(raw, 0)) !in before ==>
                  && CommentId(Key(raw, 0)) in after
                  && after[CommentId(Key(raw, 0))] == Comment(TicketId(raw.ticketId), raw.body))
    ensures Import(store, tickets, comments).store.tables.tickets == Tickets(store, tickets).store.tables.tickets
  {
    var s := Tickets(store, tickets);
    TicketsAreMet(store, tickets);
    NoTicketComments(store, tickets);
    CommentsOneByOne(s, comments);
    ImportCommentsGrow(s, comments);
    var start := Run(store, map[], map[], NOTHING_YET);
    CreateTicketsIds(start, tickets);
    LinkParentsGrow(CreateTickets(start, tickets), tickets);
  }

  // ------------------------------------------------------------------------- a part, then all

  /** No new ticket of the part names a parent that only the rest has. */
  ghost predicate IsParentClosed(store: Store, part: seq<RawTicket>, rest: seq<RawTicket>) {
    forall raw :: raw in part && TicketId(raw.id) !in store.tables.tickets && raw.parent.Some? ==>
      Mentions(part, raw.parent.value) || !Mentions(rest, raw.parent.value)
  }

  lemma MentionsInTwo(xs: seq<RawTicket>, ys: seq<RawTicket>)
    ensures forall l :: Mentions(xs + ys, l) <==> Mentions(xs, l) || Mentions(ys, l)
  {
    forall l ensures Mentions(xs + ys, l) <==> Mentions(xs, l) || Mentions(ys, l) {
      if Mentions(xs, l) {
        var raw :| raw in xs && raw.id == l;
        assert raw in xs + ys;
      }
      if Mentions(ys, l) {
        var raw :| raw in ys && raw.id == l;
        assert raw in xs + ys;
      }
    }
  }

  lemma UniqueInTwo(xs: seq<RawTicket>, ys: seq<RawTicket>)
    requires UniqueTickets(xs + ys)
    ensures UniqueTickets(xs) && UniqueTickets(ys) && forall x, y :: x in xs && y in ys ==> x.id != y.id
  {
    var all := xs + ys;
    assert forall i :: 0 <= i < |xs| ==> xs[i] == all[i];
    assert forall i :: 0 <= i < |ys| ==> ys[i] == all[|xs| + i];
    forall x, y | x in xs && y in ys ensures x.id != y.id {
      var i :| 0 <= i < |xs| && xs[i] == x;
      var j :| 0 <= j < |ys| && ys[j] == y;
      assert all[i].id != all[|xs| + j].id;
    }
  }

  /** What importing a part and then all of it makes of the tickets: the part's have the parents it came with. */
  lemma TicketsInTwoSteps(store: Store, part: seq<RawTicket>, rest: seq<RawTicket>)
    requires UniqueTickets(part + rest)
    ensures var before, all := store.tables.tickets, part + rest;
            var twice := Tickets(Tickets(store, part).store, all).store.tables.tickets;
            && (forall id :: id in before ==> id in twice && twice[id] == before[id])
            && (forall id :: id in twice && id !in before ==> exists raw :: raw in all && id == TicketId(raw.id))
            && (forall raw :: raw in part && TicketId(raw.id) !in before ==>
                  TicketId(raw.id) in twice && twice[TicketId(raw.id)] == Ticket(raw.columns, ParentIn(raw, part)))
            && (forall raw :: raw in rest && TicketId(raw.id) !in before ==>
                  TicketId(raw.id) in twice && twice[TicketId(raw.id)] == Ticket(raw.columns, ParentIn(raw, all)))
  {
    var first := Tickets(store, part).store;
    UniqueInTwo(part, rest);
    TicketsOneByOne(store, part);
    TicketsOneByOne(first, part + rest);
    assert forall raw :: raw in part + rest <==> raw in part || raw in rest;
    assert forall raw :: raw in rest && TicketId(raw.id) !in store.tables.tickets ==> TicketId(raw.id) !in first.tables.tickets;
  }

  lemma ClosedPrefixTickets(store: Store, part: seq<RawTicket>, rest: seq<RawTicket>)
    requires UniqueTickets(part + rest) && IsParentClosed(store, part, rest)
    ensures Tickets(Tickets(store, part).store, part + rest).store.tables.tickets
         == Tickets(store, part + rest).store.tables.tickets
  {
    var all := part + rest;
    var twice, once := Tickets(Tickets(store, part).store, all).store.tables.tickets, Tickets(store, all).store.tables.tickets;
    MentionsInTwo(part, rest);
    TicketsInTwoSteps(store, part, rest);
    TicketsOneByOne(store, all);
    assert forall raw :: raw in all <==> raw in part || raw in rest;
    assert forall raw :: raw in part && TicketId(raw.id) !in store.tables.tickets ==> ParentIn(raw, part) == ParentIn(raw, all);
    assert twice.Keys == once.Keys;
    assert forall id :: id in once ==> twice[id] == once[id];
  }

  lemma PrefixTicketsIff(store: Store, part: seq<RawTicket>, rest: seq<RawTicket>)
    requires UniqueTickets(part + rest)
    ensures Tickets(Tickets(store, part).store, part + rest).store.tables.tickets
            == Tickets(store, part + rest).store.tables.tickets
            <==> IsParentClosed(store, part, rest)
  {
    if IsParentClosed(store, part, rest) {
      ClosedPrefixTickets(store, part, rest);
    } else {
      MentionsInTwo(part, rest);
      TicketsInTwoSteps(store, part, rest);
      TicketsOneByOne(store, part + rest);
      var raw :| raw in part && TicketId(raw.id) !in store.tables.tickets && raw.parent.Some?
                 && !Mentions(part, raw.parent.value) && Mentions(rest, raw.parent.value);
      assert raw in part + rest;
      assert ParentIn(raw, part) != ParentIn(raw, part + rest);
    }
  }

  lemma PrefixComments(store: Store, part: seq<RawTicket>, rest: seq<RawTicket>, cs: seq<RawComment>, ds: seq<RawComment>)
    requires UniqueComments(cs + ds)
    ensures Import(Import(store, part, cs).store, part + rest, cs + ds).store.tables.comments
         == Import(store, part + rest, cs + ds).store.tables.comments
  {
    var first := Import(store, part, cs).store;
    var twice, once := Import(first, part + rest, cs + ds).store.tables.comments, Import(store, part + rest, cs + ds).store.tables.comments;
    UniqueFirst(cs, ds);
    MentionsInTwo(part, rest);
    ImportOneByOne(store, part, cs);
    ImportOneByOne(first, part + rest, cs + ds);
    ImportOneByOne(store, part + rest, cs + ds);
    assert forall raw :: raw in cs ==> raw in cs + ds;
    assert twice.Keys == once.Keys;
    assert twice == once;
  }

  lemma UniqueFirst(cs: seq<RawComment>, ds: seq<RawComment>)
    requires UniqueComments(cs + ds)
    ensures UniqueComments(cs)
  {
    assert forall i :: 0 <= i < |cs| ==> cs[i] == (cs + ds)[i];
    assert forall raw :: raw in cs ==> raw in cs + ds;
  }

  lemma {:induction false} TicketsOnly(s: Run, t: Run, tickets: seq<RawTicket>)
    requires s.store.tables.tickets == t.store.tables.tickets && s.idFor == t.idFor && s.created == t.created
    ensures var a, b := CreateTickets(s, tickets), CreateTickets(t, tickets);
            a.store.tables.tickets == b.store.tables.tickets && a.idFor == b.idFor && a.created == b.created
    ensures LinkParents(s, tickets).store.tables.tickets == LinkParents(t, tickets).store.tables.tickets
    decreases |tickets|
  {
    if tickets != [] {
      TicketsOnly(CreateTicket(s, tickets[0]), CreateTicket(t, tickets[0]), tickets[1..]);
      TicketsOnly(LinkParent(s, tickets[0]), LinkParent(t, tickets[0]), tickets[1..]);
    }
  }

  /**
   For an export of distinct tickets and distinct, stably keyed comments, importing a part and then
   the whole gives the tables that importing the whole gives, exactly when the part is closed
   under parents.
   */
  lemma PrefixThenWholeIff(
      store: Store, part: seq<RawTicket>, rest: seq<RawTicket>, cs: seq<RawComment>, ds: seq<RawComment>)
    requires UniqueTickets(part + rest) && UniqueComments(cs + ds)
    ensures Import(Import(store, part, cs).store, part + rest, cs + ds).store.tables
            == Import(store, part + rest, cs + ds).store.tables
            <==> IsParentClosed(store, part, rest)
  {
    var first, whole := Import(store, part, cs).store, part + rest;
    PrefixComments(store, part, rest, cs, ds);
    PrefixTicketsIff(store, part, rest);
    UniqueFirst(cs, ds);
    ImportOneByOne(store, part, cs);
    ImportOneByOne(first, whole, cs + ds);
    ImportOneByOne(store, whole, cs + ds);
    var s, t := Run(first, map[], map[], NOTHING_YET), Run(Tickets(store, part).store, map[], map[], NOTHING_YET);
    TicketsOnly(s, t, whole);
    TicketsOnly(CreateTickets(s, whole), CreateTickets(t, whole), whole);
  }
}
