/** When running the importer again, or on more, does what it should. */
module LinearRerun {
  import opened Wrappers
  import opened Text
  import opened LinearImport

  // --------------------------------------------------------------------------- what runs keep

  /** Rows are never removed, and every change emits an event. */
  ghost predicate Grows(a: Store, b: Store) {
    && (forall id :: id in a.tables.tickets ==> id in b.tables.tickets)
    && (forall id :: id in a.tables.comments ==> id in b.tables.comments)
    && |a.events| <= |b.events|
    && (|a.events| == |b.events| ==> a == b)
  }

  lemma {:induction false} CreateTicketsGrow(s: Run, tickets: seq<RawTicket>)
    ensures var after := CreateTickets(s, tickets);
            && Grows(s.store, after.store)
            && (forall l :: l in after.idFor <==> l in s.idFor || Mentions(tickets, l))
            && (forall l :: l in s.created ==> l in after.created)
    ensures forall raw :: raw in tickets ==> TicketId(raw.id) in CreateTickets(s, tickets).store.tables.tickets
    decreases |tickets|
  {
    if tickets != [] {
      CreateTicketsGrow(CreateTicket(s, tickets[0]), tickets[1..]);
      assert tickets == [tickets[0]] + tickets[1..];
    }
  }

  /** The tickets of an export have the Linear id. */
  predicate Mentions(tickets: seq<RawTicket>, linear: string) {
    exists raw :: raw in tickets && raw.id == linear
  }

  lemma {:induction false} LinkParentsGrow(s: Run, tickets: seq<RawTicket>)
    ensures var after := LinkParents(s, tickets);
            && Grows(s.store, after.store) && after.idFor == s.idFor
            && after.store.tables.comments == s.store.tables.comments && after.counts.comments == s.counts.comments
    decreases |tickets|
  {
    if tickets != [] {
      LinkParentsGrow(LinkParent(s, tickets[0]), tickets[1..]);
    }
  }

  /** Whether the key depends on nothing but the export. */
  predicate IsKeyed(raw: RawComment) {
    raw.id.Some? || raw.created.Some?
  }

  lemma KeyedKey(raw: RawComment, m: nat, n: nat)
    requires IsKeyed(raw)
    ensures Key(raw, m) == Key(raw, n)
  {
  }

  lemma {:induction false} ImportCommentsGrow(s: Run, comments: seq<RawComment>)
    ensures Grows(s.store, ImportComments(s, comments).store)
    ensures ImportComments(s, comments).store.tables.tickets == s.store.tables.tickets
    ensures ImportComments(s, comments).idFor == s.idFor
    ensures forall raw :: raw in comments && IsKeyed(raw) && !IsOrphan(s, raw) ==>
              CommentId(Key(raw, 0)) in ImportComments(s, comments).store.tables.comments
    decreases |comments|
  {
    if comments != [] {
      var next := ImportComment(s, comments[0]);
      ImportCommentsGrow(next, comments[1..]);
      assert comments == [comments[0]] + comments[1..];
      if IsKeyed(comments[0]) {
        KeyedKey(comments[0], 0, s.counts.comments);
      }
    }
  }

  // ------------------------------------------------------------------------------ running again

  /** Every ticket of the export is there, and every comment that has a stable key. */
  ghost predicate IsImported(store: Store, tickets: seq<RawTicket>, comments: seq<RawComment>) {
    && (forall raw :: raw in tickets ==> TicketId(raw.id) in store.tables.tickets)
    && (forall raw :: raw in comments && IsKeyed(raw) && Mentions(tickets, raw.ticketId) ==>
          CommentId(Key(raw, 0)) in store.tables.comments)
  }

  lemma {:induction false} CreateTicketsIds(s: Run, tickets: seq<RawTicket>)
    requires forall l :: l in s.idFor ==> s.idFor[l] == TicketId(l)
    ensures forall l :: l in CreateTickets(s, tickets).idFor ==> CreateTickets(s, tickets).idFor[l] == TicketId(l)
    decreases |tickets|
  {
    if tickets != [] {
      CreateTicketsIds(CreateTicket(s, tickets[0]), tickets[1..]);
    }
  }

  lemma TicketsAreMet(store: Store, tickets: seq<RawTicket>)
    ensures var s := Tickets(store, tickets);
            && Grows(store, s.store) && s.counts.comments == 0
            && (forall raw: RawTicket :: raw in tickets ==> TicketId(raw.id) in s.store.tables.tickets)
            && (forall raw :: IsOrphan(s, raw) <==> !Mentions(tickets, raw.ticketId))
  {
    var s := Run(store, map[], map[], NOTHING_YET);
    CreateTicketsGrow(s, tickets);
    CreateTicketsIds(s, tickets);
    NoCommentsYet(s, tickets);
    LinkParentsGrow(CreateTickets(s, tickets), tickets);
  }

  lemma {:induction false} NoCommentsYet(s: Run, tickets: seq<RawTicket>)
    ensures CreateTickets(s, tickets).counts.comments == s.counts.comments
    decreases |tickets|
  {
    if tickets != [] {
      NoCommentsYet(CreateTicket(s, tickets[0]), tickets[1..]);
    }
  }

  /** An import leaves its export imported, and so does everything after it. */
  lemma ImportImports(store: Store, tickets: seq<RawTicket>, comments: seq<RawComment>)
    ensures IsImported(Import(store, tickets, comments).store, tickets, comments)
    ensures Grows(store, Import(store, tickets, comments).store)
  {
    TicketsAreMet(store, tickets);
    ImportCommentsGrow(Tickets(store, tickets), comments);
  }

  lemma {:induction false} NothingToCreate(s: Run, tickets: seq<RawTicket>)
    requires forall raw :: raw in tickets ==> TicketId(raw.id) in s.store.tables.tickets
    ensures CreateTickets(s, tickets).store == s.store && CreateTickets(s, tickets).created == s.created
    decreases |tickets|
  {
    if tickets != [] {
      assert tickets == [tickets[0]] + tickets[1..];
      NothingToCreate(CreateTicket(s, tickets[0]), tickets[1..]);
    }
  }

  lemma {:induction false} NothingToLink(s: Run, tickets: seq<RawTicket>)
    requires s.created == map[]
    ensures LinkParents(s, tickets) == s
    decreases |tickets|
  {
    if tickets != [] {
      NothingToLink(s, tickets[1..]);
    }
  }

  /** Whether a comment is already there, under the key it gets while nothing has been created. */
  predicate IsThere(store: Store, raw: RawComment) {
    CommentId(Key(raw, 0)) in store.tables.comments
  }

  lemma {:induction false} NoCommentsIff(s: Run, comments: seq<RawComment>)
    requires s.counts.comments == 0
    ensures ImportComments(s, comments).store == s.store
            <==> forall raw :: raw in comments && !IsOrphan(s, raw) ==> IsThere(s.store, raw)
    decreases |comments|
  {
    if comments != [] {
      var raw, next := comments[0], ImportComment(s, comments[0]);
      assert comments == [raw] + comments[1..];
      if IsOrphan(s, raw) || IsThere(s.store, raw) {
        NoCommentsIff(next, comments[1..]);
        assert forall other :: IsOrphan(next, other) <==> IsOrphan(s, other);
      } else {
        ImportCommentsGrow(next, comments[1..]);
        assert |next.store.events| > |s.store.events|;
      }
    }
  }

  /**
   Running an import again creates nothing and emits nothing exactly when each comment without an
   id and a time stamp, on a ticket of the export, is there under the key that ends in 0.
   */
  lemma RerunIsNoOpIff(store: Store, tickets: seq<RawTicket>, comments: seq<RawComment>)
    requires IsImported(store, tickets, comments)
    ensures Import(store, tickets, comments).store == store
            <==> forall raw :: raw in comments && !IsKeyed(raw) && Mentions(tickets, raw.ticketId) ==>
                   CommentId(raw.ticketId + ":" + Decimal(0)) in store.tables.comments
  {
    var start := Run(store, map[], map[], NOTHING_YET);
    NothingToCreate(start, tickets);
    NothingToLink(CreateTickets(start, tickets), tickets);
    TicketsAreMet(store, tickets);
    NoCommentsIff(Tickets(store, tickets), comments);
  }

  /** With an id or a time stamp on every comment, importing twice is importing once. */
  lemma ImportIsIdempotent(store: Store, tickets: seq<RawTicket>, comments: seq<RawComment>)
    requires forall raw :: raw in comments ==> IsKeyed(raw)
    ensures var once := Import(store, tickets, comments).store;
            Import(once, tickets, comments).store == once
  {
    ImportImports(store, tickets, comments);
    RerunIsNoOpIff(Import(store, tickets, comments).store, tickets, comments);
  }

  /** Two comments with neither id nor time stamp, on tickets A and B. */
  predicate AreBare(comments: seq<RawComment>) {
    && |comments| == 2 && !IsKeyed(comments[0]) && !IsKeyed(comments[1])
    && comments[0].ticketId == "A" && comments[1].ticketId == "B"
  }

  const A0 := CommentId("A:0")
  const B0 := CommentId("B:0")
  const B1 := CommentId("B:1")

  lemma BareKeys(comments: seq<RawComment>)
    requires AreBare(comments)
    ensures CommentId(Key(comments[0], 0)) == A0 && CommentId(Key(comments[1], 0)) == B0
    ensures CommentId(Key(comments[1], 1)) == B1 && A0 != B0 && A0 != B1 && B0 != B1
  {
    assert Decimal(0) == "0" && Decimal(1) == "1";
    assert "A" + ":" + "0" == "A:0" && "B" + ":" + "0" == "B:0" && "B" + ":" + "1" == "B:1";
    assert "A:0"[0] != "B:0"[0] && "A:0"[0] != "B:1"[0] && "B:0"[2] != "B:1"[2];
  }

  /** The two comments are taken one after the other; the second one's key depends on whether the first is new. */
  lemma BareComments(s: Run, comments: seq<RawComment>)
    requires AreBare(comments)
    requires s.counts.comments == 0 && !IsOrphan(s, comments[0]) && !IsOrphan(s, comments[1])
    ensures var before, after := s.store.tables.comments, ImportComments(s, comments).store.tables.comments;
            after.Keys == before.Keys + {A0, if A0 in before then B0 else B1}
  {
    BareKeys(comments);
    var one := ImportComment(s, comments[0]);
    var two := ImportComment(one, comments[1]);
    assert comments[1..] == [comments[1]] && [comments[1]][1..] == [];
    assert ImportComments(s, comments) == ImportComments(one, [comments[1]]) == ImportComments(two, []) == two;
  }

  lemma ImportBare(store: Store, tickets: seq<RawTicket>, comments: seq<RawComment>)
    requires Mentions(tickets, "A") && Mentions(tickets, "B") && AreBare(comments)
    ensures var before, after := store.tables.comments, Import(store, tickets, comments).store.tables.comments;
            after.Keys == before.Keys + {A0, if A0 in before then B0 else B1}
  {
    TicketsAreMet(store, tickets);
    NoTicketComments(store, tickets);
    BareComments(Tickets(store, tickets), comments);
  }

  /** Two such comments are stored as A:0 and B:1; the second run looks for B:0 and adds it, a third row. */
  lemma RerunDuplicatesComment(store: Store, tickets: seq<RawTicket>, comments: seq<RawComment>)
    requires Mentions(tickets, "A") && Mentions(tickets, "B") && AreBare(comments)
    requires A0 !in store.tables.comments && B0 !in store.tables.comments && B1 !in store.tables.comments
    ensures var once := Import(store, tickets, comments).store;
            var twice := Import(once, tickets, comments).store;
            && |once.tables.comments| == |store.tables.comments| + 2
            && |twice.tables.comments| == |store.tables.comments| + 3 && B0 in twice.tables.comments
  {
    var once := Import(store, tickets, comments).store;
    ImportBare(store, tickets, comments);
    ImportBare(once, tickets, comments);
    BareKeys(comments);
    var again := Import(once, tickets, comments).store.tables.comments;
    ThreeRows(store.tables.comments.Keys, once.tables.comments.Keys, again.Keys);
    assert |store.tables.comments| == |store.tables.comments.Keys| && |again| == |again.Keys|;
    assert |once.tables.comments| == |once.tables.comments.Keys|;
  }

  lemma ThreeRows(a: set<Id>, b: set<Id>, c: set<Id>)
    requires A0 !in a && B0 !in a && B1 !in a && A0 != B0 && A0 != B1 && B0 != B1
    requires b == a + {A0, B1} && c == b + {A0, B0}
    ensures |b| == |a| + 2 && |c| == |a| + 3 && B0 in c
  {
    assert b == a + {A0} + {B1} && c == b + {B0};
  }

  lemma NoTicketComments(store: Store, tickets: seq<RawTicket>)
    ensures Tickets(store, tickets).store.tables.comments == store.tables.comments
  {
    var s := Run(store, map[], map[], NOTHING_YET);
    CreateLeavesComments(s, tickets);
    LinkParentsGrow(CreateTickets(s, tickets), tickets);
  }

  lemma {:induction false} CreateLeavesComments(s: Run, tickets: seq<RawTicket>)
    ensures CreateTickets(s, tickets).store.tables.comments == s.store.tables.comments
    decreases |tickets|
  {
    if tickets != [] {
      CreateLeavesComments(CreateTicket(s, tickets[0]), tickets[1..]);
    }
  }
}
