/** The importer as it runs: three loops over the export, writing rows, audit rows and events as they go. */
module LinearSession {
  import opened Wrappers
  import opened LinearImport

  class Session {
    var tickets: map<Id, Ticket>
    var comments: map<Id, Comment>
    var events: seq<Emitted>
    var audited: seq<Id>

    constructor ()
      ensures Contents() == Store(Tables(map[], map[]), [], [])
    {
      tickets, comments, events, audited := map[], map[], [], [];
    }

    function Contents(): Store
      reads this
    {
      Store(Tables(tickets, comments), events, audited)
    }

    /** Pass 1: the tickets, without parents. */
    method CreatePass(raws: seq<RawTicket>) returns (idFor: map<string, Id>, created: map<string, Id>, counts: Counts)
      modifies this
      ensures Run(Contents(), idFor, created, counts)
           == CreateTickets(Run(old(Contents()), map[], map[], NOTHING_YET), raws)
    {
      ghost var start := Run(Contents(), map[], map[], NOTHING_YET);
      idFor, created, counts := map[], map[], NOTHING_YET;
      for i := 0 to |raws|
        invariant CreateTickets(start, raws) == CreateTickets(Run(Contents(), idFor, created, counts), raws[i..])
      {
        var raw := raws[i];
        assert raws[i..][0] == raw && raws[i..][1..] == raws[i + 1..];
        var id := TicketId(raw.id);
        idFor := idFor[raw.id := id];
        if id in tickets {
          counts := counts.(skippedTickets := counts.skippedTickets + 1);
          continue;
        }
        var ticket := Ticket(raw.columns, None);
        tickets := tickets[id := ticket];
        audited := audited + [id];
        events := events + [TicketPatch(id, ticket)];
        created := created[raw.id := id];
        counts := counts.(tickets := counts.tickets + 1);
        if raw.isEpic {
          counts := counts.(epics := counts.epics + 1);
        }
      }
    }

    /** Pass 2: parent links, for the tickets created in this run. */
    method LinkPass(raws: seq<RawTicket>, idFor: map<string, Id>, created: map<string, Id>, before: Counts)
        returns (counts: Counts)
      modifies this
      ensures Run(Contents(), idFor, created, counts) == LinkParents(Run(old(Contents()), idFor, created, before), raws)
    {
      ghost var start := Run(Contents(), idFor, created, before);
      counts := before;
      for i := 0 to |raws|
        invariant LinkParents(start, raws) == LinkParents(Run(Contents(), idFor, created, counts), raws[i..])
      {
        var raw := raws[i];
        assert raws[i..][0] == raw && raws[i..][1..] == raws[i + 1..];
        if raw.parent.None? || raw.id !in created || raw.parent.value !in idFor {
          continue;
        }
        var parent, id := idFor[raw.parent.value], created[raw.id];
        if id !in tickets {
          continue;
        }
        tickets := tickets[id := tickets[id].(parent := Some(parent))];
        events := events + [ParentPatch(id, parent)];
        counts := counts.(parentLinks := counts.parentLinks + 1);
      }
    }

    /** Pass 3: the comments, each once under its key. */
    method CommentPass(raws: seq<RawComment>, idFor: map<string, Id>, created: map<string, Id>, before: Counts)
        returns (counts: Counts)
      modifies this
      ensures Run(Contents(), idFor, created, counts) == ImportComments(Run(old(Contents()), idFor, created, before), raws)
    {
      ghost var start := Run(Contents(), idFor, created, before);
      counts := before;
      for i := 0 to |raws|
        invariant ImportComments(start, raws) == ImportComments(Run(Contents(), idFor, created, counts), raws[i..])
      {
        var raw := raws[i];
        assert raws[i..][0] == raw && raws[i..][1..] == raws[i + 1..];
        if raw.ticketId !in idFor || idFor[raw.ticketId] !in tickets {
          continue;
        }
        var id := CommentId(Key(raw, counts.comments));
        if id in comments {
          counts := counts.(skippedComments := counts.skippedComments + 1);
          continue;
        }
        var comment := Comment(idFor[raw.ticketId], raw.body);
        comments := comments[id := comment];
        audited := audited + [id];
        events := events + [CommentAppend(id, comment)];
        counts := counts.(comments := counts.comments + 1);
      }
    }

    method ImportLinear(payload: Payload) returns (result: Result<Counts, LinearImportError>)
      modifies this
      ensures payload.tickets.None? ==> result == Err(NoTickets) && Contents() == old(Contents())
      ensures payload.tickets.Some? ==>
                var run := Import(old(Contents()), payload.tickets.value, payload.comments);
                Contents() == run.store && result == Ok(run.counts)
      ensures payload.tickets.Some? && old(HasForeignKeys(Contents().tables)) ==>
                HasForeignKeys(Contents().tables) && Faithful(old(Contents()), Contents())
      ensures payload.tickets.Some? ==>
                && result.Ok? && Tells(old(Contents()), payload.tickets.value, payload.comments, Contents(), result.value)
                && HasRows(old(Contents()), payload.tickets.value, payload.comments, Contents())
    {
      if payload.tickets.None? {
        return Err(NoTickets);
      }
      var raws := payload.tickets.value;
      ImportTells(Contents(), raws, payload.comments);
      if HasForeignKeys(Contents().tables) {
        ImportIsFaithful(Contents(), raws, payload.comments);
      }
      var idFor, created, counts := CreatePass(raws);
      counts := LinkPass(raws, idFor, created, counts);
      counts := CommentPass(payload.comments, idFor, created, counts);
      result := Ok(counts);
    }
  }
}
