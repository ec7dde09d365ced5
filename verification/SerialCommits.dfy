/** A transaction that runs alone does what the sequential commit does. */
module SerialCommits {
  import opened Wrappers
  import opened SyncEvents
  import opened CommitLog
  import Steps = CommitConcurrency

  /** The log as the transaction sees it: what is visible, and what it has inserted itself. */
  ghost function SeenBy(s: Steps.State, t: Steps.TxId): Log
    requires t in s.txs
  {
    Log(Steps.RowsOf(s.visible + s.txs[t].pending), s.sequence)
  }

  /** The one transaction there is has the lock of its workspace. */
  ghost predicate RunsAlone(s: Steps.State, key: Steps.LockKey, t: Steps.TxId, workspace: string) {
    && s.txs.Keys == {t} && s.txs[t].workspace == workspace
    && s.lock == map[key(workspace) := t]
  }

  /** The rows of the committed events, with the heads that their results tell. */
  function StampedOf(workspace: string, events: seq<Event>, results: seq<CommitRow>): seq<Steps.Stamped>
    requires |events| == |results|
  {
    if events == [] then []
    else
      var result := results[0];
      (if result.status == Committed && result.headRev.Some?
       then [Steps.Stamped(LogRow(result.revision, workspace, events[0]), result.headRev.value)] else [])
        + StampedOf(workspace, events[1..], results[1..])
  }

  lemma RunsJoin(
      s: Steps.State, key: Steps.LockKey, xs: seq<Steps.Step>, middle: Steps.State, ys: seq<Steps.Step>, end: Steps.State)
    requires Steps.IsRun(s, key, xs, middle) && Steps.IsRun(middle, key, ys, end)
    ensures Steps.IsRun(s, key, xs + ys, end)
    decreases |xs|
  {
    if xs == [] {
      assert xs + ys == ys;
    } else {
      assert (xs + ys)[0] == xs[0] && (xs + ys)[1..] == xs[1..] + ys;
      RunsJoin(Steps.Next(s, key, xs[0]), key, xs[1..], middle, ys, end);
    }
  }

  lemma OneStep(s: Steps.State, key: Steps.LockKey, step: Steps.Step)
    requires Steps.Enabled(s, key, step)
    ensures Steps.IsRun(s, key, [step], Steps.Next(s, key, step))
  {
    assert [step][1..] == [];
  }

  /** An event is committed by an insert, and a duplicate by drawing a revision for nothing. */
  function StepFor(log: Log, t: Steps.TxId, e: Event): Steps.Step {
    if FindKey(log.rows, e).Some? then Steps.Draw else Steps.Insert(t, e)
  }

  /** What a step leaves of the transaction: the log that it sees, and what it has inserted. */
  ghost predicate Leaves(
      s: Steps.State, key: Steps.LockKey, t: Steps.TxId, workspace: string, n: Steps.State, log: Log, more: seq<Steps.Stamped>)
    requires t in s.txs
  {
    && RunsAlone(n, key, t, workspace) && n.visible == s.visible && SeenBy(n, t) == log
    && n.txs[t].pending == s.txs[t].pending + more
  }

  lemma InsertRuns(s: Steps.State, key: Steps.LockKey, t: Steps.TxId, workspace: string, e: Event, head: nat)
    requires RunsAlone(s, key, t, workspace) && head == Head(History(SeenBy(s, t).rows, workspace, e))
    ensures var row := LogRow(s.sequence + 1, workspace, e);
            && Steps.Enabled(s, key, Steps.Insert(t, e))
            && Leaves(s, key, t, workspace, Steps.Next(s, key, Steps.Insert(t, e)),
                      Log(SeenBy(s, t).rows + [row], s.sequence + 1), [Steps.Stamped(row, head)])
  {
    var rows := s.visible + s.txs[t].pending;
    var row := Steps.Stamped(LogRow(s.sequence + 1, workspace, e), head);
    Steps.HeadInIsHead(rows, workspace, e);
    assert s.visible + (s.txs[t].pending + [row]) == rows + [row];
    assert Steps.RowsOf(rows + [row]) == Steps.RowsOf(rows) + [row.row];
  }

  lemma DrawRuns(s: Steps.State, key: Steps.LockKey, t: Steps.TxId, workspace: string)
    requires RunsAlone(s, key, t, workspace)
    ensures Steps.Enabled(s, key, Steps.Draw)
    ensures Leaves(s, key, t, workspace, Steps.Next(s, key, Steps.Draw), Log(SeenBy(s, t).rows, s.sequence + 1), [])
  {
    assert s.txs[t].pending + [] == s.txs[t].pending;
  }

  lemma EventRuns(s: Steps.State, key: Steps.LockKey, t: Steps.TxId, workspace: string, e: Event)
    requires RunsAlone(s, key, t, workspace) && CommitOne(SeenBy(s, t), workspace, e, false).result.Ok?
    ensures var step, out := StepFor(SeenBy(s, t), t, e), CommitOne(SeenBy(s, t), workspace, e, false);
            && Steps.Enabled(s, key, step)
            && Leaves(s, key, t, workspace, Steps.Next(s, key, step), out.log, StampedOf(workspace, [e], [out.result.value]))
  {
    var row := CommitOne(SeenBy(s, t), workspace, e, false).result.value;
    OneStamped(workspace, e, row);
    if FindKey(SeenBy(s, t).rows, e).None? {
      InsertRuns(s, key, t, workspace, e, Head(History(SeenBy(s, t).rows, workspace, e)));
    } else {
      DrawRuns(s, key, t, workspace);
    }
  }

  lemma OneStamped(workspace: string, e: Event, row: CommitRow)
    ensures StampedOf(workspace, [e], [row]) ==
            if row.status == Committed && row.headRev.Some? then [Steps.Stamped(LogRow(row.revision, workspace, e), row.headRev.value)]
            else []
  {
    assert [e][1..] == [] && [row][1..] == [];
  }

  /** The events of a batch, one after the other. */
  lemma {:induction false} EventsRun(s: Steps.State, key: Steps.LockKey, t: Steps.TxId, workspace: string, events: seq<Event>)
      returns (steps: seq<Steps.Step>, end: Steps.State)
    requires RunsAlone(s, key, t, workspace) && CommitAll(SeenBy(s, t), workspace, events, false).result.Ok?
    ensures Steps.IsRun(s, key, steps, end) && forall step :: step in steps ==> !step.InsertUnlocked?
    ensures var out := CommitAll(SeenBy(s, t), workspace, events, false);
            && RunsAlone(end, key, t, workspace) && end.visible == s.visible && SeenBy(end, t) == out.log
            && |out.result.value| == |events|
            && end.txs[t].pending == s.txs[t].pending + StampedOf(workspace, events, out.result.value)
    decreases |events|
  {
    steps, end := [], s;
    if events != [] {
      var step := StepFor(SeenBy(s, t), t, events[0]);
      var first := CommitOne(SeenBy(s, t), workspace, events[0], false);
      var next := Steps.Next(s, key, step);
      FirstAndRest(SeenBy(s, t), workspace, events, false);
      EventRuns(s, key, t, workspace, events[0]);
      OneStep(s, key, step);
      steps, end := EventsRun(next, key, t, workspace, events[1..]);
      RunsJoin(s, key, [step], next, steps, end);
      var rest := CommitAll(first.log, workspace, events[1..], false).result.value;
      StampedInTwo(workspace, events, first.result.value, rest, s.txs[t].pending);
      steps := [step] + steps;
    } else {
      assert s.txs[t].pending + [] == s.txs[t].pending;
    }
  }

  lemma StampedInTwo(
      workspace: string, events: seq<Event>, row: CommitRow, rest: seq<CommitRow>, pending: seq<Steps.Stamped>)
    requires events != [] && |rest| == |events| - 1
    ensures pending + StampedOf(workspace, events, [row] + rest)
         == pending + StampedOf(workspace, [events[0]], [row]) + StampedOf(workspace, events[1..], rest)
  {
    var first, others := StampedOf(workspace, [events[0]], [row]), StampedOf(workspace, events[1..], rest);
    OneStamped(workspace, events[0], row);
    FirstStamped(workspace, events, row, rest);
    InThree(pending, first, others);
  }

  lemma FirstStamped(workspace: string, events: seq<Event>, row: CommitRow, rest: seq<CommitRow>)
    requires events != [] && |rest| == |events| - 1
    ensures StampedOf(workspace, events, [row] + rest) ==
            (if row.status == Committed && row.headRev.Some?
             then [Steps.Stamped(LogRow(row.revision, workspace, events[0]), row.headRev.value)] else [])
            + StampedOf(workspace, events[1..], rest)
  {
    assert ([row] + rest)[1..] == rest;
  }

  lemma InThree(a: seq<Steps.Stamped>, b: seq<Steps.Stamped>, c: seq<Steps.Stamped>)
    ensures a + (b + c) == a + b + c
  {
  }

  /** No transaction is open. */
  ghost predicate IsIdle(s: Steps.State) {
    s.txs == map[] && s.lock == map[]
  }

  /**
   What a batch commits sequentially, a locked transaction that runs alone makes visible: the
   same rows at the same revisions, stamped with the heads that the results tell, and nothing else.
   */
  lemma SerialRunCommits(s: Steps.State, key: Steps.LockKey, t: Steps.TxId, workspace: string, events: seq<Event>)
      returns (steps: seq<Steps.Step>, end: Steps.State)
    requires IsIdle(s) && CommitAll(Log(Steps.RowsOf(s.visible), s.sequence), workspace, events, false).result.Ok?
    ensures Steps.IsRun(s, key, steps, end) && forall step :: step in steps ==> !step.InsertUnlocked?
    ensures var out := CommitAll(Log(Steps.RowsOf(s.visible), s.sequence), workspace, events, false);
            && IsIdle(end) && Log(Steps.RowsOf(end.visible), end.sequence) == out.log
            && |out.result.value| == |events|
            && end.visible == s.visible + StampedOf(workspace, events, out.result.value)
  {
    var begun := Steps.Next(s, key, Steps.Begin(t, workspace));
    var locked := Steps.Next(begun, key, Steps.TakeLock(t));
    OneStep(s, key, Steps.Begin(t, workspace));
    OneStep(begun, key, Steps.TakeLock(t));
    RunsJoin(s, key, [Steps.Begin(t, workspace)], begun, [Steps.TakeLock(t)], locked);
    assert s.visible + [] == s.visible;
    var inserts, full := EventsRun(locked, key, t, workspace, events);
    RunsJoin(s, key, [Steps.Begin(t, workspace)] + [Steps.TakeLock(t)], locked, inserts, full);
    OneStep(full, key, Steps.CommitTx(t));
    end := Steps.Next(full, key, Steps.CommitTx(t));
    steps := [Steps.Begin(t, workspace)] + [Steps.TakeLock(t)] + inserts + [Steps.CommitTx(t)];
    RunsJoin(s, key, [Steps.Begin(t, workspace)] + [Steps.TakeLock(t)] + inserts, full, [Steps.CommitTx(t)], end);
    assert [] + StampedOf(workspace, events, CommitAll(Log(Steps.RowsOf(s.visible), s.sequence), workspace, events, false).result.value)
        == StampedOf(workspace, events, CommitAll(Log(Steps.RowsOf(s.visible), s.sequence), workspace, events, false).result.value);
  }

  /** A transaction that is rolled back leaves the log as it was; the revisions drawn are gone. */
  lemma RollbackLeavesNothing(s: Steps.State, key: Steps.LockKey, t: Steps.TxId)
    requires t in s.txs
    ensures Steps.Enabled(s, key, Steps.Rollback(t))
    ensures var end := Steps.Next(s, key, Steps.Rollback(t));
            && end.visible == s.visible && end.sequence == s.sequence && end.txs == s.txs - {t}
            && forall k :: k in s.lock ==> (k in end.lock <==> s.lock[k] != t) && (k in end.lock ==> end.lock[k] == s.lock[k])
  {
  }
}
