/**
 Any number of commit transactions over any workspaces, interleaved step by step. What
 each holds back until it commits, and the one lock per workspace, decide what a
 reader with a revision cursor can rely on.
 */
module CommitConcurrency {
  import opened Wrappers
  import opened Json
  import opened SyncEvents

  type TxId = nat

  /** A row together with the entity head that its transaction saw before inserting it. */
  datatype Stamped = Stamped(row: LogRow, headRev: nat)

  datatype Tx = Tx(workspace: string, pending: seq<Stamped>)

  /**
   `sequence` is the identity sequence all workspaces share; `lock` maps a lock key to its
   holder; `visible` is what has been committed, in commit order.
   */
  datatype State = State(sequence: nat, lock: map<nat, TxId>, txs: map<TxId, Tx>, visible: seq<Stamped>)

  const QUIET := State(0, map[], map[], [])

  /** The key of a workspace's lock is a hash of its id: two workspaces may share one. */
  type LockKey = string -> nat

  datatype Step =
    | Begin(tx: TxId, workspace: string)
    | TakeLock(tx: TxId)
    | Insert(tx: TxId, event: Event)
    | InsertUnlocked(tx: TxId, event: Event)
    | Draw
    | CommitTx(tx: TxId)
    | Rollback(tx: TxId)

  predicate Holds(s: State, key: LockKey, t: TxId)
    requires t in s.txs
  {
    key(s.txs[t].workspace) in s.lock && s.lock[key(s.txs[t].workspace)] == t
  }

  ghost predicate Enabled(s: State, key: LockKey, step: Step) {
    match step
    case Begin(t, _) => t !in s.txs
    case TakeLock(t) => t in s.txs && key(s.txs[t].workspace) !in s.lock
    case Insert(t, _) => t in s.txs && Holds(s, key, t)
    case InsertUnlocked(t, _) => t in s.txs
    case Draw => true
    case CommitTx(t) => t in s.txs
    case Rollback(t) => t in s.txs
  }

  /** The revision of the entity's last row among those given, or 0. */
  function HeadIn(rows: seq<Stamped>, workspace: string, e: Event): nat {
    if rows == [] then 0
    else
      var last := rows[|rows| - 1].row;
      if OfEntity(last, workspace, e.collection, e.entityId) then last.revision
      else HeadIn(rows[..|rows| - 1], workspace, e)
  }

  function RowsOf(stamped: seq<Stamped>): (rows: seq<LogRow>)
    ensures |rows| == |stamped| && forall i :: 0 <= i < |rows| ==> rows[i] == stamped[i].row
  {
    seq(|stamped|, i requires 0 <= i < |stamped| => stamped[i].row)
  }

  /** It is the head that the sequential commit computes from the same rows. */
  lemma {:induction false} HeadInIsHead(rows: seq<Stamped>, workspace: string, e: Event)
    ensures HeadIn(rows, workspace, e) == Head(EntityRows(RowsOf(rows), workspace, e.collection, e.entityId))
  {
    if rows != [] {
      var init := rows[..|rows| - 1];
      assert RowsOf(rows) == RowsOf(init) + [rows[|rows| - 1].row];
      HeadInIsHead(init, workspace, e);
      EntityRowsLast(RowsOf(init), rows[|rows| - 1].row, workspace, e.collection, e.entityId);
    }
  }

  function Release(lock: map<nat, TxId>, t: TxId): map<nat, TxId> {
    map k | k in lock && lock[k] != t :: lock[k]
  }

  /** A transaction sees what is committed and what it has inserted itself. */
  function Inserted(s: State, t: TxId, e: Event): State
    requires t in s.txs
  {
    var tx := s.txs[t];
    var head := HeadIn(s.visible + tx.pending, tx.workspace, e);
    var row := Stamped(LogRow(s.sequence + 1, tx.workspace, e), head);
    s.(sequence := s.sequence + 1, txs := s.txs[t := tx.(pending := tx.pending + [row])])
  }

  /** `Draw` is a revision handed out for nothing: a dedup hit, or a row that is rolled back. */
  function Next(s: State, key: LockKey, step: Step): State
    requires step.Begin? || step.Draw? || step.tx in s.txs
  {
    match step
    case Begin(t, workspace) => s.(txs := s.txs[t := Tx(workspace, [])])
    case TakeLock(t) => s.(lock := s.lock[key(s.txs[t].workspace) := t])
    case Insert(t, e) => Inserted(s, t, e)
    case InsertUnlocked(t, e) => Inserted(s, t, e)
    case Draw => s.(sequence := s.sequence + 1)
    case CommitTx(t) =>
      s.(visible := s.visible + s.txs[t].pending, lock := Release(s.lock, t), txs := s.txs - {t})
    case Rollback(t) => s.(lock := Release(s.lock, t), txs := s.txs - {t})
  }

  ghost predicate IsRun(s: State, key: LockKey, steps: seq<Step>, end: State)
    decreases |steps|
  {
    if steps == [] then s == end
    else Enabled(s, key, steps[0]) && IsRun(Next(s, key, steps[0]), key, steps[1..], end)
  }

  // ------------------------------------------------------------------------------- invariant

  /** Within a workspace, commit order is revision order. */
  ghost predicate InRevisionOrder(rows: seq<Stamped>, workspace: string) {
    forall i, j :: 0 <= i < j < |rows| && rows[i].row.workspace == workspace == rows[j].row.workspace ==>
      rows[i].row.revision < rows[j].row.revision
  }

  /** The row was stamped with the head of its entity among the rows before it. */
  predicate StampedRight(rows: seq<Stamped>, i: nat)
    requires i < |rows|
  {
    rows[i].headRev == HeadIn(rows[..i], rows[i].row.workspace, rows[i].row.event)
  }

  /** What a transaction has inserted is ordered behind everything visible of its workspace. */
  ghost predicate Ordered(s: State, tx: Tx) {
    && (forall i :: 0 <= i < |tx.pending| ==>
          tx.pending[i].row.workspace == tx.workspace && tx.pending[i].row.revision <= s.sequence)
    && InRevisionOrder(s.visible + tx.pending, tx.workspace)
  }

  ghost predicate Stamps(s: State, tx: Tx) {
    forall i :: |s.visible| <= i < |s.visible + tx.pending| ==> StampedRight(s.visible + tx.pending, i)
  }

  ghost predicate Fits(s: State, tx: Tx) {
    Ordered(s, tx) && Stamps(s, tx)
  }

  ghost predicate LocksAreHeld(s: State, key: LockKey) {
    && (forall k :: k in s.lock ==> s.lock[k] in s.txs && key(s.txs[s.lock[k]].workspace) == k)
    && (forall t :: t in s.txs && s.txs[t].pending != [] ==> Holds(s, key, t))
  }

  ghost predicate VisibleIsOrdered(s: State) {
    && (forall i :: 0 <= i < |s.visible| ==> s.visible[i].row.revision <= s.sequence)
    && (forall w :: InRevisionOrder(s.visible, w))
  }

  ghost predicate Inv(s: State, key: LockKey) {
    && LocksAreHeld(s, key)
    && VisibleIsOrdered(s)
    && (forall i :: 0 <= i < |s.visible| ==> StampedRight(s.visible, i))
    && (forall t :: t in s.txs ==> Fits(s, s.txs[t]))
  }

  lemma InsertKeepsFits(s: State, tx: Tx, row: Stamped)
    requires Fits(s, tx) && VisibleIsOrdered(s)
    requires row.row.revision == s.sequence + 1 && row.row.workspace == tx.workspace
    requires row.headRev == HeadIn(s.visible + tx.pending, tx.workspace, row.row.event)
    ensures Fits(s.(sequence := s.sequence + 1), tx.(pending := tx.pending + [row]))
  {
    var before, after := s.visible + tx.pending, s.visible + (tx.pending + [row]);
    assert after == before + [row];
    forall i | |s.visible| <= i < |after| ensures StampedRight(after, i) {
      assert after[..i] == before[..i];
      if i < |before| {
        assert StampedRight(before, i);
      } else {
        assert before[..i] == before;
      }
    }
  }

  /** Rows of another workspace do not move an entity's head. */
  lemma {:induction false} HeadIgnoresOthers(xs: seq<Stamped>, others: seq<Stamped>, ys: seq<Stamped>, workspace: string, e: Event)
    requires forall i :: 0 <= i < |others| ==> others[i].row.workspace != workspace
    ensures HeadIn(xs + others + ys, workspace, e) == HeadIn(xs + ys, workspace, e)
    decreases |others| + |ys|
  {
    if ys != [] {
      var init := ys[..|ys| - 1];
      assert (xs + others + ys)[..|xs + others + ys| - 1] == xs + others + init;
      assert (xs + ys)[..|xs + ys| - 1] == xs + init;
      HeadIgnoresOthers(xs, others, init, workspace, e);
    } else if others != [] {
      var init := others[..|others| - 1];
      assert (xs + others + ys)[..|xs + others + ys| - 1] == xs + init + ys;
      HeadIgnoresOthers(xs, init, ys, workspace, e);
    } else {
      assert xs + others + ys == xs + ys;
    }
  }

  /** A commit in another workspace leaves a transaction's order where it was. */
  lemma CommitKeepsOrdered(s: State, t: State, done: seq<Stamped>, tx: Tx)
    requires Ordered(s, tx) && t.visible == s.visible + done && t.sequence == s.sequence
    requires forall i :: 0 <= i < |done| ==> done[i].row.workspace != tx.workspace
    ensures Ordered(t, tx)
  {
    var was, now, v, n := s.visible + tx.pending, t.visible + tx.pending, |s.visible|, |done|;
    assert forall k :: 0 <= k < v ==> now[k] == was[k];
    assert forall k :: v <= k < v + n ==> now[k] == done[k - v];
    assert forall k :: v + n <= k < |now| ==> now[k] == was[k - n];
    forall i, j | 0 <= i < j < |now| && now[i].row.workspace == tx.workspace == now[j].row.workspace
      ensures now[i].row.revision < now[j].row.revision
    {
      var a, b := if i < v then i else i - n, if j < v then j else j - n;
      assert was[a] == now[i] && was[b] == now[j];
    }
  }

  lemma CommitKeepsStamps(s: State, t: State, done: seq<Stamped>, tx: Tx)
    requires Stamps(s, tx) && t.visible == s.visible + done
    requires forall i :: 0 <= i < |tx.pending| ==> tx.pending[i].row.workspace == tx.workspace
    requires forall i :: 0 <= i < |done| ==> done[i].row.workspace != tx.workspace
    ensures Stamps(t, tx)
  {
    var was, now, n := s.visible + tx.pending, t.visible + tx.pending, |done|;
    forall i | |t.visible| <= i < |now| ensures StampedRight(now, i) {
      var mine := tx.pending[..i - |t.visible|];
      assert now[..i] == s.visible + done + mine && was[..i - n] == s.visible + mine;
      assert StampedRight(was, i - n) && was[i - n] == now[i];
      HeadIgnoresOthers(s.visible, done, mine, tx.workspace, now[i].row.event);
    }
  }

  lemma CommitKeepsVisible(s: State, t: State, tx: Tx)
    requires Fits(s, tx) && VisibleIsOrdered(s) && t.visible == s.visible + tx.pending && t.sequence == s.sequence
    requires forall i :: 0 <= i < |s.visible| ==> StampedRight(s.visible, i)
    ensures VisibleIsOrdered(t) && forall i :: 0 <= i < |t.visible| ==> StampedRight(t.visible, i)
  {
    forall i | 0 <= i < |t.visible| ensures StampedRight(t.visible, i) {
      if i < |s.visible| {
        assert t.visible[..i] == s.visible[..i];
        assert StampedRight(s.visible, i);
      }
    }
    forall w ensures InRevisionOrder(t.visible, w) {
      if w != tx.workspace {
        assert InRevisionOrder(s.visible, w);
      }
    }
  }

  lemma CommitTxKeepsInv(s: State, key: LockKey, t: TxId)
    requires Inv(s, key) && t in s.txs
    ensures Inv(Next(s, key, CommitTx(t)), key)
  {
    var n, tx := Next(s, key, CommitTx(t)), s.txs[t];
    CommitKeepsVisible(s, n, tx);
    assert LocksAreHeld(n, key);
    forall u | u in n.txs ensures Fits(n, n.txs[u]) {
      var other := n.txs[u];
      assert Fits(s, other);
      if other.pending == [] {
        assert InRevisionOrder(n.visible, other.workspace);
      } else {
        assert tx.pending == [] || tx.workspace != other.workspace;
        CommitKeepsOrdered(s, n, tx.pending, other);
        CommitKeepsStamps(s, n, tx.pending, other);
      }
    }
  }

  lemma InsertKeepsInv(s: State, key: LockKey, t: TxId, e: Event)
    requires Inv(s, key) && t in s.txs && Holds(s, key, t)
    ensures Inv(Inserted(s, t, e), key)
  {
    var n, tx := Inserted(s, t, e), s.txs[t];
    InsertKeepsFits(s, tx, Stamped(LogRow(s.sequence + 1, tx.workspace, e), HeadIn(s.visible + tx.pending, tx.workspace, e)));
    forall u | u in n.txs ensures Fits(n, n.txs[u]) {
      assert Fits(s, s.txs[u]);
      if u != t { FitsDependsOnVisible(s, n, n.txs[u]); }
    }
    assert LocksAreHeld(n, key) && VisibleIsOrdered(n);
  }

  lemma FitsDependsOnVisible(s: State, n: State, tx: Tx)
    requires Fits(s, tx) && s.visible == n.visible && s.sequence <= n.sequence
    ensures Fits(n, tx)
  {
  }

  lemma NextKeepsInv(s: State, key: LockKey, step: Step)
    requires Inv(s, key) && Enabled(s, key, step) && !step.InsertUnlocked?
    ensures Inv(Next(s, key, step), key) && s.visible <= Next(s, key, step).visible
  {
    var n := Next(s, key, step);
    if step.Insert? {
      InsertKeepsInv(s, key, step.tx, step.event);
    } else if step.CommitTx? {
      CommitTxKeepsInv(s, key, step.tx);
    } else {
      assert LocksAreHeld(n, key) && VisibleIsOrdered(n);
      forall u | u in n.txs ensures Fits(n, n.txs[u]) {
        if u in s.txs {
          assert Fits(s, s.txs[u]);
          FitsDependsOnVisible(s, n, n.txs[u]);
        } else {
          assert InRevisionOrder(s.visible, n.txs[u].workspace);
        }
      }
    }
  }

  // ------------------------------------------------------------------------------ cursor safety

  lemma {:induction false} RunsKeepInv(s: State, key: LockKey, steps: seq<Step>, end: State)
    requires Inv(s, key) && IsRun(s, key, steps, end)
    requires forall step :: step in steps ==> !step.InsertUnlocked?
    ensures Inv(end, key) && s.visible <= end.visible
    decreases |steps|
  {
    if steps != [] {
      assert steps[0] in steps;
      NextKeepsInv(s, key, steps[0]);
      RunsKeepInv(Next(s, key, steps[0]), key, steps[1..], end);
    }
  }

  /**
   Cursor safety, in every interleaving: what is visible only grows at its end, and once a
   revision of a workspace is visible, whatever becomes visible later in that workspace has a
   larger one.
   */
  lemma CursorSafety(s: State, key: LockKey, steps: seq<Step>, end: State)
    requires Inv(s, key) && IsRun(s, key, steps, end)
    requires forall step :: step in steps ==> !step.InsertUnlocked?
    ensures s.visible <= end.visible
    ensures forall i, j :: 0 <= i < |s.visible| <= j < |end.visible|
                           && end.visible[i].row.workspace == end.visible[j].row.workspace ==>
              end.visible[i].row.revision < end.visible[j].row.revision
  {
    RunsKeepInv(s, key, steps, end);
    forall i, j | 0 <= i < |s.visible| <= j < |end.visible|
                  && end.visible[i].row.workspace == end.visible[j].row.workspace
      ensures end.visible[i].row.revision < end.visible[j].row.revision
    {
      assert InRevisionOrder(end.visible, end.visible[i].row.workspace);
    }
  }

  predicate SameEntity(r: Stamped, it: Stamped) {
    OfEntity(r.row, it.row.workspace, it.row.event.collection, it.row.event.entityId)
  }

  /** The head that a transaction saw is the entity's revision just before its row, in every later state. */
  lemma StampIsPredecessor(s: State, key: LockKey, steps: seq<Step>, end: State, i: nat)
    requires Inv(s, key) && IsRun(s, key, steps, end)
    requires forall step :: step in steps ==> !step.InsertUnlocked?
    requires i < |s.visible|
    ensures i < |end.visible| && end.visible[i] == s.visible[i]
    ensures var it := s.visible[i];
            && (forall r :: r in end.visible && SameEntity(r, it) && r.row.revision < it.row.revision ==>
                  r.row.revision <= it.headRev)
            && (it.headRev == 0 ||
                exists r :: r in end.visible && SameEntity(r, it) && r.row.revision == it.headRev < it.row.revision)
  {
    RunsKeepInv(s, key, steps, end);
    var it := s.visible[i];
    var w, e := it.row.workspace, it.row.event;
    assert InRevisionOrder(end.visible, w) && StampedRight(end.visible, i);
    var before := end.visible[..i];
    HeadIsLast(before, w, e);
    forall r | r in end.visible && OfEntity(r.row, w, e.collection, e.entityId) && r.row.revision < it.row.revision
      ensures r.row.revision <= it.headRev
    {
      var j :| 0 <= j < |end.visible| && end.visible[j] == r;
      assert j < i && before[j] == r;
    }
    if it.headRev != 0 {
      var r :| r in before && r.row.revision == it.headRev && OfEntity(r.row, w, e.collection, e.entityId);
      assert r in end.visible;
    }
  }

  lemma {:induction false} HeadIsLast(rows: seq<Stamped>, workspace: string, e: Event)
    requires InRevisionOrder(rows, workspace)
    ensures forall j :: 0 <= j < |rows| && OfEntity(rows[j].row, workspace, e.collection, e.entityId) ==>
              rows[j].row.revision <= HeadIn(rows, workspace, e)
    ensures HeadIn(rows, workspace, e) == 0 ||
            exists r :: r in rows && OfEntity(r.row, workspace, e.collection, e.entityId)
                        && r.row.revision == HeadIn(rows, workspace, e)
  {
    if rows != [] {
      var last := rows[|rows| - 1];
      if OfEntity(last.row, workspace, e.collection, e.entityId) {
        assert last in rows;
      } else {
        HeadIsLast(rows[..|rows| - 1], workspace, e);
        assert forall j :: 0 <= j < |rows| - 1 ==> rows[j] == rows[..|rows| - 1][j];
      }
    }
  }

  lemma QuietIsGood(key: LockKey)
    ensures Inv(QUIET, key) && QUIET.visible == [] && QUIET.sequence == 0 && QUIET.txs == map[]
  {
  }

  /** The lock is what makes it true: two unlocked inserts can become visible out of order. */
  lemma UnlockedInsertsBreakCursors(key: LockKey, e: Event)
    ensures exists steps, end ::
              && IsRun(QUIET, key, steps, end) && |end.visible| == 2
              && end.visible[0].row.workspace == end.visible[1].row.workspace
              && end.visible[0].row.revision > end.visible[1].row.revision
  {
    var s0 := Next(QUIET, key, Begin(0, "w"));
    var s1 := Next(s0, key, Begin(1, "w"));
    var s2 := Next(s1, key, InsertUnlocked(0, e));
    var s3 := Next(s2, key, InsertUnlocked(1, e));
    var s4 := Next(s3, key, CommitTx(1));
    var s5 := Next(s4, key, CommitTx(0));
    var tail := [CommitTx(1), CommitTx(0)];
    var mid := [InsertUnlocked(0, e), InsertUnlocked(1, e)] + tail;
    var steps := [Begin(0, "w"), Begin(1, "w")] + mid;
    assert tail[1..] == [CommitTx(0)] && [CommitTx(0)][1..] == [];
    assert IsRun(s4, key, [CommitTx(0)], s5) && IsRun(s3, key, tail, s5);
    assert mid[1..] == [InsertUnlocked(1, e)] + tail && mid[1..][1..] == tail;
    assert IsRun(s2, key, mid[1..], s5) && IsRun(s1, key, mid, s5);
    assert steps[1..] == [Begin(1, "w")] + mid && steps[1..][1..] == mid;
    assert IsRun(s0, key, steps[1..], s5) && IsRun(QUIET, key, steps, s5);
  }
}
