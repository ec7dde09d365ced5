/** A reader that pulls page after page while transactions commit in between. */
module PullUnderCommits {
  import opened Wrappers
  import opened SyncEvents
  import Commits = CommitConcurrency
  import opened Pull

  /** Some interleaving of locked transactions leads from one state to the other. */
  ghost predicate Reaches(s: Commits.State, key: Commits.LockKey, t: Commits.State) {
    exists steps :: Commits.IsRun(s, key, steps, t) && AllLocked(steps)
  }

  predicate AllLocked(steps: seq<Commits.Step>) {
    forall step :: step in steps ==> !step.InsertUnlocked?
  }

  /** The states in which the pages are read, each reached from the one before it. */
  ghost predicate IsHistory(states: nat -> Commits.State, key: Commits.LockKey) {
    states(0) == Commits.QUIET && forall k: nat :: Reaches(states(k), key, states(k + 1))
  }

  function VisibleLog(states: nat -> Commits.State): nat -> seq<LogRow> {
    (k: nat) => Commits.RowsOf(states(k).visible)
  }

  lemma {:induction false} HistoryKeepsInv(states: nat -> Commits.State, key: Commits.LockKey, k: nat)
    requires IsHistory(states, key)
    ensures Commits.Inv(states(k), key) && states(k).visible <= states(k + 1).visible
  {
    if k == 0 {
      Commits.QuietIsGood(key);
    } else {
      HistoryKeepsInv(states, key, k - 1);
      StepKeepsInv(states(k - 1), key, states(k - 1 + 1));
    }
    StepKeepsInv(states(k), key, states(k + 1));
  }

  lemma StepKeepsInv(s: Commits.State, key: Commits.LockKey, t: Commits.State)
    requires Commits.Inv(s, key) && Reaches(s, key, t)
    ensures Commits.Inv(t, key) && s.visible <= t.visible
  {
    var steps :| Commits.IsRun(s, key, steps, t) && AllLocked(steps);
    Commits.RunsKeepInv(s, key, steps, t);
  }

  /** Under the lock, the visible log grows as a reader with a cursor needs. */
  lemma LockedCommitsGrowSafely(states: nat -> Commits.State, key: Commits.LockKey, workspace: string)
    requires IsHistory(states, key)
    ensures GrowsSafely(VisibleLog(states), workspace)
  {
    var logs := VisibleLog(states);
    forall k: nat ensures IncreasingIn(logs(k), workspace) && logs(k) <= logs(k + 1) {
      HistoryKeepsInv(states, key, k);
      assert Commits.InRevisionOrder(states(k).visible, workspace);
    }
  }

  /**
   Whatever is committed between the pages, the entries collected are exactly the visible rows that
   match, up to the last one returned, in order and each once; a short page ends with all of them.
   */
  lemma PagesBetweenCommitsMissNothing(
      states: nat -> Commits.State, key: Commits.LockKey, workspace: string, collection: Option<string>, since: int,
      limit: nat, n: nat)
    requires IsHistory(states, key)
    ensures var entries, all := Collected(VisibleLog(states), workspace, collection, since, limit, n),
                                Matching(VisibleLog(states)(n), workspace, collection, since);
            && entries <= all
            && Matching(VisibleLog(states)(n), workspace, collection, Cursor(entries, since)) == all[|entries|..]
            && (|Page(VisibleLog(states)(n), workspace, collection, Cursor(entries, since), limit)| < limit ==>
                  Collected(VisibleLog(states), workspace, collection, since, limit, n + 1) == all)
  {
    LockedCommitsGrowSafely(states, key, workspace);
    PagesMissNothing(VisibleLog(states), workspace, collection, since, limit, n, n);
    var entries := Collected(VisibleLog(states), workspace, collection, since, limit, n);
    if |Page(VisibleLog(states)(n), workspace, collection, Cursor(entries, since), limit)| < limit {
      ShortPageIsComplete(VisibleLog(states), workspace, collection, since, limit, n);
    }
  }
}
