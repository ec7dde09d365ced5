/** Which collections a replica can fold, and which the backend's log lets in. */
module SyncSurface {
  import Bundle
  import BundleRoundTrip
  import opened SyncEvents
  import opened CommitLog

  /** Of what a replica can fold, the log refuses follow-ups and nothing else. */
  lemma OnlyFollowUpsAreRefused()
    ensures forall c :: c in Bundle.SYNCABLE ==> (c !in SYNCABLE_COLLECTIONS <==> c == "follow_ups")
    ensures "follow_ups" in Bundle.SYNCABLE && forall c :: c in SYNCABLE_COLLECTIONS ==> c in Bundle.SYNCABLE
  {
    BundleRoundTrip.SyncableNamesDiffer();
    assert "follow_ups" == Bundle.SYNCABLE[5];
    assert forall c :: c in SYNCABLE_COLLECTIONS ==> c[0] != 'f';
    assert "follow_ups"[0] == 'f';
    forall c | c in Bundle.SYNCABLE && c != "follow_ups" ensures c in SYNCABLE_COLLECTIONS {
      var i :| 0 <= i < |Bundle.SYNCABLE| && Bundle.SYNCABLE[i] == c;
    }
  }

  /** A batch with a follow-up is never committed. */
  lemma FollowUpsNeverCommit(log: Log, workspace: string, events: seq<Event>, cas: bool, e: Event)
    requires e in events && e.collection == "follow_ups"
    ensures CommitAll(log, workspace, events, cas).result.Err?
  {
    OnlyFollowUpsAreRefused();
    UnlistedNeverCommits(log, workspace, events, cas, e);
  }
}
