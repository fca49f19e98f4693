/**
Disconnecting a connector while it is being synced. The attempt goes by the status its
session has read, so it may miss the disconnect and write over it; once it has noticed,
nothing of the connector's row is written any more.
 */
module SyncDisconnect {
  import opened Wrappers
  import opened DocumentStore
  import opened Replay
  import opened SyncProtocol
  import opened SyncReach
  import opened Traversal
  import opened SyncProgress
  import opened SyncCompletion

  /** The connector is disconnected, and no attempt believes otherwise. */
  predicate Gone(s: State) {
    s.db.connector == Disconnected && (s.attempt.Some? ==> s.attempt.value.cached == Disconnected)
  }

  lemma NextKeepsGone(f: Remote, limits: Limits, s: State, event: Event, s': State)
    requires Gone(s) && Next(f, limits, s, event, s')
    ensures Gone(s') && s'.db.checkpoint == s.db.checkpoint && s'.db.lastSyncedAt == s.db.lastSyncedAt
  {
    hide Process, ValidPage;
  }

  /** For good: whatever happens afterwards, a completion included, leaves the connector
      disconnected, its checkpoint where it is and its sync time unmoved. */
  lemma {:induction false} GoneForGood(f: Remote, limits: Limits, run: Run)
    requires Gone(run.first) && run.Of(f, limits)
    ensures Gone(run.Last()) && run.Last().db.checkpoint == run.first.db.checkpoint
    ensures run.Last().db.lastSyncedAt == run.first.db.lastSyncedAt
    decreases |run.rest|
  {
    hide Next, Gone;
    if run.rest != [] {
      var n := |run.rest| - 1;
      run.UptoIsRun(f, limits, n);
      GoneForGood(f, limits, run.Upto(n));
      NextKeepsGone(f, limits, run.Before(n), run.rest[n].0, run.rest[n].1);
    }
  }

  /** An attempt notices a disconnect with its next checkpoint or failure, if not before: the
      commit of a checkpoint, a failure and what is then recorded all read the row again. */
  lemma NextNotices(f: Remote, limits: Limits, s: State, event: Event, s': State)
    requires Next(f, limits, s, event, s') && s'.db.connector == Disconnected && s'.attempt.Some?
    requires || event.Turn? || event.TurnLanded? || event.CompleteLanded? || event.Fail? || event.Refresh?
             || event.Record? || (event.Fetch? && s'.attempt.value.phase.Failing?)
    ensures Gone(s')
  {
    hide Process, ValidPage;
  }

  /** A status is written by an attempt that last read neither that status nor a disconnect. */
  predicate WritesStatus(s: State, event: Event) {
    s.attempt.Some? &&
    match event
    case Complete(_) => s.attempt.value.cached !in {Disconnected, Active}
    case CompleteLanded(_) => s.attempt.value.cached !in {Disconnected, Active}
    case Record => s.attempt.value.cached !in {Disconnected, Error}
    case _ => false
  }

  predicate Undone(run: Run) {
    exists i :: 0 <= i < |run.rest| && WritesStatus(run.Before(i), run.rest[i].0)
  }

  lemma StepUndoesIff(f: Remote, limits: Limits, s: State, event: Event, s': State)
    requires s.db.connector == Disconnected && Next(f, limits, s, event, s')
    ensures s'.db.connector == Disconnected <==> !WritesStatus(s, event)
  {
    hide Process, ValidPage;
  }

  ghost predicate Lasts(run: Run) {
    run.first.db.connector == Disconnected &&
    forall i :: 0 <= i < |run.rest| ==> run.rest[i].1.db.connector == Disconnected
  }

  /** A disconnect lasts through a run exactly if no attempt of the run completes or records
      its failure with a status it read before the disconnect, other than the one it writes. */
  lemma {:induction false} DisconnectLastsIff(f: Remote, limits: Limits, run: Run)
    requires run.first.db.connector == Disconnected && run.Of(f, limits)
    ensures Lasts(run) <==> !Undone(run)
    decreases |run.rest|
  {
    hide Next, Run.Of, WritesStatus, Lasts, Undone;
    if run.rest == [] {
      NothingYet(run);
    } else {
      var n := |run.rest| - 1;
      run.UptoIsRun(f, limits, n);
      DisconnectLastsIff(f, limits, run.Upto(n));
      OneStepOn(run);
      if Lasts(run.Upto(n)) {
        StepUndoesIff(f, limits, run.Before(n), run.rest[n].0, run.rest[n].1);
      }
    }
  }

  lemma NothingYet(run: Run)
    requires run.first.db.connector == Disconnected && run.rest == []
    ensures Lasts(run) && !Undone(run)
  {
  }

  lemma OneStepOn(run: Run)
    requires run.rest != []
    ensures var n := |run.rest| - 1;
            && (Lasts(run) <==> Lasts(run.Upto(n)) && run.rest[n].1.db.connector == Disconnected)
            && (Undone(run) <==> Undone(run.Upto(n)) || WritesStatus(run.Before(n), run.rest[n].0))
            && (Lasts(run.Upto(n)) ==> run.Before(n).db.connector == Disconnected)
  {
    hide WritesStatus;
    var n := |run.rest| - 1;
    forall i | 0 <= i < n ensures run.Upto(n).rest[i] == run.rest[i] && run.Upto(n).Before(i) == run.Before(i) {
      SameBefore(run, n, i);
    }
  }

  lemma SameBefore(run: Run, n: nat, i: nat)
    requires i < n <= |run.rest|
    ensures run.Upto(n).rest[i] == run.rest[i] && run.Upto(n).Before(i) == run.Before(i)
  {
    assert i > 0 ==> run.Upto(n).rest[i - 1] == run.rest[i - 1];
  }

  /** It happens: on every walk that one pass completes, a disconnect just before the last
      commit goes unnoticed. The sync succeeds, its time moves and the checkpoint is cleared,
      and a connector that was not active before the sync is made active again. */
  lemma {:induction false} DisconnectMissed(f: Remote, limits: Limits, last: nat, s: State, now: int) returns (run: Run)
    requires limits.maxPages >= 1 && WalkEndsAt(f, limits, last) && IdleAt(f, s, 0)
    requires ProcessAll(limits, s.db.store, ItemsBefore(f, last + 1)).Some?
    ensures run.first == s && run.Of(f, limits) && run.Last().attempt.None? && |run.rest| >= 2
    ensures run.rest[|run.rest| - 2].0.Disconnect? && run.rest[|run.rest| - 1].0 == Complete(now)
    ensures run.Last().db.lastSyncedAt == Some(now) && run.Last().db.checkpoint.None?
    ensures s.db.connector != Active ==> run.Last().db.connector == Active
  {
    hide Next, Run.Of, ProcessAll, CalmFrom;
    var before := RunToTheEnd(f, limits, last, s);
    var at := before.Last();
    var gone := State(at.db.(connector := Disconnected), at.attempt);
    DisconnectIsNext(f, limits, at);
    before.ThenIsRun(f, limits, Disconnect, gone);
    var disconnected := before.Then(Disconnect, gone);
    var done := State(Finish(gone.db, gone.attempt.value, now), None);
    CompleteIsNext(f, limits, gone, now);
    disconnected.ThenIsRun(f, limits, Complete(now), done);
    run := disconnected.Then(Complete(now), done);
  }

  lemma DisconnectIsNext(f: Remote, limits: Limits, s: State)
    ensures Next(f, limits, s, Disconnect, State(s.db.(connector := Disconnected), s.attempt))
  {
  }
}
