/**
Completion: when a sync can succeed at all, what becomes of the job row of an attempt whose
completion took effect, and what one sync after another leaves.
 */
module SyncCompletion {
  import opened Wrappers
  import opened DocumentStore
  import opened Replay
  import opened SyncProtocol
  import opened SyncReach
  import opened Traversal
  import opened SyncExact
  import opened SyncProgress

  // ---------------------------------------------------------------- when success is possible

  /** In a walk that ends and keeps the size cap, every page is one to start from. */
  lemma WalkPagesOk(f: Remote, limits: Limits, last: nat, k: nat)
    requires WalkEndsAt(f, limits, last) && limits.maxPages >= 1 && k <= last
    ensures PageOk(f, limits, k)
  {
    if k < last {
      PagesInOrder(f, k, last);
      assert CursorAt(f, k + 1) == Some(f(CursorAt(f, k).value).nextCursor);
      CursorsDistinct(f, last, k, k + 1);
    }
  }

  /** An undisturbed run to the end of the last page. */
  lemma {:induction false} RunToTheEnd(f: Remote, limits: Limits, last: nat, s: State) returns (run: Run)
    requires limits.maxPages >= 1 && WalkEndsAt(f, limits, last) && IdleAt(f, s, 0)
    requires ProcessAll(limits, s.db.store, ItemsBefore(f, last + 1)).Some?
    ensures run.first == s && run.Of(f, limits) && CalmFrom(run, 0) && NeverCompletes(run)
    ensures WorksAt(f, run.Last(), last, |PageItems(f, last)|)
    ensures PageDone(f, run.Last().attempt.value) && !f(run.Last().attempt.value.cursor).hasMore
    ensures run.Last().db.connector in {s.db.connector, Error}
    ensures run.Last().db.store == ProcessAll(limits, s.db.store, ItemsBefore(f, last + 1)).value
  {
    hide Next, Run.Of, ProcessAll, CalmFrom;
    forall j | 0 <= j <= last ensures PageOk(f, limits, j) {
      WalkPagesOk(f, limits, last, j);
    }
    var items := PageItems(f, last);
    assert items[..|items|] == items && ItemsBefore(f, last + 1) == ItemsBefore(f, last) + items;
    run := ToItem(f, limits, s, last, |items|);
    CalmNeverCompletes(run);
  }

  lemma CompleteIsNext(f: Remote, limits: Limits, s: State, now: int)
    requires s.attempt.Some? && PageDone(f, s.attempt.value) && !f(s.attempt.value.cursor).hasMore
    ensures var a := s.attempt.value;
            var done := Finish(s.db, a, now);
            && Next(f, limits, s, Complete(now), State(done, None))
            && Next(f, limits, s, CompleteLanded(now), State(done, Some(Broken(a, done.connector))))
  {
  }

  /** An undisturbed run that completes the walk. */
  lemma {:induction false} CompletingRun(f: Remote, limits: Limits, last: nat, s: State, now: int) returns (run: Run)
    requires limits.maxPages >= 1 && WalkEndsAt(f, limits, last) && IdleAt(f, s, 0)
    requires ProcessAll(limits, s.db.store, ItemsBefore(f, last + 1)).Some?
    ensures run.first == s && run.Of(f, limits) && run.rest != []
    ensures run.rest[|run.rest| - 1].0 == Complete(now) && CalmFrom(run.Upto(|run.rest| - 1), 0)
    ensures run.Last().attempt.None? && run.Last().db.connector == Active && run.Last().db.checkpoint.None?
    ensures run.Last().db.store == ProcessAll(limits, s.db.store, ItemsBefore(f, last + 1)).value
  {
    hide Next, Run.Of, ProcessAll, CalmFrom;
    var before := RunToTheEnd(f, limits, last, s);
    var done := State(Finish(before.Last().db, before.Last().attempt.value, now), None);
    CompleteIsNext(f, limits, before.Last(), now);
    before.ThenIsRun(f, limits, Complete(now), done);
    run := before.Then(Complete(now), done);
    assert run.Upto(|run.rest| - 1) == before;
  }

  /** A sync of a walk that ends can succeed, by some run, exactly if one pass over the walk
      completes. */
  lemma CanSucceedIff(f: Remote, limits: Limits, last: nat, s: State)
    requires limits.maxPages >= 1 && WalkEndsAt(f, limits, last)
    requires Initial(s) && s.db.connector != Disconnected
    ensures (exists run: Run :: run.first == s && run.Of(f, limits) && !NeverCompletes(run)) <==>
            ProcessAll(limits, s.db.store, ItemsBefore(f, last + 1)).Some?
  {
    hide Run.Of, ProcessAll, IsWhole;
    WholeWalk(f, last);
    if ProcessAll(limits, s.db.store, ItemsBefore(f, last + 1)).Some? {
      var run := CompletingRun(f, limits, last, s, 0);
      assert run.rest[|run.rest| - 1].0.Complete?;
    } else {
      forall run: Run | run.first == s && run.Of(f, limits) ensures NeverCompletes(run) {
        RefusedWalkNeverSucceeds(f, limits, run, ItemsBefore(f, last + 1));
      }
    }
  }

  // ---------------------------------------------------------------- the row of a completed attempt

  /** Transition `e` commits the completion of job `j`, whatever its caller is told. */
  predicate CompletesAt(run: Run, e: nat, j: nat) {
    && e < |run.rest| && (run.rest[e].0.Complete? || run.rest[e].0.CompleteLanded?)
    && run.Before(e).attempt.Some? && run.Before(e).attempt.value.job == j
  }

  /** Later a failure is recorded for job `j`. */
  ghost predicate RecordedAfter(run: Run, e: nat, j: nat) {
    exists r :: e < r < |run.rest| && RecordsAt(run, r, j)
  }

  predicate RecordsAt(run: Run, r: nat, j: nat)
    requires r < |run.rest|
  {
    run.rest[r].0.Record? && run.Before(r).attempt.Some? && run.Before(r).attempt.value.job == j
  }

  /** The row of a job that was completed with these counters. */
  ghost predicate CompletedRow(s: State, j: nat, recorded: bool, counts: Counts) {
    && j < |s.db.jobs| && s.db.jobs[j].counts == counts
    && (recorded <==> s.db.jobs[j].status != Succeeded)
    && (recorded ==> s.db.jobs[j].status == Failed || s.db.jobs[j].status == DeadLettered)
    && (s.attempt.Some? && s.attempt.value.job == j ==>
          s.attempt.value.phase.Failing? && s.attempt.value.counts == counts)
  }

  /** The counters of an attempt tell how many document rows and chunk rows there are more
      than when it began, but for those whose commit was reported lost, and every item
      discovered was either processed or skipped. */
  predicate CountsAreTrue(a: Attempt, s: Store) {
    && |s.documents| == a.baseline.documents + a.counts.processed + a.landed.documents
    && |s.chunks| == a.baseline.chunks + a.counts.chunks + a.landed.chunks
    && a.counts.discovered == a.counts.processed + a.counts.skipped
  }

  lemma CompletionSetsRow(f: Remote, limits: Limits, s: State, event: Event, s': State)
    requires Books(f, limits, s) && Next(f, limits, s, event, s')
    requires event.Complete? || event.CompleteLanded?
    ensures s.attempt.Some? && CompletedRow(s', s.attempt.value.job, false, s.attempt.value.counts)
    ensures CountsAreTrue(s.attempt.value, s'.db.store)
    ensures s.db.connector != Disconnected ==>
              s'.db.lastSyncedAt == Some(event.now) && s'.db.checkpoint.None? && s'.db.connector == Active
  {
  }

  lemma StepKeepsRow(f: Remote, limits: Limits, s: State, event: Event, s': State, j: nat, recorded: bool,
                     counts: Counts)
    requires Books(f, limits, s) && CompletedRow(s, j, recorded, counts) && Next(f, limits, s, event, s')
    ensures CompletedRow(s', j, recorded || (event.Record? && s.attempt.Some? && s.attempt.value.job == j), counts)
  {
    hide Process;
  }

  lemma RecordedUpto(run: Run, e: nat, j: nat)
    requires e < |run.rest| - 1
    ensures RecordedAfter(run, e, j) <==>
              RecordedAfter(run.Upto(|run.rest| - 1), e, j) || RecordsAt(run, |run.rest| - 1, j)
  {
    hide RecordsAt;
    var n := |run.rest| - 1;
    forall r | 0 <= r < n ensures RecordsAt(run.Upto(n), r, j) == RecordsAt(run, r, j) {
      SameRecords(run, n, r, j);
    }
  }

  lemma SameRecords(run: Run, n: nat, r: nat, j: nat)
    requires r < n <= |run.rest|
    ensures RecordsAt(run.Upto(n), r, j) == RecordsAt(run, r, j)
  {
    assert run.Upto(n).rest[r] == run.rest[r];
    assert r > 0 ==> run.Upto(n).rest[r - 1] == run.rest[r - 1];
  }

  /** The job row of an attempt whose completion was committed at transition `e`, at any
      later time: it reads "succeeded" exactly if no failure of that attempt was recorded
      after the completion, and "failed" or "dead-lettered" otherwise, although the sync
      time moved, the checkpoint was cleared and the connector was set active at `e`. Either
      way it carries the attempt's counters at the completion, and these are true of what the
      attempt added to the store. */
  lemma {:induction false} CompletedRowIff(f: Remote, limits: Limits, run: Run, e: nat, j: nat)
    requires Initial(run.first) && run.Of(f, limits) && CompletesAt(run, e, j)
    ensures CompletedRow(run.Last(), j, RecordedAfter(run, e, j), run.Before(e).attempt.value.counts)
    ensures CountsAreTrue(run.Before(e).attempt.value, run.rest[e].1.db.store)
    ensures run.Before(e).db.connector != Disconnected ==>
              && run.rest[e].1.db.lastSyncedAt == Some(run.rest[e].0.now)
              && run.rest[e].1.db.checkpoint.None? && run.rest[e].1.db.connector == Active
    decreases |run.rest|
  {
    hide Next, Run.Of, Books, CompletedRow, CountsAreTrue, Initial;
    var n := |run.rest| - 1;
    run.UptoIsRun(f, limits, n);
    RunKeepsBooks(f, limits, run.Upto(n));
    if e == n {
      CompletionSetsRow(f, limits, run.Before(n), run.rest[n].0, run.rest[n].1);
    } else {
      var front := run.Upto(n);
      assert front.rest[e] == run.rest[e] && front.Before(e) == run.Before(e);
      CompletedRowIff(f, limits, front, e, j);
      RecordedUpto(run, e, j);
      StepKeepsRow(f, limits, run.Before(n), run.rest[n].0, run.rest[n].1, j, RecordedAfter(front, e, j),
                   run.Before(e).attempt.value.counts);
    }
  }

  /** It happens: every walk that one pass completes has a run at whose end the sync time
      has moved and everything is stored, while the job row reads "failed" and the
      connector "error". */
  lemma {:induction false} FailedThoughSynced(f: Remote, limits: Limits, last: nat, s: State, now: int)
    returns (run: Run)
    requires limits.maxPages >= 1 && WalkEndsAt(f, limits, last)
    requires Initial(s) && s.db.connector != Disconnected
    requires ProcessAll(limits, s.db.store, ItemsBefore(f, last + 1)).Some?
    ensures run.first == s && run.Of(f, limits) && run.Last().attempt.None?
    ensures var db := run.Last().db;
            && db.lastSyncedAt == Some(now) && db.checkpoint.None? && db.connector == Error
            && db.store == ProcessAll(limits, s.db.store, ItemsBefore(f, last + 1)).value
            && |db.jobs| > 0 && db.jobs[|db.jobs| - 1].status == Failed
  {
    hide Next, Run.Of, ProcessAll;
    var before := RunToTheEnd(f, limits, last, s);
    var a := before.Last().attempt.value;
    var done := Finish(before.Last().db, a, now);
    var landed := State(done, Some(Broken(a, done.connector)));
    CompleteIsNext(f, limits, before.Last(), now);
    before.ThenIsRun(f, limits, CompleteLanded(now), landed);
    var told := before.Then(CompleteLanded(now), landed);
    var recorded := RecordIsNext(f, limits, landed);
    told.ThenIsRun(f, limits, Record, recorded);
    var failed := told.Then(Record, recorded);
    VanishIsNext(f, limits, recorded);
    failed.ThenIsRun(f, limits, Vanish, State(recorded.db, None));
    run := failed.Then(Vanish, State(recorded.db, None));
  }

  // ---------------------------------------------------------------- counters that are too low

  /** They can be: on every walk whose first item is new, a run on which the commit of that
      item lands but is reported lost counts it as skipped, and nothing as processed. */
  lemma {:induction false} CommittedButNotCounted(f: Remote, limits: Limits, s: State) returns (run: Run)
    requires Initial(s) && s.db.connector != Disconnected && PageOk(f, limits, 0)
    requires |PageItems(f, 0)| > 0 && Process(limits, s.db.store, PageItems(f, 0)[0]).Inserted?
    ensures run.first == s && run.Of(f, limits) && run.Last().attempt.Some?
    ensures |run.Last().db.store.documents| == |s.db.store.documents| + 1
    ensures var a := run.Last().attempt.value;
            a.landed.documents == 1 && a.counts.processed == 0 && a.counts.skipped == 1 && a.phase == Working(1)
  {
    hide Next, Run.Of, PageOk;
    FirstPage(f);
    EmptyRun(f, limits, s);
    var begun, fetched := Begins(f, limits, s, false, 0);
    Run(s, []).ThenIsRun(f, limits, Start(false), begun);
    var start := Run(s, []).Then(Start(false), begun);
    start.ThenIsRun(f, limits, Fetch, fetched);
    var fetch := start.Then(Fetch, fetched);
    var landed, skipped := LandsAndSkips(f, limits, fetched);
    fetch.ThenIsRun(f, limits, ItemLanded, landed);
    var land := fetch.Then(ItemLanded, landed);
    land.ThenIsRun(f, limits, ItemSkip, skipped);
    run := land.Then(ItemSkip, skipped);
  }

  lemma EmptyRun(f: Remote, limits: Limits, s: State)
    ensures Run(s, []).Of(f, limits) && Run(s, []).Last() == s
  {
  }

  lemma {:induction false} LandsAndSkips(f: Remote, limits: Limits, s: State) returns (landed: State, skipped: State)
    requires WorksAt(f, s, 0, 0) && WellFormed(s.db.store) && s.attempt.value.landed == Size(0, 0)
    requires s.attempt.value.counts.processed == 0 && s.attempt.value.counts.skipped == 0
    requires |PageItems(f, 0)| > 0 && Process(limits, s.db.store, PageItems(f, 0)[0]).Inserted?
    ensures Next(f, limits, s, ItemLanded, landed) && Next(f, limits, landed, ItemSkip, skipped)
    ensures |skipped.db.store.documents| == |s.db.store.documents| + 1 && skipped.attempt.Some?
    ensures var a := skipped.attempt.value;
            a.landed.documents == 1 && a.counts.processed == 0 && a.counts.skipped == 1 && a.phase == Working(1)
  {
    var x := PageItems(f, 0)[0];
    var a := Landed(s.attempt.value, x);
    var t := Process(limits, s.db.store, x).store;
    ProcessAppends(limits, s.db.store, x, x.externalId);
    landed := State(s.db.(store := t), Some(a));
    skipped := State(landed.db, Some(Skipped(a)));
  }

  // ---------------------------------------------------------------- one sync after another

  /** A sync over its own remote, from its first state to a completion that its worker saw. */
  datatype Sync = Sync(remote: Remote, run: Run)

  ghost predicate Successful(limits: Limits, y: Sync) {
    && y.run.Of(y.remote, limits) && y.run.rest != [] && y.run.rest[|y.run.rest| - 1].0.Complete?
    && y.run.Last().db.checkpoint.None?
  }

  /** Each sync begins where the one before it ended. */
  ghost predicate Consecutive(limits: Limits, s: State, syncs: seq<Sync>)
    decreases |syncs|
  {
    if syncs == [] then true
    else
      && syncs[0].run.first == s && Successful(limits, syncs[0])
      && Consecutive(limits, syncs[0].run.Last(), syncs[1..])
  }

  function EndOf(s: State, syncs: seq<Sync>): State {
    if syncs == [] then s else syncs[|syncs| - 1].run.Last()
  }

  /** `items` is the walks of all the syncs, one after another. */
  ghost predicate WalksOf(syncs: seq<Sync>, items: seq<Item>)
    decreases |syncs|
  {
    if syncs == [] then items == []
    else exists walk, rest :: IsWhole(syncs[0].remote, walk) && WalksOf(syncs[1..], rest) && items == walk + rest
  }

  lemma {:induction false} SuccessIsInitial(limits: Limits, s: State, y: Sync) returns (walk: seq<Item>)
    requires Initial(s) && y.run.first == s && Successful(limits, y)
    ensures IsWhole(y.remote, walk) && ProcessAll(limits, s.db.store, walk) == Some(y.run.Last().db.store)
    ensures Initial(y.run.Last())
  {
    hide ProcessAll, IsWhole, Initial, Run.Of;
    var n := |y.run.rest| - 1;
    y.run.UptoIsRun(y.remote, limits, n);
    CompletionEnds(y.remote, limits, y.run.Before(n), y.run.rest[n].0, y.run.rest[n].1);
    walk := SuccessIsOnePass(y.remote, limits, y.run.Upto(n), y.run.rest[n].0, y.run.rest[n].1);
    IdleIsInitial(y.remote, limits, y.run);
  }

  lemma CompletionEnds(f: Remote, limits: Limits, s: State, event: Event, s': State)
    requires Next(f, limits, s, event, s') && event.Complete?
    ensures s'.attempt.None?
  {
  }

  /** Any number of successful syncs, each over its own walk and with any crashes and
      failures on the way, leave exactly the store of one pass over all their walks. */
  lemma {:induction false} SyncsAreOnePass(limits: Limits, s: State, syncs: seq<Sync>) returns (items: seq<Item>)
    requires Initial(s) && Consecutive(limits, s, syncs)
    ensures WalksOf(syncs, items) && Initial(EndOf(s, syncs))
    ensures ProcessAll(limits, s.db.store, items) == Some(EndOf(s, syncs).db.store)
    decreases |syncs|
  {
    hide IsWhole, Initial, Successful, Process;
    if syncs == [] {
      items := [];
    } else {
      hide ProcessAll;
      var walk := SuccessIsInitial(limits, s, syncs[0]);
      var rest := SyncsAreOnePass(limits, syncs[0].run.Last(), syncs[1..]);
      items := walk + rest;
      PassConcat(limits, s.db.store, walk, rest);
    }
  }
}
