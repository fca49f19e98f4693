/**
The ingestion sync of one connector as a step machine over durable state.

Durable state is what a transaction commit leaves behind: documents and chunks, the
page checkpoint, the job rows, the connector's status and `last_synced_at`. An
attempt is the in-memory part of `_execute_ingestion_job`; it can vanish at any
moment. The remote is frozen: it answers each cursor with the same page throughout.
Attempts of one connector never overlap (the connector lock).
 */
module SyncProtocol {
  import opened Wrappers
  import opened DocumentStore

  datatype Page = Page(items: seq<Item>, hasMore: bool, nextCursor: Option<string>)

  type Remote = Option<string> -> Page

  datatype JobStatus = Queued | Running | Succeeded | Failed | DeadLettered

  datatype Counts = Counts(processed: nat, pages: nat, discovered: nat, skipped: nat, chunks: nat)

  datatype Job = Job(status: JobStatus, counts: Counts)

  datatype ConnectorStatus = Connecting | Active | Error | Disconnected

  datatype Durable = Durable(store: Store, jobs: seq<Job>, checkpoint: Option<string>,
                             connector: ConnectorStatus, lastSyncedAt: Option<int>)

  /** `Working(done)`: the page at `cursor` is fetched and valid, and `done` of its
      items are behind us. */
  datatype Phase = Fetching | Working(done: nat) | Failing

  /** `cached` is the connector's status as the attempt's session last read it, which is what
      its guards go by. Two fields are only for stating results: `baseline` remembers how
      many rows existed when the attempt began, and `landed` how many came with item commits
      that took effect although the attempt was told that they failed. */
  datatype Attempt = Attempt(job: nat, cursor: Option<string>, seen: set<string>, counts: Counts,
                             phase: Phase, cached: ConnectorStatus, baseline: Size, landed: Size)

  /** Numbers of document rows and of chunk rows. */
  datatype Size = Size(documents: nat, chunks: nat)

  datatype State = State(db: Durable, attempt: Option<Attempt>)

  // ---------------------------------------------------------------- commits

  const NO_COUNTS := Counts(0, 0, 0, 0, 0)

  /** Closing the rows an interrupted predecessor left behind. */
  function Recover(jobs: seq<Job>): seq<Job> {
    seq(|jobs|, i requires 0 <= i < |jobs| => if jobs[i].status == Running then jobs[i].(status := Failed) else jobs[i])
  }

  /** The first commit of an attempt: predecessors closed, a running row added. */
  function OpenJob(db: Durable): Durable {
    db.(jobs := Recover(db.jobs) + [Job(Running, NO_COUNTS)])
  }

  function SetJob(db: Durable, job: nat, row: Job): Durable {
    if job < |db.jobs| then db.(jobs := db.jobs[job := row]) else db
  }

  /** The commit after a page: counters and the next cursor; the configuration of a connector
      that the session takes to be disconnected is left alone. */
  function SaveCheckpoint(db: Durable, a: Attempt, cursor: Option<string>): Durable {
    var db' := SetJob(db, a.job, Job(Running, a.counts));
    if a.cached == Disconnected then db' else db'.(checkpoint := cursor)
  }

  /** The commit that ends a complete traversal. */
  function Finish(db: Durable, a: Attempt, now: int): Durable {
    var db' := SetJob(db, a.job, Job(Succeeded, a.counts));
    if a.cached == Disconnected then db'
    else db'.(checkpoint := None, connector := Written(db.connector, a.cached, Active), lastSyncedAt := Some(now))
  }

  function RecordFailure(db: Durable, a: Attempt): Durable {
    var db' := SetJob(db, a.job, Job(Failed, a.counts));
    if a.cached == Disconnected then db' else db'.(connector := Written(db.connector, a.cached, Error))
  }

  /** Assigning a status: the session writes the column only if that changes what it read. */
  function Written(current: ConnectorStatus, cached: ConnectorStatus, status: ConnectorStatus): ConnectorStatus {
    if cached == status then current else status
  }

  /** The pagination contract of `_validate_fetch_result`. */
  predicate ValidPage(limits: Limits, page: Page, pageNumber: nat, seen: set<string>) {
    && pageNumber <= limits.maxPages
    && |page.items| <= limits.maxItems
    && (page.hasMore ==> HasNext(page) && page.nextCursor.value !in seen)
  }

  predicate HasNext(page: Page) {
    page.hasMore && page.nextCursor.Some? && page.nextCursor.value != ""
  }

  // ---------------------------------------------------------------- steps

  /** What can happen next. The `...Landed` events are commits that took effect while
      the caller was told they failed. `Fail` is any exception inside the attempt
      (authentication, fetch, item, cancellation); `Refresh` is the session reading the
      connector's row anew, after a rollback; `Vanish` is process death, and also the end of
      an attempt once its failure is recorded or cannot be. `Disconnect` is another session's
      doing, at any time. */
  datatype Event =
    | Start(resume: bool)
    | Fetch
    | ItemSkip | ItemCommit | ItemLanded
    | Turn | TurnLanded
    | Complete(now: int) | CompleteLanded(now: int)
    | Fail | Refresh | Record | Vanish
    | Disconnect | DeadLetter(job: nat)

  function SizeOf(s: Store): Size {
    Size(|s.documents|, |s.chunks|)
  }

  function Begin(db: Durable, resume: bool): Attempt {
    var cursor := if resume then db.checkpoint else None;
    var seen := if cursor.Some? then {cursor.value} else {};
    Attempt(|db.jobs|, cursor, seen, NO_COUNTS, Fetching, db.connector, SizeOf(db.store),
            Size(0, 0))
  }

  /** The rollback that a failure begins with makes the session read everything anew. */
  function Broken(a: Attempt, connector: ConnectorStatus): Attempt {
    a.(phase := Failing, cached := connector)
  }

  function Fetched(f: Remote, limits: Limits, a: Attempt, connector: ConnectorStatus): Attempt {
    var page := f(a.cursor);
    var counts := a.counts.(pages := a.counts.pages + 1, discovered := a.counts.discovered + |page.items|);
    if ValidPage(limits, page, counts.pages, a.seen) then a.(counts := counts, phase := Working(0))
    else Broken(a.(counts := counts), connector)
  }

  function Skipped(a: Attempt): Attempt
    requires a.phase.Working?
  {
    a.(counts := a.counts.(skipped := a.counts.skipped + 1), phase := Working(a.phase.done + 1))
  }

  function Counted(a: Attempt, item: Item): Attempt
    requires a.phase.Working?
  {
    a.(counts := a.counts.(processed := a.counts.processed + 1, chunks := a.counts.chunks + |item.chunks|),
       phase := Working(a.phase.done + 1))
  }

  function Landed(a: Attempt, item: Item): Attempt {
    a.(landed := Size(a.landed.documents + 1, a.landed.chunks + |item.chunks|))
  }

  /** Writing the checkpoint reads the connector's row again. */
  function Turned(a: Attempt, page: Page, connector: ConnectorStatus): Attempt
    requires page.nextCursor.Some?
  {
    a.(cursor := page.nextCursor, seen := a.seen + {page.nextCursor.value}, phase := Fetching,
       cached := if a.cached == Disconnected then Disconnected else connector)
  }

  /** The item the attempt would process now. */
  predicate HasItem(f: Remote, a: Attempt) {
    a.phase.Working? && a.phase.done < |f(a.cursor).items|
  }

  predicate PageDone(f: Remote, a: Attempt) {
    a.phase.Working? && a.phase.done == |f(a.cursor).items|
  }

  ghost predicate Next(f: Remote, limits: Limits, s: State, event: Event, s': State) {
    match event
    case Start(resume) =>
      && s.attempt.None? && s.db.connector != Disconnected
      && s' == State(OpenJob(s.db), Some(Begin(s.db, resume)))
    case Disconnect => s' == s.(db := s.db.(connector := Disconnected))
    case DeadLetter(j) =>
      && s.attempt.None? && j < |s.db.jobs| && s.db.jobs[j].status == Failed
      && s' == s.(db := SetJob(s.db, j, s.db.jobs[j].(status := DeadLettered)))
    case _ => s.attempt.Some? && AttemptNext(f, limits, s.db, s.attempt.value, event, s')
  }

  ghost predicate AttemptNext(f: Remote, limits: Limits, db: Durable, a: Attempt, event: Event, s': State) {
    match event
    case Fetch => a.phase.Fetching? && s' == State(db, Some(Fetched(f, limits, a, db.connector)))
    case ItemSkip =>
      && HasItem(f, a) && Process(limits, db.store, f(a.cursor).items[a.phase.done]).Unchanged?
      && s' == State(db, Some(Skipped(a)))
    case ItemCommit =>
      && HasItem(f, a) && Process(limits, db.store, f(a.cursor).items[a.phase.done]).Inserted?
      && s' == State(db.(store := Process(limits, db.store, f(a.cursor).items[a.phase.done]).store),
                     Some(Counted(a, f(a.cursor).items[a.phase.done])))
    case ItemLanded =>
      && HasItem(f, a) && Process(limits, db.store, f(a.cursor).items[a.phase.done]).Inserted?
      && s' == State(db.(store := Process(limits, db.store, f(a.cursor).items[a.phase.done]).store),
                     Some(Landed(a, f(a.cursor).items[a.phase.done])))
    case Turn =>
      && PageDone(f, a) && HasNext(f(a.cursor))
      && s' == State(SaveCheckpoint(db, a, f(a.cursor).nextCursor), Some(Turned(a, f(a.cursor), db.connector)))
    case TurnLanded =>
      && PageDone(f, a) && HasNext(f(a.cursor))
      && s' == State(SaveCheckpoint(db, a, f(a.cursor).nextCursor), Some(Broken(a, db.connector)))
    case Complete(now) =>
      && PageDone(f, a) && !f(a.cursor).hasMore
      && s' == State(Finish(db, a, now), None)
    case CompleteLanded(now) =>
      && PageDone(f, a) && !f(a.cursor).hasMore
      && s' == State(Finish(db, a, now), Some(Broken(a, Finish(db, a, now).connector)))
    case Fail => s' == State(db, Some(Broken(a, db.connector)))
    case Refresh => s' == State(db, Some(a.(cached := db.connector)))
    case Record =>
      && a.phase.Failing?
      && s' == State(RecordFailure(db, a), Some(Broken(a, RecordFailure(db, a).connector)))
    case Vanish => s' == State(db, None)
    case _ => false
  }

  /** A run: states joined by events. */
  datatype Run = Run(first: State, rest: seq<(Event, State)>) {
    function Last(): State {
      if rest == [] then first else rest[|rest| - 1].1
    }

    function Before(i: nat): State
      requires i < |rest|
    {
      if i == 0 then first else rest[i - 1].1
    }

    /** Every event of the run was possible where it happened. */
    ghost predicate Of(f: Remote, limits: Limits)
      decreases |rest|
    {
      if rest == [] then true
      else
        var n := |rest| - 1;
        Upto(n).Of(f, limits) && Next(f, limits, Before(n), rest[n].0, rest[n].1)
    }

    function Then(event: Event, s: State): Run {
      Run(first, rest + [(event, s)])
    }

    lemma ThenIsRun(f: Remote, limits: Limits, event: Event, s: State)
      requires Of(f, limits) && Next(f, limits, Last(), event, s)
      ensures Then(event, s).Of(f, limits) && Then(event, s).Last() == s && Then(event, s).first == first
    {
      hide Next;
      assert Then(event, s).Upto(|rest|) == this;
    }

    /** The run up to, and not including, transition `n`. */
    function Upto(n: nat): Run
      requires n <= |rest|
    {
      Run(first, rest[..n])
    }

    lemma {:induction false} UptoIsRun(f: Remote, limits: Limits, n: nat)
      requires Of(f, limits) && n <= |rest|
      ensures Upto(n).Of(f, limits)
      ensures n < |rest| ==> Upto(n).Last() == Before(n) && Next(f, limits, Before(n), rest[n].0, rest[n].1)
      decreases |rest|
    {
      hide Next;
      if n < |rest| {
        var front := Upto(|rest| - 1);
        front.UptoIsRun(f, limits, n);
        assert front.Upto(n) == Upto(n);
      } else {
        assert Upto(n) == this;
      }
    }
  }

  /** Runs join: attempt after attempt is one run. */
  lemma {:induction false} RunsJoin(f: Remote, limits: Limits, r1: Run, r2: Run) returns (r: Run)
    requires r1.Of(f, limits) && r2.Of(f, limits) && r2.first == r1.Last()
    ensures r.Of(f, limits) && r.first == r1.first && r.Last() == r2.Last()
    ensures r.rest == r1.rest + r2.rest
    decreases |r2.rest|
  {
    hide Next, Run.Of;
    if r2.rest == [] {
      r := r1;
    } else {
      var n := |r2.rest| - 1;
      r2.UptoIsRun(f, limits, n);
      var front := RunsJoin(f, limits, r1, r2.Upto(n));
      front.ThenIsRun(f, limits, r2.rest[n].0, r2.rest[n].1);
      r := front.Then(r2.rest[n].0, r2.rest[n].1);
    }
  }

  lemma VanishIsNext(f: Remote, limits: Limits, s: State)
    requires s.attempt.Some?
    ensures Next(f, limits, s, Vanish, State(s.db, None))
  {
  }

  /** The process can die at any point of a run: what the database then holds, with no
      attempt in flight, is again the end of a run. */
  lemma CrashIsRun(f: Remote, limits: Limits, run: Run, i: nat) returns (r: Run)
    requires run.Of(f, limits) && i < |run.rest|
    ensures r.Of(f, limits) && r.first == run.first && r.Last() == State(run.rest[i].1.db, None)
  {
    hide Next, Run.Of;
    run.UptoIsRun(f, limits, i + 1);
    r := run.Upto(i + 1);
    if r.Last().attempt.Some? {
      VanishIsNext(f, limits, r.Last());
      r.ThenIsRun(f, limits, Vanish, State(r.Last().db, None));
      r := r.Then(Vanish, State(r.Last().db, None));
    }
  }

  /** No attempt of the run commits success. */
  predicate NeverCompletes(run: Run) {
    forall i :: 0 <= i < |run.rest| ==> !run.rest[i].0.Complete? && !run.rest[i].0.CompleteLanded?
  }

  predicate Balanced(c: Counts) {
    c.discovered == c.processed + c.skipped
  }

  predicate NotOvercounted(c: Counts) {
    c.discovered >= c.processed + c.skipped
  }

  /** No row is queued, only the last can be running, and the counters agree. */
  predicate RowsOk(jobs: seq<Job>) {
    forall j :: 0 <= j < |jobs| ==>
      && jobs[j].status != Queued
      && (jobs[j].status == Running ==> j == |jobs| - 1)
      && NotOvercounted(jobs[j].counts)
      && (jobs[j].status == Running || jobs[j].status == Succeeded ==> Balanced(jobs[j].counts))
  }

  /** A connector before a sync: no attempt in flight, no checkpoint, a sound table, job
      rows in order; the last one may still be running, if its worker died. */
  ghost predicate Initial(s: State) {
    s.attempt.None? && s.db.checkpoint.None? && WellFormed(s.db.store) && RowsOk(s.db.jobs)
  }
}
