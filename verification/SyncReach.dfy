/**
Runs of the step machine that an undisturbed worker takes: no crash, no lost connection,
nobody else at work. An attempt ends only where the code ends it, with its failure recorded.
 */
module SyncReach {
  import opened Wrappers
  import opened DocumentStore
  import opened Replay
  import opened SyncProtocol
  import opened Traversal

  /** A page that an attempt which starts there accepts. */
  ghost predicate PageOk(f: Remote, limits: Limits, k: nat) {
    match CursorAt(f, k)
    case None => false
    case Some(c) => ValidPage(limits, f(c), 1, match c case None => {} case Some(x) => {x})
  }

  /** No attempt in flight, a connector that can be synced, page `k` next. */
  ghost predicate IdleAt(f: Remote, s: State, k: nat) {
    s.attempt.None? && s.db.connector != Disconnected && CursorAt(f, k) == Some(s.db.checkpoint)
  }

  /** An attempt with `n` items of page `k` behind it. */
  ghost predicate WorksAt(f: Remote, s: State, k: nat, n: nat) {
    && s.attempt.Some? && CursorAt(f, k) == Some(s.attempt.value.cursor) && s.attempt.value.phase == Working(n)
    && s.attempt.value.cached == s.db.connector != Disconnected
    && s.attempt.value.job == |s.db.jobs| - 1
  }

  // ---------------------------------------------------------------- undisturbed runs

  /** Event `i` is the code's own: in particular an attempt that ends has just recorded its
      failure. */
  predicate CalmAt(run: Run, i: nat)
    requires i < |run.rest|
  {
    match run.rest[i].0
    case Start(resume) => resume
    case Fetch => true
    case ItemSkip => true
    case ItemCommit => true
    case Turn => true
    case Record => true
    case Vanish => i > 0 && run.rest[i - 1].0.Record?
    case _ => false
  }

  /** From event `n` on nothing disturbs the run, and it does not complete either. */
  predicate CalmFrom(run: Run, n: nat) {
    forall i :: n <= i < |run.rest| ==> CalmAt(run, i)
  }

  /** `r` continues `run` undisturbed. */
  ghost predicate Continues(f: Remote, limits: Limits, run: Run, r: Run) {
    && r.Of(f, limits) && r.first == run.first && run.rest <= r.rest && CalmFrom(r, |run.rest|)
    && r.Last().db.connector in {run.Last().db.connector, Error}
  }

  lemma CalmKeepsStatus(f: Remote, limits: Limits, s: State, event: Event, s': State)
    requires Next(f, limits, s, event, s') && !event.Disconnect? && !event.Complete? && !event.CompleteLanded?
    ensures s'.db.connector in {s.db.connector, Error}
  {
    hide Process;
  }

  lemma Take(f: Remote, limits: Limits, run: Run, event: Event, s: State) returns (r: Run)
    requires run.Of(f, limits) && Next(f, limits, run.Last(), event, s)
    requires event == Start(true) || event.Fetch? || event.ItemSkip? || event.ItemCommit? || event.Turn?
             || event.Record? || (event.Vanish? && run.rest != [] && run.rest[|run.rest| - 1].0.Record?)
    ensures Continues(f, limits, run, r) && r.Last() == s && r.rest == run.rest + [(event, s)]
  {
    hide Next, Run.Of;
    CalmKeepsStatus(f, limits, run.Last(), event, s);
    run.ThenIsRun(f, limits, event, s);
    r := run.Then(event, s);
  }

  lemma GoesOn(f: Remote, limits: Limits, r1: Run, r2: Run, r3: Run)
    requires Continues(f, limits, r1, r2) && Continues(f, limits, r2, r3)
    ensures Continues(f, limits, r1, r3)
  {
    hide Run.Of, CalmAt;
    forall i | |r1.rest| <= i < |r3.rest| ensures CalmAt(r3, i) {
      if i < |r2.rest| {
        SameCalm(r2, r3, i);
      }
    }
  }

  lemma SameCalm(r: Run, longer: Run, i: nat)
    requires r.rest <= longer.rest && i < |r.rest|
    ensures CalmAt(longer, i) == CalmAt(r, i)
  {
    assert longer.rest[i] == r.rest[i];
    assert i > 0 ==> longer.rest[i - 1] == r.rest[i - 1];
  }

  lemma Unmoved(f: Remote, limits: Limits, run: Run)
    requires run.Of(f, limits)
    ensures Continues(f, limits, run, run)
  {
  }

  lemma CalmNeverCompletes(run: Run)
    requires CalmFrom(run, 0)
    ensures NeverCompletes(run)
  {
    forall i | 0 <= i < |run.rest| ensures !run.rest[i].0.Complete? && !run.rest[i].0.CompleteLanded? {
      assert CalmAt(run, i);
    }
  }

  // ---------------------------------------------------------------- steps

  /** Opening the job row and fetching page `k`, at the checkpoint or at the start. */
  lemma Begins(f: Remote, limits: Limits, s: State, resume: bool, k: nat) returns (begun: State, fetched: State)
    requires s.attempt.None? && s.db.connector != Disconnected && PageOk(f, limits, k)
    requires CursorAt(f, k) == Some(if resume then s.db.checkpoint else None)
    ensures Next(f, limits, s, Start(resume), begun) && Next(f, limits, begun, Fetch, fetched)
    ensures fetched.db == OpenJob(s.db) && WorksAt(f, fetched, k, 0)
    ensures fetched.attempt.value.landed == Size(0, 0)
    ensures fetched.attempt.value.counts.processed == fetched.attempt.value.counts.skipped == 0
  {
    begun := State(OpenJob(s.db), Some(Begin(s.db, resume)));
    fetched := State(begun.db, Some(Fetched(f, limits, begun.attempt.value, begun.db.connector)));
  }

  /** One item that a pass accepts. */
  lemma NextItem(f: Remote, limits: Limits, s: State, k: nat, n: nat) returns (event: Event, next: State)
    requires WorksAt(f, s, k, n) && n < |PageItems(f, k)|
    requires After(s.db.store, Process(limits, s.db.store, PageItems(f, k)[n])).Some?
    ensures Next(f, limits, s, event, next) && (event.ItemSkip? || event.ItemCommit?)
    ensures WorksAt(f, next, k, n + 1)
    ensures next.db == s.db.(store := After(s.db.store, Process(limits, s.db.store, PageItems(f, k)[n])).value)
  {
    hide Process;
    var a := s.attempt.value;
    match Process(limits, s.db.store, PageItems(f, k)[n])
    case Unchanged =>
      event, next := ItemSkip, State(s.db, Some(Skipped(a)));
    case Inserted(t) =>
      event, next := ItemCommit, State(s.db.(store := t), Some(Counted(a, PageItems(f, k)[n])));
    case _ =>
  }

  lemma TurnIsNext(f: Remote, limits: Limits, s: State, k: nat) returns (turned: State)
    requires WorksAt(f, s, k, |PageItems(f, k)|) && CursorAt(f, k + 1).Some?
    ensures Next(f, limits, s, Turn, turned) && turned.attempt.Some? && turned.attempt.value.phase.Fetching?
    ensures CursorAt(f, k + 1) == Some(turned.attempt.value.cursor) == Some(turned.db.checkpoint)
    ensures turned.attempt.value.cached == turned.db.connector != Disconnected
    ensures turned.attempt.value.job == |turned.db.jobs| - 1
    ensures turned.db.store == s.db.store
  {
    var a := s.attempt.value;
    var page := f(a.cursor);
    turned := State(SaveCheckpoint(s.db, a, page.nextCursor), Some(Turned(a, page, s.db.connector)));
  }

  lemma FetchIsNext(f: Remote, limits: Limits, s: State, k: nat) returns (fetched: State)
    requires s.attempt.Some? && s.attempt.value.phase.Fetching? && CursorAt(f, k) == Some(s.attempt.value.cursor)
    requires s.attempt.value.cached == s.db.connector != Disconnected && s.attempt.value.job == |s.db.jobs| - 1
    ensures Next(f, limits, s, Fetch, fetched) && fetched.db == s.db && fetched.attempt.Some?
    ensures WorksAt(f, fetched, k, 0) || fetched.attempt.value.phase.Failing?
    ensures fetched.attempt.value.cached == s.db.connector && fetched.attempt.value.job == |s.db.jobs| - 1
  {
    fetched := State(s.db, Some(Fetched(f, limits, s.attempt.value, s.db.connector)));
  }

  lemma RecordIsNext(f: Remote, limits: Limits, s: State) returns (recorded: State)
    requires s.attempt.Some? && s.attempt.value.phase.Failing?
    requires s.attempt.value.cached == s.db.connector != Disconnected && s.attempt.value.job == |s.db.jobs| - 1
    ensures Next(f, limits, s, Record, recorded) && recorded.attempt.Some?
    ensures recorded.db == s.db.(jobs := recorded.db.jobs, connector := Error)
    ensures |recorded.db.jobs| == |s.db.jobs| && recorded.db.jobs[|s.db.jobs| - 1].status == Failed
  {
    var a := s.attempt.value;
    var db := RecordFailure(s.db, a);
    recorded := State(db, Some(Broken(a, db.connector)));
  }

  // ---------------------------------------------------------------- from page to page

  /** Opening an attempt at the checkpoint. */
  lemma Opens(f: Remote, limits: Limits, run: Run, k: nat) returns (r: Run)
    requires run.Of(f, limits) && IdleAt(f, run.Last(), k) && PageOk(f, limits, k)
    ensures Continues(f, limits, run, r) && WorksAt(f, r.Last(), k, 0)
    ensures r.Last().db == OpenJob(run.Last().db)
  {
    hide Next, Run.Of, PageOk, CursorAt;
    var begun, fetched := Begins(f, limits, run.Last(), true, k);
    var start := Take(f, limits, run, Start(true), begun);
    r := Take(f, limits, start, Fetch, fetched);
    GoesOn(f, limits, run, start, r);
  }

  /** Items `n` up to `m` of page `k`. */
  lemma {:induction false} OnItems(f: Remote, limits: Limits, run: Run, k: nat, n: nat, m: nat) returns (r: Run)
    requires run.Of(f, limits) && WorksAt(f, run.Last(), k, n) && n <= m <= |PageItems(f, k)|
    requires ProcessAll(limits, run.Last().db.store, PageItems(f, k)[n..m]).Some?
    ensures Continues(f, limits, run, r) && WorksAt(f, r.Last(), k, m)
    ensures r.Last().db ==
            run.Last().db.(store := ProcessAll(limits, run.Last().db.store, PageItems(f, k)[n..m]).value)
    decreases m
  {
    hide Next, Run.Of, Process, WorksAt;
    var items := PageItems(f, k);
    if n == m {
      r := run;
      Unmoved(f, limits, run);
    } else {
      assert items[n..m][..m - n - 1] == items[n..m - 1];
      var before := OnItems(f, limits, run, k, n, m - 1);
      var event, next := NextItem(f, limits, before.Last(), k, m - 1);
      r := Take(f, limits, before, event, next);
      GoesOn(f, limits, run, before, r);
    }
  }

  /** From the end of page `k` to the next page. If the attempt is at its page cap, or the
      cursor is one it has seen, it fails, and the next one begins there. */
  lemma {:induction false} OnPage(f: Remote, limits: Limits, run: Run, k: nat) returns (r: Run)
    requires run.Of(f, limits) && WorksAt(f, run.Last(), k, |PageItems(f, k)|)
    requires CursorAt(f, k + 1).Some? && PageOk(f, limits, k + 1)
    ensures Continues(f, limits, run, r) && WorksAt(f, r.Last(), k + 1, 0)
    ensures r.Last().db.store == run.Last().db.store && CursorAt(f, k + 1) == Some(r.Last().db.checkpoint)
  {
    hide Next, Run.Of, PageOk, CursorAt;
    var turned := TurnIsNext(f, limits, run.Last(), k);
    var turn := Take(f, limits, run, Turn, turned);
    var fetched := FetchIsNext(f, limits, turned, k + 1);
    r := Take(f, limits, turn, Fetch, fetched);
    GoesOn(f, limits, run, turn, r);
    if fetched.attempt.value.phase.Failing? {
      var failed := r;
      r := FailsAndReopens(f, limits, failed, k + 1);
      GoesOn(f, limits, run, failed, r);
    }
  }

  lemma {:induction false} FailsAndReopens(f: Remote, limits: Limits, run: Run, k: nat) returns (r: Run)
    requires run.Of(f, limits) && run.Last().attempt.Some? && run.Last().attempt.value.phase.Failing?
    requires run.Last().attempt.value.cached == run.Last().db.connector != Disconnected
    requires run.Last().attempt.value.job == |run.Last().db.jobs| - 1
    requires CursorAt(f, k) == Some(run.Last().db.checkpoint) && PageOk(f, limits, k)
    ensures Continues(f, limits, run, r) && WorksAt(f, r.Last(), k, 0)
    ensures r.Last().db.store == run.Last().db.store && r.Last().db.checkpoint == run.Last().db.checkpoint
  {
    hide Next, Run.Of, PageOk, CursorAt;
    var recorded := RecordIsNext(f, limits, run.Last());
    var record := Take(f, limits, run, Record, recorded);
    VanishIsNext(f, limits, recorded);
    var ended := Take(f, limits, record, Vanish, State(recorded.db, None));
    GoesOn(f, limits, run, record, ended);
    r := Opens(f, limits, ended, k);
    GoesOn(f, limits, run, ended, r);
  }

  /** All of page `k`, and on to the next. */
  lemma {:induction false} OverPage(f: Remote, limits: Limits, run: Run, k: nat) returns (r: Run)
    requires run.Of(f, limits) && WorksAt(f, run.Last(), k, 0) && PageOk(f, limits, k + 1)
    requires ProcessAll(limits, run.Last().db.store, PageItems(f, k)).Some?
    ensures Continues(f, limits, run, r) && WorksAt(f, r.Last(), k + 1, 0)
    ensures CursorAt(f, k + 1) == Some(r.Last().db.checkpoint)
    ensures r.Last().db.store == ProcessAll(limits, run.Last().db.store, PageItems(f, k)).value
  {
    hide Next, Run.Of, PageOk, WorksAt, ProcessAll, Continues, CursorAt;
    var items := PageItems(f, k);
    assert items[0..|items|] == items;
    PageExists(f, limits, k + 1);
    var done := OnItems(f, limits, run, k, 0, |items|);
    RunOf(f, limits, run, done);
    r := OnPage(f, limits, done, k);
    GoesOn(f, limits, run, done, r);
  }

  lemma RunOf(f: Remote, limits: Limits, run: Run, r: Run)
    requires Continues(f, limits, run, r)
    ensures r.Of(f, limits) && r.first == run.first
  {
    hide Run.Of;
  }

  /** From an idle connector without a checkpoint, undisturbed, to page `k`. */
  lemma {:induction false} ToPage(f: Remote, limits: Limits, s: State, k: nat) returns (run: Run)
    requires IdleAt(f, s, 0) && forall j :: 0 <= j <= k ==> PageOk(f, limits, j)
    requires ProcessAll(limits, s.db.store, ItemsBefore(f, k)).Some?
    ensures run.first == s && run.Of(f, limits) && CalmFrom(run, 0) && WorksAt(f, run.Last(), k, 0)
    ensures CursorAt(f, k) == Some(run.Last().db.checkpoint)
    ensures run.Last().db.connector in {s.db.connector, Error}
    ensures run.Last().db.store == ProcessAll(limits, s.db.store, ItemsBefore(f, k)).value
    decreases k
  {
    hide Next, Run.Of, PageOk, WorksAt, Continues, CalmFrom, CursorAt, ProcessAll, Process, PageItems;
    if k == 0 {
      Still(f, limits, s);
      NothingToDo(limits, s.db.store, []);
      assert PageOk(f, limits, 0);
      run := Opens(f, limits, Run(s, []), 0);
      Whole(f, limits, Run(s, []), run);
    } else {
      PassConcat(limits, s.db.store, ItemsBefore(f, k - 1), PageItems(f, k - 1));
      assert PageOk(f, limits, k);
      var front := ToPage(f, limits, s, k - 1);
      run := OverPage(f, limits, front, k - 1);
      Whole(f, limits, front, run);
    }
  }

  lemma Still(f: Remote, limits: Limits, s: State)
    ensures Run(s, []).Of(f, limits) && CalmFrom(Run(s, []), 0) && Run(s, []).Last() == s
  {
  }

  lemma PageExists(f: Remote, limits: Limits, k: nat)
    requires PageOk(f, limits, k)
    ensures CursorAt(f, k).Some?
  {
  }

  /** What continues an undisturbed run is undisturbed as a whole. */
  lemma Whole(f: Remote, limits: Limits, run: Run, r: Run)
    requires CalmFrom(run, 0) && Continues(f, limits, run, r)
    ensures CalmFrom(r, 0) && r.Of(f, limits) && r.first == run.first
    ensures r.Last().db.connector in {run.Last().db.connector, Error}
  {
    hide Run.Of, CalmAt;
    forall i | 0 <= i < |r.rest| ensures CalmAt(r, i) {
      if i < |run.rest| {
        SameCalm(run, r, i);
      }
    }
  }

  /** The same, and the first `n` items of page `k`. */
  lemma {:induction false} ToItem(f: Remote, limits: Limits, s: State, k: nat, n: nat) returns (run: Run)
    requires IdleAt(f, s, 0) && forall j :: 0 <= j <= k ==> PageOk(f, limits, j)
    requires n <= |PageItems(f, k)|
    requires ProcessAll(limits, s.db.store, ItemsBefore(f, k) + PageItems(f, k)[..n]).Some?
    ensures run.first == s && run.Of(f, limits) && CalmFrom(run, 0) && WorksAt(f, run.Last(), k, n)
    ensures CursorAt(f, k) == Some(run.Last().db.checkpoint)
    ensures run.Last().db.connector in {s.db.connector, Error}
    ensures run.Last().db.store ==
            ProcessAll(limits, s.db.store, ItemsBefore(f, k) + PageItems(f, k)[..n]).value
  {
    hide Next, Run.Of, PageOk, WorksAt, ProcessAll, Continues;
    var items := PageItems(f, k);
    PassConcat(limits, s.db.store, ItemsBefore(f, k), items[..n]);
    assert items[0..n] == items[..n];
    var start := ToPage(f, limits, s, k);
    run := OnItems(f, limits, start, k, 0, n);
    Whole(f, limits, start, run);
  }
}
