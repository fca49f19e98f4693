/**
What the job rows say: each tells the last thing that was committed for its attempt, with
the counters the attempt then had. And what an attempt fetches.
 */
module SyncLedger {
  import opened Wrappers
  import opened DocumentStore
  import opened SyncProtocol
  import opened SyncExact

  // ---------------------------------------------------------------- one row

  /** The event is a commit that writes the row of the attempt in flight. */
  predicate Writes(event: Event) {
    event.Turn? || event.TurnLanded? || event.Complete? || event.CompleteLanded? || event.Record?
  }

  /** Transition `i` writes row `j`, or adds it. */
  predicate WritesRow(run: Run, i: nat, j: nat)
    requires i < |run.rest|
  {
    var s := run.Before(i);
    if run.rest[i].0.Start? then |s.db.jobs| == j
    else Writes(run.rest[i].0) && s.attempt.Some? && s.attempt.value.job == j
  }

  /** The counters that come with it. */
  function WrittenCounts(run: Run, i: nat): Counts
    requires i < |run.rest|
  {
    if run.rest[i].0.Start? || run.Before(i).attempt.None? then NO_COUNTS else run.Before(i).attempt.value.counts
  }

  /** The status of row `j`, which transition `w` was the last to write: as written, closed by
      a later attempt if it was left running, and dead-lettered if it was failed. */
  predicate StatusFits(run: Run, w: nat, j: nat)
    requires w < |run.rest| && j < |run.Last().db.jobs|
  {
    var status := run.Last().db.jobs[j].status;
    match run.rest[w].0
    case Complete(_) => status == Succeeded
    case CompleteLanded(_) => status == Succeeded
    case Record => status == if DeadLettered(run, w, j) then JobStatus.DeadLettered else Failed
    case _ => status == if DeadLettered(run, w, j) then JobStatus.DeadLettered
                        else if j == |run.Last().db.jobs| - 1 then Running else Failed
  }

  predicate DeadLettered(run: Run, w: nat, j: nat) {
    exists d :: w < d < |run.rest| && run.rest[d].0 == DeadLetter(j)
  }

  /** Row `j` after a step. */
  lemma StepRow(f: Remote, limits: Limits, s: State, event: Event, s': State, j: nat)
    requires Books(f, limits, s) && Next(f, limits, s, event, s') && j < |s.db.jobs|
    ensures |s'.db.jobs| == (if event.Start? then |s.db.jobs| + 1 else |s.db.jobs|)
    ensures var row, row' := s.db.jobs[j], s'.db.jobs[j];
            if Writes(event) && s.attempt.Some? && s.attempt.value.job == j then
              && row'.counts == s.attempt.value.counts
              && row'.status == (if event.Record? then Failed
                                 else if event.Turn? || event.TurnLanded? then Running else Succeeded)
            else
              && row'.counts == row.counts
              && row'.status == (if event.Start? && row.status == Running then Failed
                                 else if event == DeadLetter(j) then JobStatus.DeadLettered else row.status)
    ensures event == DeadLetter(j) ==> s.db.jobs[j].status == Failed
  {
    hide Process, ValidPage, CountersOk, RowsOk;
  }

  lemma StartRow(f: Remote, limits: Limits, s: State, event: Event, s': State)
    requires Next(f, limits, s, event, s') && event.Start?
    ensures s.attempt.None? && |s'.db.jobs| == |s.db.jobs| + 1
    ensures s'.db.jobs[|s.db.jobs|] == Job(Running, NO_COUNTS)
  {
  }

  lemma SamePart(run: Run, n: nat, i: nat)
    requires i < n <= |run.rest|
    ensures run.Upto(n).rest[i] == run.rest[i] && run.Upto(n).Before(i) == run.Before(i)
  {
    assert i > 0 ==> run.Upto(n).rest[i - 1] == run.rest[i - 1];
  }

  /** Transition `w` is the last that writes row `j`. */
  ghost predicate LastWrite(run: Run, w: nat, j: nat) {
    && w < |run.rest| && WritesRow(run, w, j)
    && forall i :: w < i < |run.rest| ==> !WritesRow(run, i, j)
  }

  lemma LastWriteStays(run: Run, w: nat, j: nat)
    requires run.rest != [] && LastWrite(run.Upto(|run.rest| - 1), w, j) && !WritesRow(run, |run.rest| - 1, j)
    ensures LastWrite(run, w, j) && run.Upto(|run.rest| - 1).rest[w] == run.rest[w]
    ensures WrittenCounts(run, w) == WrittenCounts(run.Upto(|run.rest| - 1), w)
  {
    hide WritesRow;
    var n := |run.rest| - 1;
    forall i | 0 <= i < n ensures WritesRow(run.Upto(n), i, j) == WritesRow(run, i, j) {
      SameWrites(run, n, i, j);
    }
    SamePart(run, n, w);
  }

  lemma SameWrites(run: Run, n: nat, i: nat, j: nat)
    requires i < n <= |run.rest|
    ensures WritesRow(run.Upto(n), i, j) == WritesRow(run, i, j)
  {
    SamePart(run, n, i);
  }

  lemma DeadLetteredStep(run: Run, w: nat, j: nat)
    requires w < |run.rest| - 1
    ensures DeadLettered(run, w, j) <==>
            DeadLettered(run.Upto(|run.rest| - 1), w, j) || run.rest[|run.rest| - 1].0 == DeadLetter(j)
  {
    var n := |run.rest| - 1;
    assert forall d :: 0 <= d < n ==> run.Upto(n).rest[d] == run.rest[d];
  }

  /** Every row that was added in a run was last written by some transition, and says just
      what that one committed: its counters, and its status as later attempts and
      dead-lettering leave it. */
  lemma {:induction false} RowTellsLastWrite(f: Remote, limits: Limits, run: Run, j: nat) returns (w: nat)
    requires Initial(run.first) && run.Of(f, limits) && |run.first.db.jobs| <= j < |run.Last().db.jobs|
    ensures LastWrite(run, w, j) && StatusFits(run, w, j)
    ensures run.Last().db.jobs[j].counts == WrittenCounts(run, w)
    decreases |run.rest|
  {
    hide Next, Run.Of, Books, Initial, LastWrite, DeadLettered;
    var n := |run.rest| - 1;
    run.UptoIsRun(f, limits, n);
    RunKeepsBooks(f, limits, run.Upto(n));
    var s, event, s' := run.Before(n), run.rest[n].0, run.rest[n].1;
    if event.Start? {
      StartRow(f, limits, s, event, s');
    }
    if WritesRow(run, n, j) {
      w := n;
      WrittenNow(run, j);
      if !event.Start? {
        InFlight(f, limits, s);
        StepRow(f, limits, s, event, s', j);
      }
    } else {
      if j < |s.db.jobs| {
        StepRow(f, limits, s, event, s', j);
      } else {
        NoOtherRow(f, limits, s, event, s');
      }
      w := RowTellsLastWrite(f, limits, run.Upto(n), j);
      LastWriteStays(run, w, j);
      WriteIsEarlier(run, w, j);
      DeadLetteredStep(run, w, j);
      RowStays(f, limits, run, w, j);
    }
  }

  lemma WriteIsEarlier(run: Run, w: nat, j: nat)
    requires run.rest != [] && LastWrite(run.Upto(|run.rest| - 1), w, j)
    ensures w < |run.rest| - 1
  {
  }

  lemma WrittenNow(run: Run, j: nat)
    requires run.rest != [] && WritesRow(run, |run.rest| - 1, j)
    ensures LastWrite(run, |run.rest| - 1, j) && !DeadLettered(run, |run.rest| - 1, j)
  {
  }

  lemma InFlight(f: Remote, limits: Limits, s: State)
    requires Books(f, limits, s)
    ensures s.attempt.Some? ==> s.attempt.value.job == |s.db.jobs| - 1
  {
  }

  lemma NoOtherRow(f: Remote, limits: Limits, s: State, event: Event, s': State)
    requires Next(f, limits, s, event, s')
    ensures |s'.db.jobs| == (if event.Start? then |s.db.jobs| + 1 else |s.db.jobs|)
  {
    hide Process, ValidPage;
  }

  /** A step that does not write the row. */
  lemma RowStays(f: Remote, limits: Limits, run: Run, w: nat, j: nat)
    requires run.rest != [] && w < |run.rest| - 1
    requires var n := |run.rest| - 1;
             && Books(f, limits, run.Before(n)) && Next(f, limits, run.Before(n), run.rest[n].0, run.rest[n].1)
             && !WritesRow(run, n, j) && j < |run.Before(n).db.jobs| && StatusFits(run.Upto(n), w, j)
             && run.Upto(n).rest[w] == run.rest[w]
             && (DeadLettered(run, w, j) <==> DeadLettered(run.Upto(n), w, j) || run.rest[n].0 == DeadLetter(j))
    ensures j < |run.Last().db.jobs| && StatusFits(run, w, j)
    ensures run.Last().db.jobs[j].counts == run.Before(|run.rest| - 1).db.jobs[j].counts
  {
    hide Next, Books, DeadLettered;
    var n := |run.rest| - 1;
    StepRow(f, limits, run.Before(n), run.rest[n].0, run.rest[n].1, j);
  }

  /** Rows of earlier syncs keep their counters, and are at most closed and dead-lettered. */
  lemma {:induction false} OlderRowsStay(f: Remote, limits: Limits, run: Run, j: nat)
    requires Initial(run.first) && run.Of(f, limits) && j < |run.first.db.jobs|
    ensures j < |run.Last().db.jobs| && run.Last().db.jobs[j].counts == run.first.db.jobs[j].counts
    ensures run.first.db.jobs[j].status == Succeeded ==> run.Last().db.jobs[j].status == Succeeded
    ensures run.Last().db.jobs[j].status in {run.first.db.jobs[j].status, Failed, JobStatus.DeadLettered}
    ensures |run.Last().db.jobs| >= |run.first.db.jobs|
    ensures run.Last().attempt.Some? ==> run.Last().attempt.value.job >= |run.first.db.jobs|
    decreases |run.rest|
  {
    hide Next, Run.Of, Books, Initial;
    if run.rest == [] {
      NoAttempt(run.first);
    } else {
      var n := |run.rest| - 1;
      run.UptoIsRun(f, limits, n);
      RunKeepsBooks(f, limits, run.Upto(n));
      OlderRowsStay(f, limits, run.Upto(n), j);
      StepRow(f, limits, run.Before(n), run.rest[n].0, run.rest[n].1, j);
      InFlight(f, limits, run.Before(n));
      if run.rest[n].1.attempt.Some? {
        AttemptStays(f, limits, run.Before(n), run.rest[n].0, run.rest[n].1);
      }
    }
  }

  lemma NoAttempt(s: State)
    requires Initial(s)
    ensures s.attempt.None?
  {
  }

  lemma AttemptStays(f: Remote, limits: Limits, s: State, event: Event, s': State)
    requires Next(f, limits, s, event, s') && s'.attempt.Some?
    ensures if event.Start? then s'.attempt.value.job == |s.db.jobs|
            else s.attempt.Some? && s'.attempt.value.job == s.attempt.value.job
  {
    hide Process, ValidPage;
  }

  // ---------------------------------------------------------------- what an attempt fetches

  /** Transition `i` fetches the page at `cursor` for job `j`. */
  predicate Fetches(run: Run, i: nat, j: nat, cursor: Option<string>)
    requires i < |run.rest|
  {
    && run.rest[i].0.Fetch? && run.Before(i).attempt.Some?
    && run.Before(i).attempt.value.job == j && run.Before(i).attempt.value.cursor == cursor
  }

  /** The cursor is behind the attempt: it is neither the one to fetch next nor the next one
      of the page at hand. */
  predicate Behind(f: Remote, a: Attempt, cursor: Option<string>) {
    && (cursor.Some? ==> cursor.value in a.seen)
    && (a.phase.Fetching? ==> a.cursor != cursor)
    && (a.phase.Working? && f(a.cursor).hasMore ==> f(a.cursor).nextCursor != cursor)
  }

  lemma StepKeepsBehind(f: Remote, limits: Limits, s: State, event: Event, s': State, cursor: Option<string>)
    requires Books(f, limits, s) && Next(f, limits, s, event, s') && !event.Start?
    requires s.attempt.Some? && s'.attempt.Some?
    requires Behind(f, s.attempt.value, cursor) || (event.Fetch? && s.attempt.value.cursor == cursor)
    ensures Behind(f, s'.attempt.value, cursor)
  {
    hide Process, RowsOk;
  }

  /** All that has been fetched for a job belongs to an earlier attempt or is behind. */
  lemma {:induction false} FetchedIsBehind(f: Remote, limits: Limits, run: Run, i: nat, j: nat, cursor: Option<string>)
    requires Initial(run.first) && run.Of(f, limits) && i < |run.rest| && Fetches(run, i, j, cursor)
    ensures j < |run.Last().db.jobs|
    ensures var a := run.Last().attempt; a.Some? && a.value.job == j ==> Behind(f, a.value, cursor)
    decreases |run.rest|
  {
    hide Next, Run.Of, Books, Initial, Behind;
    var n := |run.rest| - 1;
    run.UptoIsRun(f, limits, n);
    RunKeepsBooks(f, limits, run.Upto(n));
    var s, event, s' := run.Before(n), run.rest[n].0, run.rest[n].1;
    InFlight(f, limits, s);
    NoOtherRow(f, limits, s, event, s');
    if i < n {
      SamePart(run, n, i);
      FetchedIsBehind(f, limits, run.Upto(n), i, j, cursor);
    }
    if s'.attempt.Some? && s'.attempt.value.job == j {
      AttemptStays(f, limits, s, event, s');
      if !event.Start? {
        StepKeepsBehind(f, limits, s, event, s', cursor);
      }
    }
  }

  /** No attempt fetches a page twice, whatever the remote answers: it fails before. */
  lemma NoPageTwice(f: Remote, limits: Limits, run: Run, i: nat, l: nat, j: nat, cursor: Option<string>)
    requires Initial(run.first) && run.Of(f, limits) && i < l < |run.rest|
    requires Fetches(run, i, j, cursor)
    ensures !Fetches(run, l, j, cursor)
  {
    hide Run.Of, Initial;
    run.UptoIsRun(f, limits, l);
    SamePart(run, l, i);
    FetchedIsBehind(f, limits, run.Upto(l), i, j, cursor);
  }

  /** How many pages were fetched for job `j`, and how many items they held. */
  function Pages(f: Remote, run: Run, j: nat): (r: (nat, nat))
    decreases |run.rest|
  {
    if run.rest == [] then (0, 0)
    else
      var n := |run.rest| - 1;
      var (pages, items) := Pages(f, run.Upto(n), j);
      var s := run.Before(n);
      if run.rest[n].0.Fetch? && s.attempt.Some? && s.attempt.value.job == j
      then (pages + 1, items + |f(s.attempt.value.cursor).items|)
      else (pages, items)
  }

  lemma StepCountsPages(f: Remote, limits: Limits, s: State, event: Event, s': State)
    requires Next(f, limits, s, event, s') && s'.attempt.Some?
    ensures var c := s'.attempt.value.counts;
            if event.Start? then c.pages == 0 && c.discovered == 0
            else
              && s.attempt.Some?
              && var a := s.attempt.value;
                 if event.Fetch? then
                   c.pages == a.counts.pages + 1 && c.discovered == a.counts.discovered + |f(a.cursor).items|
                 else c.pages == a.counts.pages && c.discovered == a.counts.discovered
  {
    hide Process, ValidPage;
  }

  /** The pages and items that an attempt has counted are those that were fetched for its
      job, the page on which it failed included; and nothing is fetched for a job before its
      row is there. */
  lemma {:induction false} PagesAreCounted(f: Remote, limits: Limits, run: Run, j: nat)
    requires Initial(run.first) && run.Of(f, limits)
    ensures j >= |run.Last().db.jobs| ==> Pages(f, run, j) == (0, 0)
    ensures var a := run.Last().attempt;
            a.Some? && a.value.job == j ==> Pages(f, run, j) == (a.value.counts.pages, a.value.counts.discovered)
    decreases |run.rest|
  {
    hide Next, Run.Of, Books, Initial;
    if run.rest == [] {
      NoAttempt(run.first);
    } else {
      var n := |run.rest| - 1;
      run.UptoIsRun(f, limits, n);
      RunKeepsBooks(f, limits, run.Upto(n));
      PagesAreCounted(f, limits, run.Upto(n), j);
      var s, event, s' := run.Before(n), run.rest[n].0, run.rest[n].1;
      InFlight(f, limits, s);
      NoOtherRow(f, limits, s, event, s');
      if s'.attempt.Some? {
        AttemptStays(f, limits, s, event, s');
        StepCountsPages(f, limits, s, event, s');
      }
    }
  }
}
