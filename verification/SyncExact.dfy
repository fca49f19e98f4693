/**
Exact replay: every run, over any walk, leaves the whole store (versions and chunks) equal
to that of a single pass over a prefix of the walk. And the bookkeeping of job rows.
 */
module SyncExact {
  import opened Wrappers
  import opened DocumentStore
  import opened Replay
  import opened SyncProtocol
  import opened Traversal
  import opened SyncSafety

  /** No id changes its content within the walk; in particular when ids are distinct. */
  ghost predicate OneHashWalk(f: Remote) {
    forall p :: IsPrefix(f, p) ==> OneHashPerId(p)
  }

  /** The store is that of one pass over `high`, and nobody stands beyond `high`. */
  ghost predicate HighWater(f: Remote, limits: Limits, s0: Store, s: State, high: seq<Item>) {
    && IsPrefix(f, high)
    && ProcessAll(limits, s0, high) == Some(s.db.store)
    && (s.db.checkpoint.Some? ==> exists p :: PageStart(f, s.db.checkpoint, p) && p <= high)
    && (s.attempt.Some? && !s.attempt.value.phase.Failing? ==>
          exists before, p :: StandsAt(f, s.attempt.value, before, p) && p <= high)
  }

  ghost predicate Exact(f: Remote, limits: Limits, s0: Store, s: State) {
    exists high :: HighWater(f, limits, s0, s, high)
  }

  /** An item the single pass has already been over adds nothing: its content is stored, so
      it is what its id shows or is refused. It is unchanged exactly if no later item of the
      pass gave its id other content. */
  lemma PassedItem(limits: Limits, s0: Store, s: Store, high: seq<Item>, i: nat)
    requires WellFormed(s0) && ProcessAll(limits, s0, high) == Some(s) && i < |high|
    ensures !Process(limits, s, high[i]).Inserted?
    ensures Process(limits, s, high[i]).Unchanged? <==>
              LastHash(high, high[i].externalId) == Some(high[i].contentHash)
  {
    PassCompletesIff(limits, s0, high);
    assert Acceptable(limits, s0, high, i);
    PassResult(limits, s0, high, high[i].externalId, high[i].contentHash);
    assert Carries(high, high[i].externalId, high[i].contentHash);
    LastHashIsCarried(high, high[i].externalId);
  }

  /** Reaching a new high point. */
  lemma Rise(f: Remote, limits: Limits, s0: Store, s: State, s': State, high: seq<Item>, high': seq<Item>)
    requires HighWater(f, limits, s0, s, high) && s'.db.checkpoint == s.db.checkpoint
    requires IsPrefix(f, high') && high <= high' && ProcessAll(limits, s0, high') == Some(s'.db.store)
    requires s'.attempt.Some? && exists before, p :: StandsAt(f, s'.attempt.value, before, p) && p <= high'
    ensures HighWater(f, limits, s0, s', high')
  {
    if s.db.checkpoint.Some? {
      var c :| PageStart(f, s.db.checkpoint, c) && c <= high;
      assert c <= high';
    }
  }

  /** Where the attempt stands after the current item. */
  lemma StandsAfterItem(f: Remote, limits: Limits, s: State, event: Event, s': State, before: seq<Item>, p: seq<Item>)
    requires s.attempt.Some? && StandsAt(f, s.attempt.value, before, p) && Next(f, limits, s, event, s')
    requires event.ItemSkip? || event.ItemCommit? || event.ItemLanded?
    ensures var a := s.attempt.value;
            var q := p + [f(a.cursor).items[a.phase.done]];
            && s'.attempt.Some? && IsPrefix(f, q)
            && StandsAt(f, s'.attempt.value, before, if event.ItemLanded? then p else q)
  {
    ItemPoint(f, s.attempt.value, before, p);
  }

  lemma ItemStepKeepsExact(f: Remote, limits: Limits, s0: Store, s: State, event: Event, s': State, high: seq<Item>)
    requires WellFormed(s0)
    requires HighWater(f, limits, s0, s, high) && Next(f, limits, s, event, s')
    requires event.ItemSkip? || event.ItemCommit? || event.ItemLanded?
    ensures Exact(f, limits, s0, s')
  {
    hide ProcessAll, WellFormed, StandsAt, IsPrefix, PageStart;
    var a := s.attempt.value;
    var x := f(a.cursor).items[a.phase.done];
    var before, p :| StandsAt(f, a, before, p) && p <= high;
    var q := p + [x];
    PassSnoc(limits, s0, p, x);
    StandsAfterItem(f, limits, s, event, s', before, p);
    Linear(f, q, high);
    BehindOrAtTop(p, x, high);
    if q <= high {
      PassedItem(limits, s0, s.db.store, high, |p|);
      Rise(f, limits, s0, s, s', high, high);
    } else {
      Rise(f, limits, s0, s, s', high, q);
    }
  }

  lemma PassSnoc(limits: Limits, s0: Store, p: seq<Item>, x: Item)
    ensures ProcessAll(limits, s0, p + [x]) ==
            match ProcessAll(limits, s0, p) case None => None case Some(s) => After(s, Process(limits, s, x))
  {
    hide Process;
    assert (p + [x])[..|p|] == p;
  }

  lemma BehindOrAtTop(p: seq<Item>, x: Item, high: seq<Item>)
    requires p <= high && (p + [x] <= high || high <= p + [x])
    ensures if p + [x] <= high then |p| < |high| && high[|p|] == x else high == p
    ensures (p + [x])[..|p + [x]| - 1] == p
  {
    var q := p + [x];
    assert q[|p|] == x;
    if high <= q && |high| == |q| {
      assert high == q;
    }
  }

  lemma Squeeze(p: seq<Item>, q: seq<Item>)
    requires p <= q && q <= p
    ensures p == q
  {
  }

  lemma NextKeepsExact(f: Remote, limits: Limits, s0: Store, s: State, event: Event, s': State)
    requires WellFormed(s0)
    requires Exact(f, limits, s0, s) && Next(f, limits, s, event, s')
    ensures Exact(f, limits, s0, s')
  {
    hide ProcessAll, Process, WellFormed, IsPrefix, PageStart;
    var high :| HighWater(f, limits, s0, s, high);
    match event
    case ItemSkip => ItemStepKeepsExact(f, limits, s0, s, event, s', high);
    case ItemCommit => ItemStepKeepsExact(f, limits, s0, s, event, s', high);
    case ItemLanded => ItemStepKeepsExact(f, limits, s0, s, event, s', high);
    case Start(resume) =>
      var a := s'.attempt.value;
      if resume && s.db.checkpoint.Some? {
        var p :| PageStart(f, s.db.checkpoint, p) && p <= high;
        assert StandsAt(f, a, p, p);
      } else {
        FirstPage(f);
        assert StandsAt(f, a, [], []);
        assert [] <= high;
      }
      assert HighWater(f, limits, s0, s', high);
    case Fetch =>
      var a := s.attempt.value;
      var before, p :| StandsAt(f, a, before, p) && p <= high;
      if s'.attempt.value.phase.Working? {
        assert p == before + f(a.cursor).items[..0];
        assert StandsAt(f, s'.attempt.value, before, p);
      }
      assert HighWater(f, limits, s0, s', high);
    case Refresh =>
      var a := s.attempt.value;
      if !a.phase.Failing? {
        var before, p :| StandsAt(f, a, before, p) && p <= high;
        assert StandsAt(f, s'.attempt.value, before, p);
      }
      assert HighWater(f, limits, s0, s', high);
    case Turn => TurnKeepsExact(f, limits, s0, s, event, s', high);
    case TurnLanded => TurnKeepsExact(f, limits, s0, s, event, s', high);
    case _ =>
      assert HighWater(f, limits, s0, s', high);
  }

  lemma TurnKeepsExact(f: Remote, limits: Limits, s0: Store, s: State, event: Event, s': State, high: seq<Item>)
    requires HighWater(f, limits, s0, s, high) && Next(f, limits, s, event, s')
    requires event.Turn? || event.TurnLanded?
    ensures Exact(f, limits, s0, s')
  {
    hide ProcessAll, Process, IsPrefix, PageStart;
    var a := s.attempt.value;
    var items := f(a.cursor).items;
    var before, p :| StandsAt(f, a, before, p) && p <= high;
    assert items[..|items|] == items;
    NextPage(f, a.cursor, before);
    assert PageStart(f, f(a.cursor).nextCursor, p);
    if event.Turn? {
      assert StandsAt(f, s'.attempt.value, p, p);
    }
    assert HighWater(f, limits, s0, s', high);
  }

  lemma {:induction false} RunKeepsExact(f: Remote, limits: Limits, run: Run)
    requires Initial(run.first) && run.Of(f, limits)
    ensures Exact(f, limits, run.first.db.store, run.Last())
    decreases |run.rest|
  {
    if run.rest == [] {
      FirstPage(f);
      assert HighWater(f, limits, run.first.db.store, run.first, []);
    } else {
      var n := |run.rest| - 1;
      run.UptoIsRun(f, limits, n);
      RunKeepsExact(f, limits, run.Upto(n));
      NextKeepsExact(f, limits, run.first.db.store, run.Before(n), run.rest[n].0, run.rest[n].1);
    }
  }

  /** Crash-tolerant refinement: when an attempt commits success, whatever run led there,
      one uninterrupted pass over the walk completes too, and the store is exactly the one
      it leaves: same rows, same versions, same chunks. */
  lemma SuccessIsOnePass(f: Remote, limits: Limits, run: Run, event: Event, s': State) returns (all: seq<Item>)
    requires Initial(run.first) && run.Of(f, limits)
    requires Next(f, limits, run.Last(), event, s') && (event.Complete? || event.CompleteLanded?)
    ensures IsWhole(f, all) && ProcessAll(limits, run.first.db.store, all) == Some(s'.db.store)
  {
    RunKeepsExact(f, limits, run);
    CompletionStep(f, limits, run.Last(), event, s');
    all := TopIsWhole(f, limits, run.first.db.store, run.Last());
  }

  /** What a reader then sees: for every id the last content the walk gave it, or what it
      showed before if the walk did not give it any. */
  lemma SuccessMatchesOnePass(f: Remote, limits: Limits, run: Run, event: Event, s': State) returns (all: seq<Item>)
    requires Initial(run.first) && run.Of(f, limits)
    requires Next(f, limits, run.Last(), event, s') && (event.Complete? || event.CompleteLanded?)
    ensures IsWhole(f, all) && ProcessAll(limits, run.first.db.store, all).Some?
    ensures forall id :: && LatestHash(s'.db.store, id) == Expected(run.first.db.store, all, id)
                         && LatestHash(s'.db.store, id) ==
                            LatestHash(ProcessAll(limits, run.first.db.store, all).value, id)
  {
    all := SuccessIsOnePass(f, limits, run, event, s');
    forall id ensures LatestHash(s'.db.store, id) == Expected(run.first.db.store, all, id) {
      PassResult(limits, run.first.db.store, all, id, "");
    }
  }

  /** If one pass over the walk does not complete, no run of any length ever commits
      success: content that an id had in an earlier sync is refused for good. */
  lemma RefusedWalkNeverSucceeds(f: Remote, limits: Limits, run: Run, all: seq<Item>)
    requires Initial(run.first) && run.Of(f, limits) && IsWhole(f, all)
    requires ProcessAll(limits, run.first.db.store, all).None?
    ensures NeverCompletes(run)
  {
    hide ProcessAll, IsWhole, Next, Initial;
    forall i | 0 <= i < |run.rest| ensures !run.rest[i].0.Complete? && !run.rest[i].0.CompleteLanded? {
      var event := run.rest[i].0;
      run.UptoIsRun(f, limits, i);
      if event.Complete? || event.CompleteLanded? {
        var whole := SuccessIsOnePass(f, limits, run.Upto(i), event, run.rest[i].1);
        WholeIsUnique(f, all, whole);
      }
    }
  }

  lemma WholeIsUnique(f: Remote, x: seq<Item>, y: seq<Item>)
    requires IsWhole(f, x) && IsWhole(f, y)
    ensures x == y
  {
    FirstPage(f);
    NothingAfterWhole(f, x, []);
    NothingAfterWhole(f, y, []);
    NothingAfterWhole(f, x, y);
    NothingAfterWhole(f, y, x);
    Squeeze(x, y);
  }

  lemma TopIsWhole(f: Remote, limits: Limits, s0: Store, s: State) returns (all: seq<Item>)
    requires Exact(f, limits, s0, s) && s.attempt.Some? && PageDone(f, s.attempt.value)
    requires !f(s.attempt.value.cursor).hasMore
    ensures IsWhole(f, all) && ProcessAll(limits, s0, all) == Some(s.db.store)
  {
    var a := s.attempt.value;
    var high :| HighWater(f, limits, s0, s, high);
    var before, p :| StandsAt(f, a, before, p) && p <= high;
    assert f(a.cursor).items[..|f(a.cursor).items|] == f(a.cursor).items;
    all := p;
    assert IsWhole(f, all);
    NothingAfterWhole(f, all, high);
    Squeeze(all, high);
  }

  // ---------------------------------------------------------------- job rows

  /** The counters of an attempt in flight. The versions it has committed are those it
      counts as processed and those whose commit landed but was reported lost, and likewise
      the chunks; at most `maxPages + 1` pages are ever fetched. Items are only ever processed
      of a page within the size cap whose next cursor, if it has more, is there and new. What
      the session has read of the connector is still so, unless another session has
      disconnected it. */
  ghost predicate CountersOk(f: Remote, limits: Limits, db: Durable, a: Attempt) {
    && (a.cached == db.connector || db.connector == Disconnected)
    && a.job == |db.jobs| - 1
    && (a.cursor.Some? ==> a.cursor.value in a.seen)
    && a.baseline.documents + a.counts.processed + a.landed.documents == |db.store.documents|
    && a.baseline.chunks + a.counts.chunks + a.landed.chunks == |db.store.chunks|
    && a.counts.pages <= limits.maxPages + 1
    && NotOvercounted(a.counts)
    && (a.phase.Fetching? ==> Balanced(a.counts) && a.counts.pages <= limits.maxPages)
    && (a.phase.Working? ==>
          && a.phase.done <= |f(a.cursor).items| <= limits.maxItems
          && (f(a.cursor).hasMore ==>
                var next := f(a.cursor).nextCursor;
                next.Some? && next.value != "" && next.value !in a.seen)
          && a.counts.discovered == a.counts.processed + a.counts.skipped + |f(a.cursor).items| - a.phase.done
          && a.counts.pages <= limits.maxPages)
  }

  ghost predicate Books(f: Remote, limits: Limits, s: State) {
    RowsOk(s.db.jobs) && (s.attempt.Some? ==> CountersOk(f, limits, s.db, s.attempt.value))
  }

  lemma NextKeepsBooks(f: Remote, limits: Limits, s: State, event: Event, s': State)
    requires Books(f, limits, s) && Next(f, limits, s, event, s')
    ensures Books(f, limits, s')
  {
    hide CountersOk, RowsOk, Next, Process;
    NextKeepsRows(f, limits, s, event, s');
    if s'.attempt.Some? {
      NextKeepsCounters(f, limits, s, event, s');
    }
  }

  lemma NextKeepsRows(f: Remote, limits: Limits, s: State, event: Event, s': State)
    requires Books(f, limits, s) && Next(f, limits, s, event, s')
    ensures RowsOk(s'.db.jobs)
  {
    hide Process, ValidPage;
  }

  lemma NextKeepsCounters(f: Remote, limits: Limits, s: State, event: Event, s': State)
    requires Books(f, limits, s) && Next(f, limits, s, event, s') && s'.attempt.Some?
    ensures CountersOk(f, limits, s'.db, s'.attempt.value)
  {
    hide Process, RowsOk;
    if s.attempt.Some? && HasItem(f, s.attempt.value) {
      OneMore(limits, s.db.store, f(s.attempt.value.cursor).items[s.attempt.value.phase.done]);
    }
  }

  lemma OneMore(limits: Limits, s: Store, x: Item)
    ensures Process(limits, s, x).Inserted? ==>
              var t := Process(limits, s, x).store;
              |t.documents| == |s.documents| + 1 && |t.chunks| == |s.chunks| + |x.chunks|
  {
  }

  /** In every reachable committed state at most one row is running, none is queued, the
      item counts of running and succeeded rows add up, and no row counts more items
      handled than discovered; every attempt ends within one page of its cap. */
  lemma {:induction false} RunKeepsBooks(f: Remote, limits: Limits, run: Run)
    requires Initial(run.first) && run.Of(f, limits)
    ensures Books(f, limits, run.Last())
    decreases |run.rest|
  {
    if run.rest != [] {
      var n := |run.rest| - 1;
      run.UptoIsRun(f, limits, n);
      RunKeepsBooks(f, limits, run.Upto(n));
      NextKeepsBooks(f, limits, run.Before(n), run.rest[n].0, run.rest[n].1);
    }
  }

  /** Where a run leaves no attempt in flight and no checkpoint, in particular where a sync
      has completed, the next sync can start. */
  lemma IdleIsInitial(f: Remote, limits: Limits, run: Run)
    requires Initial(run.first) && run.Of(f, limits)
    requires run.Last().attempt.None? && run.Last().db.checkpoint.None?
    ensures Initial(run.Last())
  {
    hide Run.Of, WellFormed, RowsOk, Progress;
    RunKeepsInv(f, limits, run);
    RunKeepsBooks(f, limits, run);
  }
}
