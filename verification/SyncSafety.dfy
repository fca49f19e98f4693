/**
What every run of the sync keeps, whatever crashes, cancellations, failed fetches,
failed items, lost records and restarts it contains; checkpoints may be accepted or
ignored at the start of any attempt.
 */
module SyncSafety {
  import opened Wrappers
  import opened DocumentStore
  import opened Replay
  import opened SyncProtocol
  import opened Traversal

  // ---------------------------------------------------------------- positions in the walk

  ghost predicate AllStored(s: Store, items: seq<Item>) {
    forall i :: 0 <= i < |items| ==> Stored(s, items[i].externalId, items[i].contentHash)
  }

  /** The walk presents `id` again at or after point `p`. */
  ghost predicate OccursAfter(f: Remote, p: seq<Item>, id: string) {
    exists q: seq<Item>, i: nat :: IsPrefix(f, q) && p <= q && |p| <= i < |q| && q[i].externalId == id
  }

  /** Everything presented before point `p` is stored, and every id that will not be
      presented again already shows its final content. `s0` is the store the sync
      started from. */
  ghost predicate Progress(f: Remote, s0: Store, s: Store, p: seq<Item>) {
    && IsPrefix(f, p)
    && AllStored(s, p)
    && forall id :: !OccursAfter(f, p, id) ==> LatestHash(s, id) == Expected(s0, p, id)
  }

  /** The attempt stands at point `p` of the walk. */
  ghost predicate StandsAt(f: Remote, a: Attempt, before: seq<Item>, p: seq<Item>) {
    && PageStart(f, a.cursor, before)
    && match a.phase
       case Fetching => p == before
       case Working(done) => done <= |f(a.cursor).items| && p == before + f(a.cursor).items[..done]
       case Failing => false
  }

  ghost predicate CheckpointOk(f: Remote, s0: Store, s: Store, c: Option<string>) {
    c.Some? ==> exists p :: PageStart(f, c, p) && Progress(f, s0, s, p)
  }

  ghost predicate AttemptOk(f: Remote, s0: Store, s: Store, a: Attempt) {
    !a.phase.Failing? ==> exists before, p :: StandsAt(f, a, before, p) && Progress(f, s0, s, p)
  }

  ghost predicate Inv(f: Remote, s0: Store, s: State) {
    && WellFormed(s.db.store)
    && Progress(f, s0, s.db.store, [])
    && CheckpointOk(f, s0, s.db.store, s.db.checkpoint)
    && (s.attempt.Some? ==> AttemptOk(f, s0, s.db.store, s.attempt.value))
  }

  // ---------------------------------------------------------------- one item

  lemma Advance(f: Remote, limits: Limits, s0: Store, s: Store, p: seq<Item>, x: Item)
    requires WellFormed(s) && Progress(f, s0, s, p) && IsPrefix(f, p + [x])
    requires After(s, Process(limits, s, x)).Some?
    ensures Progress(f, s0, After(s, Process(limits, s, x)).value, p + [x])
  {
    hide WellFormed, Process, IsPrefix, AllStored, OccursAfter;
    var t := After(s, Process(limits, s, x)).value;
    AdvanceStored(limits, s, p, x);
    forall id | !OccursAfter(f, p + [x], id) ensures LatestHash(t, id) == Expected(s0, p + [x], id) {
      AdvanceLatest(f, limits, s0, s, p, x, id);
    }
  }

  lemma AdvanceStored(limits: Limits, s: Store, p: seq<Item>, x: Item)
    requires WellFormed(s) && AllStored(s, p) && After(s, Process(limits, s, x)).Some?
    ensures AllStored(After(s, Process(limits, s, x)).value, p + [x])
  {
    var e := Process(limits, s, x);
    var t := After(s, e).value;
    var px := p + [x];
    forall i | 0 <= i < |px| ensures Stored(t, px[i].externalId, px[i].contentHash) {
      if e.Inserted? {
        AddKeepsStored(s, x, t.documents[|s.documents|].version, px[i].externalId, px[i].contentHash);
      } else if i == |p| {
        LatestIsStored(s, x.externalId);
      }
    }
  }

  lemma AdvanceLatest(f: Remote, limits: Limits, s0: Store, s: Store, p: seq<Item>, x: Item, id: string)
    requires WellFormed(s) && Progress(f, s0, s, p) && IsPrefix(f, p + [x])
    requires After(s, Process(limits, s, x)).Some? && !OccursAfter(f, p + [x], id)
    ensures LatestHash(After(s, Process(limits, s, x)).value, id) == Expected(s0, p + [x], id)
  {
    hide IsPrefix, AllStored;
    var px := p + [x];
    assert px[..|p|] == p;
    if Process(limits, s, x).Inserted? { ProcessAppends(limits, s, x, id); }
    if id != x.externalId && OccursAfter(f, p, id) {
      var q: seq<Item>, i: nat :| IsPrefix(f, q) && p <= q && |p| <= i < |q| && q[i].externalId == id;
      Linear(f, q, px);
    }
  }

  /** If the item after point `p` is not presented again from `other` on, then `other`
      is past it. */
  lemma AlreadyPassed(f: Remote, other: seq<Item>, p: seq<Item>, x: Item)
    requires IsPrefix(f, other) && IsPrefix(f, p + [x]) && !OccursAfter(f, other, x.externalId)
    ensures |p| < |other| && other[|p|] == x
  {
    Linear(f, other, p + [x]);
    assert (p + [x])[|p|] == x;
  }

  /** A version added while standing at any point of the walk disturbs no other point:
      an id that is not presented again from there on has all its content stored
      already, so nothing can be added for it. */
  lemma Undisturbed(f: Remote, limits: Limits, s0: Store, s: Store, other: seq<Item>, p: seq<Item>, x: Item)
    requires WellFormed(s) && Progress(f, s0, s, other) && IsPrefix(f, p + [x])
    requires Process(limits, s, x).Inserted?
    ensures Progress(f, s0, Process(limits, s, x).store, other)
  {
    var t := Process(limits, s, x).store;
    forall id | !OccursAfter(f, other, id) ensures LatestHash(t, id) == Expected(s0, other, id) {
      ProcessAppends(limits, s, x, id);
      if id == x.externalId {
        AlreadyPassed(f, other, p, x);
      }
    }
    forall i | 0 <= i < |other| ensures Stored(t, other[i].externalId, other[i].contentHash) {
      AddKeepsStored(s, x, t.documents[|s.documents|].version, other[i].externalId, other[i].contentHash);
    }
  }

  /** The point after the current item. */
  lemma ItemPoint(f: Remote, a: Attempt, before: seq<Item>, p: seq<Item>)
    requires StandsAt(f, a, before, p) && HasItem(f, a)
    ensures var x := f(a.cursor).items[a.phase.done];
            IsPrefix(f, p + [x]) && p + [x] == before + f(a.cursor).items[..a.phase.done + 1]
  {
    var items := f(a.cursor).items;
    var n := a.phase.done;
    assert items[..n + 1] == items[..n] + [items[n]];
    assert p + [items[n]] == before + items[..n + 1];
    assert Within(f, a.cursor, before, n + 1, p + [items[n]]);
  }

  lemma ItemStepKeepsInv(f: Remote, limits: Limits, s0: Store, s: State, event: Event, s': State)
    requires Inv(f, s0, s) && Next(f, limits, s, event, s')
    requires event.ItemSkip? || event.ItemCommit? || event.ItemLanded?
    ensures Inv(f, s0, s')
  {
    var a := s.attempt.value;
    var x := f(a.cursor).items[a.phase.done];
    var store := s.db.store;
    var before, p :| StandsAt(f, a, before, p) && Progress(f, s0, store, p);
    ItemPoint(f, a, before, p);
    Advance(f, limits, s0, store, p, x);
    if !event.ItemSkip? {
      ProcessKeepsTable(limits, store, x);
      Undisturbed(f, limits, s0, store, [], p, x);
      Undisturbed(f, limits, s0, store, p, p, x);
      if s.db.checkpoint.Some? {
        var c :| PageStart(f, s.db.checkpoint, c) && Progress(f, s0, store, c);
        Undisturbed(f, limits, s0, store, c, p, x);
      }
    }
    var a' := s'.attempt.value;
    if event.ItemLanded? {
      assert StandsAt(f, a', before, p);
    } else {
      assert StandsAt(f, a', before, p + [x]);
    }
  }

  lemma TurnKeepsInv(f: Remote, limits: Limits, s0: Store, s: State, event: Event, s': State)
    requires Inv(f, s0, s) && Next(f, limits, s, event, s')
    requires event.Turn? || event.TurnLanded?
    ensures Inv(f, s0, s')
  {
    var a := s.attempt.value;
    var items := f(a.cursor).items;
    var before, p :| StandsAt(f, a, before, p) && Progress(f, s0, s.db.store, p);
    assert items[..|items|] == items;
    NextPage(f, a.cursor, before);
    assert PageStart(f, f(a.cursor).nextCursor, p);
    assert s'.db.store == s.db.store;
    if event.Turn? {
      assert StandsAt(f, s'.attempt.value, p, p);
    }
  }

  lemma NextKeepsInv(f: Remote, limits: Limits, s0: Store, s: State, event: Event, s': State)
    requires Inv(f, s0, s) && Next(f, limits, s, event, s')
    ensures Inv(f, s0, s')
  {
    hide Progress, WellFormed, PageStart, Process;
    match event
    case ItemSkip => ItemStepKeepsInv(f, limits, s0, s, event, s');
    case ItemCommit => ItemStepKeepsInv(f, limits, s0, s, event, s');
    case ItemLanded => ItemStepKeepsInv(f, limits, s0, s, event, s');
    case Turn => TurnKeepsInv(f, limits, s0, s, event, s');
    case TurnLanded => TurnKeepsInv(f, limits, s0, s, event, s');
    case Start(resume) =>
      var a := s'.attempt.value;
      if resume && s.db.checkpoint.Some? {
        var p :| PageStart(f, s.db.checkpoint, p) && Progress(f, s0, s.db.store, p);
        assert StandsAt(f, a, p, p);
      } else {
        FirstPage(f);
        assert StandsAt(f, a, [], []);
      }
    case Fetch =>
      var a := s.attempt.value;
      var a' := s'.attempt.value;
      var before, p :| StandsAt(f, a, before, p) && Progress(f, s0, s.db.store, p);
      if a'.phase.Working? {
        assert p == before + f(a.cursor).items[..0];
        assert StandsAt(f, a', before, p);
      }
    case Refresh =>
      var a := s.attempt.value;
      if !a.phase.Failing? {
        var before, p :| StandsAt(f, a, before, p) && Progress(f, s0, s.db.store, p);
        assert StandsAt(f, s'.attempt.value, before, p);
      }
    case _ =>
  }

  lemma InitialInv(f: Remote, s: State)
    requires Initial(s)
    ensures Inv(f, s.db.store, s)
  {
    FirstPage(f);
  }

  /** The invariant holds after every run. */
  lemma {:induction false} RunKeepsInv(f: Remote, limits: Limits, run: Run)
    requires Initial(run.first) && run.Of(f, limits)
    ensures Inv(f, run.first.db.store, run.Last())
    decreases |run.rest|
  {
    if run.rest == [] {
      InitialInv(f, run.first);
    } else {
      var n := |run.rest| - 1;
      run.UptoIsRun(f, limits, n);
      RunKeepsInv(f, limits, run.Upto(n));
      NextKeepsInv(f, limits, run.first.db.store, run.Before(n), run.rest[n].0, run.rest[n].1);
    }
  }

  // ---------------------------------------------------------------- main results

  /** No page is ever skipped: in every reachable state a stored cursor is the cursor
      of a page of the walk, and every item of every earlier page has a committed
      version with its content. */
  lemma NoPageSkipped(f: Remote, limits: Limits, run: Run)
    requires Initial(run.first) && run.Of(f, limits) && run.Last().db.checkpoint.Some?
    ensures exists earlier :: && PageStart(f, run.Last().db.checkpoint, earlier)
                              && AllStored(run.Last().db.store, earlier)
  {
    RunKeepsInv(f, limits, run);
  }

  /** Where a walk ends, everything is stored and every id shows its final content. */
  lemma AtTheEnd(f: Remote, s0: Store, s: State) returns (all: seq<Item>)
    requires Inv(f, s0, s) && s.attempt.Some? && PageDone(f, s.attempt.value) && !f(s.attempt.value.cursor).hasMore
    ensures IsWhole(f, all) && AllStored(s.db.store, all)
    ensures forall id :: LatestHash(s.db.store, id) == Expected(s0, all, id)
  {
    var a := s.attempt.value;
    var items := f(a.cursor).items;
    var before, p :| StandsAt(f, a, before, p) && Progress(f, s0, s.db.store, p);
    assert items[..|items|] == items;
    assert IsWhole(f, p);
    all := p;
    forall id ensures LatestHash(s.db.store, id) == Expected(s0, all, id) {
      if OccursAfter(f, all, id) {
        var q: seq<Item>, i: nat :| IsPrefix(f, q) && all <= q && |all| <= i < |q| && q[i].externalId == id;
        NothingAfterWhole(f, all, q);
      }
    }
  }

  lemma CompletionStep(f: Remote, limits: Limits, s: State, event: Event, s': State)
    requires Next(f, limits, s, event, s')
    requires || event.Complete? || event.CompleteLanded?
             || s'.db.lastSyncedAt != s.db.lastSyncedAt || (s'.db.checkpoint.None? && s.db.checkpoint.Some?)
    ensures s.attempt.Some? && PageDone(f, s.attempt.value) && !f(s.attempt.value.cursor).hasMore
    ensures s'.db.store == s.db.store
  {
    hide Process;
  }

  /** `last_synced_at` moves, and the checkpoint is cleared, only in a commit that ends
      a complete walk with every item of it stored. */
  lemma OnlyCompletionMovesSyncTime(f: Remote, limits: Limits, run: Run, event: Event, s': State)
    requires Initial(run.first) && run.Of(f, limits) && Next(f, limits, run.Last(), event, s')
    requires || s'.db.lastSyncedAt != run.Last().db.lastSyncedAt
             || (s'.db.checkpoint.None? && run.Last().db.checkpoint.Some?)
    ensures exists all :: IsWhole(f, all) && AllStored(s'.db.store, all)
  {
    hide Inv, IsWhole, AllStored, Initial, Next, PageDone, Run.Of;
    RunKeepsInv(f, limits, run);
    CompletionStep(f, limits, run.Last(), event, s');
    var all := AtTheEnd(f, run.first.db.store, run.Last());
  }
}
