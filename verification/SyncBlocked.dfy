/**
Where the sync does not survive a crash: states from which no attempt ever completes,
whatever happens afterwards, and how one crash leads there.
 */
module SyncBlocked {
  import opened Wrappers
  import opened DocumentStore
  import opened Replay
  import opened SyncExact
  import opened SyncProtocol
  import opened SyncReach
  import opened SyncSafety
  import opened Traversal

  ghost predicate AllUnchanged(limits: Limits, t: Store, items: seq<Item>) {
    forall i :: 0 <= i < |items| ==> Process(limits, t, items[i]).Unchanged?
  }

  /** Checkpoint and attempt are at page `k` or before, and the attempt has only passed
      items that are what their ids show. */
  ghost predicate Blocked(f: Remote, limits: Limits, t: Store, k: nat, s: State) {
    && s.db.store == t
    && (exists i: nat :: i <= k && CursorAt(f, i) == Some(s.db.checkpoint))
    && (s.attempt.Some? && !s.attempt.value.phase.Failing? ==>
          exists i: nat :: i <= k && CursorAt(f, i) == Some(s.attempt.value.cursor))
    && (s.attempt.Some? && s.attempt.value.phase.Working? ==>
          && s.attempt.value.phase.done <= |f(s.attempt.value.cursor).items|
          && AllUnchanged(limits, t, f(s.attempt.value.cursor).items[..s.attempt.value.phase.done]))
  }

  /** Everything up to page `k` is stored, and some item of page `k` is not what its id
      shows. */
  ghost predicate Trap(f: Remote, limits: Limits, t: Store, k: nat) {
    && CursorAt(f, k).Some? && !AllUnchanged(limits, t, PageItems(f, k))
    && AllStored(t, ItemsBefore(f, k + 1))
  }

  lemma StoredItemAddsNothing(limits: Limits, t: Store, x: Item)
    requires Stored(t, x.externalId, x.contentHash)
    ensures !Process(limits, t, x).Inserted?
  {
  }

  /** The items of page `i` are among those before any later page. */
  lemma {:induction false} PageIsBefore(f: Remote, i: nat, m: nat, j: nat) returns (n: nat)
    requires i < m && j < |PageItems(f, i)|
    ensures n < |ItemsBefore(f, m)| && ItemsBefore(f, m)[n] == PageItems(f, i)[j]
    decreases m
  {
    if i == m - 1 {
      n := |ItemsBefore(f, i)| + j;
    } else {
      n := PageIsBefore(f, i, m - 1, j);
    }
  }

  lemma TrapStops(f: Remote, limits: Limits, t: Store, k: nat, c: Option<string>, i: nat, j: nat)
    requires Trap(f, limits, t, k) && i <= k && CursorAt(f, i) == Some(c) && j < |f(c).items|
    ensures !Process(limits, t, f(c).items[j]).Inserted?
  {
    var n := PageIsBefore(f, i, k + 1, j);
    StoredItemAddsNothing(limits, t, f(c).items[j]);
  }

  lemma ItemKeepsBlocked(f: Remote, limits: Limits, t: Store, k: nat, s: State, event: Event, s': State)
    requires Trap(f, limits, t, k) && Blocked(f, limits, t, k, s) && Next(f, limits, s, event, s')
    requires s.attempt.Some? && HasItem(f, s.attempt.value)
    ensures Blocked(f, limits, t, k, s') && !event.Complete? && !event.CompleteLanded?
    ensures s'.db.lastSyncedAt == s.db.lastSyncedAt
  {
    hide Process, Stored, CursorAt;
    var a := s.attempt.value;
    var items := f(a.cursor).items;
    var i: nat :| i <= k && CursorAt(f, i) == Some(a.cursor);
    TrapStops(f, limits, t, k, a.cursor, i, a.phase.done);
    assert items[..a.phase.done + 1] == items[..a.phase.done] + [items[a.phase.done]];
  }

  lemma PageKeepsBlocked(f: Remote, limits: Limits, t: Store, k: nat, s: State, event: Event, s': State)
    requires Trap(f, limits, t, k) && Blocked(f, limits, t, k, s) && Next(f, limits, s, event, s')
    requires s.attempt.Some? && PageDone(f, s.attempt.value)
    ensures Blocked(f, limits, t, k, s') && !event.Complete? && !event.CompleteLanded?
    ensures s'.db.lastSyncedAt == s.db.lastSyncedAt
  {
    hide Process, Stored, AllStored, ItemsBefore, ValidPage;
    var a := s.attempt.value;
    var items := f(a.cursor).items;
    var i: nat :| i <= k && CursorAt(f, i) == Some(a.cursor);
    assert items[..a.phase.done] == items;
    PagesUpTo(f, i, k);
  }

  /** No step leaves the blocked state or completes the sync. */
  lemma NextKeepsBlocked(f: Remote, limits: Limits, t: Store, k: nat, s: State, event: Event, s': State)
    requires Trap(f, limits, t, k) && Blocked(f, limits, t, k, s) && Next(f, limits, s, event, s')
    ensures Blocked(f, limits, t, k, s') && !event.Complete? && !event.CompleteLanded?
    ensures s'.db.lastSyncedAt == s.db.lastSyncedAt
  {
    hide Process, Stored, Trap, AllUnchanged, ValidPage;
    if s.attempt.Some? && HasItem(f, s.attempt.value) {
      ItemKeepsBlocked(f, limits, t, k, s, event, s');
    } else if s.attempt.Some? && PageDone(f, s.attempt.value) {
      PageKeepsBlocked(f, limits, t, k, s, event, s');
    } else {
      assert CursorAt(f, 0) == Some(None);
      NothingUnchanged(limits, t);
    }
  }

  lemma NothingUnchanged(limits: Limits, t: Store)
    ensures AllUnchanged(limits, t, [])
  {
  }

  /** Every page before an existing one has a successor. */
  lemma PagesUpTo(f: Remote, i: nat, k: nat)
    requires i <= k && CursorAt(f, k).Some?
    ensures i < k ==> CursorAt(f, i).Some? && f(CursorAt(f, i).value).hasMore && CursorAt(f, i + 1).Some?
  {
    if i < k {
      PagesInOrder(f, i, k);
    }
  }

  lemma {:induction false} StaysBlocked(f: Remote, limits: Limits, t: Store, k: nat, run: Run)
    requires Trap(f, limits, t, k) && Blocked(f, limits, t, k, run.first) && run.Of(f, limits)
    ensures Blocked(f, limits, t, k, run.Last()) && run.Last().db.lastSyncedAt == run.first.db.lastSyncedAt
    decreases |run.rest|
  {
    hide Next, Blocked, Trap;
    if run.rest != [] {
      var n := |run.rest| - 1;
      run.UptoIsRun(f, limits, n);
      StaysBlocked(f, limits, t, k, run.Upto(n));
      NextKeepsBlocked(f, limits, t, k, run.Before(n), run.rest[n].0, run.rest[n].1);
    }
  }

  /** No run out of a blocked state ever completes the sync. */
  lemma BlockedForever(f: Remote, limits: Limits, t: Store, k: nat, run: Run)
    requires Trap(f, limits, t, k) && Blocked(f, limits, t, k, run.first) && run.Of(f, limits)
    ensures NeverCompletes(run) && run.Last().db.lastSyncedAt == run.first.db.lastSyncedAt
  {
    hide Next, Blocked, Trap, Run.Of;
    forall i | 0 <= i < |run.rest| ensures !run.rest[i].0.Complete? && !run.rest[i].0.CompleteLanded? {
      run.UptoIsRun(f, limits, i);
      StaysBlocked(f, limits, t, k, run.Upto(i));
      NextKeepsBlocked(f, limits, t, k, run.Before(i), run.rest[i].0, run.rest[i].1);
    }
    StaysBlocked(f, limits, t, k, run);
  }

  /** Nothing that happens after the end of `run` completes the sync. */
  ghost predicate Dead(f: Remote, limits: Limits, run: Run) {
    forall later: Run :: later.first == run.Last() && later.Of(f, limits) ==>
      NeverCompletes(later) && later.Last().db.lastSyncedAt == run.Last().db.lastSyncedAt
  }

  lemma BlockedIsDead(f: Remote, limits: Limits, t: Store, k: nat, run: Run)
    requires Trap(f, limits, t, k) && Blocked(f, limits, t, k, run.Last())
    ensures Dead(f, limits, run)
  {
    hide Blocked, Trap, Run.Of;
    forall later: Run | later.first == run.Last() && later.Of(f, limits)
      ensures NeverCompletes(later) && later.Last().db.lastSyncedAt == run.Last().db.lastSyncedAt
    {
      BlockedForever(f, limits, t, k, later);
    }
  }

  /** After a pass over the walk as far as `high`, page `k` within it is a trap if one of
      its items no longer carries the last content of its id. */
  lemma TrapAfterPass(f: Remote, limits: Limits, s0: Store, t: Store, high: seq<Item>, k: nat, j: nat)
    requires WellFormed(s0) && ProcessAll(limits, s0, high) == Some(t)
    requires CursorAt(f, k).Some? && ItemsBefore(f, k + 1) <= high && j < |PageItems(f, k)|
    requires LastHash(high, PageItems(f, k)[j].externalId) != Some(PageItems(f, k)[j].contentHash)
    ensures Trap(f, limits, t, k)
  {
    hide ProcessAll, Process, CursorAt, ItemsBefore, AllStored;
    PassedIsStored(limits, s0, t, high, ItemsBefore(f, k + 1));
    var n := PageIsBefore(f, k, k + 1, j);
    assert ItemsBefore(f, k + 1)[n] == high[n];
    PassedItem(limits, s0, t, high, n);
  }

  lemma PassedIsStored(limits: Limits, s0: Store, t: Store, high: seq<Item>, before: seq<Item>)
    requires WellFormed(s0) && ProcessAll(limits, s0, high) == Some(t) && before <= high
    ensures AllStored(t, before)
  {
    hide ProcessAll;
    forall i | 0 <= i < |before| ensures Stored(t, before[i].externalId, before[i].contentHash) {
      assert before[i] == high[i];
      PassResult(limits, s0, high, before[i].externalId, before[i].contentHash);
      assert Carries(high, before[i].externalId, before[i].contentHash);
    }
  }

  /** Two contents of one id on one page: one of the two is not the last. */
  lemma StaleOnPage(high: seq<Item>, items: seq<Item>) returns (j: nat)
    requires !OneHashPerId(items)
    ensures j < |items| && LastHash(high, items[j].externalId) != Some(items[j].contentHash)
  {
    var i, l :| 0 <= i < |items| && 0 <= l < |items| && items[i].externalId == items[l].externalId
                && items[i].contentHash != items[l].contentHash;
    j := if LastHash(high, items[i].externalId) == Some(items[i].contentHash) then l else i;
  }

  /** The process dies once, at the end, and nothing else disturbs the run. */
  predicate DiesOnce(run: Run) {
    && run.rest != [] && run.rest[|run.rest| - 1].0.Vanish?
    && forall i :: 0 <= i < |run.rest| - 1 ==> CalmAt(run, i)
  }

  /** The process dies once, the next attempt ignores the checkpoint, and nothing else
      disturbs the run. */
  predicate DiesAndRestarts(run: Run, c: nat) {
    && c + 1 < |run.rest| && run.rest[c].0.Vanish? && run.rest[c + 1].0 == Start(false)
    && forall i :: 0 <= i < |run.rest| && i != c && i != c + 1 ==> CalmAt(run, i)
  }

  /** Dying after an undisturbed run. */
  lemma {:induction false} Dies(f: Remote, limits: Limits, u: Run) returns (run: Run)
    requires u.Of(f, limits) && CalmFrom(u, 0) && u.Last().attempt.Some?
    ensures run.Of(f, limits) && run.first == u.first && DiesOnce(run) && NeverCompletes(run)
    ensures run.Last() == State(u.Last().db, None) && run.rest == u.rest + [(Vanish, run.Last())]
  {
    hide Next, Run.Of, CalmAt;
    VanishIsNext(f, limits, u.Last());
    u.ThenIsRun(f, limits, Vanish, State(u.Last().db, None));
    run := u.Then(Vanish, State(u.Last().db, None));
    CalmNeverCompletes(u);
    forall i | 0 <= i < |u.rest| ensures CalmAt(run, i) {
      SameCalm(u, run, i);
    }
  }

  /** Whenever one id comes with two contents on one page, whichever page it is, a single
      crash can end the sync for good: an undisturbed run, up to the death of the process at
      the end of that page, leaves a state from which every run, of any length and with any
      events, never completes. */
  lemma {:induction false} TwoHashesCanBlock(f: Remote, limits: Limits, s: State, k: nat) returns (run: Run)
    requires Initial(s) && s.db.connector != Disconnected
    requires forall j :: 0 <= j <= k ==> PageOk(f, limits, j)
    requires ProcessAll(limits, s.db.store, ItemsBefore(f, k + 1)).Some?
    requires !OneHashPerId(PageItems(f, k))
    ensures run.first == s && run.Of(f, limits) && DiesOnce(run) && NeverCompletes(run)
    ensures run.Last().attempt.None? && run.Last().db.connector != Disconnected && Dead(f, limits, run)
    ensures run.Last().db.store == ProcessAll(limits, s.db.store, ItemsBefore(f, k + 1)).value
    ensures Trap(f, limits, run.Last().db.store, k) && Blocked(f, limits, run.Last().db.store, k, run.Last())
  {
    hide Next, Run.Of, ProcessAll, Process, OneHashPerId, Trap, Dead, DiesOnce, CalmFrom;
    assert PageOk(f, limits, k);
    var items := PageItems(f, k);
    var high := ItemsBefore(f, k + 1);
    assert items[..|items|] == items && high == ItemsBefore(f, k) + items;
    FirstCursor(f);
    var u := ToItem(f, limits, s, k, |items|);
    run := Dies(f, limits, u);
    var j := StaleOnPage(high, items);
    TrapAfterPass(f, limits, s.db.store, run.Last().db.store, high, k, j);
    assert Blocked(f, limits, run.Last().db.store, k, run.Last());
    BlockedIsDead(f, limits, run.Last().db.store, k, run);
  }

  lemma FirstCursor(f: Remote)
    ensures CursorAt(f, 0) == Some(None)
  {
  }

  /** The same between pages. Suppose the walk has changed an id of page `k`, which is not
      the first, on a later page, and none of the first page so far: then a single crash,
      followed by an attempt that ignores the checkpoint and gets through the first page,
      moves the checkpoint back before page `k`, and from there no run ever completes. */
  lemma {:induction false} MovedBackCanBlock(f: Remote, limits: Limits, s: State, k: nat, m: nat, n: nat)
    returns (run: Run, c: nat)
    requires Initial(s) && s.db.connector != Disconnected
    requires forall j :: 0 <= j <= m ==> PageOk(f, limits, j)
    requires 1 <= k < m && n <= |PageItems(f, m)|
    requires ProcessAll(limits, s.db.store, ItemsBefore(f, m) + PageItems(f, m)[..n]).Some?
    requires !Shown(ItemsBefore(f, m) + PageItems(f, m)[..n], PageItems(f, k))
    requires Shown(ItemsBefore(f, m) + PageItems(f, m)[..n], PageItems(f, 0))
    ensures run.first == s && run.Of(f, limits) && DiesAndRestarts(run, c) && NeverCompletes(run)
    ensures run.Last().attempt.Some? && run.Last().db.connector != Disconnected && Dead(f, limits, run)
    ensures Trap(f, limits, run.Last().db.store, k) && Blocked(f, limits, run.Last().db.store, k, run.Last())
  {
    hide Next, Run.Of, ProcessAll, Process, Trap, Dead, WellFormed, PageOk, DiesOnce, DiesAndRestarts, CalmFrom;
    hide Blocked, WorksAt, Shown;
    var high := ItemsBefore(f, m) + PageItems(f, m)[..n];
    assert PageOk(f, limits, m) && PageOk(f, limits, 0);
    FirstCursor(f);
    var u := ToItem(f, limits, s, m, n);
    StillWorks(f, u.Last(), m, n);
    var crashed := Dies(f, limits, u);
    var t := crashed.Last().db.store;
    SecondPage(f, limits, m);
    BeforeLaterPage(f, 1, m);
    FirstPageAgain(f, limits, s.db.store, t, high);
    run := Restarts(f, limits, u, crashed);
    c := |u.rest|;
    TrapInPrefix(f, limits, s.db.store, t, high, k, m);
    BlockedAtPage(f, limits, k, 1, run.Last());
    BlockedIsDead(f, limits, t, k, run);
  }

  lemma StillWorks(f: Remote, s: State, k: nat, n: nat)
    requires WorksAt(f, s, k, n)
    ensures s.attempt.Some? && s.db.connector != Disconnected
  {
  }

  lemma SecondPage(f: Remote, limits: Limits, m: nat)
    requires m >= 1 && PageOk(f, limits, m)
    ensures CursorAt(f, 1).Some?
  {
    PageExists(f, limits, m);
    PagesUpTo(f, 0, m);
  }

  lemma TrapInPrefix(f: Remote, limits: Limits, s0: Store, t: Store, high: seq<Item>, k: nat, m: nat)
    requires WellFormed(s0) && ProcessAll(limits, s0, high) == Some(t)
    requires k < m && PageOk(f, limits, k) && ItemsBefore(f, m) <= high && !Shown(high, PageItems(f, k))
    ensures Trap(f, limits, t, k)
  {
    hide ProcessAll, WellFormed, ItemsBefore, Trap;
    BeforeLaterPage(f, k + 1, m);
    PageExists(f, limits, k);
    var items := PageItems(f, k);
    var j :| 0 <= j < |items| && LastHash(high, items[j].externalId) != Some(items[j].contentHash);
    TrapAfterPass(f, limits, s0, t, high, k, j);
  }

  lemma BlockedAtPage(f: Remote, limits: Limits, k: nat, i: nat, s: State)
    requires i <= k && s.attempt.Some? && s.attempt.value.phase.Fetching?
    requires CursorAt(f, i) == Some(s.attempt.value.cursor) == Some(s.db.checkpoint)
    ensures Blocked(f, limits, s.db.store, k, s)
  {
  }

  /** After a crash, an attempt from the first page, through it and to the next checkpoint. */
  lemma {:induction false} Restarts(f: Remote, limits: Limits, u: Run, crashed: Run) returns (run: Run)
    requires u.Of(f, limits) && CalmFrom(u, 0) && crashed.Of(f, limits) && crashed.first == u.first
    requires crashed.rest == u.rest + [(Vanish, crashed.Last())]
    requires crashed.Last().attempt.None? && crashed.Last().db.connector != Disconnected
    requires PageOk(f, limits, 0) && CursorAt(f, 1).Some?
    requires ProcessAll(limits, crashed.Last().db.store, PageItems(f, 0)) == Some(crashed.Last().db.store)
    ensures run.first == u.first && run.Of(f, limits) && DiesAndRestarts(run, |u.rest|) && NeverCompletes(run)
    ensures run.Last().attempt.Some? && run.Last().attempt.value.phase.Fetching?
    ensures CursorAt(f, 1) == Some(run.Last().attempt.value.cursor) == Some(run.Last().db.checkpoint)
    ensures run.Last().db.store == crashed.Last().db.store && run.Last().db.connector != Disconnected
  {
    hide Next, Run.Of, ProcessAll, Process, PageOk, WorksAt, CalmFrom, DiesAndRestarts, Continues;
    var items := PageItems(f, 0);
    assert items[0..|items|] == items;
    FirstCursor(f);
    var begun, fetched := Begins(f, limits, crashed.Last(), false, 0);
    crashed.ThenIsRun(f, limits, Start(false), begun);
    var started := crashed.Then(Start(false), begun);
    var at := Take(f, limits, started, Fetch, fetched);
    RunOf(f, limits, started, at);
    var done := OnItems(f, limits, at, 0, 0, |items|);
    RunOf(f, limits, at, done);
    GoesOn(f, limits, started, at, done);
    var turned := TurnIsNext(f, limits, done.Last(), 0);
    run := Take(f, limits, done, Turn, turned);
    RunOf(f, limits, done, run);
    GoesOn(f, limits, started, done, run);
    OnlyTwo(f, limits, u, started, run);
  }

  lemma OnlyTwo(f: Remote, limits: Limits, u: Run, started: Run, run: Run)
    requires CalmFrom(u, 0) && u.rest <= started.rest && |started.rest| == |u.rest| + 2
    requires started.rest[|u.rest|].0.Vanish? && started.rest[|u.rest| + 1].0 == Start(false)
    requires Continues(f, limits, started, run)
    ensures DiesAndRestarts(run, |u.rest|) && NeverCompletes(run)
  {
    hide Run.Of;
    var c := |u.rest|;
    assert run.rest[c] == started.rest[c] && run.rest[c + 1] == started.rest[c + 1];
    forall i | 0 <= i < |run.rest| && i != c && i != c + 1 ensures CalmAt(run, i) {
      if i < c {
        assert u.rest <= run.rest;
        SameCalm(u, run, i);
      }
    }
    forall i | 0 <= i < |run.rest| ensures !run.rest[i].0.Complete? && !run.rest[i].0.CompleteLanded? {
      assert i == c || i == c + 1 || CalmAt(run, i);
    }
  }

  /** A first page that is still shown as a whole is passed again without a change. */
  lemma FirstPageAgain(f: Remote, limits: Limits, s0: Store, t: Store, high: seq<Item>)
    requires WellFormed(s0) && ProcessAll(limits, s0, high) == Some(t)
    requires ItemsBefore(f, 1) <= high && Shown(high, PageItems(f, 0))
    ensures ProcessAll(limits, t, PageItems(f, 0)) == Some(t)
  {
    hide ProcessAll, WellFormed, Shown;
    var items := PageItems(f, 0);
    assert ItemsBefore(f, 1) == items;
    assert forall i :: 0 <= i < |items| ==> items[i] == high[i];
    ShownIsDone(limits, s0, t, high, items);
  }

  lemma {:induction false} BeforeLaterPage(f: Remote, i: nat, m: nat)
    requires i <= m
    ensures ItemsBefore(f, i) <= ItemsBefore(f, m)
    decreases m
  {
    if i < m {
      BeforeLaterPage(f, i, m - 1);
    }
  }
}
