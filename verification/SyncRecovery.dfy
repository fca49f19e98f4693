/**
Exactly which walks the sync recovers on, from every state that some run with crashes,
failures and restarts leads to.
 */
module SyncRecovery {
  import opened Wrappers
  import opened DocumentStore
  import opened Replay
  import opened SyncProtocol
  import opened SyncReach
  import opened Traversal
  import opened SyncSafety
  import opened SyncExact
  import opened SyncProgress
  import opened SyncBlocked
  import opened SyncCompletion
  import opened SyncDisconnect

  /** Some number of undisturbed attempts ends in success with this store. */
  ghost predicate Recovers(f: Remote, limits: Limits, db: Durable, target: Store, now: int) {
    exists n: nat :: 1 <= n && Succeeds(CalmAttempts(f, limits, db, n, now), target, now)
  }

  // ---------------------------------------------------------------- blocked states do not recover

  /** The durable part of a blocked state, after an attempt. */
  ghost predicate Stuck(f: Remote, t: Store, k: nat, db: Durable) {
    && db.store == t && |db.jobs| > 0 && db.jobs[|db.jobs| - 1].status == Failed
    && exists i: nat :: i <= k && CursorAt(f, i) == Some(db.checkpoint)
  }

  lemma {:induction false} CalmItemsAddNothing(limits: Limits, t: Store, a: Attempt, items: seq<Item>)
    requires a.phase.Working? && a.phase.done <= |items|
    requires forall j :: 0 <= j < |items| ==> !Process(limits, t, items[j]).Inserted?
    ensures CalmItems(limits, t, a, items).0 == t
    ensures CalmItems(limits, t, a, items).1.phase.Working? ==> AllUnchanged(limits, t, items[a.phase.done..])
    decreases |items| - a.phase.done
  {
    hide Process;
    if a.phase.done < |items| {
      var x := items[a.phase.done];
      assert items[a.phase.done..] == [x] + items[a.phase.done + 1..];
      if Process(limits, t, x).Unchanged? {
        CalmItemsAddNothing(limits, t, Skipped(a), items);
      }
    }
  }

  /** On the pages up to the trap an undisturbed attempt adds nothing and stops there. */
  lemma CalmItemsInTrap(f: Remote, limits: Limits, t: Store, k: nat, a: Attempt, i: nat)
    requires Trap(f, limits, t, k) && i <= k && CursorAt(f, i) == Some(a.cursor) && a.phase == Working(0)
    ensures var (s, c) := CalmItems(limits, t, a, f(a.cursor).items);
            s == t && (i == k ==> c.phase.Failing?)
  {
    hide Process, CalmItems, AllStored;
    var items := f(a.cursor).items;
    forall j | 0 <= j < |items| ensures !Process(limits, t, items[j]).Inserted? {
      TrapStops(f, limits, t, k, a.cursor, i, j);
    }
    CalmItemsAddNothing(limits, t, a, items);
    CalmItemsKeeps(limits, t, a, items);
    assert items[0..] == items;
  }

  lemma {:induction false} CalmPagesStuck(f: Remote, limits: Limits, t: Store, k: nat, db: Durable, a: Attempt,
                                          i: nat, now: int)
    requires Trap(f, limits, t, k) && db.store == t && a.phase.Fetching? && a.counts.pages <= limits.maxPages
    requires i <= k && CursorAt(f, i) == Some(a.cursor) && a.job == |db.jobs| - 1
    requires exists j: nat :: j <= k && CursorAt(f, j) == Some(db.checkpoint)
    ensures Stuck(f, t, k, CalmPages(f, limits, db, a, now))
    decreases limits.maxPages - a.counts.pages
  {
    hide Process, CalmItems, Trap, CursorAt;
    var page := f(a.cursor);
    var b := Fetched(f, limits, a, db.connector);
    if b.phase.Working? {
      CalmItemsInTrap(f, limits, t, k, b, i);
      CalmItemsKeeps(limits, db.store, b, page.items);
      var c := CalmItems(limits, db.store, b, page.items).1;
      if c.phase.Working? {
        TrapHasPage(f, limits, t, k, i);
        var saved := SaveCheckpoint(db, c, page.nextCursor);
        CalmPagesStuck(f, limits, t, k, saved, Turned(c, page, db.connector), i + 1, now);
      }
    }
  }

  lemma TrapHasPage(f: Remote, limits: Limits, t: Store, k: nat, i: nat)
    requires Trap(f, limits, t, k) && i <= k
    ensures i < k ==> && CursorAt(f, i).Some? && f(CursorAt(f, i).value).hasMore
                      && CursorAt(f, i + 1) == Some(f(CursorAt(f, i).value).nextCursor)
  {
    PagesUpTo(f, i, k);
  }

  lemma {:induction false} StuckStays(f: Remote, limits: Limits, t: Store, k: nat, db: Durable, n: nat, now: int)
    requires Trap(f, limits, t, k) && Stuck(f, t, k, db)
    ensures Stuck(f, t, k, CalmAttempts(f, limits, db, n, now))
    decreases n
  {
    hide Trap, CalmPages;
    if n > 0 {
      CalmAttemptStuck(f, limits, t, k, db, now);
      StuckStays(f, limits, t, k, CalmAttempt(f, limits, db, true, now), n - 1, now);
    }
  }

  lemma CalmAttemptStuck(f: Remote, limits: Limits, t: Store, k: nat, db: Durable, now: int)
    requires Trap(f, limits, t, k) && db.store == t
    requires exists i: nat :: i <= k && CursorAt(f, i) == Some(db.checkpoint)
    ensures Stuck(f, t, k, CalmAttempt(f, limits, db, true, now))
  {
    hide Trap, CalmPages, CursorAt;
    var i: nat :| i <= k && CursorAt(f, i) == Some(db.checkpoint);
    CalmPagesStuck(f, limits, t, k, OpenJob(db), Begin(db, true), i, now);
  }

  /** No number of undisturbed attempts leads out of a blocked state. */
  lemma BlockedNeverRecovers(f: Remote, limits: Limits, t: Store, k: nat, s: State, target: Store, now: int)
    requires Trap(f, limits, t, k) && Blocked(f, limits, t, k, s)
    ensures !Recovers(f, limits, s.db, target, now)
  {
    hide Trap, CalmPages, CalmAttempt;
    forall n: nat | 1 <= n ensures !Succeeds(CalmAttempts(f, limits, s.db, n, now), target, now) {
      CalmAttemptStuck(f, limits, t, k, s.db, now);
      StuckStays(f, limits, t, k, CalmAttempt(f, limits, s.db, true, now), n - 1, now);
    }
  }

  // ---------------------------------------------------------------- walks that survive every crash

  /** No page carries an id with two contents, and as long as the walk has changed no id of
      the first page it has not changed any. */
  ghost predicate SafeWalk(f: Remote) {
    && (forall k: nat :: OneHashPerId(PageItems(f, k)))
    && (forall p :: IsPrefix(f, p) && Shown(p, PageItems(f, 0)) ==> OneHashPerId(p))
  }

  /** The single pass has got as far as `high`; the checkpoint is page `i`, and the attempt
      is at page `m`, which is the checkpoint or the first page. What lies between the
      checkpoint and `high` is still shown, and so is what the attempt has passed of the
      first page. */
  ghost predicate Stands(f: Remote, limits: Limits, s0: Store, s: State, high: seq<Item>, i: nat, m: nat) {
    && IsPrefix(f, high) && ProcessAll(limits, s0, high) == Some(s.db.store)
    && CursorAt(f, i) == Some(s.db.checkpoint) && ItemsBefore(f, i) <= high
    && Shown(high, high[|ItemsBefore(f, i)|..])
    && (s.attempt.Some? && !s.attempt.value.phase.Failing? ==>
          && CursorAt(f, m) == Some(s.attempt.value.cursor) && (m > 0 ==> m == i)
          && Passed(s.attempt.value) <= |PageItems(f, m)|
          && ItemsBefore(f, m) + PageItems(f, m)[..Passed(s.attempt.value)] <= high
          && (m == 0 ==> Shown(high, PageItems(f, m)[..Passed(s.attempt.value)])))
  }

  function Passed(a: Attempt): nat {
    if a.phase.Working? then a.phase.done else 0
  }

  ghost predicate InOrder(f: Remote, limits: Limits, s0: Store, s: State) {
    exists high, i: nat, m: nat :: Stands(f, limits, s0, s, high, i, m)
  }

  /** A connector that is known to be disconnected is not synced again; any other is in good
      order, even while an attempt has yet to notice that it was disconnected. */
  ghost predicate Resumable(f: Remote, limits: Limits, s0: Store, s: State) {
    Gone(s) || (Unaware(s) && InOrder(f, limits, s0, s))
  }

  predicate Unaware(s: State) {
    s.attempt.Some? ==> s.attempt.value.cached != Disconnected
  }

  lemma NextKeepsUnaware(f: Remote, limits: Limits, s: State, event: Event, s': State)
    requires Unaware(s) && Next(f, limits, s, event, s')
    ensures Unaware(s') || Gone(s')
  {
    hide Process, ValidPage;
  }

  lemma {:induction false} LastHashAppends(b: seq<Item>, c: seq<Item>, id: string)
    ensures LastHash(b + c, id) == if LastHash(c, id).Some? then LastHash(c, id) else LastHash(b, id)
  {
    if c == [] {
      assert b + c == b;
    } else {
      assert (b + c)[..|b + c| - 1] == b + c[..|c| - 1];
      LastHashAppends(b, c[..|c| - 1], id);
    }
  }

  /** What comes last is shown, if it gives each id one content. */
  lemma EndIsShown(b: seq<Item>, c: seq<Item>)
    requires OneHashPerId(c)
    ensures Shown(b + c, c)
  {
    OneHashIsShown(c);
    forall j | 0 <= j < |c| ensures LastHash(b + c, c[j].externalId) == Some(c[j].contentHash) {
      LastHashAppends(b, c, c[j].externalId);
    }
  }

  lemma ShownSuffix(high: seq<Item>, items: seq<Item>, n: nat)
    requires Shown(high, items) && n <= |items|
    ensures Shown(high, items[n..])
  {
  }

  /** Taking the next item of page `m` at the top of the pass. */
  lemma TopStands(f: Remote, i: nat, m: nat, done: nat, q: seq<Item>)
    requires OneHashPerId(PageItems(f, m)) && done <= |PageItems(f, m)|
    requires q == ItemsBefore(f, m) + PageItems(f, m)[..done]
    requires ItemsBefore(f, i) <= q && (m > 0 ==> m == i)
    ensures Shown(q, q[|ItemsBefore(f, i)|..]) && Shown(q, PageItems(f, m)[..done])
  {
    var c := PageItems(f, m)[..done];
    assert OneHashPerId(c);
    EndIsShown(ItemsBefore(f, m), c);
    if m > 0 {
      assert q[|ItemsBefore(f, i)|..] == c;
    } else {
      assert q == c;
      ShownSuffix(q, c, |ItemsBefore(f, i)|);
    }
  }

  /** What an item step does, as far as it matters here. */
  lemma ItemStep(f: Remote, limits: Limits, s: State, event: Event, s': State)
    requires Next(f, limits, s, event, s') && (event.ItemSkip? || event.ItemCommit? || event.ItemLanded?)
    ensures s.attempt.Some? && HasItem(f, s.attempt.value) && s'.attempt.Some?
    ensures var a, a' := s.attempt.value, s'.attempt.value;
            var e := Process(limits, s.db.store, f(a.cursor).items[a.phase.done]);
            && After(s.db.store, e) == Some(s'.db.store) && (e.Unchanged? || e.Inserted?)
            && (e.Unchanged? ==> event.ItemSkip? && s'.db.store == s.db.store)
            && s'.db.checkpoint == s.db.checkpoint && a'.cursor == a.cursor
            && a'.phase == Working(if event.ItemLanded? then a.phase.done else a.phase.done + 1)
  {
    hide Process;
  }

  lemma ItemKeepsStands(f: Remote, limits: Limits, s0: Store, s: State, event: Event, s': State,
                        high: seq<Item>, i: nat, m: nat)
    requires SafeWalk(f) && WellFormed(s0) && Stands(f, limits, s0, s, high, i, m)
    requires Next(f, limits, s, event, s') && (event.ItemSkip? || event.ItemCommit? || event.ItemLanded?)
    ensures InOrder(f, limits, s0, s')
  {
    hide ProcessAll, WellFormed, IsPrefix, Process, CursorAt, ItemsBefore, Shown, Next;
    ItemStep(f, limits, s, event, s');
    var done := s.attempt.value.phase.done;
    var p := ItemsBefore(f, m) + PageItems(f, m)[..done];
    var q := p + [PageItems(f, m)[done]];
    NextPoint(f, m, done);
    Linear(f, q, high);
    BehindOrAtTop(p, PageItems(f, m)[done], high);
    if q <= high {
      PassedItem(limits, s0, s.db.store, high, |p|);
      ShownSnoc(high, PageItems(f, m), done);
      assert Stands(f, limits, s0, s', high, i, m);
    } else {
      TopKeepsStands(f, limits, s0, s, event, s', i, m);
    }
  }

  /** The item is the next one of the pass. */
  lemma TopKeepsStands(f: Remote, limits: Limits, s0: Store, s: State, event: Event, s': State, i: nat, m: nat)
    requires SafeWalk(f) && Next(f, limits, s, event, s')
    requires event.ItemSkip? || event.ItemCommit? || event.ItemLanded?
    requires s.attempt.Some? && HasItem(f, s.attempt.value) && CursorAt(f, m) == Some(s.attempt.value.cursor)
    requires Stands(f, limits, s0, s, ItemsBefore(f, m) + PageItems(f, m)[..s.attempt.value.phase.done], i, m)
    ensures InOrder(f, limits, s0, s')
  {
    hide ProcessAll, IsPrefix, Process, CursorAt, ItemsBefore, Shown, Next, OneHashPerId;
    ItemStep(f, limits, s, event, s');
    var items, done := PageItems(f, m), s.attempt.value.phase.done;
    var p := ItemsBefore(f, m) + items[..done];
    var q := p + [items[done]];
    NextPoint(f, m, done);
    PassSnoc(limits, s0, p, items[done]);
    TopStands(f, i, m, done + 1, q);
    ShownFront(q, items, done);
    assert Stands(f, limits, s0, s', q, i, m);
  }

  lemma NextPoint(f: Remote, m: nat, done: nat)
    requires CursorAt(f, m).Some? && done < |PageItems(f, m)|
    ensures var q := ItemsBefore(f, m) + PageItems(f, m)[..done] + [PageItems(f, m)[done]];
            IsPrefix(f, q) && q == ItemsBefore(f, m) + PageItems(f, m)[..done + 1]
  {
    hide IsPrefix;
    var items := PageItems(f, m);
    assert items[..done + 1] == items[..done] + [items[done]];
    PointIsPrefix(f, m, done + 1);
    assert ItemsBefore(f, m) + items[..done] + [items[done]] == ItemsBefore(f, m) + items[..done + 1];
  }

  lemma ShownSnoc(high: seq<Item>, items: seq<Item>, done: nat)
    requires done < |items|
    ensures Shown(high, items[..done]) && LastHash(high, items[done].externalId) == Some(items[done].contentHash) ==>
              Shown(high, items[..done + 1])
  {
  }

  lemma ShownFront(high: seq<Item>, items: seq<Item>, done: nat)
    requires done < |items|
    ensures Shown(high, items[..done + 1]) ==> Shown(high, items[..done])
  {
    assert items[..done] == items[..done + 1][..done];
  }

  lemma PointIsPrefix(f: Remote, m: nat, done: nat)
    requires CursorAt(f, m).Some? && done <= |PageItems(f, m)|
    ensures IsPrefix(f, ItemsBefore(f, m) + PageItems(f, m)[..done])
  {
    assert PageStart(f, CursorAt(f, m).value, ItemsBefore(f, m));
    assert Within(f, CursorAt(f, m).value, ItemsBefore(f, m), done, ItemsBefore(f, m) + PageItems(f, m)[..done]);
  }

  lemma TurnKeepsStands(f: Remote, limits: Limits, s0: Store, s: State, event: Event, s': State,
                        high: seq<Item>, i: nat, m: nat)
    requires SafeWalk(f) && Stands(f, limits, s0, s, high, i, m)
    requires Next(f, limits, s, event, s') && Unaware(s) && (event.Turn? || event.TurnLanded?)
    ensures InOrder(f, limits, s0, s')
  {
    hide ProcessAll, IsPrefix, Process, Shown, OneHashPerId;
    var a := s.attempt.value;
    var items := PageItems(f, m);
    assert items[..|items|] == items && ItemsBefore(f, m + 1) == ItemsBefore(f, m) + items;
    assert CursorAt(f, m + 1) == Some(f(a.cursor).nextCursor);
    if m > 0 {
      var rest := high[|ItemsBefore(f, i)|..];
      ShownSuffix(high, rest, |items|);
      assert rest[|items|..] == high[|ItemsBefore(f, m + 1)|..];
    } else {
      OneHashIsShown(high);
      ShownSuffix(high, high, |items|);
    }
    NoneIsShown(high);
    assert Stands(f, limits, s0, s', high, m + 1, m + 1);
  }

  lemma NoneIsShown(high: seq<Item>)
    ensures Shown(high, [])
  {
  }

  /** Every step of an attempt that does not know of a disconnect. */
  lemma NextKeepsOrder(f: Remote, limits: Limits, s0: Store, s: State, event: Event, s': State)
    requires SafeWalk(f) && WellFormed(s0) && Unaware(s) && InOrder(f, limits, s0, s)
    requires Next(f, limits, s, event, s') && !event.Complete? && !event.CompleteLanded?
    ensures InOrder(f, limits, s0, s')
  {
    hide ProcessAll, WellFormed, IsPrefix, Process, ItemsBefore, Shown, SafeWalk;
    var high, i: nat, m: nat :| Stands(f, limits, s0, s, high, i, m);
    NoneIsShown(high);
    match event
    case ItemSkip => ItemKeepsStands(f, limits, s0, s, event, s', high, i, m);
    case ItemCommit => ItemKeepsStands(f, limits, s0, s, event, s', high, i, m);
    case ItemLanded => ItemKeepsStands(f, limits, s0, s, event, s', high, i, m);
    case Turn => TurnKeepsStands(f, limits, s0, s, event, s', high, i, m);
    case TurnLanded => TurnKeepsStands(f, limits, s0, s, event, s', high, i, m);
    case Start(resume) =>
      FirstCursor(f);
      var at := if resume then i else 0;
      BeforePage(f, at, i, high);
      assert Stands(f, limits, s0, s', high, i, at);
    case Complete(_) =>
    case CompleteLanded(_) =>
    case _ =>
      assert Stands(f, limits, s0, s', high, i, m);
  }

  lemma NextKeepsResumable(f: Remote, limits: Limits, s0: Store, s: State, event: Event, s': State)
    requires SafeWalk(f) && WellFormed(s0) && Resumable(f, limits, s0, s)
    requires Next(f, limits, s, event, s') && !event.Complete? && !event.CompleteLanded?
    ensures Resumable(f, limits, s0, s')
  {
    hide Next, WellFormed, SafeWalk, InOrder, Unaware, Gone;
    if Gone(s) {
      NextKeepsGone(f, limits, s, event, s');
    } else {
      NextKeepsUnaware(f, limits, s, event, s');
      NextKeepsOrder(f, limits, s0, s, event, s');
    }
  }

  lemma BeforePage(f: Remote, at: nat, i: nat, high: seq<Item>)
    requires at <= i && ItemsBefore(f, i) <= high
    ensures ItemsBefore(f, at) + PageItems(f, at)[..0] <= high
  {
    BeforeLaterPage(f, at, i);
    assert ItemsBefore(f, at) + PageItems(f, at)[..0] == ItemsBefore(f, at);
  }

  lemma {:induction false} RunStaysResumable(f: Remote, limits: Limits, run: Run)
    requires SafeWalk(f) && Initial(run.first) && run.Of(f, limits) && NeverCompletes(run)
    ensures Resumable(f, limits, run.first.db.store, run.Last())
    decreases |run.rest|
  {
    hide Next, Stands, SafeWalk, Run.Of;
    if run.rest == [] {
      FirstStands(f, limits, run.first);
    } else {
      var n := |run.rest| - 1;
      run.UptoIsRun(f, limits, n);
      assert forall j :: 0 <= j < n ==> run.Upto(n).rest[j] == run.rest[j];
      RunStaysResumable(f, limits, run.Upto(n));
      NextKeepsResumable(f, limits, run.first.db.store, run.Before(n), run.rest[n].0, run.rest[n].1);
    }
  }

  lemma FirstStands(f: Remote, limits: Limits, s: State)
    requires Initial(s)
    ensures Resumable(f, limits, s.db.store, s)
  {
    FirstPage(f);
    NoneIsShown([]);
    assert Stands(f, limits, s.db.store, s, [], 0, 0);
  }

  // ---------------------------------------------------------------- the exact conditions

  lemma PageWithin(f: Remote, last: nat, i: nat)
    requires CursorAt(f, last).Some? && !f(CursorAt(f, last).value).hasMore && CursorAt(f, i).Some?
    ensures i <= last
  {
    if last < i {
      PagesInOrder(f, last, i);
    }
  }

  /** From good order, undisturbed attempts finish the single pass. */
  lemma StandsRecovers(f: Remote, limits: Limits, last: nat, s0: Store, s: State, high: seq<Item>, i: nat,
                       m: nat, now: int)
    requires limits.maxPages >= 1 && WalkEndsAt(f, limits, last) && WellFormed(s0)
    requires ProcessAll(limits, s0, ItemsBefore(f, last + 1)).Some?
    requires Stands(f, limits, s0, s, high, i, m) && s.db.connector != Disconnected
    ensures Recovers(f, limits, s.db, ProcessAll(limits, s0, ItemsBefore(f, last + 1)).value, now)
  {
    hide ProcessAll, WellFormed, Shown, CalmAttempts, Succeeds, ItemsFrom, ItemsBefore, IsPrefix;
    WholeWalk(f, last);
    NothingAfterWhole(f, ItemsBefore(f, last + 1), high);
    PageWithin(f, last, i);
    WalkSplits(f, i, last);
    RestIsReady(f, limits, s0, s.db.store, ItemsBefore(f, i), high, ItemsFrom(f, i, last));
    var n := CeilDiv(last - i + 1, limits.maxPages);
    ExactlyCeilAttempts(f, limits, last, s.db, i, n, now);
  }

  /** Every idle state that such a run leads to, of a connector still connected, recovers. */
  ghost predicate EveryRunRecovers(f: Remote, limits: Limits, s: State, target: Store, now: int, completing: bool) {
    forall run: Run ::
      && run.first == s && run.Of(f, limits) && (completing || NeverCompletes(run))
      && run.Last().attempt.None? && run.Last().db.connector != Disconnected
      ==> Recovers(f, limits, run.Last().db, target, now)
  }

  /** Within one sync, that is, until an attempt has completed it: every state that any run
      leads to recovers, with exactly the store of one pass, if and only if the walk is
      safe. */
  lemma RecoversIffSafe(f: Remote, limits: Limits, last: nat, s: State, now: int)
    requires limits.maxPages >= 1 && WalkEndsAt(f, limits, last)
    requires Initial(s) && s.db.connector != Disconnected
    requires ProcessAll(limits, s.db.store, ItemsBefore(f, last + 1)).Some?
    ensures EveryRunRecovers(f, limits, s, ProcessAll(limits, s.db.store, ItemsBefore(f, last + 1)).value, now, false)
            <==> SafeWalk(f)
  {
    hide ProcessAll, Stands, Run.Of, Recovers, SafeWalk, Trap, Blocked, Dead, WalkEndsAt;
    var target := ProcessAll(limits, s.db.store, ItemsBefore(f, last + 1)).value;
    if SafeWalk(f) {
      forall run: Run | && run.first == s && run.Of(f, limits) && NeverCompletes(run)
                        && run.Last().attempt.None? && run.Last().db.connector != Disconnected
        ensures Recovers(f, limits, run.Last().db, target, now)
      {
        RunStaysResumable(f, limits, run);
        var high, i: nat, m: nat :| Stands(f, limits, s.db.store, run.Last(), high, i, m);
        StandsRecovers(f, limits, last, s.db.store, run.Last(), high, i, m, now);
      }
    } else {
      var run, k := UnsafeBlocks(f, limits, last, s);
      BlockedNeverRecovers(f, limits, run.Last().db.store, k, run.Last(), target, now);
    }
  }

  /** The item at a position of the walk lies on a page. */
  lemma {:induction false} Locate(f: Remote, m: nat, n: nat) returns (k: nat, j: nat)
    requires n < |ItemsBefore(f, m)|
    ensures k < m && j < |PageItems(f, k)| && PageItems(f, k)[j] == ItemsBefore(f, m)[n]
    decreases m
  {
    if n < |ItemsBefore(f, m - 1)| {
      k, j := Locate(f, m - 1, n);
    } else {
      k, j := m - 1, n - |ItemsBefore(f, m - 1)|;
    }
  }

  lemma PassOfPrefix(limits: Limits, s: Store, p: seq<Item>, all: seq<Item>)
    requires p <= all && ProcessAll(limits, s, all).Some?
    ensures ProcessAll(limits, s, p).Some?
  {
    PassConcat(limits, s, p, all[|p|..]);
    assert p + all[|p|..] == all;
  }

  /** On a walk that is not safe some run, without a completion, leads to a blocked state. */
  lemma {:induction false} UnsafeBlocks(f: Remote, limits: Limits, last: nat, s: State) returns (run: Run, k: nat)
    requires limits.maxPages >= 1 && WalkEndsAt(f, limits, last) && !SafeWalk(f)
    requires Initial(s) && s.db.connector != Disconnected
    requires ProcessAll(limits, s.db.store, ItemsBefore(f, last + 1)).Some?
    ensures run.first == s && run.Of(f, limits) && NeverCompletes(run) && run.Last().attempt.None?
    ensures run.Last().db.connector != Disconnected
    ensures Trap(f, limits, run.Last().db.store, k) && Blocked(f, limits, run.Last().db.store, k, run.Last())
  {
    hide ProcessAll, Run.Of, Trap, Blocked, Dead, Initial, OneHashPerId, Shown, IsPrefix;
    if !(forall l: nat :: OneHashPerId(PageItems(f, l))) {
      k :| !OneHashPerId(PageItems(f, k));
      run := PageBlocks(f, limits, last, s, k);
    } else {
      var p :| IsPrefix(f, p) && Shown(p, PageItems(f, 0)) && !OneHashPerId(p);
      run, k := ChangeBlocks(f, limits, last, s, p);
    }
  }

  lemma {:induction false} PageBlocks(f: Remote, limits: Limits, last: nat, s: State, k: nat) returns (run: Run)
    requires limits.maxPages >= 1 && WalkEndsAt(f, limits, last) && !OneHashPerId(PageItems(f, k))
    requires Initial(s) && s.db.connector != Disconnected
    requires ProcessAll(limits, s.db.store, ItemsBefore(f, last + 1)).Some?
    ensures run.first == s && run.Of(f, limits) && NeverCompletes(run) && run.Last().attempt.None?
    ensures run.Last().db.connector != Disconnected
    ensures Trap(f, limits, run.Last().db.store, k) && Blocked(f, limits, run.Last().db.store, k, run.Last())
  {
    hide ProcessAll, Run.Of, Trap, Blocked, Dead, Initial;
    PageWithin(f, last, k);
    forall j | 0 <= j <= k ensures PageOk(f, limits, j) {
      WalkPagesOk(f, limits, last, j);
    }
    BeforeLaterPage(f, k + 1, last + 1);
    PassOfPrefix(limits, s.db.store, ItemsBefore(f, k + 1), ItemsBefore(f, last + 1));
    run := TwoHashesCanBlock(f, limits, s, k);
  }

  lemma {:induction false} ChangeBlocks(f: Remote, limits: Limits, last: nat, s: State, p: seq<Item>)
    returns (run: Run, k: nat)
    requires limits.maxPages >= 1 && WalkEndsAt(f, limits, last)
    requires IsPrefix(f, p) && Shown(p, PageItems(f, 0)) && !OneHashPerId(p)
    requires forall l: nat :: OneHashPerId(PageItems(f, l))
    requires Initial(s) && s.db.connector != Disconnected
    requires ProcessAll(limits, s.db.store, ItemsBefore(f, last + 1)).Some?
    ensures run.first == s && run.Of(f, limits) && NeverCompletes(run) && run.Last().attempt.None?
    ensures run.Last().db.connector != Disconnected
    ensures Trap(f, limits, run.Last().db.store, k) && Blocked(f, limits, run.Last().db.store, k, run.Last())
  {
    hide ProcessAll, Run.Of, Trap, Blocked, Dead, Initial, Shown;
    var m, n := PrefixPoint(f, p);
    PageWithin(f, last, m);
    WholeWalk(f, last);
    NothingAfterWhole(f, ItemsBefore(f, last + 1), p);
    PassOfPrefix(limits, s.db.store, p, ItemsBefore(f, last + 1));
    forall j | 0 <= j <= m ensures PageOk(f, limits, j) {
      WalkPagesOk(f, limits, last, j);
    }
    k := StalePage(f, p, m, n);
    var moved, _ := MovedBackCanBlock(f, limits, s, k, m, n);
    run := LeavesBlocked(f, limits, k, moved);
  }

  /** A blocked attempt that dies leaves a blocked connector. */
  lemma {:induction false} LeavesBlocked(f: Remote, limits: Limits, k: nat, r: Run) returns (run: Run)
    requires r.Of(f, limits) && NeverCompletes(r) && r.Last().attempt.Some?
    requires Trap(f, limits, r.Last().db.store, k) && Blocked(f, limits, r.Last().db.store, k, r.Last())
    ensures run.first == r.first && run.Of(f, limits) && NeverCompletes(run) && run.Last().attempt.None?
    ensures run.Last().db == r.Last().db
    ensures Trap(f, limits, run.Last().db.store, k) && Blocked(f, limits, run.Last().db.store, k, run.Last())
  {
    hide Run.Of, Next, Trap;
    VanishIsNext(f, limits, r.Last());
    r.ThenIsRun(f, limits, Vanish, State(r.Last().db, None));
    run := r.Then(Vanish, State(r.Last().db, None));
  }

  lemma PrefixPoint(f: Remote, p: seq<Item>) returns (m: nat, n: nat)
    requires IsPrefix(f, p)
    ensures CursorAt(f, m).Some? && n <= |PageItems(f, m)| && p == ItemsBefore(f, m) + PageItems(f, m)[..n]
  {
    var c, before, j: nat :| Within(f, c, before, j, p);
    m :| CursorAt(f, m) == Some(c) && before == ItemsBefore(f, m);
    n := j;
  }

  /** Where the walk has changed an id, but none of its first page and none within a page,
      the changed id is on a page in between. */
  lemma StalePage(f: Remote, p: seq<Item>, m: nat, n: nat) returns (k: nat)
    requires n <= |PageItems(f, m)| && p == ItemsBefore(f, m) + PageItems(f, m)[..n]
    requires Shown(p, PageItems(f, 0)) && !OneHashPerId(p) && OneHashPerId(PageItems(f, m))
    ensures 1 <= k < m && !Shown(p, PageItems(f, k))
  {
    var part := PageItems(f, m)[..n];
    assert OneHashPerId(part);
    EndIsShown(ItemsBefore(f, m), part);
    forall l | |ItemsBefore(f, m)| <= l < |p| ensures LastHash(p, p[l].externalId) == Some(p[l].contentHash) {
      assert p[l] == part[l - |ItemsBefore(f, m)|];
    }
    var j := StaleOnPage(p, p);
    var l;
    k, l := Locate(f, m, j);
    assert PageItems(f, k)[l] == p[j];
  }

  /** Beyond completion too, that is, if the same walk may be gone through again from its
      first page after it has succeeded: every state that any run leads to recovers if and
      only if the walk never changes an id's content. */
  lemma RecoversIffOneHash(f: Remote, limits: Limits, last: nat, s: State, now: int)
    requires limits.maxPages >= 1 && WalkEndsAt(f, limits, last)
    requires Initial(s) && s.db.connector != Disconnected
    requires ProcessAll(limits, s.db.store, ItemsBefore(f, last + 1)).Some?
    ensures EveryRunRecovers(f, limits, s, ProcessAll(limits, s.db.store, ItemsBefore(f, last + 1)).value, now, true)
            <==> OneHashPerId(ItemsBefore(f, last + 1))
  {
    hide ProcessAll, Run.Of, Succeeds, CalmAttempts, Trap, Blocked, WalkEndsAt, OneHashPerId, OneHashWalk;
    var all := ItemsBefore(f, last + 1);
    var target := ProcessAll(limits, s.db.store, all).value;
    if OneHashPerId(all) {
      WholeOneHash(f, limits, last);
      forall run: Run | && run.first == s && run.Of(f, limits)
                        && run.Last().attempt.None? && run.Last().db.connector != Disconnected
        ensures Recovers(f, limits, run.Last().db, target, now)
      {
        var n := AlwaysRecovers(f, limits, last, run, now);
      }
    } else {
      var run, k := ChangeBlocksAgain(f, limits, last, s);
      BlockedNeverRecovers(f, limits, run.Last().db.store, k, run.Last(), target, now);
    }
  }

  lemma WholeOneHash(f: Remote, limits: Limits, last: nat)
    requires WalkEndsAt(f, limits, last) && OneHashPerId(ItemsBefore(f, last + 1))
    ensures OneHashWalk(f)
  {
    WholeWalk(f, last);
    forall p | IsPrefix(f, p) ensures OneHashPerId(p) {
      NothingAfterWhole(f, ItemsBefore(f, last + 1), p);
      assert forall j :: 0 <= j < |p| ==> p[j] == ItemsBefore(f, last + 1)[j];
    }
  }

  /** A completed walk that changed an id is blocked when it is begun again. */
  lemma {:induction false} ChangeBlocksAgain(f: Remote, limits: Limits, last: nat, s: State) returns (run: Run, k: nat)
    requires limits.maxPages >= 1 && WalkEndsAt(f, limits, last)
    requires Initial(s) && s.db.connector != Disconnected
    requires ProcessAll(limits, s.db.store, ItemsBefore(f, last + 1)).Some?
    requires !OneHashPerId(ItemsBefore(f, last + 1))
    ensures run.first == s && run.Of(f, limits) && run.Last().attempt.None?
    ensures run.Last().db.connector != Disconnected
    ensures Trap(f, limits, run.Last().db.store, k) && Blocked(f, limits, run.Last().db.store, k, run.Last())
  {
    hide ProcessAll, Run.Of, Trap, Blocked, WellFormed, CursorAt, ItemsBefore, WalkEndsAt;
    var all := ItemsBefore(f, last + 1);
    FirstCursor(f);
    run := CompletingRun(f, limits, last, s, 0);
    var n := StaleOnPage(all, all);
    var j;
    k, j := Locate(f, last + 1, n);
    BeforeLaterPage(f, k + 1, last + 1);
    PageItemExists(f, k, j);
    TrapAfterPass(f, limits, s.db.store, run.Last().db.store, all, k, j);
    IdleIsBlocked(f, limits, k, run.Last());
  }

  lemma IdleIsBlocked(f: Remote, limits: Limits, k: nat, s: State)
    requires s.attempt.None? && s.db.checkpoint.None?
    ensures Blocked(f, limits, s.db.store, k, s)
  {
    assert CursorAt(f, 0) == Some(None);
  }

  lemma PageItemExists(f: Remote, k: nat, j: nat)
    requires j < |PageItems(f, k)|
    ensures CursorAt(f, k).Some?
  {
  }
}
