/**
Attempts that meet no outside failure, how many of them a walk needs, and recovery:
over a walk that gives each id one hash, every reachable state can be completed.
 */
module SyncProgress {
  import opened Wrappers
  import opened DocumentStore
  import opened Replay
  import opened SyncProtocol
  import opened Traversal
  import opened SyncExact

  // ---------------------------------------------------------------- an undisturbed attempt

  /** The item loop of one page; stops in `Failing` at an item that cannot be stored. */
  function CalmItems(limits: Limits, s: Store, a: Attempt, items: seq<Item>): (r: (Store, Attempt))
    requires a.phase.Working? && a.phase.done <= |items|
    decreases |items| - a.phase.done
  {
    if a.phase.done == |items| then (s, a)
    else
      var x := items[a.phase.done];
      match Process(limits, s, x)
      case Unchanged => CalmItems(limits, s, Skipped(a), items)
      case Inserted(t) => CalmItems(limits, t, Counted(a, x), items)
      case _ => (s, a.(phase := Failing))
  }

  /** The page loop from a state about to fetch. */
  function CalmPages(f: Remote, limits: Limits, db: Durable, a: Attempt, now: int): Durable
    requires a.phase.Fetching? && a.counts.pages <= limits.maxPages
    decreases limits.maxPages - a.counts.pages
  {
    var page := f(a.cursor);
    var b := Fetched(f, limits, a, db.connector);
    if b.phase.Failing? then RecordFailure(db, b)
    else
      var (s, c) := CalmItems(limits, db.store, b, page.items);
      var db' := db.(store := s);
      CalmItemsKeeps(limits, db.store, b, page.items);
      if c.phase.Failing? then RecordFailure(db', Broken(c, db.connector))
      else if !page.hasMore then Finish(db', c, now)
      else CalmPages(f, limits, SaveCheckpoint(db', c, page.nextCursor), Turned(c, page, db.connector), now)
  }

  function CalmAttempt(f: Remote, limits: Limits, db: Durable, resume: bool, now: int): Durable {
    CalmPages(f, limits, OpenJob(db), Begin(db, resume), now)
  }

  /** `n` undisturbed attempts, each accepting the checkpoint. */
  function CalmAttempts(f: Remote, limits: Limits, db: Durable, n: nat, now: int): Durable
    decreases n
  {
    if n == 0 then db else CalmAttempts(f, limits, CalmAttempt(f, limits, db, true, now), n - 1, now)
  }

  lemma {:induction false} CalmItemsKeeps(limits: Limits, s: Store, a: Attempt, items: seq<Item>)
    requires a.phase.Working? && a.phase.done <= |items|
    ensures var c := CalmItems(limits, s, a, items).1;
            && c.job == a.job && c.cursor == a.cursor && c.seen == a.seen && c.cached == a.cached
            && c.counts.pages == a.counts.pages
            && (c.phase.Failing? || c.phase == Working(|items|))
    decreases |items| - a.phase.done
  {
    if a.phase.done < |items| {
      var x := items[a.phase.done];
      match Process(limits, s, x)
      case Unchanged => CalmItemsKeeps(limits, s, Skipped(a), items);
      case Inserted(t) => CalmItemsKeeps(limits, t, Counted(a, x), items);
      case _ =>
    }
  }

  /** The item loop does what one pass over the remaining items does. */
  lemma {:induction false} CalmItemsIsPass(limits: Limits, s: Store, a: Attempt, items: seq<Item>)
    requires a.phase.Working? && a.phase.done <= |items|
    requires ProcessAll(limits, s, items[a.phase.done..]).Some?
    ensures var (t, c) := CalmItems(limits, s, a, items);
            t == ProcessAll(limits, s, items[a.phase.done..]).value && c.phase == Working(|items|)
    decreases |items| - a.phase.done
  {
    if a.phase.done < |items| {
      var x := items[a.phase.done];
      assert items[a.phase.done..] == [x] + items[a.phase.done + 1..];
      PassConcat(limits, s, [x], items[a.phase.done + 1..]);
      assert ProcessAll(limits, s, [x]) == After(s, Process(limits, s, x)) by {
        assert [x][..0] == [];
      }
      match Process(limits, s, x)
      case Unchanged => CalmItemsIsPass(limits, s, Skipped(a), items);
      case Inserted(t) => CalmItemsIsPass(limits, t, Counted(a, x), items);
      case _ =>
    }
  }

  // ---------------------------------------------------------------- how far an attempt gets

  /** The items of pages `k` up to and including `last`. */
  function ItemsFrom(f: Remote, k: nat, last: nat): seq<Item>
    decreases last + 1 - k
  {
    if k > last then []
    else PageItems(f, k) + ItemsFrom(f, k + 1, last)
  }

  /** The walk ends at page `last`, and no page breaks the size cap. */
  ghost predicate WalkEndsAt(f: Remote, limits: Limits, last: nat) {
    && CursorAt(f, last).Some? && !f(CursorAt(f, last).value).hasMore
    && forall k :: 0 <= k <= last && CursorAt(f, k).Some? ==> |f(CursorAt(f, k).value).items| <= limits.maxItems
  }

  /** Pages `k..last` are still to do, and nothing among them is refused. */
  ghost predicate Ready(f: Remote, limits: Limits, last: nat, s: Store, k: nat) {
    k <= last && ProcessAll(limits, s, ItemsFrom(f, k, last)).Some?
  }

  predicate Succeeds(db: Durable, s: Store, now: int) {
    && |db.jobs| > 0 && db.jobs[|db.jobs| - 1].status == Succeeded
    && db.store == s && db.lastSyncedAt == Some(now) && db.checkpoint.None? && db.connector == Active
  }

  predicate Stopped(db: Durable) {
    |db.jobs| > 0 && db.jobs[|db.jobs| - 1].status == Failed && db.connector != Disconnected
  }

  predicate StoppedAt(f: Remote, db: Durable, k: nat) {
    Stopped(db) && CursorAt(f, k) == Some(db.checkpoint)
  }

  /** Cursors behind the current page only. */
  ghost predicate SeenBehind(f: Remote, seen: set<string>, k: nat) {
    forall c :: c in seen ==> exists i: nat :: i <= k && CursorAt(f, i) == Some(Some(c))
  }

  /** A page of a walk that ends passes the contract check while the page cap lasts. */
  lemma PagePasses(f: Remote, limits: Limits, last: nat, a: Attempt, k: nat, connector: ConnectorStatus)
    requires WalkEndsAt(f, limits, last) && k <= last && CursorAt(f, k) == Some(a.cursor)
    requires a.phase.Fetching? && SeenBehind(f, a.seen, k)
    ensures Fetched(f, limits, a, connector).phase ==
            (if a.counts.pages + 1 <= limits.maxPages then Working(0) else Failing)
    ensures f(a.cursor).hasMore <==> k < last
    ensures k < last ==> CursorAt(f, k + 1) == Some(f(a.cursor).nextCursor) && HasNext(f(a.cursor))
  {
    if k < last {
      PagesInOrder(f, k, last);
      if f(a.cursor).nextCursor.value in a.seen {
        var i: nat :| i <= k && CursorAt(f, i) == Some(f(a.cursor).nextCursor);
        CursorsDistinct(f, last, i, k + 1);
      }
    }
  }

  /** From page `k` with `r` pages of budget left the attempt does the rest of the walk
      if it fits, and otherwise exactly `r` pages, leaving the checkpoint there. */
  lemma {:induction false} CalmPagesReach(f: Remote, limits: Limits, last: nat, db: Durable, a: Attempt, k: nat,
                                          now: int)
    requires WalkEndsAt(f, limits, last) && Ready(f, limits, last, db.store, k)
    requires CursorAt(f, k) == Some(a.cursor) && CursorAt(f, k) == Some(db.checkpoint)
    requires a.phase.Fetching? && a.counts.pages <= limits.maxPages && SeenBehind(f, a.seen, k)
    requires db.connector != Disconnected && a.cached == db.connector && a.job == |db.jobs| - 1
    ensures var r := limits.maxPages - a.counts.pages;
            var db' := CalmPages(f, limits, db, a, now);
            var whole := ProcessAll(limits, db.store, ItemsFrom(f, k, last));
            && |db'.jobs| == |db.jobs|
            && if last - k + 1 <= r then Succeeds(db', whole.value, now)
               else StoppedAt(f, db', k + r) && Ready(f, limits, last, db'.store, k + r)
                    && ProcessAll(limits, db'.store, ItemsFrom(f, k + r, last)) == whole
    decreases last - k
  {
    hide ProcessAll, Process, CalmItems, CursorAt, ValidPage;
    var page := f(a.cursor);
    var b := Fetched(f, limits, a, db.connector);
    PagePasses(f, limits, last, a, k, db.connector);
    if b.phase.Working? {
      assert page.items[0..] == page.items;
      PassConcat(limits, db.store, page.items, ItemsFrom(f, k + 1, last));
      CalmItemsIsPass(limits, db.store, b, page.items);
      CalmItemsKeeps(limits, db.store, b, page.items);
      var (s, c) := CalmItems(limits, db.store, b, page.items);
      if k < last {
        var db' := SaveCheckpoint(db.(store := s), c, page.nextCursor);
        var d := Turned(c, page, db.connector);
        forall x | x in d.seen ensures exists i: nat :: i <= k + 1 && CursorAt(f, i) == Some(Some(x)) {
          if x == page.nextCursor.value {
            assert CursorAt(f, k + 1) == Some(Some(x));
          } else {
            var i: nat :| i <= k && CursorAt(f, i) == Some(Some(x));
          }
        }
        CalmPagesReach(f, limits, last, db', d, k + 1, now);
      } else {
        assert ItemsFrom(f, k + 1, last) == [];
        NothingToDo(limits, s, []);
      }
    }
  }

  /** One undisturbed attempt from a checkpoint at page `k`. */
  lemma CalmAttemptReach(f: Remote, limits: Limits, last: nat, db: Durable, k: nat, now: int)
    requires WalkEndsAt(f, limits, last) && Ready(f, limits, last, db.store, k)
    requires CursorAt(f, k) == Some(db.checkpoint) && db.connector != Disconnected
    ensures var db' := CalmAttempt(f, limits, db, true, now);
            var whole := ProcessAll(limits, db.store, ItemsFrom(f, k, last));
            if last - k + 1 <= limits.maxPages then Succeeds(db', whole.value, now)
            else StoppedAt(f, db', k + limits.maxPages) && Ready(f, limits, last, db'.store, k + limits.maxPages)
                 && ProcessAll(limits, db'.store, ItemsFrom(f, k + limits.maxPages, last)) == whole
  {
    hide ProcessAll, CalmPages, WalkEndsAt, ItemsFrom, Succeeds, StoppedAt, CursorAt;
    CalmPagesReach(f, limits, last, OpenJob(db), Begin(db, true), k, now);
  }

  /** The least number of groups of at most `m` that hold `n`. */
  function CeilDiv(n: nat, m: nat): (c: nat)
    requires m > 0
    ensures c == 0 <==> n == 0
  {
    if n == 0 then 0 else if n <= m then 1 else CeilDiv(n - m, m) + 1
  }

  lemma {:induction false} CeilDivIsCeiling(n: nat, m: nat)
    requires m > 0
    ensures CeilDiv(n, m) * m >= n
    ensures n > 0 ==> (CeilDiv(n, m) - 1) * m < n
  {
    if n > m {
      var c := CeilDiv(n - m, m);
      CeilDivIsCeiling(n - m, m);
      assert (c + 1) * m == c * m + m && c * m == (c - 1) * m + m;
    }
  }

  lemma {:induction false} CeilMonotone(a: nat, b: nat, m: nat)
    requires a <= b && 0 < m
    ensures CeilDiv(a, m) <= CeilDiv(b, m)
  {
    if a > m {
      CeilMonotone(a - m, b - m, m);
    }
  }

  /** `n` pages under a cap of `maxPages` per attempt take exactly ceil(n / maxPages)
      attempts: earlier ones stop at the cap with their checkpoint saved, the last one
      succeeds, and together they store what one pass stores. */
  lemma {:induction false} ExactlyCeilAttempts(f: Remote, limits: Limits, last: nat, db: Durable, k: nat,
                                               n: nat, now: int)
    requires limits.maxPages >= 1 && WalkEndsAt(f, limits, last) && Ready(f, limits, last, db.store, k)
    requires CursorAt(f, k) == Some(db.checkpoint) && db.connector != Disconnected
    requires 1 <= n <= CeilDiv(last - k + 1, limits.maxPages)
    ensures var db' := CalmAttempts(f, limits, db, n, now);
            if n == CeilDiv(last - k + 1, limits.maxPages)
            then Succeeds(db', ProcessAll(limits, db.store, ItemsFrom(f, k, last)).value, now)
            else Stopped(db')
    decreases n
  {
    hide ProcessAll, CalmAttempt, CursorAt, WalkEndsAt, ItemsFrom, Succeeds;
    var m := limits.maxPages;
    var db1 := CalmAttempt(f, limits, db, true, now);
    CalmAttemptReach(f, limits, last, db, k, now);
    if last - k + 1 <= m {
      assert n == 1 && CalmAttempts(f, limits, db1, 0, now) == db1;
    } else if n == 1 {
      assert CeilDiv(last - k + 1 - m, m) > 0;
      assert CalmAttempts(f, limits, db1, 0, now) == db1;
    } else {
      ExactlyCeilAttempts(f, limits, last, db1, k + m, n - 1, now);
    }
  }

  // ---------------------------------------------------------------- recovery

  lemma {:induction false} WalkSplits(f: Remote, k: nat, last: nat)
    requires k <= last + 1
    ensures ItemsBefore(f, k) + ItemsFrom(f, k, last) == ItemsBefore(f, last + 1)
    decreases last + 1 - k
  {
    if k <= last {
      WalkSplits(f, k + 1, last);
      assert ItemsBefore(f, k + 1) == ItemsBefore(f, k) + PageItems(f, k);
    }
  }

  /** When a pass has got as far as `high`, what there is to do from an earlier point is
      accepted, and comes to the same as going on from `high`, if what is repeated still
      carries the last content of its ids. */
  lemma RestIsReady(f: Remote, limits: Limits, s0: Store, s: Store, p: seq<Item>, high: seq<Item>, rest: seq<Item>)
    requires WellFormed(s0) && ProcessAll(limits, s0, high) == Some(s)
    requires p <= high && Shown(high, high[|p|..])
    requires high <= p + rest && ProcessAll(limits, s0, p + rest).Some?
    ensures ProcessAll(limits, s, rest) == ProcessAll(limits, s0, p + rest)
  {
    hide ProcessAll, WellFormed, Shown;
    var again := high[|p|..];
    var ahead := rest[|again|..];
    assert high == p + again;
    assert rest == again + ahead && p + rest == high + ahead;
    ShownIsDone(limits, s0, s, high, again);
    PassConcat(limits, s, again, ahead);
    PassConcat(limits, s0, high, ahead);
  }

  /** Recovery: after any run over a one-hash walk that a single pass would complete,
      a bounded number of undisturbed attempts finishes the sync with exactly the store
      of that single pass. */
  lemma AlwaysRecovers(f: Remote, limits: Limits, last: nat, run: Run, now: int) returns (n: nat)
    requires limits.maxPages >= 1 && WalkEndsAt(f, limits, last) && OneHashWalk(f)
    requires Initial(run.first) && run.Of(f, limits)
    requires ProcessAll(limits, run.first.db.store, ItemsBefore(f, last + 1)).Some?
    requires run.Last().attempt.None? && run.Last().db.connector != Disconnected
    ensures 1 <= n <= CeilDiv(last + 1, limits.maxPages)
    ensures Succeeds(CalmAttempts(f, limits, run.Last().db, n, now),
                     ProcessAll(limits, run.first.db.store, ItemsBefore(f, last + 1)).value, now)
  {
    hide ProcessAll, CalmAttempts, CursorAt, WalkEndsAt, ItemsFrom, ItemsBefore, Succeeds;
    hide Exact, OneHashWalk, WellFormed;
    RunKeepsExact(f, limits, run);
    n := RecoversFrom(f, limits, last, run.first.db.store, run.Last(), now);
  }

  lemma RecoversFrom(f: Remote, limits: Limits, last: nat, s0: Store, s: State, now: int) returns (n: nat)
    requires limits.maxPages >= 1 && WalkEndsAt(f, limits, last) && OneHashWalk(f) && WellFormed(s0)
    requires Exact(f, limits, s0, s) && s.attempt.None? && s.db.connector != Disconnected
    requires ProcessAll(limits, s0, ItemsBefore(f, last + 1)).Some?
    ensures 1 <= n <= CeilDiv(last + 1, limits.maxPages)
    ensures Succeeds(CalmAttempts(f, limits, s.db, n, now),
                     ProcessAll(limits, s0, ItemsBefore(f, last + 1)).value, now)
  {
    hide ProcessAll, CalmAttempts, CursorAt, WalkEndsAt, ItemsFrom, ItemsBefore, Succeeds;
    hide Exact, OneHashWalk, WellFormed;
    var k := ReadyAgain(f, limits, last, s0, s);
    n := CeilDiv(last - k + 1, limits.maxPages);
    CeilMonotone(last - k + 1, last + 1, limits.maxPages);
    ExactlyCeilAttempts(f, limits, last, s.db, k, n, now);
  }

  /** The page an idle connector resumes at. */
  lemma ResumePage(f: Remote, limits: Limits, last: nat, s0: Store, s: State, high: seq<Item>) returns (k: nat)
    requires CursorAt(f, last).Some? && !f(CursorAt(f, last).value).hasMore
    requires HighWater(f, limits, s0, s, high)
    ensures k <= last && CursorAt(f, k) == Some(s.db.checkpoint) && ItemsBefore(f, k) <= high
  {
    k := 0;
    if s.db.checkpoint.Some? {
      var p :| PageStart(f, s.db.checkpoint, p) && p <= high;
      var i: nat :| CursorAt(f, i) == Some(s.db.checkpoint) && p == ItemsBefore(f, i);
      k := i;
      if last < k {
        PagesInOrder(f, last, k);
      }
    }
  }

  lemma ReadyAgain(f: Remote, limits: Limits, last: nat, s0: Store, s: State) returns (k: nat)
    requires WalkEndsAt(f, limits, last) && OneHashWalk(f) && WellFormed(s0)
    requires ProcessAll(limits, s0, ItemsBefore(f, last + 1)).Some?
    requires Exact(f, limits, s0, s) && s.attempt.None?
    ensures CursorAt(f, k) == Some(s.db.checkpoint) && Ready(f, limits, last, s.db.store, k)
    ensures ProcessAll(limits, s.db.store, ItemsFrom(f, k, last)) == ProcessAll(limits, s0, ItemsBefore(f, last + 1))
  {
    var high :| HighWater(f, limits, s0, s, high);
    WholeWalk(f, last);
    NothingAfterWhole(f, ItemsBefore(f, last + 1), high);
    k := ResumePage(f, limits, last, s0, s, high);
    OneHashIsShown(high);
    WalkSplits(f, k, last);
    RestIsReady(f, limits, s0, s.db.store, ItemsBefore(f, k), high, ItemsFrom(f, k, last));
  }

  lemma WholeWalk(f: Remote, last: nat)
    requires CursorAt(f, last).Some? && !f(CursorAt(f, last).value).hasMore
    ensures IsWhole(f, ItemsBefore(f, last + 1))
  {
    assert PageStart(f, CursorAt(f, last).value, ItemsBefore(f, last));
  }
}
