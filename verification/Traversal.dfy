/**
The item sequence a frozen remote presents when it is walked from its first page by
following next cursors, and its linear order of prefixes.
 */
module Traversal {
  import opened Wrappers
  import opened DocumentStore
  import opened SyncProtocol

  /** The cursor of page `k`, if the walk gets that far. The first page has no cursor. */
  function CursorAt(f: Remote, k: nat): Option<Option<string>> {
    if k == 0 then Some(None)
    else
      match CursorAt(f, k - 1)
      case None => None
      case Some(c) => if HasNext(f(c)) then Some(f(c).nextCursor) else None
  }

  /** The items of page `k`; none if there is no such page. */
  function PageItems(f: Remote, k: nat): seq<Item> {
    match CursorAt(f, k)
    case None => []
    case Some(c) => f(c).items
  }

  function ItemsBefore(f: Remote, k: nat): seq<Item> {
    if k == 0 then [] else ItemsBefore(f, k - 1) + PageItems(f, k - 1)
  }

  /** `c` is the cursor of a page of the walk, and `before` the items of all earlier pages. */
  ghost predicate PageStart(f: Remote, c: Option<string>, before: seq<Item>) {
    exists k: nat :: CursorAt(f, k) == Some(c) && before == ItemsBefore(f, k)
  }

  ghost predicate Within(f: Remote, c: Option<string>, before: seq<Item>, j: nat, p: seq<Item>) {
    PageStart(f, c, before) && j <= |f(c).items| && p == before + f(c).items[..j]
  }

  /** `p` is what the walk has presented at some point. */
  ghost predicate IsPrefix(f: Remote, p: seq<Item>) {
    exists c, before, j: nat :: Within(f, c, before, j, p)
  }

  /** `all` is the whole walk, which ended at a page without a successor. */
  ghost predicate IsWhole(f: Remote, all: seq<Item>) {
    exists c, before :: PageStart(f, c, before) && !f(c).hasMore && all == before + f(c).items
  }

  lemma FirstPage(f: Remote)
    ensures PageStart(f, None, []) && IsPrefix(f, [])
  {
    assert CursorAt(f, 0) == Some(None) && ItemsBefore(f, 0) == [];
    assert Within(f, None, [], 0, []);
  }

  lemma NextPage(f: Remote, c: Option<string>, before: seq<Item>)
    requires PageStart(f, c, before) && HasNext(f(c))
    ensures PageStart(f, f(c).nextCursor, before + f(c).items)
  {
    var k: nat :| CursorAt(f, k) == Some(c) && before == ItemsBefore(f, k);
    assert CursorAt(f, k + 1) == Some(f(c).nextCursor);
    assert ItemsBefore(f, k + 1) == before + f(c).items;
  }

  lemma {:induction false} PagesInOrder(f: Remote, k: nat, m: nat)
    requires k < m && CursorAt(f, m).Some?
    ensures CursorAt(f, k).Some? && HasNext(f(CursorAt(f, k).value))
    ensures ItemsBefore(f, k) + f(CursorAt(f, k).value).items <= ItemsBefore(f, m)
    decreases m
  {
    if k < m - 1 {
      PagesInOrder(f, k, m - 1);
    }
  }

  lemma TakeOrdered(b: seq<Item>, xs: seq<Item>, j: nat, l: nat)
    requires j <= l <= |xs|
    ensures b + xs[..j] <= b + xs[..l]
  {
    assert xs[..l][..j] == xs[..j];
  }

  /** A point of page `k` comes no later than the start of any later page. */
  lemma PointBeforeLaterPage(f: Remote, k: nat, m: nat, j: nat, p: seq<Item>, q: seq<Item>)
    requires k < m && CursorAt(f, m).Some? && CursorAt(f, k).Some?
    requires j <= |f(CursorAt(f, k).value).items|
    requires p == ItemsBefore(f, k) + f(CursorAt(f, k).value).items[..j]
    requires ItemsBefore(f, m) <= q
    ensures p <= q && HasNext(f(CursorAt(f, k).value))
  {
    PagesInOrder(f, k, m);
    var xs := f(CursorAt(f, k).value).items;
    TakeOrdered(ItemsBefore(f, k), xs, j, |xs|);
    assert xs[..|xs|] == xs;
  }

  /** Any two points of the walk are comparable. */
  lemma Linear(f: Remote, p: seq<Item>, q: seq<Item>)
    requires IsPrefix(f, p) && IsPrefix(f, q)
    ensures p <= q || q <= p
  {
    hide CursorAt, ItemsBefore;
    var c, b, j: nat :| Within(f, c, b, j, p);
    var d, e, l: nat :| Within(f, d, e, l, q);
    var k: nat :| CursorAt(f, k) == Some(c) && b == ItemsBefore(f, k);
    var m: nat :| CursorAt(f, m) == Some(d) && e == ItemsBefore(f, m);
    if k < m {
      PointBeforeLaterPage(f, k, m, j, p, q);
    } else if m < k {
      PointBeforeLaterPage(f, m, k, l, q, p);
    } else if j <= l {
      TakeOrdered(b, f(c).items, j, l);
    } else {
      TakeOrdered(b, f(c).items, l, j);
    }
  }

  /** Nothing lies beyond the last page. */
  lemma NothingAfterWhole(f: Remote, all: seq<Item>, q: seq<Item>)
    requires IsWhole(f, all) && IsPrefix(f, q)
    ensures q <= all && IsPrefix(f, all)
  {
    hide CursorAt, ItemsBefore;
    var c, b :| PageStart(f, c, b) && !f(c).hasMore && all == b + f(c).items;
    var xs := f(c).items;
    assert xs == xs[..|xs|];
    assert Within(f, c, b, |xs|, all);
    var k: nat :| CursorAt(f, k) == Some(c) && b == ItemsBefore(f, k);
    var d, e, l: nat :| Within(f, d, e, l, q);
    var m: nat :| CursorAt(f, m) == Some(d) && e == ItemsBefore(f, m);
    if k < m {
      PointBeforeLaterPage(f, k, m, 0, b + xs[..0], q);
    } else if m < k {
      PointBeforeLaterPage(f, m, k, l, q, all);
    } else {
      TakeOrdered(b, xs, l, |xs|);
    }
  }

  /** A walk that ends never shows a cursor twice. */
  lemma {:induction false} CursorsDistinct(f: Remote, last: nat, i: nat, j: nat)
    requires CursorAt(f, last).Some? && !f(CursorAt(f, last).value).hasMore
    requires i < j <= last
    ensures CursorAt(f, i) != CursorAt(f, j)
    decreases last - j
  {
    if j < last {
      PagesInOrder(f, i, last);
      PagesInOrder(f, j, last);
      CursorsDistinct(f, last, i + 1, j + 1);
    } else {
      PagesInOrder(f, i, last);
    }
  }
}
