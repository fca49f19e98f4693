/**
What a page of items does to the store when it is processed once, and when it is
processed again after a crash. The unique key on content hashes makes replay
idempotent for exactly those segments in which every id has one hash.
 */
module Replay {
  import opened Wrappers
  import opened DocumentStore

  /** One uninterrupted in-order pass; `None` when some item makes it fail. */
  function ProcessAll(limits: Limits, s: Store, items: seq<Item>): Option<Store>
  {
    if |items| == 0 then Some(s)
    else
      match ProcessAll(limits, s, items[..|items| - 1])
      case None => None
      case Some(t) => After(t, Process(limits, t, items[|items| - 1]))
  }

  function After(s: Store, e: Effect): Option<Store> {
    match e
    case Unchanged => Some(s)
    case Inserted(t) => Some(t)
    case Refused => None
    case TooLarge => None
  }

  /** The hash of the last item for `id` in `items`. */
  function LastHash(items: seq<Item>, id: string): Option<string>
  {
    if |items| == 0 then None
    else if items[|items| - 1].externalId == id then Some(items[|items| - 1].contentHash)
    else LastHash(items[..|items| - 1], id)
  }

  /** What a reader of `id` should see once `items` are ingested on top of `s`. */
  function Expected(s: Store, items: seq<Item>, id: string): Option<string> {
    var last := LastHash(items, id);
    if last.Some? then last else LatestHash(s, id)
  }

  predicate Carries(items: seq<Item>, id: string, hash: string) {
    exists i :: 0 <= i < |items| && items[i].externalId == id && items[i].contentHash == hash
  }

  predicate OneHashPerId(items: seq<Item>) {
    forall i, j :: 0 <= i < |items| && 0 <= j < |items| && items[i].externalId == items[j].externalId
      ==> items[i].contentHash == items[j].contentHash
  }

  /** Item `i` fits the limits, and is either what its id already shows at that
      point or content that id has never had. */
  predicate Acceptable(limits: Limits, s: Store, items: seq<Item>, i: nat)
    requires i < |items|
  {
    var x := items[i];
    && x.bytes <= limits.maxBytes && |x.chunks| <= limits.maxChunks
    && (|| Expected(s, items[..i], x.externalId) == Some(x.contentHash)
        || (!Stored(s, x.externalId, x.contentHash) && !Carries(items[..i], x.externalId, x.contentHash)))
  }

  lemma {:induction false} LastHashIsCarried(items: seq<Item>, id: string)
    ensures LastHash(items, id).Some? ==> Carries(items, id, LastHash(items, id).value)
    ensures LastHash(items, id).None? ==> forall i :: 0 <= i < |items| ==> items[i].externalId != id
  {
    if |items| > 0 {
      var n := |items| - 1;
      LastHashIsCarried(items[..n], id);
      if items[n].externalId != id {
        if LastHash(items, id).Some? {
          var i :| 0 <= i < n && items[..n][i].externalId == id
                   && items[..n][i].contentHash == LastHash(items, id).value;
          assert items[i] == items[..n][i];
        } else {
          forall i | 0 <= i < |items| ensures items[i].externalId != id {
            if i < n { assert items[i] == items[..n][i]; }
          }
        }
      }
    }
  }

  lemma CarriesSnoc(items: seq<Item>, id: string, hash: string)
    requires |items| > 0
    ensures var n := |items| - 1;
            Carries(items, id, hash) <==>
            Carries(items[..n], id, hash) || (items[n].externalId == id && items[n].contentHash == hash)
  {
    var n := |items| - 1;
    assert forall i :: 0 <= i < n ==> items[..n][i] == items[i];
  }

  /** A completed pass shows for every id the last content it carried, forgets
      nothing, and stores nothing else. */
  lemma {:induction false} PassResult(limits: Limits, s: Store, items: seq<Item>, id: string, hash: string)
    requires WellFormed(s) && ProcessAll(limits, s, items).Some?
    ensures var t := ProcessAll(limits, s, items).value;
            && WellFormed(t)
            && LatestHash(t, id) == Expected(s, items, id)
            && (Stored(t, id, hash) <==> Stored(s, id, hash) || Carries(items, id, hash))
  {
    if |items| > 0 {
      var n := |items| - 1;
      PassResult(limits, s, items[..n], id, hash);
      PassResult(limits, s, items[..n], items[n].externalId, hash);
      CarriesSnoc(items, id, hash);
      var t := ProcessAll(limits, s, items[..n]).value;
      match Process(limits, t, items[n])
      case Unchanged =>
        LatestIsStored(t, items[n].externalId);
      case Inserted(u) =>
        ProcessKeepsTable(limits, t, items[n]);
        ProcessAppends(limits, t, items[n], id);
        AddKeepsStored(t, items[n], u.documents[|t.documents|].version, id, hash);
      case _ =>
    }
  }

  /** A pass completes exactly when every item is acceptable at its point. */
  lemma {:induction false} PassCompletesIff(limits: Limits, s: Store, items: seq<Item>)
    requires WellFormed(s)
    ensures ProcessAll(limits, s, items).Some? <==> forall i :: 0 <= i < |items| ==> Acceptable(limits, s, items, i)
  {
    if |items| > 0 {
      var n := |items| - 1;
      var front := items[..n];
      PassCompletesIff(limits, s, front);
      forall i | 0 <= i < n ensures Acceptable(limits, s, front, i) <==> Acceptable(limits, s, items, i) {
        assert front[..i] == items[..i];
      }
      assert (forall i :: 0 <= i < |items| ==> Acceptable(limits, s, items, i)) <==>
             (forall i :: 0 <= i < n ==> Acceptable(limits, s, front, i)) && Acceptable(limits, s, items, n);
      if ProcessAll(limits, s, front).Some? {
        PassResult(limits, s, front, items[n].externalId, items[n].contentHash);
      }
    }
  }

  /** Processing on from where a pass stopped is processing the whole. */
  lemma {:induction false} PassConcat(limits: Limits, s: Store, a: seq<Item>, b: seq<Item>)
    ensures ProcessAll(limits, s, a + b) ==
            match ProcessAll(limits, s, a) case None => None case Some(t) => ProcessAll(limits, t, b)
  {
    if |b| == 0 {
      assert a + b == a;
    } else {
      PassConcat(limits, s, a, b[..|b| - 1]);
      assert (a + b)[..|a + b| - 1] == a + b[..|b| - 1];
    }
  }

  /** Items whose content is what their ids already show change nothing. */
  lemma {:induction false} NothingToDo(limits: Limits, t: Store, items: seq<Item>)
    requires forall i :: 0 <= i < |items| ==>
               && LatestHash(t, items[i].externalId) == Some(items[i].contentHash)
               && items[i].bytes <= limits.maxBytes && |items[i].chunks| <= limits.maxChunks
    ensures ProcessAll(limits, t, items) == Some(t)
  {
    if |items| > 0 {
      NothingToDo(limits, t, items[..|items| - 1]);
    }
  }

  /** `items` all carry the last content that `high` gives their ids. */
  predicate Shown(high: seq<Item>, items: seq<Item>) {
    forall i :: 0 <= i < |items| ==> LastHash(high, items[i].externalId) == Some(items[i].contentHash)
  }

  lemma OneHashIsShown(items: seq<Item>)
    requires OneHashPerId(items)
    ensures Shown(items, items)
  {
    forall i | 0 <= i < |items| ensures LastHash(items, items[i].externalId) == Some(items[i].contentHash) {
      LastHashIsCarried(items, items[i].externalId);
    }
  }

  /** After a pass over `high`, repeating any of its items that it still shows changes
      nothing. */
  lemma ShownIsDone(limits: Limits, s0: Store, s: Store, high: seq<Item>, items: seq<Item>)
    requires WellFormed(s0) && ProcessAll(limits, s0, high) == Some(s)
    requires Shown(high, items) && forall i :: 0 <= i < |items| ==> items[i] in high
    ensures ProcessAll(limits, s, items) == Some(s)
  {
    PassCompletesIff(limits, s0, high);
    forall i | 0 <= i < |items|
      ensures && LatestHash(s, items[i].externalId) == Some(items[i].contentHash)
              && items[i].bytes <= limits.maxBytes && |items[i].chunks| <= limits.maxChunks
    {
      var j :| 0 <= j < |high| && high[j] == items[i];
      assert Acceptable(limits, s0, high, j);
      PassResult(limits, s0, high, items[i].externalId, items[i].contentHash);
    }
    NothingToDo(limits, s, items);
  }

  /** If a second pass over `items` completes, every item carries the last hash of
      its id. */
  lemma {:induction false} SecondPassForcesOneHash(limits: Limits, s: Store, t: Store, items: seq<Item>, i: nat)
    requires WellFormed(s) && ProcessAll(limits, s, items) == Some(t)
    requires ProcessAll(limits, t, items).Some? && i < |items|
    ensures LastHash(items, items[i].externalId) == Some(items[i].contentHash)
  {
    var x := items[i];
    PassResult(limits, s, items, x.externalId, x.contentHash);
    PassCompletesIff(limits, t, items);
    assert Acceptable(limits, t, items, i);
    LastHashIsCarried(items, x.externalId);
    LastHashIsCarried(items[..i], x.externalId);
    if LastHash(items[..i], x.externalId).Some? {
      var j :| 0 <= j < i && items[..i][j].externalId == x.externalId && items[..i][j].contentHash == x.contentHash;
      SecondPassForcesOneHash(limits, s, t, items, j);
    }
  }

  /** Replaying a segment after it was processed works exactly when the segment
      gives each id one hash, and then it changes nothing. */
  lemma ReplayIff(limits: Limits, s: Store, items: seq<Item>)
    requires WellFormed(s) && ProcessAll(limits, s, items).Some?
    ensures var t := ProcessAll(limits, s, items).value;
            ProcessAll(limits, t, items) == if OneHashPerId(items) then Some(t) else None
  {
    var t := ProcessAll(limits, s, items).value;
    PassCompletesIff(limits, s, items);
    if OneHashPerId(items) {
      forall i | 0 <= i < |items|
        ensures && LatestHash(t, items[i].externalId) == Some(items[i].contentHash)
                && items[i].bytes <= limits.maxBytes && |items[i].chunks| <= limits.maxChunks
      {
        assert Acceptable(limits, s, items, i);
        PassResult(limits, s, items, items[i].externalId, items[i].contentHash);
        LastHashIsCarried(items, items[i].externalId);
      }
      NothingToDo(limits, t, items);
    } else if ProcessAll(limits, t, items).Some? {
      forall i, j | 0 <= i < |items| && 0 <= j < |items| && items[i].externalId == items[j].externalId
        ensures items[i].contentHash == items[j].contentHash
      {
        SecondPassForcesOneHash(limits, s, t, items, i);
        SecondPassForcesOneHash(limits, s, t, items, j);
      }
    }
  }

  /** A crash after the first `m` items of a segment, followed by the segment from
      its start: the outcome is that of one uninterrupted pass if the `m` items give
      each id one hash, and a failure otherwise. */
  lemma CrashThenReplay(limits: Limits, s: Store, items: seq<Item>, m: nat)
    requires WellFormed(s) && ProcessAll(limits, s, items).Some? && m <= |items|
    ensures ProcessAll(limits, s, items[..m]).Some?
    ensures ProcessAll(limits, ProcessAll(limits, s, items[..m]).value, items) ==
            if OneHashPerId(items[..m]) then ProcessAll(limits, s, items) else None
  {
    assert items == items[..m] + items[m..];
    PassConcat(limits, s, items[..m], items[m..]);
    ReplayIff(limits, s, items[..m]);
    PassConcat(limits, ProcessAll(limits, s, items[..m]).value, items[..m], items[m..]);
  }

  /** The claim that a replayed page is harmless fails for a page that carries one
      id twice: the pass completes, and completes on no second try. */
  lemma ReplayCanFail()
    ensures var a := Item("doc", "hash-a", 1, ["a"]);
            var b := Item("doc", "hash-b", 1, ["b"]);
            var limits := Limits(1, 2, 1024, 1);
            && ProcessAll(limits, Store([], []), [a, b]).Some?
            && ProcessAll(limits, ProcessAll(limits, Store([], []), [a, b]).value, [a, b]).None?
  {
    var a := Item("doc", "hash-a", 1, ["a"]);
    var b := Item("doc", "hash-b", 1, ["b"]);
    var limits := Limits(1, 2, 1024, 1);
    var items := [a, b];
    forall i | 0 <= i < 2 ensures Acceptable(limits, Store([], []), items, i) {
      assert items[..0] == [] && items[..1] == [a];
    }
    PassCompletesIff(limits, Store([], []), items);
    assert items[0].contentHash != items[1].contentHash;
    ReplayIff(limits, Store([], []), items);
  }
}
