/**
The ingestion worker as imperative code over a database session: the per-item
transaction with its connection retries, the page loop, and the recording of failures.
Every attempt is shown to be a run of the step machine of SyncProtocol, and every state
it ever made durable, hence every state a crash can leave, is a state of that run.

Outcomes of the outside world are arbitrary (`*`), and another session may disconnect the
connector between any two steps. With `calm` all outcomes are favourable and nobody else is
at work.
 */
module SyncWorker {
  import opened Wrappers
  import opened DocumentStore
  import opened SyncProtocol
  import opened SyncProgress

  const MAX_FETCH_TRANSPORT_RETRIES := 3
  const MAX_ITEM_CONNECTION_RETRIES := 3
  const MAX_FAILURE_RECORD_RETRIES := 3

  /** A commit can be lost, or land while the client is told that it failed. */
  datatype CommitResult = Acknowledged | LandedButFailed | Lost

  /** One database session: what is durable, and what the open transaction sees. */
  class Session {
    var committed: Durable
    var pending: Durable
    /** Every durable state since the attempt began, oldest first. */
    ghost var log: seq<Durable>

    constructor (db: Durable)
      ensures committed == db && pending == db && log == []
    {
      committed, pending, log := db, db, [];
    }

    method Commit(calm: bool) returns (r: CommitResult)
      modifies this
      ensures pending == old(pending)
      ensures r != Lost ==> committed == old(pending) && log == old(log) + [committed]
      ensures r == Lost ==> committed == old(committed) && log == old(log)
      ensures calm ==> r == Acknowledged
    {
      var lost: bool, told: bool := *, *;
      if calm {
        lost, told := false, true;
      }
      if lost {
        return Lost;
      }
      committed := pending;
      log := log + [committed];
      return if told then Acknowledged else LandedButFailed;
    }

    method Rollback()
      modifies this`pending
      ensures pending == committed
    {
      pending := committed;
    }

    /** Another session may disconnect the connector here. A transaction that has written
        nothing sees it, but what has been read of the row before is not read again. */
    method Elsewhere(calm: bool) returns (disconnected: bool)
      requires pending == committed
      modifies this
      ensures pending == committed
      ensures disconnected ==> committed == old(committed).(connector := Disconnected) && log == old(log) + [committed]
      ensures !disconnected ==> committed == old(committed) && log == old(log)
      ensures calm ==> !disconnected
    {
      disconnected := *;
      if calm {
        disconnected := false;
      }
      if disconnected {
        committed := committed.(connector := Disconnected);
        pending, log := committed, log + [committed];
      }
    }
  }

  // ---------------------------------------------------------------- fetching

  datatype FetchError = Transport | HttpStatus(code: nat) | OtherError

  predicate Retryable(e: FetchError) {
    e.Transport? || (e.HttpStatus? && e.code in {408, 425, 429, 500, 502, 503, 504})
  }

  /** A lost connection is tried again, and of the HTTP statuses exactly a timeout, a conflict
      of timing, too many requests, and the server errors 500 to 504 but 501. */
  lemma RetryableIff(e: FetchError)
    ensures Retryable(e) <==>
              match e
              case Transport => true
              case HttpStatus(c) => c == 408 || c == 425 || c == 429 || (500 <= c < 505 && c != 501)
              case OtherError => false
  {
  }

  /** A page, or the error that ends the fetch: a permanent one at once, a transient one
      after three calls. */
  method FetchBatchWithRetry(f: Remote, cursor: Option<string>, calm: bool)
    returns (page: Option<Page>, error: FetchError, calls: nat)
    ensures page.Some? ==> page.value == f(cursor)
    ensures calm ==> page.Some?
    ensures 1 <= calls <= 3 && (page.None? ==> !Retryable(error) || calls == 3)
  {
    calls, page, error := 0, None, OtherError;
    while true
      invariant calls < MAX_FETCH_TRANSPORT_RETRIES
      decreases MAX_FETCH_TRANSPORT_RETRIES - calls
    {
      calls := calls + 1;
      var ok: bool := *;
      if calm || ok {
        return Some(f(cursor)), error, calls;
      }
      error := *;
      if !Retryable(error) || calls == MAX_FETCH_TRANSPORT_RETRIES {
        return;
      }
    }
  }

  // ---------------------------------------------------------------- one item

  datatype ItemTry = NoChange | Written | Interrupted | Rejected

  /** Processing in the open transaction; an exception can strike between any two
      statements and leave a half-written transaction behind. */
  method ProcessOneItem(session: Session, limits: Limits, item: Item, calm: bool) returns (t: ItemTry)
    modifies session`pending
    ensures var e := Process(limits, old(session.pending.store), item);
            && (t == NoChange ==> e == Unchanged && session.pending == old(session.pending))
            && (t == Written ==> e.Inserted? && session.pending == old(session.pending).(store := e.store))
            && (t == Rejected ==> e == Refused || e == TooLarge)
            && (calm ==> t == match e case Unchanged => NoChange case Inserted(_) => Written case _ => Rejected)
  {
    var strike: seq<bool> := *;
    if calm || |strike| != 4 {
      strike := [false, false, false, false];
    }
    if strike[0] { return Interrupted; }
    if item.bytes > limits.maxBytes || |item.chunks| > limits.maxChunks {
      return Rejected;
    }
    var s := session.pending.store;
    var existing := Latest(s.documents, item.externalId);
    if strike[1] { return Interrupted; }
    if existing.Some? && existing.value.contentHash == item.contentHash {
      return NoChange;
    }
    var version := if existing.Some? then existing.value.version + 1 else 1;
    if Stored(s, item.externalId, item.contentHash) {
      return Rejected;
    }
    var row := Document(item.externalId, item.contentHash, version);
    session.pending := session.pending.(store := s.(documents := s.documents + [row]));
    if strike[2] { return Interrupted; }
    var rows := ChunkRows(|s.documents|, item.chunks);
    session.pending := session.pending.(store := session.pending.store.(chunks := s.chunks + rows));
    if strike[3] { return Interrupted; }
    return Written;
  }

  datatype ItemOutcome = Processed | AlreadyThere | Raised

  lemma AddedIsUnchanged(limits: Limits, s: Store, item: Item)
    requires WellFormed(s) && Process(limits, s, item).Inserted?
    ensures Process(limits, Process(limits, s, item).store, item).Unchanged?
  {
    ProcessAppends(limits, s, item, item.externalId);
  }

  /** At most once: however the three tries end, including a commit that landed although
      it was reported lost, at most one version of the item is added, with all of its
      chunks; `Processed` is reported only for a version this call committed, and
      `AlreadyThere` only when the item is what its id shows. With `expired` there was a
      rollback, after which what was read of the connector's row is read again. */
  method ProcessOneItemWithRetry(session: Session, limits: Limits, item: Item, calm: bool)
    returns (o: ItemOutcome, expired: bool, tries: nat)
    requires session.pending == session.committed && WellFormed(session.committed.store)
    modifies session
    ensures var e := Process(limits, old(session.committed.store), item);
            && (|| (session.committed == old(session.committed) && session.log == old(session.log))
                || (&& e.Inserted? && session.committed == old(session.committed).(store := e.store)
                    && session.log == old(session.log) + [session.committed]))
            && (o == Processed ==> e.Inserted? && session.committed == old(session.committed).(store := e.store))
            && (o == AlreadyThere ==> Process(limits, session.committed.store, item).Unchanged?)
            && (o != Raised ==> session.pending == session.committed)
            && (calm ==> o == match e case Unchanged => AlreadyThere case Inserted(_) => Processed case _ => Raised)
            && (calm && o != Processed ==> session.committed == old(session.committed))
            && (calm ==> !expired)
            && 1 <= tries <= 3 && (tries > 1 ==> expired)
  {
    ghost var before := session.committed;
    ghost var e := Process(limits, before.store, item);
    if e.Inserted? {
      AddedIsUnchanged(limits, before.store, item);
    }
    var attempt := 0;
    expired, tries := false, 0;
    while true
      invariant attempt < MAX_ITEM_CONNECTION_RETRIES && (expired <==> attempt > 0)
      invariant calm ==> attempt == 0 && session.committed == before
      invariant session.pending == session.committed
      invariant || (session.committed == before && session.log == old(session.log))
                || (&& e.Inserted? && session.committed == before.(store := e.store)
                    && session.log == old(session.log) + [session.committed])
      decreases MAX_ITEM_CONNECTION_RETRIES - attempt
    {
      tries := attempt + 1;
      var tried := ProcessOneItem(session, limits, item, calm);
      var retryable: bool := *;
      if tried == NoChange {
        return AlreadyThere, expired, tries;
      } else if tried == Written {
        var c := session.Commit(calm);
        var contextRestored: bool := *;
        if c == Acknowledged && (calm || contextRestored) {
          return Processed, expired, tries;
        }
      } else if tried == Rejected {
        retryable := false;
      }
      if calm || !retryable || attempt == MAX_ITEM_CONNECTION_RETRIES - 1 {
        return Raised, expired, tries;
      }
      session.Rollback();
      expired := true;
      var contextRestored: bool := *;
      if !contextRestored {
        return Raised, expired, tries;
      }
      attempt := attempt + 1;
    }
  }

  // ---------------------------------------------------------------- one attempt

  /** `d` is the durable part of some state of `run`. */
  ghost predicate Appears(run: Run, d: Durable) {
    run.first.db == d || exists i :: 0 <= i < |run.rest| && run.rest[i].1.db == d
  }

  /** The worker's records of an attempt agree: the run ends where session and attempt
      stand, and everything ever made durable appears in it. */
  ghost predicate Faithful(f: Remote, limits: Limits, run: Run, first: Durable, a: Option<Attempt>,
                           committed: Durable, log: seq<Durable>) {
    && run.first == State(first, None) && run.Of(f, limits)
    && run.Last() == State(committed, a)
    && forall i :: 0 <= i < |log| ==> Appears(run, log[i])
  }

  /** Extending the run by one step, and the log by what that step made durable. */
  lemma Extend(f: Remote, limits: Limits, run: Run, first: Durable, a: Option<Attempt>, committed: Durable,
               log: seq<Durable>, event: Event, s': State, log': seq<Durable>)
    requires Faithful(f, limits, run, first, a, committed, log)
    requires Next(f, limits, State(committed, a), event, s')
    requires log' == log || log' == log + [s'.db]
    ensures Faithful(f, limits, run.Then(event, s'), first, s'.attempt, s'.db, log')
  {
    var r := run.Then(event, s');
    run.ThenIsRun(f, limits, event, s');
    assert r.rest[|run.rest|].1.db == s'.db;
    forall i | 0 <= i < |log'| ensures Appears(r, log'[i]) {
      if i < |log| {
        assert Appears(run, log[i]);
        if run.first.db != log[i] {
          var j :| 0 <= j < |run.rest| && run.rest[j].1.db == log[i];
          assert r.rest[j] == run.rest[j];
        }
      }
    }
  }

  /** A point between two steps, where another session may get in. */
  method Between(session: Session, f: Remote, limits: Limits, a: Attempt, calm: bool, ghost first: Durable,
                 ghost run0: Run)
    returns (ghost run: Run)
    requires session.pending == session.committed
    requires Faithful(f, limits, run0, first, Some(a), session.committed, session.log)
    modifies session
    ensures Faithful(f, limits, run, first, Some(a), session.committed, session.log)
    ensures session.pending == session.committed && MaybeDisconnected(old(session.committed), session.committed)
    ensures calm ==> session.committed == old(session.committed)
  {
    hide Faithful;
    ghost var db, log := session.committed, session.log;
    run := run0;
    var disconnected := session.Elsewhere(calm);
    if disconnected {
      Extend(f, limits, run0, first, Some(a), db, log, Disconnect, State(session.committed, Some(a)), session.log);
      run := run0.Then(Disconnect, State(session.committed, Some(a)));
    }
  }

  /** Nothing but a disconnect has happened. */
  predicate MaybeDisconnected(before: Durable, after: Durable) {
    after == before || after == before.(connector := Disconnected)
  }

  /** The session reads the connector's row, after a rollback. */
  ghost method Reread(f: Remote, limits: Limits, a0: Attempt, first: Durable, run0: Run, committed: Durable,
                      log: seq<Durable>)
    returns (run: Run)
    requires Faithful(f, limits, run0, first, Some(a0), committed, log)
    ensures Faithful(f, limits, run, first, Some(a0.(cached := committed.connector)), committed, log)
  {
    var next := State(committed, Some(a0.(cached := committed.connector)));
    Extend(f, limits, run0, first, Some(a0), committed, log, Refresh, next, log);
    run := run0.Then(Refresh, next);
  }

  /** The item loop of one page. */
  method ProcessPage(session: Session, f: Remote, limits: Limits, a0: Attempt, calm: bool,
                     ghost first: Durable, ghost run0: Run)
    returns (a: Attempt, expired: bool, ghost run: Run)
    requires session.pending == session.committed && WellFormed(session.committed.store)
    requires a0.phase == Working(0)
    requires Faithful(f, limits, run0, first, Some(a0), session.committed, session.log)
    modifies session
    ensures Faithful(f, limits, run, first, Some(a), session.committed, session.log)
    ensures WellFormed(session.committed.store)
    ensures a.phase.Failing? || (PageDone(f, a) && session.pending == session.committed)
    ensures a.job == a0.job && a.cursor == a0.cursor && a.seen == a0.seen && a.counts.pages == a0.counts.pages
    ensures calm ==>
      var (t, c) := CalmItems(limits, old(session.committed.store), a0, f(a0.cursor).items);
      && session.committed == old(session.committed).(store := t) && !expired
      && a == if c.phase.Failing? then Broken(c, session.committed.connector) else c
  {
    hide Faithful, Stored, Latest, WellFormed;
    a, expired, run := a0, false, run0;
    var items := f(a0.cursor).items;
    ghost var target := CalmItems(limits, session.committed.store, a0, items);
    while a.phase.Working? && a.phase.done < |items|
      invariant WellFormed(session.committed.store)
      invariant a.job == a0.job && a.cursor == a0.cursor && a.seen == a0.seen && a.counts.pages == a0.counts.pages
      invariant || a.phase.Failing?
                || (a.phase.Working? && a.phase.done <= |items| && session.pending == session.committed)
      invariant Faithful(f, limits, run, first, Some(a), session.committed, session.log)
      invariant calm ==> session.committed == old(session.committed).(store := session.committed.store) && !expired
      invariant calm && a.phase.Working? ==> CalmItems(limits, session.committed.store, a, items) == target
      invariant calm && a.phase.Failing? ==>
        && session.committed.store == target.0 && target.1.phase.Failing?
        && a == Broken(target.1, session.committed.connector)
      decreases if a.phase.Working? then |items| + 1 - a.phase.done else 0
    {
      run := Between(session, f, limits, a, calm, first, run);
      var again;
      a, again, run := OneItem(session, f, limits, a, calm, first, run);
      expired := expired || again;
    }
  }

  /** One item of the page. */
  method OneItem(session: Session, f: Remote, limits: Limits, a0: Attempt, calm: bool,
                 ghost first: Durable, ghost run0: Run)
    returns (a: Attempt, expired: bool, ghost run: Run)
    requires session.pending == session.committed && WellFormed(session.committed.store) && HasItem(f, a0)
    requires Faithful(f, limits, run0, first, Some(a0), session.committed, session.log)
    modifies session
    ensures Faithful(f, limits, run, first, Some(a), session.committed, session.log)
    ensures WellFormed(session.committed.store)
    ensures session.committed == old(session.committed).(store := session.committed.store)
    ensures a.job == a0.job && a.cursor == a0.cursor && a.seen == a0.seen && a.counts.pages == a0.counts.pages
    ensures a.phase.Failing? || (a.phase == Working(a0.phase.done + 1) && session.pending == session.committed)
    ensures calm ==>
      && !expired
      && match Process(limits, old(session.committed.store), f(a0.cursor).items[a0.phase.done])
         case Unchanged => a == Skipped(a0) && session.committed.store == old(session.committed.store)
         case Inserted(t) => a == Counted(a0, f(a0.cursor).items[a0.phase.done]) && session.committed.store == t
         case _ => a == Broken(a0, session.committed.connector)
                   && session.committed.store == old(session.committed.store)
  {
    hide Faithful, Stored, Latest, WellFormed;
    a, run := a0, run0;
    var x := f(a0.cursor).items[a0.phase.done];
    var db := session.committed;
    ghost var log := session.log;
    var o, tries;
    o, expired, tries := ProcessOneItemWithRetry(session, limits, x, calm);
    if session.committed != db || o == Processed {
      ProcessKeepsTable(limits, db.store, x);
    }
    if o == Processed {
      a := Counted(a, x);
      Extend(f, limits, run, first, Some(a0), db, log, ItemCommit, State(session.committed, Some(a)), session.log);
      run := run.Then(ItemCommit, State(session.committed, Some(a)));
    } else {
      var landed := session.committed != db;
      if landed {
        a := Landed(a, x);
        Extend(f, limits, run, first, Some(a0), db, log, ItemLanded, State(session.committed, Some(a)), session.log);
        run := run.Then(ItemLanded, State(session.committed, Some(a)));
      }
      var b := if o == AlreadyThere then Skipped(a) else Broken(a, session.committed.connector);
      ghost var event := if o == AlreadyThere then ItemSkip else Fail;
      ghost var next := State(session.committed, Some(b));
      Extend(f, limits, run, first, Some(a), session.committed, session.log, event, next, session.log);
      run := run.Then(event, next);
      a := b;
    }
  }

  /** Recording a failure: on the attempt's own session, then on up to three fresh ones.
      The record may be written several times, or never; it moves neither the store nor the
      checkpoint nor the sync time, whatever another session does meanwhile. */
  method RecordFailureWithRetry(session: Session, f: Remote, limits: Limits, a0: Attempt, calm: bool,
                                ghost first: Durable, ghost run0: Run)
    returns (recorded: bool, a: Attempt, tries: nat, ghost run: Run)
    requires a0.phase.Failing?
    requires Faithful(f, limits, run0, first, Some(a0), session.committed, session.log)
    modifies session
    ensures a == a0.(cached := a.cached) && 1 <= tries <= 4
    ensures Faithful(f, limits, run, first, Some(a), session.committed, session.log)
    ensures session.committed ==
            old(session.committed).(jobs := session.committed.jobs, connector := session.committed.connector)
    ensures session.committed.jobs in {old(session.committed.jobs), RecordFailure(old(session.committed), a0).jobs}
    ensures recorded ==> session.committed.jobs == RecordFailure(old(session.committed), a0).jobs
    ensures session.committed.connector in {old(session.committed.connector), Error, Disconnected}
    ensures calm ==> recorded && session.committed ==
                                 RecordFailure(old(session.committed), Broken(a0, old(session.committed.connector)))
  {
    hide Faithful;
    a, run, recorded := a0, run0, false;
    ghost var db := session.committed;
    tries := 0;
    while tries <= MAX_FAILURE_RECORD_RETRIES && !recorded
      invariant a == a0.(cached := a.cached) && tries <= 4 && (!recorded || tries > 0)
      invariant Faithful(f, limits, run, first, Some(a), session.committed, session.log)
      invariant session.committed == db.(jobs := session.committed.jobs, connector := session.committed.connector)
      invariant session.committed.jobs in {db.jobs, RecordFailure(db, a0).jobs}
      invariant session.committed.connector in {db.connector, Error, Disconnected}
      invariant recorded ==> session.committed.jobs == RecordFailure(db, a0).jobs
      invariant calm ==> if recorded then session.committed == RecordFailure(db, Broken(a0, db.connector))
                         else tries == 0 && session.committed == db
    {
      RecordsSame(db, session.committed, a0);
      var c;
      c, a, run := RecordOnce(session, f, limits, a, calm, first, run);
      recorded := c == Acknowledged;
      tries := tries + 1;
    }
  }

  /** Recording twice is recording once. */
  lemma RecordsSame(db: Durable, now: Durable, a: Attempt)
    requires now.jobs == db.jobs || now.jobs == RecordFailure(db, a).jobs
    ensures RecordFailure(now, a).jobs == RecordFailure(db, a).jobs
  {
  }

  /** One try: what the session then reads of the connector may be outdated when it writes. */
  method RecordOnce(session: Session, f: Remote, limits: Limits, a0: Attempt, calm: bool,
                    ghost first: Durable, ghost run0: Run)
    returns (c: CommitResult, a: Attempt, ghost run: Run)
    requires a0.phase.Failing?
    requires Faithful(f, limits, run0, first, Some(a0), session.committed, session.log)
    modifies session
    ensures a == a0.(cached := a.cached)
    ensures Faithful(f, limits, run, first, Some(a), session.committed, session.log)
    ensures session.committed ==
            old(session.committed).(jobs := session.committed.jobs, connector := session.committed.connector)
    ensures session.committed.jobs ==
            if c == Lost then old(session.committed.jobs) else RecordFailure(old(session.committed), a0).jobs
    ensures session.committed.connector in {old(session.committed.connector), Error, Disconnected}
    ensures calm ==> c == Acknowledged
    ensures calm ==> session.committed ==
                     RecordFailure(old(session.committed), Broken(a0, old(session.committed.connector)))
  {
    hide Faithful;
    session.Rollback();
    run := Between(session, f, limits, a0, calm, first, run0);
    a := a0.(cached := session.committed.connector);
    run := Reread(f, limits, a0, first, run, session.committed, session.log);
    run := Between(session, f, limits, a, calm, first, run);
    ghost var was, log := session.committed, session.log;
    session.pending := RecordFailure(session.pending, a);
    c := session.Commit(calm);
    if c != Lost {
      var b := Broken(a, session.committed.connector);
      Extend(f, limits, run, first, Some(a), was, log, Record, State(session.committed, Some(b)), session.log);
      run := run.Then(Record, State(session.committed, Some(b)));
      a := b;
    }
  }

  /** The commit that ends a page: the checkpoint of the next one, or success. `was` is what
      it found in the database, and `b` the attempt with what it had read of the connector. */
  method EndPage(session: Session, f: Remote, limits: Limits, a0: Attempt, expired: bool, now: int, calm: bool,
                 ghost first: Durable, ghost run0: Run)
    returns (a: Option<Attempt>, b: Attempt, ghost run: Run, ghost was: Durable)
    requires session.pending == session.committed && PageDone(f, a0) && (calm ==> !expired)
    requires f(a0.cursor).hasMore ==> HasNext(f(a0.cursor))
    requires Faithful(f, limits, run0, first, Some(a0), session.committed, session.log)
    modifies session
    ensures Faithful(f, limits, run, first, a, session.committed, session.log)
    ensures MaybeDisconnected(old(session.committed), was) && session.committed.store == was.store
    ensures b == a0.(cached := b.cached)
    ensures if expired then b.cached in {old(session.committed.connector), was.connector} else b == a0
    ensures calm ==> was == old(session.committed)
    ensures a.None? ==> !f(a0.cursor).hasMore && session.committed == Finish(was, b, now)
    ensures a.Some? ==> a.value.phase.Failing?
                        || (&& f(a0.cursor).hasMore && a.value == Turned(b, f(a0.cursor), was.connector)
                            && session.pending == session.committed
                            && session.committed == SaveCheckpoint(was, b, f(a0.cursor).nextCursor))
    ensures calm ==> (a.None? <==> !f(a0.cursor).hasMore) && (a.Some? ==> !a.value.phase.Failing?)
    ensures a.None? ==> |run.rest| > 0 && run.rest[|run.rest| - 1].0 == Complete(now)
  {
    hide Faithful;
    var page := f(a0.cursor);
    run := Between(session, f, limits, a0, calm, first, run0);
    b := a0;
    if expired {
      b := b.(cached := session.committed.connector);
      run := Reread(f, limits, a0, first, run, session.committed, session.log);
    }
    run := Between(session, f, limits, b, calm, first, run);
    was := session.committed;
    ghost var log := session.log;
    if page.hasMore {
      session.pending := SaveCheckpoint(session.pending, b, page.nextCursor);
    } else {
      session.pending := Finish(session.pending, b, now);
    }
    var c := session.Commit(calm);
    ghost var event;
    if c == Acknowledged {
      a := if page.hasMore then Some(Turned(b, page, session.committed.connector)) else None;
      event := if page.hasMore then Turn else Complete(now);
    } else {
      a := Some(Broken(b, session.committed.connector));
      event := if c == Lost then Fail else if page.hasMore then TurnLanded else CompleteLanded(now);
    }
    Extend(f, limits, run, first, Some(b), was, log, event, State(session.committed, a), session.log);
    run := run.Then(event, State(session.committed, a));
  }

  /** One round of the page loop: fetch, check, process, and commit the page's end. The
      result is the attempt about to fetch again, a failing attempt, or success. */
  method RunPage(session: Session, f: Remote, limits: Limits, a0: Attempt, now: int, calm: bool,
                 ghost first: Durable, ghost run0: Run)
    returns (a: Option<Attempt>, ghost run: Run)
    requires session.pending == session.committed && WellFormed(session.committed.store)
    requires a0.phase.Fetching? && a0.counts.pages <= limits.maxPages
    requires Faithful(f, limits, run0, first, Some(a0), session.committed, session.log)
    modifies session
    ensures Faithful(f, limits, run, first, a, session.committed, session.log)
    ensures WellFormed(session.committed.store)
    ensures a.None? ==> |run.rest| > 0 && run.rest[|run.rest| - 1].0 == Complete(now)
    ensures a.Some? && !a.value.phase.Failing? ==>
      && a.value.phase.Fetching? && session.pending == session.committed
      && a.value.counts.pages == a0.counts.pages + 1 <= limits.maxPages
    ensures a.Some? && a.value.phase.Failing? && calm ==> a.value == Broken(a.value, session.committed.connector)
    ensures calm ==>
      CalmPages(f, limits, old(session.committed), a0, now) ==
      (if a.None? then session.committed
       else if a.value.phase.Failing? then RecordFailure(session.committed, a.value)
       else CalmPages(f, limits, session.committed, a.value, now))
  {
    hide Faithful, WellFormed, CalmItems;
    run := Between(session, f, limits, a0, calm, first, run0);
    var page, _, _ := FetchBatchWithRetry(f, a0.cursor, calm);
    var b := if page.None? then Broken(a0, session.committed.connector)
             else Fetched(f, limits, a0, session.committed.connector);
    ghost var event := if page.None? then Fail else Fetch;
    ghost var next := State(session.committed, Some(b));
    Extend(f, limits, run, first, Some(a0), session.committed, session.log, event, next, session.log);
    run := run.Then(event, next);
    a := Some(b);
    if b.phase.Working? {
      var c, expired;
      c, expired, run := ProcessPage(session, f, limits, b, calm, first, run);
      a := Some(c);
      if c.phase.Working? {
        ghost var was;
        var d;
        a, d, run, was := EndPage(session, f, limits, c, expired, now, calm, first, run);
      }
    }
  }

  /** The commit that opens the job row; `None` when the attempt does not get started. It
      touches no row that a disconnect touches, so a disconnect between the check of the
      connector's status and this commit can be taken to come right after it. */
  method OpenAttempt(session: Session, f: Remote, limits: Limits, resume: bool, calm: bool)
    returns (a: Option<Attempt>, ghost run: Run)
    requires session.pending == session.committed && session.log == []
    requires session.committed.connector != Disconnected
    modifies session
    ensures Faithful(f, limits, run, old(session.committed), a, session.committed, session.log)
    ensures a.Some? ==>
      && a.value == Begin(old(session.committed), resume)
      && session.committed == session.pending == OpenJob(old(session.committed))
    ensures session.committed.store == old(session.committed.store)
    ensures calm ==> a.Some?
  {
    ghost var first := session.committed;
    run := Run(State(first, None), []);
    var begun := Begin(session.pending, resume);
    session.pending := session.pending.(jobs := Recover(session.pending.jobs) + [Job(Queued, NO_COUNTS)]);
    session.pending := SetJob(session.pending, begun.job, Job(Running, NO_COUNTS));
    assert session.pending == OpenJob(first);
    var c := session.Commit(calm);
    if c == Lost {
      return None, run;
    }
    Extend(f, limits, run, first, None, first, [], Start(resume), State(session.committed, Some(begun)), session.log);
    run := run.Then(Start(resume), State(session.committed, Some(begun)));
    a := Some(begun);
    if c == LandedButFailed {
      run := Leave(f, limits, begun, first, run, session.committed, session.log);
      a := None;
    }
  }

  /** The page loop, to success or to a failing attempt. */
  method PageLoop(session: Session, f: Remote, limits: Limits, a0: Attempt, now: int, calm: bool,
                  ghost first: Durable, ghost run0: Run)
    returns (a: Option<Attempt>, ghost run: Run)
    requires session.pending == session.committed && WellFormed(session.committed.store)
    requires a0.phase.Fetching? && a0.counts.pages <= limits.maxPages
    requires Faithful(f, limits, run0, first, Some(a0), session.committed, session.log)
    modifies session
    ensures Faithful(f, limits, run, first, a, session.committed, session.log)
    ensures a.None? ==> |run.rest| > 0 && run.rest[|run.rest| - 1].0 == Complete(now)
    ensures a.Some? ==> a.value.phase.Failing?
    ensures calm ==>
      CalmPages(f, limits, old(session.committed), a0, now) ==
      (if a.None? then session.committed else RecordFailure(session.committed, a.value))
    ensures calm && a.Some? ==> a.value == Broken(a.value, session.committed.connector)
  {
    hide Faithful, WellFormed, CalmPages;
    a, run := Some(a0), run0;
    ghost var target := CalmPages(f, limits, session.committed, a0, now);
    while a.Some? && a.value.phase.Fetching?
      invariant Faithful(f, limits, run, first, a, session.committed, session.log)
      invariant WellFormed(session.committed.store)
      invariant a.None? ==> |run.rest| > 0 && run.rest[|run.rest| - 1].0 == Complete(now)
      invariant a.Some? && !a.value.phase.Failing? ==>
        a.value.phase.Fetching? && a.value.counts.pages <= limits.maxPages && session.pending == session.committed
      invariant calm ==>
        target == (if a.None? then session.committed
                   else if a.value.phase.Failing? then RecordFailure(session.committed, a.value)
                   else CalmPages(f, limits, session.committed, a.value, now))
      invariant calm && a.Some? && a.value.phase.Failing? ==> a.value == Broken(a.value, session.committed.connector)
      decreases if a.Some? && a.value.phase.Fetching? then limits.maxPages + 1 - a.value.counts.pages else 0
    {
      a, run := RunPage(session, f, limits, a.value, now, calm, first, run);
    }
  }

  /** The end of a failing attempt. */
  method Conclude(session: Session, f: Remote, limits: Limits, a: Attempt, calm: bool, ghost first: Durable,
                  ghost run0: Run)
    returns (ghost run: Run)
    requires a.phase.Failing?
    requires Faithful(f, limits, run0, first, Some(a), session.committed, session.log)
    modifies session
    ensures Faithful(f, limits, run, first, None, session.committed, session.log)
    ensures calm ==> session.committed ==
                     RecordFailure(old(session.committed), Broken(a, old(session.committed.connector)))
  {
    hide Faithful;
    var recorded, b, tries;
    recorded, b, tries, run := RecordFailureWithRetry(session, f, limits, a, calm, first, run0);
    run := Leave(f, limits, b, first, run, session.committed, session.log);
  }

  lemma NothingRun(f: Remote, limits: Limits, first: Durable)
    ensures Faithful(f, limits, Run(State(first, None), []), first, None, first, [])
  {
  }

  datatype Outcome = Conflict | NotStarted | Done | FailedAttempt

  /** One attempt, from opening the job row to its last commit. It is a run of the step
      machine that starts and ends without an attempt in flight, and whatever instant
      the process dies at, the database holds the durable part of a state of that run.
      Without outside failures the outcome is that of `CalmAttempt`. */
  method ExecuteAttempt(session: Session, f: Remote, limits: Limits, resume: bool, now: int, calm: bool)
    returns (r: Outcome, ghost run: Run)
    requires session.pending == session.committed && WellFormed(session.committed.store) && session.log == []
    modifies session
    ensures Faithful(f, limits, run, old(session.committed), None, session.committed, session.log)
    ensures r == Conflict <==> old(session.committed.connector) == Disconnected
    ensures r == Conflict ==> run.rest == [] && session.committed == old(session.committed)
    ensures r == Done ==> |run.rest| > 0 && run.rest[|run.rest| - 1].0 == Complete(now)
    ensures calm && r != Conflict ==> session.committed == CalmAttempt(f, limits, old(session.committed), resume, now)
  {
    hide WellFormed, Faithful, CalmPages, RecordFailure;
    ghost var first := session.committed;
    if session.committed.connector == Disconnected {
      NothingRun(f, limits, first);
      return Conflict, Run(State(first, None), []);
    }
    var entered;
    entered, run := OpenAttempt(session, f, limits, resume, calm);
    if entered.None? {
      return NotStarted, run;
    }
    var a: Option<Attempt>;
    var authenticated: bool := *;
    if !calm && !authenticated {
      var b := Broken(entered.value, session.committed.connector);
      ghost var next := State(session.committed, Some(b));
      Extend(f, limits, run, first, entered, session.committed, session.log, Fail, next, session.log);
      run := run.Then(Fail, next);
      a := Some(b);
    } else {
      a, run := PageLoop(session, f, limits, entered.value, now, calm, first, run);
    }
    if a.None? {
      return Done, run;
    }
    run := Conclude(session, f, limits, a.value, calm, first, run);
    return FailedAttempt, run;
  }

  /** The attempt ends or dies. */
  ghost method Leave(f: Remote, limits: Limits, a: Attempt, first: Durable, run0: Run, committed: Durable,
                     log: seq<Durable>)
    returns (run: Run)
    requires Faithful(f, limits, run0, first, Some(a), committed, log)
    ensures Faithful(f, limits, run, first, None, committed, log)
  {
    Extend(f, limits, run0, first, Some(a), committed, log, Vanish, State(committed, None), log);
    run := run0.Then(Vanish, State(committed, None));
  }
}
