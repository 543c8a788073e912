/** Runs of the history across restarts and crashes (ferrixd/src/history.rs, ferrixd/src/persist.rs). */
module Restarts {
  import opened Persist
  import opened History
  import opened HistoryLog

  // ------------------------------------------------------------------ rows in id order

  /** Ids grow from row to row, and all exceed `above`. */
  predicate Increasing(rows: seq<Row>, above: int) {
    rows == [] || (rows[0].id > above && Increasing(rows[1..], rows[0].id))
  }

  predicate AtMost(rows: seq<Row>, lastId: int) {
    forall i :: 0 <= i < |rows| ==> rows[i].id <= lastId
  }

  /** The table as the autoincrement key keeps it. */
  predicate Ordered(db: Db) {
    Increasing(db.rows, -1) && AtMost(db.rows, db.lastId)
  }

  lemma IncreasingFrom(rows: seq<Row>, above: int, lower: int)
    requires Increasing(rows, above) && lower <= above
    ensures Increasing(rows, lower)
  {
  }

  lemma {:induction false} StoreIncreasing(rows: seq<Row>, r: Row, above: int)
    requires Increasing(rows, above) && AtMost(rows, r.id - 1) && above < r.id
    ensures Increasing(rows + [r], above)
    decreases |rows|
  {
    if rows == [] {
      assert rows + [r] == [r];
    } else {
      assert (rows + [r])[1..] == rows[1..] + [r];
      StoreIncreasing(rows[1..], r, rows[0].id);
    }
  }

  lemma {:induction false} DeleteIncreasing(rows: seq<Row>, folded: string, id: string, above: int, lastId: nat)
    requires Increasing(rows, above) && AtMost(rows, lastId)
    ensures Increasing(DeleteRows(rows, folded, id), above) && AtMost(DeleteRows(rows, folded, id), lastId)
  {
    if rows != [] {
      DeleteIncreasing(rows[1..], folded, id, rows[0].id, lastId);
      var rest := DeleteRows(rows[1..], folded, id);
      assert ([rows[0]] + rest)[1..] == rest;
      IncreasingFrom(rest, rows[0].id, above);
    }
  }

  lemma {:induction false} RenameIncreasing(rows: seq<Row>, a: string, b: string, above: int, lastId: nat)
    requires Increasing(rows, above) && AtMost(rows, lastId)
    ensures Increasing(RenameRows(rows, a, b), above) && AtMost(RenameRows(rows, a, b), lastId)
  {
    if rows != [] {
      RenameIncreasing(rows[1..], a, b, rows[0].id, lastId);
      var rest := RenameRows(rows[1..], a, b);
      assert ([RenameRow(rows[0], a, b)] + rest)[1..] == rest;
    }
  }

  lemma {:induction false} PruneIncreasing(rows: seq<Row>, bound: int, above: int, lastId: nat)
    requires Increasing(rows, above) && AtMost(rows, lastId)
    ensures Increasing(KeepAbove(rows, bound), above) && AtMost(KeepAbove(rows, bound), lastId)
  {
    if rows != [] {
      PruneIncreasing(rows[1..], bound, rows[0].id, lastId);
      var rest := KeepAbove(rows[1..], bound);
      assert ([rows[0]] + rest)[1..] == rest && [] + rest == rest;
      IncreasingFrom(rest, rows[0].id, above);
    }
  }

  lemma ExecuteOrdered(db: Db, op: Op)
    requires Ordered(db)
    ensures Ordered(Execute(db, op))
  {
    hide Increasing, DeleteRows, RenameRows;
    match op
    case Store(folded, message) => StoreIncreasing(db.rows, Row(db.lastId + 1, folded, message), -1);
    case Delete(folded, msgid) => DeleteIncreasing(db.rows, folded, msgid, -1, db.lastId);
    case Rename(a, b) => RenameIncreasing(db.rows, a, b, -1, db.lastId);
    case Flush(_) =>
  }

  lemma {:induction false} ExecuteAllOrdered(db: Db, ops: seq<Op>)
    requires Ordered(db)
    ensures Ordered(ExecuteAll(db, ops))
    decreases |ops|
  {
    hide Ordered, Execute;
    if ops != [] {
      ExecuteOrdered(db, ops[0]);
      ExecuteAllOrdered(Execute(db, ops[0]), ops[1..]);
    }
  }

  lemma {:induction false} IncreasingIds(rows: seq<Row>, above: int, i: nat, j: nat)
    requires Increasing(rows, above) && i < j < |rows|
    ensures above < rows[i].id < rows[j].id
  {
    if i > 0 {
      IncreasingIds(rows[1..], rows[0].id, i - 1, j - 1);
    } else {
      AboveAll(rows[1..], rows[0].id, j - 1);
    }
  }

  lemma {:induction false} AboveAll(rows: seq<Row>, above: int, j: nat)
    requires Increasing(rows, above) && j < |rows|
    ensures above < rows[j].id
  {
    if j > 0 {
      AboveAll(rows[1..], rows[0].id, j - 1);
    }
  }

  /** In an ordered table the loaded rows are those with the largest ids. */
  lemma LoadedAreNewest(db: Db, limit: nat, i: nat, j: nat)
    requires Ordered(db) && j < |LoadedRows(db, limit)| && i + |LoadedRows(db, limit)| < |Pruned(db).rows|
    ensures Pruned(db).rows[i].id < LoadedRows(db, limit)[j].id
  {
    hide Increasing, KeepAbove;
    PruneIncreasing(db.rows, MaxId(db.rows) - RETAIN_ROWS, -1, db.lastId);
    var rows := Pruned(db).rows;
    var n := |rows| - |LoadedRows(db, limit)|;
    IncreasingIds(rows, -1, i, n + j);
  }

  // -------------------------------------------------------------------- the invariant

  /** Whatever part of the queue is written before a crash, no target has an id twice. */
  ghost predicate DistinctThroughout(st: State) {
    forall n :: 0 <= n <= |st.queue| ==> Distinct(ExecuteAll(st.db, st.queue[..n]).rows)
  }

  ghost predicate Durable(st: State, caps: Caps) {
    Consistent(st, caps) && Ordered(st.db) && DistinctThroughout(st)
  }

  lemma EnqueueKeeps(st: State, log: Log, op: Op)
    requires DistinctThroughout(st) && Distinct(Settled(Enqueue(st, log, op)).rows)
    ensures DistinctThroughout(Enqueue(st, log, op))
  {
    hide ExecuteAll, Distinct;
    var st' := Enqueue(st, log, op);
    forall n | 0 <= n <= |st'.queue|
      ensures Distinct(ExecuteAll(st'.db, st'.queue[..n]).rows)
    {
      if n <= |st.queue| {
        assert st'.queue[..n] == st.queue[..n];
      } else {
        assert st'.queue[..n] == st'.queue;
      }
    }
  }

  lemma WriteKeepsDistinct(st: State, caps: Caps, n: nat)
    requires DistinctThroughout(st) && n <= |st.queue|
    ensures DistinctThroughout(Take(st, caps, Write(n)))
  {
    hide ExecuteAll, Distinct;
    var st' := Take(st, caps, Write(n));
    forall k | 0 <= k <= |st'.queue|
      ensures Distinct(ExecuteAll(st'.db, st'.queue[..k]).rows)
    {
      assert st.queue[..n + k] == st.queue[..n] + st'.queue[..k];
      ExecuteConcat(st.db, st.queue[..n], st'.queue[..k]);
    }
  }

  lemma LiveKeeps(st: State, caps: Caps, step: Step)
    requires ValidCaps(caps) && Durable(st, caps) && Allowed(st, caps, step)
    ensures Durable(Take(st, caps, step), caps)
  {
    hide ExecuteAll, Distinct, Ordered, Push, Redacted, Renamed, Follows, Bounded, DistinctThroughout;
    StepKeeps(st, caps, step);
    match step
    case Record(target, m, gone) => EnqueueKeeps(st, Push(st.log, caps, target, m, gone), Store(target, m));
    case Redact(target, id) =>
      if RedactFinds(st.log, target, id) {
        EnqueueKeeps(st, Redacted(st.log, target, id), Delete(target, id));
      }
    case RenameTarget(a, b) => EnqueueKeeps(st, Renamed(st.log, a, b), Rename(a, b));
    case Forget(target) => SameQueue(st, st.log - {target});
    case Write(n) =>
      if n <= |st.queue| {
        ExecuteAllOrdered(st.db, st.queue[..n]);
        WriteKeepsDistinct(st, caps, n);
      }
  }

  lemma SameQueue(st: State, log: Log)
    requires DistinctThroughout(st)
    ensures DistinctThroughout(st.(log := log))
  {
    hide ExecuteAll, Distinct;
  }

  // ------------------------------------------------------------------------- restarts

  lemma {:induction false} LoadsFollow(caps: Caps, rows: seq<Row>, log: Log)
    requires ValidCaps(caps) && Loads(caps, rows, log)
    ensures Follows(log, rows) && Bounded(log, caps)
    decreases |rows|
  {
    hide Follows, Bounded, Push, OldestFew, MustEvict;
    if rows == [] {
      NothingLoaded(caps);
    } else {
      var n := |rows| - 1;
      var r := rows[n];
      var before, gone :|
        && Loads(caps, rows[..n], before)
        && (MustEvict(before, caps, r.folded) ==> OldestFew(before, caps, gone))
        && log == Push(before, caps, r.folded, r.message, gone);
      LoadsFollow(caps, rows[..n], before);
      PushFollows(before, caps, r.folded, r.message, gone, rows[..n], r.id);
      PushBounded(before, caps, r.folded, r.message, gone);
      assert rows == rows[..n] + [r];
    }
  }

  /** The state after a start: what was queued and not written is gone. */
  function Started(db: Db, log: Log): State {
    State(log, [], Pruned(db))
  }

  lemma WrittenIsDistinct(st: State)
    requires DistinctThroughout(st)
    ensures Distinct(st.db.rows)
  {
    hide Distinct;
    assert st.queue[..0] == [];
    assert ExecuteAll(st.db, st.queue[..0]) == st.db;
  }

  lemma RestartKeeps(st: State, caps: Caps, caps': Caps, limit: nat, log: Log)
    requires Durable(st, caps) && ValidCaps(caps') && Loads(caps', LoadedRows(st.db, limit), log)
    ensures Durable(Started(st.db, log), caps')
  {
    hide Loads, Follows, Bounded, Distinct, Increasing, KeepAbove, LoadedRows, DistinctThroughout;
    WrittenIsDistinct(st);
    LoadsFollow(caps', LoadedRows(st.db, limit), log);
    RestartIsConsistent(st.db, log, limit, caps');
    PruneIncreasing(st.db.rows, MaxId(st.db.rows) - RETAIN_ROWS, -1, st.db.lastId);
    StartedIsDistinct(st.db, log, caps');
  }

  lemma StartedIsDistinct(db: Db, log: Log, caps: Caps)
    requires Consistent(Started(db, log), caps)
    ensures DistinctThroughout(Started(db, log))
  {
    hide Distinct, Follows, Bounded;
    var st := Started(db, log);
    assert forall n :: 0 <= n <= |st.queue| ==> st.queue[..n] == st.queue;
  }

  // ------------------------------------------------------------------------------ runs

  /** A server: its state, and the limits it was started with. */
  datatype Server = Server(st: State, caps: Caps)

  /** Something the running server does, or a stop with the next start. */
  datatype Event =
    | Live(step: Step)
    | Restart(caps: Caps, limit: nat, log: Log)

  ghost predicate CanHappen(s: Server, e: Event) {
    match e
    case Live(step) => Allowed(s.st, s.caps, step)
    case Restart(caps, limit, log) => ValidCaps(caps) && Loads(caps, LoadedRows(s.st.db, limit), log)
  }

  function Next(s: Server, e: Event): Server {
    match e
    case Live(step) => s.(st := Take(s.st, s.caps, step))
    case Restart(caps, limit, log) => Server(Started(s.st.db, log), caps)
  }

  ghost predicate CanRun(s: Server, events: seq<Event>)
    decreases |events|
  {
    events == [] || (CanHappen(s, events[0]) && CanRun(Next(s, events[0]), events[1..]))
  }

  function After(s: Server, events: seq<Event>): Server
    decreases |events|
  {
    if events == [] then s else After(Next(s, events[0]), events[1..])
  }

  lemma {:induction false} EventsKeep(s: Server, events: seq<Event>)
    requires ValidCaps(s.caps) && Durable(s.st, s.caps) && CanRun(s, events)
    ensures ValidCaps(After(s, events).caps) && Durable(After(s, events).st, After(s, events).caps)
    decreases |events|
  {
    hide Durable, Take, Allowed, Loads, LoadedRows, Started;
    if events != [] {
      match events[0] {
        case Live(step) => LiveKeeps(s.st, s.caps, step);
        case Restart(caps, limit, log) => RestartKeeps(s.st, s.caps, caps, limit, log);
      }
      EventsKeep(Next(s, events[0]), events[1..]);
    }
  }

  /** The first start, on an empty database. */
  lemma FirstStart(caps: Caps)
    requires ValidCaps(caps)
    ensures Durable(State(map[], [], Db([], 0)), caps)
  {
    var st := State(map[], [], Db([], 0));
    forall t
      ensures DistinctIds(Messages([], t))
    {
      NoMessages(t);
    }
    assert Settled(st) == st.db;
    assert forall n :: 0 <= n <= |st.queue| ==> st.queue[..n] == st.queue;
  }

  /**
   * From an empty database, over every run of records, redactions, renames to unused
   * targets, forgets, partial writes, crashes and restarts under any limits: every ring
   * is the newest part of its target's settled rows, the limits in force hold, ids stay
   * distinct per target and rows stay in id order.
   */
  lemma EveryRunIsConsistent(caps: Caps, events: seq<Event>)
    requires ValidCaps(caps) && CanRun(Server(State(map[], [], Db([], 0)), caps), events)
    ensures var s := After(Server(State(map[], [], Db([], 0)), caps), events);
            && Follows(s.st.log, Settled(s.st).rows) && Bounded(s.st.log, s.caps)
            && Distinct(Settled(s.st).rows) && Ordered(s.st.db)
  {
    hide Follows, Bounded, Distinct, Ordered, After, CanRun, DistinctThroughout;
    FirstStart(caps);
    EventsKeep(Server(State(map[], [], Db([], 0)), caps), events);
  }
}
