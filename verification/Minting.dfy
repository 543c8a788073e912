/** Runs in which the server mints its own message ids (ferrixd/src/history.rs, ferrixd/src/persist.rs). */
module Minting {
  import opened Numbers
  import opened Persist
  import opened History
  import opened HistoryLog
  import opened MsgIds
  import Renames
  import Restarts

  // --------------------------------------------------------------- ids still to come

  /** None of the ids this server has yet to mint. */
  ghost predicate Spent(id: string, prefix: string, next: nat) {
    forall c: nat :: next <= c < U64_RANGE ==> Mint(prefix, c) != id
  }

  ghost predicate RowsSpent(rows: seq<Row>, prefix: string, next: nat) {
    forall i :: 0 <= i < |rows| ==> Spent(rows[i].message.msgid, prefix, next)
  }

  ghost predicate QueueSpent(queue: seq<Op>, prefix: string, next: nat) {
    forall i :: 0 <= i < |queue| ==> OpSpent(queue[i], prefix, next)
  }

  ghost predicate OpSpent(op: Op, prefix: string, next: nat) {
    op.Store? ==> Spent(op.message.msgid, prefix, next)
  }

  /** In the table and in the queue there is no id that is yet to be minted. */
  ghost predicate AllSpent(st: State, prefix: string, next: nat) {
    RowsSpent(st.db.rows, prefix, next) && QueueSpent(st.queue, prefix, next)
  }

  lemma {:induction false} DeleteSpent(rows: seq<Row>, folded: string, id: string, prefix: string, next: nat)
    requires RowsSpent(rows, prefix, next)
    ensures RowsSpent(DeleteRows(rows, folded, id), prefix, next)
  {
    hide Spent;
    if rows != [] {
      DeleteSpent(rows[1..], folded, id, prefix, next);
    }
  }

  lemma {:induction false} RenameSpent(rows: seq<Row>, a: string, b: string, prefix: string, next: nat)
    requires RowsSpent(rows, prefix, next)
    ensures RowsSpent(RenameRows(rows, a, b), prefix, next)
  {
    hide Spent;
    if rows != [] {
      RenameSpent(rows[1..], a, b, prefix, next);
    }
  }

  lemma {:induction false} PruneSpent(rows: seq<Row>, bound: int, prefix: string, next: nat)
    requires RowsSpent(rows, prefix, next)
    ensures RowsSpent(KeepAbove(rows, bound), prefix, next)
  {
    hide Spent;
    if rows != [] {
      PruneSpent(rows[1..], bound, prefix, next);
    }
  }

  lemma ExecuteSpent(db: Db, op: Op, prefix: string, next: nat)
    requires RowsSpent(db.rows, prefix, next) && OpSpent(op, prefix, next)
    ensures RowsSpent(Execute(db, op).rows, prefix, next)
  {
    hide Spent, DeleteRows, RenameRows;
    match op
    case Store(folded, message) =>
    case Delete(folded, msgid) => DeleteSpent(db.rows, folded, msgid, prefix, next);
    case Rename(a, b) => RenameSpent(db.rows, a, b, prefix, next);
    case Flush(_) =>
  }

  lemma {:induction false} ExecuteAllSpent(db: Db, ops: seq<Op>, prefix: string, next: nat)
    requires RowsSpent(db.rows, prefix, next) && QueueSpent(ops, prefix, next)
    ensures RowsSpent(ExecuteAll(db, ops).rows, prefix, next)
    decreases |ops|
  {
    hide RowsSpent, OpSpent, Execute;
    if ops != [] {
      ExecuteSpent(db, ops[0], prefix, next);
      ExecuteAllSpent(Execute(db, ops[0]), ops[1..], prefix, next);
    }
  }

  /** The next id is new to every target. */
  lemma NextIsNew(rows: seq<Row>, target: string, prefix: string, next: nat)
    requires RowsSpent(rows, prefix, next) && next < U64_RANGE
    ensures !HasId(Messages(rows, target), Mint(prefix, next))
  {
    hide Mint, Messages;
    var ms := Messages(rows, target);
    forall k | 0 <= k < |ms|
      ensures ms[k].msgid != Mint(prefix, next)
    {
      var i := Renames.MessageRow(rows, target, k);
    }
  }

  /** Once minted, an id is spent. */
  lemma MintedIsSpent(prefix: string, next: nat)
    requires IsPrefix(prefix) && next < U64_RANGE
    ensures Spent(Mint(prefix, next), prefix, next + 1)
  {
    hide Mint;
    forall c: nat | next + 1 <= c < U64_RANGE
      ensures Mint(prefix, c) != Mint(prefix, next)
    {
      if Mint(prefix, c) == Mint(prefix, next) {
        MintedOnce(prefix, c, next);
      }
    }
  }

  // ---------------------------------------------------------------------------- starts

  /** No id that the server is going to mint is in the table it starts with. */
  ghost predicate SafeStart(db: Db, prefix: string, next: nat) {
    RowsSpent(Pruned(db).rows, prefix, next)
  }

  /** Ids of ours in these rows have counters below `next`. */
  ghost predicate CountersBelow(rows: seq<Row>, prefix: string, next: nat) {
    forall i, k: nat ::
      (0 <= i < |rows| && k < U64_RANGE && rows[i].message.msgid == Mint(prefix, k)) ==> k < next
  }

  /** A start is safe exactly when every id of ours in the table has a counter below the seed. */
  lemma SafeStartIff(db: Db, prefix: string, next: nat)
    ensures SafeStart(db, prefix, next) <==> CountersBelow(Pruned(db).rows, prefix, next)
  {
    hide Mint, Pruned;
  }

  /** That is so whenever the load limit reaches the whole table. */
  lemma WholeLoadIsSafe(db: Db, limit: nat, prefix: string, next: nat)
    requires IsPrefix(prefix) && IsSeed(LoadedRows(db, limit), next) && |Pruned(db).rows| <= limit
    ensures SafeStart(db, prefix, next)
  {
    hide Mint, CounterOf, Pruned;
    var rows := LoadedRows(db, limit);
    forall i, c: nat | 0 <= i < |rows| && next <= c < U64_RANGE
      ensures Mint(prefix, c) != rows[i].message.msgid
    {
      MintedAfterLoadIsNew(rows, next, prefix, c, i);
    }
  }

  // ------------------------------------------------------------------------------ runs

  /** A server and its counter. */
  datatype Server = Server(base: Restarts.Server, next: nat)

  datatype Event =
    | Own(target: string, m: Stored, gone: set<string>)
    | Other(step: Step)
    | Restart(caps: Caps, limit: nat, log: Log, next: nat)

  /** An own message as it is recorded. */
  function Minted(prefix: string, next: nat, m: Stored): Stored {
    m.(msgid := Mint(prefix, next))
  }

  /** The event underneath. */
  function Base(s: Server, prefix: string, e: Event): Restarts.Event {
    match e
    case Own(target, m, gone) => Restarts.Live(Record(target, Minted(prefix, s.next, m), gone))
    case Other(step) => Restarts.Live(step)
    case Restart(caps, limit, log, _) => Restarts.Restart(caps, limit, log)
  }

  /**
   * Nothing is asked of an own message but the oldest rings for its eviction; messages
   * of others do not use our ids; a start takes the seed from what it loads, and is safe.
   */
  ghost predicate CanHappen(s: Server, prefix: string, e: Event) {
    match e
    case Own(target, _, gone) =>
      s.next < U64_RANGE && (MustEvict(s.base.st.log, s.base.caps, target) ==> OldestFew(s.base.st.log, s.base.caps, gone))
    case Other(step) =>
      && Restarts.CanHappen(s.base, Restarts.Live(step))
      && (step.Record? ==> Spent(step.m.msgid, prefix, s.next))
    case Restart(caps, limit, log, next) =>
      && Restarts.CanHappen(s.base, Restarts.Restart(caps, limit, log))
      && IsSeed(LoadedRows(s.base.st.db, limit), next)
      && SafeStart(s.base.st.db, prefix, next)
  }

  function Next(s: Server, prefix: string, e: Event): Server {
    var base := Restarts.Next(s.base, Base(s, prefix, e));
    match e
    case Own(_, _, _) => Server(base, s.next + 1)
    case Other(_) => Server(base, s.next)
    case Restart(_, _, _, next) => Server(base, next)
  }

  ghost predicate Invariant(s: Server, prefix: string) {
    && ValidCaps(s.base.caps) && Restarts.Durable(s.base.st, s.base.caps)
    && AllSpent(s.base.st, prefix, s.next)
  }

  /** A minted id meets what a run asks of recorded messages. */
  lemma MintedIsAllowed(s: Server, prefix: string, e: Event)
    requires Invariant(s, prefix) && CanHappen(s, prefix, e)
    ensures Restarts.CanHappen(s.base, Base(s, prefix, e))
  {
    hide Mint, Messages, MustEvict, OldestFew, Restarts.Durable, RowsSpent, QueueSpent, ExecuteAll, SafeStart;
    if e.Own? {
      ExecuteAllSpent(s.base.st.db, s.base.st.queue, prefix, s.next);
      NextIsNew(Settled(s.base.st).rows, e.target, prefix, s.next);
    }
  }

  lemma SpentLater(st: State, prefix: string, next: nat)
    requires AllSpent(st, prefix, next)
    ensures AllSpent(st, prefix, next + 1)
  {
    hide Mint;
  }

  lemma EnqueueSpent(st: State, log: Log, op: Op, prefix: string, next: nat)
    requires AllSpent(st, prefix, next) && OpSpent(op, prefix, next)
    ensures AllSpent(Enqueue(st, log, op), prefix, next)
  {
    hide Spent, OpSpent;
  }

  lemma StepSpent(st: State, caps: Caps, step: Step, prefix: string, next: nat)
    requires AllSpent(st, prefix, next) && (step.Record? ==> Spent(step.m.msgid, prefix, next))
    ensures AllSpent(Take(st, caps, step), prefix, next)
  {
    hide Spent, RowsSpent, Push, Redacted, Renamed, ExecuteAll, AllSpent;
    match step
    case Record(target, m, gone) => EnqueueSpent(st, Push(st.log, caps, target, m, gone), Store(target, m), prefix, next);
    case Redact(target, id) =>
      if RedactFinds(st.log, target, id) {
        EnqueueSpent(st, Redacted(st.log, target, id), Delete(target, id), prefix, next);
      }
    case RenameTarget(a, b) => EnqueueSpent(st, Renamed(st.log, a, b), Rename(a, b), prefix, next);
    case Forget(target) => SameRows(st, st.log - {target}, prefix, next);
    case Write(n) =>
      if n <= |st.queue| {
        WriteSpent(st, n, prefix, next);
      }
  }

  lemma SameRows(st: State, log: Log, prefix: string, next: nat)
    requires AllSpent(st, prefix, next)
    ensures AllSpent(st.(log := log), prefix, next)
  {
    hide RowsSpent, QueueSpent;
  }

  lemma WriteSpent(st: State, n: nat, prefix: string, next: nat)
    requires AllSpent(st, prefix, next) && n <= |st.queue|
    ensures AllSpent(State(st.log, st.queue[n..], ExecuteAll(st.db, st.queue[..n])), prefix, next)
  {
    hide RowsSpent, OpSpent, ExecuteAll;
    ExecuteAllSpent(st.db, st.queue[..n], prefix, next);
  }

  lemma NextKeepsSpent(s: Server, prefix: string, e: Event)
    requires IsPrefix(prefix) && AllSpent(s.base.st, prefix, s.next) && CanHappen(s, prefix, e)
    ensures AllSpent(Next(s, prefix, e).base.st, prefix, Next(s, prefix, e).next)
  {
    hide Mint, Spent, Take, Allowed, Loads, LoadedRows, IsSeed, MustEvict, OldestFew;
    match e
    case Own(target, m, gone) =>
      MintedIsSpent(prefix, s.next);
      SpentLater(s.base.st, prefix, s.next);
      StepSpent(s.base.st, s.base.caps, Record(target, Minted(prefix, s.next, m), gone), prefix, s.next + 1);
    case Other(step) =>
      StepSpent(s.base.st, s.base.caps, step, prefix, s.next);
    case Restart(_, _, _, _) =>
  }

  lemma BaseKeeps(s: Restarts.Server, e: Restarts.Event)
    requires ValidCaps(s.caps) && Restarts.Durable(s.st, s.caps) && Restarts.CanHappen(s, e)
    ensures var s' := Restarts.Next(s, e); ValidCaps(s'.caps) && Restarts.Durable(s'.st, s'.caps)
  {
    hide Restarts.Durable, Take, Allowed, Loads, LoadedRows, Restarts.Started;
    match e
    case Live(step) => Restarts.LiveKeeps(s.st, s.caps, step);
    case Restart(caps, limit, log) => Restarts.RestartKeeps(s.st, s.caps, caps, limit, log);
  }

  lemma NextKeeps(s: Server, prefix: string, e: Event)
    requires IsPrefix(prefix) && Invariant(s, prefix) && CanHappen(s, prefix, e)
    ensures Invariant(Next(s, prefix, e), prefix)
  {
    hide Restarts.Durable, Restarts.CanHappen, Restarts.Next, AllSpent, SafeStart, IsSeed, LoadedRows, Base;
    MintedIsAllowed(s, prefix, e);
    BaseKeeps(s.base, Base(s, prefix, e));
    NextKeepsSpent(s, prefix, e);
  }

  ghost predicate CanRun(s: Server, prefix: string, events: seq<Event>)
    decreases |events|
  {
    events == [] || (CanHappen(s, prefix, events[0]) && CanRun(Next(s, prefix, events[0]), prefix, events[1..]))
  }

  function After(s: Server, prefix: string, events: seq<Event>): Server
    decreases |events|
  {
    if events == [] then s else After(Next(s, prefix, events[0]), prefix, events[1..])
  }

  lemma {:induction false} EventsKeep(s: Server, prefix: string, events: seq<Event>)
    requires IsPrefix(prefix) && Invariant(s, prefix) && CanRun(s, prefix, events)
    ensures Invariant(After(s, prefix, events), prefix)
    decreases |events|
  {
    hide Invariant, CanHappen, Next;
    if events != [] {
      NextKeeps(s, prefix, events[0]);
      EventsKeep(Next(s, prefix, events[0]), prefix, events[1..]);
    }
  }

  /** A new server on an empty database. */
  function New(caps: Caps): Server {
    Server(Restarts.Server(State(map[], [], Db([], 0)), caps), 1)
  }

  /**
   * Over every run from an empty database in which starts are safe, own messages get
   * ids that are new to their target without that being assumed, and the rings follow
   * the table, within the caps, ids distinct.
   */
  lemma MintingRunIsConsistent(prefix: string, caps: Caps, events: seq<Event>)
    requires IsPrefix(prefix) && ValidCaps(caps) && CanRun(New(caps), prefix, events)
    ensures var s := After(New(caps), prefix, events);
            && Consistent(s.base.st, s.base.caps)
            && (s.next < U64_RANGE ==> forall t :: !HasId(Messages(Settled(s.base.st).rows, t), Mint(prefix, s.next)))
  {
    hide Consistent, Mint, Messages, ExecuteAll, After, CanRun, RowsSpent, HasId;
    Restarts.FirstStart(caps);
    NothingSpent(prefix, caps);
    EventsKeep(New(caps), prefix, events);
    var s := After(New(caps), prefix, events);
    ExecuteAllSpent(s.base.st.db, s.base.st.queue, prefix, s.next);
    if s.next < U64_RANGE {
      forall t
        ensures !HasId(Messages(Settled(s.base.st).rows, t), Mint(prefix, s.next))
      {
        NextIsNew(Settled(s.base.st).rows, t, prefix, s.next);
      }
    }
  }

  lemma NothingSpent(prefix: string, caps: Caps)
    ensures AllSpent(New(caps).base.st, prefix, 1)
  {
  }
}
