/** The durable table of message history and its operation queue (ferrixd/src/persist.rs). */
module Persist {
  import opened Octets
  import opened Sequences

  datatype Kind = PrivMsg | Notice | Join | Part | Quit | Nick | Topic | Kick | Mode

  datatype Stored = Stored(msgid: string, timeMs: nat, source: string, account: Option<string>, kind: Kind,
                           target: string, text: string)

  datatype Op =
    | Store(folded: string, message: Stored)
    | Delete(folded: string, msgid: string)
    | Rename(oldKey: string, newKey: string)
    | Flush(barrier: nat)

  /** One table row; `id` is the autoincrement key. */
  datatype Row = Row(id: nat, folded: string, message: Stored)

  datatype Db = Db(rows: seq<Row>, lastId: nat)

  function DeleteRows(rows: seq<Row>, folded: string, msgid: string): seq<Row> {
    if rows == [] then []
    else
      var rest := DeleteRows(rows[1..], folded, msgid);
      if rows[0].folded == folded && rows[0].message.msgid == msgid then rest else [rows[0]] + rest
  }

  function RenameRow(r: Row, oldKey: string, newKey: string): Row {
    if r.folded == oldKey then r.(folded := newKey) else r
  }

  function RenameRows(rows: seq<Row>, oldKey: string, newKey: string): seq<Row> {
    if rows == [] then [] else [RenameRow(rows[0], oldKey, newKey)] + RenameRows(rows[1..], oldKey, newKey)
  }

  /** The statement executed for one queued operation. */
  function Execute(db: Db, op: Op): Db {
    match op
    case Store(folded, message) => Db(db.rows + [Row(db.lastId + 1, folded, message)], db.lastId + 1)
    case Delete(folded, msgid) => db.(rows := DeleteRows(db.rows, folded, msgid))
    case Rename(oldKey, newKey) => db.(rows := RenameRows(db.rows, oldKey, newKey))
    case Flush(_) => db
  }

  function ExecuteAll(db: Db, ops: seq<Op>): Db
    decreases |ops|
  {
    if ops == [] then db else ExecuteAll(Execute(db, ops[0]), ops[1..])
  }

  lemma {:induction false} ExecuteConcat(db: Db, a: seq<Op>, b: seq<Op>)
    ensures ExecuteAll(db, a + b) == ExecuteAll(ExecuteAll(db, a), b)
    decreases |a|
  {
    if a == [] {
      assert a + b == b;
    } else {
      assert (a + b)[1..] == a[1..] + b;
      ExecuteConcat(Execute(db, a[0]), a[1..], b);
    }
  }

  lemma ExecuteLast(db: Db, ops: seq<Op>, op: Op)
    ensures ExecuteAll(db, ops + [op]) == Execute(ExecuteAll(db, ops), op)
  {
    ExecuteConcat(db, ops, [op]);
    assert [op][1..] == [];
  }

  function WriteBatches(db: Db, batches: seq<seq<Op>>): Db
    decreases |batches|
  {
    if batches == [] then db else WriteBatches(ExecuteAll(db, batches[0]), batches[1..])
  }

  /** How the queue is cut into transactions makes no difference to the table. */
  lemma {:induction false} BatchingIsTransparent(db: Db, batches: seq<seq<Op>>)
    ensures WriteBatches(db, batches) == ExecuteAll(db, Flatten(batches))
    decreases |batches|
  {
    if batches != [] {
      ExecuteConcat(db, batches[0], Flatten(batches[1..]));
      BatchingIsTransparent(ExecuteAll(db, batches[0]), batches[1..]);
    }
  }

  /** The operations that are no barriers. */
  function Changes(ops: seq<Op>): seq<Op> {
    if ops == [] then [] else (if ops[0].Flush? then [] else [ops[0]]) + Changes(ops[1..])
  }

  function Stores(ops: seq<Op>): nat {
    if ops == [] then 0 else (if ops[0].Store? then 1 else 0) + Stores(ops[1..])
  }

  /** Barriers leave no trace in the table. */
  lemma {:induction false} BarriersAreSilent(db: Db, ops: seq<Op>)
    ensures ExecuteAll(db, Changes(ops)) == ExecuteAll(db, ops)
    decreases |ops|
  {
    if ops != [] {
      BarriersAreSilent(Execute(db, ops[0]), ops[1..]);
      if ops[0].Flush? {
        assert [] + Changes(ops[1..]) == Changes(ops[1..]);
      } else {
        assert ([ops[0]] + Changes(ops[1..]))[1..] == Changes(ops[1..]);
      }
    }
  }

  /** Ids go up by one with every message stored, and with nothing else. */
  lemma {:induction false} IdsCountStores(db: Db, ops: seq<Op>)
    ensures ExecuteAll(db, ops).lastId == db.lastId + Stores(ops)
    decreases |ops|
  {
    if ops != [] {
      IdsCountStores(Execute(db, ops[0]), ops[1..]);
    }
  }

  // ---------------------------------------------------------------- the writer thread

  const BATCH: nat := 256

  /** The database connection; a batch is one committed transaction. */
  class Writer {
    var db: Db
    /** Acknowledged barriers, each with the table at that moment. */
    ghost var acked: seq<(nat, Db)>

    constructor (db: Db)
      ensures this.db == db && acked == []
    {
      this.db, acked := db, [];
    }

    method WriteBatch(batch: seq<Op>)
      modifies this`db
      ensures db == ExecuteAll(old(db), batch)
    {
      assert batch[..0] == [];
      for i := 0 to |batch|
        invariant db == ExecuteAll(old(db), batch[..i])
      {
        ExecuteLast(old(db), batch[..i], batch[i]);
        assert batch[..i + 1] == batch[..i] + [batch[i]];
        db := Execute(db, batch[i]);
      }
      assert batch[..|batch|] == batch;
    }

    method AckBarriers(batch: seq<Op>)
      modifies this`acked
      ensures acked == old(acked) + Acks(batch, db)
    {
      assert batch[..0] == [];
      for i := 0 to |batch|
        invariant acked == old(acked) + Acks(batch[..i], db)
      {
        assert batch[..i + 1] == batch[..i] + [batch[i]];
        AcksConcat(batch[..i], [batch[i]], db);
        AckOne(batch[i], db);
        if batch[i].Flush? {
          acked := acked + [(batch[i].barrier, db)];
        }
      }
      assert batch[..|batch|] == batch;
    }

    /**
     * The writer loop on everything that was queued.  `sizes` says how many
     * operations were waiting each time the writer looked; a batch takes at least
     * the one it blocked on and at most `BATCH`.
     */
    method Drain(queue: seq<Op>, sizes: nat -> nat)
      modifies this
      ensures db == ExecuteAll(old(db), queue)
      ensures |old(acked)| <= |acked| && acked[..|old(acked)|] == old(acked)
      ensures Ids(acked[|old(acked)|..]) == Barriers(queue)
      ensures var news := acked[|old(acked)|..];
              forall i :: 0 <= i < |news| ==> AckedAfter(old(db), queue, i, news[i])
    {
      hide Acks, Barriers, Ids, AckedAfter, ExecuteAll;
      ghost var before, news := db, [];
      var done := 0;
      DrainStart(before, queue);
      while done < |queue|
        invariant done <= |queue|
        invariant db == ExecuteAll(before, queue[..done])
        invariant acked == old(acked) + news && Ids(news) == Barriers(queue[..done])
        invariant forall i :: 0 <= i < |news| ==> AckedAfter(before, queue, i, news[i])
      {
        var waiting := |queue| - done;
        var size := Clamp(sizes(done), if waiting < BATCH then waiting else BATCH);
        var batch := queue[done..done + size];
        WriteBatch(batch);
        AckBarriers(batch);
        assert queue[..done + size] == queue[..done] + batch;
        ExecuteConcat(before, queue[..done], batch);
        AcksAfter(before, queue, done, size, db);
        AckIds(queue[..done], batch, news, db);
        assert |news| == |Ids(news)| by {
          IdsLength(news);
        }
        assert acked == old(acked) + (news + Acks(batch, db));
        news := news + Acks(batch, db);
        done := done + size;
      }
      assert queue[..|queue|] == queue;
      assert acked[|old(acked)|..] == news;
    }
  }

  function Clamp(n: nat, max: nat): (r: nat)
    ensures max >= 1 ==> 1 <= r <= max
  {
    if n < 1 then 1 else if n > max then max else n
  }

  function Acks(batch: seq<Op>, db: Db): seq<(nat, Db)> {
    if batch == [] then []
    else (if batch[0].Flush? then [(batch[0].barrier, db)] else []) + Acks(batch[1..], db)
  }

  lemma {:induction false} AcksConcat(a: seq<Op>, b: seq<Op>, db: Db)
    ensures Acks(a + b, db) == Acks(a, db) + Acks(b, db)
  {
    if a == [] {
      assert a + b == b;
    } else {
      assert (a + b)[1..] == a[1..] + b;
      AcksConcat(a[1..], b, db);
      var head := if a[0].Flush? then [(a[0].barrier, db)] else [];
      assert head + (Acks(a[1..], db) + Acks(b, db)) == head + Acks(a[1..], db) + Acks(b, db);
    }
  }

  lemma AckOne(op: Op, db: Db)
    ensures Acks([op], db) == if op.Flush? then [(op.barrier, db)] else []
  {
    assert [op][1..] == [];
  }

  function Ids(acks: seq<(nat, Db)>): seq<nat> {
    seq(|acks|, i requires 0 <= i < |acks| => acks[i].0)
  }

  lemma IdsLength(acks: seq<(nat, Db)>)
    ensures |Ids(acks)| == |acks|
  {
  }

  /** The barriers in a queue, in order. */
  function Barriers(ops: seq<Op>): seq<nat> {
    if ops == [] then [] else (if ops[0].Flush? then [ops[0].barrier] else []) + Barriers(ops[1..])
  }

  lemma {:induction false} BarriersConcat(a: seq<Op>, b: seq<Op>)
    ensures Barriers(a + b) == Barriers(a) + Barriers(b)
  {
    if a == [] {
      assert a + b == b;
    } else {
      assert (a + b)[1..] == a[1..] + b;
      BarriersConcat(a[1..], b);
      var head := if a[0].Flush? then [a[0].barrier] else [];
      assert head + (Barriers(a[1..]) + Barriers(b)) == head + Barriers(a[1..]) + Barriers(b);
    }
  }

  lemma {:induction false} IdsOfAcks(batch: seq<Op>, db: Db)
    ensures Ids(Acks(batch, db)) == Barriers(batch)
  {
    if batch != [] {
      IdsOfAcks(batch[1..], db);
      var head := if batch[0].Flush? then [(batch[0].barrier, db)] else [];
      assert Ids(head + Acks(batch[1..], db)) == Ids(head) + Ids(Acks(batch[1..], db));
    }
  }

  lemma AckIds(done: seq<Op>, batch: seq<Op>, news: seq<(nat, Db)>, db: Db)
    requires Ids(news) == Barriers(done)
    ensures Ids(news + Acks(batch, db)) == Barriers(done + batch)
  {
    hide Acks, Barriers;
    IdsOfAcks(batch, db);
    BarriersConcat(done, batch);
    assert Ids(news + Acks(batch, db)) == Ids(news) + Ids(Acks(batch, db));
  }

  lemma DrainStart(db: Db, queue: seq<Op>)
    ensures db == ExecuteAll(db, queue[..0]) && Ids([]) == Barriers(queue[..0])
  {
  }

  /**
   * The barrier number `k` of the queue was acknowledged with a table that holds
   * everything queued before it: all of a prefix of the queue that contains the barrier.
   */
  ghost predicate AckedAfter(before: Db, queue: seq<Op>, k: nat, ack: (nat, Db)) {
    exists n :: 0 <= n <= |queue| && k < |Barriers(queue[..n])| && ack == (Barriers(queue[..n])[k], ExecuteAll(before, queue[..n]))
  }

  lemma {:induction false} AcksCarry(batch: seq<Op>, db: Db, i: nat)
    requires i < |Acks(batch, db)|
    ensures Acks(batch, db)[i].1 == db
  {
    var here := batch[0].Flush?;
    if !here || i > 0 {
      AcksCarry(batch[1..], db, if here then i - 1 else i);
    }
  }

  lemma AcksAfter(before: Db, queue: seq<Op>, done: nat, size: nat, db: Db)
    requires done + size <= |queue| && db == ExecuteAll(before, queue[..done + size])
    ensures var batch, first := queue[done..done + size], |Barriers(queue[..done])|;
            forall i :: 0 <= i < |Acks(batch, db)| ==> AckedAfter(before, queue, first + i, Acks(batch, db)[i])
  {
    hide Acks, Barriers, ExecuteAll;
    var batch, first, n := queue[done..done + size], |Barriers(queue[..done])|, done + size;
    forall i | 0 <= i < |Acks(batch, db)|
      ensures AckedAfter(before, queue, first + i, Acks(batch, db)[i])
    {
      IdsOfAcks(batch, db);
      AcksCarry(batch, db, i);
      assert Ids(Acks(batch, db))[i] == Acks(batch, db)[i].0;
      BarriersConcat(queue[..done], batch);
      assert queue[..n] == queue[..done] + batch;
      assert Barriers(queue[..n])[first + i] == Acks(batch, db)[i].0;
    }
  }
}
