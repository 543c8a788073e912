/** `History` as it is used: the log as an object, and its startup load. */
module HistoryLog {
  import opened Octets
  import opened Persist
  import opened History

  /** Some ring is no more recently active than any other. */
  lemma OldestExists(log: Log, s: set<string>) returns (k: string)
    requires s != {} && s <= log.Keys
    ensures k in s && forall j :: j in s ==> Age(log[k]) <= Age(log[j])
  {
    hide Age;
    k :| k in s;
    if s != {k} {
      var best := OldestExists(log, s - {k});
      if Age(log[best]) <= Age(log[k]) {
        k := best;
      }
    }
  }

  /** No ring in `gone` is more recently active than one outside it. */
  ghost predicate OlderThanRest(log: Log, gone: set<string>) {
    && gone <= log.Keys
    && forall e, k :: e in gone && k in log && k !in gone ==> Age(log[e]) <= Age(log[k])
  }

  lemma NoneAreOlder(log: Log)
    ensures OlderThanRest(log, {}) && log - {} == log
  {
  }

  lemma OneMoreIsOlder(log: Log, gone: set<string>, k: string)
    requires OlderThanRest(log, gone) && k in log - gone
    requires forall j :: j in log - gone ==> Age((log - gone)[k]) <= Age((log - gone)[j])
    ensures OlderThanRest(log, gone + {k}) && |gone + {k}| == |gone| + 1
    ensures log - (gone + {k}) == log - gone - {k}
  {
    var rest := log - gone;
    assert rest.Keys == log.Keys - gone;
    forall e, j | e in gone + {k} && j in log && j !in gone + {k}
      ensures Age(log[e]) <= Age(log[j])
    {
      assert j in rest;
    }
  }

  lemma EvictionIsOldest(log: Log, caps: Caps, gone: set<string>)
    requires OlderThanRest(log, gone) && |gone| <= EvictionBatch(caps)
    requires |gone| == EvictionBatch(caps) || (log - gone).Keys == {}
    ensures OldestFew(log, caps, gone)
  {
    EvictedSize(log, gone);
    assert (log - gone).Keys == log.Keys - gone;
    assert |log - gone| == |(log - gone).Keys|;
  }

  /** The push loop on one ring: append, then drop from the front. */
  method PushRing(ring: seq<Stored>, m: Stored, max: nat) returns (r: seq<Stored>)
    requires max >= 1
    ensures r == Trim(ring + [m], max)
  {
    r := ring + [m];
    while |r| > max
      invariant IsSuffix(r, ring + [m])
      invariant |ring + [m]| <= max ==> r == ring + [m]
      invariant |ring + [m]| > max ==> |r| >= max
    {
      r := r[1..];
    }
  }

  /** No ring that went was more recently active than one that stayed. */
  ghost predicate Fair(before: Log, after: Log) {
    forall d, k :: d in before && d !in after && k in before && k in after ==> NoMoreRecent(before[d], before[k])
  }

  lemma OldestIsFair(log: Log, caps: Caps, gone: set<string>)
    requires OldestFew(log, caps, gone)
    ensures Fair(log, log - gone)
  {
    hide Age, NoMoreRecent, EvictionBatch;
    forall d, k | d in gone && k in log && k !in gone
      ensures NoMoreRecent(log[d], log[k])
    {
      AgeIsNewest(log[d], log[k]);
    }
  }

  lemma PushIsFair(log: Log, caps: Caps, target: string, m: Stored, gone: set<string>)
    requires MustEvict(log, caps, target) ==> OldestFew(log, caps, gone)
    ensures Fair(log, Push(log, caps, target, m, gone))
  {
    hide OldestFew, Trim, NoMoreRecent, MustEvict;
    var after := Push(log, caps, target, m, gone);
    forall d, k | d in log && d !in after && k in log && k in after
      ensures NoMoreRecent(log[d], log[k])
    {
      EvictionIsFair(log, caps, target, m, gone, d, k);
    }
  }

  /** What the startup loop may leave: each row pushed in turn, ties among the oldest broken either way. */
  ghost predicate Loads(caps: Caps, rows: seq<Row>, log: Log)
    decreases |rows|
  {
    if rows == [] then log == map[]
    else
      var r := rows[|rows| - 1];
      exists before, gone ::
        && Loads(caps, rows[..|rows| - 1], before)
        && (MustEvict(before, caps, r.folded) ==> OldestFew(before, caps, gone))
        && log == Push(before, caps, r.folded, r.message, gone)
  }

  class Rings {
    const caps: Caps
    var log: Log
    var queue: seq<Op>

    constructor (maxPerTarget: nat, maxTargets: nat)
      ensures ValidCaps(caps) && log == map[] && queue == []
      ensures maxPerTarget >= 1 && maxTargets >= 1 ==> caps == Caps(maxPerTarget, maxTargets)
    {
      caps := Caps(if maxPerTarget < 1 then 1 else maxPerTarget, if maxTargets < 1 then 1 else maxTargets);
      log, queue := map[], [];
    }

    /** `evict_oldest`: ties may be broken either way. */
    method EvictOldest() returns (ghost gone: set<string>)
      modifies this`log
      ensures OldestFew(old(log), caps, gone) && log == old(log) - gone
      ensures Fair(old(log), log)
    {
      hide OlderThanRest, OldestFew, Age, EvictionBatch, Fair;
      gone := {};
      var left, rings := EvictionBatch(caps), log;
      NoneAreOlder(log);
      while left > 0 && rings.Keys != {}
        invariant log == old(log)
        invariant OlderThanRest(log, gone) && rings == log - gone
        invariant |gone| + left == EvictionBatch(caps)
      {
        ghost var oldest := OldestExists(rings, rings.Keys);
        var k :| k in rings && forall j :: j in rings ==> Age(rings[k]) <= Age(rings[j]);
        OneMoreIsOlder(log, gone, k);
        rings := rings - {k};
        gone := gone + {k};
        left := left - 1;
      }
      EvictionIsOldest(log, caps, gone);
      OldestIsFair(log, caps, gone);
      log := rings;
    }

    /** Evict if a new target would exceed the cap. */
    method MakeRoom(target: string) returns (ghost gone: set<string>)
      modifies this`log
      ensures MustEvict(old(log), caps, target) ==> OldestFew(old(log), caps, gone)
      ensures log == Kept(old(log), caps, target, gone)
    {
      hide OldestFew;
      gone := {};
      if |log| >= caps.maxTargets && target !in log {
        gone := EvictOldest();
      }
    }

    method PushMessage(target: string, m: Stored) returns (ghost gone: set<string>)
      requires ValidCaps(caps)
      modifies this`log
      ensures MustEvict(old(log), caps, target) ==> OldestFew(old(log), caps, gone)
      ensures log == Push(old(log), caps, target, m, gone)
      ensures Fair(old(log), log)
    {
      hide OldestFew, Trim, MustEvict, Kept, Fair;
      gone := MakeRoom(target);
      var ring := PushRing(Ring(log, target), m, caps.maxPerTarget);
      log := log[target := ring];
      PushIsFair(old(log), caps, target, m, gone);
    }

    /** `record`, with persistence attached. */
    method RecordMessage(target: string, m: Stored) returns (ghost gone: set<string>)
      requires ValidCaps(caps)
      modifies this
      ensures MustEvict(old(log), caps, target) ==> OldestFew(old(log), caps, gone)
      ensures forall db :: State(log, queue, db) == Take(State(old(log), old(queue), db), caps, Record(target, m, gone))
    {
      hide OldestFew, Push;
      gone := PushMessage(target, m);
      queue := queue + [Store(target, m)];
    }

    method RedactMessage(target: string, id: string) returns (removed: Option<Stored>)
      modifies this
      ensures forall db :: State(log, queue, db) == Take(State(old(log), old(queue), db), caps, Redact(target, id))
      ensures removed.Some? <==> RedactFinds(old(log), target, id)
      ensures removed.Some? ==> removed.value.msgid == id
    {
      if target !in log {
        return None;
      }
      var i := Position(log[target], id);
      if i == |log[target]| {
        return None;
      }
      removed := Some(log[target][i]);
      log := log[target := log[target][..i] + log[target][i + 1..]];
      queue := queue + [Delete(target, id)];
    }

    method Rename(oldKey: string, newKey: string)
      modifies this
      ensures forall db :: State(log, queue, db) == Take(State(old(log), old(queue), db), caps, RenameTarget(oldKey, newKey))
    {
      if oldKey in log {
        var ring := log[oldKey];
        log := log - {oldKey};
        log := log[newKey := ring];
      }
      queue := queue + [Persist.Rename(oldKey, newKey)];
    }

    method ForgetTarget(target: string)
      modifies this
      ensures forall db :: State(log, queue, db) == Take(State(old(log), old(queue), db), caps, Forget(target))
    {
      log := log - {target};
    }

    /** Startup: the loaded rows, oldest first, without queueing them again. */
    method LoadRows(rows: seq<Row>)
      requires ValidCaps(caps) && log == map[]
      modifies this`log
      ensures Loads(caps, rows, log)
      ensures Follows(log, rows) && Bounded(log, caps)
      ensures Covers(caps, rows) ==> Full(log, rows)
    {
      hide Follows, Bounded, Covers, Full, Push, OldestFew, MustEvict, Fair;
      NothingLoaded(caps);
      assert rows[..0] == [];
      for i := 0 to |rows|
        invariant Loads(caps, rows[..i], log)
        invariant Follows(log, rows[..i]) && Bounded(log, caps)
        invariant Covers(caps, rows) ==> Full(log, rows[..i])
      {
        ghost var before := log;
        ghost var gone := PushMessage(rows[i].folded, rows[i].message);
        ghost var now := rows[..i + 1];
        assert now[..|now| - 1] == rows[..i] && now[|now| - 1] == rows[i];
        assert Loads(caps, now, log);
        PushFollows(before, caps, rows[i].folded, rows[i].message, gone, rows[..i], rows[i].id);
        PushBounded(before, caps, rows[i].folded, rows[i].message, gone);
        if Covers(caps, rows) {
          PushFull(before, caps, rows, i, gone);
        }
        assert rows[..i + 1] == rows[..i] + [rows[i]];
      }
      assert rows[..|rows|] == rows;
    }
  }

  function Targets(rows: seq<Row>): set<string> {
    set r | r in rows :: r.folded
  }

  /** The caps leave room for every row. */
  ghost predicate Covers(caps: Caps, rows: seq<Row>) {
    |Targets(rows)| <= caps.maxTargets && forall t :: |Messages(rows, t)| <= caps.maxPerTarget
  }

  /** Every row is in its ring. */
  ghost predicate Full(log: Log, rows: seq<Row>) {
    log.Keys == Targets(rows) && forall t :: t in log ==> log[t] == Messages(rows, t)
  }

  lemma NothingLoaded(caps: Caps)
    ensures Follows(map[], []) && Bounded(map[], caps) && Full(map[], [])
  {
  }

  lemma TargetsStored(rows: seq<Row>, r: Row)
    ensures Targets(rows + [r]) == Targets(rows) + {r.folded}
  {
    assert forall x :: x in rows + [r] <==> x in rows || x == r;
    forall t | t in Targets(rows) + {r.folded}
      ensures t in Targets(rows + [r])
    {
      if t == r.folded {
        assert r in rows + [r];
      } else {
        var x :| x in rows && x.folded == t;
        assert x in rows + [r];
      }
    }
  }

  lemma SubsetSize(a: set<string>, b: set<string>)
    requires a <= b
    ensures |a| <= |b|
  {
    assert a + (b - a) == b;
  }

  lemma NoNeedToEvict(log: Log, caps: Caps, rows: seq<Row>, i: nat)
    requires i < |rows| && Covers(caps, rows) && Full(log, rows[..i])
    ensures !MustEvict(log, caps, rows[i].folded)
    ensures Targets(rows[..i] + [rows[i]]) == log.Keys + {rows[i].folded}
  {
    hide Messages;
    var r := rows[i];
    TargetsStored(rows[..i], r);
    assert forall x :: x in rows[..i] + [r] ==> x in rows;
    SubsetSize(Targets(rows[..i] + [r]), Targets(rows));
    assert |log| == |log.Keys|;
  }

  lemma RingIsFull(log: Log, caps: Caps, rows: seq<Row>, i: nat, t: string)
    requires i < |rows| && Covers(caps, rows) && Full(log, rows[..i])
    ensures var r := rows[i];
            Messages(rows[..i] + [r], t) == Ring(log, t) + (if r.folded == t then [r.message] else [])
    ensures |Messages(rows[..i] + [rows[i]], t)| <= caps.maxPerTarget
  {
    hide Messages, Targets;
    assert rows == (rows[..i] + [rows[i]]) + rows[i + 1..];
    MessagesStored(rows[..i], rows[i], t);
    MessagesConcat(rows[..i] + [rows[i]], rows[i + 1..], t);
    if t !in log {
      NoRowsOf(rows[..i], t);
    }
  }

  /** A push that neither evicts nor trims. */
  lemma PlainPush(log: Log, caps: Caps, target: string, m: Stored, gone: set<string>)
    requires !MustEvict(log, caps, target) && |Ring(log, target)| < caps.maxPerTarget
    ensures var log' := Push(log, caps, target, m, gone);
            && log'.Keys == log.Keys + {target}
            && forall t :: Ring(log', t) == Ring(log, t) + if t == target then [m] else []
  {
    hide Trim, MustEvict;
    var ring := Ring(log, target) + [m];
    TrimKeepsNewest(ring, caps.maxPerTarget);
    assert Kept(log, caps, target, gone) == log;
    assert Push(log, caps, target, m, gone) == log[target := ring];
    forall t
      ensures Ring(log[target := ring], t) == Ring(log, t) + if t == target then [m] else []
    {
      assert Ring(log, t) + [] == Ring(log, t);
    }
  }

  /** With room for everything, no push evicts and no ring is trimmed. */
  lemma PushFull(log: Log, caps: Caps, rows: seq<Row>, i: nat, gone: set<string>)
    requires i < |rows| && Covers(caps, rows) && Full(log, rows[..i])
    ensures Full(Push(log, caps, rows[i].folded, rows[i].message, gone), rows[..i] + [rows[i]])
  {
    hide Messages, Targets, Covers, MustEvict, Push, Full;
    var r := rows[i];
    NoNeedToEvict(log, caps, rows, i);
    RingIsFull(log, caps, rows, i, r.folded);
    PlainPush(log, caps, r.folded, r.message, gone);
    var log' := Push(log, caps, r.folded, r.message, gone);
    forall t
      ensures Ring(log', t) == Messages(rows[..i] + [r], t)
    {
      RingIsFull(log, caps, rows, i, t);
    }
    RingsAreFull(log', rows[..i] + [r]);
  }

  lemma RingsAreFull(log: Log, rows: seq<Row>)
    requires log.Keys == Targets(rows) && forall t :: Ring(log, t) == Messages(rows, t)
    ensures Full(log, rows)
  {
    hide Messages, Targets;
    forall t | t in log
      ensures log[t] == Messages(rows, t)
    {
      assert Ring(log, t) == log[t];
    }
  }

  lemma {:induction false} NoRowsOf(rows: seq<Row>, t: string)
    requires t !in Targets(rows)
    ensures Messages(rows, t) == []
  {
    if rows != [] {
      assert rows[0] in rows;
      assert forall r :: r in rows[1..] ==> r in rows;
      NoRowsOf(rows[1..], t);
    }
  }

  // ---------------------------------------------------------------- a restart

  const RETAIN_ROWS: nat := 100_000

  function MaxId(rows: seq<Row>): nat {
    if rows == [] then 0 else var m := MaxId(rows[1..]); if rows[0].id > m then rows[0].id else m
  }

  function KeepAbove(rows: seq<Row>, bound: int): seq<Row> {
    if rows == [] then [] else (if rows[0].id > bound then [rows[0]] else []) + KeepAbove(rows[1..], bound)
  }

  /** The table after the pruning at startup. */
  function Pruned(db: Db): Db {
    db.(rows := KeepAbove(db.rows, MaxId(db.rows) - RETAIN_ROWS))
  }

  /** The rows a restart reads: of the pruned table, the newest `limit`, oldest first. */
  function LoadedRows(db: Db, limit: nat): seq<Row> {
    var rows := Pruned(db).rows;
    if |rows| > limit then rows[|rows| - limit..] else rows
  }

  /** Which rows the pruning keeps: those among the last hundred thousand ids. */
  lemma {:induction false} KeepAboveIff(rows: seq<Row>, bound: int, r: Row)
    ensures r in KeepAbove(rows, bound) <==> r in rows && r.id > bound
  {
    if rows != [] {
      KeepAboveIff(rows[1..], bound, r);
      assert rows == [rows[0]] + rows[1..];
    }
  }

  lemma {:induction false} MaxIdIsLargest(rows: seq<Row>)
    ensures forall i :: 0 <= i < |rows| ==> rows[i].id <= MaxId(rows)
    ensures rows != [] ==> exists i :: 0 <= i < |rows| && rows[i].id == MaxId(rows)
    ensures rows == [] ==> MaxId(rows) == 0
  {
    if |rows| > 0 {
      MaxIdIsLargest(rows[1..]);
      if |rows| > 1 && rows[0].id <= MaxId(rows[1..]) {
        var i :| 0 <= i < |rows[1..]| && rows[1..][i].id == MaxId(rows[1..]);
        assert rows[i + 1].id == MaxId(rows);
      } else {
        assert rows[0].id == MaxId(rows);
      }
    }
  }

  lemma PrunedIff(db: Db, r: Row)
    ensures r in Pruned(db).rows <==> r in db.rows && r.id > MaxId(db.rows) - 100_000
  {
    KeepAboveIff(db.rows, MaxId(db.rows) - RETAIN_ROWS, r);
  }

  /** How many rows a start reads. */
  lemma LoadedCount(db: Db, limit: nat)
    ensures |LoadedRows(db, limit)| == if |Pruned(db).rows| < limit then |Pruned(db).rows| else limit
  {
  }

  lemma {:induction false} KeepAll(rows: seq<Row>, bound: int)
    requires forall i :: 0 <= i < |rows| ==> rows[i].id > bound
    ensures KeepAbove(rows, bound) == rows
  {
    if rows != [] {
      KeepAll(rows[1..], bound);
    }
  }

  /** Nothing is pruned, nothing is cut off, and the new caps have room for every row. */
  ghost predicate RoomForAll(db: Db, limit: nat, caps: Caps) {
    && (forall i :: 0 <= i < |db.rows| ==> db.rows[i].id > MaxId(db.rows) - RETAIN_ROWS)
    && |db.rows| <= limit
    && Covers(caps, db.rows)
  }

  /**
   * Shut down after the queue is drained, start again with enough room: every ring
   * held before is the newest part of the ring loaded for its target.
   */
  lemma RestartKeepsRings(st: State, caps: Caps, log: Log, limit: nat, caps': Caps, t: string)
    requires Consistent(st, caps) && st.queue == [] && t in st.log
    requires RoomForAll(st.db, limit, caps')
    requires Covers(caps', LoadedRows(st.db, limit)) ==> Full(log, LoadedRows(st.db, limit))
    ensures IsSuffix(st.log[t], Ring(log, t))
  {
    hide Messages;
    KeepAll(st.db.rows, MaxId(st.db.rows) - RETAIN_ROWS);
    assert LoadedRows(st.db, limit) == st.db.rows;
    if t !in log {
      NoRowsOf(st.db.rows, t);
    }
  }

  lemma {:induction false} KeepAboveDistinct(rows: seq<Row>, bound: int, t: string)
    requires DistinctIds(Messages(rows, t))
    ensures DistinctIds(Messages(KeepAbove(rows, bound), t))
    ensures forall m :: m in Messages(KeepAbove(rows, bound), t) ==> m in Messages(rows, t)
  {
    hide Messages, DistinctIds;
    if rows == [] {
    } else {
      var r, rest, kept := rows[0], rows[1..], KeepAbove(rows[1..], bound);
      assert rows == [r] + rest;
      MessagesCons(r, rest, t);
      MessagesCons(r, kept, t);
      DistinctTail(Share(r, t), Messages(rest, t));
      KeepAboveDistinct(rest, bound, t);
      DistinctHead(Share(r, t), Messages(rest, t), Messages(kept, t));
      assert [] + kept == kept;
    }
  }

  lemma DistinctTail(p: seq<Stored>, s: seq<Stored>)
    requires DistinctIds(p + s)
    ensures DistinctIds(s)
  {
    assert forall i :: 0 <= i < |s| ==> s[i] == (p + s)[|p| + i];
  }

  lemma DistinctHead(p: seq<Stored>, s: seq<Stored>, kept: seq<Stored>)
    requires DistinctIds(p + s) && DistinctIds(kept) && |p| <= 1
    requires forall m :: m in kept ==> m in s
    ensures DistinctIds(p + kept)
  {
    forall i, j | 0 <= i < j < |p + kept|
      ensures (p + kept)[i].msgid != (p + kept)[j].msgid
    {
      if i < |p| {
        var m := kept[j - |p|];
        assert m in kept;
        var k :| 0 <= k < |s| && s[k] == m;
        assert (p + s)[|p| + k] == m && (p + s)[0] == p[0];
      }
    }
  }

  lemma SuffixRowsFollow(log: Log, rows: seq<Row>, n: nat)
    requires n <= |rows| && Follows(log, rows[n..])
    ensures Follows(log, rows)
  {
    hide Messages;
    assert rows == rows[..n] + rows[n..];
    forall t | t in log
      ensures IsSuffix(log[t], Messages(rows, t))
    {
      MessagesConcat(rows[..n], rows[n..], t);
    }
  }

  /** Whatever was pruned or cut off, what `LoadRows` builds is a consistent state to go on from. */
  lemma RestartIsConsistent(db: Db, log: Log, limit: nat, caps: Caps)
    requires Distinct(db.rows) && Follows(log, LoadedRows(db, limit)) && Bounded(log, caps)
    ensures Consistent(State(log, [], Pruned(db)), caps)
  {
    hide Messages, Follows, Bounded, DistinctIds;
    var rows := Pruned(db).rows;
    if |rows| > limit {
      SuffixRowsFollow(log, rows, |rows| - limit);
    }
    forall t
      ensures DistinctIds(Messages(rows, t))
    {
      KeepAboveDistinct(db.rows, MaxId(db.rows) - RETAIN_ROWS, t);
    }
  }
}
