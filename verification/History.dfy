/** The in-memory rings and how they follow the table (ferrixd/src/history.rs). */
module History {
  import opened Persist

  type Log = map<string, seq<Stored>>

  /** Limits as `History::new` keeps them: never below one. */
  datatype Caps = Caps(maxPerTarget: nat, maxTargets: nat)

  predicate ValidCaps(caps: Caps) {
    caps.maxPerTarget >= 1 && caps.maxTargets >= 1
  }

  /** The messages stored under one target, oldest first. */
  function Messages(rows: seq<Row>, target: string): seq<Stored> {
    if rows == [] then []
    else (if rows[0].folded == target then [rows[0].message] else []) + Messages(rows[1..], target)
  }

  predicate IsSuffix(a: seq<Stored>, b: seq<Stored>) {
    |a| <= |b| && a == b[|b| - |a|..]
  }

  /** Every ring holds the newest messages of its target. */
  predicate Follows(log: Log, rows: seq<Row>) {
    forall t :: t in log ==> IsSuffix(log[t], Messages(rows, t))
  }

  predicate Bounded(log: Log, caps: Caps) {
    |log| <= caps.maxTargets && forall t :: t in log ==> |log[t]| <= caps.maxPerTarget
  }

  predicate DistinctIds(s: seq<Stored>) {
    forall i, j :: 0 <= i < j < |s| ==> s[i].msgid != s[j].msgid
  }

  predicate HasId(s: seq<Stored>, id: string) {
    exists i :: 0 <= i < |s| && s[i].msgid == id
  }

  // ------------------------------------------------------------------- the steps

  function Age(ring: seq<Stored>): nat {
    if ring == [] then 0 else ring[|ring| - 1].timeMs
  }

  function EvictionBatch(caps: Caps): nat {
    if caps.maxTargets / 32 > 1 then caps.maxTargets / 32 else 1
  }

  /** A choice `evict_oldest` may make: a batch of rings, none more recently active than a survivor. */
  predicate OldestFew(log: Log, caps: Caps, gone: set<string>) {
    && gone <= log.Keys
    && |gone| == (if EvictionBatch(caps) < |log| then EvictionBatch(caps) else |log|)
    && forall e, k :: e in gone && k in log && k !in gone ==> Age(log[e]) <= Age(log[k])
  }

  predicate MustEvict(log: Log, caps: Caps, target: string) {
    |log| >= caps.maxTargets && target !in log
  }

  function Trim(ring: seq<Stored>, max: nat): seq<Stored> {
    if max >= 1 && |ring| > max then ring[|ring| - max..] else ring
  }

  lemma TrimKeepsNewest(ring: seq<Stored>, max: nat)
    ensures IsSuffix(Trim(ring, max), ring)
    ensures max >= 1 ==> |Trim(ring, max)| <= max
    ensures |ring| <= max ==> Trim(ring, max) == ring
  {
  }

  /** The rings left by the eviction that a new target may force. */
  function Kept(log: Log, caps: Caps, target: string, gone: set<string>): Log {
    if MustEvict(log, caps, target) then log - gone else log
  }

  function Ring(log: Log, target: string): seq<Stored> {
    if target in log then log[target] else []
  }

  function Push(log: Log, caps: Caps, target: string, m: Stored, gone: set<string>): Log {
    var kept := Kept(log, caps, target, gone);
    kept[target := Trim(Ring(kept, target) + [m], caps.maxPerTarget)]
  }

  function Without(s: seq<Stored>, id: string): seq<Stored> {
    if s == [] then [] else (if s[0].msgid == id then [] else [s[0]]) + Without(s[1..], id)
  }

  /** The index of the first message with this id, or the length. */
  function Position(ring: seq<Stored>, id: string): (i: nat)
    ensures i <= |ring|
    ensures i < |ring| ==> ring[i].msgid == id
    ensures forall k :: 0 <= k < i ==> ring[k].msgid != id
  {
    if ring == [] || ring[0].msgid == id then 0 else 1 + Position(ring[1..], id)
  }

  function Redacted(log: Log, target: string, id: string): Log {
    if target !in log then log
    else
      var i := Position(log[target], id);
      if i == |log[target]| then log else log[target := log[target][..i] + log[target][i + 1..]]
  }

  predicate RedactFinds(log: Log, target: string, id: string) {
    target in log && Position(log[target], id) < |log[target]|
  }

  function Renamed(log: Log, oldKey: string, newKey: string): Log {
    if oldKey in log then (log - {oldKey})[newKey := log[oldKey]] else log
  }

  // ------------------------------------------------------------ rows of one target

  /** What one row contributes to a target. */
  function Share(r: Row, t: string): seq<Stored> {
    if r.folded == t then [r.message] else []
  }

  lemma {:induction false} MessagesConcat(a: seq<Row>, b: seq<Row>, t: string)
    ensures Messages(a + b, t) == Messages(a, t) + Messages(b, t)
  {
    if a == [] {
      assert a + b == b;
    } else {
      assert (a + b)[1..] == a[1..] + b;
      MessagesConcat(a[1..], b, t);
      var p := Share(a[0], t);
      assert p + (Messages(a[1..], t) + Messages(b, t)) == (p + Messages(a[1..], t)) + Messages(b, t);
    }
  }

  lemma MessagesCons(r: Row, rows: seq<Row>, t: string)
    ensures Messages([r] + rows, t) == Share(r, t) + Messages(rows, t)
  {
    assert ([r] + rows)[1..] == rows;
  }

  lemma MessagesStored(rows: seq<Row>, r: Row, t: string)
    ensures Messages(rows + [r], t) == Messages(rows, t) + if r.folded == t then [r.message] else []
  {
    MessagesConcat(rows, [r], t);
    assert [r][1..] == [];
  }

  lemma WithoutCons(m: Stored, rest: seq<Stored>, id: string)
    ensures Without([m] + rest, id) == if m.msgid == id then Without(rest, id) else [m] + Without(rest, id)
  {
    assert ([m] + rest)[1..] == rest;
  }

  lemma {:induction false} MessagesDeleted(rows: seq<Row>, folded: string, id: string, t: string)
    ensures Messages(DeleteRows(rows, folded, id), t) ==
            if t == folded then Without(Messages(rows, t), id) else Messages(rows, t)
  {
    hide Messages, Without;
    if rows == [] {
      NoMessages(t);
      WithoutAbsent([], id);
    } else {
      var r, rest := rows[0], rows[1..];
      assert rows == [r] + rest;
      MessagesDeleted(rest, folded, id, t);
      MessagesCons(r, rest, t);
      MessagesCons(r, DeleteRows(rest, folded, id), t);
      var m := Messages(rest, t);
      WithoutCons(r.message, m, id);
      assert [] + m == m;
      assert [] + Messages(DeleteRows(rest, folded, id), t) == Messages(DeleteRows(rest, folded, id), t);
    }
  }

  lemma NoMessages(t: string)
    ensures Messages([], t) == []
  {
  }

  lemma {:induction false} MessagesRenamed(rows: seq<Row>, oldKey: string, newKey: string, t: string)
    requires oldKey != newKey && Messages(rows, newKey) == []
    ensures Messages(RenameRows(rows, oldKey, newKey), t) ==
            if t == newKey then Messages(rows, oldKey) else if t == oldKey then [] else Messages(rows, t)
  {
    if rows != [] {
      assert rows[0].folded != newKey && Messages(rows[1..], newKey) == [];
      MessagesRenamed(rows[1..], oldKey, newKey, t);
      var rest := RenameRows(rows[1..], oldKey, newKey);
      assert ([RenameRow(rows[0], oldKey, newKey)] + rest)[1..] == rest;
    }
  }

  lemma {:induction false} RenameToSelf(rows: seq<Row>, key: string)
    ensures RenameRows(rows, key, key) == rows
  {
    if rows != [] {
      RenameToSelf(rows[1..], key);
    }
  }

  // -------------------------------------------------------------- steps keep the rings

  lemma RingPushed(ring: seq<Stored>, all: seq<Stored>, m: Stored, max: nat)
    requires IsSuffix(ring, all)
    ensures IsSuffix(Trim(ring + [m], max), all + [m])
  {
    assert (all + [m])[|all| - |ring|..] == ring + [m];
    TrimKeepsNewest(ring + [m], max);
    SuffixTrans(Trim(ring + [m], max), ring + [m], all + [m]);
  }

  /** A pushed message that is also appended to the table: record, and load at startup. */
  lemma PushFollows(log: Log, caps: Caps, target: string, m: Stored, gone: set<string>, rows: seq<Row>, id: nat)
    requires Follows(log, rows)
    ensures Follows(Push(log, caps, target, m, gone), rows + [Row(id, target, m)])
  {
    hide Messages, Trim, IsSuffix;
    var log' := Push(log, caps, target, m, gone);
    forall t | t in log'
      ensures IsSuffix(log'[t], Messages(rows + [Row(id, target, m)], t))
    {
      MessagesStored(rows, Row(id, target, m), t);
      var s := Messages(rows, t);
      if t == target {
        EmptySuffix(s);
        RingPushed(Ring(Kept(log, caps, target, gone), target), s, m, caps.maxPerTarget);
      } else {
        assert t in log && log'[t] == log[t];
        assert s + [] == s;
      }
    }
  }

  lemma EmptySuffix(s: seq<Stored>)
    ensures IsSuffix([], s)
  {
  }

  lemma SuffixTrans(a: seq<Stored>, b: seq<Stored>, c: seq<Stored>)
    requires IsSuffix(a, b) && IsSuffix(b, c)
    ensures IsSuffix(a, c)
  {
  }

  lemma EvictedSize(log: Log, gone: set<string>)
    requires gone <= log.Keys
    ensures |log - gone| == |log| - |gone|
  {
    assert (log - gone).Keys == log.Keys - gone;
  }

  lemma InsertedSize(log: Log, target: string, ring: seq<Stored>)
    ensures |log[target := ring]| == |log| + if target in log then 0 else 1
  {
    assert log[target := ring].Keys == log.Keys + {target};
  }

  /** After a forced eviction there is room for one more ring. */
  lemma KeptBounded(log: Log, caps: Caps, target: string, gone: set<string>)
    requires ValidCaps(caps) && Bounded(log, caps)
    requires MustEvict(log, caps, target) ==> OldestFew(log, caps, gone)
    ensures var kept := Kept(log, caps, target, gone);
            Bounded(kept, caps) && (target !in kept ==> |kept| < caps.maxTargets)
  {
    hide OldestFew;
    if MustEvict(log, caps, target) {
      EvictsSome(log, caps, gone);
      EvictedSize(log, gone);
    }
  }

  lemma PushBounded(log: Log, caps: Caps, target: string, m: Stored, gone: set<string>)
    requires ValidCaps(caps) && Bounded(log, caps)
    requires MustEvict(log, caps, target) ==> OldestFew(log, caps, gone)
    ensures Bounded(Push(log, caps, target, m, gone), caps)
  {
    hide Trim, OldestFew, Kept, MustEvict, Ring;
    KeptBounded(log, caps, target, gone);
    var kept := Kept(log, caps, target, gone);
    InsertedSize(kept, target, Trim(Ring(kept, target) + [m], caps.maxPerTarget));
    TrimKeepsNewest(Ring(kept, target) + [m], caps.maxPerTarget);
  }

  lemma EvictsSome(log: Log, caps: Caps, gone: set<string>)
    requires OldestFew(log, caps, gone) && |log| >= 1
    ensures gone <= log.Keys && |gone| >= 1
  {
  }

  /** The newest message of `a` is no later than that of `b`; an empty ring counts as the beginning of time. */
  predicate NoMoreRecent(a: seq<Stored>, b: seq<Stored>) {
    a == [] || (if b == [] then a[|a| - 1].timeMs == 0 else a[|a| - 1].timeMs <= b[|b| - 1].timeMs)
  }

  lemma AgeIsNewest(a: seq<Stored>, b: seq<Stored>)
    ensures Age(a) <= Age(b) <==> NoMoreRecent(a, b)
  {
  }

  /** The rings an eviction keeps are at least as recently active as those it drops. */
  lemma EvictionIsFair(log: Log, caps: Caps, target: string, m: Stored, gone: set<string>, dropped: string, kept: string)
    requires MustEvict(log, caps, target) && OldestFew(log, caps, gone)
    requires dropped in log && dropped !in Push(log, caps, target, m, gone)
    requires kept in log && kept in Push(log, caps, target, m, gone)
    ensures NoMoreRecent(log[dropped], log[kept]) && Push(log, caps, target, m, gone)[kept] == log[kept]
  {
    hide Age, Trim, EvictionBatch;
    assert dropped in gone && kept !in gone;
    AgeIsNewest(log[dropped], log[kept]);
  }

  /** The target's ring after a push: the message last, and before it as much as there is room for. */
  lemma PushedRing(log: Log, caps: Caps, target: string, m: Stored, gone: set<string>)
    requires ValidCaps(caps)
    ensures var log', before := Push(log, caps, target, m, gone), if target in log then log[target] else [];
            && target in log'
            && var ring := log'[target];
            && |ring| == (if |before| < caps.maxPerTarget then |before| + 1 else caps.maxPerTarget)
            && ring[|ring| - 1] == m
            && forall i :: 0 <= i < |ring| - 1 ==> ring[i] == before[|before| + 1 - |ring| + i]
  {
    hide OldestFew;
    var before := if target in log then log[target] else [];
    assert Ring(Kept(log, caps, target, gone), target) == before || MustEvict(log, caps, target);
  }

  /** The other rings stay as they are, unless they are evicted; that takes a new target and a full log. */
  lemma PushedOthers(log: Log, caps: Caps, target: string, m: Stored, gone: set<string>, t: string)
    requires t != target
    ensures var log' := Push(log, caps, target, m, gone);
            && (t in log' ==> t in log && log'[t] == log[t])
            && (t in log && t !in log' ==> |log| >= caps.maxTargets && target !in log && t in gone)
  {
    hide Trim;
  }

  /** How many rings an eviction leaves: all but one in thirty-two of the cap, and at least one goes. */
  lemma PushedCount(log: Log, caps: Caps, target: string, m: Stored, gone: set<string>)
    requires MustEvict(log, caps, target) && OldestFew(log, caps, gone)
    ensures var batch := if caps.maxTargets >= 64 then caps.maxTargets / 32 else 1;
            |Push(log, caps, target, m, gone)| == |log| + 1 - if batch < |log| then batch else |log|
  {
    hide Trim, Age;
    EvictedSize(log, gone);
    InsertedSize(log - gone, target, Trim(Ring(log - gone, target) + [m], caps.maxPerTarget));
  }

  /** A redaction takes out the message with the id and nothing else. */
  lemma RedactedIsWithout(log: Log, target: string, id: string)
    requires target in log ==> DistinctIds(log[target])
    ensures Redacted(log, target, id) == if target in log then log[target := Without(log[target], id)] else log
  {
    hide Without;
    if target in log {
      var ring, i := log[target], Position(log[target], id);
      if i == |ring| {
        WithoutAbsent(ring, id);
        assert log[target := ring] == log;
      } else {
        WithoutOne(ring, i);
      }
    }
  }

  /** A rename moves the ring and leaves the others alone. */
  lemma RenamedRings(log: Log, oldKey: string, newKey: string, t: string)
    ensures var log' := Renamed(log, oldKey, newKey);
            if oldKey !in log then log' == log
            else if t == newKey then t in log' && log'[t] == log[oldKey]
            else if t == oldKey then t !in log'
            else (t in log' <==> t in log) && (t in log ==> log'[t] == log[t])
  {
  }

  lemma {:induction false} WithoutAbsent(s: seq<Stored>, id: string)
    requires !HasId(s, id)
    ensures Without(s, id) == s
  {
    if s != [] {
      assert s[0].msgid != id;
      assert !HasId(s[1..], id) by {
        assert forall i :: 0 <= i < |s[1..]| ==> s[1..][i] == s[i + 1];
      }
      WithoutAbsent(s[1..], id);
    }
  }

  /** Deleting by id takes exactly the one message out. */
  lemma {:induction false} WithoutOne(s: seq<Stored>, i: nat)
    requires DistinctIds(s) && i < |s|
    ensures Without(s, s[i].msgid) == s[..i] + s[i + 1..]
  {
    if i == 0 {
      WithoutAbsent(s[1..], s[0].msgid);
    } else {
      WithoutOne(s[1..], i - 1);
      assert s[1..][..i - 1] == s[1..i] && s[1..][i..] == s[i + 1..];
    }
  }

  lemma {:induction false} WithoutDistinct(s: seq<Stored>, id: string)
    requires DistinctIds(s)
    ensures DistinctIds(Without(s, id))
  {
    if !HasId(s, id) {
      WithoutAbsent(s, id);
    } else {
      var i :| 0 <= i < |s| && s[i].msgid == id;
      WithoutOne(s, i);
    }
  }

  /** Removing the same message from a ring and from the rows it is a suffix of. */
  lemma RedactSuffix(ring: seq<Stored>, all: seq<Stored>, i: nat)
    requires IsSuffix(ring, all) && DistinctIds(all) && i < |ring|
    ensures IsSuffix(ring[..i] + ring[i + 1..], Without(all, ring[i].msgid))
  {
    var k := |all| - |ring| + i;
    assert all[k] == ring[i];
    WithoutOne(all, k);
    var left := all[..k] + all[k + 1..];
    var n := |all| - |ring|;
    assert left[n..] == ring[..i] + ring[i + 1..];
  }

  lemma RedactFollows(log: Log, target: string, id: string, db: Db)
    requires Follows(log, db.rows) && DistinctIds(Messages(db.rows, target)) && RedactFinds(log, target, id)
    ensures Follows(Redacted(log, target, id), Execute(db, Delete(target, id)).rows)
  {
    hide Messages, DistinctIds, IsSuffix, Position;
    var log' := Redacted(log, target, id);
    forall t | t in log'
      ensures IsSuffix(log'[t], Messages(DeleteRows(db.rows, target, id), t))
    {
      MessagesDeleted(db.rows, target, id, t);
      if t == target {
        RedactSuffix(log[target], Messages(db.rows, target), Position(log[target], id));
      }
    }
  }

  /** A target that neither the rings nor the table know. */
  predicate Unused(log: Log, rows: seq<Row>, target: string) {
    target !in log && Messages(rows, target) == []
  }

  lemma RenameFollows(log: Log, oldKey: string, newKey: string, db: Db)
    requires Follows(log, db.rows) && (oldKey == newKey || Unused(log, db.rows, newKey))
    ensures Follows(Renamed(log, oldKey, newKey), Execute(db, Rename(oldKey, newKey)).rows)
  {
    hide Messages;
    if oldKey == newKey {
      RenameToSelf(db.rows, oldKey);
    } else {
      forall t
        ensures t in Renamed(log, oldKey, newKey) ==>
                  IsSuffix(Renamed(log, oldKey, newKey)[t], Messages(RenameRows(db.rows, oldKey, newKey), t))
      {
        MessagesRenamed(db.rows, oldKey, newKey, t);
      }
    }
  }

  // -------------------------------------------------------------------- every run

  /** The rings, the operations not yet written, and the table. */
  datatype State = State(log: Log, queue: seq<Op>, db: Db)

  /** The table once everything queued has been written. */
  function Settled(st: State): Db {
    ExecuteAll(st.db, st.queue)
  }

  datatype Step =
    | Record(target: string, m: Stored, gone: set<string>)
    | Redact(target: string, id: string)
    | RenameTarget(oldKey: string, newKey: string)
    | Forget(target: string)
    | Write(n: nat)

  function Enqueue(st: State, log: Log, op: Op): State {
    State(log, st.queue + [op], st.db)
  }

  function Take(st: State, caps: Caps, step: Step): State {
    match step
    case Record(target, m, gone) => Enqueue(st, Push(st.log, caps, target, m, gone), Store(target, m))
    case Redact(target, id) =>
      if RedactFinds(st.log, target, id) then Enqueue(st, Redacted(st.log, target, id), Delete(target, id)) else st
    case RenameTarget(oldKey, newKey) => Enqueue(st, Renamed(st.log, oldKey, newKey), Rename(oldKey, newKey))
    case Forget(target) => st.(log := st.log - {target})
    case Write(n) => if n > |st.queue| then st else State(st.log, st.queue[n..], ExecuteAll(st.db, st.queue[..n]))
  }

  /**
   * The side conditions of a run: a recorded id is new to its target, a rename
   * goes to a target that is not in use, and an eviction drops the oldest rings.
   */
  predicate Allowed(st: State, caps: Caps, step: Step) {
    match step
    case Record(target, m, gone) =>
      && !HasId(Messages(Settled(st).rows, target), m.msgid)
      && (MustEvict(st.log, caps, target) ==> OldestFew(st.log, caps, gone))
    case RenameTarget(oldKey, newKey) => oldKey == newKey || Unused(st.log, Settled(st).rows, newKey)
    case _ => true
  }

  ghost predicate Distinct(rows: seq<Row>) {
    forall t :: DistinctIds(Messages(rows, t))
  }

  ghost predicate Consistent(st: State, caps: Caps) {
    Follows(st.log, Settled(st).rows) && Bounded(st.log, caps) && Distinct(Settled(st).rows)
  }

  lemma SettledEnqueue(st: State, log: Log, op: Op)
    ensures Settled(Enqueue(st, log, op)) == Execute(Settled(st), op)
  {
    ExecuteLast(st.db, st.queue, op);
  }

  lemma RecordKeeps(st: State, caps: Caps, target: string, m: Stored, gone: set<string>)
    requires ValidCaps(caps) && Consistent(st, caps) && Allowed(st, caps, Record(target, m, gone))
    ensures Consistent(Take(st, caps, Record(target, m, gone)), caps)
  {
    hide ExecuteAll, Messages, Follows, Bounded, OldestFew, MustEvict, Push;
    var db := Settled(st);
    var row := Row(db.lastId + 1, target, m);
    SettledEnqueue(st, Push(st.log, caps, target, m, gone), Store(target, m));
    PushFollows(st.log, caps, target, m, gone, db.rows, db.lastId + 1);
    PushBounded(st.log, caps, target, m, gone);
    forall t
      ensures DistinctIds(Messages(db.rows + [row], t))
    {
      MessagesStored(db.rows, row, t);
      DistinctStored(Messages(db.rows, t), m);
    }
  }

  lemma DistinctStored(s: seq<Stored>, m: Stored)
    requires DistinctIds(s)
    ensures DistinctIds(s + []) && (!HasId(s, m.msgid) ==> DistinctIds(s + [m]))
  {
  }

  lemma RedactKeeps(st: State, caps: Caps, target: string, id: string)
    requires Consistent(st, caps) && RedactFinds(st.log, target, id)
    ensures Consistent(Take(st, caps, Redact(target, id)), caps)
  {
    hide ExecuteAll, Messages, Follows, DistinctIds, DeleteRows;
    var db := Settled(st);
    SettledEnqueue(st, Redacted(st.log, target, id), Delete(target, id));
    RedactFollows(st.log, target, id, db);
    RedactBounded(st.log, caps, target, id);
    forall t
      ensures DistinctIds(Messages(DeleteRows(db.rows, target, id), t))
    {
      MessagesDeleted(db.rows, target, id, t);
      WithoutDistinct(Messages(db.rows, t), id);
    }
  }

  lemma RedactBounded(log: Log, caps: Caps, target: string, id: string)
    requires Bounded(log, caps) && RedactFinds(log, target, id)
    ensures Bounded(Redacted(log, target, id), caps)
  {
    var i := Position(log[target], id);
    InsertedSize(log, target, log[target][..i] + log[target][i + 1..]);
  }

  lemma RenameKeeps(st: State, caps: Caps, oldKey: string, newKey: string)
    requires Consistent(st, caps) && Allowed(st, caps, RenameTarget(oldKey, newKey))
    ensures Consistent(Take(st, caps, RenameTarget(oldKey, newKey)), caps)
  {
    hide ExecuteAll, Messages, Follows, DistinctIds, Renamed;
    var db := Settled(st);
    SettledEnqueue(st, Renamed(st.log, oldKey, newKey), Rename(oldKey, newKey));
    RenameFollows(st.log, oldKey, newKey, db);
    RenameBounded(st.log, caps, oldKey, newKey);
    if oldKey == newKey {
      RenameToSelf(db.rows, oldKey);
    } else {
      forall t
        ensures DistinctIds(Messages(RenameRows(db.rows, oldKey, newKey), t))
      {
        MessagesRenamed(db.rows, oldKey, newKey, t);
        NothingIsDistinct();
      }
    }
  }

  lemma NothingIsDistinct()
    ensures DistinctIds([])
  {
  }

  lemma RenameBounded(log: Log, caps: Caps, oldKey: string, newKey: string)
    requires Bounded(log, caps)
    ensures Bounded(Renamed(log, oldKey, newKey), caps)
  {
    if oldKey in log {
      EvictedSize(log, {oldKey});
      InsertedSize(log - {oldKey}, newKey, log[oldKey]);
    }
  }

  lemma ForgottenSize(log: Log, target: string)
    ensures |log - {target}| <= |log|
  {
    assert (log - {target}).Keys == log.Keys - {target};
    assert |(log - {target}).Keys| <= |log.Keys|;
  }

  lemma ForgetKeeps(st: State, caps: Caps, target: string)
    requires Consistent(st, caps)
    ensures Consistent(Take(st, caps, Forget(target)), caps)
  {
    hide ExecuteAll, Messages, DistinctIds, IsSuffix, Distinct;
    ForgottenSize(st.log, target);
  }

  /** Writing a batch does not change what the table will be. */
  lemma WriteKeeps(st: State, caps: Caps, n: nat)
    ensures Settled(Take(st, caps, Write(n))) == Settled(st)
  {
    if n <= |st.queue| {
      assert st.queue == st.queue[..n] + st.queue[n..];
      ExecuteConcat(st.db, st.queue[..n], st.queue[n..]);
    }
  }

  lemma StepKeeps(st: State, caps: Caps, step: Step)
    requires ValidCaps(caps) && Consistent(st, caps) && Allowed(st, caps, step)
    ensures Consistent(Take(st, caps, step), caps)
  {
    hide ExecuteAll, Messages, Bounded, Distinct, Push, Redacted, Renamed, OldestFew, MustEvict;
    match step
    case Record(target, m, gone) => RecordKeeps(st, caps, target, m, gone);
    case Redact(target, id) => if RedactFinds(st.log, target, id) { RedactKeeps(st, caps, target, id); }
    case RenameTarget(oldKey, newKey) => RenameKeeps(st, caps, oldKey, newKey);
    case Forget(target) => ForgetKeeps(st, caps, target);
    case Write(n) => WriteKeeps(st, caps, n);
  }

  function TakeAll(st: State, caps: Caps, steps: seq<Step>): State
    decreases |steps|
  {
    if steps == [] then st else TakeAll(Take(st, caps, steps[0]), caps, steps[1..])
  }

  predicate AllAllowed(st: State, caps: Caps, steps: seq<Step>)
    decreases |steps|
  {
    steps == [] || (Allowed(st, caps, steps[0]) && AllAllowed(Take(st, caps, steps[0]), caps, steps[1..]))
  }

  /** Over every run, every ring is the newest part of its target's settled rows, and the caps hold. */
  lemma {:induction false} RunKeeps(st: State, caps: Caps, steps: seq<Step>)
    requires ValidCaps(caps) && Consistent(st, caps) && AllAllowed(st, caps, steps)
    ensures Consistent(TakeAll(st, caps, steps), caps)
    decreases |steps|
  {
    hide Consistent, Take, Allowed;
    if steps != [] {
      StepKeeps(st, caps, steps[0]);
      RunKeeps(Take(st, caps, steps[0]), caps, steps[1..]);
    }
  }

  lemma TwoRows(a: Row, b: Row, t: string)
    ensures Messages([a, b], t) == Share(a, t) + Share(b, t)
  {
    MessagesCons(a, [b], t);
    MessagesCons(b, [], t);
    assert [a, b] == [a] + [b] && [b] == [b] + [];
  }

  lemma TwoTargets(x: string, y: string, m: Stored, n: Stored, caps: Caps)
    requires x != y && ValidCaps(caps)
    ensures Consistent(State(map[x := [m]], [], Db([Row(1, x, m), Row(2, y, n)], 2)), caps)
  {
    hide Messages;
    var a, b := Row(1, x, m), Row(2, y, n);
    var st := State(map[x := [m]], [], Db([a, b], 2));
    forall t
      ensures Messages([a, b], t) == Share(a, t) + Share(b, t) && |Messages([a, b], t)| <= 1
    {
      TwoRows(a, b, t);
    }
    assert Settled(st) == st.db;
    assert Messages([a, b], x) == [m];
  }

  /**
   * Renaming `x` onto a target `y` that has a later row: the ring of `x` becomes the
   * ring of `y` although the newest message of `y` is another one.
   */
  lemma RenameOntoUsedTarget(x: string, y: string, m: Stored, n: Stored, caps: Caps)
    requires x != y && m.msgid != n.msgid && ValidCaps(caps)
    ensures var st := State(map[x := [m]], [], Db([Row(1, x, m), Row(2, y, n)], 2));
            var st' := Take(st, caps, RenameTarget(x, y));
            Consistent(st, caps) && !Follows(st'.log, Settled(st').rows)
  {
    hide Messages, Consistent, ExecuteAll;
    var a, b, c := Row(1, x, m), Row(2, y, n), Row(1, y, m);
    var st := State(map[x := [m]], [], Db([a, b], 2));
    var st' := Take(st, caps, RenameTarget(x, y));
    TwoTargets(x, y, m, n, caps);
    SettledEnqueue(st, st'.log, Rename(x, y));
    NothingQueued(st);
    RenamedRows(a, b, x, y);
    TwoRows(c, b, y);
    assert st'.log[y] == [m] && Messages(Settled(st').rows, y) == [m, n];
    assert [m, n][1..] == [n];
  }

  lemma NothingQueued(st: State)
    requires st.queue == []
    ensures Settled(st) == st.db
  {
  }

  lemma RenamedRows(a: Row, b: Row, x: string, y: string)
    ensures RenameRows([a, b], x, y) == [RenameRow(a, x, y), RenameRow(b, x, y)]
  {
    assert [a, b][1..] == [b] && [b][1..] == [];
    assert RenameRows([b], x, y) == [RenameRow(b, x, y)];
  }
}
