/** The plugin key-value store and its file (ferrixd/src/plugin.rs). */
module Kv {
  import opened Octets
  import Codec

  const MAX_KEYS: nat := 256
  const MAX_KEY_BYTES: nat := 128
  const MAX_VALUE_BYTES: nat := 8192
  const MAX_TOTAL_BYTES: nat := 65536
  const USIZE_MAX: nat := 0xFFFF_FFFF_FFFF_FFFF
  const FLUSH_INTERVAL_MS: nat := 2000

  type Table = map<string, string>

  // ------------------------------------------------------------------------ its size

  ghost function Size(m: Table): nat {
    if m == map[] then 0
    else
      var k :| k in m;
      |k| + |m[k]| + Size(m - {k})
  }

  lemma {:induction false} SizeWithout(m: Table, k: string)
    requires k in m
    ensures Size(m) == |k| + |m[k]| + Size(m - {k})
    decreases |m|
  {
    var j :| j in m && Size(m) == |j| + |m[j]| + Size(m - {j});
    if j != k {
      SizeWithout(m - {j}, k);
      SizeWithout(m - {k}, j);
      assert m - {j} - {k} == m - {k} - {j};
    }
  }

  lemma SizeUpdated(m: Table, k: string, v: string)
    ensures Size(m[k := v]) == Size(m - {k}) + |k| + |v|
    ensures Size(m) == Size(m - {k}) + if k in m then |k| + |m[k]| else 0
  {
    SizeWithout(m[k := v], k);
    assert m[k := v] - {k} == m - {k};
    if k in m {
      SizeWithout(m, k);
    } else {
      assert m - {k} == m;
    }
  }

  lemma CountUpdated(m: Table, k: string, v: string)
    ensures |m[k := v]| == if k in m then |m| else |m| + 1
    ensures |m - {k}| == if k in m then |m| - 1 else |m|
  {
    assert m[k := v].Keys == m.Keys + {k};
    assert (m - {k}).Keys == m.Keys - {k};
    assert |m.Keys| == |m| && |m[k := v].Keys| == |m[k := v]| && |(m - {k}).Keys| == |m - {k}|;
  }

  // ----------------------------------------------------------------------- the store

  datatype Store = Store(entries: Table, total: nat, dirty: bool)

  const EMPTY := Store(map[], 0, false)

  function SatSub(a: nat, b: nat): nat {
    if b <= a then a - b else 0
  }

  function SatAdd(a: nat, b: nat): nat {
    if a + b <= USIZE_MAX then a + b else USIZE_MAX
  }

  function OldLen(m: Table, key: string): nat {
    if key in m then |m[key]| else 0
  }

  function NewTotal(s: Store, key: string, value: string): nat {
    var oldLen := OldLen(s.entries, key);
    SatAdd(SatAdd(SatSub(s.total, oldLen), |value|), if oldLen == 0 then |key| else 0)
  }

  function Set(s: Store, key: string, value: string): (Store, bool) {
    if key == [] || |key| > MAX_KEY_BYTES || |value| > MAX_VALUE_BYTES then (s, false)
    else if value == [] then
      (if key in s.entries
       then Store(s.entries - {key}, SatSub(s.total, |key| + |s.entries[key]|), true)
       else s, true)
    else if NewTotal(s, key, value) > MAX_TOTAL_BYTES then (s, false)
    else if OldLen(s.entries, key) == 0 && |s.entries| >= MAX_KEYS then (s, false)
    else (Store(s.entries[key := value], NewTotal(s, key, value), true), true)
  }

  predicate EntryFits(key: string, value: string) {
    0 < |key| <= 128 && 0 < |value| <= 8192 && ValidUtf8(key)
  }

  /** Every entry and the table as a whole are within bounds. */
  ghost predicate Bounded(m: Table) {
    && |m| <= 256 && Size(m) <= 65536
    && forall k :: k in m ==> EntryFits(k, m[k])
  }

  ghost predicate Valid(s: Store) {
    Bounded(s.entries) && s.total == Size(s.entries)
  }

  /** What a request asks for. */
  function Wanted(m: Table, key: string, value: string): Table {
    if value == [] then m - {key} else m[key := value]
  }

  /** Whether the request may be met: it is well formed and the table it asks for is bounded. */
  ghost predicate Allowed(m: Table, key: string, value: string) {
    && 0 < |key| <= 128 && |value| <= 8192
    && |Wanted(m, key, value)| <= 256 && Size(Wanted(m, key, value)) <= 65536
  }

  /** In a valid store nothing saturates: the new total is the size of the table asked for. */
  lemma NothingSaturates(s: Store, key: string, value: string)
    requires Valid(s) && |key| <= MAX_KEY_BYTES && 0 < |value| <= MAX_VALUE_BYTES
    ensures OldLen(s.entries, key) <= s.total
    ensures s.total + |value| + |key| <= USIZE_MAX
    ensures NewTotal(s, key, value) == Size(s.entries[key := value])
    ensures OldLen(s.entries, key) == 0 <==> key !in s.entries
  {
    hide Size, ValidUtf8;
    SizeUpdated(s.entries, key, value);
    if key in s.entries {
      assert EntryFits(key, s.entries[key]);
    }
  }

  lemma RemovalIsExact(s: Store, key: string)
    requires Valid(s) && key in s.entries
    ensures |key| + |s.entries[key]| <= s.total
    ensures SatSub(s.total, |key| + |s.entries[key]|) == Size(s.entries - {key})
    ensures |s.entries - {key}| <= |s.entries| && Size(s.entries - {key}) <= Size(s.entries)
  {
    hide Size, ValidUtf8;
    SizeWithout(s.entries, key);
    CountUpdated(s.entries, key, "");
  }

  /** What a request does to a valid store. */
  ghost predicate Means(s: Store, key: string, value: string, s': Store, ok: bool) {
    && Valid(s') && (ok <==> Allowed(s.entries, key, value))
    && (if ok then s'.entries == Wanted(s.entries, key, value) else s' == s)
    && (s'.entries != s.entries ==> s'.dirty)
    && (!s'.dirty ==> s' == s)
  }

  lemma RemoveMeaning(s: Store, key: string)
    requires Valid(s) && 0 < |key| <= MAX_KEY_BYTES
    ensures var (s', ok) := Set(s, key, []); Means(s, key, [], s', ok)
  {
    hide Size, EntryFits, NewTotal, SatSub;
    if key in s.entries {
      RemovalIsExact(s, key);
    } else {
      assert s.entries - {key} == s.entries;
    }
  }

  lemma InsertMeaning(s: Store, key: string, value: string)
    requires Valid(s) && EntryFits(key, value)
    ensures var (s', ok) := Set(s, key, value); Means(s, key, value, s', ok)
  {
    hide Size, ValidUtf8, NewTotal, OldLen;
    CountUpdated(s.entries, key, value);
    NothingSaturates(s, key, value);
  }

  /**
   * A request on a valid store succeeds exactly when it is allowed, and then the
   * table is the one asked for; a refused request changes nothing.
   */
  lemma SetMeaning(s: Store, key: string, value: string)
    requires Valid(s) && ValidUtf8(key)
    ensures var (s', ok) := Set(s, key, value); Means(s, key, value, s', ok)
  {
    hide Size, ValidUtf8, NewTotal, Bounded;
    if 0 < |key| <= MAX_KEY_BYTES && |value| <= MAX_VALUE_BYTES {
      hide Set, Means, Valid;
      if value == [] {
        RemoveMeaning(s, key);
      } else {
        InsertMeaning(s, key, value);
      }
    }
  }

  // ------------------------------------------------------------------------ the file

  datatype Base64 = Base64(encode: string -> string, decode: string -> Option<string>)

  predicate Ascii(s: string) {
    forall i :: 0 <= i < |s| ==> s[i] as int < 0x80
  }

  /** Codes decode, and are ASCII without spaces or line breaks. */
  ghost predicate Sound(b: Base64) {
    && (forall x :: b.decode(b.encode(x)) == Some(x))
    && (forall x :: Solid(b.encode(x)) && Ascii(b.encode(x)))
  }

  function Row(b: Base64, key: string, value: string): string {
    Join(b.encode(key), ' ', Some(b.encode(value)))
  }

  /** The file, when the table is visited in this order. */
  function FileOf(b: Base64, m: Table, order: seq<string>): string
    requires forall i :: 0 <= i < |order| ==> order[i] in m
  {
    if order == [] then []
    else Row(b, order[0], m[order[0]]) + [LF] + FileOf(b, m, order[1..])
  }

  /** `str::lines`. */
  function TextLines(s: string): seq<string> {
    Codec.Frames(s) + if Codec.Tail(s) == [] then [] else [Codec.Tail(s)]
  }

  /** One line of the file, if it holds an entry. */
  function ReadRow(b: Base64, line: string): Option<(string, string)> {
    var (k64, v64) := Cut(line, ' ');
    if v64.None? then None
    else
      var key, value := b.decode(k64), b.decode(v64.value);
      if key.None? || value.None? || !ValidUtf8(key.value) then None
      else Some((key.value, value.value))
  }

  function LoadRow(b: Base64, s: Store, line: string): Store {
    var row := ReadRow(b, line);
    if row.None? then s else Set(s, row.value.0, row.value.1).0
  }

  function LoadRows(b: Base64, s: Store, lines: seq<string>): Store
    decreases |lines|
  {
    if lines == [] then s else LoadRows(b, LoadRow(b, s, lines[0]), lines[1..])
  }

  /** The store a plugin starts with; there may be no file, or none that is text. */
  function Load(b: Base64, file: Option<string>): Store {
    if file.None? || !ValidUtf8(file.value) then EMPTY
    else LoadRows(b, EMPTY, TextLines(file.value)).(dirty := false)
  }

  class KvStore {
    var entries: Table
    var total: nat
    var dirty: bool
    var lastFlushMs: nat

    ghost function View(): Store
      reads this
    {
      Store(entries, total, dirty)
    }

    constructor ()
      ensures View() == EMPTY && lastFlushMs == 0
    {
      entries, total, dirty, lastFlushMs := map[], 0, false, 0;
    }

    method Put(key: string, value: string) returns (ok: bool)
      modifies this`entries, this`total, this`dirty
      ensures (View(), ok) == Set(old(View()), key, value)
    {
      if key == [] || |key| > MAX_KEY_BYTES || |value| > MAX_VALUE_BYTES {
        return false;
      }
      if value == [] {
        if key in entries {
          var freed := |key| + |entries[key]|;
          entries := entries - {key};
          total := SatSub(total, freed);
          dirty := true;
        }
        return true;
      }
      var oldLen := if key in entries then |entries[key]| else 0;
      var newTotal := SatSub(total, oldLen);
      newTotal := SatAdd(newTotal, |value|);
      newTotal := SatAdd(newTotal, if oldLen == 0 then |key| else 0);
      if newTotal > MAX_TOTAL_BYTES {
        return false;
      }
      if oldLen == 0 && |entries| >= MAX_KEYS {
        return false;
      }
      entries := entries[key := value];
      total := newTotal;
      dirty := true;
      return true;
    }

    method LoadFile(b: Base64, contents: string)
      modifies this`entries, this`total, this`dirty
      ensures View() == LoadRows(b, old(View()), TextLines(contents)).(dirty := false)
    {
      hide Set, ReadRow, TextLines;
      var lines := TextLines(contents);
      var i := 0;
      while i < |lines|
        invariant 0 <= i <= |lines|
        invariant LoadRows(b, View(), lines[i..]) == LoadRows(b, old(View()), lines)
      {
        assert lines[i..][1..] == lines[i + 1..];
        var row := ReadRow(b, lines[i]);
        if row.Some? {
          var _ := Put(row.value.0, row.value.1);
        }
        i := i + 1;
      }
      dirty := false;
    }

    /** Write the file if it is due.  The table is visited in no particular order. */
    method FlushIfDue(b: Base64, now: nat, writes: bool) returns (written: Option<string>, ghost order: seq<string>)
      modifies this`dirty, this`lastFlushMs
      ensures old(dirty) && SatSub(now, old(lastFlushMs)) >= 2000 && writes <==> written.Some?
      ensures View() == old(View()).(dirty := old(dirty) && written.None?)
      ensures lastFlushMs == if written.Some? then now else old(lastFlushMs)
      ensures written.Some? ==> Visits(order, entries) && written.value == FileOf(b, entries, order)
    {
      order := [];
      if !dirty || SatSub(now, lastFlushMs) < FLUSH_INTERVAL_MS {
        return None, [];
      }
      var out := [];
      var left := entries.Keys;
      while left != {}
        invariant dirty == old(dirty) && lastFlushMs == old(lastFlushMs)
        invariant left <= entries.Keys
        invariant forall i :: 0 <= i < |order| ==> order[i] in entries && order[i] !in left
        invariant forall i, j :: 0 <= i < j < |order| ==> order[i] != order[j]
        invariant forall k :: k in entries ==> k in left || k in order
        invariant out == FileOf(b, entries, order)
        decreases left
      {
        var key :| key in left;
        FileAppend(b, entries, order, key);
        out := out + Row(b, key, entries[key]) + [LF];
        order := order + [key];
        left := left - {key};
      }
      if writes {
        dirty := false;
        lastFlushMs := now;
        written := Some(out);
      } else {
        written := None;
      }
    }
  }

  /** Each key once. */
  ghost predicate Visits(order: seq<string>, m: Table) {
    && (forall i :: 0 <= i < |order| ==> order[i] in m)
    && (forall i, j :: 0 <= i < j < |order| ==> order[i] != order[j])
    && (forall k :: k in m ==> k in order)
  }

  lemma {:induction false} FileAppend(b: Base64, m: Table, order: seq<string>, key: string)
    requires (forall i :: 0 <= i < |order| ==> order[i] in m) && key in m
    ensures FileOf(b, m, order + [key]) == FileOf(b, m, order) + Row(b, key, m[key]) + [LF]
    decreases |order|
  {
    hide Row;
    var now := order + [key];
    if order == [] {
      assert now[1..] == [];
      assert FileOf(b, m, now) == Row(b, key, m[key]) + [LF] + [];
    } else {
      assert now[1..] == order[1..] + [key];
      FileAppend(b, m, order[1..], key);
    }
  }

  // ------------------------------------------------------------------- what is proved

  lemma EmptyIsValid()
    ensures Valid(EMPTY)
  {
  }

  lemma LoadRowKeeps(b: Base64, s: Store, line: string)
    requires Valid(s)
    ensures Valid(LoadRow(b, s, line))
  {
    hide Valid, Set, ValidUtf8, Cut;
    var row := ReadRow(b, line);
    if row.Some? {
      SetMeaning(s, row.value.0, row.value.1);
    }
  }

  lemma {:induction false} LoadRowsKeep(b: Base64, s: Store, lines: seq<string>)
    requires Valid(s)
    ensures Valid(LoadRows(b, s, lines))
    decreases |lines|
  {
    hide Valid, LoadRow;
    if lines != [] {
      LoadRowKeeps(b, s, lines[0]);
      LoadRowsKeep(b, LoadRow(b, s, lines[0]), lines[1..]);
    }
  }

  /** No file, however made, loads into a store that is out of bounds. */
  lemma LoadIsValid(b: Base64, file: Option<string>)
    ensures Valid(Load(b, file)) && !Load(b, file).dirty
  {
    hide LoadRows, TextLines, Size, EntryFits, ValidUtf8;
    EmptyIsValid();
    if file.Some? {
      LoadRowsKeep(b, EMPTY, TextLines(file.value));
    }
  }

  predicate Within(part: Table, m: Table) {
    forall k :: k in part ==> k in m && part[k] == m[k]
  }

  lemma {:induction false} PartIsSmaller(part: Table, m: Table)
    requires Within(part, m)
    ensures |part| <= |m| && Size(part) <= Size(m)
    decreases |part|
  {
    if part == map[] {
    } else {
      var k :| k in part;
      SizeWithout(part, k);
      SizeWithout(m, k);
      CountUpdated(part, k, "");
      CountUpdated(m, k, "");
      PartIsSmaller(part - {k}, m - {k});
    }
  }

  lemma RowIsSolid(b: Base64, key: string, value: string)
    requires Sound(b)
    ensures LF !in Row(b, key, value) && Codec.StripCr(Row(b, key, value)) == Row(b, key, value)
  {
    var x, y := b.encode(key), b.encode(value);
    assert Solid(x) && Solid(y);
  }

  lemma ReadOfRow(b: Base64, key: string, value: string)
    requires Sound(b) && ValidUtf8(key)
    ensures ReadRow(b, Row(b, key, value)) == Some((key, value))
  {
    hide Cut, ValidUtf8;
    assert Solid(b.encode(key));
    CutJoin(b.encode(key), ' ', Some(b.encode(value)));
  }

  function Rows(b: Base64, m: Table, order: seq<string>): seq<string>
    requires forall i :: 0 <= i < |order| ==> order[i] in m
  {
    seq(|order|, i requires 0 <= i < |order| => Row(b, order[i], m[order[i]]))
  }

  lemma FirstRow(row: string, rest: string)
    requires LF !in row && Codec.StripCr(row) == row
    ensures Codec.Frames(row + [LF] + rest) == [row] + Codec.Frames(rest)
    ensures Codec.Tail(row + [LF] + rest) == Codec.Tail(rest)
  {
    hide Codec.Lines, Codec.Tail, Codec.StripCr, Find;
    var s := row + [LF] + rest;
    assert s[..|row|] == row && s[|row| + 1..] == rest;
    FindUnique(s, LF, |row|);
    Codec.FirstLine(s);
    Codec.StripAppend([row], Codec.Lines(rest));
  }

  lemma {:induction false} FileLines(b: Base64, m: Table, order: seq<string>)
    requires Sound(b) && forall i :: 0 <= i < |order| ==> order[i] in m
    ensures Codec.Frames(FileOf(b, m, order)) == Rows(b, m, order) && Codec.Tail(FileOf(b, m, order)) == []
    decreases |order|
  {
    hide Row, Codec.Frames, Codec.Tail, Sound;
    if order == [] {
      Codec.EmptyStream(0);
    } else {
      FileLines(b, m, order[1..]);
      RowIsSolid(b, order[0], m[order[0]]);
      FirstRow(Row(b, order[0], m[order[0]]), FileOf(b, m, order[1..]));
    }
  }

  lemma {:induction false} FileIsAscii(b: Base64, m: Table, order: seq<string>)
    requires Sound(b) && forall i :: 0 <= i < |order| ==> order[i] in m
    ensures Ascii(FileOf(b, m, order))
    decreases |order|
  {
    if order != [] {
      FileIsAscii(b, m, order[1..]);
      assert Ascii(b.encode(order[0])) && Ascii(b.encode(m[order[0]]));
    }
  }

  /** Loading the rows that remain completes the table. */
  lemma {:induction false} LoadCompletes(b: Base64, s: Store, m: Table, order: seq<string>)
    requires Sound(b) && Valid(s) && Bounded(m) && Within(s.entries, m)
    requires forall i :: 0 <= i < |order| ==> order[i] in m
    requires forall k :: k in m ==> k in s.entries || k in order
    ensures LoadRows(b, s, Rows(b, m, order)).entries == m
    decreases |order|
  {
    hide Row, Sound, ReadRow, Size, Set, Valid, EntryFits;
    if order == [] {
      assert s.entries == m;
    } else {
      var rows, key := Rows(b, m, order), order[0];
      assert rows[1..] == Rows(b, m, order[1..]);
      PutRow(b, s, m, key);
      LoadCompletes(b, LoadRow(b, s, rows[0]), m, order[1..]);
    }
  }

  lemma PutRow(b: Base64, s: Store, m: Table, key: string)
    requires Sound(b) && Valid(s) && Bounded(m) && Within(s.entries, m) && key in m
    ensures var s' := LoadRow(b, s, Row(b, key, m[key]));
            Valid(s') && s'.entries == s.entries[key := m[key]] && Within(s'.entries, m)
  {
    hide Row, Sound, ReadRow, Size, Set, Valid, ValidUtf8;
    assert EntryFits(key, m[key]);
    ReadOfRow(b, key, m[key]);
    SetMeaning(s, key, m[key]);
    PartIsSmaller(s.entries[key := m[key]], m);
  }

  lemma ValidIsItsTable(s: Store, t: Store)
    requires Valid(s) && Valid(t) && s.entries == t.entries && s.dirty == t.dirty
    ensures s == t
  {
  }

  /** Written out in any order and loaded, the store is what it was. */
  lemma LoadOfFile(b: Base64, s: Store, order: seq<string>)
    requires Sound(b) && Valid(s) && Visits(order, s.entries)
    ensures Load(b, Some(FileOf(b, s.entries, order))) == s.(dirty := false)
  {
    hide Sound, Valid, FileOf, LoadRows, Size, ValidUtf8;
    var file := FileOf(b, s.entries, order);
    FileIsAscii(b, s.entries, order);
    ValidAscii(file);
    FileLines(b, s.entries, order);
    assert TextLines(file) == Rows(b, s.entries, order);
    EmptyIsValid();
    ValidParts(s);
    LoadCompletes(b, EMPTY, s.entries, order);
    LoadIsValid(b, Some(file));
    ValidIsItsTable(Load(b, Some(file)), s.(dirty := false));
  }

  lemma ValidParts(s: Store)
    requires Valid(s)
    ensures Bounded(s.entries) && Valid(s.(dirty := false))
  {
  }

  // --------------------------------------------------------------------------- runs

  /** A store and its file. */
  datatype Plugin = Plugin(store: Store, lastFlushMs: nat, file: Option<string>)

  datatype Event =
    | Request(key: string, value: string)
    | Flush(now: nat, writes: bool, order: seq<string>)
    | Restart

  ghost predicate Possible(p: Plugin, e: Event) {
    match e
    case Request(key, _) => ValidUtf8(key)
    case Flush(_, _, order) => Visits(order, p.store.entries)
    case Restart => true
  }

  ghost function Next(b: Base64, p: Plugin, e: Event): Plugin
    requires Possible(p, e)
  {
    match e
    case Request(key, value) => p.(store := Set(p.store, key, value).0)
    case Flush(now, writes, order) =>
      if p.store.dirty && SatSub(now, p.lastFlushMs) >= FLUSH_INTERVAL_MS && writes
      then Plugin(p.store.(dirty := false), now, Some(FileOf(b, p.store.entries, order)))
      else p
    case Restart => Plugin(Load(b, p.file), 0, p.file)
  }

  /** Bounds hold, and a store that is not dirty is the one its file would load. */
  ghost predicate Invariant(b: Base64, p: Plugin) {
    Valid(p.store) && (!p.store.dirty ==> p.store == Load(b, p.file))
  }

  lemma NextKeeps(b: Base64, p: Plugin, e: Event)
    requires Sound(b) && Invariant(b, p) && Possible(p, e)
    ensures Invariant(b, Next(b, p, e))
  {
    hide Sound, Valid, Load, Set, FileOf, Size, ValidUtf8, Visits;
    match e
    case Request(key, value) =>
      SetMeaning(p.store, key, value);
    case Flush(now, writes, order) =>
      LoadOfFile(b, p.store, order);
      ValidParts(p.store);
    case Restart =>
      LoadIsValid(b, p.file);
  }

  ghost predicate PossibleRun(b: Base64, p: Plugin, events: seq<Event>)
    decreases |events|
  {
    events == [] || (Possible(p, events[0]) && PossibleRun(b, Next(b, p, events[0]), events[1..]))
  }

  ghost function Run(b: Base64, p: Plugin, events: seq<Event>): Plugin
    requires PossibleRun(b, p, events)
    decreases |events|
  {
    if events == [] then p else Run(b, Next(b, p, events[0]), events[1..])
  }

  /** From any file at all: whatever is asked, written, refused or restarted. */
  lemma {:induction false} RunKeeps(b: Base64, p: Plugin, events: seq<Event>)
    requires Sound(b) && PossibleRun(b, p, events) && Invariant(b, p)
    ensures Invariant(b, Run(b, p, events))
    decreases |events|
  {
    hide Sound, Invariant, Next;
    if events != [] {
      NextKeeps(b, p, events[0]);
      RunKeeps(b, Next(b, p, events[0]), events[1..]);
    }
  }

  lemma RunFromFile(b: Base64, file: Option<string>, events: seq<Event>)
    requires Sound(b) && PossibleRun(b, Plugin(Load(b, file), 0, file), events)
    ensures var p := Run(b, Plugin(Load(b, file), 0, file), events);
            && Bounded(p.store.entries) && p.store.total == Size(p.store.entries)
            && (!p.store.dirty ==> Load(b, p.file) == p.store)
  {
    hide Sound, Load, Run, PossibleRun;
    LoadIsValid(b, file);
    RunKeeps(b, Plugin(Load(b, file), 0, file), events);
  }

  /** The line is two codes with one space before the second, and the key is text. */
  ghost predicate Holds(b: Base64, line: string, key: string, value: string, k64: string, v64: string) {
    && ' ' !in k64 && line == k64 + " " + v64
    && b.decode(k64) == Some(key) && b.decode(v64) == Some(value) && ValidUtf8(key)
  }

  /** Which lines hold an entry, and which. */
  lemma ReadRowIff(b: Base64, line: string, key: string, value: string)
    ensures ReadRow(b, line) == Some((key, value)) <==> exists k64, v64 :: Holds(b, line, key, value, k64, v64)
  {
    hide Cut, ValidUtf8;
    if ReadRow(b, line) == Some((key, value)) {
      var (k64, v64) := Cut(line, ' ');
      assert Holds(b, line, key, value, k64, v64.value);
    }
    forall k64, v64 | Holds(b, line, key, value, k64, v64)
      ensures ReadRow(b, line) == Some((key, value))
    {
      assert line == Join(k64, ' ', Some(v64));
      CutJoin(k64, ' ', Some(v64));
    }
  }
}
