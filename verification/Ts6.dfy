/** The TS6 bridge: identifier aliases and mode arguments (ferrixd/src/ts6.rs). */
module Ts6 {
  import opened Octets

  predicate IsIdChar(c: char) {
    IsUpper(c) || IsDigit(c)
  }

  predicate ValidSid(s: string) {
    |s| == 3 && IsDigit(s[0]) && forall i :: 1 <= i < 3 ==> IsIdChar(s[i])
  }

  predicate ValidUid(s: string) {
    |s| == 9 && ValidSid(s[..3]) && forall i :: 3 <= i < 9 ==> IsIdChar(s[i])
  }

  // ------------------------------------------------------------------ alias suffixes

  /** 36 to the fifth. */
  const BLOCK: nat := 60466176

  /** How many suffixes there are. */
  const CAPACITY: nat := 26 * BLOCK

  function AlphaAt(d: nat): (c: char)
    requires d < 36
    ensures IsIdChar(c) && (d < 26 <==> IsUpper(c))
  {
    if d < 26 then ('A' as int + d) as char else ('0' as int + d - 26) as char
  }

  function Base36(n: nat, width: nat): (s: string)
    ensures |s| == width && forall i :: 0 <= i < width ==> IsIdChar(s[i])
  {
    if width == 0 then [] else Base36(n / 36, width - 1) + [AlphaAt(n % 36)]
  }

  function EncodeId(n: nat): (s: string)
    ensures |s| == 6 && IsUpper(s[0]) && forall i :: 0 <= i < 6 ==> IsIdChar(s[i])
  {
    [AlphaAt(n / BLOCK % 26)] + Base36(n % BLOCK, 5)
  }

  /** `encode_id`: the buffer is filled from its last slot. */
  method EncodeIdInto(n: nat) returns (out: array<char>)
    ensures out[..] == EncodeId(n) && fresh(out)
  {
    out := new char[6](_ => 'A');
    out[0] := AlphaAt(n / BLOCK % 26);
    var rest := n % BLOCK;
    var slot := 5;
    while slot > 0
      invariant 0 <= slot <= 5 && rest >= 0
      invariant out[0] == AlphaAt(n / BLOCK % 26)
      invariant Base36(n % BLOCK, 5) == Base36(rest, slot) + out[slot + 1..]
    {
      ghost var tail := out[slot + 1..];
      out[slot] := AlphaAt(rest % 36);
      assert out[slot..] == [AlphaAt(rest % 36)] + tail;
      rest := rest / 36;
      slot := slot - 1;
    }
    assert out[..] == [out[0]] + out[1..];
  }

  function Pow36(k: nat): nat {
    if k == 0 then 1 else 36 * Pow36(k - 1)
  }

  lemma AlphaInjective(a: nat, b: nat)
    requires a < 36 && b < 36 && AlphaAt(a) == AlphaAt(b)
    ensures a == b
  {
  }

  lemma {:induction false} Base36Injective(a: nat, b: nat, width: nat)
    requires a < Pow36(width) && b < Pow36(width) && Base36(a, width) == Base36(b, width)
    ensures a == b
  {
    if width > 0 {
      var s, t := Base36(a, width), Base36(b, width);
      assert s[..width - 1] == Base36(a / 36, width - 1) && t[..width - 1] == Base36(b / 36, width - 1);
      assert s[width - 1] == AlphaAt(a % 36) && t[width - 1] == AlphaAt(b % 36);
      AlphaInjective(a % 36, b % 36);
      Base36Injective(a / 36, b / 36, width - 1);
    }
  }

  lemma EncodeInjective(a: nat, b: nat)
    requires a < CAPACITY && b < CAPACITY && EncodeId(a) == EncodeId(b)
    ensures a == b
  {
    hide Base36;
    assert Pow36(5) == BLOCK by {
      assert Pow36(2) == 1296 && Pow36(3) == 46656 && Pow36(4) == 1679616;
    }
    var s, t := EncodeId(a), EncodeId(b);
    assert s[1..] == Base36(a % BLOCK, 5) && t[1..] == Base36(b % BLOCK, 5);
    assert s[0] == AlphaAt(a / BLOCK % 26) && t[0] == AlphaAt(b / BLOCK % 26);
    AlphaInjective(a / BLOCK % 26, b / BLOCK % 26);
    Base36Injective(a % BLOCK, b % BLOCK, 5);
    assert a / BLOCK < 26 && b / BLOCK < 26;
  }

  /** The first `n` suffixes are all different exactly when `n` is within the capacity. */
  lemma CapacityIsExact(n: nat)
    ensures (forall a: nat, b: nat :: a < b < n ==> EncodeId(a) != EncodeId(b)) <==> n <= CAPACITY
  {
    hide Base36;
    if n <= CAPACITY {
      forall a: nat, b: nat | a < b < n
        ensures EncodeId(a) != EncodeId(b)
      {
        if EncodeId(a) == EncodeId(b) {
          EncodeInjective(a, b);
        }
      }
    } else {
      assert EncodeId(0) == EncodeId(CAPACITY);
    }
  }

  // ------------------------------------------------------------------- the mapper

  datatype Mapper = Mapper(toTs6: map<string, string>, toFerrix: map<string, string>, next: nat)

  const EMPTY := Mapper(map[], map[], 0)

  function Alias(uid: string, n: nat): string
    requires |uid| >= 3
  {
    uid[..3] + EncodeId(n)
  }

  predicate HasSid(uid: string) {
    |uid| >= 3 && ValidSid(uid[..3])
  }

  function ToTs6(m: Mapper, uid: string): (Mapper, Option<string>) {
    if ValidUid(uid) then (m, Some(uid))
    else if uid in m.toTs6 then (m, Some(m.toTs6[uid]))
    else if !HasSid(uid) then (m, None)
    else
      var alias := Alias(uid, m.next);
      (Mapper(m.toTs6[uid := alias], m.toFerrix[alias := uid], m.next + 1), Some(alias))
  }

  function ToFerrix(m: Mapper, id: string): string {
    if id in m.toFerrix then m.toFerrix[id] else id
  }

  class UidMapper {
    var toTs6: map<string, string>
    var toFerrix: map<string, string>
    var next: nat

    ghost function View(): Mapper
      reads this
    {
      Mapper(toTs6, toFerrix, next)
    }

    constructor ()
      ensures View() == EMPTY
    {
      toTs6, toFerrix, next := map[], map[], 0;
    }

    method Translate(uid: string) returns (r: Option<string>)
      modifies this
      ensures (View(), r) == ToTs6(old(View()), uid)
    {
      if ValidUid(uid) {
        return Some(uid);
      }
      if uid in toTs6 {
        return Some(toTs6[uid]);
      }
      if |uid| < 3 || !ValidSid(uid[..3]) {
        return None;
      }
      var suffix := EncodeIdInto(next);
      var alias := uid[..3] + suffix[..];
      next := next + 1;
      toTs6 := toTs6[uid := alias];
      toFerrix := toFerrix[alias := uid];
      return Some(alias);
    }
  }

  /** Alias number `k` was given to `uid`. */
  ghost predicate Entry(m: Mapper, uid: string, k: nat) {
    && HasSid(uid) && !ValidUid(uid)
    && uid in m.toTs6 && m.toTs6[uid] == Alias(uid, k)
    && Alias(uid, k) in m.toFerrix && m.toFerrix[Alias(uid, k)] == uid
  }

  ghost predicate IsAliasOf(a: string, uid: string, k: nat) {
    |uid| >= 3 && a == Alias(uid, k)
  }

  /** The mapper holds the aliases of `order`, numbered in the order they were allocated. */
  ghost predicate Allocated(m: Mapper, order: seq<string>) {
    && m.next == |order| <= CAPACITY
    && (forall k :: 0 <= k < |order| ==> Entry(m, order[k], k))
    && (forall u :: u in m.toTs6 ==> exists k :: 0 <= k < |order| && order[k] == u)
    && (forall a :: a in m.toFerrix ==> exists k :: 0 <= k < |order| && IsAliasOf(a, order[k], k))
  }

  ghost predicate ValidMapper(m: Mapper) {
    exists order :: Allocated(m, order)
  }

  lemma EmptyIsValid()
    ensures ValidMapper(EMPTY)
  {
    assert Allocated(EMPTY, []);
  }

  lemma AliasShape(uid: string, n: nat)
    requires HasSid(uid)
    ensures ValidUid(Alias(uid, n)) && Alias(uid, n)[..3] == uid[..3] && IsUpper(Alias(uid, n)[3])
  {
    var a := Alias(uid, n);
    assert a[..3] == uid[..3];
    assert forall i :: 3 <= i < 9 ==> a[i] == EncodeId(n)[i - 3];
  }

  lemma AliasInjective(u: string, i: nat, w: string, j: nat)
    requires |u| >= 3 && |w| >= 3 && i < CAPACITY && j < CAPACITY && Alias(u, i) == Alias(w, j)
    ensures i == j
  {
    hide EncodeId;
    assert Alias(u, i)[3..] == EncodeId(i) && Alias(w, j)[3..] == EncodeId(j);
    EncodeInjective(i, j);
  }

  lemma EntryStays(m: Mapper, u: string, k: nat, uid: string)
    requires Entry(m, u, k) && k < m.next < CAPACITY
    requires HasSid(uid) && !ValidUid(uid) && uid !in m.toTs6
    ensures Entry(ToTs6(m, uid).0, u, k)
  {
    hide EncodeId, ValidSid, ValidUid;
    assert Alias(u, k) != Alias(uid, m.next) by {
      if Alias(u, k) == Alias(uid, m.next) {
        AliasInjective(u, k, uid, m.next);
      }
    }
  }

  lemma NewEntry(m: Mapper, uid: string)
    requires HasSid(uid) && !ValidUid(uid) && uid !in m.toTs6
    ensures var m' := ToTs6(m, uid).0;
            && Entry(m', uid, m.next) && m'.next == m.next + 1
            && (forall u :: u in m'.toTs6 ==> u == uid || u in m.toTs6)
            && (forall a :: a in m'.toFerrix ==> IsAliasOf(a, uid, m.next) || a in m.toFerrix)
  {
    hide EncodeId, ValidSid, ValidUid;
  }

  lemma AllocateKeeps(m: Mapper, order: seq<string>, uid: string)
    requires Allocated(m, order) && HasSid(uid) && !ValidUid(uid) && uid !in m.toTs6 && m.next < CAPACITY
    ensures Allocated(ToTs6(m, uid).0, order + [uid])
  {
    hide EncodeId, HasSid, ValidUid, Entry, IsAliasOf, ToTs6;
    var n, m' := m.next, ToTs6(m, uid).0;
    var now := order + [uid];
    NewEntry(m, uid);
    assert now[n] == uid;
    forall k | 0 <= k < |now|
      ensures Entry(m', now[k], k)
    {
      if k < n {
        EntryStays(m, order[k], k, uid);
      }
    }
    forall u | u in m'.toTs6
      ensures exists k :: 0 <= k < |now| && now[k] == u
    {
      if u != uid {
        var k :| 0 <= k < |order| && order[k] == u;
        assert now[k] == u;
      }
    }
    forall x | x in m'.toFerrix
      ensures exists k :: 0 <= k < |now| && IsAliasOf(x, now[k], k)
    {
      if !IsAliasOf(x, uid, n) {
        var k :| 0 <= k < |order| && IsAliasOf(x, order[k], k);
        assert now[k] == order[k];
      }
    }
  }

  lemma ToTs6Keeps(m: Mapper, uid: string)
    requires ValidMapper(m) && ToTs6(m, uid).0.next <= CAPACITY
    ensures ValidMapper(ToTs6(m, uid).0)
  {
    hide Allocated, ValidUid, HasSid;
    var order :| Allocated(m, order);
    if ToTs6(m, uid).0 != m {
      AllocateKeeps(m, order, uid);
    }
  }

  /** What the mapper answers for a uid it has seen. */
  function Known(m: Mapper, uid: string): Option<string> {
    if ValidUid(uid) then Some(uid) else if uid in m.toTs6 then Some(m.toTs6[uid]) else None
  }

  /** Answers never change. */
  lemma KnownStays(m: Mapper, uid: string, other: string)
    requires Known(m, uid).Some?
    ensures Known(ToTs6(m, other).0, uid) == Known(m, uid)
  {
  }

  lemma ToTs6IsKnown(m: Mapper, uid: string)
    ensures ToTs6(m, uid).1 == Known(ToTs6(m, uid).0, uid)
  {
  }

  /**
   * A uid of our own network: its SID is TS6-shaped, and if it happens to have the
   * shape of a TS6 uid its client part starts with a digit.
   */
  predicate Native(uid: string) {
    HasSid(uid) && (ValidUid(uid) ==> IsDigit(uid[3]))
  }

  /** SID and decimal client id, as ferrixd makes them. */
  lemma DecimalIsNative(sid: string, digits: string)
    requires ValidSid(sid) && digits != [] && AllDigits(digits)
    ensures Native(sid + digits)
  {
    assert (sid + digits)[..3] == sid;
    assert (sid + digits)[3] == digits[0];
  }

  lemma AliasSource(m: Mapper, a: string)
    requires ValidMapper(m) && a in m.toFerrix
    ensures exists uid, k: nat :: Entry(m, uid, k) && IsAliasOf(a, uid, k)
  {
    hide Entry, IsAliasOf;
    var order :| Allocated(m, order);
    var k :| 0 <= k < |order| && IsAliasOf(a, order[k], k);
    assert Entry(m, order[k], k);
  }

  /** Whatever has a way back is an alias: a TS6 uid whose suffix starts with a letter. */
  lemma AliasesHaveLetters(m: Mapper, a: string)
    requires ValidMapper(m) && a in m.toFerrix
    ensures ValidUid(a) && IsUpper(a[3])
  {
    hide EncodeId, ValidSid, ValidMapper;
    AliasSource(m, a);
    var uid, k: nat :| Entry(m, uid, k) && IsAliasOf(a, uid, k);
    AliasShape(uid, k);
  }

  lemma AliasEntry(m: Mapper, uid: string)
    requires ValidMapper(m) && uid in m.toTs6
    ensures exists k: nat :: Entry(m, uid, k)
  {
    hide Entry, IsAliasOf;
    var order :| Allocated(m, order);
    var k :| 0 <= k < |order| && order[k] == uid;
    assert Entry(m, uid, k);
  }

  /** The alias is a TS6 uid under the same SID, and it leads back to the uid. */
  lemma KnownIsInverse(m: Mapper, uid: string)
    requires ValidMapper(m) && Native(uid) && Known(m, uid).Some?
    ensures var id := Known(m, uid).value;
            ValidUid(id) && id[..3] == uid[..3] && ToFerrix(m, id) == uid
  {
    hide EncodeId, ValidMapper, ValidSid;
    if ValidUid(uid) {
      assert uid !in m.toFerrix by {
        if uid in m.toFerrix {
          AliasesHaveLetters(m, uid);
        }
      }
    } else {
      AliasEntry(m, uid);
      var k: nat :| Entry(m, uid, k);
      AliasShape(uid, k);
    }
  }

  // ----------------------------------------------------------- sequences of requests

  function Requests(m: Mapper, uids: seq<string>): Mapper
    decreases |uids|
  {
    if uids == [] then m else Requests(ToTs6(m, uids[0]).0, uids[1..])
  }

  /** The answer to request `i`. */
  function Answer(m: Mapper, uids: seq<string>, i: nat): Option<string>
    requires i < |uids|
  {
    ToTs6(Requests(m, uids[..i]), uids[i]).1
  }

  lemma {:induction false} RequestsGrow(m: Mapper, uids: seq<string>)
    ensures m.next <= Requests(m, uids).next
    ensures forall u :: Known(m, u).Some? ==> Known(Requests(m, uids), u) == Known(m, u)
    decreases |uids|
  {
    hide ValidUid, HasSid, ToTs6, Known;
    if uids != [] {
      var m' := ToTs6(m, uids[0]).0;
      RequestsGrow(m', uids[1..]);
      NextGrows(m, uids[0]);
      forall u | Known(m, u).Some?
        ensures Known(Requests(m, uids), u) == Known(m, u)
      {
        KnownStays(m, u, uids[0]);
      }
    }
  }

  lemma NextGrows(m: Mapper, uid: string)
    ensures m.next <= ToTs6(m, uid).0.next
  {
  }

  lemma {:induction false} RequestsKeep(m: Mapper, uids: seq<string>)
    requires ValidMapper(m) && Requests(m, uids).next <= CAPACITY
    ensures ValidMapper(Requests(m, uids))
    decreases |uids|
  {
    hide ValidMapper, ToTs6;
    if uids != [] {
      RequestsGrow(ToTs6(m, uids[0]).0, uids[1..]);
      ToTs6Keeps(m, uids[0]);
      RequestsKeep(ToTs6(m, uids[0]).0, uids[1..]);
    }
  }

  lemma {:induction false} RequestsSplit(m: Mapper, a: seq<string>, b: seq<string>)
    ensures Requests(m, a + b) == Requests(Requests(m, a), b)
    decreases |a|
  {
    hide ToTs6;
    if a == [] {
      assert a + b == b;
    } else {
      assert (a + b)[1..] == a[1..] + b;
      RequestsSplit(ToTs6(m, a[0]).0, a[1..], b);
    }
  }

  lemma AnswerIsKnown(m: Mapper, uids: seq<string>, i: nat)
    requires i < |uids| && Native(uids[i])
    ensures Answer(m, uids, i).Some? && Known(Requests(m, uids), uids[i]) == Answer(m, uids, i)
  {
    hide ValidUid, HasSid, Known;
    var before := Requests(m, uids[..i]);
    var after := ToTs6(before, uids[i]).0;
    assert uids == uids[..i] + ([uids[i]] + uids[i + 1..]);
    RequestsSplit(m, uids[..i], [uids[i]] + uids[i + 1..]);
    assert ([uids[i]] + uids[i + 1..])[1..] == uids[i + 1..];
    ToTs6IsKnown(before, uids[i]);
    RequestsGrow(after, uids[i + 1..]);
  }

  /**
   * Over every sequence of requests within the capacity: each answer is a TS6 uid
   * under the same SID, equal uids get equal answers, different uids different
   * ones, and every answer leads back to its uid.
   */
  lemma AliasesAreFaithful(uids: seq<string>, i: nat, j: nat)
    requires i < |uids| && j < |uids| && Native(uids[i]) && Native(uids[j])
    requires Requests(EMPTY, uids).next <= CAPACITY
    ensures Answer(EMPTY, uids, i).Some? && Answer(EMPTY, uids, j).Some?
    ensures var id := Answer(EMPTY, uids, i).value;
            ValidUid(id) && id[..3] == uids[i][..3] && ToFerrix(Requests(EMPTY, uids), id) == uids[i]
    ensures Answer(EMPTY, uids, i) == Answer(EMPTY, uids, j) <==> uids[i] == uids[j]
  {
    hide ValidUid, HasSid, ToTs6, Known, Answer, ToFerrix;
    EmptyIsValid();
    RequestsKeep(EMPTY, uids);
    AnswerIsKnown(EMPTY, uids, i);
    AnswerIsKnown(EMPTY, uids, j);
    KnownIsInverse(Requests(EMPTY, uids), uids[i]);
    KnownIsInverse(Requests(EMPTY, uids), uids[j]);
  }

  /** A TS6 uid that is not ours can coincide with an alias we handed out. */
  lemma ForeignUidCanClash(m: Mapper, uid: string)
    requires HasSid(uid) && !ValidUid(uid) && uid !in m.toTs6
    ensures var (m', id) := ToTs6(m, uid);
            && id.Some? && id.value != uid
            && ToTs6(m', id.value).1 == id && ToFerrix(m', id.value) == uid
  {
    AliasShape(uid, m.next);
  }

  // ---------------------------------------------------------------- mode arguments

  predicate IsMember(c: char) {
    c == 'o' || c == 'v'
  }

  predicate IsList(c: char) {
    c == 'b' || c == 'e' || c == 'I'
  }

  /** The dialect an argument list is written in. */
  datatype Dialect = Ferrix | Ts6

  /** Whether flag `c` takes an argument. Only `-k` depends on the dialect. */
  predicate TakesArg(d: Dialect, c: char, adding: bool) {
    IsMember(c) || IsList(c) || (c == 'k' && (adding || d.Ts6?)) || (c == 'l' && adding)
  }

  function Sign(c: char, adding: bool): bool {
    if c == '+' then true else if c == '-' then false else adding
  }

  function Arity(d: Dialect, flags: string, adding: bool): nat {
    if flags == [] then 0
    else (if TakesArg(d, flags[0], adding) then 1 else 0) + Arity(d, flags[1..], Sign(flags[0], adding))
  }

  /** The argument written, read and mapper left after one flag. */
  datatype Step = Step(out: seq<string>, read: nat, mapper: Mapper)

  function MapMember(target: Dialect, m: Mapper, arg: string): Step {
    match target
    case Ferrix => Step([ToFerrix(m, arg)], 1, m)
    case Ts6 =>
      var (m', id) := ToTs6(m, arg);
      Step([if id.Some? then id.value else arg], 1, m')
  }

  function FlagStep(target: Dialect, m: Mapper, c: char, adding: bool, args: seq<string>): (s: Step)
    ensures s.read <= |args|
  {
    if c == 'k' && !adding then
      (match target
       case Ts6 => Step(["*"], 0, m)
       case Ferrix => Step([], if args == [] then 0 else 1, m))
    else if args == [] || !TakesArg(target, c, adding) then Step([], 0, m)
    else if IsMember(c) then MapMember(target, m, args[0])
    else Step([args[0]], 1, m)
  }

  /** The mapper and the arguments after every flag. */
  function Translated(target: Dialect, m: Mapper, flags: string, adding: bool, args: seq<string>)
    : (Mapper, seq<string>)
    decreases |flags|
  {
    if flags == [] then (m, [])
    else
      var s := FlagStep(target, m, flags[0], adding, args);
      var (m', rest) := Translated(target, s.mapper, flags[1..], Sign(flags[0], adding), args[s.read..]);
      (m', s.out + rest)
  }

  function Other(d: Dialect): Dialect {
    match d
    case Ferrix => Ts6
    case Ts6 => Ferrix
  }

  /** One turn of the loop: what is pushed, and the position in the argument list. */
  method TranslateFlag(target: Dialect, mapper: UidMapper, c: char, adding: bool, args: seq<string>, read: nat)
    returns (out: seq<string>, next: nat)
    requires read <= |args|
    modifies mapper
    ensures read <= next <= |args|
    ensures Step(out, next - read, mapper.View()) == FlagStep(target, old(mapper.View()), c, adding, args[read..])
  {
    if c == 'k' && !adding {
      if target.Ts6? {
        return ["*"], read;
      }
      return [], if read < |args| then read + 1 else read;
    }
    if !TakesArg(target, c, adding) || read == |args| {
      return [], read;
    }
    var arg := args[read];
    if !IsMember(c) {
      return [arg], read + 1;
    }
    if target.Ferrix? {
      return [if arg in mapper.toFerrix then mapper.toFerrix[arg] else arg], read + 1;
    }
    var id := mapper.Translate(arg);
    return [if id.Some? then id.value else arg], read + 1;
  }

  function After(out: seq<string>, r: (Mapper, seq<string>)): (Mapper, seq<string>) {
    (r.0, out + r.1)
  }

  lemma AfterNothing(r: (Mapper, seq<string>))
    ensures After([], r) == r
  {
    assert [] + r.1 == r.1;
  }

  lemma AfterDone(m: Mapper, out: seq<string>)
    ensures After(out, (m, [])) == (m, out)
  {
    assert out + [] == out;
  }

  method TranslateModeArgs(target: Dialect, mapper: UidMapper, flags: string, args: seq<string>)
    returns (out: seq<string>)
    modifies mapper
    ensures (mapper.View(), out) == Translated(target, old(mapper.View()), flags, true, args)
  {
    hide FlagStep, TakesArg, Translated;
    out := [];
    var adding, read, i := true, 0, 0;
    AfterNothing(Translated(target, mapper.View(), flags, true, args));
    assert flags[0..] == flags && args[0..] == args;
    while i < |flags|
      invariant 0 <= i <= |flags| && 0 <= read <= |args|
      invariant Translated(target, old(mapper.View()), flags, true, args)
             == After(out, Translated(target, mapper.View(), flags[i..], adding, args[read..]))
    {
      UnfoldTranslated(target, mapper.View(), flags[i..], adding, args[read..], out);
      var pushed, next := TranslateFlag(target, mapper, flags[i], adding, args, read);
      assert args[read..][next - read..] == args[next..] && flags[i..][1..] == flags[i + 1..];
      out, read, adding, i := out + pushed, next, Sign(flags[i], adding), i + 1;
    }
    EmptyTranslated(target, mapper.View(), flags[i..], adding, args[read..]);
    AfterDone(mapper.View(), out);
  }

  lemma EmptyTranslated(target: Dialect, m: Mapper, flags: string, adding: bool, args: seq<string>)
    requires flags == []
    ensures Translated(target, m, flags, adding, args) == (m, [])
  {
  }

  lemma UnfoldTranslated(target: Dialect, m: Mapper, flags: string, adding: bool, args: seq<string>, out: seq<string>)
    requires flags != []
    ensures var s := FlagStep(target, m, flags[0], adding, args);
            After(out, Translated(target, m, flags, adding, args))
            == After(out + s.out, Translated(target, s.mapper, flags[1..], Sign(flags[0], adding), args[s.read..]))
  {
    hide FlagStep;
    var s := FlagStep(target, m, flags[0], adding, args);
    var rest := Translated(target, s.mapper, flags[1..], Sign(flags[0], adding), args[s.read..]).1;
    assert out + (s.out + rest) == out + s.out + rest;
  }

  /** The list written has the arity of the dialect it is written in. */
  lemma {:induction false} TranslatedArity(target: Dialect, m: Mapper, flags: string, adding: bool, args: seq<string>)
    requires |args| == Arity(Other(target), flags, adding)
    ensures |Translated(target, m, flags, adding, args).1| == Arity(target, flags, adding)
    decreases |flags|
  {
    hide ToTs6, ToFerrix;
    if flags != [] {
      var s := FlagStep(target, m, flags[0], adding, args);
      TranslatedArity(target, s.mapper, flags[1..], Sign(flags[0], adding), args[s.read..]);
    }
  }

  /** The arguments that name members, in a list written in dialect `d`. */
  function MemberArgs(d: Dialect, flags: string, adding: bool, args: seq<string>): set<string>
    decreases |flags|
  {
    if flags == [] || args == [] then {}
    else
      var takes := TakesArg(d, flags[0], adding);
      (if IsMember(flags[0]) then {args[0]} else {})
      + MemberArgs(d, flags[1..], Sign(flags[0], adding), if takes then args[1..] else args)
  }

  /** The arguments of `-k`, in a TS6 list. */
  function RemovedKeys(flags: string, adding: bool, args: seq<string>): set<string>
    decreases |flags|
  {
    if flags == [] || args == [] then {}
    else
      var takes := TakesArg(Ts6, flags[0], adding);
      (if flags[0] == 'k' && !adding then {args[0]} else {})
      + RemovedKeys(flags[1..], Sign(flags[0], adding), if takes then args[1..] else args)
  }

  // ---------------------------------------------------------- there and back again

  /** Everything `m` knows, `later` knows. */
  ghost predicate Extends(m: Mapper, later: Mapper) {
    m.next <= later.next && forall u :: Known(m, u).Some? ==> Known(later, u) == Known(m, u)
  }

  lemma {:induction false} TranslatedExtends(m: Mapper, flags: string, adding: bool, args: seq<string>)
    ensures Extends(m, Translated(Ts6, m, flags, adding, args).0)
    decreases |flags|
  {
    hide ToTs6, Known;
    if flags != [] {
      var s := FlagStep(Ts6, m, flags[0], adding, args);
      TranslatedExtends(s.mapper, flags[1..], Sign(flags[0], adding), args[s.read..]);
      if s.mapper != m {
        NextGrows(m, args[0]);
        forall u | Known(m, u).Some?
          ensures Known(s.mapper, u) == Known(m, u)
        {
          KnownStays(m, u, args[0]);
        }
      }
    }
  }

  lemma {:induction false} TranslatedKeeps(m: Mapper, flags: string, adding: bool, args: seq<string>)
    requires ValidMapper(m) && Translated(Ts6, m, flags, adding, args).0.next <= CAPACITY
    ensures ValidMapper(Translated(Ts6, m, flags, adding, args).0)
    decreases |flags|
  {
    hide ToTs6, ValidMapper, Known;
    if flags != [] {
      var s := FlagStep(Ts6, m, flags[0], adding, args);
      TranslatedExtends(s.mapper, flags[1..], Sign(flags[0], adding), args[s.read..]);
      if s.mapper != m {
        ToTs6Keeps(m, args[0]);
      }
      TranslatedKeeps(s.mapper, flags[1..], Sign(flags[0], adding), args[s.read..]);
    }
  }

  /** A TS6-shaped uid that the mapper reads as one of our users' aliases. */
  predicate Shadowed(m: Mapper, uid: string) {
    ValidUid(uid) && uid in m.toFerrix
  }

  lemma KnownHasSid(m: Mapper, uid: string)
    requires ValidMapper(m) && Known(m, uid).Some?
    ensures HasSid(uid)
  {
    hide ValidMapper, ValidSid;
    if !ValidUid(uid) {
      AliasEntry(m, uid);
    }
  }

  lemma ShadowedReturnsOther(m: Mapper, uid: string)
    requires ValidMapper(m) && Shadowed(m, uid)
    ensures ToFerrix(m, uid) != uid
  {
    hide ValidMapper, ValidSid, EncodeId;
    AliasSource(m, uid);
  }

  /** A member argument comes back exactly when it was not taken for an alias. */
  lemma MemberReturns(m: Mapper, uid: string, later: Mapper)
    requires ValidMapper(later) && Extends(MapMember(Ts6, m, uid).mapper, later)
    ensures ToFerrix(later, MapMember(Ts6, m, uid).out[0]) == uid <==> !Shadowed(later, uid)
  {
    hide EncodeId, ValidMapper, ValidSid, ValidUid;
    ToTs6IsKnown(m, uid);
    if ValidUid(uid) {
      if Shadowed(later, uid) {
        ShadowedReturnsOther(later, uid);
      }
    } else if ToTs6(m, uid).1.Some? {
      KnownHasSid(later, uid);
      KnownIsInverse(later, uid);
    } else if uid in later.toFerrix {
      AliasesHaveLetters(later, uid);
    }
  }

  lemma BackStep(m: Mapper, c: char, adding: bool, args: seq<string>, rest: seq<string>, later: Mapper)
    requires TakesArg(Ferrix, c, adding) ==> args != []
    ensures var s := FlagStep(Ts6, m, c, adding, args);
            var t := FlagStep(Ferrix, later, c, adding, s.out + rest);
            && t.mapper == later && t.read == |s.out| && |t.out| == s.read
            && s.mapper == (if IsMember(c) then MapMember(Ts6, m, args[0]).mapper else m)
            && t.out == (if IsMember(c) then [ToFerrix(later, MapMember(Ts6, m, args[0]).out[0])] else args[..s.read])
  {
    hide ToTs6, ToFerrix;
  }

  /** Whether the first flag's argument returns, once the mapper is `later`. */
  lemma HeadReturns(m: Mapper, c: char, adding: bool, args: seq<string>, rest: seq<string>, later: Mapper)
    requires TakesArg(Ferrix, c, adding) ==> args != []
    requires ValidMapper(later) && Extends(FlagStep(Ts6, m, c, adding, args).mapper, later)
    ensures var s := FlagStep(Ts6, m, c, adding, args);
            FlagStep(Ferrix, later, c, adding, s.out + rest).out == args[..s.read]
            <==> (IsMember(c) ==> !Shadowed(later, args[0]))
  {
    hide ToTs6, ToFerrix, ValidMapper, Shadowed, Extends;
    BackStep(m, c, adding, args, rest, later);
    if IsMember(c) {
      MemberReturns(m, args[0], later);
    }
  }

  /**
   * Towards TS6 and back, through any later state of the mapper: the list comes back
   * exactly when no member argument is a TS6 uid that is by then one of our aliases.
   */
  lemma {:induction false} ThereAndBack(m: Mapper, flags: string, adding: bool, args: seq<string>, later: Mapper)
    requires |args| == Arity(Ferrix, flags, adding)
    requires ValidMapper(later) && Extends(Translated(Ts6, m, flags, adding, args).0, later)
    ensures Translated(Ferrix, later, flags, adding, Translated(Ts6, m, flags, adding, args).1).1 == args
       <==> forall u :: u in MemberArgs(Ferrix, flags, adding, args) ==> !Shadowed(later, u)
    decreases |flags|
  {
    hide ToTs6, ToFerrix, ValidMapper, Shadowed, Known, MapMember, FlagStep;
    if flags != [] {
      var c, sign := flags[0], Sign(flags[0], adding);
      var s := FlagStep(Ts6, m, c, adding, args);
      var rest := Translated(Ts6, s.mapper, flags[1..], sign, args[s.read..]).1;
      FlagReads(Ts6, m, c, adding, args);
      TranslatedExtends(s.mapper, flags[1..], sign, args[s.read..]);
      ThereAndBack(s.mapper, flags[1..], sign, args[s.read..], later);
      BackStep(m, c, adding, args, rest, later);
      HeadReturns(m, c, adding, args, rest, later);
      assert (s.out + rest)[|s.out|..] == rest;
      var t := FlagStep(Ferrix, later, c, adding, s.out + rest);
      SplitEquality(t.out, Translated(Ferrix, later, flags[1..], sign, rest).1, args);
    }
  }

  lemma FlagReads(target: Dialect, m: Mapper, c: char, adding: bool, args: seq<string>)
    requires TakesArg(Other(target), c, adding) ==> args != []
    ensures FlagStep(target, m, c, adding, args).read == if TakesArg(Other(target), c, adding) then 1 else 0
  {
    hide ToTs6, ToFerrix;
  }

  lemma SplitEquality(a: seq<string>, b: seq<string>, whole: seq<string>)
    requires |a| <= |whole|
    ensures a + b == whole <==> a == whole[..|a|] && b == whole[|a|..]
  {
    assert whole == whole[..|a|] + whole[|a|..];
    assert (a + b)[..|a|] == a && (a + b)[|a|..] == b;
  }

  /** The arguments this server makes: members are SID and decimal id, or cannot be TS6 uids at all. */
  lemma ModesReturn(m: Mapper, flags: string, args: seq<string>)
    requires |args| == Arity(Ferrix, flags, true) && ValidMapper(m)
    requires Translated(Ts6, m, flags, true, args).0.next <= CAPACITY
    requires forall u :: u in MemberArgs(Ferrix, flags, true, args) ==> ValidUid(u) ==> IsDigit(u[3])
    ensures var (later, sent) := Translated(Ts6, m, flags, true, args);
            Translated(Ferrix, later, flags, true, sent).1 == args
  {
    hide ValidMapper, Translated, MemberArgs, Arity, ValidUid, Known;
    var later := Translated(Ts6, m, flags, true, args).0;
    TranslatedKeeps(m, flags, true, args);
    forall u | u in MemberArgs(Ferrix, flags, true, args)
      ensures !Shadowed(later, u)
    {
      if u in later.toFerrix {
        AliasesHaveLetters(later, u);
      }
    }
    ThereAndBack(m, flags, true, args, later);
  }

  /** A name TS6 could not carry: it has a SID but is no TS6 uid. */
  predicate Unspeakable(uid: string) {
    HasSid(uid) && !ValidUid(uid)
  }

  /** A member argument read from TS6 goes out again unchanged, unless TS6 cannot have sent it. */
  lemma ForeignMemberReturns(m: Mapper, id: string)
    requires ValidMapper(m)
    ensures var s := MapMember(Ts6, m, ToFerrix(m, id));
            && (s.out == [id] <==> !Unspeakable(id))
            && (!Unspeakable(id) ==> s.mapper == m)
  {
    hide ValidMapper, ValidSid, EncodeId;
    if id in m.toFerrix {
      AliasSource(m, id);
      AliasesHaveLetters(m, id);
    } else if id in m.toTs6 {
      AliasEntry(m, id);
      var k: nat :| Entry(m, id, k);
      AliasShape(id, k);
    } else if HasSid(id) {
      AliasShape(id, m.next);
    }
  }

  lemma OutStep(m: Mapper, c: char, adding: bool, args: seq<string>, rest: seq<string>)
    requires ValidMapper(m) && (TakesArg(Ts6, c, adding) ==> args != [])
    ensures var s := FlagStep(Ferrix, m, c, adding, args);
            var t := FlagStep(Ts6, m, c, adding, s.out + rest);
            var good := (IsMember(c) ==> !Unspeakable(args[0])) && (c == 'k' && !adding ==> args[0] == "*");
            && s.mapper == m && t.read == |s.out| && |t.out| == s.read
            && (t.out == args[..s.read] <==> good) && (good ==> t.mapper == m)
  {
    hide ToTs6, ToFerrix, Unspeakable, ValidMapper;
    if IsMember(c) {
      ForeignMemberReturns(m, args[0]);
    }
  }

  /** Every removed key is `*` and no member argument is a name TS6 could not carry. */
  ghost predicate Carried(flags: string, adding: bool, args: seq<string>) {
    && (forall u :: u in MemberArgs(Ts6, flags, adding, args) ==> !Unspeakable(u))
    && (forall k :: k in RemovedKeys(flags, adding, args) ==> k == "*")
  }

  lemma CarriedStep(flags: string, adding: bool, args: seq<string>)
    requires flags != [] && (TakesArg(Ts6, flags[0], adding) ==> args != [])
    ensures var rest := if TakesArg(Ts6, flags[0], adding) then args[1..] else args;
            Carried(flags, adding, args)
            <==> && (IsMember(flags[0]) ==> !Unspeakable(args[0]))
                 && (flags[0] == 'k' && !adding ==> args[0] == "*")
                 && Carried(flags[1..], Sign(flags[0], adding), rest)
  {
    hide Unspeakable;
    var c, sign := flags[0], Sign(flags[0], adding);
    var rest := if TakesArg(Ts6, c, adding) then args[1..] else args;
    assert RemovedKeys(flags, adding, args)
        == (if c == 'k' && !adding then {args[0]} else {}) + RemovedKeys(flags[1..], sign, rest);
    assert MemberArgs(Ts6, flags, adding, args)
        == (if IsMember(c) then {args[0]} else {}) + MemberArgs(Ts6, flags[1..], sign, rest);
  }

  /**
   * From TS6 and out again: the list comes back exactly when it is one TS6 can carry,
   * and the mapper then stays as it was.
   */
  lemma {:induction false} BackAndThere(m: Mapper, flags: string, adding: bool, args: seq<string>)
    requires |args| == Arity(Ts6, flags, adding) && ValidMapper(m)
    ensures var (m', out) := Translated(Ts6, m, flags, adding, Translated(Ferrix, m, flags, adding, args).1);
            (out == args <==> Carried(flags, adding, args)) && (Carried(flags, adding, args) ==> m' == m)
    decreases |flags|
  {
    hide ToTs6, ToFerrix, ValidMapper, Unspeakable, MapMember, FlagStep;
    if flags != [] {
      hide Carried;
      var c, sign := flags[0], Sign(flags[0], adding);
      var s := FlagStep(Ferrix, m, c, adding, args);
      FlagReads(Ferrix, m, c, adding, args);
      var rest := Translated(Ferrix, m, flags[1..], sign, args[s.read..]).1;
      BackAndThere(m, flags[1..], sign, args[s.read..]);
      OutStep(m, c, adding, args, rest);
      CarriedStep(flags, adding, args);
      assert (s.out + rest)[|s.out|..] == rest;
      var t := FlagStep(Ts6, m, c, adding, s.out + rest);
      SplitEquality(t.out, Translated(Ts6, t.mapper, flags[1..], sign, rest).1, args);
    }
  }

  // ----------------------------------------------------- the table of flags, spelled out

  /** Whether the flag `c` reads an argument when a list is translated to `target`. */
  predicate Reads(target: Dialect, c: char, adding: bool) {
    || c in "ovbeI"
    || (adding && c in "kl")
    || (!adding && c == 'k' && target == Ferrix)
  }

  /** Whether it writes one. */
  predicate Writes(target: Dialect, c: char, adding: bool) {
    || c in "ovbeI"
    || (adding && c in "kl")
    || (!adding && c == 'k' && target == Ts6)
  }

  /** What one flag does, when its argument is there. */
  lemma FlagEffect(target: Dialect, m: Mapper, c: char, adding: bool, args: seq<string>)
    requires Reads(target, c, adding) ==> args != []
    ensures var s := FlagStep(target, m, c, adding, args);
            && s.read == (if Reads(target, c, adding) then 1 else 0)
            && |s.out| == (if Writes(target, c, adding) then 1 else 0)
            && (c in "beI" || (adding && c in "kl") ==> s.out == [args[0]])
            && (!adding && c == 'k' && target == Ts6 ==> s.out == ["*"])
            && (c in "ov" && target == Ferrix ==> s.out == [ToFerrix(m, args[0])])
            && (c in "ov" && target == Ts6 ==>
                  && s.mapper == ToTs6(m, args[0]).0
                  && s.out == [if ToTs6(m, args[0]).1.Some? then ToTs6(m, args[0]).1.value else args[0]])
            && (c !in "ov" || target == Ferrix ==> s.mapper == m)
  {
    hide ToTs6, ToFerrix;
  }

  /** Without its argument a flag writes nothing, but for `-k` towards TS6. */
  lemma FlagAlone(target: Dialect, m: Mapper, c: char, adding: bool)
    ensures var s := FlagStep(target, m, c, adding, []);
            && s.read == 0 && s.mapper == m
            && s.out == if !adding && c == 'k' && target == Ts6 then ["*"] else []
  {
  }

  /** The sign in force at position `i`: that of the last `+` or `-` before it. */
  predicate AddingAt(flags: string, adding: bool, i: nat)
    requires i <= |flags|
  {
    if i == 0 then adding
    else if flags[i - 1] == '+' then true
    else if flags[i - 1] == '-' then false
    else AddingAt(flags, adding, i - 1)
  }

  /** How many arguments the flags before position `i` read. */
  function ReadBefore(target: Dialect, flags: string, adding: bool, i: nat): nat
    requires i <= |flags|
  {
    if i == 0 then 0
    else ReadBefore(target, flags, adding, i - 1) + if Reads(target, flags[i - 1], AddingAt(flags, adding, i - 1)) then 1 else 0
  }

  /** How many they write. */
  function WrittenBefore(target: Dialect, flags: string, adding: bool, i: nat): nat
    requires i <= |flags|
  {
    if i == 0 then 0
    else WrittenBefore(target, flags, adding, i - 1) + if Writes(target, flags[i - 1], AddingAt(flags, adding, i - 1)) then 1 else 0
  }

  lemma {:induction false} AddingTail(flags: string, adding: bool, i: nat)
    requires 0 < i <= |flags|
    ensures AddingAt(flags, adding, i) == AddingAt(flags[1..], Sign(flags[0], adding), i - 1)
  {
    if i > 1 {
      AddingTail(flags, adding, i - 1);
    }
  }

  lemma {:induction false} CountsTail(target: Dialect, flags: string, adding: bool, i: nat)
    requires 0 < i <= |flags|
    ensures ReadBefore(target, flags, adding, i)
         == (if Reads(target, flags[0], adding) then 1 else 0)
            + ReadBefore(target, flags[1..], Sign(flags[0], adding), i - 1)
    ensures WrittenBefore(target, flags, adding, i)
         == (if Writes(target, flags[0], adding) then 1 else 0)
            + WrittenBefore(target, flags[1..], Sign(flags[0], adding), i - 1)
  {
    hide Reads, Writes, Sign;
    if i > 1 {
      CountsTail(target, flags, adding, i - 1);
      AddingTail(flags, adding, i - 1);
    }
  }

  /** The answer for a member argument, by the mapper as it is in the end. */
  function Mapped(target: Dialect, m: Mapper, arg: string): string {
    match target
    case Ferrix => ToFerrix(m, arg)
    case Ts6 => if Known(m, arg).Some? then Known(m, arg).value else arg
  }

  /** What stands in the output for the flag at position `i`. */
  predicate Placed(target: Dialect, m: Mapper, flags: string, adding: bool, args: seq<string>, out: seq<string>, i: nat)
    requires i < |flags|
  {
    var c, plus := flags[i], AddingAt(flags, adding, i);
    var r, w := ReadBefore(target, flags, adding, i), WrittenBefore(target, flags, adding, i);
    && (c in "beI" || (plus && c in "kl") ==> r < |args| && w < |out| && out[w] == args[r])
    && (c in "ov" ==> r < |args| && w < |out| && out[w] == Mapped(target, m, args[r]))
    && (!plus && c == 'k' && target == Ts6 ==> w < |out| && out[w] == "*")
  }

  /** What has no SID never gets an alias. */
  lemma {:induction false} UnknownStays(target: Dialect, m: Mapper, flags: string, adding: bool, args: seq<string>, a: string)
    requires !HasSid(a) && Known(m, a).None?
    ensures Known(Translated(target, m, flags, adding, args).0, a).None?
    decreases |flags|
  {
    hide HasSid, ToFerrix, TakesArg, Alias;
    if flags != [] {
      var s := FlagStep(target, m, flags[0], adding, args);
      UnknownStays(target, s.mapper, flags[1..], Sign(flags[0], adding), args[s.read..], a);
    }
  }

  lemma {:induction false} FerrixLeavesMapper(m: Mapper, flags: string, adding: bool, args: seq<string>)
    ensures Translated(Ferrix, m, flags, adding, args).0 == m
    decreases |flags|
  {
    hide ToFerrix;
    if flags != [] {
      var s := FlagStep(Ferrix, m, flags[0], adding, args);
      FerrixLeavesMapper(m, flags[1..], Sign(flags[0], adding), args[s.read..]);
    }
  }

  lemma MemberIsMapped(target: Dialect, m: Mapper, flags: string, adding: bool, args: seq<string>)
    requires flags != [] && flags[0] in "ov" && args != []
    ensures FlagStep(target, m, flags[0], adding, args).out
         == [Mapped(target, Translated(target, m, flags, adding, args).0, args[0])]
  {
    hide ToFerrix, Known, TakesArg;
    var s := FlagStep(target, m, flags[0], adding, args);
    FlagEffect(target, m, flags[0], adding, args);
    if target == Ferrix {
      FerrixLeavesMapper(m, flags, adding, args);
    } else {
      ToTs6IsKnown(m, args[0]);
      if Known(s.mapper, args[0]).Some? {
        TranslatedExtends(s.mapper, flags[1..], Sign(flags[0], adding), args[s.read..]);
      } else {
        UnknownStays(target, s.mapper, flags[1..], Sign(flags[0], adding), args[s.read..], args[0]);
      }
    }
  }

  /**
   * A whole list: as many arguments are written as the table says, each in the place
   * of its flag, members by the mapper and all others as they were.
   */
  lemma {:induction false} ListEffect(target: Dialect, m: Mapper, flags: string, adding: bool, args: seq<string>)
    requires |args| >= ReadBefore(target, flags, adding, |flags|)
    ensures var (later, out) := Translated(target, m, flags, adding, args);
            && |out| == WrittenBefore(target, flags, adding, |flags|)
            && forall i :: 0 <= i < |flags| ==> Placed(target, later, flags, adding, args, out, i)
    decreases |flags|
  {
    hide ToTs6, ToFerrix, FlagStep, Reads, Writes, TakesArg, Sign, Known;
    if flags != [] {
      var sign := Sign(flags[0], adding);
      CountsTail(target, flags, adding, |flags|);
      FlagEffect(target, m, flags[0], adding, args);
      var s := FlagStep(target, m, flags[0], adding, args);
      ListEffect(target, s.mapper, flags[1..], sign, args[s.read..]);
      var rest := Translated(target, s.mapper, flags[1..], sign, args[s.read..]).1;
      var (later, out) := Translated(target, m, flags, adding, args);
      assert out == s.out + rest;
      forall i | 0 <= i < |flags|
        ensures Placed(target, later, flags, adding, args, out, i)
      {
        if i == 0 {
          PlacedFirst(target, m, flags, adding, args, rest);
        } else {
          PlacedLater(target, later, flags, adding, args, s.out, rest, s.read, i);
        }
      }
    }
  }

  lemma PlacedFirst(target: Dialect, m: Mapper, flags: string, adding: bool, args: seq<string>, rest: seq<string>)
    requires flags != [] && (Reads(target, flags[0], adding) ==> args != [])
    ensures Placed(target, Translated(target, m, flags, adding, args).0, flags, adding, args,
                   FlagStep(target, m, flags[0], adding, args).out + rest, 0)
  {
    hide ToTs6, ToFerrix, FlagStep, Mapped, Translated;
    FlagEffect(target, m, flags[0], adding, args);
    if flags[0] in "ov" {
      MemberIsMapped(target, m, flags, adding, args);
    }
  }

  lemma PlacedLater(target: Dialect, m: Mapper, flags: string, adding: bool, args: seq<string>, head: seq<string>,
                    rest: seq<string>, read: nat, i: nat)
    requires 0 < i < |flags| && read <= |args|
    requires read == (if Reads(target, flags[0], adding) then 1 else 0)
    requires |head| == (if Writes(target, flags[0], adding) then 1 else 0)
    requires Placed(target, m, flags[1..], Sign(flags[0], adding), args[read..], rest, i - 1)
    ensures Placed(target, m, flags, adding, args, head + rest, i)
  {
    hide Reads, Writes, Sign, Mapped;
    CountsTail(target, flags, adding, i);
    AddingTail(flags, adding, i);
  }

  /** The arities are these counts. */
  lemma {:induction false} ArityIsCount(target: Dialect, flags: string, adding: bool)
    ensures Arity(Other(target), flags, adding) == ReadBefore(target, flags, adding, |flags|)
    ensures Arity(target, flags, adding) == WrittenBefore(target, flags, adding, |flags|)
    decreases |flags|
  {
    if flags != [] {
      ArityIsCount(target, flags[1..], Sign(flags[0], adding));
      CountsTail(target, flags, adding, |flags|);
      assert TakesArg(Other(target), flags[0], adding) == Reads(target, flags[0], adding);
      assert TakesArg(target, flags[0], adding) == Writes(target, flags[0], adding);
    }
  }

  // --------------------------------------------------------------- shapes, spelled out

  predicate LetterOrDigit(c: char) {
    'A' <= c <= 'Z' || '0' <= c <= '9'
  }

  /** Which ids pass the bridge unchanged: nine characters, a digit and eight capitals or digits. */
  lemma ValidUidIff(s: string)
    ensures ValidUid(s) <==> |s| == 9 && '0' <= s[0] <= '9' && forall i :: 1 <= i < 9 ==> LetterOrDigit(s[i])
  {
    if |s| == 9 {
      var sid := s[..3];
      assert sid[0] == s[0] && sid[1] == s[1] && sid[2] == s[2];
      if ValidUid(s) {
        forall i | 1 <= i < 9
          ensures LetterOrDigit(s[i])
        {
          if i < 3 {
            assert IsIdChar(sid[i]);
          }
        }
      }
    }
  }

  /** The first suffixes, in the order they are given out. */
  lemma FirstSuffixes()
    ensures EncodeId(0) == "AAAAAA" && EncodeId(1) == "AAAAAB" && EncodeId(26) == "AAAAA0"
    ensures EncodeId(36) == "AAAABA"
  {
    hide EncodeId, Base36;
    LowSuffix(0);
    LowSuffix(1);
    LowSuffix(26);
    LowSuffix(36);
  }

  lemma LowSuffix(n: nat)
    ensures EncodeId(n) == [AlphaAt(n / BLOCK % 26), AlphaAt(n % BLOCK / 1679616 % 36), AlphaAt(n % BLOCK / 46656 % 36),
                            AlphaAt(n % BLOCK / 1296 % 36), AlphaAt(n % BLOCK / 36 % 36), AlphaAt(n % BLOCK % 36)]
  {
    var r := n % BLOCK;
    var d1, d2, d3, d4 := r / 36, r / 36 / 36, r / 36 / 36 / 36, r / 36 / 36 / 36 / 36;
    assert d2 == r / 1296 && d3 == r / 46656 && d4 == r / 1679616;
    assert Base36(d4, 1) == Base36(d4 / 36, 0) + [AlphaAt(d4 % 36)];
    assert Base36(d3, 2) == Base36(d4, 1) + [AlphaAt(d3 % 36)];
    assert Base36(d2, 3) == Base36(d3, 2) + [AlphaAt(d2 % 36)];
    assert Base36(d1, 4) == Base36(d2, 3) + [AlphaAt(d1 % 36)];
    assert Base36(r, 5) == Base36(d1, 4) + [AlphaAt(r % 36)];
  }
}
