/** Chat history queries (ferrixd/src/history.rs). */
module Queries {
  import opened Octets
  import opened Sequences
  import opened Persist
  import opened History

  datatype Selector = Latest | Timestamp(ms: nat) | MsgId(id: string)

  predicate IsMessage(m: Stored) {
    m.kind.PrivMsg? || m.kind.Notice?
  }

  /** What a requester may see of a ring, in order. */
  function Snapshot(ring: seq<Stored>, events: bool): seq<Stored> {
    if ring == [] then []
    else (if events || IsMessage(ring[0]) then [ring[0]] else []) + Snapshot(ring[1..], events)
  }

  /** The first position whose time is not before `ms`. */
  function FirstAt(msgs: seq<Stored>, ms: nat): (n: nat)
    ensures n <= |msgs|
    ensures forall i :: 0 <= i < n ==> msgs[i].timeMs < ms
    ensures n < |msgs| ==> msgs[n].timeMs >= ms
  {
    if msgs == [] || msgs[0].timeMs >= ms then 0 else 1 + FirstAt(msgs[1..], ms)
  }

  function Find(msgs: seq<Stored>, id: string): Option<nat> {
    var n := Position(msgs, id);
    if n < |msgs| then Some(n) else None
  }

  /** Never past the end, so the slices taken from it are in range. */
  function ResolveIndex(msgs: seq<Stored>, point: Selector): (r: Option<nat>)
    ensures r.Some? ==> r.value <= |msgs|
  {
    match point
    case Latest => Some(if msgs == [] then 0 else |msgs| - 1)
    case Timestamp(ms) => Some(FirstAt(msgs, ms))
    case MsgId(id) => Find(msgs, id)
  }

  function EarlierThan(msgs: seq<Stored>, ms: nat): seq<Stored> {
    if msgs == [] then []
    else (if msgs[0].timeMs < ms then [msgs[0]] else []) + EarlierThan(msgs[1..], ms)
  }

  function LaterThan(msgs: seq<Stored>, ms: nat): seq<Stored> {
    if msgs == [] then []
    else (if msgs[0].timeMs > ms then [msgs[0]] else []) + LaterThan(msgs[1..], ms)
  }

  function FilterBefore(msgs: seq<Stored>, point: Selector): seq<Stored> {
    match point
    case Latest => msgs
    case Timestamp(ms) => EarlierThan(msgs, ms)
    case MsgId(id) =>
      var n := Find(msgs, id);
      if n.Some? then msgs[..n.value] else []
  }

  function FilterAfter(msgs: seq<Stored>, point: Selector): seq<Stored> {
    match point
    case Latest => msgs
    case Timestamp(ms) => LaterThan(msgs, ms)
    case MsgId(id) =>
      var n := Find(msgs, id);
      if n.Some? then msgs[n.value + 1..] else []
  }

  function TakeLast(s: seq<Stored>, limit: nat): seq<Stored> {
    if |s| > limit then s[|s| - limit..] else s
  }

  function TakeFirst(s: seq<Stored>, limit: nat): seq<Stored> {
    if |s| > limit then s[..limit] else s
  }

  function Before(msgs: seq<Stored>, point: Selector, limit: nat): seq<Stored> {
    TakeLast(FilterBefore(msgs, point), limit)
  }

  function After(msgs: seq<Stored>, point: Selector, limit: nat): seq<Stored> {
    TakeFirst(FilterAfter(msgs, point), limit)
  }

  function Around(msgs: seq<Stored>, point: Selector, limit: nat): seq<Stored> {
    var anchor := ResolveIndex(msgs, point);
    if anchor.None? then []
    else
      var half := limit / 2;
      var start := if anchor.value > half then anchor.value - half else 0;
      var end := if anchor.value + half + 1 < |msgs| then anchor.value + half + 1 else |msgs|;
      TakeFirst(msgs[start..end], limit)
  }

  function Between(msgs: seq<Stored>, a: Selector, b: Selector, limit: nat): seq<Stored> {
    var ia, ib := ResolveIndex(msgs, a), ResolveIndex(msgs, b);
    if ia.None? || ib.None? then []
    else
      var lo, hi := if ia.value < ib.value then ia.value else ib.value, if ia.value < ib.value then ib.value else ia.value;
      var start, end := if lo + 1 < |msgs| then lo + 1 else |msgs|, if hi < |msgs| then hi else |msgs|;
      if start >= end then [] else TakeFirst(msgs[start..end], limit)
  }

  lemma {:induction false} SnapshotMembers(ring: seq<Stored>, events: bool, i: nat) returns (j: nat)
    requires i < |Snapshot(ring, events)|
    ensures j < |ring| && ring[j] == Snapshot(ring, events)[i] && (events || IsMessage(ring[j]))
  {
    var shown := events || IsMessage(ring[0]);
    if shown && i == 0 {
      j := 0;
    } else {
      j := SnapshotMembers(ring[1..], events, if shown then i - 1 else i);
      j := j + 1;
    }
  }

  /** What is shown of a ring has distinct ids if the ring has. */
  lemma {:induction false} SnapshotIsDistinct(ring: seq<Stored>, events: bool)
    requires DistinctIds(ring)
    ensures DistinctIds(Snapshot(ring, events))
  {
    if ring != [] {
      SnapshotIsDistinct(ring[1..], events);
      var rest := Snapshot(ring[1..], events);
      forall i | 0 <= i < |rest|
        ensures rest[i].msgid != ring[0].msgid
      {
        var j := SnapshotMembers(ring[1..], events, i);
      }
    }
  }

  // -------------------------------------------------------------------------- paging

  lemma FindAt(msgs: seq<Stored>, i: nat)
    requires DistinctIds(msgs) && i < |msgs|
    ensures Find(msgs, msgs[i].msgid) == Some(i)
  {
    hide Position;
  }

  function Least(a: int, b: int): int {
    if a < b then a else b
  }

  function Most(a: int, b: int): int {
    if a < b then b else a
  }

  lemma BeforeAt(msgs: seq<Stored>, n: nat, limit: nat)
    requires DistinctIds(msgs) && n < |msgs|
    ensures Before(msgs, MsgId(msgs[n].msgid), limit) == msgs[Most(n - limit, 0)..n]
  {
    hide Find, DistinctIds;
    FindAt(msgs, n);
  }

  lemma NewestPage(msgs: seq<Stored>, limit: nat)
    ensures Before(msgs, Latest, limit) == msgs[Most(|msgs| - limit, 0)..]
  {
  }

  lemma AfterAt(msgs: seq<Stored>, n: nat, limit: nat)
    requires DistinctIds(msgs) && n < |msgs|
    ensures After(msgs, MsgId(msgs[n].msgid), limit) == msgs[n + 1..Least(n + 1 + limit, |msgs|)]
  {
    hide Find, DistinctIds;
    FindAt(msgs, n);
  }

  /** A client that asks for the page before the oldest message it has, until there is none. */
  ghost predicate PagedBack(msgs: seq<Stored>, point: Selector, limit: nat, pages: seq<seq<Stored>>)
    decreases |pages|
  {
    var page := Before(msgs, point, limit);
    if page == [] then pages == []
    else pages != [] && pages[|pages| - 1] == page && PagedBack(msgs, MsgId(page[0].msgid), limit, pages[..|pages| - 1])
  }

  /** The same towards the newest. */
  ghost predicate PagedForward(msgs: seq<Stored>, point: Selector, limit: nat, pages: seq<seq<Stored>>)
    decreases |pages|
  {
    var page := After(msgs, point, limit);
    if page == [] then pages == []
    else pages != [] && pages[0] == page && PagedForward(msgs, MsgId(page[|page| - 1].msgid), limit, pages[1..])
  }

  /** Going back page by page visits everything before the starting point, once and in order. */
  lemma {:induction false} PagingBackIsComplete(msgs: seq<Stored>, n: nat, limit: nat, pages: seq<seq<Stored>>)
    requires DistinctIds(msgs) && n < |msgs| && limit >= 1
    requires PagedBack(msgs, MsgId(msgs[n].msgid), limit, pages)
    ensures Flatten(pages) == msgs[..n]
    decreases n
  {
    hide Before, DistinctIds, Flatten;
    var first := Most(n - limit, 0);
    BeforeAt(msgs, n, limit);
    if n == 0 {
      NothingFlat<Stored>();
    } else {
      var older := pages[..|pages| - 1];
      PagingBackIsComplete(msgs, first, limit, older);
      FlattenLast(older, msgs[first..n]);
      assert pages == older + [msgs[first..n]];
      assert msgs[..first] + msgs[first..n] == msgs[..n];
    }
  }

  /** And it comes to an end. */
  lemma {:induction false} PagingBackEnds(msgs: seq<Stored>, n: nat, limit: nat) returns (pages: seq<seq<Stored>>)
    requires DistinctIds(msgs) && n < |msgs| && limit >= 1
    ensures PagedBack(msgs, MsgId(msgs[n].msgid), limit, pages)
    decreases n
  {
    hide Before, DistinctIds;
    var first := Most(n - limit, 0);
    BeforeAt(msgs, n, limit);
    if n == 0 {
      pages := [];
    } else {
      var older := PagingBackEnds(msgs, first, limit);
      pages := older + [msgs[first..n]];
      assert pages[..|pages| - 1] == older;
    }
  }

  lemma {:induction false} PagingForwardIsComplete(msgs: seq<Stored>, n: nat, limit: nat, pages: seq<seq<Stored>>)
    requires DistinctIds(msgs) && n < |msgs| && limit >= 1
    requires PagedForward(msgs, MsgId(msgs[n].msgid), limit, pages)
    ensures Flatten(pages) == msgs[n + 1..]
    decreases |msgs| - n
  {
    hide After, DistinctIds;
    var next := Least(n + 1 + limit, |msgs|);
    AfterAt(msgs, n, limit);
    if n + 1 < |msgs| {
      PagingForwardIsComplete(msgs, next - 1, limit, pages[1..]);
      assert msgs[n + 1..next] + msgs[next..] == msgs[n + 1..];
    }
  }

  lemma {:induction false} PagingForwardEnds(msgs: seq<Stored>, n: nat, limit: nat) returns (pages: seq<seq<Stored>>)
    requires DistinctIds(msgs) && n < |msgs| && limit >= 1
    ensures PagedForward(msgs, MsgId(msgs[n].msgid), limit, pages)
    decreases |msgs| - n
  {
    hide After, DistinctIds;
    var next := Least(n + 1 + limit, |msgs|);
    AfterAt(msgs, n, limit);
    if n + 1 == |msgs| {
      pages := [];
    } else {
      var newer := PagingForwardEnds(msgs, next - 1, limit);
      pages := [msgs[n + 1..next]] + newer;
      assert pages[1..] == newer;
    }
  }

  /** The newest page and the pages before it are the whole ring. */
  lemma RingIsPaged(msgs: seq<Stored>, limit: nat, pages: seq<seq<Stored>>)
    requires DistinctIds(msgs) && limit >= 1 && PagedBack(msgs, Latest, limit, pages)
    ensures Flatten(pages) == msgs
  {
    hide Before, DistinctIds, Flatten;
    NothingFlat<Stored>();
    NewestPage(msgs, limit);
    if msgs != [] {
      var first := Most(|msgs| - limit, 0);
      var older := pages[..|pages| - 1];
      PagingBackIsComplete(msgs, first, limit, older);
      FlattenLast(older, msgs[first..]);
      assert pages == older + [msgs[first..]];
      assert msgs[..first] + msgs[first..] == msgs;
    }
  }

  // ----------------------------------------------------------------- around, between

  /** A run of consecutive messages. */
  ghost predicate Slice(r: seq<Stored>, msgs: seq<Stored>, start: int) {
    0 <= start <= |msgs| - |r| && r == msgs[start..start + |r|]
  }

  lemma AroundAt(msgs: seq<Stored>, i: nat, limit: nat)
    requires DistinctIds(msgs) && i < |msgs|
    ensures Around(msgs, MsgId(msgs[i].msgid), limit)
         == TakeFirst(msgs[Most(i - limit / 2, 0)..Least(i + limit / 2 + 1, |msgs|)], limit)
  {
    hide Find, DistinctIds, TakeFirst;
    FindAt(msgs, i);
  }

  /** The message asked for is among those returned, which are consecutive. */
  lemma AroundHasItsPoint(msgs: seq<Stored>, i: nat, limit: nat)
    requires DistinctIds(msgs) && i < |msgs| && limit >= 1
    ensures var r := Around(msgs, MsgId(msgs[i].msgid), limit);
            |r| <= limit && msgs[i] in r && exists start :: Slice(r, msgs, start)
  {
    hide Around, DistinctIds;
    AroundAt(msgs, i, limit);
    var start := Most(i - limit / 2, 0);
    var r := Around(msgs, MsgId(msgs[i].msgid), limit);
    assert Slice(r, msgs, start);
    assert r[i - start] == msgs[i];
  }

  /** Between two messages, named in either order: the first ones strictly inside. */
  lemma BetweenMessages(msgs: seq<Stored>, i: nat, j: nat, limit: nat)
    requires DistinctIds(msgs) && i < j < |msgs|
    ensures Between(msgs, MsgId(msgs[i].msgid), MsgId(msgs[j].msgid), limit) == TakeFirst(msgs[i + 1..j], limit)
    ensures Between(msgs, MsgId(msgs[j].msgid), MsgId(msgs[i].msgid), limit) == TakeFirst(msgs[i + 1..j], limit)
  {
    hide Find, DistinctIds;
    FindAt(msgs, i);
    FindAt(msgs, j);
  }

  /** It is the middle of them: as many before it as half the limit, as far as the ring goes. */
  lemma AroundIsCentred(msgs: seq<Stored>, i: nat, limit: nat)
    requires DistinctIds(msgs) && i < |msgs| && limit >= 1
    ensures var r := Around(msgs, MsgId(msgs[i].msgid), limit);
            var start := if i < limit / 2 then 0 else i - limit / 2;
            var end := if i + limit / 2 + 1 < |msgs| then i + limit / 2 + 1 else |msgs|;
            |r| == (if end - start < limit then end - start else limit) && r == msgs[start..start + |r|]
  {
    hide Around, DistinctIds;
    AroundAt(msgs, i, limit);
  }

  /** Position `i` is the one a selector means: the newest, the first not before an instant, the named one. */
  predicate Means(msgs: seq<Stored>, point: Selector, i: nat) {
    match point
    case Latest => if msgs == [] then i == 0 else i == |msgs| - 1
    case Timestamp(ms) =>
      && i <= |msgs| && (i < |msgs| ==> msgs[i].timeMs >= ms)
      && forall k :: 0 <= k < i ==> msgs[k].timeMs < ms
    case MsgId(id) => i < |msgs| && msgs[i].msgid == id && forall k :: 0 <= k < i ==> msgs[k].msgid != id
  }

  lemma ResolvedIffMeant(msgs: seq<Stored>, point: Selector, i: nat)
    ensures ResolveIndex(msgs, point) == Some(i) <==> Means(msgs, point, i)
  {
  }

  /** Around any selector: the slice centred on what it means. */
  lemma AroundIsSlice(msgs: seq<Stored>, point: Selector, i: nat, limit: nat)
    requires Means(msgs, point, i)
    ensures var start, end := Most(i - limit / 2, 0), Least(i + limit / 2 + 1, |msgs|);
            start <= end && Around(msgs, point, limit) == msgs[start..Least(end, start + limit)]
  {
    hide ResolveIndex;
    ResolvedIffMeant(msgs, point, i);
  }

  /** Between any two: what lies strictly inside what they mean, in either order. */
  lemma BetweenIsInside(msgs: seq<Stored>, a: Selector, b: Selector, i: nat, j: nat, limit: nat)
    requires Means(msgs, a, i) && Means(msgs, b, j)
    ensures var start, end := Least(i, j) + 1, Most(i, j);
            Between(msgs, a, b, limit) == if start < end then msgs[start..Least(end, start + limit)] else []
  {
    hide ResolveIndex;
    ResolvedIffMeant(msgs, a, i);
    ResolvedIffMeant(msgs, b, j);
  }

  /** A message that is not there: no answer. */
  lemma NothingMeant(msgs: seq<Stored>, a: Selector, b: Selector, limit: nat)
    requires forall i :: !Means(msgs, a, i)
    ensures Around(msgs, a, limit) == [] && Between(msgs, a, b, limit) == [] && Between(msgs, b, a, limit) == []
    ensures Before(msgs, a, limit) == [] && After(msgs, a, limit) == []
  {
    hide Position;
    var r := ResolveIndex(msgs, a);
    if r.Some? {
      ResolvedIffMeant(msgs, a, r.value);
    }
  }

  // ---------------------------------------------------------- what is shown, and by time

  /** A message is shown if it is a message, or if events are wanted; nothing else decides. */
  lemma SnapshotOne(m: Stored, events: bool)
    ensures Snapshot([m], events) == if events || m.kind == PrivMsg || m.kind == Notice then [m] else []
  {
    assert [m][1..] == [];
  }

  lemma {:induction false} SnapshotConcat(a: seq<Stored>, b: seq<Stored>, events: bool)
    ensures Snapshot(a + b, events) == Snapshot(a, events) + Snapshot(b, events)
    decreases |a|
  {
    if a == [] {
      assert a + b == b;
    } else {
      assert (a + b)[1..] == a[1..] + b;
      SnapshotConcat(a[1..], b, events);
      var head := if events || IsMessage(a[0]) then [a[0]] else [];
      assert head + (Snapshot(a[1..], events) + Snapshot(b, events)) == head + Snapshot(a[1..], events) + Snapshot(b, events);
    }
  }

  lemma {:induction false} AllEarlier(msgs: seq<Stored>, ms: nat)
    requires forall i :: 0 <= i < |msgs| ==> msgs[i].timeMs < ms
    ensures EarlierThan(msgs, ms) == msgs
  {
    if msgs != [] {
      AllEarlier(msgs[1..], ms);
    }
  }

  lemma {:induction false} NoneEarlier(msgs: seq<Stored>, ms: nat)
    requires forall i :: 0 <= i < |msgs| ==> msgs[i].timeMs >= ms
    ensures EarlierThan(msgs, ms) == []
  {
    if msgs != [] {
      NoneEarlier(msgs[1..], ms);
    }
  }

  lemma {:induction false} EarlierConcat(a: seq<Stored>, b: seq<Stored>, ms: nat)
    ensures EarlierThan(a + b, ms) == EarlierThan(a, ms) + EarlierThan(b, ms)
    decreases |a|
  {
    if a == [] {
      assert a + b == b;
    } else {
      assert (a + b)[1..] == a[1..] + b;
      EarlierConcat(a[1..], b, ms);
      var head := if a[0].timeMs < ms then [a[0]] else [];
      assert head + (EarlierThan(a[1..], ms) + EarlierThan(b, ms)) == head + EarlierThan(a[1..], ms) + EarlierThan(b, ms);
    }
  }

  lemma {:induction false} AllLater(msgs: seq<Stored>, ms: nat)
    requires forall i :: 0 <= i < |msgs| ==> msgs[i].timeMs > ms
    ensures LaterThan(msgs, ms) == msgs
  {
    if msgs != [] {
      AllLater(msgs[1..], ms);
    }
  }

  lemma {:induction false} NoneLater(msgs: seq<Stored>, ms: nat)
    requires forall i :: 0 <= i < |msgs| ==> msgs[i].timeMs <= ms
    ensures LaterThan(msgs, ms) == []
  {
    if msgs != [] {
      NoneLater(msgs[1..], ms);
    }
  }

  lemma {:induction false} LaterConcat(a: seq<Stored>, b: seq<Stored>, ms: nat)
    ensures LaterThan(a + b, ms) == LaterThan(a, ms) + LaterThan(b, ms)
    decreases |a|
  {
    if a == [] {
      assert a + b == b;
    } else {
      assert (a + b)[1..] == a[1..] + b;
      LaterConcat(a[1..], b, ms);
      var head := if a[0].timeMs > ms then [a[0]] else [];
      assert head + (LaterThan(a[1..], ms) + LaterThan(b, ms)) == head + LaterThan(a[1..], ms) + LaterThan(b, ms);
    }
  }

  /** Before an instant that parts the ring at `n`: the newest of the first `n`. */
  lemma BeforeInstant(msgs: seq<Stored>, n: nat, ms: nat, limit: nat)
    requires n <= |msgs| && (forall i :: 0 <= i < n ==> msgs[i].timeMs < ms)
    requires forall i :: n <= i < |msgs| ==> msgs[i].timeMs >= ms
    ensures Before(msgs, Timestamp(ms), limit) == msgs[if n > limit then n - limit else 0..n]
  {
    hide EarlierThan;
    assert msgs == msgs[..n] + msgs[n..];
    EarlierConcat(msgs[..n], msgs[n..], ms);
    AllEarlier(msgs[..n], ms);
    NoneEarlier(msgs[n..], ms);
    assert EarlierThan(msgs, ms) == msgs[..n];
  }

  /** After an instant that parts the ring at `n`: the oldest of the rest. */
  lemma AfterInstant(msgs: seq<Stored>, n: nat, ms: nat, limit: nat)
    requires n <= |msgs| && (forall i :: 0 <= i < n ==> msgs[i].timeMs <= ms)
    requires forall i :: n <= i < |msgs| ==> msgs[i].timeMs > ms
    ensures After(msgs, Timestamp(ms), limit) == msgs[n..if n + limit < |msgs| then n + limit else |msgs|]
  {
    hide LaterThan;
    assert msgs == msgs[..n] + msgs[n..];
    LaterConcat(msgs[..n], msgs[n..], ms);
    NoneLater(msgs[..n], ms);
    AllLater(msgs[n..], ms);
    assert LaterThan(msgs, ms) == msgs[n..];
  }

  // ------------------------------------------------------------- between two instants

  predicate Sorted(msgs: seq<Stored>) {
    forall i, j :: 0 <= i < j < |msgs| ==> msgs[i].timeMs <= msgs[j].timeMs
  }

  /** The messages strictly inside a span of time. */
  function Inside(msgs: seq<Stored>, a: nat, b: nat): seq<Stored> {
    if msgs == [] then []
    else (if a < msgs[0].timeMs < b then [msgs[0]] else []) + Inside(msgs[1..], a, b)
  }

  /** In a sorted ring those are consecutive. */
  lemma {:induction false} InsideIsSlice(msgs: seq<Stored>, a: nat, b: nat)
    requires Sorted(msgs) && a < b
    ensures FirstAt(msgs, a + 1) <= FirstAt(msgs, b)
    ensures Inside(msgs, a, b) == msgs[FirstAt(msgs, a + 1)..FirstAt(msgs, b)]
    decreases |msgs|
  {
    hide FirstAt, Inside;
    FirstOrder(msgs, a, b);
    InsideStep(msgs, a, b);
    if msgs != [] {
      var rest := msgs[1..];
      RestIsSorted(msgs);
      hide Sorted;
      InsideIsSlice(rest, a, b);
      FirstStep(msgs, a + 1);
      FirstStep(msgs, b);
      SliceOfRest(msgs, FirstAt(rest, a + 1), FirstAt(rest, b));
    }
  }

  lemma RestIsSorted(msgs: seq<Stored>)
    requires Sorted(msgs) && msgs != []
    ensures Sorted(msgs[1..])
  {
  }

  lemma InsideStep(msgs: seq<Stored>, a: nat, b: nat)
    ensures Inside(msgs, a, b) == if msgs == [] then []
                                  else if a < msgs[0].timeMs < b then [msgs[0]] + Inside(msgs[1..], a, b)
                                  else Inside(msgs[1..], a, b)
  {
  }

  lemma SliceOfRest(msgs: seq<Stored>, x: nat, y: nat)
    requires msgs != [] && x <= y < |msgs|
    ensures msgs[1 + x..1 + y] == msgs[1..][x..y]
    ensures msgs[..1 + y] == [msgs[0]] + msgs[1..][..y]
  {
  }

  lemma FirstStep(msgs: seq<Stored>, ms: nat)
    requires msgs != [] && Sorted(msgs)
    ensures FirstAt(msgs, ms) == if msgs[0].timeMs >= ms then 0 else 1 + FirstAt(msgs[1..], ms)
    ensures msgs[0].timeMs >= ms ==> FirstAt(msgs[1..], ms) == 0
  {
    assert |msgs| > 1 ==> msgs[1..][0] == msgs[1];
  }

  /**
   * Asking by time between `a` and `b` gives the messages strictly inside exactly when
   * one message and no more carries the time `a`, or none is inside anyway: the message
   * at the lower end is dropped whether or not its time is `a`.
   */
  predicate LowerEndIsOneMessage(msgs: seq<Stored>, a: nat, b: nat) {
    var first, inside, end := FirstAt(msgs, a), FirstAt(msgs, a + 1), FirstAt(msgs, b);
    inside == first + 1 || (first + 1 >= end && inside >= end)
  }

  lemma BetweenIsSlice(msgs: seq<Stored>, a: nat, b: nat, limit: nat)
    requires a < b
    ensures var first, end := FirstAt(msgs, a), FirstAt(msgs, b);
            Between(msgs, Timestamp(a), Timestamp(b), limit)
            == TakeFirst(if first + 1 >= end then [] else msgs[first + 1..end], limit)
  {
    hide FirstAt, TakeFirst;
    FirstOrder(msgs, a, b);
    NothingTaken(limit);
  }

  lemma NothingTaken(limit: nat)
    ensures TakeFirst([], limit) == []
  {
  }

  /** Two slices with the same end, cut to the same limit. */
  lemma SlicesAgree(msgs: seq<Stored>, x: nat, y: nat, end: nat, limit: nat)
    requires DistinctIds(msgs) && x <= end <= |msgs| && y <= end && limit >= 1
    ensures TakeFirst(msgs[x..end], limit) == TakeFirst(msgs[y..end], limit) <==> x == y
  {
    hide TakeFirst;
    HeadTaken(msgs[x..end], limit);
    HeadTaken(msgs[y..end], limit);
    if x < end && y < end {
      assert msgs[x..end][0] == msgs[x] && msgs[y..end][0] == msgs[y];
    }
  }

  lemma HeadTaken(s: seq<Stored>, limit: nat)
    requires limit >= 1
    ensures s == [] <==> TakeFirst(s, limit) == []
    ensures s != [] ==> TakeFirst(s, limit)[0] == s[0]
  {
  }

  /** For every limit a caller may give, on a ring sorted by time whose ids are distinct. */
  lemma BetweenInstants(msgs: seq<Stored>, a: nat, b: nat, limit: nat)
    requires Sorted(msgs) && DistinctIds(msgs) && a < b
    ensures Between(msgs, Timestamp(a), Timestamp(b), limit) == TakeFirst(Inside(msgs, a, b), limit)
       <==> limit == 0 || LowerEndIsOneMessage(msgs, a, b)
  {
    hide Inside, Sorted, FirstAt, Between, DistinctIds;
    InsideIsSlice(msgs, a, b);
    FirstOrder(msgs, a, b);
    BetweenIsSlice(msgs, a, b, limit);
    var first, inside, end := FirstAt(msgs, a), FirstAt(msgs, a + 1), FirstAt(msgs, b);
    if limit > 0 {
      var start := if first + 1 >= end then end else first + 1;
      assert start == end ==> msgs[start..end] == [];
      SlicesAgree(msgs, start, inside, end, limit);
    }
  }

  /** Without a limit, also on a ring that repeats an id. */
  lemma BetweenInstantsUnlimited(msgs: seq<Stored>, a: nat, b: nat)
    requires Sorted(msgs) && a < b
    ensures Between(msgs, Timestamp(a), Timestamp(b), |msgs|) == Inside(msgs, a, b)
       <==> LowerEndIsOneMessage(msgs, a, b)
  {
    hide Inside, Sorted, FirstAt;
    InsideIsSlice(msgs, a, b);
    FirstOrder(msgs, a, b);
    var first, inside, end := FirstAt(msgs, a), FirstAt(msgs, a + 1), FirstAt(msgs, b);
    var start := Least(first + 1, |msgs|);
    var r := Between(msgs, Timestamp(a), Timestamp(b), |msgs|);
    assert r == if start >= end then [] else msgs[start..end];
    assert |r| == Most(end - start, 0) && |Inside(msgs, a, b)| == end - inside;
  }

  /** Messages at 5 and 6, asked for from 4 to 7: the first of the two is missing. */
  lemma BetweenDropsFirst(m: Stored, n: Stored, limit: nat)
    requires m.timeMs == 5 && n.timeMs == 6 && limit >= 1
    ensures Inside([m, n], 4, 7) == [m, n]
    ensures Between([m, n], Timestamp(4), Timestamp(7), limit) == [n]
  {
    hide Inside;
    assert [m, n][1..] == [n] && [n][1..] == [];
    InsideStep([m, n], 4, 7);
    InsideStep([n], 4, 7);
    InsideStep([], 4, 7);
    assert FirstAt([m, n], 4) == 0 && FirstAt([n], 7) == 1 && FirstAt([m, n], 7) == 2;
    BetweenIsSlice([m, n], 4, 7, limit);
    assert [m, n][1..2] == [n];
  }

  lemma FirstOrder(msgs: seq<Stored>, a: nat, b: nat)
    requires a < b
    ensures FirstAt(msgs, a) <= FirstAt(msgs, a + 1) <= FirstAt(msgs, b)
  {
  }
}
