/** The action budget of plugins (ferrixd/src/plugin.rs). */
module Actions {

  const MAX_PER_CALL: nat := 4
  const MAX_PER_MINUTE: nat := 120
  const MINUTE: nat := 60000

  datatype Host = Host(start: nat, inWindow: nat, inCall: nat)

  /** A plugin loaded at this time: its first window starts then. */
  function Loaded(at: nat): Host {
    Host(at, 0, 0)
  }

  /** A hook call begins, or the plugin asks for an action. */
  datatype Event = Call | Action(now: nat)

  function TakeSlot(h: Host, now: nat): (Host, bool) {
    if h.inCall >= MAX_PER_CALL then (h, false)
    else
      var w := if now >= h.start && now - h.start >= MINUTE then h.(start := now, inWindow := 0) else h;
      if w.inWindow >= MAX_PER_MINUTE then (w, false)
      else (w.(inWindow := w.inWindow + 1, inCall := w.inCall + 1), true)
  }

  class HostState {
    var windowStartMs: nat
    var windowActions: nat
    var actions: seq<nat>

    ghost function View(): Host
      reads this
    {
      Host(windowStartMs, windowActions, |actions|)
    }

    constructor (now: nat)
      ensures View() == Loaded(now)
    {
      windowStartMs, windowActions, actions := now, 0, [];
    }

    method BeginCall()
      modifies this`actions
      ensures View() == old(View()).(inCall := 0)
    {
      actions := [];
    }

    method TakeActionSlot(now: nat) returns (ok: bool)
      modifies this`windowStartMs, this`windowActions
      ensures (View().(inCall := if ok then |actions| + 1 else |actions|), ok) == TakeSlot(old(View()), now)
    {
      if |actions| >= MAX_PER_CALL {
        return false;
      }
      if (if now >= windowStartMs then now - windowStartMs else 0) >= MINUTE {
        windowStartMs := now;
        windowActions := 0;
      }
      if windowActions >= MAX_PER_MINUTE {
        return false;
      }
      windowActions := windowActions + 1;
      return true;
    }

    /** A host function that acts: the slot first, then the action is queued. */
    method Act(now: nat, action: nat) returns (ok: bool)
      modifies this
      ensures (View(), ok) == TakeSlot(old(View()), now)
      ensures actions == if ok then old(actions) + [action] else old(actions)
    {
      ok := TakeActionSlot(now);
      if ok {
        actions := actions + [action];
      }
    }
  }

  function Next(h: Host, e: Event): Host {
    match e
    case Call => h.(inCall := 0)
    case Action(now) => TakeSlot(h, now).0
  }

  predicate Granted(h: Host, e: Event) {
    e.Action? && TakeSlot(h, e.now).1
  }

  function After(h: Host, events: seq<Event>): Host
    decreases |events|
  {
    if events == [] then h else After(Next(h, events[0]), events[1..])
  }

  /** How many actions are granted. */
  function Grants(h: Host, events: seq<Event>): nat
    decreases |events|
  {
    if events == [] then 0
    else (if Granted(h, events[0]) then 1 else 0) + Grants(Next(h, events[0]), events[1..])
  }

  predicate Valid(h: Host) {
    h.inWindow <= MAX_PER_MINUTE && h.inCall <= MAX_PER_CALL
  }

  lemma {:induction false} AfterIsValid(h: Host, events: seq<Event>)
    requires Valid(h)
    ensures Valid(After(h, events))
    decreases |events|
  {
    if events != [] {
      AfterIsValid(Next(h, events[0]), events[1..]);
    }
  }

  /** Every action asked for lies in `[from, to]`. */
  predicate During(events: seq<Event>, from: nat, to: nat) {
    forall i :: 0 <= i < |events| && events[i].Action? ==> from <= events[i].now <= to
  }

  /** One hook call. */
  lemma {:induction false} GrantsPerCall(h: Host, events: seq<Event>)
    requires Valid(h) && forall i :: 0 <= i < |events| ==> events[i].Action?
    ensures Grants(h, events) <= 4 - h.inCall
    decreases |events|
  {
    if events != [] {
      GrantsPerCall(Next(h, events[0]), events[1..]);
    }
  }

  /** One window: until a minute after its start. */
  lemma {:induction false} GrantsPerWindow(h: Host, events: seq<Event>, to: nat)
    requires Valid(h) && During(events, 0, to) && to < h.start + MINUTE
    ensures Grants(h, events) <= MAX_PER_MINUTE - h.inWindow
    decreases |events|
  {
    if events != [] {
      GrantsPerWindow(Next(h, events[0]), events[1..], to);
    }
  }

  /** A minute that begins inside the current window. */
  lemma {:induction false} GrantsAcrossWindows(h: Host, events: seq<Event>, a: nat)
    requires Valid(h) && During(events, a, a + MINUTE) && h.start <= a < h.start + MINUTE
    ensures Grants(h, events) <= 2 * MAX_PER_MINUTE - h.inWindow
    decreases |events|
  {
    if events != [] {
      var h' := Next(h, events[0]);
      if h'.start == h.start {
        GrantsAcrossWindows(h', events[1..], a);
      } else {
        assert a < events[0].now;
        GrantsPerWindow(h', events[1..], a + MINUTE);
      }
    }
  }

  lemma {:induction false} GrantsInMinute(h: Host, events: seq<Event>, a: nat)
    requires Valid(h) && During(events, a, a + MINUTE) && h.start <= a
    ensures Grants(h, events) <= 2 * MAX_PER_MINUTE
    decreases |events|
  {
    if a < h.start + MINUTE {
      GrantsAcrossWindows(h, events, a);
    } else if events != [] {
      var h' := Next(h, events[0]);
      if h'.start == h.start {
        GrantsInMinute(h', events[1..], a);
      } else if h'.start == a {
        GrantsAcrossWindows(h', events[1..], a);
      } else {
        GrantsPerWindow(h', events[1..], a + MINUTE);
      }
    }
  }

  lemma {:induction false} StartIsPast(h: Host, events: seq<Event>, a: nat)
    requires h.start <= a && During(events, 0, a)
    ensures After(h, events).start <= a
    decreases |events|
  {
    if events != [] {
      StartIsPast(Next(h, events[0]), events[1..], a);
    }
  }

  /** Loaded at any time, after any history up to `a`: at most 240 actions in the minute from `a` on. */
  lemma AtMost240(loaded: nat, history: seq<Event>, events: seq<Event>, a: nat)
    requires loaded <= a && During(history, 0, a) && During(events, a, a + MINUTE)
    ensures Grants(After(Loaded(loaded), history), events) <= 240
  {
    AfterIsValid(Loaded(loaded), history);
    StartIsPast(Loaded(loaded), history, a);
    GrantsInMinute(After(Loaded(loaded), history), events, a);
  }

  // ------------------------------------------------------ the window does not slide

  /** One hook call that acts as often as it may. */
  function Round(now: nat): seq<Event> {
    [Call, Action(now), Action(now), Action(now), Action(now)]
  }

  function Rounds(n: nat, now: nat): seq<Event> {
    if n == 0 then [] else Round(now) + Rounds(n - 1, now)
  }

  lemma {:induction false} Append(h: Host, a: seq<Event>, b: seq<Event>)
    ensures Grants(h, a + b) == Grants(h, a) + Grants(After(h, a), b)
    ensures After(h, a + b) == After(After(h, a), b)
    decreases |a|
  {
    if a == [] {
      assert a + b == b;
    } else {
      assert (a + b)[1..] == a[1..] + b;
      Append(Next(h, a[0]), a[1..], b);
    }
  }

  /** The window an action at `now` falls into. */
  function WindowAt(h: Host, now: nat): Host {
    if now >= h.start && now - h.start >= MINUTE then h.(start := now, inWindow := 0) else h
  }

  lemma RoundGrants(h: Host, now: nat)
    requires WindowAt(h, now).inWindow + 4 <= MAX_PER_MINUTE
    ensures Grants(h, Round(now)) == 4
    ensures After(h, Round(now)) == Host(WindowAt(h, now).start, WindowAt(h, now).inWindow + 4, 4)
  {
    var w := WindowAt(h, now);
    var a := Action(now);
    assert Round(now)[1..] == [a, a, a, a] && [a, a, a, a][1..] == [a, a, a];
    assert [a, a, a][1..] == [a, a] && [a, a][1..] == [a] && [a][1..] == [];
    var h1 := Host(w.start, w.inWindow + 1, 1);
    var h2 := Host(w.start, w.inWindow + 2, 2);
    var h3 := Host(w.start, w.inWindow + 3, 3);
    assert Next(h.(inCall := 0), a) == h1 && Next(h1, a) == h2 && Next(h2, a) == h3;
    assert Grants(h3, [a]) == 1 && After(h3, [a]) == Host(w.start, w.inWindow + 4, 4);
    assert Grants(h2, [a, a]) == 2 && After(h2, [a, a]) == After(h3, [a]);
    assert Grants(h1, [a, a, a]) == 3 && After(h1, [a, a, a]) == After(h3, [a]);
  }

  lemma {:induction false} RoundsGrant(h: Host, n: nat, now: nat)
    requires WindowAt(h, now).inWindow + 4 * n <= MAX_PER_MINUTE && now >= h.start
    ensures Grants(h, Rounds(n, now)) == 4 * n
    ensures n > 0 ==> After(h, Rounds(n, now)) == Host(WindowAt(h, now).start, WindowAt(h, now).inWindow + 4 * n, 4)
    decreases n
  {
    hide Round;
    if n > 0 {
      var h' := Host(WindowAt(h, now).start, WindowAt(h, now).inWindow + 4, 4);
      RoundGrants(h, now);
      Append(h, Round(now), Rounds(n - 1, now));
      RoundsGrant(h', n - 1, now);
      if n == 1 {
        assert Rounds(0, now) == [];
      }
    }
  }

  /** Whenever the plugin was loaded, 240 actions can pass within a millisecond, around the end of its first window. */
  lemma DoubleBurst(t: nat)
    ensures Grants(Loaded(t), Rounds(30, t + 59999) + Rounds(30, t + 60000)) == 240
  {
    hide Rounds, Grants, After;
    RoundsGrant(Loaded(t), 30, t + 59999);
    Append(Loaded(t), Rounds(30, t + 59999), Rounds(30, t + 60000));
    RoundsGrant(Host(t, 120, 4), 30, t + 60000);
  }

  // --------------------------------------------------------- which spans keep to 120

  /**
   * Actions between `a` and `b` fall into one window that can still grant any: the
   * current one, or the next, either because the current one is over by `a` or because
   * it is used up.
   */
  predicate OneWindow(h: Host, a: nat, b: nat) {
    || b < h.start + MINUTE
    || (h.start + MINUTE <= a && b < a + MINUTE)
    || (h.inWindow == MAX_PER_MINUTE && a < h.start + MINUTE && b < h.start + 2 * MINUTE)
  }

  /** Nothing is granted before the next window, and that one lasts until `b`. */
  lemma {:induction false} GrantsInNextWindow(h: Host, events: seq<Event>, a: nat, b: nat)
    requires Valid(h) && During(events, a, b) && OneWindow(h, a, b) && h.start + MINUTE <= b
    ensures Grants(h, events) <= MAX_PER_MINUTE
    decreases |events|
  {
    if events != [] {
      var h' := Next(h, events[0]);
      if h'.start == h.start {
        GrantsInNextWindow(h', events[1..], a, b);
      } else {
        GrantsPerWindow(h', events[1..], b);
      }
    }
  }

  /** Time does not run backwards. */
  predicate Forward(events: seq<Event>) {
    forall i, j :: 0 <= i < j < |events| && events[i].Action? && events[j].Action? ==> events[i].now <= events[j].now
  }

  lemma {:induction false} RoundsAt(n: nat, now: nat)
    ensures forall i :: 0 <= i < |Rounds(n, now)| && Rounds(n, now)[i].Action? ==> Rounds(n, now)[i].now == now
  {
    if n > 0 {
      RoundsAt(n - 1, now);
    }
  }

  /** Two bursts, each in a window of its own. */
  lemma TwoBursts(h: Host, a: nat, b: nat, x: nat) returns (events: seq<Event>)
    requires h.start + MINUTE <= x && a <= x && x + MINUTE <= b
    ensures During(events, a, b) && Forward(events) && Grants(h, events) == 2 * MAX_PER_MINUTE
  {
    hide Rounds, Grants, After;
    events := Rounds(30, x) + Rounds(30, b);
    RoundsAt(30, x);
    RoundsAt(30, b);
    Append(h, Rounds(30, x), Rounds(30, b));
    RoundsGrant(h, 30, x);
    RoundsGrant(Host(x, 120, 4), 30, b);
  }

  /** One action in what is left of the window, and a burst in the next. */
  lemma OneAndBurst(h: Host, a: nat, b: nat) returns (events: seq<Event>)
    requires h.inWindow < MAX_PER_MINUTE && h.start <= a < h.start + MINUTE <= b
    ensures During(events, a, b) && Forward(events) && Grants(h, events) == MAX_PER_MINUTE + 1
  {
    hide Rounds;
    var first := [Call, Action(a)];
    var called, h' := h.(inCall := 0), Host(h.start, h.inWindow + 1, 1);
    var act := [Action(a)];
    assert first[1..] == act && act[1..] == [];
    assert Next(h, first[0]) == called && Next(called, act[0]) == h' && Granted(called, act[0]);
    assert Grants(h', []) == 0 && After(h', []) == h';
    assert Grants(called, act) == 1 && After(called, act) == h';
    assert Grants(h, first) == 1 && After(h, first) == h';
    hide Grants, After;
    events := first + Rounds(30, b);
    RoundsAt(30, b);
    Append(h, first, Rounds(30, b));
    RoundsGrant(h', 30, b);
  }

  /** A span of any other shape can be filled with more than 120 actions, the clock running forward. */
  lemma OverBudget(h: Host, a: nat, b: nat) returns (events: seq<Event>)
    requires Valid(h) && h.start <= a <= b && !OneWindow(h, a, b)
    ensures During(events, a, b) && Forward(events) && Grants(h, events) > MAX_PER_MINUTE
  {
    hide Grants;
    if h.start + MINUTE <= a {
      events := TwoBursts(h, a, b, a);
    } else if h.inWindow < MAX_PER_MINUTE {
      events := OneAndBurst(h, a, b);
    } else {
      events := TwoBursts(h, a, b, h.start + MINUTE);
    }
  }

  /** The actions of a span never exceed the rate of a minute exactly when the span meets one window. */
  lemma AtMost120Iff(h: Host, a: nat, b: nat)
    requires Valid(h) && h.start <= a <= b
    ensures (forall events :: During(events, a, b) ==> Grants(h, events) <= MAX_PER_MINUTE) <==> OneWindow(h, a, b)
    ensures (forall events :: During(events, a, b) && Forward(events) ==> Grants(h, events) <= MAX_PER_MINUTE)
       <==> OneWindow(h, a, b)
  {
    hide Grants, Forward;
    if OneWindow(h, a, b) {
      forall events | During(events, a, b)
        ensures Grants(h, events) <= MAX_PER_MINUTE
      {
        if b < h.start + MINUTE {
          GrantsPerWindow(h, events, b);
        } else {
          GrantsInNextWindow(h, events, a, b);
        }
      }
    } else {
      var events := OverBudget(h, a, b);
    }
  }
}
