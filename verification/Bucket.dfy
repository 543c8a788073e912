/** The inbound token bucket (ferrixd/src/connection.rs), over ideal reals. */
module Bucket {

  datatype Limits = Limits(burst: nat, rate: nat)

  /** Tokens per second: never less than one. */
  function Rate(l: Limits): (r: real)
    ensures r >= 1.0
  {
    if l.rate < 1 then 1.0 else l.rate as real
  }

  /** The tokens that come in during a time `t`. */
  function Refill(l: Limits, t: real): real {
    t * Rate(l)
  }

  lemma RefillAdds(l: Limits, s: real, t: real)
    ensures Refill(l, s + t) == Refill(l, s) + Refill(l, t)
  {
    assert (s + t) * Rate(l) == s * Rate(l) + t * Rate(l);
  }

  lemma RefillGrows(l: Limits, t: real)
    requires t >= 0.0
    ensures Refill(l, t) >= t
  {
    var extra := Rate(l) - 1.0;
    assert t * extra >= 0.0;
    assert t * Rate(l) == t + t * extra;
  }

  lemma NoTimeNoRefill(l: Limits)
    ensures Refill(l, 0.0) == 0.0
  {
  }

  datatype State = State(tokens: real, last: real)

  function New(l: Limits, now: real): State {
    State(l.burst as real, now)
  }

  /** The tokens on hand at `now`; an earlier `now` counts as no time at all. */
  function Refilled(l: Limits, s: State, now: real): real {
    var elapsed := if now > s.last then now - s.last else 0.0;
    var tokens := s.tokens + Refill(l, elapsed);
    if tokens < l.burst as real then tokens else l.burst as real
  }

  function Consume(l: Limits, s: State, now: real): (State, bool) {
    var tokens := Refilled(l, s, now);
    if tokens >= 1.0 then (State(tokens - 1.0, now), true) else (State(tokens, now), false)
  }

  class TokenBucket {
    var tokens: real
    var last: real
    const burst: real
    const rate: real

    ghost predicate For(l: Limits)
      reads this
    {
      burst == l.burst as real && rate == Rate(l)
    }

    ghost function View(): State
      reads this
    {
      State(tokens, last)
    }

    constructor (l: Limits, now: real)
      ensures For(l) && View() == New(l, now)
    {
      tokens, burst := l.burst as real, l.burst as real;
      rate := if l.rate < 1 then 1.0 else l.rate as real;
      last := now;
    }

    method TryConsume(now: real, ghost l: Limits) returns (ok: bool)
      requires For(l)
      modifies this`tokens, this`last
      ensures For(l) && (View(), ok) == Consume(l, old(View()), now)
    {
      var elapsed := if now > last then now - last else 0.0;
      last := now;
      tokens := tokens + elapsed * rate;
      if tokens > burst {
        tokens := burst;
      }
      if tokens >= 1.0 {
        tokens := tokens - 1.0;
        ok := true;
      } else {
        ok := false;
      }
    }
  }

  // --------------------------------------------------------------------------- runs

  /** The clock readings of a run: the bucket's creation, then each attempt. */
  datatype Run = Run(limits: Limits, start: real, times: seq<real>)

  predicate Forward(r: Run) {
    && (forall i :: 0 <= i < |r.times| ==> r.start <= r.times[i])
    && (forall i, j :: 0 <= i < j < |r.times| ==> r.times[i] <= r.times[j])
  }

  /** The bucket before attempt `n`. */
  function Before(r: Run, n: nat): State
    requires n <= |r.times|
  {
    if n == 0 then New(r.limits, r.start) else Consume(r.limits, Before(r, n - 1), r.times[n - 1]).0
  }

  predicate Accepted(r: Run, k: nat)
    requires k < |r.times|
  {
    Consume(r.limits, Before(r, k), r.times[k]).1
  }

  /** How many of the attempts `i`, ..., `j - 1` were accepted. */
  function Count(r: Run, i: nat, j: nat): nat
    requires i <= j <= |r.times|
  {
    if i == j then 0 else Count(r, i, j - 1) + if Accepted(r, j - 1) then 1 else 0
  }

  /** The tokens on hand at attempt `k`. */
  function OnHand(r: Run, k: nat): real
    requires k < |r.times|
  {
    Refilled(r.limits, Before(r, k), r.times[k])
  }

  /** What a span starting with a full bucket at attempt `i` leaves at attempt `j`. */
  function Left(r: Run, i: nat, j: nat): real
    requires i <= j < |r.times|
  {
    r.limits.burst as real - Count(r, i, j) as real + Refill(r.limits, r.times[j] - r.times[i])
  }

  lemma {:induction false} TokensInRange(r: Run, n: nat)
    requires Forward(r) && n <= |r.times|
    ensures 0.0 <= Before(r, n).tokens <= r.limits.burst as real
    ensures Before(r, n).last == if n == 0 then r.start else r.times[n - 1]
  {
    hide Refill;
    if n > 0 {
      TokensInRange(r, n - 1);
      var s := Before(r, n - 1);
      assert r.times[n - 1] >= s.last;
      RefillGrows(r.limits, r.times[n - 1] - s.last);
    }
  }

  /** The bucket between two attempts: what was left, and the refill, up to the burst. */
  lemma OnHandStep(r: Run, j: nat)
    requires Forward(r) && 0 < j < |r.times|
    ensures var before := OnHand(r, j - 1) - (if Accepted(r, j - 1) then 1.0 else 0.0);
            var full := before + Refill(r.limits, r.times[j] - r.times[j - 1]);
            OnHand(r, j) == if full < r.limits.burst as real then full else r.limits.burst as real
  {
    hide Refill;
    TokensInRange(r, j);
    TokensInRange(r, j - 1);
  }

  lemma LeftStep(r: Run, i: nat, j: nat)
    requires i < j < |r.times|
    ensures Left(r, i, j) == Left(r, i, j - 1) - (if Accepted(r, j - 1) then 1.0 else 0.0)
                             + Refill(r.limits, r.times[j] - r.times[j - 1])
  {
    hide Refill;
    var a, b, c := r.times[i], r.times[j - 1], r.times[j];
    assert (b - a) + (c - b) == c - a;
    RefillAdds(r.limits, b - a, c - b);
  }

  /** No span leaves less than what is on hand. */
  lemma {:induction false} OnHandAtMost(r: Run, i: nat, j: nat)
    requires Forward(r) && i <= j < |r.times|
    ensures OnHand(r, j) <= Left(r, i, j)
    decreases j - i
  {
    hide OnHand, Left, Accepted, Refill;
    if i == j {
      FreshSpan(r, i);
    } else {
      OnHandAtMost(r, i, j - 1);
      OnHandStep(r, j);
      LeftStep(r, i, j);
    }
  }

  lemma FreshSpan(r: Run, i: nat)
    requires i < |r.times|
    ensures OnHand(r, i) <= Left(r, i, i) == r.limits.burst as real
  {
    hide Refill;
    NoTimeNoRefill(r.limits);
  }

  /** Some span leaves exactly that: the one since the bucket was last full. */
  lemma {:induction false} OnHandAttained(r: Run, j: nat) returns (i: nat)
    requires Forward(r) && j < |r.times|
    ensures i <= j && OnHand(r, j) == Left(r, i, j)
  {
    hide OnHand, Left, Accepted, Refill;
    if j == 0 {
      i := 0;
      FullAtFirst(r);
    } else {
      OnHandStep(r, j);
      i := OnHandAttained(r, j - 1);
      LeftStep(r, i, j);
      if OnHand(r, j) != Left(r, i, j) {
        i := j;
        FreshSpan(r, j);
      }
    }
  }

  lemma FullAtFirst(r: Run)
    requires Forward(r) && |r.times| > 0
    ensures OnHand(r, 0) == Left(r, 0, 0)
  {
    hide Refill;
    NoTimeNoRefill(r.limits);
    RefillGrows(r.limits, r.times[0] - r.start);
  }

  lemma OnHandNonNegative(r: Run, j: nat)
    requires Forward(r) && j < |r.times|
    ensures OnHand(r, j) >= 0.0
  {
    hide Refill;
    TokensInRange(r, j);
    RefillGrows(r.limits, r.times[j] - Before(r, j).last);
  }

  /** At most `burst` and the refill in any span of attempts, both ends counted. */
  lemma AcceptedInSpan(r: Run, i: nat, j: nat)
    requires Forward(r) && i <= j < |r.times|
    ensures Count(r, i, j + 1) as real <= r.limits.burst as real + Refill(r.limits, r.times[j] - r.times[i])
  {
    hide Before, Refill;
    OnHandAtMost(r, i, j);
    TokensInRange(r, j);
    OnHandNonNegative(r, j);
    RefillGrows(r.limits, r.times[j] - r.times[i]);
  }

  /** Whether one more command now would keep within the bound on every span. */
  ghost predicate Affordable(r: Run, j: nat)
    requires j < |r.times|
  {
    forall i :: 0 <= i <= j ==>
                  (Count(r, i, j) + 1) as real <= r.limits.burst as real + Refill(r.limits, r.times[j] - r.times[i])
  }

  /** A command is accepted exactly when the bound allows it: the bucket is never stricter than it. */
  lemma AcceptedIffAffordable(r: Run, j: nat)
    requires Forward(r) && j < |r.times|
    ensures Accepted(r, j) <==> Affordable(r, j)
  {
    hide Before, Count, Refill, Left;
    forall i | 0 <= i <= j
      ensures OnHand(r, j) <= Left(r, i, j)
      ensures Left(r, i, j) >= 1.0 <==>
              (Count(r, i, j) + 1) as real <= r.limits.burst as real + Refill(r.limits, r.times[j] - r.times[i])
    {
      OnHandAtMost(r, i, j);
      LeftMeans(r, i, j);
    }
    var i := OnHandAttained(r, j);
    assert Affordable(r, j) ==> Left(r, i, j) >= 1.0;
  }

  lemma LeftMeans(r: Run, i: nat, j: nat)
    requires i <= j < |r.times|
    ensures Left(r, i, j) >= 1.0 <==>
            (Count(r, i, j) + 1) as real <= r.limits.burst as real + Refill(r.limits, r.times[j] - r.times[i])
  {
    hide Refill, Count;
  }

  /** A client that keeps to the rate is never refused. */
  lemma SteadyIsAccepted(r: Run, k: nat)
    requires Forward(r) && k < |r.times| && r.limits.burst >= 1
    requires k > 0 ==> Refill(r.limits, r.times[k] - r.times[k - 1]) >= 1.0
    ensures Accepted(r, k)
  {
    hide Refill;
    TokensInRange(r, k);
    if k == 0 {
      RefillGrows(r.limits, r.times[0] - r.start);
    }
  }

  /** The rate is per second, and a configured rate of nothing counts as one. */
  lemma RefillIs(l: Limits, t: real)
    ensures Refill(l, t) == t * (if l.rate == 0 then 1.0 else l.rate as real)
  {
  }
}
