/** Glob masks (ferrixd/src/mask.rs).  Here a string is a sequence of characters. */
module Mask {
  import opened Octets

  function Lower(c: char): char {
    if 'A' <= c <= 'Z' then (c as int + 32) as char else c
  }

  /** ASCII case-insensitive equality. */
  predicate EqCi(a: char, b: char) {
    Lower(a) == Lower(b)
  }

  /** One pattern character takes one text character. */
  predicate Takes(p: char, t: char) {
    p == '?' || EqCi(p, t)
  }

  /** The meaning of a mask: `*` is any run, `?` any one character. */
  predicate Glob(p: string, t: string)
    decreases |p| + |t|
  {
    if p == [] then t == []
    else if p[0] == '*' then Glob(p[1..], t) || (t != [] && Glob(p, t[1..]))
    else t != [] && Takes(p[0], t[0]) && Glob(p[1..], t[1..])
  }

  // ---------------------------------------------------------- facts about the meaning

  /** Dropping a character that any pattern character takes, a star included. */
  lemma GlobTake(p: string, t: string)
    requires p != [] && t != [] && Takes(p[0], t[0]) && Glob(p[1..], t[1..])
    ensures Glob(p, t)
  {
    if p[0] == '*' {
      GlobStarMore(p, t[1..]);
    }
  }

  lemma GlobStarMore(p: string, t: string)
    requires p != [] && p[0] == '*' && Glob(p[1..], t)
    ensures Glob(p, t)
  {
  }

  /** Characters of `a` other than stars take the text one for one. */
  predicate TakesAll(a: string, t: string) {
    |a| == |t| && forall i :: 0 <= i < |a| ==> a[i] != '*' && Takes(a[i], t[i])
  }

  lemma {:induction false} GlobPlainPrefix(a: string, p: string, t: string)
    requires forall i :: 0 <= i < |a| ==> a[i] != '*'
    ensures Glob(a + p, t) ==> |a| <= |t| && Glob(p, t[|a|..])
    decreases |a|
  {
    if a == [] {
      assert a + p == p && t[0..] == t;
    } else if t != [] {
      assert (a + p)[1..] == a[1..] + p;
      GlobPlainPrefix(a[1..], p, t[1..]);
      assert |a| <= |t| ==> t[1..][|a| - 1..] == t[|a|..];
    }
  }

  lemma {:induction false} GlobTakesAll(a: string, u: string, p: string, t: string)
    requires TakesAll(a, u)
    ensures Glob(a + p, u + t) <==> Glob(p, t)
    decreases |a|
  {
    if a == [] {
      assert a + p == p && u + t == t;
    } else {
      assert (a + p)[1..] == a[1..] + p && (u + t)[1..] == u[1..] + t;
      GlobTakesAll(a[1..], u[1..], p, t);
    }
  }

  /**
   * Only the last star matters: after `*a`, with `a` free of stars and matching
   * the text in front, a further `*p` may forget everything before it.
   */
  lemma {:induction false} LastStar(a: string, u: string, p: string, t: string)
    requires TakesAll(a, u) && p != [] && p[0] == '*'
    ensures Glob(['*'] + a + p, u + t) <==> Glob(p, t)
  {
    if Glob(p, t) {
      GlobTakesAll(a, u, p, t);
      assert (['*'] + a + p)[1..] == a + p;
    }
    if Glob(['*'] + a + p, u + t) {
      LastStarForgets(a, p, u + t);
      assert (u + t)[|u|..] == t;
    }
  }

  lemma {:induction false} LastStarForgets(a: string, p: string, t: string)
    requires forall i :: 0 <= i < |a| ==> a[i] != '*'
    requires p != [] && p[0] == '*' && |a| <= |t|
    requires Glob(['*'] + a + p, t)
    ensures Glob(p, t[|a|..])
    decreases |t|
  {
    var q := ['*'] + a + p;
    assert q[1..] == a + p;
    if Glob(a + p, t) {
      GlobPlainPrefix(a, p, t);
    } else if |a| < |t| {
      LastStarForgets(a, p, t[1..]);
      assert t[1..][|a|..] == t[|a|..][1..];
    } else {
      TooShort(a, p, t[1..]);
    }
  }

  lemma {:induction false} TooShort(a: string, p: string, t: string)
    requires forall i :: 0 <= i < |a| ==> a[i] != '*'
    requires |t| < |a|
    ensures !Glob(['*'] + a + p, t)
    decreases |t|
  {
    assert (['*'] + a + p)[1..] == a + p;
    GlobPlainPrefix(a, p, t);
    if t != [] {
      TooShort(a, p, t[1..]);
    }
  }

  // -------------------------------------------------------------------- the matcher

  /** The matcher's variables between two iterations. */
  datatype Cursor = Cursor(pi: nat, ti: nat, star: Option<nat>, starTi: nat)

  predicate InRange(p: string, t: string, c: Cursor) {
    && c.pi <= |p| && c.starTi <= c.ti <= |t|
    && (c.star.Some? ==> c.star.value < c.pi && p[c.star.value] == '*')
  }

  /** The rest of the run from a cursor, ending in the trailing-star loop. */
  predicate Run(p: string, t: string, c: Cursor)
    requires InRange(p, t, c)
    decreases |t| - c.starTi, |p| - c.pi
  {
    if c.ti == |t| then (forall i :: c.pi <= i < |p| ==> p[i] == '*')
    else if c.pi < |p| && Takes(p[c.pi], t[c.ti]) then Run(p, t, c.(pi := c.pi + 1, ti := c.ti + 1))
    else if c.pi < |p| && p[c.pi] == '*' then Run(p, t, Cursor(c.pi + 1, c.ti, Some(c.pi), c.ti))
    else if c.star.Some? then Run(p, t, Cursor(c.star.value + 1, c.starTi + 1, c.star, c.starTi + 1))
    else false
  }

  predicate Result(p: string, t: string) {
    Run(p, t, Cursor(0, 0, None, 0))
  }

  /** `matches`, with its number of iterations. */
  method Matches(p: string, t: string) returns (r: bool, ghost steps: nat)
    ensures r == Result(p, t)
    ensures steps <= (|p| + 1) * (|t| + 1)
  {
    hide Rounds;
    var pi: nat, ti: nat := 0, 0;
    var star: Option<nat>, starTi: nat := None, 0;
    steps := 0;
    while ti < |t|
      invariant InRange(p, t, Cursor(pi, ti, star, starTi))
      invariant Result(p, t) == Run(p, t, Cursor(pi, ti, star, starTi))
      invariant steps <= Rounds(starTi, |p|) + pi
      decreases |t| - starTi, |p| - pi
    {
      RoundsBound(starTi, |t|, pi, |p|);
      if pi < |p| && Takes(p[pi], t[ti]) {
        pi, ti := pi + 1, ti + 1;
      } else if pi < |p| && p[pi] == '*' {
        MoreRounds(starTi, ti, |p|);
        star, starTi := Some(pi), ti;
        pi := pi + 1;
      } else if star.Some? {
        pi := star.value + 1;
        MoreRounds(starTi, starTi + 1, |p|);
        starTi := starTi + 1;
        ti := starTi;
      } else {
        return false, steps;
      }
      steps := steps + 1;
    }
    RoundsBound(starTi, |t|, pi, |p|);
    ghost var at := pi;
    while pi < |p| && p[pi] == '*'
      invariant at <= pi <= |p|
      invariant forall i :: at <= i < pi ==> p[i] == '*'
    {
      pi := pi + 1;
    }
    r := pi == |p|;
  }

  /** Iterations allowed for `k` positions of the star, each with a walk over the pattern. */
  ghost function Rounds(k: nat, n: nat): nat {
    if k == 0 then 0 else Rounds(k - 1, n) + n + 1
  }

  lemma {:induction false} MoreRounds(a: nat, b: nat, n: nat)
    requires a <= b
    ensures Rounds(a, n) <= Rounds(b, n)
    ensures a < b ==> Rounds(a, n) + n + 1 <= Rounds(b, n)
  {
    if a < b {
      MoreRounds(a, b - 1, n);
    }
  }

  lemma {:induction false} RoundsProduct(k: nat, n: nat)
    ensures Rounds(k, n) == (n + 1) * k
  {
    if k > 0 {
      RoundsProduct(k - 1, n);
      assert (n + 1) * (k - 1) + (n + 1) == (n + 1) * k;
    }
  }

  lemma RoundsBound(k: nat, m: nat, i: nat, n: nat)
    requires k <= m && i <= n
    ensures Rounds(k, n) + i <= (n + 1) * (m + 1)
  {
    MoreRounds(k, m + 1, n);
    RoundsProduct(m + 1, n);
  }

  // ----------------------------------------------------------------- it is sound

  lemma {:induction false} AllStars(p: string)
    requires forall i :: 0 <= i < |p| ==> p[i] == '*'
    ensures Glob(p, [])
  {
    if p != [] {
      AllStars(p[1..]);
    }
  }

  /** What the matcher has established: finishing from here finishes the match. */
  predicate Sound(p: string, t: string, c: Cursor)
    requires InRange(p, t, c)
  {
    && (Glob(p[c.pi..], t[c.ti..]) ==> Glob(p, t))
    && (c.star.Some? && Glob(p[c.star.value..], t[c.starTi..]) ==> Glob(p, t))
  }

  lemma {:induction false} RunIsSound(p: string, t: string, c: Cursor)
    requires InRange(p, t, c) && Sound(p, t, c) && Run(p, t, c)
    ensures Glob(p, t)
    decreases |t| - c.starTi, |p| - c.pi
  {
    if c.ti == |t| {
      AllStars(p[c.pi..]);
      assert t[c.ti..] == [];
    } else if c.pi < |p| && Takes(p[c.pi], t[c.ti]) {
      var next := c.(pi := c.pi + 1, ti := c.ti + 1);
      assert p[c.pi..][1..] == p[next.pi..] && t[c.ti..][1..] == t[next.ti..];
      if Glob(p[next.pi..], t[next.ti..]) {
        GlobTake(p[c.pi..], t[c.ti..]);
      }
      RunIsSound(p, t, next);
    } else if c.pi < |p| && p[c.pi] == '*' {
      assert p[c.pi..][1..] == p[c.pi + 1..];
      RunIsSound(p, t, Cursor(c.pi + 1, c.ti, Some(c.pi), c.ti));
    } else {
      var next := Cursor(c.star.value + 1, c.starTi + 1, c.star, c.starTi + 1);
      var s := p[c.star.value..];
      assert s[1..] == p[next.pi..] && t[c.starTi..][1..] == t[next.ti..];
      assert Glob(s[1..], t[next.ti..]) ==> Glob(s, t[next.ti..]);
      assert Glob(s, t[next.ti..]) ==> Glob(s, t[c.starTi..]);
      RunIsSound(p, t, next);
    }
  }

  /** A reported match is a match. */
  lemma MatchIsGlob(p: string, t: string)
    requires Result(p, t)
    ensures Glob(p, t)
  {
    assert p[0..] == p && t[0..] == t;
    RunIsSound(p, t, Cursor(0, 0, None, 0));
  }

  // -------------------------------------------- it is complete on texts without stars

  /** Where the pattern and the text stood after the last star. */
  function Since(c: Cursor): (nat, nat) {
    if c.star.Some? then (c.star.value + 1, c.starTi) else (0, 0)
  }

  /** Since the last star, every pattern character took one text character. */
  predicate Aligned(p: string, t: string, c: Cursor)
    requires InRange(p, t, c)
  {
    var (i, j) := Since(c);
    && c.pi - i == c.ti - j
    && forall k :: i <= k < c.pi ==> p[k] != '*' && Takes(p[k], t[k - i + j])
  }

  lemma AlignedTakesAll(p: string, t: string, c: Cursor)
    requires InRange(p, t, c) && Aligned(p, t, c)
    ensures TakesAll(p[Since(c).0..c.pi], t[Since(c).1..c.ti])
  {
  }

  /** What is still open is what was asked. */
  predicate Open(p: string, t: string, c: Cursor)
    requires InRange(p, t, c)
  {
    Glob(p, t) ==> if c.star.None? then Glob(p[c.pi..], t[c.ti..]) else Glob(p[c.star.value..], t[c.starTi..])
  }

  lemma TakesStar(p: char, t: char)
    requires Takes(p, t) && t != '*'
    ensures p != '*'
  {
  }

  lemma OpenTake(p: string, t: string, c: Cursor)
    requires InRange(p, t, c) && Aligned(p, t, c) && Open(p, t, c) && '*' !in t
    requires c.pi < |p| && c.ti < |t| && Takes(p[c.pi], t[c.ti])
    ensures var next := c.(pi := c.pi + 1, ti := c.ti + 1);
            Aligned(p, t, next) && Open(p, t, next)
  {
    TakesStar(p[c.pi], t[c.ti]);
    assert p[c.pi..][1..] == p[c.pi + 1..] && t[c.ti..][1..] == t[c.ti + 1..];
  }

  lemma OpenStar(p: string, t: string, c: Cursor)
    requires InRange(p, t, c) && Aligned(p, t, c) && Open(p, t, c)
    requires c.pi < |p| && p[c.pi] == '*'
    ensures var next := Cursor(c.pi + 1, c.ti, Some(c.pi), c.ti);
            Aligned(p, t, next) && Open(p, t, next)
  {
    if c.star.Some? {
      var a, u := p[c.star.value + 1..c.pi], t[c.starTi..c.ti];
      AlignedTakesAll(p, t, c);
      assert p[c.star.value..] == ['*'] + a + p[c.pi..];
      assert t[c.starTi..] == u + t[c.ti..];
      LastStar(a, u, p[c.pi..], t[c.ti..]);
    }
  }

  /** The star cannot end where it ended: it must swallow one more. */
  lemma OpenBacktrack(p: string, t: string, c: Cursor)
    requires InRange(p, t, c) && Aligned(p, t, c) && Open(p, t, c)
    requires c.star.Some? && c.ti < |t|
    requires c.pi < |p| ==> p[c.pi] != '*' && !Takes(p[c.pi], t[c.ti])
    ensures var next := Cursor(c.star.value + 1, c.starTi + 1, c.star, c.starTi + 1);
            Aligned(p, t, next) && Open(p, t, next)
  {
    var a, u := p[c.star.value + 1..c.pi], t[c.starTi..c.ti];
    var s := p[c.star.value..];
    assert s[1..] == a + p[c.pi..];
    assert t[c.starTi..] == u + t[c.ti..];
    AlignedTakesAll(p, t, c);
    GlobTakesAll(a, u, p[c.pi..], t[c.ti..]);
    assert !Glob(s[1..], t[c.starTi..]);
    assert t[c.starTi..][1..] == t[c.starTi + 1..];
  }

  lemma {:induction false} RunIsComplete(p: string, t: string, c: Cursor)
    requires InRange(p, t, c) && Aligned(p, t, c) && Open(p, t, c) && '*' !in t
    requires Glob(p, t)
    ensures Run(p, t, c)
    decreases |t| - c.starTi, |p| - c.pi
  {
    if c.ti == |t| {
      AllStarsLeft(p, t, c);
    } else if c.pi < |p| && Takes(p[c.pi], t[c.ti]) {
      OpenTake(p, t, c);
      RunIsComplete(p, t, c.(pi := c.pi + 1, ti := c.ti + 1));
    } else if c.pi < |p| && p[c.pi] == '*' {
      OpenStar(p, t, c);
      RunIsComplete(p, t, Cursor(c.pi + 1, c.ti, Some(c.pi), c.ti));
    } else if c.star.Some? {
      OpenBacktrack(p, t, c);
      RunIsComplete(p, t, Cursor(c.star.value + 1, c.starTi + 1, c.star, c.starTi + 1));
    }
  }

  lemma {:induction false} OnlyStars(p: string)
    requires Glob(p, [])
    ensures forall i :: 0 <= i < |p| ==> p[i] == '*'
  {
    if p != [] {
      OnlyStars(p[1..]);
    }
  }

  /** With the text used up, only stars can be left of the pattern. */
  lemma AllStarsLeft(p: string, t: string, c: Cursor)
    requires InRange(p, t, c) && Aligned(p, t, c) && Open(p, t, c) && c.ti == |t| && Glob(p, t)
    ensures forall i :: c.pi <= i < |p| ==> p[i] == '*'
  {
    assert t[c.ti..] == [];
    if c.star.Some? {
      var a := p[c.star.value + 1..c.pi];
      AlignedTakesAll(p, t, c);
      assert p[c.star.value..] == ['*'] + a + p[c.pi..];
      StarThenPlain(a, p[c.pi..], t[c.starTi..]);
    }
    OnlyStars(p[c.pi..]);
    forall i | c.pi <= i < |p|
      ensures p[i] == '*'
    {
      assert p[i] == p[c.pi..][i - c.pi];
    }
  }

  lemma {:induction false} StarThenPlain(a: string, p: string, t: string)
    requires forall i :: 0 <= i < |a| ==> a[i] != '*'
    requires |a| == |t| && Glob(['*'] + a + p, t)
    ensures Glob(p, [])
  {
    assert (['*'] + a + p)[1..] == a + p;
    if Glob(a + p, t) {
      GlobPlainPrefix(a, p, t);
      assert t[|a|..] == [];
    } else {
      TooShort(a, p, t[1..]);
    }
  }

  /** On a text without stars the matcher decides the mask's meaning. */
  lemma MatchDecidesGlob(p: string, t: string)
    requires '*' !in t
    ensures Result(p, t) <==> Glob(p, t)
  {
    if Result(p, t) {
      MatchIsGlob(p, t);
    }
    if Glob(p, t) {
      assert p[0..] == p && t[0..] == t;
      RunIsComplete(p, t, Cursor(0, 0, None, 0));
    }
  }

  // ------------------------------------------------- and on no other texts

  function Any(n: nat): (s: string)
    ensures |s| == n && forall i :: 0 <= i < n ==> s[i] == '?'
  {
    seq(n, _ => '?')
  }

  lemma {:induction false} AnyTakesAll(t: string)
    ensures Glob(Any(|t|), t)
  {
    if t != [] {
      assert Any(|t|)[1..] == Any(|t| - 1);
      AnyTakesAll(t[1..]);
    }
  }

  /**
   * A pattern the matcher gets wrong: where the text has a literal star, the
   * pattern's star is used up on it and cannot match the empty run.
   */
  function Misread(t: string, k: nat): string
    requires k < |t|
  {
    Any(k) + ['*'] + Any(|t| - k)
  }

  lemma AnyTakes(t: string)
    ensures TakesAll(Any(|t|), t)
  {
  }

  lemma StarThenAny(t: string)
    ensures Glob(['*'] + Any(|t|), t)
  {
    assert (['*'] + Any(|t|))[1..] == Any(|t|);
    AnyTakesAll(t);
  }

  lemma MisreadIsGlob(t: string, k: nat)
    requires k < |t|
    ensures Glob(Misread(t, k), t)
  {
    hide Glob, TakesAll, Any;
    var rest := ['*'] + Any(|t| - k);
    assert Misread(t, k) == Any(k) + rest;
    assert t == t[..k] + t[k..];
    AnyTakes(t[..k]);
    StarThenAny(t[k..]);
    GlobTakesAll(Any(k), t[..k], rest, t[k..]);
  }

  lemma {:induction false} MisreadRun(t: string, k: nat, i: nat)
    requires k < |t| && t[k] == '*' && i <= |t|
    ensures !Run(Misread(t, k), t, Cursor(i, i, None, 0))
    decreases |t| - i
  {
    var p := Misread(t, k);
    if i < |t| {
      assert Takes(p[i], t[i]);
      MisreadRun(t, k, i + 1);
    } else {
      assert p[i] == '?';
    }
  }

  /** The matcher agrees with the meaning of every mask exactly on the texts without a star. */
  lemma MatcherIsRightIff(t: string)
    ensures (forall p :: Result(p, t) <==> Glob(p, t)) <==> '*' !in t
  {
    if '*' !in t {
      forall p
        ensures Result(p, t) <==> Glob(p, t)
      {
        MatchDecidesGlob(p, t);
      }
    } else {
      var k :| 0 <= k < |t| && t[k] == '*';
      MisreadIsGlob(t, k);
      MisreadRun(t, k, 0);
      assert !(Result(Misread(t, k), t) <==> Glob(Misread(t, k), t));
    }
  }

  /** The mask of everything does not match this text. */
  lemma StarIsMisread()
    ensures Glob("*", "*a") && !Result("*", "*a")
  {
    hide Run;
    var p, t := "*", "*a";
    assert p[1..] == [] && t[1..] == "a" && "a"[1..] == [];
    assert Glob([], []) && Glob(p, []) && Glob(p, "a");
    RunOnce(p, t);
  }

  lemma RunOnce(p: string, t: string)
    requires p == "*" && t == "*a"
    ensures !Run(p, t, Cursor(0, 0, None, 0))
  {
    assert !Run(p, t, Cursor(1, 1, None, 0));
  }

  /** One pattern character takes one text character: `?` any, others themselves or the letter's other case. */
  lemma TakesIff(p: char, t: char)
    ensures Takes(p, t)
       <==> || p == '?' || p == t
            || ('a' <= p <= 'z' && t as int == p as int - 32)
            || ('A' <= p <= 'Z' && t as int == p as int + 32)
  {
  }
}
