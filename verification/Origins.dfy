/**
 * Origin enforcement against peers that send anything at all (ferrixd/src/link.rs,
 * with the route table of ferrixd/src/state.rs).
 */
module Origins {
  import opened Topology
  import opened Flood

  /** Where a frame came from: the server's own users, or the link from a peer. */
  datatype Source = Here | Link(peer: Sid)

  /** One frame a server has seen, and whether its list of applied frames grew. */
  datatype Entry = Entry(source: Source, frame: Frame, applied: bool)

  // --------------------------------------------------------------- what a log tells

  /** An announcement of `o` by a peer. */
  predicate Announces(e: Entry, o: Sid) {
    e.source.Link? && e.frame.Introduce? && e.frame.origin == o
  }

  /** The link over which `o` was first announced. */
  function FirstLink(log: seq<Entry>, o: Sid): (s: Source)
    ensures s.Here? <==> forall i :: 0 <= i < |log| ==> !Announces(log[i], o)
    ensures s.Link? ==> exists i :: 0 <= i < |log| && Announces(log[i], o) && log[i].source == s
                                    && forall k :: 0 <= k < i ==> !Announces(log[k], o)
  {
    if log == [] then Here
    else
      var n := |log| - 1;
      var before := FirstLink(log[..n], o);
      assert forall i :: 0 <= i < n ==> log[..n][i] == log[i];
      if before.Link? then before else if Announces(log[n], o) then log[n].source else Here
  }

  function AppliedOf(log: seq<Entry>): seq<Frame> {
    if log == [] then []
    else AppliedOf(log[..|log| - 1]) + if log[|log| - 1].applied then [log[|log| - 1].frame] else []
  }

  function ArrivedFrom(log: seq<Entry>, u: Sid): seq<Frame> {
    if log == [] then []
    else ArrivedFrom(log[..|log| - 1], u) + if log[|log| - 1].source == Link(u) then [log[|log| - 1].frame] else []
  }

  /** The peer introduced this user, and that was applied, before entry `i`. */
  ghost predicate IntroducedBy(log: seq<Entry>, i: nat, u: Sid, o: Sid, user: nat)
    requires i <= |log|
  {
    exists j :: 0 <= j < i && log[j] == Entry(Link(u), Introduce(o, user), true)
  }

  /** Whether a server should have applied entry `i`, judged by what it saw before. */
  ghost predicate Due(log: seq<Entry>, self: Sid, i: nat)
    requires i < |log|
  {
    var e := log[i];
    match e.source
    case Here => true
    case Link(u) =>
      match e.frame
      case Introduce(o, _) => o != self && FirstLink(log[..i + 1], o) == Link(u)
      case Change(o, _, user) => IntroducedBy(log, i, u, o, user)
      case Forged(_, _, _) => false
  }

  ghost predicate Judged(log: seq<Entry>, self: Sid) {
    forall i :: 0 <= i < |log| ==> (log[i].applied <==> Due(log, self, i))
  }

  // ------------------------------------------------------------------ one server's state

  ghost predicate OwnFrames(log: seq<Entry>, self: Sid) {
    forall i :: 0 <= i < |log| && log[i].source.Here? ==> log[i].frame.origin == self
  }

  ghost predicate RoutesTell(log: seq<Entry>, self: Sid, n: Node) {
    && self !in n.routes
    && forall o :: o != self ==>
                     if o in n.routes then FirstLink(log, o) == Link(n.routes[o]) else FirstLink(log, o) == Here
  }

  ghost predicate Introduced(log: seq<Entry>, o: Sid, user: nat) {
    exists i :: 0 <= i < |log| && log[i].applied && log[i].frame == Introduce(o, user)
  }

  ghost predicate UsersTell(log: seq<Entry>, n: Node) {
    forall o: Sid, user: nat :: (o, user) in n.users <==> Introduced(log, o, user)
  }

  ghost predicate Tells(log: seq<Entry>, self: Sid, n: Node) {
    && OwnFrames(log, self) && RoutesTell(log, self, n) && UsersTell(log, n)
    && n.applied == AppliedOf(log) && Judged(log, self)
  }

  lemma FirstLinkStep(log: seq<Entry>, e: Entry, o: Sid)
    ensures FirstLink(log + [e], o)
         == if FirstLink(log, o).Link? then FirstLink(log, o) else if Announces(e, o) then e.source else Here
  {
    assert (log + [e])[..|log|] == log;
  }

  lemma {:induction false} FirstLinkStays(log: seq<Entry>, n: nat, o: Sid)
    requires n <= |log| && FirstLink(log[..n], o).Link?
    ensures FirstLink(log, o) == FirstLink(log[..n], o)
    decreases |log|
  {
    hide FirstLink;
    if n == |log| {
      assert log[..n] == log;
    } else {
      var before, last := log[..|log| - 1], log[|log| - 1];
      assert before[..n] == log[..n] && log == before + [last];
      FirstLinkStays(before, n, o);
      FirstLinkStep(before, last, o);
    }
  }

  /** Entries are judged by what came before them, so more entries change nothing. */
  lemma DueStays(log: seq<Entry>, e: Entry, self: Sid, i: nat)
    requires i < |log|
    ensures Due(log + [e], self, i) <==> Due(log, self, i)
  {
    hide FirstLink;
    var more := log + [e];
    assert more[..i + 1] == log[..i + 1] && more[i] == log[i];
    assert forall j :: 0 <= j < i ==> more[j] == log[j];
  }

  lemma JudgedMore(log: seq<Entry>, e: Entry, self: Sid)
    requires Judged(log, self) && (e.applied <==> Due(log + [e], self, |log|))
    ensures Judged(log + [e], self)
  {
    hide Due;
    var more := log + [e];
    forall i | 0 <= i < |more|
      ensures more[i].applied <==> Due(more, self, i)
    {
      if i < |log| {
        DueStays(log, e, self, i);
      }
    }
  }

  lemma AppliedMore(log: seq<Entry>, e: Entry)
    ensures AppliedOf(log + [e]) == AppliedOf(log) + if e.applied then [e.frame] else []
  {
    assert (log + [e])[..|log|] == log;
  }

  lemma ArrivedMore(log: seq<Entry>, e: Entry, u: Sid)
    ensures ArrivedFrom(log + [e], u) == ArrivedFrom(log, u) + if e.source == Link(u) then [e.frame] else []
  {
    assert (log + [e])[..|log|] == log;
  }

  lemma IntroducedMore(log: seq<Entry>, e: Entry, o: Sid, user: nat)
    ensures Introduced(log + [e], o, user)
       <==> Introduced(log, o, user) || (e.applied && e.frame == Introduce(o, user))
  {
    var more := log + [e];
    assert more[|log|] == e;
    assert forall i :: 0 <= i < |log| ==> more[i] == log[i];
  }

  /** What an applied announcement off a link shows about its origin. */
  lemma AppliedAnnouncement(log: seq<Entry>, self: Sid, i: nat, u: Sid, o: Sid, serial: nat)
    requires Judged(log, self) && i < |log| && log[i] == Entry(Link(u), Introduce(o, serial), true)
    ensures o != self && FirstLink(log, o) == Link(u)
  {
    hide FirstLink;
    assert Due(log, self, i);
    FirstLinkStays(log, i + 1, o);
  }

  /** The same of any applied frame off a link. */
  lemma AppliedOffLink(log: seq<Entry>, self: Sid, i: nat)
    requires Judged(log, self) && i < |log| && log[i].applied && log[i].source.Link?
    ensures log[i].frame.origin != self && FirstLink(log, log[i].frame.origin) == log[i].source
  {
    hide FirstLink, Judged;
    var u := log[i].source.peer;
    match log[i].frame
    case Introduce(o, serial) => AppliedAnnouncement(log, self, i, u, o, serial);
    case Change(o, _, user) =>
      ChangeIsIntroduced(log, self, i);
      var j :| 0 <= j < i && log[j] == Entry(Link(u), Introduce(o, user), true);
      AppliedAnnouncement(log, self, j, u, o, user);
    case Forged(_, _, _) => ForgedIsRefused(log, self, i);
  }

  lemma ForgedIsRefused(log: seq<Entry>, self: Sid, i: nat)
    requires Judged(log, self) && i < |log| && log[i].source.Link? && log[i].frame.Forged?
    ensures !log[i].applied
  {
    hide FirstLink, IntroducedBy;
    assert !Due(log, self, i);
  }

  lemma ChangeIsIntroduced(log: seq<Entry>, self: Sid, i: nat)
    requires Judged(log, self) && i < |log| && log[i].applied && log[i].source.Link? && log[i].frame.Change?
    ensures IntroducedBy(log, i, log[i].source.peer, log[i].frame.origin, log[i].frame.user)
  {
    hide FirstLink, IntroducedBy;
    assert Due(log, self, i);
  }

  /** A user that the routed peer introduced is one the server knows, and the other way round. */
  lemma KnownIsIntroduced(log: seq<Entry>, self: Sid, n: Node, u: Sid, o: Sid, user: nat)
    requires Tells(log, self, n)
    ensures (o, user) in n.users && o in n.routes && n.routes[o] == u <==> IntroducedBy(log, |log|, u, o, user)
  {
    hide FirstLink, Due;
    if (o, user) in n.users && o in n.routes && n.routes[o] == u {
      assert Introduced(log, o, user);
      var i :| 0 <= i < |log| && log[i].applied && log[i].frame == Introduce(o, user);
      if log[i].source.Link? {
        AppliedOffLink(log, self, i);
      }
      assert log[i] == Entry(Link(u), Introduce(o, user), true);
    }
    if IntroducedBy(log, |log|, u, o, user) {
      var j :| 0 <= j < |log| && log[j] == Entry(Link(u), Introduce(o, user), true);
      AppliedOffLink(log, self, j);
      assert Introduced(log, o, user);
    }
  }

  /** The entry for a frame off the link from `u`. */
  function Arrival(n: Node, self: Sid, u: Sid, f: Frame): Entry {
    Entry(Link(u), f, |Receive(n, self, u, f).0.applied| > |n.applied|)
  }

  lemma ArrivalIsDue(log: seq<Entry>, self: Sid, n: Node, u: Sid, f: Frame)
    requires Tells(log, self, n)
    ensures var e := Arrival(n, self, u, f);
            && (e.applied <==> Receive(n, self, u, f).1)
            && (e.applied <==> Due(log + [e], self, |log|))
  {
    hide FirstLink, Judged, UsersTell;
    var e := Arrival(n, self, u, f);
    var more := log + [e];
    assert more[..|log| + 1] == more && more[|log|] == e;
    match f
    case Introduce(o, _) => FirstLinkStep(log, e, o);
    case Change(o, _, user) =>
      KnownIsIntroduced(log, self, n, u, o, user);
      assert forall j :: 0 <= j < |log| ==> more[j] == log[j];
    case Forged(_, _, _) =>
  }

  lemma ArrivalRoutes(log: seq<Entry>, self: Sid, n: Node, u: Sid, f: Frame)
    requires RoutesTell(log, self, n)
    ensures RoutesTell(log + [Arrival(n, self, u, f)], self, Receive(n, self, u, f).0)
  {
    hide FirstLink;
    var e, n' := Arrival(n, self, u, f), Receive(n, self, u, f).0;
    forall o | o != self
      ensures if o in n'.routes then FirstLink(log + [e], o) == Link(n'.routes[o]) else FirstLink(log + [e], o) == Here
    {
      FirstLinkStep(log, e, o);
    }
  }

  lemma ArrivalUsers(log: seq<Entry>, self: Sid, n: Node, u: Sid, f: Frame)
    requires UsersTell(log, n)
    ensures UsersTell(log + [Arrival(n, self, u, f)], Receive(n, self, u, f).0)
  {
    hide Introduced;
    var e, n' := Arrival(n, self, u, f), Receive(n, self, u, f).0;
    forall o: Sid, user: nat
      ensures (o, user) in n'.users <==> Introduced(log + [e], o, user)
    {
      IntroducedMore(log, e, o, user);
    }
  }

  lemma ArrivalKeeps(log: seq<Entry>, self: Sid, n: Node, u: Sid, f: Frame)
    requires Tells(log, self, n)
    ensures Tells(log + [Arrival(n, self, u, f)], self, Receive(n, self, u, f).0)
  {
    hide FirstLink, Due, Judged, RoutesTell, UsersTell, AppliedOf;
    var e := Arrival(n, self, u, f);
    ArrivalIsDue(log, self, n, u, f);
    JudgedMore(log, e, self);
    ArrivalRoutes(log, self, n, u, f);
    ArrivalUsers(log, self, n, u, f);
    AppliedMore(log, e);
  }

  lemma LocalKeeps(log: seq<Entry>, self: Sid, n: Node, f: Frame)
    requires Tells(log, self, n) && f.origin == self
    ensures Tells(log + [Entry(Here, f, true)], self, Apply(n, f))
  {
    hide FirstLink, Judged, AppliedOf, Introduced;
    var e, n' := Entry(Here, f, true), Apply(n, f);
    assert (log + [e])[|log|] == e;
    JudgedMore(log, e, self);
    AppliedMore(log, e);
    forall o
      ensures FirstLink(log + [e], o) == FirstLink(log, o)
    {
      FirstLinkStep(log, e, o);
    }
    forall o: Sid, user: nat
      ensures (o, user) in n'.users <==> Introduced(log + [e], o, user)
    {
      IntroducedMore(log, e, o, user);
    }
  }

  // ------------------------------------------------------------------------ the network

  datatype Traffic = Traffic(st: State, logs: map<Sid, seq<Entry>>)

  /** A local change, a peer putting any frame on its link, and the next frame arriving. */
  datatype Event =
    | Local(f: Frame)
    | Inject(u: Sid, v: Sid, f: Frame)
    | Arrive(u: Sid, v: Sid)

  predicate Fits(net: Net, t: Traffic) {
    Shaped(net, t.st) && t.logs.Keys == net.servers
  }

  predicate CanHappen(net: Net, t: Traffic, e: Event) {
    && Fits(net, t)
    && match e
       case Local(f) => f.origin in net.servers && !f.Forged?
       case Inject(u, v, _) => (u, v) in net.links
       case Arrive(u, v) => CanDeliver(net, t.st, u, v)
  }

  function Next(net: Net, t: Traffic, e: Event): Traffic
    requires CanHappen(net, t, e)
  {
    match e
    case Local(f) =>
      Traffic(Issue(net, t.st, f), t.logs[f.origin := t.logs[f.origin] + [Entry(Here, f, true)]])
    case Inject(u, v, f) =>
      t.(st := t.st.(wires := t.st.wires[(u, v) := t.st.wires[(u, v)] + [f]]))
    case Arrive(u, v) =>
      Traffic(Deliver(net, t.st, u, v),
              t.logs[v := t.logs[v] + [Arrival(t.st.nodes[v], v, u, t.st.wires[(u, v)][0])]])
  }

  function Start(net: Net): Traffic {
    Traffic(Initial(net), map v | v in net.servers :: [])
  }

  ghost predicate CanRun(net: Net, t: Traffic, events: seq<Event>)
    decreases |events|
  {
    events == [] || (CanHappen(net, t, events[0]) && CanRun(net, Next(net, t, events[0]), events[1..]))
  }

  ghost function After(net: Net, t: Traffic, events: seq<Event>): Traffic
    requires CanRun(net, t, events)
    decreases |events|
  {
    if events == [] then t else After(net, Next(net, t, events[0]), events[1..])
  }

  /** The logs are what the nodes applied and what crossed the links. */
  ghost predicate Invariant(net: Net, t: Traffic) {
    && Fits(net, t)
    && (forall v :: v in net.servers ==> Tells(t.logs[v], v, t.st.nodes[v]))
    && (forall u, v :: (u, v) in net.links && v in net.servers ==> t.st.crossed[(u, v)] == ArrivedFrom(t.logs[v], u))
  }

  lemma StartInvariant(net: Net)
    ensures Invariant(net, Start(net))
  {
  }

  lemma LocalStep(net: Net, t: Traffic, f: Frame)
    requires Invariant(net, t) && f.origin in net.servers && !f.Forged?
    ensures Invariant(net, Next(net, t, Local(f)))
  {
    hide Tells, ArrivedFrom, Apply;
    var o := f.origin;
    LocalKeeps(t.logs[o], o, t.st.nodes[o], f);
    forall u
      ensures ArrivedFrom(t.logs[o] + [Entry(Here, f, true)], u) == ArrivedFrom(t.logs[o], u)
    {
      ArrivedMore(t.logs[o], Entry(Here, f, true), u);
    }
  }

  lemma ArriveStep(net: Net, t: Traffic, u: Sid, v: Sid)
    requires Invariant(net, t) && CanDeliver(net, t.st, u, v)
    ensures Invariant(net, Next(net, t, Arrive(u, v)))
  {
    hide Tells, ArrivedFrom, Receive;
    var f := t.st.wires[(u, v)][0];
    var e := Arrival(t.st.nodes[v], v, u, f);
    ArrivalKeeps(t.logs[v], v, t.st.nodes[v], u, f);
    forall w
      ensures ArrivedFrom(t.logs[v] + [e], w) == ArrivedFrom(t.logs[v], w) + if w == u then [f] else []
    {
      ArrivedMore(t.logs[v], e, w);
    }
  }

  lemma {:induction false} RunInvariant(net: Net, t: Traffic, events: seq<Event>)
    requires Invariant(net, t) && CanRun(net, t, events)
    ensures Invariant(net, After(net, t, events))
    decreases |events|
  {
    hide Tells, Next, ArrivedFrom;
    if events != [] {
      match events[0] {
        case Local(f) => LocalStep(net, t, f);
        case Inject(u, v, f) => InjectStep(net, t, u, v, f);
        case Arrive(u, v) => ArriveStep(net, t, u, v);
      }
      RunInvariant(net, Next(net, t, events[0]), events[1..]);
    }
  }

  lemma InjectStep(net: Net, t: Traffic, u: Sid, v: Sid, f: Frame)
    requires Invariant(net, t) && (u, v) in net.links
    ensures Invariant(net, Next(net, t, Inject(u, v, f)))
  {
    hide Tells, ArrivedFrom;
  }

  /** What the log of a server says in every run, whatever peers send. */
  ghost predicate Enforced(log: seq<Entry>, self: Sid) {
    // nothing of its own off a link
    && (forall i :: 0 <= i < |log| && log[i].applied && log[i].source.Link? ==> log[i].frame.origin != self)
    // what is applied of one origin came over one link, the first announcer's
    && (forall i :: 0 <= i < |log| && log[i].applied && log[i].source.Link? ==>
                      log[i].source == FirstLink(log, log[i].frame.origin))
    // announcements are applied exactly if they are of another server and over the first announcer's link
    && (forall i :: 0 <= i < |log| && log[i].source.Link? && log[i].frame.Introduce? ==>
                      (log[i].applied <==>
                        log[i].frame.origin != self && log[i].source == FirstLink(log, log[i].frame.origin)))
    // changes are applied exactly if their user was introduced, with effect, over the same link
    && (forall i :: 0 <= i < |log| && log[i].source.Link? && log[i].frame.Change? ==>
                      (log[i].applied <==>
                        IntroducedBy(log, i, log[i].source.peer, log[i].frame.origin, log[i].frame.user)))
    // a user announced under another server's SID never is
    && (forall i :: 0 <= i < |log| && log[i].source.Link? && log[i].frame.Forged? ==> !log[i].applied)
  }

  /** The link of an announcement is the first one or it never was. */
  lemma FirstLinkAt(log: seq<Entry>, i: nat, o: Sid)
    requires i < |log| && Announces(log[i], o)
    ensures FirstLink(log[..i + 1], o) == FirstLink(log, o)
  {
    assert log[..i + 1][i] == log[i];
    FirstLinkStays(log, i + 1, o);
  }

  lemma JudgedIsEnforced(log: seq<Entry>, self: Sid)
    requires Judged(log, self)
    ensures Enforced(log, self)
  {
    hide FirstLink, IntroducedBy;
    forall i | 0 <= i < |log| && log[i].applied && log[i].source.Link?
      ensures log[i].frame.origin != self && log[i].source == FirstLink(log, log[i].frame.origin)
    {
      AppliedOffLink(log, self, i);
    }
    forall i | 0 <= i < |log| && log[i].source.Link? && log[i].frame.Forged?
      ensures !log[i].applied
    {
      ForgedIsRefused(log, self, i);
    }
    forall i | 0 <= i < |log| && log[i].source.Link? && log[i].frame.Introduce?
      ensures log[i].applied <==> log[i].frame.origin != self && log[i].source == FirstLink(log, log[i].frame.origin)
    {
      assert log[i].applied <==> Due(log, self, i);
      FirstLinkAt(log, i, log[i].frame.origin);
    }
    forall i | 0 <= i < |log| && log[i].source.Link? && log[i].frame.Change?
      ensures log[i].applied <==> IntroducedBy(log, i, log[i].source.peer, log[i].frame.origin, log[i].frame.user)
    {
      assert log[i].applied <==> Due(log, self, i);
    }
  }

  /**
   * On every network, in every run in which peers put any frames at all on their links:
   * each server's applied frames are those its log marks, what crossed its links is what
   * the log holds of them, and the log shows origins enforced.
   */
  lemma OriginsAreEnforced(net: Net, events: seq<Event>, v: Sid)
    requires CanRun(net, Start(net), events) && v in net.servers
    ensures var t := After(net, Start(net), events);
            && Fits(net, t)
            && t.st.nodes[v].applied == AppliedOf(t.logs[v])
            && (forall u :: (u, v) in net.links ==> t.st.crossed[(u, v)] == ArrivedFrom(t.logs[v], u))
            && Enforced(t.logs[v], v)
  {
    hide Enforced, AppliedOf, ArrivedFrom, After, CanRun, Judged;
    StartInvariant(net);
    RunInvariant(net, Start(net), events);
    JudgedIsEnforced(After(net, Start(net), events).logs[v], v);
  }

  /** A frame is sent on, over every link but its own, exactly if it was applied. */
  lemma ForwardedIffApplied(net: Net, st: State, u: Sid, v: Sid, e: (Sid, Sid))
    requires CanDeliver(net, st, u, v) && e in net.links && e != (u, v)
    ensures var st' := Deliver(net, st, u, v);
            var grew := |st'.nodes[v].applied| > |st.nodes[v].applied|;
            st'.wires[e] == if grew && e.0 == v && e.1 != u then st.wires[e] + [st.wires[(u, v)][0]] else st.wires[e]
  {
  }
}
