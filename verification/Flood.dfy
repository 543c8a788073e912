/**
 * Flooding state changes over the link tree (ferrixd/src/link.rs, with the route
 * table of ferrixd/src/state.rs): apply, then forward down every other link.
 */
module Flood {
  import opened Topology

  /**
   * A state change.  `serial` is its position among the changes of its origin; a
   * user is named by the serial of the frame that introduced it.  A forged frame
   * announces a user of `origin` under another SID.
   */
  datatype Frame =
    | Introduce(origin: Sid, serial: nat)
    | Change(origin: Sid, serial: nat, user: nat)
    | Forged(origin: Sid, serial: nat, sid: Sid)

  /** A server: what it applied, whom it routes each SID through, the users it knows. */
  datatype Node = Node(applied: seq<Frame>, routes: map<Sid, Sid>, users: set<(Sid, nat)>, rejected: nat)

  /** Every link direction is a FIFO; `crossed` records what came out of it. */
  datatype State = State(nodes: map<Sid, Node>, wires: map<(Sid, Sid), seq<Frame>>, crossed: map<(Sid, Sid), seq<Frame>>)

  // -------------------------------------------------------------------- one server

  /** `route_authorize`: our own SID never, otherwise the first announcer wins. */
  function RouteAuthorize(n: Node, self: Sid, peer: Sid, sid: Sid): (Node, bool) {
    if sid == self then (n, false)
    else if sid in n.routes then (n, n.routes[sid] == peer)
    else (n.(routes := n.routes[sid := peer]), true)
  }

  /** `remote_uid_authorized`: the user is known and its server is routed through the peer. */
  predicate UidAuthorized(n: Node, peer: Sid, sid: Sid, user: nat) {
    (sid, user) in n.users && sid in n.routes && n.routes[sid] == peer
  }

  function Apply(n: Node, f: Frame): Node {
    n.(applied := n.applied + [f], users := if f.Introduce? then n.users + {(f.origin, f.serial)} else n.users)
  }

  /** One frame off the link from `peer`: the new state, and whether it is forwarded. */
  function Receive(n: Node, self: Sid, peer: Sid, f: Frame): (Node, bool) {
    match f
    case Introduce(origin, _) =>
      var (n', ok) := RouteAuthorize(n, self, peer, origin);
      if ok then (Apply(n', f), true) else (n'.(rejected := n'.rejected + 1), false)
    case Forged(_, _, _) => (n.(rejected := n.rejected + 1), false)
    case Change(origin, _, user) =>
      if UidAuthorized(n, peer, origin, user) then (Apply(n, f), true)
      else (n.(rejected := n.rejected + 1), false)
  }

  // ------------------------------------------------------------------- the network

  predicate Shaped(net: Net, st: State) {
    st.nodes.Keys == net.servers && st.wires.Keys == net.links && st.crossed.Keys == net.links
  }

  function Initial(net: Net): State {
    State(map v | v in net.servers :: Node([], map[], {}, 0),
          map e | e in net.links :: [],
          map e | e in net.links :: [])
  }

  /** A local change at `o`, announced on every link. */
  function Issue(net: Net, st: State, f: Frame): State
    requires Shaped(net, st) && f.origin in net.servers
  {
    var o := f.origin;
    State(st.nodes[o := Apply(st.nodes[o], f)],
          map e | e in net.links :: if e.0 == o then st.wires[e] + [f] else st.wires[e],
          st.crossed)
  }

  predicate CanIssue(net: Net, st: State, f: Frame)
    requires Shaped(net, st)
  {
    && f.origin in net.servers && !f.Forged?
    && f.serial == |Of(st.nodes[f.origin].applied, f.origin)|
    && (f.Change? ==> (f.origin, f.user) in st.nodes[f.origin].users)
  }

  /** The next frame on the link from `u` arrives at `v`. */
  function Deliver(net: Net, st: State, u: Sid, v: Sid): State
    requires Shaped(net, st) && (u, v) in net.links && v in net.servers && st.wires[(u, v)] != []
  {
    var f := st.wires[(u, v)][0];
    var (n, ok) := Receive(st.nodes[v], v, u, f);
    State(st.nodes[v := n],
          map e | e in net.links ::
            if e == (u, v) then st.wires[e][1..]
            else if ok && e.0 == v && e.1 != u then st.wires[e] + [f]
            else st.wires[e],
          st.crossed[(u, v) := st.crossed[(u, v)] + [f]])
  }

  predicate CanDeliver(net: Net, st: State, u: Sid, v: Sid) {
    Shaped(net, st) && (u, v) in net.links && v in net.servers && st.wires[(u, v)] != []
  }

  ghost predicate IsIssue(net: Net, st: State, st': State) {
    Shaped(net, st) && exists f :: CanIssue(net, st, f) && st' == Issue(net, st, f)
  }

  ghost predicate IsDelivery(net: Net, st: State, st': State) {
    exists u, v :: CanDeliver(net, st, u, v) && st' == Deliver(net, st, u, v)
  }

  // ------------------------------------------------------------------ the invariant

  /** The frames of one origin, in order. */
  function Of(s: seq<Frame>, o: Sid): (r: seq<Frame>)
    ensures forall i :: 0 <= i < |r| ==> r[i].origin == o
  {
    if s == [] then [] else (if s[0].origin == o then [s[0]] else []) + Of(s[1..], o)
  }

  lemma {:induction false} OfConcat(a: seq<Frame>, b: seq<Frame>, o: Sid)
    ensures Of(a + b, o) == Of(a, o) + Of(b, o)
  {
    if a == [] {
      assert a + b == b;
    } else {
      assert (a + b)[1..] == a[1..] + b;
      OfConcat(a[1..], b, o);
    }
  }

  lemma OfSnoc(a: seq<Frame>, f: Frame, o: Sid)
    ensures Of(a + [f], o) == if f.origin == o then Of(a, o) + [f] else Of(a, o)
  {
    OfConcat(a, [f], o);
    assert [f][1..] == [];
  }

  ghost predicate Downstream(net: Net, o: Sid, u: Sid, v: Sid)
    requires IsTree(net) && o in net.servers && v in net.servers
  {
    v != o && u == Hop(net, o, v)
  }

  /**
   * What flows over one link direction: away from the origin (`down`), what the
   * sender applied is what the receiver applied plus what is on the way; in the
   * other direction, nothing ever.
   */
  predicate FlowOf(down: bool, o: Sid, sender: seq<Frame>, receiver: seq<Frame>, wire: seq<Frame>, crossed: seq<Frame>) {
    if down then Of(sender, o) == Of(receiver, o) + Of(wire, o) && Of(crossed, o) == Of(receiver, o)
    else Of(wire, o) == [] && Of(crossed, o) == []
  }

  ghost predicate Flow(net: Net, st: State, o: Sid, u: Sid, v: Sid)
    requires IsTree(net) && Shaped(net, st) && o in net.servers && (u, v) in net.links
  {
    FlowOf(Downstream(net, o, u, v), o, st.nodes[u].applied, st.nodes[v].applied, st.wires[(u, v)], st.crossed[(u, v)])
  }

  /** A log in issue order without forged frames, in which every change names a user introduced before it. */
  predicate InOrder(l: seq<Frame>) {
    forall i :: 0 <= i < |l| ==>
                  && l[i].serial == i && !l[i].Forged?
                  && (l[i].Change? ==> l[i].user < i && l[l[i].user].Introduce?)
  }

  /** What a server knows of the users of `o` is what it applied; it routes `o` through `towards`. */
  ghost predicate Knows(n: Node, o: Sid, self: Sid, towards: Sid) {
    var l := Of(n.applied, o);
    && (o in n.routes ==> self != o && n.routes[o] == towards)
    && (self != o && l != [] ==> o in n.routes)
    && (forall x: nat :: (o, x) in n.users <==> x < |l| && l[x].Introduce?)
  }

  ghost predicate Informed(net: Net, st: State, o: Sid, v: Sid)
    requires IsTree(net) && Shaped(net, st) && o in net.servers && v in net.servers
  {
    Knows(st.nodes[v], o, v, if v == o then v else Hop(net, o, v))
  }

  lemma ApplyKnows(n: Node, f: Frame, o: Sid, self: Sid, towards: Sid)
    requires Knows(n, o, self, towards)
    requires f.origin == o ==> f.serial == |Of(n.applied, o)| && (self != o ==> o in n.routes)
    ensures Knows(Apply(n, f), o, self, towards)
  {
    hide Of;
    var l := Of(n.applied, o);
    OfSnoc(n.applied, f, o);
    if f.origin == o {
      assert forall x: nat :: x < |l| ==> (l + [f])[x] == l[x];
      assert (l + [f])[|l|] == f;
    }
  }

  lemma RouteKnows(n: Node, sid: Sid, o: Sid, self: Sid, towards: Sid, peer: Sid)
    requires Knows(n, o, self, towards)
    requires sid == o ==> self != o && peer == towards
    ensures Knows(n.(routes := n.routes[sid := peer]), o, self, towards)
  {
  }

  predicate Known(net: Net, s: seq<Frame>) {
    forall i :: 0 <= i < |s| ==> s[i].origin in net.servers
  }

  /** Nothing was rejected, and every frame has a server for its origin. */
  ghost predicate Honest(net: Net, st: State)
    requires Shaped(net, st)
  {
    && (forall v :: v in net.servers ==> st.nodes[v].rejected == 0 && Known(net, st.nodes[v].applied))
    && (forall e :: e in net.links ==> Known(net, st.wires[e]) && Known(net, st.crossed[e]))
  }

  ghost predicate Invariant(net: Net, st: State)
    requires IsTree(net)
  {
    && Shaped(net, st)
    && Honest(net, st)
    && (forall o :: o in net.servers ==> InOrder(Of(st.nodes[o].applied, o)))
    && (forall o, u, v :: o in net.servers && (u, v) in net.links ==> Flow(net, st, o, u, v))
    && (forall o, v :: o in net.servers && v in net.servers ==> Informed(net, st, o, v))
  }

  lemma InitialInvariant(net: Net)
    requires IsTree(net)
    ensures Invariant(net, Initial(net))
  {
  }

  // --------------------------------------------------------- a local change keeps it

  lemma IssueFlow(net: Net, st: State, f: Frame, o: Sid, u: Sid, v: Sid)
    requires IsTree(net) && Shaped(net, st) && CanIssue(net, st, f)
    requires o in net.servers && (u, v) in net.links && Flow(net, st, o, u, v)
    ensures Flow(net, Issue(net, st, f), o, u, v)
  {
    hide IsTree, Hop, FlowOf, Of;
    LinkEnds(net, u, v);
    if u == f.origin == o {
      HopOfNeighbour(net, o, u, v);
    }
    var wire := st.wires[(u, v)];
    assert st.nodes[u].applied + [] == st.nodes[u].applied && st.nodes[v].applied + [] == st.nodes[v].applied;
    assert wire + [] == wire;
    FlowPushed(Downstream(net, o, u, v), o, st.nodes[u].applied, st.nodes[v].applied, wire, st.crossed[(u, v)], f,
               u == f.origin, v == f.origin, u == f.origin);
  }

  lemma IssueInformed(net: Net, st: State, f: Frame, o: Sid, v: Sid)
    requires IsTree(net) && Shaped(net, st) && CanIssue(net, st, f)
    requires o in net.servers && v in net.servers && Informed(net, st, o, v)
    ensures Informed(net, Issue(net, st, f), o, v)
  {
    hide IsTree, Hop, Knows;
    if v == f.origin {
      ApplyKnows(st.nodes[v], f, o, v, if v == o then v else Hop(net, o, v));
    }
  }

  lemma IssueInOrder(net: Net, st: State, f: Frame, o: Sid)
    requires IsTree(net) && Shaped(net, st) && CanIssue(net, st, f)
    requires o in net.servers && InOrder(Of(st.nodes[o].applied, o)) && Informed(net, st, o, o)
    ensures InOrder(Of(Issue(net, st, f).nodes[o].applied, o))
  {
    hide IsTree, Of;
    var l := Of(st.nodes[o].applied, o);
    OfSnoc(st.nodes[o].applied, f, o);
    if f.origin == o {
      assert forall i :: 0 <= i < |l| ==> (l + [f])[i] == l[i];
    }
  }

  lemma IssueHonest(net: Net, st: State, f: Frame)
    requires IsTree(net) && Invariant(net, st) && CanIssue(net, st, f)
    ensures Shaped(net, Issue(net, st, f)) && Honest(net, Issue(net, st, f))
  {
    hide IsTree, Of, InOrder, Flow, Informed;
  }

  lemma IssueKeeps(net: Net, st: State, f: Frame)
    requires IsTree(net) && Invariant(net, st) && CanIssue(net, st, f)
    ensures Invariant(net, Issue(net, st, f))
  {
    hide Flow, Informed, InOrder, IsTree, Of, Honest;
    var st' := Issue(net, st, f);
    IssueHonest(net, st, f);
    forall o | o in net.servers
      ensures InOrder(Of(st'.nodes[o].applied, o))
    {
      IssueInOrder(net, st, f, o);
    }
    forall o, u, v | o in net.servers && (u, v) in net.links
      ensures Flow(net, st', o, u, v)
    {
      IssueFlow(net, st, f, o, u, v);
    }
    forall o, v | o in net.servers && v in net.servers
      ensures Informed(net, st', o, v)
    {
      IssueInformed(net, st, f, o, v);
    }
  }

  // ------------------------------------------------------------- a delivery keeps it

  /** Every log is a prefix of its origin's own. */
  lemma {:induction false} LogIsPrefix(net: Net, st: State, o: Sid, v: Sid)
    requires IsTree(net) && Invariant(net, st) && o in net.servers && v in net.servers
    ensures Of(st.nodes[v].applied, o) <= Of(st.nodes[o].applied, o)
    decreases |Route(net, o, v)|
  {
    hide IsTree, Informed, InOrder, Of;
    if v != o {
      var u := Hop(net, o, v);
      HopIsNearer(net, o, v);
      assert Flow(net, st, o, u, v);
      LogIsPrefix(net, st, o, u);
    }
  }

  lemma PrefixInOrder(a: seq<Frame>, b: seq<Frame>)
    requires a <= b && InOrder(b)
    ensures InOrder(a)
  {
  }

  /** The frame at the head of a link comes from the origin's side and is the next one due. */
  lemma HeadIsNext(net: Net, st: State, u: Sid, v: Sid)
    requires IsTree(net) && Invariant(net, st) && CanDeliver(net, st, u, v)
    ensures var f := st.wires[(u, v)][0];
            var l := Of(st.nodes[v].applied, f.origin);
            && f.origin in net.servers && Downstream(net, f.origin, u, v)
            && InOrder(l + [f])
  {
    hide IsTree, Informed, InOrder;
    var f := st.wires[(u, v)][0];
    var o := f.origin;
    var w := Of(st.wires[(u, v)], o);
    assert Flow(net, st, o, u, v);
    assert w[0] == f;
    LogIsPrefix(net, st, o, u);
    var l := Of(st.nodes[v].applied, o);
    assert l + [f] <= l + w;
    assert u in net.servers by { LinkEnds(net, u, v); }
    PrefixInOrder(l + [f], Of(st.nodes[o].applied, o));
  }

  lemma LinkEnds(net: Net, u: Sid, v: Sid)
    requires IsTree(net) && (u, v) in net.links
    ensures u in net.servers && v in net.servers && u != v && (v, u) in net.links
  {
  }

  /** An honest frame is accepted, and the route it sets is the one towards its origin. */
  lemma HeadIsAccepted(net: Net, st: State, u: Sid, v: Sid)
    requires IsTree(net) && Invariant(net, st) && CanDeliver(net, st, u, v)
    ensures var f := st.wires[(u, v)][0];
            var n := st.nodes[v];
            Receive(n, v, u, f) ==
            (Apply(if f.Introduce? then n.(routes := n.routes[f.origin := u]) else n, f), true)
  {
    hide IsTree, Hop;
    var f := st.wires[(u, v)][0];
    var n := st.nodes[v];
    HeadIsNext(net, st, u, v);
    var l := Of(n.applied, f.origin);
    assert Informed(net, st, f.origin, v);
    assert (l + [f])[|l|] == f;
    if f.Change? {
      assert (l + [f])[f.user] == l[f.user];
    } else if f.origin in n.routes {
      assert n.routes[f.origin := u] == n.routes;
    }
  }

  /** The parts of the state that a delivery changes. */
  lemma DeliverParts(net: Net, st: State, u: Sid, v: Sid)
    requires IsTree(net) && Invariant(net, st) && CanDeliver(net, st, u, v)
    ensures var st', f := Deliver(net, st, u, v), st.wires[(u, v)][0];
            && Shaped(net, st')
            && (forall x :: x in net.servers ==>
                              st'.nodes[x].applied == st.nodes[x].applied + if x == v then [f] else [])
            && (forall e :: e in net.links ==>
                              && st'.wires[e] == (if e == (u, v) then st.wires[e][1..]
                                                  else st.wires[e] + if e.0 == v && e.1 != u then [f] else [])
                              && st'.crossed[e] == st.crossed[e] + if e == (u, v) then [f] else [])
  {
    hide IsTree, Invariant, Receive, Of;
    HeadIsAccepted(net, st, u, v);
  }

  lemma DeliverFlow(net: Net, st: State, u: Sid, v: Sid, o: Sid, a: Sid, b: Sid)
    requires IsTree(net) && Invariant(net, st) && CanDeliver(net, st, u, v)
    requires o in net.servers && (a, b) in net.links
    ensures Shaped(net, Deliver(net, st, u, v)) && Flow(net, Deliver(net, st, u, v), o, a, b)
  {
    hide IsTree, Deliver, Hop, Invariant, FlowOf, InOrder;
    LinkEnds(net, a, b);
    LinkEnds(net, u, v);
    var f, down := st.wires[(u, v)][0], Downstream(net, o, a, b);
    DeliverParts(net, st, u, v);
    HeadIsNext(net, st, u, v);
    InvariantFlow(net, st, o, a, b);
    if o == f.origin {
      HopIsOneWay(net, o, u, v);
      if a == v && b != u {
        HopOfNeighbour(net, o, v, b);
      }
    }
    FlowStep(down, o, st.nodes[a].applied, st.nodes[b].applied, st.wires[(a, b)], st.crossed[(a, b)], f,
             a == v, b == v, a == v && b != u, (a, b) == (u, v));
  }

  /** One delivery of `f`, seen from one link direction. */
  lemma FlowStep(down: bool, o: Sid, sender: seq<Frame>, receiver: seq<Frame>, wire: seq<Frame>, crossed: seq<Frame>,
                 f: Frame, sent: bool, received: bool, pushed: bool, popped: bool)
    requires FlowOf(down, o, sender, receiver, wire, crossed)
    requires popped ==> wire != [] && wire[0] == f && !sent && !pushed && received
    requires pushed ==> sent && !received
    requires f.origin == o ==> (popped || pushed ==> down) && (down ==> sent == pushed && received == popped)
    ensures FlowOf(down, o, sender + (if sent then [f] else []), receiver + (if received then [f] else []),
                   if popped then wire[1..] else wire + (if pushed then [f] else []),
                   crossed + (if popped then [f] else []))
  {
    hide Of, FlowOf;
    if popped {
      assert sender + [] == sender;
      FlowPopped(down, o, sender, receiver, wire, crossed, f);
    } else {
      assert crossed + [] == crossed;
      FlowPushed(down, o, sender, receiver, wire, crossed, f, sent, received, pushed);
    }
  }

  lemma FlowPopped(down: bool, o: Sid, sender: seq<Frame>, receiver: seq<Frame>, wire: seq<Frame>, crossed: seq<Frame>,
                   f: Frame)
    requires FlowOf(down, o, sender, receiver, wire, crossed) && wire != [] && wire[0] == f
    requires f.origin == o ==> down
    ensures FlowOf(down, o, sender, receiver + [f], wire[1..], crossed + [f])
  {
    hide Of;
    OfSnoc(receiver, f, o);
    OfSnoc(crossed, f, o);
    OfOne(f, o);
    assert wire == [f] + wire[1..];
    OfConcat([f], wire[1..], o);
    assert Of(receiver, o) + ([f] + Of(wire[1..], o)) == Of(receiver, o) + [f] + Of(wire[1..], o);
    assert [] + Of(wire[1..], o) == Of(wire[1..], o);
  }

  lemma FlowPushed(down: bool, o: Sid, sender: seq<Frame>, receiver: seq<Frame>, wire: seq<Frame>, crossed: seq<Frame>,
                   f: Frame, sent: bool, received: bool, pushed: bool)
    requires FlowOf(down, o, sender, receiver, wire, crossed)
    requires pushed ==> sent && !received
    requires f.origin == o ==> (pushed ==> down) && (down ==> sent == pushed && !received)
    ensures FlowOf(down, o, sender + (if sent then [f] else []), receiver + (if received then [f] else []),
                   wire + (if pushed then [f] else []), crossed)
  {
    hide Of;
    OfSnoc(sender, f, o);
    OfSnoc(receiver, f, o);
    OfSnoc(wire, f, o);
    assert sender + [] == sender && receiver + [] == receiver && wire + [] == wire;
    assert Of(receiver, o) + Of(wire, o) + [f] == Of(receiver, o) + (Of(wire, o) + [f]);
  }

  lemma OfOne(f: Frame, o: Sid)
    ensures Of([f], o) == (if f.origin == o then [f] else []) && Of([], o) == []
  {
    assert [f][1..] == [];
  }

  lemma InvariantFlow(net: Net, st: State, o: Sid, u: Sid, v: Sid)
    requires IsTree(net) && Invariant(net, st) && o in net.servers && (u, v) in net.links
    ensures Flow(net, st, o, u, v)
  {
  }

  lemma DeliverInformed(net: Net, st: State, u: Sid, v: Sid, o: Sid, w: Sid)
    requires IsTree(net) && Invariant(net, st) && CanDeliver(net, st, u, v)
    requires o in net.servers && w in net.servers
    ensures Shaped(net, Deliver(net, st, u, v)) && Informed(net, Deliver(net, st, u, v), o, w)
  {
    hide IsTree, Flow, Receive, Hop, Of, Invariant, Apply;
    var f, n := st.wires[(u, v)][0], st.nodes[v];
    HeadIsNext(net, st, u, v);
    HeadIsAccepted(net, st, u, v);
    InvariantInformed(net, st, o, w);
    if w == v {
      InvariantInformed(net, st, f.origin, v);
      var l := Of(n.applied, f.origin);
      assert (l + [f])[|l|] == f;
      var towards := if v == o then v else Hop(net, o, v);
      var n' := if f.Introduce? then n.(routes := n.routes[f.origin := u]) else n;
      if f.Introduce? {
        RouteKnows(n, f.origin, o, v, towards, u);
      }
      ApplyKnows(n', f, o, v, towards);
    }
  }

  lemma InvariantInformed(net: Net, st: State, o: Sid, v: Sid)
    requires IsTree(net) && Invariant(net, st) && o in net.servers && v in net.servers
    ensures Informed(net, st, o, v)
  {
  }

  lemma DeliverInOrder(net: Net, st: State, u: Sid, v: Sid, o: Sid)
    requires IsTree(net) && Invariant(net, st) && CanDeliver(net, st, u, v) && o in net.servers
    ensures Shaped(net, Deliver(net, st, u, v)) && InOrder(Of(Deliver(net, st, u, v).nodes[o].applied, o))
  {
    hide IsTree, Deliver, Of, InOrder, Hop;
    var f := st.wires[(u, v)][0];
    DeliverParts(net, st, u, v);
    HeadIsNext(net, st, u, v);
    OfSnoc(st.nodes[v].applied, f, o);
    assert st.nodes[o].applied + [] == st.nodes[o].applied;
  }

  lemma DeliverHonest(net: Net, st: State, u: Sid, v: Sid)
    requires IsTree(net) && Invariant(net, st) && CanDeliver(net, st, u, v)
    ensures Shaped(net, Deliver(net, st, u, v)) && Honest(net, Deliver(net, st, u, v))
  {
    hide IsTree, Of, InOrder, Flow, Informed, Receive, Deliver, Hop, Downstream, Known;
    var st' := Deliver(net, st, u, v);
    HeadIsNext(net, st, u, v);
    DeliverParts(net, st, u, v);
    DeliverAccepts(net, st, u, v);
    var f := st.wires[(u, v)][0];
    forall e | e in net.links
      ensures Known(net, st'.wires[e]) && Known(net, st'.crossed[e])
    {
      KnownStep(net, st.wires[e], f);
      KnownStep(net, st.crossed[e], f);
    }
    forall x | x in net.servers
      ensures Known(net, st'.nodes[x].applied)
    {
      KnownStep(net, st.nodes[x].applied, f);
    }
  }

  lemma KnownStep(net: Net, s: seq<Frame>, f: Frame)
    requires Known(net, s) && f.origin in net.servers
    ensures Known(net, s + [f]) && Known(net, s + []) && (s != [] ==> Known(net, s[1..]))
  {
  }

  lemma DeliverAccepts(net: Net, st: State, u: Sid, v: Sid)
    requires IsTree(net) && Invariant(net, st) && CanDeliver(net, st, u, v)
    ensures var st' := Deliver(net, st, u, v);
            st'.nodes.Keys == net.servers && forall x :: x in net.servers ==> st'.nodes[x].rejected == 0
  {
    hide IsTree, Of, InOrder, Flow, Informed, Receive;
    HeadIsAccepted(net, st, u, v);
  }

  lemma DeliverKeeps(net: Net, st: State, u: Sid, v: Sid)
    requires IsTree(net) && Invariant(net, st) && CanDeliver(net, st, u, v)
    ensures Invariant(net, Deliver(net, st, u, v))
  {
    hide Flow, Informed, IsTree, Receive, Of, InOrder, Downstream, Honest, Deliver;
    var st' := Deliver(net, st, u, v);
    DeliverHonest(net, st, u, v);
    forall o | o in net.servers
      ensures InOrder(Of(st'.nodes[o].applied, o))
    {
      DeliverInOrder(net, st, u, v, o);
    }
    forall o, a, b | o in net.servers && (a, b) in net.links
      ensures Flow(net, st', o, a, b)
    {
      DeliverFlow(net, st, u, v, o, a, b);
    }
    forall o, w | o in net.servers && w in net.servers
      ensures Informed(net, st', o, w)
    {
      DeliverInformed(net, st, u, v, o, w);
    }
  }

  // ---------------------------------------------------------------- every reachable state

  ghost predicate Next(net: Net, st: State, st': State) {
    IsIssue(net, st, st') || IsDelivery(net, st, st')
  }

  /** A schedule: any interleaving of local changes and deliveries. */
  ghost predicate Schedule(net: Net, run: seq<State>) {
    && run != [] && run[0] == Initial(net)
    && forall i :: 0 <= i < |run| - 1 ==> Next(net, run[i], run[i + 1])
  }

  ghost predicate Reachable(net: Net, st: State) {
    exists run :: Schedule(net, run) && run[|run| - 1] == st
  }

  lemma NextKeeps(net: Net, st: State, st': State)
    requires IsTree(net) && Invariant(net, st) && Next(net, st, st')
    ensures Invariant(net, st')
  {
    hide Invariant, IsTree, Issue, Deliver;
    if IsIssue(net, st, st') {
      var f :| CanIssue(net, st, f) && st' == Issue(net, st, f);
      IssueKeeps(net, st, f);
    } else {
      var u, v :| CanDeliver(net, st, u, v) && st' == Deliver(net, st, u, v);
      DeliverKeeps(net, st, u, v);
    }
  }

  lemma {:induction false} ScheduleInvariant(net: Net, run: seq<State>)
    requires IsTree(net) && Schedule(net, run)
    ensures Invariant(net, run[|run| - 1])
  {
    hide Invariant, IsTree, Next, Initial;
    if |run| == 1 {
      InitialInvariant(net);
    } else {
      var before := run[..|run| - 1];
      ScheduleInvariant(net, before);
      assert Next(net, run[|run| - 2], run[|run| - 1]);
      NextKeeps(net, before[|before| - 1], run[|run| - 1]);
    }
  }

  lemma ReachableInvariant(net: Net, st: State)
    requires IsTree(net) && Reachable(net, st)
    ensures Invariant(net, st)
  {
    var run :| Schedule(net, run) && run[|run| - 1] == st;
    ScheduleInvariant(net, run);
  }

  // ---------------------------------------------------------------------- the theorems

  ghost predicate NoRepeats(s: seq<Frame>) {
    forall i, j :: 0 <= i < j < |s| ==> s[i] != s[j]
  }

  lemma {:induction false} OfMember(s: seq<Frame>, i: nat)
    requires i < |s|
    ensures s[i] in Of(s, s[i].origin)
  {
    if i > 0 {
      OfMember(s[1..], i - 1);
      assert s[1..][i - 1] == s[i];
    }
  }

  lemma {:induction false} OfSubset(s: seq<Frame>, o: Sid, f: Frame)
    requires f in Of(s, o)
    ensures f in s
  {
    if s[0] != f {
      assert f in Of(s[1..], o);
      OfSubset(s[1..], o, f);
    }
  }

  lemma LastIsNew(l: seq<Frame>, f: Frame)
    requires InOrder(l + [f])
    ensures f !in l
  {
    assert (l + [f])[|l|].serial == |l|;
    forall k | 0 <= k < |l|
      ensures l[k] != f
    {
      assert (l + [f])[k].serial == k;
    }
  }

  /** A log that is in issue order for every origin holds no frame twice. */
  lemma InOrderNoRepeats(s: seq<Frame>)
    requires forall i :: 0 <= i < |s| ==> InOrder(Of(s, s[i].origin))
    ensures NoRepeats(s)
  {
    hide Of, InOrder;
    forall i, j | 0 <= i < j < |s|
      ensures s[i] != s[j]
    {
      var f, a, b := s[j], s[..j], s[j + 1..];
      var o := f.origin;
      OfSnoc(a, f, o);
      OfConcat(a + [f], b, o);
      assert s == a + [f] + b;
      PrefixInOrder(Of(a, o) + [f], Of(s, o));
      LastIsNew(Of(a, o), f);
      OfMember(a, i);
    }
  }

  /** A frame is applied at most once by each server, and in the order of its origin's changes. */
  lemma AppliedOnceInOrder(net: Net, st: State, o: Sid, v: Sid)
    requires IsTree(net) && Reachable(net, st) && o in net.servers && v in net.servers
    ensures Shaped(net, st)
    ensures Of(st.nodes[v].applied, o) <= Of(st.nodes[o].applied, o)
    ensures InOrder(Of(st.nodes[v].applied, o))
    ensures NoRepeats(st.nodes[v].applied)
  {
    hide IsTree, Of, Reachable, InOrder, NoRepeats;
    ReachableInvariant(net, st);
    var s := st.nodes[v].applied;
    forall p | p in net.servers
      ensures Of(s, p) <= Of(st.nodes[p].applied, p) && InOrder(Of(s, p))
    {
      LogIsPrefix(net, st, p, v);
      PrefixInOrder(Of(s, p), Of(st.nodes[p].applied, p));
    }
    assert Known(net, s);
    InOrderNoRepeats(s);
  }

  /**
   * A frame comes to a server only over its one link towards the origin, so never
   * back to the origin itself; and it crosses no link twice.
   */
  lemma CrossesOnceOutward(net: Net, st: State, u: Sid, v: Sid)
    requires IsTree(net) && Reachable(net, st) && (u, v) in net.links
    ensures Shaped(net, st) && v in net.servers
    ensures forall f :: f in st.wires[(u, v)] || f in st.crossed[(u, v)] ==>
                          f.origin in net.servers && Downstream(net, f.origin, u, v)
    ensures NoRepeats(st.crossed[(u, v)])
    ensures forall f :: f in st.crossed[(u, v)] ==> (v, u) in net.links && f !in st.crossed[(v, u)]
  {
    hide IsTree, Of, Reachable, InOrder, NoRepeats, Hop;
    ReachableInvariant(net, st);
    LinkEnds(net, u, v);
    forall f | f in st.wires[(u, v)] || f in st.crossed[(u, v)]
      ensures f.origin in net.servers && Downstream(net, f.origin, u, v)
    {
      CarriedIsDownstream(net, st, u, v, f);
    }
    forall f | f in st.crossed[(u, v)]
      ensures f !in st.crossed[(v, u)]
    {
      HopIsOneWay(net, f.origin, u, v);
      if f in st.crossed[(v, u)] {
        CarriedIsDownstream(net, st, v, u, f);
      }
    }
    var s := st.crossed[(u, v)];
    forall i | 0 <= i < |s|
      ensures InOrder(Of(s, s[i].origin))
    {
      var o := s[i].origin;
      assert s[i] in s;
      assert Flow(net, st, o, u, v);
      AppliedOnceInOrder(net, st, o, v);
    }
    InOrderNoRepeats(s);
  }

  lemma CarriedIsDownstream(net: Net, st: State, u: Sid, v: Sid, f: Frame)
    requires IsTree(net) && Invariant(net, st) && (u, v) in net.links
    requires f in st.wires[(u, v)] || f in st.crossed[(u, v)]
    requires f.origin in net.servers && v in net.servers
    ensures Downstream(net, f.origin, u, v)
  {
    hide IsTree, InOrder, Hop;
    InvariantFlow(net, st, f.origin, u, v);
    if f in st.wires[(u, v)] {
      var i :| 0 <= i < |st.wires[(u, v)]| && st.wires[(u, v)][i] == f;
      OfMember(st.wires[(u, v)], i);
    } else {
      var i :| 0 <= i < |st.crossed[(u, v)]| && st.crossed[(u, v)][i] == f;
      OfMember(st.crossed[(u, v)], i);
    }
  }

  ghost predicate Quiescent(net: Net, st: State) {
    Shaped(net, st) && forall e :: e in net.links ==> st.wires[e] == []
  }

  /** Once nothing is on the way, every server has applied every change ever issued. */
  lemma {:induction false} QuiescentIsComplete(net: Net, st: State, o: Sid, v: Sid)
    requires IsTree(net) && Reachable(net, st) && Quiescent(net, st) && o in net.servers && v in net.servers
    ensures Of(st.nodes[v].applied, o) == Of(st.nodes[o].applied, o)
    ensures forall f :: f in st.nodes[o].applied && f.origin == o ==>
                          && f in st.nodes[v].applied
                          && (v != o ==> (Hop(net, o, v), v) in net.links && f in st.crossed[(Hop(net, o, v), v)])
    decreases |Route(net, o, v)|
  {
    hide IsTree, Reachable, InOrder, Hop, Informed, Honest, Route;
    ReachableInvariant(net, st);
    if v != o {
      var u := Hop(net, o, v);
      HopIsNearer(net, o, v);
      InvariantFlow(net, st, o, u, v);
      QuiescentIsComplete(net, st, o, u);
      assert Of(st.nodes[v].applied, o) + [] == Of(st.nodes[v].applied, o);
      forall f | f in st.nodes[o].applied && f.origin == o
        ensures f in st.nodes[v].applied && f in st.crossed[(u, v)]
      {
        var i :| 0 <= i < |st.nodes[o].applied| && st.nodes[o].applied[i] == f;
        OfMember(st.nodes[o].applied, i);
        OfSubset(st.nodes[v].applied, o, f);
        OfSubset(st.crossed[(u, v)], o, f);
      }
    }
  }

  /** No honest frame is ever rejected, under every schedule. */
  lemma NothingIsRejected(net: Net, st: State, v: Sid)
    requires IsTree(net) && Reachable(net, st) && v in net.servers
    ensures Shaped(net, st) && st.nodes[v].rejected == 0
  {
    hide Reachable, IsTree;
    ReachableInvariant(net, st);
  }

  /** The frames issued so far, and the servers that have yet to apply each. */
  ghost function Issued(net: Net, st: State): set<Frame>
    requires Shaped(net, st)
  {
    set o, f | o in net.servers && f in st.nodes[o].applied && f.origin == o :: f
  }

  ghost function Outstanding(net: Net, st: State): set<(Sid, Frame)>
    requires Shaped(net, st)
  {
    set v, f | v in net.servers && f in Issued(net, st) && f !in st.nodes[v].applied :: (v, f)
  }

  /** Every delivery settles one outstanding pair for good, so deliveries run out. */
  lemma DeliverySettles(net: Net, st: State, u: Sid, v: Sid)
    requires IsTree(net) && Reachable(net, st) && CanDeliver(net, st, u, v)
    ensures Shaped(net, Deliver(net, st, u, v))
    ensures Outstanding(net, Deliver(net, st, u, v)) < Outstanding(net, st)
  {
    hide IsTree, Reachable, Deliver, InOrder, Hop, Informed, Honest, Flow;
    ReachableInvariant(net, st);
    var f, st' := st.wires[(u, v)][0], Deliver(net, st, u, v);
    DeliverParts(net, st, u, v);
    HeadIsNext(net, st, u, v);
    HeadIsIssued(net, st, u, v);
    HeadIsNew(net, st, u, v);
    forall x, g | x in net.servers && g in st'.nodes[x].applied && g.origin == x
      ensures g in Issued(net, st)
    {
      assert x == v ==> g != f;
    }
    assert (v, f) in Outstanding(net, st);
    assert (v, f) !in Outstanding(net, st') by {
      assert f in st.nodes[v].applied + [f];
    }
    forall p | p in Outstanding(net, st')
      ensures p in Outstanding(net, st)
    {
      assert p.1 in Issued(net, st);
    }
  }

  lemma HeadIsIssued(net: Net, st: State, u: Sid, v: Sid)
    requires IsTree(net) && Invariant(net, st) && CanDeliver(net, st, u, v)
    ensures st.wires[(u, v)][0] in Issued(net, st)
  {
    hide IsTree, InOrder, Informed;
    var f := st.wires[(u, v)][0];
    var o := f.origin;
    HeadIsNext(net, st, u, v);
    LinkEnds(net, u, v);
    InvariantFlow(net, st, o, u, v);
    assert Of(st.wires[(u, v)], o)[0] == f;
    LogIsPrefix(net, st, o, u);
    assert f in Of(st.nodes[u].applied, o);
    assert f in Of(st.nodes[o].applied, o);
    OfSubset(st.nodes[o].applied, o, f);
  }

  lemma HeadIsNew(net: Net, st: State, u: Sid, v: Sid)
    requires IsTree(net) && Invariant(net, st) && CanDeliver(net, st, u, v)
    ensures st.wires[(u, v)][0] !in st.nodes[v].applied
  {
    hide IsTree, Of, Invariant, Hop, InOrder;
    var f, s := st.wires[(u, v)][0], st.nodes[v].applied;
    HeadIsNext(net, st, u, v);
    LastIsNew(Of(s, f.origin), f);
    forall i | 0 <= i < |s|
      ensures s[i] != f
    {
      OfMember(s, i);
    }
  }
}
