/** A link tree: servers, and the links between them in both directions. */
module Topology {
  type Sid = nat

  datatype Net = Net(servers: set<Sid>, links: set<(Sid, Sid)>)

  /** A walk along links that visits no server twice. */
  ghost predicate Path(net: Net, p: seq<Sid>, u: Sid, v: Sid) {
    && p != [] && p[0] == u && p[|p| - 1] == v
    && (forall i :: 0 <= i < |p| ==> p[i] in net.servers)
    && (forall i, j :: 0 <= i < j < |p| ==> p[i] != p[j])
    && (forall i :: 0 <= i < |p| - 1 ==> (p[i], p[i + 1]) in net.links)
  }

  ghost predicate Connected(net: Net, u: Sid, v: Sid) {
    exists p :: Path(net, p, u, v)
  }

  /** Between any two servers there is exactly one path. */
  ghost predicate IsTree(net: Net) {
    && (forall u, v :: (u, v) in net.links ==> u in net.servers && v in net.servers && u != v && (v, u) in net.links)
    && (forall u, v :: u in net.servers && v in net.servers ==> Connected(net, u, v))
    && (forall u, v, p, q :: Path(net, p, u, v) && Path(net, q, u, v) ==> p == q)
  }

  ghost function Route(net: Net, o: Sid, v: Sid): (p: seq<Sid>)
    requires IsTree(net) && o in net.servers && v in net.servers
    ensures Path(net, p, o, v)
  {
    assert Connected(net, o, v);
    var p :| Path(net, p, o, v);
    p
  }

  lemma RouteIs(net: Net, o: Sid, v: Sid, p: seq<Sid>)
    requires IsTree(net) && Path(net, p, o, v)
    ensures o in net.servers && v in net.servers && Route(net, o, v) == p
  {
    assert p[0] in net.servers && p[|p| - 1] in net.servers;
  }

  /** The neighbour of `v` towards `o`. */
  ghost function Hop(net: Net, o: Sid, v: Sid): Sid
    requires IsTree(net) && o in net.servers && v in net.servers && v != o
  {
    var p := Route(net, o, v);
    p[|p| - 2]
  }

  lemma RouteToSelf(net: Net, o: Sid)
    requires IsTree(net) && o in net.servers
    ensures Route(net, o, o) == [o]
  {
    assert Path(net, [o], o, o);
    RouteIs(net, o, o, [o]);
  }

  lemma HopIsNearer(net: Net, o: Sid, v: Sid)
    requires IsTree(net) && o in net.servers && v in net.servers && v != o
    ensures var u := Hop(net, o, v);
            && u in net.servers && (u, v) in net.links
            && Route(net, o, v) == Route(net, o, u) + [v]
  {
    var p := Route(net, o, v);
    var q := p[..|p| - 1];
    var u := p[|p| - 2];
    assert Path(net, q, o, u);
    RouteIs(net, o, u, q);
    assert p == q + [v];
    assert (p[|p| - 2], p[|p| - 1]) in net.links;
  }

  /** A neighbour of `v` that lies on the route to `v` is the last server before it. */
  lemma NeighbourOnRoute(net: Net, o: Sid, v: Sid, i: nat)
    requires IsTree(net) && o in net.servers && v in net.servers
    requires i < |Route(net, o, v)| && (Route(net, o, v)[i], v) in net.links
    ensures i == |Route(net, o, v)| - 2
  {
    var p := Route(net, o, v);
    assert i < |p| - 1;
    var q := p[..i + 1] + [v];
    assert Path(net, q, o, v);
    RouteIs(net, o, v, q);
  }

  lemma PathExtends(net: Net, p: seq<Sid>, o: Sid, v: Sid, w: Sid)
    requires IsTree(net) && Path(net, p, o, v) && (v, w) in net.links && w !in p
    ensures Path(net, p + [w], o, w)
  {
  }

  /** Away from `o`, every neighbour but the one towards `o` is one step further. */
  lemma HopOfNeighbour(net: Net, o: Sid, v: Sid, w: Sid)
    requires IsTree(net) && o in net.servers && (v, w) in net.links
    requires v != o ==> w != Hop(net, o, v)
    ensures v in net.servers && w in net.servers && w != o && Hop(net, o, w) == v
  {
    var p := Route(net, o, v);
    forall i | 0 <= i < |p|
      ensures p[i] != w
    {
      if p[i] == w {
        NeighbourOnRoute(net, o, v, i);
        RouteToSelf(net, o);
      }
    }
    PathExtends(net, p, o, v, w);
    RouteIs(net, o, w, p + [w]);
  }

  /** A link is crossed away from `o` in one direction only. */
  lemma HopIsOneWay(net: Net, o: Sid, u: Sid, v: Sid)
    requires IsTree(net) && o in net.servers && u in net.servers && v in net.servers
    requires v != o && u == Hop(net, o, v)
    ensures u != o ==> Hop(net, o, u) != v
  {
    HopIsNearer(net, o, v);
    if u != o {
      HopIsNearer(net, o, u);
    }
  }

  // -------------------------------------------------------------- how trees come about

  /** A server alone. */
  lemma OneServerIsTree(s: Sid)
    ensures IsTree(Net({s}, {}))
  {
    var net := Net({s}, {});
    assert Path(net, [s], s, s);
    forall u, v, p, q | Path(net, p, u, v) && Path(net, q, u, v)
      ensures p == q
    {
      OnlyOne(s, p, u, v);
      OnlyOne(s, q, u, v);
    }
  }

  lemma OnlyOne(s: Sid, p: seq<Sid>, u: Sid, v: Sid)
    requires Path(Net({s}, {}), p, u, v)
    ensures p == [s]
  {
  }

  /** A new server `x`, linked to `w`. */
  function Linked(net: Net, w: Sid, x: Sid): Net {
    Net(net.servers + {x}, net.links + {(w, x), (x, w)})
  }

  ghost predicate NewLink(net: Net, w: Sid, x: Sid) {
    IsTree(net) && w in net.servers && x !in net.servers
  }

  /** The new server's only neighbour is `w`. */
  lemma OnlyNeighbour(net: Net, w: Sid, x: Sid, a: Sid)
    requires NewLink(net, w, x) && ((a, x) in Linked(net, w, x).links || (x, a) in Linked(net, w, x).links)
    ensures a == w
  {
    hide Connected, Path;
  }

  /** A path that stays off `x` is a path of the old tree. */
  lemma OldPath(net: Net, w: Sid, x: Sid, p: seq<Sid>, u: Sid, v: Sid)
    requires NewLink(net, w, x) && Path(Linked(net, w, x), p, u, v)
    requires forall i :: 0 <= i < |p| ==> p[i] != x
    ensures Path(net, p, u, v)
  {
    hide IsTree;
    forall i | 0 <= i < |p| - 1
      ensures (p[i], p[i + 1]) in net.links
    {
      assert p[i] != x && p[i + 1] != x;
    }
  }

  lemma NewPath(net: Net, w: Sid, x: Sid, p: seq<Sid>, u: Sid, v: Sid)
    requires Path(net, p, u, v)
    ensures Path(Linked(net, w, x), p, u, v)
  {
  }

  /** `x` can only be an end of a path. */
  lemma OnlyAtEnds(net: Net, w: Sid, x: Sid, p: seq<Sid>, u: Sid, v: Sid, i: nat)
    requires NewLink(net, w, x) && Path(Linked(net, w, x), p, u, v) && 0 < i < |p| - 1
    ensures p[i] != x
  {
    hide IsTree;
    if p[i] == x {
      assert (p[i - 1], p[i - 1 + 1]) in Linked(net, w, x).links && (p[i], p[i + 1]) in Linked(net, w, x).links;
      OnlyNeighbour(net, w, x, p[i - 1]);
      OnlyNeighbour(net, w, x, p[i + 1]);
    }
  }

  /** What is left of a path without `x`: the whole, all but its last, or all but its first server. */
  lemma PathParts(net: Net, w: Sid, x: Sid, p: seq<Sid>, u: Sid, v: Sid)
    requires NewLink(net, w, x) && Path(Linked(net, w, x), p, u, v)
    ensures u != x && v != x ==> Path(net, p, u, v)
    ensures u != x && v == x ==> Path(net, p[..|p| - 1], u, w)
    ensures u == x && v != x ==> Path(net, p[1..], w, v)
    ensures u == x && v == x ==> p == [x]
  {
    hide IsTree;
    var now, n := Linked(net, w, x), |p|;
    forall i | 0 < i < n - 1
      ensures p[i] != x
    {
      OnlyAtEnds(net, w, x, p, u, v, i);
    }
    if u != x && v != x {
      OldPath(net, w, x, p, u, v);
    } else if u != x {
      assert (p[n - 2], p[n - 2 + 1]) in now.links;
      OnlyNeighbour(net, w, x, p[n - 2]);
      OldPath(net, w, x, p[..n - 1], u, w);
    } else if v != x {
      assert (p[0], p[0 + 1]) in now.links;
      OnlyNeighbour(net, w, x, p[1]);
      OldPath(net, w, x, p[1..], w, v);
    }
  }

  lemma LinkedIsUnique(net: Net, w: Sid, x: Sid, p: seq<Sid>, q: seq<Sid>, u: Sid, v: Sid)
    requires NewLink(net, w, x) && Path(Linked(net, w, x), p, u, v) && Path(Linked(net, w, x), q, u, v)
    ensures p == q
  {
    hide Connected;
    PathParts(net, w, x, p, u, v);
    PathParts(net, w, x, q, u, v);
    if u != x && v == x {
      assert p == p[..|p| - 1] + [x] && q == q[..|q| - 1] + [x];
    } else if u == x && v != x {
      assert p == [x] + p[1..] && q == [x] + q[1..];
    }
  }

  lemma LinkedIsConnected(net: Net, w: Sid, x: Sid, u: Sid, v: Sid)
    requires NewLink(net, w, x) && u in Linked(net, w, x).servers && v in Linked(net, w, x).servers
    ensures Connected(Linked(net, w, x), u, v)
  {
    var now := Linked(net, w, x);
    if u == x && v == x {
      assert Path(now, [x], x, x);
    } else if v == x {
      var p := Route(net, u, w);
      assert Path(now, p + [x], u, x);
    } else if u == x {
      var p := Route(net, w, v);
      assert Path(now, [x] + p, x, v);
    } else {
      NewPath(net, w, x, Route(net, u, v), u, v);
    }
  }

  /** Linking a server that was not in the tree keeps it a tree. */
  lemma LinkKeepsTree(net: Net, w: Sid, x: Sid)
    requires NewLink(net, w, x)
    ensures IsTree(Linked(net, w, x))
  {
    hide Connected, Path;
    var now := Linked(net, w, x);
    forall u, v | u in now.servers && v in now.servers
      ensures Connected(now, u, v)
    {
      LinkedIsConnected(net, w, x, u, v);
    }
    forall u, v, p, q | Path(now, p, u, v) && Path(now, q, u, v)
      ensures p == q
    {
      LinkedIsUnique(net, w, x, p, q, u, v);
    }
  }
}
