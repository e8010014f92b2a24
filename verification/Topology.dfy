/** The gossiped view of the mesh, and the edge set it yields. */
module OverlayTopology {
  import opened Prelude
  import opened Order
  import opened Graph
  import opened SpanningTree
  import opened Stability
  import opened Kruskal

  /** What an agent publishes about itself; `updatedAt` is the receiver's clock. */
  datatype NodeInfo = NodeInfo(
    name: string, overlayIP: Addr, peerIPs: seq<Addr>, livePeerIPs: seq<Addr>, updatedAt: int)

  function NewEdge(x: Addr, y: Addr): Edge {
    if x == y || Less(x, y) then Edge(x, y) else Edge(y, x)
  }

  /** Both sides name a link alike, and no other link is named so. */
  lemma NewEdgeIsUndirected(x: Addr, y: Addr, u: Addr, v: Addr)
    ensures NewEdge(x, y) == NewEdge(u, v) <==> (x == u && y == v) || (x == v && y == u)
    ensures !Less(NewEdge(x, y).b, NewEdge(x, y).a)
  {
    LessTotal(x, y);
    LessTotal(u, v);
    if Less(x, y) && Less(y, x) { LessTransitive(x, y, x); }
    if Less(u, v) && Less(v, u) { LessTransitive(u, v, u); }
  }

  ghost predicate Reports(nodes: map<Addr, NodeInfo>, ip: Addr, peer: Addr) {
    ip in nodes && peer in nodes[ip].livePeerIPs
  }

  /** The links at least one endpoint reports live. */
  ghost function Reported(nodes: map<Addr, NodeInfo>): set<Edge> {
    set ip, peer | ip in nodes && peer in nodes[ip].livePeerIPs :: NewEdge(ip, peer)
  }

  /** The tree neighbours `me` computes from the view `nodes`. */
  ghost function Picks(nodes: map<Addr, NodeInfo>, me: Addr): set<Addr> {
    Neighbors(me, TreeOf(Reported(nodes)))
  }

  /** Which side reports a link makes no difference. */
  lemma EitherSideSuffices(nodes: map<Addr, NodeInfo>, x: Addr, y: Addr)
    ensures NewEdge(x, y) in Reported(nodes) <==> Reports(nodes, x, y) || Reports(nodes, y, x)
  {
    NewEdgeIsUndirected(x, y, y, x);
    if NewEdge(x, y) in Reported(nodes) {
      var ip, peer :| ip in nodes && peer in nodes[ip].livePeerIPs && NewEdge(x, y) == NewEdge(ip, peer);
      NewEdgeIsUndirected(x, y, ip, peer);
    }
  }

  /** Two views in which the same links are reported, by either side, give the same list of edges. */
  lemma SameLinksSameEdges(nodes: map<Addr, NodeInfo>, nodes': map<Addr, NodeInfo>, out: seq<Edge>, out': seq<Edge>)
    requires Ascending(Before, out) && Elems(out) == Reported(nodes)
    requires Ascending(Before, out') && Elems(out') == Reported(nodes')
    requires forall x, y ::
               Reports(nodes, x, y) || Reports(nodes, y, x) <==> Reports(nodes', x, y) || Reports(nodes', y, x)
    ensures out == out'
  {
    EdgesAreTotal();
    hide StrictTotal, Ascending;
    forall e
      ensures e in Reported(nodes) <==> e in Reported(nodes')
    {
      if e in Reported(nodes) {
        var x, y :| x in nodes && y in nodes[x].livePeerIPs && e == NewEdge(x, y);
        EitherSideSuffices(nodes, x, y);
        EitherSideSuffices(nodes', x, y);
      }
      if e in Reported(nodes') {
        var x, y :| x in nodes' && y in nodes'[x].livePeerIPs && e == NewEdge(x, y);
        EitherSideSuffices(nodes, x, y);
        EitherSideSuffices(nodes', x, y);
      }
    }
    AscendingIsUnique(Before, out, out');
  }

  /** What a purge leaves: the excluded node, and every entry no older than the cutoff. */
  ghost function Fresh(nodes: map<Addr, NodeInfo>, cutoff: int, exclude: Addr): map<Addr, NodeInfo> {
    map k | k in nodes && (k == exclude || nodes[k].updatedAt >= cutoff) :: nodes[k]
  }

  class Topology {
    var nodes: map<Addr, NodeInfo>

    constructor ()
      ensures nodes == map[]
    {
      nodes := map[];
    }

    method Set(info: NodeInfo, now: int)
      modifies this
      ensures nodes == old(nodes)[info.overlayIP := info.(updatedAt := now)]
    {
      nodes := nodes[info.overlayIP := info.(updatedAt := now)];
    }

    method PurgeStale(maxAge: int, exclude: Addr, now: int) returns (removed: nat)
      modifies this
      ensures nodes == Fresh(old(nodes), now - maxAge, exclude)
      ensures removed == |old(nodes)| - |nodes|
      ensures forall k :: k in nodes <==>
                k in old(nodes) && (k == exclude || !(old(nodes)[k].updatedAt < now - maxAge))
      ensures forall k :: k in nodes ==> nodes[k] == old(nodes)[k]
    {
      var cutoff := now - maxAge;
      ghost var before := nodes;
      removed := 0;
      var rest := nodes.Keys;
      while rest != {}
        invariant rest <= nodes.Keys <= before.Keys
        invariant forall k :: k in nodes ==> nodes[k] == before[k]
        invariant forall k :: k in before && k !in rest ==>
                    (k in nodes <==> k == exclude || before[k].updatedAt >= cutoff)
        invariant removed == |before.Keys| - |nodes.Keys|
        decreases |rest|
      {
        var k :| k in rest;
        rest := rest - {k};
        if k != exclude && nodes[k].updatedAt < cutoff {
          assert (nodes - {k}).Keys == nodes.Keys - {k};
          nodes := nodes - {k};
          removed := removed + 1;
        }
      }
      assert nodes == Fresh(before, cutoff, exclude);
    }

    method NodeIPs() returns (out: seq<Addr>)
      ensures Ascending(Less, out) && Elems(out) == nodes.Keys
    {
      out := SortedKeys(nodes.Keys);
    }

    /** Exactly the reported links, sorted, each once, for every order the map is iterated in. */
    method Edges() returns (out: seq<Edge>)
      ensures Ascending(Before, out)
      ensures Elems(out) == Reported(nodes)
    {
      hide Reported, LinksOf, NewEdge, StrictTotal;
      EdgesAreTotal();
      NoLinks();
      out := [];
      var seen: set<Edge> := {};
      var snap := nodes;
      ghost var done: map<Addr, NodeInfo> := map[];
      var rest := snap.Keys;
      while rest != {}
        invariant rest <= snap.Keys && done.Keys == snap.Keys - rest
        invariant forall k :: k in done ==> done[k] == snap[k]
        invariant seen == Elems(out) == Reported(done) && |seen| == |out|
        decreases |rest|
      {
        var ip :| ip in rest;
        rest := rest - {ip};
        var live := snap[ip].livePeerIPs;
        assert live[..0] == [];
        for i := 0 to |live|
          invariant seen == Elems(out) && |seen| == |out|
          invariant seen == Reported(done) + LinksOf(ip, live[..i])
        {
          var e := NewEdge(ip, live[i]);
          LinksOfOneMore(ip, live, i);
          if e !in seen {
            ElemsOfSnoc(out, e);
            seen := seen + {e};
            out := out + [e];
          }
        }
        assert live[..|live|] == live;
        ReportedOneMore(done, ip, snap[ip]);
        done := done[ip := snap[ip]];
      }
      assert done == snap;
      out := SortDistinct(Before, out);
    }
  }

  lemma NoLinks()
    ensures Reported(map[]) == {}
    ensures forall ip {:trigger LinksOf(ip, [])} :: LinksOf(ip, []) == {}
  {
  }

  ghost function LinksOf(ip: Addr, live: seq<Addr>): set<Edge> {
    set peer | peer in live :: NewEdge(ip, peer)
  }

  lemma LinksOfOneMore(ip: Addr, live: seq<Addr>, i: nat)
    requires i < |live|
    ensures LinksOf(ip, live[..i + 1]) == LinksOf(ip, live[..i]) + {NewEdge(ip, live[i])}
  {
  }

  lemma ReportedOneMore(nodes: map<Addr, NodeInfo>, ip: Addr, info: NodeInfo)
    requires ip !in nodes
    ensures Reported(nodes[ip := info]) == Reported(nodes) + LinksOf(ip, info.livePeerIPs)
  {
  }
}
