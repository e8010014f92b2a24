/** One agent: what a tick does to its view and its tree, and what holds over every run of ticks. */
module Agent {
  import opened Prelude
  import opened Order
  import opened Graph
  import opened Kruskal
  import opened OverlayTopology

  /** A poll of one peer: it fails, or yields a record stored at a time of the local clock. */
  datatype Reply = Failed | Heard(info: NodeInfo, at: int)

  /** What the world hands a tick: whether state.json loads, this node's own record, which a separate
      load computes, the replies in the order the peers are polled, and the time of the purge. */
  datatype TickInput =
    | NoState
    | Polled(me: Addr, self: NodeInfo, selfAt: int, replies: seq<Reply>, purgeAt: int)

  datatype AgentState = AgentState(nodes: map<Addr, NodeInfo>, lastTreeIPs: seq<Addr>)

  function Stamp(info: NodeInfo, at: int): NodeInfo {
    info.(updatedAt := at)
  }

  function StoreRecord(nodes: map<Addr, NodeInfo>, info: NodeInfo): map<Addr, NodeInfo> {
    nodes[info.overlayIP := info]
  }

  ghost function StoreReplies(nodes: map<Addr, NodeInfo>, replies: seq<Reply>): map<Addr, NodeInfo> {
    if replies == [] then nodes
    else
      var before := StoreReplies(nodes, replies[..|replies| - 1]);
      match replies[|replies| - 1]
      case Failed => before
      case Heard(info, at) => StoreRecord(before, Stamp(info, at))
  }

  ghost function NodesAfter(nodes: map<Addr, NodeInfo>, stale: int, input: TickInput): map<Addr, NodeInfo> {
    match input
    case NoState => nodes
    case Polled(me, self, selfAt, replies, purgeAt) =>
      Fresh(StoreReplies(StoreRecord(nodes, Stamp(self, selfAt)), replies), purgeAt - stale, me)
  }

  /** One tick. `push` is the neighbour list handed to `frr.Apply`, if it is called. */
  ghost predicate Step(stale: int, s: AgentState, input: TickInput, s': AgentState, push: Option<seq<Addr>>) {
    && s'.nodes == NodesAfter(s.nodes, stale, input)
    && (if input.NoState? then s'.lastTreeIPs == s.lastTreeIPs
        else Ascending(Less, s'.lastTreeIPs) && Elems(s'.lastTreeIPs) == Picks(s'.nodes, input.me))
    && push == if s'.lastTreeIPs == s.lastTreeIPs then None else Some(s'.lastTreeIPs)
  }

  method SameStrings(a: seq<string>, b: seq<string>) returns (same: bool)
    ensures same <==> a == b
  {
    if |a| != |b| {
      return false;
    }
    for i := 0 to |a|
      invariant forall k :: 0 <= k < i ==> a[k] == b[k]
    {
      if a[i] != b[i] {
        return false;
      }
    }
    return true;
  }

  class Agent {
    const topology: Topology
    const stale: int
    var lastTreeIPs: seq<Addr>

    constructor (stale: int)
      ensures State() == AgentState(map[], []) && this.stale == stale && fresh(topology)
    {
      topology := new Topology();
      this.stale := stale;
      lastTreeIPs := [];
    }

    ghost function State(): AgentState
      reads this, topology
    {
      AgentState(topology.nodes, lastTreeIPs)
    }

    method Tick(input: TickInput) returns (push: Option<seq<Addr>>)
      modifies this, topology
      ensures Step(stale, old(State()), input, State(), push)
      ensures push == if lastTreeIPs == old(lastTreeIPs) then None else Some(lastTreeIPs)
      ensures input.NoState? ==> State() == old(State())
      ensures input.Polled? ==> forall v :: v in lastTreeIPs <==> v in Picks(topology.nodes, input.me)
    {
      if input.NoState? {
        return None;
      }
      Poll(input);
      var treeIPs := LocalTree(input.me);
      var same := SameStrings(lastTreeIPs, treeIPs);
      lastTreeIPs := treeIPs;
      push := if same then None else Some(treeIPs);
    }

    /** The first half of a tick: own record, replies, purge. */
    method Poll(input: TickInput)
      requires input.Polled?
      modifies topology
      ensures topology.nodes == NodesAfter(old(topology.nodes), stale, input)
    {
      topology.Set(input.self, input.selfAt);
      ghost var own := topology.nodes;
      var replies := input.replies;
      for i := 0 to |replies|
        invariant topology.nodes == StoreReplies(own, replies[..i])
      {
        assert replies[..i + 1][..i] == replies[..i];
        if replies[i].Heard? {
          topology.Set(replies[i].info, replies[i].at);
        }
      }
      assert replies[..|replies|] == replies;
      var _ := topology.PurgeStale(stale, input.me, input.purgeAt);
    }

    /** The second half: nodes, edges, tree, this node's part of it. */
    method LocalTree(me: Addr) returns (treeIPs: seq<Addr>)
      ensures Ascending(Less, treeIPs) && Elems(treeIPs) == Picks(topology.nodes, me)
    {
      var ips := topology.NodeIPs();
      var edges := topology.Edges();
      var mst, _ := ComputeMST(ips, edges);
      treeIPs := LocalNeighbors(me, mst);
    }
  }

  /** A tick in a run, and the list it handed to `frr.Apply`, if any. */
  datatype Event = Event(input: TickInput, push: Option<seq<Addr>>)

  /** A run from a fresh agent: any inputs, any outcomes. */
  ghost predicate Run(stale: int, states: seq<AgentState>, events: seq<Event>) {
    && |states| == |events| + 1
    && states[0] == AgentState(map[], [])
    && forall i :: 0 <= i < |events| ==> Step(stale, states[i], events[i].input, states[i + 1], events[i].push)
  }
}
