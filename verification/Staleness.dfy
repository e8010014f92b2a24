/** What an agent's view holds after any run of ticks: exactly the last record heard of each node,
    unless that is older than the staleness bound. */
module Staleness {
  import opened Prelude
  import opened Graph
  import opened OverlayTopology
  import opened Agent

  /** The records a tick stores, each stamped with its time, in order. */
  ghost function RepliesHeard(replies: seq<Reply>): seq<NodeInfo> {
    if replies == [] then []
    else
      var before := RepliesHeard(replies[..|replies| - 1]);
      match replies[|replies| - 1]
      case Failed => before
      case Heard(info, at) => before + [Stamp(info, at)]
  }

  ghost function TickHeard(input: TickInput): seq<NodeInfo> {
    match input
    case NoState => []
    case Polled(me, self, selfAt, replies, purgeAt) => [Stamp(self, selfAt)] + RepliesHeard(replies)
  }

  /** Everything ever stored over a run. */
  ghost function History(inputs: seq<TickInput>): seq<NodeInfo> {
    if inputs == [] then [] else History(inputs[..|inputs| - 1]) + TickHeard(inputs[|inputs| - 1])
  }

  ghost predicate HeardOf(h: seq<NodeInfo>, k: Addr) {
    exists i :: 0 <= i < |h| && h[i].overlayIP == k
  }

  /** The last record stored under `k`. */
  ghost function Last(h: seq<NodeInfo>, k: Addr): NodeInfo
    requires HeardOf(h, k)
  {
    if h[|h| - 1].overlayIP == k then h[|h| - 1] else Last(h[..|h| - 1], k)
  }

  /** The purge the view was last cut by. */
  ghost function LastPurge(inputs: seq<TickInput>): Option<int> {
    if inputs == [] then None
    else
      var i := inputs[|inputs| - 1];
      if i.Polled? then Some(i.purgeAt) else LastPurge(inputs[..|inputs| - 1])
  }

  /** The last purge that did not spare `k`: a tick spares the address its node has at that time. */
  ghost function LastCut(inputs: seq<TickInput>, k: Addr): Option<int> {
    if inputs == [] then None
    else
      var i := inputs[|inputs| - 1];
      if i.Polled? && i.me != k then Some(i.purgeAt) else LastCut(inputs[..|inputs| - 1], k)
  }

  /** Clocks do not run backwards: each tick falls after the purge before it, and ends with its own. */
  ghost predicate Timely(inputs: seq<TickInput>) {
    inputs == [] ||
    (var before, i := inputs[..|inputs| - 1], inputs[|inputs| - 1];
     Timely(before) &&
     (i.Polled? ==>
        && i.selfAt <= i.purgeAt
        && (forall r :: r in i.replies && r.Heard? ==> i.selfAt <= r.at <= i.purgeAt)
        && (LastPurge(before).Some? ==> LastPurge(before).value <= i.selfAt)))
  }

  /** No purge since has found the record too old. */
  ghost predicate Survives(inputs: seq<TickInput>, stale: int, k: Addr, info: NodeInfo) {
    LastCut(inputs, k).Some? ==> info.updatedAt >= LastCut(inputs, k).value - stale
  }

  /** The view is the history, less what the purges found too old. */
  ghost predicate Mirrors(nodes: map<Addr, NodeInfo>, h: seq<NodeInfo>, inputs: seq<TickInput>, stale: int) {
    forall k ::
      && (k in nodes <==> HeardOf(h, k) && Survives(inputs, stale, k, Last(h, k)))
      && (k in nodes ==> nodes[k] == Last(h, k))
  }

  lemma LastOfSnoc(h: seq<NodeInfo>, info: NodeInfo, k: Addr)
    ensures HeardOf(h + [info], k) <==> info.overlayIP == k || HeardOf(h, k)
    ensures info.overlayIP == k ==> Last(h + [info], k) == info
    ensures info.overlayIP != k && HeardOf(h, k) ==> Last(h + [info], k) == Last(h, k)
  {
    var g := h + [info];
    assert g[..|g| - 1] == h && g[|g| - 1] == info;
    if HeardOf(h, k) {
      var i :| 0 <= i < |h| && h[i].overlayIP == k;
      assert g[i].overlayIP == k;
    }
  }

  lemma StoreMirrors(nodes: map<Addr, NodeInfo>, h: seq<NodeInfo>, inputs: seq<TickInput>, stale: int, info: NodeInfo)
    requires Mirrors(nodes, h, inputs, stale) && Survives(inputs, stale, info.overlayIP, info)
    ensures Mirrors(StoreRecord(nodes, info), h + [info], inputs, stale)
  {
    forall k
      ensures HeardOf(h + [info], k) <==> info.overlayIP == k || HeardOf(h, k)
      ensures info.overlayIP == k ==> Last(h + [info], k) == info
      ensures info.overlayIP != k && HeardOf(h, k) ==> Last(h + [info], k) == Last(h, k)
    {
      LastOfSnoc(h, info, k);
    }
  }

  lemma {:induction false} StoreRepliesMirrors(
    nodes: map<Addr, NodeInfo>, h: seq<NodeInfo>, inputs: seq<TickInput>, stale: nat, replies: seq<Reply>)
    requires Timely(inputs) && Mirrors(nodes, h, inputs, stale)
    requires forall r :: r in replies && r.Heard? && LastPurge(inputs).Some? ==> LastPurge(inputs).value <= r.at
    ensures Mirrors(StoreReplies(nodes, replies), h + RepliesHeard(replies), inputs, stale)
    decreases |replies|
  {
    hide Timely, Mirrors;
    if replies == [] {
      assert h + RepliesHeard(replies) == h;
    } else {
      var before, r := replies[..|replies| - 1], replies[|replies| - 1];
      StoreRepliesMirrors(nodes, h, inputs, stale, before);
      if r.Heard? {
        CutsAreOld(inputs, r.info.overlayIP);
        StoreMirrors(StoreReplies(nodes, before), h + RepliesHeard(before), inputs, stale, Stamp(r.info, r.at));
        assert h + RepliesHeard(replies) == h + RepliesHeard(before) + [Stamp(r.info, r.at)];
      }
    }
  }

  /** No purge is later than the last. */
  lemma {:induction false} CutsAreOld(inputs: seq<TickInput>, k: Addr)
    requires Timely(inputs)
    ensures LastCut(inputs, k).Some? ==> LastPurge(inputs).Some? && LastCut(inputs, k).value <= LastPurge(inputs).value
    decreases |inputs|
  {
    if inputs != [] {
      CutsAreOld(inputs[..|inputs| - 1], k);
    }
  }

  lemma PurgeMirrors(
    nodes: map<Addr, NodeInfo>, h: seq<NodeInfo>, inputs: seq<TickInput>, stale: int, input: TickInput)
    requires Mirrors(nodes, h, inputs, stale) && input.Polled?
    requires forall k :: LastCut(inputs, k).Some? ==> LastCut(inputs, k).value <= input.purgeAt
    ensures Mirrors(Fresh(nodes, input.purgeAt - stale, input.me), h, inputs + [input], stale)
  {
  }

  lemma TickMirrors(
    nodes: map<Addr, NodeInfo>, h: seq<NodeInfo>, inputs: seq<TickInput>, stale: nat, input: TickInput)
    requires input.Polled? && Timely(inputs + [input]) && Mirrors(nodes, h, inputs, stale)
    ensures Mirrors(NodesAfter(nodes, stale, input), h + TickHeard(input), inputs + [input], stale)
  {
    assert (inputs + [input])[..|inputs|] == inputs;
    assert Timely(inputs);
    var own := Stamp(input.self, input.selfAt);
    forall k
      ensures LastCut(inputs, k).Some? ==>
                LastPurge(inputs).Some? && LastCut(inputs, k).value <= LastPurge(inputs).value
    {
      CutsAreOld(inputs, k);
    }
    hide Mirrors, Last, LastCut;
    StoreMirrors(nodes, h, inputs, stale, own);
    StoreRepliesMirrors(StoreRecord(nodes, own), h + [own], inputs, stale, input.replies);
    assert h + TickHeard(input) == h + [own] + RepliesHeard(input.replies);
    PurgeMirrors(StoreReplies(StoreRecord(nodes, own), input.replies), h + TickHeard(input), inputs, stale, input);
  }

  ghost function InputsOf(events: seq<Event>): seq<TickInput> {
    seq(|events|, i requires 0 <= i < |events| => events[i].input)
  }

  /** Bounded staleness, both ways: a node is known exactly while its last record is within the bound at
      every purge that did not take it for this node itself, and what is known of it is that record. */
  lemma {:induction false} ViewIsRecentHistory(stale: nat, states: seq<AgentState>, events: seq<Event>, n: nat)
    requires Run(stale, states, events) && n <= |events|
    requires Timely(InputsOf(events[..n]))
    ensures Mirrors(states[n].nodes, History(InputsOf(events[..n])), InputsOf(events[..n]), stale)
  {
    var inputs := InputsOf(events[..n]);
    if n > 0 {
      var before, input := InputsOf(events[..n - 1]), events[n - 1].input;
      assert inputs == before + [input] && inputs[..|inputs| - 1] == before && inputs[|inputs| - 1] == input;
      ViewIsRecentHistory(stale, states, events, n - 1);
      assert Step(stale, states[n - 1], input, states[n], events[n - 1].push);
      hide Run, Mirrors;
      if input.Polled? {
        TickMirrors(states[n - 1].nodes, History(before), before, stale, input);
      } else {
        assert History(inputs) == History(before);
        NoPurge(states[n].nodes, History(before), before, stale, input);
      }
    }
  }

  lemma NoPurge(nodes: map<Addr, NodeInfo>, h: seq<NodeInfo>, inputs: seq<TickInput>, stale: int, input: TickInput)
    requires input.NoState? && Mirrors(nodes, h, inputs, stale)
    ensures Mirrors(nodes, h, inputs + [input], stale)
  {
  }

  /** While a node's address stays the same, its own record is never purged, and every other one is held
      to the bound by the last purge of all. */
  lemma {:induction false} CutsOfOneAddress(inputs: seq<TickInput>, me: Addr, k: Addr)
    requires forall i :: i in inputs && i.Polled? ==> i.me == me
    ensures LastCut(inputs, k) == if k == me then None else LastPurge(inputs)
    decreases |inputs|
  {
    if inputs != [] {
      CutsOfOneAddress(inputs[..|inputs| - 1], me, k);
    }
  }

  /** A report of the link from `k` to `peer` that the bound still allows. */
  ghost predicate Backs(h: seq<NodeInfo>, inputs: seq<TickInput>, stale: int, k: Addr, peer: Addr) {
    HeardOf(h, k) && Survives(inputs, stale, k, Last(h, k)) && peer in Last(h, k).livePeerIPs
  }

  /** The edges the tree is computed from are exactly the links backed by a last record in bound. */
  lemma EdgesAreBacked(
    nodes: map<Addr, NodeInfo>, h: seq<NodeInfo>, inputs: seq<TickInput>, stale: int, x: Addr, y: Addr)
    requires Mirrors(nodes, h, inputs, stale)
    ensures NewEdge(x, y) in Reported(nodes) <==> Backs(h, inputs, stale, x, y) || Backs(h, inputs, stale, y, x)
  {
    EitherSideSuffices(nodes, x, y);
  }
}
