/** Many agents ticking in any order over one mesh whose links and records stay the same, from any
    state at all and with any polls failing: what holds of the lists in use once the old has gone. */
module Mesh {
  import opened Prelude
  import opened Order
  import opened Graph
  import opened Forest
  import opened SpanningTree
  import opened OverlayTopology
  import opened PartialViews
  import opened RootMeshes
  import opened Agent

  /** `info` is what node `info.overlayIP` publishes, the clock aside. */
  ghost predicate Genuine(infos: map<Addr, NodeInfo>, info: NodeInfo) {
    info.overlayIP in infos && info.livePeerIPs == infos[info.overlayIP].livePeerIPs
  }

  /** A tick of `who`: its own record is its own, and every reply that arrives is genuine. */
  ghost predicate HonestInput(infos: map<Addr, NodeInfo>, who: Addr, input: TickInput) {
    input.Polled? ==>
      && input.me == who && input.self.overlayIP == who && Genuine(infos, input.self)
      && forall r :: r in input.replies && r.Heard? ==> Genuine(infos, r.info)
  }

  datatype Turn = Turn(who: Addr, input: TickInput)

  ghost predicate MeshStep(stale: int, infos: map<Addr, NodeInfo>, agents: map<Addr, AgentState>,
                           turn: Turn, agents': map<Addr, AgentState>)
  {
    && turn.who in agents && HonestInput(infos, turn.who, turn.input)
    && agents'.Keys == agents.Keys
    && (forall k :: k in agents && k != turn.who ==> agents'[k] == agents[k])
    && exists push :: Step(stale, agents[turn.who], turn.input, agents'[turn.who], push)
  }

  /** A run from any state: views and lists may hold anything when the records come to rest. */
  ghost predicate MeshRun(stale: int, infos: map<Addr, NodeInfo>,
                          states: seq<map<Addr, AgentState>>, turns: seq<Turn>)
  {
    && |states| == |turns| + 1
    && states[0].Keys == infos.Keys
    && forall i :: 0 <= i < |turns| ==> MeshStep(stale, infos, states[i], turns[i], states[i + 1])
  }

  lemma OneMoreTurn(stale: int, infos: map<Addr, NodeInfo>, states: seq<map<Addr, AgentState>>, turns: seq<Turn>,
                    turn: Turn, agents: map<Addr, AgentState>)
    requires MeshRun(stale, infos, states, turns)
    requires MeshStep(stale, infos, states[|turns|], turn, agents)
    ensures MeshRun(stale, infos, states + [agents], turns + [turn])
  {
  }

  /** Whatever the world hands the agents, they can take: every sequence of honest turns is a run. */
  lemma {:induction false} EveryTurnIsTaken(
    stale: int, infos: map<Addr, NodeInfo>, start: map<Addr, AgentState>, turns: seq<Turn>)
    returns (states: seq<map<Addr, AgentState>>)
    requires start.Keys == infos.Keys
    requires forall t :: t in turns ==> t.who in infos && HonestInput(infos, t.who, t.input)
    ensures MeshRun(stale, infos, states, turns) && states[0] == start
    decreases |turns|
  {
    if turns == [] {
      states := [start];
    } else {
      var before, turn := turns[..|turns| - 1], turns[|turns| - 1];
      var sofar := EveryTurnIsTaken(stale, infos, start, before);
      AgentsStay(stale, infos, sofar, before, |before|);
      var agents := sofar[|before|];
      var s', push := EveryInputIsTaken(stale, agents[turn.who], turn.input);
      assert Step(stale, agents[turn.who], turn.input, agents[turn.who := s'][turn.who], push);
      hide Step, HonestInput;
      assert MeshStep(stale, infos, agents, turn, agents[turn.who := s']);
      OneMoreTurn(stale, infos, sofar, before, turn, agents[turn.who := s']);
      assert turns == before + [turn];
      states := sofar + [agents[turn.who := s']];
    }
  }

  lemma EveryInputIsTaken(stale: int, s: AgentState, input: TickInput) returns (s': AgentState, push: Option<seq<Addr>>)
    ensures Step(stale, s, input, s', push)
  {
    var nodes := NodesAfter(s.nodes, stale, input);
    var list := s.lastTreeIPs;
    if input.Polled? { list := AscendingList(Picks(nodes, input.me)); }
    s' := AgentState(nodes, list);
    push := if list == s.lastTreeIPs then None else Some(list);
  }

  /** What `who` was handed the last time it got as far as polling. */
  ghost function LastPoll(turns: seq<Turn>, who: Addr): Option<TickInput> {
    if turns == [] then None
    else
      var turn := turns[|turns| - 1];
      if turn.who == who && turn.input.Polled? then Some(turn.input) else LastPoll(turns[..|turns| - 1], who)
  }

  ghost predicate HasTicked(turns: seq<Turn>, who: Addr) {
    exists i :: 0 <= i < |turns| && turns[i].who == who && turns[i].input.Polled?
  }

  /** `who` has purged with a cutoff no earlier than `since`. */
  ghost predicate HasPurged(stale: int, since: int, turns: seq<Turn>, who: Addr) {
    exists i :: 0 <= i < |turns| && turns[i].who == who && turns[i].input.Polled?
                && turns[i].input.purgeAt >= since + stale
  }

  /** Right, and of a node in `known`. */
  ghost predicate Current(infos: map<Addr, NodeInfo>, known: set<Addr>, k: Addr, info: NodeInfo) {
    k in known && k in infos && info.livePeerIPs == infos[k].livePeerIPs
  }

  ghost predicate Clean(infos: map<Addr, NodeInfo>, known: set<Addr>, nodes: map<Addr, NodeInfo>) {
    forall k :: k in nodes ==> Current(infos, known, k, nodes[k])
  }

  ghost predicate CleanSince(infos: map<Addr, NodeInfo>, known: set<Addr>, since: int, nodes: map<Addr, NodeInfo>) {
    forall k :: k in nodes ==> Current(infos, known, k, nodes[k]) || nodes[k].updatedAt < since
  }

  /** What is left of an arbitrary view is old, and goes with the first purge past it. */
  ghost predicate Sound(infos: map<Addr, NodeInfo>, known: set<Addr>, since: int, s: AgentState, who: Addr,
                        ticked: bool, purged: bool)
  {
    && CleanSince(infos, known, since, s.nodes)
    && (purged ==> Clean(infos, known, s.nodes))
    && (ticked ==> who in s.nodes && Current(infos, known, who, s.nodes[who])
                   && Ascending(Less, s.lastTreeIPs) && Elems(s.lastTreeIPs) == Picks(s.nodes, who))
  }

  ghost predicate HeardOnly(known: set<Addr>, input: TickInput) {
    input.Polled? ==> forall r :: r in input.replies && r.Heard? ==> r.info.overlayIP in known
  }

  lemma {:induction false} GenuineReplies(
    infos: map<Addr, NodeInfo>, known: set<Addr>, since: int,
    nodes: map<Addr, NodeInfo>, who: Addr, replies: seq<Reply>)
    requires CleanSince(infos, known, since, nodes) && who in nodes && Current(infos, known, who, nodes[who])
    requires forall r :: r in replies && r.Heard? ==> Genuine(infos, r.info) && r.info.overlayIP in known
    ensures var after := StoreReplies(nodes, replies);
            && CleanSince(infos, known, since, after) && (Clean(infos, known, nodes) ==> Clean(infos, known, after))
            && who in after && Current(infos, known, who, after[who])
    decreases |replies|
  {
    if replies != [] {
      GenuineReplies(infos, known, since, nodes, who, replies[..|replies| - 1]);
    }
  }

  lemma TickIsSound(stale: int, infos: map<Addr, NodeInfo>, known: set<Addr>, since: int, s: AgentState, who: Addr,
                    input: TickInput, s': AgentState, push: Option<seq<Addr>>, ticked: bool, purged: bool)
    requires HonestInput(infos, who, input) && HeardOnly(known, input) && who in known
    requires Step(stale, s, input, s', push) && Sound(infos, known, since, s, who, ticked, purged)
    ensures Sound(infos, known, since, s', who, ticked || input.Polled?,
                  purged || (input.Polled? && input.purgeAt >= since + stale))
  {
    if input.Polled? {
      var own := StoreRecord(s.nodes, Stamp(input.self, input.selfAt));
      GenuineReplies(infos, known, since, own, who, input.replies);
    }
  }

  ghost predicate HeardOnlyBy(known: set<Addr>, turns: seq<Turn>, who: Addr) {
    forall i :: 0 <= i < |turns| && turns[i].who == who ==> HeardOnly(known, turns[i].input)
  }

  /** From any view: what `who` knows is right or old. Once it has ticked it knows itself and follows
      its own tree, and once it has purged past `since`, or if it started clean, all it knows is right. */
  lemma {:induction false} EveryAgentIsSound(
    stale: int, infos: map<Addr, NodeInfo>, known: set<Addr>, since: int,
    states: seq<map<Addr, AgentState>>, turns: seq<Turn>, n: nat, who: Addr)
    requires MeshRun(stale, infos, states, turns) && n <= |turns| && who in infos && who in known
    requires HeardOnlyBy(known, turns[..n], who) && CleanSince(infos, known, since, states[0][who].nodes)
    ensures who in states[n]
    ensures Sound(infos, known, since, states[n][who], who, HasTicked(turns[..n], who),
                  Clean(infos, known, states[0][who].nodes) || HasPurged(stale, since, turns[..n], who))
    decreases n
  {
    if n > 0 {
      var turn := turns[n - 1];
      var before := turns[..n - 1];
      assert turns[..n] == before + [turn] && turns[..n][n - 1] == turn;
      forall i | 0 <= i < |before| && before[i].who == who
        ensures HeardOnly(known, before[i].input)
      {
        assert turns[..n][i] == before[i];
      }
      EveryAgentIsSound(stale, infos, known, since, states, turns, n - 1, who);
      assert MeshStep(stale, infos, states[n - 1], turn, states[n]);
      TickedSnoc(before, turn, who);
      PurgedSnoc(stale, since, before, turn, who);
      hide Sound, HasTicked, HasPurged, Clean, CleanSince, MeshRun;
      if turn.who == who {
        var push :| Step(stale, states[n - 1][who], turn.input, states[n][who], push);
        hide Step, HonestInput;
        TickIsSound(stale, infos, known, since, states[n - 1][who], who, turn.input, states[n][who], push,
                    HasTicked(before, who),
                    Clean(infos, known, states[0][who].nodes) || HasPurged(stale, since, before, who));
      }
    }
  }

  lemma {:induction false} AgentsStay(
    stale: int, infos: map<Addr, NodeInfo>, states: seq<map<Addr, AgentState>>, turns: seq<Turn>, n: nat)
    requires MeshRun(stale, infos, states, turns) && n <= |turns|
    ensures states[n].Keys == infos.Keys
  {
    if n > 0 {
      AgentsStay(stale, infos, states, turns, n - 1);
      assert MeshStep(stale, infos, states[n - 1], turns[n - 1], states[n]);
    }
  }

  lemma TickedSnoc(turns: seq<Turn>, turn: Turn, who: Addr)
    ensures HasTicked(turns + [turn], who) <==> HasTicked(turns, who) || (turn.who == who && turn.input.Polled?)
  {
    var more := turns + [turn];
    if HasTicked(turns, who) {
      var i :| 0 <= i < |turns| && turns[i].who == who && turns[i].input.Polled?;
      assert more[i].who == who;
    }
    assert more[|turns|] == turn;
  }

  lemma PurgedSnoc(stale: int, since: int, turns: seq<Turn>, turn: Turn, who: Addr)
    ensures HasPurged(stale, since, turns + [turn], who) <==>
            HasPurged(stale, since, turns, who)
            || (turn.who == who && turn.input.Polled? && turn.input.purgeAt >= since + stale)
  {
    var more := turns + [turn];
    if HasPurged(stale, since, turns, who) {
      var i :| 0 <= i < |turns| && turns[i].who == who && turns[i].input.Polled?
               && turns[i].input.purgeAt >= since + stale;
      assert more[i].who == who;
    }
    assert more[|turns|] == turn;
  }

  /** `who` has ticked, and what it held at the start was right or is purged: from a fresh start, one
      tick; from any state in which what was wrong was stored before `since`, a purge `stale` later. */
  ghost predicate Settled(stale: int, infos: map<Addr, NodeInfo>, known: set<Addr>, since: int,
                          states: seq<map<Addr, AgentState>>, turns: seq<Turn>, who: Addr)
    requires |states| > 0 && who in states[0]
  {
    var start := states[0][who].nodes;
    && HasTicked(turns, who) && CleanSince(infos, known, since, start)
    && (Clean(infos, known, start) || HasPurged(stale, since, turns, who))
  }

  /** What an agent that has settled is sure of. */
  lemma SettledAgent(
    stale: int, infos: map<Addr, NodeInfo>, known: set<Addr>, since: int,
    states: seq<map<Addr, AgentState>>, turns: seq<Turn>, n: nat, who: Addr)
    requires MeshRun(stale, infos, states, turns) && n <= |turns| && who in infos && who in known
    requires HeardOnlyBy(known, turns[..n], who) && Settled(stale, infos, known, since, states, turns[..n], who)
    ensures who in states[n] && ViewOf(states[n][who].nodes, infos, who) && states[n][who].nodes.Keys <= known
    ensures forall v :: v in states[n][who].lastTreeIPs <==> v in Picks(states[n][who].nodes, who)
    ensures Ascending(Less, states[n][who].lastTreeIPs)
  {
    EveryAgentIsSound(stale, infos, known, since, states, turns, n, who);
    hide HasTicked, HasPurged, MeshRun, Picks;
  }

  /** Whatever arrives is from a node of the mesh. */
  lemma AllAreOfTheMesh(
    stale: int, infos: map<Addr, NodeInfo>, states: seq<map<Addr, AgentState>>, turns: seq<Turn>, n: nat, who: Addr)
    requires MeshRun(stale, infos, states, turns) && n <= |turns|
    ensures HeardOnlyBy(infos.Keys, turns[..n], who)
  {
    forall i | 0 <= i < n
      ensures HeardOnly(infos.Keys, turns[..n][i].input)
    {
      assert turns[..n][i] == turns[i];
      assert MeshStep(stale, infos, states[i], turns[i], states[i + 1]);
    }
  }

  ghost function ViewsIn(agents: map<Addr, AgentState>): map<Addr, map<Addr, NodeInfo>> {
    map k | k in agents :: agents[k].nodes
  }

  /** The links some agent's current list forwards on. */
  ghost function InUse(agents: map<Addr, AgentState>): set<Edge> {
    set k, v | k in agents && v in agents[k].lastTreeIPs :: NewEdge(k, v)
  }

  /** In every reachable state in which all agents have settled, the lists in use connect exactly what
      the live links connect, whatever polls failed; and they form a tree exactly when every agent
      sees its detours. */
  lemma ListsInUseSpanTheMesh(
    stale: int, infos: map<Addr, NodeInfo>, since: int,
    states: seq<map<Addr, AgentState>>, turns: seq<Turn>, n: nat)
    requires MeshRun(stale, infos, states, turns) && n <= |turns|
    requires forall who :: who in infos ==> Settled(stale, infos, infos.Keys, since, states, turns[..n], who)
    ensures Spans(InUse(states[n]), Reported(infos))
    ensures Acyclic(InUse(states[n])) <==> SeesDetours(ViewsIn(states[n]), infos)
    ensures Acyclic(InUse(states[n])) <==> InUse(states[n]) == TreeOf(Reported(infos))
  {
    var agents := states[n];
    var views := ViewsIn(agents);
    AgentsStay(stale, infos, states, turns, n);
    forall who | who in infos
      ensures ViewOf(agents[who].nodes, infos, who)
      ensures forall v :: v in agents[who].lastTreeIPs <==> v in Picks(agents[who].nodes, who)
    {
      AllAreOfTheMesh(stale, infos, states, turns, n, who);
      SettledAgent(stale, infos, infos.Keys, since, states, turns, n, who);
    }
    hide MeshRun, Settled, InUse, Picks, Spans, Acyclic, ViewOf, SeesDetours, TreeOf, Reported;
    AgentsUseTheirPicks(infos, agents);
    PartialViewsKeepTheMeshConnected(views, infos);
    LoopFreeExactlyWhen(views, infos);
  }

  /** A node that has settled, whatever the others know, forwards on every global tree link it
      reports: a link both ends report is forwarded on from both. */
  lemma ReportedTreeLinkIsUsed(
    stale: int, infos: map<Addr, NodeInfo>, since: int,
    states: seq<map<Addr, AgentState>>, turns: seq<Turn>, n: nat, me: Addr, v: Addr)
    requires MeshRun(stale, infos, states, turns) && n <= |turns|
    requires me in infos && Settled(stale, infos, infos.Keys, since, states, turns[..n], me)
    requires Reports(infos, me, v) && NewEdge(me, v) in TreeOf(Reported(infos))
    ensures me in states[n] && v in states[n][me].lastTreeIPs
  {
    hide Settled, TreeOf, Reported, Picks;
    AllAreOfTheMesh(stale, infos, states, turns, n, me);
    SettledAgent(stale, infos, infos.Keys, since, states, turns, n, me);
    ReporterKeepsTreeEdge(states[n][me].nodes, infos, me, v);
  }

  lemma AgentsUseTheirPicks(infos: map<Addr, NodeInfo>, agents: map<Addr, AgentState>)
    requires agents.Keys == infos.Keys
    requires forall who {:trigger agents[who]} :: who in infos ==>
               && ViewOf(agents[who].nodes, infos, who)
               && forall v :: v in agents[who].lastTreeIPs <==> v in Picks(agents[who].nodes, who)
    ensures LocalViews(ViewsIn(agents), infos)
    ensures InUse(agents) == Chosen(ViewsIn(agents))
  {
    hide Picks, NewEdge, ViewOf;
    var views := ViewsIn(agents);
    forall k | k in agents
      ensures views[k] == agents[k].nodes
      ensures ViewOf(views[k], infos, k)
    {
      assert ViewOf(agents[k].nodes, infos, k);
    }
  }

  /** A round in which every live peer answered, in time to outlast its purge. */
  ghost predicate FullRound(stale: int, infos: map<Addr, NodeInfo>, who: Addr, input: TickInput)
    requires who in infos
  {
    && input.Polled?
    && (forall r :: r in input.replies && r.Heard? ==> r.at >= input.purgeAt - stale)
    && forall k :: k in Near(infos, who) && k != who ==> Answers(input.replies, k)
  }

  ghost predicate Answers(replies: seq<Reply>, k: Addr) {
    exists i :: 0 <= i < |replies| && replies[i].Heard? && replies[i].info.overlayIP == k
  }

  lemma {:induction false} AnswersAreStored(nodes: map<Addr, NodeInfo>, replies: seq<Reply>, cutoff: int, k: Addr)
    requires Answers(replies, k)
    requires forall r :: r in replies && r.Heard? ==> r.at >= cutoff
    ensures k in StoreReplies(nodes, replies) && StoreReplies(nodes, replies)[k].updatedAt >= cutoff
    decreases |replies|
  {
    var before, last := replies[..|replies| - 1], replies[|replies| - 1];
    if !(last.Heard? && last.info.overlayIP == k) {
      var i :| 0 <= i < |replies| && replies[i].Heard? && replies[i].info.overlayIP == k;
      assert before[i] == replies[i];
      AnswersAreStored(nodes, before, cutoff, k);
    }
  }

  lemma {:induction false} OwnRecordStays(nodes: map<Addr, NodeInfo>, replies: seq<Reply>, k: Addr)
    requires k in nodes
    ensures k in StoreReplies(nodes, replies)
    decreases |replies|
  {
    if replies != [] {
      OwnRecordStays(nodes, replies[..|replies| - 1], k);
    }
  }

  lemma FullRoundFillsTheView(
    stale: int, infos: map<Addr, NodeInfo>, nodes: map<Addr, NodeInfo>, who: Addr, input: TickInput)
    requires who in infos && HonestInput(infos, who, input) && FullRound(stale, infos, who, input)
    ensures Near(infos, who) <= NodesAfter(nodes, stale, input).Keys
  {
    var own := StoreRecord(nodes, Stamp(input.self, input.selfAt));
    OwnRecordStays(own, input.replies, who);
    forall k | k in Near(infos, who) && k != who
      ensures k in NodesAfter(nodes, stale, input)
    {
      AnswersAreStored(own, input.replies, input.purgeAt - stale, k);
    }
  }

  lemma {:induction false} LastRoundHolds(
    stale: int, infos: map<Addr, NodeInfo>, states: seq<map<Addr, AgentState>>, turns: seq<Turn>, n: nat, who: Addr)
    requires MeshRun(stale, infos, states, turns) && n <= |turns| && who in infos
    requires LastPoll(turns[..n], who).Some? && FullRound(stale, infos, who, LastPoll(turns[..n], who).value)
    ensures who in states[n] && Near(infos, who) <= states[n][who].nodes.Keys
    decreases n
  {
    var turn := turns[n - 1];
    assert turns[..n][..n - 1] == turns[..n - 1] && turns[..n][n - 1] == turn;
    assert MeshStep(stale, infos, states[n - 1], turn, states[n]);
    AgentsStay(stale, infos, states, turns, n - 1);
    hide FullRound, Near, NodesAfter;
    if turn.who == who && turn.input.Polled? {
      FullRoundFillsTheView(stale, infos, states[n - 1][who].nodes, who, turn.input);
    } else {
      LastRoundHolds(stale, infos, states, turns, n - 1, who);
      if turn.who == who { NothingWithoutState(stale, states[n - 1][who].nodes, turn.input); }
    }
  }

  lemma NothingWithoutState(stale: int, nodes: map<Addr, NodeInfo>, input: TickInput)
    requires input.NoState?
    ensures NodesAfter(nodes, stale, input) == nodes
  {
  }

  /** `who` has settled, hears only live peers, and in its last round heard them all. */
  ghost predicate InTouch(stale: int, infos: map<Addr, NodeInfo>, since: int,
                          states: seq<map<Addr, AgentState>>, turns: seq<Turn>, who: Addr)
    requires |states| > 0 && who in states[0] && who in infos
  {
    && Settled(stale, infos, Near(infos, who), since, states, turns, who)
    && HeardOnlyBy(Near(infos, who), turns, who)
    && LastPoll(turns, who).Some? && FullRound(stale, infos, who, LastPoll(turns, who).value)
  }

  /** After a full round everywhere, the lists in use are those of the polled views: what polling
      makes of the live links alone decides whether the mesh has a loop. */
  lemma FullRoundsGiveThePolledViews(
    stale: int, infos: map<Addr, NodeInfo>, since: int,
    states: seq<map<Addr, AgentState>>, turns: seq<Turn>, n: nat)
    requires MeshRun(stale, infos, states, turns) && n <= |turns|
    requires forall who :: who in infos ==> InTouch(stale, infos, since, states, turns[..n], who)
    ensures InUse(states[n]) == Chosen(PolledViews(infos))
    ensures Acyclic(InUse(states[n])) <==> forall u, v :: u in infos ==> DetoursAreNear(infos, u, v)
  {
    hide Settled, FullRound, HeardOnlyBy, DetoursAreNear, Acyclic, TreeOf;
    var agents := states[n];
    AgentsStay(stale, infos, states, turns, n);
    forall who | who in infos
      ensures forall v :: v in agents[who].lastTreeIPs <==> v in Picks(PolledViews(infos)[who], who)
    {
      assert InTouch(stale, infos, since, states, turns[..n], who);
      SettledAgent(stale, infos, Near(infos, who), since, states, turns, n, who);
      LastRoundHolds(stale, infos, states, turns, n, who);
      hide MeshRun, InTouch;
      PolledViewAt(infos, who);
      SameReports(agents[who].nodes, PolledViews(infos)[who]);
    }
    hide MeshRun, InTouch, Picks;
    assert agents.Keys == PolledViews(infos).Keys;
    PollingIsLoopFreeExactlyWhen(infos);
  }

  lemma SameReports(nodes: map<Addr, NodeInfo>, nodes': map<Addr, NodeInfo>)
    requires nodes.Keys == nodes'.Keys && forall k :: k in nodes ==> nodes[k].livePeerIPs == nodes'[k].livePeerIPs
    ensures Reported(nodes) == Reported(nodes')
  {
  }

  /** Two roots and any leaves: however the run went, once every node has heard its live peers, the
      lists in use are one loop-free tree. */
  lemma TwoRootMeshIsLoopFree(
    stale: int, infos: map<Addr, NodeInfo>, since: int,
    states: seq<map<Addr, AgentState>>, turns: seq<Turn>, n: nat, r: Addr, s: Addr)
    requires MeshRun(stale, infos, states, turns) && n <= |turns|
    requires forall who :: who in infos ==> InTouch(stale, infos, since, states, turns[..n], who)
    requires Symmetric(infos) && Rooted(infos, {r, s})
    ensures InUse(states[n]) == TreeOf(Reported(infos)) && Acyclic(InUse(states[n]))
  {
    hide MeshRun, InTouch, InUse, Chosen, TreeOf, Reported, Acyclic, Symmetric, Rooted;
    FullRoundsGiveThePolledViews(stale, infos, since, states, turns, n);
    TwoRootsAreLoopFree(infos, r, s);
  }

  /** A round of `who` in which every live peer of the mesh answers. */
  ghost function FullTick(infos: map<Addr, NodeInfo>, who: Addr): TickInput
    requires who in infos
  {
    var live := infos[who].livePeerIPs;
    Polled(who, infos[who], 0, seq(|live|, i requires 0 <= i < |live| => Answer(infos, live[i])), 0)
  }

  ghost function Answer(infos: map<Addr, NodeInfo>, ip: Addr): Reply {
    if ip in infos then Heard(infos[ip], 0) else Failed
  }

  /** Each record names its own node. */
  ghost predicate Named(infos: map<Addr, NodeInfo>) {
    forall k :: k in infos ==> infos[k].overlayIP == k
  }

  lemma FullTickIsFull(stale: nat, infos: map<Addr, NodeInfo>, who: Addr)
    requires who in infos && Named(infos)
    ensures HonestInput(infos, who, FullTick(infos, who)) && FullRound(stale, infos, who, FullTick(infos, who))
    ensures HeardOnly(Near(infos, who), FullTick(infos, who))
  {
    var live, replies := infos[who].livePeerIPs, FullTick(infos, who).replies;
    forall r | r in replies && r.Heard?
      ensures r.at == 0 && Genuine(infos, r.info) && r.info.overlayIP in Near(infos, who)
    {
      var i :| 0 <= i < |replies| && replies[i] == r;
      assert live[i] in live;
    }
    forall k | k in Near(infos, who) && k != who
      ensures Answers(replies, k)
    {
      var i :| 0 <= i < |live| && live[i] == k;
      assert replies[i].Heard? && replies[i].info.overlayIP == k;
    }
  }

  lemma {:induction false} LastPollIs(turns: seq<Turn>, who: Addr, input: TickInput)
    requires HasTicked(turns, who)
    requires forall t :: t in turns && t.who == who ==> t.input == input
    ensures LastPoll(turns, who) == Some(input)
    decreases |turns|
  {
    var n := |turns| - 1;
    if turns[n].who != who {
      var i :| 0 <= i < |turns| && turns[i].who == who && turns[i].input.Polled?;
      assert turns[..n][i] == turns[i];
      LastPollIs(turns[..n], who, input);
    } else {
      assert turns[n] in turns;
      var i :| 0 <= i < |turns| && turns[i].who == who && turns[i].input.Polled?;
      assert turns[i] in turns;
    }
  }

  ghost function FreshAgents(infos: map<Addr, NodeInfo>): map<Addr, AgentState> {
    map k | k in infos :: AgentState(map[], [])
  }

  ghost function FullTurn(infos: map<Addr, NodeInfo>, who: Addr): Turn {
    if who in infos then Turn(who, FullTick(infos, who)) else Turn(who, NoState)
  }

  lemma TouchedByItsTurn(
    stale: nat, infos: map<Addr, NodeInfo>,
    states: seq<map<Addr, AgentState>>, turns: seq<Turn>, order: seq<Addr>, who: Addr)
    requires Named(infos) && |states| > 0 && states[0] == FreshAgents(infos) && who in infos && who in order
    requires |turns| == |order| && forall i :: 0 <= i < |order| ==> turns[i] == FullTurn(infos, order[i])
    ensures InTouch(stale, infos, 0, states, turns, who)
  {
    FullTickIsFull(stale, infos, who);
    hide FullTick, FullRound, HeardOnly, Near;
    var at :| 0 <= at < |order| && order[at] == who;
    assert turns[at].who == who && turns[at].input.Polled? by { FullTickPolls(infos, who); }
    LastPollIs(turns, who, FullTick(infos, who));
  }

  lemma FullTickPolls(infos: map<Addr, NodeInfo>, who: Addr)
    requires who in infos
    ensures FullTick(infos, who).Polled?
  {
  }

  /** Every mesh has a run from fresh agents after which each node has heard all its live peers. */
  lemma EveryMeshGetsInTouch(stale: nat, infos: map<Addr, NodeInfo>)
    returns (states: seq<map<Addr, AgentState>>, turns: seq<Turn>)
    requires Named(infos)
    ensures MeshRun(stale, infos, states, turns) && states[0] == FreshAgents(infos)
    ensures forall who :: who in infos ==> InTouch(stale, infos, 0, states, turns, who)
  {
    var order := AscendingList(infos.Keys);
    assert forall k :: k in infos <==> k in Elems(order);
    turns := seq(|order|, i requires 0 <= i < |order| => FullTurn(infos, order[i]));
    hide FullTick, Answer, HonestInput, FullRound, Near, Ascending, InTouch, MeshRun, FreshAgents, Named;
    forall t | t in turns
      ensures t.who in infos && t.input == FullTick(infos, t.who)
      ensures HonestInput(infos, t.who, t.input)
    {
      var i :| 0 <= i < |turns| && turns[i] == t;
      assert order[i] in Elems(order);
      FullTickIsFull(stale, infos, t.who);
    }
    states := EveryTurnIsTaken(stale, infos, FreshAgents(infos), turns);
    forall who | who in infos
      ensures InTouch(stale, infos, 0, states, turns, who)
    {
      TouchedByItsTurn(stale, infos, states, turns, order, who);
    }
  }
}
