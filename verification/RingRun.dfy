/** Rings over whole runs: whatever happens, every link of a ring ends up in use. */
module RingRun {
  import opened Graph
  import opened Forest
  import opened OverlayTopology
  import opened PartialViews
  import opened Agent
  import opened Mesh
  import opened Ring

  /** A tick of one ring node in which both neighbours answer. */
  ghost function RingTick(ring: seq<Addr>, i: nat): TickInput
    requires IsRing(ring) && i < |ring|
  {
    var infos := RingInfos(ring);
    InfoAt(ring, i);
    InfoAt(ring, Prev(ring, i));
    InfoAt(ring, Next(ring, i));
    Polled(ring[i], infos[ring[i]], 0,
           [Heard(infos[ring[Prev(ring, i)]], 0), Heard(infos[ring[Next(ring, i)]], 0)], 0)
  }

  lemma RingTickIsHonest(ring: seq<Addr>, i: nat)
    requires IsRing(ring) && i < |ring|
    ensures ring[i] in RingInfos(ring) && HonestInput(RingInfos(ring), ring[i], RingTick(ring, i))
    ensures RingTick(ring, i).Polled? && HeardOnly(Near(RingInfos(ring), ring[i]), RingTick(ring, i))
  {
    hide IsRing, RingInfos, Near;
    InfoAt(ring, i);
    InfoAt(ring, Prev(ring, i));
    InfoAt(ring, Next(ring, i));
    SidesAreNear(ring, i);
  }

  /** In every run over a ring, whatever polls fail and whatever the agents held before, every state
      in which all have settled has the whole ring in use. */
  lemma EveryRunLeavesTheRingInUse(
    ring: seq<Addr>, stale: int, since: int, states: seq<map<Addr, AgentState>>, turns: seq<Turn>, n: nat)
    requires IsRing(ring) && MeshRun(stale, RingInfos(ring), states, turns) && n <= |turns|
    requires forall who :: who in RingInfos(ring) ==>
               var near := Near(RingInfos(ring), who);
               && HeardOnlyBy(near, turns[..n], who)
               && Settled(stale, RingInfos(ring), near, since, states, turns[..n], who)
    ensures InUse(states[n]) == RingLinks(ring) == Reported(RingInfos(ring)) && !Acyclic(InUse(states[n]))
  {
    hide IsRing, RingLinks, Picks, Settled, Acyclic, InUse, ViewOf, SeesDetours, Reported, Near, RingInfos, HeardOnlyBy;
    var infos, agents := RingInfos(ring), states[n];
    AgentsStay(stale, infos, states, turns, n);
    forall who | who in infos
      ensures ViewOf(agents[who].nodes, infos, who) && agents[who].nodes.Keys <= Near(infos, who)
      ensures forall v :: v in agents[who].lastTreeIPs <==> v in Picks(agents[who].nodes, who)
    {
      SelfIsNear(infos, who);
      SettledAgent(stale, infos, Near(infos, who), since, states, turns, n, who);
    }
    hide MeshRun;
    AgentsUseTheirPicks(infos, agents);
    assert NearViews(ViewsIn(agents), infos);
    RingsStayLoops(ring, ViewsIn(agents));
  }

  /** One such run: every node ticks once, every node hears both its neighbours, no poll fails. */
  lemma RingReachesALoop(ring: seq<Addr>, stale: nat)
    returns (states: seq<map<Addr, AgentState>>, turns: seq<Turn>)
    requires IsRing(ring)
    ensures MeshRun(stale, RingInfos(ring), states, turns)
    ensures forall k :: k in states[0] ==> states[0][k] == AgentState(map[], [])
    ensures |turns| == |ring|
    ensures forall i :: 0 <= i < |ring| ==> turns[i] == Turn(ring[i], RingTick(ring, i))
    ensures InUse(states[|turns|]) == RingLinks(ring) && !Acyclic(InUse(states[|turns|]))
  {
    hide IsRing, RingInfos, RingTick, Acyclic, InUse, HonestInput, HeardOnly, RingLinks;
    var infos := RingInfos(ring);
    turns := seq(|ring|, i requires 0 <= i < |ring| => Turn(ring[i], RingTick(ring, i)));
    forall t | t in turns
      ensures t.who in infos && HonestInput(infos, t.who, t.input)
    {
      var i :| 0 <= i < |ring| && turns[i] == t;
      RingTickIsHonest(ring, i);
    }
    states := EveryTurnIsTaken(stale, infos, FreshAgents(infos), turns);
    assert turns[..|turns|] == turns;
    forall who | who in infos
      ensures HeardOnlyBy(Near(infos, who), turns, who)
      ensures Settled(stale, infos, Near(infos, who), 0, states, turns, who)
    {
      AllTickNearby(ring, turns, who);
    }
    hide MeshRun, Settled, HeardOnlyBy;
    EveryRunLeavesTheRingInUse(ring, stale, 0, states, turns, |turns|);
  }

  lemma AllTickNearby(ring: seq<Addr>, turns: seq<Turn>, who: Addr)
    requires IsRing(ring) && |turns| == |ring| && who in RingInfos(ring)
    requires forall i :: 0 <= i < |ring| ==> turns[i] == Turn(ring[i], RingTick(ring, i))
    ensures HasTicked(turns, who) && HeardOnlyBy(Near(RingInfos(ring), who), turns, who)
  {
    hide RingTick, HeardOnly, Near;
    var at := Place(ring, who);
    RingTickIsHonest(ring, at);
    assert turns[at].who == who;
    forall i | 0 <= i < |turns| && turns[i].who == who
      ensures HeardOnly(Near(RingInfos(ring), who), turns[i].input)
    {
      RingTickIsHonest(ring, i);
    }
  }
}
