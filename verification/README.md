# l2mesh in Dafny

l2mesh keeps a WireGuard overlay, a VXLAN bridge on top of it, and an agent on every node that gossips
which links are alive and computes a spanning tree of them. This project models that machinery and
proves what it promises, and where it does not keep a promise, exactly when it does.

## The parts

| files | what they hold |
|---|---|
| `Prelude.dfy`, `Order.dfy` | small datatypes; string and edge order, what `sort` promises |
| `Graph.dfy`, `Forest.dfy` | walks, connectivity, acyclic edge sets, counting components |
| `SpanningTree.dfy` | `TreeOf(E)`: the edges whose ends no smaller edges connect; it is acyclic and spans |
| `Optimality.dfy`, `Stability.dfy` | why that forest is the minimum and the only one; what losing a link does to it |
| `UnionFind.dfy`, `Kruskal.dfy` | `unionFind` as a class with mutable maps, `ComputeMST`, `LocalNeighbors` |
| `Topology.dfy`, `Agent.dfy`, `Staleness.dfy` | the gossip view and the agent as classes, and runs of ticks |
| `TreeOrder.dfy` | what the order of addresses decides about the tree |
| `Views.dfy`, `Roots.dfy`, `Ring.dfy` | many agents whose views differ: when they agree, and the meshes where they do not |
| `Mesh.dfy`, `RingRun.dfy` | runs of a whole mesh from any state |
| `Flooding.dfy`, `FloodEnds.dfy`, `FloodWays.dfy` | flooding over neighbour lists: over trees, which floods end, and over any lists at all |
| `MeshFlood.dfy`, `FloodCases.dfy` | flooding over the lists of a mesh run; rings, three roots and one-sided links |
| `Store.dfy`, `Lock.dfy`, `LockProgress.dfy`, `StoreRuns.dfy` | the peer store, the `WithLock` protocol, why no one is locked out of it, and all together |
| `Kernel.dfy`, `Transactions.dfy` | kernel peers, `peer add` and `peer remove`, incremental against full sync |
| `KernelRuns.dfy`, `KernelLosses.dfy` | the kernel beside the locked store with syncs, failures and crashes, and the runs that lose it |
| `Config.dfy`, `ConfigText.dfy` | the rendered FRR configuration, read back from words and from text |
| `FrrReader.dfy`, `FrrRuns.dfy` | a reader that runs a configuration line by line, and the router it makes of the rendered one |
| `Filter.dfy` | the filter over runs of ticks, commands and restarts |

The centre is `TreeOf`. `ComputeMST` is proved to return it for every input, so everything proved about
`TreeOf` is about the program's result: it depends on the set of edges alone, it is minimum, unique and
acyclic, an agent that sees fewer edges never drops a tree edge it sees, and losing a link changes one
edge for one. Which tree it is the order of the addresses decides, and they are compared as text: the least address
keeps all its links (`TreeOrder.LeastKeepsItsLinks`), and of "100.64.0.10", "100.64.0.2" and "100.64.0.3" the first
is the least (`TreeOrder.LongAddressComesFirst`).

What is written is proved to do what it is meant to. In every run of `WithLock`, failures and crashes included, whoever
waits can still be served, and any command can be carried out on the state committed then
(`LockProgress.EveryWaiterIsServed`, `StoreRuns.EveryCommandIsServed`). The FRR configuration, run line by line, sets
up exactly the router meant (`FrrRuns.RendersTheIntendedRouter`), which takes in a multicast route exactly from the
configured peers on the list, and any other from all of them (`FrrRuns.AcceptsExactlyWhen`).

## What the model found

- **Agents do not always agree on a tree.** README.md:174 says all nodes converge to the same tree. They do
  when they know the same edges (`PartialViews.EqualEdgesAgree`), but `/info` returns only the sender's own
  record, so views differ. Partial views never disconnect the mesh
  (`PartialViews.PartialViewsKeepTheMeshConnected`). After full rounds the live links alone decide whether
  the links kept are loop-free: exactly when, around every node, a detour of smaller links anywhere implies one
  among the links that node or its live peers report (`PartialViews.PollingIsLoopFreeExactlyWhen`).
- **Two roots are loop-free where links are live at both ends.** Then polling gives two roots with any leaves
  one tree, as README.md:208 says (`RootMeshes.TwoRootsAreLoopFree`). Three roots can loop even when all are live
  to each other, at both ends (`RootMeshes.ThreeRootsCanLoop`). Where only one end reports a link, as
  internal/agent/topology.go:90-95 allows for, the links in use can have a cycle with two roots as well
  (`RootMeshes.OneSidedRootsCanLoop`; `PartialViews.PollingIsLoopFreeExactlyWhen` is the exact condition there).
  In that mesh no frame comes to a node twice all the same. What fails is reach: a frame from a root goes
  nowhere (`FloodCases.OneSidedFramesGoNowhere`). Of lists held at one end, what decides is the number of ways
  from node to node (`FloodingWays.NeverTwiceOverAnyLists`).
- **Rings of five or more stay loops.** No agent sees a detour around any link of its own, and in every run over
  such a ring, whatever polls fail, every settled state has the whole ring in use
  (`RingRun.EveryRunLeavesTheRingInUse`).
- **A cycle in the lists means frames that circle for ever.** In every settled mesh with links live at both ends,
  no frame comes to a node twice if and only if the links in use have no cycle
  (`MeshFlooding.FramesNeverTwiceExactlyWhen`). A flood ends if and only if no list around its source holds a link
  beside the tree, and then after one delivery less than there are nodes to reach; otherwise every flood from
  there goes on for ever (`MeshFlooding.FloodsEndExactlyWhen`). So it does from every node of a ring of five or
  more (`FloodCases.RingFramesCircle`) and of the three-root mesh (`FloodCases.ThreeRootFramesCircle`), the kind
  of loop that README.md:192-194 warns of. Ended or not, a flood can always still come to exactly the nodes that live
  links connect to its source (`MeshFlooding.FloodsReachTheComponent`).
- **A failed `frr.Apply` is not retried, commands lift the filter, and restarts leave the old one.** `tick`
  remembers the list before applying it, and pushes only when the list changes; `peer add`, `peer remove` and
  `sync` render with no list, which opens every peer; and an agent that starts anew has an empty list, while FRR
  keeps its filter. When no apply fails, FRR follows the tree throughout a run exactly when it does at the start and every command and
  restart after a push comes while every configured peer is on the agent's list
  (`FilterRuns.WithoutFailures`; with failures, `FilterRuns.FollowsTheTreeExactlyWhen`). Once out of step, no
  tick pushes for as long as the list stays the same (`FilterRuns.FailedApplyIsNotRetried`,
  `FilterRuns.LiftedFilterStaysLifted`); an agent restarted into an empty tree never pushes
  (`FilterRuns.EmptyTreeIsNeverPushed`). The same holds of the whole configuration, neighbours included
  (`FilterRuns.RunsTheWantedExactlyWhen`): after a `peer add` whose reload fails, no tick gives FRR the neighbour
  while the list stays the same (`FilterRuns.MissingNeighbourRun`).
- **The command line takes any text for an address.** The text written for FRR tells the configuration exactly
  when the node's name and address and every peer's address are not empty and hold no blank or line end
  (`ConfigText.ConfigurationIsToldExactlyWhen`).
- **An empty list is a list.** A comment in internal/frr/frr.go:120-122 says the agent's first tick passes no
  list. The code never does: an empty tree is passed as an empty list, which blocks every peer, and on the
  first tick it is not passed at all, because it equals the empty list the agent starts with. The model
  follows the code.
- **Uniqueness is of texts.** The store takes two spellings of one key, or of one address, for two peers.
  Removing one spelling of a key removes the other's kernel entry (`Transactions.TwoSpellingsOfOneKey`); removing
  one spelling of an address leaves the other peer without it (`Transactions.TwoSpellingsOfOneAddress`).
  `Kernel.RemoveAgreesExactlyWhen` and `Kernel.AddAgreesExactlyWhen` say exactly when an incremental update
  still equals a sync.
- **The kernel is updated before the file is saved, updates that fail only warn, and `sync` takes no lock.** For
  peers that decode, and decode apart, the kernel is in step with the store throughout a run exactly if no process
  fails or crashes between its kernel update and its rename, no successful command's update fails, and every sync
  that works installs the entries of the store the kernel should show at that moment
  (`KernelRuns.KernelTracksExactlyWhen`). Each of these four ways to lose it has a run that ends with the lock free
  and the kernel unlike state.json: a command that gives up after its update (`KernelLosses.AbortRun`), one whose
  kernel call fails, as with a missing interface (`KernelLosses.MissedUpdateRun`), a sync that installs what it read
  before a commit (`KernelLosses.LateSyncRun`), and one that installs the committed state in the middle of a
  command (`KernelLosses.MidCommandRun`). A later sync that works repairs any of them (`KernelRuns.SyncRepairs`), and
  one can always come (`KernelRuns.SyncCanRepair`).
- **One bad address stops every sync.** `AddPeer` checks the key only; `Sync` needs every peer to decode
  (`Transactions.SyncWorksAfterAdd`).

## Model

| member | source | states |
|---|---|---|
| UnionFind.DisjointSets.Find | internal/agent/mst.go:66-75 | Returns the class representative; path compression changes no class and no rank, a missing key becomes a singleton, and the recursion makes at most floor(log2 n) + 1 calls |
| UnionFind.DisjointSets.Union | internal/agent/mst.go:77-93 | True exactly when the two classes were distinct; afterwards the classes are the components of all pairs joined so far, the new pair included, ranks rise along parents and a root of rank k holds at least 2^k keys |
| UnionFind.DisjointSets.SameIsConnected | internal/agent/mst.go:55-93 | After any sequence of calls, keys never registered included, two keys are in one class exactly when the joined pairs connect them |
| UnionFind.RankIsLogarithmic | internal/agent/mst.go:84-91 | A root's rank is at most the logarithm of the number of keys |
| Kruskal.ComputeMST | internal/agent/mst.go:5-29 | For all inputs the result is strictly ordered and is, as a set, exactly the edges whose ends no smaller input edges connect; at most 2·E·(floor(log2 V) + 1) find calls |
| Kruskal.AgentsAgree | internal/agent/mst.go:5-8 | The same edge set gives the same list whatever the node list, order or repetitions, of length nodes minus components |
| Kruskal.SelfLoopsAreIgnored | internal/agent/mst.go:24-26 | A self-loop in the input never changes the result |
| Kruskal.LocalNeighbors | internal/agent/mst.go:31-48 | The sorted, duplicate-free list of exactly the nodes adjacent to `me` |
| Kruskal.NeighborsAreTheTree | internal/agent/mst.go:31-48 | The lists of all nodes are symmetric and irreflexive, and together are exactly the tree |
| Order.LessAtFirstDifference | internal/agent/topology.go:25-30 | Addresses are compared as text at their first difference, and a proper prefix comes first, whatever the lengths |
| TreeOrder.BeforeAtFirstDifference | internal/agent/mst.go:14-19 | Edges are compared so at their lower ends, and at their upper ends where those are the same |
| TreeOrder.JoinedLowerIsOut | internal/agent/mst.go:12-29 | A link whose ends are joined by links with smaller lower ends is not in the result |
| TreeOrder.LeastKeepsItsLinks | internal/agent/mst.go:12-29 | Every link at the least address is in the result, with that address as its lower end |
| TreeOrder.FullMeshIsAStar | internal/agent/mst.go:5-48 | Where all are live to all, the least address lists everyone else and everyone else lists it alone |
| TreeOrder.LongAddressComesFirst | internal/agent/mst.go:5-48 | So of "100.64.0.10", "100.64.0.2" and "100.64.0.3" it is the first that the others hang on |
| SpanningTree.TreeIsSpanningForest | internal/agent/mst.go:5-29 | The result is an acyclic subset that connects exactly what the input connects |
| SpanningTree.TreeSize | internal/agent/mst.go:22-28 | It has nodes minus components many edges |
| SpanningTree.OmittedEdgeIsBridged | internal/agent/mst.go:23-27 | The ends of every omitted edge are joined by smaller tree edges |
| SpanningTree.TreeAntitone | internal/agent/mst.go:12-29 | With fewer edges in sight, every edge of the larger tree still in sight stays in the tree |
| Optimality.TreeIsMinimum | internal/agent/mst.go:5-29 | No forest of the same graph is longer, and edge by edge in sorted order none has a smaller edge |
| Optimality.TreeIsUnique | internal/agent/mst.go:5-29 | An edge subset is the result if and only if it is acyclic and every omitted edge is joined by smaller kept edges |
| Stability.LosingUnusedEdge | internal/agent/mst.go:12-29 | Removing an edge the tree does not use leaves the result unchanged |
| Stability.LosingTreeEdge | internal/agent/mst.go:12-29 | Removing a tree edge removes it and brings in nothing if the graph falls apart there, and otherwise exactly the least edge across the gap |
| Stability.AtMostFourNodesChange | internal/agent/mst.go:31-48 | Losing one link changes the neighbour lists of at most four nodes |
| OverlayTopology.NewEdgeIsUndirected | internal/agent/topology.go:25-30 | Two reports name the same edge exactly when they are about the same two nodes, and the name is normalised |
| OverlayTopology.EitherSideSuffices | internal/agent/topology.go:93-95 | A link is an edge exactly when at least one of its ends reports the other live |
| OverlayTopology.Topology.Set | internal/agent/topology.go:44-49 | Stores the record under its own overlay IP, stamped with the receiver's clock |
| OverlayTopology.Topology.PurgeStale | internal/agent/topology.go:61-79 | Leaves exactly the excluded node and the entries no older than the cutoff, and counts the rest, for every iteration order |
| OverlayTopology.Topology.Edges | internal/agent/topology.go:93-116 | For every iteration order: strictly sorted, without duplicates, and exactly the reported links |
| OverlayTopology.SameLinksSameEdges | internal/agent/topology.go:93-116 | Views in which the same links are reported, by whichever side, give identical lists |
| Agent.Agent.Tick | internal/agent/agent.go:146-192 | The view after a tick is the stored replies cut by the purge, the remembered list is this node's part of its own tree, and it is handed to `frr.Apply` exactly when it changed |
| Agent.SameStrings | internal/agent/agent.go:194-204 | True exactly when the two lists are equal |
| Staleness.ViewIsRecentHistory | internal/agent/agent.go:146-169 | After every run, even one in which the node's own address changes, a node is known exactly while its last record is within the staleness bound at the last purge that did not take it for the node itself, and what is known is that last record |
| Staleness.CutsOfOneAddress | internal/agent/topology.go:61-79 | While the own address stays the same, that means: the own record always stays, and every other is held to the bound by the last purge |
| Staleness.EdgesAreBacked | internal/agent/topology.go:61-79 | The edges are exactly the links backed by such a record |
| PartialViews.ReporterKeepsTreeEdge | internal/agent/agent.go:168-171 | Whoever reports a link of the global tree keeps it, whatever else it sees |
| PartialViews.GlobalTreeIsChosen | internal/agent/agent.go:168-171 | Every edge of the global tree is kept by an endpoint, and nothing unreported is |
| PartialViews.PartialViewsKeepTheMeshConnected | internal/agent/agent.go:155-171 | For all partial views holding the agent's own entry, the links kept connect exactly what the live links connect |
| PartialViews.LoopFreeExactlyWhen | README.md:170-175 | For all views, the links kept are loop-free if and only if they are the global tree, if and only if every agent that sees an own link outside that tree sees a detour of smaller links |
| PartialViews.PollingIsLoopFreeExactlyWhen | internal/agent/agent.go:155-171 | On the snapshot alone: the links kept after polling are loop-free if and only if, for every node and every own link it sees, smaller links anywhere that join the link's ends imply smaller ones among those it or its live peers report |
| PartialViews.FullMeshIsLoopFree | README.md:174 | Where every node has every other as a live peer, polling gives all the one tree |
| RootMeshes.TwoRootsAreLoopFree | README.md:208 | With two roots and any leaves, and links live at both ends or at neither, polling gives all the one tree, whichever links are down |
| RootMeshes.ThreeRootsCanLoop | README.md:209 | Three roots, all live to each other, and three leaves on two of them each: a loop |
| RootMeshes.OneSidedRootsCanLoop | internal/agent/topology.go:90-95 | Two roots that report no one and two leaves that report both: the links in use, taken without direction, have a cycle |
| PartialViews.EqualEdgesAgree | internal/agent/mst.go:5-8 | Agents that know all live links keep exactly the global tree |
| Ring.RingsStayLoops | internal/agent/gossip.go:52-55 | In every ring of five or more nodes, agents that hear at most from their neighbours keep exactly the ring, and none sees a detour around any link of its own |
| Ring.FiveNodesLoop | internal/agent/gossip.go:52-55 | Such a ring, concretely, with every poll answered |
| RingRun.EveryRunLeavesTheRingInUse | internal/agent/agent.go:146-176 | In every run over a ring of five or more nodes, from any state and with any polls failed, every state in which all have settled has all links of the ring in use |
| RingRun.RingReachesALoop | README.md:174 | One such run from fresh agents: every node ticks once and hears both its neighbours |
| Mesh.EveryAgentIsSound | internal/agent/agent.go:146-176 | From any state, what an agent knows is right or from before the records came to rest; once it has ticked it knows itself and follows its own tree, and once it has purged the staleness bound later, or if it started clean, all it knows is right |
| Mesh.ReportedTreeLinkIsUsed | internal/agent/agent.go:146-176 | A node that has settled forwards on every global tree link it reports, whatever the other nodes hold |
| Mesh.ListsInUseSpanTheMesh | internal/agent/agent.go:146-176 | From any state and with any polls failed, once all have settled the lists in use span the mesh, and are a tree exactly when every agent sees its detours |
| Mesh.FullRoundsGiveThePolledViews | internal/agent/agent.go:155-176 | Once every node's last round heard all its live peers, the links in use are those of the polled snapshot, and loop-free exactly when its live links say so |
| Mesh.EveryMeshGetsInTouch | internal/agent/agent.go:146-176 | Every mesh has a run from fresh agents after which each node has heard all its live peers |
| Mesh.TwoRootMeshIsLoopFree | README.md:208 | In every run over two roots and any leaves with links live at both ends, the lists in use are then the one loop-free tree |
| Flooding.Flood | internal/agent/mst.go:31-48 | Over the local lists of a tree, in every delivery order, flooding ends and reaches exactly the sender's component, each node once |
| Flooding.FloodMesh | internal/agent/mst.go:5-48 | The same with every agent running Kruskal on its own ordering of the same edges |
| Flooding.NeverTwiceExactlyWhen | internal/agent/mst.go:31-48 | Over any lists both ends of each link agree on, no frame comes to a node twice, from any source in any run, if and only if the links have no cycle |
| Flooding.NeverTwiceBesideATree | internal/agent/mst.go:31-48 | Over lists that hold a tree at both ends and other links at one end or both, no frame comes to a node twice if and only if they hold only the tree |
| MeshFlooding.FramesNeverTwiceExactlyWhen | internal/agent/agent.go:168-176 | In every settled mesh with links live at both ends, no frame comes to a node twice if and only if the links in use have no cycle |
| MeshFlooding.FramesNeverTwiceAfterFullRounds | internal/agent/agent.go:155-176 | After full rounds, if and only if no detour leads out of any node's sight |
| MeshFlooding.AcyclicNeverTwice | internal/agent/agent.go:168-176 | Of any agents at all, links reported at one end included: where the links in use have no cycle, no frame comes to a node twice |
| FloodingWays.NeverTwiceOverAnyLists | internal/agent/mst.go:31-48 | Over any lists, whoever holds a link: no frame comes to a node twice if and only if there is at most one way along the lists, never straight back, from any node to any |
| FloodingEnds.EndsBesideATree | internal/agent/mst.go:31-48 | Over lists that hold a tree at both ends and other links at one end or both: a flood ends if and only if the lists around its source hold only the tree |
| MeshFlooding.FloodsEndExactlyWhen | README.md:192-194 | In every settled mesh with links live at both ends: a flood ends if and only if the lists around its source hold tree links only, and then exactly when it has made one delivery less than there are nodes to reach; otherwise none from there ever ends |
| MeshFlooding.ConnectedMeshFloodsEndExactlyWhen | README.md:192-194 | In a connected mesh of that kind a flood from any node ends if and only if the links in use have no cycle |
| MeshFlooding.FloodsReachTheComponent | internal/agent/agent.go:168-176 | In such a mesh, whatever a flood has delivered so far, it can go on to exactly the nodes that live links connect to its source, and if it has ended it has been to exactly those |
| MeshFlooding.LoopFreeListsFloodOnce | internal/agent/agent.go:168-176 | Where the links in use have no cycle, both ends list each link of the tree and nothing else |
| MeshFlooding.TwoRootMeshFloodsOnce | README.md:208 | With two roots and any leaves, links live at both ends, no frame comes to a node twice |
| MeshFlooding.ThreeRootFramesComeTwice | README.md:209 | In every run over the three-root mesh, once all are in touch, some frame comes to a node twice |
| MeshFlooding.ThreeRootsReachALoop | README.md:209 | There is such a run, from fresh agents and with no poll failed |
| MeshFlooding.RingFramesComeBack | README.md:174 | In every settled ring of five or more nodes some frame comes to a node twice |
| FloodCases.RingFramesCircle | README.md:192-194 | In every settled ring of five or more nodes, no flood from any node ever ends |
| FloodCases.ThreeRootFramesCircle | README.md:192-194 | In every run over the three-root mesh, once all are in touch, no flood from any node ever ends |
| FloodCases.OneSidedFramesGoNowhere | internal/agent/topology.go:90-95 | In every run over the one-sided mesh, once all are in touch: the links in use have a cycle, no frame comes to a node twice, and a frame from a root reaches no one |
| PeerStore.Store.AddPeer | internal/state/state.go:226-251 | Refuses for the first reason in the code's order and changes nothing, or appends the peer to its list |
| PeerStore.Store.RemovePeer | internal/state/state.go:253-274 | Refuses and changes nothing, or shifts out the first peer of that name and returns its key |
| PeerStore.Store.ShiftDown | internal/state/state.go:262 | The append over the removed element, in place: the array ends up without it, its last slot as it was |
| PeerStore.Store.FindByPubkey | internal/state/state.go:198-210 | Returns the first peer with the key, roots first, and its role, or nothing exactly when none has it |
| PeerStore.Store.FindByOverlayIP | internal/state/state.go:212-224 | Returns the first peer with the address, roots first, and its role, or nothing exactly when none has it |
| PeerStore.AcceptedExactlyWhen | internal/state/state.go:226-251 | A peer is accepted if and only if its key parses, no peer of either list has its key or its address, the role is root or leaf and the name is free in that list; otherwise the reason given is the first of these to fail, laid to a root if one holds the key or address |
| PeerStore.AddKeepsUnique | internal/state/state.go:226-251 | Keys and overlay IPs stay unique across both lists, names within each |
| PeerStore.RemoveDeletesOne | internal/state/state.go:253-274 | Exactly one peer goes, with that name and the returned key; the rest keep their order and their uniqueness |
| PeerStore.AddThenRemove | internal/state/state.go:226-274 | Removing what was just added restores any store |
| PeerStore.RemoveThenAdd | internal/state/state.go:226-274 | Adding a removed peer back restores the store if and only if it was the last of its list |
| LockedStore.StepKeepsInv | internal/state/state.go:138-178 | Every step of every process, failures and crashes included, keeps the protocol's invariant |
| LockedStore.EveryRunIsSerial | internal/state/state.go:156-178 | In every interleaving the file is the serial execution of the committed commands, which are a subsequence of the order in which processes got the lock, each successful at its turn; lock-free loads see only committed states; success means committed once, failure never |
| LockedStore.MutualExclusion | internal/state/state.go:167-169 | At most one process is between lock and release |
| LockedStore.RenameCommits | internal/state/state.go:150-153 | The rename appends exactly the renaming process's command to the serial execution |
| LockProgress.EveryWaiterIsServed | internal/state/state.go:158-178 | In any run a waiting process can go on to the end by steps of its own alone, once the present holder is done, failed or crashed: its command takes effect on the committed state, is saved and reported, or fails on that state and changes nothing |
| LockProgress.HolderCanFinish | internal/state/state.go:167-177 | From wherever it stands in the critical section, so can the holder of the lock |
| LockProgress.AnyoneCanGiveUp | internal/state/state.go:166-177 | A process can fail until its rename, and crash at any point: nothing is committed, no one else is touched, and the lock is free if it was held |
| LockProgress.LoadIsServed | internal/state/state.go:100-114 | A load without the lock can be made in any world, and returns the committed state |
| StoreRuns.EveryCommandIsServed | internal/state/state.go:158-274 | At any moment of any run any add or remove can be started and carried out: it succeeds exactly when the peer is acceptable, or the name is there, and leaves in state.json the peer at the end of its list, or the list without the first peer of that name |
| StoreRuns.LoadedStatesAreUnique | internal/state/state.go:158-281 | Every state that can ever be loaded, locked or not, is free of clashes |
| StoreRuns.LoadedKeysParse | internal/state/state.go:226-229 | From a store whose keys parse, every state that can ever be loaded has only keys that parse |
| Kernel.Device.AddOrUpdatePeer | internal/wg/wg.go:72-80 | Works exactly when the kernel call does, the key and the address decode, and so does the endpoint if there is one; then the kernel has the peer with that address alone, and the others have lost no more than it; otherwise nothing changes |
| Kernel.Device.RemovePeer | internal/wg/wg.go:82-93 | Deletes exactly that key, or nothing when it does not decode or the kernel call fails |
| Kernel.Device.Sync | internal/wg/wg.go:95-111 | Replaces all peers exactly when the kernel call works and of every peer the key, the address and the endpoint, if any, decode; otherwise changes nothing |
| Kernel.ConfigExactlyWhen | internal/wg/wg.go:34-70 | A peer has an entry exactly when its key, its address and its endpoint, if any, decode: the entry of that key, with that address alone, and an endpoint and a keepalive of 25 seconds exactly if the peer has an endpoint |
| Kernel.SyncInstalls | internal/wg/wg.go:34-58 | For a peer no other shares the key of, a sync installs its endpoint with a 25 second keepalive if it has one, and its own address unless a later peer takes that |
| Kernel.RoutesStayUnique | internal/wg/wg.go:43-47 | Whatever entries are applied, clashing ones included, no address is allowed to two kernel peers |
| Kernel.AddAnywhere | internal/wg/wg.go:72-111 | Adding a peer last is as good as syncing with it anywhere in the list, when none that follow share its key or address |
| Kernel.RemoveAnywhere | internal/wg/wg.go:82-111 | Deleting a peer's key equals a sync without the peer, when no other peer has the key and an earlier one has the address only if a later one has; the others may clash |
| Kernel.AgreementNeedsTheKeyAlone | internal/wg/wg.go:82-111 | For every list: if a removal equals a sync without the peer, no other peer decodes to its key |
| Kernel.RemoveAgreesExactlyWhen | internal/wg/wg.go:82-111 | Where decoded keys are apart, a removal equals a sync without the peer if and only if an earlier peer with its decoded address implies a later one |
| Kernel.AddAgreesExactlyWhen | internal/wg/wg.go:72-111 | Where the decoded key is new, an incremental add equals a sync if and only if no later peer has the decoded address |
| Transactions.RunPeerAdd | cmd/common.go:13-24 | The store in memory, the kernel and FRR: a refusal changes none of them; otherwise the store has the peer, the kernel too if it decodes and the kernel call works, and FRR, if it reloads, declares and activates exactly the peers of the store, the new one among them, has its leafs for clients and blocks no one; saving the store comes after, and what its failure does is in KernelRuns |
| Transactions.RunPeerRemove | cmd/common.go:26-38 | The same for removal, of the peer's key; of a store free of clashes FRR no longer speaks with the peer removed |
| Transactions.IncrementalEqualsFull | cmd/common.go:13-63 | After any run of successful adds and removes from a synced kernel, a full sync would succeed and change nothing |
| Transactions.TwoSpellingsOfOneKey | internal/state/state.go:226-235 | Two texts of one key are accepted as two peers, and removing one breaks that equality |
| Transactions.TwoSpellingsOfOneAddress | internal/state/state.go:226-235 | Two texts of one address are accepted as two peers, and removing the second leaves the first without the address a sync would give it |
| Transactions.SyncWorksAfterAdd | internal/wg/wg.go:98-106 | A sync works after an add if and only if it worked before and the new peer decodes |
| KernelRuns.SyncedTellsTheEntries | internal/wg/wg.go:95-111 | Two stores sync to the same kernel if and only if they send the same entries |
| KernelRuns.KernelTracksExactlyWhen | cmd/common.go:13-101 | In every interleaving of commands and syncs, whenever they read and install and whichever kernel calls fail, the kernel is in step throughout if and only if no process fails or crashes between its kernel update and its rename, no successful command misses its update, and every sync that works installs the entries of the store the kernel should show |
| KernelRuns.KernelShowsTheFileExactlyWhen | internal/state/state.go:158-178 | Where no update is missed and syncs install no other entries than those, the kernel is what a sync of state.json would install whenever the lock is free, if and only if no process fails or crashes between its kernel update and its rename |
| KernelRuns.SyncTracksExactlyWhen | cmd/common.go:52-63 | After any sync that works, over any kernel: in step if and only if it read the entries of that store |
| KernelRuns.SyncRepairs | cmd/common.go:52-63 | A sync of the committed state, installed while no command is past its kernel update, puts any kernel in step |
| KernelRuns.SyncCanRepair | cmd/common.go:52-63 | In every world in which no command is past its kernel update, a sync can load and install so, whatever has been lost |
| KernelRuns.EveryStepIsTaken | cmd/common.go:13-101 | Every step of the locked store can be taken on the host, and every load can be followed by a sync, whether kernel calls work or not |
| KernelRuns.LateSyncUndoesACommit | cmd/common.go:52-63 | One that read the file just before the last commit puts the kernel out of step |
| KernelRuns.MidCommandSyncUndoesTheUpdate | cmd/common.go:52-63 | So does one of the committed state that comes between a command's kernel update and its rename |
| KernelLosses.AbortRun | internal/state/state.go:174-177 | For any peer that decodes: a run that ends with a kernel peer state.json does not have, after a failed save |
| KernelLosses.MissedUpdateRun | cmd/common.go:75-88 | A run with no abort and no sync that ends with a peer in state.json that the kernel never got |
| KernelLosses.LateSyncRun | cmd/common.go:52-63 | A run with no failure that ends with a peer lost to a sync that read the file too early |
| KernelLosses.AbortHidesALoss | internal/state/state.go:174-177 | A run in which an abort after such a sync leaves the kernel like state.json at every lock-free moment |
| KernelLosses.MidCommandRun | cmd/common.go:52-63 | A run with no failure that ends with a peer lost to a sync in the middle of its command |
| Config.GenerateConfig | internal/frr/frr.go:117-135 | Renders with the given list, or with all configured peers when none is given: an address is blocked exactly when a list is given, it is configured and it is not on the list |
| Config.Frr.Apply | internal/frr/frr.go:139-154 | Changes nothing where FRR is not installed or the reload fails, and reports failure only for the latter; otherwise the generated configuration runs |
| Config.ReadRender | internal/frr/frr.go:59-93 | Reading the lines back gives, in store order, who is declared under which AS, source and BFD profile, who is activated, who is a client and who is blocked |
| Config.ReadSettings | internal/frr/frr.go:44-96 | Reading the lines back gives hostname, ASN, router-id and VNI |
| Config.RenderIsFaithful | internal/frr/frr.go:44-96 | Stores and lists that render alike agree on hostname, ASN, router-id, VNI, both kinds of neighbours and the blocked set |
| ConfigText.TextTellsExactlyWhen | internal/frr/frr.go:44-96 | Splitting the text written gives its words back if and only if every word is not empty and holds no blank or line end |
| ConfigText.ConfigurationIsToldExactlyWhen | internal/frr/frr.go:117-135 | So it is told by its text if and only if the node's name and address and every peer's address are of that kind |
| ConfigText.TextIsFaithful | internal/frr/frr.go:117-135 | Then stores and lists that write the same text agree as RenderIsFaithful says |
| FrrRuns.RendersTheIntendedRouter | internal/frr/frr.go:44-96 | For every store and list, the lines, each run in the block that the lines before it opened, are all taken, close what they open, and set up exactly: the BFD profile with 300 ms and three misses, the route map that denies multicast routes and permits the rest, the AS, its router-id and no IPv4 by default, the VNI, and of each configured peer and no other its AS, source, profile, EVPN, client mark, next hop and filter |
| FrrRuns.TextRendersTheIntendedRouter | internal/frr/frr.go:117-135 | So does the text, where the node's name and address and every peer's address are not empty and hold no blank or line end |
| FrrRuns.AcceptsExactlyWhen | internal/frr/frr.go:54-87 | Routes come in from configured peers only: multicast routes exactly from those on the list, or from all where no list is given, and all other routes from all of them |
| Config.DeclaredOnceBeforeActivatedOnce | internal/frr/frr.go:59-93 | Under the store's invariant each neighbour is declared once and activated once, every declaration before every activation |
| Config.BlockedExactly | internal/frr/frr.go:77-87 | Blocked are exactly the configured peers outside the list |
| Config.TreeLinkStaysOpen | internal/agent/agent.go:168-189 | A link of the global tree is never blocked at an end that reports it, however partial its view |
| Config.CommandsLiftTheFilter | cmd/common.go:40-50 | Rendering with no list blocks no one, and equals the agent's rendering if and only if every configured peer is on its list |
| FilterRuns.FollowsTheTreeExactlyWhen | internal/agent/agent.go:173-191 | In every run of ticks, commands and restarts, from any state, FRR blocks exactly the configured peers outside the agent's list at every point, if and only if it does at the start, every command and restart finds no peer unwanted and every failed apply would have changed nothing |
| FilterRuns.WithoutFailures | cmd/common.go:40-50 | When no apply fails: if and only if it does at the start and every command and restart after a push comes while every configured peer is on the list |
| FilterRuns.EveryEventIsTaken | internal/agent/agent.go:146-192 | Any tick, command or restart can come at any point of a run, and its apply can succeed or fail |
| FilterRuns.RunsTheWantedExactlyWhen | internal/agent/agent.go:173-191 | The same for the whole configuration: FRR runs the one rendered from the store and the agent's list at every point, if and only if it does at the start, commands and restarts find no peer unwanted and every failed apply would have changed no line |
| FilterRuns.RunsTheWantedWithoutFailures | cmd/common.go:40-50 | When no apply fails, under the same condition as the filter alone |
| FilterRuns.PushRepairs | internal/agent/agent.go:185-191 | An applied push puts FRR in step, whatever it held |
| FilterRuns.FilterOutlivesTheAgent | README.md:187 | Over restarts and all else, FRR keeps its filter until an apply succeeds |
| FilterRuns.EmptyTreeIsNeverPushed | internal/agent/agent.go:173-180 | An agent restarted into an empty tree never pushes, and FRR keeps the filter of the process before |
| FilterRuns.FailedApplyIsNotRetried | internal/agent/agent.go:173-191 | While the list stays the same no tick pushes, and FRR stays as right or wrong as it was, in its filter and in its whole configuration |
| FilterRuns.LiftedFilterStaysLifted | internal/agent/agent.go:173-191 | After a command, until the list changes, no tick pushes and no command blocks anyone; FRR is out of step for as long as a configured peer is off the list |
| FilterRuns.StuckRun | internal/agent/agent.go:173-191 | A concrete run that ends out of step after a failed push |
| FilterRuns.MissingNeighbourRun | cmd/common.go:40-50 | A concrete run that ends without a neighbour, after a peer add whose reload failed |
| FilterRuns.LiftedRun | cmd/common.go:52-63 | A concrete run that ends out of step after a sync |
| FilterRuns.RestartRun | README.md:187 | A concrete run that ends out of step after a restart into an empty tree |

## Left out

- FilterRuns.FollowsTheTreeExactlyWhen: a tick reads state.json and applies in one step, FRR is installed, and an apply that fails leaves FRR as it was. Before an agent's first push, FRR is taken to be in step when it blocks no one.
- KernelRuns.KernelTracksExactlyWhen: assumes peers that decode, and decode apart; the Transactions lemmas show why. A kernel call that fails is taken to change nothing.
- KernelRuns.KernelShowsTheFileExactlyWhen: is about lock-free moments only, where one loss can hide another (KernelLosses.AbortHidesALoss), so it keeps to syncs that do no harm; KernelTracksExactlyWhen has no such limit.
- PeerStore.Store.RemovePeer: the lists are values between calls, so that pointers into a list that a caller keeps over a removal are not modelled; the shift itself is done on an array.
- RootMeshes.TwoRootsAreLoopFree: is about the agents' lists, where a link is live at both ends or at neither; what FRR does with reflected routes is not modelled.
- Flooding.Flood: the forwarding rule is a definition of the model; what FRR, zebra and VXLAN do with Type-3 routes is not modelled, and README.md:202-211 says reflected routes escape the filter.
- Agent.Agent.Tick: the world is a parameter: whether state.json loads, this node's own record, the replies and the times. A reply that names another node is stored under that name, as in the code.
- Staleness.ViewIsRecentHistory: assumes that clocks do not run backwards; it bounds the age by local receipt, not by the sender's clock.
- Mesh.ListsInUseSpanTheMesh: the run starts in any state, but from then on records are honest and stay the same, and no agent fails to load its own record; what agents do while links keep changing is covered one link at a time by Stability.
- Mesh.FullRoundsGiveThePolledViews: assumes that only live peers answer polls, which cross the tunnel.
- PartialViews.LoopFreeExactlyWhen: is about the undirected union of the lists; a link only one end knows of is in that end's list alone.
- LockedStore.EveryRunIsSerial: a state is what `Load` returns for it, so JSON text and the L2 defaults filled in on load are not visible; processes crash, machines do not lose power; `cmd/init.go`, which saves without the lock, is outside the protocol.
- Kernel.Device.Sync: the effect of one entry on the kernel (addresses move to the peer given them last, an absent endpoint or keepalive leaves the old one) is WireGuard's behaviour, stated here because the repository relies on it; keys, addresses and endpoints decode by functions left as parameters.
- Transactions.IncrementalEqualsFull: assumes kernel calls succeed and that different key or address texts among the peers involved decode to different values; TwoSpellingsOfOneKey shows why.
- FrrRuns.RendersTheIntendedRouter: how FRR takes a configuration is FRR's behaviour, stated in FrrReader for the lines the template uses; frr-reload applies the difference to what runs, which is taken to come to the same.
- LockProgress.EveryWaiterIsServed: says that a waiting process can be served, not that the kernel's flock is fair among several.
- Config.ReadRender: lines are sequences of words; ConfigText says when the text tells them. The template's indentation is not modelled.
- Config.GenerateConfig: the fallback list is in store order where the code sorts it by role and name; only membership in it matters to the rendering.
- PeerStore.Store.AddPeer: which peer already holds a key or address is reported by role, without the name in the error text.
- Mutexes inside `Topology` and `Agent`: each method is one step.
- `computeSelfInfo` and `livePeers`: filtering peers by recent handshake is an input of the tick.
- The HTTP gossip server, netlink work on the bridge and VXLAN devices, frr-reload, status and MAC displays, and the command-line flags.
- `promote` and `demote`: `peer add` does not look at the node's role, so the code keeps no role invariant to prove.
