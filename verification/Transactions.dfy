/** `peer add` and `peer remove`: the store and the kernel, changed together. */
module Transactions {
  import opened Prelude
  import opened PeerStore
  import opened Kernel
  import opened ConfigText
  import opened FrrReader
  import opened FrrRuns
  import Config

  /** `ParseKey` is the one decoder both the store and the kernel client call. */
  function Parses(codec: Codec): string -> bool {
    text => codec.key(text).Some?
  }

  /** What the locked functions of `runPeerAdd` and `runPeerRemove` do to the kernel. */
  ghost function KernelAfter(codec: Codec, c: Command, s: State, kernel: Peers): Peers {
    match c
    case Add(role, p) =>
      if Added(Parses(codec), s, role, p).Ok? && ConfigOf(codec, p).Some? then Apply(kernel, ConfigOf(codec, p).value)
      else kernel
    case Remove(role, name) =>
      if Removed(s, role, name).Ok? && codec.key(Removed(s, role, name).value.1).Some? then
        kernel - {codec.key(Removed(s, role, name).value.1).value}
      else kernel
  }

  /** What a command that leaves `s` does to FRR, as far as it can: a configuration that opens every peer. */
  ghost function FilterAfter(s: State, reloads: bool, frr: Config.Frr, config: seq<Config.Line>): seq<Config.Line> {
    if frr.installed && reloads then Config.Render(s, Config.TreeOrAll(s, None)) else config
  }

  /** FRR declares and activates every peer of the store, takes its leafs for clients, and blocks no one. */
  ghost predicate Serves(config: seq<Config.Line>, s: State) {
    var ips := Config.IPs(FlatPeers(s));
    && Config.Read(config, Config.Declared(s.node.asn)) == Config.Read(config, Config.Activated) == ips
    && Config.Read(config, Config.Client) == Config.IPs(s.leafs)
    && Config.Read(config, Config.Blocked) == []
    && Configures(TextLines(config)) == Some(Intended(s, ips))
  }

  lemma FilterServesAll(s: State, frr: Config.Frr, config: seq<Config.Line>)
    ensures frr.installed ==> Serves(FilterAfter(s, true, frr, config), s)
  {
    var ips := Config.IPs(FlatPeers(s));
    hide Config.Render, Config.Read, Configures, TextLines;
    Config.CommandsLiftTheFilter(s, []);
    Config.ReadRender(s, ips, Config.Declared(s.node.asn));
    Config.ReadRender(s, ips, Config.Activated);
    Config.ReadRender(s, ips, Config.Client);
    RendersTheIntendedRouter(s, ips);
  }

  lemma AddedIsServed(codec: Codec, s: State, role: Role, p: Peer, config: seq<Config.Line>)
    requires Added(Parses(codec), s, role, p).Ok? && Serves(config, Added(Parses(codec), s, role, p).value)
    ensures p.overlayIP in Config.Read(config, Config.Activated)
  {
    hide Config.Read, Configures, TextLines, HasKey, HasIP, HasName;
    var flat := FlatPeers(Added(Parses(codec), s, role, p).value);
    var i := if role == Root then |s.roots| else |flat| - 1;
    assert flat[i] == p && Config.IPs(flat)[i] == p.overlayIP;
  }

  /** Of a store free of clashes, what a removal takes away FRR speaks with no more. */
  ghost predicate Dropped(config: seq<Config.Line>, was: State, now: State) {
    forall q :: q in FlatPeers(was) && q !in FlatPeers(now) ==> q.overlayIP !in Config.Read(config, Config.Activated)
  }

  lemma RemovedIsDropped(s: State, role: Role, name: string, config: seq<Config.Line>)
    requires Unique(s) && Removed(s, role, name).Ok? && Serves(config, Removed(s, role, name).value.0)
    ensures Dropped(config, s, Removed(s, role, name).value.0)
  {
    RemoveDeletesOne(s, role, name);
    hide Config.Read, Configures, TextLines, Removed, FlatPeers, KeysAndIPsUnique, Without, Config.IPs;
    forall q | q in FlatPeers(s) && q !in FlatPeers(Removed(s, role, name).value.0)
      ensures q.overlayIP !in Config.IPs(FlatPeers(Removed(s, role, name).value.0))
    {
      AddressGoesToo(FlatPeers(s), RemovedAt(s, role, name), q);
    }
  }

  lemma AddressGoesToo(flat: seq<Peer>, i: nat, q: Peer)
    requires KeysAndIPsUnique(flat) && i < |flat| && q in flat && q !in Without(flat, i)
    ensures q.overlayIP !in Config.IPs(Without(flat, i))
  {
    var rest := Without(flat, i);
    assert forall j :: 0 <= j < |flat| && j != i ==> rest[if j < i then j else j - 1] == flat[j];
    assert q == flat[i];
    RemovedIsFreeAgain(flat, i);
    assert forall k :: 0 <= k < |rest| ==> Config.IPs(rest)[k] == rest[k].overlayIP;
  }

  /** The locked function of `runPeerAdd`, on the store in memory: saving it comes later, and may fail. A
      kernel update or an FRR reload that fails only warns. */
  method RunPeerAdd(
    codec: Codec, store: Store, device: Device, works: bool, frr: Config.Frr, reloads: bool, role: Role, p: Peer)
    returns (refusal: Option<Refusal>)
    modifies store, device, frr
    ensures match Added(Parses(codec), old(store.Value()), role, p)
            case Err(e) => refusal == Some(e) && store.Value() == old(store.Value())
            case Ok(s) => refusal == None && store.Value() == s
    ensures device.peers == if works then KernelAfter(codec, Add(role, p), old(store.Value()), old(device.peers))
                            else old(device.peers)
    ensures frr.config == if refusal.Some? then old(frr.config)
                          else FilterAfter(store.Value(), reloads, frr, old(frr.config))
    ensures refusal == None && frr.installed && reloads ==>
              Serves(frr.config, store.Value()) && p.overlayIP in Config.Read(frr.config, Config.Activated)
    ensures refusal == None && works && Decodes(codec, p) ==>
              && Installed(codec, p, old(device.peers), device.peers)
              && Transact(codec, Host(old(store.Value()), old(device.peers)), Add(role, p),
                          Host(store.Value(), device.peers))
  {
    ghost var was := store.Value();
    ConfigExactlyWhen(codec, p);
    hide Apply, Added, Serves, FilterAfter, Installed, Decodes, ConfigOf, Acceptable, Config.Read;
    refusal := store.AddPeer(Parses(codec), role, p);
    if refusal == None {
      var _ := device.AddOrUpdatePeer(codec, works, p);
      ApplyBestEffort(store, frr, reloads);
      if frr.installed && reloads { AddedIsServed(codec, was, role, p, frr.config); }
    }
  }

  /** The locked function of `runPeerRemove`. */
  method RunPeerRemove(
    codec: Codec, store: Store, device: Device, works: bool, frr: Config.Frr, reloads: bool, role: Role, name: string)
    returns (r: Result<string>)
    modifies store, device, frr
    ensures match Removed(old(store.Value()), role, name)
            case Err(e) => r == Err(e) && store.Value() == old(store.Value())
            case Ok((s, key)) => r == Ok(key) && store.Value() == s
    ensures device.peers == if works then KernelAfter(codec, Remove(role, name), old(store.Value()), old(device.peers))
                            else old(device.peers)
    ensures frr.config == if r.Err? then old(frr.config)
                          else FilterAfter(store.Value(), reloads, frr, old(frr.config))
    ensures r.Ok? && frr.installed && reloads ==> Serves(frr.config, store.Value())
    ensures r.Ok? && frr.installed && reloads && Unique(old(store.Value())) ==>
              Dropped(frr.config, old(store.Value()), store.Value())
    ensures r.Ok? && works && codec.key(r.value).Some? ==>
              Transact(codec, Host(old(store.Value()), old(device.peers)), Remove(role, name),
                       Host(store.Value(), device.peers))
  {
    ghost var was := store.Value();
    hide Removed, Serves, FilterAfter, Dropped, Unique;
    r := store.RemovePeer(role, name);
    if r.Ok? {
      var _ := device.RemovePeer(codec, works, r.value);
      ApplyBestEffort(store, frr, reloads);
      if frr.installed && reloads && Unique(was) { RemovedIsDropped(was, role, name, frr.config); }
    }
  }

  /** `applyFRRBestEffort`: with no list, and deaf to failure. */
  method ApplyBestEffort(store: Store, frr: Config.Frr, reloads: bool)
    modifies frr
    ensures frr.config == FilterAfter(store.Value(), reloads, frr, old(frr.config))
    ensures frr.installed && reloads ==> Serves(frr.config, store.Value())
  {
    if !frr.installed {
      return;
    }
    FilterServesAll(store.Value(), frr, frr.config);
    hide Serves;
    var _ := frr.Apply(State(store.node, store.roots, store.leafs), None, reloads);
  }

  datatype Host = Host(state: State, kernel: Peers)

  /** A command that succeeds, its kernel update with it. */
  ghost predicate Transact(codec: Codec, h: Host, c: Command, h': Host) {
    match c
    case Add(role, p) =>
      && Added(Parses(codec), h.state, role, p) == Ok(h'.state)
      && ConfigOf(codec, p).Some? && h'.kernel == Apply(h.kernel, ConfigOf(codec, p).value)
    case Remove(role, name) =>
      && Removed(h.state, role, name).Ok? && Removed(h.state, role, name).value.0 == h'.state
      && var key := codec.key(Removed(h.state, role, name).value.1);
         key.Some? && h'.kernel == h.kernel - {key.value}
  }

  /** Different texts decode to different keys and addresses. */
  ghost predicate DecodesApart(codec: Codec, ps: set<Peer>) {
    forall p, q :: p in ps && q in ps ==>
      && (p.publicKey != q.publicKey ==> codec.key(p.publicKey) != codec.key(q.publicKey))
      && (p.overlayIP != q.overlayIP ==> codec.ipv4(p.overlayIP) != codec.ipv4(q.overlayIP))
  }

  /** Synced: what `Sync(FlatPeers())` would install is what the kernel has. */
  ghost predicate InStep(codec: Codec, h: Host) {
    && AllDecode(codec, FlatPeers(h.state))
    && h.kernel == Synced(codec, FlatPeers(h.state))
    && Unique(h.state)
  }

  lemma AddStaysInStep(codec: Codec, h: Host, role: Role, p: Peer, h': Host, ps: set<Peer>)
    requires InStep(codec, h) && Transact(codec, h, Add(role, p), h')
    requires Elems(FlatPeers(h.state)) + {p} <= ps && DecodesApart(codec, ps)
    ensures InStep(codec, h') && Elems(FlatPeers(h'.state)) <= ps
  {
    var s, flat := h.state, FlatPeers(h.state);
    AddKeepsUnique(Parses(codec), s, role, p);
    var before, after := if role == Root then s.roots else flat, if role == Root then s.leafs else [];
    assert before + after == flat && FlatPeers(h'.state) == before + [p] + after;
    forall i | 0 <= i < |after|
      ensures codec.key(after[i].publicKey) != codec.key(p.publicKey)
      ensures codec.ipv4(after[i].overlayIP) != codec.ipv4(p.overlayIP)
    {
      assert flat[|before| + i] == after[i] && flat[|before| + i] in ps;
    }
    hide Added, KeysAndIPsUnique, NamesUnique, DecodesApart, Synced, Apply;
    AddAnywhere(codec, before, p, after);
  }

  lemma RemoveStaysInStep(codec: Codec, h: Host, role: Role, name: string, h': Host, ps: set<Peer>)
    requires InStep(codec, h) && Transact(codec, h, Remove(role, name), h')
    requires Elems(FlatPeers(h.state)) <= ps && DecodesApart(codec, ps)
    ensures InStep(codec, h') && Elems(FlatPeers(h'.state)) <= ps
  {
    hide Removed, KeysAndIPsUnique, NamesUnique, DecodesApart, AllDecode, Without, FlatPeers;
    RemoveDeletesOne(h.state, role, name);
    DeleteOne(codec, FlatPeers(h.state), RemovedAt(h.state, role, name), ps);
  }

  lemma DeleteOne(codec: Codec, flat: seq<Peer>, i: nat, ps: set<Peer>)
    requires AllDecode(codec, flat) && KeysAndIPsUnique(flat) && i < |flat|
    requires Elems(flat) <= ps && DecodesApart(codec, ps)
    ensures AllDecode(codec, Without(flat, i)) && Elems(Without(flat, i)) <= ps
    ensures codec.key(flat[i].publicKey).Some?
    ensures Synced(codec, Without(flat, i)) == Synced(codec, flat) - {codec.key(flat[i].publicKey).value}
  {
    assert flat == flat[..i] + [flat[i]] + flat[i + 1..];
    OthersDecodeApart(codec, flat, i, ps);
    hide KeysAndIPsUnique, DecodesApart, SharesKey, SharesIP;
    RemoveAnywhere(codec, flat[..i], flat[i], flat[i + 1..]);
  }

  lemma OthersDecodeApart(codec: Codec, flat: seq<Peer>, i: nat, ps: set<Peer>)
    requires KeysAndIPsUnique(flat) && i < |flat| && Elems(flat) <= ps && DecodesApart(codec, ps)
    ensures !SharesKey(codec, flat[..i], flat[i]) && !SharesKey(codec, flat[i + 1..], flat[i])
    ensures !SharesIP(codec, flat[..i], flat[i]) && !SharesIP(codec, flat[i + 1..], flat[i])
    ensures Elems(Without(flat, i)) <= ps
  {
  }

  ghost predicate Run(codec: Codec, hosts: seq<Host>, commands: seq<Command>) {
    && |hosts| == |commands| + 1
    && forall i :: 0 <= i < |commands| ==> Transact(codec, hosts[i], commands[i], hosts[i + 1])
  }

  /** Every peer a run starts with or adds. */
  ghost function Involved(s: State, commands: seq<Command>): set<Peer> {
    Elems(FlatPeers(s)) + set c | c in commands && c.Add? :: c.peer
  }

  /** Incremental equals full: after any run of successful adds and removes from a synced kernel, a
      full sync would succeed and change nothing. */
  lemma {:induction false} IncrementalEqualsFull(codec: Codec, hosts: seq<Host>, commands: seq<Command>, n: nat)
    requires Run(codec, hosts, commands) && n <= |commands|
    requires InStep(codec, hosts[0])
    requires DecodesApart(codec, Involved(hosts[0].state, commands))
    ensures InStep(codec, hosts[n])
    ensures Elems(FlatPeers(hosts[n].state)) <= Involved(hosts[0].state, commands)
  {
    if n > 0 {
      hide Synced, AllDecode, Unique;
      IncrementalEqualsFull(codec, hosts, commands, n - 1);
      var ps, c := Involved(hosts[0].state, commands), commands[n - 1];
      assert Transact(codec, hosts[n - 1], c, hosts[n]);
      hide InStep, DecodesApart, Transact, FlatPeers;
      match c
      case Add(role, p) =>
        assert c in commands && p in ps;
        AddStaysInStep(codec, hosts[n - 1], role, p, hosts[n], ps);
      case Remove(role, name) =>
        RemoveStaysInStep(codec, hosts[n - 1], role, name, hosts[n], ps);
    }
  }

  /** Without that assumption the store cannot tell two spellings of one key apart, and removing one
      peer takes the other's kernel entry with it. */
  lemma TwoSpellingsOfOneKey(codec: Codec, s: State, p: Peer, q: Peer)
    requires s.roots == [] && s.leafs == []
    requires ConfigOf(codec, p).Some? && ConfigOf(codec, q).Some?
    requires p.publicKey != q.publicKey && codec.key(p.publicKey) == codec.key(q.publicKey)
    requires p.name != q.name && p.overlayIP != q.overlayIP && codec.ipv4(p.overlayIP) != codec.ipv4(q.overlayIP)
    ensures var one, both := s.(roots := [p]), s.(roots := [p, q]);
            && Added(Parses(codec), s, Root, p) == Ok(one) && Added(Parses(codec), one, Root, q) == Ok(both)
            && AllDecode(codec, [p, q]) && AllDecode(codec, [p]) && Unique(both)
            && Removed(both, Root, q.name) == Ok((one, q.publicKey))
            && Synced(codec, [p, q]) - {codec.key(q.publicKey).value} != Synced(codec, [p])
  {
    StoreTakesBoth(codec, s, p, q);
    assert [p] + [q] + [] == [p, q] && [p] + [] == [p];
    assert SharesKey(codec, [p] + [], q) by {
      assert codec.key(([p] + [])[0].publicKey) == codec.key(q.publicKey);
    }
    hide Added, Removed, ConfigOf, Unique;
    if Synced(codec, [p, q]) - {codec.key(q.publicKey).value} == Synced(codec, [p]) {
      AgreementNeedsTheKeyAlone(codec, [p], q, []);
    }
  }

  /** Nor two spellings of one address: the second peer takes the address from the first, and removing
      it leaves the first without, where a sync would give it back. */
  lemma TwoSpellingsOfOneAddress(codec: Codec, s: State, p: Peer, q: Peer)
    requires s.roots == [] && s.leafs == []
    requires ConfigOf(codec, p).Some? && ConfigOf(codec, q).Some?
    requires p.overlayIP != q.overlayIP && codec.ipv4(p.overlayIP) == codec.ipv4(q.overlayIP)
    requires p.name != q.name && p.publicKey != q.publicKey && codec.key(p.publicKey) != codec.key(q.publicKey)
    ensures var one, both := s.(roots := [p]), s.(roots := [p, q]);
            && Added(Parses(codec), s, Root, p) == Ok(one) && Added(Parses(codec), one, Root, q) == Ok(both)
            && AllDecode(codec, [p, q]) && AllDecode(codec, [p]) && Unique(both)
            && Removed(both, Root, q.name) == Ok((one, q.publicKey))
    ensures var key := codec.key(p.publicKey).value;
            var left := Synced(codec, [p, q]) - {codec.key(q.publicKey).value};
            && key in left && left[key].allowed == {}
            && key in Synced(codec, [p]) && Synced(codec, [p])[key].allowed == {codec.ipv4(p.overlayIP).value}
  {
    StoreTakesBoth(codec, s, p, q);
    assert [p] + [q] + [] == [p, q] && [p] + [] == [p];
    assert SharesIP(codec, [p], q) by {
      assert codec.ipv4([p][0].overlayIP) == codec.ipv4(q.overlayIP);
    }
    hide Added, Removed, ConfigOf, Unique;
    var loser := LosesItsAddress(codec, [p], q, []);
  }

  lemma StoreTakesBoth(codec: Codec, s: State, p: Peer, q: Peer)
    requires s.roots == [] && s.leafs == []
    requires codec.key(p.publicKey).Some? && codec.key(q.publicKey).Some?
    requires p.publicKey != q.publicKey && p.name != q.name && p.overlayIP != q.overlayIP
    ensures var one, both := s.(roots := [p]), s.(roots := [p, q]);
            && Added(Parses(codec), s, Root, p) == Ok(one) && Added(Parses(codec), one, Root, q) == Ok(both)
            && Unique(both) && Removed(both, Root, q.name) == Ok((one, q.publicKey))
  {
    var one := s.(roots := [p]);
    TakesRoot(codec, s, p);
    TakesRoot(codec, one, q);
    assert [] + [p] == [p] && [p] + [q] == [p, q];
    hide Added, Removed, Unique;
    AddKeepsUnique(Parses(codec), s, Root, p);
    AddKeepsUnique(Parses(codec), one, Root, q);
    AddThenRemove(Parses(codec), one, Root, q);
  }

  /** A first or second root that differs from the one before it is accepted. */
  lemma TakesRoot(codec: Codec, s: State, p: Peer)
    requires |s.roots| <= 1 && s.leafs == [] && codec.key(p.publicKey).Some?
    requires forall q :: q in s.roots ==> q.name != p.name && q.publicKey != p.publicKey && q.overlayIP != p.overlayIP
    ensures Added(Parses(codec), s, Root, p) == Ok(s.(roots := s.roots + [p]))
    ensures Unique(s)
  {
  }

  /** A full sync works after an add exactly when it worked before and the new peer decodes. The store
      checks the key only, so one bad address or endpoint stops every later sync. */
  lemma SyncWorksAfterAdd(codec: Codec, s: State, role: Role, p: Peer)
    requires Added(Parses(codec), s, role, p).Ok?
    ensures AllDecode(codec, FlatPeers(Added(Parses(codec), s, role, p).value)) <==>
            AllDecode(codec, FlatPeers(s)) && ConfigOf(codec, p).Some?
  {
    var flat, at := FlatPeers(s), if role == Root then |s.roots| else |FlatPeers(s)|;
    assert FlatPeers(Added(Parses(codec), s, role, p).value) == flat[..at] + [p] + flat[at..];
    InsertDecodes(codec, flat, at, p);
  }

  lemma InsertDecodes(codec: Codec, flat: seq<Peer>, at: nat, p: Peer)
    requires at <= |flat|
    ensures AllDecode(codec, flat[..at] + [p] + flat[at..]) <==> AllDecode(codec, flat) && ConfigOf(codec, p).Some?
  {
    assert flat == flat[..at] + flat[at..];
    DecodeConcat(codec, flat[..at] + [p], flat[at..]);
    DecodeConcat(codec, flat[..at], [p]);
    DecodeConcat(codec, flat[..at], flat[at..]);
    assert AllDecode(codec, [p]) <==> ConfigOf(codec, [p][0]).Some?;
    hide AllDecode, ConfigOf;
  }

  lemma DecodeConcat(codec: Codec, a: seq<Peer>, b: seq<Peer>)
    ensures AllDecode(codec, a + b) <==> AllDecode(codec, a) && AllDecode(codec, b)
  {
    hide ConfigOf;
    assert forall i :: 0 <= i < |a| ==> (a + b)[i] == a[i];
    assert forall i :: 0 <= i < |b| ==> (a + b)[|a| + i] == b[i];
  }
}
