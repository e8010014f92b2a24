/** The WireGuard peers in the kernel: incremental updates against full replacement. */
module Kernel {
  import opened Prelude
  import opened PeerStore

  type Key = nat       // a decoded 32-byte key
  type IPv4 = nat      // a decoded IPv4 address; every allowed IP is a /32
  type UDPAddr = nat

  const KEEPALIVE_SECONDS := 25

  /** Decoding, as parameters: text may decode to nothing, and two texts to one value. */
  datatype Codec = Codec(key: string -> Option<Key>, ipv4: string -> Option<IPv4>, resolve: string -> Option<UDPAddr>)

  datatype KernelPeer = KernelPeer(allowed: set<IPv4>, endpoint: Option<UDPAddr>, keepalive: Option<nat>)

  type Peers = map<Key, KernelPeer>

  /** One entry of a configuration; an update replaces the allowed IPs. */
  datatype PeerConfig =
    | Update(key: Key, allowed: set<IPv4>, endpoint: Option<UDPAddr>, keepalive: Option<nat>)
    | Delete(key: Key)

  /** `peerConfig`: None when the key, the address or the endpoint does not decode. */
  function ConfigOf(codec: Codec, p: Peer): Option<PeerConfig> {
    var key := codec.key(p.publicKey);
    var ip := codec.ipv4(p.overlayIP);
    if key == None || ip == None then None
    else if p.endpoint == "" then Some(Update(key.value, {ip.value}, None, None))
    else
      var ep := codec.resolve(p.endpoint);
      if ep == None then None
      else Some(Update(key.value, {ip.value}, ep, Some(KEEPALIVE_SECONDS)))
  }

  /** The key and the address decode, and the endpoint too where there is one. */
  ghost predicate Decodes(codec: Codec, p: Peer) {
    && codec.key(p.publicKey).Some? && codec.ipv4(p.overlayIP).Some?
    && (p.endpoint != "" ==> codec.resolve(p.endpoint).Some?)
  }

  /** A peer without an endpoint, as every leaf is, has an entry like any other, with neither endpoint nor
      keepalive. */
  lemma ConfigExactlyWhen(codec: Codec, p: Peer)
    ensures ConfigOf(codec, p).Some? <==> Decodes(codec, p)
    ensures Decodes(codec, p) ==>
              var cfg := ConfigOf(codec, p).value;
              && cfg.Update? && Some(cfg.key) == codec.key(p.publicKey)
              && (forall ip :: ip in cfg.allowed <==> Some(ip) == codec.ipv4(p.overlayIP))
              && cfg.endpoint == (if p.endpoint == "" then None else codec.resolve(p.endpoint))
              && cfg.keepalive == (if p.endpoint == "" then None else Some(25))
  {
  }

  /** What the kernel does with one entry: an address moves to the peer that was given it last, and an
      absent endpoint or keepalive leaves the old one. */
  function Apply(peers: Peers, cfg: PeerConfig): Peers {
    match cfg
    case Delete(key) => peers - {key}
    case Update(key, allowed, endpoint, keepalive) =>
      var was := if key in peers then peers[key] else KernelPeer({}, None, None);
      (map k | k in peers :: peers[k].(allowed := peers[k].allowed - allowed))
      [key := KernelPeer(allowed,
                         if endpoint.Some? then endpoint else was.endpoint,
                         if keepalive.Some? then keepalive else was.keepalive)]
  }

  function ApplyAll(peers: Peers, cfgs: seq<PeerConfig>): Peers {
    if cfgs == [] then peers else Apply(ApplyAll(peers, cfgs[..|cfgs| - 1]), cfgs[|cfgs| - 1])
  }

  /** The kernel device a client configures. */
  class Device {
    var peers: Peers

    constructor ()
      ensures peers == map[]
    {
      peers := map[];
    }

    /** The kernel call. Whether it works is up to the world: the interface may be missing. */
    method ConfigureDevice(works: bool, replacePeers: bool, cfgs: seq<PeerConfig>) returns (ok: bool)
      modifies this
      ensures ok == works
      ensures peers == if works then ApplyAll(if replacePeers then map[] else old(peers), cfgs) else old(peers)
    {
      if !works {
        return false;
      }
      if replacePeers {
        peers := map[];
      }
      ghost var start := peers;
      for i := 0 to |cfgs|
        invariant peers == ApplyAll(start, cfgs[..i])
      {
        assert cfgs[..i + 1][..i] == cfgs[..i];
        peers := Apply(peers, cfgs[i]);
      }
      assert cfgs[..|cfgs|] == cfgs;
      return true;
    }

    method AddOrUpdatePeer(codec: Codec, works: bool, p: Peer) returns (ok: bool)
      modifies this
      ensures ok <==> works && ConfigOf(codec, p).Some?
      ensures peers == if ok then Apply(old(peers), ConfigOf(codec, p).value) else old(peers)
      ensures ok <==> works && Decodes(codec, p)
      ensures ok ==> Installed(codec, p, old(peers), peers)
    {
      ConfigExactlyWhen(codec, p);
      if Decodes(codec, p) { UpdateInstalls(codec, p, peers); }
      var cfg := ConfigOf(codec, p);
      if cfg == None {
        return false;
      }
      assert [cfg.value][..0] == [];
      ok := ConfigureDevice(works, false, [cfg.value]);
    }

    method RemovePeer(codec: Codec, works: bool, pubkey: string) returns (ok: bool)
      modifies this
      ensures ok <==> works && codec.key(pubkey).Some?
      ensures peers == if ok then old(peers) - {codec.key(pubkey).value} else old(peers)
    {
      var key := codec.key(pubkey);
      if key == None {
        return false;
      }
      assert [Delete(key.value)][..0] == [];
      ok := ConfigureDevice(works, false, [Delete(key.value)]);
    }

    /** Replaces all peers, or changes nothing because some peer does not decode or the call fails. */
    method Sync(codec: Codec, works: bool, ps: seq<Peer>) returns (ok: bool)
      modifies this
      ensures ok <==> works && AllDecode(codec, ps)
      ensures peers == if ok then Synced(codec, ps) else old(peers)
      ensures ok <==> works && forall p :: p in ps ==> Decodes(codec, p)
    {
      AllDecodeExactlyWhen(codec, ps);
      var cfgs := [];
      for i := 0 to |ps|
        invariant AllDecode(codec, ps[..i]) && cfgs == Configs(codec, ps[..i])
      {
        assert ps[..i + 1][..i] == ps[..i];
        var cfg := ConfigOf(codec, ps[i]);
        if cfg == None {
          return false;
        }
        cfgs := cfgs + [cfg.value];
      }
      assert ps[..|ps|] == ps;
      ok := ConfigureDevice(works, true, cfgs);
    }
  }

  /** The kernel holds the peer's own entry, with an endpoint and a keepalive it had before where the peer has
      none now; every other peer has kept all but that address, and there are no others than before. */
  ghost predicate Installed(codec: Codec, p: Peer, was: Peers, now: Peers)
    requires Decodes(codec, p)
  {
    var key, ip := codec.key(p.publicKey).value, codec.ipv4(p.overlayIP).value;
    && now.Keys == was.Keys + {key}
    && now[key].allowed == {ip}
    && (p.endpoint != "" ==> now[key].endpoint == codec.resolve(p.endpoint) && now[key].keepalive == Some(25))
    && (p.endpoint == "" && key in was ==>
          now[key].endpoint == was[key].endpoint && now[key].keepalive == was[key].keepalive)
    && (p.endpoint == "" && key !in was ==> now[key].endpoint == None && now[key].keepalive == None)
    && (forall k :: k in was && k != key ==> now[k] == was[k].(allowed := was[k].allowed - {ip}))
  }

  lemma UpdateInstalls(codec: Codec, p: Peer, was: Peers)
    requires Decodes(codec, p)
    ensures Installed(codec, p, was, Apply(was, ConfigOf(codec, p).value))
  {
  }

  lemma AllDecodeExactlyWhen(codec: Codec, ps: seq<Peer>)
    ensures AllDecode(codec, ps) <==> forall p :: p in ps ==> Decodes(codec, p)
  {
    forall i | 0 <= i < |ps|
      ensures ConfigOf(codec, ps[i]).Some? <==> Decodes(codec, ps[i])
    {
      ConfigExactlyWhen(codec, ps[i]);
    }
  }

  ghost predicate AllDecode(codec: Codec, ps: seq<Peer>) {
    forall i :: 0 <= i < |ps| ==> ConfigOf(codec, ps[i]).Some?
  }

  ghost function Configs(codec: Codec, ps: seq<Peer>): seq<PeerConfig>
    requires AllDecode(codec, ps)
  {
    if ps == [] then [] else Configs(codec, ps[..|ps| - 1]) + [ConfigOf(codec, ps[|ps| - 1]).value]
  }

  /** The kernel peers a full sync installs. */
  ghost function Synced(codec: Codec, ps: seq<Peer>): Peers
    requires AllDecode(codec, ps)
  {
    ApplyAll(map[], Configs(codec, ps))
  }

  lemma SyncedSnoc(codec: Codec, ps: seq<Peer>, p: Peer)
    requires AllDecode(codec, ps) && ConfigOf(codec, p).Some?
    ensures AllDecode(codec, ps + [p])
    ensures Synced(codec, ps + [p]) == Apply(Synced(codec, ps), ConfigOf(codec, p).value)
  {
  }

  /** Updates of different keys with no address in common can be made in either order. */
  lemma ApplyCommutes(peers: Peers, c: PeerConfig, d: PeerConfig)
    requires c.Update? && d.Update? && c.key != d.key && c.allowed !! d.allowed
    ensures Apply(Apply(peers, c), d) == Apply(Apply(peers, d), c)
  {
    assert c.allowed - d.allowed == c.allowed && d.allowed - c.allowed == d.allowed;
    forall k | k in peers
      ensures peers[k].allowed - c.allowed - d.allowed == peers[k].allowed - d.allowed - c.allowed
    {
    }
  }

  /** A peer with the same decoded key, or the same decoded address, among `ps`. */
  ghost predicate SharesKey(codec: Codec, ps: seq<Peer>, p: Peer) {
    exists i :: 0 <= i < |ps| && codec.key(ps[i].publicKey) == codec.key(p.publicKey)
  }

  ghost predicate SharesIP(codec: Codec, ps: seq<Peer>, p: Peer) {
    exists i :: 0 <= i < |ps| && codec.ipv4(ps[i].overlayIP) == codec.ipv4(p.overlayIP)
  }

  /** Adding a peer to the kernel after those that follow it in the list is as good as before them. */
  lemma {:induction false} AddAnywhere(codec: Codec, before: seq<Peer>, p: Peer, after: seq<Peer>)
    requires AllDecode(codec, before + after) && ConfigOf(codec, p).Some?
    requires !SharesKey(codec, after, p) && !SharesIP(codec, after, p)
    ensures AllDecode(codec, before + [p] + after)
    ensures Synced(codec, before + [p] + after) ==
            Apply(Synced(codec, before + after), ConfigOf(codec, p).value)
    decreases |after|
  {
    if after == [] {
      assert before + after == before && before + [p] + after == before + [p];
      SyncedSnoc(codec, before, p);
    } else {
      var n := |after| - 1;
      var init, q := after[..n], after[n];
      assert before + after == (before + init) + [q];
      assert before + [p] + after == (before + [p] + init) + [q];
      assert (before + after)[|before| + n] == q;
      assert forall i :: 0 <= i < |before + init| ==> (before + init)[i] == (before + after)[i];
      AddAnywhere(codec, before, p, init);
      SyncedSnoc(codec, before + init, q);
      SyncedSnoc(codec, before + [p] + init, q);
      hide Apply;
      ApplyCommutes(Synced(codec, before + init), ConfigOf(codec, q).value, ConfigOf(codec, p).value);
    }
  }

  lemma {:induction false} SyncedKeys(codec: Codec, ps: seq<Peer>, k: Key)
    requires AllDecode(codec, ps)
    ensures k in Synced(codec, ps) <==> exists i :: 0 <= i < |ps| && codec.key(ps[i].publicKey) == Some(k)
    decreases |ps|
  {
    if ps != [] {
      var n := |ps| - 1;
      assert ps == ps[..n] + [ps[n]];
      SyncedKeys(codec, ps[..n], k);
      SyncedSnoc(codec, ps[..n], ps[n]);
      if k in Synced(codec, ps[..n]) {
        var i :| 0 <= i < n && codec.key(ps[..n][i].publicKey) == Some(k);
        assert codec.key(ps[i].publicKey) == Some(k);
      }
      assert k == ConfigOf(codec, ps[n]).value.key <==> codec.key(ps[n].publicKey) == Some(k);
    }
  }

  /** An address no peer of the list has is allowed to none of the kernel's. */
  lemma {:induction false} SyncedAddresses(codec: Codec, ps: seq<Peer>, k: Key, ip: IPv4)
    requires AllDecode(codec, ps)
    requires k in Synced(codec, ps) && ip in Synced(codec, ps)[k].allowed
    ensures exists i :: 0 <= i < |ps| && codec.ipv4(ps[i].overlayIP) == Some(ip)
    decreases |ps|
  {
    if ps != [] {
      var n := |ps| - 1;
      assert ps == ps[..n] + [ps[n]];
      SyncedSnoc(codec, ps[..n], ps[n]);
      if k == ConfigOf(codec, ps[n]).value.key {
        assert codec.ipv4(ps[n].overlayIP) == Some(ip);
      } else {
        SyncedAddresses(codec, ps[..n], k, ip);
        var i :| 0 <= i < n && codec.ipv4(ps[..n][i].overlayIP) == Some(ip);
        assert codec.ipv4(ps[i].overlayIP) == Some(ip);
      }
    }
  }

  /** Equal except for who, if anyone, the address `ip` is allowed to. */
  ghost predicate EqualBut(a: Peers, b: Peers, ip: IPv4) {
    a.Keys == b.Keys &&
    forall k {:trigger a[k]} {:trigger b[k]} :: k in a ==>
      && a[k].endpoint == b[k].endpoint && a[k].keepalive == b[k].keepalive
      && a[k].allowed - {ip} == b[k].allowed - {ip}
  }

  lemma ApplyToEqualBut(a: Peers, b: Peers, cfg: PeerConfig, ip: IPv4)
    requires cfg.Update? && EqualBut(a, b, ip)
    ensures EqualBut(Apply(a, cfg), Apply(b, cfg), ip)
    ensures ip in cfg.allowed ==> Apply(a, cfg) == Apply(b, cfg)
  {
    forall k | k in a
      ensures a[k].allowed - cfg.allowed - {ip} == a[k].allowed - {ip} - cfg.allowed
      ensures b[k].allowed - cfg.allowed - {ip} == b[k].allowed - {ip} - cfg.allowed
    {
    }
    if ip in cfg.allowed {
      forall k | k in a
        ensures a[k].allowed - cfg.allowed == a[k].allowed - {ip} - cfg.allowed
        ensures b[k].allowed - cfg.allowed == b[k].allowed - {ip} - cfg.allowed
      {
      }
    }
  }

  lemma DeleteCommutes(peers: Peers, cfg: PeerConfig, key: Key)
    requires cfg.Update? && cfg.key != key
    ensures Apply(peers, cfg) - {key} == Apply(peers - {key}, cfg)
  {
  }

  lemma UpdateThenDelete(peers: Peers, cfg: PeerConfig, ip: IPv4)
    requires cfg.Update? && cfg.key !in peers && cfg.allowed == {ip}
    ensures EqualBut(peers, Apply(peers, cfg) - {cfg.key}, ip)
    ensures (forall k :: k in peers ==> ip !in peers[k].allowed) ==> Apply(peers, cfg) - {cfg.key} == peers
  {
    if forall k :: k in peers ==> ip !in peers[k].allowed {
      forall k | k in peers
        ensures peers[k].allowed - {ip} == peers[k].allowed
      {
      }
    }
  }

  /** The list without its last peer, and what applying that peer does. */
  lemma LastOfAfter(codec: Codec, before: seq<Peer>, p: Peer, after: seq<Peer>)
    requires AllDecode(codec, before + [p] + after) && after != []
    ensures var init, q := after[..|after| - 1], after[|after| - 1];
            && AllDecode(codec, before + [p] + init) && AllDecode(codec, before + init)
            && AllDecode(codec, before + after)
            && ConfigOf(codec, q).Some?
            && Synced(codec, before + [p] + after) ==
               Apply(Synced(codec, before + [p] + init), ConfigOf(codec, q).value)
            && Synced(codec, before + after) == Apply(Synced(codec, before + init), ConfigOf(codec, q).value)
  {
    var n := |after| - 1;
    var init, q := after[..n], after[n];
    var all := before + [p] + after;
    assert all == (before + [p] + init) + [q] && before + after == (before + init) + [q];
    assert all[|before| + 1 + n] == q;
    assert forall i :: 0 <= i < |before + [p] + init| ==> (before + [p] + init)[i] == all[i];
    assert forall i :: 0 <= i < |before + init| ==> (before + init)[i] == all[if i < |before| then i else i + 1];
    SyncedSnoc(codec, before + [p] + init, q);
    SyncedSnoc(codec, before + init, q);
  }

  /** Deleting a peer's key undoes its update but for the address. */
  lemma {:induction false} RemoveAlmost(codec: Codec, before: seq<Peer>, p: Peer, after: seq<Peer>)
    requires AllDecode(codec, before + [p] + after) && ConfigOf(codec, p).Some?
    requires !SharesKey(codec, before, p) && !SharesKey(codec, after, p)
    ensures AllDecode(codec, before + after)
    ensures EqualBut(Synced(codec, before + after),
                     Synced(codec, before + [p] + after) - {codec.key(p.publicKey).value},
                     codec.ipv4(p.overlayIP).value)
    decreases |after|
  {
    var key, ip := codec.key(p.publicKey).value, codec.ipv4(p.overlayIP).value;
    if after == [] {
      assert before + after == before && before + [p] + after == before + [p];
      assert forall i :: 0 <= i < |before| ==> (before + [p])[i] == before[i];
      SyncedSnoc(codec, before, p);
      SyncedKeys(codec, before, key);
      UpdateThenDelete(Synced(codec, before), ConfigOf(codec, p).value, ip);
    } else {
      var init, q := after[..|after| - 1], after[|after| - 1];
      LastOfAfter(codec, before, p, after);
      RemoveAlmost(codec, before, p, init);
      var cfg := ConfigOf(codec, q).value;
      DeleteCommutes(Synced(codec, before + [p] + init), cfg, key);
      ApplyToEqualBut(Synced(codec, before + init), Synced(codec, before + [p] + init) - {key}, cfg, ip);
    }
  }

  /** Deleting a peer's key equals a sync without the peer, when no other peer has the key, and a peer
      before it has the address only if one after it has. Keys and addresses of the others may clash. */
  lemma {:induction false} RemoveAnywhere(codec: Codec, before: seq<Peer>, p: Peer, after: seq<Peer>)
    requires AllDecode(codec, before + [p] + after) && ConfigOf(codec, p).Some?
    requires !SharesKey(codec, before, p) && !SharesKey(codec, after, p)
    requires SharesIP(codec, before, p) ==> SharesIP(codec, after, p)
    ensures AllDecode(codec, before + after)
    ensures Synced(codec, before + after) ==
            Synced(codec, before + [p] + after) - {codec.key(p.publicKey).value}
    decreases |after|
  {
    var key, ip := codec.key(p.publicKey).value, codec.ipv4(p.overlayIP).value;
    if after == [] {
      assert before + after == before && before + [p] + after == before + [p];
      assert forall i :: 0 <= i < |before| ==> (before + [p])[i] == before[i];
      SyncedSnoc(codec, before, p);
      SyncedKeys(codec, before, key);
      forall k | k in Synced(codec, before)
        ensures ip !in Synced(codec, before)[k].allowed
      {
        if ip in Synced(codec, before)[k].allowed { SyncedAddresses(codec, before, k, ip); }
      }
      UpdateThenDelete(Synced(codec, before), ConfigOf(codec, p).value, ip);
    } else {
      var init, q := after[..|after| - 1], after[|after| - 1];
      LastOfAfter(codec, before, p, after);
      RemoveAlmost(codec, before, p, init);
      var cfg := ConfigOf(codec, q).value;
      DeleteCommutes(Synced(codec, before + [p] + init), cfg, key);
      if codec.ipv4(q.overlayIP) == Some(ip) {
        ApplyToEqualBut(Synced(codec, before + init), Synced(codec, before + [p] + init) - {key}, cfg, ip);
      } else {
        assert SharesIP(codec, after, p) ==> SharesIP(codec, init, p) by {
          if SharesIP(codec, after, p) {
            var i :| 0 <= i < |after| && codec.ipv4(after[i].overlayIP) == codec.ipv4(p.overlayIP);
            assert init[i] == after[i];
          }
        }
        RemoveAnywhere(codec, before, p, init);
      }
    }
  }

  /** What a sync installs for a peer no other shares the key of: its endpoint, kept alive, if it has
      one, and its own address, unless a later peer takes that. */
  lemma {:induction false} SyncInstalls(codec: Codec, before: seq<Peer>, p: Peer, after: seq<Peer>)
    requires AllDecode(codec, before + [p] + after) && ConfigOf(codec, p).Some?
    requires !SharesKey(codec, before, p) && !SharesKey(codec, after, p)
    ensures var key, peers := codec.key(p.publicKey).value, Synced(codec, before + [p] + after);
            && key in peers
            && peers[key].allowed == (if SharesIP(codec, after, p) then {} else {codec.ipv4(p.overlayIP).value})
            && peers[key].endpoint == (if p.endpoint == "" then None else codec.resolve(p.endpoint))
            && peers[key].keepalive == (if p.endpoint == "" then None else Some(25))
    decreases |after|
  {
    var key := codec.key(p.publicKey).value;
    if after == [] {
      assert before + [p] + after == before + [p];
      assert forall i :: 0 <= i < |before| ==> (before + [p])[i] == before[i];
      SyncedSnoc(codec, before, p);
      SyncedKeys(codec, before, key);
    } else {
      var init, q := after[..|after| - 1], after[|after| - 1];
      LastOfAfter(codec, before, p, after);
      SyncInstalls(codec, before, p, init);
      SharesIPOfLast(codec, after, p);
      assert codec.key(q.publicKey) != codec.key(p.publicKey);
      hide Synced, AllDecode, SharesIP, SharesKey;
      ApplyElsewhere(Synced(codec, before + [p] + init), ConfigOf(codec, q).value, key);
    }
  }

  lemma SharesIPOfLast(codec: Codec, after: seq<Peer>, p: Peer)
    requires after != []
    ensures var init, q := after[..|after| - 1], after[|after| - 1];
            SharesIP(codec, after, p) <==>
            SharesIP(codec, init, p) || codec.ipv4(q.overlayIP) == codec.ipv4(p.overlayIP)
  {
    var init := after[..|after| - 1];
    if SharesIP(codec, init, p) {
      var i :| 0 <= i < |init| && codec.ipv4(init[i].overlayIP) == codec.ipv4(p.overlayIP);
      assert after[i] == init[i];
    }
    if SharesIP(codec, after, p) {
      var i :| 0 <= i < |after| && codec.ipv4(after[i].overlayIP) == codec.ipv4(p.overlayIP);
      assert i < |init| ==> init[i] == after[i];
    }
  }

  /** An update of another key takes away no more than addresses. */
  lemma ApplyElsewhere(peers: Peers, cfg: PeerConfig, key: Key)
    requires cfg.Update? && cfg.key != key && key in peers
    ensures key in Apply(peers, cfg) && Apply(peers, cfg)[key].allowed == peers[key].allowed - cfg.allowed
    ensures Apply(peers, cfg)[key].endpoint == peers[key].endpoint
    ensures Apply(peers, cfg)[key].keepalive == peers[key].keepalive
  {
  }

  /** No two peers of the list decode to one key. */
  ghost predicate KeysApart(codec: Codec, ps: seq<Peer>) {
    forall i, j :: 0 <= i < j < |ps| ==> codec.key(ps[i].publicKey) != codec.key(ps[j].publicKey)
  }

  /** If removing a peer leaves the kernel as a sync would, no other peer decodes to its key. */
  lemma AgreementNeedsTheKeyAlone(codec: Codec, before: seq<Peer>, p: Peer, after: seq<Peer>)
    requires AllDecode(codec, before + [p] + after) && ConfigOf(codec, p).Some? && AllDecode(codec, before + after)
    requires Synced(codec, before + [p] + after) - {codec.key(p.publicKey).value} == Synced(codec, before + after)
    ensures !SharesKey(codec, before + after, p)
  {
    SyncedKeys(codec, before + after, codec.key(p.publicKey).value);
  }

  /** Where decoded keys are apart, removing a peer leaves the kernel as a sync would exactly when an
      earlier peer of its address implies a later one: otherwise the kernel lets the earlier one go
      without the address the removed peer had taken from it. */
  lemma RemoveAgreesExactlyWhen(codec: Codec, before: seq<Peer>, p: Peer, after: seq<Peer>)
    requires AllDecode(codec, before + [p] + after) && ConfigOf(codec, p).Some?
    requires KeysApart(codec, before + [p] + after)
    ensures AllDecode(codec, before + after)
    ensures (Synced(codec, before + [p] + after) - {codec.key(p.publicKey).value} == Synced(codec, before + after)) <==>
            (SharesIP(codec, before, p) ==> SharesIP(codec, after, p))
  {
    NotSharedAround(codec, before, p, after);
    RemoveAlmost(codec, before, p, after);
    if SharesIP(codec, before, p) ==> SharesIP(codec, after, p) {
      RemoveAnywhere(codec, before, p, after);
    } else {
      var q := LosesItsAddress(codec, before, p, after);
    }
  }

  lemma NotSharedAround(codec: Codec, before: seq<Peer>, p: Peer, after: seq<Peer>)
    requires KeysApart(codec, before + [p] + after)
    ensures !SharesKey(codec, before, p) && !SharesKey(codec, after, p) && KeysApart(codec, before + after)
  {
    var all := before + [p] + after;
    assert all[|before|] == p;
    assert forall i :: 0 <= i < |before| ==> all[i] == before[i];
    assert forall i :: 0 <= i < |after| ==> all[|before| + 1 + i] == after[i];
    assert forall i :: 0 <= i < |before + after| ==> (before + after)[i] == all[if i < |before| then i else i + 1];
  }

  /** The peer a removal leaves without its address: the last one before `p` that shares it. */
  lemma LosesItsAddress(codec: Codec, before: seq<Peer>, p: Peer, after: seq<Peer>) returns (q: Peer)
    requires AllDecode(codec, before + [p] + after) && ConfigOf(codec, p).Some? && AllDecode(codec, before + after)
    requires KeysApart(codec, before + [p] + after)
    requires SharesIP(codec, before, p) && !SharesIP(codec, after, p)
    ensures q in before && codec.ipv4(q.overlayIP) == codec.ipv4(p.overlayIP)
    ensures codec.key(q.publicKey).Some? && codec.key(q.publicKey) != codec.key(p.publicKey)
    ensures var key := codec.key(q.publicKey).value;
            && key in Synced(codec, before + [p] + after) && Synced(codec, before + [p] + after)[key].allowed == {}
            && key in Synced(codec, before + after)
            && Synced(codec, before + after)[key].allowed == {codec.ipv4(p.overlayIP).value}
  {
    var j := LastSharer(codec, before, p);
    q := before[j];
    var head, tail := before[..j], before[j + 1..];
    assert before == head + [q] + tail;
    assert before + [p] + after == head + [q] + (tail + [p] + after);
    assert before + after == head + [q] + (tail + after);
    assert (before + [p] + after)[j] == q && (before + [p] + after)[|before|] == p;
    NotSharedAround(codec, before, p, after);
    NotSharedAround(codec, head, q, tail + [p] + after);
    NotSharedAround(codec, head, q, tail + after);
    assert (tail + [p] + after)[|tail|] == p;
    assert SharesIP(codec, tail + [p] + after, q);
    SyncInstalls(codec, head, q, tail + [p] + after);
    SyncInstalls(codec, head, q, tail + after);
  }

  lemma {:induction false} LastSharer(codec: Codec, ps: seq<Peer>, p: Peer) returns (j: nat)
    requires SharesIP(codec, ps, p)
    ensures j < |ps| && codec.ipv4(ps[j].overlayIP) == codec.ipv4(p.overlayIP)
    ensures !SharesIP(codec, ps[j + 1..], p)
    decreases |ps|
  {
    j := |ps| - 1;
    if codec.ipv4(ps[j].overlayIP) != codec.ipv4(p.overlayIP) {
      var i :| 0 <= i < |ps| && codec.ipv4(ps[i].overlayIP) == codec.ipv4(p.overlayIP);
      assert ps[..j][i] == ps[i];
      var last := j;
      j := LastSharer(codec, ps[..last], p);
      var rest, seen := ps[j + 1..], ps[..last][j + 1..];
      forall k | 0 <= k < |rest|
        ensures codec.ipv4(rest[k].overlayIP) != codec.ipv4(p.overlayIP)
      {
        assert k < |seen| ==> seen[k] == rest[k];
      }
    }
  }

  /** Adding a peer whose key is new leaves the kernel as a sync would exactly when no peer after it in
      the list has its address: the kernel gives the address to the newcomer, a sync to the later one. */
  lemma AddAgreesExactlyWhen(codec: Codec, before: seq<Peer>, p: Peer, after: seq<Peer>)
    requires AllDecode(codec, before + after) && ConfigOf(codec, p).Some?
    requires !SharesKey(codec, before, p) && !SharesKey(codec, after, p)
    ensures AllDecode(codec, before + [p] + after)
    ensures Apply(Synced(codec, before + after), ConfigOf(codec, p).value) == Synced(codec, before + [p] + after) <==>
            !SharesIP(codec, after, p)
  {
    var all := before + [p] + after;
    assert forall i :: 0 <= i < |all| ==>
      all[i] == if i == |before| then p else (before + after)[if i < |before| then i else i - 1];
    if SharesIP(codec, after, p) {
      SyncInstalls(codec, before, p, after);
    } else {
      AddAnywhere(codec, before, p, after);
    }
  }

  /** Cryptokey routing: no address is allowed to two peers. */
  ghost predicate RoutesUnique(peers: Peers) {
    forall j, k :: j in peers && k in peers && j != k ==> peers[j].allowed !! peers[k].allowed
  }

  /** Every kernel state reached by any entries, clashing ones included, routes each address one way. */
  lemma {:induction false} RoutesStayUnique(peers: Peers, cfgs: seq<PeerConfig>)
    requires RoutesUnique(peers)
    ensures RoutesUnique(ApplyAll(peers, cfgs))
    decreases |cfgs|
  {
    if cfgs != [] {
      RoutesStayUnique(peers, cfgs[..|cfgs| - 1]);
    }
  }
}
