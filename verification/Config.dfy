/** The FRR configuration rendered from the store and the tree, read back.

    A line is its sequence of words; `ConfigText` says when the text written tells them. */
module Config {
  import opened Prelude
  import opened Graph
  import opened SpanningTree
  import opened OverlayTopology
  import opened PartialViews
  import opened PeerStore

  datatype Word = W(text: string)

  function Digits(n: nat): string {
    (if n < 10 then [] else Digits(n / 10)) + [(('0' as int) + n % 10) as char]
  }

  /** A number is written in decimal. */
  function N(n: nat): Word {
    W(Digits(n))
  }

  /** The number a decimal numeral stands for; None for any other text. */
  function Decimal(text: string): Option<nat> {
    if text == "" then None
    else
      var n := |text| - 1;
      if !('0' <= text[n] <= '9') then None
      else
        var unit := text[n] as int - '0' as int;
        if n == 0 then Some(unit)
        else match Decimal(text[..n]) case None => None case Some(tens) => Some(10 * tens + unit)
  }

  lemma {:induction false} DecimalOfDigits(n: nat)
    ensures Decimal(Digits(n)) == Some(n)
    ensures Digits(n) != "" && (n > 0 ==> Digits(n)[0] != '0')
    decreases n
  {
    var text := Digits(n);
    assert text[|text| - 1] as int - '0' as int == n % 10;
    assert text[..|text| - 1] == if n < 10 then [] else Digits(n / 10);
    if n >= 10 { DecimalOfDigits(n / 10); }
  }

  lemma DigitsTell(m: nat, n: nat)
    ensures Digits(m) == Digits(n) <==> m == n
  {
    DecimalOfDigits(m);
    DecimalOfDigits(n);
  }

  type Line = seq<Word>

  function Neighbor(ip: string, rest: seq<Word>): Line {
    [W("neighbor"), W(ip)] + rest
  }

  /** The lines before the address family, for one peer. */
  function Declare(node: Node, ip: string): seq<Line> {
    [Neighbor(ip, [W("remote-as"), N(node.asn)]),
     Neighbor(ip, [W("update-source"), W(node.overlayIP)]),
     Neighbor(ip, [W("bfd"), W("profile"), W("l2mesh")])]
  }

  /** The lines inside it: a client is one more line, a peer outside the tree another. */
  function Activate(ip: string, client: bool, mst: seq<string>): seq<Line> {
    [Neighbor(ip, [W("activate")])]
    + (if client then [Neighbor(ip, [W("route-reflector-client")])] else [])
    + [Neighbor(ip, [W("next-hop-self"), W("force")])]
    + (if ip in mst then [] else [Neighbor(ip, [W("route-map"), W("BLOCK_T3"), W("in")])])
  }

  function DeclareAll(node: Node, peers: seq<Peer>): seq<Line> {
    if peers == [] then [] else Declare(node, peers[0].overlayIP) + DeclareAll(node, peers[1..])
  }

  function ActivateAll(peers: seq<Peer>, clients: bool, mst: seq<string>): seq<Line> {
    if peers == [] then [] else Activate(peers[0].overlayIP, clients, mst) + ActivateAll(peers[1..], clients, mst)
  }

  function Header(node: Node): seq<Line> {
    [[W("frr"), W("defaults"), W("datacenter")], [W("hostname"), W(node.name)], [W("!")],
     [W("bfd")], [W("profile"), W("l2mesh")], [W("receive-interval"), N(300)], [W("transmit-interval"), N(300)],
     [W("detect-multiplier"), N(3)], [W("exit")], [W("exit")], [W("!")],
     [W("route-map"), W("BLOCK_T3"), W("deny"), N(10)], [W("match"), W("evpn"), W("route-type"), W("multicast")],
     [W("route-map"), W("BLOCK_T3"), W("permit"), N(100)], [W("!")],
     [W("router"), W("bgp"), N(node.asn)], [W("bgp"), W("router-id"), W(node.overlayIP)],
     [W("no"), W("bgp"), W("default"), W("ipv4-unicast")]]
  }

  function Family(): seq<Line> {
    [[W("!")], [W("address-family"), W("l2vpn"), W("evpn")]]
  }

  function Footer(node: Node): seq<Line> {
    [[W("advertise-all-vni")], [W("vni"), N(node.vni)], [W("advertise-svi-ip")], [W("exit-vni")],
     [W("exit-address-family")], [W("exit")], [W("!")]]
  }

  function Render(s: State, mst: seq<string>): seq<Line> {
    Header(s.node) + DeclareAll(s.node, s.roots) + DeclareAll(s.node, s.leafs) + Family()
    + ActivateAll(s.roots, false, mst) + ActivateAll(s.leafs, true, mst) + Footer(s.node)
  }

  function IPs(peers: seq<Peer>): seq<string> {
    seq(|peers|, i requires 0 <= i < |peers| => peers[i].overlayIP)
  }

  /** No list given: every configured peer counts as a tree neighbour. An empty list is a list. */
  function TreeOrAll(s: State, mst: Option<seq<string>>): seq<string> {
    if mst == None then IPs(FlatPeers(s)) else mst.value
  }

  method GenerateConfig(s: State, mst: Option<seq<string>>) returns (lines: seq<Line>)
    ensures lines == Render(s, TreeOrAll(s, mst))
    ensures forall ip :: ip in Read(lines, Blocked) <==> mst.Some? && ip in IPs(FlatPeers(s)) && ip !in mst.value
  {
    var list := [];
    if mst == None {
      var peers := FlatPeers(s);
      for i := 0 to |peers|
        invariant list == IPs(peers[..i])
      {
        list := list + [peers[i].overlayIP];
      }
      assert peers[..|peers|] == peers;
    } else {
      list := mst.value;
    }
    lines := Render(s, list);
    hide Render, Read;
    forall ip
      ensures ip in Read(lines, Blocked) <==> mst.Some? && ip in IPs(FlatPeers(s)) && ip !in mst.value
    {
      BlockedExactly(s, list, ip);
    }
  }

  /** FRR on the host: whether it is installed, and the configuration it runs. */
  class Frr {
    const installed: bool
    var config: seq<Line>

    constructor (installed: bool, config: seq<Line>)
      ensures this.installed == installed && this.config == config
    {
      this.installed, this.config := installed, config;
    }

    /** `frr.Apply`: nothing where FRR is not installed, and nothing where writing or reloading fails. */
    method Apply(s: State, mst: Option<seq<string>>, reloads: bool) returns (ok: bool)
      modifies this
      ensures ok <==> !installed || reloads
      ensures config == if installed && reloads then Render(s, TreeOrAll(s, mst)) else old(config)
    {
      if !installed {
        return true;
      }
      var lines := GenerateConfig(s, mst);
      if reloads {
        config := lines;
      }
      return reloads;
    }
  }

  /** What follows `neighbor <ip>` on the lines a reader looks for. */
  datatype Kind = Declared(asn: nat) | Source(ip: string) | Bfd | Activated | Client | NextHopSelf | Blocked

  function Tail(kind: Kind): seq<Word> {
    match kind
    case Declared(asn) => [W("remote-as"), N(asn)]
    case Source(ip) => [W("update-source"), W(ip)]
    case Bfd => [W("bfd"), W("profile"), W("l2mesh")]
    case Activated => [W("activate")]
    case Client => [W("route-reflector-client")]
    case NextHopSelf => [W("next-hop-self"), W("force")]
    case Blocked => [W("route-map"), W("BLOCK_T3"), W("in")]
  }

  predicate Matches(line: Line, kind: Kind) {
    |line| >= 2 && line[0] == W("neighbor") && line[1].W? && line[2..] == Tail(kind)
  }

  /** The addresses on the lines of one kind, in the order of the file. */
  ghost function Read(lines: seq<Line>, kind: Kind): seq<string> {
    if lines == [] then []
    else (if Matches(lines[0], kind) then [lines[0][1].text] else []) + Read(lines[1..], kind)
  }

  lemma {:induction false} ReadConcat(a: seq<Line>, b: seq<Line>, kind: Kind)
    ensures Read(a + b, kind) == Read(a, kind) + Read(b, kind)
    decreases |a|
  {
    if a == [] {
      assert a + b == b;
    } else {
      assert (a + b)[1..] == a[1..] + b;
      ReadConcat(a[1..], b, kind);
    }
  }

  lemma {:induction false} ReadOtherLines(lines: seq<Line>, kind: Kind)
    requires forall i :: 0 <= i < |lines| ==> |lines[i]| > 0 && lines[i][0] != W("neighbor")
    ensures Read(lines, kind) == []
    decreases |lines|
  {
    if lines != [] {
      ReadOtherLines(lines[1..], kind);
    }
  }

  ghost function NotIn(ips: seq<string>, mst: seq<string>): seq<string> {
    if ips == [] then [] else (if ips[0] in mst then [] else [ips[0]]) + NotIn(ips[1..], mst)
  }

  lemma TailTells(a: Kind, b: Kind)
    ensures Tail(a) == Tail(b) <==> a == b
  {
    if a.Declared? && b.Declared? { DigitsTell(a.asn, b.asn); }
    hide Digits;
    assert "remote-as"[0] != "update-source"[0] && "next-hop-self"[0] != "route-map"[0];
  }

  lemma ReadOne(ip: string, line: Kind, kind: Kind)
    ensures Read([Neighbor(ip, Tail(line))], kind) == if line == kind then [ip] else []
  {
    TailTells(line, kind);
    hide Tail;
    assert Neighbor(ip, Tail(line))[2..] == Tail(line);
  }

  ghost predicate InDeclaration(node: Node, kind: Kind) {
    kind == Declared(node.asn) || kind == Source(node.overlayIP) || kind == Bfd
  }

  lemma ReadDeclare(node: Node, ip: string, kind: Kind)
    ensures Read(Declare(node, ip), kind) == if InDeclaration(node, kind) then [ip] else []
  {
    var a, b := [Neighbor(ip, Tail(Declared(node.asn)))], [Neighbor(ip, Tail(Source(node.overlayIP)))];
    var c := [Neighbor(ip, Tail(Bfd))];
    assert Declare(node, ip) == a + (b + c);
    ReadConcat(a, b + c, kind);
    ReadConcat(b, c, kind);
    ReadOne(ip, Declared(node.asn), kind);
    ReadOne(ip, Source(node.overlayIP), kind);
    ReadOne(ip, Bfd, kind);
  }

  /** The neighbour lines of one kind inside the address family. */
  ghost function ActivateReads(ip: string, client: bool, mst: seq<string>, kind: Kind): seq<string> {
    match kind
    case Activated => [ip]
    case NextHopSelf => [ip]
    case Client => if client then [ip] else []
    case Blocked => if ip in mst then [] else [ip]
    case _ => []
  }

  lemma ReadActivate(ip: string, client: bool, mst: seq<string>, kind: Kind)
    ensures Read(Activate(ip, client, mst), kind) == ActivateReads(ip, client, mst, kind)
  {
    hide Activate, Tail, Read;
    var a, c := [Neighbor(ip, Tail(Activated))], [Neighbor(ip, Tail(NextHopSelf))];
    var b := if client then [Neighbor(ip, Tail(Client))] else [];
    var d := if ip !in mst then [Neighbor(ip, Tail(Blocked))] else [];
    ActivateParts(ip, client, mst);
    ReadFour(a, b, c, d, kind);
    ReadOne(ip, Activated, kind);
    ReadOptional(ip, Client, client, kind);
    ReadOne(ip, NextHopSelf, kind);
    ReadOptional(ip, Blocked, ip !in mst, kind);
  }

  lemma ActivateParts(ip: string, client: bool, mst: seq<string>)
    ensures Activate(ip, client, mst) ==
            [Neighbor(ip, Tail(Activated))] + (if client then [Neighbor(ip, Tail(Client))] else [])
            + [Neighbor(ip, Tail(NextHopSelf))] + (if ip !in mst then [Neighbor(ip, Tail(Blocked))] else [])
  {
  }

  lemma ReadFour(a: seq<Line>, b: seq<Line>, c: seq<Line>, d: seq<Line>, kind: Kind)
    ensures Read(a + b + c + d, kind) == Read(a, kind) + Read(b, kind) + Read(c, kind) + Read(d, kind)
  {
    hide Read;
    ReadConcat(a + b + c, d, kind);
    ReadConcat(a + b, c, kind);
    ReadConcat(a, b, kind);
  }

  lemma ReadOptional(ip: string, line: Kind, present: bool, kind: Kind)
    ensures Read(if present then [Neighbor(ip, Tail(line))] else [], kind) ==
            if present && line == kind then [ip] else []
  {
    if present { ReadOne(ip, line, kind); }
  }

  lemma {:induction false} ReadDeclareAll(node: Node, peers: seq<Peer>, kind: Kind)
    ensures Read(DeclareAll(node, peers), kind) == if InDeclaration(node, kind) then IPs(peers) else []
    decreases |peers|
  {
    if peers != [] {
      ReadConcat(Declare(node, peers[0].overlayIP), DeclareAll(node, peers[1..]), kind);
      ReadDeclare(node, peers[0].overlayIP, kind);
      ReadDeclareAll(node, peers[1..], kind);
      FirstIP(peers);
      hide Declare, InDeclaration, Read, IPs;
    }
  }

  lemma FirstIP(peers: seq<Peer>)
    requires peers != []
    ensures IPs(peers) == [peers[0].overlayIP] + IPs(peers[1..]) && IPs(peers)[1..] == IPs(peers[1..])
  {
  }

  lemma IPsConcat(a: seq<Peer>, b: seq<Peer>)
    ensures IPs(a + b) == IPs(a) + IPs(b)
  {
  }

  ghost function ActivateAllReads(peers: seq<Peer>, clients: bool, mst: seq<string>, kind: Kind): seq<string> {
    match kind
    case Activated => IPs(peers)
    case NextHopSelf => IPs(peers)
    case Client => if clients then IPs(peers) else []
    case Blocked => NotIn(IPs(peers), mst)
    case _ => []
  }

  lemma {:induction false} ReadActivateAll(peers: seq<Peer>, clients: bool, mst: seq<string>, kind: Kind)
    ensures Read(ActivateAll(peers, clients, mst), kind) == ActivateAllReads(peers, clients, mst, kind)
    decreases |peers|
  {
    if peers != [] {
      var ip := peers[0].overlayIP;
      ReadConcat(Activate(ip, clients, mst), ActivateAll(peers[1..], clients, mst), kind);
      ReadActivate(ip, clients, mst, kind);
      ReadActivateAll(peers[1..], clients, mst, kind);
      hide Activate, Read;
      FirstIP(peers);
    }
  }

  /** Everything before the address family: declarations, and no other neighbour line a reader wants. */
  ghost function Front(s: State): seq<Line> {
    Header(s.node) + DeclareAll(s.node, s.roots) + DeclareAll(s.node, s.leafs)
  }

  ghost function Back(s: State, mst: seq<string>): seq<Line> {
    Family() + ActivateAll(s.roots, false, mst) + ActivateAll(s.leafs, true, mst) + Footer(s.node)
  }

  lemma OtherLines(node: Node, kind: Kind)
    ensures Read(Header(node), kind) == [] && Read(Family(), kind) == [] && Read(Footer(node), kind) == []
  {
    hide Read;
    ReadOtherLines(Header(node), kind);
    ReadOtherLines(Family(), kind);
    ReadOtherLines(Footer(node), kind);
  }

  lemma ReadFront(s: State, kind: Kind)
    ensures Read(Front(s), kind) == if InDeclaration(s.node, kind) then IPs(FlatPeers(s)) else []
  {
    hide Read, Header, DeclareAll, InDeclaration, IPs;
    ReadConcat(Header(s.node) + DeclareAll(s.node, s.roots), DeclareAll(s.node, s.leafs), kind);
    ReadConcat(Header(s.node), DeclareAll(s.node, s.roots), kind);
    OtherLines(s.node, kind);
    ReadDeclareAll(s.node, s.roots, kind);
    ReadDeclareAll(s.node, s.leafs, kind);
    IPsConcat(s.roots, s.leafs);
  }

  lemma ReadBack(s: State, mst: seq<string>, kind: Kind)
    ensures Read(Back(s, mst), kind) ==
            ActivateAllReads(s.roots, false, mst, kind) + ActivateAllReads(s.leafs, true, mst, kind)
  {
    hide Read, Family, Footer, ActivateAll;
    ReadFour(Family(), ActivateAll(s.roots, false, mst), ActivateAll(s.leafs, true, mst), Footer(s.node), kind);
    OtherLines(s.node, kind);
    ReadActivateAll(s.roots, false, mst, kind);
    ReadActivateAll(s.leafs, true, mst, kind);
  }

  lemma {:induction false} NotInConcat(a: seq<string>, b: seq<string>, mst: seq<string>)
    ensures NotIn(a + b, mst) == NotIn(a, mst) + NotIn(b, mst)
    decreases |a|
  {
    if a == [] {
      assert a + b == b;
    } else {
      assert (a + b)[1..] == a[1..] + b;
      NotInConcat(a[1..], b, mst);
    }
  }

  lemma {:induction false} NotInMember(ips: seq<string>, mst: seq<string>, ip: string)
    ensures ip in NotIn(ips, mst) <==> ip in ips && ip !in mst
    decreases |ips|
  {
    if ips != [] {
      NotInMember(ips[1..], mst, ip);
      assert ips == [ips[0]] + ips[1..];
    }
  }

  lemma RenderParts(s: State, mst: seq<string>)
    ensures Render(s, mst) == Front(s) + Back(s, mst)
  {
  }

  /** Reading the rendered lines back: who is declared under which AS and source, who is activated,
      who is a client, and who is blocked, each in the order of the store. */
  lemma ReadRender(s: State, mst: seq<string>, kind: Kind)
    ensures Read(Render(s, mst), kind) ==
            match kind
            case Declared(asn) => if asn == s.node.asn then IPs(FlatPeers(s)) else []
            case Source(ip) => if ip == s.node.overlayIP then IPs(FlatPeers(s)) else []
            case Client => IPs(s.leafs)
            case Blocked => NotIn(IPs(FlatPeers(s)), mst)
            case _ => IPs(FlatPeers(s))
  {
    RenderParts(s, mst);
    hide Read, Front, Back, Render;
    ReadConcat(Front(s), Back(s, mst), kind);
    ReadFront(s, kind);
    ReadBack(s, mst, kind);
    IPsConcat(s.roots, s.leafs);
    NotInConcat(IPs(s.roots), IPs(s.leafs), mst);
  }

  /** The configuration determines what it was rendered from: two stores and lists that render alike
      agree on the router, on both kinds of neighbours, and on which of them are blocked. */
  lemma RenderIsFaithful(s: State, mst: seq<string>, s': State, mst': seq<string>)
    requires Render(s, mst) == Render(s', mst')
    ensures s.node.name == s'.node.name && s.node.asn == s'.node.asn && s.node.overlayIP == s'.node.overlayIP
    ensures s.node.vni == s'.node.vni
    ensures IPs(s.roots) == IPs(s'.roots) && IPs(s.leafs) == IPs(s'.leafs)
    ensures forall ip :: ip in IPs(FlatPeers(s)) ==> (ip in mst <==> ip in mst')
  {
    ReadSettings(s, mst);
    ReadSettings(s', mst');
    hide Read, Render, NotIn, Setting, Digits;
    DigitsTell(s.node.asn, s'.node.asn);
    DigitsTell(s.node.vni, s'.node.vni);
    ReadRender(s, mst, Activated);
    ReadRender(s', mst', Activated);
    ReadRender(s, mst, Client);
    ReadRender(s', mst', Client);
    ReadRender(s, mst, Blocked);
    ReadRender(s', mst', Blocked);
    SplitByClients(s, s');
    forall ip | ip in IPs(FlatPeers(s))
      ensures ip in mst <==> ip in mst'
    {
      NotInMember(IPs(FlatPeers(s)), mst, ip);
      NotInMember(IPs(FlatPeers(s')), mst', ip);
    }
  }

  ghost predicate Starts(line: Line, words: seq<Word>) {
    |words| < |line| && line[..|words|] == words
  }

  /** The word after `words` on the first line that starts with them. */
  ghost function Setting(lines: seq<Line>, words: seq<Word>): Option<Word> {
    if lines == [] then None
    else if Starts(lines[0], words) then Some(lines[0][|words|])
    else Setting(lines[1..], words)
  }

  lemma {:induction false} SettingAt(lines: seq<Line>, words: seq<Word>, i: nat)
    requires i < |lines| && Starts(lines[i], words)
    requires forall k :: 0 <= k < i ==> !Starts(lines[k], words)
    ensures Setting(lines, words) == Some(lines[i][|words|])
    decreases i
  {
    if i > 0 {
      SettingAt(lines[1..], words, i - 1);
    }
  }

  ghost function First(line: Line): string {
    if line != [] && line[0].W? then line[0].text else ""
  }

  lemma FirstTells(line: Line, words: seq<Word>)
    requires words != [] && words[0].W? && First(line) != words[0].text
    ensures !Starts(line, words)
  {
  }

  /** The first words of the fixed lines. */
  lemma FirstWords(node: Node, k: nat)
    ensures k < |Header(node)| ==> First(Header(node)[k]) != "vni"
    ensures k < 16 ==> First(Header(node)[k]) != "bgp"
    ensures k < 15 ==> First(Header(node)[k]) != "router"
    ensures k < 1 ==> First(Header(node)[k]) != "hostname"
    ensures k < |Family()| ==> First(Family()[k]) != "vni"
    ensures First(Footer(node)[0]) != "vni"
  {
    assert "frr"[0] != "bgp"[0] && "bfd"[1] != "bgp"[1];
    assert "frr"[0] != "vni"[0] && "bfd"[0] != "vni"[0] && "bgp"[0] != "vni"[0];
    if k < |Header(node)| {
      assert |First(Header(node)[k])| in {1, 2, 4, 5, 7, 8, 9, 16, 17} || k in {0, 3, 15, 16};
    }
  }

  lemma {:induction false} NeighbourLines(node: Node, peers: seq<Peer>, clients: bool, mst: seq<string>)
    ensures forall k :: 0 <= k < |DeclareAll(node, peers)| ==> First(DeclareAll(node, peers)[k]) == "neighbor"
    ensures forall k :: 0 <= k < |ActivateAll(peers, clients, mst)| ==>
              First(ActivateAll(peers, clients, mst)[k]) == "neighbor"
    decreases |peers|
  {
    if peers != [] {
      NeighbourLines(node, peers[1..], clients, mst);
      assert forall line :: line in Declare(node, peers[0].overlayIP) ==> First(line) == "neighbor";
      assert forall line :: line in Activate(peers[0].overlayIP, clients, mst) ==> First(line) == "neighbor";
    }
  }

  /** Reading the settings back. */
  lemma ReadSettings(s: State, mst: seq<string>)
    ensures Setting(Render(s, mst), [W("hostname")]) == Some(W(s.node.name))
    ensures Setting(Render(s, mst), [W("router"), W("bgp")]) == Some(N(s.node.asn))
    ensures Setting(Render(s, mst), [W("bgp"), W("router-id")]) == Some(W(s.node.overlayIP))
    ensures Setting(Render(s, mst), [W("vni")]) == Some(N(s.node.vni))
  {
    HeaderSettings(s.node, Render(s, mst));
    VniSetting(s, mst);
  }

  lemma HeaderSettings(node: Node, lines: seq<Line>)
    requires Header(node) <= lines
    ensures Setting(lines, [W("hostname")]) == Some(W(node.name))
    ensures Setting(lines, [W("router"), W("bgp")]) == Some(N(node.asn))
    ensures Setting(lines, [W("bgp"), W("router-id")]) == Some(W(node.overlayIP))
  {
    hide Setting;
    var h := Header(node);
    forall k | 0 <= k < |h|
      ensures lines[k] == h[k]
      ensures k < 16 ==> !Starts(lines[k], [W("bgp"), W("router-id")])
      ensures k < 15 ==> !Starts(lines[k], [W("router"), W("bgp")])
      ensures k < 1 ==> !Starts(lines[k], [W("hostname")])
    {
      FirstWords(node, k);
      if k < 16 { FirstTells(h[k], [W("bgp"), W("router-id")]); }
      if k < 15 { FirstTells(h[k], [W("router"), W("bgp")]); }
      if k < 1 { FirstTells(h[k], [W("hostname")]); }
    }
    SettingAt(lines, [W("hostname")], 1);
    SettingAt(lines, [W("router"), W("bgp")], 15);
    SettingAt(lines, [W("bgp"), W("router-id")], 16);
  }

  lemma VniSetting(s: State, mst: seq<string>)
    ensures Setting(Render(s, mst), [W("vni")]) == Some(N(s.node.vni))
  {
    hide Header, DeclareAll, ActivateAll, First, Family;
    var lines, n := Render(s, mst), |Render(s, mst)| - 6;
    NeighbourLines(s.node, s.roots, false, mst);
    NeighbourLines(s.node, s.leafs, true, mst);
    var head := Front(s) + Family() + ActivateAll(s.roots, false, mst) + ActivateAll(s.leafs, true, mst);
    assert lines == head + Footer(s.node);
    forall k | 0 <= k < n
      ensures First(lines[k]) != "vni"
    {
      FirstWords(s.node, k);
      FirstWords(s.node, if k < |Front(s)| then 0 else k - |Front(s)|);
      assert |"neighbor"| == 8;
      assert k == |head| ==> lines[k] == Footer(s.node)[0];
    }
    hide Setting, Render;
    forall k | 0 <= k < n
      ensures !Starts(lines[k], [W("vni")])
    {
      FirstTells(lines[k], [W("vni")]);
    }
    assert lines[n] == Footer(s.node)[1];
    SettingAt(lines, [W("vni")], n);
  }

  lemma SplitByClients(s: State, s': State)
    requires IPs(FlatPeers(s)) == IPs(FlatPeers(s')) && IPs(s.leafs) == IPs(s'.leafs)
    ensures IPs(s.roots) == IPs(s'.roots)
  {
    assert IPs(FlatPeers(s)) == IPs(s.roots) + IPs(s.leafs);
    assert IPs(FlatPeers(s')) == IPs(s'.roots) + IPs(s'.leafs);
    assert |IPs(s.roots)| == |IPs(s'.roots)|;
    assert IPs(s.roots) == IPs(FlatPeers(s))[..|s.roots|];
    assert IPs(s'.roots) == IPs(FlatPeers(s'))[..|s.roots|];
  }

  lemma {:induction false} ReadFindsAll(lines: seq<Line>, kind: Kind, i: nat)
    requires i < |lines| && Matches(lines[i], kind)
    ensures Read(lines, kind) != []
    decreases i
  {
    if i > 0 {
      ReadFindsAll(lines[1..], kind, i - 1);
    }
  }

  /** Under the store's invariant each neighbour is declared once and activated once, and every
      declaration comes before every activation. */
  lemma DeclaredOnceBeforeActivatedOnce(s: State, mst: seq<string>)
    requires Unique(s)
    ensures var lines, ips := Render(s, mst), IPs(FlatPeers(s));
            && Read(lines, Declared(s.node.asn)) == Read(lines, Activated) == ips
            && (forall i, j :: 0 <= i < j < |ips| ==> ips[i] != ips[j])
            && (forall i, j :: 0 <= i < |lines| && 0 <= j < |lines| ==>
                  Matches(lines[i], Declared(s.node.asn)) && Matches(lines[j], Activated) ==> i < j)
  {
    ReadRender(s, mst, Declared(s.node.asn));
    ReadRender(s, mst, Activated);
    hide Read, Matches, Render;
    forall i, j | 0 <= i < |Render(s, mst)| && 0 <= j < |Render(s, mst)|
      ensures Matches(Render(s, mst)[i], Declared(s.node.asn)) && Matches(Render(s, mst)[j], Activated) ==> i < j
    {
      if Matches(Render(s, mst)[i], Declared(s.node.asn)) && Matches(Render(s, mst)[j], Activated) {
        DeclaredBeforeActivated(s, mst, i, j);
      }
    }
  }

  lemma DeclaredBeforeActivated(s: State, mst: seq<string>, i: nat, j: nat)
    requires i < |Render(s, mst)| && j < |Render(s, mst)|
    requires Matches(Render(s, mst)[i], Declared(s.node.asn)) && Matches(Render(s, mst)[j], Activated)
    ensures i < |Front(s)| <= j
  {
    RenderParts(s, mst);
    ReadFront(s, Activated);
    ReadBack(s, mst, Declared(s.node.asn));
    hide Read, Matches, Front, Back, Render;
    if i >= |Front(s)| { ReadFindsAll(Back(s, mst), Declared(s.node.asn), i - |Front(s)|); }
    if j < |Front(s)| { ReadFindsAll(Front(s), Activated, j); }
  }

  /** Blocked are exactly the configured peers outside the list. */
  lemma BlockedExactly(s: State, mst: seq<string>, ip: string)
    ensures ip in Read(Render(s, mst), Blocked) <==> ip in IPs(FlatPeers(s)) && ip !in mst
  {
    ReadRender(s, mst, Blocked);
    NotInMember(IPs(FlatPeers(s)), mst, ip);
  }

  /** A link of the global tree stays open at an end that reports it, whatever that end can see. */
  lemma TreeLinkStaysOpen(
    view: map<Addr, NodeInfo>, infos: map<Addr, NodeInfo>, me: Addr, v: Addr, s: State, list: seq<Addr>)
    requires ViewOf(view, infos, me) && Reports(infos, me, v) && NewEdge(me, v) in TreeOf(Reported(infos))
    requires Elems(list) == Picks(view, me)
    ensures v !in Read(Render(s, list), Blocked)
  {
    ReporterKeepsTreeEdge(view, infos, me, v);
    assert v in Elems(list);
    BlockedExactly(s, list, v);
  }

  /** `peer add`, `peer remove` and `sync` render with no list. That opens every peer, and says the same
      as the agent's last list exactly when every configured peer is on it; otherwise the filter is
      lost until the tree next changes. */
  lemma CommandsLiftTheFilter(s: State, list: seq<string>)
    ensures Read(Render(s, TreeOrAll(s, None)), Blocked) == []
    ensures Read(Render(s, TreeOrAll(s, None)), Blocked) == Read(Render(s, list), Blocked) <==>
            forall ip :: ip in IPs(FlatPeers(s)) ==> ip in list
  {
    var ips := IPs(FlatPeers(s));
    ReadRender(s, ips, Blocked);
    ReadRender(s, list, Blocked);
    NothingOutside(ips, ips);
    NothingOutside(ips, list);
  }

  lemma NothingOutside(ips: seq<string>, mst: seq<string>)
    ensures NotIn(ips, mst) == [] <==> forall ip :: ip in ips ==> ip in mst
  {
  }
}
