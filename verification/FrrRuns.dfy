/** What the configuration written for a store and a list of tree neighbours does in FRR. */
module FrrRuns {
  import opened Prelude
  import opened PeerStore
  import opened Config
  import opened ConfigText
  import opened FrrReader

  lemma TextLinesConcat(a: seq<Line>, b: seq<Line>)
    ensures TextLines(a + b) == TextLines(a) + TextLines(b)
  {
  }

  lemma RunCons(r: Reader, line: Words, next: Reader, rest: seq<Words>)
    requires RunLine(r, line) == Some(next)
    ensures Run(r, [line] + rest) == Run(next, rest)
  {
    hide RunLine;
    assert ([line] + rest)[1..] == rest;
  }

  /** Three lines, or four, one after the other. */
  lemma RunThree(r: Reader, a: Words, s: Reader, b: Words, t: Reader, c: Words, u: Reader)
    requires RunLine(r, a) == Some(s) && RunLine(s, b) == Some(t) && RunLine(t, c) == Some(u)
    ensures Run(r, [a, b, c]) == Some(u)
  {
    hide RunLine;
    assert [a, b, c] == [a] + ([b] + ([c] + []));
    RunCons(r, a, s, [b] + ([c] + []));
    RunCons(s, b, t, [c] + []);
    RunCons(t, c, u, []);
  }

  lemma RunFour(r: Reader, a: Words, s: Reader, b: Words, t: Reader, c: Words, u: Reader, d: Words, v: Reader)
    requires RunLine(r, a) == Some(s) && RunLine(s, b) == Some(t) && RunLine(t, c) == Some(u)
    requires RunLine(u, d) == Some(v)
    ensures Run(r, [a, b, c, d]) == Some(v)
  {
    hide RunLine;
    assert [a, b, c, d] == [a] + [b, c, d];
    RunThree(s, b, t, c, u, d, v);
    RunCons(r, a, s, [b, c, d]);
  }

  /** The routers the header goes through. */
  ghost function Named(node: Node): Router {
    BLANK.router.(defaults := Some("datacenter"), hostname := Some(node.name))
  }

  ghost function Timed(node: Node): Router {
    Named(node).(profiles := map["l2mesh" := Timers(Some(300), Some(300), Some(3))])
  }

  ghost function Mapped(node: Node): Router {
    Timed(node).(entries := map[("BLOCK_T3", 10) := MapEntry(false, true), ("BLOCK_T3", 100) := MapEntry(true, false)])
  }

  ghost function Numbered(node: Node): Router {
    Mapped(node).(asn := Some(node.asn), routerId := Some(node.overlayIP), ipv4Default := false)
  }

  lemma NamingRuns(node: Node)
    ensures Run(BLANK, TextLines(Header(node)[..3])) == Some(Reader(Top, Named(node)))
  {
    var a, b, c := ["frr", "defaults", "datacenter"], ["hostname", node.name], ["!"];
    var r := BLANK.router.(defaults := Some("datacenter"));
    assert RunLine(BLANK, a) == Some(Reader(Top, r));
    assert RunLine(Reader(Top, r), b) == Some(Reader(Top, Named(node)));
    RunThree(BLANK, a, Reader(Top, r), b, Reader(Top, Named(node)), c, Reader(Top, Named(node)));
    hide RunLine, Run;
    var h := Header(node)[..3];
    assert Texts(h[0]) == a && Texts(h[1]) == b && Texts(h[2]) == c;
    assert TextLines(h) == [a, b, c];
  }

  lemma SetAgain<K, V>(m: map<K, V>, k: K, a: V, b: V)
    ensures m[k := a][k := b] == m[k := b]
  {
  }

  /** A profile with these timers, and no other. */
  ghost function OneProfile(r: Router, t: Timers): Router {
    r.(profiles := map["l2mesh" := t])
  }

  lemma ReceiveLine(r: Router, t: Timers)
    ensures RunLine(Reader(InProfile("l2mesh"), OneProfile(r, t)), ["receive-interval", Digits(300)]) ==
            Some(Reader(InProfile("l2mesh"), OneProfile(r, t.(receive := Some(300)))))
  {
    DecimalOfDigits(300);
    SetAgain(map[], "l2mesh", t, t.(receive := Some(300)));
    hide Digits, Decimal;
  }

  lemma TransmitLine(r: Router, t: Timers)
    ensures RunLine(Reader(InProfile("l2mesh"), OneProfile(r, t)), ["transmit-interval", Digits(300)]) ==
            Some(Reader(InProfile("l2mesh"), OneProfile(r, t.(transmit := Some(300)))))
  {
    DecimalOfDigits(300);
    SetAgain(map[], "l2mesh", t, t.(transmit := Some(300)));
    hide Digits, Decimal;
  }

  lemma MultiplierLine(r: Router, t: Timers)
    ensures RunLine(Reader(InProfile("l2mesh"), OneProfile(r, t)), ["detect-multiplier", Digits(3)]) ==
            Some(Reader(InProfile("l2mesh"), OneProfile(r, t.(multiplier := Some(3)))))
  {
    DecimalOfDigits(3);
    SetAgain(map[], "l2mesh", t, t.(multiplier := Some(3)));
    hide Digits, Decimal;
    assert "transmit-interval"[0] != "detect-multiplier"[0];
  }

  lemma BfdLines(r: Router)
    ensures RunLine(Reader(Top, r), ["bfd"]) == Some(Reader(InBfd, r))
    ensures RunLine(Reader(InBfd, r), ["profile", "l2mesh"]) ==
            Some(Reader(InProfile("l2mesh"), r.(profiles := r.profiles["l2mesh" := Timers(None, None, None)])))
    ensures RunLine(Reader(InProfile("l2mesh"), r), ["exit"]) == Some(Reader(InBfd, r))
    ensures RunLine(Reader(InBfd, r), ["exit"]) == RunLine(Reader(Top, r), ["!"]) == Some(Reader(Top, r))
  {
  }

  lemma BfdRuns(node: Node)
    ensures Run(Reader(Top, Named(node)), TextLines(Header(node)[3..11])) == Some(Reader(Top, Timed(node)))
  {
    var name, r := "l2mesh", Named(node);
    var t0, t1 := Timers(None, None, None), Timers(Some(300), None, None);
    var t2, t3 := Timers(Some(300), Some(300), None), Timers(Some(300), Some(300), Some(3));
    var r0, r1, r2, r3 := OneProfile(r, t0), OneProfile(r, t1), OneProfile(r, t2), OneProfile(r, t3);
    BfdLines(r);
    BfdLines(r3);
    ReceiveLine(r, t0);
    TransmitLine(r, t1);
    MultiplierLine(r, t2);
    assert r.profiles[name := t0] == map[name := t0] && r3 == Timed(node);
    hide RunLine, Run, Digits;
    RunFour(Reader(Top, r), ["bfd"], Reader(InBfd, r), ["profile", name], Reader(InProfile(name), r0),
            ["receive-interval", Digits(300)], Reader(InProfile(name), r1),
            ["transmit-interval", Digits(300)], Reader(InProfile(name), r2));
    RunFour(Reader(InProfile(name), r2), ["detect-multiplier", Digits(3)], Reader(InProfile(name), r3),
            ["exit"], Reader(InBfd, r3), ["exit"], Reader(Top, r3), ["!"], Reader(Top, r3));
    var a := [["bfd"], ["profile", name], ["receive-interval", Digits(300)], ["transmit-interval", Digits(300)]];
    var b := [["detect-multiplier", Digits(3)], ["exit"], ["exit"], ["!"]];
    RunConcat(Reader(Top, r), a, b);
    BfdTexts(node);
  }

  lemma BfdTexts(node: Node)
    ensures TextLines(Header(node)[3..11]) ==
            [["bfd"], ["profile", "l2mesh"], ["receive-interval", Digits(300)], ["transmit-interval", Digits(300)]]
            + [["detect-multiplier", Digits(3)], ["exit"], ["exit"], ["!"]]
  {
    hide Digits;
    var h := Header(node)[3..11];
    assert Texts(h[0]) == ["bfd"] && Texts(h[1]) == ["profile", "l2mesh"];
    assert Texts(h[2]) == ["receive-interval", Digits(300)] && Texts(h[3]) == ["transmit-interval", Digits(300)];
    assert Texts(h[4]) == ["detect-multiplier", Digits(3)];
    assert Texts(h[5]) == ["exit"] == Texts(h[6]) && Texts(h[7]) == ["!"];
  }

  lemma EntryLines(r: Router, open: (string, nat), name: string, seqno: nat)
    ensures RunLine(Reader(Top, r), ["route-map", name, "deny", Digits(seqno)]) ==
            Some(Reader(InEntry(name, seqno), r.(entries := r.entries[(name, seqno) := MapEntry(false, false)])))
    ensures RunLine(Reader(InEntry(open.0, open.1), r), ["route-map", name, "permit", Digits(seqno)]) ==
            Some(Reader(InEntry(name, seqno), r.(entries := r.entries[(name, seqno) := MapEntry(true, false)])))
  {
    DecimalOfDigits(seqno);
    hide Digits, Decimal;
  }

  lemma MatchLine(r: Router, name: string, seqno: nat, permits: bool)
    requires (name, seqno) in r.entries && r.entries[(name, seqno)] == MapEntry(permits, false)
    ensures RunLine(Reader(InEntry(name, seqno), r), ["match", "evpn", "route-type", "multicast"]) ==
            Some(Reader(InEntry(name, seqno), r.(entries := r.entries[(name, seqno) := MapEntry(permits, true)])))
  {
  }

  lemma MapRuns(node: Node)
    ensures Run(Reader(Top, Timed(node)), TextLines(Header(node)[11..15])) ==
            Some(Reader(InEntry("BLOCK_T3", 100), Mapped(node)))
  {
    var name, r := "BLOCK_T3", Timed(node);
    var r0 := r.(entries := map[(name, 10) := MapEntry(false, false)]);
    var r1 := r.(entries := map[(name, 10) := MapEntry(false, true)]);
    EntryLines(r, (name, 10), name, 10);
    MatchLine(r0, name, 10, false);
    SetAgain(map[], (name, 10), MapEntry(false, false), MapEntry(false, true));
    EntryLines(r1, (name, 10), name, 100);
    var last := Reader(InEntry(name, 100), Mapped(node));
    assert RunLine(last, ["!"]) == Some(last);
    hide RunLine, Run, Digits;
    RunFour(Reader(Top, r), ["route-map", name, "deny", Digits(10)], Reader(InEntry(name, 10), r0),
            ["match", "evpn", "route-type", "multicast"], Reader(InEntry(name, 10), r1),
            ["route-map", name, "permit", Digits(100)], last, ["!"], last);
    MapTexts(node);
  }

  lemma MapTexts(node: Node)
    ensures TextLines(Header(node)[11..15]) ==
            [["route-map", "BLOCK_T3", "deny", Digits(10)], ["match", "evpn", "route-type", "multicast"],
             ["route-map", "BLOCK_T3", "permit", Digits(100)], ["!"]]
  {
    hide Digits;
    var h := Header(node)[11..15];
    assert Texts(h[0]) == ["route-map", "BLOCK_T3", "deny", Digits(10)];
    assert Texts(h[1]) == ["match", "evpn", "route-type", "multicast"];
    assert Texts(h[2]) == ["route-map", "BLOCK_T3", "permit", Digits(100)] && Texts(h[3]) == ["!"];
  }

  lemma RouterLines(r: Router, name: string, seqno: nat, asn: nat, ip: string)
    ensures RunLine(Reader(InEntry(name, seqno), r), ["router", "bgp", Digits(asn)]) ==
            Some(Reader(InBgp, r.(asn := Some(asn))))
    ensures RunLine(Reader(InBgp, r), ["bgp", "router-id", ip]) == Some(Reader(InBgp, r.(routerId := Some(ip))))
    ensures RunLine(Reader(InBgp, r), ["no", "bgp", "default", "ipv4-unicast"]) ==
            Some(Reader(InBgp, r.(ipv4Default := false)))
  {
    DecimalOfDigits(asn);
    hide Digits, Decimal;
  }

  lemma BgpRuns(node: Node)
    ensures Run(Reader(InEntry("BLOCK_T3", 100), Mapped(node)), TextLines(Header(node)[15..])) ==
            Some(Reader(InBgp, Numbered(node)))
  {
    var a, b := ["router", "bgp", Digits(node.asn)], ["bgp", "router-id", node.overlayIP];
    var c := ["no", "bgp", "default", "ipv4-unicast"];
    var r0 := Mapped(node).(asn := Some(node.asn));
    var r1 := r0.(routerId := Some(node.overlayIP));
    hide Run, RunLine, Digits;
    RouterLines(Mapped(node), "BLOCK_T3", 100, node.asn, node.overlayIP);
    RouterLines(r0, "BLOCK_T3", 100, node.asn, node.overlayIP);
    RouterLines(r1, "BLOCK_T3", 100, node.asn, node.overlayIP);
    RunThree(Reader(InEntry("BLOCK_T3", 100), Mapped(node)), a, Reader(InBgp, r0), b, Reader(InBgp, r1),
             c, Reader(InBgp, Numbered(node)));
    BgpTexts(node);
  }

  lemma BgpTexts(node: Node)
    ensures TextLines(Header(node)[15..]) ==
            [["router", "bgp", Digits(node.asn)], ["bgp", "router-id", node.overlayIP],
             ["no", "bgp", "default", "ipv4-unicast"]]
  {
    hide Digits;
    var h := Header(node)[15..];
    assert Texts(h[0]) == ["router", "bgp", Digits(node.asn)];
    assert Texts(h[1]) == ["bgp", "router-id", node.overlayIP];
    assert Texts(h[2]) == ["no", "bgp", "default", "ipv4-unicast"];
  }

  lemma HeaderRuns(node: Node)
    ensures Run(BLANK, TextLines(Header(node))) == Some(Reader(InBgp, Numbered(node)))
  {
    var h := Header(node);
    assert h == h[..3] + (h[3..11] + (h[11..15] + h[15..]));
    hide Run, Header;
    NamingRuns(node);
    BfdRuns(node);
    MapRuns(node);
    BgpRuns(node);
    TextLinesConcat(h[11..15], h[15..]);
    TextLinesConcat(h[3..11], h[11..15] + h[15..]);
    TextLinesConcat(h[..3], h[3..11] + (h[11..15] + h[15..]));
    hide TextLines;
    RunConcat(BLANK, TextLines(h[..3]), TextLines(h[3..11] + (h[11..15] + h[15..])));
    RunConcat(Reader(Top, Named(node)), TextLines(h[3..11]), TextLines(h[11..15] + h[15..]));
    RunConcat(Reader(Top, Timed(node)), TextLines(h[11..15]), TextLines(h[15..]));
  }

  /** A neighbour once declared: activated if it is in `active`, then blocked unless it is on the list. */
  ghost function NeighborAt(node: Node, mst: seq<string>, ip: string, active: set<string>, clients: set<string>):
    Neighbor
  {
    Neighbor(node.asn, Some(node.overlayIP), Some("l2mesh"), false, ip in active, ip in clients, ip in active,
             if ip in active && ip !in mst then Some("BLOCK_T3") else None)
  }

  ghost function Stage(
    node: Node, mst: seq<string>, declared: set<string>, active: set<string>, clients: set<string>): Router
  {
    Numbered(node).(neighbors := map ip | ip in declared :: NeighborAt(node, mst, ip, active, clients))
  }

  lemma DeclarationLines(r: Router, ip: string, asn: nat, source: string)
    ensures RunLine(Reader(InBgp, r), ["neighbor", ip, "remote-as", Digits(asn)]) ==
            Some(Reader(InBgp, WithNeighbor(r, ip, DeclaredAs(r, ip, asn))))
    ensures ip in r.neighbors ==>
              RunLine(Reader(InBgp, r), ["neighbor", ip, "update-source", source]) ==
              Some(Reader(InBgp, WithNeighbor(r, ip, r.neighbors[ip].(source := Some(source)))))
    ensures ip in r.neighbors ==>
              RunLine(Reader(InBgp, r), ["neighbor", ip, "bfd", "profile", "l2mesh"]) ==
              Some(Reader(InBgp, WithNeighbor(r, ip, r.neighbors[ip].(profile := Some("l2mesh")))))
  {
    DecimalOfDigits(asn);
    hide Digits, Decimal;
    assert "remote-as"[0] != "update-source"[0];
    assert ["neighbor", ip, "bfd", "profile", "l2mesh"][2..4] == ["bfd", "profile"];
  }

  lemma DeclareTexts(node: Node, ip: string)
    ensures TextLines(Declare(node, ip)) ==
            [["neighbor", ip, "remote-as", Digits(node.asn)], ["neighbor", ip, "update-source", node.overlayIP],
             ["neighbor", ip, "bfd", "profile", "l2mesh"]]
  {
    hide Digits;
    var d := Declare(node, ip);
    assert Texts(d[0]) == ["neighbor", ip, "remote-as", Digits(node.asn)];
    assert Texts(d[1]) == ["neighbor", ip, "update-source", node.overlayIP];
    assert Texts(d[2]) == ["neighbor", ip, "bfd", "profile", "l2mesh"];
  }

  lemma DeclareRuns(node: Node, mst: seq<string>, ip: string, declared: set<string>)
    ensures Run(Reader(InBgp, Stage(node, mst, declared, {}, {})), TextLines(Declare(node, ip))) ==
            Some(Reader(InBgp, Stage(node, mst, declared + {ip}, {}, {})))
  {
    var r, src := Stage(node, mst, declared, {}, {}), node.overlayIP;
    var n := DeclaredAs(r, ip, node.asn);
    var r1 := WithNeighbor(r, ip, n);
    var r2 := WithNeighbor(r, ip, n.(source := Some(src)));
    var r3 := WithNeighbor(r, ip, n.(source := Some(src), profile := Some("l2mesh")));
    DeclarationLines(r, ip, node.asn, src);
    DeclarationLines(r1, ip, node.asn, src);
    DeclarationLines(r2, ip, node.asn, src);
    SetAgain(r.neighbors, ip, n, n.(source := Some(src)));
    SetAgain(r.neighbors, ip, n.(source := Some(src)), n.(source := Some(src), profile := Some("l2mesh")));
    assert r3.neighbors == Stage(node, mst, declared + {ip}, {}, {}).neighbors;
    hide RunLine, Run, Digits;
    RunThree(Reader(InBgp, r), ["neighbor", ip, "remote-as", Digits(node.asn)], Reader(InBgp, r1),
             ["neighbor", ip, "update-source", src], Reader(InBgp, r2),
             ["neighbor", ip, "bfd", "profile", "l2mesh"], Reader(InBgp, r3));
    DeclareTexts(node, ip);
  }

  lemma {:induction false} DeclareAllRuns(node: Node, mst: seq<string>, peers: seq<Peer>, declared: set<string>)
    ensures Run(Reader(InBgp, Stage(node, mst, declared, {}, {})), TextLines(DeclareAll(node, peers))) ==
            Some(Reader(InBgp, Stage(node, mst, declared + Elems(IPs(peers)), {}, {})))
    decreases |peers|
  {
    if peers == [] {
      assert declared + Elems(IPs(peers)) == declared;
    } else {
      var ip, rest := peers[0].overlayIP, peers[1..];
      DeclareRuns(node, mst, ip, declared);
      DeclareAllRuns(node, mst, rest, declared + {ip});
      TextLinesConcat(Declare(node, ip), DeclareAll(node, rest));
      FirstIP(peers);
      ElemsOfConcat([ip], IPs(rest));
      assert declared + {ip} + Elems(IPs(rest)) == declared + Elems(IPs(peers));
      hide Run, TextLines, Declare, Stage;
      RunConcat(Reader(InBgp, Stage(node, mst, declared, {}, {})), TextLines(Declare(node, ip)),
                TextLines(DeclareAll(node, rest)));
    }
  }

  /** A neighbour line inside the address family, if it is there. */
  ghost function Piece(ip: string, present: bool, words: Words): seq<Words> {
    if present then [["neighbor", ip] + words] else []
  }

  lemma PieceRuns(r: Router, ip: string, n: Neighbor, present: bool, words: Words, n': Neighbor)
    requires words != [] && (if present then RunActivation(n, words) == Some(n') else n' == n)
    ensures Run(Reader(InFamily, WithNeighbor(r, ip, n)), Piece(ip, present, words)) ==
            Some(Reader(InFamily, WithNeighbor(r, ip, n')))
  {
    if present {
      var line, at := ["neighbor", ip] + words, Reader(InFamily, WithNeighbor(r, ip, n));
      assert line[0] == "neighbor" && line[1] == ip && line[2..] == words && |line| >= 3;
      SetAgain(r.neighbors, ip, n, n');
      hide RunActivation, Decimal;
      assert RunLine(at, line) == Some(Reader(InFamily, WithNeighbor(r, ip, n')));
      hide RunLine;
      RunCons(at, line, Reader(InFamily, WithNeighbor(r, ip, n')), []);
      assert [line] + [] == [line];
    }
  }

  lemma ActivationWords(n: Neighbor)
    ensures RunActivation(n, ["activate"]) == Some(n.(evpn := true))
    ensures RunActivation(n, ["route-reflector-client"]) == Some(n.(client := true))
    ensures RunActivation(n, ["next-hop-self", "force"]) == Some(n.(nextHopSelf := true))
    ensures RunActivation(n, ["route-map", "BLOCK_T3", "in"]) == Some(n.(mapIn := Some("BLOCK_T3")))
  {
  }

  lemma PieceTexts(ip: string, present: bool, kind: Kind, words: Words)
    requires Texts(Tail(kind)) == words
    ensures TextLines(if present then [Config.Neighbor(ip, Tail(kind))] else []) == Piece(ip, present, words)
  {
    hide Tail;
    if present {
      var line := Config.Neighbor(ip, Tail(kind));
      assert Texts(line) == ["neighbor", ip] + words;
      assert TextLines([line]) == [Texts(line)];
    }
  }

  lemma TailTexts()
    ensures Texts(Tail(Activated)) == ["activate"] && Texts(Tail(Client)) == ["route-reflector-client"]
    ensures Texts(Tail(NextHopSelf)) == ["next-hop-self", "force"]
    ensures Texts(Tail(Blocked)) == ["route-map", "BLOCK_T3", "in"]
  {
  }

  lemma ActivateTexts(ip: string, client: bool, mst: seq<string>)
    ensures TextLines(Activate(ip, client, mst)) ==
            Piece(ip, true, ["activate"]) + Piece(ip, client, ["route-reflector-client"])
            + Piece(ip, true, ["next-hop-self", "force"]) + Piece(ip, ip !in mst, ["route-map", "BLOCK_T3", "in"])
  {
    ActivateParts(ip, client, mst);
    TailTexts();
    PieceTexts(ip, true, Activated, ["activate"]);
    PieceTexts(ip, client, Client, ["route-reflector-client"]);
    PieceTexts(ip, true, NextHopSelf, ["next-hop-self", "force"]);
    PieceTexts(ip, ip !in mst, Blocked, ["route-map", "BLOCK_T3", "in"]);
    hide Activate, Tail, Texts, Piece, Config.Neighbor, TextLines;
    var a, c := [Config.Neighbor(ip, Tail(Activated))], [Config.Neighbor(ip, Tail(NextHopSelf))];
    var b := if client then [Config.Neighbor(ip, Tail(Client))] else [];
    var d := if ip !in mst then [Config.Neighbor(ip, Tail(Blocked))] else [];
    TextLinesConcat(a + b + c, d);
    TextLinesConcat(a + b, c);
    TextLinesConcat(a, b);
  }

  lemma FourRuns(r: Reader, a: seq<Words>, s: Reader, b: seq<Words>, t: Reader, c: seq<Words>, u: Reader, d: seq<Words>)
    requires Run(r, a) == Some(s) && Run(s, b) == Some(t) && Run(t, c) == Some(u)
    ensures Run(r, a + b + c + d) == Run(u, d)
  {
    hide Run;
    RunConcat(r, a, b);
    RunConcat(r, a + b, c);
    RunConcat(r, a + b + c, d);
  }

  /** A neighbour activated, and blocked or not. */
  ghost function Activation(n: Neighbor, client: bool, blocked: bool): Neighbor {
    n.(evpn := true, client := n.client || client, nextHopSelf := true,
       mapIn := if blocked then Some("BLOCK_T3") else n.mapIn)
  }

  lemma ActivatePieces(r: Router, ip: string, n: Neighbor, client: bool, mst: seq<string>)
    ensures Run(Reader(InFamily, WithNeighbor(r, ip, n)), TextLines(Activate(ip, client, mst))) ==
            Some(Reader(InFamily, WithNeighbor(r, ip, Activation(n, client, ip !in mst))))
  {
    var n1 := n.(evpn := true);
    var n2 := if client then n1.(client := true) else n1;
    var n3 := n2.(nextHopSelf := true);
    var n4 := if ip !in mst then n3.(mapIn := Some("BLOCK_T3")) else n3;
    ActivationWords(n);
    ActivationWords(n1);
    ActivationWords(n2);
    ActivationWords(n3);
    hide RunActivation, Run, TextLines, Activate, Piece, WithNeighbor;
    PieceRuns(r, ip, n, true, ["activate"], n1);
    PieceRuns(r, ip, n1, client, ["route-reflector-client"], n2);
    PieceRuns(r, ip, n2, true, ["next-hop-self", "force"], n3);
    PieceRuns(r, ip, n3, ip !in mst, ["route-map", "BLOCK_T3", "in"], n4);
    ActivateTexts(ip, client, mst);
    FourRuns(Reader(InFamily, WithNeighbor(r, ip, n)),
             Piece(ip, true, ["activate"]), Reader(InFamily, WithNeighbor(r, ip, n1)),
             Piece(ip, client, ["route-reflector-client"]), Reader(InFamily, WithNeighbor(r, ip, n2)),
             Piece(ip, true, ["next-hop-self", "force"]), Reader(InFamily, WithNeighbor(r, ip, n3)),
             Piece(ip, ip !in mst, ["route-map", "BLOCK_T3", "in"]));
  }

  lemma ActivateRuns(
    node: Node, mst: seq<string>, ip: string, client: bool,
    declared: set<string>, active: set<string>, clients: set<string>)
    requires ip in declared
    ensures Run(Reader(InFamily, Stage(node, mst, declared, active, clients)), TextLines(Activate(ip, client, mst))) ==
            Some(Reader(InFamily,
                        Stage(node, mst, declared, active + {ip}, clients + if client then {ip} else {})))
  {
    var r := Stage(node, mst, declared, active, clients);
    var r' := Stage(node, mst, declared, active + {ip}, clients + if client then {ip} else {});
    var n := r.neighbors[ip];
    assert WithNeighbor(r, ip, n).neighbors == r.neighbors;
    assert WithNeighbor(r, ip, Activation(n, client, ip !in mst)).neighbors == r'.neighbors;
    hide NeighborAt, Run, TextLines, Activate, Activation;
    ActivatePieces(r, ip, n, client, mst);
  }

  lemma {:induction false} ActivateAllRuns(
    node: Node, mst: seq<string>, peers: seq<Peer>, client: bool,
    declared: set<string>, active: set<string>, clients: set<string>)
    requires Elems(IPs(peers)) <= declared
    ensures Run(Reader(InFamily, Stage(node, mst, declared, active, clients)),
                TextLines(ActivateAll(peers, client, mst))) ==
            Some(Reader(InFamily, Stage(node, mst, declared, active + Elems(IPs(peers)),
                                        clients + if client then Elems(IPs(peers)) else {})))
    decreases |peers|
  {
    if peers == [] {
      assert Elems(IPs(peers)) == {};
      assert active + {} == active && clients + {} == clients;
    } else {
      var ip, rest := peers[0].overlayIP, peers[1..];
      FirstIP(peers);
      ElemsOfConcat([ip], IPs(rest));
      assert Elems([ip]) == {ip};
      ActivateRuns(node, mst, ip, client, declared, active, clients);
      var clients' := clients + if client then {ip} else {};
      ActivateAllRuns(node, mst, rest, client, declared, active + {ip}, clients');
      TextLinesConcat(Activate(ip, client, mst), ActivateAll(rest, client, mst));
      assert active + {ip} + Elems(IPs(rest)) == active + Elems(IPs(peers));
      assert clients' + (if client then Elems(IPs(rest)) else {}) == clients + if client then Elems(IPs(peers)) else {};
      hide Run, TextLines, Activate, Stage;
      RunConcat(Reader(InFamily, Stage(node, mst, declared, active, clients)), TextLines(Activate(ip, client, mst)),
                TextLines(ActivateAll(rest, client, mst)));
    }
  }

  lemma FooterLines(r: Router, id: nat)
    ensures RunLine(Reader(InBgp, r), ["address-family", "l2vpn", "evpn"]) == Some(Reader(InFamily, r))
    ensures RunLine(Reader(InFamily, r), ["advertise-all-vni"]) == Some(Reader(InFamily, r.(allVnis := true)))
    ensures RunLine(Reader(InFamily, r), ["vni", Digits(id)]) ==
            Some(Reader(InVni(id), r.(vnis := r.vnis[id := false])))
    ensures RunLine(Reader(InVni(id), r), ["advertise-svi-ip"]) ==
            Some(Reader(InVni(id), r.(vnis := r.vnis[id := true])))
    ensures RunLine(Reader(InVni(id), r), ["exit-vni"]) == Some(Reader(InFamily, r))
    ensures RunLine(Reader(InFamily, r), ["exit-address-family"]) == Some(Reader(InBgp, r))
    ensures RunLine(Reader(InBgp, r), ["exit"]) == Some(Reader(Top, r))
  {
    DecimalOfDigits(id);
    hide Digits, Decimal;
  }

  lemma FamilyRuns(r: Router)
    ensures Run(Reader(InBgp, r), TextLines(Family())) == Some(Reader(InFamily, r))
  {
    FooterLines(r, 0);
    var a, b := ["!"], ["address-family", "l2vpn", "evpn"];
    assert RunLine(Reader(InBgp, r), a) == Some(Reader(InBgp, r));
    assert Texts(Family()[0]) == a && Texts(Family()[1]) == b;
    assert TextLines(Family()) == [a] + ([b] + []);
    hide RunLine;
    RunCons(Reader(InBgp, r), a, Reader(InBgp, r), [b] + []);
    RunCons(Reader(InBgp, r), b, Reader(InFamily, r), []);
  }

  lemma FooterRuns(r: Router, node: Node)
    ensures Run(Reader(InFamily, r), TextLines(Footer(node))) ==
            Some(Reader(Top, r.(allVnis := true, vnis := r.vnis[node.vni := true])))
  {
    var id := node.vni;
    var r1 := r.(allVnis := true);
    var r2 := r1.(vnis := r1.vnis[id := false]);
    var r3 := r1.(vnis := r1.vnis[id := true]);
    SetAgain(r1.vnis, id, false, true);
    FooterLines(r, id);
    FooterLines(r1, id);
    FooterLines(r2, id);
    FooterLines(r3, id);
    assert RunLine(Reader(Top, r3), ["!"]) == Some(Reader(Top, r3));
    FooterTexts(node);
    hide RunLine, Run, Digits;
    RunFour(Reader(InFamily, r), ["advertise-all-vni"], Reader(InFamily, r1), ["vni", Digits(id)],
            Reader(InVni(id), r2), ["advertise-svi-ip"], Reader(InVni(id), r3), ["exit-vni"], Reader(InFamily, r3));
    RunThree(Reader(InFamily, r3), ["exit-address-family"], Reader(InBgp, r3), ["exit"], Reader(Top, r3),
             ["!"], Reader(Top, r3));
    RunConcat(Reader(InFamily, r),
              [["advertise-all-vni"], ["vni", Digits(id)], ["advertise-svi-ip"], ["exit-vni"]],
              [["exit-address-family"], ["exit"], ["!"]]);
  }

  lemma FooterTexts(node: Node)
    ensures TextLines(Footer(node)) ==
            [["advertise-all-vni"], ["vni", Digits(node.vni)], ["advertise-svi-ip"], ["exit-vni"]]
            + [["exit-address-family"], ["exit"], ["!"]]
  {
    hide Digits;
    var f := Footer(node);
    assert Texts(f[0]) == ["advertise-all-vni"] && Texts(f[1]) == ["vni", Digits(node.vni)];
    assert Texts(f[2]) == ["advertise-svi-ip"] && Texts(f[3]) == ["exit-vni"];
    assert Texts(f[4]) == ["exit-address-family"] && Texts(f[5]) == ["exit"] && Texts(f[6]) == ["!"];
  }

  /** The router meant for a store and a list of tree neighbours. */
  ghost function Intended(s: State, mst: seq<string>): Router {
    Router(Some("datacenter"), Some(s.node.name), map["l2mesh" := Timers(Some(300), Some(300), Some(3))],
           map[("BLOCK_T3", 10) := MapEntry(false, true), ("BLOCK_T3", 100) := MapEntry(true, false)],
           Some(s.node.asn), Some(s.node.overlayIP), false,
           map ip | ip in IPs(FlatPeers(s)) ::
             Neighbor(s.node.asn, Some(s.node.overlayIP), Some("l2mesh"), false, true, ip in IPs(s.leafs), true,
                      if ip in mst then None else Some("BLOCK_T3")),
           true, map[s.node.vni := true])
  }

  lemma RunThen(r: Reader, a: seq<Line>, s: Reader, b: seq<Line>)
    requires Run(r, TextLines(a)) == Some(s)
    ensures Run(r, TextLines(a + b)) == Run(s, TextLines(b))
  {
    TextLinesConcat(a, b);
    hide Run, TextLines;
    RunConcat(r, TextLines(a), TextLines(b));
  }

  lemma FrontRuns(s: State, mst: seq<string>)
    ensures var all := Elems(IPs(s.roots)) + Elems(IPs(s.leafs));
            Run(BLANK, TextLines(Front(s))) == Some(Reader(InBgp, Stage(s.node, mst, all, {}, {})))
  {
    var node, roots, leafs := s.node, Elems(IPs(s.roots)), Elems(IPs(s.leafs));
    HeaderRuns(node);
    assert Numbered(node) == Stage(node, mst, {}, {}, {});
    DeclareAllRuns(node, mst, s.roots, {});
    DeclareAllRuns(node, mst, s.leafs, roots);
    assert {} + roots == roots;
    hide Run, TextLines, Header, DeclareAll, Stage, Numbered, IPs;
    RunThen(BLANK, Header(node), Reader(InBgp, Stage(node, mst, {}, {}, {})), DeclareAll(node, s.roots));
    RunThen(BLANK, Header(node) + DeclareAll(node, s.roots), Reader(InBgp, Stage(node, mst, roots, {}, {})),
            DeclareAll(node, s.leafs));
  }

  lemma BackRuns(s: State, mst: seq<string>)
    ensures var node, leafs := s.node, Elems(IPs(s.leafs));
            var all := Elems(IPs(s.roots)) + leafs;
            Run(Reader(InBgp, Stage(node, mst, all, {}, {})), TextLines(Back(s, mst))) ==
            Some(Reader(Top, Stage(node, mst, all, all, leafs).(allVnis := true, vnis := map[node.vni := true])))
  {
    var node, roots, leafs := s.node, Elems(IPs(s.roots)), Elems(IPs(s.leafs));
    var all := roots + leafs;
    var none: set<string> := {};
    assert none + roots == roots && none + leafs == leafs && none + none == none;
    var from, a, b := Stage(node, mst, all, {}, {}), ActivateAll(s.roots, false, mst), ActivateAll(s.leafs, true, mst);
    assert Stage(node, mst, all, all, leafs).vnis == map[];
    hide Run, TextLines, Family, Footer, ActivateAll, NeighborAt, Stage, IPs;
    FamilyRuns(from);
    ActivateAllRuns(node, mst, s.roots, false, all, {}, {});
    ActivateAllRuns(node, mst, s.leafs, true, all, roots, {});
    FooterRuns(Stage(node, mst, all, all, leafs), node);
    RunThen(Reader(InBgp, from), Family(), Reader(InFamily, from), a);
    RunThen(Reader(InBgp, from), Family() + a, Reader(InFamily, Stage(node, mst, all, roots, {})), b);
    RunThen(Reader(InBgp, from), Family() + a + b, Reader(InFamily, Stage(node, mst, all, all, leafs)), Footer(node));
  }

  lemma LastStage(s: State, mst: seq<string>)
    ensures var leafs := Elems(IPs(s.leafs));
            var all := Elems(IPs(s.roots)) + leafs;
            Stage(s.node, mst, all, all, leafs).(allVnis := true, vnis := map[s.node.vni := true]) == Intended(s, mst)
  {
    var leafs := Elems(IPs(s.leafs));
    var all := Elems(IPs(s.roots)) + leafs;
    IPsConcat(s.roots, s.leafs);
    assert forall ip :: ip in IPs(FlatPeers(s)) <==> ip in all;
    hide IPs, FlatPeers;
    assert Stage(s.node, mst, all, all, leafs).neighbors == Intended(s, mst).neighbors;
  }

  /** Run line by line, the configuration is taken whole, closes every block it opens, and sets up exactly the
      router meant: the BFD profile and its timers, the route map, the AS and its defaults, and of each configured
      peer, and no other, its AS, its source, its profile, the one family it speaks, whether it is a client and
      whether what it sends is filtered. */
  lemma RendersTheIntendedRouter(s: State, mst: seq<string>)
    ensures Configures(TextLines(Render(s, mst))) == Some(Intended(s, mst))
  {
    FrontRuns(s, mst);
    BackRuns(s, mst);
    LastStage(s, mst);
    RenderParts(s, mst);
    var all := Elems(IPs(s.roots)) + Elems(IPs(s.leafs));
    hide Run, TextLines, Render, Front, Back, Stage, Intended;
    RunThen(BLANK, Front(s), Reader(InBgp, Stage(s.node, mst, all, {}, {})), Back(s, mst));
  }

  /** So does the text, where the node's name and address and every peer's address are plain. */
  lemma TextRendersTheIntendedRouter(s: State, mst: seq<string>)
    requires PlainTexts(s)
    ensures Configures(ParseText(EmitText(Render(s, mst)))) == Some(Intended(s, mst))
  {
    RendersTheIntendedRouter(s, mst);
    ConfigurationIsToldExactlyWhen(s, mst);
  }

  lemma MapPermits(s: State, mst: seq<string>, route: Route)
    ensures Permits(Intended(s, mst), "BLOCK_T3", route) <==> route != Multicast
  {
    var r := Intended(s, mst);
    assert Applies(r, "BLOCK_T3", 100, route);
    assert Applies(r, "BLOCK_T3", 10, route) <==> route == Multicast;
    assert forall n: nat :: Applies(r, "BLOCK_T3", n, route) ==> n == 10 || n == 100;
  }

  /** Which routes come in: from configured peers only, every route but EVPN's multicast ones from all of them, and
      those exactly from the peers on the list; from every peer where no list is given. */
  lemma AcceptsExactlyWhen(s: State, mst: Option<seq<string>>, ip: string, route: Route)
    ensures var router := Configures(TextLines(Render(s, TreeOrAll(s, mst))));
            && router.Some?
            && (Accepts(router.value, ip, route) <==>
                  ip in IPs(FlatPeers(s)) && (route == Multicast && mst.Some? ==> ip in mst.value))
  {
    var list := TreeOrAll(s, mst);
    RendersTheIntendedRouter(s, list);
    MapPermits(s, list, route);
    hide Configures, Render, TextLines, Permits, FlatPeers, IPs;
  }
}
