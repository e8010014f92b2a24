/** A reader of FRR configurations: it runs the lines one after the other, each in the block that the lines
    before it have opened, and refuses a line that has no meaning there. */
module FrrReader {
  import opened Prelude
  import opened Config

  type Words = seq<string>

  datatype Block =
    | Top | InBfd | InProfile(name: string) | InEntry(name: string, seqno: nat) | InBgp | InFamily | InVni(id: nat)

  datatype Timers = Timers(receive: Option<nat>, transmit: Option<nat>, multiplier: Option<nat>)

  /** An entry of a route map, for every route or for EVPN multicast routes alone. */
  datatype MapEntry = MapEntry(permits: bool, multicastOnly: bool)

  datatype Neighbor = Neighbor(
    remoteAs: nat, source: Option<string>, profile: Option<string>,
    ipv4: bool, evpn: bool, client: bool, nextHopSelf: bool, mapIn: Option<string>)

  /** What a configuration sets. */
  datatype Router = Router(
    defaults: Option<string>, hostname: Option<string>, profiles: map<string, Timers>,
    entries: map<(string, nat), MapEntry>, asn: Option<nat>, routerId: Option<string>, ipv4Default: bool,
    neighbors: map<string, Neighbor>, allVnis: bool, vnis: map<nat, bool>)

  datatype Reader = Reader(block: Block, router: Router)

  const BLANK := Reader(Top, Router(None, None, map[], map[], None, None, true, map[], false, map[]))

  function RunTop(r: Router, line: Words): Option<Reader> {
    if line == ["bfd"] then Some(Reader(InBfd, r))
    else if |line| == 2 && line[0] == "hostname" then Some(Reader(Top, r.(hostname := Some(line[1]))))
    else if |line| == 3 && line[0] == "frr" && line[1] == "defaults" then
      Some(Reader(Top, r.(defaults := Some(line[2]))))
    else if |line| == 3 && line[0] == "router" && line[1] == "bgp" && Decimal(line[2]).Some? then
      Some(Reader(InBgp, r.(asn := Decimal(line[2]))))
    else if |line| == 4 && line[0] == "route-map" && line[2] in {"permit", "deny"} && Decimal(line[3]).Some? then
      var key := (line[1], Decimal(line[3]).value);
      Some(Reader(InEntry(key.0, key.1), r.(entries := r.entries[key := MapEntry(line[2] == "permit", false)])))
    else None
  }

  function RunBfd(r: Router, line: Words): Option<Reader> {
    if line == ["exit"] then Some(Reader(Top, r))
    else if |line| == 2 && line[0] == "profile" then
      Some(Reader(InProfile(line[1]), r.(profiles := r.profiles[line[1] := Timers(None, None, None)])))
    else None
  }

  function RunProfile(r: Router, name: string, line: Words): Option<Reader> {
    if line == ["exit"] then Some(Reader(InBfd, r))
    else if |line| == 2 && Decimal(line[1]).Some? && name in r.profiles then
      var t := r.profiles[name];
      var t' := if line[0] == "receive-interval" then Some(t.(receive := Decimal(line[1])))
                else if line[0] == "transmit-interval" then Some(t.(transmit := Decimal(line[1])))
                else if line[0] == "detect-multiplier" then Some(t.(multiplier := Decimal(line[1])))
                else None;
      if t' == None then None else Some(Reader(InProfile(name), r.(profiles := r.profiles[name := t'.value])))
    else None
  }

  /** A line for the top level closes an open entry of a route map. */
  function RunEntry(r: Router, key: (string, nat), line: Words): Option<Reader> {
    if line == ["match", "evpn", "route-type", "multicast"] && key in r.entries then
      Some(Reader(InEntry(key.0, key.1), r.(entries := r.entries[key := r.entries[key].(multicastOnly := true)])))
    else RunTop(r, line)
  }

  /** Neighbours are exchanged IPv4 routes with or not by what is the default when they are declared. */
  function DeclaredAs(r: Router, ip: string, asn: nat): Neighbor {
    if ip in r.neighbors then r.neighbors[ip].(remoteAs := asn)
    else Neighbor(asn, None, None, r.ipv4Default, false, false, false, None)
  }

  function RunBgp(r: Router, line: Words): Option<Reader> {
    if line == ["exit"] then Some(Reader(Top, r))
    else if line == ["address-family", "l2vpn", "evpn"] then Some(Reader(InFamily, r))
    else if line == ["no", "bgp", "default", "ipv4-unicast"] then Some(Reader(InBgp, r.(ipv4Default := false)))
    else if |line| == 3 && line[0] == "bgp" && line[1] == "router-id" then
      Some(Reader(InBgp, r.(routerId := Some(line[2]))))
    else if |line| == 4 && line[0] == "neighbor" && line[2] == "remote-as" && Decimal(line[3]).Some? then
      Some(Reader(InBgp, r.(neighbors := r.neighbors[line[1] := DeclaredAs(r, line[1], Decimal(line[3]).value)])))
    else if |line| == 4 && line[0] == "neighbor" && line[2] == "update-source" && line[1] in r.neighbors then
      Some(Reader(InBgp, WithNeighbor(r, line[1], r.neighbors[line[1]].(source := Some(line[3])))))
    else if |line| == 5 && line[0] == "neighbor" && line[2..4] == ["bfd", "profile"] && line[1] in r.neighbors then
      Some(Reader(InBgp, WithNeighbor(r, line[1], r.neighbors[line[1]].(profile := Some(line[4])))))
    else None
  }

  function WithNeighbor(r: Router, ip: string, n: Neighbor): Router {
    r.(neighbors := r.neighbors[ip := n])
  }

  function RunFamily(r: Router, line: Words): Option<Reader> {
    if line == ["exit-address-family"] then Some(Reader(InBgp, r))
    else if line == ["advertise-all-vni"] then Some(Reader(InFamily, r.(allVnis := true)))
    else if |line| == 2 && line[0] == "vni" && Decimal(line[1]).Some? then
      var id := Decimal(line[1]).value;
      Some(Reader(InVni(id), r.(vnis := r.vnis[id := false])))
    else if |line| >= 3 && line[0] == "neighbor" && line[1] in r.neighbors then
      var n := RunActivation(r.neighbors[line[1]], line[2..]);
      if n == None then None else Some(Reader(InFamily, WithNeighbor(r, line[1], n.value)))
    else None
  }

  function RunActivation(n: Neighbor, words: Words): Option<Neighbor> {
    if words == ["activate"] then Some(n.(evpn := true))
    else if words == ["route-reflector-client"] then Some(n.(client := true))
    else if words == ["next-hop-self", "force"] then Some(n.(nextHopSelf := true))
    else if |words| == 3 && words[0] == "route-map" && words[2] == "in" then Some(n.(mapIn := Some(words[1])))
    else None
  }

  function RunVni(r: Router, id: nat, line: Words): Option<Reader> {
    if line == ["exit-vni"] then Some(Reader(InFamily, r))
    else if line == ["advertise-svi-ip"] then Some(Reader(InVni(id), r.(vnis := r.vnis[id := true])))
    else None
  }

  /** One line. A line that is a mark alone does nothing anywhere. */
  function RunLine(r: Reader, line: Words): Option<Reader> {
    if line == ["!"] then Some(r)
    else match r.block
      case Top => RunTop(r.router, line)
      case InBfd => RunBfd(r.router, line)
      case InProfile(name) => RunProfile(r.router, name, line)
      case InEntry(name, seqno) => RunEntry(r.router, (name, seqno), line)
      case InBgp => RunBgp(r.router, line)
      case InFamily => RunFamily(r.router, line)
      case InVni(id) => RunVni(r.router, id, line)
  }

  function Run(r: Reader, lines: seq<Words>): Option<Reader>
    decreases |lines|
  {
    if lines == [] then Some(r)
    else match RunLine(r, lines[0]) case None => None case Some(next) => Run(next, lines[1..])
  }

  lemma {:induction false} RunConcat(r: Reader, a: seq<Words>, b: seq<Words>)
    requires Run(r, a).Some?
    ensures Run(r, a + b) == Run(Run(r, a).value, b)
    decreases |a|
  {
    hide RunLine;
    if a == [] {
      assert a + b == b;
    } else {
      assert (a + b)[1..] == a[1..] + b;
      RunConcat(RunLine(r, a[0]).value, a[1..], b);
    }
  }

  /** The router a text configures, if a reader takes all of it and all blocks it opens are closed. */
  function Configures(lines: seq<Words>): Option<Router> {
    match Run(BLANK, lines)
    case Some(Reader(Top, router)) => Some(router)
    case _ => None
  }

  /** EVPN routes: of type 3, which tell where multicast goes, or of any other. */
  datatype Route = Multicast | OtherRoute

  ghost predicate Applies(r: Router, name: string, seqno: nat, route: Route) {
    (name, seqno) in r.entries && (r.entries[(name, seqno)].multicastOnly ==> route == Multicast)
  }

  /** The first entry that applies decides, in the order of the numbers; where none does, the map denies. */
  ghost predicate Permits(r: Router, name: string, route: Route) {
    exists n: nat :: Applies(r, name, n, route) && r.entries[(name, n)].permits
                     && forall m: nat :: m < n ==> !Applies(r, name, m, route)
  }

  /** What is taken in from `ip`: EVPN is spoken with it, and its map, if any, permits the route. */
  ghost predicate Accepts(r: Router, ip: string, route: Route) {
    && ip in r.neighbors && r.neighbors[ip].evpn
    && (r.neighbors[ip].mapIn.Some? ==> Permits(r, r.neighbors[ip].mapIn.value, route))
  }
}
