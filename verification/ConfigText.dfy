/** The text of the configuration: when splitting it at blanks and line ends gives the words back.

    The template's indentation is left out; blanks at the start of a line change nothing here. */
module ConfigText {
  import opened PeerStore
  import opened Config

  predicate Gap(c: char) {
    c == ' ' || c == '\t' || c == '\r'
  }

  predicate LineEnd(c: char) {
    c == '\n'
  }

  /** The stretches of `text` between the characters that `sep` accepts, empty ones included. */
  function Split(text: string, sep: char -> bool): (parts: seq<string>)
    ensures parts != []
  {
    if text == "" then [""]
    else
      var rest := Split(text[1..], sep);
      if sep(text[0]) then [""] + rest else [[text[0]] + rest[0]] + rest[1..]
  }

  function NonEmpty<T(==)>(parts: seq<seq<T>>): seq<seq<T>> {
    if parts == [] then []
    else (if parts[0] == [] then [] else [parts[0]]) + NonEmpty(parts[1..])
  }

  function WordsOf(line: string): seq<string> {
    NonEmpty(Split(line, Gap))
  }

  function EachWordsOf(lines: seq<string>): seq<seq<string>> {
    if lines == [] then [] else [WordsOf(lines[0])] + EachWordsOf(lines[1..])
  }

  /** What a reader makes of a text: the words of its lines, blank lines passed over. */
  function ParseText(text: string): seq<seq<string>> {
    NonEmpty(EachWordsOf(Split(text, LineEnd)))
  }

  function LineText(line: Line): string {
    if line == [] then "" else if |line| == 1 then line[0].text else line[0].text + " " + LineText(line[1..])
  }

  /** What is written: words with a blank between, each line ended. */
  function EmitText(lines: seq<Line>): string {
    if lines == [] then "" else LineText(lines[0]) + "\n" + EmitText(lines[1..])
  }

  function Texts(line: Line): seq<string> {
    seq(|line|, i requires 0 <= i < |line| => line[i].text)
  }

  function TextLines(lines: seq<Line>): seq<seq<string>> {
    seq(|lines|, i requires 0 <= i < |lines| => Texts(lines[i]))
  }

  /** A word that stays one word: not empty, and no blank or line end in it. */
  ghost predicate Plain(text: string) {
    text != "" && forall c :: c in text ==> !Gap(c) && !LineEnd(c)
  }

  ghost predicate PlainLine(line: Line) {
    forall i :: 0 <= i < |line| ==> Plain(line[i].text)
  }

  ghost predicate PlainLines(lines: seq<Line>) {
    forall i :: 0 <= i < |lines| ==> PlainLine(lines[i])
  }

  /** `sep` accepts no character of `text`. */
  ghost predicate Free(text: string, sep: char -> bool) {
    forall i :: 0 <= i < |text| ==> !sep(text[i])
  }

  lemma PlainIsFree(text: string)
    ensures Plain(text) <==> text != "" && Free(text, Gap) && Free(text, LineEnd)
  {
  }

  lemma {:induction false} SplitFree(text: string, sep: char -> bool)
    requires Free(text, sep)
    ensures Split(text, sep) == [text]
    decreases |text|
  {
    if text != "" {
      SplitFree(text[1..], sep);
      assert [text[0]] + text[1..] == text;
    }
  }

  lemma {:induction false} SplitFirst(a: string, c: char, rest: string, sep: char -> bool)
    requires Free(a, sep) && sep(c)
    ensures Split(a + [c] + rest, sep) == [a] + Split(rest, sep)
    decreases |a|
  {
    var text := a + [c] + rest;
    if a == "" {
      assert text[1..] == rest;
    } else {
      assert text[1..] == a[1..] + [c] + rest && text[0] == a[0];
      SplitFirst(a[1..], c, rest, sep);
      assert [a[0]] + a[1..] == a;
    }
  }

  /** What is split off holds no separator, and nothing that was not there. */
  lemma {:induction false} SplitParts(text: string, sep: char -> bool, other: char -> bool, i: nat)
    requires i < |Split(text, sep)|
    ensures Free(Split(text, sep)[i], sep) && (Free(text, other) ==> Free(Split(text, sep)[i], other))
    decreases |text|
  {
    if text != "" {
      var rest := Split(text[1..], sep);
      if sep(text[0]) {
        if i > 0 { SplitParts(text[1..], sep, other, i - 1); }
      } else {
        SplitParts(text[1..], sep, other, i);
      }
    }
  }

  lemma {:induction false} NonEmptyKeeps<T>(parts: seq<seq<T>>, i: nat)
    requires i < |NonEmpty(parts)|
    ensures NonEmpty(parts)[i] != [] && NonEmpty(parts)[i] in parts
    decreases |parts|
  {
    if parts[0] == [] {
      NonEmptyKeeps(parts[1..], i);
    } else if i > 0 {
      NonEmptyKeeps(parts[1..], i - 1);
    }
  }

  lemma NonEmptyCons<T>(part: seq<T>, rest: seq<seq<T>>)
    ensures NonEmpty([part] + rest) == (if part == [] then [] else [part]) + NonEmpty(rest)
  {
    assert ([part] + rest)[1..] == rest;
  }

  lemma EachWordsOfCons(line: string, rest: seq<string>)
    ensures EachWordsOf([line] + rest) == [WordsOf(line)] + EachWordsOf(rest)
  {
    assert ([line] + rest)[1..] == rest;
  }

  lemma NothingWritten()
    ensures WordsOf("") == [] && ParseText("") == []
  {
    NonEmptyCons("", []);
    assert [""] + [] == [""];
    EachWordsOfCons("", []);
    NonEmptyCons(WordsOf(""), []);
    assert [WordsOf("")] + [] == [WordsOf("")];
  }

  lemma {:induction false} LineTextWords(line: Line)
    requires PlainLine(line)
    ensures WordsOf(LineText(line)) == Texts(line)
    ensures Free(LineText(line), LineEnd)
    decreases |line|
  {
    if line == [] {
      NothingWritten();
    } else {
      var word := line[0].text;
      PlainIsFree(word);
      if |line| == 1 {
        SplitFree(word, Gap);
        NonEmptyCons(word, []);
        assert [word] + [] == [word];
      } else {
        var rest := LineText(line[1..]);
        LineTextWords(line[1..]);
        SplitFirst(word, ' ', rest, Gap);
        assert LineText(line) == word + [' '] + rest;
        assert Texts(line) == [word] + Texts(line[1..]);
        NonEmptyCons(word, Split(rest, Gap));
      }
    }
  }

  lemma {:induction false} TextGivesLines(lines: seq<Line>)
    requires PlainLines(lines) && forall i :: 0 <= i < |lines| ==> lines[i] != []
    ensures ParseText(EmitText(lines)) == TextLines(lines)
    decreases |lines|
  {
    if lines == [] {
      NothingWritten();
    } else {
      LineTextWords(lines[0]);
      TextGivesLines(lines[1..]);
      var first, rest := LineText(lines[0]), EmitText(lines[1..]);
      SplitFirst(first, '\n', rest, LineEnd);
      assert EmitText(lines) == first + ['\n'] + rest;
      EachWordsOfCons(first, Split(rest, LineEnd));
      NonEmptyCons(WordsOf(first), EachWordsOf(Split(rest, LineEnd)));
      assert TextLines(lines) == [Texts(lines[0])] + TextLines(lines[1..]);
    }
  }

  lemma {:induction false} EachWordsOfAt(lines: seq<string>, words: seq<string>) returns (i: nat)
    requires words in EachWordsOf(lines)
    ensures i < |lines| && words == WordsOf(lines[i])
    decreases |lines|
  {
    if words == WordsOf(lines[0]) {
      i := 0;
    } else {
      i := EachWordsOfAt(lines[1..], words);
      i := i + 1;
    }
  }

  /** A reader gets plain words and no others, whatever the text. */
  lemma ReadersGetPlainWords(text: string, i: nat, j: nat)
    requires i < |ParseText(text)| && j < |ParseText(text)[i]|
    ensures Plain(ParseText(text)[i][j])
  {
    var words := ParseText(text)[i];
    NonEmptyKeeps(EachWordsOf(Split(text, LineEnd)), i);
    var k := EachWordsOfAt(Split(text, LineEnd), words);
    var line := Split(text, LineEnd)[k];
    SplitParts(text, LineEnd, LineEnd, k);
    NonEmptyKeeps(Split(line, Gap), j);
    var m: nat :| m < |Split(line, Gap)| && Split(line, Gap)[m] == words[j];
    SplitParts(line, Gap, LineEnd, m);
    PlainIsFree(words[j]);
  }

  /** The text tells the words exactly when every word is plain. */
  lemma TextTellsExactlyWhen(lines: seq<Line>)
    requires forall i :: 0 <= i < |lines| ==> lines[i] != []
    ensures ParseText(EmitText(lines)) == TextLines(lines) <==> PlainLines(lines)
  {
    if PlainLines(lines) {
      TextGivesLines(lines);
    }
    if ParseText(EmitText(lines)) == TextLines(lines) {
      forall i, j | 0 <= i < |lines| && 0 <= j < |lines[i]|
        ensures Plain(lines[i][j].text)
      {
        assert TextLines(lines)[i][j] == lines[i][j].text;
        ReadersGetPlainWords(EmitText(lines), i, j);
      }
    }
  }

  lemma {:induction false} DigitsArePlain(n: nat)
    ensures Plain(Digits(n))
    decreases n
  {
    if n >= 10 { DigitsArePlain(n / 10); }
  }

  lemma PlainConcat(a: seq<Line>, b: seq<Line>)
    ensures PlainLines(a + b) <==> PlainLines(a) && PlainLines(b)
  {
    hide PlainLine;
    assert forall i :: 0 <= i < |a| ==> (a + b)[i] == a[i];
    assert forall i :: 0 <= i < |b| ==> (a + b)[|a| + i] == b[i];
  }

  /** The words of the template. */
  lemma NamingWordsArePlain()
    ensures Plain("frr") && Plain("defaults") && Plain("datacenter") && Plain("hostname") && Plain("!")
  {
  }

  lemma RouterWordsArePlain()
    ensures Plain("router") && Plain("bgp") && Plain("router-id") && Plain("no") && Plain("default")
    ensures Plain("ipv4-unicast")
  {
  }

  lemma BfdWordsArePlain()
    ensures Plain("bfd") && Plain("profile") && Plain("l2mesh") && Plain("exit") && Plain("!")
  {
  }

  lemma IntervalWordsArePlain()
    ensures Plain("receive-interval") && Plain("transmit-interval") && Plain("detect-multiplier")
  {
  }

  lemma RouteMapWordsArePlain()
    ensures Plain("route-map") && Plain("BLOCK_T3") && Plain("deny") && Plain("match") && Plain("evpn")
    ensures Plain("route-type") && Plain("multicast") && Plain("permit") && Plain("in") && Plain("!")
  {
  }

  lemma FamilyWordsArePlain()
    ensures Plain("address-family") && Plain("l2vpn") && Plain("evpn") && Plain("vni") && Plain("exit-vni")
    ensures Plain("exit") && Plain("!")
  {
  }

  lemma FooterWordsArePlain()
    ensures Plain("advertise-all-vni") && Plain("advertise-svi-ip") && Plain("exit-address-family")
  {
  }

  lemma NeighbourWordsArePlain()
    ensures Plain("neighbor") && Plain("remote-as") && Plain("update-source") && Plain("activate") && Plain("force")
  {
  }

  lemma ClientWordsArePlain()
    ensures Plain("route-reflector-client") && Plain("next-hop-self")
  {
  }

  lemma HeaderIsPlain(node: Node)
    ensures PlainLines(Header(node)) <==> Plain(node.name) && Plain(node.overlayIP)
  {
    var h := Header(node);
    hide Plain, Digits;
    assert h == h[..3] + h[3..7] + h[7..11] + h[11..15] + h[15..];
    PlainConcat(h[..3] + h[3..7] + h[7..11] + h[11..15], h[15..]);
    PlainConcat(h[..3] + h[3..7] + h[7..11], h[11..15]);
    PlainConcat(h[..3] + h[3..7], h[7..11]);
    PlainConcat(h[..3], h[3..7]);
    NamingIsPlain(node);
    IntervalsArePlain(node);
    MultiplierIsPlain(node);
    RouteMapIsPlain(node);
    RouterIsPlain(node);
    hide Header, PlainLines;
  }

  lemma NamingIsPlain(node: Node)
    ensures PlainLines(Header(node)[..3]) <==> Plain(node.name)
  {
    NamingWordsArePlain();
    hide Plain, Digits;
    var h := Header(node)[..3];
    if PlainLines(h) {
      assert PlainLine(h[1]) && h[1][1].text == node.name;
    }
  }

  lemma IntervalsArePlain(node: Node)
    ensures PlainLines(Header(node)[3..7])
  {
    hide Plain, Digits;
    BfdWordsArePlain();
    IntervalWordsArePlain();
    DigitsArePlain(300);
  }

  lemma MultiplierIsPlain(node: Node)
    ensures PlainLines(Header(node)[7..11])
  {
    hide Plain, Digits;
    BfdWordsArePlain();
    IntervalWordsArePlain();
    DigitsArePlain(3);
  }

  lemma RouteMapIsPlain(node: Node)
    ensures PlainLines(Header(node)[11..15])
  {
    RouteMapWordsArePlain();
    DigitsArePlain(10);
    DigitsArePlain(100);
    hide Plain, Digits;
  }

  lemma RouterIsPlain(node: Node)
    ensures PlainLines(Header(node)[15..]) <==> Plain(node.overlayIP)
  {
    RouterWordsArePlain();
    DigitsArePlain(node.asn);
    hide Plain, Digits;
    var h := Header(node)[15..];
    if PlainLines(h) {
      assert PlainLine(h[1]) && h[1][2].text == node.overlayIP;
    }
  }

  lemma FamilyAndFooterArePlain(node: Node)
    ensures PlainLines(Family()) && PlainLines(Footer(node))
  {
    FamilyWordsArePlain();
    FooterWordsArePlain();
    DigitsArePlain(node.vni);
    hide Plain, Digits;
  }

  lemma DeclareIsPlain(node: Node, ip: string)
    ensures PlainLines(Declare(node, ip)) <==> Plain(ip) && Plain(node.overlayIP)
  {
    NeighbourWordsArePlain();
    BfdWordsArePlain();
    DigitsArePlain(node.asn);
    hide Plain, Digits;
    var d := Declare(node, ip);
    if PlainLines(d) {
      assert d[1][1].text == ip && d[1][3].text == node.overlayIP;
      assert PlainLine(d[1]);
    }
  }

  lemma ActivateIsPlain(ip: string, client: bool, mst: seq<string>)
    ensures PlainLines(Activate(ip, client, mst)) <==> Plain(ip)
  {
    NeighbourWordsArePlain();
    ClientWordsArePlain();
    RouteMapWordsArePlain();
    hide Plain;
    var a := Activate(ip, client, mst);
    if PlainLines(a) {
      assert a[0][1].text == ip;
      assert PlainLine(a[0]);
    }
  }

  ghost predicate PlainPeers(peers: seq<Peer>) {
    forall i :: 0 <= i < |peers| ==> Plain(peers[i].overlayIP)
  }

  lemma {:induction false} DeclareAllIsPlain(node: Node, peers: seq<Peer>)
    requires Plain(node.overlayIP)
    ensures PlainLines(DeclareAll(node, peers)) <==> PlainPeers(peers)
    decreases |peers|
  {
    hide Plain, PlainLines, Declare;
    if peers == [] {
      NothingIsPlain();
    } else {
      DeclareIsPlain(node, peers[0].overlayIP);
      DeclareAllIsPlain(node, peers[1..]);
      PlainConcat(Declare(node, peers[0].overlayIP), DeclareAll(node, peers[1..]));
      assert peers == [peers[0]] + peers[1..];
    }
  }

  lemma {:induction false} ActivateAllIsPlain(peers: seq<Peer>, clients: bool, mst: seq<string>)
    ensures PlainLines(ActivateAll(peers, clients, mst)) <==> PlainPeers(peers)
    decreases |peers|
  {
    hide Plain, PlainLines, Activate;
    if peers == [] {
      NothingIsPlain();
    } else {
      ActivateIsPlain(peers[0].overlayIP, clients, mst);
      ActivateAllIsPlain(peers[1..], clients, mst);
      PlainConcat(Activate(peers[0].overlayIP, clients, mst), ActivateAll(peers[1..], clients, mst));
      assert peers == [peers[0]] + peers[1..];
    }
  }

  lemma NothingIsPlain()
    ensures PlainLines([])
  {
  }

  /** The texts a configuration is made of: the node's name and address, and the peers' addresses. */
  ghost predicate PlainTexts(s: State) {
    Plain(s.node.name) && Plain(s.node.overlayIP) && PlainPeers(FlatPeers(s))
  }

  lemma RenderIsPlain(s: State, mst: seq<string>)
    ensures PlainLines(Render(s, mst)) <==> PlainTexts(s)
  {
    hide Plain, PlainLines, Header, Family, Footer, DeclareAll, ActivateAll, Render;
    RenderParts(s, mst);
    PlainConcat(Front(s), Back(s, mst));
    PlainConcat(Header(s.node) + DeclareAll(s.node, s.roots), DeclareAll(s.node, s.leafs));
    PlainConcat(Header(s.node), DeclareAll(s.node, s.roots));
    PlainConcat(Family() + ActivateAll(s.roots, false, mst) + ActivateAll(s.leafs, true, mst), Footer(s.node));
    PlainConcat(Family() + ActivateAll(s.roots, false, mst), ActivateAll(s.leafs, true, mst));
    PlainConcat(Family(), ActivateAll(s.roots, false, mst));
    HeaderIsPlain(s.node);
    FamilyAndFooterArePlain(s.node);
    ActivateAllIsPlain(s.roots, false, mst);
    ActivateAllIsPlain(s.leafs, true, mst);
    if Plain(s.node.overlayIP) {
      DeclareAllIsPlain(s.node, s.roots);
      DeclareAllIsPlain(s.node, s.leafs);
    }
    FlatPlain(s);
  }

  lemma FlatPlain(s: State)
    ensures PlainPeers(FlatPeers(s)) <==> PlainPeers(s.roots) && PlainPeers(s.leafs)
  {
    hide Plain;
    assert forall i :: 0 <= i < |s.roots| ==> FlatPeers(s)[i] == s.roots[i];
    assert forall i :: 0 <= i < |s.leafs| ==> FlatPeers(s)[|s.roots| + i] == s.leafs[i];
  }

  lemma {:induction false} NoEmptyLines(s: State, mst: seq<string>)
    ensures forall i :: 0 <= i < |Render(s, mst)| ==> Render(s, mst)[i] != []
  {
    DeclaredNotEmpty(s.node, s.roots);
    DeclaredNotEmpty(s.node, s.leafs);
    ActivatedNotEmpty(s.roots, false, mst);
    ActivatedNotEmpty(s.leafs, true, mst);
    hide DeclareAll, ActivateAll, Digits;
  }

  lemma {:induction false} DeclaredNotEmpty(node: Node, peers: seq<Peer>)
    ensures forall i :: 0 <= i < |DeclareAll(node, peers)| ==> DeclareAll(node, peers)[i] != []
    decreases |peers|
  {
    if peers != [] {
      DeclaredNotEmpty(node, peers[1..]);
      hide Digits;
    }
  }

  lemma {:induction false} ActivatedNotEmpty(peers: seq<Peer>, clients: bool, mst: seq<string>)
    ensures forall i :: 0 <= i < |ActivateAll(peers, clients, mst)| ==> ActivateAll(peers, clients, mst)[i] != []
    decreases |peers|
  {
    if peers != [] {
      ActivatedNotEmpty(peers[1..], clients, mst);
    }
  }

  /** The text written tells the configuration's words exactly when the node's name and address and every
      peer's address are plain. The command line takes any text for them. */
  lemma ConfigurationIsToldExactlyWhen(s: State, mst: seq<string>)
    ensures ParseText(EmitText(Render(s, mst))) == TextLines(Render(s, mst)) <==> PlainTexts(s)
  {
    hide Render, ParseText, EmitText, TextLines, PlainLines, PlainTexts;
    NoEmptyLines(s, mst);
    RenderIsPlain(s, mst);
    TextTellsExactlyWhen(Render(s, mst));
  }

  lemma TextsTellLines(a: seq<Line>, b: seq<Line>)
    requires TextLines(a) == TextLines(b)
    ensures a == b
  {
    assert |a| == |TextLines(a)| == |b|;
    forall i | 0 <= i < |a|
      ensures a[i] == b[i]
    {
      assert Texts(a[i]) == TextLines(a)[i] == TextLines(b)[i] == Texts(b[i]);
      forall j | 0 <= j < |a[i]|
        ensures a[i][j] == b[i][j]
      {
        assert Texts(a[i])[j] == Texts(b[i])[j];
      }
    }
  }

  /** Then equal texts are of equal configurations, and stores that write the same text agree. */
  lemma TextIsFaithful(s: State, mst: seq<string>, s': State, mst': seq<string>)
    requires PlainTexts(s) && PlainTexts(s') && EmitText(Render(s, mst)) == EmitText(Render(s', mst'))
    ensures Render(s, mst) == Render(s', mst')
    ensures s.node.name == s'.node.name && s.node.asn == s'.node.asn && s.node.overlayIP == s'.node.overlayIP
    ensures s.node.vni == s'.node.vni && IPs(s.roots) == IPs(s'.roots) && IPs(s.leafs) == IPs(s'.leafs)
    ensures forall ip :: ip in IPs(FlatPeers(s)) ==> (ip in mst <==> ip in mst')
  {
    hide Render, ParseText, EmitText, TextLines, PlainTexts;
    ConfigurationIsToldExactlyWhen(s, mst);
    ConfigurationIsToldExactlyWhen(s', mst');
    TextsTellLines(Render(s, mst), Render(s', mst'));
    RenderIsFaithful(s, mst, s', mst');
  }
}
