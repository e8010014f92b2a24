/** The peer store: two lists of peers, and the operations that keep them free of clashes. */
module PeerStore {
  import opened Prelude

  datatype Role = Root | Leaf | Other(name: string)

  datatype Peer = Peer(name: string, publicKey: string, overlayIP: string, endpoint: string)

  datatype Node = Node(name: string, overlayIP: string, asn: nat, vni: nat)

  datatype State = State(node: Node, roots: seq<Peer>, leafs: seq<Peer>)

  datatype Refusal =
    | InvalidPubkey | PubkeyUsed(holder: Role) | OverlayIPUsed(holder: Role) | NameTaken | NotFound | UnknownRole

  datatype Result<+T> = Ok(value: T) | Err(error: Refusal)

  function FlatPeers(s: State): seq<Peer> {
    s.roots + s.leafs
  }

  ghost predicate HasKey(peers: seq<Peer>, key: string) {
    exists i :: 0 <= i < |peers| && peers[i].publicKey == key
  }

  ghost predicate HasIP(peers: seq<Peer>, ip: string) {
    exists i :: 0 <= i < |peers| && peers[i].overlayIP == ip
  }

  ghost predicate HasName(peers: seq<Peer>, name: string) {
    exists i :: 0 <= i < |peers| && peers[i].name == name
  }

  /** The first peer of that name. */
  ghost function FirstNamed(peers: seq<Peer>, name: string): nat
    requires HasName(peers, name)
    ensures var i := FirstNamed(peers, name);
            i < |peers| && peers[i].name == name && forall k :: 0 <= k < i ==> peers[k].name != name
  {
    if peers[0].name == name then 0
    else
      assert HasName(peers[1..], name) by {
        var i :| 0 <= i < |peers| && peers[i].name == name;
        assert peers[1..][i - 1].name == name;
      }
      1 + FirstNamed(peers[1..], name)
  }

  function Without<T>(s: seq<T>, i: nat): seq<T>
    requires i < |s|
  {
    s[..i] + s[i + 1..]
  }

  /** What adding a peer does to the store, or why it is refused; the checks come in this order. */
  ghost function Added(validKey: string -> bool, s: State, role: Role, p: Peer): Result<State> {
    if !validKey(p.publicKey) then Err(InvalidPubkey)
    else if HasKey(FlatPeers(s), p.publicKey) then
      Err(PubkeyUsed(if HasKey(s.roots, p.publicKey) then Root else Leaf))
    else if HasIP(FlatPeers(s), p.overlayIP) then
      Err(OverlayIPUsed(if HasIP(s.roots, p.overlayIP) then Root else Leaf))
    else match role
      case Root => if HasName(s.roots, p.name) then Err(NameTaken) else Ok(s.(roots := s.roots + [p]))
      case Leaf => if HasName(s.leafs, p.name) then Err(NameTaken) else Ok(s.(leafs := s.leafs + [p]))
      case Other(_) => Err(UnknownRole)
  }

  /** What removing by name does, with the key the caller takes to the kernel. */
  ghost function Removed(s: State, role: Role, name: string): Result<(State, string)> {
    match role
    case Root =>
      if !HasName(s.roots, name) then Err(NotFound)
      else
        var i := FirstNamed(s.roots, name);
        Ok((s.(roots := Without(s.roots, i)), s.roots[i].publicKey))
    case Leaf =>
      if !HasName(s.leafs, name) then Err(NotFound)
      else
        var i := FirstNamed(s.leafs, name);
        Ok((s.(leafs := Without(s.leafs, i)), s.leafs[i].publicKey))
    case Other(_) => Err(UnknownRole)
  }

  /** `p` is the first peer wanted, roots before leafs, and `role` says in which list it is. */
  ghost predicate IsFirst(s: State, wanted: Peer -> bool, role: Role, p: Peer) {
    exists i :: 0 <= i < |FlatPeers(s)| && FlatPeers(s)[i] == p && wanted(p)
                && role == (if i < |s.roots| then Root else Leaf)
                && forall k :: 0 <= k < i ==> !wanted(FlatPeers(s)[k])
  }

  class Store {
    var node: Node
    var roots: seq<Peer>
    var leafs: seq<Peer>

    constructor (s: State)
      ensures Value() == s
    {
      node, roots, leafs := s.node, s.roots, s.leafs;
    }

    ghost function Value(): State
      reads this
    {
      State(node, roots, leafs)
    }

    /** The four `Find` loops: the first match, or -1. */
    static method Find(peers: seq<Peer>, wanted: Peer -> bool) returns (i: int)
      ensures -1 <= i < |peers|
      ensures i >= 0 ==> wanted(peers[i])
      ensures forall k :: 0 <= k < (if i < 0 then |peers| else i) ==> !wanted(peers[k])
    {
      i := 0;
      while i < |peers|
        invariant 0 <= i <= |peers|
        invariant forall k :: 0 <= k < i ==> !wanted(peers[k])
      {
        if wanted(peers[i]) {
          return;
        }
        i := i + 1;
      }
      i := -1;
    }

    method FindByPubkey(key: string) returns (holder: Option<(Role, Peer)>)
      ensures holder.Some? <==> HasKey(FlatPeers(Value()), key)
      ensures holder.Some? ==> IsFirst(Value(), (p: Peer) => p.publicKey == key, holder.value.0, holder.value.1)
      ensures holder.Some? ==> holder.value.0 == if HasKey(roots, key) then Root else Leaf
    {
      var i := Find(roots, (p: Peer) => p.publicKey == key);
      if i >= 0 {
        assert FlatPeers(Value())[i] == roots[i];
        return Some((Root, roots[i]));
      }
      i := Find(leafs, (p: Peer) => p.publicKey == key);
      if i >= 0 {
        assert FlatPeers(Value())[|roots| + i] == leafs[i];
        return Some((Leaf, leafs[i]));
      }
      return None;
    }

    method FindByOverlayIP(ip: string) returns (holder: Option<(Role, Peer)>)
      ensures holder.Some? <==> HasIP(FlatPeers(Value()), ip)
      ensures holder.Some? ==> IsFirst(Value(), (p: Peer) => p.overlayIP == ip, holder.value.0, holder.value.1)
      ensures holder.Some? ==> holder.value.0 == if HasIP(roots, ip) then Root else Leaf
    {
      var i := Find(roots, (p: Peer) => p.overlayIP == ip);
      if i >= 0 {
        assert FlatPeers(Value())[i] == roots[i];
        return Some((Root, roots[i]));
      }
      i := Find(leafs, (p: Peer) => p.overlayIP == ip);
      if i >= 0 {
        assert FlatPeers(Value())[|roots| + i] == leafs[i];
        return Some((Leaf, leafs[i]));
      }
      return None;
    }

    /** A refused peer leaves the store as it was. */
    method AddPeer(validKey: string -> bool, role: Role, p: Peer) returns (refusal: Option<Refusal>)
      modifies this
      ensures match Added(validKey, old(Value()), role, p)
              case Ok(s) => refusal == None && Value() == s
              case Err(e) => refusal == Some(e) && Value() == old(Value())
      ensures refusal == None <==> Acceptable(validKey, old(Value()), role, p)
    {
      AcceptedExactlyWhen(validKey, Value(), role, p);
      hide Acceptable;
      if !validKey(p.publicKey) {
        return Some(InvalidPubkey);
      }
      var holder := FindByPubkey(p.publicKey);
      if holder.Some? {
        return Some(PubkeyUsed(holder.value.0));
      }
      holder := FindByOverlayIP(p.overlayIP);
      if holder.Some? {
        return Some(OverlayIPUsed(holder.value.0));
      }
      match role {
        case Root =>
          var i := Find(roots, (q: Peer) => q.name == p.name);
          if i >= 0 {
            return Some(NameTaken);
          }
          roots := roots + [p];
        case Leaf =>
          var i := Find(leafs, (q: Peer) => q.name == p.name);
          if i >= 0 {
            return Some(NameTaken);
          }
          leafs := leafs + [p];
        case Other(_) =>
          return Some(UnknownRole);
      }
      return None;
    }

    /** `append(list[:i], list[i+1:]...)`: shifts the later elements down over the one removed, in place. */
    static method ShiftDown(a: array<Peer>, i: nat)
      requires i < a.Length
      modifies a
      ensures a[..a.Length - 1] == Without(old(a[..]), i) && a[a.Length - 1] == old(a[a.Length - 1])
    {
      for k := i to a.Length - 1
        invariant forall j :: 0 <= j < a.Length ==> a[j] == old(a[if i <= j < k then j + 1 else j])
      {
        a[k] := a[k + 1];
      }
    }

    static method Cut(list: seq<Peer>, i: nat) returns (rest: seq<Peer>)
      requires i < |list|
      ensures rest == Without(list, i)
    {
      var a := new Peer[|list|](j requires 0 <= j < |list| => list[j]);
      assert a[..] == list;
      ShiftDown(a, i);
      rest := a[..a.Length - 1];
    }

    /** Saves the key of the peer before the shift puts the next one in its place. */
    method RemovePeer(role: Role, name: string) returns (r: Result<string>)
      modifies this
      ensures match Removed(old(Value()), role, name)
              case Ok((s, key)) => r == Ok(key) && Value() == s
              case Err(e) => r == Err(e) && Value() == old(Value())
    {
      hide Removed;
      match role
      case Root =>
        var i := Find(roots, (q: Peer) => q.name == name);
        RemovedByIndex(Value(), role, name, roots, i);
        if i < 0 {
          return Err(NotFound);
        }
        var key := roots[i].publicKey;
        roots := Cut(roots, i);
        return Ok(key);
      case Leaf =>
        var i := Find(leafs, (q: Peer) => q.name == name);
        RemovedByIndex(Value(), role, name, leafs, i);
        if i < 0 {
          return Err(NotFound);
        }
        var key := leafs[i].publicKey;
        leafs := Cut(leafs, i);
        return Ok(key);
      case Other(_) =>
        RemovedByIndex(Value(), role, name, [], -1);
        return Err(UnknownRole);
    }
  }

  /** The outcome of a removal, from the index of the first peer of that name in the role's list. */
  lemma RemovedByIndex(s: State, role: Role, name: string, list: seq<Peer>, i: int)
    requires -1 <= i < |list| && (role == Root ==> list == s.roots) && (role == Leaf ==> list == s.leafs)
    requires i >= 0 ==> list[i].name == name
    requires forall k :: 0 <= k < (if i < 0 then |list| else i) ==> list[k].name != name
    ensures Removed(s, role, name) ==
            if role.Other? then Err(UnknownRole)
            else if i < 0 then Err(NotFound)
            else if role == Root then Ok((s.(roots := list[..i] + list[i + 1..]), list[i].publicKey))
            else Ok((s.(leafs := list[..i] + list[i + 1..]), list[i].publicKey))
  {
  }

  ghost predicate NamesUnique(peers: seq<Peer>) {
    forall i, j :: 0 <= i < j < |peers| ==> peers[i].name != peers[j].name
  }

  ghost predicate KeysAndIPsUnique(peers: seq<Peer>) {
    forall i, j :: 0 <= i < j < |peers| ==>
      peers[i].publicKey != peers[j].publicKey && peers[i].overlayIP != peers[j].overlayIP
  }

  /** Keys and overlay IPs are unique across both lists, names within each. */
  ghost predicate Unique(s: State) {
    KeysAndIPsUnique(FlatPeers(s)) && NamesUnique(s.roots) && NamesUnique(s.leafs)
  }

  /** Its key and its address are new to both lists. */
  ghost predicate KeyFree(s: State, p: Peer) {
    forall q :: q in s.roots || q in s.leafs ==> q.publicKey != p.publicKey
  }

  ghost predicate AddressFree(s: State, p: Peer) {
    forall q :: q in s.roots || q in s.leafs ==> q.overlayIP != p.overlayIP
  }

  ghost predicate NameFree(peers: seq<Peer>, name: string) {
    forall q :: q in peers ==> q.name != name
  }

  /** A peer the store has no reason to refuse. */
  ghost predicate Acceptable(validKey: string -> bool, s: State, role: Role, p: Peer) {
    && validKey(p.publicKey) && KeyFree(s, p) && AddressFree(s, p)
    && ((role == Root && NameFree(s.roots, p.name)) || (role == Leaf && NameFree(s.leafs, p.name)))
  }

  /** A peer is accepted exactly when its key parses, its key and address are new, and its name is new to the
      list it is meant for. Otherwise the reason given is the first of these that fails; a key or an address in
      use is laid to a root if one has it, and to a leaf only if none does. */
  lemma AcceptedExactlyWhen(validKey: string -> bool, s: State, role: Role, p: Peer)
    ensures Added(validKey, s, role, p).Ok? <==> Acceptable(validKey, s, role, p)
    ensures Acceptable(validKey, s, role, p) ==>
              Added(validKey, s, role, p).value ==
              State(s.node, if role == Root then s.roots + [p] else s.roots,
                            if role == Leaf then s.leafs + [p] else s.leafs)
    ensures Added(validKey, s, role, p) == Err(InvalidPubkey) <==> !validKey(p.publicKey)
    ensures forall holder :: Added(validKey, s, role, p) == Err(PubkeyUsed(holder)) <==>
              && validKey(p.publicKey) && !KeyFree(s, p)
              && holder == if exists q :: q in s.roots && q.publicKey == p.publicKey then Root else Leaf
    ensures forall holder :: Added(validKey, s, role, p) == Err(OverlayIPUsed(holder)) <==>
              && validKey(p.publicKey) && KeyFree(s, p) && !AddressFree(s, p)
              && holder == if exists q :: q in s.roots && q.overlayIP == p.overlayIP then Root else Leaf
    ensures Added(validKey, s, role, p) == Err(UnknownRole) <==>
            validKey(p.publicKey) && KeyFree(s, p) && AddressFree(s, p) && role.Other?
  {
    KeysHeld(s, p);
    NamesHeld(s.roots, p.name);
    NamesHeld(s.leafs, p.name);
    hide HasKey, HasIP, HasName, KeyFree, AddressFree, NameFree;
  }

  lemma NamesHeld(peers: seq<Peer>, name: string)
    ensures HasName(peers, name) <==> !NameFree(peers, name)
  {
    if !NameFree(peers, name) {
      var q :| q in peers && q.name == name;
      var i :| 0 <= i < |peers| && peers[i] == q;
    }
  }

  lemma MembersHeld(peers: seq<Peer>, p: Peer)
    ensures HasKey(peers, p.publicKey) <==> exists q :: q in peers && q.publicKey == p.publicKey
    ensures HasIP(peers, p.overlayIP) <==> exists q :: q in peers && q.overlayIP == p.overlayIP
  {
    if q :| q in peers && q.publicKey == p.publicKey {
      var i :| 0 <= i < |peers| && peers[i] == q;
    }
    if q :| q in peers && q.overlayIP == p.overlayIP {
      var i :| 0 <= i < |peers| && peers[i] == q;
    }
  }

  lemma KeysHeld(s: State, p: Peer)
    ensures HasKey(FlatPeers(s), p.publicKey) <==> !KeyFree(s, p)
    ensures HasIP(FlatPeers(s), p.overlayIP) <==> !AddressFree(s, p)
    ensures HasKey(s.roots, p.publicKey) <==> exists q :: q in s.roots && q.publicKey == p.publicKey
    ensures HasIP(s.roots, p.overlayIP) <==> exists q :: q in s.roots && q.overlayIP == p.overlayIP
  {
    MembersHeld(FlatPeers(s), p);
    MembersHeld(s.roots, p);
    assert forall q :: q in FlatPeers(s) <==> q in s.roots || q in s.leafs;
    hide HasKey, HasIP;
  }

  lemma InsertKeepsUnique(before: seq<Peer>, p: Peer, after: seq<Peer>)
    requires KeysAndIPsUnique(before + after)
    requires !HasKey(before + after, p.publicKey) && !HasIP(before + after, p.overlayIP)
    ensures KeysAndIPsUnique(before + [p] + after)
  {
    var was, now := before + after, before + [p] + after;
    var n := |before|;
    forall i | 0 <= i < |now| && i != n
      ensures now[i] == was[if i < n then i else i - 1]
    {
    }
    forall i, j | 0 <= i < j < |now|
      ensures now[i].publicKey != now[j].publicKey && now[i].overlayIP != now[j].overlayIP
    {
      assert now[n] == p;
    }
  }

  lemma AddKeepsUnique(validKey: string -> bool, s: State, role: Role, p: Peer)
    requires Unique(s) && Added(validKey, s, role, p).Ok?
    ensures Unique(Added(validKey, s, role, p).value)
  {
    var s' := Added(validKey, s, role, p).value;
    if role == Root {
      InsertKeepsUnique(s.roots, p, s.leafs);
      assert FlatPeers(s') == s.roots + [p] + s.leafs;
    } else {
      assert s.roots + s.leafs + [] == FlatPeers(s);
      InsertKeepsUnique(s.roots + s.leafs, p, []);
      assert FlatPeers(s') == s.roots + s.leafs + [p] + [];
    }
  }

  lemma WithoutKeepsUnique(peers: seq<Peer>, i: nat)
    requires i < |peers|
    ensures KeysAndIPsUnique(peers) ==> KeysAndIPsUnique(Without(peers, i))
    ensures NamesUnique(peers) ==> NamesUnique(Without(peers, i))
  {
  }

  /** Where in the flat list the removed peer sat. */
  ghost function RemovedAt(s: State, role: Role, name: string): nat
    requires Removed(s, role, name).Ok?
  {
    if role == Root then FirstNamed(s.roots, name) else |s.roots| + FirstNamed(s.leafs, name)
  }

  /** Exactly one peer goes, it has that name, its key is the one returned, and the rest keep their order. */
  lemma RemoveDeletesOne(s: State, role: Role, name: string)
    requires Removed(s, role, name).Ok?
    ensures var i, (s', key) := RemovedAt(s, role, name), Removed(s, role, name).value;
            && i < |FlatPeers(s)| && FlatPeers(s') == Without(FlatPeers(s), i)
            && FlatPeers(s)[i].name == name && FlatPeers(s)[i].publicKey == key
            && s'.node == s.node && (if role == Root then s'.leafs == s.leafs else s'.roots == s.roots)
    ensures Unique(s) ==> var s' := Removed(s, role, name).value.0;
            Unique(s') && !HasName(if role == Root then s'.roots else s'.leafs, name)
  {
    var i, s' := RemovedAt(s, role, name), Removed(s, role, name).value.0;
    assert FlatPeers(s') == Without(FlatPeers(s), i);
    WithoutKeepsUnique(FlatPeers(s), i);
    if role == Root {
      WithoutKeepsUnique(s.roots, FirstNamed(s.roots, name));
      UniqueNameIsGone(s.roots, name);
    } else {
      WithoutKeepsUnique(s.leafs, FirstNamed(s.leafs, name));
      UniqueNameIsGone(s.leafs, name);
    }
  }

  lemma UniqueNameIsGone(peers: seq<Peer>, name: string)
    requires HasName(peers, name)
    ensures NamesUnique(peers) ==> !HasName(Without(peers, FirstNamed(peers, name)), name)
  {
  }

  /** Removing what was just added restores the store, whatever state it was in. */
  lemma AddThenRemove(validKey: string -> bool, s: State, role: Role, p: Peer)
    requires Added(validKey, s, role, p).Ok?
    ensures Removed(Added(validKey, s, role, p).value, role, p.name) == Ok((s, p.publicKey))
  {
    var list := if role == Root then s.roots else s.leafs;
    var more := list + [p];
    assert more[|list|].name == p.name;
    assert forall k :: 0 <= k < |list| ==> more[k] == list[k];
    var i := FirstNamed(more, p.name);
    assert forall k :: 0 <= k < |list| ==> list[k].name != p.name;
    assert Without(more, i) == list;
  }

  /** Putting a removed peer back restores the store exactly when it was the last of its list:
      otherwise it comes back at the end. */
  lemma RemoveThenAdd(validKey: string -> bool, s: State, role: Role, name: string)
    requires Unique(s) && Removed(s, role, name).Ok?
    requires validKey(Removed(s, role, name).value.1)
    ensures var s', p := Removed(s, role, name).value.0, FlatPeers(s)[RemovedAt(s, role, name)];
            var list := if role == Root then s.roots else s.leafs;
            && Added(validKey, s', role, p).Ok?
            && (Added(validKey, s', role, p).value == s <==> FirstNamed(list, name) == |list| - 1)
  {
    var s', at := Removed(s, role, name).value.0, RemovedAt(s, role, name);
    RemoveDeletesOne(s, role, name);
    RemovedIsFreeAgain(FlatPeers(s), at);
    var list := if role == Root then s.roots else s.leafs;
    assert FlatPeers(s)[at] == list[FirstNamed(list, name)];
    PutBackLast(list, FirstNamed(list, name));
  }

  lemma RemovedIsFreeAgain(peers: seq<Peer>, i: nat)
    requires KeysAndIPsUnique(peers) && i < |peers|
    ensures !HasKey(Without(peers, i), peers[i].publicKey) && !HasIP(Without(peers, i), peers[i].overlayIP)
  {
  }

  lemma PutBackLast(list: seq<Peer>, i: nat)
    requires NamesUnique(list) && i < |list|
    ensures Without(list, i) + [list[i]] == list <==> i == |list| - 1
  {
  }

  datatype Command = Add(role: Role, peer: Peer) | Remove(role: Role, name: string)

  /** A command as `WithLock` sees it: a new state, or a failure that saves nothing. */
  ghost function Exec(validKey: string -> bool, c: Command, s: State): Option<State> {
    match c
    case Add(role, p) => (match Added(validKey, s, role, p) case Ok(s') => Some(s') case Err(_) => None)
    case Remove(role, name) => (match Removed(s, role, name) case Ok((s', _)) => Some(s') case Err(_) => None)
  }

  lemma ExecKeepsUnique(validKey: string -> bool, c: Command, s: State)
    requires Unique(s) && Exec(validKey, c, s).Some?
    ensures Unique(Exec(validKey, c, s).value)
  {
    match c
    case Add(role, p) => AddKeepsUnique(validKey, s, role, p);
    case Remove(role, name) => RemoveDeletesOne(s, role, name);
  }

  ghost predicate KeysParse(validKey: string -> bool, s: State) {
    forall q :: q in s.roots || q in s.leafs ==> validKey(q.publicKey)
  }

  lemma ExecKeepsKeysParse(validKey: string -> bool, c: Command, s: State)
    requires KeysParse(validKey, s) && Exec(validKey, c, s).Some?
    ensures KeysParse(validKey, Exec(validKey, c, s).value)
  {
  }

  /** What a command reports and leaves behind, carried out on `now`, over the peers themselves. */
  ghost predicate CarriedOut(validKey: string -> bool, c: Command, now: State, ok: bool, s: State) {
    match c
    case Add(role, p) =>
      && (ok <==> Acceptable(validKey, now, role, p))
      && s.node == now.node
      && s.roots == (if ok && role == Root then now.roots + [p] else now.roots)
      && s.leafs == (if ok && role == Leaf then now.leafs + [p] else now.leafs)
    case Remove(role, name) =>
      var list := if role == Root then now.roots else now.leafs;
      && (ok <==> !role.Other? && !NameFree(list, name))
      && (!ok ==> s == now)
      && (ok ==> exists i :: 0 <= i < |list| && list[i].name == name && NameFree(list[..i], name)
                             && s == if role == Root then State(now.node, list[..i] + list[i + 1..], now.leafs)
                                     else State(now.node, now.roots, list[..i] + list[i + 1..]))
  }

  lemma ExecIsCarriedOut(validKey: string -> bool, c: Command, now: State)
    ensures var outcome := Exec(validKey, c, now);
            CarriedOut(validKey, c, now, outcome.Some?, if outcome.Some? then outcome.value else now)
  {
    match c
    case Add(role, p) => AcceptedExactlyWhen(validKey, now, role, p);
    case Remove(role, name) =>
      NamesHeld(now.roots, name);
      NamesHeld(now.leafs, name);
      if Exec(validKey, c, now).Some? {
        var list := if role == Root then now.roots else now.leafs;
        var i := FirstNamed(list, name);
        assert list[i].name == name && NameFree(list[..i], name);
      }
  }
}
