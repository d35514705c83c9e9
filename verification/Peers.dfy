/** The peer list: printed by the operator into the pods' arguments, parsed by the server. */
module Peers {
  import opened Types
  import opened Decimal
  import opened RaftId

  // ---------------------------------------------------------------- the operator's side

  function Addr(cluster: string, i: nat): string {
    PodName(cluster, i) + "." + cluster + "-raft:9000"
  }

  function Item(cluster: string, i: nat): string {
    PodName(cluster, i) + "=" + Addr(cluster, i)
  }

  /** Strings joined by commas. */
  function Joined(items: seq<string>): string {
    if items == [] then ""
    else if |items| == 1 then items[0]
    else Joined(items[..|items| - 1]) + "," + items[|items| - 1]
  }

  function Items(cluster: string, n: nat): (items: seq<string>)
    ensures |items| == n
  {
    if n == 0 then [] else Items(cluster, n - 1) + [Item(cluster, n - 1)]
  }

  /** The older form of the same list, addresses only. */
  function Addrs(cluster: string, n: nat): (items: seq<string>)
    ensures |items| == n
  {
    if n == 0 then [] else Addrs(cluster, n - 1) + [Addr(cluster, n - 1)]
  }

  method BuildPeers(cluster: string, replicas: int) returns (peers: string)
    ensures peers == Joined(Items(cluster, if replicas < 0 then 0 else replicas))
  {
    peers := "";
    var i := 0;
    while i < replicas
      invariant 0 <= i && (replicas >= 0 ==> i <= replicas) && (replicas < 0 ==> i == 0)
      invariant peers == Joined(Items(cluster, i))
    {
      if i > 0 {
        peers := peers + ",";
      }
      var nodeId := PodName(cluster, i);
      var addr := PodName(cluster, i) + "." + cluster + "-raft:9000";
      peers := peers + (nodeId + "=" + addr);
      assert Items(cluster, i + 1)[..i] == Items(cluster, i);
      i := i + 1;
    }
  }

  /** One item, letter by letter: the pod's name, an equals sign, and its address under the headless service. */
  lemma ItemFormat(cluster: string, i: nat)
    ensures Item(cluster, i) == cluster + "-" + Dec(i) + "=" + cluster + "-" + Dec(i) + "." + cluster + "-raft:9000"
  {
    hide Dec;
    var pod := cluster + "-" + Dec(i);
    assert PodName(cluster, i) == pod;
    assert Item(cluster, i) == pod + "=" + (pod + "." + cluster + "-raft:9000");
  }

  // ---------------------------------------------------------------- the server's side

  /** unicode.IsSpace. */
  predicate IsSpace(c: char) {
    var n := c as int;
    9 <= n <= 13 || n == 0x20 || n == 0x85 || n == 0xA0 || n == 0x1680 || 0x2000 <= n <= 0x200A
    || n == 0x2028 || n == 0x2029 || n == 0x202F || n == 0x205F || n == 0x3000
  }

  function TrimLeft(s: string): string {
    if s != [] && IsSpace(s[0]) then TrimLeft(s[1..]) else s
  }

  function TrimRight(s: string): string {
    if s != [] && IsSpace(s[|s| - 1]) then TrimRight(s[..|s| - 1]) else s
  }

  function TrimSpace(s: string): string {
    TrimRight(TrimLeft(s))
  }

  /** The position of the first c, or the length. */
  function Find(s: string, c: char): (i: nat)
    ensures i <= |s| && c !in s[..i] && (i < |s| ==> s[i] == c)
  {
    if s == [] || s[0] == c then 0 else
      assert s == [s[0]] + s[1..];
      1 + Find(s[1..], c)
  }

  function SplitOn(s: string, c: char): seq<string>
    decreases |s|
  {
    var i := Find(s, c);
    if i == |s| then [s] else [s[..i]] + SplitOn(s[i + 1..], c)
  }

  datatype Peer = Peer(id: string, addr: string)

  function ParsePeerEntry(entry: string): Peer {
    if '=' in entry then
      var i := Find(entry, '=');
      assert entry[..|entry|] == entry;
      Peer(TrimSpace(entry[..i]), TrimSpace(entry[i + 1..]))
    else
      var host := entry[..Find(entry, ':')];
      Peer(TrimSpace(host[..Find(host, '.')]), entry)
  }

  /** One comma-separated piece: blank pieces and pieces without a name or an address are skipped. */
  function AddPiece(peers: map<string, string>, piece: string): map<string, string> {
    var entry := TrimSpace(piece);
    var p := ParsePeerEntry(entry);
    if entry == "" || p.id == "" || p.addr == "" then peers else peers[p.id := p.addr]
  }

  function Collect(pieces: seq<string>): map<string, string> {
    if pieces == [] then map[] else AddPiece(Collect(pieces[..|pieces| - 1]), pieces[|pieces| - 1])
  }

  function Parsed(s: string): map<string, string> {
    if s == "" then map[] else Collect(SplitOn(s, ','))
  }

  method GetPeers(initialPeers: string) returns (peers: map<string, string>)
    ensures peers == Parsed(initialPeers)
  {
    peers := map[];
    if initialPeers == "" {
      return;
    }
    var pieces := SplitOn(initialPeers, ',');
    for i := 0 to |pieces|
      invariant peers == Collect(pieces[..i])
    {
      assert pieces[..i + 1][..i] == pieces[..i];
      var peer := TrimSpace(pieces[i]);
      if peer == "" {
        continue;
      }
      var p := ParsePeerEntry(peer);
      if p.id == "" || p.addr == "" {
        continue;
      }
      peers := peers[p.id := p.addr];
    }
    assert pieces[..|pieces|] == pieces;
  }

  // ---------------------------------------------------------------- what parsing makes of a list

  predicate AllSpace(s: string) {
    forall c :: c in s ==> IsSpace(c)
  }

  lemma {:induction false} TrimLeftSpec(s: string) returns (left: string)
    ensures s == left + TrimLeft(s) && AllSpace(left)
    ensures TrimLeft(s) != "" ==> !IsSpace(TrimLeft(s)[0])
  {
    left := "";
    if s != [] && IsSpace(s[0]) {
      var more := TrimLeftSpec(s[1..]);
      left := [s[0]] + more;
      assert s == [s[0]] + s[1..];
    }
  }

  lemma {:induction false} TrimRightSpec(s: string) returns (right: string)
    ensures s == TrimRight(s) + right && AllSpace(right)
    ensures TrimRight(s) != "" ==> !IsSpace(TrimRight(s)[|TrimRight(s)| - 1])
  {
    right := "";
    if s != [] && IsSpace(s[|s| - 1]) {
      var more := TrimRightSpec(s[..|s| - 1]);
      right := more + [s[|s| - 1]];
      assert s == s[..|s| - 1] + [s[|s| - 1]];
    }
  }

  /** Trimming takes off white space at both ends and nothing else, until none is left there. */
  lemma TrimSpec(s: string) returns (left: string, right: string)
    ensures s == left + TrimSpace(s) + right && AllSpace(left) && AllSpace(right)
    ensures
      var t := TrimSpace(s);
      t != "" ==> !IsSpace(t[0]) && !IsSpace(t[|t| - 1])
  {
    left := TrimLeftSpec(s);
    right := TrimRightSpec(TrimLeft(s));
    hide TrimLeft, TrimRight;
    assert TrimSpace(s) != "" ==> TrimSpace(s)[0] == TrimLeft(s)[0];
  }

  /** An entry with an equals sign is split at the first one, both sides trimmed. */
  lemma NamedEntry(id: string, addr: string)
    requires '=' !in id
    ensures ParsePeerEntry(id + "=" + addr) == Peer(TrimSpace(id), TrimSpace(addr))
  {
    var entry := id + "=" + addr;
    FindAfter(id, '=', addr);
    assert entry == id + ['='] + addr;
    assert entry[|id|] == '=' && entry[..|id|] == id && entry[|id| + 1..] == addr;
  }

  lemma FindAt(s: string, c: char, i: nat)
    requires i <= |s| && c !in s[..i] && (i == |s| || s[i] == c)
    ensures Find(s, c) == i
  {
    var j := Find(s, c);
    assert forall k :: 0 <= k < i ==> s[k] in s[..i];
    assert forall k :: 0 <= k < j ==> s[k] in s[..j];
  }

  /** An entry without one is an address, named by what comes before its first colon or dot. */
  lemma BareEntry(host: string, rest: string)
    requires '=' !in host + rest && ':' !in host && '.' !in host
    requires rest == "" || rest[0] == ':' || rest[0] == '.'
    ensures ParsePeerEntry(host + rest) == Peer(TrimSpace(host), host + rest)
  {
    var entry, n := host + rest, |host|;
    assert entry[..n] == host && host[..n] == host;
    FindAt(host, '.', n);
    if rest == "" || rest[0] == ':' {
      FindAt(entry, ':', n);
    } else {
      assert entry[n] == '.' && forall k :: 0 <= k < n ==> entry[k] == host[k];
      assert forall k :: 0 <= k <= n ==> entry[k] != ':';
      var h := entry[..Find(entry, ':')];
      assert h[..n] == host && h[n] == '.';
      FindAt(h, '.', n);
    }
  }

  /** The name and address a piece stands for, if it has both. */
  function PeerOf(piece: string): Option<Peer> {
    var p := ParsePeerEntry(TrimSpace(piece));
    if TrimSpace(piece) == "" || p.id == "" || p.addr == "" then None else Some(p)
  }

  /** The piece gives id an address. */
  predicate Names(piece: string, id: string) {
    PeerOf(piece).Some? && PeerOf(piece).value.id == id
  }

  /** A name is in the map if and only if some piece gives it an address, and the last such piece decides which. */
  lemma {:induction false} LastPieceDecides(pieces: seq<string>, id: string, i: nat)
    requires i <= |pieces| && forall j :: i <= j < |pieces| ==> !Names(pieces[j], id)
    ensures i == 0 ==> id !in Collect(pieces)
    ensures
      i > 0 && Names(pieces[i - 1], id) ==>
        id in Collect(pieces) && Collect(pieces)[id] == PeerOf(pieces[i - 1]).value.addr
    decreases |pieces|
  {
    hide ParsePeerEntry, TrimSpace;
    if i < |pieces| {
      assert !Names(pieces[|pieces| - 1], id);
      LastPieceDecides(pieces[..|pieces| - 1], id, i);
    }
  }

  // ---------------------------------------------------------------- the round trip

  /** The n pods with their addresses. */
  function Expected(cluster: string, n: nat): map<string, string> {
    if n == 0 then map[] else Expected(cluster, n - 1)[PodName(cluster, n - 1) := Addr(cluster, n - 1)]
  }

  predicate Plain(s: string) {
    forall c :: c in s ==> c != ',' && c != '=' && !IsSpace(c)
  }

  lemma {:induction false} TrimPlain(s: string)
    requires forall c :: c in s ==> !IsSpace(c)
    ensures TrimSpace(s) == s
  {
    if s != [] {
      assert s[0] in s && s[|s| - 1] in s;
    }
  }

  lemma {:induction false} FindAfter(a: string, c: char, b: string)
    requires c !in a
    ensures Find(a + [c] + b, c) == |a|
  {
    var s := a + [c] + b;
    var i := Find(s, c);
    assert s[|a|] == c && forall j :: 0 <= j < |a| ==> s[j] in a;
  }

  lemma {:induction false} FindNone(s: string, c: char)
    requires c !in s
    ensures Find(s, c) == |s|
  {
    assert forall j :: 0 <= j < |s| ==> s[j] in s;
  }

  lemma {:induction false} SplitLast(a: string, b: string, c: char)
    requires c !in b
    ensures SplitOn(a + [c] + b, c) == SplitOn(a, c) + [b]
    decreases |a|
  {
    var s, i := a + [c] + b, Find(a, c);
    if i == |a| {
      assert c !in a by {
        assert a[..i] == a;
      }
      FindAfter(a, c, b);
      assert s[..|a|] == a && s[|a| + 1..] == b;
      FindNone(b, c);
    } else {
      assert s == a[..i] + [c] + (a[i + 1..] + [c] + b);
      FindAfter(a[..i], c, a[i + 1..] + [c] + b);
      assert s[..i] == a[..i] && s[i + 1..] == a[i + 1..] + [c] + b;
      SplitLast(a[i + 1..], b, c);
    }
  }

  /** Splitting a joined list of comma-free items gives the items back. */
  lemma {:induction false} SplitJoined(items: seq<string>)
    requires items != [] && forall x :: x in items ==> ',' !in x
    ensures SplitOn(Joined(items), ',') == items
  {
    var n := |items| - 1;
    if n == 0 {
      assert items[0] in items;
      FindNone(items[0], ',');
    } else {
      assert items[n] in items;
      SplitJoined(items[..n]);
      SplitLast(Joined(items[..n]), items[n], ',');
      assert items == items[..n] + [items[n]];
    }
  }

  lemma {:induction false} PodNamePlain(cluster: string, i: nat)
    requires Plain(cluster)
    ensures Plain(PodName(cluster, i)) && Plain(Addr(cluster, i))
    ensures PodName(cluster, i) != "" && Addr(cluster, i) != ""
  {
  }

  lemma {:induction false} PodNameInjective(cluster: string, i: nat, j: nat)
    ensures PodName(cluster, i) == PodName(cluster, j) ==> i == j
  {
    var a, b := PodName(cluster, i), PodName(cluster, j);
    assert a[|cluster| + 1..] == Dec(i) && b[|cluster| + 1..] == Dec(j);
    DecInjective(i, j);
  }

  lemma {:induction false} ItemParses(cluster: string, i: nat)
    requires Plain(cluster)
    ensures ',' !in Item(cluster, i)
    ensures forall peers :: AddPiece(peers, Item(cluster, i)) == peers[PodName(cluster, i) := Addr(cluster, i)]
  {
    PodNamePlain(cluster, i);
    var id, addr, item := PodName(cluster, i), Addr(cluster, i), Item(cluster, i);
    hide PodName, Addr, TrimSpace, Find;
    TrimPlain(item);
    TrimPlain(id);
    TrimPlain(addr);
    assert item == id + ['='] + addr;
    FindAfter(id, '=', addr);
    assert item[..|id|] == id && item[|id| + 1..] == addr;
    assert item[|id|] == '=';
  }

  lemma {:induction false} AddrParses(cluster: string, i: nat)
    requires Plain(cluster) && '.' !in cluster && ':' !in cluster
    ensures ',' !in Addr(cluster, i)
    ensures forall peers :: AddPiece(peers, Addr(cluster, i)) == peers[PodName(cluster, i) := Addr(cluster, i)]
  {
    PodNamePlain(cluster, i);
    var id, addr := PodName(cluster, i), Addr(cluster, i);
    var host := id + ['.'] + (cluster + "-raft");
    assert '.' !in id && ':' !in id;
    assert addr == host + [':'] + "9000";
    assert ':' !in host;
    hide PodName, Addr, TrimSpace, Find;
    TrimPlain(addr);
    TrimPlain(id);
    FindAfter(host, ':', "9000");
    assert addr[..|host|] == host;
    FindAfter(id, '.', cluster + "-raft");
    assert host[..|id|] == id;
  }

  lemma {:induction false} CollectItems(cluster: string, n: nat)
    requires Plain(cluster)
    ensures Collect(Items(cluster, n)) == Expected(cluster, n)
    ensures forall x :: x in Items(cluster, n) ==> ',' !in x
  {
    if n > 0 {
      CollectItems(cluster, n - 1);
      ItemParses(cluster, n - 1);
      assert Items(cluster, n)[..n - 1] == Items(cluster, n - 1);
    }
  }

  lemma {:induction false} CollectAddrs(cluster: string, n: nat)
    requires Plain(cluster) && '.' !in cluster && ':' !in cluster
    ensures Collect(Addrs(cluster, n)) == Expected(cluster, n)
    ensures forall x :: x in Addrs(cluster, n) ==> ',' !in x
  {
    if n > 0 {
      CollectAddrs(cluster, n - 1);
      AddrParses(cluster, n - 1);
      assert Addrs(cluster, n)[..n - 1] == Addrs(cluster, n - 1);
    }
  }

  /** The map has one entry per pod. */
  lemma {:induction false} ExpectedHasAll(cluster: string, n: nat)
    ensures |Expected(cluster, n)| == n
    ensures forall k :: k in Expected(cluster, n) <==> exists i :: 0 <= i < n && k == PodName(cluster, i)
    ensures forall i :: 0 <= i < n ==> Expected(cluster, n)[PodName(cluster, i)] == Addr(cluster, i)
  {
    if n > 0 {
      ExpectedHasAll(cluster, n - 1);
      forall i | 0 <= i < n - 1 ensures PodName(cluster, i) != PodName(cluster, n - 1) {
        PodNameInjective(cluster, i, n - 1);
      }
    }
  }

  /** A list whose items parse one by one parses as a whole. */
  lemma {:induction false} ParsedJoined(items: seq<string>)
    requires items != [] && items[|items| - 1] != "" && forall x :: x in items ==> ',' !in x
    ensures Parsed(Joined(items)) == Collect(items)
  {
    SplitJoined(items);
    hide SplitOn, Collect;
    assert Joined(items) != "";
  }

  /** Parsing the printed list gives exactly the n pods and their addresses. */
  lemma {:induction false} PeerListRoundTrip(cluster: string, n: nat)
    requires Plain(cluster)
    ensures Parsed(Joined(Items(cluster, n))) == Expected(cluster, n)
  {
    CollectItems(cluster, n);
    if n > 0 {
      hide Parsed, Joined, Collect, Expected;
      ParsedJoined(Items(cluster, n));
    }
  }

  /** The address-only list gives the same map, for a name without dot or colon. */
  lemma {:induction false} AddressListRoundTrip(cluster: string, n: nat)
    requires Plain(cluster) && '.' !in cluster && ':' !in cluster
    ensures Parsed(Joined(Addrs(cluster, n))) == Expected(cluster, n)
  {
    CollectAddrs(cluster, n);
    if n > 0 {
      hide Parsed, Joined, Collect, Expected;
      ParsedJoined(Addrs(cluster, n));
    }
  }
}
