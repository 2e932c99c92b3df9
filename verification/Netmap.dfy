/** src/netmap.cpp: who sees whom, and the map that a node is sent. */
module Netmap {
  import opened Bytes
  import opened StoreModel

  predicate Visible(self: Node, peer: Node) {
    self.id == peer.id || self.shared || peer.shared || self.token == peer.token
  }

  /** The tailcfg form of a node; constant members and the creation time are left out. */
  datatype TailNode = TailNode(id: nat, stableId: string, name: string, key: string, machine: string,
                               disco: Option<string>, addresses: seq<string>, endpoints: seq<string>, online: bool,
                               hostname: string)

  datatype RecordKind = A | AAAA

  datatype DnsRecord = DnsRecord(name: string, kind: RecordKind, value: string)

  /** `srcIps` and `dstIps` are the two halves of the one packet filter rule. */
  datatype FullMap = FullMap(node: TailNode, peers: seq<TailNode>, records: seq<DnsRecord>, srcIps: seq<string>,
                             dstIps: seq<string>)

  function HostLabel(n: Node): (h: string)
    ensures h != ""
  {
    if n.hostname == "" then "node-" + n.stableId else n.hostname
  }

  function ToTailcfg(n: Node, domain: string, self: bool): TailNode {
    var host := HostLabel(n);
    var name := if host[|host| - 1] != '.' then host + "." + domain + "." else host;
    TailNode(n.id, n.stableId, name, n.nodeKey, n.machineKey, if n.discoKey != "" then Some(n.discoKey) else None,
             [n.ipv4 + "/32", n.ipv6 + "/128"], n.endpoints, n.online || self, n.hostname)
  }

  function Cidrs(n: Node): seq<string> {
    (if n.ipv4 != "" then [n.ipv4 + "/32"] else []) + (if n.ipv6 != "" then [n.ipv6 + "/128"] else [])
  }

  function RecordsOf(n: Node, domain: string): seq<DnsRecord> {
    [DnsRecord(HostLabel(n) + "." + domain, A, n.ipv4), DnsRecord(HostLabel(n) + "." + domain, AAAA, n.ipv6)]
  }

  // ---------------------------------------------------------------- the specification

  function VisibleNodes(self: Node, all: seq<Node>): seq<Node> {
    if all == [] then [] else
      VisibleNodes(self, all[..|all| - 1]) + if Visible(self, all[|all| - 1]) then [all[|all| - 1]] else []
  }

  function Others(self: Node, ns: seq<Node>): seq<Node> {
    if ns == [] then [] else
      Others(self, ns[..|ns| - 1]) + if ns[|ns| - 1].id != self.id then [ns[|ns| - 1]] else []
  }

  function Tailcfgs(ns: seq<Node>, domain: string): seq<TailNode> {
    seq(|ns|, i requires 0 <= i < |ns| => ToTailcfg(ns[i], domain, false))
  }

  function AllRecords(ns: seq<Node>, domain: string): seq<DnsRecord> {
    if ns == [] then [] else AllRecords(ns[..|ns| - 1], domain) + RecordsOf(ns[|ns| - 1], domain)
  }

  function AllCidrs(ns: seq<Node>): seq<string> {
    if ns == [] then [] else AllCidrs(ns[..|ns| - 1]) + Cidrs(ns[|ns| - 1])
  }

  function OrAny(ips: seq<string>): seq<string> {
    if ips == [] then ["*"] else ips
  }

  function MapFor(self: Node, all: seq<Node>, domain: string): FullMap {
    var seen := VisibleNodes(self, all);
    FullMap(ToTailcfg(self, domain, true), Tailcfgs(Others(self, seen), domain), AllRecords(seen, domain),
            OrAny(AllCidrs(seen)), OrAny(AllCidrs(seen)))
  }

  // ---------------------------------------------------------------- what an entry says

  /** The entry says of this node: its id, stable id, name, keys, machine, addresses, endpoints, host
      name, and whether it is online. */
  predicate Tells(p: TailNode, n: Node, domain: string, online: bool) {
    var host := if n.hostname == "" then "node-" + n.stableId else n.hostname;
    && p.id == n.id && p.stableId == n.stableId && p.machine == n.machineKey && p.key == n.nodeKey
    && (if n.discoKey == "" then p.disco.None? else p.disco == Some(n.discoKey))
    && p.name == (if host[|host| - 1] == '.' then host else host + "." + domain + ".")
    && p.addresses == [n.ipv4 + "/32", n.ipv6 + "/128"] && p.endpoints == n.endpoints
    && p.online == online && p.hostname == n.hostname
  }

  /** The node has an entry among the peers. */
  ghost predicate Told(m: FullMap, n: Node, domain: string) {
    exists i :: 0 <= i < |m.peers| && Tells(m.peers[i], n, domain, n.online)
  }

  /** The entry is that of another visible node. */
  ghost predicate FromOther(self: Node, all: seq<Node>, domain: string, p: TailNode) {
    exists n :: n in all && Visible(self, n) && n.id != self.id && Tells(p, n, domain, n.online)
  }

  /** The map's own node is told as it is, and as online; the peers are what other visible nodes are. */
  ghost predicate MapTells(m: FullMap, self: Node, all: seq<Node>, domain: string) {
    && Tells(m.node, self, domain, true)
    && (forall n :: n in all && Visible(self, n) && n.id != self.id ==> Told(m, n, domain))
    && (forall i :: 0 <= i < |m.peers| ==> FromOther(self, all, domain, m.peers[i]))
    && (forall n :: n in all && Visible(self, n) ==> Named(m, n, domain))
  }

  /** The node's qualified name has a record for each of its addresses. */
  predicate Named(m: FullMap, n: Node, domain: string) {
    var name := (if n.hostname == "" then "node-" + n.stableId else n.hostname) + "." + domain;
    DnsRecord(name, A, n.ipv4) in m.records && DnsRecord(name, AAAA, n.ipv6) in m.records
  }

  lemma TailcfgTells(n: Node, domain: string, self: bool)
    ensures Tells(ToTailcfg(n, domain, self), n, domain, n.online || self)
  {
  }

  lemma RecordsNamed(ns: seq<Node>, n: Node, domain: string)
    requires n in ns
    ensures DnsRecord(HostLabel(n) + "." + domain, A, n.ipv4) in AllRecords(ns, domain)
    ensures DnsRecord(HostLabel(n) + "." + domain, AAAA, n.ipv6) in AllRecords(ns, domain)
  {
    RecordsExact(ns, domain, DnsRecord(HostLabel(n) + "." + domain, A, n.ipv4));
    RecordsExact(ns, domain, DnsRecord(HostLabel(n) + "." + domain, AAAA, n.ipv6));
    assert DnsRecord(HostLabel(n) + "." + domain, A, n.ipv4) in RecordsOf(n, domain);
    assert DnsRecord(HostLabel(n) + "." + domain, AAAA, n.ipv6) in RecordsOf(n, domain);
  }

  lemma MapForTells(self: Node, all: seq<Node>, domain: string)
    ensures MapTells(MapFor(self, all, domain), self, all, domain)
  {
    var m, others := MapFor(self, all, domain), Others(self, VisibleNodes(self, all));
    TailcfgTells(self, domain, true);
    forall n | n in all && Visible(self, n) && n.id != self.id
      ensures Told(m, n, domain)
    {
      VisibleNodesExact(self, all, n);
      OthersExact(self, VisibleNodes(self, all), n);
      var i :| 0 <= i < |others| && others[i] == n;
      TailcfgTells(n, domain, false);
      assert m.peers[i] == ToTailcfg(n, domain, false);
    }
    forall n | n in all && Visible(self, n)
      ensures Named(m, n, domain)
    {
      VisibleNodesExact(self, all, n);
      RecordsNamed(VisibleNodes(self, all), n, domain);
    }
    forall i | 0 <= i < |m.peers|
      ensures FromOther(self, all, domain, m.peers[i])
    {
      VisibleNodesExact(self, all, others[i]);
      OthersExact(self, VisibleNodes(self, all), others[i]);
      TailcfgTells(others[i], domain, false);
    }
  }

  /** build_full_map */
  method BuildFullMap(self: Node, all: seq<Node>, domain: string) returns (m: FullMap)
    ensures m == MapFor(self, all, domain) && MapTells(m, self, all, domain)
  {
    m := OnePass(self, all, domain);
    MapForTells(self, all, domain);
  }

  /** One pass over the nodes filling four lists. */
  method OnePass(self: Node, all: seq<Node>, domain: string) returns (m: FullMap)
    ensures m == MapFor(self, all, domain)
  {
    var peers: seq<TailNode>, extra: seq<DnsRecord> := [], [];
    var srcIps: seq<string>, dstPorts: seq<string> := [], [];
    for i := 0 to |all|
      invariant var seen := VisibleNodes(self, all[..i]);
                && peers == Tailcfgs(Others(self, seen), domain)
                && extra == AllRecords(seen, domain)
                && srcIps == dstPorts == AllCidrs(seen)
    {
      var n := all[i];
      ghost var seen := VisibleNodes(self, all[..i]);
      assert all[..i + 1][..i] == all[..i];
      if !Visible(self, n) {
        assert VisibleNodes(self, all[..i + 1]) == seen;
        continue;
      }
      assert VisibleNodes(self, all[..i + 1]) == seen + [n];
      OneMore(self, seen, n, domain);
      if !(n.ipv4 == "" && n.ipv6 == "") {
        if n.ipv4 != "" {
          srcIps := srcIps + [n.ipv4 + "/32"];
          dstPorts := dstPorts + [n.ipv4 + "/32"];
        }
        if n.ipv6 != "" {
          srcIps := srcIps + [n.ipv6 + "/128"];
          dstPorts := dstPorts + [n.ipv6 + "/128"];
        }
      }
      assert srcIps == AllCidrs(seen) + Cidrs(n);
      var name := HostLabel(n) + "." + domain;
      extra := extra + [DnsRecord(name, A, n.ipv4)];
      extra := extra + [DnsRecord(name, AAAA, n.ipv6)];
      if n.id == self.id {
        continue;
      }
      peers := peers + [ToTailcfg(n, domain, false)];
    }
    assert all[..|all|] == all;
    m := FullMap(ToTailcfg(self, domain, true), peers, extra, if srcIps == [] then ["*"] else srcIps,
                 if dstPorts == [] then ["*"] else dstPorts);
  }

  lemma OneMore(self: Node, seen: seq<Node>, n: Node, domain: string)
    ensures AllCidrs(seen + [n]) == AllCidrs(seen) + Cidrs(n)
    ensures AllRecords(seen + [n], domain) == AllRecords(seen, domain) + RecordsOf(n, domain)
    ensures Tailcfgs(Others(self, seen + [n]), domain)
            == Tailcfgs(Others(self, seen), domain) + if n.id != self.id then [ToTailcfg(n, domain, false)] else []
  {
    assert (seen + [n])[..|seen|] == seen;
  }

  // ---------------------------------------------------------------- exactness

  lemma {:induction false} VisibleNodesExact(self: Node, all: seq<Node>, n: Node)
    ensures n in VisibleNodes(self, all) <==> n in all && Visible(self, n)
  {
    if all != [] {
      VisibleNodesExact(self, all[..|all| - 1], n);
    }
  }

  lemma {:induction false} OthersExact(self: Node, ns: seq<Node>, n: Node)
    ensures n in Others(self, ns) <==> n in ns && n.id != self.id
  {
    if ns != [] {
      OthersExact(self, ns[..|ns| - 1], n);
    }
  }

  /** The peers keep the order of the node list: `at` are their strictly increasing positions. */
  lemma {:induction false} PeersInOrder(self: Node, all: seq<Node>) returns (at: seq<nat>)
    ensures var others := Others(self, VisibleNodes(self, all));
            && |at| == |others|
            && (forall k :: 0 <= k < |at| ==> at[k] < |all| && all[at[k]] == others[k])
            && (forall k, l :: 0 <= k < l < |at| ==> at[k] < at[l])
  {
    if all == [] {
      at := [];
    } else {
      var before, n := all[..|all| - 1], all[|all| - 1];
      at := PeersInOrder(self, before);
      var seen := VisibleNodes(self, before);
      if Visible(self, n) {
        OneMoreOther(self, seen, n);
        if n.id != self.id {
          at := at + [|all| - 1];
        }
      } else {
        assert VisibleNodes(self, all) == seen;
      }
    }
  }

  lemma OneMoreOther(self: Node, ns: seq<Node>, n: Node)
    ensures Others(self, ns + [n]) == Others(self, ns) + if n.id != self.id then [n] else []
  {
    assert (ns + [n])[..|ns|] == ns;
  }

  predicate UniqueIds(all: seq<Node>) {
    forall i, j :: 0 <= i < j < |all| ==> all[i].id != all[j].id
  }

  ghost predicate IsPeer(self: Node, n: Node, all: seq<Node>, domain: string) {
    exists i :: 0 <= i < |MapFor(self, all, domain).peers| && MapFor(self, all, domain).peers[i].id == n.id
  }

  lemma PeerIds(self: Node, all: seq<Node>, domain: string)
    ensures var others, peers := Others(self, VisibleNodes(self, all)), MapFor(self, all, domain).peers;
            |peers| == |others| && forall i :: 0 <= i < |others| ==> peers[i].id == others[i].id
  {
  }

  lemma PeersAreOthers(self: Node, n: Node, all: seq<Node>, domain: string)
    requires UniqueIds(all) && n in all
    ensures IsPeer(self, n, all, domain) <==> n in Others(self, VisibleNodes(self, all))
  {
    PeerIds(self, all, domain);
    var others := Others(self, VisibleNodes(self, all));
    if i :| 0 <= i < |others| && others[i].id == n.id {
      OthersExact(self, VisibleNodes(self, all), others[i]);
      VisibleNodesExact(self, all, others[i]);
    }
    if n in others {
      var i :| 0 <= i < |others| && others[i] == n;
      assert MapFor(self, all, domain).peers[i].id == n.id;
    }
  }

  /** With unique ids, the peers are exactly the other nodes of the group and the shared ones; a
      shared node sees everyone. */
  lemma PeersExact(self: Node, n: Node, all: seq<Node>, domain: string)
    requires UniqueIds(all) && n in all
    ensures IsPeer(self, n, all, domain) <==>
            n.id != self.id && (self.shared || n.shared || self.token == n.token)
  {
    PeersAreOthers(self, n, all, domain);
    VisibleNodesExact(self, all, n);
    OthersExact(self, VisibleNodes(self, all), n);
  }

  /** Seeing is mutual. */
  lemma PeersSymmetric(a: Node, b: Node, all: seq<Node>, domain: string)
    requires UniqueIds(all) && a in all && b in all
    ensures IsPeer(a, b, all, domain) <==> IsPeer(b, a, all, domain)
  {
    PeersExact(a, b, all, domain);
    PeersExact(b, a, all, domain);
  }

  lemma {:induction false} RecordsExact(ns: seq<Node>, domain: string, r: DnsRecord)
    ensures r in AllRecords(ns, domain) <==> exists n :: n in ns && r in RecordsOf(n, domain)
  {
    if ns != [] {
      var before, last := ns[..|ns| - 1], ns[|ns| - 1];
      RecordsExact(before, domain, r);
      assert forall n :: n in ns <==> n in before || n == last;
    }
  }

  lemma {:induction false} CidrsExact(ns: seq<Node>, c: string)
    ensures c in AllCidrs(ns) <==> exists n :: n in ns && c in Cidrs(n)
  {
    if ns != [] {
      var before, last := ns[..|ns| - 1], ns[|ns| - 1];
      CidrsExact(before, c);
      assert forall n :: n in ns <==> n in before || n == last;
    }
  }

  /** The filter admits exactly the addresses of visible nodes, the same on both sides, and falls
      back to "*" if and only if no visible node has an address. */
  lemma FilterExact(self: Node, all: seq<Node>, domain: string, c: string)
    ensures var m := MapFor(self, all, domain);
            && m.srcIps == m.dstIps
            && (c != "*" ==> (c in m.srcIps <==> exists n :: n in all && Visible(self, n) && c in Cidrs(n)))
            && ("*" in m.srcIps <==> forall n :: n in all && Visible(self, n) ==> n.ipv4 == "" && n.ipv6 == "")
  {
    var seen := VisibleNodes(self, all);
    forall n
      ensures n in seen <==> n in all && Visible(self, n)
    {
      VisibleNodesExact(self, all, n);
    }
    CidrsExact(seen, c);
    CidrsExact(seen, "*");
    CidrsEmpty(seen);
    assert forall n: Node :: "*" !in Cidrs(n);
  }

  lemma {:induction false} CidrsEmpty(ns: seq<Node>)
    ensures AllCidrs(ns) == [] <==> forall n :: n in ns ==> n.ipv4 == "" && n.ipv6 == ""
  {
    if ns != [] {
      var before, last := ns[..|ns| - 1], ns[|ns| - 1];
      CidrsEmpty(before);
      assert forall n :: n in ns <==> n in before || n == last;
    }
  }

  /** The filter admits every address that a peer is announced with. */
  lemma PeersAdmitted(self: Node, all: seq<Node>, domain: string, p: TailNode, a: string)
    requires forall n :: n in all ==> n.ipv4 != "" && n.ipv6 != ""
    requires p in MapFor(self, all, domain).peers && a in p.addresses
    ensures a in MapFor(self, all, domain).srcIps && a in MapFor(self, all, domain).dstIps
  {
    MapMentionsOnlyVisible(self, all, domain);
    var n :| n in all && Visible(self, n) && p == ToTailcfg(n, domain, false);
    assert a in Cidrs(n);
    FilterExact(self, all, domain, a);
    assert a[|a| - 1] != '*';
  }

  /** A node that has its own addresses never gets the fallback. */
  lemma NoFallback(self: Node, all: seq<Node>, domain: string)
    requires self in all && self.ipv4 != ""
    ensures "*" !in MapFor(self, all, domain).srcIps && "*" !in MapFor(self, all, domain).dstIps
  {
    FilterExact(self, all, domain, "*");
    assert Visible(self, self);
  }

  ghost predicate ShowsPeer(self: Node, all: seq<Node>, domain: string, p: TailNode) {
    exists n :: n in all && Visible(self, n) && p == ToTailcfg(n, domain, false)
  }

  ghost predicate ShowsRecord(self: Node, all: seq<Node>, domain: string, r: DnsRecord) {
    exists n :: n in all && Visible(self, n) && r in RecordsOf(n, domain)
  }

  ghost predicate ShowsCidr(self: Node, all: seq<Node>, c: string) {
    exists n :: n in all && Visible(self, n) && c in Cidrs(n)
  }

  /** Nothing appears in a map except through a visible node of the list. */
  lemma MapMentionsOnlyVisible(self: Node, all: seq<Node>, domain: string)
    ensures forall p :: p in MapFor(self, all, domain).peers ==> ShowsPeer(self, all, domain, p)
    ensures forall r :: r in MapFor(self, all, domain).records ==> ShowsRecord(self, all, domain, r)
    ensures forall c :: c in MapFor(self, all, domain).srcIps && c != "*" ==> ShowsCidr(self, all, c)
  {
    var m, seen := MapFor(self, all, domain), VisibleNodes(self, all);
    var others := Others(self, seen);
    forall p | p in m.peers
      ensures ShowsPeer(self, all, domain, p)
    {
      var i :| 0 <= i < |m.peers| && m.peers[i] == p;
      OthersExact(self, seen, others[i]);
      VisibleNodesExact(self, all, others[i]);
      assert p == ToTailcfg(others[i], domain, false);
    }
    forall r | r in m.records
      ensures ShowsRecord(self, all, domain, r)
    {
      RecordsExact(seen, domain, r);
      var n :| n in seen && r in RecordsOf(n, domain);
      VisibleNodesExact(self, all, n);
    }
    forall c | c in m.srcIps && c != "*"
      ensures ShowsCidr(self, all, c)
    {
      FilterExact(self, all, domain, c);
    }
  }
}
