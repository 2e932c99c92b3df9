/** What a node says about itself is what the others are told: from a handler's request, through the
    store, to the maps built for every node that sees it. */
module Announced {
  import opened Bytes
  import opened StoreModel
  import opened Store
  import opened Netmap
  import C = Coordinator
  import Allocation
  import Handlers

  /** The map has entries of that machine, and each of them is this. */
  ghost predicate Shows(m: FullMap, n: Node, domain: string) {
    && Told(m, n, domain)
    && forall i :: 0 <= i < |m.peers| && m.peers[i].machine == n.machineKey ==> Tells(m.peers[i], n, domain, n.online)
  }

  /** Any node that sees n is shown it as it stands in the list. */
  lemma SeenIsShown(nodes: seq<Node>, self: Node, n: Node, domain: string)
    requires Allocation.DistinctNodes(nodes) && self in nodes && n in nodes && self != n && Visible(self, n)
    ensures Shows(MapFor(self, nodes, domain), n, domain)
  {
    var m := MapFor(self, nodes, domain);
    MapForTells(self, nodes, domain);
    forall i | 0 <= i < |m.peers| && m.peers[i].machine == n.machineKey
      ensures Tells(m.peers[i], n, domain, n.online)
    {
      assert FromOther(self, nodes, domain, m.peers[i]);
      var other :| other in nodes && Visible(self, other) && other.id != self.id
                   && Tells(m.peers[i], other, domain, other.online);
      assert other == n;
    }
  }

  /** A machine that registers is shown with the key that it sent, and with its name if it sent one. */
  lemma RegisterIsShown(cfg: C.Config, x: Handlers.Shared, machine: string, req: C.RegisterRequest, now: int,
                        self: Node)
    requires C.Runnable(cfg) && Handlers.Registers(cfg, x, machine, req, now).1.Accepted?
    requires var (x', r) := Handlers.Registers(cfg, x, machine, req, now);
             && Allocation.DistinctNodes(x'.mem.nodes) && self in x'.mem.nodes && self.machineKey != machine
             && Visible(self, r.node)
    ensures var (x', r) := Handlers.Registers(cfg, x, machine, req, now);
            && Shows(MapFor(self, x'.mem.nodes, cfg.domain), r.node, cfg.domain)
            && r.node.machineKey == machine && r.node.nodeKey == req.nodeKey
            && (req.host != "" ==> r.node.hostname == req.host)
  {
    var (x', r) := Handlers.Registers(cfg, x, machine, req, now);
    Handlers.RegisterDecides(cfg, x, machine, req, now);
    AcceptedNode(cfg, x, machine, req, now);
    SeenIsShown(x'.mem.nodes, self, r.node, cfg.domain);
  }

  lemma AcceptedNode(cfg: C.Config, x: Handlers.Shared, machine: string, req: C.RegisterRequest, now: int)
    requires C.Runnable(cfg) && Handlers.Registers(cfg, x, machine, req, now).1.Accepted?
    ensures var n := Handlers.Registers(cfg, x, machine, req, now).1.node;
            n.machineKey == machine && n.nodeKey == req.nodeKey && (req.host != "" ==> n.hostname == req.host)
  {
  }

  /** A map request that is not read-only is shown too: online, with the endpoints sent, and with the
      key, disco key and host name where they were sent. */
  lemma UpdateIsShown(cfg: C.Config, x: Handlers.Shared, machine: string, req: C.MapRequest, self: Node)
    requires !Handlers.ReadOnly(req) && Registered(x.mem.nodes, machine)
    requires var nodes := Handlers.Maps(cfg, x, machine, req).0.mem.nodes;
             && Allocation.DistinctNodes(nodes) && self in nodes && self.machineKey != machine
             && Visible(self, x.mem.nodes[FindNode(x.mem.nodes, machine)])
    ensures var nodes, u := Handlers.Maps(cfg, x, machine, req).0.mem.nodes, req.info;
            exists n :: n in nodes && n.machineKey == machine && Shows(MapFor(self, nodes, cfg.domain), n, cfg.domain)
                     && n.online && n.endpoints == u.endpoints && (u.nodeKey != "" ==> n.nodeKey == u.nodeKey)
                     && (u.discoKey != "" ==> n.discoKey == u.discoKey)
                     && (u.hostname != "" ==> n.hostname == u.hostname)
  {
    var nodes, i := Handlers.Maps(cfg, x, machine, req).0.mem.nodes, FindNode(x.mem.nodes, machine);
    UpdatedNode(x.mem.nodes, machine, req.info);
    assert nodes[i].machineKey == machine;
    SeenIsShown(nodes, self, nodes[i], cfg.domain);
  }

  lemma UpdatedNode(nodes: seq<Node>, machine: string, u: MapInfo)
    requires Registered(nodes, machine)
    ensures var nodes', i := SetOnline(UpdateMapInfo(nodes, machine, u), machine, true), FindNode(nodes, machine);
            && |nodes'| == |nodes| && nodes'[i].machineKey == machine && nodes'[i].online
            && nodes'[i].id == nodes[i].id && nodes'[i].token == nodes[i].token && nodes'[i].shared == nodes[i].shared
            && nodes'[i].endpoints == u.endpoints
            && nodes'[i].nodeKey == (if u.nodeKey != "" then u.nodeKey else nodes[i].nodeKey)
            && nodes'[i].discoKey == (if u.discoKey != "" then u.discoKey else nodes[i].discoKey)
            && nodes'[i].hostname == (if u.hostname != "" then u.hostname else nodes[i].hostname)
  {
    FindNodeIs(UpdateMapInfo(nodes, machine, u), machine, FindNode(nodes, machine));
  }

  // ---------------------------------------------------------------- over runs

  /** At every point of every run at which a connection is at rest: once its register request has been
      carried out and accepted, the map of every node that sees the machine shows what it sent. */
  lemma RegisterIsShownInRun(cfg: C.Config, evs: seq<C.Event>, c: nat, req: C.RegisterRequest, now: int, self: Node)
    requires C.Runnable(cfg) && C.AtRest(C.Run(cfg, evs), c)
    requires var st, st' := C.Run(cfg, evs), C.Run(cfg, evs + [C.AskRegister(c, req)] + C.Advances(c, now, 5));
             var r := Handlers.Registers(cfg, Handlers.SharedOf(st), st.conns[c].machine, req, now).1;
             && r.Accepted? && st'.attempts < TWO_31
             && self in st'.mem.nodes && self.machineKey != st.conns[c].machine && Visible(self, r.node)
    ensures var st, st' := C.Run(cfg, evs), C.Run(cfg, evs + [C.AskRegister(c, req)] + C.Advances(c, now, 5));
            var r := Handlers.Registers(cfg, Handlers.SharedOf(st), st.conns[c].machine, req, now).1;
            && Shows(MapFor(self, st'.mem.nodes, cfg.domain), r.node, cfg.domain) && r.node.nodeKey == req.nodeKey
            && r.node.machineKey == st.conns[c].machine
  {
    var st, all := C.Run(cfg, evs), evs + [C.AskRegister(c, req)] + C.Advances(c, now, 5);
    C.RunAlone(cfg, evs, c, C.AskRegister(c, req), 5, now);
    Handlers.RegisterAlone(cfg, st, c, req, now);
    Allocation.AllocationInvariant(cfg, all);
    RegisterIsShown(cfg, Handlers.SharedOf(st), st.conns[c].machine, req, now, self);
  }

  /** And so for a map request that is not read-only. */
  lemma UpdateIsShownInRun(cfg: C.Config, evs: seq<C.Event>, c: nat, req: C.MapRequest, now: int, self: Node)
    requires C.Runnable(cfg) && C.AtRest(C.Run(cfg, evs), c) && !Handlers.ReadOnly(req)
    requires var st, st' := C.Run(cfg, evs), C.Run(cfg, evs + [C.AskMap(c, req)] + C.Advances(c, now, 5));
             var machine := st.conns[c].machine;
             && st'.attempts < TWO_31 && Registered(st.mem.nodes, machine)
             && self in st'.mem.nodes && self.machineKey != machine
             && Visible(self, st.mem.nodes[FindNode(st.mem.nodes, machine)])
    ensures var machine, u := C.Run(cfg, evs).conns[c].machine, req.info;
            var nodes := C.Run(cfg, evs + [C.AskMap(c, req)] + C.Advances(c, now, 5)).mem.nodes;
            exists n :: n in nodes && n.machineKey == machine && Shows(MapFor(self, nodes, cfg.domain), n, cfg.domain)
                     && n.online && n.endpoints == u.endpoints && (u.nodeKey != "" ==> n.nodeKey == u.nodeKey)
                     && (u.discoKey != "" ==> n.discoKey == u.discoKey)
                     && (u.hostname != "" ==> n.hostname == u.hostname)
  {
    var st, all := C.Run(cfg, evs), evs + [C.AskMap(c, req)] + C.Advances(c, now, 5);
    C.RunAlone(cfg, evs, c, C.AskMap(c, req), 5, now);
    Handlers.MapAlone(cfg, st, c, req, now);
    Allocation.AllocationInvariant(cfg, all);
    UpdateIsShown(cfg, Handlers.SharedOf(st), st.conns[c].machine, req, self);
  }
}
