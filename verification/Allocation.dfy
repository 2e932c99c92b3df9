/** Node identities over whole runs: machine keys, ids and addresses are never shared and never
    change, through every interleaving and every restart. */
module Allocation {
  import opened Bytes
  import opened IpAlloc
  import opened StoreModel
  import opened Store
  import opened Coordinator

  /** What a node keeps for life. */
  predicate SameIdentity(a: Node, b: Node) {
    && a.id == b.id && a.stableId == b.stableId && a.machineKey == b.machineKey
    && a.ipv4 == b.ipv4 && a.ipv6 == b.ipv6 && a.token == b.token && a.shared == b.shared
  }

  predicate SameIdentities(xs: seq<Node>, ys: seq<Node>) {
    |xs| == |ys| && forall i :: 0 <= i < |xs| ==> SameIdentity(xs[i], ys[i])
  }

  predicate KeepsIdentities(xs: seq<Node>, ys: seq<Node>) {
    |xs| <= |ys| && forall i :: 0 <= i < |xs| ==> SameIdentity(xs[i], ys[i])
  }

  // ---------------------------------------------------------------- the three kinds of step

  /** No machine joins: counters stay, and every node keeps its identity in its place. */
  ghost predicate Quiet(cfg: Config, st: Sys, st': Sys) {
    && st'.mem.nextId == st.mem.nextId && st'.mem.nextIp == st.mem.nextIp && st'.attempts == st.attempts
    && SameIdentities(st.mem.nodes, st'.mem.nodes)
    && DiskFollows(cfg, st, st')
  }

  /** A machine that was not registered is given an id, and an address unless the pool is empty. */
  ghost predicate NewMachine(cfg: Config, st: Sys, st': Sys, reg: Registration)
    requires Runnable(cfg)
  {
    var (m, node) := Register(cfg.pool, st.mem, reg);
    && !Registered(st.mem.nodes, reg.machine)
    && st'.mem == m && st'.attempts == st.attempts + 1
    && st'.disk == if node.Some? && cfg.hasPath then Some(m) else st.disk
  }

  ghost predicate SomeNewMachine(cfg: Config, st: Sys, st': Sys)
    requires Runnable(cfg)
  {
    exists reg :: NewMachine(cfg, st, st', reg)
  }

  lemma EditKeeps(nodes: seq<Node>, i: nat, n: Node)
    requires i < |nodes| && SameIdentity(nodes[i], n)
    ensures SameIdentities(nodes, nodes[i := n])
  {
  }

  lemma OnlineKeeps(nodes: seq<Node>, machine: string, online: bool)
    ensures SameIdentities(nodes, SetOnline(nodes, machine, online))
  {
    var i := FindNode(nodes, machine);
    if i < |nodes| {
      EditKeeps(nodes, i, nodes[i].(online := online));
    }
  }

  lemma InfoKeeps(nodes: seq<Node>, machine: string, u: MapInfo)
    ensures SameIdentities(nodes, UpdateMapInfo(nodes, machine, u))
  {
    var i := FindNode(nodes, machine);
    if i < |nodes| {
      EditKeeps(nodes, i, Informed(nodes[i], u));
    }
  }

  lemma RegisterShape(cfg: Config, st: Sys, c: nat, reg: Registration)
    requires Runnable(cfg) && c in st.conns
    ensures var st' := DoRegister(cfg, st, c, reg);
            if Registered(st.mem.nodes, reg.machine) then Quiet(cfg, st, st') else NewMachine(cfg, st, st', reg)
  {
    var i := FindNode(st.mem.nodes, reg.machine);
    if i < |st.mem.nodes| {
      EditKeeps(st.mem.nodes, i, Refreshed(st.mem.nodes[i], reg));
    }
  }

  lemma AdvanceShape(cfg: Config, st: Sys, c: nat, now: int)
    requires Runnable(cfg) && c in st.conns
    ensures var st' := StepAdvance(cfg, st, c, now);
            Quiet(cfg, st, st') || SomeNewMachine(cfg, st, st')
  {
    match st.conns[c].phase {
      case RegStore(reg) => RegisterShape(cfg, st, c, reg);
      case MapOnline(req) => OnlineKeeps(st.mem.nodes, st.conns[c].machine, true);
      case _ =>
        assert StepAdvance(cfg, st, c, now).mem.nodes == st.mem.nodes;
    }
  }

  /** Every step but a restart is quiet or brings in one machine. */
  lemma StepShape(cfg: Config, st: Sys, ev: Event)
    requires Runnable(cfg) && !ev.Restart?
    ensures var st' := Step(cfg, st, ev);
            Quiet(cfg, st, st') || SomeNewMachine(cfg, st, st')
  {
    match ev {
      case Advance(c, now) =>
        if c in st.conns {
          AdvanceShape(cfg, st, c, now);
        }
      case AskMap(c, req) =>
        if AtRest(st, c) {
          InfoKeeps(st.mem.nodes, st.conns[c].machine, req.info);
        }
      case Hangup(c) =>
        if AtRest(st, c) {
          OnlineKeeps(st.mem.nodes, st.conns[c].machine, false);
        }
      case _ =>
    }
  }

  // ---------------------------------------------------------------- the invariant

  ghost predicate DistinctNodes(nodes: seq<Node>) {
    forall i, j :: 0 <= i < j < |nodes| ==> nodes[i].machineKey != nodes[j].machineKey && nodes[i].id != nodes[j].id
  }

  /** Ids are positive and not beyond `limit`, and a node's stable id and addresses are those of its
      id. */
  ghost predicate Addressed(p: Pool, nodes: seq<Node>, limit: nat)
    requires |p.alloc.base6| == 16
  {
    forall i :: 0 <= i < |nodes| ==>
      && 1 <= nodes[i].id <= limit && nodes[i].stableId == Decimal(nodes[i].id)
      && Address(p.alloc, p.text, nodes[i].id) == Some((nodes[i].ipv4, nodes[i].ipv6))
  }

  /** The two counters agree and are ahead of every id. */
  ghost predicate Ahead(m: Mem, attempts: nat) {
    && m.nextId == m.nextIp && 1 <= m.nextId <= attempts + 1
    && forall i :: 0 <= i < |m.nodes| ==> m.nodes[i].id < m.nextId
  }

  /** What holds while fewer than 2^31 machines have tried to join. The last of them leaves the
      counter at 2^31, which a restart no longer reads back; nothing is said about it then. */
  ghost predicate AllocInv(cfg: Config, st: Sys)
    requires Runnable(cfg)
  {
    st.attempts < TWO_31 ==>
      && DistinctNodes(st.mem.nodes)
      && Addressed(cfg.pool, st.mem.nodes, st.attempts)
      && (st.attempts < TWO_31 - 1 ==> Ahead(st.mem, st.attempts))
      && (cfg.hasPath ==>
        && st.disk.Some?
        && SameIdentities(st.mem.nodes, st.disk.value.nodes)
        && (st.attempts < TWO_31 - 1 ==> Ahead(st.disk.value, st.attempts)))
  }

  lemma QuietKeeps(cfg: Config, st: Sys, st': Sys)
    requires Runnable(cfg) && AllocInv(cfg, st) && Quiet(cfg, st, st')
    ensures AllocInv(cfg, st')
  {
  }

  lemma AppendNode(p: Pool, m: Mem, attempts: nat, n: Node)
    requires |p.alloc.base6| == 16
    requires DistinctNodes(m.nodes) && Addressed(p, m.nodes, attempts) && Ahead(m, attempts)
    requires !Registered(m.nodes, n.machineKey) && n.id == m.nextId && n.stableId == Decimal(n.id)
    requires Address(p.alloc, p.text, n.id) == Some((n.ipv4, n.ipv6))
    ensures DistinctNodes(m.nodes + [n]) && Addressed(p, m.nodes + [n], attempts + 1)
    ensures forall i :: 0 <= i < |m.nodes + [n]| ==> (m.nodes + [n])[i].id < m.nextId + 1
  {
  }

  /** What register_node does for a machine it does not know. */
  lemma RegisterNew(p: Pool, m: Mem, reg: Registration)
    requires |p.alloc.base6| == 16 && !Registered(m.nodes, reg.machine)
    ensures var (m', node) := Register(p, m, reg);
            && m'.nextId == Inc64(m.nextId) && m'.nextIp == Inc32(m.nextIp)
            && (node.None? ==> m'.nodes == m.nodes)
            && (node.Some? ==>
              && m'.nodes == m.nodes + [node.value] && node.value.id == m.nextId
              && node.value.machineKey == reg.machine && node.value.stableId == Decimal(node.value.id)
              && Address(p.alloc, p.text, m.nextIp) == Some((node.value.ipv4, node.value.ipv6)))
  {
  }

  lemma JoinKeeps(p: Pool, m: Mem, reg: Registration, attempts: nat)
    requires |p.alloc.base6| == 16 && !Registered(m.nodes, reg.machine) && attempts < TWO_31 - 1
    requires DistinctNodes(m.nodes) && Addressed(p, m.nodes, attempts) && Ahead(m, attempts)
    ensures var m' := Register(p, m, reg).0;
            DistinctNodes(m'.nodes) && Addressed(p, m'.nodes, attempts + 1) && Ahead(m', attempts + 1)
  {
    RegisterNew(p, m, reg);
    var (m', node) := Register(p, m, reg);
    if node.Some? {
      AppendNode(p, m, attempts, node.value);
    }
  }

  lemma NewMachineKeeps(cfg: Config, st: Sys, st': Sys, reg: Registration)
    requires Runnable(cfg) && AllocInv(cfg, st) && NewMachine(cfg, st, st', reg)
    ensures AllocInv(cfg, st')
    ensures KeepsIdentities(st.mem.nodes, st'.mem.nodes)
  {
    RegisterNew(cfg.pool, st.mem, reg);
    if st'.attempts < TWO_31 {
      JoinKeeps(cfg.pool, st.mem, reg, st.attempts);
    }
  }

  lemma RestartKeeps(cfg: Config, st: Sys, st': Sys)
    requires Runnable(cfg) && AllocInv(cfg, st) && Restarted(cfg, st, st')
    ensures AllocInv(cfg, st')
    ensures cfg.hasPath && st.attempts < TWO_31 ==> SameIdentities(st.mem.nodes, st'.mem.nodes)
  {
    if st.attempts < TWO_31 && cfg.hasPath {
      var d := st.disk.value;
      ReloadedNodes(cfg.pool, st.mem.nodes, d, st.attempts);
      if st.attempts < TWO_31 - 1 {
        LoadU64Exact(d.nextId);
      }
    }
  }

  /** Ids below 2^31 are read back, so reloading the file changes no node. */
  lemma ReloadedNodes(p: Pool, nodes: seq<Node>, d: Mem, attempts: nat)
    requires |p.alloc.base6| == 16 && attempts < TWO_31
    requires Addressed(p, nodes, attempts) && SameIdentities(nodes, d.nodes)
    ensures Narrowed(d).nodes == d.nodes
  {
    forall i | 0 <= i < |d.nodes|
      ensures LoadU64(d.nodes[i].id) == d.nodes[i].id
    {
      assert SameIdentity(nodes[i], d.nodes[i]);
      LoadU64Exact(d.nodes[i].id);
    }
  }

  lemma {:induction false} AllocationInvariant(cfg: Config, evs: seq<Event>)
    requires Runnable(cfg)
    ensures AllocInv(cfg, Run(cfg, evs))
  {
    if evs == [] {
      FirstStart(cfg);
    } else {
      var before, ev := evs[..|evs| - 1], evs[|evs| - 1];
      var st := Run(cfg, before);
      AllocationInvariant(cfg, before);
      if ev.Restart? {
        StartRestarts(cfg, st, ev.generated, ev.secret);
        RestartKeeps(cfg, st, Step(cfg, st, ev));
      } else {
        StepShape(cfg, st, ev);
        if !Quiet(cfg, st, Step(cfg, st, ev)) {
          var reg :| NewMachine(cfg, st, Step(cfg, st, ev), reg);
          NewMachineKeeps(cfg, st, Step(cfg, st, ev), reg);
        } else {
          QuietKeeps(cfg, st, Step(cfg, st, ev));
        }
      }
    }
  }

  lemma FirstStart(cfg: Config)
    requires Runnable(cfg)
    ensures AllocInv(cfg, Run(cfg, []))
    ensures Run(cfg, []).mem.nodes == []
  {
  }

  // ---------------------------------------------------------------- the theorems

  /** Over every run with fewer than 2^31 new machines, whatever the restarts: machine keys, ids, stable
      ids, IPv4 and IPv6 addresses are pairwise distinct, and a node's addresses are those of its id. */
  lemma IdentitiesDistinct(cfg: Config, evs: seq<Event>, i: nat, j: nat)
    requires ValidConfig(cfg) && Run(cfg, evs).attempts < TWO_31
    requires i < j < |Run(cfg, evs).mem.nodes|
    ensures var a, b := Run(cfg, evs).mem.nodes[i], Run(cfg, evs).mem.nodes[j];
            && a.machineKey != b.machineKey && a.id != b.id && a.stableId != b.stableId
            && a.ipv4 != b.ipv4 && a.ipv6 != b.ipv6
            && Address(cfg.pool.alloc, cfg.pool.text, a.id) == Some((a.ipv4, a.ipv6))
  {
    AllocationInvariant(cfg, evs);
    var a, b := Run(cfg, evs).mem.nodes[i], Run(cfg, evs).mem.nodes[j];
    if a.stableId == b.stableId {
      DecimalInjective(a.id, b.id);
    }
    if a.ipv4 == b.ipv4 || a.ipv6 == b.ipv6 {
      AddressInjective(cfg.pool.alloc, cfg.pool.text, a.id, b.id);
    }
  }

  lemma KeepsTransitive(xs: seq<Node>, ys: seq<Node>, zs: seq<Node>)
    requires KeepsIdentities(xs, ys) && KeepsIdentities(ys, zs)
    ensures KeepsIdentities(xs, zs)
  {
  }

  predicate RestartFree(evs: seq<Event>) {
    forall i :: 0 <= i < |evs| ==> !evs[i].Restart?
  }

  /** A node that exists at some point of a run has the same id, addresses, machine key, token and
      shared flag at every later point: through restarts too, if there is a state file. */
  lemma {:induction false} IdentitiesPermanent(cfg: Config, evs: seq<Event>, more: seq<Event>)
    requires Runnable(cfg) && Run(cfg, evs + more).attempts < TWO_31
    requires cfg.hasPath || RestartFree(more)
    ensures KeepsIdentities(Run(cfg, evs).mem.nodes, Run(cfg, evs + more).mem.nodes)
    decreases |more|
  {
    if more == [] {
      assert evs + more == evs;
    } else {
      var init, ev := more[..|more| - 1], more[|more| - 1];
      var all := evs + more;
      assert all[..|all| - 1] == evs + init && all[|all| - 1] == ev;
      var st := Run(cfg, evs + init);
      AllocationInvariant(cfg, evs + init);
      StepKeepsIdentities(cfg, st, ev);
      IdentitiesPermanent(cfg, evs, init);
      KeepsTransitive(Run(cfg, evs).mem.nodes, st.mem.nodes, Step(cfg, st, ev).mem.nodes);
    }
  }

  lemma StepKeepsIdentities(cfg: Config, st: Sys, ev: Event)
    requires Runnable(cfg) && AllocInv(cfg, st) && (cfg.hasPath || !ev.Restart?)
    requires Step(cfg, st, ev).attempts < TWO_31
    ensures st.attempts <= Step(cfg, st, ev).attempts
    ensures KeepsIdentities(st.mem.nodes, Step(cfg, st, ev).mem.nodes)
  {
    if ev.Restart? {
      StartRestarts(cfg, st, ev.generated, ev.secret);
      RestartKeeps(cfg, st, Step(cfg, st, ev));
    } else {
      StepShape(cfg, st, ev);
      if !Quiet(cfg, st, Step(cfg, st, ev)) {
        var reg :| NewMachine(cfg, st, Step(cfg, st, ev), reg);
        NewMachineKeeps(cfg, st, Step(cfg, st, ev), reg);
      }
    }
  }
}
