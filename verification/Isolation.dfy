/** Token groups over whole runs: every node comes from a key granted to its machine, keeps that key's
    token and shared flag, and is never shown to a node of another group. */
module Isolation {
  import opened Bytes
  import opened IpAlloc
  import opened StoreModel
  import opened Store
  import opened Netmap
  import opened Coordinator
  import opened Allocation

  /** The grants that still matter are those of all processes if there is a file, which keeps the
      nodes they let in, and those of this process if there is none. */
  function Since(cfg: Config, st: Sys): nat {
    if cfg.hasPath then 0 else st.epoch
  }

  /** This grant let this machine in, with this token and shared flag. */
  predicate Admits(g: Grant, since: nat, machine: string, token: string, shared: bool) {
    g.machine == machine && g.claim.token == token && g.claim.shared == shared && g.epoch >= since
  }

  ghost predicate Claimed(grants: seq<Grant>, since: nat, machine: string, token: string, shared: bool) {
    exists i :: 0 <= i < |grants| && Admits(grants[i], since, machine, token, shared)
  }

  /** A copy of a node that is registered. */
  ghost predicate Known(nodes: seq<Node>, n: Node) {
    exists i :: 0 <= i < |nodes| && SameIdentity(n, nodes[i])
  }

  ghost predicate AllKnown(nodes: seq<Node>, list: seq<Node>) {
    forall i :: 0 <= i < |list| ==> Known(nodes, list[i])
  }

  ghost predicate NodeClaimed(grants: seq<Grant>, since: nat, n: Node) {
    Claimed(grants, since, n.machineKey, n.token, n.shared)
  }

  ghost predicate AllClaimed(grants: seq<Grant>, since: nat, nodes: seq<Node>) {
    forall i :: 0 <= i < |nodes| ==> NodeClaimed(grants, since, nodes[i])
  }

  /** What a connection carries between critical sections is about registered nodes, and a
      registration that is about to create a node carries a claim granted to its machine. */
  ghost predicate PhaseOk(nodes: seq<Node>, grants: seq<Grant>, since: nat, p: Phase) {
    match p
    case RegStore(reg) => Registered(nodes, reg.machine) || Claimed(grants, since, reg.machine, reg.token, reg.shared)
    case MapNodes(_, self, _, _) => Known(nodes, self)
    case MapLive(self, _, _, _, _) => Known(nodes, self)
    case TickNodes(_, _, found, _) => found.Some? ==> Known(nodes, found.value)
    case _ => true
  }

  ghost predicate PhasesOk(cfg: Config, st: Sys) {
    forall c :: c in st.conns ==> PhaseOk(st.mem.nodes, st.grants, Since(cfg, st), st.conns[c].phase)
  }

  /** Maps are built for registered nodes, from lists of registered nodes that include them. */
  ghost predicate MapOk(nodes: seq<Node>, s: Served) {
    Known(nodes, s.self) && Known(s.list, s.self) && AllKnown(nodes, s.list)
  }

  ghost predicate ServedOk(nodes: seq<Node>, served: seq<Served>) {
    forall i :: 0 <= i < |served| ==> MapOk(nodes, served[i])
  }

  ghost predicate IsoInv(cfg: Config, st: Sys) {
    AllClaimed(st.grants, Since(cfg, st), st.mem.nodes) && PhasesOk(cfg, st) && ServedOk(st.mem.nodes, st.served)
  }

  // ---------------------------------------------------------------- what later states keep

  lemma KnownKept(xs: seq<Node>, ys: seq<Node>, n: Node)
    requires KeepsIdentities(xs, ys) && Known(xs, n)
    ensures Known(ys, n)
  {
    var i :| 0 <= i < |xs| && SameIdentity(n, xs[i]);
    assert SameIdentity(n, ys[i]);
  }

  lemma RegisteredKept(xs: seq<Node>, ys: seq<Node>, machine: string)
    requires KeepsIdentities(xs, ys) && Registered(xs, machine)
    ensures Registered(ys, machine)
  {
    assert SameIdentity(xs[FindNode(xs, machine)], ys[FindNode(xs, machine)]);
  }

  lemma ClaimedKept(g: seq<Grant>, h: seq<Grant>, since: nat, machine: string, token: string, shared: bool)
    requires g <= h && Claimed(g, since, machine, token, shared)
    ensures Claimed(h, since, machine, token, shared)
  {
    var i :| 0 <= i < |g| && Admits(g[i], since, machine, token, shared);
    assert h[i] == g[i];
  }

  lemma PhaseKept(xs: seq<Node>, ys: seq<Node>, g: seq<Grant>, h: seq<Grant>, since: nat, p: Phase)
    requires KeepsIdentities(xs, ys) && g <= h && PhaseOk(xs, g, since, p)
    ensures PhaseOk(ys, h, since, p)
  {
    match p {
      case RegStore(reg) =>
        if Registered(xs, reg.machine) {
          RegisteredKept(xs, ys, reg.machine);
        } else {
          ClaimedKept(g, h, since, reg.machine, reg.token, reg.shared);
        }
      case MapNodes(_, self, _, _) => KnownKept(xs, ys, self);
      case MapLive(self, _, _, _, _) => KnownKept(xs, ys, self);
      case TickNodes(_, _, found, _) =>
        if found.Some? {
          KnownKept(xs, ys, found.value);
        }
      case _ =>
    }
  }

  lemma ServedKept(xs: seq<Node>, ys: seq<Node>, served: seq<Served>)
    requires KeepsIdentities(xs, ys) && ServedOk(xs, served)
    ensures ServedOk(ys, served)
  {
    forall i | 0 <= i < |served|
      ensures MapOk(ys, served[i])
    {
      assert MapOk(xs, served[i]);
      KnownKept(xs, ys, served[i].self);
      forall j | 0 <= j < |served[i].list|
        ensures Known(ys, served[i].list[j])
      {
        KnownKept(xs, ys, served[i].list[j]);
      }
    }
  }

  lemma SelfKnown(nodes: seq<Node>)
    ensures AllKnown(nodes, nodes)
  {
    forall i | 0 <= i < |nodes|
      ensures Known(nodes, nodes[i])
    {
      assert SameIdentity(nodes[i], nodes[i]);
    }
  }

  // ---------------------------------------------------------------- steps

  lemma ServedAppend(nodes: seq<Node>, served: seq<Served>, self: Node)
    requires ServedOk(nodes, served) && Known(nodes, self)
    ensures ServedOk(nodes, served + [Served(self, nodes)])
  {
    SelfKnown(nodes);
    var more := served + [Served(self, nodes)];
    forall i | 0 <= i < |more|
      ensures MapOk(nodes, more[i])
    {
      if i < |served| {
        assert more[i] == served[i];
      }
    }
  }

  lemma AdvanceServed(cfg: Config, st: Sys, c: nat, now: int)
    requires Runnable(cfg) && c in st.conns && PhasesOk(cfg, st) && ServedOk(st.mem.nodes, st.served)
    ensures ServedOk(st.mem.nodes, StepAdvance(cfg, st, c, now).served)
  {
    match st.conns[c].phase {
      case MapNodes(_, self, _, _) =>
        ServedAppend(st.mem.nodes, st.served, self);
      case TickNodes(_, _, found, _) =>
        if found.Some? {
          ServedAppend(st.mem.nodes, st.served, found.value);
        }
      case _ =>
        assert StepAdvance(cfg, st, c, now).served == st.served;
    }
  }

  /** A step serves at most one map, to a node its connection looked up, from the current list. */
  lemma ServedStep(cfg: Config, st: Sys, ev: Event)
    requires Runnable(cfg) && !ev.Restart? && PhasesOk(cfg, st) && ServedOk(st.mem.nodes, st.served)
    ensures ServedOk(st.mem.nodes, Step(cfg, st, ev).served)
  {
    if ev.Advance? && ev.c in st.conns {
      AdvanceServed(cfg, st, ev.c, ev.now);
    } else {
      assert Step(cfg, st, ev).served == st.served;
    }
  }

  lemma SelfFound(st: Sys, machine: string)
    requires FindSelf(st, machine).Some?
    ensures Known(st.mem.nodes, FindSelf(st, machine).value)
  {
    var i := FindNode(st.mem.nodes, machine);
    assert SameIdentity(st.mem.nodes[i], st.mem.nodes[i]);
  }

  lemma NewClaim(st: Sys, g: Grant, since: nat)
    requires g.epoch >= since
    ensures Claimed(st.grants + [g], since, g.machine, g.claim.token, g.claim.shared)
    ensures st.grants <= st.grants + [g]
  {
    assert (st.grants + [g])[|st.grants|] == g;
  }

  lemma ConsumePhase(cfg: Config, st: Sys, c: nat, req: RegisterRequest, now: int)
    requires c in st.conns
    ensures var st' := DoConsume(cfg, st, c, req, now);
            && st.grants <= st'.grants && c in st'.conns
            && PhaseOk(st.mem.nodes, st'.grants, Since(cfg, st), st'.conns[c].phase)
  {
    var r := Consume(st.mem.keys, req.auth, now);
    if r.Some? {
      var reusable := st.mem.keys[FindKey(st.mem.keys, req.auth)].reusable;
      NewClaim(st, Grant(st.conns[c].machine, req.auth, reusable, r.value.0, st.epoch), Since(cfg, st));
    }
  }

  lemma FindPhase(cfg: Config, st: Sys, c: nat)
    requires c in st.conns
    ensures forall req :: PhaseOk(st.mem.nodes, st.grants, Since(cfg, st), DoMapFind(st, c, req).conns[c].phase)
    ensures forall gen, i :: PhaseOk(st.mem.nodes, st.grants, Since(cfg, st), DoTickFind(st, c, gen, i).conns[c].phase)
  {
    if FindSelf(st, st.conns[c].machine).Some? {
      SelfFound(st, st.conns[c].machine);
    }
  }

  lemma ServingPhase(cfg: Config, st: Sys, c: nat, now: int)
    requires Runnable(cfg) && c in st.conns && PhaseOk(st.mem.nodes, st.grants, Since(cfg, st), st.conns[c].phase)
    requires st.conns[c].phase.MapNodes? || st.conns[c].phase.MapLive? || st.conns[c].phase.TickNodes?
    ensures var st' := StepAdvance(cfg, st, c, now);
            && st.grants == st'.grants && c in st'.conns
            && PhaseOk(st.mem.nodes, st'.grants, Since(cfg, st), st'.conns[c].phase)
  {
  }

  lemma PlainPhase(cfg: Config, st: Sys, c: nat, now: int)
    requires Runnable(cfg) && c in st.conns
    requires var p := st.conns[c].phase;
             p.Idle? || p.Gone? || p.RegReadDisk? || p.RegInstall? || p.RegStore? || p.RegBump? || p.MapBump?
             || p.MapOnline? || p.HangBump?
    ensures var st' := StepAdvance(cfg, st, c, now);
            && st.grants == st'.grants && c in st'.conns
            && PhaseOk(st.mem.nodes, st'.grants, Since(cfg, st), st'.conns[c].phase)
  {
  }

  lemma AdvancePhase(cfg: Config, st: Sys, c: nat, now: int)
    requires Runnable(cfg) && c in st.conns && PhasesOk(cfg, st)
    ensures var st' := StepAdvance(cfg, st, c, now);
            && st.grants <= st'.grants && c in st'.conns
            && PhaseOk(st.mem.nodes, st'.grants, Since(cfg, st), st'.conns[c].phase)
  {
    match st.conns[c].phase {
      case RegConsume(req) => ConsumePhase(cfg, st, c, req, now);
      case MapFind(_) => FindPhase(cfg, st, c);
      case TickFind(_, _) => FindPhase(cfg, st, c);
      case MapNodes(_, _, _, _) => ServingPhase(cfg, st, c, now);
      case MapLive(_, _, _, _, _) => ServingPhase(cfg, st, c, now);
      case TickNodes(_, _, _, _) => ServingPhase(cfg, st, c, now);
      case _ => PlainPhase(cfg, st, c, now);
    }
  }

  lemma PhaseStep(cfg: Config, st: Sys, ev: Event)
    requires Runnable(cfg) && !ev.Restart? && PhasesOk(cfg, st)
    ensures var st' := Step(cfg, st, ev);
            && st.grants <= st'.grants
            && forall c :: c in st'.conns ==> PhaseOk(st.mem.nodes, st'.grants, Since(cfg, st), st'.conns[c].phase)
  {
    var st' := Step(cfg, st, ev);
    match ev {
      case Advance(c, now) =>
        if c in st.conns {
          AdvancePhase(cfg, st, c, now);
          AdvanceMoves(cfg, st, c, now);
          forall d | d in st'.conns && d != c
            ensures PhaseOk(st.mem.nodes, st'.grants, Since(cfg, st), st'.conns[d].phase)
          {
            PhaseKept(st.mem.nodes, st.mem.nodes, st.grants, st'.grants, Since(cfg, st), st.conns[d].phase);
          }
        }
      case _ =>
    }
  }

  /** A new node has the token and shared flag of the claim that its registration carried. */
  lemma ClaimStep(cfg: Config, st: Sys, ev: Event)
    requires Runnable(cfg) && !ev.Restart? && IsoInv(cfg, st)
    ensures AllClaimed(Step(cfg, st, ev).grants, Since(cfg, st), Step(cfg, st, ev).mem.nodes)
  {
    var st' := Step(cfg, st, ev);
    PhaseStep(cfg, st, ev);
    forall i | 0 <= i < |st.mem.nodes|
      ensures NodeClaimed(st'.grants, Since(cfg, st), st.mem.nodes[i])
    {
      var n := st.mem.nodes[i];
      assert NodeClaimed(st.grants, Since(cfg, st), n);
      ClaimedKept(st.grants, st'.grants, Since(cfg, st), n.machineKey, n.token, n.shared);
    }
    if ev.Advance? && ev.c in st.conns && st.conns[ev.c].phase.RegStore? {
      RegisterClaimed(cfg, st, ev.c, st.conns[ev.c].phase.reg);
    } else {
      NodesOnlyEdited(cfg, st, ev);
    }
  }

  lemma RegisterClaimed(cfg: Config, st: Sys, c: nat, reg: Registration)
    requires Runnable(cfg) && c in st.conns && AllClaimed(st.grants, Since(cfg, st), st.mem.nodes)
    requires PhaseOk(st.mem.nodes, st.grants, Since(cfg, st), RegStore(reg))
    ensures AllClaimed(st.grants, Since(cfg, st), DoRegister(cfg, st, c, reg).mem.nodes)
  {
    RegisterShape(cfg, st, c, reg);
  }

  lemma NodesOnlyEdited(cfg: Config, st: Sys, ev: Event)
    requires Runnable(cfg) && !ev.Restart?
    requires !(ev.Advance? && ev.c in st.conns && st.conns[ev.c].phase.RegStore?)
    ensures SameIdentities(st.mem.nodes, Step(cfg, st, ev).mem.nodes)
  {
    StepShape(cfg, st, ev);
  }

  lemma PhasesStep(cfg: Config, st: Sys, ev: Event)
    requires Runnable(cfg) && !ev.Restart? && PhasesOk(cfg, st)
    requires KeepsIdentities(st.mem.nodes, Step(cfg, st, ev).mem.nodes)
    ensures PhasesOk(cfg, Step(cfg, st, ev))
  {
    var st' := Step(cfg, st, ev);
    PhaseStep(cfg, st, ev);
    EpochKept(cfg, st, ev);
    forall c | c in st'.conns
      ensures PhaseOk(st'.mem.nodes, st'.grants, Since(cfg, st'), st'.conns[c].phase)
    {
      PhaseKept(st.mem.nodes, st'.mem.nodes, st'.grants, st'.grants, Since(cfg, st), st'.conns[c].phase);
    }
  }

  lemma EpochKept(cfg: Config, st: Sys, ev: Event)
    requires Runnable(cfg) && !ev.Restart?
    ensures Step(cfg, st, ev).epoch == st.epoch
  {
  }

  lemma IsoMove(cfg: Config, st: Sys, ev: Event)
    requires Runnable(cfg) && !ev.Restart? && IsoInv(cfg, st)
    requires KeepsIdentities(st.mem.nodes, Step(cfg, st, ev).mem.nodes)
    ensures IsoInv(cfg, Step(cfg, st, ev))
  {
    EpochKept(cfg, st, ev);
    ClaimStep(cfg, st, ev);
    PhasesStep(cfg, st, ev);
    ServedStep(cfg, st, ev);
    ServedKept(st.mem.nodes, Step(cfg, st, ev).mem.nodes, Step(cfg, st, ev).served);
  }

  lemma IsoStep(cfg: Config, st: Sys, ev: Event)
    requires Runnable(cfg) && AllocInv(cfg, st) && IsoInv(cfg, st) && Step(cfg, st, ev).attempts < TWO_31
    ensures IsoInv(cfg, Step(cfg, st, ev))
  {
    if ev.Restart? {
      StartRestarts(cfg, st, ev.generated, ev.secret);
      IsoRestart(cfg, st, Step(cfg, st, ev));
    } else {
      StepKeepsIdentities(cfg, st, ev);
      IsoMove(cfg, st, ev);
    }
  }

  lemma IsoRestart(cfg: Config, st: Sys, st': Sys)
    requires Runnable(cfg) && AllocInv(cfg, st) && IsoInv(cfg, st) && Restarted(cfg, st, st') && st.attempts < TWO_31
    ensures IsoInv(cfg, st')
  {
    RestartKeeps(cfg, st, st');
    if cfg.hasPath {
      ServedKept(st.mem.nodes, st'.mem.nodes, st.served);
      forall i | 0 <= i < |st'.mem.nodes|
        ensures NodeClaimed(st'.grants, Since(cfg, st'), st'.mem.nodes[i])
      {
        assert NodeClaimed(st.grants, Since(cfg, st), st.mem.nodes[i]);
        assert SameIdentity(st.mem.nodes[i], st'.mem.nodes[i]);
      }
    }
  }

  lemma {:induction false} IsolationInvariant(cfg: Config, evs: seq<Event>)
    requires Runnable(cfg) && Run(cfg, evs).attempts < TWO_31
    ensures IsoInv(cfg, Run(cfg, evs))
  {
    if evs != [] {
      var before, ev := evs[..|evs| - 1], evs[|evs| - 1];
      AllocationInvariant(cfg, before);
      AttemptsGrow(cfg, Run(cfg, before), ev);
      IsolationInvariant(cfg, before);
      IsoStep(cfg, Run(cfg, before), ev);
    }
  }

  lemma AttemptsGrow(cfg: Config, st: Sys, ev: Event)
    requires Runnable(cfg)
    ensures st.attempts <= Step(cfg, st, ev).attempts
  {
    if !ev.Restart? {
      StepShape(cfg, st, ev);
    }
  }

  // ---------------------------------------------------------------- the theorems

  /** Over every run, every node was let in by a key granted to its own machine and carries that
      key's token and shared flag; with `IdentitiesPermanent`, it keeps them for good. */
  lemma EveryNodeWasClaimed(cfg: Config, evs: seq<Event>, i: nat)
    requires Runnable(cfg) && Run(cfg, evs).attempts < TWO_31
    requires i < |Run(cfg, evs).mem.nodes|
    ensures NodeClaimed(Run(cfg, evs).grants, Since(cfg, Run(cfg, evs)), Run(cfg, evs).mem.nodes[i])
  {
    IsolationInvariant(cfg, evs);
  }

  /** Neither is shared and their tokens differ. */
  predicate Separated(a: Node, b: Node) {
    !a.shared && !b.shared && a.token != b.token
  }

  /** Nothing of b is in the map: not as a peer, not in a DNS record, not in the packet filter. */
  ghost predicate Absent(b: Node, m: FullMap) {
    && (forall p :: p in m.peers ==> p.id != b.id && p.machine != b.machineKey)
    && (forall r :: r in m.records ==> r.value != (if r.kind.A? then b.ipv4 else b.ipv6))
    && (forall c :: c in m.srcIps ==> c !in Cidrs(b))
    && (forall c :: c in m.dstIps ==> c !in Cidrs(b))
  }

  /** Nodes whose id, machine key and addresses each belong to one node only. */
  ghost predicate Unmistakable(nodes: seq<Node>) {
    forall i, j :: 0 <= i < j < |nodes| ==>
      && nodes[i].id != nodes[j].id && nodes[i].machineKey != nodes[j].machineKey
      && nodes[i].ipv4 != nodes[j].ipv4 && nodes[i].ipv6 != nodes[j].ipv6
  }

  /** A visible node is not b, and shares nothing of b's identity. */
  lemma VisibleIsAnother(nodes: seq<Node>, self: Node, n: Node, a: Node, b: Node)
    requires Unmistakable(nodes) && a in nodes && b in nodes && Known(nodes, n)
    requires SameIdentity(self, a) && Separated(a, b) && Visible(self, n)
    ensures n.id != b.id && n.machineKey != b.machineKey && n.ipv4 != b.ipv4 && n.ipv6 != b.ipv6
  {
    var i :| 0 <= i < |nodes| && SameIdentity(n, nodes[i]);
    var j :| 0 <= j < |nodes| && nodes[j] == b;
    var k :| 0 <= k < |nodes| && nodes[k] == a;
    assert i != j;
  }

  lemma CidrsDiffer(n: Node, b: Node, c: string)
    requires n.ipv4 != b.ipv4 && n.ipv6 != b.ipv6 && c in Cidrs(n)
    ensures c !in Cidrs(b)
  {
    SuffixCancel(n.ipv4, b.ipv4, "/32");
    SuffixCancel(n.ipv6, b.ipv6, "/128");
    LastDiffers(n.ipv4, b.ipv6);
    LastDiffers(b.ipv4, n.ipv6);
  }

  lemma SuffixCancel(x: string, y: string, t: string)
    requires x != y
    ensures x + t != y + t
  {
    assert (x + t)[..|x|] == x && (y + t)[..|y|] == y;
  }

  lemma LastDiffers(x: string, y: string)
    ensures x + "/32" != y + "/128"
  {
    assert (x + "/32")[|x + "/32"| - 1] == '2' && (y + "/128")[|y + "/128"| - 1] == '8';
  }

  lemma MapHides(nodes: seq<Node>, self: Node, list: seq<Node>, domain: string, a: Node, b: Node)
    requires Unmistakable(nodes) && a in nodes && b in nodes && AllKnown(nodes, list)
    requires SameIdentity(self, a) && Separated(a, b)
    ensures Absent(b, MapFor(self, list, domain))
  {
    var m := MapFor(self, list, domain);
    MapMentionsOnlyVisible(self, list, domain);
    forall p | p in m.peers
      ensures p.id != b.id && p.machine != b.machineKey
    {
      var n :| n in list && Visible(self, n) && p == ToTailcfg(n, domain, false);
      VisibleIsAnother(nodes, self, n, a, b);
    }
    forall r | r in m.records
      ensures r.value != (if r.kind.A? then b.ipv4 else b.ipv6)
    {
      var n :| n in list && Visible(self, n) && r in RecordsOf(n, domain);
      VisibleIsAnother(nodes, self, n, a, b);
    }
    forall c | c in m.srcIps
      ensures c !in Cidrs(b)
    {
      if c != "*" {
        var n :| n in list && Visible(self, n) && c in Cidrs(n);
        VisibleIsAnother(nodes, self, n, a, b);
        CidrsDiffer(n, b, c);
      }
    }
  }

  /** Group isolation: in every run, whatever the interleaving and the restarts, no map that was
      ever built for a node contains anything of a registered node of another group. */
  lemma GroupIsolation(cfg: Config, evs: seq<Event>, k: nat, a: Node, b: Node)
    requires ValidConfig(cfg) && Run(cfg, evs).attempts < TWO_31
    requires k < |Run(cfg, evs).served| && a in Run(cfg, evs).mem.nodes && b in Run(cfg, evs).mem.nodes
    requires SameIdentity(Run(cfg, evs).served[k].self, a) && Separated(a, b)
    ensures Absent(b, MapFor(Run(cfg, evs).served[k].self, Run(cfg, evs).served[k].list, cfg.domain))
  {
    var st := Run(cfg, evs);
    IsolationInvariant(cfg, evs);
    forall i, j | 0 <= i < j < |st.mem.nodes|
      ensures st.mem.nodes[i].id != st.mem.nodes[j].id && st.mem.nodes[i].machineKey != st.mem.nodes[j].machineKey
      ensures st.mem.nodes[i].ipv4 != st.mem.nodes[j].ipv4 && st.mem.nodes[i].ipv6 != st.mem.nodes[j].ipv6
    {
      IdentitiesDistinct(cfg, evs, i, j);
    }
    assert MapOk(st.mem.nodes, st.served[k]);
    MapHides(st.mem.nodes, st.served[k].self, st.served[k].list, cfg.domain, a, b);
  }

  /** No map that was ever built falls back to the "*" filter: a registered node has addresses, and
      it sees itself. */
  lemma FallbackNeverServed(cfg: Config, evs: seq<Event>, k: nat)
    requires ValidConfig(cfg) && Run(cfg, evs).attempts < TWO_31 && k < |Run(cfg, evs).served|
    ensures var m := MapFor(Run(cfg, evs).served[k].self, Run(cfg, evs).served[k].list, cfg.domain);
            "*" !in m.srcIps && "*" !in m.dstIps
  {
    var st := Run(cfg, evs);
    var s := st.served[k];
    IsolationInvariant(cfg, evs);
    AllocationInvariant(cfg, evs);
    assert MapOk(st.mem.nodes, s);
    var i :| 0 <= i < |s.list| && SameIdentity(s.self, s.list[i]);
    assert Known(st.mem.nodes, s.list[i]);
    var j :| 0 <= j < |st.mem.nodes| && SameIdentity(s.list[i], st.mem.nodes[j]);
    AddressNotEmpty(cfg.pool, st.mem.nodes[j]);
    FilterExact(s.self, s.list, cfg.domain, "*");
    assert Visible(s.self, s.list[i]);
  }

  lemma AddressNotEmpty(p: Pool, n: Node)
    requires ValidPool(p) && Address(p.alloc, p.text, n.id) == Some((n.ipv4, n.ipv6))
    ensures n.ipv4 != "" && n.ipv6 != ""
  {
  }
}
