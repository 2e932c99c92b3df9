/** Where a stream stays behind, each as a concrete run: a mutation announced between building the
    first map and reading the generation, one announced between looking up the map's own node and
    reading the list, and an online flag that nobody announces. In all three the stream is at the
    current generation, so that a tick passes it over. */
module FanoutGaps {
  import opened Bytes
  import opened IpAlloc
  import opened StoreModel
  import opened Store
  import opened Netmap
  import opened Coordinator
  import opened Fanout
  import opened Convergence

  // ---------------------------------------------------------------- a tick with nothing to do

  lemma {:induction false} SkipRest(cfg: Config, st: Sys, c: nat, i: nat, now: int)
    requires Runnable(cfg) && c in st.conns && st.conns[c].phase == TickFind(st.gen, i) && i <= |st.conns[c].live|
    requires forall k :: 0 <= k < |st.conns[c].live| ==> st.conns[c].live[k].lastGen == st.gen
    ensures AdvanceN(cfg, st, c, now, |st.conns[c].live| - i + 1) == Go(st, c, Idle)
    decreases |st.conns[c].live| - i
  {
    var st' := Step(cfg, st, Advance(c, now));
    if i < |st.conns[c].live| {
      assert st' == Go(st, c, TickFind(st.gen, i + 1));
      SkipRest(cfg, st', c, i + 1, now);
      assert Go(st', c, Idle) == Go(st, c, Idle);
    } else {
      assert st' == Go(st, c, Idle);
      assert AdvanceN(cfg, st, c, now, 1) == AdvanceN(cfg, st', c, now, 0);
    }
  }

  /** A tick of a connection whose streams are all at the current generation pushes no map and
      leaves everything as it was. */
  lemma TickAtGenerationIsQuiet(cfg: Config, st: Sys, c: nat, now: int)
    requires Runnable(cfg) && AtRest(st, c)
    requires forall k :: 0 <= k < |st.conns[c].live| ==> st.conns[c].live[k].lastGen == st.gen
    ensures Alone(cfg, st, c, Tick(c), |st.conns[c].live| + 1, now) == st
  {
    var st1 := Go(st, c, TickFind(st.gen, 0));
    SkipRest(cfg, st1, c, 0, now);
    assert Go(st1, c, Idle) == st by {
      assert st.conns[c].(phase := Idle) == st.conns[c];
      assert st.conns[c := st.conns[c]] == st.conns;
    }
  }

  // ---------------------------------------------------------------- scripts

  /** Keys in memory only, and room for two hosts. */
  predicate Simple(cfg: Config) {
    Runnable(cfg) && !cfg.hasPath && cfg.firstSecret != "" && InRange(cfg.pool.alloc, 1) && InRange(cfg.pool.alloc, 2)
  }

  function Join(cfg: Config): RegisterRequest {
    RegisterRequest("nodekey", "host", cfg.firstSecret, false)
  }

  /** A read-only stream, as current clients ask for it. */
  const STREAM := MapRequest(68, true, false, MapInfo("", "", "", []))

  /** A map request that tells a new host name and asks for no map. */
  const RENAME := MapRequest(68, false, true, MapInfo("", "", "new", []))

  /** The reusable first key is the only one, and the next host has an address. */
  ghost predicate Open(cfg: Config, st: Sys) {
    && |st.mem.keys| == 1 && st.mem.keys[0].(used := false) == BootKey(cfg.firstSecret)
    && InRange(cfg.pool.alloc, st.mem.nextIp)
  }

  /** What the scripts follow: who is connected, the nodes, how many lists there were, the bumps. */
  ghost predicate At(st: Sys, conns: map<nat, Conn>, nodes: seq<Node>, lists: nat, bumps: seq<nat>) {
    && st.conns == conns && st.mem.nodes == nodes
    && lists > 0 && |st.hist| == lists && st.bumps == bumps && st.gen == 1 + |bumps|
  }

  // Each of the next lemmas is one event of connection c.

  lemma Reads(cfg: Config, st: Sys, c: nat, nodes: seq<Node>, lists: nat, bumps: seq<nat>)
    requires Simple(cfg) && Open(cfg, st) && At(st, st.conns, nodes, lists, bumps)
    requires c in st.conns && st.conns[c].phase == RegReadDisk(Join(cfg))
    ensures var st' := Step(cfg, Step(cfg, st, Advance(c, 0)), Advance(c, 0));
            && Open(cfg, st') && st'.mem == st.mem
            && At(st', st.conns[c := st.conns[c].(phase := RegConsume(Join(cfg)))], nodes, lists, bumps)
  {
    var st1 := Step(cfg, st, Advance(c, 0));
    assert st1 == Go(st, c, RegInstall(Join(cfg), None));
    assert Step(cfg, st1, Advance(c, 0)).conns == st.conns[c := st.conns[c].(phase := RegConsume(Join(cfg)))];
  }

  lemma Consumes(cfg: Config, st: Sys, c: nat, nodes: seq<Node>, lists: nat, bumps: seq<nat>)
    returns (reg: Registration)
    requires Simple(cfg) && Open(cfg, st) && At(st, st.conns, nodes, lists, bumps)
    requires c in st.conns && st.conns[c].phase == RegConsume(Join(cfg))
    ensures reg.machine == st.conns[c].machine && reg.hostname == "host"
    ensures var st' := Step(cfg, st, Advance(c, 0));
            && Open(cfg, st') && st'.mem.nextIp == st.mem.nextIp
            && At(st', st.conns[c := st.conns[c].(phase := RegStore(reg))], nodes, lists, bumps)
  {
    var k := st.mem.keys[0];
    assert FindKey(st.mem.keys, cfg.firstSecret) == 0;
    assert Consume(st.mem.keys, cfg.firstSecret, 0) == Some((ClaimOf(k), st.mem.keys[0 := k.(used := true)]));
    reg := Registration(st.conns[c].machine, "nodekey", "host", k.ephemeral, k.token, k.shared);
  }

  lemma Stores(cfg: Config, st: Sys, c: nat, reg: Registration, nodes: seq<Node>, lists: nat, bumps: seq<nat>)
    returns (n: Node)
    requires Simple(cfg) && Open(cfg, st) && At(st, st.conns, nodes, lists, bumps)
    requires c in st.conns && st.conns[c].phase == RegStore(reg)
    requires reg.hostname == "host" && !Registered(nodes, reg.machine)
    ensures n.machineKey == reg.machine && n.hostname == "host" && !n.online
    ensures var st' := Step(cfg, st, Advance(c, 0));
            && st'.mem.nextIp == Inc32(st.mem.nextIp) && st'.mem.keys == st.mem.keys
            && At(st', st.conns[c := st.conns[c].(phase := RegBump(lists))], nodes + [n], lists + 1, bumps)
  {
    n := Register(cfg.pool, st.mem, reg).1.value;
  }

  lemma Bumps(cfg: Config, st: Sys, c: nat, p: Phase, at: nat, nodes: seq<Node>, lists: nat, bumps: seq<nat>)
    requires Runnable(cfg) && At(st, st.conns, nodes, lists, bumps) && c in st.conns
    requires || (st.conns[c].phase == RegBump(at) && p == Idle) || (st.conns[c].phase == HangBump(at) && p == Gone)
             || (st.conns[c].phase == MapBump(RENAME, at) && p == MapOnline(RENAME))
    ensures var st' := Step(cfg, st, Advance(c, 0));
            st'.mem == st.mem && At(st', st.conns[c := st.conns[c].(phase := p)], nodes, lists, bumps + [at])
  {
  }

  // ---------------------------------------------------------------- scripts

  lemma Connects(cfg: Config, evs: seq<Event>, c: nat, machine: string, conns: map<nat, Conn>, nodes: seq<Node>,
                 lists: nat, bumps: seq<nat>)
    requires Runnable(cfg) && At(Run(cfg, evs), conns, nodes, lists, bumps) && c !in conns
    ensures var st' := Run(cfg, evs + [Connect(c, machine)]);
            st'.mem == Run(cfg, evs).mem && At(st', conns[c := Conn(machine, Idle, [])], nodes, lists, bumps)
  {
    RunStep(cfg, evs, Connect(c, machine));
  }

  lemma Joins(cfg: Config, evs: seq<Event>, c: nat, conns: map<nat, Conn>, nodes: seq<Node>, lists: nat,
              bumps: seq<nat>)
    returns (n: Node)
    requires Simple(cfg) && Open(cfg, Run(cfg, evs)) && At(Run(cfg, evs), conns, nodes, lists, bumps)
    requires c in conns && conns[c].phase == Idle && !Registered(nodes, conns[c].machine)
    ensures n.machineKey == conns[c].machine && n.hostname == "host" && !n.online
    ensures var st, st' := Run(cfg, evs), Run(cfg, evs + [AskRegister(c, Join(cfg))] + Advances(c, 0, 5));
            && At(st', conns, nodes + [n], lists + 1, bumps + [lists])
            && st'.mem.nextIp == Inc32(st.mem.nextIp)
            && (InRange(cfg.pool.alloc, st'.mem.nextIp) ==> Open(cfg, st'))
  {
    RunAlone(cfg, evs, c, AskRegister(c, Join(cfg)), 5, 0);
    n := JoinsAlone(cfg, Run(cfg, evs), c, nodes, lists, bumps);
  }

  lemma JoinsAlone(cfg: Config, st: Sys, c: nat, nodes: seq<Node>, lists: nat, bumps: seq<nat>) returns (n: Node)
    requires Simple(cfg) && Open(cfg, st) && At(st, st.conns, nodes, lists, bumps)
    requires c in st.conns && st.conns[c].phase == Idle && !Registered(nodes, st.conns[c].machine)
    ensures n.machineKey == st.conns[c].machine && n.hostname == "host" && !n.online
    ensures var st' := Alone(cfg, st, c, AskRegister(c, Join(cfg)), 5, 0);
            && At(st', st.conns, nodes + [n], lists + 1, bumps + [lists])
            && st'.mem.nextIp == Inc32(st.mem.nextIp)
            && (InRange(cfg.pool.alloc, st'.mem.nextIp) ==> Open(cfg, st'))
  {
    var st0 := Step(cfg, st, AskRegister(c, Join(cfg)));
    assert st0 == Go(st, c, RegReadDisk(Join(cfg)));
    Reads(cfg, st0, c, nodes, lists, bumps);
    var st2 := Step(cfg, Step(cfg, st0, Advance(c, 0)), Advance(c, 0));
    var reg := Consumes(cfg, st2, c, nodes, lists, bumps);
    var st3 := Step(cfg, st2, Advance(c, 0));
    n := Stores(cfg, st3, c, reg, nodes, lists, bumps);
    var st4 := Step(cfg, st3, Advance(c, 0));
    Bumps(cfg, st4, c, Idle, lists, nodes + [n], lists + 1, bumps);
    FiveAdvances(cfg, st0, c, st2, st3, st4);
    assert st.conns[c].(phase := Idle) == st.conns[c] && st.conns[c := st.conns[c]] == st.conns;
  }

  lemma FiveAdvances(cfg: Config, st: Sys, c: nat, st2: Sys, st3: Sys, st4: Sys)
    requires Runnable(cfg) && st2 == Step(cfg, Step(cfg, st, Advance(c, 0)), Advance(c, 0))
    requires st3 == Step(cfg, st2, Advance(c, 0)) && st4 == Step(cfg, st3, Advance(c, 0))
    ensures AdvanceN(cfg, st, c, 0, 5) == Step(cfg, st4, Advance(c, 0))
  {
  }

  /** A machine comes online by asking for a read-only stream, and no bump announces it. */
  lemma ComesOnline(cfg: Config, evs: seq<Event>, c: nat, conns: map<nat, Conn>, nodes: seq<Node>, lists: nat,
                    bumps: seq<nat>)
    requires Runnable(cfg) && At(Run(cfg, evs), conns, nodes, lists, bumps) && c in conns && conns[c].phase == Idle
    ensures At(Run(cfg, evs + [AskMap(c, STREAM)] + [Advance(c, 0)]), conns[c := conns[c].(phase := MapFind(STREAM))],
               SetOnline(nodes, conns[c].machine, true), lists + 1, bumps)
  {
    RunStep(cfg, evs, AskMap(c, STREAM));
    RunStep(cfg, evs + [AskMap(c, STREAM)], Advance(c, 0));
    assert Run(cfg, evs + [AskMap(c, STREAM)]) == Go(Run(cfg, evs), c, MapOnline(STREAM));
  }

  lemma FindsItself(cfg: Config, evs: seq<Event>, c: nat, conns: map<nat, Conn>, nodes: seq<Node>, lists: nat,
                    bumps: seq<nat>)
    requires Runnable(cfg) && At(Run(cfg, evs), conns, nodes, lists, bumps)
    requires c in conns && conns[c].phase == MapFind(STREAM) && Registered(nodes, conns[c].machine)
    ensures var p := MapNodes(STREAM, nodes[FindNode(nodes, conns[c].machine)], lists - 1, 1 + |bumps|);
            At(Run(cfg, evs + [Advance(c, 0)]), conns[c := conns[c].(phase := p)], nodes, lists, bumps)
  {
    RunStep(cfg, evs, Advance(c, 0));
  }

  lemma ReadsNodes(cfg: Config, evs: seq<Event>, c: nat, conns: map<nat, Conn>, nodes: seq<Node>, lists: nat,
                   bumps: seq<nat>, self: Node, selfSeen: nat, genFind: nat)
    requires Runnable(cfg) && At(Run(cfg, evs), conns, nodes, lists, bumps)
    requires c in conns && conns[c].phase == MapNodes(STREAM, self, selfSeen, genFind)
    ensures var p := MapLive(self, selfSeen, nodes, lists - 1, genFind);
            At(Run(cfg, evs + [Advance(c, 0)]), conns[c := conns[c].(phase := p)], nodes, lists, bumps)
  {
    RunStep(cfg, evs, Advance(c, 0));
  }

  lemma GoesLive(cfg: Config, evs: seq<Event>, c: nat, conns: map<nat, Conn>, nodes: seq<Node>, lists: nat,
                 bumps: seq<nat>, self: Node, selfSeen: nat, list: seq<Node>, seen: nat, genFind: nat)
    requires Runnable(cfg) && At(Run(cfg, evs), conns, nodes, lists, bumps)
    requires c in conns && conns[c].phase == MapLive(self, selfSeen, list, seen, genFind) && conns[c].live == []
    ensures var m := Live(1 + |bumps|, self, selfSeen, list, seen, false);
            At(Run(cfg, evs + [Advance(c, 0)]), conns[c := Conn(conns[c].machine, Idle, [m])], nodes, lists, bumps)
  {
    RunStep(cfg, evs, Advance(c, 0));
    var m := Live(1 + |bumps|, self, selfSeen, list, seen, false);
    assert [] + [m] == [m];
  }

  lemma HangsUp(cfg: Config, evs: seq<Event>, c: nat, conns: map<nat, Conn>, nodes: seq<Node>, lists: nat,
                bumps: seq<nat>)
    requires Runnable(cfg) && At(Run(cfg, evs), conns, nodes, lists, bumps) && c in conns && conns[c].phase == Idle
    ensures At(Run(cfg, evs + [Hangup(c)] + [Advance(c, 0)]), conns[c := conns[c].(phase := Gone)],
               SetOnline(nodes, conns[c].machine, false), lists + 1, bumps + [lists])
  {
    var nodes' := SetOnline(nodes, conns[c].machine, false);
    RunStep(cfg, evs, Hangup(c));
    RunStep(cfg, evs + [Hangup(c)], Advance(c, 0));
    var st := Run(cfg, evs + [Hangup(c)]);
    assert At(st, conns[c := conns[c].(phase := HangBump(lists))], nodes', lists + 1, bumps);
    Bumps(cfg, st, c, Gone, lists, nodes', lists + 1, bumps);
  }

  lemma Renames(cfg: Config, evs: seq<Event>, c: nat, conns: map<nat, Conn>, nodes: seq<Node>, lists: nat,
                bumps: seq<nat>)
    requires Runnable(cfg) && At(Run(cfg, evs), conns, nodes, lists, bumps) && c in conns && conns[c].phase == Idle
    ensures At(Run(cfg, evs + [AskMap(c, RENAME)] + [Advance(c, 0)]), conns[c := conns[c].(phase := MapOnline(RENAME))],
               UpdateMapInfo(nodes, conns[c].machine, RENAME.info), lists + 1, bumps + [lists])
  {
    var nodes' := UpdateMapInfo(nodes, conns[c].machine, RENAME.info);
    RunStep(cfg, evs, AskMap(c, RENAME));
    RunStep(cfg, evs + [AskMap(c, RENAME)], Advance(c, 0));
    var st := Run(cfg, evs + [AskMap(c, RENAME)]);
    assert At(st, conns[c := conns[c].(phase := MapBump(RENAME, lists))], nodes', lists + 1, bumps);
    Bumps(cfg, st, c, MapOnline(RENAME), lists, nodes', lists + 1, bumps);
  }

  /** One stream that is behind is refreshed by an undisturbed tick. */
  lemma TickRefreshes(cfg: Config, evs: seq<Event>, c: nat, conns: map<nat, Conn>, nodes: seq<Node>, lists: nat,
                      bumps: seq<nat>)
    requires Runnable(cfg) && At(Run(cfg, evs), conns, nodes, lists, bumps)
    requires c in conns && conns[c].phase == Idle && |conns[c].live| == 1 && conns[c].live[0].lastGen != 1 + |bumps|
    requires Registered(nodes, conns[c].machine)
    ensures var self := nodes[FindNode(nodes, conns[c].machine)];
            var m := Live(1 + |bumps|, self, lists - 1, nodes, lists - 1, true);
            At(Run(cfg, evs + [Tick(c)] + Advances(c, 0, 3)), conns[c := Conn(conns[c].machine, Idle, [m])], nodes,
               lists, bumps)
  {
    RunAlone(cfg, evs, c, Tick(c), 3, 0);
    TickRefreshesAlone(cfg, Run(cfg, evs), c, lists);
  }

  lemma TickRefreshesAlone(cfg: Config, st: Sys, c: nat, lists: nat)
    requires Runnable(cfg) && At(st, st.conns, st.mem.nodes, lists, st.bumps)
    requires AtRest(st, c) && |st.conns[c].live| == 1 && st.conns[c].live[0].lastGen != st.gen
    requires Registered(st.mem.nodes, st.conns[c].machine)
    ensures var self := st.mem.nodes[FindNode(st.mem.nodes, st.conns[c].machine)];
            var m := Live(st.gen, self, lists - 1, st.mem.nodes, lists - 1, true);
            At(Alone(cfg, st, c, Tick(c), 3, 0), st.conns[c := Conn(st.conns[c].machine, Idle, [m])], st.mem.nodes,
               lists, st.bumps)
  {
    var x := st.conns[c];
    var self := st.mem.nodes[FindNode(st.mem.nodes, x.machine)];
    var m := Live(st.gen, self, lists - 1, st.mem.nodes, lists - 1, true);
    var st0 := Go(st, c, TickFind(st.gen, 0));
    var st1 := Go(st, c, TickNodes(st.gen, 0, Some(self), lists - 1));
    assert Step(cfg, st0, Advance(c, 0)) == st1;
    var st2 := Step(cfg, st1, Advance(c, 0));
    assert x.live[0 := m] == [m];
    assert At(st2, st.conns[c := Conn(x.machine, TickFind(st.gen, 1), [m])], st.mem.nodes, lists, st.bumps);
    var st3 := Step(cfg, st2, Advance(c, 0));
    assert At(st3, st.conns[c := Conn(x.machine, Idle, [m])], st.mem.nodes, lists, st.bumps);
    ThreeAdvances(cfg, st0, c, 0, st1, st2);
  }

  lemma FindsOnly(n: Node, machine: string)
    requires n.machineKey == machine
    ensures FindNode([n], machine) == 0
    ensures forall b :: SetOnline([n], machine, b) == [n.(online := b)]
    ensures forall u :: UpdateMapInfo([n], machine, u) == [Informed(n, u)]
  {
  }

  // ---------------------------------------------------------------- the runs

  lemma Starts(cfg: Config)
    requires Simple(cfg)
    ensures At(Run(cfg, []), map[], [], 1, []) && Open(cfg, Run(cfg, [])) && Run(cfg, []).mem.nextIp == 1
  {
  }

  /** Machine "a" has joined by connection 1 and come online by asking for a stream. */
  lemma FirstAsks(cfg: Config) returns (evs: seq<Event>, n: Node)
    requires Simple(cfg)
    ensures n.machineKey == "a" && n.hostname == "host" && n.online
    ensures At(Run(cfg, evs), map[1 := Conn("a", MapFind(STREAM), [])], [n], 3, [1])
    ensures Open(cfg, Run(cfg, evs)) && Run(cfg, evs).mem.nextIp == 2
  {
    Starts(cfg);
    Connects(cfg, [], 1, "a", map[], [], 1, []);
    var conns := map[][1 := Conn("a", Idle, [])];
    assert conns == map[1 := Conn("a", Idle, [])];
    evs := [] + [Connect(1, "a")];
    n := Joins(cfg, evs, 1, conns, [], 1, []);
    evs := evs + [AskRegister(1, Join(cfg))] + Advances(1, 0, 5);
    assert [] + [n] == [n] && [] + [1] == [1];
    FindsOnly(n, "a");
    ComesOnline(cfg, evs, 1, conns, [n], 2, [1]);
    OnlineKeepsOpen(cfg, evs, 1);
    evs := evs + [AskMap(1, STREAM)] + [Advance(1, 0)];
    n := n.(online := true);
  }

  lemma OnlineKeepsOpen(cfg: Config, evs: seq<Event>, c: nat)
    requires Runnable(cfg) && AtRest(Run(cfg, evs), c)
    ensures var st, st' := Run(cfg, evs), Run(cfg, evs + [AskMap(c, STREAM)] + [Advance(c, 0)]);
            st'.mem.keys == st.mem.keys && st'.mem.nextIp == st.mem.nextIp
  {
    RunStep(cfg, evs, AskMap(c, STREAM));
    RunStep(cfg, evs + [AskMap(c, STREAM)], Advance(c, 0));
    assert Run(cfg, evs + [AskMap(c, STREAM)]) == Go(Run(cfg, evs), c, MapOnline(STREAM));
  }

  lemma SameStore(cfg: Config, evs: seq<Event>)
    requires Runnable(cfg) && 1 in Run(cfg, evs).conns
    requires var p := Run(cfg, evs).conns[1].phase; p.MapFind? || p.MapNodes? || p.MapLive?
    ensures Run(cfg, evs + [Advance(1, 0)]).mem == Run(cfg, evs).mem
  {
    RunStep(cfg, evs, Advance(1, 0));
  }

  /** The first map of "a" is built; its stream is not entered yet. */
  lemma FirstBuilt(cfg: Config) returns (evs: seq<Event>, n: Node)
    requires Simple(cfg)
    ensures n.machineKey == "a" && n.hostname == "host" && n.online
    ensures At(Run(cfg, evs), map[1 := Conn("a", MapLive(n, 2, [n], 2, 2), [])], [n], 3, [1])
    ensures Open(cfg, Run(cfg, evs)) && Run(cfg, evs).mem.nextIp == 2
  {
    evs, n := FirstAsks(cfg);
    FindsOnly(n, "a");
    FindsItself(cfg, evs, 1, map[1 := Conn("a", MapFind(STREAM), [])], [n], 3, [1]);
    SameStore(cfg, evs);
    evs := evs + [Advance(1, 0)];
    ReadsNodes(cfg, evs, 1, map[1 := Conn("a", MapNodes(STREAM, n, 2, 2), [])], [n], 3, [1], n, 2, 2);
    SameStore(cfg, evs);
    evs := evs + [Advance(1, 0)];
  }

  /** The stream is at the current generation, and a tick changes nothing. */
  ghost predicate PassedOver(cfg: Config, st: Sys, c: nat)
    requires Runnable(cfg)
  {
    && AtRest(st, c) && |st.conns[c].live| == 1 && st.conns[c].live[0].lastGen == st.gen
    && Alone(cfg, st, c, Tick(c), 2, 0) == st
  }

  lemma IsPassedOver(cfg: Config, st: Sys, c: nat, m: Live)
    requires Runnable(cfg) && AtRest(st, c) && st.conns[c].live == [m] && m.lastGen == st.gen
    ensures PassedOver(cfg, st, c) && st.conns[c].live[0] == m
  {
    TickAtGenerationIsQuiet(cfg, st, c, 0);
  }

  /** While the first map of "a" is on its way, another of its connections ends. The stream enters
      without that mutation but at the generation that announced it: its list shows "a" online,
      memory has it offline, and no tick makes up for it. */
  lemma FirstMapCanBeStale(cfg: Config) returns (evs: seq<Event>)
    requires Simple(cfg)
    ensures var st := Run(cfg, evs);
            && PassedOver(cfg, st, 1) && !Covered(st, st.gen, st.conns[1].live[0].seen)
            && |st.mem.nodes| == 1 && !st.mem.nodes[0].online
            && st.conns[1].live[0].list == [st.mem.nodes[0].(online := true)]
  {
    var n;
    evs, n := FirstBuilt(cfg);
    evs := EndsMeanwhile(cfg, evs, n);
    var conns := map[1 := Conn("a", MapLive(n, 2, [n], 2, 2), []), 2 := Conn("a", Gone, [])];
    GoesLive(cfg, evs, 1, conns, [n.(online := false)], 4, [1, 3], n, 2, [n], 2, 2);
    evs := evs + [Advance(1, 0)];
    IsPassedOver(cfg, Run(cfg, evs), 1, Live(3, n, 2, [n], 2, false));
    assert Run(cfg, evs).bumps[1] == 3;
  }

  lemma EndsMeanwhile(cfg: Config, evs: seq<Event>, n: Node) returns (evs': seq<Event>)
    requires Simple(cfg) && n.machineKey == "a"
    requires At(Run(cfg, evs), map[1 := Conn("a", MapLive(n, 2, [n], 2, 2), [])], [n], 3, [1])
    ensures At(Run(cfg, evs'), map[1 := Conn("a", MapLive(n, 2, [n], 2, 2), []), 2 := Conn("a", Gone, [])],
               [n.(online := false)], 4, [1, 3])
  {
    var p := MapLive(n, 2, [n], 2, 2);
    FindsOnly(n, "a");
    Connects(cfg, evs, 2, "a", map[1 := Conn("a", p, [])], [n], 3, [1]);
    var conns := map[1 := Conn("a", p, []), 2 := Conn("a", Idle, [])];
    assert map[1 := Conn("a", p, [])][2 := Conn("a", Idle, [])] == conns;
    HangsUp(cfg, evs + [Connect(2, "a")], 2, conns, [n], 3, [1]);
    assert conns[2 := Conn("a", Gone, [])] == map[1 := Conn("a", p, []), 2 := Conn("a", Gone, [])];
    assert [1] + [3] == [1, 3];
    evs' := evs + [Connect(2, "a")] + [Hangup(2)] + [Advance(2, 0)];
  }

  /** Another connection of "a" tells a new host name between the look-up of the map's own node and
      the reading of the list. Nothing is announced after that, yet the map that the stream keeps
      has the new name in its list and the old one in its own node. */
  lemma OwnNodeCanBeStale(cfg: Config) returns (evs: seq<Event>)
    requires Simple(cfg)
    ensures var st := Run(cfg, evs);
            && PassedOver(cfg, st, 1)
            && Covered(st, st.gen, st.conns[1].live[0].seen) && !Covered(st, st.gen, st.conns[1].live[0].selfSeen)
            && |st.mem.nodes| == 1 && st.conns[1].live[0].list == st.mem.nodes && st.mem.nodes[0].hostname == "new"
            && LastMap(cfg, st.conns[1].live[0]).node.hostname == "host"
  {
    var n;
    evs, n := FirstAsks(cfg);
    FindsOnly(n, "a");
    FindsItself(cfg, evs, 1, map[1 := Conn("a", MapFind(STREAM), [])], [n], 3, [1]);
    evs := evs + [Advance(1, 0)];
    evs := RenamesMeanwhile(cfg, evs, n);
    evs := EntersRenamed(cfg, evs, n, Informed(n, RENAME.info));
    IsPassedOver(cfg, Run(cfg, evs), 1, Live(3, n, 2, [Informed(n, RENAME.info)], 3, false));
    assert Run(cfg, evs).bumps[1] == 3;
  }

  lemma EntersRenamed(cfg: Config, evs: seq<Event>, n: Node, n': Node) returns (evs': seq<Event>)
    requires Simple(cfg)
    requires var conns := map[1 := Conn("a", MapNodes(STREAM, n, 2, 2), []), 2 := Conn("a", MapOnline(RENAME), [])];
             At(Run(cfg, evs), conns, [n'], 4, [1, 3])
    ensures var m := Live(3, n, 2, [n'], 3, false);
            At(Run(cfg, evs'), map[1 := Conn("a", Idle, [m]), 2 := Conn("a", MapOnline(RENAME), [])], [n'], 4, [1, 3])
  {
    var other, m := Conn("a", MapOnline(RENAME), []), Live(3, n, 2, [n'], 3, false);
    var conns := map[1 := Conn("a", MapNodes(STREAM, n, 2, 2), []), 2 := other];
    ReadsNodes(cfg, evs, 1, conns, [n'], 4, [1, 3], n, 2, 2);
    var conns' := map[1 := Conn("a", MapLive(n, 2, [n'], 3, 2), []), 2 := other];
    assert conns[1 := Conn("a", MapLive(n, 2, [n'], 3, 2), [])] == conns';
    GoesLive(cfg, evs + [Advance(1, 0)], 1, conns', [n'], 4, [1, 3], n, 2, [n'], 3, 2);
    assert conns'[1 := Conn("a", Idle, [m])] == map[1 := Conn("a", Idle, [m]), 2 := other];
    evs' := evs + [Advance(1, 0)] + [Advance(1, 0)];
  }

  lemma RenamesMeanwhile(cfg: Config, evs: seq<Event>, n: Node) returns (evs': seq<Event>)
    requires Simple(cfg) && n.machineKey == "a"
    requires At(Run(cfg, evs), map[1 := Conn("a", MapNodes(STREAM, n, 2, 2), [])], [n], 3, [1])
    ensures var conns := map[1 := Conn("a", MapNodes(STREAM, n, 2, 2), []), 2 := Conn("a", MapOnline(RENAME), [])];
            At(Run(cfg, evs'), conns, [Informed(n, RENAME.info)], 4, [1, 3])
  {
    var p := MapNodes(STREAM, n, 2, 2);
    FindsOnly(n, "a");
    Connects(cfg, evs, 2, "a", map[1 := Conn("a", p, [])], [n], 3, [1]);
    var conns := map[1 := Conn("a", p, []), 2 := Conn("a", Idle, [])];
    assert map[1 := Conn("a", p, [])][2 := Conn("a", Idle, [])] == conns;
    Renames(cfg, evs + [Connect(2, "a")], 2, conns, [n], 3, [1]);
    assert conns[2 := Conn("a", MapOnline(RENAME), [])]
        == map[1 := Conn("a", p, []), 2 := Conn("a", MapOnline(RENAME), [])];
    assert [1] + [3] == [1, 3];
    evs' := evs + [Connect(2, "a")] + [AskMap(2, RENAME)] + [Advance(2, 0)];
  }

  /** "a" streams; "b" joins, and a tick brings the stream of "a" up to date; then "b" comes online
      by asking for a read-only stream. Nothing is pending, the stream of "a" was refreshed and is
      at the current generation, and it shows "b" offline. */
  lemma OnlineCanBeMissed(cfg: Config) returns (evs: seq<Event>)
    requires Simple(cfg)
    ensures var st := Run(cfg, evs);
            && PassedOver(cfg, st, 1) && st.conns[1].live[0].refreshed && Settled(st)
            && |st.mem.nodes| == 2 && st.mem.nodes[1].machineKey == "b" && st.mem.nodes[1].online
            && st.conns[1].live[0].list == st.mem.nodes[1 := st.mem.nodes[1].(online := false)]
  {
    var a, b, m;
    evs, a, m := Streaming(cfg);
    evs, b := SecondJoins(cfg, evs, a, m);
    var other := Conn("b", Idle, []);
    FindsSecond(a, b);
    TickRefreshes(cfg, evs, 1, map[1 := Conn("a", Idle, [m]), 2 := other], [a, b], 4, [1, 3]);
    evs := evs + [Tick(1)] + Advances(1, 0, 3);
    var m' := Live(3, a, 3, [a, b], 3, true);
    var conns := map[1 := Conn("a", Idle, [m']), 2 := other];
    assert map[1 := Conn("a", Idle, [m]), 2 := other][1 := Conn("a", Idle, [m'])] == conns;
    ComesOnline(cfg, evs, 2, conns, [a, b], 4, [1, 3]);
    evs := evs + [AskMap(2, STREAM)] + [Advance(2, 0)];
    var st := Run(cfg, evs);
    assert st.conns == map[1 := Conn("a", Idle, [m']), 2 := Conn("b", MapFind(STREAM), [])];
    IsPassedOver(cfg, st, 1, m');
    assert st.mem.nodes == [a, b.(online := true)];
  }

  lemma FindsSecond(a: Node, b: Node)
    requires a.machineKey == "a" && b.machineKey == "b"
    ensures FindNode([a, b], "a") == 0 && FindNode([a, b], "b") == 1
    ensures SetOnline([a, b], "b", true) == [a, b.(online := true)]
  {
    FindNodeIs([a, b], "b", 1);
  }

  /** Connection 1 has a live stream. */
  lemma Streaming(cfg: Config) returns (evs: seq<Event>, n: Node, m: Live)
    requires Simple(cfg)
    ensures n.machineKey == "a" && m.lastGen == 2
    ensures At(Run(cfg, evs), map[1 := Conn("a", Idle, [m])], [n], 3, [1])
    ensures Open(cfg, Run(cfg, evs)) && Run(cfg, evs).mem.nextIp == 2
  {
    evs, n := FirstBuilt(cfg);
    m := Live(2, n, 2, [n], 2, false);
    GoesLive(cfg, evs, 1, map[1 := Conn("a", MapLive(n, 2, [n], 2, 2), [])], [n], 3, [1], n, 2, [n], 2, 2);
    SameStore(cfg, evs);
    evs := evs + [Advance(1, 0)];
  }

  lemma SecondJoins(cfg: Config, evs: seq<Event>, a: Node, m: Live) returns (evs': seq<Event>, b: Node)
    requires Simple(cfg) && a.machineKey == "a" && Open(cfg, Run(cfg, evs)) && Run(cfg, evs).mem.nextIp == 2
    requires At(Run(cfg, evs), map[1 := Conn("a", Idle, [m])], [a], 3, [1])
    ensures b.machineKey == "b" && !b.online
    ensures At(Run(cfg, evs'), map[1 := Conn("a", Idle, [m]), 2 := Conn("b", Idle, [])], [a, b], 4, [1, 3])
  {
    Connects(cfg, evs, 2, "b", map[1 := Conn("a", Idle, [m])], [a], 3, [1]);
    var conns := map[1 := Conn("a", Idle, [m]), 2 := Conn("b", Idle, [])];
    assert map[1 := Conn("a", Idle, [m])][2 := Conn("b", Idle, [])] == conns;
    evs' := evs + [Connect(2, "b")];
    assert FindNode([a], "b") == 1;
    b := Joins(cfg, evs', 2, conns, [a], 3, [1]);
    evs' := evs' + [AskRegister(2, Join(cfg))] + Advances(2, 0, 5);
    assert [a] + [b] == [a, b] && [1] + [3] == [1, 3];
  }
}
