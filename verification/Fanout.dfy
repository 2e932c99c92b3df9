/** Map fan-out under interleaving: a stream that a tick has refreshed shows the effect of every
    mutation announced by a generation up to the stream's own.

    `hist` numbers the successive node lists, so "shows" means: the list that the map was built
    from is the one the mutation made, or a later one. */
module Fanout {
  import opened Bytes
  import opened StoreModel
  import opened Store
  import opened Netmap
  import opened Coordinator

  /** Every mutation announced up to generation g had been made when list k was current. */
  ghost predicate Covered(st: Sys, g: nat, k: nat) {
    forall j :: 0 <= j < |st.bumps| && j + 2 <= g ==> st.bumps[j] <= k
  }

  predicate KeepsMachines(xs: seq<Node>, ys: seq<Node>) {
    |xs| <= |ys| && forall i :: 0 <= i < |xs| ==> xs[i].machineKey == ys[i].machineKey
  }

  ghost predicate Base(st: Sys) {
    && st.gen == 1 + |st.bumps|
    && st.hist != [] && st.hist[|st.hist| - 1] == st.mem.nodes
    && (forall j :: 0 <= j < |st.bumps| ==> st.bumps[j] < |st.hist|)
    && (forall i :: 0 <= i < |st.hist| ==> KeepsMachines(st.hist[i], st.mem.nodes))
  }

  /** `self` is the machine's node in list k. */
  ghost predicate SelfAt(st: Sys, machine: string, self: Node, k: nat) {
    && k < |st.hist| && Registered(st.hist[k], machine)
    && self == st.hist[k][FindNode(st.hist[k], machine)]
  }

  /** `self` was looked up in list k at generation g. */
  ghost predicate FoundAt(st: Sys, machine: string, self: Node, k: nat, g: nat) {
    SelfAt(st, machine, self, k) && g <= st.gen && Covered(st, g, k)
  }

  ghost predicate LiveOk(st: Sys, machine: string, m: Live) {
    && m.lastGen <= st.gen && SelfAt(st, machine, m.self, m.selfSeen)
    && m.seen < |st.hist| && m.list == st.hist[m.seen]
    && (m.refreshed ==> Covered(st, m.lastGen, m.seen) && Covered(st, m.lastGen, m.selfSeen))
  }

  ghost predicate PhaseOk(st: Sys, machine: string, p: Phase) {
    match p
    case RegBump(at) => at < |st.hist|
    case MapBump(_, at) => at < |st.hist|
    case HangBump(at) => at < |st.hist|
    case MapNodes(_, self, selfSeen, genFind) => FoundAt(st, machine, self, selfSeen, genFind)
    case MapLive(self, selfSeen, list, seen, genFind) =>
      && FoundAt(st, machine, self, selfSeen, genFind)
      && selfSeen <= seen < |st.hist| && list == st.hist[seen]
    case TickFind(gen, _) => gen <= st.gen && Covered(st, gen, Now(st))
    case TickNodes(gen, _, found, selfSeen) =>
      && gen <= st.gen && Covered(st, gen, Now(st)) && Covered(st, gen, selfSeen)
      && (found.Some? ==> SelfAt(st, machine, found.value, selfSeen))
    case _ => true
  }

  /** The tick has brought the streams before the i-th to its generation. */
  predicate TickedSoFar(x: Conn, gen: nat, i: nat) {
    forall k :: 0 <= k < |x.live| && k < i ==> x.live[k].lastGen == gen
  }

  ghost predicate ConnOk(st: Sys, x: Conn) {
    && PhaseOk(st, x.machine, x.phase)
    && (x.phase.TickFind? || x.phase.TickNodes? ==> TickedSoFar(x, x.phase.gen, x.phase.i))
    && (x.phase.TickNodes? && x.live != [] ==> x.phase.found.Some?)
    && forall i :: 0 <= i < |x.live| ==> LiveOk(st, x.machine, x.live[i])
  }

  ghost predicate FanInv(st: Sys) {
    Base(st) && forall c :: c in st.conns ==> ConnOk(st, st.conns[c])
  }

  // ---------------------------------------------------------------- monotonicity

  ghost predicate Extends(st: Sys, st': Sys) {
    st.hist <= st'.hist && st.bumps <= st'.bumps
  }

  lemma CoveredKept(st: Sys, st': Sys, g: nat, k: nat, k': nat)
    requires Base(st) && Base(st') && Extends(st, st') && g <= st.gen && k <= k' && Covered(st, g, k)
    ensures Covered(st', g, k')
  {
    forall j | 0 <= j < |st'.bumps| && j + 2 <= g
      ensures st'.bumps[j] <= k'
    {
      assert st'.bumps[j] == st.bumps[j];
    }
  }

  /** Everything announced so far is in the current list. */
  lemma CoveredNow(st: Sys)
    requires Base(st)
    ensures Covered(st, st.gen, Now(st))
  {
  }

  lemma SelfAtKept(st: Sys, st': Sys, machine: string, self: Node, k: nat)
    requires Extends(st, st') && SelfAt(st, machine, self, k)
    ensures SelfAt(st', machine, self, k)
  {
    assert st'.hist[k] == st.hist[k];
  }

  lemma FoundAtKept(st: Sys, st': Sys, machine: string, self: Node, k: nat, g: nat)
    requires Base(st) && Base(st') && Extends(st, st') && FoundAt(st, machine, self, k, g)
    ensures FoundAt(st', machine, self, k, g)
  {
    SelfAtKept(st, st', machine, self, k);
    CoveredKept(st, st', g, k, k);
  }

  lemma LiveKept(st: Sys, st': Sys, machine: string, m: Live)
    requires Base(st) && Base(st') && Extends(st, st') && LiveOk(st, machine, m)
    ensures LiveOk(st', machine, m)
  {
    SelfAtKept(st, st', machine, m.self, m.selfSeen);
    assert st'.hist[m.seen] == st.hist[m.seen];
    if m.refreshed {
      CoveredKept(st, st', m.lastGen, m.seen, m.seen);
      CoveredKept(st, st', m.lastGen, m.selfSeen, m.selfSeen);
    }
  }

  lemma PhaseKept(st: Sys, st': Sys, machine: string, p: Phase)
    requires Base(st) && Base(st') && Extends(st, st') && PhaseOk(st, machine, p)
    ensures PhaseOk(st', machine, p)
  {
    match p {
      case MapNodes(_, self, selfSeen, genFind) => FoundAtKept(st, st', machine, self, selfSeen, genFind);
      case MapLive(self, selfSeen, _, seen, genFind) =>
        FoundAtKept(st, st', machine, self, selfSeen, genFind);
        assert st'.hist[seen] == st.hist[seen];
      case TickFind(gen, _) => CoveredKept(st, st', gen, Now(st), Now(st'));
      case TickNodes(gen, _, found, selfSeen) =>
        CoveredKept(st, st', gen, Now(st), Now(st'));
        CoveredKept(st, st', gen, selfSeen, selfSeen);
        if found.Some? {
          SelfAtKept(st, st', machine, found.value, selfSeen);
        }
      case _ =>
    }
  }

  lemma ConnKept(st: Sys, st': Sys, x: Conn)
    requires Base(st) && Base(st') && Extends(st, st') && ConnOk(st, x)
    ensures ConnOk(st', x)
  {
    PhaseKept(st, st', x.machine, x.phase);
    forall i | 0 <= i < |x.live|
      ensures LiveOk(st', x.machine, x.live[i])
    {
      LiveKept(st, st', x.machine, x.live[i]);
    }
  }

  // ---------------------------------------------------------------- steps

  /** A step of connection c: shared state only grows, other connections stay, and c ends well. */
  ghost predicate GoodMove(st: Sys, st': Sys, c: nat) {
    && Base(st') && Extends(st, st') && c in st'.conns && ConnOk(st', st'.conns[c])
    && forall d :: d in st'.conns && d != c ==> d in st.conns && st'.conns[d] == st.conns[d]
  }

  lemma MoveKeeps(st: Sys, st': Sys, c: nat)
    requires FanInv(st) && GoodMove(st, st', c)
    ensures FanInv(st')
  {
    forall d | d in st'.conns && d != c
      ensures ConnOk(st', st'.conns[d])
    {
      ConnKept(st, st', st.conns[d]);
    }
  }

  /** The connection moved to phase p after the shared state went from st to st1. */
  lemma Moved(st: Sys, st1: Sys, c: nat, p: Phase)
    requires FanInv(st) && c in st.conns && st1.conns == st.conns
    requires Base(st1) && Extends(st, st1) && PhaseOk(st1, st.conns[c].machine, p) && !p.TickNodes?
    requires p.TickFind? ==> TickedSoFar(st.conns[c], p.gen, p.i)
    ensures GoodMove(st, Go(st1, c, p), c)
  {
    var x, st' := st.conns[c], Go(st1, c, p);
    assert Base(st') && Extends(st, st');
    PhaseKept(st1, st', x.machine, p);
    forall i | 0 <= i < |x.live|
      ensures LiveOk(st', x.machine, x.live[i])
    {
      LiveKept(st, st', x.machine, x.live[i]);
    }
  }

  lemma SetNodesBase(st: Sys, nodes: seq<Node>)
    requires Base(st) && KeepsMachines(st.mem.nodes, nodes)
    ensures Base(SetNodes(st, nodes)) && Extends(st, SetNodes(st, nodes))
  {
    var st' := SetNodes(st, nodes);
    forall i | 0 <= i < |st'.hist|
      ensures KeepsMachines(st'.hist[i], nodes)
    {
      if i < |st.hist| {
        assert st'.hist[i] == st.hist[i];
      }
    }
  }

  lemma BumpBase(st: Sys, at: nat)
    requires Base(st) && at < |st.hist|
    ensures Base(Bump(st, at)) && Extends(st, Bump(st, at))
  {
  }

  lemma MachinesOnline(nodes: seq<Node>, machine: string, online: bool)
    ensures KeepsMachines(nodes, SetOnline(nodes, machine, online))
  {
  }

  lemma MachinesInformed(nodes: seq<Node>, machine: string, u: MapInfo)
    ensures KeepsMachines(nodes, UpdateMapInfo(nodes, machine, u))
  {
  }

  lemma MachinesRegistered(p: Pool, m: Mem, r: Registration)
    requires |p.alloc.base6| == 16
    ensures KeepsMachines(m.nodes, Register(p, m, r).0.nodes)
    ensures Register(p, m, r).1.None? ==> Register(p, m, r).0.nodes == m.nodes
  {
  }

  /** Saving, and what else is not node lists, generations or connections, does not matter. */
  ghost predicate SameShared(st: Sys, st': Sys) {
    st'.mem.nodes == st.mem.nodes && st'.hist == st.hist && st'.bumps == st.bumps && st'.gen == st.gen
  }

  lemma SameBase(st: Sys, st': Sys)
    requires Base(st) && SameShared(st, st')
    ensures Base(st') && Extends(st, st')
  {
  }

  lemma RegisteredBase(cfg: Config, st: Sys, m: Mem, attempts: nat)
    requires Base(st) && KeepsMachines(st.mem.nodes, m.nodes)
    ensures var st' := Save(cfg, st.(attempts := attempts, mem := m, hist := st.hist + [m.nodes]));
            Base(st') && Extends(st, st')
  {
    SetNodesBase(st, m.nodes);
    SameBase(SetNodes(st, m.nodes), Save(cfg, st.(attempts := attempts, mem := m, hist := st.hist + [m.nodes])));
  }

  lemma RegisterMove(cfg: Config, st: Sys, c: nat, reg: Registration)
    requires Runnable(cfg) && FanInv(st) && c in st.conns
    ensures GoodMove(st, DoRegister(cfg, st, c, reg), c)
  {
    MachinesRegistered(cfg.pool, st.mem, reg);
    var st' := DoRegister(cfg, st, c, reg);
    var st1 := st'.(conns := st.conns);
    if Register(cfg.pool, st.mem, reg).1.None? {
      SameBase(st, st1);
    } else {
      RegisteredBase(cfg, st, st'.mem, st'.attempts);
      assert st1 == Save(cfg, st.(attempts := st'.attempts, mem := st'.mem, hist := st.hist + [st'.mem.nodes]));
    }
    Moved(st, st1, c, st'.conns[c].phase);
  }

  lemma ConsumeMove(cfg: Config, st: Sys, c: nat, req: RegisterRequest, now: int)
    requires FanInv(st) && c in st.conns
    ensures GoodMove(st, DoConsume(cfg, st, c, req, now), c)
  {
    var r := Consume(st.mem.keys, req.auth, now);
    if r.None? {
      Moved(st, st, c, Idle);
    } else {
      var st' := DoConsume(cfg, st, c, req, now);
      var st1 := st'.(conns := st.conns);
      SameBase(st, st1);
      Moved(st, st1, c, st'.conns[c].phase);
    }
  }

  lemma OnlineMove(st: Sys, c: nat, online: bool, p: Phase)
    requires FanInv(st) && c in st.conns
    requires p.Idle? || p.MapFind? || p == HangBump(|st.hist|)
    ensures GoodMove(st, Go(SetNodes(st, SetOnline(st.mem.nodes, st.conns[c].machine, online)), c, p), c)
  {
    var nodes := SetOnline(st.mem.nodes, st.conns[c].machine, online);
    MachinesOnline(st.mem.nodes, st.conns[c].machine, online);
    SetNodesBase(st, nodes);
    Moved(st, SetNodes(st, nodes), c, p);
  }

  lemma BumpMove(st: Sys, c: nat, at: nat, p: Phase)
    requires FanInv(st) && c in st.conns && at < |st.hist| && (p.Idle? || p.MapOnline? || p.Gone?)
    ensures GoodMove(st, Go(Bump(st, at), c, p), c)
  {
    BumpBase(st, at);
    Moved(st, Bump(st, at), c, p);
  }

  lemma MapNodesMove(st: Sys, c: nat, req: MapRequest, self: Node, selfSeen: nat, genFind: nat)
    requires FanInv(st) && c in st.conns && st.conns[c].phase == MapNodes(req, self, selfSeen, genFind)
    ensures GoodMove(st, DoMapNodes(st, c, req, self, selfSeen, genFind), c)
  {
    assert ConnOk(st, st.conns[c]);
    var st1 := st.(served := st.served + [Served(self, st.mem.nodes)]);
    SameBase(st, st1);
    var p := if req.stream then MapLive(self, selfSeen, st.mem.nodes, Now(st), genFind) else Idle;
    if req.stream {
      FoundAtKept(st, st1, st.conns[c].machine, self, selfSeen, genFind);
    }
    Moved(st, st1, c, p);
  }

  lemma MapLiveMove(st: Sys, c: nat)
    requires FanInv(st) && c in st.conns && st.conns[c].phase.MapLive?
    ensures var p := st.conns[c].phase;
            GoodMove(st, DoMapLive(st, c, p.self, p.selfSeen, p.list, p.seen), c)
  {
    var x := st.conns[c];
    assert ConnOk(st, x);
    var MapLive(self, selfSeen, list, seen, _) := x.phase;
    var st' := DoMapLive(st, c, self, selfSeen, list, seen);
    SameBase(st, st');
    var live := st'.conns[c].live;
    forall i | 0 <= i < |live|
      ensures LiveOk(st', x.machine, live[i])
    {
      if i < |x.live| {
        LiveKept(st, st', x.machine, x.live[i]);
      } else {
        SelfAtKept(st, st', x.machine, self, selfSeen);
      }
    }
  }

  /** The node of a connection with a live stream is still there. */
  lemma StillRegistered(st: Sys, x: Conn)
    requires Base(st) && ConnOk(st, x) && x.live != []
    ensures FindSelf(st, x.machine).Some?
  {
    var m := x.live[0];
    assert LiveOk(st, x.machine, m);
    assert KeepsMachines(st.hist[m.selfSeen], st.mem.nodes);
    var i := FindNode(st.hist[m.selfSeen], x.machine);
    assert st.mem.nodes[i].machineKey == x.machine;
  }

  lemma LivesKept(st: Sys, st': Sys, x: Conn)
    requires Base(st) && Base(st') && Extends(st, st') && ConnOk(st, x)
    ensures forall k :: 0 <= k < |x.live| ==> LiveOk(st', x.machine, x.live[k])
  {
    forall k | 0 <= k < |x.live|
      ensures LiveOk(st', x.machine, x.live[k])
    {
      LiveKept(st, st', x.machine, x.live[k]);
    }
  }

  lemma TickLookupMove(st: Sys, c: nat, gen: nat, i: nat)
    requires FanInv(st) && c in st.conns && st.conns[c].phase == TickFind(gen, i) && st.conns[c].live != []
    ensures GoodMove(st, Go(st, c, TickNodes(gen, i, FindSelf(st, st.conns[c].machine), Now(st))), c)
  {
    var x := st.conns[c];
    assert ConnOk(st, x);
    var p := TickNodes(gen, i, FindSelf(st, x.machine), Now(st));
    var st' := Go(st, c, p);
    SameBase(st, st');
    StillRegistered(st, x);
    assert PhaseOk(st, x.machine, p);
    PhaseKept(st, st', x.machine, p);
    LivesKept(st, st', x);
  }

  lemma TickFindMove(st: Sys, c: nat, gen: nat, i: nat)
    requires FanInv(st) && c in st.conns && st.conns[c].phase == TickFind(gen, i)
    ensures GoodMove(st, DoTickFind(st, c, gen, i), c)
  {
    var x := st.conns[c];
    if i >= |x.live| {
      TickEndMove(st, c);
    } else if gen == x.live[i].lastGen {
      TickSkipMove(st, c, gen, i);
    } else {
      TickLookupMove(st, c, gen, i);
    }
  }

  lemma TickEndMove(st: Sys, c: nat)
    requires FanInv(st) && c in st.conns
    ensures GoodMove(st, Go(st, c, Idle), c)
  {
    SameBase(st, st);
    Moved(st, st, c, Idle);
  }

  lemma TickSkipMove(st: Sys, c: nat, gen: nat, i: nat)
    requires FanInv(st) && c in st.conns && st.conns[c].phase == TickFind(gen, i)
    requires i < |st.conns[c].live| && gen == st.conns[c].live[i].lastGen
    ensures GoodMove(st, Go(st, c, TickFind(gen, i + 1)), c)
  {
    assert ConnOk(st, st.conns[c]);
    SameBase(st, st);
    Moved(st, st, c, TickFind(gen, i + 1));
  }

  /** The entry that a tick refreshes. */
  lemma RefreshedLive(st: Sys, st': Sys, machine: string, m: Live, gen: nat, self: Node, selfSeen: nat)
    requires Base(st) && Base(st') && Extends(st, st') && SameShared(st, st') && gen <= st.gen
    requires SelfAt(st, machine, self, selfSeen) && Covered(st, gen, Now(st)) && Covered(st, gen, selfSeen)
    ensures LiveOk(st', machine, Refresh(st, m, gen, Some(self), selfSeen))
  {
    SelfAtKept(st, st', machine, self, selfSeen);
    CoveredKept(st, st', gen, Now(st), Now(st));
    CoveredKept(st, st', gen, selfSeen, selfSeen);
  }

  lemma UpdatedLives(st: Sys, machine: string, live: seq<Live>, i: nat, m: Live)
    requires i < |live| && LiveOk(st, machine, m)
    requires forall k :: 0 <= k < |live| ==> LiveOk(st, machine, live[k])
    ensures var live' := live[i := m];
            forall k :: 0 <= k < |live'| ==> LiveOk(st, machine, live'[k])
  {
  }

  lemma TickPushMove(st: Sys, c: nat)
    requires FanInv(st) && c in st.conns && st.conns[c].phase.TickNodes?
    requires st.conns[c].phase.i < |st.conns[c].live|
    ensures var p := st.conns[c].phase;
            GoodMove(st, DoTickNodes(st, c, p.gen, p.i, p.found, p.selfSeen), c)
  {
    var x := st.conns[c];
    assert ConnOk(st, x);
    var TickNodes(gen, i, found, selfSeen) := x.phase;
    var st' := DoTickNodes(st, c, gen, i, found, selfSeen);
    SameBase(st, st');
    PhaseKept(st, st', x.machine, TickFind(gen, i + 1));
    LivesKept(st, st', x);
    RefreshedLive(st, st', x.machine, x.live[i], gen, found.value, selfSeen);
    UpdatedLives(st', x.machine, x.live, i, Refresh(st, x.live[i], gen, found, selfSeen));
  }

  lemma TickNodesMove(cfg: Config, st: Sys, c: nat, now: int)
    requires Runnable(cfg) && FanInv(st) && c in st.conns && st.conns[c].phase.TickNodes?
    ensures GoodMove(st, StepAdvance(cfg, st, c, now), c)
  {
    if st.conns[c].phase.i >= |st.conns[c].live| {
      TickEndMove(st, c);
    } else {
      TickPushMove(st, c);
    }
  }

  lemma MapFindMove(st: Sys, c: nat, req: MapRequest)
    requires FanInv(st) && c in st.conns
    ensures GoodMove(st, DoMapFind(st, c, req), c)
  {
    CoveredNow(st);
    Moved(st, st, c, DoMapFind(st, c, req).conns[c].phase);
  }

  lemma KeysMove(st: Sys, st1: Sys, c: nat, p: Phase)
    requires FanInv(st) && c in st.conns && SameShared(st, st1) && st1.conns == st.conns
    requires p.RegInstall? || p.RegConsume? || p.RegStore? || p.RegReadDisk? || p.Idle? || p.MapOnline?
    ensures GoodMove(st, Go(st1, c, p), c)
  {
    SameBase(st, st1);
    Moved(st, st1, c, p);
  }

  lemma AdvanceKeeps(cfg: Config, st: Sys, c: nat, now: int)
    requires Runnable(cfg) && FanInv(st) && c in st.conns
    ensures GoodMove(st, StepAdvance(cfg, st, c, now), c)
  {
    assert ConnOk(st, st.conns[c]);
    match st.conns[c].phase {
      case Idle => SameBase(st, st);
      case Gone => SameBase(st, st);
      case RegReadDisk(req) => KeysMove(st, st, c, RegInstall(req, KeysOnDisk(cfg.hasPath, FileOf(st))));
      case RegInstall(req, captured) =>
        KeysMove(st, if captured.Some? then SetKeys(st, captured.value) else st, c, RegConsume(req));
      case RegConsume(req) => ConsumeMove(cfg, st, c, req, now);
      case RegStore(reg) => RegisterMove(cfg, st, c, reg);
      case RegBump(at) => BumpMove(st, c, at, Idle);
      case MapBump(req, at) => BumpMove(st, c, at, MapOnline(req));
      case MapOnline(req) =>
        OnlineMove(st, c, true, if req.omitPeers && !req.stream then Idle else MapFind(req));
      case MapFind(req) => MapFindMove(st, c, req);
      case MapNodes(req, self, selfSeen, genFind) => MapNodesMove(st, c, req, self, selfSeen, genFind);
      case MapLive(_, _, _, _, _) => MapLiveMove(st, c);
      case TickFind(gen, i) => TickFindMove(st, c, gen, i);
      case TickNodes(_, _, _, _) => TickNodesMove(cfg, st, c, now);
      case HangBump(at) => BumpMove(st, c, at, Gone);
    }
  }

  lemma AskMapMove(cfg: Config, st: Sys, c: nat, req: MapRequest)
    requires FanInv(st) && c in st.conns
    ensures GoodMove(st, BeginMap(cfg, st, c, req), c)
  {
    if req.stream && req.version >= 68 {
      KeysMove(st, st, c, MapOnline(req));
    } else {
      var machine := st.conns[c].machine;
      var nodes := UpdateMapInfo(st.mem.nodes, machine, req.info);
      MachinesInformed(st.mem.nodes, machine, req.info);
      SetNodesBase(st, nodes);
      var st1 := SetNodes(st, nodes);
      var st2 := if Registered(st.mem.nodes, machine) then Save(cfg, st1) else st1;
      SameBase(st1, st2);
      Moved(st, st2, c, MapBump(req, |st.hist|));
    }
  }

  lemma StartFan(cfg: Config, st: Sys, st': Sys)
    requires Restarted(cfg, st, st')
    ensures FanInv(st')
  {
  }

  /** Steps that no connection takes. */
  lemma IdleKeeps(st: Sys, st': Sys)
    requires FanInv(st) && SameShared(st, st') && st'.conns == st.conns
    ensures FanInv(st')
  {
    SameBase(st, st');
    forall c | c in st'.conns
      ensures ConnOk(st', st'.conns[c])
    {
      ConnKept(st, st', st.conns[c]);
    }
  }

  lemma ConnStepKeeps(cfg: Config, st: Sys, ev: Event)
    requires Runnable(cfg) && FanInv(st)
    requires ev.AskRegister? || ev.AskMap? || ev.Tick? || ev.Hangup?
    requires AtRest(st, ev.c)
    ensures GoodMove(st, Step(cfg, st, ev), ev.c)
  {
    match ev {
      case AskRegister(c, req) =>
        if Registered(st.mem.nodes, st.conns[c].machine) || req.auth != "" {
          KeysMove(st, st, c, BeginRegister(st, c, req).conns[c].phase);
        } else {
          assert ConnOk(st, st.conns[c]);
        }
      case AskMap(c, req) => AskMapMove(cfg, st, c, req);
      case Tick(c) =>
        CoveredNow(st);
        Moved(st, st, c, TickFind(st.gen, 0));
      case Hangup(c) => OnlineMove(st, c, false, HangBump(|st.hist|));
    }
  }

  lemma StepKeeps(cfg: Config, st: Sys, ev: Event)
    requires Runnable(cfg) && FanInv(st)
    ensures FanInv(Step(cfg, st, ev))
  {
    var st' := Step(cfg, st, ev);
    if st' == st {
    } else if ev.Restart? {
      StartRestarts(cfg, st, ev.generated, ev.secret);
      StartFan(cfg, st, st');
    } else if ev.CreateKey? || ev.Persist? {
      IdleKeeps(st, st');
    } else if ev.Connect? {
      SameBase(st, st');
      MoveKeeps(st, st', ev.c);
    } else {
      if ev.Advance? {
        AdvanceKeeps(cfg, st, ev.c, ev.now);
      } else {
        ConnStepKeeps(cfg, st, ev);
      }
      MoveKeeps(st, st', ev.c);
    }
  }

  lemma {:induction false} FanoutInvariant(cfg: Config, evs: seq<Event>)
    requires Runnable(cfg)
    ensures FanInv(Run(cfg, evs))
  {
    if evs == [] {
      var before := Sys(EMPTY_MEM, None, 1, map[], 0, [], [], [], 0, []);
      StartRestarts(cfg, before, cfg.firstNoise, cfg.firstSecret);
      StartFan(cfg, before, Run(cfg, evs));
    } else {
      FanoutInvariant(cfg, evs[..|evs| - 1]);
      StepKeeps(cfg, Run(cfg, evs[..|evs| - 1]), evs[|evs| - 1]);
    }
  }

  // ---------------------------------------------------------------- the theorems

  /** Fan-out freshness: in every state of every run, the last map pushed by a tick on a stream was
      built, both halves of it, from node lists no older than any mutation announced by a
      generation up to the stream's. In particular, when the stream is at the current generation,
      its map shows every announced mutation. */
  lemma RefreshedIsFresh(cfg: Config, evs: seq<Event>, c: nat, i: nat, j: nat)
    requires Runnable(cfg) && c in Run(cfg, evs).conns && i < |Run(cfg, evs).conns[c].live|
    requires Run(cfg, evs).conns[c].live[i].refreshed
    requires j < |Run(cfg, evs).bumps| && j + 2 <= Run(cfg, evs).conns[c].live[i].lastGen
    ensures var st := Run(cfg, evs);
            var m := st.conns[c].live[i];
            && st.bumps[j] <= m.seen < |st.hist| && st.bumps[j] <= m.selfSeen < |st.hist|
            && LastMap(cfg, m) == MapFor(m.self, st.hist[m.seen], cfg.domain)
            && SelfAt(st, st.conns[c].machine, m.self, m.selfSeen)
  {
    FanoutInvariant(cfg, evs);
    assert ConnOk(Run(cfg, evs), Run(cfg, evs).conns[c]);
    assert LiveOk(Run(cfg, evs), Run(cfg, evs).conns[c].machine, Run(cfg, evs).conns[c].live[i]);
  }

  /** A tick leaves no stream behind: when its loop is through, every stream of the connection is at
      the generation that the tick read. */
  lemma TickLeavesNoneBehind(cfg: Config, evs: seq<Event>, c: nat, i: nat)
    requires Runnable(cfg) && c in Run(cfg, evs).conns && Run(cfg, evs).conns[c].phase.TickFind?
    requires Run(cfg, evs).conns[c].phase.i >= |Run(cfg, evs).conns[c].live| && i < |Run(cfg, evs).conns[c].live|
    ensures Run(cfg, evs).conns[c].live[i].lastGen == Run(cfg, evs).conns[c].phase.gen
  {
    FanoutInvariant(cfg, evs);
    assert ConnOk(Run(cfg, evs), Run(cfg, evs).conns[c]);
  }

  /** Both halves of a stream's map show every mutation announced up to the stream's generation. */
  ghost predicate Fresh(st: Sys, m: Live) {
    Covered(st, m.lastGen, m.seen) && Covered(st, m.lastGen, m.selfSeen)
  }

  /** The first map of a stream, entered in `live` by the step that reads the generation, is fresh
      exactly when everything announced is in the list in which the map's own node was looked up;
      that look-up comes before the reading of the map's list. */
  lemma FirstEntry(cfg: Config, st: Sys, c: nat, now: int) returns (m: Live)
    requires Runnable(cfg) && FanInv(st) && c in st.conns && st.conns[c].phase.MapLive?
    requires FanInv(Step(cfg, st, Advance(c, now)))
    ensures var st' := Step(cfg, st, Advance(c, now));
            var p := st.conns[c].phase;
            && c in st'.conns && st'.conns[c].live == st.conns[c].live + [m] && m.lastGen == st'.gen
            && LiveOk(st', st.conns[c].machine, m) && m.list == p.list && m.self == p.self
            && (Fresh(st', m) <==> Covered(st, st.gen, p.selfSeen))
  {
    var st', p := Step(cfg, st, Advance(c, now)), st.conns[c].phase;
    assert ConnOk(st, st.conns[c]);
    m := Live(st.gen, p.self, p.selfSeen, p.list, p.seen, false);
    assert st'.conns[c].live[|st.conns[c].live|] == m;
    assert st'.bumps == st.bumps;
  }
}
