/** src/coordinator.cpp as a state machine: one thread per connection, interleaved at the
    granularity of the locks it takes.

    Every handler is split where the source gives up a lock: each `Advance` of a connection runs
    one critical section of whatever it is doing. `live` belongs to one connection's thread, so
    only the store, the generation counter and the state file are shared. `Step` is total: an
    event that a state does not offer leaves it as it is, so a theorem about every sequence of
    events is a theorem about every interleaving. */
module Coordinator {
  import opened Bytes
  import opened StoreModel
  import opened Store
  import opened Netmap

  /** `firstNoise` and `firstSecret` are what the random source gives the first start. */
  datatype Config = Config(hasPath: bool, domain: string, pool: Pool, firstNoise: Bytes32, firstSecret: string)

  ghost predicate ValidConfig(cfg: Config) {
    ValidPool(cfg.pool)
  }

  predicate Runnable(cfg: Config) {
    |cfg.pool.alloc.base6| == 16
  }

  datatype RegisterRequest = RegisterRequest(nodeKey: string, host: string, auth: string, ephemeral: bool)

  datatype MapRequest = MapRequest(version: int, stream: bool, omitPeers: bool, info: MapInfo)

  /** A streaming map. `self` and `list` are what the last full map pushed on it was built from, and
      `selfSeen` and `seen` which versions of the node list they were read from. `refreshed` tells
      a map pushed by a tick from the first one. */
  datatype Live = Live(lastGen: nat, self: Node, selfSeen: nat, list: seq<Node>, seen: nat, refreshed: bool)

  function LastMap(cfg: Config, m: Live): FullMap {
    MapFor(m.self, m.list, cfg.domain)
  }

  /** Where a connection's thread is. `genFind` is history: the generation when a map's own node was
      looked up. */
  datatype Phase =
    | Idle
      // on_register
    | RegReadDisk(req: RegisterRequest)
    | RegInstall(req: RegisterRequest, captured: Option<seq<PreauthKey>>)
    | RegConsume(req: RegisterRequest)
    | RegStore(reg: Registration)
    | RegBump(at: nat)
      // on_map
    | MapBump(mreq: MapRequest, at: nat)
    | MapOnline(mreq: MapRequest)
    | MapFind(mreq: MapRequest)
    | MapNodes(mreq: MapRequest, self: Node, selfSeen: nat, genFind: nat)
    | MapLive(self: Node, selfSeen: nat, list: seq<Node>, seen: nat, genFind: nat)
      // the tick
    | TickFind(gen: nat, i: nat)
    | TickNodes(gen: nat, i: nat, found: Option<Node>, selfSeen: nat)
      // the end of serve_h2
    | HangBump(at: nat)
    | Gone

  datatype Conn = Conn(machine: string, phase: Phase, live: seq<Live>)

  /** A successful consume_preauth: for which machine, and by which process. */
  datatype Grant = Grant(machine: string, secret: string, reusable: bool, claim: PreauthClaim, epoch: nat)

  /** A map that was built: for whom, and from which node list. */
  datatype Served = Served(self: Node, list: seq<Node>)

  /** `disk` is the memory whose snapshot the state file holds. The rest is history: `hist` are the
      node lists of this process in order, `bumps[j]` is the list that the bump to generation
      j + 2 announces, `grants`, `attempts` and `served` are what happened. */
  datatype Sys = Sys(mem: Mem, disk: Option<Mem>, gen: nat, conns: map<nat, Conn>, epoch: nat,
                     hist: seq<seq<Node>>, bumps: seq<nat>, grants: seq<Grant>, attempts: nat, served: seq<Served>)

  datatype Event =
    | Connect(c: nat, machine: string)
    | AskRegister(c: nat, req: RegisterRequest)
    | AskMap(c: nat, mreq: MapRequest)
    | Tick(c: nat)
    | Hangup(c: nat)
    | Advance(c: nat, now: int)
    | CreateKey(ask: KeyRequest)
    | Persist
    | Restart(generated: Bytes32, secret: string)

  // ---------------------------------------------------------------- pieces of a step

  function Go(st: Sys, c: nat, p: Phase): Sys
    requires c in st.conns
  {
    st.(conns := st.conns[c := st.conns[c].(phase := p)])
  }

  function Save(cfg: Config, st: Sys): Sys {
    st.(disk := if cfg.hasPath then Some(st.mem) else st.disk)
  }

  function SetKeys(st: Sys, keys: seq<PreauthKey>): Sys {
    st.(mem := st.mem.(keys := keys))
  }

  function SetNodes(st: Sys, nodes: seq<Node>): Sys {
    st.(mem := st.mem.(nodes := nodes), hist := st.hist + [nodes])
  }

  /** bump_map, by the handler whose mutation made the list at `at`. */
  function Bump(st: Sys, at: nat): Sys {
    st.(gen := st.gen + 1, bumps := st.bumps + [at])
  }

  /** The version of the node list that is current. */
  function Now(st: Sys): nat {
    if st.hist == [] then 0 else |st.hist| - 1
  }

  function FileOf(st: Sys): Option<Json> {
    if st.disk.Some? then Some(Snapshot(st.disk.value)) else None
  }

  /** The file changes only by saving what is in memory. */
  ghost predicate DiskFollows(cfg: Config, st: Sys, st': Sys) {
    st'.disk == st.disk || (cfg.hasPath && st'.disk == Some(st'.mem))
  }

  // ---------------------------------------------------------------- start and restart

  /** The key that a coordinator makes when its store has none. */
  function BootKey(secret: string): PreauthKey {
    NewKey(secret, true, false, 0, 0, "", None)
  }

  /** It is reusable and never expires, makes persistent nodes, and has no token, so it is shared. */
  lemma BootKeyIs(secret: string)
    ensures BootKey(secret) == PreauthKey(secret, true, false, false, 0, "", true)
  {
  }

  /** The constructor of the coordinator: load the store, and make a first key if it has none. */
  function BootMem(cfg: Config, disk: Option<Mem>, generated: Bytes32, secret: string): Mem {
    var m := Loaded(cfg.hasPath, if disk.Some? then Some(Snapshot(disk.value)) else None, generated);
    if m.keys == [] then m.(keys := [BootKey(secret)]) else m
  }

  /** A load saves when it had to make a noise key, and making a first key saves. */
  function BootDisk(cfg: Config, disk: Option<Mem>, generated: Bytes32, secret: string): Option<Mem> {
    if !cfg.hasPath then disk else
    var m := if disk.Some? then ApplySnapshot(EMPTY_MEM, Snapshot(disk.value)) else EMPTY_MEM;
    if m.noise == Zeros(32) || m.keys == [] then Some(BootMem(cfg, disk, generated, secret)) else disk
  }

  /** A new process: memory comes from the file, connections and generations are gone. What was
      served is forgotten together with the store when there is no file. */
  function Start(cfg: Config, st: Sys, generated: Bytes32, secret: string): Sys {
    var m := BootMem(cfg, st.disk, generated, secret);
    Sys(m, BootDisk(cfg, st.disk, generated, secret), 1, map[], st.epoch + 1, [m.nodes], [], st.grants,
        st.attempts, if cfg.hasPath then st.served else [])
  }

  function Initial(cfg: Config, generated: Bytes32, secret: string): Sys {
    Start(cfg, Sys(EMPTY_MEM, None, 1, map[], 0, [], [], [], 0, []), generated, secret)
  }

  /** What a start makes of the nodes, counters and keys: with a file, what its narrowing left of
      them; without one, nothing. */
  ghost predicate Restarted(cfg: Config, st: Sys, st': Sys) {
    && st'.attempts == st.attempts && st'.grants == st.grants && st'.epoch == st.epoch + 1 && st'.conns == map[]
    && st'.gen == 1 && st'.bumps == [] && st'.hist == [st'.mem.nodes]
    && st'.served == (if cfg.hasPath then st.served else [])
    && (if cfg.hasPath && st.disk.Some? then
          var d := st.disk.value;
          && st'.mem.nodes == Narrowed(d).nodes
          && st'.mem.nextId == LoadU64(d.nextId) && st'.mem.nextIp == d.nextIp
          && (d.keys != [] ==> st'.mem.keys == NarrowedKeys(d.keys))
        else st'.mem.nodes == [] && st'.mem.nextId == 1 && st'.mem.nextIp == 1)
    && DiskFollows(cfg, st, st') && (cfg.hasPath ==> st'.disk.Some?)
  }

  lemma StartRestarts(cfg: Config, st: Sys, generated: Bytes32, secret: string)
    ensures Restarted(cfg, st, Start(cfg, st, generated, secret))
  {
    if st.disk.Some? {
      SaveThenLoad(EMPTY_MEM, st.disk.value);
    }
  }

  /** Memory and file after a start are what the Store's constructor leaves, and a first key made and
      saved if that found none. */
  lemma StartMatchesStore(cfg: Config, st: Sys, generated: Bytes32, secret: string)
    ensures var loaded := Loaded(cfg.hasPath, FileOf(st), generated);
            var file := FileAfterLoad(cfg.hasPath, FileOf(st), generated);
            var st' := Start(cfg, st, generated, secret);
            && st'.mem == (if loaded.keys == [] then loaded.(keys := [BootKey(secret)]) else loaded)
            && FileOf(st') == (if loaded.keys == [] then Saved(cfg.hasPath, file, st'.mem) else file)
  {
  }

  // ---------------------------------------------------------------- handlers

  /** The first critical section of on_register: find_by_machine. A known machine needs no key. */
  function BeginRegister(st: Sys, c: nat, req: RegisterRequest): Sys
    requires c in st.conns
  {
    var machine := st.conns[c].machine;
    if Registered(st.mem.nodes, machine) then
      Go(st, c, RegStore(Registration(machine, req.nodeKey, req.host, req.ephemeral, "", false)))
    else if req.auth == "" then st
    else Go(st, c, RegReadDisk(req))
  }

  function DoConsume(cfg: Config, st: Sys, c: nat, req: RegisterRequest, now: int): Sys
    requires c in st.conns
  {
    match Consume(st.mem.keys, req.auth, now)
    case None => Go(st, c, Idle)
    case Some((claim, keys)) =>
      var reusable := st.mem.keys[FindKey(st.mem.keys, req.auth)].reusable;
      var reg := Registration(st.conns[c].machine, req.nodeKey, req.host, claim.ephemeral, claim.token, claim.shared);
      var st1 := Save(cfg, SetKeys(st, keys));
      Go(st1.(grants := st.grants + [Grant(reg.machine, req.auth, reusable, claim, st.epoch)]), c, RegStore(reg))
  }

  /** register_node. Where it throws, the connection's thread ends without a bump. */
  function DoRegister(cfg: Config, st: Sys, c: nat, reg: Registration): Sys
    requires c in st.conns && Runnable(cfg)
  {
    var (m, node) := Register(cfg.pool, st.mem, reg);
    var st1 := st.(attempts := if Registered(st.mem.nodes, reg.machine) then st.attempts else st.attempts + 1);
    if node.None? then Go(st1.(mem := m), c, Gone)
    else
      var st2 := Save(cfg, st1.(mem := m, hist := st.hist + [m.nodes]));
      Go(st2, c, RegBump(|st.hist|))
  }

  /** The first critical section of on_map: update_map_info, or nothing for a read-only stream. */
  function BeginMap(cfg: Config, st: Sys, c: nat, req: MapRequest): Sys
    requires c in st.conns
  {
    if req.stream && req.version >= 68 then Go(st, c, MapOnline(req)) else
    var st1 := SetNodes(st, UpdateMapInfo(st.mem.nodes, st.conns[c].machine, req.info));
    var st2 := if Registered(st.mem.nodes, st.conns[c].machine) then Save(cfg, st1) else st1;
    Go(st2, c, MapBump(req, |st.hist|))
  }

  function DoOnline(st: Sys, c: nat, req: MapRequest): Sys
    requires c in st.conns
  {
    var st1 := SetNodes(st, SetOnline(st.mem.nodes, st.conns[c].machine, true));
    Go(st1, c, if req.omitPeers && !req.stream then Idle else MapFind(req))
  }

  function FindSelf(st: Sys, machine: string): Option<Node> {
    if Registered(st.mem.nodes, machine) then Some(st.mem.nodes[FindNode(st.mem.nodes, machine)]) else None
  }

  function DoMapFind(st: Sys, c: nat, req: MapRequest): Sys
    requires c in st.conns
  {
    match FindSelf(st, st.conns[c].machine)
    case None => Go(st, c, Idle)
    case Some(self) => Go(st, c, MapNodes(req, self, Now(st), st.gen))
  }

  /** nodes() and build_full_map: the first map. */
  function DoMapNodes(st: Sys, c: nat, req: MapRequest, self: Node, selfSeen: nat, genFind: nat): Sys
    requires c in st.conns
  {
    var st1 := st.(served := st.served + [Served(self, st.mem.nodes)]);
    Go(st1, c, if req.stream then MapLive(self, selfSeen, st.mem.nodes, Now(st), genFind) else Idle)
  }

  /** Reading the generation and entering the stream in `live`. */
  function DoMapLive(st: Sys, c: nat, self: Node, selfSeen: nat, list: seq<Node>, seen: nat): Sys
    requires c in st.conns
  {
    var x := st.conns[c];
    st.(conns := st.conns[c := Conn(x.machine, Idle, x.live + [Live(st.gen, self, selfSeen, list, seen, false)])])
  }

  /** One entry of the tick's loop: skip it, or look its node up. */
  function DoTickFind(st: Sys, c: nat, gen: nat, i: nat): Sys
    requires c in st.conns
  {
    var x := st.conns[c];
    if i >= |x.live| then Go(st, c, Idle)
    else if gen == x.live[i].lastGen then Go(st, c, TickFind(gen, i + 1))
    else Go(st, c, TickNodes(gen, i, FindSelf(st, x.machine), Now(st)))
  }

  /** find_by_machine gave `found`; nodes() and build_full_map push the map of that node. */
  function Refresh(st: Sys, m: Live, gen: nat, found: Option<Node>, selfSeen: nat): Live {
    match found
    case None => m.(lastGen := gen)
    case Some(self) => Live(gen, self, selfSeen, st.mem.nodes, Now(st), true)
  }

  function DoTickNodes(st: Sys, c: nat, gen: nat, i: nat, found: Option<Node>, selfSeen: nat): Sys
    requires c in st.conns
  {
    var x := st.conns[c];
    if i >= |x.live| then Go(st, c, Idle) else
    var live := x.live[i := Refresh(st, x.live[i], gen, found, selfSeen)];
    var st1 := if found.Some? then st.(served := st.served + [Served(found.value, st.mem.nodes)]) else st;
    st1.(conns := st.conns[c := Conn(x.machine, TickFind(gen, i + 1), live)])
  }

  function BeginHangup(st: Sys, c: nat): Sys
    requires c in st.conns
  {
    var st1 := SetNodes(st, SetOnline(st.mem.nodes, st.conns[c].machine, false));
    Go(st1, c, HangBump(|st.hist|))
  }

  function StepAdvance(cfg: Config, st: Sys, c: nat, now: int): Sys
    requires c in st.conns && Runnable(cfg)
  {
    match st.conns[c].phase
    case Idle => st
    case Gone => st
    case RegReadDisk(req) => Go(st, c, RegInstall(req, KeysOnDisk(cfg.hasPath, FileOf(st))))
    case RegInstall(req, captured) =>
      Go(if captured.Some? then SetKeys(st, captured.value) else st, c, RegConsume(req))
    case RegConsume(req) => DoConsume(cfg, st, c, req, now)
    case RegStore(reg) => DoRegister(cfg, st, c, reg)
    case RegBump(at) => Go(Bump(st, at), c, Idle)
    case MapBump(req, at) => Go(Bump(st, at), c, MapOnline(req))
    case MapOnline(req) => DoOnline(st, c, req)
    case MapFind(req) => DoMapFind(st, c, req)
    case MapNodes(req, self, selfSeen, genFind) => DoMapNodes(st, c, req, self, selfSeen, genFind)
    case MapLive(self, selfSeen, list, seen, _) => DoMapLive(st, c, self, selfSeen, list, seen)
    case TickFind(gen, i) => DoTickFind(st, c, gen, i)
    case TickNodes(gen, i, found, selfSeen) => DoTickNodes(st, c, gen, i, found, selfSeen)
    case HangBump(at) => Go(Bump(st, at), c, Gone)
  }

  predicate AtRest(st: Sys, c: nat) {
    c in st.conns && st.conns[c].phase == Idle
  }

  function Step(cfg: Config, st: Sys, ev: Event): Sys
    requires Runnable(cfg)
  {
    match ev
    case Connect(c, machine) => if c in st.conns then st else st.(conns := st.conns[c := Conn(machine, Idle, [])])
    case AskRegister(c, req) => if AtRest(st, c) then BeginRegister(st, c, req) else st
    case AskMap(c, req) => if AtRest(st, c) then BeginMap(cfg, st, c, req) else st
    case Tick(c) => if AtRest(st, c) then Go(st, c, TickFind(st.gen, 0)) else st
    case Hangup(c) => if AtRest(st, c) then BeginHangup(st, c) else st
    case Advance(c, now) => if c in st.conns then StepAdvance(cfg, st, c, now) else st
    case CreateKey(ask) => Save(cfg, SetKeys(st, st.mem.keys + [MakeKey(ask)]))
    case Persist => Save(cfg, st)
    case Restart(generated, secret) => Start(cfg, st, generated, secret)
  }

  /** A run of the system from an empty store. */
  function Run(cfg: Config, evs: seq<Event>): Sys
    requires Runnable(cfg)
  {
    if evs == [] then Initial(cfg, cfg.firstNoise, cfg.firstSecret)
    else Step(cfg, Run(cfg, evs[..|evs| - 1]), evs[|evs| - 1])
  }

  /** One more event of a run. */
  lemma RunNext(cfg: Config, evs: seq<Event>, n: nat)
    requires Runnable(cfg) && n < |evs|
    ensures Run(cfg, evs[..n + 1]) == Step(cfg, Run(cfg, evs[..n]), evs[n])
  {
    assert evs[..n + 1][..n] == evs[..n];
  }

  // ---------------------------------------------------------------- who moves

  /** Only connection c moves. */
  ghost predicate OnlyMoves(st: Sys, st': Sys, c: nat) {
    c in st'.conns && st'.conns == st.conns[c := st'.conns[c]]
  }

  lemma RegisterMoves(cfg: Config, st: Sys, c: nat, reg: Registration)
    requires Runnable(cfg) && c in st.conns
    ensures OnlyMoves(st, DoRegister(cfg, st, c, reg), c)
  {
  }

  lemma ConsumeMoves(cfg: Config, st: Sys, c: nat, req: RegisterRequest, now: int)
    requires c in st.conns
    ensures OnlyMoves(st, DoConsume(cfg, st, c, req, now), c)
  {
  }

  lemma TickMoves(cfg: Config, st: Sys, c: nat, now: int)
    requires Runnable(cfg) && c in st.conns && (st.conns[c].phase.TickFind? || st.conns[c].phase.TickNodes?)
    ensures OnlyMoves(st, StepAdvance(cfg, st, c, now), c)
  {
  }

  lemma AdvanceMoves(cfg: Config, st: Sys, c: nat, now: int)
    requires Runnable(cfg) && c in st.conns
    ensures OnlyMoves(st, StepAdvance(cfg, st, c, now), c)
  {
    match st.conns[c].phase {
      case RegStore(reg) => RegisterMoves(cfg, st, c, reg);
      case RegConsume(req) => ConsumeMoves(cfg, st, c, req, now);
      case TickFind(_, _) => TickMoves(cfg, st, c, now);
      case TickNodes(_, _, _, _) => TickMoves(cfg, st, c, now);
      case Idle => assert st.conns[c := st.conns[c]] == st.conns;
      case Gone => assert st.conns[c := st.conns[c]] == st.conns;
      case _ =>
    }
  }

  // ---------------------------------------------------------------- undisturbed calls

  /** The next n critical sections are those of connection c. */
  function AdvanceN(cfg: Config, st: Sys, c: nat, now: int, n: nat): Sys
    requires Runnable(cfg)
    decreases n
  {
    if n == 0 then st else AdvanceN(cfg, Step(cfg, st, Advance(c, now)), c, now, n - 1)
  }

  /** Connection c is asked for something and runs n critical sections with nothing in between. */
  function Alone(cfg: Config, st: Sys, c: nat, ask: Event, n: nat, now: int): Sys
    requires Runnable(cfg)
  {
    AdvanceN(cfg, Step(cfg, st, ask), c, now, n)
  }

  function Advances(c: nat, now: int, n: nat): seq<Event> {
    seq(n, _ => Advance(c, now))
  }

  lemma RunStep(cfg: Config, evs: seq<Event>, ev: Event)
    requires Runnable(cfg)
    ensures Run(cfg, evs + [ev]) == Step(cfg, Run(cfg, evs), ev)
  {
    assert (evs + [ev])[..|evs|] == evs;
  }

  lemma {:induction false} RunAdvances(cfg: Config, evs: seq<Event>, c: nat, now: int, n: nat)
    requires Runnable(cfg)
    ensures Run(cfg, evs + Advances(c, now, n)) == AdvanceN(cfg, Run(cfg, evs), c, now, n)
    decreases n
  {
    if n == 0 {
      assert evs + Advances(c, now, 0) == evs;
    } else {
      RunStep(cfg, evs, Advance(c, now));
      RunAdvances(cfg, evs + [Advance(c, now)], c, now, n - 1);
      assert evs + Advances(c, now, n) == evs + [Advance(c, now)] + Advances(c, now, n - 1);
    }
  }

  /** An undisturbed call is part of a run. */
  lemma RunAlone(cfg: Config, evs: seq<Event>, c: nat, ask: Event, n: nat, now: int)
    requires Runnable(cfg)
    ensures Run(cfg, evs + [ask] + Advances(c, now, n)) == Alone(cfg, Run(cfg, evs), c, ask, n, now)
  {
    RunStep(cfg, evs, ask);
    RunAdvances(cfg, evs + [ask], c, now, n);
  }

  lemma ThreeAdvances(cfg: Config, st: Sys, c: nat, now: int, st1: Sys, st2: Sys)
    requires Runnable(cfg) && st1 == Step(cfg, st, Advance(c, now)) && st2 == Step(cfg, st1, Advance(c, now))
    ensures AdvanceN(cfg, st, c, now, 3) == Step(cfg, st2, Advance(c, now))
  {
  }

  lemma {:induction false} AdvanceMore(cfg: Config, st: Sys, c: nat, now: int, m: nat, n: nat)
    requires Runnable(cfg)
    ensures AdvanceN(cfg, st, c, now, m + n) == AdvanceN(cfg, AdvanceN(cfg, st, c, now, m), c, now, n)
    decreases m
  {
    if m > 0 {
      AdvanceMore(cfg, Step(cfg, st, Advance(c, now)), c, now, m - 1, n);
    }
  }

  /** A connection that has finished stays where it is. */
  lemma {:induction false} FinishedStays(cfg: Config, st: Sys, c: nat, now: int, n: nat)
    requires Runnable(cfg) && c in st.conns && (st.conns[c].phase.Idle? || st.conns[c].phase.Gone?)
    ensures AdvanceN(cfg, st, c, now, n) == st
    decreases n
  {
    if n > 0 {
      FinishedStays(cfg, st, c, now, n - 1);
    }
  }
}
