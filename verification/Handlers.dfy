/** The handlers of src/coordinator.cpp as one thread runs them: on_register, on_map and the tick.

    `Registers` and `Maps` say what a handler does to the store, the file and the generation when
    nothing comes in between. The methods of the class compute them, and so do the critical
    sections of the state machine when one connection runs them in a row (`RegisterAlone`,
    `MapAlone`, `TickAlone`): the state machine is the class, cut at its locks. */
module Handlers {
  import opened Bytes
  import opened StoreModel
  import opened Store
  import opened Netmap
  import C = Coordinator

  /** What connections share. */
  datatype Shared = Shared(mem: Mem, file: Option<Json>, gen: nat)

  /** Denied: "invalid or missing preauth key". Failed: the pool is exhausted and the handler throws. */
  datatype RegisterReply = Accepted(node: Node) | Denied | Failed

  datatype MapReply = Empty | Unauthorized | Body(full: FullMap) | Stream(first: FullMap, lastGen: nat)

  // ---------------------------------------------------------------- on_register

  function Admit(cfg: C.Config, x: Shared, reg: Registration): (Shared, RegisterReply)
    requires C.Runnable(cfg)
  {
    var (m, node) := Register(cfg.pool, x.mem, reg);
    if node.None? then (x.(mem := m), Failed)
    else (Shared(m, Saved(cfg.hasPath, x.file, m), x.gen + 1), Accepted(node.value))
  }

  /** The keys that decide: the file's if there are any, else those in memory. */
  function Reloaded(cfg: C.Config, x: Shared): Shared {
    var found := KeysOnDisk(cfg.hasPath, x.file);
    x.(mem := x.mem.(keys := if found.Some? then found.value else x.mem.keys))
  }

  function Registers(cfg: C.Config, x: Shared, machine: string, req: C.RegisterRequest, now: int)
    : (Shared, RegisterReply)
    requires C.Runnable(cfg)
  {
    if Registered(x.mem.nodes, machine) then
      Admit(cfg, x, Registration(machine, req.nodeKey, req.host, req.ephemeral, "", false))
    else if req.auth == "" then (x, Denied)
    else
      var x1 := Reloaded(cfg, x);
      match Consume(x1.mem.keys, req.auth, now)
      case None => (x1, Denied)
      case Some((claim, keys)) =>
        var m := x1.mem.(keys := keys);
        Admit(cfg, Shared(m, Saved(cfg.hasPath, x.file, m), x.gen),
              Registration(machine, req.nodeKey, req.host, claim.ephemeral, claim.token, claim.shared))
  }

  /** A machine is let in if and only if it is known already or a key is granted; only then does
      the generation move. A newcomer carries what its claim says, a known machine keeps what its
      claim said; nobody else's node changes. */
  lemma RegisterDecides(cfg: C.Config, x: Shared, machine: string, req: C.RegisterRequest, now: int)
    requires C.Runnable(cfg)
    ensures var (x', r) := Registers(cfg, x, machine, req, now);
            var known := Registered(x.mem.nodes, machine);
            var claim := Consume(Reloaded(cfg, x).mem.keys, req.auth, now);
            var i := FindNode(x.mem.nodes, machine);
            && (r.Denied? <==> !known && (req.auth == "" || claim.None?))
            && (r.Failed? ==> !known) && (r.Accepted? <==> x'.gen != x.gen)
            && (!r.Accepted? ==> x'.mem.nodes == x.mem.nodes)
            && (r.Accepted? ==>
              && x'.gen == x.gen + 1 && x'.file == Saved(cfg.hasPath, x.file, x'.mem)
              && FindNode(x'.mem.nodes, machine) == i < |x'.mem.nodes| && x'.mem.nodes[i] == r.node
              && (forall j :: 0 <= j < |x.mem.nodes| && j != i ==> x'.mem.nodes[j] == x.mem.nodes[j])
              && (known ==> |x'.mem.nodes| == |x.mem.nodes| && r.node.token == x.mem.nodes[i].token
                            && r.node.shared == x.mem.nodes[i].shared && r.node.ephemeral == req.ephemeral
                            && x'.mem.keys == x.mem.keys)
              && (!known ==> |x'.mem.nodes| == |x.mem.nodes| + 1 && r.node.token == claim.value.0.token
                             && r.node.shared == claim.value.0.shared && r.node.ephemeral == claim.value.0.ephemeral
                             && x'.mem.keys == claim.value.1))
  {
    var known := Registered(x.mem.nodes, machine);
    var claim := Consume(Reloaded(cfg, x).mem.keys, req.auth, now);
    if known {
      Admitted(cfg, x, Registration(machine, req.nodeKey, req.host, req.ephemeral, "", false));
    } else if req.auth != "" && claim.Some? {
      var m := x.mem.(keys := claim.value.1);
      var granted := claim.value.0;
      Admitted(cfg, Shared(m, Saved(cfg.hasPath, x.file, m), x.gen),
               Registration(machine, req.nodeKey, req.host, granted.ephemeral, granted.token, granted.shared));
    }
  }

  lemma Admitted(cfg: C.Config, x: Shared, reg: Registration)
    requires C.Runnable(cfg)
    ensures var (x', r) := Admit(cfg, x, reg);
            var i := FindNode(x.mem.nodes, reg.machine);
            && !r.Denied? && (r.Failed? ==> i == |x.mem.nodes| && x'.mem.nodes == x.mem.nodes && x'.gen == x.gen)
            && (r.Accepted? ==>
              && x'.gen == x.gen + 1 && x'.file == Saved(cfg.hasPath, x.file, x'.mem) && x'.mem.keys == x.mem.keys
              && FindNode(x'.mem.nodes, reg.machine) == i < |x'.mem.nodes| && x'.mem.nodes[i] == r.node
              && r.node.ephemeral == reg.ephemeral
              && |x'.mem.nodes| >= |x.mem.nodes|
              && (forall j :: 0 <= j < |x.mem.nodes| && j != i ==> x'.mem.nodes[j] == x.mem.nodes[j])
              && (if i < |x.mem.nodes| then |x'.mem.nodes| == |x.mem.nodes| && r.node.token == x.mem.nodes[i].token
                                            && r.node.shared == x.mem.nodes[i].shared
                  else |x'.mem.nodes| == |x.mem.nodes| + 1 && r.node.token == reg.token && r.node.shared == reg.shared))
  {
    if Register(cfg.pool, x.mem, reg).1.Some? {
      RegisterOutcome(cfg.pool, x.mem, reg);
    }
  }

  // ---------------------------------------------------------------- on_map

  predicate ReadOnly(req: C.MapRequest) {
    req.stream && req.version >= 68
  }

  function Updated(cfg: C.Config, x: Shared, machine: string, req: C.MapRequest): Shared {
    if ReadOnly(req) then x else
    var m := x.mem.(nodes := UpdateMapInfo(x.mem.nodes, machine, req.info));
    Shared(m, if Registered(x.mem.nodes, machine) then Saved(cfg.hasPath, x.file, m) else x.file, x.gen + 1)
  }

  function MapReplyTo(cfg: C.Config, x: Shared, machine: string, req: C.MapRequest): MapReply {
    if req.omitPeers && !req.stream then Empty
    else if !Registered(x.mem.nodes, machine) then Unauthorized
    else
      var full := MapFor(x.mem.nodes[FindNode(x.mem.nodes, machine)], x.mem.nodes, cfg.domain);
      if req.stream then Stream(full, x.gen) else Body(full)
  }

  function Maps(cfg: C.Config, x: Shared, machine: string, req: C.MapRequest): (Shared, MapReply) {
    var x1 := Updated(cfg, x, machine, req);
    var x2 := x1.(mem := x1.mem.(nodes := SetOnline(x1.mem.nodes, machine, true)));
    (x2, MapReplyTo(cfg, x2, machine, req))
  }

  /** What a map request comes to: no map if none was asked for, and none for an unknown machine; else
      the map of the machine's node over the nodes as they are after the request, which has put it
      online. The generation moves unless the request is read-only. */
  lemma MapDecides(cfg: C.Config, x: Shared, machine: string, req: C.MapRequest)
    ensures var (x', r) := Maps(cfg, x, machine, req);
            var i := FindNode(x.mem.nodes, machine);
            && (r.Empty? <==> req.omitPeers && !req.stream)
            && (r.Unauthorized? <==> !r.Empty? && i == |x.mem.nodes|)
            && (r.Stream? ==> req.stream && r.lastGen == x'.gen) && (r.Body? ==> !req.stream)
            && x'.gen == (if req.stream && req.version >= 68 then x.gen else x.gen + 1)
            && x'.mem.keys == x.mem.keys && |x'.mem.nodes| == |x.mem.nodes|
            && (forall j :: 0 <= j < |x.mem.nodes| && j != i ==> x'.mem.nodes[j] == x.mem.nodes[j])
            && (i < |x.mem.nodes| ==> x'.mem.nodes[i].online && x'.mem.nodes[i].machineKey == machine)
            && (r.Body? || r.Stream? ==>
                 MapTells(if r.Body? then r.full else r.first, x'.mem.nodes[i], x'.mem.nodes, cfg.domain))
  {
    var nodes, i := x.mem.nodes, FindNode(x.mem.nodes, machine);
    var updated := Updated(cfg, x, machine, req).mem.nodes;
    if i < |nodes| {
      FindNodeIs(updated, machine, i);
      FindNodeIs(SetOnline(updated, machine, true), machine, i);
      MapForTells(SetOnline(updated, machine, true)[i], SetOnline(updated, machine, true), cfg.domain);
    } else {
      NotFound(updated, machine);
      NotFound(SetOnline(updated, machine, true), machine);
    }
  }

  lemma NotFound(nodes: seq<Node>, machine: string)
    requires forall i :: 0 <= i < |nodes| ==> nodes[i].machineKey != machine
    ensures FindNode(nodes, machine) == |nodes|
  {
  }

  // ---------------------------------------------------------------- the same, by critical sections

  function SharedOf(st: C.Sys): Shared {
    Shared(st.mem, C.FileOf(st), st.gen)
  }

  lemma AdmitAlone(cfg: C.Config, st: C.Sys, c: nat, reg: Registration, now: int)
    requires C.Runnable(cfg) && c in st.conns && st.conns[c].phase == C.RegStore(reg)
    ensures var (x, r) := Admit(cfg, SharedOf(st), reg);
            var st' := C.Step(cfg, C.Step(cfg, st, C.Advance(c, now)), C.Advance(c, now));
            && SharedOf(st') == x && c in st'.conns
            && st'.conns[c].phase == if r.Failed? then C.Gone else C.Idle
  {
    var st1 := C.Step(cfg, st, C.Advance(c, now));
    assert st1 == C.DoRegister(cfg, st, c, reg);
    assert st1.conns[c].phase == if Register(cfg.pool, st.mem, reg).1.None? then C.Gone else C.RegBump(|st.hist|);
  }

  lemma ReloadAlone(cfg: C.Config, st: C.Sys, c: nat, req: C.RegisterRequest, now: int)
    requires C.Runnable(cfg) && c in st.conns && st.conns[c].phase == C.RegReadDisk(req)
    ensures var st' := C.Step(cfg, C.Step(cfg, st, C.Advance(c, now)), C.Advance(c, now));
            && SharedOf(st') == Reloaded(cfg, SharedOf(st)) && c in st'.conns
            && st'.conns[c] == st.conns[c].(phase := C.RegConsume(req))
  {
    var found := KeysOnDisk(cfg.hasPath, C.FileOf(st));
    assert C.Step(cfg, st, C.Advance(c, now)) == C.Go(st, c, C.RegInstall(req, found));
  }

  /** With nothing in between, the critical sections of on_register do what `Registers` says. */
  lemma RegisterAlone(cfg: C.Config, st: C.Sys, c: nat, req: C.RegisterRequest, now: int)
    requires C.Runnable(cfg) && C.AtRest(st, c)
    ensures var (x, r) := Registers(cfg, SharedOf(st), st.conns[c].machine, req, now);
            var st' := C.Alone(cfg, st, c, C.AskRegister(c, req), 5, now);
            && SharedOf(st') == x && c in st'.conns
            && st'.conns[c].phase == if r.Failed? then C.Gone else C.Idle
  {
    var machine, ask := st.conns[c].machine, C.AskRegister(c, req);
    var st0 := C.Step(cfg, st, ask);
    if Registered(st.mem.nodes, machine) {
      var reg := Registration(machine, req.nodeKey, req.host, req.ephemeral, "", false);
      assert st0 == C.Go(st, c, C.RegStore(reg));
      AdmitAlone(cfg, st0, c, reg, now);
      TwoThen(cfg, st0, c, now, 3);
      C.FinishedStays(cfg, C.Step(cfg, C.Step(cfg, st0, C.Advance(c, now)), C.Advance(c, now)), c, now, 3);
    } else if req.auth == "" {
      C.FinishedStays(cfg, st, c, now, 5);
    } else {
      assert st0 == C.Go(st, c, C.RegReadDisk(req));
      ReloadAlone(cfg, st0, c, req, now);
      TwoThen(cfg, st0, c, now, 3);
      ConsumeAlone(cfg, C.Step(cfg, C.Step(cfg, st0, C.Advance(c, now)), C.Advance(c, now)), c, req, now);
    }
  }

  lemma TwoThen(cfg: C.Config, st: C.Sys, c: nat, now: int, n: nat)
    requires C.Runnable(cfg)
    ensures C.AdvanceN(cfg, st, c, now, n + 2)
            == C.AdvanceN(cfg, C.Step(cfg, C.Step(cfg, st, C.Advance(c, now)), C.Advance(c, now)), c, now, n)
  {
  }

  lemma ConsumeAlone(cfg: C.Config, st: C.Sys, c: nat, req: C.RegisterRequest, now: int)
    requires C.Runnable(cfg) && c in st.conns && st.conns[c].phase == C.RegConsume(req)
    ensures var x, claim := SharedOf(st), Consume(st.mem.keys, req.auth, now);
            var st' := C.AdvanceN(cfg, st, c, now, 3);
            && c in st'.conns
            && (claim.None? ==> SharedOf(st') == x && st'.conns[c].phase == C.Idle)
            && (claim.Some? ==>
              var m := x.mem.(keys := claim.value.1);
              var reg := Registration(st.conns[c].machine, req.nodeKey, req.host, claim.value.0.ephemeral,
                                      claim.value.0.token, claim.value.0.shared);
              var (x', r) := Admit(cfg, Shared(m, Saved(cfg.hasPath, x.file, m), x.gen), reg);
              SharedOf(st') == x' && st'.conns[c].phase == if r.Failed? then C.Gone else C.Idle)
  {
    var claim := Consume(st.mem.keys, req.auth, now);
    var st1 := C.Step(cfg, st, C.Advance(c, now));
    if claim.None? {
      assert st1 == C.Go(st, c, C.Idle);
      C.FinishedStays(cfg, st1, c, now, 2);
    } else {
      var reg := Registration(st.conns[c].machine, req.nodeKey, req.host, claim.value.0.ephemeral,
                              claim.value.0.token, claim.value.0.shared);
      assert st1 == C.DoConsume(cfg, st, c, req, now) && st1.conns[c].phase == C.RegStore(reg);
      AdmitAlone(cfg, st1, c, reg, now);
      TwoThen(cfg, st1, c, now, 0);
    }
  }

  /** update_map_info and its bump. */
  lemma UpdateAlone(cfg: C.Config, st: C.Sys, c: nat, req: C.MapRequest, now: int) returns (st': C.Sys)
    requires C.Runnable(cfg) && C.AtRest(st, c)
    ensures SharedOf(st') == Updated(cfg, SharedOf(st), st.conns[c].machine, req) && st'.served == st.served
    ensures c in st'.conns && st'.conns[c] == st.conns[c].(phase := C.MapOnline(req))
    ensures C.Alone(cfg, st, c, C.AskMap(c, req), 5, now)
            == C.AdvanceN(cfg, st', c, now, if ReadOnly(req) then 5 else 4)
  {
    st' := C.Step(cfg, st, C.AskMap(c, req));
    if !ReadOnly(req) {
      st' := C.Step(cfg, st', C.Advance(c, now));
    }
  }

  /** What a map request leaves of a connection and of the maps served. */
  ghost predicate MapServed(cfg: C.Config, st: C.Sys, st': C.Sys, c: nat, r: MapReply) {
    && c in st.conns && c in st'.conns && st'.conns[c].phase == C.Idle
    && (r.Empty? || r.Unauthorized? ==> st'.served == st.served && st'.conns[c].live == st.conns[c].live)
    && (r.Body? || r.Stream? ==>
      && |st'.served| == |st.served| + 1 && st'.served[..|st.served|] == st.served
      && MapFor(st'.served[|st.served|].self, st'.served[|st.served|].list, cfg.domain)
         == if r.Body? then r.full else r.first)
    && (r.Body? ==> st'.conns[c].live == st.conns[c].live)
    && (r.Stream? ==>
      && |st'.conns[c].live| == |st.conns[c].live| + 1 && st'.conns[c].live[..|st.conns[c].live|] == st.conns[c].live
      && C.LastMap(cfg, st'.conns[c].live[|st.conns[c].live|]) == r.first
      && st'.conns[c].live[|st.conns[c].live|].lastGen == r.lastGen)
  }

  /** A map of these nodes was built for `self`, and the streams are what they were. */
  ghost predicate Built(st: C.Sys, st': C.Sys, c: nat, self: Node) {
    && c in st.conns && c in st'.conns && st'.conns[c].live == st.conns[c].live
    && st'.served == st.served + [C.Served(self, st.mem.nodes)] && SharedOf(st') == SharedOf(st)
  }

  lemma BodyServed(cfg: C.Config, st: C.Sys, st': C.Sys, c: nat, self: Node)
    requires Built(st, st', c, self) && st'.conns[c].phase == C.Idle
    ensures MapServed(cfg, st, st', c, Body(MapFor(self, st.mem.nodes, cfg.domain)))
  {
  }

  lemma EnterAlone(cfg: C.Config, st: C.Sys, st1: C.Sys, c: nat, self: Node, now: int)
    requires C.Runnable(cfg) && Built(st, st1, c, self)
    requires st1.conns[c].phase == C.MapLive(self, C.Now(st), st.mem.nodes, C.Now(st), st.gen)
    ensures var st' := C.Step(cfg, st1, C.Advance(c, now));
            && SharedOf(st') == SharedOf(st)
            && MapServed(cfg, st, st', c, Stream(MapFor(self, st.mem.nodes, cfg.domain), st.gen))
  {
    var st' := C.DoMapLive(st1, c, self, C.Now(st), st.mem.nodes, C.Now(st));
    assert C.Step(cfg, st1, C.Advance(c, now)) == st';
    var m := C.Live(st.gen, self, C.Now(st), st.mem.nodes, C.Now(st), false);
    assert st'.conns[c].live == st.conns[c].live + [m];
  }

  /** From building the map to entering the stream, the node having been found. */
  lemma BuildAlone(cfg: C.Config, st: C.Sys, c: nat, req: C.MapRequest, self: Node, now: int)
    requires C.Runnable(cfg) && c in st.conns
    ensures var full := MapFor(self, st.mem.nodes, cfg.domain);
            var st1 := C.Go(st, c, C.MapNodes(req, self, C.Now(st), st.gen));
            var st' := C.AdvanceN(cfg, C.Step(cfg, st1, C.Advance(c, now)), c, now, 1);
            && SharedOf(st') == SharedOf(st)
            && MapServed(cfg, st, st', c, if req.stream then Stream(full, st.gen) else Body(full))
  {
    var st1 := C.Go(st, c, C.MapNodes(req, self, C.Now(st), st.gen));
    var st2 := C.Step(cfg, st1, C.Advance(c, now));
    assert st2 == C.DoMapNodes(st1, c, req, self, C.Now(st), st.gen);
    assert Built(st, st2, c, self);
    if req.stream {
      EnterAlone(cfg, st, st2, c, self, now);
      assert C.AdvanceN(cfg, st2, c, now, 1) == C.Step(cfg, st2, C.Advance(c, now));
    } else {
      C.FinishedStays(cfg, st2, c, now, 1);
      BodyServed(cfg, st, st2, c, self);
    }
  }

  /** From finding the node to entering the stream. */
  lemma ServeAlone(cfg: C.Config, st: C.Sys, c: nat, req: C.MapRequest, now: int)
    requires C.Runnable(cfg) && c in st.conns && st.conns[c].phase == C.MapFind(req)
    requires !(req.omitPeers && !req.stream)
    ensures var st' := C.AdvanceN(cfg, st, c, now, 3);
            && SharedOf(st') == SharedOf(st)
            && MapServed(cfg, st, st', c, MapReplyTo(cfg, SharedOf(st), st.conns[c].machine, req))
  {
    var machine, nodes := st.conns[c].machine, st.mem.nodes;
    var st1 := C.Step(cfg, st, C.Advance(c, now));
    if !Registered(nodes, machine) {
      assert st1 == C.Go(st, c, C.Idle);
      C.FinishedStays(cfg, st1, c, now, 2);
    } else {
      var self := nodes[FindNode(nodes, machine)];
      assert st1 == C.Go(st, c, C.MapNodes(req, self, C.Now(st), st.gen));
      TwoThen(cfg, st, c, now, 1);
      BuildAlone(cfg, st, c, req, self, now);
    }
  }

  lemma AndStays(cfg: C.Config, st: C.Sys, c: nat, now: int, m: nat, n: nat)
    requires C.Runnable(cfg) && C.AtRest(C.AdvanceN(cfg, st, c, now, m), c)
    ensures C.AdvanceN(cfg, st, c, now, m + n) == C.AdvanceN(cfg, st, c, now, m)
  {
    C.AdvanceMore(cfg, st, c, now, m, n);
    C.FinishedStays(cfg, C.AdvanceN(cfg, st, c, now, m), c, now, n);
  }

  lemma SameServed(cfg: C.Config, st: C.Sys, st1: C.Sys, st': C.Sys, c: nat, r: MapReply)
    requires MapServed(cfg, st1, st', c, r) && c in st.conns
    requires st1.served == st.served && st1.conns[c].live == st.conns[c].live
    ensures MapServed(cfg, st, st', c, r)
  {
  }

  lemma OnlineStep(cfg: C.Config, st: C.Sys, c: nat, req: C.MapRequest, now: int) returns (st': C.Sys)
    requires C.Runnable(cfg) && c in st.conns && st.conns[c].phase == C.MapOnline(req)
    ensures st' == C.Step(cfg, st, C.Advance(c, now)) && st'.served == st.served && c in st'.conns
    ensures var p := if req.omitPeers && !req.stream then C.Idle else C.MapFind(req);
            st'.conns[c] == st.conns[c].(phase := p)
    ensures var nodes := SetOnline(st.mem.nodes, st.conns[c].machine, true);
            SharedOf(st') == SharedOf(st).(mem := st.mem.(nodes := nodes))
  {
    st' := C.Step(cfg, st, C.Advance(c, now));
    assert st' == C.DoOnline(st, c, req);
  }

  /** From set_online on. */
  lemma OnlineAlone(cfg: C.Config, st: C.Sys, c: nat, req: C.MapRequest, now: int, n: nat)
    requires C.Runnable(cfg) && c in st.conns && st.conns[c].phase == C.MapOnline(req) && n >= 4
    ensures var nodes := SetOnline(st.mem.nodes, st.conns[c].machine, true);
            var x := SharedOf(st).(mem := st.mem.(nodes := nodes));
            var st' := C.AdvanceN(cfg, st, c, now, n);
            SharedOf(st') == x && MapServed(cfg, st, st', c, MapReplyTo(cfg, x, st.conns[c].machine, req))
  {
    var st1 := OnlineStep(cfg, st, c, req, now);
    if req.omitPeers && !req.stream {
      C.FinishedStays(cfg, st1, c, now, n - 1);
    } else {
      ServeAlone(cfg, st1, c, req, now);
      AndStays(cfg, st1, c, now, 3, n - 4);
      SameServed(cfg, st, st1, C.AdvanceN(cfg, st1, c, now, 3), c,
                 MapReplyTo(cfg, SharedOf(st1), st.conns[c].machine, req));
    }
  }

  /** With nothing in between, the critical sections of on_map do what `Maps` says, and the map
      built is the one in the reply. */
  lemma MapAlone(cfg: C.Config, st: C.Sys, c: nat, req: C.MapRequest, now: int)
    requires C.Runnable(cfg) && C.AtRest(st, c)
    ensures var (x, r) := Maps(cfg, SharedOf(st), st.conns[c].machine, req);
            var st' := C.Alone(cfg, st, c, C.AskMap(c, req), 5, now);
            SharedOf(st') == x && MapServed(cfg, st, st', c, r)
  {
    var st1 := UpdateAlone(cfg, st, c, req, now);
    OnlineAlone(cfg, st1, c, req, now, if ReadOnly(req) then 5 else 4);
  }

  /** What a tick makes of a stream. */
  function Ticked(st: C.Sys, machine: string, m: C.Live): C.Live {
    if m.lastGen == st.gen then m else C.Refresh(st, m, st.gen, C.FindSelf(st, machine), C.Now(st))
  }

  ghost predicate TickedFrom(st: C.Sys, st': C.Sys, c: nat, i: nat) {
    && c in st.conns && c in st'.conns && st'.conns[c].machine == st.conns[c].machine && st'.conns[c].phase == C.Idle
    && st'.mem == st.mem && st'.disk == st.disk && st'.gen == st.gen && st'.hist == st.hist
    && |st'.conns[c].live| == |st.conns[c].live|
    && forall k :: 0 <= k < |st.conns[c].live| ==>
         st'.conns[c].live[k]
         == if k < i then st.conns[c].live[k] else Ticked(st, st.conns[c].machine, st.conns[c].live[k])
  }

  lemma PushAlone(cfg: C.Config, st: C.Sys, c: nat, i: nat, now: int) returns (st': C.Sys)
    requires C.Runnable(cfg) && c in st.conns && st.conns[c].phase == C.TickFind(st.gen, i)
    requires i < |st.conns[c].live| && st.conns[c].live[i].lastGen != st.gen
    ensures st' == C.Step(cfg, C.Step(cfg, st, C.Advance(c, now)), C.Advance(c, now))
    ensures st'.mem == st.mem && st'.disk == st.disk && st'.gen == st.gen && st'.hist == st.hist && c in st'.conns
    ensures var m := Ticked(st, st.conns[c].machine, st.conns[c].live[i]);
            st'.conns[c] == C.Conn(st.conns[c].machine, C.TickFind(st.gen, i + 1), st.conns[c].live[i := m])
  {
    var found := C.FindSelf(st, st.conns[c].machine);
    var st1 := C.Step(cfg, st, C.Advance(c, now));
    assert st1 == C.Go(st, c, C.TickNodes(st.gen, i, found, C.Now(st)));
    st' := C.Step(cfg, st1, C.Advance(c, now));
    assert st' == C.DoTickNodes(st1, c, st.gen, i, found, C.Now(st));
  }

  lemma OneMoreTicked(st: C.Sys, st1: C.Sys, st': C.Sys, c: nat, i: nat)
    requires c in st.conns && i < |st.conns[c].live| && TickedFrom(st1, st', c, i + 1)
    requires st1.mem == st.mem && st1.disk == st.disk && st1.gen == st.gen && st1.hist == st.hist
    requires st1.conns[c].machine == st.conns[c].machine
    requires var m := Ticked(st, st.conns[c].machine, st.conns[c].live[i]);
             st1.conns[c].live == st.conns[c].live[i := m]
    ensures TickedFrom(st, st', c, i)
  {
  }

  lemma {:induction false} TickRest(cfg: C.Config, st: C.Sys, c: nat, i: nat, n: nat, now: int)
    requires C.Runnable(cfg) && c in st.conns && st.conns[c].phase == C.TickFind(st.gen, i) && i <= |st.conns[c].live|
    requires n > 2 * (|st.conns[c].live| - i)
    ensures TickedFrom(st, C.AdvanceN(cfg, st, c, now, n), c, i)
    decreases n
  {
    var live := st.conns[c].live;
    var st1 := C.Step(cfg, st, C.Advance(c, now));
    if i == |live| {
      assert st1 == C.Go(st, c, C.Idle);
      C.FinishedStays(cfg, st1, c, now, n - 1);
    } else if live[i].lastGen == st.gen {
      assert st1 == C.Go(st, c, C.TickFind(st.gen, i + 1));
      TickRest(cfg, st1, c, i + 1, n - 1, now);
      OneMoreTicked(st, st1, C.AdvanceN(cfg, st, c, now, n), c, i);
    } else {
      var st2 := PushAlone(cfg, st, c, i, now);
      TwoThen(cfg, st, c, now, n - 2);
      TickRest(cfg, st2, c, i + 1, n - 2, now);
      OneMoreTicked(st, st2, C.AdvanceN(cfg, st, c, now, n), c, i);
    }
  }

  /** With nothing in between, a tick brings every stream to the current generation; those behind
      get the map of the current nodes, the others keep the map they have. */
  lemma TickAlone(cfg: C.Config, st: C.Sys, c: nat, i: nat, now: int)
    requires C.Runnable(cfg) && C.AtRest(st, c) && i < |st.conns[c].live|
    ensures var x, st' := st.conns[c], C.Alone(cfg, st, c, C.Tick(c), 2 * |st.conns[c].live| + 1, now);
            && SharedOf(st') == SharedOf(st) && C.AtRest(st', c) && |st'.conns[c].live| == |x.live|
            && st'.conns[c].live[i].lastGen == st.gen
            && C.LastMap(cfg, st'.conns[c].live[i])
               == if x.live[i].lastGen != st.gen && Registered(st.mem.nodes, x.machine)
                  then MapFor(st.mem.nodes[FindNode(st.mem.nodes, x.machine)], st.mem.nodes, cfg.domain)
                  else C.LastMap(cfg, x.live[i])
  {
    TickRest(cfg, C.Go(st, c, C.TickFind(st.gen, 0)), c, 0, 2 * |st.conns[c].live| + 1, now);
  }

  // ---------------------------------------------------------------- the class

  /** An entry of `live`; the stream id and the compression flag are left out. */
  datatype LiveMap = LiveMap(machine: string, lastGen: nat, lastSend: int)

  datatype Frame = Nothing | KeepAlive | Full(body: FullMap)

  class Coordinator {
    const cfg: C.Config
    const keepalive: int
    const store: Store
    var mapGen: nat

    ghost predicate Valid() {
      C.Runnable(cfg) && store.hasPath == cfg.hasPath && store.pool == cfg.pool
    }

    ghost function View(): Shared
      reads this, store, store.file
    {
      Shared(store.View(), store.file.content, mapGen)
    }

    constructor (cfg: C.Config, keepalive: int, store: Store)
      requires C.Runnable(cfg) && store.hasPath == cfg.hasPath && store.pool == cfg.pool
      ensures Valid() && this.cfg == cfg && this.keepalive == keepalive && this.store == store && mapGen == 1
    {
      this.cfg, this.keepalive, this.store, mapGen := cfg, keepalive, store, 1;
    }

    method BumpMap()
      modifies this
      ensures mapGen == old(mapGen) + 1
    {
      mapGen := mapGen + 1;
    }

    /** The end of on_register. */
    method AdmitNode(reg: Registration) returns (r: RegisterReply)
      requires Valid()
      modifies this, store, store.file
      ensures (View(), r) == Admit(cfg, old(View()), reg)
    {
      var node := store.RegisterNode(reg);
      if node.None? {
        return Failed;
      }
      BumpMap();
      r := Accepted(node.value);
    }

    method OnRegister(machine: string, req: C.RegisterRequest, now: int) returns (r: RegisterReply)
      requires Valid()
      modifies this, store, store.file
      ensures (View(), r) == Registers(cfg, old(View()), machine, req, now)
    {
      var claim := PreauthClaim(false, "", false);
      var ephemeral := req.ephemeral;
      var known := store.FindByMachine(machine);
      if known.None? {
        if req.auth == "" {
          return Denied;
        }
        var granted := store.ConsumePreauth(req.auth, now);
        if granted.None? {
          return Denied;
        }
        claim := granted.value;
        ephemeral := claim.ephemeral;
      }
      r := AdmitNode(Registration(machine, req.nodeKey, req.host, ephemeral, claim.token, claim.shared));
    }

    /** The beginning of on_map. */
    method UpdateNode(machine: string, req: C.MapRequest)
      requires Valid()
      modifies this, store, store.file
      ensures View() == Updated(cfg, old(View()), machine, req)
    {
      var readonly := req.stream && req.version >= 68;
      if !readonly {
        store.UpdateInfo(machine, req.info);
        BumpMap();
      }
    }

    /** The end of on_map. */
    method Answer(machine: string, req: C.MapRequest) returns (r: MapReply)
      ensures r == MapReplyTo(cfg, View(), machine, req)
    {
      if req.omitPeers && !req.stream {
        return Empty;
      }
      var self := store.FindByMachine(machine);
      if self.None? {
        return Unauthorized;
      }
      var first := BuildFullMap(self.value, store.nodes, cfg.domain);
      if !req.stream {
        return Body(first);
      }
      r := Stream(first, mapGen);
    }

    method OnMap(machine: string, req: C.MapRequest) returns (r: MapReply)
      requires Valid()
      modifies this, store, store.file
      ensures (View(), r) == Maps(cfg, old(View()), machine, req)
    {
      UpdateNode(machine, req);
      store.SetNodeOnline(machine, true);
      r := Answer(machine, req);
    }

    /** What the tick pushes on a stream. */
    ghost function Pushed(m: LiveMap, now: int): Frame
      reads this, store
    {
      if m.lastGen != mapGen then
        if Registered(store.nodes, m.machine) then
          Full(MapFor(store.nodes[FindNode(store.nodes, m.machine)], store.nodes, cfg.domain))
        else Nothing
      else if now - m.lastSend >= keepalive then KeepAlive
      else Nothing
    }

    /** The entry is at the current generation, and was sent on just now if anything was pushed. */
    ghost predicate Served(m: LiveMap, m': LiveMap, frame: Frame, now: int)
      reads this, store
    {
      && frame == Pushed(m, now) && m'.machine == m.machine && m'.lastGen == mapGen
      && m'.lastSend == if m.lastGen == mapGen && frame.Nothing? then m.lastSend else now
    }

    /** The body of the loop. */
    method TickOne(m: LiveMap, gen: nat, now: int) returns (m': LiveMap, frame: Frame)
      requires gen == mapGen
      ensures Served(m, m', frame, now)
    {
      m', frame := m, Nothing;
      if gen != m.lastGen {
        var self := store.FindByMachine(m.machine);
        if self.Some? {
          var full := BuildFullMap(self.value, store.nodes, cfg.domain);
          frame := Full(full);
        }
        return m.(lastGen := gen, lastSend := now), frame;
      }
      if now - m.lastSend >= keepalive {
        return m.(lastSend := now), KeepAlive;
      }
    }

    /** Every stream ends at the current generation. Those that were behind get the current map, the
        others a keepalive once nothing has been sent for that long. */
    method Tick(live: seq<LiveMap>, now: int) returns (live': seq<LiveMap>, pushed: seq<Frame>)
      ensures |live'| == |live| == |pushed|
      ensures forall i :: 0 <= i < |live| ==>
                && Served(live[i], live'[i], pushed[i], now)
                && live'[i].machine == live[i].machine && live'[i].lastGen == mapGen
                && (pushed[i].KeepAlive? <==> live[i].lastGen == mapGen && now - live[i].lastSend >= keepalive)
                && (pushed[i].Full? <==> live[i].lastGen != mapGen && Registered(store.nodes, live[i].machine))
                && live'[i].lastSend
                   == if live[i].lastGen == mapGen && pushed[i].Nothing? then live[i].lastSend else now
    {
      var gen := mapGen;
      live', pushed := live, [];
      for i := 0 to |live|
        invariant |live'| == |live| && |pushed| == i
        invariant forall j :: i <= j < |live| ==> live'[j] == live[j]
        invariant forall j :: 0 <= j < i ==> Served(live[j], live'[j], pushed[j], now)
      {
        var m, frame := TickOne(live'[i], gen, now);
        live', pushed := live'[i := m], pushed + [frame];
      }
    }
  }
}
