/** What fan-out is for: once nothing is being announced, a stream at the current generation shows
    the current nodes, except for machines that came online without an announcement.

    Every version of the node list is announced by a bump, about to be announced by the connection
    that made it, or differs from the version before by one machine having come online. */
module Convergence {
  import opened Bytes
  import opened StoreModel
  import opened Store
  import opened Netmap
  import opened Coordinator
  import Fanout

  /** The version that a connection has made and not announced yet. */
  predicate Announcing(p: Phase, k: nat) {
    (p.RegBump? || p.MapBump? || p.HangBump?) && p.at == k
  }

  ghost predicate Pending(st: Sys, k: nat) {
    exists c :: c in st.conns && Announcing(st.conns[c].phase, k)
  }

  ghost predicate CameOnline(xs: seq<Node>, ys: seq<Node>) {
    exists machine :: ys == SetOnline(xs, machine, true)
  }

  ghost predicate Accounted(st: Sys, k: nat) {
    1 <= k < |st.hist| ==> k in st.bumps || Pending(st, k) || CameOnline(st.hist[k - 1], st.hist[k])
  }

  ghost predicate AllAccounted(st: Sys) {
    forall k :: Accounted(st, k)
  }

  // ---------------------------------------------------------------- steps

  /** A step of connection c that keeps what was announced and what others are announcing, and
      makes at most one version, which is announced next or only brings a machine online. */
  ghost predicate Accounts(st: Sys, st': Sys, c: nat) {
    && st.hist <= st'.hist && st.bumps <= st'.bumps && |st'.hist| <= |st.hist| + 1
    && c in st'.conns && (forall d :: d in st.conns && d != c ==> d in st'.conns && st'.conns[d] == st.conns[d])
    && (c in st.conns ==>
          forall k :: Announcing(st.conns[c].phase, k) ==> k in st'.bumps || Announcing(st'.conns[c].phase, k))
    && (|st'.hist| == |st.hist| + 1 && st.hist != [] ==>
          || Announcing(st'.conns[c].phase, |st.hist|)
          || CameOnline(st.hist[|st.hist| - 1], st'.hist[|st.hist|]))
  }

  lemma AccountsKeeps(st: Sys, st': Sys, c: nat)
    requires AllAccounted(st) && Accounts(st, st', c)
    ensures AllAccounted(st')
  {
    forall k | 1 <= k < |st'.hist|
      ensures Accounted(st', k)
    {
      assert Accounted(st, k);
      if k == |st.hist| {
        assert Announcing(st'.conns[c].phase, k) ==> Pending(st', k);
      } else if Pending(st, k) {
        var d :| d in st.conns && Announcing(st.conns[d].phase, k);
        if d == c {
          assert k in st'.bumps || Announcing(st'.conns[c].phase, k);
        } else {
          assert Announcing(st'.conns[d].phase, k);
        }
      }
    }
  }

  lemma BumpAccounts(st: Sys, c: nat, at: nat, p: Phase)
    requires c in st.conns && Announcing(st.conns[c].phase, at)
    ensures Accounts(st, Go(Bump(st, at), c, p), c)
  {
    assert (st.bumps + [at])[|st.bumps|] == at;
  }

  lemma OnlineAccounts(st: Sys, c: nat, req: MapRequest)
    requires c in st.conns && st.conns[c].phase == MapOnline(req)
    requires st.hist != [] && st.hist[|st.hist| - 1] == st.mem.nodes
    ensures Accounts(st, DoOnline(st, c, req), c)
  {
    var nodes := SetOnline(st.mem.nodes, st.conns[c].machine, true);
    assert CameOnline(st.mem.nodes, nodes);
    assert DoOnline(st, c, req).hist == st.hist + [nodes];
  }

  /** Steps of a connection that is not announcing and leaves the versions alone. */
  lemma PlainAccounts(st: Sys, st': Sys, c: nat)
    requires c in st.conns && c in st'.conns && st'.hist == st.hist && st'.bumps == st.bumps
    requires !st.conns[c].phase.RegBump? && !st.conns[c].phase.MapBump? && !st.conns[c].phase.HangBump?
    requires forall d :: d in st.conns && d != c ==> d in st'.conns && st'.conns[d] == st.conns[d]
    ensures Accounts(st, st', c)
  {
  }

  lemma RegisterAccounts(cfg: Config, st: Sys, c: nat, reg: Registration)
    requires Runnable(cfg) && c in st.conns && st.conns[c].phase == RegStore(reg)
    ensures Accounts(st, DoRegister(cfg, st, c, reg), c)
  {
  }

  lemma AdvanceAccounts(cfg: Config, st: Sys, c: nat, now: int)
    requires Runnable(cfg) && c in st.conns && st.hist != [] && st.hist[|st.hist| - 1] == st.mem.nodes
    ensures Accounts(st, StepAdvance(cfg, st, c, now), c)
  {
    match st.conns[c].phase {
      case RegStore(reg) => RegisterAccounts(cfg, st, c, reg);
      case RegBump(at) => BumpAccounts(st, c, at, Idle);
      case MapBump(req, at) => BumpAccounts(st, c, at, MapOnline(req));
      case HangBump(at) => BumpAccounts(st, c, at, Gone);
      case MapOnline(req) => OnlineAccounts(st, c, req);
      case TickFind(_, _) => TickPlain(cfg, st, c, now);
      case TickNodes(_, _, _, _) => TickPlain(cfg, st, c, now);
      case _ => OtherPlain(cfg, st, c, now);
    }
  }

  lemma TickPlain(cfg: Config, st: Sys, c: nat, now: int)
    requires Runnable(cfg) && c in st.conns && (st.conns[c].phase.TickFind? || st.conns[c].phase.TickNodes?)
    ensures Accounts(st, StepAdvance(cfg, st, c, now), c)
  {
    PlainAccounts(st, StepAdvance(cfg, st, c, now), c);
  }

  lemma OtherPlain(cfg: Config, st: Sys, c: nat, now: int)
    requires Runnable(cfg) && c in st.conns
    requires var p := st.conns[c].phase;
             p.Idle? || p.Gone? || p.RegReadDisk? || p.RegInstall? || p.RegConsume? || p.MapFind? || p.MapNodes?
             || p.MapLive?
    ensures Accounts(st, StepAdvance(cfg, st, c, now), c)
  {
    PlainAccounts(st, StepAdvance(cfg, st, c, now), c);
  }

  lemma AskAccounts(cfg: Config, st: Sys, ev: Event)
    requires Runnable(cfg) && (ev.AskRegister? || ev.AskMap? || ev.Tick? || ev.Hangup?) && AtRest(st, ev.c)
    ensures Accounts(st, Step(cfg, st, ev), ev.c)
  {
    match ev {
      case AskRegister(c, req) => PlainAccounts(st, Step(cfg, st, ev), c);
      case AskMap(c, req) =>
      case Tick(c) => PlainAccounts(st, Step(cfg, st, ev), c);
      case Hangup(c) =>
    }
  }

  lemma SameAccounted(st: Sys, st': Sys)
    requires AllAccounted(st) && st'.hist == st.hist && st'.bumps == st.bumps && st'.conns == st.conns
    ensures AllAccounted(st')
  {
    forall k
      ensures Accounted(st', k)
    {
      assert Accounted(st, k);
    }
  }

  lemma StepAccounted(cfg: Config, st: Sys, ev: Event)
    requires Runnable(cfg) && Fanout.Base(st) && AllAccounted(st)
    ensures AllAccounted(Step(cfg, st, ev))
  {
    var st' := Step(cfg, st, ev);
    if st' == st {
    } else if ev.Restart? {
      StartRestarts(cfg, st, ev.generated, ev.secret);
      assert |st'.hist| == 1;
    } else if ev.CreateKey? || ev.Persist? {
      SameAccounted(st, st');
    } else if ev.Connect? {
      AccountsKeeps(st, st', ev.c);
    } else {
      if ev.Advance? {
        AdvanceAccounts(cfg, st, ev.c, ev.now);
      } else {
        AskAccounts(cfg, st, ev);
      }
      AccountsKeeps(st, st', ev.c);
    }
  }

  /** In every state of every run, every version of the node list is accounted for. */
  lemma {:induction false} VersionsAccounted(cfg: Config, evs: seq<Event>)
    requires Runnable(cfg)
    ensures AllAccounted(Run(cfg, evs))
  {
    if evs == [] {
      assert |Run(cfg, evs).hist| == 1;
    } else {
      var before := evs[..|evs| - 1];
      VersionsAccounted(cfg, before);
      Fanout.FanoutInvariant(cfg, before);
      StepAccounted(cfg, Run(cfg, before), evs[|evs| - 1]);
    }
  }

  // ---------------------------------------------------------------- lists that differ in who is online

  function Offline(n: Node): Node {
    n.(online := false)
  }

  /** The same nodes, some of which may have come online. */
  predicate Awoken(xs: seq<Node>, ys: seq<Node>) {
    && |xs| == |ys|
    && forall i :: 0 <= i < |xs| ==> Offline(xs[i]) == Offline(ys[i]) && (xs[i].online ==> ys[i].online)
  }

  lemma CameOnlineAwakes(xs: seq<Node>, ys: seq<Node>)
    requires CameOnline(xs, ys)
    ensures Awoken(xs, ys)
  {
  }

  lemma AwokenTransitive(xs: seq<Node>, ys: seq<Node>, zs: seq<Node>)
    requires Awoken(xs, ys) && Awoken(ys, zs)
    ensures Awoken(xs, zs)
    ensures xs == zs ==> xs == ys
  {
    if xs == zs {
      forall i | 0 <= i < |xs|
        ensures xs[i] == ys[i]
      {
        assert Offline(xs[i]) == Offline(ys[i]) && xs[i].online == ys[i].online;
      }
    }
  }

  /** No version from k to the last is announced or about to be. */
  ghost predicate Unannounced(st: Sys, k: nat) {
    forall v :: k < v < |st.hist| ==> v !in st.bumps && !Pending(st, v)
  }

  /** Every version after k was made by a machine coming online. */
  ghost predicate OnlyOnlineSince(st: Sys, k: nat) {
    forall v :: k < v < |st.hist| ==> CameOnline(st.hist[v - 1], st.hist[v])
  }

  /** None of them changed a flag: each is the same as the one before it. */
  predicate UnchangedSince(st: Sys, k: nat) {
    forall v :: k < v < |st.hist| ==> st.hist[v] == st.hist[v - 1]
  }

  /** Unannounced versions only bring machines online; none goes back. */
  lemma {:induction false} VersionsAwake(st: Sys, k: nat, v: nat)
    requires AllAccounted(st) && k <= v < |st.hist| && Unannounced(st, k)
    ensures Awoken(st.hist[k], st.hist[v])
    ensures st.hist[k] == st.hist[v] <==> forall w :: k < w <= v ==> st.hist[w] == st.hist[w - 1]
    decreases v
  {
    if k < v {
      VersionsAwake(st, k, v - 1);
      assert Accounted(st, v);
      CameOnlineAwakes(st.hist[v - 1], st.hist[v]);
      AwokenTransitive(st.hist[k], st.hist[v - 1], st.hist[v]);
    }
  }

  lemma AwokenSelf(xs: seq<Node>, ys: seq<Node>, machine: string)
    requires Awoken(xs, ys) && Registered(xs, machine)
    ensures FindNode(ys, machine) == FindNode(xs, machine)
  {
    assert forall i :: 0 <= i < |xs| ==> xs[i].machineKey == Offline(xs[i]).machineKey == ys[i].machineKey;
    FindNodeIs(ys, machine, FindNode(xs, machine));
  }

  // ---------------------------------------------------------------- maps that differ in who is online

  function DimPeers(peers: seq<TailNode>): seq<TailNode> {
    seq(|peers|, i requires 0 <= i < |peers| => peers[i].(online := false))
  }

  /** A map without its peers' online flags. */
  function Dim(m: FullMap): FullMap {
    m.(peers := DimPeers(m.peers))
  }

  ghost predicate SameButOnline(xs: seq<Node>, ys: seq<Node>) {
    |xs| == |ys| && forall i :: 0 <= i < |xs| ==> Offline(xs[i]) == Offline(ys[i])
  }

  lemma {:induction false} VisibleSame(a: Node, b: Node, xs: seq<Node>, ys: seq<Node>)
    requires Offline(a) == Offline(b) && SameButOnline(xs, ys)
    ensures SameButOnline(VisibleNodes(a, xs), VisibleNodes(b, ys))
  {
    if xs != [] {
      var x, y := xs[|xs| - 1], ys[|ys| - 1];
      VisibleSame(a, b, xs[..|xs| - 1], ys[..|ys| - 1]);
      assert Offline(x) == Offline(y);
      assert Visible(a, x) == Visible(Offline(a), Offline(x)) == Visible(b, y);
    }
  }

  lemma {:induction false} OthersSame(a: Node, b: Node, xs: seq<Node>, ys: seq<Node>)
    requires Offline(a) == Offline(b) && SameButOnline(xs, ys)
    ensures SameButOnline(Others(a, xs), Others(b, ys))
  {
    if xs != [] {
      var x, y := xs[|xs| - 1], ys[|ys| - 1];
      OthersSame(a, b, xs[..|xs| - 1], ys[..|ys| - 1]);
      assert Offline(x) == Offline(y);
      assert a.id == Offline(a).id == b.id && x.id == Offline(x).id == y.id;
    }
  }

  lemma {:induction false} AddressesSame(xs: seq<Node>, ys: seq<Node>, domain: string)
    requires SameButOnline(xs, ys)
    ensures AllRecords(xs, domain) == AllRecords(ys, domain) && AllCidrs(xs) == AllCidrs(ys)
  {
    if xs != [] {
      var x, y := xs[|xs| - 1], ys[|ys| - 1];
      AddressesSame(xs[..|xs| - 1], ys[..|ys| - 1], domain);
      assert Offline(x) == Offline(y);
      assert RecordsOf(x, domain) == RecordsOf(Offline(x), domain) == RecordsOf(y, domain);
      assert Cidrs(x) == Cidrs(Offline(x)) == Cidrs(y);
    }
  }

  lemma PeerSame(n: Node, domain: string)
    ensures ToTailcfg(n, domain, false).(online := false) == ToTailcfg(Offline(n), domain, false)
  {
  }

  lemma PeersSame(xs: seq<Node>, ys: seq<Node>, domain: string)
    requires SameButOnline(xs, ys)
    ensures DimPeers(Tailcfgs(xs, domain)) == DimPeers(Tailcfgs(ys, domain))
  {
    forall i | 0 <= i < |xs|
      ensures DimPeers(Tailcfgs(xs, domain))[i] == DimPeers(Tailcfgs(ys, domain))[i]
    {
      PeerSame(xs[i], domain);
      PeerSame(ys[i], domain);
    }
  }

  /** A map does not depend on who is online but for its peers' flags; its own node is always shown
      online. */
  lemma MapsSame(a: Node, b: Node, xs: seq<Node>, ys: seq<Node>, domain: string)
    requires Offline(a) == Offline(b) && SameButOnline(xs, ys)
    ensures Dim(MapFor(a, xs, domain)) == Dim(MapFor(b, ys, domain))
  {
    VisibleSame(a, b, xs, ys);
    var seenA, seenB := VisibleNodes(a, xs), VisibleNodes(b, ys);
    OthersSame(a, b, seenA, seenB);
    PeersSame(Others(a, seenA), Others(b, seenB), domain);
    AddressesSame(seenA, seenB, domain);
    assert ToTailcfg(a, domain, true) == ToTailcfg(Offline(a), domain, true) == ToTailcfg(b, domain, true);
  }

  // ---------------------------------------------------------------- the theorems

  /** Nobody is between changing the nodes and announcing it. */
  ghost predicate Settled(st: Sys) {
    forall k :: !Pending(st, k)
  }

  lemma FreshUnannounced(st: Sys, k: nat)
    requires Fanout.Base(st) && Settled(st) && Fanout.Covered(st, st.gen, k)
    ensures Unannounced(st, k)
  {
  }

  lemma ConvergedState(cfg: Config, st: Sys, machine: string, m: Live)
    requires Fanout.Base(st) && AllAccounted(st) && Settled(st)
    requires Fanout.LiveOk(st, machine, m) && m.lastGen == st.gen && Fanout.Fresh(st, m)
    ensures FindSelf(st, machine).Some?
    ensures Awoken(m.list, st.mem.nodes)
    ensures Dim(LastMap(cfg, m)) == Dim(MapFor(FindSelf(st, machine).value, st.mem.nodes, cfg.domain))
    ensures OnlyOnlineSince(st, m.seen)
    ensures m.list == st.mem.nodes <==> UnchangedSince(st, m.seen)
  {
    forall v | m.seen < v < |st.hist|
      ensures CameOnline(st.hist[v - 1], st.hist[v])
    {
      FreshUnannounced(st, m.seen);
      assert Accounted(st, v);
    }
    FreshUnannounced(st, m.seen);
    VersionsAwake(st, m.seen, |st.hist| - 1);
    FreshUnannounced(st, m.selfSeen);
    VersionsAwake(st, m.selfSeen, |st.hist| - 1);
    AwokenSelf(st.hist[m.selfSeen], st.mem.nodes, machine);
    MapsSame(m.self, FindSelf(st, machine).value, m.list, st.mem.nodes, cfg.domain);
  }

  /** Convergence: in every state of every run in which nobody is between changing the nodes and
      announcing it, every stream at the current generation whose last map was pushed by a tick,
      or is a first map that was not overtaken, was sent the map of the current nodes, up to the
      online flags of its peers. Peers that differ are shown offline and are online. All that has
      happened to the nodes since is that machines came online, and the list is the current one
      exactly when none of these steps changed a flag. */
  lemma StreamsConverge(cfg: Config, evs: seq<Event>, c: nat, i: nat)
    requires Runnable(cfg) && Settled(Run(cfg, evs)) && c in Run(cfg, evs).conns
    requires i < |Run(cfg, evs).conns[c].live|
    requires var m := Run(cfg, evs).conns[c].live[i];
             m.lastGen == Run(cfg, evs).gen && (m.refreshed || Fanout.Fresh(Run(cfg, evs), m))
    ensures var st := Run(cfg, evs);
            var m, self := st.conns[c].live[i], FindSelf(st, st.conns[c].machine);
            && self.Some? && Awoken(m.list, st.mem.nodes)
            && Dim(LastMap(cfg, m)) == Dim(MapFor(self.value, st.mem.nodes, cfg.domain))
            && OnlyOnlineSince(st, m.seen) && (m.list == st.mem.nodes <==> UnchangedSince(st, m.seen))
  {
    var st := Run(cfg, evs);
    Fanout.FanoutInvariant(cfg, evs);
    VersionsAccounted(cfg, evs);
    assert Fanout.ConnOk(st, st.conns[c]);
    assert Fanout.LiveOk(st, st.conns[c].machine, st.conns[c].live[i]);
    ConvergedState(cfg, st, st.conns[c].machine, st.conns[c].live[i]);
  }
}
