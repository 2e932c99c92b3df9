/** One-shot preauth keys over whole runs.

    consume_preauth reads the state file before it takes the lock, so with a file two overlapping
    calls can both succeed (`OverlapGrantsTwice`). A key is consumed at most once in every run in
    which calls do not overlap, restarts included; without a file, in every run. */
module OneShot {
  import opened Bytes
  import opened StoreModel
  import opened Store
  import opened Coordinator

  /** The entry that decides about the secret is one-shot and used up. */
  predicate Spent(keys: seq<PreauthKey>, secret: string) {
    var i := FindKey(keys, secret);
    i < |keys| && !keys[i].reusable && keys[i].used
  }

  // ---------------------------------------------------------------- keys

  lemma FindKeyIs(keys: seq<PreauthKey>, secret: string, i: nat)
    requires i < |keys| && keys[i].key == secret && forall j :: 0 <= j < i ==> keys[j].key != secret
    ensures FindKey(keys, secret) == i
  {
  }

  lemma SpentAppend(keys: seq<PreauthKey>, k: PreauthKey, secret: string)
    requires Spent(keys, secret)
    ensures Spent(keys + [k], secret)
  {
    FindKeyIs(keys + [k], secret, FindKey(keys, secret));
  }

  lemma SpentNarrowed(keys: seq<PreauthKey>, secret: string)
    requires Spent(keys, secret)
    ensures Spent(NarrowedKeys(keys), secret)
  {
    FindKeyIs(NarrowedKeys(keys), secret, FindKey(keys, secret));
  }

  /** Consuming never revives a key, uses up a one-shot key, and is refused for a spent one. */
  lemma SpentConsume(keys: seq<PreauthKey>, secret: string, now: int, other: string)
    requires Consume(keys, secret, now).Some?
    ensures !Spent(keys, secret)
    ensures Spent(keys, other) ==> Spent(Consume(keys, secret, now).value.1, other)
    ensures !keys[FindKey(keys, secret)].reusable ==> Spent(Consume(keys, secret, now).value.1, secret)
  {
    var keys' := Consume(keys, secret, now).value.1;
    FindKeyIs(keys', secret, FindKey(keys, secret));
    if Spent(keys, other) {
      FindKeyIs(keys', other, FindKey(keys, other));
    }
  }

  // ---------------------------------------------------------------- the invariant

  /** Grants that rule out another grant of the same secret: without a file, those of this process. */
  predicate Counts(cfg: Config, epoch: nat, g: Grant) {
    !g.reusable && (cfg.hasPath || g.epoch == epoch)
  }

  ghost predicate CapturedSpent(st: Sys, secret: string) {
    forall c :: c in st.conns && st.conns[c].phase.RegInstall? && st.conns[c].phase.captured.Some? ==>
      Spent(st.conns[c].phase.captured.value, secret)
  }

  /** A granted one-shot secret is marked used wherever keys are: in memory, in the file, and in
      every list that a connection has read and not yet installed. */
  ghost predicate SpentInv(cfg: Config, st: Sys) {
    && (cfg.hasPath ==> st.disk.Some?)
    && (!cfg.hasPath ==>
          forall c :: c in st.conns && st.conns[c].phase.RegInstall? ==> st.conns[c].phase.captured.None?)
    && (forall i :: 0 <= i < |st.grants| ==> st.grants[i].epoch <= st.epoch)
    && (forall i :: 0 <= i < |st.grants| && Counts(cfg, st.epoch, st.grants[i]) ==>
          && Spent(st.mem.keys, st.grants[i].secret)
          && (cfg.hasPath ==> Spent(st.disk.value.keys, st.grants[i].secret))
          && CapturedSpent(st, st.grants[i].secret))
  }

  /** No secret is granted again after a one-shot grant. */
  ghost predicate AtMostOnce(cfg: Config, st: Sys) {
    forall i, j :: 0 <= i < j < |st.grants| && Counts(cfg, st.grants[j].epoch, st.grants[i]) ==>
      st.grants[i].secret != st.grants[j].secret
  }

  predicate Consuming(st: Sys, c: nat) {
    c in st.conns && (st.conns[c].phase.RegInstall? || st.conns[c].phase.RegConsume?)
  }

  /** No two calls of consume_preauth are between reading the file and finishing. */
  ghost predicate NoOverlap(st: Sys) {
    forall c, d :: Consuming(st, c) && Consuming(st, d) ==> c == d
  }

  // ---------------------------------------------------------------- steps

  /** Steps that leave the keys alone, or save them as they are in memory. */
  ghost predicate KeysQuiet(cfg: Config, st: Sys, st': Sys) {
    && st'.mem.keys == st.mem.keys && st'.grants == st.grants && st'.epoch == st.epoch
    && DiskFollows(cfg, st, st')
    && (forall c :: c in st'.conns && st'.conns[c].phase.RegInstall? ==>
          c in st.conns && st.conns[c].phase == st'.conns[c].phase)
  }

  predicate TouchesKeys(st: Sys, ev: Event) {
    || ev.CreateKey? || ev.Restart?
    || (ev.Advance? && ev.c in st.conns
        && (st.conns[ev.c].phase.RegReadDisk? || st.conns[ev.c].phase.RegInstall? || st.conns[ev.c].phase.RegConsume?))
  }

  lemma QuietRegister(cfg: Config, st: Sys, c: nat, reg: Registration)
    requires Runnable(cfg) && c in st.conns
    ensures KeysQuiet(cfg, st, DoRegister(cfg, st, c, reg))
  {
  }

  lemma QuietTick(cfg: Config, st: Sys, c: nat, now: int)
    requires Runnable(cfg) && c in st.conns && (st.conns[c].phase.TickFind? || st.conns[c].phase.TickNodes?)
    ensures KeysQuiet(cfg, st, StepAdvance(cfg, st, c, now))
  {
  }

  lemma QuietAdvance(cfg: Config, st: Sys, c: nat, now: int)
    requires Runnable(cfg) && c in st.conns
    requires !st.conns[c].phase.RegReadDisk? && !st.conns[c].phase.RegInstall? && !st.conns[c].phase.RegConsume?
    ensures KeysQuiet(cfg, st, StepAdvance(cfg, st, c, now))
  {
    match st.conns[c].phase {
      case RegStore(reg) => QuietRegister(cfg, st, c, reg);
      case TickFind(_, _) => QuietTick(cfg, st, c, now);
      case TickNodes(_, _, _, _) => QuietTick(cfg, st, c, now);
      case _ =>
    }
  }

  lemma QuietKeysStep(cfg: Config, st: Sys, ev: Event)
    requires Runnable(cfg) && !TouchesKeys(st, ev)
    ensures KeysQuiet(cfg, st, Step(cfg, st, ev))
  {
    match ev {
      case Advance(c, now) =>
        if c in st.conns {
          QuietAdvance(cfg, st, c, now);
        }
      case _ =>
    }
  }

  lemma QuietKeeps(cfg: Config, st: Sys, st': Sys)
    requires SpentInv(cfg, st) && KeysQuiet(cfg, st, st')
    ensures SpentInv(cfg, st')
  {
  }

  lemma ReadDiskKeeps(cfg: Config, st: Sys, c: nat, req: RegisterRequest)
    requires SpentInv(cfg, st) && c in st.conns && st.conns[c].phase == RegReadDisk(req)
    ensures SpentInv(cfg, Go(st, c, RegInstall(req, KeysOnDisk(cfg.hasPath, FileOf(st)))))
  {
    var found := KeysOnDisk(cfg.hasPath, FileOf(st));
    if cfg.hasPath {
      SaveThenLoadKeys(st.disk.value.keys);
      forall i | 0 <= i < |st.grants| && Counts(cfg, st.epoch, st.grants[i])
        ensures Spent(found.value, st.grants[i].secret)
      {
        SpentNarrowed(st.disk.value.keys, st.grants[i].secret);
      }
    }
  }

  lemma CreateKeyKeeps(cfg: Config, st: Sys, key: PreauthKey)
    requires SpentInv(cfg, st)
    ensures SpentInv(cfg, Save(cfg, SetKeys(st, st.mem.keys + [key])))
  {
    forall i | 0 <= i < |st.grants| && Counts(cfg, st.epoch, st.grants[i])
      ensures Spent(st.mem.keys + [key], st.grants[i].secret)
    {
      SpentAppend(st.mem.keys, key, st.grants[i].secret);
    }
  }

  lemma RestartKeeps(cfg: Config, st: Sys, st': Sys)
    requires SpentInv(cfg, st) && Restarted(cfg, st, st')
    ensures SpentInv(cfg, st')
  {
    forall i | 0 <= i < |st.grants| && Counts(cfg, st'.epoch, st.grants[i])
      ensures Spent(st'.mem.keys, st.grants[i].secret)
    {
      SpentNarrowed(st.disk.value.keys, st.grants[i].secret);
    }
  }

  lemma ConsumeKeeps(cfg: Config, st: Sys, c: nat, req: RegisterRequest, now: int)
    requires SpentInv(cfg, st) && AtMostOnce(cfg, st) && (cfg.hasPath ==> NoOverlap(st))
    requires c in st.conns && st.conns[c].phase == RegConsume(req)
    ensures SpentInv(cfg, DoConsume(cfg, st, c, req, now)) && AtMostOnce(cfg, DoConsume(cfg, st, c, req, now))
  {
    var st' := DoConsume(cfg, st, c, req, now);
    var r := Consume(st.mem.keys, req.auth, now);
    if r.Some? {
      forall i | 0 <= i < |st.grants| && Counts(cfg, st.epoch, st.grants[i])
        ensures st.grants[i].secret != req.auth && Spent(st'.mem.keys, st.grants[i].secret)
      {
        SpentConsume(st.mem.keys, req.auth, now, st.grants[i].secret);
      }
      SpentConsume(st.mem.keys, req.auth, now, req.auth);
      assert Consuming(st, c);
      assert cfg.hasPath ==> forall d :: d in st'.conns && st'.conns[d].phase.RegInstall? ==> Consuming(st, d);
      assert CapturedSpent(st', req.auth);
    }
  }

  lemma StepKeeps(cfg: Config, st: Sys, ev: Event)
    requires Runnable(cfg) && SpentInv(cfg, st) && AtMostOnce(cfg, st) && (cfg.hasPath ==> NoOverlap(st))
    ensures SpentInv(cfg, Step(cfg, st, ev)) && AtMostOnce(cfg, Step(cfg, st, ev))
  {
    if !TouchesKeys(st, ev) {
      QuietKeysStep(cfg, st, ev);
      QuietKeeps(cfg, st, Step(cfg, st, ev));
    } else if ev.CreateKey? {
      CreateKeyKeeps(cfg, st, MakeKey(ev.ask));
    } else if ev.Restart? {
      StartRestarts(cfg, st, ev.generated, ev.secret);
      RestartKeeps(cfg, st, Step(cfg, st, ev));
    } else {
      match st.conns[ev.c].phase {
        case RegReadDisk(req) => ReadDiskKeeps(cfg, st, ev.c, req);
        case RegInstall(req, captured) =>
        case RegConsume(req) => ConsumeKeeps(cfg, st, ev.c, req, ev.now);
      }
    }
  }

  // ---------------------------------------------------------------- the theorems

  /** In no state that the run goes through do two calls overlap. */
  ghost predicate NeverOverlaps(cfg: Config, evs: seq<Event>)
    requires Runnable(cfg)
  {
    forall n :: 0 <= n <= |evs| ==> NoOverlap(Run(cfg, evs[..n]))
  }

  lemma {:induction false} OneShotInvariant(cfg: Config, evs: seq<Event>)
    requires Runnable(cfg) && (cfg.hasPath ==> NeverOverlaps(cfg, evs))
    ensures SpentInv(cfg, Run(cfg, evs)) && AtMostOnce(cfg, Run(cfg, evs))
  {
    if evs != [] {
      var before := evs[..|evs| - 1];
      assert forall n :: 0 <= n <= |before| ==> before[..n] == evs[..n];
      OneShotInvariant(cfg, before);
      assert before[..|before|] == before;
      StepKeeps(cfg, Run(cfg, before), evs[|evs| - 1]);
    }
  }

  /** A one-shot key is consumed at most once in every run whose calls do not overlap. */
  lemma ConsumedAtMostOnce(cfg: Config, evs: seq<Event>)
    requires Runnable(cfg) && NeverOverlaps(cfg, evs)
    ensures AtMostOnce(cfg, Run(cfg, evs))
  {
    OneShotInvariant(cfg, evs);
  }

  // ---------------------------------------------------------------- overlapping calls

  /** A one-shot key whose secret is not that of the key made at the first start. */
  function OnceAsk(cfg: Config): KeyRequest {
    KeyRequest(cfg.firstSecret + "!", false, false, 0, 0, "", Some(false))
  }

  function OnceKey(cfg: Config): PreauthKey {
    PreauthKey(cfg.firstSecret + "!", false, false, false, 0, "", false)
  }

  function Ask(cfg: Config): RegisterRequest {
    RegisterRequest("nodekey", "host", OnceKey(cfg).key, false)
  }

  /** Two machines ask with the same one-shot key; both read the file before either consumes. */
  function Overlapping(cfg: Config): seq<Event> {
    [CreateKey(OnceAsk(cfg)), Connect(1, "a"), Connect(2, "b"), AskRegister(1, Ask(cfg)), AskRegister(2, Ask(cfg)),
     Advance(1, 0), Advance(2, 0), Advance(1, 0), Advance(1, 0), Advance(2, 0), Advance(2, 0)]
  }

  function BothKeys(cfg: Config, used: bool): seq<PreauthKey> {
    [BootKey(cfg.firstSecret), OnceKey(cfg).(used := used)]
  }

  /** Where the two connections are, and how the one-shot key stands in memory and in the file. */
  ghost predicate At(cfg: Config, st: Sys, first: Phase, second: Phase, used: bool, usedOnDisk: bool,
                     grants: seq<Grant>) {
    && st.conns == map[1 := Conn("a", first, []), 2 := Conn("b", second, [])]
    && st.mem.nodes == [] && st.mem.keys == BothKeys(cfg, used)
    && st.disk.Some? && st.disk.value.keys == BothKeys(cfg, usedOnDisk)
    && st.grants == grants && st.epoch == 1
  }

  lemma OnceKeyFound(cfg: Config, used: bool)
    ensures FindKey(BothKeys(cfg, used), OnceKey(cfg).key) == 1
  {
    assert |cfg.firstSecret| < |OnceKey(cfg).key|;
    FindKeyIs(BothKeys(cfg, used), OnceKey(cfg).key, 1);
  }

  lemma ReadStep(cfg: Config, st: Sys)
    requires Runnable(cfg) && cfg.hasPath && st.disk.Some? && st.disk.value.keys == BothKeys(cfg, false)
    ensures KeysOnDisk(cfg.hasPath, FileOf(st)) == Some(BothKeys(cfg, false))
  {
    SaveThenLoadKeys(st.disk.value.keys);
    assert NarrowedKeys(BothKeys(cfg, false)) == BothKeys(cfg, false);
  }

  function OnceGrant(cfg: Config, machine: string): Grant {
    Grant(machine, OnceKey(cfg).key, false, PreauthClaim(false, "", false), 1)
  }

  function OnceReg(machine: string): Registration {
    Registration(machine, "nodekey", "host", false, "", false)
  }

  lemma ConsumeOnce(cfg: Config)
    ensures Consume(BothKeys(cfg, false), OnceKey(cfg).key, 0)
            == Some((PreauthClaim(false, "", false), BothKeys(cfg, true)))
  {
    OnceKeyFound(cfg, false);
    assert BothKeys(cfg, false)[1 := OnceKey(cfg).(used := true)] == BothKeys(cfg, true);
  }

  lemma BothConnected(cfg: Config)
    requires Runnable(cfg) && cfg.hasPath
    ensures At(cfg, Run(cfg, Overlapping(cfg)[..3]), Idle, Idle, false, false, [])
  {
    var evs := Overlapping(cfg);
    assert evs[..0] == [];
    RunNext(cfg, evs, 0);
    assert Run(cfg, evs[..1]).mem.keys == BothKeys(cfg, false) && Run(cfg, evs[..1]).mem.nodes == [];
    RunNext(cfg, evs, 1);
    RunNext(cfg, evs, 2);
  }

  lemma AskSteps(cfg: Config, st: Sys)
    requires Runnable(cfg) && At(cfg, st, Idle, Idle, false, false, [])
    ensures At(cfg, Step(cfg, Step(cfg, st, AskRegister(1, Ask(cfg))), AskRegister(2, Ask(cfg))),
               RegReadDisk(Ask(cfg)), RegReadDisk(Ask(cfg)), false, false, [])
  {
    var st1 := Step(cfg, st, AskRegister(1, Ask(cfg)));
    assert At(cfg, st1, RegReadDisk(Ask(cfg)), Idle, false, false, []);
  }

  lemma BothAsk(cfg: Config)
    requires Runnable(cfg) && cfg.hasPath
    ensures At(cfg, Run(cfg, Overlapping(cfg)[..5]), RegReadDisk(Ask(cfg)), RegReadDisk(Ask(cfg)), false, false, [])
  {
    var evs := Overlapping(cfg);
    BothConnected(cfg);
    AskSteps(cfg, Run(cfg, evs[..3]));
    RunNext(cfg, evs, 3);
    RunNext(cfg, evs, 4);
  }

  lemma BothRead(cfg: Config)
    requires Runnable(cfg) && cfg.hasPath
    ensures var p := RegInstall(Ask(cfg), Some(BothKeys(cfg, false)));
            At(cfg, Run(cfg, Overlapping(cfg)[..7]), p, p, false, false, [])
  {
    var evs, p := Overlapping(cfg), RegInstall(Ask(cfg), Some(BothKeys(cfg, false)));
    BothAsk(cfg);
    ReadStep(cfg, Run(cfg, evs[..5]));
    RunNext(cfg, evs, 5);
    assert At(cfg, Run(cfg, evs[..6]), p, RegReadDisk(Ask(cfg)), false, false, []);
    ReadStep(cfg, Run(cfg, evs[..6]));
    RunNext(cfg, evs, 6);
  }

  lemma FirstConsumes(cfg: Config)
    requires Runnable(cfg) && cfg.hasPath
    ensures At(cfg, Run(cfg, Overlapping(cfg)[..9]), RegStore(OnceReg("a")),
               RegInstall(Ask(cfg), Some(BothKeys(cfg, false))), true, true, [OnceGrant(cfg, "a")])
  {
    var evs, p := Overlapping(cfg), RegInstall(Ask(cfg), Some(BothKeys(cfg, false)));
    BothRead(cfg);
    RunNext(cfg, evs, 7);
    assert At(cfg, Run(cfg, evs[..8]), RegConsume(Ask(cfg)), p, false, false, []);
    OnceKeyFound(cfg, false);
    ConsumeOnce(cfg);
    RunNext(cfg, evs, 8);
  }

  /** With a state file, two overlapping calls both get the one-shot key: the second installs the
      list that it read before the first marked the key used. */
  lemma OverlapGrantsTwice(cfg: Config)
    requires Runnable(cfg) && cfg.hasPath
    ensures !AtMostOnce(cfg, Run(cfg, Overlapping(cfg)))
  {
    var evs := Overlapping(cfg);
    FirstConsumes(cfg);
    SecondConsumes(cfg, Run(cfg, evs[..9]));
    RunNext(cfg, evs, 9);
    RunNext(cfg, evs, 10);
    assert evs[..11] == evs;
    GrantedTwice(cfg, Run(cfg, evs));
  }

  lemma GrantedTwice(cfg: Config, st: Sys)
    requires cfg.hasPath && st.grants == [OnceGrant(cfg, "a"), OnceGrant(cfg, "b")]
    ensures !AtMostOnce(cfg, st)
  {
    assert Counts(cfg, st.grants[1].epoch, st.grants[0]) && st.grants[0].secret == st.grants[1].secret;
  }

  lemma SecondConsumes(cfg: Config, st: Sys)
    requires Runnable(cfg) && cfg.hasPath
    requires At(cfg, st, RegStore(OnceReg("a")), RegInstall(Ask(cfg), Some(BothKeys(cfg, false))), true, true,
                [OnceGrant(cfg, "a")])
    ensures Step(cfg, Step(cfg, st, Advance(2, 0)), Advance(2, 0)).grants == [OnceGrant(cfg, "a"), OnceGrant(cfg, "b")]
  {
    var st1 := Step(cfg, st, Advance(2, 0));
    assert st1.mem.keys == BothKeys(cfg, false) && st1.conns[2] == Conn("b", RegConsume(Ask(cfg)), []);
    assert st1.grants == [OnceGrant(cfg, "a")] && st1.epoch == 1;
    OnceKeyFound(cfg, false);
    ConsumeOnce(cfg);
  }

  /** Every interleaving keeps one-shot keys one-shot if and only if there is no state file. */
  lemma SafeUnderOverlapIffNoFile(cfg: Config)
    requires Runnable(cfg)
    ensures (forall evs :: AtMostOnce(cfg, Run(cfg, evs))) <==> !cfg.hasPath
  {
    if cfg.hasPath {
      OverlapGrantsTwice(cfg);
    } else {
      forall evs
        ensures AtMostOnce(cfg, Run(cfg, evs))
      {
        OneShotInvariant(cfg, evs);
      }
    }
  }
}
