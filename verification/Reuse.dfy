/** Exactly when a one-shot key that is used up can be granted again.

    With a state file it can if and only if some consume_preauth has read the file while the key was
    not used up, has not taken the lock yet, and the key has not expired since. Secrets are drawn at
    random by create_preauth_key, so what follows is taken to make no key with the same secret; and
    the clock does not go back. */
module Reuse {
  import opened Bytes
  import opened StoreModel
  import opened Store
  import opened Coordinator
  import opened OneShot
  import Keys

  // ---------------------------------------------------------------- what can follow

  /** Nothing makes another key with that secret. */
  predicate Fresh(more: seq<Event>, secret: string) {
    forall i :: 0 <= i < |more| ==>
      (more[i].CreateKey? ==> more[i].ask.secret != secret) && (more[i].Restart? ==> more[i].secret != secret)
  }

  /** The clock starts at t and does not go back. */
  predicate Onward(more: seq<Event>, t: int) {
    && (forall i :: 0 <= i < |more| && more[i].Advance? ==> more[i].now >= t)
    && (forall i, j :: 0 <= i < j < |more| && more[i].Advance? && more[j].Advance? ==> more[i].now <= more[j].now)
  }

  /** A grant of the secret after the first n. */
  ghost predicate GrantedSince(st: Sys, n: nat, secret: string) {
    exists i :: n <= i < |st.grants| && st.grants[i].secret == secret
  }

  /** Some list that was read and is not installed would grant the secret at time t. */
  ghost predicate Revivable(st: Sys, secret: string, t: int) {
    exists c :: c in st.conns && st.conns[c].phase.RegInstall? && st.conns[c].phase.captured.Some?
                && Consume(st.conns[c].phase.captured.value, secret, t).Some?
  }

  // ---------------------------------------------------------------- connections

  /** Whoever consumes has a secret, and a list that was read has been narrowed. */
  predicate RequestOk(p: Phase) {
    && (p.RegReadDisk? || p.RegInstall? || p.RegConsume? ==> p.req.auth != "")
    && (p.RegInstall? && p.captured.Some? ==> NarrowedKeys(p.captured.value) == p.captured.value)
  }

  ghost predicate RequestsOk(st: Sys) {
    forall c :: c in st.conns ==> RequestOk(st.conns[c].phase)
  }

  lemma NarrowTwice(keys: seq<PreauthKey>)
    ensures NarrowedKeys(NarrowedKeys(keys)) == NarrowedKeys(keys)
  {
    forall i | 0 <= i < |keys|
      ensures NarrowInt(NarrowInt(keys[i].expires)) == NarrowInt(keys[i].expires)
    {
    }
  }

  lemma ReadRequest(cfg: Config, st: Sys, req: RegisterRequest)
    requires req.auth != ""
    ensures RequestOk(RegInstall(req, KeysOnDisk(cfg.hasPath, FileOf(st))))
  {
    if cfg.hasPath && st.disk.Some? {
      SaveThenLoadKeys(st.disk.value.keys);
      NarrowTwice(st.disk.value.keys);
    }
  }

  /** Only reading the file and installing the keys leave a connection with a request. */
  lemma AdvanceRequest(cfg: Config, st: Sys, c: nat, now: int)
    requires Runnable(cfg) && c in st.conns && RequestOk(st.conns[c].phase)
    ensures var st' := StepAdvance(cfg, st, c, now);
            c in st'.conns && RequestOk(st'.conns[c].phase)
  {
    match st.conns[c].phase {
      case RegReadDisk(req) => ReadRequest(cfg, st, req);
      case RegInstall(req, captured) =>
      case _ =>
        var p := StepAdvance(cfg, st, c, now).conns[c].phase;
        assert !p.RegReadDisk? && !p.RegInstall? && !p.RegConsume?;
    }
  }

  lemma StepRequests(cfg: Config, st: Sys, ev: Event)
    requires Runnable(cfg) && RequestsOk(st)
    ensures RequestsOk(Step(cfg, st, ev))
  {
    if ev.Advance? && ev.c in st.conns {
      AdvanceRequest(cfg, st, ev.c, ev.now);
      AdvanceMoves(cfg, st, ev.c, ev.now);
    }
  }

  lemma {:induction false} RequestInvariant(cfg: Config, evs: seq<Event>)
    requires Runnable(cfg)
    ensures RequestsOk(Run(cfg, evs))
  {
    if evs != [] {
      RequestInvariant(cfg, evs[..|evs| - 1]);
      StepRequests(cfg, Run(cfg, evs[..|evs| - 1]), evs[|evs| - 1]);
    }
  }

  // ---------------------------------------------------------------- it stays used up

  /** No time from t on grants the secret, and loading does not change that: there is no entry for it,
      or the first is used up, or it has expired and its expiry survives the narrowing. */
  predicate Dead(keys: seq<PreauthKey>, secret: string, t: int) {
    var i := FindKey(keys, secret);
    i < |keys| ==>
      || (!keys[i].reusable && keys[i].used)
      || (keys[i].expires != 0 && t > keys[i].expires && NarrowInt(keys[i].expires) == keys[i].expires)
  }

  lemma DeadIsRefused(keys: seq<PreauthKey>, secret: string, t: int, now: int)
    requires Dead(keys, secret, t) && now >= t
    ensures Consume(keys, secret, now).None?
  {
  }

  /** A list that was read and grants nothing is dead. */
  lemma RefusedIsDead(keys: seq<PreauthKey>, secret: string, t: int)
    requires NarrowedKeys(keys) == keys && Consume(keys, secret, t).None?
    ensures Dead(keys, secret, t)
  {
    var i := FindKey(keys, secret);
    if i < |keys| {
      assert NarrowedKeys(keys)[i] == keys[i];
    }
  }

  lemma FindKeyNone(keys: seq<PreauthKey>, secret: string)
    requires forall i :: 0 <= i < |keys| ==> keys[i].key != secret
    ensures FindKey(keys, secret) == |keys|
  {
  }

  /** The first entry for the secret decides, whatever else happens to the list. */
  lemma SameFirst(xs: seq<PreauthKey>, ys: seq<PreauthKey>, secret: string)
    requires |xs| <= |ys| && forall i :: 0 <= i < |xs| ==> xs[i].key == ys[i].key
    requires forall i :: |xs| <= i < |ys| ==> ys[i].key != secret
    ensures FindKey(ys, secret) == if FindKey(xs, secret) < |xs| then FindKey(xs, secret) else |ys|
  {
    if FindKey(xs, secret) < |xs| {
      FindKeyIs(ys, secret, FindKey(xs, secret));
    } else {
      FindKeyNone(ys, secret);
    }
  }

  lemma DeadNarrowed(keys: seq<PreauthKey>, secret: string, t: int)
    requires Dead(keys, secret, t)
    ensures Dead(NarrowedKeys(keys), secret, t)
  {
    SameFirst(keys, NarrowedKeys(keys), secret);
  }

  lemma DeadAppend(keys: seq<PreauthKey>, k: PreauthKey, secret: string, t: int)
    requires Dead(keys, secret, t) && k.key != secret
    ensures Dead(keys + [k], secret, t)
  {
    SameFirst(keys, keys + [k], secret);
  }

  lemma DeadConsume(keys: seq<PreauthKey>, other: string, now: int, secret: string, t: int)
    requires Dead(keys, secret, t) && now >= t && Consume(keys, other, now).Some?
    ensures other != secret && Dead(Consume(keys, other, now).value.1, secret, t)
  {
    DeadIsRefused(keys, secret, t, now);
    SameFirst(keys, Consume(keys, other, now).value.1, secret);
  }

  /** Dead in memory, in the file, and in every list read and not yet installed. */
  ghost predicate DeadEverywhere(st: Sys, secret: string, t: int) {
    && Dead(st.mem.keys, secret, t) && st.disk.Some? && Dead(st.disk.value.keys, secret, t)
    && forall c :: c in st.conns && st.conns[c].phase.RegInstall? && st.conns[c].phase.captured.Some? ==>
         Dead(st.conns[c].phase.captured.value, secret, t)
  }

  lemma ReadDead(cfg: Config, st: Sys, c: nat, req: RegisterRequest, secret: string, t: int)
    requires cfg.hasPath && DeadEverywhere(st, secret, t) && c in st.conns
    ensures DeadEverywhere(Go(st, c, RegInstall(req, KeysOnDisk(cfg.hasPath, FileOf(st)))), secret, t)
  {
    SaveThenLoadKeys(st.disk.value.keys);
    DeadNarrowed(st.disk.value.keys, secret, t);
  }

  lemma ConsumeDead(cfg: Config, st: Sys, c: nat, req: RegisterRequest, now: int, secret: string, t: int)
    requires cfg.hasPath && DeadEverywhere(st, secret, t) && c in st.conns && now >= t
    ensures var st' := DoConsume(cfg, st, c, req, now);
            && DeadEverywhere(st', secret, t)
            && forall i :: |st.grants| <= i < |st'.grants| ==> st'.grants[i].secret != secret
  {
    if Consume(st.mem.keys, req.auth, now).Some? {
      DeadConsume(st.mem.keys, req.auth, now, secret, t);
    }
  }

  lemma RestartDead(cfg: Config, st: Sys, generated: Bytes32, boot: string, secret: string, t: int)
    requires cfg.hasPath && DeadEverywhere(st, secret, t) && boot != secret
    ensures DeadEverywhere(Start(cfg, st, generated, boot), secret, t)
  {
    StartRestarts(cfg, st, generated, boot);
    Keys.BootKeys(cfg, st.disk, generated, boot);
    DeadNarrowed(st.disk.value.keys, secret, t);
  }

  lemma StepDead(cfg: Config, st: Sys, ev: Event, secret: string, t: int)
    requires Runnable(cfg) && cfg.hasPath && DeadEverywhere(st, secret, t)
    requires Fresh([ev], secret) && Onward([ev], t)
    ensures var st' := Step(cfg, st, ev);
            && DeadEverywhere(st', secret, t) && st.grants <= st'.grants
            && forall i :: |st.grants| <= i < |st'.grants| ==> st'.grants[i].secret != secret
  {
    assert [ev][0] == ev;
    if !TouchesKeys(st, ev) {
      QuietKeysStep(cfg, st, ev);
    } else if ev.CreateKey? {
      DeadAppend(st.mem.keys, MakeKey(ev.ask), secret, t);
    } else if ev.Restart? {
      RestartDead(cfg, st, ev.generated, ev.secret, secret, t);
    } else {
      match st.conns[ev.c].phase {
        case RegReadDisk(req) => ReadDead(cfg, st, ev.c, req, secret, t);
        case RegInstall(req, captured) =>
        case RegConsume(req) => ConsumeDead(cfg, st, ev.c, req, ev.now, secret, t);
      }
    }
  }

  lemma {:induction false} StaysDead(cfg: Config, evs: seq<Event>, more: seq<Event>, secret: string, t: int)
    requires Runnable(cfg) && cfg.hasPath && DeadEverywhere(Run(cfg, evs), secret, t)
    requires Fresh(more, secret) && Onward(more, t)
    ensures DeadEverywhere(Run(cfg, evs + more), secret, t)
    ensures |Run(cfg, evs).grants| <= |Run(cfg, evs + more).grants|
    ensures !GrantedSince(Run(cfg, evs + more), |Run(cfg, evs).grants|, secret)
    decreases |more|
  {
    if more == [] {
      assert evs + more == evs;
    } else {
      var init, ev := more[..|more| - 1], more[|more| - 1];
      StaysDead(cfg, evs, init, secret, t);
      StepDead(cfg, Run(cfg, evs + init), ev, secret, t);
      assert evs + more == evs + init + [ev];
      RunStep(cfg, evs + init, ev);
    }
  }

  // ---------------------------------------------------------------- or it is granted again

  /** Names that nobody uses yet. */
  lemma FreshConnection(taken: set<nat>) returns (d: nat)
    ensures forall c :: c in taken ==> c < d
  {
    d := 0;
    var rest := taken;
    while rest != {}
      invariant rest <= taken && forall c :: c in taken && c !in rest ==> c < d
    {
      var c :| c in rest;
      rest := rest - {c};
      d := if c < d then d else c + 1;
    }
  }

  lemma FreshMachine(nodes: seq<Node>) returns (machine: string)
    ensures !Registered(nodes, machine)
  {
    machine := "m";
    for i := 0 to |nodes|
      invariant |machine| >= 1 && forall j :: 0 <= j < i ==> |nodes[j].machineKey| < |machine|
    {
      machine := machine + nodes[i].machineKey;
    }
  }

  function Claimant(secret: string): RegisterRequest {
    RegisterRequest("nodekey", "host", secret, false)
  }

  /** A newcomer who asks with the secret is granted it if the file's keys say so. */
  lemma NewcomerGranted(cfg: Config, st: Sys, d: nat, secret: string, now: int)
    requires Runnable(cfg) && cfg.hasPath && st.disk.Some? && secret != ""
    requires AtRest(st, d) && !Registered(st.mem.nodes, st.conns[d].machine)
    requires Consume(NarrowedKeys(st.disk.value.keys), secret, now).Some?
    ensures var st' := Alone(cfg, st, d, AskRegister(d, Claimant(secret)), 3, now);
            |st'.grants| == |st.grants| + 1 && st'.grants[|st.grants|].secret == secret
  {
    var req, ks := Claimant(secret), NarrowedKeys(st.disk.value.keys);
    SaveThenLoadKeys(st.disk.value.keys);
    var st0 := Go(st, d, RegReadDisk(req));
    assert Step(cfg, st, AskRegister(d, req)) == st0;
    var st1 := Go(st, d, RegInstall(req, Some(ks)));
    assert Step(cfg, st0, Advance(d, now)) == st1;
    var st2 := Step(cfg, st1, Advance(d, now));
    assert st2 == Go(SetKeys(st, ks), d, RegConsume(req));
    var st3 := Step(cfg, st2, Advance(d, now));
    assert st3 == DoConsume(cfg, st2, d, req, now);
    ThreeAdvances(cfg, st0, d, now, st1, st2);
  }

  /** The old list goes back into memory, and with the next save into the file. */
  lemma OldListBack(cfg: Config, evs: seq<Event>, c: nat, t: int)
    requires Runnable(cfg) && cfg.hasPath && c in Run(cfg, evs).conns
    requires Run(cfg, evs).conns[c].phase.RegInstall? && Run(cfg, evs).conns[c].phase.captured.Some?
    ensures var st, st' := Run(cfg, evs), Run(cfg, evs + [Advance(c, t)] + [Persist]);
            && st'.disk.Some? && st'.disk.value.keys == st.conns[c].phase.captured.value
            && st'.grants == st.grants && st'.conns.Keys == st.conns.Keys
  {
    RunStep(cfg, evs, Advance(c, t));
    RunStep(cfg, evs + [Advance(c, t)], Persist);
  }

  lemma GrantedAgain(cfg: Config, evs: seq<Event>, c: nat, secret: string, t: int) returns (more: seq<Event>)
    requires Runnable(cfg) && cfg.hasPath && secret != "" && c in Run(cfg, evs).conns
    requires Run(cfg, evs).conns[c].phase.RegInstall? && Run(cfg, evs).conns[c].phase.captured.Some?
    requires RequestOk(Run(cfg, evs).conns[c].phase)
    requires Consume(Run(cfg, evs).conns[c].phase.captured.value, secret, t).Some?
    ensures Fresh(more, secret) && Onward(more, t)
    ensures GrantedSince(Run(cfg, evs + more), |Run(cfg, evs).grants|, secret)
  {
    var st := Run(cfg, evs);
    OldListBack(cfg, evs, c, t);
    var back := evs + [Advance(c, t)] + [Persist];
    var d := FreshConnection(st.conns.Keys);
    var machine := FreshMachine(Run(cfg, back).mem.nodes);
    RunStep(cfg, back, Connect(d, machine));
    var asked := back + [Connect(d, machine)];
    NewcomerGranted(cfg, Run(cfg, asked), d, secret, t);
    RunAlone(cfg, asked, d, AskRegister(d, Claimant(secret)), 3, t);
    more := Comeback(c, d, machine, secret, t);
    ComebackOnward(c, d, machine, secret, t);
    assert evs + more == asked + [AskRegister(d, Claimant(secret))] + Advances(d, t, 3);
  }

  /** The old list is installed and saved, and a newcomer asks with the secret, all at time t. */
  function Comeback(c: nat, d: nat, machine: string, secret: string, t: int): seq<Event> {
    [Advance(c, t)] + [Persist] + [Connect(d, machine)] + [AskRegister(d, Claimant(secret))] + Advances(d, t, 3)
  }

  lemma ComebackOnward(c: nat, d: nat, machine: string, secret: string, t: int)
    ensures Fresh(Comeback(c, d, machine, secret, t), secret) && Onward(Comeback(c, d, machine, secret, t), t)
  {
    var more := Comeback(c, d, machine, secret, t);
    assert forall i :: 0 <= i < |more| ==> !more[i].CreateKey? && !more[i].Restart?;
    assert forall i :: 0 <= i < |more| && more[i].Advance? ==> more[i].now == t;
  }

  // ---------------------------------------------------------------- the theorems

  lemma DeadUnlessRevivable(cfg: Config, evs: seq<Event>, secret: string, t: int)
    requires Runnable(cfg) && Spent(Run(cfg, evs).mem.keys, secret)
    requires Run(cfg, evs).disk.Some? && Spent(Run(cfg, evs).disk.value.keys, secret)
    requires !Revivable(Run(cfg, evs), secret, t)
    ensures DeadEverywhere(Run(cfg, evs), secret, t)
  {
    var st := Run(cfg, evs);
    RequestInvariant(cfg, evs);
    forall c | c in st.conns && st.conns[c].phase.RegInstall? && st.conns[c].phase.captured.Some?
      ensures Dead(st.conns[c].phase.captured.value, secret, t)
    {
      assert RequestOk(st.conns[c].phase);
      RefusedIsDead(st.conns[c].phase.captured.value, secret, t);
    }
  }

  /** In every state of every run with a file in which a one-shot key is used up, at time t: nothing
      that can follow grants it again if and only if no list that was read and is not installed
      would grant it at t. A list that was read before the key was made just drops it. */
  lemma SpentForGoodIff(cfg: Config, evs: seq<Event>, secret: string, t: int)
    requires Runnable(cfg) && cfg.hasPath && secret != ""
    requires Spent(Run(cfg, evs).mem.keys, secret)
    requires Run(cfg, evs).disk.Some? && Spent(Run(cfg, evs).disk.value.keys, secret)
    ensures (forall more :: Fresh(more, secret) && Onward(more, t) ==>
               !GrantedSince(Run(cfg, evs + more), |Run(cfg, evs).grants|, secret))
            <==> !Revivable(Run(cfg, evs), secret, t)
  {
    var st := Run(cfg, evs);
    if Revivable(st, secret, t) {
      var c :| c in st.conns && st.conns[c].phase.RegInstall? && st.conns[c].phase.captured.Some?
               && Consume(st.conns[c].phase.captured.value, secret, t).Some?;
      RequestInvariant(cfg, evs);
      var more := GrantedAgain(cfg, evs, c, secret, t);
    } else {
      DeadUnlessRevivable(cfg, evs, secret, t);
      forall more | Fresh(more, secret) && Onward(more, t)
        ensures !GrantedSince(Run(cfg, evs + more), |st.grants|, secret)
      {
        StaysDead(cfg, evs, more, secret, t);
      }
    }
  }

  /** A grant of a one-shot key leaves it used up in memory and in the file. */
  lemma GrantLeavesSpent(cfg: Config, st: Sys, c: nat, req: RegisterRequest, now: int)
    requires cfg.hasPath && c in st.conns && Consume(st.mem.keys, req.auth, now).Some?
    requires !st.mem.keys[FindKey(st.mem.keys, req.auth)].reusable
    ensures var st' := DoConsume(cfg, st, c, req, now);
            Spent(st'.mem.keys, req.auth) && st'.disk.Some? && Spent(st'.disk.value.keys, req.auth)
  {
    SpentConsume(st.mem.keys, req.auth, now, req.auth);
  }

  /** So at every grant of a one-shot key in every run: it was the last one if and only if nobody then
      holds a list, read while the key could still be granted, that has not been installed. */
  lemma LastGrantIff(cfg: Config, evs: seq<Event>, c: nat, now: int)
    requires Runnable(cfg) && cfg.hasPath && c in Run(cfg, evs).conns && Run(cfg, evs).conns[c].phase.RegConsume?
    requires var st := Run(cfg, evs);
             var secret := st.conns[c].phase.req.auth;
             && Consume(st.mem.keys, secret, now).Some? && !st.mem.keys[FindKey(st.mem.keys, secret)].reusable
    ensures var secret := Run(cfg, evs).conns[c].phase.req.auth;
            var granted := evs + [Advance(c, now)];
            && |Run(cfg, granted).grants| == |Run(cfg, evs).grants| + 1
            && Run(cfg, granted).grants[|Run(cfg, evs).grants|].secret == secret
            && ((forall more :: Fresh(more, secret) && Onward(more, now) ==>
                   !GrantedSince(Run(cfg, granted + more), |Run(cfg, granted).grants|, secret))
                <==> !Revivable(Run(cfg, evs), secret, now))
  {
    var st := Run(cfg, evs);
    var req := st.conns[c].phase.req;
    RequestInvariant(cfg, evs);
    assert RequestOk(st.conns[c].phase);
    RunStep(cfg, evs, Advance(c, now));
    GrantLeavesSpent(cfg, st, c, req, now);
    SpentForGoodIff(cfg, evs + [Advance(c, now)], req.auth, now);
    SameLists(st, DoConsume(cfg, st, c, req, now), c, req.auth, now);
  }

  lemma SameLists(st: Sys, st': Sys, c: nat, secret: string, t: int)
    requires c in st.conns && c in st'.conns && st'.conns.Keys == st.conns.Keys
    requires !st.conns[c].phase.RegInstall? && !st'.conns[c].phase.RegInstall?
    requires forall d :: d in st.conns && d != c ==> st'.conns[d] == st.conns[d]
    ensures Revivable(st', secret, t) <==> Revivable(st, secret, t)
  {
    forall d | d in st.conns && st.conns[d].phase.RegInstall?
      ensures d in st'.conns && st'.conns[d] == st.conns[d]
    {
    }
    forall d | d in st'.conns && st'.conns[d].phase.RegInstall?
      ensures d in st.conns && st'.conns[d] == st.conns[d]
    {
    }
  }
}
