/** Preauth keys over whole runs: where they come from, and whether they last.

    A key that is granted is one that was made, with its token and flags. A key that is made lasts
    unless a consume_preauth read the file before and has not taken the lock yet: it then puts the
    old list back. */
module Keys {
  import opened Bytes
  import opened StoreModel
  import opened Store
  import opened Coordinator
  import opened Allocation
  import OneShot

  /** What a key keeps for life: loading narrows its expiry, consuming marks it used. */
  predicate SameKey(a: PreauthKey, b: PreauthKey) {
    a.(used := b.used, expires := b.expires) == b
  }

  predicate SameKeys(xs: seq<PreauthKey>, ys: seq<PreauthKey>) {
    |xs| == |ys| && forall i :: 0 <= i < |xs| ==> SameKey(xs[i], ys[i])
  }

  // ---------------------------------------------------------------- every list of keys

  /** P holds of every list of keys there is: in memory, in the file, and read but not installed. */
  ghost predicate Everywhere(st: Sys, P: seq<PreauthKey> -> bool) {
    && P(st.mem.keys) && (st.disk.Some? ==> P(st.disk.value.keys))
    && forall c :: c in st.conns && st.conns[c].phase.RegInstall? && st.conns[c].phase.captured.Some? ==>
         P(st.conns[c].phase.captured.value)
  }

  ghost predicate Stable(P: seq<PreauthKey> -> bool) {
    forall xs, ys :: P(xs) && SameKeys(xs, ys) ==> P(ys)
  }

  /** A start finds keys in the file. */
  predicate FindsKeys(cfg: Config, st: Sys) {
    cfg.hasPath && st.disk.Some? && st.disk.value.keys != []
  }

  /** P also holds of the list that the event makes anew, if it makes one. */
  predicate Admissible(cfg: Config, st: Sys, ev: Event, P: seq<PreauthKey> -> bool) {
    && (ev.CreateKey? ==> P(st.mem.keys + [MakeKey(ev.ask)]))
    && (ev.Restart? && !FindsKeys(cfg, st) ==> P([BootKey(ev.secret)]))
  }

  lemma ConsumeSame(keys: seq<PreauthKey>, secret: string, now: int)
    requires Consume(keys, secret, now).Some?
    ensures SameKeys(keys, Consume(keys, secret, now).value.1)
  {
  }

  lemma NarrowedSame(keys: seq<PreauthKey>)
    ensures SameKeys(keys, NarrowedKeys(keys))
  {
  }

  lemma ConsumeEverywhere(cfg: Config, st: Sys, c: nat, req: RegisterRequest, now: int, P: seq<PreauthKey> -> bool)
    requires c in st.conns && Everywhere(st, P) && Stable(P)
    ensures Everywhere(DoConsume(cfg, st, c, req, now), P)
  {
    if Consume(st.mem.keys, req.auth, now).Some? {
      ConsumeSame(st.mem.keys, req.auth, now);
    }
  }

  lemma ReadEverywhere(cfg: Config, st: Sys, c: nat, req: RegisterRequest, P: seq<PreauthKey> -> bool)
    requires c in st.conns && Everywhere(st, P) && Stable(P)
    ensures Everywhere(Go(st, c, RegInstall(req, KeysOnDisk(cfg.hasPath, FileOf(st)))), P)
  {
    if cfg.hasPath && st.disk.Some? {
      SaveThenLoadKeys(st.disk.value.keys);
      NarrowedSame(st.disk.value.keys);
    }
  }

  /** Starting takes the file's keys, or makes a first one. */
  lemma BootKeys(cfg: Config, disk: Option<Mem>, generated: Bytes32, secret: string)
    ensures var keys := BootMem(cfg, disk, generated, secret).keys;
            if cfg.hasPath && disk.Some? && disk.value.keys != [] then keys == NarrowedKeys(disk.value.keys)
            else keys == [BootKey(secret)]
  {
    if disk.Some? {
      SaveThenLoad(EMPTY_MEM, disk.value);
    }
  }

  lemma StartEverywhere(cfg: Config, st: Sys, generated: Bytes32, secret: string, P: seq<PreauthKey> -> bool)
    requires Everywhere(st, P) && Stable(P) && Admissible(cfg, st, Restart(generated, secret), P)
    ensures Everywhere(Start(cfg, st, generated, secret), P)
  {
    BootKeys(cfg, st.disk, generated, secret);
    StartRestarts(cfg, st, generated, secret);
    if st.disk.Some? {
      NarrowedSame(st.disk.value.keys);
    }
  }

  lemma StepEverywhere(cfg: Config, st: Sys, ev: Event, P: seq<PreauthKey> -> bool)
    requires Runnable(cfg) && Everywhere(st, P) && Stable(P) && Admissible(cfg, st, ev, P)
    ensures Everywhere(Step(cfg, st, ev), P)
  {
    if !OneShot.TouchesKeys(st, ev) {
      OneShot.QuietKeysStep(cfg, st, ev);
    } else if ev.Restart? {
      StartEverywhere(cfg, st, ev.generated, ev.secret, P);
    } else if ev.Advance? {
      match st.conns[ev.c].phase {
        case RegReadDisk(req) => ReadEverywhere(cfg, st, ev.c, req, P);
        case RegInstall(req, captured) =>
        case RegConsume(req) => ConsumeEverywhere(cfg, st, ev.c, req, ev.now, P);
      }
    }
  }

  // ---------------------------------------------------------------- granted keys were made

  /** The keys that a run makes: the first one, those asked for, and one for each start that finds no
      keys in the file. */
  function Issued(cfg: Config, evs: seq<Event>): seq<PreauthKey>
    requires Runnable(cfg)
  {
    if evs == [] then [BootKey(cfg.firstSecret)] else
    Issued(cfg, evs[..|evs| - 1]) +
    match evs[|evs| - 1]
    case CreateKey(ask) => [MakeKey(ask)]
    case Restart(_, secret) => if FindsKeys(cfg, Run(cfg, evs[..|evs| - 1])) then [] else [BootKey(secret)]
    case _ => []
  }

  ghost predicate Made(issued: seq<PreauthKey>, k: PreauthKey) {
    exists i :: 0 <= i < |issued| && SameKey(issued[i], k)
  }

  ghost predicate AllMade(issued: seq<PreauthKey>, keys: seq<PreauthKey>) {
    forall i :: 0 <= i < |keys| ==> Made(issued, keys[i])
  }

  /** The grant was of this key, and gave what it carries. */
  predicate GrantOf(g: Grant, k: PreauthKey) {
    k.key == g.secret && k.reusable == g.reusable && ClaimOf(k) == g.claim
  }

  ghost predicate GrantMade(issued: seq<PreauthKey>, g: Grant) {
    exists i :: 0 <= i < |issued| && GrantOf(g, issued[i])
  }

  lemma MadeKept(xs: seq<PreauthKey>, ys: seq<PreauthKey>, a: PreauthKey, b: PreauthKey)
    requires xs <= ys && SameKey(a, b) && Made(xs, a)
    ensures Made(ys, b)
  {
    var i :| 0 <= i < |xs| && SameKey(xs[i], a);
    assert SameKey(ys[i], b);
  }

  lemma AllMadeKept(xs: seq<PreauthKey>, ys: seq<PreauthKey>, a: seq<PreauthKey>, b: seq<PreauthKey>)
    requires xs <= ys && SameKeys(a, b) && AllMade(xs, a)
    ensures AllMade(ys, b)
  {
    forall i | 0 <= i < |b|
      ensures Made(ys, b[i])
    {
      MadeKept(xs, ys, a[i], b[i]);
    }
  }

  lemma AllMadeStable(issued: seq<PreauthKey>)
    ensures Stable(ks => AllMade(issued, ks))
  {
    forall xs, ys | AllMade(issued, xs) && SameKeys(xs, ys)
      ensures AllMade(issued, ys)
    {
      AllMadeKept(issued, issued, xs, ys);
    }
  }

  ghost predicate MadeInv(issued: seq<PreauthKey>, st: Sys) {
    && Everywhere(st, ks => AllMade(issued, ks))
    && forall i :: 0 <= i < |st.grants| ==> GrantMade(issued, st.grants[i])
  }

  lemma MadeInvKept(xs: seq<PreauthKey>, ys: seq<PreauthKey>, st: Sys)
    requires xs <= ys && MadeInv(xs, st)
    ensures MadeInv(ys, st)
  {
    forall ks | AllMade(xs, ks)
      ensures AllMade(ys, ks)
    {
      AllMadeKept(xs, ys, ks, ks);
    }
    forall i | 0 <= i < |st.grants|
      ensures GrantMade(ys, st.grants[i])
    {
      assert GrantMade(xs, st.grants[i]);
      var j :| 0 <= j < |xs| && GrantOf(st.grants[i], xs[j]);
      assert GrantOf(st.grants[i], ys[j]);
    }
  }

  /** Only a consume grants, and what it grants is a key in memory. */
  lemma GrantStep(cfg: Config, st: Sys, ev: Event, issued: seq<PreauthKey>)
    requires Runnable(cfg) && MadeInv(issued, st)
    ensures var st' := Step(cfg, st, ev);
            forall i :: 0 <= i < |st'.grants| ==> GrantMade(issued, st'.grants[i])
  {
    if ev.Advance? && ev.c in st.conns && st.conns[ev.c].phase.RegConsume? {
      ConsumeGrants(cfg, st, ev.c, st.conns[ev.c].phase.req, ev.now, issued);
    } else if ev.Restart? {
      StartRestarts(cfg, st, ev.generated, ev.secret);
    } else {
      GrantsQuiet(cfg, st, ev);
    }
  }

  lemma GrantsQuiet(cfg: Config, st: Sys, ev: Event)
    requires Runnable(cfg) && !ev.Restart? && !(ev.Advance? && ev.c in st.conns && st.conns[ev.c].phase.RegConsume?)
    ensures Step(cfg, st, ev).grants == st.grants
  {
    if !OneShot.TouchesKeys(st, ev) {
      OneShot.QuietKeysStep(cfg, st, ev);
    }
  }

  lemma ConsumeGrants(cfg: Config, st: Sys, c: nat, req: RegisterRequest, now: int, issued: seq<PreauthKey>)
    requires c in st.conns && MadeInv(issued, st)
    ensures var st' := DoConsume(cfg, st, c, req, now);
            forall i :: 0 <= i < |st'.grants| ==> GrantMade(issued, st'.grants[i])
  {
    if Consume(st.mem.keys, req.auth, now).Some? {
      var i := FindKey(st.mem.keys, req.auth);
      assert AllMade(issued, st.mem.keys) && Made(issued, st.mem.keys[i]);
      var j :| 0 <= j < |issued| && SameKey(issued[j], st.mem.keys[i]);
      var st' := DoConsume(cfg, st, c, req, now);
      assert GrantOf(st'.grants[|st.grants|], issued[j]);
    }
  }

  lemma EventAdmissible(cfg: Config, st: Sys, ev: Event, issued: seq<PreauthKey>)
    requires AllMade(issued, st.mem.keys)
    requires ev.CreateKey? ==> MakeKey(ev.ask) in issued
    requires ev.Restart? && !FindsKeys(cfg, st) ==> BootKey(ev.secret) in issued
    ensures Admissible(cfg, st, ev, ks => AllMade(issued, ks))
  {
    if ev.CreateKey? {
      var i :| 0 <= i < |issued| && issued[i] == MakeKey(ev.ask);
      assert SameKey(issued[i], MakeKey(ev.ask));
    } else if ev.Restart? && !FindsKeys(cfg, st) {
      var i :| 0 <= i < |issued| && issued[i] == BootKey(ev.secret);
      assert SameKey(issued[i], BootKey(ev.secret));
    }
  }

  lemma MadeStep(cfg: Config, st: Sys, ev: Event, issued: seq<PreauthKey>)
    requires Runnable(cfg) && MadeInv(issued, st)
    requires ev.CreateKey? ==> MakeKey(ev.ask) in issued
    requires ev.Restart? && !FindsKeys(cfg, st) ==> BootKey(ev.secret) in issued
    ensures MadeInv(issued, Step(cfg, st, ev))
  {
    AllMadeStable(issued);
    EventAdmissible(cfg, st, ev, issued);
    StepEverywhere(cfg, st, ev, ks => AllMade(issued, ks));
    GrantStep(cfg, st, ev, issued);
  }

  lemma {:induction false} MadeInvariant(cfg: Config, evs: seq<Event>)
    requires Runnable(cfg)
    ensures MadeInv(Issued(cfg, evs), Run(cfg, evs))
  {
    if evs == [] {
      FirstKeyMade(cfg);
    } else {
      var before, ev := evs[..|evs| - 1], evs[|evs| - 1];
      MadeInvariant(cfg, before);
      MadeInvKept(Issued(cfg, before), Issued(cfg, evs), Run(cfg, before));
      MadeStep(cfg, Run(cfg, before), ev, Issued(cfg, evs));
    }
  }

  lemma FirstKeyMade(cfg: Config)
    requires Runnable(cfg)
    ensures MadeInv(Issued(cfg, []), Run(cfg, []))
  {
    var st, key := Run(cfg, []), BootKey(cfg.firstSecret);
    BootKeys(cfg, None, cfg.firstNoise, cfg.firstSecret);
    assert SameKey(Issued(cfg, [])[0], key);
    assert Made(Issued(cfg, []), key);
  }

  /** In every run, whatever the interleaving: every grant was of a key that had been made, and gave
      the token, shared and ephemeral flags of that key. */
  lemma GrantedKeysWereMade(cfg: Config, evs: seq<Event>, i: nat)
    requires Runnable(cfg) && i < |Run(cfg, evs).grants|
    ensures GrantMade(Issued(cfg, evs), Run(cfg, evs).grants[i])
  {
    MadeInvariant(cfg, evs);
  }

  // ---------------------------------------------------------------- made keys last

  predicate Has(keys: seq<PreauthKey>, key: PreauthKey) {
    exists i :: 0 <= i < |keys| && SameKey(keys[i], key)
  }

  /** The key is in memory, and in the file if there is one. */
  predicate Kept(cfg: Config, st: Sys, key: PreauthKey) {
    Has(st.mem.keys, key) && (cfg.hasPath ==> st.disk.Some? && Has(st.disk.value.keys, key))
  }

  /** Some consume_preauth has read keys from the file, not this one, and has not installed them. */
  ghost predicate ReadWithout(st: Sys, key: PreauthKey) {
    exists c :: c in st.conns && st.conns[c].phase.RegInstall? && st.conns[c].phase.captured.Some?
                && !Has(st.conns[c].phase.captured.value, key)
  }

  ghost predicate HasEverywhere(st: Sys, key: PreauthKey) {
    Everywhere(st, ks => Has(ks, key))
  }

  lemma HasSame(xs: seq<PreauthKey>, ys: seq<PreauthKey>, key: PreauthKey)
    requires Has(xs, key) && SameKeys(xs, ys)
    ensures Has(ys, key)
  {
    var i :| 0 <= i < |xs| && SameKey(xs[i], key);
    assert SameKey(ys[i], key);
  }

  lemma HasStable(key: PreauthKey)
    ensures Stable(ks => Has(ks, key))
  {
    forall xs, ys | Has(xs, key) && SameKeys(xs, ys)
      ensures Has(ys, key)
    {
      HasSame(xs, ys, key);
    }
  }

  /** There is a file once there should be one. */
  lemma {:induction false} FileThere(cfg: Config, evs: seq<Event>)
    requires Runnable(cfg) && cfg.hasPath
    ensures Run(cfg, evs).disk.Some?
  {
    if evs == [] {
    } else {
      var before, ev := evs[..|evs| - 1], evs[|evs| - 1];
      FileThere(cfg, before);
      FileStays(cfg, Run(cfg, before), ev);
    }
  }

  lemma FileStays(cfg: Config, st: Sys, ev: Event)
    requires Runnable(cfg) && cfg.hasPath && st.disk.Some?
    ensures Step(cfg, st, ev).disk.Some?
  {
    if !OneShot.TouchesKeys(st, ev) {
      OneShot.QuietKeysStep(cfg, st, ev);
    }
  }

  lemma AppendHas(keys: seq<PreauthKey>, k: PreauthKey, key: PreauthKey)
    requires Has(keys, key) || SameKey(k, key)
    ensures Has(keys + [k], key)
  {
    if SameKey(k, key) {
      assert (keys + [k])[|keys|] == k;
    } else {
      var i :| 0 <= i < |keys| && SameKey(keys[i], key);
      assert (keys + [k])[i] == keys[i];
    }
  }

  lemma HasAdmissible(cfg: Config, st: Sys, ev: Event, key: PreauthKey)
    requires Has(st.mem.keys, key) && (cfg.hasPath || !ev.Restart?)
    requires cfg.hasPath ==> st.disk.Some? && Has(st.disk.value.keys, key)
    ensures Admissible(cfg, st, ev, ks => Has(ks, key))
  {
    if ev.CreateKey? {
      AppendHas(st.mem.keys, MakeKey(ev.ask), key);
    }
  }

  lemma LastsStep(cfg: Config, st: Sys, ev: Event, key: PreauthKey)
    requires Runnable(cfg) && (if cfg.hasPath then st.disk.Some? else !ev.Restart?)
    requires HasEverywhere(st, key)
    ensures HasEverywhere(Step(cfg, st, ev), key)
  {
    HasStable(key);
    HasAdmissible(cfg, st, ev, key);
    StepEverywhere(cfg, st, ev, ks => Has(ks, key));
  }

  lemma {:induction false} LastsEverywhere(cfg: Config, evs: seq<Event>, key: PreauthKey, more: seq<Event>)
    requires Runnable(cfg) && (cfg.hasPath || RestartFree(more))
    requires HasEverywhere(Run(cfg, evs), key)
    ensures HasEverywhere(Run(cfg, evs + more), key)
    decreases |more|
  {
    if more == [] {
      assert evs + more == evs;
    } else {
      var init, ev := more[..|more| - 1], more[|more| - 1];
      LastsEverywhere(cfg, evs, key, init);
      if cfg.hasPath {
        FileThere(cfg, evs + init);
      }
      LastsStep(cfg, Run(cfg, evs + init), ev, key);
      assert evs + more == evs + init + [ev];
      RunStep(cfg, evs + init, ev);
    }
  }

  lemma CreatedEverywhere(cfg: Config, st: Sys, ask: KeyRequest)
    requires Runnable(cfg) && !ReadWithout(st, MakeKey(ask)) && (cfg.hasPath || st.disk.None?)
    ensures HasEverywhere(Step(cfg, st, CreateKey(ask)), MakeKey(ask))
  {
    AppendHas(st.mem.keys, MakeKey(ask), MakeKey(ask));
  }

  lemma {:induction false} NoFileThere(cfg: Config, evs: seq<Event>)
    requires Runnable(cfg) && !cfg.hasPath
    ensures Run(cfg, evs).disk.None?
  {
    if evs != [] {
      var before, ev := evs[..|evs| - 1], evs[|evs| - 1];
      NoFileThere(cfg, before);
      NoFileStays(cfg, Run(cfg, before), ev);
    }
  }

  lemma NoFileStays(cfg: Config, st: Sys, ev: Event)
    requires Runnable(cfg) && !cfg.hasPath && st.disk.None?
    ensures Step(cfg, st, ev).disk.None?
  {
    if !OneShot.TouchesKeys(st, ev) {
      OneShot.QuietKeysStep(cfg, st, ev);
    }
  }

  /** A pending install of an older list removes the new key from memory, and the next save from
      the file. */
  lemma PendingInstallDrops(cfg: Config, evs: seq<Event>, ask: KeyRequest, c: nat)
    requires Runnable(cfg)
    requires var st := Run(cfg, evs);
             && c in st.conns && st.conns[c].phase.RegInstall? && st.conns[c].phase.captured.Some?
             && !Has(st.conns[c].phase.captured.value, MakeKey(ask))
    ensures !Has(Run(cfg, evs + [CreateKey(ask)] + [Advance(c, 0), Persist]).mem.keys, MakeKey(ask))
    ensures cfg.hasPath ==> !Kept(cfg, Run(cfg, evs + [CreateKey(ask)] + [Advance(c, 0), Persist]), MakeKey(ask))
  {
    var made := evs + [CreateKey(ask)];
    RunStep(cfg, evs, CreateKey(ask));
    RunStep(cfg, made, Advance(c, 0));
    RunStep(cfg, made + [Advance(c, 0)], Persist);
    assert made + [Advance(c, 0), Persist] == made + [Advance(c, 0)] + [Persist];
  }

  /** A key made at any point of any run is kept through everything that can follow, restarts
      included if there is a file, if and only if no consume_preauth is at that point between
      reading a file without it and taking the lock. */
  lemma CreatedKeyLastsIff(cfg: Config, evs: seq<Event>, ask: KeyRequest)
    requires Runnable(cfg)
    ensures (forall more :: cfg.hasPath || RestartFree(more) ==>
               Kept(cfg, Run(cfg, evs + [CreateKey(ask)] + more), MakeKey(ask)))
            <==> !ReadWithout(Run(cfg, evs), MakeKey(ask))
  {
    var st := Run(cfg, evs);
    if ReadWithout(st, MakeKey(ask)) {
      var c :| c in st.conns && st.conns[c].phase.RegInstall? && st.conns[c].phase.captured.Some?
               && !Has(st.conns[c].phase.captured.value, MakeKey(ask));
      PendingInstallDrops(cfg, evs, ask, c);
      assert RestartFree([Advance(c, 0), Persist]);
    } else {
      if !cfg.hasPath {
        NoFileThere(cfg, evs);
      }
      RunStep(cfg, evs, CreateKey(ask));
      CreatedEverywhere(cfg, st, ask);
      forall more | cfg.hasPath || RestartFree(more)
        ensures Kept(cfg, Run(cfg, evs + [CreateKey(ask)] + more), MakeKey(ask))
      {
        LastsEverywhere(cfg, evs + [CreateKey(ask)], MakeKey(ask), more);
        if cfg.hasPath {
          FileThere(cfg, evs + [CreateKey(ask)] + more);
        }
      }
    }
  }
}
