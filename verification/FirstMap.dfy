/** The first map of a stream: exactly which runs leave it behind.

    on_map looks the map's own node up, then reads the list, then the generation. A mutation that
    another handler both makes and announces in between is missing in what was read first, and the
    generation that announces it is the stream's own. */
module FirstMap {
  import opened Bytes
  import opened StoreModel
  import opened Store
  import opened Coordinator
  import opened Fanout

  /** The states of a run: before the first event, and after each. */
  ghost function States(cfg: Config, evs: seq<Event>): (sts: seq<Sys>)
    requires Runnable(cfg)
    ensures |sts| == |evs| + 1
  {
    (if evs == [] then [] else States(cfg, evs[..|evs| - 1])) + [Run(cfg, evs)]
  }

  lemma {:induction false} StateAt(cfg: Config, evs: seq<Event>, n: nat)
    requires Runnable(cfg) && n <= |evs|
    ensures States(cfg, evs)[n] == Run(cfg, evs[..n])
  {
    if n == |evs| {
      assert evs[..n] == evs;
    } else {
      StateAt(cfg, evs[..|evs| - 1], n);
      assert evs[..|evs| - 1][..n] == evs[..n];
    }
  }

  /** Event a makes version k of the node list. */
  predicate Makes(sts: seq<Sys>, a: nat, k: nat) {
    a + 1 < |sts| && |sts[a].hist| == k && |sts[a + 1].hist| == k + 1
  }

  /** Event b is the bump that announces version k. */
  predicate Announces(sts: seq<Sys>, b: nat, k: nat) {
    b + 1 < |sts| && sts[b + 1].bumps == sts[b].bumps + [k]
  }

  predicate Serving(st: Sys, c: nat) {
    c in st.conns && (st.conns[c].phase.MapNodes? || st.conns[c].phase.MapLive?)
  }

  /** Event f is the look-up of the map that connection c is serving since. */
  predicate LookedUp(evs: seq<Event>, sts: seq<Sys>, c: nat, f: nat) {
    && |sts| == |evs| + 1 && f < |evs| && evs[f].Advance? && evs[f].c == c
    && c in sts[f].conns && sts[f].conns[c].phase.MapFind?
    && forall n :: f < n <= |evs| ==> Serving(sts[n], c)
  }

  /** After event f, some mutation is made and then announced. */
  ghost predicate Overtaken(sts: seq<Sys>, f: nat) {
    exists a, b, k :: f < a < b && Makes(sts, a, k) && Announces(sts, b, k)
  }

  // ---------------------------------------------------------------- one event

  /** An event adds at most one version or one bump. */
  ghost predicate Grows(st: Sys, st': Sys) {
    || (st'.hist == st.hist && st'.bumps == st.bumps)
    || (st'.bumps == st.bumps && st.hist <= st'.hist && |st'.hist| == |st.hist| + 1)
    || (st'.hist == st.hist && st.bumps <= st'.bumps && |st'.bumps| == |st.bumps| + 1)
  }

  lemma RegisterGrows(cfg: Config, st: Sys, c: nat, reg: Registration)
    requires Runnable(cfg) && c in st.conns
    ensures Grows(st, DoRegister(cfg, st, c, reg))
  {
  }

  lemma AdvanceGrows(cfg: Config, st: Sys, c: nat, now: int)
    requires Runnable(cfg) && c in st.conns
    ensures Grows(st, StepAdvance(cfg, st, c, now))
  {
    match st.conns[c].phase {
      case RegStore(reg) => RegisterGrows(cfg, st, c, reg);
      case MapOnline(req) =>
      case RegBump(at) =>
      case MapBump(req, at) =>
      case HangBump(at) =>
      case _ =>
        var st' := StepAdvance(cfg, st, c, now);
        assert st'.hist == st.hist && st'.bumps == st.bumps;
    }
  }

  lemma StepGrows(cfg: Config, st: Sys, ev: Event)
    requires Runnable(cfg) && !ev.Restart?
    ensures Grows(st, Step(cfg, st, ev))
  {
    if ev.Advance? && ev.c in st.conns {
      AdvanceGrows(cfg, st, ev.c, ev.now);
    }
  }

  /** A connection in the middle of something moves only when it advances. */
  lemma BusyStays(cfg: Config, st: Sys, ev: Event, c: nat)
    requires Runnable(cfg) && !ev.Restart? && c in st.conns && !st.conns[c].phase.Idle?
    requires !(ev.Advance? && ev.c == c)
    ensures var st' := Step(cfg, st, ev);
            c in st'.conns && st'.conns[c] == st.conns[c]
  {
    if ev.Advance? && ev.c in st.conns {
      AdvanceMoves(cfg, st, ev.c, ev.now);
    }
  }

  /** A map is served only after a look-up. */
  lemma ServingBegins(cfg: Config, st: Sys, ev: Event, c: nat)
    requires Runnable(cfg) && !Serving(st, c) && Serving(Step(cfg, st, ev), c)
    ensures ev.Advance? && ev.c == c && c in st.conns && st.conns[c].phase.MapFind?
  {
    if ev.Restart? {
      StartRestarts(cfg, st, ev.generated, ev.secret);
    } else if ev.Advance? && ev.c in st.conns {
      AdvanceMoves(cfg, st, ev.c, ev.now);
      if ev.c == c {
        ServingAdvance(cfg, st, c, ev.now);
      }
    }
  }

  lemma ServingAdvance(cfg: Config, st: Sys, c: nat, now: int)
    requires Runnable(cfg) && c in st.conns && Serving(StepAdvance(cfg, st, c, now), c)
    ensures st.conns[c].phase.MapFind? || st.conns[c].phase.MapNodes?
  {
  }

  // ---------------------------------------------------------------- versions and bumps

  /** From event f on, versions and bumps are only added. */
  ghost predicate GrowsFrom(sts: seq<Sys>, f: nat) {
    forall n :: f <= n < |sts| - 1 ==> Grows(sts[n], sts[n + 1])
  }

  lemma {:induction false} Extended(sts: seq<Sys>, f: nat, n: nat, m: nat)
    requires GrowsFrom(sts, f) && f <= n <= m < |sts|
    ensures Extends(sts[n], sts[m])
    decreases m
  {
    if n < m {
      Extended(sts, f, n, m - 1);
      assert Grows(sts[m - 1], sts[m - 1 + 1]);
    }
  }

  lemma {:induction false} MakeFound(sts: seq<Sys>, f: nat, n: nat, k: nat) returns (a: nat)
    requires GrowsFrom(sts, f) && f <= n < |sts| && |sts[f].hist| <= k < |sts[n].hist|
    ensures f <= a < n && Makes(sts, a, k)
    decreases n
  {
    assert Grows(sts[n - 1], sts[n - 1 + 1]);
    if k < |sts[n - 1].hist| {
      a := MakeFound(sts, f, n - 1, k);
    } else {
      a := n - 1;
    }
  }

  lemma {:induction false} BumpFound(sts: seq<Sys>, f: nat, n: nat, j: nat) returns (b: nat)
    requires GrowsFrom(sts, f) && f <= n < |sts| && |sts[f].bumps| <= j < |sts[n].bumps|
    ensures f <= b < n && Announces(sts, b, sts[n].bumps[j])
    decreases n
  {
    assert Grows(sts[n - 1], sts[n - 1 + 1]);
    if j < |sts[n - 1].bumps| {
      b := BumpFound(sts, f, n - 1, j);
    } else {
      b := n - 1;
      assert sts[n].bumps == sts[n - 1].bumps + [sts[n].bumps[j]];
    }
  }

  /** A version is made before it is announced. */
  lemma InOrder(sts: seq<Sys>, f: nat, a: nat, b: nat, k: nat)
    requires GrowsFrom(sts, f) && f <= a && f <= b && Makes(sts, a, k) && Announces(sts, b, k) && Base(sts[b + 1])
    ensures a < b
  {
    assert Grows(sts[b], sts[b + 1]);
    assert sts[b + 1].bumps[|sts[b].bumps|] == k;
    if b <= a {
      Extended(sts, f, b, a);
    }
  }

  /** The last state has announced something that the state of event f did not know yet, if and only
      if event f was overtaken. */
  lemma UncoveredIff(sts: seq<Sys>, f: nat, last: Sys)
    requires GrowsFrom(sts, f) && f + 1 < |sts| && sts[|sts| - 1] == last
    requires forall n :: f <= n < |sts| ==> Base(sts[n])
    requires sts[f + 1].hist == sts[f].hist && sts[f + 1].bumps == sts[f].bumps
    ensures Covered(last, last.gen, Now(sts[f])) <==> !Overtaken(sts, f)
  {
    if Overtaken(sts, f) {
      var a, b, k :| f < a < b && Makes(sts, a, k) && Announces(sts, b, k);
      Extended(sts, f, f, a);
      Extended(sts, f, b + 1, |sts| - 1);
      assert last.bumps[|sts[b].bumps|] == k;
    }
    if !Covered(last, last.gen, Now(sts[f])) {
      var j :| 0 <= j < |last.bumps| && last.bumps[j] > Now(sts[f]);
      IsOvertaken(sts, f, last, j);
    }
  }

  lemma IsOvertaken(sts: seq<Sys>, f: nat, last: Sys, j: nat)
    requires GrowsFrom(sts, f) && f + 1 < |sts| && sts[|sts| - 1] == last
    requires forall n :: f <= n < |sts| ==> Base(sts[n])
    requires sts[f + 1].hist == sts[f].hist && sts[f + 1].bumps == sts[f].bumps
    requires j < |last.bumps| && last.bumps[j] > Now(sts[f])
    ensures Overtaken(sts, f)
  {
    Extended(sts, f, f, |sts| - 1);
    var k := last.bumps[j];
    assert forall i :: 0 <= i < |sts[f].bumps| ==> last.bumps[i] == sts[f].bumps[i];
    var b := BumpFound(sts, f, |sts| - 1, j);
    var a := MakeFound(sts, f, |sts| - 1, k);
    InOrder(sts, f, a, b, k);
  }

  // ---------------------------------------------------------------- from the look-up on

  lemma {:induction false} LookUpExists(cfg: Config, evs: seq<Event>, c: nat) returns (f: nat)
    requires Runnable(cfg) && Serving(Run(cfg, evs), c)
    ensures LookedUp(evs, States(cfg, evs), c, f)
  {
    if evs != [] {
      var before, ev := evs[..|evs| - 1], evs[|evs| - 1];
      if Serving(Run(cfg, before), c) {
        f := LookUpExists(cfg, before, c);
      } else {
        f := |before|;
        ServingBegins(cfg, Run(cfg, before), ev, c);
      }
    }
  }

  lemma NextState(cfg: Config, evs: seq<Event>, n: nat)
    requires Runnable(cfg) && n < |evs|
    ensures States(cfg, evs)[n + 1] == Step(cfg, States(cfg, evs)[n], evs[n])
  {
    StateAt(cfg, evs, n);
    StateAt(cfg, evs, n + 1);
    RunNext(cfg, evs, n);
  }

  /** While a map is being served there is no restart. */
  lemma ServedGrows(cfg: Config, st: Sys, ev: Event, c: nat)
    requires Runnable(cfg) && Serving(Step(cfg, st, ev), c)
    ensures !ev.Restart? && Grows(st, Step(cfg, st, ev))
  {
    if ev.Restart? {
      StartRestarts(cfg, st, ev.generated, ev.secret);
    } else {
      StepGrows(cfg, st, ev);
    }
  }

  lemma GrowsSinceLookUp(cfg: Config, evs: seq<Event>, c: nat, f: nat)
    requires Runnable(cfg) && LookedUp(evs, States(cfg, evs), c, f)
    ensures GrowsFrom(States(cfg, evs), f)
  {
    var sts := States(cfg, evs);
    forall n | f <= n < |evs|
      ensures Grows(sts[n], sts[n + 1])
    {
      NextState(cfg, evs, n);
      ServedGrows(cfg, sts[n], evs[n], c);
    }
  }

  /** What a connection that serves a map remembers of the look-up. */
  predicate Remembers(st: Sys, c: nat, k: nat, g: nat) {
    Serving(st, c) && st.conns[c].phase.selfSeen == k && st.conns[c].phase.genFind == g
  }

  lemma StepRemembers(cfg: Config, st: Sys, ev: Event, c: nat, k: nat, g: nat)
    requires Runnable(cfg) && Remembers(st, c, k, g) && Serving(Step(cfg, st, ev), c)
    ensures Remembers(Step(cfg, st, ev), c, k, g)
  {
    ServedGrows(cfg, st, ev, c);
    if !(ev.Advance? && ev.c == c) {
      BusyStays(cfg, st, ev, c);
    }
  }

  /** The look-up changes nothing but the connection, which remembers when it was. */
  lemma LookUpStep(cfg: Config, st: Sys, ev: Event, c: nat)
    requires Runnable(cfg) && c in st.conns && st.conns[c].phase.MapFind? && ev.Advance? && ev.c == c
    requires Serving(Step(cfg, st, ev), c)
    ensures var st' := Step(cfg, st, ev);
            st'.hist == st.hist && st'.bumps == st.bumps && Remembers(st', c, Now(st), st.gen)
  {
    assert Step(cfg, st, ev) == DoMapFind(st, c, st.conns[c].phase.mreq);
  }

  lemma {:induction false} RemembersLookUp(cfg: Config, evs: seq<Event>, sts: seq<Sys>, c: nat, f: nat, n: nat)
    requires Runnable(cfg) && sts == States(cfg, evs) && LookedUp(evs, sts, c, f) && f < n <= |evs|
    ensures Remembers(sts[n], c, Now(sts[f]), sts[f].gen)
    decreases n
  {
    NextState(cfg, evs, n - 1);
    if n == f + 1 {
      LookUpStep(cfg, sts[f], evs[f], c);
    } else {
      RemembersLookUp(cfg, evs, sts, c, f, n - 1);
      StepRemembers(cfg, sts[n - 1], evs[n - 1], c, Now(sts[f]), sts[f].gen);
    }
  }

  lemma BasesOfRun(cfg: Config, evs: seq<Event>)
    requires Runnable(cfg)
    ensures forall n :: 0 <= n <= |evs| ==> Base(States(cfg, evs)[n])
  {
    forall n | 0 <= n <= |evs|
      ensures Base(States(cfg, evs)[n])
    {
      StateAt(cfg, evs, n);
      FanoutInvariant(cfg, evs[..n]);
    }
  }

  lemma CoveredIff(cfg: Config, evs: seq<Event>, sts: seq<Sys>, c: nat, f: nat)
    requires Runnable(cfg) && sts == States(cfg, evs) && LookedUp(evs, sts, c, f)
    ensures var st := sts[|evs|];
            Covered(st, st.gen, st.conns[c].phase.selfSeen) <==> !Overtaken(sts, f)
  {
    RemembersLookUp(cfg, evs, sts, c, f, |evs|);
    NextState(cfg, evs, f);
    LookUpStep(cfg, sts[f], evs[f], c);
    GrowsSinceLookUp(cfg, evs, c, f);
    BasesOfRun(cfg, evs);
    UncoveredIff(sts, f, sts[|evs|]);
  }

  // ---------------------------------------------------------------- the theorems

  /** The first map of a stream, entered by the event that reads the generation, shows in both halves
      every mutation announced up to that generation if and only if no event since the look-up made
      a mutation that a later one, before the entry, announced. */
  lemma FirstMapFreshIff(cfg: Config, evs: seq<Event>, c: nat, now: int) returns (m: Live, f: nat)
    requires Runnable(cfg) && c in Run(cfg, evs).conns && Run(cfg, evs).conns[c].phase.MapLive?
    ensures LookedUp(evs, States(cfg, evs), c, f)
    ensures var st := Run(cfg, evs);
            var st' := Run(cfg, evs + [Advance(c, now)]);
            var p := st.conns[c].phase;
            && c in st'.conns && st'.conns[c].live == st.conns[c].live + [m] && m.lastGen == st'.gen
            && LiveOk(st', st.conns[c].machine, m) && m.list == p.list && m.self == p.self
            && (Fresh(st', m) <==> !Overtaken(States(cfg, evs), f))
  {
    f := LookUpExists(cfg, evs, c);
    m := Enters(cfg, evs, c, now);
    CoveredIff(cfg, evs, States(cfg, evs), c, f);
  }

  lemma Enters(cfg: Config, evs: seq<Event>, c: nat, now: int) returns (m: Live)
    requires Runnable(cfg) && c in Run(cfg, evs).conns && Run(cfg, evs).conns[c].phase.MapLive?
    ensures var st := Run(cfg, evs);
            var st' := Run(cfg, evs + [Advance(c, now)]);
            var p := st.conns[c].phase;
            && c in st'.conns && st'.conns[c].live == st.conns[c].live + [m] && m.lastGen == st'.gen
            && LiveOk(st', st.conns[c].machine, m) && m.list == p.list && m.self == p.self
            && (Fresh(st', m) <==> Covered(st, st.gen, p.selfSeen))
  {
    FanoutInvariant(cfg, evs);
    FanoutInvariant(cfg, evs + [Advance(c, now)]);
    RunStep(cfg, evs, Advance(c, now));
    m := FirstEntry(cfg, Run(cfg, evs), c, now);
  }

  /** So it is fresh whenever no bump lands between looking up the node and reading the generation. */
  lemma FirstMapFreshWithoutBump(cfg: Config, evs: seq<Event>, c: nat, now: int) returns (m: Live)
    requires Runnable(cfg) && c in Run(cfg, evs).conns && Run(cfg, evs).conns[c].phase.MapLive?
    requires Run(cfg, evs).gen == Run(cfg, evs).conns[c].phase.genFind
    ensures var st' := Run(cfg, evs + [Advance(c, now)]);
            && c in st'.conns && st'.conns[c].live == Run(cfg, evs).conns[c].live + [m] && Fresh(st', m)
  {
    m := Enters(cfg, evs, c, now);
    FanoutInvariant(cfg, evs);
    assert ConnOk(Run(cfg, evs), Run(cfg, evs).conns[c]);
  }
}
