/** What a restart brings back: with a state file, every node as it was, up to who is online. */
module Durable {
  import opened Bytes
  import opened StoreModel
  import opened Store
  import opened Coordinator
  import Allocation
  import Convergence

  /** The file has every node as memory has it, but for the flags that are not saved. */
  ghost predicate Saved(cfg: Config, st: Sys) {
    cfg.hasPath ==> st.disk.Some? && Convergence.SameButOnline(st.mem.nodes, st.disk.value.nodes)
  }

  lemma SetOnlineSame(nodes: seq<Node>, machine: string, online: bool)
    ensures Convergence.SameButOnline(nodes, SetOnline(nodes, machine, online))
  {
  }

  lemma SameSymmetric(xs: seq<Node>, ys: seq<Node>, zs: seq<Node>)
    requires Convergence.SameButOnline(xs, ys) && Convergence.SameButOnline(xs, zs)
    ensures Convergence.SameButOnline(ys, zs)
  {
    forall i | 0 <= i < |ys|
      ensures Convergence.Offline(ys[i]) == Convergence.Offline(zs[i])
    {
      assert Convergence.Offline(xs[i]) == Convergence.Offline(ys[i]);
    }
  }

  /** The nodes change only online flags, or the whole memory is saved. */
  ghost predicate Kept(cfg: Config, st: Sys, st': Sys) {
    || (st'.disk == st.disk && Convergence.SameButOnline(st.mem.nodes, st'.mem.nodes))
    || st'.disk == (if cfg.hasPath then Some(st'.mem) else st.disk)
  }

  lemma RegisterKept(cfg: Config, st: Sys, c: nat, reg: Registration)
    requires Runnable(cfg) && c in st.conns
    ensures Kept(cfg, st, DoRegister(cfg, st, c, reg))
  {
  }

  lemma AdvanceKept(cfg: Config, st: Sys, c: nat, now: int)
    requires Runnable(cfg) && c in st.conns
    ensures Kept(cfg, st, StepAdvance(cfg, st, c, now))
  {
    match st.conns[c].phase {
      case RegStore(reg) => RegisterKept(cfg, st, c, reg);
      case RegConsume(req) =>
      case MapOnline(req) => SetOnlineSame(st.mem.nodes, st.conns[c].machine, true);
      case _ =>
        var st' := StepAdvance(cfg, st, c, now);
        assert st'.mem.nodes == st.mem.nodes && st'.disk == st.disk;
    }
  }

  lemma StepKept(cfg: Config, st: Sys, ev: Event)
    requires Runnable(cfg) && !ev.Restart?
    ensures Kept(cfg, st, Step(cfg, st, ev))
  {
    if ev.Advance? && ev.c in st.conns {
      AdvanceKept(cfg, st, ev.c, ev.now);
    } else if ev.Hangup? && AtRest(st, ev.c) {
      SetOnlineSame(st.mem.nodes, st.conns[ev.c].machine, false);
    }
  }

  lemma KeptSaved(cfg: Config, st: Sys, st': Sys)
    requires Saved(cfg, st) && Kept(cfg, st, st')
    ensures Saved(cfg, st')
  {
    if cfg.hasPath && st'.disk == st.disk && Convergence.SameButOnline(st.mem.nodes, st'.mem.nodes) {
      SameSymmetric(st.mem.nodes, st'.mem.nodes, st.disk.value.nodes);
    }
  }

  /** Ids below 2^31 are read back as they are. */
  lemma Reloaded(cfg: Config, st: Sys)
    requires Runnable(cfg) && cfg.hasPath && Allocation.AllocInv(cfg, st) && st.attempts < TWO_31
    ensures st.disk.Some? && Narrowed(st.disk.value).nodes == st.disk.value.nodes
  {
    Allocation.ReloadedNodes(cfg.pool, st.mem.nodes, st.disk.value, st.attempts);
  }

  lemma {:induction false} FileIsCurrent(cfg: Config, evs: seq<Event>)
    requires Runnable(cfg) && Run(cfg, evs).attempts < TWO_31
    ensures Saved(cfg, Run(cfg, evs))
  {
    if evs == [] {
      StartRestarts(cfg, Sys(EMPTY_MEM, None, 1, map[], 0, [], [], [], 0, []), cfg.firstNoise, cfg.firstSecret);
      Allocation.FirstStart(cfg);
    } else {
      var before, ev := evs[..|evs| - 1], evs[|evs| - 1];
      var st := Run(cfg, before);
      Allocation.AllocationInvariant(cfg, before);
      AttemptsGrow(cfg, st, ev);
      FileIsCurrent(cfg, before);
      if ev.Restart? {
        if cfg.hasPath {
          RestartSaved(cfg, st, ev);
        }
      } else {
        StepKept(cfg, st, ev);
        KeptSaved(cfg, st, Step(cfg, st, ev));
      }
    }
  }

  lemma AttemptsGrow(cfg: Config, st: Sys, ev: Event)
    requires Runnable(cfg)
    ensures st.attempts <= Step(cfg, st, ev).attempts
  {
    if !ev.Restart? {
      Allocation.StepShape(cfg, st, ev);
    }
  }

  lemma RestartSaved(cfg: Config, st: Sys, ev: Event)
    requires Runnable(cfg) && ev.Restart? && cfg.hasPath && Allocation.AllocInv(cfg, st) && st.attempts < TWO_31
    ensures st.disk.Some? && Step(cfg, st, ev).mem.nodes == st.disk.value.nodes
    ensures Saved(cfg, Step(cfg, st, ev))
  {
    Reloaded(cfg, st);
    StartRestarts(cfg, st, ev.generated, ev.secret);
  }

  /** Whatever happened before, a restart with a file brings back every node, in order and with all it
      had registered and announced of itself; only online flags may be older. */
  lemma NodesSurviveRestart(cfg: Config, evs: seq<Event>, generated: Bytes32, secret: string)
    requires Runnable(cfg) && cfg.hasPath && Run(cfg, evs).attempts < TWO_31
    ensures Convergence.SameButOnline(Run(cfg, evs).mem.nodes,
                                      Run(cfg, evs + [Restart(generated, secret)]).mem.nodes)
  {
    FileIsCurrent(cfg, evs);
    Allocation.AllocationInvariant(cfg, evs);
    RunStep(cfg, evs, Restart(generated, secret));
    RestartSaved(cfg, Run(cfg, evs), Restart(generated, secret));
  }
}
