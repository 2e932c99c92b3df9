/** Host names over whole runs: no node ever loses its name, so the fallback label that
    src/netmap.cpp and src/dns.cpp compute for a nameless node is never used. */
module Hostnames {
  import opened Bytes
  import opened StoreModel
  import opened Store
  import opened Netmap
  import opened Coordinator

  predicate Named(nodes: seq<Node>) {
    forall i :: 0 <= i < |nodes| ==> nodes[i].hostname != ""
  }

  ghost predicate NamedInv(st: Sys) {
    Named(st.mem.nodes) && (st.disk.Some? ==> Named(st.disk.value.nodes))
  }

  lemma AdvanceNamed(cfg: Config, st: Sys, c: nat, now: int)
    requires Runnable(cfg) && c in st.conns && NamedInv(st)
    ensures var st' := StepAdvance(cfg, st, c, now);
            Named(st'.mem.nodes) && DiskFollows(cfg, st, st')
  {
    match st.conns[c].phase {
      case RegStore(reg) => RegisterNamed(cfg, st, c, reg);
      case MapOnline(req) =>
      case _ =>
        assert StepAdvance(cfg, st, c, now).mem.nodes == st.mem.nodes;
    }
  }

  lemma RegisterNamed(cfg: Config, st: Sys, c: nat, reg: Registration)
    requires Runnable(cfg) && c in st.conns && Named(st.mem.nodes)
    ensures var st' := DoRegister(cfg, st, c, reg);
            Named(st'.mem.nodes) && DiskFollows(cfg, st, st')
  {
  }

  lemma StepNamed(cfg: Config, st: Sys, ev: Event)
    requires Runnable(cfg) && NamedInv(st)
    ensures NamedInv(Step(cfg, st, ev))
  {
    var st' := Step(cfg, st, ev);
    if ev.Restart? {
      StartRestarts(cfg, st, ev.generated, ev.secret);
      RestartNamed(cfg, st, st');
    } else if ev.Advance? && ev.c in st.conns {
      AdvanceNamed(cfg, st, ev.c, ev.now);
    } else {
      assert Named(st'.mem.nodes) && DiskFollows(cfg, st, st');
    }
  }

  lemma RestartNamed(cfg: Config, st: Sys, st': Sys)
    requires NamedInv(st) && Restarted(cfg, st, st')
    ensures NamedInv(st')
  {
  }

  lemma {:induction false} NamesNeverLost(cfg: Config, evs: seq<Event>)
    requires Runnable(cfg)
    ensures NamedInv(Run(cfg, evs))
  {
    if evs == [] {
      var before := Sys(EMPTY_MEM, None, 1, map[], 0, [], [], [], 0, []);
      StartRestarts(cfg, before, cfg.firstNoise, cfg.firstSecret);
    } else {
      NamesNeverLost(cfg, evs[..|evs| - 1]);
      StepNamed(cfg, Run(cfg, evs[..|evs| - 1]), evs[|evs| - 1]);
    }
  }

  /** In every run, the label shown in maps and answered by the resolver is the node's host name. */
  lemma LabelIsHostname(cfg: Config, evs: seq<Event>, i: nat)
    requires Runnable(cfg) && i < |Run(cfg, evs).mem.nodes|
    ensures HostLabel(Run(cfg, evs).mem.nodes[i]) == Run(cfg, evs).mem.nodes[i].hostname
  {
    NamesNeverLost(cfg, evs);
  }
}
