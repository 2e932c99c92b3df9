/** The server's noise key over whole runs: clients pin its public half, so a server with a state file
    must come back with the same key after every restart. */
module NoiseKey {
  import opened Bytes
  import opened Crypto
  import opened StoreModel
  import opened Store
  import opened Coordinator

  /** The key in a file, if it has one that decodes and is not all zeros. */
  function KeyInFile(hasPath: bool, file: Option<Json>): Option<Bytes32> {
    if hasPath && file.Some? && file.value.noise.Some? then
      match HexBytes(file.value.noise.value, 32)
      case None => None
      case Some(key) => if key == Zeros(32) then None else Some(key)
    else None
  }

  /** What load_or_init does about the key: keeps the file's if it has one, and otherwise takes the
      generated one and saves. */
  lemma LoadedKey(hasPath: bool, file: Option<Json>, generated: Bytes32)
    ensures var found, m := KeyInFile(hasPath, file), Loaded(hasPath, file, generated);
            && m.noise == (if found.Some? then found.value else generated)
            && FileAfterLoad(hasPath, file, generated) == (if found.Some? then file else Saved(hasPath, file, m))
  {
  }

  lemma SavedKey(m: Mem)
    ensures KeyInFile(true, Some(Snapshot(m))) == if m.noise == Zeros(32) then None else Some(m.noise)
  {
    HexRoundTrip(m.noise);
  }

  /** At a start the key in memory is the file's if that has one, and the generated one otherwise; and
      the file then has it too. */
  lemma StartKey(cfg: Config, st: Sys, generated: Bytes32, secret: string)
    ensures var st' := Start(cfg, st, generated, secret);
            && st'.mem.noise == (if cfg.hasPath && st.disk.Some? && st.disk.value.noise != Zeros(32)
                                 then st.disk.value.noise else generated)
            && (cfg.hasPath ==> st'.disk.Some? && st'.disk.value.noise == st'.mem.noise)
  {
    LoadedKey(cfg.hasPath, FileOf(st), generated);
    if st.disk.Some? {
      SavedKey(st.disk.value);
      SaveThenLoad(EMPTY_MEM, st.disk.value);
    }
  }

  lemma AdvanceQuiet(cfg: Config, st: Sys, c: nat, now: int)
    requires Runnable(cfg) && c in st.conns
    ensures var st' := StepAdvance(cfg, st, c, now);
            st'.mem.noise == st.mem.noise && DiskFollows(cfg, st, st')
  {
    match st.conns[c].phase {
      case RegStore(reg) => RegisterQuiet(cfg, st, c, reg);
      case RegConsume(req) => ConsumeQuiet(cfg, st, c, req, now);
      case _ =>
        var st' := StepAdvance(cfg, st, c, now);
        assert st'.mem.noise == st.mem.noise && st'.disk == st.disk;
    }
  }

  lemma RegisterQuiet(cfg: Config, st: Sys, c: nat, reg: Registration)
    requires Runnable(cfg) && c in st.conns
    ensures var st' := DoRegister(cfg, st, c, reg);
            st'.mem.noise == st.mem.noise && DiskFollows(cfg, st, st')
  {
  }

  lemma ConsumeQuiet(cfg: Config, st: Sys, c: nat, req: RegisterRequest, now: int)
    requires c in st.conns
    ensures var st' := DoConsume(cfg, st, c, req, now);
            st'.mem.noise == st.mem.noise && DiskFollows(cfg, st, st')
  {
  }

  /** Nothing but a start touches the key. */
  lemma StepQuiet(cfg: Config, st: Sys, ev: Event)
    requires Runnable(cfg) && !ev.Restart?
    ensures var st' := Step(cfg, st, ev);
            st'.mem.noise == st.mem.noise && DiskFollows(cfg, st, st')
  {
    if ev.Advance? && ev.c in st.conns {
      AdvanceQuiet(cfg, st, ev.c, ev.now);
    }
  }

  /** With a state file, the key of the first start is the key in memory and in the file in every state
      of every run, through all restarts, whatever they would have generated. */
  lemma {:induction false} SameKeyForGood(cfg: Config, evs: seq<Event>)
    requires Runnable(cfg) && cfg.hasPath && cfg.firstNoise != Zeros(32)
    ensures var st := Run(cfg, evs);
            st.mem.noise == cfg.firstNoise && st.disk.Some? && st.disk.value.noise == cfg.firstNoise
  {
    if evs == [] {
      StartKey(cfg, Sys(EMPTY_MEM, None, 1, map[], 0, [], [], [], 0, []), cfg.firstNoise, cfg.firstSecret);
    } else {
      var before, ev := evs[..|evs| - 1], evs[|evs| - 1];
      SameKeyForGood(cfg, before);
      if ev.Restart? {
        StartKey(cfg, Run(cfg, before), ev.generated, ev.secret);
      } else {
        StepQuiet(cfg, Run(cfg, before), ev);
      }
    }
  }
}
