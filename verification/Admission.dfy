/** How machines get in: each by a key granted to it, a one-shot key admitting one machine only. */
module Admission {
  import opened Bytes
  import opened StoreModel
  import opened Store
  import opened Coordinator
  import Allocation
  import Isolation
  import Netmap
  import OneShot
  import Keys

  /** The grant that let this node in. */
  ghost predicate LetIn(cfg: Config, st: Sys, g: nat, n: Node) {
    g < |st.grants| && Isolation.Admits(st.grants[g], Isolation.Since(cfg, st), n.machineKey, n.token, n.shared)
  }

  /** Every node has the token and shared flag of a key that was made and was granted to its
      machine: nobody gets in without a key, or into another key's group. */
  lemma EveryNodeHasItsKey(cfg: Config, evs: seq<Event>, i: nat) returns (g: nat, k: nat)
    requires Runnable(cfg) && Run(cfg, evs).attempts < TWO_31 && i < |Run(cfg, evs).mem.nodes|
    ensures var st := Run(cfg, evs);
            var n, issued := st.mem.nodes[i], Keys.Issued(cfg, evs);
            && LetIn(cfg, st, g, n) && k < |issued| && Keys.GrantOf(st.grants[g], issued[k])
            && issued[k].token == n.token && issued[k].shared == n.shared
  {
    var st, issued := Run(cfg, evs), Keys.Issued(cfg, evs);
    var n := st.mem.nodes[i];
    Isolation.EveryNodeWasClaimed(cfg, evs, i);
    g :| 0 <= g < |st.grants|
         && Isolation.Admits(st.grants[g], Isolation.Since(cfg, st), n.machineKey, n.token, n.shared);
    Keys.GrantedKeysWereMade(cfg, evs, g);
    k :| 0 <= k < |issued| && Keys.GrantOf(st.grants[g], issued[k]);
  }

  /** Two nodes are let in by two grants; and if the earlier of these was of a one-shot key, the
      other was of another key. So a one-shot key admits at most one node, in every run in which
      calls of consume_preauth do not overlap, and without a file in every run. */
  lemma OneShotAdmitsOne(cfg: Config, evs: seq<Event>, i: nat, j: nat, g: nat, h: nat)
    requires ValidConfig(cfg) && Run(cfg, evs).attempts < TWO_31
    requires cfg.hasPath ==> OneShot.NeverOverlaps(cfg, evs)
    requires i < |Run(cfg, evs).mem.nodes| && j < |Run(cfg, evs).mem.nodes| && i != j
    requires LetIn(cfg, Run(cfg, evs), g, Run(cfg, evs).mem.nodes[i])
    requires LetIn(cfg, Run(cfg, evs), h, Run(cfg, evs).mem.nodes[j])
    ensures g != h
    ensures var grants := Run(cfg, evs).grants;
            !grants[Min(g, h)].reusable ==> grants[g].secret != grants[h].secret
  {
    Allocation.IdentitiesDistinct(cfg, evs, Min(i, j), if i < j then j else i);
    if !Run(cfg, evs).grants[Min(g, h)].reusable {
      OneShot.OneShotInvariant(cfg, evs);
      OnceOnly(cfg, Run(cfg, evs), Min(g, h), if g < h then h else g);
    }
  }

  lemma OnceOnly(cfg: Config, st: Sys, g: nat, h: nat)
    requires g < h < |st.grants| && !st.grants[g].reusable && OneShot.SpentInv(cfg, st) && OneShot.AtMostOnce(cfg, st)
    requires st.grants[g].epoch >= Isolation.Since(cfg, st) && st.grants[h].epoch >= Isolation.Since(cfg, st)
    ensures st.grants[g].secret != st.grants[h].secret
  {
    assert OneShot.Counts(cfg, st.grants[h].epoch, st.grants[g]);
  }

  // ---------------------------------------------------------------- groups by keys

  /** Where a key that was made comes from: from a call of create_preauth_key, or from a start that
      found no keys. */
  ghost predicate Origin(evs: seq<Event>, k: PreauthKey) {
    || (exists p :: 0 <= p < |evs| && evs[p].CreateKey? && k == MakeKey(evs[p].ask))
    || (exists secret :: k == BootKey(secret))
  }

  lemma {:induction false} KeyOrigin(cfg: Config, evs: seq<Event>, k: nat)
    requires Runnable(cfg) && k < |Keys.Issued(cfg, evs)|
    ensures Origin(evs, Keys.Issued(cfg, evs)[k])
  {
    if evs == [] {
      assert Keys.Issued(cfg, evs)[k] == BootKey(cfg.firstSecret);
    } else {
      var before, ev := evs[..|evs| - 1], evs[|evs| - 1];
      if k < |Keys.Issued(cfg, before)| {
        KeyOrigin(cfg, before, k);
        OriginKept(before, ev, Keys.Issued(cfg, before)[k]);
        assert before + [ev] == evs;
      } else if ev.CreateKey? {
        assert evs[|evs| - 1].CreateKey?;
      }
    }
  }

  lemma OriginKept(before: seq<Event>, ev: Event, k: PreauthKey)
    requires Origin(before, k)
    ensures Origin(before + [ev], k)
  {
    if p :| 0 <= p < |before| && before[p].CreateKey? && k == MakeKey(before[p].ask) {
      assert (before + [ev])[p] == before[p];
    }
  }

  /** The node was let in by a key that this call made. */
  ghost predicate LetInByCall(cfg: Config, st: Sys, g: nat, n: Node, ask: KeyRequest) {
    LetIn(cfg, st, g, n) && Keys.GrantOf(st.grants[g], MakeKey(ask))
  }

  /** Nodes let in by keys that were asked for with different tokens, neither empty, and without a word
      on sharing, never appear in each other's maps. */
  lemma KeysSeparateGroups(cfg: Config, evs: seq<Event>, k: nat, a: Node, b: Node, g: nat, h: nat, ask: KeyRequest,
                           other: KeyRequest)
    requires ValidConfig(cfg) && Run(cfg, evs).attempts < TWO_31 && k < |Run(cfg, evs).served|
    requires a in Run(cfg, evs).mem.nodes && b in Run(cfg, evs).mem.nodes
    requires Allocation.SameIdentity(Run(cfg, evs).served[k].self, a)
    requires LetInByCall(cfg, Run(cfg, evs), g, a, ask) && LetInByCall(cfg, Run(cfg, evs), h, b, other)
    requires ask.shared.None? && other.shared.None? && ask.token != "" && other.token != "" && ask.token != other.token
    ensures var s := Run(cfg, evs).served[k];
            Isolation.Absent(b, Netmap.MapFor(s.self, s.list, cfg.domain))
  {
    KeyMade(ask, 0);
    KeyMade(other, 0);
    Isolation.GroupIsolation(cfg, evs, k, a, b);
  }

  /** A node let in by a key without a token, and without a word on sharing, such as the first key,
      is a peer of every other node. */
  lemma OpenKeySeesAll(cfg: Config, evs: seq<Event>, a: Node, b: Node, g: nat, ask: KeyRequest)
    requires ValidConfig(cfg) && Run(cfg, evs).attempts < TWO_31 && a != b
    requires a in Run(cfg, evs).mem.nodes && b in Run(cfg, evs).mem.nodes
    requires LetInByCall(cfg, Run(cfg, evs), g, a, ask) && ask.shared.None? && ask.token == ""
    ensures Netmap.IsPeer(a, b, Run(cfg, evs).mem.nodes, cfg.domain)
    ensures Netmap.IsPeer(b, a, Run(cfg, evs).mem.nodes, cfg.domain)
  {
    KeyMade(ask, 0);
    Allocation.AllocationInvariant(cfg, evs);
    SharedIsPeer(Run(cfg, evs).mem.nodes, a, b, cfg.domain);
  }

  lemma SharedIsPeer(nodes: seq<Node>, a: Node, b: Node, domain: string)
    requires Allocation.DistinctNodes(nodes) && a in nodes && b in nodes && a != b && a.shared
    ensures Netmap.IsPeer(a, b, nodes, domain) && Netmap.IsPeer(b, a, nodes, domain)
  {
    Netmap.PeersExact(a, b, nodes, domain);
    Netmap.PeersExact(b, a, nodes, domain);
  }
}
