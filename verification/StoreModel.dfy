/** src/state.hpp and the value side of src/state.cpp: the records, the effect of each operation
    on them, and the JSON snapshot.

    The class that carries these operations out is in Store.dfy. JSON is a record whose fields
    may be absent; numbers keep the narrowing to a signed 32-bit int that value(name, 0) does. */
module StoreModel {
  import opened Bytes
  import opened Crypto
  import opened IpAlloc

  type u32 = x: int | 0 <= x < TWO_32
  type u64 = x: int | 0 <= x < TWO_64

  datatype PreauthKey = PreauthKey(key: string, reusable: bool, ephemeral: bool, used: bool, expires: int,
                                   token: string, shared: bool)

  datatype PreauthClaim = PreauthClaim(ephemeral: bool, token: string, shared: bool)

  datatype Node = Node(id: u64, stableId: string, hostname: string, machineKey: string, nodeKey: string,
                       discoKey: string, ipv4: string, ipv6: string, endpoints: seq<string>, online: bool,
                       ephemeral: bool, token: string, shared: bool)

  /** The fields of a Store that a snapshot covers. */
  datatype Mem = Mem(noise: Bytes32, nextId: u64, nextIp: u32, keys: seq<PreauthKey>, nodes: seq<Node>)

  const EMPTY_MEM := Mem(Zeros(32), 1, 1, [], [])

  datatype Pool = Pool(alloc: Allocator, text: AddressText)

  ghost predicate ValidPool(p: Pool) {
    Sound(p.alloc) && Faithful(p.text)
  }

  // ---------------------------------------------------------------- preauth keys

  /** shared.value_or(token.empty()) */
  function ResolveShared(token: string, shared: Option<bool>): bool {
    match shared
    case Some(b) => b
    case None => token == ""
  }

  function NewKey(secret: string, reusable: bool, ephemeral: bool, expiration: int, now: int, token: string,
                  shared: Option<bool>): PreauthKey {
    PreauthKey(secret, reusable, ephemeral, false, if expiration > 0 then now + expiration else 0, token,
               ResolveShared(token, shared))
  }

  /** A call of create_preauth_key: `secret` is the token that it draws, `now` the clock. */
  datatype KeyRequest = KeyRequest(secret: string, reusable: bool, ephemeral: bool, expiration: int, now: int,
                                   token: string, shared: Option<bool>)

  function MakeKey(a: KeyRequest): PreauthKey {
    NewKey(a.secret, a.reusable, a.ephemeral, a.expiration, a.now, a.token, a.shared)
  }

  /** What a key that was asked for is: shared as asked, or if nothing was said exactly when it has
      no token; granted as often as asked, until its lifetime has passed if it was given one. */
  lemma KeyMade(a: KeyRequest, t: int)
    ensures var k := MakeKey(a);
            && k.key == a.secret && k.token == a.token && k.ephemeral == a.ephemeral && k.reusable == a.reusable
            && !k.used
            && (a.shared.Some? ==> k.shared == a.shared.value)
            && (a.shared.None? ==> (k.shared <==> a.token == ""))
            && (a.expiration > 0 && a.now >= 0 ==> (Grantable(k, t) <==> t <= a.now + a.expiration))
            && (a.expiration <= 0 ==> Grantable(k, t))
            && (!k.reusable ==> !Grantable(k.(used := true), t))
  {
  }

  /** The first entry with that secret, or |keys|. */
  function FindKey(keys: seq<PreauthKey>, secret: string): (i: nat)
    ensures i <= |keys| && (i < |keys| ==> keys[i].key == secret)
    ensures forall j :: 0 <= j < i ==> keys[j].key != secret
  {
    if keys == [] then 0
    else if keys[0].key == secret then 0
    else 1 + FindKey(keys[1..], secret)
  }

  predicate Grantable(k: PreauthKey, now: int) {
    !(k.expires != 0 && now > k.expires) && (k.reusable || !k.used)
  }

  function ClaimOf(k: PreauthKey): PreauthClaim {
    PreauthClaim(k.ephemeral, k.token, k.shared)
  }

  /** The locked half of consume_preauth: the first entry decides. */
  function Consume(keys: seq<PreauthKey>, secret: string, now: int): Option<(PreauthClaim, seq<PreauthKey>)> {
    var i := FindKey(keys, secret);
    if i < |keys| && Grantable(keys[i], now) then Some((ClaimOf(keys[i]), keys[i := keys[i].(used := true)])) else None
  }

  /** A claim is granted exactly if the first entry with the secret has not expired and is reusable or
      unused, it gives what that entry carries, and it marks the entry used, reusable or not, and no
      other. */
  lemma ConsumeExactly(keys: seq<PreauthKey>, secret: string, now: int, i: nat)
    requires i < |keys| && keys[i].key == secret && forall j :: 0 <= j < i ==> keys[j].key != secret
    ensures var c := Consume(keys, secret, now);
            && (c.Some? <==> (keys[i].expires == 0 || now <= keys[i].expires) && (keys[i].reusable || !keys[i].used))
            && (c.Some? ==>
              && c.value.0 == PreauthClaim(keys[i].ephemeral, keys[i].token, keys[i].shared)
              && c.value.1 == keys[..i] + [keys[i].(used := true)] + keys[i + 1..])
  {
    assert FindKey(keys, secret) == i;
  }

  // ---------------------------------------------------------------- nodes

  /** The first node of that machine, or |nodes|. */
  function FindNode(nodes: seq<Node>, machine: string): (i: nat)
    ensures i <= |nodes| && (i < |nodes| ==> nodes[i].machineKey == machine)
    ensures forall j :: 0 <= j < i ==> nodes[j].machineKey != machine
  {
    if nodes == [] then 0
    else if nodes[0].machineKey == machine then 0
    else 1 + FindNode(nodes[1..], machine)
  }

  predicate Registered(nodes: seq<Node>, machine: string) {
    FindNode(nodes, machine) < |nodes|
  }

  /** What a client says about itself when it registers. */
  datatype Registration = Registration(machine: string, nodeKey: string, hostname: string, ephemeral: bool,
                                       token: string, shared: bool)

  function Refreshed(n: Node, r: Registration): Node {
    n.(nodeKey := r.nodeKey, hostname := if r.hostname != "" then r.hostname else n.hostname,
       ephemeral := r.ephemeral)
  }

  function NewNode(id: u64, r: Registration, ipv4: string, ipv6: string): Node {
    Node(id, Decimal(id), if r.hostname == "" then "node-" + Decimal(id) else r.hostname, r.machine, r.nodeKey, "",
         ipv4, ipv6, [], false, r.ephemeral, r.token, r.shared)
  }

  /** register_node: the new fields, and the node, or None where address_for throws. An exhausted
      pool has already advanced both counters. */
  function Register(p: Pool, m: Mem, r: Registration): (Mem, Option<Node>)
    requires |p.alloc.base6| == 16
  {
    var i := FindNode(m.nodes, r.machine);
    if i < |m.nodes| then
      var n := Refreshed(m.nodes[i], r);
      (m.(nodes := m.nodes[i := n]), Some(n))
    else
      var m' := m.(nextId := Inc64(m.nextId), nextIp := Inc32(m.nextIp));
      match Address(p.alloc, p.text, m.nextIp)
      case None => (m', None)
      case Some((v4, v6)) =>
        var n := NewNode(m.nextId, r, v4, v6);
        (m'.(nodes := m.nodes + [n]), Some(n))
  }

  datatype MapInfo = MapInfo(nodeKey: string, discoKey: string, hostname: string, endpoints: seq<string>)

  function Informed(n: Node, u: MapInfo): Node {
    n.(nodeKey := if u.nodeKey != "" then u.nodeKey else n.nodeKey,
       discoKey := if u.discoKey != "" then u.discoKey else n.discoKey,
       hostname := if u.hostname != "" then u.hostname else n.hostname,
       endpoints := u.endpoints, online := true)
  }

  function UpdateMapInfo(nodes: seq<Node>, machine: string, u: MapInfo): seq<Node> {
    var i := FindNode(nodes, machine);
    if i < |nodes| then nodes[i := Informed(nodes[i], u)] else nodes
  }

  function SetOnline(nodes: seq<Node>, machine: string, online: bool): seq<Node> {
    var i := FindNode(nodes, machine);
    if i < |nodes| then nodes[i := nodes[i].(online := online)] else nodes
  }

  // ---------------------------------------------------------------- what callers see of it

  /** After a registration the machine is found as the node returned, with the key it sent; every
      other node is untouched. A known machine keeps id, addresses, token and shared flag whatever
      the registration carries; a new one takes the carried token and flag. */
  lemma RegisterOutcome(p: Pool, m: Mem, r: Registration)
    requires |p.alloc.base6| == 16 && Register(p, m, r).1.Some?
    ensures var (m', node) := Register(p, m, r);
            var n, i := node.value, FindNode(m.nodes, r.machine);
            && FindNode(m'.nodes, r.machine) == i < |m'.nodes| && m'.nodes[i] == n
            && n.machineKey == r.machine && n.nodeKey == r.nodeKey && n.ephemeral == r.ephemeral
            && n.hostname == (if r.hostname != "" then r.hostname else if i < |m.nodes| then m.nodes[i].hostname
                              else "node-" + Decimal(n.id))
            && (forall j :: 0 <= j < |m.nodes| && j != i ==> j < |m'.nodes| && m'.nodes[j] == m.nodes[j])
            && (i < |m.nodes| ==>
              && |m'.nodes| == |m.nodes| && m'.nextId == m.nextId && m'.nextIp == m.nextIp
              && n == m.nodes[i].(nodeKey := n.nodeKey, hostname := n.hostname, ephemeral := n.ephemeral))
            && (i == |m.nodes| ==>
              && |m'.nodes| == |m.nodes| + 1 && n.id == m.nextId && n.token == r.token && n.shared == r.shared
              && n.stableId == Decimal(n.id) && n.discoKey == "" && n.endpoints == [] && !n.online
              && Address(p.alloc, p.text, m.nextIp) == Some((n.ipv4, n.ipv6)))
  {
    var (m', node) := Register(p, m, r);
    var i := FindNode(m.nodes, r.machine);
    assert m'.nodes[i] == node.value;
    FindNodeIs(m'.nodes, r.machine, i);
  }

  lemma FindNodeIs(nodes: seq<Node>, machine: string, i: nat)
    requires i < |nodes| && nodes[i].machineKey == machine && forall j :: 0 <= j < i ==> nodes[j].machineKey != machine
    ensures FindNode(nodes, machine) == i
  {
  }

  /** Registering again is idempotent: the same node, and the same store. */
  lemma RegisterTwice(p: Pool, m: Mem, r: Registration)
    requires |p.alloc.base6| == 16 && Register(p, m, r).1.Some?
    ensures Register(p, Register(p, m, r).0, r) == Register(p, m, r)
  {
    RegisterOutcome(p, m, r);
    var (m', node) := Register(p, m, r);
    var i := FindNode(m.nodes, r.machine);
    assert Refreshed(m'.nodes[i], r) == m'.nodes[i];
    assert m'.nodes[i := m'.nodes[i]] == m'.nodes;
  }

  // ---------------------------------------------------------------- snapshots

  datatype KeyJson = KeyJson(key: Option<string>, reusable: Option<bool>, ephemeral: Option<bool>, used: Option<bool>,
                             expires: Option<int>, token: Option<string>, shared: Option<bool>)

  datatype NodeJson = NodeJson(id: Option<int>, stableId: Option<string>, hostname: Option<string>,
                               machineKey: Option<string>, nodeKey: Option<string>, discoKey: Option<string>,
                               ipv4: Option<string>, ipv6: Option<string>, endpoints: Option<seq<string>>,
                               ephemeral: Option<bool>, online: Option<bool>, token: Option<string>,
                               shared: Option<bool>)

  datatype Json = Json(noise: Option<string>, nextId: Option<int>, nextIp: Option<int>,
                       keys: Option<seq<KeyJson>>, nodes: Option<seq<NodeJson>>)

  function Get<T>(o: Option<T>, default: T): T {
    match o
    case Some(v) => v
    case None => default
  }

  /** static_cast<int> of any JSON number. */
  function NarrowInt(v: int): (r: int)
    ensures -TWO_31 <= r < TWO_31
  {
    (v + TWO_31) % TWO_32 - TWO_31
  }

  /** j.value(name, 0) assigned to a std::uint64_t: narrowed, then sign-extended. */
  function LoadU64(v: int): u64 {
    NarrowInt(v) % TWO_64
  }

  function LoadU32(v: int): u32 {
    NarrowInt(v) % TWO_32
  }

  function KeyToJson(k: PreauthKey): KeyJson {
    KeyJson(Some(k.key), Some(k.reusable), Some(k.ephemeral), Some(k.used), Some(k.expires), Some(k.token),
            Some(k.shared))
  }

  /** key_from_json. An entry written before `shared` existed is shared exactly when it has no token. */
  function KeyFromJson(j: KeyJson): PreauthKey {
    var token := Get(j.token, "");
    PreauthKey(Get(j.key, ""), Get(j.reusable, true), Get(j.ephemeral, false), Get(j.used, false),
               NarrowInt(Get(j.expires, 0)), token, Get(j.shared, token == ""))
  }

  function NodeToJson(n: Node): NodeJson {
    NodeJson(Some(n.id), Some(n.stableId), Some(n.hostname), Some(n.machineKey), Some(n.nodeKey), Some(n.discoKey),
             Some(n.ipv4), Some(n.ipv6), Some(n.endpoints), Some(n.ephemeral), Some(n.online), Some(n.token),
             Some(n.shared))
  }

  function NodeFromJson(j: NodeJson): Node {
    var token := Get(j.token, "");
    Node(LoadU64(Get(j.id, 0)), Get(j.stableId, ""), Get(j.hostname, ""), Get(j.machineKey, ""), Get(j.nodeKey, ""),
         Get(j.discoKey, ""), Get(j.ipv4, ""), Get(j.ipv6, ""), Get(j.endpoints, []), Get(j.online, false),
         Get(j.ephemeral, false), token, Get(j.shared, token == ""))
  }

  /** What loading puts where the file has nothing. A key is then reusable, never expires and was not used;
      a node is offline and persistent; both are shared exactly if they have no token. */
  lemma EntryDefaults(j: KeyJson, i: NodeJson)
    ensures var k := KeyFromJson(j);
            && (j.key.None? ==> k.key == "") && (j.reusable.None? ==> k.reusable)
            && (j.ephemeral.None? ==> !k.ephemeral) && (j.used.None? ==> !k.used)
            && (j.expires.None? ==> k.expires == 0) && (j.token.None? ==> k.token == "")
            && (j.shared.None? ==> (k.shared <==> k.token == ""))
    ensures var n := NodeFromJson(i);
            && (i.id.None? ==> n.id == 0) && (i.stableId.None? ==> n.stableId == "")
            && (i.hostname.None? ==> n.hostname == "") && (i.machineKey.None? ==> n.machineKey == "")
            && (i.nodeKey.None? ==> n.nodeKey == "") && (i.discoKey.None? ==> n.discoKey == "")
            && (i.ipv4.None? ==> n.ipv4 == "") && (i.ipv6.None? ==> n.ipv6 == "")
            && (i.endpoints.None? ==> n.endpoints == []) && (i.ephemeral.None? ==> !n.ephemeral)
            && (i.online.None? ==> !n.online) && (i.token.None? ==> n.token == "")
            && (i.shared.None? ==> (n.shared <==> n.token == ""))
  {
  }

  /** And for the store as a whole: counters at 1, no keys, no nodes, the noise key that was there. */
  lemma FileDefaults(m: Mem, j: Json)
    ensures var m' := ApplySnapshot(m, j);
            && (j.noise.None? ==> m'.noise == m.noise) && (j.nextId.None? ==> m'.nextId == 1)
            && (j.nextIp.None? ==> m'.nextIp == 1) && (j.keys.None? ==> m'.keys == [])
            && (j.nodes.None? ==> m'.nodes == [])
  {
  }

  function KeysToJson(ks: seq<PreauthKey>): seq<KeyJson> {
    seq(|ks|, i requires 0 <= i < |ks| => KeyToJson(ks[i]))
  }

  function KeysFromJson(js: seq<KeyJson>): seq<PreauthKey> {
    seq(|js|, i requires 0 <= i < |js| => KeyFromJson(js[i]))
  }

  function NodesToJson(ns: seq<Node>): seq<NodeJson> {
    seq(|ns|, i requires 0 <= i < |ns| => NodeToJson(ns[i]))
  }

  function NodesFromJson(js: seq<NodeJson>): seq<Node> {
    seq(|js|, i requires 0 <= i < |js| => NodeFromJson(js[i]))
  }

  function Snapshot(m: Mem): Json {
    Json(Some(HexText(m.noise)), Some(m.nextId), Some(m.nextIp), Some(KeysToJson(m.keys)), Some(NodesToJson(m.nodes)))
  }

  function LoadNoise(noise: Bytes32, j: Json): Bytes32 {
    var decoded := if j.noise.Some? then HexBytes(j.noise.value, 32) else None;
    if decoded.Some? then decoded.value else noise
  }

  function ApplySnapshot(m: Mem, j: Json): Mem {
    Mem(LoadNoise(m.noise, j), LoadU64(Get(j.nextId, 1)), LoadU32(Get(j.nextIp, 1)),
        KeysFromJson(Get(j.keys, [])), NodesFromJson(Get(j.nodes, [])))
  }

  // ---------------------------------------------------------------- what survives a snapshot

  /** The effect of a save and a load: ids, expiries and the id counter pass through an int. */
  function Narrowed(m: Mem): Mem {
    m.(nextId := LoadU64(m.nextId), keys := NarrowedKeys(m.keys),
       nodes := seq(|m.nodes|, i requires 0 <= i < |m.nodes| => m.nodes[i].(id := LoadU64(m.nodes[i].id))))
  }

  function NarrowedKeys(ks: seq<PreauthKey>): seq<PreauthKey> {
    seq(|ks|, i requires 0 <= i < |ks| => ks[i].(expires := NarrowInt(ks[i].expires)))
  }

  /** Numbers that a 64-bit field gets back from a signed 32-bit one. */
  predicate FitsU64(v: u64) {
    v < TWO_31 || v >= TWO_64 - TWO_31
  }

  predicate Fits(m: Mem) {
    && FitsU64(m.nextId)
    && (forall i :: 0 <= i < |m.keys| ==> -TWO_31 <= m.keys[i].expires < TWO_31)
    && (forall i :: 0 <= i < |m.nodes| ==> FitsU64(m.nodes[i].id))
  }

  lemma LoadU64Exact(v: u64)
    ensures LoadU64(v) == v <==> FitsU64(v)
  {
    if v < TWO_31 {
      assert NarrowInt(v) == v;
    } else if v >= TWO_64 - TWO_31 {
      assert NarrowInt(v) == v - TWO_64;
    } else if NarrowInt(v) >= 0 {
      assert LoadU64(v) == NarrowInt(v) < TWO_31;
    } else {
      assert LoadU64(v) == NarrowInt(v) + TWO_64;
    }
  }

  lemma LoadU32Exact(v: u32)
    ensures LoadU32(v) == v
  {
    assert NarrowInt(v) == if v < TWO_31 then v else v - TWO_32;
  }

  lemma SaveThenLoadKeys(ks: seq<PreauthKey>)
    ensures KeysFromJson(KeysToJson(ks)) == NarrowedKeys(ks)
  {
  }

  lemma SaveThenLoad(m0: Mem, m: Mem)
    ensures ApplySnapshot(m0, Snapshot(m)) == Narrowed(m)
  {
    HexRoundTrip(m.noise);
    LoadU32Exact(m.nextIp);
    SaveThenLoadKeys(m.keys);
    assert NodesFromJson(NodesToJson(m.nodes)) == Narrowed(m).nodes;
  }

  /** Loading a snapshot of any store reproduces its noise key, counters, keys and nodes in order
      if and only if its id counter, its node ids and its expiries survive the narrowing. */
  lemma SnapshotRoundTrip(m0: Mem, m: Mem)
    ensures ApplySnapshot(m0, Snapshot(m)) == m <==> Fits(m)
  {
    SaveThenLoad(m0, m);
    var m' := Narrowed(m);
    LoadU64Exact(m.nextId);
    forall i | 0 <= i < |m.nodes|
      ensures m'.nodes[i] == m.nodes[i] <==> FitsU64(m.nodes[i].id)
    {
      LoadU64Exact(m.nodes[i].id);
    }
    forall i | 0 <= i < |m.keys|
      ensures m'.keys[i] == m.keys[i] <==> -TWO_31 <= m.keys[i].expires < TWO_31
    {
    }
  }

  /** A file as it was written before keys and nodes had a shared flag. */
  function WithoutShared(j: Json): Json
    requires j.keys.Some? && j.nodes.Some?
  {
    j.(keys := Some(seq(|j.keys.value|, i requires 0 <= i < |j.keys.value| => j.keys.value[i].(shared := None))),
       nodes := Some(seq(|j.nodes.value|, i requires 0 <= i < |j.nodes.value| => j.nodes.value[i].(shared := None))))
  }

  /** The store with every key and node shared exactly when it has no token. */
  function SharedByToken(m: Mem): Mem {
    m.(keys := seq(|m.keys|, i requires 0 <= i < |m.keys| => m.keys[i].(shared := m.keys[i].token == "")),
       nodes := seq(|m.nodes|, i requires 0 <= i < |m.nodes| => m.nodes[i].(shared := m.nodes[i].token == "")))
  }

  /** Loading such a file gives what was saved, narrowed, with the shared flags read off the tokens. */
  lemma LegacyFileLoads(m0: Mem, m: Mem)
    ensures ApplySnapshot(m0, WithoutShared(Snapshot(m))) == SharedByToken(Narrowed(m))
  {
    var m' := ApplySnapshot(m0, WithoutShared(Snapshot(m)));
    SaveThenLoad(m0, m);
    assert m'.keys == SharedByToken(Narrowed(m)).keys;
    assert m'.nodes == SharedByToken(Narrowed(m)).nodes;
  }

  /** An expiry of 2^31 (the year 2038) comes back as a time long past, and one of 2^32 as 0,
      which means that the key never expires. */
  lemma LargeExpiryDoesNotSurvive(k: PreauthKey, now: int)
    requires 0 < now
    ensures var j := KeyFromJson(KeyToJson(k.(expires := TWO_31)));
            j.expires == -TWO_31 && !Grantable(j, now)
    ensures var j := KeyFromJson(KeyToJson(k.(expires := TWO_32, used := false)));
            j.expires == 0 && Grantable(j, now)
  {
    assert NarrowInt(TWO_31) == -TWO_31 && NarrowInt(TWO_32) == 0;
  }
}
