/** The Store class of src/state.cpp: the fields guarded by its mutex, the state file, and the
    methods that change them in place. Each method is one critical section and is tied to the
    function of `StoreModel` that says what it does. */
module Store {
  import opened Bytes
  import opened Crypto
  import opened IpAlloc
  import opened StoreModel

  /** The state file: None while it is missing or empty. save_locked replaces it atomically. */
  class StateFile {
    var content: Option<Json>

    constructor ()
      ensures content == None
    {
      content := None;
    }
  }

  /** The file after a save; without a path nothing is written. */
  function Saved(hasPath: bool, file: Option<Json>, m: Mem): Option<Json> {
    if hasPath then Some(Snapshot(m)) else file
  }

  /** What load_or_init makes of the file: defaults where there is none, and a fresh noise key
      where none was found. */
  function Loaded(hasPath: bool, file: Option<Json>, generated: Bytes32): Mem {
    var m := if hasPath && file.Some? then ApplySnapshot(EMPTY_MEM, file.value) else EMPTY_MEM;
    if m.noise == Zeros(32) then m.(noise := generated) else m
  }

  function FileAfterLoad(hasPath: bool, file: Option<Json>, generated: Bytes32): Option<Json> {
    var m := if hasPath && file.Some? then ApplySnapshot(EMPTY_MEM, file.value) else EMPTY_MEM;
    if m.noise == Zeros(32) then Saved(hasPath, file, m.(noise := generated)) else file
  }

  /** The keys that reload_keys_from_disk finds in the file, if any. */
  function KeysOnDisk(hasPath: bool, file: Option<Json>): Option<seq<PreauthKey>> {
    if hasPath && file.Some? && file.value.keys.Some? then Some(KeysFromJson(file.value.keys.value)) else None
  }

  /** A file with a list of keys replaces those in memory even if the list is empty; without the list,
      or without a file, they stay. */
  lemma ReloadedExactly(hasPath: bool, file: Option<Json>)
    ensures KeysOnDisk(hasPath, file).Some? <==> hasPath && file.Some? && file.value.keys.Some?
    ensures hasPath && file.Some? && file.value.keys == Some([]) ==> KeysOnDisk(hasPath, file) == Some([])
  {
    assert KeysFromJson([]) == [];
  }

  class Store {
    const hasPath: bool
    const file: StateFile
    const pool: Pool
    var noise: Bytes32
    var nextId: u64
    var nextIp: u32
    var keys: seq<PreauthKey>
    var nodes: seq<Node>

    ghost function View(): Mem
      reads this
    {
      Mem(noise, nextId, nextIp, keys, nodes)
    }

    ghost predicate Valid() {
      |pool.alloc.base6| == 16
    }

    constructor (hasPath: bool, file: StateFile, pool: Pool, generated: Bytes32)
      requires |pool.alloc.base6| == 16
      modifies file
      ensures Valid() && this.hasPath == hasPath && this.file == file && this.pool == pool
      ensures View() == Loaded(hasPath, old(file.content), generated)
      ensures file.content == FileAfterLoad(hasPath, old(file.content), generated)
    {
      this.hasPath, this.file, this.pool := hasPath, file, pool;
      noise, nextId, nextIp, keys, nodes := Zeros(32), 1, 1, [], [];
      new;
      if hasPath && file.content.Some? {
        ApplySnapshotLocked(file.content.value);
      }
      if noise == Zeros(32) {
        noise := generated;
        SaveLocked();
      }
    }

    method SnapshotLocked() returns (j: Json)
      ensures j == Snapshot(View())
    {
      var text := HexEncode(noise);
      var ks: seq<KeyJson> := [];
      for i := 0 to |keys|
        invariant ks == KeysToJson(keys[..i])
      {
        ks := ks + [KeyToJson(keys[i])];
      }
      var ns: seq<NodeJson> := [];
      for i := 0 to |nodes|
        invariant ns == NodesToJson(nodes[..i])
      {
        ns := ns + [NodeToJson(nodes[i])];
      }
      assert keys[..|keys|] == keys && nodes[..|nodes|] == nodes;
      j := Json(Some(text), Some(nextId), Some(nextIp), Some(ks), Some(ns));
    }

    method ApplySnapshotLocked(j: Json)
      modifies this
      ensures View() == ApplySnapshot(old(View()), j)
    {
      if j.noise.Some? {
        var decoded := HexDecode(j.noise.value, 32);
        if decoded.Some? {
          noise := decoded.value;
        }
      }
      nextId := LoadU64(Get(j.nextId, 1));
      nextIp := LoadU32(Get(j.nextIp, 1));
      LoadKeys(Get(j.keys, []));
      var js := Get(j.nodes, []);
      nodes := [];
      for i := 0 to |js|
        invariant nodes == NodesFromJson(js[..i])
        invariant noise == LoadNoise(old(noise), j)
        invariant nextId == LoadU64(Get(j.nextId, 1)) && nextIp == LoadU32(Get(j.nextIp, 1))
        invariant keys == KeysFromJson(Get(j.keys, []))
      {
        nodes := nodes + [NodeFromJson(js[i])];
      }
      assert js[..|js|] == js;
    }

    /** keys_.clear() and a push_back for every entry. */
    method LoadKeys(js: seq<KeyJson>)
      modifies this`keys
      ensures keys == KeysFromJson(js)
    {
      keys := [];
      for i := 0 to |js|
        invariant keys == KeysFromJson(js[..i])
      {
        keys := keys + [KeyFromJson(js[i])];
      }
      assert js[..|js|] == js;
    }

    method SaveLocked()
      modifies file
      ensures file.content == Saved(hasPath, old(file.content), View())
    {
      var j := SnapshotLocked();
      if hasPath {
        file.content := Some(j);
      }
    }

    /** `secret` is the random token; `now` the clock. */
    method CreatePreauthKey(secret: string, reusable: bool, ephemeral: bool, expiration: int, now: int, token: string,
                            shared: Option<bool>) returns (key: string)
      modifies this`keys, file
      ensures key == secret
      ensures var made := NewKey(secret, reusable, ephemeral, expiration, now, token, shared);
              View() == old(View()).(keys := old(keys) + [made])
      ensures file.content == Saved(hasPath, old(file.content), View())
    {
      var expires := 0;
      if expiration > 0 {
        expires := now + expiration;
      }
      var k := PreauthKey(secret, reusable, ephemeral, false, expires, token, ResolveShared(token, shared));
      keys := keys + [k];
      SaveLocked();
      key := k.key;
    }

    /** The half of reload_keys_from_disk that runs before the lock is taken. */
    method ReadKeys() returns (captured: Option<seq<KeyJson>>)
      ensures captured.Some? <==> KeysOnDisk(hasPath, file.content).Some?
      ensures captured.Some? ==> KeysFromJson(captured.value) == KeysOnDisk(hasPath, file.content).value
    {
      if !hasPath {
        return None;
      }
      if file.content.None? {
        return None;
      }
      captured := file.content.value.keys;
    }

    /** The half that runs under the lock, with whatever was read before. */
    method InstallKeys(captured: Option<seq<KeyJson>>)
      modifies this`keys
      ensures keys == if captured.Some? then KeysFromJson(captured.value) else old(keys)
    {
      if captured.Some? {
        LoadKeys(captured.value);
      }
    }

    method ConsumeLocked(secret: string, now: int) returns (claim: Option<PreauthClaim>)
      modifies this`keys, file
      ensures var c := Consume(old(keys), secret, now);
              && (claim.Some? <==> c.Some?)
              && (c.Some? ==> claim == Some(c.value.0) && keys == c.value.1
                              && file.content == Saved(hasPath, old(file.content), View()))
              && (c.None? ==> keys == old(keys) && file.content == old(file.content))
    {
      for i := 0 to |keys|
        invariant forall j :: 0 <= j < i ==> keys[j].key != secret
        invariant keys == old(keys) && file.content == old(file.content)
      {
        if keys[i].key != secret {
          continue;
        }
        if keys[i].expires != 0 && now > keys[i].expires {
          return None;
        }
        if !keys[i].reusable && keys[i].used {
          return None;
        }
        claim := Some(PreauthClaim(keys[i].ephemeral, keys[i].token, keys[i].shared));
        keys := keys[i := keys[i].(used := true)];
        SaveLocked();
        return;
      }
      claim := None;
    }

    /** consume_preauth when nothing else runs between its two halves. */
    method ConsumePreauth(secret: string, now: int) returns (claim: Option<PreauthClaim>)
      modifies this`keys, file
      ensures var found := KeysOnDisk(hasPath, old(file.content));
              var c := Consume(if found.Some? then found.value else old(keys), secret, now);
              && (claim.Some? <==> c.Some?)
              && (c.Some? ==> claim == Some(c.value.0) && keys == c.value.1
                              && file.content == Saved(hasPath, old(file.content), View()))
              && (c.None? ==> keys == (if found.Some? then found.value else old(keys))
                              && file.content == old(file.content))
    {
      var captured := ReadKeys();
      InstallKeys(captured);
      claim := ConsumeLocked(secret, now);
    }

    /** None where address_for throws. */
    method RegisterNode(r: Registration) returns (node: Option<Node>)
      requires Valid()
      modifies this`nodes, this`nextId, this`nextIp, file
      ensures (View(), node) == Register(pool, old(View()), r)
      ensures file.content == if node.Some? then Saved(hasPath, old(file.content), View()) else old(file.content)
    {
      for i := 0 to |nodes|
        invariant forall j :: 0 <= j < i ==> nodes[j].machineKey != r.machine
        invariant View() == old(View()) && file.content == old(file.content)
      {
        if nodes[i].machineKey == r.machine {
          nodes := nodes[i := nodes[i].(nodeKey := r.nodeKey)];
          if r.hostname != "" {
            nodes := nodes[i := nodes[i].(hostname := r.hostname)];
          }
          nodes := nodes[i := nodes[i].(ephemeral := r.ephemeral)];
          assert nodes == old(nodes)[i := Refreshed(old(nodes)[i], r)];
          SaveLocked();
          return Some(nodes[i]);
        }
      }
      var id, index := nextId, nextIp;
      nextId := Inc64(nextId);
      nextIp := Inc32(nextIp);
      var addresses := AddressFor(pool.alloc, pool.text, index);
      if addresses.None? {
        return None;
      }
      var n := NewNode(id, r, addresses.value.0, addresses.value.1);
      nodes := nodes + [n];
      SaveLocked();
      node := Some(n);
    }

    method FindByMachine(machine: string) returns (r: Option<Node>)
      ensures r == if Registered(nodes, machine) then Some(nodes[FindNode(nodes, machine)]) else None
    {
      for i := 0 to |nodes|
        invariant forall j :: 0 <= j < i ==> nodes[j].machineKey != machine
      {
        if nodes[i].machineKey == machine {
          return Some(nodes[i]);
        }
      }
      r := None;
    }

    method UpdateInfo(machine: string, u: MapInfo)
      modifies this`nodes, file
      ensures nodes == UpdateMapInfo(old(nodes), machine, u)
      ensures file.content == if Registered(old(nodes), machine) then Saved(hasPath, old(file.content), View())
                              else old(file.content)
    {
      for i := 0 to |nodes|
        invariant forall j :: 0 <= j < i ==> nodes[j].machineKey != machine
        invariant nodes == old(nodes) && file.content == old(file.content)
      {
        if nodes[i].machineKey != machine {
          continue;
        }
        if u.nodeKey != "" {
          nodes := nodes[i := nodes[i].(nodeKey := u.nodeKey)];
        }
        if u.discoKey != "" {
          nodes := nodes[i := nodes[i].(discoKey := u.discoKey)];
        }
        if u.hostname != "" {
          nodes := nodes[i := nodes[i].(hostname := u.hostname)];
        }
        nodes := nodes[i := nodes[i].(endpoints := u.endpoints, online := true)];
        assert nodes == old(nodes)[i := Informed(old(nodes)[i], u)];
        SaveLocked();
        return;
      }
    }

    /** Not saved. */
    method SetNodeOnline(machine: string, online: bool)
      modifies this`nodes
      ensures nodes == SetOnline(old(nodes), machine, online)
    {
      for i := 0 to |nodes|
        invariant forall j :: 0 <= j < i ==> nodes[j].machineKey != machine
        invariant nodes == old(nodes)
      {
        if nodes[i].machineKey == machine {
          nodes := nodes[i := nodes[i].(online := online)];
          return;
        }
      }
    }
  }
}
