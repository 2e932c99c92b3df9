# wirebone, modelled in Dafny

wirebone is an embeddable control plane that speaks Tailscale's protocol. A node connects over a
Noise IK handshake, sends HTTP/2 requests through an encrypted record layer, registers with a
preauth key, is given an id and two addresses, and then receives maps of the nodes of its group,
first on request and later whenever something changes. This project models that path, from the
bytes of the handshake to the interleaving of connection threads, and proves what the parts
promise together.

`dafny verify dfyconfig.toml` checks the whole project.

## How it is built

| files | source | content |
|---|---|---|
| `Bytes`, `Crypto` | `src/crypto.cpp` | octets and fixed-width integers; HMAC, HKDF, hex; the primitives as a `Suite` |
| `NoiseFramework`, `Noise`, `Transcript` | `src/noise.cpp` | the Noise Protocol Framework rev 34 as a specification, the handshake that refines it, and the whole of it written out |
| `Record`, `Session` | `src/noise.cpp` | `NoiseConn`, the byte stream it carries, and handshake and stream together |
| `IpAlloc` | `src/ip_alloc.cpp` | address pools |
| `StoreModel`, `Store` | `src/state.cpp` | keys, nodes and snapshots as values; the class that updates them in place |
| `Netmap` | `src/netmap.cpp` | visibility and the full map |
| `Coordinator`, `Handlers` | `src/coordinator.cpp` | the interleaved state machine; the handlers as one thread runs them, and the proof that the machine is these cut at their locks |
| `Allocation`, `Isolation`, `Hostnames`, `Announced` | all of these | identities, groups, names and what others are told, over every run |
| `NoiseKey`, `Durable` | all of these | what every restart brings back |
| `OneShot`, `Reuse`, `Keys`, `Admission` | all of these | preauth keys over every run: where they come from, whom they let in, whether they last |
| `Fanout`, `FirstMap`, `Convergence`, `FanoutGaps` | all of these | what streams show over every run |
| `DnsName`, `DnsAnswer`, `DnsWalk`, `DnsGaps` | `src/dns.cpp` | names, responses, reading them back, and queries for which that fails |
| `MapStream` | `src/netmap.cpp`, `src/http2_session.cpp` | map frames and the stream buffer |

The operations that change things are imperative: classes for `NoiseConn`, `Store`, `Stream` and
the coordinator, loops where the source loops. Each is tied to a function on values, and the
theorems are about those functions.

**Primitives.** BLAKE2s, X25519 and ChaCha20-Poly1305 are fields of a `Suite`. Where a result needs
something of them it requires `Lawful`: Diffie-Hellman commutes, sealing adds 16 bytes, opening
undoes sealing. `LawfulSuiteExists` shows that these can hold together. Likewise inet_ntop and
inet_pton are an `AddressText` that is `Faithful`: text reads back.

**Runs.** `Coordinator.Step` takes one event; an `Advance` of a connection runs one critical section
of its current handler, so a sequence of events is an interleaving at the granularity of the
locks. `Step` is total, so theorems quantify over all sequences of events. Memory and the state
file are two copies; saving replaces the file atomically. A restart ends all connections and
loads the file, with the narrowing of numbers that loading does. The fields from `hist` on in
`Sys` are history: nothing that the program does depends on them.

## What is proved

1. **Handshake.** Any message pattern in which the writer's static key is sent before it is used
   leaves writer and reader in agreement (`MessageAgree`). The three entry points, with their fixed
   all-zero nonce, produce exactly what the counter-based framework produces for pattern IK
   (`ClientInit`, `ServerHandshake`, `ClientFinish`). A handshake completes if and only if the four
   Diffie-Hellman computations succeed, and then keys, hash, machine key and version agree
   (`IkAgreement`, `Connect`); messages, hash and keys are those of one straight computation over
   the primitives (`MessagesAre`, `Handshake`). A first message made for one version is refused where
   the header says another, unless a hash collides or the cipher can be forged
   (`RewrittenVersionRefused`).
2. **Record layer.** For every interleaving of writes and reads the bytes read, buffered and in
   flight are the bytes written (`StreamEquality`), for the objects themselves (`Exchange`), and enough
   reads deliver everything (`ReadsDeliver`). With the keys of a handshake this holds in both
   directions over one pair of connections, whatever the interleaving, exactly when its four
   Diffie-Hellman computations succeed (`Converse`). Where a channel breaks, the receiver can get exactly the bytes that `write` reports (`ReportedBytesArrive`).
3. **Allocation.** Machine keys, ids and addresses are distinct and permanent over every run with
   fewer than 2^31 new machines, with any restarts (`IdentitiesDistinct`, `IdentitiesPermanent`). With a
   file, a restart brings back every node up to online flags (`NodesSurviveRestart`), and the server's
   noise key is that of the first start for good (`SameKeyForGood`).
4. **Admission and isolation.** Every node was let in by a key that was made, granted to its own
   machine, and carries that key's token and shared flag (`EveryNodeHasItsKey`); a one-shot key lets
   in at most one node (`OneShotAdmitsOne`). Keys asked for with different tokens separate their nodes
   (`KeysSeparateGroups`), and a key without a token shows its nodes to all (`OpenKeySeesAll`). What a
   machine sends with a register or map request is what every node that sees it is told
   (`RegisterIsShownInRun`, `UpdateIsShownInRun`). No map ever built for a node contains a peer, a DNS
   record or a filter entry of a node in another group (`GroupIsolation`).
5. **One-shot keys.** Consumed at most once in every run in which calls do not overlap
   (`ConsumedAtMostOnce`). Overlapping calls break this when there is a state file, because the file
   is read before the lock is taken (`OverlapGrantsTwice`); all interleavings are safe if and only if
   there is no file (`SafeUnderOverlapIffNoFile`). With a file, a grant of a one-shot key is its last
   if and only if nobody then holds a list, read and not yet installed, that would still grant it
   (`LastGrantIff`; what follows makes no key with the same random secret, and the clock does not go
   back). A key that is made lasts if and only if nobody holds a list read without it
   (`CreatedKeyLastsIff`).
6. **Fan-out.** A map pushed by a tick shows every mutation announced up to the stream's generation
   (`RefreshedIsFresh`). The first map of a stream does so, in both halves, exactly when no mutation
   was both made and announced since the map's own node was looked up (`FirstMapFreshIff`). While
   nobody is between a mutation and its announcement, a stream at the current generation with such a
   map was sent the map of the current nodes, up to online flags of peers that came online since
   (`StreamsConverge`). Runs in which the list, the own node or an online flag stays stale although
   the stream is at the current generation are given (`FirstMapCanBeStale`, `OwnNodeCanBeStale`,
   `OnlineCanBeMissed`).
7. **Codecs.** `parse_qname` computes the recursive expansion of a name and inverts the encoding of
   names of up to 15 labels and no more; responses read back as the question and the intended
   records exactly when one question was counted, the copied question still spells the name, and
   the owner pointers fit the parser's budget (`ResponseReadsBackIff`). For names spelled within the
   question, so for all pointer-free ones, this is a condition on the query
   (`CopiedNameReadsBackIff`, `SimpleReadsBackIff`); a name that points beyond the question can be
   answered with a message that cannot be read (`StrayNameBreaks`). What is refused is stated octet by
   octet, and no response is ever answered (`RefusedExactly`, `ResponsesAreNotAnswered`). Map frames come out of the stream buffer in order and whole.

Points where a promise holds only under a condition, besides 5 and 6: a snapshot round trip needs
ids, the id counter and expiries to survive a signed 32-bit int (`SnapshotRoundTrip`, an
if-and-only-if); an expiry of 2^32 comes back as "never" (`LargeExpiryDoesNotSurvive`); a frame needs
a payload below 2^32 bytes (`FrameSurvivesIffShort`); the IPv6 prefix is kept only up to length 96
(`Ipv6PrefixKeptIffAtMost96`).

Where code and description differ, the model follows the code: the transport nonce is big-endian,
unlike section 12.3 of the Noise specification (`src/noise.cpp:99-104`), and HKDF writes any number
of bytes, not only multiples of 32 (`src/crypto.hpp:17`).

## Model

| member | source | states |
|---|---|---|
| `Crypto.LawfulSuiteExists` | src/crypto.cpp:110-224 | the laws asked of the primitives are consistent |
| `Crypto.HmacBlake2s` | src/crypto.cpp:49-76 | the padding loop and two hashes are HMAC of RFC 2104 section 2, for keys of any length |
| `Crypto.HmacWrittenOut` | src/crypto.cpp:49-76 | bit by bit: the block exclusive or 0x36 inside and 0x5c outside, a key over 64 octets hashed first |
| `Crypto.HkdfBlake2s` | src/crypto.cpp:78-99 | the loop fills the buffer with the first bytes of T(1) T(2) ... of RFC 5869 section 2.3 over its extract, for every length, with the octet counter of a uint8_t |
| `Crypto.HkdfWrittenOut` | src/crypto.cpp:78-99 | each of the first 255 blocks is the HMAC, under the extracted key, of the block before it and the octet of its number |
| `Crypto.HkdfPrefix` | src/crypto.cpp:78-99 | a shorter output is a prefix of a longer one |
| `Crypto.HexEncode` | src/crypto.cpp:226-235 | two lower-case digits per byte, in order |
| `Crypto.HexDecode` | src/crypto.cpp:237-262 | succeeds exactly on twice as many hex digits of either case, and gives their octets |
| `Crypto.NibbleExactly` | src/crypto.cpp:237-262 | the sixteen digits in either case and nothing else |
| `Crypto.HexRoundTrip` | src/crypto.cpp:226-262 | decoding an encoding gives the bytes back |
| `NoiseFramework.DecryptUndoesEncrypt` | src/noise.cpp:43-66 | decrypting what was encrypted in the same state gives the plaintext and the same next state |
| `NoiseFramework.TokenAgree` | src/noise.cpp:151-194 | one token written and read keeps both sides in agreement and leaves the rest of the buffer |
| `NoiseFramework.MessageAgree` | src/noise.cpp:132-278 | for every playable pattern, reading a written message returns its payload and equal transcript, chaining key and cipher |
| `Noise.Derive` | src/noise.cpp:68-78 | 64 bytes of HKDF are the two outputs of section 4.3 of the Noise specification |
| `Noise.MixDh` | src/noise.cpp:30-41 | MixKey of the shared secret, or false with ck and k untouched |
| `Noise.EncryptAndHash` | src/noise.cpp:43-52 | with the all-zero nonce, the framework's EncryptAndHash at counter 0, for any chaining key |
| `Noise.DecryptAndHash` | src/noise.cpp:54-66 | the framework's DecryptAndHash at counter 0, refused also for a plaintext of the wrong size |
| `Noise.ClientInit` | src/noise.cpp:212-241 | the 101-byte message is the header and the initiator's first IK message; h and ck are its state; failures are es and ss |
| `Noise.ServerRead` | src/noise.cpp:151-179 | accepts exactly what the framework's responder reads with an empty payload, and keeps its h, ck and keys; the error names the token at which the responder stops |
| `Noise.ServerHandshake` | src/noise.cpp:132-210 | accepts exactly well-framed initiations that the framework's responder answers; response, peer key, version, hash and transport keys are the framework's; every error by its cause |
| `Noise.ClientFinish` | src/noise.cpp:243-278 | accepts exactly well-framed responses that the framework's initiator reads, whatever cipher the first message left; every error by its cause |
| `Noise.IkAgreement` | src/noise.cpp:132-278 | IK completes if and only if es, ss, ee and se succeed, and then both parties agree and the responder knows the initiator's static key |
| `Noise.Connect` | tests/test_noise.cpp:4-27 | the three calls succeed if and only if the four computations do; keys cross over, hashes are equal, the server learns machine key and version |
| `Transcript.PrologueReadsBack` | src/noise.cpp:85-88 | the 28 octets "Tailscale Control Protocol v" and the version in decimal |
| `Transcript.PrologueInjective` | src/noise.cpp:85-88 | two versions have different prologues |
| `Transcript.Framing` | src/noise.cpp:136-148 | what counts as an initiation and as a response, on the octets |
| `Transcript.MessagesAre` | src/noise.cpp:132-241 | both messages octet by octet: headers, ephemeral keys, and what is sealed under which key, zero nonce and hash |
| `Transcript.Handshake` | src/noise.cpp:132-278 | both sides end with the hash and the keys of one straight computation: four HKDF steps from es, ss, ee, se and a split |
| `Transcript.RewrittenVersionRefused` | src/noise.cpp:151-169 | a first message made for version v and told as w stops at "decrypting machine key", where no hash collides and the cipher binds its associated data |
| `Record.NoiseConn.DecryptOne` | src/noise.cpp:293-318 | consumes and opens one record, with every refusal of the source |
| `Record.NoiseConn.Read` | src/noise.cpp:320-333 | opens records until there is plaintext and hands out up to n bytes of it |
| `Record.NoiseConn.WriteRecord` | src/noise.cpp:338-349 | one sealed record under the next nonce, as far as the channel takes it |
| `Record.NoiseConn.Write` | src/noise.cpp:335-353 | records of at most 4077 bytes until the buffer is out or the channel breaks; the bytes of the whole records, or -1, with the counter past the record that failed |
| `Record.WriteAllSeals` | src/noise.cpp:335-353 | what a write puts on a channel is the sealed chunks of the buffer, up to where it breaks |
| `Record.ReportedBytesArrive` | src/noise.cpp:335-353 | wherever the channel breaks, the records that can be opened contain exactly the bytes that write reports |
| `Record.NonceLayout` | src/noise.cpp:99-104 | four zero octets and the counter, most significant octet first |
| `Record.NoncesDistinct` | src/noise.cpp:99-104 | counters below 2^64 give different nonces |
| `Record.RecordLayout` | src/noise.cpp:340-345 | the octet 4, the ciphertext's length in two octets, the ciphertext |
| `Record.OpenedExactly` | src/noise.cpp:293-318 | which bytes open as a record, to what, and what is left |
| `Record.OpenUndoesSeal` | src/noise.cpp:293-318 | every emitted record passes the receiver's bounds and opens to its plaintext, leaving the rest of the wire |
| `Record.ChunksCover` | src/noise.cpp:335-353 | the chunks concatenate to the buffer and are each 1 to 4077 bytes |
| `Record.ChunksAreFull` | src/noise.cpp:335-353 | every chunk but the last has exactly 4077 bytes |
| `Record.StreamEquality` | src/noise.cpp:293-353 | after any calls: read, buffered and in-flight bytes are the bytes written, in order |
| `Record.CountersAgree` | src/noise.cpp:309-342 | the sender's counter is the number of records sealed, the receiver's the number opened, modulo 2^64 |
| `Record.ReadProgress` | src/noise.cpp:320-333 | a read of positive size delivers something while something is outstanding |
| `Record.ReadsDeliver` | src/noise.cpp:320-333 | what was written is delivered in order, and all of it after as many positive reads as there were bytes |
| `Record.Exchange` | src/noise.cpp:280-353 | one pair of NoiseConn objects with crossed keys, for any interleaving of calls of both sides: each direction goes through exactly the states of the run of its own calls |
| `Session.Converse` | src/noise.cpp:132-353 | a client and a server complete the handshake exactly when the four computations succeed, and then over one pair of connections each hears what the other sent, in order, and all of it after enough reads |
| `IpAlloc.AddressFor` | src/ip_alloc.cpp:71-85 | addresses for indices 1 to max_index, an error for all others |
| `IpAlloc.PoolShape` | src/ip_alloc.cpp:54-69 | for prefix lengths 1 to 31 the mask clears the host bits and the pool has every host number but 0 |
| `IpAlloc.HostKeepsPrefix` | src/ip_alloc.cpp:71-75 | base plus index does not overflow, keeps the network prefix, and has the index as host part |
| `IpAlloc.NewAllocatorSound` | src/ip_alloc.cpp:54-69 | no valid prefix lets an address overflow, whatever the undefined shift by 32 yields |
| `IpAlloc.AddressIs` | src/ip_alloc.cpp:71-85 | addresses for exactly the indices 1 to the number of hosts: base plus index, and the index in the last four octets, most significant first |
| `IpAlloc.PoolEdges` | src/ip_alloc.cpp:54-69 | which prefix lengths are refused, and that a /32 has no host |
| `IpAlloc.AddressInjective` | src/ip_alloc.cpp:71-85 | no two hosts share an IPv4 or an IPv6 address |
| `IpAlloc.Ipv6PrefixKeptIffAtMost96` | src/ip_alloc.cpp:77-83 | the leading p bits survive for all bases and indices if and only if p is at most 96 |
| `StoreModel.KeyMade` | src/state.cpp:36-38 | a key without a word on sharing is shared exactly when it has no token; a lifetime refuses it exactly after it has passed; the rest as asked, unused |
| `StoreModel.ConsumeExactly` | src/state.cpp:271-290 | when a claim is granted, what it gives, and that it marks the first entry with the secret used and no other |
| `StoreModel.RegisterTwice` | src/state.cpp:297-307 | registering again gives the same node and the same store |
| `StoreModel.LegacyFileLoads` | src/state.cpp:24-34 | a file whose keys and nodes lack `shared` loads as what was saved, narrowed, each shared exactly when it has no token |
| `StoreModel.EntryDefaults` | src/state.cpp:24-34 | what a key or a node loads as, field by field, where the file has nothing |
| `StoreModel.FileDefaults` | src/state.cpp:125-140 | counters at 1 and empty lists where the file has nothing, and the noise key that was there |
| `StoreModel.SaveThenLoad` | src/state.cpp:87-160 | loading a snapshot gives the same store with id counter, ids and expiries narrowed |
| `StoreModel.SnapshotRoundTrip` | src/state.cpp:87-160 | a store is reproduced exactly if and only if those numbers survive the narrowing |
| `StoreModel.LargeExpiryDoesNotSurvive` | src/state.cpp:30 | an expiry of 2^31 loads as long past, one of 2^32 as never |
| `Store.Store.constructor` | src/state.cpp:60-85 | loads the file, or makes a noise key and saves |
| `NoiseKey.LoadedKey` | src/state.cpp:65-85 | the file's key is kept if it decodes and is not all zeros; otherwise the generated one is taken and saved |
| `NoiseKey.SameKeyForGood` | src/state.cpp:81-84 | with a file, the key of the first start is in memory and file in every state of every run |
| `Store.Store.SnapshotLocked` | src/state.cpp:87-123 | the loops build the snapshot of the fields |
| `Store.Store.ApplySnapshotLocked` | src/state.cpp:125-160 | the fields become what the snapshot says, with defaults, keeping the noise key if none decodes |
| `Store.Store.SaveLocked` | src/state.cpp:162-180 | the file becomes the snapshot, if there is a path |
| `Store.Store.CreatePreauthKey` | src/state.cpp:213-229 | appends an unused key with the resolved shared flag and expiry, and saves |
| `Store.Store.ReadKeys` | src/state.cpp:236-252 | the unlocked half: the keys in the file, if there are any |
| `Store.ReloadedExactly` | src/state.cpp:236-257 | a list of keys in the file replaces those in memory, even an empty one |
| `Store.Store.InstallKeys` | src/state.cpp:253-257 | the locked half: keys become what was read before |
| `Store.Store.ConsumeLocked` | src/state.cpp:271-290 | the first entry with the secret decides; success marks it used and saves, failure changes nothing |
| `Store.Store.ConsumePreauth` | src/state.cpp:269-291 | undisturbed, the keys of the file decide when there are any and replace those in memory; a grant marks and saves, a refusal does not touch the file |
| `Store.Store.RegisterNode` | src/state.cpp:293-323 | refreshes a known machine or adds a node; an exhausted pool advances both counters, adds nothing and saves nothing |
| `Store.Store.FindByMachine` | src/state.cpp:325-333 | the first node of the machine, or none |
| `Store.Store.UpdateInfo` | src/state.cpp:350-372 | updates the machine's node, keeping fields that were sent empty, and saves; else nothing |
| `Store.Store.SetNodeOnline` | src/state.cpp:374-382 | changes one flag and does not save |
| `Coordinator.StartMatchesStore` | src/coordinator.cpp:113-118 | a start leaves the memory and file of the Store's constructor, with a first key made and saved if it found none |
| `Coordinator.BootKeyIs` | src/coordinator.cpp:113-118 | the first key is reusable, never expires, makes persistent nodes and is shared |
| `Handlers.Coordinator.OnRegister` | src/coordinator.cpp:382-435 | store, file, generation and reply are those of `Registers` |
| `Handlers.RegisterDecides` | src/coordinator.cpp:405-424 | denied exactly without a known machine or a granted key; a newcomer gets its claim's token, shared and ephemeral, a known machine keeps its own; no other node changes; the generation moves only on success |
| `Handlers.RegisterAlone` | src/coordinator.cpp:408-424 | the critical sections of on_register, run in a row, leave store, file and generation as `Registers` says |
| `Handlers.Coordinator.OnMap` | src/coordinator.cpp:437-484 | store, file, generation and reply are those of `Maps` |
| `Handlers.MapDecides` | src/coordinator.cpp:449-483 | which reply in which case, whose map over which nodes, what changes and when the generation moves |
| `Handlers.MapAlone` | src/coordinator.cpp:453-483 | the critical sections of on_map, run in a row, do the same, and the map served and the stream entered are those of the reply |
| `Handlers.Coordinator.Tick` | src/coordinator.cpp:355-377 | every stream ends at the current generation; those behind get the current map, others a keepalive when due; last_send moves when something was sent |
| `Handlers.TickAlone` | src/coordinator.cpp:355-377 | the critical sections of a tick, run in a row, leave every stream at the current generation, with the map of the current nodes if it was behind |
| `Netmap.BuildFullMap` | src/netmap.cpp:114-189 | the one pass with four lists gives the filtered peers, records and addresses, and `MapTells` holds of them |
| `Netmap.MapForTells` | src/netmap.cpp:38-69 | field by field: every other visible node has an entry with its own key, disco key if any, machine, ids, name, addresses, endpoints and flag, every entry is one of these, the own node is told as online, and both addresses have a record |
| `Netmap.PeersExact` | src/netmap.cpp:19-27 | with unique ids, a node is a peer exactly when it is another node and one of the two is shared or the tokens are equal |
| `Netmap.PeersSymmetric` | src/netmap.cpp:19-27 | being a peer is mutual |
| `Netmap.PeersInOrder` | src/netmap.cpp:146-156 | peers keep the order of the node list |
| `Netmap.FilterExact` | src/netmap.cpp:121-165 | both sides of the filter list exactly the addresses of visible nodes; "*" exactly when there are none |
| `Netmap.PeersAdmitted` | src/netmap.cpp:57-58 | every address a peer is announced with passes the filter |
| `Netmap.NoFallback` | src/netmap.cpp:158-165 | a node in the list with an address never gets "*" |
| `Netmap.MapMentionsOnlyVisible` | src/netmap.cpp:146-156 | every peer, record and filter entry comes from a visible node of the list |
| `Allocation.AllocationInvariant` | src/state.cpp:293-323 | ids, counters, addresses and the file's nodes agree in every state of every run |
| `Allocation.IdentitiesDistinct` | src/state.cpp:308-322 | machine keys, ids, stable ids and both addresses are pairwise distinct, and addresses are those of the id, over every run with fewer than 2^31 new machines |
| `Allocation.IdentitiesPermanent` | src/state.cpp:125-160 | a node's id, addresses, token and shared flag never change, through restarts with a file |
| `Durable.NodesSurviveRestart` | src/state.cpp:125-160 | with a file, a restart after any run brings back every node in order with all its fields, up to online flags |
| `OneShot.OneShotInvariant` | src/state.cpp:236-291 | a granted one-shot secret is marked used in memory, in the file and in every list read but not installed |
| `OneShot.ConsumedAtMostOnce` | src/state.cpp:269-291 | no secret is granted again after a one-shot grant, in every run without overlapping calls |
| `OneShot.OverlapGrantsTwice` | src/state.cpp:240-253 | with a file, a run of two overlapping calls grants a one-shot key twice |
| `OneShot.SafeUnderOverlapIffNoFile` | src/state.cpp:236-258 | all interleavings are safe if and only if there is no state file |
| `Reuse.SpentForGoodIff` | src/state.cpp:236-291 | with a file, from every state with a used-up one-shot key at any time: no continuation without a new key of that secret and with the clock going on grants it again if and only if no list read and not installed would grant it then |
| `Reuse.LastGrantIff` | src/state.cpp:269-291 | so at every grant of a one-shot key in every run |
| `Keys.GrantedKeysWereMade` | src/state.cpp:213-229 | every grant was of a key made before, on request or by a start that found none, and gave that key's token and flags |
| `Keys.CreatedKeyLastsIff` | src/state.cpp:240-257 | a key made in any state is kept in memory and file by every continuation if and only if no list read and not installed lacks it |
| `Isolation.EveryNodeWasClaimed` | src/coordinator.cpp:408-423 | every node carries the token and shared flag of a key granted to its own machine |
| `Admission.EveryNodeHasItsKey` | src/coordinator.cpp:408-423 | that key was made, and had this token and shared flag |
| `Admission.OneShotAdmitsOne` | src/state.cpp:269-291 | two nodes were let in by two grants, of different keys if the earlier was one-shot, in every run without overlap or without a file |
| `Admission.KeyOrigin` | src/state.cpp:213-229 | every key made comes from a call of create_preauth_key or from a start |
| `Admission.KeysSeparateGroups` | src/netmap.cpp:19-27 | nodes let in by keys asked for with different non-empty tokens and no word on sharing are absent from each other's maps |
| `Admission.OpenKeySeesAll` | src/netmap.cpp:19-27 | a node let in by a key without token and without a word on sharing is a peer of every other node, and they of it |
| `Isolation.GroupIsolation` | src/netmap.cpp:146-156 | no map ever built for a node has a peer, record value or filter entry of a node of another group |
| `Isolation.FallbackNeverServed` | src/netmap.cpp:158-165 | no map ever built has the "*" filter |
| `Hostnames.NamesNeverLost` | src/state.cpp:308-316 | in every run, with restarts, no node in memory or in the file is without a host name |
| `Hostnames.LabelIsHostname` | src/netmap.cpp:139-144 | so the label in maps and answers is always the node's own name, never the fallback |
| `Announced.RegisterIsShownInRun` | src/coordinator.cpp:423-424 | at any point of any run: after an accepted register request, the map of every node that sees the machine shows the key sent, in each of its entries |
| `Announced.UpdateIsShownInRun` | src/coordinator.cpp:453-458 | after a map request that is not read-only: online, the endpoints sent, and key, disco key and name where sent |
| `Fanout.FanoutInvariant` | src/coordinator.cpp:355-379 | generations, announced mutations and streams agree in every state of every run |
| `Fanout.RefreshedIsFresh` | src/coordinator.cpp:355-370 | a map pushed by a tick is built from node lists no older than any mutation announced up to the stream's generation |
| `Fanout.TickLeavesNoneBehind` | src/coordinator.cpp:359-376 | when a tick's loop is through, every stream of the connection is at the tick's generation |
| `FirstMap.FirstMapFreshIff` | src/coordinator.cpp:465-483 | list and own node of the first map have that guarantee if and only if no event after find_by_machine makes a mutation that a later event before the entry announces |
| `FirstMap.FirstMapFreshWithoutBump` | src/coordinator.cpp:465-483 | so they have if no bump lands between find_by_machine and reading the generation |
| `Convergence.VersionsAccounted` | src/coordinator.cpp:378-379 | in every state of every run, each version of the nodes is announced, about to be, or one machine coming online |
| `Convergence.StreamsConverge` | src/coordinator.cpp:355-379 | with nothing about to be announced, a stream at the current generation with a fresh map has the map of the current nodes up to online flags; its list is the current one exactly when no machine came online since by a step that changed a flag |
| `FanoutGaps.FirstMapCanBeStale` | src/coordinator.cpp:471-483 | a run in which a stream is at the current generation without an announced mutation, and a tick changes nothing |
| `FanoutGaps.OwnNodeCanBeStale` | src/coordinator.cpp:465-471 | a run in which the list of such a stream is current and its own node is not |
| `FanoutGaps.OnlineCanBeMissed` | src/coordinator.cpp:453-458 | a run in which a refreshed stream at the current generation shows a peer offline that is online, with nothing about to be announced |
| `FanoutGaps.TickAtGenerationIsQuiet` | src/coordinator.cpp:359-376 | a whole tick over streams at the current generation leaves everything as it was |
| `DnsName.ParseQname` | src/dns.cpp:34-73 | for every message and offset: the labels of the expansion within 16 steps joined by dots, and the offset past the terminator or first pointer; refused exactly when there is no expansion |
| `DnsName.ExpandStep` | src/dns.cpp:39-71 | one step of the expansion on the octets: terminator, 14-bit pointer, label |
| `DnsName.JoinWrittenOut` | src/dns.cpp:65-71 | octets as characters, one dot between labels |
| `DnsName.ExpandEncoded` | src/dns.cpp:34-73 | an encoded name expands to its labels exactly when the budget exceeds their number |
| `DnsName.ParseInvertsEncode` | src/dns.cpp:34-73 | inverts the encoding of at most 15 labels anywhere in a message, and refuses more |
| `DnsName.ExpandPointer` | src/dns.cpp:52-63 | a pointer to a name of at most 14 labels reads as that name and takes two bytes; beyond that it is refused |
| `DnsAnswer.Find` | src/dns.cpp:203-213 | the first node whose host name or qualified name was asked for |
| `DnsAnswer.CaseIgnored` | src/dns.cpp:193-206 | names compare equal exactly when they differ in the case of ASCII letters only |
| `DnsAnswer.AnswersTo` | src/dns.cpp:203-208 | a node answers to its host name and to its qualified name with or without a final dot, and to nothing else |
| `DnsAnswer.AnswerQuery` | src/dns.cpp:171-260 | which queries are answered, and header, question and records of the response |
| `DnsAnswer.RefusedExactly` | src/dns.cpp:171-190 | on the octets of the message: too short, response bit, no question, unparsable name, no type and class |
| `DnsAnswer.ResponsesAreNotAnswered` | src/dns.cpp:175-178 | a response has the response bit and gets no answer from any server of this kind |
| `DnsAnswer.HeaderWrittenOut` | src/dns.cpp:215-231 | id, flags, counts; name error exactly if no node has the name |
| `DnsAnswer.RecordWrittenOut` | src/dns.cpp:232-240 | a record octet by octet |
| `DnsWalk.SimpleReadsBackIff` | src/dns.cpp:215-259 | a pointer-free name is answered if and only if it has at most 15 labels, and the response reads back if and only if one question was counted and there are at most 14 labels or no answer |
| `DnsWalk.AnswersCarryAddresses` | src/dns.cpp:242-256 | the records carry the node's pool addresses, by the type asked |
| `DnsWalk.ResponseReadsBackIff` | src/dns.cpp:171-259 | for every query that is answered: the response reads back as id, flags, the question and exactly the intended records, ending at the last byte, if and only if one question was counted, the copied question spells the name, and there is no answer or a step of the budget is left |
| `DnsWalk.CopiedNameReadsBackIff` | src/dns.cpp:215-259 | where the name is spelled by octets of the question, pointers included: if and only if one question was counted and there is no answer or the name takes at most 15 steps |
| `DnsGaps.FifteenLabelsBreakOwners` | src/dns.cpp:232-240 | the address of a node with any 15-label name is asked, answered, and the answer cannot be read |
| `DnsGaps.FifteenLabelsExample` | src/dns.cpp:232-240 | one such query and node |
| `DnsGaps.StrayNameBreaks` | src/dns.cpp:52-63 | one question whose name is a pointer past the question: answered, and the response cannot be read |
| `DnsWalk.ResolverAgrees` | src/dns.cpp:193-213 | looking up any pushed record's name finds the node whose address it carries |
| `MapFrame.EncodeMapFrame` | src/netmap.cpp:214-221 | four little-endian length bytes and the payload |
| `MapFrame.FrameLayout` | src/netmap.cpp:214-221 | the length, least significant octet first, and the payload |
| `MapFrame.FrameSurvivesIffShort` | src/netmap.cpp:214-221 | a frame decodes to its payload if and only if that is shorter than 2^32 bytes |
| `MapFrame.DecodePrefix` | src/netmap.cpp:214-221 | any prefix of a stream of frames decodes to a prefix of the payloads; the whole to all of them |
| `MapStream.Stream.Reply` | src/http2_session.cpp:182-194 | the body is pending and the stream is ended |
| `MapStream.Stream.ReplyStreamStart` | src/http2_session.cpp:196-206 | exactly the first frame is pending, and the stream is open |
| `MapStream.Stream.PushData` | src/http2_session.cpp:208-216 | the data is pending after what was pending, whatever was handed out before |
| `MapStream.Stream.EndStream` | src/http2_session.cpp:218-226 | what was pending is still, and nothing follows it |
| `MapStream.Stream.DataRead` | src/http2_session.cpp:131-157 | the offset buffer reads as a queue: up to `length` pending bytes, deferral, or EOF |
| `MapStream.Delivery` | src/http2_session.cpp:131-226 | delivered and pending bytes are the frames pushed, in order; the client decodes a prefix of the payloads, all of them once nothing is pending |
| `MapStream.EofExactlyAtTheEnd` | src/http2_session.cpp:131-157 | a read signals EOF if and only if end_stream was called and everything is delivered, and defers if and only if everything was delivered and more may come |
| `MapStream.Serve` | src/http2_session.cpp:131-226 | a Stream object goes through exactly the states of the run |

## Left out

- OpenSSL, nghttp2, zstd and JSON text: foreign code; primitives are parameters, JSON is a record of optional fields, a frame's payload is opaque.
- Sockets, poll loops, threads' start and stop, the UDP loop and clocks: I/O; time is a parameter.
- `import_state` and a second process writing the state file: they can overwrite the store at will and are not events of a run.
- A save that fails and throws: the state file is always writable here.
- A receive that fails before the stream ends: the reading side of a channel ends, but does not fail.
- Fanout.RefreshedIsFresh: does not model the wrap-around of the 64-bit generation counter, which takes 2^64 bumps.
- OneShot.ConsumedAtMostOnce: goes one way over whole runs, since overlapping calls need not break a key; the exact condition, grant by grant, is `LastGrantIff`.
- MagicDNS answers about every node whatever the group of the asker (`src/dns.cpp:203-213`); isolation here is about maps.
- The table of HTTP/2 streams (lookup, removal on close, a push to a missing stream) and the persist hook: plumbing around the buffer and the store.
- Reuse.SpentForGoodIff: supposes that no later key has the secret of the used-up one, since secrets are random, and that the clock does not go back.
- Keepalives are in `Handlers.Coordinator.Tick` and not in the state machine: they carry no state.
- parse_cidr's text handling, key prefixes (`src/keys.cpp`), HTTP/1 parsing, the DERP map, profiles, the C API and the command line: constants and plumbing that would only add easy members.
- Expiry arithmetic is on unbounded integers: overflow of a 64-bit expiry is not modelled.
