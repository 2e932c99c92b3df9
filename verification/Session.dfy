/** The handshake and the record layer together: src/noise.cpp end to end. */
module Session {
  import opened Bytes
  import opened Crypto
  import Noise
  import Record

  /** What is received is what was sent, in order, and all of it once the receiver has read long
      enough. */
  predicate HeardRightly(h: Record.Heard, ops: seq<Record.Op>) {
    && h.sent == Record.Written(ops)
    && h.received + h.buffered <= h.sent
    && (Record.TrailingReads(ops) >= |h.sent| ==> h.received == h.sent)
  }

  lemma CarriedRightly(s: Suite, key: Bytes32, ops: seq<Record.Op>, h: Record.Heard)
    requires Lawful(s) && Record.Carried(s, key, ops, h)
    ensures HeardRightly(h, ops)
  {
    Record.StreamEquality(s, key, ops);
    Record.ReadsDeliver(s, key, ops);
  }

  /** A client and a server that complete the handshake hear each other rightly in both directions,
      over one pair of connections with the keys that each one's handshake gave it, whatever the
      interleaving of their calls. They complete it if and only if the four Diffie-Hellman
      computations succeed. */
  method Converse(s: Suite, machine: Bytes32, control: Bytes32, version: nat, machineEph: Bytes32, controlEph: Bytes32,
                  calls: seq<Record.Call>) returns (r: Option<(Record.Heard, Record.Heard)>)
    requires Lawful(s) && version < 0x1_0000
    ensures r.Some? <==> Noise.AllDhSucceed(s, machine, control, machineEph, controlEph)
    ensures r.Some? ==>
              HeardRightly(r.value.0, Record.Ups(calls)) && HeardRightly(r.value.1, Record.Downs(calls))
  {
    var keys := Noise.Connect(s, machine, control, version, machineEph, controlEph);
    if keys.None? {
      return None;
    }
    var (client, server) := keys.value;
    var up, down := Record.Exchange(s, client.tx, client.rx, server.tx, server.rx, calls);
    CarriedRightly(s, client.tx, Record.Ups(calls), up);
    CarriedRightly(s, server.tx, Record.Downs(calls), down);
    r := Some((up, down));
  }
}
