/** src/noise.cpp, the record layer: NoiseConn chunks, seals, opens and reassembles a byte stream.

    `NoiseConn` is the class as the source has it, over a reliable ordered channel; its methods
    are tied to functions on values, and `StreamEquality` is about every run of those. */
module Record {
  import opened Bytes
  import opened Crypto

  const MSG_RECORD: byte := 4
  const HEADER_LEN := 3
  const MAX_MESSAGE := 4096
  const MAX_PLAINTEXT := MAX_MESSAGE - 3 - 16

  // ---------------------------------------------------------------- sealing

  /** The counter is big-endian here, unlike the handshake framework's section 12.3. */
  function TransportNonce(n: nat): seq<byte> {
    Zeros(4) + BigEndian(8, n)
  }

  /** Four zero octets, then the counter with its most significant octet first. */
  lemma NonceLayout(n: nat, i: nat)
    requires i < 8
    ensures |TransportNonce(n)| == 12 && TransportNonce(n)[..4] == [0, 0, 0, 0]
    ensures Pow256(7 - i) > 0 && TransportNonce(n)[4 + i] == n / Pow256(7 - i) % 256
  {
    BigEndianAt(8, n, i);
  }

  function SealRecord(s: Suite, key: Bytes32, n: nat, plain: seq<byte>): seq<byte> {
    var cipher := s.seal(key, TransportNonce(n), [], plain);
    [MSG_RECORD] + Be16(|cipher|) + cipher
  }

  /** A record on the wire: the octet 4, the length of the ciphertext in two, the ciphertext. */
  lemma RecordLayout(s: Suite, key: Bytes32, n: nat, plain: seq<byte>)
    ensures var cipher := s.seal(key, TransportNonce(n), [], plain);
            SealRecord(s, key, n, plain) == [4, |cipher| / 256 % 256, |cipher| % 256] + cipher
  {
  }

  function SealAll(s: Suite, key: Bytes32, n: nat, records: seq<seq<byte>>): seq<byte>
    decreases |records|
  {
    if records == [] then [] else SealRecord(s, key, n, records[0]) + SealAll(s, key, Inc64(n), records[1..])
  }

  /** The counter after that many records. */
  function Advance(n: nat, records: nat): nat
    decreases records
  {
    if records == 0 then n else Advance(Inc64(n), records - 1)
  }

  /** The pieces that one call of write makes of its buffer. */
  function Chunks(data: seq<byte>): seq<seq<byte>> {
    if data == [] then [] else
      var n := Min(|data|, MAX_PLAINTEXT);
      [data[..n]] + Chunks(data[n..])
  }

  // ---------------------------------------------------------------- opening

  /** One decrypt_one: `rest` is what it leaves on the wire, also when it fails. */
  datatype One = One(ok: bool, plain: seq<byte>, rest: seq<byte>)

  function OpenOne(s: Suite, key: Bytes32, n: nat, wire: seq<byte>): (r: One)
    ensures r.ok ==> |r.rest| < |wire|
  {
    if |wire| < HEADER_LEN then One(false, [], []) else
    if wire[0] != MSG_RECORD then One(false, [], wire[HEADER_LEN..]) else
    var size := FromBe16(wire[1], wire[2]);
    if size < 16 || size > MAX_MESSAGE - HEADER_LEN then One(false, [], wire[HEADER_LEN..]) else
    if |wire| < HEADER_LEN + size then One(false, [], []) else
    var rest := wire[HEADER_LEN + size..];
    match s.open(key, TransportNonce(n), [], wire[HEADER_LEN..HEADER_LEN + size])
    case None => One(false, [], rest)
    case Some(plain) => One(true, plain, rest)
  }

  /** A record opens exactly if it is complete, has the octet 4, a length of 16 to 4093, and a ciphertext
      that the cipher accepts under the counter; nothing after it is touched. */
  lemma OpenedExactly(s: Suite, key: Bytes32, n: nat, wire: seq<byte>)
    requires |wire| >= 3
    ensures var one, size := OpenOne(s, key, n, wire), FromBigEndian(wire[1..3]);
            && (one.ok <==> wire[0] == 4 && 16 <= size <= 4093 && 3 + size <= |wire|
                            && s.open(key, TransportNonce(n), [], wire[3..3 + size]).Some?)
            && (one.ok ==> s.open(key, TransportNonce(n), [], wire[3..3 + size]) == Some(one.plain)
                           && one.rest == wire[3 + size..])
  {
    FixedReads(wire[1], wire[2], 0, 0);
    assert wire[1..3] == [wire[1], wire[2]];
  }

  /** Everything that the records on the wire contain. */
  function Contents(s: Suite, key: Bytes32, n: nat, wire: seq<byte>): seq<byte>
    decreases |wire|
  {
    var one := OpenOne(s, key, n, wire);
    if one.ok then one.plain + Contents(s, key, Inc64(n), one.rest) else []
  }

  /** How many records are on the wire. */
  function Records(s: Suite, key: Bytes32, n: nat, wire: seq<byte>): nat
    decreases |wire|
  {
    var one := OpenOne(s, key, n, wire);
    if one.ok then 1 + Records(s, key, Inc64(n), one.rest) else 0
  }

  /** The receiver's fields, and the bytes it has yet to take from the channel. */
  datatype Receiver = Receiver(plaintext: seq<byte>, rx: nat, wire: seq<byte>)

  /** The loop of read: open records until there is plaintext; false if one fails first. */
  function Fill(s: Suite, key: Bytes32, r: Receiver): (bool, Receiver)
    decreases |r.wire|
  {
    if r.plaintext != [] then (true, r) else
    var one := OpenOne(s, key, r.rx, r.wire);
    if !one.ok then (false, r.(wire := one.rest)) else
    Fill(s, key, Receiver(r.plaintext + one.plain, Inc64(r.rx), one.rest))
  }

  function ReadBytes(s: Suite, key: Bytes32, r: Receiver, n: int): (Receiver, seq<byte>) {
    if n <= 0 then (r, []) else
    var (ok, r') := Fill(s, key, r);
    if !ok then (r', []) else
    var take := Min(n, |r'.plaintext|);
    (r'.(plaintext := r'.plaintext[take..]), r'.plaintext[..take])
  }

  // ---------------------------------------------------------------- the class

  /** A channel with room for n more bytes before it breaks; None if it never does. */
  type Room = Option<nat>

  predicate Takes(room: Room, n: nat) {
    room.None? || n <= room.value
  }

  function Left(room: Room, n: nat): Room {
    if room.None? then None else Some(room.value - Min(n, room.value))
  }

  /** What of the data gets through. */
  function Fit(room: Room, data: seq<byte>): seq<byte> {
    if Takes(room, |data|) then data else data[..room.value]
  }

  /** An ordered byte channel: what one end wrote and the other has not yet received. */
  class Channel {
    var bytes: seq<byte>
    var room: Room

    constructor (room: Room)
      ensures bytes == [] && this.room == room
    {
      bytes, this.room := [], room;
    }

    /** read_full: false when the stream ends first. */
    method ReadFull(n: nat) returns (r: Option<seq<byte>>)
      modifies this`bytes
      ensures |old(bytes)| < n ==> r == None && bytes == []
      ensures |old(bytes)| >= n ==> r == Some(old(bytes)[..n]) && bytes == old(bytes)[n..]
    {
      if |bytes| < n {
        bytes := [];
        return None;
      }
      r, bytes := Some(bytes[..n]), bytes[n..];
    }

    /** write_full: false when the channel breaks first. */
    method WriteFull(data: seq<byte>) returns (ok: bool)
      modifies this
      ensures ok == Takes(old(room), |data|)
      ensures bytes == old(bytes) + Fit(old(room), data) && room == Left(old(room), |data|)
    {
      ok := Takes(room, |data|);
      bytes, room := bytes + Fit(room, data), Left(room, |data|);
    }
  }

  class NoiseConn {
    const s: Suite
    const outgoing: Channel
    const incoming: Channel
    const txKey: Bytes32
    const rxKey: Bytes32
    var txNonce: nat
    var rxNonce: nat
    var plaintext: seq<byte>

    constructor (s: Suite, outgoing: Channel, incoming: Channel, txKey: Bytes32, rxKey: Bytes32)
      ensures this.s == s && this.outgoing == outgoing && this.incoming == incoming
      ensures this.txKey == txKey && this.rxKey == rxKey
      ensures txNonce == 0 && rxNonce == 0 && plaintext == []
    {
      this.s, this.outgoing, this.incoming := s, outgoing, incoming;
      this.txKey, this.rxKey := txKey, rxKey;
      txNonce, rxNonce, plaintext := 0, 0, [];
    }

    ghost function Receiving(): Receiver
      reads this, incoming
    {
      Receiver(plaintext, rxNonce, incoming.bytes)
    }

    method DecryptOne() returns (ok: bool)
      modifies this`rxNonce, this`plaintext, incoming`bytes
      ensures var one := OpenOne(s, rxKey, old(rxNonce), old(incoming.bytes));
              && ok == one.ok && incoming.bytes == one.rest
              && plaintext == old(plaintext) + one.plain
              && rxNonce == if ok then Inc64(old(rxNonce)) else old(rxNonce)
    {
      var header := incoming.ReadFull(HEADER_LEN);
      if header.None? {
        return false;
      }
      if header.value[0] != MSG_RECORD {
        return false;
      }
      var size := FromBe16(header.value[1], header.value[2]);
      if size < 16 || size > MAX_MESSAGE - HEADER_LEN {
        return false;
      }
      var cipher := incoming.ReadFull(size);
      if cipher.None? {
        return false;
      }
      assert old(incoming.bytes)[HEADER_LEN..][..size] == old(incoming.bytes)[HEADER_LEN..HEADER_LEN + size];
      assert old(incoming.bytes)[HEADER_LEN..][size..] == old(incoming.bytes)[HEADER_LEN + size..];
      var plain := s.open(rxKey, TransportNonce(rxNonce), [], cipher.value);
      if plain.None? {
        return false;
      }
      rxNonce := Inc64(rxNonce);
      plaintext := plaintext + plain.value;
      ok := true;
    }

    method Read(n: int) returns (data: seq<byte>)
      modifies this`rxNonce, this`plaintext, incoming`bytes
      ensures (Receiving(), data) == ReadBytes(s, rxKey, old(Receiving()), n)
    {
      if n <= 0 {
        return [];
      }
      while plaintext == []
        invariant Fill(s, rxKey, Receiving()) == Fill(s, rxKey, old(Receiving()))
        decreases plaintext == [], |incoming.bytes|
      {
        ghost var before := Receiving();
        var ok := DecryptOne();
        if !ok {
          assert Fill(s, rxKey, before) == (false, Receiving());
          return [];
        }
        assert Fill(s, rxKey, before) == Fill(s, rxKey, Receiving());
      }
      var take := Min(n, |plaintext|);
      data, plaintext := plaintext[..take], plaintext[take..];
    }

    ghost function Sending(): Sender
      reads this, outgoing
    {
      Sender(txNonce, outgoing.room, outgoing.bytes)
    }

    /** The body of write's loop: the next nonce is used up whether or not the record gets through. */
    method WriteRecord(chunk: seq<byte>) returns (ok: bool)
      modifies this`txNonce, outgoing
      ensures (Sending(), ok) == WriteOne(s, txKey, old(Sending()), chunk)
    {
      var cipher := s.seal(txKey, TransportNonce(txNonce), [], chunk);
      txNonce := Inc64(txNonce);
      var header := [MSG_RECORD] + Be16(|cipher|);
      FitBoth(outgoing.room, header, cipher);
      ok := outgoing.WriteFull(header);
      if ok {
        ok := outgoing.WriteFull(cipher);
        Assoc(old(outgoing.bytes), header, Fit(Left(old(outgoing.room), |header|), cipher));
      }
    }

    /** The next record of a buffer, of which `done` bytes are gone. */
    method WriteNext(buf: seq<byte>, done: nat, ghost end: Sender, ghost whole: nat) returns (ok: bool, chunk: nat)
      requires done < |buf| && done <= whole && WriteAll(s, txKey, Sending(), buf[done..]) == (end, whole - done)
      modifies this`txNonce, outgoing
      ensures chunk == Min(|buf| - done, MAX_PLAINTEXT)
      ensures !ok ==> Sending() == end && whole == done
      ensures ok ==> done + chunk <= whole
                     && WriteAll(s, txKey, Sending(), buf[done + chunk..]) == (end, whole - (done + chunk))
    {
      chunk := Min(|buf| - done, MAX_PLAINTEXT);
      ghost var x := Sending();
      ok := WriteRecord(buf[done..done + chunk]);
      NextChunk(s, txKey, x, buf, done, chunk, Sending(), ok, end, whole);
    }

    /** The buffer goes out as records. If the channel breaks, what gets through is cut off there, and
        the result counts the bytes of the whole records before, or is -1 if there are none. */
    method Write(buf: seq<byte>) returns (sent: int)
      modifies this`txNonce, outgoing
      ensures (Sending(), sent) == WriteBytes(s, txKey, old(Sending()), buf)
    {
      var done: nat := 0;
      ghost var all := WriteAll(s, txKey, Sending(), buf);
      assert buf[0..] == buf;
      while done < |buf|
        invariant done <= |buf| && done <= all.1
        invariant WriteAll(s, txKey, Sending(), buf[done..]) == (all.0, all.1 - done)
      {
        var ok, chunk := WriteNext(buf, done, all.0, all.1);
        if !ok {
          return if done == 0 then -1 else done;
        }
        done := done + chunk;
      }
      sent := done;
    }
  }

  /** The sender's counter, and its end of the channel. */
  datatype Sender = Sender(tx: nat, room: Room, wire: seq<byte>)

  function WriteOne(s: Suite, key: Bytes32, x: Sender, chunk: seq<byte>): (Sender, bool) {
    var record := SealRecord(s, key, x.tx, chunk);
    (Sender(Inc64(x.tx), Left(x.room, |record|), x.wire + Fit(x.room, record)), Takes(x.room, |record|))
  }

  /** One record after another until the channel breaks, with the bytes of those that got through
      whole. */
  function WriteAll(s: Suite, key: Bytes32, x: Sender, data: seq<byte>): (Sender, nat)
    decreases |data|
  {
    if data == [] then (x, 0) else
    var m := Min(|data|, MAX_PLAINTEXT);
    var (x', ok) := WriteOne(s, key, x, data[..m]);
    if !ok then (x', 0) else
    var (end, whole) := WriteAll(s, key, x', data[m..]);
    (end, m + whole)
  }

  /** The step of write's loop. */
  lemma NextChunk(s: Suite, key: Bytes32, x: Sender, buf: seq<byte>, sent: nat, chunk: nat, x': Sender, ok: bool,
                  end: Sender, whole: nat)
    requires sent < |buf| && chunk == Min(|buf| - sent, MAX_PLAINTEXT) && whole >= sent
    requires WriteAll(s, key, x, buf[sent..]) == (end, whole - sent)
    requires (x', ok) == WriteOne(s, key, x, buf[sent..sent + chunk])
    ensures if ok then
              whole >= sent + chunk && WriteAll(s, key, x', buf[sent + chunk..]) == (end, whole - (sent + chunk))
            else end == x' && whole == sent
  {
    var rest := buf[sent..];
    assert rest[..chunk] == buf[sent..sent + chunk] && rest[chunk..] == buf[sent + chunk..];
    FirstWrite(s, key, x, rest, chunk, x', ok);
  }

  lemma FirstWrite(s: Suite, key: Bytes32, x: Sender, data: seq<byte>, m: nat, x': Sender, ok: bool)
    requires data != [] && m == Min(|data|, MAX_PLAINTEXT) && (x', ok) == WriteOne(s, key, x, data[..m])
    ensures WriteAll(s, key, x, data)
            == if ok then (WriteAll(s, key, x', data[m..]).0, m + WriteAll(s, key, x', data[m..]).1) else (x', 0)
  {
  }

  function WriteBytes(s: Suite, key: Bytes32, x: Sender, buf: seq<byte>): (Sender, int) {
    var (end, whole) := WriteAll(s, key, x, buf);
    (end, if whole == 0 && buf != [] then -1 else whole)
  }

  /** What a write leaves on the channel is the sealed chunks, up to where it breaks. */
  lemma {:induction false} WriteAllSeals(s: Suite, key: Bytes32, x: Sender, data: seq<byte>)
    ensures var records := Chunks(data);
            var all, whole := SealAll(s, key, x.tx, records), Whole(s, key, x.tx, records, x.room);
            WriteAll(s, key, x, data)
            == (Sender(Advance(x.tx, Min(whole + 1, |records|)), Left(x.room, |all|), x.wire + Fit(x.room, all)),
                |Concat(records[..whole])|)
    decreases |data|
  {
    if data == [] {
      assert x.wire + [] == x.wire;
    } else {
      var m := Min(|data|, MAX_PLAINTEXT);
      var record, tail := SealRecord(s, key, x.tx, data[..m]), SealAll(s, key, Inc64(x.tx), Chunks(data[m..]));
      ChunkStep(s, key, x.tx, data);
      assert Chunks(data)[1..] == Chunks(data[m..]);
      FitBoth(x.room, record, tail);
      if Takes(x.room, |record|) {
        WriteAllSeals(s, key, Sender(Inc64(x.tx), Left(x.room, |record|), x.wire + record), data[m..]);
        Assoc(x.wire, record, Fit(Left(x.room, |record|), tail));
        FirstOf(Chunks(data), Whole(s, key, x.tx, Chunks(data), x.room));
      } else {
        assert Advance(x.tx, 1) == Inc64(x.tx);
      }
    }
  }

  lemma FirstOf(records: seq<seq<byte>>, k: nat)
    requires 0 < k <= |records|
    ensures Concat(records[..k]) == records[0] + Concat(records[1..][..k - 1])
  {
    assert records[..k][1..] == records[1..][..k - 1];
  }

  /** The number of records that get through whole. */
  function Whole(s: Suite, key: Bytes32, n: nat, records: seq<seq<byte>>, room: Room): (k: nat)
    ensures k <= |records|
    decreases |records|
  {
    if records == [] then 0 else
    var size := |SealRecord(s, key, n, records[0])|;
    if !Takes(room, size) then 0 else 1 + Whole(s, key, Inc64(n), records[1..], Left(room, size))
  }

  lemma {:induction false} UnbrokenIsWhole(s: Suite, key: Bytes32, n: nat, records: seq<seq<byte>>)
    ensures Whole(s, key, n, records, None) == |records|
    decreases |records|
  {
    if records != [] {
      UnbrokenIsWhole(s, key, Inc64(n), records[1..]);
    }
  }

  /** An unbroken channel takes everything. */
  lemma UnbrokenWrite(s: Suite, key: Bytes32, x: Sender, data: seq<byte>)
    requires x.room.None?
    ensures var records := Chunks(data);
            WriteBytes(s, key, x, data)
            == (Sender(Advance(x.tx, |records|), None, x.wire + SealAll(s, key, x.tx, records)), |data|)
  {
    WriteAllSeals(s, key, x, data);
    UnbrokenIsWhole(s, key, x.tx, Chunks(data));
    assert Chunks(data)[..|Chunks(data)|] == Chunks(data);
    ChunksCover(data);
  }

  /** Two writes in a row are one, unless the first one breaks the channel. */
  lemma FitBoth(room: Room, a: seq<byte>, b: seq<byte>)
    ensures if Takes(room, |a|) then
              && Fit(room, a + b) == a + Fit(Left(room, |a|), b)
              && Takes(room, |a + b|) == Takes(Left(room, |a|), |b|)
              && Left(room, |a + b|) == Left(Left(room, |a|), |b|)
            else Fit(room, a + b) == Fit(room, a) && !Takes(room, |a + b|) && Left(room, |a + b|) == Left(room, |a|)
  {
  }

  lemma ChunkStep(s: Suite, key: Bytes32, n: nat, data: seq<byte>)
    requires data != []
    ensures var m := Min(|data|, MAX_PLAINTEXT);
            && Chunks(data) == [data[..m]] + Chunks(data[m..])
            && SealAll(s, key, n, Chunks(data))
               == SealRecord(s, key, n, data[..m]) + SealAll(s, key, Inc64(n), Chunks(data[m..]))
            && Advance(n, |Chunks(data)|) == Advance(Inc64(n), |Chunks(data[m..])|)
  {
    var m := Min(|data|, MAX_PLAINTEXT);
    assert Chunks(data)[1..] == Chunks(data[m..]);
  }

  // ---------------------------------------------------------------- laws of the record layer

  /** Fewer than 2^64 records never reuse a nonce. */
  lemma NoncesDistinct(i: nat, j: nat)
    requires i < TWO_64 && j < TWO_64 && TransportNonce(i) == TransportNonce(j)
    ensures i == j
  {
    assert Pow256(8) == TWO_64 by {
      assert Pow256(4) == 0x1_0000_0000;
    }
    assert TransportNonce(i)[4..] == BigEndian(8, i) && TransportNonce(j)[4..] == BigEndian(8, j);
    BigEndianRoundTrip(8, i);
    BigEndianRoundTrip(8, j);
  }

  predicate Sendable(plain: seq<byte>) {
    0 < |plain| <= MAX_PLAINTEXT
  }

  /** Every record that write emits passes the receiver's bounds and opens to its plaintext. */
  lemma OpenUndoesSeal(s: Suite, key: Bytes32, n: nat, plain: seq<byte>, tail: seq<byte>)
    requires Lawful(s) && |plain| <= MAX_PLAINTEXT
    ensures OpenOne(s, key, n, SealRecord(s, key, n, plain) + tail) == One(true, plain, tail)
  {
    var cipher := s.seal(key, TransportNonce(n), [], plain);
    var wire := SealRecord(s, key, n, plain) + tail;
    assert FromBe16(wire[1], wire[2]) == |cipher|;
    assert wire[HEADER_LEN..HEADER_LEN + |cipher|] == cipher;
    assert wire[HEADER_LEN + |cipher|..] == tail;
  }

  lemma {:induction false} ChunksCover(data: seq<byte>)
    ensures Concat(Chunks(data)) == data
    ensures forall i :: 0 <= i < |Chunks(data)| ==> Sendable(Chunks(data)[i])
  {
    if data != [] {
      var m := Min(|data|, MAX_PLAINTEXT);
      ChunksCover(data[m..]);
      assert Chunks(data)[1..] == Chunks(data[m..]);
      assert data == data[..m] + data[m..];
    }
  }

  /** Every chunk but the last is as long as a record can carry, 4077 bytes. */
  lemma {:induction false} ChunksAreFull(data: seq<byte>, i: nat)
    requires i < |Chunks(data)|
    ensures i < |Chunks(data)| - 1 ==> |Chunks(data)[i]| == 4077
    ensures i == |Chunks(data)| - 1 ==> 1 <= |Chunks(data)[i]| <= 4077
    decreases |data|
  {
    var m := Min(|data|, MAX_PLAINTEXT);
    assert Chunks(data)[1..] == Chunks(data[m..]);
    if i > 0 {
      ChunksAreFull(data[m..], i - 1);
      assert Chunks(data)[i] == Chunks(data[m..])[i - 1];
    }
  }

  lemma {:induction false} ContentsOfSealed(s: Suite, key: Bytes32, n: nat, records: seq<seq<byte>>)
    requires Lawful(s) && forall i :: 0 <= i < |records| ==> Sendable(records[i])
    ensures Contents(s, key, n, SealAll(s, key, n, records)) == Concat(records)
    decreases |records|
  {
    if records != [] {
      OpenUndoesSeal(s, key, n, records[0], SealAll(s, key, Inc64(n), records[1..]));
      ContentsOfSealed(s, key, Inc64(n), records[1..]);
    }
  }

  lemma RecordHeader(s: Suite, key: Bytes32, n: nat, plain: seq<byte>)
    requires Lawful(s) && |plain| <= MAX_PLAINTEXT
    ensures var record := SealRecord(s, key, n, plain);
            |record| >= HEADER_LEN && FromBe16(record[1], record[2]) == |record| - HEADER_LEN
  {
    var cipher := s.seal(key, TransportNonce(n), [], plain);
    assert FromBe16(Be16(|cipher|)[0], Be16(|cipher|)[1]) == |cipher|;
  }

  /** A record that was cut off does not open. */
  lemma CutOffRecord(s: Suite, key: Bytes32, n: nat, record: seq<byte>, m: nat)
    requires |record| >= HEADER_LEN && FromBe16(record[1], record[2]) == |record| - HEADER_LEN && m < |record|
    ensures !OpenOne(s, key, n, record[..m]).ok
  {
  }

  lemma FirstContents(s: Suite, key: Bytes32, n: nat, plain: seq<byte>, tail: seq<byte>)
    requires Lawful(s) && |plain| <= MAX_PLAINTEXT
    ensures Contents(s, key, n, SealRecord(s, key, n, plain) + tail) == plain + Contents(s, key, Inc64(n), tail)
  {
    OpenUndoesSeal(s, key, n, plain, tail);
  }

  /** The first of the records on a channel gets through whole, or nothing does. */
  lemma BrokenFirst(s: Suite, key: Bytes32, n: nat, plain: seq<byte>, tail: seq<byte>, room: Room)
    requires Lawful(s) && |plain| <= MAX_PLAINTEXT
    ensures var record := SealRecord(s, key, n, plain);
            Contents(s, key, n, Fit(room, record + tail))
            == if Takes(room, |record|) then plain + Contents(s, key, Inc64(n), Fit(Left(room, |record|), tail)) else []
  {
    var record := SealRecord(s, key, n, plain);
    FitBoth(room, record, tail);
    if Takes(room, |record|) {
      FirstContents(s, key, n, plain, Fit(Left(room, |record|), tail));
    } else {
      RecordHeader(s, key, n, plain);
      CutOffRecord(s, key, n, record, room.value);
    }
  }

  /** Wherever the channel breaks, what the other side can get is exactly the records that got
      through whole. */
  lemma {:induction false} BrokenChannelKeepsWhole(s: Suite, key: Bytes32, n: nat, records: seq<seq<byte>>, room: Room)
    requires Lawful(s) && forall i :: 0 <= i < |records| ==> Sendable(records[i])
    ensures Contents(s, key, n, Fit(room, SealAll(s, key, n, records)))
            == Concat(records[..Whole(s, key, n, records, room)])
    decreases |records|
  {
    if records != [] {
      BrokenFirst(s, key, n, records[0], SealAll(s, key, Inc64(n), records[1..]), room);
      var size := |SealRecord(s, key, n, records[0])|;
      if Takes(room, size) {
        BrokenChannelKeepsWhole(s, key, Inc64(n), records[1..], Left(room, size));
        FirstOf(records, 1 + Whole(s, key, Inc64(n), records[1..], Left(room, size)));
      }
    }
  }

  /** Wherever the channel breaks, the other side can get exactly the bytes that write reports. */
  lemma ReportedBytesArrive(s: Suite, key: Bytes32, n: nat, buf: seq<byte>, room: Room)
    requires Lawful(s)
    ensures var (x, sent) := WriteBytes(s, key, Sender(n, room, []), buf);
            && -1 <= sent <= |buf|
            && Contents(s, key, n, x.wire) == if sent < 0 then [] else buf[..sent]
  {
    var records := Chunks(buf);
    ChunksCover(buf);
    BrokenChannelKeepsWhole(s, key, n, records, room);
    FrontConcat(records, Whole(s, key, n, records, room));
    FreshWrite(s, key, n, buf, room);
  }

  lemma FreshWrite(s: Suite, key: Bytes32, n: nat, buf: seq<byte>, room: Room)
    ensures var (x, sent) := WriteBytes(s, key, Sender(n, room, []), buf);
            var records := Chunks(buf);
            var front := Concat(records[..Whole(s, key, n, records, room)]);
            && x.wire == Fit(room, SealAll(s, key, n, records))
            && sent == if front == [] && buf != [] then -1 else |front|
  {
    WriteAllSeals(s, key, Sender(n, room, []), buf);
    var wire := Fit(room, SealAll(s, key, n, Chunks(buf)));
    assert [] + wire == wire;
  }

  lemma FrontConcat(records: seq<seq<byte>>, k: nat)
    requires k <= |records|
    ensures Concat(records[..k]) <= Concat(records)
  {
    ConcatAppend(records[..k], records[k..]);
    assert records[..k] + records[k..] == records;
  }

  lemma {:induction false} RecordsOfSealed(s: Suite, key: Bytes32, n: nat, records: seq<seq<byte>>)
    requires Lawful(s) && forall i :: 0 <= i < |records| ==> Sendable(records[i])
    ensures Records(s, key, n, SealAll(s, key, n, records)) == |records|
    decreases |records|
  {
    if records != [] {
      OpenUndoesSeal(s, key, n, records[0], SealAll(s, key, Inc64(n), records[1..]));
      RecordsOfSealed(s, key, Inc64(n), records[1..]);
    }
  }

  lemma {:induction false} SealAllAppend(s: Suite, key: Bytes32, n: nat, a: seq<seq<byte>>, b: seq<seq<byte>>)
    ensures SealAll(s, key, n, a + b) == SealAll(s, key, n, a) + SealAll(s, key, Advance(n, |a|), b)
    decreases |a|
  {
    if a == [] {
      assert a + b == b;
    } else {
      SealAllAppend(s, key, Inc64(n), a[1..], b);
      SealAllFirst(s, key, n, a, b, Inc64(n), SealAll(s, key, Advance(n, |a|), b));
    }
  }

  /** The step: the first record goes in front on both sides. */
  lemma SealAllFirst(s: Suite, key: Bytes32, n: nat, a: seq<seq<byte>>, b: seq<seq<byte>>, next: nat, tail: seq<byte>)
    requires a != [] && next == Inc64(n)
    requires SealAll(s, key, next, a[1..] + b) == SealAll(s, key, next, a[1..]) + tail
    ensures SealAll(s, key, n, a + b) == SealAll(s, key, n, a) + tail
  {
    assert (a + b)[1..] == a[1..] + b && (a + b)[0] == a[0];
    Assoc(SealRecord(s, key, n, a[0]), SealAll(s, key, next, a[1..]), tail);
  }

  lemma {:induction false} AdvanceAdds(n: nat, i: nat, j: nat)
    ensures Advance(n, i + j) == Advance(Advance(n, i), j)
    decreases i
  {
    if i > 0 {
      AdvanceAdds(Inc64(n), i - 1, j);
    }
  }

  lemma {:induction false} AdvanceCounts(n: nat, k: nat)
    requires n < TWO_64
    ensures Advance(n, k) == (n + k) % TWO_64
    decreases k
  {
    if k > 0 {
      AdvanceCounts(Inc64(n), k - 1);
    }
  }

  // ---------------------------------------------------------------- runs

  datatype Op = WriteOp(data: seq<byte>) | ReadOp(n: int)

  /** One direction of a connection. `written` and `delivered` are everything that went into write
      and came out of read; `sealed` counts the records made. */
  datatype Link = Link(written: seq<byte>, delivered: seq<byte>, tx: nat, r: Receiver, sealed: nat)

  const NEW_LINK := Link([], [], 0, Receiver([], 0, []), 0)

  function Step(s: Suite, key: Bytes32, l: Link, op: Op): Link {
    match op
    case WriteOp(data) =>
      var records := Chunks(data);
      l.(written := l.written + data,
         tx := Advance(l.tx, |records|),
         r := l.r.(wire := l.r.wire + SealAll(s, key, l.tx, records)),
         sealed := l.sealed + |records|)
    case ReadOp(n) =>
      var (r, data) := ReadBytes(s, key, l.r, n);
      l.(delivered := l.delivered + data, r := r)
  }

  function Run(s: Suite, key: Bytes32, ops: seq<Op>): Link {
    if ops == [] then NEW_LINK else Step(s, key, Run(s, key, ops[..|ops| - 1]), ops[|ops| - 1])
  }

  /** `flight` are the plaintexts of the records on the wire. */
  ghost predicate Carries(s: Suite, key: Bytes32, l: Link, flight: seq<seq<byte>>) {
    && (forall i :: 0 <= i < |flight| ==> Sendable(flight[i]))
    && l.r.wire == SealAll(s, key, l.r.rx, flight)
    && |flight| <= l.sealed
    && l.tx == Advance(0, l.sealed)
    && l.r.rx == Advance(0, l.sealed - |flight|)
    && l.delivered + l.r.plaintext + Concat(flight) == l.written
  }

  lemma WriteCarries(s: Suite, key: Bytes32, l: Link, flight: seq<seq<byte>>, data: seq<byte>)
    requires Lawful(s) && Carries(s, key, l, flight)
    ensures Carries(s, key, Step(s, key, l, WriteOp(data)), flight + Chunks(data))
  {
    var records := Chunks(data);
    var l' := Step(s, key, l, WriteOp(data));
    var all := flight + records;
    assert l'.r.wire == SealAll(s, key, l.r.rx, all) && l'.tx == Advance(0, l'.sealed) by {
      AdvanceAdds(0, l.sealed - |flight|, |flight|);
      AdvanceAdds(0, l.sealed, |records|);
      SealAllAppend(s, key, l.r.rx, flight, records);
    }
    assert l.delivered + l.r.plaintext + Concat(all) == l.written + data by {
      ChunksCover(data);
      ConcatAppend(flight, records);
      Assoc(l.delivered + l.r.plaintext, Concat(flight), data);
    }
    assert forall i :: 0 <= i < |all| ==> Sendable(all[i]) by {
      ChunksCover(data);
    }
  }

  /** Opening records never fails while any are on the wire, and moves bytes from `flight`. */
  lemma FillCarries(s: Suite, key: Bytes32, l: Link, flight: seq<seq<byte>>) returns (rest: seq<seq<byte>>)
    requires Lawful(s) && Carries(s, key, l, flight)
    ensures var (ok, r) := Fill(s, key, l.r);
            && Carries(s, key, l.(r := r), rest)
            && (ok <==> l.r.plaintext != [] || flight != [])
            && (ok ==> r.plaintext != [])
            && (!ok ==> r.plaintext == [])
  {
    if l.r.plaintext != [] || flight == [] {
      rest := flight;
    } else {
      rest := flight[1..];
      var wire := SealAll(s, key, Inc64(l.r.rx), rest);
      OpenUndoesSeal(s, key, l.r.rx, flight[0], wire);
      var r := Receiver([] + flight[0], Inc64(l.r.rx), wire);
      assert Fill(s, key, l.r) == Fill(s, key, r) == (true, r);
      AdvanceAdds(0, l.sealed - |flight|, 1);
      assert Advance(l.r.rx, 1) == Inc64(l.r.rx);
      assert l.delivered + ([] + flight[0]) + Concat(rest) == l.delivered + [] + (flight[0] + Concat(rest));
    }
  }

  lemma ReadCarries(s: Suite, key: Bytes32, l: Link, flight: seq<seq<byte>>, n: int) returns (rest: seq<seq<byte>>)
    requires Lawful(s) && Carries(s, key, l, flight)
    ensures Carries(s, key, Step(s, key, l, ReadOp(n)), rest)
    ensures n > 0 && l.delivered != l.written ==> |Step(s, key, l, ReadOp(n)).delivered| > |l.delivered|
  {
    if n <= 0 {
      rest := flight;
      assert l.delivered + [] == l.delivered;
    } else {
      rest := FillCarries(s, key, l, flight);
      var (ok, r) := Fill(s, key, l.r);
      if ok {
        var take := Min(n, |r.plaintext|);
        assert l.delivered + r.plaintext == l.delivered + r.plaintext[..take] + r.plaintext[take..];
      } else {
        assert l.delivered + [] == l.delivered;
        assert Concat(flight) == [];
      }
    }
  }

  lemma {:induction false} RunCarries(s: Suite, key: Bytes32, ops: seq<Op>) returns (flight: seq<seq<byte>>)
    requires Lawful(s)
    ensures Carries(s, key, Run(s, key, ops), flight)
  {
    if ops == [] {
      flight := [];
    } else {
      var before, op := ops[..|ops| - 1], ops[|ops| - 1];
      flight := RunCarries(s, key, before);
      match op {
        case WriteOp(data) =>
          WriteCarries(s, key, Run(s, key, before), flight, data);
          flight := flight + Chunks(data);
        case ReadOp(n) =>
          flight := ReadCarries(s, key, Run(s, key, before), flight, n);
      }
    }
  }

  /** For every interleaving of writes and reads: what was read, what is buffered and what the
      records in flight contain is exactly what was written, in order. */
  lemma StreamEquality(s: Suite, key: Bytes32, ops: seq<Op>)
    requires Lawful(s)
    ensures var l := Run(s, key, ops);
            l.delivered + l.r.plaintext + Contents(s, key, l.r.rx, l.r.wire) == l.written
  {
    var flight := RunCarries(s, key, ops);
    ContentsOfSealed(s, key, Run(s, key, ops).r.rx, flight);
  }

  /** The sender's counter is the number of records sealed and the receiver's the number opened,
      as 64-bit numbers. */
  lemma CountersAgree(s: Suite, key: Bytes32, ops: seq<Op>)
    requires Lawful(s)
    ensures var l := Run(s, key, ops);
            && Records(s, key, l.r.rx, l.r.wire) <= l.sealed
            && l.tx == l.sealed % TWO_64
            && l.r.rx == (l.sealed - Records(s, key, l.r.rx, l.r.wire)) % TWO_64
  {
    var flight := RunCarries(s, key, ops);
    CarriedCounters(s, key, Run(s, key, ops), flight);
  }

  lemma CarriedCounters(s: Suite, key: Bytes32, l: Link, flight: seq<seq<byte>>)
    requires Lawful(s) && Carries(s, key, l, flight)
    ensures Records(s, key, l.r.rx, l.r.wire) == |flight|
    ensures l.tx == l.sealed % TWO_64 && l.r.rx == (l.sealed - |flight|) % TWO_64
  {
    RecordsOfSealed(s, key, l.r.rx, flight);
    AdvanceCounts(0, l.sealed);
    AdvanceCounts(0, l.sealed - |flight|);
  }

  /** A read of positive size delivers something whenever something written is outstanding. */
  lemma ReadProgress(s: Suite, key: Bytes32, ops: seq<Op>, n: int)
    requires Lawful(s) && n > 0
    ensures var l := Run(s, key, ops);
            l.delivered != l.written ==> |Step(s, key, l, ReadOp(n)).delivered| > |l.delivered|
  {
    var flight := RunCarries(s, key, ops);
    var _ := ReadCarries(s, key, Run(s, key, ops), flight, n);
  }

  /** Everything the calls of write were given. */
  function Written(ops: seq<Op>): seq<byte> {
    if ops == [] then []
    else Written(ops[..|ops| - 1]) + (match ops[|ops| - 1] case WriteOp(data) => data case ReadOp(_) => [])
  }

  /** The number of reads of positive size after the last other call. */
  function TrailingReads(ops: seq<Op>): nat {
    if ops != [] && ops[|ops| - 1].ReadOp? && ops[|ops| - 1].n > 0 then 1 + TrailingReads(ops[..|ops| - 1]) else 0
  }

  /** Enough reads get everything: each delivers at least one byte until all that was written is
      delivered. */
  lemma {:induction false} ReadsDeliver(s: Suite, key: Bytes32, ops: seq<Op>)
    requires Lawful(s)
    ensures var l := Run(s, key, ops);
            && l.written == Written(ops) && l.delivered <= l.written
            && (l.delivered == l.written || |l.delivered| >= TrailingReads(ops))
  {
    StreamEquality(s, key, ops);
    if ops != [] {
      var before, last := ops[..|ops| - 1], ops[|ops| - 1];
      ReadsDeliver(s, key, before);
      if last.ReadOp? && last.n > 0 {
        ReadProgress(s, key, before, last.n);
        var l, l' := Run(s, key, before), Run(s, key, ops);
        assert l.delivered <= l'.delivered <= l'.written == l.written;
      }
    }
  }

  // ---------------------------------------------------------------- two connections

  /** What was said in one direction: the bytes sent, received, and opened but not read yet. */
  datatype Heard = Heard(sent: seq<byte>, received: seq<byte>, buffered: seq<byte>)

  /** The objects at the two ends of one direction are in the state of the link. */
  ghost predicate Ends(sender: NoiseConn, receiver: NoiseConn, l: Link, h: Heard)
    reads sender, receiver, sender.outgoing
  {
    && sender.outgoing == receiver.incoming && sender.txKey == receiver.rxKey && sender.s == receiver.s
    && sender.outgoing.room == None
    && sender.txNonce == l.tx && Receiver(receiver.plaintext, receiver.rxNonce, sender.outgoing.bytes) == l.r
    && h == Heard(l.written, l.delivered, l.r.plaintext)
  }

  /** One call in one direction. */
  method Carry(sender: NoiseConn, receiver: NoiseConn, op: Op, h: Heard, ghost l: Link) returns (h': Heard)
    requires Ends(sender, receiver, l, h)
    modifies sender`txNonce, sender.outgoing, receiver`rxNonce, receiver`plaintext
    ensures Ends(sender, receiver, Step(sender.s, sender.txKey, l, op), h')
    ensures op.WriteOp? ==> receiver.rxNonce == old(receiver.rxNonce) && receiver.plaintext == old(receiver.plaintext)
    ensures op.ReadOp? ==> sender.txNonce == old(sender.txNonce)
  {
    match op {
      case WriteOp(data) =>
        UnbrokenWrite(sender.s, sender.txKey, sender.Sending(), data);
        var _ := sender.Write(data);
        h' := h.(sent := h.sent + data);
      case ReadOp(n) =>
        var data := receiver.Read(n);
        h' := h.(received := h.received + data, buffered := receiver.plaintext);
    }
  }

  /** A call in the direction from the first connection to the second, or back. */
  datatype Call = Up(op: Op) | Down(op: Op)

  /** One call of either side: the other direction stays as it is. */
  method Turn(first: NoiseConn, second: NoiseConn, call: Call, up: Heard, down: Heard, ghost there: Link,
              ghost hither: Link)
    returns (up': Heard, down': Heard)
    requires first != second && first.outgoing != second.outgoing
    requires Ends(first, second, there, up) && Ends(second, first, hither, down)
    modifies first`txNonce, first`rxNonce, first`plaintext, first.outgoing
    modifies second`txNonce, second`rxNonce, second`plaintext, second.outgoing
    ensures Ends(first, second, if call.Up? then Step(first.s, first.txKey, there, call.op) else there, up')
    ensures Ends(second, first, if call.Down? then Step(second.s, second.txKey, hither, call.op) else hither, down')
  {
    up', down' := up, down;
    match call {
      case Up(op) => up' := Carry(first, second, op, up, there);
      case Down(op) => down' := Carry(second, first, op, down, hither);
    }
  }

  function Ups(calls: seq<Call>): seq<Op> {
    if calls == [] then [] else
    var last := calls[|calls| - 1];
    Ups(calls[..|calls| - 1]) + if last.Up? then [last.op] else []
  }

  function Downs(calls: seq<Call>): seq<Op> {
    if calls == [] then [] else
    var last := calls[|calls| - 1];
    Downs(calls[..|calls| - 1]) + if last.Down? then [last.op] else []
  }

  lemma RunMore(s: Suite, key: Bytes32, ops: seq<Op>, op: Op)
    ensures Run(s, key, ops + [op]) == Step(s, key, Run(s, key, ops), op)
  {
    assert (ops + [op])[..|ops|] == ops;
  }

  lemma OneMoreCall(s: Suite, upKey: Bytes32, downKey: Bytes32, calls: seq<Call>, i: nat)
    requires i < |calls|
    ensures var l, call := Run(s, upKey, Ups(calls[..i])), calls[i];
            Run(s, upKey, Ups(calls[..i + 1])) == if call.Up? then Step(s, upKey, l, call.op) else l
    ensures var l, call := Run(s, downKey, Downs(calls[..i])), calls[i];
            Run(s, downKey, Downs(calls[..i + 1])) == if call.Down? then Step(s, downKey, l, call.op) else l
  {
    assert calls[..i + 1][..i] == calls[..i];
    var ups, downs := Ups(calls[..i]), Downs(calls[..i]);
    if calls[i].Up? {
      RunMore(s, upKey, ups, calls[i].op);
      assert downs + [] == downs;
    } else {
      RunMore(s, downKey, downs, calls[i].op);
      assert ups + [] == ups;
    }
  }

  /** What a direction carried is what its own calls make of it. */
  ghost predicate Carried(s: Suite, key: Bytes32, ops: seq<Op>, h: Heard) {
    var l := Run(s, key, ops);
    h == Heard(l.written, l.delivered, l.r.plaintext)
  }

  /** One pair of connections whose keys cross over carries out any interleaving of calls of both
      sides: each direction goes through exactly the states of the run of its own calls, so the laws
      above are laws of the class. */
  method Exchange(s: Suite, firstTx: Bytes32, firstRx: Bytes32, secondTx: Bytes32, secondRx: Bytes32, calls: seq<Call>)
    returns (up: Heard, down: Heard)
    requires firstTx == secondRx && secondTx == firstRx
    ensures Carried(s, firstTx, Ups(calls), up) && Carried(s, secondTx, Downs(calls), down)
  {
    var forth := new Channel(None);
    var back := new Channel(None);
    var first := new NoiseConn(s, forth, back, firstTx, firstRx);
    var second := new NoiseConn(s, back, forth, secondTx, secondRx);
    up, down := Heard([], [], []), Heard([], [], []);
    ghost var there, hither := NEW_LINK, NEW_LINK;
    for i := 0 to |calls|
      invariant there == Run(s, firstTx, Ups(calls[..i])) && Ends(first, second, there, up)
      invariant hither == Run(s, secondTx, Downs(calls[..i])) && Ends(second, first, hither, down)
    {
      up, down := Turn(first, second, calls[i], up, down, there, hither);
      OneMoreCall(s, firstTx, secondTx, calls, i);
      there, hither := Run(s, firstTx, Ups(calls[..i + 1])), Run(s, secondTx, Downs(calls[..i + 1]));
    }
    assert calls[..|calls|] == calls;
  }
}
