/** Map frames (encode_map_frame in src/netmap.cpp) and the per-stream output buffer they go
    through (src/http2_session.cpp).

    The payload of a frame is the compressed JSON text, which is opaque here. */
module MapFrame {
  import opened Bytes

  method EncodeMapFrame(payload: seq<byte>) returns (framed: array<byte>)
    ensures fresh(framed) && framed[..] == Frame(payload)
  {
    framed := new byte[4 + |payload|](_ => 0);
    var len := |payload| % TWO_32;
    framed[0] := len % 256;
    framed[1] := len / 256 % 256;
    framed[2] := len / 0x1_0000 % 256;
    framed[3] := len / 0x100_0000 % 256;
    forall i | 0 <= i < |payload| {
      framed[4 + i] := payload[i];
    }
    assert framed[..4] == Le32(len);
    assert framed[4..] == payload;
    assert framed[..] == framed[..4] + framed[4..];
  }

  /** The length is cast to std::uint32_t. */
  function Frame(payload: seq<byte>): (f: seq<byte>)
    ensures |f| == 4 + |payload|
  {
    Le32(|payload| % TWO_32) + payload
  }

  /** A frame on the wire: the length, least significant octet first, and the payload. */
  lemma FrameLayout(payload: seq<byte>)
    ensures var n := |payload| % TWO_32;
            Frame(payload) == [n % 256, n / 256 % 256, n / 0x1_0000 % 256, n / 0x100_0000 % 256] + payload
  {
  }

  function Frames(payloads: seq<seq<byte>>): seq<byte> {
    if payloads == [] then [] else Frame(payloads[0]) + Frames(payloads[1..])
  }

  predicate HasFrame(bytes: seq<byte>) {
    |bytes| >= 4 && |bytes| >= 4 + FrameLength(bytes)
  }

  function FrameLength(bytes: seq<byte>): nat
    requires |bytes| >= 4
  {
    FromBe32(bytes[3], bytes[2], bytes[1], bytes[0])
  }

  /** A client's view of the stream: the complete frames that have arrived so far. */
  function Decode(bytes: seq<byte>): seq<seq<byte>> {
    if !HasFrame(bytes) then [] else
      var n := FrameLength(bytes);
      [bytes[4..4 + n]] + Decode(bytes[4 + n..])
  }

  /** What is left after the complete frames. */
  function Remainder(bytes: seq<byte>): seq<byte> {
    if !HasFrame(bytes) then bytes else Remainder(bytes[4 + FrameLength(bytes)..])
  }

  lemma Le32RoundTrip(v: nat)
    requires v < TWO_32
    ensures FromBe32(Le32(v)[3], Le32(v)[2], Le32(v)[1], Le32(v)[0]) == v
  {
    var a := v / 256;
    var b := a / 256;
    var c := b / 256;
    assert v / 0x1_0000 == b && v / 0x100_0000 == c;
  }

  lemma FirstFrame(payload: seq<byte>, tail: seq<byte>)
    requires |payload| < TWO_32
    ensures var bytes := Frame(payload) + tail;
            && HasFrame(bytes) && FrameLength(bytes) == |payload|
            && bytes[4..4 + |payload|] == payload && bytes[4 + |payload|..] == tail
  {
    ShortLength(|payload|);
    Le32RoundTrip(|payload| % TWO_32);
    FrameHead(Le32(|payload| % TWO_32), payload, tail);
  }

  lemma ShortLength(n: nat)
    requires n < TWO_32
    ensures n % TWO_32 == n
  {
  }

  lemma FrameHead(head: seq<byte>, payload: seq<byte>, tail: seq<byte>)
    requires |head| == 4 && FromBe32(head[3], head[2], head[1], head[0]) == |payload|
    ensures var bytes := (head + payload) + tail;
            && HasFrame(bytes) && FrameLength(bytes) == |payload|
            && bytes[4..4 + |payload|] == payload && bytes[4 + |payload|..] == tail
  {
    var bytes := (head + payload) + tail;
    assert bytes[0] == head[0] && bytes[1] == head[1] && bytes[2] == head[2] && bytes[3] == head[3];
  }

  /** A frame is read back if and only if its payload is shorter than 2^32 bytes: beyond that the
      length prefix has lost its high bits. */
  lemma FrameSurvivesIffShort(payload: seq<byte>)
    ensures Decode(Frame(payload)) == [payload] <==> |payload| < TWO_32
  {
    var f := Frame(payload);
    if |payload| < TWO_32 {
      FirstFrame(payload, []);
      assert f + [] == f && f[4 + |payload|..] == [];
    } else {
      Le32RoundTrip(|payload| % TWO_32);
      assert FrameLength(f) < |payload|;
      assert |Decode(f)[0]| < |payload|;
    }
  }

  /** Decoding what has arrived of a stream of frames gives the first payloads, in order, and
      nothing else; once everything has arrived it gives all of them. */
  lemma {:induction false} DecodePrefix(payloads: seq<seq<byte>>, arrived: seq<byte>)
    requires forall i :: 0 <= i < |payloads| ==> |payloads[i]| < TWO_32
    requires arrived <= Frames(payloads)
    ensures Decode(arrived) <= payloads
    ensures arrived == Frames(payloads) ==> Decode(arrived) == payloads && Remainder(arrived) == []
  {
    if payloads != [] {
      var p, rest := payloads[0], payloads[1..];
      var all := Frames(payloads);
      FirstFrame(p, Frames(rest));
      if |arrived| >= 4 + |p| {
        assert arrived[..4] == all[..4];
        assert arrived[4..4 + |p|] == all[4..4 + |p|];
        assert arrived[4 + |p|..] <= Frames(rest);
        DecodePrefix(rest, arrived[4 + |p|..]);
        assert Decode(arrived) == [p] + Decode(arrived[4 + |p|..]);
        assert payloads == [p] + rest;
      } else if |arrived| >= 4 {
        assert arrived[..4] == all[..4];
        assert !HasFrame(arrived);
      }
    }
  }

  lemma {:induction false} FramesAppend(payloads: seq<seq<byte>>, p: seq<byte>)
    ensures Frames(payloads + [p]) == Frames(payloads) + Frame(p)
  {
    if payloads == [] {
      assert payloads + [p] == [p] && [p][1..] == [];
    } else {
      FramesAppend(payloads[1..], p);
      assert (payloads + [p])[1..] == payloads[1..] + [p];
    }
  }
}

module MapStream {
  import opened Bytes
  import opened MapFrame

  /** One call of data_read: bytes, or NGHTTP2_ERR_DEFERRED, and the EOF flag. */
  datatype ReadResult = Data(bytes: seq<byte>, eof: bool) | Deferred

  /** A stream as a queue of bytes. The class keeps an offset into what was handed out already, and
      drops it when it has caught up. */
  datatype Queue = Queue(pending: seq<byte>, streaming: bool, ended: bool)

  /** Reading takes from the front. When nothing is left, an open stream defers and any other is
      over; EOF comes with the last bytes of a stream that is not open. */
  function Pull(q: Queue, length: nat): (Queue, ReadResult) {
    var open := q.streaming && !q.ended;
    if q.pending == [] then (q, if open then Deferred else Data([], true))
    else
      var n := Min(length, |q.pending|);
      (q.(pending := q.pending[n..]), Data(q.pending[..n], n == |q.pending| && !open))
  }

  class Stream {
    var out: seq<byte>
    var outOff: nat
    var streaming: bool
    var ended: bool

    ghost predicate Valid()
      reads this
    {
      outOff <= |out|
    }

    ghost function View(): Queue
      requires Valid()
      reads this
    {
      Queue(out[outOff..], streaming, ended)
    }

    constructor ()
      ensures Valid() && View() == Queue([], false, false)
    {
      out, outOff, streaming, ended := [], 0, false, false;
    }

    /** The whole body is pending and nothing follows. */
    method Reply(body: seq<byte>)
      modifies this
      ensures Valid() && View() == Queue(body, false, true)
    {
      out, outOff := body, 0;
      ended, streaming := true, false;
    }

    /** The first frame is pending and more may follow. */
    method ReplyStreamStart(first: seq<byte>)
      modifies this
      ensures Valid() && View() == Queue(first, true, false)
    {
      out, outOff := first, 0;
      streaming, ended := true, false;
    }

    /** The data is pending after what was, whatever has been handed out already. */
    method PushData(data: seq<byte>)
      requires Valid()
      modifies this`out
      ensures Valid() && View() == old(View()).(pending := old(View()).pending + data)
    {
      out := out + data;
      assert out[outOff..] == old(out)[outOff..] + data;
    }

    /** What is pending stays pending, and nothing follows it. */
    method EndStream()
      requires Valid()
      modifies this`ended, this`streaming
      ensures Valid() && View() == Queue(old(View()).pending, false, true)
    {
      ended, streaming := true, false;
    }

    method DataRead(length: nat) returns (r: ReadResult)
      requires Valid()
      modifies this`out, this`outOff
      ensures Valid() && (View(), r) == Pull(old(View()), length)
    {
      if outOff >= |out| {
        if ended && !streaming {
          return Data([], true);
        }
        if streaming && !ended {
          return Deferred;
        }
        return Data([], true);
      }
      var n := Min(length, |out| - outOff);
      var bytes := out[outOff..outOff + n];
      ghost var pending := out[outOff..];
      assert bytes == pending[..n] && out[outOff + n..] == pending[n..];
      outOff := outOff + n;
      var eof := false;
      if outOff >= |out| {
        out, outOff := [], 0;
        eof := !streaming || ended;
      }
      r := Data(bytes, eof);
    }
  }

  // ---------------------------------------------------------------- runs

  datatype Op = PushFrame(payload: seq<byte>) | EndOp | PullOp(length: nat)

  /** A streaming reply with its history: what was pushed and what was handed to the session. */
  datatype Session = Session(q: Queue, pushed: seq<seq<byte>>, delivered: seq<byte>, endCalled: bool, last: ReadResult)

  function Begin(first: seq<byte>): Session {
    Session(Queue(Frame(first), true, false), [first], [], false, Deferred)
  }

  function Step(x: Session, op: Op): Session {
    match op
    case PushFrame(p) => x.(q := x.q.(pending := x.q.pending + Frame(p)), pushed := x.pushed + [p])
    case EndOp => x.(q := Queue(x.q.pending, false, true), endCalled := true)
    case PullOp(length) =>
      var (q, r) := Pull(x.q, length);
      x.(q := q, last := r, delivered := x.delivered + Taken(r))
  }

  function Run(first: seq<byte>, ops: seq<Op>): Session {
    if ops == [] then Begin(first) else Step(Run(first, ops[..|ops| - 1]), ops[|ops| - 1])
  }

  ghost predicate Conserved(x: Session) {
    && x.q.streaming == !x.q.ended && x.q.ended == x.endCalled
    && x.delivered + x.q.pending == Frames(x.pushed)
  }

  function Taken(r: ReadResult): seq<byte> {
    if r.Data? then r.bytes else []
  }

  lemma PullConserves(x: Session, length: nat)
    requires Conserved(x)
    ensures var x' := Step(x, PullOp(length));
            && Conserved(x')
            && (x'.last.Data? && x'.last.eof <==> x'.endCalled && x'.q.pending == [])
            && (x'.last == Deferred <==> !x'.endCalled && x.q.pending == [])
            && (length > 0 && x.q.pending != [] ==> |x'.delivered| > |x.delivered|)
  {
    var (q, r) := Pull(x.q, length);
    assert Taken(r) + q.pending == x.q.pending;
    assert x.delivered + (Taken(r) + q.pending) == x.delivered + Taken(r) + q.pending;
  }

  lemma PushConserves(x: Session, p: seq<byte>)
    requires Conserved(x)
    ensures Conserved(Step(x, PushFrame(p)))
  {
    FramesAppend(x.pushed, p);
    assert x.delivered + (x.q.pending + Frame(p)) == x.delivered + x.q.pending + Frame(p);
  }

  lemma {:induction false} RunConserves(first: seq<byte>, ops: seq<Op>)
    ensures Conserved(Run(first, ops))
  {
    if ops == [] {
      assert [first][1..] == [];
      assert [] + Frame(first) == Frame(first) + [];
    } else {
      RunConserves(first, ops[..|ops| - 1]);
      var x := Run(first, ops[..|ops| - 1]);
      match ops[|ops| - 1] {
        case PushFrame(p) => PushConserves(x, p);
        case EndOp =>
        case PullOp(length) => PullConserves(x, length);
      }
    }
  }

  /** Map stream delivery: for every interleaving of pushes, reads of any size and an end, what was
      delivered and what is pending are the frames pushed, in order, and the client decodes a
      prefix of the payloads, all of them once nothing is pending. */
  lemma Delivery(first: seq<byte>, ops: seq<Op>)
    requires forall i :: 0 <= i < |Run(first, ops).pushed| ==> |Run(first, ops).pushed[i]| < TWO_32
    ensures var x := Run(first, ops);
            && x.delivered + x.q.pending == Frames(x.pushed)
            && Decode(x.delivered) <= x.pushed
            && (x.q.pending == [] ==> Decode(x.delivered) == x.pushed && Remainder(x.delivered) == [])
  {
    var x := Run(first, ops);
    RunConserves(first, ops);
    assert x.delivered <= x.delivered + x.q.pending;
    DecodePrefix(x.pushed, x.delivered);
  }

  /** A read signals EOF if and only if end_stream was called and every frame has now been
      delivered; it is deferred if and only if everything pushed was delivered and more may come. */
  lemma EofExactlyAtTheEnd(first: seq<byte>, ops: seq<Op>, length: nat)
    ensures var before := Run(first, ops);
            var x := Step(before, PullOp(length));
            && (x.last.Data? && x.last.eof <==> x.endCalled && x.delivered == Frames(x.pushed))
            && (x.last == Deferred <==> !x.endCalled && before.delivered == Frames(before.pushed))
  {
    RunConserves(first, ops);
    PullConserves(Run(first, ops), length);
    var before := Run(first, ops);
    var x := Step(before, PullOp(length));
    AllDelivered(before.delivered, before.q.pending, Frames(before.pushed));
    AllDelivered(x.delivered, x.q.pending, Frames(x.pushed));
  }

  lemma AllDelivered(delivered: seq<byte>, pending: seq<byte>, all: seq<byte>)
    requires delivered + pending == all
    ensures pending == [] <==> delivered == all
  {
    assert |delivered| + |pending| == |all|;
  }

  /** A Stream object goes through exactly the states of a run, so the laws above are laws of the
      class. */
  method Serve(first: seq<byte>, ops: seq<Op>) returns (delivered: seq<byte>, last: ReadResult)
    ensures delivered == Run(first, ops).delivered && last == Run(first, ops).last
    ensures delivered <= Frames(Run(first, ops).pushed)
  {
    var s := new Stream();
    var frame := EncodeMapFrame(first);
    s.ReplyStreamStart(frame[..]);
    delivered, last := [], Deferred;
    for i := 0 to |ops|
      invariant s.Valid() && s.View() == Run(first, ops[..i]).q
      invariant delivered == Run(first, ops[..i]).delivered && last == Run(first, ops[..i]).last
    {
      assert ops[..i + 1][..i] == ops[..i];
      match ops[i] {
        case PushFrame(p) =>
          frame := EncodeMapFrame(p);
          s.PushData(frame[..]);
        case EndOp => s.EndStream();
        case PullOp(length) =>
          last := s.DataRead(length);
          delivered := delivered + Taken(last);
      }
    }
    assert ops[..|ops|] == ops;
    RunConserves(first, ops);
  }
}
