/** The IK handshake written out: messages, transcript hash and transport keys as one straight
    computation over the primitives, and what binds the two sides to one protocol version. */
module Transcript {
  import opened Bytes
  import opened Crypto
  import F = NoiseFramework
  import Noise

  // ---------------------------------------------------------------- the prologue

  /** Octets as characters. */
  function Text(b: seq<byte>): string {
    seq(|b|, i requires 0 <= i < |b| => b[i] as char)
  }

  predicate OneOctet(t: string) {
    forall i :: 0 <= i < |t| ==> t[i] as int < 256
  }

  lemma AsciiReadsBack(t: string)
    requires OneOctet(t)
    ensures Text(Noise.Ascii(t)) == t
  {
  }

  lemma AsciiSplits(a: string, b: string)
    ensures Noise.Ascii(a + b)[..|a|] == Noise.Ascii(a) && Noise.Ascii(a + b)[|a|..] == Noise.Ascii(b)
  {
  }

  /** The prologue is these 28 octets and the version in decimal. */
  lemma PrologueReadsBack(version: nat)
    ensures var p := Noise.Prologue(version);
            && |p| > 28 && Text(p[..28]) == "Tailscale Control Protocol v"
            && Text(p[28..]) == Decimal(version)
  {
    var prefix := "Tailscale Control Protocol v";
    DecimalReadsBack(version);
    PrefixIsAscii();
    AsciiSplits(prefix, Decimal(version));
    AsciiReadsBack(prefix);
    AsciiReadsBack(Decimal(version));
  }

  lemma PrefixIsAscii()
    ensures OneOctet("Tailscale Control Protocol v") && |"Tailscale Control Protocol v"| == 28
  {
  }

  lemma PrologueInjective(v: nat, w: nat)
    requires Noise.Prologue(v) == Noise.Prologue(w)
    ensures v == w
  {
    PrologueReadsBack(v);
    PrologueReadsBack(w);
    DecimalInjective(v, w);
  }

  // ---------------------------------------------------------------- the messages

  /** The two halves of 64 octets of HKDF: the next chaining key, and a key. */
  function Chain(s: Suite, ck: Bytes32, secret: seq<byte>): Bytes32 {
    Hkdf(s, secret, ck, 64)[..32]
  }

  function Key(s: Suite, ck: Bytes32, secret: seq<byte>): Bytes32 {
    Hkdf(s, secret, ck, 64)[32..]
  }

  /** What both sides have at some point: the transcript hash and the chaining key. */
  datatype State = State(h: Bytes32, ck: Bytes32)

  /** The hash once the ephemeral key is mixed in: protocol name, prologue, responder's static key,
      ephemeral key. */
  function HashThroughE(s: Suite, version: nat, controlPublic: Bytes32, ephPublic: Bytes32): Bytes32 {
    var h := s.hash(Noise.Ascii("Noise_IK_25519_ChaChaPoly_BLAKE2s"));
    s.hash(s.hash(s.hash(h + Noise.Prologue(version)) + controlPublic) + ephPublic)
  }

  function FirstKey(s: Suite, es: Bytes32): Bytes32 {
    Key(s, s.hash(Noise.Ascii("Noise_IK_25519_ChaChaPoly_BLAKE2s")), es)
  }

  /** -> e, es, s, ss */
  function First(s: Suite, version: nat, machine: Bytes32, controlPublic: Bytes32, eph: Bytes32, es: Bytes32,
                 ss: Bytes32): (State, seq<byte>)
  {
    var h := HashThroughE(s, version, controlPublic, s.pub(eph));
    var ck := Chain(s, s.hash(Noise.Ascii("Noise_IK_25519_ChaChaPoly_BLAKE2s")), es);
    var sealed := s.seal(FirstKey(s, es), Zeros(12), h, s.pub(machine));
    var h' := s.hash(h + sealed);
    var tag := s.seal(Key(s, ck, ss), Zeros(12), h', []);
    (State(s.hash(h' + tag), Chain(s, ck, ss)), s.pub(eph) + sealed + tag)
  }

  /** <- e, ee, se */
  function Second(s: Suite, x: State, eph: Bytes32, ee: Bytes32, se: Bytes32): (State, seq<byte>) {
    var h := s.hash(x.h + s.pub(eph));
    var ck := Chain(s, x.ck, ee);
    var tag := s.seal(Key(s, ck, se), Zeros(12), h, []);
    (State(s.hash(h + tag), Chain(s, ck, se)), s.pub(eph) + tag)
  }

  // ---------------------------------------------------------------- the framework computes them

  lemma MixKeyIs(s: Suite, y: F.SymmetricState, secret: Bytes32)
    ensures F.MixKey(s, y, secret)
            == F.SymmetricState(F.CipherState(Some(Key(s, y.ck, secret)), 0), Chain(s, y.ck, secret), y.h)
  {
    Noise.Hkdf64(s, y.ck, secret);
  }

  lemma SplitIs(s: Suite, y: F.SymmetricState)
    ensures F.Split(s, y) == (Chain(s, y.ck, []), Key(s, y.ck, []))
  {
    Noise.Hkdf64(s, y.ck, []);
  }

  lemma EncryptIs(s: Suite, ck: Bytes32, k: Bytes32, h: Bytes32, plain: seq<byte>)
    ensures var cipher := s.seal(k, Zeros(12), h, plain);
            F.EncryptAndHash(s, F.SymmetricState(F.CipherState(Some(k), 0), ck, h), plain)
            == (F.SymmetricState(F.CipherState(Some(k), 1), ck, s.hash(h + cipher)), cipher)
  {
    Noise.ZeroNonce();
  }

  lemma NameIsLong()
    ensures |Noise.Ascii(Noise.PROTOCOL_NAME)| == 33 && Noise.PROTOCOL_NAME == "Noise_IK_25519_ChaChaPoly_BLAKE2s"
  {
  }

  lemma StartIs(s: Suite, version: nat, controlPublic: Bytes32, ephPublic: Bytes32)
    ensures var y := F.MixHash(s, Noise.Start(s, version, controlPublic), ephPublic);
            && y.h == HashThroughE(s, version, controlPublic, ephPublic) && y.cs == F.CipherState(None, 0)
            && y.ck == s.hash(Noise.Ascii("Noise_IK_25519_ChaChaPoly_BLAKE2s"))
  {
    NameIsLong();
  }

  lemma FirstIs(s: Suite, version: nat, machine: Bytes32, controlPublic: Bytes32, eph: Bytes32)
    requires s.dh(eph, controlPublic).Some? && s.dh(machine, controlPublic).Some?
    ensures var c := Noise.Client(s, version, machine, controlPublic);
            var write := F.WriteMessage(s, c, Noise.IK_FIRST, eph, []);
            var (x, body) := First(s, version, machine, controlPublic, eph, s.dh(eph, controlPublic).value,
                                   s.dh(machine, controlPublic).value);
            write.Some? && write.value.1 == body && write.value.0.sym.h == x.h && write.value.0.sym.ck == x.ck
  {
    var c := Noise.Client(s, version, machine, controlPublic);
    var es, ss := s.dh(eph, controlPublic).value, s.dh(machine, controlPublic).value;
    Noise.WriteFirst(s, c, eph);
    StartIs(s, version, controlPublic, s.pub(eph));
    var y := F.MixHash(s, c.sym, s.pub(eph));
    MixKeyIs(s, y, es);
    EncryptIs(s, Chain(s, y.ck, es), Key(s, y.ck, es), y.h, s.pub(machine));
    var y' := F.EncryptAndHash(s, F.MixKey(s, y, es), s.pub(machine)).0;
    MixKeyIs(s, y', ss);
    EncryptIs(s, Chain(s, y'.ck, ss), Key(s, y'.ck, ss), y'.h, []);
  }

  lemma SecondIs(s: Suite, p: F.Party, eph: Bytes32)
    requires !p.initiator && p.rs.Some? && p.re.Some?
    requires s.dh(eph, p.re.value).Some? && s.dh(eph, p.rs.value).Some?
    ensures var write := F.WriteMessage(s, p, Noise.IK_SECOND, eph, []);
            var (x, body) := Second(s, State(p.sym.h, p.sym.ck), eph, s.dh(eph, p.re.value).value,
                                    s.dh(eph, p.rs.value).value);
            write.Some? && write.value.1 == body && write.value.0.sym.h == x.h && write.value.0.sym.ck == x.ck
  {
    var ee, se := s.dh(eph, p.re.value).value, s.dh(eph, p.rs.value).value;
    Noise.WriteSecond(s, p, eph);
    var y := F.MixHash(s, p.sym, s.pub(eph));
    MixKeyIs(s, y, ee);
    var y' := F.MixKey(s, y, ee);
    MixKeyIs(s, y', se);
    EncryptIs(s, Chain(s, y'.ck, se), Key(s, y'.ck, se), y'.h, []);
  }

  // ---------------------------------------------------------------- the handshake

  /** The whole of IK for these keys: both messages, and what both sides have in the end. */
  datatype Ik = Ik(initiation: seq<byte>, response: seq<byte>, hash: Bytes32, toServer: Bytes32, toClient: Bytes32)

  function WrittenOut(s: Suite, version: nat, machine: Bytes32, control: Bytes32, machineEph: Bytes32,
                      controlEph: Bytes32): Ik
    requires Noise.AllDhSucceed(s, machine, control, machineEph, controlEph)
  {
    var (x, first) := First(s, version, machine, s.pub(control), machineEph, s.dh(machineEph, s.pub(control)).value,
                            s.dh(machine, s.pub(control)).value);
    var (y, second) := Second(s, x, controlEph, s.dh(controlEph, s.pub(machineEph)).value,
                              s.dh(controlEph, s.pub(machine)).value);
    Ik([version / 256 % 256, version % 256, 1, 0, 96] + first, [2, 0, 48] + second, y.h, Chain(s, y.ck, []),
       Key(s, y.ck, []))
  }

  /** The responder after the first message, which is in the state that the initiator is in. */
  lemma ResponderIs(s: Suite, version: nat, machine: Bytes32, control: Bytes32, machineEph: Bytes32,
                    controlEph: Bytes32)
    returns (p: F.Party)
    requires Lawful(s) && Noise.AllDhSucceed(s, machine, control, machineEph, controlEph)
    ensures var (x, body) := First(s, version, machine, s.pub(control), machineEph,
                                   s.dh(machineEph, s.pub(control)).value, s.dh(machine, s.pub(control)).value);
            && p.sym.h == x.h && p.sym.ck == x.ck
            && F.ReadMessage(s, Noise.Server(s, version, control), Noise.IK_FIRST, body) == Some((p, []))
    ensures !p.initiator && p.rs == Some(s.pub(machine)) && p.re == Some(s.pub(machineEph))
    ensures var write := F.WriteMessage(s, p, Noise.IK_SECOND, controlEph, []);
            Noise.Completed(s, version, machine, control, machineEph, controlEph)
            == if write.Some? then Some(write.value.0) else None
  {
    Noise.IkAgreement(s, version, machine, control, machineEph, controlEph);
    FirstIs(s, version, machine, s.pub(control), machineEph);
    var first := F.WriteMessage(s, Noise.Client(s, version, machine, s.pub(control)), Noise.IK_FIRST, machineEph, []);
    p := F.ReadMessage(s, Noise.Server(s, version, control), Noise.IK_FIRST, first.value.1).value.0;
    InitiatorStays(s, Noise.Client(s, version, machine, s.pub(control)), machineEph);
  }

  lemma InitiatorStays(s: Suite, c: F.Party, eph: Bytes32)
    requires c.initiator && c.s.Some? && c.rs.Some? && F.WriteMessage(s, c, Noise.IK_FIRST, eph, []).Some?
    ensures F.WriteMessage(s, c, Noise.IK_FIRST, eph, []).value.0.initiator
  {
    Noise.WriteFirst(s, c, eph);
  }

  lemma CompletedIs(s: Suite, version: nat, machine: Bytes32, control: Bytes32, machineEph: Bytes32,
                    controlEph: Bytes32)
    requires Lawful(s) && Noise.AllDhSucceed(s, machine, control, machineEph, controlEph)
    ensures var done := Noise.Completed(s, version, machine, control, machineEph, controlEph);
            var ik := WrittenOut(s, version, machine, control, machineEph, controlEph);
            && done.Some? && done.value.sym.h == ik.hash
            && F.Split(s, done.value.sym) == (ik.toServer, ik.toClient)
  {
    var p := ResponderIs(s, version, machine, control, machineEph, controlEph);
    SecondIs(s, p, controlEph);
    var done := Noise.Completed(s, version, machine, control, machineEph, controlEph);
    SplitIs(s, done.value.sym);
  }

  /** The handshake, written out: what the client ends with is the transcript hash and the keys of
      the straight computation, and the server has the same, crossed over. */
  method Handshake(s: Suite, machine: Bytes32, control: Bytes32, version: nat, machineEph: Bytes32, controlEph: Bytes32)
    returns (r: Option<(Noise.NoiseResult, Noise.NoiseResult)>)
    requires Lawful(s) && version < 0x1_0000
    ensures r.Some? <==> Noise.AllDhSucceed(s, machine, control, machineEph, controlEph)
    ensures r.Some? ==>
              var ik := WrittenOut(s, version, machine, control, machineEph, controlEph);
              var (client, server) := r.value;
              && client.hash == server.hash == ik.hash
              && client.tx == server.rx == ik.toServer && client.rx == server.tx == ik.toClient
              && server.peer == s.pub(machine) && server.version == version
  {
    r := Noise.Connect(s, machine, control, version, machineEph, controlEph);
    if r.Some? {
      CompletedIs(s, version, machine, control, machineEph, controlEph);
    }
  }

  lemma HeadersAre(version: nat)
    requires version < 0x1_0000
    ensures Noise.InitiationHeader(version) == [version / 256 % 256, version % 256, 1, 0, 96]
    ensures Noise.ResponseHeader() == [2, 0, 48]
  {
  }

  /** What counts as an initiation and as a response, octet by octet. */
  lemma Framing(m: seq<byte>)
    ensures Noise.WellFramed(m) <==> |m| == 101 && m[2] == 1 && m[3] == 0 && m[4] == 96
    ensures Noise.WellFramedResponse(m) <==> |m| == 51 && m[0] == 2 && m[1] == 0 && m[2] == 48
  {
  }

  lemma FirstLength(s: Suite, version: nat, machine: Bytes32, controlPublic: Bytes32, eph: Bytes32)
    requires Lawful(s) && s.dh(eph, controlPublic).Some? && s.dh(machine, controlPublic).Some?
    ensures |First(s, version, machine, controlPublic, eph, s.dh(eph, controlPublic).value,
                   s.dh(machine, controlPublic).value).1| == 96
  {
  }

  lemma RespondIs(s: Suite, version: nat, control: Bytes32, eph: Bytes32, body: seq<byte>, p: F.Party)
    requires version < 0x1_0000 && |body| == 96
    requires F.ReadMessage(s, Noise.Server(s, version, control), Noise.IK_FIRST, body) == Some((p, []))
    ensures var init := Noise.InitiationHeader(version) + body;
            && Noise.WellFramed(init)
            && Noise.Respond(s, control, init, eph) == F.WriteMessage(s, p, Noise.IK_SECOND, eph, [])
  {
    Noise.FramedInitiation(version, body);
  }

  /** The two messages on the wire: what noise_client_init sends, and what the server answers. */
  lemma MessagesAre(s: Suite, version: nat, machine: Bytes32, control: Bytes32, machineEph: Bytes32,
                    controlEph: Bytes32)
    requires Lawful(s) && Noise.AllDhSucceed(s, machine, control, machineEph, controlEph) && version < 0x1_0000
    ensures var ik := WrittenOut(s, version, machine, control, machineEph, controlEph);
            var c := Noise.Client(s, version, machine, s.pub(control));
            var write := F.WriteMessage(s, c, Noise.IK_FIRST, machineEph, []);
            && write.Some? && Noise.InitiationHeader(version) + write.value.1 == ik.initiation
            && Noise.WellFramed(ik.initiation)
            && var respond := Noise.Respond(s, control, ik.initiation, controlEph);
               respond.Some? && Noise.ResponseHeader() + respond.value.1 == ik.response
  {
    var body := First(s, version, machine, s.pub(control), machineEph, s.dh(machineEph, s.pub(control)).value,
                      s.dh(machine, s.pub(control)).value).1;
    HeadersAre(version);
    FirstIs(s, version, machine, s.pub(control), machineEph);
    FirstLength(s, version, machine, s.pub(control), machineEph);
    var p := ResponderIs(s, version, machine, control, machineEph, controlEph);
    RespondIs(s, version, control, controlEph, body, p);
    SecondIs(s, p, controlEph);
  }

  // ---------------------------------------------------------------- a rewritten version field

  predicate Collide(s: Suite, a: seq<byte>, b: seq<byte>) {
    a != b && s.hash(a) == s.hash(b)
  }

  /** None of the three hashes over the prologues of the two versions collides. */
  predicate Separate(s: Suite, v: nat, w: nat, controlPublic: Bytes32, ephPublic: Bytes32) {
    var h := s.hash(Noise.Ascii("Noise_IK_25519_ChaChaPoly_BLAKE2s"));
    var a, b := h + Noise.Prologue(v), h + Noise.Prologue(w);
    var a', b' := s.hash(a) + controlPublic, s.hash(b) + controlPublic;
    !Collide(s, a, b) && !Collide(s, a', b') && !Collide(s, s.hash(a') + ephPublic, s.hash(b') + ephPublic)
  }

  /** Two versions start from different hash inputs, so their transcripts differ from the start. */
  lemma VersionsDiffer(s: Suite, v: nat, w: nat, controlPublic: Bytes32, ephPublic: Bytes32)
    requires v != w && Separate(s, v, w, controlPublic, ephPublic)
    ensures HashThroughE(s, v, controlPublic, ephPublic) != HashThroughE(s, w, controlPublic, ephPublic)
  {
    var h := s.hash(Noise.Ascii("Noise_IK_25519_ChaChaPoly_BLAKE2s"));
    if Noise.Prologue(v) == Noise.Prologue(w) {
      PrologueInjective(v, w);
    }
    var a, b := h + Noise.Prologue(v), h + Noise.Prologue(w);
    Cancel(h, Noise.Prologue(v), Noise.Prologue(w));
    CancelRight(s.hash(a), s.hash(b), controlPublic);
    CancelRight(s.hash(s.hash(a) + controlPublic), s.hash(s.hash(b) + controlPublic), ephPublic);
  }

  lemma Cancel(a: seq<byte>, b: seq<byte>, c: seq<byte>)
    requires b != c
    ensures a + b != a + c
  {
    assert (a + b)[|a|..] == b && (a + c)[|a|..] == c;
  }

  lemma CancelRight(a: Bytes32, b: Bytes32, c: seq<byte>)
    requires a != b
    ensures a + c != b + c
  {
    assert (a + c)[..32] == a && (b + c)[..32] == b;
  }

  /** The cipher refuses what was sealed under other associated data. */
  predicate Binds(s: Suite, k: Bytes32, ad: seq<byte>, other: seq<byte>, plain: seq<byte>) {
    ad != other ==> s.open(k, Zeros(12), other, s.seal(k, Zeros(12), ad, plain)).None?
  }

  lemma DecryptIs(s: Suite, y: F.SymmetricState, k: Bytes32, cipher: seq<byte>)
    requires y.cs == F.CipherState(Some(k), 0) && s.open(k, Zeros(12), y.h, cipher).None?
    ensures F.DecryptAndHash(s, y, cipher).None?
  {
    Noise.ZeroNonce();
  }

  /** A first message made for version v is not read by a server that is told version w: it stops at
      the client's static key, "decrypting machine key". So the version octets of the header cannot
      be rewritten unless a hash collides or the cipher can be forged. */
  lemma RewrittenVersionRefused(s: Suite, v: nat, w: nat, machine: Bytes32, control: Bytes32, eph: Bytes32)
    requires Lawful(s) && v != w && s.dh(eph, s.pub(control)).Some? && s.dh(machine, s.pub(control)).Some?
    requires Separate(s, v, w, s.pub(control), s.pub(eph))
    requires Binds(s, FirstKey(s, s.dh(eph, s.pub(control)).value), HashThroughE(s, v, s.pub(control), s.pub(eph)),
                   HashThroughE(s, w, s.pub(control), s.pub(eph)), s.pub(machine))
    ensures var body := First(s, v, machine, s.pub(control), eph, s.dh(eph, s.pub(control)).value,
                              s.dh(machine, s.pub(control)).value).1;
            var p := Noise.Server(s, w, control);
            && F.ReadMessage(s, p, Noise.IK_FIRST, body).None?
            && Noise.RefusalOfFirst(s, p, body) == Noise.DecryptingMachineKey
  {
    var es := s.dh(eph, s.pub(control)).value;
    var body := First(s, v, machine, s.pub(control), eph, es, s.dh(machine, s.pub(control)).value).1;
    var p := Noise.Server(s, w, control);
    var h := HashThroughE(s, v, s.pub(control), s.pub(eph));
    var sealed := s.seal(FirstKey(s, es), Zeros(12), h, s.pub(machine));
    FirstLength(s, v, machine, s.pub(control), eph);
    assert body[..32] == s.pub(eph) && body[32..][..48] == sealed;
    assert s.dh(control, s.pub(eph)) == Some(es);
    VersionsDiffer(s, v, w, s.pub(control), s.pub(eph));
    Noise.ReadFirst(s, p, body);
    Noise.ReadFirstSteps(s, p, body);
    StartIs(s, w, s.pub(control), s.pub(eph));
    var y := F.MixHash(s, p.sym, s.pub(eph));
    MixKeyIs(s, y, es);
    DecryptIs(s, F.MixKey(s, y, es), FirstKey(s, es), sealed);
    var e: Bytes32 := body[..32];
    Noise.ReadStatic(s, p.(re := Some(e), sym := F.MixKey(s, y, es)), body[32..]);
  }
}
