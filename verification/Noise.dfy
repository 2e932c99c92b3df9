/** src/noise.cpp, the handshake: Noise_IK_25519_ChaChaPoly_BLAKE2s with a Tailscale header.

    The methods keep the source's three variables (transcript hash `h`, chaining key `ck`, key
    `k`) and its fixed all-zero nonce. Each is proved to produce what the counter-based
    HandshakeState of `NoiseFramework` produces for pattern IK (section 7.5):
        <- s
        ...
        -> e, es, s, ss
        <- e, ee, se                                                                         */
module Noise {
  import opened Bytes
  import opened Crypto
  import F = NoiseFramework

  const PROTOCOL_NAME := "Noise_IK_25519_ChaChaPoly_BLAKE2s"
  const PROLOGUE_PREFIX := "Tailscale Control Protocol v"
  const MSG_INITIATION: byte := 1
  const MSG_RESPONSE: byte := 2
  const HEADER_LEN := 3
  const INIT_HEADER_LEN := 5
  const INITIATION_LEN := 101
  const RESPONSE_LEN := 51

  const IK_FIRST: seq<F.Token> := [F.E, F.ES, F.S, F.SS]
  const IK_SECOND: seq<F.Token> := [F.E, F.EE, F.SE]

  datatype HandshakeError =
    | WrongSize | WrongType | WrongLength
    | ComputingEs | DecryptingMachineKey | ComputingSs | DecryptingTag
    | ComputingEe | ComputingSe
    | BadResponse | DecryptingPayload

  datatype Outcome<+T> = Ok(value: T) | Fail(error: HandshakeError)

  datatype NoiseResult = NoiseResult(peer: Bytes32, version: nat, hash: Bytes32, tx: Bytes32, rx: Bytes32)

  /** What noise_client_init hands to noise_client_finish, and the message it returns. */
  datatype Initiation = Initiation(message: seq<byte>, h: Bytes32, ck: Bytes32)

  datatype Response = Response(message: seq<byte>, result: NoiseResult)

  function Ascii(t: string): seq<byte> {
    seq(|t|, i requires 0 <= i < |t| => t[i] as int % 256)
  }

  function Prologue(version: nat): seq<byte> {
    Ascii(PROLOGUE_PREFIX + Decimal(version))
  }

  // ---------------------------------------------------------------- pattern IK

  /** Both sides start from the protocol name, the prologue and the responder's static key. */
  function Start(s: Suite, version: nat, controlPublic: Bytes32): F.SymmetricState {
    F.MixHash(s, F.MixHash(s, F.InitializeSymmetric(s, Ascii(PROTOCOL_NAME)), Prologue(version)), controlPublic)
  }

  function Client(s: Suite, version: nat, machine: Bytes32, controlPublic: Bytes32): F.Party {
    F.Party(true, Start(s, version, controlPublic), Some(machine), None, Some(controlPublic), None)
  }

  function Server(s: Suite, version: nat, control: Bytes32): F.Party {
    F.Party(false, Start(s, version, s.pub(control)), Some(control), None, None, None)
  }

  /** The initiator once its first message is out, from the `h` and `ck` it kept. The cipher is
      not kept: the next message replaces it before using it. */
  function Waiting(machine: Bytes32, eph: Bytes32, controlPublic: Bytes32, h: Bytes32, ck: Bytes32,
                   cs: F.CipherState): F.Party {
    F.Party(true, F.SymmetricState(cs, ck, h), Some(machine), Some(eph), Some(controlPublic), None)
  }

  function InitiationHeader(version: nat): seq<byte> {
    Be16(version) + [MSG_INITIATION] + Be16(96)
  }

  function ResponseHeader(): seq<byte> {
    [MSG_RESPONSE] + Be16(48)
  }

  // ---------------------------------------------------------------- steps on h, ck and k

  lemma Hkdf64(s: Suite, ck: Bytes32, ikm: seq<byte>)
    ensures Hkdf(s, ikm, ck, 64) == F.Hkdf2(s, ck, ikm).0 + F.Hkdf2(s, ck, ikm).1
  {
    var prk := Hmac(s, ck, ikm);
    assert TStream(s, prk, 2) == TStream(s, prk, 1) + T(s, prk, 2);
    assert TStream(s, prk, 1) == TStream(s, prk, 0) + T(s, prk, 1);
    assert T(s, prk, 1) == Hmac(s, prk, T(s, prk, 0) + [1]);
    assert T(s, prk, 0) + [1] == [1];
  }

  method Derive(s: Suite, ck: Bytes32, ikm: seq<byte>) returns (first: Bytes32, second: Bytes32)
    ensures (first, second) == F.Hkdf2(s, ck, ikm)
  {
    var out := new byte[64](_ => 0);
    HkdfBlake2s(s, ikm, ck, out);
    Hkdf64(s, ck, ikm);
    first, second := out[..32], out[32..];
  }

  method MixHash(s: Suite, h: Bytes32, data: seq<byte>) returns (h': Bytes32)
    ensures h' == s.hash(h + data)
  {
    h' := s.hash(h + data);
  }

  /** On failure `ck` and `k` keep their values. */
  method MixDh(s: Suite, ck: Bytes32, k: Bytes32, priv: Bytes32, pub: Bytes32)
    returns (ok: bool, ck': Bytes32, k': Bytes32)
    ensures ok == s.dh(priv, pub).Some?
    ensures ok ==> (ck', k') == F.Hkdf2(s, ck, s.dh(priv, pub).value)
    ensures !ok ==> ck' == ck && k' == k
  {
    var shared := s.dh(priv, pub);
    if shared.None? {
      return false, ck, k;
    }
    ck', k' := Derive(s, ck, shared.value);
    ok := true;
  }

  lemma ZeroNonce()
    ensures F.Nonce(0) == Zeros(12)
  {
    LittleEndianZero(8);
    assert Zeros(4) + Zeros(8) == Zeros(12);
  }

  /** One sealing under a fresh key is the framework's EncryptAndHash at counter zero. */
  method EncryptAndHash(s: Suite, h: Bytes32, k: Bytes32, plain: seq<byte>)
    returns (h': Bytes32, cipher: seq<byte>)
    requires Lawful(s)
    ensures |cipher| == |plain| + 16
    ensures forall ck: Bytes32 ::
              F.EncryptAndHash(s, F.SymmetricState(F.CipherState(Some(k), 0), ck, h), plain)
              == (F.SymmetricState(F.CipherState(Some(k), 1), ck, h'), cipher)
  {
    ZeroNonce();
    cipher := s.seal(k, Zeros(12), h, plain);
    h' := s.hash(h + cipher);
  }

  /** `size` is the length of the span the plaintext is copied to. */
  method DecryptAndHash(s: Suite, h: Bytes32, k: Bytes32, size: nat, cipher: seq<byte>)
    returns (r: Option<seq<byte>>, h': Bytes32)
    ensures r.Some? ==> |r.value| == size
    ensures r.None? ==> h' == h
    ensures forall ck: Bytes32 ::
              var d := F.DecryptAndHash(s, F.SymmetricState(F.CipherState(Some(k), 0), ck, h), cipher);
              && (r.Some? <==> d.Some? && |d.value.1| == size)
              && (r.Some? ==> d.value == (F.SymmetricState(F.CipherState(Some(k), 1), ck, h'), r.value))
  {
    ZeroNonce();
    r, h' := s.open(k, Zeros(12), h, cipher), h;
    if r.None? || |r.value| != size {
      return None, h;
    }
    h' := s.hash(h + cipher);
  }

  // ---------------------------------------------------------------- unfolding the two messages

  lemma WriteStatic(s: Suite, p: F.Party, eph: Bytes32)
    requires p.s.Some? && p.rs.Some?
    ensures var ss := s.dh(p.s.value, p.rs.value);
            F.WriteTokens(s, p, [F.S, F.SS], eph)
            == if ss.None? then None else
               var (y, cipher) := F.EncryptAndHash(s, p.sym, s.pub(p.s.value));
               Some((p.(sym := F.MixKey(s, y, ss.value)), cipher))
  {
    var t2, t3 := [F.S, F.SS], [F.SS];
    assert t2[1..] == t3 && t3[1..] == [];
    var (q, cipher) := F.WriteToken(s, p, F.S, eph).value;
    if s.dh(p.s.value, p.rs.value).Some? {
      var q' := F.WriteToken(s, q, F.SS, eph).value.0;
      assert F.WriteTokens(s, q', [], eph) == Some((q', []));
      assert F.WriteTokens(s, q, t3, eph) == Some((q', [] + []));
      assert cipher + ([] + []) == cipher;
    } else {
      assert F.WriteTokens(s, q, t3, eph) == None;
    }
  }

  lemma WriteAfterE(s: Suite, p: F.Party, eph: Bytes32)
    requires p.initiator && p.s.Some? && p.e.Some? && p.rs.Some?
    ensures var es, ss := s.dh(p.e.value, p.rs.value), s.dh(p.s.value, p.rs.value);
            F.WriteTokens(s, p, [F.ES, F.S, F.SS], eph)
            == if es.None? || ss.None? then None else
               var (y, cipher) := F.EncryptAndHash(s, F.MixKey(s, p.sym, es.value), s.pub(p.s.value));
               Some((p.(sym := F.MixKey(s, y, ss.value)), cipher))
  {
    var t1, t2 := [F.ES, F.S, F.SS], [F.S, F.SS];
    assert t1[1..] == t2;
    if s.dh(p.e.value, p.rs.value).Some? {
      var q := F.WriteToken(s, p, F.ES, eph).value.0;
      WriteStatic(s, q, eph);
      var rest := F.WriteTokens(s, q, t2, eph);
      if rest.Some? {
        assert [] + rest.value.1 == rest.value.1;
      }
    }
  }

  lemma WriteFirst(s: Suite, p: F.Party, eph: Bytes32)
    requires p.initiator && p.s.Some? && p.rs.Some?
    ensures var p1 := p.(e := Some(eph), sym := F.MixHash(s, p.sym, s.pub(eph)));
            var es, ss := s.dh(eph, p.rs.value), s.dh(p.s.value, p.rs.value);
            F.WriteTokens(s, p, IK_FIRST, eph)
            == if es.None? || ss.None? then None else
               var (y, cipher) := F.EncryptAndHash(s, F.MixKey(s, p1.sym, es.value), s.pub(p.s.value));
               Some((p1.(sym := F.MixKey(s, y, ss.value)), s.pub(eph) + cipher))
  {
    assert IK_FIRST[1..] == [F.ES, F.S, F.SS];
    WriteAfterE(s, F.WriteToken(s, p, F.E, eph).value.0, eph);
  }

  lemma WriteSecond(s: Suite, p: F.Party, eph: Bytes32)
    requires !p.initiator && p.rs.Some? && p.re.Some?
    ensures var p1 := p.(e := Some(eph), sym := F.MixHash(s, p.sym, s.pub(eph)));
            var ee, se := s.dh(eph, p.re.value), s.dh(eph, p.rs.value);
            F.WriteTokens(s, p, IK_SECOND, eph)
            == if ee.None? || se.None? then None else
               Some((p1.(sym := F.MixKey(s, F.MixKey(s, p1.sym, ee.value), se.value)), s.pub(eph)))
  {
    var t1, t2 := [F.EE, F.SE], [F.SE];
    assert IK_SECOND[1..] == t1 && t1[1..] == t2 && t2[1..] == [];
    var p1 := F.WriteToken(s, p, F.E, eph).value.0;
    if s.dh(eph, p.re.value).Some? {
      var p2 := F.WriteToken(s, p1, F.EE, eph).value.0;
      if s.dh(eph, p.rs.value).Some? {
        var p3 := F.WriteToken(s, p2, F.SE, eph).value.0;
        assert F.WriteTokens(s, p3, [], eph) == Some((p3, []));
        assert F.WriteTokens(s, p2, t2, eph) == Some((p3, [] + []));
        assert s.pub(eph) + ([] + ([] + [])) == s.pub(eph);
      } else {
        assert F.WriteTokens(s, p2, t2, eph) == None;
      }
    }
  }

  lemma ReadStatic(s: Suite, p: F.Party, buf: seq<byte>)
    requires p.s.Some? && p.sym.cs.k.Some? && |buf| == 64
    ensures var d := F.DecryptAndHash(s, p.sym, buf[..48]);
            && ((d.None? || |d.value.1| != 32) ==> F.ReadTokens(s, p, [F.S, F.SS], buf).None?)
            && (d.Some? && |d.value.1| == 32 ==>
              var ss := s.dh(p.s.value, d.value.1);
              F.ReadTokens(s, p, [F.S, F.SS], buf)
              == if ss.None? then None
                 else Some((p.(rs := Some(d.value.1), sym := F.MixKey(s, d.value.0, ss.value)), buf[48..])))
  {
    var t2, t3 := [F.S, F.SS], [F.SS];
    assert t2[1..] == t3 && t3[1..] == [];
    if F.ReadToken(s, p, F.S, buf).Some? {
      var q := F.ReadToken(s, p, F.S, buf).value.0;
      assert F.ReadTokens(s, p, t2, buf) == F.ReadTokens(s, q, t3, buf[48..]);
      if F.ReadToken(s, q, F.SS, buf[48..]).Some? {
        var q' := F.ReadToken(s, q, F.SS, buf[48..]).value.0;
        assert F.ReadTokens(s, q, t3, buf[48..]) == F.ReadTokens(s, q', [], buf[48..]);
      }
    }
  }

  /** The responder's side of the first message, as far as the static key and ss. */
  lemma ReadFirst(s: Suite, p: F.Party, buf: seq<byte>)
    requires !p.initiator && p.s.Some? && |buf| == 96
    ensures var e: Bytes32 := buf[..32];
            var p1 := p.(re := Some(e), sym := F.MixHash(s, p.sym, e));
            var es := s.dh(p.s.value, e);
            F.ReadTokens(s, p, IK_FIRST, buf)
            == if es.None? then None
               else F.ReadTokens(s, p1.(sym := F.MixKey(s, p1.sym, es.value)), [F.S, F.SS], buf[32..])
  {
    var t1, t2 := [F.ES, F.S, F.SS], [F.S, F.SS];
    assert IK_FIRST[1..] == t1 && t1[1..] == t2;
    var p1 := F.ReadToken(s, p, F.E, buf).value.0;
    assert F.ReadTokens(s, p, IK_FIRST, buf) == F.ReadTokens(s, p1, t1, buf[32..]);
  }

  /** How far the responder gets with the first message. */
  lemma ReadFirstSteps(s: Suite, p: F.Party, buf: seq<byte>)
    requires !p.initiator && p.s.Some? && |buf| == 96
    ensures var e: Bytes32 := buf[..32];
            var p1 := p.(re := Some(e), sym := F.MixHash(s, p.sym, e));
            var es := s.dh(p.s.value, e);
            && (F.ReadTokens(s, p, [F.E, F.ES], buf).None? <==> es.None?)
            && (es.Some? ==>
              var d := F.DecryptAndHash(s, F.MixKey(s, p1.sym, es.value), buf[32..][..48]);
              F.ReadTokens(s, p, [F.E, F.ES, F.S], buf).None? <==> d.None? || |d.value.1| != 32)
  {
    var a, b := [F.E, F.ES], [F.E, F.ES, F.S];
    var a1, b1, b2 := [F.ES], [F.ES, F.S], [F.S];
    assert a[1..] == a1 && b[1..] == b1 && a1[1..] == [] && b1[1..] == b2 && b2[1..] == [];
    var p1 := F.ReadToken(s, p, F.E, buf).value.0;
    assert F.ReadTokens(s, p, a, buf) == F.ReadTokens(s, p1, a1, buf[32..]);
    assert F.ReadTokens(s, p, b, buf) == F.ReadTokens(s, p1, b1, buf[32..]);
    if s.dh(p.s.value, buf[..32]).Some? {
      var p2 := F.ReadToken(s, p1, F.ES, buf[32..]).value.0;
      assert F.ReadTokens(s, p1, b1, buf[32..]) == F.ReadTokens(s, p2, b2, buf[32..]);
    }
  }

  lemma ReadSecond(s: Suite, p: F.Party, buf: seq<byte>)
    requires p.initiator && p.s.Some? && p.e.Some? && |buf| == 48
    ensures var e: Bytes32 := buf[..32];
            var p1 := p.(re := Some(e), sym := F.MixHash(s, p.sym, e));
            var ee, se := s.dh(p.e.value, e), s.dh(p.s.value, e);
            F.ReadTokens(s, p, IK_SECOND, buf)
            == if ee.None? || se.None? then None else
               Some((p1.(sym := F.MixKey(s, F.MixKey(s, p1.sym, ee.value), se.value)), buf[32..]))
  {
    var t1, t2 := [F.EE, F.SE], [F.SE];
    assert IK_SECOND[1..] == t1 && t1[1..] == t2 && t2[1..] == [];
    var p1 := F.ReadToken(s, p, F.E, buf).value.0;
    if s.dh(p.e.value, buf[..32]).Some? {
      var p2 := F.ReadToken(s, p1, F.EE, buf[32..]).value.0;
      assert F.ReadTokens(s, p1, t1, buf[32..]) == F.ReadTokens(s, p2, t2, buf[32..]);
      if s.dh(p.s.value, buf[..32]).Some? {
        var p3 := F.ReadToken(s, p2, F.SE, buf[32..]).value.0;
        assert F.ReadTokens(s, p2, t2, buf[32..]) == F.ReadTokens(s, p3, [], buf[32..]);
      }
    }
  }

  // ---------------------------------------------------------------- the three entry points

  /** The evolution of h, ck and k behind noise_client_init, with the two ciphertexts it makes. */
  method ClientTranscript(s: Suite, machine: Bytes32, controlPublic: Bytes32, version: nat, eph: Bytes32)
    returns (r: Outcome<(seq<byte>, seq<byte>)>, h: Bytes32, ck: Bytes32)
    requires Lawful(s)
    ensures r.Ok? <==> F.WriteMessage(s, Client(s, version, machine, controlPublic), IK_FIRST, eph, []).Some?
    ensures r.Ok? ==>
              var (p, out) := F.WriteMessage(s, Client(s, version, machine, controlPublic), IK_FIRST, eph, []).value;
              && out == s.pub(eph) + r.value.0 + r.value.1
              && |r.value.0| == 48 && |r.value.1| == 16
              && p == Waiting(machine, eph, controlPublic, h, ck, p.sym.cs)
    ensures r.Fail? ==> r.error == if s.dh(eph, controlPublic).None? then ComputingEs else ComputingSs
  {
    ghost var p := Client(s, version, machine, controlPublic);
    WriteFirst(s, p, eph);
    h := s.hash(Ascii(PROTOCOL_NAME));
    ck := h;
    h := MixHash(s, h, Prologue(version));
    h := MixHash(s, h, controlPublic);
    assert p.sym == F.SymmetricState(F.CipherState(None, 0), ck, h);
    h := MixHash(s, h, s.pub(eph));

    var ok, k := true, Zeros(32);
    ok, ck, k := MixDh(s, ck, k, eph, controlPublic);
    if !ok {
      return Fail(ComputingEs), h, ck;
    }
    var sealed, tag;
    h, sealed := EncryptAndHash(s, h, k, s.pub(machine));
    ok, ck, k := MixDh(s, ck, k, machine, controlPublic);
    if !ok {
      return Fail(ComputingSs), h, ck;
    }
    h, tag := EncryptAndHash(s, h, k, []);
    r := Ok((sealed, tag));
  }

  /** Refines the initiator's first message; `eph` is what generate_x25519_private returned. */
  method ClientInit(s: Suite, machine: Bytes32, controlPublic: Bytes32, version: nat, eph: Bytes32)
    returns (r: Outcome<Initiation>)
    requires Lawful(s) && version < 0x1_0000
    ensures r.Ok? <==> F.WriteMessage(s, Client(s, version, machine, controlPublic), IK_FIRST, eph, []).Some?
    ensures r.Ok? ==>
              var (p, out) := F.WriteMessage(s, Client(s, version, machine, controlPublic), IK_FIRST, eph, []).value;
              && r.value.message == InitiationHeader(version) + out
              && |r.value.message| == INITIATION_LEN
              && p == Waiting(machine, eph, controlPublic, r.value.h, r.value.ck, p.sym.cs)
    ensures r.Fail? ==> r.error == if s.dh(eph, controlPublic).None? then ComputingEs else ComputingSs
  {
    var made, h, ck := ClientTranscript(s, machine, controlPublic, version, eph);
    if made.Fail? {
      return Fail(made.error);
    }
    var (sealed, tag) := made.value;
    var init := MessageBytes(InitiationHeader(version), s.pub(eph), sealed, tag);
    r := Ok(Initiation(init, h, ck));
  }

  /** A message buffer, filled in place field by field. */
  method MessageBytes(header: seq<byte>, ephPub: Bytes32, sealed: seq<byte>, tag: seq<byte>)
    returns (message: seq<byte>)
    ensures message == header + (ephPub + sealed + tag)
  {
    var size := |header| + 32 + |sealed| + |tag|;
    var buf := new byte[size](_ => 0);
    CopyBlock(buf, 0, header, []);
    assert [] + header == header;
    CopyBlock(buf, |header|, ephPub, header);
    CopyBlock(buf, |header| + 32, sealed, header + ephPub);
    CopyBlock(buf, |header| + 32 + |sealed|, tag, header + ephPub + sealed);
    assert buf[..] == buf[..size];
    message := buf[..];
    assert header + ephPub + sealed + tag == header + (ephPub + sealed + tag);
  }

  /** The initiation as the server sees it: the version, the type and length octets, the body. */
  predicate WellFramed(init: seq<byte>) {
    |init| == INITIATION_LEN && init[2] == MSG_INITIATION && FromBe16(init[3], init[4]) == 96
  }

  /** What the framework's responder does with an initiation: it reads the first message, which
      must carry no payload, and writes the second. */
  function Respond(s: Suite, control: Bytes32, init: seq<byte>, eph: Bytes32): Option<(F.Party, seq<byte>)>
    requires WellFramed(init)
  {
    var read := F.ReadMessage(s, Server(s, FromBe16(init[0], init[1]), control), IK_FIRST, init[INIT_HEADER_LEN..]);
    if read.None? || read.value.1 != [] then None
    else F.WriteMessage(s, read.value.0, IK_SECOND, eph, [])
  }

  /** The server's variables after the first message. */
  datatype Accepted = Accepted(h: Bytes32, ck: Bytes32, machineEph: Bytes32, machineKey: Bytes32)

  /** Why a first message is refused: the token at which the responder stops, or the payload. */
  function RefusalOfFirst(s: Suite, p: F.Party, body: seq<byte>): HandshakeError {
    if F.ReadTokens(s, p, [F.E, F.ES], body).None? then ComputingEs
    else if F.ReadTokens(s, p, [F.E, F.ES, F.S], body).None? then DecryptingMachineKey
    else if F.ReadTokens(s, p, IK_FIRST, body).None? then ComputingSs
    else DecryptingTag
  }

  method ServerRead(s: Suite, control: Bytes32, version: nat, body: seq<byte>) returns (r: Outcome<Accepted>)
    requires |body| == 96
    ensures var read := F.ReadMessage(s, Server(s, version, control), IK_FIRST, body);
            && (r.Ok? <==> read.Some? && read.value.1 == [])
            && (r.Ok? ==>
              var cs := read.value.0.sym.cs;
              read.value.0 == F.Party(false, F.SymmetricState(cs, r.value.ck, r.value.h), Some(control), None,
                                      Some(r.value.machineKey), Some(r.value.machineEph)))
    ensures r.Ok? ==> r.value.machineEph == body[..32]
    ensures r.Fail? ==> r.error == RefusalOfFirst(s, Server(s, version, control), body)
  {
    ghost var p := Server(s, version, control);
    ReadFirst(s, p, body);
    ReadFirstSteps(s, p, body);
    var h := s.hash(Ascii(PROTOCOL_NAME));
    var ck := h;
    h := MixHash(s, h, Prologue(version));
    h := MixHash(s, h, s.pub(control));
    assert p.sym == F.SymmetricState(F.CipherState(None, 0), ck, h);
    var machineEph: Bytes32 := body[..32];
    h := MixHash(s, h, machineEph);

    var ok, k := true, Zeros(32);
    ok, ck, k := MixDh(s, ck, k, control, machineEph);
    if !ok {
      return Fail(ComputingEs);
    }
    ghost var p2 := p.(re := Some(machineEph), sym := F.SymmetricState(F.CipherState(Some(k), 0), ck, h));
    ReadStatic(s, p2, body[32..]);
    assert body[32..][..48] == body[32..80] && body[32..][48..] == body[80..];
    var plain;
    plain, h := DecryptAndHash(s, h, k, 32, body[32..80]);
    if plain.None? {
      return Fail(DecryptingMachineKey);
    }
    var machineKey: Bytes32 := plain.value;
    ok, ck, k := MixDh(s, ck, k, control, machineKey);
    if !ok {
      return Fail(ComputingSs);
    }
    plain, h := DecryptAndHash(s, h, k, 0, body[80..]);
    if plain.None? {
      return Fail(DecryptingTag);
    }
    r := Ok(Accepted(h, ck, machineEph, machineKey));
  }

  /** The second half of noise_server_handshake, for the party `p` that the first half made. */
  method ServerWrite(s: Suite, a: Accepted, version: nat, eph: Bytes32, ghost control: Bytes32, ghost p: F.Party)
    returns (r: Outcome<Response>)
    requires Lawful(s)
    requires p == F.Party(false, F.SymmetricState(p.sym.cs, a.ck, a.h), Some(control), None, Some(a.machineKey),
                          Some(a.machineEph))
    ensures var write := F.WriteMessage(s, p, IK_SECOND, eph, []);
            && (r.Ok? <==> write.Some?)
            && (r.Ok? ==>
              var (q, out) := write.value;
              && r.value.message == ResponseHeader() + out && |r.value.message| == RESPONSE_LEN
              && q.rs == Some(a.machineKey)
              && r.value.result
                 == NoiseResult(a.machineKey, version, q.sym.h, F.Split(s, q.sym).1, F.Split(s, q.sym).0))
    ensures r.Fail? ==> r.error == if s.dh(eph, a.machineEph).None? then ComputingEe else ComputingSe
  {
    var Accepted(h, ck, machineEph, machineKey) := a;
    WriteSecond(s, p, eph);
    var ephPub := s.pub(eph);
    h := MixHash(s, h, ephPub);
    var ok, k := true, Zeros(32);
    ok, ck, k := MixDh(s, ck, k, eph, machineEph);
    if !ok {
      return Fail(ComputingEe);
    }
    ok, ck, k := MixDh(s, ck, k, eph, machineKey);
    if !ok {
      return Fail(ComputingSe);
    }
    var tag;
    h, tag := EncryptAndHash(s, h, k, []);
    var message := MessageBytes(ResponseHeader(), ephPub, [], tag);
    assert ephPub + [] + tag == ephPub + tag;
    var c1, c2 := Derive(s, ck, []);
    r := Ok(Response(message, NoiseResult(machineKey, version, h, c2, c1)));
  }

  /** Refines the responder: reads the first message of IK and writes the second. */
  method ServerHandshake(s: Suite, control: Bytes32, init: seq<byte>, eph: Bytes32) returns (r: Outcome<Response>)
    requires Lawful(s)
    ensures r.Ok? <==> WellFramed(init) && Respond(s, control, init, eph).Some?
    ensures r.Ok? ==>
              var (p, out) := Respond(s, control, init, eph).value;
              && r.value.message == ResponseHeader() + out
              && |r.value.message| == RESPONSE_LEN
              && p.rs.Some?
              && r.value.result == NoiseResult(p.rs.value, FromBe16(init[0], init[1]), p.sym.h,
                                               F.Split(s, p.sym).1, F.Split(s, p.sym).0)
    ensures |init| != INITIATION_LEN ==> r == Fail(WrongSize)
    ensures |init| == INITIATION_LEN && init[2] != MSG_INITIATION ==> r == Fail(WrongType)
    ensures |init| == INITIATION_LEN && init[2] == MSG_INITIATION && FromBe16(init[3], init[4]) != 96 ==>
              r == Fail(WrongLength)
    ensures WellFramed(init) && r.Fail? ==>
              var p, body := Server(s, FromBe16(init[0], init[1]), control), init[INIT_HEADER_LEN..];
              var read := F.ReadMessage(s, p, IK_FIRST, body);
              r.error == if read.None? || read.value.1 != [] then RefusalOfFirst(s, p, body)
                         else if s.dh(eph, body[..32]).None? then ComputingEe else ComputingSe
  {
    if |init| != INITIATION_LEN {
      return Fail(WrongSize);
    }
    var version := FromBe16(init[0], init[1]);
    if init[2] != MSG_INITIATION {
      return Fail(WrongType);
    }
    if FromBe16(init[3], init[4]) != 96 {
      return Fail(WrongLength);
    }
    var read := ServerRead(s, control, version, init[INIT_HEADER_LEN..]);
    if read.Fail? {
      return Fail(read.error);
    }
    ghost var p := F.ReadMessage(s, Server(s, version, control), IK_FIRST, init[INIT_HEADER_LEN..]).value.0;
    r := ServerWrite(s, read.value, version, eph, control, p);
  }

  predicate WellFramedResponse(response: seq<byte>) {
    |response| == RESPONSE_LEN && response[0] == MSG_RESPONSE && FromBe16(response[1], response[2]) == 48
  }

  /** Refines the initiator's reading of the second message, whatever cipher `cs` its first
      message left behind. */
  method ClientFinish(s: Suite, machine: Bytes32, eph: Bytes32, controlPublic: Bytes32, response: seq<byte>,
                      h0: Bytes32, ck0: Bytes32, ghost cs: F.CipherState) returns (r: Outcome<NoiseResult>)
    ensures var p := Waiting(machine, eph, controlPublic, h0, ck0, cs);
            && (r.Ok? <==> WellFramedResponse(response)
                           && F.ReadMessage(s, p, IK_SECOND, response[HEADER_LEN..]).Some?
                           && F.ReadMessage(s, p, IK_SECOND, response[HEADER_LEN..]).value.1 == [])
            && (r.Ok? ==>
              var q := F.ReadMessage(s, p, IK_SECOND, response[HEADER_LEN..]).value.0;
              r.value == NoiseResult(Zeros(32), 0, q.sym.h, F.Split(s, q.sym).0, F.Split(s, q.sym).1))
    ensures !WellFramedResponse(response) <==> r == Fail(BadResponse)
    ensures WellFramedResponse(response) && r.Fail? ==>
              var e: Bytes32 := response[HEADER_LEN..HEADER_LEN + 32];
              r.error == if s.dh(eph, e).None? then ComputingEe else if s.dh(machine, e).None? then ComputingSe
                         else DecryptingPayload
  {
    if |response| != RESPONSE_LEN || response[0] != MSG_RESPONSE || FromBe16(response[1], response[2]) != 48 {
      return Fail(BadResponse);
    }
    ghost var body := response[HEADER_LEN..];
    ReadSecond(s, Waiting(machine, eph, controlPublic, h0, ck0, cs), body);
    var controlEph: Bytes32 := response[HEADER_LEN..HEADER_LEN + 32];
    assert controlEph == body[..32] && body[32..] == response[HEADER_LEN + 32..];
    var h := MixHash(s, h0, controlEph);
    var ok, ck, k := true, ck0, Zeros(32);
    ok, ck, k := MixDh(s, ck, k, eph, controlEph);
    if !ok {
      return Fail(ComputingEe);
    }
    ok, ck, k := MixDh(s, ck, k, machine, controlEph);
    if !ok {
      return Fail(ComputingSe);
    }
    var plain;
    plain, h := DecryptAndHash(s, h, k, 0, response[HEADER_LEN + 32..]);
    if plain.None? {
      return Fail(DecryptingPayload);
    }
    var c1, c2 := Derive(s, ck, []);
    r := Ok(NoiseResult(Zeros(32), 0, h, c1, c2));
  }

  // ---------------------------------------------------------------- agreement

  /** The four Diffie-Hellman computations of IK, as one side or the other does them. */
  predicate AllDhSucceed(s: Suite, machine: Bytes32, control: Bytes32, machineEph: Bytes32, controlEph: Bytes32) {
    && s.dh(machineEph, s.pub(control)).Some?
    && s.dh(machine, s.pub(control)).Some?
    && s.dh(controlEph, s.pub(machineEph)).Some?
    && s.dh(controlEph, s.pub(machine)).Some?
  }

  /** For all static keys, ephemerals and versions, the framework's two parties complete IK if and
      only if the four Diffie-Hellman computations succeed, and then they agree. */
  lemma IkAgreement(s: Suite, version: nat, machine: Bytes32, control: Bytes32, machineEph: Bytes32,
                    controlEph: Bytes32)
    requires Lawful(s)
    ensures var c := Client(s, version, machine, s.pub(control));
            var first := F.WriteMessage(s, c, IK_FIRST, machineEph, []);
            && (first.Some? <==> s.dh(machineEph, s.pub(control)).Some? && s.dh(machine, s.pub(control)).Some?)
            && (first.Some? ==>
              var read := F.ReadMessage(s, Server(s, version, control), IK_FIRST, first.value.1);
              && read.Some? && read.value.1 == [] && F.Agreed(s, first.value.0, read.value.0)
              && read.value.0.rs == Some(s.pub(machine)) && read.value.0.re == Some(s.pub(machineEph))
              && var second := F.WriteMessage(s, read.value.0, IK_SECOND, controlEph, []);
                 && (second.Some? <==> AllDhSucceed(s, machine, control, machineEph, controlEph))
                 && (second.Some? ==>
                   var finish := F.ReadMessage(s, first.value.0, IK_SECOND, second.value.1);
                   && finish.Some? && finish.value.1 == [] && F.Agreed(s, second.value.0, finish.value.0)
                   && second.value.0.rs == Some(s.pub(machine))))
  {
    var c, v := Client(s, version, machine, s.pub(control)), Server(s, version, control);
    WriteFirst(s, c, machineEph);
    var first := F.WriteMessage(s, c, IK_FIRST, machineEph, []);
    if first.Some? {
      PlayableFirst();
      F.MessageAgree(s, c, v, IK_FIRST, machineEph, []);
      var r := F.ReadMessage(s, v, IK_FIRST, first.value.1).value.0;
      FirstTeachesStatic(s, v, first.value.1);
      WriteSecond(s, r, controlEph);
      var second := F.WriteMessage(s, r, IK_SECOND, controlEph, []);
      if second.Some? {
        PlayableSecond();
        F.MessageAgree(s, r, first.value.0, IK_SECOND, controlEph, []);
      }
    }
  }

  lemma PlayableFirst()
    ensures F.Playable(IK_FIRST, true, false)
  {
    var t1, t2, t3 := [F.ES, F.S, F.SS], [F.S, F.SS], [F.SS];
    assert IK_FIRST[1..] == t1 && t1[1..] == t2 && t2[1..] == t3 && t3[1..] == [];
    assert F.Playable(t3, true, true);
    assert F.Playable(t2, true, false);
  }

  lemma PlayableSecond()
    ensures F.Playable(IK_SECOND, false, true)
  {
    var t1, t2 := [F.EE, F.SE], [F.SE];
    assert IK_SECOND[1..] == t1 && t1[1..] == t2 && t2[1..] == [];
    assert F.Playable(t2, false, true);
  }

  lemma FirstTeachesStatic(s: Suite, p: F.Party, buf: seq<byte>)
    requires !p.initiator && p.s.Some? && |buf| == 96
    requires F.ReadMessage(s, p, IK_FIRST, buf).Some?
    ensures var q := F.ReadMessage(s, p, IK_FIRST, buf).value.0;
            q.rs.Some? && q.re.Some? && q.s == p.s && !q.initiator
  {
    ReadFirst(s, p, buf);
    var e: Bytes32 := buf[..32];
    var es := s.dh(p.s.value, e).value;
    ReadStatic(s, p.(re := Some(e), sym := F.MixKey(s, F.MixHash(s, p.sym, e), es)), buf[32..]);
  }

  /** The responder when IK is complete, by the framework. */
  ghost function Completed(s: Suite, version: nat, machine: Bytes32, control: Bytes32, machineEph: Bytes32,
                           controlEph: Bytes32): Option<F.Party>
  {
    match F.WriteMessage(s, Client(s, version, machine, s.pub(control)), IK_FIRST, machineEph, [])
    case None => None
    case Some((_, first)) =>
      match F.ReadMessage(s, Server(s, version, control), IK_FIRST, first)
      case None => None
      case Some((responder, _)) =>
        match F.WriteMessage(s, responder, IK_SECOND, controlEph, [])
        case None => None
        case Some((done, _)) => Some(done)
  }

  /** tests/test_noise.cpp as a theorem: the three calls in order succeed if and only if the four
      Diffie-Hellman computations do; the keys cross over, the hashes are equal, and the server
      learns the client's machine key and version. */
  method Connect(s: Suite, machine: Bytes32, control: Bytes32, version: nat, machineEph: Bytes32, controlEph: Bytes32)
    returns (r: Option<(NoiseResult, NoiseResult)>)
    requires Lawful(s) && version < 0x1_0000
    ensures r.Some? <==> AllDhSucceed(s, machine, control, machineEph, controlEph)
    ensures r.Some? ==>
              var (client, server) := r.value;
              && client.tx == server.rx && client.rx == server.tx
              && client.hash == server.hash
              && server.peer == s.pub(machine) && server.version == version
    ensures r.Some? ==>
              var (client, server) := r.value;
              var done := Completed(s, version, machine, control, machineEph, controlEph);
              && done.Some? && server.hash == done.value.sym.h
              && (client.tx, client.rx) == F.Split(s, done.value.sym)
  {
    IkAgreement(s, version, machine, control, machineEph, controlEph);
    var init := ClientInit(s, machine, s.pub(control), version, machineEph);
    if init.Fail? {
      return None;
    }
    ghost var first := F.WriteMessage(s, Client(s, version, machine, s.pub(control)), IK_FIRST, machineEph, []).value;
    FramedInitiation(version, first.1);
    var server := ServerHandshake(s, control, init.value.message, controlEph);
    if server.Fail? {
      return None;
    }
    ghost var second := Respond(s, control, init.value.message, controlEph).value;
    FramedResponse(second.1);
    var client := ClientFinish(s, machine, machineEph, s.pub(control), server.value.message,
                               init.value.h, init.value.ck, first.0.sym.cs);
    if client.Fail? {
      return None;
    }
    r := Some((client.value, server.value.result));
  }

  lemma FramedInitiation(version: nat, body: seq<byte>)
    requires version < 0x1_0000 && |body| == 96
    ensures var m := InitiationHeader(version) + body;
            WellFramed(m) && m[INIT_HEADER_LEN..] == body && FromBe16(m[0], m[1]) == version
  {
    var header := InitiationHeader(version);
    InitiationFields(version);
    FrontAndBack(header, body);
  }

  lemma InitiationFields(version: nat)
    requires version < 0x1_0000
    ensures var h := InitiationHeader(version);
            |h| == 5 && FromBe16(h[0], h[1]) == version && h[2] == MSG_INITIATION && FromBe16(h[3], h[4]) == 96
  {
  }

  lemma FrontAndBack(front: seq<byte>, back: seq<byte>)
    ensures (front + back)[|front|..] == back
    ensures forall i :: 0 <= i < |front| ==> (front + back)[i] == front[i]
  {
  }

  lemma FramedResponse(body: seq<byte>)
    requires |body| == 48
    ensures var m := ResponseHeader() + body;
            WellFramedResponse(m) && m[HEADER_LEN..] == body
  {
  }
}
