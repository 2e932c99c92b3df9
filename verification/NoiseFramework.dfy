/** The Noise Protocol Framework, revision 34, as a specification: CipherState (section 5.1),
    SymmetricState (5.2), HandshakeState with its message patterns (5.3), and the HKDF of 4.3.

    The result that carries the handshake is `MessageAgree`: for every message pattern in which
    the writer's static key is sent before a Diffie-Hellman uses it, reading what was written
    gives back the payload and leaves both sides with one transcript, chaining key and cipher. */
module NoiseFramework {
  import opened Bytes
  import opened Crypto

  /** An empty `k` means that no key has been mixed in yet. */
  datatype CipherState = CipherState(k: Option<Bytes32>, n: nat)

  datatype SymmetricState = SymmetricState(cs: CipherState, ck: Bytes32, h: Bytes32)

  /** Section 12.3: 32 zero bits and then n as a little-endian 64-bit number. */
  function Nonce(n: nat): seq<byte> {
    Zeros(4) + LittleEndian(8, n)
  }

  function InitializeSymmetric(s: Suite, name: seq<byte>): SymmetricState {
    var h: Bytes32 := if |name| <= 32 then name + Zeros(32 - |name|) else s.hash(name);
    SymmetricState(CipherState(None, 0), h, h)
  }

  function MixHash(s: Suite, y: SymmetricState, data: seq<byte>): SymmetricState {
    y.(h := s.hash(y.h + data))
  }

  /** Section 4.3 with two outputs. */
  function Hkdf2(s: Suite, ck: Bytes32, ikm: seq<byte>): (Bytes32, Bytes32) {
    var temp := Hmac(s, ck, ikm);
    var first := Hmac(s, temp, [1]);
    (first, Hmac(s, temp, first + [2]))
  }

  function MixKey(s: Suite, y: SymmetricState, ikm: seq<byte>): SymmetricState {
    var (ck, k) := Hkdf2(s, y.ck, ikm);
    SymmetricState(CipherState(Some(k), 0), ck, y.h)
  }

  function EncryptAndHash(s: Suite, y: SymmetricState, plain: seq<byte>): (SymmetricState, seq<byte>) {
    match y.cs.k
    case None => (MixHash(s, y, plain), plain)
    case Some(k) =>
      var cipher := s.seal(k, Nonce(y.cs.n), y.h, plain);
      (MixHash(s, y.(cs := y.cs.(n := y.cs.n + 1)), cipher), cipher)
  }

  function DecryptAndHash(s: Suite, y: SymmetricState, cipher: seq<byte>): Option<(SymmetricState, seq<byte>)> {
    match y.cs.k
    case None => Some((MixHash(s, y, cipher), cipher))
    case Some(k) =>
      match s.open(k, Nonce(y.cs.n), y.h, cipher)
      case None => None
      case Some(plain) => Some((MixHash(s, y.(cs := y.cs.(n := y.cs.n + 1)), cipher), plain))
  }

  /** The two transport keys: the initiator sends with the first and receives with the second. */
  function Split(s: Suite, y: SymmetricState): (Bytes32, Bytes32) {
    Hkdf2(s, y.ck, [])
  }

  // ---------------------------------------------------------------- HandshakeState

  datatype Token = E | S | EE | ES | SE | SS

  /** `s` and `e` are private keys; `rs` and `re` are the peer's public keys once known. */
  datatype Party = Party(initiator: bool, sym: SymmetricState, s: Option<Bytes32>, e: Option<Bytes32>,
                         rs: Option<Bytes32>, re: Option<Bytes32>)

  function Agree(s: Suite, priv: Option<Bytes32>, pub: Option<Bytes32>): Option<Bytes32> {
    if priv.Some? && pub.Some? then s.dh(priv.value, pub.value) else None
  }

  function TokenDh(s: Suite, p: Party, t: Token): Option<Bytes32>
    requires !t.E? && !t.S?
  {
    match t
    case EE => Agree(s, p.e, p.re)
    case ES => if p.initiator then Agree(s, p.e, p.rs) else Agree(s, p.s, p.re)
    case SE => if p.initiator then Agree(s, p.s, p.re) else Agree(s, p.e, p.rs)
    case SS => Agree(s, p.s, p.rs)
  }

  function MixDh(s: Suite, p: Party, t: Token): Option<Party>
    requires !t.E? && !t.S?
  {
    match TokenDh(s, p, t)
    case None => None
    case Some(secret) => Some(p.(sym := MixKey(s, p.sym, secret)))
  }

  /** `eph` is the ephemeral key that an E token would generate. */
  function WriteToken(s: Suite, p: Party, t: Token, eph: Bytes32): Option<(Party, seq<byte>)> {
    match t
    case E => Some((p.(e := Some(eph), sym := MixHash(s, p.sym, s.pub(eph))), s.pub(eph)))
    case S =>
      if p.s.None? then None else
      var (sym, cipher) := EncryptAndHash(s, p.sym, s.pub(p.s.value));
      Some((p.(sym := sym), cipher))
    case _ =>
      match MixDh(s, p, t)
      case None => None
      case Some(q) => Some((q, []))
  }

  function ReadToken(s: Suite, p: Party, t: Token, buf: seq<byte>): Option<(Party, seq<byte>)> {
    match t
    case E =>
      if |buf| < 32 then None else
      Some((p.(re := Some(buf[..32]), sym := MixHash(s, p.sym, buf[..32])), buf[32..]))
    case S =>
      var n := if p.sym.cs.k.Some? then 48 else 32;
      if |buf| < n then None else
      (match DecryptAndHash(s, p.sym, buf[..n])
       case None => None
       case Some((sym, plain)) =>
         if |plain| != 32 then None else Some((p.(sym := sym, rs := Some(plain)), buf[n..])))
    case _ =>
      match MixDh(s, p, t)
      case None => None
      case Some(q) => Some((q, buf))
  }

  function WriteTokens(s: Suite, p: Party, ts: seq<Token>, eph: Bytes32): Option<(Party, seq<byte>)>
    decreases |ts|
  {
    if ts == [] then Some((p, [])) else
    match WriteToken(s, p, ts[0], eph)
    case None => None
    case Some((q, out)) =>
      match WriteTokens(s, q, ts[1..], eph)
      case None => None
      case Some((q', rest)) => Some((q', out + rest))
  }

  function ReadTokens(s: Suite, p: Party, ts: seq<Token>, buf: seq<byte>): Option<(Party, seq<byte>)>
    decreases |ts|
  {
    if ts == [] then Some((p, buf)) else
    match ReadToken(s, p, ts[0], buf)
    case None => None
    case Some((q, rest)) => ReadTokens(s, q, ts[1..], rest)
  }

  function WriteMessage(s: Suite, p: Party, ts: seq<Token>, eph: Bytes32, payload: seq<byte>):
    Option<(Party, seq<byte>)>
  {
    match WriteTokens(s, p, ts, eph)
    case None => None
    case Some((q, out)) =>
      var (sym, cipher) := EncryptAndHash(s, q.sym, payload);
      Some((q.(sym := sym), out + cipher))
  }

  function ReadMessage(s: Suite, p: Party, ts: seq<Token>, buf: seq<byte>): Option<(Party, seq<byte>)> {
    match ReadTokens(s, p, ts, buf)
    case None => None
    case Some((q, rest)) =>
      match DecryptAndHash(s, q.sym, rest)
      case None => None
      case Some((sym, payload)) => Some((q.(sym := sym), payload))
  }

  // ---------------------------------------------------------------- agreement

  ghost predicate KnowsStatic(s: Suite, x: Party, y: Party) {
    x.rs.Some? ==> y.s.Some? && x.rs.value == s.pub(y.s.value)
  }

  ghost predicate KnowsEphemeral(s: Suite, x: Party, y: Party) {
    x.re == if y.e.Some? then Some(s.pub(y.e.value)) else None
  }

  /** Opposite roles, equal symmetric states, and a correct view of the other's public keys. */
  ghost predicate Agreed(s: Suite, x: Party, y: Party) {
    && x.initiator != y.initiator
    && x.sym == y.sym
    && KnowsStatic(s, x, y) && KnowsStatic(s, y, x)
    && KnowsEphemeral(s, x, y) && KnowsEphemeral(s, y, x)
  }

  /** The writer's static key is in the reader's hands before a Diffie-Hellman uses it. */
  predicate Playable(ts: seq<Token>, initiator: bool, known: bool) {
    ts == [] ||
    match ts[0]
    case S => Playable(ts[1..], initiator, true)
    case SS => known && Playable(ts[1..], initiator, known)
    case SE => (initiator ==> known) && Playable(ts[1..], initiator, known)
    case ES => (!initiator ==> known) && Playable(ts[1..], initiator, known)
    case _ => Playable(ts[1..], initiator, known)
  }

  lemma DecryptUndoesEncrypt(s: Suite, y: SymmetricState, plain: seq<byte>)
    requires Lawful(s)
    ensures var (y', cipher) := EncryptAndHash(s, y, plain);
            && DecryptAndHash(s, y, cipher) == Some((y', plain))
            && |cipher| == |plain| + if y.cs.k.Some? then 16 else 0
  {
    if y.cs.k.Some? {
      var _ := s.seal(y.cs.k.value, Nonce(y.cs.n), y.h, plain);
    }
  }

  /** Both sides of a Diffie-Hellman token compute the same secret. */
  lemma DhAgree(s: Suite, w: Party, r: Party, t: Token)
    requires Lawful(s) && Agreed(s, w, r)
    requires !t.E? && !t.S? && Playable([t], w.initiator, r.rs.Some?)
    requires TokenDh(s, w, t).Some?
    ensures TokenDh(s, r, t) == TokenDh(s, w, t)
  {
  }

  lemma TokenAgree(s: Suite, w: Party, r: Party, t: Token, eph: Bytes32, tail: seq<byte>)
    requires Lawful(s) && Agreed(s, w, r) && Playable([t], w.initiator, r.rs.Some?)
    requires WriteToken(s, w, t, eph).Some?
    ensures var (w', out) := WriteToken(s, w, t, eph).value;
            && ReadToken(s, r, t, out + tail).Some?
            && var (r', rest) := ReadToken(s, r, t, out + tail).value;
               rest == tail && Agreed(s, w', r') && r'.rs.Some? == (r.rs.Some? || t.S?) && w'.initiator == w.initiator
  {
    var (w', out) := WriteToken(s, w, t, eph).value;
    if t.E? || t.S? {
      if t.S? {
        DecryptUndoesEncrypt(s, w.sym, s.pub(w.s.value));
      }
      assert (out + tail)[..|out|] == out && (out + tail)[|out|..] == tail;
    } else {
      DhAgree(s, w, r, t);
      assert out + tail == tail;
    }
  }

  lemma PlayableFirst(ts: seq<Token>, initiator: bool, known: bool)
    requires ts != [] && Playable(ts, initiator, known)
    ensures Playable([ts[0]], initiator, known)
    ensures Playable(ts[1..], initiator, known || ts[0].S?)
  {
    assert [ts[0]][1..] == [];
  }

  lemma {:induction false} TokensAgree(s: Suite, w: Party, r: Party, ts: seq<Token>, eph: Bytes32, tail: seq<byte>)
    requires Lawful(s) && Agreed(s, w, r) && Playable(ts, w.initiator, r.rs.Some?)
    requires WriteTokens(s, w, ts, eph).Some?
    ensures var (w', out) := WriteTokens(s, w, ts, eph).value;
            && ReadTokens(s, r, ts, out + tail).Some?
            && var (r', rest) := ReadTokens(s, r, ts, out + tail).value;
               rest == tail && Agreed(s, w', r')
    decreases |ts|
  {
    if ts == [] {
      assert [] + tail == tail;
    } else {
      var (w1, out1) := WriteToken(s, w, ts[0], eph).value;
      var (w2, out2) := WriteTokens(s, w1, ts[1..], eph).value;
      PlayableFirst(ts, w.initiator, r.rs.Some?);
      TokenAgree(s, w, r, ts[0], eph, out2 + tail);
      Assoc(out1, out2, tail);
      var (r1, rest1) := ReadToken(s, r, ts[0], out1 + (out2 + tail)).value;
      TokensAgree(s, w1, r1, ts[1..], eph, tail);
    }
  }

  lemma MessageAgree(s: Suite, w: Party, r: Party, ts: seq<Token>, eph: Bytes32, payload: seq<byte>)
    requires Lawful(s) && Agreed(s, w, r) && Playable(ts, w.initiator, r.rs.Some?)
    requires WriteMessage(s, w, ts, eph, payload).Some?
    ensures var (w', out) := WriteMessage(s, w, ts, eph, payload).value;
            && ReadMessage(s, r, ts, out).Some?
            && var (r', received) := ReadMessage(s, r, ts, out).value;
               received == payload && Agreed(s, w', r')
  {
    var (w1, _) := WriteTokens(s, w, ts, eph).value;
    var (_, cipher) := EncryptAndHash(s, w1.sym, payload);
    TokensAgree(s, w, r, ts, eph, cipher);
    DecryptUndoesEncrypt(s, w1.sym, payload);
  }
}
