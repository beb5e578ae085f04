/** Key agreement and the AEAD session with counter nonces (pkg/crypto/crypto.go). */
module Crypto {
  import opened Bytes

  type Tail = s: seq<byte> | |s| == 16 witness seq(16, _ => 0)
  type Nonce = s: seq<byte> | |s| == 24 witness seq(24, _ => 0)
  type Bytes64 = s: seq<byte> | |s| == 64 witness seq(64, _ => 0)

  /** The primitives the program calls but does not implement. expand(secret, salt) stands for the
      first 64 bytes HKDF-SHA256 yields under the program's fixed info string. */
  datatype Suite = Suite(
    scalarMult: (Bytes32, Bytes32) -> Bytes32,
    expand: (Bytes32, seq<byte>) -> Bytes64,
    seal: (Bytes32, Nonce, seq<byte>) -> seq<byte>,
    open: (Bytes32, Nonce, seq<byte>) -> Option<seq<byte>>)

  const BASE_POINT: Bytes32 := [9] + seq(31, _ => 0)

  function PublicKey(suite: Suite, privateKey: Bytes32): Bytes32 {
    suite.scalarMult(privateKey, BASE_POINT)
  }

  /** Section 6.1 of RFC 7748: both ends compute the same point. Section 2.8 of RFC 8439: opening
      undoes sealing, and the tag adds 16 bytes. */
  ghost predicate Lawful(suite: Suite) {
    && (forall a: Bytes32, b: Bytes32 ::
          suite.scalarMult(a, PublicKey(suite, b)) == suite.scalarMult(b, PublicKey(suite, a)))
    && (forall key: Bytes32, nonce: Nonce, p: seq<byte> ::
          && suite.open(key, nonce, suite.seal(key, nonce, p)) == Some(p)
          && |suite.seal(key, nonce, p)| == |p| + 16)
  }

  // ---------- Key agreement ----------

  datatype KeyPair = KeyPair(privateKey: Bytes32, publicKey: Bytes32)

  ghost predicate Matching(suite: Suite, kp: KeyPair) {
    kp.publicKey == PublicKey(suite, kp.privateKey)
  }

  /** None is the low-order point error. */
  function ComputeSharedSecret(suite: Suite, privateKey: Bytes32, peerPublicKey: Bytes32): Option<Bytes32> {
    var secret := suite.scalarMult(privateKey, peerPublicKey);
    if secret == ZERO_32 then None else Some(secret)
  }

  datatype Keys = Keys(send: Bytes32, recv: Bytes32)

  function DeriveKeys(suite: Suite, secret: Bytes32, isInitiator: bool, salt: seq<byte>): Keys {
    var okm := suite.expand(secret, salt);
    var key1: Bytes32, key2: Bytes32 := okm[..32], okm[32..];
    if isInitiator then Keys(key1, key2) else Keys(key2, key1)
  }

  /** The low-order error is exactly the all-zero point; otherwise the secret is the point itself. */
  lemma SecretUsableIff(suite: Suite, privateKey: Bytes32, peerPublicKey: Bytes32)
    ensures var secret := ComputeSharedSecret(suite, privateKey, peerPublicKey);
            var point := suite.scalarMult(privateKey, peerPublicKey);
            && (secret.None? <==> forall i | 0 <= i < 32 :: point[i] == 0)
            && (secret.Some? ==> secret.value == point)
  {
    var point := suite.scalarMult(privateKey, peerPublicKey);
    if forall i | 0 <= i < 32 :: point[i] == 0 {
      assert point == ZERO_32;
    }
  }

  /** The two keys are the first and the second half of the expanded secret: the initiator sends with the
      first, the responder with the second. */
  lemma KeysAreHalves(suite: Suite, secret: Bytes32, salt: seq<byte>)
    ensures var okm := suite.expand(secret, salt);
            var a, b := DeriveKeys(suite, secret, true, salt), DeriveKeys(suite, secret, false, salt);
            && a.send + a.recv == okm && b.recv + b.send == okm
            && (okm[..32] != okm[32..] ==> a.send != b.send && a.recv != a.send)
  {
  }

  /** Both ends reach the same secret, or both see the low-order error; and the keys are crossed. */
  lemma EndsAgree(suite: Suite, a: KeyPair, b: KeyPair)
    requires Lawful(suite) && Matching(suite, a) && Matching(suite, b)
    ensures var sa := ComputeSharedSecret(suite, a.privateKey, b.publicKey);
            var sb := ComputeSharedSecret(suite, b.privateKey, a.publicKey);
            && sa == sb
            && (sa.Some? ==>
                  var ka := DeriveKeys(suite, sa.value, true, sa.value);
                  var kb := DeriveKeys(suite, sb.value, false, sb.value);
                  && ka.send == kb.recv && ka.recv == kb.send
                  && ka.send + ka.recv == suite.expand(sa.value, sa.value))
  {
    assert suite.scalarMult(a.privateKey, PublicKey(suite, b.privateKey))
        == suite.scalarMult(b.privateKey, PublicKey(suite, a.privateKey));
  }

  // ---------- Sessions ----------

  function NonceOf(counter: u64, tail: Tail): Nonce {
    LittleEndian(counter, 8) + tail
  }

  function Sealed(suite: Suite, key: Bytes32, nonce: Nonce, plaintext: seq<byte>): seq<byte> {
    nonce + suite.seal(key, nonce, plaintext)
  }

  function Opened(suite: Suite, key: Bytes32, ciphertext: seq<byte>): Option<seq<byte>> {
    if |ciphertext| < 24 then None else suite.open(key, ciphertext[..24], ciphertext[24..])
  }

  /** A call of Encrypt: entropy is what the random source delivers for the nonce tail, None when
      reading it fails. */
  datatype Call = Call(plaintext: seq<byte>, entropy: Option<Tail>)

  function Answer(suite: Suite, key: Bytes32, counter: u64, call: Call): Option<seq<byte>> {
    match call.entropy
    case None => None
    case Some(tail) => Some(Sealed(suite, key, NonceOf(counter, tail), call.plaintext))
  }

  class Session {
    const suite: Suite
    const sendKey: Bytes32
    const recvKey: Bytes32
    var sendNonce: u64
    var recvNonce: u64

    constructor DeriveSessionKeys(suite: Suite, secret: Bytes32, isInitiator: bool, salt: seq<byte>)
      ensures this.suite == suite && Keys(sendKey, recvKey) == DeriveKeys(suite, secret, isInitiator, salt)
      ensures suite.expand(secret, salt) == if isInitiator then sendKey + recvKey else recvKey + sendKey
      ensures sendNonce == 0 && recvNonce == 0
    {
      var okm := suite.expand(secret, salt);
      var key1: Bytes32, key2: Bytes32 := okm[..32], okm[32..];
      this.suite := suite;
      if isInitiator {
        sendKey, recvKey := key1, key2;
      } else {
        sendKey, recvKey := key2, key1;
      }
      sendNonce, recvNonce := 0, 0;
    }

    /** The counter moves even when the random source fails. */
    method Encrypt(plaintext: seq<byte>, entropy: Option<Tail>) returns (r: Option<seq<byte>>)
      modifies this`sendNonce
      ensures r == Answer(suite, sendKey, old(sendNonce), Call(plaintext, entropy))
      ensures sendNonce == Increment64(old(sendNonce))
    {
      var nonce := new byte[24](_ => 0);
      Put(nonce, 0, LittleEndian(sendNonce, 8));
      sendNonce := Increment64(sendNonce);
      if entropy.None? {
        return None;
      }
      Put(nonce, 8, entropy.value);
      assert nonce[..] == nonce[..24] == NonceOf(old(sendNonce), entropy.value);
      return Some(nonce[..] + suite.seal(sendKey, nonce[..], plaintext));
    }

    method Decrypt(ciphertext: seq<byte>) returns (r: Option<seq<byte>>)
      modifies this`recvNonce
      ensures r == Opened(suite, recvKey, ciphertext)
      ensures recvNonce == if r.Some? then Increment64(old(recvNonce)) else old(recvNonce)
    {
      if |ciphertext| < 24 {
        return None;
      }
      r := suite.open(recvKey, ciphertext[..24], ciphertext[24..]);
      if r.Some? {
        recvNonce := Increment64(recvNonce);
      }
    }
  }

  // ---------- Runs of Encrypt ----------

  /** What a session answers to a whole run of calls, its counter starting at counter. */
  function Answers(suite: Suite, key: Bytes32, counter: u64, calls: seq<Call>): (r: seq<Option<seq<byte>>>)
    ensures |r| == |calls|
    decreases |calls|
  {
    if calls == [] then []
    else [Answer(suite, key, counter, calls[0])] + Answers(suite, key, Increment64(counter), calls[1..])
  }

  /** The counter after n calls. */
  function Advance(counter: u64, n: nat): u64
    decreases n
  {
    if n == 0 then counter else Advance(Increment64(counter), n - 1)
  }

  lemma {:induction false} AnswerAt(suite: Suite, key: Bytes32, counter: u64, calls: seq<Call>, i: nat)
    requires i < |calls|
    ensures Answers(suite, key, counter, calls)[i] == Answer(suite, key, Advance(counter, i), calls[i])
    decreases i
  {
    if i > 0 {
      AnswerAt(suite, key, Increment64(counter), calls[1..], i - 1);
    }
  }

  lemma {:induction false} AdvanceIsModular(counter: u64, n: nat)
    ensures Advance(counter, n) == (counter + n) % WORD_64
    decreases n
  {
    if n > 0 {
      AdvanceIsModular(Increment64(counter), n - 1);
      if counter == WORD_64 - 1 {
        assert counter + n == WORD_64 + (n - 1);
      }
    }
  }

  /** The nonce an answer carries: its first 24 bytes. */
  function CarriedNonce(answer: Option<seq<byte>>): Option<Nonce> {
    if answer.None? || |answer.value| < 24 then None else Some(answer.value[..24])
  }

  /** Two answers of one session carry the same nonce exactly when their calls are a multiple of 2^64
      apart and drew the same random tail. */
  lemma NonceReuse(suite: Suite, key: Bytes32, counter: u64, calls: seq<Call>, i: nat, j: nat)
    requires i < j < |calls| && calls[i].entropy.Some? && calls[j].entropy.Some?
    ensures var r := Answers(suite, key, counter, calls);
            && CarriedNonce(r[i]).Some?
            && (CarriedNonce(r[i]) == CarriedNonce(r[j]) <==>
                  (j - i) % WORD_64 == 0 && calls[i].entropy == calls[j].entropy)
  {
    AnswerAt(suite, key, counter, calls, i);
    AnswerAt(suite, key, counter, calls, j);
    var a, b := Advance(counter, i), Advance(counter, j);
    var ni, nj := NonceOf(a, calls[i].entropy.value), NonceOf(b, calls[j].entropy.value);
    AnswerCarriesNonce(suite, key, a, calls[i]);
    AnswerCarriesNonce(suite, key, b, calls[j]);
    SameCounter(counter, i, j);
    if ni == nj {
      assert ni[..8] == LittleEndian(a, 8) && nj[..8] == LittleEndian(b, 8);
      assert ni[8..] == calls[i].entropy.value && nj[8..] == calls[j].entropy.value;
      Pow256Values();
      LittleEndianInjective(a, b, 8);
    }
  }

  lemma AnswerCarriesNonce(suite: Suite, key: Bytes32, counter: u64, call: Call)
    requires call.entropy.Some?
    ensures CarriedNonce(Answer(suite, key, counter, call)) == Some(NonceOf(counter, call.entropy.value))
  {
    var nonce := NonceOf(counter, call.entropy.value);
    assert Sealed(suite, key, nonce, call.plaintext)[..24] == nonce;
  }

  /** A sealed text on the wire: the counter, low byte first, the random tail, and what the AEAD makes of
      the plaintext under these 24 bytes. */
  lemma SealedLayout(suite: Suite, key: Bytes32, counter: u64, plaintext: seq<byte>, tail: Tail)
    ensures var r := Answer(suite, key, counter, Call(plaintext, Some(tail)));
            && r.Some? && |r.value| >= 24
            && FromLittleEndian(r.value[..8]) == counter
            && r.value[8..24] == tail
            && r.value[24..] == suite.seal(key, r.value[..24], plaintext)
  {
    var nonce := NonceOf(counter, tail);
    var c := Sealed(suite, key, nonce, plaintext);
    assert c[..24] == nonce && c[..8] == LittleEndian(counter, 8);
    Pow256Values();
    LittleEndianRoundTrip(counter, 8);
  }

  /** Decrypting fails on fewer than 24 bytes and whenever the AEAD refuses, and never otherwise. */
  lemma OpenedIff(suite: Suite, key: Bytes32, nonce: Nonce, sealed: seq<byte>, short: seq<byte>)
    ensures Opened(suite, key, nonce + sealed) == suite.open(key, nonce, sealed)
    ensures |short| < 24 ==> Opened(suite, key, short) == None
  {
    assert (nonce + sealed)[..24] == nonce && (nonce + sealed)[24..] == sealed;
  }

  lemma SameCounter(counter: u64, i: nat, j: nat)
    requires i <= j
    ensures Advance(counter, i) == Advance(counter, j) <==> (j - i) % WORD_64 == 0
  {
    hide Advance;
    AdvanceIsModular(counter, i);
    AdvanceIsModular(counter, j);
    SameRemainder(counter + i, j - i);
  }

  lemma SameRemainder(x: nat, distance: nat)
    ensures x % WORD_64 == (x + distance) % WORD_64 <==> distance % WORD_64 == 0
  {
  }

  /** In any run of at most 2^64 calls, failed ones included, no nonce is used twice. */
  lemma NoncesAreFresh(suite: Suite, key: Bytes32, counter: u64, calls: seq<Call>, i: nat, j: nat)
    requires i < j < |calls| <= WORD_64
    ensures var r := Answers(suite, key, counter, calls);
            r[i].Some? && r[j].Some? ==> CarriedNonce(r[i]) != CarriedNonce(r[j])
  {
    AnswerAt(suite, key, counter, calls, i);
    AnswerAt(suite, key, counter, calls, j);
    if calls[i].entropy.Some? && calls[j].entropy.Some? {
      NonceReuse(suite, key, counter, calls, i, j);
      var distance := j - i;
      assert 0 < distance < WORD_64;
      assert distance % WORD_64 == distance;
    }
  }

  /** The peer splits an answer at the nonce boundary and recovers the plaintext. */
  lemma PeerRecovers(suite: Suite, key: Bytes32, counter: u64, plaintext: seq<byte>, tail: Tail)
    requires Lawful(suite)
    ensures var r := Answer(suite, key, counter, Call(plaintext, Some(tail)));
            && r.Some? && |r.value| == |plaintext| + 40
            && Opened(suite, key, r.value) == Some(plaintext)
  {
    var nonce := NonceOf(counter, tail);
    var c := Sealed(suite, key, nonce, plaintext);
    assert c[..24] == nonce && c[24..] == suite.seal(key, nonce, plaintext);
  }

  /** The assumed laws hold of some suite whose shared secrets are not all zero. */
  lemma LawsHaveAModel() returns (suite: Suite, a: Bytes32, b: Bytes32)
    ensures Lawful(suite)
    ensures ComputeSharedSecret(suite, a, PublicKey(suite, b)).Some?
    ensures Matching(suite, KeyPair(a, PublicKey(suite, a)))
  {
    suite := Suite(
      (x: Bytes32, y: Bytes32) => seq(32, i requires 0 <= i < 32 => Xor(x[i], y[i])),
      (secret: Bytes32, salt: seq<byte>) => secret + secret,
      (key: Bytes32, nonce: Nonce, p: seq<byte>) => p + ZERO_32[..16],
      (key: Bytes32, nonce: Nonce, c: seq<byte>) => if |c| < 16 then None else Some(c[..|c| - 16]));
    a, b := ZERO_32, ZERO_32;
    forall x: Bytes32, y: Bytes32
      ensures suite.scalarMult(x, PublicKey(suite, y)) == suite.scalarMult(y, PublicKey(suite, x))
    {
      var p, q := suite.scalarMult(x, PublicKey(suite, y)), suite.scalarMult(y, PublicKey(suite, x));
      forall i | 0 <= i < 32
        ensures p[i] == q[i]
      {
        XorSwap(x[i], y[i], BASE_POINT[i]);
      }
      assert p == q;
    }
    forall key: Bytes32, nonce: Nonce, p: seq<byte>
      ensures suite.open(key, nonce, suite.seal(key, nonce, p)) == Some(p)
      ensures |suite.seal(key, nonce, p)| == |p| + 16
    {
      assert (p + ZERO_32[..16])[..|p|] == p;
    }
    assert suite.scalarMult(a, PublicKey(suite, b))[0] == 9;
  }

  lemma XorSwap(x: byte, y: byte, g: byte)
    ensures Xor(x, Xor(y, g)) == Xor(y, Xor(x, g))
  {
    XorAssociate(x, y, g);
    XorAssociate(y, x, g);
    XorCommute(x, y);
  }
}
