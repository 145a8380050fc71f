/** First-message encryption of client/src/crypto/NativeSignalCryptoProvider.cpp: an X3DH-style agreement (section
    3.3 of The X3DH Key Agreement Protocol), one ratchet step and AES-256-GCM. The primitives are parameters with
    the laws they are used for; nothing says that a hash or a cipher is ideal, so where a theorem would need that
    it names the event that breaks it. */
module KeyAgreement {
  import CanonicalRecord
  import opened Wrappers

  type Byte = CanonicalRecord.Byte

  type Bytes = seq<Byte>

  /** A JSON value as far as the code looks at one. */
  datatype Json = Number(n: int) | Text(s: string) | Object(members: map<string, Json>)

  /** Every number in it is a 32-bit integer, which JSON's floating-point numbers hold exactly. */
  predicate Exact(j: Json) {
    match j
    case Number(n) => INT_MIN <= n <= INT_MAX
    case Text(_) => true
    case Object(members) => forall k :: k in members ==> Exact(members[k])
  }

  datatype Box = Box(ciphertext: Bytes, authTag: Bytes)

  datatype Crypto = Crypto(
    publicOf: Bytes -> Bytes,                          // X25519 public key of a private key
    dh: (Bytes, Bytes) -> Bytes,                       // x25519Dh(private, public)
    hkdf: (Bytes, Bytes, Bytes, nat) -> Bytes,         // hkdfSha256(ikm, salt, info, length)
    hmac: (Bytes, Bytes) -> Bytes,
    seal: (Bytes, Bytes, Bytes, Bytes) -> Option<Box>, // aesGcmEncrypt(plaintext, key, iv, aad)
    open: (Box, Bytes, Bytes, Bytes) -> Option<Bytes>, // aesGcmDecrypt of a box with key, iv, aad
    toUtf8: string -> Bytes, fromUtf8: Bytes -> string,
    toBase64: Bytes -> string, fromBase64: string -> Bytes,
    printJson: map<string, Json> -> Bytes, parseJson: Bytes -> map<string, Json>,
    isSpace: char -> bool)

  /** What the primitives are relied on for: Diffie-Hellman commutes, sizes are right, opening undoes sealing,
      and reading undoes writing, for JSON where its numbers are exact. */
  ghost predicate Lawful(c: Crypto) {
    && (forall a, b :: c.dh(a, c.publicOf(b)) == c.dh(b, c.publicOf(a)))
    && (forall a, b :: |c.dh(a, b)| == 32)
    && (forall ikm, salt, info, n :: |c.hkdf(ikm, salt, info, n)| == n)
    && (forall k, d :: |c.hmac(k, d)| == 32)
    && (forall p, k, iv, aad :: c.seal(p, k, iv, aad).Some? ==>
                                  c.open(c.seal(p, k, iv, aad).value, k, iv, aad) == Some(p))
    && (forall s :: c.fromUtf8(c.toUtf8(s)) == s)
    && (forall b :: c.fromBase64(c.toBase64(b)) == b)
    && (forall o :: Exact(Object(o)) ==> c.parseJson(c.printJson(o)) == o)
    && (forall o :: Exact(Object(o)) ==> c.toUtf8(c.fromUtf8(c.printJson(o))) == c.printJson(o))
  }

  // ---- associated data ----

  const INT_MIN := -0x8000_0000
  const INT_MAX := 0x7fff_ffff

  type Int32 = x: int | INT_MIN <= x <= INT_MAX witness 0

  /** (value >> shift) & 0xff on a two's complement integer, for power == 2^shift. */
  function ByteAt(value: Int32, power: int): Byte
    requires power > 0
  {
    value / power % 256
  }

  function IntToBigEndian(value: Int32): (b: Bytes)
    ensures |b| == 4
  {
    [ByteAt(value, 0x100_0000), ByteAt(value, 0x1_0000), ByteAt(value, 0x100), ByteAt(value, 1)]
  }

  function AadFor(counter: Int32, previousCounter: Int32, ratchetPublicKey: Bytes): Bytes {
    IntToBigEndian(counter) + IntToBigEndian(previousCounter) + ratchetPublicKey
  }

  lemma HigherByte(value: int, power: int)
    requires power == 1 || power == 0x100 || power == 0x1_0000
    ensures value / power == 256 * (value / (256 * power)) + value / power % 256
  {
  }

  /** The integer four bytes stand for. */
  function FromBigEndian(b: Bytes): int
    requires |b| == 4
  {
    var top: int := b[0];
    0x100_0000 * (if top < 128 then top else top - 256)
    + 0x1_0000 * (b[1] as int) + 0x100 * (b[2] as int) + (b[3] as int)
  }

  lemma BigEndianRoundTrip(value: Int32)
    ensures FromBigEndian(IntToBigEndian(value)) == value
  {
    HigherByte(value, 1);
    HigherByte(value, 0x100);
    HigherByte(value, 0x1_0000);
    assert -128 <= value / 0x100_0000 < 128;
  }

  /** The bytes are the two's complement of the integer, the highest first. */
  lemma BigEndianValue(value: Int32)
    ensures var b := IntToBigEndian(value);
      0x100_0000 * (b[0] as int) + 0x1_0000 * (b[1] as int) + 0x100 * (b[2] as int) + (b[3] as int)
      == if value < 0 then value + 0x1_0000_0000 else value
  {
    BigEndianRoundTrip(value);
    assert IntToBigEndian(value)[0] as int >= 128 <==> value < 0;
  }

  /** The four bytes determine the integer. */
  lemma BigEndianInjective(a: Int32, b: Int32)
    requires IntToBigEndian(a) == IntToBigEndian(b)
    ensures a == b
  {
    hide IntToBigEndian, FromBigEndian;
    BigEndianRoundTrip(a);
    BigEndianRoundTrip(b);
  }

  /** The associated data determine both counters and the ratchet key. */
  lemma AadInjective(counter: Int32, previous: Int32, key: Bytes, counter2: Int32, previous2: Int32, key2: Bytes)
    requires AadFor(counter, previous, key) == AadFor(counter2, previous2, key2)
    ensures counter == counter2 && previous == previous2 && key == key2
  {
    hide IntToBigEndian;
    var p, q := AadFor(counter, previous, key), AadFor(counter2, previous2, key2);
    assert IntToBigEndian(counter) == p[..4] && IntToBigEndian(counter2) == q[..4];
    assert IntToBigEndian(previous) == p[4..8] && IntToBigEndian(previous2) == q[4..8];
    assert key == p[8..] && key2 == q[8..];
    BigEndianInjective(counter, counter2);
    BigEndianInjective(previous, previous2);
  }

  // ---- keys ----

  function KdfX3dh(c: Crypto, dhOutputs: Bytes): Bytes {
    c.hkdf(dhOutputs, seq(32, _ => 0), c.toUtf8(X3DH_INFO), 32)
  }

  function FirstRatchetMessageKey(c: Crypto, rootKey: Bytes, localPrivate: Bytes, remotePublic: Bytes): Bytes {
    var rootOut := c.hkdf(c.dh(localPrivate, remotePublic), rootKey, [], 64);
    var chainKey := if |rootOut| < 64 then [] else rootOut[32..64];
    var key := c.hmac(chainKey, [0x01]);
    if |key| < 32 then key else key[..32]
  }

  // ---- what the message key is made of ----

  lemma KeyHasSize(c: Crypto, root: Bytes, localPrivate: Bytes, remotePublic: Bytes)
    requires Lawful(c)
    ensures |FirstRatchetMessageKey(c, root, localPrivate, remotePublic)| == 32
  {
  }

  const X3DH_INFO := "epic-messaging/v1/signal-x3dh-sk"

  /** The message key is the HMAC of the byte 1 under the second half of a 64-byte HKDF of the ratchet output, salted
      with the 32-byte HKDF of the agreement outputs under 32 zero bytes. */
  lemma KeyDerivation(c: Crypto, agreed: Bytes, localPrivate: Bytes, remotePublic: Bytes)
    requires Lawful(c)
    ensures FirstRatchetMessageKey(c, KdfX3dh(c, agreed), localPrivate, remotePublic)
      == c.hmac(c.hkdf(c.dh(localPrivate, remotePublic),
                       c.hkdf(agreed, seq(32, _ => 0), c.toUtf8("epic-messaging/v1/signal-x3dh-sk"), 32),
                       [], 64)[32..64],
                [0x01])
  {
    KeyHasSize(c, KdfX3dh(c, agreed), localPrivate, remotePublic);
  }

  /** Two inputs on which a primitive agrees, as the key derivation asks it. */
  datatype Coincidence =
    | OfHmac(a: Bytes, b: Bytes)
    | OfRatchet(ratchetA: Bytes, saltA: Bytes, ratchetB: Bytes, saltB: Bytes)
    | OfAgreement(agreedA: Bytes, agreedB: Bytes)

  function RootOf(c: Crypto, agreed: Bytes): Bytes { c.hkdf(agreed, seq(32, _ => 0), c.toUtf8(X3DH_INFO), 32) }

  function ChainOf(c: Crypto, ratchet: Bytes, salt: Bytes): Bytes {
    var out := c.hkdf(ratchet, salt, [], 64);
    if |out| < 64 then [] else out[32..64]
  }

  predicate Coincides(c: Crypto, x: Coincidence) {
    match x
    case OfHmac(a, b) => a != b && c.hmac(a, [0x01]) == c.hmac(b, [0x01])
    case OfRatchet(r, s, q, t) => (r, s) != (q, t) && ChainOf(c, r, s) == ChainOf(c, q, t)
    case OfAgreement(a, b) => a != b && RootOf(c, a) == RootOf(c, b)
  }

  /** Where two derivations with equal keys but different inputs met. */
  function KeyMeeting(c: Crypto, agreed: Bytes, ratchet: Bytes, agreed2: Bytes, ratchet2: Bytes): Option<Coincidence> {
    var root, root2 := RootOf(c, agreed), RootOf(c, agreed2);
    var chain, chain2 := ChainOf(c, ratchet, root), ChainOf(c, ratchet2, root2);
    if chain != chain2 then Some(OfHmac(chain, chain2))
    else if (ratchet, root) != (ratchet2, root2) then Some(OfRatchet(ratchet, root, ratchet2, root2))
    else if agreed != agreed2 then Some(OfAgreement(agreed, agreed2))
    else None
  }

  /** Equal message keys come from equal agreement outputs and equal ratchet outputs, or two inputs of one primitive
      named here have one output. */
  lemma KeyBindsInputs(c: Crypto, agreed: Bytes, priv: Bytes, pub: Bytes, agreed2: Bytes, priv2: Bytes, pub2: Bytes)
    requires Lawful(c)
    requires FirstRatchetMessageKey(c, KdfX3dh(c, agreed), priv, pub)
          == FirstRatchetMessageKey(c, KdfX3dh(c, agreed2), priv2, pub2)
    ensures match KeyMeeting(c, agreed, c.dh(priv, pub), agreed2, c.dh(priv2, pub2))
            case None => agreed == agreed2 && c.dh(priv, pub) == c.dh(priv2, pub2)
            case Some(x) => Coincides(c, x)
  {
    KeyDerivation(c, agreed, priv, pub);
    KeyDerivation(c, agreed2, priv2, pub2);
    ChainSize(c, c.dh(priv, pub), RootOf(c, agreed));
    ChainSize(c, c.dh(priv2, pub2), RootOf(c, agreed2));
    hide FirstRatchetMessageKey, KdfX3dh, Lawful;
  }

  lemma ChainSize(c: Crypto, ratchet: Bytes, salt: Bytes)
    requires Lawful(c)
    ensures |c.hkdf(ratchet, salt, [], 64)| == 64
  {
  }

  // ---- the wire form ----

  function IntOf(o: map<string, Json>, key: string): Int32 {
    if key in o && o[key].Number? && INT_MIN <= o[key].n <= INT_MAX then o[key].n else 0
  }

  function StringOf(o: map<string, Json>, key: string): string { if key in o && o[key].Text? then o[key].s else "" }

  function ObjectOf(o: map<string, Json>, key: string): map<string, Json> {
    if key in o && o[key].Object? then o[key].members else map[]
  }

  function BytesOf(c: Crypto, o: map<string, Json>, key: string): Bytes { c.fromBase64(StringOf(o, key)) }

  function Envelope(c: Crypto, payload: map<string, Json>, registrationId: Int32): map<string, Json> {
    map["format" := Text("libsignal-v1"), "type" := Number(3), "bodyB64" := Text(c.toBase64(c.printJson(payload))),
        "registrationId" := Number(registrationId)]
  }

  function WrapWirePayload(c: Crypto, payload: map<string, Json>, registrationId: Int32): string {
    c.fromUtf8(c.printJson(Envelope(c, payload, registrationId)))
  }

  function UnwrapWirePayload(c: Crypto, wirePayloadJson: string): map<string, Json> {
    var payload := c.parseJson(c.toUtf8(wirePayloadJson));
    if StringOf(payload, "format") != "libsignal-v1" then payload
    else c.parseJson(BytesOf(c, payload, "bodyB64"))
  }

  lemma EnvelopeExact(c: Crypto, payload: map<string, Json>, registrationId: Int32)
    ensures Exact(Object(Envelope(c, payload, registrationId)))
  {
  }

  lemma WireRoundTrip(c: Crypto, payload: map<string, Json>, registrationId: Int32)
    requires Lawful(c) && Exact(Object(payload))
    ensures UnwrapWirePayload(c, WrapWirePayload(c, payload, registrationId)) == payload
  {
    hide Exact;
    EnvelopeExact(c, payload, registrationId);
    var e := Envelope(c, payload, registrationId);
    assert c.parseJson(c.toUtf8(WrapWirePayload(c, payload, registrationId))) == e;
  }

  // ---- encrypt and decrypt ----

  datatype RawKeyPair = RawKeyPair(publicKey: Bytes, privateKey: Bytes)

  /** Keys as the client stores and publishes them, in base64. */
  datatype DeviceKeyMaterial = DeviceKeyMaterial(
    identityKey: string, identityPrivateKey: string, signedPreKey: string, signedPreKeyPrivate: string)

  datatype PreKeyBundle = PreKeyBundle(registrationId: Int32, identityKey: string, signedPreKey: string)

  /** What encrypt draws: two fresh key pairs and an initialisation vector. */
  datatype Randomness = Randomness(ratchetKey: RawKeyPair, ephemeralKey: RawKeyPair, iv: Bytes)

  predicate Blank(c: Crypto, s: string) { forall i :: 0 <= i < |s| ==> c.isSpace(s[i]) }

  /** The three Diffie-Hellman outputs on the sender's side. */
  function SenderAgreement(c: Crypto, sender: DeviceKeyMaterial, bundle: PreKeyBundle, r: Randomness): Bytes {
    c.dh(c.fromBase64(sender.identityPrivateKey), c.fromBase64(bundle.signedPreKey))
    + c.dh(r.ephemeralKey.privateKey, c.fromBase64(bundle.identityKey))
    + c.dh(r.ephemeralKey.privateKey, c.fromBase64(bundle.signedPreKey))
  }

  function SenderKey(c: Crypto, sender: DeviceKeyMaterial, bundle: PreKeyBundle, r: Randomness): Bytes {
    FirstRatchetMessageKey(c, KdfX3dh(c, SenderAgreement(c, sender, bundle, r)), r.ratchetKey.privateKey,
      c.fromBase64(bundle.signedPreKey))
  }

  function Payload(c: Crypto, sender: DeviceKeyMaterial, r: Randomness, box: Box): map<string, Json> {
    map["counter" := Number(0), "previousCounter" := Number(0),
        "ciphertext" := Text(c.toBase64(box.ciphertext)), "iv" := Text(c.toBase64(r.iv)),
        "authTag" := Text(c.toBase64(box.authTag)), "ratchetPublicKey" := Text(c.toBase64(r.ratchetKey.publicKey)),
        "x3dh" := Object(map["identityKey" := Text(sender.identityKey),
                             "ephemeralKey" := Text(c.toBase64(r.ephemeralKey.publicKey))])]
  }

  lemma PayloadExact(c: Crypto, sender: DeviceKeyMaterial, r: Randomness, box: Box)
    ensures Exact(Object(Payload(c, sender, r, box)))
  {
  }

  function Sealed(c: Crypto, sender: DeviceKeyMaterial, bundle: PreKeyBundle, plaintext: string,
      r: Randomness): Option<Box> {
    c.seal(c.toUtf8(plaintext), SenderKey(c, sender, bundle, r), r.iv, AadFor(0, 0, r.ratchetKey.publicKey))
  }

  /** The wire text; the consumed prekey id it reports is always empty. */
  function Encrypt(c: Crypto, sender: DeviceKeyMaterial, bundle: PreKeyBundle, plaintext: string,
      r: Randomness): Result<string, string> {
    if Blank(c, plaintext) then Err("Cannot send an empty message.")
    else if |r.ratchetKey.publicKey| != 32 || |r.ephemeralKey.publicKey| != 32 then
      Err("OpenSSL ratchet key generation failed.")
    else if |SenderKey(c, sender, bundle, r)| != 32 then Err("Could not derive message key.")
    else
      match Sealed(c, sender, bundle, plaintext, r)
      case None => Err("AES-256-GCM encryption failed.")
      case Some(box) => Ok(WrapWirePayload(c, Payload(c, sender, r, box), bundle.registrationId))
  }

  function RecipientAgreement(c: Crypto, device: DeviceKeyMaterial, identity: Bytes, ephemeral: Bytes): Bytes {
    c.dh(c.fromBase64(device.signedPreKeyPrivate), identity)
    + c.dh(c.fromBase64(device.identityPrivateKey), ephemeral)
    + c.dh(c.fromBase64(device.signedPreKeyPrivate), ephemeral)
  }

  function RecipientKey(c: Crypto, device: DeviceKeyMaterial, dhOutputs: Bytes, ratchetPublicKey: Bytes): Bytes {
    FirstRatchetMessageKey(c, KdfX3dh(c, dhOutputs), c.fromBase64(device.signedPreKeyPrivate), ratchetPublicKey)
  }

  /** Decryption from the unwrapped payload on, with the agreement already extended. */
  function Opened(c: Crypto, device: DeviceKeyMaterial, root: map<string, Json>,
      dhOutputs: Bytes): Result<string, string> {
    var ratchetPublicKey := BytesOf(c, root, "ratchetPublicKey");
    var key := RecipientKey(c, device, dhOutputs, ratchetPublicKey);
    if |key| != 32 then Err("Could not derive message key.")
    else
      var box := Box(BytesOf(c, root, "ciphertext"), BytesOf(c, root, "authTag"));
      var aad := AadFor(IntOf(root, "counter"), IntOf(root, "previousCounter"), ratchetPublicKey);
      match c.open(box, key, BytesOf(c, root, "iv"), aad)
      case None => Err("Message authentication failed.")
      case Some(plaintext) => Ok(c.fromUtf8(plaintext))
  }

  function Decrypt(c: Crypto, device: DeviceKeyMaterial, wire: string, consumedPreKeyId: Option<int>,
      oneTimePrivateKey: Option<string>): Result<string, string>
  {
    var root := UnwrapWirePayload(c, wire);
    var x3dh := ObjectOf(root, "x3dh");
    if x3dh == map[] then Err("Ratchet session state is not available for this message yet.")
    else
      var ephemeral := BytesOf(c, x3dh, "ephemeralKey");
      var dhOutputs := RecipientAgreement(c, device, BytesOf(c, x3dh, "identityKey"), ephemeral);
      if consumedPreKeyId.None? then Opened(c, device, root, dhOutputs)
      else if oneTimePrivateKey.None? then Err("Required one-time pre-key private material is unavailable.")
      else Opened(c, device, root, dhOutputs + c.dh(c.fromBase64(oneTimePrivateKey.value), ephemeral))
  }

  // ---- agreement ----

  ghost predicate KeyPairMatches(c: Crypto, publicKey: string, privateKey: string) {
    c.fromBase64(publicKey) == c.publicOf(c.fromBase64(privateKey))
  }

  /** The sender's keys are a pair, the bundle publishes the recipient's keys, the drawn keys are pairs. */
  ghost predicate Matched(c: Crypto, sender: DeviceKeyMaterial, recipient: DeviceKeyMaterial, bundle: PreKeyBundle,
      r: Randomness) {
    && KeyPairMatches(c, sender.identityKey, sender.identityPrivateKey)
    && KeyPairMatches(c, bundle.identityKey, recipient.identityPrivateKey)
    && KeyPairMatches(c, bundle.signedPreKey, recipient.signedPreKeyPrivate)
    && r.ratchetKey.publicKey == c.publicOf(r.ratchetKey.privateKey)
    && r.ephemeralKey.publicKey == c.publicOf(r.ephemeralKey.privateKey)
  }

  /** Both sides compute the same three outputs in the same order, and the same message key. */
  lemma SameKey(c: Crypto, sender: DeviceKeyMaterial, recipient: DeviceKeyMaterial, bundle: PreKeyBundle, r: Randomness)
    requires Lawful(c) && Matched(c, sender, recipient, bundle, r)
    ensures RecipientAgreement(c, recipient, c.fromBase64(sender.identityKey), r.ephemeralKey.publicKey)
      == SenderAgreement(c, sender, bundle, r)
    ensures RecipientKey(c, recipient, SenderAgreement(c, sender, bundle, r), r.ratchetKey.publicKey)
      == SenderKey(c, sender, bundle, r)
  {
    var identity, preKey := c.fromBase64(recipient.identityPrivateKey), c.fromBase64(recipient.signedPreKeyPrivate);
    var senderIdentity := c.fromBase64(sender.identityPrivateKey);
    assert c.dh(preKey, c.publicOf(senderIdentity)) == c.dh(senderIdentity, c.publicOf(preKey));
    var ephemeral := r.ephemeralKey.privateKey;
    assert c.dh(identity, c.publicOf(ephemeral)) == c.dh(ephemeral, c.publicOf(identity));
    assert c.dh(preKey, c.publicOf(r.ephemeralKey.privateKey)) == c.dh(r.ephemeralKey.privateKey, c.publicOf(preKey));
    assert c.dh(preKey, c.publicOf(r.ratchetKey.privateKey)) == c.dh(r.ratchetKey.privateKey, c.publicOf(preKey));
    hide KdfX3dh;
  }

  /** encrypt succeeds on every text that is not blank, unless key generation or the cipher itself fails. */
  lemma EncryptSucceeds(c: Crypto, sender: DeviceKeyMaterial, bundle: PreKeyBundle, plaintext: string, r: Randomness)
    requires Lawful(c)
    ensures Encrypt(c, sender, bundle, plaintext, r).Ok? <==>
      (exists i :: 0 <= i < |plaintext| && !c.isSpace(plaintext[i]))
      && |r.ratchetKey.publicKey| == 32 && |r.ephemeralKey.publicKey| == 32
      && Sealed(c, sender, bundle, plaintext, r).Some?
  {
    hide Lawful, FirstRatchetMessageKey, Sealed, WrapWirePayload;
    var shared := KdfX3dh(c, SenderAgreement(c, sender, bundle, r));
    KeyHasSize(c, shared, r.ratchetKey.privateKey, c.fromBase64(bundle.signedPreKey));
  }

  /** What decrypt reads back out of an encrypted payload. */
  lemma PayloadRead(c: Crypto, sender: DeviceKeyMaterial, r: Randomness, box: Box)
    requires Lawful(c)
    ensures var root := Payload(c, sender, r, box);
      var x3dh := ObjectOf(root, "x3dh");
      x3dh != map[] && BytesOf(c, x3dh, "identityKey") == c.fromBase64(sender.identityKey)
      && BytesOf(c, x3dh, "ephemeralKey") == r.ephemeralKey.publicKey
      && BytesOf(c, root, "ratchetPublicKey") == r.ratchetKey.publicKey && BytesOf(c, root, "iv") == r.iv
      && BytesOf(c, root, "ciphertext") == box.ciphertext && BytesOf(c, root, "authTag") == box.authTag
      && IntOf(root, "counter") == 0 && IntOf(root, "previousCounter") == 0
  {
    var x3dh := ObjectOf(Payload(c, sender, r, box), "x3dh");
    assert "identityKey" in x3dh;
  }

  /** Decryption of a wire text with the sender's agreement fields opens its payload under the sender's outputs,
      extended by the one-time prekey's when the message is flagged with one. */
  lemma DecryptOpens(c: Crypto, sender: DeviceKeyMaterial, recipient: DeviceKeyMaterial, bundle: PreKeyBundle,
      r: Randomness, box: Box, wire: string, consumed: Option<int>, oneTimePrivateKey: Option<string>)
    requires Lawful(c) && Matched(c, sender, recipient, bundle, r)
    requires ObjectOf(UnwrapWirePayload(c, wire), "x3dh") == ObjectOf(Payload(c, sender, r, box), "x3dh")
    ensures var root, agreed := UnwrapWirePayload(c, wire), SenderAgreement(c, sender, bundle, r);
      Decrypt(c, recipient, wire, consumed, oneTimePrivateKey)
      == if consumed.None? then Opened(c, recipient, root, agreed)
         else if oneTimePrivateKey.None? then Err("Required one-time pre-key private material is unavailable.")
         else Opened(c, recipient, root, agreed + c.dh(c.fromBase64(oneTimePrivateKey.value), r.ephemeralKey.publicKey))
  {
    PayloadRead(c, sender, r, box);
    SameKey(c, sender, recipient, bundle, r);
    hide Lawful, UnwrapWirePayload, Payload, RecipientAgreement, SenderAgreement, Opened, BytesOf, ObjectOf;
  }

  /** What a successful encryption sends. */
  lemma EncryptSends(c: Crypto, sender: DeviceKeyMaterial, bundle: PreKeyBundle, plaintext: string, r: Randomness)
    requires Lawful(c) && Encrypt(c, sender, bundle, plaintext, r).Ok?
    ensures Sealed(c, sender, bundle, plaintext, r).Some?
    ensures var box := Sealed(c, sender, bundle, plaintext, r).value;
      && Encrypt(c, sender, bundle, plaintext, r).value
         == WrapWirePayload(c, Payload(c, sender, r, box), bundle.registrationId)
      && UnwrapWirePayload(c, Encrypt(c, sender, bundle, plaintext, r).value) == Payload(c, sender, r, box)
      && c.open(box, SenderKey(c, sender, bundle, r), r.iv, AadFor(0, 0, r.ratchetKey.publicKey))
         == Some(c.toUtf8(plaintext))
  {
    hide WrapWirePayload, UnwrapWirePayload, Payload, AadFor, SenderKey;
    var box := Sealed(c, sender, bundle, plaintext, r).value;
    PayloadExact(c, sender, r, box);
    WireRoundTrip(c, Payload(c, sender, r, box), bundle.registrationId);
  }

  /** The key on the sender's side, and on the recipient's, from the primitives. */
  lemma KeysFromPrimitives(c: Crypto, sender: DeviceKeyMaterial, bundle: PreKeyBundle, r: Randomness,
      device: DeviceKeyMaterial, identity: Bytes, ephemeral: Bytes, ratchet: Bytes)
    requires Lawful(c)
    ensures var spk, idk := c.fromBase64(bundle.signedPreKey), c.fromBase64(bundle.identityKey);
      var agreed := c.dh(c.fromBase64(sender.identityPrivateKey), spk)
                    + c.dh(r.ephemeralKey.privateKey, idk) + c.dh(r.ephemeralKey.privateKey, spk);
      SenderKey(c, sender, bundle, r)
      == c.hmac(ChainOf(c, c.dh(r.ratchetKey.privateKey, spk), RootOf(c, agreed)), [0x01])
    ensures var spk := c.fromBase64(device.signedPreKeyPrivate);
      var agreed := c.dh(spk, identity) + c.dh(c.fromBase64(device.identityPrivateKey), ephemeral)
                    + c.dh(spk, ephemeral);
      RecipientKey(c, device, RecipientAgreement(c, device, identity, ephemeral), ratchet)
      == c.hmac(ChainOf(c, c.dh(spk, ratchet), RootOf(c, agreed)), [0x01])
  {
    var spk := c.fromBase64(bundle.signedPreKey);
    KeyDerivation(c, SenderAgreement(c, sender, bundle, r), r.ratchetKey.privateKey, spk);
    ChainSize(c, c.dh(r.ratchetKey.privateKey, spk), RootOf(c, SenderAgreement(c, sender, bundle, r)));
    var agreed := RecipientAgreement(c, device, identity, ephemeral);
    KeyDerivation(c, agreed, c.fromBase64(device.signedPreKeyPrivate), ratchet);
    ChainSize(c, c.dh(c.fromBase64(device.signedPreKeyPrivate), ratchet), RootOf(c, agreed));
    hide Lawful, FirstRatchetMessageKey, KdfX3dh;
  }

  /** What is on the wire: the envelope, and in its body the sealed text with the counters, the initialisation vector,
      the tag and the public keys the recipient needs, each under its name. The associated data are eight zero bytes
      and the ratchet key. */
  lemma WireMembers(c: Crypto, sender: DeviceKeyMaterial, bundle: PreKeyBundle, plaintext: string, r: Randomness)
    requires Lawful(c) && Encrypt(c, sender, bundle, plaintext, r).Ok?
    ensures var envelope := c.parseJson(c.toUtf8(Encrypt(c, sender, bundle, plaintext, r).value));
      var sealed := c.seal(c.toUtf8(plaintext), SenderKey(c, sender, bundle, r), r.iv,
                           [0, 0, 0, 0, 0, 0, 0, 0] + r.ratchetKey.publicKey);
      envelope.Keys == {"format", "type", "bodyB64", "registrationId"}
      && envelope["format"] == Text("libsignal-v1") && envelope["type"] == Number(3)
      && envelope["registrationId"] == Number(bundle.registrationId)
      && sealed.Some? && envelope["bodyB64"].Text?
      && c.parseJson(c.fromBase64(envelope["bodyB64"].s))
         == map["counter" := Number(0), "previousCounter" := Number(0),
                "ciphertext" := Text(c.toBase64(sealed.value.ciphertext)),
                "authTag" := Text(c.toBase64(sealed.value.authTag)),
                "iv" := Text(c.toBase64(r.iv)),
                "ratchetPublicKey" := Text(c.toBase64(r.ratchetKey.publicKey)),
                "x3dh" := Object(map["identityKey" := Text(sender.identityKey),
                                     "ephemeralKey" := Text(c.toBase64(r.ephemeralKey.publicKey))])]
  {
    SealedAs(c, sender, bundle, plaintext, r);
    EncryptSends(c, sender, bundle, plaintext, r);
    var box := Sealed(c, sender, bundle, plaintext, r).value;
    EnvelopeRead(c, Payload(c, sender, r, box), bundle.registrationId);
    hide Encrypt, Sealed, SenderKey, Lawful, WrapWirePayload, UnwrapWirePayload, AadFor;
    PayloadExact(c, sender, r, box);
    PayloadReads(c, Payload(c, sender, r, box));
  }

  lemma SealedAs(c: Crypto, sender: DeviceKeyMaterial, bundle: PreKeyBundle, plaintext: string, r: Randomness)
    ensures Sealed(c, sender, bundle, plaintext, r)
      == c.seal(c.toUtf8(plaintext), SenderKey(c, sender, bundle, r), r.iv,
                [0, 0, 0, 0, 0, 0, 0, 0] + r.ratchetKey.publicKey)
  {
    hide SenderKey;
    assert AadFor(0, 0, r.ratchetKey.publicKey) == [0, 0, 0, 0, 0, 0, 0, 0] + r.ratchetKey.publicKey;
  }

  lemma EnvelopeRead(c: Crypto, payload: map<string, Json>, registrationId: Int32)
    requires Lawful(c)
    ensures c.parseJson(c.toUtf8(WrapWirePayload(c, payload, registrationId))) == Envelope(c, payload, registrationId)
  {
    EnvelopeExact(c, payload, registrationId);
    hide Exact, Envelope;
  }

  lemma PayloadReads(c: Crypto, payload: map<string, Json>)
    requires Lawful(c) && Exact(Object(payload))
    ensures c.parseJson(c.fromBase64(c.toBase64(c.printJson(payload)))) == payload
  {
  }

  /** The recipient decrypts what the sender encrypted, for every matching set of keys and every text that was
      encrypted, when no one-time prekey was consumed. */
  lemma DecryptsWhatWasEncrypted(c: Crypto, sender: DeviceKeyMaterial, recipient: DeviceKeyMaterial,
      bundle: PreKeyBundle, plaintext: string, r: Randomness, oneTimePrivateKey: Option<string>)
    requires Lawful(c) && Matched(c, sender, recipient, bundle, r)
    requires Encrypt(c, sender, bundle, plaintext, r).Ok?
    ensures var wire := Encrypt(c, sender, bundle, plaintext, r).value;
      Decrypt(c, recipient, wire, None, oneTimePrivateKey) == Ok(plaintext)
  {
    hide Lawful, Matched, Encrypt, Sealed, Decrypt, WrapWirePayload, UnwrapWirePayload, Payload, RecipientKey,
      SenderKey, SenderAgreement, AadFor, BytesOf, IntOf, ObjectOf;
    EncryptSends(c, sender, bundle, plaintext, r);
    var box := Sealed(c, sender, bundle, plaintext, r).value;
    var root := Payload(c, sender, r, box);
    var wire := Encrypt(c, sender, bundle, plaintext, r).value;
    DecryptOpens(c, sender, recipient, bundle, r, box, wire, None, oneTimePrivateKey);
    PayloadRead(c, sender, r, box);
    SameKey(c, sender, recipient, bundle, r);
    SenderKeySize(c, sender, bundle, r);
    Utf8Law(c, plaintext);
  }

  lemma SenderKeySize(c: Crypto, sender: DeviceKeyMaterial, bundle: PreKeyBundle, r: Randomness)
    requires Lawful(c)
    ensures |SenderKey(c, sender, bundle, r)| == 32
  {
    hide FirstRatchetMessageKey, Lawful, KdfX3dh, SenderAgreement;
    var shared := KdfX3dh(c, SenderAgreement(c, sender, bundle, r));
    KeyHasSize(c, shared, r.ratchetKey.privateKey, c.fromBase64(bundle.signedPreKey));
  }

  lemma Utf8Law(c: Crypto, s: string)
    requires Lawful(c)
    ensures c.fromUtf8(c.toUtf8(s)) == s
  {
  }

  /** Payloads that are not in an envelope are read as they are; without key agreement fields nothing is decrypted. */
  lemma DecryptRefuses(c: Crypto, device: DeviceKeyMaterial, wire: string, consumed: Option<int>,
      oneTimePrivateKey: Option<string>)
    requires var root := c.parseJson(c.toUtf8(wire));
      "format" !in root && ("x3dh" !in root || !root["x3dh"].Object? || root["x3dh"].members == map[])
    ensures Decrypt(c, device, wire, consumed, oneTimePrivateKey)
      == Err("Ratchet session state is not available for this message yet.")
  {
  }

  // ---- tampering ----

  /** The cipher opened a box under data it was not sealed with. */
  predicate Forged(c: Crypto, box: Box, iv: Bytes, key: Bytes, aad: Bytes, key2: Bytes, aad2: Bytes) {
    (key2, aad2) != (key, aad) && c.open(box, key2, iv, aad2).Some?
  }

  /** root differs from an encrypted payload at most in its counters and its ratchet key. */
  predicate SameButHeader(root: map<string, Json>, original: map<string, Json>) {
    ObjectOf(root, "x3dh") == ObjectOf(original, "x3dh") && StringOf(root, "iv") == StringOf(original, "iv")
    && StringOf(root, "ciphertext") == StringOf(original, "ciphertext")
    && StringOf(root, "authTag") == StringOf(original, "authTag")
  }

  predicate SameHeader(c: Crypto, root: map<string, Json>, original: map<string, Json>) {
    IntOf(root, "counter") == IntOf(original, "counter")
    && IntOf(root, "previousCounter") == IntOf(original, "previousCounter")
    && BytesOf(c, root, "ratchetPublicKey") == BytesOf(c, original, "ratchetPublicKey")
  }

  /** Any wire text that differs from an encrypted one at most in its counters and its ratchet key decrypts exactly
      when these still read the same, unless the cipher opens the box under associated data it was not sealed with. */
  lemma HeaderTamperingRejected(c: Crypto, sender: DeviceKeyMaterial, recipient: DeviceKeyMaterial,
      bundle: PreKeyBundle, plaintext: string, r: Randomness, wire: string)
    requires Lawful(c) && Matched(c, sender, recipient, bundle, r)
    requires Encrypt(c, sender, bundle, plaintext, r).Ok?
    requires var box := Sealed(c, sender, bundle, plaintext, r).value;
      SameButHeader(UnwrapWirePayload(c, wire), Payload(c, sender, r, box))
    ensures var box := Sealed(c, sender, bundle, plaintext, r).value;
      var root := UnwrapWirePayload(c, wire);
      var same := SameHeader(c, root, Payload(c, sender, r, box));
      var ratchet := BytesOf(c, root, "ratchetPublicKey");
      var result := Decrypt(c, recipient, wire, None, None);
      (same ==> result == Ok(plaintext))
      && (!same ==>
            result == Err("Message authentication failed.")
            || Forged(c, box, r.iv, SenderKey(c, sender, bundle, r), AadFor(0, 0, r.ratchetKey.publicKey),
                      RecipientKey(c, recipient, SenderAgreement(c, sender, bundle, r), ratchet),
                      AadFor(IntOf(root, "counter"), IntOf(root, "previousCounter"), ratchet)))
  {
    hide Lawful, Matched, Encrypt, Sealed, Decrypt, UnwrapWirePayload, WrapWirePayload, Payload, RecipientKey,
      SenderKey, SenderAgreement, AadFor, IntOf, ObjectOf;
    EncryptSends(c, sender, bundle, plaintext, r);
    var box, root := Sealed(c, sender, bundle, plaintext, r).value, UnwrapWirePayload(c, wire);
    var original := Payload(c, sender, r, box);
    var ratchet := BytesOf(c, root, "ratchetPublicKey");
    DecryptOpens(c, sender, recipient, bundle, r, box, wire, None, None);
    PayloadRead(c, sender, r, box);
    SameKey(c, sender, recipient, bundle, r);
    RecipientKeySize(c, recipient, SenderAgreement(c, sender, bundle, r), ratchet);
    Utf8Law(c, plaintext);
    if !SameHeader(c, root, original) {
      HeaderChangesAad(c, root, original);
    }
  }

  lemma RecipientKeySize(c: Crypto, device: DeviceKeyMaterial, dhOutputs: Bytes, ratchetPublicKey: Bytes)
    requires Lawful(c)
    ensures |RecipientKey(c, device, dhOutputs, ratchetPublicKey)| == 32
  {
    hide FirstRatchetMessageKey, Lawful, KdfX3dh;
    KeyHasSize(c, KdfX3dh(c, dhOutputs), c.fromBase64(device.signedPreKeyPrivate), ratchetPublicKey);
  }

  lemma HeaderChangesAad(c: Crypto, root: map<string, Json>, original: map<string, Json>)
    requires !SameHeader(c, root, original)
    ensures AadFor(IntOf(root, "counter"), IntOf(root, "previousCounter"), BytesOf(c, root, "ratchetPublicKey"))
      != AadFor(IntOf(original, "counter"), IntOf(original, "previousCounter"),
                BytesOf(c, original, "ratchetPublicKey"))
  {
    hide AadFor, IntOf, BytesOf;
    if AadFor(IntOf(root, "counter"), IntOf(root, "previousCounter"), BytesOf(c, root, "ratchetPublicKey"))
      == AadFor(IntOf(original, "counter"), IntOf(original, "previousCounter"),
                BytesOf(c, original, "ratchetPublicKey"))
    {
      AadInjective(IntOf(root, "counter"), IntOf(root, "previousCounter"), BytesOf(c, root, "ratchetPublicKey"),
        IntOf(original, "counter"), IntOf(original, "previousCounter"), BytesOf(c, original, "ratchetPublicKey"));
    }
  }

  // ---- a consumed one-time prekey ----

  /** The sender never mixes a one-time prekey in, so a message the relay flags with one does not decrypt: the
      key is missing, or the longer agreement gives a key the box was not sealed with, or it gives the same key
      as the shorter one and two inputs of one primitive named here have one output. */
  lemma FlaggedPrekeyFails(c: Crypto, sender: DeviceKeyMaterial, recipient: DeviceKeyMaterial, bundle: PreKeyBundle,
      plaintext: string, r: Randomness, preKeyId: int, oneTimePrivateKey: Option<string>)
    requires Lawful(c) && Matched(c, sender, recipient, bundle, r)
    requires Encrypt(c, sender, bundle, plaintext, r).Ok?
    ensures var box := Sealed(c, sender, bundle, plaintext, r).value;
      var wire := Encrypt(c, sender, bundle, plaintext, r).value;
      var result := Decrypt(c, recipient, wire, Some(preKeyId), oneTimePrivateKey);
      var agreed := SenderAgreement(c, sender, bundle, r);
      var ratchet, aad := r.ratchetKey.publicKey, AadFor(0, 0, r.ratchetKey.publicKey);
      result.Err?
      || (oneTimePrivateKey.Some?
          && var longer := agreed + c.dh(c.fromBase64(oneTimePrivateKey.value), r.ephemeralKey.publicKey);
          var dh := c.dh(c.fromBase64(recipient.signedPreKeyPrivate), ratchet);
          (KeyMeeting(c, agreed, dh, longer, dh).Some? && Coincides(c, KeyMeeting(c, agreed, dh, longer, dh).value))
          || Forged(c, box, r.iv,
               SenderKey(c, sender, bundle, r), aad, RecipientKey(c, recipient, longer, ratchet), aad))
  {
    hide Lawful, Matched, Encrypt, Sealed, Decrypt, WrapWirePayload, UnwrapWirePayload, Payload, RecipientKey,
      SenderKey, SenderAgreement, AadFor, IntOf, BytesOf, ObjectOf;
    EncryptSends(c, sender, bundle, plaintext, r);
    var box := Sealed(c, sender, bundle, plaintext, r).value;
    var root := Payload(c, sender, r, box);
    DecryptOpens(c, sender, recipient, bundle, r, box, Encrypt(c, sender, bundle, plaintext, r).value, Some(preKeyId),
      oneTimePrivateKey);
    PayloadRead(c, sender, r, box);
    SameKey(c, sender, recipient, bundle, r);
    if oneTimePrivateKey.Some? {
      DhSize(c, c.fromBase64(oneTimePrivateKey.value), r.ephemeralKey.publicKey);
      var dh4 := c.dh(c.fromBase64(oneTimePrivateKey.value), r.ephemeralKey.publicKey);
      var agreed := SenderAgreement(c, sender, bundle, r);
      assert |agreed + dh4| != |agreed|;
      if RecipientKey(c, recipient, agreed, r.ratchetKey.publicKey)
        == RecipientKey(c, recipient, agreed + dh4, r.ratchetKey.publicKey)
      {
        RecipientKeyBinds(c, recipient, agreed, agreed + dh4, r.ratchetKey.publicKey);
      }
    }
  }

  lemma RecipientKeyBinds(c: Crypto, device: DeviceKeyMaterial, a: Bytes, b: Bytes, ratchet: Bytes)
    requires Lawful(c) && a != b && RecipientKey(c, device, a, ratchet) == RecipientKey(c, device, b, ratchet)
    ensures var dh := c.dh(c.fromBase64(device.signedPreKeyPrivate), ratchet);
      KeyMeeting(c, a, dh, b, dh).Some? && Coincides(c, KeyMeeting(c, a, dh, b, dh).value)
  {
    hide FirstRatchetMessageKey, KdfX3dh, Lawful, KeyMeeting, Coincides;
    var priv := c.fromBase64(device.signedPreKeyPrivate);
    KeyBindsInputs(c, a, priv, ratchet, b, priv, ratchet);
  }

  lemma DhSize(c: Crypto, privateKey: Bytes, publicKey: Bytes)
    requires Lawful(c)
    ensures |c.dh(privateKey, publicKey)| == 32
  {
  }
}
