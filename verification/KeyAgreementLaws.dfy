/** The laws KeyAgreement asks of the primitives contradict nothing: some primitives, if useless ones, meet them all.
    Other useless ones write down what they are asked, and so show what the message key is derived from. */
module KeyAgreementLaws {
  import opened CanonicalRecord
  import opened Decimal
  import opened KeyAgreement
  import opened Wrappers

  // ---- an injective text for JSON objects ----

  ghost function SomeKey(m: map<string, Json>): (k: string)
    requires m != map[]
    ensures k in m
  {
    assert m.Keys != {};
    var k :| k in m.Keys;
    k
  }

  ghost function JsonText(j: Json): (text: string)
    ensures text != ""
    decreases j, 1, 0
  {
    match j
    case Number(n) => "n" + PrintInt(n) + ","
    case Text(s) => "t" + Quoted(s)
    case Object(members) => "o" + MembersText(j, members)
  }

  /** The text of some of an object's members. */
  ghost function MembersText(j: Json, m: map<string, Json>): (text: string)
    requires j.Object? && forall k :: k in m ==> k in j.members && m[k] == j.members[k]
    ensures text != "" && text[0] == if m == map[] then '.' else 'k'
    decreases j, 0, |m|
  {
    if m == map[] then "."
    else
      var k := SomeKey(m);
      "k" + Quoted(k) + JsonText(m[k]) + MembersText(j, m - {k})
  }

  lemma {:induction false} JsonTextCancels(a: Json, b: Json, s: string, t: string)
    requires JsonText(a) + s == JsonText(b) + t
    ensures a == b && s == t
    decreases a, 1, 0
  {
    hide Quoted, PrintInt;
    assert (JsonText(a) + s)[0] == JsonText(a)[0] && (JsonText(b) + t)[0] == JsonText(b)[0];
    match (a, b)
    case (Number(m), Number(n)) =>
      assert JsonText(a) + s == "n" + PrintInt(m) + ("," + s) && JsonText(b) + t == "n" + PrintInt(n) + ("," + t);
      NumberMemberCancels("n", m, n, "," + s, "," + t);
      LiteralCancels(",", s, t);
    case (Text(v), Text(w)) => StringMemberCancels("t", v, w, s, t);
    case (Object(m), Object(n)) =>
      assert JsonText(a) + s == "o" + (MembersText(a, m) + s) && JsonText(b) + t == "o" + (MembersText(b, n) + t);
      LiteralCancels("o", MembersText(a, m) + s, MembersText(b, n) + t);
      MembersTextCancels(a, m, b, n, s, t);
    case (_, _) =>
  }

  lemma FourParts(a: string, b: string, c: string, d: string, s: string)
    ensures a + b + c + d + s == a + b + (c + (d + s))
  {
  }

  lemma WithoutKey(m: map<string, Json>, k: string)
    requires k in m
    ensures m == (m - {k})[k := m[k]] && |m - {k}| < |m|
  {
    assert (m - {k}).Keys == m.Keys - {k};
  }

  lemma FirstMember(j: Json, m: map<string, Json>, s: string)
    requires j.Object? && m != map[] && forall k :: k in m ==> k in j.members && m[k] == j.members[k]
    ensures var k := SomeKey(m);
      MembersText(j, m) + s == "k" + Quoted(k) + (JsonText(m[k]) + (MembersText(j, m - {k}) + s))
  {
    hide Quoted, JsonText, SomeKey;
    var k := SomeKey(m);
    FourParts("k", Quoted(k), JsonText(m[k]), MembersText(j, m - {k}), s);
  }

  lemma {:induction false} MembersTextCancels(a: Json, m: map<string, Json>, b: Json, n: map<string, Json>, s: string,
      t: string)
    requires a.Object? && forall k :: k in m ==> k in a.members && m[k] == a.members[k]
    requires b.Object? && forall k :: k in n ==> k in b.members && n[k] == b.members[k]
    requires MembersText(a, m) + s == MembersText(b, n) + t
    ensures m == n && s == t
    decreases a, 0, |m|
  {
    assert (MembersText(a, m) + s)[0] == MembersText(a, m)[0] && (MembersText(b, n) + t)[0] == MembersText(b, n)[0];
    if m == map[] {
      LiteralCancels(".", s, t);
    } else {
      hide Quoted, JsonText, MembersText, SomeKey;
      var k, l := SomeKey(m), SomeKey(n);
      FirstMember(a, m, s);
      FirstMember(b, n, t);
      WithoutKey(m, k);
      WithoutKey(n, l);
      var restM, restN := MembersText(a, m - {k}) + s, MembersText(b, n - {l}) + t;
      StringMemberCancels("k", k, l, JsonText(m[k]) + restM, JsonText(n[l]) + restN);
      JsonTextCancels(m[k], n[l], restM, restN);
      MembersTextCancels(a, m - {k}, b, n - {l}, s, t);
    }
  }

  // ---- the primitives ----

  ghost function ObjectBytes(o: map<string, Json>): Bytes { Utf8(JsonText(Object(o))) }

  ghost function ReadUtf8(b: Bytes): string { if exists s :: Utf8(s) == b then (var s :| Utf8(s) == b; s) else "" }

  ghost function ReadObject(b: Bytes): map<string, Json> {
    if exists o :: ObjectBytes(o) == b then (var o :| ObjectBytes(o) == b; o) else map[]
  }

  function BytesText(b: Bytes): string { seq(|b|, i requires 0 <= i < |b| => b[i] as char) }

  function TextBytes(s: string): Bytes { seq(|s|, i requires 0 <= i < |s| => s[i] as int % 256) }

  function Zeros(n: nat): Bytes { seq(n, _ => 0) }

  lemma Utf8Reads(s: string)
    ensures ReadUtf8(Utf8(s)) == s
  {
    hide Utf8;
    Utf8Injective(ReadUtf8(Utf8(s)), s);
  }

  lemma ObjectReads(o: map<string, Json>)
    ensures ReadObject(ObjectBytes(o)) == o
  {
    hide Utf8, JsonText;
    var p := ReadObject(ObjectBytes(o));
    assert ObjectBytes(p) == ObjectBytes(o);
    Utf8Injective(JsonText(Object(p)), JsonText(Object(o)));
    JsonTextCancels(Object(p), Object(o), "", "");
  }

  lemma BytesRead(b: Bytes)
    ensures TextBytes(BytesText(b)) == b
  {
  }

  ghost function PlainCrypto(): Crypto {
    Crypto(
      _ => Zeros(32), (_, _) => Zeros(32), (_, _, _, n) => Zeros(n), (_, _) => Zeros(32),
      (p, _, _, _) => Some(Box(p, [])), (box: Box, _, _, _) => Some(box.ciphertext),
      s => Utf8(s), b => ReadUtf8(b), b => BytesText(b), s => TextBytes(s),
      o => ObjectBytes(o), b => ReadObject(b), _ => false)
  }

  lemma PlainCryptoLawful()
    ensures Lawful(PlainCrypto())
  {
    hide Utf8, ReadUtf8, JsonText, ObjectBytes, ReadObject, BytesText, TextBytes, Exact;
    var c := PlainCrypto();
    forall s ensures c.fromUtf8(c.toUtf8(s)) == s {
      Utf8Reads(s);
    }
    forall o ensures c.parseJson(c.printJson(o)) == o {
      ObjectReads(o);
    }
    forall o ensures c.toUtf8(c.fromUtf8(c.printJson(o))) == c.printJson(o) {
      ObjectBytesAreUtf8(o);
      Utf8Reads(JsonText(Object(o)));
    }
    forall b ensures c.fromBase64(c.toBase64(b)) == b {
      BytesRead(b);
    }
  }

  /** Primitives, matching keys and a text that meet every hypothesis of the agreement theorems at once. */
  lemma HypothesesConsistent() returns (c: Crypto, sender: DeviceKeyMaterial, recipient: DeviceKeyMaterial,
      bundle: PreKeyBundle, r: Randomness)
    ensures Lawful(c) && Matched(c, sender, recipient, bundle, r) && Encrypt(c, sender, bundle, "a", r).Ok?
    ensures Decrypt(c, recipient, Encrypt(c, sender, bundle, "a", r).value, None, None) == Ok("a")
  {
    hide Utf8, ReadUtf8, JsonText, ObjectBytes, ReadObject, Lawful;
    PlainCryptoLawful();
    c := PlainCrypto();
    var key := BytesText(Zeros(32));
    BytesRead(Zeros(32));
    sender := DeviceKeyMaterial(key, key, key, key);
    recipient := sender;
    bundle := PreKeyBundle(0, key, key);
    r := Randomness(RawKeyPair(Zeros(32), Zeros(32)), RawKeyPair(Zeros(32), Zeros(32)), Zeros(12));
    hide BytesText, TextBytes;
    EncryptSucceeds(c, sender, bundle, "a", r);
    assert !c.isSpace("a"[0]);
    assert !Blank(c, "a");
    assert Sealed(c, sender, bundle, "a", r).Some?;
    hide PlainCrypto, Zeros, Matched, Encrypt, Decrypt;
    DecryptsWhatWasEncrypted(c, sender, recipient, bundle, "a", r, None);
  }

  // ---- primitives that record their arguments ----

  function Padded(b: Bytes): (p: Bytes)
    ensures |p| == 32
  {
    if |b| < 32 then b + Zeros(32 - |b|) else b[..32]
  }

  function FirstByte(b: Bytes): Byte { if b == [] then 0 else b[0] }

  /** Diffie-Hellman answers the first bytes of the two keys, HKDF and HMAC what they are asked, if it is what an X3DH
      root, a ratchet step and a message key ask for, and zeros otherwise. */
  ghost function RecordingCrypto(): Crypto {
    Crypto(
      _ => Zeros(32), (a, b) => [FirstByte(a), FirstByte(b)],
      (ikm, salt, info, n) =>
        if n == 32 && salt == Zeros(32) && info == Utf8("epic-messaging/v1/signal-x3dh-sk") then ikm
        else if n == 64 && info == [] then Zeros(32) + Padded(ikm + salt)
        else Zeros(n),
      (k, d) => if d == [1] then Padded(k) else Zeros(32),
      (p, _, _, _) => Some(Box(p, [])), (box: Box, _, _, _) => Some(box.ciphertext),
      s => Utf8(s), b => ReadUtf8(b), b => BytesText(b), s => TextBytes(s),
      o => ObjectBytes(o), b => ReadObject(b), _ => false)
  }

  lemma RecordedDerivation(agreed: Bytes, localPrivate: Bytes, remotePublic: Bytes)
    ensures var c := RecordingCrypto();
      FirstRatchetMessageKey(c, KdfX3dh(c, agreed), localPrivate, remotePublic)
      == Padded([FirstByte(localPrivate), FirstByte(remotePublic)] + agreed)
  {
    hide Utf8, ReadUtf8, ObjectBytes, ReadObject, BytesText, TextBytes, FirstByte, Padded;
    var c := RecordingCrypto();
    assert seq(32, _ => 0) == Zeros(32);
    assert KdfX3dh(c, agreed) == agreed;
    var asked := [FirstByte(localPrivate), FirstByte(remotePublic)] + agreed;
    var out := c.hkdf(c.dh(localPrivate, remotePublic), agreed, [], 64);
    assert out == Zeros(32) + Padded(asked);
    assert out[32..64] == Padded(asked);
    PaddedTwice(asked);
  }

  lemma PaddedTwice(b: Bytes)
    ensures Padded(Padded(b)) == Padded(b)
    ensures |Padded(b)| == 32 ==> Padded(b)[..32] == Padded(b)
  {
  }

  /** The sender's key shows the ratchet key with the signed prekey, and then the three agreements in their order. */
  lemma KeyShowsItsInputs(identity: Byte, ephemeral: Byte, ratchet: Byte, theirIdentity: Byte, theirPreKey: Byte)
    ensures var sender := DeviceKeyMaterial("", BytesText([identity]), "", "");
      var bundle := PreKeyBundle(0, BytesText([theirIdentity]), BytesText([theirPreKey]));
      var r := Randomness(RawKeyPair([], [ratchet]), RawKeyPair([], [ephemeral]), []);
      SenderKey(RecordingCrypto(), sender, bundle, r)
      == [ratchet, theirPreKey, identity, theirPreKey, ephemeral, theirIdentity, ephemeral, theirPreKey] + Zeros(24)
  {
    hide Utf8, ReadUtf8, ObjectBytes, ReadObject, BytesText, TextBytes;
    var c := RecordingCrypto();
    BytesRead([identity]);
    BytesRead([theirIdentity]);
    BytesRead([theirPreKey]);
    var sender := DeviceKeyMaterial("", BytesText([identity]), "", "");
    var bundle := PreKeyBundle(0, BytesText([theirIdentity]), BytesText([theirPreKey]));
    var r := Randomness(RawKeyPair([], [ratchet]), RawKeyPair([], [ephemeral]), []);
    var agreed := [identity, theirPreKey, ephemeral, theirIdentity, ephemeral, theirPreKey];
    assert SenderAgreement(c, sender, bundle, r) == agreed;
    RecordedDerivation(agreed, [ratchet], [theirPreKey]);
    hide FirstRatchetMessageKey, KdfX3dh;
    assert [ratchet, theirPreKey] + agreed
        == [ratchet, theirPreKey, identity, theirPreKey, ephemeral, theirIdentity, ephemeral, theirPreKey];
  }

  lemma ObjectBytesAreUtf8(o: map<string, Json>)
    ensures ObjectBytes(o) == Utf8(JsonText(Object(o)))
  {
  }
}
