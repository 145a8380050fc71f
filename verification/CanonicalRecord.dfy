/** The canonical bytes of a relay message, of server/backend/app/core/blockchain_hashing.py and the client's
    client/src/support/EthereumHash.cpp: compact JSON with sorted keys, in UTF-8. */
module CanonicalRecord {
  import opened Decimal
  import opened Wrappers

  datatype Record = Record(
    createdAt: string, forwardedFrom: Option<string>, id: string, recipientDeviceId: int, recipientUserId: string,
    senderDeviceId: int, senderUserId: string, wirePayloadJson: string)

  // ---- JSON text ----

  function HexDigit(n: nat): char
    requires n < 16
  {
    if n < 10 then ('0' as int + n) as char else ('a' as int + n - 10) as char
  }

  function EscapedChar(c: char): (s: string)
    ensures s != "" && s[0] != '"'
  {
    if c == '"' then "\\\""
    else if c == '\\' then "\\\\"
    else if c == '\n' then "\\n"
    else if c == '\r' then "\\r"
    else if c == '\t' then "\\t"
    else if c == '\U{08}' then "\\b"
    else if c == '\U{0c}' then "\\f"
    else if c as int < 0x20 then "\\u00" + [HexDigit(c as int / 16), HexDigit(c as int % 16)]
    else [c]
  }

  function Escaped(s: string): string { if s == "" then "" else EscapedChar(s[0]) + Escaped(s[1..]) }

  function Quoted(s: string): string { "\"" + Escaped(s) + "\"" }

  function QuotedOrNull(s: Option<string>): string { if s.None? then "null" else Quoted(s.value) }

  /** The text from each member on, ending with the closing brace. */
  function FromWirePayload(r: Record): string { ",\"wire_payload_json\":" + Quoted(r.wirePayloadJson) + "}" }

  function FromSenderUser(r: Record): string { ",\"sender_user_id\":" + Quoted(r.senderUserId) + FromWirePayload(r) }

  function FromSenderDevice(r: Record): string {
    ",\"sender_device_id\":" + PrintInt(r.senderDeviceId) + FromSenderUser(r)
  }

  function FromRecipientUser(r: Record): string {
    ",\"recipient_user_id\":" + Quoted(r.recipientUserId) + FromSenderDevice(r)
  }

  function FromRecipientDevice(r: Record): string {
    ",\"recipient_device_id\":" + PrintInt(r.recipientDeviceId) + FromRecipientUser(r)
  }

  function FromId(r: Record): string { ",\"id\":" + Quoted(r.id) + FromRecipientDevice(r) }

  function FromForwarded(r: Record): string {
    ",\"forwarded_from_message_id\":" + QuotedOrNull(r.forwardedFrom) + FromId(r)
  }

  /** json.dumps with ensure_ascii off, compact separators and sorted keys. */
  function CanonicalText(r: Record): string { "{\"created_at\":" + Quoted(r.createdAt) + FromForwarded(r) }

  // ---- what follows a value is not lost in it ----

  /** One escaped character, whatever comes after it, determines the character. */
  lemma EscapedCharCancels(c: char, d: char, s: string, t: string)
    requires EscapedChar(c) + s == EscapedChar(d) + t
    ensures c == d && s == t
  {
    var p, q := EscapedChar(c) + s, EscapedChar(d) + t;
    assert p[0] == EscapedChar(c)[0] && q[0] == EscapedChar(d)[0];
    if p[0] == '\\' {
      assert p[1] == EscapedChar(c)[1] && q[1] == EscapedChar(d)[1];
      if p[1] == 'u' {
        assert p[4] == EscapedChar(c)[4] && q[4] == EscapedChar(d)[4];
        assert p[5] == EscapedChar(c)[5] && q[5] == EscapedChar(d)[5];
        HexDigitInjective(c as int / 16, d as int / 16);
        HexDigitInjective(c as int % 16, d as int % 16);
        assert c as int == d as int;
      }
    }
    assert c == d;
    assert p[|EscapedChar(c)|..] == s && q[|EscapedChar(d)|..] == t;
  }

  lemma HexDigitInjective(m: nat, n: nat)
    requires m < 16 && n < 16
    ensures HexDigit(m) == HexDigit(n) ==> m == n
  {
  }

  lemma ClosingQuoteFirst(v: string, s: string)
    ensures (Escaped(v) + "\"" + s)[0] == '"' <==> v == ""
  {
    hide EscapedChar;
    if v != "" {
      assert Escaped(v) + "\"" + s == EscapedChar(v[0]) + (Escaped(v[1..]) + "\"" + s);
    }
  }

  lemma {:induction false} EscapedCancels(v: string, w: string, s: string, t: string)
    requires Escaped(v) + "\"" + s == Escaped(w) + "\"" + t
    ensures v == w && s == t
  {
    hide EscapedChar;
    ClosingQuoteFirst(v, s);
    ClosingQuoteFirst(w, t);
    if v == "" {
      assert (Escaped(v) + "\"" + s)[1..] == s && (Escaped(w) + "\"" + t)[1..] == t;
    } else {
      var restV, restW := Escaped(v[1..]) + "\"" + s, Escaped(w[1..]) + "\"" + t;
      assert Escaped(v) + "\"" + s == EscapedChar(v[0]) + restV;
      assert Escaped(w) + "\"" + t == EscapedChar(w[0]) + restW;
      EscapedCharCancels(v[0], w[0], restV, restW);
      EscapedCancels(v[1..], w[1..], s, t);
      assert v == [v[0]] + v[1..] && w == [w[0]] + w[1..];
    }
  }

  lemma QuotedCancels(v: string, w: string, s: string, t: string)
    requires Quoted(v) + s == Quoted(w) + t
    ensures v == w && s == t
  {
    var p, q := Quoted(v) + s, Quoted(w) + t;
    assert p[1..] == Escaped(v) + "\"" + s && q[1..] == Escaped(w) + "\"" + t;
    EscapedCancels(v, w, s, t);
  }

  lemma NullableCancels(v: Option<string>, w: Option<string>, s: string, t: string)
    requires QuotedOrNull(v) + s == QuotedOrNull(w) + t
    ensures v == w && s == t
  {
    var p, q := QuotedOrNull(v) + s, QuotedOrNull(w) + t;
    assert p[0] == QuotedOrNull(v)[0] && q[0] == QuotedOrNull(w)[0];
    if v.None? && w.None? {
      assert p[4..] == s && q[4..] == t;
    } else {
      QuotedCancels(v.value, w.value, s, t);
    }
  }

  lemma LiteralCancels(literal: string, s: string, t: string)
    requires literal + s == literal + t
    ensures s == t
  {
    assert (literal + s)[|literal|..] == s && (literal + t)[|literal|..] == t;
  }

  lemma CommaAt(v: string, s: string)
    requires ',' !in v && s != "" && s[0] == ','
    ensures (v + s)[|v|] == ',' && forall i :: 0 <= i < |v| ==> (v + s)[i] != ','
  {
    assert forall i :: 0 <= i < |v| ==> v[i] in v;
  }

  lemma CommaCancels(v: string, w: string, s: string, t: string)
    requires ',' !in v && ',' !in w && s != "" && t != "" && s[0] == ',' && t[0] == ','
    requires v + s == w + t
    ensures v == w && s == t
  {
    CommaAt(v, s);
    CommaAt(w, t);
    assert v == (v + s)[..|v|] && w == (w + t)[..|w|] && s == (v + s)[|v|..] && t == (w + t)[|w|..];
  }

  lemma NumberCancels(m: int, n: int, s: string, t: string)
    requires s != "" && t != "" && s[0] == ',' && t[0] == ','
    requires PrintInt(m) + s == PrintInt(n) + t
    ensures m == n && s == t
  {
    hide PrintInt;
    PrintIntInjective(m, n);
    PrintIntInjective(n, m);
    CommaCancels(PrintInt(m), PrintInt(n), s, t);
  }

  lemma StringMemberCancels(key: string, v: string, w: string, s: string, t: string)
    requires key + Quoted(v) + s == key + Quoted(w) + t
    ensures v == w && s == t
  {
    hide Quoted;
    assert key + Quoted(v) + s == key + (Quoted(v) + s) && key + Quoted(w) + t == key + (Quoted(w) + t);
    LiteralCancels(key, Quoted(v) + s, Quoted(w) + t);
    QuotedCancels(v, w, s, t);
  }

  lemma NumberMemberCancels(key: string, m: int, n: int, s: string, t: string)
    requires s != "" && t != "" && s[0] == ',' && t[0] == ','
    requires key + PrintInt(m) + s == key + PrintInt(n) + t
    ensures m == n && s == t
  {
    hide PrintInt;
    assert key + PrintInt(m) + s == key + (PrintInt(m) + s) && key + PrintInt(n) + t == key + (PrintInt(n) + t);
    LiteralCancels(key, PrintInt(m) + s, PrintInt(n) + t);
    NumberCancels(m, n, s, t);
  }

  lemma NullableMemberCancels(key: string, v: Option<string>, w: Option<string>, s: string, t: string)
    requires key + QuotedOrNull(v) + s == key + QuotedOrNull(w) + t
    ensures v == w && s == t
  {
    hide QuotedOrNull;
    assert key + QuotedOrNull(v) + s == key + (QuotedOrNull(v) + s);
    assert key + QuotedOrNull(w) + t == key + (QuotedOrNull(w) + t);
    LiteralCancels(key, QuotedOrNull(v) + s, QuotedOrNull(w) + t);
    NullableCancels(v, w, s, t);
  }

  lemma SenderPartInjective(a: Record, b: Record)
    requires FromSenderDevice(a) == FromSenderDevice(b)
    ensures a.senderDeviceId == b.senderDeviceId && a.senderUserId == b.senderUserId
    ensures a.wirePayloadJson == b.wirePayloadJson
  {
    hide Quoted, PrintInt;
    NumberMemberCancels(",\"sender_device_id\":",
      a.senderDeviceId, b.senderDeviceId, FromSenderUser(a), FromSenderUser(b));
    StringMemberCancels(",\"sender_user_id\":", a.senderUserId, b.senderUserId, FromWirePayload(a), FromWirePayload(b));
    StringMemberCancels(",\"wire_payload_json\":", a.wirePayloadJson, b.wirePayloadJson, "}", "}");
  }

  lemma RecipientPartInjective(a: Record, b: Record)
    requires FromRecipientDevice(a) == FromRecipientDevice(b)
    ensures a.recipientDeviceId == b.recipientDeviceId && a.recipientUserId == b.recipientUserId
    ensures FromSenderDevice(a) == FromSenderDevice(b)
  {
    hide Quoted, PrintInt, FromSenderDevice;
    NumberMemberCancels(",\"recipient_device_id\":", a.recipientDeviceId, b.recipientDeviceId,
      FromRecipientUser(a), FromRecipientUser(b));
    StringMemberCancels(",\"recipient_user_id\":", a.recipientUserId, b.recipientUserId,
      FromSenderDevice(a), FromSenderDevice(b));
  }

  /** Equal canonical texts mean equal records, in all eight fields. */
  lemma TextInjective(a: Record, b: Record)
    requires CanonicalText(a) == CanonicalText(b)
    ensures a == b
  {
    hide Quoted, QuotedOrNull, FromRecipientDevice;
    StringMemberCancels("{\"created_at\":", a.createdAt, b.createdAt, FromForwarded(a), FromForwarded(b));
    NullableMemberCancels(",\"forwarded_from_message_id\":", a.forwardedFrom, b.forwardedFrom, FromId(a), FromId(b));
    StringMemberCancels(",\"id\":", a.id, b.id, FromRecipientDevice(a), FromRecipientDevice(b));
    RecipientPartInjective(a, b);
    SenderPartInjective(a, b);
  }

  // ---- UTF-8 ----

  type Byte = x: int | 0 <= x < 256

  function Utf8Char(c: char): (s: seq<Byte>)
    ensures |s| > 0
  {
    var n := c as int;
    if n < 0x80 then [n]
    else if n < 0x800 then [0xC0 + n / 64, 0x80 + n % 64]
    else if n < 0x1_0000 then [0xE0 + n / 4096, 0x80 + n / 64 % 64, 0x80 + n % 64]
    else [0xF0 + n / 262144, 0x80 + n / 4096 % 64, 0x80 + n / 64 % 64, 0x80 + n % 64]
  }

  function Utf8(s: string): seq<Byte> { if s == "" then [] else Utf8Char(s[0]) + Utf8(s[1..]) }

  function ByteAt(s: seq<Byte>, i: nat): int
    requires i < |s|
  {
    s[i]
  }

  function DecodedChar(s: seq<Byte>): int
    requires 1 <= |s| <= 4
  {
    if |s| == 1 then ByteAt(s, 0)
    else if |s| == 2 then 64 * (ByteAt(s, 0) - 0xC0) + (ByteAt(s, 1) - 0x80)
    else if |s| == 3 then 64 * (64 * (ByteAt(s, 0) - 0xE0) + (ByteAt(s, 1) - 0x80)) + (ByteAt(s, 2) - 0x80)
    else
      64 * (64 * (64 * (ByteAt(s, 0) - 0xF0) + (ByteAt(s, 1) - 0x80)) + (ByteAt(s, 2) - 0x80))
      + (ByteAt(s, 3) - 0x80)
  }

  lemma NextDigit(n: nat, d: nat)
    requires d == 64 || d == 4096
    ensures n / d == 64 * (n / (64 * d)) + n / d % 64
  {
  }

  /** The bytes of a character determine it. */
  lemma Utf8CharDecodes(c: char)
    ensures |Utf8Char(c)| <= 4 && DecodedChar(Utf8Char(c)) == c as int
  {
    NextDigit(c as int, 64);
    NextDigit(c as int, 4096);
  }

  /** The encoding of section 3 of RFC 3629: how many bytes a character takes, their ranges, and its number in them. */
  lemma Utf8CharStandard(c: char)
    ensures var n, b := c as int, Utf8Char(c);
      |b| == (if n < 0x80 then 1 else if n < 0x800 then 2 else if n < 0x1_0000 then 3 else 4)
      && (forall i :: 1 <= i < |b| ==> 0x80 <= b[i] < 0xC0)
      && (|b| == 1 ==> b[0] as int == n)
      && (|b| == 2 ==> 0xC0 <= b[0] < 0xE0 && n == 64 * (b[0] as int - 0xC0) + (b[1] as int - 0x80))
      && (|b| == 3 ==>
            && 0xE0 <= b[0] < 0xF0
            && n == 4096 * (b[0] as int - 0xE0) + 64 * (b[1] as int - 0x80) + (b[2] as int - 0x80))
      && (|b| == 4 ==>
            && 0xF0 <= b[0] < 0xF8
            && n == 262144 * (b[0] as int - 0xF0) + 4096 * (b[1] as int - 0x80) + 64 * (b[2] as int - 0x80)
                    + (b[3] as int - 0x80))
  {
    NextDigit(c as int, 64);
    NextDigit(c as int, 4096);
    if c as int >= 0x1_0000 {
      assert (c as int) / 262144 == (c as int) / 4096 / 64;
    }
  }

  /** Characters are encoded one after another. */
  lemma {:induction false} Utf8Concatenates(s: string, t: string)
    ensures Utf8(s + t) == Utf8(s) + Utf8(t)
    ensures s != "" ==> Utf8([s[0]]) == Utf8Char(s[0])
  {
    hide Utf8Char;
    if s == "" {
      assert s + t == t;
    } else {
      assert (s + t)[1..] == s[1..] + t && [s[0]][1..] == "";
      Utf8Concatenates(s[1..], t);
    }
  }

  lemma Utf8CharInjective(c: char, d: char)
    requires Utf8Char(c) == Utf8Char(d)
    ensures c == d
  {
    hide Utf8Char, DecodedChar;
    Utf8CharDecodes(c);
    Utf8CharDecodes(d);
  }

  function Utf8Length(first: Byte): nat {
    if first < 0x80 then 1 else if first < 0xE0 then 2 else if first < 0xF0 then 3 else 4
  }

  lemma Utf8FirstByte(c: char)
    ensures |Utf8Char(c)| == Utf8Length(Utf8Char(c)[0])
  {
  }

  lemma {:induction false} Utf8Injective(s: string, t: string)
    requires Utf8(s) == Utf8(t)
    ensures s == t
  {
    hide Utf8Char;
    if s != "" && t != "" {
      var p, q := Utf8Char(s[0]), Utf8Char(t[0]);
      Utf8FirstByte(s[0]);
      Utf8FirstByte(t[0]);
      assert Utf8(s)[0] == p[0] && Utf8(t)[0] == q[0];
      assert p == Utf8(s)[..|p|] && q == Utf8(t)[..|q|];
      assert Utf8(s[1..]) == Utf8(s)[|p|..] && Utf8(t[1..]) == Utf8(t)[|q|..];
      Utf8CharInjective(s[0], t[0]);
      Utf8Injective(s[1..], t[1..]);
      assert s == [s[0]] + s[1..] && t == [t[0]] + t[1..];
    }
  }

  // ---- digests ----

  /** Keccak-256 of bytes, written in hexadecimal. */
  type Hash = seq<Byte> -> string

  predicate Collision(h: Hash, a: seq<Byte>, b: seq<Byte>) { a != b && h(a) == h(b) }

  function CanonicalBytes(r: Record): seq<Byte> { Utf8(CanonicalText(r)) }

  function MessageDigest(h: Hash, r: Record): string { h(CanonicalBytes(r)) }

  function MessageRecordId(h: Hash, messageId: string): string { h(Utf8("message:" + messageId)) }

  function BatchRecordId(h: Hash, batchId: string): string { h(Utf8("batch:" + batchId)) }

  /** The bytes determine the record. */
  lemma BytesInjective(a: Record, b: Record)
    requires CanonicalBytes(a) == CanonicalBytes(b)
    ensures a == b
  {
    hide Utf8, CanonicalText;
    Utf8Injective(CanonicalText(a), CanonicalText(b));
    TextInjective(a, b);
  }

  /** Equal digests mean equal records, or the two canonical byte strings collide. */
  lemma DigestBindsRecord(h: Hash, a: Record, b: Record)
    requires MessageDigest(h, a) == MessageDigest(h, b)
    ensures a == b || Collision(h, CanonicalBytes(a), CanonicalBytes(b))
  {
    hide CanonicalBytes;
    if CanonicalBytes(a) == CanonicalBytes(b) {
      BytesInjective(a, b);
    }
  }

  /** What the record ids hash: the words message and batch and a colon in ASCII, and the id. */
  lemma RecordIdPreimages(h: Hash, id: string)
    ensures MessageRecordId(h, id) == h([109, 101, 115, 115, 97, 103, 101, 58] + Utf8(id))
    ensures BatchRecordId(h, id) == h([98, 97, 116, 99, 104, 58] + Utf8(id))
  {
    Utf8Concatenates("message:", id);
    Utf8Concatenates("batch:", id);
    MessageAscii();
    BatchAscii();
    hide Utf8;
  }

  lemma MessageAscii()
    ensures Utf8("message:") == [109, 101, 115, 115, 97, 103, 101, 58]
  {
    var s := "message:";
    AsciiBytes(s);
    hide Utf8;
    var b := Utf8(s);
    assert b[0] == 109 && b[1] == 101 && b[2] == 115 && b[3] == 115;
    assert b[4] == 97 && b[5] == 103 && b[6] == 101 && b[7] == 58;
  }

  lemma BatchAscii()
    ensures Utf8("batch:") == [98, 97, 116, 99, 104, 58]
  {
    var s := "batch:";
    AsciiBytes(s);
    hide Utf8;
    var b := Utf8(s);
    assert b[0] == 98 && b[1] == 97 && b[2] == 116 && b[3] == 99 && b[4] == 104 && b[5] == 58;
  }

  lemma {:induction false} AsciiBytes(s: string)
    requires forall i :: 0 <= i < |s| ==> s[i] as int < 0x80
    ensures |Utf8(s)| == |s| && forall i :: 0 <= i < |s| ==> Utf8(s)[i] as int == s[i] as int
  {
    if s != "" {
      AsciiBytes(s[1..]);
    }
  }

  /** Equal record ids mean the same message, or a collision; a batch never shares a message's id without one. */
  lemma RecordIdBinds(h: Hash, a: string, b: string)
    ensures MessageRecordId(h, a) == MessageRecordId(h, b) ==>
      a == b || Collision(h, Utf8("message:" + a), Utf8("message:" + b))
    ensures MessageRecordId(h, a) == BatchRecordId(h, b) ==> Collision(h, Utf8("message:" + a), Utf8("batch:" + b))
  {
    hide Utf8;
    var p, q, r := "message:" + a, "message:" + b, "batch:" + b;
    assert p[0] == 'm' && r[0] == 'b';
    if Utf8(p) == Utf8(q) {
      Utf8Injective(p, q);
      LiteralCancels("message:", a, b);
    }
    if Utf8(p) == Utf8(r) {
      Utf8Injective(p, r);
    }
  }

  // ---- the client's copy ----

  /** Every Z of a printed UTC time written as its offset. */
  function WithOffset(iso: string): string {
    if iso == "" then "" else (if iso[0] == 'Z' then "+00:00" else [iso[0]]) + WithOffset(iso[1..])
  }

  /** The client's canonicalDateTime: of the raw text it received, or, when it has none, of the parsed time as Qt
      prints it in UTC, if it has one. */
  function ClientDateTime(raw: string, parsed: Option<string>): string {
    if raw != "" then (if raw[|raw| - 1] == 'Z' then raw[..|raw| - 1] + "+00:00" else raw)
    else match parsed case None => "" case Some(iso) => WithOffset(iso)
  }

  /** The record the client serialises: its JSON object always holds null for the forwarded id. */
  function ClientRecord(r: Record, raw: string, parsed: Option<string>): Record {
    r.(createdAt := ClientDateTime(raw, parsed), forwardedFrom := None)
  }

  /** The client recomputes the server's bytes exactly for messages that are not forwards and whose time, with Z for
      +00:00, is the server's. */
  lemma ClientBytesAgree(r: Record, raw: string, parsed: Option<string>)
    ensures CanonicalBytes(ClientRecord(r, raw, parsed)) == CanonicalBytes(r) <==>
      r.forwardedFrom == None && ClientDateTime(raw, parsed) == r.createdAt
  {
    hide CanonicalBytes, ClientDateTime;
    if CanonicalBytes(ClientRecord(r, raw, parsed)) == CanonicalBytes(r) {
      BytesInjective(ClientRecord(r, raw, parsed), r);
    }
  }

  lemma {:induction false} OffsetAtEnd(time: string)
    requires 'Z' !in time
    ensures WithOffset(time + "Z") == time + "+00:00"
  {
    if time == "" {
      assert WithOffset("Z"[1..]) == "";
    } else {
      assert (time + "Z")[1..] == time[1..] + "Z";
      OffsetAtEnd(time[1..]);
      assert time == [time[0]] + time[1..];
    }
  }

  /** A UTC time is read from either spelling of its offset, and the same from the parsed time alone. */
  lemma ClientDateTimeReadsBoth(time: string, parsed: Option<string>)
    requires 'Z' !in time && time != ""
    ensures ClientDateTime(time + "Z", parsed) == time + "+00:00" == ClientDateTime(time + "+00:00", parsed)
    ensures ClientDateTime("", Some(time + "Z")) == time + "+00:00"
  {
    assert (time + "Z")[..|time|] == time;
    OffsetAtEnd(time);
  }
}
