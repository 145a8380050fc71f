/** What a JSON reader finds in the canonical text of a message. */
module CanonicalReading {
  import opened CanonicalRecord
  import opened Decimal
  import opened Hexadecimal
  import opened JsonReader
  import opened Wrappers

  lemma HexDigitValue(n: nat)
    requires n < 16
    ensures IsHex(HexDigit(n)) && Digit(HexDigit(n)) == n
  {
  }

  /** An escaped control character, short or by its code. */
  lemma CodeRead(c: char, rest: string)
    requires c as int < 0x20
    ensures ReadChar("\\u00" + [HexDigit(c as int / 16), HexDigit(c as int % 16)] + rest) == Some((c, rest))
  {
    HexDigitValue(c as int / 16);
    HexDigitValue(c as int % 16);
    hide HexDigit;
    var s := "\\u00" + [HexDigit(c as int / 16), HexDigit(c as int % 16)] + rest;
    assert s[0] == '\\' && s[1] == 'u' && s[6..] == rest;
    var t := s[2..];
    assert t[0] == '0' && t[1] == '0' && t[2] == HexDigit(c as int / 16) && t[3] == HexDigit(c as int % 16);
    assert IsHex('0') && Digit('0') == 0;
  }

  lemma ShortRead(e: char, c: char, rest: string)
    requires ShortEscape(e) == Some(c) && e != 'u'
    ensures ReadChar("\\" + [e] + rest) == Some((c, rest))
  {
    var s := "\\" + [e] + rest;
    assert s[0] == '\\' && s[1] == e && s[2..] == rest;
  }

  lemma PlainRead(c: char, rest: string)
    requires c as int >= 0x20 && c != '"' && c != '\\'
    ensures ReadChar([c] + rest) == Some((c, rest))
  {
    assert ([c] + rest)[0] == c && ([c] + rest)[1..] == rest;
  }

  lemma ShortNames()
    ensures ShortEscape('"') == Some('"') && ShortEscape('\\') == Some('\\') && ShortEscape('n') == Some('\n')
    ensures ShortEscape('r') == Some('\r') && ShortEscape('t') == Some('\t') && ShortEscape('b') == Some('\U{08}')
    ensures ShortEscape('f') == Some('\U{0c}')
  {
  }

  predicate HasShortEscape(c: char) { c == '\n' || c == '\r' || c == '\t' || c == '\U{08}' || c == '\U{0c}' }

  lemma EscapedCharRead(c: char, rest: string)
    ensures ReadChar(EscapedChar(c) + rest) == Some((c, rest))
  {
    hide ReadChar, HexDigit, ShortEscape;
    ShortNames();
    if
    case c == '"' =>
      assert EscapedChar(c) == "\\" + ['"'];
      ShortRead('"', c, rest);
    case c == '\\' =>
      assert EscapedChar(c) == "\\" + ['\\'];
      ShortRead('\\', c, rest);
    case c == '\n' =>
      assert EscapedChar(c) == "\\" + ['n'];
      ShortRead('n', c, rest);
    case c == '\r' =>
      assert EscapedChar(c) == "\\" + ['r'];
      ShortRead('r', c, rest);
    case c == '\t' =>
      assert EscapedChar(c) == "\\" + ['t'];
      ShortRead('t', c, rest);
    case c == '\U{08}' =>
      assert EscapedChar(c) == "\\" + ['b'];
      ShortRead('b', c, rest);
    case c == '\U{0c}' =>
      assert EscapedChar(c) == "\\" + ['f'];
      ShortRead('f', c, rest);
    case c as int < 0x20 && !HasShortEscape(c) => CodeRead(c, rest);
    case c as int >= 0x20 && c != '"' && c != '\\' => PlainRead(c, rest);
  }

  lemma {:induction false} EscapedRead(v: string, rest: string)
    ensures ReadChars(Escaped(v) + "\"" + rest) == Some((v, rest))
    decreases |v|
  {
    hide EscapedChar, ReadChar;
    var s := Escaped(v) + "\"" + rest;
    ClosingQuoteFirst(v, rest);
    if v == "" {
      assert s[1..] == rest;
    } else {
      var after := Escaped(v[1..]) + "\"" + rest;
      assert s == EscapedChar(v[0]) + after;
      EscapedCharRead(v[0], after);
      EscapedRead(v[1..], rest);
      assert v == [v[0]] + v[1..];
    }
  }

  lemma QuotedRead(v: string, rest: string)
    ensures ReadValue(Quoted(v) + rest) == Some((Str(v), rest))
  {
    EscapedRead(v, rest);
    hide Escaped, ReadChars;
    var s := Quoted(v) + rest;
    assert s[0] == '"' && s[1..] == Escaped(v) + "\"" + rest;
  }

  function NullOr(v: Option<string>): Value { match v case None => Null case Some(s) => Str(s) }

  lemma NullableRead(v: Option<string>, rest: string)
    ensures ReadValue(QuotedOrNull(v) + rest) == Some((NullOr(v), rest))
  {
    if v.None? {
      var s := "null" + rest;
      assert s[0] == 'n' && s[..4] == "null" && s[4..] == rest;
    } else {
      QuotedRead(v.value, rest);
    }
  }

  // ---- one member after another ----

  /** A part that starts with its comma. */
  function AfterComma(s: string): string { if s == "" then "" else s[1..] }

  /** What follows a member: the closing brace, or a comma and more members. */
  predicate Continues(rest: string) { rest == "}" || rest == "," + AfterComma(rest) }

  /** The members of what follows a member. */
  function Following(rest: string): Option<seq<Member>> {
    if rest == "}" then Some([]) else ReadMembers(AfterComma(rest))
  }

  function Before(m: Member, ms: Option<seq<Member>>): Option<seq<Member>> {
    match ms case None => None case Some(more) => Some([m] + more)
  }

  /** A member with its value, in front of what follows it. */
  lemma MemberStep(name: string, text: string, value: Value, rest: string)
    requires PlainName(name) && Continues(rest) && ReadValue(text + rest) == Some((value, rest))
    ensures ReadMembers("\"" + name + "\":" + text + rest) == Before(Member(name, value), Following(rest))
  {
    hide ReadMembers, ReadValue, PlainName;
    if rest == "}" {
      LastMember(name, text, value);
      assert [Member(name, value)] + [] == [Member(name, value)];
    } else {
      FirstMember(name, text, value, AfterComma(rest));
    }
  }

  /** The same, behind a comma or the opening brace. */
  lemma KeyedStep(key: string, lead: string, name: string, text: string, value: Value, rest: string)
    requires key == lead + "\"" + name + "\":" && |lead| == 1
    requires PlainName(name) && Continues(rest) && ReadValue(text + rest) == Some((value, rest))
    ensures var s := key + text + rest;
      s == lead + AfterComma(s) && ReadMembers(AfterComma(s)) == Before(Member(name, value), Following(rest))
  {
    hide ReadMembers, ReadValue, PlainName, Continues, Following;
    MemberStep(name, text, value, rest);
    var s := key + text + rest;
    var member := "\"" + name + "\":" + text + rest;
    assert key[0] == lead[0] && key[1..] == "\"" + name + "\":";
    assert s[1..] == key[1..] + text + rest;
    assert s == lead + s[1..];
  }

  lemma StringStep(key: string, lead: string, name: string, v: string, rest: string)
    requires key == lead + "\"" + name + "\":" && |lead| == 1 && PlainName(name) && Continues(rest)
    ensures var s := key + Quoted(v) + rest;
      s == lead + AfterComma(s) && ReadMembers(AfterComma(s)) == Before(Member(name, Str(v)), Following(rest))
  {
    hide ReadMembers, Quoted, PlainName, Continues, ReadValue, Following;
    QuotedRead(v, rest);
    KeyedStep(key, lead, name, Quoted(v), Str(v), rest);
  }

  lemma NullableStep(key: string, name: string, v: Option<string>, rest: string)
    requires key == ",\"" + name + "\":" && PlainName(name) && Continues(rest)
    ensures var s := key + QuotedOrNull(v) + rest;
      s == "," + AfterComma(s) && ReadMembers(AfterComma(s)) == Before(Member(name, NullOr(v)), Following(rest))
  {
    hide ReadMembers, QuotedOrNull, PlainName, Continues, ReadValue, NullOr, Following;
    NullableRead(v, rest);
    KeyedStep(key, ",", name, QuotedOrNull(v), NullOr(v), rest);
  }

  lemma IntStep(key: string, name: string, n: int, rest: string)
    requires key == ",\"" + name + "\":" && PlainName(name) && rest == "," + AfterComma(rest)
    ensures var s := key + PrintInt(n) + rest;
      s == "," + AfterComma(s) && ReadMembers(AfterComma(s)) == Before(Member(name, Int(n)), Following(rest))
  {
    hide ReadMembers, PrintInt, PlainName, ReadValue, Following;
    IntValueRead(n, rest);
    KeyedStep(key, ",", name, PrintInt(n), Int(n), rest);
  }

  lemma TwoBefore(a: Member, b: Member, ms: seq<Member>)
    ensures Before(a, Before(b, Some(ms))) == Some([a, b] + ms)
  {
    assert [a] + ([b] + ms) == [a, b] + ms;
  }

  lemma ThreeBefore(a: Member, b: Member, c: Member, ms: seq<Member>)
    ensures Before(a, Before(b, Before(c, Some(ms)))) == Some([a, b, c] + ms)
  {
    TwoBefore(b, c, ms);
    assert [a] + ([b, c] + ms) == [a, b, c] + ms;
  }

  lemma Next(rest: string)
    requires rest == "," + AfterComma(rest)
    ensures Continues(rest) && Following(rest) == ReadMembers(AfterComma(rest))
  {
    hide ReadMembers;
    assert rest[0] == ',';
  }

  // ---- the names ----

  lemma CreatedAtName()
    ensures PlainName("created_at") && "{\"created_at\":" == "{\"" + "created_at" + "\":"
  {
  }

  lemma ForwardedFromMessageIdName()
    ensures PlainName("forwarded_from_message_id")
    ensures ",\"forwarded_from_message_id\":" == ",\"" + "forwarded_from_message_id" + "\":"
  {
  }

  lemma IdName()
    ensures PlainName("id") && ",\"id\":" == ",\"" + "id" + "\":"
  {
  }

  lemma RecipientDeviceIdName()
    ensures PlainName("recipient_device_id") && ",\"recipient_device_id\":" == ",\"" + "recipient_device_id" + "\":"
  {
  }

  lemma RecipientUserIdName()
    ensures PlainName("recipient_user_id") && ",\"recipient_user_id\":" == ",\"" + "recipient_user_id" + "\":"
  {
  }

  lemma SenderDeviceIdName()
    ensures PlainName("sender_device_id") && ",\"sender_device_id\":" == ",\"" + "sender_device_id" + "\":"
  {
  }

  lemma SenderUserIdName()
    ensures PlainName("sender_user_id") && ",\"sender_user_id\":" == ",\"" + "sender_user_id" + "\":"
  {
  }

  lemma WirePayloadJsonName()
    ensures PlainName("wire_payload_json") && ",\"wire_payload_json\":" == ",\"" + "wire_payload_json" + "\":"
  {
  }

  // ---- the text ----

  function SenderMembers(r: Record): seq<Member> {
    [Member("sender_device_id", Int(r.senderDeviceId)), Member("sender_user_id", Str(r.senderUserId)),
     Member("wire_payload_json", Str(r.wirePayloadJson))]
  }

  lemma SenderPartReads(r: Record)
    ensures var s := FromSenderDevice(r);
      s == "," + AfterComma(s) && ReadMembers(AfterComma(s)) == Some(SenderMembers(r))
  {
    WirePayloadJsonName();
    SenderUserIdName();
    SenderDeviceIdName();
    hide ReadMembers, Quoted, PrintInt, PlainName, AfterComma;
    StringStep(",\"wire_payload_json\":", ",", "wire_payload_json", r.wirePayloadJson, "}");
    Next(FromWirePayload(r));
    StringStep(",\"sender_user_id\":", ",", "sender_user_id", r.senderUserId, FromWirePayload(r));
    hide FromWirePayload;
    Next(FromSenderUser(r));
    IntStep(",\"sender_device_id\":", "sender_device_id", r.senderDeviceId, FromSenderUser(r));
    hide FromSenderUser, Before;
    ThreeBefore(Member("sender_device_id", Int(r.senderDeviceId)), Member("sender_user_id", Str(r.senderUserId)),
      Member("wire_payload_json", Str(r.wirePayloadJson)), []);
    assert SenderMembers(r) + [] == SenderMembers(r);
  }

  function RecipientMembers(r: Record): seq<Member> {
    [Member("id", Str(r.id)), Member("recipient_device_id", Int(r.recipientDeviceId)),
     Member("recipient_user_id", Str(r.recipientUserId))]
  }

  lemma RecipientPartReads(r: Record)
    ensures var s := FromId(r);
      s == "," + AfterComma(s) && ReadMembers(AfterComma(s)) == Some(RecipientMembers(r) + SenderMembers(r))
  {
    SenderPartReads(r);
    IdName();
    RecipientDeviceIdName();
    RecipientUserIdName();
    hide ReadMembers, Quoted, PrintInt, PlainName, AfterComma, FromSenderDevice, SenderMembers;
    Next(FromSenderDevice(r));
    StringStep(",\"recipient_user_id\":", ",", "recipient_user_id", r.recipientUserId, FromSenderDevice(r));
    Next(FromRecipientUser(r));
    IntStep(",\"recipient_device_id\":", "recipient_device_id", r.recipientDeviceId, FromRecipientUser(r));
    hide FromRecipientUser;
    Next(FromRecipientDevice(r));
    StringStep(",\"id\":", ",", "id", r.id, FromRecipientDevice(r));
    hide FromRecipientDevice, Before;
    ThreeBefore(Member("id", Str(r.id)), Member("recipient_device_id", Int(r.recipientDeviceId)),
      Member("recipient_user_id", Str(r.recipientUserId)), SenderMembers(r));
  }

  lemma HeadReads(r: Record)
    ensures var s := CanonicalText(r);
      s == "{" + AfterComma(s)
      && ReadMembers(AfterComma(s))
         == Some([Member("created_at", Str(r.createdAt)), Member("forwarded_from_message_id", NullOr(r.forwardedFrom))]
                 + (RecipientMembers(r) + SenderMembers(r)))
  {
    RecipientPartReads(r);
    ForwardedFromMessageIdName();
    CreatedAtName();
    hide ReadMembers, Quoted, QuotedOrNull, PlainName, AfterComma, FromId, NullOr, RecipientMembers, SenderMembers;
    Next(FromId(r));
    NullableStep(",\"forwarded_from_message_id\":", "forwarded_from_message_id", r.forwardedFrom, FromId(r));
    Next(FromForwarded(r));
    StringStep("{\"created_at\":", "{", "created_at", r.createdAt, FromForwarded(r));
    hide FromForwarded, Before;
    TwoBefore(Member("created_at", Str(r.createdAt)), Member("forwarded_from_message_id", NullOr(r.forwardedFrom)),
      RecipientMembers(r) + SenderMembers(r));
  }

  /** The text is one object of exactly these members, in this order, with these values. */
  lemma TextReadsBack(r: Record)
    ensures Read(CanonicalText(r)) == Some([
      Member("created_at", Str(r.createdAt)),
      Member("forwarded_from_message_id", if r.forwardedFrom.Some? then Str(r.forwardedFrom.value) else Null),
      Member("id", Str(r.id)),
      Member("recipient_device_id", Int(r.recipientDeviceId)),
      Member("recipient_user_id", Str(r.recipientUserId)),
      Member("sender_device_id", Int(r.senderDeviceId)),
      Member("sender_user_id", Str(r.senderUserId)),
      Member("wire_payload_json", Str(r.wirePayloadJson))])
  {
    HeadReads(r);
    hide ReadMembers, CanonicalText;
    var s := CanonicalText(r);
    assert s[0] == '{' && s[1..] == AfterComma(s);
    assert ReadMembers("}") == None by { NoMembers(); }
    assert s != "{}";
    JoinMembers(Member("created_at", Str(r.createdAt)), Member("forwarded_from_message_id", NullOr(r.forwardedFrom)),
      RecipientMembers(r), SenderMembers(r));
  }

  lemma JoinMembers(a: Member, b: Member, c: seq<Member>, d: seq<Member>)
    requires |c| == 3 && |d| == 3
    ensures [a, b] + (c + d) == [a, b, c[0], c[1], c[2], d[0], d[1], d[2]]
  {
  }

  lemma NoMembers()
    ensures ReadMembers("}") == None
  {
  }

  /** One name is before another if it is at the first character in which they differ. */
  lemma {:induction false} LessAt(a: string, b: string, k: nat)
    requires k < |a| && k < |b| && a[..k] == b[..k] && a[k] < b[k]
    ensures LexLe(a, b) && a != b
  {
    if k > 0 {
      assert a[0] == a[..k][0] == b[0];
      assert a[1..][..k - 1] == a[..k][1..] && b[1..][..k - 1] == b[..k][1..];
      LessAt(a[1..], b[1..], k - 1);
    }
  }

  lemma DeviceBeforeUser(party: string)
    ensures LexLe(party + "_device_id", party + "_user_id") && party + "_device_id" != party + "_user_id"
  {
    var a, b := party + "_device_id", party + "_user_id";
    assert a[..|party| + 1] == b[..|party| + 1];
    LessAt(a, b, |party| + 1);
  }

  predicate Less(a: string, b: string) { LexLe(a, b) && a != b }

  /** The names ascend, as json.dumps sorts them. */
  lemma NamesAscend()
    ensures Less("created_at", "forwarded_from_message_id") && Less("forwarded_from_message_id", "id")
    ensures Less("id", "recipient_device_id") && Less("recipient_user_id", "sender_device_id")
    ensures Less("sender_user_id", "wire_payload_json")
    ensures forall party :: Less(party + "_device_id", party + "_user_id")
  {
    LessAt("created_at", "forwarded_from_message_id", 0);
    LessAt("forwarded_from_message_id", "id", 0);
    LessAt("id", "recipient_device_id", 0);
    LessAt("recipient_user_id", "sender_device_id", 0);
    LessAt("sender_user_id", "wire_payload_json", 0);
    hide LexLe;
    forall party ensures Less(party + "_device_id", party + "_user_id") {
      DeviceBeforeUser(party);
    }
  }
}
