/** The key that conversationsFor files a peer's device under, client/src/storage/JsonLocalStore.cpp. The device id is
    written by a second call of arg, which also replaces markers that the user id brought into the text. */
module ConversationKeys {
  import opened Decimal
  import opened PlaceMarkers
  import opened Wrappers

  /** How the default locale writes integers. */
  datatype Locale = Locale(minus: string, digits: nat -> string)

  function PrintLocalized(locale: Locale, n: int): string {
    if n < 0 then locale.minus + locale.digits(-n) else locale.digits(n)
  }

  function DeviceValue(locale: Locale, device: int): Value { Value(PrintInt(device), PrintLocalized(locale, device)) }

  function KeyOf(locale: Locale, peer: string, device: int): string {
    Arg(Arg("%1:%2", Value(peer, peer)), DeviceValue(locale, device))
  }

  /** Neither the device's place nor an earlier one occurs in the user id. */
  predicate Plain(peer: string) { Lowest(peer) > 2 }

  lemma UserWritten(peer: string)
    ensures Arg("%1:%2", Value(peer, peer)) == peer + ":%2"
  {
    TemplateMarkers();
    Concatenated("%1", ":%2", 1, Value(peer, peer));
    assert "%1" + ":%2" == "%1:%2";
    assert Filled("%1", 1, Value(peer, peer)) == peer by {
      assert MarkerAtStart("%1") == Some(Marker(1, 2, false)) && "%1"[2..] == "";
    }
    NothingToFill(":%2", 1, Value(peer, peer));
  }

  lemma TemplateMarkers()
    ensures Lowest("%1") == 1 && Lowest("%2") == 2 && Lowest(":%2") == 2
  {
    assert MarkerAtStart("%1") == Some(Marker(1, 2, false)) && "%1"[2..] == "";
    assert MarkerAtStart("%2") == Some(Marker(2, 2, false)) && "%2"[2..] == "";
    assert MarkerAtStart(":%2") == None && ":%2"[1..] == "%2";
  }

  lemma DevicePlace(number: nat, v: Value)
    requires number <= 2
    ensures Filled(":%2", number, v) == ":" + if number < 2 then "%2" else v.plain
  {
    SecondMarker(v);
    TemplateMarkers();
    if number < 2 {
      NothingToFill(":%2", number, v);
    } else {
      assert MarkerAtStart(":%2") == None && ":%2"[1..] == "%2";
    }
  }

  /** The user id as it appears in the key. */
  function Shown(locale: Locale, peer: string, device: int): string {
    if Plain(peer) then peer else Filled(peer, Lowest(peer), DeviceValue(locale, device))
  }

  /** An id with an earlier marker takes the device in, and the device's own place stays open. */
  function Tail(peer: string, device: int): string { if Lowest(peer) < 2 then "%2" else PrintInt(device) }

  lemma KeyForm(locale: Locale, peer: string, device: int)
    ensures KeyOf(locale, peer, device) == Shown(locale, peer, device) + ":" + Tail(peer, device)
  {
    var v := DeviceValue(locale, device);
    var lowest := Lower(Lowest(peer), 2);
    UserWritten(peer);
    TemplateMarkers();
    DevicePlace(lowest, v);
    hide PrintInt, Lowest, Filled;
    Concatenated(peer, ":%2", lowest, v);
    if Plain(peer) {
      NothingToFill(peer, 2, v);
    }
    Regroup(Shown(locale, peer, device), ":", Tail(peer, device));
  }

  lemma ColonAt(s: string, t: string)
    requires ':' !in t
    ensures (s + ":" + t)[|s|] == ':' && forall i :: |s| < i < |s + ":" + t| ==> (s + ":" + t)[i] != ':'
  {
    assert forall i :: 0 <= i < |t| ==> t[i] in t;
  }

  /** What follows the last colon of a key, and what precedes it. */
  lemma TailsAgree(s: string, t: string, p: string, q: string)
    requires ':' !in t && ':' !in q
    ensures s + ":" + t == p + ":" + q <==> s == p && t == q
  {
    ColonAt(s, t);
    ColonAt(p, q);
    if s + ":" + t == p + ":" + q {
      var k := s + ":" + t;
      assert s == k[..|s|] && p == k[..|p|] && t == k[|s| + 1..] && q == k[|p| + 1..];
    }
  }

  lemma TailText(peer: string, device: int)
    ensures ':' !in Tail(peer, device) && ('%' in Tail(peer, device) <==> Lowest(peer) < 2)
  {
    hide PrintInt, Lowest;
    PrintIntInjective(device, device);
    assert "%2" == ['%', '2'];
    assert '%' in ['%', '2'];
  }

  lemma TailsDiffer(peer: string, device: int, p: string, d: int)
    ensures Tail(peer, device) == Tail(p, d)
      <==> (Lowest(peer) < 2 <==> Lowest(p) < 2) && (Lowest(peer) >= 2 ==> device == d)
  {
    hide PrintInt, Lowest;
    TailText(peer, device);
    TailText(p, d);
    PrintIntInjective(device, d);
    if Lowest(peer) < 2 && Lowest(p) < 2 {
      assert Tail(peer, device) == Tail(p, d);
    } else if Lowest(peer) >= 2 && Lowest(p) >= 2 {
      assert Tail(peer, device) == PrintInt(device) && Tail(p, d) == PrintInt(d);
    } else {
      assert Tail(peer, device) != Tail(p, d);
    }
  }

  /** Exactly when two keys are equal. */
  lemma KeysMeetExactly(locale: Locale, peer: string, device: int, p: string, d: int)
    ensures KeyOf(locale, peer, device) == KeyOf(locale, p, d)
      <==> (Lowest(peer) < 2 <==> Lowest(p) < 2) && (Lowest(peer) >= 2 ==> device == d)
           && Shown(locale, peer, device) == Shown(locale, p, d)
  {
    hide PrintInt, Lowest, KeyOf, Shown, Tail;
    KeyForm(locale, peer, device);
    KeyForm(locale, p, d);
    TailText(peer, device);
    TailText(p, d);
    TailsDiffer(peer, device, p, d);
    TailsAgree(Shown(locale, peer, device), Tail(peer, device), Shown(locale, p, d), Tail(p, d));
  }

  /** The key separates every user and device among plain user ids, whatever other characters these hold. */
  lemma KeySeparates(locale: Locale, peer: string, device: int, p: string, d: int)
    requires Plain(peer) && Plain(p)
    ensures KeyOf(locale, peer, device) == KeyOf(locale, p, d) <==> peer == p && device == d
  {
    hide Lowest, KeyOf;
    KeysMeetExactly(locale, peer, device, p, d);
  }

  /** Ids without percent signs, such as the relay's UUIDs, are plain. */
  lemma NoPercentPlain(peer: string)
    requires '%' !in peer
    ensures Plain(peer)
  {
    assert peer + "" == peer;
    NoPercent(peer, "");
  }

  // ---- ids that are not plain ----

  /** The sign of a negative number cannot be taken for part of a marker, nor its digits for a marker. */
  predicate Neutral(locale: Locale) {
    Quiet(locale.minus) && '%' !in locale.digits(1)
  }

  lemma MinusOne(locale: Locale)
    requires Neutral(locale)
    ensures DeviceValue(locale, -1) == Value("-" + "1", locale.minus + locale.digits(1))
    ensures DeviceValue(locale, 1) == Value("1", locale.digits(1)) && QuietValue(DeviceValue(locale, -1))
  {
    assert PrintInt(1) == "1" && PrintInt(-1) == "-1";
  }

  /** The marker number 0 in the form of another marker, so that it takes the same value. */
  function Zero(m: Marker): string { if m.localized then "%L00" else "%00" }

  lemma ZeroMarker(m: Marker, rest: string)
    ensures MarkerAtStart(Zero(m) + rest) == Some(Marker(0, |Zero(m)|, m.localized))
    ensures (Zero(m) + rest)[|Zero(m)|..] == rest
  {
  }

  lemma {:induction false} ZeroFilled(before: string, m: Marker, rest: string, v: Value)
    requires 0 < Lowest(before) && 0 < Lowest(rest)
    ensures Lowest(before + (Zero(m) + rest)) == 0
    ensures Filled(before + (Zero(m) + rest), 0, v) == before + (TextFor(v, m) + rest)
  {
    ZeroMarker(m, rest);
    hide MarkerAtStart;
    Concatenated(before, Zero(m) + rest, 0, v);
    NothingToFill(before, 0, v);
    NothingToFill(rest, 0, v);
  }

  function Sign(locale: Locale, m: Marker): string { if m.localized then locale.minus else "-" }

  /** Every id that is not plain shares a key with another id, whatever the locale's digits are. */
  lemma MarkedIdMeetsAnother(locale: Locale, peer: string) returns (device: int, p: string, d: int)
    requires Neutral(locale) && !Plain(peer)
    ensures p != peer && KeyOf(locale, peer, device) == KeyOf(locale, p, d)
  {
    device := -1;
    var v := DeviceValue(locale, -1);
    MinusOne(locale);
    FillingRaises(peer, Lowest(peer), v);
    if Lowest(peer) == 2 {
      p, d := Filled(peer, 2, v), -1;
    } else {
      var before, marker, after := FirstLowest(peer);
      FilledSplits(peer, v, before, marker, after);
      var rest := Filled(after, Lowest(peer), v);
      FillingRaises(after, Lowest(peer), v);
      var sign := Sign(locale, marker);
      p, d := before + (sign + (Zero(marker) + rest)), 1;
      SignedZero(locale, before, marker, rest);
      assert peer[|before|..][0] == '%' && p[|before|] == sign[0] && sign[0] in sign;
    }
    KeysMeetExactly(locale, peer, device, p, d);
  }

  lemma SignRead(locale: Locale, m: Marker)
    requires Neutral(locale)
    ensures var sign := Sign(locale, m);
      Quiet(sign) && Lowest(sign) == NO_MARKER
      && TextFor(DeviceValue(locale, -1), m) == sign + TextFor(DeviceValue(locale, 1), m)
  {
    MinusOne(locale);
    var sign := Sign(locale, m);
    assert sign + "" == sign && Lowest("") == NO_MARKER;
    NoPercent(sign, "");
  }

  lemma SignedZero(locale: Locale, before: string, m: Marker, rest: string)
    requires Neutral(locale) && 0 < Lowest(before) && 0 < Lowest(rest)
    ensures var p := before + (Sign(locale, m) + (Zero(m) + rest));
      Lowest(p) == 0
      && Filled(p, 0, DeviceValue(locale, 1)) == before + (TextFor(DeviceValue(locale, -1), m) + rest)
  {
    SignRead(locale, m);
    hide Lowest, Filled, DeviceValue, Zero, Sign, TextFor, Neutral;
    var sign, v := Sign(locale, m), DeviceValue(locale, 1);
    Concatenated(before, sign, 0, v);
    ZeroFilled(before + sign, m, rest, v);
    Regroup(before, sign, Zero(m) + rest);
    Regroup(before, sign, TextFor(v, m) + rest);
    Regroup(sign, TextFor(v, m), rest);
  }

  /** The user "%2" on device 5 has the key of the user "5" on device 5. */
  lemma MarkerCollision(locale: Locale)
    ensures KeyOf(locale, "%2", 5) == KeyOf(locale, "5", 5) == "5:5"
  {
    SecondMarker(DeviceValue(locale, 5));
    hide Lowest, Filled;
    NoPercentPlain("5");
    KeyForm(locale, "%2", 5);
    KeyForm(locale, "5", 5);
  }

  lemma SecondMarker(v: Value)
    ensures Lowest("%2") == 2 && Filled("%2", 2, v) == v.plain
  {
    assert MarkerAtStart("%2") == Some(Marker(2, 2, false)) && "%2"[2..] == "";
    assert Filled("", 2, v) == "" && v.plain + "" == v.plain;
  }
}
