/** QString::arg, as the client's key texts are built with it: the place markers with the lowest number in a text are
    replaced, also those that an earlier replacement brought in. */
module PlaceMarkers {
  import opened Decimal
  import opened Wrappers

  /** A marker at the start of a text: a percent sign, perhaps an L, and one or two digits. */
  datatype Marker = Marker(number: nat, length: nat, localized: bool)

  function DigitValue(c: char): nat
    requires IsDigit(c)
  {
    c as int - '0' as int
  }

  function MarkerAtStart(s: string): Option<Marker> {
    var i := if |s| > 1 && s[1] == 'L' then 2 else 1;
    if |s| <= i || s[0] != '%' || !IsDigit(s[i]) then None
    else if |s| > i + 1 && IsDigit(s[i + 1]) then
      Some(Marker(10 * DigitValue(s[i]) + DigitValue(s[i + 1]), i + 2, i == 2))
    else Some(Marker(DigitValue(s[i]), i + 1, i == 2))
  }

  /** Above every marker's number. */
  const NO_MARKER: nat := 100

  function StartLength(s: string): (k: nat)
    requires s != ""
    ensures 1 <= k <= |s|
  {
    match MarkerAtStart(s) case None => 1 case Some(m) => m.length
  }

  function StartNumber(s: string): (n: nat)
    ensures n <= NO_MARKER
  {
    match MarkerAtStart(s) case None => NO_MARKER case Some(m) => m.number
  }

  function Lower(a: nat, b: nat): nat { if a < b then a else b }

  function Lowest(s: string): (n: nat)
    ensures n <= NO_MARKER
  {
    if s == "" then NO_MARKER else Lower(StartNumber(s), Lowest(s[StartLength(s)..]))
  }

  /** The value written at a marker, and at a marker with an L. */
  datatype Value = Value(plain: string, localized: string)

  function TextFor(v: Value, m: Marker): string { if m.localized then v.localized else v.plain }

  function StartFilled(s: string, number: nat, v: Value): string
    requires s != ""
  {
    match MarkerAtStart(s)
    case None => s[..1]
    case Some(m) => if m.number == number then TextFor(v, m) else s[..m.length]
  }

  function Filled(s: string, number: nat, v: Value): string {
    if s == "" then "" else StartFilled(s, number, v) + Filled(s[StartLength(s)..], number, v)
  }

  function Arg(s: string, v: Value): string {
    if Lowest(s) == NO_MARKER then s else Filled(s, Lowest(s), v)
  }

  // ---- texts put together ----

  /** What precedes such a text cannot form a marker with it. */
  predicate StartsApart(s: string) { s == "" || (!IsDigit(s[0]) && s[0] != 'L') }

  lemma StartBefore(s: string, rest: string, number: nat, v: Value)
    requires s != "" && StartsApart(rest)
    ensures StartLength(s + rest) == StartLength(s) && StartNumber(s + rest) == StartNumber(s)
    ensures StartFilled(s + rest, number, v) == StartFilled(s, number, v)
  {
    assert MarkerAtStart(s + rest) == MarkerAtStart(s);
    var k := StartLength(s);
    hide MarkerAtStart;
    assert (s + rest)[..k] == s[..k];
  }

  lemma {:induction false} Concatenated(s: string, rest: string, number: nat, v: Value)
    requires StartsApart(rest)
    ensures Lowest(s + rest) == Lower(Lowest(s), Lowest(rest))
    ensures Filled(s + rest, number, v) == Filled(s, number, v) + Filled(rest, number, v)
    decreases |s|
  {
    if s == "" {
      assert s + rest == rest;
    } else {
      StartBefore(s, rest, number, v);
      var k, tail := StartLength(s), s[StartLength(s)..];
      assert (s + rest)[k..] == tail + rest;
      Concatenated(tail, rest, number, v);
      hide StartLength, StartNumber, StartFilled, StartsApart;
      Regroup(StartFilled(s, number, v), Filled(tail, number, v), Filled(rest, number, v));
    }
  }

  lemma Regroup(a: string, b: string, c: string)
    ensures a + (b + c) == a + b + c
  {
  }

  lemma {:induction false} NothingToFill(s: string, number: nat, v: Value)
    requires number < Lowest(s)
    ensures Filled(s, number, v) == s
    decreases |s|
  {
    if s != "" {
      var k := StartLength(s);
      assert StartFilled(s, number, v) == s[..k];
      hide StartLength, StartNumber, StartFilled;
      NothingToFill(s[k..], number, v);
      assert s == s[..k] + s[k..];
    }
  }

  /** A text without percent signs passes through. */
  lemma {:induction false} NoPercent(t: string, rest: string)
    requires '%' !in t
    ensures Lowest(t + rest) == Lowest(rest)
    decreases |t|
  {
    if t == "" {
      assert t + rest == rest;
    } else {
      assert (t + rest)[0] == t[0] && t[0] in t && (t + rest)[1..] == t[1..] + rest;
      NoPercent(t[1..], rest);
    }
  }

  // ---- filling takes the filled markers away ----

  predicate Quiet(t: string) { t != "" && StartsApart(t) && '%' !in t }

  predicate QuietValue(v: Value) { Quiet(v.plain) && Quiet(v.localized) }

  /** The first character stays or comes from the value. */
  lemma FilledStart(s: string, number: nat, v: Value)
    requires QuietValue(v)
    ensures Filled(s, number, v) == "" <==> s == ""
    ensures s != "" && !StartsApart(s) ==> Filled(s, number, v)[0] == s[0]
    ensures s != "" && StartsApart(s) ==> StartsApart(Filled(s, number, v))
  {
  }

  /** What is not filled at the start is read there as before. */
  lemma StartStays(s: string, number: nat, v: Value)
    requires QuietValue(v) && s != "" && StartNumber(s) != number
    ensures var t := StartFilled(s, number, v) + Filled(s[StartLength(s)..], number, v);
      StartLength(t) == StartLength(s) && StartNumber(t) == StartNumber(s)
      && t[StartLength(t)..] == Filled(s[StartLength(s)..], number, v)
  {
    FilledStart(s[StartLength(s)..], number, v);
    if MarkerAtStart(s) == None && s[0] == '%' && |s| > 1 && s[1] == 'L' {
      assert s[1..][1..] == s[2..] && MarkerAtStart(s[1..]) == None;
      assert Filled(s[1..], number, v) == "L" + Filled(s[2..], number, v);
      FilledStart(s[2..], number, v);
    }
  }

  lemma FilledText(s: string, number: nat, v: Value)
    requires s != "" && StartNumber(s) == number < NO_MARKER && QuietValue(v)
    ensures '%' !in StartFilled(s, number, v)
  {
  }

  lemma {:induction false} FillingRaises(s: string, number: nat, v: Value)
    requires QuietValue(v) && number <= Lowest(s) && number < NO_MARKER
    ensures number < Lowest(Filled(s, number, v))
    decreases |s|
  {
    if s != "" {
      FillingRaises(s[StartLength(s)..], number, v);
      if StartNumber(s) == number {
        FilledText(s, number, v);
        hide StartLength, StartNumber, StartFilled;
        NoPercent(StartFilled(s, number, v), Filled(s[StartLength(s)..], number, v));
      } else {
        StartStays(s, number, v);
        hide StartLength, StartNumber, StartFilled;
      }
    }
  }

  // ---- the first marker that is filled ----

  lemma StartOfPrefix(s: string, k: nat)
    requires s != "" && StartLength(s) <= k <= |s|
    ensures StartLength(s[..k]) == StartLength(s) && StartNumber(s[..k]) == StartNumber(s)
  {
  }

  /** The marker at which a text is divided, with what precedes it and what follows it. */
  predicate DividesAt(s: string, before: string, m: Marker, after: string) {
    && |before| + m.length <= |s| && before == s[..|before|] && after == s[|before| + m.length..]
    && MarkerAtStart(s[|before|..]) == Some(m)
  }

  lemma DividesLater(s: string, k: nat, rest: string, m: Marker, after: string)
    requires k <= |s| && DividesAt(s[k..], rest, m, after)
    ensures k + |rest| <= |s| && DividesAt(s, s[..k + |rest|], m, after) && s[..k + |rest|][k..] == rest
  {
    hide MarkerAtStart;
    assert s[k..][|rest|..] == s[k + |rest|..];
    assert s[k..][|rest| + m.length..] == s[k + |rest| + m.length..];
  }

  /** A text divided at the first of its markers with the lowest number. */
  lemma {:induction false} FirstLowest(s: string) returns (before: string, m: Marker, after: string)
    requires Lowest(s) < NO_MARKER
    ensures DividesAt(s, before, m, after)
    ensures m.number == Lowest(s) < Lowest(before) && Lowest(s) <= Lowest(after)
    decreases |s|
  {
    var k := StartLength(s);
    if StartNumber(s) == Lowest(s) {
      before, m := "", MarkerAtStart(s).value;
      after := s[m.length..];
      assert s[0..] == s;
    } else {
      hide StartLength, StartNumber, MarkerAtStart, DividesAt;
      var rest;
      rest, m, after := FirstLowest(s[k..]);
      before := s[..k + |rest|];
      DividesLater(s, k, rest, m, after);
      StartOfPrefix(s, |before|);
    }
  }

  /** What filling the lowest markers gives, split at the first of them. */
  lemma FilledSplits(s: string, v: Value, before: string, m: Marker, after: string)
    requires DividesAt(s, before, m, after) && m.number == Lowest(s) < Lowest(before)
    ensures Filled(s, Lowest(s), v) == before + (TextFor(v, m) + Filled(after, Lowest(s), v))
  {
    var rest := s[|before|..];
    assert StartsApart(rest) && StartLength(rest) == m.length && StartFilled(rest, m.number, v) == TextFor(v, m);
    hide StartLength, StartNumber, StartFilled, MarkerAtStart;
    assert s == before + rest && rest[m.length..] == after;
    Concatenated(before, rest, Lowest(s), v);
    NothingToFill(before, Lowest(s), v);
  }
}
