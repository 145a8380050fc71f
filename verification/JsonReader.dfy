/** Reading compact JSON objects of strings, integers and nulls, as RFC 8259 defines them. */
module JsonReader {
  import opened Decimal
  import opened Hexadecimal
  import opened Wrappers

  datatype Value = Str(s: string) | Int(n: int) | Null

  datatype Member = Member(name: string, value: Value)

  // ---- strings ----

  predicate IsHex(c: char) { '0' <= c <= '9' || 'a' <= c <= 'f' || 'A' <= c <= 'F' }

  /** Four hexadecimal digits; None for anything else and for one half of a surrogate pair. */
  function FourDigits(s: string): Option<char> {
    if |s| < 4 || !IsHex(s[0]) || !IsHex(s[1]) || !IsHex(s[2]) || !IsHex(s[3]) then None
    else
      var n := 4096 * Digit(s[0]) + 256 * Digit(s[1]) + 16 * Digit(s[2]) + Digit(s[3]);
      if 0xD800 <= n < 0xE000 then None else Some(n as char)
  }

  function ShortEscape(c: char): Option<char> {
    if c == '"' || c == '\\' || c == '/' then Some(c)
    else if c == 'b' then Some('\U{08}')
    else if c == 'f' then Some('\U{0c}')
    else if c == 'n' then Some('\n')
    else if c == 'r' then Some('\r')
    else if c == 't' then Some('\t')
    else None
  }

  /** One character of a string, and what follows it. */
  function ReadChar(s: string): Option<(char, string)> {
    if s == "" || s[0] == '"' || s[0] < ' ' then None
    else if s[0] != '\\' then Some((s[0], s[1..]))
    else if |s| < 2 then None
    else if s[1] == 'u' then
      match FourDigits(s[2..])
      case None => None
      case Some(c) => Some((c, s[6..]))
    else
      match ShortEscape(s[1])
      case None => None
      case Some(c) => Some((c, s[2..]))
  }

  /** The rest of a string after its opening quote, and what follows the closing one. */
  function ReadChars(s: string): (r: Option<(string, string)>)
    ensures r.Some? ==> |r.value.1| < |s|
    decreases |s|
  {
    if s != "" && s[0] == '"' then Some(("", s[1..]))
    else
      match ReadChar(s)
      case None => None
      case Some((c, rest)) =>
        match ReadChars(rest)
        case None => None
        case Some((more, after)) => Some(([c] + more, after))
  }

  function ReadString(s: string): (r: Option<(string, string)>)
    ensures r.Some? ==> |r.value.1| < |s|
  {
    if s == "" || s[0] != '"' then None else ReadChars(s[1..])
  }

  // ---- integers ----

  function DigitCount(s: string): (k: nat)
    ensures k <= |s| && forall i :: 0 <= i < k ==> IsDigit(s[i])
  {
    if s == "" || !IsDigit(s[0]) then 0 else 1 + DigitCount(s[1..])
  }

  function DigitsValue(s: string): int {
    if s == "" then 0 else 10 * DigitsValue(s[..|s| - 1]) + (s[|s| - 1] as int - '0' as int)
  }

  /** Digits without a leading zero, as far as they go. */
  function ReadNat(s: string): (r: Option<(int, string)>)
    ensures r.Some? ==> |r.value.1| < |s|
  {
    var k := DigitCount(s);
    if k == 0 || (k > 1 && s[0] == '0') then None else Some((DigitsValue(s[..k]), s[k..]))
  }

  function ReadInt(s: string): (r: Option<(int, string)>)
    ensures r.Some? ==> |r.value.1| < |s|
  {
    if s == "" || s[0] != '-' then ReadNat(s)
    else match ReadNat(s[1..]) case None => None case Some((n, rest)) => Some((-n, rest))
  }

  // ---- objects ----

  function ReadValue(s: string): (r: Option<(Value, string)>)
    ensures r.Some? ==> |r.value.1| < |s|
  {
    if s == "" then None
    else if s[0] == '"' then
      match ReadString(s) case None => None case Some((v, rest)) => Some((Str(v), rest))
    else if s[0] == 'n' then
      if |s| >= 4 && s[..4] == "null" then Some((Null, s[4..])) else None
    else
      match ReadInt(s) case None => None case Some((n, rest)) => Some((Int(n), rest))
  }

  function ReadMember(s: string): (r: Option<(Member, string)>)
    ensures r.Some? ==> |r.value.1| < |s|
  {
    match ReadString(s)
    case None => None
    case Some((name, rest)) =>
      if rest == "" || rest[0] != ':' then None
      else
        match ReadValue(rest[1..])
        case None => None
        case Some((value, after)) => Some((Member(name, value), after))
  }

  /** The members up to the closing brace, which must end the text. */
  function ReadMembers(s: string): Option<seq<Member>>
    decreases |s|
  {
    match ReadMember(s)
    case None => None
    case Some((m, rest)) =>
      if rest == "}" then Some([m])
      else if rest == "" || rest[0] != ',' then None
      else
        match ReadMembers(rest[1..])
        case None => None
        case Some(more) => Some([m] + more)
  }

  /** The members of an object in their order. */
  function Read(text: string): Option<seq<Member>> {
    if text == "" || text[0] != '{' then None
    else if text == "{}" then Some([])
    else ReadMembers(text[1..])
  }

  // ---- what is read back ----

  /** A member with a name that needs no escapes. */
  predicate PlainName(name: string) { forall c :: c in name ==> c >= ' ' && c != '"' && c != '\\' }

  lemma {:induction false} PlainChars(name: string, rest: string)
    requires PlainName(name)
    ensures ReadChars(name + "\"" + rest) == Some((name, rest))
  {
    var s := name + "\"" + rest;
    if name == "" {
      assert s == "\"" + rest && s[1..] == rest;
    } else {
      assert name[0] in name && s[0] == name[0] && s[1..] == name[1..] + "\"" + rest;
      assert forall c :: c in name[1..] ==> c in name;
      PlainChars(name[1..], rest);
      assert name == [name[0]] + name[1..];
    }
  }

  lemma Regroup(name: string, text: string, rest: string)
    ensures "\"" + name + "\":" + text + rest == "\"" + (name + "\"" + (":" + (text + rest)))
  {
    assert "\":" == "\"" + ":";
  }

  lemma MemberRead(name: string, text: string, value: Value, rest: string)
    requires PlainName(name) && ReadValue(text + rest) == Some((value, rest))
    ensures ReadMember("\"" + name + "\":" + text + rest) == Some((Member(name, value), rest))
  {
    var s := "\"" + name + "\":" + text + rest;
    var tail := ":" + (text + rest);
    PlainChars(name, tail);
    Regroup(name, text, rest);
    hide ReadValue, ReadChars, PlainName;
    assert s[0] == '"' && s[1..] == name + "\"" + tail;
    assert tail[0] == ':' && tail[1..] == text + rest;
  }

  lemma LastMember(name: string, text: string, value: Value)
    requires PlainName(name) && ReadValue(text + "}") == Some((value, "}"))
    ensures ReadMembers("\"" + name + "\":" + text + "}") == Some([Member(name, value)])
  {
    hide ReadMember, ReadValue, PlainName;
    MemberRead(name, text, value, "}");
  }

  lemma FirstMember(name: string, text: string, value: Value, more: string)
    requires PlainName(name) && ReadValue(text + ("," + more)) == Some((value, "," + more))
    ensures ReadMembers("\"" + name + "\":" + text + ("," + more))
      == match ReadMembers(more) case None => None case Some(ms) => Some([Member(name, value)] + ms)
  {
    hide ReadMember, ReadValue, PlainName;
    MemberRead(name, text, value, "," + more);
    assert ("," + more)[1..] == more && ("," + more)[0] == ',';
    assert "," + more != "}";
  }

  lemma {:induction false} DigitsOf(n: nat, rest: string)
    requires rest == "" || !IsDigit(rest[0])
    ensures DigitCount(PrintNat(n) + rest) == |PrintNat(n)| && DigitsValue(PrintNat(n)) == n
    ensures |PrintNat(n)| > 1 ==> PrintNat(n)[0] != '0'
  {
    PrintsDigits(n);
    NatValue(n);
    hide PrintNat;
    DigitRun(PrintNat(n), rest);
  }

  lemma {:induction false} NatValue(n: nat)
    ensures DigitsValue(PrintNat(n)) == n
    ensures |PrintNat(n)| > 1 ==> PrintNat(n)[0] != '0'
    ensures n > 0 ==> PrintNat(n)[0] != '0'
  {
    var s := PrintNat(n);
    if n >= 10 {
      NatValue(n / 10);
      assert s[..|s| - 1] == PrintNat(n / 10);
    } else {
      assert s[..0] == "";
    }
  }

  lemma {:induction false} DigitRun(t: string, rest: string)
    requires (forall c :: c in t ==> IsDigit(c)) && (rest == "" || !IsDigit(rest[0]))
    ensures DigitCount(t + rest) == |t|
  {
    if t == "" {
      assert t + rest == rest;
    } else {
      assert t[0] in t && (t + rest)[0] == t[0] && (t + rest)[1..] == t[1..] + rest;
      assert forall c :: c in t[1..] ==> c in t;
      DigitRun(t[1..], rest);
    }
  }

  lemma NatRead(n: nat, rest: string)
    requires rest == "" || !IsDigit(rest[0])
    ensures ReadNat(PrintNat(n) + rest) == Some((n, rest))
    ensures IsDigit(PrintNat(n)[0])
  {
    var digits := PrintNat(n);
    DigitsOf(n, rest);
    PrintsDigits(n);
    hide PrintNat, DigitCount, DigitsValue;
    assert digits[0] in digits && (digits + rest)[0] == digits[0];
    assert (digits + rest)[..|digits|] == digits && (digits + rest)[|digits|..] == rest;
  }

  lemma SignRead(digits: string, n: int, rest: string)
    requires digits != "" && IsDigit(digits[0]) && ReadNat(digits + rest) == Some((n, rest))
    ensures ReadInt(digits + rest) == Some((n, rest))
    ensures ReadInt("-" + digits + rest) == Some((-n, rest))
  {
    hide ReadNat;
    assert (digits + rest)[0] == digits[0];
    var s := "-" + digits + rest;
    assert s[0] == '-' && s[1..] == digits + rest;
  }

  lemma IntRead(n: int, rest: string)
    requires rest == "" || !IsDigit(rest[0])
    ensures ReadInt(PrintInt(n) + rest) == Some((n, rest))
  {
    var m := if n < 0 then -n else n;
    NatRead(m, rest);
    hide PrintNat, ReadNat, ReadInt;
    SignRead(PrintNat(m), m, rest);
  }

  lemma IntValueRead(n: int, rest: string)
    requires rest == "" || !IsDigit(rest[0])
    ensures ReadValue(PrintInt(n) + rest) == Some((Int(n), rest))
  {
    IntRead(n, rest);
    PrintIntInjective(n, n);
    hide PrintInt, ReadInt;
    var s := PrintInt(n) + rest;
    IntStarts(n);
    assert s[0] == PrintInt(n)[0];
  }

  lemma IntStarts(n: int)
    ensures PrintInt(n) != "" && PrintInt(n)[0] != '"' && PrintInt(n)[0] != 'n'
  {
    PrintIntInjective(n, n);
    var s := PrintInt(n);
    assert s[0] in s;
  }
}
