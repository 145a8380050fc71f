/** Conversations, unread counts and message lists derived from the cache, client/src/storage/JsonLocalStore.cpp. */
module ConversationSummaries {
  import opened ConversationKeys
  import opened LocalStore
  import opened Wrappers

  datatype Summary = Summary(
    peerUserId: string, peerUsername: string, peerDeviceId: int, messageCount: int, unreadCount: int,
    latestMessageAt: Option<int>)

  /** The name cached for a user's device, empty when there is none. */
  type Names = (string, int) -> string

  /** What conversationsFor asks of its surroundings: the cached names and how the locale writes integers. */
  datatype Setting = Setting(names: Names, locale: Locale)

  // ---- a map in key order, as std::map keeps it ----

  datatype Entry = Entry(key: string, summary: Summary)

  predicate KeyLess(a: string, b: string) {
    b != "" && (a == "" || a[0] < b[0] || (a[0] == b[0] && KeyLess(a[1..], b[1..])))
  }

  lemma {:induction false} KeysCompare(a: string, b: string)
    ensures !KeyLess(a, a)
    ensures KeyLess(a, b) || a == b || KeyLess(b, a)
    decreases |a|, |b|
  {
    if a != "" {
      KeysCompare(a[1..], if b == "" then "" else b[1..]);
      if b != "" && a[0] == b[0] && a[1..] == b[1..] {
        assert a == [a[0]] + a[1..] && b == [b[0]] + b[1..];
      }
    }
  }

  /** The order of the keys is that of their characters, the first difference deciding. */
  lemma {:induction false} KeyLessExactly(a: string, b: string)
    ensures KeyLess(a, b)
      <==> (|a| < |b| && a == b[..|a|]) || exists k :: 0 <= k < |a| && k < |b| && a[..k] == b[..k] && a[k] < b[k]
    decreases |a|
  {
    if a != "" && b != "" && a[0] == b[0] {
      KeyLessExactly(a[1..], b[1..]);
      SharedStart(a, b);
    } else if a != "" && b != "" && a[0] < b[0] {
      assert a[..0] == b[..0];
    } else if a != "" && b != "" {
      assert forall k :: 0 < k <= |a| && k <= |b| && a[..k] == b[..k] ==> a[..k][0] == b[..k][0];
    }
  }

  lemma SharedStart(a: string, b: string)
    requires a != "" && b != "" && a[0] == b[0]
    ensures (|a| < |b| && a == b[..|a|]) <==> (|a[1..]| < |b[1..]| && a[1..] == b[1..][..|a[1..]|])
    ensures (exists k :: 0 <= k < |a| && k < |b| && a[..k] == b[..k] && a[k] < b[k])
      <==> exists k :: 0 <= k < |a[1..]| && k < |b[1..]| && a[1..][..k] == b[1..][..k] && a[1..][k] < b[1..][k]
  {
    var p, q := a[1..], b[1..];
    assert a == [a[0]] + p && b == [b[0]] + q;
    if |a| < |b| {
      assert b[..|a|] == [b[0]] + q[..|p|];
    }
    if k :| 0 <= k < |a| && k < |b| && a[..k] == b[..k] && a[k] < b[k] {
      assert p[..k - 1] == a[..k][1..] && q[..k - 1] == b[..k][1..] && p[k - 1] < q[k - 1];
    }
    if k :| 0 <= k < |p| && k < |q| && p[..k] == q[..k] && p[k] < q[k] {
      assert a[..k + 1] == [a[0]] + p[..k] && b[..k + 1] == [b[0]] + q[..k] && a[k + 1] < b[k + 1];
    }
  }

  lemma {:induction false} KeyLessTransitive(a: string, b: string, c: string)
    requires KeyLess(a, b) && KeyLess(b, c)
    ensures KeyLess(a, c)
    decreases |a|
  {
    if a != "" && a[0] == b[0] == c[0] {
      KeyLessTransitive(a[1..], b[1..], c[1..]);
    }
  }

  ghost predicate InKeyOrder(entries: seq<Entry>) {
    forall i, j :: 0 <= i < j < |entries| ==> KeyLess(entries[i].key, entries[j].key)
  }

  function Lookup(entries: seq<Entry>, key: string): Option<Summary> {
    if entries == [] then None
    else if entries[0].key == key then Some(entries[0].summary)
    else Lookup(entries[1..], key)
  }

  /** insert_or_assign. */
  function Put(entries: seq<Entry>, key: string, summary: Summary): seq<Entry> {
    if entries == [] || KeyLess(key, entries[0].key) then [Entry(key, summary)] + entries
    else if entries[0].key == key then [Entry(key, summary)] + entries[1..]
    else [entries[0]] + Put(entries[1..], key, summary)
  }

  function Total(entries: seq<Entry>, weight: Summary -> int): int {
    if entries == [] then 0 else weight(entries[0].summary) + Total(entries[1..], weight)
  }

  lemma {:induction false} LookupAbsent(entries: seq<Entry>, key: string)
    requires InKeyOrder(entries) && (entries != [] ==> KeyLess(key, entries[0].key))
    ensures Lookup(entries, key) == None
  {
    if entries != [] {
      KeysCompare(key, key);
      if |entries| > 1 {
        KeyLessTransitive(key, entries[0].key, entries[1].key);
      }
      LookupAbsent(entries[1..], key);
    }
  }

  lemma {:induction false} LookupPut(entries: seq<Entry>, key: string, summary: Summary, other: string)
    ensures Lookup(Put(entries, key, summary), other) == if other == key then Some(summary) else Lookup(entries, other)
  {
    hide KeyLess;
    if entries != [] && !KeyLess(key, entries[0].key) && entries[0].key != key {
      LookupPut(entries[1..], key, summary, other);
    }
  }

  lemma {:induction false} PutKeepsOrder(entries: seq<Entry>, key: string, summary: Summary)
    requires InKeyOrder(entries)
    ensures InKeyOrder(Put(entries, key, summary))
    ensures forall e :: e in Put(entries, key, summary) ==> e.key == key || exists f :: f in entries && f.key == e.key
  {
    hide KeyLess;
    if entries != [] {
      KeysCompare(key, entries[0].key);
      if KeyLess(key, entries[0].key) {
        forall j | 1 <= j < |entries| ensures KeyLess(key, entries[j].key) {
          KeyLessTransitive(key, entries[0].key, entries[j].key);
        }
      } else if entries[0].key != key {
        PutKeepsOrder(entries[1..], key, summary);
        var rest := Put(entries[1..], key, summary);
        forall j | 0 <= j < |rest| ensures KeyLess(entries[0].key, rest[j].key) {
          assert rest[j] in rest;
          if rest[j].key != key {
            var f :| f in entries[1..] && f.key == rest[j].key;
            var k :| 1 <= k < |entries| && entries[k] == f;
          }
        }
      } else {
        assert Put(entries, key, summary) == [Entry(key, summary)] + entries[1..];
      }
    }
  }

  function WeightAt(entries: seq<Entry>, key: string, weight: Summary -> int): int {
    match Lookup(entries, key) case None => 0 case Some(s) => weight(s)
  }

  lemma {:induction false} TotalPut(entries: seq<Entry>, key: string, summary: Summary, weight: Summary -> int)
    requires InKeyOrder(entries)
    ensures Total(Put(entries, key, summary), weight)
         == Total(entries, weight) - WeightAt(entries, key, weight) + weight(summary)
  {
    hide KeyLess;
    if entries != [] {
      if KeyLess(key, entries[0].key) {
        LookupAbsent(entries, key);
      } else if entries[0].key != key {
        TotalPut(entries[1..], key, summary, weight);
      }
    }
  }

  // ---- summaries ----

  function PeerOf(m: LocalMessage, user: string): string {
    if m.senderUserId == user then m.recipientUserId else m.senderUserId
  }

  function PeerDeviceOf(m: LocalMessage, user: string): int {
    if m.senderUserId == user then m.recipientDeviceId else m.senderDeviceId
  }

  predicate UnreadIncoming(m: LocalMessage, user: string) { m.senderUserId != user && m.readAt == "" }

  /** An invalid time is before every valid one. */
  predicate LaterThan(a: Option<int>, b: Option<int>) { a.Some? && (b.None? || a.value > b.value) }

  function Latest(latest: Option<int>, at: Option<int>): Option<int> {
    if latest.None? || LaterThan(at, latest) then at else latest
  }

  function Counted(s: Summary, m: LocalMessage, user: string, name: string): Summary {
    s.(peerUsername := if s.peerUsername == "" && name != "" then name else s.peerUsername,
       messageCount := s.messageCount + 1,
       unreadCount := s.unreadCount + (if UnreadIncoming(m, user) then 1 else 0),
       latestMessageAt := Latest(s.latestMessageAt, m.createdAt))
  }

  /** One turn of the loop in conversationsFor. */
  function Summarise(entries: seq<Entry>, m: LocalMessage, user: string, w: Setting): seq<Entry> {
    if !IsMessageVisibleToUser(m, user) then entries
    else
      var peer, device := PeerOf(m, user), PeerDeviceOf(m, user);
      var name := w.names(peer, device);
      var s := match Lookup(entries, KeyOf(w.locale, peer, device))
        case Some(found) => found
        case None => Summary(peer, name, device, 0, 0, None);
      Put(entries, KeyOf(w.locale, peer, device), Counted(s, m, user, name))
  }

  function Conversations(ms: Messages, user: string, w: Setting): seq<Entry> {
    if ms == [] then [] else Summarise(Conversations(ms[..|ms| - 1], user, w), ms[|ms| - 1], user, w)
  }

  function Summaries(entries: seq<Entry>): (r: seq<Summary>)
    ensures |r| == |entries|
  {
    seq(|entries|, i requires 0 <= i < |entries| => entries[i].summary)
  }

  method ConversationsFor(ms: Messages, user: string, w: Setting) returns (conversations: seq<Summary>)
    ensures conversations == Summaries(Conversations(ms, user, w))
  {
    hide IsMessageVisibleToUser, KeyOf, Put, Lookup;
    var summaries: seq<Entry> := [];
    for i := 0 to |ms|
      invariant summaries == Conversations(ms[..i], user, w)
    {
      var message := ms[i];
      assert ms[..i + 1][..i] == ms[..i] && ms[..i + 1][i] == message;
      if !IsMessageVisibleToUser(message, user) {
        continue;
      }
      var sentByCurrentUser := message.senderUserId == user;
      var peerUserId := if sentByCurrentUser then message.recipientUserId else message.senderUserId;
      var peerDeviceId := if sentByCurrentUser then message.recipientDeviceId else message.senderDeviceId;
      var key := KeyOf(w.locale, peerUserId, peerDeviceId);
      var peerUsername := w.names(peerUserId, peerDeviceId);
      var known := Lookup(summaries, key);
      var summary := if known.Some? then known.value else Summary(peerUserId, peerUsername, peerDeviceId, 0, 0, None);
      if summary.peerUsername == "" && peerUsername != "" {
        summary := summary.(peerUsername := peerUsername);
      }
      summary := summary.(messageCount := summary.messageCount + 1);
      if !sentByCurrentUser && message.readAt == "" {
        summary := summary.(unreadCount := summary.unreadCount + 1);
      }
      if summary.latestMessageAt.None? || LaterThan(message.createdAt, summary.latestMessageAt) {
        summary := summary.(latestMessageAt := message.createdAt);
      }
      summaries := Put(summaries, key, summary);
    }
    assert ms[..|ms|] == ms;
    conversations := Summaries(summaries);
  }

  /** The summaries with unread messages, in their order. */
  function UnreadOnly(conversations: seq<Summary>): (unread: seq<Summary>)
    ensures forall s :: s in unread <==> s in conversations && s.unreadCount > 0
  {
    if conversations == [] then []
    else
      var last := conversations[|conversations| - 1];
      UnreadOnly(conversations[..|conversations| - 1]) + if last.unreadCount > 0 then [last] else []
  }

  /** The order of the summaries is kept. */
  lemma {:induction false} UnreadInOrder(a: seq<Summary>, b: seq<Summary>)
    ensures UnreadOnly(a + b) == UnreadOnly(a) + UnreadOnly(b)
  {
    if b == [] {
      assert a + b == a;
    } else {
      assert (a + b)[..|a + b| - 1] == a + b[..|b| - 1];
      UnreadInOrder(a, b[..|b| - 1]);
    }
  }

  method UnreadConversationsFor(ms: Messages, user: string, w: Setting) returns (unread: seq<Summary>)
    ensures unread == UnreadOnly(Summaries(Conversations(ms, user, w)))
    ensures forall s :: s in unread <==> s in Summaries(Conversations(ms, user, w)) && s.unreadCount > 0
  {
    var conversations := ConversationsFor(ms, user, w);
    unread := [];
    for i := 0 to |conversations|
      invariant unread == UnreadOnly(conversations[..i])
    {
      assert conversations[..i + 1][..i] == conversations[..i];
      if conversations[i].unreadCount > 0 {
        unread := unread + [conversations[i]];
      }
    }
    assert conversations[..|conversations|] == conversations;
  }

  // ---- messages with a peer ----

  /** A message between the two users that the current one still sees. */
  predicate Between(m: LocalMessage, user: string, peer: string) {
    ((m.senderUserId == user && m.recipientUserId == peer) || (m.senderUserId == peer && m.recipientUserId == user))
    && IsMessageVisibleToUser(m, user)
  }

  function WithPeer(ms: Messages, user: string, peer: string): Messages {
    if ms == [] then []
    else
      WithPeer(ms[..|ms| - 1], user, peer) + if Between(ms[|ms| - 1], user, peer) then [ms[|ms| - 1]] else []
  }

  ghost predicate SortedByTime(ms: Messages) {
    forall i, j :: 0 <= i < j < |ms| ==> !LaterThan(ms[i].createdAt, ms[j].createdAt)
  }

  /** sort stands for std::sort by creation time. */
  method MessagesWithPeer(ms: Messages, user: string, peer: string, sort: Messages -> Messages)
    returns (messages: Messages)
    requires forall s :: multiset(sort(s)) == multiset(s) && SortedByTime(sort(s))
    ensures multiset(messages) == multiset(WithPeer(ms, user, peer)) && SortedByTime(messages)
    ensures forall i, j :: 0 <= i < j < |messages| ==>
              messages[i].createdAt.None?
              || (messages[j].createdAt.Some? && messages[i].createdAt.value <= messages[j].createdAt.value)
  {
    hide Between;
    messages := [];
    for i := 0 to |ms|
      invariant messages == WithPeer(ms[..i], user, peer)
    {
      assert ms[..i + 1][..i] == ms[..i];
      if Between(ms[i], user, peer) {
        messages := messages + [ms[i]];
      }
    }
    assert ms[..|ms|] == ms;
    messages := sort(messages);
  }

  // ---- counting ----

  function Count(ms: Messages, f: LocalMessage -> bool): nat {
    if ms == [] then 0 else Count(ms[..|ms| - 1], f) + (if f(ms[|ms| - 1]) then 1 else 0)
  }

  function Seen(user: string): LocalMessage -> bool { m => IsMessageVisibleToUser(m, user) }

  function SeenUnread(user: string): LocalMessage -> bool {
    m => IsMessageVisibleToUser(m, user) && UnreadIncoming(m, user)
  }

  function Talk(user: string, peer: string, device: int): LocalMessage -> bool {
    m => IsMessageVisibleToUser(m, user) && PeerOf(m, user) == peer && PeerDeviceOf(m, user) == device
  }

  /** A message belongs to a device of a peer if the user sent it there, or it came from there. */
  lemma TalkExactly(m: LocalMessage, user: string, peer: string, device: int)
    ensures Talk(user, peer, device)(m)
      <==> IsMessageVisibleToUser(m, user)
           && ((m.senderUserId == user && m.recipientUserId == peer && m.recipientDeviceId == device)
               || (m.senderUserId != user && m.senderUserId == peer && m.senderDeviceId == device))
    ensures TalkUnread(user, peer, device)(m)
      <==> IsMessageVisibleToUser(m, user) && m.readAt == ""
           && m.senderUserId != user && m.senderUserId == peer && m.senderDeviceId == device
  {
  }

  function TalkUnread(user: string, peer: string, device: int): LocalMessage -> bool {
    m =>
      && IsMessageVisibleToUser(m, user) && PeerOf(m, user) == peer && PeerDeviceOf(m, user) == device
      && UnreadIncoming(m, user)
  }

  // ---- what is filed under a key ----

  function KeyOfMessage(w: Setting, m: LocalMessage, user: string): string {
    KeyOf(w.locale, PeerOf(m, user), PeerDeviceOf(m, user))
  }

  function Filed(w: Setting, user: string, key: string): LocalMessage -> bool {
    m => IsMessageVisibleToUser(m, user) && KeyOfMessage(w, m, user) == key
  }

  function FiledUnread(w: Setting, user: string, key: string): LocalMessage -> bool {
    m => IsMessageVisibleToUser(m, user) && KeyOfMessage(w, m, user) == key && UnreadIncoming(m, user)
  }

  function LatestOf(ms: Messages, f: LocalMessage -> bool): Option<int> {
    if ms == [] then None
    else
      var before := LatestOf(ms[..|ms| - 1], f);
      if f(ms[|ms| - 1]) then Latest(before, ms[|ms| - 1].createdAt) else before
  }

  /** The latest time is one of theirs and none of theirs is later. */
  lemma {:induction false} LatestExactly(ms: Messages, f: LocalMessage -> bool)
    ensures LatestOf(ms, f).Some? <==> exists m :: m in ms && f(m) && m.createdAt.Some?
    ensures LatestOf(ms, f).Some? ==> exists m :: m in ms && f(m) && m.createdAt == LatestOf(ms, f)
    ensures LatestOf(ms, f).Some? ==>
      forall m :: m in ms && f(m) && m.createdAt.Some? ==> m.createdAt.value <= LatestOf(ms, f).value
  {
    if ms != [] {
      var init, last := ms[..|ms| - 1], ms[|ms| - 1];
      LatestExactly(init, f);
      assert last in ms && forall m :: m in ms <==> m in init || m == last;
    }
  }

  function FirstOf(ms: Messages, f: LocalMessage -> bool): (r: Option<LocalMessage>)
    ensures r.None? <==> Count(ms, f) == 0
    ensures r.Some? ==> r.value in ms && f(r.value)
  {
    if ms == [] then None
    else
      var before := FirstOf(ms[..|ms| - 1], f);
      if before.None? && f(ms[|ms| - 1]) then Some(ms[|ms| - 1]) else before
  }

  /** The first name that is not empty among the devices of these messages. */
  function FirstName(ms: Messages, f: LocalMessage -> bool, w: Setting, user: string): string {
    if ms == [] then ""
    else
      var before, m := FirstName(ms[..|ms| - 1], f, w, user), ms[|ms| - 1];
      if before == "" && f(m) then w.names(PeerOf(m, user), PeerDeviceOf(m, user)) else before
  }

  /** The summary filed under a key. */
  function KeySummary(ms: Messages, user: string, w: Setting, key: string): Option<Summary> {
    match FirstOf(ms, Filed(w, user, key))
    case None => None
    case Some(m) =>
      Some(Summary(PeerOf(m, user), FirstName(ms, Filed(w, user, key), w, user), PeerDeviceOf(m, user),
                   Count(ms, Filed(w, user, key)), Count(ms, FiledUnread(w, user, key)),
                   LatestOf(ms, Filed(w, user, key))))
  }

  lemma NoneFiled(ms: Messages, user: string, w: Setting, key: string)
    requires Count(ms, Filed(w, user, key)) == 0
    ensures Count(ms, FiledUnread(w, user, key)) == 0 && LatestOf(ms, Filed(w, user, key)) == None
    ensures FirstName(ms, Filed(w, user, key), w, user) == ""
  {
    hide IsMessageVisibleToUser, KeyOfMessage, UnreadIncoming;
  }

  /** Filing one more message under its key. */
  lemma KeySummaryGrows(ms: Messages, user: string, w: Setting, key: string)
    requires ms != []
    ensures var init, m := ms[..|ms| - 1], ms[|ms| - 1];
      var before := KeySummary(init, user, w, key);
      var p, d := PeerOf(m, user), PeerDeviceOf(m, user);
      KeySummary(ms, user, w, key)
      == if Filed(w, user, key)(m)
         then Some(Counted(if before.Some? then before.value else Summary(p, w.names(p, d), d, 0, 0, None),
                           m, user, w.names(p, d)))
         else before
  {
    hide IsMessageVisibleToUser, KeyOfMessage, UnreadIncoming, PeerOf, PeerDeviceOf, Latest;
    var init := ms[..|ms| - 1];
    if Count(init, Filed(w, user, key)) == 0 {
      NoneFiled(init, user, w, key);
    }
  }

  /** Under each key the loop leaves the first device's user, and the counts and the latest time of all messages
      that have the key. */
  lemma {:induction false} SummaryOfKey(ms: Messages, user: string, w: Setting, key: string)
    ensures Lookup(Conversations(ms, user, w), key) == KeySummary(ms, user, w, key)
  {
    if ms != [] {
      var init, m := ms[..|ms| - 1], ms[|ms| - 1];
      SummaryOfKey(init, user, w, key);
      KeySummaryGrows(ms, user, w, key);
      hide IsMessageVisibleToUser, Put, Lookup, KeySummary, Counted, PeerOf, PeerDeviceOf, KeyOf;
      if IsMessageVisibleToUser(m, user) {
        var entries := Conversations(init, user, w);
        var p, d := PeerOf(m, user), PeerDeviceOf(m, user);
        var k := KeyOf(w.locale, p, d);
        var s := match Lookup(entries, k)
                 case Some(found) => found
                 case None => Summary(p, w.names(p, d), d, 0, 0, None);
        LookupPut(entries, k, Counted(s, m, user, w.names(p, d)), key);
      }
    } else {
      assert Lookup([], key) == None;
    }
  }

  // ---- when summaries are exact ----

  /** Only messages with this device have its key. */
  ghost predicate Apart(ms: Messages, user: string, w: Setting, peer: string, device: int) {
    forall m :: m in ms && Filed(w, user, KeyOf(w.locale, peer, device))(m) ==> Talk(user, peer, device)(m)
  }

  predicate PlainIds(ms: Messages) { forall m :: m in ms ==> Plain(m.senderUserId) && Plain(m.recipientUserId) }

  /** Plain user ids keep all devices apart. */
  lemma PlainApart(ms: Messages, user: string, w: Setting, peer: string, device: int)
    requires PlainIds(ms) && Plain(peer)
    ensures Apart(ms, user, w, peer, device)
  {
    hide IsMessageVisibleToUser, Plain, KeyOf;
    forall m | m in ms && Filed(w, user, KeyOf(w.locale, peer, device))(m) ensures Talk(user, peer, device)(m) {
      KeySeparates(w.locale, PeerOf(m, user), PeerDeviceOf(m, user), peer, device);
    }
  }

  /** The summary of a peer's device as its name and the counts promise it. */
  function DeviceSummary(ms: Messages, user: string, w: Setting, peer: string, device: int): Option<Summary> {
    if Count(ms, Talk(user, peer, device)) == 0 then None
    else Some(Summary(peer, w.names(peer, device), device, Count(ms, Talk(user, peer, device)),
                      Count(ms, TalkUnread(user, peer, device)), LatestOf(ms, Talk(user, peer, device))))
  }

  lemma {:induction false} CountSame(ms: Messages, f: LocalMessage -> bool, g: LocalMessage -> bool)
    requires forall m :: m in ms ==> f(m) == g(m)
    ensures Count(ms, f) == Count(ms, g) && LatestOf(ms, f) == LatestOf(ms, g)
  {
    if ms != [] {
      assert ms[|ms| - 1] in ms;
      CountSame(ms[..|ms| - 1], f, g);
    }
  }

  lemma {:induction false} CountFewer(ms: Messages, f: LocalMessage -> bool, g: LocalMessage -> bool)
    requires forall m :: m in ms ==> (f(m) ==> g(m))
    ensures Count(ms, f) <= Count(ms, g)
    ensures (exists m :: m in ms && g(m) && !f(m)) ==> Count(ms, f) < Count(ms, g)
  {
    if ms != [] {
      var last := ms[|ms| - 1];
      assert last in ms && forall m :: m in ms ==> m in ms[..|ms| - 1] || m == last;
      CountFewer(ms[..|ms| - 1], f, g);
    }
  }

  lemma {:induction false} OneName(ms: Messages, f: LocalMessage -> bool, user: string, w: Setting, peer: string,
      device: int)
    requires forall m :: m in ms && f(m) ==> PeerOf(m, user) == peer && PeerDeviceOf(m, user) == device
    ensures FirstName(ms, f, w, user) == if Count(ms, f) == 0 then "" else w.names(peer, device)
  {
    if ms != [] {
      hide PeerOf, PeerDeviceOf;
      assert ms[|ms| - 1] in ms;
      OneName(ms[..|ms| - 1], f, user, w, peer, device);
    }
  }

  /** The summary of a device is exact, and there is one exactly when some visible message is exchanged with the
      device, if and only if only messages with the device have its key. */
  lemma SummaryExact(ms: Messages, user: string, w: Setting, peer: string, device: int)
    ensures var found := Lookup(Conversations(ms, user, w), KeyOf(w.locale, peer, device));
      found == DeviceSummary(ms, user, w, peer, device) <==> Apart(ms, user, w, peer, device)
  {
    var key := KeyOf(w.locale, peer, device);
    SummaryOfKey(ms, user, w, key);
    hide IsMessageVisibleToUser, KeyOf, Conversations, Lookup, PeerOf, PeerDeviceOf, UnreadIncoming;
    var filed, talk := Filed(w, user, key), Talk(user, peer, device);
    if Apart(ms, user, w, peer, device) {
      CountSame(ms, filed, talk);
      CountSame(ms, FiledUnread(w, user, key), TalkUnread(user, peer, device));
      OneName(ms, filed, user, w, peer, device);
    } else {
      CountFewer(ms, talk, filed);
    }
  }

  /** A message exchanged with the user "5" on device 5 spoils the summary of the user "%2" on device 5. */
  lemma MarkedUsersMerge(ms: Messages, user: string, w: Setting, m: LocalMessage)
    requires m in ms && Talk(user, "5", 5)(m)
    ensures Lookup(Conversations(ms, user, w), KeyOf(w.locale, "%2", 5)) != DeviceSummary(ms, user, w, "%2", 5)
  {
    hide KeyOf, IsMessageVisibleToUser, PeerOf, PeerDeviceOf, Conversations, Lookup, DeviceSummary;
    MarkerCollision(w.locale);
    assert Filed(w, user, KeyOf(w.locale, "%2", 5))(m) && !Talk(user, "%2", 5)(m);
    SummaryExact(ms, user, w, "%2", 5);
  }

  lemma {:induction false} ConversationsInOrder(ms: Messages, user: string, w: Setting)
    ensures InKeyOrder(Conversations(ms, user, w))
  {
    if ms != [] {
      hide IsMessageVisibleToUser, KeyOf, Put, InKeyOrder;
      var init, m := ms[..|ms| - 1], ms[|ms| - 1];
      ConversationsInOrder(init, user, w);
      if IsMessageVisibleToUser(m, user) {
        var entries := Conversations(init, user, w);
        var key := KeyOf(w.locale, PeerOf(m, user), PeerDeviceOf(m, user));
        var name := w.names(PeerOf(m, user), PeerDeviceOf(m, user));
        var s := match Lookup(entries, key) case Some(found) => found
          case None => Summary(PeerOf(m, user), name, PeerDeviceOf(m, user), 0, 0, None);
        PutKeepsOrder(entries, key, Counted(s, m, user, name));
      }
    } else {
      assert InKeyOrder([]);
    }
  }

  // ---- conservation ----

  function CountWeight(): Summary -> int { (s: Summary) => s.messageCount }

  function UnreadWeight(): Summary -> int { (s: Summary) => s.unreadCount }

  function PeerWeight(peer: string): Summary -> int {
    (s: Summary) => if s.peerUserId == peer then s.messageCount else 0
  }

  /** Adding a message adds one to the total of its own summary's weight. */
  lemma SummariseTotal(ms: Messages, m: LocalMessage, user: string, w: Setting, weight: Summary -> int)
    requires IsMessageVisibleToUser(m, user)
    ensures var entries := Conversations(ms, user, w);
      var p, d := PeerOf(m, user), PeerDeviceOf(m, user);
      var newSummary := Summary(p, w.names(p, d), d, 0, 0, None);
      var s := match Lookup(entries, KeyOf(w.locale, p, d)) case Some(found) => found case None => newSummary;
      Total(Summarise(entries, m, user, w), weight)
         == Total(entries, weight) - WeightAt(entries, KeyOf(w.locale, p, d), weight)
            + weight(Counted(s, m, user, w.names(p, d)))
  {
    hide IsMessageVisibleToUser, KeyOf, Put, Lookup, Counted;
    var entries := Conversations(ms, user, w);
    var p, d := PeerOf(m, user), PeerDeviceOf(m, user);
    var s := match Lookup(entries, KeyOf(w.locale, p, d))
             case Some(found) => found
             case None => Summary(p, w.names(p, d), d, 0, 0, None);
    ConversationsInOrder(ms, user, w);
    TotalPut(entries, KeyOf(w.locale, p, d), Counted(s, m, user, w.names(p, d)), weight);
  }

  /** The summaries' message counts add up to the visible messages, their unread counts to the visible unread
      incoming ones. */
  lemma {:induction false} CountsConserved(ms: Messages, user: string, w: Setting)
    ensures Total(Conversations(ms, user, w), CountWeight()) == Count(ms, Seen(user))
    ensures Total(Conversations(ms, user, w), UnreadWeight()) == Count(ms, SeenUnread(user))
  {
    if ms != [] {
      hide IsMessageVisibleToUser, KeyOf, Put, Lookup, PeerOf, PeerDeviceOf;
      var init, m := ms[..|ms| - 1], ms[|ms| - 1];
      CountsConserved(init, user, w);
      if IsMessageVisibleToUser(m, user) {
        SummariseTotal(init, m, user, w, CountWeight());
        SummariseTotal(init, m, user, w, UnreadWeight());
      }
    }
  }

  /** Visible messages from the peer that are not addressed to the user, as a cache of someone else's mail
      would hold. */
  function Foreign(user: string, peer: string): LocalMessage -> bool {
    m =>
      && IsMessageVisibleToUser(m, user) && m.senderUserId == peer
      && m.senderUserId != user && m.recipientUserId != user
  }

  lemma PeerCases(m: LocalMessage, user: string, peer: string)
    requires IsMessageVisibleToUser(m, user)
    ensures (if PeerOf(m, user) == peer then 1 else 0)
      == (if Between(m, user, peer) then 1 else 0) + (if Foreign(user, peer)(m) then 1 else 0)
  {
  }

  /** A peer's summaries count the messages listed with the peer, plus any the peer sent to others. */
  predicate PeerCounts(ms: Messages, user: string, w: Setting, peer: string) {
    Total(Conversations(ms, user, w), PeerWeight(peer)) == |WithPeer(ms, user, peer)| + Count(ms, Foreign(user, peer))
  }

  /** Devices with one key belong to one user. */
  ghost predicate OnePeerPerKey(ms: Messages, user: string, w: Setting) {
    forall m, n :: (m in ms && n in ms && IsMessageVisibleToUser(m, user) && IsMessageVisibleToUser(n, user)
                    && KeyOfMessage(w, m, user) == KeyOfMessage(w, n, user)) ==> PeerOf(m, user) == PeerOf(n, user)
  }

  lemma PlainOnePeerPerKey(ms: Messages, user: string, w: Setting)
    requires PlainIds(ms)
    ensures OnePeerPerKey(ms, user, w)
  {
    hide IsMessageVisibleToUser, Plain, KeyOf;
    forall m, n | m in ms && n in ms && KeyOfMessage(w, m, user) == KeyOfMessage(w, n, user)
      ensures PeerOf(m, user) == PeerOf(n, user)
    {
      KeySeparates(w.locale, PeerOf(m, user), PeerDeviceOf(m, user), PeerOf(n, user), PeerDeviceOf(n, user));
    }
  }

  /** The user whose summary takes the last message in. */
  function TakenBy(ms: Messages, user: string, w: Setting): string
    requires ms != []
  {
    var m := ms[|ms| - 1];
    match FirstOf(ms[..|ms| - 1], Filed(w, user, KeyOfMessage(w, m, user)))
    case None => PeerOf(m, user)
    case Some(first) => PeerOf(first, user)
  }

  /** A message is counted for the user whose summary takes it in, and listed with its own peer. */
  lemma PeerCountsStep(ms: Messages, user: string, w: Setting, peer: string)
    requires ms != [] && PeerCounts(ms[..|ms| - 1], user, w, peer)
    ensures PeerCounts(ms, user, w, peer) <==>
      (IsMessageVisibleToUser(ms[|ms| - 1], user) ==>
         (TakenBy(ms, user, w) == peer <==> PeerOf(ms[|ms| - 1], user) == peer))
  {
    var init, m := ms[..|ms| - 1], ms[|ms| - 1];
    SummaryOfKey(init, user, w, KeyOfMessage(w, m, user));
    hide IsMessageVisibleToUser, KeyOf, Put, Lookup, PeerOf, PeerDeviceOf, Between, Foreign, FirstOf;
    if IsMessageVisibleToUser(m, user) {
      SummariseTotal(init, m, user, w, PeerWeight(peer));
      PeerCases(m, user, peer);
    } else {
      InvisibleNeither(m, user, peer);
    }
  }

  lemma {:induction false} PeerCountsAgree(ms: Messages, user: string, w: Setting, peer: string)
    requires OnePeerPerKey(ms, user, w)
    ensures PeerCounts(ms, user, w, peer)
  {
    hide IsMessageVisibleToUser, KeyOfMessage, PeerOf, WithPeer, Conversations, Foreign;
    if ms != [] {
      assert ms[|ms| - 1] in ms && forall m :: m in ms[..|ms| - 1] ==> m in ms;
      PeerCountsAgree(ms[..|ms| - 1], user, w, peer);
      PeerCountsStep(ms, user, w, peer);
    } else {
      NoCounts(user, w, peer);
    }
  }

  lemma NoCounts(user: string, w: Setting, peer: string)
    ensures PeerCounts([], user, w, peer)
  {
  }

  /** Where two users share a key, the counts go wrong with the message that makes them. */
  lemma {:induction false} SharedKeyMiscounts(ms: Messages, user: string, w: Setting) returns (i: nat, peer: string)
    requires !OnePeerPerKey(ms, user, w)
    ensures i <= |ms| && !PeerCounts(ms[..i], user, w, peer)
  {
    hide IsMessageVisibleToUser, KeyOfMessage, PeerOf, PeerCounts;
    var init, m := ms[..|ms| - 1], ms[|ms| - 1];
    if !OnePeerPerKey(init, user, w) {
      i, peer := SharedKeyMiscounts(init, user, w);
      assert init[..i] == ms[..i];
    } else {
      i, peer := |ms|, PeerOf(m, user);
      assert ms[..i] == ms;
      PeerCountsAgree(init, user, w, peer);
      LastShares(ms, user, w);
      PeerCountsStep(ms, user, w, peer);
    }
  }

  lemma LastShares(ms: Messages, user: string, w: Setting)
    requires ms != [] && !OnePeerPerKey(ms, user, w) && OnePeerPerKey(ms[..|ms| - 1], user, w)
    ensures IsMessageVisibleToUser(ms[|ms| - 1], user) && TakenBy(ms, user, w) != PeerOf(ms[|ms| - 1], user)
  {
    hide IsMessageVisibleToUser, KeyOfMessage, PeerOf;
    var init, m := ms[..|ms| - 1], ms[|ms| - 1];
    assert forall x :: x in ms ==> x in init || x == m;
    var a, b :| a in ms && b in ms && IsMessageVisibleToUser(a, user) && IsMessageVisibleToUser(b, user)
      && KeyOfMessage(w, a, user) == KeyOfMessage(w, b, user) && PeerOf(a, user) != PeerOf(b, user);
    var n := if a in init then a else b;
    assert n in init && IsMessageVisibleToUser(m, user) && PeerOf(n, user) != PeerOf(m, user);
    var f := Filed(w, user, KeyOfMessage(w, m, user));
    CountPositive(init, f, n);
    assert PeerOf(FirstOf(init, f).value, user) == PeerOf(n, user);
  }

  lemma {:induction false} CountPositive(ms: Messages, f: LocalMessage -> bool, m: LocalMessage)
    requires m in ms && f(m)
    ensures Count(ms, f) > 0
  {
    if ms[|ms| - 1] != m {
      assert m in ms[..|ms| - 1];
      CountPositive(ms[..|ms| - 1], f, m);
    }
  }

  /** The counts agree all the way through the cache, for every peer, exactly when devices with one key belong to
      one user. */
  lemma PeerCountsExactly(ms: Messages, user: string, w: Setting)
    ensures (forall i, peer :: 0 <= i <= |ms| ==> PeerCounts(ms[..i], user, w, peer)) <==> OnePeerPerKey(ms, user, w)
  {
    hide IsMessageVisibleToUser, KeyOfMessage, PeerOf, PeerCounts;
    if OnePeerPerKey(ms, user, w) {
      forall i, peer | 0 <= i <= |ms| ensures PeerCounts(ms[..i], user, w, peer) {
        assert forall m :: m in ms[..i] ==> m in ms;
        PeerCountsAgree(ms[..i], user, w, peer);
      }
    } else {
      var i, peer := SharedKeyMiscounts(ms, user, w);
    }
  }

  lemma InvisibleNeither(m: LocalMessage, user: string, peer: string)
    requires !IsMessageVisibleToUser(m, user)
    ensures !Between(m, user, peer) && !Foreign(user, peer)(m)
  {
  }

  // ---- marking a conversation read ----

  /** Unread messages the peer sent to someone else. */
  function ForeignUnread(user: string, peer: string, device: int): LocalMessage -> bool {
    m => TalkUnread(user, peer, device)(m) && m.recipientUserId != user
  }

  lemma ReadOneCounts(m: LocalMessage, user: string, marked: string, now: string, peer: string, device: int)
    requires now != ""
    ensures var r := ReadOne(m, user, marked, now);
      Talk(user, peer, device)(r) == Talk(user, peer, device)(m)
      && r.createdAt == m.createdAt
      && TalkUnread(user, peer, device)(r)
         == (if peer == marked then ForeignUnread(user, peer, device)(m) else TalkUnread(user, peer, device)(m))
  {
  }

  /** Marking a conversation read leaves that peer only the unread messages not addressed to the user, none in
      a cache of the user's own mail, and changes no other count. */
  lemma {:induction false} ReadZeroesPeer(ms: Messages, user: string, marked: string, now: string, peer: string,
      device: int)
    requires now != ""
    ensures var after := MarkedRead(ms, user, marked, now);
      Count(after, Talk(user, peer, device)) == Count(ms, Talk(user, peer, device))
      && LatestOf(after, Talk(user, peer, device)) == LatestOf(ms, Talk(user, peer, device))
      && Count(after, TalkUnread(user, peer, device))
         == (if peer == marked then Count(ms, ForeignUnread(user, peer, device))
             else Count(ms, TalkUnread(user, peer, device)))
  {
    if ms != [] {
      hide ReadOne, Talk, TalkUnread, ForeignUnread;
      var init, m := ms[..|ms| - 1], ms[|ms| - 1];
      var after := MarkedRead(ms, user, marked, now);
      assert after[..|after| - 1] == MarkedRead(init, user, marked, now);
      ReadZeroesPeer(init, user, marked, now, peer, device);
      ReadOneCounts(m, user, marked, now, peer, device);
    }
  }

  lemma OwnMessage(m: LocalMessage, user: string, peer: string, device: int)
    requires m.senderUserId == user || m.recipientUserId == user
    ensures !ForeignUnread(user, peer, device)(m) && !Foreign(user, peer)(m)
  {
    if m.recipientUserId != user {
      assert !UnreadIncoming(m, user);
      assert !TalkUnread(user, peer, device)(m);
    }
    assert !ForeignUnread(user, peer, device)(m);
  }

  lemma {:induction false} NoneForeign(ms: Messages, user: string, peer: string, device: int)
    requires forall m :: m in ms ==> m.senderUserId == user || m.recipientUserId == user
    ensures Count(ms, ForeignUnread(user, peer, device)) == 0 && Count(ms, Foreign(user, peer)) == 0
  {
    if ms != [] {
      hide Foreign, ForeignUnread;
      assert ms[|ms| - 1] in ms;
      OwnMessage(ms[|ms| - 1], user, peer, device);
      NoneForeign(ms[..|ms| - 1], user, peer, device);
    }
  }

  lemma {:induction false} ReadKeepsKeys(ms: Messages, user: string, w: Setting, marked: string, now: string,
      peer: string, device: int)
    requires Apart(ms, user, w, peer, device)
    ensures Apart(MarkedRead(ms, user, marked, now), user, w, peer, device)
  {
    var after := MarkedRead(ms, user, marked, now);
    forall r | r in after && Filed(w, user, KeyOf(w.locale, peer, device))(r) ensures Talk(user, peer, device)(r) {
      var i :| 0 <= i < |after| && after[i] == r;
      ReadKeepsPeer(ms[i], user, w, marked, now);
      hide IsMessageVisibleToUser, KeyOfMessage, PeerOf, PeerDeviceOf, ReadOne;
      assert ms[i] in ms && Filed(w, user, KeyOf(w.locale, peer, device))(ms[i]);
    }
  }

  lemma ReadKeepsPeer(m: LocalMessage, user: string, w: Setting, marked: string, now: string)
    ensures var r := ReadOne(m, user, marked, now);
      IsMessageVisibleToUser(r, user) == IsMessageVisibleToUser(m, user) && PeerOf(r, user) == PeerOf(m, user)
      && PeerDeviceOf(r, user) == PeerDeviceOf(m, user) && KeyOfMessage(w, r, user) == KeyOfMessage(w, m, user)
  {
    hide KeyOf;
  }

  /** In a cache of the user's own mail whose keys stay apart, as plain user ids do: the peer's conversation has no
      unread messages left, every other summary is the same, and counts agree with the message lists. */
  lemma OwnMailRead(ms: Messages, user: string, w: Setting, marked: string, now: string, peer: string, device: int)
    requires now != "" && forall m :: m in ms ==> m.senderUserId == user || m.recipientUserId == user
    requires Apart(ms, user, w, peer, device) && OnePeerPerKey(ms, user, w)
    ensures var before := Lookup(Conversations(ms, user, w), KeyOf(w.locale, peer, device));
      var after := Lookup(Conversations(MarkedRead(ms, user, marked, now), user, w), KeyOf(w.locale, peer, device));
      after == match before
               case None => None
               case Some(s) => Some(if peer == marked then s.(unreadCount := 0) else s)
    ensures Total(Conversations(ms, user, w), PeerWeight(peer)) == |WithPeer(ms, user, peer)|
  {
    hide Conversations, KeyOf, Lookup, MarkedRead, Talk, TalkUnread, ForeignUnread, Foreign, Apart, OnePeerPerKey;
    SummaryExact(ms, user, w, peer, device);
    ReadKeepsKeys(ms, user, w, marked, now, peer, device);
    SummaryExact(MarkedRead(ms, user, marked, now), user, w, peer, device);
    ReadZeroesPeer(ms, user, marked, now, peer, device);
    NoneForeign(ms, user, peer, device);
    PeerCountsAgree(ms, user, w, peer);
  }
}
