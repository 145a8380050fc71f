/** Refreshing the cache from the relay: the paged fetch of client/src/gateways/HttpGateways.cpp, then saving and
    reconciling in client/src/services/Services.cpp. */
module MessageSync {
  import opened LocalStore
  import R = MessageRelay
  import opened Wrappers

  const MESSAGE_PAGE_LIMIT: nat := 100

  // ---- the fetch ----

  function TimeText(t: R.Texts, time: Option<int>): string {
    match time case None => "" case Some(v) => t.time(v)
  }

  function ClientDirection(kind: R.Kind): Direction {
    match kind
    case Received => Direction.Received
    case Sent => Direction.Sent
  }

  const NO_ANCHOR := BlockchainAnchor("", "", "", "", "", "", "", "", "", "")

  /** messageFromJson of the row's JSON; a missing time is the empty text. */
  function FromRow(t: R.Texts, kind: R.Kind, m: R.Message): LocalMessage {
    LocalMessage(
      t.id(m.id), t.user(m.senderUserId), m.senderDeviceId, t.user(m.recipientUserId), m.recipientDeviceId,
      m.wirePayloadJson,
      m.consumedOneTimePrekeyId, Some(m.createdAt), TimeText(t, m.accessRevokedAt), TimeText(t, m.senderDeletedAt),
      TimeText(t, m.recipientDeletedAt), TimeText(t, m.deletedAt), "", "", ClientDirection(kind),
      t.time(m.createdAt), NO_ANCHOR)
  }

  /** Which of the row's values each field of the client's copy holds. */
  lemma FetchedFields(t: R.Texts, kind: R.Kind, m: R.Message)
    ensures var x := FromRow(t, kind, m);
      && x.id == t.id(m.id) && x.wirePayloadJson == m.wirePayloadJson
      && x.senderUserId == t.user(m.senderUserId) && x.senderDeviceId == m.senderDeviceId
      && x.recipientUserId == t.user(m.recipientUserId) && x.recipientDeviceId == m.recipientDeviceId
      && x.consumedOneTimePreKeyId == m.consumedOneTimePrekeyId
      && x.createdAt == Some(m.createdAt) && x.createdAtRaw == t.time(m.createdAt)
      && x.accessRevokedAt == (if m.accessRevokedAt.Some? then t.time(m.accessRevokedAt.value) else "")
      && x.senderDeletedAt == (if m.senderDeletedAt.Some? then t.time(m.senderDeletedAt.value) else "")
      && x.recipientDeletedAt == (if m.recipientDeletedAt.Some? then t.time(m.recipientDeletedAt.value) else "")
      && x.deletedAt == (if m.deletedAt.Some? then t.time(m.deletedAt.value) else "")
      && x.readAt == "" && x.localSenderCopyWirePayloadJson == "" && x.cachedAnchor.digest == ""
      && (x.direction == Direction.Received <==> kind == R.Received)
  {
  }

  function FromRows(t: R.Texts, kind: R.Kind, list: seq<R.Message>): (r: Messages)
    ensures |r| == |list|
  {
    seq(|list|, i requires 0 <= i < |list| => FromRow(t, kind, list[i]))
  }

  /** What the relay answers to a page request. */
  datatype Answer = Page(rows: seq<R.Message>) | Failure

  /** The first k answers are full pages. */
  predicate FullPages(answers: seq<Answer>, k: nat)
    requires k <= |answers|
  {
    forall i :: 0 <= i < k ==> answers[i].Page? && |answers[i].rows| >= MESSAGE_PAGE_LIMIT
  }

  function RowsOf(answers: seq<Answer>): seq<R.Message> {
    if answers == [] then []
    else (if answers[0].Page? then answers[0].rows else []) + RowsOf(answers[1..])
  }

  lemma FromRowsConcat(t: R.Texts, kind: R.Kind, a: seq<R.Message>, b: seq<R.Message>)
    ensures FromRows(t, kind, a + b) == FromRows(t, kind, a) + FromRows(t, kind, b)
  {
  }

  /** The answer on which the recursion stops, if there is one yet. */
  function Stop(answers: seq<Answer>): (k: nat)
    ensures k <= |answers| && FullPages(answers, k)
    ensures k < |answers| ==> answers[k].Failure? || |answers[k].rows| < MESSAGE_PAGE_LIMIT
  {
    if answers == [] || answers[0].Failure? || |answers[0].rows| < MESSAGE_PAGE_LIMIT then 0
    else 1 + Stop(answers[1..])
  }

  /** Stops at the first failure, with its error, or at the first short page, with the rows of all pages so far;
      waits while all pages are full. */
  function Fetched(t: R.Texts, kind: R.Kind, answers: seq<Answer>): Option<Result<Messages, string>> {
    var k := Stop(answers);
    if k == |answers| then None
    else if answers[k].Failure? then Some(Err("request failed"))
    else Some(Ok(FromRows(t, kind, RowsOf(answers[..k + 1]))))
  }

  /** The messages collected before, in front of a successful result. */
  function Following(collected: Messages, r: Option<Result<Messages, string>>): Option<Result<Messages, string>> {
    match r
    case Some(Ok(messages)) => Some(Ok(collected + messages))
    case other => other
  }

  /** The answers arrive one after another, whatever they hold; each full page is followed by the next request. */
  method FetchMessages(t: R.Texts, kind: R.Kind, answers: seq<Answer>, collected: Messages)
    returns (r: Option<Result<Messages, string>>)
    ensures r == Following(collected, Fetched(t, kind, answers))
    decreases |answers|
  {
    hide FromRow;
    if |answers| == 0 {
      return None;
    }
    if answers[0].Failure? {
      return Some(Err("request failed"));
    }
    var page := FromRows(t, kind, answers[0].rows);
    var lastPage := |page| < MESSAGE_PAGE_LIMIT;
    var more := collected + page;
    FirstAnswer(t, kind, answers);
    if lastPage {
      return Some(Ok(more));
    }
    hide Fetched;
    r := FetchMessages(t, kind, answers[1..], more);
    if r.Some? && r.value.Ok? {
      var messages := Fetched(t, kind, answers[1..]).value.value;
      assert more + messages == collected + (page + messages);
    }
  }

  lemma FirstAnswer(t: R.Texts, kind: R.Kind, answers: seq<Answer>)
    requires answers != [] && answers[0].Page?
    ensures var page := FromRows(t, kind, answers[0].rows);
      Fetched(t, kind, answers)
      == if |page| < MESSAGE_PAGE_LIMIT then Some(Ok(page))
         else Following(page, Fetched(t, kind, answers[1..]))
  {
    hide FromRow;
    var page := FromRows(t, kind, answers[0].rows);
    assert RowsOf([]) == [];
    if |page| < MESSAGE_PAGE_LIMIT {
      assert answers[..1][1..] == [] && RowsOf(answers[..1]) == answers[0].rows;
    } else {
      var k := Stop(answers[1..]);
      if k < |answers[1..]| && answers[1..][k].Page? {
        assert answers[..k + 2][1..] == answers[1..][..k + 1];
        FromRowsConcat(t, kind, answers[0].rows, RowsOf(answers[1..][..k + 1]));
      }
    }
  }

  // ---- rows that change between pages ----

  /** The answers to the requests for the pages of these tables, one table a request, from the offset on. */
  ghost predicate Answered(tables: seq<R.Rows>, user: nat, kind: R.Kind, offset: nat, answers: seq<Answer>) {
    |answers| == |tables| && forall k :: 0 <= k < |answers| && answers[k].Page? ==>
                               AnswersPage(tables[k], user, kind, offset + MESSAGE_PAGE_LIMIT * k, answers[k].rows)
  }

  ghost predicate AnswersPage(rows: R.Rows, user: nat, kind: R.Kind, offset: nat, page: seq<R.Message>) {
    exists list :: R.IsListing(rows, user, kind, list) && page == R.Page(list, MESSAGE_PAGE_LIMIT, offset)
  }

  lemma PageListed(rows: R.Rows, user: nat, kind: R.Kind, offset: nat, page: seq<R.Message>, m: R.Message)
    requires AnswersPage(rows, user, kind, offset, page) && m in page
    ensures m.id in rows && rows[m.id] == m && R.Listed(m, user, kind)
  {
    hide R.Listed;
    var list :| R.IsListing(rows, user, kind, list) && page == R.Page(list, MESSAGE_PAGE_LIMIT, offset);
    assert m in list;
  }

  lemma {:induction false} RowFromAnswer(answers: seq<Answer>, m: R.Message) returns (k: nat)
    requires m in RowsOf(answers)
    ensures k < |answers| && answers[k].Page? && m in answers[k].rows
  {
    if answers[0].Page? && m in answers[0].rows {
      k := 0;
    } else {
      k := RowFromAnswer(answers[1..], m);
      k := k + 1;
    }
  }

  /** Whatever happens to the table between the requests, a fetched message is a row that was listed for the user at
      one of them. */
  lemma FetchedWasListed(t: R.Texts, user: nat, kind: R.Kind, tables: seq<R.Rows>, answers: seq<Answer>,
      x: LocalMessage) returns (k: nat, m: R.Message)
    requires Answered(tables, user, kind, 0, answers)
    requires var r := Fetched(t, kind, answers); r.Some? && r.value.Ok? && x in r.value.value
    ensures k < |tables| && x == FromRow(t, kind, m)
    ensures m.id in tables[k] && tables[k][m.id] == m && R.Listed(m, user, kind)
  {
    hide FromRow, R.Listed, AnswersPage;
    var stop := Stop(answers);
    var rows := RowsOf(answers[..stop + 1]);
    var i :| 0 <= i < |rows| && FromRow(t, kind, rows[i]) == x;
    m := rows[i];
    k := RowFromAnswer(answers[..stop + 1], m);
    PageListed(tables[k], user, kind, MESSAGE_PAGE_LIMIT * k, answers[k].rows, m);
  }

  // ---- rows that stay as they are ----

  /** The answers to n requests from the offset on, all for one listing; fails says which requests fail. */
  function StableAnswers(list: seq<R.Message>, fails: nat -> bool, offset: nat, n: nat): (answers: seq<Answer>)
    ensures |answers| == n
    decreases n
  {
    if n == 0 then []
    else [if fails(offset) then Failure else Page(R.Page(list, MESSAGE_PAGE_LIMIT, offset))]
         + StableAnswers(list, fails, offset + MESSAGE_PAGE_LIMIT, n - 1)
  }

  lemma StableFirst(t: R.Texts, kind: R.Kind, list: seq<R.Message>, fails: nat -> bool, offset: nat, n: nat)
    requires offset <= |list| && n > 0
    ensures var page := R.Page(list, MESSAGE_PAGE_LIMIT, offset);
      Fetched(t, kind, StableAnswers(list, fails, offset, n))
      == if fails(offset) then Some(Err("request failed"))
         else if |list| < offset + MESSAGE_PAGE_LIMIT then Some(Ok(FromRows(t, kind, page)))
         else Following(FromRows(t, kind, page),
                    Fetched(t, kind, StableAnswers(list, fails, offset + MESSAGE_PAGE_LIMIT, n - 1)))
  {
    var answers := StableAnswers(list, fails, offset, n);
    var page := R.Page(list, MESSAGE_PAGE_LIMIT, offset);
    assert answers[0] == (if fails(offset) then Failure else Page(page));
    assert answers[1..] == StableAnswers(list, fails, offset + MESSAGE_PAGE_LIMIT, n - 1);
    hide FromRow, RowsOf, StableAnswers;
    if !fails(offset) {
      hide Fetched;
      FirstAnswer(t, kind, answers);
    }
  }

  /** While the relay's rows stay as they are the recursion ends; it fails exactly when a request up to the last page
      does, and otherwise collects the whole listing from the offset on. */
  lemma {:induction false} StableFetch(t: R.Texts, kind: R.Kind, list: seq<R.Message>, fails: nat -> bool, offset: nat,
      n: nat)
    requires offset <= |list| < offset + MESSAGE_PAGE_LIMIT * n
    ensures Fetched(t, kind, StableAnswers(list, fails, offset, n))
      == Some(if SomePageFails(fails, offset, |list|) then Err("request failed")
              else Ok(FromRows(t, kind, list[offset..])))
    decreases n
  {
    var page := R.Page(list, MESSAGE_PAGE_LIMIT, offset);
    var next := offset + MESSAGE_PAGE_LIMIT;
    PageCut(list, offset);
    hide FromRows, Fetched, StableAnswers, SomePageFails, R.Page;
    StableFirst(t, kind, list, fails, offset, n);
    FirstOrLater(fails, offset, |list|);
    if !fails(offset) {
      if |list| < next {
        NoPageBeyond(fails, offset, |list|);
      } else {
        StableFetch(t, kind, list, fails, next, n - 1);
        FromRowsConcat(t, kind, page, list[next..]);
      }
    }
  }

  lemma PageCut(list: seq<R.Message>, offset: nat)
    requires offset <= |list|
    ensures var page, next := R.Page(list, MESSAGE_PAGE_LIMIT, offset), offset + MESSAGE_PAGE_LIMIT;
      list[offset..] == if |list| < next then page else page + list[next..]
  {
  }

  /** The message at position i leaves the listing between the first request and the others. */
  function ShiftedAnswers(list: seq<R.Message>, i: nat, n: nat): seq<Answer>
    requires i < |list|
  {
    [Page(R.Page(list, MESSAGE_PAGE_LIMIT, 0))]
    + StableAnswers(list[..i] + list[i + 1..], _ => false, MESSAGE_PAGE_LIMIT, n)
  }

  /** A message leaves the listing between the first request and the others: the message that was the first of the
      second page is fetched if and only if the one that left stood behind it. */
  lemma ShiftedFetch(t: R.Texts, kind: R.Kind, list: seq<R.Message>, i: nat, n: nat)
    requires |list| > MESSAGE_PAGE_LIMIT && i < |list| < MESSAGE_PAGE_LIMIT * n && i != MESSAGE_PAGE_LIMIT
    requires forall j, k :: 0 <= j < |list| && 0 <= k < |list| && t.id(list[j].id) == t.id(list[k].id) ==> j == k
    ensures var r := Fetched(t, kind, ShiftedAnswers(list, i, n));
      r.Some? && r.value.Ok?
      && (t.id(list[MESSAGE_PAGE_LIMIT].id) in Ids(r.value.value) <==> i > MESSAGE_PAGE_LIMIT)
  {
    var shorter := list[..i] + list[i + 1..];
    var rest := StableAnswers(shorter, _ => false, MESSAGE_PAGE_LIMIT, n);
    var first := R.Page(list, MESSAGE_PAGE_LIMIT, 0);
    var answers := ShiftedAnswers(list, i, n);
    assert first == list[..MESSAGE_PAGE_LIMIT] && answers[1..] == rest;
    FirstAnswer(t, kind, answers);
    StableFetch(t, kind, shorter, _ => false, MESSAGE_PAGE_LIMIT, n);
    var rows := first + shorter[MESSAGE_PAGE_LIMIT..];
    FromRowsConcat(t, kind, first, shorter[MESSAGE_PAGE_LIMIT..]);
    hide Fetched;
    assert Fetched(t, kind, answers) == Some(Ok(FromRows(t, kind, rows)));
    SkippedRow(t, kind, list, i);
  }

  /** A refresh with such a fetch hides the skipped message, which the relay still lists, whatever the cache held. */
  lemma SkippedIsHidden(t: R.Texts, kind: R.Kind, list: seq<R.Message>, i: nat, n: nat, ms: Messages, user: string,
      now: string)
    requires i < MESSAGE_PAGE_LIMIT < |list| < MESSAGE_PAGE_LIMIT * n && now != ""
    requires forall j, k :: 0 <= j < |list| && 0 <= k < |list| && t.id(list[j].id) == t.id(list[k].id) ==> j == k
    ensures var r := Fetched(t, kind, ShiftedAnswers(list, i, n));
      r.Some? && r.value.Ok?
      && var direction, fetched := ClientDirection(kind), r.value.value;
      t.id(list[MESSAGE_PAGE_LIMIT].id)
      !in VisibleIds(Reconciled(SavedAll(ms, fetched), user, direction, Ids(fetched), now), user, direction)
  {
    ShiftedFetch(t, kind, list, i, n);
    hide Fetched, ShiftedAnswers, VisibleIds, Reconciled, SavedAll, Ids;
    var fetched := Fetched(t, kind, ShiftedAnswers(list, i, n)).value.value;
    ReconciledCoherent(SavedAll(ms, fetched), user, ClientDirection(kind), Ids(fetched), now);
  }

  lemma SkippedRow(t: R.Texts, kind: R.Kind, list: seq<R.Message>, i: nat)
    requires |list| > MESSAGE_PAGE_LIMIT && i < |list| && i != MESSAGE_PAGE_LIMIT
    requires forall j, k :: 0 <= j < |list| && 0 <= k < |list| && t.id(list[j].id) == t.id(list[k].id) ==> j == k
    ensures var rows := list[..MESSAGE_PAGE_LIMIT] + (list[..i] + list[i + 1..])[MESSAGE_PAGE_LIMIT..];
      t.id(list[MESSAGE_PAGE_LIMIT].id) in Ids(FromRows(t, kind, rows)) <==> i > MESSAGE_PAGE_LIMIT
  {
    hide FromRow;
    var shorter := list[..i] + list[i + 1..];
    var rows := list[..MESSAGE_PAGE_LIMIT] + shorter[MESSAGE_PAGE_LIMIT..];
    var fetched := FromRows(t, kind, rows);
    forall k | 0 <= k < |rows| ensures fetched[k] in fetched && fetched[k].id == t.id(rows[k].id) {
      RowId(t, kind, rows[k]);
    }
    if i > MESSAGE_PAGE_LIMIT {
      assert rows[MESSAGE_PAGE_LIMIT] == list[MESSAGE_PAGE_LIMIT];
    } else {
      forall k | 0 <= k < |rows| ensures t.id(rows[k].id) != t.id(list[MESSAGE_PAGE_LIMIT].id) {
        assert rows[k] == if k < MESSAGE_PAGE_LIMIT then list[k] else list[k + 1];
      }
    }
  }

  /** The request for page k from the offset on is made for a listing of this size, and fails. */
  predicate PageFails(fails: nat -> bool, offset: nat, size: nat, k: nat) {
    offset + MESSAGE_PAGE_LIMIT * k <= size && fails(offset + MESSAGE_PAGE_LIMIT * k)
  }

  ghost predicate SomePageFails(fails: nat -> bool, offset: nat, size: nat) {
    exists k: nat :: PageFails(fails, offset, size, k)
  }

  lemma NoPageBeyond(fails: nat -> bool, offset: nat, size: nat)
    requires size < offset + MESSAGE_PAGE_LIMIT
    ensures !SomePageFails(fails, offset + MESSAGE_PAGE_LIMIT, size)
  {
  }

  lemma FirstOrLater(fails: nat -> bool, offset: nat, size: nat)
    requires offset <= size
    ensures SomePageFails(fails, offset, size)
       <==> fails(offset) || SomePageFails(fails, offset + MESSAGE_PAGE_LIMIT, size)
  {
    if fails(offset) {
      assert PageFails(fails, offset, size, 0);
    }
    if k: nat :| PageFails(fails, offset, size, k) && k > 0 {
      assert PageFails(fails, offset + MESSAGE_PAGE_LIMIT, size, k - 1);
    }
    var next := offset + MESSAGE_PAGE_LIMIT;
    if k: nat :| PageFails(fails, next, size, k) {
      assert PageFails(fails, offset, size, k + 1);
    }
  }

  // ---- what a save of a whole listing leaves ----

  /** The copy of a listed message the cache ends up with. */
  function Copy(ms: Messages, m: LocalMessage): LocalMessage {
    var i := Find(ms, m.id);
    if i == |ms| then m else Merged(ms[i], m)
  }

  lemma {:induction false} UnlistedUntouched(ms: Messages, list: Messages, i: nat)
    requires UniqueIds(ms) && i < |ms| && ms[i].id !in Ids(list)
    ensures UniqueIds(SavedAll(ms, list)) && i < |SavedAll(ms, list)| && SavedAll(ms, list)[i] == ms[i]
    decreases |list|
  {
    if list != [] {
      hide Saved;
      SavedAt(ms, list[0], i);
      SavedUnique(ms, list[0]);
      assert list[0].id in Ids(list);
      UnlistedUntouched(Saved(ms, list[0]), list[1..], i);
    }
  }

  lemma CopyAfterOther(ms: Messages, other: LocalMessage, m: LocalMessage)
    requires other.id != m.id
    ensures Copy(Saved(ms, other), m) == Copy(ms, m)
  {
    FindAfterOther(ms, other, m.id);
  }

  lemma FindAfterOther(ms: Messages, other: LocalMessage, id: string)
    requires other.id != id
    ensures var i, next := Find(ms, id), Saved(ms, other);
      if i == |ms| then Find(next, id) == |next| else Find(next, id) == i && next[i] == ms[i]
  {
    var i, k, next := Find(ms, id), Find(ms, other.id), Saved(ms, other);
    assert forall j :: 0 <= j < |next| && j < i ==> next[j].id != id;
    if i < |ms| {
      assert next[i] == ms[i];
    }
  }

  lemma CopySaved(ms: Messages, m: LocalMessage) returns (i: nat)
    ensures i < |Saved(ms, m)| && Saved(ms, m)[i] == Copy(ms, m) && Copy(ms, m).id == m.id
  {
    i := Find(ms, m.id);
  }

  /** Each listed message's copy is in the cache afterwards. */
  lemma {:induction false} ListedCopyCached(ms: Messages, list: Messages, k: nat)
    requires UniqueIds(ms) && UniqueIds(list) && k < |list|
    ensures Copy(ms, list[k]) in SavedAll(ms, list) && Copy(ms, list[k]).id == list[k].id
    decreases |list|
  {
    hide Saved, Copy;
    var next := Saved(ms, list[0]);
    SavedUnique(ms, list[0]);
    var i := CopySaved(ms, list[0]);
    if k == 0 {
      forall m | m in list[1..] ensures m.id != list[0].id {
        var j :| 1 <= j < |list| && list[j] == m;
      }
      UnlistedUntouched(next, list[1..], i);
    } else {
      ListedCopyCached(next, list[1..], k - 1);
      CopyAfterOther(ms, list[0], list[k]);
    }
  }

  lemma AllCopiesCached(ms: Messages, list: Messages)
    requires UniqueIds(ms) && UniqueIds(list)
    ensures UniqueIds(SavedAll(ms, list))
    ensures forall m :: m in list ==> Copy(ms, m) in SavedAll(ms, list) && Copy(ms, m).id == m.id
    ensures forall x, m :: x in SavedAll(ms, list) && m in list && x.id == m.id ==> x == Copy(ms, m)
  {
    hide SavedAll, Copy;
    SavedAllKeeps(ms, list);
    var after := SavedAll(ms, list);
    forall m | m in list ensures Copy(ms, m) in after && Copy(ms, m).id == m.id {
      var k :| 0 <= k < |list| && list[k] == m;
      ListedCopyCached(ms, list, k);
    }
    forall x, m | x in after && m in list && x.id == m.id ensures x == Copy(ms, m) {
      var i :| 0 <= i < |after| && after[i] == x;
      var j :| 0 <= j < |after| && after[j] == Copy(ms, m);
    }
  }

  /** Synchronising with a listing: the user then sees in that direction exactly the listed messages whose
      copy has no tombstone. */
  lemma SyncExact(ms: Messages, user: string, direction: Direction, list: Messages, now: string)
    requires UniqueIds(ms) && UniqueIds(list) && now != "" && forall m :: m in list ==> Relevant(m, user, direction)
    ensures VisibleIds(Reconciled(SavedAll(ms, list), user, direction, Ids(list), now), user, direction)
      == set m | m in list && IsMessageVisibleToUser(Copy(ms, m), user) :: m.id
  {
    hide Reconciled, SavedAll, IsMessageVisibleToUser, Relevant, Copy, UniqueIds, VisibleIds;
    SyncCoherent(ms, user, direction, list, now);
    AllCopiesCached(ms, list);
    var after := SavedAll(ms, list);
    var shown := set m | m in list && IsMessageVisibleToUser(Copy(ms, m), user) :: m.id;
    var copies := set x | x in after && x.id in Ids(list) && IsMessageVisibleToUser(x, user) :: x.id;
    forall id | id in copies ensures id in shown {
      var x :| x in after && x.id in Ids(list) && IsMessageVisibleToUser(x, user) && x.id == id;
      var m :| m in list && m.id == id;
      assert x == Copy(ms, m);
    }
    forall id | id in shown ensures id in copies {
      var m :| m in list && IsMessageVisibleToUser(Copy(ms, m), user) && m.id == id;
      assert Copy(ms, m) in after;
    }
  }

  // ---- against the relay's listing ----

  /** Ids and users are written differently when they differ, and no time is written as nothing. */
  ghost predicate Faithful(t: R.Texts) {
    && (forall a, b :: t.id(a) == t.id(b) ==> a == b)
    && (forall a, b :: t.user(a) == t.user(b) ==> a == b)
    && (forall time :: t.time(time) != "")
  }

  /** A listed row the client shows when it has no older copy: also not deleted in the user's other role, and
      in the sent list not revoked, which the relay itself does not ask for. */
  predicate ShownFresh(m: R.Message, user: nat, kind: R.Kind) {
    && m.deletedAt.None? && m.accessRevokedAt.None?
    && (m.senderUserId == user ==> m.senderDeletedAt.None?)
    && (m.recipientUserId == user ==> m.recipientDeletedAt.None?)
  }

  lemma FreshVisible(t: R.Texts, kind: R.Kind, m: R.Message, user: nat)
    requires Faithful(t)
    ensures IsMessageVisibleToUser(FromRow(t, kind, m), t.user(user)) <==> ShownFresh(m, user, kind)
    ensures Relevant(FromRow(t, kind, m), t.user(user), ClientDirection(kind))
      <==> (match kind case Received => m.recipientUserId == user case Sent => m.senderUserId == user)
  {
  }

  lemma ListingConverts(t: R.Texts, rows: R.Rows, user: nat, kind: R.Kind, list: seq<R.Message>)
    requires Faithful(t) && R.IsListing(rows, user, kind, list)
    ensures UniqueIds(FromRows(t, kind, list))
    ensures forall m :: m in FromRows(t, kind, list) ==> Relevant(m, t.user(user), ClientDirection(kind))
  {
    hide FromRow, Relevant;
    var local := FromRows(t, kind, list);
    forall i, j | 0 <= i < |local| && 0 <= j < |local| && local[i].id == local[j].id ensures i == j {
      RowId(t, kind, list[i]);
      RowId(t, kind, list[j]);
      assert list[i].id == list[j].id && list[i] in list && list[j] in list;
      assert !R.Newer(list[i], list[j]) && !R.Newer(list[j], list[i]);
    }
    forall m | m in local ensures Relevant(m, t.user(user), ClientDirection(kind)) {
      var i :| 0 <= i < |local| && local[i] == m;
      assert list[i] in list;
      FreshVisible(t, kind, list[i], user);
    }
  }

  lemma RowId(t: R.Texts, kind: R.Kind, m: R.Message)
    ensures FromRow(t, kind, m).id == t.id(m.id)
  {
  }

  /** End to end, for any cache: after fetching, saving and reconciling against stable rows, the user sees in
      that direction exactly the listed messages that are not hidden by a tombstone of the row or of an older
      cached copy. */
  lemma RefreshCoherent(t: R.Texts, ms: Messages, rows: R.Rows, user: nat, kind: R.Kind, list: seq<R.Message>,
      now: string)
    requires Faithful(t) && UniqueIds(ms) && now != "" && R.IsListing(rows, user, kind, list)
    ensures var fetched, me, direction := FromRows(t, kind, list), t.user(user), ClientDirection(kind);
      VisibleIds(Reconciled(SavedAll(ms, fetched), me, direction, Ids(fetched), now), me, direction)
      == set m | m in list && ShownFresh(m, user, kind) && NotHiddenBefore(ms, FromRow(t, kind, m), me) :: t.id(m.id)
  {
    hide FromRow, VisibleIds, Reconciled, SavedAll, Relevant, R.IsListing, ShownFresh, NotHiddenBefore, Copy;
    var fetched, me, direction := FromRows(t, kind, list), t.user(user), ClientDirection(kind);
    ListingConverts(t, rows, user, kind, list);
    SyncExact(ms, me, direction, fetched, now);
    forall m | m in list
      ensures FromRow(t, kind, m) in fetched && FromRow(t, kind, m).id == t.id(m.id)
      ensures IsMessageVisibleToUser(Copy(ms, FromRow(t, kind, m)), me)
        <==> ShownFresh(m, user, kind) && NotHiddenBefore(ms, FromRow(t, kind, m), me)
    {
      var i :| 0 <= i < |list| && list[i] == m;
      assert fetched[i] == FromRow(t, kind, m);
      RowId(t, kind, m);
      CopyVisible(ms, FromRow(t, kind, m), me);
      FreshVisible(t, kind, m, user);
    }
    forall x | x in fetched ensures exists m :: m in list && FromRow(t, kind, m) == x {
      var i :| 0 <= i < |fetched| && fetched[i] == x;
      assert list[i] in list;
    }
  }

  /** No older copy of m in the cache has a tombstone against m's roles for the user. */
  predicate NotHiddenBefore(ms: Messages, m: LocalMessage, user: string) {
    var i := Find(ms, m.id);
    i < |ms| ==>
      IsMessageVisibleToUser(ms[i].(senderUserId := m.senderUserId, recipientUserId := m.recipientUserId), user)
  }

  lemma CopyVisible(ms: Messages, m: LocalMessage, user: string)
    ensures IsMessageVisibleToUser(Copy(ms, m), user) <==>
      IsMessageVisibleToUser(m, user) && NotHiddenBefore(ms, m, user)
  {
    var i := Find(ms, m.id);
    if i < |ms| {
      MergedVisibility(ms[i], m, user);
    }
  }

  /** A message the sender revoked stays in the relay's sent list and leaves the sender's own cache view. */
  lemma RevokedListedButHidden(t: R.Texts, ms: Messages, rows: R.Rows, user: nat, list: seq<R.Message>, m: R.Message,
      now: string)
    requires Faithful(t) && UniqueIds(ms) && now != "" && R.IsListing(rows, user, R.Sent, list)
    requires m.id in rows && rows[m.id] == m && R.SenderVisible(m, user) && m.accessRevokedAt.Some?
    ensures m in list
    ensures var fetched, me := FromRows(t, R.Sent, list), t.user(user);
      t.id(m.id) !in VisibleIds(Reconciled(SavedAll(ms, fetched), me, Sent, Ids(fetched), now), me, Sent)
  {
    hide VisibleIds, Reconciled, SavedAll, NotHiddenBefore;
    RefreshCoherent(t, ms, rows, user, R.Sent, list, now);
    assert R.Listed(m, user, R.Sent);
    forall x | x in list && t.id(x.id) == t.id(m.id) ensures !ShownFresh(x, user, R.Sent) {
      assert rows[x.id] == x;
    }
  }
}
