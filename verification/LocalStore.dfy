/** The client's message cache, client/src/storage/JsonLocalStore.cpp: merging refreshed messages, tombstones,
    and the reconciliation against a listing that MessageService does in client/src/services/Services.cpp. */
module LocalStore {
  import opened Wrappers

  datatype Direction = Received | Sent

  datatype BlockchainAnchor = BlockchainAnchor(
    id: string, messageId: string, recordId: string, digest: string, merkleRoot: string, transactionHash: string,
    contractAddress: string, chain: string, status: string, anchoredAt: string)

  /** Times the client only passes on are text, empty when missing. */
  datatype LocalMessage = LocalMessage(
    id: string, senderUserId: string, senderDeviceId: int, recipientUserId: string, recipientDeviceId: int,
    wirePayloadJson: string, consumedOneTimePreKeyId: Option<int>, createdAt: Option<int>,
    accessRevokedAt: string, senderDeletedAt: string, recipientDeletedAt: string, deletedAt: string,
    readAt: string, localSenderCopyWirePayloadJson: string, direction: Direction, createdAtRaw: string,
    cachedAnchor: BlockchainAnchor)

  type Messages = seq<LocalMessage>

  // ---- specification ----

  predicate IsMessageVisibleToUser(m: LocalMessage, user: string) {
    m.deletedAt == "" && m.accessRevokedAt == ""
    && (m.senderUserId == user ==> m.senderDeletedAt == "")
    && (m.recipientUserId == user ==> m.recipientDeletedAt == "")
  }

  function FirstNonEmpty(first: string, fallback: string): string { if first == "" then fallback else first }

  /** The position of the first message with this id; the length when there is none. */
  function Find(ms: Messages, id: string): (i: nat)
    ensures i <= |ms|
    ensures i < |ms| ==> ms[i].id == id
    ensures forall k :: 0 <= k < i ==> ms[k].id != id
  {
    if ms == [] || ms[0].id == id then 0 else 1 + Find(ms[1..], id)
  }

  /** What a cached message becomes when a newer version arrives. */
  function Merged(cached: LocalMessage, m: LocalMessage): LocalMessage {
    m.(readAt := FirstNonEmpty(m.readAt, cached.readAt),
       localSenderCopyWirePayloadJson :=
         FirstNonEmpty(m.localSenderCopyWirePayloadJson, cached.localSenderCopyWirePayloadJson),
       cachedAnchor := if m.cachedAnchor.digest == "" then cached.cachedAnchor else m.cachedAnchor,
       accessRevokedAt := FirstNonEmpty(m.accessRevokedAt, cached.accessRevokedAt),
       senderDeletedAt := FirstNonEmpty(m.senderDeletedAt, cached.senderDeletedAt),
       recipientDeletedAt := FirstNonEmpty(m.recipientDeletedAt, cached.recipientDeletedAt),
       deletedAt := FirstNonEmpty(m.deletedAt, cached.deletedAt))
  }

  function Saved(ms: Messages, m: LocalMessage): Messages {
    var i := Find(ms, m.id);
    if i == |ms| then ms + [m] else ms[i := Merged(ms[i], m)]
  }

  function DeletedBy(m: LocalMessage, user: string, now: string): LocalMessage {
    var asSender := if m.senderUserId == user then m.(senderDeletedAt := FirstNonEmpty(m.senderDeletedAt, now)) else m;
    var asRecipient :=
      if m.recipientUserId == user then asSender.(recipientDeletedAt := FirstNonEmpty(m.recipientDeletedAt, now))
      else asSender;
    if m.senderUserId != user && m.recipientUserId != user then
      asRecipient.(deletedAt := FirstNonEmpty(m.deletedAt, now))
    else asRecipient
  }

  function DeletedFor(ms: Messages, user: string, id: string, now: string): Messages {
    var i := Find(ms, id);
    if i == |ms| then ms else ms[i := DeletedBy(ms[i], user, now)]
  }

  predicate Relevant(m: LocalMessage, user: string, direction: Direction) {
    match direction case Received => m.recipientUserId == user case Sent => m.senderUserId == user
  }

  function ReconciledOne(m: LocalMessage, user: string, direction: Direction, visibleIds: set<string>,
      now: string): LocalMessage {
    if !Relevant(m, user, direction) || m.id in visibleIds || !IsMessageVisibleToUser(m, user) then m
    else if direction == Received then m.(accessRevokedAt := FirstNonEmpty(m.accessRevokedAt, now))
    else m.(senderDeletedAt := FirstNonEmpty(m.senderDeletedAt, now))
  }

  function Reconciled(ms: Messages, user: string, direction: Direction, visibleIds: set<string>,
      now: string): (r: Messages)
    ensures |r| == |ms|
  {
    seq(|ms|, i requires 0 <= i < |ms| => ReconciledOne(ms[i], user, direction, visibleIds, now))
  }

  function ReadOne(m: LocalMessage, user: string, peer: string, now: string): LocalMessage {
    if m.senderUserId == peer && m.recipientUserId == user && m.readAt == "" then m.(readAt := now) else m
  }

  function MarkedRead(ms: Messages, user: string, peer: string, now: string): (r: Messages)
    ensures |r| == |ms|
  {
    seq(|ms|, i requires 0 <= i < |ms| => ReadOne(ms[i], user, peer, now))
  }

  function SavedAll(ms: Messages, list: Messages): Messages
    decreases |list|
  {
    if list == [] then ms else SavedAll(Saved(ms, list[0]), list[1..])
  }

  function Ids(list: Messages): set<string> { set m | m in list :: m.id }

  // ---- the code ----

  /** Writing the file after a change may fail; the list in memory has changed all the same. */
  class JsonLocalStore {
    var messages: Messages

    constructor (loaded: Messages)
      ensures messages == loaded
    {
      messages := loaded;
    }

    method SaveMessage(m: LocalMessage, written: bool) returns (ok: bool)
      modifies this
      ensures messages == Saved(old(messages), m) && ok == written
    {
      var i := Find(messages, m.id);
      if i == |messages| {
        messages := messages + [m];
      } else {
        var it := messages[i];
        var previousReadAt, previousLocalSenderCopy := it.readAt, it.localSenderCopyWirePayloadJson;
        var previousCachedAnchor, previousAccessRevokedAt := it.cachedAnchor, it.accessRevokedAt;
        var previousSenderDeletedAt, previousRecipientDeletedAt := it.senderDeletedAt, it.recipientDeletedAt;
        var previousDeletedAt := it.deletedAt;
        it := m;
        if it.readAt == "" {
          it := it.(readAt := previousReadAt);
        }
        if it.localSenderCopyWirePayloadJson == "" {
          it := it.(localSenderCopyWirePayloadJson := previousLocalSenderCopy);
        }
        if it.cachedAnchor.digest == "" {
          it := it.(cachedAnchor := previousCachedAnchor);
        }
        it := it.(accessRevokedAt := FirstNonEmpty(it.accessRevokedAt, previousAccessRevokedAt));
        it := it.(senderDeletedAt := FirstNonEmpty(it.senderDeletedAt, previousSenderDeletedAt));
        it := it.(recipientDeletedAt := FirstNonEmpty(it.recipientDeletedAt, previousRecipientDeletedAt));
        it := it.(deletedAt := FirstNonEmpty(it.deletedAt, previousDeletedAt));
        messages := messages[i := it];
      }
      ok := written;
    }

    method MarkMessageDeletedFor(user: string, id: string, now: string, written: bool) returns (ok: bool)
      modifies this
      ensures messages == DeletedFor(old(messages), user, id, now)
      ensures ok == (written || Find(old(messages), id) == |old(messages)|)
    {
      var i := Find(messages, id);
      if i == |messages| {
        return true;
      }
      var it := messages[i];
      if it.senderUserId == user {
        it := it.(senderDeletedAt := FirstNonEmpty(it.senderDeletedAt, now));
      }
      if it.recipientUserId == user {
        it := it.(recipientDeletedAt := FirstNonEmpty(it.recipientDeletedAt, now));
      }
      if it.senderUserId != user && it.recipientUserId != user {
        it := it.(deletedAt := FirstNonEmpty(it.deletedAt, now));
      }
      messages := messages[i := it];
      ok := written;
    }

    method ReconcileVisibleMessages(user: string, direction: Direction, visibleIds: set<string>, now: string,
        written: bool)
        returns (ok: bool)
      modifies this
      ensures messages == Reconciled(old(messages), user, direction, visibleIds, now) && ok == written
    {
      var i := 0;
      while i < |messages|
        invariant 0 <= i <= |messages| == |old(messages)|
        invariant forall k :: 0 <= k < i ==>
                                messages[k] == ReconciledOne(old(messages)[k], user, direction, visibleIds, now)
        invariant forall k :: i <= k < |messages| ==> messages[k] == old(messages)[k]
      {
        var message := messages[i];
        var relevantReceived := direction == Received && message.recipientUserId == user;
        var relevantSent := direction == Sent && message.senderUserId == user;
        var relevant := relevantReceived || relevantSent;
        var stillVisible := message.id in visibleIds;
        if relevant && !stillVisible && IsMessageVisibleToUser(message, user) {
          if relevantReceived {
            message := message.(accessRevokedAt := FirstNonEmpty(message.accessRevokedAt, now));
          } else {
            message := message.(senderDeletedAt := FirstNonEmpty(message.senderDeletedAt, now));
          }
          messages := messages[i := message];
        }
        i := i + 1;
      }
      ok := written;
    }

    method MarkConversationRead(user: string, peer: string, now: string, written: bool) returns (ok: bool)
      modifies this
      ensures messages == MarkedRead(old(messages), user, peer, now) && ok == written
    {
      var i := 0;
      while i < |messages|
        invariant 0 <= i <= |messages| == |old(messages)|
        invariant forall k :: 0 <= k < i ==> messages[k] == ReadOne(old(messages)[k], user, peer, now)
        invariant forall k :: i <= k < |messages| ==> messages[k] == old(messages)[k]
      {
        var message := messages[i];
        var incomingFromPeer := message.senderUserId == peer && message.recipientUserId == user;
        if incomingFromPeer && message.readAt == "" {
          messages := messages[i := message.(readAt := now)];
        }
        i := i + 1;
      }
      ok := written;
    }
  }

  /** saveMessages stops after the first write that fails. */
  function SavedUpTo(list: Messages, writes: seq<bool>): Messages
    requires |writes| == |list|
    decreases |list|
  {
    if list == [] then [] else if !writes[0] then [list[0]] else [list[0]] + SavedUpTo(list[1..], writes[1..])
  }

  method SaveMessages(store: JsonLocalStore, list: Messages, writes: seq<bool>)
    requires |writes| == |list|
    modifies store
    ensures store.messages == SavedAll(old(store.messages), SavedUpTo(list, writes))
  {
    hide Saved;
    assert list[0..] == list && writes[0..] == writes;
    for i := 0 to |list|
      invariant SavedAll(store.messages, SavedUpTo(list[i..], writes[i..]))
        == SavedAll(old(store.messages), SavedUpTo(list, writes))
    {
      assert list[i..][1..] == list[i + 1..] && writes[i..][1..] == writes[i + 1..];
      ghost var before := store.messages;
      var ok := store.SaveMessage(list[i], writes[i]);
      if !ok {
        assert SavedAll(before, [list[i]]) == SavedAll(store.messages, []);
        return;
      }
    }
  }

  /** saveAndReconcileMessages: the ids still visible are those listed, even when saving stopped early. */
  method SaveAndReconcileMessages(store: JsonLocalStore, user: string, list: Messages, direction: Direction,
      now: string, writes: seq<bool>)
    requires |writes| == |list|
    modifies store
    ensures store.messages
      == Reconciled(SavedAll(old(store.messages), SavedUpTo(list, writes)), user, direction, Ids(list), now)
  {
    hide SavedAll, Reconciled;
    SaveMessages(store, list, writes);
    var visibleMessageIds: set<string> := {};
    for i := 0 to |list|
      invariant visibleMessageIds == Ids(list[..i])
    {
      assert list[..i + 1] == list[..i] + [list[i]];
      visibleMessageIds := visibleMessageIds + {list[i].id};
    }
    assert list[..|list|] == list;
    var written := store.ReconcileVisibleMessages(user, direction, visibleMessageIds, now, true);
  }

  // ---- runs ----

  ghost predicate UniqueIds(ms: Messages) {
    forall i, j :: 0 <= i < |ms| && 0 <= j < |ms| && ms[i].id == ms[j].id ==> i == j
  }

  datatype Op =
    | Save(m: LocalMessage)
    | MarkDeleted(id: string, now: string)
    | Reconcile(direction: Direction, visibleIds: set<string>, now: string)
    | MarkRead(peer: string, now: string)

  function Apply(ms: Messages, user: string, op: Op): Messages {
    match op
    case Save(m) => Saved(ms, m)
    case MarkDeleted(id, now) => DeletedFor(ms, user, id, now)
    case Reconcile(direction, visibleIds, now) => Reconciled(ms, user, direction, visibleIds, now)
    case MarkRead(peer, now) => MarkedRead(ms, user, peer, now)
  }

  /** The cache after a run of operations of one signed-in user. */
  function After(ms: Messages, user: string, ops: seq<Op>): Messages
    decreases |ops|
  {
    if ops == [] then ms else After(Apply(ms, user, ops[0]), user, ops[1..])
  }

  /** later holds everything earlier held that must not be lost. */
  predicate Keeps(earlier: LocalMessage, later: LocalMessage) {
    later.id == earlier.id
    && (earlier.accessRevokedAt != "" ==> later.accessRevokedAt != "")
    && (earlier.senderDeletedAt != "" ==> later.senderDeletedAt != "")
    && (earlier.recipientDeletedAt != "" ==> later.recipientDeletedAt != "")
    && (earlier.deletedAt != "" ==> later.deletedAt != "")
    && (earlier.readAt != "" ==> later.readAt != "")
    && (earlier.localSenderCopyWirePayloadJson != "" ==> later.localSenderCopyWirePayloadJson != "")
    && (earlier.cachedAnchor.digest != "" ==> later.cachedAnchor.digest != "")
  }

  predicate SameParticipants(a: LocalMessage, b: LocalMessage) {
    a.senderUserId == b.senderUserId && a.recipientUserId == b.recipientUserId
  }

  lemma SavedAt(ms: Messages, m: LocalMessage, i: nat)
    requires i < |ms| && UniqueIds(ms)
    ensures i < |Saved(ms, m)| && Keeps(ms[i], Saved(ms, m)[i])
    ensures Saved(ms, m)[i] == if ms[i].id == m.id then Merged(ms[i], m) else ms[i]
  {
  }

  lemma SavedUnique(ms: Messages, m: LocalMessage)
    requires UniqueIds(ms)
    ensures UniqueIds(Saved(ms, m))
  {
  }

  /** Each operation keeps ids unique, keeps every message where it is and loses nothing of it; only saving a
      message under the same id can change its participants. */
  lemma StepKeeps(ms: Messages, user: string, op: Op, i: nat)
    requires UniqueIds(ms) && i < |ms|
    ensures UniqueIds(Apply(ms, user, op))
    ensures i < |Apply(ms, user, op)| && Keeps(ms[i], Apply(ms, user, op)[i])
    ensures SameParticipants(ms[i], Apply(ms, user, op)[i])
      || (op.Save? && op.m.id == ms[i].id && !SameParticipants(ms[i], op.m))
  {
    hide Find, Keeps;
    match op
    case Save(m) =>
      SavedAt(ms, m, i);
      SavedUnique(ms, m);
    case MarkDeleted(id, now) => KeepsDeleted(ms, user, id, now, i);
    case Reconcile(direction, visibleIds, now) => KeepsReconciled(ms[i], user, direction, visibleIds, now);
    case MarkRead(peer, now) => KeepsRead(ms[i], user, peer, now);
  }

  lemma DeletedByKeeps(m: LocalMessage, user: string, now: string)
    ensures Keeps(m, DeletedBy(m, user, now)) && SameParticipants(m, DeletedBy(m, user, now))
  {
  }

  lemma KeepsDeleted(ms: Messages, user: string, id: string, now: string, i: nat)
    requires UniqueIds(ms) && i < |ms|
    ensures UniqueIds(DeletedFor(ms, user, id, now)) && |DeletedFor(ms, user, id, now)| == |ms|
    ensures Keeps(ms[i], DeletedFor(ms, user, id, now)[i]) && SameParticipants(ms[i], DeletedFor(ms, user, id, now)[i])
  {
    hide DeletedBy, Keeps;
    var k := Find(ms, id);
    KeepsItself(ms[i]);
    if k < |ms| {
      DeletedByKeeps(ms[k], user, now);
      SameId(ms[k], DeletedBy(ms[k], user, now));
    }
  }

  lemma KeepsItself(m: LocalMessage)
    ensures Keeps(m, m)
  {
  }

  lemma SameId(a: LocalMessage, b: LocalMessage)
    requires Keeps(a, b)
    ensures b.id == a.id
  {
  }

  lemma KeepsReconciled(m: LocalMessage, user: string, direction: Direction, visibleIds: set<string>, now: string)
    ensures Keeps(m, ReconciledOne(m, user, direction, visibleIds, now))
    ensures SameParticipants(m, ReconciledOne(m, user, direction, visibleIds, now))
  {
  }

  lemma KeepsRead(m: LocalMessage, user: string, peer: string, now: string)
    ensures Keeps(m, ReadOne(m, user, peer, now)) && SameParticipants(m, ReadOne(m, user, peer, now))
  {
  }

  predicate KeepsParticipants(op: Op, m: LocalMessage) { op.Save? && op.m.id == m.id ==> SameParticipants(m, op.m) }

  /** Over every run ids stay unique, no message is dropped, and no read mark, sender copy, anchor or tombstone
      is lost. */
  lemma {:induction false} NothingLost(ms: Messages, user: string, ops: seq<Op>, i: nat)
    requires UniqueIds(ms) && i < |ms|
    ensures UniqueIds(After(ms, user, ops)) && i < |After(ms, user, ops)|
    ensures Keeps(ms[i], After(ms, user, ops)[i])
    decreases |ops|
  {
    if ops != [] {
      hide Apply;
      StepKeeps(ms, user, ops[0], i);
      NothingLost(Apply(ms, user, ops[0]), user, ops[1..], i);
    }
  }

  /** Over every run whose refreshes keep a message's participants, a message hidden from someone stays
      hidden from him. */
  lemma {:induction false} HiddenStaysHidden(ms: Messages, user: string, ops: seq<Op>, i: nat, viewer: string)
    requires UniqueIds(ms) && i < |ms| && !IsMessageVisibleToUser(ms[i], viewer)
    requires forall op :: op in ops ==> KeepsParticipants(op, ms[i])
    ensures i < |After(ms, user, ops)| && After(ms, user, ops)[i].id == ms[i].id
    ensures SameParticipants(ms[i], After(ms, user, ops)[i])
    ensures !IsMessageVisibleToUser(After(ms, user, ops)[i], viewer)
    decreases |ops|
  {
    if ops != [] {
      hide Apply;
      StepKeeps(ms, user, ops[0], i);
      var next := Apply(ms, user, ops[0]);
      assert KeepsParticipants(ops[0], ms[i]);
      forall op | op in ops[1..] ensures KeepsParticipants(op, next[i]) {
        assert KeepsParticipants(op, ms[i]);
      }
      HiddenStaysHidden(next, user, ops[1..], i, viewer);
    }
  }

  // ---- what each operation changes ----

  /** i is the place of the first message with this id. */
  ghost predicate FirstAt(ms: Messages, id: string, i: nat) {
    i < |ms| && ms[i].id == id && forall k :: 0 <= k < i ==> ms[k].id != id
  }

  /** later is earlier but for the element at i. */
  ghost predicate OnlyAt(earlier: Messages, later: Messages, i: nat) {
    i < |earlier| == |later| && forall k :: 0 <= k < |earlier| && k != i ==> later[k] == earlier[k]
  }

  /** A deleted message is hidden from the user who deletes it; a participant hides it from nobody else, someone who is
      none from everybody. Nothing else changes, on the message or in the cache. */
  lemma DeletedEffect(ms: Messages, user: string, id: string, now: string, i: nat)
    requires FirstAt(ms, id, i) && now != ""
    ensures var after := DeletedFor(ms, user, id, now);
      OnlyAt(ms, after, i) && !IsMessageVisibleToUser(after[i], user)
      && (if ms[i].senderUserId == user || ms[i].recipientUserId == user
          then forall v :: v != user ==> IsMessageVisibleToUser(after[i], v) == IsMessageVisibleToUser(ms[i], v)
          else forall v :: !IsMessageVisibleToUser(after[i], v))
    ensures var before, after := ms[i], DeletedFor(ms, user, id, now)[i];
      && after == before.(senderDeletedAt := after.senderDeletedAt, recipientDeletedAt := after.recipientDeletedAt,
                          deletedAt := after.deletedAt)
      && after.senderDeletedAt == (if before.senderUserId == user && before.senderDeletedAt == "" then now
                                   else before.senderDeletedAt)
      && after.recipientDeletedAt == (if before.recipientUserId == user && before.recipientDeletedAt == "" then now
                                      else before.recipientDeletedAt)
      && after.deletedAt == (if before.senderUserId != user && before.recipientUserId != user && before.deletedAt == ""
                             then now else before.deletedAt)
  {
    assert Find(ms, id) == i;
  }

  /** A message the cache does not hold cannot be deleted. */
  lemma DeletedUnknown(ms: Messages, user: string, id: string, now: string)
    requires forall k :: 0 <= k < |ms| ==> ms[k].id != id
    ensures DeletedFor(ms, user, id, now) == ms
  {
  }

  /** And the message stays hidden from the user over every later run that keeps its participants. */
  lemma DeletedForGood(ms: Messages, user: string, id: string, now: string, i: nat, signedIn: string, ops: seq<Op>)
    requires UniqueIds(ms) && FirstAt(ms, id, i) && now != ""
    requires forall op :: op in ops ==> KeepsParticipants(op, ms[i])
    ensures var after := After(DeletedFor(ms, user, id, now), signedIn, ops);
      i < |after| && after[i].id == id && !IsMessageVisibleToUser(after[i], user)
  {
    DeletedEffect(ms, user, id, now, i);
    var deleted := DeletedFor(ms, user, id, now);
    DeletedKeepsIds(ms, user, id, now);
    forall op | op in ops ensures KeepsParticipants(op, deleted[i]) {
      assert KeepsParticipants(op, ms[i]);
    }
    hide DeletedFor, After, IsMessageVisibleToUser;
    HiddenStaysHidden(deleted, signedIn, ops, i, user);
  }

  lemma DeletedKeepsIds(ms: Messages, user: string, id: string, now: string)
    requires UniqueIds(ms)
    ensures UniqueIds(DeletedFor(ms, user, id, now))
  {
    hide Find;
  }

  /** A new id is appended. Of a known one the newer version is kept, with the older read mark, sender copy, anchor and
      tombstones only where the newer one has none. */
  lemma SavedEffect(ms: Messages, m: LocalMessage, i: nat)
    ensures (forall k :: 0 <= k < |ms| ==> ms[k].id != m.id) ==> Saved(ms, m) == ms + [m]
    ensures FirstAt(ms, m.id, i) ==> OnlyAt(ms, Saved(ms, m), i)
    ensures FirstAt(ms, m.id, i) ==>
      var was, x := ms[i], Saved(ms, m)[i];
      && x == m.(readAt := x.readAt, localSenderCopyWirePayloadJson := x.localSenderCopyWirePayloadJson,
                 cachedAnchor := x.cachedAnchor, accessRevokedAt := x.accessRevokedAt,
                 senderDeletedAt := x.senderDeletedAt, recipientDeletedAt := x.recipientDeletedAt,
                 deletedAt := x.deletedAt)
      && x.readAt == (if m.readAt != "" then m.readAt else was.readAt)
      && x.localSenderCopyWirePayloadJson == (if m.localSenderCopyWirePayloadJson != ""
                                              then m.localSenderCopyWirePayloadJson
                                              else was.localSenderCopyWirePayloadJson)
      && x.cachedAnchor == (if m.cachedAnchor.digest != "" then m.cachedAnchor else was.cachedAnchor)
      && x.accessRevokedAt == (if m.accessRevokedAt != "" then m.accessRevokedAt else was.accessRevokedAt)
      && x.senderDeletedAt == (if m.senderDeletedAt != "" then m.senderDeletedAt else was.senderDeletedAt)
      && x.recipientDeletedAt == (if m.recipientDeletedAt != "" then m.recipientDeletedAt else was.recipientDeletedAt)
      && x.deletedAt == (if m.deletedAt != "" then m.deletedAt else was.deletedAt)
  {
    if FirstAt(ms, m.id, i) {
      assert Find(ms, m.id) == i;
    }
  }

  /** Reconciling touches exactly the messages of the direction that the user sees and that are not listed: a received
      one counts as revoked, a sent one as deleted by its sender, from now on. */
  lemma ReconciledEffect(ms: Messages, user: string, direction: Direction, ids: set<string>, now: string, k: nat)
    requires k < |ms|
    ensures var m, r := ms[k], Reconciled(ms, user, direction, ids, now);
      |r| == |ms|
      && r[k] == if m.id in ids || !IsMessageVisibleToUser(m, user) then m
                 else if direction.Received? && m.recipientUserId == user then m.(accessRevokedAt := now)
                 else if direction.Sent? && m.senderUserId == user then m.(senderDeletedAt := now)
                 else m
  {
  }

  /** Reading a conversation touches exactly the peer's unread messages to the user, and only their read mark. */
  lemma ReadEffect(ms: Messages, user: string, peer: string, now: string, k: nat)
    requires k < |ms|
    ensures var m, r := ms[k], MarkedRead(ms, user, peer, now);
      |r| == |ms| && r[k].readAt == (if m.senderUserId == peer && m.recipientUserId == user && m.readAt == "" then now
                                     else m.readAt)
      && r[k] == m.(readAt := r[k].readAt)
  {
  }

  /** When a refresh may change participants, a hidden message is safe from every refresh exactly when one of
      its tombstones does not depend on who its participants are. */
  lemma HiddenFromEveryRefresh(m: LocalMessage, viewer: string, other: string)
    requires !IsMessageVisibleToUser(m, viewer) && other != viewer
    ensures (forall refresh: LocalMessage :: !IsMessageVisibleToUser(Merged(m, refresh), viewer))
      <==> (m.deletedAt != "" || m.accessRevokedAt != "")
  {
    if m.deletedAt == "" && m.accessRevokedAt == "" {
      var refresh := m.(senderUserId := other, recipientUserId := other);
      assert IsMessageVisibleToUser(Merged(m, refresh), viewer);
    }
  }

  // ---- coherence with a listing ----

  lemma {:induction false} SavedAllKeeps(ms: Messages, list: Messages)
    requires UniqueIds(ms)
    ensures UniqueIds(SavedAll(ms, list)) && |ms| <= |SavedAll(ms, list)|
    ensures forall i :: 0 <= i < |ms| ==> Keeps(ms[i], SavedAll(ms, list)[i])
    decreases |list|
  {
    if list != [] {
      hide Saved, Keeps;
      var next := Saved(ms, list[0]);
      SavedUnique(ms, list[0]);
      SavedLength(ms, list[0]);
      SavedAllKeeps(next, list[1..]);
      forall i | 0 <= i < |ms| ensures Keeps(ms[i], SavedAll(ms, list)[i]) {
        SavedAt(ms, list[0], i);
        KeepsTransitive(ms[i], next[i], SavedAll(ms, list)[i]);
      }
    }
  }

  lemma SavedLength(ms: Messages, m: LocalMessage)
    ensures |ms| <= |Saved(ms, m)|
    ensures exists i :: 0 <= i < |Saved(ms, m)| && Saved(ms, m)[i].id == m.id && SameParticipants(Saved(ms, m)[i], m)
  {
    var i := Find(ms, m.id);
    assert Saved(ms, m)[i].id == m.id && SameParticipants(Saved(ms, m)[i], m);
  }

  lemma KeepsTransitive(a: LocalMessage, b: LocalMessage, c: LocalMessage)
    requires Keeps(a, b) && Keeps(b, c)
    ensures Keeps(a, c)
  {
  }

  predicate CachedAt(ms: Messages, i: nat, id: string, user: string, direction: Direction) {
    i < |ms| && ms[i].id == id && Relevant(ms[i], user, direction)
  }

  /** Once saved, every listed id is cached, and its message is relevant in the listing's direction. */
  lemma {:induction false} ListedIsCached(ms: Messages, list: Messages, user: string, direction: Direction, k: nat)
    requires UniqueIds(ms) && k < |list| && forall m :: m in list ==> Relevant(m, user, direction)
    ensures exists i: nat :: CachedAt(SavedAll(ms, list), i, list[k].id, user, direction)
    decreases |list|
  {
    hide Saved, Relevant;
    var next := Saved(ms, list[0]);
    SavedUnique(ms, list[0]);
    assert SavedAll(ms, list) == SavedAll(next, list[1..]);
    if k == 0 {
      SavedLength(ms, list[0]);
      var i :| 0 <= i < |next| && next[i].id == list[0].id && SameParticipants(next[i], list[0]);
      assert list[0] in list;
      RelevantByParticipants(list[0], next[i], user, direction);
      StaysRelevant(next, list[1..], user, direction, i);
      assert CachedAt(SavedAll(ms, list), i, list[k].id, user, direction);
    } else {
      assert list[k] == list[1..][k - 1];
      ListedIsCached(next, list[1..], user, direction, k - 1);
    }
  }

  lemma RelevantByParticipants(a: LocalMessage, b: LocalMessage, user: string, direction: Direction)
    requires SameParticipants(a, b)
    ensures Relevant(a, user, direction) == Relevant(b, user, direction)
  {
  }

  lemma ListedAreCached(ms: Messages, list: Messages, user: string, direction: Direction)
    requires UniqueIds(ms) && forall m :: m in list ==> Relevant(m, user, direction)
    ensures forall id :: id in Ids(list) ==> exists x :: x in SavedAll(ms, list) && x.id == id
    ensures forall x :: x in SavedAll(ms, list) && x.id in Ids(list) ==> Relevant(x, user, direction)
  {
    hide SavedAll, Relevant;
    SavedAllKeeps(ms, list);
    var after := SavedAll(ms, list);
    forall id | id in Ids(list) ensures exists x :: x in after && x.id == id && Relevant(x, user, direction) {
      var m :| m in list && m.id == id;
      var k :| 0 <= k < |list| && list[k] == m;
      ListedIsCached(ms, list, user, direction, k);
      var i: nat :| CachedAt(after, i, id, user, direction);
      assert after[i] in after;
    }
    forall x | x in after && x.id in Ids(list) ensures Relevant(x, user, direction) {
      var y :| y in after && y.id == x.id && Relevant(y, user, direction);
      var i :| 0 <= i < |after| && after[i] == x;
      var j :| 0 <= j < |after| && after[j] == y;
    }
  }

  lemma MergedParticipants(a: LocalMessage, m: LocalMessage)
    ensures Merged(a, m).id == m.id && SameParticipants(Merged(a, m), m)
  {
  }

  lemma {:induction false} StaysRelevant(ms: Messages, list: Messages, user: string, direction: Direction, i: nat)
    requires UniqueIds(ms) && i < |ms| && Relevant(ms[i], user, direction)
    requires forall m :: m in list ==> Relevant(m, user, direction)
    ensures i < |SavedAll(ms, list)| && SavedAll(ms, list)[i].id == ms[i].id && UniqueIds(SavedAll(ms, list))
    ensures Relevant(SavedAll(ms, list)[i], user, direction)
    decreases |list|
  {
    if list != [] {
      hide Saved, Merged;
      assert list[0] in list;
      SavedAt(ms, list[0], i);
      SavedUnique(ms, list[0]);
      MergedParticipants(ms[i], list[0]);
      RelevantByParticipants(list[0], Merged(ms[i], list[0]), user, direction);
      StaysRelevant(Saved(ms, list[0]), list[1..], user, direction, i);
    }
  }

  function VisibleIds(ms: Messages, user: string, direction: Direction): set<string> {
    set m | m in ms && Relevant(m, user, direction) && IsMessageVisibleToUser(m, user) :: m.id
  }

  /** After reconciling, the messages of a direction the user sees are exactly those listed whose cached copy
      has no tombstone, whatever the cache held before. */
  lemma ReconciledCoherent(ms: Messages, user: string, direction: Direction, ids: set<string>, now: string)
    requires now != ""
    ensures VisibleIds(Reconciled(ms, user, direction, ids, now), user, direction)
      == VisibleIds(ms, user, direction) * ids
  {
    var after := Reconciled(ms, user, direction, ids, now);
    forall id | id in VisibleIds(after, user, direction) ensures id in VisibleIds(ms, user, direction) * ids {
      var m :| m in after && Relevant(m, user, direction) && IsMessageVisibleToUser(m, user) && m.id == id;
      var i :| 0 <= i < |after| && after[i] == m;
      assert ms[i] in ms && ReconciledOne(ms[i], user, direction, ids, now) == m;
    }
    forall id | id in VisibleIds(ms, user, direction) * ids ensures id in VisibleIds(after, user, direction) {
      var m :| m in ms && Relevant(m, user, direction) && IsMessageVisibleToUser(m, user) && m.id == id;
      var i :| 0 <= i < |ms| && ms[i] == m;
      assert after[i] == m;
    }
  }

  /** Saving and reconciling a listing of the user's messages: the cache then shows, in that direction, exactly
      the listed ids whose merged copy carries no tombstone for the user. */
  lemma SyncCoherent(ms: Messages, user: string, direction: Direction, list: Messages, now: string)
    requires UniqueIds(ms) && now != "" && forall m :: m in list ==> Relevant(m, user, direction)
    ensures UniqueIds(SavedAll(ms, list))
    ensures forall id :: id in Ids(list) ==> exists x :: x in SavedAll(ms, list) && x.id == id
    ensures VisibleIds(Reconciled(SavedAll(ms, list), user, direction, Ids(list), now), user, direction)
      == set x | x in SavedAll(ms, list) && x.id in Ids(list) && IsMessageVisibleToUser(x, user) :: x.id
  {
    hide Reconciled, SavedAll, IsMessageVisibleToUser, Relevant;
    SavedAllKeeps(ms, list);
    ListedAreCached(ms, list, user, direction);
    ReconciledCoherent(SavedAll(ms, list), user, direction, Ids(list), now);
  }

  /** A merge hides a message from the user when the cached copy or the new one has a tombstone against the
      new one's roles. */
  lemma MergedVisibility(cached: LocalMessage, m: LocalMessage, user: string)
    ensures IsMessageVisibleToUser(Merged(cached, m), user) <==>
      IsMessageVisibleToUser(m, user)
      && IsMessageVisibleToUser(cached.(senderUserId := m.senderUserId, recipientUserId := m.recipientUserId), user)
  {
  }

  /** The messages up to and with the first whose write fails are in the cache; all when none fails. */
  lemma {:induction false} SavedUpToExactly(list: Messages, writes: seq<bool>, k: nat)
    requires |writes| == |list| && k <= |list| && forall i :: 0 <= i < k ==> writes[i]
    ensures k == |list| ==> SavedUpTo(list, writes) == list
    ensures k < |list| && !writes[k] ==> SavedUpTo(list, writes) == list[..k + 1]
    decreases |list|
  {
    if k > 0 {
      SavedUpToExactly(list[1..], writes[1..], k - 1);
      if k < |list| {
        assert list[..k + 1] == [list[0]] + list[1..][..k];
      }
    }
  }

  /** Stopping early at a failed write never shows more than the listing allows. */
  lemma {:induction false} FailedWritesShowNoMore(ms: Messages, user: string, direction: Direction, list: Messages,
      writes: seq<bool>, now: string)
    requires now != "" && |writes| == |list|
    ensures var saved := SavedAll(ms, SavedUpTo(list, writes));
      VisibleIds(Reconciled(saved, user, direction, Ids(list), now), user, direction) <= Ids(list)
    ensures (forall i :: 0 <= i < |writes| ==> writes[i]) ==> SavedUpTo(list, writes) == list
  {
    hide Reconciled, SavedAll, Ids;
    ReconciledCoherent(SavedAll(ms, SavedUpTo(list, writes)), user, direction, Ids(list), now);
    AllWritten(list, writes);
  }

  lemma {:induction false} AllWritten(list: Messages, writes: seq<bool>)
    requires |writes| == |list|
    ensures (forall i :: 0 <= i < |writes| ==> writes[i]) ==> SavedUpTo(list, writes) == list
    decreases |list|
  {
    if list != [] {
      AllWritten(list[1..], writes[1..]);
      assert list == [list[0]] + list[1..];
    }
  }
}
