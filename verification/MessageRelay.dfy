/** The relay's message table: server/backend/app/services/message_service.py over
    server/backend/app/repositories/message_repository.py. */
module MessageRelay {
  import CanonicalReading
  import CanonicalRecord
  import JsonReader
  import opened Wrappers

  datatype Message = Message(
    id: nat, senderUserId: nat, senderDeviceId: int, recipientUserId: nat, recipientDeviceId: int,
    wirePayloadJson: string, consumedOneTimePrekeyId: Option<int>, forwardedFrom: Option<nat>, createdAt: int,
    accessRevokedAt: Option<int>, senderDeletedAt: Option<int>, recipientDeletedAt: Option<int>,
    deletedAt: Option<int>)

  datatype MessageCreateRequest = MessageCreateRequest(
    senderDeviceId: int, recipientUserId: nat, recipientDeviceId: int, wirePayloadJson: string,
    consumedOneTimePrekeyId: Option<int>)

  datatype RelayError = MessageNotFound | MessageAccessDenied | RecipientNotFound | InvalidDevice | InvalidPreKey

  type Rows = map<nat, Message>

  /** What the validation reads: active users, their active devices, and prekeys handed out. */
  datatype Directory = Directory(
    activeUsers: set<nat>, activeDevices: set<(nat, int)>, usedPrekeys: set<(nat, int, int)>)

  // ---- who sees what ----

  predicate SenderVisible(m: Message, user: nat) {
    m.senderUserId == user && m.senderDeletedAt.None? && m.deletedAt.None?
  }

  predicate RecipientVisible(m: Message, user: nat) {
    m.recipientUserId == user && m.recipientDeletedAt.None? && m.accessRevokedAt.None? && m.deletedAt.None?
  }

  predicate Accessible(m: Message, user: nat) { SenderVisible(m, user) || RecipientVisible(m, user) }

  // ---- the operations ----

  function Validated(d: Directory, user: nat, q: MessageCreateRequest): Option<RelayError> {
    if q.recipientUserId !in d.activeUsers then Some(RecipientNotFound)
    else if (user, q.senderDeviceId) !in d.activeDevices then Some(InvalidDevice)
    else if (q.recipientUserId, q.recipientDeviceId) !in d.activeDevices then Some(InvalidDevice)
    else if q.consumedOneTimePrekeyId.Some?
         && (q.recipientUserId, q.recipientDeviceId, q.consumedOneTimePrekeyId.value) !in d.usedPrekeys then
      Some(InvalidPreKey)
    else None
  }

  function NewMessage(id: nat, user: nat, q: MessageCreateRequest, forwardedFrom: Option<nat>, now: int): Message {
    Message(id, user, q.senderDeviceId, q.recipientUserId, q.recipientDeviceId, q.wirePayloadJson,
            q.consumedOneTimePrekeyId, forwardedFrom, now, None, None, None, None)
  }

  predicate DevicesActive(d: Directory, user: nat, q: MessageCreateRequest) {
    (user, q.senderDeviceId) in d.activeDevices && (q.recipientUserId, q.recipientDeviceId) in d.activeDevices
  }

  predicate PrekeyUsed(d: Directory, q: MessageCreateRequest) {
    q.consumedOneTimePrekeyId.Some? ==>
      (q.recipientUserId, q.recipientDeviceId, q.consumedOneTimePrekeyId.value) in d.usedPrekeys
  }

  /** Which check a send fails first, and that it fails none exactly when the recipient and both devices are active
      and a consumed prekey it names has been handed out. */
  lemma ValidationExact(d: Directory, user: nat, q: MessageCreateRequest)
    ensures var active, devices := q.recipientUserId in d.activeUsers, DevicesActive(d, user, q);
      (Validated(d, user, q) == None <==> active && devices && PrekeyUsed(d, q))
      && (Validated(d, user, q) == Some(RecipientNotFound) <==> !active)
      && (Validated(d, user, q) == Some(InvalidDevice) <==> active && !devices)
      && (Validated(d, user, q) == Some(InvalidPreKey) <==> active && devices && !PrekeyUsed(d, q))
  {
  }

  /** The user sees the message in the role a delete acts on, the sender's if the user is both. */
  predicate VisibleInRole(m: Message, user: nat) {
    if m.senderUserId == user then SenderVisible(m, user) else RecipientVisible(m, user)
  }

  /** A delete hides the message from the user's role; a message the user sent to himself stays accessible in the
      other role, and nobody else's view changes. */
  ghost predicate DeleteHides(before: Message, after: Message, user: nat) {
    && (Accessible(after, user) <==> before.senderUserId == before.recipientUserId && RecipientVisible(before, user))
    && forall other :: other != user ==>
         SenderVisible(after, other) == SenderVisible(before, other)
         && RecipientVisible(after, other) == RecipientVisible(before, other)
  }

  /** A revoke takes the message from its recipient and from nobody's sent list. */
  ghost predicate RevokeHides(before: Message, after: Message) {
    forall u :: !RecipientVisible(after, u) && SenderVisible(after, u) == SenderVisible(before, u)
  }

  /** A request of a signed-in user; id is the fresh key of a row it would insert, now the database clock. */
  datatype Op =
    | Send(q: MessageCreateRequest, id: nat)
    | Forward(original: nat, q: MessageCreateRequest, id: nat)
    | Delete(message: nat)
    | Revoke(message: nat)

  function Outcome(rows: Rows, d: Directory, user: nat, op: Op, now: int): Result<Message, RelayError> {
    match op
    case Send(q, id) =>
      (match Validated(d, user, q) case Some(e) => Err(e) case None => Ok(NewMessage(id, user, q, None, now)))
    case Forward(original, q, id) =>
      if original !in rows || !Accessible(rows[original], user) then Err(MessageNotFound)
      else (match Validated(d, user, q)
            case Some(e) => Err(e)
            case None => Ok(NewMessage(id, user, q, Some(original), now)))
    case Delete(message) =>
      if message !in rows || rows[message].deletedAt.Some? then Err(MessageNotFound)
      else
        var m := rows[message];
        if m.senderUserId == user then
          if m.senderDeletedAt.Some? then Err(MessageAccessDenied) else Ok(m.(senderDeletedAt := Some(now)))
        else if m.recipientUserId == user then
          if m.recipientDeletedAt.Some? || m.accessRevokedAt.Some? then Err(MessageAccessDenied)
          else Ok(m.(recipientDeletedAt := Some(now)))
        else Err(MessageAccessDenied)
    case Revoke(message) =>
      if message !in rows || rows[message].deletedAt.Some? then Err(MessageNotFound)
      else if rows[message].senderUserId != user then Err(MessageAccessDenied)
      else Ok(rows[message].(accessRevokedAt := Some(now)))
  }

  predicate FreshId(rows: Rows, op: Op) { (op.Send? || op.Forward?) ==> op.id !in rows }

  function Apply(rows: Rows, d: Directory, user: nat, op: Op, now: int): Rows {
    var r := Outcome(rows, d, user, op, now);
    if r.Err? then rows else rows[r.value.id := r.value]
  }

  class Relay {
    var rows: Rows
    var directory: Directory

    /** Every row is stored under its own id. */
    ghost predicate Valid()
      reads this
    {
      forall id :: id in rows ==> rows[id].id == id
    }

    method SendMessage(user: nat, q: MessageCreateRequest, id: nat, now: int) returns (r: Result<Message, RelayError>)
      requires Valid() && id !in rows
      modifies this`rows
      ensures Valid()
      ensures r == Outcome(old(rows), directory, user, Send(q, id), now)
      ensures rows == Apply(old(rows), directory, user, Send(q, id), now)
      ensures r.Ok? <==> q.recipientUserId in directory.activeUsers && DevicesActive(directory, user, q)
                         && PrekeyUsed(directory, q)
      ensures r.Ok? ==> id in rows && Accessible(rows[id], user) && Accessible(rows[id], q.recipientUserId)
      ensures r.Ok? ==> rows == old(rows)[id := r.value]
                        && r.value == Message(id, user, q.senderDeviceId, q.recipientUserId, q.recipientDeviceId,
                                              q.wirePayloadJson, q.consumedOneTimePrekeyId, None, now,
                                              None, None, None, None)
    {
      ValidationExact(directory, user, q);
      var error := ValidateSendInputs(user, q);
      if error.Some? {
        return Err(error.value);
      }
      var message := NewMessage(id, user, q, None, now);
      rows := rows[id := message];
      r := Ok(message);
    }

    method ForwardMessage(user: nat, original: nat, q: MessageCreateRequest, id: nat, now: int)
      returns (r: Result<Message, RelayError>)
      requires Valid() && id !in rows
      modifies this`rows
      ensures Valid()
      ensures r == Outcome(old(rows), directory, user, Forward(original, q, id), now)
      ensures rows == Apply(old(rows), directory, user, Forward(original, q, id), now)
      ensures r.Ok? ==>
                && original in old(rows) && Accessible(old(rows)[original], user)
                && original in rows && rows[original] == old(rows)[original]
                && Accessible(r.value, user) && Accessible(r.value, q.recipientUserId)
                && rows == old(rows)[id := r.value]
                && r.value == Message(id, user, q.senderDeviceId, q.recipientUserId, q.recipientDeviceId,
                                      q.wirePayloadJson, q.consumedOneTimePrekeyId, Some(original), now,
                                      None, None, None, None)
      ensures r.Ok? <==> original in old(rows) && Accessible(old(rows)[original], user)
                         && q.recipientUserId in directory.activeUsers && DevicesActive(directory, user, q)
                         && PrekeyUsed(directory, q)
    {
      ValidationExact(directory, user, q);
      if original !in rows || !Accessible(rows[original], user) {
        return Err(MessageNotFound);
      }
      var error := ValidateSendInputs(user, q);
      if error.Some? {
        return Err(error.value);
      }
      var forwarded := NewMessage(id, user, q, Some(original), now);
      rows := rows[id := forwarded];
      r := Ok(forwarded);
    }

    method ValidateSendInputs(user: nat, q: MessageCreateRequest) returns (error: Option<RelayError>)
      ensures error == Validated(directory, user, q)
    {
      if q.recipientUserId !in directory.activeUsers {
        return Some(RecipientNotFound);
      }
      if (user, q.senderDeviceId) !in directory.activeDevices {
        return Some(InvalidDevice);
      }
      if (q.recipientUserId, q.recipientDeviceId) !in directory.activeDevices {
        return Some(InvalidDevice);
      }
      if q.consumedOneTimePrekeyId.Some? {
        if (q.recipientUserId, q.recipientDeviceId, q.consumedOneTimePrekeyId.value) !in directory.usedPrekeys {
          return Some(InvalidPreKey);
        }
      }
      error := None;
    }

    method MarkSenderDeleted(message: nat, user: nat, now: int) returns (r: Option<Message>)
      requires Valid()
      modifies this`rows
      ensures Valid()
      ensures r.Some? <==> message in old(rows) && SenderVisible(old(rows)[message], user)
      ensures r.Some? ==>
                && r.value == old(rows)[message].(senderDeletedAt := Some(now))
                && rows == old(rows)[message := r.value]
      ensures r.None? ==> rows == old(rows)
    {
      if message !in rows || !SenderVisible(rows[message], user) {
        return None;
      }
      rows := rows[message := rows[message].(senderDeletedAt := Some(now))];
      r := Some(rows[message]);
    }

    method MarkRecipientDeleted(message: nat, user: nat, now: int) returns (r: Option<Message>)
      requires Valid()
      modifies this`rows
      ensures Valid()
      ensures r.Some? <==> message in old(rows) && RecipientVisible(old(rows)[message], user)
      ensures r.Some? ==>
                && r.value == old(rows)[message].(recipientDeletedAt := Some(now))
                && rows == old(rows)[message := r.value]
      ensures r.None? ==> rows == old(rows)
    {
      if message !in rows || !RecipientVisible(rows[message], user) {
        return None;
      }
      rows := rows[message := rows[message].(recipientDeletedAt := Some(now))];
      r := Some(rows[message]);
    }

    method DeleteMessageForUser(user: nat, message: nat, now: int) returns (r: Result<Message, RelayError>)
      requires Valid()
      modifies this`rows
      ensures Valid()
      ensures r == Outcome(old(rows), directory, user, Delete(message), now)
      ensures rows == Apply(old(rows), directory, user, Delete(message), now)
      ensures r.Ok? <==> message in old(rows) && VisibleInRole(old(rows)[message], user)
      ensures r.Ok? ==> message in rows && DeleteHides(old(rows)[message], rows[message], user)
      ensures r.Ok? ==> rows == old(rows)[message := r.value]
                        && r.value == if old(rows)[message].senderUserId == user
                                      then old(rows)[message].(senderDeletedAt := Some(now))
                                      else old(rows)[message].(recipientDeletedAt := Some(now))
    {
      if message !in rows || rows[message].deletedAt.Some? {
        return Err(MessageNotFound);
      }
      var deleted: Option<Message>;
      if rows[message].senderUserId == user {
        deleted := MarkSenderDeleted(message, user, now);
      } else if rows[message].recipientUserId == user {
        deleted := MarkRecipientDeleted(message, user, now);
      } else {
        return Err(MessageAccessDenied);
      }
      if deleted.None? {
        return Err(MessageAccessDenied);
      }
      r := Ok(deleted.value);
    }

    method RevokeMessageAccess(user: nat, message: nat, now: int) returns (r: Result<Message, RelayError>)
      requires Valid()
      modifies this`rows
      ensures Valid()
      ensures r == Outcome(old(rows), directory, user, Revoke(message), now)
      ensures rows == Apply(old(rows), directory, user, Revoke(message), now)
      ensures r.Ok? ==> message in rows && RevokeHides(old(rows)[message], rows[message])
      ensures r.Ok? <==> message in old(rows) && old(rows)[message].deletedAt == None
                         && old(rows)[message].senderUserId == user
      ensures r.Ok? ==> rows == old(rows)[message := old(rows)[message].(accessRevokedAt := Some(now))]
      ensures r.Err? ==>
                && rows == old(rows)
                && r.error == if message in old(rows) && old(rows)[message].deletedAt == None then MessageAccessDenied
                              else MessageNotFound
    {
      if message !in rows || rows[message].deletedAt.Some? {
        return Err(MessageNotFound);
      }
      if rows[message].senderUserId != user {
        return Err(MessageAccessDenied);
      }
      rows := rows[message := rows[message].(accessRevokedAt := Some(now))];
      r := Ok(rows[message]);
    }

    /** The page of a listing, newest first. */
    method ListPage(user: nat, kind: Kind, limit: nat, offset: nat) returns (page: seq<Message>)
      requires Valid()
      ensures exists list :: IsListing(rows, user, kind, list) && page == Page(list, limit, offset)
      ensures forall list :: IsListing(rows, user, kind, list) ==> page == Page(list, limit, offset)
      ensures forall i, j :: 0 <= i < j < |page| ==>
                page[i].createdAt > page[j].createdAt
                || (page[i].createdAt == page[j].createdAt && page[i].id > page[j].id)
      ensures forall m :: m in page ==>
                && m.id in rows && rows[m.id] == m && m.deletedAt == None
                && (kind == Received ==>
                      m.recipientUserId == user && m.recipientDeletedAt == None && m.accessRevokedAt == None)
                && (kind == Sent ==> m.senderUserId == user && m.senderDeletedAt == None)
    {
      hide Page, Listed;
      var list: seq<Message> := [];
      var todo := set id | id in rows && Listed(rows[id], user, kind);
      while todo != {}
        invariant forall id :: id in todo ==> id in rows && Listed(rows[id], user, kind)
        invariant forall m :: m in list <==> m.id in rows && rows[m.id] == m && Listed(m, user, kind) && m.id !in todo
        invariant Descending(list)
        invariant forall m, id :: m in list && id in todo ==> Newer(m, rows[id])
        decreases todo
      {
        var id := Newest(todo);
        todo := todo - {id};
        DescendingSnoc(list, rows[id]);
        list := list + [rows[id]];
      }
      assert IsListing(rows, user, kind, list);
      page := Page(list, limit, offset);
      forall other | IsListing(rows, user, kind, other) ensures other == list {
        ListingUnique(other, list);
      }
      PageOutright(rows, user, kind, list, limit, offset);
    }

    method Newest(ids: set<nat>) returns (best: nat)
      requires Valid() && ids != {} && forall id :: id in ids ==> id in rows
      ensures best in ids && forall id :: id in ids && id != best ==> Newer(rows[best], rows[id])
    {
      best :| best in ids;
      var todo := ids - {best};
      while todo != {}
        invariant todo <= ids && best in ids && best !in todo
        invariant forall id :: id in ids - todo && id != best ==> Newer(rows[best], rows[id])
        decreases todo
      {
        var id :| id in todo;
        todo := todo - {id};
        if Newer(rows[id], rows[best]) {
          best := id;
        }
      }
    }
  }

  // ---- listings ----

  datatype Kind = Received | Sent

  predicate Listed(m: Message, user: nat, kind: Kind) {
    match kind case Received => RecipientVisible(m, user) case Sent => SenderVisible(m, user)
  }

  predicate Newer(a: Message, b: Message) { a.createdAt > b.createdAt || (a.createdAt == b.createdAt && a.id > b.id) }

  ghost predicate Descending(list: seq<Message>) { forall i, j :: 0 <= i < j < |list| ==> Newer(list[i], list[j]) }

  /** All rows of a kind the user may see, by descending time and id. */
  ghost predicate IsListing(rows: Rows, user: nat, kind: Kind, list: seq<Message>) {
    && Descending(list)
    && forall m :: m in list <==> m.id in rows && rows[m.id] == m && Listed(m, user, kind)
  }

  /** LIMIT and OFFSET. */
  function Page(list: seq<Message>, limit: nat, offset: nat): seq<Message> {
    var from := if offset < |list| then offset else |list|;
    list[from..if from + limit < |list| then from + limit else |list|]
  }

  /** What is on a page, newest first. */
  lemma PageOutright(rows: Rows, user: nat, kind: Kind, list: seq<Message>, limit: nat, offset: nat)
    requires IsListing(rows, user, kind, list)
    ensures var page := Page(list, limit, offset);
      && (forall i, j :: 0 <= i < j < |page| ==>
            page[i].createdAt > page[j].createdAt
            || (page[i].createdAt == page[j].createdAt && page[i].id > page[j].id))
      && (forall m :: m in page ==>
            && m.id in rows && rows[m.id] == m && m.deletedAt == None
            && (kind == Received ==>
                  m.recipientUserId == user && m.recipientDeletedAt == None && m.accessRevokedAt == None)
            && (kind == Sent ==> m.senderUserId == user && m.senderDeletedAt == None))
  {
    var page := Page(list, limit, offset);
    var from := if offset < |list| then offset else |list|;
    forall i, j | 0 <= i < j < |page|
      ensures page[i].createdAt > page[j].createdAt
              || (page[i].createdAt == page[j].createdAt && page[i].id > page[j].id)
    {
      assert page[i] == list[from + i] && page[j] == list[from + j];
      assert Newer(list[from + i], list[from + j]);
    }
    forall m | m in page
      ensures m in list
    {
      var i :| 0 <= i < |page| && page[i] == m;
      assert list[from + i] == m;
    }
  }

  lemma DescendingSnoc(list: seq<Message>, m: Message)
    requires Descending(list) && forall x :: x in list ==> Newer(x, m)
    ensures Descending(list + [m])
  {
  }

  lemma HeadIsNewest(list: seq<Message>, m: Message)
    requires Descending(list) && m in list
    ensures m == list[0] || Newer(list[0], m)
    ensures list[0] !in list[1..]
  {
    assert forall j :: 1 <= j < |list| ==> Newer(list[0], list[j]);
  }

  lemma {:induction false} ListingUnique(a: seq<Message>, b: seq<Message>)
    requires Descending(a) && Descending(b) && forall m :: m in a <==> m in b
    ensures a == b
    decreases |a|
  {
    assert a != [] ==> a[0] in b;
    assert b != [] ==> b[0] in a;
    if a != [] {
      HeadIsNewest(a, b[0]);
      HeadIsNewest(b, a[0]);
      forall m ensures m in a[1..] <==> m in b[1..] {
        assert m in a <==> m == a[0] || m in a[1..];
        assert m in b <==> m == b[0] || m in b[1..];
      }
      ListingUnique(a[1..], b[1..]);
    }
  }

  // ---- over runs ----

  /** What a request that passed its checks writes: an update sets its one column whatever the row has become. */
  datatype Change =
    | Insert(m: Message)
    | SenderDeleted(id: nat, at: int)
    | RecipientDeleted(id: nat, at: int)
    | AccessRevoked(id: nat, at: int)

  function ChangeOf(rows: Rows, d: Directory, user: nat, op: Op, now: int): Option<Change> {
    var r := Outcome(rows, d, user, op, now);
    if r.Err? then None
    else
      match op
      case Send(_, _) => Some(Insert(r.value))
      case Forward(_, _, _) => Some(Insert(r.value))
      case Delete(id) =>
        Some(if rows[id].senderUserId == user then SenderDeleted(id, now) else RecipientDeleted(id, now))
      case Revoke(id) => Some(AccessRevoked(id, now))
  }

  function Written(rows: Rows, change: Change): Rows {
    match change
    case Insert(m) => if m.id in rows then rows else rows[m.id := m]
    case SenderDeleted(id, at) => if id in rows then rows[id := rows[id].(senderDeletedAt := Some(at))] else rows
    case RecipientDeleted(id, at) => if id in rows then rows[id := rows[id].(recipientDeletedAt := Some(at))] else rows
    case AccessRevoked(id, at) => if id in rows then rows[id := rows[id].(accessRevokedAt := Some(at))] else rows
  }

  /** The committed rows, and the changes of requests that have read but not yet written. */
  datatype Table = Table(rows: Rows, open: map<nat, Change>)

  datatype Step =
    | Read(request: nat, user: nat, op: Op, now: int, directory: Directory)
    | Write(request: nat)
    | End(request: nat)

  function Next(t: Table, step: Step): Table {
    match step
    case Read(request, user, op, now, directory) =>
      if request in t.open || !FreshId(t.rows, op) then t
      else
        (match ChangeOf(t.rows, directory, user, op, now)
         case None => t
         case Some(change) => t.(open := t.open[request := change]))
    case Write(request) =>
      if request in t.open then Table(Written(t.rows, t.open[request]), t.open - {request}) else t
    case End(request) => t.(open := t.open - {request})
  }

  /** A run of requests by any users, their reads and writes interleaved in any way. */
  function After(t: Table, steps: seq<Step>): Table
    decreases |steps|
  {
    if steps == [] then t else After(Next(t, steps[0]), steps[1..])
  }

  ghost predicate KeyedById(rows: Rows) { forall k :: k in rows ==> rows[k].id == k }

  /** A request that runs alone does what its method does. */
  lemma RequestAlone(rows: Rows, request: nat, user: nat, op: Op, now: int, d: Directory)
    requires KeyedById(rows) && FreshId(rows, op)
    ensures Next(Next(Table(rows, map[]), Read(request, user, op, now, d)), Write(request)).rows
      == Apply(rows, d, user, op, now)
  {
    var t := Next(Table(rows, map[]), Read(request, user, op, now, d));
    assert ChangeOf(rows, d, user, op, now).Some? ==> t.open == map[request := ChangeOf(rows, d, user, op, now).value];
  }

  /** How ids, users and times are written in canonical records. */
  datatype Texts = Texts(id: nat -> string, user: nat -> string, time: int -> string)

  function CanonicalOf(t: Texts, m: Message): CanonicalRecord.Record {
    CanonicalRecord.Record(
      t.time(m.createdAt),
      match m.forwardedFrom case None => None case Some(f) => Some(t.id(f)),
      t.id(m.id), m.recipientDeviceId, t.user(m.recipientUserId), m.senderDeviceId, t.user(m.senderUserId),
      m.wirePayloadJson)
  }

  /** later is the same message with no tombstone taken back. */
  predicate Continues(earlier: Message, later: Message) {
    && later == earlier.(accessRevokedAt := later.accessRevokedAt, senderDeletedAt := later.senderDeletedAt,
                         recipientDeletedAt := later.recipientDeletedAt)
    && (earlier.accessRevokedAt.Some? ==> later.accessRevokedAt.Some?)
    && (earlier.senderDeletedAt.Some? ==> later.senderDeletedAt.Some?)
    && (earlier.recipientDeletedAt.Some? ==> later.recipientDeletedAt.Some?)
  }

  lemma StepContinues(t: Table, step: Step, id: nat)
    requires id in t.rows
    ensures id in Next(t, step).rows && Continues(t.rows[id], Next(t, step).rows[id])
  {
    hide ChangeOf;
  }

  lemma {:induction false} RunContinues(t: Table, steps: seq<Step>, id: nat)
    requires id in t.rows
    ensures id in After(t, steps).rows && Continues(t.rows[id], After(t, steps).rows[id])
    decreases |steps|
  {
    if steps != [] {
      hide Next, Continues;
      StepContinues(t, steps[0], id);
      var next := Next(t, steps[0]);
      RunContinues(next, steps[1..], id);
      ContinuesTransitive(t.rows[id], next.rows[id], After(next, steps[1..]).rows[id]);
    } else {
      ContinuesItself(t.rows[id]);
    }
  }

  lemma ContinuesItself(a: Message)
    ensures Continues(a, a)
  {
  }

  lemma ContinuesTransitive(a: Message, b: Message, c: Message)
    requires Continues(a, b) && Continues(b, c)
    ensures Continues(a, c)
  {
  }

  /** What a JSON reader finds in the text a stored message is anchored by. */
  lemma AnchoredMembers(t: Texts, m: Message)
    ensures JsonReader.Read(CanonicalRecord.CanonicalText(CanonicalOf(t, m))) == Some([
      JsonReader.Member("created_at", JsonReader.Str(t.time(m.createdAt))),
      JsonReader.Member("forwarded_from_message_id",
        if m.forwardedFrom.Some? then JsonReader.Str(t.id(m.forwardedFrom.value)) else JsonReader.Null),
      JsonReader.Member("id", JsonReader.Str(t.id(m.id))),
      JsonReader.Member("recipient_device_id", JsonReader.Int(m.recipientDeviceId)),
      JsonReader.Member("recipient_user_id", JsonReader.Str(t.user(m.recipientUserId))),
      JsonReader.Member("sender_device_id", JsonReader.Int(m.senderDeviceId)),
      JsonReader.Member("sender_user_id", JsonReader.Str(t.user(m.senderUserId))),
      JsonReader.Member("wire_payload_json", JsonReader.Str(m.wirePayloadJson))])
  {
    CanonicalReading.TextReadsBack(CanonicalOf(t, m));
  }

  /** No interleaving of sends, forwards, deletes and revokes changes the bytes a stored message is anchored by. */
  lemma CanonicalBytesStable(texts: Texts, t: Table, steps: seq<Step>, id: nat)
    requires id in t.rows
    ensures id in After(t, steps).rows
    ensures CanonicalRecord.CanonicalBytes(CanonicalOf(texts, After(t, steps).rows[id]))
      == CanonicalRecord.CanonicalBytes(CanonicalOf(texts, t.rows[id]))
  {
    RunContinues(t, steps, id);
  }

  /** What a user no longer sees, in either role, the user never sees again, however requests interleave. */
  lemma HiddenStaysHidden(t: Table, steps: seq<Step>, id: nat, user: nat)
    requires id in t.rows
    ensures var later := After(t, steps).rows;
      id in later
      && (SenderVisible(later[id], user) ==> SenderVisible(t.rows[id], user))
      && (RecipientVisible(later[id], user) ==> RecipientVisible(t.rows[id], user))
      && (Accessible(later[id], user) ==> Accessible(t.rows[id], user))
  {
    RunContinues(t, steps, id);
  }

  /** No step of the run writes for the request or ends it. */
  predicate LeavesOpen(steps: seq<Step>, request: nat) {
    Write(request) !in steps && End(request) !in steps
  }

  lemma {:induction false} OpenStays(t: Table, steps: seq<Step>, request: nat)
    requires request in t.open && LeavesOpen(steps, request)
    ensures request in After(t, steps).open && After(t, steps).open[request] == t.open[request]
    decreases |steps|
  {
    if steps != [] {
      assert steps[0] in steps;
      assert forall step :: step in steps[1..] ==> step in steps;
      StepLeavesOpen(t, steps[0], request);
      hide Next;
      OpenStays(Next(t, steps[0]), steps[1..], request);
    }
  }

  lemma StepLeavesOpen(t: Table, step: Step, request: nat)
    requires request in t.open && step != Write(request) && step != End(request)
    ensures request in Next(t, step).open && Next(t, step).open[request] == t.open[request]
  {
    hide ChangeOf, Written;
  }

  /** The table after a request read, others ran, it wrote, and others ran again. */
  function AfterRequest(t: Table, read: Step, during: seq<Step>, later: seq<Step>): Table
    requires read.Read?
  {
    After(Next(After(Next(t, read), during), Write(read.request)), later)
  }

  /** A request that passed its checks leaves its tombstone on the row for ever, whatever runs around its write. */
  lemma TombstoneStays(t: Table, read: Step, during: seq<Step>, later: seq<Step>, id: nat)
    requires read.Read? && read.request !in t.open && LeavesOpen(during, read.request)
    requires id in t.rows && (read.op == Delete(id) || read.op == Revoke(id))
    requires Outcome(t.rows, read.directory, read.user, read.op, read.now).Ok?
    ensures var after := AfterRequest(t, read, during, later).rows;
      id in after && Continues(t.rows[id], after[id])
      && (read.op.Revoke? ==> after[id].accessRevokedAt.Some?)
      && (read.op.Delete? && t.rows[id].senderUserId == read.user ==> after[id].senderDeletedAt.Some?)
      && (read.op.Delete? && t.rows[id].senderUserId != read.user ==> after[id].recipientDeletedAt.Some?)
  {
    var open := Next(t, read);
    assert read.request in open.open && open.rows == t.rows;
    OpenStays(open, during, read.request);
    RunContinues(open, during, id);
    var before := After(open, during);
    var written := Next(before, Write(read.request));
    WriteSets(before, read.request, id);
    RunContinues(written, later, id);
    hide Next, After, Outcome;
    ContinuesTransitive(t.rows[id], before.rows[id], written.rows[id]);
    ContinuesTransitive(t.rows[id], written.rows[id], After(written, later).rows[id]);
  }

  lemma WriteSets(t: Table, request: nat, id: nat)
    requires request in t.open && id in t.rows
    ensures var after := Next(t, Write(request)).rows;
      id in after && Continues(t.rows[id], after[id])
      && (t.open[request].SenderDeleted? && t.open[request].id == id ==> after[id].senderDeletedAt.Some?)
      && (t.open[request].RecipientDeleted? && t.open[request].id == id ==> after[id].recipientDeletedAt.Some?)
      && (t.open[request].AccessRevoked? && t.open[request].id == id ==> after[id].accessRevokedAt.Some?)
  {
  }

  /** A successful delete takes a message the user did not send to himself out of the user's reach for ever, and a
      successful revoke takes it from every recipient, however the requests of others interleave with it. */
  lemma DeletedForGood(t: Table, read: Step, during: seq<Step>, later: seq<Step>, id: nat)
    requires read.Read? && read.request !in t.open && LeavesOpen(during, read.request)
    requires id in t.rows && (read.op == Delete(id) || read.op == Revoke(id))
    requires Outcome(t.rows, read.directory, read.user, read.op, read.now).Ok?
    ensures var after := AfterRequest(t, read, during, later).rows;
      id in after
      && (read.op.Delete? ==>
            (Accessible(after[id], read.user) ==> after[id].senderUserId == after[id].recipientUserId))
      && (read.op.Revoke? ==> forall u :: !RecipientVisible(after[id], u))
  {
    TombstoneStays(t, read, during, later, id);
    hide AfterRequest, LeavesOpen;
  }

  lemma DeletePasses(rows: Rows, d: Directory, user: nat, message: nat, now: int)
    ensures Outcome(rows, d, user, Delete(message), now).Ok? <==> message in rows && VisibleInRole(rows[message], user)
  {
  }

  /** After the read of a delete that passes, the same user's second delete of the message passes too, exactly until
      some tombstone against the user's role is written; from the first delete's own write on it never does. */
  lemma SecondDelete(t: Table, read: Step, during: seq<Step>, later: seq<Step>, id: nat, now: int, d: Directory)
    requires read.Read? && read.request !in t.open && LeavesOpen(during, read.request) && read.op == Delete(id)
    requires id in t.rows && Outcome(t.rows, read.directory, read.user, read.op, read.now).Ok?
    ensures var meanwhile := After(Next(t, read), during).rows;
      id in meanwhile
      && (Outcome(meanwhile, d, read.user, Delete(id), now).Ok? <==> RoleTombstone(meanwhile[id], read.user) == None)
    ensures Outcome(AfterRequest(t, read, during, later).rows, d, read.user, Delete(id), now).Err?
  {
    TombstoneStays(t, read, during, later, id);
    var meanwhile, after := After(Next(t, read), during).rows, AfterRequest(t, read, during, later).rows;
    RunContinues(t, [read] + during, id);
    assert ([read] + during)[1..] == during;
    DeletePasses(t.rows, read.directory, read.user, id, read.now);
    DeletePasses(meanwhile, d, read.user, id, now);
    DeletePasses(after, d, read.user, id, now);
    hide After, Next, AfterRequest, Outcome, LeavesOpen;
  }

  /** The first tombstone against the role in which a delete by the user acts. */
  function RoleTombstone(m: Message, user: nat): Option<int> {
    if m.senderUserId == user then m.senderDeletedAt
    else if m.recipientDeletedAt.Some? then m.recipientDeletedAt else m.accessRevokedAt
  }

  /** Its original is a row with the author among its two participants. */
  predicate ForwardKnown(rows: Rows, m: Message) {
    m.forwardedFrom.Some? ==>
      var original := m.forwardedFrom.value;
      original in rows && original != m.id
      && (m.senderUserId == rows[original].senderUserId || m.senderUserId == rows[original].recipientUserId)
  }

  ghost predicate ForwardsKnown(t: Table) {
    && KeyedById(t.rows)
    && (forall id :: id in t.rows ==> ForwardKnown(t.rows, t.rows[id]))
    && (forall r :: r in t.open && t.open[r].Insert? ==> ForwardKnown(t.rows, t.open[r].m))
  }

  lemma InsertKnown(rows: Rows, d: Directory, user: nat, op: Op, now: int)
    requires KeyedById(rows) && FreshId(rows, op)
    ensures var change := ChangeOf(rows, d, user, op, now);
      change.Some? && change.value.Insert? ==> ForwardKnown(rows, change.value.m)
  {
    hide Validated;
  }

  lemma KnownContinues(rows: Rows, later: Rows, m: Message)
    requires ForwardKnown(rows, m)
    requires forall id :: id in rows ==> id in later && Continues(rows[id], later[id])
    ensures ForwardKnown(later, m)
  {
  }

  lemma StepKeepsForwards(t: Table, step: Step)
    requires ForwardsKnown(t)
    ensures ForwardsKnown(Next(t, step))
  {
    var next := Next(t, step);
    forall id | id in t.rows ensures id in next.rows && Continues(t.rows[id], next.rows[id]) {
      StepContinues(t, step, id);
    }
    if step.Read? && FreshId(t.rows, step.op) {
      InsertKnown(t.rows, step.directory, step.user, step.op, step.now);
    }
    forall id | id in next.rows ensures ForwardKnown(next.rows, next.rows[id]) {
      if id in t.rows {
        KnownContinues(t.rows, next.rows, t.rows[id]);
      } else {
        KnownContinues(t.rows, next.rows, next.rows[id]);
      }
    }
    forall r | r in next.open && next.open[r].Insert? ensures ForwardKnown(next.rows, next.open[r].m) {
      KnownContinues(t.rows, next.rows, next.open[r].m);
    }
  }

  /** Over every interleaving, a forwarded message names another stored message that its author sent or received. */
  lemma {:induction false} ForwardsStayKnown(t: Table, steps: seq<Step>)
    requires ForwardsKnown(t)
    ensures ForwardsKnown(After(t, steps))
    decreases |steps|
  {
    if steps != [] {
      hide ForwardsKnown, Next;
      StepKeepsForwards(t, steps[0]);
      ForwardsStayKnown(Next(t, steps[0]), steps[1..]);
    }
  }
}
