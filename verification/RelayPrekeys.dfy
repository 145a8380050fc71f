/** Messages that name a consumed one-time prekey, against the prekeys the relay has handed out: the message table and
    the prekey table under one sequence of steps. */
module RelayPrekeys {
  import H = PrekeyHandout
  import R = MessageRelay
  import opened Wrappers

  datatype State = State(table: R.Table, prekeys: H.State)

  const INIT := State(R.Table(map[], map[]), H.INIT)

  /** The rows get_by_user_device_prekey_id finds with used_at set. */
  function UsedPrekeys(s: H.State): set<(nat, int, int)> {
    set k | k in s.rows && s.rows[k].usedAt.Some? :: (k.user, k.device, k.prekeyId)
  }

  /** A step of the message table, whose checks read the prekey table as it is then, or of the prekey table. */
  datatype Step =
    | Read(request: nat, user: nat, op: R.Op, now: int, activeUsers: set<nat>, activeDevices: set<(nat, int)>)
    | Write(request: nat)
    | End(request: nat)
    | Prekeys(step: H.Step)

  function Next(s: State, step: Step): State {
    match step
    case Read(request, user, op, now, activeUsers, activeDevices) =>
      var d := R.Directory(activeUsers, activeDevices, UsedPrekeys(s.prekeys));
      s.(table := R.Next(s.table, R.Read(request, user, op, now, d)))
    case Write(request) => s.(table := R.Next(s.table, R.Write(request)))
    case End(request) => s.(table := R.Next(s.table, R.End(request)))
    case Prekeys(p) => s.(prekeys := H.Next(s.prekeys, p))
  }

  function After(s: State, steps: seq<Step>): State
    decreases |steps|
  {
    if steps == [] then s else After(Next(s, steps[0]), steps[1..])
  }

  function ConsumedKey(m: R.Message): H.Key
    requires m.consumedOneTimePrekeyId.Some?
  {
    H.Key(m.recipientUserId, m.recipientDeviceId, m.consumedOneTimePrekeyId.value)
  }

  /** A prekey the message names is a used row of its recipient's device. */
  predicate ConsumesUsed(s: H.State, m: R.Message) {
    m.consumedOneTimePrekeyId.Some? ==> ConsumedKey(m) in s.rows && s.rows[ConsumedKey(m)].usedAt.Some?
  }

  ghost predicate Inv(s: State) {
    && H.Inv(s.prekeys) && H.UsedByFetch(s.prekeys)
    && (forall id :: id in s.table.rows ==> ConsumesUsed(s.prekeys, s.table.rows[id]))
    && (forall r :: r in s.table.open && s.table.open[r].Insert? ==> ConsumesUsed(s.prekeys, s.table.open[r].m))
  }

  /** An insert a request has decided on passed the check against the table. */
  lemma InsertsConsumeUsed(rows: R.Rows, s: H.State, activeUsers: set<nat>, activeDevices: set<(nat, int)>, user: nat,
      op: R.Op, now: int)
    ensures var change := R.ChangeOf(rows, R.Directory(activeUsers, activeDevices, UsedPrekeys(s)), user, op, now);
      change.Some? && change.value.Insert? ==> ConsumesUsed(s, change.value.m)
  {
  }

  lemma ReadKeepsInv(s: State, step: Step)
    requires Inv(s) && step.Read?
    ensures Inv(Next(s, step))
  {
    InsertsConsumeUsed(s.table.rows, s.prekeys, step.activeUsers, step.activeDevices, step.user, step.op, step.now);
    hide UsedPrekeys, R.ChangeOf, H.Inv, H.UsedByFetch, ConsumesUsed;
  }

  lemma WriteKeepsInv(s: State, step: Step)
    requires Inv(s) && (step.Write? || step.End?)
    ensures Inv(Next(s, step))
  {
    hide H.Inv, H.UsedByFetch;
  }

  lemma PrekeysKeepInv(s: State, step: Step)
    requires Inv(s) && step.Prekeys?
    ensures Inv(Next(s, step))
  {
    var t := Next(s, step);
    H.StepKeepsInv(s.prekeys, step.step);
    H.StepKeepsUsedByFetch(s.prekeys, step.step);
    forall k | k in s.prekeys.rows
      ensures k in t.prekeys.rows && (s.prekeys.rows[k].usedAt.Some? ==> t.prekeys.rows[k].usedAt.Some?)
    {
      H.StepKeepsRow(s.prekeys, step.step, k);
    }
    hide H.Inv, H.UsedByFetch, H.Next;
  }

  lemma {:induction false} RunKeepsInv(s: State, steps: seq<Step>)
    requires Inv(s)
    ensures Inv(After(s, steps))
    decreases |steps|
  {
    hide Inv, Next;
    if steps != [] {
      var step := steps[0];
      if step.Read? {
        ReadKeepsInv(s, step);
      } else if step.Prekeys? {
        PrekeysKeepInv(s, step);
      } else {
        WriteKeepsInv(s, step);
      }
      RunKeepsInv(Next(s, step), steps[1..]);
    }
  }

  /** Over every interleaving of messages, uploads and fetches, the one-time prekey a stored message names is a row
      of its recipient's device that exactly one fetch gave away. */
  lemma ConsumedPrekeyWasHandedOut(steps: seq<Step>, id: nat)
    requires var s := After(INIT, steps); id in s.table.rows && s.table.rows[id].consumedOneTimePrekeyId.Some?
    ensures var s := After(INIT, steps);
      var k := ConsumedKey(s.table.rows[id]);
      k in s.prekeys.rows && H.GivenAway(s.prekeys, k)
      && forall f, g :: (f in s.prekeys.fetches && g in s.prekeys.fetches
                         && H.HandsOut(s.prekeys.fetches[f], k) && H.HandsOut(s.prekeys.fetches[g], k)) ==> f == g
  {
    hide After;
    var s := After(INIT, steps);
    RunKeepsInv(INIT, steps);
    var k := ConsumedKey(s.table.rows[id]);
    forall f, g | f in s.prekeys.fetches && g in s.prekeys.fetches
        && H.HandsOut(s.prekeys.fetches[f], k) && H.HandsOut(s.prekeys.fetches[g], k)
      ensures f == g
    {
      assert H.Holds(s.prekeys.fetches[f], k) && H.Holds(s.prekeys.fetches[g], k);
    }
  }

  /** Naming a prekey does not use it up: two sends, of any users and any texts, that name one prekey are both stored
      exactly when the recipient and the three devices are active and the prekey has been handed out. */
  lemma PrekeyNamedTwice(rows: R.Rows, s: H.State, activeUsers: set<nat>, activeDevices: set<(nat, int)>, user: nat,
      q: R.MessageCreateRequest, other: nat, p: R.MessageCreateRequest, first: nat, second: nat, now: int, later: int)
    requires SameConsumed(q, p) && first != second && first !in rows && second !in rows
    ensures var d := R.Directory(activeUsers, activeDevices, UsedPrekeys(s));
      var after := R.Apply(R.Apply(rows, d, user, R.Send(q, first), now), d, other, R.Send(p, second), later);
      var k := H.Key(q.recipientUserId, q.recipientDeviceId, q.consumedOneTimePrekeyId.value);
      (first in after && second in after && ConsumedBy(after[first], k) && ConsumedBy(after[second], k))
      <==> (q.recipientUserId in activeUsers && (user, q.senderDeviceId) in activeDevices
            && (other, p.senderDeviceId) in activeDevices
            && (q.recipientUserId, q.recipientDeviceId) in activeDevices && k in s.rows && s.rows[k].usedAt.Some?)
  {
    var d := R.Directory(activeUsers, activeDevices, UsedPrekeys(s));
    R.ValidationExact(d, user, q);
    R.ValidationExact(d, other, p);
    UsedIsRow(s, H.Key(q.recipientUserId, q.recipientDeviceId, q.consumedOneTimePrekeyId.value));
    hide UsedPrekeys, R.Validated;
  }

  /** Both requests name one prekey of one recipient's device. */
  predicate SameConsumed(q: R.MessageCreateRequest, p: R.MessageCreateRequest) {
    q.consumedOneTimePrekeyId.Some? && p.consumedOneTimePrekeyId == q.consumedOneTimePrekeyId
    && p.recipientUserId == q.recipientUserId && p.recipientDeviceId == q.recipientDeviceId
  }

  predicate ConsumedBy(m: R.Message, k: H.Key) { m.consumedOneTimePrekeyId.Some? && ConsumedKey(m) == k }

  lemma UsedIsRow(s: H.State, k: H.Key)
    ensures (k.user, k.device, k.prekeyId) in UsedPrekeys(s) <==> k in s.rows && s.rows[k].usedAt.Some?
  {
  }

  // ---- a run that stores two messages with one prekey ----

  lemma {:induction false} RunSplits(s: State, first: seq<Step>, second: seq<Step>)
    ensures After(s, first + second) == After(After(s, first), second)
    decreases |first|
  {
    hide Next;
    if first == [] {
      assert first + second == second;
    } else {
      assert (first + second)[0] == first[0] && (first + second)[1..] == first[1..] + second;
      RunSplits(Next(s, first[0]), first[1..], second);
    }
  }

  lemma TwoSteps(s: State, a: Step, b: Step)
    ensures After(s, [a, b]) == Next(Next(s, a), b)
  {
    hide Next;
    var t := Next(s, a);
    assert After(t, [b]) == After(Next(t, b), []) == Next(t, b);
    assert [a, b][1..] == [b];
  }

  /** A request that runs alone, in the combined steps. */
  lemma SendAlone(s: State, request: nat, user: nat, op: R.Op, now: int, users: set<nat>, devices: set<(nat, int)>)
    requires s.table.open == map[] && R.KeyedById(s.table.rows) && R.FreshId(s.table.rows, op)
    ensures var d := R.Directory(users, devices, UsedPrekeys(s.prekeys));
      var t := After(s, [Read(request, user, op, now, users, devices), Write(request)]);
      t.prekeys == s.prekeys && t.table.open == map[] && t.table.rows == R.Apply(s.table.rows, d, user, op, now)
  {
    TwoSteps(s, Read(request, user, op, now, users, devices), Write(request));
    R.RequestAlone(s.table.rows, request, user, op, now, R.Directory(users, devices, UsedPrekeys(s.prekeys)));
    hide UsedPrekeys, R.Apply;
  }

  /** Prekey k is uploaded and given out by one fetch. */
  function HandoutSteps(k: H.Key): seq<Step> {
    [Prekeys(H.UploadFlush(0, k.user, k.device, [H.Upload(k.device, k.prekeyId, "key")])), Prekeys(H.UploadCommit(0))]
    + [Prekeys(H.FetchLock(0, k.user, k.device, k)), Prekeys(H.FetchCommit(0, 0))]
  }

  lemma HandedOut(k: H.Key)
    ensures var s := After(INIT, HandoutSteps(k));
      s.table == INIT.table && k in s.prekeys.rows && s.prekeys.rows[k].usedAt.Some?
  {
    var flush, commit := H.UploadFlush(0, k.user, k.device, [H.Upload(k.device, k.prekeyId, "key")]), H.UploadCommit(0);
    var lock, used := H.FetchLock(0, k.user, k.device, k), H.FetchCommit(0, 0);
    TwoSteps(INIT, Prekeys(flush), Prekeys(commit));
    Uploaded(k);
    var s := State(INIT.table, H.State(map[k := H.Row("key", None)], map[], map[]));
    TwoSteps(s, Prekeys(lock), Prekeys(used));
    Fetched(k);
    hide After, H.Next;
    RunSplits(INIT, [Prekeys(flush), Prekeys(commit)], [Prekeys(lock), Prekeys(used)]);
  }

  lemma Uploaded(k: H.Key)
    ensures H.Next(H.Next(H.INIT, H.UploadFlush(0, k.user, k.device, [H.Upload(k.device, k.prekeyId, "key")])),
                   H.UploadCommit(0))
      == H.State(map[k := H.Row("key", None)], map[], map[])
  {
    var batch := [H.Upload(k.device, k.prekeyId, "key")];
    assert H.NewRows(k.user, k.device, batch[..0]) == map[];
    assert H.NewRows(k.user, k.device, batch) == map[k := H.Row("key", None)];
  }

  lemma Fetched(k: H.Key)
    ensures var s := H.State(map[k := H.Row("key", None)], map[], map[]);
      var t := H.Next(H.Next(s, H.FetchLock(0, k.user, k.device, k)), H.FetchCommit(0, 0));
      k in t.rows && t.rows[k].usedAt.Some?
  {
    var s := H.State(map[k := H.Row("key", None)], map[], map[]);
    assert H.IsNext(s, k.user, k.device, k);
  }

  /** For any two requests that name one prekey: a run from the empty tables in which the prekey is uploaded, fetched
      once, and then named by two stored messages. */
  lemma PrekeyNamedTwiceFromInit(user: nat, q: R.MessageCreateRequest, other: nat, p: R.MessageCreateRequest)
      returns (steps: seq<Step>)
    requires SameConsumed(q, p)
    ensures var rows := After(INIT, steps).table.rows;
      var k := H.Key(q.recipientUserId, q.recipientDeviceId, q.consumedOneTimePrekeyId.value);
      0 in rows && 1 in rows && ConsumedBy(rows[0], k) && ConsumedBy(rows[1], k)
      && rows[0].senderUserId == user && rows[1].senderUserId == other
  {
    var k := H.Key(q.recipientUserId, q.recipientDeviceId, q.consumedOneTimePrekeyId.value);
    var users := {q.recipientUserId};
    var devices := {(user, q.senderDeviceId), (other, p.senderDeviceId), (q.recipientUserId, q.recipientDeviceId)};
    var one := [Read(0, user, R.Send(q, 0), 1, users, devices), Write(0)];
    var two := [Read(0, other, R.Send(p, 1), 2, users, devices), Write(0)];
    HandedOut(k);
    hide After;
    var s := After(INIT, HandoutSteps(k));
    SendAlone(s, 0, user, R.Send(q, 0), 1, users, devices);
    var t := After(s, one);
    SendAlone(t, 0, other, R.Send(p, 1), 2, users, devices);
    PrekeyNamedTwice(s.table.rows, s.prekeys, users, devices, user, q, other, p, 0, 1, 1, 2);
    RunSplits(INIT, HandoutSteps(k), one);
    RunSplits(INIT, HandoutSteps(k) + one, two);
    steps := HandoutSteps(k) + one + two;
    hide UsedPrekeys, R.Validated, HandoutSteps;
  }
}
