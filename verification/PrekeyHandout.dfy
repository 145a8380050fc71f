/** One-time prekeys: batches uploaded by devices and handed out one per bundle fetch, over
    server/backend/app/api/v1/keys.py and server/backend/app/repositories/one_time_prekey_repository.py.
    Transactions of any number of requests interleave; a request may crash anywhere. */
module PrekeyHandout {
  import opened Wrappers

  datatype Key = Key(user: nat, device: int, prekeyId: int)

  datatype Row = Row(publicKey: string, usedAt: Option<int>)

  datatype Upload = Upload(deviceId: int, prekeyId: int, publicKey: string)

  /** A bundle fetch from its lock to its end; a request id is never reused. */
  datatype Fetch =
    | Locked(key: Key)             // get_unused_for_device with FOR UPDATE SKIP LOCKED
    | Handed(key: Key)             // marked used and committed, not answered yet
    | Answered(prekey: Option<Key>)
    | Lost(key: Key)               // crashed after the commit
    | Aborted                      // crashed before it

  datatype State = State(
    rows: map<Key, Row>,                   // committed rows
    uploads: map<nat, map<Key, Row>>,      // flushed, not yet committed batches
    fetches: map<nat, Fetch>)

  const INIT := State(map[], map[], map[])

  // ---- uploads ----

  function KeyFor(user: nat, device: int, u: Upload): Key { Key(user, device, u.prekeyId) }

  predicate DistinctIds(batch: seq<Upload>) {
    forall i, j :: 0 <= i < j < |batch| ==> batch[i].prekeyId != batch[j].prekeyId
  }

  function NewRows(user: nat, device: int, batch: seq<Upload>): map<Key, Row> {
    if batch == [] then map[]
    else NewRows(user, device, batch[..|batch| - 1])[
      KeyFor(user, device, batch[|batch| - 1]) := Row(batch[|batch| - 1].publicKey, None)]
  }

  /** The unique constraint on user, device and prekey id would be violated. */
  predicate Conflicts(s: State, user: nat, device: int, batch: seq<Upload>) {
    !DistinctIds(batch) || exists k :: k in NewRows(user, device, batch) && k in s.rows
  }

  /** Another open transaction has inserted one of these keys, so the insert has to wait for it. */
  predicate MustWait(s: State, user: nat, device: int, batch: seq<Upload>) {
    exists u :: u in s.uploads && exists k :: k in NewRows(user, device, batch) && k in s.uploads[u]
  }

  // ---- fetches ----

  predicate IsLocked(s: State, k: Key) { exists f :: f in s.fetches && s.fetches[f] == Locked(k) }

  predicate Selectable(s: State, user: nat, device: int, k: Key) {
    k in s.rows && k.user == user && k.device == device && s.rows[k].usedAt.None? && !IsLocked(s, k)
  }

  /** The unused, unlocked prekey of the device with the lowest id. */
  predicate IsNext(s: State, user: nat, device: int, k: Key) {
    Selectable(s, user, device, k)
    && forall other :: other in s.rows && Selectable(s, user, device, other) ==> k.prekeyId <= other.prekeyId
  }

  // ---- steps ----

  datatype Step =
    | UploadFlush(upload: nat, user: nat, device: int, batch: seq<Upload>)
    | UploadCommit(upload: nat)
    | UploadEnd(upload: nat)
    | FetchLock(fetch: nat, user: nat, device: int, key: Key)
    | FetchNone(fetch: nat, user: nat, device: int)
    | FetchCommit(fetch: nat, now: int)
    | FetchAnswer(fetch: nat)
    | FetchCrash(fetch: nat)

  predicate Enabled(s: State, step: Step) {
    match step
    case UploadFlush(u, user, device, batch) =>
      u !in s.uploads && !MustWait(s, user, device, batch) && !Conflicts(s, user, device, batch)
    case UploadCommit(u) => u in s.uploads
    case UploadEnd(u) => u in s.uploads
    case FetchLock(f, user, device, key) => f !in s.fetches && IsNext(s, user, device, key)
    case FetchNone(f, user, device) => f !in s.fetches && forall k :: k in s.rows ==> !Selectable(s, user, device, k)
    case FetchCommit(f, now) => f in s.fetches && s.fetches[f].Locked? && s.fetches[f].key in s.rows
    case FetchAnswer(f) => f in s.fetches && s.fetches[f].Handed?
    case FetchCrash(f) => f in s.fetches && (s.fetches[f].Locked? || s.fetches[f].Handed?)
  }

  function Perform(s: State, step: Step): State
    requires Enabled(s, step)
  {
    match step
    case UploadFlush(u, user, device, batch) => s.(uploads := s.uploads[u := NewRows(user, device, batch)])
    case UploadCommit(u) => s.(rows := s.rows + s.uploads[u], uploads := s.uploads - {u})
    case UploadEnd(u) => s.(uploads := s.uploads - {u})
    case FetchLock(f, user, device, key) => s.(fetches := s.fetches[f := Locked(key)])
    case FetchNone(f, user, device) => s.(fetches := s.fetches[f := Answered(None)])
    case FetchCommit(f, now) =>
      var k := s.fetches[f].key;
      s.(rows := s.rows[k := s.rows[k].(usedAt := Some(now))], fetches := s.fetches[f := Handed(k)])
    case FetchAnswer(f) => s.(fetches := s.fetches[f := Answered(Some(s.fetches[f].key))])
    case FetchCrash(f) =>
      s.(fetches := s.fetches[f := if s.fetches[f].Locked? then Aborted else Lost(s.fetches[f].key)])
  }

  function Next(s: State, step: Step): State { if Enabled(s, step) then Perform(s, step) else s }

  function After(s: State, steps: seq<Step>): State
    decreases |steps|
  {
    if steps == [] then s else After(Next(s, steps[0]), steps[1..])
  }

  // ---- the invariant ----

  /** The fetch's transaction has given this key away. */
  predicate HandsOut(f: Fetch, k: Key) {
    (f.Handed? && f.key == k) || (f.Lost? && f.key == k) || (f.Answered? && f.prekey == Some(k))
  }

  predicate Holds(f: Fetch, k: Key) { HandsOut(f, k) || f == Locked(k) }

  /** No key is held by two fetches. */
  ghost predicate OneHolder(s: State) {
    forall f, g, k :: f in s.fetches && g in s.fetches && Holds(s.fetches[f], k) && Holds(s.fetches[g], k) ==> f == g
  }

  /** A locked key is an unused row; a key given away is a used one. */
  predicate FetchOk(s: State, f: nat)
    requires f in s.fetches
  {
    match s.fetches[f]
    case Locked(k) => k in s.rows && s.rows[k].usedAt.None?
    case Handed(k) => k in s.rows && s.rows[k].usedAt.Some?
    case Lost(k) => k in s.rows && s.rows[k].usedAt.Some?
    case Answered(p) => p.Some? ==> p.value in s.rows && s.rows[p.value].usedAt.Some?
    case Aborted => true
  }

  /** Uncommitted batches hold new, unused rows and do not overlap. */
  ghost predicate UploadsOk(s: State) {
    (forall u, k :: u in s.uploads && k in s.uploads[u] ==> k !in s.rows && s.uploads[u][k].usedAt.None?)
    && (forall u, v, k :: u in s.uploads && v in s.uploads && k in s.uploads[u] && k in s.uploads[v] ==> u == v)
  }

  ghost predicate Inv(s: State) {
    OneHolder(s) && UploadsOk(s) && forall f :: f in s.fetches ==> FetchOk(s, f)
  }

  /** The rows of a batch: one for each id in it, unused, with the public key uploaded for that id. */
  lemma {:induction false} NewRowsExact(user: nat, device: int, batch: seq<Upload>)
    ensures forall k :: (k in NewRows(user, device, batch) <==>
                           exists i :: 0 <= i < |batch| && k == Key(user, device, batch[i].prekeyId))
    ensures DistinctIds(batch) ==> forall i :: 0 <= i < |batch| ==>
      var k := Key(user, device, batch[i].prekeyId);
      k in NewRows(user, device, batch) && NewRows(user, device, batch)[k] == Row(batch[i].publicKey, None)
  {
    if batch != [] {
      var init := batch[..|batch| - 1];
      NewRowsExact(user, device, init);
      assert forall i :: 0 <= i < |init| ==> init[i] == batch[i];
    }
  }

  lemma ConflictExactly(s: State, user: nat, device: int, batch: seq<Upload>)
    ensures Conflicts(s, user, device, batch)
      <==> (exists i, j :: 0 <= i < j < |batch| && batch[i].prekeyId == batch[j].prekeyId)
           || exists i :: 0 <= i < |batch| && Key(user, device, batch[i].prekeyId) in s.rows
  {
    NewRowsExact(user, device, batch);
    hide NewRows;
    if k :| k in NewRows(user, device, batch) && k in s.rows {
      var i :| 0 <= i < |batch| && k == Key(user, device, batch[i].prekeyId);
    }
    if i :| 0 <= i < |batch| && Key(user, device, batch[i].prekeyId) in s.rows {
      assert Key(user, device, batch[i].prekeyId) in NewRows(user, device, batch);
    }
  }

  lemma {:induction false} NewRowsUnused(user: nat, device: int, batch: seq<Upload>, k: Key)
    requires k in NewRows(user, device, batch)
    ensures NewRows(user, device, batch)[k].usedAt.None? && k.user == user && k.device == device
  {
    if batch != [] && k != KeyFor(user, device, batch[|batch| - 1]) {
      NewRowsUnused(user, device, batch[..|batch| - 1], k);
    }
  }

  lemma UploadStepKeepsInv(s: State, step: Step)
    requires Inv(s) && Enabled(s, step) && (step.UploadFlush? || step.UploadCommit? || step.UploadEnd?)
    ensures Inv(Perform(s, step))
  {
    hide Holds, NewRows, DistinctIds;
    var t := Perform(s, step);
    if step.UploadFlush? {
      forall k | k in t.uploads[step.upload] ensures k !in t.rows && t.uploads[step.upload][k].usedAt.None? {
        NewRowsUnused(step.user, step.device, step.batch, k);
      }
    }
    forall f | f in t.fetches ensures FetchOk(t, f) {
      assert FetchOk(s, f);
    }
  }

  lemma FetchStepKeepsInv(s: State, step: Step)
    requires Inv(s) && Enabled(s, step) && (step.FetchCommit? || step.FetchAnswer? || step.FetchCrash?)
    ensures Inv(Perform(s, step))
  {
    var t := Perform(s, step);
    assert FetchOk(s, step.fetch);
    forall f | f in t.fetches ensures FetchOk(t, f) {
      assert FetchOk(s, f);
      if step.FetchCommit? && f != step.fetch && s.fetches[f] == Locked(s.fetches[step.fetch].key) {
        assert Holds(s.fetches[f], s.fetches[f].key);
      }
    }
    forall f, g, k | f in t.fetches && g in t.fetches && Holds(t.fetches[f], k) && Holds(t.fetches[g], k)
      ensures f == g
    {
      assert Holds(s.fetches[f], k) && Holds(s.fetches[g], k);
    }
  }

  lemma LockStepKeepsInv(s: State, step: Step)
    requires Inv(s) && Enabled(s, step) && (step.FetchLock? || step.FetchNone?)
    ensures Inv(Perform(s, step))
  {
    var t := Perform(s, step);
    forall f | f in t.fetches ensures FetchOk(t, f) {
      assert f in s.fetches ==> FetchOk(s, f);
    }
    forall f, g, k | f in t.fetches && g in t.fetches && Holds(t.fetches[f], k) && Holds(t.fetches[g], k)
      ensures f == g
    {
      assert f in s.fetches ==> FetchOk(s, f);
      assert g in s.fetches ==> FetchOk(s, g);
    }
  }

  lemma StepKeepsInv(s: State, step: Step)
    requires Inv(s)
    ensures Inv(Next(s, step))
  {
    hide Inv;
    if Enabled(s, step) {
      match step
      case UploadFlush(_, _, _, _) => UploadStepKeepsInv(s, step);
      case UploadCommit(_) => UploadStepKeepsInv(s, step);
      case UploadEnd(_) => UploadStepKeepsInv(s, step);
      case FetchLock(_, _, _, _) => LockStepKeepsInv(s, step);
      case FetchNone(_, _, _) => LockStepKeepsInv(s, step);
      case FetchCommit(_, _) => FetchStepKeepsInv(s, step);
      case FetchAnswer(_) => FetchStepKeepsInv(s, step);
      case FetchCrash(_) => FetchStepKeepsInv(s, step);
    }
  }

  lemma {:induction false} RunKeepsInv(s: State, steps: seq<Step>)
    requires Inv(s)
    ensures Inv(After(s, steps))
    decreases |steps|
  {
    hide Inv, Next;
    if steps != [] {
      StepKeepsInv(s, steps[0]);
      RunKeepsInv(Next(s, steps[0]), steps[1..]);
    }
  }

  /** In every reachable state no prekey was answered, or given away at all, by two fetches, and what was
      given away is a used row of the table. */
  lemma HandedOutOnce(steps: seq<Step>, f: nat, g: nat, k: Key)
    requires var s := After(INIT, steps);
      f in s.fetches && g in s.fetches && HandsOut(s.fetches[f], k) && HandsOut(s.fetches[g], k)
    ensures f == g
    ensures var s := After(INIT, steps); k in s.rows && s.rows[k].usedAt.Some?
  {
    hide After;
    var s := After(INIT, steps);
    RunKeepsInv(INIT, steps);
    assert FetchOk(s, f) && Holds(s.fetches[f], k) && Holds(s.fetches[g], k);
  }

  /** Every used row was given away by some fetch. */
  ghost predicate UsedByFetch(s: State) {
    forall k :: k in s.rows && s.rows[k].usedAt.Some? ==> GivenAway(s, k)
  }

  ghost predicate GivenAway(s: State, k: Key) { exists f :: f in s.fetches && HandsOut(s.fetches[f], k) }

  lemma StepKeepsGivenAway(s: State, step: Step, k: Key)
    requires GivenAway(s, k)
    ensures GivenAway(Next(s, step), k)
  {
    hide MustWait, Conflicts, IsNext, Selectable, NewRows;
    var f :| f in s.fetches && HandsOut(s.fetches[f], k);
    assert f in Next(s, step).fetches && HandsOut(Next(s, step).fetches[f], k);
  }

  lemma StepKeepsUsedByFetch(s: State, step: Step)
    requires Inv(s) && UsedByFetch(s)
    ensures UsedByFetch(Next(s, step))
  {
    var t := Next(s, step);
    forall k | k in t.rows && t.rows[k].usedAt.Some? ensures GivenAway(t, k) {
      if k in s.rows && s.rows[k].usedAt.Some? {
        StepKeepsGivenAway(s, step, k);
      } else {
        NewlyUsed(s, step, k);
      }
    }
  }

  lemma NewlyUsed(s: State, step: Step, k: Key)
    requires Inv(s) && k in Next(s, step).rows && Next(s, step).rows[k].usedAt.Some?
    requires k in s.rows ==> s.rows[k].usedAt.None?
    ensures GivenAway(Next(s, step), k)
  {
    hide MustWait, Conflicts, IsNext, Selectable, NewRows, OneHolder, FetchOk;
    var t := Next(s, step);
    assert step.FetchCommit? && t.fetches[step.fetch] == Handed(k);
    assert HandsOut(t.fetches[step.fetch], k);
  }

  lemma {:induction false} RunKeepsUsedByFetch(s: State, steps: seq<Step>)
    requires Inv(s) && UsedByFetch(s)
    ensures UsedByFetch(After(s, steps))
    decreases |steps|
  {
    if steps != [] {
      hide Inv, UsedByFetch, Next;
      StepKeepsUsedByFetch(s, steps[0]);
      StepKeepsInv(s, steps[0]);
      RunKeepsUsedByFetch(Next(s, steps[0]), steps[1..]);
    }
  }

  // ---- conservation ----

  function Uploaded(s: State, user: nat, device: int): set<Key> {
    set k | k in s.rows && k.user == user && k.device == device
  }

  /** count_unused_for_device. */
  function Unused(s: State, user: nat, device: int): set<Key> {
    set k | k in s.rows && k.user == user && k.device == device && s.rows[k].usedAt.None?
  }

  predicate HandsOutFor(f: Fetch, user: nat, device: int) {
    match f
    case Handed(k) => k.user == user && k.device == device
    case Lost(k) => k.user == user && k.device == device
    case Answered(p) => p.Some? && p.value.user == user && p.value.device == device
    case _ => false
  }

  /** The fetches that have given away a prekey of the device. */
  function Handouts(s: State, user: nat, device: int): set<nat> {
    set f | f in s.fetches && HandsOutFor(s.fetches[f], user, device)
  }

  ghost predicate Balanced(s: State, user: nat, device: int) {
    |Uploaded(s, user, device)| == |Unused(s, user, device)| + |Handouts(s, user, device)|
  }

  lemma CommitKeepsBalance(s: State, step: Step, user: nat, device: int)
    requires Inv(s) && Enabled(s, step) && step.FetchCommit? && Balanced(s, user, device)
    ensures Balanced(Perform(s, step), user, device)
  {
    var t, f := Perform(s, step), step.fetch;
    var k := s.fetches[f].key;
    assert FetchOk(s, f);
    assert Uploaded(t, user, device) == Uploaded(s, user, device);
    if k.user == user && k.device == device {
      assert Unused(t, user, device) == Unused(s, user, device) - {k};
      assert Handouts(t, user, device) == Handouts(s, user, device) + {f};
    } else {
      assert Unused(t, user, device) == Unused(s, user, device);
      assert Handouts(t, user, device) == Handouts(s, user, device);
    }
  }

  function AddedFor(rows: map<Key, Row>, user: nat, device: int): set<Key> {
    set k | k in rows && k.user == user && k.device == device
  }

  lemma CommittedBatch(s: State, u: nat, user: nat, device: int)
    requires Inv(s) && u in s.uploads
    ensures var t := s.(rows := s.rows + s.uploads[u]);
      var added := AddedFor(s.uploads[u], user, device);
      Uploaded(t, user, device) == Uploaded(s, user, device) + added && Uploaded(s, user, device) !! added
      && Unused(t, user, device) == Unused(s, user, device) + added && Unused(s, user, device) !! added
  {
    hide OneHolder, FetchOk;
  }

  lemma UploadKeepsBalance(s: State, step: Step, user: nat, device: int)
    requires Inv(s) && Enabled(s, step) && step.UploadCommit? && Balanced(s, user, device)
    ensures Balanced(Perform(s, step), user, device)
  {
    CommittedBatch(s, step.upload, user, device);
    hide Inv;
    var t, u := Perform(s, step), s.(rows := s.rows + s.uploads[step.upload]);
    assert Uploaded(t, user, device) == Uploaded(u, user, device);
    assert Unused(t, user, device) == Unused(u, user, device);
    assert Handouts(t, user, device) == Handouts(s, user, device);
    hide Uploaded, Unused, Handouts, AddedFor;
  }

  lemma OtherKeepsBalance(s: State, step: Step, user: nat, device: int)
    requires Enabled(s, step) && !step.FetchCommit? && !step.UploadCommit? && Balanced(s, user, device)
    ensures Balanced(Perform(s, step), user, device)
  {
    hide MustWait, Conflicts, IsNext, Selectable, NewRows;
    var t := Perform(s, step);
    assert t.rows == s.rows;
    assert Uploaded(t, user, device) == Uploaded(s, user, device) && Unused(t, user, device) == Unused(s, user, device);
    assert Handouts(t, user, device) == Handouts(s, user, device);
  }

  lemma {:induction false} RunKeepsBalance(s: State, steps: seq<Step>, user: nat, device: int)
    requires Inv(s) && Balanced(s, user, device)
    ensures Balanced(After(s, steps), user, device)
    decreases |steps|
  {
    if steps != [] {
      hide Inv, Balanced, Enabled, Perform;
      var step := steps[0];
      if Enabled(s, step) {
        if step.FetchCommit? {
          CommitKeepsBalance(s, step, user, device);
        } else if step.UploadCommit? {
          UploadKeepsBalance(s, step, user, device);
        } else {
          OtherKeepsBalance(s, step, user, device);
        }
      }
      StepKeepsInv(s, step);
      RunKeepsBalance(Next(s, step), steps[1..], user, device);
    }
  }

  /** For every device and every run: uploaded = unused + given away. */
  lemma Conservation(steps: seq<Step>, user: nat, device: int)
    ensures Balanced(After(INIT, steps), user, device)
  {
    hide After;
    assert Uploaded(INIT, user, device) == {} && Unused(INIT, user, device) == {} && Handouts(INIT, user, device) == {};
    RunKeepsBalance(INIT, steps, user, device);
  }

  /** A row, once committed, stays, keeps its public key, and once used stays used. */
  lemma {:induction false} RowsStay(s: State, steps: seq<Step>, k: Key)
    requires Inv(s) && k in s.rows
    ensures k in After(s, steps).rows && After(s, steps).rows[k].publicKey == s.rows[k].publicKey
    ensures s.rows[k].usedAt.Some? ==> After(s, steps).rows[k].usedAt.Some?
    decreases |steps|
  {
    if steps != [] {
      StepKeepsRow(s, steps[0], k);
      StepKeepsInv(s, steps[0]);
      hide Next, Inv;
      RowsStay(Next(s, steps[0]), steps[1..], k);
    }
  }

  lemma StepKeepsRow(s: State, step: Step, k: Key)
    requires Inv(s) && k in s.rows
    ensures k in Next(s, step).rows && Next(s, step).rows[k].publicKey == s.rows[k].publicKey
    ensures s.rows[k].usedAt.Some? ==> Next(s, step).rows[k].usedAt.Some?
  {
    hide MustWait, Conflicts, IsNext, Selectable, NewRows;
  }

  // ---- the endpoints, one request at a time ----

  /** The status code of an HTTP error. */
  type HttpStatus = int

  class KeysApi {
    var s: State
    var activeDevices: set<(nat, int)>

    /** upload_one_time_prekeys: the whole batch or nothing. */
    method UploadOneTimePrekeys(upload: nat, user: nat, device: int, batch: seq<Upload>)
      returns (r: Result<nat, HttpStatus>)
      requires Inv(s) && upload !in s.uploads && !MustWait(s, user, device, batch)
      modifies this`s
      ensures Inv(s) && s.uploads == old(s).uploads && s.fetches == old(s).fetches
      ensures r == if exists i :: 0 <= i < |batch| && batch[i].deviceId != device then Err(400)
                   else if (user, device) !in activeDevices then Err(404)
                   else if Conflicts(old(s), user, device, batch) then Err(409)
                   else Ok(|batch|)
      ensures s.rows == if r.Ok? then old(s).rows + NewRows(user, device, batch) else old(s).rows
      ensures r == Err(409) ==>
                (exists i, j :: 0 <= i < j < |batch| && batch[i].prekeyId == batch[j].prekeyId)
                || exists i :: 0 <= i < |batch| && Key(user, device, batch[i].prekeyId) in old(s).rows
      ensures r.Ok? ==>
                && (forall i, j :: 0 <= i < j < |batch| ==> batch[i].prekeyId != batch[j].prekeyId)
                && (forall i :: 0 <= i < |batch| ==>
                      var k := Key(user, device, batch[i].prekeyId);
                      k !in old(s).rows && k in s.rows && s.rows[k] == Row(batch[i].publicKey, None))
                && (forall k :: k in old(s).rows ==> k in s.rows && s.rows[k] == old(s).rows[k])
                && (forall k :: k in s.rows && k !in old(s).rows ==>
                      exists i :: 0 <= i < |batch| && k == Key(user, device, batch[i].prekeyId))
    {
      NewRowsExact(user, device, batch);
      ConflictExactly(s, user, device, batch);
      hide Inv, MustWait, NewRows, Conflicts;
      if exists i :: 0 <= i < |batch| && batch[i].deviceId != device {
        return Err(400);
      }
      if (user, device) !in activeDevices {
        return Err(404);
      }
      if Conflicts(s, user, device, batch) {
        return Err(409);
      }
      StepKeepsInv(s, UploadFlush(upload, user, device, batch));
      s := Next(s, UploadFlush(upload, user, device, batch));
      StepKeepsInv(s, UploadCommit(upload));
      s := Next(s, UploadCommit(upload));
      assert s.uploads == old(s).uploads;
      r := Ok(|batch|);
    }

    method GetUnusedForDevice(user: nat, device: int) returns (k: Option<Key>)
      ensures k.None? <==> forall x :: x in s.rows ==> !Selectable(s, user, device, x)
      ensures k.Some? ==> IsNext(s, user, device, k.value)
      ensures k.Some? ==>
                && k.value in s.rows && k.value.user == user && k.value.device == device
                && s.rows[k.value].usedAt == None && (forall f :: f in s.fetches ==> s.fetches[f] != Locked(k.value))
                && forall x :: (x in s.rows && x.user == user && x.device == device && s.rows[x].usedAt == None
                                && forall f :: f in s.fetches ==> s.fetches[f] != Locked(x)) ==>
                                 k.value.prekeyId <= x.prekeyId
    {
      hide Selectable;
      k := None;
      var todo := s.rows.Keys;
      while todo != {}
        invariant todo <= s.rows.Keys
        invariant k.Some? ==> k.value in s.rows && Selectable(s, user, device, k.value)
        invariant forall x :: x in s.rows.Keys - todo && Selectable(s, user, device, x) ==>
          k.Some? && k.value.prekeyId <= x.prekeyId
        decreases todo
      {
        var x :| x in todo;
        todo := todo - {x};
        if Selectable(s, user, device, x) && (k.None? || x.prekeyId < k.value.prekeyId) {
          k := Some(x);
        }
      }
      NextOutright(s, user, device);
    }

    /** get_prekey_bundle: the lowest unused, unlocked prekey of the device, used from now on; no prekey when
        there is none. */
    method GetPrekeyBundle(fetch: nat, user: nat, device: int, now: int) returns (r: Result<Option<Key>, HttpStatus>)
      requires Inv(s) && fetch !in s.fetches
      modifies this`s
      ensures Inv(s) && s.uploads == old(s).uploads
      ensures (user, device) !in activeDevices ==> r == Err(404) && s == old(s)
      ensures (user, device) in activeDevices ==> r.Ok? && s.fetches == old(s).fetches[fetch := Answered(r.value)]
      ensures r.Ok? && r.value.None? ==>
        s.rows == old(s).rows && forall k :: k in s.rows ==> !Selectable(old(s), user, device, k)
      ensures r.Ok? && r.value.Some? ==>
        IsNext(old(s), user, device, r.value.value)
        && s.rows == old(s).rows[r.value.value := old(s).rows[r.value.value].(usedAt := Some(now))]
    {
      if (user, device) !in activeDevices {
        return Err(404);
      }
      var k := GetUnusedForDevice(user, device);
      hide Inv, IsNext, Selectable;
      if k.None? {
        StepKeepsInv(s, FetchNone(fetch, user, device));
        s := Next(s, FetchNone(fetch, user, device));
        return Ok(None);
      }
      NextIsRow(s, user, device, k.value);
      StepKeepsInv(s, FetchLock(fetch, user, device, k.value));
      s := Next(s, FetchLock(fetch, user, device, k.value));
      StepKeepsInv(s, FetchCommit(fetch, now));
      s := Next(s, FetchCommit(fetch, now));
      StepKeepsInv(s, FetchAnswer(fetch));
      s := Next(s, FetchAnswer(fetch));
      r := Ok(k);
    }
  }

  lemma NextOutright(s: State, user: nat, device: int)
    ensures forall x :: (Selectable(s, user, device, x) <==>
                           && x in s.rows && x.user == user && x.device == device && s.rows[x].usedAt == None
                           && forall f :: f in s.fetches ==> s.fetches[f] != Locked(x))
  {
  }

  lemma NextIsRow(s: State, user: nat, device: int, k: Key)
    requires IsNext(s, user, device, k)
    ensures k in s.rows
  {
  }
}
