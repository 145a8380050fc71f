/** The anchor pipeline: requests and message sends insert pending rows, workers lock the oldest pending row,
    submit its hash to the write-once contract and commit the outcome. Every interleaving is a sequence of
    steps; a transaction may land long after its worker gave up, and a worker may crash anywhere. */
module AnchorProtocol {
  import opened Merkle
  import opened FidelityContract
  import opened Wrappers

  // ---- rows ----

  datatype Status = Pending | Confirmed | Failed

  /** One signed storeHash transaction; its hash identifies it. */
  datatype TxKey = TxKey(nonce: nat, gasPrice: nat, recordId: Node, contentHash: Node)

  datatype Anchor = Anchor(
    messageId: Option<nat>, batchId: Option<nat>, recordId: Option<string>, digest: string,
    merkleRoot: Option<string>, transactionHash: Option<TxKey>, contractAddress: Option<string>,
    chain: string, status: Status, createdAt: int, anchoredAt: Option<nat>)

  /** create_anchor with the values create_pending_anchor_for_message gives it. */
  function MessageAnchor(messageId: nat, recordId: string, digest: string, createdAt: int): Anchor {
    Anchor(Some(messageId), None, Some(recordId), digest, None, None, None, "sepolia", Pending, createdAt, None)
  }

  predicate Truthy(s: Option<string>) { s.Some? && s.value != "" }

  /** _submission_values: the record id and the hash to write, or a ValueError. */
  function SubmissionValues(a: Anchor): Result<(string, string), string> {
    if !Truthy(a.recordId) then Err("record_id is missing.")
    else
      var contentHash := if Truthy(a.merkleRoot) then a.merkleRoot.value else a.digest;
      if contentHash == "" then Err("digest/merkle_root is missing.") else Ok((a.recordId.value, contentHash))
  }

  /** A bytes32 argument of the contract call; other strings are refused before anything is sent. */
  function Encode(s: string): Option<Node> { if IsHex32(s) then Some(LowerNode(s)) else None }

  /** key is a transaction that submits row a. */
  predicate Submits(a: Anchor, key: TxKey) {
    var v := SubmissionValues(a);
    v.Ok? && Encode(v.value.0) == Some(key.recordId) && Encode(v.value.1) == Some(key.contentHash)
  }

  // ---- the state ----

  datatype TxOutcome = InMempool | Landed(timestamp: nat) | Refused

  datatype Tx = Tx(row: nat, outcome: TxOutcome)

  /** A worker inside its database transaction: it holds the lock of one row. */
  datatype Phase = Locked(row: nat) | Sent(row: nat, key: TxKey)

  datatype State = State(
    rows: map<nat, Anchor>,        // committed rows
    messages: set<nat>,            // committed messages
    serviceRows: map<nat, nat>,    // rows inserted for a message, with the message
    requests: map<nat, nat>,       // retries that found no active anchor, not yet inserted
    workers: map<nat, Phase>,      // busy workers
    txs: map<TxKey, Tx>,           // broadcast transactions, with the row each was sent for
    chain: Records)

  datatype Config = Config(
    recordIdOf: nat -> Node, digestOf: nat -> Node, owner: string, account: string, contractAddress: string,
    markFailedOnError: bool,
    nodeRefusesKnown: bool)      // send_raw_transaction fails for a transaction the node already has

  const INIT := State(map[], {}, map[], map[], map[], map[], map[])

  predicate IsLocked(s: State, row: nat) { exists w :: w in s.workers && s.workers[w].row == row }

  predicate Selectable(s: State, row: nat) { row in s.rows && s.rows[row].status == Pending && !IsLocked(s, row) }

  predicate NotLater(s: State, a: nat, b: nat)
    requires a in s.rows && b in s.rows
  {
    s.rows[a].createdAt < s.rows[b].createdAt || (s.rows[a].createdAt == s.rows[b].createdAt && a <= b)
  }

  /** get_next_pending_for_update: the oldest pending row no other transaction has locked. */
  predicate IsNextPending(s: State, row: nat) {
    Selectable(s, row) && forall r :: r in s.rows && Selectable(s, r) ==> NotLater(s, row, r)
  }

  predicate Active(s: State, messageId: nat) {
    exists r :: r in s.rows && s.rows[r].messageId == Some(messageId) && s.rows[r].status != Failed
  }

  // ---- the steps ----

  datatype Step =
    | SendMessage(message: nat, row: nat, now: int)       // a message and its pending anchor, atomically
    | RetryCheck(request: nat, message: nat)              // get_latest_active_for_message of an explicit request
    | RetryInsert(request: nat, row: nat, now: int)       // ... and its insert and commit
    | RetryEnd(request: nat)                              // ... or its rollback
    | ImportRow(row: nat, anchor: Anchor)                 // any other pending row, well formed or not
    | Lock(worker: nat, row: nat)
    | RejectMalformed(worker: nat)
    | Broadcast(worker: nat, nonce: nat, gasPrice: nat)
    | Mine(key: TxKey, timestamp: nat)
    | OtherStore(call: StoreCall)                         // a contract call from outside the pipeline
    | Confirm(worker: nat)
    | SubmitError(worker: nat)                            // revert, timeout or any other exception of submit_hash
    | Crash(worker: nat)

  function WithRow(s: State, row: nat, a: Anchor): State { s.(rows := s.rows[row := a]) }

  function Release(s: State, worker: nat): State { s.(workers := s.workers - {worker}) }

  function AddMessageRow(c: Config, s: State, row: nat, message: nat, now: int): State {
    WithRow(s, row, MessageAnchor(message, c.recordIdOf(message), c.digestOf(message), now))
      .(serviceRows := s.serviceRows[row := message])
  }

  /** The row as update_anchor_status writes it after a successful submission. */
  function ConfirmedRow(c: Config, a: Anchor, key: TxKey, timestamp: nat): Anchor
    requires SubmissionValues(a).Ok?
  {
    a.(status := Confirmed, transactionHash := Some(key), contractAddress := Some(c.contractAddress),
       merkleRoot := Some(SubmissionValues(a).value.1), anchoredAt := Some(timestamp))
  }

  predicate Enabled(c: Config, s: State, step: Step) {
    match step
    case SendMessage(message, row, now) => message !in s.messages && row !in s.rows
    case RetryCheck(request, message) => request !in s.requests && message in s.messages && !Active(s, message)
    case RetryInsert(request, row, now) => request in s.requests && row !in s.rows
    case RetryEnd(request) => request in s.requests
    case ImportRow(row, anchor) => row !in s.rows && anchor.status == Pending
    case Lock(worker, row) => worker !in s.workers && IsNextPending(s, row)
    case RejectMalformed(worker) =>
      worker in s.workers && s.workers[worker].Locked? && s.workers[worker].row in s.rows
      && SubmissionValues(s.rows[s.workers[worker].row]).Err?
    case Broadcast(worker, nonce, gasPrice) =>
      worker in s.workers && s.workers[worker].Locked? && s.workers[worker].row in s.rows
      && var v := SubmissionValues(s.rows[s.workers[worker].row]);
      v.Ok? && Encode(v.value.0).Some? && Encode(v.value.1).Some?
      && (c.nodeRefusesKnown ==> TxKey(nonce, gasPrice, Encode(v.value.0).value, Encode(v.value.1).value) !in s.txs)
    case Mine(key, timestamp) => key in s.txs && s.txs[key].outcome == InMempool && timestamp > 0
    case OtherStore(call) => call.timestamp > 0
    case Confirm(worker) =>
      worker in s.workers && s.workers[worker].Sent? && s.workers[worker].row in s.rows
      && s.workers[worker].key in s.txs && s.txs[s.workers[worker].key].outcome.Landed?
      && SubmissionValues(s.rows[s.workers[worker].row]).Ok?
    case SubmitError(worker) =>
      worker in s.workers && s.workers[worker].row in s.rows && SubmissionValues(s.rows[s.workers[worker].row]).Ok?
    case Crash(worker) => worker in s.workers
  }

  function Perform(c: Config, s: State, step: Step): State
    requires Enabled(c, s, step)
  {
    match step
    case SendMessage(message, row, now) => AddMessageRow(c, s, row, message, now).(messages := s.messages + {message})
    case RetryCheck(request, message) => s.(requests := s.requests[request := message])
    case RetryInsert(request, row, now) =>
      AddMessageRow(c, s, row, s.requests[request], now).(requests := s.requests - {request})
    case RetryEnd(request) => s.(requests := s.requests - {request})
    case ImportRow(row, anchor) => WithRow(s, row, anchor)
    case Lock(worker, row) => s.(workers := s.workers[worker := Locked(row)])
    case RejectMalformed(worker) =>
      var row := s.workers[worker].row;
      Release(WithRow(s, row, s.rows[row].(status := Failed)), worker)
    case Broadcast(worker, nonce, gasPrice) =>
      var row := s.workers[worker].row;
      var v := SubmissionValues(s.rows[row]).value;
      var key := TxKey(nonce, gasPrice, Encode(v.0).value, Encode(v.1).value);
      s.(txs := if key in s.txs then s.txs else s.txs[key := Tx(row, InMempool)],
         workers := s.workers[worker := Sent(row, key)])
    case Mine(key, timestamp) =>
      (match Stored(s.chain, c.owner, StoreCall(c.account, key.recordId, key.contentHash, timestamp))
       case Ok(chain) => s.(chain := chain, txs := s.txs[key := Tx(s.txs[key].row, Landed(timestamp))])
       case Err(_) => s.(txs := s.txs[key := Tx(s.txs[key].row, Refused)]))
    case OtherStore(call) =>
      (match Stored(s.chain, c.owner, call)
       case Ok(chain) => s.(chain := chain)
       case Err(_) => s)
    case Confirm(worker) =>
      var Sent(row, key) := s.workers[worker];
      Release(WithRow(s, row, ConfirmedRow(c, s.rows[row], key, s.txs[key].outcome.timestamp)), worker)
    case SubmitError(worker) =>
      var row := s.workers[worker].row;
      Release(if c.markFailedOnError then WithRow(s, row, s.rows[row].(status := Failed)) else s, worker)
    case Crash(worker) => Release(s, worker)
  }

  function Next(c: Config, s: State, step: Step): State { if Enabled(c, s, step) then Perform(c, s, step) else s }

  /** The state after a run; a step that is not possible when it comes is skipped. */
  function After(c: Config, s: State, steps: seq<Step>): State
    decreases |steps|
  {
    if steps == [] then s else After(c, Next(c, s, steps[0]), steps[1..])
  }

  // ---- the invariant ----

  predicate WorkerOk(c: Config, s: State, w: nat)
    requires w in s.workers
  {
    var p := s.workers[w];
    p.row in s.rows && s.rows[p.row].status == Pending
    && (p.Sent? ==>
         && p.key in s.txs && Submits(s.rows[p.row], p.key)
         && (c.nodeRefusesKnown ==> s.txs[p.key].row == p.row))
  }

  predicate TxOk(s: State, key: TxKey)
    requires key in s.txs
  {
    s.txs[key].outcome.Landed? ==>
      HasRecord(s.chain, key.recordId)
      && s.chain[key.recordId] == FidelityRecord(key.contentHash, s.txs[key].outcome.timestamp)
  }

  /** A confirmed row names a landed transaction with its record id and hash, the one sent for it when the node
      refuses to broadcast a transaction twice. */
  predicate RowOk(c: Config, s: State, row: nat)
    requires row in s.rows
  {
    var a := s.rows[row];
    a.status == Confirmed ==>
      a.transactionHash.Some? && a.recordId.Some? && a.merkleRoot.Some?
      && var key := a.transactionHash.value;
      key in s.txs && (c.nodeRefusesKnown ==> s.txs[key].row == row) && s.txs[key].outcome.Landed?
      && Encode(a.recordId.value) == Some(key.recordId) && Encode(a.merkleRoot.value) == Some(key.contentHash)
      && a.anchoredAt == Some(s.txs[key].outcome.timestamp)
  }

  /** A row inserted for a message keeps the message's record id and digest, and is confirmed with it. */
  predicate ServiceRowOk(c: Config, s: State, row: nat)
    requires row in s.serviceRows
  {
    row in s.rows && var a, m := s.rows[row], s.serviceRows[row];
    a.messageId == Some(m) && a.recordId.Some? && a.recordId.value == c.recordIdOf(m) && a.digest == c.digestOf(m)
    && a.chain == "sepolia"
    && a.merkleRoot == (if a.status == Confirmed then Some(a.digest) else None)
  }

  ghost predicate LocksExclusive(s: State) {
    forall v, w :: v in s.workers && w in s.workers && s.workers[v].row == s.workers[w].row ==> v == w
  }

  ghost predicate LandedOnce(s: State) {
    forall k, l :: (k in s.txs && l in s.txs && s.txs[k].outcome.Landed? && s.txs[l].outcome.Landed?
                    && k.recordId == l.recordId) ==> k == l
  }

  ghost predicate Inv(c: Config, s: State) {
    && (forall w :: w in s.workers ==> WorkerOk(c, s, w))
    && (forall k :: k in s.txs ==> TxOk(s, k))
    && (forall r :: r in s.rows ==> RowOk(c, s, r))
    && (forall r :: r in s.serviceRows ==> ServiceRowOk(c, s, r))
    && LocksExclusive(s)
    && LandedOnce(s)
  }

  lemma InsertKeepsInv(c: Config, s: State, row: nat, a: Anchor)
    requires Inv(c, s) && row !in s.rows && a.status == Pending
    ensures Inv(c, WithRow(s, row, a))
  {
    hide SubmissionValues, Encode;
    var t := WithRow(s, row, a);
    forall w | w in t.workers ensures WorkerOk(c, t, w) {
      assert WorkerOk(c, s, w);
    }
    forall k | k in t.txs ensures TxOk(t, k) {
      assert TxOk(s, k);
    }
    forall r | r in t.rows ensures RowOk(c, t, r) {
      assert r in s.rows ==> RowOk(c, s, r);
    }
    forall r | r in t.serviceRows ensures ServiceRowOk(c, t, r) {
      assert ServiceRowOk(c, s, r);
    }
  }

  lemma MessageRowKeepsInv(c: Config, s: State, row: nat, message: nat, now: int)
    requires Inv(c, s) && row !in s.rows
    ensures Inv(c, AddMessageRow(c, s, row, message, now))
  {
    hide SubmissionValues, Encode;
    InsertKeepsInv(c, s, row, MessageAnchor(message, c.recordIdOf(message), c.digestOf(message), now));
    var u := WithRow(s, row, MessageAnchor(message, c.recordIdOf(message), c.digestOf(message), now));
    var t := AddMessageRow(c, s, row, message, now);
    forall w | w in t.workers ensures WorkerOk(c, t, w) {
      assert WorkerOk(c, u, w);
    }
    forall k | k in t.txs ensures TxOk(t, k) {
      assert TxOk(u, k);
    }
    forall r | r in t.rows ensures RowOk(c, t, r) {
      assert RowOk(c, u, r);
    }
    forall r | r in t.serviceRows ensures ServiceRowOk(c, t, r) {
      assert r in u.serviceRows ==> ServiceRowOk(c, u, r);
    }
  }

  lemma ReleaseKeepsInv(c: Config, s: State, worker: nat)
    requires Inv(c, s)
    ensures Inv(c, Release(s, worker))
  {
    hide SubmissionValues, Encode;
    var t := Release(s, worker);
    forall w | w in t.workers ensures WorkerOk(c, t, w) {
      assert WorkerOk(c, s, w);
    }
    forall k | k in t.txs ensures TxOk(t, k) {
      assert TxOk(s, k);
    }
    forall r | r in t.rows ensures RowOk(c, t, r) {
      assert RowOk(c, s, r);
    }
    forall r | r in t.serviceRows ensures ServiceRowOk(c, t, r) {
      assert ServiceRowOk(c, s, r);
    }
  }

  /** Committing a new version of the locked row and giving the lock back. */
  lemma CommitKeepsInv(c: Config, s: State, worker: nat, a: Anchor)
    requires Inv(c, s) && worker in s.workers
    requires RowOk(c, WithRow(s, s.workers[worker].row, a), s.workers[worker].row)
    requires s.workers[worker].row in s.serviceRows ==>
      ServiceRowOk(c, WithRow(s, s.workers[worker].row, a), s.workers[worker].row)
    ensures Inv(c, Release(WithRow(s, s.workers[worker].row, a), worker))
  {
    hide SubmissionValues, Encode;
    var row := s.workers[worker].row;
    var t := Release(WithRow(s, row, a), worker);
    forall w | w in t.workers ensures WorkerOk(c, t, w) {
      assert WorkerOk(c, s, w) && s.workers[w].row != row;
    }
    forall k | k in t.txs ensures TxOk(t, k) {
      assert TxOk(s, k);
    }
    forall r | r in t.rows ensures RowOk(c, t, r) {
      assert r != row ==> RowOk(c, s, r);
    }
    forall r | r in t.serviceRows ensures ServiceRowOk(c, t, r) {
      assert ServiceRowOk(c, s, r);
    }
  }

  lemma LockKeepsInv(c: Config, s: State, worker: nat, row: nat)
    requires Inv(c, s) && Enabled(c, s, Lock(worker, row))
    ensures Inv(c, Perform(c, s, Lock(worker, row)))
  {
    hide SubmissionValues, Encode, NotLater;
    var t := Perform(c, s, Lock(worker, row));
    forall w | w in t.workers ensures WorkerOk(c, t, w) {
      assert w in s.workers ==> WorkerOk(c, s, w);
    }
    forall k | k in t.txs ensures TxOk(t, k) {
      assert TxOk(s, k);
    }
    forall r | r in t.rows ensures RowOk(c, t, r) {
      assert RowOk(c, s, r);
    }
    forall r | r in t.serviceRows ensures ServiceRowOk(c, t, r) {
      assert ServiceRowOk(c, s, r);
    }
  }

  lemma BroadcastKeepsInv(c: Config, s: State, worker: nat, nonce: nat, gasPrice: nat)
    requires Inv(c, s) && Enabled(c, s, Broadcast(worker, nonce, gasPrice))
    ensures Inv(c, Perform(c, s, Broadcast(worker, nonce, gasPrice)))
  {
    hide SubmissionValues, Encode, HasRecord;
    var t := Perform(c, s, Broadcast(worker, nonce, gasPrice));
    forall w | w in t.workers ensures WorkerOk(c, t, w) {
      assert WorkerOk(c, s, w);
    }
    forall k | k in t.txs ensures TxOk(t, k) {
      assert k in s.txs ==> TxOk(s, k);
    }
    forall r | r in t.rows ensures RowOk(c, t, r) {
      assert RowOk(c, s, r);
    }
    forall r | r in t.serviceRows ensures ServiceRowOk(c, t, r) {
      assert ServiceRowOk(c, s, r);
    }
  }

  /** Existing records stay as they are. */
  ghost predicate ChainGrows(before: Records, after: Records) {
    forall id :: HasRecord(before, id) ==> HasRecord(after, id) && after[id] == before[id]
  }

  lemma StoredGrows(records: Records, owner: string, call: StoreCall)
    requires Stored(records, owner, call).Ok? && call.timestamp > 0
    ensures ChainGrows(records, Stored(records, owner, call).value)
    ensures !HasRecord(records, call.recordId) && HasRecord(Stored(records, owner, call).value, call.recordId)
    ensures Stored(records, owner, call).value[call.recordId] == FidelityRecord(call.contentHash, call.timestamp)
  {
  }

  lemma GrowthKeepsInv(c: Config, s: State, chain: Records)
    requires Inv(c, s) && ChainGrows(s.chain, chain)
    ensures Inv(c, s.(chain := chain))
  {
    hide SubmissionValues, Encode, HasRecord;
    var t := s.(chain := chain);
    forall w | w in t.workers ensures WorkerOk(c, t, w) {
      assert WorkerOk(c, s, w);
    }
    forall k | k in t.txs ensures TxOk(t, k) {
      assert TxOk(s, k);
    }
    forall r | r in t.rows ensures RowOk(c, t, r) {
      assert RowOk(c, s, r);
    }
    forall r | r in t.serviceRows ensures ServiceRowOk(c, t, r) {
      assert ServiceRowOk(c, s, r);
    }
  }

  function Settle(s: State, key: TxKey, outcome: TxOutcome): State
    requires key in s.txs
  {
    s.(txs := s.txs[key := Tx(s.txs[key].row, outcome)])
  }

  /** Giving a transaction its outcome, the chain already holding what it wrote. */
  lemma SettleKeepsInv(c: Config, s: State, key: TxKey, outcome: TxOutcome)
    requires Inv(c, s) && key in s.txs && s.txs[key].outcome == InMempool
    requires TxOk(Settle(s, key, outcome), key)
    requires outcome.Landed? ==>
      forall k :: k in s.txs && s.txs[k].outcome.Landed? ==> k.recordId != key.recordId
    ensures Inv(c, Settle(s, key, outcome))
  {
    hide SubmissionValues, Encode, HasRecord;
    var t := Settle(s, key, outcome);
    forall w | w in t.workers ensures WorkerOk(c, t, w) {
      assert WorkerOk(c, s, w);
    }
    forall k | k in t.txs ensures TxOk(t, k) {
      assert TxOk(s, k);
    }
    forall r | r in t.rows ensures RowOk(c, t, r) {
      assert RowOk(c, s, r);
    }
    forall r | r in t.serviceRows ensures ServiceRowOk(c, t, r) {
      assert ServiceRowOk(c, s, r);
    }
  }

  lemma MineKeepsInv(c: Config, s: State, key: TxKey, timestamp: nat)
    requires Inv(c, s) && Enabled(c, s, Mine(key, timestamp))
    ensures Inv(c, Perform(c, s, Mine(key, timestamp)))
  {
    hide SubmissionValues, Encode, Stored, HasRecord, WorkerOk, RowOk, ServiceRowOk;
    var call := StoreCall(c.account, key.recordId, key.contentHash, timestamp);
    match Stored(s.chain, c.owner, call)
    case Ok(chain) =>
      StoredGrows(s.chain, c.owner, call);
      GrowthKeepsInv(c, s, chain);
      forall k | k in s.txs && s.txs[k].outcome.Landed? ensures k.recordId != key.recordId {
        assert TxOk(s, k);
      }
      SettleKeepsInv(c, s.(chain := chain), key, Landed(timestamp));
    case Err(_) =>
      SettleKeepsInv(c, s, key, Refused);
  }

  lemma OtherStoreKeepsInv(c: Config, s: State, call: StoreCall)
    requires Inv(c, s) && Enabled(c, s, OtherStore(call))
    ensures Inv(c, Perform(c, s, OtherStore(call)))
  {
    hide Stored, Inv;
    match Stored(s.chain, c.owner, call)
    case Ok(chain) =>
      StoredGrows(s.chain, c.owner, call);
      GrowthKeepsInv(c, s, chain);
    case Err(_) =>
  }

  lemma ConfirmKeepsInv(c: Config, s: State, worker: nat)
    requires Inv(c, s) && Enabled(c, s, Confirm(worker))
    ensures Inv(c, Perform(c, s, Confirm(worker)))
  {
    hide Encode;
    var Sent(row, key) := s.workers[worker];
    assert WorkerOk(c, s, worker);
    var a := ConfirmedRow(c, s.rows[row], key, s.txs[key].outcome.timestamp);
    assert RowOk(c, WithRow(s, row, a), row);
    if row in s.serviceRows {
      assert ServiceRowOk(c, s, row);
    }
    CommitKeepsInv(c, s, worker, a);
  }

  lemma FailKeepsInv(c: Config, s: State, worker: nat)
    requires Inv(c, s) && worker in s.workers && s.workers[worker].row in s.rows
    ensures Inv(c, Release(WithRow(s, s.workers[worker].row, s.rows[s.workers[worker].row].(status := Failed)), worker))
  {
    hide Encode, SubmissionValues;
    var row := s.workers[worker].row;
    var a := s.rows[row].(status := Failed);
    assert WorkerOk(c, s, worker);
    if row in s.serviceRows {
      assert ServiceRowOk(c, s, row);
    }
    CommitKeepsInv(c, s, worker, a);
  }

  lemma OtherFieldsKeepInv(c: Config, s: State, t: State)
    requires Inv(c, s) && t == s.(messages := t.messages, requests := t.requests)
    ensures Inv(c, t)
  {
    hide SubmissionValues, Encode;
    forall w | w in t.workers ensures WorkerOk(c, t, w) {
      assert WorkerOk(c, s, w);
    }
    forall k | k in t.txs ensures TxOk(t, k) {
      assert TxOk(s, k);
    }
    forall r | r in t.rows ensures RowOk(c, t, r) {
      assert RowOk(c, s, r);
    }
    forall r | r in t.serviceRows ensures ServiceRowOk(c, t, r) {
      assert ServiceRowOk(c, s, r);
    }
  }

  lemma StepKeepsInv(c: Config, s: State, step: Step)
    requires Inv(c, s)
    ensures Inv(c, Next(c, s, step))
  {
    hide Inv, SubmissionValues, Encode, IsNextPending, Active;
    if Enabled(c, s, step) {
      match step {
        case SendMessage(message, row, now) =>
          MessageRowKeepsInv(c, s, row, message, now);
          OtherFieldsKeepInv(c, AddMessageRow(c, s, row, message, now), Next(c, s, step));
        case RetryCheck(_, _) => OtherFieldsKeepInv(c, s, Next(c, s, step));
        case RetryInsert(request, row, now) =>
          MessageRowKeepsInv(c, s, row, s.requests[request], now);
          OtherFieldsKeepInv(c, AddMessageRow(c, s, row, s.requests[request], now), Next(c, s, step));
        case RetryEnd(_) => OtherFieldsKeepInv(c, s, Next(c, s, step));
        case ImportRow(row, anchor) => InsertKeepsInv(c, s, row, anchor);
        case Lock(worker, row) => LockKeepsInv(c, s, worker, row);
        case RejectMalformed(worker) => FailKeepsInv(c, s, worker);
        case Broadcast(worker, nonce, gasPrice) => BroadcastKeepsInv(c, s, worker, nonce, gasPrice);
        case Mine(key, timestamp) => MineKeepsInv(c, s, key, timestamp);
        case OtherStore(call) => OtherStoreKeepsInv(c, s, call);
        case Confirm(worker) => ConfirmKeepsInv(c, s, worker);
        case SubmitError(worker) =>
          FailKeepsInv(c, s, worker);
          ReleaseKeepsInv(c, s, worker);
        case Crash(worker) => ReleaseKeepsInv(c, s, worker);
      }
    }
  }

  lemma {:induction false} RunKeepsInv(c: Config, s: State, steps: seq<Step>)
    requires Inv(c, s)
    ensures Inv(c, After(c, s, steps))
    decreases |steps|
  {
    hide Inv, Next;
    if steps != [] {
      StepKeepsInv(c, s, steps[0]);
      RunKeepsInv(c, Next(c, s, steps[0]), steps[1..]);
    }
  }

  /** Every state a run from the empty database can reach. */
  lemma ReachableInv(c: Config, steps: seq<Step>)
    ensures Inv(c, After(c, INIT, steps))
  {
    RunKeepsInv(c, INIT, steps);
  }

  // ---- safety ----

  /** In every reachable state a confirmed row's record holds exactly the row's hash on chain, written at the
      row's anchoring time. */
  lemma ConfirmedIsOnChain(c: Config, steps: seq<Step>, row: nat)
    requires var s := After(c, INIT, steps); row in s.rows && s.rows[row].status == Confirmed
    ensures var s := After(c, INIT, steps);
      var a := s.rows[row];
      a.recordId.Some? && a.merkleRoot.Some? && a.anchoredAt.Some?
      && Encode(a.recordId.value).Some? && Encode(a.merkleRoot.value).Some?
      && var id := Encode(a.recordId.value).value;
      HasRecord(s.chain, id) && s.chain[id] == FidelityRecord(Encode(a.merkleRoot.value).value, a.anchoredAt.value)
  {
    hide After, Encode;
    var s := After(c, INIT, steps);
    ReachableInv(c, steps);
    assert RowOk(c, s, row);
    assert TxOk(s, s.rows[row].transactionHash.value);
  }

  /** row is confirmed under this record id. */
  predicate ConfirmedFor(s: State, row: nat, id: Node) {
    row in s.rows && s.rows[row].status == Confirmed && s.rows[row].recordId.Some?
    && Encode(s.rows[row].recordId.value) == Some(id)
  }

  ghost predicate ConfirmedOnce(s: State) {
    forall q, r, id :: ConfirmedFor(s, q, id) && ConfirmedFor(s, r, id) ==> q == r
  }

  lemma InvConfirmsOnce(c: Config, s: State)
    requires Inv(c, s) && c.nodeRefusesKnown
    ensures ConfirmedOnce(s)
  {
    hide Encode, WorkerOk, TxOk, ServiceRowOk, LocksExclusive;
    forall q, r, id | ConfirmedFor(s, q, id) && ConfirmedFor(s, r, id) ensures q == r {
      assert RowOk(c, s, q) && RowOk(c, s, r);
      assert s.rows[q].transactionHash.value == s.rows[r].transactionHash.value;
    }
  }

  /** An account that does not own the contract never lands a transaction, so nothing is ever confirmed. */
  ghost predicate NothingLanded(s: State) { forall k :: k in s.txs ==> !s.txs[k].outcome.Landed? }

  lemma StepKeepsNothingLanded(c: Config, s: State, step: Step)
    requires NothingLanded(s) && c.account != c.owner
    ensures NothingLanded(Next(c, s, step))
  {
    hide SubmissionValues, Encode, IsNextPending, Active;
  }

  lemma {:induction false} RunKeepsNothingLanded(c: Config, s: State, steps: seq<Step>)
    requires NothingLanded(s) && c.account != c.owner
    ensures NothingLanded(After(c, s, steps))
    decreases |steps|
  {
    hide Next, NothingLanded;
    if steps != [] {
      StepKeepsNothingLanded(c, s, steps[0]);
      RunKeepsNothingLanded(c, Next(c, s, steps[0]), steps[1..]);
    }
  }

  lemma {:induction false} RunSplits(c: Config, s: State, first: seq<Step>, then_: seq<Step>)
    ensures After(c, s, first + then_) == After(c, After(c, s, first), then_)
    decreases |first|
  {
    hide Next;
    if first == [] {
      assert first + then_ == then_;
    } else {
      assert (first + then_)[0] == first[0] && (first + then_)[1..] == first[1..] + then_;
      RunSplits(c, Next(c, s, first[0]), first[1..], then_);
    }
  }

  lemma OneStep(c: Config, s: State, step: Step)
    ensures After(c, s, [step]) == Next(c, s, step)
  {
    hide Next;
    assert [step][1..] == [];
    assert After(c, Next(c, s, step), []) == Next(c, s, step);
  }

  lemma TwoSteps(c: Config, s: State, a: Step, b: Step)
    ensures After(c, s, [a, b]) == Next(c, Next(c, s, a), b)
  {
    hide Next, After;
    OneStep(c, s, a);
    OneStep(c, Next(c, s, a), b);
    RunSplits(c, s, [a], [b]);
    assert [a] + [b] == [a, b];
  }

  /** No two workers ever work on one row, and every row being worked on is pending. */
  lemma LockExclusion(c: Config, steps: seq<Step>, v: nat, w: nat)
    requires var s := After(c, INIT, steps); v in s.workers && w in s.workers && v != w
    ensures var s := After(c, INIT, steps);
      s.workers[v].row != s.workers[w].row
      && s.workers[v].row in s.rows && s.rows[s.workers[v].row].status == Pending
  {
    hide After;
    ReachableInv(c, steps);
    assert WorkerOk(c, After(c, INIT, steps), v);
  }

  predicate KeepsRow(s: State, t: State, row: nat)
    requires row in s.rows
  {
    row in t.rows && t.rows[row] == s.rows[row]
  }

  /** A step leaves a row as it is when the row is confirmed or failed. */
  lemma StepKeepsTerminalRow(c: Config, s: State, step: Step, row: nat)
    requires Inv(c, s) && row in s.rows && s.rows[row].status != Pending
    ensures KeepsRow(s, Next(c, s, step), row)
  {
    hide SubmissionValues, Encode, IsNextPending, Active, Stored, TxOk, RowOk, ServiceRowOk, LandedOnce, LocksExclusive;
    if Enabled(c, s, step) {
      match step
      case RejectMalformed(w) => assert WorkerOk(c, s, w);
      case Confirm(w) => assert WorkerOk(c, s, w);
      case SubmitError(w) => assert WorkerOk(c, s, w);
      case _ =>
    }
  }

  /** A confirmed or failed row never changes again, in any field. */
  lemma {:induction false} TerminalForever(c: Config, s: State, steps: seq<Step>, row: nat)
    requires Inv(c, s) && row in s.rows && s.rows[row].status != Pending
    ensures row in After(c, s, steps).rows && After(c, s, steps).rows[row] == s.rows[row]
    decreases |steps|
  {
    hide Inv, Next;
    if steps != [] {
      StepKeepsTerminalRow(c, s, steps[0], row);
      StepKeepsInv(c, s, steps[0]);
      TerminalForever(c, Next(c, s, steps[0]), steps[1..], row);
    }
  }

  /** The row a send or a retry inserts: pending, for the message, with its record id and digest. */
  lemma InsertedRow(c: Config, s: State, message: nat, request: nat, row: nat, now: int)
    requires row !in s.rows
    ensures var sent := Next(c, s, SendMessage(message, row, now));
      message !in s.messages ==>
        && sent.messages == s.messages + {message}
        && sent.rows == s.rows[row := Anchor(
                                 Some(message), None, Some(c.recordIdOf(message)), c.digestOf(message),
                                 None, None, None, "sepolia", Pending, now, None)]
    ensures var retried := Next(c, s, RetryInsert(request, row, now));
      request in s.requests ==>
        var m := s.requests[request];
        && retried.requests == s.requests - {request}
        && retried.rows == s.rows[row := Anchor(
                                    Some(m), None, Some(c.recordIdOf(m)), c.digestOf(m),
                                    None, None, None, "sepolia", Pending, now, None)]
  {
  }

  // ---- verification answers ----

  datatype VerifyRequest = VerifyRequest(
    digest: string, chain: string, recordId: Option<string>, merkleRoot: Option<string>, transactionHash: Option<TxKey>)

  /** The rows find_matching_anchor selects from. */
  predicate Matches(a: Anchor, q: VerifyRequest) {
    && a.digest == q.digest && a.chain == q.chain && a.status == Confirmed
    && (q.recordId.Some? ==> a.recordId == q.recordId)
    && (q.merkleRoot.Some? ==> a.merkleRoot == q.merkleRoot)
    && (q.transactionHash.Some? ==> a.transactionHash == q.transactionHash)
  }

  /** verify_anchor_metadata answers valid with this row. */
  predicate AnswersValid(s: State, q: VerifyRequest, row: nat) { row in s.rows && Matches(s.rows[row], q) }

  /** A valid answer now means that, now and after any further steps, the row's record holds the row's hash on
      chain; for a row inserted for a message that hash is the digest asked about, under the message's record. */
  lemma ValidAnswerIsOnChain(c: Config, past: seq<Step>, future: seq<Step>, q: VerifyRequest, row: nat)
    requires AnswersValid(After(c, INIT, past), q, row)
    ensures var s := After(c, INIT, past);
      var t := After(c, s, future);
      var a := s.rows[row];
      a.recordId.Some? && a.merkleRoot.Some? && Encode(a.recordId.value).Some?
      && HasRecord(t.chain, Encode(a.recordId.value).value)
      && Some(t.chain[Encode(a.recordId.value).value].contentHash) == Encode(a.merkleRoot.value)
      && (row in s.serviceRows ==>
            var m := s.serviceRows[row];
            q.digest == c.digestOf(m) && HasRecord(t.chain, c.recordIdOf(m))
            && t.chain[c.recordIdOf(m)].contentHash == c.digestOf(m))
  {
    hide After, Encode;
    var s := After(c, INIT, past);
    ReachableInv(c, past);
    RunKeepsInv(c, s, future);
    TerminalForever(c, s, future, row);
    var t := After(c, s, future);
    assert RowOk(c, t, row);
    assert TxOk(t, t.rows[row].transactionHash.value);
    if row in s.serviceRows {
      assert ServiceRowOk(c, s, row);
      EncodeNode(c.recordIdOf(s.serviceRows[row]));
      EncodeNode(c.digestOf(s.serviceRows[row]));
    }
  }

  /** Exactly the requests a message's confirmed row answers, from its confirmation on: those that name its digest and
      chain and, as far as they name them, its record id, hash and transaction. */
  lemma ConfirmedAnswersExactly(c: Config, past: seq<Step>, future: seq<Step>, q: VerifyRequest, row: nat)
    requires var s := After(c, INIT, past); row in s.serviceRows && row in s.rows && s.rows[row].status == Confirmed
    ensures var s := After(c, INIT, past);
      var m := s.serviceRows[row];
      AnswersValid(After(c, s, future), q, row)
      <==> q.digest == c.digestOf(m) && q.chain == "sepolia"
           && (q.recordId.None? || q.recordId.value == c.recordIdOf(m))
           && (q.merkleRoot.None? || q.merkleRoot.value == c.digestOf(m))
           && (q.transactionHash.None? || q.transactionHash == s.rows[row].transactionHash)
  {
    hide After, Encode;
    var s := After(c, INIT, past);
    ReachableInv(c, past);
    TerminalForever(c, s, future, row);
    assert ServiceRowOk(c, s, row);
  }

  lemma EncodeNode(n: Node)
    ensures Encode(n) == Some(n)
  {
  }

  // ---- orphaned records ----

  predicate Waits(s: State, w: nat, id: Node) {
    w in s.workers && s.workers[w].Sent? && s.workers[w].key.recordId == id
    && s.workers[w].key in s.txs && s.txs[s.workers[w].key].outcome.Landed?
  }

  /** A transaction of the pipeline wrote this record. */
  ghost predicate WroteRecord(s: State, id: Node) {
    exists k :: k in s.txs && k.recordId == id && s.txs[k].outcome.Landed?
  }

  /** The record exists on chain, no row is confirmed under it, and no worker can learn of the transaction that
      wrote it: none waits for it and none can send it again, or there is no such transaction. */
  ghost predicate Orphaned(c: Config, s: State, id: Node) {
    HasRecord(s.chain, id) && Unconfirmed(s, id)
    && if c.nodeRefusesKnown then forall w :: !Waits(s, w, id) else !WroteRecord(s, id)
  }

  ghost predicate Unconfirmed(s: State, id: Node) { forall r :: !ConfirmedFor(s, r, id) }

  lemma ChainStepGrows(c: Config, s: State, step: Step)
    ensures ChainGrows(s.chain, Next(c, s, step).chain)
  {
    hide IsNextPending, Active, SubmissionValues, Encode, Stored;
    if Enabled(c, s, step) {
      match step
      case Mine(key, timestamp) =>
        var call := StoreCall(c.account, key.recordId, key.contentHash, timestamp);
        if Stored(s.chain, c.owner, call).Ok? {
          StoredGrows(s.chain, c.owner, call);
        }
      case OtherStore(call) =>
        if Stored(s.chain, c.owner, call).Ok? {
          StoredGrows(s.chain, c.owner, call);
        }
      case _ =>
    }
  }

  /** A transaction cannot land once its record exists. */
  lemma NothingLands(c: Config, s: State, step: Step, key: TxKey)
    requires HasRecord(s.chain, key.recordId)
    requires key in Next(c, s, step).txs && Next(c, s, step).txs[key].outcome.Landed?
    ensures key in s.txs && s.txs[key].outcome.Landed?
  {
    hide IsNextPending, Active, SubmissionValues, Encode;
  }

  lemma StepKeepsUnwaited(c: Config, s: State, step: Step, id: Node, w: nat)
    requires HasRecord(s.chain, id) && c.nodeRefusesKnown && Waits(Next(c, s, step), w, id)
    ensures Waits(s, w, id)
  {
    var t := Next(c, s, step);
    NothingLands(c, s, step, t.workers[w].key);
    hide IsNextPending, Active, SubmissionValues, Encode, Stored;
  }

  lemma StepKeepsUnconfirmed(c: Config, s: State, step: Step, id: Node)
    requires Inv(c, s) && Unconfirmed(s, id) && forall w :: !Waits(s, w, id)
    ensures Unconfirmed(Next(c, s, step), id)
  {
    hide IsNextPending, Active, SubmissionValues, Encode, Stored, TxOk, RowOk, ServiceRowOk, LandedOnce, LocksExclusive;
    if Enabled(c, s, step) && step.Confirm? {
      assert WorkerOk(c, s, step.worker);
      ConfirmsItsRecord(c, s, step.worker);
      assert !Waits(s, step.worker, id);
    }
    forall r ensures !ConfirmedFor(Next(c, s, step), r, id) {
      assert !ConfirmedFor(s, r, id);
    }
  }

  lemma StepKeepsOrphaned(c: Config, s: State, step: Step, id: Node)
    requires Inv(c, s) && Orphaned(c, s, id)
    ensures Orphaned(c, Next(c, s, step), id)
  {
    hide Inv, Next, Unconfirmed;
    ChainStepGrows(c, s, step);
    var t := Next(c, s, step);
    if c.nodeRefusesKnown {
      forall w ensures !Waits(t, w, id) {
        if Waits(t, w, id) {
          StepKeepsUnwaited(c, s, step, id, w);
        }
      }
    } else {
      forall k | k in t.txs && k.recordId == id ensures !t.txs[k].outcome.Landed? {
        if t.txs[k].outcome.Landed? {
          NothingLands(c, s, step, k);
        }
      }
    }
    StepKeepsUnconfirmed(c, s, step, id);
  }

  lemma ConfirmsItsRecord(c: Config, s: State, worker: nat)
    requires worker in s.workers && WorkerOk(c, s, worker) && s.workers[worker].Sent?
    ensures var Sent(row, key) := s.workers[worker];
      s.rows[row].recordId.Some? && Encode(s.rows[row].recordId.value) == Some(key.recordId)
  {
    hide Encode;
  }

  /** Resubmission only reverts: no row of an orphaned record is ever confirmed. */
  lemma {:induction false} OrphanNeverConfirms(c: Config, s: State, steps: seq<Step>, id: Node)
    requires Inv(c, s) && Orphaned(c, s, id)
    ensures Orphaned(c, After(c, s, steps), id)
    decreases |steps|
  {
    hide Inv, Next, Orphaned;
    if steps != [] {
      StepKeepsInv(c, s, steps[0]);
      StepKeepsOrphaned(c, s, steps[0], id);
      OrphanNeverConfirms(c, Next(c, s, steps[0]), steps[1..], id);
    }
  }

  /** A worker waiting for a landed transaction can confirm its row. */
  lemma WaitingConfirms(c: Config, s: State, w: nat, id: Node)
    requires Inv(c, s) && Waits(s, w, id)
    ensures Enabled(c, s, Confirm(w)) && ConfirmedFor(Next(c, s, Confirm(w)), s.workers[w].row, id)
  {
    hide Encode, TxOk, RowOk, ServiceRowOk, LandedOnce, LocksExclusive;
    assert WorkerOk(c, s, w);
    ConfirmsItsRecord(c, s, w);
  }

  /** An existing record with no confirmed row yet can still get one exactly when some worker waits for the
      transaction that wrote it. */
  lemma CanStillConfirm(c: Config, s: State, id: Node)
    requires Inv(c, s) && c.nodeRefusesKnown && HasRecord(s.chain, id) && Unconfirmed(s, id)
    ensures (exists steps :: !Unconfirmed(After(c, s, steps), id)) <==> (exists w :: Waits(s, w, id))
  {
    hide Inv, Next, After;
    if w :| Waits(s, w, id) {
      WaitingConfirms(c, s, w, id);
      OneStep(c, s, Confirm(w));
      assert ConfirmedFor(After(c, s, [Confirm(w)]), s.workers[w].row, id);
    } else {
      forall steps ensures Unconfirmed(After(c, s, steps), id) {
        OrphanNeverConfirms(c, s, steps, id);
      }
    }
  }

  /** A worker that crashes after its transaction landed and before its commit leaves an orphan. */
  lemma CrashAfterLandingOrphans(c: Config, s: State, w: nat, id: Node)
    requires Inv(c, s) && c.nodeRefusesKnown && Waits(s, w, id)
    ensures Orphaned(c, Next(c, s, Crash(w)), id)
  {
    hide SubmissionValues, Encode, Stored, ServiceRowOk;
    var key := s.workers[w].key;
    assert WorkerOk(c, s, w) && TxOk(s, key);
    forall r ensures !ConfirmedFor(Next(c, s, Crash(w)), r, id) {
      if r in s.rows && s.rows[r].status == Confirmed {
        assert RowOk(c, s, r);
        assert s.rows[r].transactionHash.value != key;
      }
    }
    forall v ensures !Waits(Next(c, s, Crash(w)), v, id) {
      if v in s.workers && v != w {
        assert WorkerOk(c, s, v);
      }
    }
  }

  // ---- one worker, as code ----

  /** What submit_hash meets: an error before anything is sent, or a transaction mined at some time. */
  datatype Submission = RaisesEarly | Mined(nonce: nat, gasPrice: nat, timestamp: nat)

  /** There is nothing to submit: no record id, or neither a Merkle root nor a digest. */
  predicate Malformed(a: Anchor) {
    a.recordId == None || a.recordId == Some("")
    || ((a.merkleRoot == None || a.merkleRoot == Some("")) && a.digest == "")
  }

  /** The hash a row asks to be written: its Merkle root, or without one its digest. */
  function HashToWrite(a: Anchor): string {
    if a.merkleRoot.Some? && a.merkleRoot.value != "" then a.merkleRoot.value else a.digest
  }

  /** The transaction that would write the row's hash under its record id; None when they are not 32-byte values. */
  function KeyFor(a: Anchor, nonce: nat, gasPrice: nat): Option<TxKey> {
    if !Malformed(a) && IsHex32(a.recordId.value) && IsHex32(HashToWrite(a)) then
      Some(TxKey(nonce, gasPrice, LowerNode(a.recordId.value), LowerNode(HashToWrite(a))))
    else None
  }

  /** When the transaction lands: at the time it already did if the node takes it again, at the time of its block if the
      account may write and there is no record yet. None when it does not land. */
  function LandsAt(c: Config, s: State, a: Anchor, submission: Submission): Option<nat> {
    if submission.RaisesEarly? then None
    else
      match KeyFor(a, submission.nonce, submission.gasPrice)
      case None => None
      case Some(key) =>
        if key in s.txs && c.nodeRefusesKnown then None
        else if key in s.txs && s.txs[key].outcome.Landed? then Some(s.txs[key].outcome.timestamp)
        else if key in s.txs && s.txs[key].outcome.Refused? then None
        else if submission.timestamp > 0 && c.account == c.owner && !HasRecord(s.chain, key.recordId) then
          Some(submission.timestamp)
        else None
  }

  /** What processing one row with a submission leaves in the table, and answers. */
  ghost predicate Processed(c: Config, s: State, t: State, row: nat, submission: Submission, r: Result<bool, string>) {
    row in s.rows
    && var a, at := s.rows[row], LandsAt(c, s, s.rows[row], submission);
    if Malformed(a) then r == Ok(true) && t.rows == s.rows[row := a.(status := Failed)]
    else if at.Some? then
      && r == Ok(true) && row in t.rows && t.rows == s.rows[row := t.rows[row]]
      && t.rows[row] == Anchor(a.messageId, a.batchId, a.recordId, a.digest, Some(HashToWrite(a)),
                               KeyFor(a, submission.nonce, submission.gasPrice), Some(c.contractAddress), a.chain,
                               Confirmed, a.createdAt, at)
    else if c.markFailedOnError then r == Ok(true) && t.rows == s.rows[row := a.(status := Failed)]
    else r.Err? && t.rows == s.rows
  }

  lemma MalformedExactly(a: Anchor)
    ensures SubmissionValues(a).Err? <==> Malformed(a)
    ensures !Malformed(a) ==> SubmissionValues(a) == Ok((a.recordId.value, HashToWrite(a)))
  {
  }

  /** A well-formed row whose values are 32 bytes lands at once when the account owns the contract, there is no record
      under the id, and the transaction is new. */
  lemma NewSubmissionLands(c: Config, s: State, a: Anchor, nonce: nat, gasPrice: nat, timestamp: nat)
    requires !Malformed(a) && IsHex32(a.recordId.value) && IsHex32(HashToWrite(a))
    requires c.account == c.owner && timestamp > 0
    requires KeyFor(a, nonce, gasPrice).value !in s.txs && !HasRecord(s.chain, LowerNode(a.recordId.value))
    ensures LandsAt(c, s, a, Mined(nonce, gasPrice, timestamp)) == Some(timestamp)
  {
  }

  function PendingRows(s: State): set<nat> { set r | r in s.rows && s.rows[r].status == Pending }

  /** Row row got its final status; every other row is as before. */
  predicate Finished(s: State, t: State, row: nat) {
    && t.rows.Keys == s.rows.Keys
    && row in t.rows && t.rows[row].status != Pending
    && forall other :: other in s.rows && other in t.rows && other != row ==> t.rows[other] == s.rows[other]
  }

  lemma ProcessedFromLock(c: Config, s: State, workers: map<nat, Phase>, t: State, row: nat, submission: Submission,
      r: Result<bool, string>)
    requires Processed(c, s.(workers := workers), t, row, submission, r)
    ensures Processed(c, s, t, row, submission, r) && r != Ok(false)
  {
    hide Malformed, HashToWrite, KeyFor;
  }

  lemma ProcessedHandles(c: Config, s: State, t: State, row: nat, submission: Submission, r: Result<bool, string>)
    requires IsNextPending(s, row) && Processed(c, s, t, row, submission, r) && r.Ok?
    ensures Handled(s, t, row)
  {
    hide Malformed, HashToWrite, KeyFor, LandsAt;
  }

  predicate Handled(s: State, t: State, row: nat) { IsNextPending(s, row) && Finished(s, t, row) }

  lemma HandledLeavesPending(s: State, t: State, row: nat)
    requires Handled(s, t, row)
    ensures |PendingRows(s)| == |PendingRows(t)| + 1
  {
    hide NotLater;
    assert PendingRows(s) == PendingRows(t) + {row};
  }

  lemma {:induction false} AfterOneMore(c: Config, s: State, steps: seq<Step>, step: Step)
    ensures After(c, s, steps + [step]) == Next(c, After(c, s, steps), step)
    decreases |steps|
  {
    hide Next;
    if steps == [] {
      assert After(c, Next(c, s, step), []) == Next(c, s, step);
    } else {
      assert (steps + [step])[1..] == steps[1..] + [step];
      AfterOneMore(c, Next(c, s, steps[0]), steps[1..], step);
    }
  }

  lemma BroadcastEffect(c: Config, s: State, w: nat, nonce: nat, gasPrice: nat)
    requires w in s.workers && s.workers[w].Locked? && s.workers[w].row in s.rows
    ensures var row := s.workers[w].row;
      Next(c, s, Broadcast(w, nonce, gasPrice))
      == match KeyFor(s.rows[row], nonce, gasPrice)
         case None => s
         case Some(key) =>
           if key in s.txs && c.nodeRefusesKnown then s
           else s.(txs := if key in s.txs then s.txs else s.txs[key := Tx(row, InMempool)],
                   workers := s.workers[w := Sent(row, key)])
  {
    MalformedExactly(s.rows[s.workers[w].row]);
    hide SubmissionValues, Malformed, HashToWrite;
  }

  lemma MineEffect(c: Config, s: State, key: TxKey, timestamp: nat)
    requires key in s.txs
    ensures var t := Next(c, s, Mine(key, timestamp));
      t.rows == s.rows && t.workers == s.workers
      && t.txs == s.txs[key := Tx(s.txs[key].row,
                                  if s.txs[key].outcome != InMempool || timestamp == 0 then s.txs[key].outcome
                                  else if c.account == c.owner && !HasRecord(s.chain, key.recordId) then
                                    Landed(timestamp)
                                  else Refused)]
  {
    assert s.txs == s.txs[key := s.txs[key]];
  }

  /** What sending and mining a row's transaction leave: nothing sent, or its key waited for, landed exactly when
      LandsAt is a time, and then at that time. */
  lemma SubmissionEffect(c: Config, s: State, w: nat, row: nat, submission: Submission)
    requires w in s.workers && s.workers[w] == Locked(row) && row in s.rows && submission.Mined?
    ensures var t := Next(c, s, Broadcast(w, submission.nonce, submission.gasPrice));
      var at := LandsAt(c, s, s.rows[row], submission);
      w in t.workers && t.rows == s.rows && t.workers == s.workers[w := t.workers[w]]
      && match t.workers[w]
         case Locked(r) => r == row && t == s && at == None
         case Sent(r, key) =>
           && r == row && Some(key) == KeyFor(s.rows[row], submission.nonce, submission.gasPrice)
           && var u := Next(c, t, Mine(key, submission.timestamp));
           && u.rows == s.rows && u.workers == t.workers && u.txs.Keys == s.txs.Keys + {key} && key in u.txs
           && (if u.txs[key].outcome.Landed? then at == Some(u.txs[key].outcome.timestamp) else at == None)
  {
    BroadcastEffect(c, s, w, submission.nonce, submission.gasPrice);
    hide Next, KeyFor, HasRecord;
    var t := Next(c, s, Broadcast(w, submission.nonce, submission.gasPrice));
    if t.workers[w].Sent? {
      MineEffect(c, t, t.workers[w].key, submission.timestamp);
      SameChain(c, s, Broadcast(w, submission.nonce, submission.gasPrice));
    }
  }

  lemma SameChain(c: Config, s: State, step: Step)
    requires step.Broadcast?
    ensures Next(c, s, step).chain == s.chain
  {
    hide SubmissionValues, Encode;
  }

  lemma RejectEffect(c: Config, s: State, w: nat)
    requires w in s.workers && s.workers[w].Locked? && s.workers[w].row in s.rows
    requires SubmissionValues(s.rows[s.workers[w].row]).Err?
    ensures var t, row := Next(c, s, RejectMalformed(w)), s.workers[w].row;
      t.rows == s.rows[row := s.rows[row].(status := Failed)] && t.workers == s.workers - {w}
  {
    hide SubmissionValues;
  }

  lemma ConfirmEffect(c: Config, s: State, w: nat)
    requires w in s.workers && s.workers[w].Sent? && s.workers[w].row in s.rows
    requires s.workers[w].key in s.txs && s.txs[s.workers[w].key].outcome.Landed?
    requires !Malformed(s.rows[s.workers[w].row])
    ensures var t, Sent(row, key) := Next(c, s, Confirm(w)), s.workers[w];
      var a := s.rows[row];
      t.workers == s.workers - {w}
      && t.rows == s.rows[row := Anchor(a.messageId, a.batchId, a.recordId, a.digest, Some(HashToWrite(a)), Some(key),
                                        Some(c.contractAddress), a.chain, Confirmed, a.createdAt,
                                        Some(s.txs[key].outcome.timestamp))]
  {
    MalformedExactly(s.rows[s.workers[w].row]);
    hide SubmissionValues, Malformed, HashToWrite;
  }

  lemma ErrorEffect(c: Config, s: State, w: nat)
    requires w in s.workers && s.workers[w].row in s.rows && SubmissionValues(s.rows[s.workers[w].row]).Ok?
    ensures var t, row := Next(c, s, SubmitError(w)), s.workers[w].row;
      t.workers == s.workers - {w}
      && t.rows == if c.markFailedOnError then s.rows[row := s.rows[row].(status := Failed)] else s.rows
  {
    hide SubmissionValues;
  }

  class Worker {
    const c: Config
    const id: nat
    var s: State
    ghost var run: seq<Step>

    /** The database and the chain are what some run of the protocol made them, and this worker is idle. */
    ghost predicate Valid()
      reads this
    {
      s == After(c, INIT, run) && id !in s.workers
    }

    constructor (c: Config, id: nat)
      ensures Valid() && this.c == c && this.id == id && s == INIT
    {
      this.c, this.id, s, run := c, id, INIT, [];
    }

    method Take(step: Step)
      requires s == After(c, INIT, run)
      modifies this
      ensures s == Next(c, old(s), step) && s == After(c, INIT, run)
    {
      hide Next;
      AfterOneMore(c, INIT, run, step);
      s := Next(c, s, step);
      run := run + [step];
    }

    /** The oldest pending row that no worker holds, by creation time and then by id. */
    method GetNextPendingForUpdate() returns (row: Option<nat>)
      ensures row.None? <==> forall r :: r in s.rows ==> !Selectable(s, r)
      ensures row.Some? ==> IsNextPending(s, row.value)
      ensures row.Some? ==>
                && row.value in s.rows && s.rows[row.value].status == Pending
                && (forall w :: w in s.workers ==> s.workers[w].row != row.value)
                && forall r :: (r in s.rows && s.rows[r].status == Pending
                                && forall w :: w in s.workers ==> s.workers[w].row != r) ==>
                                 s.rows[row.value].createdAt < s.rows[r].createdAt
                                 || (s.rows[row.value].createdAt == s.rows[r].createdAt && row.value <= r)
    {
      row := None;
      var todo := s.rows.Keys;
      while todo != {}
        invariant todo <= s.rows.Keys
        invariant row.Some? ==> Selectable(s, row.value)
        invariant forall r :: r in s.rows.Keys - todo && Selectable(s, r) ==> row.Some? && NotLater(s, row.value, r)
        decreases todo
      {
        var r :| r in todo;
        todo := todo - {r};
        if Selectable(s, r) && (row.None? || NotLater(s, r, row.value)) {
          row := Some(r);
        }
      }
    }

    /** submit_hash: whether the transaction was mined and did not revert, and then at which time. */
    method SubmitHash(row: nat, submission: Submission) returns (landed: bool)
      requires s == After(c, INIT, run) && id in s.workers && s.workers[id] == Locked(row) && row in s.rows
      modifies this
      ensures s == After(c, INIT, run) && s.rows == old(s).rows
      ensures id in s.workers && s.workers == old(s).workers[id := s.workers[id]] && s.workers[id].row == row
      ensures landed <==> LandsAt(c, old(s), old(s).rows[row], submission).Some?
      ensures landed ==>
                && s.workers[id].Sent? && s.workers[id].key in s.txs
                && Some(s.workers[id].key) == KeyFor(old(s).rows[row], submission.nonce, submission.gasPrice)
                && s.txs[s.workers[id].key].outcome.Landed?
                && Some(s.txs[s.workers[id].key].outcome.timestamp)
                   == LandsAt(c, old(s), old(s).rows[row], submission)
      ensures s.txs.Keys == old(s).txs.Keys + if s.workers[id].Sent? then {s.workers[id].key} else {}
    {
      if submission.RaisesEarly? {
        return false;
      }
      SubmissionEffect(c, s, id, row, submission);
      hide After, Next, KeyFor, LandsAt;
      Take(Broadcast(id, submission.nonce, submission.gasPrice));
      if s.workers[id].Locked? {
        return false;
      }
      var key := s.workers[id].key;
      Take(Mine(key, submission.timestamp));
      landed := key in s.txs && s.txs[key].outcome.Landed?;
    }

    /** From the locked row to the end of the database transaction. */
    method SubmitAndCommit(row: nat, submission: Submission) returns (r: Result<bool, string>)
      requires s == After(c, INIT, run) && id in s.workers && s.workers[id] == Locked(row) && row in s.rows
      modifies this
      ensures s == After(c, INIT, run) && s.workers == old(s).workers - {id}
      ensures Processed(c, old(s), s, row, submission, r)
    {
      MalformedExactly(s.rows[row]);
      hide After, Stored, Encode, SubmissionValues, IsNextPending, Active, Malformed, HashToWrite, KeyFor, LandsAt;
      if SubmissionValues(s.rows[row]).Err? {
        RejectEffect(c, s, id);
        Take(RejectMalformed(id));
        return Ok(true);
      }
      var landed := SubmitHash(row, submission);
      if landed {
        ConfirmEffect(c, s, id);
        Take(Confirm(id));
        return Ok(true);
      }
      ErrorEffect(c, s, id);
      Take(SubmitError(id));
      r := if c.markFailedOnError then Ok(true) else Err("submit_hash failed");
    }

    /** Ok(false): there was no unlocked pending row. Otherwise the oldest one was processed; an error changes none. */
    method ProcessNextPendingAnchor(submission: Submission) returns (r: Result<bool, string>)
      requires Valid()
      modifies this
      ensures Valid() && s.workers == old(s).workers
      ensures r == Ok(false) <==> forall row :: row in old(s).rows ==> !Selectable(old(s), row)
      ensures r == Ok(false) ==> s == old(s)
      ensures r != Ok(false) ==>
                exists row :: IsNextPending(old(s), row) && Processed(c, old(s), s, row, submission, r)
    {
      hide After, Stored, Active, NotLater, Processed;
      var next := GetNextPendingForUpdate();
      if next.None? {
        return Ok(false);
      }
      Take(Lock(id, next.value));
      assert s == old(s).(workers := old(s).workers[id := Locked(next.value)]);
      ghost var locked := s;
      r := SubmitAndCommit(next.value, submission);
      ProcessedFromLock(c, old(s), locked.workers, s, next.value, submission, r);
    }

    /** How many rows it handled; each of them left the pending rows, and fewer than the batch size means no
        unlocked pending row is left. */
    method ProcessPendingBatch(batchSize: nat, submissions: seq<Submission>) returns (r: Result<nat, string>)
      requires Valid() && |submissions| == batchSize
      modifies this
      ensures Valid()
      ensures r.Ok? ==> r.value <= batchSize && |PendingRows(s)| + r.value == |PendingRows(old(s))|
      ensures r.Ok? && r.value < batchSize ==> forall row :: row in s.rows ==> !Selectable(s, row)
    {
      hide After, IsNextPending, Handled, PendingRows, Processed;
      var processed := 0;
      for i := 0 to batchSize
        invariant Valid() && processed == i
        invariant |PendingRows(s)| + processed == |PendingRows(old(s))|
      {
        ghost var before := s;
        var handled := ProcessNextPendingAnchor(submissions[i]);
        if handled.Err? {
          return Err(handled.error);
        }
        if !handled.value {
          return Ok(processed);
        }
        ghost var row :| IsNextPending(before, row) && Processed(c, before, s, row, submissions[i], handled);
        ProcessedHandles(c, before, s, row, submissions[i], handled);
        HandledLeavesPending(before, s, row);
        processed := processed + 1;
      }
      r := Ok(processed);
    }
  }
}
