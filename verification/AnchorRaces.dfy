/** Two races of the anchor pipeline and the exact settings that rule them out: workers that broadcast one
    transaction for two rows, and retries that both look for an active anchor before either inserts one. */
module AnchorRaces {
  import opened AnchorProtocol
  import opened FidelityContract
  import opened Merkle
  import opened Wrappers

  // ---- one transaction for two rows ----

  /** Two pending rows for one record and hash, the first two in line, with nothing sent or stored for it yet. */
  ghost predicate TwinsInLine(c: Config, s: State, q: nat, r: nat, id: Node, hash: Node) {
    && q != r && q in s.rows && r in s.rows && s.workers == map[] && s.txs == map[] && id !in s.chain
    && SubmissionValues(s.rows[q]) == Ok((id, hash)) && SubmissionValues(s.rows[r]) == Ok((id, hash))
    && IsNextPending(s, q) && IsNextPending(s.(workers := map[0 := Locked(q)]), r)
  }

  function TwinKey(id: Node, hash: Node): TxKey { TxKey(0, 0, id, hash) }

  /** Both workers wait for the one transaction, which has this outcome. */
  function TwinsWaiting(s: State, q: nat, r: nat, key: TxKey, outcome: TxOutcome): State {
    s.(workers := map[0 := Sent(q, key), 1 := Sent(r, key)], txs := map[key := Tx(q, outcome)])
  }

  /** Both workers lock a row and broadcast before the transaction is mined; both then confirm. */
  function TwinSteps(q: nat, r: nat, id: Node, hash: Node): seq<Step> {
    [Lock(0, q), Lock(1, r)] + [Broadcast(0, 0, 0), Broadcast(1, 0, 0)] + [Mine(TwinKey(id, hash), 1), Confirm(0)]
    + [Confirm(1)]
  }

  lemma TwinsLocked(c: Config, s: State, q: nat, r: nat, id: Node, hash: Node)
    requires TwinsInLine(c, s, q, r, id, hash)
    ensures After(c, s, [Lock(0, q), Lock(1, r)]) == s.(workers := map[0 := Locked(q), 1 := Locked(r)])
  {
    hide SubmissionValues, IsNextPending, Active, Stored, After;
    TwoSteps(c, s, Lock(0, q), Lock(1, r));
    assert Next(c, s, Lock(0, q)) == s.(workers := map[0 := Locked(q)]);
  }

  lemma TwinsSent(c: Config, s: State, q: nat, r: nat, id: Node, hash: Node)
    requires !c.nodeRefusesKnown && TwinsInLine(c, s, q, r, id, hash)
    ensures After(c, s.(workers := map[0 := Locked(q), 1 := Locked(r)]), [Broadcast(0, 0, 0), Broadcast(1, 0, 0)])
      == TwinsWaiting(s, q, r, TwinKey(id, hash), InMempool)
  {
    EncodeNode(id);
    EncodeNode(hash);
    hide SubmissionValues, Encode, IsNextPending, Active, Stored, After;
    var locked := s.(workers := map[0 := Locked(q), 1 := Locked(r)]);
    var key := TwinKey(id, hash);
    TwoSteps(c, locked, Broadcast(0, 0, 0), Broadcast(1, 0, 0));
    assert Next(c, locked, Broadcast(0, 0, 0))
        == s.(workers := map[0 := Sent(q, key), 1 := Locked(r)], txs := map[key := Tx(q, InMempool)]);
  }

  lemma TwinMined(c: Config, s: State, q: nat, r: nat, key: TxKey)
    requires c.account == c.owner && key.recordId !in s.chain
    ensures var t := Next(c, TwinsWaiting(s, q, r, key, InMempool), Mine(key, 1));
      t == TwinsWaiting(s, q, r, key, Landed(1)).(chain := t.chain)
  {
    hide SubmissionValues, Encode, IsNextPending, Active;
  }

  lemma ValuesRecord(a: Anchor, id: Node, hash: Node)
    requires SubmissionValues(a) == Ok((id, hash))
    ensures a.recordId.Some? && a.recordId.value == id && Encode(id) == Some(id)
  {
    EncodeNode(id);
  }

  lemma TwinsConfirmed(c: Config, s: State, q: nat, r: nat, id: Node, hash: Node)
    requires c.account == c.owner && q != r && q in s.rows && r in s.rows && id !in s.chain
    requires SubmissionValues(s.rows[q]) == Ok((id, hash)) && SubmissionValues(s.rows[r]) == Ok((id, hash))
    ensures var waiting := TwinsWaiting(s, q, r, TwinKey(id, hash), InMempool);
      var t := Next(c, Next(c, Next(c, waiting, Mine(TwinKey(id, hash), 1)), Confirm(0)), Confirm(1));
      ConfirmedFor(t, q, id) && ConfirmedFor(t, r, id)
  {
    var key := TwinKey(id, hash);
    TwinMined(c, s, q, r, key);
    ValuesRecord(s.rows[q], id, hash);
    ValuesRecord(s.rows[r], id, hash);
    hide SubmissionValues, Encode, Next;
    var s1 := Next(c, TwinsWaiting(s, q, r, key, InMempool), Mine(key, 1));
    WaiterConfirms(c, s1, 0, q, key, 1);
    var s2 := Next(c, s1, Confirm(0));
    WaiterConfirms(c, s2, 1, r, key, 1);
  }

  /** Confirming leaves the other workers, rows and transactions as they are. */
  lemma WaiterConfirms(c: Config, s: State, w: nat, row: nat, key: TxKey, at: nat)
    requires w in s.workers && s.workers[w] == Sent(row, key) && row in s.rows && SubmissionValues(s.rows[row]).Ok?
    requires key in s.txs && s.txs[key].outcome == Landed(at)
    ensures var t := Next(c, s, Confirm(w));
      t.workers == s.workers - {w} && t.txs == s.txs && row in t.rows && t.rows == s.rows[row := t.rows[row]]
      && t.rows[row].status == Confirmed && t.rows[row].recordId == s.rows[row].recordId
  {
    hide SubmissionValues;
  }

  /** Without the node's refusal, two workers that send one transaction for two rows of a record both confirm. */
  lemma TwinsBothConfirm(c: Config, s: State, q: nat, r: nat, id: Node, hash: Node)
    requires !c.nodeRefusesKnown && c.account == c.owner && TwinsInLine(c, s, q, r, id, hash)
    ensures !ConfirmedOnce(After(c, s, TwinSteps(q, r, id, hash)))
  {
    TwinsLocked(c, s, q, r, id, hash);
    TwinsSent(c, s, q, r, id, hash);
    TwinsConfirmed(c, s, q, r, id, hash);
    hide After, Next, TwinsWaiting, TwinsInLine;
    var locks := [Lock(0, q), Lock(1, r)];
    var sends := [Broadcast(0, 0, 0), Broadcast(1, 0, 0)];
    var mined := [Mine(TwinKey(id, hash), 1), Confirm(0)];
    var waiting := After(c, After(c, s, locks), sends);
    TwoSteps(c, waiting, Mine(TwinKey(id, hash), 1), Confirm(0));
    OneStep(c, After(c, waiting, mined), Confirm(1));
    RunSplits(c, s, locks, sends);
    RunSplits(c, s, locks + sends, mined);
    RunSplits(c, s, locks + sends + mined, [Confirm(1)]);
    var t := After(c, s, TwinSteps(q, r, id, hash));
    assert ConfirmedFor(t, q, id) && ConfirmedFor(t, r, id);
  }

  lemma NothingConfirmed(c: Config, s: State)
    requires Inv(c, s) && NothingLanded(s)
    ensures ConfirmedOnce(s)
  {
    hide Encode, WorkerOk, TxOk, ServiceRowOk, LocksExclusive;
    forall r | r in s.rows ensures s.rows[r].status != Confirmed {
      assert RowOk(c, s, r);
    }
  }

  /** What holds in every run, whatever rows there are. */
  lemma ConfirmsOnce(c: Config, steps: seq<Step>)
    requires c.nodeRefusesKnown || c.account != c.owner
    ensures ConfirmedOnce(After(c, INIT, steps))
  {
    hide After, Inv, ConfirmedOnce;
    ReachableInv(c, steps);
    if c.nodeRefusesKnown {
      InvConfirmsOnce(c, After(c, INIT, steps));
    } else {
      RunKeepsNothingLanded(c, INIT, steps);
      NothingConfirmed(c, After(c, INIT, steps));
    }
  }

  // ---- racing retries ----

  /** row was inserted for this message and has not failed. */
  predicate ServiceActive(s: State, row: nat, message: nat) {
    row in s.serviceRows && s.serviceRows[row] == message && row in s.rows && s.rows[row].status != Failed
  }

  /** The message has at most one active anchor of its own. */
  ghost predicate OneActive(s: State, message: nat) {
    forall q, r :: ServiceActive(s, q, message) && ServiceActive(s, r, message) ==> q == r
  }

  /** Every message has exactly one anchor of its own, still active, and no retry is under way. */
  ghost predicate NoRetries(s: State) {
    && s.requests == map[]
    && (forall m :: m in s.messages ==> exists r :: ServiceActive(s, r, m))
    && (forall r :: r in s.serviceRows ==> s.serviceRows[r] in s.messages && ServiceActive(s, r, s.serviceRows[r]))
    && (forall q, r :: q in s.serviceRows && r in s.serviceRows && s.serviceRows[q] == s.serviceRows[r] ==> q == r)
  }

  lemma ServiceRowsWellFormed(c: Config, s: State, row: nat)
    requires row in s.serviceRows && ServiceRowOk(c, s, row)
    ensures SubmissionValues(s.rows[row]).Ok?
  {
  }

  lemma ServiceActiveIsActive(c: Config, s: State, row: nat, message: nat)
    requires ServiceActive(s, row, message) && ServiceRowOk(c, s, row)
    ensures Active(s, message)
  {
  }

  /** Unless failures are marked, no step makes a service row inactive. */
  lemma StepKeepsServiceActive(c: Config, s: State, step: Step, row: nat, message: nat)
    requires Inv(c, s) && !c.markFailedOnError && ServiceActive(s, row, message)
    ensures ServiceActive(Next(c, s, step), row, message)
  {
    assert ServiceRowOk(c, s, row);
    ServiceRowsWellFormed(c, s, row);
    hide Inv;
    WellFormedStaysActive(c, s, step, row, message);
  }

  lemma WellFormedStaysActive(c: Config, s: State, step: Step, row: nat, message: nat)
    requires !c.markFailedOnError && ServiceActive(s, row, message) && SubmissionValues(s.rows[row]).Ok?
    ensures ServiceActive(Next(c, s, step), row, message)
  {
    hide SubmissionValues, Encode, IsNextPending, Active, Stored;
  }

  lemma StepKeepsNoRetries(c: Config, s: State, step: Step)
    requires Inv(c, s) && !c.markFailedOnError && NoRetries(s)
    ensures NoRetries(Next(c, s, step))
  {
    var t := Next(c, s, step);
    forall m | m in s.messages ensures Active(s, m) {
      var r :| ServiceActive(s, r, m);
      assert ServiceRowOk(c, s, r);
      ServiceActiveIsActive(c, s, r, m);
    }
    forall r, m | ServiceActive(s, r, m) ensures ServiceActive(t, r, m) {
      StepKeepsServiceActive(c, s, step, r, m);
    }
    forall r | r in s.serviceRows ensures r in s.rows {
      assert ServiceRowOk(c, s, r);
    }
    hide Inv;
    NewMessagesServed(c, s, step);
  }

  /** Only a send adds messages or service rows, one of each. */
  lemma NewMessagesServed(c: Config, s: State, step: Step)
    requires NoRetries(s) && (forall r :: r in s.serviceRows ==> r in s.rows)
    requires !(Enabled(c, s, step) && step.RetryCheck?)
    requires forall r, m :: ServiceActive(s, r, m) ==> ServiceActive(Next(c, s, step), r, m)
    ensures NoRetries(Next(c, s, step))
  {
    var t := Next(c, s, step);
    if Enabled(c, s, step) && step.SendMessage? {
      SendServes(c, s, step.message, step.row, step.now);
      hide Next;
      assert ServiceActive(t, step.row, step.message);
    } else {
      OtherStepsServe(c, s, step);
      hide Next;
    }
  }

  lemma SendServes(c: Config, s: State, message: nat, row: nat, now: int)
    requires Enabled(c, s, SendMessage(message, row, now))
    ensures var t := Next(c, s, SendMessage(message, row, now));
      t.messages == s.messages + {message} && t.serviceRows == s.serviceRows[row := message] && t.requests == s.requests
      && ServiceActive(t, row, message)
  {
  }

  lemma OtherStepsServe(c: Config, s: State, step: Step)
    requires s.requests == map[] && !(Enabled(c, s, step) && (step.RetryCheck? || step.SendMessage?))
    ensures var t := Next(c, s, step);
      t.messages == s.messages && t.serviceRows == s.serviceRows && t.requests == map[]
  {
    hide SubmissionValues, Encode, IsNextPending, Active, Stored;
  }

  lemma {:induction false} RunKeepsNoRetries(c: Config, s: State, steps: seq<Step>)
    requires Inv(c, s) && !c.markFailedOnError && NoRetries(s)
    ensures NoRetries(After(c, s, steps))
    decreases |steps|
  {
    hide Inv, Next, NoRetries;
    if steps != [] {
      StepKeepsInv(c, s, steps[0]);
      StepKeepsNoRetries(c, s, steps[0]);
      RunKeepsNoRetries(c, Next(c, s, steps[0]), steps[1..]);
    }
  }

  /** The retry's insert keeps the message to one active anchor exactly when its look would still find none. */
  lemma InsertKeepsOneActive(c: Config, s: State, request: nat, row: nat, now: int)
    requires Enabled(c, s, RetryInsert(request, row, now))
    ensures var m := s.requests[request];
      var t := Next(c, s, RetryInsert(request, row, now));
      (forall q, r :: IsActiveRow(t, q, m) && IsActiveRow(t, r, m) ==> q == r) <==> !Active(s, m)
  {
    var m := s.requests[request];
    var t := Next(c, s, RetryInsert(request, row, now));
    assert IsActiveRow(t, row, m);
    if Active(s, m) {
      var q :| q in s.rows && s.rows[q].messageId == Some(m) && s.rows[q].status != Failed;
      assert IsActiveRow(t, q, m) && q != row;
    }
  }

  predicate IsActiveRow(s: State, row: nat, message: nat) {
    row in s.rows && s.rows[row].messageId == Some(message) && s.rows[row].status != Failed
  }

  /** The message's first anchor fails, then two retries both look before either inserts. */
  function RaceStart(m: nat, row: nat, w: nat): seq<Step> { [SendMessage(m, row, 0), Lock(w, row), SubmitError(w)] }

  function RaceEnd(m: nat, request: nat, other: nat, row: nat, otherRow: nat): seq<Step> {
    [RetryCheck(request, m), RetryCheck(other, m), RetryInsert(request, row, 1), RetryInsert(other, otherRow, 2)]
  }

  function FailedFirst(c: Config, m: nat, row: nat): State {
    State(map[row := MessageAnchor(m, c.recordIdOf(m), c.digestOf(m), 0).(status := Failed)], {m}, map[row := m],
          map[], map[], map[], map[])
  }

  lemma RaceStarts(c: Config, m: nat, row: nat, w: nat)
    requires c.markFailedOnError
    ensures After(c, INIT, RaceStart(m, row, w)) == FailedFirst(c, m, row)
  {
    hide Encode, Stored, After, Active;
    var a := MessageAnchor(m, c.recordIdOf(m), c.digestOf(m), 0);
    var s1 := State(map[row := a], {m}, map[row := m], map[], map[], map[], map[]);
    assert Next(c, INIT, SendMessage(m, row, 0)) == s1;
    assert IsNextPending(s1, row);
    var s2 := s1.(workers := map[w := Locked(row)]);
    assert Next(c, s1, Lock(w, row)) == s2;
    assert SubmissionValues(a).Ok?;
    assert Next(c, s2, SubmitError(w)) == FailedFirst(c, m, row);
    TwoSteps(c, INIT, SendMessage(m, row, 0), Lock(w, row));
    RunSplits(c, INIT, [SendMessage(m, row, 0), Lock(w, row)], [SubmitError(w)]);
    OneStep(c, s2, SubmitError(w));
    assert [SendMessage(m, row, 0), Lock(w, row)] + [SubmitError(w)] == RaceStart(m, row, w);
  }

  lemma LookEffect(c: Config, s: State, request: nat, m: nat)
    requires request !in s.requests && m in s.messages && !Active(s, m)
    ensures Next(c, s, RetryCheck(request, m)) == s.(requests := s.requests[request := m])
  {
    hide Active;
  }

  lemma InsertEffect(c: Config, s: State, request: nat, row: nat, now: int)
    requires request in s.requests && row !in s.rows
    ensures Next(c, s, RetryInsert(request, row, now))
      == AddMessageRow(c, s, row, s.requests[request], now).(requests := s.requests - {request})
  {
    hide AddMessageRow;
  }

  /** What two retries that both look before either inserts leave. */
  lemma RaceEffect(c: Config, s: State, m: nat, request: nat, other: nat, row: nat, otherRow: nat)
    requires m in s.messages && !Active(s, m) && request !in s.requests && other !in s.requests && request != other
    requires row !in s.rows && otherRow !in s.rows && row != otherRow
    ensures After(c, s, RaceEnd(m, request, other, row, otherRow))
      == AddMessageRow(c, AddMessageRow(c, s, row, m, 1), otherRow, m, 2)
  {
    hide After, Active, Next;
    LookEffect(c, s, request, m);
    var s1 := s.(requests := s.requests[request := m]);
    SameRowsSameActive(s, s1, m);
    LookEffect(c, s1, other, m);
    var s2 := s1.(requests := s1.requests[other := m]);
    InsertEffect(c, s2, request, row, 1);
    InsertEffect(c, Next(c, s2, RetryInsert(request, row, 1)), other, otherRow, 2);
    TwoSteps(c, s, RetryCheck(request, m), RetryCheck(other, m));
    TwoSteps(c, s2, RetryInsert(request, row, 1), RetryInsert(other, otherRow, 2));
    RunSplits(c, s, [RetryCheck(request, m), RetryCheck(other, m)],
      [RetryInsert(request, row, 1), RetryInsert(other, otherRow, 2)]);
    assert RaceEnd(m, request, other, row, otherRow)
        == [RetryCheck(request, m), RetryCheck(other, m)]
           + [RetryInsert(request, row, 1), RetryInsert(other, otherRow, 2)];
    assert s2.requests - {request} - {other} == s.requests;
  }

  /** From any state where the message has no active anchor, both retries insert. */
  lemma RetriesRace(c: Config, s: State, m: nat, request: nat, other: nat, row: nat, otherRow: nat)
    requires m in s.messages && !Active(s, m) && request !in s.requests && other !in s.requests && request != other
    requires row !in s.rows && otherRow !in s.rows && row != otherRow
    ensures var t := After(c, s, RaceEnd(m, request, other, row, otherRow));
      ServiceActive(t, row, m) && ServiceActive(t, otherRow, m)
  {
    hide After, Active;
    RaceEffect(c, s, m, request, other, row, otherRow);
  }

  lemma SameRowsSameActive(s: State, t: State, message: nat)
    requires s.rows == t.rows
    ensures Active(s, message) == Active(t, message)
  {
  }

  /** When failures are marked, a run from the empty database leaves the message with two active anchors. */
  lemma RaceFromInit(c: Config, m: nat, request: nat, other: nat, first: nat, row: nat, otherRow: nat, w: nat)
    requires c.markFailedOnError && request != other && first != row && row != otherRow && otherRow != first
    ensures !OneActive(After(c, INIT, RaceStart(m, first, w) + RaceEnd(m, request, other, row, otherRow)), m)
  {
    RaceStarts(c, m, first, w);
    var s := FailedFirst(c, m, first);
    assert !Active(s, m);
    hide After, Active;
    RetriesRace(c, s, m, request, other, row, otherRow);
    RunSplits(c, INIT, RaceStart(m, first, w), RaceEnd(m, request, other, row, otherRow));
    var t := After(c, s, RaceEnd(m, request, other, row, otherRow));
    assert ServiceActive(t, row, m) && ServiceActive(t, otherRow, m);
  }

  /** The look before the insert keeps every message to one active anchor in every run exactly when the worker
      does not mark failures. */
  lemma OneActiveExactly(c: Config, m: nat)
    ensures (forall steps :: OneActive(After(c, INIT, steps), m)) <==> !c.markFailedOnError
  {
    hide After, Inv, OneActive;
    if c.markFailedOnError {
      RaceFromInit(c, m, 0, 1, 0, 1, 2, 0);
    } else {
      forall steps ensures OneActive(After(c, INIT, steps), m) {
        InitHasNoRetries(c);
        RunKeepsNoRetries(c, INIT, steps);
        NoRetriesOneActive(After(c, INIT, steps), m);
      }
    }
  }

  lemma InitHasNoRetries(c: Config)
    ensures Inv(c, INIT) && NoRetries(INIT)
  {
  }

  lemma NoRetriesOneActive(s: State, m: nat)
    requires NoRetries(s)
    ensures OneActive(s, m)
  {
  }

  // ---- rows of messages only ----

  /** Rows come from create_pending_anchor_for_message alone, the only caller of create_anchor. */
  predicate ServiceOnly(steps: seq<Step>) { forall step :: step in steps ==> !step.ImportRow? }

  /** Every row was inserted for a message that was sent, and every transaction was sent for such a row. */
  ghost predicate FromMessages(c: Config, s: State) {
    && (forall r :: r in s.rows ==> r in s.serviceRows)
    && (forall r :: r in s.serviceRows ==> s.serviceRows[r] in s.messages)
    && (forall q :: q in s.requests ==> s.requests[q] in s.messages)
    && (forall k :: k in s.txs ==> WrittenFor(c, s, k))
  }

  /** The transaction writes a sent message's digest under its record id. */
  ghost predicate WrittenFor(c: Config, s: State, key: TxKey) {
    exists m :: m in s.messages && c.recordIdOf(m) == key.recordId && c.digestOf(m) == key.contentHash
  }

  lemma ServiceRowSubmits(c: Config, s: State, row: nat)
    requires row in s.serviceRows && ServiceRowOk(c, s, row)
    ensures var m := s.serviceRows[row];
      SubmissionValues(s.rows[row]) == Ok((c.recordIdOf(m), c.digestOf(m)))
      && Encode(c.recordIdOf(m)) == Some(c.recordIdOf(m)) && Encode(c.digestOf(m)) == Some(c.digestOf(m))
  {
    EncodeNode(c.recordIdOf(s.serviceRows[row]));
    EncodeNode(c.digestOf(s.serviceRows[row]));
  }

  lemma BroadcastWritten(c: Config, s: State, step: Step, key: TxKey)
    requires Inv(c, s) && FromMessages(c, s) && key in Next(c, s, step).txs
    ensures WrittenFor(c, s, key)
  {
    hide IsNextPending, Active, Stored, SubmissionValues, Encode, Inv;
    if key !in s.txs {
      assert Enabled(c, s, step) && step.Broadcast?;
      var row := s.workers[step.worker].row;
      InvServiceRow(c, s, row);
      ServiceRowSubmits(c, s, row);
      var m := s.serviceRows[row];
      assert m in s.messages;
    }
  }

  lemma InvServiceRow(c: Config, s: State, row: nat)
    requires Inv(c, s) && row in s.serviceRows
    ensures ServiceRowOk(c, s, row)
  {
  }

  lemma StepKeepsFromMessages(c: Config, s: State, step: Step)
    requires Inv(c, s) && FromMessages(c, s) && !step.ImportRow?
    ensures FromMessages(c, Next(c, s, step))
  {
    WorkersOnRows(c, s);
    hide Inv, Next;
    RowsOfMessages(c, s, step);
    forall k | k in Next(c, s, step).txs ensures WrittenFor(c, Next(c, s, step), k) {
      BroadcastWritten(c, s, step, k);
      StepKeepsWritten(c, s, step, k);
    }
    hide WrittenFor;
  }

  lemma StepKeepsWritten(c: Config, s: State, step: Step, key: TxKey)
    requires WrittenFor(c, s, key)
    ensures WrittenFor(c, Next(c, s, step), key)
  {
    StepKeepsMessages(c, s, step);
    hide Next;
    var m :| m in s.messages && c.recordIdOf(m) == key.recordId && c.digestOf(m) == key.contentHash;
    assert m in Next(c, s, step).messages;
  }

  lemma WorkersOnRows(c: Config, s: State)
    requires Inv(c, s)
    ensures forall w :: w in s.workers ==> s.workers[w].row in s.rows
  {
    forall w | w in s.workers ensures s.workers[w].row in s.rows {
      assert WorkerOk(c, s, w);
    }
  }

  lemma StepKeepsMessages(c: Config, s: State, step: Step)
    ensures s.messages <= Next(c, s, step).messages
  {
    hide IsNextPending, Active, Stored, SubmissionValues, Encode;
  }

  lemma RowsOfMessages(c: Config, s: State, step: Step)
    requires FromMessages(c, s) && !step.ImportRow?
    requires forall w :: w in s.workers ==> s.workers[w].row in s.rows
    ensures var t := Next(c, s, step);
      (forall r :: r in t.rows ==> r in t.serviceRows)
      && (forall r :: r in t.serviceRows ==> t.serviceRows[r] in t.messages)
      && (forall q :: q in t.requests ==> t.requests[q] in t.messages)
  {
    if Enabled(c, s, step) && (step.SendMessage? || step.RetryInsert?) {
      hide Active, WrittenFor;
    } else {
      OtherStepsKeepRows(c, s, step);
      hide Next;
    }
  }

  lemma OtherStepsKeepRows(c: Config, s: State, step: Step)
    requires !step.ImportRow? && !(Enabled(c, s, step) && (step.SendMessage? || step.RetryInsert?))
    requires forall w :: w in s.workers ==> s.workers[w].row in s.rows
    ensures var t := Next(c, s, step);
      t.rows.Keys == s.rows.Keys && t.serviceRows == s.serviceRows && t.messages == s.messages
      && forall q :: q in t.requests ==>
           (q in s.requests && t.requests[q] == s.requests[q]) || t.requests[q] in s.messages
  {
    hide IsNextPending, Active, Stored, SubmissionValues, Encode;
  }

  lemma {:induction false} RunKeepsFromMessages(c: Config, s: State, steps: seq<Step>)
    requires Inv(c, s) && FromMessages(c, s) && ServiceOnly(steps)
    ensures FromMessages(c, After(c, s, steps))
    decreases |steps|
  {
    hide Inv, Next, FromMessages;
    if steps != [] {
      assert steps[0] in steps && forall step :: step in steps[1..] ==> step in steps;
      StepKeepsInv(c, s, steps[0]);
      StepKeepsFromMessages(c, s, steps[0]);
      RunKeepsFromMessages(c, Next(c, s, steps[0]), steps[1..]);
    }
  }

  lemma ServiceReachable(c: Config, steps: seq<Step>)
    requires ServiceOnly(steps)
    ensures Inv(c, After(c, INIT, steps)) && FromMessages(c, After(c, INIT, steps))
  {
    ReachableInv(c, steps);
    InitHasNoRetries(c);
    assert FromMessages(c, INIT);
    hide Inv, FromMessages, After;
    RunKeepsFromMessages(c, INIT, steps);
  }

  // ---- one confirmed row per record ----

  /** Two messages with one record id and one digest. */
  ghost predicate TwinMessages(c: Config) {
    exists m, n :: m != n && c.recordIdOf(m) == c.recordIdOf(n) && c.digestOf(m) == c.digestOf(n)
  }

  /** Two confirmed rows of one record were confirmed for one transaction, so their messages agree in the digest
      too. */
  lemma ConfirmedTogether(c: Config, s: State, q: nat, r: nat, id: Node)
    requires Inv(c, s) && q in s.serviceRows && r in s.serviceRows && ConfirmedFor(s, q, id) && ConfirmedFor(s, r, id)
    ensures var m, n := s.serviceRows[q], s.serviceRows[r];
      c.recordIdOf(m) == c.recordIdOf(n) && c.digestOf(m) == c.digestOf(n)
  {
    assert RowOk(c, s, q) && RowOk(c, s, r) && ServiceRowOk(c, s, q) && ServiceRowOk(c, s, r);
    ServiceRowSubmits(c, s, q);
    ServiceRowSubmits(c, s, r);
    hide Encode, SubmissionValues, WorkerOk, TxOk, LocksExclusive;
    assert s.rows[q].transactionHash.value == s.rows[r].transactionHash.value;
  }

  lemma DistinctConfirmOnce(c: Config, s: State)
    requires Inv(c, s) && FromMessages(c, s) && NoRetries(s) && !TwinMessages(c)
    ensures ConfirmedOnce(s)
  {
    hide Inv, WrittenFor;
    forall q, r, id | ConfirmedFor(s, q, id) && ConfirmedFor(s, r, id) ensures q == r {
      ConfirmedTogether(c, s, q, r, id);
      assert s.serviceRows[q] == s.serviceRows[r];
    }
  }

  /** Of two messages that share their record id but not their digest at most one is ever confirmed: in no run, of
      whatever rows, do both have confirmed anchors. */
  lemma SharedRecordOneWins(c: Config, steps: seq<Step>, q: nat, r: nat)
    requires var s := After(c, INIT, steps);
      && q in s.serviceRows && r in s.serviceRows
      && c.recordIdOf(s.serviceRows[q]) == c.recordIdOf(s.serviceRows[r])
      && c.digestOf(s.serviceRows[q]) != c.digestOf(s.serviceRows[r])
    ensures var s := After(c, INIT, steps);
      q in s.rows && r in s.rows && !(s.rows[q].status == Confirmed && s.rows[r].status == Confirmed)
  {
    hide After;
    var s := After(c, INIT, steps);
    ReachableInv(c, steps);
    InvServiceRow(c, s, q);
    InvServiceRow(c, s, r);
    hide Inv;
    if s.rows[q].status == Confirmed && s.rows[r].status == Confirmed {
      ServiceRowSubmits(c, s, q);
      ServiceRowSubmits(c, s, r);
      ConfirmedTogether(c, s, q, r, c.recordIdOf(s.serviceRows[q]));
    }
  }

  /** Two messages sent in turn, whose anchors are then the first two in line. */
  lemma TwinMessagesInLine(c: Config, m: nat, n: nat)
    requires m != n && c.recordIdOf(m) == c.recordIdOf(n) && c.digestOf(m) == c.digestOf(n)
    ensures TwinsInLine(c, After(c, INIT, [SendMessage(m, 0, 0), SendMessage(n, 1, 0)]), 0, 1,
              c.recordIdOf(m), c.digestOf(m))
  {
    hide Encode, Stored, After, Active;
    var a := MessageAnchor(m, c.recordIdOf(m), c.digestOf(m), 0);
    var b := MessageAnchor(n, c.recordIdOf(n), c.digestOf(n), 0);
    var s := State(map[0 := a, 1 := b], {m, n}, map[0 := m, 1 := n], map[], map[], map[], map[]);
    TwoSteps(c, INIT, SendMessage(m, 0, 0), SendMessage(n, 1, 0));
    assert Next(c, INIT, SendMessage(m, 0, 0))
        == State(map[0 := a], {m}, map[0 := m], map[], map[], map[], map[]);
    assert After(c, INIT, [SendMessage(m, 0, 0), SendMessage(n, 1, 0)]) == s;
    TwinRowsInLine(c, s, 0, 1, c.recordIdOf(m), c.digestOf(m));
  }

  /** Of the rows that are not failed, q comes first and r second. */
  lemma TwinRowsInLine(c: Config, s: State, q: nat, r: nat, id: Node, hash: Node)
    requires q != r && q in s.rows && r in s.rows && s.workers == map[] && s.txs == map[] && id !in s.chain
    requires SubmissionValues(s.rows[q]) == Ok((id, hash)) && SubmissionValues(s.rows[r]) == Ok((id, hash))
    requires s.rows[q].status == Pending && s.rows[r].status == Pending && NotLater(s, q, r)
    requires forall x :: x in s.rows && x != q && x != r ==> s.rows[x].status != Pending
    ensures TwinsInLine(c, s, q, r, id, hash)
  {
    hide SubmissionValues;
    assert forall x :: !IsLocked(s, x);
    var t := s.(workers := map[0 := Locked(q)]);
    assert t.workers[0].row == q && IsLocked(t, q) && !IsLocked(t, r);
  }

  /** The two anchors that racing retries leave. */
  lemma RacedRowsInLine(c: Config)
    requires c.markFailedOnError
    ensures TwinsInLine(c, After(c, INIT, RaceStart(0, 0, 0) + RaceEnd(0, 0, 1, 1, 2)), 1, 2,
              c.recordIdOf(0), c.digestOf(0))
  {
    RaceStarts(c, 0, 0, 0);
    RaceRows(c);
    hide After, SubmissionValues;
    RunSplits(c, INIT, RaceStart(0, 0, 0), RaceEnd(0, 0, 1, 1, 2));
  }

  lemma RaceRows(c: Config)
    ensures TwinsInLine(c, After(c, FailedFirst(c, 0, 0), RaceEnd(0, 0, 1, 1, 2)), 1, 2, c.recordIdOf(0), c.digestOf(0))
  {
    var s := FailedFirst(c, 0, 0);
    assert !Active(s, 0);
    RaceEffect(c, s, 0, 0, 1, 1, 2);
    var t := After(c, s, RaceEnd(0, 0, 1, 1, 2));
    hide After;
    TwinRowsInLine(c, t, 1, 2, c.recordIdOf(0), c.digestOf(0));
  }

  /** Over all runs whose rows come from messages, no record has two confirmed rows if and only if the node refuses
      a transaction it already has, or the account cannot write to the contract, or failures are not marked and no
      two messages share both record id and digest. Messages that share only the record id do no harm: one of their
      transactions reverts. */
  lemma ConfirmedOnceExactly(c: Config)
    ensures (forall steps :: ServiceOnly(steps) ==> ConfirmedOnce(After(c, INIT, steps)))
      <==> c.nodeRefusesKnown || c.account != c.owner || (!c.markFailedOnError && !TwinMessages(c))
  {
    hide After, Inv, ConfirmedOnce, FromMessages, NoRetries, ServiceOnly;
    if c.nodeRefusesKnown || c.account != c.owner {
      forall steps | ServiceOnly(steps) ensures ConfirmedOnce(After(c, INIT, steps)) {
        ConfirmsOnce(c, steps);
      }
    } else if c.markFailedOnError {
      var steps := RaceThenTwins(c);
    } else if TwinMessages(c) {
      var steps := MessagesThenTwins(c);
    } else {
      InitHasNoRetries(c);
      forall steps | ServiceOnly(steps) ensures ConfirmedOnce(After(c, INIT, steps)) {
        ServiceReachable(c, steps);
        RunKeepsNoRetries(c, INIT, steps);
        DistinctConfirmOnce(c, After(c, INIT, steps));
      }
    }
  }

  /** A send whose first anchor fails, two retries that race, and two workers that send one transaction. */
  lemma RaceThenTwins(c: Config) returns (steps: seq<Step>)
    requires !c.nodeRefusesKnown && c.account == c.owner && c.markFailedOnError
    ensures ServiceOnly(steps) && !ConfirmedOnce(After(c, INIT, steps))
  {
    hide After, ConfirmedOnce, TwinsInLine;
    var race := RaceStart(0, 0, 0) + RaceEnd(0, 0, 1, 1, 2);
    RacedRowsInLine(c);
    TwinsBothConfirm(c, After(c, INIT, race), 1, 2, c.recordIdOf(0), c.digestOf(0));
    RunSplits(c, INIT, race, TwinSteps(1, 2, c.recordIdOf(0), c.digestOf(0)));
    steps := race + TwinSteps(1, 2, c.recordIdOf(0), c.digestOf(0));
  }

  lemma MessagesThenTwins(c: Config) returns (steps: seq<Step>)
    requires !c.nodeRefusesKnown && c.account == c.owner && TwinMessages(c)
    ensures ServiceOnly(steps) && !ConfirmedOnce(After(c, INIT, steps))
  {
    hide After, ConfirmedOnce, TwinsInLine;
    var m, n :| m != n && c.recordIdOf(m) == c.recordIdOf(n) && c.digestOf(m) == c.digestOf(n);
    var sends := [SendMessage(m, 0, 0), SendMessage(n, 1, 0)];
    TwinMessagesInLine(c, m, n);
    TwinsBothConfirm(c, After(c, INIT, sends), 0, 1, c.recordIdOf(m), c.digestOf(m));
    RunSplits(c, INIT, sends, TwinSteps(0, 1, c.recordIdOf(m), c.digestOf(m)));
    steps := sends + TwinSteps(0, 1, c.recordIdOf(m), c.digestOf(m));
  }
  // ---- rows from elsewhere ----

  /** With rows inserted by anything else, as imports, only the node's refusal or the account's lack of rights helps. */
  lemma ForeignRowsConfirmOnceExactly(c: Config)
    ensures (forall steps :: ConfirmedOnce(After(c, INIT, steps))) <==> c.nodeRefusesKnown || c.account != c.owner
  {
    hide After, ConfirmedOnce, TwinsInLine;
    if c.nodeRefusesKnown || c.account != c.owner {
      forall steps ensures ConfirmedOnce(After(c, INIT, steps)) {
        ConfirmsOnce(c, steps);
      }
    } else {
      var id, hash := c.recordIdOf(0), c.digestOf(0);
      ImportedRowsInLine(c);
      var imports := [ImportRow(0, MessageAnchor(0, id, hash, 0)), ImportRow(1, MessageAnchor(0, id, hash, 0))];
      TwinsBothConfirm(c, After(c, INIT, imports), 0, 1, id, hash);
      RunSplits(c, INIT, imports, TwinSteps(0, 1, id, hash));
    }
  }

  lemma ImportedRowsInLine(c: Config)
    ensures var a := MessageAnchor(0, c.recordIdOf(0), c.digestOf(0), 0);
      TwinsInLine(c, After(c, INIT, [ImportRow(0, a), ImportRow(1, a)]), 0, 1, c.recordIdOf(0), c.digestOf(0))
  {
    hide Encode, Stored, After, Active;
    var a := MessageAnchor(0, c.recordIdOf(0), c.digestOf(0), 0);
    TwoSteps(c, INIT, ImportRow(0, a), ImportRow(1, a));
    assert After(c, INIT, [ImportRow(0, a), ImportRow(1, a)]) == INIT.(rows := map[0 := a, 1 := a]);
    TwinRowsInLine(c, INIT.(rows := map[0 := a, 1 := a]), 0, 1, c.recordIdOf(0), c.digestOf(0));
  }
}
