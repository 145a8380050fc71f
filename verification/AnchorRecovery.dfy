/** Which records on chain without a confirmed row can still get one, when a node takes a transaction it already has:
    a worker then learns of a landed transaction by sending it again. */
module AnchorRecovery {
  import opened AnchorProtocol
  import opened AnchorRaces
  import opened FidelityContract
  import opened Merkle
  import opened Wrappers

  lemma {:induction false} Fresh(used: set<nat>) returns (n: nat)
    ensures forall k :: k in used ==> k < n
    decreases |used|
  {
    if used == {} {
      n := 0;
    } else {
      var k :| k in used;
      var above := Fresh(used - {k});
      n := if k < above then above else k + 1;
      assert forall l :: l in used ==> l == k || l in used - {k};
    }
  }

  lemma {:induction false} Oldest(s: State, rows: set<nat>) returns (row: nat)
    requires rows != {} && rows <= s.rows.Keys
    ensures row in rows && forall r :: r in rows ==> NotLater(s, row, r)
    decreases |rows|
  {
    var r :| r in rows;
    if rows == {r} {
      row := r;
    } else {
      var others := rows - {r};
      assert others != {} && forall x :: x in rows ==> x == r || x in others;
      row := Oldest(s, others);
      if !NotLater(s, row, r) {
        row := r;
      }
    }
  }

  function SelectableRows(s: State): set<nat> { set r | r in s.rows && Selectable(s, r) }

  /** Workers that lock the pending rows in turn get to every unlocked one. */
  lemma {:induction false} LocksInTurn(c: Config, s: State, row: nat) returns (steps: seq<Step>, w: nat)
    requires Selectable(s, row)
    ensures ServiceOnly(steps)
    ensures var t := After(c, s, steps);
      t == s.(workers := t.workers) && w in t.workers && t.workers[w] == Locked(row)
    decreases |SelectableRows(s)|
  {
    assert row in SelectableRows(s);
    var first := Oldest(s, SelectableRows(s));
    w := Fresh(s.workers.Keys);
    LockFirst(c, s, w, first);
    var t := Next(c, s, Lock(w, first));
    hide Next, IsNextPending, NotLater;
    OneStep(c, s, Lock(w, first));
    steps := [Lock(w, first)];
    if first != row {
      LockTakesOne(s, w, first);
      StillSelectable(s, w, first, row);
      var more;
      more, w := LocksInTurn(c, t, row);
      RunSplits(c, s, steps, more);
      steps := steps + more;
    }
  }

  lemma LockFirst(c: Config, s: State, w: nat, first: nat)
    requires first in SelectableRows(s) && (forall r :: r in SelectableRows(s) ==> NotLater(s, first, r))
    requires w !in s.workers
    ensures Next(c, s, Lock(w, first)) == s.(workers := s.workers[w := Locked(first)])
  {
    hide NotLater;
    forall r | r in s.rows && Selectable(s, r) ensures NotLater(s, first, r) {
      assert r in SelectableRows(s);
    }
  }

  lemma LockTakesOne(s: State, w: nat, first: nat)
    requires first in SelectableRows(s) && w !in s.workers
    ensures |SelectableRows(s.(workers := s.workers[w := Locked(first)]))| < |SelectableRows(s)|
  {
    var t := s.(workers := s.workers[w := Locked(first)]);
    assert t.workers[w].row == first;
    assert IsLocked(t, first);
    assert forall v :: v in s.workers ==> t.workers[v] == s.workers[v];
    assert SelectableRows(t) <= SelectableRows(s) - {first};
    Smaller(SelectableRows(t), SelectableRows(s), first);
  }

  lemma {:induction false} SubsetSize(a: set<nat>, b: set<nat>)
    requires a <= b
    ensures |a| <= |b|
  {
    if a != {} {
      var x :| x in a;
      SubsetSize(a - {x}, b - {x});
    }
  }

  lemma Smaller(a: set<nat>, b: set<nat>, x: nat)
    requires x in b && a <= b - {x}
    ensures |a| < |b|
  {
    SubsetSize(a, b - {x});
  }

  lemma StillSelectable(s: State, w: nat, first: nat, row: nat)
    requires Selectable(s, row) && row != first && w !in s.workers
    ensures Selectable(s.(workers := s.workers[w := Locked(first)]), row)
  {
  }

  // ---- sending a landed transaction again ----

  /** A pending row of a message whose transaction has landed. */
  predicate CanResend(c: Config, s: State, row: nat, key: TxKey) {
    && row in s.rows && s.rows[row].status == Pending
    && SubmissionValues(s.rows[row]) == Ok((key.recordId, key.contentHash))
    && key in s.txs && s.txs[key].outcome.Landed?
  }

  lemma ResendConfirms(c: Config, s: State, w: nat, row: nat, key: TxKey)
    requires !c.nodeRefusesKnown && CanResend(c, s, row, key) && w in s.workers && s.workers[w] == Locked(row)
    ensures ConfirmedFor(After(c, s, [Broadcast(w, key.nonce, key.gasPrice), Confirm(w)]), row, key.recordId)
  {
    EncodeNode(key.recordId);
    EncodeNode(key.contentHash);
    ValuesRecord(s.rows[row], key.recordId, key.contentHash);
    hide SubmissionValues, Encode, After, IsNextPending;
    var t := s.(workers := s.workers[w := Sent(row, key)]);
    assert Next(c, s, Broadcast(w, key.nonce, key.gasPrice)) == t;
    TwoSteps(c, s, Broadcast(w, key.nonce, key.gasPrice), Confirm(w));
    WaiterConfirms(c, t, w, row, key, s.txs[key].outcome.timestamp);
  }

  lemma UnlockedResends(c: Config, s: State, row: nat, key: TxKey) returns (steps: seq<Step>)
    requires !c.nodeRefusesKnown && CanResend(c, s, row, key) && !IsLocked(s, row)
    ensures ServiceOnly(steps) && ConfirmedFor(After(c, s, steps), row, key.recordId)
  {
    var locks, w := LocksInTurn(c, s, row);
    hide After, CanResend;
    var t := After(c, s, locks);
    assert CanResend(c, t, row, key) by {
      SameRowsResend(c, s, t, row, key);
    }
    ResendConfirms(c, t, w, row, key);
    steps := locks + [Broadcast(w, key.nonce, key.gasPrice), Confirm(w)];
    RunSplits(c, s, locks, [Broadcast(w, key.nonce, key.gasPrice), Confirm(w)]);
  }

  lemma SameRowsResend(c: Config, s: State, t: State, row: nat, key: TxKey)
    requires CanResend(c, s, row, key) && row in t.rows && t.rows[row] == s.rows[row] && t.txs == s.txs
    ensures CanResend(c, t, row, key)
  {
  }

  /** A worker that holds the row may crash first. */
  lemma Resends(c: Config, s: State, row: nat, key: TxKey) returns (steps: seq<Step>)
    requires Inv(c, s) && !c.nodeRefusesKnown && CanResend(c, s, row, key)
    ensures ServiceOnly(steps) && ConfirmedFor(After(c, s, steps), row, key.recordId)
  {
    if w :| w in s.workers && s.workers[w].row == row {
      var t := Release(s, w);
      assert !IsLocked(t, row);
      assert Next(c, s, Crash(w)) == t;
      hide Inv, After, Next, IsLocked, CanResend;
      SameRowsResend(c, s, t, row, key);
      OneStep(c, s, Crash(w));
      steps := UnlockedResends(c, t, row, key);
      RunSplits(c, s, [Crash(w)], steps);
      steps := [Crash(w)] + steps;
    } else {
      assert !IsLocked(s, row);
      steps := UnlockedResends(c, s, row, key);
    }
  }

  /** The active anchor of a message whose record is not confirmed is pending. */
  lemma PendingAnchor(c: Config, s: State, m: nat) returns (row: nat)
    requires Inv(c, s) && FromMessages(c, s) && Unconfirmed(s, c.recordIdOf(m)) && Active(s, m)
    ensures row in s.rows && s.rows[row].status == Pending
    ensures SubmissionValues(s.rows[row]) == Ok((c.recordIdOf(m), c.digestOf(m)))
  {
    row :| row in s.rows && s.rows[row].messageId == Some(m) && s.rows[row].status != Failed;
    InvServiceRow(c, s, row);
    hide Inv, WrittenFor;
    ServiceRowSubmits(c, s, row);
    assert s.serviceRows[row] == m;
    assert !ConfirmedFor(s, row, c.recordIdOf(m));
  }

  /** A retry of a message with no active anchor inserts a pending row. */
  lemma RetryInserts(c: Config, s: State, m: nat, key: TxKey) returns (steps: seq<Step>, row: nat)
    requires m in s.messages && !Active(s, m) && c.recordIdOf(m) == key.recordId && c.digestOf(m) == key.contentHash
    requires key in s.txs && s.txs[key].outcome.Landed?
    ensures ServiceOnly(steps) && CanResend(c, After(c, s, steps), row, key)
  {
    var request := Fresh(s.requests.Keys);
    row := Fresh(s.rows.Keys);
    LookEffect(c, s, request, m);
    var t := s.(requests := s.requests[request := m]);
    InsertEffect(c, t, request, row, 0);
    steps := [RetryCheck(request, m), RetryInsert(request, row, 0)];
    hide Active, Next, After;
    TwoSteps(c, s, RetryCheck(request, m), RetryInsert(request, row, 0));
  }

  lemma WrittenConfirms(c: Config, s: State, id: Node) returns (steps: seq<Step>)
    requires Inv(c, s) && FromMessages(c, s) && !c.nodeRefusesKnown && Unconfirmed(s, id) && WroteRecord(s, id)
    ensures ServiceOnly(steps) && !Unconfirmed(After(c, s, steps), id)
  {
    var key :| key in s.txs && key.recordId == id && s.txs[key].outcome.Landed?;
    assert WrittenFor(c, s, key);
    var m :| m in s.messages && c.recordIdOf(m) == key.recordId && c.digestOf(m) == key.contentHash;
    hide After, Inv, FromMessages, SubmissionValues, Active;
    if Active(s, m) {
      var row := PendingAnchor(c, s, m);
      steps := Resends(c, s, row, key);
      assert ConfirmedFor(After(c, s, steps), row, id);
    } else {
      var retry, row := RetryInserts(c, s, m, key);
      RunKeepsInv(c, s, retry);
      steps := Resends(c, After(c, s, retry), row, key);
      RunSplits(c, s, retry, steps);
      steps := retry + steps;
      assert ConfirmedFor(After(c, s, steps), row, id);
    }
  }

  /** When a node takes a transaction it already has: in every state that runs with rows from messages reach, a record
      on chain with no confirmed row yet can still get one if and only if a transaction of the pipeline wrote it. */
  lemma CanStillConfirmByResending(c: Config, past: seq<Step>, id: Node)
    requires ServiceOnly(past) && !c.nodeRefusesKnown
    requires var s := After(c, INIT, past); HasRecord(s.chain, id) && Unconfirmed(s, id)
    ensures var s := After(c, INIT, past);
      (exists steps :: ServiceOnly(steps) && !Unconfirmed(After(c, s, steps), id)) <==> WroteRecord(s, id)
  {
    hide After, Inv, FromMessages, Unconfirmed, ServiceOnly, WroteRecord;
    var s := After(c, INIT, past);
    ServiceReachable(c, past);
    if WroteRecord(s, id) {
      var steps := WrittenConfirms(c, s, id);
    } else {
      forall steps ensures Unconfirmed(After(c, s, steps), id) {
        OrphanNeverConfirms(c, s, steps, id);
      }
    }
  }
}
