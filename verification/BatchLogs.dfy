/** What a transaction handler does with a batch of operations, as a log of events
    (jones-mysql/impl/MySQLConnection.js, TransactionHandler). */
module BatchLogs {
  import opened Options

  /** An operation's own error, or the error the handler makes of it for the rest of the batch. */
  datatype Failure = Own(error: nat) | RolledBack(cause: nat)

  /** Operation op of a batch is sent to the server, its callback is called, and at last that of
      the batch. */
  datatype Event =
    | Sent(batch: nat, op: nat)
    | OperationCallback(batch: nat, op: nat, failure: Option<Failure>)
    | BatchCallback(batch: nat, failure: Option<Failure>)

  /** A batch with the results of the operations that were sent, in order, and the error that the
      handler still had when it was started. */
  datatype Record = Record(size: nat, results: seq<Option<nat>>, inherited: Option<nat>)

  /** The handler's error after the operations with these results. */
  function ErrorAfter(inherited: Option<nat>, results: seq<Option<nat>>): Option<nat> {
    if results == [] then inherited
    else
      var last := results[|results| - 1];
      if last.Some? then last else ErrorAfter(inherited, results[..|results| - 1])
  }

  function OwnFailure(result: Option<nat>): Option<Failure> {
    if result.Some? then Some(Own(result.value)) else None
  }

  function BatchFailure(error: Option<nat>): Option<Failure> {
    if error.Some? then Some(RolledBack(error.value)) else None
  }

  /** Operations are sent one after another, each when the one before has called back. */
  function Steps(batch: nat, results: seq<Option<nat>>): seq<Event> {
    if results == [] then []
    else
      var n := |results| - 1;
      Steps(batch, results[..n]) + [Sent(batch, n), OperationCallback(batch, n, OwnFailure(results[n]))]
  }

  /** The log of a batch whose next operation is with the server. */
  function OpenLog(batch: nat, results: seq<Option<nat>>): seq<Event> {
    Steps(batch, results) + [Sent(batch, |results|)]
  }

  /** The callbacks of operations that are not sent because of an error. */
  function Skipped(batch: nat, from: nat, to: nat, error: nat): seq<Event>
    requires from <= to
  {
    seq(to - from, i requires 0 <= i < to - from => OperationCallback(batch, from + i, Some(RolledBack(error))))
  }

  function ClosedLog(batch: nat, r: Record): seq<Event>
    requires |r.results| <= r.size
  {
    var error := ErrorAfter(r.inherited, r.results);
    Steps(batch, r.results) + (if error.Some? then Skipped(batch, |r.results|, r.size, error.value) else [])
    + [BatchCallback(batch, BatchFailure(error))]
  }

  /** A batch goes on as long as there is no error. */
  predicate Going(inherited: Option<nat>, results: seq<Option<nat>>) {
    forall i :: 0 < i <= |results| ==> ErrorAfter(inherited, results[..i]) == None
  }

  /** A finished batch stopped at the first error there was after an operation, or at its end. */
  predicate Complete(r: Record) {
    && 0 < |r.results| <= r.size
    && Going(r.inherited, r.results[..|r.results| - 1])
    && (|r.results| == r.size || ErrorAfter(r.inherited, r.results).Some?)
  }

  function Logs(records: seq<Record>): seq<Event>
    requires forall i :: 0 <= i < |records| ==> Complete(records[i])
  {
    if records == [] then []
    else
      var n := |records| - 1;
      assert Complete(records[n]);
      Logs(records[..n]) + ClosedLog(n, records[n])
  }

  // ---------------------------------------------------------------- what the logs say

  ghost predicate CallbackAt(log: seq<Event>, i: nat, batch: nat, op: nat) {
    i < |log| && log[i].OperationCallback? && log[i].batch == batch && log[i].op == op
  }

  lemma {:induction false} StepsAt(batch: nat, results: seq<Option<nat>>, k: nat)
    requires k < |results|
    ensures |Steps(batch, results)| == 2 * |results|
    ensures Steps(batch, results)[2 * k] == Sent(batch, k)
    ensures Steps(batch, results)[2 * k + 1] == OperationCallback(batch, k, OwnFailure(results[k]))
  {
    var n := |results| - 1;
    StepsLength(batch, results[..n]);
    if k < n {
      StepsAt(batch, results[..n], k);
    }
  }

  lemma {:induction false} StepsLength(batch: nat, results: seq<Option<nat>>)
    ensures |Steps(batch, results)| == 2 * |results|
  {
    if results != [] {
      StepsLength(batch, results[..|results| - 1]);
    }
  }

  /** Where the callback of an operation is in the log of its batch. */
  function CallbackPosition(r: Record, op: nat): nat {
    if op < |r.results| then 2 * op + 1 else |r.results| + op
  }

  /** Each operation of a finished batch calls back exactly once, with its own error, none, or the
      error of the batch if it was not sent; the batch calls back last. */
  lemma {:induction false} CallbacksOnce(batch: nat, r: Record, i: nat)
    requires Complete(r) && i < |ClosedLog(batch, r)|
    ensures |ClosedLog(batch, r)| == |r.results| + r.size + 1
    ensures ClosedLog(batch, r)[i].BatchCallback? <==> i == |r.results| + r.size
    ensures forall op: nat {:trigger CallbackAt(ClosedLog(batch, r), i, batch, op)} ::
              CallbackAt(ClosedLog(batch, r), i, batch, op) <==> op < r.size && i == CallbackPosition(r, op)
    ensures ClosedLog(batch, r)[i].Sent? <==> i < 2 * |r.results| && i % 2 == 0
    ensures ClosedLog(batch, r)[i].batch == batch
  {
    StepsLength(batch, r.results);
    if i < 2 * |r.results| {
      StepsAt(batch, r.results, i / 2);
    }
  }

  /** No operation is sent once the batch has failed. */
  lemma {:induction false} NothingSentAfterError(batch: nat, r: Record, i: nat, j: nat)
    requires Complete(r) && i < j < |ClosedLog(batch, r)|
    requires ClosedLog(batch, r)[i].OperationCallback? && ClosedLog(batch, r)[i].failure.Some?
    ensures !ClosedLog(batch, r)[j].Sent?
  {
    CallbacksOnce(batch, r, i);
    CallbacksOnce(batch, r, j);
    StepsLength(batch, r.results);
    var k := i / 2;
    if k < |r.results| - 1 {
      NoErrorBefore(r, k);
      StepsAt(batch, r.results, k);
    }
  }

  lemma {:induction false} NoErrorBefore(r: Record, k: nat)
    requires Complete(r) && k < |r.results| - 1
    ensures r.results[k] == None
  {
    assert r.results[..|r.results| - 1][..k + 1] == r.results[..k + 1];
    assert r.results[..k + 1][..k] == r.results[..k];
  }

  /** All operations of a batch are sent if none fails, exactly if no error was left over or there is
      only one operation. */
  lemma {:induction false} AllSent(r: Record)
    requires Complete(r) && forall i :: 0 <= i < |r.results| ==> r.results[i] == None
    ensures |r.results| == r.size <==> r.inherited == None || r.size == 1
  {
    NoneFails(r.inherited, r.results);
    if |r.results| > 1 {
      NoneFails(r.inherited, r.results[..1]);
      assert r.results[..|r.results| - 1][..1] == r.results[..1];
    }
  }

  lemma {:induction false} NoneFails(inherited: Option<nat>, results: seq<Option<nat>>)
    requires forall i :: 0 <= i < |results| ==> results[i] == None
    ensures ErrorAfter(inherited, results) == inherited
  {
    if results != [] {
      NoneFails(inherited, results[..|results| - 1]);
    }
  }

  // ---------------------------------------------------------------- which errors are reported

  /** The callback of an operation is called with the operation's own error. */
  ghost predicate OwnErrorAt(log: seq<Event>, i: nat, e: nat) {
    i < |log| && log[i].OperationCallback? && log[i].failure == Some(Own(e))
  }

  ghost predicate SomeOwnError(log: seq<Event>) {
    exists i: nat, e: nat :: OwnErrorAt(log, i, e)
  }

  /** What the callback of a batch is called with: the error of an operation, or the one left over
      from an earlier batch if none has failed, or none. */
  ghost predicate Reported(r: Record, failure: Option<Failure>) {
    if exists k :: 0 <= k < |r.results| && r.results[k].Some? then
      forall k {:trigger r.results[k]} :: 0 <= k < |r.results| && r.results[k].Some? ==>
        failure == Some(RolledBack(r.results[k].value))
    else failure == if r.inherited.Some? then Some(RolledBack(r.inherited.value)) else None
  }

  /** The callback of an operation that was sent is called with that operation's error or none, those
      of the others with the error of the batch, which its own callback is called with as well. */
  ghost predicate Told(r: Record, e: Event) {
    match e
    case Sent(_, op) => op < |r.results|
    case OperationCallback(_, op, failure) =>
      if op < |r.results| then failure == if r.results[op].Some? then Some(Own(r.results[op].value)) else None
      else op < r.size && failure.Some? && Reported(r, failure)
    case BatchCallback(_, failure) => Reported(r, failure)
  }

  lemma {:induction false} LastErrorReported(r: Record)
    requires Complete(r)
    ensures Reported(r, BatchFailure(ErrorAfter(r.inherited, r.results)))
  {
    var n := |r.results| - 1;
    forall k | 0 <= k < n
      ensures r.results[k] == None
    {
      NoErrorBefore(r, k);
    }
    NoneFails(r.inherited, r.results[..n]);
  }

  lemma {:induction false} ToldInBatch(batch: nat, r: Record, i: nat)
    requires Complete(r) && i < |ClosedLog(batch, r)|
    ensures Told(r, ClosedLog(batch, r)[i])
  {
    LastErrorReported(r);
    StepsLength(batch, r.results);
    if i < 2 * |r.results| {
      StepsAt(batch, r.results, i / 2);
    }
  }

  lemma {:induction false} OwnErrorShown(batch: nat, r: Record, k: nat)
    requires Complete(r) && k < |r.results| && r.results[k].Some?
    ensures OwnErrorAt(ClosedLog(batch, r), 2 * k + 1, r.results[k].value)
  {
    StepsLength(batch, r.results);
    StepsAt(batch, r.results, k);
  }

  lemma {:induction false} OwnErrorFound(batch: nat, r: Record, i: nat, e: nat)
    requires Complete(r) && OwnErrorAt(ClosedLog(batch, r), i, e)
    ensures exists k :: 0 <= k < |r.results| && r.results[k] == Some(e)
  {
    ToldInBatch(batch, r, i);
    CallbacksOnce(batch, r, i);
    assert ClosedLog(batch, r)[i].op < |r.results| ==> r.results[ClosedLog(batch, r)[i].op] == Some(e);
  }

  /** In the log of a batch: its callback is called with an error if and only if that of an operation
      was called with the operation's own error or one was left over from an earlier batch; the
      error is that of the operation, or else the one left over. */
  lemma {:induction false} OwnOutcome(batch: nat, r: Record)
    requires Complete(r)
    ensures var log := ClosedLog(batch, r);
            var last := log[|log| - 1];
            && last.BatchCallback? && (last.failure.Some? <==> SomeOwnError(log) || r.inherited.Some?)
            && (forall i: nat, e: nat :: OwnErrorAt(log, i, e) ==> last.failure == Some(RolledBack(e)))
            && (!SomeOwnError(log) && r.inherited.Some? ==> last.failure == Some(RolledBack(r.inherited.value)))
  {
    var log := ClosedLog(batch, r);
    CallbacksOnce(batch, r, |log| - 1);
    ToldInBatch(batch, r, |log| - 1);
    if k :| 0 <= k < |r.results| && r.results[k].Some? {
      OwnErrorShown(batch, r, k);
    }
    forall i: nat, e: nat | OwnErrorAt(log, i, e)
      ensures exists k :: 0 <= k < |r.results| && r.results[k] == Some(e)
    {
      OwnErrorFound(batch, r, i, e);
    }
  }

  // ---------------------------------------------------------------- whole runs

  ghost predicate AllComplete(records: seq<Record>) {
    forall i :: 0 <= i < |records| ==> Complete(records[i])
  }

  /** All callbacks of all batches are called with the errors they should be. */
  lemma {:induction false} ErrorsTold(records: seq<Record>, i: nat)
    requires AllComplete(records) && i < |Logs(records)|
    ensures Logs(records)[i].batch < |records| && Told(records[Logs(records)[i].batch], Logs(records)[i])
  {
    var n := |records| - 1;
    assert Complete(records[n]);
    var before := Logs(records[..n]);
    if i < |before| {
      ErrorsTold(records[..n], i);
    } else {
      CallbacksOnce(n, records[n], i - |before|);
      ToldInBatch(n, records[n], i - |before|);
    }
  }

  /** Batches run in the order they were submitted. */
  lemma {:induction false} FirstComeFirstServed(records: seq<Record>, i: nat, j: nat)
    requires AllComplete(records) && i <= j < |Logs(records)|
    ensures Logs(records)[i].batch <= Logs(records)[j].batch < |records|
  {
    var n := |records| - 1;
    assert Complete(records[n]);
    var before, last := Logs(records[..n]), ClosedLog(n, records[n]);
    if j < |before| {
      FirstComeFirstServed(records[..n], i, j);
    } else {
      CallbacksOnce(n, records[n], j - |before|);
      if i < |before| {
        FirstComeFirstServed(records[..n], i, i);
      } else {
        CallbacksOnce(n, records[n], i - |before|);
      }
    }
  }

  /** At most one operation is with the server: the event after one is sent is its callback. */
  lemma {:induction false} AnsweredNext(records: seq<Record>, i: nat)
    requires AllComplete(records) && i < |Logs(records)| && Logs(records)[i].Sent?
    ensures CallbackAt(Logs(records), i + 1, Logs(records)[i].batch, Logs(records)[i].op)
  {
    var n := |records| - 1;
    assert Complete(records[n]);
    var before, last := Logs(records[..n]), ClosedLog(n, records[n]);
    if i < |before| {
      AnsweredNext(records[..n], i);
    } else {
      AnsweredInBatch(n, records[n], i - |before|);
    }
  }

  lemma {:induction false} AnsweredInBatch(batch: nat, r: Record, i: nat)
    requires Complete(r) && i < |ClosedLog(batch, r)| && ClosedLog(batch, r)[i].Sent?
    ensures ClosedLog(batch, r)[i].batch == batch
    ensures CallbackAt(ClosedLog(batch, r), i + 1, batch, ClosedLog(batch, r)[i].op)
  {
    CallbacksOnce(batch, r, i);
    StepsLength(batch, r.results);
    StepsAt(batch, r.results, i / 2);
  }

  /** Every batch calls back, and after all events of its own. */
  lemma {:induction false} BatchCallsBackLast(records: seq<Record>, b: nat) returns (i: nat)
    requires AllComplete(records) && b < |records|
    ensures i < |Logs(records)| && Logs(records)[i].BatchCallback? && Logs(records)[i].batch == b
    ensures forall j :: 0 <= j < |Logs(records)| && j != i && Logs(records)[j].batch == b ==>
              j < i && !Logs(records)[j].BatchCallback?
  {
    var n := |records| - 1;
    assert Complete(records[n]);
    var before, last := Logs(records[..n]), ClosedLog(n, records[n]);
    CallbacksOnce(n, records[n], 0);
    if b < n {
      i := BatchCallsBackLast(records[..n], b);
      forall j | |before| <= j < |Logs(records)|
        ensures Logs(records)[j].batch == n
      {
        CallbacksOnce(n, records[n], j - |before|);
      }
    } else {
      i := |before| + |last| - 1;
      CallbacksOnce(n, records[n], |last| - 1);
      forall j | 0 <= j < i && Logs(records)[j].batch == n
        ensures !Logs(records)[j].BatchCallback?
      {
        if j < |before| {
          FirstComeFirstServed(records[..n], j, j);
        } else {
          CallbacksOnce(n, records[n], j - |before|);
        }
      }
    }
  }
}
