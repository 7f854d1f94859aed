/** The batch queue of a transaction handler, for a connection in autocommit mode
    (jones-mysql/impl/MySQLConnection.js, TransactionHandler). */
module BatchQueue {
  import opened Options
  import opened BatchLogs

  /** A list of operations and the number of the batch whose callback goes with it. */
  datatype Batch = Batch(list: seq<nat>, number: nat)

  function Numbered(lists: seq<seq<nat>>, from: nat): seq<Batch> {
    seq(|lists|, i requires 0 <= i < |lists| => Batch(lists[i], from + i))
  }

  /** Lists submitted later are added behind those that wait. */
  lemma {:induction false} NumberedMore(lists: seq<seq<nat>>, more: seq<seq<nat>>, first: nat)
    requires first <= |lists|
    ensures Numbered((lists + more)[first..], first) == Numbered(lists[first..], first) + Numbered(more, |lists|)
  {
    assert (lists + more)[first..] == lists[first..] + more;
  }

  /** The first that waits, and the others. */
  lemma {:induction false} NumberedNext(lists: seq<seq<nat>>, first: nat)
    requires first < |lists|
    ensures var waiting := Numbered(lists[first..], first);
            waiting[0] == Batch(lists[first], first) && waiting[1..] == Numbered(lists[first + 1..], first + 1)
  {
  }

  ghost predicate NoneEmpty(lists: seq<seq<nat>>) {
    forall i {:trigger lists[i]} :: 0 <= i < |lists| ==> lists[i] != []
  }

  /** A batch that is done has a complete record, of as many operations as were submitted. */
  ghost predicate RecordedAt(history: seq<Record>, lists: seq<seq<nat>>, i: nat)
    requires i < |history| <= |lists|
  {
    Complete(history[i]) && history[i].size == |lists[i]|
  }

  ghost predicate AllRecorded(history: seq<Record>, lists: seq<seq<nat>>) {
    && |history| <= |lists| && AllComplete(history)
    && forall i {:trigger RecordedAt(history, lists, i)} :: 0 <= i < |history| ==> RecordedAt(history, lists, i)
  }

  lemma {:induction false} RecordedMore(history: seq<Record>, r: Record, lists: seq<seq<nat>>, more: seq<seq<nat>>)
    requires AllRecorded(history, lists)
    ensures AllRecorded(history, lists + more)
    ensures |history| < |lists| && Complete(r) && r.size == |lists[|history|]| ==>
              AllRecorded(history + [r], lists + more)
  {
    forall i | 0 <= i < |history|
      ensures RecordedAt(history, lists + more, i)
      ensures |history| < |lists| ==> RecordedAt(history + [r], lists + more, i)
    {
      assert RecordedAt(history, lists, i);
    }
  }

  /** The error that the last batch leaves behind. */
  function Leftover(history: seq<Record>): Option<nat> {
    if history == [] then None
    else
      var last := history[|history| - 1];
      ErrorAfter(last.inherited, last.results)
  }

  class TransactionHandler {
    /** The batches that callbacks submit by calling execute. */
    const client: Event -> seq<seq<nat>>

    var operationsList: seq<nat>
    var batch: nat
    var numberOfOperations: nat
    var currentOperation: nat
    var executedOperations: seq<nat>
    var pendingBatches: seq<Batch>
    var error: Option<nat>
    /** Batches submitted so far. */
    var submitted: nat

    /** All batches submitted, by their numbers. */
    ghost var lists: seq<seq<nat>>
    ghost var log: seq<Event>
    ghost var history: seq<Record>
    ghost var results: seq<Option<nat>>
    ghost var inherited: Option<nat>

    constructor (client: Event -> seq<seq<nat>>)
      requires forall e, i :: 0 <= i < |client(e)| ==> client(e)[i] != []
      ensures Valid() && this.client == client && submitted == 0 && numberOfOperations == 0
    {
      this.client := client;
      operationsList, batch, numberOfOperations, currentOperation := [], 0, 0, 0;
      executedOperations, pendingBatches, error, submitted := [], [], None, 0;
      lists, log, history, results, inherited := [], [], [], [], None;
    }

    ghost predicate ClientSubmitsOperations() {
      forall e, i :: 0 <= i < |client(e)| ==> client(e)[i] != []
    }

    ghost predicate HistoryComplete()
      reads this
    {
      AllRecorded(history, lists)
    }

    /** Batches are numbered as they were submitted; those that wait follow those that are done. */
    ghost predicate Queued(first: nat)
      reads this
    {
      && first <= |lists| == submitted && NoneEmpty(lists)
      && pendingBatches == Numbered(lists[first..], first)
    }

    /** The batch that is running is the one submitted with its number. */
    ghost predicate Current()
      reads this
    {
      && numberOfOperations == |operationsList| && batch == |history| && Queued(batch + 1)
      && operationsList == lists[batch]
    }

    /** An operation of the current batch is with the server. */
    ghost predicate Busy()
      reads this
    {
      && Current() && currentOperation == |results| == |executedOperations| < numberOfOperations
      && Going(inherited, results) && error == ErrorAfter(inherited, results)
      && HistoryComplete() && log == Logs(history) + OpenLog(batch, results)
    }

    /** All batches submitted so far are done. */
    ghost predicate Idle()
      reads this
    {
      && numberOfOperations == 0 && executedOperations == [] && pendingBatches == [] && Queued(|history|)
      && HistoryComplete() && log == Logs(history) && error == Leftover(history)
    }

    ghost predicate Valid()
      reads this
    {
      ClientSubmitsOperations() && (Busy() || Idle())
    }

    /** Sends the first operation of the batch. */
    method ExecuteOperations()
      requires operationsList != [] && executedOperations == []
      modifies this
      ensures numberOfOperations == |operationsList| && currentOperation == 0
      ensures results == [] && inherited == old(error) && log == old(log) + [Sent(batch, 0)]
      ensures unchanged(`operationsList, `batch, `executedOperations, `pendingBatches, `error, `submitted, `lists,
                        `history)
    {
      numberOfOperations := |operationsList|;
      currentOperation := 0;
      results, inherited := [], error;
      log := log + [Sent(batch, 0)];
    }

    /** Runs a batch, or puts it on the list if another one is running. */
    method Execute(list: seq<nat>)
      requires list != [] && (numberOfOperations > 0 || Valid())
      modifies this
      ensures submitted == old(submitted) + 1 && lists == old(lists) + [list]
      ensures old(numberOfOperations) > 0 ==>
                && pendingBatches == old(pendingBatches) + [Batch(list, old(submitted))]
                && unchanged(`operationsList, `batch, `numberOfOperations, `currentOperation, `executedOperations,
                             `error, `log, `history, `results, `inherited)
      ensures old(numberOfOperations) == 0 ==>
                Valid() && Busy() && batch == old(submitted) && operationsList == list && inherited == old(error)
                && log == old(log) + [Sent(batch, 0)]
    {
      if numberOfOperations > 0 {
        pendingBatches := pendingBatches + [Batch(list, submitted)];
        submitted, lists := submitted + 1, lists + [list];
      } else {
        operationsList := list;
        batch := submitted;
        assert |Numbered(lists[|history|..], |history|)| == |lists| - |history|;
        RecordedMore(history, Record(0, [], None), lists, [list]);
        submitted, lists := submitted + 1, lists + [list];
        assert Numbered(lists[batch + 1..], batch + 1) == [];
        ExecuteOperations();
        assert log == Logs(history) + OpenLog(batch, results);
      }
    }

    /** Calls a callback while a batch is running: what it submits has to wait. */
    method Call(event: Event)
      requires numberOfOperations > 0 && ClientSubmitsOperations()
      modifies this
      ensures log == old(log) + [event]
      ensures pendingBatches == old(pendingBatches) + Numbered(client(event), old(submitted))
      ensures submitted == old(submitted) + |client(event)| && lists == old(lists) + client(event)
      ensures old(Current() && HistoryComplete()) ==> Current() && HistoryComplete()
      ensures unchanged(`operationsList, `batch, `numberOfOperations, `currentOperation, `executedOperations,
                        `error, `history, `results, `inherited)
    {
      log := log + [event];
      var submits := client(event);
      for i := 0 to |submits|
        invariant pendingBatches == old(pendingBatches) + Numbered(submits[..i], old(submitted))
        invariant submitted == old(submitted) + i && log == old(log) + [event]
        invariant lists == old(lists) + submits[..i]
        invariant unchanged(`operationsList, `batch, `numberOfOperations, `currentOperation, `executedOperations,
                            `error, `history, `results, `inherited)
      {
        Execute(submits[i]);
        assert Numbered(submits[..i + 1], old(submitted))
               == Numbered(submits[..i], old(submitted)) + [Batch(submits[i], old(submitted) + i)];
      }
      assert submits[..|submits|] == submits;
      if old(Current() && HistoryComplete()) {
        NumberedMore(old(lists), submits, batch + 1);
        RecordedMore(history, Record(0, [], None), old(lists), submits);
      }
    }

    /** The current batch has run: its record goes into the history when its callback is called. */
    ghost predicate Finishing(r: Record)
      reads this
    {
      && Current() && numberOfOperations == r.size
      && Complete(r) && HistoryComplete() && error == ErrorAfter(r.inherited, r.results)
      && |executedOperations| == r.size
      && log + [BatchCallback(batch, BatchFailure(error))] == Logs(history) + ClosedLog(batch, r)
    }

    /** The batch calls back, and the next one in the list is started. */
    method BatchComplete(ghost r: Record)
      requires ClientSubmitsOperations() && Finishing(r) && r.size > 0
      modifies this
      ensures Valid() && history == old(history) + [r]
      ensures var failure := if old(error).Some? then Some(RolledBack(old(error).value)) else None;
              var event := BatchCallback(old(batch), failure);
              var queue := old(pendingBatches) + Numbered(client(event), old(submitted));
              && lists == old(lists) + client(event)
              && if queue == [] then Idle() && error == old(error)
                 else
                   && Busy() && inherited == None && results == [] && pendingBatches == queue[1..]
                   && operationsList == queue[0].list && batch == queue[0].number
    {
      Call(BatchCallback(batch, BatchFailure(error)));
      RecordedMore(history, r, lists, []);
      assert lists + [] == lists;
      history := history + [r];
      executedOperations := [];
      numberOfOperations := 0;
      assert history[..|history| - 1] == old(history);
      if pendingBatches != [] {
        StartNext();
      }
    }

    /** The first batch that waits is started, without an error. */
    method StartNext()
      requires ClientSubmitsOperations() && HistoryComplete() && log == Logs(history) && executedOperations == []
      requires pendingBatches != [] && Queued(|history|)
      modifies this
      ensures Busy() && inherited == None && results == [] && pendingBatches == old(pendingBatches)[1..]
      ensures operationsList == old(pendingBatches)[0].list && batch == old(pendingBatches)[0].number
      ensures unchanged(`history, `lists)
    {
      NumberedNext(lists, |history|);
      var nextBatch := pendingBatches[0];
      pendingBatches := pendingBatches[1..];
      operationsList := nextBatch.list;
      batch := nextBatch.number;
      error := None;
      ExecuteOperations();
    }

    /** The operation the server has answered has called back. */
    ghost predicate Answered(result: Option<nat>)
      reads this
    {
      && Current() && currentOperation == |results| == |executedOperations| < numberOfOperations
      && Going(inherited, results) && error == ErrorAfter(inherited, results) && HistoryComplete()
      && log == Logs(history) + Steps(batch, results + [result])
    }

    /** The server has answered: the operation's callback is called with its error or none. */
    method OperationComplete(result: Option<nat>)
      requires Valid() && Busy()
      modifies this
      ensures Valid()
      ensures
        || history == old(history) + [Record(old(|operationsList|), old(results) + [result], old(inherited))]
        || (Busy() && history == old(history) && results == old(results) + [result] && inherited == old(inherited))
    {
      assert results + [result] == (results + [result]) && (results + [result])[..|results|] == results;
      Call(OperationCallback(batch, currentOperation, OwnFailure(result)));
      OperationCompleteCallback(result);
    }

    method OperationCompleteCallback(result: Option<nat>)
      requires ClientSubmitsOperations() && Answered(result)
      modifies this
      ensures Valid()
      ensures
        || history == old(history) + [Record(old(|operationsList|), old(results) + [result], old(inherited))]
        || (Busy() && history == old(history) && results == old(results) + [result] && inherited == old(inherited))
    {
      ghost var record := Record(numberOfOperations, results + [result], inherited);
      assert record.results[..|results|] == results;
      if result.Some? {
        error := result;
      }
      executedOperations := executedOperations + [operationsList[currentOperation]];
      var complete := |executedOperations|;
      RecordComplete(record, results, result);
      if complete == numberOfOperations {
        AllDone(record);
      } else if error.Some? {
        currentOperation := currentOperation + 1;
        Abort(record);
      } else {
        SendNext(result);
      }
    }

    /** All operations have been sent and answered. */
    method AllDone(ghost record: Record)
      requires ClientSubmitsOperations() && error == ErrorAfter(record.inherited, record.results)
      requires Current() && numberOfOperations == record.size
      requires |record.results| == |executedOperations| == numberOfOperations
      requires Complete(record) && HistoryComplete() && log == Logs(history) + Steps(batch, record.results)
      modifies this
      ensures Valid() && history == old(history) + [record]
    {
      BatchComplete(record);
    }

    /** An error stops the batch. */
    method Abort(ghost record: Record)
      requires ClientSubmitsOperations() && error.Some? && error == ErrorAfter(record.inherited, record.results)
      requires Current() && numberOfOperations == record.size
      requires currentOperation == |record.results| == |executedOperations| < numberOfOperations
      requires Complete(record) && HistoryComplete() && log == Logs(history) + Steps(batch, record.results)
      modifies this
      ensures Valid() && history == old(history) + [record]
    {
      SkipOperations(record);
      BatchComplete(record);
    }

    /** The next operation of the batch is sent. */
    method SendNext(ghost result: Option<nat>)
      requires ClientSubmitsOperations() && error == None == ErrorAfter(inherited, results + [result])
      requires Current() && currentOperation == |results|
      requires |executedOperations| == currentOperation + 1 < numberOfOperations
      requires Going(inherited, results) && HistoryComplete()
      requires log == Logs(history) + Steps(batch, results + [result])
      modifies this`currentOperation, this`log, this`results
      ensures Busy() && results == old(results) + [result]
    {
      GoesOn(inherited, results, result);
      results := results + [result];
      currentOperation := currentOperation + 1;
      log := log + [Sent(batch, currentOperation)];
      assert log == Logs(history) + OpenLog(batch, results);
    }

    /** The remaining operations are not sent; their callbacks get the error. */
    method SkipOperations(ghost record: Record)
      requires ClientSubmitsOperations() && error.Some? && error == ErrorAfter(record.inherited, record.results)
      requires Current() && numberOfOperations == record.size
      requires currentOperation == |record.results| == |executedOperations| < numberOfOperations
      requires Complete(record) && HistoryComplete() && log == Logs(history) + Steps(batch, record.results)
      modifies this
      ensures Finishing(record)
      ensures unchanged(`history, `operationsList)
    {
      ghost var from, log0 := currentOperation, log;
      while currentOperation < numberOfOperations
        invariant Current() && numberOfOperations == record.size
        invariant from <= currentOperation == |executedOperations| <= numberOfOperations
        invariant unchanged(`history, `operationsList, `error) && HistoryComplete()
        invariant log == log0 + Skipped(batch, from, currentOperation, error.value)
      {
        ghost var before := log;
        var operation := operationsList[currentOperation];
        Call(OperationCallback(batch, currentOperation, Some(RolledBack(error.value))));
        executedOperations := executedOperations + [operation];
        assert Skipped(batch, from, currentOperation + 1, error.value) ==
               Skipped(batch, from, currentOperation, error.value)
               + [OperationCallback(batch, currentOperation, Some(RolledBack(error.value)))];
        currentOperation := currentOperation + 1;
      }
    }
  }

  /** A batch is finished with its last operation or an error. */
  lemma {:induction false} RecordComplete(r: Record, results: seq<Option<nat>>, result: Option<nat>)
    requires r.results == results + [result] && |r.results| <= r.size && Going(r.inherited, results)
    ensures ErrorAfter(r.inherited, r.results) == if result.Some? then result else ErrorAfter(r.inherited, results)
    ensures |r.results| == r.size || ErrorAfter(r.inherited, r.results).Some? ==> Complete(r)
  {
    assert r.results[..|results|] == results;
  }

  lemma {:induction false} GoesOn(inherited: Option<nat>, results: seq<Option<nat>>, result: Option<nat>)
    requires Going(inherited, results) && ErrorAfter(inherited, results + [result]) == None
    ensures Going(inherited, results + [result])
  {
    forall i | 0 < i <= |results| + 1
      ensures ErrorAfter(inherited, (results + [result])[..i]) == None
    {
      if i <= |results| {
        assert (results + [result])[..i] == results[..i];
      } else {
        assert (results + [result])[..i] == results + [result];
      }
    }
  }
}
