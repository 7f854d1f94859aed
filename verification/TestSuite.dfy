/** Scheduling the tests of a suite (jones-test/lib/Suite.js): a smoke test, concurrent tests, serial
    tests, and a test that clears up, in whatever order tests complete. */
module TestSuite {

  const SMOKE: nat := 0
  const CONCURRENT: nat := 1
  const SERIAL: nat := 2
  const CLEAR: nat := 3

  /** Tests are known by their phases, in the order of the sorted list. */
  predicate Sorted(phases: seq<nat>) {
    && (forall i :: 0 <= i < |phases| ==> phases[i] <= CLEAR)
    && (forall i, j :: 0 <= i < j < |phases| ==> phases[i] <= phases[j])
    && (forall i, j :: 0 <= i < j < |phases| ==>
       phases[i] != phases[j] || phases[i] == CONCURRENT || phases[i] == SERIAL)
  }

  /** How many of the first n tests come before a phase. */
  function Before(phases: seq<nat>, phase: nat): nat {
    if phases == [] then 0
    else Before(phases[..|phases| - 1], phase) + if phases[|phases| - 1] < phase then 1 else 0
  }

  lemma {:induction false} BeforeIsIndex(phases: seq<nat>, phase: nat)
    requires forall i, j :: 0 <= i < j < |phases| ==> phases[i] <= phases[j]
    ensures Before(phases, phase) <= |phases|
    ensures forall i :: 0 <= i < |phases| ==> (phases[i] < phase <==> i < Before(phases, phase))
  {
    if phases != [] {
      BeforeIsIndex(phases[..|phases| - 1], phase);
    }
  }

  lemma {:induction false} BeforeMonotone(phases: seq<nat>, phase: nat, later: nat)
    requires phase <= later
    ensures Before(phases, phase) <= Before(phases, later) <= |phases|
  {
    if phases != [] {
      BeforeMonotone(phases[..|phases| - 1], phase, later);
    }
  }

  lemma {:induction false} Alone(phases: seq<nat>, i: nat, j: nat)
    requires Sorted(phases) && i < j < |phases|
    ensures CONCURRENT <= phases[j] && phases[i] <= SERIAL
  {
  }

  lemma {:induction false} PhasesPartition(phases: seq<nat>)
    requires Sorted(phases)
    ensures Before(phases, CONCURRENT) <= Before(phases, SERIAL) <= Before(phases, CLEAR) <= |phases|
    ensures Before(phases, CONCURRENT) <= 1 && |phases| <= Before(phases, CLEAR) + 1
    ensures forall i :: 0 <= i < |phases| ==> (phases[i] < CONCURRENT <==> i < Before(phases, CONCURRENT))
    ensures forall i :: 0 <= i < |phases| ==> (phases[i] < SERIAL <==> i < Before(phases, SERIAL))
    ensures forall i :: 0 <= i < |phases| ==> (phases[i] < CLEAR <==> i < Before(phases, CLEAR))
  {
    BeforeIsIndex(phases, CONCURRENT);
    BeforeIsIndex(phases, SERIAL);
    BeforeIsIndex(phases, CLEAR);
    BeforeMonotone(phases, CONCURRENT, SERIAL);
    BeforeMonotone(phases, SERIAL, CLEAR);
    if Before(phases, CONCURRENT) > 1 {
      Alone(phases, 0, 1);
    }
    if Before(phases, CLEAR) + 1 < |phases| {
      Alone(phases, Before(phases, CLEAR), Before(phases, CLEAR) + 1);
    }
  }

  /** How many tests from lo to hi are done. */
  function Count(done: seq<bool>, lo: nat, hi: nat): nat
    requires lo <= hi <= |done|
  {
    if hi == lo then 0 else Count(done, lo, hi - 1) + if done[hi - 1] then 1 else 0
  }

  lemma {:induction false} CountAll(done: seq<bool>, lo: nat, hi: nat)
    requires lo <= hi <= |done|
    ensures Count(done, lo, hi) <= hi - lo
    ensures Count(done, lo, hi) == hi - lo <==> forall i :: lo <= i < hi ==> done[i]
  {
    if lo < hi {
      CountAll(done, lo, hi - 1);
    }
  }

  lemma {:induction false} CountStep(done: seq<bool>, lo: nat, hi: nat, i: nat)
    requires lo <= hi <= |done| && i < |done| && !done[i]
    ensures Count(done[i := true], lo, hi) == Count(done, lo, hi) + if lo <= i < hi then 1 else 0
  {
    if lo < hi {
      CountStep(done, lo, hi - 1, i);
    }
  }

  /** The first n tests are as done in both. */
  predicate Same(before: seq<bool>, after: seq<bool>, n: nat) {
    n <= |before| == |after| && forall k :: 0 <= k < n ==> before[k] == after[k]
  }

  class Suite {
    const phases: seq<nat>
    /** Does a test complete before the call that starts it returns? */
    const completesAtOnce: nat -> bool
    /** Has a smoke test that has completed failed, or been skipped? */
    const failing: bool

    var smokeTestHasFailed: bool
    var numberOfConcurrentTestsCompleted: nat
    /** Tests are started in the order of the list: so many have been. */
    ghost var started: nat
    ghost var done: seq<bool>
    ghost var skipped: seq<bool>
    /** How often testCompleted has returned true. */
    ghost var finished: nat

    /** Where the concurrent tests, the serial tests and the clearing test begin. */
    const firstConcurrent: nat
    const firstSerial: nat
    const firstClear: nat

    constructor (phases: seq<nat>, completesAtOnce: nat -> bool, failing: bool)
      requires Sorted(phases)
      ensures this.phases == phases && this.completesAtOnce == completesAtOnce && this.failing == failing
      ensures Inv() && started == 0 && finished == 0
    {
      this.phases, this.completesAtOnce, this.failing := phases, completesAtOnce, failing;
      smokeTestHasFailed, numberOfConcurrentTestsCompleted := false, 0;
      started, finished := 0, 0;
      done := seq(|phases|, _ => false);
      skipped := seq(|phases|, _ => false);
      firstConcurrent := Before(phases, CONCURRENT);
      firstSerial := Before(phases, SERIAL);
      firstClear := Before(phases, CLEAR);
      new;
      PhasesPartition(phases);
      NoneDone(done, firstConcurrent, firstSerial);
    }

    ghost predicate Phased() {
      && firstConcurrent <= firstSerial <= firstClear <= |phases|
      && firstConcurrent <= 1 && |phases| <= firstClear + 1
      && forall i :: 0 <= i < |phases| ==>
           && (phases[i] == SMOKE <==> i < firstConcurrent)
           && (phases[i] == CONCURRENT <==> firstConcurrent <= i < firstSerial)
           && (phases[i] == SERIAL <==> firstSerial <= i < firstClear)
           && (phases[i] == CLEAR <==> firstClear <= i)
    }

    ghost predicate AllDone(n: nat)
      reads this
    {
      n <= |done| && forall i :: 0 <= i < n ==> done[i]
    }

    /** A concurrent test is only started when the smoke test is done; a serial one or the last one
        only when all tests before it are. If the smoke test has failed those between are skipped, but
        the clearing test is not. */
    ghost predicate InOrder()
      reads this
    {
      && Phased() && |done| == |skipped| == |phases| && started <= |phases|
      && (forall i :: started <= i < |done| ==> !done[i])
      && (started > firstConcurrent ==> AllDone(firstConcurrent))
      && (started > firstSerial ==> AllDone(started - 1))
      && (forall i :: firstConcurrent <= i < firstClear && i < started ==> skipped[i] == smokeTestHasFailed)
      && (forall i :: 0 <= i < started && (i < firstConcurrent || firstClear <= i) ==> !skipped[i])
    }

    ghost predicate Inv()
      reads this
    {
      && InOrder()
      && smokeTestHasFailed == (firstConcurrent > 0 && done[0] && failing)
      && numberOfConcurrentTestsCompleted == Count(done, firstConcurrent, firstSerial)
    }

    /** Either all tests are done, and that has been reported once, or some test is running; while
        concurrent tests are being started there may be none for a moment. */
    ghost predicate Going()
      reads this
    {
      Inv() && if AllDone(|phases|) then finished == 1
               else finished == 0 && ((exists i :: 0 <= i < started && !done[i])
                                      || firstConcurrent <= started < firstSerial)
    }

    /** What holds whenever no call is under way: some test is running, or all are done. */
    ghost predicate Waiting()
      reads this
    {
      && (started <= firstConcurrent || firstSerial <= started)
      && Inv() && if AllDone(|phases|) then finished == 1
                  else finished == 0 && exists i :: 0 <= i < started && !done[i]
    }

    /** Of two tests that have been started, the earlier is done unless both are concurrent. */
    lemma TakeTurns(i: nat, j: nat)
      requires Waiting() && i < j < started
      requires phases[i] != CONCURRENT || phases[j] != CONCURRENT
      ensures done[i]
    {
      if i < firstConcurrent {
        assert AllDone(firstConcurrent);
      } else {
        assert firstSerial <= j < started;
        assert AllDone(started - 1);
      }
    }

    /** Of the tests that have been started, the concurrent and the serial ones are skipped if there
        is a smoke test that has failed, and no others. */
    lemma SkippedIff(i: nat)
      requires Waiting() && i < started
      ensures skipped[i] <==> (phases[i] == CONCURRENT || phases[i] == SERIAL) && phases[0] == SMOKE && failing
    {
      if firstConcurrent <= i < firstClear {
        assert AllDone(firstConcurrent);
      }
    }

    /** Starts the tests; without any there is nothing to wait for. */
    method RunTests() returns (running: bool)
      requires Inv() && started == 0 && finished == 0
      modifies this
      ensures running <==> phases != []
      ensures running ==> Waiting()
    {
      if |phases| == 0 {
        return false;
      }
      match phases[0] {
        case 1 => var last := StartConcurrentTests();
        case 2 => var last := StartSerialTests();
        case _ => Start(0, false);
      }
      running := true;
    }

    /** A running test completes, in whatever order tests do. */
    method Completed(i: nat)
      requires Waiting() && i < started && !done[i]
      modifies this
      ensures Same(old(done)[i := true], done, old(started))
      ensures Waiting() && started >= old(started)
    {
      Complete(i);
    }

    /** Starts the next test of the list. */
    method Start(i: nat, skip: bool)
      requires Inv() && i == started < |phases| && finished == 0
      requires i >= firstConcurrent ==> AllDone(firstConcurrent)
      requires i >= firstSerial ==> AllDone(i)
      requires skip == (firstConcurrent <= i < firstClear && smokeTestHasFailed)
      modifies this
      ensures Same(old(done), done, i)
      ensures Going() && started > i
      ensures firstConcurrent <= i && i + 1 < firstSerial ==> started == i + 1 && finished == 0
      ensures i < firstConcurrent ==> Waiting()
      ensures i >= firstConcurrent ==> smokeTestHasFailed == old(smokeTestHasFailed)
      decreases |phases| - started, 0
    {
      started := started + 1;
      skipped := skipped[i := skip];
      assert i < started && !done[i];
      if completesAtOnce(i) {
        Complete(i);
      }
    }

    /** A running test completes. */
    method Complete(i: nat)
      requires Inv() && i < started && !done[i] && finished == 0
      modifies this
      ensures Same(old(done)[i := true], done, old(started))
      ensures Going() && started >= old(started)
      ensures firstConcurrent <= i && old(started) < firstSerial ==> started == old(started) && finished == 0
      ensures i < firstConcurrent ==> firstSerial <= started
      ensures i >= firstConcurrent ==> smokeTestHasFailed == old(smokeTestHasFailed)
      decreases |phases| - started, 5
    {
      var isDone := TestCompleted(i);
      if isDone {
        finished := finished + 1;
      }
    }

    ghost method Mark(i: nat)
      requires Inv() && i < started && !done[i] && finished == 0
      modifies this`done
      ensures InOrder() && done == old(done)[i := true]
      ensures old(started) > firstSerial ==> AllDone(started)
      ensures i < firstConcurrent ==> started == firstConcurrent && AllDone(firstConcurrent)
      ensures Count(done, firstConcurrent, firstSerial)
           == numberOfConcurrentTestsCompleted + if firstConcurrent <= i < firstSerial then 1 else 0
    {
      CountStep(done, firstConcurrent, firstSerial, i);
      done := done[i := true];
    }

    method TestCompleted(i: nat) returns (complete: bool)
      requires Inv() && i < started && !done[i] && finished == 0
      modifies this
      ensures Same(old(done)[i := true], done, old(started))
      ensures if complete then Inv() && AllDone(|phases|) && finished == 0 else Going()
      ensures started >= old(started)
      ensures firstConcurrent <= i && old(started) < firstSerial ==>
                !complete && started == old(started) && finished == 0
      ensures i < firstConcurrent ==> firstSerial <= started
      ensures i >= firstConcurrent ==> smokeTestHasFailed == old(smokeTestHasFailed)
      decreases |phases| - started, 4
    {
      Mark(i);
      match phases[i] {
        case 0 =>
          smokeTestHasFailed := failing;
          complete := StartConcurrentTests();
        case 1 =>
          numberOfConcurrentTestsCompleted := numberOfConcurrentTestsCompleted + 1;
          complete := AfterConcurrentTest();
        case 2 => complete := AfterSerialTest(i);
        case _ => complete := true;
      }
    }

    method AfterConcurrentTest() returns (complete: bool)
      requires Inv() && firstConcurrent < started && finished == 0
      requires started <= firstSerial
      requires firstConcurrent < firstSerial
      modifies this
      ensures Same(old(done), done, old(started))
      ensures if complete then Inv() && AllDone(|phases|) && finished == 0 else Going()
      ensures started >= old(started)
      ensures old(started) < firstSerial ==> !complete && started == old(started) && finished == 0
      ensures smokeTestHasFailed == old(smokeTestHasFailed)
      decreases |phases| - started, 3
    {
      CountAll(done, firstConcurrent, firstSerial);
      if numberOfConcurrentTestsCompleted == firstSerial - firstConcurrent {
        complete := StartSerialTests();
      } else {
        ghost var k :| firstConcurrent <= k < firstSerial && !done[k];
        complete := false;
      }
    }

    method AfterSerialTest(i: nat) returns (complete: bool)
      requires Inv() && firstSerial <= i < firstClear && started == i + 1 && AllDone(i + 1) && finished == 0
      modifies this
      ensures Same(old(done), done, old(started))
      ensures if complete then Inv() && AllDone(|phases|) && finished == 0 else Going()
      ensures started >= old(started)
      ensures smokeTestHasFailed == old(smokeTestHasFailed)
      decreases |phases| - started, 3
    {
      var index := i + 1;
      if index < |phases| {
        if phases[index] == SERIAL {
          Start(index, smokeTestHasFailed);
        } else {
          var last := StartClearSmokeTest();
        }
        complete := false;
      } else {
        complete := true;
      }
    }

    method StartConcurrentTests() returns (complete: bool)
      requires Inv() && started == firstConcurrent && AllDone(firstConcurrent) && finished == 0
      modifies this
      ensures Same(old(done), done, old(started))
      ensures if complete then Inv() && AllDone(|phases|) && finished == 0 else Going()
      ensures complete <==> firstConcurrent == |phases|
      ensures started >= firstSerial && smokeTestHasFailed == old(smokeTestHasFailed)
      decreases |phases| - started, 3
    {
      if firstConcurrent < firstSerial {
        for i := firstConcurrent to firstSerial
          invariant Inv() && smokeTestHasFailed == old(smokeTestHasFailed) && Same(old(done), done, firstConcurrent)
          invariant i < firstSerial ==> started == i && finished == 0
          invariant firstConcurrent <= started && AllDone(firstConcurrent)
          invariant i == firstSerial ==> Going() && started >= firstSerial
        {
          Start(i, smokeTestHasFailed);
        }
        return false;
      }
      complete := StartSerialTests();
    }

    method StartSerialTests() returns (complete: bool)
      requires Inv() && started == firstSerial && AllDone(firstSerial) && finished == 0
      modifies this
      ensures Same(old(done), done, old(started))
      ensures if complete then Inv() && AllDone(|phases|) && finished == 0 else Going()
      ensures complete <==> firstSerial == |phases|
      ensures started >= old(started) && smokeTestHasFailed == old(smokeTestHasFailed)
      decreases |phases| - started, 2
    {
      if firstSerial < firstClear {
        Start(firstSerial, smokeTestHasFailed);
        return false;
      }
      complete := StartClearSmokeTest();
    }

    /** The clearing test is run even if the smoke test has failed. */
    method StartClearSmokeTest() returns (complete: bool)
      requires Inv() && started == firstClear && AllDone(firstClear) && finished == 0
      modifies this
      ensures Same(old(done), done, old(started))
      ensures if complete then Inv() && AllDone(|phases|) && finished == 0 else Going()
      ensures complete <==> firstClear == |phases|
      ensures started >= old(started) && smokeTestHasFailed == old(smokeTestHasFailed)
      decreases |phases| - started, 1
    {
      if firstClear < |phases| {
        Start(firstClear, false);
        return false;
      }
      return true;
    }
  }

  lemma {:induction false} NoneDone(done: seq<bool>, lo: nat, hi: nat)
    requires lo <= hi <= |done| && forall i :: 0 <= i < |done| ==> !done[i]
    ensures Count(done, lo, hi) == 0
  {
    if lo < hi {
      NoneDone(done, lo, hi - 1);
    }
  }
}
