/** `PlayBook.create_snapshot`: ask the cluster to create a snapshot until it
    acknowledges, gives up on a missing repository, finds the snapshot made
    after all, or has failed with a transport error ten times, pausing a
    little longer (600 seconds more) after each failure.

    The client's answers to the successive create requests are a script.
    When the script runs out the run is `OutOfScript`: a reply that is not
    acknowledged and raises nothing neither counts as a failure nor pauses,
    so nothing bounds the number of requests in that case. */
module Snapshot {
  import opened Values
  import opened Cluster

  /** Transport failures after which `create_snapshot` gives up. */
  const MaxFailures := 10

  /** Seconds added to the pause after each transport failure. */
  const Backoff := 600

  datatype Outcome = Returned(created: bool) | Failed(error: Error) | OutOfScript

  datatype Run = Run(outcome: Outcome, calls: seq<Call>)

  function Prepend(calls: seq<Call>, r: Run): Run {
    Run(r.outcome, calls + r.calls)
  }

  /** The rest of `create_snapshot` when `_base_num` is `failures` and the
      next create requests are answered by `script`. */
  function SnapshotRun(repository: Value, name: Value, body: Value, script: seq<Attempt>, failures: nat): Run
    requires failures < MaxFailures
    decreases |script|
  {
    if script == [] then Run(OutOfScript, [])
    else
      var create := PutSnapshot(repository, name, body);
      match script[0]
      case Answered(result) =>
        if !result.Mapping? then Run(Failed(WrongType), [create])
        else if Acknowledged(result) then Run(Returned(true), [create])
        else Prepend([create], SnapshotRun(repository, name, body, script[1..], failures))
      case Missing => Run(Returned(false), [create])
      case Unavailable(lookup) =>
        var get := GetSnapshot(repository, name);
        match Fetched(lookup)
        case Err(e) => Run(Failed(e), [create, get])
        case Ok(found) =>
          if Truthy(found) then Run(Returned(true), [create, get])
          else
            var pause := [create, get, Sleep(Backoff * failures)];
            if failures + 1 >= MaxFailures then Run(Returned(false), pause)
            else Prepend(pause, SnapshotRun(repository, name, body, script[1..], failures + 1))
  }

  /** An answer that is not acknowledged: the next create request follows. */
  lemma UnacknowledgedNext(repository: Value, name: Value, body: Value, script: seq<Attempt>, i: nat, failures: nat)
    requires i < |script| && failures < MaxFailures
    requires script[i].Answered? && script[i].result.Mapping? && !Acknowledged(script[i].result)
    ensures SnapshotRun(repository, name, body, script[i..], failures) ==
      Prepend([PutSnapshot(repository, name, body)], SnapshotRun(repository, name, body, script[i + 1..], failures))
  {
    assert script[i..][0] == script[i] && script[i..][1..] == script[i + 1..];
  }

  /** A transport error for a snapshot that does not exist: a pause, then
      the next create request. */
  lemma UnavailableNext(repository: Value, name: Value, body: Value, script: seq<Attempt>, i: nat, failures: nat)
    requires i < |script| && failures + 1 < MaxFailures
    requires script[i].Unavailable? && Fetched(script[i].lookup).Ok? && !Truthy(Fetched(script[i].lookup).value)
    ensures SnapshotRun(repository, name, body, script[i..], failures) ==
      Prepend([PutSnapshot(repository, name, body), GetSnapshot(repository, name), Sleep(Backoff * failures)],
              SnapshotRun(repository, name, body, script[i + 1..], failures + 1))
  {
    assert script[i..][0] == script[i] && script[i..][1..] == script[i + 1..];
  }

  lemma PrependAssociates(a: seq<Call>, b: seq<Call>, r: Run)
    ensures Prepend(a, Prepend(b, r)) == Prepend(a + b, r)
  {
    assert a + (b + r.calls) == (a + b) + r.calls;
  }

  /** `PlayBook.create_snapshot(repository_name, snapshot_name, body)`. */
  method CreateSnapshot(repository: Value, name: Value, body: Value, script: seq<Attempt>) returns (r: Run)
    ensures r == SnapshotRun(repository, name, body, script, 0)
  {
    var baseNum := 0;
    var calls := [];
    var i := 0;
    while i < |script|
      invariant 0 <= i <= |script| && baseNum < MaxFailures
      invariant Prepend(calls, SnapshotRun(repository, name, body, script[i..], baseNum))
             == SnapshotRun(repository, name, body, script, 0)
    {
      var delay := Backoff * baseNum;
      var create := PutSnapshot(repository, name, body);
      var get := GetSnapshot(repository, name);
      assert script[i..][0] == script[i];
      match script[i] {
        case Answered(result) =>
          if !result.Mapping? {
            return Run(Failed(WrongType), calls + [create]);
          }
          if Acknowledged(result) {
            return Run(Returned(true), calls + [create]);
          }
          UnacknowledgedNext(repository, name, body, script, i, baseNum);
          PrependAssociates(calls, [create], SnapshotRun(repository, name, body, script[i + 1..], baseNum));
          calls := calls + [create];
        case Missing =>
          return Run(Returned(false), calls + [create]);
        case Unavailable(lookup) =>
          var found := Fetched(lookup);
          if found.Err? {
            return Run(Failed(found.error), calls + [create, get]);
          }
          if Truthy(found.value) {
            return Run(Returned(true), calls + [create, get]);
          }
          var pause := [create, get, Sleep(delay)];
          if baseNum + 1 >= MaxFailures {
            return Run(Returned(false), calls + pause);
          }
          UnavailableNext(repository, name, body, script, i, baseNum);
          PrependAssociates(calls, pause, SnapshotRun(repository, name, body, script[i + 1..], baseNum + 1));
          calls := calls + pause;
          baseNum := baseNum + 1;
      }
      i := i + 1;
    }
    r := Run(OutOfScript, calls);
  }

  // ---------------------------------------------------------------------------
  // Properties

  /** A missing repository returns False after exactly one create request. */
  lemma MissingRepositoryFails(repository: Value, name: Value, body: Value, script: seq<Attempt>, failures: nat)
    requires failures < MaxFailures
    ensures var r := SnapshotRun(repository, name, body, [Missing] + script, failures);
      r.outcome == Returned(false) && Creates(r.calls) == 1
  {
  }

  /** A transport error on a snapshot that exists after all returns True
      without another create request. */
  lemma ExistingSnapshotCreated(repository: Value, name: Value, body: Value, found: Value, script: seq<Attempt>, failures: nat)
    requires failures < MaxFailures && Truthy(found)
    ensures var r := SnapshotRun(repository, name, body, [Unavailable(Body(found))] + script, failures);
      r.outcome == Returned(true) && Creates(r.calls) == 1 && Sleeps(r.calls) == []
  {
  }

  /** What one request and, after a failure, its lookup and pause add to the counts. */
  lemma StepCounts(repository: Value, name: Value, body: Value, delay: nat)
    ensures Creates([PutSnapshot(repository, name, body)]) == 1
    ensures Sleeps([PutSnapshot(repository, name, body)]) == []
    ensures var pause := [PutSnapshot(repository, name, body), GetSnapshot(repository, name), Sleep(delay)];
      Creates(pause) == 1 && Sleeps(pause) == [delay]
  {
    var pause := [PutSnapshot(repository, name, body), GetSnapshot(repository, name), Sleep(delay)];
    var create := [PutSnapshot(repository, name, body)];
    var last := [Sleep(delay)];
    var tail := [GetSnapshot(repository, name), Sleep(delay)];
    assert create[1..] == [] && last[1..] == [];
    assert Creates(create) == 1 && Sleeps(create) == [];
    assert Creates(last) == 0 && Sleeps(last) == [delay];
    assert tail[1..] == last;
    assert Creates(tail) == 0 && Sleeps(tail) == [delay];
    assert pause[1..] == tail;
  }

  /** A transport failure the snapshot lookup confirms: the lookup finds nothing. */
  predicate Failure(a: Attempt) {
    a.Unavailable? && Fetched(a.lookup).Ok? && !Truthy(Fetched(a.lookup).value)
  }

  /** Pauses of 600 * n seconds for n = `failures`, `failures` + 1, ...,
      at most as many as the failures still allowed. */
  predicate Schedule(pauses: seq<int>, failures: nat)
    requires failures <= MaxFailures
  {
    |pauses| <= MaxFailures - failures && forall i | 0 <= i < |pauses| :: pauses[i] == Backoff * (failures + i)
  }

  /** A pause for the current failure in front of the schedule of the next ones. */
  lemma SchedulePause(pauses: seq<int>, failures: nat)
    requires failures + 1 < MaxFailures && Schedule(pauses, failures + 1)
    ensures Schedule([Backoff * failures] + pauses, failures)
  {
    forall i | 1 <= i < |pauses| + 1 ensures ([Backoff * failures] + pauses)[i] == Backoff * (failures + i) {
      assert ([Backoff * failures] + pauses)[i] == pauses[i - 1];
    }
  }

  /** A confirmed failure before the last one allowed: a pause, then the
      rest of the run one failure further on. */
  lemma FailureNext(repository: Value, name: Value, body: Value, script: seq<Attempt>, failures: nat)
    requires script != [] && Failure(script[0]) && failures + 1 < MaxFailures
    ensures SnapshotRun(repository, name, body, script, failures) ==
      Prepend([PutSnapshot(repository, name, body), GetSnapshot(repository, name), Sleep(Backoff * failures)],
              SnapshotRun(repository, name, body, script[1..], failures + 1))
  {
  }

  /** The first `m` answers are failures: so are the first `m - 1` after the first. */
  lemma FailuresShift(script: seq<Attempt>, m: nat)
    requires 0 < m <= |script|
    requires forall i | 0 <= i < m :: Failure(script[i])
    ensures Failure(script[0])
    ensures forall i | 0 <= i < m - 1 :: Failure(script[1..][i])
  {
    forall i | 0 <= i < m - 1 ensures Failure(script[1..][i]) {
      assert script[1..][i] == script[i + 1];
    }
  }

  /** Ten transport failures in a row (counting from `failures`) give up with
      False after exactly that many create requests, pausing 600 seconds
      longer each time. */
  lemma {:induction false} GivesUpAfterTenFailures(repository: Value, name: Value, body: Value, script: seq<Attempt>, failures: nat)
    requires failures < MaxFailures
    requires |script| >= MaxFailures - failures
    requires forall i | 0 <= i < MaxFailures - failures :: Failure(script[i])
    ensures var r := SnapshotRun(repository, name, body, script, failures);
      && r.outcome == Returned(false)
      && Creates(r.calls) == MaxFailures - failures
      && |Sleeps(r.calls)| == MaxFailures - failures && Schedule(Sleeps(r.calls), failures)
    decreases MaxFailures - failures
  {
    var pause := [PutSnapshot(repository, name, body), GetSnapshot(repository, name), Sleep(Backoff * failures)];
    FailuresShift(script, MaxFailures - failures);
    StepCounts(repository, name, body, Backoff * failures);
    if failures + 1 < MaxFailures {
      GivesUpAfterTenFailures(repository, name, body, script[1..], failures + 1);
      FailureNext(repository, name, body, script, failures);
      var rest := SnapshotRun(repository, name, body, script[1..], failures + 1);
      CountsConcat(pause, rest.calls);
      SchedulePause(Sleeps(rest.calls), failures);
    }
  }

  /** From the start: ten failures give up after ten requests, having paused
      0, 600, ..., 5400 seconds. */
  lemma TenFailuresFromStart(repository: Value, name: Value, body: Value, script: seq<Attempt>)
    requires |script| >= MaxFailures
    requires forall i | 0 <= i < MaxFailures :: Failure(script[i])
    ensures var r := SnapshotRun(repository, name, body, script, 0);
      && r.outcome == Returned(false)
      && Creates(r.calls) == 10
      && Sleeps(r.calls) == [0, 600, 1200, 1800, 2400, 3000, 3600, 4200, 4800, 5400]
  {
    GivesUpAfterTenFailures(repository, name, body, script, 0);
    var s := Sleeps(SnapshotRun(repository, name, body, script, 0).calls);
    assert s[0] == 0 && s[1] == 600 && s[2] == 1200 && s[3] == 1800 && s[4] == 2400;
    assert s[5] == 3000 && s[6] == 3600 && s[7] == 4200 && s[8] == 4800 && s[9] == 5400;
  }

  /** However the cluster answers, the pauses are 600 * n for n = the
      failures so far, one per failure, never more than ten of them. */
  lemma {:induction false} BackoffSchedule(repository: Value, name: Value, body: Value, script: seq<Attempt>, failures: nat)
    requires failures < MaxFailures
    ensures Schedule(Sleeps(SnapshotRun(repository, name, body, script, failures).calls), failures)
    decreases |script|
  {
    if script == [] {
    } else if script[0].Answered? && script[0].result.Mapping? && !Acknowledged(script[0].result) {
      assert script[0..] == script;
      UnacknowledgedNext(repository, name, body, script, 0, failures);
      var rest := SnapshotRun(repository, name, body, script[1..], failures);
      BackoffSchedule(repository, name, body, script[1..], failures);
      StepCounts(repository, name, body, 0);
      CountsConcat([PutSnapshot(repository, name, body)], rest.calls);
    } else if Failure(script[0]) && failures + 1 < MaxFailures {
      FailureNext(repository, name, body, script, failures);
      var rest := SnapshotRun(repository, name, body, script[1..], failures + 1);
      BackoffSchedule(repository, name, body, script[1..], failures + 1);
      StepCounts(repository, name, body, Backoff * failures);
      CountsConcat([PutSnapshot(repository, name, body), GetSnapshot(repository, name), Sleep(Backoff * failures)], rest.calls);
      SchedulePause(Sleeps(rest.calls), failures);
    } else {
      BackoffLastStep(repository, name, body, script, failures);
    }
  }

  /** A run that ends at its first answer pauses at most once, for the
      current failure. */
  lemma BackoffLastStep(repository: Value, name: Value, body: Value, script: seq<Attempt>, failures: nat)
    requires failures < MaxFailures && script != []
    requires !(script[0].Answered? && script[0].result.Mapping? && !Acknowledged(script[0].result))
    requires !(Failure(script[0]) && failures + 1 < MaxFailures)
    ensures Schedule(Sleeps(SnapshotRun(repository, name, body, script, failures).calls), failures)
  {
    var create := PutSnapshot(repository, name, body);
    var get := GetSnapshot(repository, name);
    StepCounts(repository, name, body, Backoff * failures);
    assert Sleeps([create, get]) == [] by {
      assert [create, get][1..] == [get] && [create, get][1..][1..] == [];
    }
  }

  /** The confirmed failures among `answers`. */
  function FailureCount(answers: seq<Attempt>): (n: nat)
    ensures n <= |answers|
    decreases |answers|
  {
    if answers == [] then 0 else (if Failure(answers[0]) then 1 else 0) + FailureCount(answers[1..])
  }

  /** One answer in front of the rest of the answers consumed. */
  lemma FailureCountCons(script: seq<Attempt>, c: nat)
    requires c < |script|
    ensures FailureCount(script[..c + 1]) == (if Failure(script[0]) then 1 else 0) + FailureCount(script[1..][..c])
  {
    assert script[..c + 1][0] == script[0];
    assert script[..c + 1][1..] == script[1..][..c];
  }

  /** Each create request consumes one answer, and the run pauses once for
      every confirmed failure among the answers it consumed, and at no
      other time. */
  lemma {:induction false} OnePausePerFailure(repository: Value, name: Value, body: Value, script: seq<Attempt>, failures: nat)
    requires failures < MaxFailures
    ensures var r := SnapshotRun(repository, name, body, script, failures);
      Creates(r.calls) <= |script| && |Sleeps(r.calls)| == FailureCount(script[..Creates(r.calls)])
    decreases |script|, 1
  {
    if script == [] {
    } else if script[0].Answered? && script[0].result.Mapping? && !Acknowledged(script[0].result) {
      PausesAfterUnacknowledged(repository, name, body, script, failures);
    } else if Failure(script[0]) && failures + 1 < MaxFailures {
      PausesAfterFailure(repository, name, body, script, failures);
    } else {
      PausesAtLastStep(repository, name, body, script, failures);
    }
  }

  lemma {:induction false} PausesAfterUnacknowledged(repository: Value, name: Value, body: Value, script: seq<Attempt>, failures: nat)
    requires failures < MaxFailures && script != []
    requires script[0].Answered? && script[0].result.Mapping? && !Acknowledged(script[0].result)
    ensures var r := SnapshotRun(repository, name, body, script, failures);
      Creates(r.calls) <= |script| && |Sleeps(r.calls)| == FailureCount(script[..Creates(r.calls)])
    decreases |script|, 0
  {
    assert script[0..] == script;
    UnacknowledgedNext(repository, name, body, script, 0, failures);
    var rest := SnapshotRun(repository, name, body, script[1..], failures);
    OnePausePerFailure(repository, name, body, script[1..], failures);
    StepCounts(repository, name, body, 0);
    CountsConcat([PutSnapshot(repository, name, body)], rest.calls);
    FailureCountCons(script, Creates(rest.calls));
  }

  lemma {:induction false} PausesAfterFailure(repository: Value, name: Value, body: Value, script: seq<Attempt>, failures: nat)
    requires failures + 1 < MaxFailures && script != [] && Failure(script[0])
    ensures var r := SnapshotRun(repository, name, body, script, failures);
      Creates(r.calls) <= |script| && |Sleeps(r.calls)| == FailureCount(script[..Creates(r.calls)])
    decreases |script|, 0
  {
    FailureNext(repository, name, body, script, failures);
    var rest := SnapshotRun(repository, name, body, script[1..], failures + 1);
    OnePausePerFailure(repository, name, body, script[1..], failures + 1);
    StepCounts(repository, name, body, Backoff * failures);
    CountsConcat([PutSnapshot(repository, name, body), GetSnapshot(repository, name), Sleep(Backoff * failures)], rest.calls);
    FailureCountCons(script, Creates(rest.calls));
  }

  /** A run that ends at its first answer pauses exactly when that answer is
      a confirmed failure. */
  lemma PausesAtLastStep(repository: Value, name: Value, body: Value, script: seq<Attempt>, failures: nat)
    requires failures < MaxFailures && script != []
    requires !(script[0].Answered? && script[0].result.Mapping? && !Acknowledged(script[0].result))
    requires !(Failure(script[0]) && failures + 1 < MaxFailures)
    ensures var r := SnapshotRun(repository, name, body, script, failures);
      Creates(r.calls) <= |script| && |Sleeps(r.calls)| == FailureCount(script[..Creates(r.calls)])
  {
    var create := PutSnapshot(repository, name, body);
    var get := GetSnapshot(repository, name);
    StepCounts(repository, name, body, Backoff * failures);
    assert Sleeps([create, get]) == [] by {
      assert [create, get][1..] == [get] && [create, get][1..][1..] == [];
    }
    FailureCountCons(script, 0);
  }

  /** A reply that is neither acknowledged nor an error does not advance the
      failure count and does not pause: a cluster that keeps answering that
      way keeps `create_snapshot` asking for as long as it answers. */
  lemma {:induction false} UnacknowledgedNeverGivesUp(repository: Value, name: Value, body: Value, script: seq<Attempt>, failures: nat)
    requires failures < MaxFailures
    requires forall a | a in script :: a.Answered? && a.result.Mapping? && !Acknowledged(a.result)
    ensures var r := SnapshotRun(repository, name, body, script, failures);
      r.outcome == OutOfScript && Creates(r.calls) == |script| && Sleeps(r.calls) == []
    decreases |script|
  {
    if script != [] {
      assert script[0] in script;
      assert forall a | a in script[1..] :: a in script;
      UnacknowledgedNeverGivesUp(repository, name, body, script[1..], failures);
      var rest := SnapshotRun(repository, name, body, script[1..], failures);
      StepCounts(repository, name, body, 0);
      CountsConcat([PutSnapshot(repository, name, body)], rest.calls);
    }
  }

  /** An acknowledgement after fewer than ten failures returns True, with one
      create request per answer. */
  lemma {:induction false} AcknowledgedAfterFailures(repository: Value, name: Value, body: Value, script: seq<Attempt>, n: nat, failures: nat)
    requires failures + n < MaxFailures && n < |script|
    requires forall i | 0 <= i < n :: Failure(script[i])
    requires script[n].Answered? && script[n].result.Mapping? && Acknowledged(script[n].result)
    ensures var r := SnapshotRun(repository, name, body, script, failures);
      r.outcome == Returned(true) && Creates(r.calls) == n + 1
    decreases n
  {
    if n > 0 {
      var pause := [PutSnapshot(repository, name, body), GetSnapshot(repository, name), Sleep(Backoff * failures)];
      FailuresShift(script, n);
      assert script[1..][n - 1] == script[n];
      AcknowledgedAfterFailures(repository, name, body, script[1..], n - 1, failures + 1);
      FailureNext(repository, name, body, script, failures);
      StepCounts(repository, name, body, Backoff * failures);
      CountsConcat(pause, SnapshotRun(repository, name, body, script[1..], failures + 1).calls);
    } else {
      AcknowledgedFirst(repository, name, body, script, failures);
      StepCounts(repository, name, body, 0);
    }
  }

  /** An acknowledged first answer ends the run after one request. */
  lemma AcknowledgedFirst(repository: Value, name: Value, body: Value, script: seq<Attempt>, failures: nat)
    requires failures < MaxFailures && script != []
    requires script[0].Answered? && script[0].result.Mapping? && Acknowledged(script[0].result)
    ensures SnapshotRun(repository, name, body, script, failures) == Run(Returned(true), [PutSnapshot(repository, name, body)])
  {
  }
}
