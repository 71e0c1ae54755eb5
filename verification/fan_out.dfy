/**
 * Completion of one broadcast. Every snapshotted socket gets one write of
 * the same line; the writes report back in some order, each once. The
 * completion rule is that of the `async.each` join the log call uses: an
 * empty list completes at once; the first failed leg completes the join with
 * an error; otherwise the join completes when the last leg succeeds. On
 * completion the server emits 'logged' and then calls back with a null error
 * and a success flag that is the negation of the join's error.
 */
module FanOut {
  import opened Wrappers

  /** How one write (one leg of the broadcast) ended. */
  datatype Outcome = Ok | Err

  /** The join's state after some legs have reported. `settled` is how many
      reports had arrived when it completed. */
  datatype Join = Pending | Done(settled: nat, failed: bool)

  /** What the log call makes observable on completion. The callback's first
      argument is the error slot, always null here. */
  datatype Event = Logged | Callback(error: Option<string>, success: bool)

  predicate AllOk(reports: seq<Outcome>) {
    forall i :: 0 <= i < |reports| ==> reports[i] == Ok
  }

  /** The join over `legs` writes once `reports` (in arrival order) have
      come in. No legs: complete at once without error. Complete: with an
      error iff a report received by then failed. Pending: no failure yet and
      fewer reports than legs. */
  function JoinAfter(legs: nat, reports: seq<Outcome>): (j: Join)
    ensures legs == 0 ==> j == Done(0, false)
    ensures j.Done? ==> j.settled <= |reports| && (j.failed <==> Err in reports[..j.settled])
    ensures j.Pending? ==> Err !in reports && |reports| < legs
  {
    if legs == 0 then Done(0, false) else Await(legs, reports, 0)
  }

  /** Waiting for `need` more successes, `seen` reports already counted. */
  function Await(need: nat, reports: seq<Outcome>, seen: nat): (j: Join)
    requires need > 0
    ensures j.Done? ==> seen < j.settled <= seen + |reports|
    ensures j.Done? ==> (j.failed <==> Err in reports[..j.settled - seen])
    ensures j.Pending? ==> Err !in reports && |reports| < need
    decreases |reports|
  {
    if reports == [] then Pending
    else if reports[0] == Err then
      assert reports[..1] == [Err];
      Done(seen + 1, true)
    else if need == 1 then
      assert reports[0].Ok?;
      assert reports[..1] == [reports[0]];
      Done(seen + 1, false)
    else
      var j := Await(need - 1, reports[1..], seen + 1);
      assert reports == [reports[0]] + reports[1..];
      assert reports[0].Ok?;
      assert j.Done? ==> reports[..j.settled - seen] == [reports[0]] + reports[1..][..j.settled - seen - 1];
      j
  }

  lemma {:induction false} AwaitAllOk(need: nat, reports: seq<Outcome>, seen: nat)
    requires need > 0 && AllOk(reports)
    ensures Await(need, reports, seen).Done? <==> |reports| >= need
    ensures Await(need, reports, seen).Done? ==> Await(need, reports, seen) == Done(seen + need, false)
    decreases |reports|
  {
    if reports != [] && need > 1 {
      AwaitAllOk(need - 1, reports[1..], seen + 1);
    }
  }

  /** When every write succeeds, the join completes exactly when all legs
      have reported, and without error: the callback does not fire early. */
  lemma JoinWaitsForAllOk(legs: nat, reports: seq<Outcome>)
    requires AllOk(reports)
    ensures JoinAfter(legs, reports).Done? <==> |reports| >= legs
    ensures JoinAfter(legs, reports).Done? ==> JoinAfter(legs, reports) == Done(legs, false)
  {
    if legs > 0 {
      AwaitAllOk(legs, reports, 0);
    }
  }

  lemma {:induction false} AwaitSettled(need: nat, reports: seq<Outcome>, seen: nat)
    requires need > 0 && |reports| == need
    ensures Await(need, reports, seen).Done?
    ensures Await(need, reports, seen).failed <==> !AllOk(reports)
    decreases |reports|
  {
    if reports[0] == Ok && need > 1 {
      AwaitSettled(need - 1, reports[1..], seen + 1);
      assert AllOk(reports) <==> AllOk(reports[1..]) by {
        assert forall i :: 0 <= i < |reports[1..]| ==> reports[1..][i] == reports[i + 1];
      }
    }
  }

  /** Once every leg has reported, the join has completed, and with an
      error exactly when some write failed. */
  lemma JoinSettled(legs: nat, reports: seq<Outcome>)
    requires |reports| == legs
    ensures JoinAfter(legs, reports).Done?
    ensures JoinAfter(legs, reports).failed <==> !AllOk(reports)
  {
    if legs > 0 {
      AwaitSettled(legs, reports, 0);
    }
  }

  lemma {:induction false} AwaitStable(need: nat, reports: seq<Outcome>, later: seq<Outcome>, seen: nat)
    requires need > 0 && Await(need, reports, seen).Done?
    ensures Await(need, reports + later, seen) == Await(need, reports, seen)
    decreases |reports|
  {
    assert (reports + later)[0] == reports[0];
    if reports[0] == Ok && need > 1 {
      assert (reports + later)[1..] == reports[1..] + later;
      AwaitStable(need - 1, reports[1..], later, seen + 1);
    }
  }

  /** Completion happens once: reports arriving afterwards change nothing. */
  lemma JoinCompletesOnce(legs: nat, reports: seq<Outcome>, later: seq<Outcome>)
    requires JoinAfter(legs, reports).Done?
    ensures JoinAfter(legs, reports + later) == JoinAfter(legs, reports)
  {
    if legs > 0 {
      AwaitStable(legs, reports, later, 0);
    }
  }

  /** The events of the log call so far: nothing while the join is pending,
      then 'logged' followed by the callback. What this means for the writes'
      outcomes is `CompletionAfterAllLegs` and `NothingBeforeLastSuccess`. */
  function Completion(j: Join): (events: seq<Event>)
  {
    match j
    case Pending => []
    case Done(_, failed) => [Logged, Callback(None, !failed)]
  }

  /** After every leg has reported: 'logged' is emitted before the one
      callback, whose error slot is null and whose success flag is true iff
      no write failed. */
  lemma CompletionAfterAllLegs(legs: nat, reports: seq<Outcome>)
    requires |reports| == legs
    ensures Completion(JoinAfter(legs, reports)) == [Logged, Callback(None, AllOk(reports))]
  {
    JoinSettled(legs, reports);
  }

  /** An empty broadcast completes at once, successfully. */
  lemma EmptyBroadcastSucceeds()
    ensures Completion(JoinAfter(0, [])) == [Logged, Callback(None, true)]
  {
  }

  /** While some successful leg is still outstanding, nothing is emitted. */
  lemma NothingBeforeLastSuccess(legs: nat, reports: seq<Outcome>)
    requires AllOk(reports) && |reports| < legs
    ensures Completion(JoinAfter(legs, reports)) == []
  {
    JoinWaitsForAllOk(legs, reports);
  }
}
