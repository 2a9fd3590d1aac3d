/**
 The raced match ids on a deletion-scrub row: any runner that finds a raced match overwrites the row's
 ids with its own, so they can shrink; while one runner works at a time they never do.
 */
module MatchIds {
  import opened DeletionScrub

  /** The runner's ids are the row's. */
  ghost predicate Agrees(job: Job, runner: Runner) {
    match runner
    case Reading(copy, _) => copy.matchIds == job.matchIds
    case Running(_, _, _, matches, _, _, _, _, _) => matches == job.matchIds
    case _ => true
  }

  ghost predicate Alone(s: State) {
    |s.runners| == 1 && (s.job.Some? ==> Agrees(s.job.value, s.runners[0]))
  }

  /** The row's ids are kept. */
  ghost predicate KeepsIds(s: State, t: State) {
    t.job.Some? ==> s.job.Some? && s.job.value.matchIds <= t.job.value.matchIds
  }

  lemma SweepAlone(s: State, t: State, touched: set<Place>, failures: nat)
    requires Alone(s) && Sweep(s, t, 0, touched, failures)
    ensures Alone(t) && KeepsIds(s, t)
  {
  }

  lemma ScanAlone(s: State, t: State)
    requires Alone(s)
    requires || Begin(s, t, 0) || (exists at, page :: ReadPage(s, t, 0, at, page))
             || (exists n, done, failures :: Hand(s, t, 0, n, done, failures)) || TurnPage(s, t, 0)
    ensures Alone(t) && KeepsIds(s, t)
  {
  }

  lemma LeaseAlone(s: State, t: State)
    requires Alone(s)
    requires || (exists now :: Read(s, t, 0, now)) || Take(s, t, 0) || (exists stamp :: Renew(s, t, 0, stamp))
             || Raise(s, t, 0) || Save(s, t, 0) || Vanish(s, t, 0)
    ensures Alone(t) && KeepsIds(s, t)
  {
  }

  lemma LastAlone(s: State, t: State)
    requires Alone(s)
    requires Complete(s, t, 0) || ScrubModel(s, t, 0) || ModelRaises(s, t, 0) || MarkModel(s, t, 0)
    ensures Alone(t) && KeepsIds(s, t)
  {
  }

  lemma StepAlone(s: State, t: State)
    requires Alone(s) && Next(s, t)
    ensures Alone(t) && KeepsIds(s, t)
  {
    if Finish(s, t) || Environment(s, t) {
    } else if touched, failures :| Sweep(s, t, 0, touched, failures) {
      SweepAlone(s, t, touched, failures);
    } else if Complete(s, t, 0) || ScrubModel(s, t, 0) || ModelRaises(s, t, 0) || MarkModel(s, t, 0) {
      LastAlone(s, t);
    } else if Begin(s, t, 0) || TurnPage(s, t, 0) {
      ScanAlone(s, t);
    } else if at, page :| ReadPage(s, t, 0, at, page) {
      ScanAlone(s, t);
    } else if n, done, failures :| Hand(s, t, 0, n, done, failures) {
      ScanAlone(s, t);
    } else {
      LeaseAlone(s, t);
    }
  }

  /** With one runner, what was on the row stays on it. */
  lemma {:induction false} OneRunnerKeepsIds(run: seq<State>, i: nat, j: nat)
    requires Behaviour(run) && |run[0].runners| == 1 && i <= j < |run| && run[j].job.Some?
    ensures Alone(run[j]) && run[i].job.Some? && run[i].job.value.matchIds <= run[j].job.value.matchIds
  {
    if i < j {
      KeptAt(run, j - 1);
      OneRunnerKeepsIds(run, i, j - 1);
    } else {
      AllAlone(run, j);
    }
  }

  lemma KeptAt(run: seq<State>, j: nat)
    requires Behaviour(run) && |run[0].runners| == 1 && j + 1 < |run|
    ensures Alone(run[j + 1]) && KeepsIds(run[j], run[j + 1])
  {
    AllAlone(run, j);
    assert Follows(run, j);
    StepAlone(run[j], run[j + 1]);
  }

  lemma {:induction false} AllAlone(run: seq<State>, i: nat)
    requires Behaviour(run) && |run[0].runners| == 1 && i < |run|
    ensures Alone(run[i])
  {
    if i == 0 {
      assert run[0].runners[0] in run[0].runners;
    } else {
      AllAlone(run, i - 1);
      assert Follows(run, i - 1);
      StepAlone(run[i - 1], run[i]);
    }
  }

  /** Whoever sweeps, holding the lease or not: the row keeps its match ids iff the runner's, with those of
      the raced matches, has them all. */
  lemma IdsKeptWhen(s: State, t: State, r: nat, touched: set<Place>, failures: nat)
    requires r < |s.runners| && Sweep(s, t, r, touched, failures) && s.job.Some?
    ensures t.job.Some?
            && (FindsRaced(s, r) ==> s.raced <= t.job.value.matchIds && t.runners[r].matches == t.job.value.matchIds)
    ensures KeepsIds(s, t) <==> FindsRaced(s, r) ==> s.job.value.matchIds <= s.runners[r].matches + s.raced
  {
  }
}
