/**
 The model store in a deletion-scrub job: when the row goes, its model store has been redacted for
 the current version, unless an older version had marked it on a row without a DB pass.
 */
module ModelStore {
  import opened Wrappers
  import opened DeletionScrub

  /** An older version marked the model store and never recorded a DB pass. */
  predicate MarkedTooSoon(job: Job) {
    job.dbVersion == 0 && job.modelDoneAt.Some?
  }

  /** A version as read from the row: the one the behaviour began with, or the current one once the
      row records it. */
  ghost predicate Seen(origin: Job, job: Option<Job>, version: nat) {
    version == origin.dbVersion || (version == SCRUB_VERSION && (job.Some? ==> job.value.dbVersion == SCRUB_VERSION))
  }

  ghost predicate SeenBy(origin: Job, job: Option<Job>, runner: Runner) {
    match runner
    case Reading(copy, _) => Seen(origin, job, copy.dbVersion)
    case Running(_, _, version, _, _, _, _, _, _) => Seen(origin, job, version)
    case _ => true
  }

  /** A mark on the row is of this behaviour, or is of an older version that will be run again. */
  ghost predicate Marked(origin: Job, job: Job, modelScrubbed: bool) {
    job.modelDoneAt.Some? ==> modelScrubbed || (0 < origin.dbVersion && job.dbVersion == origin.dbVersion)
  }

  ghost predicate Row(origin: Job, s: State) {
    if s.job.None? then s.modelScrubbed <==> !MarkedTooSoon(origin)
    else
      && Seen(origin, s.job, s.job.value.dbVersion)
      && if MarkedTooSoon(origin) then s.job.value.modelDoneAt.Some? && !s.modelScrubbed
         else Marked(origin, s.job.value, s.modelScrubbed)
  }

  ghost predicate Fit(origin: Job, s: State, runner: Runner) {
    SeenBy(origin, s.job, runner) && (runner.Marking? ==> s.modelScrubbed)
  }

  ghost predicate ModelInv(origin: Job, s: State) {
    origin.dbVersion < SCRUB_VERSION && Row(origin, s) && forall r <- s.runners :: Fit(origin, s, r)
  }

  /** Once recorded, the current version stays on the row. */
  ghost predicate KeepsVersion(s: State, t: State) {
    && (s.modelScrubbed ==> t.modelScrubbed) && (t.job.Some? ==> s.job.Some?)
    && (t.job.Some? && s.job.value.dbVersion == SCRUB_VERSION ==> t.job.value.dbVersion == SCRUB_VERSION)
  }

  lemma RunnersFit(origin: Job, s: State, t: State, r: nat)
    requires ModelInv(origin, s) && KeepsVersion(s, t) && r < |s.runners|
    requires exists runner :: t.runners == s.runners[r := runner] && Fit(origin, t, runner)
    ensures forall q <- t.runners :: Fit(origin, t, q)
  {
    var runner :| t.runners == s.runners[r := runner] && Fit(origin, t, runner);
    forall q | q in t.runners ensures Fit(origin, t, q) {
      if q != runner { assert q in s.runners && Fit(origin, s, q); }
    }
  }

  lemma SweepStep(origin: Job, s: State, t: State, r: nat, touched: set<Place>, failures: nat)
    requires ModelInv(origin, s) && r < |s.runners| && Sweep(s, t, r, touched, failures)
    ensures ModelInv(origin, t)
  {
    assert Fit(origin, s, s.runners[r]);
    assert t.runners == s.runners[r := t.runners[r]] && Fit(origin, t, t.runners[r]);
    RunnersFit(origin, s, t, r);
  }

  lemma ScanStep(origin: Job, s: State, t: State, r: nat)
    requires ModelInv(origin, s) && r < |s.runners|
    requires || Begin(s, t, r) || (exists at, page :: ReadPage(s, t, r, at, page))
             || (exists n, done, failures :: Hand(s, t, r, n, done, failures)) || TurnPage(s, t, r)
    ensures ModelInv(origin, t)
  {
    assert Fit(origin, s, s.runners[r]);
    assert t.runners == s.runners[r := t.runners[r]] && Fit(origin, t, t.runners[r]);
    RunnersFit(origin, s, t, r);
  }

  lemma EndStep(origin: Job, s: State, t: State, r: nat)
    requires ModelInv(origin, s) && r < |s.runners|
    requires Raise(s, t, r) || Save(s, t, r) || Vanish(s, t, r) || (exists stamp :: Renew(s, t, r, stamp))
    ensures ModelInv(origin, t)
  {
    assert Fit(origin, s, s.runners[r]);
    assert t.runners == s.runners[r := t.runners[r]] && Fit(origin, t, t.runners[r]);
    RunnersFit(origin, s, t, r);
  }

  lemma LeaseStep(origin: Job, s: State, t: State, r: nat)
    requires ModelInv(origin, s) && r < |s.runners|
    requires (exists now :: Read(s, t, r, now)) || Take(s, t, r)
    ensures ModelInv(origin, t)
  {
    assert Fit(origin, s, s.runners[r]);
    assert t.runners == s.runners[r := t.runners[r]] && Fit(origin, t, t.runners[r]);
    RunnersFit(origin, s, t, r);
  }

  lemma CompleteStep(origin: Job, s: State, t: State, r: nat)
    requires ModelInv(origin, s) && r < |s.runners| && Complete(s, t, r)
    ensures ModelInv(origin, t)
  {
    assert Fit(origin, s, s.runners[r]);
    assert t.runners == s.runners[r := Idle] && Fit(origin, t, Idle);
    RunnersFit(origin, s, t, r);
  }

  lemma ModelStep(origin: Job, s: State, t: State, r: nat)
    requires ModelInv(origin, s) && r < |s.runners|
    requires ScrubModel(s, t, r) || ModelRaises(s, t, r) || MarkModel(s, t, r)
    ensures ModelInv(origin, t)
  {
    assert Fit(origin, s, s.runners[r]);
    assert t.runners == s.runners[r := t.runners[r]] && Fit(origin, t, t.runners[r]);
    RunnersFit(origin, s, t, r);
  }

  lemma OtherStep(origin: Job, s: State, t: State)
    requires ModelInv(origin, s) && (Finish(s, t) || Environment(s, t))
    ensures ModelInv(origin, t)
  {
    assert t.runners == s.runners;
    forall q | q in t.runners ensures Fit(origin, t, q) { assert Fit(origin, s, q); }
  }

  lemma StepKeepsModel(origin: Job, s: State, t: State)
    requires ModelInv(origin, s) && Next(s, t)
    ensures ModelInv(origin, t)
  {
    if Finish(s, t) || Environment(s, t) {
      OtherStep(origin, s, t);
    } else {
      var r :| RunnerStep(s, t, r);
      if (exists now :: Read(s, t, r, now)) || Take(s, t, r) {
        LeaseStep(origin, s, t, r);
      } else if Complete(s, t, r) {
        CompleteStep(origin, s, t, r);
      } else if ScrubModel(s, t, r) || ModelRaises(s, t, r) || MarkModel(s, t, r) {
        ModelStep(origin, s, t, r);
      } else if touched, failures :| Sweep(s, t, r, touched, failures) {
        SweepStep(origin, s, t, r, touched, failures);
      } else if Raise(s, t, r) || Save(s, t, r) || Vanish(s, t, r) || (exists stamp :: Renew(s, t, r, stamp)) {
        EndStep(origin, s, t, r);
      } else {
        ScanStep(origin, s, t, r);
      }
    }
  }

  lemma {:induction false} ModelInvHolds(run: seq<State>, i: nat)
    requires Behaviour(run) && i < |run|
    ensures ModelInv(run[0].job.value, run[i])
  {
    if i == 0 {
      forall q | q in run[0].runners ensures Fit(run[0].job.value, run[0], q) { assert q.Idle?; }
    } else {
      ModelInvHolds(run, i - 1);
      assert Follows(run, i - 1);
      StepKeepsModel(run[0].job.value, run[i - 1], run[i]);
    }
  }

  /** When the row is gone the model store has been redacted since the behaviour began, exactly when
      the row was not marked before any DB pass was recorded on it. */
  lemma ModelStoreRedacted(run: seq<State>, i: nat)
    requires Behaviour(run) && i < |run| && run[i].job.None?
    ensures run[i].modelScrubbed <==> !MarkedTooSoon(run[0].job.value)
  {
    ModelInvHolds(run, i);
  }
}
