/**
 The match ids captured at the deletion: every copy of the row, every runner and every write has
 them, so they are never lost, and no run of any pass misses a row that one of them finds.
 */
module CapturedIds {
  import opened Wrappers
  import opened DeletionScrub

  ghost predicate HeldBy(captured: set<nat>, runner: Runner) {
    match runner
    case Reading(copy, _) => captured <= copy.matchIds
    case Running(_, _, _, matches, _, _, _, _, _) => captured <= matches
    case _ => true
  }

  /** None of the missed rows in scope at T is found by a captured id. */
  ghost predicate Elsewhere(s: State, captured: set<nat>, missed: set<Place>, T: Time) {
    T <= s.clock && forall p | p in missed && p in s.rows :: InScope(s.rows[p], T) ==> !KnownBy(s.rows[p], captured)
  }

  ghost predicate ScanElsewhere(s: State, captured: set<nat>, scan: Option<Pass>) {
    scan.Some? && scan.value.version == SCRUB_VERSION ==>
        Elsewhere(s, captured, scan.value.missed, scan.value.startedAt)
  }

  ghost predicate JobElsewhere(s: State, captured: set<nat>, job: Job) {
    && captured <= job.matchIds && ScanElsewhere(s, captured, job.scan)
    && (job.dbVersion == SCRUB_VERSION && job.dbDoneAt.Some? ==> Elsewhere(s, captured, job.missed, job.dbDoneAt.value))
  }

  ghost predicate RunnerElsewhere(s: State, captured: set<nat>, runner: Runner) {
    && HeldBy(captured, runner)
    && (runner.Reading? ==> ScanElsewhere(s, captured, runner.copy.scan))
    && (runner.Running? && runner.pass.Some? ==>
          Elsewhere(s, captured, runner.pass.value.missed, runner.pass.value.startedAt))
  }

  ghost predicate CapturedInv(captured: set<nat>, s: State) {
    && (s.job.Some? ==> JobElsewhere(s, captured, s.job.value))
    && (forall r <- s.runners :: RunnerElsewhere(s, captured, r))
    && (s.finished.Some? ==> Elsewhere(s, captured, s.finished.value.missed, s.finished.value.at))
  }

  // ---- Steps ----

  lemma ElsewhereStays(s: State, t: State, captured: set<nat>, missed: set<Place>, T: Time)
    requires Grows(s, t) && Elsewhere(s, captured, missed, T)
    ensures Elsewhere(t, captured, missed, T)
  {
    forall p | p in missed && p in t.rows && InScope(t.rows[p], T) ensures !KnownBy(t.rows[p], captured) {
      assert Older(s.rows[p], t.rows[p]);
    }
  }

  lemma RunnerStays(s: State, t: State, captured: set<nat>, runner: Runner)
    requires Grows(s, t) && RunnerElsewhere(s, captured, runner)
    ensures RunnerElsewhere(t, captured, runner)
  {
    if runner.Reading? && runner.copy.scan.Some? && runner.copy.scan.value.version == SCRUB_VERSION {
      ElsewhereStays(s, t, captured, runner.copy.scan.value.missed, runner.copy.scan.value.startedAt);
    } else if runner.Running? && runner.pass.Some? {
      ElsewhereStays(s, t, captured, runner.pass.value.missed, runner.pass.value.startedAt);
    }
  }

  lemma JobStays(s: State, t: State, captured: set<nat>, job: Job)
    requires Grows(s, t) && JobElsewhere(s, captured, job)
    ensures JobElsewhere(t, captured, job)
  {
    if job.scan.Some? && job.scan.value.version == SCRUB_VERSION {
      ElsewhereStays(s, t, captured, job.scan.value.missed, job.scan.value.startedAt);
    }
    if job.dbVersion == SCRUB_VERSION && job.dbDoneAt.Some? {
      ElsewhereStays(s, t, captured, job.missed, job.dbDoneAt.value);
    }
  }

  /** A step of runner r keeps the invariant when what r and the row become keeps it. */
  lemma StepStays(captured: set<nat>, s: State, t: State, r: nat, runner: Runner)
    requires CapturedInv(captured, s) && Grows(s, t) && r < |s.runners| && t.finished == s.finished
    requires t.runners == s.runners[r := runner] && RunnerElsewhere(t, captured, runner)
    requires t.job.Some? ==> JobElsewhere(t, captured, t.job.value)
    ensures CapturedInv(captured, t)
  {
    forall q | q in t.runners ensures RunnerElsewhere(t, captured, q) {
      if q in s.runners { RunnerStays(s, t, captured, q); }
    }
    if s.finished.Some? { ElsewhereStays(s, t, captured, s.finished.value.missed, s.finished.value.at); }
  }

  lemma RowStays(captured: set<nat>, s: State, t: State)
    requires CapturedInv(captured, s) && Grows(s, t)
    requires t.job.Some? ==>
               && s.job.Some? && captured <= t.job.value.matchIds && t.job.value.missed == s.job.value.missed
               && t.job.value.dbVersion == s.job.value.dbVersion && t.job.value.dbDoneAt == s.job.value.dbDoneAt
               && (t.job.value.scan == s.job.value.scan || ScanElsewhere(t, captured, t.job.value.scan))
    ensures t.job.Some? ==> JobElsewhere(t, captured, t.job.value)
  {
    if t.job.Some? { JobStays(s, t, captured, s.job.value); }
  }

  lemma LeaseStep(captured: set<nat>, s: State, t: State, r: nat)
    requires CapturedInv(captured, s) && r < |s.runners|
    requires (exists now :: Read(s, t, r, now)) || Take(s, t, r) || (exists stamp :: Renew(s, t, r, stamp))
    ensures CapturedInv(captured, t)
  {
    assert RunnerElsewhere(s, captured, s.runners[r]);
    assert Grows(s, t);
    RowStays(captured, s, t);
    StepStays(captured, s, t, r, t.runners[r]);
  }

  lemma SweepStep(captured: set<nat>, s: State, t: State, r: nat, touched: set<Place>, failures: nat)
    requires CapturedInv(captured, s) && Inv(s) && r < |s.runners| && Sweep(s, t, r, touched, failures)
    ensures CapturedInv(captured, t)
  {
    assert RunnerElsewhere(s, captured, s.runners[r]);
    ScrubGrows(s, t, touched);
    RowStays(captured, s, t);
    StepStays(captured, s, t, r, t.runners[r]);
  }

  lemma ScanStep(captured: set<nat>, s: State, t: State, r: nat)
    requires CapturedInv(captured, s) && Inv(s) && r < |s.runners|
    requires Begin(s, t, r) || TurnPage(s, t, r)
    ensures CapturedInv(captured, t)
  {
    assert RunnerElsewhere(s, captured, s.runners[r]) && HonestRunner(s, s.runners[r]);
    assert Grows(s, t);
    RowStays(captured, s, t);
    StepStays(captured, s, t, r, t.runners[r]);
  }

  lemma PageStep(captured: set<nat>, s: State, t: State, r: nat, at: Time, page: seq<nat>)
    requires CapturedInv(captured, s) && Inv(s) && r < |s.runners| && ReadPage(s, t, r, at, page)
    ensures CapturedInv(captured, t)
  {
    assert RunnerElsewhere(s, captured, s.runners[r]);
    if page == [] { ScrubGrows(s, t, EndOf(s.rows, s.runners[r].pass.value.scan)); }
    assert Grows(s, t);
    RunnerStays(s, t, captured, s.runners[r]);
    RowStays(captured, s, t);
    StepStays(captured, s, t, r, t.runners[r]);
  }

  /** What a runner goes past without finding it no captured id finds. */
  lemma HandStep(captured: set<nat>, s: State, t: State, r: nat, n: nat, done: set<Place>, failures: nat)
    requires CapturedInv(captured, s) && Inv(s) && r < |s.runners| && Hand(s, t, r, n, done, failures)
    ensures CapturedInv(captured, t)
  {
    var runner := s.runners[r];
    assert RunnerElsewhere(s, captured, runner);
    ScrubGrows(s, t, done);
    RunnerStays(s, t, captured, runner);
    forall p | p in MissedOf(s.rows, runner, n) ensures !KnownBy(s.rows[p], captured) {
      FewerFind(s.rows[p], captured, runner.matches);
    }
    assert RunnerElsewhere(t, captured, t.runners[r]);
    RowStays(captured, s, t);
    StepStays(captured, s, t, r, t.runners[r]);
  }

  lemma FewerFind(row: StoreRow, captured: set<nat>, matches: set<nat>)
    requires captured <= matches
    ensures KnownBy(row, captured) ==> KnownBy(row, matches)
  {
    if row.reach.Paged? && row.reach.via != {} && !(row.reach.via !! captured) {
      var m :| m in row.reach.via && m in captured;
      assert m in matches;
    }
  }

  lemma EndStep(captured: set<nat>, s: State, t: State, r: nat)
    requires CapturedInv(captured, s) && Inv(s) && r < |s.runners|
    requires Raise(s, t, r) || Save(s, t, r) || Vanish(s, t, r)
    ensures CapturedInv(captured, t)
  {
    assert RunnerElsewhere(s, captured, s.runners[r]);
    assert Grows(s, t);
    RowStays(captured, s, t);
    StepStays(captured, s, t, r, t.runners[r]);
  }

  lemma CompleteStep(captured: set<nat>, s: State, t: State, r: nat)
    requires CapturedInv(captured, s) && r < |s.runners| && Complete(s, t, r)
    ensures CapturedInv(captured, t)
  {
    assert RunnerElsewhere(s, captured, s.runners[r]);
    assert Grows(s, t);
    if s.job.Some? { JobStays(s, t, captured, s.job.value); }
    RunnerStays(s, t, captured, s.runners[r]);
    StepStays(captured, s, t, r, t.runners[r]);
  }

  lemma ModelStep(captured: set<nat>, s: State, t: State, r: nat)
    requires CapturedInv(captured, s) && r < |s.runners|
    requires ScrubModel(s, t, r) || ModelRaises(s, t, r) || MarkModel(s, t, r)
    ensures CapturedInv(captured, t)
  {
    assert RunnerElsewhere(s, captured, s.runners[r]);
    assert Grows(s, t);
    RowStays(captured, s, t);
    assert t.runners == s.runners[r := t.runners[r]];
    StepStays(captured, s, t, r, t.runners[r]);
  }

  lemma OtherStep(captured: set<nat>, s: State, t: State)
    requires CapturedInv(captured, s) && Inv(s) && (Finish(s, t) || Environment(s, t))
    ensures CapturedInv(captured, t)
  {
    assert Grows(s, t);
    RowStays(captured, s, t);
    forall q | q in t.runners ensures RunnerElsewhere(t, captured, q) { RunnerStays(s, t, captured, q); }
    if s.finished.Some? { ElsewhereStays(s, t, captured, s.finished.value.missed, s.finished.value.at); }
    if Finish(s, t) { ElsewhereStays(s, t, captured, s.job.value.missed, s.job.value.dbDoneAt.value); }
  }

  lemma NextStep(captured: set<nat>, s: State, t: State)
    requires CapturedInv(captured, s) && Inv(s) && Next(s, t)
    ensures CapturedInv(captured, t)
  {
    if Finish(s, t) || Environment(s, t) {
      OtherStep(captured, s, t);
    } else {
      var r :| RunnerStep(s, t, r);
      if touched, failures :| Sweep(s, t, r, touched, failures) {
        SweepStep(captured, s, t, r, touched, failures);
      } else if at, page :| ReadPage(s, t, r, at, page) {
        PageStep(captured, s, t, r, at, page);
      } else if n, done, failures :| Hand(s, t, r, n, done, failures) {
        HandStep(captured, s, t, r, n, done, failures);
      } else if Begin(s, t, r) || TurnPage(s, t, r) {
        ScanStep(captured, s, t, r);
      } else if Raise(s, t, r) || Save(s, t, r) || Vanish(s, t, r) {
        EndStep(captured, s, t, r);
      } else if Complete(s, t, r) {
        CompleteStep(captured, s, t, r);
      } else if ScrubModel(s, t, r) || ModelRaises(s, t, r) || MarkModel(s, t, r) {
        ModelStep(captured, s, t, r);
      } else {
        LeaseStep(captured, s, t, r);
      }
    }
  }

  lemma {:induction false} CapturedHolds(run: seq<State>, i: nat)
    requires Behaviour(run) && i < |run|
    ensures CapturedInv(run[0].job.value.matchIds, run[i]) && Inv(run[i])
  {
    InvHolds(run, i);
    if i == 0 {
      forall q | q in run[0].runners ensures RunnerElsewhere(run[0], run[0].job.value.matchIds, q) { assert q.Idle?; }
    } else {
      CapturedHolds(run, i - 1);
      assert Follows(run, i - 1);
      NextStep(run[0].job.value.matchIds, run[i - 1], run[i]);
    }
  }

  // ---- What they find ----

  /** Whatever number of runners overwrite the row, holding the lease or not, it keeps the ids captured at
      the deletion, and every runner holds them. */
  lemma CapturedIdsStay(run: seq<State>, i: nat, r: nat)
    requires Behaviour(run) && i < |run|
    ensures run[i].job.Some? ==> run[0].job.value.matchIds <= run[i].job.value.matchIds
    ensures r < |run[i].runners| && run[i].runners[r].Running? ==>
              run[0].job.value.matchIds <= run[i].runners[r].matches
  {
    CapturedHolds(run, i);
    if r < |run[i].runners| { assert RunnerElsewhere(run[i], run[0].job.value.matchIds, run[i].runners[r]); }
  }

  /** Every row in scope at T that needs no match id, or that one of these finds, has been handed over since T. */
  ghost predicate CoveredBy(s: State, T: Time, matches: set<nat>) {
    forall p | p in s.rows && KnownBy(s.rows[p], matches) :: Since(s.rows[p], T)
  }

  lemma NoneMissed(s: State, T: Time, missed: set<Place>, captured: set<nat>)
    requires Covered(s, T, missed) && Elsewhere(s, captured, missed, T)
    ensures CoveredBy(s, T, captured)
  {
    forall p | p in s.rows && KnownBy(s.rows[p], captured) ensures Since(s.rows[p], T) {
      if p in missed { assert !InScope(s.rows[p], T); }
    }
  }

  /** Whenever the row records a pass at the current version, every row in scope when the pass started, and
      found without a match id or by one captured at the deletion, has since been handed to the redactor
      without a counted failure. */
  lemma RecordedPassCovers(run: seq<State>, i: nat)
    requires Behaviour(run) && i < |run|
    requires run[i].job.Some? && run[i].job.value.dbVersion == SCRUB_VERSION && run[i].job.value.dbDoneAt.Some?
    ensures CoveredBy(run[i], run[i].job.value.dbDoneAt.value, run[0].job.value.matchIds)
  {
    CapturedHolds(run, i);
    NoneMissed(run[i], run[i].job.value.dbDoneAt.value, run[i].job.value.missed, run[0].job.value.matchIds);
  }

  /** Once the row is gone, now and at every later state: a failure-free pass that began at or after the
      grace covers every such row in scope then. */
  lemma DeletedRowIsCovered(run: seq<State>, i: nat)
    requires Behaviour(run) && i < |run| && run[i].job.None?
    ensures run[i].finished.Some? && run[i].finished.value.at >= run[0].deletedAt + IN_FLIGHT_GRACE
    ensures CoveredBy(run[i], run[i].finished.value.at, run[0].job.value.matchIds)
  {
    CapturedHolds(run, i);
    DeletedRowHands(run, i);
    NoneMissed(run[i], run[i].finished.value.at, run[i].finished.value.missed, run[0].job.value.matchIds);
  }
}
