/**
 When a deletion-scrub job moves on: when its row is due for a pass, and when nothing can move it.
 */
module DuePasses {
  import opened Wrappers
  import opened DeletionScrub
  import opened ModelStore

  /** A runner that may read the row: nobody holds its lease as the runner's clock has it. */
  ghost predicate MayRead(s: State, r: nat, now: Time) {
    && r < |s.runners| && s.runners[r].Idle? && now <= s.clock && s.job.Some?
    && (s.job.value.claimedUntil.None? || s.job.value.claimedUntil.value < now)
  }

  /** A pass of the current version is on the row. */
  predicate Current(job: Job) {
    job.dbVersion == SCRUB_VERSION && job.dbDoneAt.Some?
  }

  /** And it began once the cards in flight at the deletion had come out: the one the row may go on. */
  predicate Settled(job: Job, deletedAt: Time) {
    Current(job) && job.dbDoneAt.value >= deletedAt + IN_FLIGHT_GRACE
  }

  /** Before the grace the row is read until a pass of the current version is on it, and from then on until
      that pass began at or past the grace. */
  lemma DueWhen(run: seq<State>, i: nat, r: nat, now: Time)
    requires Behaviour(run) && i < |run| && MayRead(run[i], r, now)
    ensures (exists t :: Read(run[i], t, r, now)) <==>
            !(if now < run[i].deletedAt + IN_FLIGHT_GRACE then Current(run[i].job.value)
              else Settled(run[i].job.value, run[i].deletedAt))
  {
    ModelInvHolds(run, i);
    var s := run[i];
    var t := With(s, r, Reading(s.job.value, now));
    assert Read(s, t, r, now) <==> DbDue(s.job.value, s.deletedAt, now);
  }

  /** A pass is wanting on the row, by a clock that shows `now`. */
  predicate Wanting(job: Job, deletedAt: Time, now: Time) {
    !(if now < deletedAt + IN_FLIGHT_GRACE then Current(job) else Settled(job, deletedAt))
  }

  /** The runner has the step that reads the row. */
  ghost predicate Readable(s: State, r: nat, now: Time) {
    r < |s.runners| && exists t :: Read(s, t, r, now)
  }

  /** A holder whose run raised, or whose page budget ran out, gives the row back: a pass that is wanting may be
      taken up at once. */
  lemma GivenBack(run: seq<State>, i: nat, r: nat, q: nat)
    requires Behaviour(run) && i + 1 < |run| && r < |run[i].runners| && run[i].runners[r].Running?
    requires Raise(run[i], run[i + 1], r) || Save(run[i], run[i + 1], r)
    requires Holds(run[i], run[i].runners[r].held) && q < |run[i + 1].runners| && run[i + 1].runners[q].Idle?
    requires Wanting(run[i + 1].job.value, run[i + 1].deletedAt, run[i + 1].clock)
    ensures Readable(run[i + 1], q, run[i + 1].clock)
  {
    DueWhen(run, i + 1, q, run[i + 1].clock);
  }

  /** A holder whose pass ended with failed rows keeps the row back: a pass that is wanting may be taken up only
      after the backoff. */
  lemma BacksOff(run: seq<State>, i: nat, r: nat, q: nat, now: Time)
    requires Behaviour(run) && i + 1 < |run| && r < |run[i].runners| && Complete(run[i], run[i + 1], r)
    requires run[i].runners[r].pass.value.failures + run[i].runners[r].failed > 0
    requires Holds(run[i], run[i].runners[r].held) && q < |run[i + 1].runners| && run[i + 1].runners[q].Idle?
    requires now <= run[i + 1].clock && Wanting(run[i + 1].job.value, run[i + 1].deletedAt, now)
    ensures Readable(run[i + 1], q, now) <==> now > run[i].runners[r].now + ROW_FAILURE_BACKOFF
  {
    if now > run[i].runners[r].now + ROW_FAILURE_BACKOFF {
      DueWhen(run, i + 1, q, now);
    }
  }

  /** A runner reads the row, or redacts the model store for it, or the row is deleted. */
  ghost predicate Moves(s: State, t: State, r: nat) {
    || (r < |s.runners| && ((exists now :: Read(s, t, r, now)) || ScrubModel(s, t, r)))
    || Finish(s, t)
  }

  /** The pass the row may go on is recorded, and a cursor is saved all the same. */
  ghost predicate Stuck(job: Job, deletedAt: Time) {
    Settled(job, deletedAt) && job.modelDoneAt.Some? && job.scan.Some?
  }

  /** Past the grace an idle runner finds something to do for a row nobody holds, unless the row is stuck. */
  lemma MovesUnlessStuck(run: seq<State>, i: nat, r: nat)
    requires Behaviour(run) && i < |run| && MayRead(run[i], r, run[i].clock)
    requires run[i].clock >= run[i].deletedAt + IN_FLIGHT_GRACE
    ensures (exists t :: Moves(run[i], t, r)) <==> !Stuck(run[i].job.value, run[i].deletedAt)
  {
    ModelInvHolds(run, i);
    var s := run[i];
    var job := s.job.value;
    if !Settled(job, s.deletedAt) {
      DueWhen(run, i, r, s.clock);
      var t :| Read(s, t, r, s.clock);
      assert Moves(s, t, r);
    } else if job.modelDoneAt.None? {
      var t := With(s, r, Marking).(modelScrubbed := true);
      assert ScrubModel(s, t, r);
      assert Moves(s, t, r);
    } else if job.scan.None? {
      var t := s.(job := None, finished := Some(Done(job.dbDoneAt.value, job.missed)));
      assert Finish(s, t);
      assert Moves(s, t, r);
    }
  }

  /** A stuck row that no runner has a copy of stays as it is, whatever happens. */
  ghost predicate Left(s: State, job: Job) {
    s.job == Some(job) && Stuck(job, s.deletedAt) && forall runner <- s.runners :: runner.Idle?
  }

  lemma LeftStays(s: State, t: State, job: Job)
    requires Left(s, job) && Next(s, t)
    ensures Left(t, job)
  {
    if r: nat :| RunnerStep(s, t, r) {
      assert s.runners[r] in s.runners;
    }
  }

  lemma {:induction false} StuckForever(run: seq<State>, i: nat, j: nat, job: Job)
    requires Behaviour(run) && i <= j < |run| && Left(run[i], job)
    ensures Left(run[j], job)
  {
    if i < j {
      StuckForever(run, i, j - 1, job);
      assert Follows(run, j - 1);
      LeftStays(run[j - 1], run[j], job);
    }
  }

  // ---- When the model store is redacted ----

  /** A runner gets to the end of the pass in that step, with failures or without. */
  ghost predicate Ends(s: State, t: State) {
    exists q :: 0 <= q < |s.runners| && Complete(s, t, q)
  }

  /** No pass of this version has come to its end. */
  ghost predicate NoneEnded(job: Option<Job>) {
    job.Some? ==> job.value.dbVersion < SCRUB_VERSION && job.value.lastError != Some(RowFailures)
  }

  lemma WorkEndsNone(s: State, t: State, r: nat)
    requires NoneEnded(s.job) && r < |s.runners|
    requires || (exists touched, failures :: Sweep(s, t, r, touched, failures)) || Begin(s, t, r)
             || (exists at, page :: ReadPage(s, t, r, at, page))
             || (exists n, done, failures :: Hand(s, t, r, n, done, failures)) || TurnPage(s, t, r)
    ensures NoneEnded(t.job)
  {
  }

  lemma OtherwiseNone(s: State, t: State, r: nat)
    requires NoneEnded(s.job) && r < |s.runners|
    requires || (exists now :: Read(s, t, r, now)) || Take(s, t, r) || (exists stamp :: Renew(s, t, r, stamp))
             || Raise(s, t, r) || Save(s, t, r) || Vanish(s, t, r)
             || ScrubModel(s, t, r) || ModelRaises(s, t, r) || MarkModel(s, t, r)
    ensures NoneEnded(t.job)
  {
  }

  lemma NoneEndedStays(s: State, t: State)
    requires NoneEnded(s.job) && Next(s, t) && !Ends(s, t)
    ensures NoneEnded(t.job)
  {
    if r: nat :| RunnerStep(s, t, r) {
      if || (exists touched, failures :: Sweep(s, t, r, touched, failures)) || Begin(s, t, r)
         || (exists at, page :: ReadPage(s, t, r, at, page))
         || (exists n, done, failures :: Hand(s, t, r, n, done, failures)) || TurnPage(s, t, r) {
        WorkEndsNone(s, t, r);
      } else {
        OtherwiseNone(s, t, r);
      }
    }
  }

  lemma {:induction false} NoneEndedYet(run: seq<State>, i: nat)
    requires Behaviour(run) && i < |run| && NoneEnded(run[0].job)
    requires forall j | 0 <= j < i :: !Ends(run[j], run[j + 1])
    ensures NoneEnded(run[i].job)
  {
    if i > 0 {
      NoneEndedYet(run, i - 1);
      assert Follows(run, i - 1);
      NoneEndedStays(run[i - 1], run[i]);
    }
  }

  /** The model store is redacted only once a pass has been through every store. */
  lemma ModelAfterPass(run: seq<State>, i: nat, r: nat)
    requires Behaviour(run) && i + 1 < |run| && NoneEnded(run[0].job)
    requires r < |run[i].runners| && ScrubModel(run[i], run[i + 1], r)
    ensures exists j :: 0 <= j < i && Ends(run[j], run[j + 1])
  {
    if forall j | 0 <= j < i :: !Ends(run[j], run[j + 1]) {
      NoneEndedYet(run, i);
    }
  }

  /** And then it may be: rows that could not be redacted never hold it up. */
  lemma PassAllowsModel(s: State, t: State, q: nat, r: nat)
    requires q < |s.runners| && r < |t.runners| && Complete(s, t, q) && Holds(s, s.runners[q].held)
    requires t.job.value.modelDoneAt.None? && t.runners[r].Idle?
    ensures exists u :: ScrubModel(t, u, r)
  {
    assert ScrubModel(t, With(t, r, Marking).(modelScrubbed := true), r);
  }
}
