/**
 The lease of a deletion-scrub job: it is taken only when free, from one reading once, and it lasts.
 */
module Leases {
  import opened Wrappers
  import opened DeletionScrub

  /** Nobody holds the lease, by a clock that shows `now`. */
  ghost predicate Free(job: Job, now: Time) {
    job.claimedUntil.None? || job.claimedUntil.value < now
  }

  /** The row was free when it was read, and a run's stamp is its lease after its start at least. */
  ghost predicate Fair(s: State, runner: Runner) {
    match runner
    case Reading(copy, now) =>
      now <= s.clock && Free(copy, now) && (copy.claimedUntil.Some? ==> copy.claimedUntil.value in s.used)
    case Running(held, now, _, _, _, _, _, _, _) => now <= s.clock && held >= now + LEASE
    case _ => true
  }

  ghost predicate LeaseInv(s: State) {
    && (s.job.Some? && s.job.value.claimedUntil.Some? ==> s.job.value.claimedUntil.value in s.used)
    && forall r: nat {:trigger s.runners[r]} | r < |s.runners| :: Fair(s, s.runners[r])
  }

  /** The stamp on the row stays, goes, or is a new one unless one is written twice. */
  ghost predicate StampFrom(s: State, t: State) {
    t.job.Some? ==>
      && s.job.Some?
      && var was, stamp := s.job.value.claimedUntil, t.job.value.claimedUntil;
      stamp.None? || stamp == was || (stamp.value in t.used && (stamp.value in s.used ==> t.clash))
  }

  /** What one runner's step leaves to the others. */
  ghost predicate OwnStep(s: State, t: State, r: nat) {
    && r < |s.runners| == |t.runners| && t.runners == s.runners[r := t.runners[r]]
    && t.clock == s.clock && s.used <= t.used && (s.clash ==> t.clash) && StampFrom(s, t)
    && (LeaseInv(s) ==> Fair(t, t.runners[r]))
  }

  lemma ClaimSteps(s: State, t: State, r: nat)
    requires r < |s.runners|
    requires (exists now :: Read(s, t, r, now)) || Take(s, t, r) || (exists stamp :: Renew(s, t, r, stamp))
    ensures OwnStep(s, t, r) && (Takes(s, t, r) ==> Take(s, t, r))
  {
    assert LeaseInv(s) ==> Fair(s, s.runners[r]);
  }

  lemma SweepStep(s: State, t: State, r: nat, touched: set<Place>, failures: nat)
    requires r < |s.runners| && Sweep(s, t, r, touched, failures)
    ensures OwnStep(s, t, r) && !Takes(s, t, r)
  {
    assert LeaseInv(s) ==> Fair(s, s.runners[r]);
  }

  lemma ScanSteps(s: State, t: State, r: nat)
    requires r < |s.runners|
    requires || Begin(s, t, r) || (exists at, page :: ReadPage(s, t, r, at, page))
             || (exists n, done, failures :: Hand(s, t, r, n, done, failures)) || TurnPage(s, t, r)
    ensures OwnStep(s, t, r) && !Takes(s, t, r)
  {
    assert LeaseInv(s) ==> Fair(s, s.runners[r]);
  }

  lemma EndSteps(s: State, t: State, r: nat)
    requires r < |s.runners|
    requires Raise(s, t, r) || Save(s, t, r) || Complete(s, t, r) || Vanish(s, t, r)
    ensures OwnStep(s, t, r) && !Takes(s, t, r)
  {
  }

  lemma ModelSteps(s: State, t: State, r: nat)
    requires r < |s.runners| && (ScrubModel(s, t, r) || ModelRaises(s, t, r) || MarkModel(s, t, r))
    ensures OwnStep(s, t, r) && !Takes(s, t, r)
  {
  }

  lemma StepIsOwn(s: State, t: State, r: nat)
    requires RunnerStep(s, t, r)
    ensures OwnStep(s, t, r) && (Takes(s, t, r) ==> Take(s, t, r))
  {
    if (exists now :: Read(s, t, r, now)) || Take(s, t, r) || (exists stamp :: Renew(s, t, r, stamp)) {
      ClaimSteps(s, t, r);
    } else if touched, failures :| Sweep(s, t, r, touched, failures) {
      SweepStep(s, t, r, touched, failures);
    } else if Raise(s, t, r) || Save(s, t, r) || Complete(s, t, r) || Vanish(s, t, r) {
      EndSteps(s, t, r);
    } else if ScrubModel(s, t, r) || ModelRaises(s, t, r) || MarkModel(s, t, r) {
      ModelSteps(s, t, r);
    } else {
      ScanSteps(s, t, r);
    }
  }

  lemma LeaseKept(s: State, t: State)
    requires LeaseInv(s) && Next(s, t)
    ensures LeaseInv(t)
  {
    if r: nat :| RunnerStep(s, t, r) {
      StepIsOwn(s, t, r);
    }
    forall q: nat | q < |t.runners| ensures Fair(t, t.runners[q]) {
      assert q < |s.runners| && Fair(s, s.runners[q]);
    }
  }

  /** Every step of the run keeps the row's stamp, takes it off, or puts a new one on. */
  lemma NextStamps(s: State, t: State)
    requires Next(s, t)
    ensures StampFrom(s, t) && s.used <= t.used && (s.clash ==> t.clash)
  {
    if r: nat :| RunnerStep(s, t, r) {
      StepIsOwn(s, t, r);
    }
  }

  lemma {:induction false} LeaseInvHolds(run: seq<State>, i: nat)
    requires Behaviour(run) && i < |run|
    ensures LeaseInv(run[i])
  {
    if i == 0 {
      forall r: nat | r < |run[0].runners| ensures Fair(run[0], run[0].runners[r]) {
        assert run[0].runners[r] in run[0].runners;
      }
    } else {
      LeaseInvHolds(run, i - 1);
      assert Follows(run, i - 1);
      LeaseKept(run[i - 1], run[i]);
    }
  }

  /** The runner takes the lease in the step. */
  ghost predicate Takes(s: State, t: State, r: nat) {
    && r < |s.runners| && r < |t.runners| && s.runners[r].Reading? && t.runners[r].Running?
  }

  lemma TakesIsTake(s: State, t: State, r: nat)
    requires Next(s, t) && Takes(s, t, r)
    ensures Take(s, t, r)
  {
    if q: nat :| RunnerStep(s, t, q) {
      StepIsOwn(s, t, q);
    }
  }

  /** Whatever became of the row since it was read, a lease is taken only when nobody holds it, and lasts from
      then on. */
  lemma TakenFree(run: seq<State>, i: nat, r: nat)
    requires Behaviour(run) && i + 1 < |run| && Takes(run[i], run[i + 1], r)
    ensures run[i].job.Some? && Free(run[i].job.value, run[i].runners[r].now)
            && run[i].runners[r].now <= run[i].clock
    ensures Holds(run[i + 1], run[i + 1].runners[r].held)
  {
    LeaseInvHolds(run, i);
    assert Follows(run, i);
    TakesIsTake(run[i], run[i + 1], r);
    assert Fair(run[i], run[i].runners[r]);
  }

  /** However often it is renewed, a run's stamp is never short of its lease from its start. */
  lemma StampLasts(run: seq<State>, i: nat, r: nat)
    requires Behaviour(run) && i < |run| && r < |run[i].runners| && run[i].runners[r].Running?
    ensures run[i].runners[r].held >= run[i].runners[r].now + LEASE
  {
    LeaseInvHolds(run, i);
    assert Fair(run[i], run[i].runners[r]);
  }

  /** A stamp once written and shown no more. */
  ghost predicate Gone(s: State, stamp: Time) {
    stamp in s.used && !Holds(s, stamp)
  }

  lemma GoneStays(s: State, t: State, stamp: Time)
    requires Next(s, t) && Gone(s, stamp) && !t.clash
    ensures Gone(t, stamp) && !s.clash
  {
    NextStamps(s, t);
  }

  lemma {:induction false} StaysGone(run: seq<State>, i: nat, j: nat, stamp: Time)
    requires Behaviour(run) && i <= j < |run| && Gone(run[i], stamp) && !run[j].clash
    ensures Gone(run[j], stamp)
    decreases j
  {
    if i < j {
      assert Follows(run, j - 1);
      NextStamps(run[j - 1], run[j]);
      StaysGone(run, i, j - 1, stamp);
      GoneStays(run[j - 1], run[j], stamp);
    }
  }

  lemma {:induction false} UnclashedBefore(run: seq<State>, i: nat, j: nat)
    requires Behaviour(run) && i <= j < |run| && !run[j].clash
    ensures !run[i].clash
    decreases j
  {
    if i < j {
      assert Follows(run, j - 1);
      NextStamps(run[j - 1], run[j]);
      UnclashedBefore(run, i, j - 1);
    }
  }

  /** Of the runners that read the row with the same stamp on it, one takes the lease, while no stamp was
      written twice. */
  lemma OneWins(run: seq<State>, i: nat, j: nat, q: nat, r: nat)
    requires Behaviour(run) && i < j && j + 1 < |run| && !run[j].clash
    requires Takes(run[i], run[i + 1], q) && Takes(run[j], run[j + 1], r)
    requires run[i].runners[q].copy.claimedUntil.Some?
    ensures run[j].runners[r].copy.claimedUntil != run[i].runners[q].copy.claimedUntil
  {
    var stamp := run[i].runners[q].copy.claimedUntil.value;
    LeaseInvHolds(run, i);
    assert Fair(run[i], run[i].runners[q]);
    assert Follows(run, i) && Follows(run, j);
    TakesIsTake(run[i], run[i + 1], q);
    TakesIsTake(run[j], run[j + 1], r);
    UnclashedBefore(run, i + 1, j);
    assert Gone(run[i + 1], stamp);
    StaysGone(run, i + 1, j, stamp);
  }
}
