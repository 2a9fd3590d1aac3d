/**
 The match ids of matches that raced the deletion: a row that needs one is handed over exactly when the
 run that gets to its page holds it, and a row left untouched is one that some run went past without.
 */
module RacedIds {
  import opened Wrappers
  import opened DeletionScrub
  import opened CapturedIds

  /** A run goes past p without holding a match id that finds it. */
  ghost predicate GoesPast(s: State, t: State, p: Place) {
    exists r: nat, n: nat, done: set<Place>, failures: nat ::
      r < |s.runners| && Hand(s, t, r, n, done, failures) && p in MissedOf(s.rows, s.runners[r], n)
  }

  /** In a transaction that counts no failure each row of the page is handed over iff the runner's ids find
      it, and is missed by the pass from then on iff they do not. */
  lemma HandedWhenFound(s: State, t: State, r: nat, n: nat, done: set<Place>, i: nat)
    requires Inv(s) && r < |s.runners| && Hand(s, t, r, n, done, 0) && s.runners[r].at <= i < s.runners[r].at + n
    ensures var runner := s.runners[r];
            var p := Place(runner.pass.value.scan, runner.page[i]);
            p in s.rows && s.rows[p].reach.Paged? ==>
              && t.rows[p]
                 == (if KnownBy(s.rows[p], runner.matches) then s.rows[p].(scrubbed := Some(s.clock)) else s.rows[p])
              && (p in t.runners[r].pass.value.missed <==>
                    p in runner.pass.value.missed || !KnownBy(s.rows[p], runner.matches))
  {
    var runner := s.runners[r];
    assert HonestRunner(s, runner);
    var p := Place(runner.pass.value.scan, runner.page[i]);
    if p in s.rows && s.rows[p].reach.Paged? {
      if KnownBy(s.rows[p], runner.matches) {
        assert Found(s.rows, runner, i);
        assert p in ChunkOf(s.rows, runner, n);
      } else {
        assert Lost(s.rows, runner, i);
        assert p in MissedOf(s.rows, runner, n);
      }
    }
  }

  // ---- What was missed was gone past ----

  ghost predicate InScan(scan: Option<Pass>, p: Place) {
    scan.Some? && scan.value.version == SCRUB_VERSION && p in scan.value.missed
  }

  ghost predicate MissedBy(runner: Runner, p: Place) {
    match runner
    case Reading(copy, _) => InScan(copy.scan, p)
    case Running(_, _, _, _, _, pass, _, _, _) => pass.Some? && p in pass.value.missed
    case _ => false
  }

  ghost predicate OnRow(job: Job, p: Place) {
    InScan(job.scan, p) || (job.dbVersion == SCRUB_VERSION && p in job.missed)
  }

  /** Some pass has missed p. */
  ghost predicate Missing(s: State, p: Place) {
    || (s.job.Some? && OnRow(s.job.value, p))
    || (exists r :: r in s.runners && MissedBy(r, p))
    || (s.finished.Some? && p in s.finished.value.missed)
  }

  lemma OfRunner(s: State, t: State, r: nat, runner: Runner, p: Place)
    requires r < |s.runners| && t.runners == s.runners[r := runner] && t.finished == s.finished && Missing(t, p)
    requires t.job.Some? && OnRow(t.job.value, p) ==> Missing(s, p)
    requires MissedBy(runner, p) ==> Missing(s, p)
    ensures Missing(s, p)
  {
    if q :| q in t.runners && MissedBy(q, p) {
      if q != runner { assert q in s.runners; }
    }
  }

  lemma LeaseStep(s: State, t: State, r: nat, p: Place)
    requires r < |s.runners| && Missing(t, p)
    requires (exists now :: Read(s, t, r, now)) || Take(s, t, r) || (exists stamp :: Renew(s, t, r, stamp))
    ensures Missing(s, p)
  {
    assert s.runners[r] in s.runners;
    OfRunner(s, t, r, t.runners[r], p);
  }

  lemma QuietStep(s: State, t: State, r: nat, p: Place)
    requires r < |s.runners| && Missing(t, p)
    requires Begin(s, t, r) || TurnPage(s, t, r) || Raise(s, t, r) || Vanish(s, t, r)
    ensures Missing(s, p)
  {
    assert s.runners[r] in s.runners;
    OfRunner(s, t, r, t.runners[r], p);
  }

  lemma StoreStep(s: State, t: State, r: nat, p: Place)
    requires r < |s.runners| && Missing(t, p)
    requires (exists touched, failures :: Sweep(s, t, r, touched, failures))
             || (exists at, page :: ReadPage(s, t, r, at, page))
    ensures Missing(s, p)
  {
    assert s.runners[r] in s.runners;
    OfRunner(s, t, r, t.runners[r], p);
  }

  lemma EndStep(s: State, t: State, r: nat, p: Place)
    requires r < |s.runners| && Missing(t, p) && (Save(s, t, r) || Complete(s, t, r))
    ensures Missing(s, p)
  {
    assert s.runners[r] in s.runners;
    OfRunner(s, t, r, Idle, p);
  }

  lemma ModelStep(s: State, t: State, r: nat, p: Place)
    requires r < |s.runners| && Missing(t, p) && (ScrubModel(s, t, r) || ModelRaises(s, t, r) || MarkModel(s, t, r))
    ensures Missing(s, p)
  {
    assert s.runners[r] in s.runners;
    assert t.runners == s.runners[r := t.runners[r]];
    OfRunner(s, t, r, t.runners[r], p);
  }

  lemma HandStep(s: State, t: State, r: nat, n: nat, done: set<Place>, failures: nat, p: Place)
    requires r < |s.runners| && Missing(t, p) && Hand(s, t, r, n, done, failures)
    ensures Missing(s, p) || GoesPast(s, t, p)
  {
    assert s.runners[r] in s.runners;
    if p !in MissedOf(s.rows, s.runners[r], n) {
      OfRunner(s, t, r, t.runners[r], p);
    }
  }

  lemma MissedFrom(s: State, t: State, p: Place)
    requires Next(s, t) && Missing(t, p)
    ensures Missing(s, p) || GoesPast(s, t, p)
  {
    if Finish(s, t) || Environment(s, t) {
      assert t.runners == s.runners;
    } else {
      var r :| RunnerStep(s, t, r);
      if n, done, failures :| Hand(s, t, r, n, done, failures) {
        HandStep(s, t, r, n, done, failures, p);
      } else if (exists touched, failures :: Sweep(s, t, r, touched, failures))
          || (exists at, page :: ReadPage(s, t, r, at, page)) {
        StoreStep(s, t, r, p);
      } else if Save(s, t, r) || Complete(s, t, r) {
        EndStep(s, t, r, p);
      } else if ScrubModel(s, t, r) || ModelRaises(s, t, r) || MarkModel(s, t, r) {
        ModelStep(s, t, r, p);
      } else if Begin(s, t, r) || TurnPage(s, t, r) || Raise(s, t, r) || Vanish(s, t, r) {
        QuietStep(s, t, r, p);
      } else {
        LeaseStep(s, t, r, p);
      }
    }
  }

  lemma NoneAtFirst(s: State, p: Place)
    requires Init(s)
    ensures !Missing(s, p)
  {
    assert forall r | r in s.runners :: !MissedBy(r, p);
  }

  lemma PastAt(run: seq<State>, j: nat, p: Place)
    requires Behaviour(run) && j + 1 < |run| && Missing(run[j + 1], p)
    ensures Missing(run[j], p) || GoesPast(run[j], run[j + 1], p)
  {
    assert Follows(run, j);
    MissedFrom(run[j], run[j + 1], p);
  }

  lemma {:induction false} GonePast(run: seq<State>, i: nat, p: Place) returns (j: nat)
    requires Behaviour(run) && i < |run| && Missing(run[i], p)
    ensures j < i && GoesPast(run[j], run[j + 1], p)
  {
    NoneAtFirst(run[0], p);
    j := i - 1;
    PastAt(run, j, p);
    if Missing(run[j], p) { j := GonePast(run, j, p); }
  }

  /** A row in scope when the recorded pass started, and untouched since: it needs a match id, none of those
      captured finds it, and some run went past it without one that does. */
  lemma UntouchedRow(run: seq<State>, i: nat, p: Place)
    requires Behaviour(run) && i < |run| && p in run[i].rows
    requires run[i].job.Some? && run[i].job.value.dbVersion == SCRUB_VERSION && run[i].job.value.dbDoneAt.Some?
    requires !Since(run[i].rows[p], run[i].job.value.dbDoneAt.value)
    ensures !KnownBy(run[i].rows[p], run[0].job.value.matchIds)
    ensures exists j | 0 <= j < i :: GoesPast(run[j], run[j + 1], p)
  {
    RecordedPassHands(run, i);
    RecordedPassCovers(run, i);
    assert p in run[i].job.value.missed;
    var j := GonePast(run, i, p);
  }

  /** So it is of a row in scope when the pass that the job's row was deleted on started. */
  lemma UntouchedWhenDeleted(run: seq<State>, i: nat, p: Place)
    requires Behaviour(run) && i < |run| && p in run[i].rows && run[i].job.None?
    requires run[i].finished.Some? && !Since(run[i].rows[p], run[i].finished.value.at)
    ensures !KnownBy(run[i].rows[p], run[0].job.value.matchIds)
    ensures exists j | 0 <= j < i :: GoesPast(run[j], run[j + 1], p)
  {
    DeletedRowHands(run, i);
    DeletedRowIsCovered(run, i);
    assert p in run[i].finished.value.missed;
    var j := GonePast(run, i, p);
  }
}
