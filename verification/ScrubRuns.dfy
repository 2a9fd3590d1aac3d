/** Behaviours of the deletion-scrub job that its steps do reach. */
module ScrubRuns {
  import opened Wrappers
  import opened DeletionScrub
  import opened ModelStore
  import opened DuePasses

  lemma Extended(run: seq<State>, t: State)
    requires Behaviour(run) && Next(run[|run| - 1], t)
    ensures Behaviour(run + [t])
  {
    var more := run + [t];
    forall i | 0 <= i < |more| - 1 ensures Follows(more, i) {
      if i < |run| - 1 { assert Follows(run, i); }
    }
  }

  lemma Stepped(run: seq<State>, t: State, r: nat)
    requires Behaviour(run) && RunnerStep(run[|run| - 1], t, r)
    ensures Behaviour(run + [t])
  {
    Extended(run, t);
  }

  lemma Grown(run: seq<State>, t: State, r: nat) returns (more: seq<State>)
    requires Behaviour(run) && RunnerStep(run[|run| - 1], t, r)
    ensures Behaviour(more) && run <= more && more[|more| - 1] == t
  {
    Stepped(run, t, r);
    more := run + [t];
  }

  // ---- A runner at work ----

  /** A match id, which the notification at NOTICE needs. */
  const MATCH: nat := 7
  const PAGED := Place(0, 1)
  const CARD := Place(5, 1)
  const SOURCE := Place(5, 2)
  const NOTICE := Place(7, 1)

  /** What went before a runner's pass: when it read the row and the version it saw there, when the card
      arrived, if it did, and when it and the other rows were last handed over. */
  datatype Past = Past(now: Time, version: nat, born: Option<Time>, card: Option<Time>, rest: Option<Time>)

  function Anew(now: Time): Past {
    Past(now, 0, Some(0), None, None)
  }

  /** Rows from before the deletion and a card, one for each way a pass reaches a row, as a runner leaves them that
      has swept and scanned so far, and that finds the notice or does not. */
  function Stores(swept: nat, scan: nat, found: bool, clock: Time, past: Past): map<Place, StoreRow> {
    map[
      PAGED := StoreRow(0, Paged(0, {}), if scan > 0 then Some(clock) else past.rest),
      SOURCE := StoreRow(0, AtEnd, if scan > 5 then Some(clock) else past.rest),
      NOTICE := StoreRow(0, Paged(0, {MATCH}), if found && scan > 7 then Some(clock) else past.rest)]
    + (if past.born.None? then map[]
       else map[CARD := StoreRow(past.born.value, Swept(GRADING), if swept > GRADING then Some(clock) else past.card)])
  }

  ghost function Worker(now: Time, version: nat, matches: set<nat>, swept: nat, pass: Option<Pass>): Runner {
    Running(now + LEASE, now, version, matches, swept, pass, 0, [], 0)
  }

  /** The runner has swept or scanned so far, all else being as in the base. */
  ghost function Working(base: State, r: nat, matches: set<nat>, swept: nat, pass: Option<Pass>, scan: nat,
                         past: Past): State
    requires r < |base.runners|
  {
    With(base, r, Worker(past.now, past.version, matches, swept, pass))
    .(rows := Stores(swept, scan, MATCH in matches, base.clock, past))
  }

  ghost function PassAt(past: Past, matches: set<nat>, scan: nat): Pass {
    Pass(SCRUB_VERSION, scan, 0, 0, past.now, if scan > 7 && MATCH !in matches then {NOTICE} else {})
  }

  ghost function Scanning(base: State, r: nat, matches: set<nat>, scan: nat, past: Past): State
    requires r < |base.runners|
  {
    Working(base, r, matches, STORES, Some(PassAt(past, matches, scan)), scan, past)
  }

  lemma SweepNext(base: State, r: nat, matches: set<nat>, k: nat, past: Past)
    requires r < |base.runners| && k < STORES && base.raced == {}
    ensures RunnerStep(Working(base, r, matches, k, None, 0, past), Working(base, r, matches, k + 1, None, 0, past), r)
  {
    var s, t := Working(base, r, matches, k, None, 0, past), Working(base, r, matches, k + 1, None, 0, past);
    var touched := SweepOf(s.rows, k);
    assert t.rows == Scrub(s.rows, touched, s.clock);
    assert t.runners == s.runners[r := t.runners[r]];
    assert Sweep(s, t, r, touched, 0);
  }

  lemma {:induction false} SweptTo(run: seq<State>, base: State, r: nat, matches: set<nat>, k: nat, past: Past)
    returns (more: seq<State>)
    requires r < |base.runners| && k <= STORES && base.raced == {}
    requires Behaviour(run) && run[|run| - 1] == Working(base, r, matches, 0, None, 0, past)
    ensures Behaviour(more) && run <= more && more[|more| - 1] == Working(base, r, matches, k, None, 0, past)
  {
    if k == 0 {
      more := run;
    } else {
      more := SweptTo(run, base, r, matches, k - 1, past);
      SweepNext(base, r, matches, k - 1, past);
      more := Grown(more, Working(base, r, matches, k, None, 0, past), r);
    }
  }

  lemma Begun(base: State, r: nat, matches: set<nat>, past: Past)
    requires r < |base.runners|
    ensures RunnerStep(Working(base, r, matches, STORES, None, 0, past), Scanning(base, r, matches, 0, past), r)
  {
    var s, t := Working(base, r, matches, STORES, None, 0, past), Scanning(base, r, matches, 0, past);
    assert t.runners == s.runners[r := t.runners[r]];
    assert Begin(s, t, r);
  }

  lemma EmptyStore(scan: nat, known: bool, clock: Time, past: Past)
    requires 0 < scan < SCANS && scan != 7
    ensures var rows := Stores(STORES, scan, known, clock, past);
            && IsPage(rows, scan, 0, clock, [])
            && Stores(STORES, scan + 1, known, clock, past) == Scrub(rows, EndOf(rows, scan), clock)
  {
  }

  /** A store without a page. */
  lemma EmptyScan(base: State, r: nat, matches: set<nat>, scan: nat, past: Past)
    requires past.now <= base.clock && r < |base.runners| && 0 < scan < SCANS && scan != 7
    ensures RunnerStep(Scanning(base, r, matches, scan, past), Scanning(base, r, matches, scan + 1, past), r)
  {
    var s, t := Scanning(base, r, matches, scan, past), Scanning(base, r, matches, scan + 1, past);
    EmptyStore(scan, MATCH in matches, base.clock, past);
    assert t.runners == s.runners[r := t.runners[r]];
    assert ReadPage(s, t, r, s.clock, []);
  }

  /** The page of a store with one row, read, and the store once it is handed over and the page turned. */
  ghost function OnePage(base: State, r: nat, matches: set<nat>, scan: nat, past: Past): State
    requires r < |base.runners|
  {
    var s := Scanning(base, r, matches, scan, past);
    With(s, r, s.runners[r].(page := [1]))
  }

  ghost function OneHanded(base: State, r: nat, matches: set<nat>, scan: nat, past: Past): State
    requires r < |base.runners|
  {
    var next := Scanning(base, r, matches, scan + 1, past);
    With(next, r, next.runners[r].(page := [1], at := 1, pass := Some(PassAt(past, matches, scan + 1).(scan := scan))))
  }

  ghost function OneTurned(base: State, r: nat, matches: set<nat>, scan: nat, past: Past): State
    requires r < |base.runners|
  {
    var next := Scanning(base, r, matches, scan + 1, past);
    With(next, r, next.runners[r].(pass := Some(PassAt(past, matches, scan + 1).(scan := scan, after := 1))))
  }

  /** A store with one page of one row: read, handed over, turned, and past. */
  lemma OneRowScan(run: seq<State>, base: State, r: nat, matches: set<nat>, scan: nat, past: Past)
    returns (more: seq<State>)
    requires past.now <= base.clock && r < |base.runners| && (scan == 0 || scan == 7)
    requires Behaviour(run) && run[|run| - 1] == Scanning(base, r, matches, scan, past)
    ensures Behaviour(more) && run <= more && more[|more| - 1] == Scanning(base, r, matches, scan + 1, past)
  {
    ReadsIt(base, r, matches, scan, past);
    more := Grown(run, OnePage(base, r, matches, scan, past), r);
    HandsIt(base, r, matches, scan, past);
    more := Grown(more, OneHanded(base, r, matches, scan, past), r);
    TurnsIt(base, r, matches, scan, past);
    more := Grown(more, OneTurned(base, r, matches, scan, past), r);
    NoMore(base, r, matches, scan, past);
    more := Grown(more, Scanning(base, r, matches, scan + 1, past), r);
  }

  lemma ReadsIt(base: State, r: nat, matches: set<nat>, scan: nat, past: Past)
    requires past.now <= base.clock && r < |base.runners| && (scan == 0 || scan == 7)
    ensures RunnerStep(Scanning(base, r, matches, scan, past), OnePage(base, r, matches, scan, past), r)
  {
    var s := Scanning(base, r, matches, scan, past);
    assert IsPage(s.rows, scan, 0, s.clock, [1]);
    assert ReadPage(s, OnePage(base, r, matches, scan, past), r, s.clock, [1]);
  }

  lemma HandsIt(base: State, r: nat, matches: set<nat>, scan: nat, past: Past)
    requires r < |base.runners| && (scan == 0 || scan == 7)
    ensures RunnerStep(OnePage(base, r, matches, scan, past), OneHanded(base, r, matches, scan, past), r)
  {
    var b, c := OnePage(base, r, matches, scan, past), OneHanded(base, r, matches, scan, past);
    var found := scan == 0 || MATCH in matches;
    var done: set<Place> := if found then {Place(scan, 1)} else {};
    OneFound(b.rows, b.runners[r], scan, found);
    var missed := MissedOf(b.rows, b.runners[r], 1);
    assert PassAt(past, matches, scan).missed + missed == PassAt(past, matches, scan + 1).missed;
    HandsRows(scan, MATCH in matches, base.clock, past);
    assert c.runners[r] == Handed(b.rows, b.runners[r], 1, 0);
    assert c.runners == b.runners[r := c.runners[r]];
    assert Hand(b, c, r, 1, done, 0);
  }

  lemma HandsRows(scan: nat, known: bool, clock: Time, past: Past)
    requires scan == 0 || scan == 7
    ensures Stores(STORES, scan + 1, known, clock, past) ==
            Scrub(Stores(STORES, scan, known, clock, past), if scan == 0 || known then {Place(scan, 1)} else {}, clock)
  {
  }

  lemma OneFound(rows: map<Place, StoreRow>, runner: Runner, scan: nat, found: bool)
    requires runner.Running? && runner.pass.Some? && runner.pass.value.scan == scan && runner.page == [1]
             && runner.at == 0
    requires Place(scan, 1) in rows && rows[Place(scan, 1)].reach == Paged(0, if scan == 0 then {} else {MATCH})
    requires found == (scan == 0 || MATCH in runner.matches)
    ensures ChunkOf(rows, runner, 1) == (if found then {Place(scan, 1)} else {})
    ensures MissedOf(rows, runner, 1) == (if found then {} else {Place(scan, 1)})
  {
    assert Found(rows, runner, 0) <==> found;
    assert Lost(rows, runner, 0) <==> !found;
  }

  lemma TurnsIt(base: State, r: nat, matches: set<nat>, scan: nat, past: Past)
    requires r < |base.runners|
    ensures RunnerStep(OneHanded(base, r, matches, scan, past), OneTurned(base, r, matches, scan, past), r)
  {
    var c, d := OneHanded(base, r, matches, scan, past), OneTurned(base, r, matches, scan, past);
    assert d.runners == c.runners[r := d.runners[r]];
    assert TurnPage(c, d, r);
  }

  lemma NoMore(base: State, r: nat, matches: set<nat>, scan: nat, past: Past)
    requires past.now <= base.clock && r < |base.runners| && (scan == 0 || scan == 7)
    ensures RunnerStep(OneTurned(base, r, matches, scan, past), Scanning(base, r, matches, scan + 1, past), r)
  {
    var d, next := OneTurned(base, r, matches, scan, past), Scanning(base, r, matches, scan + 1, past);
    assert IsPage(d.rows, scan, 1, d.clock, []);
    assert EndOf(d.rows, scan) == {};
    assert next.rows == Scrub(d.rows, {}, d.clock);
    assert next.runners == d.runners[r := next.runners[r]];
    assert ReadPage(d, next, r, d.clock, []);
  }

  lemma {:induction false} ScannedTo(run: seq<State>, base: State, r: nat, matches: set<nat>, scan: nat,
                                     past: Past)
    returns (more: seq<State>)
    requires past.now <= base.clock && r < |base.runners| && scan <= SCANS
    requires Behaviour(run) && run[|run| - 1] == Scanning(base, r, matches, 0, past)
    ensures Behaviour(more) && run <= more && more[|more| - 1] == Scanning(base, r, matches, scan, past)
  {
    if scan == 0 {
      more := run;
    } else {
      more := ScannedTo(run, base, r, matches, scan - 1, past);
      more := ScanOne(more, base, r, matches, scan - 1, past);
    }
  }

  lemma ScanOne(run: seq<State>, base: State, r: nat, matches: set<nat>, scan: nat, past: Past)
    returns (more: seq<State>)
    requires past.now <= base.clock && r < |base.runners| && scan < SCANS
    requires Behaviour(run) && run[|run| - 1] == Scanning(base, r, matches, scan, past)
    ensures Behaviour(more) && run <= more && more[|more| - 1] == Scanning(base, r, matches, scan + 1, past)
  {
    if scan == 0 || scan == 7 {
      more := OneRowScan(run, base, r, matches, scan, past);
    } else {
      EmptyScan(base, r, matches, scan, past);
      more := Grown(run, Scanning(base, r, matches, scan + 1, past), r);
    }
  }

  /** The row that a runner's pass leaves, having found the notice or missed it. */
  ghost function Passed(job: Job, clock: Time, missed: set<Place>): Job {
    job.(dbVersion := SCRUB_VERSION, dbDoneAt := Some(clock), scan := None, claimedUntil := None,
         lastError := None, missed := missed)
  }

  /** The pass is recorded. */
  lemma RecordedRun(run: seq<State>, base: State, r: nat, matches: set<nat>, past: Past)
    returns (more: seq<State>)
    requires past.now <= base.clock && r < |base.runners| && base.raced == {} && base.job.Some?
    requires Holds(base, past.now + LEASE)
    requires past.version == 0 || past.version == SCRUB_VERSION
    requires Behaviour(run) && run[|run| - 1] == Working(base, r, matches, 0, None, 0, past)
    ensures Behaviour(more) && run <= more
    ensures more[|more| - 1] ==
            With(base, r, Idle).(rows := Stores(STORES, SCANS, MATCH in matches, base.clock, past),
                                 job := Some(Passed(base.job.value, past.now,
                                                    if MATCH in matches then {} else {NOTICE})))
  {
    more := SweptTo(run, base, r, matches, STORES, past);
    Begun(base, r, matches, past);
    more := Grown(more, Scanning(base, r, matches, 0, past), r);
    more := ScannedTo(more, base, r, matches, SCANS, past);
    var s := more[|more| - 1];
    var t := With(s.(job := Some(Recorded(s.job.value, s.runners[r]))), r, Idle);
    assert Complete(s, t, r);
    Stepped(more, t, r);
    assert t.runners == base.runners[r := Idle];
    more := more + [t];
  }

  /** The model store is redacted and marked, and the row deleted. */
  lemma Ended(run: seq<State>, r: nat) returns (more: seq<State>)
    requires Behaviour(run)
    requires var s := run[|run| - 1];
             && r < |s.runners| && s.runners[r].Idle? && s.job.Some? && s.job.value.dbVersion == SCRUB_VERSION
             && s.job.value.scan.None? && s.job.value.dbDoneAt.Some? && s.job.value.modelDoneAt.None?
             && s.job.value.dbDoneAt.value >= s.deletedAt + IN_FLIGHT_GRACE
    ensures Behaviour(more) && run <= more
    ensures var s, t := run[|run| - 1], more[|more| - 1];
            && t.job.None? && t.finished == Some(Done(s.job.value.dbDoneAt.value, s.job.value.missed))
            && t.rows == s.rows && t.modelScrubbed
  {
    var a := run[|run| - 1];
    var b := With(a, r, Marking).(modelScrubbed := true);
    assert ScrubModel(a, b, r);
    Stepped(run, b, r);
    var c := With(b, r, Idle).(job := Some(b.job.value.(modelDoneAt := Some(b.clock))));
    assert MarkModel(b, c, r);
    Stepped(run + [b], c, r);
    var d := c.(job := None, finished := Some(Done(a.job.value.dbDoneAt.value, a.job.value.missed)));
    assert Finish(c, d);
    Extended(run + [b] + [c], d);
    more := run + [b] + [c] + [d];
  }

  // ---- A behaviour that finishes ----

  function Fresh(marked: Option<Time>, matches: set<nat>): Job {
    Job(0, None, marked, None, None, None, matches, {})
  }

  /** A runner takes the lease that its copy of the row shows. */
  lemma Takes(run: seq<State>, r: nat, past: Past) returns (more: seq<State>, base: State)
    requires Behaviour(run)
    requires var s := run[|run| - 1];
             && r < |s.runners| && s.runners[r].Reading? && s.runners[r].now == past.now && s.job.Some?
             && var copy := s.runners[r].copy;
             && copy.dbVersion == past.version && copy.scan.None? && copy.claimedUntil == s.job.value.claimedUntil
             && s.rows == Stores(0, 0, MATCH in copy.matchIds, s.clock, past)
    ensures Behaviour(more) && run <= more
    ensures var s := run[|run| - 1];
            && base == Stamped(s, s.job.value, past.now + LEASE)
            && more[|more| - 1] == Working(base, r, s.runners[r].copy.matchIds, 0, None, 0, past)
  {
    var s := run[|run| - 1];
    var copy := s.runners[r].copy;
    base := Stamped(s, s.job.value, past.now + LEASE);
    var t := Working(base, r, copy.matchIds, 0, None, 0, past);
    assert t.runners == s.runners[r := Resumed(copy, past.now)];
    assert Take(s, t, r);
    more := Grown(run, t, r);
  }

  /** A runner reads the row and takes the lease, its clock that of the system. */
  lemma Taken(run: seq<State>, r: nat, past: Past) returns (more: seq<State>, base: State)
    requires Behaviour(run)
    requires var s := run[|run| - 1];
             && r < |s.runners| && s.runners[r].Idle? && s.job.Some? && s.job.value.dbVersion == past.version
             && past.now == s.clock && DbDue(s.job.value, s.deletedAt, s.clock)
             && s.job.value.scan.None? && s.rows == Stores(0, 0, MATCH in s.job.value.matchIds, s.clock, past)
             && (s.job.value.claimedUntil.Some? ==> s.job.value.claimedUntil.value < s.clock)
    ensures Behaviour(more) && run <= more
    ensures var s := run[|run| - 1];
            && base == Stamped(s, s.job.value, past.now + LEASE).(runners := base.runners)
            && base.runners == s.runners[r := Reading(s.job.value, past.now)]
            && more[|more| - 1] == Working(base, r, s.job.value.matchIds, 0, None, 0, past)
  {
    var s := run[|run| - 1];
    var u := With(s, r, Reading(s.job.value, past.now));
    assert Read(s, u, r, past.now);
    more := Grown(run, u, r);
    more, base := Takes(more, r, past);
  }

  /** The first pass over a row, with a card or without. */
  lemma FinishedPass(marked: Option<Time>, past: Past) returns (run: seq<State>)
    requires past.version == 0 && past.card.None? && past.rest.None?
    ensures Behaviour(run) && run[0].job == Some(Fresh(marked, {MATCH}))
    ensures var s := run[|run| - 1];
            && s.runners == [Idle] && s.deletedAt == 0 && s.clock == past.now && s.raced == {}
            && !s.modelScrubbed && s.finished.None?
            && s.job == Some(Passed(Fresh(marked, {MATCH}), past.now, {}))
            && s.rows == Stores(STORES, SCANS, true, past.now, past)
  {
    var now := past.now;
    var s0 := State(now, 0, Some(Fresh(marked, {MATCH})), Stores(0, 0, true, now, past), {}, [Idle], {}, false, false,
                    None);
    run := [s0];
    var base: State;
    run, base := Taken(run, 0, past);
    run := RecordedRun(run, base, 0, {MATCH}, past);
    assert With(base, 0, Idle).runners == [Idle];
  }

  /** The steps do reach a recorded pass, and the row's deletion, with a row of every reach in scope, one of
      them found by a match id alone, and all handed over. */
  lemma SomeRunFinishes() returns (run: seq<State>)
    ensures Behaviour(run) && run[|run| - 1].job.None? && run[|run| - 1].modelScrubbed
    ensures var s := run[|run| - 1];
            && s.finished == Some(Done(IN_FLIGHT_GRACE, {}))
            && {PAGED, CARD, SOURCE, NOTICE} <= s.rows.Keys
            && forall p <- s.rows :: InScope(s.rows[p], IN_FLIGHT_GRACE) && s.rows[p].scrubbed == Some(IN_FLIGHT_GRACE)
  {
    run := FinishedPass(None, Anew(IN_FLIGHT_GRACE));
    run := Ended(run, 0);
  }

  const SOON: Time := 1_000_000
  const IN_FLIGHT: Time := 2_000_000
  const PAST_GRACE: Time := IN_FLIGHT_GRACE + ROW_FAILURE_BACKOFF

  /** The first pass is over when a card arrives that was in flight at the deletion, and the grace goes by. */
  lemma CardArrives() returns (run: seq<State>, i: nat)
    ensures Behaviour(run) && i + 4 == |run| && run[i].deletedAt == 0
    ensures run[i].job == Some(Passed(Fresh(None, {MATCH}), SOON, {}))
    ensures run[i].rows == Stores(STORES, SCANS, true, SOON, Past(SOON, 0, None, None, None))
    ensures run[i + 3] == run[i].(clock := PAST_GRACE, rows := Stores(0, 0, true, PAST_GRACE, SecondPast()))
    ensures run[i].runners == [Idle] && run[i].raced == {} && !run[i].modelScrubbed && run[i].finished.None?
  {
    var first := FinishedPass(None, Past(SOON, 0, None, None, None));
    i := |first| - 1;
    var s := first[i];
    var u := s.(clock := IN_FLIGHT);
    assert Environment(s, u);
    Extended(first, u);
    var v := u.(rows := u.rows[CARD := StoreRow(IN_FLIGHT, Swept(GRADING), None)]);
    assert CARD !in u.rows && Sited(CARD, Swept(GRADING));
    assert Environment(u, v);
    Extended(first + [u], v);
    var w := v.(clock := PAST_GRACE);
    assert Environment(v, w);
    Extended(first + [u] + [v], w);
    assert w.rows == Stores(0, 0, true, PAST_GRACE, SecondPast());
    run := first + [u] + [v] + [w];
  }

  function SecondPast(): Past {
    Past(PAST_GRACE, SCRUB_VERSION, Some(IN_FLIGHT), None, Some(SOON))
  }

  /** A pass begun a second after the deletion is recorded, and the row stays. Past the grace it is read again,
      every row is handed over once more, a card in flight at the deletion for the first time, and the row is
      deleted on that pass. */
  lemma TwoPassesFinish() returns (run: seq<State>, i: nat)
    ensures Behaviour(run) && i < |run| && run[i].job.Some?
    ensures run[i].job.value.dbVersion == SCRUB_VERSION && run[i].job.value.dbDoneAt == Some(SOON)
    ensures run[i].deletedAt == 0 && run[i].rows.Keys == {PAGED, SOURCE, NOTICE}
            && forall p <- run[i].rows :: run[i].rows[p].scrubbed == Some(SOON)
    ensures var s := run[|run| - 1];
            && s.job.None? && s.modelScrubbed && s.finished == Some(Done(PAST_GRACE, {}))
            && s.rows.Keys == {PAGED, CARD, SOURCE, NOTICE} && s.rows[CARD].born == IN_FLIGHT
            && forall p <- s.rows :: InScope(s.rows[p], PAST_GRACE) && s.rows[p].scrubbed == Some(PAST_GRACE)
  {
    run, i := SecondPass();
    AllHanded(SOON, Past(SOON, 0, None, None, None));
    AllHanded(PAST_GRACE, SecondPast());
    var recorded := run;
    run := Ended(run, 0);
    assert run[i] == recorded[i];
  }

  lemma SecondPass() returns (run: seq<State>, i: nat)
    ensures Behaviour(run) && i < |run| && run[i].deletedAt == 0
    ensures run[i].job == Some(Passed(Fresh(None, {MATCH}), SOON, {}))
    ensures run[i].rows == Stores(STORES, SCANS, true, SOON, Past(SOON, 0, None, None, None))
    ensures var s := run[|run| - 1];
            && s.runners == [Idle] && s.deletedAt == 0 && s.job == Some(Passed(run[i].job.value, PAST_GRACE, {}))
            && s.rows == Stores(STORES, SCANS, true, PAST_GRACE, SecondPast())
  {
    run, i := CardArrives();
    var arrived := run;
    var base: State;
    run, base := Taken(run, 0, SecondPast());
    run := RecordedRun(run, base, 0, {MATCH}, SecondPast());
    assert run[i] == arrived[i];
    assert With(base, 0, Idle).runners == [Idle];
  }

  /** After a pass that finds the notice every row has been handed over, and those born before were in scope. */
  lemma AllHanded(clock: Time, past: Past)
    requires clock > 0
    ensures var rows := Stores(STORES, SCANS, true, clock, past);
            && rows.Keys == {PAGED, SOURCE, NOTICE} + (if past.born.Some? then {CARD} else {})
            && (past.born.Some? ==> rows[CARD].born == past.born.value)
            && forall p <- rows :: rows[p].scrubbed == Some(clock) && (rows[p].born < clock ==> InScope(rows[p], clock))
  {
  }

  /** A row marked by an older version before any DB pass is deleted with its model store left as it was. */
  lemma SomeModelIsLeft() returns (run: seq<State>)
    ensures Behaviour(run) && MarkedTooSoon(run[0].job.value)
    ensures run[|run| - 1].job.None? && !run[|run| - 1].modelScrubbed
  {
    run := FinishedPass(Some(0), Anew(IN_FLIGHT_GRACE));
    var a := run[|run| - 1];
    var d := a.(job := None, finished := Some(Done(IN_FLIGHT_GRACE, {})));
    assert Finish(a, d);
    Extended(run, d);
    run := run + [d];
  }

  // ---- A behaviour in which an outlived runner writes the row ----

  lemma NoneAside(swept: nat, known: bool, clock: Time, past: Past)
    ensures SweepOf(Stores(swept, 0, known, clock, past), SIDE_TABLES) == {}
  {
  }

  /** The side tables' sweep finds a raced match. */
  lemma Races(run: seq<State>, r: nat, raced: set<nat>) returns (more: seq<State>)
    requires Behaviour(run) && raced != {}
    requires var s := run[|run| - 1];
             && s.job.Some? && Sweeping(s, r) && s.runners[r].swept == SIDE_TABLES
             && SweepOf(s.rows, SIDE_TABLES) == {}
    ensures Behaviour(more)
    ensures var s, t := run[|run| - 1], more[|more| - 1];
            var matches := s.runners[r].matches + raced;
            && more == run + [s.(raced := raced), t] && RunnerStep(s.(raced := raced), t, r)
            && t == With(s, r, s.runners[r].(swept := STORES, matches := matches))
                    .(raced := {}, job := Some(s.job.value.(matchIds := matches)))
  {
    var s := run[|run| - 1];
    var u := s.(raced := raced);
    assert Environment(s, u);
    Extended(run, u);
    var matches := s.runners[r].matches + raced;
    var t := With(s, r, s.runners[r].(swept := STORES, matches := matches))
             .(raced := {}, job := Some(s.job.value.(matchIds := matches)));
    assert t.rows == Scrub(u.rows, {}, u.clock);
    assert Sweep(u, t, r, {}, 0);
    Stepped(run + [u], t, r);
    more := run + [u] + [t];
  }

  const LATER: Time := IN_FLIGHT_GRACE + 2 * LEASE

  /** The second runner's pass: the first has swept the card. */
  const OVERTAKING := Past(LATER, 0, Some(0), Some(IN_FLIGHT_GRACE), None)

  /** The first runner has swept all but the side tables when its lease runs out and the second takes it. */
  lemma Overtaken() returns (run: seq<State>, base: State)
    ensures Behaviour(run) && run[0].job == Some(Fresh(None, {})) && |base.runners| == 2
    ensures base.runners[0] == Worker(IN_FLIGHT_GRACE, 0, {}, SIDE_TABLES, None)
    ensures base.clock == LATER && base.deletedAt == 0 && base.raced == {}
            && base.job == Some(Fresh(None, {}).(claimedUntil := Some(LATER + LEASE)))
    ensures run[|run| - 1] == Working(base, 1, {}, 0, None, 0, OVERTAKING)
  {
    var now := IN_FLIGHT_GRACE;
    var s0 := State(now, 0, Some(Fresh(None, {})), Stores(0, 0, false, now, Anew(now)), {}, [Idle, Idle], {},
                    false, false, None);
    run := [s0];
    run, base := Taken(run, 0, Anew(now));
    run := SweptTo(run, base, 0, {}, SIDE_TABLES, Anew(now));
    var s := run[|run| - 1];
    var u := s.(clock := LATER);
    assert Environment(s, u);
    Extended(run, u);
    assert u.rows == Stores(0, 0, false, LATER, OVERTAKING);
    run, base := Taken(run + [u], 1, OVERTAKING);
  }

  /** Then it sweeps these, without the lease, and finds a raced match. */
  lemma OutlivedWrite() returns (run: seq<State>, base: State)
    ensures Behaviour(run) && |run| > 1 && run[0].job == Some(Fresh(None, {})) && |base.runners| == 2
    ensures base.clock == LATER && base.deletedAt == 0 && base.raced == {}
    ensures base.job == Some(Fresh(None, {MATCH}).(claimedUntil := Some(LATER + LEASE)))
    ensures var s, t := run[|run| - 2], run[|run| - 1];
            && RunnerStep(s, t, 0) && s.runners[0].Running? && !Holds(s, s.runners[0].held)
            && s.job == Some(Fresh(None, {}).(claimedUntil := Some(LATER + LEASE))) && t.job == base.job
            && t == Working(base, 1, {}, 0, None, 0, OVERTAKING)
  {
    run, base := Overtaken();
    var s := run[|run| - 1];
    assert s.runners[0] == base.runners[0];
    NoneAside(0, false, LATER, OVERTAKING);
    run := Races(run, 0, {MATCH});
    var t := run[|run| - 1];
    assert s.runners[0].matches + {MATCH} == {MATCH};
    base := base.(runners := t.runners, job := t.job);
    assert t.runners == base.runners[1 := Worker(LATER, 0, {}, 0, None)];
  }

  /** A runner that outlived its lease writes the row: it adds the match id it found. The runner that
      holds the lease then overwrites it with what its own copy had, and the id is lost. */
  lemma OutlivedRunnerWrites() returns (run: seq<State>, i: nat)
    ensures Behaviour(run) && i + 1 < |run|
    ensures RunnerStep(run[i], run[i + 1], 0) && run[i].runners[0].Running? && !Holds(run[i], run[i].runners[0].held)
    ensures run[i].job.Some? && run[i + 1].job.Some?
    ensures run[i].job.value.matchIds == {} && run[i + 1].job.value.matchIds == {MATCH}
    ensures run[|run| - 1].job.Some? && run[|run| - 1].job.value.matchIds == {MATCH + 1}
  {
    var base: State;
    run, base := OutlivedWrite();
    i := |run| - 2;
    var written := run;
    run := SweptTo(run, base, 1, {}, SIDE_TABLES, OVERTAKING);
    NoneAside(SIDE_TABLES, false, LATER, OVERTAKING);
    run := Races(run, 1, {MATCH + 1});
    assert run[i] == written[i] && run[i + 1] == written[i + 1];
  }

  /** Or it goes on with its copy, which lacks the id: its pass is recorded without a failure and the row is
      deleted, and the notice that the id alone finds, in scope when the pass started, was never touched. */
  lemma RacedRowIsLeft() returns (run: seq<State>, i: nat)
    ensures Behaviour(run) && i < |run| && run[i].job.Some? && run[i].job.value.dbVersion == SCRUB_VERSION
    ensures run[i].job.value.dbDoneAt == Some(LATER) && run[i].job.value.matchIds == {MATCH}
    ensures NOTICE in run[i].rows && InScope(run[i].rows[NOTICE], LATER) && run[i].rows[NOTICE].scrubbed.None?
    ensures var s := run[|run| - 1];
            && s.job.None? && s.finished.Some? && s.finished.value.at == LATER
            && NOTICE in s.rows && InScope(s.rows[NOTICE], LATER) && s.rows[NOTICE].scrubbed.None?
  {
    var base: State;
    run, base := OutlivedWrite();
    run := RecordedRun(run, base, 1, {}, OVERTAKING);
    i := |run| - 1;
    var recorded := run;
    run := Ended(run, 1);
    assert run[i] == recorded[i];
  }

  // ---- A behaviour that gets stuck ----

  /** Two runners have read the row, one of them some time before the other, which takes the lease and records
      the pass. */
  lemma ReadEarlier() returns (run: seq<State>)
    ensures Behaviour(run)
    ensures var s := run[|run| - 1];
            && s.clock == LATER && s.deletedAt == 0 && s.raced == {} && !s.clash && s.used == {LATER + LEASE}
            && s.runners == [Idle, Reading(Fresh(None, {MATCH}), IN_FLIGHT_GRACE)]
            && s.job == Some(Passed(Fresh(None, {MATCH}), LATER, {}))
            && s.rows == Stores(STORES, SCANS, true, LATER, Anew(LATER))
  {
    var job, now, past := Fresh(None, {MATCH}), IN_FLIGHT_GRACE, Anew(LATER);
    var s0 := State(now, 0, Some(job), Stores(0, 0, true, now, past), {}, [Idle, Idle], {}, false, false, None);
    var s1 := With(s0, 1, Reading(job, now));
    assert Read(s0, s1, 1, now);
    run := Grown([s0], s1, 1);
    var s2 := s1.(clock := LATER);
    assert Environment(s1, s2);
    Extended(run, s2);
    assert s2.rows == Stores(0, 0, true, LATER, past);
    var base: State;
    run, base := Taken(run + [s2], 0, past);
    run := RecordedRun(run, base, 0, {MATCH}, past);
  }

  /** The one with the older copy then takes the lease, which shows the same stamp, goes through the stores once
      more, and saves its cursor when its page budget ends. Neither a pass nor the deletion is due again. */
  lemma SomeRunSticks() returns (run: seq<State>, job: Job)
    ensures Behaviour(run) && !run[|run| - 1].clash && Left(run[|run| - 1], job)
    ensures job.dbDoneAt == Some(LATER) && run[|run| - 1].clock == LATER
  {
    run := ReadEarlier();
    var base: State;
    var past := Past(IN_FLIGHT_GRACE, 0, Some(0), Some(LATER), Some(LATER));
    assert run[|run| - 1].rows == Stores(0, 0, true, LATER, past);
    run, base := Takes(run, 1, past);
    run := SweptTo(run, base, 1, {MATCH}, STORES, past);
    Begun(base, 1, {MATCH}, past);
    run := Grown(run, Scanning(base, 1, {MATCH}, 0, past), 1);
    var s := run[|run| - 1];
    job := s.job.value.(scan := Some(PassAt(past, {MATCH}, 0)), claimedUntil := None, lastError := None);
    var t := With(s, 1, Idle).(job := Some(job));
    assert Save(s, t, 1);
    run := Grown(run, t, 1);
    var u := With(t, 0, Marking).(modelScrubbed := true);
    assert ScrubModel(t, u, 0);
    run := Grown(run, u, 0);
    job := job.(modelDoneAt := Some(LATER));
    var v := With(u, 0, Idle).(job := Some(job));
    assert MarkModel(u, v, 0);
    run := Grown(run, v, 0);
  }
}
