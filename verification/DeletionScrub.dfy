/**
 The deletion-scrub job: runners that claim one job row by compare-and-swap, sweep the captured
 leagues and the side tables, resume keyset scans from the saved cursor, and may outlive their
 lease, hold stale copies, fail part-way or vanish, while other users' rows keep arriving. Store
 writes are not fenced by the lease, and neither is the write of the row's match ids.
 */
module DeletionScrub {
  import opened Wrappers

  const SCRUB_VERSION: nat := 3
  /** The stores of the league pass, by index; the last is the side tables. */
  const STORES: nat := 6
  const GRADING: nat := 4
  const SIDE_TABLES: nat := 5
  const SCANS: nat := 10
  const SCAN_BATCH: nat := 2000
  // Times are in microseconds.
  const LEASE: nat := 600_000_000
  const IN_FLIGHT_GRACE: nat := 21_600_000_000
  const ROW_FAILURE_BACKOFF: nat := 3_600_000_000

  type Time = nat

  /** A row's place: the scan that covers its store, and its key in that store. */
  datatype Place = Place(store: nat, key: nat)

  /** How a pass reaches a row: not at all; in the sweep of one store of the league pass, as the
      cards of a captured league and the side tables are; on a page of its scan from some time on,
      as a diagnostic past its retention is, and through any of some match ids when they alone name
      the person; or when its scan has no page left, as a session's hidden source is. */
  datatype Reach = Nowhere | Swept(league: nat) | Paged(from: Time, via: set<nat>) | AtEnd

  /** `scrubbed` is a history variable: when the row was last handed to the redactor in a
      transaction that committed and counted no failure for it. */
  datatype StoreRow = StoreRow(born: Time, reach: Reach, scrubbed: Option<Time>)

  /** A pass's saved cursor (`scan_json`). `missed` is a history variable: the rows that a run of the
      pass went past without holding a match id that finds them. */
  datatype Pass = Pass(version: nat, scan: nat, after: nat, failures: nat, startedAt: Time, missed: set<Place>)

  datatype Fault = Raised | RowFailures

  /** `matchIds` are those of `partner_names_json`. `missed` is a history variable: that of the
      recorded pass. */
  datatype Job = Job(dbVersion: nat, dbDoneAt: Option<Time>, modelDoneAt: Option<Time>,
                     claimedUntil: Option<Time>, scan: Option<Pass>, lastError: Option<Fault>,
                     matchIds: set<nat>, missed: set<Place>)

  /** A runner: idle, holding a copy of the row it read, working the pass under the stamp it
      holds, or between redacting the model store and marking it done. */
  datatype Runner =
    | Idle
    | Reading(copy: Job, now: Time)
    | Running(held: Time, now: Time, seenVersion: nat, matches: set<nat>, swept: nat, pass: Option<Pass>,
              failed: nat, page: seq<nat>, at: nat)
    | Marking

  datatype Done = Done(at: Time, missed: set<Place>)

  /** `raced` are the matches that still name a deleted id. History variables: `used` holds every
      stamp ever written and `clash` tells whether one was ever written twice (two clocks may read
      alike); `modelScrubbed`; and `finished`, the pass the row was deleted on. */
  datatype State = State(clock: Time, deletedAt: Time, job: Option<Job>, rows: map<Place, StoreRow>, raced: set<nat>,
                         runners: seq<Runner>, used: set<Time>, clash: bool, modelScrubbed: bool,
                             finished: Option<Done>)

  // ---- What the steps are built from ----

  ghost predicate DbDue(job: Job, deletedAt: Time, now: Time) {
    || job.dbVersion < SCRUB_VERSION
    || job.dbDoneAt.None?
    || (now >= deletedAt + IN_FLIGHT_GRACE && job.dbDoneAt.value < deletedAt + IN_FLIGHT_GRACE)
  }

  ghost predicate Holds(s: State, held: Time) {
    s.job.Some? && s.job.value.claimedUntil == Some(held)
  }

  ghost function With(s: State, r: nat, runner: Runner): State
    requires r < |s.runners|
  {
    s.(runners := s.runners[r := runner])
  }

  /** The row with a stamp written on it. */
  ghost function Stamped(s: State, job: Job, stamp: Time): State {
    s.(job := Some(job.(claimedUntil := Some(stamp))), used := s.used + {stamp}, clash := s.clash || stamp in s.used)
  }

  /** A write conditioned on the lease: it lands only while the row still shows the stamp. */
  ghost function Fenced(s: State, held: Time, job: Job): State {
    if Holds(s, held) then s.(job := Some(job)) else s
  }

  /** The match ids overwritten, whoever holds the lease. */
  ghost function Named(job: Option<Job>, matches: set<nat>): Option<Job> {
    if job.Some? then Some(job.value.(matchIds := matches)) else None
  }

  ghost predicate OnPage(row: StoreRow, at: Time) {
    row.reach.Paged? && row.reach.from <= at
  }

  /** The next keyset page of a store as of some time: the rows it selects after the cursor, in key
      order, gapless up to its last key, at most SCAN_BATCH of them, and empty only at the end. */
  ghost predicate IsPage(rows: map<Place, StoreRow>, store: nat, after: nat, at: Time, page: seq<nat>) {
    && |page| <= SCAN_BATCH
    && (forall i, j | 0 <= i < j < |page| :: page[i] < page[j])
    && (forall i | 0 <= i < |page| ::
          after < page[i] && Place(store, page[i]) in rows && OnPage(rows[Place(store, page[i])], at))
    && (forall p | p in rows && p.store == store && p.key > after && OnPage(rows[p], at) ::
          page != [] && (p.key <= page[|page| - 1] ==> p.key in page))
  }

  ghost function Scrub(rows: map<Place, StoreRow>, touched: set<Place>, clock: Time): map<Place, StoreRow> {
    map p | p in rows :: if p in touched then rows[p].(scrubbed := Some(clock)) else rows[p]
  }

  /** The rows only the sweep of that store reaches. */
  ghost function SweepOf(rows: map<Place, StoreRow>, league: nat): set<Place> {
    set p | p in rows && rows[p].reach == Swept(league)
  }

  ghost function EndOf(rows: map<Place, StoreRow>, store: nat): set<Place> {
    set p | p in rows && p.store == store && rows[p].reach.AtEnd?
  }

  /** The n rows of the page in hand from its cursor on that the runner's match ids let it find. */
  ghost function ChunkOf(rows: map<Place, StoreRow>, runner: Runner, n: nat): set<Place>
    requires runner.Running? && runner.pass.Some? && runner.at + n <= |runner.page|
  {
    set i | runner.at <= i < runner.at + n && Found(rows, runner, i) :: Place(runner.pass.value.scan, runner.page[i])
  }

  ghost predicate Found(rows: map<Place, StoreRow>, runner: Runner, i: nat)
    requires runner.Running? && runner.pass.Some? && i < |runner.page|
  {
    var p := Place(runner.pass.value.scan, runner.page[i]);
    p in rows && rows[p].reach.Paged? && KnownBy(rows[p], runner.matches)
  }

  /** The match ids, when the row needs one, include one that finds it. */
  ghost predicate KnownBy(row: StoreRow, matches: set<nat>) {
    row.reach.Paged? && row.reach.via != {} ==> !(row.reach.via !! matches)
  }

  /** The others of them. */
  ghost function MissedOf(rows: map<Place, StoreRow>, runner: Runner, n: nat): set<Place>
    requires runner.Running? && runner.pass.Some? && runner.at + n <= |runner.page|
  {
    set i | runner.at <= i < runner.at + n && Lost(rows, runner, i) :: Place(runner.pass.value.scan, runner.page[i])
  }

  ghost predicate Lost(rows: map<Place, StoreRow>, runner: Runner, i: nat)
    requires runner.Running? && runner.pass.Some? && i < |runner.page|
  {
    var p := Place(runner.pass.value.scan, runner.page[i]);
    p in rows && rows[p].reach.Paged? && !KnownBy(rows[p], runner.matches)
  }

  // ---- The steps ----

  /** Read the row, due and unleased as read; `now` may lag the clock. */
  ghost predicate Read(s: State, t: State, r: nat, now: Time)
    requires r < |s.runners|
  {
    && s.runners[r].Idle? && now <= s.clock && s.job.Some?
    && (s.job.value.claimedUntil.None? || s.job.value.claimedUntil.value < now)
    && DbDue(s.job.value, s.deletedAt, now)
    && t == With(s, r, Reading(s.job.value, now))
  }

  /** Take the lease if the row still shows the stamp that was read, whatever else changed. */
  ghost predicate Take(s: State, t: State, r: nat)
    requires r < |s.runners|
  {
    && s.runners[r].Reading?
    && var Reading(copy, now) := s.runners[r];
    if s.job.Some? && s.job.value.claimedUntil == copy.claimedUntil then
      t == With(Stamped(s, s.job.value, now + LEASE), r, Resumed(copy, now))
    else
      t == With(s, r, Idle)
  }

  /** A run from a copy of the row: it resumes the copy's cursor, or has the stores to sweep. */
  ghost function Resumed(copy: Job, now: Time): Runner {
    var pass := if copy.scan.Some? && copy.scan.value.version == SCRUB_VERSION then copy.scan else None;
    Running(now + LEASE, now, copy.dbVersion, copy.matchIds, 0, pass, 0, [], 0)
  }

  /** Renew the lease before a store, a page or a batch, or find it lost and stop. */
  ghost predicate Renew(s: State, t: State, r: nat, stamp: Time)
    requires r < |s.runners|
  {
    && s.runners[r].Running?
    && if Holds(s, s.runners[r].held) then
         && stamp >= s.runners[r].now + LEASE
         && t == With(Stamped(s, s.job.value, stamp), r, s.runners[r].(held := stamp))
       else
         t == With(s, r, Idle)
  }

  ghost predicate Sweeping(s: State, r: nat) {
    r < |s.runners| && s.runners[r].Running? && s.runners[r].pass.None? && s.runners[r].swept < STORES
  }

  /** Sweep the next store of the league pass: unless a failure is counted, all its rows are handed over. */
  ghost predicate Sweep(s: State, t: State, r: nat, touched: set<Place>, failures: nat)
    requires r < |s.runners|
  {
    && Sweeping(s, r)
    && var runner := s.runners[r];
    && (failures == 0 ==> SweepOf(s.rows, runner.swept) <= touched)
    && t == Joined(With(s, r, runner.(swept := runner.swept + 1, failed := runner.failed + failures))
                   .(rows := Scrub(s.rows, touched, s.clock)), r, runner.swept)
  }

  /** The side tables' sweep also repairs the matches that raced the deletion: their ids join those the
      runner holds, which overwrite those on the row. */
  ghost function Joined(s: State, r: nat, league: nat): State
    requires r < |s.runners| && s.runners[r].Running?
  {
    if league != SIDE_TABLES || s.raced == {} then s
    else
      var matches := s.runners[r].matches + s.raced;
      With(s, r, s.runners[r].(matches := matches)).(raced := {}, job := Named(s.job, matches))
  }

  /** Every store is swept: the scans begin. */
  ghost predicate Begin(s: State, t: State, r: nat)
    requires r < |s.runners|
  {
    && s.runners[r].Running? && s.runners[r].pass.None? && s.runners[r].swept == STORES
    && t == With(s, r, s.runners[r].(pass := Some(Pass(SCRUB_VERSION, 0, 0, 0, s.runners[r].now, {}))))
  }

  /** Read the next page of the store being scanned. An empty one moves on to the next store, after
      the store's rows without a page are handed over. */
  ghost predicate ReadPage(s: State, t: State, r: nat, at: Time, page: seq<nat>)
    requires r < |s.runners|
  {
    && s.runners[r].Running? && s.runners[r].pass.Some? && s.runners[r].page == []
    && var pass := s.runners[r].pass.value;
    && pass.scan < SCANS && pass.startedAt <= at <= s.clock && IsPage(s.rows, pass.scan, pass.after, at, page)
    && t == if page == []
            then With(s, r, s.runners[r].(pass := Some(pass.(scan := pass.scan + 1, after := 0))))
                 .(rows := Scrub(s.rows, EndOf(s.rows, pass.scan), s.clock))
            else With(s, r, s.runners[r].(page := page, at := 0))
  }

  /** Hand the next n rows of the page to the redactor in one transaction: unless a failure is counted,
      all of them that can be found. */
  ghost predicate Hand(s: State, t: State, r: nat, n: nat, done: set<Place>, failures: nat)
    requires r < |s.runners|
  {
    && s.runners[r].Running? && s.runners[r].pass.Some? && n > 0 && s.runners[r].at + n <= |s.runners[r].page|
    && var runner := s.runners[r];
    && done <= ChunkOf(s.rows, runner, n) && (failures == 0 ==> done == ChunkOf(s.rows, runner, n))
    && t == With(s, r, Handed(s.rows, runner, n, failures)).(rows := Scrub(s.rows, done, s.clock))
  }

  ghost function Handed(rows: map<Place, StoreRow>, runner: Runner, n: nat, failures: nat): Runner
    requires runner.Running? && runner.pass.Some? && runner.at + n <= |runner.page|
  {
    var pass := runner.pass.value;
    runner.(at := runner.at + n, failed := runner.failed + failures,
            pass := Some(pass.(missed := pass.missed + MissedOf(rows, runner, n))))
  }

  /** Move the cursor past a page whose every row was handed over. */
  ghost predicate TurnPage(s: State, t: State, r: nat)
    requires r < |s.runners|
  {
    && s.runners[r].Running? && s.runners[r].pass.Some?
    && s.runners[r].page != [] && s.runners[r].at == |s.runners[r].page|
    && var runner := s.runners[r];
    t == With(s, r, runner.(pass := Some(runner.pass.value.(after := runner.page[|runner.page| - 1])),
                            page := [], at := 0))
  }

  /** The run raised: its open transaction is rolled back, its lease is released and its cursor is not saved. */
  ghost predicate Raise(s: State, t: State, r: nat)
    requires r < |s.runners|
  {
    && s.runners[r].Running?
    && t == With(if s.job.Some?
                 then Fenced(s, s.runners[r].held, s.job.value.(claimedUntil := None, lastError := Some(Raised)))
                 else s, r, Idle)
  }

  /** The page budget ran out: the cursor is saved with the failures counted so far. */
  ghost predicate Save(s: State, t: State, r: nat)
    requires r < |s.runners|
  {
    && s.runners[r].Running? && s.runners[r].pass.Some? && s.runners[r].page == []
    && s.runners[r].pass.value.scan < SCANS
    && var pass := s.runners[r].pass.value.(failures := s.runners[r].pass.value.failures + s.runners[r].failed);
    t == With(if s.job.Some?
              then Fenced(s, s.runners[r].held,
                          s.job.value.(scan := Some(pass), claimedUntil := None, lastError := None))
              else s, r, Idle)
  }

  /** The last store is done. With failures the whole pass is due again after a backoff;
      without, the pass is recorded by the time it started. */
  ghost predicate Complete(s: State, t: State, r: nat)
    requires r < |s.runners|
  {
    && s.runners[r].Running? && s.runners[r].pass.Some? && s.runners[r].page == []
    && s.runners[r].pass.value.scan >= SCANS
    && var runner := s.runners[r];
    if runner.pass.value.failures + runner.failed > 0 then
      var stamp := runner.now + ROW_FAILURE_BACKOFF;
      if Holds(s, runner.held) then
        t == With(Stamped(s, s.job.value.(scan := None, lastError := Some(RowFailures)), stamp), r, Idle)
      else
        t == With(s, r, Idle)
    else
      t == With(if s.job.Some? then Fenced(s, runner.held, Recorded(s.job.value, runner)) else s, r, Idle)
  }

  ghost function Recorded(job: Job, runner: Runner): Job
    requires runner.Running? && runner.pass.Some?
  {
    job.(dbVersion := SCRUB_VERSION, dbDoneAt := Some(runner.pass.value.startedAt), scan := None,
         claimedUntil := None, lastError := None, missed := runner.pass.value.missed,
         modelDoneAt := if 0 < runner.seenVersion < SCRUB_VERSION then None else job.modelDoneAt)
  }

  /** The process died: nothing is written, and its open transaction is rolled back. */
  ghost predicate Vanish(s: State, t: State, r: nat)
    requires r < |s.runners|
  {
    t == With(s, r, Idle)
  }

  /** The daily tick redacts the model store once a DB pass is current, or has been left with
      rows it could not redact. */
  ghost predicate ScrubModel(s: State, t: State, r: nat)
    requires r < |s.runners|
  {
    && s.runners[r].Idle? && s.job.Some? && ModelReady(s.job.value)
    && t == With(s, r, Marking).(modelScrubbed := true)
  }

  ghost predicate ModelReady(job: Job) {
    && job.modelDoneAt.None?
    && ((job.dbVersion == SCRUB_VERSION && job.dbDoneAt.Some?) || job.lastError == Some(RowFailures))
  }

  /** Or the redaction raises, and only the error is written, which no lease fences. */
  ghost predicate ModelRaises(s: State, t: State, r: nat)
    requires r < |s.runners|
  {
    && s.runners[r].Idle? && s.job.Some? && ModelReady(s.job.value)
    && t == s.(job := Some(s.job.value.(lastError := Some(Raised))))
  }

  /** Then it marks the row, which no lease fences. */
  ghost predicate MarkModel(s: State, t: State, r: nat)
    requires r < |s.runners|
  {
    && s.runners[r].Marking?
    && t == With(s, r, Idle).(job := if s.job.Some? then Some(s.job.value.(modelDoneAt := Some(s.clock))) else None)
  }

  /** Delete the row: the grace pass ran and the model phase is marked. */
  ghost predicate Finish(s: State, t: State) {
    && s.job.Some? && s.job.value.dbVersion == SCRUB_VERSION && s.job.value.modelDoneAt.Some?
    && s.job.value.scan.None? && s.job.value.dbDoneAt.Some?
    && s.job.value.dbDoneAt.value >= s.deletedAt + IN_FLIGHT_GRACE
    && t == s.(job := None, finished := Some(Done(s.job.value.dbDoneAt.value, s.job.value.missed)))
  }

  /** A row sits where its reach says it can be found. */
  ghost predicate Sited(p: Place, reach: Reach) {
    match reach
    case Nowhere => true
    case Swept(league) => league < STORES
    case Paged(_, _) => p.key > 0 && p.store < SCANS
    case AtEnd => p.store < SCANS
  }

  /** What the rest of the system does: time passes, rows arrive under any unused key, the retention
      prune removes rows, and a match is minted from before the deletion, or goes. */
  ghost predicate Environment(s: State, t: State) {
    || (t.clock >= s.clock && t == s.(clock := t.clock))
    || (exists p, reach | p !in s.rows && Sited(p, reach) ::
        t == s.(rows := s.rows[p := StoreRow(s.clock, reach, None)]))
    || (exists p :: t == s.(rows := s.rows - {p}))
    || t == s.(raced := t.raced)
  }

  ghost predicate RunnerStep(s: State, t: State, r: nat) {
    && r < |s.runners|
    && (|| (exists now :: Read(s, t, r, now))
        || Take(s, t, r)
        || (exists stamp :: Renew(s, t, r, stamp))
        || (exists touched, failures :: Sweep(s, t, r, touched, failures))
        || Begin(s, t, r)
        || (exists at, page :: ReadPage(s, t, r, at, page))
        || (exists n, done, failures :: Hand(s, t, r, n, done, failures))
        || TurnPage(s, t, r)
        || Raise(s, t, r)
        || Save(s, t, r)
        || Complete(s, t, r)
        || Vanish(s, t, r)
        || ScrubModel(s, t, r)
        || ModelRaises(s, t, r)
        || MarkModel(s, t, r))
  }

  ghost predicate Next(s: State, t: State) {
    || (exists r :: RunnerStep(s, t, r))
    || Finish(s, t)
    || Environment(s, t)
  }

  /** A fresh row, or one an older version left in any condition. */
  ghost predicate Init(s: State) {
    && s.deletedAt <= s.clock && !s.clash && !s.modelScrubbed && s.finished.None?
    && s.job.Some? && s.job.value.dbVersion < SCRUB_VERSION
    && (s.job.value.scan.Some? ==> s.job.value.scan.value.version < SCRUB_VERSION)
    && s.used == (if s.job.value.claimedUntil.Some? then {s.job.value.claimedUntil.value} else {})
    && (forall r <- s.runners :: r.Idle?)
    && (forall p <- s.rows :: Sited(p, s.rows[p].reach) && s.rows[p].scrubbed.None?)
  }

  ghost predicate Behaviour(run: seq<State>) {
    && run != [] && Init(run[0])
    && forall i | 0 <= i < |run| - 1 :: Follows(run, i)
  }

  ghost predicate Follows(run: seq<State>, i: nat)
    requires i + 1 < |run|
  {
    Next(run[i], run[i + 1])
  }

  // ---- The invariant ----

  /** A pass that starts at T owes the row: it is there, and in scope, by then. */
  ghost predicate InScope(row: StoreRow, T: Time) {
    row.born < T && (match row.reach case Nowhere => false case Paged(from, _) => from <= T case _ => true)
  }

  /** The row has been handed over without a counted failure since T, if it was in scope then. */
  ghost predicate Since(row: StoreRow, T: Time) {
    InScope(row, T) ==> row.scrubbed.Some? && row.scrubbed.value >= T
  }

  /** Every row in scope at T has been handed over since T, but for those missed. */
  ghost predicate Covered(s: State, T: Time, missed: set<Place>) {
    forall p | p in s.rows && p !in missed :: Since(s.rows[p], T)
  }

  /** The pass has been where the row is reached. */
  ghost predicate Behind(p: Place, reach: Reach, pass: Pass) {
    match reach
    case Paged(_, _) => p.store < pass.scan || (p.store == pass.scan && p.key <= pass.after)
    case AtEnd => p.store < pass.scan
    case _ => true
  }

  /** A pass owes nothing behind its cursor, unless a failure was counted. True of it forever:
      a stale copy of a cursor is still a cursor one may resume from. */
  ghost predicate Honest(s: State, pass: Pass, failed: nat) {
    && pass.startedAt <= s.clock
    && (pass.failures + failed == 0 ==>
          forall p | p in s.rows && Behind(p, s.rows[p].reach, pass) && p !in pass.missed ::
            Since(s.rows[p], pass.startedAt))
  }

  ghost predicate HonestCopy(s: State, job: Job) {
    job.scan.Some? && job.scan.value.version == SCRUB_VERSION ==> Honest(s, job.scan.value, 0)
  }

  /** The stores swept so far owe nothing. */
  ghost predicate HonestSweep(s: State, runner: Runner)
    requires runner.Running?
  {
    && runner.swept <= STORES
    && (runner.failed == 0 ==>
          forall p | p in s.rows && s.rows[p].reach.Swept? && s.rows[p].reach.league < runner.swept ::
            Since(s.rows[p], runner.now))
  }

  /** The page in hand: gapless for the rows the pass answers for, its first `at` rows handed over. */
  ghost predicate HonestPage(s: State, runner: Runner)
    requires runner.Running? && runner.pass.Some?
  {
    var pass := runner.pass.value;
    && runner.at <= |runner.page|
    && (forall i, j | 0 <= i < j < |runner.page| :: runner.page[i] < runner.page[j])
    && (runner.page != [] ==>
          forall p | p in s.rows && p.store == pass.scan && pass.after < p.key <= runner.page[|runner.page| - 1] ::
            s.rows[p].reach.Paged? && InScope(s.rows[p], pass.startedAt) ==> p.key in runner.page)
    && (pass.failures + runner.failed == 0 ==>
          forall i | 0 <= i < runner.at :: HandedOver(s, pass, Place(pass.scan, runner.page[i])))
  }

  ghost predicate HandedOver(s: State, pass: Pass, p: Place) {
    p in s.rows && s.rows[p].reach.Paged? && p !in pass.missed ==> Since(s.rows[p], pass.startedAt)
  }

  ghost predicate HonestRunner(s: State, runner: Runner) {
    match runner
    case Idle => true
    case Marking => s.modelScrubbed
    case Reading(copy, now) => now <= s.clock && HonestCopy(s, copy)
    case Running(held, now, _, _, _, pass, failed, page, at) =>
      && now <= s.clock && held in s.used
      && (pass.None? ==> page == [] && at == 0 && HonestSweep(s, runner))
      && (pass.Some? ==> Honest(s, pass.value, failed) && HonestPage(s, runner))
  }

  ghost predicate Exclusive(s: State) {
    forall q, r | 0 <= q < |s.runners| && 0 <= r < |s.runners| && s.runners[q].Running? && s.runners[r].Running? ::
      s.runners[q].held == s.runners[r].held ==> q == r
  }

  ghost predicate HonestJob(s: State) {
    s.job.Some? ==>
      && HonestCopy(s, s.job.value)
      && (s.job.value.dbVersion == SCRUB_VERSION && s.job.value.dbDoneAt.Some? ==>
            s.job.value.dbDoneAt.value <= s.clock && Covered(s, s.job.value.dbDoneAt.value, s.job.value.missed))
      && (s.job.value.claimedUntil.Some? ==> s.job.value.claimedUntil.value in s.used)
  }

  ghost predicate Settled(s: State) {
    s.finished.Some? ==>
      && s.finished.value.at <= s.clock && Covered(s, s.finished.value.at, s.finished.value.missed)
      && s.finished.value.at >= s.deletedAt + IN_FLIGHT_GRACE
  }

  ghost predicate RowsSited(rows: map<Place, StoreRow>, clock: Time) {
    forall p <- rows :: Sited(p, rows[p].reach) && (rows[p].scrubbed.Some? ==> rows[p].scrubbed.value <= clock)
  }

  ghost predicate Inv(s: State) {
    && RowsSited(s.rows, s.clock)
    && (forall r <- s.runners :: HonestRunner(s, r))
    && HonestJob(s) && (!s.clash ==> Exclusive(s)) && Settled(s)
    && (s.job.None? <==> s.finished.Some?)
  }

  /** The row as it was, perhaps handed over once more. */
  ghost predicate Older(row: StoreRow, row': StoreRow) {
    && row'.born == row.born && row'.reach == row.reach
    && (row.scrubbed.Some? ==> row'.scrubbed.Some? && row'.scrubbed.value >= row.scrubbed.value)
  }

  /** What every step does to the stores: rows keep what was done to them, and a new row is
      born no earlier than the step. */
  ghost predicate Grows(s: State, t: State) {
    && s.clock <= t.clock && s.used <= t.used && (s.clash ==> t.clash) && (s.modelScrubbed ==> t.modelScrubbed)
    && forall p <- t.rows :: t.rows[p].born >= s.clock || (p in s.rows && Older(s.rows[p], t.rows[p]))
  }

  lemma CoverPersists(s: State, t: State, T: Time, missed: set<Place>)
    requires Grows(s, t) && T <= s.clock && Covered(s, T, missed)
    ensures Covered(t, T, missed)
  {
    forall p | p in t.rows && p !in missed && t.rows[p].born < s.clock ensures Since(t.rows[p], T) {
      assert Since(s.rows[p], T);
    }
  }

  lemma PassPersists(s: State, t: State, pass: Pass, failed: nat)
    requires Grows(s, t) && Honest(s, pass, failed)
    ensures Honest(t, pass, failed)
  {
  }

  lemma SweepPersists(s: State, t: State, runner: Runner)
    requires Grows(s, t) && runner.Running? && runner.now <= s.clock && HonestSweep(s, runner)
    ensures HonestSweep(t, runner)
  {
  }

  lemma PagePersists(s: State, t: State, runner: Runner)
    requires Grows(s, t) && runner.Running? && runner.pass.Some? && runner.pass.value.startedAt <= s.clock
    requires HonestPage(s, runner)
    ensures HonestPage(t, runner)
  {
    var pass := runner.pass.value;
    if pass.failures + runner.failed == 0 {
      forall i | 0 <= i < runner.at ensures HandedOver(t, pass, Place(pass.scan, runner.page[i])) {
        assert HandedOver(s, pass, Place(pass.scan, runner.page[i]));
      }
    }
  }

  lemma RunnerPersists(s: State, t: State, runner: Runner)
    requires Grows(s, t) && HonestRunner(s, runner)
    ensures HonestRunner(t, runner)
  {
    if runner.Reading? && runner.copy.scan.Some? && runner.copy.scan.value.version == SCRUB_VERSION {
      PassPersists(s, t, runner.copy.scan.value, 0);
    } else if runner.Running? && runner.pass.Some? {
      PassPersists(s, t, runner.pass.value, runner.failed);
      PagePersists(s, t, runner);
    } else if runner.Running? {
      SweepPersists(s, t, runner);
    }
  }

  /** The row with other match ids. */
  ghost predicate SameBut(job: Option<Job>, job': Option<Job>) {
    if job.None? then job'.None? else job'.Some? && job'.value == job.value.(matchIds := job'.value.matchIds)
  }

  lemma JobPersists(s: State, t: State)
    requires Grows(s, t) && HonestJob(s) && SameBut(s.job, t.job)
    ensures HonestJob(t)
  {
    if s.job.Some? {
      var job := s.job.value;
      if job.scan.Some? && job.scan.value.version == SCRUB_VERSION { PassPersists(s, t, job.scan.value, 0); }
      if job.dbVersion == SCRUB_VERSION && job.dbDoneAt.Some? { CoverPersists(s, t, job.dbDoneAt.value, job.missed); }
    }
  }

  /** A step of runner r keeps the invariant when what r and the row become is honest, and r
      holds nothing but the stamp it held or one never used, while stamps do not clash. */
  lemma StepKeeps(s: State, t: State, r: nat, runner: Runner)
    requires Inv(s) && Grows(s, t) && r < |s.runners|
    requires t.runners == s.runners[r := runner] && HonestRunner(t, runner)
    requires runner.Running? ==>
               t.clash || runner.held !in s.used || (s.runners[r].Running? && s.runners[r].held == runner.held)
    requires HonestJob(t) && t.job.Some? == s.job.Some?
    requires t.finished == s.finished && t.deletedAt == s.deletedAt && RowsSited(t.rows, t.clock)
    ensures Inv(t)
  {
    forall q | q in t.runners ensures HonestRunner(t, q) {
      if q in s.runners { RunnerPersists(s, t, q); }
    }
    forall q | 0 <= q < |s.runners| && s.runners[q].Running? ensures s.runners[q].held in s.used {
      assert HonestRunner(s, s.runners[q]);
    }
    if s.finished.Some? { CoverPersists(s, t, s.finished.value.at, s.finished.value.missed); }
  }

  lemma ReadOrVanishKeeps(s: State, t: State, r: nat)
    requires Inv(s) && r < |s.runners|
    requires (exists now :: Read(s, t, r, now)) || Vanish(s, t, r)
    ensures Inv(t)
  {
    JobPersists(s, t);
    StepKeeps(s, t, r, t.runners[r]);
  }

  /** The copy may be stale, its cursor long overtaken: it is taken as it stands. */
  lemma TakeKeeps(s: State, t: State, r: nat)
    requires Inv(s) && r < |s.runners| && Take(s, t, r)
    ensures Inv(t)
  {
    var copy, now := s.runners[r].copy, s.runners[r].now;
    assert HonestRunner(s, s.runners[r]);
    assert Grows(s, t);
    JobPersists(s, s.(used := t.used, clash := t.clash));
    if copy.scan.Some? && copy.scan.value.version == SCRUB_VERSION {
      PassPersists(s, t, copy.scan.value, 0);
    }
    StepKeeps(s, t, r, t.runners[r]);
  }

  lemma RenewKeeps(s: State, t: State, r: nat, stamp: Time)
    requires Inv(s) && r < |s.runners| && Renew(s, t, r, stamp)
    ensures Inv(t)
  {
    assert HonestRunner(s, s.runners[r]);
    assert Grows(s, t);
    JobPersists(s, s.(used := t.used, clash := t.clash));
    RunnerPersists(s, t, s.runners[r]);
    StepKeeps(s, t, r, t.runners[r]);
  }

  lemma ScrubGrows(s: State, t: State, touched: set<Place>)
    requires RowsSited(s.rows, s.clock) && t.rows == Scrub(s.rows, touched, s.clock)
    requires t.clock == s.clock && t.used == s.used && t.clash == s.clash && t.modelScrubbed == s.modelScrubbed
    ensures Grows(s, t) && RowsSited(t.rows, t.clock)
  {
  }

  lemma SweepKeeps(s: State, t: State, r: nat, touched: set<Place>, failures: nat)
    requires Inv(s) && r < |s.runners| && Sweep(s, t, r, touched, failures)
    ensures Inv(t)
  {
    var runner := s.runners[r];
    assert HonestRunner(s, runner);
    ScrubGrows(s, t, touched);
    JobPersists(s, t);
    SweepPersists(s, t, runner);
    SweepAdvances(s, t, runner, t.runners[r], touched);
    StepKeeps(s, t, r, t.runners[r]);
  }

  lemma SweepAdvances(s: State, t: State, before: Runner, after: Runner, touched: set<Place>)
    requires before.Running? && before.swept < STORES && before.now <= s.clock && HonestSweep(t, before)
    requires after.Running?
             && after == before.(swept := before.swept + 1, failed := after.failed, matches := after.matches)
    requires after.failed >= before.failed && t.rows == Scrub(s.rows, touched, s.clock)
    requires after.failed == before.failed ==> SweepOf(s.rows, before.swept) <= touched
    ensures HonestSweep(t, after)
  {
    if after.failed == 0 {
      forall p | p in t.rows && t.rows[p].reach.Swept? && t.rows[p].reach.league < after.swept
        ensures Since(t.rows[p], after.now)
      {
        if t.rows[p].reach.league == before.swept { assert p in SweepOf(s.rows, before.swept); }
      }
    }
  }

  lemma BeginKeeps(s: State, t: State, r: nat)
    requires Inv(s) && r < |s.runners| && Begin(s, t, r)
    ensures Inv(t)
  {
    var runner := s.runners[r];
    assert HonestRunner(s, runner);
    JobPersists(s, t);
    var pass := t.runners[r].pass.value;
    if runner.failed == 0 {
      forall p | p in t.rows && Behind(p, t.rows[p].reach, pass) ensures Since(t.rows[p], pass.startedAt) {
        assert Sited(p, t.rows[p].reach);
      }
    }
    StepKeeps(s, t, r, t.runners[r]);
  }

  lemma ReadPageKeeps(s: State, t: State, r: nat, at: Time, page: seq<nat>)
    requires Inv(s) && r < |s.runners| && ReadPage(s, t, r, at, page)
    ensures Inv(t)
  {
    var runner := s.runners[r];
    assert HonestRunner(s, runner);
    if page == [] {
      ScrubGrows(s, t, EndOf(s.rows, runner.pass.value.scan));
      PassPersists(s, t, runner.pass.value, runner.failed);
      MovesOn(s, t, runner.pass.value, runner.failed, at);
    } else {
      PageRead(s, runner, t.runners[r], at);
    }
    assert Grows(s, t);
    JobPersists(s, t);
    StepKeeps(s, t, r, t.runners[r]);
  }

  lemma PageRead(s: State, before: Runner, after: Runner, at: Time)
    requires before.Running? && before.pass.Some? && HonestPage(s, before)
    requires after.Running? && after == before.(page := after.page, at := 0) && after.page != []
    requires before.pass.value.startedAt <= at
             && IsPage(s.rows, before.pass.value.scan, before.pass.value.after, at, after.page)
    ensures HonestPage(s, after)
  {
    var pass := before.pass.value;
    forall p | p in s.rows && p.store == pass.scan && pass.after < p.key <= after.page[|after.page| - 1]
               && s.rows[p].reach.Paged? && InScope(s.rows[p], pass.startedAt)
      ensures p.key in after.page
    {
      assert OnPage(s.rows[p], at);
    }
  }

  /** Past the last page of a store nothing in it is owed. */
  lemma MovesOn(s: State, t: State, pass: Pass, failed: nat, at: Time)
    requires Honest(t, pass, failed) && pass.startedAt <= at && RowsSited(s.rows, s.clock) && pass.startedAt <= s.clock
    requires IsPage(s.rows, pass.scan, pass.after, at, [])
    requires t.rows == Scrub(s.rows, EndOf(s.rows, pass.scan), s.clock)
    ensures Honest(t, pass.(scan := pass.scan + 1, after := 0), failed)
  {
    var next := pass.(scan := pass.scan + 1, after := 0);
    if pass.failures + failed == 0 {
      forall p | p in t.rows && Behind(p, t.rows[p].reach, next) && p !in pass.missed
        ensures Since(t.rows[p], pass.startedAt)
      {
        var row := s.rows[p];
        assert Sited(p, row.reach);
        if p.store == pass.scan && row.reach.AtEnd? {
          assert p in EndOf(s.rows, pass.scan);
        } else if p.store == pass.scan && row.reach.Paged? && p.key > pass.after {
          assert !OnPage(row, at);
        } else {
          assert Behind(p, t.rows[p].reach, pass);
        }
      }
    }
  }

  lemma HandKeeps(s: State, t: State, r: nat, n: nat, done: set<Place>, failures: nat)
    requires Inv(s) && r < |s.runners| && Hand(s, t, r, n, done, failures)
    ensures Inv(t)
  {
    var runner := s.runners[r];
    assert HonestRunner(s, runner);
    ScrubGrows(s, t, done);
    JobPersists(s, t);
    RunnerPersists(s, t, runner);
    MoreMissed(t, runner, t.runners[r]);
    PageAdvances(s, t, runner, t.runners[r], n, done);
    StepKeeps(s, t, r, t.runners[r]);
  }

  /** The more is missed, the less is owed. */
  lemma MoreMissed(t: State, before: Runner, after: Runner)
    requires before.Running? && before.pass.Some? && Honest(t, before.pass.value, before.failed)
    requires after.Running? && after.failed >= before.failed
    requires after.pass.Some? && before.pass.value.missed <= after.pass.value.missed
    requires after.pass.value == before.pass.value.(missed := after.pass.value.missed)
    ensures Honest(t, after.pass.value, after.failed)
  {
    var pass := after.pass.value;
    if pass.failures + after.failed == 0 {
      forall p | p in t.rows && Behind(p, t.rows[p].reach, pass) && p !in pass.missed
        ensures Since(t.rows[p], pass.startedAt)
      {
        assert Behind(p, t.rows[p].reach, before.pass.value);
      }
    }
  }

  /** The next rows of the page are handed over: they are scrubbed since the pass began, missed or counted. */
  lemma PageAdvances(s: State, t: State, before: Runner, after: Runner, n: nat, done: set<Place>)
    requires before.Running? && before.pass.Some? && before.at + n <= |before.page| && HonestPage(t, before)
    requires before.pass.value.startedAt <= s.clock && t.rows == Scrub(s.rows, done, s.clock)
    requires after.Running? && after.failed >= before.failed
    requires after == Handed(s.rows, before, n, after.failed - before.failed)
    requires after.failed == before.failed ==> done == ChunkOf(s.rows, before, n)
    ensures HonestPage(t, after)
  {
    var pass := after.pass.value;
    if pass.failures + after.failed == 0 {
      forall i | 0 <= i < after.at ensures HandedOver(t, pass, Place(pass.scan, before.page[i])) {
        var p := Place(pass.scan, before.page[i]);
        if i < before.at {
          assert HandedOver(t, before.pass.value, p);
        } else if p in t.rows && t.rows[p].reach.Paged? {
          if KnownBy(t.rows[p], before.matches) {
            assert Found(s.rows, before, i);
            assert p in ChunkOf(s.rows, before, n);
          } else {
            assert Lost(s.rows, before, i);
            assert p in MissedOf(s.rows, before, n);
          }
        }
      }
    }
  }

  lemma TurnPageKeeps(s: State, t: State, r: nat)
    requires Inv(s) && r < |s.runners| && TurnPage(s, t, r)
    ensures Inv(t)
  {
    var runner := s.runners[r];
    assert HonestRunner(s, runner);
    JobPersists(s, t);
    PageTurned(s, runner, t.runners[r].pass.value);
    StepKeeps(s, t, r, t.runners[r]);
  }

  lemma PageTurned(s: State, runner: Runner, turned: Pass)
    requires runner.Running? && runner.pass.Some? && runner.page != [] && runner.at == |runner.page|
    requires Honest(s, runner.pass.value, runner.failed) && HonestPage(s, runner)
    requires turned == runner.pass.value.(after := runner.page[|runner.page| - 1])
    ensures Honest(s, turned, runner.failed)
  {
    var pass := runner.pass.value;
    if pass.failures + runner.failed == 0 {
      forall p | p in s.rows && Behind(p, s.rows[p].reach, turned) && p !in pass.missed
        ensures Since(s.rows[p], pass.startedAt)
      {
        if p.store == pass.scan && pass.after < p.key <= turned.after && s.rows[p].reach.Paged? {
          if InScope(s.rows[p], pass.startedAt) {
            var i :| 0 <= i < |runner.page| && runner.page[i] == p.key;
            assert HandedOver(s, pass, Place(pass.scan, runner.page[i]));
          }
        } else {
          assert Behind(p, s.rows[p].reach, pass);
        }
      }
    }
  }

  lemma EndingSteps(s: State, t: State, r: nat)
    requires Inv(s) && r < |s.runners| && (Raise(s, t, r) || Save(s, t, r))
    ensures Inv(t)
  {
    assert HonestRunner(s, s.runners[r]);
    assert Grows(s, t);
    JobPersists(s, s.(runners := t.runners));
    StepKeeps(s, t, r, t.runners[r]);
  }

  lemma ModelSteps(s: State, t: State, r: nat)
    requires Inv(s) && r < |s.runners| && (ScrubModel(s, t, r) || ModelRaises(s, t, r) || MarkModel(s, t, r))
    ensures Inv(t)
  {
    assert HonestRunner(s, s.runners[r]);
    assert Grows(s, t);
    JobPersists(s, s.(runners := t.runners, modelScrubbed := t.modelScrubbed));
    StepKeeps(s, t, r, t.runners[r]);
  }

  lemma CompleteKeeps(s: State, t: State, r: nat)
    requires Inv(s) && r < |s.runners| && Complete(s, t, r)
    ensures Inv(t)
  {
    var runner := s.runners[r];
    assert HonestRunner(s, runner);
    assert Grows(s, t);
    var pass := runner.pass.value;
    if pass.failures + runner.failed == 0 {
      PassedAll(s, pass, runner.failed);
      CoverPersists(s, t, pass.startedAt, pass.missed);
    }
    JobPersists(s, s.(runners := t.runners, used := t.used, clash := t.clash));
    StepKeeps(s, t, r, t.runners[r]);
  }

  /** Past the last scan every row is behind the cursor. */
  lemma PassedAll(s: State, pass: Pass, failed: nat)
    requires RowsSited(s.rows, s.clock) && Honest(s, pass, failed) && pass.scan >= SCANS && pass.failures + failed == 0
    ensures Covered(s, pass.startedAt, pass.missed)
  {
    forall p | p in s.rows && p !in pass.missed ensures Since(s.rows[p], pass.startedAt) {
      assert Sited(p, s.rows[p].reach);
      assert Behind(p, s.rows[p].reach, pass);
    }
  }

  lemma FinishKeeps(s: State, t: State)
    requires Inv(s) && Finish(s, t)
    ensures Inv(t)
  {
    assert Grows(s, t);
    CoverPersists(s, t, s.job.value.dbDoneAt.value, s.job.value.missed);
    forall q | q in t.runners ensures HonestRunner(t, q) { RunnerPersists(s, t, q); }
  }

  lemma EnvironmentKeeps(s: State, t: State)
    requires Inv(s) && Environment(s, t)
    ensures Inv(t)
  {
    assert Grows(s, t);
    forall q | q in t.runners ensures HonestRunner(t, q) { RunnerPersists(s, t, q); }
    JobPersists(s, t);
    if s.finished.Some? { CoverPersists(s, t, s.finished.value.at, s.finished.value.missed); }
  }

  lemma NextKeeps(s: State, t: State)
    requires Inv(s) && Next(s, t)
    ensures Inv(t)
  {
    if Finish(s, t) {
      FinishKeeps(s, t);
    } else if Environment(s, t) {
      EnvironmentKeeps(s, t);
    } else {
      var r :| RunnerStep(s, t, r);
      RunnerKeeps(s, t, r);
    }
  }

  lemma RunnerKeeps(s: State, t: State, r: nat)
    requires Inv(s) && RunnerStep(s, t, r)
    ensures Inv(t)
  {
    if touched, failures :| Sweep(s, t, r, touched, failures) {
      SweepKeeps(s, t, r, touched, failures);
    } else if Begin(s, t, r) {
      BeginKeeps(s, t, r);
    } else if at, page :| ReadPage(s, t, r, at, page) {
      ReadPageKeeps(s, t, r, at, page);
    } else if n, done, failures :| Hand(s, t, r, n, done, failures) {
      HandKeeps(s, t, r, n, done, failures);
    } else if TurnPage(s, t, r) {
      TurnPageKeeps(s, t, r);
    } else if Raise(s, t, r) || Save(s, t, r) {
      EndingSteps(s, t, r);
    } else if ScrubModel(s, t, r) || ModelRaises(s, t, r) || MarkModel(s, t, r) {
      ModelSteps(s, t, r);
    } else if Complete(s, t, r) {
      CompleteKeeps(s, t, r);
    } else if Take(s, t, r) {
      TakeKeeps(s, t, r);
    } else if stamp :| Renew(s, t, r, stamp) {
      RenewKeeps(s, t, r, stamp);
    } else {
      ReadOrVanishKeeps(s, t, r);
    }
  }

  lemma {:induction false} InvHolds(run: seq<State>, i: nat)
    requires Behaviour(run) && i < |run|
    ensures Inv(run[i])
  {
    if i == 0 {
      forall q | 0 <= q < |run[0].runners| ensures run[0].runners[q].Idle? {
        assert run[0].runners[q] in run[0].runners;
      }
    } else {
      InvHolds(run, i - 1);
      assert Follows(run, i - 1);
      NextKeeps(run[i - 1], run[i]);
    }
  }

  // ---- What every behaviour keeps ----

  /** Whenever the row records a pass at the current version, every row in scope when the pass started
      that no run of the pass missed has since been handed to the redactor without a counted failure. */
  lemma RecordedPassHands(run: seq<State>, i: nat)
    requires Behaviour(run) && i < |run|
    requires run[i].job.Some? && run[i].job.value.dbVersion == SCRUB_VERSION && run[i].job.value.dbDoneAt.Some?
    ensures Covered(run[i], run[i].job.value.dbDoneAt.value, run[i].job.value.missed)
  {
    InvHolds(run, i);
  }

  /** Once the row is gone, now and at every later state: so has a failure-free pass that began at or
      after the grace. */
  lemma DeletedRowHands(run: seq<State>, i: nat)
    requires Behaviour(run) && i < |run| && run[i].job.None?
    ensures run[i].finished.Some? && run[i].finished.value.at >= run[0].deletedAt + IN_FLIGHT_GRACE
    ensures Covered(run[i], run[i].finished.value.at, run[i].finished.value.missed)
  {
    InvHolds(run, i);
    DeletionTimeFixed(run, i);
  }

  lemma DeletionTimeKept(s: State, t: State, r: nat)
    requires RunnerStep(s, t, r)
    ensures t.deletedAt == s.deletedAt
  {
    if Raise(s, t, r) || Save(s, t, r) || Complete(s, t, r) {
    } else if at, page :| ReadPage(s, t, r, at, page) {
    } else if n, done, failures :| Hand(s, t, r, n, done, failures) {
    } else if touched, failures :| Sweep(s, t, r, touched, failures) {
    }
  }

  lemma NextKeepsDeletion(s: State, t: State)
    requires Next(s, t)
    ensures t.deletedAt == s.deletedAt
  {
    if r :| RunnerStep(s, t, r) { DeletionTimeKept(s, t, r); }
  }

  lemma {:induction false} DeletionTimeFixed(run: seq<State>, i: nat)
    requires Behaviour(run) && i < |run|
    ensures run[i].deletedAt == run[0].deletedAt
  {
    if i > 0 {
      DeletionTimeFixed(run, i - 1);
      assert Follows(run, i - 1);
      NextKeepsDeletion(run[i - 1], run[i]);
    }
  }

  /** While no stamp was written twice, at most one runner holds the stamp the row shows. */
  lemma OneHolder(run: seq<State>, i: nat, q: nat, r: nat)
    requires Behaviour(run) && i < |run| && !run[i].clash && q < |run[i].runners| && r < |run[i].runners|
    requires run[i].runners[q].Running? && Holds(run[i], run[i].runners[q].held)
    requires run[i].runners[r].Running? && Holds(run[i], run[i].runners[r].held)
    ensures q == r
  {
    InvHolds(run, i);
  }

  // ---- What a runner without the lease writes ----

  /** The runner is about to sweep the side tables, and some match raced the deletion. */
  ghost predicate FindsRaced(s: State, r: nat) {
    Sweeping(s, r) && s.runners[r].swept == SIDE_TABLES && s.raced != {}
  }

  ghost predicate Sweeps(s: State, t: State, r: nat) {
    Sweeping(s, r) && exists touched, failures :: Sweep(s, t, r, touched, failures)
  }

  /** A runner that outlived its lease leaves the row as it is, whatever step it takes, except that a
      sweep that finds a raced match overwrites the row's match ids: exactly then, and when that makes
      a difference, the row changes. */
  lemma OutlivedRunner(s: State, t: State, r: nat)
    requires RunnerStep(s, t, r) && s.runners[r].Running? && !Holds(s, s.runners[r].held)
    ensures SameBut(s.job, t.job)
    ensures s.job.Some? && FindsRaced(s, r) && Sweeps(s, t, r) ==>
              t.job.value.matchIds == s.runners[r].matches + s.raced
    ensures t.job != s.job <==>
              && s.job.Some? && FindsRaced(s, r) && Sweeps(s, t, r)
              && s.job.value.matchIds != s.runners[r].matches + s.raced
  {
    if touched, failures :| Sweep(s, t, r, touched, failures) {
      assert Sweeps(s, t, r);
    } else {
      OutlivedOtherwise(s, t, r);
    }
  }

  lemma OutlivedOtherwise(s: State, t: State, r: nat)
    requires RunnerStep(s, t, r) && s.runners[r].Running? && !Holds(s, s.runners[r].held) && !Sweeps(s, t, r)
    ensures t.job == s.job
  {
    assert forall touched, failures | Sweep(s, t, r, touched, failures) :: Sweeps(s, t, r);
    if Take(s, t, r) {
    } else if TurnPage(s, t, r) || Raise(s, t, r) || Save(s, t, r) {
    } else if Complete(s, t, r) {
    } else if n, done, failures :| Hand(s, t, r, n, done, failures) {
    }
  }

  /** Only a saved cursor and a finished pass change the row's cursor. */
  lemma CursorSteps(s: State, t: State, r: nat)
    requires RunnerStep(s, t, r) && s.job.Some? && t.job.Some? && t.job.value.scan != s.job.value.scan
    ensures (Save(s, t, r) || Complete(s, t, r)) && Holds(s, s.runners[r].held)
  {
    if s.runners[r].Running? {
      if touched, failures :| Sweep(s, t, r, touched, failures) {
      } else if n, done, failures :| Hand(s, t, r, n, done, failures) {
      } else if at, page :| ReadPage(s, t, r, at, page) {
      }
    }
  }

  /** A run that raises never saves its cursor, and a saved cursor is the run's own at a page end. */
  lemma CursorWrites(s: State, t: State, r: nat)
    requires RunnerStep(s, t, r) && s.job.Some? && t.job.Some? && t.job.value.scan != s.job.value.scan
    ensures !Raise(s, t, r)
    ensures s.runners[r].Running? && Holds(s, s.runners[r].held) && s.runners[r].page == [] && s.runners[r].pass.Some?
    ensures t.job.value.scan.Some? ==>
              && t.job.value.scan.value.scan == s.runners[r].pass.value.scan
              && t.job.value.scan.value.after == s.runners[r].pass.value.after
              && t.job.value.scan.value.startedAt == s.runners[r].pass.value.startedAt
  {
    CursorSteps(s, t, r);
  }
}
