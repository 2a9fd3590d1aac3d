/**
 Runs of overlapping requests over one event table: each looks at the table, later inserts and
 commits or fails, and then performs its side effects one row at a time. Requests may repeat
 earlier ones; a failed commit may have been durable; effects may be cut short.
 */
module IngestRuns {
  import opened EventIngest

  datatype Phase =
    | Planned                                        // has rows, not yet in its transaction
    | Looked(existing: set<string>)                  // saw these of its ids in the table
    | Committed(reply: Reply, pending: seq<Row>)     // side effects still to perform
    | Answered(reply: Reply, failed: bool)
    | Cut(reply: Reply)                              // ended without an answer, its effects unfinished

  datatype Request = Request(batch: Batch, phase: Phase)

  /** The table, every request so far, the rows handed to the side effects in order, and the rows
      stored whose side effects will never be performed: those of a request cut short, and those of
      a commit reported as failed. */
  datatype State = State(table: seq<Row>, requests: seq<Request>, effects: seq<Row>, cut: seq<Row>, silent: seq<Row>)

  datatype Step =
    | Arrive(batch: Batch)
    | Look(i: nat)
    | Commit(i: nat)
    | Fail(i: nat, durable: bool)
    | Perform(i: nat)
    | Respond(i: nat)
    | Abandon(i: nat)

  ghost predicate Can(s: State, step: Step) {
    match step
    case Arrive(_) => true
    case Look(i) => i < |s.requests| && s.requests[i].phase.Planned? && PlanOf(s.requests[i].batch).Insert?
    case Commit(i) => i < |s.requests| && s.requests[i].phase.Looked? && PlanOf(s.requests[i].batch).Insert?
    case Fail(i, durable) =>
      && i < |s.requests| && PlanOf(s.requests[i].batch).Insert?
      && (s.requests[i].phase.Looked? || (s.requests[i].phase.Planned? && !durable))
    case Perform(i) => i < |s.requests| && s.requests[i].phase.Committed? && s.requests[i].phase.pending != []
    case Respond(i) => i < |s.requests| && s.requests[i].phase.Committed? && s.requests[i].phase.pending == []
    case Abandon(i) => i < |s.requests| && s.requests[i].phase.Committed?
  }

  function OutcomeOf(s: State, i: nat): Outcome
    requires i < |s.requests| && s.requests[i].phase.Looked? && PlanOf(s.requests[i].batch).Insert?
  {
    var plan := PlanOf(s.requests[i].batch);
    Transact(s.table, s.requests[i].phase.existing, plan.tally, plan.rows)
  }

  function Arrived(batch: Batch): Request {
    var plan := PlanOf(batch);
    Request(batch, if plan.Answer? then Answered(plan.reply, false) else Planned)
  }

  function Moved(s: State, i: nat, phase: Phase): seq<Request>
    requires i < |s.requests|
  {
    s.requests[i := s.requests[i].(phase := phase)]
  }

  ghost function Next(s: State, step: Step): State
    requires Can(s, step)
  {
    match step
    case Arrive(batch) =>
      s.(requests := s.requests + [Arrived(batch)])
    case Look(i) =>
      s.(requests := Moved(s, i, Looked(Ids(s.table) * Ids(PlanOf(s.requests[i].batch).rows))))
    case Commit(i) =>
      var out := OutcomeOf(s, i);
      s.(table := out.table, requests := Moved(s, i, Committed(out.reply, out.inserted)))
    case Fail(i, durable) =>
      var failed := s.(requests := Moved(s, i, Answered(NOTHING, true)));
      if durable then
        var out := OutcomeOf(s, i);
        failed.(table := out.table, silent := s.silent + out.inserted)
      else failed
    case Perform(i) =>
      var phase := s.requests[i].phase;
      s.(effects := s.effects + [phase.pending[0]], requests := Moved(s, i, phase.(pending := phase.pending[1..])))
    case Respond(i) =>
      s.(requests := Moved(s, i, Answered(s.requests[i].phase.reply, false)))
    case Abandon(i) =>
      s.(cut := s.cut + s.requests[i].phase.pending, requests := Moved(s, i, Cut(s.requests[i].phase.reply)))
  }

  ghost predicate Runs(s: State, steps: seq<Step>, t: State)
    decreases |steps|
  {
    if steps == [] then t == s
    else Can(s, steps[0]) && Runs(Next(s, steps[0]), steps[1..], t)
  }

  function Start(base: seq<Row>): State {
    State(base, [], [], [], [])
  }

  // ---- The invariant ----

  ghost function Times(row: Row, rows: seq<Row>): nat {
    multiset(rows)[row]
  }

  ghost function Waiting(row: Row, r: Request): nat {
    if r.phase.Committed? then Times(row, r.phase.pending) else 0
  }

  ghost function AllWaiting(row: Row, requests: seq<Request>): nat {
    if requests == [] then 0
    else AllWaiting(row, requests[..|requests| - 1]) + Waiting(row, requests[|requests| - 1])
  }

  ghost predicate RequestOk(table: seq<Row>, r: Request) {
    var plan, n := PlanOf(r.batch), |r.batch.events|;
    match r.phase
    case Planned => plan.Insert?
    case Looked(existing) => plan.Insert? && existing <= Ids(table)
    case Committed(reply, _) =>
      plan.Insert? && reply.Sum() == n && reply.disposition.Okay? && Ids(plan.rows) <= Ids(table)
    case Cut(reply) => plan.Insert? && reply.Sum() == n && reply.disposition.Okay? && Ids(plan.rows) <= Ids(table)
    case Answered(reply, failed) =>
      && (failed ==> plan.Insert? && reply == NOTHING)
      && (plan.Insert? && !failed ==> reply.Sum() == n && reply.disposition.Okay? && Ids(plan.rows) <= Ids(table))
      && (plan.Answer? ==> reply == plan.reply)
  }

  /** Every stored row was there before, has had its side effect, waits for it, or was cut off from it. */
  ghost predicate Conserved(base: seq<Row>, s: State) {
    forall row ::
        Times(row, s.table) == Times(row, base) + Times(row, s.effects) + Times(row, s.cut) + Times(row, s.silent)
                                   + AllWaiting(row, s.requests)
  }

  ghost predicate AllOk(table: seq<Row>, requests: seq<Request>) {
    forall i | 0 <= i < |requests| :: RequestOk(table, requests[i])
  }

  ghost predicate Inv(base: seq<Row>, s: State) {
    UniqueIds(s.table) && Conserved(base, s) && AllOk(s.table, s.requests)
  }

  lemma {:induction false} WaitingMoved(row: Row, requests: seq<Request>, i: nat, r: Request)
    requires i < |requests|
    ensures AllWaiting(row, requests[i := r]) == AllWaiting(row, requests) - Waiting(row, requests[i]) + Waiting(row, r)
  {
    var last := |requests| - 1;
    if i < last {
      WaitingMoved(row, requests[..last], i, r);
      assert requests[i := r][..last] == requests[..last][i := r];
    } else {
      assert requests[i := r][..last] == requests[..last];
    }
  }

  /** What one request's move takes from and gives to each pile balances. */
  lemma MoveConserves(base: seq<Row>, s: State, i: nat, phase: Phase, t: State)
    requires i < |s.requests| && t.requests == Moved(s, i, phase) && Conserved(base, s)
    requires forall row ::
               Times(row, t.table) - Times(row, t.effects) - Times(row, t.cut) - Times(row, t.silent)
                   - Waiting(row, t.requests[i])
               == Times(row, s.table) - Times(row, s.effects) - Times(row, s.cut) - Times(row, s.silent)
                   - Waiting(row, s.requests[i])
    ensures Conserved(base, t)
  {
    forall row
      ensures Times(row, t.table) == Times(row, base) + Times(row, t.effects) + Times(row, t.cut) + Times(row, t.silent)
                + AllWaiting(row, t.requests)
    {
      WaitingMoved(row, s.requests, i, t.requests[i]);
    }
  }

  lemma MoveKeepsOk(s: State, table: seq<Row>, i: nat, phase: Phase)
    requires i < |s.requests| && Ids(s.table) <= Ids(table) && AllOk(s.table, s.requests)
    requires RequestOk(table, s.requests[i].(phase := phase))
    ensures AllOk(table, Moved(s, i, phase))
  {
    forall j | 0 <= j < |s.requests| ensures RequestOk(table, Moved(s, i, phase)[j]) {
      assert RequestOk(s.table, s.requests[j]);
    }
  }

  /** What a commit does, whether reported or not. */
  lemma Inserts(base: seq<Row>, s: State, i: nat)
    requires Inv(base, s) && Can(s, Commit(i))
    ensures var r, out := s.requests[i], OutcomeOf(s, i);
            && out.inserted == Without(PlanOf(r.batch).rows, Ids(s.table)) && out.table == s.table + out.inserted
            && UniqueIds(out.table) && Ids(out.table) == Ids(s.table) + Ids(PlanOf(r.batch).rows)
            && out.reply.Sum() == |r.batch.events|
  {
    var r := s.requests[i];
    assert RequestOk(s.table, r);
    PlanAddsUp(r.batch);
    TransactAdds(s.table, r.phase.existing, PlanOf(r.batch).tally, PlanOf(r.batch).rows);
  }

  lemma TimesBoth(a: seq<Row>, b: seq<Row>)
    ensures forall row :: Times(row, a + b) == Times(row, a) + Times(row, b)
  {
  }

  lemma CommitKeeps(base: seq<Row>, s: State, i: nat)
    requires Inv(base, s) && Can(s, Commit(i))
    ensures Inv(base, Next(s, Commit(i)))
  {
    var out, t := OutcomeOf(s, i), Next(s, Commit(i));
    Inserts(base, s, i);
    TimesBoth(s.table, out.inserted);
    MoveConserves(base, s, i, t.requests[i].phase, t);
    MoveKeepsOk(s, t.table, i, t.requests[i].phase);
  }

  lemma FailKeeps(base: seq<Row>, s: State, i: nat, durable: bool)
    requires Inv(base, s) && Can(s, Fail(i, durable))
    ensures Inv(base, Next(s, Fail(i, durable)))
  {
    var t := Next(s, Fail(i, durable));
    if durable {
      Inserts(base, s, i);
      TimesBoth(s.table, OutcomeOf(s, i).inserted);
      TimesBoth(s.silent, OutcomeOf(s, i).inserted);
    }
    MoveConserves(base, s, i, t.requests[i].phase, t);
    MoveKeepsOk(s, t.table, i, t.requests[i].phase);
  }

  lemma PerformKeeps(base: seq<Row>, s: State, i: nat)
    requires Inv(base, s) && Can(s, Perform(i))
    ensures Inv(base, Next(s, Perform(i)))
  {
    var t, pending := Next(s, Perform(i)), s.requests[i].phase.pending;
    assert pending == [pending[0]] + pending[1..];
    TimesBoth([pending[0]], pending[1..]);
    TimesBoth(s.effects, [pending[0]]);
    MoveConserves(base, s, i, t.requests[i].phase, t);
    assert RequestOk(s.table, s.requests[i]);
    MoveKeepsOk(s, t.table, i, t.requests[i].phase);
  }

  lemma AbandonKeeps(base: seq<Row>, s: State, i: nat)
    requires Inv(base, s) && Can(s, Abandon(i))
    ensures Inv(base, Next(s, Abandon(i)))
  {
    var t := Next(s, Abandon(i));
    TimesBoth(s.cut, s.requests[i].phase.pending);
    MoveConserves(base, s, i, t.requests[i].phase, t);
    assert RequestOk(s.table, s.requests[i]);
    MoveKeepsOk(s, t.table, i, t.requests[i].phase);
  }

  lemma RespondKeeps(base: seq<Row>, s: State, i: nat)
    requires Inv(base, s) && Can(s, Respond(i))
    ensures Inv(base, Next(s, Respond(i)))
  {
    var t := Next(s, Respond(i));
    MoveConserves(base, s, i, t.requests[i].phase, t);
    assert RequestOk(s.table, s.requests[i]);
    MoveKeepsOk(s, t.table, i, t.requests[i].phase);
  }

  lemma ArriveKeeps(base: seq<Row>, s: State, batch: Batch)
    requires Inv(base, s)
    ensures Inv(base, Next(s, Arrive(batch)))
  {
    var t := Next(s, Arrive(batch));
    assert t.requests[..|s.requests|] == s.requests;
    forall i | 0 <= i < |t.requests| ensures RequestOk(t.table, t.requests[i]) {
      if i < |s.requests| { assert RequestOk(s.table, s.requests[i]); }
    }
  }

  lemma LookKeeps(base: seq<Row>, s: State, i: nat)
    requires Inv(base, s) && Can(s, Look(i))
    ensures Inv(base, Next(s, Look(i)))
  {
    var t := Next(s, Look(i));
    MoveConserves(base, s, i, t.requests[i].phase, t);
    MoveKeepsOk(s, t.table, i, t.requests[i].phase);
  }

  lemma StepKeeps(base: seq<Row>, s: State, step: Step)
    requires Inv(base, s) && Can(s, step)
    ensures Inv(base, Next(s, step)) && Ids(s.table) <= Ids(Next(s, step).table)
  {
    match step {
      case Arrive(batch) => ArriveKeeps(base, s, batch);
      case Look(i) => LookKeeps(base, s, i);
      case Commit(i) => CommitKeeps(base, s, i); Inserts(base, s, i);
      case Fail(i, durable) => FailKeeps(base, s, i, durable); if durable { Inserts(base, s, i); }
      case Perform(i) => PerformKeeps(base, s, i);
      case Respond(i) => RespondKeeps(base, s, i);
      case Abandon(i) => AbandonKeeps(base, s, i);
    }
  }

  lemma {:induction false} RunKeeps(base: seq<Row>, s: State, steps: seq<Step>, t: State)
    requires Inv(base, s) && Runs(s, steps, t)
    ensures Inv(base, t) && Ids(s.table) <= Ids(t.table)
    decreases |steps|
  {
    if steps != [] {
      StepKeeps(base, s, steps[0]);
      RunKeeps(base, Next(s, steps[0]), steps[1..], t);
    }
  }

  // ---- Exactly once ----

  lemma {:induction false} OneOfEach(rows: seq<Row>, row: Row)
    requires UniqueIds(rows)
    ensures Times(row, rows) <= 1
  {
    if rows != [] {
      var head := rows[..|rows| - 1];
      OneOfEach(head, row);
      assert rows == head + [rows[|rows| - 1]];
    }
  }

  lemma AtLeastTwice(rows: seq<Row>, i: nat, j: nat)
    requires i < j < |rows| && rows[i] == rows[j]
    ensures Times(rows[i], rows) >= 2
  {
    assert rows == rows[..j] + rows[j..];
    assert rows[i] in rows[..j] && rows[i] in rows[j..];
  }

  lemma UniquePart(part: seq<Row>, rows: seq<Row>)
    requires UniqueIds(rows) && forall row :: Times(row, part) <= Times(row, rows)
    ensures UniqueIds(part) && forall row <- part :: row in rows
  {
    forall row <- part ensures row in rows { assert Times(row, part) >= 1; }
    forall i, j | 0 <= i < j < |part| ensures part[i].eventId != part[j].eventId {
      OneOfEach(rows, part[i]);
      if part[i] == part[j] {
        AtLeastTwice(part, i, j);
      } else {
        assert part[i] in rows && part[j] in rows;
      }
    }
  }

  /** Over every run: an event id has one row at most, and no event has its side effects twice; each
      side effect is for a row this run stored. When nothing was cut off and nothing is pending,
      every row the run stored has had its side effects. */
  lemma ExactlyOnce(base: seq<Row>, steps: seq<Step>, t: State)
    requires UniqueIds(base) && Runs(Start(base), steps, t)
    ensures UniqueIds(t.table) && UniqueIds(t.effects)
    ensures forall row <- t.effects :: row in t.table && row !in base
    ensures t.cut == [] && t.silent == [] && (forall r <- t.requests :: !r.phase.Committed?) ==>
              multiset(t.table) == multiset(base) + multiset(t.effects)
  {
    RunKeeps(base, Start(base), steps, t);
    UniquePart(t.effects, t.table);
    forall row <- t.effects ensures row !in base {
      OneOfEach(t.table, row);
      assert Times(row, t.effects) >= 1;
      assert row in base ==> Times(row, base) >= 1;
    }
    if t.cut == [] && t.silent == [] && forall r <- t.requests :: !r.phase.Committed? {
      forall row ensures multiset(t.table)[row] == multiset(base)[row] + multiset(t.effects)[row] {
        NoneWaiting(row, t.requests);
        assert Times(row, t.table) == Times(row, base) + Times(row, t.effects) + Times(row, t.cut)
               + Times(row, t.silent) + 0;
      }
    }
  }

  lemma {:induction false} NoneWaiting(row: Row, requests: seq<Request>)
    requires forall r <- requests :: !r.phase.Committed?
    ensures AllWaiting(row, requests) == 0
  {
    if requests != [] {
      NoneWaiting(row, requests[..|requests| - 1]);
    }
  }

  /** An answer turns its batch away as too large exactly when it has more than the allowed events. */
  lemma AnswersTooMany(base: seq<Row>, steps: seq<Step>, t: State, i: nat)
    requires UniqueIds(base) && Runs(Start(base), steps, t)
    requires i < |t.requests| && t.requests[i].phase.Answered?
    ensures t.requests[i].phase.reply.disposition == TooMany <==> |t.requests[i].batch.events| > MAX_BATCH
  {
    RunKeeps(base, Start(base), steps, t);
    assert RequestOk(t.table, t.requests[i]);
    TooManyWhen(t.requests[i].batch);
  }

  /** Every answer's counts add up to its events exactly when the batch was small enough to be taken
      up and its transaction did not fail. */
  lemma AnswersAddUp(base: seq<Row>, steps: seq<Step>, t: State, i: nat)
    requires UniqueIds(base) && Runs(Start(base), steps, t)
    requires i < |t.requests| && t.requests[i].phase.Answered?
    ensures var r := t.requests[i];
            r.phase.reply.Sum() == |r.batch.events| <==> |r.batch.events| <= MAX_BATCH && !r.phase.failed
  {
    RunKeeps(base, Start(base), steps, t);
    assert RequestOk(t.table, t.requests[i]);
    PlanAddsUp(t.requests[i].batch);
  }

  lemma NoIds(rows: seq<Row>)
    ensures Ids(rows) == {} ==> rows == []
  {
    if rows != [] {
      assert rows[0].eventId in Ids(rows);
    }
  }

  /** A request whose ids are all in the table stores nothing: what it admits is counted as duplicate. */
  lemma NothingNew(base: seq<Row>, t: State, j: nat)
    requires Inv(base, t) && Can(t, Commit(j)) && Ids(PlanOf(t.requests[j].batch).rows) <= Ids(t.table)
    ensures var plan, after := PlanOf(t.requests[j].batch), Next(t, Commit(j));
            && after.table == t.table && after.requests[j].phase.pending == []
            && after.requests[j].phase.reply == plan.tally.(deduped := plan.tally.deduped + |plan.rows|)
  {
    var plan := PlanOf(t.requests[j].batch);
    assert RequestOk(t.table, t.requests[j]);
    PlanAddsUp(t.requests[j].batch);
    TransactNothing(t.table, t.requests[j].phase.existing, plan.tally, plan.rows);
  }

  lemma TransactNothing(table: seq<Row>, existing: set<string>, tally: Reply, rows: seq<Row>)
    requires UniqueIds(table) && UniqueIds(rows) && existing <= Ids(table) && Ids(rows) <= Ids(table)
    ensures Transact(table, existing, tally, rows) == Outcome(table, tally.(deduped := tally.deduped + |rows|), [])
  {
    assert table + [] == table;
    NoneLeft(rows, Ids(table));
    TransactAdds(table, existing, tally, rows);
  }

  lemma NoneLeft(rows: seq<Row>, ids: set<string>)
    requires Ids(rows) <= ids
    ensures Without(rows, ids) == []
  {
    WithoutIds(rows, ids);
    NoIds(Without(rows, ids));
  }

  /** Once a batch's insert was committed, even if reported as failed, a request with no other ids
      stores nothing, however the two overlapped: all it admits is counted as duplicate. */
  lemma ResendInsertsNothing(base: seq<Row>, s: State, i: nat, failed: bool, steps: seq<Step>, t: State, j: nat)
    requires Inv(base, s) && Can(s, Commit(i))
    requires Runs(Next(s, if failed then Fail(i, true) else Commit(i)), steps, t)
    requires Can(t, Commit(j)) && Ids(PlanOf(t.requests[j].batch).rows) <= Ids(PlanOf(s.requests[i].batch).rows)
    ensures var plan, after := PlanOf(t.requests[j].batch), Next(t, Commit(j));
            && after.table == t.table && after.requests[j].phase.pending == []
            && after.requests[j].phase.reply == plan.tally.(deduped := plan.tally.deduped + |plan.rows|)
  {
    var step := if failed then Fail(i, true) else Commit(i);
    Inserts(base, s, i);
    StepKeeps(base, s, step);
    RunKeeps(base, Next(s, step), steps, t);
    NothingNew(base, t, j);
  }

  // ---- Accepted counts are stored rows ----

  /** The rows a request's answer says it stored. */
  function Claimed(r: Request): int {
    if r.phase.Answered? then r.phase.reply.accepted - r.phase.reply.dropped else 0
  }

  /** The rows stored by a request that has not answered, or never will. */
  function Unclaimed(r: Request): int {
    if r.phase.Committed? || r.phase.Cut? then r.phase.reply.accepted - r.phase.reply.dropped else 0
  }

  function AllClaimed(requests: seq<Request>): int {
    if requests == [] then 0 else AllClaimed(requests[..|requests| - 1]) + Claimed(requests[|requests| - 1])
  }

  function AllUnclaimed(requests: seq<Request>): int {
    if requests == [] then 0 else AllUnclaimed(requests[..|requests| - 1]) + Unclaimed(requests[|requests| - 1])
  }

  ghost predicate Balanced(base: seq<Row>, s: State) {
    |s.table| == |base| + |s.silent| + AllClaimed(s.requests) + AllUnclaimed(s.requests)
  }

  lemma {:induction false} ClaimedMoved(requests: seq<Request>, i: nat, r: Request)
    requires i < |requests|
    ensures AllClaimed(requests[i := r]) == AllClaimed(requests) - Claimed(requests[i]) + Claimed(r)
    ensures AllUnclaimed(requests[i := r]) == AllUnclaimed(requests) - Unclaimed(requests[i]) + Unclaimed(r)
  {
    var last := |requests| - 1;
    if i < last {
      ClaimedMoved(requests[..last], i, r);
      assert requests[i := r][..last] == requests[..last][i := r];
    } else {
      assert requests[i := r][..last] == requests[..last];
    }
  }

  lemma ArriveBalances(base: seq<Row>, s: State, batch: Batch)
    requires Balanced(base, s)
    ensures Balanced(base, Next(s, Arrive(batch)))
  {
    var r := Arrived(batch);
    ClaimsNone(batch);
    ClaimedGrown(s.requests, r);
  }

  /** A request that has just arrived stored nothing. */
  lemma ClaimsNone(batch: Batch)
    ensures Claimed(Arrived(batch)) == 0 && Unclaimed(Arrived(batch)) == 0
  {
    if PlanOf(batch).Answer? { PlanMatches(batch); }
  }

  lemma ClaimedGrown(requests: seq<Request>, r: Request)
    ensures AllClaimed(requests + [r]) == AllClaimed(requests) + Claimed(r)
    ensures AllUnclaimed(requests + [r]) == AllUnclaimed(requests) + Unclaimed(r)
  {
    assert (requests + [r])[..|requests|] == requests;
  }

  lemma CommitBalances(base: seq<Row>, s: State, i: nat)
    requires Inv(base, s) && Can(s, Commit(i)) && Balanced(base, s)
    ensures Balanced(base, Next(s, Commit(i)))
  {
    CommitClaims(base, s, i);
    ClaimedMoved(s.requests, i, Next(s, Commit(i)).requests[i]);
  }

  lemma FailBalances(base: seq<Row>, s: State, i: nat, durable: bool)
    requires Inv(base, s) && Can(s, Fail(i, durable)) && Balanced(base, s)
    ensures Balanced(base, Next(s, Fail(i, durable)))
  {
    if durable { Inserts(base, s, i); }
    ClaimedMoved(s.requests, i, Next(s, Fail(i, durable)).requests[i]);
  }

  /** A step that stores nothing, and at most answers for what its request stored. */
  lemma QuietBalances(base: seq<Row>, s: State, t: State, i: nat, r: Request)
    requires Balanced(base, s) && i < |s.requests|
    requires Claimed(r) + Unclaimed(r) == Claimed(s.requests[i]) + Unclaimed(s.requests[i])
    requires t.table == s.table && t.silent == s.silent && t.requests == s.requests[i := r]
    ensures Balanced(base, t)
  {
    ClaimedMoved(s.requests, i, r);
  }

  lemma StepBalances(base: seq<Row>, s: State, step: Step)
    requires Inv(base, s) && Can(s, step) && Balanced(base, s)
    ensures Balanced(base, Next(s, step))
  {
    var t := Next(s, step);
    match step {
      case Arrive(batch) => ArriveBalances(base, s, batch);
      case Commit(i) => CommitBalances(base, s, i);
      case Fail(i, durable) => FailBalances(base, s, i, durable);
      case Look(i) => QuietBalances(base, s, t, i, t.requests[i]);
      case Perform(i) => QuietBalances(base, s, t, i, t.requests[i]);
      case Respond(i) => QuietBalances(base, s, t, i, t.requests[i]);
      case Abandon(i) => QuietBalances(base, s, t, i, t.requests[i]);
    }
  }

  lemma PlanMatches(batch: Batch)
    ensures var plan := PlanOf(batch);
            if plan.Answer? then plan.reply.accepted == plan.reply.dropped
                else plan.tally.accepted == plan.tally.dropped
  {
  }

  lemma CommitClaims(base: seq<Row>, s: State, i: nat)
    requires Inv(base, s) && Can(s, Commit(i))
    ensures var r := Next(s, Commit(i)).requests[i]; Unclaimed(r) == |Next(s, Commit(i)).table| - |s.table|
  {
    var r := s.requests[i];
    assert RequestOk(s.table, r);
    PlanAddsUp(r.batch);
    TransactAdds(s.table, r.phase.existing, PlanOf(r.batch).tally, PlanOf(r.batch).rows);
  }

  lemma {:induction false} RunBalances(base: seq<Row>, s: State, steps: seq<Step>, t: State)
    requires Inv(base, s) && Balanced(base, s) && Runs(s, steps, t)
    ensures Balanced(base, t)
    decreases |steps|
  {
    if steps != [] {
      StepKeeps(base, s, steps[0]);
      StepBalances(base, s, steps[0]);
      RunBalances(base, Next(s, steps[0]), steps[1..], t);
    }
  }

  /** Over every run the table holds, beyond what it began with, exactly as many rows as all answers
      together claim to have accepted and not dropped, those of commits reported as failed, and those of
      requests that have not answered or never will. */
  lemma AcceptedAreStored(base: seq<Row>, steps: seq<Step>, t: State)
    requires UniqueIds(base) && Runs(Start(base), steps, t)
    ensures |t.table| == |base| + |t.silent| + AllClaimed(t.requests) + AllUnclaimed(t.requests)
  {
    RunBalances(base, Start(base), steps, t);
  }
}
