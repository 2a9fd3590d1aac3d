/**
 Event batches: each request sifts its envelopes, and inserts the rows it admits in one
 transaction that ignores ids already stored. Requests overlap, are resent, and may find their
 transaction failed; product side effects follow a commit, row by row.
 */
module EventIngest {
  import opened Wrappers

  const MAX_BATCH := 50
  const MAX_SEQ := 1_000_000

  datatype Reason = BadEnvelope | BadEventId | BadSeq | NoIdentity

  /** An envelope as parsed: a field is None when it is missing or of another type. */
  datatype Envelope =
    | NotAnObject
    | Envelope(eventType: Option<string>, sessionId: Option<string>, propsFit: bool,
               eventId: Option<string>, seqNo: Option<int>, rest: string)

  datatype Row = Row(eventId: string, columns: string)

  /** Allowlist, size limits and scrubbing: the columns of the row to store, or None to drop it. */
  type Sanitizer = Envelope -> Option<string>

  // ---- Structural validation ----

  predicate IdCharacter(c: char) {
    'A' <= c <= 'Z' || 'a' <= c <= 'z' || '0' <= c <= '9' || c == '_' || c == '-'
  }

  predicate PlainId(s: string) {
    8 <= |s| <= 64 && forall i | 0 <= i < |s| :: IdCharacter(s[i])
  }

  /** The pattern's end anchor also matches before one final newline. */
  predicate EventId(s: string) {
    PlainId(s) || (s != "" && s[|s| - 1] == '\n' && PlainId(s[..|s| - 1]))
  }

  /** An admitted id is one the pattern describes exactly when it does not end in a newline. */
  lemma PlainWhen(s: string)
    ensures PlainId(s) <==> EventId(s) && s[|s| - 1] != '\n'
    ensures PlainId(s) <==> 7 < |s| < 65 && forall c <- s :: LetterOrDigit(c) || c in "_-"
  {
    if PlainId(s) { assert IdCharacter(s[|s| - 1]); }
    forall c ensures IdCharacter(c) <==> LetterOrDigit(c) || c in "_-" {}
    if forall c <- s :: LetterOrDigit(c) || c in "_-" {
      forall i | 0 <= i < |s| ensures IdCharacter(s[i]) { assert s[i] in s; }
    }
  }

  predicate LetterOrDigit(c: char) {
    '/' < c < ':' || '@' < c < '[' || '`' < c < '{'
  }

  /** Two ids that differ in a final newline alone are both admitted. */
  lemma NewlineAdmitted()
    ensures PlainId("aaaaaaaa") && EventId("aaaaaaaa\n") && !PlainId("aaaaaaaa\n")
  {
    var s := "aaaaaaaa\n";
    assert s[..|s| - 1] == "aaaaaaaa";
    assert !IdCharacter(s[8]);
  }

  function Rejection(env: Envelope): Option<Reason> {
    if env.NotAnObject? then Some(BadEnvelope)
    else if env.eventType.None? || !(1 <= |env.eventType.value| <= 64) then Some(BadEnvelope)
    else if env.sessionId.None? || !(8 <= |env.sessionId.value| <= 64) then Some(BadEnvelope)
    else if !env.propsFit then Some(BadEnvelope)
    else if env.eventId.None? || !EventId(env.eventId.value) then Some(BadEventId)
    else if env.seqNo.None? || !(1 <= env.seqNo.value <= MAX_SEQ) then Some(BadSeq)
    else None
  }

  /** The envelope is an object with a short type, a session of a fit length, and properties that fit. */
  predicate Shaped(env: Envelope) {
    && env.Envelope? && env.propsFit
    && env.eventType.Some? && 0 < |env.eventType.value| < 65
    && env.sessionId.Some? && 7 < |env.sessionId.value| < 65
  }

  predicate Numbered(env: Envelope)
    requires env.Envelope?
  {
    env.seqNo.Some? && 0 < env.seqNo.value < MAX_SEQ + 1
  }

  predicate Named(env: Envelope)
    requires env.Envelope?
  {
    env.eventId.Some? && EventId(env.eventId.value)
  }

  /** The reason is the first that applies, of the shape, the id and the number. */
  lemma RejectedWhen(env: Envelope)
    ensures Rejection(env) == Some(BadEnvelope) <==> !Shaped(env)
    ensures Rejection(env) == Some(BadEventId) <==> Shaped(env) && !Named(env)
    ensures Rejection(env) == Some(BadSeq) <==> Shaped(env) && Named(env) && !Numbered(env)
    ensures Rejection(env).None? <==> Shaped(env) && Named(env) && Numbered(env)
  {
  }

  type Valid = env: Envelope | Rejection(env).None?
    ghost witness Envelope(Some("a"), Some("aaaaaaaa"), true, Some("aaaaaaaa"), Some(1), "")

  function Rejected(events: seq<Envelope>): seq<(nat, Reason)> {
    if events == [] then []
    else
      var last := |events| - 1;
      Rejected(events[..last]) + (match Rejection(events[last]) case Some(reason) => [(last, reason)] case None => [])
  }

  function Admitted(events: seq<Envelope>): (valid: seq<Valid>) {
    if events == [] then []
    else
      var last := |events| - 1;
      Admitted(events[..last]) + if Rejection(events[last]).None? then [events[last]] else []
  }

  ghost predicate RejectedAt(events: seq<Envelope>, i: nat, reason: Reason) {
    i < |events| && Rejection(events[i]) == Some(reason)
  }

  ghost predicate Rising(rejected: seq<(nat, Reason)>, n: nat) {
    && (forall a | 0 <= a < |rejected| :: rejected[a].0 < n)
    && forall a, b | 0 <= a < b < |rejected| :: rejected[a].0 < rejected[b].0
  }

  /** Every envelope is rejected or admitted, once; a rejection names its index and its reason. */
  lemma {:induction false} SiftedApart(events: seq<Envelope>)
    ensures |Rejected(events)| + |Admitted(events)| == |events|
    ensures forall i: nat, reason :: (i, reason) in Rejected(events) <==> RejectedAt(events, i, reason)
    ensures Rising(Rejected(events), |events|)
  {
    if events != [] {
      var head, last := events[..|events| - 1], |events| - 1;
      SiftedApart(head);
      var before, after := Rejected(head), Rejected(events);
      assert Rejected(events) == before + match Rejection(events[last]) case Some(reason) => [(last, reason)]
             case None => [];
      forall i: nat, reason ensures (i, reason) in after <==> RejectedAt(events, i, reason) {
        assert (i, reason) in before <==> RejectedAt(head, i, reason);
        if i < last { assert head[i] == events[i]; }
      }
    }
  }

  // ---- Rows to insert ----

  function Ids(rows: seq<Row>): set<string> {
    set r | r in rows :: r.eventId
  }

  lemma IdsOfMore(rows: seq<Row>, row: Row)
    ensures Ids(rows + [row]) == Ids(rows) + {row.eventId}
  {
    assert row in rows + [row];
    assert forall r <- rows :: r in rows + [row];
  }

  ghost predicate UniqueIds(rows: seq<Row>) {
    forall i, j | 0 <= i < j < |rows| :: rows[i].eventId != rows[j].eventId
  }

  function Dropped(valid: seq<Valid>, sanitize: Sanitizer): (n: nat)
    ensures n <= |valid|
  {
    if valid == [] then 0
    else Dropped(valid[..|valid| - 1], sanitize) + if sanitize(valid[|valid| - 1]).None? then 1 else 0
  }

  /** The rows kept: of the envelopes with an id, the first that is not dropped. */
  function Kept(valid: seq<Valid>, sanitize: Sanitizer): seq<Row> {
    if valid == [] then []
    else
      var before, env := Kept(valid[..|valid| - 1], sanitize), valid[|valid| - 1];
      if sanitize(env).None? || env.eventId.value in Ids(before) then before
      else before + [Row(env.eventId.value, sanitize(env).value)]
  }

  ghost predicate FirstWith(valid: seq<Valid>, sanitize: Sanitizer, i: nat, row: Row) {
    && i < |valid| && sanitize(valid[i]) == Some(row.columns) && valid[i].eventId.value == row.eventId
    && forall j | 0 <= j < i :: valid[j].eventId.value == row.eventId ==> sanitize(valid[j]).None?
  }

  ghost predicate HasId(valid: seq<Valid>, sanitize: Sanitizer, i: nat, id: string) {
    i < |valid| && sanitize(valid[i]).Some? && valid[i].eventId.value == id
  }

  lemma {:induction false} KeptIds(valid: seq<Valid>, sanitize: Sanitizer, id: string)
    ensures id in Ids(Kept(valid, sanitize)) <==> exists i :: HasId(valid, sanitize, i, id)
  {
    if valid != [] {
      var head, last := valid[..|valid| - 1], |valid| - 1;
      KeptIds(head, sanitize, id);
      var before := Kept(head, sanitize);
      assert Ids(Kept(valid, sanitize)) == Ids(before)
             + if HasId(valid, sanitize, last, valid[last].eventId.value) then {valid[last].eventId.value} else {} by {
        IdsOfMore(before, Row(valid[last].eventId.value, ""));
        if sanitize(valid[last]).Some? {
          IdsOfMore(before, Row(valid[last].eventId.value, sanitize(valid[last]).value));
        }
      }
      forall i: nat ensures HasId(valid, sanitize, i, id)
          <==> HasId(head, sanitize, i, id) || (i == last && HasId(valid, sanitize, last, id)) {
        if i < last { assert valid[i] == head[i]; }
      }
    }
  }

  /** Within a batch the first admitted envelope of an id wins, and every such id has its row. */
  lemma {:induction false} FirstWins(valid: seq<Valid>, sanitize: Sanitizer)
    ensures UniqueIds(Kept(valid, sanitize))
    ensures forall row :: row in Kept(valid, sanitize) <==> exists i :: FirstWith(valid, sanitize, i, row)
    ensures |Kept(valid, sanitize)| + Dropped(valid, sanitize) <= |valid|
  {
    if valid != [] {
      var head, last := valid[..|valid| - 1], |valid| - 1;
      FirstWins(head, sanitize);
      var before, after := Kept(head, sanitize), Kept(valid, sanitize);
      forall i, j | 0 <= i < j < |after| ensures after[i].eventId != after[j].eventId {
        if j == |before| { assert before[i].eventId in Ids(before); }
      }
      forall row ensures row in after <==> exists i :: FirstWith(valid, sanitize, i, row) {
        FirstOrEarlier(valid, sanitize, row);
      }
    }
  }

  lemma FirstOrEarlier(valid: seq<Valid>, sanitize: Sanitizer, row: Row)
    requires valid != []
    requires var head := valid[..|valid| - 1];
               row in Kept(head, sanitize) <==> exists i :: FirstWith(head, sanitize, i, row)
    ensures row in Kept(valid, sanitize) <==> exists i :: FirstWith(valid, sanitize, i, row)
  {
    var head, last := valid[..|valid| - 1], |valid| - 1;
    var before := Kept(head, sanitize);
    KeptIds(head, sanitize, row.eventId);
    forall i: nat ensures FirstWith(head, sanitize, i, row) <==> i < last && FirstWith(valid, sanitize, i, row) {
      if i < last { assert valid[i] == head[i]; }
    }
    forall i: nat ensures HasId(head, sanitize, i, row.eventId)
        <==> i < last && HasId(valid, sanitize, i, row.eventId) {
      if i < last { assert valid[i] == head[i]; }
    }
    assert row in Kept(valid, sanitize) <==> row in before || FirstWith(valid, sanitize, last, row) by {
      if FirstWith(valid, sanitize, last, row) {
        assert row.eventId !in Ids(before);
        assert Kept(valid, sanitize)[|before|] == row;
      }
      if row in Kept(valid, sanitize) && row !in before {
        assert forall j | 0 <= j < last && valid[j].eventId.value == row.eventId ::
               !HasId(valid, sanitize, j, row.eventId);
      }
    }
  }

  // ---- One request ----

  /** What a request asks: its events, whether it can be attributed to a user or a device, whether
      its hourly budget was found spent, and how its envelopes are sanitized at that moment. */
  datatype Batch = Batch(events: seq<Envelope>, identified: bool, overBudget: bool, sanitize: Sanitizer)

  datatype Disposition = Okay | TooMany

  datatype Reply = Reply(accepted: nat, deduped: nat, rejected: seq<(nat, Reason)>, dropped: nat,
                         disposition: Disposition)
  {
    function Sum(): nat {
      accepted + deduped + |rejected|
    }
  }

  const NOTHING := Reply(0, 0, [], 0, Okay)

  /** Before its transaction a request has a tally, and the rows it will try to insert; or its answer. */
  datatype Plan = Answer(reply: Reply) | Insert(tally: Reply, rows: seq<Row>)

  /** Every index refused for one reason. */
  function AllRefused(n: nat): seq<(nat, Reason)> {
    seq(n, i requires 0 <= i < n => (i, NoIdentity))
  }

  function PlanOf(batch: Batch): Plan {
    var n := |batch.events|;
    if n > MAX_BATCH then Answer(NOTHING.(disposition := TooMany))
    else if !batch.identified then Answer(NOTHING.(rejected := AllRefused(n)))
    else
      var rejected, valid := Rejected(batch.events), Admitted(batch.events);
      if valid != [] && batch.overBudget then Answer(Reply(|valid|, 0, rejected, |valid|, Okay))
      else
        var dropped, rows := Dropped(valid, batch.sanitize), Kept(valid, batch.sanitize);
        FirstWins(valid, batch.sanitize);
        var tally := Reply(dropped, |valid| - dropped - |rows|, rejected, dropped, Okay);
        if rows == [] then Answer(tally) else Insert(tally, rows)
  }

  /** Sift the envelopes into the rejected, with their reasons, and the admitted. */
  method Sift(events: seq<Envelope>) returns (rejected: seq<(nat, Reason)>, valid: seq<Valid>)
    ensures rejected == Rejected(events) && valid == Admitted(events)
  {
    rejected, valid := [], [];
    for i := 0 to |events|
      invariant rejected == Rejected(events[..i]) && valid == Admitted(events[..i])
    {
      assert events[..i + 1][..i] == events[..i];
      var reason := Rejection(events[i]);
      if reason.Some? {
        rejected := rejected + [(i, reason.value)];
      } else {
        valid := valid + [events[i]];
      }
    }
    assert events[..|events|] == events;
  }

  /** A request up to its transaction. */
  method Prepare(batch: Batch) returns (plan: Plan)
    ensures plan == PlanOf(batch)
  {
    var n := |batch.events|;
    if n > MAX_BATCH {
      return Answer(NOTHING.(disposition := TooMany));
    }
    if !batch.identified {
      return Answer(NOTHING.(rejected := AllRefused(n)));
    }
    var rejected, valid := Sift(batch.events);
    if valid != [] && batch.overBudget {
      return Answer(Reply(|valid|, 0, rejected, |valid|, Okay));
    }
    var accepted, dropped, deduped := 0, 0, 0;
    var rows: seq<Row>, seen: set<string> := [], {};
    for i := 0 to |valid|
      invariant rows == Kept(valid[..i], batch.sanitize) && seen == Ids(rows)
      invariant accepted == dropped == Dropped(valid[..i], batch.sanitize)
      invariant accepted + deduped + |rows| == i
    {
      assert valid[..i + 1][..i] == valid[..i];
      var columns := batch.sanitize(valid[i]);
      var id := valid[i].eventId.value;
      if columns.None? {
        accepted, dropped := accepted + 1, dropped + 1;
      } else if id in seen {
        deduped := deduped + 1;
      } else {
        IdsOfMore(rows, Row(id, columns.value));
        seen := seen + {id};
        rows := rows + [Row(id, columns.value)];
      }
    }
    assert valid[..|valid|] == valid;
    var tally := Reply(accepted, deduped, rejected, dropped, Okay);
    plan := if rows == [] then Answer(tally) else Insert(tally, rows);
  }

  /** What a plan says of the whole batch. */
  function DispositionOf(plan: Plan): Disposition {
    if plan.Answer? then plan.reply.disposition else plan.tally.disposition
  }

  /** A batch is turned away as too large exactly when it has more than the allowed events. */
  lemma TooManyWhen(batch: Batch)
    ensures DispositionOf(PlanOf(batch)) == TooMany <==> |batch.events| > MAX_BATCH
  {
  }

  /** The counts of a plan add up to the batch, unless the whole batch was turned away. */
  lemma PlanAddsUp(batch: Batch)
    ensures var plan := PlanOf(batch);
            && (plan.Insert? ==>
                plan.tally.Sum() + |plan.rows| == |batch.events| && plan.rows != [] && UniqueIds(plan.rows))
            && (plan.Insert? ==> plan.tally.accepted == plan.tally.dropped)
            && (plan.Answer? ==> (plan.reply.Sum() == |batch.events| <==> |batch.events| <= MAX_BATCH))
  {
    SiftedApart(batch.events);
    FirstWins(Admitted(batch.events), batch.sanitize);
  }

  ghost function DroppedAt(valid: seq<Valid>, sanitize: Sanitizer): set<nat> {
    set i: nat | i < |valid| && sanitize(valid[i]).None?
  }

  lemma {:induction false} DroppedCounts(valid: seq<Valid>, sanitize: Sanitizer)
    ensures Dropped(valid, sanitize) == |DroppedAt(valid, sanitize)|
  {
    if valid == [] {
      assert DroppedAt(valid, sanitize) == {};
    } else {
      var head, last := valid[..|valid| - 1], |valid| - 1;
      DroppedCounts(head, sanitize);
      assert DroppedAt(valid, sanitize) == DroppedAt(head, sanitize) + if sanitize(valid[last]).None? then {last}
             else {};
    }
  }

  lemma {:induction false} IdsSize(rows: seq<Row>)
    requires UniqueIds(rows)
    ensures |Ids(rows)| == |rows|
  {
    if rows != [] {
      var head, last := rows[..|rows| - 1], rows[|rows| - 1];
      IdsSize(head);
      assert rows == head + [last];
      IdsOfMore(head, last);
      assert last.eventId !in Ids(head);
    }
  }

  /** What each count of a plan counts: every index rejected when no one can be credited; all that is
      admitted when the budget is spent; otherwise the dropped envelopes, and as duplicates the
      others beyond one for each id. */
  lemma PlanMeans(batch: Batch)
    requires |batch.events| <= MAX_BATCH
    ensures var plan, valid := PlanOf(batch), Admitted(batch.events);
            var tally := if plan.Insert? then plan.tally else plan.reply;
            var ids := if plan.Insert? then Ids(plan.rows) else {};
            && tally.accepted == tally.dropped
            && (!batch.identified ==> |tally.rejected| == |batch.events| && tally.Sum() == |tally.rejected|
                                      && forall r <- tally.rejected :: r.1 == NoIdentity)
            && (batch.identified ==> tally.rejected == Rejected(batch.events))
            && (batch.identified && batch.overBudget ==> tally.dropped == |valid| && tally.deduped == 0)
            && (batch.identified && !batch.overBudget ==>
                  && tally.dropped == |DroppedAt(valid, batch.sanitize)|
                  && tally.deduped == |valid| - tally.dropped - |ids|
                  && forall id :: id in ids <==> exists i :: HasId(valid, batch.sanitize, i, id))
  {
    var valid := Admitted(batch.events);
    if batch.identified && !(valid != [] && batch.overBudget) {
      DroppedCounts(valid, batch.sanitize);
      FirstWins(valid, batch.sanitize);
      IdsSize(Kept(valid, batch.sanitize));
      forall id ensures id in Ids(Kept(valid, batch.sanitize)) <==> exists i :: HasId(valid, batch.sanitize, i, id) {
        KeptIds(valid, batch.sanitize, id);
      }
    }
  }

  // ---- The transaction ----

  function Without(rows: seq<Row>, ids: set<string>): (rest: seq<Row>)
    ensures |rest| <= |rows|
  {
    if rows == [] then []
    else Without(rows[..|rows| - 1], ids) + if rows[|rows| - 1].eventId in ids then [] else [rows[|rows| - 1]]
  }

  function Among(rows: seq<Row>, ids: set<string>): (some: seq<Row>)
    ensures |some| <= |rows|
  {
    if rows == [] then []
    else Among(rows[..|rows| - 1], ids) + if rows[|rows| - 1].eventId in ids then [rows[|rows| - 1]] else []
  }

  /** The rows an insert that ignores conflicts adds to the table. */
  function Added(table: seq<Row>, rows: seq<Row>): seq<Row> {
    if rows == [] then []
    else
      var before, last := Added(table, rows[..|rows| - 1]), rows[|rows| - 1];
      before + if last.eventId in Ids(table) || last.eventId in Ids(before) then [] else [last]
  }

  datatype Outcome = Outcome(table: seq<Row>, reply: Reply, inserted: seq<Row>)

  /** The insert transaction: `existing` are ids its first statement saw, at some earlier moment. */
  function Transact(table: seq<Row>, existing: set<string>, tally: Reply, rows: seq<Row>): Outcome {
    var unseen := Without(rows, existing);
    var added := Added(table, unseen);
    var inserted := Among(unseen, Ids(added));
    Outcome(table + added,
            tally.(deduped := tally.deduped + (|rows| - |unseen|) + (|unseen| - |inserted|),
                   accepted := tally.accepted + |inserted|),
            inserted)
  }

  lemma {:induction false} WithoutIds(rows: seq<Row>, ids: set<string>)
    ensures Ids(Without(rows, ids)) == Ids(rows) - ids
    ensures forall row :: row in Without(rows, ids) <==> row in rows && row.eventId !in ids
    ensures UniqueIds(rows) ==> UniqueIds(Without(rows, ids))
  {
    if rows != [] {
      var head, last := rows[..|rows| - 1], rows[|rows| - 1];
      WithoutIds(head, ids);
      assert rows == head + [last];
      IdsOfMore(head, last);
      IdsOfMore(Without(head, ids), last);
      if UniqueIds(rows) {
        var after := Without(rows, ids);
        forall i, j | 0 <= i < j < |after| ensures after[i].eventId != after[j].eventId {
          assert Without(head, ids)[i] in head;
        }
      }
    }
  }

  lemma {:induction false} WithoutBoth(rows: seq<Row>, ids: set<string>, more: set<string>)
    ensures Without(Without(rows, ids), more) == Without(rows, ids + more)
  {
    if rows != [] {
      var head, last := rows[..|rows| - 1], rows[|rows| - 1];
      WithoutBoth(head, ids, more);
      assert (Without(head, ids) + [last])[..|Without(head, ids)|] == Without(head, ids);
      assert Without(rows, ids) == if last.eventId in ids then Without(head, ids) else Without(head, ids) + [last];
    }
  }

  lemma {:induction false} AddedIsWithout(table: seq<Row>, rows: seq<Row>)
    requires UniqueIds(rows)
    ensures Added(table, rows) == Without(rows, Ids(table))
  {
    if rows != [] {
      AddedIsWithout(table, rows[..|rows| - 1]);
      WithoutIds(rows[..|rows| - 1], Ids(table));
      assert rows[|rows| - 1].eventId !in Ids(rows[..|rows| - 1]);
    }
  }

  lemma {:induction false} AmongIsWithout(rows: seq<Row>, some: set<string>, ids: set<string>)
    requires forall row <- rows :: row.eventId in some <==> row.eventId !in ids
    ensures Among(rows, some) == Without(rows, ids)
  {
    if rows != [] {
      AmongIsWithout(rows[..|rows| - 1], some, ids);
    }
  }

  /** However stale the first statement's view, the transaction adds exactly the rows whose ids are
      not in the table, keeps ids unique, and counts every row as inserted or as a duplicate. */
  lemma TransactAdds(table: seq<Row>, existing: set<string>, tally: Reply, rows: seq<Row>)
    requires UniqueIds(table) && UniqueIds(rows) && existing <= Ids(table)
    ensures var out := Transact(table, existing, tally, rows);
            && out.inserted == Without(rows, Ids(table)) && out.table == table + out.inserted
            && UniqueIds(out.table) && Ids(out.table) == Ids(table) + Ids(rows)
            && out.reply.accepted == tally.accepted + |out.inserted| && out.reply.Sum() == tally.Sum() + |rows|
  {
    var unseen := Without(rows, existing);
    WithoutIds(rows, existing);
    AddedIsWithout(table, unseen);
    WithoutIds(unseen, Ids(table));
    AmongIsWithout(unseen, Ids(Added(table, unseen)), Ids(table));
    WithoutBoth(rows, existing, Ids(table));
    assert existing + Ids(table) == Ids(table);
    var out := Transact(table, existing, tally, rows);
    IdsOfBoth(table, out.inserted);
    WithoutIds(rows, Ids(table));
    UniqueBoth(table, out.inserted);
  }

  lemma UniqueBoth(a: seq<Row>, b: seq<Row>)
    requires UniqueIds(a) && UniqueIds(b) && forall id <- Ids(b) :: id !in Ids(a)
    ensures UniqueIds(a + b)
  {
    forall i, j | 0 <= i < j < |a + b| ensures (a + b)[i].eventId != (a + b)[j].eventId {
      if i < |a| <= j {
        assert a[i].eventId in Ids(a) && b[j - |a|].eventId in Ids(b);
      }
    }
  }

  lemma IdsOfBoth(a: seq<Row>, b: seq<Row>)
    ensures Ids(a + b) == Ids(a) + Ids(b)
  {
    assert forall r <- a :: r in a + b;
    assert forall r <- b :: r in a + b;
  }

  /** Two batches of the same events admit the same ids, when they drop the same envelopes. */
  lemma SameEventsSameIds(a: Batch, b: Batch)
    requires a.events == b.events && (forall env :: a.sanitize(env).None? <==> b.sanitize(env).None?)
    requires PlanOf(a).Insert? && PlanOf(b).Insert?
    ensures Ids(PlanOf(a).rows) == Ids(PlanOf(b).rows)
  {
    var valid := Admitted(a.events);
    forall id ensures id in Ids(PlanOf(a).rows) <==> id in Ids(PlanOf(b).rows) {
      KeptIds(valid, a.sanitize, id);
      KeptIds(valid, b.sanitize, id);
      assert forall i: nat :: HasId(valid, a.sanitize, i, id) <==> HasId(valid, b.sanitize, i, id);
    }
  }
}
