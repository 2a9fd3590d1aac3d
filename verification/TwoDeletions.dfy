/**
 Two people's deletions scrub the same card. One after the other, in either order, nothing names
 either of them; but each reads the card and writes it back without a lock, and a scrub that read
 before the other wrote undoes it.
 */
module TwoDeletions {
  import opened Wrappers
  import opened Json
  import opened Redaction

  // ---- One after the other ----

  lemma {:induction false} ReplaceStaysTidy(value: Json, ids: set<string>, token: string, gone: set<string>)
    requires Tidy(value, gone) && token !in gone
    ensures Tidy(Replace(value, ids, token), gone)
    decreases value, 1
  {
    match value {
      case Arr(items) =>
        forall i | 0 <= i < |items| { ReplaceStaysTidy(items[i], ids, token, gone); }
      case Obj(fields) =>
        ReplaceFieldsStayTidy(fields, ids, token, gone);
      case _ =>
    }
  }

  lemma {:induction false} ReplaceFieldsStayTidy(fields: seq<Field>, ids: set<string>, token: string, gone: set<string>)
    requires TidyFields(fields, gone) && token !in gone
    ensures TidyFields(ReplaceFields(fields, ids, token), gone)
    decreases fields, 0
  {
    if fields != [] {
      var n := |fields| - 1;
      var last := fields[n];
      StartTidy(fields, n, gone);
      ReplaceFieldsStayTidy(fields[..n], ids, token, gone);
      ReplaceStaysTidy(last.value, ids, token, gone);
      PutTidy(ReplaceFields(fields[..n], ids, token), Renamed(last.key, ids, token), Replace(last.value, ids, token),
              gone);
    }
  }

  lemma StartTidy(fields: seq<Field>, n: nat, gone: set<string>)
    requires TidyFields(fields, gone) && n <= |fields|
    ensures TidyFields(fields[..n], gone)
  {
  }

  lemma PutTidy(fields: seq<Field>, key: string, value: Json, gone: set<string>)
    requires TidyFields(fields, gone) && key !in gone && Tidy(value, gone)
    ensures TidyFields(Put(fields, key, value), gone)
  {
    PutFields(fields, key, value);
    var after := Put(fields, key, value);
    forall i | 0 <= i < |after| ensures after[i].key !in gone && Tidy(after[i].value, gone) {
      assert after[i] in after;
    }
  }

  lemma RosterStaysTidy(features: seq<Field>, ids: set<string>, redacted: bool, gone: set<string>)
    requires TidyFields(features, gone)
    ensures TidyFields(Update(features, "roster_evaluation", v => Roster(v, ids, redacted)), gone)
  {
    if Get(features, "roster_evaluation").Some? {
      GetTidy(features, "roster_evaluation", gone);
      var value := Get(features, "roster_evaluation").value;
      if value.Obj? {
        StripAtTidy(value.fields, "teams", ids, gone);
        WithoutTidy(Update(value.fields, "teams", v => Stripped(v, ids)), {"mutual_benefit"}, gone);
      }
    }
    UpdateTidy(features, "roster_evaluation", v => Roster(v, ids, redacted), gone);
  }

  lemma TastesStayTidy(value: Json, ids: set<string>, token: string, gone: set<string>)
    requires Tidy(value, gone) && PARTNER + token !in gone
    ensures Tidy(TasteAttrs(value, ids, token), gone)
  {
  }

  lemma SharedStaysTidy(features: seq<Field>, ids: set<string>, token: string, redacted: bool, gone: set<string>)
    requires TidyFields(features, gone) && GoodToken(token, gone)
    ensures TidyFields(Shared(features, ids, token, redacted), gone)
  {
    RosterStaysTidy(features, ids, redacted, gone);
    var rostered := Update(features, "roster_evaluation", v => Roster(v, ids, redacted));
    var replaced := ReplaceFields(rostered, ids, token);
    ReplaceFieldsStayTidy(rostered, ids, token, gone);
    if Get(replaced, "taste_attrs").Some? {
      GetTidy(replaced, "taste_attrs", gone);
      TastesStayTidy(Get(replaced, "taste_attrs").value, ids, token, gone);
    }
    UpdateTidy(replaced, "taste_attrs", v => TasteAttrs(v, ids, token), gone);
    var tasted := Update(replaced, "taste_attrs", v => TasteAttrs(v, ids, token));
    OwnerAtTidy(tasted, "owner_request", token, gone);
    OwnerAtTidy(Update(tasted, "owner_request", v => OwnerRequest(v, token)), "owner_experiment", token, gone);
  }

  /** The taste attributes after a scrub, from those before. */
  lemma TastesAfter(features: seq<Field>, ids: set<string>, token: string)
    requires UniqueKeys(features) && TOKEN_PREFIX <= token && !Poison(features)
    ensures Get(RedactFeatures(features, ids, token).value, "taste_attrs") ==
            match Get(features, "taste_attrs")
            case Some(v) => if "taste_attrs" in ids then None else Some(TasteAttrs(Replace(v, ids, token), ids, token))
            case None => None
  {
    var key, redacted := "taste_attrs", IsRedacted(features, ids);
    assert key[0] != TOKEN_PREFIX[0];
    var rostered := Update(features, "roster_evaluation", v => Roster(v, ids, redacted));
    GetUpdate(features, "roster_evaluation", v => Roster(v, ids, redacted), key);
    if Get(features, "roster_evaluation").Some? {
      PutFields(features, "roster_evaluation", Roster(Get(features, "roster_evaluation").value, ids, redacted));
    }
    ReplaceGet(rostered, ids, token, key);
    var replaced := ReplaceFields(rostered, ids, token);
    GetUpdate(replaced, "taste_attrs", v => TasteAttrs(v, ids, token), key);
    var tasted := Update(replaced, "taste_attrs", v => TasteAttrs(v, ids, token));
    OwnerSettles(tasted, "owner_request", token, key);
    OwnerSettles(Update(tasted, "owner_request", v => OwnerRequest(v, token)), "owner_experiment", token, key);
    PartnerFieldsAt(Shared(features, ids, token, redacted), key);
  }

  lemma TasteStaysClean(attr: Json, ids: set<string>, token: string, gone: set<string>)
    requires GoodToken(token, gone) && (attr.Str? ==> !(PARTNER <= attr.s && attr.s[|PARTNER|..] in gone))
    ensures var after := TasteAttr(Replace(attr, ids, token), ids, token);
            after.Str? ==> !(PARTNER <= after.s && after.s[|PARTNER|..] in gone)
  {
    assert (PARTNER + token)[|PARTNER|..] == token;
    assert token[0] == TOKEN_PREFIX[0] && PARTNER[0] != TOKEN_PREFIX[0];
  }

  /** A scrub brings nothing of another deletion back. */
  lemma OthersStayGone(features: seq<Field>, ids: set<string>, token: string, gone: set<string>)
    requires Clean(features, gone) && GoodToken(token, gone) && !Poison(features)
    ensures Clean(RedactFeatures(features, ids, token).value, gone)
  {
    var redacted, out := IsRedacted(features, ids), RedactFeatures(features, ids, token).value;
    SharedStaysTidy(features, ids, token, redacted, gone);
    if redacted { PartnerFieldsTidy(Shared(features, ids, token, redacted), gone); }
    TastesAfter(features, ids, token);
    if Get(out, "taste_attrs").Some? && Get(out, "taste_attrs").value.Arr? {
      var items, before := Get(out, "taste_attrs").value.items, Get(features, "taste_attrs").value.items;
      forall i | 0 <= i < |items| && items[i].Str?
        ensures !(PARTNER <= items[i].s && items[i].s[|PARTNER|..] in gone)
      {
        assert items[i] == TasteAttr(Replace(before[i], ids, token), ids, token);
        TasteStaysClean(before[i], ids, token, gone);
      }
    }
  }

  /** Scrubbed for one deletion and then for the other, a card names neither person, in either order. */
  lemma BothGone(features: seq<Field>, ids: set<string>, token: string, others: set<string>, otherToken: string)
    requires UniqueKeys(features) && !Poison(features)
    requires GoodToken(token, ids + others) && GoodToken(otherToken, ids + others)
    ensures var once := RedactFeatures(features, ids, token).value;
            && !Poison(once)
            && Clean(RedactFeatures(once, others, otherToken).value, ids)
            && Clean(RedactFeatures(once, others, otherToken).value, others)
  {
    var once := RedactFeatures(features, ids, token).value;
    LeavesNoId(features, ids, token);
    NeverPoisons(features, ids, token);
    OthersStayGone(once, others, otherToken, ids);
    LeavesNoId(once, others, otherToken);
  }

  // ---- At the same time ----

  datatype Deletion = Deletion(ids: set<string>, token: string)

  /** A card after a scrub; one that it cannot redact is left. */
  function Redacted(card: seq<Field>, d: Deletion): seq<Field> {
    match RedactFeatures(card, d.ids, d.token)
    case Some(after) => after
    case None => card
  }

  /** What the two scrubs do: each reads the card, and later writes what it made of what it read. */
  datatype Event = Read(first: bool) | Write(first: bool)

  /** The card as stored, and as each scrub read it. */
  datatype Desk = Desk(stored: seq<Field>, a: seq<Field>, b: seq<Field>)

  /** A scrub writes only what it changed. */
  function Written(stored: seq<Field>, copy: seq<Field>, d: Deletion): seq<Field> {
    if Redacted(copy, d) == copy then stored else Redacted(copy, d)
  }

  function Step(desk: Desk, event: Event, a: Deletion, b: Deletion): Desk {
    match event
    case Read(first) => if first then desk.(a := desk.stored) else desk.(b := desk.stored)
    case Write(first) =>
      desk.(stored := if first then Written(desk.stored, desk.a, a) else Written(desk.stored, desk.b, b))
  }

  function Played(events: seq<Event>, card: seq<Field>, a: Deletion, b: Deletion): Desk {
    if events == [] then Desk(card, card, card)
    else Step(Played(events[..|events| - 1], card, a, b), events[|events| - 1], a, b)
  }

  predicate Before(events: seq<Event>, x: Event, y: Event) {
    exists i, j | 0 <= i < j < |events| :: events[i] == x && events[j] == y
  }

  /** Each scrub reads once and then writes once. */
  predicate Schedule(events: seq<Event>) {
    |events| == 4 && Before(events, Read(true), Write(true)) && Before(events, Read(false), Write(false))
  }

  /** One writes before the other reads. */
  predicate Serial(events: seq<Event>) {
    Before(events, Write(true), Read(false)) || Before(events, Write(false), Read(true))
  }

  /** There are six schedules, two of them serial. */
  lemma SixSchedules(events: seq<Event>)
    ensures var (r, w, r', w') := (Read(true), Write(true), Read(false), Write(false));
            && (Schedule(events) && Serial(events) <==> events in {[r, w, r', w'], [r', w', r, w]})
            && (Schedule(events) && !Serial(events) <==>
                events in {[r, r', w, w'], [r, r', w', w], [r', r, w, w'], [r', r, w', w]})
  {
    var (r, w, r', w') := (Read(true), Write(true), Read(false), Write(false));
    if Schedule(events) {
      assert events == [events[0], events[1], events[2], events[3]];
    }
    if |events| == 4 {
      BeforeIn(events, r, w);
      BeforeIn(events, r', w');
      BeforeIn(events, w, r');
      BeforeIn(events, w', r);
    }
  }

  lemma BeforeIn(events: seq<Event>, x: Event, y: Event)
    requires |events| == 4
    ensures Before(events, x, y) <==>
            || (events[0] == x && y in events[1..]) || (events[1] == x && y in events[2..])
            || (events[2] == x && y == events[3])
  {
    assert events[1..] == [events[1], events[2], events[3]] && events[2..] == [events[2], events[3]];
  }

  /** The last event of a schedule is a write. */
  function Last(events: seq<Event>, a: Deletion, b: Deletion): Deletion
    requires Schedule(events)
  {
    if events[3].first then a else b
  }

  function First(events: seq<Event>, a: Deletion, b: Deletion): Deletion
    requires Schedule(events)
  {
    if events[3].first then b else a
  }

  lemma PlayedMore(events: seq<Event>, event: Event, card: seq<Field>, a: Deletion, b: Deletion)
    ensures Played(events + [event], card, a, b) == Step(Played(events, card, a, b), event, a, b)
  {
    assert (events + [event])[..|events|] == events;
  }

  lemma FourEvents(w: Event, x: Event, y: Event, z: Event, card: seq<Field>, a: Deletion, b: Deletion)
    ensures Played([w, x, y, z], card, a, b) ==
            Step(Step(Step(Step(Desk(card, card, card), w, a, b), x, a, b), y, a, b), z, a, b)
  {
    assert [] + [w] == [w] && [w] + [x] == [w, x] && [w, x] + [y] == [w, x, y] && [w, x, y] + [z] == [w, x, y, z];
    PlayedMore([], w, card, a, b);
    PlayedMore([w], x, card, a, b);
    PlayedMore([w, x], y, card, a, b);
    PlayedMore([w, x, y], z, card, a, b);
  }

  /** There are two serial schedules, and four others. */
  lemma Schedules(events: seq<Event>)
    requires Schedule(events)
    ensures var p, q := events[0].first, events[3].first;
            events == if Serial(events) then [Read(!q), Write(!q), Read(q), Write(q)]
                      else [Read(p), Read(!p), Write(!q), Write(q)]
  {
  }

  /** What a schedule comes to. */
  lemma Outcome(events: seq<Event>, card: seq<Field>, a: Deletion, b: Deletion)
    requires Schedule(events)
    ensures var first, last := First(events, a, b), Last(events, a, b);
            var once := Written(card, card, first);
            Played(events, card, a, b).stored == Written(once, if Serial(events) then once else card, last)
  {
    Schedules(events);
    var p, q := events[0].first, events[3].first;
    FourEvents(Read(!q), Write(!q), Read(q), Write(q), card, a, b);
    FourEvents(Read(p), Read(!p), Write(!q), Write(q), card, a, b);
  }

  lemma WrittenAlone(card: seq<Field>, d: Deletion)
    ensures Written(card, card, d) == Redacted(card, d)
  {
  }

  ghost predicate GoodPair(a: Deletion, b: Deletion) {
    a.ids != {} && b.ids != {} && GoodToken(a.token, a.ids + b.ids) && GoodToken(b.token, a.ids + b.ids)
  }

  ghost predicate Plain(card: seq<Field>) {
    UniqueKeys(card) && !Poison(card)
  }

  lemma {:induction false} TidyFewer(value: Json, ids: set<string>, fewer: set<string>)
    requires Tidy(value, ids) && fewer <= ids
    ensures Tidy(value, fewer)
    decreases value
  {
    match value {
      case Arr(items) =>
        forall i | 0 <= i < |items| { TidyFewer(items[i], ids, fewer); }
      case Obj(fields) =>
        forall i | 0 <= i < |fields| { TidyFewer(fields[i].value, ids, fewer); }
      case _ =>
    }
  }

  lemma CleanFewer(card: seq<Field>, ids: set<string>, fewer: set<string>)
    requires Clean(card, ids) && fewer <= ids
    ensures Clean(card, fewer)
  {
    TidyFewer(Obj(card), ids, fewer);
  }

  /** One after the other, nothing names either. */
  lemma SerialIsClean(card: seq<Field>, first: Deletion, last: Deletion)
    requires Plain(card) && GoodPair(first, last)
    ensures var once := Redacted(card, first);
            Clean(Redacted(once, last), first.ids) && Clean(Redacted(once, last), last.ids)
  {
    BothGone(card, first.ids, first.token, last.ids, last.token);
  }

  /** At the same time: when the later write is that of a scrub with all the ids of the other. */
  lemma LargerIsClean(card: seq<Field>, first: Deletion, last: Deletion)
    requires Plain(card) && GoodPair(first, last) && first.ids <= last.ids
    ensures var after := Written(Redacted(card, first), card, last);
            Clean(after, first.ids) && Clean(after, last.ids)
  {
    LeavesNoId(card, last.ids, last.token);
    if Redacted(card, last) == card {
      OthersStayGone(card, first.ids, first.token, last.ids);
    }
    CleanFewer(Written(Redacted(card, first), card, last), last.ids, first.ids);
  }

  function Pair(key: string, value: string, other: string, rival: string): seq<Field> {
    [Field(key, Str(value)), Field(other, Str(rival))]
  }

  lemma PairAt(key: string, value: string, other: string, rival: string, k: string)
    ensures Get(Pair(key, value, other, rival), k) ==
            if k == key then Some(Str(value)) else if k == other then Some(Str(rival)) else None
  {
    var card := Pair(key, value, other, rival);
    assert card[1..] == [card[1]] && [card[1]][1..] == [];
    assert Get([card[1]], k) == if k == other then Some(Str(rival)) else None;
  }

  lemma PairReplaced(key: string, value: string, other: string, rival: string, ids: set<string>, token: string)
    requires key != other && {key, other, value} !! ids && rival in ids
    ensures ReplaceFields(Pair(key, value, other, rival), ids, token) == Pair(key, value, other, token)
  {
    var first, second := Pair(key, value, other, token)[0], Pair(key, value, other, token)[1];
    assert Pair(key, value, other, rival)[..1] == [first] && [first][..0] == [] && [first][1..] == [];
    assert key !in ids && value !in ids && other !in ids;
    assert ReplaceFields([first], ids, token) == [first];
    assert Put([first], second.key, second.value) == [first, second];
  }

  lemma PairRedacted(key: string, value: string, other: string, rival: string, ids: set<string>, token: string)
    requires key != other && {key, other, value} !! ids && rival in ids
    requires {key, other} !! CHANGED_KEYS && other != "partner_user_id"
    ensures !Poison(Pair(key, value, other, rival))
    ensures RedactFeatures(Pair(key, value, other, rival), ids, token) == Some(Pair(key, value, other, token))
  {
    var card, after := Pair(key, value, other, rival), Pair(key, value, other, token);
    assert key !in CHANGED_KEYS && other !in CHANGED_KEYS && value !in ids;
    PairAt(key, value, other, rival, "partner_user_id");
    PairAt(key, value, other, rival, "roster_evaluation");
    PairAt(key, value, other, token, "taste_attrs");
    PairAt(key, value, other, token, "owner_request");
    PairAt(key, value, other, token, "owner_experiment");
    PairReplaced(key, value, other, rival, ids, token);
    SharedPlain(card, after, ids, token);
  }

  lemma SharedPlain(features: seq<Field>, after: seq<Field>, ids: set<string>, token: string)
    requires after == ReplaceFields(features, ids, token) && Get(features, "roster_evaluation").None?
    requires Get(after, "taste_attrs").None? && Get(after, "owner_request").None?
             && Get(after, "owner_experiment").None?
    ensures Shared(features, ids, token, false) == after
  {
  }

  function Long(n: nat): (s: string)
    ensures |s| == n
  {
    if n == 0 then "" else Long(n - 1) + "x"
  }

  /** Two keys that are no ids and mean nothing to the scrub. */
  lemma FreshKeys(ids: set<string>) returns (key: string, other: string)
    requires ids != {}
    ensures key != other && {key, other} !! ids && {key, other} !! CHANGED_KEYS
    ensures key != "partner_user_id" && other != "partner_user_id"
  {
    var longest := LongestId(ids);
    var n := |longest| + 18;
    key, other := Long(n), Long(n + 1);
  }

  /** Otherwise a card that names a person of each is left naming one of the first. */
  lemma SmallerIsLost(first: Deletion, last: Deletion) returns (card: seq<Field>)
    requires GoodPair(first, last) && !(first.ids <= last.ids)
    ensures Plain(card) && !Clean(Written(Redacted(card, first), card, last), first.ids)
  {
    var p :| p in first.ids && p !in last.ids;
    var q :| q in last.ids;
    var key, other := FreshKeys(first.ids + last.ids);
    card := Pair(key, p, other, q);
    PairRedacted(key, p, other, q, last.ids, last.token);
    var after := Pair(key, p, other, last.token);
    assert last.token !in first.ids + last.ids;
    assert card[1].value != after[1].value;
    assert after[0].value == Str(p) && !Tidy(after[0].value, first.ids);
  }

  /** Every card ends up naming neither person exactly when one scrub writes before the other reads, or the
      later write is that of a deletion with all the ids of the other. */
  lemma BothGoneWhen(events: seq<Event>, a: Deletion, b: Deletion)
    requires Schedule(events) && GoodPair(a, b)
    ensures (forall card | Plain(card) ::
               Clean(Played(events, card, a, b).stored, a.ids) && Clean(Played(events, card, a, b).stored, b.ids))
            <==> Serial(events) || First(events, a, b).ids <= Last(events, a, b).ids
  {
    var first, last := First(events, a, b), Last(events, a, b);
    assert first.ids + last.ids == a.ids + b.ids;
    if Serial(events) || first.ids <= last.ids {
      forall card | Plain(card)
        ensures Clean(Played(events, card, a, b).stored, a.ids) && Clean(Played(events, card, a, b).stored, b.ids)
      {
        Outcome(events, card, a, b);
        WrittenAlone(card, first);
        if Serial(events) {
          WrittenAlone(Redacted(card, first), last);
          SerialIsClean(card, first, last);
        } else {
          LargerIsClean(card, first, last);
        }
      }
    } else {
      var card := SmallerIsLost(first, last);
      Outcome(events, card, a, b);
      WrittenAlone(card, first);
    }
  }

  /** Both scrubs read a card, then both write it: what the first took out is back, though each has
      handed the card over. Scrubbed one after the other, the card would name neither. */
  lemma OneIsLost(token: string, otherToken: string)
    requires GoodToken(token, {"p", "q"}) && GoodToken(otherToken, {"p", "q"})
    ensures var card := Pair("partner_user_id", "p", "rival", "q");
            var written := RedactFeatures(card, {"q"}, otherToken);
            && Clean(RedactFeatures(card, {"p"}, token).value, {"p"})
            && written == Some(Pair("partner_user_id", "p", "rival", otherToken)) && !Clean(written.value, {"p"})
  {
    var card := Pair("partner_user_id", "p", "rival", "q");
    PairRedacted("partner_user_id", "p", "rival", "q", {"q"}, otherToken);
    LeavesNoId(card, {"p"}, token);
    var written := Pair("partner_user_id", "p", "rival", otherToken);
    assert written[0].value == Str("p") && !Tidy(written[0].value, {"p"});
  }
}
