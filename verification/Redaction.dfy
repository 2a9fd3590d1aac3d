/**
 What the scrub does to a deck card's features: a deleted user's ids become the token, the
 partner's own fields go from a card of theirs, and doing it twice is doing it once.
 */
module Redaction {
  import opened Wrappers
  import opened Json

  const TOKEN_PREFIX := "redacted:"
  const PARTNER := "partner:"

  const PARTNER_KEYS := {"likes_you", "standing_offer", "standing_offer_reason", "breaker", "breaker_shadow"}
  const FIT_KEYS := {"them", "aggregate", "bucket"}
  const BOARD_KEYS := {"elo", "board_updated_at"}

  // ---- Ids to the token ----

  function Renamed(s: string, ids: set<string>, token: string): string {
    if s in ids then token else s
  }

  /** Every key and every string that is a deleted id becomes the token; keys that collide are
      assigned in order, so the last value stays. */
  function Replace(value: Json, ids: set<string>, token: string): Json
    decreases value, 1
  {
    match value
    case Str(s) => Str(Renamed(s, ids, token))
    case Arr(items) => Arr(seq(|items|, i requires 0 <= i < |items| => Replace(items[i], ids, token)))
    case Obj(fields) => Obj(ReplaceFields(fields, ids, token))
    case _ => value
  }

  function ReplaceFields(fields: seq<Field>, ids: set<string>, token: string): seq<Field>
    decreases fields, 0
  {
    if fields == [] then []
    else
      var last := fields[|fields| - 1];
      Put(ReplaceFields(fields[..|fields| - 1], ids, token), Renamed(last.key, ids, token),
          Replace(last.value, ids, token))
  }

  lemma {:induction false} ReplaceTidies(value: Json, ids: set<string>, token: string)
    requires token !in ids
    ensures Tidy(Replace(value, ids, token), ids)
    decreases value, 1
  {
    match value {
      case Arr(items) =>
        forall i | 0 <= i < |items| { ReplaceTidies(items[i], ids, token); }
      case Obj(fields) =>
        ReplaceFieldsTidies(fields, ids, token);
      case _ =>
    }
  }

  lemma {:induction false} ReplaceFieldsTidies(fields: seq<Field>, ids: set<string>, token: string)
    requires token !in ids
    ensures TidyFields(ReplaceFields(fields, ids, token), ids)
    decreases fields, 0
  {
    if fields != [] {
      var last := fields[|fields| - 1];
      var before := ReplaceFields(fields[..|fields| - 1], ids, token);
      var key, value := Renamed(last.key, ids, token), Replace(last.value, ids, token);
      ReplaceFieldsTidies(fields[..|fields| - 1], ids, token);
      ReplaceTidies(last.value, ids, token);
      PutFields(before, key, value);
      var after := Put(before, key, value);
      forall i | 0 <= i < |after| ensures after[i].key !in ids && Tidy(after[i].value, ids) {
        assert after[i] in after;
      }
    }
  }

  lemma {:induction false} ReplaceFixes(value: Json, ids: set<string>, token: string)
    requires Tidy(value, ids)
    ensures Replace(value, ids, token) == value
    decreases value, 1
  {
    match value {
      case Arr(items) =>
        forall i | 0 <= i < |items| ensures Replace(items[i], ids, token) == items[i] {
          ReplaceFixes(items[i], ids, token);
        }
      case Obj(fields) =>
        ReplaceFieldsFixes(fields, ids, token);
      case _ =>
    }
  }

  lemma {:induction false} ReplaceFieldsFixes(fields: seq<Field>, ids: set<string>, token: string)
    requires TidyFields(fields, ids)
    ensures ReplaceFields(fields, ids, token) == fields
    decreases fields, 0
  {
    if fields != [] {
      var before, last := fields[..|fields| - 1], fields[|fields| - 1];
      ReplaceFieldsFixes(before, ids, token);
      ReplaceFixes(last.value, ids, token);
      PutAppends(before, last.key, last.value);
      assert fields == before + [last];
    }
  }

  // ---- The structured changes ----

  function TasteAttr(attr: Json, ids: set<string>, token: string): Json {
    if attr.Str? && PARTNER <= attr.s && attr.s[|PARTNER|..] in ids then Str(PARTNER + token) else attr
  }

  function TasteAttrs(value: Json, ids: set<string>, token: string): Json {
    if value.Arr? then Arr(seq(|value.items|, i requires 0 <= i < |value.items| =>
                               TasteAttr(value.items[i], ids, token)))
    else value
  }

  /** A card's roster evaluation loses the deleted ids' teams, and on their card its own side. */
  function Roster(value: Json, ids: set<string>, redacted: bool): Json {
    if value.Obj? then
      var teams := Update(value.fields, "teams", v => Stripped(v, ids));
      Obj(if redacted then Without(teams, {"mutual_benefit"}) else teams)
    else value
  }

  function Member(member: Json, token: string): Json {
    if member.Obj? && Get(member.fields, "id") == Some(Str(token)) then Stripped(member, BOARD_KEYS) else member
  }

  function Members(value: Json, token: string): Json {
    if value.Arr? then Arr(seq(|value.items|, i requires 0 <= i < |value.items| => Member(value.items[i], token)))
    else value
  }

  function Inputs(value: Json, token: string): Json {
    if value.Obj? then
      var a := Update(value.fields, "members", v => Members(v, token));
      var b := Update(a, "opponent_sources", v => Stripped(v, {token}));
      var c := Update(b, "manager_preferences", v => Stripped(v, {token}));
      var d := Update(c, "opponent_outlooks", v => Stripped(v, {token}));
      Obj(Update(d, "inferred_outlooks", v => Stripped(v, {token})))
    else value
  }

  /** The owner engine's frozen request, its ids already the token. */
  function OwnerRequest(value: Json, token: string): Json {
    if value.Obj? then Obj(Update(value.fields, "input", v => Inputs(v, token))) else value
  }

  function Fit(value: Json): Json {
    if value.Obj? then Obj(Update(Without(value.fields, FIT_KEYS), "lenses", v => Stripped(v, {"them"}))) else value
  }

  /** What a redacted card alone loses. */
  function PartnerFields(fields: seq<Field>): seq<Field> {
    var a := Without(fields, PARTNER_KEYS);
    var b := Update(a, "surplus_margin", v => Null);
    var c := Update(b, "negmem", v => Stripped(v, {"exempt"}));
    var d := Update(c, "fit", v => Fit(v));
    Update(d, "fit_diag", v => Fit(v))
  }

  function IsRedacted(features: seq<Field>, ids: set<string>): bool {
    match Get(features, "partner_user_id")
    case Some(Str(partner)) => partner in ids
    case _ => false
  }

  /** What every card that names a deleted id goes through. */
  function Shared(features: seq<Field>, ids: set<string>, token: string, redacted: bool): seq<Field> {
    var rostered := Update(features, "roster_evaluation", v => Roster(v, ids, redacted));
    var replaced := ReplaceFields(rostered, ids, token);
    var tasted := Update(replaced, "taste_attrs", v => TasteAttrs(v, ids, token));
    var owned := Update(tasted, "owner_request", v => OwnerRequest(v, token));
    Update(owned, "owner_experiment", v => OwnerRequest(v, token))
  }

  predicate Container(value: Json) {
    !(value.Null? || value.Bool? || value.Num? || value.Str?)
  }

  /** The partner is looked up in a set, so a list or an object there raises. */
  predicate Poison(features: seq<Field>) {
    match Get(features, "partner_user_id")
    case Some(partner) => partner.Arr? || partner.Obj?
    case None => false
  }

  /** A card's features after the scrub; None when the redaction raises. */
  function RedactFeatures(features: seq<Field>, ids: set<string>, token: string): Option<seq<Field>> {
    if Poison(features) then None
    else
      var redacted := IsRedacted(features, ids);
      var shared := Shared(features, ids, token, redacted);
      Some(if redacted then PartnerFields(shared) else shared)
  }

  // ---- No deleted id is left ----

  /** No taste attribute is a deleted id's. */
  ghost predicate NoTaste(features: seq<Field>, ids: set<string>) {
    match Get(features, "taste_attrs")
    case Some(Arr(items)) =>
      forall i | 0 <= i < |items| && items[i].Str? :: !(PARTNER <= items[i].s && items[i].s[|PARTNER|..] in ids)
    case _ => true
  }

  /** Nothing names a deleted id: no key, no string, no taste attribute. */
  ghost predicate Clean(features: seq<Field>, ids: set<string>) {
    TidyFields(features, ids) && NoTaste(features, ids)
  }

  /** A token as the scrub draws it, that is no id and whose taste attribute is no id. */
  ghost predicate GoodToken(token: string, ids: set<string>) {
    TOKEN_PREFIX <= token && token !in ids && PARTNER + token !in ids
  }

  lemma TasteAttrsTidy(value: Json, ids: set<string>, token: string)
    requires Tidy(value, ids) && PARTNER + token !in ids
    ensures Tidy(TasteAttrs(value, ids, token), ids)
  {
  }

  lemma MembersTidy(value: Json, token: string, ids: set<string>)
    requires Tidy(value, ids)
    ensures Tidy(Members(value, token), ids)
  {
    if value.Arr? {
      forall i | 0 <= i < |value.items| ensures Tidy(Member(value.items[i], token), ids) {
        StrippedTidy(value.items[i], BOARD_KEYS, ids);
      }
    }
  }

  lemma StripAtTidy(fields: seq<Field>, key: string, keys: set<string>, ids: set<string>)
    requires TidyFields(fields, ids)
    ensures TidyFields(Update(fields, key, v => Stripped(v, keys)), ids)
  {
    if Get(fields, key).Some? {
      GetTidy(fields, key, ids);
      StrippedTidy(Get(fields, key).value, keys, ids);
    }
    UpdateTidy(fields, key, v => Stripped(v, keys), ids);
  }

  lemma InputsTidy(value: Json, token: string, ids: set<string>)
    requires Tidy(value, ids)
    ensures Tidy(Inputs(value, token), ids)
  {
    if value.Obj? {
      if Get(value.fields, "members").Some? {
        GetTidy(value.fields, "members", ids);
        MembersTidy(Get(value.fields, "members").value, token, ids);
      }
      UpdateTidy(value.fields, "members", v => Members(v, token), ids);
      var a := Update(value.fields, "members", v => Members(v, token));
      StripAtTidy(a, "opponent_sources", {token}, ids);
      var b := Update(a, "opponent_sources", v => Stripped(v, {token}));
      StripAtTidy(b, "manager_preferences", {token}, ids);
      var c := Update(b, "manager_preferences", v => Stripped(v, {token}));
      StripAtTidy(c, "opponent_outlooks", {token}, ids);
      var d := Update(c, "opponent_outlooks", v => Stripped(v, {token}));
      StripAtTidy(d, "inferred_outlooks", {token}, ids);
    }
  }

  lemma OwnerAtTidy(fields: seq<Field>, key: string, token: string, ids: set<string>)
    requires TidyFields(fields, ids)
    ensures TidyFields(Update(fields, key, v => OwnerRequest(v, token)), ids)
  {
    if Get(fields, key).Some? {
      GetTidy(fields, key, ids);
      var value := Get(fields, key).value;
      if value.Obj? {
        if Get(value.fields, "input").Some? {
          GetTidy(value.fields, "input", ids);
          InputsTidy(Get(value.fields, "input").value, token, ids);
        }
        UpdateTidy(value.fields, "input", v => Inputs(v, token), ids);
      }
    }
    UpdateTidy(fields, key, v => OwnerRequest(v, token), ids);
  }

  lemma SharedTidy(features: seq<Field>, ids: set<string>, token: string, redacted: bool)
    requires GoodToken(token, ids)
    ensures TidyFields(Shared(features, ids, token, redacted), ids)
  {
    var rostered := Update(features, "roster_evaluation", v => Roster(v, ids, redacted));
    var replaced := ReplaceFields(rostered, ids, token);
    ReplaceFieldsTidies(rostered, ids, token);
    if Get(replaced, "taste_attrs").Some? {
      GetTidy(replaced, "taste_attrs", ids);
      TasteAttrsTidy(Get(replaced, "taste_attrs").value, ids, token);
    }
    UpdateTidy(replaced, "taste_attrs", v => TasteAttrs(v, ids, token), ids);
    var tasted := Update(replaced, "taste_attrs", v => TasteAttrs(v, ids, token));
    OwnerAtTidy(tasted, "owner_request", token, ids);
    OwnerAtTidy(Update(tasted, "owner_request", v => OwnerRequest(v, token)), "owner_experiment", token, ids);
  }

  lemma FitAtTidy(fields: seq<Field>, key: string, ids: set<string>)
    requires TidyFields(fields, ids)
    ensures TidyFields(Update(fields, key, v => Fit(v)), ids)
  {
    if Get(fields, key).Some? {
      GetTidy(fields, key, ids);
      var value := Get(fields, key).value;
      if value.Obj? {
        WithoutTidy(value.fields, FIT_KEYS, ids);
        StripAtTidy(Without(value.fields, FIT_KEYS), "lenses", {"them"}, ids);
      }
    }
    UpdateTidy(fields, key, v => Fit(v), ids);
  }

  lemma PartnerFieldsTidy(fields: seq<Field>, ids: set<string>)
    requires TidyFields(fields, ids)
    ensures TidyFields(PartnerFields(fields), ids)
  {
    WithoutTidy(fields, PARTNER_KEYS, ids);
    var a := Without(fields, PARTNER_KEYS);
    UpdateTidy(a, "surplus_margin", v => Null, ids);
    var b := Update(a, "surplus_margin", v => Null);
    StripAtTidy(b, "negmem", {"exempt"}, ids);
    var c := Update(b, "negmem", v => Stripped(v, {"exempt"}));
    FitAtTidy(c, "fit", ids);
    FitAtTidy(Update(c, "fit", v => Fit(v)), "fit_diag", ids);
  }

  // ---- Once is enough ----

  /** A second look at these three keys would change nothing. */
  ghost predicate Settled(fields: seq<Field>, ids: set<string>, token: string) {
    && (Get(fields, "taste_attrs").Some? ==>
          TasteAttrs(Get(fields, "taste_attrs").value, ids, token) == Get(fields, "taste_attrs").value)
    && OwnerSettled(fields, "owner_request", token)
    && OwnerSettled(fields, "owner_experiment", token)
  }

  ghost predicate OwnerSettled(fields: seq<Field>, key: string, token: string) {
    Get(fields, key).Some? ==> OwnerRequest(Get(fields, key).value, token) == Get(fields, key).value
  }

  lemma TasteAttrsTwice(value: Json, ids: set<string>, token: string)
    requires token !in ids
    ensures TasteAttrs(TasteAttrs(value, ids, token), ids, token) == TasteAttrs(value, ids, token)
  {
    assert (PARTNER + token)[|PARTNER|..] == token;
  }

  lemma MembersTwice(value: Json, token: string)
    ensures Members(Members(value, token), token) == Members(value, token)
  {
    if value.Arr? {
      forall i | 0 <= i < |value.items|
        ensures Member(Member(value.items[i], token), token) == Member(value.items[i], token) {
        StrippedTwice(value.items[i], BOARD_KEYS);
      }
    }
  }

  /** Where a map of per-member entries has no entry for the token. */
  ghost predicate NoEntry(fields: seq<Field>, key: string, token: string) {
    Get(fields, key).Some? ==> Stripped(Get(fields, key).value, {token}) == Get(fields, key).value
  }

  lemma StripNoEntry(fields: seq<Field>, key: string, token: string, other: string)
    ensures NoEntry(Update(fields, key, v => Stripped(v, {token})), key, token)
    ensures other != key ==> Get(Update(fields, key, v => Stripped(v, {token})), other) == Get(fields, other)
  {
    GetUpdate(fields, key, v => Stripped(v, {token}), key);
    GetUpdate(fields, key, v => Stripped(v, {token}), other);
    if Get(fields, key).Some? {
      StrippedTwice(Get(fields, key).value, {token});
    }
  }

  lemma InputsTwice(value: Json, token: string)
    ensures Inputs(Inputs(value, token), token) == Inputs(value, token)
  {
    if value.Obj? {
      var a := Update(value.fields, "members", v => Members(v, token));
      var b := Update(a, "opponent_sources", v => Stripped(v, {token}));
      var c := Update(b, "manager_preferences", v => Stripped(v, {token}));
      var d := Update(c, "opponent_outlooks", v => Stripped(v, {token}));
      var e := Update(d, "inferred_outlooks", v => Stripped(v, {token}));
      GetUpdate(value.fields, "members", v => Members(v, token), "members");
      if Get(value.fields, "members").Some? { MembersTwice(Get(value.fields, "members").value, token); }
      StripNoEntry(a, "opponent_sources", token, "members");
      StripNoEntry(b, "manager_preferences", token, "members");
      StripNoEntry(b, "manager_preferences", token, "opponent_sources");
      StripNoEntry(c, "opponent_outlooks", token, "members");
      StripNoEntry(c, "opponent_outlooks", token, "opponent_sources");
      StripNoEntry(c, "opponent_outlooks", token, "manager_preferences");
      StripNoEntry(d, "inferred_outlooks", token, "members");
      StripNoEntry(d, "inferred_outlooks", token, "opponent_sources");
      StripNoEntry(d, "inferred_outlooks", token, "manager_preferences");
      StripNoEntry(d, "inferred_outlooks", token, "opponent_outlooks");
      UpdateFixed(e, "members", v => Members(v, token));
      UpdateFixed(e, "opponent_sources", v => Stripped(v, {token}));
      UpdateFixed(e, "manager_preferences", v => Stripped(v, {token}));
      UpdateFixed(e, "opponent_outlooks", v => Stripped(v, {token}));
      UpdateFixed(e, "inferred_outlooks", v => Stripped(v, {token}));
    }
  }

  lemma OwnerRequestTwice(value: Json, token: string)
    ensures OwnerRequest(OwnerRequest(value, token), token) == OwnerRequest(value, token)
  {
    if value.Obj? {
      var once := Update(value.fields, "input", v => Inputs(v, token));
      GetUpdate(value.fields, "input", v => Inputs(v, token), "input");
      if Get(value.fields, "input").Some? { InputsTwice(Get(value.fields, "input").value, token); }
      UpdateFixed(once, "input", v => Inputs(v, token));
    }
  }

  lemma OwnerSettles(fields: seq<Field>, key: string, token: string, other: string)
    ensures OwnerSettled(Update(fields, key, v => OwnerRequest(v, token)), key, token)
    ensures other != key ==> Get(Update(fields, key, v => OwnerRequest(v, token)), other) == Get(fields, other)
  {
    GetUpdate(fields, key, v => OwnerRequest(v, token), key);
    GetUpdate(fields, key, v => OwnerRequest(v, token), other);
    if Get(fields, key).Some? { OwnerRequestTwice(Get(fields, key).value, token); }
  }

  lemma SharedSettles(features: seq<Field>, ids: set<string>, token: string, redacted: bool)
    requires token !in ids
    ensures Settled(Shared(features, ids, token, redacted), ids, token)
  {
    var replaced := ReplaceFields(Update(features, "roster_evaluation", v => Roster(v, ids, redacted)), ids, token);
    var tasted := Update(replaced, "taste_attrs", v => TasteAttrs(v, ids, token));
    GetUpdate(replaced, "taste_attrs", v => TasteAttrs(v, ids, token), "taste_attrs");
    if Get(replaced, "taste_attrs").Some? { TasteAttrsTwice(Get(replaced, "taste_attrs").value, ids, token); }
    OwnerSettles(tasted, "owner_request", token, "taste_attrs");
    var owned := Update(tasted, "owner_request", v => OwnerRequest(v, token));
    OwnerSettles(owned, "owner_experiment", token, "taste_attrs");
    OwnerSettles(owned, "owner_experiment", token, "owner_request");
  }

  /** The partner's fields are no part of what settles. */
  lemma PartnerFieldsAt(fields: seq<Field>, key: string)
    requires key !in PARTNER_KEYS && key !in {"surplus_margin", "negmem", "fit", "fit_diag"}
    ensures Get(PartnerFields(fields), key) == Get(fields, key)
  {
    GetWithout(fields, PARTNER_KEYS, key);
    var a := Without(fields, PARTNER_KEYS);
    GetUpdate(a, "surplus_margin", v => Null, key);
    var b := Update(a, "surplus_margin", v => Null);
    GetUpdate(b, "negmem", v => Stripped(v, {"exempt"}), key);
    var c := Update(b, "negmem", v => Stripped(v, {"exempt"}));
    GetUpdate(c, "fit", v => Fit(v), key);
    GetUpdate(Update(c, "fit", v => Fit(v)), "fit_diag", v => Fit(v), key);
  }

  lemma RedactedSettles(features: seq<Field>, ids: set<string>, token: string)
    requires token !in ids && RedactFeatures(features, ids, token).Some?
    ensures Settled(RedactFeatures(features, ids, token).value, ids, token)
  {
    var redacted := IsRedacted(features, ids);
    var shared := Shared(features, ids, token, redacted);
    SharedSettles(features, ids, token, redacted);
    PartnerFieldsSettle(shared, ids, token);
  }

  lemma PartnerFieldsSettle(fields: seq<Field>, ids: set<string>, token: string)
    requires Settled(fields, ids, token)
    ensures Settled(PartnerFields(fields), ids, token)
  {
    PartnerFieldsAt(fields, "taste_attrs");
    PartnerFieldsAt(fields, "owner_request");
    PartnerFieldsAt(fields, "owner_experiment");
  }

  /** A tidy, settled card is left exactly as it is. */
  lemma SettledIsFixed(fields: seq<Field>, ids: set<string>, token: string)
    requires TidyFields(fields, ids) && Settled(fields, ids, token)
    ensures Shared(fields, ids, token, false) == fields && !IsRedacted(fields, ids)
  {
    if Get(fields, "roster_evaluation").Some? {
      GetTidy(fields, "roster_evaluation", ids);
      RosterFixed(Get(fields, "roster_evaluation").value, ids);
    }
    UpdateFixed(fields, "roster_evaluation", v => Roster(v, ids, false));
    ReplaceFieldsFixes(fields, ids, token);
    UpdateFixed(fields, "taste_attrs", v => TasteAttrs(v, ids, token));
    UpdateFixed(fields, "owner_request", v => OwnerRequest(v, token));
    UpdateFixed(fields, "owner_experiment", v => OwnerRequest(v, token));
    if Get(fields, "partner_user_id").Some? { GetTidy(fields, "partner_user_id", ids); }
  }

  lemma RosterFixed(value: Json, ids: set<string>)
    requires Tidy(value, ids)
    ensures Roster(value, ids, false) == value
  {
    if value.Obj? {
      if Get(value.fields, "teams").Some? {
        GetTidy(value.fields, "teams", ids);
        var teams := Get(value.fields, "teams").value;
        if teams.Obj? { WithoutNone(teams.fields, ids); }
      }
      UpdateFixed(value.fields, "teams", v => Stripped(v, ids));
    }
  }

  // ---- The laws ----

  /** Redaction raises exactly on a poison row, and what it returns names no deleted id. */
  lemma LeavesNoId(features: seq<Field>, ids: set<string>, token: string)
    requires GoodToken(token, ids)
    ensures RedactFeatures(features, ids, token).None? <==> Poison(features)
    ensures Poison(features) <==>
            Get(features, "partner_user_id").Some? && Container(Get(features, "partner_user_id").value)
    ensures RedactFeatures(features, ids, token).Some? ==> Clean(RedactFeatures(features, ids, token).value, ids)
  {
    if !Poison(features) {
      var redacted := IsRedacted(features, ids);
      var out := RedactFeatures(features, ids, token).value;
      SharedTidy(features, ids, token, redacted);
      if redacted { PartnerFieldsTidy(Shared(features, ids, token, redacted), ids); }
      RedactedSettles(features, ids, token);
      if Get(out, "taste_attrs").Some? && Get(out, "taste_attrs").value.Arr? {
        var items := Get(out, "taste_attrs").value.items;
        forall i | 0 <= i < |items| && items[i].Str?
          ensures !(PARTNER <= items[i].s && items[i].s[|PARTNER|..] in ids)
        {
          assert TasteAttrs(Arr(items), ids, token).items[i] == items[i] == TasteAttr(items[i], ids, token);
          assert (PARTNER + token)[|PARTNER|..] == token;
        }
      }
    }
  }

  lemma {:induction false} GetAppend(fields: seq<Field>, last: Field, key: string)
    ensures Get(fields + [last], key) ==
            if HasKey(fields, key) then Get(fields, key) else if last.key == key then Some(last.value) else None
  {
    if fields == [] {
      assert [last][1..] == [];
    } else {
      assert (fields + [last])[1..] == fields[1..] + [last];
      GetAppend(fields[1..], last, key);
      GetField(fields, key);
      GetField(fields[1..], key);
    }
  }

  /** A key that is not the token keeps its own value, replaced, unless it is an id. */
  lemma {:induction false} ReplaceGet(fields: seq<Field>, ids: set<string>, token: string, key: string)
    requires UniqueKeys(fields) && key != token
    ensures Get(ReplaceFields(fields, ids, token), key) ==
            match Get(fields, key)
            case Some(v) => if key in ids then None else Some(Replace(v, ids, token))
            case None => None
  {
    if fields != [] {
      var before, last := fields[..|fields| - 1], fields[|fields| - 1];
      ReplaceGet(before, ids, token, key);
      GetPut(ReplaceFields(before, ids, token), Renamed(last.key, ids, token), Replace(last.value, ids, token), key);
      assert fields == before + [last];
      GetAppend(before, last, key);
      GetField(before, key);
    }
  }

  /** After the shared changes the partner is the replaced partner. */
  lemma SharedPartner(features: seq<Field>, ids: set<string>, token: string, redacted: bool)
    requires UniqueKeys(features) && TOKEN_PREFIX <= token
    ensures Get(Shared(features, ids, token, redacted), "partner_user_id") ==
            match Get(features, "partner_user_id")
            case Some(v) => if "partner_user_id" in ids then None else Some(Replace(v, ids, token))
            case None => None
  {
    var key := "partner_user_id";
    assert key[0] != TOKEN_PREFIX[0];
    var rostered := Update(features, "roster_evaluation", v => Roster(v, ids, redacted));
    GetUpdate(features, "roster_evaluation", v => Roster(v, ids, redacted), key);
    if Get(features, "roster_evaluation").Some? {
      PutFields(features, "roster_evaluation", Roster(Get(features, "roster_evaluation").value, ids, redacted));
    }
    ReplaceGet(rostered, ids, token, key);
    var replaced := ReplaceFields(rostered, ids, token);
    GetUpdate(replaced, "taste_attrs", v => TasteAttrs(v, ids, token), key);
    var tasted := Update(replaced, "taste_attrs", v => TasteAttrs(v, ids, token));
    OwnerSettles(tasted, "owner_request", token, key);
    OwnerSettles(Update(tasted, "owner_request", v => OwnerRequest(v, token)), "owner_experiment", token, key);
  }

  /** Redacting twice is redacting once: scrubs of one deletion that run unfenced, at the same
      time or again, leave what one of them leaves. */
  lemma Idempotent(features: seq<Field>, ids: set<string>, token: string)
    requires GoodToken(token, ids) && UniqueKeys(features) && !Poison(features)
    ensures var out := RedactFeatures(features, ids, token).value;
            RedactFeatures(out, ids, token) == Some(out)
  {
    var out := RedactFeatures(features, ids, token).value;
    LeavesNoId(features, ids, token);
    RedactedSettles(features, ids, token);
    SettledIsFixed(out, ids, token);
    NeverPoisons(features, ids, token);
  }

  lemma NeverPoisons(features: seq<Field>, ids: set<string>, token: string)
    requires TOKEN_PREFIX <= token && UniqueKeys(features) && !Poison(features)
    ensures !Poison(RedactFeatures(features, ids, token).value)
  {
    var redacted := IsRedacted(features, ids);
    SharedPartner(features, ids, token, redacted);
    PartnerStays(Shared(features, ids, token, redacted));
    if Get(features, "partner_user_id").Some? {
      ReplacedKind(Get(features, "partner_user_id").value, ids, token);
    }
  }

  lemma ReplacedKind(v: Json, ids: set<string>, token: string)
    ensures Container(Replace(v, ids, token)) <==> Container(v)
  {
  }

  lemma PartnerStays(fields: seq<Field>)
    ensures Get(PartnerFields(fields), "partner_user_id") == Get(fields, "partner_user_id")
  {
    PartnerFieldsAt(fields, "partner_user_id");
  }

  lemma InputsFixed(value: Json, token: string)
    requires Tidy(value, {token})
    ensures Inputs(value, token) == value
  {
    if value.Obj? {
      var fields := value.fields;
      if Get(fields, "members").Some? {
        GetTidy(fields, "members", {token});
        MembersFixed(Get(fields, "members").value, token);
      }
      UpdateFixed(fields, "members", v => Members(v, token));
      StripFixed(fields, "opponent_sources", token);
      StripFixed(fields, "manager_preferences", token);
      StripFixed(fields, "opponent_outlooks", token);
      StripFixed(fields, "inferred_outlooks", token);
    }
  }

  lemma MembersFixed(value: Json, token: string)
    requires Tidy(value, {token})
    ensures Members(value, token) == value
  {
    if value.Arr? {
      forall i | 0 <= i < |value.items| ensures Member(value.items[i], token) == value.items[i] {
        if value.items[i].Obj? && Get(value.items[i].fields, "id").Some? {
          GetTidy(value.items[i].fields, "id", {token});
        }
      }
    }
  }

  lemma StripFixed(fields: seq<Field>, key: string, token: string)
    requires TidyFields(fields, {token})
    ensures Update(fields, key, v => Stripped(v, {token})) == fields
  {
    if Get(fields, key).Some? {
      GetTidy(fields, key, {token});
      var value := Get(fields, key).value;
      if value.Obj? { WithoutNone(value.fields, {token}); }
    }
    UpdateFixed(fields, key, v => Stripped(v, {token}));
  }

  lemma OwnerFixed(fields: seq<Field>, key: string, token: string)
    requires TidyFields(fields, {token})
    ensures OwnerSettled(fields, key, token)
  {
    if Get(fields, key).Some? {
      GetTidy(fields, key, {token});
      var value := Get(fields, key).value;
      if value.Obj? {
        if Get(value.fields, "input").Some? {
          GetTidy(value.fields, "input", {token});
          InputsFixed(Get(value.fields, "input").value, token);
        }
        UpdateFixed(value.fields, "input", v => Inputs(v, token));
      }
    }
  }

  /** A card that names neither a deleted id nor the token is left exactly as it is. */
  lemma UnnamedUntouched(features: seq<Field>, ids: set<string>, token: string)
    requires Clean(features, ids) && TidyFields(features, {token}) && !Poison(features)
    ensures RedactFeatures(features, ids, token) == Some(features)
  {
    OwnerFixed(features, "owner_request", token);
    OwnerFixed(features, "owner_experiment", token);
    SettledIsFixed(features, ids, token);
  }

  /** On the deleted user's own card every field from their account is gone, the blended margin
      is nulled, and neither fit payload keeps their side: the same way on every such card. */
  lemma PartnerCardLoses(features: seq<Field>, ids: set<string>, token: string)
    requires IsRedacted(features, ids)
    ensures RedactFeatures(features, ids, token).Some?
    ensures PartnerGone(RedactFeatures(features, ids, token).value)
  {
    PartnerFieldsGone(Shared(features, ids, token, true));
  }

  /** And their card reads the token as its partner. */
  lemma PartnerReadsToken(features: seq<Field>, ids: set<string>, token: string)
    requires TOKEN_PREFIX <= token && UniqueKeys(features) && IsRedacted(features, ids) && "partner_user_id" !in ids
    ensures RedactFeatures(features, ids, token).Some?
    ensures Get(RedactFeatures(features, ids, token).value, "partner_user_id") == Some(Str(token))
  {
    SharedPartner(features, ids, token, true);
    PartnerFieldsAt(Shared(features, ids, token, true), "partner_user_id");
  }

  /** An object there has none of the keys. */
  ghost predicate NoKeys(value: Option<Json>, keys: set<string>) {
    value.Some? && value.value.Obj? ==> forall key <- keys :: Get(value.value.fields, key).None?
  }

  /** A fit payload without the partner's side, in it or in its lenses. */
  ghost predicate FitGone(value: Option<Json>) {
    && NoKeys(value, FIT_KEYS)
    && (value.Some? && value.value.Obj? ==> NoKeys(Get(value.value.fields, "lenses"), {"them"}))
  }

  ghost predicate PartnerGone(out: seq<Field>) {
    && (forall key <- PARTNER_KEYS :: Get(out, key).None?)
    && (Get(out, "surplus_margin").Some? ==> Get(out, "surplus_margin").value == Null)
    && NoKeys(Get(out, "negmem"), {"exempt"})
    && FitGone(Get(out, "fit")) && FitGone(Get(out, "fit_diag"))
  }

  lemma FitLoses(value: Json)
    ensures FitGone(Some(Fit(value)))
  {
    if value.Obj? {
      var kept := Without(value.fields, FIT_KEYS);
      forall key: string
        ensures key in FIT_KEYS ==> Get(Update(kept, "lenses", v => Stripped(v, {"them"})), key).None?
        ensures key == "lenses" ==> NoKeys(Get(Update(kept, "lenses", v => Stripped(v, {"them"})), key), {"them"})
      {
        GetWithout(value.fields, FIT_KEYS, key);
        GetUpdate(kept, "lenses", v => Stripped(v, {"them"}), key);
        if Get(kept, key).Some? && Get(kept, key).value.Obj? {
          GetWithout(Get(kept, key).value.fields, {"them"}, "them");
        }
      }
    }
  }

  lemma PartnerFieldsGone(fields: seq<Field>)
    ensures PartnerGone(PartnerFields(fields))
  {
    var a := Without(fields, PARTNER_KEYS);
    var b := Update(a, "surplus_margin", v => Null);
    var c := Update(b, "negmem", v => Stripped(v, {"exempt"}));
    var d := Update(c, "fit", v => Fit(v));
    forall key: string
      ensures key in PARTNER_KEYS ==> Get(PartnerFields(fields), key).None?
      ensures key == "surplus_margin" && Get(PartnerFields(fields), key).Some? ==>
                Get(PartnerFields(fields), key).value == Null
      ensures key == "negmem" ==> NoKeys(Get(PartnerFields(fields), key), {"exempt"})
      ensures key == "fit" || key == "fit_diag" ==> FitGone(Get(PartnerFields(fields), key))
    {
      GetWithout(fields, PARTNER_KEYS, key);
      GetUpdate(a, "surplus_margin", v => Null, key);
      GetUpdate(b, "negmem", v => Stripped(v, {"exempt"}), key);
      GetUpdate(c, "fit", v => Fit(v), key);
      GetUpdate(d, "fit_diag", v => Fit(v), key);
      if Get(b, key).Some? && Get(b, key).value.Obj? { GetWithout(Get(b, key).value.fields, {"exempt"}, "exempt"); }
      if Get(c, key).Some? { FitLoses(Get(c, key).value); }
      if Get(d, key).Some? { FitLoses(Get(d, key).value); }
    }
  }

  // ---- What the account said of the person ----

  const PER_MEMBER_KEYS := {"opponent_sources", "manager_preferences", "opponent_outlooks", "inferred_outlooks"}

  /** No member that is the token keeps a board. */
  ghost predicate MembersForget(value: Option<Json>, token: string) {
    value.Some? && value.value.Arr? ==>
      forall i | 0 <= i < |value.value.items| && value.value.items[i].Obj? ::
        Get(value.value.items[i].fields, "id") == Some(Str(token)) ==> NoKeys(Some(value.value.items[i]), BOARD_KEYS)
  }

  /** A frozen request whose input says nothing of the token. */
  ghost predicate Forgotten(value: Option<Json>, token: string) {
    value.Some? && value.value.Obj? ==>
      var input := Get(value.value.fields, "input");
      input.Some? && input.value.Obj? ==>
        && (forall key <- PER_MEMBER_KEYS :: NoKeys(Get(input.value.fields, key), {token}))
        && MembersForget(Get(input.value.fields, "members"), token)
  }

  lemma MembersLose(value: Json, token: string)
    ensures MembersForget(Some(Members(value, token)), token)
  {
    if value.Arr? {
      var out := Members(value, token).items;
      forall i | 0 <= i < |out| && out[i].Obj? && Get(out[i].fields, "id") == Some(Str(token))
        ensures NoKeys(Some(out[i]), BOARD_KEYS)
      {
        var member := value.items[i];
        if member.Obj? {
          forall key <- BOARD_KEYS { GetWithout(member.fields, BOARD_KEYS, key); }
        }
      }
    }
  }

  lemma InputsLose(fields: seq<Field>, token: string)
    ensures var out := Inputs(Obj(fields), token).fields;
            && (forall key <- PER_MEMBER_KEYS :: NoKeys(Get(out, key), {token}))
            && MembersForget(Get(out, "members"), token)
  {
    var a := Update(fields, "members", v => Members(v, token));
    var b := Update(a, "opponent_sources", v => Stripped(v, {token}));
    var c := Update(b, "manager_preferences", v => Stripped(v, {token}));
    var d := Update(c, "opponent_outlooks", v => Stripped(v, {token}));
    forall key: string
      ensures key in PER_MEMBER_KEYS ==> NoKeys(Get(Inputs(Obj(fields), token).fields, key), {token})
      ensures key == "members" ==> MembersForget(Get(Inputs(Obj(fields), token).fields, key), token)
    {
      GetUpdate(fields, "members", v => Members(v, token), key);
      GetUpdate(a, "opponent_sources", v => Stripped(v, {token}), key);
      GetUpdate(b, "manager_preferences", v => Stripped(v, {token}), key);
      GetUpdate(c, "opponent_outlooks", v => Stripped(v, {token}), key);
      GetUpdate(d, "inferred_outlooks", v => Stripped(v, {token}), key);
      if Get(fields, key).Some? {
        MembersLose(Get(fields, key).value, token);
        StrippedLoses(Get(fields, key).value, token);
      }
    }
  }

  lemma StrippedLoses(value: Json, token: string)
    ensures NoKeys(Some(Stripped(value, {token})), {token})
  {
    if value.Obj? { GetWithout(value.fields, {token}, token); }
  }

  lemma RequestLoses(value: Json, token: string)
    ensures Forgotten(Some(OwnerRequest(value, token)), token)
  {
    if value.Obj? {
      GetUpdate(value.fields, "input", v => Inputs(v, token), "input");
      var input := Get(value.fields, "input");
      if input.Some? && input.value.Obj? { InputsLose(input.value.fields, token); }
    }
  }

  /** On any card the frozen requests say nothing of the deleted user: no board, source, preference
      or outlook is left under the token. */
  lemma RequestsForget(features: seq<Field>, ids: set<string>, token: string)
    requires token !in ids && !Poison(features)
    ensures var out := RedactFeatures(features, ids, token).value;
            Forgotten(Get(out, "owner_request"), token) && Forgotten(Get(out, "owner_experiment"), token)
  {
    var out := RedactFeatures(features, ids, token).value;
    RedactedSettles(features, ids, token);
    if Get(out, "owner_request").Some? { RequestLoses(Get(out, "owner_request").value, token); }
    if Get(out, "owner_experiment").Some? { RequestLoses(Get(out, "owner_experiment").value, token); }
  }

  lemma {:induction false} ReplaceGetAll(fields: seq<Field>, ids: set<string>, token: string, key: string)
    requires UniqueKeys(fields) && forall i | 0 <= i < |fields| :: fields[i].key !in ids
    ensures Get(ReplaceFields(fields, ids, token), key) ==
            match Get(fields, key) case Some(v) => Some(Replace(v, ids, token)) case None => None
  {
    if fields != [] {
      var before, last := fields[..|fields| - 1], fields[|fields| - 1];
      ReplaceGetAll(before, ids, token, key);
      GetPut(ReplaceFields(before, ids, token), last.key, Replace(last.value, ids, token), key);
      assert fields == before + [last];
      GetAppend(before, last, key);
      GetField(before, key);
    }
  }

  /** A teams object keeps exactly the entries that are not the deleted ids'. */
  ghost predicate TeamsKept(before: Option<Json>, after: Option<Json>, ids: set<string>) {
    before.Some? && before.value.Obj? && UniqueKeys(before.value.fields) ==>
      && after.Some? && after.value.Obj?
      && forall key :: Get(after.value.fields, key).Some? <==> Get(before.value.fields, key).Some? && key !in ids
  }

  lemma TeamsLose(teams: seq<Field>, ids: set<string>, token: string)
    requires UniqueKeys(teams)
    ensures TeamsKept(Some(Obj(teams)), Some(Obj(ReplaceFields(Without(teams, ids), ids, token))), ids)
  {
    var kept := Without(teams, ids);
    WithoutFields(teams, ids);
    forall i | 0 <= i < |kept| ensures kept[i].key !in ids { assert kept[i] in kept; }
    forall key ensures Get(ReplaceFields(kept, ids, token), key).Some? <==> Get(teams, key).Some? && key !in ids {
      ReplaceGetAll(kept, ids, token, key);
      GetWithout(teams, ids, key);
    }
  }

  /** The roster's fields before its ids are replaced. */
  lemma RosterAt(roster: seq<Field>, ids: set<string>, redacted: bool)
    requires UniqueKeys(roster)
    ensures var kept := Roster(Obj(roster), ids, redacted).fields;
            && UniqueKeys(kept) && (redacted ==> Get(kept, "mutual_benefit").None?)
            && Get(kept, "teams") ==
               match Get(roster, "teams") case Some(teams) => Some(Stripped(teams, ids)) case None => None
  {
    var stripped := Update(roster, "teams", v => Stripped(v, ids));
    if Get(roster, "teams").Some? {
      PutFields(roster, "teams", Stripped(Get(roster, "teams").value, ids));
    }
    WithoutFields(stripped, {"mutual_benefit"});
    GetUpdate(roster, "teams", v => Stripped(v, ids), "teams");
    GetWithout(stripped, {"mutual_benefit"}, "teams");
    GetWithout(stripped, {"mutual_benefit"}, "mutual_benefit");
  }

  lemma RosterLoses(roster: seq<Field>, ids: set<string>, token: string, redacted: bool)
    requires UniqueKeys(roster) && token !in {"teams", "mutual_benefit"} && ids !! {"teams", "mutual_benefit"}
    ensures var out := ReplaceFields(Roster(Obj(roster), ids, redacted).fields, ids, token);
            && TeamsKept(Get(roster, "teams"), Get(out, "teams"), ids)
            && (redacted ==> Get(out, "mutual_benefit").None?)
  {
    var kept := Roster(Obj(roster), ids, redacted).fields;
    RosterAt(roster, ids, redacted);
    ReplaceGet(kept, ids, token, "teams");
    ReplaceGet(kept, ids, token, "mutual_benefit");
    var teams := Get(roster, "teams");
    if teams.Some? && teams.value.Obj? && UniqueKeys(teams.value.fields) {
      TeamsLose(teams.value.fields, ids, token);
    }
  }

  /** On any card the roster evaluation loses exactly the deleted ids' teams, nothing of them is left
      under the token, and on the deleted user's own card its mutual benefit goes too. */
  lemma RosterForgets(features: seq<Field>, ids: set<string>, token: string, roster: seq<Field>)
    requires GoodToken(token, ids) && UniqueKeys(features) && !Poison(features)
    requires ids !! {"roster_evaluation", "teams", "mutual_benefit"}
    requires Get(features, "roster_evaluation") == Some(Obj(roster)) && UniqueKeys(roster)
    ensures var out := Get(RedactFeatures(features, ids, token).value, "roster_evaluation");
            && out.Some? && out.value.Obj?
            && TeamsKept(Get(roster, "teams"), Get(out.value.fields, "teams"), ids)
            && (IsRedacted(features, ids) ==> Get(out.value.fields, "mutual_benefit").None?)
  {
    var redacted := IsRedacted(features, ids);
    NotToken(token);
    RosterLoses(roster, ids, token, redacted);
    SharedRoster(features, ids, token, redacted, roster);
    PartnerFieldsAt(Shared(features, ids, token, redacted), "roster_evaluation");
  }

  /** After the shared changes the roster evaluation is the changed one, its ids replaced. */
  lemma SharedRoster(features: seq<Field>, ids: set<string>, token: string, redacted: bool, roster: seq<Field>)
    requires UniqueKeys(features) && "roster_evaluation" !in ids && token != "roster_evaluation"
    requires Get(features, "roster_evaluation") == Some(Obj(roster))
    ensures Get(Shared(features, ids, token, redacted), "roster_evaluation")
            == Some(Replace(Roster(Obj(roster), ids, redacted), ids, token))
  {
    var key := "roster_evaluation";
    var rostered := Update(features, key, v => Roster(v, ids, redacted));
    GetUpdate(features, key, v => Roster(v, ids, redacted), key);
    PutFields(features, key, Roster(Obj(roster), ids, redacted));
    ReplaceGet(rostered, ids, token, key);
    var replaced := ReplaceFields(rostered, ids, token);
    GetUpdate(replaced, "taste_attrs", v => TasteAttrs(v, ids, token), key);
    var tasted := Update(replaced, "taste_attrs", v => TasteAttrs(v, ids, token));
    OwnerSettles(tasted, "owner_request", token, key);
    OwnerSettles(Update(tasted, "owner_request", v => OwnerRequest(v, token)), "owner_experiment", token, key);
  }

  lemma NotToken(token: string)
    requires TOKEN_PREFIX <= token
    ensures token !in {"roster_evaluation", "teams", "mutual_benefit"}
  {
    assert token[|TOKEN_PREFIX| - 1] == ':';
  }

  const CHANGED_KEYS := {"roster_evaluation", "taste_attrs", "owner_request", "owner_experiment"}
  const PARTNER_CHANGES := {"surplus_margin", "negmem", "fit", "fit_diag"}

  /** Nothing else goes: every other field keeps its value but for the ids in it. */
  lemma KeepsTheRest(features: seq<Field>, ids: set<string>, token: string, key: string)
    requires UniqueKeys(features) && !Poison(features) && key !in ids && key != token && key !in CHANGED_KEYS
    requires IsRedacted(features, ids) ==> key !in PARTNER_KEYS && key !in PARTNER_CHANGES
    ensures Get(RedactFeatures(features, ids, token).value, key) ==
            match Get(features, key) case Some(v) => Some(Replace(v, ids, token)) case None => None
  {
    var redacted := IsRedacted(features, ids);
    SharedRest(features, ids, token, redacted, key);
    if redacted { PartnerFieldsAt(Shared(features, ids, token, redacted), key); }
  }

  lemma SharedRest(features: seq<Field>, ids: set<string>, token: string, redacted: bool, key: string)
    requires UniqueKeys(features) && key !in ids && key != token && key !in CHANGED_KEYS
    ensures Get(Shared(features, ids, token, redacted), key) ==
            match Get(features, key) case Some(v) => Some(Replace(v, ids, token)) case None => None
  {
    var rostered := Update(features, "roster_evaluation", v => Roster(v, ids, redacted));
    GetUpdate(features, "roster_evaluation", v => Roster(v, ids, redacted), key);
    if Get(features, "roster_evaluation").Some? {
      PutFields(features, "roster_evaluation", Roster(Get(features, "roster_evaluation").value, ids, redacted));
    }
    ReplaceGet(rostered, ids, token, key);
    var replaced := ReplaceFields(rostered, ids, token);
    GetUpdate(replaced, "taste_attrs", v => TasteAttrs(v, ids, token), key);
    var tasted := Update(replaced, "taste_attrs", v => TasteAttrs(v, ids, token));
    OwnerSettles(tasted, "owner_request", token, key);
    OwnerSettles(Update(tasted, "owner_request", v => OwnerRequest(v, token)), "owner_experiment", token, key);
  }

  // ---- When the first law needs its condition ----

  lemma {:induction false} LongestId(ids: set<string>) returns (longest: string)
    requires ids != {}
    ensures longest in ids && forall id <- ids :: |id| <= |longest|
  {
    longest :| longest in ids;
    if ids != {longest} {
      var other := LongestId(ids - {longest});
      if |other| > |longest| { longest := other; }
    }
  }

  /** The token's own taste attribute must not be an id: otherwise some card is left naming it. */
  lemma LeavesNoIdExactly(ids: set<string>, token: string)
    requires TOKEN_PREFIX <= token && token !in ids && "taste_attrs" !in ids
    ensures (forall features | !Poison(features) :: Clean(RedactFeatures(features, ids, token).value, ids))
            <==> PARTNER + token !in ids
  {
    if PARTNER + token !in ids {
      forall features | !Poison(features) ensures Clean(RedactFeatures(features, ids, token).value, ids) {
        LeavesNoId(features, ids, token);
      }
    } else {
      var id := LongestId(ids);
      NamesItAnyway(ids, token, id);
      var features := TasteCard(Str(PARTNER + id));
      assert !Poison(features) && !Clean(RedactFeatures(features, ids, token).value, ids);
    }
  }

  function TasteCard(attr: Json): seq<Field> {
    [Field("taste_attrs", Arr([attr]))]
  }

  lemma TasteCardAt(attr: Json, key: string)
    ensures Get(TasteCard(attr), key) == if key == "taste_attrs" then Some(Arr([attr])) else None
  {
    assert TasteCard(attr)[1..] == [];
  }

  lemma NamesItAnyway(ids: set<string>, token: string, id: string)
    requires "taste_attrs" !in ids && id in ids && PARTNER + id !in ids && PARTNER + token in ids
    ensures !Poison(TasteCard(Str(PARTNER + id)))
    ensures !Clean(RedactFeatures(TasteCard(Str(PARTNER + id)), ids, token).value, ids)
  {
    var attr := Str(PARTNER + id);
    var before, after := TasteCard(attr), TasteCard(Str(PARTNER + token));
    assert attr.s[|PARTNER|..] == id;
    TasteCardAt(attr, "partner_user_id");
    TasteCardAt(attr, "roster_evaluation");
    TasteCardAt(attr, "taste_attrs");
    TasteCardAt(Str(PARTNER + token), "owner_request");
    TasteCardAt(Str(PARTNER + token), "owner_experiment");
    assert Replace(Arr([attr]), ids, token).items == [attr];
    assert before[..0] == [];
    assert ReplaceFields(before, ids, token) == before;
    assert TasteAttrs(Arr([attr]), ids, token).items == [Str(PARTNER + token)];
    assert Update(before, "taste_attrs", v => TasteAttrs(v, ids, token)) == after;
    assert RedactFeatures(before, ids, token) == Some(after);
    assert after[0].value.items[0] == Str(PARTNER + token) && !Tidy(after[0].value, ids);
  }
}
