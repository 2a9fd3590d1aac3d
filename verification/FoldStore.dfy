/**
 Writing a fold into the session's rows. No two rows may share a position at any moment, so moved
 rows first go to the negatives of their new places, and are flipped when every row is written.
 */
module FoldStore {
  datatype Row = Row(position: int, answered: bool, arms: map<string, string>)

  type Rows = map<nat, Row>

  /** The constraint on positions. */
  ghost predicate Unique(rows: Rows) {
    forall a, b | a in rows && b in rows && a != b :: rows[a].position != rows[b].position
  }

  /** The rows after a fold. */
  function Folded(rows: Rows, places: map<nat, int>, arms: map<nat, map<string, string>>, inserts: Rows): Rows {
    map id | id in rows.Keys + inserts.Keys ::
      if id in rows then
        Row(if id in places then places[id] else rows[id].position, rows[id].answered, if id in arms then arms[id]
            else rows[id].arms)
      else inserts[id]
  }

  ghost predicate Positive(rows: Rows, places: map<nat, int>, inserts: Rows) {
    && places.Keys <= rows.Keys && inserts.Keys !! rows.Keys
    && (forall id <- rows :: rows[id].position > 0)
    && (forall id <- places :: places[id] > 0) && (forall id <- inserts :: inserts[id].position > 0)
  }

  /** What the caller computed: distinct positive places for the rows it moves and the rows it adds,
      that no other row has. */
  ghost predicate Plan(rows: Rows, places: map<nat, int>, inserts: Rows) {
    && Positive(rows, places, inserts)
    && (forall a, b | a in places && b in places && a != b :: places[a] != places[b])
    && (forall a, b | a in places && b in inserts :: places[a] != inserts[b].position)
    && Unique(inserts)
    && forall a <- rows | a !in places ::
         (forall b <- places :: rows[a].position != places[b]) && forall b <- inserts ::
             rows[a].position != inserts[b].position
  }

  class Session {
    var open: bool
    var rows: Rows

    constructor (rows: Rows)
      requires Unique(rows)
      ensures this.rows == rows && open
    {
      this.rows, open := rows, true;
    }

    /** One row written: the constraint must hold at once. */
    method Write(id: nat, row: Row)
      requires Unique(rows) && forall other <- rows | other != id :: rows[other].position != row.position
      modifies this`rows
      ensures rows == old(rows)[id := row] && Unique(rows)
    {
      rows := rows[id := row];
    }

    /** Write a fold, or nothing: the session must be open still, and no row to be moved answered. */
    method Fold(places: map<nat, int>, arms: map<nat, map<string, string>>, inserts: Rows) returns (ok: bool)
      requires Unique(rows) && Plan(rows, places, inserts) && arms.Keys <= rows.Keys
      modifies this`rows
      ensures ok <==> open && forall id <- places :: !old(rows)[id].answered
      ensures rows == if ok then Folded(old(rows), places, arms, inserts) else old(rows)
      ensures Unique(rows)
    {
      if !open || exists id <- places :: rows[id].answered {
        return false;
      }
      WriteAll(places, arms, inserts);
      return true;
    }

    method WriteAll(places: map<nat, int>, arms: map<nat, map<string, string>>, inserts: Rows)
      requires Unique(rows) && Plan(rows, places, inserts) && arms.Keys <= rows.Keys
      modifies this`rows
      ensures Unique(rows) && rows == Folded(old(rows), places, arms, inserts)
    {
      ghost var was := rows;
      Stage(places, arms, inserts);
      FlippedIsFolded(was, places, arms, inserts);
      FoldedUnique(was, places, arms, inserts);
      Flip();
    }

    /** Write everything, with moved rows at the negatives of their places. */
    method Stage(places: map<nat, int>, arms: map<nat, map<string, string>>, inserts: Rows)
      requires Unique(rows) && Plan(rows, places, inserts) && arms.Keys <= rows.Keys
      modifies this`rows
      ensures Unique(rows) && rows == Staged(old(rows), places, arms, inserts)
    {
      ghost var was := rows;
      Negate(places, inserts);
      SetArms(arms);
      StagedClear(was, places, arms, inserts);
      Insert(inserts);
    }

    /** Move rows to the negatives of their places. */
    method Negate(places: map<nat, int>, ghost inserts: Rows)
      requires Unique(rows) && Plan(rows, places, inserts)
      modifies this`rows
      ensures Unique(rows) && rows == Negated(old(rows), places, places.Keys)
    {
      var done: set<nat> := {};
      assert rows == Negated(rows, places, {});
      while done != places.Keys
        invariant done <= places.Keys && Unique(rows) && rows == Negated(old(rows), places, done)
        decreases places.Keys - done
      {
        SomeLeft(done, places.Keys);
        var id :| id in places.Keys - done;
        NegateFits(old(rows), places, inserts, done, id);
        Write(id, rows[id].(position := -places[id]));
        done := done + {id};
      }
    }

    method SetArms(arms: map<nat, map<string, string>>)
      requires Unique(rows) && arms.Keys <= rows.Keys
      modifies this`rows
      ensures Unique(rows) && rows == Armed(old(rows), arms, arms.Keys)
    {
      var done: set<nat> := {};
      assert rows == Armed(rows, arms, {});
      while done != arms.Keys
        invariant done <= arms.Keys && Unique(rows) && rows == Armed(old(rows), arms, done)
        decreases arms.Keys - done
      {
        SomeLeft(done, arms.Keys);
        var id :| id in arms.Keys - done;
        ArmFits(old(rows), rows, arms, done, id);
        Write(id, rows[id].(arms := arms[id]));
        done := done + {id};
      }
    }

    method Insert(inserts: Rows)
      requires Unique(rows) && Clear(rows, inserts) && Unique(inserts)
      modifies this`rows
      ensures Unique(rows) && rows == old(rows) + inserts
    {
      var done: set<nat> := {};
      assert rows == Joined(rows, inserts, {});
      while done != inserts.Keys
        invariant done <= inserts.Keys && Unique(rows) && rows == Joined(old(rows), inserts, done)
        decreases inserts.Keys - done
      {
        SomeLeft(done, inserts.Keys);
        var id :| id in inserts.Keys - done;
        InsertFits(old(rows), inserts, done, id);
        Write(id, inserts[id]);
        done := done + {id};
      }
      assert Joined(old(rows), inserts, inserts.Keys) == old(rows) + inserts;
    }

    /** Turn the negative positions positive, row by row in any order. */
    method Flip()
      requires Unique(rows) && Unique(Flipped(rows, rows.Keys))
      modifies this`rows
      ensures Unique(rows) && rows == Flipped(old(rows), old(rows).Keys)
    {
      var done: set<nat>, ids := {}, rows.Keys;
      ghost var start := rows;
      assert rows == Flipped(start, {});
      while done != ids
        invariant done <= ids && Unique(rows) && rows == Flipped(start, done)
        decreases ids - done
      {
        SomeLeft(done, ids);
        var id :| id in ids - done;
        FlipOne(start, done, id);
        done := done + {id};
      }
    }

    method FlipOne(ghost start: Rows, ghost done: set<nat>, id: nat)
      requires Unique(rows) && rows == Flipped(start, done) && id in rows && id !in done
      requires Unique(start) && Unique(Flipped(start, start.Keys))
      modifies this`rows
      ensures Unique(rows) && rows == Flipped(start, done + {id})
    {
      FlipFits(start, done, id);
      if rows[id].position < 0 {
        Write(id, rows[id].(position := -rows[id].position));
      }
    }
  }

  lemma SomeLeft(done: set<nat>, ids: set<nat>)
    requires done <= ids && done != ids
    ensures exists id :: id in ids - done
  {
    assert !(ids <= done);
    var id :| id in ids && id !in done;
    assert id in ids - done;
  }

  function Negated(rows: Rows, places: map<nat, int>, ids: set<nat>): Rows {
    map id | id in rows :: if id in ids && id in places then rows[id].(position := -places[id]) else rows[id]
  }

  function Staged(rows: Rows, places: map<nat, int>, arms: map<nat, map<string, string>>, inserts: Rows): Rows {
    Armed(Negated(rows, places, places.Keys), arms, arms.Keys) + inserts
  }

  function Armed(rows: Rows, arms: map<nat, map<string, string>>, ids: set<nat>): Rows {
    map id | id in rows :: if id in ids && id in arms then rows[id].(arms := arms[id]) else rows[id]
  }

  function Joined(rows: Rows, inserts: Rows, ids: set<nat>): Rows {
    map id | id in rows.Keys + inserts.Keys * ids :: if id in inserts then inserts[id] else rows[id]
  }

  function Flipped(rows: Rows, ids: set<nat>): Rows {
    map id | id in rows ::
        if id in ids && rows[id].position < 0 then rows[id].(position := -rows[id].position) else rows[id]
  }

  /** No row and no insert share an id or a position. */
  ghost predicate Clear(rows: Rows, inserts: Rows) {
    inserts.Keys !! rows.Keys && forall a, b | a in rows && b in inserts :: rows[a].position != inserts[b].position
  }

  lemma NegateFits(rows: Rows, places: map<nat, int>, inserts: Rows, done: set<nat>, id: nat)
    requires Plan(rows, places, inserts) && id in places && id !in done
    ensures var now := Negated(rows, places, done);
            && (forall other <- now | other != id :: now[other].position != -places[id])
            && now[id := now[id].(position := -places[id])] == Negated(rows, places, done + {id})
  {
    var now := Negated(rows, places, done);
    forall other <- now | other != id ensures now[other].position != -places[id] {
      if other in done && other in places { assert places[other] != places[id]; }
    }
  }

  lemma ArmFits(rows: Rows, now: Rows, arms: map<nat, map<string, string>>, done: set<nat>, id: nat)
    requires now == Armed(rows, arms, done) && Unique(now) && id in arms && id in rows
    ensures forall other <- now | other != id :: now[other].position != now[id].position
    ensures now[id := now[id].(arms := arms[id])] == Armed(rows, arms, done + {id})
  {
  }

  lemma InsertFits(rows: Rows, inserts: Rows, done: set<nat>, id: nat)
    requires Clear(rows, inserts) && Unique(inserts) && id in inserts && id !in done
    ensures var now := Joined(rows, inserts, done);
            && (forall other <- now | other != id :: now[other].position != inserts[id].position)
            && now[id := inserts[id]] == Joined(rows, inserts, done + {id})
  {
  }

  /** Rows that are apart once all are flipped stay apart while they are being flipped. */
  lemma FlipFits(rows: Rows, done: set<nat>, id: nat)
    requires Unique(rows) && Unique(Flipped(rows, rows.Keys)) && id in rows && id !in done
    ensures var now := Flipped(rows, done);
            && now[id] == rows[id]
            && (rows[id].position < 0 ==>
                forall other <- now | other != id :: now[other].position != -rows[id].position)
            && Flipped(rows, done + {id})
               == if rows[id].position < 0 then now[id := rows[id].(position := -rows[id].position)] else now
  {
    var now, end := Flipped(rows, done), Flipped(rows, rows.Keys);
    if rows[id].position < 0 {
      forall other <- now | other != id ensures now[other].position != -rows[id].position {
        assert end[other].position != end[id].position;
      }
    }
  }

  lemma StagedClear(rows: Rows, places: map<nat, int>, arms: map<nat, map<string, string>>, inserts: Rows)
    requires Plan(rows, places, inserts)
    ensures Clear(Armed(Negated(rows, places, places.Keys), arms, arms.Keys), inserts)
  {
    var staged := Armed(Negated(rows, places, places.Keys), arms, arms.Keys);
    forall a, b | a in staged && b in inserts ensures staged[a].position != inserts[b].position {
      assert staged[a].position == if a in places then -places[a] else rows[a].position;
      assert inserts[b].position > 0;
    }
  }

  lemma FoldedUnique(rows: Rows, places: map<nat, int>, arms: map<nat, map<string, string>>, inserts: Rows)
    requires Plan(rows, places, inserts) && Unique(rows)
    ensures Unique(Folded(rows, places, arms, inserts))
  {
    var folded := Folded(rows, places, arms, inserts);
    forall a, b | a in folded && b in folded && a != b ensures folded[a].position != folded[b].position {
      var p := if a in rows then (if a in places then places[a] else rows[a].position) else inserts[a].position;
      var q := if b in rows then (if b in places then places[b] else rows[b].position) else inserts[b].position;
      assert folded[a].position == p && folded[b].position == q;
    }
  }

  lemma StagedAt(rows: Rows, places: map<nat, int>, arms: map<nat, map<string, string>>, id: nat)
    requires id in rows
    ensures Armed(Negated(rows, places, places.Keys), arms, arms.Keys)[id] ==
            Row(if id in places then -places[id] else rows[id].position, rows[id].answered, if id in arms then arms[id]
                else rows[id].arms)
  {
  }

  lemma FlippedAt(staged: Rows, row: Row, place: int, id: nat)
    requires id in staged && staged[id] == row && (row.position < 0 ==> place == -row.position)
             && (row.position >= 0 ==> place == row.position)
    ensures id in Flipped(staged, staged.Keys) && Flipped(staged, staged.Keys)[id] == row.(position := place)
  {
  }

  lemma FlippedIsFolded(rows: Rows, places: map<nat, int>, arms: map<nat, map<string, string>>, inserts: Rows)
    requires Positive(rows, places, inserts)
    ensures var staged := Staged(rows, places, arms, inserts);
            Flipped(staged, staged.Keys) == Folded(rows, places, arms, inserts)
  {
    var moved := Armed(Negated(rows, places, places.Keys), arms, arms.Keys);
    var staged, folded := Staged(rows, places, arms, inserts), Folded(rows, places, arms, inserts);
    assert moved.Keys == rows.Keys && staged.Keys == moved.Keys + inserts.Keys;
    forall id | id in folded ensures Flipped(staged, staged.Keys)[id] == folded[id] {
      if id in rows {
        StagedAt(rows, places, arms, id);
        FlippedAt(staged, moved[id], if id in places then places[id] else rows[id].position, id);
      } else {
        FlippedAt(staged, inserts[id], inserts[id].position, id);
      }
    }
  }
}
