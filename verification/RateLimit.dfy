/**
 The hourly event budget: a bounded, insertion-ordered table of counts by client. When it outgrows
 its bound, entries of earlier hours go first, then the oldest inserted, whosever they are; a
 client that loses its entry starts its hour afresh.
 */
module RateLimit {
  import opened FiniteSets
  import opened Sublists

  datatype Entry = Entry(hour: int, count: nat)

  type Table = map<string, Entry>

  datatype Charge = Charge(key: string, n: nat, hour: int)

  /** What the table has counted for a client this hour. */
  function Counted(table: Table, key: string, hour: int): nat {
    if key in table && table[key].hour == hour then table[key].count else 0
  }

  /** Keys in order of insertion: a known key keeps its place. */
  function Placed(order: seq<string>, key: string): seq<string> {
    if key in order then order else order + [key]
  }

  function Current(order: seq<string>, table: Table, hour: int): seq<string> {
    if order == [] then []
    else
      var last := order[|order| - 1];
      Current(order[..|order| - 1], table, hour) + if last in table && table[last].hour != hour then [] else [last]
  }

  function Newest(order: seq<string>, max: nat): seq<string> {
    if |order| <= max then order else order[|order| - max..]
  }

  function OnlyKeys(table: Table, keys: seq<string>): Table {
    map key | key in table && key in keys :: table[key]
  }

  datatype Book = Book(order: seq<string>, table: Table)

  function Charged(table: Table, charge: Charge): Table {
    table[charge.key := Entry(charge.hour, Counted(table, charge.key, charge.hour) + charge.n)]
  }

  /** A charge: counted, then the table cut back to its bound when it has outgrown it. */
  function Billed(book: Book, charge: Charge, max: nat): Book {
    Trimmed(Placed(book.order, charge.key), Charged(book.table, charge), charge.hour, max)
  }

  function Trimmed(order: seq<string>, table: Table, hour: int, max: nat): Book {
    var left := if |order| <= max then order else Newest(Current(order, table, hour), max);
    Book(left, OnlyKeys(table, left))
  }

  ghost predicate Distinct(order: seq<string>) {
    forall i, j | 0 <= i < j < |order| :: order[i] != order[j]
  }

  ghost predicate Listed(order: seq<string>, table: Table) {
    Distinct(order) && forall key :: key in order <==> key in table
  }

  lemma {:induction false} CurrentKeys(order: seq<string>, table: Table, hour: int)
    ensures forall key :: key in Current(order, table, hour)
              <==> key in order && !(key in table && table[key].hour != hour)
    ensures Distinct(order) ==> Distinct(Current(order, table, hour))
    ensures |Current(order, table, hour)| <= |order|
  {
    if order != [] {
      var head := order[..|order| - 1];
      CurrentKeys(head, table, hour);
      assert order == head + [order[|order| - 1]];
      var before := Current(head, table, hour);
      if Distinct(order) {
        forall i | 0 <= i < |before| ensures before[i] != order[|order| - 1] { assert before[i] in head; }
      }
    }
  }

  class Limiter {
    const max: nat
    var order: seq<string>
    var table: Table

    ghost predicate Valid()
      reads this
    {
      Listed(order, table) && |order| <= max
    }

    constructor (max: nat)
      ensures Valid() && this.max == max && table == map[]
    {
      this.max := max;
      order, table := [], map[];
    }

    /** Charge a client's hour, and tell whether that exceeds the limit. */
    method Exceeded(charge: Charge, limit: int) returns (exceeded: bool)
      requires Valid()
      modifies this
      ensures Valid()
      ensures exceeded <==> Counted(old(table), charge.key, charge.hour) + charge.n > limit
      ensures Book(order, table) == Billed(old(Book(order, table)), charge, max)
    {
      exceeded := Counted(table, charge.key, charge.hour) + charge.n > limit;
      Enter(charge);
      Trim(charge.hour);
    }

    method Enter(charge: Charge)
      requires Listed(order, table)
      modifies this
      ensures order == Placed(old(order), charge.key) && table == Charged(old(table), charge)
      ensures Listed(order, table) && OnlyKeys(table, order) == table
    {
      PlacedListed(Book(order, table), charge);
      order := Placed(order, charge.key);
      table := table[charge.key := Entry(charge.hour, Counted(table, charge.key, charge.hour) + charge.n)];
    }

    method Trim(hour: int)
      requires Listed(order, table) && OnlyKeys(table, order) == table
      modifies this
      ensures Valid() && Book(order, table) == Trimmed(old(order), old(table), hour, max)
    {
      if |order| > max {
        DropStale(hour);
        DropOldest(old(table));
      }
    }

    /** Delete the entries of other hours. */
    method DropStale(hour: int)
      requires Listed(order, table)
      modifies this
      ensures order == Current(old(order), old(table), hour) && Listed(order, table)
      ensures table == OnlyKeys(old(table), order)
    {
      ghost var was := table;
      var kept: seq<string> := [];
      assert [] + order == order && table == OnlyKeys(was, order);
      for i := 0 to |order|
        invariant order == old(order) && kept == Current(order[..i], was, hour)
        invariant Distinct(kept + order[i..]) && table == OnlyKeys(was, kept + order[i..])
      {
        StaleStep(was, order, kept, i, hour);
        if table[order[i]].hour != hour {
          table := table - {order[i]};
        } else {
          kept := kept + [order[i]];
        }
      }
      assert order[..|order|] == order && kept + order[|order|..] == kept;
      order := kept;
      KeptListed(was, old(order), hour);
    }

    /** Delete the oldest entries until the table fits. */
    method DropOldest(ghost was: Table)
      requires Listed(order, table) && table == OnlyKeys(was, order)
      modifies this
      ensures order == Newest(old(order), max) && Listed(order, table) && table == OnlyKeys(was, order)
    {
      ghost var gone := 0;
      while |order| > max
        invariant gone <= |old(order)| && order == old(order)[gone..] && (gone > 0 ==> |order| >= max)
        invariant Listed(order, table) && table == OnlyKeys(was, order)
      {
        OldestStep(was, order);
        table := table - {order[0]};
        order := order[1..];
        gone := gone + 1;
      }
    }
  }

  lemma PlacedListed(book: Book, charge: Charge)
    requires Listed(book.order, book.table)
    ensures var placed, charged := Placed(book.order, charge.key), Charged(book.table, charge);
            Listed(placed, charged) && OnlyKeys(charged, placed) == charged
  {
  }

  lemma StaleStep(was: Table, order: seq<string>, kept: seq<string>, i: nat, hour: int)
    requires i < |order| && Listed(order, was) && kept == Current(order[..i], was, hour) && Distinct(kept + order[i..])
    ensures var key, rest := order[i], order[i + 1..];
            && key in was && key in OnlyKeys(was, kept + order[i..])
            && (if was[key].hour != hour then
                  && Current(order[..i + 1], was, hour) == kept && Distinct(kept + rest)
                  && OnlyKeys(was, kept + order[i..]) - {key} == OnlyKeys(was, kept + rest)
                else
                  Current(order[..i + 1], was, hour) == kept + [key] && kept + [key] + rest == kept + order[i..])
  {
    assert order[..i + 1][..i] == order[..i];
    assert kept + order[i..] == kept + [order[i]] + order[i + 1..];
    assert order[i] in order && order[i] in kept + order[i..];
    RemoveKey(was, kept, order[i], order[i + 1..]);
  }

  lemma KeptListed(was: Table, order: seq<string>, hour: int)
    requires Listed(order, was)
    ensures Listed(Current(order, was, hour), OnlyKeys(was, Current(order, was, hour)))
  {
    CurrentKeys(order, was, hour);
  }

  lemma OldestStep(was: Table, order: seq<string>)
    requires order != [] && Distinct(order)
    ensures Distinct(order[1..]) && OnlyKeys(was, order) - {order[0]} == OnlyKeys(was, order[1..])
  {
    RemoveKey(was, [], order[0], order[1..]);
    assert [] + [order[0]] + order[1..] == order && [] + order[1..] == order[1..];
  }

  lemma RemoveKey(table: Table, before: seq<string>, key: string, after: seq<string>)
    requires Distinct(before + [key] + after)
    ensures Distinct(before + after)
            && OnlyKeys(table, before + [key] + after) - {key} == OnlyKeys(table, before + after)
  {
    var all := before + [key] + after;
    forall i | 0 <= i < |before + after| ensures (before + after)[i] != key {
      assert (before + after)[i] == all[if i < |before| then i else i + 1];
      assert all[|before|] == key;
    }
    forall k ensures k in all <==> k == key || k in before + after {
    }
    forall i, j | 0 <= i < j < |before + after| ensures (before + after)[i] != (before + after)[j] {
      assert (before + after)[i] == all[if i < |before| then i else i + 1];
      assert (before + after)[j] == all[if j < |before| then j else j + 1];
    }
  }

  /** Cutting back: the bound holds, kept entries are unchanged, a table within the bound loses
      nothing, and an entry of this hour goes only when none of another hour is left and the bound
      is reached. */
  lemma TrimmedKeeps(order: seq<string>, table: Table, hour: int, max: nat)
    requires Listed(order, table)
    ensures var book := Trimmed(order, table, hour, max);
            && Listed(book.order, book.table) && |book.order| <= max
            && (forall key <- book.table :: key in table && book.table[key] == table[key])
            && (|order| <= max ==> book == Book(order, table))
            && forall key <- table | key !in book.table && table[key].hour == hour ::
                 |book.order| == max && forall other <- book.table :: table[other].hour == hour
  {
    CurrentKeys(order, table, hour);
    if |order| <= max {
      assert OnlyKeys(table, order) == table;
    }
  }

  lemma {:induction false} CurrentInOrder(order: seq<string>, table: Table, hour: int)
    ensures InOrder(order, key => !(key in table && table[key].hour != hour), Current(order, table, hour))
  {
    var keep := (key: string) => !(key in table && table[key].hour != hour);
    if order == [] {
      NoneInOrder(keep);
    } else {
      var n := |order| - 1;
      assert order == order[..n] + [order[n]];
      CurrentInOrder(order[..n], table, hour);
      OneMoreInOrder(order[..n], keep, Current(order[..n], table, hour), order[n]);
    }
  }

  /** Of this hour's entries the oldest inserted go: every entry kept was inserted after every one of this
      hour that went. */
  lemma OldestGo(order: seq<string>, table: Table, hour: int, max: nat, kept: nat, gone: nat)
    requires Listed(order, table) && kept < |order| && gone < |order|
    requires var book := Trimmed(order, table, hour, max);
             order[kept] in book.table && order[gone] !in book.table && table[order[gone]].hour == hour
    ensures gone < kept
  {
    var current := Current(order, table, hour);
    CurrentKeys(order, table, hour);
    CurrentInOrder(order, table, hour);
    var k, g := NewestAfter(current, max, order[kept], order[gone]);
    var at :| KeptAt(order, key => !(key in table && table[key].hour != hour), at, current);
    assert order[at[k]] == order[kept] && order[at[g]] == order[gone];
  }

  lemma NewestAfter(current: seq<string>, max: nat, kept: string, gone: string) returns (k: nat, g: nat)
    requires kept in Newest(current, max) && gone in current && gone !in Newest(current, max)
    ensures g < k < |current| && current[k] == kept && current[g] == gone
  {
    var left := Newest(current, max);
    var m: nat := |current| - |left|;
    assert left == current[m..];
    var j :| 0 <= j < |left| && left[j] == kept;
    g :| 0 <= g < |current| && current[g] == gone;
    k := m + j;
    if g >= m { TailHas(current, m, g); }
  }

  lemma TailHas(current: seq<string>, m: nat, g: nat)
    requires m <= g < |current|
    ensures current[g] in current[m..]
  {
    assert current[m..][g - m] == current[g];
  }

  /** A client charged anew goes last, and another keeps its place. */
  lemma PlacedLast(order: seq<string>, key: string)
    ensures order <= Placed(order, key) && key in Placed(order, key)
    ensures |Placed(order, key)| == |order| + if key in order then 0 else 1
  {
  }

  // ---- Runs of charges ----

  function Spent(charges: seq<Charge>, key: string, hour: int): nat {
    if charges == [] then 0
    else
      var last := charges[|charges| - 1];
      Spent(charges[..|charges| - 1], key, hour) + if last.key == key && last.hour == hour then last.n else 0
  }

  function History(charges: seq<Charge>, max: nat): Book {
    if charges == [] then Book([], map[])
    else Billed(History(charges[..|charges| - 1], max), charges[|charges| - 1], max)
  }

  /** A client is never found over its budget early: what is counted for it was spent. */
  lemma {:induction false} NeverEarly(charges: seq<Charge>, max: nat, key: string, hour: int)
    ensures Counted(History(charges, max).table, key, hour) <= Spent(charges, key, hour)
  {
    if charges != [] {
      NeverEarly(charges[..|charges| - 1], max, key, hour);
    }
  }

  ghost predicate Forward(charges: seq<Charge>) {
    forall i, j | 0 <= i < j < |charges| :: charges[i].hour <= charges[j].hour
  }

  function Clients(charges: seq<Charge>): set<string> {
    set c | c in charges :: c.key
  }

  ghost predicate Holds(book: Book, clients: set<string>) {
    Listed(book.order, book.table) && forall k :: k in book.order <==> k in clients
  }

  lemma FitStep(book: Book, charge: Charge, max: nat, clients: set<string>)
    requires Holds(book, clients) && |clients + {charge.key}| <= max
    ensures Holds(Billed(book, charge, max), clients + {charge.key})
    ensures Billed(book, charge, max).table == Charged(book.table, charge)
  {
    var placed, charged := Placed(book.order, charge.key), Charged(book.table, charge);
    assert Listed(placed, charged);
    OrderSize(placed, clients + {charge.key});
    assert OnlyKeys(charged, placed) == charged;
  }

  /** The table that forgets no client. */
  function Unbounded(charges: seq<Charge>): Table {
    if charges == [] then map[] else Charged(Unbounded(charges[..|charges| - 1]), charges[|charges| - 1])
  }

  lemma {:induction false} Fits(charges: seq<Charge>, max: nat)
    requires |Clients(charges)| <= max
    ensures Holds(History(charges, max), Clients(charges)) && History(charges, max).table == Unbounded(charges)
  {
    if charges != [] {
      var head, last := charges[..|charges| - 1], charges[|charges| - 1];
      assert charges == head + [last];
      assert Clients(charges) == Clients(head) + {last.key};
      SubsetSize(Clients(head), Clients(charges));
      Fits(head, max);
      FitStep(History(head, max), last, max, Clients(head));
    }
  }

  /** While the clients fit the table and the clock runs forward, the count is exact. */
  lemma Exact(charges: seq<Charge>, max: nat, key: string, hour: int)
    requires Forward(charges) && |Clients(charges)| <= max && forall c <- charges :: c.hour <= hour
    ensures Counted(History(charges, max).table, key, hour) == Spent(charges, key, hour)
  {
    Fits(charges, max);
    UnboundedExact(charges, key, hour);
  }

  lemma {:induction false} UnboundedExact(charges: seq<Charge>, key: string, hour: int)
    requires Forward(charges) && forall c <- charges :: c.hour <= hour
    ensures Counted(Unbounded(charges), key, hour) == Spent(charges, key, hour)
  {
    if charges != [] {
      var head, last := charges[..|charges| - 1], charges[|charges| - 1];
      assert forall c <- head :: c in charges;
      UnboundedExact(head, key, hour);
      if last.hour < hour {
        forall c <- charges ensures c.hour < hour {
          var i :| 0 <= i < |charges| && charges[i] == c;
          assert charges[i].hour <= charges[|charges| - 1].hour;
        }
        Stale(charges, key, hour);
      }
    }
  }

  lemma {:induction false} Stale(charges: seq<Charge>, key: string, hour: int)
    requires forall c <- charges :: c.hour < hour
    ensures Spent(charges, key, hour) == 0
  {
    if charges != [] {
      assert forall c <- charges[..|charges| - 1] :: c in charges;
      Stale(charges[..|charges| - 1], key, hour);
    }
  }

  lemma {:induction false} OrderSize(order: seq<string>, keys: set<string>)
    requires Distinct(order) && forall k :: k in order <==> k in keys
    ensures |order| == |keys|
    decreases |order|
  {
    if order == [] {
      assert keys == {};
    } else {
      var last := order[|order| - 1];
      assert order == order[..|order| - 1] + [last];
      OrderSize(order[..|order| - 1], keys - {last});
    }
  }
}
