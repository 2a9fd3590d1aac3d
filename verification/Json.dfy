/** JSON trees as Python holds them: an object is its fields in insertion order. */
module Json {
  import opened Wrappers

  datatype Json =
    | Null
    | Bool(b: bool)
    | Num(numeral: string)
    | Str(s: string)
    | Arr(items: seq<Json>)
    | Obj(fields: seq<Field>)

  datatype Field = Field(key: string, value: Json)

  predicate HasKey(fields: seq<Field>, key: string) {
    exists i :: 0 <= i < |fields| && fields[i].key == key
  }

  ghost predicate UniqueKeys(fields: seq<Field>) {
    forall i, j | 0 <= i < j < |fields| :: fields[i].key != fields[j].key
  }

  function Get(fields: seq<Field>, key: string): Option<Json> {
    if fields == [] then None
    else if fields[0].key == key then Some(fields[0].value)
    else Get(fields[1..], key)
  }

  /** Assign a key: in place when it is there, at the end when it is not. */
  function Put(fields: seq<Field>, key: string, value: Json): seq<Field> {
    if fields == [] then [Field(key, value)]
    else if fields[0].key == key then [Field(key, value)] + fields[1..]
    else [fields[0]] + Put(fields[1..], key, value)
  }

  /** The fields but those keys, in order. */
  function Without(fields: seq<Field>, keys: set<string>): seq<Field> {
    if fields == [] then []
    else (if fields[0].key in keys then [] else [fields[0]]) + Without(fields[1..], keys)
  }

  /** Apply a change to a key's value, when the key is there. */
  function Update(fields: seq<Field>, key: string, change: Json -> Json): seq<Field> {
    match Get(fields, key)
    case Some(value) => Put(fields, key, change(value))
    case None => fields
  }

  /** An object loses those keys; anything else is left alone. */
  function Stripped(value: Json, keys: set<string>): Json {
    if value.Obj? then Obj(Without(value.fields, keys)) else value
  }

  /** Keys are unique at every level, and no key and no string is one of `banned`. */
  ghost predicate Tidy(value: Json, banned: set<string>) {
    match value
    case Str(s) => s !in banned
    case Arr(items) => forall i | 0 <= i < |items| :: Tidy(items[i], banned)
    case Obj(fields) => TidyFields(fields, banned)
    case _ => true
  }

  ghost predicate TidyFields(fields: seq<Field>, banned: set<string>) {
    UniqueKeys(fields) && forall i | 0 <= i < |fields| :: fields[i].key !in banned && Tidy(fields[i].value, banned)
  }

  lemma {:induction false} GetField(fields: seq<Field>, key: string)
    ensures Get(fields, key).Some? <==> HasKey(fields, key)
    ensures Get(fields, key).Some? ==> exists i :: 0 <= i < |fields| && fields[i] == Field(key, Get(fields, key).value)
  {
    if fields != [] && fields[0].key != key {
      GetField(fields[1..], key);
      if Get(fields[1..], key).Some? {
        var i :| 0 <= i < |fields| - 1 && fields[1..][i] == Field(key, Get(fields, key).value);
        assert fields[i + 1] == fields[1..][i];
      }
      if HasKey(fields, key) {
        var i :| 0 <= i < |fields| && fields[i].key == key;
        assert fields[1..][i - 1].key == key;
      }
    } else if fields != [] {
      assert fields[0] == Field(key, Get(fields, key).value);
    }
  }

  lemma {:induction false} GetPut(fields: seq<Field>, key: string, value: Json, other: string)
    ensures Get(Put(fields, key, value), other) == if other == key then Some(value) else Get(fields, other)
  {
    if fields != [] && fields[0].key != key {
      GetPut(fields[1..], key, value, other);
    }
  }

  lemma {:induction false} PutSame(fields: seq<Field>, key: string)
    requires Get(fields, key).Some?
    ensures Put(fields, key, Get(fields, key).value) == fields
  {
    if fields[0].key != key {
      PutSame(fields[1..], key);
    }
  }

  lemma {:induction false} PutAppends(fields: seq<Field>, key: string, value: Json)
    requires !HasKey(fields, key)
    ensures Put(fields, key, value) == fields + [Field(key, value)]
  {
    if fields != [] {
      assert fields[0].key != key;
      forall i | 0 <= i < |fields| - 1 ensures fields[1..][i].key != key { assert fields[1..][i] == fields[i + 1]; }
      PutAppends(fields[1..], key, value);
    }
  }

  /** Where a put lands: every field of the result is an old one or the new one, and keys stay unique. */
  lemma {:induction false} PutFields(fields: seq<Field>, key: string, value: Json)
    ensures forall f | f in Put(fields, key, value) :: f in fields || f == Field(key, value)
    ensures UniqueKeys(fields) ==> UniqueKeys(Put(fields, key, value))
  {
    if fields != [] && fields[0].key != key {
      PutFields(fields[1..], key, value);
      if UniqueKeys(fields) {
        var rest := Put(fields[1..], key, value);
        assert UniqueKeys(fields[1..]);
        forall j | 0 <= j < |rest| ensures rest[j].key != fields[0].key {
          if rest[j] in fields[1..] {
            var i :| 0 <= i < |fields| - 1 && fields[1..][i] == rest[j];
            assert fields[i + 1] == rest[j];
          } else {
            assert rest[j] in rest;
          }
        }
      }
    }
  }

  lemma {:induction false} WithoutFields(fields: seq<Field>, keys: set<string>)
    ensures forall f | f in Without(fields, keys) :: f in fields && f.key !in keys
    ensures UniqueKeys(fields) ==> UniqueKeys(Without(fields, keys))
  {
    if fields != [] {
      WithoutFields(fields[1..], keys);
      var rest := Without(fields[1..], keys);
      if UniqueKeys(fields) {
        assert UniqueKeys(fields[1..]);
        forall j | 0 <= j < |rest| ensures rest[j].key != fields[0].key {
          assert rest[j] in fields[1..];
          var i :| 0 <= i < |fields| - 1 && fields[1..][i] == rest[j];
          assert fields[i + 1] == rest[j];
        }
      }
    }
  }

  lemma {:induction false} GetWithout(fields: seq<Field>, keys: set<string>, key: string)
    ensures Get(Without(fields, keys), key) == if key in keys then None else Get(fields, key)
  {
    if fields != [] {
      GetWithout(fields[1..], keys, key);
      assert ([fields[0]] + Without(fields[1..], keys))[1..] == Without(fields[1..], keys);
      if fields[0].key in keys {
        assert Without(fields, keys) == Without(fields[1..], keys);
      }
    }
  }

  lemma {:induction false} WithoutNone(fields: seq<Field>, keys: set<string>)
    requires forall i | 0 <= i < |fields| :: fields[i].key !in keys
    ensures Without(fields, keys) == fields
  {
    if fields != [] {
      WithoutNone(fields[1..], keys);
    }
  }

  lemma WithoutTwice(fields: seq<Field>, keys: set<string>)
    ensures Without(Without(fields, keys), keys) == Without(fields, keys)
  {
    WithoutFields(fields, keys);
    var once := Without(fields, keys);
    forall i | 0 <= i < |once| ensures once[i].key !in keys { assert once[i] in once; }
    WithoutNone(once, keys);
  }

  lemma StrippedTwice(value: Json, keys: set<string>)
    ensures Stripped(Stripped(value, keys), keys) == Stripped(value, keys)
  {
    if value.Obj? {
      WithoutTwice(value.fields, keys);
    }
  }

  // ---- Updates ----

  lemma GetUpdate(fields: seq<Field>, key: string, change: Json -> Json, other: string)
    ensures Get(Update(fields, key, change), other) ==
            match Get(fields, other)
            case Some(v) => Some(if other == key then change(v) else v)
            case None => None
  {
    if Get(fields, key).Some? {
      GetPut(fields, key, change(Get(fields, key).value), other);
    }
  }

  lemma UpdateFixed(fields: seq<Field>, key: string, change: Json -> Json)
    requires Get(fields, key).Some? ==> change(Get(fields, key).value) == Get(fields, key).value
    ensures Update(fields, key, change) == fields
  {
    if Get(fields, key).Some? {
      PutSame(fields, key);
    }
  }

  lemma UpdateTidy(fields: seq<Field>, key: string, change: Json -> Json, banned: set<string>)
    requires TidyFields(fields, banned)
    requires Get(fields, key).Some? && Tidy(Get(fields, key).value, banned) ==>
               Tidy(change(Get(fields, key).value), banned)
    ensures TidyFields(Update(fields, key, change), banned)
  {
    GetField(fields, key);
    if Get(fields, key).Some? {
      var after := Update(fields, key, change);
      PutFields(fields, key, change(Get(fields, key).value));
      forall i | 0 <= i < |after| ensures after[i].key !in banned && Tidy(after[i].value, banned) {
        assert after[i] in after;
      }
    }
  }

  lemma WithoutTidy(fields: seq<Field>, keys: set<string>, banned: set<string>)
    requires TidyFields(fields, banned)
    ensures TidyFields(Without(fields, keys), banned)
  {
    WithoutFields(fields, keys);
    var after := Without(fields, keys);
    forall i | 0 <= i < |after| ensures after[i].key !in banned && Tidy(after[i].value, banned) {
      assert after[i] in after;
    }
  }

  lemma StrippedTidy(value: Json, keys: set<string>, banned: set<string>)
    requires Tidy(value, banned)
    ensures Tidy(Stripped(value, keys), banned)
  {
    if value.Obj? {
      WithoutTidy(value.fields, keys, banned);
    }
  }

  lemma GetTidy(fields: seq<Field>, key: string, banned: set<string>)
    requires TidyFields(fields, banned) && Get(fields, key).Some?
    ensures key !in banned && Tidy(Get(fields, key).value, banned)
  {
    GetField(fields, key);
  }
}
