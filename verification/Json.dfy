/** JSON values as the repository keeps them: an ordered table that allows duplicate
    keys (`table_of`), an ordered list (`vector_of`) and four scalar kinds. */
module Json {

  datatype Option<+T> = None | Some(value: T) {
    predicate IsFailure() {
      None?
    }

    function PropagateFailure<U>(): Option<U>
      requires None?
    {
      None
    }

    function Extract(): T
      requires Some?
    {
      value
    }
  }

  datatype Member = Member(key: string, value: Value)

  datatype Value =
    | Object(members: seq<Member>)
    | Array(items: seq<Value>)
    | Str(text: string)
    | Decimal(decimal: real)
    | Integer(integer: int)
    | Boolean(flag: bool)
  {
    predicate Scalar() {
      !Object? && !Array?
    }
  }

  type Table = seq<Member>

  /** `at`: the value of the first member with the key; None stands for std::out_of_range. */
  function At(t: Table, key: string): Option<Value> {
    if t == [] then None
    else if t[0].key == key then Some(t[0].value)
    else At(t[1..], key)
  }

  /** A value is found if and only if the key occurs, and it is the value of the first
      occurrence. */
  lemma {:induction false} AtFinds(t: Table, key: string)
    ensures At(t, key).None? <==> forall i :: 0 <= i < |t| ==> t[i].key != key
    ensures At(t, key).Some? ==>
      exists i :: 0 <= i < |t| && t[i] == Member(key, At(t, key).value) && forall j :: 0 <= j < i ==> t[j].key != key
  {
    if t == [] {
    } else if t[0].key == key {
      assert t[0] == Member(key, At(t, key).value);
    } else {
      AtFinds(t[1..], key);
      assert forall i :: 0 < i < |t| ==> t[i] == t[1..][i - 1];
      assert forall i :: 0 <= i < |t| - 1 ==> t[1..][i] == t[i + 1];
      if At(t, key).Some? {
        var i :| 0 <= i < |t| - 1 && t[1..][i] == Member(key, At(t, key).value)
          && forall j :: 0 <= j < i ==> t[1..][j].key != key;
        assert t[i + 1] == Member(key, At(t, key).value);
      }
    }
  }

  function Count(t: Table, key: string): nat {
    if t == [] then 0
    else (if t[0].key == key then 1 else 0) + Count(t[1..], key)
  }

  /** Assignment through `operator[]`: the first member with the key is overwritten,
      a missing key is appended. */
  function Put(t: Table, key: string, v: Value): Table {
    if t == [] then [Member(key, v)]
    else if t[0].key == key then [Member(key, v)] + t[1..]
    else [t[0]] + Put(t[1..], key, v)
  }

  /** `delete_at` on a table that has the key: its first member with the key is erased. */
  function DeleteAt(t: Table, key: string): Table {
    if t == [] then []
    else if t[0].key == key then t[1..]
    else [t[0]] + DeleteAt(t[1..], key)
  }

  predicate DistinctKeys(t: Table) {
    forall i, j :: 0 <= i < j < |t| ==> t[i].key != t[j].key
  }

  /** `value_as<std::string>(key)`: None when the key is missing or the value is not a string. */
  function StringAt(t: Table, key: string): Option<string> {
    match At(t, key)
    case Some(Str(s)) => Some(s)
    case _ => None
  }

  /** `value_as<array_t>(key)`. */
  function ArrayAt(t: Table, key: string): (r: Option<seq<Value>>)
    ensures r.Some? ==> exists i :: 0 <= i < |t| && t[i].value == Array(r.value)
  {
    AtFinds(t, key);
    match At(t, key)
    case Some(Array(items)) => Some(items)
    case _ => None
  }

  /** `value_as<object_t>(key)`. */
  function ObjectAt(t: Table, key: string): Option<Table> {
    match At(t, key)
    case Some(Object(members)) => Some(members)
    case _ => None
  }

  lemma {:induction false} AtAppend(t: Table, u: Table, key: string)
    ensures At(t + u, key) == if At(t, key).Some? then At(t, key) else At(u, key)
  {
    if t == [] {
      assert t + u == u;
    } else {
      assert (t + u)[1..] == t[1..] + u;
      AtAppend(t[1..], u, key);
    }
  }

  lemma {:induction false} CountAppend(t: Table, u: Table, key: string)
    ensures Count(t + u, key) == Count(t, key) + Count(u, key)
  {
    if t == [] {
      assert t + u == u;
    } else {
      assert (t + u)[1..] == t[1..] + u;
      CountAppend(t[1..], u, key);
    }
  }

  /** Lookups in short tables, spelled out. */
  lemma LookupOne(m: Member, key: string)
    ensures At([m], key) == if m.key == key then Some(m.value) else None
    ensures Count([m], key) == if m.key == key then 1 else 0
  {
  }

  lemma LookupTwo(t: Table, key: string)
    requires |t| == 2
    ensures At(t, key) == if t[0].key == key then Some(t[0].value) else if t[1].key == key then Some(t[1].value) else None
    ensures Count(t, key) == (if t[0].key == key then 1 else 0) + (if t[1].key == key then 1 else 0)
  {
    assert t[1..][1..] == [];
    assert At(t[1..], key) == if t[1].key == key then Some(t[1].value) else None;
    assert Count(t[1..], key) == if t[1].key == key then 1 else 0;
  }

  lemma LookupThree(t: Table, key: string)
    requires |t| == 3
    ensures At(t, key) == if t[0].key == key then Some(t[0].value) else
      if t[1].key == key then Some(t[1].value) else if t[2].key == key then Some(t[2].value) else None
    ensures Count(t, key) ==
      (if t[0].key == key then 1 else 0) + (if t[1].key == key then 1 else 0) + (if t[2].key == key then 1 else 0)
  {
    LookupTwo(t[1..], key);
  }

  lemma LookupFour(t: Table, key: string)
    requires |t| == 4
    ensures At(t, key) == if t[0].key == key then Some(t[0].value) else if t[1].key == key then Some(t[1].value)
      else if t[2].key == key then Some(t[2].value) else if t[3].key == key then Some(t[3].value) else None
    ensures Count(t, key) == (if t[0].key == key then 1 else 0) + (if t[1].key == key then 1 else 0)
      + (if t[2].key == key then 1 else 0) + (if t[3].key == key then 1 else 0)
  {
    LookupThree(t[1..], key);
  }

  lemma {:induction false} CountZero(t: Table, key: string)
    ensures Count(t, key) == 0 <==> At(t, key).None?
  {
    if t != [] {
      CountZero(t[1..], key);
    }
  }

  /** Assigning a key and then reading: the assigned key gives the new value, every other
      key what it gave before; a key that was present keeps the table's length. */
  lemma {:induction false} AtPut(t: Table, key: string, v: Value, other: string)
    ensures At(Put(t, key, v), key) == Some(v)
    ensures other != key ==> At(Put(t, key, v), other) == At(t, other)
    ensures Count(Put(t, key, v), key) == if Count(t, key) == 0 then 1 else Count(t, key)
    ensures |Put(t, key, v)| == if Count(t, key) == 0 then |t| + 1 else |t|
  {
    if t == [] {
    } else if t[0].key == key {
      assert ([Member(key, v)] + t[1..])[1..] == t[1..];
    } else {
      AtPut(t[1..], key, v, other);
      assert ([t[0]] + Put(t[1..], key, v))[1..] == Put(t[1..], key, v);
    }
  }

  lemma {:induction false} PutTwice(t: Table, key: string, v: Value, w: Value)
    ensures Put(Put(t, key, v), key, w) == Put(t, key, w)
  {
    if t == [] {
    } else if t[0].key == key {
      assert ([Member(key, v)] + t[1..])[1..] == t[1..];
    } else {
      PutTwice(t[1..], key, v, w);
      assert ([t[0]] + Put(t[1..], key, v))[1..] == Put(t[1..], key, v);
    }
  }

  /** Two assignments to different keys commute when one of the keys is already there. */
  lemma {:induction false} PutCommutes(t: Table, key: string, v: Value, other: string, w: Value)
    requires key != other && At(t, other).Some?
    ensures Put(Put(t, key, v), other, w) == Put(Put(t, other, w), key, v)
  {
    if t[0].key == key {
      assert ([Member(key, v)] + t[1..])[1..] == t[1..];
      assert ([t[0]] + Put(t[1..], other, w))[1..] == Put(t[1..], other, w);
    } else if t[0].key == other {
      assert ([Member(other, w)] + t[1..])[1..] == t[1..];
      assert ([t[0]] + Put(t[1..], key, v))[1..] == Put(t[1..], key, v);
    } else {
      PutCommutes(t[1..], key, v, other, w);
      assert ([t[0]] + Put(t[1..], key, v))[1..] == Put(t[1..], key, v);
      assert ([t[0]] + Put(t[1..], other, w))[1..] == Put(t[1..], other, w);
    }
  }

  lemma {:induction false} PutSame(t: Table, key: string)
    requires At(t, key).Some?
    ensures Put(t, key, At(t, key).value) == t
  {
    if t[0].key != key {
      PutSame(t[1..], key);
    }
  }

  /** A missing key is appended. */
  lemma {:induction false} PutMissing(t: Table, key: string, v: Value)
    requires At(t, key).None?
    ensures Put(t, key, v) == t + [Member(key, v)]
  {
    if t != [] {
      PutMissing(t[1..], key, v);
    }
  }

  /** Erasing undoes appending a new key. */
  lemma {:induction false} DeleteAppended(t: Table, key: string, v: Value)
    requires At(t, key).None?
    ensures DeleteAt(t + [Member(key, v)], key) == t
  {
    if t != [] {
      assert (t + [Member(key, v)])[1..] == t[1..] + [Member(key, v)];
      DeleteAppended(t[1..], key, v);
    }
  }

  /** A typed lookup finds a value of its type and no other. */
  lemma TypedLookups(t: Table, key: string)
    ensures forall s :: StringAt(t, key) == Some(s) <==> At(t, key) == Some(Str(s))
    ensures forall items :: ArrayAt(t, key) == Some(items) <==> At(t, key) == Some(Array(items))
    ensures forall members :: ObjectAt(t, key) == Some(members) <==> At(t, key) == Some(Object(members))
  {
  }

  /** The place of a key: its first member. */
  predicate FirstAt(t: Table, key: string, i: nat)
    requires i < |t|
  {
    t[i].key == key && forall j :: 0 <= j < i ==> t[j].key != key
  }

  /** Assigning writes at that place, erasing closes it, everything else stays. */
  lemma {:induction false} AtItsPlace(t: Table, key: string, v: Value, i: nat)
    requires i < |t| && FirstAt(t, key, i)
    ensures At(t, key) == Some(t[i].value)
    ensures Put(t, key, v) == t[i := Member(key, v)]
    ensures DeleteAt(t, key) == t[..i] + t[i + 1..]
  {
    if i > 0 {
      assert t[0].key != key;
      AtItsPlace(t[1..], key, v, i - 1);
      assert t == [t[0]] + t[1..];
    }
  }

  /** No other member has the key. */
  predicate OnlyAt(t: Table, key: string, i: nat)
    requires i < |t|
  {
    t[i].key == key && forall j :: 0 <= j < |t| && j != i ==> t[j].key != key
  }

  lemma {:induction false} CountOnly(t: Table, key: string)
    ensures Count(t, key) == 1 <==> exists i: nat :: i < |t| && OnlyAt(t, key, i)
  {
    if t != [] {
      var rest := t[1..];
      CountOnly(rest, key);
      CountZero(rest, key);
      AtFinds(rest, key);
      assert t == [t[0]] + rest;
      if t[0].key == key {
        assert Count(rest, key) == 0 <==> OnlyAt(t, key, 0);
        assert forall i: nat :: i < |t| && OnlyAt(t, key, i) ==> i == 0;
      } else {
        forall i: nat | i < |rest|
          ensures OnlyAt(rest, key, i) <==> OnlyAt(t, key, i + 1)
        {
          if OnlyAt(t, key, i + 1) {
            assert forall j :: 0 <= j < |rest| ==> rest[j] == t[j + 1];
          }
        }
        if i: nat :| i < |t| && OnlyAt(t, key, i) {
          assert i > 0 && OnlyAt(rest, key, i - 1);
        }
      }
    }
  }
}
