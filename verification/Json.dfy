/** Decoded JSON values. An object is the list of its members in enumeration order. */
module Json {
  import opened Wrappers

  datatype Value =
    | Null
    | Bool(flag: bool)
    | Num(number: real)
    | Str(text: string)
    | Arr(items: seq<Value>)
    | Obj(members: Members)

  datatype Member = Member(key: string, value: Value)

  type Members = seq<Member>

  /** `object[key]` */
  function Get(members: Members, key: string): Option<Value> {
    if members == [] then None
    else if members[0].key == key then Some(members[0].value)
    else Get(members[1..], key)
  }

  /** `object[key] = value`: in place when the key is there, at the end when it is not. */
  function Set(members: Members, key: string, value: Value): Members {
    if members == [] then [Member(key, value)]
    else if members[0].key == key then [Member(key, value)] + members[1..]
    else [members[0]] + Set(members[1..], key, value)
  }

  lemma {:induction false} GetAfterSet(members: Members, key: string, value: Value, other: string)
    ensures Get(Set(members, key, value), other) == if other == key then Some(value) else Get(members, other)
  {
    if members != [] {
      GetAfterSet(members[1..], key, value, other);
      if members[0].key == key {
        assert Set(members, key, value)[1..] == members[1..];
      } else {
        assert Set(members, key, value)[1..] == Set(members[1..], key, value);
      }
    }
  }

  /** Assigning to a key that is there leaves every key in its place; a new key comes last. */
  lemma {:induction false} SetKeepsPlaces(members: Members, key: string, value: Value)
    ensures var r := Set(members, key, value);
            && (Get(members, key).None? ==> r == members + [Member(key, value)])
            && (Get(members, key).Some? ==>
                  |r| == |members| && forall i :: 0 <= i < |r| ==>
                    r[i].key == members[i].key && (r[i].key != key ==> r[i] == members[i]))
  {
    if members != [] && members[0].key != key {
      SetKeepsPlaces(members[1..], key, value);
    }
  }

  /** What is read is the first member with the key. */
  lemma {:induction false} GetIsFirst(members: Members, key: string)
    ensures match Get(members, key)
            case None => forall i :: 0 <= i < |members| ==> members[i].key != key
            case Some(value) =>
              exists i :: 0 <= i < |members| && members[i] == Member(key, value)
                && forall j :: 0 <= j < i ==> members[j].key != key
  {
    if members != [] {
      if members[0].key == key {
        assert members[0] == Member(key, members[0].value);
      } else {
        var rest := members[1..];
        GetIsFirst(rest, key);
        if Get(rest, key).Some? {
          var i :| 0 <= i < |rest| && rest[i] == Member(key, Get(rest, key).value)
            && forall j :: 0 <= j < i ==> rest[j].key != key;
          assert members[i + 1] == rest[i];
          assert forall j :: 0 <= j < i ==> members[j + 1] == rest[j];
          assert forall j :: 0 < j < i + 1 ==> members[j] == rest[j - 1];
        }
      }
    }
  }

  /** Assigning what is there already changes nothing. */
  lemma {:induction false} SetAgain(members: Members, key: string, value: Value)
    requires Get(members, key) == Some(value)
    ensures Set(members, key, value) == members
  {
    if members[0].key != key {
      SetAgain(members[1..], key, value);
    }
  }

  // ----- children of arrays and objects

  function Width(v: Value): nat {
    match v
    case Arr(items) => |items|
    case Obj(members) => |members|
    case _ => 0
  }

  function Child(v: Value, i: nat): (child: Value)
    requires i < Width(v)
    ensures child < v
  {
    if v.Arr? then v.items[i] else v.members[i].value
  }

  predicate UniqueKeys(members: Members) {
    forall i, j :: 0 <= i < j < |members| ==> members[i].key != members[j].key
  }

  /** No object anywhere in the value has a key twice. */
  predicate Proper(v: Value) {
    && (v.Obj? ==> UniqueKeys(v.members))
    && forall i :: 0 <= i < Width(v) ==> Proper(Child(v, i))
  }

  lemma {:induction false} GetMeans(members: Members, key: string, value: Value)
    requires UniqueKeys(members)
    ensures Get(members, key) == Some(value) <==> Member(key, value) in members
  {
    if members != [] {
      GetMeans(members[1..], key, value);
    }
  }
}
