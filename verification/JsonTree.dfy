/** JSON items as values, and their meaning up to member order. */
module JsonTree {
  datatype Option<+T> = None | Some(value: T)

  /** One cJSON item with its children in list order.  `Invalid` is the item of type 0. */
  datatype Json =
    | Invalid
    | Null
    | True
    | False
    | Number(valueint: int)
    | String(valuestring: string)
    | Array(items: seq<Json>)
    | Object(members: seq<Member>)

  datatype Member = Member(key: string, value: Json)

  /** The abstract value an item denotes: an object is a finite map. */
  datatype Val =
    | VInvalid
    | VNull
    | VTrue
    | VFalse
    | VNumber(n: int)
    | VString(s: string)
    | VArray(elems: seq<Val>)
    | VObject(fields: map<string, Val>)

  function Keys(ms: seq<Member>): set<string> {
    set i | 0 <= i < |ms| :: ms[i].key
  }

  /** Index of the first member with this key. */
  function IndexOf(ms: seq<Member>, k: string): (i: nat)
    requires k in Keys(ms)
    ensures i < |ms| && ms[i].key == k
    ensures forall j | 0 <= j < i :: ms[j].key != k
  {
    if ms[0].key == k then 0
    else
      assert k in Keys(ms[1..]) by {
        var j :| 0 <= j < |ms| && ms[j].key == k;
        assert ms[1..][j-1].key == k;
      }
      1 + IndexOf(ms[1..], k)
  }

  function Sem(j: Json): Val {
    match j
    case Invalid => VInvalid
    case Null => VNull
    case True => VTrue
    case False => VFalse
    case Number(n) => VNumber(n)
    case String(s) => VString(s)
    case Array(items) => VArray(seq(|items|, i requires 0 <= i < |items| => Sem(items[i])))
    case Object(ms) => VObject(map k | k in Keys(ms) :: Sem(ms[IndexOf(ms, k)].value))
  }

  lemma SemKind(j: Json)
    ensures Sem(j).VArray? <==> j.Array?
    ensures Sem(j).VArray? ==> |Sem(j).elems| == |j.items|
    ensures Sem(j).VObject? <==> j.Object?
  {
  }

  ghost predicate DistinctKeys(ms: seq<Member>) {
    forall i, j | 0 <= i < j < |ms| :: ms[i].key != ms[j].key
  }

  /** Every object has distinct keys, and all keys are drawn from `ks`. */
  ghost predicate WellKeyed(j: Json, ks: iset<string>) {
    match j
    case Array(items) => forall i | 0 <= i < |items| :: WellKeyed(items[i], ks)
    case Object(ms) =>
      && DistinctKeys(ms)
      && (forall i | 0 <= i < |ms| :: ms[i].key in ks && WellKeyed(ms[i].value, ks))
    case _ => true
  }

  /** How deep the containers of an item nest; scalars have height 0, empty containers too. */
  function Height(j: Json): nat {
    match j
    case Array(items) => HeightOfItems(items)
    case Object(ms) => HeightOfMembers(ms)
    case _ => 0
  }

  function HeightOfItems(items: seq<Json>): nat {
    if items == [] then 0 else Max(1 + Height(items[0]), HeightOfItems(items[1..]))
  }

  function HeightOfMembers(ms: seq<Member>): nat {
    if ms == [] then 0 else Max(1 + Height(ms[0].value), HeightOfMembers(ms[1..]))
  }

  function Max(a: nat, b: nat): nat { if a < b then b else a }

  lemma DistinctIndex(ms: seq<Member>, i: nat)
    requires DistinctKeys(ms) && i < |ms|
    ensures ms[i].key in Keys(ms) && IndexOf(ms, ms[i].key) == i
  {
    assert ms[i].key in Keys(ms);
    var j := IndexOf(ms, ms[i].key);
    assert ms[j].key == ms[i].key;
  }

  /** Member order does not matter to the meaning. */
  lemma PermutedMembers(a: seq<Member>, b: seq<Member>)
    requires multiset(a) == multiset(b) && DistinctKeys(a)
    ensures DistinctKeys(b) && Sem(Object(a)) == Sem(Object(b))
  {
    PermutationKeepsDistinct(a, b);
    FieldsKeys(a);
    FieldsKeys(b);
    hide Sem, Fields, DistinctKeys;
    forall i | 0 <= i < |b| ensures b[i].key in Fields(a) && Fields(a)[b[i].key] == Sem(b[i].value) {
      assert b[i] in multiset(b);
      var j :| 0 <= j < |a| && a[j] == b[i];
      FieldAt(a, j);
    }
    forall k | k in Fields(a) ensures k in Keys(b) {
      assert a[IndexOf(a, k)] in multiset(a);
      var i :| 0 <= i < |b| && b[i] == a[IndexOf(a, k)];
      assert b[i].key == k;
    }
    FieldsAre(b, Fields(a));
  }

  lemma FieldsKeys(ms: seq<Member>)
    ensures Fields(ms).Keys == Keys(ms) && Sem(Object(ms)) == VObject(Fields(ms))
  {
  }

  lemma PermutationKeepsDistinct(a: seq<Member>, b: seq<Member>)
    requires multiset(a) == multiset(b) && DistinctKeys(a)
    ensures DistinctKeys(b)
  {
    forall i, j | 0 <= i < j < |b| ensures b[i].key != b[j].key {
      assert b[i] in multiset(b) && b[j] in multiset(b);
      assert b[i] in a && b[j] in a;
      DistinctOnce(a, b[i]);
      assert b == b[..j] + [b[j]] + b[j+1..];
      assert b[i] in b[..j] by { assert b[..j][i] == b[i]; }
      assert b[i] != b[j];
    }
  }

  lemma {:induction false} DistinctOnce(a: seq<Member>, m: Member)
    requires DistinctKeys(a)
    ensures multiset(a)[m] <= 1
  {
    if a != [] {
      assert a == [a[0]] + a[1..];
      DistinctOnce(a[1..], m);
      assert a[0] !in a[1..];
    }
  }

  /** The bindings a member list denotes. */
  function Fields(ms: seq<Member>): map<string, Val> {
    Sem(Object(ms)).fields
  }

  function Without<T>(s: seq<T>, i: nat): seq<T>
    requires i < |s|
  {
    s[..i] + s[i+1..]
  }

  lemma FieldAt(ms: seq<Member>, i: nat)
    requires DistinctKeys(ms) && i < |ms|
    ensures ms[i].key in Fields(ms) && Fields(ms)[ms[i].key] == Sem(ms[i].value)
  {
    DistinctIndex(ms, i);
  }

  /** Two distinct-key lists with these bindings denote these maps. */
  lemma FieldsAre(ms: seq<Member>, m: map<string, Val>)
    requires DistinctKeys(ms)
    requires forall i | 0 <= i < |ms| :: ms[i].key in m && m[ms[i].key] == Sem(ms[i].value)
    requires forall k | k in m :: k in Keys(ms)
    ensures Fields(ms) == m
  {
    forall k | k in Keys(ms) ensures k in m && Fields(ms)[k] == m[k] {
      assert ms[IndexOf(ms, k)].key == k;
    }
    assert Fields(ms).Keys == Keys(ms) == m.Keys;
  }

  lemma FieldsWithout(ms: seq<Member>, i: nat)
    requires DistinctKeys(ms) && i < |ms|
    ensures DistinctKeys(Without(ms, i)) && Fields(Without(ms, i)) == Fields(ms) - {ms[i].key}
  {
    var r := Without(ms, i);
    KeysWithout(ms, i);
    FieldsKeys(ms);
    forall j | 0 <= j < |r| ensures r[j].key in Fields(ms) && Fields(ms)[r[j].key] == Sem(r[j].value) {
      assert r[j] == ms[if j < i then j else j + 1];
      FieldAt(ms, if j < i then j else j + 1);
    }
    hide Sem, Fields, Without, DistinctKeys, Keys;
    FieldsAre(r, Fields(ms) - {ms[i].key});
  }

  lemma KeysWithout(ms: seq<Member>, i: nat)
    requires DistinctKeys(ms) && i < |ms|
    ensures DistinctKeys(Without(ms, i)) && Keys(Without(ms, i)) == Keys(ms) - {ms[i].key}
    ensures forall j | 0 <= j < |Without(ms, i)| :: Without(ms, i)[j].key in Keys(ms) - {ms[i].key}
  {
    var r := Without(ms, i);
    forall k | k in Keys(ms) - {ms[i].key} ensures k in Keys(r) {
      var j := IndexOf(ms, k);
      assert r[if j < i then j else j - 1].key == k;
    }
    forall j | 0 <= j < |r| ensures r[j].key in Keys(ms) - {ms[i].key} {
      assert r[j] == ms[if j < i then j else j + 1];
    }
  }

  lemma FieldsAppend(ms: seq<Member>, m: Member)
    requires DistinctKeys(ms) && m.key !in Keys(ms)
    ensures DistinctKeys(ms + [m]) && Fields(ms + [m]) == Fields(ms)[m.key := Sem(m.value)]
  {
    var r := ms + [m];
    forall j | 0 <= j < |ms| ensures r[j].key != m.key && r[j].key in Fields(ms) && Fields(ms)[r[j].key] == Sem(r[j].value) {
      assert ms[j].key in Keys(ms);
      FieldAt(ms, j);
    }
    forall k | k in Fields(ms)[m.key := Sem(m.value)] ensures k in Keys(r) {
      if k == m.key { assert r[|ms|].key == k; } else { assert r[IndexOf(ms, k)].key == k; }
    }
    FieldsAre(r, Fields(ms)[m.key := Sem(m.value)]);
  }

  lemma RemoveThenAdd(m: map<string, Val>, k: string)
    requires k in m
    ensures m == (m - {k})[k := m[k]]
  {
  }

  lemma FieldsTail(ms: seq<Member>)
    requires DistinctKeys(ms) && ms != []
    ensures DistinctKeys(ms[1..]) && ms[0].key !in Keys(ms[1..])
    ensures Fields(ms) == Fields(ms[1..])[ms[0].key := Sem(ms[0].value)]
    ensures Fields(ms[1..]) == Fields(ms) - {ms[0].key}
  {
    assert Without(ms, 0) == ms[1..];
    FieldsWithout(ms, 0);
    FieldAt(ms, 0);
    RemoveThenAdd(Fields(ms), ms[0].key);
  }

  lemma WellKeyedTail(ms: seq<Member>, ks: iset<string>)
    requires WellKeyed(Object(ms), ks) && ms != []
    ensures WellKeyed(Object(ms[1..]), ks) && WellKeyed(ms[0].value, ks) && ms[0].key in ks
  {
  }

  lemma WellKeyedWithout(ms: seq<Member>, i: nat, ks: iset<string>)
    requires WellKeyed(Object(ms), ks) && i < |ms|
    ensures WellKeyed(Object(Without(ms, i)), ks) && ms[i].key !in Keys(Without(ms, i))
    ensures Fields(Without(ms, i)) == Fields(ms) - {ms[i].key}
  {
    KeysWithout(ms, i);
    FieldsWithout(ms, i);
    hide DistinctKeys, Fields, Keys;
    var r := Without(ms, i);
    forall j | 0 <= j < |r| ensures WellKeyed(r[j].value, ks) && r[j].key in ks {
      assert r[j] == ms[if j < i then j else j + 1];
    }
    hide Without;
  }

  lemma WellKeyedAppend(ms: seq<Member>, m: Member, ks: iset<string>)
    requires WellKeyed(Object(ms), ks) && WellKeyed(m.value, ks) && m.key in ks && m.key !in Keys(ms)
    ensures WellKeyed(Object(ms + [m]), ks) && Fields(ms + [m]) == Fields(ms)[m.key := Sem(m.value)]
  {
    FieldsAppend(ms, m);
  }

  lemma WellKeyedCons(m: Member, ms: seq<Member>, ks: iset<string>)
    requires WellKeyed(Object(ms), ks) && WellKeyed(m.value, ks) && m.key in ks && m.key !in Keys(ms)
    ensures WellKeyed(Object([m] + ms), ks) && Fields([m] + ms) == Fields(ms)[m.key := Sem(m.value)]
    ensures Keys([m] + ms) == Keys(ms) + {m.key}
  {
    var r := [m] + ms;
    KeyedCons(m, ms, ks);
    assert r[1..] == ms;
    FieldsTail(r);
    FieldsKeys(r);
    FieldsKeys(ms);
    hide Sem, Fields, Keys, WellKeyed, DistinctKeys;
  }

  lemma KeyedCons(m: Member, ms: seq<Member>, ks: iset<string>)
    requires WellKeyed(Object(ms), ks) && WellKeyed(m.value, ks) && m.key in ks && m.key !in Keys(ms)
    ensures WellKeyed(Object([m] + ms), ks) && DistinctKeys([m] + ms)
  {
    forall j | 0 <= j < |ms| ensures ms[j].key != m.key { assert ms[j].key in Keys(ms); }
    hide Keys;
  }
}
