/** The mergesort of `sort_list`, on the sequence of list elements. */
module MergeSort {
  import opened CString
  import opened JsonTree

  predicate Ascending<T>(s: seq<T>, key: T -> string) {
    forall i | 0 < i < |s| :: Less(key(s[i-1]), key(s[i]))
  }

  /** No element comes before a smaller one. */
  ghost predicate Ordered<T>(s: seq<T>, key: T -> string) {
    forall i, j | 0 <= i < j < |s| :: !Less(key(s[j]), key(s[i]))
  }

  function Merge<T>(a: seq<T>, b: seq<T>, key: T -> string): (r: seq<T>)
    ensures multiset(r) == multiset(a) + multiset(b)
  {
    if a == [] then b
    else if b == [] then a
    else if Less(key(a[0]), key(b[0])) then
      assert a == [a[0]] + a[1..];
      [a[0]] + Merge(a[1..], b, key)
    else
      assert b == [b[0]] + b[1..];
      [b[0]] + Merge(a, b[1..], key)
  }

  /** Split in the middle (the first half is the longer one), sort both halves, merge;
      an ascending list is left as it is. */
  function Sort<T>(s: seq<T>, key: T -> string): (r: seq<T>)
    ensures multiset(r) == multiset(s)
    decreases |s|
  {
    if |s| <= 1 || Ascending(s, key) then s
    else
      var h := (|s| + 1) / 2;
      assert s == s[..h] + s[h..];
      Merge(Sort(s[..h], key), Sort(s[h..], key), key)
  }

  lemma SortUnfolds<T>(s: seq<T>, key: T -> string)
    ensures |s| <= 1 || Ascending(s, key) ==> Sort(s, key) == s
    ensures var h := (|s| + 1) / 2;
      |s| > 1 && !Ascending(s, key) ==> Sort(s, key) == Merge(Sort(s[..h], key), Sort(s[h..], key), key)
  {
  }

  lemma {:induction false} AscendingIsStrict<T>(s: seq<T>, key: T -> string, i: nat, j: nat)
    requires Ascending(s, key) && i < j < |s|
    ensures Less(key(s[i]), key(s[j]))
  {
    if i < j - 1 {
      AscendingIsStrict(s, key, i, j - 1);
      LessTransitive(key(s[i]), key(s[j-1]), key(s[j]));
    }
  }

  lemma NotLessTransitive(a: string, b: string, c: string)
    requires !Less(b, a) && !Less(c, b)
    ensures !Less(c, a)
  {
    LessTotal(a, b);
    LessTotal(b, c);
    if Less(a, b) && Less(b, c) {
      LessTransitive(a, b, c);
      LessAsymmetric(a, c);
    }
  }

  /** Everything in `s` is at least the string `k`. */
  ghost predicate AtLeast<T>(s: seq<T>, key: T -> string, k: string) {
    forall x | x in s :: !Less(key(x), k)
  }

  lemma HeadAtLeast<T>(s: seq<T>, key: T -> string, k: string)
    requires Ordered(s, key) && (s != [] ==> !Less(key(s[0]), k))
    ensures AtLeast(s, key, k)
  {
    forall x | x in s ensures !Less(key(x), k) {
      var i :| 0 <= i < |s| && s[i] == x;
      if i > 0 { NotLessTransitive(k, key(s[0]), key(x)); }
    }
  }

  lemma ConsOrdered<T>(x: T, s: seq<T>, key: T -> string)
    requires Ordered(s, key) && AtLeast(s, key, key(x))
    ensures Ordered([x] + s, key)
  {
    var r := [x] + s;
    forall i, j | 0 <= i < j < |r| ensures !Less(key(r[j]), key(r[i])) {
      assert r[j] == s[j-1] && s[j-1] in s;
      if i > 0 { assert r[i] == s[i-1]; }
    }
  }

  lemma {:induction false} MergeOrdered<T>(a: seq<T>, b: seq<T>, key: T -> string)
    requires Ordered(a, key) && Ordered(b, key)
    ensures Ordered(Merge(a, b, key), key)
  {
    if a != [] && b != [] {
      var x := if Less(key(a[0]), key(b[0])) then a[0] else b[0];
      var a', b' := if Less(key(a[0]), key(b[0])) then a[1..] else a, if Less(key(a[0]), key(b[0])) then b else b[1..];
      LessAsymmetricOrEqual(key(a[0]), key(b[0]));
      LessAsymmetricOrEqual(key(x), key(x));
      HeadAtLeast(a, key, key(x));
      HeadAtLeast(b, key, key(x));
      MergeOrdered(a', b', key);
      var m := Merge(a', b', key);
      forall y | y in m ensures !Less(key(y), key(x)) {
        assert y in multiset(m);
        assert y in a' || y in b';
      }
      ConsOrdered(x, m, key);
    }
  }

  lemma LessAsymmetricOrEqual(a: string, b: string)
    ensures Less(a, b) ==> !Less(b, a)
    ensures a == b ==> !Less(a, b)
  {
    if Less(a, b) { LessAsymmetric(a, b); }
  }

  /** `sort_list` returns an ordered list; that it is a permutation is in the contract of `Sort`. */
  lemma {:induction false} SortOrdered<T>(s: seq<T>, key: T -> string)
    ensures Ordered(Sort(s, key), key)
    decreases |s|
  {
    if |s| <= 1 {
    } else if Ascending(s, key) {
      forall i, j | 0 <= i < j < |s| ensures !Less(key(s[j]), key(s[i])) {
        AscendingIsStrict(s, key, i, j);
        LessAsymmetric(key(s[i]), key(s[j]));
      }
    } else {
      var h := (|s| + 1) / 2;
      SortOrdered(s[..h], key);
      SortOrdered(s[h..], key);
      MergeOrdered(Sort(s[..h], key), Sort(s[h..], key), key);
    }
  }

  function SortMembers(ms: seq<Member>, caseSensitive: bool): seq<Member> {
    Sort(ms, (m: Member) => SortKey(m.key, caseSensitive))
  }

  /** No two of these keys become equal when case is folded. */
  ghost predicate FoldInjective(ks: iset<string>) {
    forall a, b | a in ks && b in ks && Fold(a) == Fold(b) :: a == b
  }

  /** The case mode tells these keys apart. */
  ghost predicate Separates(caseSensitive: bool, ks: iset<string>) {
    caseSensitive || FoldInjective(ks)
  }

  ghost predicate KeysFrom(ms: seq<Member>, ks: iset<string>) {
    forall i | 0 <= i < |ms| :: ms[i].key in ks
  }

  /** Sorted for the mode: each key comes strictly before all later ones. */
  ghost predicate Increasing(ms: seq<Member>, cs: bool) {
    forall i, j | 0 <= i < j < |ms| :: Less(SortKey(ms[i].key, cs), SortKey(ms[j].key, cs))
  }

  /** Sorting the members of an object keeps its meaning and orders its keys strictly. */
  lemma SortMembersSound(ms: seq<Member>, cs: bool, ks: iset<string>)
    requires DistinctKeys(ms) && KeysFrom(ms, ks) && Separates(cs, ks)
    ensures var r := SortMembers(ms, cs);
      multiset(r) == multiset(ms) && DistinctKeys(r) && KeysFrom(r, ks) && Increasing(r, cs)
      && Sem(Object(r)) == Sem(Object(ms))
  {
    var key := (m: Member) => SortKey(m.key, cs);
    var r := Sort(ms, key);
    assert r == SortMembers(ms, cs);
    PermutedMembers(ms, r);
    SortOrdered(ms, key);
    forall i | 0 <= i < |r| ensures r[i].key in ks {
      assert r[i] in multiset(r);
      assert r[i] in ms;
    }
    forall i, j | 0 <= i < j < |r| ensures Less(SortKey(r[i].key, cs), SortKey(r[j].key, cs)) {
      assert !Less(key(r[j]), key(r[i]));
      LessTotal(key(r[i]), key(r[j]));
      assert r[i].key != r[j].key;
    }
  }

  // ----- sorting one or two elements

  lemma SortOne<T>(a: T, key: T -> string)
    ensures Sort([a], key) == [a]
  {
  }

  lemma SortTwo<T>(a: T, b: T, key: T -> string)
    ensures Sort([a, b], key) == if Less(key(a), key(b)) then [a, b] else [b, a]
  {
    hide Less, Merge, Ascending;
    var s := [a, b];
    AscendingPair(s, key);
    if !Less(key(a), key(b)) {
      assert s[..1] == [a] && s[1..] == [b];
      SortOne(a, key);
      SortOne(b, key);
      MergeTwins(a, b, key);
    }
  }

  lemma AscendingPair<T>(s: seq<T>, key: T -> string)
    requires |s| == 2
    ensures Ascending(s, key) <==> Less(key(s[0]), key(s[1]))
  {
    hide Less;
  }

  lemma MergeTwins<T>(a: T, b: T, key: T -> string)
    requires !Less(key(a), key(b))
    ensures Merge([a], [b], key) == [b, a]
  {
    assert [b][1..] == [];
    assert Merge([a], [], key) == [a];
  }

  lemma SortedPair(a: Member, b: Member, cs: bool)
    ensures SortMembers([a, b], cs) == if Less(SortKey(a.key, cs), SortKey(b.key, cs)) then [a, b] else [b, a]
  {
    hide Less, Sort;
    SortTwo(a, b, (m: Member) => SortKey(m.key, cs));
  }

  lemma SortedOne(m: Member, cs: bool)
    ensures SortMembers([m], cs) == [m]
  {
  }
}
