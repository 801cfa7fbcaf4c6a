/** The tail of a child list: what the `prev` of its first child is.  Appending relies on it, and sorting a list in place
    does not keep it. */
module ListTail {
  /** The child at an index, no child, or an item that is no longer in the list. */
  datatype Tail = AtChild(index: nat) | NoChild | Gone

  /** The tail that appending needs. */
  predicate AtEnd<T>(s: seq<T>, tail: Tail) {
    s == [] || tail == AtChild(|s| - 1)
  }

  /** Appending has a defined meaning: the tail is no item that is gone. */
  predicate Defined<T>(s: seq<T>, tail: Tail) {
    s == [] || tail == NoChild || (tail.AtChild? && tail.index < |s|)
  }

  /** `add_item_to_array`: what is appended stands behind the tail, and cuts off what was there; without a tail nothing
      is appended. */
  function Appended<T>(s: seq<T>, tail: Tail, x: T): (seq<T>, Tail)
    requires s != [] && tail.AtChild? ==> tail.index < |s|
  {
    if s == [] then ([x], AtChild(0))
    else if tail.AtChild? then (s[..tail.index + 1] + [x], AtChild(tail.index + 1))
    else (s, tail)
  }

  /** The tail of a list of `n` children after the one at `i` was detached. */
  function DetachTail(n: nat, tail: Tail, i: nat): Tail
    requires i < n
  {
    if n == 1 then NoChild
    else if 0 < i == n - 1 then AtChild(n - 2)
    else if tail.AtChild? then
      if tail.index == i then Gone else if tail.index < i then tail else AtChild(tail.index - 1)
    else tail
  }

  /** Where an element stands. */
  function Position<T(==)>(s: seq<T>, x: T): (i: nat)
    requires x in s
    ensures i < |s| && s[i] == x
  {
    if s[0] == x then 0 else 1 + Position(s[1..], x)
  }

  /** The tail after the elements of `s` were put in the order `t`: only a first child that stays first keeps it. */
  function SortedTail<T(==)>(s: seq<T>, tail: Tail, t: seq<T>): Tail
    requires multiset(s) == multiset(t) && (tail.AtChild? ==> tail.index < |s|)
  {
    if s == [] then tail
    else
      assert |multiset(s)| == |multiset(t)|;
      if t[0] != s[0] then NoChild
      else if tail.AtChild? then
        assert s[tail.index] in multiset(t);
        AtChild(Position(t, s[tail.index]))
      else tail
  }

  /** Detaching leaves a list that ends at its tail if it did before, or if its last child was detached. */
  lemma EndAfterDetach(n: nat, tail: Tail, i: nat)
    requires i < n && tail != Gone && (tail.AtChild? ==> tail.index < n)
    ensures n > 1 ==> (DetachTail(n, tail, i) == AtChild(n - 2) <==> i == n - 1 || tail == AtChild(n - 1))
  {
  }
}
