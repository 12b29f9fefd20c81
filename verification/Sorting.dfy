/** Stable sorting by a key, as Python's sorted does it. Keys are pairs of a number and a string,
    compared lexicographically. */
module Sorting {

  datatype Key = Key(rank: int, name: string)

  /** Sorting by name alone. */
  function NameKey(name: string): Key {
    Key(0, name)
  }

  /** Lexicographic order of strings by code point. */
  predicate StringLe(a: string, b: string) {
    a == "" || (b != "" && (a[0] < b[0] || (a[0] == b[0] && StringLe(a[1..], b[1..]))))
  }

  predicate KeyLe(a: Key, b: Key) {
    a.rank < b.rank || (a.rank == b.rank && StringLe(a.name, b.name))
  }

  lemma {:induction false} StringLeTotal(a: string, b: string)
    ensures StringLe(a, b) || StringLe(b, a)
    ensures StringLe(a, b) && StringLe(b, a) ==> a == b
    decreases |a|
  {
    if a != "" && b != "" && a[0] == b[0] {
      StringLeTotal(a[1..], b[1..]);
      assert a == [a[0]] + a[1..] && b == [b[0]] + b[1..];
    }
  }

  lemma {:induction false} StringLeTransitive(a: string, b: string, c: string)
    requires StringLe(a, b) && StringLe(b, c)
    ensures StringLe(a, c)
    decreases |a|
  {
    if a != "" && a[0] == b[0] && b[0] == c[0] {
      StringLeTransitive(a[1..], b[1..], c[1..]);
    }
  }

  /** A string comes before another if it is a prefix of it or smaller where they first differ. */
  lemma {:induction false} StringLeMeans(a: string, b: string)
    ensures StringLe(a, b) <==> a <= b || exists k :: 0 <= k < |a| && k < |b| && SmallerAt(a, b, k)
    decreases |a|
  {
    if a != "" && b != "" {
      if a[0] == b[0] {
        var x, y := a[1..], b[1..];
        StringLeMeans(x, y);
        assert a == [a[0]] + x && b == [b[0]] + y;
        if k :| 0 <= k < |x| && k < |y| && SmallerAt(x, y, k) {
          assert a[..k + 1] == [a[0]] + x[..k] && b[..k + 1] == [b[0]] + y[..k];
          assert SmallerAt(a, b, k + 1);
        }
        if k :| 0 <= k < |a| && k < |b| && SmallerAt(a, b, k) {
          assert k > 0 && x[..k - 1] == a[..k][1..] && y[..k - 1] == b[..k][1..];
          assert SmallerAt(x, y, k - 1);
        }
      } else {
        assert a[0] < b[0] ==> SmallerAt(a, b, 0);
        if k :| 0 <= k < |a| && k < |b| && SmallerAt(a, b, k) {
          if k > 0 { assert a[..k][0] == b[..k][0]; }
        }
      }
    }
  }

  ghost predicate SmallerAt(a: string, b: string, k: nat)
    requires k < |a| && k < |b|
  {
    a[..k] == b[..k] && a[k] < b[k]
  }

  lemma KeyLeTotal(a: Key, b: Key)
    ensures KeyLe(a, b) || KeyLe(b, a)
    ensures KeyLe(a, b) && KeyLe(b, a) ==> a == b
  {
    StringLeTotal(a.name, b.name);
  }

  lemma KeyLeTransitive(a: Key, b: Key, c: Key)
    requires KeyLe(a, b) && KeyLe(b, c)
    ensures KeyLe(a, c)
  {
    if a.rank == b.rank == c.rank { StringLeTransitive(a.name, b.name, c.name); }
  }

  /** Inserts x after everything whose key is not larger, so that equal keys keep their order. */
  function Insert<T>(s: seq<T>, x: T, key: T -> Key): seq<T> {
    if s == [] then [x]
    else
      var n := |s| - 1;
      if KeyLe(key(s[n]), key(x)) then s + [x] else Insert(s[..n], x, key) + [s[n]]
  }

  function SortBy<T>(s: seq<T>, key: T -> Key): seq<T> {
    if s == [] then [] else Insert(SortBy(s[..|s| - 1], key), s[|s| - 1], key)
  }

  predicate Sorted<T>(s: seq<T>, key: T -> Key) {
    forall i, j :: 0 <= i < j < |s| ==> KeyLe(key(s[i]), key(s[j]))
  }

  lemma SplitLast<T>(s: seq<T>)
    requires s != []
    ensures multiset(s) == multiset(s[..|s| - 1]) + multiset{s[|s| - 1]}
  {
    assert s == s[..|s| - 1] + [s[|s| - 1]];
  }

  lemma {:induction false} InsertAdds<T>(s: seq<T>, x: T, key: T -> Key)
    ensures multiset(Insert(s, x, key)) == multiset(s) + multiset{x}
    decreases |s|
  {
    if s != [] {
      SplitLast(s);
      InsertAdds(s[..|s| - 1], x, key);
    }
  }

  predicate AllBelow<T>(s: seq<T>, bound: Key, key: T -> Key) {
    forall i :: 0 <= i < |s| ==> KeyLe(key(s[i]), bound)
  }

  lemma {:induction false} InsertSorts<T>(s: seq<T>, x: T, key: T -> Key)
    requires Sorted(s, key)
    ensures Sorted(Insert(s, x, key), key)
    ensures forall bound :: AllBelow(s, bound, key) && KeyLe(key(x), bound) ==> AllBelow(Insert(s, x, key), bound, key)
    decreases |s|
  {
    if s != [] {
      var n := |s| - 1;
      if KeyLe(key(s[n]), key(x)) {
        forall i | 0 <= i < |s| ensures KeyLe(key(s[i]), key(x)) {
          if i < n { KeyLeTransitive(key(s[i]), key(s[n]), key(x)); }
        }
      } else {
        InsertSorts(s[..n], x, key);
        KeyLeTotal(key(s[n]), key(x));
        assert AllBelow(Insert(s[..n], x, key), key(s[n]), key);
        forall bound | AllBelow(s, bound, key) && KeyLe(key(x), bound)
          ensures AllBelow(Insert(s, x, key), bound, key)
        {
          assert AllBelow(s[..n], bound, key);
        }
      }
    }
  }

  lemma {:induction false} SortBySorts<T>(s: seq<T>, key: T -> Key)
    ensures Sorted(SortBy(s, key), key)
    ensures multiset(SortBy(s, key)) == multiset(s)
    decreases |s|
  {
    if s != [] {
      var n := |s| - 1;
      SortBySorts(s[..n], key);
      InsertSorts(SortBy(s[..n], key), s[n], key);
      InsertAdds(SortBy(s[..n], key), s[n], key);
      SplitLast(s);
    }
  }

  predicate InOrder(names: seq<string>) {
    forall i, j :: 0 <= i < j < |names| ==> StringLe(names[i], names[j])
  }

  lemma NamesInOrder(names: seq<string>)
    ensures InOrder(SortBy(names, NameKey)) && multiset(SortBy(names, NameKey)) == multiset(names)
  {
    hide SortBy;
    SortBySorts(names, NameKey);
    var sorted := SortBy(names, NameKey);
    forall i, j | 0 <= i < j < |sorted| ensures StringLe(sorted[i], sorted[j]) {
      assert KeyLe(NameKey(sorted[i]), NameKey(sorted[j]));
    }
  }

  /** The elements with a given key, in order. */
  function WithKey<T>(s: seq<T>, k: Key, key: T -> Key): seq<T> {
    if s == [] then []
    else WithKey(s[..|s| - 1], k, key) + if key(s[|s| - 1]) == k then [s[|s| - 1]] else []
  }

  lemma {:induction false} InsertIsStable<T>(s: seq<T>, x: T, k: Key, key: T -> Key)
    ensures WithKey(Insert(s, x, key), k, key) == WithKey(s, k, key) + if key(x) == k then [x] else []
    decreases |s|
  {
    if s == [] {
      assert [x][..0] == [];
    } else {
      var n := |s| - 1;
      if KeyLe(key(s[n]), key(x)) {
        assert (s + [x])[..|s|] == s;
      } else {
        InsertIsStable(s[..n], x, k, key);
        KeyLeTotal(key(s[n]), key(x));
        var t := Insert(s[..n], x, key);
        assert (t + [s[n]])[..|t|] == t;
      }
    }
  }

  /** Elements with equal keys keep their order. */
  lemma {:induction false} SortIsStable<T>(s: seq<T>, k: Key, key: T -> Key)
    ensures WithKey(SortBy(s, key), k, key) == WithKey(s, k, key)
    decreases |s|
  {
    if s != [] {
      SortIsStable(s[..|s| - 1], k, key);
      InsertIsStable(SortBy(s[..|s| - 1], key), s[|s| - 1], k, key);
    }
  }

  /** No two positions carry the same key. */
  predicate DistinctKeys<T>(s: seq<T>, key: T -> Key) {
    forall i, j :: 0 <= i < j < |s| ==> key(s[i]) != key(s[j])
  }

  lemma LastIsLargest<T>(s: seq<T>, t: seq<T>, key: T -> Key)
    requires s != [] && Sorted(s, key) && multiset(s) == multiset(t) && t != []
    ensures KeyLe(key(t[|t| - 1]), key(s[|s| - 1]))
  {
    assert t[|t| - 1] in multiset(s);
    var i :| 0 <= i < |s| && s[i] == t[|t| - 1];
    KeyLeTotal(key(s[i]), key(s[i]));
  }

  lemma SameKeySameElement<T>(s: seq<T>, x: T, y: T, key: T -> Key)
    requires DistinctKeys(s, key) && x in s && y in s && key(x) == key(y)
    ensures x == y
  {
    var i :| 0 <= i < |s| && s[i] == x;
    var j :| 0 <= j < |s| && s[j] == y;
    assert i == j;
  }

  lemma SameLast<T>(s: seq<T>, t: seq<T>, key: T -> Key)
    requires Sorted(s, key) && Sorted(t, key) && multiset(s) == multiset(t) && DistinctKeys(s, key)
    requires s != [] && t != []
    ensures s[|s| - 1] == t[|t| - 1]
  {
    LastIsLargest(s, t, key);
    LastIsLargest(t, s, key);
    KeyLeTotal(key(s[|s| - 1]), key(t[|t| - 1]));
    assert t[|t| - 1] in multiset(s);
    SameKeySameElement(s, s[|s| - 1], t[|t| - 1], key);
  }

  lemma DropLast<T>(s: seq<T>, t: seq<T>)
    requires s != [] && t != [] && multiset(s) == multiset(t) && s[|s| - 1] == t[|t| - 1]
    ensures multiset(s[..|s| - 1]) == multiset(t[..|t| - 1])
  {
    SplitLast(s);
    SplitLast(t);
    assert multiset(s[..|s| - 1]) == multiset(s) - multiset{s[|s| - 1]};
    assert multiset(t[..|t| - 1]) == multiset(t) - multiset{t[|t| - 1]};
  }

  /** With distinct keys there is only one sorted arrangement. */
  lemma {:induction false} SortedIsUnique<T>(s: seq<T>, t: seq<T>, key: T -> Key)
    requires Sorted(s, key) && Sorted(t, key) && multiset(s) == multiset(t) && DistinctKeys(s, key)
    ensures s == t
    decreases |s|
  {
    assert |s| == |multiset(s)| == |multiset(t)| == |t|;
    if s != [] {
      var n := |s| - 1;
      SameLast(s, t, key);
      DropLast(s, t);
      SortedIsUnique(s[..n], t[..n], key);
      assert s == s[..n] + [s[n]] && t == t[..n] + [t[n]];
    }
  }

  lemma SortIgnoresOrder<T>(s: seq<T>, t: seq<T>, key: T -> Key)
    requires multiset(s) == multiset(t) && DistinctKeys(SortBy(s, key), key)
    ensures SortBy(s, key) == SortBy(t, key)
  {
    SortBySorts(s, key);
    SortBySorts(t, key);
    SortedIsUnique(SortBy(s, key), SortBy(t, key), key);
  }

  /** Distinctness of keys does not depend on the order. */
  lemma DistinctKeysPermute<T>(s: seq<T>, t: seq<T>, key: T -> Key)
    requires multiset(s) == multiset(t) && DistinctKeys(s, key)
    ensures DistinctKeys(t, key)
  {
    forall i, j | 0 <= i < j < |t| ensures key(t[i]) != key(t[j]) {
      if key(t[i]) == key(t[j]) {
        assert t[i] in multiset(s) && t[j] in multiset(s);
        SameKeySameElement(s, t[i], t[j], key);
        OccursTwice(t, i, j);
        OccursOnce(s, t[i], key);
      }
    }
  }

  lemma OccursTwice<T>(t: seq<T>, i: nat, j: nat)
    requires i < j < |t| && t[i] == t[j]
    ensures multiset(t)[t[i]] >= 2
  {
    assert t == t[..j] + [t[j]] + t[j + 1..];
    assert t[..j][i] in multiset(t[..j]);
  }

  lemma OccursOnce<T>(s: seq<T>, x: T, key: T -> Key)
    requires DistinctKeys(s, key)
    ensures multiset(s)[x] <= 1
  {
    if multiset(s)[x] > 0 {
      var a :| 0 <= a < |s| && s[a] == x;
      assert s == s[..a] + [s[a]] + s[a + 1..];
      assert x !in multiset(s[..a]) && x !in multiset(s[a + 1..]);
    }
  }

  /** The last element of a list occurs in any rearrangement, and taking it out of both leaves
      rearrangements of each other. */
  lemma TakeOut<T>(a: seq<T>, b: seq<T>) returns (j: nat)
    requires a != [] && multiset(a) == multiset(b)
    ensures j < |b| && b[j] == a[|a| - 1]
    ensures multiset(a[..|a| - 1]) == multiset(b[..j] + b[j + 1..])
  {
    assert a[|a| - 1] in multiset(b);
    j :| 0 <= j < |b| && b[j] == a[|a| - 1];
    SplitLast(a);
    assert b == b[..j] + [b[j]] + b[j + 1..];
    assert multiset(b[..j] + b[j + 1..]) == multiset(b) - multiset{b[j]};
    assert multiset(a[..|a| - 1]) == multiset(a) - multiset{a[|a| - 1]};
  }

  lemma NoElements<T>(b: seq<T>)
    requires multiset(b) == multiset{}
    ensures b == []
  {
    assert |b| == |multiset(b)|;
  }
}
