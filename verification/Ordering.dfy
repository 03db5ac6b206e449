/** Python's order on strings and on the sort-key tuples this code base uses, with a stable sort. */
module Ordering {

  /** Lexicographic order on strings, as Python compares `str` values. */
  predicate StrLe(a: string, b: string) {
    |a| == 0 || (|b| > 0 && (a[0] < b[0] || (a[0] == b[0] && StrLe(a[1..], b[1..]))))
  }

  /** The strings agree up to `k`, where the first ends or has the smaller character. */
  predicate FirstDiffers(a: string, b: string, k: nat) {
    k <= |a| && k <= |b| && a[..k] == b[..k] && (k == |a| || (k < |b| && a[k] < b[k]))
  }

  lemma HeadsAgree(a: string, b: string, k: nat)
    ensures FirstDiffers(a, b, k) && k > 0 ==> |a| > 0 && |b| > 0 && a[0] == b[0]
  {
    if FirstDiffers(a, b, k) && k > 0 {
      assert a[..k][0] == b[..k][0];
    }
  }

  /** The order by the first place where two strings differ. */
  lemma {:induction false} StrLeExact(a: string, b: string)
    ensures StrLe(a, b) <==> exists k: nat :: FirstDiffers(a, b, k)
  {
    if |a| == 0 || |b| == 0 || a[0] != b[0] {
      assert StrLe(a, b) ==> FirstDiffers(a, b, 0);
      if k: nat :| FirstDiffers(a, b, k) {
        HeadsAgree(a, b, k);
      }
    } else {
      StrLeExact(a[1..], b[1..]);
      if k: nat :| FirstDiffers(a[1..], b[1..], k) {
        assert a[..k + 1] == [a[0]] + a[1..][..k] && b[..k + 1] == [b[0]] + b[1..][..k];
        assert FirstDiffers(a, b, k + 1);
      }
      if k: nat :| FirstDiffers(a, b, k) {
        assert a[1..][..k - 1] == a[..k][1..] && b[1..][..k - 1] == b[..k][1..];
        assert FirstDiffers(a[1..], b[1..], k - 1);
      }
    }
  }

  lemma {:induction false} StrTotal(a: string, b: string)
    ensures StrLe(a, b) || StrLe(b, a)
    ensures StrLe(a, a)
  {
    if |a| > 0 {
      StrTotal(a[1..], if |b| > 0 then b[1..] else b);
    }
  }

  lemma {:induction false} StrAntisymmetric(a: string, b: string)
    requires StrLe(a, b) && StrLe(b, a)
    ensures a == b
  {
    if |a| > 0 {
      StrAntisymmetric(a[1..], b[1..]);
      assert a == [a[0]] + a[1..] && b == [b[0]] + b[1..];
    }
  }

  lemma {:induction false} StrTransitive(a: string, b: string, c: string)
    requires StrLe(a, b) && StrLe(b, c)
    ensures StrLe(a, c)
  {
    if |a| > 0 && a[0] == b[0] && b[0] == c[0] {
      StrTransitive(a[1..], b[1..], c[1..]);
    }
  }

  /** A sort key: two integers compared first, a string identifier last. */
  datatype Key = Key(major: int, minor: int, id: string)

  predicate KeyLe(a: Key, b: Key) {
    a.major < b.major
    || (a.major == b.major && (a.minor < b.minor || (a.minor == b.minor && StrLe(a.id, b.id))))
  }

  lemma KeyTotal(a: Key, b: Key)
    ensures KeyLe(a, b) || KeyLe(b, a)
    ensures KeyLe(a, a)
  {
    StrTotal(a.id, b.id);
  }

  lemma KeyAntisymmetric(a: Key, b: Key)
    requires KeyLe(a, b) && KeyLe(b, a)
    ensures a == b
  {
    StrAntisymmetric(a.id, b.id);
  }

  lemma KeyTransitive(a: Key, b: Key, c: Key)
    requires KeyLe(a, b) && KeyLe(b, c)
    ensures KeyLe(a, c)
  {
    if a.major == b.major == c.major && a.minor == b.minor == c.minor {
      StrTransitive(a.id, b.id, c.id);
    }
  }

  ghost predicate Sorted<T(!new)>(key: T -> Key, xs: seq<T>) {
    forall i, j :: 0 <= i < j < |xs| ==> KeyLe(key(xs[i]), key(xs[j]))
  }

  /** Insert `x` after every element whose key is not larger: the stable place. */
  function Insert<T(!new)>(key: T -> Key, xs: seq<T>, x: T): (r: seq<T>)
    ensures multiset(r) == multiset(xs) + multiset{x}
    ensures |r| == |xs| + 1
    ensures Sorted(key, xs) ==> Sorted(key, r)
  {
    if xs == [] then [x]
    else
      var last := xs[|xs| - 1];
      assert xs == xs[..|xs| - 1] + [last];
      if KeyLe(key(last), key(x)) then
        assert Sorted(key, xs) ==> Sorted(key, xs + [x]) by {
          forall i | 0 <= i < |xs| && Sorted(key, xs) ensures KeyLe(key(xs[i]), key(x)) {
            KeyTotal(key(last), key(last));
            KeyTransitive(key(xs[i]), key(last), key(x));
          }
        }
        xs + [x]
      else
        var front := Insert(key, xs[..|xs| - 1], x);
        assert Sorted(key, xs) ==> Sorted(key, front + [last]) by {
          KeyTotal(key(last), key(x));
          forall i | 0 <= i < |front| && Sorted(key, xs) ensures KeyLe(key(front[i]), key(last)) {
            assert front[i] in multiset(front);
            assert front[i] == x || front[i] in xs[..|xs| - 1];
          }
        }
        front + [last]
  }

  lemma InsertMembers<T(!new)>(key: T -> Key, xs: seq<T>, x: T)
    ensures forall y :: y in Insert(key, xs, x) <==> y in xs || y == x
  {
    forall y
      ensures y in Insert(key, xs, x) <==> y in xs || y == x
    {
      assert y in Insert(key, xs, x) <==> y in multiset(Insert(key, xs, x));
    }
  }

  /** Python's `sorted(xs, key=key)`. */
  function SortBy<T(!new)>(key: T -> Key, xs: seq<T>): (r: seq<T>)
    ensures Sorted(key, r)
    ensures multiset(r) == multiset(xs)
    ensures |r| == |xs|
  {
    if xs == [] then []
    else
      assert xs == xs[..|xs| - 1] + [xs[|xs| - 1]];
      Insert(key, SortBy(key, xs[..|xs| - 1]), xs[|xs| - 1])
  }

  lemma HeadIsLeast<T(!new)>(key: T -> Key, xs: seq<T>, x: T)
    requires Sorted(key, xs) && x in multiset(xs)
    ensures xs != [] && KeyLe(key(xs[0]), key(x))
  {
    var k :| 0 <= k < |xs| && xs[k] == x;
    KeyTotal(key(x), key(x));
  }

  lemma TailCounts<T>(xs: seq<T>)
    requires xs != []
    ensures multiset(xs[1..]) == multiset(xs) - multiset{xs[0]}
  {
    assert xs == [xs[0]] + xs[1..];
  }

  lemma TailsMatch<T(!new)>(key: T -> Key, xs: seq<T>, ys: seq<T>)
    requires xs != [] && Sorted(key, xs) && Sorted(key, ys) && multiset(xs) == multiset(ys)
    requires forall a, b :: a in xs && b in xs && key(a) == key(b) ==> a == b
    ensures ys != [] && xs[0] == ys[0] && multiset(xs[1..]) == multiset(ys[1..])
  {
    assert xs[0] in multiset(xs);
    HeadIsLeast(key, ys, xs[0]);
    assert ys[0] in multiset(ys);
    HeadIsLeast(key, xs, ys[0]);
    KeyAntisymmetric(key(xs[0]), key(ys[0]));
    TailCounts(xs);
    TailCounts(ys);
  }

  lemma {:induction false} DistinctCount<T>(xs: seq<T>, x: T)
    requires forall i, j :: 0 <= i < j < |xs| ==> xs[i] != xs[j]
    ensures multiset(xs)[x] == if x in xs then 1 else 0
  {
    if xs != [] {
      DistinctCount(xs[..|xs| - 1], x);
      assert xs == xs[..|xs| - 1] + [xs[|xs| - 1]];
    }
  }

  lemma SubsetSize<T>(a: set<T>, b: set<T>)
    requires a <= b
    ensures |a| <= |b|
  {
    assert b == a + (b - a);
  }

  lemma FrontAndLast<T>(xs: seq<T>)
    requires xs != []
    ensures xs == xs[..|xs| - 1] + [xs[|xs| - 1]]
  {
  }

  lemma TakeOneMore<T>(xs: seq<T>, i: nat)
    requires i < |xs|
    ensures xs[..i + 1] == xs[..i] + [xs[i]]
  {
  }

  lemma SameSeq<T>(xs: seq<T>, ys: seq<T>)
    requires xs != [] && ys != [] && xs[0] == ys[0] && xs[1..] == ys[1..]
    ensures xs == ys
  {
    assert xs == [xs[0]] + xs[1..];
  }

  /** A sorted sequence whose keys are injective is determined by its elements. */
  lemma {:induction false} SortedUnique<T(!new)>(key: T -> Key, xs: seq<T>, ys: seq<T>)
    requires Sorted(key, xs) && Sorted(key, ys)
    requires multiset(xs) == multiset(ys)
    requires forall a, b :: a in xs && b in xs && key(a) == key(b) ==> a == b
    ensures xs == ys
  {
    assert |multiset(xs)| == |xs| && |multiset(ys)| == |ys|;
    if xs != [] {
      TailsMatch(key, xs, ys);
      SortedUnique(key, xs[1..], ys[1..]);
      SameSeq(xs, ys);
    }
  }
}
