/** Python's `sorted(xs, key=..., reverse=...)` on tuple keys.

    A key is a sequence of numbers compared as tuples are; the sort is stable, with
    `reverse` too. */
module StableSort {

  type Key = seq<real>

  /** Tuple comparison. */
  predicate Less(a: Key, b: Key) {
    if b == [] then false
    else if a == [] then true
    else a[0] < b[0] || (a[0] == b[0] && Less(a[1..], b[1..]))
  }

  lemma {:induction false} LessIsTotal(a: Key, b: Key)
    ensures Less(a, b) || a == b || Less(b, a)
    ensures !(Less(a, b) && Less(b, a))
    ensures a == b ==> !Less(a, b)
  {
    if a != [] && b != [] {
      LessIsTotal(a[1..], b[1..]);
      assert a[0] == b[0] && a[1..] == b[1..] ==> a == [a[0]] + a[1..] == [b[0]] + b[1..] == b;
    }
  }

  lemma {:induction false} LessIsTransitive(a: Key, b: Key, c: Key)
    requires Less(a, b) && Less(b, c)
    ensures Less(a, c)
  {
    if a != [] && a[0] == b[0] == c[0] {
      LessIsTransitive(a[1..], b[1..], c[1..]);
    }
  }

  /** `a` must come before `b`: smaller key, or larger with `reverse`. */
  predicate Before(a: Key, b: Key, reverse: bool) {
    if reverse then Less(b, a) else Less(a, b)
  }

  function Insert<T>(x: T, xs: seq<T>, key: T -> Key, reverse: bool): seq<T> {
    if xs == [] then [x]
    else if Before(key(xs[0]), key(x), reverse) then [xs[0]] + Insert(x, xs[1..], key, reverse)
    else [x] + xs
  }

  function Sorted<T>(xs: seq<T>, key: T -> Key, reverse: bool): seq<T> {
    if xs == [] then [] else Insert(xs[0], Sorted(xs[1..], key, reverse), key, reverse)
  }

  lemma {:induction false} InsertElements<T>(x: T, xs: seq<T>, key: T -> Key, reverse: bool)
    ensures multiset(Insert(x, xs, key, reverse)) == multiset(xs) + multiset{x}
  {
    if xs != [] && Before(key(xs[0]), key(x), reverse) {
      InsertElements(x, xs[1..], key, reverse);
      assert xs == [xs[0]] + xs[1..];
    }
  }

  lemma {:induction false} SortedElements<T>(xs: seq<T>, key: T -> Key, reverse: bool)
    ensures multiset(Sorted(xs, key, reverse)) == multiset(xs)
    ensures |Sorted(xs, key, reverse)| == |xs|
  {
    if xs != [] {
      SortedElements(xs[1..], key, reverse);
      InsertElements(xs[0], Sorted(xs[1..], key, reverse), key, reverse);
      assert xs == [xs[0]] + xs[1..];
    }
    assert |multiset(Sorted(xs, key, reverse))| == |multiset(xs)|;
  }

  /** `a` may stand before `b`: its key comes first, or the keys tie and it also
      stood first by `tie`. */
  predicate MayPrecede<T>(a: T, b: T, key: T -> Key, reverse: bool, tie: (T, T) -> bool) {
    Before(key(a), key(b), reverse) || (key(a) == key(b) && tie(a, b))
  }

  ghost predicate Ordered<T>(xs: seq<T>, key: T -> Key, reverse: bool, tie: (T, T) -> bool) {
    forall i, j :: 0 <= i < j < |xs| ==> MayPrecede(xs[i], xs[j], key, reverse, tie)
  }

  ghost predicate PairwiseTied<T>(xs: seq<T>, tie: (T, T) -> bool) {
    forall i, j :: 0 <= i < j < |xs| ==> tie(xs[i], xs[j])
  }

  lemma {:induction false} InsertKeepsOrder<T>(x: T, xs: seq<T>, key: T -> Key, reverse: bool, tie: (T, T) -> bool)
    requires Ordered(xs, key, reverse, tie) && forall y :: y in xs ==> tie(x, y)
    ensures Ordered(Insert(x, xs, key, reverse), key, reverse, tie)
  {
    var r := Insert(x, xs, key, reverse);
    if xs == [] {
    } else if Before(key(xs[0]), key(x), reverse) {
      var rest := Insert(x, xs[1..], key, reverse);
      InsertKeepsOrder(x, xs[1..], key, reverse, tie);
      InsertElements(x, xs[1..], key, reverse);
      forall j | 0 <= j < |rest| ensures MayPrecede(xs[0], rest[j], key, reverse, tie) {
        assert rest[j] in multiset(rest);
        if rest[j] != x {
          assert rest[j] in xs[1..];
          var k :| 0 <= k < |xs[1..]| && xs[1..][k] == rest[j];
          assert MayPrecede(xs[0], xs[k + 1], key, reverse, tie);
        }
      }
    } else {
      forall j | 0 <= j < |xs| ensures MayPrecede(x, xs[j], key, reverse, tie) {
        LessIsTotal(key(x), key(xs[0]));
        if j > 0 {
          assert MayPrecede(xs[0], xs[j], key, reverse, tie);
          StaysBehind(key(x), key(xs[0]), key(xs[j]), reverse);
        }
        LessIsTotal(key(x), key(xs[j]));
      }
    }
  }

  lemma StaysBehind(x: Key, y: Key, z: Key, reverse: bool)
    requires !Before(y, x, reverse) && (Before(y, z, reverse) || y == z)
    ensures !Before(z, x, reverse)
  {
    if Before(z, x, reverse) && y != z {
      if reverse {
        LessIsTransitive(x, z, y);
      } else {
        LessIsTransitive(y, z, x);
      }
    }
  }

  /** The sort is ordered by key, and elements with equal keys keep their order. */
  lemma {:induction false} SortedIsOrdered<T>(xs: seq<T>, key: T -> Key, reverse: bool, tie: (T, T) -> bool)
    requires PairwiseTied(xs, tie)
    ensures Ordered(Sorted(xs, key, reverse), key, reverse, tie)
  {
    if xs != [] {
      var rest := Sorted(xs[1..], key, reverse);
      SortedIsOrdered(xs[1..], key, reverse, tie);
      SortedElements(xs[1..], key, reverse);
      forall y | y in rest ensures tie(xs[0], y) {
        assert y in multiset(rest);
        assert y in xs[1..];
        var k :| 0 <= k < |xs[1..]| && xs[1..][k] == y;
        assert xs[k + 1] == y;
      }
      InsertKeepsOrder(xs[0], rest, key, reverse, tie);
    }
  }

  /** A list already in order is left as it is. */
  lemma {:induction false} SortedKeepsOrdered<T>(xs: seq<T>, key: T -> Key, reverse: bool, tie: (T, T) -> bool)
    requires Ordered(xs, key, reverse, tie)
    ensures Sorted(xs, key, reverse) == xs
  {
    if xs != [] {
      assert Ordered(xs[1..], key, reverse, tie) by {
        forall i, j | 0 <= i < j < |xs[1..]| ensures MayPrecede(xs[1..][i], xs[1..][j], key, reverse, tie) {
          assert MayPrecede(xs[i + 1], xs[j + 1], key, reverse, tie);
        }
      }
      SortedKeepsOrdered(xs[1..], key, reverse, tie);
      if |xs| > 1 {
        assert MayPrecede(xs[0], xs[1], key, reverse, tie);
        LessIsTotal(key(xs[0]), key(xs[1]));
      }
      assert xs == [xs[0]] + xs[1..];
    }
  }

  /** A strict order fixes the arrangement of its elements. */
  lemma {:induction false} OrderedIsUnique<T>(xs: seq<T>, ys: seq<T>, key: T -> Key, reverse: bool, tie: (T, T) -> bool)
    requires multiset(xs) == multiset(ys)
    requires Ordered(xs, key, reverse, tie) && Ordered(ys, key, reverse, tie)
    requires forall a, b :: a in xs && b in xs && MayPrecede(a, b, key, reverse, tie)
              ==> !MayPrecede(b, a, key, reverse, tie)
    ensures xs == ys
  {
    assert |multiset(xs)| == |multiset(ys)|;
    if xs != [] {
      SameHead(xs, ys, key, reverse, tie);
      TailElements(xs);
      TailElements(ys);
      TailIsOrdered(xs, key, reverse, tie);
      TailIsOrdered(ys, key, reverse, tie);
      assert forall a :: a in xs[1..] ==> a in xs;
      OrderedIsUnique(xs[1..], ys[1..], key, reverse, tie);
    }
  }

  lemma TailElements<T>(xs: seq<T>)
    requires xs != []
    ensures xs == [xs[0]] + xs[1..] && multiset(xs[1..]) == multiset(xs) - multiset{xs[0]}
  {
    assert xs == [xs[0]] + xs[1..];
  }

  lemma TailIsOrdered<T>(xs: seq<T>, key: T -> Key, reverse: bool, tie: (T, T) -> bool)
    requires xs != [] && Ordered(xs, key, reverse, tie)
    ensures Ordered(xs[1..], key, reverse, tie)
  {
    forall i, j | 0 <= i < j < |xs[1..]| ensures MayPrecede(xs[1..][i], xs[1..][j], key, reverse, tie) {
      assert MayPrecede(xs[i + 1], xs[j + 1], key, reverse, tie);
    }
  }

  lemma SameHead<T>(xs: seq<T>, ys: seq<T>, key: T -> Key, reverse: bool, tie: (T, T) -> bool)
    requires multiset(xs) == multiset(ys) && xs != [] && ys != []
    requires Ordered(xs, key, reverse, tie) && Ordered(ys, key, reverse, tie)
    requires forall a, b :: a in xs && b in xs && MayPrecede(a, b, key, reverse, tie)
              ==> !MayPrecede(b, a, key, reverse, tie)
    ensures xs[0] == ys[0]
  {
    assert xs[0] in multiset(ys) && ys[0] in multiset(xs);
    var i :| 0 <= i < |ys| && ys[i] == xs[0];
    var j :| 0 <= j < |xs| && xs[j] == ys[0];
    if i > 0 && j > 0 {
      assert false;
    }
  }
}
