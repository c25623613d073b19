/** Strict orders, sorting and sorted listings of finite sets: what the source gets from
    Python's `sorted`, `list.sort` and string comparison. */
module Orders {

  ghost predicate StrictWeak<T(!new)>(less: (T, T) -> bool) {
    && (forall x :: !less(x, x))
    && (forall x, y, z :: less(x, y) && less(y, z) ==> less(x, z))
    && (forall x, y, z :: !less(x, y) && !less(y, z) ==> !less(x, z))
  }

  ghost predicate StrictTotal<T(!new)>(less: (T, T) -> bool) {
    && StrictWeak(less)
    && (forall x, y :: x == y || less(x, y) || less(y, x))
  }

  /** Strictly ascending, hence free of repetitions. */
  predicate Ascending<T>(xs: seq<T>, less: (T, T) -> bool) {
    forall i, j :: 0 <= i < j < |xs| ==> less(xs[i], xs[j])
  }

  predicate NonDescending<T>(xs: seq<T>, less: (T, T) -> bool) {
    forall i, j :: 0 <= i < j < |xs| ==> !less(xs[j], xs[i])
  }

  lemma {:induction false} Associates<T>(x: seq<T>, y: seq<T>, z: seq<T>)
    ensures x + y + z == x + (y + z)
  {}

  predicate Distinct<T(==)>(xs: seq<T>) {
    forall i, j :: 0 <= i < j < |xs| ==> xs[i] != xs[j]
  }

  lemma {:induction false} OneMore<T>(xs: seq<T>, i: nat)
    requires i < |xs|
    ensures xs[..i + 1] == xs[..i] + [xs[i]]
  {}

  function MapSeq<T, U>(f: T -> U, xs: seq<T>): (r: seq<U>)
    ensures |r| == |xs| && forall i :: 0 <= i < |r| ==> r[i] == f(xs[i])
  {
    seq(|xs|, i requires 0 <= i < |xs| => f(xs[i]))
  }

  lemma {:induction false} MapSeqAppend<T, U>(g: T -> U, x: seq<T>, y: seq<T>)
    ensures MapSeq(g, x + y) == MapSeq(g, x) + MapSeq(g, y)
  {}

  function Elements<T>(xs: seq<T>): set<T> {
    set x | x in xs
  }

  lemma {:induction false} SubsetSize<T>(a: set<T>, b: set<T>)
    requires a <= b
    ensures |a| <= |b|
  {
    if a != {} {
      var e :| e in a;
      SubsetSize(a - {e}, b - {e});
    }
  }

  function Insert<T>(x: T, xs: seq<T>, less: (T, T) -> bool): (r: seq<T>)
    ensures multiset(r) == multiset(xs) + multiset{x}
  {
    if xs == [] then [x]
    else if less(x, xs[0]) then [x] + xs
    else
      assert xs == [xs[0]] + xs[1..];
      [xs[0]] + Insert(x, xs[1..], less)
  }

  /** Insertion sort; the result is the only one `list.sort` can give when the elements
      are comparable (`SortedIsUnique`). */
  function Sort<T>(xs: seq<T>, less: (T, T) -> bool): (r: seq<T>)
    ensures multiset(r) == multiset(xs)
  {
    if xs == [] then [] else
    assert xs == [xs[0]] + xs[1..];
    Insert(xs[0], Sort(xs[1..], less), less)
  }

  lemma {:induction false} InsertKeepsOrder<T(!new)>(x: T, xs: seq<T>, less: (T, T) -> bool)
    requires StrictWeak(less)
    requires NonDescending(xs, less)
    ensures NonDescending(Insert(x, xs, less), less)
  {
    if xs != [] {
      if less(x, xs[0]) {
        var head := xs[0];
        forall j | 0 <= j < |xs| ensures !less(xs[j], x) {
          var y := xs[j];
          assert !less(y, head);
        }
      } else {
        var rest := Insert(x, xs[1..], less);
        InsertKeepsOrder(x, xs[1..], less);
        forall j | 0 <= j < |rest| ensures !less(rest[j], xs[0]) {
          assert rest[j] in multiset(rest);
          assert rest[j] == x || rest[j] in xs[1..];
        }
      }
    }
  }

  lemma {:induction false} SortSorts<T(!new)>(xs: seq<T>, less: (T, T) -> bool)
    requires StrictWeak(less)
    ensures NonDescending(Sort(xs, less), less)
  {
    if xs != [] {
      SortSorts(xs[1..], less);
      InsertKeepsOrder(xs[0], Sort(xs[1..], less), less);
    }
  }

  lemma {:induction false} MultisetMembers<T>(a: seq<T>, b: seq<T>)
    requires multiset(a) == multiset(b)
    ensures |a| == |b|
    ensures forall x :: x in a <==> x in b
  {
    assert |a| == |multiset(a)| && |b| == |multiset(b)|;
    forall x ensures x in a <==> x in b {
      assert x in a <==> x in multiset(a);
      assert x in b <==> x in multiset(b);
    }
  }

  lemma {:induction false} SortedIsUnique<T(!new)>(a: seq<T>, b: seq<T>, less: (T, T) -> bool)
    requires StrictWeak(less)
    requires NonDescending(a, less) && NonDescending(b, less)
    requires multiset(a) == multiset(b)
    requires forall x, y :: x in a && y in a ==> x == y || less(x, y) || less(y, x)
    ensures a == b
  {
    MultisetMembers(a, b);
    if a != [] {
      SameHead(a, b, less);
      assert a == [a[0]] + a[1..] && b == [b[0]] + b[1..];
      assert a[1..] == b[1..] by {
        TailMultiset(a);
        TailMultiset(b);
        assert forall u <- a[1..] :: u in a;
        SortedIsUnique(a[1..], b[1..], less);
      }
    }
  }

  lemma {:induction false} TailMultiset<T>(a: seq<T>)
    requires a != []
    ensures multiset(a[1..]) == multiset(a) - multiset{a[0]}
  {
    assert a == [a[0]] + a[1..];
  }

  lemma {:induction false} SameHead<T(!new)>(a: seq<T>, b: seq<T>, less: (T, T) -> bool)
    requires a != [] && b != [] && NonDescending(a, less) && NonDescending(b, less)
    requires forall x :: x in a <==> x in b
    requires forall x, y :: x in a && y in a ==> x == y || less(x, y) || less(y, x)
    ensures a[0] == b[0]
  {
    assert b[0] in a && a[0] in b;
    var i :| 0 <= i < |a| && a[i] == b[0];
    var j :| 0 <= j < |b| && b[j] == a[0];
    assert i > 0 ==> !less(b[0], a[0]);
    assert j > 0 ==> !less(a[0], b[0]);
  }

  lemma {:induction false} AscendingIsUnique<T(!new)>(a: seq<T>, b: seq<T>, less: (T, T) -> bool)
    requires StrictWeak(less)
    requires Ascending(a, less) && Ascending(b, less)
    requires Elements(a) == Elements(b)
    ensures a == b
  {
    assert a != [] ==> a[0] in Elements(b);
    assert b != [] ==> b[0] in Elements(a);
    if a != [] && b != [] {
      var i :| 0 <= i < |a| && a[i] == b[0];
      var j :| 0 <= j < |b| && b[j] == a[0];
      assert a[0] == b[0];
      forall x ensures x in Elements(a[1..]) <==> x in Elements(b[1..]) {
        assert a == [a[0]] + a[1..] && b == [b[0]] + b[1..];
        assert x in Elements(a) <==> x in Elements(b);
      }
      AscendingIsUnique(a[1..], b[1..], less);
    }
  }

  lemma {:induction false} DistinctSortedAscends<T(!new)>(xs: seq<T>, less: (T, T) -> bool)
    requires StrictTotal(less)
    ensures Ascending(xs, less) <==> NonDescending(xs, less) && Distinct(xs)
  {}

  lemma {:induction false} DistinctCounts<T>(xs: seq<T>)
    requires Distinct(xs)
    ensures forall x :: multiset(xs)[x] <= 1
  {
    if xs != [] {
      DistinctCounts(xs[1..]);
      assert xs == [xs[0]] + xs[1..];
      assert xs[0] !in multiset(xs[1..]);
    }
  }

  lemma {:induction false} RepetitionCounts<T>(xs: seq<T>, i: nat, j: nat)
    requires i < j < |xs| && xs[i] == xs[j]
    ensures multiset(xs)[xs[i]] >= 2
  {
    assert xs == xs[..j] + xs[j..];
    assert xs[..j][i] in multiset(xs[..j]) && xs[j..][0] in multiset(xs[j..]);
  }

  lemma {:induction false} PermutationDistinct<T>(xs: seq<T>, ys: seq<T>)
    requires multiset(xs) == multiset(ys)
    requires Distinct(xs)
    ensures Distinct(ys)
  {
    DistinctCounts(xs);
    forall i: nat, j: nat | i < j < |ys| ensures ys[i] != ys[j] {
      if ys[i] == ys[j] { RepetitionCounts(ys, i, j); }
    }
  }

  predicate IsLeast<T(!new, ==)>(s: set<T>, least: T, less: (T, T) -> bool) {
    least in s && forall x :: x in s && x != least ==> less(least, x)
  }

  /** The ascending listing of a finite set, `sorted(keys)` in the source. */
  function SortedSet<T(!new, ==)>(s: set<T>, less: (T, T) -> bool): (r: seq<T>)
    requires StrictTotal(less)
    ensures Ascending(r, less)
    ensures Elements(r) == s
    ensures |r| == |s|
  {
    if s == {} then []
    else
      LeastExists(s, less);
      LeastIsUnique(s, less);
      var least :| least in s && IsLeast(s, least, less);
      var rest := SortedSet(s - {least}, less);
      ListingStep(s, least, rest, less);
      [least] + rest
  }

  lemma {:induction false} ListingStep<T(!new)>(s: set<T>, least: T, rest: seq<T>, less: (T, T) -> bool)
    requires IsLeast(s, least, less) && Ascending(rest, less) && Elements(rest) == s - {least}
      && |rest| == |s - {least}|
    ensures Ascending([least] + rest, less) && Elements([least] + rest) == s && |rest| + 1 == |s|
  {
    forall i | 0 <= i < |rest| ensures less(least, rest[i]) {
      assert rest[i] in Elements(rest);
    }
    assert Elements([least] + rest) == {least} + Elements(rest);
  }

  lemma {:induction false} LeastIsUnique<T(!new)>(s: set<T>, less: (T, T) -> bool)
    requires StrictTotal(less)
    ensures forall x, y :: IsLeast(s, x, less) && IsLeast(s, y, less) ==> x == y
  {
    forall x, y | IsLeast(s, x, less) && IsLeast(s, y, less) ensures x == y {
      assert x == y || less(x, y);
      assert x == y || less(y, x);
      assert !less(x, x);
    }
  }

  lemma {:induction false} LeastExists<T(!new)>(s: set<T>, less: (T, T) -> bool)
    requires StrictTotal(less)
    requires s != {}
    ensures exists least :: IsLeast(s, least, less)
  {
    var a :| a in s;
    var rest := s - {a};
    if rest == {} {
      assert s == rest + {a};
      assert IsLeast(s, a, less);
    } else {
      LeastExists(rest, less);
      var m :| IsLeast(rest, m, less);
      LeastOfTwo(s, a, m, less);
    }
  }

  lemma {:induction false} LeastOfTwo<T(!new)>(s: set<T>, a: T, m: T, less: (T, T) -> bool)
    requires StrictTotal(less) && a in s && IsLeast(s - {a}, m, less)
    ensures IsLeast(s, if less(a, m) then a else m, less)
  {
    forall x | x in s && x != a ensures x in s - {a} {}
    assert m in s - {a};
  }

  /** Python's `<` on strings: lexicographic by code point. */
  predicate StrLess(a: string, b: string) {
    if b == [] then false
    else if a == [] then true
    else a[0] < b[0] || (a[0] == b[0] && StrLess(a[1..], b[1..]))
  }

  lemma {:induction false} StrLessIrreflexive(a: string)
    ensures !StrLess(a, a)
  {
    if a != [] { StrLessIrreflexive(a[1..]); }
  }

  lemma {:induction false} StrLessTotal(a: string, b: string)
    ensures a == b || StrLess(a, b) || StrLess(b, a)
  {
    if a != [] && b != [] && a[0] == b[0] {
      assert a == [a[0]] + a[1..] && b == [b[0]] + b[1..];
      StrLessTotal(a[1..], b[1..]);
    }
  }

  lemma {:induction false} StrLessTransitive(a: string, b: string, c: string)
    requires StrLess(a, b) && StrLess(b, c)
    ensures StrLess(a, c)
  {
    if a != [] && a[0] == b[0] == c[0] { StrLessTransitive(a[1..], b[1..], c[1..]); }
  }

  lemma {:induction false} StrLessIsStrictTotal()
    ensures StrictTotal(StrLess)
  {
    forall x: string ensures !StrLess(x, x) { StrLessIrreflexive(x); }
    forall x: string, y: string, z: string | StrLess(x, y) && StrLess(y, z) ensures StrLess(x, z) {
      StrLessTransitive(x, y, z);
    }
    forall x: string, y: string ensures x == y || StrLess(x, y) || StrLess(y, x) { StrLessTotal(x, y); }
    forall x: string, y: string, z: string | !StrLess(x, y) && !StrLess(y, z) ensures !StrLess(x, z) {
      if StrLess(x, z) { StrLessTotal(y, z); StrLessTotal(x, y); }
    }
  }
}
