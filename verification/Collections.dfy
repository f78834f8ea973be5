/** Sorting and counting over sequences, shared by the evaluation modules. */
module Collections {

  datatype Option<+T> = None | Some(value: T)

  datatype Result<+T, +E> = Ok(value: T) | Err(error: E)

  predicate Distinct<T(==)>(s: seq<T>) {
    forall i, j | 0 <= i < j < |s| :: s[i] != s[j]
  }

  function ToSet<T>(s: seq<T>): set<T> {
    set x | x in s
  }

  lemma {:induction false} DistinctCard<T>(s: seq<T>)
    requires Distinct(s)
    ensures |ToSet(s)| == |s|
  {
    if s == [] {
      assert ToSet(s) == {};
    } else {
      DistinctCard(s[1..]);
      assert ToSet(s) == ToSet(s[1..]) + {s[0]};
    }
  }

  lemma {:induction false} CardAtMost<T>(s: seq<T>)
    ensures |ToSet(s)| <= |s|
    ensures |ToSet(s)| == |s| ==> Distinct(s)
  {
    if s == [] {
      assert ToSet(s) == {};
    } else {
      CardAtMost(s[1..]);
      if s[0] in s[1..] {
        assert ToSet(s) == ToSet(s[1..]);
      } else {
        assert ToSet(s) == ToSet(s[1..]) + {s[0]};
        if |ToSet(s)| == |s| {
          forall i, j | 0 <= i < j < |s| ensures s[i] != s[j] {
            if i == 0 { assert s[j] == s[1..][j - 1]; } else { assert s[i] == s[1..][i - 1] && s[j] == s[1..][j - 1]; }
          }
        }
      }
    }
  }

  lemma SubsetCard<T>(a: set<T>, b: set<T>)
    requires a <= b
    ensures |a| <= |b|
    ensures |a| == |b| ==> a == b
  {
    assert b == a + (b - a);
    if |a| == |b| {
      assert |b - a| == 0;
    }
  }

  lemma {:induction false} SetArrangements<T>(a: seq<T>, b: seq<T>)
    requires Distinct(a) && Distinct(b) && ToSet(a) == ToSet(b)
    ensures multiset(a) == multiset(b)
  {
    forall x ensures multiset(a)[x] == multiset(b)[x] {
      DistinctMultiplicity(a, x);
      DistinctMultiplicity(b, x);
      assert x in a <==> x in ToSet(a);
      assert x in b <==> x in ToSet(b);
    }
  }

  lemma {:induction false} DistinctMultiplicity<T>(s: seq<T>, x: T)
    requires Distinct(s)
    ensures multiset(s)[x] == if x in s then 1 else 0
  {
    if s != [] {
      DistinctMultiplicity(s[1..], x);
      assert s == [s[0]] + s[1..];
      assert s[0] !in s[1..];
    }
  }

  // ----- Orders and sorting

  ghost predicate Total<T(!new)>(le: (T, T) -> bool) {
    forall a, b :: le(a, b) || le(b, a)
  }

  ghost predicate Transitive<T(!new)>(le: (T, T) -> bool) {
    forall a, b, c :: le(a, b) && le(b, c) ==> le(a, c)
  }

  predicate SortedBy<T>(s: seq<T>, le: (T, T) -> bool) {
    forall i, j | 0 <= i < j < |s| :: le(s[i], s[j])
  }

  function Insert<T>(x: T, s: seq<T>, le: (T, T) -> bool): (r: seq<T>)
    ensures multiset(r) == multiset(s) + multiset{x}
  {
    if s == [] then [x]
    else if le(x, s[0]) then [x] + s
    else
      assert s == [s[0]] + s[1..];
      [s[0]] + Insert(x, s[1..], le)
  }

  /** The stable sort of `sorted(...)`: equal keys keep their input order. */
  function Sort<T>(s: seq<T>, le: (T, T) -> bool): (r: seq<T>)
    ensures multiset(r) == multiset(s)
    ensures |r| == |s|
  {
    if s == [] then []
    else
      assert s == [s[0]] + s[1..];
      var r := Insert(s[0], Sort(s[1..], le), le);
      assert |multiset(r)| == |multiset(s)|;
      r
  }

  lemma {:induction false} InsertSorted<T(!new)>(x: T, s: seq<T>, le: (T, T) -> bool)
    requires Total(le) && Transitive(le) && SortedBy(s, le)
    ensures SortedBy(Insert(x, s, le), le)
  {
    if s != [] && !le(x, s[0]) {
      InsertSorted(x, s[1..], le);
      var r := Insert(x, s[1..], le);
      forall j | 0 <= j < |r| ensures le(s[0], r[j]) {
        assert r[j] in multiset(r);
        assert r[j] == x || r[j] in s[1..];
      }
    }
  }

  lemma {:induction false} SortSorted<T(!new)>(s: seq<T>, le: (T, T) -> bool)
    requires Total(le) && Transitive(le)
    ensures SortedBy(Sort(s, le), le)
  {
    if s != [] {
      SortSorted(s[1..], le);
      InsertSorted(s[0], Sort(s[1..], le), le);
    }
  }

  lemma PermutationMembers<T>(a: seq<T>, b: seq<T>)
    requires multiset(a) == multiset(b)
    ensures |a| == |b|
    ensures forall x :: x in a <==> x in b
  {
    assert |multiset(a)| == |multiset(b)|;
    forall x ensures x in a <==> x in b {
      assert x in a <==> x in multiset(a);
      assert x in b <==> x in multiset(b);
    }
  }

  lemma DistinctPermutation<T>(a: seq<T>, b: seq<T>)
    requires multiset(a) == multiset(b) && Distinct(a)
    ensures Distinct(b)
  {
    PermutationMembers(a, b);
    DistinctCard(a);
    assert ToSet(a) == ToSet(b);
    CardAtMost(b);
  }

  lemma TailMultiset<T>(a: seq<T>)
    requires a != []
    ensures multiset(a[1..]) == multiset(a) - multiset{a[0]}
  {
    assert a == [a[0]] + a[1..];
  }

  lemma SortedHead<T(!new)>(a: seq<T>, b: seq<T>, le: (T, T) -> bool)
    requires a != [] && b != [] && SortedBy(a, le) && SortedBy(b, le)
    requires a[0] in b && b[0] in a
    requires le(a[0], b[0]) && le(b[0], a[0]) ==> a[0] == b[0]
    ensures a[0] == b[0]
  {
    var i :| 0 <= i < |b| && b[i] == a[0];
    var j :| 0 <= j < |a| && a[j] == b[0];
    if i > 0 && j > 0 {
      assert le(a[0], a[j]) && le(b[0], b[i]);
    }
  }

  /** The heads agree, and so do the contents of the tails. */
  lemma SortedTails<T(!new)>(a: seq<T>, b: seq<T>, le: (T, T) -> bool)
    requires SortedBy(a, le) && SortedBy(b, le) && multiset(a) == multiset(b) && a != []
    requires Separates(a, le)
    ensures b != [] && a[0] == b[0] && multiset(a[1..]) == multiset(b[1..])
    ensures Separates(a[1..], le)
  {
    PermutationMembers(a, b);
    assert a[0] in a && b[0] in b;
    SortedHead(a, b, le);
    TailMultiset(a);
    TailMultiset(b);
  }

  /** The order tells any two different elements apart. */
  ghost predicate Separates<T>(s: seq<T>, le: (T, T) -> bool) {
    forall i, j | 0 <= i < |s| && 0 <= j < |s| && le(s[i], s[j]) && le(s[j], s[i]) :: s[i] == s[j]
  }

  /** Two sorted arrangements of the same elements under a total order are the same sequence. */
  lemma {:induction false} SortedUnique<T(!new)>(a: seq<T>, b: seq<T>, le: (T, T) -> bool)
    requires SortedBy(a, le) && SortedBy(b, le) && multiset(a) == multiset(b)
    requires Separates(a, le)
    ensures a == b
  {
    assert |multiset(a)| == |multiset(b)|;
    if a != [] {
      SortedTails(a, b, le);
      SortedUnique(a[1..], b[1..], le);
      assert a == [a[0]] + a[1..];
      assert b == [b[0]] + b[1..];
    }
  }

  /** Sorting under a total order does not depend on the input order. */
  lemma SortPermutation<T(!new)>(a: seq<T>, b: seq<T>, le: (T, T) -> bool)
    requires Total(le) && Transitive(le) && multiset(a) == multiset(b)
    requires Separates(a, le)
    ensures Sort(a, le) == Sort(b, le)
  {
    SortSorted(a, le);
    SortSorted(b, le);
    PermutationMembers(a, Sort(a, le));
    var r := Sort(a, le);
    forall i, j | 0 <= i < |r| && 0 <= j < |r| && le(r[i], r[j]) && le(r[j], r[i]) ensures r[i] == r[j] {
      assert r[i] in a && r[j] in a;
    }
    SortedUnique(r, Sort(b, le), le);
  }

  // ----- Sorted elements of a set

  lemma LeastMember(elements: set<nat>) returns (least: nat)
    requires elements != {}
    ensures least in elements && forall x | x in elements :: least <= x
  {
    var x :| x in elements;
    var rest := elements - {x};
    least := x;
    if rest == {} {
      assert elements == {x};
    } else {
      var m := LeastMember(rest);
      if m < x { least := m; }
      assert forall y | y in elements :: y == x || y in rest;
    }
  }

  function Least(elements: set<nat>): (least: nat)
    requires elements != {}
    ensures least in elements && forall x | x in elements :: least <= x
  {
    assert exists least :: least in elements && forall x | x in elements :: least <= x by {
      var m := LeastMember(elements);
    }
    var least :| least in elements && forall x | x in elements :: least <= x;
    least
  }

  /** The elements in increasing order. */
  function SortedElements(elements: set<nat>): seq<nat> {
    if elements == {} then [] else [Least(elements)] + SortedElements(elements - {Least(elements)})
  }

  lemma {:induction false} SortedElementsSound(elements: set<nat>)
    ensures ToSet(SortedElements(elements)) == elements
    ensures forall i, j | 0 <= i < j < |SortedElements(elements)| ::
              SortedElements(elements)[i] < SortedElements(elements)[j]
  {
    if elements != {} {
      var least := Least(elements);
      var rest := SortedElements(elements - {least});
      SortedElementsSound(elements - {least});
      assert ToSet([least] + rest) == {least} + ToSet(rest);
      forall j | 0 <= j < |rest| ensures least < rest[j] {
        assert rest[j] in ToSet(rest);
      }
    }
  }

  // ----- Counting

  function CountIf<T>(s: seq<T>, p: T -> bool): nat {
    if s == [] then 0 else (if p(s[0]) then 1 else 0) + CountIf(s[1..], p)
  }

  function Matching<T(!new)>(s: seq<T>, p: T -> bool): set<T> {
    set x | x in s && p(x)
  }

  /** Among distinct elements, counting is the size of the set of those counted. */
  lemma {:induction false} CountIfCard<T(!new)>(s: seq<T>, p: T -> bool)
    requires Distinct(s)
    ensures CountIf(s, p) == |Matching(s, p)|
  {
    if s != [] {
      CountIfCard(s[1..], p);
      var rest := Matching(s[1..], p);
      assert forall x :: x in s <==> x == s[0] || x in s[1..];
      assert s[0] !in rest;
      assert Matching(s, p) == if p(s[0]) then rest + {s[0]} else rest;
    }
  }

  lemma {:induction false} CountIfAppend<T>(a: seq<T>, b: seq<T>, p: T -> bool)
    ensures CountIf(a + b, p) == CountIf(a, p) + CountIf(b, p)
  {
    if a == [] {
      assert a + b == b;
    } else {
      assert (a + b)[1..] == a[1..] + b;
      CountIfAppend(a[1..], b, p);
    }
  }

  lemma RemoveMultiset<T>(b: seq<T>, i: nat)
    requires i < |b|
    ensures multiset(b[..i] + b[i + 1..]) == multiset(b) - multiset{b[i]}
  {
    assert b == b[..i] + ([b[i]] + b[i + 1..]);
    assert multiset(b) == multiset(b[..i]) + (multiset{b[i]} + multiset(b[i + 1..]));
  }

  lemma {:induction false} CountIfPermutation<T>(a: seq<T>, b: seq<T>, p: T -> bool)
    requires multiset(a) == multiset(b)
    ensures CountIf(a, p) == CountIf(b, p)
  {
    PermutationMembers(a, b);
    if a != [] {
      assert a[0] in b;
      var i :| 0 <= i < |b| && b[i] == a[0];
      TailMultiset(a);
      RemoveMultiset(b, i);
      CountIfPermutation(a[1..], b[..i] + b[i + 1..], p);
      assert b == b[..i] + b[i..];
      CountIfAppend(b[..i], b[i..], p);
      CountIfAppend(b[..i], b[i + 1..], p);
      assert b[i..][1..] == b[i + 1..];
    }
  }

  lemma {:induction false} CountIfBounds<T>(s: seq<T>, p: T -> bool)
    ensures CountIf(s, p) <= |s|
    ensures (forall x | x in s :: p(x)) ==> CountIf(s, p) == |s|
    ensures (forall x | x in s :: !p(x)) ==> CountIf(s, p) == 0
    ensures (exists x | x in s :: p(x)) ==> CountIf(s, p) >= 1
  {
    if s != [] {
      CountIfBounds(s[1..], p);
      assert forall x | x in s[1..] :: x in s;
      assert s[0] in s;
      if exists x | x in s :: p(x) {
        var x :| x in s && p(x);
        assert x == s[0] || x in s[1..];
      }
    }
  }

  lemma CountIfStep<T>(s: seq<T>, i: nat, p: T -> bool)
    requires i < |s|
    ensures CountIf(s[..i + 1], p) == CountIf(s[..i], p) + if p(s[i]) then 1 else 0
  {
    assert s[..i + 1] == s[..i] + [s[i]];
    CountIfAppend(s[..i], [s[i]], p);
    assert CountIf([s[i]][1..], p) == 0;
  }

  lemma {:induction false} CountIfMonotone<T>(s: seq<T>, p: T -> bool, q: T -> bool)
    requires forall x | x in s :: p(x) ==> q(x)
    ensures CountIf(s, p) <= CountIf(s, q)
  {
    if s != [] {
      assert s[0] in s;
      assert forall x | x in s[1..] :: x in s;
      CountIfMonotone(s[1..], p, q);
    }
  }

  function Filter<T(!new)>(s: seq<T>, p: T -> bool): (r: seq<T>)
    ensures forall x :: x in r <==> x in s && p(x)
    ensures |r| == CountIf(s, p)
  {
    if s == [] then [] else (if p(s[0]) then [s[0]] else []) + Filter(s[1..], p)
  }

  lemma {:induction false} FilterAppend<T(!new)>(a: seq<T>, b: seq<T>, p: T -> bool)
    ensures Filter(a + b, p) == Filter(a, p) + Filter(b, p)
  {
    if a == [] {
      assert a + b == b;
    } else {
      assert (a + b)[1..] == a[1..] + b;
      FilterAppend(a[1..], b, p);
    }
  }

  lemma FilterStep<T(!new)>(s: seq<T>, i: nat, p: T -> bool)
    requires i < |s|
    ensures Filter(s[..i + 1], p) == Filter(s[..i], p) + if p(s[i]) then [s[i]] else []
  {
    assert s[..i + 1] == s[..i] + [s[i]];
    FilterAppend(s[..i], [s[i]], p);
    assert [s[i]][1..] == [] && Filter([s[i]][1..], p) == [];
  }

  lemma {:induction false} FilterPermutation<T(!new)>(a: seq<T>, b: seq<T>, p: T -> bool)
    requires multiset(a) == multiset(b)
    ensures multiset(Filter(a, p)) == multiset(Filter(b, p))
  {
    forall x ensures multiset(Filter(a, p))[x] == multiset(Filter(b, p))[x] {
      FilterCount(a, p, x);
      FilterCount(b, p, x);
    }
  }

  lemma {:induction false} FilterCount<T(!new)>(s: seq<T>, p: T -> bool, x: T)
    ensures multiset(Filter(s, p))[x] == if p(x) then multiset(s)[x] else 0
  {
    if s != [] {
      FilterCount(s[1..], p, x);
      assert s == [s[0]] + s[1..];
      assert multiset(s)[x] == multiset([s[0]])[x] + multiset(s[1..])[x];
    }
  }

  // ----- Sums

  function Sum<T>(s: seq<T>, f: T -> int): int {
    if s == [] then 0 else f(s[0]) + Sum(s[1..], f)
  }

  lemma {:induction false} SumMonotone<T>(s: seq<T>, f: T -> int, g: T -> int)
    requires forall x | x in s :: f(x) <= g(x)
    ensures Sum(s, f) <= Sum(s, g)
    ensures (forall x | x in s :: f(x) == g(x)) ==> Sum(s, f) == Sum(s, g)
    ensures (exists x | x in s :: f(x) < g(x)) ==> Sum(s, f) < Sum(s, g)
  {
    if s != [] {
      assert s[0] in s;
      assert forall x | x in s[1..] :: x in s;
      SumMonotone(s[1..], f, g);
      if exists x | x in s :: f(x) < g(x) {
        var x :| x in s && f(x) < g(x);
        assert x == s[0] || x in s[1..];
      }
    }
  }

  /** Two measures that differ at one element only have sums that differ by as much. */
  lemma {:induction false} SumDiffers<T>(s: seq<T>, f: T -> int, g: T -> int, x: T)
    requires Distinct(s) && x in s
    requires forall y | y in s && y != x :: f(y) == g(y)
    ensures Sum(s, g) == Sum(s, f) + g(x) - f(x)
  {
    assert s[0] in s;
    assert forall y | y in s[1..] :: y in s;
    if s[0] == x {
      assert forall j | 0 < j < |s| :: s[j] != s[0];
      assert x !in s[1..];
      SumMonotone(s[1..], f, g);
    } else {
      SumDiffers(s[1..], f, g, x);
    }
  }

  lemma {:induction false} SumAppend<T>(a: seq<T>, b: seq<T>, f: T -> int)
    ensures Sum(a + b, f) == Sum(a, f) + Sum(b, f)
  {
    if a == [] {
      assert a + b == b;
    } else {
      assert (a + b)[1..] == a[1..] + b;
      SumAppend(a[1..], b, f);
    }
  }

  function RealSum<T>(s: seq<T>, f: T -> real): real {
    if s == [] then 0.0 else f(s[0]) + RealSum(s[1..], f)
  }

  lemma {:induction false} RealSumAppend<T>(a: seq<T>, b: seq<T>, f: T -> real)
    ensures RealSum(a + b, f) == RealSum(a, f) + RealSum(b, f)
  {
    if a == [] {
      assert a + b == b;
    } else {
      assert (a + b)[1..] == a[1..] + b;
      RealSumAppend(a[1..], b, f);
    }
  }

  lemma {:induction false} RealSumMonotone<T>(s: seq<T>, f: T -> real, g: T -> real)
    requires forall x | x in s :: f(x) <= g(x)
    ensures RealSum(s, f) <= RealSum(s, g)
    ensures (forall x | x in s :: f(x) == g(x)) ==> RealSum(s, f) == RealSum(s, g)
  {
    if s != [] {
      assert s[0] in s;
      assert forall x | x in s[1..] :: x in s;
      RealSumMonotone(s[1..], f, g);
    }
  }

  lemma {:induction false} RealSumDiffers<T>(s: seq<T>, f: T -> real, g: T -> real, x: T)
    requires Distinct(s) && x in s
    requires forall y | y in s && y != x :: f(y) == g(y)
    ensures RealSum(s, g) == RealSum(s, f) + g(x) - f(x)
  {
    assert s[0] in s;
    assert forall y | y in s[1..] :: y in s;
    if s[0] == x {
      assert forall j | 0 < j < |s| :: s[j] != s[0];
      assert x !in s[1..];
      RealSumMonotone(s[1..], f, g);
    } else {
      RealSumDiffers(s[1..], f, g, x);
    }
  }

  lemma {:induction false} RealSumPermutation<T>(a: seq<T>, b: seq<T>, f: T -> real)
    requires multiset(a) == multiset(b)
    ensures RealSum(a, f) == RealSum(b, f)
  {
    PermutationMembers(a, b);
    if a != [] {
      assert a[0] in b;
      var i :| 0 <= i < |b| && b[i] == a[0];
      TailMultiset(a);
      RemoveMultiset(b, i);
      RealSumPermutation(a[1..], b[..i] + b[i + 1..], f);
      assert b == b[..i] + b[i..];
      RealSumAppend(b[..i], b[i..], f);
      RealSumAppend(b[..i], b[i + 1..], f);
      assert b[i..][1..] == b[i + 1..];
    }
  }
}
