/** Stable sorting of sequences by a total preorder: the model of Python's `sorted`
    (with and without a key), of `sorted(set(...))` and of JavaScript's `sort`. */
module Sorting {

  ghost predicate TotalPreorder<T(!new)>(le: (T, T) -> bool) {
    && (forall a, b :: le(a, b) || le(b, a))
    && (forall a, b, c :: le(a, b) && le(b, c) ==> le(a, c))
  }

  ghost predicate Ordered<T>(le: (T, T) -> bool, s: seq<T>) {
    forall i, j | 0 <= i < j < |s| :: le(s[i], s[j])
  }

  /** Elements of `s` that the order cannot tell apart are equal. */
  ghost predicate Distinguishes<T>(le: (T, T) -> bool, s: seq<T>) {
    forall i, j | 0 <= i < |s| && 0 <= j < |s| :: le(s[i], s[j]) && le(s[j], s[i]) ==> s[i] == s[j]
  }

  function Insert<T>(le: (T, T) -> bool, x: T, s: seq<T>): seq<T> {
    if s == [] then [x]
    else if le(x, s[0]) then [x] + s
    else [s[0]] + Insert(le, x, s[1..])
  }

  function SortBy<T>(le: (T, T) -> bool, s: seq<T>): seq<T> {
    if s == [] then [] else Insert(le, s[0], SortBy(le, s[1..]))
  }

  lemma {:induction false} InsertContents<T>(le: (T, T) -> bool, x: T, s: seq<T>)
    ensures multiset(Insert(le, x, s)) == multiset{x} + multiset(s)
  {
    if s != [] && !le(x, s[0]) {
      InsertContents(le, x, s[1..]);
      assert s == [s[0]] + s[1..];
    }
  }

  lemma {:induction false} InsertOrdered<T(!new)>(le: (T, T) -> bool, x: T, s: seq<T>)
    requires TotalPreorder(le) && Ordered(le, s)
    ensures Ordered(le, Insert(le, x, s))
  {
    if s != [] && !le(x, s[0]) {
      InsertOrdered(le, x, s[1..]);
      var r := Insert(le, x, s[1..]);
      InsertContents(le, x, s[1..]);
      forall j | 0 <= j < |r| ensures le(s[0], r[j]) {
        assert r[j] in multiset(r);
        assert r[j] == x || r[j] in s[1..];
      }
    }
  }

  /** `SortBy` returns an ordered permutation of its argument. */
  lemma {:induction false} SortedPermutation<T(!new)>(le: (T, T) -> bool, s: seq<T>)
    requires TotalPreorder(le)
    ensures Ordered(le, SortBy(le, s))
    ensures multiset(SortBy(le, s)) == multiset(s)
    ensures |SortBy(le, s)| == |s|
  {
    if s != [] {
      SortedPermutation(le, s[1..]);
      InsertOrdered(le, s[0], SortBy(le, s[1..]));
      InsertContents(le, s[0], SortBy(le, s[1..]));
      assert s == [s[0]] + s[1..];
    }
    assert |multiset(SortBy(le, s))| == |multiset(s)|;
  }

  lemma {:induction false} SameElements<T>(s: seq<T>, t: seq<T>)
    requires multiset(s) == multiset(t)
    ensures |s| == |t|
    ensures forall x :: x in s <==> x in t
  {
    assert |multiset(s)| == |multiset(t)|;
    forall x ensures x in s <==> x in t {
      assert x in s <==> x in multiset(s);
    }
  }

  /** Ordered permutations agree when the order distinguishes their elements. */
  lemma {:induction false} SameLeast<T(!new)>(le: (T, T) -> bool, s: seq<T>, t: seq<T>)
    requires TotalPreorder(le) && Ordered(le, s) && Ordered(le, t) && Distinguishes(le, s)
    requires s != [] && t != [] && s[0] in t && t[0] in s
    ensures s[0] == t[0]
  {
    var i :| 0 <= i < |s| && s[i] == t[0];
    var j :| 0 <= j < |t| && t[j] == s[0];
    assert le(s[0], s[0]) && le(t[0], t[0]);
    assert le(s[0], s[i]) && le(t[0], t[j]);
  }

  lemma {:induction false} TailContents<T>(s: seq<T>)
    requires s != []
    ensures multiset(s[1..]) == multiset(s) - multiset{s[0]}
  {
    assert s == [s[0]] + s[1..];
  }

  lemma {:induction false} TailOrdered<T>(le: (T, T) -> bool, s: seq<T>)
    requires s != [] && Ordered(le, s)
    ensures Ordered(le, s[1..]) && (Distinguishes(le, s) ==> Distinguishes(le, s[1..]))
  {
  }

  lemma {:induction false} SameFirst<T(!new)>(le: (T, T) -> bool, s: seq<T>, t: seq<T>)
    requires TotalPreorder(le) && Ordered(le, s) && Ordered(le, t) && Distinguishes(le, s)
    requires multiset(s) == multiset(t)
    ensures |s| == |t|
    ensures s != [] ==> s[0] == t[0] && multiset(s[1..]) == multiset(t[1..])
  {
    SameElements(s, t);
    if s != [] {
      assert s[0] in t && t[0] in s;
      SameLeast(le, s, t);
      hide *;
      TailContents(s);
      TailContents(t);
    }
  }

  lemma {:induction false} OrderedUnique<T(!new)>(le: (T, T) -> bool, s: seq<T>, t: seq<T>)
    requires TotalPreorder(le) && Ordered(le, s) && Ordered(le, t)
    requires multiset(s) == multiset(t) && Distinguishes(le, s)
    ensures s == t
  {
    hide *;
    SameFirst(le, s, t);
    if s != [] {
      TailOrdered(le, s);
      TailOrdered(le, t);
      OrderedUnique(le, s[1..], t[1..]);
      assert s == [s[0]] + s[1..] && t == [t[0]] + t[1..];
    }
  }

  /** Sorting depends only on the multiset of elements, when the order distinguishes them. */
  lemma {:induction false} SortIgnoresOrder<T(!new)>(le: (T, T) -> bool, s: seq<T>, t: seq<T>)
    requires TotalPreorder(le) && multiset(s) == multiset(t) && Distinguishes(le, s)
    ensures SortBy(le, s) == SortBy(le, t)
  {
    SortedPermutation(le, s);
    SortedPermutation(le, t);
    var a := SortBy(le, s);
    forall i, j | 0 <= i < |a| && 0 <= j < |a| && le(a[i], a[j]) && le(a[j], a[i])
      ensures a[i] == a[j]
    {
      SameElements(a, s);
      assert a[i] in s && a[j] in s;
    }
    OrderedUnique(le, a, SortBy(le, t));
  }

  // ------------------------------------------------------------ filtering and counting

  function Filter<T(!new)>(p: T -> bool, s: seq<T>): (r: seq<T>)
    ensures forall x :: x in r <==> x in s && p(x)
  {
    if s == [] then [] else (if p(s[0]) then [s[0]] else []) + Filter(p, s[1..])
  }

  function Count<T>(p: T -> bool, s: seq<T>): nat {
    if s == [] then 0 else (if p(s[0]) then 1 else 0) + Count(p, s[1..])
  }

  lemma {:induction false} FilterAppend<T(!new)>(p: T -> bool, s: seq<T>, t: seq<T>)
    ensures Filter(p, s + t) == Filter(p, s) + Filter(p, t)
  {
    if s == [] {
      assert s + t == t;
    } else {
      assert (s + t)[1..] == s[1..] + t;
      FilterAppend(p, s[1..], t);
    }
  }

  lemma {:induction false} CountAppend<T(!new)>(p: T -> bool, s: seq<T>, t: seq<T>)
    ensures Count(p, s + t) == Count(p, s) + Count(p, t)
  {
    if s == [] {
      assert s + t == t;
    } else {
      assert (s + t)[1..] == s[1..] + t;
      CountAppend(p, s[1..], t);
    }
  }

  lemma {:induction false} FilterMultiset<T(!new)>(p: T -> bool, s: seq<T>, x: T)
    ensures multiset(Filter(p, s))[x] == if p(x) then multiset(s)[x] else 0
  {
    if s != [] {
      assert s == [s[0]] + s[1..];
      FilterMultiset(p, s[1..], x);
    }
  }

  lemma {:induction false} FilterIgnoresOrder<T(!new)>(p: T -> bool, s: seq<T>, t: seq<T>)
    requires multiset(s) == multiset(t)
    ensures multiset(Filter(p, s)) == multiset(Filter(p, t))
  {
    forall x ensures multiset(Filter(p, s))[x] == multiset(Filter(p, t))[x] {
      FilterMultiset(p, s, x);
      FilterMultiset(p, t, x);
    }
  }

  lemma {:induction false} CountIsFilter<T(!new)>(p: T -> bool, s: seq<T>)
    ensures Count(p, s) == |Filter(p, s)| <= |s|
  {
    if s != [] { CountIsFilter(p, s[1..]); }
  }

  lemma {:induction false} CountIgnoresOrder<T(!new)>(p: T -> bool, s: seq<T>, t: seq<T>)
    requires multiset(s) == multiset(t)
    ensures Count(p, s) == Count(p, t)
  {
    CountIsFilter(p, s);
    CountIsFilter(p, t);
    FilterIgnoresOrder(p, s, t);
    SameElements(Filter(p, s), Filter(p, t));
  }

  lemma {:induction false} CountCongruent<T(!new)>(p: T -> bool, q: T -> bool, s: seq<T>)
    requires forall x | x in s :: p(x) == q(x)
    ensures Count(p, s) == Count(q, s)
  {
    if s != [] { CountCongruent(p, q, s[1..]); }
  }

  lemma {:induction false} CountMonotone<T(!new)>(p: T -> bool, q: T -> bool, s: seq<T>)
    requires forall x | x in s :: p(x) ==> q(x)
    ensures Count(p, s) <= Count(q, s)
  {
    if s != [] { CountMonotone(p, q, s[1..]); }
  }

  /** Two disjoint predicates count separately. */
  lemma {:induction false} CountSplit<T(!new)>(p: T -> bool, q: T -> bool, r: T -> bool, s: seq<T>)
    requires forall x | x in s :: p(x) == (q(x) || r(x)) && !(q(x) && r(x))
    ensures Count(p, s) == Count(q, s) + Count(r, s)
  {
    if s != [] { CountSplit(p, q, r, s[1..]); }
  }

  lemma {:induction false} CountZero<T(!new)>(p: T -> bool, s: seq<T>)
    ensures Count(p, s) == 0 <==> forall x | x in s :: !p(x)
  {
    if s != [] {
      CountZero(p, s[1..]);
      assert s == [s[0]] + s[1..];
    }
  }

  lemma {:induction false} CountOfFilter<T(!new)>(p: T -> bool, q: T -> bool, r: T -> bool, s: seq<T>)
    requires forall x | x in s :: r(x) == (p(x) && q(x))
    ensures Count(p, Filter(q, s)) == Count(r, s)
  {
    if s != [] {
      CountOfFilter(p, q, r, s[1..]);
      CountAppend(p, if q(s[0]) then [s[0]] else [], Filter(q, s[1..]));
    }
  }

  /** A stable sort keeps the relative order of elements the order cannot tell apart. */
  lemma {:induction false} InsertStable<T(!new)>(le: (T, T) -> bool, p: T -> bool, x: T, s: seq<T>)
    requires forall a, b | p(a) && p(b) :: le(a, b)
    ensures Filter(p, Insert(le, x, s)) == Filter(p, [x]) + Filter(p, s)
  {
    if s == [] {
    } else if le(x, s[0]) {
      FilterAppend(p, [x], s);
    } else {
      assert !(p(x) && p(s[0]));
      InsertStable(le, p, x, s[1..]);
      InsertBehind(le, p, x, s);
    }
  }

  lemma {:induction false} InsertBehind<T(!new)>(le: (T, T) -> bool, p: T -> bool, x: T, s: seq<T>)
    requires s != [] && !le(x, s[0]) && !(p(x) && p(s[0]))
    requires Filter(p, Insert(le, x, s[1..])) == Filter(p, [x]) + Filter(p, s[1..])
    ensures Filter(p, Insert(le, x, s)) == Filter(p, [x]) + Filter(p, s)
  {
    var rest := Insert(le, x, s[1..]);
    assert Insert(le, x, s) == [s[0]] + rest;
    hide Filter, Insert;
    FilterHead(p, s[0], rest);
    FilterHead(p, s[0], s[1..]);
    FilterOne(p, x);
    assert [s[0]] + s[1..] == s;
    Pass(if p(s[0]) then [s[0]] else [], Filter(p, [x]), Filter(p, s[1..]));
  }

  lemma {:induction false} FilterOne<T(!new)>(p: T -> bool, x: T)
    ensures Filter(p, [x]) == if p(x) then [x] else []
  {
    FilterHead(p, x, []);
    assert [x] + [] == [x];
  }

  lemma {:induction false} Pass<T>(a: seq<T>, b: seq<T>, s: seq<T>)
    requires a == [] || b == []
    ensures a + (b + s) == b + (a + s)
  {
    assert a == [] ==> a + (b + s) == b + s && a + s == s;
    assert b == [] ==> b + s == s && b + (a + s) == a + s;
  }

  lemma {:induction false} FilterHead<T(!new)>(p: T -> bool, x: T, s: seq<T>)
    ensures Filter(p, [x] + s) == (if p(x) then [x] else []) + Filter(p, s)
    ensures s == [] ==> Filter(p, s) == []
  {
    assert ([x] + s)[1..] == s;
  }

  lemma {:induction false} SortStable<T(!new)>(le: (T, T) -> bool, p: T -> bool, s: seq<T>)
    requires forall a, b | p(a) && p(b) :: le(a, b)
    ensures Filter(p, SortBy(le, s)) == Filter(p, s)
  {
    if s != [] {
      SortStable(le, p, s[1..]);
      InsertStable(le, p, s[0], SortBy(le, s[1..]));
      FilterAppend(p, [s[0]], s[1..]);
      assert s == [s[0]] + s[1..];
    }
  }

  // ------------------------------------------------------------ sorted(set(...))

  /** Drops each element equal to its predecessor. */
  function Dedup<T(==)>(s: seq<T>): seq<T> {
    if |s| < 2 then s
    else if s[0] == s[1] then Dedup(s[1..])
    else [s[0]] + Dedup(s[1..])
  }

  function SortedSet<T(==)>(le: (T, T) -> bool, s: seq<T>): seq<T> {
    Dedup(SortBy(le, s))
  }

  /** Strictly increasing: ordered, and no two positions hold equal elements. */
  ghost predicate Increasing<T>(le: (T, T) -> bool, s: seq<T>) {
    Ordered(le, s) && forall i, j | 0 <= i < j < |s| :: s[i] != s[j]
  }

  lemma {:induction false} DedupMembers<T>(s: seq<T>)
    ensures forall x :: x in Dedup(s) <==> x in s
    ensures |Dedup(s)| <= |s|
    ensures s != [] ==> Dedup(s) != [] && Dedup(s)[0] == s[0]
  {
    if |s| >= 2 {
      DedupMembers(s[1..]);
      assert s == [s[0]] + s[1..];
    }
  }

  lemma {:induction false} DedupIncreasing<T(!new)>(le: (T, T) -> bool, s: seq<T>)
    requires TotalPreorder(le) && Ordered(le, s) && Distinguishes(le, s)
    ensures Increasing(le, Dedup(s))
  {
    if |s| >= 2 {
      var rest := s[1..];
      DedupIncreasing(le, rest);
      DedupMembers(rest);
      if s[0] != s[1] {
        var d := Dedup(rest);
        forall j | 0 <= j < |d| ensures le(s[0], d[j]) && s[0] != d[j] {
          assert d[j] in rest;
          var k :| 0 <= k < |rest| && rest[k] == d[j];
          assert s[k + 1] == d[j];
          assert le(s[0], s[k + 1]);
          assert le(s[0], s[1]) && le(s[1], s[k + 1]) && le(s[1], s[1]);
        }
      }
    }
  }

  /** `sorted(set(s))` is strictly increasing and holds exactly the elements of `s`. */
  lemma {:induction false} SortedSetProperties<T(!new)>(le: (T, T) -> bool, s: seq<T>)
    requires TotalPreorder(le) && Distinguishes(le, s)
    ensures Increasing(le, SortedSet(le, s))
    ensures forall x :: x in SortedSet(le, s) <==> x in s
    ensures |SortedSet(le, s)| <= |s|
  {
    SortedPermutation(le, s);
    var a := SortBy(le, s);
    SameElements(a, s);
    forall i, j | 0 <= i < |a| && 0 <= j < |a| && le(a[i], a[j]) && le(a[j], a[i])
      ensures a[i] == a[j]
    {
      assert a[i] in s && a[j] in s;
    }
    DedupIncreasing(le, a);
    DedupMembers(a);
  }

  lemma {:induction false} IncreasingHead<T(!new)>(le: (T, T) -> bool, s: seq<T>, t: seq<T>)
    requires TotalPreorder(le) && Increasing(le, s) && Increasing(le, t)
    requires forall x :: x in s <==> x in t
    requires forall a, b | a in s && b in s && le(a, b) && le(b, a) :: a == b
    ensures |s| > 0 ==> |t| > 0 && s[0] == t[0]
  {
    if |s| > 0 {
      assert s[0] in s && s[0] in t;
      assert t[0] in t && t[0] in s;
      assert le(s[0], s[0]) && le(t[0], t[0]);
      assert le(s[0], t[0]) && le(t[0], s[0]);
    }
  }

  /** Strictly increasing sequences with the same elements are equal. */
  lemma {:induction false} IncreasingUnique<T(!new)>(le: (T, T) -> bool, s: seq<T>, t: seq<T>)
    requires TotalPreorder(le) && Increasing(le, s) && Increasing(le, t)
    requires forall x :: x in s <==> x in t
    requires forall a, b | a in s && b in s && le(a, b) && le(b, a) :: a == b
    ensures s == t
  {
    IncreasingHead(le, t, s);
    if s != [] {
      IncreasingHead(le, s, t);
      assert s == [s[0]] + s[1..] && t == [t[0]] + t[1..];
      forall x ensures x in s[1..] <==> x in t[1..] {
        TailMembers(s, x);
        TailMembers(t, x);
      }
      IncreasingUnique(le, s[1..], t[1..]);
    }
  }

  lemma {:induction false} TailMembers<T>(s: seq<T>, x: T)
    requires s != [] && forall i, j | 0 <= i < j < |s| :: s[i] != s[j]
    ensures x in s[1..] <==> x in s && x != s[0]
  {
    assert s == [s[0]] + s[1..];
  }

  // ------------------------------------------------------------ concrete orders

  predicate RealLe(a: real, b: real) { a <= b }

  /** Lexicographic order on strings, by code point. */
  predicate StringLe(a: string, b: string) {
    a == [] || (b != [] && (a[0] < b[0] || (a[0] == b[0] && StringLe(a[1..], b[1..]))))
  }

  lemma {:induction false} StringLeTotal(a: string, b: string)
    ensures StringLe(a, b) || StringLe(b, a)
    ensures StringLe(a, b) && StringLe(b, a) ==> a == b
  {
    if a != [] && b != [] {
      StringLeTotal(a[1..], b[1..]);
      assert a == [a[0]] + a[1..] && b == [b[0]] + b[1..];
    }
  }

  lemma {:induction false} StringLeTransitive(a: string, b: string, c: string)
    requires StringLe(a, b) && StringLe(b, c)
    ensures StringLe(a, c)
  {
    if a != [] && a[0] == b[0] == c[0] {
      StringLeTransitive(a[1..], b[1..], c[1..]);
    }
  }

  lemma {:induction false} RealLeOrder()
    ensures TotalPreorder(RealLe)
    ensures forall s: seq<real> :: Distinguishes(RealLe, s)
  {
  }

  lemma {:induction false} StringLeOrder()
    ensures TotalPreorder(StringLe)
    ensures forall s: seq<string> :: Distinguishes(StringLe, s)
  {
    forall a, b ensures StringLe(a, b) || StringLe(b, a) { StringLeTotal(a, b); }
    forall a, b, c | StringLe(a, b) && StringLe(b, c) ensures StringLe(a, c) {
      StringLeTransitive(a, b, c);
    }
    forall s: seq<string>, i, j | 0 <= i < |s| && 0 <= j < |s| && StringLe(s[i], s[j]) && StringLe(s[j], s[i])
      ensures s[i] == s[j]
    {
      StringLeTotal(s[i], s[j]);
    }
  }
}
