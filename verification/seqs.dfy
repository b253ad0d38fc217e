/** Sequence operations shared by the query builders of the model: filtering
    (a `where` clause), first-match lookup (`find`), SQL `LIMIT`/`OFFSET`, the
    collection `take`, and a stable sort by a caller-supplied order. */
module Seqs {
  import opened Wrappers

  /** The elements of `s` that satisfy `p`, in their original order. */
  function Filter<T(!new)>(p: T -> bool, s: seq<T>): (r: seq<T>)
    ensures |r| <= |s|
    ensures forall x :: x in r <==> x in s && p(x)
  {
    if |s| == 0 then []
    else if p(s[0]) then [s[0]] + Filter(p, s[1..])
    else Filter(p, s[1..])
  }

  /** Filtering keeps exactly the multiplicities of the accepted elements. */
  lemma {:induction false} FilterMultiset<T(!new)>(p: T -> bool, s: seq<T>, x: T)
    ensures multiset(Filter(p, s))[x] == if p(x) then multiset(s)[x] else 0
  {
    if |s| > 0 {
      FilterMultiset(p, s[1..], x);
      assert s == [s[0]] + s[1..];
    }
  }

  /** Two tests that accept the same elements filter alike. */
  lemma {:induction false} FilterIgual<T(!new)>(p: T -> bool, q: T -> bool, s: seq<T>)
    requires forall x :: p(x) == q(x)
    ensures Filter(p, s) == Filter(q, s)
  {
    if |s| > 0 {
      FilterIgual(p, q, s[1..]);
    }
  }

  /** Two `where` clauses one after the other keep what their conjunction keeps. */
  lemma {:induction false} FilterFilter<T(!new)>(p: T -> bool, q: T -> bool, pq: T -> bool, s: seq<T>)
    requires forall x :: pq(x) == (q(x) && p(x))
    ensures Filter(p, Filter(q, s)) == Filter(pq, s)
  {
    if |s| > 0 {
      FilterFilter(p, q, pq, s[1..]);
    }
  }

  /** Filtering the concatenation is concatenating the filtered parts. */
  lemma {:induction false} FilterAppend<T(!new)>(p: T -> bool, a: seq<T>, b: seq<T>)
    ensures Filter(p, a + b) == Filter(p, a) + Filter(p, b)
  {
    if |a| > 0 {
      assert (a + b)[1..] == a[1..] + b;
      FilterAppend(p, a[1..], b);
    } else {
      assert a + b == b;
    }
  }

  /** A filter every element passes keeps the whole sequence. */
  lemma {:induction false} FilterTodos<T(!new)>(p: T -> bool, s: seq<T>)
    requires forall i :: 0 <= i < |s| ==> p(s[i])
    ensures Filter(p, s) == s
  {
    if |s| > 0 {
      FilterTodos(p, s[1..]);
    }
  }

  /** A filter no element passes keeps nothing. */
  lemma {:induction false} FilterNinguno<T(!new)>(p: T -> bool, s: seq<T>)
    requires forall i :: 0 <= i < |s| ==> !p(s[i])
    ensures Filter(p, s) == []
  {
    if |s| > 0 {
      FilterNinguno(p, s[1..]);
    }
  }

  /** Index of the first element satisfying `p`, if any (Eloquent's `first()`). */
  function IndexWhere<T>(p: T -> bool, s: seq<T>): (r: Option<nat>)
    ensures r.Some? ==> r.value < |s| && p(s[r.value])
    ensures r.Some? ==> forall j :: 0 <= j < r.value ==> !p(s[j])
    ensures r.None? <==> forall j :: 0 <= j < |s| ==> !p(s[j])
  {
    IndexFrom(p, s, 0)
  }

  function IndexFrom<T>(p: T -> bool, s: seq<T>, i: nat): (r: Option<nat>)
    requires i <= |s|
    requires forall j :: 0 <= j < i ==> !p(s[j])
    ensures r.Some? ==> i <= r.value < |s| && p(s[r.value])
    ensures r.Some? ==> forall j :: 0 <= j < r.value ==> !p(s[j])
    ensures r.None? <==> forall j :: 0 <= j < |s| ==> !p(s[j])
    decreases |s| - i
  {
    if i == |s| then None
    else if p(s[i]) then Some(i)
    else IndexFrom(p, s, i + 1)
  }

  /** SQL `LIMIT n` as the query builder applies it: a negative limit is ignored. */
  function SqlLimit<T>(s: seq<T>, n: int): (r: seq<T>)
    ensures r <= s
    ensures n >= 0 ==> |r| == if n < |s| then n else |s|
    ensures n < 0 ==> r == s
  {
    if 0 <= n < |s| then s[..n] else s
  }

  /** SQL `OFFSET k` as the query builder applies it: negative offsets count as 0. */
  function SqlOffset<T>(s: seq<T>, k: int): (r: seq<T>)
    ensures |r| == if k <= 0 then |s| else if k < |s| then |s| - k else 0
    ensures forall i :: 0 <= i < |r| ==> r[i] == s[|s| - |r| + i]
  {
    if k <= 0 then s else if k < |s| then s[k..] else []
  }

  /** The collection method `take(n)`: the first `n` items, or the last `-n` items
      when `n` is negative. */
  function Take<T>(s: seq<T>, n: int): (r: seq<T>)
    ensures |r| == if n >= 0 then (if n < |s| then n else |s|) else (if -n < |s| then -n else |s|)
    ensures n >= 0 ==> r <= s
    ensures n < 0 ==> forall i :: 0 <= i < |r| ==> r[i] == s[|s| - |r| + i]
  {
    if n >= 0 then (if n < |s| then s[..n] else s)
    else if -n < |s| then s[|s| + n..] else s
  }

  /** The items `take` keeps form a contiguous slice of the input. */
  lemma TakeSlice<T>(s: seq<T>, n: int)
    ensures var r := Take(s, n); var o := if n >= 0 then 0 else |s| - |r|;
      0 <= o <= o + |r| <= |s| && r == s[o..o + |r|]
  {
  }

  /** Applies `f` to every element. */
  function Map<A, B>(f: A -> B, s: seq<A>): (r: seq<B>)
    ensures |r| == |s|
    ensures forall i :: 0 <= i < |s| ==> r[i] == f(s[i])
  {
    seq(|s|, i requires 0 <= i < |s| => f(s[i]))
  }

  lemma MapAppend<A, B>(f: A -> B, x: seq<A>, y: seq<A>)
    ensures Map(f, x + y) == Map(f, x) + Map(f, y)
  {
  }

  /** `s` without its element at index `k`. */
  function RemoveAt<T>(s: seq<T>, k: nat): (r: seq<T>)
    requires k < |s|
    ensures |r| == |s| - 1
    ensures forall i :: 0 <= i < k ==> r[i] == s[i]
    ensures forall i :: k <= i < |r| ==> r[i] == s[i + 1]
  {
    s[..k] + s[k + 1..]
  }

  lemma RemoveAtMultiset<T>(s: seq<T>, k: nat)
    requires k < |s|
    ensures multiset(RemoveAt(s, k)) + multiset{s[k]} == multiset(s)
  {
    assert s == s[..k] + [s[k]] + s[k + 1..];
  }

  lemma MapRemoveAt<A, B>(f: A -> B, s: seq<A>, k: nat)
    requires k < |s|
    ensures Map(f, RemoveAt(s, k)) == RemoveAt(Map(f, s), k)
  {
  }

  lemma MultisetCancel<T>(m: multiset<T>, n: multiset<T>, x: T)
    requires m + multiset{x} == n + multiset{x}
    ensures m == n
  {
    forall y ensures m[y] == n[y] {
      assert (m + multiset{x})[y] == (n + multiset{x})[y];
    }
  }

  /** Mapping two permutations of each other gives permutations of each other. */
  lemma {:induction false} MapPermutation<A, B>(f: A -> B, a: seq<A>, b: seq<A>)
    requires multiset(a) == multiset(b)
    ensures multiset(Map(f, a)) == multiset(Map(f, b))
    decreases |a|
  {
    if |a| == 0 {
      assert |b| == |multiset(b)| == 0;
    } else {
      var x := a[0];
      assert x in multiset(b);
      var k :| 0 <= k < |b| && b[k] == x;
      RemoveAtMultiset(a, 0);
      RemoveAtMultiset(b, k);
      MultisetCancel(multiset(RemoveAt(a, 0)), multiset(RemoveAt(b, k)), x);
      MapPermutation(f, RemoveAt(a, 0), RemoveAt(b, k));
      MapRemoveAt(f, a, 0);
      MapRemoveAt(f, b, k);
      RemoveAtMultiset(Map(f, a), 0);
      RemoveAtMultiset(Map(f, b), k);
      assert Map(f, a)[0] == f(x) == Map(f, b)[k];
    }
  }

  // ---------------------------------------------------------------------------
  // Stable sorting by a total preorder

  ghost predicate Total<T(!new)>(le: (T, T) -> bool) {
    forall a, b :: le(a, b) || le(b, a)
  }

  ghost predicate Transitive<T(!new)>(le: (T, T) -> bool) {
    forall a, b, c :: le(a, b) && le(b, c) ==> le(a, c)
  }

  predicate SortedBy<T>(le: (T, T) -> bool, s: seq<T>) {
    forall i, j :: 0 <= i < j < |s| ==> le(s[i], s[j])
  }

  /** Inserts `x` in front of the first element it is not greater than, so that
      `x` precedes every element of `s` that ties with it. */
  function InsertBy<T(==)>(le: (T, T) -> bool, x: T, s: seq<T>): (r: seq<T>)
    ensures |r| == |s| + 1
    ensures multiset(r) == multiset(s) + multiset{x}
  {
    if |s| == 0 then [x]
    else if le(x, s[0]) then [x] + s
    else
      assert s == [s[0]] + s[1..];
      [s[0]] + InsertBy(le, x, s[1..])
  }

  lemma {:induction false} InsertBySorted<T(!new)>(le: (T, T) -> bool, x: T, s: seq<T>)
    requires Total(le) && Transitive(le)
    requires SortedBy(le, s)
    ensures SortedBy(le, InsertBy(le, x, s))
  {
    if |s| == 0 {
    } else if le(x, s[0]) {
      var r := [x] + s;
      forall i, j | 0 <= i < j < |r| ensures le(r[i], r[j]) {
        if i == 0 {
          if j > 1 {
            assert le(s[0], s[j - 1]);
          }
        } else {
          assert le(s[i - 1], s[j - 1]);
        }
      }
    } else {
      assert le(s[0], x);
      var t := InsertBy(le, x, s[1..]);
      InsertBySorted(le, x, s[1..]);
      var r := [s[0]] + t;
      assert r == InsertBy(le, x, s);
      forall i, j | 0 <= i < j < |r| ensures le(r[i], r[j]) {
        if i == 0 {
          var y := t[j - 1];
          assert y in multiset(t);
          assert y in multiset(s[1..]) || y == x;
          if y != x {
            assert y in s[1..];
            var k :| 0 <= k < |s[1..]| && s[1..][k] == y;
            assert le(s[0], s[k + 1]);
          }
        } else {
          assert le(t[i - 1], t[j - 1]);
        }
      }
    }
  }

  /** Stable insertion sort of `s` by `le`. */
  function SortBy<T(==,!new)>(le: (T, T) -> bool, s: seq<T>): (r: seq<T>)
    requires Total(le) && Transitive(le)
    ensures |r| == |s|
    ensures multiset(r) == multiset(s)
    ensures SortedBy(le, r)
  {
    if |s| == 0 then []
    else
      var t := SortBy(le, s[1..]);
      InsertBySorted(le, s[0], t);
      assert s == [s[0]] + s[1..];
      InsertBy(le, s[0], t)
  }

  /** The elements that tie with `c` under `le`. */
  function Empata<T>(le: (T, T) -> bool, c: T): T -> bool {
    (x: T) => le(x, c) && le(c, x)
  }

  /** Inserting `x` into a sorted list puts it in front of every element that
      ties with it. */
  lemma {:induction false} InsertByEmpates<T(!new)>(le: (T, T) -> bool, x: T, t: seq<T>, c: T)
    requires Transitive(le)
    ensures Filter(Empata(le, c), InsertBy(le, x, t)) == Filter(Empata(le, c), [x]) + Filter(Empata(le, c), t)
  {
    var e := Empata(le, c);
    if |t| == 0 {
    } else if le(x, t[0]) {
      FilterAppend(e, [x], t);
    } else {
      var y := t[0];
      assert !(e(x) && e(y)) by {
        assert le(x, c) && le(c, y) ==> le(x, y);
      }
      var fx, f0, f1 := Filter(e, [x]), Filter(e, [t[0]]), Filter(e, t[1..]);
      InsertByEmpates(le, x, t[1..], c);
      var i := InsertBy(le, x, t[1..]);
      assert InsertBy(le, x, t) == [t[0]] + i;
      FilterAppend(e, [t[0]], i);
      FilterAppend(e, [t[0]], t[1..]);
      assert t == [t[0]] + t[1..];
      UnoVacio(fx, f0, f1);
    }
  }

  /** Two blocks of which one is empty can change places. */
  lemma UnoVacio<T>(a: seq<T>, b: seq<T>, f: seq<T>)
    requires a == [] || b == []
    ensures b + (a + f) == a + (b + f)
  {
  }

  /** The sort is stable: the elements that tie with any `c` keep their input
      order. */
  lemma {:induction false} SortByEstable<T(!new)>(le: (T, T) -> bool, s: seq<T>, c: T)
    requires Total(le) && Transitive(le)
    ensures Filter(Empata(le, c), SortBy(le, s)) == Filter(Empata(le, c), s)
  {
    if |s| > 0 {
      var t := SortBy(le, s[1..]);
      SortByEstable(le, s[1..], c);
      InsertByEmpates(le, s[0], t, c);
      assert s == [s[0]] + s[1..];
      FilterAppend(Empata(le, c), [s[0]], s[1..]);
    }
  }

  /** An element of a sorted permutation of `s` is below every element of `s`
      when it sits first. */
  lemma SortedHeadIsLeast<T(!new)>(le: (T, T) -> bool, r: seq<T>, s: seq<T>)
    requires |r| > 0 && SortedBy(le, r) && multiset(r) == multiset(s)
    requires forall a :: le(a, a)
    ensures r[0] in s
    ensures forall x :: x in s ==> le(r[0], x)
  {
    assert r[0] in multiset(r);
    forall x | x in s ensures le(r[0], x) {
      assert x in multiset(s);
      assert x in r;
      var k :| 0 <= k < |r| && r[k] == x;
      if k > 0 {
        assert le(r[0], r[k]);
      }
    }
  }

  // ---------------------------------------------------------------------------
  // Lexicographic order on strings (code-point order)

  predicate LexLe(a: string, b: string) {
    |a| == 0 || (|b| > 0 && (a[0] < b[0] || (a[0] == b[0] && LexLe(a[1..], b[1..]))))
  }

  lemma {:induction false} LexLeTotal(a: string, b: string)
    ensures LexLe(a, b) || LexLe(b, a)
  {
    if |a| > 0 && |b| > 0 && a[0] == b[0] {
      LexLeTotal(a[1..], b[1..]);
    }
  }

  lemma {:induction false} LexLeTransitive(a: string, b: string, c: string)
    requires LexLe(a, b) && LexLe(b, c)
    ensures LexLe(a, c)
  {
    if |a| > 0 && |b| > 0 && |c| > 0 && a[0] == b[0] && b[0] == c[0] {
      LexLeTransitive(a[1..], b[1..], c[1..]);
    }
  }
}
