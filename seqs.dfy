/**
  * The array operations the application relies on (`filter`, `map`, `reduce`
  * with `+`, `Math.max(...xs)`, `Math.min(...xs)`, `new Set(xs)` spread back into
  * an array, and `sort` with a numeric comparator), written as functions over
  * sequences together with the facts the rest of the model needs about them.
  */
module Seqs {
  import opened Wrappers

  // ---------------------------------------------------------------------------
  // filter

  /** `r` is `s` with some elements dropped and the rest kept in order. */
  predicate IsSubsequence<T(==)>(r: seq<T>, s: seq<T>)
    decreases |s|
  {
    r == [] || (s != [] && ((r[0] == s[0] && IsSubsequence(r[1..], s[1..])) || IsSubsequence(r, s[1..])))
  }

  lemma {:induction false} SubsequenceReflexive<T>(s: seq<T>)
    ensures IsSubsequence(s, s)
  {
    if s != [] {
      SubsequenceReflexive(s[1..]);
    }
  }

  /** Dropping elements twice is dropping elements once. */
  lemma {:induction false} SubsequenceTransitive<T>(a: seq<T>, b: seq<T>, c: seq<T>)
    requires IsSubsequence(a, b) && IsSubsequence(b, c)
    ensures IsSubsequence(a, c)
    decreases |c|
  {
    if a != [] {
      if IsSubsequence(b, c[1..]) {
        SubsequenceTransitive(a, b, c[1..]);
      } else if a[0] == b[0] && IsSubsequence(a[1..], b[1..]) {
        SubsequenceTransitive(a[1..], b[1..], c[1..]);
      } else {
        SubsequenceTransitive(a, b[1..], c[1..]);
      }
    }
  }

  /** `s.filter(p)`: the elements satisfying `p`, in their original order. */
  function Filter<T(==)>(s: seq<T>, p: T -> bool): (r: seq<T>)
    ensures |r| <= |s|
    ensures forall i :: 0 <= i < |r| ==> r[i] in s && p(r[i])
    ensures forall i :: 0 <= i < |s| && p(s[i]) ==> s[i] in r
    ensures IsSubsequence(r, s)
  {
    if s == [] then []
    else if p(s[0]) then [s[0]] + Filter(s[1..], p)
    else Filter(s[1..], p)
  }

  lemma {:induction false} FilterAppend<T>(s: seq<T>, t: seq<T>, p: T -> bool)
    ensures Filter(s + t, p) == Filter(s, p) + Filter(t, p)
  {
    if s == [] {
      assert s + t == t;
    } else {
      assert (s + t)[0] == s[0] && (s + t)[1..] == s[1..] + t;
      FilterAppend(s[1..], t, p);
    }
  }

  /** One more element of `s` scanned: the filtered prefix grows by it exactly when it passes. */
  lemma FilterPrefixStep<T>(s: seq<T>, i: nat, p: T -> bool)
    requires i < |s|
    ensures Filter(s[..i + 1], p) == Filter(s[..i], p) + (if p(s[i]) then [s[i]] else [])
  {
    FilterAppend(s[..i], [s[i]], p);
    assert s[..i + 1] == s[..i] + [s[i]];
  }

  /** A predicate that holds of every element keeps the sequence whole. */
  lemma {:induction false} FilterAll<T>(s: seq<T>, p: T -> bool)
    requires forall i :: 0 <= i < |s| ==> p(s[i])
    ensures Filter(s, p) == s
  {
    if s != [] {
      FilterAll(s[1..], p);
    }
  }

  /** The opposite test. */
  function Negate<T>(p: T -> bool): T -> bool {
    (x: T) => !p(x)
  }

  /** Filtering by a test and by its negation splits the list without loss. */
  lemma {:induction false} FilterSplit<T>(s: seq<T>, p: T -> bool)
    ensures multiset(Filter(s, p)) + multiset(Filter(s, Negate(p))) == multiset(s)
  {
    if s != [] {
      var x, rest := s[0], s[1..];
      var a, b := Filter(rest, p), Filter(rest, Negate(p));
      FilterSplit(rest, p);
      assert multiset(s) == multiset{x} + multiset(rest) by {
        assert s == [x] + rest;
      }
      if p(x) {
        assert multiset(Filter(s, p)) == multiset{x} + multiset(a) by {
          assert Filter(s, p) == [x] + a;
        }
        assert Filter(s, Negate(p)) == b;
      } else {
        assert Filter(s, p) == a;
        assert multiset(Filter(s, Negate(p))) == multiset{x} + multiset(b) by {
          assert Filter(s, Negate(p)) == [x] + b;
        }
      }
    }
  }

  /** The test "differs from `x`". */
  function Unequal<T(==)>(x: T): T -> bool {
    (y: T) => y != x
  }

  /** Filtering out `x` drops every copy of `x` and keeps every copy of everything else. */
  lemma {:induction false} FilterOutCounts<T>(s: seq<T>, x: T)
    ensures multiset(Filter(s, Unequal(x))) == multiset(s)[x := 0]
  {
    if s != [] {
      var y, rest := s[0], s[1..];
      FilterOutCounts(rest, x);
      assert multiset(s) == multiset{y} + multiset(rest) by {
        assert s == [y] + rest;
      }
      if y == x {
        assert Filter(s, Unequal(x)) == Filter(rest, Unequal(x));
      } else {
        assert multiset(Filter(s, Unequal(x))) == multiset{y} + multiset(Filter(rest, Unequal(x))) by {
          assert Filter(s, Unequal(x)) == [y] + Filter(rest, Unequal(x));
        }
      }
    }
  }

  lemma {:induction false} FilterNone<T>(s: seq<T>, p: T -> bool)
    requires forall i :: 0 <= i < |s| ==> !p(s[i])
    ensures Filter(s, p) == []
  {
    if s != [] {
      assert forall i :: 0 <= i < |s[1..]| ==> s[1..][i] == s[i + 1];
      FilterNone(s[1..], p);
    }
  }

  lemma FilterMember<T>(s: seq<T>, p: T -> bool, x: T)
    requires x in Filter(s, p)
    ensures x in s && p(x)
  {
  }

  /** `xs.filter(p).length`. */
  function Count<T(==)>(s: seq<T>, p: T -> bool): (n: nat)
    ensures n <= |s|
  {
    |Filter(s, p)|
  }

  lemma CountAppend<T>(s: seq<T>, t: seq<T>, p: T -> bool)
    ensures Count(s + t, p) == Count(s, p) + Count(t, p)
  {
    FilterAppend(s, t, p);
  }

  /** Replacing one element changes the count by what the old and the new element contribute. */
  lemma CountUpdate<T>(s: seq<T>, i: nat, x: T, p: T -> bool)
    requires i < |s|
    ensures Count(s[i := x], p) == Count(s, p) - (if p(s[i]) then 1 else 0) + (if p(x) then 1 else 0)
  {
    var pre, post := s[..i], s[i + 1..];
    assert s == pre + [s[i]] + post;
    assert s[i := x] == pre + [x] + post;
    CountAppend(pre + [s[i]], post, p);
    CountAppend(pre, [s[i]], p);
    CountAppend(pre + [x], post, p);
    CountAppend(pre, [x], p);
  }

  /** Two predicates that never hold together count at most the whole sequence between them. */
  lemma {:induction false} CountDisjoint<T>(s: seq<T>, p: T -> bool, q: T -> bool)
    requires forall x :: !(p(x) && q(x))
    ensures Count(s, p) + Count(s, q) <= |s|
  {
    if s != [] {
      CountDisjoint(s[1..], p, q);
    }
  }

  /** Counting `p` and counting its negation split the sequence. */
  lemma {:induction false} CountComplement<T>(s: seq<T>, p: T -> bool)
    ensures Count(s, p) + Count(s, x => !p(x)) == |s|
  {
    if s != [] {
      CountComplement(s[1..], p);
    }
  }

  /** A predicate that holds of no element counts nothing. */
  lemma {:induction false} CountNone<T>(s: seq<T>, p: T -> bool)
    requires forall i :: 0 <= i < |s| ==> !p(s[i])
    ensures Count(s, p) == 0
  {
    if s != [] {
      CountNone(s[1..], p);
    }
  }

  /** Predicates that agree on every element count alike. */
  lemma {:induction false} CountAgree<T>(s: seq<T>, p: T -> bool, q: T -> bool)
    requires forall i :: 0 <= i < |s| ==> p(s[i]) == q(s[i])
    ensures Count(s, p) == Count(s, q)
  {
    if s != [] {
      CountAgree(s[1..], p, q);
    }
  }

  /** Counting a predicate that is one of two exclusive cases adds up the counts of the cases. */
  lemma {:induction false} CountSplit<T>(s: seq<T>, p: T -> bool, q: T -> bool, r: T -> bool)
    requires forall x :: p(x) == (q(x) || r(x))
    requires forall x :: !(q(x) && r(x))
    ensures Count(s, p) == Count(s, q) + Count(s, r)
  {
    if s != [] {
      CountSplit(s[1..], p, q, r);
    }
  }

  /** Both predicates at once. */
  function Both<T>(q: T -> bool, p: T -> bool): T -> bool {
    x => q(x) && p(x)
  }

  /** Counting within a filtered sequence counts the elements that satisfy both predicates. */
  lemma {:induction false} CountFiltered<T>(s: seq<T>, q: T -> bool, p: T -> bool)
    ensures Count(Filter(s, q), p) == Count(s, Both(q, p))
  {
    if s != [] {
      CountFiltered(s[1..], q, p);
      if q(s[0]) {
        assert Filter(s, q)[1..] == Filter(s[1..], q);
      }
    }
  }

  // ---------------------------------------------------------------------------
  // map

  /** `s.map(f)`. */
  function Map<T, U>(s: seq<T>, f: T -> U): (r: seq<U>)
    ensures |r| == |s|
    ensures forall i :: 0 <= i < |s| ==> r[i] == f(s[i])
  {
    if s == [] then [] else [f(s[0])] + Map(s[1..], f)
  }

  lemma {:induction false} MapAppend<T, U>(s: seq<T>, t: seq<T>, f: T -> U)
    ensures Map(s + t, f) == Map(s, f) + Map(t, f)
  {
  }

  // ---------------------------------------------------------------------------
  // reduce((a, b) => a + b, 0), Math.max(...xs), Math.min(...xs)

  function Sum(s: seq<real>): real {
    if s == [] then 0.0 else s[0] + Sum(s[1..])
  }

  lemma {:induction false} SumAppend(s: seq<real>, t: seq<real>)
    ensures Sum(s + t) == Sum(s) + Sum(t)
  {
    if s == [] {
      assert s + t == t;
    } else {
      assert (s + t)[1..] == s[1..] + t;
      SumAppend(s[1..], t);
    }
  }

  /** `Math.max(...s)` on a non-empty list: an element that no element exceeds. */
  function MaxOf(s: seq<real>): (m: real)
    requires |s| > 0
    ensures m in s
    ensures forall i :: 0 <= i < |s| ==> s[i] <= m
  {
    if |s| == 1 then s[0]
    else
      var m := MaxOf(s[1..]);
      if s[0] >= m then s[0] else m
  }

  /** `Math.min(...s)` on a non-empty list: an element that exceeds no element. */
  function MinOf(s: seq<real>): (m: real)
    requires |s| > 0
    ensures m in s
    ensures forall i :: 0 <= i < |s| ==> m <= s[i]
  {
    if |s| == 1 then s[0]
    else
      var m := MinOf(s[1..]);
      if s[0] <= m then s[0] else m
  }

  /** A sum lies between the length times any lower bound and the length times any upper bound. */
  lemma {:induction false} SumBetween(s: seq<real>, lo: real, hi: real)
    requires forall i :: 0 <= i < |s| ==> lo <= s[i] <= hi
    ensures |s| as real * lo <= Sum(s) <= |s| as real * hi
  {
    if s != [] {
      SumBetween(s[1..], lo, hi);
    }
  }

  /** The mean of a non-empty list lies between its minimum and its maximum. */
  lemma {:induction false} MeanBetweenMinAndMax(s: seq<real>)
    requires |s| > 0
    ensures MinOf(s) <= Sum(s) / |s| as real <= MaxOf(s)
  {
    MeanWithin(s, MinOf(s), MaxOf(s));
  }

  lemma MeanWithin(s: seq<real>, lo: real, hi: real)
    requires |s| > 0
    requires forall i :: 0 <= i < |s| ==> lo <= s[i] <= hi
    ensures lo <= Sum(s) / |s| as real <= hi
  {
    SumBetween(s, lo, hi);
    DivideBounds(Sum(s), |s| as real, lo, hi);
  }

  lemma DivideBounds(a: real, n: real, lo: real, hi: real)
    requires n > 0.0 && n * lo <= a <= n * hi
    ensures lo <= a / n <= hi
  {
    var q := a / n;
    assert n * q == a;
    assert n * (q - lo) >= 0.0;
    assert n * (hi - q) >= 0.0;
  }

  /** `whole > 0 ? (part / whole) * 100 : 0`. */
  function PercentOf(part: nat, whole: nat): (p: real)
    ensures whole == 0 ==> p == 0.0
    ensures whole > 0 ==> p == part as real / whole as real * 100.0
    ensures 0.0 <= p
    ensures part <= whole ==> p <= 100.0
    ensures part == whole && whole > 0 ==> p == 100.0
  {
    if whole > 0 then
      var q := part as real / whole as real;
      assert 0.0 <= q by {
        NonNegativeQuotient(part as real, whole as real);
      }
      assert part <= whole ==> q <= 1.0 by {
        if part <= whole {
          DivideBounds(part as real, whole as real, 0.0, 1.0);
        }
      }
      q * 100.0
    else 0.0
  }

  lemma NonNegativeQuotient(a: real, n: real)
    requires a >= 0.0 && n > 0.0
    ensures a / n >= 0.0
  {
    var q := a / n;
    assert n * q == a;
  }

  // ---------------------------------------------------------------------------
  // [...new Set(s)]

  predicate NoDuplicates<T(==)>(s: seq<T>) {
    forall i, j :: 0 <= i < j < |s| ==> s[i] != s[j]
  }

  /** The position of the first occurrence of `x` in `s`. */
  function FirstIndex<T(==)>(s: seq<T>, x: T): (i: nat)
    requires x in s
    ensures i < |s| && s[i] == x
    ensures forall k :: 0 <= k < i ==> s[k] != x
  {
    if s[0] == x then 0
    else
      var i := 1 + FirstIndex(s[1..], x);
      assert forall k :: 0 < k < i ==> s[k] == s[1..][k - 1];
      i
  }

  /** The first occurrence is the only position holding `x` with no `x` before it. */
  lemma {:induction false} FirstIndexUnique<T>(s: seq<T>, x: T, i: nat)
    requires i < |s| && s[i] == x
    requires forall k :: 0 <= k < i ==> s[k] != x
    ensures FirstIndex(s, x) == i
  {
    if s[0] != x {
      assert forall k :: 0 <= k < i - 1 ==> s[1..][k] == s[k + 1];
      FirstIndexUnique(s[1..], x, i - 1);
    }
  }

  /** Only the prefix up to the first occurrence decides it: a longer sequence finds the same position. */
  lemma FirstIndexInPrefix<T>(s: seq<T>, k: nat, x: T)
    requires k <= |s| && x in s[..k]
    ensures FirstIndex(s, x) == FirstIndex(s[..k], x)
  {
    var i := FirstIndex(s[..k], x);
    assert forall j :: 0 <= j < i ==> s[j] == s[..k][j];
    FirstIndexUnique(s, x, i);
  }

  /**
    * `[...new Set(s)]`: each element once, in the order of its first
    * occurrence in `s`.
    */
  function Distinct<T(==)>(s: seq<T>): (r: seq<T>)
    ensures NoDuplicates(r)
    ensures forall i :: 0 <= i < |r| ==> r[i] in s
    ensures forall i :: 0 <= i < |s| ==> s[i] in r
    ensures forall i, j :: 0 <= i < j < |r| ==> FirstIndex(s, r[i]) < FirstIndex(s, r[j])
  {
    if s == [] then []
    else
      var d := Distinct(s[..|s| - 1]);
      DistinctStepMembers(s, d);
      DistinctStepOrder(s, d);
      var r := if s[|s| - 1] in d then d else d + [s[|s| - 1]];
      r
  }

  /** One more element at the end: still each element of the input once, and nothing else. */
  lemma DistinctStepMembers<T>(s: seq<T>, d: seq<T>)
    requires s != []
    requires NoDuplicates(d)
    requires forall i :: 0 <= i < |d| ==> d[i] in s[..|s| - 1]
    requires forall i :: 0 <= i < |s| - 1 ==> s[i] in d
    ensures var r := if s[|s| - 1] in d then d else d + [s[|s| - 1]];
      && NoDuplicates(r)
      && (forall i :: 0 <= i < |r| ==> r[i] in s)
      && (forall i :: 0 <= i < |s| ==> s[i] in r)
  {
    var init, x := s[..|s| - 1], s[|s| - 1];
    var r := if x in d then d else d + [x];
    forall i | 0 <= i < |s|
      ensures s[i] in r
    {
      if i < |init| {
        assert s[i] == init[i];
      }
    }
    forall i | 0 <= i < |r|
      ensures r[i] in s
    {
      if i < |d| {
        assert r[i] == d[i];
        var k :| 0 <= k < |init| && init[k] == d[i];
        assert s[k] == d[i];
      }
    }
  }

  /** One more element at the end keeps the result in order of first occurrence. */
  lemma DistinctStepOrder<T>(s: seq<T>, d: seq<T>)
    requires s != []
    requires forall i :: 0 <= i < |d| ==> d[i] in s[..|s| - 1]
    requires forall i :: 0 <= i < |s| - 1 ==> s[i] in d
    requires forall i, j :: 0 <= i < j < |d| ==> FirstIndex(s[..|s| - 1], d[i]) < FirstIndex(s[..|s| - 1], d[j])
    ensures var r := if s[|s| - 1] in d then d else d + [s[|s| - 1]];
      forall i, j :: 0 <= i < j < |r| ==> r[i] in s && r[j] in s && FirstIndex(s, r[i]) < FirstIndex(s, r[j])
  {
    var init, x := s[..|s| - 1], s[|s| - 1];
    assert s == init + [x];
    var r := if x in d then d else d + [x];
    forall i, j | 0 <= i < j < |r|
      ensures r[i] in s && r[j] in s && FirstIndex(s, r[i]) < FirstIndex(s, r[j])
    {
      assert r[i] == d[i];
      FirstIndexSnocOld(init, x, d[i]);
      if j < |d| {
        assert r[j] == d[j];
        FirstIndexSnocOld(init, x, d[j]);
      } else {
        assert r[j] == x && x !in d;
        assert x !in init;
        FirstIndexSnocNew(init, x);
      }
    }
  }

  lemma FirstIndexSnocOld<T>(init: seq<T>, x: T, y: T)
    requires y in init
    ensures y in init + [x] && FirstIndex(init + [x], y) == FirstIndex(init, y)
  {
    assert (init + [x])[..|init|] == init;
    FirstIndexInPrefix(init + [x], |init|, y);
  }

  lemma FirstIndexSnocNew<T>(init: seq<T>, x: T)
    requires x !in init
    ensures x in init + [x] && FirstIndex(init + [x], x) == |init|
  {
    var s := init + [x];
    assert s[|init|] == x;
    forall k | 0 <= k < |init|
      ensures s[k] != x
    {
      assert s[k] == init[k];
    }
    FirstIndexUnique(s, x, |init|);
  }

  // ---------------------------------------------------------------------------
  // sort((a, b) => key(a) - key(b))

  predicate SortedBy<T>(s: seq<T>, key: T -> real) {
    forall i, j :: 0 <= i < j < |s| ==> key(s[i]) <= key(s[j])
  }

  function InsertBy<T(==)>(x: T, s: seq<T>, key: T -> real): (r: seq<T>)
    requires SortedBy(s, key)
    ensures SortedBy(r, key)
    ensures multiset(r) == multiset(s) + multiset{x}
    ensures |r| == |s| + 1 && (r[0] == x || (s != [] && r[0] == s[0]))
  {
    if s == [] || key(x) <= key(s[0]) then
      [x] + s
    else
      var rest := InsertBy(x, s[1..], key);
      var r := [s[0]] + rest;
      assert s == [s[0]] + s[1..];
      assert multiset(r) == multiset{s[0]} + multiset(rest);
      assert key(s[0]) <= key(rest[0]);
      forall i, j | 0 <= i < j < |r|
        ensures key(r[i]) <= key(r[j])
      {
        assert r[j] == rest[j - 1];
        if i > 0 {
          assert r[i] == rest[i - 1];
        } else if j > 1 {
          assert key(rest[0]) <= key(rest[j - 1]);
        }
      }
      r
  }

  /** A stable sort by ascending `key`: the result is ordered and a permutation of the input. */
  function SortBy<T(==)>(s: seq<T>, key: T -> real): (r: seq<T>)
    ensures SortedBy(r, key)
    ensures multiset(r) == multiset(s)
    ensures |r| == |s|
    ensures forall i :: 0 <= i < |r| ==> r[i] in s
    ensures forall i :: 0 <= i < |s| ==> s[i] in r
  {
    if s == [] then []
    else
      assert s == [s[0]] + s[1..];
      var r := InsertBy(s[0], SortBy(s[1..], key), key);
      SameElements(r, s);
      r
  }

  /** Two sequences with the same multiset have the same elements. */
  lemma SameElements<T>(a: seq<T>, b: seq<T>)
    requires multiset(a) == multiset(b)
    ensures forall i :: 0 <= i < |a| ==> a[i] in b
    ensures forall i :: 0 <= i < |b| ==> b[i] in a
  {
    forall i | 0 <= i < |a|
      ensures a[i] in b
    {
      assert a[i] in multiset(b);
    }
    forall i | 0 <= i < |b|
      ensures b[i] in a
    {
      assert b[i] in multiset(a);
    }
  }

  // ---------------------------------------------------------------------------
  // Small list helpers shared by several pages and controllers

  /** `list.some(x => key(x) === k)`. */
  function AnyHasKey<T, K(==)>(s: seq<T>, key: T -> K, k: K): (b: bool)
    ensures b <==> exists i :: 0 <= i < |s| && key(s[i]) == k
  {
    if s == [] then false
    else if key(s[0]) == k then true
    else
      var b := AnyHasKey(s[1..], key, k);
      assert (exists i :: 0 <= i < |s| && key(s[i]) == k) ==> b by {
        if i :| 0 <= i < |s| && key(s[i]) == k {
          assert key(s[1..][i - 1]) == k;
        }
      }
      b
  }

  /**
    * `findById` over a stored list: the position of the first element whose
    * key is `k`, or none when no element has it.
    */
  function FindBy<T, K(==)>(s: seq<T>, key: T -> K, k: K): (r: Option<nat>)
    ensures r.Some? ==> r.value < |s| && key(s[r.value]) == k
    ensures r.Some? ==> forall j :: 0 <= j < r.value ==> key(s[j]) != k
    ensures r.None? <==> forall i :: 0 <= i < |s| ==> key(s[i]) != k
  {
    if s == [] then None
    else if key(s[0]) == k then Some(0)
    else
      var r := FindBy(s[1..], key, k);
      assert forall i :: 1 <= i < |s| ==> s[i] == s[1..][i - 1];
      if r.None? then None else Some(r.value + 1)
  }

  /** One list's length minus another's, not clamped at zero. */
  function LengthGap<T, U>(all: seq<T>, taken: seq<U>): (n: int)
    ensures n < 0 <==> |taken| > |all|
    ensures n + |taken| == |all|
  {
    |all| - |taken|
  }

  /** The sequence without position `k` (`splice(k, 1)`), the rest in order. */
  function RemoveAt<T>(s: seq<T>, k: nat): (r: seq<T>)
    requires k < |s|
    ensures |r| == |s| - 1
    ensures forall i :: 0 <= i < k ==> r[i] == s[i]
    ensures forall i :: k <= i < |r| ==> r[i] == s[i + 1]
  {
    s[..k] + s[k + 1..]
  }

  // ---------------------------------------------------------------------------
  // Validation chains

  /**
    * An express-validator chain's error list: the message of every check
    * that fails, in chain order.
    */
  function Flags<T>(oks: seq<bool>, msgs: seq<T>): (r: seq<T>)
    requires |oks| == |msgs|
    ensures r == [] <==> forall i :: 0 <= i < |oks| ==> oks[i]
    ensures forall x :: x in r ==> x in msgs
    ensures |r| <= |msgs|
  {
    if oks == [] then []
    else if oks[0] then Flags(oks[1..], msgs[1..])
    else [msgs[0]] + Flags(oks[1..], msgs[1..])
  }

  lemma {:induction false} FlagsInOrder<T>(oks: seq<bool>, msgs: seq<T>)
    requires |oks| == |msgs|
    ensures IsSubsequence(Flags(oks, msgs), msgs)
  {
    if oks != [] {
      FlagsInOrder(oks[1..], msgs[1..]);
      var r := Flags(oks, msgs);
      if !oks[0] {
        assert r[0] == msgs[0] && r[1..] == Flags(oks[1..], msgs[1..]);
      }
    }
  }

  /** With distinct messages, a message is listed exactly when its own check fails. */
  lemma {:induction false} FlagsMembers<T>(oks: seq<bool>, msgs: seq<T>)
    requires |oks| == |msgs|
    requires forall i, j :: 0 <= i < j < |msgs| ==> msgs[i] != msgs[j]
    ensures forall i :: 0 <= i < |msgs| ==> (msgs[i] in Flags(oks, msgs) <==> !oks[i])
  {
    if oks != [] {
      var tail := msgs[1..];
      FlagsMembers(oks[1..], tail);
      assert msgs[0] !in tail by {
        forall k | 0 <= k < |tail|
          ensures tail[k] != msgs[0]
        {
          assert tail[k] == msgs[k + 1];
        }
      }
      forall i | 0 < i < |msgs|
        ensures msgs[i] in Flags(oks, msgs) <==> !oks[i]
      {
        assert msgs[i] == tail[i - 1] && oks[i] == oks[1..][i - 1];
      }
    }
  }
}
