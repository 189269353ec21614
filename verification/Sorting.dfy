/**
 Stable sorting with a comparison function, as `Array.prototype.sort` performs it,
 and the facts about it that the components rely on: a sort is a sorted permutation,
 and it forgets the input order whenever the comparison separates the elements.
 */
module Sorting {

  /** `le` compares any two values and is transitive: what a comparator passed to a sort must offer. */
  ghost predicate TotalPreorder<T(!new)>(le: (T, T) -> bool) {
    && (forall x, y :: le(x, y) || le(y, x))
    && (forall x, y, z :: le(x, y) && le(y, z) ==> le(x, z))
  }

  /** The comparison never ties two different elements of `s`. */
  ghost predicate Separates<T>(le: (T, T) -> bool, s: seq<T>) {
    forall x, y | x in s && y in s :: le(x, y) && le(y, x) ==> x == y
  }

  ghost predicate Sorted<T>(s: seq<T>, le: (T, T) -> bool) {
    forall i, j | 0 <= i < j < |s| :: le(s[i], s[j])
  }

  ghost predicate Distinct<T>(s: seq<T>) {
    forall i, j | 0 <= i < j < |s| :: s[i] != s[j]
  }

  /** Inserts before the first element that is not smaller, which keeps the sort stable. */
  function Insert<T>(x: T, s: seq<T>, le: (T, T) -> bool): seq<T> {
    if s == [] then [x]
    else if le(x, s[0]) then [x] + s
    else [s[0]] + Insert(x, s[1..], le)
  }

  function Sort<T>(s: seq<T>, le: (T, T) -> bool): seq<T> {
    if s == [] then [] else Insert(s[0], Sort(s[1..], le), le)
  }

  lemma {:induction false} InsertPermutes<T>(x: T, s: seq<T>, le: (T, T) -> bool)
    ensures multiset(Insert(x, s, le)) == multiset(s) + multiset{x}
    ensures |Insert(x, s, le)| == |s| + 1
  {
    if s == [] {
    } else if le(x, s[0]) {
    } else {
      InsertPermutes(x, s[1..], le);
      assert s == [s[0]] + s[1..];
    }
  }

  lemma {:induction false} InsertSorted<T(!new)>(x: T, s: seq<T>, le: (T, T) -> bool)
    requires TotalPreorder(le) && Sorted(s, le)
    ensures Sorted(Insert(x, s, le), le)
  {
    if s == [] || le(x, s[0]) {
    } else {
      var r := Insert(x, s[1..], le);
      InsertSorted(x, s[1..], le);
      InsertPermutes(x, s[1..], le);
      forall j | 0 <= j < |r|
        ensures le(s[0], r[j])
      {
        assert r[j] in multiset(r);
        assert r[j] == x || r[j] in s[1..];
      }
    }
  }

  lemma {:induction false} SortPermutes<T>(s: seq<T>, le: (T, T) -> bool)
    ensures multiset(Sort(s, le)) == multiset(s)
    ensures |Sort(s, le)| == |s|
    ensures (forall x | x in Sort(s, le) :: x in s) && (forall x | x in s :: x in Sort(s, le))
  {
    if s != [] {
      SortPermutes(s[1..], le);
      InsertPermutes(s[0], Sort(s[1..], le), le);
      assert s == [s[0]] + s[1..];
    }
    SameMembers(Sort(s, le), s);
  }

  lemma {:induction false} SortSorts<T(!new)>(s: seq<T>, le: (T, T) -> bool)
    requires TotalPreorder(le)
    ensures Sorted(Sort(s, le), le)
  {
    if s != [] {
      SortSorts(s[1..], le);
      InsertSorted(s[0], Sort(s[1..], le), le);
    }
  }

  lemma SameMembers<T>(s: seq<T>, t: seq<T>)
    requires multiset(s) == multiset(t)
    ensures (forall x | x in s :: x in t) && (forall x | x in t :: x in s)
    ensures |s| == |t|
  {
    assert forall x | x in s :: x in multiset(t);
    assert forall x | x in t :: x in multiset(s);
    assert |multiset(s)| == |s| && |multiset(t)| == |t|;
  }

  lemma SortedHeads<T>(s: seq<T>, t: seq<T>, le: (T, T) -> bool)
    requires s != [] && t != [] && s[0] in t && t[0] in s
    requires Sorted(s, le) && Sorted(t, le) && Separates(le, s)
    ensures s[0] == t[0]
  {
    var i :| 0 <= i < |t| && t[i] == s[0];
    var j :| 0 <= j < |s| && s[j] == t[0];
    assert i == 0 || le(t[0], s[0]);
    assert j == 0 || le(s[0], t[0]);
  }

  lemma TailCounts<T>(s: seq<T>)
    requires s != []
    ensures multiset(s[1..]) == multiset(s) - multiset{s[0]}
  {
    assert s == [s[0]] + s[1..];
  }

  /** A multiset of elements that the comparison separates has one sorted arrangement. */
  lemma {:induction false} SortedUnique<T>(s: seq<T>, t: seq<T>, le: (T, T) -> bool)
    requires multiset(s) == multiset(t)
    requires Sorted(s, le) && Sorted(t, le) && Separates(le, s)
    ensures s == t
  {
    hide Sorted, Separates;
    SameMembers(s, t);
    if s != [] {
      assert s[0] in t && t[0] in s;
      SortedHeads(s, t, le);
      SortedTail(s, le);
      SortedTail(t, le);
      TailsAgree(s, t);
      SortedUnique(s[1..], t[1..], le);
    }
  }

  lemma TailsAgree<T>(s: seq<T>, t: seq<T>)
    requires s != [] && t != [] && s[0] == t[0]
    ensures multiset(s) == multiset(t) ==> multiset(s[1..]) == multiset(t[1..])
    ensures s[1..] == t[1..] ==> s == t
  {
    TailCounts(s);
    TailCounts(t);
    assert s == [s[0]] + s[1..] && t == [t[0]] + t[1..];
  }

  lemma SortedTail<T>(s: seq<T>, le: (T, T) -> bool)
    requires s != [] && Sorted(s, le)
    ensures Sorted(s[1..], le)
    ensures Separates(le, s) ==> Separates(le, s[1..])
  {
  }

  /** Sorting forgets the input order: permutations of one collection sort to the same sequence. */
  lemma SortCanonical<T(!new)>(s: seq<T>, t: seq<T>, le: (T, T) -> bool)
    requires TotalPreorder(le) && Separates(le, s)
    requires multiset(s) == multiset(t)
    ensures Sort(s, le) == Sort(t, le)
  {
    SortPermutes(s, le);
    SortPermutes(t, le);
    SortSorts(s, le);
    SortSorts(t, le);
    SortedUnique(Sort(s, le), Sort(t, le), le);
  }

  /** A sorted sequence whose elements are separated is left as it is. */
  lemma SortFixed<T(!new)>(s: seq<T>, le: (T, T) -> bool)
    requires TotalPreorder(le) && Separates(le, s) && Sorted(s, le)
    ensures Sort(s, le) == s
  {
    SortPermutes(s, le);
    SortSorts(s, le);
    SortedUnique(s, Sort(s, le), le);
  }

  /** Without repetitions, having the same members is being a permutation. */
  lemma {:induction false} DistinctPermutation<T>(s: seq<T>, t: seq<T>)
    requires Distinct(s) && Distinct(t)
    requires forall x :: x in s <==> x in t
    ensures multiset(s) == multiset(t)
  {
    DistinctCounts(s);
    DistinctCounts(t);
    forall x ensures multiset(s)[x] == multiset(t)[x] {
      assert x in s <==> x in t;
    }
  }

  lemma {:induction false} DistinctCounts<T>(s: seq<T>)
    requires Distinct(s)
    ensures forall x :: multiset(s)[x] == if x in s then 1 else 0
  {
    if s != [] {
      DistinctCounts(s[1..]);
      assert s == [s[0]] + s[1..];
      assert s[0] !in s[1..];
    }
  }

  lemma RepeatCounts<T>(s: seq<T>, i: nat, j: nat)
    requires i < j < |s| && s[i] == s[j]
    ensures multiset(s)[s[i]] >= 2
  {
    assert s == s[..i] + [s[i]] + s[i+1..j] + [s[j]] + s[j+1..];
  }

  /** A permutation of a sequence without repetitions has none either. */
  lemma DistinctUnderPermutation<T>(s: seq<T>, t: seq<T>)
    requires Distinct(s) && multiset(s) == multiset(t)
    ensures Distinct(t)
  {
    DistinctCounts(s);
    forall i, j | 0 <= i < j < |t|
      ensures t[i] != t[j]
    {
      if t[i] == t[j] {
        RepeatCounts(t, i, j);
      }
    }
  }

  function Map<A, B>(f: A -> B, s: seq<A>): (r: seq<B>)
    ensures |r| == |s| && forall i | 0 <= i < |s| :: r[i] == f(s[i])
  {
    if s == [] then [] else [f(s[0])] + Map(f, s[1..])
  }

  function RemoveAt<T>(s: seq<T>, i: nat): (r: seq<T>)
    requires i < |s|
    ensures |r| == |s| - 1
  {
    s[..i] + s[i + 1..]
  }

  lemma SplitAt<T>(s: seq<T>, i: nat) returns (before: seq<T>, one: seq<T>, after: seq<T>)
    requires i < |s|
    ensures s == before + one + after && one == [s[i]] && RemoveAt(s, i) == before + after
  {
    before, one, after := s[..i], [s[i]], s[i + 1..];
  }

  lemma Without<T>(s: seq<T>, i: nat)
    requires i < |s|
    ensures multiset(s) == multiset(RemoveAt(s, i)) + multiset{s[i]}
  {
    assert s == s[..i] + [s[i]] + s[i + 1..];
  }

  lemma MapRemoves<A, B>(f: A -> B, s: seq<A>, i: nat)
    requires i < |s|
    ensures RemoveAt(Map(f, s), i) == Map(f, RemoveAt(s, i))
  {
    var m := Map(f, s);
    var less := RemoveAt(s, i);
    RemovedAt(s, i);
    RemovedAt(m, i);
    hide RemoveAt;
    var a, b := RemoveAt(m, i), Map(f, less);
    assert forall k | 0 <= k < |a| :: a[k] == b[k];
  }

  lemma RemovedAt<T>(s: seq<T>, i: nat)
    requires i < |s|
    ensures forall k | 0 <= k < i :: RemoveAt(s, i)[k] == s[k]
    ensures forall k | i <= k < |s| - 1 :: RemoveAt(s, i)[k] == s[k + 1]
  {
  }

  lemma RemoveFrom<T>(s: seq<T>, t: seq<T>, i: nat, j: nat)
    requires i < |s| && j < |t| && s[i] == t[j]
    ensures multiset(s) == multiset(t) <==> multiset(RemoveAt(s, i)) == multiset(RemoveAt(t, j))
  {
    hide RemoveAt;
    Without(s, i);
    Without(t, j);
    var a, b := multiset(RemoveAt(s, i)), multiset(RemoveAt(t, j));
    assert multiset(s) - multiset{s[i]} == a && multiset(t) - multiset{t[j]} == b;
  }

  lemma {:induction false} MapPermutes<A, B>(f: A -> B, s: seq<A>, t: seq<A>)
    requires multiset(s) == multiset(t)
    ensures multiset(Map(f, s)) == multiset(Map(f, t))
    decreases |s|
  {
    hide RemoveAt;
    SameMembers(s, t);
    if s != [] {
      assert s[0] in t;
      var i :| 0 <= i < |t| && t[i] == s[0];
      RemoveFrom(s, t, 0, i);
      MapPermutes(f, RemoveAt(s, 0), RemoveAt(t, i));
      MapRemoves(f, s, 0);
      MapRemoves(f, t, i);
      RemoveFrom(Map(f, s), Map(f, t), 0, i);
    }
  }

  /** The mapping preserves the comparison among the elements of `s`. */
  ghost predicate Preserves<A, B>(s: seq<A>, f: A -> B, leA: (A, A) -> bool, leB: (B, B) -> bool) {
    forall a, b | a in s && b in s :: leA(a, b) <==> leB(f(a), f(b))
  }

  lemma {:induction false} InsertMaps<A, B>(x: A, s: seq<A>, f: A -> B, leA: (A, A) -> bool, leB: (B, B) -> bool)
    requires Preserves([x] + s, f, leA, leB)
    ensures Map(f, Insert(x, s, leA)) == Insert(f(x), Map(f, s), leB)
  {
    if s != [] && !leA(x, s[0]) {
      assert forall y | y in [x] + s[1..] :: y in [x] + s;
      InsertMaps(x, s[1..], f, leA, leB);
      assert Map(f, s)[1..] == Map(f, s[1..]);
    }
  }

  /** Sorting commutes with a mapping that preserves the comparison. */
  lemma {:induction false} SortMaps<A, B>(s: seq<A>, f: A -> B, leA: (A, A) -> bool, leB: (B, B) -> bool)
    requires Preserves(s, f, leA, leB)
    ensures Map(f, Sort(s, leA)) == Sort(Map(f, s), leB)
  {
    hide Insert;
    if s != [] {
      SubPreserves(s, s[1..], f, leA, leB);
      SortMaps(s[1..], f, leA, leB);
      SortPermutes(s[1..], leA);
      SubPreserves(s, [s[0]] + Sort(s[1..], leA), f, leA, leB);
      InsertMaps(s[0], Sort(s[1..], leA), f, leA, leB);
      assert Map(f, s)[1..] == Map(f, s[1..]);
    }
  }

  lemma SubPreserves<A, B>(s: seq<A>, t: seq<A>, f: A -> B, leA: (A, A) -> bool, leB: (B, B) -> bool)
    requires Preserves(s, f, leA, leB) && forall x | x in t :: x in s
    ensures Preserves(t, f, leA, leB)
  {
  }

  // ---- Picking -----------------------------------------------------------------------

  /** The images of the elements that qualify, in order. */
  function Pick<A, B>(p: A -> bool, f: A -> B, s: seq<A>): seq<B> {
    if s == [] then [] else (if p(s[0]) then [f(s[0])] else []) + Pick(p, f, s[1..])
  }

  lemma PickNone<A, B>(p: A -> bool, f: A -> B)
    ensures Pick(p, f, []) == []
  {
  }

  lemma {:induction false} PickAppend<A, B>(p: A -> bool, f: A -> B, s: seq<A>, x: A)
    ensures Pick(p, f, s + [x]) == Pick(p, f, s) + if p(x) then [f(x)] else []
  {
    if s == [] {
      assert s + [x] == [x];
    } else {
      PickAppend(p, f, s[1..], x);
      assert (s + [x])[1..] == s[1..] + [x];
    }
  }

  lemma {:induction false} PickFrom<A, B>(p: A -> bool, f: A -> B, s: seq<A>, y: B)
    ensures y in Pick(p, f, s) <==> exists x :: x in s && p(x) && f(x) == y
  {
    if s != [] {
      PickFrom(p, f, s[1..], y);
      assert s == [s[0]] + s[1..];
      if y in Pick(p, f, s[1..]) {
        var x :| x in s[1..] && p(x) && f(x) == y;
        assert x in s;
      }
      if x :| x in s && p(x) && f(x) == y {
        assert x == s[0] || x in s[1..];
      }
    }
  }

  lemma PickCons<A, B>(p: A -> bool, f: A -> B, x: A, s: seq<A>)
    ensures Pick(p, f, [x] + s) == (if p(x) then [f(x)] else []) + Pick(p, f, s)
  {
    assert ([x] + s)[1..] == s;
  }

  lemma InsertCons<B>(y: B, z: B, s: seq<B>, le: (B, B) -> bool)
    ensures Insert(y, [z] + s, le) == if le(y, z) then [y] + ([z] + s) else [z] + Insert(y, s, le)
  {
    assert ([z] + s)[1..] == s;
  }

  lemma SortCons<B>(y: B, s: seq<B>, le: (B, B) -> bool)
    ensures Sort([y] + s, le) == Insert(y, Sort(s, le), le)
  {
    assert ([y] + s)[1..] == s;
  }

  lemma InsertFirst<B>(y: B, s: seq<B>, le: (B, B) -> bool)
    requires s != [] ==> le(y, s[0])
    ensures Insert(y, s, le) == [y] + s
  {
  }

  /** Inserting into a sorted sequence and picking afterwards is picking first. */
  lemma {:induction false} PickInserts<A(!new), B>(p: A -> bool, f: A -> B, x: A, s: seq<A>, leA: (A, A) -> bool, leB: (B, B) -> bool)
    requires TotalPreorder(leA) && Sorted(s, leA) && Preserves([x] + s, f, leA, leB)
    ensures Pick(p, f, Insert(x, s, leA)) == if p(x) then Insert(f(x), Pick(p, f, s), leB) else Pick(p, f, s)
  {
    if s == [] {
      PickCons(p, f, x, []);
      PickNone(p, f);
      InsertFirst(f(x), [], leB);
      assert [x] + [] == [x];
    } else {
      hide Pick, Insert, Sorted;
      var y, t := s[0], s[1..];
      assert s == [y] + t;
      InsertCons(x, y, t, leA);
      PickCons(p, f, y, t);
      if leA(x, y) {
        PickCons(p, f, x, s);
        FirstIsLeast(x, s, leA);
        if p(x) { InsertBefore(p, f, x, s, leA, leB); }
      } else {
        TailOf(x, y, t, f, leA, leB);
        PickInserts(p, f, x, t, leA, leB);
        PickCons(p, f, y, Insert(x, t, leA));
        InsertCons(f(x), f(y), Pick(p, f, t), leB);
        assert forall r: seq<B> :: [] + r == r;
      }
    }
  }

  lemma InsertBefore<A, B>(p: A -> bool, f: A -> B, x: A, s: seq<A>, leA: (A, A) -> bool, leB: (B, B) -> bool)
    requires Preserves([x] + s, f, leA, leB) && forall z | z in s :: leA(x, z)
    ensures Insert(f(x), Pick(p, f, s), leB) == [f(x)] + Pick(p, f, s)
  {
    hide Pick, Insert;
    var picked := Pick(p, f, s);
    if picked != [] {
      PickFrom(p, f, s, picked[0]);
      var z :| z in s && p(z) && f(z) == picked[0];
      assert z in [x] + s && x in [x] + s;
    }
    InsertFirst(f(x), picked, leB);
  }

  lemma PickSortsStep<A(!new), B>(p: A -> bool, f: A -> B, x: A, s: seq<A>, leA: (A, A) -> bool, leB: (B, B) -> bool)
    requires TotalPreorder(leA) && Preserves([x] + s, f, leA, leB) && Sort(Pick(p, f, s), leB) == Pick(p, f, Sort(s, leA))
    ensures Sort(Pick(p, f, [x] + s), leB) == Pick(p, f, Sort([x] + s, leA))
  {
    hide Insert, Pick, Sort, Preserves;
    PickCons(p, f, x, s);
    if !p(x) { assert [] + Pick(p, f, s) == Pick(p, f, s); }
    SortCons(x, s, leA);
    SortCons(f(x), Pick(p, f, s), leB);
    SortSorts(s, leA);
    SortPermutes(s, leA);
    SubPreserves([x] + s, [x] + Sort(s, leA), f, leA, leB);
    PickInserts(p, f, x, Sort(s, leA), leA, leB);
  }

  lemma FirstIsLeast<A(!new)>(x: A, s: seq<A>, le: (A, A) -> bool)
    requires TotalPreorder(le) && Sorted(s, le)
    ensures forall z | z in s :: s != [] && le(x, s[0]) ==> le(x, z)
  {
  }

  lemma TailOf<A, B>(x: A, y: A, t: seq<A>, f: A -> B, leA: (A, A) -> bool, leB: (B, B) -> bool)
    requires !leA(x, y) && Sorted([y] + t, leA) && Preserves([x] + ([y] + t), f, leA, leB)
    ensures Sorted(t, leA) && Preserves([x] + t, f, leA, leB) && !leB(f(x), f(y))
  {
    assert forall i | 0 <= i < |t| :: t[i] == ([y] + t)[i + 1];
    assert x in [x] + ([y] + t) && y in [x] + ([y] + t);
    assert forall z | z in [x] + t :: z in [x] + ([y] + t);
  }

  /** Sorting what was picked is picking from the sorted. */
  lemma {:induction false} PickSorts<A(!new), B>(p: A -> bool, f: A -> B, s: seq<A>, leA: (A, A) -> bool, leB: (B, B) -> bool)
    requires TotalPreorder(leA) && Preserves(s, f, leA, leB)
    ensures Sort(Pick(p, f, s), leB) == Pick(p, f, Sort(s, leA))
  {
    if s != [] {
      SubPreserves(s, s[1..], f, leA, leB);
      PickSorts(p, f, s[1..], leA, leB);
      hide Insert, Pick, Sort;
      assert s == [s[0]] + s[1..];
      PickSortsStep(p, f, s[0], s[1..], leA, leB);
    }
  }

  // ---- Code-unit order -------------------------------------------------------------

  /** Lexicographic order on sequences whose symbols are compared by a numeric code. */
  predicate LexLe<T>(code: T -> int, a: seq<T>, b: seq<T>) {
    a == [] || (b != [] && (code(a[0]) < code(b[0]) || (code(a[0]) == code(b[0]) && LexLe(code, a[1..], b[1..]))))
  }

  ghost predicate Injective<T(!new)>(code: T -> int) {
    forall x, y :: code(x) == code(y) ==> x == y
  }

  lemma {:induction false} LexTotal<T>(code: T -> int, a: seq<T>, b: seq<T>)
    ensures LexLe(code, a, b) || LexLe(code, b, a)
  {
    if a != [] && b != [] {
      LexTotal(code, a[1..], b[1..]);
    }
  }

  lemma {:induction false} LexTransitive<T>(code: T -> int, a: seq<T>, b: seq<T>, c: seq<T>)
    requires LexLe(code, a, b) && LexLe(code, b, c)
    ensures LexLe(code, a, c)
  {
    if a != [] && code(a[0]) == code(b[0]) && code(b[0]) == code(c[0]) {
      LexTransitive(code, a[1..], b[1..], c[1..]);
    }
  }

  lemma {:induction false} LexAntisymmetric<T(!new)>(code: T -> int, a: seq<T>, b: seq<T>)
    requires Injective(code)
    requires LexLe(code, a, b) && LexLe(code, b, a)
    ensures a == b
  {
    if a != [] {
      LexAntisymmetric(code, a[1..], b[1..]);
      assert a == [a[0]] + a[1..] && b == [b[0]] + b[1..];
    }
  }

  function CharCode(c: char): int { c as int }

  /** `compareCodeUnits(a, b) <= 0`. */
  predicate StringLe(a: string, b: string) { LexLe(CharCode, a, b) }

  lemma StringOrder()
    ensures forall a, b :: StringLe(a, b) || StringLe(b, a)
    ensures forall a, b, c :: StringLe(a, b) && StringLe(b, c) ==> StringLe(a, c)
    ensures forall a, b :: StringLe(a, b) && StringLe(b, a) ==> a == b
  {
    forall a, b ensures StringLe(a, b) || StringLe(b, a) { LexTotal(CharCode, a, b); }
    forall a, b, c | StringLe(a, b) && StringLe(b, c) ensures StringLe(a, c) { LexTransitive(CharCode, a, b, c); }
    forall a, b | StringLe(a, b) && StringLe(b, a) ensures a == b { LexAntisymmetric(CharCode, a, b); }
  }

  /** Up to position `k` the two are the same, and there the first ends or has the smaller character. */
  ghost predicate FirstAt(a: string, b: string, k: nat) {
    && k <= |a| && k <= |b| && (forall i | 0 <= i < k :: a[i] == b[i])
    && (k == |a| || (k < |b| && a[k] < b[k]))
  }

  ghost predicate Precedes(a: string, b: string) { exists k: nat :: FirstAt(a, b, k) }

  /** Strings are ordered by their first different character, a prefix before what it begins. */
  lemma {:induction false} StringLeIff(a: string, b: string)
    ensures StringLe(a, b) <==> Precedes(a, b)
    decreases |a|
  {
    if a == [] {
      assert FirstAt(a, b, 0);
    } else if b == [] || a[0] > b[0] {
      forall k: nat ensures !FirstAt(a, b, k) { }
    } else if a[0] < b[0] {
      assert FirstAt(a, b, 0);
    } else {
      StringLeIff(a[1..], b[1..]);
      if k: nat :| FirstAt(a[1..], b[1..], k) {
        forall i | 0 <= i < k + 1 ensures a[i] == b[i] {
          if i > 0 { assert a[1..][i - 1] == b[1..][i - 1]; }
        }
        assert FirstAt(a, b, k + 1);
      }
      if k: nat :| FirstAt(a, b, k) {
        forall i | 0 <= i < k - 1 ensures a[1..][i] == b[1..][i] { assert a[i + 1] == b[i + 1]; }
        assert FirstAt(a[1..], b[1..], k - 1);
      }
    }
  }
}
