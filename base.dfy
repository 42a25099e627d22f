/** Shared datatypes and the sequence operations (JavaScript's `filter`,
    `find`/`findIndex`, `splice`) that every part of the booking system uses. */
module Base {

  datatype Option<T> = None | Some(value: T)

  /** What a request handler answers: a value (HTTP 200 or 201), or an HTTP
      status with the error message sent in the JSON body. */
  datatype Outcome<T> = Success(value: T) | Failure(status: int, error: string)

  /** `a` can be obtained from `b` by deleting elements (order is kept). */
  predicate IsSubseq<T(==)>(a: seq<T>, b: seq<T>)
    decreases |b|
  {
    if a == [] then true
    else if b == [] then false
    else if a[0] == b[0] then IsSubseq(a[1..], b[1..])
    else IsSubseq(a, b[1..])
  }

  /** The elements of `s` that satisfy `p`, in their order in `s`
      (`Array.prototype.filter`). The contract determines the result: a
      subsequence of `s` holding every satisfying element as often as `s`. */
  function Filter<T(==,!new)>(s: seq<T>, p: T -> bool): (r: seq<T>)
    ensures |r| <= |s|
  {
    if s == [] then []
    else if p(s[0]) then [s[0]] + Filter(s[1..], p)
    else Filter(s[1..], p)
  }

  /** A filter keeps exactly the satisfying elements. */
  lemma {:induction false} FilterMembers<T(!new)>(s: seq<T>, p: T -> bool)
    ensures forall x :: x in Filter(s, p) <==> x in s && p(x)
    decreases |s|
  {
    if s != [] {
      FilterMembers(s[1..], p);
      assert forall x :: x in s <==> x == s[0] || x in s[1..];
    }
  }

  /** A filter keeps the order of what it keeps. */
  lemma {:induction false} FilterIsSubseq<T(!new)>(s: seq<T>, p: T -> bool)
    ensures IsSubseq(Filter(s, p), s)
    decreases |s|
  {
    if s != [] {
      FilterIsSubseq(s[1..], p);
      if p(s[0]) {
        assert ([s[0]] + Filter(s[1..], p))[1..] == Filter(s[1..], p);
      } else {
        SubseqDropHead(Filter(s[1..], p), s);
      }
    }
  }

  /** A filter keeps every satisfying element as often as it occurs, and no
      other element; with FilterIsSubseq this determines the result. */
  lemma {:induction false} FilterMultiset<T(!new)>(s: seq<T>, p: T -> bool, x: T)
    ensures multiset(Filter(s, p))[x] == if p(x) then multiset(s)[x] else 0
    decreases |s|
  {
    if s != [] {
      FilterMultiset(s[1..], p, x);
      assert s == [s[0]] + s[1..];
      assert multiset(s) == multiset{s[0]} + multiset(s[1..]);
      if p(s[0]) {
        assert multiset([s[0]] + Filter(s[1..], p)) == multiset{s[0]} + multiset(Filter(s[1..], p));
      }
    }
  }

  /** A subsequence of `b`'s tail is a subsequence of `b`. */
  lemma {:induction false} SubseqDropHead<T>(a: seq<T>, b: seq<T>)
    requires b != [] && IsSubseq(a, b[1..])
    ensures IsSubseq(a, b)
    decreases |b|, 1
  {
    if a != [] && a[0] == b[0] {
      SubseqTail(a, b[1..]);
    }
  }

  /** Dropping the first element of a subsequence keeps it a subsequence. */
  lemma {:induction false} SubseqTail<T>(a: seq<T>, b: seq<T>)
    requires a != [] && IsSubseq(a, b)
    ensures IsSubseq(a[1..], b)
    decreases |b|, 2
  {
    if a[0] != b[0] {
      SubseqTail(a, b[1..]);
    }
    SubseqDropHead(a[1..], b);
  }

  /** Index of the first element satisfying `p` (`findIndex`, with None for -1). */
  function FindFirst<T>(s: seq<T>, p: T -> bool): (r: Option<nat>)
    ensures r.Some? ==> r.value < |s| && p(s[r.value]) && forall j :: 0 <= j < r.value ==> !p(s[j])
    ensures r.None? <==> forall j :: 0 <= j < |s| ==> !p(s[j])
  {
    if s == [] then None
    else if p(s[0]) then Some(0)
    else match FindFirst(s[1..], p)
      case None => None
      case Some(i) => Some(i + 1)
  }

  /** `s.splice(i, 1)`: the sequence without its element at index `i`. */
  function RemoveAt<T>(s: seq<T>, i: nat): (r: seq<T>)
    requires i < |s|
    ensures |r| == |s| - 1
    ensures forall j :: 0 <= j < i ==> r[j] == s[j]
    ensures forall j :: i <= j < |r| ==> r[j] == s[j + 1]
  {
    s[..i] + s[i + 1..]
  }

  /** `s.reverse()`: the elements of `s` from the last to the first. */
  function Reversed<T>(s: seq<T>): (r: seq<T>)
    ensures |r| == |s|
    ensures forall i :: 0 <= i < |s| ==> r[i] == s[|s| - 1 - i]
  {
    seq(|s|, i requires 0 <= i < |s| => s[|s| - 1 - i])
  }

  /** `s.map(f)`. */
  function Map<A, B>(s: seq<A>, f: A -> B): (r: seq<B>)
    ensures |r| == |s|
    ensures forall i :: 0 <= i < |s| ==> r[i] == f(s[i])
  {
    seq(|s|, i requires 0 <= i < |s| => f(s[i]))
  }

  /** Mapping the reversed sequence gives the mapped sequence reversed. */
  lemma MapReversed<A, B>(s: seq<A>, f: A -> B)
    ensures Map(Reversed(s), f) == Reversed(Map(s, f))
  {
    var a := Map(Reversed(s), f);
    var b := Reversed(Map(s, f));
    forall i | 0 <= i < |s| ensures a[i] == b[i] {
      assert Reversed(s)[i] == s[|s| - 1 - i];
    }
  }

  /** No element occurs twice. */
  predicate Distinct<T(==)>(s: seq<T>)
  {
    forall i, j :: 0 <= i < j < |s| ==> s[i] != s[j]
  }

  lemma {:induction false} FilterAppend<T(!new)>(s: seq<T>, x: T, p: T -> bool)
    ensures Filter(s + [x], p) == Filter(s, p) + (if p(x) then [x] else [])
    decreases |s|
  {
    if s == [] {
      assert [x][1..] == [];
    } else {
      assert (s + [x])[0] == s[0];
      assert (s + [x])[1..] == s[1..] + [x];
      FilterAppend(s[1..], x, p);
    }
  }

  /** Filtering one more element of a prefix. */
  lemma FilterPrefixStep<T(!new)>(s: seq<T>, k: nat, p: T -> bool)
    requires k < |s|
    ensures Filter(s[..k + 1], p) == Filter(s[..k], p) + (if p(s[k]) then [s[k]] else [])
  {
    assert s[..k + 1] == s[..k] + [s[k]];
    FilterAppend(s[..k], s[k], p);
  }

  /** Filters with predicates that agree on the elements of `s` agree. */
  lemma {:induction false} FilterCongruent<T(!new)>(s: seq<T>, p: T -> bool, q: T -> bool)
    requires forall x :: x in s ==> p(x) == q(x)
    ensures Filter(s, p) == Filter(s, q)
    decreases |s|
  {
    if s != [] {
      assert s[0] in s;
      assert forall x :: x in s[1..] ==> x in s;
      FilterCongruent(s[1..], p, q);
    }
  }

  /** A sequence without repetitions has as many distinct values as elements. */
  lemma DistinctCardinality<T(!new)>(s: seq<T>)
    requires Distinct(s)
    ensures |set x | x in s| == |s|
  {
    var p: T -> bool := x => true;
    FilterDistinctCount(s, p);
    FilterAll(s, p);
    assert (set x | x in s && p(x)) == (set x | x in s);
  }

  /** Filtering with a predicate that every element satisfies changes nothing. */
  lemma {:induction false} FilterAll<T(!new)>(s: seq<T>, p: T -> bool)
    requires forall x :: x in s ==> p(x)
    ensures Filter(s, p) == s
    decreases |s|
  {
    if s != [] {
      assert s[0] in s;
      assert forall x :: x in s[1..] ==> x in s;
      FilterAll(s[1..], p);
    }
  }

  /** For a sequence without repetitions, the number of elements kept by a
      filter is the number of distinct satisfying values. */
  lemma {:induction false} FilterDistinctCount<T(!new)>(s: seq<T>, p: T -> bool)
    requires Distinct(s)
    ensures |Filter(s, p)| == |set x | x in s && p(x)|
    decreases |s|
  {
    if s == [] {
      assert (set x | x in s && p(x)) == {};
    } else {
      var rest := s[1..];
      assert Distinct(rest) by {
        forall i, j | 0 <= i < j < |rest| ensures rest[i] != rest[j] {
          assert rest[i] == s[i + 1] && rest[j] == s[j + 1];
        }
      }
      FilterDistinctCount(rest, p);
      var whole := set x | x in s && p(x);
      var tail := set x | x in rest && p(x);
      assert s[0] !in rest by {
        forall j | 0 <= j < |rest| ensures rest[j] != s[0] {
          assert rest[j] == s[j + 1];
        }
      }
      if p(s[0]) {
        assert whole == {s[0]} + tail;
        assert s[0] !in tail;
      } else {
        assert whole == tail;
      }
    }
  }

  /** What a filter keeps plus what the complementary filter keeps is everything. */
  lemma {:induction false} FilterSplitLength<T(!new)>(s: seq<T>, p: T -> bool, q: T -> bool)
    requires forall x :: q(x) == !p(x)
    ensures |Filter(s, p)| + |Filter(s, q)| == |s|
    decreases |s|
  {
    if s != [] {
      FilterSplitLength(s[1..], p, q);
    }
  }

  /** The number of distinct values among a sequence's elements that
      satisfy `p`, plus those that do not, is its length when it has no
      repetitions. */
  lemma DistinctSplitCount<T(!new)>(s: seq<T>, p: T -> bool)
    requires Distinct(s)
    ensures |set x | x in s && p(x)| + |set x | x in s && !p(x)| == |s|
  {
    var q := x => !p(x);
    FilterDistinctCount(s, p);
    FilterDistinctCount(s, q);
    FilterSplitLength(s, p, q);
    assert (set x | x in s && q(x)) == (set x | x in s && !p(x));
  }

  /** `s.filter(x => !xs.includes(x))`. */
  function Without<T(==,!new)>(s: seq<T>, xs: seq<T>): (r: seq<T>)
    ensures forall x :: x in r <==> x in s && x !in xs
  {
    FilterMembers(s, x => x !in xs);
    Filter(s, x => x !in xs)
  }

  /** Removing the values of `xs` from a sequence without repetitions takes
      away one element per distinct value of `xs` that it holds. */
  lemma WithoutCount<T(!new)>(s: seq<T>, xs: seq<T>)
    requires Distinct(s)
    ensures |Without(s, xs)| == |s| - |set x | x in s && x in xs|
  {
    var p := x => x in xs;
    var q := x => x !in xs;
    FilterDistinctCount(s, q);
    DistinctSplitCount(s, p);
    assert (set x | x in s && q(x)) == (set x | x in s && !p(x));
    assert (set x | x in s && p(x)) == (set x | x in s && x in xs);
  }

  lemma WithoutIsSubseq<T(!new)>(s: seq<T>, xs: seq<T>)
    ensures IsSubseq(Without(s, xs), s)
  {
    FilterIsSubseq(s, x => x !in xs);
  }

  lemma WithoutDisjoint<T(!new)>(s: seq<T>, xs: seq<T>)
    requires forall x :: x in s ==> x !in xs
    ensures Without(s, xs) == s
  {
    FilterAll(s, x => x !in xs);
  }
}
