/**
 * Generic list operations the core applies to Python lists: slicing,
 * first-occurrence de-duplication with a `seen` set, and counting.
 */
module Seqs {

  predicate Distinct<T(==)>(s: seq<T>) {
    forall i, j :: 0 <= i < j < |s| ==> s[i] != s[j]
  }

  /** Indexing past the head of a cons. */
  lemma ConsIndex<T>(x: T, s: seq<T>, k: nat)
    requires 0 < k <= |s|
    ensures ([x] + s)[k] == s[k - 1]
  {
  }

  /** Three singletons appended in order make the three-element list. */
  lemma ConsThree<T>(x: T, y: T, z: T)
    ensures [x] + ([y] + [z]) == [x, y, z]
  {
  }

  /** Python's `s[:n]`: the first n elements, or all but the last -n when n is negative. */
  function SliceTo<T>(s: seq<T>, n: int): (r: seq<T>)
    ensures r <= s
    ensures 0 <= n ==> |r| == (if n < |s| then n else |s|)
    ensures n < 0 ==> |r| == (if 0 < |s| + n then |s| + n else 0)
  {
    if 0 <= n then (if n < |s| then s[..n] else s)
    else if 0 < |s| + n then s[..|s| + n]
    else []
  }

  lemma IndexOfTail<T>(s: seq<T>, x: T)
    requires |s| > 0 && x in s[1..] && x != s[0]
    ensures IndexOf(s, x) == 1 + IndexOf(s[1..], x)
  {
  }

  /** Index of the first occurrence of x in s. */
  function IndexOf<T(==)>(s: seq<T>, x: T): (k: nat)
    requires x in s
    ensures k < |s| && s[k] == x
  {
    if s[0] == x then 0 else 1 + IndexOf(s[1..], x)
  }

  /** No earlier position holds x. */
  lemma {:induction false} IndexOfFirst<T>(s: seq<T>, x: T)
    requires x in s
    ensures forall j :: 0 <= j < IndexOf(s, x) ==> s[j] != x
  {
    if s[0] != x {
      IndexOfFirst(s[1..], x);
      forall j | 0 < j < IndexOf(s, x) ensures s[j] != x {
        assert s[j] == s[1..][j - 1];
      }
    }
  }

  lemma {:induction false} IndexOfDistinct<T>(s: seq<T>, k: nat)
    requires Distinct(s) && k < |s|
    ensures IndexOf(s, s[k]) == k
  {
  }

  /**
   * The elements of s that are not in `seen`, each kept at its first occurrence:
   * the result of a loop that appends an element and adds it to `seen` when it
   * has not been seen before.
   */
  function DedupeFrom<T(==)>(s: seq<T>, seen: set<T>): (r: seq<T>)
    ensures forall i :: 0 <= i < |r| ==> r[i] in s && r[i] !in seen
    ensures |r| <= |s|
  {
    if s == [] then []
    else if s[0] in seen then DedupeFrom(s[1..], seen)
    else [s[0]] + DedupeFrom(s[1..], seen + {s[0]})
  }

  /** De-duplication does not repeat an element. */
  lemma {:induction false} DedupeFromDistinctResult<T>(s: seq<T>, seen: set<T>)
    ensures Distinct(DedupeFrom(s, seen))
  {
    if s != [] {
      if s[0] in seen {
        DedupeFromDistinctResult(s[1..], seen);
      } else {
        var t := DedupeFrom(s[1..], seen + {s[0]});
        DedupeFromDistinctResult(s[1..], seen + {s[0]});
        var r := [s[0]] + t;
        assert DedupeFrom(s, seen) == r;
        forall i, j | 0 <= i < j < |r| ensures r[i] != r[j] {
          if i > 0 {
            assert r[i] == t[i - 1] && r[j] == t[j - 1];
          } else {
            assert r[j] == t[j - 1] && r[j] !in seen + {s[0]};
          }
        }
      }
    }
  }

  /** Nothing outside `seen` is lost by de-duplication. */
  lemma {:induction false} DedupeFromComplete<T>(s: seq<T>, seen: set<T>, k: nat)
    requires k < |s| && s[k] !in seen
    ensures s[k] in DedupeFrom(s, seen)
  {
    if k > 0 {
      if s[0] in seen {
        DedupeFromComplete(s[1..], seen, k - 1);
      } else if s[k] != s[0] {
        DedupeFromComplete(s[1..], seen + {s[0]}, k - 1);
      }
    }
  }

  /** De-duplicating a sequence without repetitions, none of whose elements is in `seen`, changes nothing. */
  lemma {:induction false} DedupeFromDistinct<T>(s: seq<T>, seen: set<T>)
    requires Distinct(s) && forall i :: 0 <= i < |s| ==> s[i] !in seen
    ensures DedupeFrom(s, seen) == s
  {
    if s != [] {
      var tail := s[1..];
      assert Distinct(tail) by {
        forall a, b | 0 <= a < b < |tail| ensures tail[a] != tail[b] {
          assert tail[a] == s[a + 1] && tail[b] == s[b + 1];
        }
      }
      forall k | 0 <= k < |tail| ensures tail[k] !in seen + {s[0]} {
        assert tail[k] == s[k + 1];
      }
      DedupeFromDistinct(tail, seen + {s[0]});
      assert [s[0]] + tail == s;
    }
  }

  /** `list(dict.fromkeys(s))`: the distinct elements of s in first-seen order. */
  function Dedupe<T(==)>(s: seq<T>): seq<T> {
    DedupeFrom(s, {})
  }

  /** De-duplication keeps every element at the place of its first occurrence. */
  lemma {:induction false} DedupeFromOrder<T>(s: seq<T>, seen: set<T>, i: nat, j: nat)
    requires i < j < |DedupeFrom(s, seen)|
    ensures IndexOf(s, DedupeFrom(s, seen)[i]) < IndexOf(s, DedupeFrom(s, seen)[j])
    decreases |s|, 1
  {
    if s[0] in seen {
      SkippedHeadOrder(s, seen, i, j);
    } else if i > 0 {
      KeptHeadOrder(s, seen, i, j);
    } else {
      KeptHeadFirst(s, seen, j);
    }
  }

  /** The order case where the head is skipped because it was seen before. */
  lemma {:induction false} SkippedHeadOrder<T>(s: seq<T>, seen: set<T>, i: nat, j: nat)
    requires s != [] && s[0] in seen && i < j < |DedupeFrom(s, seen)|
    ensures IndexOf(s, DedupeFrom(s, seen)[i]) < IndexOf(s, DedupeFrom(s, seen)[j])
    decreases |s|, 0
  {
    var t := DedupeFrom(s[1..], seen);
    assert DedupeFrom(s, seen) == t;
    DedupeFromOrder(s[1..], seen, i, j);
    IndexOfTail(s, t[i]);
    IndexOfTail(s, t[j]);
  }

  /** The order case where the head is kept and neither element is the head. */
  lemma {:induction false} KeptHeadOrder<T>(s: seq<T>, seen: set<T>, i: nat, j: nat)
    requires s != [] && s[0] !in seen && 0 < i < j < |DedupeFrom(s, seen)|
    ensures IndexOf(s, DedupeFrom(s, seen)[i]) < IndexOf(s, DedupeFrom(s, seen)[j])
    decreases |s|, 0
  {
    var t := DedupeFrom(s[1..], seen + {s[0]});
    KeptTailIndex(s, seen, i);
    KeptTailIndex(s, seen, j);
    DedupeFromOrder(s[1..], seen + {s[0]}, i - 1, j - 1);
    assert IndexOf(s[1..], t[i - 1]) < IndexOf(s[1..], t[j - 1]);
  }

  /** Past a kept head, the k-th kept element comes one place later in s than in its tail. */
  lemma KeptTailIndex<T>(s: seq<T>, seen: set<T>, k: nat)
    requires s != [] && s[0] !in seen && 0 < k < |DedupeFrom(s, seen)|
    ensures k - 1 < |DedupeFrom(s[1..], seen + {s[0]})|
    ensures IndexOf(s, DedupeFrom(s, seen)[k]) == 1 + IndexOf(s[1..], DedupeFrom(s[1..], seen + {s[0]})[k - 1])
  {
    var t := DedupeFrom(s[1..], seen + {s[0]});
    assert DedupeFrom(s, seen) == [s[0]] + t;
    assert t[k - 1] in s[1..] && t[k - 1] != s[0];
    IndexOfTail(s, t[k - 1]);
  }

  lemma KeptHeadFirst<T>(s: seq<T>, seen: set<T>, j: nat)
    requires s != [] && s[0] !in seen && 0 < j < |DedupeFrom(s, seen)|
    ensures IndexOf(s, DedupeFrom(s, seen)[0]) < IndexOf(s, DedupeFrom(s, seen)[j])
  {
    var t := DedupeFrom(s[1..], seen + {s[0]});
    assert DedupeFrom(s, seen) == [s[0]] + t;
    IndexOfTail(s, t[j - 1]);
  }

  lemma DedupeOrder<T>(s: seq<T>)
    ensures var r := Dedupe(s);
      forall i, j :: 0 <= i < j < |r| ==> IndexOf(s, r[i]) < IndexOf(s, r[j])
  {
    forall i, j | 0 <= i < j < |Dedupe(s)|
      ensures IndexOf(s, Dedupe(s)[i]) < IndexOf(s, Dedupe(s)[j])
    {
      DedupeFromOrder(s, {}, i, j);
    }
  }

  /** `list(dict.fromkeys(s))` has no repetition. */
  lemma DedupeUnique<T>(s: seq<T>)
    ensures Distinct(Dedupe(s))
  {
    DedupeFromDistinctResult(s, {});
  }

  lemma DedupeDistinct<T>(s: seq<T>)
    requires Distinct(s)
    ensures Dedupe(s) == s
  {
    DedupeFromDistinct(s, {});
  }

  /** De-duplication loses and invents no element. */
  lemma DedupeMembers<T>(s: seq<T>, x: T)
    ensures x in Dedupe(s) <==> x in s
  {
    if x in s {
      var k :| 0 <= k < |s| && s[k] == x;
      DedupeFromComplete(s, {}, k);
    }
  }

  /** A prefix of a sequence without repetitions has none. */
  lemma DistinctPrefix<T>(s: seq<T>, n: int)
    requires Distinct(s)
    ensures Distinct(SliceTo(s, n))
  {
  }

  /** Number of occurrences of x in s, counted from the end so that a loop can extend it. */
  function Count<T(==)>(s: seq<T>, x: T): (n: nat)
    ensures n <= |s|
    ensures n > 0 <==> x in s
  {
    if s == [] then 0
    else Count(s[..|s| - 1], x) + (if s[|s| - 1] == x then 1 else 0)
  }

  /** A sequence without repetitions holds each of its elements once. */
  lemma {:induction false} DistinctCount<T>(s: seq<T>, x: T)
    requires Distinct(s) && x in s
    ensures Count(s, x) == 1
  {
    var front := s[..|s| - 1];
    if s[|s| - 1] == x {
      assert x !in front;
    } else {
      DistinctCount(front, x);
    }
  }

  /** De-duplicating an extended sequence extends the result by the new element if it is new. */
  lemma {:induction false} DedupeFromSnoc<T>(s: seq<T>, seen: set<T>, x: T)
    ensures DedupeFrom(s + [x], seen) == DedupeFrom(s, seen) + (if x in s || x in seen then [] else [x])
  {
    if s == [] {
      assert DedupeFrom([x], seen) == (if x in seen then [] else [x]) + DedupeFrom([], if x in seen then seen else seen + {x});
    } else {
      assert (s + [x])[1..] == s[1..] + [x];
      if s[0] in seen {
        DedupeFromSnoc(s[1..], seen, x);
      } else {
        DedupeFromSnoc(s[1..], seen + {s[0]}, x);
      }
    }
  }

  lemma DedupeSnoc<T>(s: seq<T>, x: T)
    ensures Dedupe(s + [x]) == Dedupe(s) + (if x in s then [] else [x])
  {
    DedupeFromSnoc(s, {}, x);
  }

  /** A subset is no larger than its superset, and equally large only when they are equal. */
  lemma {:induction false} SubsetCardinality<T>(a: set<T>, b: set<T>)
    requires a <= b
    ensures |a| <= |b|
    ensures |a| == |b| ==> a == b
    decreases |a|
  {
    if a != {} {
      var x :| x in a;
      SubsetCardinality(a - {x}, b - {x});
      assert a == (a - {x}) + {x} && b == (b - {x}) + {x};
    } else if |b| == 0 {
      assert b == {};
    }
  }

  /** The Jaccard index `|a ∩ b| / |a ∪ b|` of two sets that are not both empty. */
  function Jaccard<T>(a: set<T>, b: set<T>): (r: real)
    requires a != {} || b != {}
    ensures 0.0 <= r <= 1.0
  {
    SubsetCardinality(a * b, a + b);
    UnionNonEmpty(a, b);
    RatioUnit(|a * b|, |a + b|);
    (|a * b| as real) / (|a + b| as real)
  }

  lemma UnionNonEmpty<T>(a: set<T>, b: set<T>)
    requires a != {} || b != {}
    ensures |a + b| > 0
  {
    if a != {} {
      var x :| x in a;
      assert x in a + b;
    } else {
      var x :| x in b;
      assert x in a + b;
    }
  }

  /** A part over a positive whole lies between 0 and 1. */
  lemma RatioUnit(n: nat, d: nat)
    requires n <= d && d > 0
    ensures 0.0 <= (n as real) / (d as real) <= 1.0
  {
    assert (n as real) / (d as real) * (d as real) == n as real;
  }

  /** The index is 1 exactly for equal sets. */
  lemma JaccardOne<T>(a: set<T>, b: set<T>)
    requires a != {} || b != {}
    ensures Jaccard(a, b) == 1.0 <==> a == b
  {
    SubsetCardinality(a * b, a + b);
    if Jaccard(a, b) == 1.0 {
      assert |a * b| == |a + b|;
      assert a * b == a + b;
      assert a <= a + b && b <= a + b;
    }
  }

  lemma JaccardSymmetric<T>(a: set<T>, b: set<T>)
    requires a != {} || b != {}
    ensures Jaccard(a, b) == Jaccard(b, a)
  {
    assert a * b == b * a && a + b == b + a;
  }
}
