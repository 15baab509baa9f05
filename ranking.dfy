/**
 * The ranking step of `closest`: candidates (slug, distance), the stable
 * sort by distance that `list.sort(key = ...)` performs, and the slice
 * `[:n]` taken of the sorted list.
 */
module Ranking {

  datatype Candidate = Candidate(slug: string, distance: real)

  /** Inserts `c` before the first element whose distance is not smaller. */
  function InsertByDistance(c: Candidate, s: seq<Candidate>): seq<Candidate>
  {
    if s == [] then [c]
    else if c.distance <= s[0].distance then [c] + s
    else [s[0]] + InsertByDistance(c, s[1..])
  }

  /** A stable sort by distance (insertion sort). */
  function StableSort(s: seq<Candidate>): seq<Candidate>
  {
    if s == [] then [] else InsertByDistance(s[0], StableSort(s[1..]))
  }

  predicate SortedByDistance(s: seq<Candidate>)
  {
    forall i, j :: 0 <= i < j < |s| ==> s[i].distance <= s[j].distance
  }

  predicate DistinctSlugs(s: seq<Candidate>)
  {
    forall i, j :: 0 <= i < j < |s| ==> s[i].slug != s[j].slug
  }

  /** The candidates at distance `d`, in their order in `s`. */
  function Ties(s: seq<Candidate>, d: real): seq<Candidate>
  {
    if s == [] then [] else (if s[0].distance == d then [s[0]] else []) + Ties(s[1..], d)
  }

  predicate IsPrefix<T(==)>(a: seq<T>, b: seq<T>)
  {
    |a| <= |b| && a == b[..|a|]
  }

  /** Python's `s[:n]`: the first n elements, all of them when n is at least
      |s|, and for negative n all but the last -n. */
  function Take<T>(s: seq<T>, n: int): (r: seq<T>)
    ensures |r| == if 0 <= n then (if n <= |s| then n else |s|) else (if |s| + n >= 0 then |s| + n else 0)
    ensures IsPrefix(r, s)
  {
    if 0 <= n then (if n <= |s| then s[..n] else s)
    else if |s| + n >= 0 then s[..|s| + n]
    else []
  }

  // ---------------------------------------------------------------------
  // Insertion.

  lemma {:induction false} InsertPermutation(c: Candidate, s: seq<Candidate>)
    ensures multiset(InsertByDistance(c, s)) == multiset(s) + multiset{c}
  {
    if s != [] && c.distance > s[0].distance {
      InsertPermutation(c, s[1..]);
      assert s == [s[0]] + s[1..];
    }
  }

  lemma {:induction false} InsertSorted(c: Candidate, s: seq<Candidate>)
    requires SortedByDistance(s)
    ensures SortedByDistance(InsertByDistance(c, s))
  {
    if s == [] {
    } else if c.distance <= s[0].distance {
      var r := [c] + s;
      assert forall k :: 0 < k < |r| ==> r[k] == s[k - 1];
    } else {
      var tail := s[1..];
      assert forall k :: 0 <= k < |tail| ==> tail[k] == s[k + 1];
      InsertSorted(c, tail);
      var t := InsertByDistance(c, tail);
      InsertPermutation(c, tail);
      forall k | 0 <= k < |t| ensures s[0].distance <= t[k].distance {
        assert t[k] in multiset(t);
        if t[k] != c {
          assert t[k] in multiset(tail);
          var p :| 0 <= p < |tail| && tail[p] == t[k];
          assert s[p + 1] == t[k];
        }
      }
      var r := [s[0]] + t;
      assert forall k :: 0 < k < |r| ==> r[k] == t[k - 1];
    }
  }

  lemma {:induction false} InsertSortedPermutation(c: Candidate, s: seq<Candidate>)
    requires SortedByDistance(s)
    ensures SortedByDistance(InsertByDistance(c, s))
    ensures multiset(InsertByDistance(c, s)) == multiset(s) + multiset{c}
  {
    InsertSorted(c, s);
    InsertPermutation(c, s);
  }

  /** Inserting `c` adds it in front of its ties and changes no other ties. */
  lemma {:induction false} InsertTies(c: Candidate, s: seq<Candidate>, d: real)
    ensures Ties(InsertByDistance(c, s), d) == if c.distance == d then [c] + Ties(s, d) else Ties(s, d)
  {
    if s == [] {
    } else if c.distance <= s[0].distance {
      assert ([c] + s)[1..] == s;
    } else {
      InsertTies(c, s[1..], d);
      assert ([s[0]] + InsertByDistance(c, s[1..]))[1..] == InsertByDistance(c, s[1..]);
    }
  }

  lemma {:induction false} InsertDistinctSlugs(c: Candidate, s: seq<Candidate>)
    requires DistinctSlugs(s) && forall i :: 0 <= i < |s| ==> s[i].slug != c.slug
    ensures DistinctSlugs(InsertByDistance(c, s))
  {
    if s != [] && c.distance > s[0].distance {
      InsertDistinctSlugs(c, s[1..]);
      var t := InsertByDistance(c, s[1..]);
      InsertPermutation(c, s[1..]);
      forall j | 0 <= j < |t| ensures t[j].slug != s[0].slug {
        assert t[j] in multiset(t);
        if t[j] != c {
          assert t[j] in multiset(s[1..]);
          var p :| 0 <= p < |s[1..]| && s[1..][p] == t[j];
          assert s[p + 1] == t[j];
        }
      }
    }
  }

  /** Where `c` goes: after the leading elements closer than it. */
  lemma {:induction false} InsertAt(c: Candidate, t: seq<Candidate>, k: int)
    requires 0 <= k <= |t|
    requires forall p :: 0 <= p < k ==> t[p].distance < c.distance
    requires k < |t| ==> c.distance <= t[k].distance
    ensures InsertByDistance(c, t) == t[..k] + [c] + t[k..]
  {
    if k > 0 {
      InsertAt(c, t[1..], k - 1);
      assert t[..k] == [t[0]] + t[1..][..k - 1];
      assert t[k..] == t[1..][k - 1..];
    }
  }

  // ---------------------------------------------------------------------
  // The stable sort.

  /** The sort orders by distance and is a permutation. */
  lemma {:induction false} StableSortSortedPermutation(s: seq<Candidate>)
    ensures SortedByDistance(StableSort(s))
    ensures multiset(StableSort(s)) == multiset(s)
  {
    if s != [] {
      StableSortSortedPermutation(s[1..]);
      InsertSortedPermutation(s[0], StableSort(s[1..]));
      assert s == [s[0]] + s[1..];
    }
  }

  /** The sort is stable: candidates at equal distance keep their order. */
  lemma {:induction false} StableSortKeepsTies(s: seq<Candidate>, d: real)
    ensures Ties(StableSort(s), d) == Ties(s, d)
  {
    if s != [] {
      StableSortKeepsTies(s[1..], d);
      InsertTies(s[0], StableSort(s[1..]), d);
    }
  }

  lemma {:induction false} StableSortDistinctSlugs(s: seq<Candidate>)
    requires DistinctSlugs(s)
    ensures DistinctSlugs(StableSort(s))
  {
    if s != [] {
      StableSortDistinctSlugs(s[1..]);
      StableSortSortedPermutation(s[1..]);
      var t := StableSort(s[1..]);
      forall i | 0 <= i < |t| ensures t[i].slug != s[0].slug {
        assert t[i] in multiset(s[1..]);
        var k :| 0 <= k < |s[1..]| && s[1..][k] == t[i];
        assert s[k + 1] == t[i];
      }
      InsertDistinctSlugs(s[0], t);
    }
  }

  lemma {:induction false} TiesMembers(s: seq<Candidate>, d: real)
    ensures Ties(s, d) != [] <==> exists k :: 0 <= k < |s| && s[k].distance == d
  {
    if s != [] {
      TiesMembers(s[1..], d);
      if exists k :: 0 <= k < |s| && s[k].distance == d {
        var k :| 0 <= k < |s| && s[k].distance == d;
        if k > 0 {
          assert s[1..][k - 1].distance == d;
        }
      }
      if exists k :: 0 <= k < |s[1..]| && s[1..][k].distance == d {
        var k :| 0 <= k < |s[1..]| && s[1..][k].distance == d;
        assert s[k + 1].distance == d;
      }
    }
  }

  /** Sorted sequences with the same ties start with the same candidate. */
  lemma {:induction false} SameFirst(r: seq<Candidate>, q: seq<Candidate>)
    requires SortedByDistance(r) && SortedByDistance(q) && r != [] && q != []
    requires forall d :: Ties(r, d) == Ties(q, d)
    ensures r[0] == q[0]
  {
    TiesMembers(r, r[0].distance);
    TiesMembers(q, r[0].distance);
    TiesMembers(q, q[0].distance);
    TiesMembers(r, q[0].distance);
    var a, b := r[0].distance, q[0].distance;
    var i :| 0 <= i < |q| && q[i].distance == a;
    var j :| 0 <= j < |r| && r[j].distance == b;
    assert b <= a && a <= b;
    assert Ties(r, a)[0] == r[0] && Ties(q, a)[0] == q[0];
  }

  /** Dropping a common first candidate keeps the ties equal. */
  lemma {:induction false} TiesOfTails(r: seq<Candidate>, q: seq<Candidate>, d: real)
    requires r != [] && q != [] && r[0] == q[0] && Ties(r, d) == Ties(q, d)
    ensures Ties(r[1..], d) == Ties(q[1..], d)
  {
    var pre := if r[0].distance == d then [r[0]] else [];
    assert Ties(r, d) == pre + Ties(r[1..], d);
    assert Ties(q, d) == pre + Ties(q[1..], d);
    assert (pre + Ties(r[1..], d))[|pre|..] == Ties(r[1..], d);
    assert (pre + Ties(q[1..], d))[|pre|..] == Ties(q[1..], d);
  }

  /** A sorted sequence is determined by its ties at every distance. */
  lemma {:induction false} SortedTiesDetermine(r: seq<Candidate>, q: seq<Candidate>)
    requires SortedByDistance(r) && SortedByDistance(q)
    requires forall d :: Ties(r, d) == Ties(q, d)
    ensures r == q
  {
    if r == [] || q == [] {
      var e := if r == [] then q else r;
      if e != [] {
        TiesMembers(e, e[0].distance);
        TiesMembers([], e[0].distance);
      }
    } else {
      SameFirst(r, q);
      forall d ensures Ties(r[1..], d) == Ties(q[1..], d) {
        TiesOfTails(r, q, d);
      }
      SortedTiesDetermine(r[1..], q[1..]);
      assert r == [r[0]] + r[1..] && q == [q[0]] + q[1..];
    }
  }

  /** Every stable sort by distance gives the same result as this one, so
      the model agrees with any stable sorting algorithm. */
  lemma {:induction false} StableSortIsUnique(s: seq<Candidate>, r: seq<Candidate>)
    requires SortedByDistance(r) && forall d :: Ties(r, d) == Ties(s, d)
    ensures r == StableSort(s)
  {
    StableSortSortedPermutation(s);
    forall d ensures Ties(r, d) == Ties(StableSort(s), d) {
      StableSortKeepsTies(s, d);
    }
    SortedTiesDetermine(r, StableSort(s));
  }

  lemma {:induction false} TiesOfPrefix(s: seq<Candidate>, k: int, d: real)
    requires 0 <= k <= |s|
    ensures IsPrefix(Ties(s[..k], d), Ties(s, d))
  {
    if k > 0 {
      TiesOfPrefix(s[1..], k - 1, d);
      assert s[..k][1..] == s[1..][..k - 1];
      var pre := if s[0].distance == d then [s[0]] else [];
      assert Ties(s[..k], d) == pre + Ties(s[1..][..k - 1], d);
      assert Ties(s, d) == pre + Ties(s[1..], d);
    }
  }

  /** What `closest` returns, `sorted(candidates)[:n]`, for candidates with
      distinct slugs other than the queried one: it omits the queried slug,
      repeats no slug, is ordered by distance and has the length Python's
      slice gives. */
  lemma {:induction false} RankingProperties(s: seq<Candidate>, article: string, n: int)
    requires DistinctSlugs(s) && forall i :: 0 <= i < |s| ==> s[i].slug != article
    ensures var r := Take(StableSort(s), n);
            && (forall i :: 0 <= i < |r| ==> r[i].slug != article && r[i] in s)
            && DistinctSlugs(r) && SortedByDistance(r)
            && |r| == (if 0 <= n then (if n <= |s| then n else |s|) else (if |s| + n >= 0 then |s| + n else 0))
  {
    var sorted := StableSort(s);
    StableSortSortedPermutation(s);
    assert |sorted| == |multiset(sorted)| == |multiset(s)| == |s|;
    StableSortDistinctSlugs(s);
    var r := Take(sorted, n);
    forall i | 0 <= i < |r| ensures r[i].slug != article && r[i] in s {
      assert r[i] == sorted[i];
      assert sorted[i] in multiset(s);
    }
    assert DistinctSlugs(r) by {
      forall i, j | 0 <= i < j < |r| ensures r[i].slug != r[j].slug {
        assert r[i] == sorted[i] && r[j] == sorted[j];
      }
    }
    assert SortedByDistance(r) by {
      forall i, j | 0 <= i < j < |r| ensures r[i].distance <= r[j].distance {
        assert r[i] == sorted[i] && r[j] == sorted[j];
      }
    }
  }

  /** Candidates at equal distance come out of `closest` in the order they
      went in: at every distance the result's ties are a prefix of the
      input's ties. */
  lemma {:induction false} RankingKeepsTieOrder(s: seq<Candidate>, n: int, d: real)
    ensures IsPrefix(Ties(Take(StableSort(s), n), d), Ties(s, d))
  {
    var sorted := StableSort(s);
    var r := Take(sorted, n);
    assert r == sorted[..|r|];
    TiesOfPrefix(sorted, |r|, d);
    StableSortKeepsTies(s, d);
  }

  // ---------------------------------------------------------------------
  // The sort in place.

  /** `list.sort(key = lambda x: x['distance'])` on the list of candidates. */
  method SortByDistance(a: array<Candidate>)
    modifies a
    ensures a[..] == StableSort(old(a[..]))
  {
    ghost var s0 := a[..];
    var i := a.Length;
    while i > 0
      invariant 0 <= i <= a.Length
      invariant a[..i] == s0[..i]
      invariant a[i..] == StableSort(s0[i..])
    {
      i := i - 1;
      ghost var before := a[..];
      InsertInPlace(a, i);
      assert a[..i] == before[..i] == s0[..i];
      assert s0[i..][1..] == s0[i + 1..];
      assert before[i] == s0[i];
    }
  }

  /** One step of the sort: moves `a[i]` into the sorted part `a[i+1..]`. */
  method InsertInPlace(a: array<Candidate>, i: int)
    requires 0 <= i < a.Length
    modifies a
    ensures a[..i] == old(a[..i])
    ensures a[i..] == InsertByDistance(old(a[i]), old(a[i + 1..]))
  {
    var n := a.Length;
    var c := a[i];
    ghost var t := a[i + 1..];
    var j := i;
    while j + 1 < n && a[j + 1].distance < c.distance
      invariant i <= j < n
      invariant a[..i] == old(a[..i])
      invariant forall p :: i <= p < j ==> a[p] == t[p - i]
      invariant forall p :: j < p < n ==> a[p] == t[p - i - 1]
      invariant forall p :: 0 <= p < j - i ==> t[p].distance < c.distance
    {
      a[j] := a[j + 1];
      j := j + 1;
    }
    a[j] := c;
    InsertAt(c, t, j - i);
    ghost var want := t[..j - i] + [c] + t[j - i..];
    assert forall p :: 0 <= p < n - i ==> a[i..][p] == want[p];
    assert a[i..] == want;
  }
}
