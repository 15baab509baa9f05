/**
 * Python's ordering of `str` values and the `sorted` builtin applied to a
 * list of distinct strings.
 */
module StringOrder {

  /** Python's `a < b` on strings: code point by code point, and a proper
      prefix sorts before the longer string. */
  predicate Less(a: string, b: string)
  {
    if |a| == 0 then |b| > 0
    else |b| > 0 && (a[0] < b[0] || (a[0] == b[0] && Less(a[1..], b[1..])))
  }

  lemma {:induction false} LessIrreflexive(a: string)
    ensures !Less(a, a)
  {
    if |a| > 0 {
      LessIrreflexive(a[1..]);
    }
  }

  lemma {:induction false} LessTransitive(a: string, b: string, c: string)
    requires Less(a, b) && Less(b, c)
    ensures Less(a, c)
  {
    if |a| > 0 && a[0] == b[0] && b[0] == c[0] {
      LessTransitive(a[1..], b[1..], c[1..]);
    }
  }

  lemma {:induction false} LessTotal(a: string, b: string)
    requires a != b
    ensures Less(a, b) || Less(b, a)
  {
    if |a| > 0 && |b| > 0 && a[0] == b[0] {
      LessTotal(a[1..], b[1..]);
    }
  }

  lemma {:induction false} LessAsymmetric(a: string, b: string)
    requires Less(a, b)
    ensures !Less(b, a)
  {
    if Less(b, a) {
      LessTransitive(a, b, a);
      LessIrreflexive(a);
    }
  }

  /** Every earlier element is smaller than every later one: sorted and
      free of duplicates. */
  predicate StrictlyAscending(s: seq<string>)
  {
    forall i, j :: 0 <= i < j < |s| ==> Less(s[i], s[j])
  }

  lemma {:induction false} AscendingIsDistinct(s: seq<string>)
    requires StrictlyAscending(s)
    ensures forall i, j :: 0 <= i < j < |s| ==> s[i] != s[j]
  {
    forall i, j | 0 <= i < j < |s| ensures s[i] != s[j] {
      if s[i] == s[j] {
        LessIrreflexive(s[i]);
      }
    }
  }

  /** Inserts `x` before the first element it is smaller than. */
  function Insert(x: string, s: seq<string>): seq<string>
  {
    if s == [] then [x]
    else if Less(x, s[0]) then [x] + s
    else [s[0]] + Insert(x, s[1..])
  }

  /** The model of `sorted(keys)`: insertion sort. */
  function Sort(s: seq<string>): seq<string>
  {
    if s == [] then [] else Insert(s[0], Sort(s[1..]))
  }

  lemma {:induction false} InsertKeepsOrder(x: string, s: seq<string>)
    requires StrictlyAscending(s) && x !in s
    ensures StrictlyAscending(Insert(x, s))
    ensures multiset(Insert(x, s)) == multiset(s) + multiset{x}
  {
    if s == [] {
    } else if Less(x, s[0]) {
      var r := [x] + s;
      forall i, j | 0 <= i < j < |r| ensures Less(r[i], r[j]) {
        if i == 0 && j > 1 {
          LessTransitive(x, s[0], s[j - 1]);
        }
      }
    } else {
      LessTotal(x, s[0]);
      assert s == [s[0]] + s[1..];
      InsertKeepsOrder(x, s[1..]);
      var t := Insert(x, s[1..]);
      var r := [s[0]] + t;
      forall i, j | 0 <= i < j < |r| ensures Less(r[i], r[j]) {
        if i == 0 {
          assert r[j] in multiset(t);
          assert r[j] == x || r[j] in s[1..];
        }
      }
    }
  }

  /** `sorted` of distinct keys is strictly ascending and a permutation of
      them. */
  lemma {:induction false} SortIsAscendingPermutation(s: seq<string>)
    requires forall i, j :: 0 <= i < j < |s| ==> s[i] != s[j]
    ensures StrictlyAscending(Sort(s))
    ensures multiset(Sort(s)) == multiset(s)
  {
    if s != [] {
      SortIsAscendingPermutation(s[1..]);
      assert s == [s[0]] + s[1..];
      assert s[0] !in multiset(Sort(s[1..]));
      InsertKeepsOrder(s[0], Sort(s[1..]));
    }
  }

  /** `sorted` of distinct keys lists each key once, in ascending order. */
  lemma {:induction false} SortedKeys(s: seq<string>)
    requires forall i, j :: 0 <= i < j < |s| ==> s[i] != s[j]
    ensures StrictlyAscending(Sort(s)) && |Sort(s)| == |s|
    ensures forall i, j :: 0 <= i < j < |Sort(s)| ==> Sort(s)[i] != Sort(s)[j]
    ensures forall k :: k in Sort(s) <==> k in s
  {
    SortIsAscendingPermutation(s);
    AscendingIsDistinct(Sort(s));
    assert |Sort(s)| == |multiset(Sort(s))| == |multiset(s)| == |s|;
    assert forall k :: k in Sort(s) <==> k in multiset(s);
  }

  /** A strictly ascending sequence is determined by its elements: the
      order of `sorted(keys)` does not depend on the order keys were added. */
  lemma {:induction false} AscendingIsUnique(a: seq<string>, b: seq<string>)
    requires StrictlyAscending(a) && StrictlyAscending(b)
    requires (set x | x in a) == (set x | x in b)
    ensures a == b
  {
    var sa, sb := set x | x in a, set x | x in b;
    assert a != [] ==> a[0] in sa;
    assert b != [] ==> b[0] in sb;
    if a != [] && b != [] {
      if a[0] != b[0] {
        var i :| 0 <= i < |b| && b[i] == a[0];
        var j :| 0 <= j < |a| && a[j] == b[0];
        assert Less(b[0], a[0]) && Less(a[0], b[0]);
        LessAsymmetric(a[0], b[0]);
      }
      assert (set x | x in a[1..]) == (set x | x in b[1..]) by {
        forall x | x in a[1..] ensures x in b[1..] {
          var k :| 1 <= k < |a| && a[k] == x;
          assert x in sa;
          LessIrreflexive(a[0]);
        }
        forall x | x in b[1..] ensures x in a[1..] {
          var k :| 1 <= k < |b| && b[k] == x;
          assert x in sb;
          LessIrreflexive(b[0]);
        }
      }
      AscendingIsUnique(a[1..], b[1..]);
      assert a == [a[0]] + a[1..] && b == [b[0]] + b[1..];
    }
  }
}
