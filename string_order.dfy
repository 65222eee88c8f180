/** The order PHP's `sort()` and `ksort()` put strings in, taken here as
    `strcmp` order: character by character, a proper prefix first. Code-point
    order on characters agrees with byte order on their UTF-8 encoding. */
module StringOrder {

  /** `strcmp($a, $b) < 0` */
  predicate Less(a: string, b: string)
    decreases |a|
  {
    if a == [] then b != []
    else if b == [] then false
    else a[0] < b[0] || (a[0] == b[0] && Less(a[1..], b[1..]))
  }

  /** `strcmp($a, $b) <= 0` */
  predicate AtMost(a: string, b: string) {
    a == b || Less(a, b)
  }

  lemma {:induction false} LessIrreflexive(a: string)
    ensures !Less(a, a)
  {
    if a != [] {
      LessIrreflexive(a[1..]);
    }
  }

  lemma {:induction false} LessTransitive(a: string, b: string, c: string)
    requires Less(a, b) && Less(b, c)
    ensures Less(a, c)
  {
    if a != [] && a[0] == b[0] && b[0] == c[0] {
      LessTransitive(a[1..], b[1..], c[1..]);
    }
  }

  lemma {:induction false} LessTotal(a: string, b: string)
    ensures a == b || Less(a, b) || Less(b, a)
  {
    if a != [] && b != [] && a[0] == b[0] {
      LessTotal(a[1..], b[1..]);
      if a[1..] == b[1..] {
        assert a == [a[0]] + a[1..] && b == [b[0]] + b[1..];
      }
    }
  }

  lemma AtMostTransitive(a: string, b: string, c: string)
    requires AtMost(a, b) && AtMost(b, c)
    ensures AtMost(a, c)
  {
    if a != b && b != c {
      LessTransitive(a, b, c);
    }
  }

  /** `AtMost` is a total order: any two strings compare one way or the other,
      and only equal strings compare both ways. */
  lemma AtMostTotalOrder(a: string, b: string)
    ensures AtMost(a, b) || AtMost(b, a)
    ensures AtMost(a, b) && AtMost(b, a) ==> a == b
  {
    LessTotal(a, b);
    if Less(a, b) && Less(b, a) {
      LessTransitive(a, b, a);
      LessIrreflexive(a);
    }
  }

  predicate Sorted(s: seq<string>) {
    forall i, j | 0 <= i < j < |s| :: AtMost(s[i], s[j])
  }

  /** Places `x` into the sorted `s`. */
  function Insert(x: string, s: seq<string>): (r: seq<string>)
    requires Sorted(s)
    ensures Sorted(r) && multiset(r) == multiset(s) + multiset{x}
  {
    if s == [] then [x]
    else if AtMost(x, s[0]) then
      PrependSorted(x, s);
      [x] + s
    else
      var r' := Insert(x, s[1..]);
      InsertBehind(x, s, r');
      [s[0]] + r'
  }

  lemma PrependSorted(x: string, s: seq<string>)
    requires Sorted(s) && s != [] && AtMost(x, s[0])
    ensures Sorted([x] + s) && multiset([x] + s) == multiset(s) + multiset{x}
  {
    forall j | 0 <= j < |s| ensures AtMost(x, s[j]) {
      AtMostTransitive(x, s[0], s[j]);
    }
  }

  lemma InsertBehind(x: string, s: seq<string>, r': seq<string>)
    requires Sorted(s) && s != [] && !AtMost(x, s[0])
    requires Sorted(r') && multiset(r') == multiset(s[1..]) + multiset{x}
    ensures Sorted([s[0]] + r') && multiset([s[0]] + r') == multiset(s) + multiset{x}
  {
    assert s == [s[0]] + s[1..];
    forall j | 0 <= j < |r'| ensures AtMost(s[0], r'[j]) {
      assert r'[j] in multiset(r');
      if r'[j] == x {
        AtMostTotalOrder(x, s[0]);
      } else {
        assert r'[j] in multiset(s[1..]);
        var k :| 0 <= k < |s[1..]| && s[1..][k] == r'[j];
        assert AtMost(s[0], s[k + 1]);
      }
    }
  }

  /** `sort($s)`: the sorted permutation of `s`. */
  function Sort(s: seq<string>): (r: seq<string>)
    ensures Sorted(r) && multiset(r) == multiset(s)
  {
    if s == [] then []
    else
      assert s == [s[0]] + s[1..];
      Insert(s[0], Sort(s[1..]))
  }

  /** The last element of a sorted permutation of `s` is the greatest element of `s`. */
  lemma SortLastIsMaximum(s: seq<string>, r: seq<string>)
    requires s != [] && r == Sort(s)
    ensures |r| == |s| && r[|r| - 1] in s
    ensures forall v | v in s :: AtMost(v, r[|r| - 1])
  {
    assert |r| == |multiset(r)| == |multiset(s)| == |s|;
    assert r[|r| - 1] in multiset(r);
    forall v | v in s ensures AtMost(v, r[|r| - 1]) {
      assert v in multiset(s);
      var k :| 0 <= k < |r| && r[k] == v;
      if k < |r| - 1 {
        assert AtMost(r[k], r[|r| - 1]);
      }
    }
  }

  /** Sorting keeps a sequence free of duplicates, and then orders it strictly. */
  lemma SortKeepsDistinct(s: seq<string>, r: seq<string>)
    requires forall i, j | 0 <= i < j < |s| :: s[i] != s[j]
    requires r == Sort(s)
    ensures forall i, j | 0 <= i < j < |r| :: Less(r[i], r[j])
  {
    forall i, j | 0 <= i < j < |r| ensures Less(r[i], r[j]) {
      if r[i] == r[j] {
        CountAtLeastTwo(r, i, j);
        DistinctCountsOne(s, r[i]);
        assert false;
      }
    }
  }

  lemma {:induction false} DistinctCountsOne(s: seq<string>, x: string)
    requires forall i, j | 0 <= i < j < |s| :: s[i] != s[j]
    ensures multiset(s)[x] <= 1
  {
    if s != [] {
      assert s == [s[0]] + s[1..];
      DistinctCountsOne(s[1..], x);
      if s[0] == x {
        assert x !in s[1..];
      }
    }
  }

  lemma CountAtLeastTwo(s: seq<string>, i: nat, j: nat)
    requires i < j < |s| && s[i] == s[j]
    ensures multiset(s)[s[i]] >= 2
  {
    assert s == s[..j] + [s[j]] + s[j + 1..];
    assert s[..j][i] == s[i];
    assert s[i] in multiset(s[..j]);
  }
}
