/** The order of Go strings and sort.Strings. */
module SortedStrings {

  predicate Before(a: string, b: string) {
    b != "" && (a == "" || a[0] < b[0] || (a[0] == b[0] && Before(a[1..], b[1..])))
  }

  lemma {:induction false} BeforeIrreflexive(a: string)
    ensures !Before(a, a)
  {
    if a != "" {
      BeforeIrreflexive(a[1..]);
    }
  }

  lemma {:induction false} BeforeTransitive(a: string, b: string, c: string)
    requires Before(a, b) && Before(b, c)
    ensures Before(a, c)
  {
    if a != "" && a[0] == b[0] == c[0] {
      BeforeTransitive(a[1..], b[1..], c[1..]);
    }
  }

  lemma BeforeAsymmetric(a: string, b: string)
    requires Before(a, b)
    ensures !Before(b, a)
  {
    if Before(b, a) {
      BeforeTransitive(a, b, a);
      BeforeIrreflexive(a);
    }
  }

  lemma {:induction false} BeforeTotal(a: string, b: string)
    ensures a == b || Before(a, b) || Before(b, a)
  {
    if a != "" && b != "" && a[0] == b[0] {
      BeforeTotal(a[1..], b[1..]);
      assert a == [a[0]] + a[1..] && b == [b[0]] + b[1..];
    }
  }

  /** The order is lexicographic: where the strings first differ, `a` ends or has the smaller character. */
  lemma {:induction false} BeforeIsLexicographic(a: string, b: string)
    ensures Before(a, b) <==> exists i :: 0 <= i < |b| && Smaller(a, b, i)
  {
    if b != "" && a != "" {
      BeforeIsLexicographic(a[1..], b[1..]);
      if a[0] == b[0] {
        forall i | 1 <= i < |b| ensures Smaller(a, b, i) <==> Smaller(a[1..], b[1..], i - 1) {
          SmallerTail(a, b, i);
        }
        if Before(a, b) {
          var i :| 0 <= i < |b[1..]| && Smaller(a[1..], b[1..], i);
          assert Smaller(a, b, i + 1);
        }
        assert !Smaller(a, b, 0);
        if i :| 0 <= i < |b| && Smaller(a, b, i) {
          assert Smaller(a[1..], b[1..], i - 1);
        }
      } else {
        assert a[0] < b[0] ==> Smaller(a, b, 0);
        forall i | 1 <= i < |b| ensures !Smaller(a, b, i) {
          if i <= |a| {
            assert a[..i][0] == a[0] && b[..i][0] == b[0];
          }
        }
      }
    } else if b != "" {
      assert Smaller(a, b, 0);
    }
  }

  predicate Smaller(a: string, b: string, i: nat)
    requires i < |b|
  {
    i <= |a| && a[..i] == b[..i] && (i == |a| || a[i] < b[i])
  }

  lemma SmallerTail(a: string, b: string, i: nat)
    requires a != "" && b != "" && a[0] == b[0] && 1 <= i < |b|
    ensures Smaller(a, b, i) <==> Smaller(a[1..], b[1..], i - 1)
  {
    if i <= |a| {
      assert a[..i] == [a[0]] + a[1..][..i - 1] && b[..i] == [b[0]] + b[1..][..i - 1];
      assert a[..i][1..] == a[1..][..i - 1] && b[..i][1..] == b[1..][..i - 1];
    }
  }

  predicate AtMost(a: string, b: string) {
    a == b || Before(a, b)
  }

  lemma AtMostTransitive(a: string, b: string, c: string)
    requires AtMost(a, b) && AtMost(b, c)
    ensures AtMost(a, c)
  {
    if a != b && b != c {
      BeforeTransitive(a, b, c);
    }
  }

  lemma AtMostAntisymmetric(a: string, b: string)
    requires AtMost(a, b) && AtMost(b, a)
    ensures a == b
  {
    if a != b {
      BeforeTransitive(a, b, a);
      BeforeIrreflexive(a);
    }
  }

  ghost predicate Sorted(s: seq<string>) {
    forall i, j :: 0 <= i < j < |s| ==> AtMost(s[i], s[j])
  }

  /** Puts `x` behind every element of a sorted list that does not exceed it. */
  function Insert(s: seq<string>, x: string): (r: seq<string>)
    ensures multiset(r) == multiset(s) + multiset{x}
    ensures |r| == |s| + 1
  {
    if s == [] || AtMost(s[|s| - 1], x) then s + [x]
    else
      var last := s[|s| - 1];
      assert s == s[..|s| - 1] + [last];
      Insert(s[..|s| - 1], x) + [last]
  }

  lemma {:induction false} InsertSorted(s: seq<string>, x: string)
    requires Sorted(s)
    ensures Sorted(Insert(s, x))
  {
    hide Before;
    if s == [] {
    } else if AtMost(s[|s| - 1], x) {
      forall i | 0 <= i < |s| ensures AtMost(s[i], x) {
        AtMostTransitive(s[i], s[|s| - 1], x);
      }
    } else {
      var before, last := s[..|s| - 1], s[|s| - 1];
      BeforeTotal(last, x);
      InsertSorted(before, x);
      var r := Insert(before, x);
      forall i | 0 <= i < |r| ensures AtMost(r[i], last) {
        assert r[i] in multiset(r);
        if r[i] != x {
          assert r[i] in multiset(before);
          var j :| 0 <= j < |before| && before[j] == r[i];
          assert AtMost(s[j], s[|s| - 1]);
        }
      }
    }
  }

  /** sort.Strings. */
  function Sort(s: seq<string>): (r: seq<string>)
    ensures multiset(r) == multiset(s)
    ensures |r| == |s|
  {
    if s == [] then [] else
      assert s == s[..|s| - 1] + [s[|s| - 1]];
      Insert(Sort(s[..|s| - 1]), s[|s| - 1])
  }

  lemma {:induction false} SortSorts(s: seq<string>)
    ensures Sorted(Sort(s))
  {
    if s != [] {
      SortSorts(s[..|s| - 1]);
      InsertSorted(Sort(s[..|s| - 1]), s[|s| - 1]);
    }
  }

  lemma SameElements(s: seq<string>, t: seq<string>)
    requires multiset(s) == multiset(t)
    ensures forall x :: x in s <==> x in t
  {
    forall x ensures x in s <==> x in t {
      assert x in s <==> x in multiset(s);
      assert x in t <==> x in multiset(t);
    }
  }

  lemma SameFirst(s: seq<string>, t: seq<string>)
    requires Sorted(s) && Sorted(t) && multiset(s) == multiset(t) && s != [] && t != []
    ensures s[0] == t[0]
  {
    hide AtMost;
    SameElements(s, t);
    assert s[0] in t && t[0] in s;
    var i :| 0 <= i < |t| && t[i] == s[0];
    var j :| 0 <= j < |s| && s[j] == t[0];
    Reflexive(s[0]);
    assert AtMost(t[0], s[0]) && AtMost(s[0], t[0]);
    AtMostAntisymmetric(s[0], t[0]);
  }

  lemma TailMultiset(s: seq<string>)
    requires s != []
    ensures multiset(s[1..]) == multiset(s) - multiset{s[0]}
  {
    assert s == [s[0]] + s[1..];
  }

  /** A sorted list is determined by its elements. */
  lemma {:induction false} SortedUnique(s: seq<string>, t: seq<string>)
    requires Sorted(s) && Sorted(t) && multiset(s) == multiset(t)
    ensures s == t
  {
    hide AtMost;
    assert |t| == |multiset(t)| == |multiset(s)| == |s|;
    if s != [] {
      SameFirst(s, t);
      TailMultiset(s);
      TailMultiset(t);
      SortedUnique(s[1..], t[1..]);
      assert s == [s[0]] + s[1..] && t == [t[0]] + t[1..];
    }
  }

  lemma Reflexive(a: string)
    ensures AtMost(a, a)
  {
  }

  /** The order of the input does not matter. */
  lemma SortOrderFree(s: seq<string>, t: seq<string>)
    requires multiset(s) == multiset(t)
    ensures Sort(s) == Sort(t)
  {
    SortSorts(s);
    SortSorts(t);
    SortedUnique(Sort(s), Sort(t));
  }

  ghost predicate Distinct(s: seq<string>) {
    forall i, j :: 0 <= i < j < |s| ==> s[i] != s[j]
  }

  lemma {:induction false} DistinctMultiset(s: seq<string>)
    requires Distinct(s)
    ensures multiset(s) == multiset(set x | x in s)
  {
    if s != [] {
      var before, last := s[..|s| - 1], s[|s| - 1];
      DistinctMultiset(before);
      assert s == before + [last];
      assert last !in before;
      assert (set x | x in s) == (set x | x in before) + {last};
    }
  }

  /** The strictly sorted list of a set. */
  ghost predicate Enumerates(s: seq<string>, elems: set<string>) {
    && (forall i, j :: 0 <= i < j < |s| ==> Before(s[i], s[j]))
    && (forall x :: x in s <==> x in elems)
  }

  /** There is only one strictly sorted list of a set. */
  lemma EnumerationUnique(s: seq<string>, t: seq<string>, elems: set<string>)
    requires Enumerates(s, elems) && Enumerates(t, elems)
    ensures s == t
  {
    StrictIsDistinct(s);
    StrictIsDistinct(t);
    DistinctMultiset(s);
    DistinctMultiset(t);
    assert (set x | x in s) == (set x | x in t);
    SortedUnique(s, t);
  }

  lemma StrictIsDistinct(s: seq<string>)
    requires forall i, j :: 0 <= i < j < |s| ==> Before(s[i], s[j])
    ensures Distinct(s) && Sorted(s)
  {
    hide Before;
    forall i, j | 0 <= i < j < |s| ensures s[i] != s[j] {
      BeforeIrreflexive(s[i]);
    }
  }

  /** How many names of the list come before `r`. */
  function Rank(s: seq<string>, r: string): nat {
    |set b | b in s && Before(b, r)|
  }

  /** In a strictly sorted list the rank of a name is its position. */
  lemma RankIsPosition(s: seq<string>, i: nat)
    requires i < |s| && forall j, k :: 0 <= j < k < |s| ==> Before(s[j], s[k])
    ensures Rank(s, s[i]) == i
  {
    hide Before;
    var first := s[..i];
    forall j | i <= j < |s| ensures !Before(s[j], s[i]) {
      if j == i {
        BeforeIrreflexive(s[i]);
      } else {
        BeforeAsymmetric(s[i], s[j]);
      }
    }
    forall b | b in s && Before(b, s[i]) ensures b in first {
      var j :| 0 <= j < |s| && s[j] == b;
      assert first[j] == b;
    }
    assert (set b | b in s && Before(b, s[i])) == set b | b in first;
    StrictIsDistinct(first);
    DistinctMultiset(first);
    assert |multiset(first)| == |multiset(set b | b in first)|;
  }

  /** Distinct names of a list have distinct ranks. */
  lemma RankUnique(s: seq<string>, a: string, b: string)
    requires a in s && b in s && Rank(s, a) == Rank(s, b)
    ensures a == b
  {
    BeforeTotal(a, b);
    if a != b {
      var x, y := if Before(a, b) then a else b, if Before(a, b) then b else a;
      var lower, upper := set c | c in s && Before(c, x), set c | c in s && Before(c, y);
      forall c | c in lower ensures c in upper {
        BeforeTransitive(c, x, y);
      }
      BeforeIrreflexive(x);
      assert x in upper && x !in lower && lower < upper;
      SmallerSet(lower, upper);
    }
  }

  lemma {:induction false} SmallerSet(a: set<string>, b: set<string>)
    requires a < b
    ensures |a| < |b|
  {
    var x :| x in b && x !in a;
    assert a <= b - {x};
    SubsetSize(a, b - {x});
  }

  lemma {:induction false} SubsetSize(a: set<string>, b: set<string>)
    requires a <= b
    ensures |a| <= |b|
  {
    if a != {} {
      var x :| x in a;
      SubsetSize(a - {x}, b - {x});
    }
  }

  /** Sorting any listing of a set enumerates it. */
  lemma SortEnumerates(s: seq<string>, elems: set<string>)
    requires Distinct(s) && forall x :: x in s <==> x in elems
    ensures Enumerates(Sort(s), elems)
  {
    hide Before;
    var r := Sort(s);
    SortSorts(s);
    SameElements(r, s);
    DistinctMultiset(s);
    forall i, j | 0 <= i < j < |r| ensures Before(r[i], r[j]) {
      assert AtMost(r[i], r[j]);
      if r[i] == r[j] {
        TwiceIn(r, i, j);
      }
    }
  }

  lemma TwiceIn(r: seq<string>, i: int, j: int)
    requires 0 <= i < j < |r| && r[i] == r[j]
    ensures multiset(r)[r[i]] >= 2
  {
    assert r == r[..j] + [r[j]] + r[j + 1..];
    assert r[i] in r[..j];
  }

  /** The elements of a set in some order, each once. */
  method List(elems: set<string>) returns (list: seq<string>)
    ensures Distinct(list) && forall b :: b in list <==> b in elems
  {
    list := [];
    var todo := elems;
    while todo != {}
      invariant todo <= elems && Distinct(list)
      invariant forall b :: b in list <==> b in elems - todo
    {
      var b :| b in todo;
      assert b !in list;
      assert forall x :: x in list + [b] <==> x in list || x == b;
      todo := todo - {b};
      list := list + [b];
    }
  }
}
