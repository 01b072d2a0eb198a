/** Python's order of strings, and sorted() on a set of names. */
module NameOrder {
  import opened Digraph

  /** By the first code point that differs; a proper prefix comes first. */
  predicate Less(a: Name, b: Name) {
    b != [] && (a == [] || a[0] < b[0] || (a[0] == b[0] && Less(a[1..], b[1..])))
  }

  lemma {:induction false} LessTotal(a: Name, b: Name)
    ensures Less(a, b) || a == b || Less(b, a)
  {
    if a != [] && b != [] && a[0] == b[0] {
      LessTotal(a[1..], b[1..]);
      if a[1..] == b[1..] {
        assert a == [a[0]] + a[1..] && b == [b[0]] + b[1..];
      }
    }
  }

  lemma {:induction false} LessIrreflexive(a: Name)
    ensures !Less(a, a)
  {
    if a != [] {
      LessIrreflexive(a[1..]);
    }
  }

  lemma {:induction false} LessTransitive(a: Name, b: Name, c: Name)
    requires Less(a, b) && Less(b, c)
    ensures Less(a, c)
  {
    if a != [] && a[0] == b[0] && b[0] == c[0] {
      LessTransitive(a[1..], b[1..], c[1..]);
    }
  }

  predicate Ascending(xs: seq<Name>) {
    forall i, j :: 0 <= i < j < |xs| ==> Less(xs[i], xs[j])
  }

  ghost predicate SameNames(xs: seq<Name>, names: set<Name>) {
    forall n :: n in xs <==> n in names
  }

  method Least(names: set<Name>) returns (m: Name)
    requires names != {}
    ensures m in names && forall n :: n in names && n != m ==> Less(m, n)
  {
    m :| m in names;
    var left := names - {m};
    while left != {}
      invariant left <= names && m in names && m !in left
      invariant forall n :: n in names - left && n != m ==> Less(m, n)
      decreases left
    {
      var n :| n in left;
      left := left - {n};
      LessTotal(m, n);
      if Less(n, m) {
        forall x | x in names - left && x != n ensures Less(n, x) {
          if x != m { LessTransitive(n, m, x); }
        }
        m := n;
      }
    }
  }

  /** sorted(names): ascending, and exactly the names. */
  method Sorted(names: set<Name>) returns (xs: seq<Name>)
    ensures Ascending(xs) && SameNames(xs, names)
  {
    xs := [];
    var left := names;
    while left != {}
      invariant left <= names && SameNames(xs, names - left) && Ascending(xs)
      invariant forall x, n :: x in xs && n in left ==> Less(x, n)
      decreases left
    {
      var m := Least(left);
      xs, left := xs + [m], left - {m};
    }
  }

  lemma AscendingMeansDistinct(xs: seq<Name>)
    requires Ascending(xs)
    ensures forall i, j :: 0 <= i < j < |xs| ==> xs[i] != xs[j]
  {
    forall i, j | 0 <= i < j < |xs| ensures xs[i] != xs[j] {
      LessIrreflexive(xs[i]);
      assert Less(xs[i], xs[j]);
    }
  }

  /** There is one way to write a set of names in ascending order. */
  lemma {:induction false} AscendingUnique(xs: seq<Name>, ys: seq<Name>)
    requires Ascending(xs) && Ascending(ys) && forall n :: n in xs <==> n in ys
    ensures xs == ys
    decreases |xs|
  {
    BothEmpty(xs, ys);
    if xs != [] {
      SameFirst(xs, ys);
      forall n ensures n in xs[1..] <==> n in ys[1..] {
        TailMembers(xs, n);
        TailMembers(ys, n);
      }
      AscendingUnique(xs[1..], ys[1..]);
      assert xs == [xs[0]] + xs[1..] && ys == [ys[0]] + ys[1..];
    }
  }

  lemma BothEmpty(xs: seq<Name>, ys: seq<Name>)
    requires forall n :: n in xs <==> n in ys
    ensures xs == [] <==> ys == []
    ensures xs != [] ==> xs[0] in ys && ys[0] in xs
  {
    if xs != [] { assert xs[0] in ys; }
    if ys != [] { assert ys[0] in xs; }
  }

  lemma SameFirst(xs: seq<Name>, ys: seq<Name>)
    requires Ascending(xs) && Ascending(ys) && xs != [] && ys != [] && xs[0] in ys && ys[0] in xs
    ensures xs[0] == ys[0]
  {
    var j :| 0 <= j < |ys| && ys[j] == xs[0];
    var i :| 0 <= i < |xs| && xs[i] == ys[0];
    if j != 0 {
      assert Less(ys[0], xs[0]);
      if i != 0 {
        LessTransitive(ys[0], xs[0], ys[0]);
      }
      LessIrreflexive(ys[0]);
    }
  }

  lemma TailMembers(xs: seq<Name>, n: Name)
    requires Ascending(xs) && xs != []
    ensures n in xs[1..] <==> n in xs && n != xs[0]
  {
    AscendingMeansDistinct(xs);
    if n in xs && n != xs[0] {
      var i :| 0 <= i < |xs| && xs[i] == n;
      assert xs[1..][i - 1] == n;
    }
    if n in xs[1..] {
      var i :| 0 <= i < |xs| - 1 && xs[1..][i] == n;
      assert xs[i + 1] == n;
    }
  }
}
