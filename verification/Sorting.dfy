/** Python's order of strings, by code points, and `sorted` on a set of them. */
module Sorting {
  import opened Ordering
  import opened Paths

  predicate Less(a: string, b: string) {
    b != "" && (a == "" || a[0] < b[0] || (a[0] == b[0] && Less(a[1..], b[1..])))
  }

  lemma {:induction false} LessTotal(a: string, b: string)
    ensures a == b || Less(a, b) || Less(b, a)
    ensures !(Less(a, b) && Less(b, a)) && !Less(a, a)
  {
    if a != "" && b != "" {
      LessTotal(a[1..], b[1..]);
      LessTotal(a[1..], a[1..]);
      if a[0] == b[0] && a[1..] == b[1..] {
        assert a == [a[0]] + a[1..] && b == [b[0]] + b[1..];
      }
    } else if a != "" {
      LessTotal(a[1..], a[1..]);
    }
  }

  lemma {:induction false} LessTransitive(a: string, b: string, c: string)
    requires Less(a, b) && Less(b, c)
    ensures Less(a, c)
  {
    if a != "" && a[0] == b[0] == c[0] {
      LessTransitive(a[1..], b[1..], c[1..]);
    }
  }

  lemma {:induction false} LessWithPrefix(prefix: string, a: string, b: string)
    ensures Less(prefix + a, prefix + b) <==> Less(a, b)
  {
    if prefix == "" {
      assert prefix + a == a && prefix + b == b;
    } else {
      assert (prefix + a)[1..] == prefix[1..] + a && (prefix + b)[1..] == prefix[1..] + b;
      LessWithPrefix(prefix[1..], a, b);
    }
  }

  lemma LessIsTotal(s: set<string>)
    ensures Total(s, Less)
  {
    forall x, y | x in s && y in s ensures !(Less(x, y) && Less(y, x)) && (x == y || Less(x, y) || Less(y, x)) {
      LessTotal(x, y);
    }
    forall x, y, z | x in s && y in s && z in s && Less(x, y) && Less(y, z) ensures Less(x, z) {
      LessTransitive(x, y, z);
    }
  }

  lemma TextsCanBeSorted(s: set<string>)
    ensures exists q :: Sorts(q, s, Less)
    ensures forall q, i, j :: Sorts(q, s, Less) && 0 <= i < j < |q| ==> q[i] != q[j]
  {
    LessIsTotal(s);
    CanBeSorted(s, Less);
    forall q, i, j | Sorts(q, s, Less) && 0 <= i < j < |q| ensures q[i] != q[j] {
      LessTotal(q[i], q[j]);
    }
  }

  /** `sorted` on a set. */
  ghost function Sorted(s: set<string>): (q: seq<string>)
    ensures forall x :: x in q <==> x in s
    ensures forall i, j :: 0 <= i < j < |q| ==> q[i] != q[j]
  {
    TextsCanBeSorted(s);
    var q :| Sorts(q, s, Less);
    q
  }

  lemma SortedSorts(s: set<string>)
    ensures Sorts(Sorted(s), s, Less)
  {
    TextsCanBeSorted(s);
  }

  function Children(folder: Path, names: seq<string>): (paths: seq<Path>)
    ensures |paths| == |names| && forall k :: 0 <= k < |names| ==> paths[k] == Child(folder, names[k])
  {
    if names == [] then [] else [Child(folder, names[0])] + Children(folder, names[1..])
  }

  lemma ChildOrder(folder: Path, a: string, b: string)
    ensures Less(Child(folder, a), Child(folder, b)) <==> Less(a, b)
    ensures Child(folder, a) == Child(folder, b) ==> a == b
  {
    if folder != "" {
      LessWithPrefix(folder + "/", a, b);
      LessWithPrefix(folder + "/", b, a);
    }
    LessTotal(a, b);
    LessTotal(Child(folder, a), Child(folder, a));
  }

  /** Sorting the entries of one folder by full path or by name gives the same order. */
  lemma SortedChildren(folder: Path, names: set<string>, paths: set<Path>)
    requires paths == set n | n in names :: Child(folder, n)
    ensures Sorted(paths) == Children(folder, Sorted(names))
  {
    var sorted := Sorted(names);
    SortedSorts(names);
    SortedSorts(paths);
    var q := Children(folder, sorted);
    forall i, j | 0 <= i < j < |q| ensures Less(q[i], q[j]) {
      ChildOrder(folder, sorted[i], sorted[j]);
    }
    forall p | p in paths ensures p in q {
      var n :| n in names && p == Child(folder, n);
      var k :| 0 <= k < |sorted| && sorted[k] == n;
      assert q[k] == p;
    }
    forall p | p in q ensures p in paths {
      var k :| 0 <= k < |q| && q[k] == p;
      assert sorted[k] in sorted;
    }
    LessIsTotal(paths);
    SortedOneWay(Sorted(paths), q, paths, Less);
  }
}
