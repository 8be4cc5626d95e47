/** Sums over finite sets of paths, as `SUM(bytes)` and `sum(...)` take them. */
module Sums {
  import opened Paths

  type Sizes = map<Path, nat>

  function SizeAt(sizes: Sizes, p: Path): nat {
    if p in sizes then sizes[p] else 0
  }

  ghost function Sum(sizes: Sizes, s: set<Path>): nat {
    if s == {} then 0 else var p :| p in s; SizeAt(sizes, p) + Sum(sizes, s - {p})
  }

  lemma {:induction false} SumRemove(sizes: Sizes, s: set<Path>, p: Path)
    requires p in s
    ensures Sum(sizes, s) == SizeAt(sizes, p) + Sum(sizes, s - {p})
    decreases s
  {
    var q :| q in s && Sum(sizes, s) == SizeAt(sizes, q) + Sum(sizes, s - {q});
    if q != p {
      SumRemove(sizes, s - {q}, p);
      assert s - {q} - {p} == s - {p} - {q};
      SumRemove(sizes, s - {p}, q);
    }
  }

  lemma {:induction false} SumUnion(sizes: Sizes, a: set<Path>, b: set<Path>)
    requires a !! b
    ensures Sum(sizes, a + b) == Sum(sizes, a) + Sum(sizes, b)
    decreases a
  {
    if a == {} {
      assert a + b == b;
    } else {
      var p :| p in a;
      SumRemove(sizes, a, p);
      SumRemove(sizes, a + b, p);
      assert a + b - {p} == (a - {p}) + b;
      SumUnion(sizes, a - {p}, b);
    }
  }

  lemma {:induction false} SumSame(a: Sizes, b: Sizes, s: set<Path>)
    requires forall p :: p in s ==> SizeAt(a, p) == SizeAt(b, p)
    ensures Sum(a, s) == Sum(b, s)
    decreases s
  {
    if s != {} {
      var p :| p in s;
      SumRemove(a, s, p);
      SumRemove(b, s, p);
      SumSame(a, b, s - {p});
    }
  }

  /** The rows below a folder. */
  ghost function BelowIn(sizes: Sizes, folder: Path): set<Path> {
    set p | p in sizes && Below(folder, p)
  }

  ghost function SumBelow(sizes: Sizes, folder: Path): nat {
    Sum(sizes, BelowIn(sizes, folder))
  }
}
