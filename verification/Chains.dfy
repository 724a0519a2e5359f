/** Following a partial successor function from a starting point.  Compression
    pointers and CNAME records are both followed this way, with a set of visited
    points to stop cycles. */
module Chains {
  import opened Wire

  function Iter<T>(f: T -> Option<T>, x: T, k: nat): Option<T> {
    if k == 0 then Some(x)
    else match Iter(f, x, k - 1)
      case None => None
      case Some(y) => f(y)
  }

  /** The chain from `x` ends after exactly `n` steps. */
  ghost predicate Stops<T(!new)>(f: T -> Option<T>, x: T, n: nat) {
    Iter(f, x, n).Some? && f(Iter(f, x, n).value).None?
  }

  lemma {:induction false} IterPrefix<T>(f: T -> Option<T>, x: T, j: nat, k: nat)
    requires j <= k && Iter(f, x, k).Some?
    ensures Iter(f, x, j).Some?
  {
    if j < k {
      IterPrefix(f, x, j, k - 1);
    }
  }

  lemma {:induction false} IterShift<T>(f: T -> Option<T>, x: T, j: nat, k: nat, i: nat)
    requires Iter(f, x, j) == Iter(f, x, k)
    ensures Iter(f, x, j + i) == Iter(f, x, k + i)
  {
    if i > 0 {
      IterShift(f, x, j, k, i - 1);
    }
  }

  /** Taking the first step first. */
  lemma {:induction false} IterCons<T>(f: T -> Option<T>, x: T, k: nat)
    requires f(x).Some?
    ensures Iter(f, x, k + 1) == Iter(f, f(x).value, k)
  {
    if k > 0 {
      IterCons(f, x, k - 1);
    } else {
      assert Iter(f, x, 0) == Some(x);
    }
  }

  lemma NothingAfterStop<T(!new)>(f: T -> Option<T>, x: T, n: nat, k: nat)
    requires Stops(f, x, n) && n < k
    ensures Iter(f, x, k).None?
  {
    if Iter(f, x, k).Some? {
      IterPrefix(f, x, n + 1, k);
    }
  }

  lemma StopsOnce<T(!new)>(f: T -> Option<T>, x: T, m: nat, n: nat)
    requires Stops(f, x, m) && Stops(f, x, n)
    ensures m == n
  {
    if m < n {
      NothingAfterStop(f, x, m, n);
    } else if n < m {
      NothingAfterStop(f, x, n, m);
    }
  }

  /** A chain that meets the same point twice never ends. */
  lemma RevisitNeverStops<T(!new)>(f: T -> Option<T>, x: T, j: nat, k: nat, n: nat)
    requires j < k && Iter(f, x, j).Some? && Iter(f, x, j) == Iter(f, x, k)
    ensures !Stops(f, x, n)
  {
    if Stops(f, x, n) {
      if n < j {
        NothingAfterStop(f, x, n, j);
      } else {
        IterShift(f, x, j, k, n - j);
        NothingAfterStop(f, x, n, k + (n - j));
      }
    }
  }

  /** Every point a visited set holds was met before step `k`. */
  ghost predicate MetBefore<T(!new)>(f: T -> Option<T>, x: T, visited: set<T>, k: nat) {
    forall v :: v in visited ==> exists j: nat :: j < k && Iter(f, x, j) == Some(v)
  }

  lemma MetBeforeGrows<T(!new)>(f: T -> Option<T>, x: T, visited: set<T>, k: nat, y: T)
    requires MetBefore(f, x, visited, k) && Iter(f, x, k) == Some(y)
    ensures MetBefore(f, x, visited + {y}, k + 1)
  {
    forall v | v in visited + {y}
      ensures exists j: nat :: j < k + 1 && Iter(f, x, j) == Some(v)
    {
      if v in visited {
        var j: nat :| j < k && Iter(f, x, j) == Some(v);
      }
    }
  }
}
