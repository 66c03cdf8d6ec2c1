/** Sums and cardinalities over finite maps and sets, used for capacity, ranks and counts. */
module Sums {

  ghost function Sum<K>(w: map<K, nat>): nat
    decreases |w|
  {
    if w == map[] then 0
    else
      var k :| k in w;
      w[k] + Sum(w - {k})
  }

  /** The order in which keys are taken does not matter: any key may be split off. */
  lemma {:induction false} SumSplit<K>(w: map<K, nat>, k: K)
    requires k in w
    ensures Sum(w) == w[k] + Sum(w - {k})
    decreases |w|
  {
    var j :| j in w && Sum(w) == w[j] + Sum(w - {j});
    if j != k {
      SumSplit(w - {j}, k);
      SumSplit(w - {k}, j);
      assert w - {j} - {k} == w - {k} - {j};
    }
  }

  lemma SumUpdate<K>(w: map<K, nat>, k: K, x: nat)
    ensures Sum(w[k := x]) == (if k in w then Sum(w) - w[k] else Sum(w)) + x
    ensures k in w ==> w[k] <= Sum(w)
  {
    SumSplit(w[k := x], k);
    if k in w {
      SumSplit(w, k);
      assert w[k := x] - {k} == w - {k};
    } else {
      assert w[k := x] - {k} == w;
    }
  }

  /** An injective image has as many elements as its source. */
  lemma {:induction false} CardinalityOfImage<A, B>(s: set<A>, f: map<A, B>, image: set<B>)
    requires s <= f.Keys
    requires forall a, b | a in s && b in s && f[a] == f[b] :: a == b
    requires forall a | a in s :: f[a] in image
    requires forall b | b in image :: exists a :: a in s && f[a] == b
    ensures |image| == |s|
    decreases |s|
  {
    if s == {} {
      assert image == {};
    } else {
      var a :| a in s;
      CardinalityOfImage(s - {a}, f, image - {f[a]});
    }
  }

  lemma {:induction false} SubsetSize<T>(s: set<T>, t: set<T>)
    requires s <= t
    ensures |s| <= |t|
    ensures |s| == |t| ==> s == t
    decreases |s|
  {
    if s == {} {
    } else {
      var x :| x in s;
      SubsetSize(s - {x}, t - {x});
      assert s == s - {x} + {x} && t == t - {x} + {x};
    }
  }

  ghost function Interval(lo: int, hi: int): (s: set<int>)
    ensures forall x :: x in s <==> lo <= x < hi
    decreases hi - lo
  {
    if hi <= lo then {} else Interval(lo, hi - 1) + {hi - 1}
  }

  lemma {:induction false} IntervalSize(lo: int, hi: int)
    requires lo <= hi
    ensures |Interval(lo, hi)| == hi - lo
    decreases hi - lo
  {
    if lo == hi {
      assert Interval(lo, hi) == {};
    } else {
      IntervalSize(lo, hi - 1);
    }
  }
}
