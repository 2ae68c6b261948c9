/** Weighted max-min fair sharing of link capacities by flows along fixed routes: the facts
    about sums and optimality behind progressive filling. */
module MaxMin {

  // A route lists the links a flow crosses; a link may occur more than once.
  type Routes = seq<seq<nat>>

  function Count(route: seq<nat>, l: nat): nat {
    if route == [] then 0 else Count(route[..|route| - 1], l) + if route[|route| - 1] == l then 1 else 0
  }

  predicate Crosses(adj: Routes, f: nat, l: nat)
    requires f < |adj|
  {
    Count(adj[f], l) > 0
  }

  /** What a flow of rate v puts on a link it crosses c times. */
  function Times(c: nat, v: real): real { c as real * v }

  lemma TimesFacts(c: nat, u: real, v: real)
    ensures Times(0, v) == 0.0
    ensures Times(c + 1, v) == Times(c, v) + v
    ensures Times(c, u + v) == Times(c, u) + Times(c, v)
    ensures Times(c, u - v) == Times(c, u) - Times(c, v)
    ensures Times(c, -v) == -Times(c, v)
    ensures u * Times(c, v) == Times(c, u * v)
  {
  }

  /** What rates x put on link l. */
  function Load(adj: Routes, x: seq<real>, l: nat): real
    requires |x| <= |adj|
  {
    if x == [] then 0.0
    else Load(adj, x[..|x| - 1], l) + Times(Count(adj[|x| - 1], l), x[|x| - 1])
  }

  lemma {:induction false} CountIn(route: seq<nat>, l: nat)
    ensures Count(route, l) > 0 <==> l in route
  {
    if route != [] { CountIn(route[..|route| - 1], l); }
  }

  lemma {:induction false} LoadSet(adj: Routes, x: seq<real>, f: nat, v: real, l: nat)
    requires f < |x| <= |adj|
    ensures Load(adj, x[f := v], l) == Load(adj, x, l) + Times(Count(adj[f], l), v - x[f])
  {
    var m := |x| - 1;
    if f < m {
      assert x[f := v][..m] == x[..m][f := v];
      LoadSet(adj, x[..m], f, v, l);
    } else {
      assert x[f := v][..m] == x[..m];
    }
  }

  lemma {:induction false} LoadZero(adj: Routes, x: seq<real>, l: nat)
    requires |x| <= |adj|
    requires forall f :: 0 <= f < |x| && Crosses(adj, f, l) ==> x[f] == 0.0
    ensures Load(adj, x, l) == 0.0
  {
    if x != [] { LoadZero(adj, x[..|x| - 1], l); }
  }

  lemma {:induction false} LoadNonneg(adj: Routes, x: seq<real>, l: nat)
    requires |x| <= |adj|
    requires forall f :: 0 <= f < |x| && Crosses(adj, f, l) ==> x[f] >= 0.0
    ensures Load(adj, x, l) >= 0.0
  {
    if x != [] {
      LoadNonneg(adj, x[..|x| - 1], l);
      Product(Count(adj[|x| - 1], l), x[|x| - 1]);
    }
  }

  lemma Product(c: nat, v: real)
    ensures v >= 0.0 ==> Times(c, v) >= 0.0
    ensures v > 0.0 && c > 0 ==> Times(c, v) > 0.0
    ensures v <= 0.0 ==> Times(c, v) <= 0.0
  {
  }

  /** A positive load comes from a crossing flow with a positive rate. */
  lemma {:induction false} LoadWitness(adj: Routes, x: seq<real>, l: nat) returns (f: nat)
    requires |x| <= |adj| && Load(adj, x, l) > 0.0
    ensures f < |x| && Crosses(adj, f, l) && x[f] > 0.0
  {
    var m := |x| - 1;
    Product(Count(adj[m], l), x[m]);
    if Count(adj[m], l) > 0 && x[m] > 0.0 {
      f := m;
    } else {
      f := LoadWitness(adj, x[..m], l);
    }
  }

  lemma {:induction false} LoadPositive(adj: Routes, x: seq<real>, l: nat, f: nat)
    requires f < |x| <= |adj| && Crosses(adj, f, l) && x[f] > 0.0
    requires forall g :: 0 <= g < |x| && Crosses(adj, g, l) ==> x[g] >= 0.0
    ensures Load(adj, x, l) > 0.0
  {
    hide Times;
    LoadSet(adj, x, f, 0.0, l);
    LoadNonneg(adj, x[f := 0.0], l);
    TimesFacts(Count(adj[f], l), 0.0, x[f]);
    TimesFacts(Count(adj[f], l), x[f], 0.0);
    assert 0.0 - x[f] == -x[f];
    Product(Count(adj[f], l), x[f]);
  }

  lemma {:induction false} LoadSame(adj: Routes, x: seq<real>, y: seq<real>, l: nat)
    requires |x| == |y| <= |adj|
    requires forall f :: 0 <= f < |x| && Crosses(adj, f, l) ==> x[f] == y[f]
    ensures Load(adj, x, l) == Load(adj, y, l)
  {
    if x != [] { LoadSame(adj, x[..|x| - 1], y[..|y| - 1], l); }
  }

  lemma {:induction false} LoadSum(adj: Routes, x: seq<real>, y: seq<real>, z: seq<real>, l: nat)
    requires |x| == |y| == |z| <= |adj|
    requires forall f :: 0 <= f < |x| ==> z[f] == x[f] + y[f]
    ensures Load(adj, z, l) == Load(adj, x, l) + Load(adj, y, l)
  {
    if x != [] {
      var m := |x| - 1;
      LoadSum(adj, x[..m], y[..m], z[..m], l);
      assert Count(adj[m], l) as real * z[m] == Count(adj[m], l) as real * x[m] + Count(adj[m], l) as real * y[m];
    }
  }

  /** More load on a link means more for some flow that crosses it. */
  lemma {:induction false} LoadLess(adj: Routes, x: seq<real>, y: seq<real>, l: nat, f: nat) returns (g: nat)
    requires |x| == |y| <= |adj| && f < |x|
    requires Crosses(adj, f, l) && y[f] > x[f] && Load(adj, y, l) <= Load(adj, x, l)
    ensures g < |x| && Crosses(adj, g, l) && y[g] < x[g]
  {
    var z := seq(|x|, i requires 0 <= i < |x| => x[i] - y[i]);
    LoadSum(adj, y, z, x, l);
    LoadSet(adj, z, f, 0.0, l);
    Product(Count(adj[f], l), y[f] - x[f]);
    assert Count(adj[f], l) as real * (0.0 - z[f]) > 0.0;
    g := LoadWitness(adj, z[f := 0.0], l);
  }

  // ---------- allocations ----------

  predicate Carries(adj: Routes, bulk: seq<bool>, l: nat)
    requires |bulk| == |adj|
  {
    exists f :: 0 <= f < |adj| && bulk[f] && Crosses(adj, f, l)
  }

  /** The rates of the bulk flows fit into the capacity of every link that carries one. */
  predicate Feasible(adj: Routes, bulk: seq<bool>, cap: seq<real>, x: seq<real>)
    requires |bulk| == |adj| == |x|
  {
    && (forall f :: 0 <= f < |x| ==> if bulk[f] then x[f] >= 0.0 else x[f] == 0.0)
    && (forall l :: 0 <= l < |cap| && Carries(adj, bulk, l) ==> Load(adj, x, l) <= cap[l])
  }

  /** Link b holds flow f back: it is full, and nobody on it does better relative to its weight. */
  predicate HeldBack(adj: Routes, bulk: seq<bool>, w: seq<real>, cap: seq<real>, x: seq<real>, f: nat, b: nat)
    requires |bulk| == |adj| == |x| == |w| && f < |adj|
  {
    && b < |cap| && Crosses(adj, f, b) && Load(adj, x, b) == cap[b]
    && forall g :: 0 <= g < |adj| && bulk[g] && Crosses(adj, g, b) ==> x[g] * w[f] <= x[f] * w[g]
  }

  /** Max-min fairness: nobody can gain except at the expense of one who is no better off. */
  ghost predicate MaxMinFair(adj: Routes, bulk: seq<bool>, w: seq<real>, cap: seq<real>, x: seq<real>)
    requires |bulk| == |adj| == |x| == |w|
  {
    && Feasible(adj, bulk, cap, x)
    && forall y: seq<real>, f :: |y| == |x| && Feasible(adj, bulk, cap, y) && 0 <= f < |x| && bulk[f] && y[f] > x[f] ==>
         exists g :: 0 <= g < |x| && bulk[g] && y[g] < x[g] && x[g] * w[f] <= x[f] * w[g]
  }

  /** A feasible allocation in which some link holds back every bulk flow is max-min fair. */
  lemma HeldBackIsFair(adj: Routes, bulk: seq<bool>, w: seq<real>, cap: seq<real>, x: seq<real>)
    requires |bulk| == |adj| == |x| == |w|
    requires Feasible(adj, bulk, cap, x)
    requires forall f :: 0 <= f < |x| && bulk[f] ==> exists b :: HeldBack(adj, bulk, w, cap, x, f, b)
    ensures MaxMinFair(adj, bulk, w, cap, x)
  {
    forall y: seq<real>, f | |y| == |x| && Feasible(adj, bulk, cap, y) && 0 <= f < |x| && bulk[f] && y[f] > x[f]
      ensures exists g :: 0 <= g < |x| && bulk[g] && y[g] < x[g] && x[g] * w[f] <= x[f] * w[g]
    {
      var b :| HeldBack(adj, bulk, w, cap, x, f, b);
      assert Carries(adj, bulk, b);
      var g := LoadLess(adj, x, y, b, f);
      assert bulk[g];
    }
  }

  /** The smaller of the two shares of flow f, relative to its weight. */
  function Least(w: seq<real>, x: seq<real>, y: seq<real>, f: nat): real
    requires f < |x| == |y| == |w| && w[f] > 0.0
  {
    (if x[f] < y[f] then x[f] else y[f]) / w[f]
  }

  lemma {:induction false} LeastDiffering(bulk: seq<bool>, w: seq<real>, x: seq<real>, y: seq<real>, n: nat)
    returns (f: nat)
    requires n <= |bulk| == |x| == |y| == |w|
    requires forall f :: 0 <= f < |w| && bulk[f] ==> w[f] > 0.0
    requires exists g :: 0 <= g < n && bulk[g] && x[g] != y[g]
    ensures f < n && bulk[f] && x[f] != y[f]
    ensures forall g :: 0 <= g < n && bulk[g] && x[g] != y[g] ==> Least(w, x, y, f) <= Least(w, x, y, g)
  {
    var m := n - 1;
    if exists g :: 0 <= g < m && bulk[g] && x[g] != y[g] {
      f := LeastDiffering(bulk, w, x, y, m);
      if bulk[m] && x[m] != y[m] && Least(w, x, y, m) < Least(w, x, y, f) { f := m; }
    } else {
      f := m;
    }
  }

  lemma ShareOrder(a: real, v: real, b: real, u: real)
    requires u > 0.0 && v > 0.0 && a * u <= b * v
    ensures a / v <= b / u
  {
    assert a / v == (a * u) / (u * v);
    assert b / u == (b * v) / (u * v);
  }

  lemma ShareLess(a: real, b: real, v: real)
    requires v > 0.0 && a < b
    ensures a / v < b / v
  {
  }

  lemma LeastSym(w: seq<real>, x: seq<real>, y: seq<real>, f: nat)
    requires f < |x| == |y| == |w| && w[f] > 0.0
    ensures Least(w, x, y, f) == Least(w, y, x, f)
  {
  }

  lemma FairFits(adj: Routes, bulk: seq<bool>, w: seq<real>, cap: seq<real>, x: seq<real>)
    requires |bulk| == |adj| == |x| == |w| && MaxMinFair(adj, bulk, w, cap, x)
    ensures Feasible(adj, bulk, cap, x) && forall f :: 0 <= f < |x| && !bulk[f] ==> x[f] == 0.0
  {
  }

  /** There is only one max-min fair allocation for given positive weights. */
  lemma FairIsUnique(adj: Routes, bulk: seq<bool>, w: seq<real>, cap: seq<real>, x: seq<real>, y: seq<real>)
    requires |bulk| == |adj| == |x| == |y| == |w|
    requires forall f :: 0 <= f < |w| && bulk[f] ==> w[f] > 0.0
    requires MaxMinFair(adj, bulk, w, cap, x) && MaxMinFair(adj, bulk, w, cap, y)
    ensures x == y
  {
    hide Least, MaxMinFair, Feasible;
    FairFits(adj, bulk, w, cap, x);
    FairFits(adj, bulk, w, cap, y);
    if exists g :: 0 <= g < |x| && bulk[g] && x[g] != y[g] {
      var f := LeastDiffering(bulk, w, x, y, |x|);
      if x[f] < y[f] {
        var g := NoSmallest(adj, bulk, w, cap, x, y, f);
      } else {
        var g := NoSmallest(adj, bulk, w, cap, y, x, f);
        LeastSym(w, x, y, f);
        LeastSym(w, x, y, g);
      }
      assert false;
    }
  }

  lemma NoSmallest(adj: Routes, bulk: seq<bool>, w: seq<real>, cap: seq<real>, x: seq<real>, y: seq<real>, f: nat)
    returns (g: nat)
    requires |bulk| == |adj| == |x| == |y| == |w| && f < |x| && bulk[f]
    requires forall f :: 0 <= f < |w| && bulk[f] ==> w[f] > 0.0
    requires MaxMinFair(adj, bulk, w, cap, x) && Feasible(adj, bulk, cap, y) && x[f] < y[f]
    ensures g < |x| && bulk[g] && x[g] != y[g] && Least(w, x, y, g) < Least(w, x, y, f)
  {
    hide Feasible;
    g :| 0 <= g < |x| && bulk[g] && y[g] < x[g] && x[g] * w[f] <= x[f] * w[g];
    ShareOrder(x[g], w[g], x[f], w[f]);
    ShareLess(y[g], x[g], w[g]);
  }
}
