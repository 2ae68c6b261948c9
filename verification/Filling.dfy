/** What progressive filling keeps from one bottleneck to the next, and what it ends with. */
module Filling {
  import opened MaxMin

  // bulk, w: the flows that are shared out and their weights; cap: the capacities.
  // r: the rates of the flows already scaled; p: the weights of those still waiting.

  predicate Shapes(adj: Routes, bulk: seq<bool>, w: seq<real>, r: seq<real>, p: seq<real>) {
    && |bulk| == |adj| == |w| == |r| == |p|
    && forall f :: 0 <= f < |adj| ==>
         if bulk[f] then w[f] > 0.0 && ((r[f] == 0.0 && p[f] == w[f]) || (r[f] > 0.0 && p[f] == 0.0))
         else r[f] == 0.0 && p[f] == 0.0
  }

  function Left(adj: Routes, cap: seq<real>, r: seq<real>, l: nat): real
    requires |r| <= |adj| && l < |cap|
  {
    cap[l] - Load(adj, r, l)
  }

  /** What throughput t leaves of capacity u when it is scaled down by gamma, times gamma. */
  function Over(gamma: real, u: real, t: real): real { gamma * u - t }

  /** Link b is full for good: nobody on it is waiting, and nobody on it does better than f. */
  predicate Settled(adj: Routes, bulk: seq<bool>, w: seq<real>, cap: seq<real>, r: seq<real>, p: seq<real>, f: nat,
                    b: nat)
    requires Shapes(adj, bulk, w, r, p) && f < |adj|
  {
    && b < |cap| && cap[b] > 0.0 && Crosses(adj, f, b) && Left(adj, cap, r, b) == 0.0
    && forall g :: 0 <= g < |adj| && bulk[g] && Crosses(adj, g, b) ==> p[g] == 0.0 && r[g] * w[f] <= r[f] * w[g]
  }

  /** The invariant; `last` is the congestion ratio of the latest bottleneck, 0 before the first. */
  ghost predicate Filled(adj: Routes, bulk: seq<bool>, w: seq<real>, cap: seq<real>, r: seq<real>, p: seq<real>,
                         last: real) {
    && Shapes(adj, bulk, w, r, p)
    && last >= 0.0
    && (last == 0.0 ==> forall f :: 0 <= f < |adj| ==> r[f] == 0.0)
    && (last > 0.0 ==> forall f :: 0 <= f < |adj| ==> r[f] * last <= w[f] || !bulk[f])
    && (forall l :: 0 <= l < |cap| ==> Left(adj, cap, r, l) <= cap[l])
    && (forall l :: 0 <= l < |cap| && cap[l] > 0.0 ==> Left(adj, cap, r, l) >= 0.0)
    && (last > 0.0 ==> forall l :: 0 <= l < |cap| && cap[l] > 0.0 ==> Load(adj, p, l) <= last * Left(adj, cap, r, l))
    && (forall f :: 0 <= f < |adj| && bulk[f] && r[f] > 0.0 ==> Home(adj, bulk, w, cap, r, p, f))
  }

  /** Flow f crosses a link that is full for good. */
  ghost predicate Home(adj: Routes, bulk: seq<bool>, w: seq<real>, cap: seq<real>, r: seq<real>, p: seq<real>, f: nat)
    requires Shapes(adj, bulk, w, r, p) && f < |adj|
  {
    exists b :: Settled(adj, bulk, w, cap, r, p, f, b)
  }

  /** Link b with ratio gamma is the most congested one. */
  predicate Worst(adj: Routes, cap: seq<real>, r: seq<real>, p: seq<real>, b: nat, gamma: real)
    requires |r| == |p| == |adj|
  {
    && b < |cap| && Left(adj, cap, r, b) != 0.0 && gamma == Load(adj, p, b) / Left(adj, cap, r, b) > 0.0
    && forall l :: 0 <= l < |cap| && Left(adj, cap, r, l) != 0.0 ==> Load(adj, p, l) / Left(adj, cap, r, l) <= gamma
  }

  lemma Waiting(adj: Routes, bulk: seq<bool>, w: seq<real>, r: seq<real>, p: seq<real>, l: nat)
    requires Shapes(adj, bulk, w, r, p)
    ensures Load(adj, p, l) >= 0.0 && Load(adj, r, l) >= 0.0
  {
    LoadNonneg(adj, p, l);
    LoadNonneg(adj, r, l);
  }

  lemma RatioSign(t: real, u: real, gamma: real)
    requires u != 0.0 && gamma == t / u > 0.0 && t >= 0.0
    ensures u > 0.0 && t > 0.0 && t == gamma * u
  {
  }

  lemma RatioBound(t: real, u: real, gamma: real)
    requires u > 0.0 && t / u <= gamma
    ensures t <= gamma * u
  {
    assert t == (t / u) * u;
  }

  lemma RatioOrder(t: real, u: real, gamma: real, last: real)
    requires u > 0.0 && t == gamma * u && t <= last * u
    ensures gamma <= last
  {
  }

  /** The bottleneck has capacity to share, and congestion ratios never rise. */
  lemma WorstIsBetter(adj: Routes, bulk: seq<bool>, w: seq<real>, cap: seq<real>, r: seq<real>, p: seq<real>,
                      last: real, b: nat, gamma: real)
    requires Filled(adj, bulk, w, cap, r, p, last) && Worst(adj, cap, r, p, b, gamma)
    ensures cap[b] > 0.0 && Left(adj, cap, r, b) > 0.0 && Load(adj, p, b) == gamma * Left(adj, cap, r, b) > 0.0
    ensures last > 0.0 ==> gamma <= last
    ensures forall l :: 0 <= l < |cap| && cap[l] > 0.0 ==> Load(adj, p, l) <= gamma * Left(adj, cap, r, l)
  {
    hide Load, Left, Settled;
    Waiting(adj, bulk, w, r, p, b);
    RatioSign(Load(adj, p, b), Left(adj, cap, r, b), gamma);
    if last > 0.0 { RatioOrder(Load(adj, p, b), Left(adj, cap, r, b), gamma, last); }
    forall l | 0 <= l < |cap| && cap[l] > 0.0 ensures Load(adj, p, l) <= gamma * Left(adj, cap, r, l) {
      if Left(adj, cap, r, l) > 0.0 {
        RatioBound(Load(adj, p, l), Left(adj, cap, r, l), gamma);
      } else {
        assert Left(adj, cap, r, l) == 0.0;
        if last == 0.0 { NothingYet(adj, cap, r, l); }
      }
    }
  }

  lemma NothingYet(adj: Routes, cap: seq<real>, r: seq<real>, l: nat)
    requires |r| == |adj| && l < |cap| && forall f :: 0 <= f < |adj| ==> r[f] == 0.0
    ensures Left(adj, cap, r, l) == cap[l]
  {
    LoadZero(adj, r, l);
  }

  /** The waiting flows on b are scaled by gamma, everything else stays. */
  predicate Scaled(adj: Routes, w: seq<real>, r: seq<real>, p: seq<real>, b: nat, gamma: real, r': seq<real>,
                   p': seq<real>)
    requires |w| == |adj| == |r| == |p| == |r'| == |p'| && gamma > 0.0
  {
    forall f :: 0 <= f < |adj| ==>
      if Crosses(adj, f, b) && p[f] > 0.0 then r'[f] == w[f] / gamma && p'[f] == 0.0 else r'[f] == r[f] && p'[f] == p[f]
  }

  lemma ShareCompare(rg: real, wg: real, wf: real, gamma: real)
    requires gamma > 0.0 && wf > 0.0 && rg * gamma <= wg
    ensures rg * wf <= (wf / gamma) * wg
  {
    assert rg <= wg / gamma;
    assert rg * wf <= (wg / gamma) * wf;
    assert (wg / gamma) * wf == (wf / gamma) * wg;
  }

  lemma Tighten(rg: real, last: real, gamma: real, wg: real)
    requires rg >= 0.0 && gamma <= last && rg * last <= wg
    ensures rg * gamma <= wg
  {
    assert rg * gamma <= rg * last;
  }

  lemma OverKept(gamma: real, u: real, t: real, u': real, t': real)
    requires gamma > 0.0 && t <= gamma * u && t' >= 0.0 && Over(gamma, u, t) == Over(gamma, u', t')
    ensures t' <= gamma * u' && u' >= 0.0
  {
    assert t' <= gamma * u' by { assert Over(gamma, u, t) >= 0.0; }
    NonnegFactor(gamma, u');
  }

  lemma NonnegFactor(gamma: real, u: real)
    requires gamma > 0.0 && gamma * u >= 0.0
    ensures u >= 0.0
  {
  }

  lemma FilledIs(adj: Routes, bulk: seq<bool>, w: seq<real>, cap: seq<real>, r: seq<real>, p: seq<real>, last: real)
    requires Shapes(adj, bulk, w, r, p) && last > 0.0
    requires forall f :: 0 <= f < |adj| ==> r[f] * last <= w[f] || !bulk[f]
    requires forall l :: 0 <= l < |cap| ==> Left(adj, cap, r, l) <= cap[l]
    requires forall l :: 0 <= l < |cap| && cap[l] > 0.0 ==> Left(adj, cap, r, l) >= 0.0
    requires forall l :: 0 <= l < |cap| && cap[l] > 0.0 ==> Load(adj, p, l) <= last * Left(adj, cap, r, l)
    requires forall f :: 0 <= f < |adj| && bulk[f] && r[f] > 0.0 ==> Home(adj, bulk, w, cap, r, p, f)
    ensures Filled(adj, bulk, w, cap, r, p, last)
  {
    hide Shapes, Home, Left, Load;
  }

  /** One round of progressive filling keeps the invariant. */
  lemma FillStep(adj: Routes, bulk: seq<bool>, w: seq<real>, cap: seq<real>, r: seq<real>, p: seq<real>, last: real,
                 b: nat, gamma: real, r': seq<real>, p': seq<real>)
    requires Filled(adj, bulk, w, cap, r, p, last) && Worst(adj, cap, r, p, b, gamma)
    requires |r'| == |p'| == |adj| && Scaled(adj, w, r, p, b, gamma, r', p') && Left(adj, cap, r', b) == 0.0
    requires forall l :: 0 <= l < |cap| ==>
      && Over(gamma, Left(adj, cap, r', l), Load(adj, p', l)) == Over(gamma, Left(adj, cap, r, l), Load(adj, p, l))
      && Left(adj, cap, r', l) <= Left(adj, cap, r, l)
    ensures Filled(adj, bulk, w, cap, r', p', gamma)
    ensures last > 0.0 ==> gamma <= last
    ensures exists f :: 0 <= f < |adj| && p[f] > 0.0 && p'[f] == 0.0
  {
    hide Load, Left, Settled, Over, Home;
    WorstIsBetter(adj, bulk, w, cap, r, p, last, b, gamma);
    var f0 := LoadWitness(adj, p, b);
    ScaledShapes(adj, bulk, w, r, p, b, gamma, r', p');
    SharesBounded(adj, bulk, w, r, p, last, b, gamma, r', p');
    forall l | 0 <= l < |cap| && cap[l] > 0.0
      ensures Left(adj, cap, r', l) >= 0.0 && Load(adj, p', l) <= gamma * Left(adj, cap, r', l)
    {
      LinkAfter(adj, bulk, w, cap, r, p, gamma, r', p', l);
    }
    forall f | 0 <= f < |adj| && bulk[f] && r'[f] > 0.0 ensures Home(adj, bulk, w, cap, r', p', f) {
      HomeAfter(adj, bulk, w, cap, r, p, last, b, gamma, r', p', f);
    }
    FilledIs(adj, bulk, w, cap, r', p', gamma);
  }

  lemma LinkAfter(adj: Routes, bulk: seq<bool>, w: seq<real>, cap: seq<real>, r: seq<real>, p: seq<real>, gamma: real,
                  r': seq<real>, p': seq<real>, l: nat)
    requires |r| == |p| == |adj| && Shapes(adj, bulk, w, r', p') && gamma > 0.0 && l < |cap|
    requires Load(adj, p, l) <= gamma * Left(adj, cap, r, l)
    requires Over(gamma, Left(adj, cap, r', l), Load(adj, p', l)) == Over(gamma, Left(adj, cap, r, l), Load(adj, p, l))
    ensures Left(adj, cap, r', l) >= 0.0 && Load(adj, p', l) <= gamma * Left(adj, cap, r', l)
  {
    hide Load, Left, Over;
    Waiting(adj, bulk, w, r', p', l);
    OverKept(gamma, Left(adj, cap, r, l), Load(adj, p, l), Left(adj, cap, r', l), Load(adj, p', l));
  }

  /** Who has a rate now had it before, or has just been scaled on b. */
  lemma HomeAfter(adj: Routes, bulk: seq<bool>, w: seq<real>, cap: seq<real>, r: seq<real>, p: seq<real>, last: real,
                  b: nat, gamma: real, r': seq<real>, p': seq<real>, f: nat)
    requires Filled(adj, bulk, w, cap, r, p, last) && Shapes(adj, bulk, w, r', p') && gamma > 0.0
    requires Scaled(adj, w, r, p, b, gamma, r', p') && f < |adj| && bulk[f] && r'[f] > 0.0
    requires b < |cap| && cap[b] > 0.0 && Left(adj, cap, r', b) == 0.0
    requires forall g :: 0 <= g < |adj| ==> r'[g] * gamma <= w[g] || !bulk[g]
    ensures Home(adj, bulk, w, cap, r', p', f)
  {
    hide Load, Left, Settled;
    if r[f] > 0.0 {
      assert Home(adj, bulk, w, cap, r, p, f);
      var c :| Settled(adj, bulk, w, cap, r, p, f, c);
      StaysSettled(adj, bulk, w, cap, r, p, b, gamma, r', p', f, c);
    } else {
      assert Crosses(adj, f, b) && r'[f] == w[f] / gamma;
      NowSettled(adj, bulk, w, cap, r, p, b, gamma, r', p', f);
    }
  }

  /** The flows that are still waiting. */
  function Pending(p: seq<real>): set<nat> {
    set f | 0 <= f < |p| && p[f] > 0.0
  }

  lemma PendingShrinks(adj: Routes, w: seq<real>, r: seq<real>, p: seq<real>, b: nat, gamma: real, r': seq<real>,
                       p': seq<real>)
    requires |w| == |adj| == |r| == |p| == |r'| == |p'| && gamma > 0.0 && Scaled(adj, w, r, p, b, gamma, r', p')
    requires exists f :: 0 <= f < |adj| && p[f] > 0.0 && p'[f] == 0.0
    ensures Pending(p') < Pending(p)
  {
    var f :| 0 <= f < |adj| && p[f] > 0.0 && p'[f] == 0.0;
    assert f in Pending(p) && f !in Pending(p');
  }

  lemma ScaledShapes(adj: Routes, bulk: seq<bool>, w: seq<real>, r: seq<real>, p: seq<real>, b: nat, gamma: real,
                     r': seq<real>, p': seq<real>)
    requires Shapes(adj, bulk, w, r, p) && gamma > 0.0
    requires |r'| == |p'| == |adj| && Scaled(adj, w, r, p, b, gamma, r', p')
    ensures Shapes(adj, bulk, w, r', p')
  {
  }

  lemma SharesBounded(adj: Routes, bulk: seq<bool>, w: seq<real>, r: seq<real>, p: seq<real>, last: real, b: nat,
                      gamma: real, r': seq<real>, p': seq<real>)
    requires Shapes(adj, bulk, w, r, p) && gamma > 0.0 && (last > 0.0 ==> gamma <= last)
    requires |r'| == |p'| == |adj| && Scaled(adj, w, r, p, b, gamma, r', p')
    requires last == 0.0 ==> forall f :: 0 <= f < |adj| ==> r[f] == 0.0
    requires last >= 0.0 && (last > 0.0 ==> forall f :: 0 <= f < |adj| ==> r[f] * last <= w[f] || !bulk[f])
    ensures forall f :: 0 <= f < |adj| ==> r'[f] * gamma <= w[f] || !bulk[f]
  {
    forall f | 0 <= f < |adj| && bulk[f] ensures r'[f] * gamma <= w[f] {
      if Crosses(adj, f, b) && p[f] > 0.0 {
        assert w[f] / gamma * gamma == w[f];
      } else if last > 0.0 {
        Tighten(r[f], last, gamma, w[f]);
      }
    }
  }

  lemma StaysSettled(adj: Routes, bulk: seq<bool>, w: seq<real>, cap: seq<real>, r: seq<real>, p: seq<real>, b: nat,
                     gamma: real, r': seq<real>, p': seq<real>, f: nat, c: nat)
    requires Shapes(adj, bulk, w, r, p) && Shapes(adj, bulk, w, r', p') && gamma > 0.0
    requires Scaled(adj, w, r, p, b, gamma, r', p') && f < |adj| && bulk[f] && Settled(adj, bulk, w, cap, r, p, f, c)
    ensures Settled(adj, bulk, w, cap, r', p', f, c)
  {
    LoadSame(adj, r, r', c);
  }

  lemma NowSettled(adj: Routes, bulk: seq<bool>, w: seq<real>, cap: seq<real>, r: seq<real>, p: seq<real>, b: nat,
                   gamma: real, r': seq<real>, p': seq<real>, f: nat)
    requires Shapes(adj, bulk, w, r, p) && Shapes(adj, bulk, w, r', p') && gamma > 0.0
    requires Scaled(adj, w, r, p, b, gamma, r', p') && f < |adj| && bulk[f] && Crosses(adj, f, b)
      && r'[f] == w[f] / gamma
    requires b < |cap| && cap[b] > 0.0 && Left(adj, cap, r', b) == 0.0
    requires forall g :: 0 <= g < |adj| ==> r'[g] * gamma <= w[g] || !bulk[g]
    ensures Settled(adj, bulk, w, cap, r', p', f, b)
  {
    forall g | 0 <= g < |adj| && bulk[g] && Crosses(adj, g, b) ensures p'[g] == 0.0 && r'[g] * w[f] <= r'[f] * w[g] {
      ShareCompare(r'[g], w[g], w[f], gamma);
    }
  }

  /** The allocation at the end: scaled flows get their rate, flows that were never reached keep their weight. */
  function Outcome(r: seq<real>, p: seq<real>): seq<real>
    requires |r| == |p|
  {
    seq(|r|, f requires 0 <= f < |r| => r[f] + p[f])
  }

  /** No link on the way of flow f had capacity to share. */
  predicate Unreached(adj: Routes, cap: seq<real>, f: nat)
    requires f < |adj|
  {
    forall l :: 0 <= l < |cap| && Crosses(adj, f, l) ==> cap[l] <= 0.0
  }

  /** What the algorithm guarantees for all inputs: links that had capacity are not overloaded, every flow that
      crosses one of them is held back by one of them, and all other flows keep the rates they had. */
  ghost predicate WellShared(adj: Routes, bulk: seq<bool>, w: seq<real>, cap: seq<real>, x: seq<real>)
    requires |bulk| == |adj| == |w| == |x|
  {
    && (forall f :: 0 <= f < |x| ==> if bulk[f] then x[f] > 0.0 else x[f] == 0.0)
    && (forall l :: 0 <= l < |cap| && cap[l] > 0.0 ==> Load(adj, x, l) <= cap[l])
    && (forall f, l :: 0 <= f < |x| && bulk[f] && 0 <= l < |cap| && cap[l] > 0.0 && Crosses(adj, f, l) ==>
          exists b: nat :: b < |cap| && HeldBack(adj, bulk, w, cap, x, f, b))
    && (forall f :: 0 <= f < |x| && bulk[f] && Unreached(adj, cap, f) ==> x[f] == w[f])
  }

  lemma NobodyWaits(adj: Routes, bulk: seq<bool>, w: seq<real>, cap: seq<real>, r: seq<real>, p: seq<real>, last: real,
                    l: nat)
    requires Filled(adj, bulk, w, cap, r, p, last) && l < |cap| && cap[l] > 0.0
    requires Left(adj, cap, r, l) != 0.0 ==> Load(adj, p, l) / Left(adj, cap, r, l) <= 0.0
    ensures forall f :: 0 <= f < |adj| && Crosses(adj, f, l) ==> p[f] == 0.0
    ensures Load(adj, Outcome(r, p), l) == Load(adj, r, l) <= cap[l]
  {
    hide Settled;
    Waiting(adj, bulk, w, r, p, l);
    if Left(adj, cap, r, l) > 0.0 {
      RatioBound(Load(adj, p, l), Left(adj, cap, r, l), 0.0);
    } else if last == 0.0 {
      NothingYet(adj, cap, r, l);
    }
    forall f | 0 <= f < |adj| && Crosses(adj, f, l) ensures p[f] == 0.0 {
      if p[f] > 0.0 { LoadPositive(adj, p, l, f); }
    }
    LoadSame(adj, Outcome(r, p), r, l);
  }

  /** When no link has a positive congestion ratio any more, the result is well shared. */
  lemma FillDone(adj: Routes, bulk: seq<bool>, w: seq<real>, cap: seq<real>, r: seq<real>, p: seq<real>, last: real)
    requires Filled(adj, bulk, w, cap, r, p, last)
    requires forall l :: 0 <= l < |cap| && Left(adj, cap, r, l) != 0.0 ==> Load(adj, p, l) / Left(adj, cap, r, l) <= 0.0
    ensures WellShared(adj, bulk, w, cap, Outcome(r, p))
  {
    hide Load, Left;
    var x := Outcome(r, p);
    forall l | 0 <= l < |cap| && cap[l] > 0.0 ensures Load(adj, x, l) <= cap[l] {
      NobodyWaits(adj, bulk, w, cap, r, p, last, l);
    }
    forall f, l | 0 <= f < |x| && bulk[f] && 0 <= l < |cap| && cap[l] > 0.0 && Crosses(adj, f, l)
      ensures exists b: nat :: b < |cap| && HeldBack(adj, bulk, w, cap, x, f, b)
    {
      NobodyWaits(adj, bulk, w, cap, r, p, last, l);
      var b :| Settled(adj, bulk, w, cap, r, p, f, b);
      NobodyWaits(adj, bulk, w, cap, r, p, last, b);
      assert HeldBack(adj, bulk, w, cap, x, f, b) by { LeftIs(adj, cap, r, b); }
    }
    forall f | 0 <= f < |x| && bulk[f] && Unreached(adj, cap, f) ensures x[f] == w[f] {
      StillWaits(adj, bulk, w, cap, r, p, last, f);
    }
  }

  lemma StillWaits(adj: Routes, bulk: seq<bool>, w: seq<real>, cap: seq<real>, r: seq<real>, p: seq<real>, last: real,
                   f: nat)
    requires Filled(adj, bulk, w, cap, r, p, last) && f < |adj| && bulk[f] && Unreached(adj, cap, f)
    ensures r[f] == 0.0 && p[f] == w[f]
  {
    assert forall b: nat :: Settled(adj, bulk, w, cap, r, p, f, b) ==> cap[b] > 0.0 && Crosses(adj, f, b);
  }

  lemma KeepsWeight(adj: Routes, bulk: seq<bool>, w: seq<real>, cap: seq<real>, x: seq<real>)
    requires |bulk| == |adj| == |w| == |x| && WellShared(adj, bulk, w, cap, x)
    ensures forall f :: 0 <= f < |x| && bulk[f] && Unreached(adj, cap, f) ==> x[f] == w[f]
  {
  }

  lemma LeftIs(adj: Routes, cap: seq<real>, r: seq<real>, l: nat)
    requires |r| <= |adj| && l < |cap|
    ensures Left(adj, cap, r, l) == cap[l] - Load(adj, r, l)
  {
  }

  /** Flow f has a route. */
  predicate Routed(adj: Routes, cap: seq<real>, f: nat)
    requires f < |adj|
  {
    exists l :: 0 <= l < |cap| && Crosses(adj, f, l)
  }

  /** Every bulk flow has a route, and all links on it have capacity left. */
  predicate Roomy(adj: Routes, bulk: seq<bool>, cap: seq<real>)
    requires |bulk| == |adj|
  {
    && (forall f :: 0 <= f < |adj| && bulk[f] ==> Routed(adj, cap, f))
    && (forall l :: 0 <= l < |cap| && Carries(adj, bulk, l) ==> cap[l] > 0.0)
  }

  /** The result fits exactly when every link that carries bulk flows had capacity for them, and then it
      is the max-min fair allocation. */
  lemma SharedIsFair(adj: Routes, bulk: seq<bool>, w: seq<real>, cap: seq<real>, x: seq<real>)
    requires |bulk| == |adj| == |w| == |x| && WellShared(adj, bulk, w, cap, x)
    requires forall f :: 0 <= f < |adj| && bulk[f] ==> Routed(adj, cap, f)
    ensures Feasible(adj, bulk, cap, x) <==> forall l :: 0 <= l < |cap| && Carries(adj, bulk, l) ==> cap[l] > 0.0
    ensures Feasible(adj, bulk, cap, x) ==> MaxMinFair(adj, bulk, w, cap, x)
  {
    hide Load;
    if Feasible(adj, bulk, cap, x) {
      forall l | 0 <= l < |cap| && Carries(adj, bulk, l) ensures cap[l] > 0.0 {
        var f :| 0 <= f < |adj| && bulk[f] && Crosses(adj, f, l);
        LoadPositive(adj, x, l, f);
      }
      forall f | 0 <= f < |x| && bulk[f] ensures exists b :: HeldBack(adj, bulk, w, cap, x, f, b) {
        assert Routed(adj, cap, f);
        var l :| 0 <= l < |cap| && Crosses(adj, f, l);
        assert Carries(adj, bulk, l);
        var b: nat :| b < |cap| && HeldBack(adj, bulk, w, cap, x, f, b);
      }
      HeldBackIsFair(adj, bulk, w, cap, x);
    }
  }

  /** So there is one outcome only, whatever capacities were exhausted before. */
  lemma SharedOneWay(adj: Routes, bulk: seq<bool>, w: seq<real>, cap: seq<real>, x: seq<real>, y: seq<real>)
    requires |bulk| == |adj| == |w| == |x| == |y|
    requires forall f :: 0 <= f < |w| && bulk[f] ==> w[f] > 0.0
    requires WellShared(adj, bulk, w, cap, x) && WellShared(adj, bulk, w, cap, y)
    ensures x == y
  {
    hide Least, WellShared;
    NobodyElse(adj, bulk, w, cap, x);
    NobodyElse(adj, bulk, w, cap, y);
    if exists g :: 0 <= g < |x| && bulk[g] && x[g] != y[g] {
      var f := LeastDiffering(bulk, w, x, y, |x|);
      if x[f] < y[f] {
        var g := SmallerShare(adj, bulk, w, cap, x, y, f);
      } else {
        var g := SmallerShare(adj, bulk, w, cap, y, x, f);
        LeastSym(w, x, y, f);
        LeastSym(w, x, y, g);
      }
      assert false;
    }
  }

  lemma NobodyElse(adj: Routes, bulk: seq<bool>, w: seq<real>, cap: seq<real>, x: seq<real>)
    requires |bulk| == |adj| == |w| == |x| && WellShared(adj, bulk, w, cap, x)
    ensures forall f :: 0 <= f < |x| ==> if bulk[f] then x[f] > 0.0 else x[f] == 0.0
  {
  }

  /** Who gets less in x than in y is held back in x by one who gets less in y. */
  lemma SmallerShare(adj: Routes, bulk: seq<bool>, w: seq<real>, cap: seq<real>, x: seq<real>, y: seq<real>, f: nat)
    returns (g: nat)
    requires |bulk| == |adj| == |w| == |x| == |y| && f < |x| && bulk[f] && x[f] < y[f]
    requires forall f :: 0 <= f < |w| && bulk[f] ==> w[f] > 0.0
    requires WellShared(adj, bulk, w, cap, x) && WellShared(adj, bulk, w, cap, y)
    ensures g < |x| && bulk[g] && x[g] != y[g] && Least(w, x, y, g) < Least(w, x, y, f)
  {
    hide Load;
    assert !Unreached(adj, cap, f);
    var l :| 0 <= l < |cap| && Crosses(adj, f, l) && cap[l] > 0.0;
    var b: nat :| b < |cap| && HeldBack(adj, bulk, w, cap, x, f, b);
    LoadPositive(adj, x, b, f);
    g := LoadLess(adj, x, y, b, f);
    ShareOrder(x[g], w[g], x[f], w[f]);
    ShareLess(y[g], x[g], w[g]);
  }
}
