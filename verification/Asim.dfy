/** The rate allocation of asim (asim.cc, newupdate): links and flows are arrays of records
    that the algorithm overwrites. Numbers are exact reals. */
module Asim {
  import opened MaxMin
  import F = Filling

  datatype Link = Link(mu: real, lambda: real, plambda: real, tlambda: real, uc: real, utput: real, theflows: seq<nat>)

  datatype Flow = Flow(isShort: bool, slambda: real, snopkts: int, tput: real, scaled: bool)

  /** The connections that cross link l, each as often as it crosses it, in the order of GetInputs. */
  function FlowsThrough(adj: Routes, l: nat): seq<nat> {
    if adj == [] then []
    else FlowsThrough(adj[..|adj| - 1], l) + seq(Count(adj[|adj| - 1], l), _ => |adj| - 1)
  }

  lemma {:induction false} FlowsThroughIs(adj: Routes, l: nat, f: nat)
    ensures f in FlowsThrough(adj, l) <==> f < |adj| && Crosses(adj, f, l)
  {
    if adj != [] {
      var m := |adj| - 1;
      FlowsThroughIs(adj[..m], l, f);
      var last := seq(Count(adj[m], l), _ => m);
      if f == m && Crosses(adj, m, l) { assert last[0] == m; }
      assert f in FlowsThrough(adj, l) <==> f in FlowsThrough(adj[..m], l) || f in last;
    }
  }

  /** Taking a flow of scaled rate v off a link keeps gamma * uc - utput. */
  lemma Shift(c: nat, v: real, gamma: real, uc: real, utput: real)
    requires v >= 0.0 && gamma > 0.0
    ensures gamma * (uc - Times(c, v)) - (utput + Times(c, -(v * gamma))) == gamma * uc - utput
    ensures Times(c, v) >= 0.0
    ensures Times(c, -(v * gamma)) == Times(c, 0.0 - v * gamma)
  {
    TimesFacts(c, gamma, v);
    TimesFacts(c, 0.0, v * gamma);
    assert Times(c, v) >= 0.0 by { Product(c, v); }
    assert v * gamma == gamma * v;
    hide Times;
    Distribute(gamma, uc, Times(c, v));
  }

  lemma Distribute(g: real, a: real, b: real)
    ensures g * (a - b) == g * a - g * b
  {
  }

  /** The bookkeeping of the algorithm: r holds the rates of the bulk flows scaled so far and
      p the original rates of the others; uc and utput are what follows from them. */
  ghost predicate BooksIn(adj: Routes, ls: seq<Link>, fs: seq<Flow>, w: seq<real>, cap: seq<real>, r: seq<real>,
                          p: seq<real>)
    requires |w| == |adj| == |r| == |p| == |fs| && |cap| == |ls|
  {
    && (forall l :: 0 <= l < |ls| ==> ls[l].uc == cap[l] - Load(adj, r, l) && ls[l].utput == Load(adj, p, l))
    && (forall f :: 0 <= f < |adj| ==>
          if fs[f].isShort then fs[f].scaled && r[f] == 0.0 && p[f] == 0.0
          else if w[f] == 0.0 then fs[f].tput == r[f] == p[f] == 0.0
          else if fs[f].scaled then r[f] == fs[f].tput > 0.0 && p[f] == 0.0
          else r[f] == 0.0 && p[f] == fs[f].tput == w[f] > 0.0)
  }

  lemma LinkIn(adj: Routes, ls: seq<Link>, fs: seq<Flow>, w: seq<real>, cap: seq<real>, r: seq<real>, p: seq<real>,
               l: nat)
    requires |w| == |adj| == |r| == |p| == |fs| && |cap| == |ls| && BooksIn(adj, ls, fs, w, cap, r, p) && l < |ls|
    ensures ls[l].uc == F.Left(adj, cap, r, l) && ls[l].utput == Load(adj, p, l)
  {
  }

  class Network {
    const adj: Routes
    const links: array<Link>
    const flows: array<Flow>

    /** The tables agree: routes use existing links, and every link knows its flows. */
    ghost predicate Valid()
      reads links, flows
    {
      && flows.Length == |adj|
      && (forall f, k :: 0 <= f < |adj| && 0 <= k < |adj[f]| ==> adj[f][k] < links.Length)
      && (forall l :: 0 <= l < links.Length ==> links[l].theflows == FlowsThrough(adj, l))
    }

    /** The rates of the flows of one kind, 0 for the others. */
    ghost function Rates(short: bool): (x: seq<real>)
      requires flows.Length == |adj|
      reads flows
      ensures |x| == |adj|
    {
      seq(|adj|, f requires 0 <= f < |adj| reads flows => if flows[f].isShort == short then flows[f].tput else 0.0)
    }

    /** The flows that share the rest: bulk flows that send anything. */
    ghost function Bulk(): (b: seq<bool>)
      requires flows.Length == |adj|
      reads flows
      ensures |b| == |adj|
    {
      seq(|adj|, f requires 0 <= f < |adj| reads flows => !flows[f].isShort && flows[f].tput > 0.0)
    }

    /** What no update of the rates changes: the kind of each flow and what it offers. */
    ghost function Sources(): (q: seq<(bool, real, int)>)
      requires flows.Length == |adj|
      reads flows
      ensures |q| == |adj|
    {
      seq(|adj|, f requires 0 <= f < |adj| reads flows => (flows[f].isShort, flows[f].slambda, flows[f].snopkts))
    }

    /** The capacity left for bulk flows on link l. */
    ghost function Spare(l: nat): real
      requires flows.Length == |adj| && l < links.Length
      reads links, flows
    {
      links[l].mu * 1.05 - Load(adj, Rates(true), l)
    }

    /** What the short flows offer: packets per second times packets. */
    ghost function ShortLoads(): (x: seq<real>)
      requires flows.Length == |adj|
      reads flows
      ensures |x| == |adj|
    {
      seq(|adj|, f requires 0 <= f < |adj| reads flows =>
        if flows[f].isShort then flows[f].slambda * flows[f].snopkts as real else 0.0)
    }

    lemma Nothing(i: nat, x: seq<real>)
      ensures FlowsThrough(adj[..0], i) == [] && Load(adj, x[..0], i) == 0.0
    {
    }

    lemma OneMore(i: nat, j: nat, x: seq<real>)
      requires j < |adj| == |x|
      ensures FlowsThrough(adj[..j + 1], i) == FlowsThrough(adj[..j], i) + seq(Count(adj[j], i), _ => j)
      ensures Load(adj, x[..j + 1], i) == Load(adj, x[..j], i) + Times(Count(adj[j], i), x[j])
    {
      assert adj[..j + 1][..j] == adj[..j] && x[..j + 1][..j] == x[..j];
    }

    lemma CountMore(route: seq<nat>, k: nat, i: nat)
      requires k <= |route|
      ensures Count(route[..0], i) == 0
      ensures k < |route| ==> Count(route[..k + 1], i) == Count(route[..k], i) + if route[k] == i then 1 else 0
    {
      if k < |route| { assert route[..k + 1][..k] == route[..k]; }
    }

    /** The flows that cross link i and the load of the short ones among them, on top of lambda0. */
    method CollectFlows(i: nat, lambda0: real) returns (list: seq<nat>, lambda: real)
      requires flows.Length == |adj|
      ensures list == FlowsThrough(adj, i) && lambda == lambda0 + Load(adj, ShortLoads(), i)
    {
      hide Times, FlowsThrough, Load, Count;
      ghost var x := ShortLoads();
      list, lambda := [], lambda0;
      Nothing(i, x);
      var j := 0;
      while j < |adj|
        invariant j <= |adj| && list == FlowsThrough(adj[..j], i) && lambda == lambda0 + Load(adj, x[..j], i)
      {
        OneMore(i, j, x);
        ghost var before, load := list, lambda;
        var k := 0;
        CountMore(adj[j], 0, i);
        TimesFacts(0, 0.0, x[j]);
        while k < |adj[j]|
          invariant k <= |adj[j]| && list == before + seq(Count(adj[j][..k], i), _ => j)
          invariant lambda == load + Times(Count(adj[j][..k], i), x[j])
        {
          CountMore(adj[j], k, i);
          TimesFacts(Count(adj[j][..k], i), 0.0, x[j]);
          if adj[j][k] == i {
            if flows[j].isShort { lambda := lambda + flows[j].slambda * flows[j].snopkts as real; }
            list := list + [j];
          }
          k := k + 1;
        }
        assert adj[j][..k] == adj[j];
        j := j + 1;
      }
      assert adj[..j] == adj && x[..j] == x;
    }

    /** The table of flows per link and the load of the short flows, as GetInputs builds them. */
    method BuildIncidence()
      requires flows.Length == |adj|
      requires forall f, k :: 0 <= f < |adj| && 0 <= k < |adj[f]| ==> adj[f][k] < links.Length
      modifies links
      ensures Valid()
      ensures forall l :: 0 <= l < links.Length ==>
        links[l] == old(links[l]).(theflows := FlowsThrough(adj, l), tlambda := 0.0,
                                   lambda := old(links[l].lambda) + Load(adj, ShortLoads(), l))
    {
      hide FlowsThrough, Load;
      var i := 0;
      while i < links.Length
        invariant i <= links.Length && flows[..] == old(flows[..])
        invariant forall l :: i <= l < links.Length ==> links[l] == old(links[l])
        invariant forall l :: 0 <= l < i ==>
          links[l] == old(links[l]).(theflows := FlowsThrough(adj, l), tlambda := 0.0,
                                     lambda := old(links[l].lambda) + Load(adj, ShortLoads(), l))
      {
        var list, lambda := CollectFlows(i, links[i].lambda);
        links[i] := links[i].(theflows := list, tlambda := 0.0, lambda := lambda);
        i := i + 1;
      }
    }

    ghost function Spares(): (cap: seq<real>)
      requires flows.Length == |adj|
      reads links, flows
      ensures |cap| == links.Length
    {
      seq(links.Length, l requires 0 <= l < links.Length reads links, flows => Spare(l))
    }

    ghost predicate Books(w: seq<real>, cap: seq<real>, r: seq<real>, p: seq<real>)
      requires |w| == |adj| == |r| == |p| == flows.Length && |cap| == links.Length
      reads links, flows
    {
      BooksIn(adj, links[..], flows[..], w, cap, r, p)
    }

    lemma BooksAre(w: seq<real>, cap: seq<real>, r: seq<real>, p: seq<real>)
      requires |w| == |adj| == |r| == |p| == flows.Length && |cap| == links.Length && Books(w, cap, r, p)
      ensures BooksIn(adj, links[..], flows[..], w, cap, r, p)
    {
    }

    lemma SlackIs(gamma: real)
      ensures forall l :: 0 <= l < links.Length ==>
        Slack(l, gamma) == F.Over(gamma, links[..][l].uc, links[..][l].utput)
    {
    }

    /** What would be left of link l if all its unscaled traffic were scaled by gamma, times gamma. */
    ghost function Slack(l: nat, gamma: real): real
      requires l < links.Length
      reads links
    {
      F.Over(gamma, links[l].uc, links[l].utput)
    }

    lemma NoSlack(l: nat, gamma: real)
      requires l < links.Length && gamma > 0.0 && Slack(l, gamma) == 0.0 && links[l].utput == 0.0
      ensures links[l].uc == 0.0
    {
    }

    /** Take `du` off the capacity and add `dt` to the throughput of every hop of flow f. */
    method Spread(f: nat, du: real, dt: real)
      requires Valid() && f < |adj|
      modifies links
      ensures Valid()
      ensures forall l :: 0 <= l < links.Length ==>
        links[l] == old(links[l]).(uc := old(links[l].uc) - Times(Count(adj[f], l), du),
                                   utput := old(links[l].utput) + Times(Count(adj[f], l), dt))
    {
      hide Times;
      TimesFacts(0, 0.0, du);
      TimesFacts(0, 0.0, dt);
      var j := 0;
      while j < |adj[f]|
        invariant j <= |adj[f]|
        invariant forall l :: 0 <= l < links.Length ==>
          links[l] == old(links[l]).(uc := old(links[l].uc) - Times(Count(adj[f][..j], l), du),
                                     utput := old(links[l].utput) + Times(Count(adj[f][..j], l), dt))
      {
        var h := adj[f][j];
        assert adj[f][..j + 1][..j] == adj[f][..j];
        TimesFacts(Count(adj[f][..j], h), 0.0, du);
        TimesFacts(Count(adj[f][..j], h), 0.0, dt);
        links[h] := links[h].(uc := links[h].uc - du, utput := links[h].utput + dt);
        j := j + 1;
      }
      assert adj[f][..j] == adj[f];
    }

    /** The most congested link and its ratio, or -1 when no link carries unscaled traffic. */
    method FindBottleneck() returns (bneck: int, maxgamma: real)
      ensures -1 <= bneck < links.Length && maxgamma >= 0.0
      ensures bneck == -1 ==> maxgamma == 0.0
      ensures bneck >= 0 ==> links[bneck].uc != 0.0 && maxgamma == links[bneck].utput / links[bneck].uc > 0.0
      ensures forall l :: 0 <= l < links.Length && links[l].uc != 0.0 ==> links[l].utput / links[l].uc <= maxgamma
    {
      bneck, maxgamma := -1, 0.0;
      var i := 0;
      while i < links.Length
        invariant i <= links.Length && -1 <= bneck < i && maxgamma >= 0.0
        invariant bneck == -1 ==> maxgamma == 0.0
        invariant bneck >= 0 ==> links[bneck].uc != 0.0 && maxgamma == links[bneck].utput / links[bneck].uc > 0.0
        invariant forall l :: 0 <= l < i && links[l].uc != 0.0 ==> links[l].utput / links[l].uc <= maxgamma
      {
        if links[i].uc != 0.0 {
          var t := links[i].utput / links[i].uc;
          if t > maxgamma { bneck, maxgamma := i, t; }
        }
        i := i + 1;
      }
    }

    method ClearLinks()
      requires Valid()
      modifies links
      ensures Valid()
      ensures forall l :: 0 <= l < links.Length ==>
        links[l] == old(links[l]).(uc := old(links[l].mu) * 1.05, utput := 0.0)
    {
      var i := 0;
      while i < links.Length
        invariant i <= links.Length && Valid()
        invariant forall l :: 0 <= l < links.Length ==>
          links[l] == if l < i then old(links[l]).(uc := old(links[l].mu) * 1.05, utput := 0.0) else old(links[l])
      {
        links[i] := links[i].(uc := links[i].mu * 1.05, utput := 0.0);
        i := i + 1;
      }
    }

    /** Short flows take their share of the capacity, bulk flows add to the throughput. */
    method CountUp(ghost x: seq<real>, ghost y: seq<real>)
      requires Valid() && |x| == |y| == |adj|
      requires forall f :: 0 <= f < |adj| ==>
        if flows[f].isShort then x[f] == flows[f].tput && y[f] == 0.0 else x[f] == 0.0 && y[f] == flows[f].tput
      modifies links, flows
      ensures Valid()
      ensures forall f :: 0 <= f < flows.Length ==> flows[f] == old(flows[f]).(scaled := old(flows[f].isShort))
      ensures forall l :: 0 <= l < links.Length ==>
        links[l] == old(links[l]).(uc := old(links[l].uc) - Load(adj, x, l),
          utput := old(links[l].utput) + Load(adj, y, l))
    {
      hide Times;
      var i := 0;
      while i < flows.Length
        invariant i <= flows.Length && Valid()
        invariant forall f :: 0 <= f < flows.Length ==>
          flows[f] == if f < i then old(flows[f]).(scaled := old(flows[f].isShort)) else old(flows[f])
        invariant forall l :: 0 <= l < links.Length ==>
          links[l] == old(links[l]).(uc := old(links[l].uc) - Load(adj, x[..i], l),
                                     utput := old(links[l].utput) + Load(adj, y[..i], l))
      {
        flows[i] := flows[i].(scaled := flows[i].isShort);
        assert x[..i + 1][..i] == x[..i] && y[..i + 1][..i] == y[..i];
        forall l | 0 <= l < links.Length
          ensures Times(Count(adj[i], l), 0.0) == 0.0
        {
          TimesFacts(Count(adj[i], l), 0.0, 0.0);
        }
        if flows[i].isShort { Spread(i, flows[i].tput, 0.0); } else { Spread(i, 0.0, flows[i].tput); }
        i := i + 1;
      }
      assert x[..i] == x && y[..i] == y;
    }

    /** The first part of newupdate: nothing is scaled yet, except that short flows are left alone. */
    method Begin() returns (ghost cap: seq<real>)
      requires Valid()
      requires forall f :: 0 <= f < |adj| && !flows[f].isShort ==> flows[f].tput >= 0.0
      modifies links, flows
      ensures Valid() && Bulk() == old(Bulk()) && Rates(false) == old(Rates(false)) && Rates(true) == old(Rates(true))
      ensures |cap| == links.Length && forall l :: 0 <= l < |cap| ==> cap[l] == old(Spare(l)) == Spare(l)
      ensures Books(Rates(false), cap, seq(|adj|, _ => 0.0), Rates(false))
      ensures Sources() == old(Sources())
      ensures forall l :: 0 <= l < links.Length ==>
        links[l] == old(links[l]).(uc := links[l].uc, utput := links[l].utput)
    {
      hide Times, Load;
      cap := seq(links.Length, l requires 0 <= l < links.Length reads this, links, flows => Spare(l));
      ghost var x, y := Rates(true), Rates(false);
      ClearLinks();
      CountUp(x, y);
      assert Rates(true) == x && Rates(false) == y && Bulk() == old(Bulk());
      ghost var zero := seq(|adj|, _ => 0.0);
      forall l | 0 <= l < links.Length ensures Load(adj, zero, l) == 0.0 { LoadZero(adj, zero, l); }
    }

    lemma BooksOf(w: seq<real>, cap: seq<real>, r: seq<real>, p: seq<real>, f: nat)
      requires |w| == |adj| == |r| == |p| == flows.Length && |cap| == links.Length && Books(w, cap, r, p)
      requires f < |adj|
      ensures if !flows[f].isShort && !flows[f].scaled then r[f] == 0.0 && p[f] == w[f] >= 0.0 else p[f] == 0.0
    {
    }

    /** Once no flow on link b is waiting, its unscaled throughput is zero. */
    lemma Drained(b: nat, w: seq<real>, cap: seq<real>, r: seq<real>, p: seq<real>)
      requires |w| == |adj| == |r| == |p| == flows.Length && |cap| == links.Length && Books(w, cap, r, p)
      requires b < links.Length && forall f :: 0 <= f < |adj| && Crosses(adj, f, b) ==> p[f] <= 0.0
      ensures links[b].utput == 0.0
    {
      LoadZero(adj, p, b);
    }

    twostate lemma SameSlack(gamma: real)
      requires links[..] == old(links[..])
      ensures forall l :: 0 <= l < links.Length ==> Slack(l, gamma) == old(Slack(l, gamma))
    {
      assert forall l :: 0 <= l < links.Length ==> links[l] == links[..][l] == old(links[l]);
    }

    /** Scale one flow down by maxgamma, once and for all. */
    method ScaleFlow(f: nat, maxgamma: real, ghost w: seq<real>, ghost cap: seq<real>, ghost r: seq<real>,
                     ghost p: seq<real>)
      returns (ghost r': seq<real>, ghost p': seq<real>)
      requires Valid() && |w| == |adj| == |r| == |p| && |cap| == links.Length && Books(w, cap, r, p)
      requires f < |adj| && !flows[f].isShort && !flows[f].scaled && maxgamma > 0.0
      modifies links, flows
      ensures Valid() && Bulk() == old(Bulk()) && Rates(true) == old(Rates(true))
      ensures |r'| == |p'| == |adj| && Books(w, cap, r', p')
      ensures r' == r[f := w[f] / maxgamma] && p' == p[f := 0.0]
      ensures Sources() == old(Sources())
      ensures forall l :: 0 <= l < links.Length ==>
        && links[l] == old(links[l]).(uc := links[l].uc, utput := links[l].utput)
        && Slack(l, maxgamma) == old(Slack(l, maxgamma))
        && links[l].uc <= old(links[l].uc)
    {
      hide Times, Load;
      var v := flows[f].tput / maxgamma;
      flows[f] := flows[f].(tput := v, scaled := true);
      r', p' := r[f := v], p[f := 0.0];
      assert v * maxgamma == p[f] && v >= 0.0 && (p[f] > 0.0 <==> v > 0.0);
      Spread(f, v, -(v * maxgamma));
      forall l | 0 <= l < links.Length
        ensures links[l].uc == cap[l] - Load(adj, r', l) && links[l].utput == Load(adj, p', l)
        ensures Slack(l, maxgamma) == old(Slack(l, maxgamma))
        ensures links[l].uc <= old(links[l].uc)
      {
        var c := Count(adj[f], l);
        LoadSet(adj, r, f, v, l);
        LoadSet(adj, p, f, 0.0, l);
        Shift(c, v, maxgamma, old(links[l].uc), old(links[l].utput));
      }
    }

    /** Scale every flow on the bottleneck that is not scaled yet. */
    method Freeze(b: nat, maxgamma: real, ghost w: seq<real>, ghost cap: seq<real>, ghost r: seq<real>,
                  ghost p: seq<real>)
      returns (ghost r': seq<real>, ghost p': seq<real>)
      requires Valid() && |w| == |adj| == |r| == |p| && |cap| == links.Length && Books(w, cap, r, p)
      requires b < links.Length && maxgamma > 0.0 && Slack(b, maxgamma) == 0.0
      modifies links, flows
      ensures Valid() && Bulk() == old(Bulk()) && Rates(true) == old(Rates(true))
      ensures |r'| == |p'| == |adj| && Books(w, cap, r', p') && links[b].uc == 0.0
      ensures forall f :: 0 <= f < |adj| ==>
        if Crosses(adj, f, b) && p[f] > 0.0 then r'[f] == w[f] / maxgamma && p'[f] == 0.0
        else r'[f] == r[f] && p'[f] == p[f]
      ensures Sources() == old(Sources())
      ensures forall l :: 0 <= l < links.Length ==>
        && links[l] == old(links[l]).(uc := links[l].uc, utput := links[l].utput)
        && Slack(l, maxgamma) == old(Slack(l, maxgamma))
        && links[l].uc <= old(links[l].uc)
    {
      hide Times, Load, BooksIn, Rates, Bulk, Slack, Sources, FlowsThrough, Count, Crosses;
      r', p' := r, p;
      ghost var through := links[b].theflows;
      var i := 0;
      while i < |links[b].theflows|
        invariant Valid() && Bulk() == old(Bulk()) && Rates(true) == old(Rates(true))
        invariant i <= |through| && through == links[b].theflows
        invariant |r'| == |p'| == |adj| && Books(w, cap, r', p')
        invariant forall f :: 0 <= f < |adj| ==>
          if f in through[..i] && p[f] > 0.0 then r'[f] == w[f] / maxgamma && p'[f] == 0.0
          else r'[f] == r[f] && p'[f] == p[f]
        invariant Sources() == old(Sources())
        invariant forall l :: 0 <= l < links.Length ==>
          && links[l] == old(links[l]).(uc := links[l].uc, utput := links[l].utput)
          && Slack(l, maxgamma) == old(Slack(l, maxgamma))
          && links[l].uc <= old(links[l].uc)
      {
        var t := links[b].theflows[i];
        FlowsThroughIs(adj, b, t);
        BooksOf(w, cap, r', p', t);
        if !flows[t].isShort && !flows[t].scaled {
          assert w[t] == 0.0 ==> w[t] / maxgamma == 0.0;
          r', p' := ScaleFlow(t, maxgamma, w, cap, r', p');
        }
        i := i + 1;
      }
      forall f | 0 <= f < |adj| ensures f in through[..i] <==> Crosses(adj, f, b) { FlowsThroughIs(adj, b, f); }
      Drained(b, w, cap, r', p');
      NoSlack(b, maxgamma);
      label Done:
      links[b] := links[b].(uc := 0.0);
      assert links[..] == old@Done(links[..]) && flows[..] == old@Done(flows[..]);
      SameSlack@Done(maxgamma);
    }

    /** Progressive filling: freeze the flows of the most congested link until no link is congested. */
    method Fill(ghost w: seq<real>, ghost cap: seq<real>)
      returns (ghost r: seq<real>, ghost p: seq<real>, ghost last: real, ghost rounds: seq<(nat, real)>)
      requires Valid() && |w| == |adj| && |cap| == links.Length
      requires Books(w, cap, seq(|adj|, _ => 0.0), w) && w == Rates(false)
      modifies links, flows
      ensures Valid() && Bulk() == old(Bulk()) && Rates(true) == old(Rates(true))
      ensures |r| == |p| == |adj| && Books(w, cap, r, p) && F.Filled(adj, Bulk(), w, cap, r, p, last)
      ensures forall l :: 0 <= l < links.Length && links[l].uc != 0.0 ==> links[l].utput / links[l].uc <= 0.0
      ensures forall l :: 0 <= l < links.Length ==>
        links[l] == old(links[l]).(uc := links[l].uc, utput := links[l].utput)
      ensures Sources() == old(Sources())
      ensures forall i, j :: 0 <= i < j < |rounds| ==> rounds[i].0 != rounds[j].0 && rounds[i].1 >= rounds[j].1 > 0.0
    {
      hide F.Filled, Load, F.Worst, F.Scaled, Books, F.Left, Rates, Bulk, Slack, F.Pending, Crosses, F.Over, Sources;
      r, p, last, rounds := seq(|adj|, _ => 0.0), w, 0.0, [];
      StartFilling(w, cap);
      ghost var bulk := Bulk();
      var bneck, maxgamma := FindBottleneck();
      while bneck + 1 != 0
        invariant Valid() && Bulk() == bulk && Rates(true) == old(Rates(true))
        invariant |r| == |p| == |adj| && Books(w, cap, r, p) && F.Filled(adj, bulk, w, cap, r, p, last)
        invariant -1 <= bneck < links.Length && maxgamma >= 0.0 && (bneck == -1 ==> maxgamma == 0.0)
        invariant bneck >= 0 ==> links[bneck].uc != 0.0 && maxgamma == links[bneck].utput / links[bneck].uc > 0.0
        invariant forall l :: 0 <= l < links.Length && links[l].uc != 0.0 ==> links[l].utput / links[l].uc <= maxgamma
        invariant forall l :: 0 <= l < links.Length ==>
          links[l] == old(links[l]).(uc := links[l].uc, utput := links[l].utput)
        invariant Sources() == old(Sources())
        invariant forall i :: 0 <= i < |rounds| ==>
          && 0 <= rounds[i].0 < links.Length && cap[rounds[i].0] > 0.0
          && links[rounds[i].0].uc == 0.0 && rounds[i].1 >= last > 0.0
        invariant forall i, j :: 0 <= i < j < |rounds| ==>
          rounds[i].0 != rounds[j].0 && rounds[i].1 >= rounds[j].1 > 0.0
        decreases F.Pending(p)
      {
        ghost var r0, p0 := r, p;
        BottleneckIsWorst(w, cap, r, p, bneck, maxgamma);
        F.WorstIsBetter(adj, bulk, w, cap, r, p, last, bneck, maxgamma);
        LinkIs(w, cap, r, p, bneck);
        BottleneckSlack(bneck, maxgamma);
        ghost var ls, fs := links[..], flows[..];
        BooksAre(w, cap, r, p);
        SlackIs(maxgamma);
        r, p := Freeze(bneck, maxgamma, w, cap, r, p);
        RoundKeeps(ls, fs, w, cap, bulk, r0, p0, last, r, p, bneck, maxgamma);
        rounds := rounds + [(bneck, maxgamma)];
        last := maxgamma;
        bneck, maxgamma := FindBottleneck();
      }
    }

    lemma BottleneckSlack(b: nat, gamma: real)
      requires b < links.Length && links[b].uc != 0.0 && gamma == links[b].utput / links[b].uc
      ensures Slack(b, gamma) == 0.0
    {
    }

    lemma StartFilling(w: seq<real>, cap: seq<real>)
      requires Valid() && |w| == |adj| && |cap| == links.Length
      requires Books(w, cap, seq(|adj|, _ => 0.0), w) && w == Rates(false)
      ensures F.Filled(adj, Bulk(), w, cap, seq(|adj|, _ => 0.0), w, 0.0)
    {
      var zero := seq(|adj|, _ => 0.0);
      forall l | 0 <= l < |cap| ensures Load(adj, zero, l) == 0.0 { LoadZero(adj, zero, l); }
    }

    lemma LinkIs(w: seq<real>, cap: seq<real>, r: seq<real>, p: seq<real>, l: nat)
      requires |w| == |adj| == |r| == |p| == flows.Length && |cap| == links.Length && Books(w, cap, r, p)
        && l < links.Length
      ensures links[l].uc == F.Left(adj, cap, r, l) && links[l].utput == Load(adj, p, l)
    {
      LinkIn(adj, links[..], flows[..], w, cap, r, p, l);
    }

    lemma BottleneckIsWorst(w: seq<real>, cap: seq<real>, r: seq<real>, p: seq<real>, b: nat, gamma: real)
      requires |w| == |adj| == |r| == |p| == flows.Length && |cap| == links.Length && Books(w, cap, r, p)
        && b < links.Length
      requires links[b].uc != 0.0 && gamma == links[b].utput / links[b].uc > 0.0
      requires forall l :: 0 <= l < links.Length && links[l].uc != 0.0 ==> links[l].utput / links[l].uc <= gamma
      ensures F.Worst(adj, cap, r, p, b, gamma)
    {
      hide Load, F.Left, Books;
      forall l | 0 <= l < links.Length
        ensures links[l].uc == F.Left(adj, cap, r, l) && links[l].utput == Load(adj, p, l)
      {
        LinkIs(w, cap, r, p, l);
      }
    }

    /** What Freeze has done to books that stood in ls and fs is a round of progressive filling. */
    lemma FrozenIsScaled(ls: seq<Link>, fs: seq<Flow>, w: seq<real>, cap: seq<real>, r: seq<real>, p: seq<real>,
                         r': seq<real>, p': seq<real>, b: nat, gamma: real)
      requires |w| == |adj| == |r| == |p| == |r'| == |p'| == flows.Length == |fs| && |cap| == links.Length == |ls|
        && b < |ls|
      requires BooksIn(adj, ls, fs, w, cap, r, p) && Books(w, cap, r', p') && gamma > 0.0 && links[b].uc == 0.0
      requires forall f :: 0 <= f < |adj| ==>
        if Crosses(adj, f, b) && p[f] > 0.0 then r'[f] == w[f] / gamma && p'[f] == 0.0
        else r'[f] == r[f] && p'[f] == p[f]
      requires forall l :: 0 <= l < links.Length ==>
        Slack(l, gamma) == F.Over(gamma, ls[l].uc, ls[l].utput) && links[l].uc <= ls[l].uc
      ensures F.Scaled(adj, w, r, p, b, gamma, r', p') && F.Left(adj, cap, r', b) == 0.0
      ensures forall l :: 0 <= l < |cap| ==>
        && F.Over(gamma, F.Left(adj, cap, r', l), Load(adj, p', l)) ==
           F.Over(gamma, F.Left(adj, cap, r, l), Load(adj, p, l))
        && F.Left(adj, cap, r', l) <= F.Left(adj, cap, r, l)
    {
      hide Load, F.Left, BooksIn, Books, F.Over;
      LinkIs(w, cap, r', p', b);
      forall l | 0 <= l < links.Length
        ensures links[l].uc == F.Left(adj, cap, r', l) && links[l].utput == Load(adj, p', l)
        ensures ls[l].uc == F.Left(adj, cap, r, l) && ls[l].utput == Load(adj, p, l)
      {
        LinkIs(w, cap, r', p', l);
        LinkIn(adj, ls, fs, w, cap, r, p, l);
      }
    }

    /** One round of the loop, from books in ls and fs to the present ones. */
    lemma RoundKeeps(ls: seq<Link>, fs: seq<Flow>, w: seq<real>, cap: seq<real>, bulk: seq<bool>, r: seq<real>,
                     p: seq<real>, last: real, r': seq<real>, p': seq<real>, b: nat, gamma: real)
      requires |w| == |adj| == |r| == |p| == |r'| == |p'| == flows.Length == |fs| && |cap| == links.Length == |ls|
        && b < |ls|
      requires BooksIn(adj, ls, fs, w, cap, r, p) && Books(w, cap, r', p') && gamma > 0.0 && links[b].uc == 0.0
      requires forall f :: 0 <= f < |adj| ==>
        if Crosses(adj, f, b) && p[f] > 0.0 then r'[f] == w[f] / gamma && p'[f] == 0.0
        else r'[f] == r[f] && p'[f] == p[f]
      requires forall l :: 0 <= l < links.Length ==>
        Slack(l, gamma) == F.Over(gamma, ls[l].uc, ls[l].utput) && links[l].uc <= ls[l].uc
      requires F.Filled(adj, bulk, w, cap, r, p, last) && F.Worst(adj, cap, r, p, b, gamma)
      ensures F.Filled(adj, bulk, w, cap, r', p', gamma) && (last > 0.0 ==> gamma <= last)
      ensures F.Pending(p') < F.Pending(p)
      ensures forall l :: 0 <= l < links.Length && cap[l] > 0.0 && ls[l].uc == 0.0 ==> links[l].uc == 0.0
    {
      hide F.Filled, F.Worst, F.Scaled, F.Left, F.Over, F.Pending, BooksIn, Books, Slack, Load, Crosses;
      FrozenIsScaled(ls, fs, w, cap, r, p, r', p', b, gamma);
      F.FillStep(adj, bulk, w, cap, r, p, last, b, gamma, r', p');
      F.PendingShrinks(adj, w, r, p, b, gamma, r', p');
      StillEmpty(ls, w, cap, bulk, r', p', gamma);
    }

    /** A link that was full in ls stays full. */
    lemma StillEmpty(ls: seq<Link>, w: seq<real>, cap: seq<real>, bulk: seq<bool>, r: seq<real>, p: seq<real>,
                     last: real)
      requires |w| == |adj| == |r| == |p| == flows.Length && |cap| == links.Length == |ls| && Books(w, cap, r, p)
      requires F.Filled(adj, bulk, w, cap, r, p, last)
      requires forall l :: 0 <= l < links.Length ==> links[l].uc <= ls[l].uc
      ensures forall l :: 0 <= l < links.Length && cap[l] > 0.0 && ls[l].uc == 0.0 ==> links[l].uc == 0.0
    {
      hide F.Settled, Load;
      forall l | 0 <= l < links.Length && cap[l] > 0.0 && ls[l].uc == 0.0 ensures links[l].uc == 0.0 {
        LinkIs(w, cap, r, p, l);
        assert F.Left(adj, cap, r, l) >= 0.0;
      }
    }

    lemma FillingDone(w: seq<real>, cap: seq<real>, r: seq<real>, p: seq<real>, last: real)
      requires |w| == |adj| == |r| == |p| == flows.Length && |cap| == links.Length && Books(w, cap, r, p)
      requires F.Filled(adj, Bulk(), w, cap, r, p, last)
      requires forall l :: 0 <= l < links.Length && links[l].uc != 0.0 ==> links[l].utput / links[l].uc <= 0.0
      ensures F.WellShared(adj, Bulk(), w, cap, Rates(false))
    {
      hide Load, F.Filled, F.WellShared, F.Left;
      forall l | 0 <= l < links.Length && F.Left(adj, cap, r, l) != 0.0
        ensures Load(adj, p, l) / F.Left(adj, cap, r, l) <= 0.0
      {
        LinkIs(w, cap, r, p, l);
      }
      F.FillDone(adj, Bulk(), w, cap, r, p, last);
      assert F.Outcome(r, p) == Rates(false);
    }

    /** newupdate: share out the capacity, then let the link loads follow. */
    method NewUpdate(niter: int)
      requires Valid()
      requires forall f :: 0 <= f < |adj| && !flows[f].isShort ==> flows[f].tput >= 0.0
      modifies links, flows
      ensures Valid() && Bulk() == old(Bulk()) && Rates(true) == old(Rates(true))
      ensures F.WellShared(adj, old(Bulk()), old(Rates(false)), old(Spares()), Rates(false))
      ensures F.Roomy(adj, old(Bulk()), old(Spares())) ==>
        MaxMinFair(adj, old(Bulk()), old(Rates(false)), old(Spares()), Rates(false))
      ensures forall f :: 0 <= f < |adj| && old(Bulk())[f] && F.Unreached(adj, old(Spares()), f) ==>
        flows[f].tput == old(flows[f].tput)
      ensures Sources() == old(Sources())
      ensures forall l :: 0 <= l < links.Length ==>
        var t := Load(adj, Rates(true), l) + Load(adj, Rates(false), l);
        links[l] == old(links[l]).(uc := links[l].uc, utput := links[l].utput,
          tlambda := t, plambda := old(links[l].lambda),
          lambda := if niter == 0 then t
                    else if t > old(links[l].mu) * 1.1 then (old(links[l].lambda) + old(links[l].mu) * 1.1) / 2.0
                    else (t + old(links[l].lambda)) / 2.0)
      ensures forall l :: 0 <= l < links.Length && old(Spare(l)) > 0.0 && links[l].mu >= 0.0 ==>
        links[l].tlambda <= links[l].mu * 1.1
    {
      hide F.WellShared, F.Filled, Load, Books, MaxMinFair, Feasible;
      ghost var w, bulk, x := Rates(false), Bulk(), Rates(true);
      ghost var cap := Begin();
      assert cap == old(Spares());
      ghost var r, p, last, rounds := Fill(w, cap);
      FillingDone(w, cap, r, p, last);
      F.KeepsWeight(adj, bulk, w, cap, Rates(false));
      if F.Roomy(adj, bulk, cap) { F.SharedIsFair(adj, bulk, w, cap, Rates(false)); }
      label Shared:
      Update(niter);
      assert flows[..] == old@Shared(flows[..]);
      assert Rates(false) == old@Shared(Rates(false)) && Bulk() == old(Bulk()) && Rates(true) == x;
      forall l | 0 <= l < links.Length && old(Spare(l)) > 0.0 && links[l].mu >= 0.0
        ensures links[l].tlambda <= links[l].mu * 1.1
      {
        Fits(w, cap, l, x);
      }
    }

    lemma Fits(w: seq<real>, cap: seq<real>, l: nat, x: seq<real>)
      requires flows.Length == |adj| == |w| == |x| && |cap| == links.Length
        && F.WellShared(adj, Bulk(), w, cap, Rates(false))
      requires l < links.Length && cap[l] > 0.0 && cap[l] == links[l].mu * 1.05 - Load(adj, x, l)
      ensures Load(adj, x, l) + Load(adj, Rates(false), l) <= links[l].mu * 1.05
    {
      hide Load;
    }

    /** UpdateHelper and Update: the offered load of each link, and a damped step towards it. */
    method Update(niter: int)
      requires Valid()
      modifies links
      ensures Valid()
      ensures forall l :: 0 <= l < links.Length ==>
        var t := Load(adj, Rates(true), l) + Load(adj, Rates(false), l);
        links[l] == old(links[l]).(tlambda := t, plambda := old(links[l].lambda),
          lambda := if niter == 0 then t
                    else if t > old(links[l].mu) * 1.1 then (old(links[l].lambda) + old(links[l].mu) * 1.1) / 2.0
                    else (t + old(links[l].lambda)) / 2.0)
    {
      OfferLoads();
      hide Load;
      label Offered:
      var i := 0;
      while i < links.Length
        invariant i <= links.Length && Valid()
        invariant forall l :: i <= l < links.Length ==> links[l] == old@Offered(links[l])
        invariant forall l :: 0 <= l < i ==>
          var e := old@Offered(links[l]);
          links[l] == e.(plambda := e.lambda,
            lambda := if niter == 0 then e.tlambda
                      else if e.tlambda > e.mu * 1.1 then (e.lambda + e.mu * 1.1) / 2.0
                      else (e.tlambda + e.lambda) / 2.0)
      {
        var e := links[i];
        var tk := e.mu * 1.1;
        var t;
        if niter != 0 {
          if e.tlambda > tk { t := (e.lambda + tk) / 2.0; } else { t := (e.tlambda + e.lambda) / 2.0; }
        } else {
          t := e.tlambda;
        }
        links[i] := e.(plambda := e.lambda, lambda := t);
        i := i + 1;
      }
    }

    method OfferLoads()
      requires Valid()
      modifies links
      ensures Valid()
      ensures forall l :: 0 <= l < links.Length ==>
        links[l] == old(links[l]).(tlambda := Load(adj, Rates(true), l) + Load(adj, Rates(false), l))
    {
      hide Times;
      ghost var x, y := Rates(true), Rates(false);
      var i := 0;
      while i < links.Length
        invariant i <= links.Length && Valid()
        invariant forall l :: 0 <= l < links.Length ==>
          links[l] == if l < i then old(links[l]).(tlambda := 0.0) else old(links[l])
      {
        links[i] := links[i].(tlambda := 0.0);
        i := i + 1;
      }
      i := 0;
      while i < flows.Length
        invariant i <= flows.Length && Valid() && Rates(true) == x && Rates(false) == y
        invariant forall l :: 0 <= l < links.Length ==>
          links[l] == old(links[l]).(tlambda := Load(adj, x[..i], l) + Load(adj, y[..i], l))
      {
        assert x[..i + 1][..i] == x[..i] && y[..i + 1][..i] == y[..i];
        forall l | 0 <= l < links.Length
          ensures Times(Count(adj[i], l), flows[i].tput) ==
            Times(Count(adj[i], l), x[i]) + Times(Count(adj[i], l), y[i])
        {
          TimesFacts(Count(adj[i], l), x[i], y[i]);
        }
        Offer(i, flows[i].tput);
        i := i + 1;
      }
      assert x[..i] == x && y[..i] == y;
    }

    method Offer(f: nat, v: real)
      requires Valid() && f < |adj|
      modifies links
      ensures Valid()
      ensures forall l :: 0 <= l < links.Length ==>
        links[l] == old(links[l]).(tlambda := old(links[l].tlambda) + Times(Count(adj[f], l), v))
    {
      hide Times;
      TimesFacts(0, 0.0, v);
      var j := 0;
      while j < |adj[f]|
        invariant j <= |adj[f]|
        invariant forall l :: 0 <= l < links.Length ==>
          links[l] == old(links[l]).(tlambda := old(links[l].tlambda) + Times(Count(adj[f][..j], l), v))
      {
        var h := adj[f][j];
        assert adj[f][..j + 1][..j] == adj[f][..j];
        TimesFacts(Count(adj[f][..j], h), 0.0, v);
        links[h] := links[h].(tlambda := links[h].tlambda + v);
        j := j + 1;
      }
      assert adj[f][..j] == adj[f];
    }
  }
}
