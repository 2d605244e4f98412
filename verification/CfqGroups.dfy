/** Fairness between the groups of the CFQ scheduler: the group that has used least disk time for
its weight is served next, and is charged for it by its weight. */
module CfqGroups {
  import opened Ordered

  /** One unit of time at the default weight of 500, in units of virtual disk time. */
  const SERVICE: int := 4096
  const WEIGHT_DEFAULT: int := 500
  const SCALE: int := SERVICE * WEIGHT_DEFAULT

  /** cfq_scale_slice: a charge in virtual disk time. */
  function Scaled(charge: int, weight: int): int
    requires weight > 0
  {
    charge * SCALE / weight
  }

  // --- runs over a fixed set of groups ---

  /** A group is served and charged. */
  datatype Turn = Turn(group: nat, charge: nat)

  ghost function After(v: seq<int>, weights: seq<int>, t: Turn): seq<int>
    requires t.group < |v| == |weights| && weights[t.group] > 0
  {
    v[t.group := v[t.group] + Scaled(t.charge, weights[t.group])]
  }

  /** The virtual disk times are at most so far apart. */
  ghost predicate Spread(v: seq<int>, d: int) {
    forall i, j :: 0 <= i < |v| && 0 <= j < |v| ==> v[i] - v[j] <= d
  }

  ghost predicate Least(v: seq<int>, g: nat) {
    g < |v| && forall i :: 0 <= i < |v| ==> v[g] <= v[i]
  }

  ghost predicate Weights(weights: seq<int>) {
    forall i :: 0 <= i < |weights| ==> weights[i] > 0
  }

  /** A run: the group with the least time is served at each turn, and no scaled charge exceeds most. */
  ghost predicate Run(vs: seq<seq<int>>, weights: seq<int>, turns: seq<Turn>, most: int) {
    && |vs| == |turns| + 1 && Weights(weights) && (forall k :: 0 <= k < |vs| ==> |vs[k]| == |weights|)
    && forall k :: 0 <= k < |turns| ==> Served(vs[k], weights, turns[k], most, vs[k + 1])
  }

  ghost predicate Served(v: seq<int>, weights: seq<int>, t: Turn, most: int, v': seq<int>) {
    && |v| == |weights| && Weights(weights) && Least(v, t.group)
    && Scaled(t.charge, weights[t.group]) <= most && v' == After(v, weights, t)
  }

  lemma ServedWithin(v: seq<int>, weights: seq<int>, t: Turn, charge: int, most: int, v': seq<int>)
    requires Served(v, weights, t, charge, v') && charge <= most
    ensures Served(v, weights, t, most, v')
  {
  }

  lemma ScaledNotNegative(charge: nat, weight: int)
    requires weight > 0
    ensures Scaled(charge, weight) >= 0
  {
    assert charge * SCALE >= 0;
  }

  /** Serving the least group spreads the times by no more than its charge. */
  lemma ServedSpread(v: seq<int>, weights: seq<int>, t: Turn, most: int, v': seq<int>, d: int)
    requires Served(v, weights, t, most, v') && Spread(v, d) && most <= d
    ensures Spread(v', d)
  {
    ScaledNotNegative(t.charge, weights[t.group]);
  }

  /** The spread never exceeds the first one or the largest scaled charge. */
  lemma {:induction false} RunSpread(vs: seq<seq<int>>, weights: seq<int>, turns: seq<Turn>, most: int, d: int)
    requires Run(vs, weights, turns, most) && Spread(vs[0], d) && most <= d
    ensures Spread(vs[|turns|], d)
    decreases |turns|
  {
    if turns != [] {
      var k := |turns| - 1;
      RunSpread(vs[..k + 1], weights, turns[..k], most, d);
      assert Served(vs[k], weights, turns[k], most, vs[k + 1]);
      ServedSpread(vs[k], weights, turns[k], most, vs[k + 1], d);
    }
  }

  lemma RunNone(v: seq<int>, weights: seq<int>, most: int)
    requires Weights(weights) && |v| == |weights|
    ensures Run([v], weights, [], most)
  {
  }

  lemma RunOn(vs: seq<seq<int>>, weights: seq<int>, turns: seq<Turn>, most: int, t: Turn, v: seq<int>)
    requires Run(vs, weights, turns, most) && Served(vs[|turns|], weights, t, most, v)
    ensures Run(vs + [v], weights, turns + [t], most)
  {
    hide Served, Weights;
    ServedSize(vs[|turns|], weights, t, most, v);
  }

  lemma ServedSize(v: seq<int>, weights: seq<int>, t: Turn, most: int, v': seq<int>)
    requires Served(v, weights, t, most, v')
    ensures |v'| == |weights|
  {
  }

  // --- service ---

  /** What a group was charged in all, and how often. */
  ghost function Service(turns: seq<Turn>, g: nat): nat {
    if turns == [] then 0
    else Service(turns[..|turns| - 1], g) + if turns[|turns| - 1].group == g then turns[|turns| - 1].charge else 0
  }

  ghost function Visits(turns: seq<Turn>, g: nat): nat {
    if turns == [] then 0
    else Visits(turns[..|turns| - 1], g) + if turns[|turns| - 1].group == g then 1 else 0
  }

  /** The time of a group grows by its service over its weight, less what each division drops. */
  lemma {:induction false} ServiceTime(vs: seq<seq<int>>, weights: seq<int>, turns: seq<Turn>, most: int, g: nat)
    requires Run(vs, weights, turns, most) && g < |weights|
    ensures var used := (vs[|turns|][g] - vs[0][g]) * weights[g];
            used <= SCALE * Service(turns, g) <= used + Visits(turns, g) * weights[g]
    decreases |turns|
  {
    hide Scaled, Least;
    if turns != [] {
      var k := |turns| - 1;
      var t, w := turns[k], weights[g];
      ServiceTime(vs[..k + 1], weights, turns[..k], most, g);
      assert Served(vs[k], weights, t, most, vs[k + 1]);
      if t.group == g {
        TurnTime(vs[k][g] - vs[0][g], Service(turns[..k], g), Visits(turns[..k], g), t.charge, w);
      }
    }
  }

  lemma TurnTime(x: int, service: int, visits: int, charge: int, w: int)
    requires w > 0 && x * w <= SCALE * service <= x * w + visits * w
    ensures var x' := x + Scaled(charge, w); x' * w <= SCALE * (service + charge) <= x' * w + (visits + 1) * w
  {
    var s := Scaled(charge, w);
    assert charge * SCALE == s * w + charge * SCALE % w;
    assert (x + s) * w == x * w + s * w;
    assert (visits + 1) * w == visits * w + w;
  }

  ghost predicate Fair(weights: seq<int>, turns: seq<Turn>, d: int, a: nat, b: nat)
    requires a < |weights| && b < |weights|
  {
    SCALE * (Service(turns, a) * weights[b] - Service(turns, b) * weights[a])
    <= (2 * d + Visits(turns, a)) * (weights[a] * weights[b])
  }

  /** Weighted service of two groups: the first is ahead of the second by no more than the spreads and one
      unit for each of its turns. */
  lemma PairwiseFair(vs: seq<seq<int>>, weights: seq<int>, turns: seq<Turn>, most: int, d: int, a: nat, b: nat)
    requires Run(vs, weights, turns, most) && Spread(vs[0], d) && most <= d && a < |weights| && b < |weights|
    ensures Fair(weights, turns, d, a, b)
  {
    RunSpread(vs, weights, turns, most, d);
    ServiceTime(vs, weights, turns, most, a);
    ServiceTime(vs, weights, turns, most, b);
    var n := |turns|;
    var x, y := vs[n][a] - vs[0][a], vs[n][b] - vs[0][b];
    assert x - y <= 2 * d;
    Combine(Service(turns, a), Service(turns, b), x, y, Visits(turns, a), weights[a], weights[b], d);
  }

  lemma Combine(sa: int, sb: int, x: int, y: int, n: int, wa: int, wb: int, d: int)
    requires wa > 0 && wb > 0 && x - y <= 2 * d
    requires SCALE * sa <= x * wa + n * wa && y * wb <= SCALE * sb
    ensures SCALE * (sa * wb - sb * wa) <= (2 * d + n) * (wa * wb)
  {
    var p, q, m := SCALE * sa, SCALE * sb, wa * wb;
    Scale(p, x * wa + n * wa, wb);
    Scale(y * wb, q, wa);
    Scale(x - y, 2 * d, m);
    assert (x * wa + n * wa) * wb == x * m + n * m;
    assert y * wb * wa == y * m;
    assert p * wb == SCALE * (sa * wb) && q * wa == SCALE * (sb * wa);
    assert (x - y) * m == x * m - y * m;
    assert (2 * d + n) * m == 2 * d * m + n * m;
    assert SCALE * (sa * wb - sb * wa) == SCALE * (sa * wb) - SCALE * (sb * wa);
  }

  lemma Scale(a: int, b: int, k: int)
    requires a <= b && k >= 0
    ensures a * k <= b * k
  {
    assert (b - a) * k >= 0;
  }

  // --- the service tree of groups ---

  class CfqGroup {
    var vdisktime: int
    const weight: int

    constructor (weight: int)
      requires weight > 0
      ensures this.weight == weight && vdisktime == 0
    {
      this.weight, vdisktime := weight, 0;
    }
  }

  ghost function Times(groups: seq<CfqGroup>): (v: seq<int>)
    reads groups
    ensures |v| == |groups| && forall i :: 0 <= i < |groups| ==> v[i] == groups[i].vdisktime
  {
    if groups == [] then [] else Times(groups[..|groups| - 1]) + [groups[|groups| - 1].vdisktime]
  }

  ghost function WeightsOf(groups: seq<CfqGroup>): (w: seq<int>)
    ensures |w| == |groups| && forall i :: 0 <= i < |groups| ==> w[i] == groups[i].weight
  {
    if groups == [] then [] else WeightsOf(groups[..|groups| - 1]) + [groups[|groups| - 1].weight]
  }

  ghost function Sum(s: seq<int>): int {
    if s == [] then 0 else Sum(s[..|s| - 1]) + s[|s| - 1]
  }

  lemma {:induction false} SumAdds(a: seq<int>, b: seq<int>)
    ensures Sum(a + b) == Sum(a) + Sum(b)
    decreases |b|
  {
    if b == [] {
      assert a + b == a;
    } else {
      SumAdds(a, b[..|b| - 1]);
      assert (a + b)[..|a + b| - 1] == a + b[..|b| - 1];
    }
  }

  /** The weights of groups put together add up. */
  lemma WeightsAdd(a: seq<CfqGroup>, g: CfqGroup, b: seq<CfqGroup>, whole: seq<CfqGroup>, rest: seq<CfqGroup>)
    requires whole == a + [g] + b && rest == a + b
    ensures Sum(WeightsOf(whole)) == Sum(WeightsOf(rest)) + g.weight
  {
    hide WeightsOf, Sum;
    var x, y := WeightsOf(a), WeightsOf(b);
    assert WeightsOf(whole) == x + [g.weight] + y;
    assert WeightsOf(rest) == x + y;
    SumAdds(x + [g.weight], y);
    SumAdds(x, [g.weight]);
    SumAdds(x, y);
    SumOne(g.weight);
  }

  lemma SumOne(x: int)
    ensures Sum([x]) == x
  {
    assert [x][..0] == [];
  }

  lemma TimesWith(order: seq<CfqGroup>, g: CfqGroup, k: nat)
    requires k <= |order|
    ensures Times(order[..k] + [g] + order[k..]) == Times(order)[..k] + [g.vdisktime] + Times(order)[k..]
  {
    hide Times;
    var o, keys := order[..k] + [g] + order[k..], Times(order);
    var r := keys[..k] + [g.vdisktime] + keys[k..];
    forall i | 0 <= i < |o| ensures Times(o)[i] == r[i] {
      PutAt(order, g, k, i);
      PutAt(keys, g.vdisktime, k, i);
    }
  }

  lemma TimesWithout(order: seq<CfqGroup>, k: nat)
    requires k < |order|
    ensures Times(order[..k] + order[k + 1..]) == Times(order)[..k] + Times(order)[k + 1..]
  {
    hide Times;
    var o := order[..k] + order[k + 1..];
    forall i | 0 <= i < |o| ensures Times(o)[i] == (Times(order)[..k] + Times(order)[k + 1..])[i] {
      assert o[i] == if i < k then order[i] else order[i + 1];
    }
  }

  lemma WeightsWith(order: seq<CfqGroup>, g: CfqGroup, k: nat)
    requires k <= |order| && Weights(WeightsOf(order)) && g.weight > 0
    ensures Weights(WeightsOf(order[..k] + [g] + order[k..]))
  {
    hide WeightsOf;
    var o := order[..k] + [g] + order[k..];
    forall i | 0 <= i < |o| ensures WeightsOf(o)[i] > 0 {
      PutAt(order, g, k, i);
      assert i < k ==> WeightsOf(order)[i] > 0;
      assert i > k ==> WeightsOf(order)[i - 1] > 0;
    }
  }

  lemma SameMembers(a: seq<CfqGroup>, b: seq<CfqGroup>)
    requires multiset(a) == multiset(b)
    ensures |a| == |b| && forall x :: x in a ==> x in b
  {
    assert |multiset(a)| == |a| && |multiset(b)| == |b|;
    forall x | x in a ensures x in b {
      assert x in multiset(a);
    }
  }

  class GroupTree {
    var order: seq<CfqGroup>
    var left: CfqGroup?
    var totalWeight: int
    var minVdisktime: int

    constructor ()
      ensures Valid() && order == []
    {
      order, left, totalWeight, minVdisktime := [], null, 0, 0;
    }

    ghost predicate Valid()
      reads this, order
    {
      && Distinct(order) && Ascending(Times(order)) && (left != null ==> order != [] && left == order[0])
      && totalWeight == Sum(WeightsOf(order)) && Weights(WeightsOf(order))
    }

    /** cfq_group_service_tree_add: behind all groups whose time is not later. */
    method Add(g: CfqGroup) returns (ghost k: nat)
      requires Valid() && g !in order && g.weight > 0
      modifies this`order, this`left, this`totalWeight
      ensures Valid() && totalWeight == old(totalWeight) + g.weight
      ensures k <= |old(order)| && order == old(order)[..k] + [g] + old(order)[k..]
      ensures forall i :: 0 <= i < |old(order)| ==> (i < k <==> old(order)[i].vdisktime <= g.vdisktime)
    {
      hide Times, WeightsOf, Distinct, Sum, Ascending, Weights;
      var at, leftmost := 0, true;
      while at < |order| && !(g.vdisktime < order[at].vdisktime)
        invariant at <= |order| && (leftmost <==> at == 0)
        invariant forall i :: 0 <= i < at ==> order[i].vdisktime <= g.vdisktime
      {
        at, leftmost := at + 1, false;
      }
      k := at;
      Place(g, k);
      if leftmost {
        left := g;
      }
      order := order[..at] + [g] + order[at..];
      totalWeight := totalWeight + g.weight;
    }

    /** Why a group can be put in at position k. */
    lemma Place(g: CfqGroup, k: nat)
      requires Valid() && g !in order && k <= |order| && g.weight > 0
      requires forall i :: 0 <= i < k ==> order[i].vdisktime <= g.vdisktime
      requires k < |order| ==> g.vdisktime < order[k].vdisktime
      ensures var o := order[..k] + [g] + order[k..];
              && Distinct(o) && Ascending(Times(o)) && o[0] == (if k == 0 then g else order[0])
              && Sum(WeightsOf(o)) == Sum(WeightsOf(order)) + g.weight && Weights(WeightsOf(o))
      ensures forall i :: 0 <= i < |order| ==> (i < k <==> order[i].vdisktime <= g.vdisktime)
    {
      hide Times, WeightsOf, Sum, Distinct, Ascending, Weights;
      TimesWith(order, g, k);
      DistinctWith(order, g, k);
      AscendingWith(Times(order), k, g.vdisktime);
      WeightsAdd(order[..k], g, order[k..], order[..k] + [g] + order[k..], order);
      WeightsWith(order, g, k);
      if k < |order| {
        AscendingFrom(Times(order), k);
      }
    }

    /** cfq_group_service_tree_del. */
    method Delete(g: CfqGroup, ghost k: nat)
      requires Valid() && k < |order| && order[k] == g
      modifies this`order, this`left, this`totalWeight
      ensures Valid() && order == old(order)[..k] + old(order)[k + 1..] && totalWeight == old(totalWeight) - g.weight
    {
      hide Times, WeightsOf, Sum, Ascending;
      TimesWithout(order, k);
      DistinctWithout(order, k);
      AscendingWithout(Times(order), k);
      WeightsAdd(order[..k], g, order[k + 1..], order, order[..k] + order[k + 1..]);
      totalWeight := totalWeight - g.weight;
      if left == g {
        left := null;
      }
      order := Without(order, g, k);
    }

    /** cfq_get_next_cfqg: the group with the least time; the smallest time seen only grows. */
    method Choose() returns (g: CfqGroup?)
      requires Valid()
      modifies this`left, this`minVdisktime
      ensures Valid() && minVdisktime == if g != null && g.vdisktime > old(minVdisktime) then g.vdisktime else old(minVdisktime)
      ensures g == (if order == [] then null else order[0]) && (g != null ==> forall h :: h in order ==> g.vdisktime <= h.vdisktime)
    {
      hide Times, WeightsOf, Sum, Ascending, Distinct, Weights;
      if order == [] {
        return null;
      }
      FirstIsLeast();
      if left == null {
        left := order[0];
      }
      g := left;
      if g.vdisktime > minVdisktime {
        minVdisktime := g.vdisktime;
      }
    }

    lemma FirstIsLeast()
      requires Valid() && order != []
      ensures forall h :: h in order ==> order[0].vdisktime <= h.vdisktime
    {
      hide Times, WeightsOf, Sum, Distinct;
      forall h | h in order ensures order[0].vdisktime <= h.vdisktime {
        var i :| 0 <= i < |order| && order[i] == h;
        assert Times(order)[0] <= Times(order)[i];
      }
    }

    /** cfq_group_served: takes the group off the tree, charges it by its weight, and puts it back. */
    method Charge(g: CfqGroup, charge: nat, ghost k: nat)
      requires Valid() && k < |order| && order[k] == g
      modifies this`order, this`left, this`totalWeight, g`vdisktime
      ensures Valid() && g.vdisktime == old(g.vdisktime) + Scaled(charge, g.weight)
      ensures totalWeight == old(totalWeight) && multiset(order) == multiset(old(order))
    {
      hide Times, WeightsOf, Sum, Ascending, Distinct, Weights;
      OnTree(k);
      ghost var o := order;
      Delete(g, k);
      g.vdisktime := g.vdisktime + Scaled(charge, g.weight);
      ghost var j := Add(g);
      ghost var w := o[..k] + o[k + 1..];
      MovedElements(o, w, k, j);
    }

    lemma OnTree(k: nat)
      requires Valid() && k < |order|
      ensures order[k].weight > 0 && order[k] !in order[..k] + order[k + 1..]
    {
      assert WeightsOf(order)[k] > 0;
    }

    /** One turn over a fixed set of groups: choosing and charging a group is a turn of a run. */
    method ServeNext(charge: nat, ghost groups: seq<CfqGroup>) returns (g: CfqGroup, ghost i: nat)
      requires Valid() && order != [] && Distinct(groups) && multiset(groups) == multiset(order)
      modifies this, groups`vdisktime
      ensures Valid() && multiset(groups) == multiset(order) && i < |groups| && groups[i] == g && g.weight > 0
      ensures Served(old(Times(groups)), WeightsOf(groups), Turn(i, charge), Scaled(charge, g.weight), Times(groups))
    {
      hide Times, WeightsOf, Sum, Ascending, Scaled;
      Members(groups);
      g := Choose();
      assert g in multiset(order);
      i :| 0 <= i < |groups| && groups[i] == g;
      ghost var v := Times(groups);
      assert Least(v, i) by {
        forall j | 0 <= j < |groups| ensures v[i] <= v[j] {
          assert groups[j] in multiset(groups) && groups[j] in order;
        }
      }
      Charge(g, charge, 0);
      assert Times(groups) == v[i := g.vdisktime];
    }

    /** Serving group after group is a run, so the weighted services of any two groups stay close. */
    method ServeAll(charges: seq<nat>, ghost groups: seq<CfqGroup>, ghost most: int, ghost d: int)
      returns (ghost vs: seq<seq<int>>, ghost turns: seq<Turn>)
      requires Valid() && order != [] && Distinct(groups) && multiset(groups) == multiset(order)
      requires forall k, g :: 0 <= k < |charges| && g in groups && g.weight > 0 ==> Scaled(charges[k], g.weight) <= most
      requires Spread(Times(groups), d) && most <= d
      modifies this, groups`vdisktime
      ensures Valid() && multiset(groups) == multiset(order)
      ensures Run(vs, WeightsOf(groups), turns, most) && vs[0] == old(Times(groups)) && vs[|turns|] == Times(groups)
      ensures |turns| == |charges| && forall k :: 0 <= k < |turns| ==> turns[k].charge == charges[k]
      ensures forall a: nat, b: nat :: a < |groups| && b < |groups| ==> Fair(WeightsOf(groups), turns, d, a, b)
    {
      hide Times, WeightsOf, Sum, Ascending, Scaled, Distinct, Spread, Served, Run, Fair, GroupTree.Valid;
      ghost var weights := WeightsOf(groups);
      vs, turns := [Times(groups)], [];
      Members(groups);
      RunNone(vs[0], weights, most);
      SameMembers(groups, order);
      var n := 0;
      while n < |charges|
        invariant 0 <= n <= |charges| && Valid() && multiset(groups) == multiset(order) && order != []
        invariant |turns| == n && |vs| == n + 1 && Run(vs, weights, turns, most) && vs[0] == old(Times(groups)) && vs[n] == Times(groups)
        invariant forall k :: 0 <= k < n ==> turns[k].charge == charges[k]
      {
        var g;
        ghost var i;
        g, i := ServeNext(charges[n], groups);
        SameMembers(groups, order);
        ServedWithin(vs[n], weights, Turn(i, charges[n]), Scaled(charges[n], g.weight), most, Times(groups));
        RunOn(vs, weights, turns, most, Turn(i, charges[n]), Times(groups));
        vs, turns := vs + [Times(groups)], turns + [Turn(i, charges[n])];
        n := n + 1;
      }
      forall a: nat, b: nat | a < |groups| && b < |groups| ensures Fair(weights, turns, d, a, b) {
        PairwiseFair(vs, weights, turns, most, d, a, b);
      }
    }

    lemma Members(groups: seq<CfqGroup>)
      requires Valid() && multiset(groups) == multiset(order)
      ensures Weights(WeightsOf(groups))
    {
      hide Times, Sum, Ascending, Distinct, WeightsOf;
      forall j | 0 <= j < |groups| ensures groups[j].weight > 0 {
        assert groups[j] in multiset(groups) && groups[j] in order;
        var k :| 0 <= k < |order| && order[k] == groups[j];
        assert WeightsOf(order)[k] > 0;
      }
    }
  }
}
