/** The smooth weighted round-robin balancer of packages/discovery/src/load-balancer.ts.

    The state machine is given twice: as the class the source declares, and as pure functions
    (ScanFrom, PickOnce, Run) on the three fields that decide a pick. The class methods are proved
    equal to the functions, and fairness is proved of the functions. Ids need not be distinct: an id
    listed k times with weight w takes part with effective weight k*w, in the source as here. */
module WeightedRoundRobin {
  import opened Common
  import opened Instances

  type Weights = map<string, int>

  // ---------------------------------------------------------------- lookups with the source's defaults

  function WeightOf(weights: Weights, id: string): int {
    if id in weights then weights[id] else 1
  }

  function CurrentOf(current: Weights, id: string): int {
    if id in current then current[id] else 0
  }

  /** The total weight with which `id` takes part, one share per listing among the first n. */
  function Effective(insts: seq<Instance>, n: nat, weights: Weights, id: string): int
    requires n <= |insts|
  {
    if n == 0 then 0
    else Effective(insts, n - 1, weights, id) + if insts[n - 1].id == id then WeightOf(weights, id) else 0
  }

  function Total(insts: seq<Instance>, n: nat, weights: Weights): int
    requires n <= |insts|
  {
    if n == 0 then 0 else Total(insts, n - 1, weights) + WeightOf(weights, insts[n - 1].id)
  }

  function Ids(insts: seq<Instance>): set<string> {
    set i | 0 <= i < |insts| :: insts[i].id
  }

  // ---------------------------------------------------------------- one pick

  /** What the accumulation loop of a pick has computed so far. */
  datatype Scan = Scan(current: Weights, total: int, maxWeight: int, selected: Option<Instance>)

  function ScanStep(scan: Scan, weights: Weights, inst: Instance): Scan {
    var weight := WeightOf(weights, inst.id);
    var cw := CurrentOf(scan.current, inst.id) + weight;
    var next := scan.(current := scan.current[inst.id := cw], total := scan.total + weight);
    if cw > scan.maxWeight then next.(maxWeight := cw, selected := Some(inst)) else next
  }

  function ScanFrom(insts: seq<Instance>, n: nat, weights: Weights, current: Weights): Scan
    requires n <= |insts|
  {
    if n == 0 then Scan(current, 0, -1, None)
    else ScanStep(ScanFrom(insts, n - 1, weights, current), weights, insts[n - 1])
  }

  function Charge(scan: Scan): Weights {
    match scan.selected
    case None => scan.current
    case Some(inst) => scan.current[inst.id := CurrentOf(scan.current, inst.id) - scan.total]
  }

  function PickOnce(insts: seq<Instance>, weights: Weights, current: Weights): (Weights, Option<Instance>) {
    if insts == [] then (current, None)
    else
      var scan := ScanFrom(insts, |insts|, weights, current);
      (Charge(scan), scan.selected)
  }

  // ---------------------------------------------------------------- the class

  class WeightedRoundRobin {
    const name: string
    var instances: seq<Instance>
    var weights: Weights
    var currentWeights: Weights
    var connectionCounts: map<string, int>

    constructor (name: string)
      ensures this.name == name && instances == [] && weights == map[] && currentWeights == map[]
      ensures connectionCounts == map[]
    {
      this.name := name;
      instances, weights, currentWeights, connectionCounts := [], map[], map[], map[];
    }

    /** Every instance gets the weight it declares and a current weight of 0. */
    method InitializeWeights()
      modifies this`weights, this`currentWeights
      ensures weights == Declare(old(weights), instances, |instances|)
      ensures currentWeights == Zero(old(currentWeights), instances, |instances|)
    {
      for k := 0 to |instances|
        invariant weights == Declare(old(weights), instances, k)
        invariant currentWeights == Zero(old(currentWeights), instances, k)
      {
        weights := weights[instances[k].id := Declared(instances[k])];
        currentWeights := currentWeights[instances[k].id := 0];
      }
    }

    /** Keeps the instances of this service, in order. */
    method UpdateInstances(all: seq<Instance>)
      modifies this
      ensures instances == Named(all, name) && connectionCounts == old(connectionCounts)
      ensures weights == Declare(old(weights), instances, |instances|)
      ensures currentWeights == Zero(old(currentWeights), instances, |instances|)
      ensures Updated(all, name, instances, weights, currentWeights)
    {
      instances := Named(all, name);
      InitializeWeights();
    }

    method Pick() returns (selected: Option<Instance>)
      modifies this
      ensures (currentWeights, selected) == PickOnce(instances, weights, old(currentWeights))
      ensures instances == old(instances) && weights == old(weights)
      ensures connectionCounts ==
              if selected.None? then old(connectionCounts)
              else var id := selected.value.id;
                old(connectionCounts)[id := if id in old(connectionCounts) then old(connectionCounts)[id] + 1 else 1]
    {
      selected := None;
      if |instances| == 0 {
        return;
      }
      var maxWeight := -1;
      var totalWeight := 0;
      for k := 0 to |instances|
        invariant instances == old(instances) && weights == old(weights) && connectionCounts == old(connectionCounts)
        invariant Scan(currentWeights, totalWeight, maxWeight, selected)
          == ScanFrom(instances, k, weights, old(currentWeights))
      {
        var inst := instances[k];
        var weight := WeightOf(weights, inst.id);
        var cw := CurrentOf(currentWeights, inst.id) + weight;
        currentWeights := currentWeights[inst.id := cw];
        totalWeight := totalWeight + weight;
        if cw > maxWeight {
          maxWeight := cw;
          selected := Some(inst);
        }
      }
      if selected.Some? {
        var id := selected.value.id;
        currentWeights := currentWeights[id := CurrentOf(currentWeights, id) - totalWeight];
        connectionCounts := connectionCounts[id := CurrentOf(connectionCounts, id) + 1];
      }
    }
  }

  /** The weights once the first n instances have declared theirs. */
  function Declare(weights: Weights, insts: seq<Instance>, n: nat): Weights
    requires n <= |insts|
  {
    if n == 0 then weights else Declare(weights, insts, n - 1)[insts[n - 1].id := Declared(insts[n - 1])]
  }

  function Zero(current: Weights, insts: seq<Instance>, n: nat): Weights
    requires n <= |insts|
  {
    if n == 0 then current else Zero(current, insts, n - 1)[insts[n - 1].id := 0]
  }

  /** After an update every listed id has a current weight of 0 and carries the weight of its last listing, at i. */
  lemma {:induction false} UpdateDeclares(weights: Weights, current: Weights, insts: seq<Instance>, n: nat, i: nat)
    requires i < n <= |insts| && forall j :: i < j < n ==> insts[j].id != insts[i].id
    ensures var id := insts[i].id;
      && id in Declare(weights, insts, n) && Declare(weights, insts, n)[id] == Declared(insts[i])
      && id in Zero(current, insts, n) && Zero(current, insts, n)[id] == 0
  {
    if i < n - 1 {
      UpdateDeclares(weights, current, insts, n - 1, i);
    }
  }

  /** Ids that an update does not list keep the weights they had. */
  lemma {:induction false} UpdateLeaves(weights: Weights, current: Weights, insts: seq<Instance>, n: nat, id: string)
    requires n <= |insts| && forall j :: 0 <= j < n ==> insts[j].id != id
    ensures WeightOf(Declare(weights, insts, n), id) == WeightOf(weights, id)
    ensures CurrentOf(Zero(current, insts, n), id) == CurrentOf(current, id)
  {
    if n == 0 {
    } else {
      UpdateLeaves(weights, current, insts, n - 1, id);
    }
  }

  /** An update leaves the weights that a full cycle of picks starts from. */
  lemma {:induction false} UpdateFresh(current: Weights, insts: seq<Instance>, n: nat)
    requires n <= |insts|
    ensures Fresh(insts[..n], Zero(current, insts, n))
  {
    if n == 0 {
    } else {
      UpdateFresh(current, insts, n - 1);
      assert forall i :: 0 <= i < n - 1 ==> insts[..n][i] == insts[..n - 1][i];
      assert insts[..n][n - 1] == insts[n - 1];
    }
  }

  ghost predicate Fresh(insts: seq<Instance>, current: Weights) {
    forall i :: 0 <= i < |insts| ==> insts[i].id in current && current[insts[i].id] == 0
  }

  ghost predicate NonNegative(insts: seq<Instance>, weights: Weights) {
    forall i :: 0 <= i < |insts| ==> WeightOf(weights, insts[i].id) >= 0
  }

  // ---------------------------------------------------------------- sums over ids

  ghost function SumOver(ids: set<string>, m: Weights): int {
    if ids == {} then 0 else
      var x :| x in ids;
      CurrentOf(m, x) + SumOver(ids - {x}, m)
  }

  lemma {:induction false} SumPull(ids: set<string>, m: Weights, x: string)
    requires x in ids
    ensures SumOver(ids, m) == CurrentOf(m, x) + SumOver(ids - {x}, m)
    decreases ids
  {
    var y :| y in ids && SumOver(ids, m) == CurrentOf(m, y) + SumOver(ids - {y}, m);
    if y != x {
      SumPull(ids - {y}, m, x);
      SumPull(ids - {x}, m, y);
      assert ids - {y} - {x} == ids - {x} - {y};
    }
  }

  /** Changing one entry of the map changes the sum by as much, if its key is summed over. */
  lemma {:induction false} SumUpdate(ids: set<string>, m: Weights, x: string, v: int)
    ensures SumOver(ids, m[x := v]) == SumOver(ids, m) + if x in ids then v - CurrentOf(m, x) else 0
    decreases ids
  {
    if ids == {} {
    } else {
      var y := if x in ids then x else var z :| z in ids; z;
      SumPull(ids, m, y);
      SumPull(ids, m[x := v], y);
      SumUpdate(ids - {y}, m, x, v);
    }
  }

  lemma {:induction false} SumPositive(ids: set<string>, m: Weights)
    requires SumOver(ids, m) > 0
    ensures exists x :: x in ids && CurrentOf(m, x) > 0
    decreases ids
  {
    var y :| y in ids && SumOver(ids, m) == CurrentOf(m, y) + SumOver(ids - {y}, m);
    if CurrentOf(m, y) <= 0 {
      SumPositive(ids - {y}, m);
    }
  }

  lemma {:induction false} SumZero(ids: set<string>, m: Weights)
    requires forall x :: x in ids ==> CurrentOf(m, x) == 0
    ensures SumOver(ids, m) == 0
    decreases ids
  {
    if ids == {} {
    } else {
      var y :| y in ids;
      SumPull(ids, m, y);
      SumZero(ids - {y}, m);
    }
  }

  /** Entries that are nonnegative and sum to zero are all zero. */
  lemma {:induction false} ZeroSum(ids: set<string>, m: Weights)
    requires forall x :: x in ids ==> CurrentOf(m, x) >= 0
    ensures SumOver(ids, m) >= 0
    ensures SumOver(ids, m) == 0 ==> forall x :: x in ids ==> CurrentOf(m, x) == 0
    decreases ids
  {
    if ids == {} {
    } else {
      var y :| y in ids && SumOver(ids, m) == CurrentOf(m, y) + SumOver(ids - {y}, m);
      ZeroSum(ids - {y}, m);
    }
  }

  // ---------------------------------------------------------------- what one pick does

  /** The loop raises every id by its effective weight and adds up the total. */
  lemma {:induction false} ScanRaises(insts: seq<Instance>, n: nat, weights: Weights, current: Weights, id: string)
    requires n <= |insts|
    ensures CurrentOf(ScanFrom(insts, n, weights, current).current, id)
      == CurrentOf(current, id) + Effective(insts, n, weights, id)
  {
    if n == 0 {
    } else {
      ScanRaises(insts, n - 1, weights, current, id);
    }
  }

  lemma {:induction false} ScanTotals(insts: seq<Instance>, n: nat, weights: Weights, current: Weights)
    requires n <= |insts|
    ensures ScanFrom(insts, n, weights, current).total == Total(insts, n, weights)
  {
    if n == 0 {
    } else {
      ScanTotals(insts, n - 1, weights, current);
    }
  }

  lemma {:induction false} ScanKeys(insts: seq<Instance>, n: nat, weights: Weights, current: Weights)
    requires n <= |insts|
    ensures ScanFrom(insts, n, weights, current).current.Keys == current.Keys + Ids(insts[..n])
  {
    if n == 0 {
      assert Ids(insts[..0]) == {};
    } else {
      var p := n - 1;
      ScanKeys(insts, p, weights, current);
      IdsNext(insts, p);
      ScanStepKeys(ScanFrom(insts, p, weights, current), weights, insts[p]);
    }
  }

  lemma ScanStepKeys(scan: Scan, weights: Weights, inst: Instance)
    ensures ScanStep(scan, weights, inst).current.Keys == scan.current.Keys + {inst.id}
  {
  }

  lemma IdsNext(insts: seq<Instance>, p: nat)
    requires p < |insts|
    ensures Ids(insts[..p + 1]) == Ids(insts[..p]) + {insts[p].id}
  {
    assert insts[..p + 1] == insts[..p] + [insts[p]];
    assert insts[..p + 1][p] == insts[p];
    assert forall i :: 0 <= i < p ==> insts[..p + 1][i] == insts[..p][i];
  }

  lemma {:induction false} ScanSum(insts: seq<Instance>, n: nat, weights: Weights, current: Weights)
    requires n <= |insts|
    ensures var s := ScanFrom(insts, n, weights, current);
      SumOver(Ids(insts), s.current) == SumOver(Ids(insts), current) + s.total
  {
    if n == 0 {
    } else {
      ScanSum(insts, n - 1, weights, current);
      var s, inst := ScanFrom(insts, n - 1, weights, current), insts[n - 1];
      SumUpdate(Ids(insts), s.current, inst.id, CurrentOf(s.current, inst.id) + WeightOf(weights, inst.id));
    }
  }

  ghost predicate Leads(s: Scan, insts: seq<Instance>, n: nat)
    requires n <= |insts|
  {
    && s.maxWeight >= -1
    && (s.selected.None? ==> s.maxWeight == -1)
    && (s.selected.Some? ==> s.selected.value in insts && CurrentOf(s.current, s.selected.value.id) >= s.maxWeight)
    && (forall i :: 0 <= i < n ==> CurrentOf(s.current, insts[i].id) <= s.maxWeight)
  }

  lemma {:induction false} ScanLeads(insts: seq<Instance>, n: nat, weights: Weights, current: Weights)
    requires n <= |insts| && NonNegative(insts, weights)
    ensures Leads(ScanFrom(insts, n, weights, current), insts, n)
  {
    if n == 0 {
    } else {
      ScanLeads(insts, n - 1, weights, current);
    }
  }

  lemma {:induction false} EffectiveSign(insts: seq<Instance>, n: nat, weights: Weights, id: string)
    requires n <= |insts|
    ensures NonNegative(insts, weights) ==> Effective(insts, n, weights, id) >= 0
    ensures WeightOf(weights, id) < 0 && id in Ids(insts[..n]) ==> Effective(insts, n, weights, id) < 0
    ensures WeightOf(weights, id) <= 0 ==> Effective(insts, n, weights, id) <= 0
    ensures id !in Ids(insts[..n]) ==> Effective(insts, n, weights, id) == 0
  {
    if n == 0 {
    } else {
      EffectiveSign(insts, n - 1, weights, id);
      assert insts[..n] == insts[..n - 1] + [insts[n - 1]];
      assert forall i :: 0 <= i < n - 1 ==> insts[..n][i] == insts[..n - 1][i];
      assert insts[..n][n - 1] == insts[n - 1];
    }
  }

  /** What `id` gains in one pick: its effective weight, less the whole total if it is the one selected. */
  lemma PickEffect(insts: seq<Instance>, weights: Weights, current: Weights, id: string)
    requires insts != []
    ensures var (after, selected) := PickOnce(insts, weights, current);
      CurrentOf(after, id) == CurrentOf(current, id) + Effective(insts, |insts|, weights, id)
                              - if selected.Some? && id == selected.value.id then Total(insts, |insts|, weights) else 0
  {
    ScanRaises(insts, |insts|, weights, current, id);
    ScanTotals(insts, |insts|, weights, current);
  }

  /** A pick changes the sum of the current weights only if it selects nobody, by the whole total. */
  lemma PickSum(insts: seq<Instance>, weights: Weights, current: Weights)
    requires insts != []
    ensures var (after, selected) := PickOnce(insts, weights, current);
      && SumOver(Ids(insts), after) == SumOver(Ids(insts), current) + (if selected.Some?
        then 0 else Total(insts, |insts|, weights))
      && after.Keys == current.Keys + Ids(insts)
      && (selected.Some? ==> selected.value in insts)
  {
    var s := ScanFrom(insts, |insts|, weights, current);
    ScanSum(insts, |insts|, weights, current);
    ScanTotals(insts, |insts|, weights, current);
    ScanKeys(insts, |insts|, weights, current);
    SelectedListed(insts, |insts|, weights, current);
    assert insts[..|insts|] == insts;
    if s.selected.Some? {
      ChargeSum(insts, s);
    }
  }

  lemma ChargeSum(insts: seq<Instance>, s: Scan)
    requires s.selected.Some? && s.selected.value in insts && Ids(insts) <= s.current.Keys
    ensures SumOver(Ids(insts), Charge(s)) == SumOver(Ids(insts), s.current) - s.total
    ensures Charge(s).Keys == s.current.Keys
  {
    var id := s.selected.value.id;
    var i :| 0 <= i < |insts| && insts[i] == s.selected.value;
    assert id in Ids(insts);
    SumUpdate(Ids(insts), s.current, id, CurrentOf(s.current, id) - s.total);
  }

  lemma {:induction false} SelectedListed(insts: seq<Instance>, n: nat, weights: Weights, current: Weights)
    requires n <= |insts|
    ensures var s := ScanFrom(insts, n, weights, current); s.selected.Some? ==> s.selected.value in insts
  {
    if n == 0 {
    } else {
      SelectedListed(insts, n - 1, weights, current);
    }
  }

  /** With zero-sum current weights and a positive total of nonnegative weights, a pick selects an instance whose raised
      weight is positive, and leaves the sum at zero. */
  lemma PickLeads(insts: seq<Instance>, weights: Weights, current: Weights)
    requires NonNegative(insts, weights) && Total(insts, |insts|, weights) > 0
    requires SumOver(Ids(insts), current) == 0
    ensures var (after, selected) := PickOnce(insts, weights, current);
      && selected.Some? && selected.value in insts
      && SumOver(Ids(insts), after) == 0
      && CurrentOf(after, selected.value.id) > -Total(insts, |insts|, weights)
      && after.Keys == current.Keys + Ids(insts)
  {
    ScanTop(insts, weights, current);
    PickSum(insts, weights, current);
  }

  lemma ScanTop(insts: seq<Instance>, weights: Weights, current: Weights)
    requires NonNegative(insts, weights) && Total(insts, |insts|, weights) > 0
    requires SumOver(Ids(insts), current) == 0
    ensures var s := ScanFrom(insts, |insts|, weights, current);
      && SumOver(Ids(insts), s.current) == s.total == Total(insts, |insts|, weights)
      && s.selected.Some? && s.selected.value in insts && CurrentOf(s.current, s.selected.value.id) > 0
      && forall id :: id in Ids(insts) ==> CurrentOf(s.current, id) <= CurrentOf(s.current, s.selected.value.id)
  {
    ScanSum(insts, |insts|, weights, current);
    ScanLeads(insts, |insts|, weights, current);
    ScanTotals(insts, |insts|, weights, current);
    SumPositive(Ids(insts), ScanFrom(insts, |insts|, weights, current).current);
  }

  /** For nonnegative weights the selected id is one whose raised weight, counting every listing, is greatest; nobody is
      selected only if no raised weight reaches 0. */
  lemma PickGreatest(insts: seq<Instance>, weights: Weights, current: Weights, id: string)
    requires NonNegative(insts, weights) && id in Ids(insts)
    ensures var selected := PickOnce(insts, weights, current).1;
      var raised := CurrentOf(current, id) + Effective(insts, |insts|, weights, id);
      if selected.None? then raised < 0
      else raised <= CurrentOf(current, selected.value.id) + Effective(insts, |insts|, weights, selected.value.id)
  {
    var s := ScanFrom(insts, |insts|, weights, current);
    ScanLeads(insts, |insts|, weights, current);
    ScanRaises(insts, |insts|, weights, current, id);
    if s.selected.Some? {
      ScanRaises(insts, |insts|, weights, current, s.selected.value.id);
    }
  }

  /** The weight position i is raised to when the scan reaches it: its id's listings up to there count. */
  function Raised(insts: seq<Instance>, weights: Weights, current: Weights, i: nat): int
    requires i < |insts|
  {
    CurrentOf(current, insts[i].id) + Effective(insts, i + 1, weights, insts[i].id)
  }

  /** i is the first of the first n positions with the greatest raised weight. */
  ghost predicate FirstGreatest(insts: seq<Instance>, n: nat, weights: Weights, current: Weights, i: nat)
    requires i < n <= |insts|
  {
    forall j: nat :: j < n ==>
      if j < i then Raised(insts, weights, current, j) < Raised(insts, weights, current, i)
      else Raised(insts, weights, current, j) <= Raised(insts, weights, current, i)
  }

  lemma {:induction false} ScanFirst(insts: seq<Instance>, n: nat, weights: Weights, current: Weights) returns (i: nat)
    requires n <= |insts|
    ensures var s := ScanFrom(insts, n, weights, current);
      if s.selected.None? then s.maxWeight == -1 && forall j: nat :: j < n ==> Raised(insts, weights, current, j) <= -1
      else i < n && s.selected.value == insts[i] && s.maxWeight == Raised(insts, weights, current, i) > -1
           && FirstGreatest(insts, n, weights, current, i)
  {
    i := 0;
    if n == 0 {
    } else {
      var p := n - 1;
      i := ScanFirst(insts, p, weights, current);
      ScanRaises(insts, p, weights, current, insts[p].id);
      assert Raised(insts, weights, current, p)
          == CurrentOf(ScanFrom(insts, p, weights, current).current, insts[p].id) + WeightOf(weights, insts[p].id);
      if Raised(insts, weights, current, p) > ScanFrom(insts, p, weights, current).maxWeight {
        i := p;
      }
    }
  }

  /** Whatever the weights and ids, a pick selects the earliest position whose raised weight is greatest, and nobody if
      and only if no raised weight reaches 0. */
  lemma PickEarliest(insts: seq<Instance>, weights: Weights, current: Weights)
    ensures var selected := PickOnce(insts, weights, current).1;
      && (selected.None? <==> forall j: nat :: j < |insts| ==> Raised(insts, weights, current, j) < 0)
      && (selected.Some? ==> exists i: nat ::
            i < |insts| && selected.value == insts[i] && FirstGreatest(insts, |insts|, weights, current, i))
  {
    var i := ScanFirst(insts, |insts|, weights, current);
  }

  /** The last position that lists id; there it has been raised by all its listings. */
  lemma {:induction false} LastListing(insts: seq<Instance>, n: nat, weights: Weights, id: string) returns (i: nat)
    requires n <= |insts| && exists j :: 0 <= j < n && insts[j].id == id
    ensures i < n && insts[i].id == id && Effective(insts, i + 1, weights, id) == Effective(insts, n, weights, id)
  {
    if insts[n - 1].id == id {
      i := n - 1;
    } else {
      i := LastListing(insts, n - 1, weights, id);
    }
  }

  /** Whatever the weights, as long as the current weights and the total do not sum to less than 0, a pick selects
      somebody. */
  lemma PickSelects(insts: seq<Instance>, weights: Weights, current: Weights)
    requires insts != [] && SumOver(Ids(insts), current) + Total(insts, |insts|, weights) >= 0
    ensures PickOnce(insts, weights, current).1.Some?
  {
    var s := ScanFrom(insts, |insts|, weights, current);
    ScanSum(insts, |insts|, weights, current);
    ScanTotals(insts, |insts|, weights, current);
    assert insts[0].id in Ids(insts);
    var id := SumNonNegative(Ids(insts), s.current);
    assert exists j :: 0 <= j < |insts| && insts[j].id == id;
    var i := LastListing(insts, |insts|, weights, id);
    ScanRaises(insts, |insts|, weights, current, id);
    PickEarliest(insts, weights, current);
    assert Raised(insts, weights, current, i) >= 0;
  }

  lemma {:induction false} SumNonNegative(ids: set<string>, m: Weights) returns (x: string)
    requires ids != {} && SumOver(ids, m) >= 0
    ensures x in ids && CurrentOf(m, x) >= 0
    decreases ids
  {
    var y :| y in ids && SumOver(ids, m) == CurrentOf(m, y) + SumOver(ids - {y}, m);
    if CurrentOf(m, y) >= 0 {
      x := y;
    } else {
      assert SumOver({}, m) == 0;
      x := SumNonNegative(ids - {y}, m);
    }
  }

  // ---------------------------------------------------------------- arithmetic

  /** gap is what an id of weight w is owed after t picks of which it got c, and it is less than a share ahead. */
  ghost predicate Owed(t: int, w: int, W: int, c: int, gap: int) {
    gap == t * w - W * c && gap > -W && W * c < t * w + W
  }

  lemma OwedStep(t: int, w: int, W: int, c: int, gap: int, c': int, gap': int)
    requires Owed(t, w, W, c, gap) && gap' > -W
    requires (c' == c && gap' == gap + w) || (c' == c + 1 && gap' == gap + w - W)
    ensures Owed(t + 1, w, W, c', gap')
  {
    assert (t + 1) * w == t * w + w;
    assert W * (c + 1) == W * c + W;
  }

  /** A multiple of W that is greater than -W is nonnegative; one strictly between -W and W is 0. */
  lemma MultipleAbove(W: int, w: int, c: int)
    requires W > 0 && W * w - W * c > -W
    ensures W * w - W * c >= 0
    ensures W * w - W * c < W ==> w == c
  {
    assert W * w - W * c == W * (w - c);
    MultipleSize(W, w - c);
  }

  lemma MultipleSize(W: int, d: int)
    requires W > 0
    ensures d < 0 ==> W * d <= -W
    ensures d > 0 ==> W * d >= W
    ensures d == 0 ==> W * d == 0
  {
    if d < 0 {
      assert W * (-1 - d) >= 0;
    } else if d > 0 {
      assert W * (d - 1) >= 0;
    }
  }

  /** W picks that leave the gap as it was gave the id exactly w of them. */
  lemma SameGap(W: int, w: int, start: int, end: int, c0: int, c1: int, gap: int)
    requires W > 0 && end == start + W && Owed(start, w, W, c0, gap) && Owed(end, w, W, c1, gap)
    ensures c1 == c0 + w
  {
    assert end * w == start * w + W * w;
    assert W * (c1 - c0) == W * c1 - W * c0;
    MultipleAbove(W, w, c1 - c0);
  }

  // ---------------------------------------------------------------- runs of picks

  /** The current weights after t picks. */
  function After(insts: seq<Instance>, weights: Weights, current: Weights, t: nat): Weights {
    if t == 0 then current else PickOnce(insts, weights, After(insts, weights, current, t - 1)).0
  }

  /** The id selected by pick number t (counting from 0). */
  function Selected(insts: seq<Instance>, weights: Weights, current: Weights, t: nat): Option<string> {
    var selected := PickOnce(insts, weights, After(insts, weights, current, t)).1;
    if selected.Some? then Some(selected.value.id) else None
  }

  /** How many of the picks from..to selected `id`. */
  function Chosen(insts: seq<Instance>, weights: Weights, current: Weights, from: nat, to: nat, id: string): nat
    requires from <= to
  {
    if from == to then 0
    else Chosen(insts, weights, current, from, to - 1, id)
         + if Selected(insts, weights, current, to - 1) == Some(id) then 1 else 0
  }

  ghost predicate Ready(insts: seq<Instance>, weights: Weights, current: Weights) {
    Fresh(insts, current) && NonNegative(insts, weights) && Total(insts, |insts|, weights) > 0
  }

  lemma {:induction false} RunSum(insts: seq<Instance>, weights: Weights, current: Weights, t: nat)
    requires Ready(insts, weights, current)
    ensures var now := After(insts, weights, current, t);
      SumOver(Ids(insts), now) == 0 && now.Keys == current.Keys
  {
    if t == 0 {
      SumZero(Ids(insts), current);
    } else {
      RunSum(insts, weights, current, t - 1);
      PickLeads(insts, weights, After(insts, weights, current, t - 1));
      assert Ids(insts) <= current.Keys;
    }
  }

  /** Every prefix of a run is fair to within one share: with W the total weight, the current weights
      record the exact difference t*weight - W*count, and no id is ever a whole share ahead. */
  lemma {:induction false} PrefixFairness(insts: seq<Instance>, weights: Weights, current: Weights, t: nat, id: string)
    requires Ready(insts, weights, current) && id in Ids(insts)
    ensures Owed(t, Effective(insts, |insts|, weights, id), Total(insts, |insts|, weights),
                 Chosen(insts, weights, current, 0, t, id), CurrentOf(After(insts, weights, current, t), id))
  {
    if t == 0 {
    } else {
      var p := t - 1;
      PrefixFairness(insts, weights, current, p, id);
      RunSum(insts, weights, current, p);
      PrefixStep(insts, weights, After(insts, weights, current, p), id);
      OwedStep(p, Effective(insts, |insts|, weights, id), Total(insts, |insts|, weights),
               Chosen(insts, weights, current, 0, p, id), CurrentOf(After(insts, weights, current, p), id),
               Chosen(insts, weights, current, 0, t, id), CurrentOf(After(insts, weights, current, t), id));
    }
  }

  lemma PrefixStep(insts: seq<Instance>, weights: Weights, before: Weights, id: string)
    requires NonNegative(insts, weights) && Total(insts, |insts|, weights) > 0
    requires SumOver(Ids(insts), before) == 0 && id in Ids(insts)
    requires CurrentOf(before, id) > -Total(insts, |insts|, weights)
    ensures var (after, selected) := PickOnce(insts, weights, before); var W := Total(insts, |insts|, weights);
      && selected.Some?
      && CurrentOf(after, id) == CurrentOf(before, id) + Effective(insts, |insts|, weights, id)
                                 - (if id == selected.value.id then W else 0)
      && CurrentOf(after, id) > -W
  {
    PickLeads(insts, weights, before);
    PickEffect(insts, weights, before, id);
    EffectiveSign(insts, |insts|, weights, id);
  }

  /** After W picks the current weights are exactly those the cycle started from. */
  lemma FullCycle(insts: seq<Instance>, weights: Weights, current: Weights)
    requires Ready(insts, weights, current)
    ensures After(insts, weights, current, Total(insts, |insts|, weights)) == current
  {
    var W := Total(insts, |insts|, weights);
    var now := After(insts, weights, current, W);
    RunSum(insts, weights, current, W);
    forall id | id in Ids(insts) ensures CurrentOf(now, id) >= 0 {
      PrefixFairness(insts, weights, current, W, id);
      MultipleAbove(W, Effective(insts, |insts|, weights, id), Chosen(insts, weights, current, 0, W, id));
    }
    ZeroSum(Ids(insts), now);
    RunElsewhere(insts, weights, current, W);
    forall id | id in current ensures now[id] == current[id] {
      assert CurrentOf(now, id) == CurrentOf(current, id);
    }
  }

  lemma {:induction false} RunElsewhere(insts: seq<Instance>, weights: Weights, current: Weights, t: nat)
    requires Ready(insts, weights, current)
    ensures forall id :: id !in Ids(insts)
                ==> CurrentOf(After(insts, weights, current, t), id) == CurrentOf(current, id)
  {
    if t == 0 {
    } else {
      RunElsewhere(insts, weights, current, t - 1);
      RunSum(insts, weights, current, t - 1);
      var before := After(insts, weights, current, t - 1);
      PickLeads(insts, weights, before);
      forall id | id !in Ids(insts) ensures CurrentOf(After(insts, weights, current, t), id) == CurrentOf(before, id) {
        PickEffect(insts, weights, before, id);
        assert insts[..|insts|] == insts;
        EffectiveSign(insts, |insts|, weights, id);
      }
    }
  }

  lemma {:induction false} Periodic(insts: seq<Instance>, weights: Weights, current: Weights, t: nat)
    requires Ready(insts, weights, current)
    ensures After(insts, weights, current, t + Total(insts, |insts|, weights)) == After(insts, weights, current, t)
  {
    if t == 0 {
      FullCycle(insts, weights, current);
    } else {
      Periodic(insts, weights, current, t - 1);
    }
  }

  lemma {:induction false} ChosenSplit(
      insts: seq<Instance>, weights: Weights, current: Weights, a: nat, b: nat, id: string)
    requires a <= b
    ensures Chosen(insts, weights, current, 0, b, id)
         == Chosen(insts, weights, current, 0, a, id) + Chosen(insts, weights, current, a, b, id)
  {
    if a < b {
      ChosenSplit(insts, weights, current, a, b - 1, id);
    }
  }

  /** Exact fairness: any W consecutive picks, wherever they start, select each id exactly its weight times. */
  lemma ExactFairness(insts: seq<Instance>, weights: Weights, current: Weights, start: nat, id: string)
    requires Ready(insts, weights, current) && id in Ids(insts)
    ensures Chosen(insts, weights, current, start, start + Total(insts, |insts|, weights), id)
         == Effective(insts, |insts|, weights, id)
  {
    var W, w := Total(insts, |insts|, weights), Effective(insts, |insts|, weights, id);
    var end := start + W;
    var c0, c1 := Chosen(insts, weights, current, 0, start, id), Chosen(insts, weights, current, 0, end, id);
    var gap := CurrentOf(After(insts, weights, current, start), id);
    PrefixFairness(insts, weights, current, start, id);
    assert Owed(start, w, W, c0, gap);
    PrefixFairness(insts, weights, current, end, id);
    Periodic(insts, weights, current, start);
    assert Owed(end, w, W, c1, gap);
    SameGap(W, w, start, end, c0, c1, gap);
    ChosenSplit(insts, weights, current, start, end, id);
  }

  // ---------------------------------------------------------------- from what is listed to what is picked

  /** weight gives each id of the service the weight its last listing declares, 1 where it declares none. */
  ghost predicate Carries(all: seq<Instance>, name: string, weight: string -> int) {
    forall j: nat :: LastOfId(all, name, j) ==>
      weight(all[j].id) == if all[j].weight.Some? then all[j].weight.value else 1
  }

  /** The weights of the first n listings of the service, summed. */
  function Sum(all: seq<Instance>, name: string, weight: string -> int, n: nat): int
    requires n <= |all|
  {
    if n == 0 then 0 else Sum(all, name, weight, n - 1) + if all[n - 1].name == name then weight(all[n - 1].id) else 0
  }

  /** The share of one id in that sum. */
  function Share(all: seq<Instance>, name: string, weight: string -> int, n: nat, id: string): int
    requires n <= |all|
  {
    if n == 0 then 0
    else Share(all, name, weight, n - 1, id)
         + if all[n - 1].name == name && all[n - 1].id == id then weight(id) else 0
  }

  lemma {:induction false} SamePrefix(a: seq<Instance>, b: seq<Instance>, n: nat, weights: Weights, id: string)
    requires n <= |a| && a <= b
    ensures Effective(a, n, weights, id) == Effective(b, n, weights, id)
    ensures Total(a, n, weights) == Total(b, n, weights) && Declare(weights, a, n) == Declare(weights, b, n)
  {
    if n == 0 {
    } else {
      SamePrefix(a, b, n - 1, weights, id);
    }
  }

  lemma OneMoreListing(front: seq<Instance>, x: Instance, weights: Weights, id: string)
    ensures var insts := front + [x];
      && Effective(insts, |insts|, weights, id)
         == Effective(front, |front|, weights, id) + (if x.id == id then WeightOf(weights, id) else 0)
      && Total(insts, |insts|, weights) == Total(front, |front|, weights) + WeightOf(weights, x.id)
  {
    SamePrefix(front, front + [x], |front|, weights, id);
  }

  lemma {:induction false} ListedWeight(all: seq<Instance>, name: string, weights: Weights, j: nat)
    requires LastOfId(all, name, j)
    ensures var insts := Named(all, name);
      WeightOf(Declare(weights, insts, |insts|), all[j].id)
      == if all[j].weight.Some? then all[j].weight.value else 1
  {
    var front, last := all[..|all| - 1], all[|all| - 1];
    SamePrefix(Named(front, name), Named(all, name), |Named(front, name)|, weights, "");
    if j < |all| - 1 {
      assert LastOfId(front, name, j);
      ListedWeight(front, name, weights, j);
    }
  }

  /** Where the stored weights agree with the listed ones, the shares taking part are the listed ones. */
  lemma {:induction false} ListedShares(all: seq<Instance>, name: string, weight: string -> int, n: nat,
                                        weights: Weights, id: string)
    requires n <= |all| && forall k :: 0 <= k < n && all[k].name == name ==>
      WeightOf(weights, all[k].id) == weight(all[k].id)
    ensures var insts := Named(all[..n], name);
      && Effective(insts, |insts|, weights, id) == Share(all, name, weight, n, id)
      && Total(insts, |insts|, weights) == Sum(all, name, weight, n)
  {
    if n == 0 {
    } else {
      ListedShares(all, name, weight, n - 1, weights, id);
      assert all[..n][..n - 1] == all[..n - 1];
      var front, x := Named(all[..n - 1], name), all[n - 1];
      assert Named(all[..n], name) == if x.name == name then front + [x] else front;
      OneMoreListing(front, x, weights, id);
    }
  }

  /** What an update leaves of any earlier weights and current weights. */
  ghost predicate Updated(all: seq<Instance>, name: string, insts: seq<Instance>, weights: Weights, current: Weights) {
    && insts == Named(all, name)
    && exists weights0, current0 ::
         weights == Declare(weights0, insts, |insts|) && current == Zero(current0, insts, |insts|)
  }

  /** What it leaves for the picks: the listed weights. */
  lemma AfterUpdate(all: seq<Instance>, name: string, weight: string -> int, insts: seq<Instance>, weights: Weights,
                    current: Weights, id: string)
    requires Carries(all, name, weight) && Updated(all, name, insts, weights, current)
    ensures Effective(insts, |insts|, weights, id) == Share(all, name, weight, |all|, id)
    ensures Total(insts, |insts|, weights) == Sum(all, name, weight, |all|)
    ensures forall k :: 0 <= k < |all| && all[k].name == name ==> WeightOf(weights, all[k].id) == weight(all[k].id)
    ensures Fresh(insts, current)
  {
    var weights0, current0 :| weights == Declare(weights0, insts, |insts|) && current == Zero(current0, insts, |insts|);
    forall k | 0 <= k < |all| && all[k].name == name ensures WeightOf(weights, all[k].id) == weight(all[k].id) {
      var j := LastOfIdExists(all, name, k);
      ListedWeight(all, name, weights0, j);
    }
    ListedShares(all, name, weight, |all|, weights, id);
    assert all[..|all|] == all;
    UpdateFresh(current0, insts, |insts|);
    assert insts[..|insts|] == insts;
  }

  lemma ReadyAfterUpdate(all: seq<Instance>, name: string, weight: string -> int, insts: seq<Instance>,
                         weights: Weights, current: Weights, k: nat)
    requires Carries(all, name, weight) && Updated(all, name, insts, weights, current)
    requires Sum(all, name, weight, |all|) > 0
    requires forall k :: 0 <= k < |all| && all[k].name == name ==> weight(all[k].id) >= 0
    requires k < |all| && all[k].name == name
    ensures Ready(insts, weights, current) && all[k].id in Ids(insts)
    ensures Effective(insts, |insts|, weights, all[k].id) == Share(all, name, weight, |all|, all[k].id)
    ensures Total(insts, |insts|, weights) == Sum(all, name, weight, |all|)
  {
    AfterUpdate(all, name, weight, insts, weights, current, all[k].id);
    var at := NamedIs(all, name);
    forall i | 0 <= i < |insts| ensures WeightOf(weights, insts[i].id) >= 0 {
      assert at[i] in at;
    }
    var i :| 0 <= i < |at| && at[i] == k;
    assert insts[i].id == all[k].id;
  }

  /** From an update to its picks: after updateInstances(all), whatever was stored before, any W consecutive picks, W
      the sum of the weights over the listings of this service, choose each id as often as its listings weigh. The
      weight of a listing is that of the last listing with the same id. */
  lemma FairAsListed(all: seq<Instance>, name: string, weight: string -> int, insts: seq<Instance>, weights: Weights,
                     current: Weights, start: nat, W: nat, k: nat)
    requires Carries(all, name, weight) && Updated(all, name, insts, weights, current)
    requires W == Sum(all, name, weight, |all|) && W > 0
    requires forall k :: 0 <= k < |all| && all[k].name == name ==> weight(all[k].id) >= 0
    requires k < |all| && all[k].name == name
    ensures Chosen(insts, weights, current, start, start + W, all[k].id) == Share(all, name, weight, |all|, all[k].id)
  {
    ReadyAfterUpdate(all, name, weight, insts, weights, current, k);
    ExactFairness(insts, weights, current, start, all[k].id);
  }

  /** For a positive total, the first W picks select each id exactly its weight times if and only if no
      listed weight is negative. */
  lemma FairIffNonNegative(insts: seq<Instance>, weights: Weights, current: Weights)
    requires Fresh(insts, current) && Total(insts, |insts|, weights) > 0
    ensures NonNegative(insts, weights) <==>
      forall id :: id in Ids(insts) ==>
        Chosen(insts, weights, current, 0, Total(insts, |insts|, weights), id) == Effective(insts, |insts|, weights, id)
  {
    if NonNegative(insts, weights) {
      forall id | id in Ids(insts)
        ensures Chosen(insts, weights, current, 0, Total(insts, |insts|, weights), id)
          == Effective(insts, |insts|, weights, id)
      {
        ExactFairness(insts, weights, current, 0, id);
      }
    } else {
      var i :| 0 <= i < |insts| && WeightOf(weights, insts[i].id) < 0;
      assert insts[..|insts|] == insts;
      EffectiveSign(insts, |insts|, weights, insts[i].id);
      assert insts[i].id in Ids(insts);
    }
  }
}
