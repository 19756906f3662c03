/** The consistent-hash balancer of packages/discovery/src/load-balancer.ts.

    The hash is an arbitrary function on strings, so nothing here depends on its values: points of two
    instances may collide, and then the instance listed later owns the point, as in the source. Route is the
    specification of a pick, "the healthy owner of the cyclic successor point", on sets of points. */
module HashRing {
  import opened Common
  import opened Instances

  type Hash = string -> int
  type Health = Instance -> bool

  const VIRTUAL_NODES := 160

  // ---------------------------------------------------------------- points and their owners

  function Decimal(n: nat): string {
    (if n < 10 then "" else Decimal(n / 10)) + ["0123456789"[n % 10]]
  }

  function Label(id: string, i: nat): string {
    id + "-" + Decimal(i)
  }

  function Nodes(inst: Instance): nat {
    var nodes := VIRTUAL_NODES * Declared(inst);
    if nodes < 0 then 0 else nodes
  }

  ghost function Points(hash: Hash, inst: Instance): set<int> {
    set i | 0 <= i < Nodes(inst) :: hash(Label(inst.id, i))
  }

  /** The number a string of decimal digits stands for. */
  function Reading(digits: string): int {
    if digits == "" then 0
    else 10 * Reading(digits[..|digits| - 1]) + (digits[|digits| - 1] as int - '0' as int)
  }

  lemma {:induction false} DecimalReads(n: nat)
    ensures Reading(Decimal(n)) == n && Decimal(n) != ""
    ensures forall k :: 0 <= k < |Decimal(n)| ==> '0' <= Decimal(n)[k] <= '9'
  {
    var last := ["0123456789"[n % 10]];
    assert "0123456789"[n % 10] as int - '0' as int == n % 10;
    if n < 10 {
      assert Decimal(n) == last && last[..0] == "";
    } else {
      DecimalReads(n / 10);
      assert Decimal(n) == Decimal(n / 10) + last && (Decimal(n / 10) + last)[..|Decimal(n / 10)|] == Decimal(n / 10);
    }
  }

  lemma LastDash(id: string, d: string, id': string, d': string)
    requires '-' !in d && '-' !in d' && id + "-" + d == id' + "-" + d'
    ensures id == id' && d == d'
  {
    var l := id + "-" + d;
    assert l[|id|] == '-' && l[|id'|] == '-';
    assert forall k :: |id| < k < |l| ==> l[k] == d[k - |id| - 1];
    assert forall k :: |id'| < k < |l| ==> l[k] == d'[k - |id'| - 1];
    assert |id| == |id'|;
    assert l[..|id|] == id && l[..|id|] == id' && l[|id| + 1..] == d && l[|id| + 1..] == d';
  }

  /** Different virtual nodes have different labels, also those of different instances. */
  lemma LabelsDiffer(id: string, i: nat, id': string, j: nat)
    ensures Label(id, i) == Label(id', j) <==> id == id' && i == j
  {
    DecimalReads(i);
    DecimalReads(j);
    if Label(id, i) == Label(id', j) {
      LastDash(id, Decimal(i), id', Decimal(j));
    }
  }

  /** The labels of an instance's virtual nodes. */
  ghost function Labels(inst: Instance, n: nat): set<string> {
    set i | 0 <= i < n :: Label(inst.id, i)
  }

  lemma {:induction false} LabelCount(inst: Instance, n: nat)
    ensures |Labels(inst, n)| == n
  {
    if n == 0 {
      assert Labels(inst, n) == {};
    } else {
      var before := Labels(inst, n - 1);
      LabelCount(inst, n - 1);
      assert Labels(inst, n) == before + {Label(inst.id, n - 1)};
      if Label(inst.id, n - 1) in before {
        var i :| 0 <= i < n - 1 && Label(inst.id, i) == Label(inst.id, n - 1);
        LabelsDiffer(inst.id, i, inst.id, n - 1);
      }
    }
  }

  /** An instance has 160 virtual nodes for each unit of its weight, 160 if it declares none and none if that is
      negative: as many labels, and the hashes of these labels as its points. */
  lemma VirtualNodes(hash: Hash, inst: Instance) returns (labels: set<string>)
    ensures |labels| == if inst.weight.None? then 160 else if inst.weight.value < 0 then 0 else 160 * inst.weight.value
    ensures forall i: nat :: i < |labels| ==> inst.id + "-" + Decimal(i) in labels
    ensures Points(hash, inst) == set l | l in labels :: hash(l)
  {
    var n := Nodes(inst);
    labels := Labels(inst, n);
    LabelCount(inst, n);
    forall i: nat | i < n ensures inst.id + "-" + Decimal(i) in labels {
      assert Label(inst.id, i) in labels;
    }
    PointsAreHashes(hash, inst, n);
  }

  lemma PointsAreHashes(hash: Hash, inst: Instance, n: nat)
    ensures (set i | 0 <= i < n :: hash(Label(inst.id, i))) == set l | l in Labels(inst, n) :: hash(l)
  {
    forall i: nat | i < n ensures hash(Label(inst.id, i)) in set l | l in Labels(inst, n) :: hash(l) {
      assert Label(inst.id, i) in Labels(inst, n);
    }
  }

  /** The last listed instance that has p among its points. */
  ghost function Owner(hash: Hash, insts: seq<Instance>, p: int): Option<Instance> {
    if insts == [] then None
    else if p in Points(hash, insts[|insts| - 1]) then Some(insts[|insts| - 1])
    else Owner(hash, insts[..|insts| - 1], p)
  }

  ghost function AllPoints(hash: Hash, insts: seq<Instance>): set<int> {
    if insts == [] then {} else AllPoints(hash, insts[..|insts| - 1]) + Points(hash, insts[|insts| - 1])
  }

  ghost function HealthyPoints(hash: Hash, healthy: Health, insts: seq<Instance>): set<int> {
    set p | p in AllPoints(hash, insts) && Owner(hash, insts, p).Some? && healthy(Owner(hash, insts, p).value)
  }

  /** p is the least point at or after q, or the least of all when none is at or after q. */
  ghost predicate IsSuccessor(points: set<int>, q: int, p: int) {
    && p in points
    && ((q <= p && forall r :: r in points && q <= r ==> p <= r) || (forall r :: r in points ==> r < q && p <= r))
  }

  /** The instance a key hash is sent to. */
  ghost predicate Route(hash: Hash, healthy: Health, insts: seq<Instance>, q: int, target: Option<Instance>) {
    if HealthyPoints(hash, healthy, insts) == {} then target == None
    else exists p :: IsSuccessor(HealthyPoints(hash, healthy, insts), q, p) && target == Owner(hash, insts, p)
  }

  lemma {:induction false} OwnerIff(hash: Hash, insts: seq<Instance>, p: int)
    ensures p in AllPoints(hash, insts) <==> Owner(hash, insts, p).Some?
    ensures Owner(hash, insts, p).Some? ==>
      Owner(hash, insts, p).value in insts && p in Points(hash, Owner(hash, insts, p).value)
  {
    if insts == [] {
    } else {
      OwnerIff(hash, insts[..|insts| - 1], p);
    }
  }

  lemma {:induction false} Least(points: set<int>, x: int) returns (p: int)
    requires x in points
    ensures p in points && p <= x && forall r :: r in points ==> p <= r
    decreases points
  {
    p := x;
    var below := set r | r in points && r < x;
    if y :| y in below {
      p := Least(below, y);
    }
    assert forall r :: r in points ==> r in below || x <= r;
  }

  lemma SuccessorExists(points: set<int>, q: int, x: int) returns (p: int)
    requires x in points
    ensures IsSuccessor(points, q, p)
    ensures forall p' :: IsSuccessor(points, q, p') ==> p' == p
  {
    var after := set r | r in points && q <= r;
    if y :| y in after {
      p := Least(after, y);
      assert forall r :: r in points && q <= r ==> r in after;
    } else {
      p := Least(points, x);
      assert forall r :: r in points ==> r !in after;
    }
  }

  /** Every key hash has a target, and only one. */
  lemma RouteIsFunction(hash: Hash, healthy: Health, insts: seq<Instance>, q: int) returns (target: Option<Instance>)
    ensures Route(hash, healthy, insts, q, target)
    ensures forall other :: Route(hash, healthy, insts, q, other) ==> other == target
  {
    target := None;
    if x :| x in HealthyPoints(hash, healthy, insts) {
      var p := SuccessorExists(HealthyPoints(hash, healthy, insts), q, x);
      target := Owner(hash, insts, p);
    }
  }

  // ---------------------------------------------------------------- the class

  ghost predicate Ascending(s: seq<int>) {
    forall i, j :: 0 <= i < j < |s| ==> s[i] <= s[j]
  }

  function InsertAscending(s: seq<int>, x: int): (r: seq<int>) {
    if s == [] || s[|s| - 1] <= x then s + [x]
    else InsertAscending(s[..|s| - 1], x) + [s[|s| - 1]]
  }

  lemma {:induction false} InsertKeeps(s: seq<int>, x: int)
    ensures multiset(InsertAscending(s, x)) == multiset(s) + multiset{x}
  {
    if s == [] || s[|s| - 1] <= x {
    } else {
      InsertKeeps(s[..|s| - 1], x);
      assert s == s[..|s| - 1] + [s[|s| - 1]];
    }
  }

  lemma {:induction false} InsertSorts(s: seq<int>, x: int, bound: int)
    requires Ascending(s) && x <= bound && (s != [] ==> s[|s| - 1] <= bound)
    ensures Ascending(InsertAscending(s, x)) && InsertAscending(s, x) != []
    ensures InsertAscending(s, x)[|InsertAscending(s, x)| - 1] <= bound
  {
    if s == [] || s[|s| - 1] <= x {
    } else {
      InsertSorts(s[..|s| - 1], x, s[|s| - 1]);
    }
  }

  /** The library sort with the comparator (a, b) => a - b. */
  function Sort(s: seq<int>): seq<int> {
    if s == [] then [] else InsertAscending(Sort(s[..|s| - 1]), s[|s| - 1])
  }

  lemma {:induction false} SortSorts(s: seq<int>)
    ensures Ascending(Sort(s))
  {
    if s == [] {
    } else {
      SortSorts(s[..|s| - 1]);
      var front, x := Sort(s[..|s| - 1]), s[|s| - 1];
      InsertSorts(front, x, if front != [] && front[|front| - 1] > x then front[|front| - 1] else x);
    }
  }

  lemma {:induction false} SortKeeps(s: seq<int>)
    ensures multiset(Sort(s)) == multiset(s)
  {
    if s == [] {
    } else {
      var front, x := s[..|s| - 1], s[|s| - 1];
      SortKeeps(front);
      InsertKeeps(Sort(front), x);
      assert s == front + [x];
      assert multiset(s) == multiset(front) + multiset{x};
    }
  }

  lemma SortMembers(s: seq<int>)
    ensures forall h :: h in Sort(s) <==> h in s
  {
    SortKeeps(s);
    assert forall h :: h in Sort(s) <==> h in multiset(Sort(s));
    assert forall h :: h in s <==> h in multiset(s);
  }

  /** ring and hashes hold exactly the points of the listed instances, each with its owner. */
  ghost predicate RingOf(hash: Hash, insts: seq<Instance>, ring: map<int, Instance>, hashes: seq<int>) {
    && ring.Keys == AllPoints(hash, insts)
    && (forall h :: h in hashes <==> h in ring)
    && (forall p :: p in ring ==> Owner(hash, insts, p) == Some(ring[p]))
  }

  class ConsistentHash {
    const name: string
    const hash: Hash
    const healthy: Health
    var instances: seq<Instance>
    var ring: map<int, Instance>
    var sortedHashes: seq<int>
    var connectionCounts: map<string, int>

    ghost predicate Valid()
      reads this
    {
      RingOf(hash, instances, ring, sortedHashes) && Ascending(sortedHashes)
    }

    constructor (name: string, hash: Hash, healthy: Health)
      ensures this.name == name && this.hash == hash && this.healthy == healthy
      ensures Valid() && instances == [] && connectionCounts == map[]
    {
      this.name, this.hash, this.healthy := name, hash, healthy;
      instances, ring, sortedHashes, connectionCounts := [], map[], [], map[];
    }

    method UpdateInstances(all: seq<Instance>)
      modifies this
      ensures Valid() && instances == Named(all, name) && connectionCounts == old(connectionCounts)
    {
      instances := Named(all, name);
      RebuildRing();
    }

    method RebuildRing()
      modifies this`ring, this`sortedHashes
      ensures Valid()
    {
      ring := map[];
      sortedHashes := [];
      for k := 0 to |instances|
        invariant RingOf(hash, instances[..k], ring, sortedHashes)
      {
        var inst := instances[k];
        PlaceNodes(inst);
        assert instances[..k + 1][..k] == instances[..k] && instances[..k + 1][k] == inst;
      }
      assert instances[..|instances|] == instances;
      SortMembers(sortedHashes);
      SortSorts(sortedHashes);
      sortedHashes := Sort(sortedHashes);
    }

    /** The inner loop of rebuildRing: the instance takes its points over. */
    method PlaceNodes(inst: Instance)
      requires forall h :: h in sortedHashes <==> h in ring
      modifies this`ring, this`sortedHashes
      ensures forall h :: h in sortedHashes <==> h in ring
      ensures ring.Keys == old(ring).Keys + Points(hash, inst)
      ensures forall p :: p in ring ==> ring[p] == if p in Points(hash, inst) then inst else old(ring)[p]
    {
      var nodes := VIRTUAL_NODES * Declared(inst);
      var i := 0;
      while i < nodes
        invariant 0 <= i <= Nodes(inst)
        invariant ring.Keys == old(ring).Keys + FirstPoints(hash, inst, i)
        invariant forall h :: h in sortedHashes <==> h in ring
        invariant forall p :: p in ring ==> ring[p] == if p in FirstPoints(hash, inst, i) then inst else old(ring)[p]
      {
        var h := hash(Label(inst.id, i));
        NextPoint(hash, inst, i);
        ring := ring[h := inst];
        sortedHashes := sortedHashes + [h];
        i := i + 1;
      }
      assert FirstPoints(hash, inst, Nodes(inst)) == Points(hash, inst);
    }

    method IncrementConnections(id: string)
      modifies this`connectionCounts
      ensures connectionCounts
           == old(connectionCounts)[id := if id in old(connectionCounts) then old(connectionCounts)[id] + 1 else 1]
    {
      var count := if id in connectionCounts then connectionCounts[id] else 0;
      connectionCounts := connectionCounts[id := count + 1];
    }

    /** random stands for the string the source draws when it is called without a key. */
    method Pick(key: Option<string>, random: string) returns (r: Option<Instance>)
      requires Valid()
      modifies this`connectionCounts
      ensures Route(hash, healthy, instances, hash(if key.Some? then key.value else random), r)
      ensures connectionCounts ==
              if r.None? then old(connectionCounts)
              else var id := r.value.id;
                old(connectionCounts)[id := if id in old(connectionCounts) then old(connectionCounts)[id] + 1 else 1]
    {
      if |sortedHashes| == 0 {
        return None;
      }
      var q := hash(if key.Some? then key.value else random);
      var idx := FindIndex(q);
      assert sortedHashes[idx] in sortedHashes;
      var instance := ring[sortedHashes[idx]];
      if healthy(instance) {
        FirstHealthy(hash, healthy, instances, ring, sortedHashes, q, idx, 0);
        r := Some(instance);
      } else {
        r := NextHealthy(idx, q);
      }
      if r.Some? {
        IncrementConnections(r.value.id);
      }
    }

    /** The retry loop of a pick whose first choice is unhealthy. */
    method NextHealthy(start: nat, ghost q: int) returns (r: Option<Instance>)
      requires Valid() && IsStart(sortedHashes, q, start)
      requires Unhealthy(healthy, ring, sortedHashes, start, 1)
      ensures Route(hash, healthy, instances, q, r)
    {
      var idx, n := start, |sortedHashes|;
      for i := 0 to n
        invariant idx == Cyclic(start, i, n)
        invariant Unhealthy(healthy, ring, sortedHashes, start, i + 1)
      {
        CyclicNext(start, i, n);
        idx := (idx + 1) % n;
        var candidate := ring[HashAt(idx)];
        if healthy(candidate) {
          assert Some(candidate) == Some(ring[sortedHashes[Cyclic(start, i + 1, n)]]);
          FirstHealthy(hash, healthy, instances, ring, sortedHashes, q, start, i + 1);
          return Some(candidate);
        }
        OneMoreUnhealthy(healthy, ring, sortedHashes, start, i + 1);
      }
      NoneHealthy(hash, healthy, instances, ring, sortedHashes, start);
      return None;
    }

    function HashAt(i: nat): (h: int)
      requires Valid() && i < |sortedHashes|
      reads this
      ensures h in ring && h == sortedHashes[i]
    {
      assert sortedHashes[i] in sortedHashes;
      sortedHashes[i]
    }

    /** The first position at or after q, or 0. */
    method FindIndex(q: int) returns (idx: nat)
      requires Ascending(sortedHashes) && sortedHashes != []
      ensures IsStart(sortedHashes, q, idx)
    {
      for i := 0 to |sortedHashes|
        invariant forall j :: 0 <= j < i ==> sortedHashes[j] < q
      {
        if sortedHashes[i] >= q {
          return i;
        }
      }
      return 0;
    }
  }

  ghost function FirstPoints(hash: Hash, inst: Instance, n: nat): set<int> {
    set i | 0 <= i < n :: hash(Label(inst.id, i))
  }

  lemma NextPoint(hash: Hash, inst: Instance, i: nat)
    ensures FirstPoints(hash, inst, i + 1) == FirstPoints(hash, inst, i) + {hash(Label(inst.id, i))}
  {
  }

  ghost predicate IsStart(s: seq<int>, q: int, idx: nat) {
    && idx < |s|
    && ((s[idx] >= q && forall j :: 0 <= j < idx ==> s[j] < q) || (idx == 0 && forall j :: 0 <= j < |s| ==> s[j] < q))
  }

  // ---------------------------------------------------------------- walking the ring

  function Cyclic(start: nat, i: nat, n: nat): nat
    requires start < n && i <= n
  {
    if start + i < n then start + i else start + i - n
  }

  /** The owners of the first n positions walked from start are all unhealthy. */
  ghost predicate Unhealthy(healthy: Health, ring: map<int, Instance>, s: seq<int>, start: nat, n: nat)
    requires start < |s| && n <= |s| + 1
  {
    forall j :: 0 <= j < n ==> s[Cyclic(start, j, |s|)] in ring && !healthy(ring[s[Cyclic(start, j, |s|)]])
  }

  lemma OneMoreUnhealthy(healthy: Health, ring: map<int, Instance>, s: seq<int>, start: nat, n: nat)
    requires start < |s| && n <= |s| && Unhealthy(healthy, ring, s, start, n)
    requires var h := s[Cyclic(start, n, |s|)]; h in ring && !healthy(ring[h])
    ensures Unhealthy(healthy, ring, s, start, n + 1)
  {
  }

  lemma CyclicNext(start: nat, i: nat, n: nat)
    requires start < n && i < n
    ensures (Cyclic(start, i, n) + 1) % n == Cyclic(start, i + 1, n)
  {
    var c := Cyclic(start, i, n) + 1;
    if c == n {
      assert c % n == 0;
    } else {
      assert c % n == c;
    }
  }

  /** The first healthy position met walking from start is the healthy successor of q. */
  lemma FirstHealthy(hash: Hash, healthy: Health, insts: seq<Instance>, ring: map<int, Instance>,
                                        s: seq<int>, q: int, start: nat, i: nat)
    requires RingOf(hash, insts, ring, s) && Ascending(s) && IsStart(s, q, start) && i <= |s|
    requires Unhealthy(healthy, ring, s, start, i)
    requires healthy(ring[s[Cyclic(start, i, |s|)]])
    ensures Route(hash, healthy, insts, q, Some(ring[s[Cyclic(start, i, |s|)]]))
  {
    var n, points, at := |s|, HealthyPoints(hash, healthy, insts), Cyclic(start, i, |s|);
    var p := s[at];
    assert p in s && p in points;
    assert Cyclic(start, 0, n) == start;
    forall r | r in points
      ensures if at >= start then p <= r || (start > 0 && r < q) else p <= r < q
    {
      assert r in s;
      var k :| 0 <= k < n && s[k] == r;
      var j := if k >= start then k - start else k - start + n;
      assert Cyclic(start, j, n) == k;
      assert j >= i;
    }
    assert forall r :: r in points ==> r in s;
    if at < start {
      assert forall r :: r in points ==> r < q && p <= r;
    } else if s[start] < q {
      assert forall r :: r in points ==> r < q;
      assert forall r :: r in points ==> p <= r;
    } else {
      assert p >= q;
      assert forall r :: r in points && q <= r ==> p <= r;
    }
  }

  lemma NoneHealthy(
      hash: Hash, healthy: Health, insts: seq<Instance>, ring: map<int, Instance>, s: seq<int>, start: nat)
    requires RingOf(hash, insts, ring, s) && start < |s|
    requires Unhealthy(healthy, ring, s, start, |s| + 1)
    ensures HealthyPoints(hash, healthy, insts) == {} && forall q :: Route(hash, healthy, insts, q, None)
  {
    forall p | p in ring ensures !healthy(ring[p]) {
      assert p in s;
      var k :| 0 <= k < |s| && s[k] == p;
      var j := if k >= start then k - start else k - start + |s|;
      assert Cyclic(start, j, |s|) == k;
    }
  }

  // ---------------------------------------------------------------- minimal disruption

  lemma {:induction false} OwnerAppend(hash: Hash, a: seq<Instance>, b: seq<Instance>, p: int)
    ensures Owner(hash, a + b, p) == if Owner(hash, b, p).Some? then Owner(hash, b, p) else Owner(hash, a, p)
  {
    if b == [] {
      assert a + b == a;
    } else {
      assert (a + b)[..|a + b| - 1] == a + b[..|b| - 1];
      OwnerAppend(hash, a, b[..|b| - 1], p);
    }
  }

  /** Listing x somewhere changes the owner of a point to x or not at all. */
  lemma OwnerInsert(hash: Hash, a: seq<Instance>, x: Instance, b: seq<Instance>, p: int)
    ensures Owner(hash, a + [x] + b, p) == Owner(hash, a + b, p) || Owner(hash, a + [x] + b, p) == Some(x)
    ensures Owner(hash, a + b, p).Some? ==> Owner(hash, a + [x] + b, p).Some?
  {
    OwnerAppend(hash, a + [x], b, p);
    OwnerAppend(hash, a, [x], p);
    OwnerAppend(hash, a, b, p);
    assert [x][..0] == [];
  }

  /** Adding a healthy instance anywhere in the list, the rest keeping its order, sends every key where it went
      before or to the new instance; read from right to left, removing one moves only the keys it had.
      Collisions between points are covered. */
  lemma MinimalDisruption(hash: Hash, healthy: Health, a: seq<Instance>, x: Instance, b: seq<Instance>, q: int)
    requires healthy(x)
    ensures forall without, with ::
      Route(hash, healthy, a + b, q, without) && Route(hash, healthy, a + [x] + b, q, with) ==>
      with == without || with == Some(x)
  {
    var old', new' := HealthyPoints(hash, healthy, a + b), HealthyPoints(hash, healthy, a + [x] + b);
    forall p
      ensures p in old' ==> p in new'
      ensures p in new' ==> p in old' || Owner(hash, a + [x] + b, p) == Some(x)
    {
      OwnerInsert(hash, a, x, b, p);
      OwnerIff(hash, a + b, p);
      OwnerIff(hash, a + [x] + b, p);
    }
    forall without, with | Route(hash, healthy, a + b, q, without) && Route(hash, healthy, a + [x] + b, q, with)
      ensures with == without || with == Some(x)
    {
      if new' != {} && with != Some(x) {
        var p' :| IsSuccessor(new', q, p') && with == Owner(hash, a + [x] + b, p');
        OwnerInsert(hash, a, x, b, p');
        assert p' in old' && IsSuccessor(old', q, p');
        var p :| IsSuccessor(old', q, p) && without == Owner(hash, a + b, p);
        assert p == p';
      }
    }
  }

  ghost predicate SameRoutes(hash: Hash, healthy: Health, l1: seq<Instance>, l2: seq<Instance>) {
    forall q, t :: Route(hash, healthy, l1, q, t) <==> Route(hash, healthy, l2, q, t)
  }

  /** Two lists with the same points route every key alike if and only if they agree on the owner of every point. */
  lemma SameRoutesIff(hash: Hash, healthy: Health, l1: seq<Instance>, l2: seq<Instance>)
    requires forall inst :: healthy(inst)
    requires AllPoints(hash, l1) == AllPoints(hash, l2)
    ensures SameRoutes(hash, healthy, l1, l2)
        <==> forall p :: p in AllPoints(hash, l1) ==> Owner(hash, l1, p) == Owner(hash, l2, p)
  {
    var points := AllPoints(hash, l1);
    forall p ensures p in points <==> p in HealthyPoints(hash, healthy, l1)
      ensures p in points <==> p in HealthyPoints(hash, healthy, l2)
    {
      OwnerIff(hash, l1, p);
      OwnerIff(hash, l2, p);
    }
    assert HealthyPoints(hash, healthy, l1) == points == HealthyPoints(hash, healthy, l2);
    if SameRoutes(hash, healthy, l1, l2) {
      forall p | p in points ensures Owner(hash, l1, p) == Owner(hash, l2, p) {
        assert IsSuccessor(points, p, p);
        var t := Owner(hash, l1, p);
        assert Route(hash, healthy, l1, p, t);
        assert Route(hash, healthy, l2, p, t);
        var p2 :| IsSuccessor(points, p, p2) && t == Owner(hash, l2, p2);
        assert p2 == p;
      }
    }
  }

  lemma {:induction false} OwnerExists(hash: Hash, insts: seq<Instance>, x: Instance, p: int)
    requires x in insts && p in Points(hash, x)
    ensures Owner(hash, insts, p).Some?
  {
    var front, last := insts[..|insts| - 1], insts[|insts| - 1];
    if p in Points(hash, last) {
    } else {
      assert insts == front + [last];
      OwnerExists(hash, front, x, p);
    }
  }

  lemma SamePoints(hash: Hash, l1: seq<Instance>, l2: seq<Instance>)
    requires multiset(l1) == multiset(l2)
    ensures AllPoints(hash, l1) == AllPoints(hash, l2)
  {
    forall p ensures p in AllPoints(hash, l1) <==> p in AllPoints(hash, l2) {
      OwnerIff(hash, l1, p);
      OwnerIff(hash, l2, p);
      if Owner(hash, l1, p).Some? {
        assert Owner(hash, l1, p).value in multiset(l2);
        OwnerExists(hash, l2, Owner(hash, l1, p).value, p);
      }
      if Owner(hash, l2, p).Some? {
        assert Owner(hash, l2, p).value in multiset(l1);
        OwnerExists(hash, l1, Owner(hash, l2, p).value, p);
      }
    }
  }

  lemma OwnerOfTwo(hash: Hash, x: Instance, y: Instance, p: int)
    ensures Owner(hash, [x, y], p)
         == if p in Points(hash, y) then Some(y) else if p in Points(hash, x) then Some(x) else None
  {
    assert [x, y][..1] == [x] && [x][..0] == [];
    assert Owner(hash, [x], p) == if p in Points(hash, x) then Some(x) else None;
  }

  lemma OwnerOfPair(hash: Hash, a: seq<Instance>, x: Instance, y: Instance, b: seq<Instance>, p: int)
    ensures Owner(hash, a + [x, y] + b, p)
         == if Owner(hash, b, p).Some? then Owner(hash, b, p)
            else if p in Points(hash, y) then Some(y)
            else if p in Points(hash, x) then Some(x)
            else Owner(hash, a, p)
  {
    OwnerAppend(hash, a + [x, y], b, p);
    OwnerAppend(hash, a, [x, y], p);
    OwnerOfTwo(hash, x, y, p);
  }

  /** Swapping two neighbours in the list leaves every route as it is if and only if every point they share is also a
      point of an instance listed after them. */
  lemma SwapIsStableIff(hash: Hash, healthy: Health, a: seq<Instance>, x: Instance, y: Instance, b: seq<Instance>)
    requires forall inst :: healthy(inst)
    ensures SameRoutes(hash, healthy, a + [x, y] + b, a + [y, x] + b)
        <==> x == y || forall p :: p in Points(hash, x) && p in Points(hash, y) ==> p in AllPoints(hash, b)
  {
    var l1, l2 := a + [x, y] + b, a + [y, x] + b;
    assert multiset(l1) == multiset(l2);
    SamePoints(hash, l1, l2);
    forall p
      ensures p in AllPoints(hash, l1) && Owner(hash, l1, p) != Owner(hash, l2, p)
          <==> x != y && p in Points(hash, x) && p in Points(hash, y) && p !in AllPoints(hash, b)
    {
      OwnerOfPair(hash, a, x, y, b, p);
      OwnerOfPair(hash, a, y, x, b, p);
      OwnerIff(hash, l1, p);
      OwnerIff(hash, b, p);
    }
    SameRoutesIff(hash, healthy, l1, l2);
  }

  /** No two different instances of the list have a point in common. */
  ghost predicate NoCollision(hash: Hash, insts: seq<Instance>) {
    forall x, y, p :: x in insts && y in insts && p in Points(hash, x) && p in Points(hash, y) ==> x == y
  }

  lemma OwnerWithoutCollision(hash: Hash, l1: seq<Instance>, l2: seq<Instance>, p: int)
    requires multiset(l1) == multiset(l2) && NoCollision(hash, l1)
    ensures Owner(hash, l1, p).Some? ==> Owner(hash, l2, p) == Owner(hash, l1, p)
  {
    OwnerIff(hash, l1, p);
    OwnerIff(hash, l2, p);
    if Owner(hash, l1, p).Some? {
      var x := Owner(hash, l1, p).value;
      assert x in multiset(l2);
      OwnerExists(hash, l2, x, p);
      assert Owner(hash, l2, p).value in multiset(l1);
    }
  }

  /** The list without one x. */
  lemma Without(s: seq<Instance>, x: Instance) returns (rest: seq<Instance>)
    requires x in s
    ensures multiset(s) == multiset(rest + [x])
  {
    var i :| 0 <= i < |s| && s[i] == x;
    rest := s[..i] + s[i + 1..];
    assert s == s[..i] + [x] + s[i + 1..];
  }

  lemma WithoutCollision(hash: Hash, healthy: Health, insts: seq<Instance>, other: seq<Instance>)
    requires (forall inst :: healthy(inst)) && NoCollision(hash, insts) && multiset(other) == multiset(insts)
    ensures SameRoutes(hash, healthy, insts, other)
  {
    SamePoints(hash, insts, other);
    forall p | p in AllPoints(hash, insts) ensures Owner(hash, insts, p) == Owner(hash, other, p) {
      OwnerIff(hash, insts, p);
      OwnerWithoutCollision(hash, insts, other, p);
    }
    SameRoutesIff(hash, healthy, insts, other);
  }

  /** Two orders of the list that route a key whose hash is p differently. */
  lemma WithCollision(hash: Hash, healthy: Health, insts: seq<Instance>, x: Instance, y: Instance, p: int)
      returns (l1: seq<Instance>, l2: seq<Instance>)
    requires forall inst :: healthy(inst)
    requires x in insts && y in insts && x != y && p in Points(hash, x) && p in Points(hash, y)
    ensures multiset(l1) == multiset(insts) == multiset(l2) && !SameRoutes(hash, healthy, l1, l2)
  {
    var others := Without(insts, x);
    assert y in multiset(others + [x]);
    var rest := Without(others, y);
    l1, l2 := rest + [x, y], rest + [y, x];
    SwapIsStableIff(hash, healthy, rest, x, y, []);
    assert l1 + [] == l1 && l2 + [] == l2;
    assert p !in AllPoints(hash, []);
  }

  /** The order of the list never matters if and only if no two different instances share a point. */
  lemma OrderIsIrrelevantIff(hash: Hash, healthy: Health, insts: seq<Instance>)
    requires forall inst :: healthy(inst)
    ensures (forall other :: multiset(other) == multiset(insts) ==> SameRoutes(hash, healthy, insts, other))
        <==> NoCollision(hash, insts)
  {
    if NoCollision(hash, insts) {
      forall other | multiset(other) == multiset(insts) ensures SameRoutes(hash, healthy, insts, other) {
        WithoutCollision(hash, healthy, insts, other);
      }
    } else {
      var x, y, p :| x in insts && y in insts && x != y && p in Points(hash, x) && p in Points(hash, y);
      var l1, l2 := WithCollision(hash, healthy, insts, x, y, p);
      assert SameRoutes(hash, healthy, insts, l1) && SameRoutes(hash, healthy, insts, l2)
        ==> SameRoutes(hash, healthy, l1, l2);
    }
  }

  /** So reordering alone can move keys: one whose hash is a point of several healthy instances goes to whichever of
      them is listed last. */
  lemma LastListedTakes(hash: Hash, healthy: Health, insts: seq<Instance>, x: Instance, p: int)
    requires healthy(x) && p in Points(hash, x)
    ensures Route(hash, healthy, insts + [x], p, Some(x))
  {
    var all := insts + [x];
    assert all[..|all| - 1] == insts && Owner(hash, all, p) == Some(x);
    assert p in HealthyPoints(hash, healthy, all);
    assert IsSuccessor(HealthyPoints(hash, healthy, all), p, p);
  }
}
