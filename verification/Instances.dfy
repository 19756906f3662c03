/** The service instances that the balancers of packages/discovery/src/load-balancer.ts choose from. */
module Instances {
  import opened Common

  /** `weight` is the parsed metadata weight, None when the instance carries none. */
  datatype Instance = Instance(id: string, name: string, host: string, weight: Option<int>)

  /** The instances of one service, in order. */
  function Named(all: seq<Instance>, name: string): seq<Instance> {
    if all == [] then []
    else Named(all[..|all| - 1], name) + if all[|all| - 1].name == name then [all[|all| - 1]] else []
  }

  function Declared(inst: Instance): int {
    if inst.weight.Some? then inst.weight.value else 1
  }

  ghost predicate Increasing(at: seq<nat>) {
    forall i, j :: 0 <= i < j < |at| ==> at[i] < at[j]
  }

  /** What is kept are all listings under the name, each as often as listed and in the order listed: kept instance i is
      listing at[i]. */
  lemma {:induction false} NamedIs(all: seq<Instance>, name: string) returns (at: seq<nat>)
    ensures |at| == |Named(all, name)| && Increasing(at)
    ensures forall i :: 0 <= i < |at| ==> at[i] < |all| && Named(all, name)[i] == all[at[i]]
    ensures forall j: nat :: j in at <==> j < |all| && all[j].name == name
  {
    if all == [] {
      at := [];
    } else {
      var n := |all| - 1;
      var front := NamedIs(all[..n], name);
      forall i | 0 <= i < |front| ensures front[i] < n && Named(all[..n], name)[i] == all[front[i]] {
        assert front[i] in front;
      }
      if all[n].name == name {
        at := front + [n];
        assert forall j: nat :: j in at <==> j in front || j == n;
      } else {
        at := front;
      }
    }
  }

  /** Listing j is the last one of the service with its id. */
  ghost predicate LastOfId(all: seq<Instance>, name: string, j: nat) {
    && j < |all| && all[j].name == name
    && forall k :: j < k < |all| && all[k].name == name ==> all[k].id != all[j].id
  }

  lemma {:induction false} LastOfIdExists(all: seq<Instance>, name: string, k: nat) returns (j: nat)
    requires k < |all| && all[k].name == name
    ensures LastOfId(all, name, j) && all[j].id == all[k].id
    decreases |all| - k
  {
    j := k;
    if l :| k < l < |all| && all[l].name == name && all[l].id == all[k].id {
      j := LastOfIdExists(all, name, l);
    }
  }
}
