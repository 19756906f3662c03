/** flattenObject and unflattenObject of packages/core/src/utils.ts, for every order of visiting entries. */
module FlattenObject {
  import opened Common
  import opened Paths

  type Flat = map<string, Atom>

  // ---------------------------------------------------------------- flatten

  /** flat holds the leaves of obj under the keys the code builds, and nothing else. When two leaves share a key,
      which is possible only for keys with dots or empty keys, either may have been stored last. */
  ghost predicate IsFlattening(obj: Fields, prefix: string, flat: Flat) {
    && (forall k :: k in flat ==> exists p :: LeafAt(obj, p, flat[k]) && KeyOf(prefix, p) == k)
    && (forall p, a :: LeafAt(obj, p, a) ==> KeyOf(prefix, p) in flat)
  }

  /** obj without the entries not yet visited. */
  ghost function Visited(obj: Fields, pending: set<string>): Fields {
    obj - pending
  }

  lemma FlattenLeaf(o: Fields, key: string, a: Atom, prefix: string, flat: Flat)
    requires IsFlattening(o, prefix, flat) && key !in o
    ensures IsFlattening(o[key := Leaf(a)], prefix, flat[Extend(prefix, key) := a])
  {
    var o', newKey := o[key := Leaf(a)], Extend(prefix, key);
    assert KeyOf(prefix, [key]) == newKey by { assert [key][1..] == []; }
    LeafHere(o', key, a);
    forall p, b | p != [] && p[0] != key ensures LeafAt(o', p, b) <==> LeafAt(o, p, b) {
    }
    forall p, b | LeafAt(o', p, b) ensures KeyOf(prefix, p) in flat[newKey := a] {
      if p[0] == key {
        assert p == [key];
      }
    }
  }

  lemma FlattenNested(o: Fields, key: string, f: Fields, prefix: string, flat: Flat, below: Flat)
    requires IsFlattening(o, prefix, flat) && key !in o
    requires IsFlattening(f, Extend(prefix, key), below)
    ensures IsFlattening(o[key := Obj(f)], prefix, flat + below)
  {
    var o' := o[key := Obj(f)];
    forall k | k in flat + below ensures exists p :: LeafAt(o', p, (flat + below)[k]) && KeyOf(prefix, p) == k {
      if k in below {
        var p :| LeafAt(f, p, below[k]) && KeyOf(Extend(prefix, key), p) == k;
        assert ([key] + p)[1..] == p;
        assert LeafAt(o', [key] + p, below[k]) && KeyOf(prefix, [key] + p) == k;
      } else {
        var p :| LeafAt(o, p, flat[k]) && KeyOf(prefix, p) == k;
        assert LeafAt(o', p, flat[k]);
      }
    }
    forall p, a | LeafAt(o', p, a) ensures KeyOf(prefix, p) in flat + below {
      if p[0] == key {
        assert LeafAt(f, p[1..], a);
        assert KeyOf(prefix, p) == KeyOf(Extend(prefix, key), p[1..]);
      } else {
        assert LeafAt(o, p, a);
      }
    }
  }

  method FlattenObject(obj: Fields, prefix: string) returns (result: Flat)
    ensures IsFlattening(obj, prefix, result)
    decreases Obj(obj)
  {
    result := map[];
    var pending := obj.Keys;
    assert Visited(obj, pending) == map[];
    while pending != {}
      invariant pending <= obj.Keys
      invariant IsFlattening(Visited(obj, pending), prefix, result)
      decreases pending
    {
      var key :| key in pending;
      var newKey := Extend(prefix, key);
      ghost var o := Visited(obj, pending);
      pending := pending - {key};
      assert Visited(obj, pending) == o[key := obj[key]];
      match obj[key] {
        case Obj(fields) =>
          var below := FlattenObject(fields, newKey);
          FlattenNested(o, key, fields, prefix, result, below);
          result := result + below;
        case Leaf(atom) =>
          FlattenLeaf(o, key, atom, prefix, result);
          result := result[newKey := atom];
      }
    }
    assert Visited(obj, {}) == obj;
  }

  // ---------------------------------------------------------------- unflatten

  /** order visits every key of flat once. */
  ghost predicate Lists(order: seq<string>, flat: Flat) {
    NoDuplicates(order) && (forall k :: k in order <==> k in flat)
  }

  ghost function Written(flat: Flat, order: seq<string>): Fields
    requires forall k :: k in order ==> k in flat
  {
    if order == [] then map[]
    else
      var k := order[|order| - 1];
      SetPath(Written(flat, order[..|order| - 1]), Split(k), Leaf(flat[k]))
  }

  /** inner put back at parts[..|spine|] into the chain of objects spine it was reached through. */
  function Plug(spine: seq<Fields>, parts: Path, inner: Fields): Fields
    requires |spine| <= |parts|
    decreases |spine|
  {
    if spine == [] then inner
    else
      var last := |spine| - 1;
      Plug(spine[..last], parts, spine[last][parts[last] := Obj(inner)])
  }

  /** One entry of unflattenObject: walk down the parts, then write the value. The objects written in place by
      the source are rebuilt on the way up. */
  method WriteEntry(result: Fields, parts: Path, value: Atom) returns (r: Fields)
    requires parts != []
    ensures r == SetPath(result, parts, Leaf(value))
  {
    var current := result;
    var spine: seq<Fields> := [];
    for i := 0 to |parts| - 1
      invariant |spine| == i
      invariant Plug(spine, parts, SetPath(current, parts[i..], Leaf(value))) == SetPath(result, parts, Leaf(value))
    {
      var part := parts[i];
      ghost var before := current;
      spine := spine + [current];
      assert spine[..i] == spine[..|spine| - 1];
      assert parts[i..][1..] == parts[i + 1..];
      current := if part !in current || !current[part].Obj? then map[] else current[part].fields;
      assert SetPath(before, parts[i..], Leaf(value))
        == before[part := Obj(SetPath(current, parts[i + 1..], Leaf(value)))];
    }
    assert parts[|parts| - 1..] == [parts[|parts| - 1]];
    current := current[parts[|parts| - 1] := Leaf(value)];
    var k := |spine|;
    assert spine[..k] == spine;
    while k > 0
      invariant 0 <= k <= |spine| == |parts| - 1
      invariant Plug(spine[..k], parts, current) == SetPath(result, parts, Leaf(value))
    {
      k := k - 1;
      assert spine[..k + 1][..k] == spine[..k];
      current := spine[k][parts[k] := Obj(current)];
    }
    r := current;
  }

  /** Writes the entries in some order. */
  method UnflattenObject(flat: Flat) returns (result: Fields)
    ensures exists order :: Lists(order, flat) && result == Written(flat, order)
  {
    result := map[];
    ghost var order: seq<string> := [];
    var pending := flat.Keys;
    while pending != {}
      invariant pending <= flat.Keys
      invariant NoDuplicates(order) && (forall k :: k in order <==> k in flat && k !in pending)
      invariant result == Written(flat, order)
      decreases pending
    {
      var key :| key in pending;
      pending := pending - {key};
      result := WriteEntry(result, Split(key), flat[key]);
      assert (order + [key])[..|order|] == order;
      order := order + [key];
    }
    assert Lists(order, flat);
  }

  // ---------------------------------------------------------------- the round trip

  /** Dot-free keys, no empty object inside, and no object under an empty key at the top. */
  predicate Clean(o: Fields) {
    CleanKeys(o) && NoEmpty(o) && !("" in o && o[""].Obj?)
  }

  lemma CleanAddressable(o: Fields, p: Path, a: Atom)
    requires Clean(o) && LeafAt(o, p, a)
    ensures Addressable(p) && Split(KeyOf("", p)) == p
  {
    LeafPathClean(o, p, a);
    SplitKeyIff(p);
  }

  /** Two leaves of a clean object have different keys, and neither key's path is a prefix of the other's. */
  lemma FlatKeysApart(o: Fields, p: Path, q: Path, a: Atom, b: Atom)
    requires Clean(o) && LeafAt(o, p, a) && LeafAt(o, q, b) && p != q
    ensures KeyOf("", p) != KeyOf("", q)
    ensures !Comparable(Split(KeyOf("", p)), Split(KeyOf("", q)))
  {
    CleanAddressable(o, p, a);
    CleanAddressable(o, q, b);
    if Comparable(p, q) {
      LeavesApart(o, p, q, a, b);
    }
  }

  /** Every leaf of what was written comes from an entry. */
  lemma {:induction false} WrittenFrom(flat: Flat, order: seq<string>, q: Path, b: Atom)
    requires forall k :: k in order ==> k in flat
    requires LeafAt(Written(flat, order), q, b)
    ensures exists k :: k in order && Split(k) == q && flat[k] == b
  {
    if order == [] {
    } else {
      var front, k := order[..|order| - 1], order[|order| - 1];
      SetPathLeaves(Written(flat, front), Split(k), flat[k], q, b);
      if !(q == Split(k) && b == flat[k]) {
        WrittenFrom(flat, front, q, b);
      }
    }
  }

  lemma {:induction false} WrittenShape(flat: Flat, order: seq<string>)
    requires forall k :: k in order ==> k in flat
    ensures CleanKeys(Written(flat, order)) && NoEmpty(Written(flat, order))
  {
    if order == [] {
    } else {
      var front, k := order[..|order| - 1], order[|order| - 1];
      WrittenShape(flat, front);
      SplitDotFree(k);
      SetPathNoEmpty(Written(flat, front), Split(k), flat[k]);
      SetPathClean(Written(flat, front), Split(k), flat[k]);
    }
  }

  /** The entries' paths are pairwise not comparable. */
  ghost predicate Apart(order: seq<string>) {
    forall k, l :: k in order && l in order && k != l ==> !Comparable(Split(k), Split(l))
  }

  lemma {:induction false} WrittenKeeps(flat: Flat, order: seq<string>, k: string)
    requires NoDuplicates(order) && Apart(order) && (forall l :: l in order ==> l in flat)
    requires k in order
    ensures LeafAt(Written(flat, order), Split(k), flat[k])
  {
    var front, last := order[..|order| - 1], order[|order| - 1];
    SetPathLeaves(Written(flat, front), Split(last), flat[last], Split(k), flat[k]);
    if k != last {
      assert k in front;
      WrittenKeeps(flat, front, k);
    }
  }

  /** Each entry of a clean object's flattening holds the leaf at its split key. */
  lemma EntryIsLeaf(o: Fields, flat: Flat, k: string)
    requires Clean(o) && IsFlattening(o, "", flat) && k in flat
    ensures LeafAt(o, Split(k), flat[k])
  {
    var p :| LeafAt(o, p, flat[k]) && KeyOf("", p) == k;
    CleanAddressable(o, p, flat[k]);
  }

  lemma EntriesApart(o: Fields, flat: Flat, order: seq<string>)
    requires Clean(o) && IsFlattening(o, "", flat) && Lists(order, flat)
    ensures Apart(order)
  {
    forall k, l | k in order && l in order && k != l ensures !Comparable(Split(k), Split(l)) {
      EntryIsLeaf(o, flat, k);
      EntryIsLeaf(o, flat, l);
      SplitDotFree(k);
      SplitDotFree(l);
      if Comparable(Split(k), Split(l)) {
        LeavesApart(o, Split(k), Split(l), flat[k], flat[l]);
      }
    }
  }

  lemma CleanRoundTrip(o: Fields, flat: Flat, order: seq<string>)
    requires Clean(o) && IsFlattening(o, "", flat) && Lists(order, flat)
    ensures Written(flat, order) == o
  {
    var r := Written(flat, order);
    EntriesApart(o, flat, order);
    WrittenShape(flat, order);
    forall p, a ensures LeafAt(o, p, a) <==> LeafAt(r, p, a) {
      if LeafAt(o, p, a) {
        CleanAddressable(o, p, a);
        var k := KeyOf("", p);
        assert k in flat && k in order;
        EntryIsLeaf(o, flat, k);
        LeavesApart(o, p, p, a, flat[k]);
        WrittenKeeps(flat, order, k);
      }
      if LeafAt(r, p, a) {
        WrittenFrom(flat, order, p, a);
        var k :| k in order && Split(k) == p && flat[k] == a;
        EntryIsLeaf(o, flat, k);
      }
    }
    LeavesDetermine(o, r);
  }

  /** Unflattening a flattened object gives the object back if and only if it is clean, whatever order the
      entries are visited in. */
  lemma RoundTripIff(o: Fields, flat: Flat, order: seq<string>)
    requires IsFlattening(o, "", flat) && Lists(order, flat)
    ensures Written(flat, order) == o <==> Clean(o)
  {
    if Clean(o) {
      CleanRoundTrip(o, flat, order);
    } else {
      WrittenShape(flat, order);
      if CleanKeys(o) && NoEmpty(o) && Written(flat, order) == o {
        var p, a := HasLeaf(o[""].fields);
        LeafBelow(o, "", p, a);
        WrittenFrom(flat, order, [""] + p, a);
        var k :| k in order && Split(k) == [""] + p && flat[k] == a;
        SplitDotFree(k);
        assert ([""] + p)[1..] == p;
        var q :| LeafAt(o, q, flat[k]) && KeyOf("", q) == k;
        LeafPathClean(o, q, flat[k]);
        KeyOfStart(q);
      }
    }
  }
}
