/** Dotted paths and nested objects, as packages/core/src/utils.ts and packages/config/src/versioning.ts use them.

    An object is a finite map, so the order in which entries are visited is not part of it; every operation that
    loops over entries is proved for every order. A Leaf is any value that is not a plain object. */
module Paths {
  datatype Atom = Null | Bool(b: bool) | Number(n: int) | Text(s: string) | List(json: string)

  datatype Value = Leaf(atom: Atom) | Obj(fields: Fields)

  type Fields = map<string, Value>

  type Path = seq<string>

  // ---------------------------------------------------------------- dotted strings

  predicate NoDot(s: string) {
    '.' !in s
  }

  predicate DotFree(p: Path) {
    forall i :: 0 <= i < |p| ==> NoDot(p[i])
  }

  /** key.split('.') */
  function Split(s: string): (p: Path)
    ensures p != []
  {
    if s == "" then [""]
    else if s[0] == '.' then [""] + Split(s[1..])
    else var rest := Split(s[1..]); [[s[0]] + rest[0]] + rest[1..]
  }

  function Join(p: Path): string
    requires p != []
  {
    if |p| == 1 then p[0] else p[0] + "." + Join(p[1..])
  }

  lemma {:induction false} SplitDotFree(s: string)
    ensures DotFree(Split(s)) && Join(Split(s)) == s
  {
    if s != "" {
      SplitDotFree(s[1..]);
      var rest := Split(s[1..]);
      if s[0] == '.' {
        assert ([""] + rest)[1..] == rest;
      } else if |rest| > 1 {
        var p := [[s[0]] + rest[0]] + rest[1..];
        assert p[1..] == rest[1..];
        assert Join(p) == [s[0]] + rest[0] + "." + Join(rest[1..]);
      }
    }
  }

  lemma {:induction false} SplitAppend(k: string, s: string)
    requires NoDot(k)
    ensures Split(k) == [k] && Split(k + "." + s) == [k] + Split(s)
  {
    if k == "" {
      assert k + "." + s == "." + s;
      assert ("." + s)[1..] == s;
    } else {
      SplitAppend(k[1..], s);
      assert (k + "." + s)[1..] == k[1..] + "." + s;
      assert [k[0]] + k[1..] == k;
    }
  }

  lemma {:induction false} SplitJoin(p: Path)
    requires p != [] && DotFree(p)
    ensures Split(Join(p)) == p
  {
    if |p| == 1 {
      SplitAppend(p[0], "");
    } else {
      SplitJoin(p[1..]);
      SplitAppend(p[0], Join(p[1..]));
    }
  }

  // ---------------------------------------------------------------- the keys the code builds

  /** prefix ? `${prefix}.${key}` : key -- an empty prefix counts as none. */
  function Extend(prefix: string, key: string): string {
    if prefix != "" then prefix + "." + key else key
  }

  /** The key under which the code reports the value at path p below prefix. */
  function KeyOf(prefix: string, p: Path): string
    decreases |p|
  {
    if p == [] then prefix else KeyOf(Extend(prefix, p[0]), p[1..])
  }

  /** The paths that can be read back from their key: dot-free, and no empty key before another key. */
  predicate Addressable(p: Path) {
    p != [] && DotFree(p) && (|p| == 1 || p[0] != "")
  }

  lemma {:induction false} KeyOfPrefixed(prefix: string, p: Path)
    requires prefix != "" && p != []
    ensures KeyOf(prefix, p) == prefix + "." + Join(p)
    decreases |p|
  {
    if |p| == 1 {
      assert p[1..] == [];
    } else {
      KeyOfPrefixed(Extend(prefix, p[0]), p[1..]);
      assert prefix + "." + p[0] + "." + Join(p[1..]) == prefix + "." + (p[0] + "." + Join(p[1..]));
    }
  }

  lemma KeyOfTop(p: Path)
    requires p != [] && (|p| == 1 || p[0] != "")
    ensures KeyOf("", p) == Join(p)
  {
    if |p| == 1 {
      assert p[1..] == [];
    } else {
      KeyOfPrefixed(p[0], p[1..]);
    }
  }

  /** A dot-free path never gets a key that starts with a dot. */
  lemma {:induction false} KeyOfStart(p: Path)
    requires DotFree(p)
    ensures KeyOf("", p) != "" ==> KeyOf("", p)[0] != '.'
  {
    if p == [] {
    } else {
      if p[0] == "" {
        KeyOfStart(p[1..]);
      } else {
        assert p[0][0] in p[0];
        KeyOfTop(p);
      }
    }
  }

  /** Exactly the addressable paths are recovered by splitting their key at the dots. */
  lemma SplitKeyIff(p: Path)
    requires p != []
    ensures Split(KeyOf("", p)) == p <==> Addressable(p)
  {
    SplitDotFree(KeyOf("", p));
    if Addressable(p) {
      KeyOfTop(p);
      SplitJoin(p);
    } else if DotFree(p) {
      KeyOfStart(p);
      assert p == [""] + p[1..];
      assert Join(p) == "." + Join(p[1..]);
    }
  }

  // ---------------------------------------------------------------- leaves

  /** The atom a is found at path p. */
  ghost predicate LeafAt(o: Fields, p: Path, a: Atom)
    decreases |p|
  {
    && p != [] && p[0] in o
    && match o[p[0]]
       case Leaf(b) => |p| == 1 && a == b
       case Obj(f) => LeafAt(f, p[1..], a)
  }

  ghost predicate Comparable(p: Path, q: Path) {
    p <= q || q <= p
  }

  /** The paths of two leaves are never one a prefix of the other. */
  lemma {:induction false} LeavesApart(o: Fields, p: Path, q: Path, a: Atom, b: Atom)
    requires LeafAt(o, p, a) && LeafAt(o, q, b) && Comparable(p, q)
    ensures p == q && a == b
    decreases |p|
  {
    match o[p[0]]
    case Leaf(_) =>
    case Obj(f) =>
      LeavesApart(f, p[1..], q[1..], a, b);
      assert p == [p[0]] + p[1..] && q == [q[0]] + q[1..];
  }

  /** Every key on the way to every value is dot-free. */
  predicate CleanKeys(o: Fields)
    decreases Obj(o)
  {
    forall k :: k in o ==> NoDot(k) && (o[k].Obj? ==> CleanKeys(o[k].fields))
  }

  /** No object below the top is empty. */
  predicate NoEmpty(o: Fields)
    decreases Obj(o)
  {
    forall k :: k in o ==> o[k].Obj? ==> o[k].fields != map[] && NoEmpty(o[k].fields)
  }

  lemma {:induction false} LeafPathClean(o: Fields, p: Path, a: Atom)
    requires CleanKeys(o) && LeafAt(o, p, a)
    ensures DotFree(p)
    decreases |p|
  {
    match o[p[0]]
    case Leaf(_) =>
    case Obj(f) =>
      LeafPathClean(f, p[1..], a);
      assert p == [p[0]] + p[1..];
  }

  lemma {:induction false} HasLeaf(o: Fields) returns (p: Path, a: Atom)
    requires o != map[] && NoEmpty(o)
    ensures LeafAt(o, p, a)
    decreases Obj(o)
  {
    assert o.Keys != {};
    var k :| k in o.Keys;
    match o[k]
    case Leaf(b) => p, a := [k], b;
    case Obj(f) =>
      var p', a' := HasLeaf(f);
      p, a := [k] + p', a';
      assert p[1..] == p';
  }

  /** An object without empty objects inside is determined by its leaves. */
  lemma {:induction false} LeavesDetermine(o: Fields, r: Fields)
    requires NoEmpty(o) && NoEmpty(r)
    requires forall p, a :: LeafAt(o, p, a) <==> LeafAt(r, p, a)
    ensures o == r
    decreases Obj(o)
  {
    KeysFromLeaves(o, r);
    KeysFromLeaves(r, o);
    forall k | k in o ensures o[k] == r[k] {
      SameKind(o, r, k);
      if o[k].Obj? {
        forall p, a ensures LeafAt(o[k].fields, p, a) <==> LeafAt(r[k].fields, p, a) {
          LeafBelow(o, k, p, a);
          LeafBelow(r, k, p, a);
        }
        LeavesDetermine(o[k].fields, r[k].fields);
      }
    }
  }

  lemma LeafBelow(o: Fields, k: string, p: Path, a: Atom)
    requires k in o && o[k].Obj?
    ensures LeafAt(o, [k] + p, a) <==> LeafAt(o[k].fields, p, a)
  {
    assert ([k] + p)[1..] == p;
  }

  lemma LeafHere(o: Fields, k: string, a: Atom)
    ensures LeafAt(o, [k], a) <==> k in o && o[k] == Leaf(a)
  {
    assert [k][1..] == [];
  }

  lemma SameKind(o: Fields, r: Fields, k: string)
    requires forall p, a :: LeafAt(o, p, a) <==> LeafAt(r, p, a)
    requires k in o && k in r
    ensures o[k].Obj? <==> r[k].Obj?
    ensures o[k].Leaf? ==> o[k] == r[k]
  {
    forall a ensures o[k] == Leaf(a) <==> r[k] == Leaf(a) {
      LeafHere(o, k, a);
      LeafHere(r, k, a);
    }
    if o[k].Leaf? { assert r[k] == Leaf(o[k].atom); }
    if r[k].Leaf? { assert o[k] == Leaf(r[k].atom); }
  }

  lemma KeysFromLeaves(o: Fields, r: Fields)
    requires NoEmpty(o)
    requires forall p, a :: LeafAt(o, p, a) ==> LeafAt(r, p, a)
    ensures forall k :: k in o ==> k in r
  {
    forall k | k in o ensures k in r {
      if o[k].Leaf? {
        assert LeafAt(o, [k], o[k].atom);
      } else {
        var p, a := HasLeaf(o[k].fields);
        assert ([k] + p)[1..] == p;
        assert LeafAt(o, [k] + p, a);
        assert LeafAt(r, [k] + p, a);
      }
    }
  }

  // ---------------------------------------------------------------- writing at a path

  /** Walks down path p, replacing whatever is not an object by an empty one, and writes v at its end. */
  function SetPath(o: Fields, p: Path, v: Value): Fields
    requires p != []
    decreases |p|
  {
    if |p| == 1 then o[p[0] := v]
    else
      var below := if p[0] in o && o[p[0]].Obj? then o[p[0]].fields else map[];
      o[p[0] := Obj(SetPath(below, p[1..], v))]
  }

  /** Writing an atom at p makes it the leaf at p, and keeps exactly the leaves whose path is not comparable to p. */
  lemma {:induction false} SetPathLeaves(o: Fields, p: Path, a: Atom, q: Path, b: Atom)
    requires p != []
    ensures LeafAt(SetPath(o, p, Leaf(a)), q, b) <==> (q == p && b == a) || (LeafAt(o, q, b) && !Comparable(p, q))
    decreases |p|
  {
    if q == [] || q[0] != p[0] {
    } else if |p| == 1 {
      assert p <= q;
    } else {
      var below := if p[0] in o && o[p[0]].Obj? then o[p[0]].fields else map[];
      SetPathLeaves(below, p[1..], a, q[1..], b);
      assert p == [p[0]] + p[1..] && q == [q[0]] + q[1..];
      assert Comparable(p, q) <==> Comparable(p[1..], q[1..]);
      assert q == p <==> q[1..] == p[1..];
      if p[0] in o && o[p[0]].Leaf? && LeafAt(o, q, b) {
        assert q <= p;
      }
    }
  }

  lemma {:induction false} SetPathNoEmpty(o: Fields, p: Path, a: Atom)
    requires p != [] && NoEmpty(o)
    ensures NoEmpty(SetPath(o, p, Leaf(a))) && SetPath(o, p, Leaf(a)) != map[]
    decreases |p|
  {
    assert p[0] in SetPath(o, p, Leaf(a));
    if |p| == 1 {
    } else {
      var below := if p[0] in o && o[p[0]].Obj? then o[p[0]].fields else map[];
      SetPathNoEmpty(below, p[1..], a);
    }
  }

  lemma {:induction false} SetPathClean(o: Fields, p: Path, a: Atom)
    requires p != [] && DotFree(p) && CleanKeys(o)
    ensures CleanKeys(SetPath(o, p, Leaf(a)))
    decreases |p|
  {
    if |p| == 1 {
    } else {
      var below := if p[0] in o && o[p[0]].Obj? then o[p[0]].fields else map[];
      SetPathClean(below, p[1..], a);
    }
  }
}
