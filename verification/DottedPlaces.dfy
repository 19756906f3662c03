/** What applied differences can change under a dotted key.

    The parts of a path read back from a reported key are dot-free, so no report is read as a path through a dotted key.
    What is there changes only when a whole object above it is written or deleted. */
module DottedPlaces {
  import opened Common
  import opened Paths
  import opened ConfigDiff

  // ---------------------------------------------------------------- values inside values

  ghost function Highest(s: set<nat>): (m: nat)
    ensures forall x :: x in s ==> x <= m
    ensures s == {} ==> m == 0
    ensures s != {} ==> m in s
  {
    if s == {} then 0 else
      var x :| x in s;
      var rest := Highest(s - {x});
      assert s == (s - {x}) + {x};
      if s - {x} == {} || x > rest then x else rest
  }

  /** How deep objects are nested. */
  ghost function Nesting(v: Value): nat
    decreases v, 1
  {
    match v
    case Leaf(_) => 0
    case Obj(f) => 1 + Highest(Nestings(f))
  }

  ghost function Nestings(f: Fields): set<nat>
    decreases Obj(f), 0
  {
    set k | k in f :: Nesting(f[k])
  }

  lemma NestingField(f: Fields, k: string)
    requires k in f
    ensures Nesting(f[k]) < Nesting(Obj(f))
  {
    assert Nesting(f[k]) in Nestings(f);
  }

  /** What v holds at path t below it. */
  function Inside(v: Option<Value>, t: Path): Option<Value> {
    if t == [] then v else if v.Some? && v.value.Obj? then At(v.value.fields, t) else None
  }

  lemma {:induction false} AtPlus(o: Fields, p: Path, t: Path)
    ensures At(o, p + t) == Inside(At(o, p), t)
    decreases |p|
  {
    if p == [] {
      assert p + t == t;
    } else if t == [] {
      assert p + t == p;
    } else {
      assert (p + t)[1..] == p[1..] + t;
      if p[0] in o && o[p[0]].Obj? {
        AtPlus(o[p[0]].fields, p[1..], t);
      }
    }
  }

  lemma {:induction false} NestingInside(v: Option<Value>, t: Path)
    requires Inside(v, t).Some?
    ensures v.Some? && Nesting(Inside(v, t).value) + |t| <= Nesting(v.value)
    decreases |t|
  {
    if t == [] {
    } else {
      var f := v.value.fields;
      NestingField(f, t[0]);
      if |t| > 1 {
        NestingInside(Some(f[t[0]]), t[1..]);
      }
    }
  }

  lemma {:induction false} DeleteShrinks(o: Fields, r: Path)
    requires r != []
    ensures Nesting(Obj(DeletePath(o, r))) <= Nesting(Obj(o))
    decreases |r|
  {
    var o' := DeletePath(o, r);
    if |r| > 1 && r[0] in o && o[r[0]].Obj? {
      DeleteShrinks(o[r[0]].fields, r[1..]);
    }
    forall k | k in o' ensures Nesting(o'[k]) <= Nesting(Obj(o)) - 1 {
      NestingField(o, k);
    }
  }

  lemma {:induction false} DeleteAdds(o: Fields, r: Path, s: Path)
    requires r != [] && s != [] && At(o, s) == None
    ensures At(DeletePath(o, r), s) == None
    decreases |r|
  {
    if |r| > 1 && r[0] in o && o[r[0]].Obj? && s[0] == r[0] && |s| > 1 {
      DeleteAdds(o[r[0]].fields, r[1..], s[1..]);
    }
  }

  lemma {:induction false} DeleteDeletes(o: Fields, r: Path)
    requires r != []
    ensures At(DeletePath(o, r), r) == None
    decreases |r|
  {
    if |r| > 1 && r[0] in o && o[r[0]].Obj? {
      DeleteDeletes(o[r[0]].fields, r[1..]);
    }
  }

  // ---------------------------------------------------------------- places under a dotted key

  /** A path whose last key, and no other, has a dot. No report can be read as a path that goes through it. */
  predicate Place(c: Path) {
    c != [] && if |c| == 1 then !NoDot(c[0]) else NoDot(c[0]) && Place(c[1..])
  }

  lemma {:induction false} PlaceFrom(s: Path, d: string)
    requires DotFree(s) && !NoDot(d)
    ensures Place(s + [d])
  {
    if s == [] {
    } else {
      PlaceFrom(s[1..], d);
      assert (s + [d])[1..] == s[1..] + [d];
    }
  }

  /** A dot-free path above a place is shorter. */
  lemma {:induction false} AbovePlace(r: Path, c: Path)
    requires Place(c) && DotFree(r) && r <= c
    ensures |r| < |c|
  {
    if r != [] && |c| > 1 {
      AbovePlace(r[1..], c[1..]);
    }
  }

  lemma PatchElsewhere(o: Fields, r: Path, v: Option<Value>, c: Path)
    requires r != [] && c != [] && r[0] != c[0]
    ensures At(Patch(o, r, v), c) == At(o, c) && !(r <= c)
  {
  }

  lemma PatchAbove(o: Fields, r: Path, v: Option<Value>, c: Path)
    requires |r| == 1 && |c| > 1 && r[0] == c[0]
    ensures At(Patch(o, r, v), c) == Inside(v, c[1..]) && r <= c
  {
  }

  lemma PatchUnder(o: Fields, r: Path, v: Option<Value>, c: Path)
    requires |r| > 1 && |c| > 1 && r[0] == c[0]
    requires At(Patch(Below(o, r[0]), r[1..], v), c[1..])
          == if r[1..] <= c[1..] then Inside(v, c[1..][|r| - 1..]) else At(Below(o, r[0]), c[1..])
    ensures At(Patch(o, r, v), c) == if r <= c then Inside(v, c[|r|..]) else At(o, c)
  {
    PatchDown(o, r, v, c);
    PrefixDown(r, c);
  }

  lemma PrefixDown(r: Path, c: Path)
    requires r != [] && c != [] && r[0] == c[0]
    ensures r <= c <==> r[1..] <= c[1..]
    ensures r <= c ==> c[1..][|r| - 1..] == c[|r|..]
  {
    assert r == [r[0]] + r[1..] && c == [c[0]] + c[1..];
  }

  /** A write at r changes what is at a place only if r is above it. */
  lemma {:induction false} PatchAtPlace(o: Fields, r: Path, v: Option<Value>, c: Path)
    requires r != [] && DotFree(r) && Place(c)
    ensures At(Patch(o, r, v), c) == if r <= c then Inside(v, c[|r|..]) else At(o, c)
    decreases |r|
  {
    if r[0] != c[0] {
      PatchElsewhere(o, r, v, c);
    } else if |r| == 1 {
      PatchAbove(o, r, v, c);
    } else {
      PatchAtPlace(Below(o, r[0]), r[1..], v, c[1..]);
      PatchUnder(o, r, v, c);
    }
  }

  function Below(o: Fields, k: string): Fields {
    if k in o && o[k].Obj? then o[k].fields else map[]
  }

  lemma PatchDown(o: Fields, r: Path, v: Option<Value>, c: Path)
    requires |r| > 1 && |c| > 1 && r[0] == c[0]
    ensures At(o, c) == At(Below(o, r[0]), c[1..])
    ensures v.Some? || (r[0] in o && o[r[0]].Obj?)
      ==> At(Patch(o, r, v), c) == At(Patch(Below(o, r[0]), r[1..], v), c[1..])
    ensures v.None? && !(r[0] in o && o[r[0]].Obj?) ==> At(Patch(o, r, v), c) == None
  {
  }

  /** The shortest part of p that ends in a dotted key. */
  function PlaceOf(p: Path): (c: Path)
    requires !DotFree(p)
    ensures Place(c) && c <= p
  {
    if !NoDot(p[0]) then [p[0]]
    else
      [p[0]] + PlaceOf(p[1..])
  }

  lemma {:induction false} ChangedPrefix(a: Fields, b: Fields, p: Path, c: Path)
    requires Changed(a, b, p) && c != [] && c <= p
    ensures At(a, c) != At(b, c)
    ensures |c| < |p| ==> At(a, c).Some? && At(a, c).value.Obj? && At(b, c).Some? && At(b, c).value.Obj?
    decreases |p|
  {
    var k := p[0];
    if k in a && k in b && a[k].Obj? && b[k].Obj? {
      if |c| == 1 {
        if a[k] == b[k] {
          NoneChanged(a[k].fields, p[1..]);
        }
      } else {
        ChangedPrefix(a[k].fields, b[k].fields, p[1..], c[1..]);
      }
    }
  }

  // ---------------------------------------------------------------- which report decides a place

  function To(diffs: seq<Diff>, i: nat): (r: Path)
    requires i < |diffs|
    ensures r != []
  {
    Split(diffs[i].path)
  }

  /** The differences of a and b, applied to a, give b. */
  ghost predicate Works(a: Fields, b: Fields, diffs: seq<Diff>, paths: seq<Path>) {
    IsDiff(a, b, "", diffs, paths) && ApplyAll(a, diffs) == b
  }

  lemma ReportSays(a: Fields, b: Fields, diffs: seq<Diff>, paths: seq<Path>, i: nat)
    requires IsDiff(a, b, "", diffs, paths) && i < |diffs|
    ensures Changed(a, b, paths[i]) && diffs[i].path == KeyOf("", paths[i]) && Target(diffs[i]) == At(b, paths[i])
    ensures DotFree(To(diffs, i)) && Join(To(diffs, i)) == diffs[i].path
  {
    assert paths[i] in paths;
    SplitDotFree(diffs[i].path);
  }

  /** Of the first n reports, number i is the last that is read as a path above the place c; -1 if none is. */
  ghost predicate LastAbove(diffs: seq<Diff>, n: nat, c: Path, i: int)
    requires n <= |diffs|
  {
    -1 <= i < n && (i >= 0 ==> To(diffs, i) <= c) && forall j :: i < j < n ==> !(To(diffs, j) <= c)
  }

  lemma {:induction false} SomeLastAbove(diffs: seq<Diff>, n: nat, c: Path) returns (i: int)
    requires n <= |diffs|
    ensures LastAbove(diffs, n, c, i)
  {
    i := n - 1;
    if n > 0 && !(To(diffs, i) <= c) {
      i := SomeLastAbove(diffs, n - 1, c);
    }
  }

  /** The last report read as a path above a place decides what is there. */
  lemma {:induction false} LastWrite(a: Fields, diffs: seq<Diff>, n: nat, c: Path, i: int)
    requires n <= |diffs| && Place(c) && LastAbove(diffs, n, c, i)
    ensures At(ApplyAll(a, diffs[..n]), c)
         == if i == -1 then At(a, c) else Inside(Target(diffs[i]), c[|To(diffs, i)|..])
  {
    if n == 0 {
    } else {
      var o, d := ApplyAll(a, diffs[..n - 1]), diffs[n - 1];
      ApplySnoc(a, diffs, n);
      SplitDotFree(d.path);
      PatchAtPlace(o, To(diffs, n - 1), Target(d), c);
      if i < n - 1 {
        LastWrite(a, diffs, n - 1, c, i);
      }
    }
  }

  /** In a patch that works, what b has at a place is what a had there, or part of what b has at a reported path that
      was read as a path above the place. */
  lemma Decides(a: Fields, b: Fields, diffs: seq<Diff>, paths: seq<Path>, c: Path) returns (i: int)
    requires Works(a, b, diffs, paths) && Place(c)
    ensures -1 <= i < |diffs|
    ensures i == -1 ==> At(a, c) == At(b, c) && forall j: nat :: j < |diffs| ==> !(To(diffs, j) <= c)
    ensures i >= 0 ==>
      && To(diffs, i) <= c && DotFree(To(diffs, i)) && |To(diffs, i)| < |c|
      && At(b, c) == Inside(At(b, paths[i]), c[|To(diffs, i)|..])
  {
    i := SomeLastAbove(diffs, |diffs|, c);
    LastWrite(a, diffs, |diffs|, c, i);
    assert diffs[..|diffs|] == diffs;
    if i >= 0 {
      ReportSays(a, b, diffs, paths, i);
      AbovePlace(To(diffs, i), c);
    }
  }
}
