/** ConfigVersionManager.computeDiff of packages/config/src/versioning.ts, for every order of visiting keys, and the
    patch a reader of the reported differences would apply.

    Stored configurations are JSON values: an atom is null, a boolean, a number, a string or an array, and comparing
    atoms stands for comparing their JSON text. */
module ConfigDiff {
  import opened Common
  import opened Paths

  datatype Diff =
    | Added(path: string, newValue: Value)
    | Removed(path: string, oldValue: Value)
    | Modified(path: string, oldValue: Value, newValue: Value)

  // ---------------------------------------------------------------- what the differences are

  /** a and b differ in the entry at path p, and p is the shallowest place where they do. */
  ghost predicate Changed(a: Fields, b: Fields, p: Path)
    decreases |p|
  {
    p != [] &&
    var k := p[0];
    if k in a && k in b && a[k].Obj? && b[k].Obj? then Changed(a[k].fields, b[k].fields, p[1..])
    else |p| == 1 && (k in a || k in b) && !(k in a && k in b && a[k] == b[k])
  }

  /** The value at path p, if there is one. */
  function At(o: Fields, p: Path): Option<Value>
    decreases |p|
  {
    if p == [] then Some(Obj(o))
    else if p[0] !in o then None
    else if |p| == 1 then Some(o[p[0]])
    else if o[p[0]].Leaf? then None
    else At(o[p[0]].fields, p[1..])
  }

  /** d reports path p: its key, as an addition if a has nothing there, as a removal if b has nothing there, and else as
      a modification, with the values a and b have there. */
  ghost predicate Says(a: Fields, b: Fields, prefix: string, d: Diff, p: Path) {
    && d.path == KeyOf(prefix, p)
    && match d
       case Added(_, newValue) => At(a, p) == None && At(b, p) == Some(newValue)
       case Removed(_, oldValue) => At(a, p) == Some(oldValue) && At(b, p) == None
       case Modified(_, oldValue, newValue) => At(a, p) == Some(oldValue) && At(b, p) == Some(newValue)
  }

  /** Each difference reports its path. */
  ghost predicate Reports(a: Fields, b: Fields, prefix: string, diffs: seq<Diff>, paths: seq<Path>) {
    && |diffs| == |paths|
    && forall i :: 0 <= i < |diffs| ==> Says(a, b, prefix, diffs[i], paths[i])
  }

  /** diffs reports each changed path once, where paths lists those paths. */
  ghost predicate IsDiff(a: Fields, b: Fields, prefix: string, diffs: seq<Diff>, paths: seq<Path>) {
    && NoDuplicates(paths)
    && (forall p :: p in paths ==> Changed(a, b, p))
    && (forall p :: Changed(a, b, p) ==> p in paths)
    && Reports(a, b, prefix, diffs, paths)
  }

  // ---------------------------------------------------------------- computeDiff

  /** The changed paths found so far, when the keys in pending are still to be visited. */
  ghost predicate Partial(a: Fields, b: Fields, paths: seq<Path>, pending: set<string>) {
    && NoDuplicates(paths)
    && (forall p :: p in paths ==> Changed(a, b, p) && p[0] !in pending)
    && (forall p :: Changed(a, b, p) && p[0] !in pending ==> p in paths)
  }

  function Under(key: string, paths: seq<Path>): (r: seq<Path>)
    ensures |r| == |paths| && forall i :: 0 <= i < |r| ==> r[i] == [key] + paths[i]
  {
    seq(|paths|, i requires 0 <= i < |paths| => [key] + paths[i])
  }

  method ComputeDiff(objA: Fields, objB: Fields, prefix: string) returns (diffs: seq<Diff>)
    ensures exists paths :: IsDiff(objA, objB, prefix, diffs, paths)
    decreases Obj(objA)
  {
    diffs := [];
    ghost var paths: seq<Path> := [];
    var pending := objA.Keys + objB.Keys;
    while pending != {}
      invariant pending <= objA.Keys + objB.Keys
      invariant Partial(objA, objB, paths, pending) && Reports(objA, objB, prefix, diffs, paths)
      decreases pending
    {
      var key :| key in pending;
      var fullKey := Extend(prefix, key);
      ghost var before := pending;
      pending := pending - {key};
      if key !in objA {
        ReportKey(objA, objB, prefix, diffs, paths, before, key, Added(fullKey, objB[key]));
        diffs := diffs + [Added(fullKey, objB[key])];
        paths := paths + [[key]];
      } else if key !in objB {
        ReportKey(objA, objB, prefix, diffs, paths, before, key, Removed(fullKey, objA[key]));
        diffs := diffs + [Removed(fullKey, objA[key])];
        paths := paths + [[key]];
      } else if objA[key].Obj? && objB[key].Obj? {
        var below := ComputeDiff(objA[key].fields, objB[key].fields, fullKey);
        ghost var pathsBelow :| IsDiff(objA[key].fields, objB[key].fields, fullKey, below, pathsBelow);
        ReportBelow(objA, objB, paths, before, key, prefix, below, pathsBelow);
        EntriesBelow(objA, objB, prefix, diffs, paths, key, below, pathsBelow);
        diffs := diffs + below;
        paths := paths + Under(key, pathsBelow);
      } else if objA[key] != objB[key] {
        ReportKey(objA, objB, prefix, diffs, paths, before, key, Modified(fullKey, objA[key], objB[key]));
        diffs := diffs + [Modified(fullKey, objA[key], objB[key])];
        paths := paths + [[key]];
      } else {
        SkipKey(objA, objB, paths, before, key);
      }
    }
    forall p | Changed(objA, objB, p) ensures p in paths {
    }
    assert IsDiff(objA, objB, prefix, diffs, paths);
  }

  lemma SkipKey(a: Fields, b: Fields, paths: seq<Path>, pending: set<string>, key: string)
    requires Partial(a, b, paths, pending) && key in pending
    requires key in a && key in b && a[key] == b[key] && a[key].Leaf?
    ensures Partial(a, b, paths, pending - {key})
  {
  }

  lemma ReportKey(
      a: Fields, b: Fields, prefix: string, diffs: seq<Diff>, paths: seq<Path>, pending: set<string>, key: string,
      d: Diff)
    requires Partial(a, b, paths, pending) && Reports(a, b, prefix, diffs, paths) && key in pending
    requires Changed(a, b, [key]) && !(key in a && key in b && a[key].Obj? && b[key].Obj?)
    requires d.path == Extend(prefix, key)
    requires match d
             case Added(_, newValue) => key !in a && key in b && newValue == b[key]
             case Removed(_, oldValue) => key in a && key !in b && oldValue == a[key]
             case Modified(_, oldValue, newValue) => key in a && key in b && oldValue == a[key] && newValue == b[key]
    ensures Reports(a, b, prefix, diffs + [d], paths + [[key]])
    ensures Partial(a, b, paths + [[key]], pending - {key})
  {
    assert KeyOf(prefix, [key]) == Extend(prefix, key) by { assert [key][1..] == []; }
    assert [key] !in paths;
    forall p | Changed(a, b, p) && p[0] == key ensures p == [key] {
    }
  }

  lemma Below(a: Fields, b: Fields, prefix: string, key: string, p: Path)
    requires key in a && key in b && a[key].Obj? && b[key].Obj?
    ensures Changed(a, b, [key] + p) <==> Changed(a[key].fields, b[key].fields, p)
    ensures KeyOf(prefix, [key] + p) == KeyOf(Extend(prefix, key), p)
    ensures p != [] ==> At(a, [key] + p) == At(a[key].fields, p) && At(b, [key] + p) == At(b[key].fields, p)
  {
    assert ([key] + p)[1..] == p;
  }

  lemma ReportBelow(a: Fields, b: Fields, paths: seq<Path>, pending: set<string>, key: string, prefix: string,
                                       below: seq<Diff>, pathsBelow: seq<Path>)
    requires Partial(a, b, paths, pending) && key in pending
    requires key in a && key in b && a[key].Obj? && b[key].Obj?
    requires IsDiff(a[key].fields, b[key].fields, Extend(prefix, key), below, pathsBelow)
    ensures Partial(a, b, paths + Under(key, pathsBelow), pending - {key})
  {
    var all := paths + Under(key, pathsBelow);
    forall p | Changed(a, b, p) && p[0] == key ensures p in all {
      assert p == [key] + p[1..];
      Below(a, b, prefix, key, p[1..]);
      var i :| 0 <= i < |pathsBelow| && pathsBelow[i] == p[1..];
      assert Under(key, pathsBelow)[i] == p;
    }
    forall i | 0 <= i < |pathsBelow| ensures Changed(a, b, Under(key, pathsBelow)[i]) {
      assert pathsBelow[i] in pathsBelow;
      Below(a, b, prefix, key, pathsBelow[i]);
    }
  }

  lemma SaysBelow(a: Fields, b: Fields, prefix: string, key: string, d: Diff, p: Path)
    requires key in a && key in b && a[key].Obj? && b[key].Obj? && p != []
    requires Says(a[key].fields, b[key].fields, Extend(prefix, key), d, p)
    ensures Says(a, b, prefix, d, [key] + p)
  {
    Below(a, b, prefix, key, p);
  }

  lemma EntriesBelow(a: Fields, b: Fields, prefix: string, diffs: seq<Diff>, paths: seq<Path>,
                                        key: string, below: seq<Diff>, pathsBelow: seq<Path>)
    requires Reports(a, b, prefix, diffs, paths)
    requires key in a && key in b && a[key].Obj? && b[key].Obj?
    requires IsDiff(a[key].fields, b[key].fields, Extend(prefix, key), below, pathsBelow)
    ensures Reports(a, b, prefix, diffs + below, paths + Under(key, pathsBelow))
  {
    var allDiffs, allPaths := diffs + below, paths + Under(key, pathsBelow);
    forall i | 0 <= i < |allDiffs| ensures Says(a, b, prefix, allDiffs[i], allPaths[i]) {
      if i < |diffs| {
        assert Says(a, b, prefix, diffs[i], paths[i]);
      } else {
        var j := i - |diffs|;
        assert pathsBelow[j] in pathsBelow;
        SaysBelow(a, b, prefix, key, below[j], pathsBelow[j]);
      }
    }
  }

  // ---------------------------------------------------------------- what the differences say

  lemma {:induction false} NoneChanged(a: Fields, p: Path)
    ensures !Changed(a, a, p)
    decreases |p|
  {
    if p != [] && p[0] in a && a[p[0]].Obj? {
      NoneChanged(a[p[0]].fields, p[1..]);
    }
  }

  lemma {:induction false} SomeChanged(a: Fields, b: Fields) returns (p: Path)
    requires a != b
    ensures Changed(a, b, p)
    decreases Obj(a)
  {
    var k :| k in a.Keys + b.Keys && !(k in a && k in b && a[k] == b[k]);
    if k in a && k in b && a[k].Obj? && b[k].Obj? {
      var q := SomeChanged(a[k].fields, b[k].fields);
      p := [k] + q;
      assert p[1..] == q;
    } else {
      p := [k];
    }
  }

  /** The report is empty exactly when the configurations are equal. */
  lemma EmptyIffEqual(a: Fields, b: Fields, prefix: string, diffs: seq<Diff>, paths: seq<Path>)
    requires IsDiff(a, b, prefix, diffs, paths)
    ensures diffs == [] <==> a == b
  {
    if a != b {
      var p := SomeChanged(a, b);
    } else {
      assert paths != [] ==> paths[0] in paths;
      forall p | p in paths ensures !Changed(a, b, p) {
        NoneChanged(a, p);
      }
    }
  }

  /** What a report says of the two configurations: something was added exactly where the first has nothing, removed
      exactly where the second has nothing, and the values are those found there. */
  lemma ReportedKinds(a: Fields, b: Fields, diffs: seq<Diff>, paths: seq<Path>, i: nat)
    requires IsDiff(a, b, "", diffs, paths) && i < |diffs|
    ensures diffs[i].Added? <==> At(a, paths[i]) == None
    ensures diffs[i].Removed? <==> At(b, paths[i]) == None
    ensures !diffs[i].Added? ==> At(a, paths[i]) == Some(diffs[i].oldValue)
    ensures !diffs[i].Removed? ==> At(b, paths[i]) == Some(diffs[i].newValue)
  {
    assert Says(a, b, "", diffs[i], paths[i]);
  }

  lemma {:induction false} ChangedApart(a: Fields, b: Fields, p: Path, q: Path)
    requires Changed(a, b, p) && Changed(a, b, q) && Comparable(p, q)
    ensures p == q
    decreases |p|
  {
    var k := p[0];
    assert p == [k] + p[1..] && q == [k] + q[1..];
    if k in a && k in b && a[k].Obj? && b[k].Obj? {
      ChangedApart(a[k].fields, b[k].fields, p[1..], q[1..]);
    }
  }

  /** No reported path is a prefix of another, provided the changed paths can be read back from their keys. */
  lemma ReportsApart(a: Fields, b: Fields, diffs: seq<Diff>, paths: seq<Path>, i: nat, j: nat)
    requires IsDiff(a, b, "", diffs, paths) && i < |diffs| && j < |diffs| && i != j
    requires forall p :: Changed(a, b, p) ==> Addressable(p)
    ensures !Comparable(Split(diffs[i].path), Split(diffs[j].path))
  {
    assert paths[i] in paths && paths[j] in paths;
    SplitKeyIff(paths[i]);
    SplitKeyIff(paths[j]);
    if Comparable(paths[i], paths[j]) {
      ChangedApart(a, b, paths[i], paths[j]);
    }
  }

  // ---------------------------------------------------------------- applying the differences

  /** Deletes the entry at path p, if the way there exists. */
  function DeletePath(o: Fields, p: Path): Fields
    requires p != []
    decreases |p|
  {
    if |p| == 1 then o - {p[0]}
    else if p[0] in o && o[p[0]].Obj? then o[p[0] := Obj(DeletePath(o[p[0]].fields, p[1..]))]
    else o
  }

  function Patch(o: Fields, p: Path, target: Option<Value>): Fields
    requires p != []
  {
    match target
    case Some(v) => SetPath(o, p, v)
    case None => DeletePath(o, p)
  }

  /** What a reported difference says its path should hold. */
  function Target(d: Diff): Option<Value> {
    if d.Removed? then None else Some(d.newValue)
  }

  /** Applies one reported difference by splitting its path at the dots. */
  function Apply(o: Fields, d: Diff): Fields {
    Patch(o, Split(d.path), Target(d))
  }

  function ApplyAll(o: Fields, diffs: seq<Diff>): Fields {
    if diffs == [] then o else Apply(ApplyAll(o, diffs[..|diffs| - 1]), diffs[|diffs| - 1])
  }

  /** Giving a changed path its value in b leaves all other changes as they were, and only those. */
  lemma {:induction false} PatchOne(o: Fields, b: Fields, p: Path, q: Path)
    requires Changed(o, b, p)
    ensures Changed(Patch(o, p, At(b, p)), b, q) <==> Changed(o, b, q) && q != p
    decreases |p|
  {
    var k, o' := p[0], Patch(o, p, At(b, p));
    if k in o && k in b && o[k].Obj? && b[k].Obj? {
      assert p[1..] != [];
      assert o' == o[k := Obj(Patch(o[k].fields, p[1..], At(b[k].fields, p[1..])))];
      if q != [] && q[0] == k {
        PatchOne(o[k].fields, b[k].fields, p[1..], q[1..]);
        assert p == [k] + p[1..] && q == [k] + q[1..];
      }
    } else {
      assert p == [k];
      if q != [] && q[0] == k && k in b && b[k].Obj? {
        NoneChanged(b[k].fields, q[1..]);
      }
    }
  }

  /** Each difference, read back from its dotted path, says to set its own path to the value b has there. */
  ghost predicate Readable(b: Fields, diffs: seq<Diff>, paths: seq<Path>) {
    && |diffs| == |paths|
    && (forall i :: 0 <= i < |diffs| ==> Split(diffs[i].path) == paths[i])
    && (forall i :: 0 <= i < |diffs| ==> Target(diffs[i]) == At(b, paths[i]))
  }

  lemma AddressableReadable(a: Fields, b: Fields, diffs: seq<Diff>, paths: seq<Path>)
    requires Reports(a, b, "", diffs, paths) && (forall i :: 0 <= i < |paths| ==> Addressable(paths[i]))
    ensures Readable(b, diffs, paths)
  {
    forall i | 0 <= i < |diffs| ensures Split(diffs[i].path) == paths[i] {
      SplitKeyIff(paths[i]);
    }
  }

  lemma ApplySnoc(o: Fields, diffs: seq<Diff>, n: nat)
    requires 0 < n <= |diffs|
    ensures ApplyAll(o, diffs[..n]) == Apply(ApplyAll(o, diffs[..n - 1]), diffs[n - 1])
  {
    assert diffs[..n][..n - 1] == diffs[..n - 1];
  }

  /** The first n differences, applied, leave exactly the others to be made. */
  lemma {:induction false} PatchPrefix(a: Fields, b: Fields, diffs: seq<Diff>, paths: seq<Path>, n: nat, q: Path)
    requires Readable(b, diffs, paths) && NoDuplicates(paths) && n <= |diffs|
    requires forall i :: 0 <= i < |paths| ==> Changed(a, b, paths[i])
    ensures Changed(ApplyAll(a, diffs[..n]), b, q) <==> Changed(a, b, q) && q !in paths[..n]
  {
    if n == 0 {
    } else {
      var p, o := paths[n - 1], ApplyAll(a, diffs[..n - 1]);
      PatchPrefix(a, b, diffs, paths, n - 1, q);
      PatchPrefix(a, b, diffs, paths, n - 1, p);
      assert Changed(a, b, p) && p !in paths[..n - 1];
      ApplySnoc(a, diffs, n);
      assert Apply(o, diffs[n - 1]) == Patch(o, p, At(b, p));
      PatchOne(o, b, p, q);
      assert paths[..n] == paths[..n - 1] + [p];
    }
  }

  /** If every changed path is addressable, applying the reported differences to a, in the order reported,
      gives b. */
  lemma PatchWorks(a: Fields, b: Fields, diffs: seq<Diff>, paths: seq<Path>)
    requires IsDiff(a, b, "", diffs, paths)
    requires forall p :: Changed(a, b, p) ==> Addressable(p)
    ensures ApplyAll(a, diffs) == b
  {
    forall i | 0 <= i < |paths| ensures Changed(a, b, paths[i]) && Addressable(paths[i]) {
      assert paths[i] in paths;
    }
    AddressableReadable(a, b, diffs, paths);
    assert diffs[..|diffs|] == diffs && paths[..|paths|] == paths;
    if ApplyAll(a, diffs) != b {
      var q := SomeChanged(ApplyAll(a, diffs), b);
      PatchPrefix(a, b, diffs, paths, |diffs|, q);
    }
  }
}
