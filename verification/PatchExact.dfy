/** Exactly when the differences of packages/config/src/versioning.ts are a patch.

    A reported path can be read back from its key only if it is addressable: dot-free, and without an empty key before
    another key. Values written under a misread path could still, by coincidence, end up where another change needs
    them, since whole objects are written. This module shows that such coincidences never complete a patch: applying
    the differences of a and b to a gives b if and only if every changed path is addressable. */
module PatchExact {
  import opened Common
  import opened Paths
  import opened ConfigDiff
  import opened DottedPlaces

  // ---------------------------------------------------------------- dotted keys

  lemma {:induction false} DotSplits(s: string)
    requires '.' in s
    ensures |Split(s)| > 1
  {
    if s[0] != '.' {
      assert s == [s[0]] + s[1..];
      DotSplits(s[1..]);
    }
  }

  /** A dotted path is read as one that leads past its first dotted key. */
  lemma {:induction false} ReadLonger(q: Path)
    requires !DotFree(q)
    ensures |Split(Join(q))| > |PlaceOf(q)|
  {
    if !NoDot(q[0]) {
      DotSplits(Join(q));
    } else {
      ReadLonger(q[1..]);
      SplitAppend(q[0], Join(q[1..]));
    }
  }

  /** A changed top-level key with a dot is never repaired. */
  lemma NoTopDotted(a: Fields, b: Fields, diffs: seq<Diff>, paths: seq<Path>, p: Path)
    requires Works(a, b, diffs, paths) && Changed(a, b, p)
    ensures NoDot(p[0])
  {
    if !NoDot(p[0]) {
      var i := Decides(a, b, diffs, paths, [p[0]]);
      ChangedPrefix(a, b, p, [p[0]]);
    }
  }

  /** Without a difference below the empty key, a dotted change could be repaired only by a dotted change whose first
      dotted key is less deep, and so by none. */
  lemma {:induction false} NoDottedChange(a: Fields, b: Fields, diffs: seq<Diff>, paths: seq<Path>, p: Path)
    requires Works(a, b, diffs, paths) && !EmptyKeyDiffers(a, b) && Changed(a, b, p)
    ensures DotFree(p)
    decreases if DotFree(p) then 0 else |PlaceOf(p)|
  {
    if !DotFree(p) {
      var c := PlaceOf(p);
      ChangedPrefix(a, b, p, c);
      var i := Decides(a, b, diffs, paths, c);
      ReportSays(a, b, diffs, paths, i);
      var q := paths[i];
      TopOrNamed(a, b, q);
      KeyOfTop(q);
      if DotFree(q) {
        SplitJoin(q);
        ChangedApart(a, b, p, q);
      } else {
        ReadLonger(q);
        NoDottedChange(a, b, diffs, paths, q);
      }
    }
  }

  /** Both configurations hold an object under the empty key, and the two objects differ. Below an empty key the code
      builds keys as if it were not there. */
  predicate EmptyKeyDiffers(a: Fields, b: Fields) {
    "" in a && "" in b && a[""].Obj? && b[""].Obj? && a[""] != b[""]
  }

  lemma TopOrNamed(a: Fields, b: Fields, q: Path)
    requires Changed(a, b, q)
    ensures EmptyKeyDiffers(a, b) || |q| == 1 || q[0] != ""
    ensures EmptyKeyDiffers(a, b) && q[0] == "" ==> |q| > 1
  {
    if |q| > 1 {
      ChangedPrefix(a, b, q, [q[0]]);
    }
  }

  // ---------------------------------------------------------------- below the empty key

  // From here to EmptyKeyStays the lemmas argue from an assumption that EmptyKeyStays refutes: that the patch works
  // although the objects under the empty key differ.

  function Chain(n: nat): (p: Path)
    ensures |p| == n && DotFree(p) && forall i :: 0 <= i < n ==> p[i] == ""
  {
    seq(n, _ => "")
  }

  /** The number of empty keys p starts with. */
  function Lead(p: Path): (n: nat)
    ensures n <= |p| && p[..n] == Chain(n) && (n < |p| ==> p[n] != "")
  {
    if p == [] || p[0] != "" then 0
    else
      var n := 1 + Lead(p[1..]);
      assert p[..n] == [""] + p[1..][..n - 1];
      n
  }

  /** Leading empty keys do not show in the key of a path. */
  lemma {:induction false} KeyWithoutLead(p: Path)
    ensures KeyOf("", p) == if Lead(p) == |p| then "" else Join(p[Lead(p)..])
  {
    if p == [] {
    } else {
      if p[0] == "" {
        KeyWithoutLead(p[1..]);
        assert p[1..][Lead(p[1..])..] == p[Lead(p)..];
      } else {
        KeyOfTop(p);
        assert p[0..] == p;
      }
    }
  }

  /** A report that is read as a path under the empty key is about a path of empty keys, or about one where only empty
      keys come before a dotted one. */
  lemma UnderEmpty(a: Fields, b: Fields, diffs: seq<Diff>, paths: seq<Path>, i: nat) returns (n: nat, d: string)
    requires Works(a, b, diffs, paths) && EmptyKeyDiffers(a, b) && i < |diffs| && To(diffs, i)[0] == ""
    ensures To(diffs, i) == [""] ==> n > 1 && paths[i] == Chain(n)
    ensures To(diffs, i) != [""] ==> n > 0 && !NoDot(d) && Chain(n) + [d] <= paths[i]
  {
    ReportSays(a, b, diffs, paths, i);
    var p, s := paths[i], diffs[i].path;
    NoTopDotted(a, b, diffs, paths, p);
    TopOrNamed(a, b, p);
    KeyWithoutLead(p);
    n := Lead(p);
    if n == |p| {
      d := "";
      assert p[..n] == p;
    } else {
      d := p[n];
      assert s[0] == d[0];
      assert p[..n + 1] == Chain(n) + [d];
    }
  }

  /** The report of a path of empty keys. It is read as the empty key itself. */
  ghost predicate Whole(diffs: seq<Diff>) {
    exists i: nat :: i < |diffs| && To(diffs, i) == [""]
  }

  lemma ChainSum(l: nat, n: nat, d: string)
    requires n > 0
    ensures Chain(l) + (Chain(n) + [d])[1..] == Chain(l + n - 1) + [d]
  {
  }

  /** In a patch that works, b has nothing at a place below empty keys that is changed, or could be rewritten with all
      that is under the empty key: what decides the place would have to come from a larger such place, or a deeper one
      that holds the same. */
  lemma {:induction false} NothingThere(a: Fields, b: Fields, diffs: seq<Diff>, paths: seq<Path>, n: nat, d: string)
    requires Works(a, b, diffs, paths) && EmptyKeyDiffers(a, b) && n > 0 && !NoDot(d)
    requires Whole(diffs) || At(a, Chain(n) + [d]) != At(b, Chain(n) + [d])
    ensures At(b, Chain(n) + [d]) == None
    decreases Nesting(Obj(b)) - Held(b, Chain(n) + [d]), Nesting(Obj(b)) - n
  {
    var c := Chain(n) + [d];
    if At(b, c).Some? {
      PlaceFrom(Chain(n), d);
      NestingInside(Some(Obj(b)), c);
      var i := Decides(a, b, diffs, paths, c);
      assert Whole(diffs) ==> i >= 0;
      var r := To(diffs, i);
      assert r[0] == c[0];
      var l, e := UnderEmpty(a, b, diffs, paths, i);
      if r == [""] {
        AtPlus(b, Chain(l), c[1..]);
        ChainSum(l, n, d);
        NothingThere(a, b, diffs, paths, l + n - 1, d);
      } else {
        Larger(a, b, diffs, paths, i, l, e, c);
        NothingThere(a, b, diffs, paths, l, e);
      }
    }
  }

  ghost function Held(b: Fields, c: Path): nat {
    if At(b, c).Some? then Nesting(At(b, c).value) else 0
  }

  lemma Larger(a: Fields, b: Fields, diffs: seq<Diff>, paths: seq<Path>, i: nat, l: nat, e: string, c: Path)
    requires IsDiff(a, b, "", diffs, paths) && i < |diffs| && Chain(l) + [e] <= paths[i]
    requires At(b, c).Some? && |To(diffs, i)| < |c| && At(b, c) == Inside(At(b, paths[i]), c[|To(diffs, i)|..])
    ensures At(a, Chain(l) + [e]) != At(b, Chain(l) + [e])
    ensures At(b, Chain(l) + [e]).Some? && Held(b, c) < Held(b, Chain(l) + [e]) <= Nesting(Obj(b))
  {
    var q, c' := paths[i], Chain(l) + [e];
    ReportSays(a, b, diffs, paths, i);
    ChangedPrefix(a, b, q, c');
    NestingInside(At(b, q), c[|To(diffs, i)|..]);
    assert q == c' + q[|c'|..];
    AtPlus(b, c', q[|c'|..]);
    NestingInside(At(b, c'), q[|c'|..]);
    NestingInside(Some(Obj(b)), c');
  }

  /** So every report read as a path strictly under the empty key removes something. */
  lemma OnlyRemovals(a: Fields, b: Fields, diffs: seq<Diff>, paths: seq<Path>, i: nat)
    requires Works(a, b, diffs, paths) && EmptyKeyDiffers(a, b) && i < |diffs| && To(diffs, i)[0] == ""
      && To(diffs, i) != [""]
    ensures Target(diffs[i]) == None
  {
    var n, d := UnderEmpty(a, b, diffs, paths, i);
    var p, c := paths[i], Chain(n) + [d];
    ReportSays(a, b, diffs, paths, i);
    ChangedPrefix(a, b, p, c);
    NothingThere(a, b, diffs, paths, n, d);
    assert p == c + p[|c|..];
    AtPlus(b, c, p[|c|..]);
  }

  // ---------------------------------------------------------------- a difference below the empty key is never repaired

  /** What o has under the empty key is less than what b has there. */
  ghost predicate Smaller(o: Fields, b: Fields)
    requires "" in b
  {
    "" in o ==> Nesting(o[""]) < Nesting(b[""])
  }

  /** Rewriting the empty key as a whole leaves there a part of what b has there, or nothing. */
  lemma WholeIsSmaller(a: Fields, b: Fields, diffs: seq<Diff>, paths: seq<Path>, i: nat, o: Fields)
    requires Works(a, b, diffs, paths) && EmptyKeyDiffers(a, b) && i < |diffs| && To(diffs, i) == [""]
    ensures Smaller(Apply(o, diffs[i]), b)
  {
    var l, _ := UnderEmpty(a, b, diffs, paths, i);
    ReportSays(a, b, diffs, paths, i);
    assert Chain(l) == [""] + Chain(l - 1);
    AtPlus(b, [""], Chain(l - 1));
    if At(b, Chain(l)).Some? {
      NestingInside(Some(b[""]), Chain(l - 1));
    }
  }

  lemma RemovalStaysSmaller(o: Fields, b: Fields, r: Path)
    requires "" in b && Smaller(o, b) && |r| > 1 && r[0] == ""
    ensures Smaller(DeletePath(o, r), b)
  {
    if "" in o && o[""].Obj? {
      DeleteShrinks(o[""].fields, r[1..]);
    }
  }

  lemma {:induction false} StaysSmaller(a: Fields, b: Fields, diffs: seq<Diff>, paths: seq<Path>, v: nat, n: nat)
    requires Works(a, b, diffs, paths) && EmptyKeyDiffers(a, b) && v < n <= |diffs| && To(diffs, v) == [""]
    ensures Smaller(ApplyAll(a, diffs[..n]), b)
  {
    var i := n - 1;
    var o, r := ApplyAll(a, diffs[..i]), To(diffs, i);
    ApplySnoc(a, diffs, n);
    if r == [""] {
      WholeIsSmaller(a, b, diffs, paths, i, o);
    } else {
      StaysSmaller(a, b, diffs, paths, v, i);
      if r[0] == "" {
        OnlyRemovals(a, b, diffs, paths, i);
        RemovalStaysSmaller(o, b, r);
      }
    }
  }

  lemma {:induction false} StaysRemoved(a: Fields, b: Fields, diffs: seq<Diff>, paths: seq<Path>, j: nat, n: nat)
    requires Works(a, b, diffs, paths) && EmptyKeyDiffers(a, b) && !Whole(diffs)
    requires j < n <= |diffs| && To(diffs, j)[0] == ""
    ensures At(ApplyAll(a, diffs[..n]), To(diffs, j)) == None
  {
    var i := n - 1;
    var o, r, s := ApplyAll(a, diffs[..i]), To(diffs, i), To(diffs, j);
    ApplySnoc(a, diffs, n);
    if r[0] == "" {
      OnlyRemovals(a, b, diffs, paths, i);
    }
    if i == j {
      DeleteDeletes(o, s);
    } else {
      StaysRemoved(a, b, diffs, paths, j, i);
      if r[0] == "" {
        DeleteAdds(o, r, s);
      }
    }
  }

  /** If the empty key is not rewritten as a whole, nothing is written under it: the first change to be repaired there
      would need an object to be removed that b has. */
  lemma NothingWritten(a: Fields, b: Fields, diffs: seq<Diff>, paths: seq<Path>, i: nat)
    requires Works(a, b, diffs, paths) && EmptyKeyDiffers(a, b) && !Whole(diffs) && i < |diffs|
    ensures To(diffs, i)[0] != ""
  {
    if To(diffs, i)[0] == "" {
      var n, d := UnderEmpty(a, b, diffs, paths, i);
      var p, c := paths[i], Chain(n) + [d];
      ReportSays(a, b, diffs, paths, i);
      ChangedPrefix(a, b, p, c);
      PlaceFrom(Chain(n), d);
      var j := Decides(a, b, diffs, paths, c);
      var r := To(diffs, j);
      assert r[0] == c[0];
      StaysRemoved(a, b, diffs, paths, j, |diffs|);
      assert diffs[..|diffs|] == diffs;
      ChangedPrefix(a, b, p, r);
    }
  }

  lemma {:induction false} OthersLeave(a: Fields, diffs: seq<Diff>, n: nat)
    requires n <= |diffs| && forall i: nat :: i < |diffs| ==> To(diffs, i)[0] != ""
    ensures var o := ApplyAll(a, diffs[..n]); ("" in o <==> "" in a) && ("" in a ==> o[""] == a[""])
  {
    if n == 0 {
    } else {
      OthersLeave(a, diffs, n - 1);
      ApplySnoc(a, diffs, n);
      assert To(diffs, n - 1)[0] != "";
    }
  }

  lemma EmptyKeyStays(a: Fields, b: Fields, diffs: seq<Diff>, paths: seq<Path>)
    requires Works(a, b, diffs, paths)
    ensures !EmptyKeyDiffers(a, b)
  {
    if EmptyKeyDiffers(a, b) {
      assert diffs[..|diffs|] == diffs;
      if Whole(diffs) {
        var v: nat :| v < |diffs| && To(diffs, v) == [""];
        StaysSmaller(a, b, diffs, paths, v, |diffs|);
      } else {
        forall i: nat | i < |diffs| ensures To(diffs, i)[0] != "" {
          NothingWritten(a, b, diffs, paths, i);
        }
        OthersLeave(a, diffs, |diffs|);
      }
    }
  }

  /** For all configurations: applying the differences of a and b to a, in the order reported, gives b if and only if
      every changed path is addressable. */
  lemma PatchWorksIff(a: Fields, b: Fields, diffs: seq<Diff>, paths: seq<Path>)
    requires IsDiff(a, b, "", diffs, paths)
    ensures ApplyAll(a, diffs) == b <==> forall p :: Changed(a, b, p) ==> Addressable(p)
  {
    if ApplyAll(a, diffs) == b {
      EmptyKeyStays(a, b, diffs, paths);
      forall p | Changed(a, b, p) ensures Addressable(p) {
        NoDottedChange(a, b, diffs, paths, p);
        TopOrNamed(a, b, p);
      }
    } else if forall p :: Changed(a, b, p) ==> Addressable(p) {
      PatchWorks(a, b, diffs, paths);
    }
  }

  // ---------------------------------------------------------------- undoing a change of configuration

  /** The difference the other way: additions and removals exchanged, and old and new values. */
  function Undo(d: Diff): Diff {
    match d
    case Added(path, newValue) => Removed(path, newValue)
    case Removed(path, oldValue) => Added(path, oldValue)
    case Modified(path, oldValue, newValue) => Modified(path, newValue, oldValue)
  }

  function UndoAll(diffs: seq<Diff>): (r: seq<Diff>)
    ensures |r| == |diffs| && forall i :: 0 <= i < |r| ==> r[i] == Undo(diffs[i])
  {
    seq(|diffs|, i requires 0 <= i < |diffs| => Undo(diffs[i]))
  }

  lemma {:induction false} ChangedBack(a: Fields, b: Fields, p: Path)
    ensures Changed(a, b, p) <==> Changed(b, a, p)
    decreases |p|
  {
    if p == [] {
    } else if p[0] in a && p[0] in b && a[p[0]].Obj? && b[p[0]].Obj? {
      ChangedBack(a[p[0]].fields, b[p[0]].fields, p[1..]);
    }
  }

  /** The report of a and b, undone, is a report of b and a. */
  lemma UndoneIsDiff(a: Fields, b: Fields, diffs: seq<Diff>, paths: seq<Path>)
    requires IsDiff(a, b, "", diffs, paths)
    ensures IsDiff(b, a, "", UndoAll(diffs), paths)
  {
    forall p ensures Changed(a, b, p) <==> Changed(b, a, p) {
      ChangedBack(a, b, p);
    }
    forall i | 0 <= i < |diffs| ensures Says(b, a, "", UndoAll(diffs)[i], paths[i]) {
      assert Says(a, b, "", diffs[i], paths[i]);
    }
  }

  /** The old values suffice to go back, under the same condition: applying the undone report to b gives a if and only
      if every changed path is addressable. */
  lemma UndoWorksIff(a: Fields, b: Fields, diffs: seq<Diff>, paths: seq<Path>)
    requires IsDiff(a, b, "", diffs, paths)
    ensures ApplyAll(b, UndoAll(diffs)) == a <==> forall p :: Changed(a, b, p) ==> Addressable(p)
  {
    UndoneIsDiff(a, b, diffs, paths);
    PatchWorksIff(b, a, UndoAll(diffs), paths);
    forall p ensures Changed(a, b, p) <==> Changed(b, a, p) {
      ChangedBack(a, b, p);
    }
  }

  // ---------------------------------------------------------------- dot-free keys

  lemma {:induction false} ChangedClean(a: Fields, b: Fields, p: Path)
    requires CleanKeys(a) && CleanKeys(b) && Changed(a, b, p)
    ensures DotFree(p)
    decreases |p|
  {
    if p[0] in a && p[0] in b && a[p[0]].Obj? && b[p[0]].Obj? {
      ChangedClean(a[p[0]].fields, b[p[0]].fields, p[1..]);
      assert p == [p[0]] + p[1..];
    }
  }

  /** For configurations with dot-free keys the patch gives b if and only if it is not so that both hold an object
      under the empty key and these objects differ. */
  lemma DotFreePatchIff(a: Fields, b: Fields, diffs: seq<Diff>, paths: seq<Path>)
    requires IsDiff(a, b, "", diffs, paths) && CleanKeys(a) && CleanKeys(b)
    ensures ApplyAll(a, diffs) == b <==> !EmptyKeyDiffers(a, b)
  {
    if EmptyKeyDiffers(a, b) {
      if ApplyAll(a, diffs) == b {
        EmptyKeyStays(a, b, diffs, paths);
      }
    } else {
      forall p | Changed(a, b, p) ensures Addressable(p) {
        ChangedClean(a, b, p);
        TopOrNamed(a, b, p);
      }
      PatchWorks(a, b, diffs, paths);
    }
  }
}
