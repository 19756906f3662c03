/** Small datatypes and sequence facts shared by the other modules. */
module Common {
  datatype Option<+T> = None | Some(value: T)

  ghost predicate NoDuplicates<T>(s: seq<T>) {
    forall i, j :: 0 <= i < j < |s| ==> s[i] != s[j]
  }

  function Elements<T(==)>(s: seq<T>): set<T> {
    set x | x in s
  }

  lemma {:induction false} DistinctSize<T>(s: seq<T>)
    requires NoDuplicates(s)
    ensures |Elements(s)| == |s|
  {
    if s == [] {
      assert Elements(s) == {};
    } else {
      var front, x := s[..|s| - 1], s[|s| - 1];
      DistinctSize(front);
      assert s == front + [x];
      assert Elements(s) == Elements(front) + {x};
      assert x !in Elements(front);
    }
  }

  // ---------------------------------------------------------------- sequences without some of their elements

  /** s without the elements of gone, in the same order. */
  function Drop<T(==)>(s: seq<T>, gone: set<T>): seq<T> {
    if s == [] then [] else
      var rest := Drop(s[..|s| - 1], gone);
      if s[|s| - 1] in gone then rest else rest + [s[|s| - 1]]
  }

  lemma {:induction false} DropMembers<T>(s: seq<T>, gone: set<T>)
    ensures forall x :: x in Drop(s, gone) ==> x in s && x !in gone
    ensures forall x :: x in s && x !in gone ==> x in Drop(s, gone)
  {
    if s == [] {
    } else {
      DropMembers(s[..|s| - 1], gone);
      assert s == s[..|s| - 1] + [s[|s| - 1]];
    }
  }

  lemma {:induction false} DropAppend<T>(s: seq<T>, t: seq<T>, gone: set<T>)
    ensures Drop(s + t, gone) == Drop(s, gone) + Drop(t, gone)
  {
    if t == [] {
      assert s + t == s;
    } else {
      var n := |t| - 1;
      assert (s + t)[..|s + t| - 1] == s + t[..n];
      DropAppend(s, t[..n], gone);
    }
  }

  lemma {:induction false} DropDrop<T>(s: seq<T>, a: set<T>, b: set<T>)
    ensures Drop(Drop(s, a), b) == Drop(s, a + b)
  {
    if s == [] {
    } else {
      DropDrop(s[..|s| - 1], a, b);
      var rest, x := Drop(s[..|s| - 1], a), s[|s| - 1];
      if x !in a {
        DropAppend(rest, [x], b);
        assert [x][..0] == [];
      }
    }
  }

  lemma {:induction false} DropNone<T>(s: seq<T>, gone: set<T>)
    requires forall x :: x in s ==> x !in gone
    ensures Drop(s, gone) == s
  {
    if s == [] {
    } else {
      assert s == s[..|s| - 1] + [s[|s| - 1]];
      DropNone(s[..|s| - 1], gone);
    }
  }

  lemma {:induction false} DropAll<T>(s: seq<T>, gone: set<T>)
    requires forall x :: x in s ==> x in gone
    ensures Drop(s, gone) == []
  {
    if s == [] {
    } else {
      assert s == s[..|s| - 1] + [s[|s| - 1]];
      DropAll(s[..|s| - 1], gone);
    }
  }

  lemma {:induction false} DropDistinct<T>(s: seq<T>, gone: set<T>)
    requires NoDuplicates(s)
    ensures NoDuplicates(Drop(s, gone))
  {
    if s == [] {
    } else {
      DropDistinct(s[..|s| - 1], gone);
      DropMembers(s[..|s| - 1], gone);
      assert s[|s| - 1] !in s[..|s| - 1];
    }
  }

  /** Cutting out position i of a duplicate-free order drops the key found there. */
  lemma {:induction false} DropAt<T>(s: seq<T>, i: nat)
    requires NoDuplicates(s) && i < |s|
    ensures Drop(s, {s[i]}) == s[..i] + s[i + 1..]
  {
    assert s == s[..i] + [s[i]] + s[i + 1..];
    DropAppend(s[..i] + [s[i]], s[i + 1..], {s[i]});
    DropAppend(s[..i], [s[i]], {s[i]});
    assert [s[i]][..0] == [];
    DropNone(s[..i], {s[i]});
    DropNone(s[i + 1..], {s[i]});
  }

  lemma DropHead<T>(s: seq<T>, gone: set<T>)
    requires s != [] && s[0] !in gone
    ensures Drop(s, gone) != [] && Drop(s, gone)[0] == s[0]
  {
    assert s == [s[0]] + s[1..];
    DropAppend([s[0]], s[1..], gone);
    assert [s[0]][..0] == [];
  }

  // ---------------------------------------------------------------- settled promises

  /** The promise of a numbered task has been settled, once. */
  datatype Settlement<+O> = Settlement(task: nat, outcome: O)

  function SettledTasks<O>(settled: seq<Settlement<O>>): (r: seq<nat>)
    ensures |r| == |settled| && forall i :: 0 <= i < |r| ==> r[i] == settled[i].task
  {
    seq(|settled|, i requires 0 <= i < |settled| => settled[i].task)
  }

  lemma SettledAppend<O>(settled: seq<Settlement<O>>, more: seq<Settlement<O>>)
    ensures SettledTasks(settled + more) == SettledTasks(settled) + SettledTasks(more)
  {
  }
}
