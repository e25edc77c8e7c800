/** Building the snapshot of a directory tree (`Tree.__init__` and
    `Tree._traverse` in mergetree/mergetree.py). The file system is a
    value: a node carries its `lstat` result and, for a directory, its
    listing in the order `os.listdir` returns it. */
module MergeSnapshot {
  import opened Common
  import opened MergeEntry
  import opened MergeProgress

  /** A file-system object: its `lstat` result and the (name, object)
      pairs `os.listdir` reports for it. */
  datatype FsNode = FsNode(st: Stat, children: seq<(string, FsNode)>)

  /** The names of a listing, in listing order. */
  function Names(cs: seq<(string, FsNode)>): (r: seq<string>)
    ensures |r| == |cs| && forall i :: 0 <= i < |cs| ==> r[i] == cs[i].0
  {
    seq(|cs|, i requires 0 <= i < |cs| => cs[i].0)
  }

  predicate Distinct(s: seq<string>)
  {
    forall i, j :: 0 <= i < j < |s| ==> s[i] != s[j]
  }

  /** What a real file system guarantees: no directory lists a name twice. */
  predicate WellFormed(n: FsNode)
    decreases n
  {
    Distinct(Names(n.children))
    && forall i :: 0 <= i < |n.children| ==> WellFormed(n.children[i].1)
  }

  /** Where `name` is listed (the first place). */
  function Find(cs: seq<(string, FsNode)>, name: string): (i: nat)
    requires name in Names(cs)
    ensures i < |cs| && cs[i].0 == name
    ensures forall k :: 0 <= k < i ==> cs[k].0 != name
  {
    if cs[0].0 == name then 0
    else
      assert name in Names(cs[1..]) by {
        var k :| 0 <= k < |cs| && Names(cs)[k] == name;
        assert Names(cs[1..])[k - 1] == name;
      }
      1 + Find(cs[1..], name)
  }

  // ---------------------------------------------------------------------
  // `l.sort()`
  // ---------------------------------------------------------------------

  /** Ascending in Python's str order (no later name is smaller). */
  predicate Sorted(s: seq<string>)
  {
    forall i, j :: 0 <= i < j < |s| ==> !Less(s[j], s[i])
  }

  function Insert(x: string, s: seq<string>): (r: seq<string>)
    requires Sorted(s)
    ensures Sorted(r) && multiset(r) == multiset(s) + multiset{x}
    ensures forall k :: 0 <= k < |r| ==> r[k] == x || r[k] in s
  {
    if s == [] then [x]
    else if !Less(s[0], x) then
      InsertFirst(x, s);
      [x] + s
    else
      var r' := Insert(x, s[1..]);
      InsertLater(x, s, r');
      [s[0]] + r'
  }

  /** `x` goes in front of a head that does not sort before it. */
  lemma {:induction false} InsertFirst(x: string, s: seq<string>)
    requires Sorted(s) && s != [] && !Less(s[0], x)
    ensures Sorted([x] + s) && multiset([x] + s) == multiset(s) + multiset{x}
  {
    forall k | 0 < k < |s|
      ensures !Less(s[k], x)
    {
      LessTotal(s[0], s[k]);
      if Less(s[0], s[k]) && Less(s[k], x) {
        LessTransitive(s[0], s[k], x);
      }
    }
    SortedCons(x, s);
  }

  /** `x` goes after a head that sorts before it. */
  lemma {:induction false} InsertLater(x: string, s: seq<string>, r': seq<string>)
    requires Sorted(s) && s != [] && Less(s[0], x)
    requires Sorted(r') && multiset(r') == multiset(s[1..]) + multiset{x}
    requires forall k :: 0 <= k < |r'| ==> r'[k] == x || r'[k] in s[1..]
    ensures Sorted([s[0]] + r') && multiset([s[0]] + r') == multiset(s) + multiset{x}
    ensures forall k :: 0 <= k < |[s[0]] + r'| ==> ([s[0]] + r')[k] == x || ([s[0]] + r')[k] in s
  {
    LessAsymmetric(s[0], x);
    forall k | 0 <= k < |r'|
      ensures !Less(r'[k], s[0])
    {
      if r'[k] != x {
        var j :| 1 <= j < |s| && s[j] == r'[k];
      }
    }
    SortedCons(s[0], r');
    assert s == [s[0]] + s[1..];
  }

  /** A head that nothing after it sorts before keeps the order. */
  lemma {:induction false} SortedCons(h: string, t: seq<string>)
    requires Sorted(t) && forall k :: 0 <= k < |t| ==> !Less(t[k], h)
    ensures Sorted([h] + t)
  {
    var r := [h] + t;
    forall i, j | 0 <= i < j < |r|
      ensures !Less(r[j], r[i])
    {
      assert r[j] == t[j - 1];
      if i > 0 {
        assert r[i] == t[i - 1];
      }
    }
  }

  /** `l.sort()` on a list of names, as an insertion sort. */
  function SortNames(ns: seq<string>): (r: seq<string>)
    ensures Sorted(r) && multiset(r) == multiset(ns)
    ensures forall k :: 0 <= k < |r| ==> r[k] in ns
  {
    if ns == [] then []
    else
      assert ns == [ns[0]] + ns[1..];
      Insert(ns[0], SortNames(ns[1..]))
  }

  lemma {:induction false} InsertDistinct(x: string, s: seq<string>)
    requires Sorted(s) && Distinct(s) && x !in s
    ensures Distinct(Insert(x, s))
  {
    if s != [] && Less(s[0], x) {
      InsertDistinct(x, s[1..]);
      var r := Insert(x, s);
      forall k | 1 <= k < |r|
        ensures r[k] != s[0]
      {
        assert r[k] == x || r[k] in s[1..];
      }
    }
  }

  lemma {:induction false} SortDistinct(ns: seq<string>)
    requires Distinct(ns)
    ensures Distinct(SortNames(ns))
  {
    if ns != [] {
      SortDistinct(ns[1..]);
      assert ns[0] !in SortNames(ns[1..]);
      InsertDistinct(ns[0], SortNames(ns[1..]));
    }
  }

  /** Sorted distinct names are strictly ascending. */
  lemma {:induction false} SortedDistinctAscending(s: seq<string>)
    requires Sorted(s) && Distinct(s)
    ensures forall i, j :: 0 <= i < j < |s| ==> Less(s[i], s[j])
  {
    forall i, j | 0 <= i < j < |s|
      ensures Less(s[i], s[j])
    {
      LessTotal(s[i], s[j]);
    }
  }

  // ---------------------------------------------------------------------
  // The snapshot as a function
  // ---------------------------------------------------------------------

  /** `Tree(base, d)`: the entries of directory node `n`, which is the
      object at `base + d`, in ascending name order. */
  function Snapshot(n: FsNode, base: string, d: string): Tree
    decreases n, 2
  {
    Tree(base, Items(n, SortNames(Names(n.children)), base, d))
  }

  /** The entries `_traverse` has appended after visiting the names `ns`. */
  function Items(n: FsNode, ns: seq<string>, base: string, d: string): seq<FileItem>
    requires forall k :: 0 <= k < |ns| ==> ns[k] in Names(n.children)
    decreases n, 1, |ns|
  {
    if ns == [] then []
    else Items(n, ns[..|ns| - 1], base, d) + [Item(n, ns[|ns| - 1], base, d)]
  }

  /** `FileItem(base, d, name)` with its `lstat`, and for a directory the
      subtree `Tree(base, d + sep + name)`. */
  function Item(n: FsNode, name: string, base: string, d: string): FileItem
    requires name in Names(n.children)
    decreases n, 0
  {
    var c := n.children[Find(n.children, name)].1;
    FileItem(base, d, name, c.st,
             if c.st.kind == Directory then Some(Snapshot(c, base, d + [Sep] + name)) else None)
  }

  lemma {:induction false} ItemsNames(n: FsNode, ns: seq<string>, base: string, d: string)
    requires forall k :: 0 <= k < |ns| ==> ns[k] in Names(n.children)
    ensures |Items(n, ns, base, d)| == |ns|
    ensures forall k :: 0 <= k < |ns| ==> Items(n, ns, base, d)[k] == Item(n, ns[k], base, d)
    decreases |ns|
  {
    if ns != [] {
      ItemsNames(n, ns[..|ns| - 1], base, d);
    }
  }

  /** Visiting one more name appends its entry. */
  lemma {:induction false} ItemsSnoc(n: FsNode, ns: seq<string>, i: nat, base: string, d: string)
    requires i < |ns| && forall k :: 0 <= k < |ns| ==> ns[k] in Names(n.children)
    ensures Items(n, ns[..i + 1], base, d) == Items(n, ns[..i], base, d) + [Item(n, ns[i], base, d)]
  {
    var visited := ns[..i + 1];
    assert visited[..|visited| - 1] == ns[..i] && visited[|visited| - 1] == ns[i];
  }

  /** One entry of the snapshot: the listed object's `lstat`, rooted at
      `base` in directory `d`, with the snapshot of `d + sep + name`
      attached exactly when the object is a directory. */
  lemma {:induction false} ItemShape(n: FsNode, name: string, base: string, d: string)
    requires name in Names(n.children)
    ensures var f := Item(n, name, base, d);
            var c := n.children[Find(n.children, name)].1;
            && f.base == base && f.dir == d && f.name == name && f.st == c.st
            && (f.subtree.Some? <==> IsDir(f))
            && (f.subtree.Some? ==> f.subtree.value == Snapshot(c, base, d + [Sep] + name))
  {
  }

  /** The snapshot of a well-formed directory lists each of its names
      exactly once, in strictly ascending order, and every entry is as
      `ValidTree` says: rooted at `base`, in directory `d`, with the
      snapshot of its own directory attached exactly when it is one. */
  lemma {:induction false} SnapshotValid(n: FsNode, base: string, d: string)
    requires WellFormed(n)
    ensures ValidTree(Snapshot(n, base, d), d)
    ensures var s := Snapshot(n, base, d).entries;
            |s| == |n.children|
            && multiset(seq(|s|, i requires 0 <= i < |s| => s[i].name)) == multiset(Names(n.children))
    decreases n
  {
    var ns := SortNames(Names(n.children));
    var s := Snapshot(n, base, d).entries;
    assert s == Items(n, ns, base, d);
    ItemsNames(n, ns, base, d);
    assert |ns| == |n.children| by {
      assert |multiset(ns)| == |multiset(Names(n.children))|;
    }
    forall i | 0 <= i < |s|
      ensures s[i].name == ns[i]
      ensures s[i].base == base && s[i].dir == d && (s[i].subtree.Some? <==> IsDir(s[i]))
      ensures s[i].subtree.Some? ==>
                s[i].subtree.value.base == base && ValidTree(s[i].subtree.value, d + [Sep] + s[i].name)
    {
      ItemShape(n, ns[i], base, d);
      if s[i].subtree.Some? {
        var c := n.children[Find(n.children, ns[i])].1;
        SnapshotValid(c, base, d + [Sep] + ns[i]);
      }
    }
    assert seq(|s|, i requires 0 <= i < |s| => s[i].name) == ns;
    SortDistinct(Names(n.children));
    SortedDistinctAscending(ns);
    assert NamesAscending(s) by {
      forall i, j | 0 <= i < j < |s|
        ensures Less(s[i].name, s[j].name)
      {
        assert s[i].name == ns[i] && s[j].name == ns[j];
      }
    }
    assert ValidEntries(s, base, d);
    assert Snapshot(n, base, d) == Tree(base, s);
  }

  // ---------------------------------------------------------------------
  // The traversal
  // ---------------------------------------------------------------------

  /** `Tree.__init__(base, d)` with `_traverse`: list the directory, sort
      the names, and visit each name in turn. The result is the snapshot,
      and the reporter has counted every entry of the whole subtree once;
      its invariant then says that its lines since the mark are the ticks
      of all the counts up to the new one. */
  method BuildTree(n: FsNode, base: string, d: string, progress: ProgressReporter) returns (t: Tree)
    requires progress.Valid()
    modifies progress
    ensures t == Snapshot(n, base, d)
    ensures progress.Valid() && progress.heading == old(progress.heading)
    ensures progress.mark == old(progress.mark) && progress.from == old(progress.from)
    ensures progress.count == old(progress.count) + (if progress.active then Size(t.entries) else 0)
    decreases n, 1
  {
    var names := SortNames(Names(n.children));
    var entries: seq<FileItem> := [];
    var i := 0;
    while i < |names|
      invariant 0 <= i <= |names|
      invariant entries == Items(n, names[..i], base, d)
      invariant progress.Valid() && progress.heading == old(progress.heading)
      invariant progress.mark == old(progress.mark) && progress.from == old(progress.from)
      invariant progress.count == old(progress.count) + (if progress.active then Size(entries) else 0)
    {
      var f := VisitEntry(n, names[i], base, d, progress);
      ItemsSnoc(n, names, i, base, d);
      SizeAppend(entries, f);
      entries := entries + [f];
      i := i + 1;
    }
    assert names[..i] == names;
    t := Tree(base, entries);
  }

  /** One turn of the `_traverse` loop: count the entry, take its `lstat`
      and, for a directory, build its subtree. */
  method VisitEntry(n: FsNode, name: string, base: string, d: string, progress: ProgressReporter)
    returns (f: FileItem)
    requires name in Names(n.children) && progress.Valid()
    modifies progress
    ensures f == Item(n, name, base, d)
    ensures progress.Valid() && progress.heading == old(progress.heading)
    ensures progress.mark == old(progress.mark) && progress.from == old(progress.from)
    ensures progress.count == old(progress.count) + (if progress.active then ItemSize(f) else 0)
    decreases n, 0
  {
    progress.Increment();
    var c := n.children[Find(n.children, name)].1;
    var sub: Option<Tree> := None;
    if c.st.kind == Directory {
      var t := BuildTree(c, base, d + [Sep] + name, progress);
      sub := Some(t);
    }
    f := FileItem(base, d, name, c.st, sub);
  }
}
