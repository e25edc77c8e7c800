/** The entries of a directory snapshot (`FileItem`, `Tree` in
    mergetree/mergetree.py) as values. */
module MergeEntry {
  import opened Common

  /** What `S_ISDIR` / `S_ISREG` make of an `lstat` mode: symbolic links,
      devices, sockets and fifos are all `Special`. */
  datatype Kind = Directory | Regular | Special

  /** The part of an `lstat` result the merge looks at; `st_mtime` is kept
      as an integer. */
  datatype Stat = Stat(kind: Kind, dev: nat, ino: nat, mtime: int, size: nat)

  /** One directory entry: `dir` is relative to `base` and starts with the
      separator (or is empty at the top), `subtree` is attached to
      directories only. */
  datatype FileItem = FileItem(base: string, dir: string, name: string, st: Stat, subtree: Option<Tree>)

  /** One directory level; `entries` are sorted by name. */
  datatype Tree = Tree(base: string, entries: seq<FileItem>)

  /** `FileItem.subpath`: the entry's path relative to its tree's root. */
  function Subpath(f: FileItem): string
  {
    f.dir + [Sep] + f.name
  }

  /** `FileItem.path(base)`: the entry's path under `base`; an empty
      (falsy) `base` falls back to the entry's own root. */
  function Path(f: FileItem, base: string): string
  {
    (if base == "" then f.base else base) + Subpath(f)
  }

  predicate IsDir(f: FileItem) { f.st.kind == Directory }

  predicate IsReg(f: FileItem) { f.st.kind == Regular }

  /** `is_sameinode`: same device and same inode, i.e. hard links. */
  predicate IsSameInode(f: FileItem, o: FileItem)
  {
    f.st.dev == o.st.dev && f.st.ino == o.st.ino
  }

  /** An entry moved from its own root to another root keeps its subpath:
      the source and the destination differ exactly in the root prefix. */
  lemma {:induction false} PathRebase(f: FileItem, base: string)
    requires base != ""
    ensures Path(f, "") == f.base + Subpath(f)
    ensures Path(f, base) == base + Subpath(f)
    ensures Path(f, base)[|base|..] == Path(f, "")[|f.base|..]
  {
  }

  /** What the comparator needs of a snapshot: every directory entry carries
      its subtree, recursively. */
  predicate ShapedItem(f: FileItem)
    decreases f
  {
    (IsDir(f) ==> f.subtree.Some?) && (f.subtree.Some? ==> Shaped(f.subtree.value.entries))
  }

  predicate Shaped(s: seq<FileItem>)
    decreases s
  {
    forall i :: 0 <= i < |s| ==> ShapedItem(s[i])
  }

  /** Names strictly ascending in Python's string order. */
  predicate NamesAscending(s: seq<FileItem>)
  {
    forall i, j :: 0 <= i < j < |s| ==> Less(s[i].name, s[j].name)
  }

  /** A snapshot of directory `d` under `t.base` as `Tree.__init__` builds
      it: names ascending, and every entry as `ValidEntries` says. */
  predicate ValidTree(t: Tree, d: string)
    decreases t, 1
  {
    NamesAscending(t.entries) && ValidEntries(t.entries, t.base, d)
  }

  /** Every entry is rooted at `base` in directory `d`, carries a subtree
      exactly when it is a directory, and that subtree is the snapshot of
      `d + sep + name` under the same root. */
  predicate ValidEntries(s: seq<FileItem>, base: string, d: string)
    decreases s, 0
  {
    forall i :: 0 <= i < |s| ==>
      && s[i].base == base
      && s[i].dir == d
      && (s[i].subtree.Some? <==> IsDir(s[i]))
      && (s[i].subtree.Some? ==>
            s[i].subtree.value.base == base && ValidTree(s[i].subtree.value, d + [Sep] + s[i].name))
  }

  lemma {:induction false} ValidShaped(s: seq<FileItem>, base: string, d: string)
    requires ValidEntries(s, base, d)
    ensures Shaped(s)
    decreases s
  {
    forall i | 0 <= i < |s|
      ensures ShapedItem(s[i])
    {
      if s[i].subtree.Some? {
        var t := s[i].subtree.value;
        ValidShaped(t.entries, t.base, d + [Sep] + s[i].name);
      }
    }
  }

  /** Number of entries in an entry and everything below it. */
  function ItemSize(f: FileItem): (n: nat)
    ensures n >= 1
    decreases f
  {
    1 + (match f.subtree case Some(t) => Size(t.entries) case None => 0)
  }

  /** Number of entries in a sibling list and everything below it. */
  function Size(s: seq<FileItem>): nat
    decreases s
  {
    if s == [] then 0 else ItemSize(s[0]) + Size(s[1..])
  }

  lemma {:induction false} SizeAppend(s: seq<FileItem>, f: FileItem)
    ensures Size(s + [f]) == Size(s) + ItemSize(f)
  {
    if s == [] {
      assert [f][1..] == [];
    } else {
      assert (s + [f])[1..] == s[1..] + [f];
      SizeAppend(s[1..], f);
    }
  }

  lemma {:induction false} ItemSizeBound(s: seq<FileItem>, i: nat)
    requires i < |s|
    ensures ItemSize(s[i]) <= Size(s)
  {
    if i > 0 {
      ItemSizeBound(s[1..], i - 1);
    }
  }

  lemma {:induction false} SizeSuffix(s: seq<FileItem>, i: nat)
    requires i < |s|
    ensures Size(s[i..]) == ItemSize(s[i]) + Size(s[i + 1..])
  {
    assert s[i..][1..] == s[i + 1..];
  }
}
