/** `FileNode` and `FileStore` of hdupes/hdupes.py: the store keeps one node
    per inode, keyed by `(st_dev, st_ino)`. The first path seen for an inode
    makes its node; every later path to the same inode is recorded as a
    link of that node instead. */
module HdupesStore {
  import opened Common

  /** The fields of an `lstat` result the store looks at; `regular` is
      `S_ISREG(st_mode)`. */
  datatype FileStat = FileStat(dev: int, ino: int, size: int, regular: bool)

  /** `(st_dev, st_ino)`: what identifies an inode. */
  type Key = (int, int)

  function KeyOf(st: FileStat): Key
  {
    (st.dev, st.ino)
  }

  /** One inode: the path it was first seen under, its `lstat` result and
      the other paths to it, in the order they were added. */
  class FileNode {
    const path: string
    const stat: FileStat
    var linked: seq<string>

    constructor (path: string, stat: FileStat)
      ensures this.path == path && this.stat == stat && linked == []
    {
      this.path := path;
      this.stat := stat;
      linked := [];
    }

    /** `link(path)`: one more path to this inode. */
    method Link(p: string)
      modifies this
      ensures linked == old(linked) + [p]
    {
      linked := linked + [p];
    }
  }

  // ---------------------------------------------------------------------
  // The store's contents as a value
  // ---------------------------------------------------------------------

  datatype NodeView = NodeView(path: string, linked: seq<string>)

  /** The keys in the order the dict holds them (insertion order), and
      each key's node. */
  datatype StoreView = StoreView(order: seq<Key>, nodes: map<Key, NodeView>)

  predicate DistinctKeys(ks: seq<Key>)
  {
    forall i, j :: 0 <= i < j < |ks| ==> ks[i] != ks[j]
  }

  /** The dict's key order lists each stored key once and nothing else. */
  ghost predicate Ordered(order: seq<Key>, keys: set<Key>)
  {
    DistinctKeys(order) && forall k :: k in order <==> k in keys
  }

  /** `add(path, stat)` on the contents: a new key gets a node of its own
      at the end of the order; a known key's node gets one more link. */
  function Added(v: StoreView, path: string, st: FileStat): StoreView
  {
    var k := KeyOf(st);
    if k in v.nodes then
      StoreView(v.order, v.nodes[k := NodeView(v.nodes[k].path, v.nodes[k].linked + [path])])
    else
      StoreView(v.order + [k], v.nodes[k := NodeView(path, [])])
  }

  /** `add_file(path, stat)`: only a regular file is added. */
  function AddedFile(v: StoreView, path: string, st: FileStat): StoreView
  {
    if st.regular then Added(v, path, st) else v
  }

  /** The contents after adding `adds`, in order, to an empty store. */
  function Store(adds: seq<(string, FileStat)>): StoreView
  {
    if adds == [] then StoreView([], map[])
    else Added(Store(adds[..|adds| - 1]), adds[|adds| - 1].0, adds[|adds| - 1].1)
  }

  /** The paths among `adds` whose inode is `k`, in order. */
  function PathsOf(adds: seq<(string, FileStat)>, k: Key): (ps: seq<string>)
    ensures |ps| <= |adds|
  {
    if adds == [] then []
    else
      var last := adds[|adds| - 1];
      PathsOf(adds[..|adds| - 1], k) + (if KeyOf(last.1) == k then [last.0] else [])
  }

  /** A new key at the end keeps the order exact. */
  lemma {:induction false} OrderedSnoc(order: seq<Key>, keys: set<Key>, k: Key)
    requires Ordered(order, keys) && k !in keys
    ensures Ordered(order + [k], keys + {k})
  {
  }

  /** Adding keeps the key order exact. */
  lemma {:induction false} AddedOrdered(v: StoreView, path: string, st: FileStat)
    requires Ordered(v.order, v.nodes.Keys)
    ensures Ordered(Added(v, path, st).order, Added(v, path, st).nodes.Keys)
  {
  }

  /** After any run of adds the store holds one node per inode added: the
      key order lists each added inode exactly once. */
  lemma {:induction false} StoreOrdered(adds: seq<(string, FileStat)>)
    ensures Ordered(Store(adds).order, Store(adds).nodes.Keys)
  {
    if adds != [] {
      StoreOrdered(adds[..|adds| - 1]);
      AddedOrdered(Store(adds[..|adds| - 1]), adds[|adds| - 1].0, adds[|adds| - 1].1);
    }
  }

  /** After any run of adds, an inode has a node exactly when some path to
      it was added; the node's path is the first such path and its links
      are all the later ones, in the order they were added. */
  lemma {:induction false} StoreNodes(adds: seq<(string, FileStat)>, k: Key)
    ensures k in Store(adds).nodes <==> PathsOf(adds, k) != []
    ensures k in Store(adds).nodes ==>
              Store(adds).nodes[k] == NodeView(PathsOf(adds, k)[0], PathsOf(adds, k)[1..])
  {
    if adds != [] {
      var init := adds[..|adds| - 1];
      StoreNodes(init, k);
      var ps := PathsOf(init, k);
      if ps != [] {
        assert (ps + [adds[|adds| - 1].0])[1..] == ps[1..] + [adds[|adds| - 1].0];
      }
    }
  }

  /** Adding a path whose inode is stored returns no node and changes only
      that node's links. */
  lemma {:induction false} AddedKnown(v: StoreView, path: string, st: FileStat)
    requires KeyOf(st) in v.nodes
    ensures var w := Added(v, path, st);
            && w.order == v.order && w.nodes.Keys == v.nodes.Keys
            && w.nodes[KeyOf(st)].path == v.nodes[KeyOf(st)].path
            && w.nodes[KeyOf(st)].linked == v.nodes[KeyOf(st)].linked + [path]
            && forall k :: k in v.nodes && k != KeyOf(st) ==> w.nodes[k] == v.nodes[k]
  {
  }

  // ---------------------------------------------------------------------
  // The store object
  // ---------------------------------------------------------------------

  /** Each node sits under its own inode, and the key order is exact. */
  ghost predicate Keyed(store: map<Key, FileNode>, order: seq<Key>)
  {
    Ordered(order, store.Keys) && forall k :: k in store ==> KeyOf(store[k].stat) == k
  }

  /** `Keyed`, every node is in `repr`, and `contents` is what the nodes
      say. */
  ghost predicate Holds(store: map<Key, FileNode>, order: seq<Key>, contents: StoreView, repr: set<FileNode>)
    reads repr
  {
    && Keyed(store, order)
    && contents.order == order && contents.nodes.Keys == store.Keys
    && forall k :: k in store ==>
         store[k] in repr && contents.nodes[k] == NodeView(store[k].path, store[k].linked)
  }

  /** Storing a fresh node for a new inode keeps the store consistent. */
  lemma {:induction false} InsertHolds(store: map<Key, FileNode>, order: seq<Key>, contents: StoreView, repr: set<FileNode>,
                    n: FileNode, path: string, st: FileStat)
    requires Holds(store, order, contents, repr) && KeyOf(st) !in store && n !in repr
    requires n.path == path && n.stat == st && n.linked == []
    ensures Holds(store[KeyOf(st) := n], order + [KeyOf(st)], Added(contents, path, st), repr + {n})
  {
    OrderedSnoc(order, store.Keys, KeyOf(st));
  }

  class FileStore {
    /** `_store`: the node of each key. */
    var store: map<Key, FileNode>
    /** The order in which the dict holds its keys. */
    var order: seq<Key>
    /** What the store holds, as a value. */
    ghost var contents: StoreView
    /** The nodes the store has made. */
    ghost var Repr: set<FileNode>

    ghost predicate Valid()
      reads this, Repr
    {
      Holds(store, order, contents, Repr)
    }

    constructor ()
      ensures Valid() && contents == StoreView([], map[]) && Repr == {}
    {
      store := map[];
      order := [];
      contents := StoreView([], map[]);
      Repr := {};
    }

    /** `add(path, stat)`: a new node, returned, for an inode not seen
        before; otherwise `None`, and the path becomes a link of the
        inode's node. Nodes already in the store stay where they are. */
    method Add(path: string, st: FileStat) returns (r: Option<FileNode>)
      requires Valid()
      modifies this, Repr
      ensures Valid() && contents == Added(old(contents), path, st)
      ensures r.Some? <==> KeyOf(st) !in old(store)
      ensures r.None? ==> store == old(store) && Repr == old(Repr)
      ensures r.Some? ==> fresh(r.value) && store == old(store)[KeyOf(st) := r.value]
                          && Repr == old(Repr) + {r.value}
    {
      var k := (st.dev, st.ino);
      if k in store {
        var n := store[k];
        n.Link(path);
        contents := Added(contents, path, st);
        r := None;
      } else {
        var n := Insert(path, st);
        r := Some(n);
      }
    }

    /** The `else` branch of `add`: a node of its own for a new inode. */
    method Insert(path: string, st: FileStat) returns (n: FileNode)
      requires Valid() && KeyOf(st) !in store
      modifies this
      ensures Valid() && contents == Added(old(contents), path, st)
      ensures fresh(n) && store == old(store)[KeyOf(st) := n] && Repr == old(Repr) + {n}
    {
      var k := (st.dev, st.ino);
      n := new FileNode(path, st);
      ghost var s0, o0, c0, r0 := store, order, contents, Repr;
      store, order := store[k := n], order + [k];
      contents, Repr := Added(contents, path, st), Repr + {n};
      InsertHolds(s0, o0, c0, r0, n, path, st);
    }

    /** `add_file(path, stat)`: anything but a regular file leaves the
        store as it is. */
    method AddFile(path: string, st: FileStat)
      requires Valid()
      modifies this, Repr
      ensures Valid() && contents == AddedFile(old(contents), path, st)
      ensures fresh(Repr - old(Repr))
      ensures !st.regular ==> store == old(store) && order == old(order)
    {
      if !st.regular {
        return;
      }
      var n := Add(path, st);
      if n.None? {
        return;
      }
    }

    /** `nodes()`: the stored nodes in the dict's order, each exactly once. */
    function Nodes(): (ns: seq<FileNode>)
      requires Keyed(store, order)
      reads this
      ensures |ns| == |order|
      ensures forall i :: 0 <= i < |ns| ==> order[i] in store && ns[i] == store[order[i]]
      ensures forall k :: k in store ==> store[k] in ns
      ensures forall i :: 0 <= i < |ns| ==> ns[i] in store.Values
      ensures forall i, j :: 0 <= i < j < |ns| ==> ns[i] != ns[j]
    {
      var o, s := order, store;
      var ns := seq(|o|, i requires 0 <= i < |o| && o[i] in s => s[o[i]]);
      assert forall k :: k in s ==> s[k] in ns by {
        forall k | k in s
          ensures s[k] in ns
        {
          var i :| 0 <= i < |o| && o[i] == k;
          assert ns[i] == s[k];
        }
      }
      ns
    }
  }
}
