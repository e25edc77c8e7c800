/** The per-record decision of chkfdupes/chkfdupes.py (`process_record`,
    `alter_duplicate`, `shell_command`) and the driver `parse`. The file
    system is a map from names to `lstat` results (a name it lacks makes
    `lstat` raise OSError); what the script prints and asks of the OS is
    one ordered trace of effects. */
module ChkRecord {
  import opened Common
  import opened ChkReader
  import opened ChkStats

  /** The part of an `lstat` result the script reads; `st_mtime` is kept as
      an integer. */
  datatype StatRec = StatRec(size: nat, blocks: nat, dev: nat, ino: nat, mtime: int)

  /** `FileItem`: a name with its `lstat` result. */
  datatype Entry = Entry(name: string, st: StatRec)

  /** `--hardlink`, `--delete`, `--scanonly`, `--dryrun`. */
  datatype Options = Options(hardlink: bool, delete: bool, scanonly: bool, dryrun: bool)

  /** The two commands `shell_command` knows. */
  datatype Cmd = Rm(path: string) | Ln(src: string, dst: string)

  datatype Effect =
    | StatFailed(name: string)          // standard error: `lstat` raised
    | SameInodeMsg(a: string, b: string) // standard output: "... link to same inode"
    | SizeMsg(a: string, b: string)      // standard output: "... have different file size"
    | Shown(cmd: Cmd)                    // standard output: the command line of a dry run
    | Call(cmd: Cmd)                     // the OS call
    | CallFailed(cmd: Cmd)               // standard error: the OS call raised

  // ---------------------------------------------------------------------
  // Specification
  // ---------------------------------------------------------------------

  /** `shell_command`: in dry-run mode print the command line; otherwise
      make the OS call and report it when it raises. */
  function Shell(c: Cmd, o: Options, failing: set<Cmd>): seq<Effect>
  {
    if o.dryrun then [Shown(c)] else [Call(c)] + (if c in failing then [CallFailed(c)] else [])
  }

  /** The commands `alter_duplicate` gives for a duplicate `dup` of `orig`. */
  function AlterCmds(orig: Entry, dup: Entry, o: Options): (cs: seq<Cmd>)
    ensures Rm(dup.name) in cs <==> o.hardlink || o.delete
    ensures Ln(orig.name, dup.name) in cs <==> o.hardlink
    ensures o.hardlink ==> cs == [Rm(dup.name), Ln(orig.name, dup.name)]
  {
    (if o.hardlink || o.delete then [Rm(dup.name)] else [])
    + (if o.hardlink then [Ln(orig.name, dup.name)] else [])
  }

  function Shells(cs: seq<Cmd>, o: Options, failing: set<Cmd>): seq<Effect>
  {
    if cs == [] then [] else Shell(cs[0], o, failing) + Shells(cs[1..], o, failing)
  }

  /** The entries of `r` that `lstat` succeeds on, in record order. */
  function Statted(r: seq<string>, lstat: map<string, StatRec>): (ls: seq<Entry>)
    ensures |ls| <= |r|
    ensures forall i :: 0 <= i < |ls| ==> ls[i].name in r && ls[i].name in lstat && lstat[ls[i].name] == ls[i].st
    ensures forall i :: 0 <= i < |r| && r[i] in lstat ==> Entry(r[i], lstat[r[i]]) in ls
  {
    if r == [] then []
    else
      var f := r[|r| - 1];
      var p := r[..|r| - 1];
      var ps := Statted(p, lstat);
      assert forall i :: 0 <= i < |p| ==> p[i] == r[i];
      ps + (if f in lstat then [Entry(f, lstat[f])] else [])
  }

  /** The stat-able names of a record are kept in record order: the
      entries of a concatenation are those of its first part, then those
      of its second. */
  lemma {:induction false} StattedAppend(a: seq<string>, b: seq<string>, lstat: map<string, StatRec>)
    ensures Statted(a + b, lstat) == Statted(a, lstat) + Statted(b, lstat)
  {
    if b != [] {
      var n := |b| - 1;
      assert (a + b)[..|a + b| - 1] == a + b[..n];
      assert (a + b)[|a + b| - 1] == b[n];
      StattedAppend(a, b[..n], lstat);
    } else {
      assert a + b == a;
    }
  }

  /** The positions of a record whose names `lstat` succeeds on. */
  function StatPositions(r: seq<string>, lstat: map<string, StatRec>): set<nat>
  {
    set i: nat | i < |r| && r[i] in lstat
  }

  /** The stat-able positions of a record are those of all but its last
      name, plus the last one when `lstat` succeeds on it. */
  lemma {:induction false} StatPositionsSnoc(r: seq<string>, lstat: map<string, StatRec>)
    requires r != []
    ensures var n := |r| - 1;
            |StatPositions(r, lstat)| == |StatPositions(r[..n], lstat)| + (if r[n] in lstat then 1 else 0)
  {
    var n := |r| - 1;
    var p := r[..n];
    var last: set<nat> := if r[n] in lstat then {n} else {};
    assert StatPositions(r, lstat) == StatPositions(p, lstat) + last by {
      forall i: nat | i < |p| ensures p[i] == r[i] { }
    }
    assert n !in StatPositions(p, lstat);
    assert |StatPositions(p, lstat) + last| == |StatPositions(p, lstat)| + |last|;
  }

  /** One entry is kept per stat-able position, so `|Statted(r, lstat)| < 2`
      says that fewer than two names of the record can be stat'ed. */
  lemma {:induction false} StattedCount(r: seq<string>, lstat: map<string, StatRec>)
    ensures |Statted(r, lstat)| == |StatPositions(r, lstat)|
  {
    if r == [] {
      assert StatPositions(r, lstat) == {};
    } else {
      StattedCount(r[..|r| - 1], lstat);
      StatPositionsSnoc(r, lstat);
    }
  }

  /** The error lines of the names `lstat` fails on. */
  function StatErrors(r: seq<string>, lstat: map<string, StatRec>): seq<Effect>
  {
    if r == [] then []
    else
      var f := r[|r| - 1];
      StatErrors(r[..|r| - 1], lstat) + (if f in lstat then [] else [StatFailed(f)])
  }

  /** The order of `ls.sort(key=lambda x: (-x.mtime, x.blocks))`: newer
      first, then fewer blocks. */
  predicate KeyLess(x: Entry, y: Entry)
  {
    x.st.mtime > y.st.mtime || (x.st.mtime == y.st.mtime && x.st.blocks < y.st.blocks)
  }

  predicate KeySorted(s: seq<Entry>)
  {
    forall i, j :: 0 <= i < j < |s| ==> !KeyLess(s[j], s[i])
  }

  /** Put `x` before the first entry that is not strictly before it, so
      that it stays ahead of the entries with the same key. */
  function InsertByKey(x: Entry, s: seq<Entry>): (r: seq<Entry>)
    requires KeySorted(s)
    ensures |r| == |s| + 1 && r[0] == (if s == [] || !KeyLess(s[0], x) then x else s[0])
    ensures forall y :: y in r ==> y == x || y in s
    ensures KeySorted(r)
  {
    if s == [] || !KeyLess(s[0], x) then [x] + s
    else
      var t := InsertByKey(x, s[1..]);
      assert forall k :: 0 <= k < |t| ==> !KeyLess(t[k], s[0]) by {
        forall k | 0 <= k < |t| ensures !KeyLess(t[k], s[0]) {
          if t[k] != x {
            assert t[k] in s[1..];
          }
        }
      }
      [s[0]] + t
  }

  lemma {:induction false} InsertByKeyPermutes(x: Entry, s: seq<Entry>)
    requires KeySorted(s)
    ensures multiset(InsertByKey(x, s)) == multiset(s) + multiset{x}
  {
    if s != [] && KeyLess(s[0], x) {
      InsertByKeyPermutes(x, s[1..]);
      assert s == [s[0]] + s[1..];
    }
  }

  /** Python's stable sort by that key. */
  function SortByKey(s: seq<Entry>): (r: seq<Entry>)
    ensures KeySorted(r) && |r| == |s|
  {
    if s == [] then [] else InsertByKey(s[0], SortByKey(s[1..]))
  }

  lemma {:induction false} PermuteCons<T>(x: T, s: seq<T>, t: seq<T>, u: seq<T>)
    requires multiset(t) == multiset(s) && multiset(u) == multiset(t) + multiset{x}
    ensures multiset(u) == multiset([x] + s)
  {
  }

  /** The sort only reorders. */
  lemma {:induction false} SortByKeyPermutes(s: seq<Entry>)
    ensures multiset(SortByKey(s)) == multiset(s)
  {
    if s != [] {
      var t := SortByKey(s[1..]);
      SortByKeyPermutes(s[1..]);
      InsertByKeyPermutes(s[0], t);
      assert s == [s[0]] + s[1..];
      PermuteCons(s[0], s[1..], t, SortByKey(s));
    }
  }

  /** Two entries with the same sort key: the same mtime and blocks. */
  predicate SameKey(x: Entry, y: Entry)
  {
    x.st.mtime == y.st.mtime && x.st.blocks == y.st.blocks
  }

  /** The entries of `s` whose key is that of `e`, in their order in `s`. */
  function Tied(e: Entry, s: seq<Entry>): seq<Entry>
  {
    if s == [] then [] else (if SameKey(s[0], e) then [s[0]] else []) + Tied(e, s[1..])
  }

  lemma {:induction false} TiedAppend(e: Entry, a: seq<Entry>, b: seq<Entry>)
    ensures Tied(e, a + b) == Tied(e, a) + Tied(e, b)
  {
    if a == [] {
      assert a + b == b;
    } else {
      assert (a + b)[1..] == a[1..] + b;
      TiedAppend(e, a[1..], b);
    }
  }

  /** Inserting `x` keeps the entries tied with any key in the order they
      have with `x` put in front. */
  lemma {:induction false} InsertByKeyTied(e: Entry, x: Entry, t: seq<Entry>)
    requires KeySorted(t)
    ensures Tied(e, InsertByKey(x, t)) == Tied(e, [x] + t)
  {
    if t != [] && KeyLess(t[0], x) {
      var t' := t[1..];
      assert KeySorted(t');
      InsertByKeyTied(e, x, t');
      TiedAppend(e, [t[0]], InsertByKey(x, t'));
      TiedAppend(e, [x], t');
      TiedAppend(e, [t[0]], t');
      TiedAppend(e, [x], t);
      assert t == [t[0]] + t';
      assert !(SameKey(t[0], e) && SameKey(x, e));
      assert Tied(e, [t[0]]) + Tied(e, [x]) == Tied(e, [x]) + Tied(e, [t[0]]);
    }
  }

  /** The sort is stable: for every key, the entries with that key keep
      their record order. With `SortByKey`'s order and `SortByKeyPermutes`
      this fixes the whole result of Python's stable sort. */
  lemma {:induction false} SortByKeyStable(e: Entry, s: seq<Entry>)
    ensures Tied(e, SortByKey(s)) == Tied(e, s)
  {
    if s != [] {
      var t := SortByKey(s[1..]);
      SortByKeyStable(e, s[1..]);
      InsertByKeyTied(e, s[0], t);
      TiedAppend(e, [s[0]], t);
      TiedAppend(e, [s[0]], s[1..]);
      assert s == [s[0]] + s[1..];
    }
  }

  /** The two checks before `b` counts as a duplicate of the original `a`:
      a different inode and the same size. */
  predicate IsDuplicate(a: Entry, b: Entry)
  {
    !(a.st.dev == b.st.dev && a.st.ino == b.st.ino) && a.st.size == b.st.size
  }

  function Duplicates(a: Entry, bs: seq<Entry>): (ds: seq<Entry>)
    ensures |ds| <= |bs|
    ensures forall d :: d in ds <==> d in bs && IsDuplicate(a, d)
  {
    if bs == [] then []
    else
      var b := bs[|bs| - 1];
      Duplicates(a, bs[..|bs| - 1]) + (if IsDuplicate(a, b) then [b] else [])
  }

  function Blocks(es: seq<Entry>): nat
  {
    if es == [] then 0 else Blocks(es[..|es| - 1]) + es[|es| - 1].st.blocks
  }

  /** What one turn of the loop prints and does for `b` against the
      original `a`. */
  function Check(a: Entry, b: Entry, o: Options, failing: set<Cmd>): seq<Effect>
  {
    if a.st.dev == b.st.dev && a.st.ino == b.st.ino then [SameInodeMsg(a.name, b.name)]
    else if a.st.size != b.st.size then [SizeMsg(a.name, b.name)]
    else Shells(AlterCmds(a, b, o), o, failing)
  }

  /** What the loop over `bs` against the original `a` prints and does. */
  function Checks(a: Entry, bs: seq<Entry>, o: Options, failing: set<Cmd>): seq<Effect>
  {
    if bs == [] then [] else Checks(a, bs[..|bs| - 1], o, failing) + Check(a, bs[|bs| - 1], o, failing)
  }

  /** The counters and the trace. */
  datatype ChkSt = ChkSt(counts: Counts, trace: seq<Effect>)

  /** `process_record(r)` on the state `st`. */
  function Processed(st: ChkSt, r: seq<string>, o: Options, lstat: map<string, StatRec>,
                     failing: set<Cmd>): ChkSt
  {
    var c := st.counts.(entries := st.counts.entries + 1);
    if r == [] then ChkSt(c.(empty := c.empty + 1), st.trace)
    else if o.scanonly then ChkSt(WithDuplicates(c, |r| - 1), st.trace)
    else
      var ls := Statted(r, lstat);
      var t := st.trace + StatErrors(r, lstat);
      if |ls| < 2 then ChkSt(c, t)
      else
        var s := SortByKey(ls);
        var ds := Duplicates(s[0], s[1..]);
        ChkSt(WithDuplicates(c.(savingBlocks := c.savingBlocks + Blocks(ds)), |ds|),
              t + Checks(s[0], s[1..], o, failing))
  }

  /** `parse`: every record in turn. */
  function ProcessedAll(st: ChkSt, rs: seq<seq<string>>, o: Options, lstat: map<string, StatRec>,
                        failing: set<Cmd>): ChkSt
    decreases |rs|
  {
    if rs == [] then st else ProcessedAll(Processed(st, rs[0], o, lstat, failing), rs[1..], o, lstat, failing)
  }

  // ---------------------------------------------------------------------
  // Properties
  // ---------------------------------------------------------------------

  /** The kept original is the first entry of the sorted list: no entry is
      newer, none as new has fewer blocks, and among the entries with its
      key it is the first in the record. */
  lemma {:induction false} SortHead(s: seq<Entry>) returns (i: nat)
    requires s != []
    ensures i < |s| && SortByKey(s)[0] == s[i]
    ensures forall k :: 0 <= k < |s| ==> !KeyLess(s[k], s[i])
    ensures forall k :: 0 <= k < i ==> KeyLess(s[i], s[k])
  {
    var x, t := s[0], s[1..];
    if t == [] {
      i := 0;
    } else {
      var j := SortHead(t);
      if !KeyLess(t[j], x) {
        i := 0;
        forall k | 0 < k < |s|
          ensures !KeyLess(s[k], x)
        {
          assert s[k] == t[k - 1];
        }
      } else {
        i := j + 1;
        forall k | 0 < k < |s|
          ensures s[k] == t[k - 1]
        {
        }
      }
    }
  }

  /** An empty record only counts as an entry and as an empty record. */
  lemma {:induction false} EmptyRecord(st: ChkSt, o: Options, lstat: map<string, StatRec>, failing: set<Cmd>)
    ensures Processed(st, [], o, lstat, failing)
            == ChkSt(st.counts.(entries := st.counts.entries + 1, empty := st.counts.empty + 1), st.trace)
  {
  }

  /** In scan-only mode a record adds all but one of its names as
      duplicates, without any `lstat` and without any output. */
  lemma {:induction false} ScanOnly(st: ChkSt, r: seq<string>, o: Options, lstat: map<string, StatRec>, failing: set<Cmd>)
    requires r != [] && o.scanonly
    ensures var st' := Processed(st, r, o, lstat, failing);
            && st'.trace == st.trace
            && st'.counts.duplicates == st.counts.duplicates + |r| - 1
            && st'.counts.savingBlocks == st.counts.savingBlocks
            && st'.counts.empty == st.counts.empty
  {
  }

  /** With fewer than two names that `lstat` succeeds on, neither the
      duplicates nor the saved blocks change, and only the `lstat` errors
      are printed. */
  lemma {:induction false} FewerThanTwo(st: ChkSt, r: seq<string>, o: Options, lstat: map<string, StatRec>, failing: set<Cmd>)
    requires r != [] && !o.scanonly && |Statted(r, lstat)| < 2
    ensures var st' := Processed(st, r, o, lstat, failing);
            && st'.trace == st.trace + StatErrors(r, lstat)
            && st'.counts == st.counts.(entries := st.counts.entries + 1)
  {
  }

  /** The OS calls of a trace, and the command lines it printed. */
  function Calls(es: seq<Effect>): seq<Cmd>
  {
    if es == [] then [] else (if es[0].Call? then [es[0].cmd] else []) + Calls(es[1..])
  }

  function ShownCmds(es: seq<Effect>): seq<Cmd>
  {
    if es == [] then [] else (if es[0].Shown? then [es[0].cmd] else []) + ShownCmds(es[1..])
  }

  /** The commands for the duplicates `ds` of `a`, one group after another. */
  function AlterAll(a: Entry, ds: seq<Entry>, o: Options): seq<Cmd>
  {
    if ds == [] then [] else AlterAll(a, ds[..|ds| - 1], o) + AlterCmds(a, ds[|ds| - 1], o)
  }

  lemma {:induction false} CallsConcat(x: seq<Effect>, y: seq<Effect>)
    ensures Calls(x + y) == Calls(x) + Calls(y)
    ensures ShownCmds(x + y) == ShownCmds(x) + ShownCmds(y)
  {
    if x != [] {
      assert (x + y)[1..] == x[1..] + y;
      CallsConcat(x[1..], y);
    } else {
      assert x + y == y;
    }
  }

  /** One command: the OS gets it, or (in a dry run) it is printed. */
  lemma {:induction false} ShellCalls(c: Cmd, o: Options, failing: set<Cmd>)
    ensures Calls(Shell(c, o, failing)) == (if o.dryrun then [] else [c])
    ensures ShownCmds(Shell(c, o, failing)) == (if o.dryrun then [c] else [])
  {
    var e := Shell(c, o, failing);
    if !o.dryrun {
      var tail := if c in failing then [CallFailed(c)] else [];
      assert e[1..] == tail;
      assert Calls(tail) == [] && ShownCmds(tail) == [];
    }
  }

  lemma {:induction false} ShellsCalls(cs: seq<Cmd>, o: Options, failing: set<Cmd>)
    ensures Calls(Shells(cs, o, failing)) == (if o.dryrun then [] else cs)
    ensures ShownCmds(Shells(cs, o, failing)) == (if o.dryrun then cs else [])
  {
    if cs != [] {
      ShellsCalls(cs[1..], o, failing);
      var e, rest := Shell(cs[0], o, failing), Shells(cs[1..], o, failing);
      assert Shells(cs, o, failing) == e + rest;
      CallsConcat(e, rest);
      ShellCalls(cs[0], o, failing);
      assert cs == [cs[0]] + cs[1..];
    }
  }

  /** Acting on the duplicates: the loop gives the OS exactly the commands
      of `alter_duplicate` for each duplicate in turn (a removal when
      `--hardlink` or `--delete` is set, then a link only with
      `--hardlink`); in a dry run it gives the OS nothing and prints those
      commands instead. */
  lemma {:induction false} ChecksCommands(a: Entry, bs: seq<Entry>, o: Options, failing: set<Cmd>)
    ensures Calls(Checks(a, bs, o, failing)) == (if o.dryrun then [] else AlterAll(a, Duplicates(a, bs), o))
    ensures ShownCmds(Checks(a, bs, o, failing)) == (if o.dryrun then AlterAll(a, Duplicates(a, bs), o) else [])
  {
    if bs != [] {
      var init, b := bs[..|bs| - 1], bs[|bs| - 1];
      ChecksCommands(a, init, o, failing);
      CallsConcat(Checks(a, init, o, failing), Check(a, b, o, failing));
      CheckCommands(a, b, o, failing);
      var ds := Duplicates(a, init);
      if IsDuplicate(a, b) {
        assert Duplicates(a, bs) == ds + [b];
        assert (ds + [b])[..|ds|] == ds;
        assert AlterAll(a, ds + [b], o) == AlterAll(a, ds, o) + AlterCmds(a, b, o);
      } else {
        assert Duplicates(a, bs) == ds;
      }
    }
  }

  /** One turn: only a duplicate gives commands. */
  lemma {:induction false} CheckCommands(a: Entry, b: Entry, o: Options, failing: set<Cmd>)
    ensures Calls(Check(a, b, o, failing)) == (if o.dryrun || !IsDuplicate(a, b) then [] else AlterCmds(a, b, o))
    ensures ShownCmds(Check(a, b, o, failing)) == (if o.dryrun && IsDuplicate(a, b) then AlterCmds(a, b, o) else [])
  {
    if IsDuplicate(a, b) {
      ShellsCalls(AlterCmds(a, b, o), o, failing);
    } else {
      var e := Check(a, b, o, failing);
      assert |e| == 1 && !e[0].Call? && !e[0].Shown? && e[1..] == [];
    }
  }

  /** A record whose listed names all exist in the file system and are
      regular copies of one file: every name but the original counts. */
  lemma {:induction false} DuplicatesCount(a: Entry, bs: seq<Entry>)
    requires forall k :: 0 <= k < |bs| ==> IsDuplicate(a, bs[k])
    ensures Duplicates(a, bs) == bs
  {
    if bs != [] {
      DuplicatesCount(a, bs[..|bs| - 1]);
      assert bs[..|bs| - 1] + [bs[|bs| - 1]] == bs;
    }
  }

  /** `parse` never hands an empty record on, so through `parse` the
      counter of empty records never moves. */
  lemma {:induction false} ParseNeverEmpty(st: ChkSt, ls: seq<string>, o: Options, lstat: map<string, StatRec>,
                                           failing: set<Cmd>)
    ensures ProcessedAll(st, Records(ls), o, lstat, failing).counts.empty == st.counts.empty
    ensures ProcessedAll(st, Records(ls), o, lstat, failing).counts.entries == st.counts.entries + |Records(ls)|
  {
    ProcessedAllCounts(st, Records(ls), o, lstat, failing);
  }

  lemma {:induction false} ProcessedAllCounts(st: ChkSt, rs: seq<seq<string>>, o: Options, lstat: map<string, StatRec>,
                                              failing: set<Cmd>)
    requires forall j :: 0 <= j < |rs| ==> rs[j] != []
    ensures ProcessedAll(st, rs, o, lstat, failing).counts.empty == st.counts.empty
    ensures ProcessedAll(st, rs, o, lstat, failing).counts.entries == st.counts.entries + |rs|
    decreases |rs|
  {
    if rs != [] {
      ProcessedAllCounts(Processed(st, rs[0], o, lstat, failing), rs[1..], o, lstat, failing);
    }
  }

  // ---------------------------------------------------------------------
  // The script
  // ---------------------------------------------------------------------

  /** The script's globals: the options, the file system, the `stats`
      object and what it has printed and asked of the OS. */
  class Checker {
    const opts: Options
    const lstat: map<string, StatRec>
    /** The commands whose OS call raises OSError. */
    const failing: set<Cmd>
    const stats: Stats
    var trace: seq<Effect>

    function State(): ChkSt
      reads this, stats
    {
      ChkSt(stats.Values(), trace)
    }

    ghost predicate Valid()
      reads stats
    {
      stats.Valid()
    }

    constructor (opts: Options, lstat: map<string, StatRec>, failing: set<Cmd>)
      ensures Valid() && fresh(stats) && State() == ChkSt(Initial, [])
      ensures this.opts == opts && this.lstat == lstat && this.failing == failing
    {
      this.opts, this.lstat, this.failing := opts, lstat, failing;
      stats := new Stats();
      trace := [];
    }

    method ShellCommand(c: Cmd)
      modifies this
      ensures trace == old(trace) + Shell(c, opts, failing)
    {
      if opts.dryrun {
        trace := trace + [Shown(c)];
      } else {
        trace := trace + [Call(c)];
        if c in failing {
          trace := trace + [CallFailed(c)];
        }
      }
    }

    /** `alter_duplicate(orig, dup)`. */
    method AlterDuplicate(orig: Entry, dup: Entry)
      modifies this
      ensures trace == old(trace) + Shells(AlterCmds(orig, dup, opts), opts, failing)
    {
      if opts.hardlink || opts.delete {
        ShellCommand(Rm(dup.name));
      }
      if opts.hardlink {
        ShellCommand(Ln(orig.name, dup.name));
      }
      ShellsTwo(Rm(dup.name), Ln(orig.name, dup.name), opts, failing);
    }

    /** `process_record(r)`. */
    method ProcessRecord(r: seq<string>)
      requires Valid()
      modifies this, stats
      ensures Valid() && State() == Processed(old(State()), r, opts, lstat, failing)
    {
      stats.AddEntry(1);
      if |r| == 0 {
        stats.AddEmpty(1);
        return;
      }
      if opts.scanonly {
        stats.AddDuplicates(|r| - 1);
        return;
      }
      var ls := StatAll(r);
      if |ls| < 2 {
        return;
      }
      ls := SortByKey(ls);
      var ndups := CheckAll(ls[0], ls[1..]);
      stats.AddDuplicates(ndups);
    }

    /** The `lstat` loop of `process_record`. */
    method StatAll(r: seq<string>) returns (ls: seq<Entry>)
      modifies this
      ensures ls == Statted(r, lstat) && trace == old(trace) + StatErrors(r, lstat)
    {
      ls := [];
      for i := 0 to |r|
        invariant ls == Statted(r[..i], lstat) && trace == old(trace) + StatErrors(r[..i], lstat)
      {
        var f := r[i];
        assert r[..i + 1][..i] == r[..i];
        if f in lstat {
          ls := ls + [Entry(f, lstat[f])];
        } else {
          trace := trace + [StatFailed(f)];
        }
      }
      assert r[..|r|] == r;
    }

    /** The loop of `process_record` over the entries after the original
        `a`. */
    method CheckAll(a: Entry, bs: seq<Entry>) returns (ndups: nat)
      requires Valid()
      modifies this, stats
      ensures Valid() && ndups == |Duplicates(a, bs)|
      ensures trace == old(trace) + Checks(a, bs, opts, failing)
      ensures stats.Values() == old(stats.Values()).(savingBlocks := old(stats.savingBlocks) + Blocks(Duplicates(a, bs)))
    {
      ndups := 0;
      ghost var c0 := stats.Values();
      for k := 0 to |bs|
        invariant Valid() && ndups == |Duplicates(a, bs[..k])|
        invariant trace == old(trace) + Checks(a, bs[..k], opts, failing)
        invariant stats.Values() == c0.(savingBlocks := c0.savingBlocks + Blocks(Duplicates(a, bs[..k])))
      {
        CheckSnoc(a, bs, k, opts, failing);
        ghost var done := Checks(a, bs[..k], opts, failing);
        var dup := CheckOne(a, bs[k]);
        AppendAssoc(old(trace), done, Check(a, bs[k], opts, failing));
        if dup {
          ndups := ndups + 1;
        }
      }
      assert bs[..|bs|] == bs;
    }

    /** The body of that loop: the two checks, then for a duplicate its
        blocks and `alter_duplicate`. */
    method CheckOne(a: Entry, b: Entry) returns (dup: bool)
      requires Valid()
      modifies this, stats
      ensures Valid() && dup == IsDuplicate(a, b)
      ensures trace == old(trace) + Check(a, b, opts, failing)
      ensures stats.Values() == old(stats.Values()).(savingBlocks := old(stats.savingBlocks) + (if dup then b.st.blocks else 0))
    {
      dup := false;
      if a.st.dev == b.st.dev && a.st.ino == b.st.ino {
        trace := trace + [SameInodeMsg(a.name, b.name)];
      } else if a.st.size != b.st.size {
        trace := trace + [SizeMsg(a.name, b.name)];
      } else {
        dup := true;
        stats.AddSavingBlocks(b.st.blocks);
        AlterDuplicate(a, b);
      }
    }

    /** `parse`: read records until the first empty one and process each. */
    method Parse(lines: seq<string>)
      requires Valid()
      modifies this, stats
      ensures Valid() && State() == ProcessedAll(old(State()), Records(lines), opts, lstat, failing)
    {
      ghost var final := ProcessedAll(State(), Records(lines), opts, lstat, failing);
      var reader := new NslvReader(lines);
      while true
        invariant fresh(reader) && reader.Valid() && reader.lines == lines && Valid()
        invariant ProcessedAll(State(), Records(lines[reader.pos..]), opts, lstat, failing) == final
        decreases |lines| - reader.pos
      {
        ghost var p := reader.pos;
        var r := reader.Next();
        RecordsStep(lines, p, reader.pos);
        if r.None? || r.value == [] {
          break;
        }
        ghost var st := State();
        ProcessRecord(r.value);
        ProcessedAllCons(st, r.value, Records(lines[reader.pos..]), opts, lstat, failing);
      }
    }
  }

  /** `Records` on the input from `p` on: the record `next()` reads there,
      then the records after it. */
  lemma {:induction false} RecordsStep(lines: seq<string>, p: nat, q: nat)
    requires p <= |lines| && q == p + NextRecord(lines[p..]).1
    ensures q <= |lines|
    ensures var r := NextRecord(lines[p..]).0;
            && (r.None? || r.value == [] ==> Records(lines[p..]) == [])
            && (r.Some? && r.value != [] ==> Records(lines[p..]) == [r.value] + Records(lines[q..]))
  {
    var ls := lines[p..];
    RecordsAt(ls, q - p);
    assert ls[q - p..] == lines[q..];
  }

  lemma {:induction false} ProcessedAllCons(st: ChkSt, r: seq<string>, rs: seq<seq<string>>, o: Options,
                         lstat: map<string, StatRec>, failing: set<Cmd>)
    ensures ProcessedAll(st, [r] + rs, o, lstat, failing) == ProcessedAll(Processed(st, r, o, lstat, failing), rs, o, lstat, failing)
  {
    assert ([r] + rs)[0] == r && ([r] + rs)[1..] == rs;
  }

  lemma {:induction false} ShellsTwo(c1: Cmd, c2: Cmd, o: Options, failing: set<Cmd>)
    ensures Shells([c1, c2], o, failing) == Shell(c1, o, failing) + Shell(c2, o, failing)
    ensures Shells([c1], o, failing) == Shell(c1, o, failing)
    ensures Shells([c2], o, failing) == Shell(c2, o, failing)
  {
    ShellsOne(c1, o, failing);
    ShellsOne(c2, o, failing);
    assert [c1, c2][1..] == [c2];
  }

  lemma {:induction false} ShellsOne(c: Cmd, o: Options, failing: set<Cmd>)
    ensures Shells([c], o, failing) == Shell(c, o, failing)
  {
    assert [c][1..] == [];
    assert Shell(c, o, failing) + [] == Shell(c, o, failing);
  }

  /** One more entry after the original: its check and, for a duplicate,
      its blocks. */
  lemma {:induction false} CheckSnoc(a: Entry, bs: seq<Entry>, k: nat, o: Options, failing: set<Cmd>)
    requires k < |bs|
    ensures Checks(a, bs[..k + 1], o, failing) == Checks(a, bs[..k], o, failing) + Check(a, bs[k], o, failing)
    ensures Duplicates(a, bs[..k + 1]) == Duplicates(a, bs[..k]) + (if IsDuplicate(a, bs[k]) then [bs[k]] else [])
    ensures Blocks(Duplicates(a, bs[..k + 1]))
            == Blocks(Duplicates(a, bs[..k])) + (if IsDuplicate(a, bs[k]) then bs[k].st.blocks else 0)
  {
    assert bs[..k + 1][..k] == bs[..k] && bs[..k + 1][k] == bs[k];
    var ds := Duplicates(a, bs[..k]);
    if IsDuplicate(a, bs[k]) {
      assert Duplicates(a, bs[..k + 1]) == ds + [bs[k]];
      BlocksSnoc(ds, bs[k]);
    } else {
      assert Duplicates(a, bs[..k + 1]) == ds;
    }
  }

  lemma {:induction false} BlocksSnoc(ds: seq<Entry>, b: Entry)
    ensures Blocks(ds + [b]) == Blocks(ds) + b.st.blocks
  {
    assert (ds + [b])[..|ds|] == ds;
  }
}
