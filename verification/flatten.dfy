/** The path rules of flatten/flatten.py: which directories of the walk are
    flattened, where each of their files goes, and the optional deletion of
    white space from the new name. The walk itself is given as the list of
    `(path, files)` pairs `os.walk` yields. */
module Flatten {
  import opened Common

  // ---------------------------------------------------------------------
  // `str.split(sep)` and the depth test
  // ---------------------------------------------------------------------

  /** `s.split(sep=c)`: the pieces between the occurrences of `c`. */
  function Split(s: string, c: char): (ps: seq<string>)
    ensures |ps| >= 1
  {
    if s == [] then [""]
    else if s[0] == c then [""] + Split(s[1..], c)
    else
      var rest := Split(s[1..], c);
      [[s[0]] + rest[0]] + rest[1..]
  }

  /** `c.join(ps)`. */
  function Join(ps: seq<string>, c: char): string
    requires |ps| >= 1
  {
    if |ps| == 1 then ps[0] else ps[0] + [c] + Join(ps[1..], c)
  }

  /** How often `c` occurs in `s`. */
  function Count(s: string, c: char): nat
  {
    if s == [] then 0 else (if s[0] == c then 1 else 0) + Count(s[1..], c)
  }

  /** Splitting loses nothing: joining the pieces back gives `s`. */
  lemma {:induction false} SplitJoin(s: string, c: char)
    ensures Join(Split(s, c), c) == s
  {
    if s != [] {
      SplitJoin(s[1..], c);
      var rest := Split(s[1..], c);
      if s[0] != c {
        var ps := Split(s, c);
        assert ps[1..] == rest[1..];
        assert ps[0] == [s[0]] + rest[0];
      }
      assert s == [s[0]] + s[1..];
    }
  }

  /** No piece holds the separator. */
  lemma {:induction false} SplitPieces(s: string, c: char)
    ensures forall i :: 0 <= i < |Split(s, c)| ==> c !in Split(s, c)[i]
  {
    if s != [] {
      SplitPieces(s[1..], c);
      var rest := Split(s[1..], c);
      var ps := Split(s, c);
      if s[0] != c {
        forall i | 0 <= i < |ps|
          ensures c !in ps[i]
        {
          if i > 0 {
            assert ps[i] == rest[i];
          }
        }
      }
    }
  }

  /** There is one piece more than there are separators. */
  lemma {:induction false} SplitCount(s: string, c: char)
    ensures |Split(s, c)| == Count(s, c) + 1
  {
    if s != [] {
      SplitCount(s[1..], c);
    }
  }

  /** The depth test of the walk: a directory is flattened unless its path,
      split on `os.sep`, has more than `level` components. */
  predicate Kept(path: string, level: int)
  {
    |Split(path, Sep)| <= level
  }

  /** The test counts separators: a directory is flattened exactly when
      its path holds fewer than `level` of them. */
  lemma {:induction false} KeptDepth(path: string, level: int)
    ensures Kept(path, level) <==> Count(path, Sep) < level
  {
    SplitCount(path, Sep);
  }

  // ---------------------------------------------------------------------
  // Source and destination
  // ---------------------------------------------------------------------

  /** `os.path.join(a, b)` on POSIX: `b` when it is absolute, `a + b` when
      `a` is empty or ends in the separator, `a + sep + b` otherwise. */
  function JoinPath(a: string, b: string): string
  {
    if |b| > 0 && b[0] == Sep then b
    else if a == [] || a[|a| - 1] == Sep then a + b
    else a + [Sep] + b
  }

  /** The name the file gets: the directory's path, the separator string
      and the file's name. */
  function Destination(path: string, separator: string, file: string): string
  {
    path + separator + file
  }

  lemma {:induction false} CountAppend(a: string, b: string, c: char)
    ensures Count(a + b, c) == Count(a, c) + Count(b, c)
  {
    if a != [] {
      assert (a + b)[0] == a[0] && (a + b)[1..] == a[1..] + b;
      CountAppend(a[1..], b, c);
    } else {
      assert a + b == b;
    }
  }

  /** Flattening moves a file up one level: its source lies one separator
      deeper than its directory, its destination (when the separator
      string and the name hold no `os.sep`) exactly as deep. */
  lemma {:induction false} FlattenedDepth(path: string, separator: string, file: string)
    requires path != [] && path[|path| - 1] != Sep && file != [] && Sep !in file
    requires Sep !in separator
    ensures Count(JoinPath(path, file), Sep) == Count(path, Sep) + 1
    ensures Count(Destination(path, separator, file), Sep) == Count(path, Sep)
  {
    CountAppend(path + [Sep], file, Sep);
    CountAppend(path, [Sep], Sep);
    CountAppend(path + separator, file, Sep);
    CountAppend(path, separator, Sep);
    NoOccurrence(file, Sep);
    NoOccurrence(separator, Sep);
  }

  lemma {:induction false} NoOccurrence(s: string, c: char)
    requires c !in s
    ensures Count(s, c) == 0
  {
    if s != [] {
      NoOccurrence(s[1..], c);
    }
  }

  // ---------------------------------------------------------------------
  // `-w`: deleting white space
  // ---------------------------------------------------------------------

  /** The characters of `WHITE_SPACES`: space, tab, newline, carriage
      return. */
  predicate White(ch: char)
  {
    ch == ' ' || ch == '\t' || ch == '\n' || ch == '\r'
  }

  /** `s.translate(whitespace_pattern)`: `s` without its white space. */
  function DeleteWhite(s: string): (r: string)
    ensures |r| <= |s|
    ensures forall i :: 0 <= i < |r| ==> !White(r[i])
  {
    if s == [] then [] else (if White(s[0]) then [] else [s[0]]) + DeleteWhite(s[1..])
  }

  /** A string without white space is left as it is. */
  lemma {:induction false} DeleteWhiteKeeps(s: string)
    requires forall i :: 0 <= i < |s| ==> !White(s[i])
    ensures DeleteWhite(s) == s
  {
    if s != [] {
      DeleteWhiteKeeps(s[1..]);
      assert s == [s[0]] + s[1..];
    }
  }

  /** Deleting twice deletes nothing more. */
  lemma {:induction false} DeleteWhiteIdempotent(s: string)
    ensures DeleteWhite(DeleteWhite(s)) == DeleteWhite(s)
  {
    DeleteWhiteKeeps(DeleteWhite(s));
  }

  /** Deletion works piece by piece. */
  lemma {:induction false} DeleteWhiteAppend(a: string, b: string)
    ensures DeleteWhite(a + b) == DeleteWhite(a) + DeleteWhite(b)
  {
    if a != [] {
      assert (a + b)[0] == a[0] && (a + b)[1..] == a[1..] + b;
      DeleteWhiteAppend(a[1..], b);
    } else {
      assert a + b == b;
    }
  }

  /** Only those four characters go: every other character keeps its
      number of occurrences. */
  lemma {:induction false} DeleteWhiteCounts(s: string, ch: char)
    requires !White(ch)
    ensures Count(DeleteWhite(s), ch) == Count(s, ch)
  {
    if s != [] {
      DeleteWhiteCounts(s[1..], ch);
      var head := if White(s[0]) then [] else [s[0]];
      CountAppend(head, DeleteWhite(s[1..]), ch);
    }
  }

  // ---------------------------------------------------------------------
  // `do_process` and the walk
  // ---------------------------------------------------------------------

  /** The command line options the rules read. */
  datatype Options = Options(level: int, separator: string, removeWhitespaces: bool, dryrun: bool)

  /** What processing one file does: print `mv src dst` (dry run) or
      rename the file. */
  datatype Effect = Printed(src: string, dst: string) | Renamed(src: string, dst: string)

  /** `do_process(src, dst)`. */
  function Process(src: string, dst: string, o: Options): Effect
  {
    var d := if o.removeWhitespaces then DeleteWhite(dst) else dst;
    if o.dryrun then Printed(src, d) else Renamed(src, d)
  }

  /** The loop body for one directory of the walk. */
  function ProcessDir(path: string, files: seq<string>, o: Options): (es: seq<Effect>)
    ensures |es| == (if Kept(path, o.level) then |files| else 0)
  {
    if !Kept(path, o.level) || files == [] then []
    else
      var file := files[|files| - 1];
      ProcessDir(path, files[..|files| - 1], o)
        + [Process(JoinPath(path, file), Destination(path, o.separator, file), o)]
  }

  /** The loop over the walk: `(path, files)` for every directory visited. */
  function Walk(dirs: seq<(string, seq<string>)>, o: Options): seq<Effect>
  {
    if dirs == [] then []
    else Walk(dirs[..|dirs| - 1], o) + ProcessDir(dirs[|dirs| - 1].0, dirs[|dirs| - 1].1, o)
  }

  /** The destination is the directory's path, the separator and the
      name, with white space deleted from all of it under `-w`; the source
      is never touched by `-w`; a dry run only prints. */
  lemma {:induction false} ProcessSpec(path: string, file: string, o: Options)
    ensures var e := Process(JoinPath(path, file), Destination(path, o.separator, file), o);
            && e.src == JoinPath(path, file)
            && e.dst == (if o.removeWhitespaces
                         then DeleteWhite(path) + DeleteWhite(o.separator) + DeleteWhite(file)
                         else path + o.separator + file)
            && (e.Renamed? <==> !o.dryrun)
  {
    DeleteWhiteAppend(path + o.separator, file);
    DeleteWhiteAppend(path, o.separator);
  }

  /** Each file of a flattened directory is processed once, in order, and
      a directory too deep is skipped whole. */
  lemma {:induction false} ProcessDirFiles(path: string, files: seq<string>, o: Options, i: nat)
    requires Kept(path, o.level) && i < |files|
    ensures ProcessDir(path, files, o)[i]
              == Process(JoinPath(path, files[i]), Destination(path, o.separator, files[i]), o)
  {
    if i < |files| - 1 {
      ProcessDirFiles(path, files[..|files| - 1], o, i);
    }
  }

  /** A dry run renames nothing. */
  lemma {:induction false} WalkDryRun(dirs: seq<(string, seq<string>)>, o: Options)
    requires o.dryrun
    ensures forall i :: 0 <= i < |Walk(dirs, o)| ==> Walk(dirs, o)[i].Printed?
  {
    if dirs != [] {
      WalkDryRun(dirs[..|dirs| - 1], o);
      DirDryRun(dirs[|dirs| - 1].0, dirs[|dirs| - 1].1, o);
    }
  }

  lemma {:induction false} DirDryRun(path: string, files: seq<string>, o: Options)
    requires o.dryrun
    ensures forall i :: 0 <= i < |ProcessDir(path, files, o)| ==> ProcessDir(path, files, o)[i].Printed?
  {
    if Kept(path, o.level) && files != [] {
      DirDryRun(path, files[..|files| - 1], o);
    }
  }
}
