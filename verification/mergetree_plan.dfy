/** What `compare_tree` and `compare` in mergetree/mergetree.py do, as the
    sequence of events they produce: a verbose report per decision (`Report`)
    and a filesystem command per `move` / `remove` / `removedir` (`Act`).
    `Run` applies such a sequence to the program's observable state (the
    counters, standard output, the commands given to the OS and the error
    lines), the way `shellcommand` and the `Summary` methods do. */
module MergePlan {
  import opened Common
  import opened MergeEntry
  import opened MergeSummary

  /** The three shell commands `shellcommand` knows. */
  datatype Action = Mv(src: string, dst: string) | Rm(path: string) | Rmdir(path: string)

  datatype Event = Report(tag: Tag, subpath: string) | Act(action: Action)

  /** The options that steer the decisions: `--remove`, `--strict`,
      `--backup`. */
  datatype Policy = Policy(remove: bool, strict: bool, backup: string)

  /** The options that steer only the effects: `--dryrun`, `--verbose`, and
      the set of commands whose OS call raises OSError. */
  datatype Env = Env(dryrun: bool, verbose: bool, failing: set<Action>)

  /** A line on standard output: a verbose trace line or a dry-run command. */
  datatype Line = Verbose(tag: Tag, subpath: string) | Command(action: Action)

  /** The observable state: counters, standard output, the error lines
      ("Error in ...") and the commands given to the OS, in order. */
  datatype St = St(tally: Tally, stdout: seq<Line>, stderr: seq<Action>, issued: seq<Action>)

  // ---------------------------------------------------------------------
  // The decisions
  // ---------------------------------------------------------------------

  /** `only_in_lower`: report, and leave the lower entry where it is. */
  function LowerOnly(f: FileItem): seq<Event>
  {
    [Report(OnlyLower, Subpath(f))]
  }

  /** `only_in_upper`: report, and move the upper entry to the same subpath
      under the lower root `lb`. */
  function UpperOnly(f: FileItem, lb: string): seq<Event>
  {
    [Report(OnlyUpper, Subpath(f)), Act(Mv(Path(f, ""), Path(f, lb)))]
  }

  /** The `for` loop over the rest of the lower list. */
  function LowerOnlys(s: seq<FileItem>): seq<Event>
  {
    if s == [] then [] else LowerOnly(s[0]) + LowerOnlys(s[1..])
  }

  /** The `for` loop over the rest of the upper list. */
  function UpperOnlys(s: seq<FileItem>, lb: string): seq<Event>
  {
    if s == [] then [] else UpperOnly(s[0], lb) + UpperOnlys(s[1..], lb)
  }

  /** `compare(a, b)`: the decision table for a lower entry `a` and an upper
      entry `b` of the same name. */
  function Compare(a: FileItem, b: FileItem, p: Policy): seq<Event>
    requires ShapedItem(a) && ShapedItem(b)
    decreases ItemSize(a) + ItemSize(b), 0
  {
    if IsDir(a) then
      if IsDir(b) then
        CompareTree(a.subtree.value, b.subtree.value, p)
        + (if p.remove then [Act(Rmdir(Path(b, "")))] else [])
      else
        [Report(LowerIsDir, Subpath(a)), Act(Mv(Path(b, ""), Path(a, "") + p.backup))]
    else if IsDir(b) then
      [Report(UpperIsDir, Subpath(b)), Act(Mv(Path(b, ""), Path(a, "") + p.backup))]
    else if !IsReg(a) || !IsReg(b) then
      [Report(NotFile, Subpath(a)), Act(Rm(Path(b, "")))]
    else if IsSameInode(a, b) then
      [Report(SameInode, Subpath(a)), Act(Rm(Path(b, "")))]
    else if a.st.mtime > b.st.mtime then
      [Report(Older, Subpath(b)), Act(Rm(Path(b, "")))]
    else if a.st.mtime < b.st.mtime then
      [Report(Newer, Subpath(b)), Act(Rm(Path(a, ""))), Act(Mv(Path(b, ""), Path(a, "")))]
    else if a.st.size == b.st.size then
      // strict mode would compare bytes here; the source leaves it undone
      [Report(SameFile, Subpath(a))] + (if p.strict then [] else [Act(Rm(Path(b, "")))])
    else
      [Report(Mismatch, Subpath(a)), Act(Mv(Path(b, ""), Path(a, "") + p.backup))]
  }

  /** `compare_tree(tree_a, tree_b)`. */
  function CompareTree(ta: Tree, tb: Tree, p: Policy): seq<Event>
    requires Shaped(ta.entries) && Shaped(tb.entries)
    decreases Size(ta.entries) + Size(tb.entries), 2
  {
    Merge(ta.entries, tb.entries, ta.base, p)
  }

  /** The merge-join of `compare_tree` over the sibling lists `la` (lower,
      rooted at `lb`) and `lu` (upper): the `while` loop while both lists
      have entries, then the two `for` loops. */
  function Merge(la: seq<FileItem>, lu: seq<FileItem>, lb: string, p: Policy): seq<Event>
    requires Shaped(la) && Shaped(lu)
    decreases Size(la) + Size(lu), 1
  {
    if la != [] && lu != [] then
      if Less(la[0].name, lu[0].name) then
        LowerOnly(la[0]) + Merge(la[1..], lu, lb, p)
      else if Less(lu[0].name, la[0].name) then
        UpperOnly(lu[0], lb) + Merge(la, lu[1..], lb, p)
      else
        Compare(la[0], lu[0], p) + Merge(la[1..], lu[1..], lb, p)
    else
      LowerOnlys(la) + UpperOnlys(lu, lb)
  }

  // ---------------------------------------------------------------------
  // Applying events to the observable state
  // ---------------------------------------------------------------------

  /** `shellcommand`: print the command in dry-run mode; otherwise give it to
      the OS and print an error line when the call raises OSError. */
  function Shell(st: St, a: Action, env: Env): St
  {
    if env.dryrun then st.(stdout := st.stdout + [Command(a)])
    else st.(issued := st.issued + [a],
             stderr := st.stderr + (if a in env.failing then [a] else []))
  }

  /** The counter `move`, `remove` or `removedir` raises after its command. */
  function Counted(c: Tally, a: Action): Tally
  {
    match a
    case Mv(_, _) => c.(moved := c.moved + 1)
    case Rm(_) => c.(removed := c.removed + 1)
    case Rmdir(_) => c.(dirremoved := c.dirremoved + 1)
  }

  function Step(st: St, e: Event, env: Env): St
  {
    match e
    case Report(t, sp) =>
      st.(tally := Noted(st.tally, t),
          stdout := st.stdout + (if env.verbose then [Verbose(t, sp)] else []))
    case Act(a) =>
      var s := Shell(st, a, env);
      s.(tally := Counted(s.tally, a))
  }

  function Run(st: St, evs: seq<Event>, env: Env): St
    decreases |evs|
  {
    if evs == [] then st else Run(Step(st, evs[0], env), evs[1..], env)
  }

  /** The counters after `evs`, whatever the mode. */
  function Tallied(c: Tally, evs: seq<Event>): Tally
    decreases |evs|
  {
    if evs == [] then c
    else Tallied(match evs[0] case Report(t, _) => Noted(c, t) case Act(a) => Counted(c, a), evs[1..])
  }

  function ActionsOf(evs: seq<Event>): seq<Action>
  {
    if evs == [] then []
    else (if evs[0].Act? then [evs[0].action] else []) + ActionsOf(evs[1..])
  }

  function TagsOf(evs: seq<Event>): seq<Tag>
  {
    if evs == [] then []
    else (if evs[0].Report? then [evs[0].tag] else []) + TagsOf(evs[1..])
  }

  /** What `evs` print on standard output. */
  function LinesOf(evs: seq<Event>, env: Env): seq<Line>
  {
    if evs == [] then []
    else
      (match evs[0]
       case Report(t, sp) => if env.verbose then [Verbose(t, sp)] else []
       case Act(a) => if env.dryrun then [Command(a)] else [])
      + LinesOf(evs[1..], env)
  }

  function Failed(acts: seq<Action>, failing: set<Action>): seq<Action>
  {
    if acts == [] then []
    else (if acts[0] in failing then [acts[0]] else []) + Failed(acts[1..], failing)
  }

  function CountMv(acts: seq<Action>): nat
  {
    if acts == [] then 0 else (if acts[0].Mv? then 1 else 0) + CountMv(acts[1..])
  }

  function CountRm(acts: seq<Action>): nat
  {
    if acts == [] then 0 else (if acts[0].Rm? then 1 else 0) + CountRm(acts[1..])
  }

  function CountRmdir(acts: seq<Action>): nat
  {
    if acts == [] then 0 else (if acts[0].Rmdir? then 1 else 0) + CountRmdir(acts[1..])
  }

  lemma {:induction false} RunConcat(st: St, x: seq<Event>, y: seq<Event>, env: Env)
    ensures Run(st, x + y, env) == Run(Run(st, x, env), y, env)
    decreases |x|
  {
    if x != [] {
      assert (x + y)[0] == x[0] && (x + y)[1..] == x[1..] + y;
      RunConcat(Step(st, x[0], env), x[1..], y, env);
    } else {
      assert x + y == y;
    }
  }

  lemma {:induction false} RunTally(st: St, evs: seq<Event>, env: Env)
    ensures Run(st, evs, env).tally == Tallied(st.tally, evs)
    decreases |evs|
  {
    if evs != [] {
      RunTally(Step(st, evs[0], env), evs[1..], env);
    }
  }

  lemma {:induction false} RunStdout(st: St, evs: seq<Event>, env: Env)
    ensures Run(st, evs, env).stdout == st.stdout + LinesOf(evs, env)
    decreases |evs|
  {
    if evs != [] {
      RunStdout(Step(st, evs[0], env), evs[1..], env);
    }
  }

  lemma {:induction false} RunIssued(st: St, evs: seq<Event>, env: Env)
    ensures Run(st, evs, env).issued == st.issued + (if env.dryrun then [] else ActionsOf(evs))
    decreases |evs|
  {
    if evs != [] {
      var s := Step(st, evs[0], env);
      RunIssued(s, evs[1..], env);
      if evs[0].Act? {
        assert ActionsOf(evs) == [evs[0].action] + ActionsOf(evs[1..]);
        assert s.issued == st.issued + (if env.dryrun then [] else [evs[0].action]);
      } else {
        assert ActionsOf(evs) == ActionsOf(evs[1..]);
      }
    }
  }

  lemma {:induction false} RunStderr(st: St, evs: seq<Event>, env: Env)
    ensures Run(st, evs, env).stderr
            == st.stderr + (if env.dryrun then [] else Failed(ActionsOf(evs), env.failing))
    decreases |evs|
  {
    if evs != [] {
      var s := Step(st, evs[0], env);
      RunStderr(s, evs[1..], env);
      if evs[0].Act? {
        var a := evs[0].action;
        var fa := if a in env.failing then [a] else [];
        assert ActionsOf(evs) == [a] + ActionsOf(evs[1..]);
        assert Failed(ActionsOf(evs), env.failing) == fa + Failed(ActionsOf(evs[1..]), env.failing);
        assert s.stderr == st.stderr + (if env.dryrun then [] else fa);
      } else {
        assert ActionsOf(evs) == ActionsOf(evs[1..]);
      }
    }
  }

  /** The effect of a run, field by field: the counters do not depend on the
      mode; in dry-run mode nothing reaches the OS and every command is
      printed instead; otherwise every command reaches the OS in order and
      exactly the failing ones leave an error line. */
  lemma {:induction false} RunEffects(st: St, evs: seq<Event>, env: Env)
    ensures Run(st, evs, env).tally == Tallied(st.tally, evs)
    ensures Run(st, evs, env).stdout == st.stdout + LinesOf(evs, env)
    ensures Run(st, evs, env).issued == st.issued + (if env.dryrun then [] else ActionsOf(evs))
    ensures Run(st, evs, env).stderr
            == st.stderr + (if env.dryrun then [] else Failed(ActionsOf(evs), env.failing))
  {
    RunTally(st, evs, env);
    RunStdout(st, evs, env);
    RunIssued(st, evs, env);
    RunStderr(st, evs, env);
  }

  /** Dry-run invariant: for any events, a dry run and a real run end with
      the same counters; the dry run leaves the OS untouched. */
  lemma {:induction false} DryRunInvariant(st: St, evs: seq<Event>, verbose: bool, failing: set<Action>)
    ensures Run(st, evs, Env(true, verbose, failing)).tally == Run(st, evs, Env(false, verbose, failing)).tally
    ensures Run(st, evs, Env(true, verbose, failing)).issued == st.issued
    ensures Run(st, evs, Env(true, verbose, failing)).stderr == st.stderr
    ensures Run(st, evs, Env(false, verbose, failing)).issued == st.issued + ActionsOf(evs)
  {
    RunEffects(st, evs, Env(true, verbose, failing));
    RunEffects(st, evs, Env(false, verbose, failing));
  }

  /** What the counters count: one category increment per report (never
      `overrided`), and one operation increment per command of each kind. */
  lemma {:induction false} TalliedCounts(c: Tally, evs: seq<Event>)
    ensures Decisions(Tallied(c, evs)) == Decisions(c) + |TagsOf(evs)|
    ensures Tallied(c, evs).overrided == c.overrided
    ensures Tallied(c, evs).moved == c.moved + CountMv(ActionsOf(evs))
    ensures Tallied(c, evs).removed == c.removed + CountRm(ActionsOf(evs))
    ensures Tallied(c, evs).dirremoved == c.dirremoved + CountRmdir(ActionsOf(evs))
    decreases |evs|
  {
    if evs != [] {
      var c' := match evs[0] case Report(t, _) => Noted(c, t) case Act(a) => Counted(c, a);
      TalliedCounts(c', evs[1..]);
      match evs[0]
      case Report(t, _) =>
        NotedOneCategory(c, t);
        assert ActionsOf(evs) == ActionsOf(evs[1..]);
        assert TagsOf(evs) == [t] + TagsOf(evs[1..]);
      case Act(a) =>
        CountedOne(c, a);
        var rest := ActionsOf(evs[1..]);
        assert ActionsOf(evs) == [a] + rest;
        assert TagsOf(evs) == TagsOf(evs[1..]);
        assert ([a] + rest)[0] == a && ([a] + rest)[1..] == rest;
    }
  }

  /** A command moves exactly its own operation counter. */
  lemma {:induction false} CountedOne(c: Tally, a: Action)
    ensures Decisions(Counted(c, a)) == Decisions(c) && Counted(c, a).overrided == c.overrided
    ensures Counted(c, a).moved == c.moved + (if a.Mv? then 1 else 0)
    ensures Counted(c, a).removed == c.removed + (if a.Rm? then 1 else 0)
    ensures Counted(c, a).dirremoved == c.dirremoved + (if a.Rmdir? then 1 else 0)
  {
  }

  lemma {:induction false} ActionsConcat(x: seq<Event>, y: seq<Event>)
    ensures ActionsOf(x + y) == ActionsOf(x) + ActionsOf(y)
    ensures TagsOf(x + y) == TagsOf(x) + TagsOf(y)
  {
    if x != [] {
      assert (x + y)[0] == x[0] && (x + y)[1..] == x[1..] + y;
      ActionsConcat(x[1..], y);
      var a := if x[0].Act? then [x[0].action] else [];
      var t := if x[0].Report? then [x[0].tag] else [];
      assert ActionsOf(x + y) == a + ActionsOf(x[1..] + y);
      assert TagsOf(x + y) == t + TagsOf(x[1..] + y);
      AppendAssoc(a, ActionsOf(x[1..]), ActionsOf(y));
      AppendAssoc(t, TagsOf(x[1..]), TagsOf(y));
    } else {
      assert x + y == y;
    }
  }
}
