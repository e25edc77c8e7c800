/** The comparator of mergetree/mergetree.py as the program runs it:
    `shellcommand`, the file operators, `compare`, `only_in_lower`,
    `only_in_upper` and `compare_tree` change the counters, standard output,
    standard error and the OS step by step. Each method is proved to leave
    the state that `Run` gives for the events `MergePlan` assigns to it. */
module MergeEngine {
  import opened Common
  import opened MergeEntry
  import opened MergeSummary
  import opened MergePlan

  class Merger {
    /** `--remove`, `--strict`, `--backup`. */
    const policy: Policy
    /** `--dryrun`, `--verbose`, and which OS calls raise OSError. */
    const env: Env
    const summary: Summary
    var stdout: seq<Line>
    var stderr: seq<Action>
    var issued: seq<Action>

    /** The observable state. */
    function State(): St
      reads this, summary
    {
      St(summary.Counters(), stdout, stderr, issued)
    }

    constructor (policy: Policy, env: Env)
      ensures this.policy == policy && this.env == env && fresh(summary)
      ensures State() == St(Zero, [], [], [])
    {
      this.policy := policy;
      this.env := env;
      summary := new Summary();
      stdout, stderr, issued := [], [], [];
    }

    /** `shellcommand`: in dry-run mode print the command; otherwise make
        the OS call, and print an error line when it raises OSError. */
    method ShellCommand(a: Action)
      modifies this
      ensures State() == Shell(old(State()), a, env)
    {
      if env.dryrun {
        stdout := stdout + [Command(a)];
      } else {
        issued := issued + [a];
        if a in env.failing {
          stderr := stderr + [a];
        }
      }
    }

    /** `move`, `remove` and `removedir`: the command, then its counter. */
    method Operate(a: Action)
      modifies this, summary
      ensures State() == Step(old(State()), Act(a), env)
    {
      ShellCommand(a);
      match a
      case Mv(_, _) => summary.Move();
      case Rm(_) => summary.Remove();
      case Rmdir(_) => summary.RemoveDir();
    }

    /** The category methods of `Summary`: the verbose trace line, then the
        category's counter. */
    method Note(t: Tag, f: FileItem)
      modifies this, summary
      ensures State() == Step(old(State()), Report(t, Subpath(f)), env)
    {
      if env.verbose {
        stdout := stdout + [Verbose(t, Subpath(f))];
      }
      summary.Note(t);
    }

    /** `only_in_lower`: the lower entry stays where it is. */
    method OnlyInLower(f: FileItem)
      modifies this, summary
      ensures State() == Run(old(State()), LowerOnly(f), env)
    {
      Note(OnlyLower, f);
    }

    /** `only_in_upper`: move the upper entry to the lower root `lb`. */
    method OnlyInUpper(f: FileItem, lb: string)
      modifies this, summary
      ensures State() == Run(old(State()), UpperOnly(f, lb), env)
    {
      ghost var s0 := State();
      Note(OnlyUpper, f);
      Operate(Mv(Path(f, ""), Path(f, lb)));
      RunTwo(s0, Report(OnlyUpper, Subpath(f)), Act(Mv(Path(f, ""), Path(f, lb))), env);
    }

    /** `compare(a, b)` for a lower entry `a` and an upper entry `b` of the
        same name. */
    method Compare(a: FileItem, b: FileItem)
      requires ShapedItem(a) && ShapedItem(b)
      modifies this, summary
      ensures State() == Run(old(State()), MergePlan.Compare(a, b, policy), env)
      decreases ItemSize(a) + ItemSize(b), 0
    {
      ghost var s0 := State();
      if IsDir(a) && IsDir(b) {
        CompareTree(a.subtree.value, b.subtree.value);
        ghost var s1 := State();
        var tail: seq<Event> := [];
        if policy.remove {
          Operate(Rmdir(Path(b, "")));
          tail := [Act(Rmdir(Path(b, "")))];
        }
        assert State() == Run(s1, tail, env);
        RunConcat(s0, MergePlan.CompareTree(a.subtree.value, b.subtree.value, policy), tail, env);
      } else {
        var t: Tag;
        var sp: string;
        var acts: seq<Action>;
        if IsDir(a) {
          t, sp, acts := LowerIsDir, Subpath(a), [Mv(Path(b, ""), Path(a, "") + policy.backup)];
        } else if IsDir(b) {
          t, sp, acts := UpperIsDir, Subpath(b), [Mv(Path(b, ""), Path(a, "") + policy.backup)];
        } else if !IsReg(a) || !IsReg(b) {
          t, sp, acts := NotFile, Subpath(a), [Rm(Path(b, ""))];
        } else if IsSameInode(a, b) {
          t, sp, acts := SameInode, Subpath(a), [Rm(Path(b, ""))];
        } else if a.st.mtime > b.st.mtime {
          t, sp, acts := Older, Subpath(b), [Rm(Path(b, ""))];
        } else if a.st.mtime < b.st.mtime {
          t, sp, acts := Newer, Subpath(b), [Rm(Path(a, "")), Mv(Path(b, ""), Path(a, ""))];
        } else if a.st.size == b.st.size {
          // strict mode would compare bytes here; the source leaves it undone
          t, sp, acts := SameFile, Subpath(a), if policy.strict then [] else [Rm(Path(b, ""))];
        } else {
          t, sp, acts := Mismatch, Subpath(a), [Mv(Path(b, ""), Path(a, "") + policy.backup)];
        }
        assert MergePlan.Compare(a, b, policy) == [Report(t, sp)] + Acts(acts);
        Decide(t, sp, acts);
        RunConcat(s0, [Report(t, sp)], Acts(acts), env);
      }
    }

    /** The leaf branches of `compare`: one category method, then the
        commands in order. */
    method Decide(t: Tag, sp: string, acts: seq<Action>)
      modifies this, summary
      ensures State() == Run(Step(old(State()), Report(t, sp), env), Acts(acts), env)
    {
      if env.verbose {
        stdout := stdout + [Verbose(t, sp)];
      }
      summary.Note(t);
      ghost var s1 := State();
      assert s1 == Step(old(State()), Report(t, sp), env);
      assert acts[..0] == [];
      for k := 0 to |acts|
        invariant State() == Run(s1, Acts(acts[..k]), env)
      {
        ghost var sk := State();
        Operate(acts[k]);
        RunOne(sk, Act(acts[k]), env);
        ActsSnoc(acts, k);
        RunConcat(s1, Acts(acts[..k]), [Act(acts[k])], env);
      }
      assert acts[..|acts|] == acts;
    }

    /** `compare_tree(tree_a, tree_b)`: the merge-join over the two sorted
        sibling lists, then the rest of each. */
    method CompareTree(ta: Tree, tb: Tree)
      requires Shaped(ta.entries) && Shaped(tb.entries)
      modifies this, summary
      ensures State() == Run(old(State()), MergePlan.CompareTree(ta, tb, policy), env)
      decreases Size(ta.entries) + Size(tb.entries), 2
    {
      var la, lu, lb := ta.entries, tb.entries, ta.base;
      ghost var final := Run(State(), Merge(la, lu, lb, policy), env);
      var ia, ib := 0, 0;
      while ia < |la| && ib < |lu|
        invariant 0 <= ia <= |la| && 0 <= ib <= |lu|
        invariant Run(State(), Merge(la[ia..], lu[ib..], lb, policy), env) == final
        decreases |la| - ia + |lu| - ib
      {
        ia, ib := MergeHead(la, lu, lb, ia, ib);
      }
      MergeRest(la[ia..], lu[ib..], lb, policy);
      ghost var s := State();
      OnlyInLowerRest(la, ia);
      OnlyInUpperRest(lu, ib, lb);
      RunConcat(s, LowerOnlys(la[ia..]), UpperOnlys(lu[ib..], lb), env);
    }

    /** One round of the merge-join: the entry that sorts first is handled
        alone, or the two heads are compared when their names are equal. */
    method MergeHead(la: seq<FileItem>, lu: seq<FileItem>, lb: string, ia: nat, ib: nat)
      returns (ja: nat, jb: nat)
      requires Shaped(la) && Shaped(lu) && ia < |la| && ib < |lu|
      modifies this, summary
      ensures ia <= ja <= |la| && ib <= jb <= |lu| && ja + jb > ia + ib
      ensures Run(State(), Merge(la[ja..], lu[jb..], lb, policy), env)
              == Run(old(State()), Merge(la[ia..], lu[ib..], lb, policy), env)
      decreases Size(la) + Size(lu), 1
    {
      var a, b := la[ia], lu[ib];
      ghost var s := State();
      MergeStep(la, lu, lb, policy, ia, ib);
      if Less(a.name, b.name) {
        OnlyInLower(a);
        RunConcat(s, LowerOnly(a), Merge(la[ia + 1..], lu[ib..], lb, policy), env);
        ja, jb := ia + 1, ib;
      } else if Less(b.name, a.name) {
        OnlyInUpper(b, lb);
        RunConcat(s, UpperOnly(b, lb), Merge(la[ia..], lu[ib + 1..], lb, policy), env);
        ja, jb := ia, ib + 1;
      } else {
        ItemSizeBound(la, ia);
        ItemSizeBound(lu, ib);
        Compare(a, b);
        RunConcat(s, MergePlan.Compare(a, b, policy), Merge(la[ia + 1..], lu[ib + 1..], lb, policy), env);
        ja, jb := ia + 1, ib + 1;
      }
    }

    /** The first `for` loop of `compare_tree`: the lower entries from `i0`
        on have no upper partner. */
    method OnlyInLowerRest(la: seq<FileItem>, i0: nat)
      requires i0 <= |la|
      modifies this, summary
      ensures State() == Run(old(State()), LowerOnlys(la[i0..]), env)
    {
      ghost var s0 := State();
      for i := i0 to |la|
        invariant Run(State(), LowerOnlys(la[i..]), env) == Run(s0, LowerOnlys(la[i0..]), env)
      {
        ghost var s := State();
        LowerOnlysStep(la, i);
        OnlyInLower(la[i]);
        RunConcat(s, LowerOnly(la[i]), LowerOnlys(la[i + 1..]), env);
      }
      assert LowerOnlys(la[|la|..]) == [];
    }

    /** The second `for` loop of `compare_tree`: the upper entries from
        `j0` on are moved to the lower root `lb`. */
    method OnlyInUpperRest(lu: seq<FileItem>, j0: nat, lb: string)
      requires j0 <= |lu|
      modifies this, summary
      ensures State() == Run(old(State()), UpperOnlys(lu[j0..], lb), env)
    {
      ghost var s0 := State();
      for j := j0 to |lu|
        invariant Run(State(), UpperOnlys(lu[j..], lb), env) == Run(s0, UpperOnlys(lu[j0..], lb), env)
      {
        ghost var s := State();
        UpperOnlysStep(lu, j, lb);
        OnlyInUpper(lu[j], lb);
        RunConcat(s, UpperOnly(lu[j], lb), UpperOnlys(lu[j + 1..], lb), env);
      }
      assert UpperOnlys(lu[|lu|..], lb) == [];
    }
  }

  /** The events of a list of commands. */
  function Acts(acts: seq<Action>): (r: seq<Event>)
    ensures |r| == |acts| && forall k :: 0 <= k < |acts| ==> r[k] == Act(acts[k])
  {
    seq(|acts|, k requires 0 <= k < |acts| => Act(acts[k]))
  }

  lemma {:induction false} ActsSnoc(acts: seq<Action>, k: nat)
    requires k < |acts|
    ensures Acts(acts[..k + 1]) == Acts(acts[..k]) + [Act(acts[k])]
  {
  }

  lemma {:induction false} RunOne(st: St, e: Event, env: Env)
    ensures Run(st, [e], env) == Step(st, e, env)
  {
    assert [e][1..] == [];
  }

  lemma {:induction false} RunTwo(st: St, e1: Event, e2: Event, env: Env)
    ensures Run(st, [e1, e2], env) == Step(Step(st, e1, env), e2, env)
  {
    assert [e1, e2][1..] == [e2];
    RunOne(Step(st, e1, env), e2, env);
  }

  /** One turn of the `while` loop of `compare_tree`, on the suffixes from
      `ia` and `ib`. */
  lemma {:induction false} MergeStep(la: seq<FileItem>, lu: seq<FileItem>, lb: string, p: Policy, ia: nat, ib: nat)
    requires Shaped(la) && Shaped(lu) && ia < |la| && ib < |lu|
    ensures Less(la[ia].name, lu[ib].name) ==>
              Merge(la[ia..], lu[ib..], lb, p) == LowerOnly(la[ia]) + Merge(la[ia + 1..], lu[ib..], lb, p)
    ensures !Less(la[ia].name, lu[ib].name) && Less(lu[ib].name, la[ia].name) ==>
              Merge(la[ia..], lu[ib..], lb, p) == UpperOnly(lu[ib], lb) + Merge(la[ia..], lu[ib + 1..], lb, p)
    ensures !Less(la[ia].name, lu[ib].name) && !Less(lu[ib].name, la[ia].name) ==>
              Merge(la[ia..], lu[ib..], lb, p)
              == MergePlan.Compare(la[ia], lu[ib], p) + Merge(la[ia + 1..], lu[ib + 1..], lb, p)
  {
    assert la[ia..][0] == la[ia] && la[ia..][1..] == la[ia + 1..];
    assert lu[ib..][0] == lu[ib] && lu[ib..][1..] == lu[ib + 1..];
  }

  /** After the `while` loop one of the suffixes is empty, and the two
      `for` loops take the rest. */
  lemma {:induction false} MergeRest(la: seq<FileItem>, lu: seq<FileItem>, lb: string, p: Policy)
    requires Shaped(la) && Shaped(lu) && (la == [] || lu == [])
    ensures Merge(la, lu, lb, p) == LowerOnlys(la) + UpperOnlys(lu, lb)
  {
  }

  lemma {:induction false} LowerOnlysStep(la: seq<FileItem>, i: nat)
    requires i < |la|
    ensures LowerOnlys(la[i..]) == LowerOnly(la[i]) + LowerOnlys(la[i + 1..])
  {
    assert la[i..][0] == la[i] && la[i..][1..] == la[i + 1..];
  }

  lemma {:induction false} UpperOnlysStep(lu: seq<FileItem>, j: nat, lb: string)
    requires j < |lu|
    ensures UpperOnlys(lu[j..], lb) == UpperOnly(lu[j], lb) + UpperOnlys(lu[j + 1..], lb)
  {
    assert lu[j..][0] == lu[j] && lu[j..][1..] == lu[j + 1..];
  }
}
