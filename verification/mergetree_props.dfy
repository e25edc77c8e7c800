/** Properties of the comparator of mergetree/mergetree.py: the merge-join
    visits every entry of both sibling lists exactly once and pairs only
    equal names, an empty upper tree changes nothing, every command points
    where the policy says, and each matched pair is resolved once. */
module MergeProps {
  import opened Common
  import opened MergeEntry
  import opened MergeSummary
  import opened MergePlan

  // ---------------------------------------------------------------------
  // The merge-join skeleton of compare_tree
  // ---------------------------------------------------------------------

  /** One step of the merge-join: an entry only in the lower list, one only
      in the upper list, or a lower and an upper entry handed to `compare`. */
  datatype Match = Left(a: FileItem) | Right(u: FileItem) | Both(a: FileItem, u: FileItem)

  /** The pairing `compare_tree` makes, without what it does with a pair. */
  function Join(la: seq<FileItem>, lu: seq<FileItem>): seq<Match>
    decreases |la| + |lu|
  {
    if la != [] && lu != [] then
      if Less(la[0].name, lu[0].name) then [Left(la[0])] + Join(la[1..], lu)
      else if Less(lu[0].name, la[0].name) then [Right(lu[0])] + Join(la, lu[1..])
      else [Both(la[0], lu[0])] + Join(la[1..], lu[1..])
    else
      Lefts(la) + Rights(lu)
  }

  function Lefts(s: seq<FileItem>): seq<Match>
  {
    if s == [] then [] else [Left(s[0])] + Lefts(s[1..])
  }

  function Rights(s: seq<FileItem>): seq<Match>
  {
    if s == [] then [] else [Right(s[0])] + Rights(s[1..])
  }

  /** The lower entries a join visits, in visiting order. */
  function Lowers(ms: seq<Match>): seq<FileItem>
  {
    if ms == [] then [] else (if ms[0].Right? then [] else [ms[0].a]) + Lowers(ms[1..])
  }

  /** The upper entries a join visits, in visiting order. */
  function Uppers(ms: seq<Match>): seq<FileItem>
  {
    if ms == [] then [] else (if ms[0].Left? then [] else [ms[0].u]) + Uppers(ms[1..])
  }

  lemma {:induction false} VisitsConcat(x: seq<Match>, y: seq<Match>)
    ensures Lowers(x + y) == Lowers(x) + Lowers(y)
    ensures Uppers(x + y) == Uppers(x) + Uppers(y)
  {
    if x == [] {
      assert x + y == y;
    } else {
      assert (x + y)[0] == x[0] && (x + y)[1..] == x[1..] + y;
      VisitsConcat(x[1..], y);
      var l := if x[0].Right? then [] else [x[0].a];
      var u := if x[0].Left? then [] else [x[0].u];
      assert Lowers(x + y) == l + Lowers(x[1..] + y);
      assert Uppers(x + y) == u + Uppers(x[1..] + y);
      AppendAssoc(l, Lowers(x[1..]), Lowers(y));
      AppendAssoc(u, Uppers(x[1..]), Uppers(y));
    }
  }

  lemma {:induction false} VisitsTails(s: seq<FileItem>)
    ensures Lowers(Lefts(s)) == s && Uppers(Lefts(s)) == []
    ensures Lowers(Rights(s)) == [] && Uppers(Rights(s)) == s
  {
    if s != [] {
      VisitsTails(s[1..]);
      VisitsConcat([Left(s[0])], Lefts(s[1..]));
      VisitsConcat([Right(s[0])], Rights(s[1..]));
    }
  }

  /** Coverage: the lower entries visited are exactly `la` in order, and
      the upper entries exactly `lu`, so each entry of either list is
      visited once and only once. */
  lemma {:induction false} JoinCovers(la: seq<FileItem>, lu: seq<FileItem>)
    ensures Lowers(Join(la, lu)) == la
    ensures Uppers(Join(la, lu)) == lu
    decreases |la| + |lu|
  {
    if la != [] && lu != [] {
      if Less(la[0].name, lu[0].name) {
        JoinCovers(la[1..], lu);
        VisitsConcat([Left(la[0])], Join(la[1..], lu));
      } else if Less(lu[0].name, la[0].name) {
        JoinCovers(la, lu[1..]);
        VisitsConcat([Right(lu[0])], Join(la, lu[1..]));
      } else {
        JoinCovers(la[1..], lu[1..]);
        VisitsConcat([Both(la[0], lu[0])], Join(la[1..], lu[1..]));
      }
    } else {
      VisitsTails(la);
      VisitsTails(lu);
      VisitsConcat(Lefts(la), Rights(lu));
    }
  }

  predicate PairsNamed(ms: seq<Match>)
  {
    forall k :: 0 <= k < |ms| && ms[k].Both? ==> ms[k].a.name == ms[k].u.name
  }

  lemma {:induction false} LeftsRightsUnpaired(s: seq<FileItem>)
    ensures forall k :: 0 <= k < |Lefts(s)| ==> Lefts(s)[k].Left? && Lefts(s)[k].a in s
    ensures forall k :: 0 <= k < |Rights(s)| ==> Rights(s)[k].Right? && Rights(s)[k].u in s
  {
    if s != [] {
      LeftsRightsUnpaired(s[1..]);
    }
  }

  /** `compare` is only ever called on two entries of the same name. */
  lemma {:induction false} JoinPairsNamed(la: seq<FileItem>, lu: seq<FileItem>)
    ensures PairsNamed(Join(la, lu))
    decreases |la| + |lu|
  {
    if la != [] && lu != [] {
      if Less(la[0].name, lu[0].name) {
        JoinPairsNamed(la[1..], lu);
      } else if Less(lu[0].name, la[0].name) {
        JoinPairsNamed(la, lu[1..]);
      } else {
        LessTotal(la[0].name, lu[0].name);
        JoinPairsNamed(la[1..], lu[1..]);
      }
    } else {
      LeftsRightsUnpaired(la);
      LeftsRightsUnpaired(lu);
    }
  }

  predicate FromLists(ms: seq<Match>, la: seq<FileItem>, lu: seq<FileItem>)
  {
    forall k :: 0 <= k < |ms| ==>
      (!ms[k].Right? ==> ms[k].a in la) && (!ms[k].Left? ==> ms[k].u in lu)
  }

  lemma {:induction false} JoinFromLists(la: seq<FileItem>, lu: seq<FileItem>)
    ensures FromLists(Join(la, lu), la, lu)
    decreases |la| + |lu|
  {
    if la != [] && lu != [] {
      if Less(la[0].name, lu[0].name) {
        JoinFromLists(la[1..], lu);
      } else if Less(lu[0].name, la[0].name) {
        JoinFromLists(la, lu[1..]);
      } else {
        JoinFromLists(la[1..], lu[1..]);
      }
    } else {
      LeftsRightsUnpaired(la);
      LeftsRightsUnpaired(lu);
    }
  }

  /** No entry of `s` has name `n`. */
  predicate NameAbsent(n: string, s: seq<FileItem>)
  {
    forall j :: 0 <= j < |s| ==> s[j].name != n
  }

  /** In an ascending list, whatever sorts before the head sorts before
      every entry. */
  lemma {:induction false} BelowHead(n: string, s: seq<FileItem>, x: FileItem)
    requires NamesAscending(s) && s != [] && Less(n, s[0].name) && x in s
    ensures Less(n, x.name)
  {
    var j :| 0 <= j < |s| && s[j] == x;
    if j > 0 {
      LessTransitive(n, s[0].name, x.name);
    }
  }

  lemma {:induction false} BelowHeadAbsent(n: string, s: seq<FileItem>)
    requires NamesAscending(s) && s != [] && Less(n, s[0].name)
    ensures NameAbsent(n, s)
  {
    forall j | 0 <= j < |s|
      ensures s[j].name != n
    {
      BelowHead(n, s, s[j]);
      LessIrreflexive(n);
    }
  }

  predicate Unmatched(ms: seq<Match>, la: seq<FileItem>, lu: seq<FileItem>)
  {
    forall k :: 0 <= k < |ms| ==>
      (ms[k].Left? ==> NameAbsent(ms[k].a.name, lu)) && (ms[k].Right? ==> NameAbsent(ms[k].u.name, la))
  }

  /** On name-sorted lists, "only in lower" and "only in upper" are
      literally true: the name reported does not occur in the other list. */
  lemma {:induction false} JoinUnmatched(la: seq<FileItem>, lu: seq<FileItem>)
    requires NamesAscending(la) && NamesAscending(lu)
    ensures Unmatched(Join(la, lu), la, lu)
    decreases |la| + |lu|
  {
    if la != [] && lu != [] {
      if Less(la[0].name, lu[0].name) {
        JoinUnmatched(la[1..], lu);
        UnmatchedLower(la, lu);
      } else if Less(lu[0].name, la[0].name) {
        JoinUnmatched(la, lu[1..]);
        UnmatchedUpper(la, lu);
      } else {
        JoinUnmatched(la[1..], lu[1..]);
        UnmatchedPair(la, lu);
      }
    } else {
      LeftsRightsUnpaired(la);
      LeftsRightsUnpaired(lu);
    }
  }

  /** The step of `JoinUnmatched` where the lower head sorts first. */
  lemma {:induction false} UnmatchedLower(la: seq<FileItem>, lu: seq<FileItem>)
    requires NamesAscending(la) && NamesAscending(lu) && la != [] && lu != []
    requires Less(la[0].name, lu[0].name) && Unmatched(Join(la[1..], lu), la[1..], lu)
    ensures Unmatched(Join(la, lu), la, lu)
  {
    var a := la[0];
    var R := Join(la[1..], lu);
    JoinFromLists(la[1..], lu);
    BelowHeadAbsent(a.name, lu);
    forall k | 0 <= k < |R| && R[k].Right?
      ensures NameAbsent(R[k].u.name, la)
    {
      BelowHead(a.name, lu, R[k].u);
      LessAsymmetric(a.name, R[k].u.name);
      LessIrreflexive(a.name);
      assert la == [a] + la[1..];
    }
    assert Join(la, lu) == [Left(a)] + R;
  }

  /** The step of `JoinUnmatched` where the upper head sorts first. */
  lemma {:induction false} UnmatchedUpper(la: seq<FileItem>, lu: seq<FileItem>)
    requires NamesAscending(la) && NamesAscending(lu) && la != [] && lu != []
    requires Less(lu[0].name, la[0].name) && Unmatched(Join(la, lu[1..]), la, lu[1..])
    ensures Unmatched(Join(la, lu), la, lu)
  {
    var u := lu[0];
    var R := Join(la, lu[1..]);
    JoinFromLists(la, lu[1..]);
    BelowHeadAbsent(u.name, la);
    forall k | 0 <= k < |R| && R[k].Left?
      ensures NameAbsent(R[k].a.name, lu)
    {
      BelowHead(u.name, la, R[k].a);
      LessIrreflexive(u.name);
      assert lu == [u] + lu[1..];
    }
    LessAsymmetric(u.name, la[0].name);
    assert Join(la, lu) == [Right(u)] + R;
  }

  /** The step of `JoinUnmatched` where the heads share their name. */
  lemma {:induction false} UnmatchedPair(la: seq<FileItem>, lu: seq<FileItem>)
    requires NamesAscending(la) && NamesAscending(lu) && la != [] && lu != []
    requires !Less(la[0].name, lu[0].name) && !Less(lu[0].name, la[0].name)
    requires Unmatched(Join(la[1..], lu[1..]), la[1..], lu[1..])
    ensures Unmatched(Join(la, lu), la, lu)
  {
    var a, u := la[0], lu[0];
    LessTotal(a.name, u.name);
    LessIrreflexive(a.name);
    var R := Join(la[1..], lu[1..]);
    JoinFromLists(la[1..], lu[1..]);
    forall k | 0 <= k < |R| && R[k].Left?
      ensures NameAbsent(R[k].a.name, lu)
    {
      var x := R[k].a;
      var j :| 0 <= j < |la[1..]| && la[1..][j] == x;
      assert Less(a.name, la[j + 1].name);
      NameAbsentCons(x.name, lu);
    }
    forall k | 0 <= k < |R| && R[k].Right?
      ensures NameAbsent(R[k].u.name, la)
    {
      var x := R[k].u;
      var j :| 0 <= j < |lu[1..]| && lu[1..][j] == x;
      assert Less(u.name, lu[j + 1].name);
      NameAbsentCons(x.name, la);
    }
    assert Unmatched(R, la, lu);
    UnmatchedCons(Both(a, u), R, la, lu);
    assert Join(la, lu) == [Both(a, u)] + R;
  }

  lemma {:induction false} UnmatchedCons(m: Match, R: seq<Match>, la: seq<FileItem>, lu: seq<FileItem>)
    requires Unmatched(R, la, lu)
    requires (m.Left? ==> NameAbsent(m.a.name, lu)) && (m.Right? ==> NameAbsent(m.u.name, la))
    ensures Unmatched([m] + R, la, lu)
  {
    var ms := [m] + R;
    forall k | 1 <= k < |ms|
      ensures (ms[k].Left? ==> NameAbsent(ms[k].a.name, lu)) && (ms[k].Right? ==> NameAbsent(ms[k].u.name, la))
    {
      assert ms[k] == R[k - 1];
    }
  }

  lemma {:induction false} NameAbsentCons(n: string, s: seq<FileItem>)
    requires s != [] && n != s[0].name && NameAbsent(n, s[1..])
    ensures NameAbsent(n, s)
  {
    forall j | 1 <= j < |s|
      ensures s[j].name != n
    {
      assert s[j] == s[1..][j - 1];
    }
  }

  // ---------------------------------------------------------------------
  // The events are the join, each step handled by its own rule
  // ---------------------------------------------------------------------

  predicate ShapedMatches(ms: seq<Match>)
  {
    forall k :: 0 <= k < |ms| ==>
      (!ms[k].Right? ==> ShapedItem(ms[k].a)) && (!ms[k].Left? ==> ShapedItem(ms[k].u))
  }

  function Handle(m: Match, lb: string, p: Policy): seq<Event>
    requires (!m.Right? ==> ShapedItem(m.a)) && (!m.Left? ==> ShapedItem(m.u))
  {
    match m
    case Left(a) => LowerOnly(a)
    case Right(u) => UpperOnly(u, lb)
    case Both(a, u) => Compare(a, u, p)
  }

  function Dispatch(ms: seq<Match>, lb: string, p: Policy): seq<Event>
    requires ShapedMatches(ms)
  {
    if ms == [] then [] else Handle(ms[0], lb, p) + Dispatch(ms[1..], lb, p)
  }

  lemma {:induction false} DispatchConcat(x: seq<Match>, y: seq<Match>, lb: string, p: Policy)
    requires ShapedMatches(x) && ShapedMatches(y)
    ensures ShapedMatches(x + y)
    ensures Dispatch(x + y, lb, p) == Dispatch(x, lb, p) + Dispatch(y, lb, p)
  {
    if x == [] {
      assert x + y == y;
    } else {
      assert (x + y)[0] == x[0] && (x + y)[1..] == x[1..] + y;
      DispatchConcat(x[1..], y, lb, p);
    }
  }

  lemma {:induction false} DispatchTails(la: seq<FileItem>, lu: seq<FileItem>, lb: string, p: Policy)
    requires Shaped(la) && Shaped(lu)
    ensures ShapedMatches(Lefts(la)) && Dispatch(Lefts(la), lb, p) == LowerOnlys(la)
    ensures ShapedMatches(Rights(lu)) && Dispatch(Rights(lu), lb, p) == UpperOnlys(lu, lb)
    decreases |la| + |lu|
  {
    LeftsRightsUnpaired(la);
    LeftsRightsUnpaired(lu);
    if la != [] {
      DispatchTails(la[1..], [], lb, p);
    }
    if lu != [] {
      DispatchTails([], lu[1..], lb, p);
    }
  }

  lemma {:induction false} JoinShaped(la: seq<FileItem>, lu: seq<FileItem>)
    requires Shaped(la) && Shaped(lu)
    ensures ShapedMatches(Join(la, lu))
  {
    JoinFromLists(la, lu);
  }

  /** `compare_tree` does exactly this: walk the join in order and apply
      only_in_lower, only_in_upper or compare to each step. */
  lemma {:induction false} MergeIsJoin(la: seq<FileItem>, lu: seq<FileItem>, lb: string, p: Policy)
    requires Shaped(la) && Shaped(lu)
    ensures ShapedMatches(Join(la, lu))
    ensures Merge(la, lu, lb, p) == Dispatch(Join(la, lu), lb, p)
    decreases |la| + |lu|
  {
    JoinShaped(la, lu);
    if la != [] && lu != [] {
      if Less(la[0].name, lu[0].name) {
        MergeIsJoin(la[1..], lu, lb, p);
        DispatchConcat([Left(la[0])], Join(la[1..], lu), lb, p);
      } else if Less(lu[0].name, la[0].name) {
        MergeIsJoin(la, lu[1..], lb, p);
        DispatchConcat([Right(lu[0])], Join(la, lu[1..]), lb, p);
      } else {
        MergeIsJoin(la[1..], lu[1..], lb, p);
        DispatchConcat([Both(la[0], lu[0])], Join(la[1..], lu[1..]), lb, p);
      }
    } else {
      DispatchTails(la, lu, lb, p);
      DispatchConcat(Lefts(la), Rights(lu), lb, p);
    }
  }

  // ---------------------------------------------------------------------
  // An empty upper tree: nothing to do
  // ---------------------------------------------------------------------

  lemma {:induction false} LowerOnlysReportOnly(s: seq<FileItem>)
    ensures |LowerOnlys(s)| == |s|
    ensures forall k :: 0 <= k < |s| ==> LowerOnlys(s)[k] == Report(OnlyLower, Subpath(s[k]))
    ensures ActionsOf(LowerOnlys(s)) == []
  {
    if s != [] {
      LowerOnlysReportOnly(s[1..]);
      ActionsConcat(LowerOnly(s[0]), LowerOnlys(s[1..]));
    }
  }

  /** Merging an empty upper tree reports every lower entry as only in
      lower, in order, and issues no command: a second run against the
      emptied upper tree changes nothing but the only-in-lower counter. */
  lemma {:induction false} MergeEmptyUpper(ta: Tree, ub: string, p: Policy, st: St, env: Env)
    requires Shaped(ta.entries)
    ensures var evs := CompareTree(ta, Tree(ub, []), p);
      && |evs| == |ta.entries|
      && (forall k :: 0 <= k < |evs| ==> evs[k] == Report(OnlyLower, Subpath(ta.entries[k])))
      && ActionsOf(evs) == []
      && Run(st, evs, env).issued == st.issued
      && Run(st, evs, env).tally == st.tally.(onlylower := st.tally.onlylower + |ta.entries|)
  {
    var evs := CompareTree(ta, Tree(ub, []), p);
    assert Tree(ub, []).entries == [];
    assert evs == Merge(ta.entries, [], ta.base, p);
    assert evs == LowerOnlys(ta.entries) + UpperOnlys([], ta.base);
    assert LowerOnlys(ta.entries) + [] == LowerOnlys(ta.entries);
    LowerOnlysReportOnly(ta.entries);
    RunEffects(st, evs, env);
    OnlyLowerTally(st.tally, ta.entries);
  }

  lemma {:induction false} OnlyLowerTally(c: Tally, s: seq<FileItem>)
    ensures Tallied(c, LowerOnlys(s)) == c.(onlylower := c.onlylower + |s|)
    decreases |s|
  {
    if s != [] {
      OnlyLowerTally(Noted(c, OnlyLower), s[1..]);
      assert LowerOnlys(s) == [Report(OnlyLower, Subpath(s[0]))] + LowerOnlys(s[1..]);
      assert (LowerOnlys(s))[1..] == LowerOnlys(s[1..]);
    }
  }

  // ---------------------------------------------------------------------
  // Where the commands point
  // ---------------------------------------------------------------------

  predicate Under(path: string, root: string)
  {
    |root| <= |path| && path[..|root|] == root
  }

  /** Command `k` of `evs` points where the policy allows: a move takes an
      upper path to the same subpath under the lower root (possibly with the
      backup suffix), an rmdir removes an upper directory, and an rm removes
      an upper file or else a lower file that the next command replaces by
      the upper file of the same subpath. */
  predicate RebasedAt(evs: seq<Event>, k: nat, lb: string, ub: string, backup: string)
    requires k < |evs| && evs[k].Act?
  {
    match evs[k].action
    case Mv(src, dst) =>
      Under(src, ub) && (dst == lb + src[|ub|..] || dst == lb + src[|ub|..] + backup)
    case Rmdir(x) => Under(x, ub)
    case Rm(x) =>
      || Under(x, ub)
      || (&& k + 1 < |evs| && evs[k + 1].Act? && evs[k + 1].action.Mv?
          && Under(evs[k + 1].action.src, ub) && x == lb + evs[k + 1].action.src[|ub|..])
  }

  predicate Rebased(evs: seq<Event>, lb: string, ub: string, backup: string)
  {
    forall k :: 0 <= k < |evs| && evs[k].Act? ==> RebasedAt(evs, k, lb, ub, backup)
  }

  lemma {:induction false} RebasedConcat(x: seq<Event>, y: seq<Event>, lb: string, ub: string, backup: string)
    requires Rebased(x, lb, ub, backup) && Rebased(y, lb, ub, backup)
    ensures Rebased(x + y, lb, ub, backup)
  {
    var z := x + y;
    forall k | 0 <= k < |z| && z[k].Act?
      ensures RebasedAt(z, k, lb, ub, backup)
    {
      if k < |x| {
        assert z[k] == x[k];
        assert RebasedAt(x, k, lb, ub, backup);
        if k + 1 < |x| {
          assert z[k + 1] == x[k + 1];
        }
      } else {
        assert z[k] == y[k - |x|];
        assert RebasedAt(y, k - |x|, lb, ub, backup);
        if k + 1 < |z| {
          assert z[k + 1] == y[k + 1 - |x|];
        }
      }
    }
  }

  lemma {:induction false} RootedPath(root: string, sp: string)
    ensures Under(root + sp, root) && (root + sp)[|root|..] == sp
  {
    assert (root + sp)[..|root|] == root;
  }

  lemma {:induction false} UpperOnlysRebased(lu: seq<FileItem>, lb: string, ub: string, d: string, backup: string)
    requires ValidEntries(lu, ub, d) && lb != ""
    ensures Rebased(UpperOnlys(lu, lb), lb, ub, backup)
  {
    if lu != [] {
      var u := lu[0];
      RootedPath(ub, Subpath(u));
      assert Rebased(UpperOnly(u, lb), lb, ub, backup);
      assert ValidEntries(lu[1..], ub, d);
      UpperOnlysRebased(lu[1..], lb, ub, d, backup);
      RebasedConcat(UpperOnly(u, lb), UpperOnlys(lu[1..], lb), lb, ub, backup);
    }
  }

  /** Moving the whole upper tree into the lower one: every `mv` takes an
      upper path to the same subpath under the lower root (with the backup
      suffix on a conflict), every `rmdir` is of an upper directory, and a
      lower file is only removed right before the upper file of the same
      subpath is moved onto it. */
  lemma {:induction false} MergeRebased(la: seq<FileItem>, lu: seq<FileItem>, lb: string, ub: string, d: string, p: Policy)
    requires ValidEntries(la, lb, d) && ValidEntries(lu, ub, d) && lb != ""
    ensures Shaped(la) && Shaped(lu)
    ensures Rebased(Merge(la, lu, lb, p), lb, ub, p.backup)
    decreases Size(la) + Size(lu), 1
  {
    ValidShaped(la, lb, d);
    ValidShaped(lu, ub, d);
    if la != [] && lu != [] {
      assert ValidEntries(la[1..], lb, d) && ValidEntries(lu[1..], ub, d);
      if Less(la[0].name, lu[0].name) {
        MergeRebased(la[1..], lu, lb, ub, d, p);
        RebasedConcat(LowerOnly(la[0]), Merge(la[1..], lu, lb, p), lb, ub, p.backup);
      } else if Less(lu[0].name, la[0].name) {
        MergeRebased(la, lu[1..], lb, ub, d, p);
        UpperOnlysRebased([lu[0]], lb, ub, d, p.backup);
        assert UpperOnlys([lu[0]], lb) == UpperOnly(lu[0], lb) + [];
        RebasedConcat(UpperOnly(lu[0], lb), Merge(la, lu[1..], lb, p), lb, ub, p.backup);
      } else {
        LessTotal(la[0].name, lu[0].name);
        CompareRebased(la[0], lu[0], lb, ub, d, p);
        MergeRebased(la[1..], lu[1..], lb, ub, d, p);
        RebasedConcat(Compare(la[0], lu[0], p), Merge(la[1..], lu[1..], lb, p), lb, ub, p.backup);
      }
    } else {
      assert Rebased(LowerOnlys(la), lb, ub, p.backup) by {
        LowerOnlysReportOnly(la);
      }
      UpperOnlysRebased(lu, lb, ub, d, p.backup);
      RebasedConcat(LowerOnlys(la), UpperOnlys(lu, lb), lb, ub, p.backup);
    }
  }

  lemma {:induction false} CompareRebased(a: FileItem, u: FileItem, lb: string, ub: string, d: string, p: Policy)
    requires ValidEntries([a], lb, d) && ValidEntries([u], ub, d) && a.name == u.name && lb != ""
    ensures ShapedItem(a) && ShapedItem(u)
    ensures Rebased(Compare(a, u, p), lb, ub, p.backup)
    decreases ItemSize(a) + ItemSize(u), 0
  {
    ValidShaped([a], lb, d);
    ValidShaped([u], ub, d);
    assert [a][0] == a && [u][0] == u;
    var sp := Subpath(u);
    assert Subpath(a) == sp;
    RootedPath(ub, sp);
    RootedPath(lb, sp);
    assert Path(u, "") == ub + sp && Path(a, "") == lb + sp;
    if IsDir(a) && IsDir(u) {
      var ta, tu := a.subtree.value, u.subtree.value;
      MergeRebased(ta.entries, tu.entries, lb, ub, d + [Sep] + a.name, p);
      var tail := if p.remove then [Act(Rmdir(Path(u, "")))] else [];
      assert Rebased(tail, lb, ub, p.backup);
      RebasedConcat(CompareTree(ta, tu, p), tail, lb, ub, p.backup);
    }
  }

  // ---------------------------------------------------------------------
  // One matched pair
  // ---------------------------------------------------------------------

  /** How many of `acts` dispose of the entry at `x`: move it away or
      remove it. */
  function Disposals(acts: seq<Action>, x: string): nat
  {
    if acts == [] then 0
    else (if (acts[0].Mv? && acts[0].src == x) || (acts[0].Rm? && acts[0].path == x) then 1 else 0)
         + Disposals(acts[1..], x)
  }

  /** The one case in which an upper file stays where it is: `--strict`
      with equal mtime and size (the byte comparison is not implemented). */
  predicate KeptInPlace(a: FileItem, u: FileItem, p: Policy)
  {
    IsReg(a) && IsReg(u) && !IsSameInode(a, u) && a.st.mtime == u.st.mtime
    && a.st.size == u.st.size && p.strict
  }

  lemma {:induction false} DistinctRoots(ra: string, ru: string, sp: string)
    requires ra != ru
    ensures ra + sp != ru + sp
  {
    if |ra| == |ru| {
      assert exists i :: 0 <= i < |ra| && ra[i] != ru[i];
      var i :| 0 <= i < |ra| && ra[i] != ru[i];
      assert (ra + sp)[i] != (ru + sp)[i];
    }
  }

  /** A report followed by actions only: one tag, and the actions. */
  lemma {:induction false} ReportThenActs(t: Tag, sp: string, acts: seq<Action>)
    requires 1 <= |acts| <= 2
    ensures var evs := [Report(t, sp)] + seq(|acts|, i requires 0 <= i < |acts| => Act(acts[i]));
            TagsOf(evs) == [t] && ActionsOf(evs) == acts
  {
    var evs := [Report(t, sp)] + seq(|acts|, i requires 0 <= i < |acts| => Act(acts[i]));
    var e1 := evs[1..];
    var e2 := e1[1..];
    assert TagsOf(evs) == [t] + TagsOf(e1);
    assert ActionsOf(evs) == ActionsOf(e1);
    if |acts| == 1 {
      assert e2 == [];
      assert TagsOf(e1) == [] && ActionsOf(e1) == [acts[0]];
    } else {
      assert e2 == [Act(acts[1])] && e2[1..] == [];
      assert TagsOf(e2) == [] && ActionsOf(e2) == [acts[1]];
      assert TagsOf(e1) == [] && ActionsOf(e1) == [acts[0], acts[1]];
    }
  }

  /** A pair that is not two directories gets exactly one decision (one
      counter, one trace line) and its upper entry is moved or removed
      exactly once, unless it is kept in place; the lower entry is removed
      only when the upper file is strictly newer; a directory clash moves
      the upper entry beside the lower one under the backup suffix without
      descending into the directory. */
  lemma {:induction false} CompareResolvesPair(a: FileItem, u: FileItem, p: Policy)
    requires ShapedItem(a) && ShapedItem(u) && !(IsDir(a) && IsDir(u))
    requires Subpath(a) == Subpath(u) && a.base != u.base
    ensures |TagsOf(Compare(a, u, p))| == 1
    ensures Disposals(ActionsOf(Compare(a, u, p)), Path(u, "")) == (if KeptInPlace(a, u, p) then 0 else 1)
    ensures Rm(Path(a, "")) in ActionsOf(Compare(a, u, p))
            <==> IsReg(a) && IsReg(u) && !IsSameInode(a, u) && a.st.mtime < u.st.mtime
    ensures IsDir(a) != IsDir(u) ==> ActionsOf(Compare(a, u, p)) == [Mv(Path(u, ""), Path(a, "") + p.backup)]
  {
    DistinctRoots(a.base, u.base, Subpath(a));
    var evs := Compare(a, u, p);
    var acts := ActionsOf(evs);
    assert evs[0].Report?;
    if KeptInPlace(a, u, p) {
      assert evs == [Report(SameFile, Subpath(a))];
      assert evs[1..] == [];
      assert acts == ActionsOf(evs[1..]) == [];
    } else {
      var tail := evs[1..];
      assert 1 <= |tail| <= 2 && forall i :: 0 <= i < |tail| ==> tail[i].Act?;
      var xs := seq(|tail|, i requires 0 <= i < |tail| => tail[i].action);
      assert evs == [evs[0]] + seq(|xs|, i requires 0 <= i < |xs| => Act(xs[i]));
      ReportThenActs(evs[0].tag, evs[0].subpath, xs);
      assert acts == xs;
      if |xs| == 2 {
        assert Disposals(xs, Path(u, "")) == Disposals(xs[1..], Path(u, ""));
      }
    }
  }

  /** A pair of directories makes no decision of its own: its trace and
      counters are those of the two subtrees' merge, followed by the
      `rmdir` of the upper directory when `--remove` is given. */
  lemma {:induction false} DirPairDefers(a: FileItem, u: FileItem, p: Policy)
    requires ShapedItem(a) && ShapedItem(u) && IsDir(a) && IsDir(u)
    ensures TagsOf(Compare(a, u, p)) == TagsOf(CompareTree(a.subtree.value, u.subtree.value, p))
    ensures ActionsOf(Compare(a, u, p))
            == ActionsOf(CompareTree(a.subtree.value, u.subtree.value, p))
               + (if p.remove then [Rmdir(Path(u, ""))] else [])
  {
    var sub := CompareTree(a.subtree.value, u.subtree.value, p);
    var tail := if p.remove then [Act(Rmdir(Path(u, "")))] else [];
    ActionsConcat(sub, tail);
    assert ActionsOf(tail) == (if p.remove then [Rmdir(Path(u, ""))] else []);
  }
}
