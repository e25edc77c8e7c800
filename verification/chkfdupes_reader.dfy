/** `NslvReader` of chkfdupes/chkfdupes.py: reads the output of fdupes, one
    file name per line and one blank line after each group of duplicates.
    The input file is the sequence of its lines. */
module ChkReader {
  import opened Common

  /** A line that `rstrip()` empties. */
  predicate Blank(l: string)
  {
    RStrip(l) == ""
  }

  /** Where the first blank line of `ls` is, or `|ls|` when none is. */
  function FirstBlank(ls: seq<string>): (k: nat)
    ensures k <= |ls|
    ensures forall i :: 0 <= i < k ==> !Blank(ls[i])
    ensures k < |ls| ==> Blank(ls[k])
  {
    if ls == [] || Blank(ls[0]) then 0 else 1 + FirstBlank(ls[1..])
  }

  lemma {:induction false} FirstBlankAt(ls: seq<string>, k: nat)
    requires k <= |ls| && forall i :: 0 <= i < k ==> !Blank(ls[i])
    requires k < |ls| ==> Blank(ls[k])
    ensures FirstBlank(ls) == k
  {
    if k > 0 {
      FirstBlankAt(ls[1..], k - 1);
    }
  }

  /** Each line `rstrip()`ped. */
  function Stripped(ls: seq<string>): (r: seq<string>)
    ensures |r| == |ls|
  {
    if ls == [] then [] else Stripped(ls[..|ls| - 1]) + [RStrip(ls[|ls| - 1])]
  }

  lemma {:induction false} StrippedAt(ls: seq<string>, i: nat)
    requires i < |ls|
    ensures Stripped(ls)[i] == RStrip(ls[i])
    decreases |ls|
  {
    if i < |ls| - 1 {
      StrippedAt(ls[..|ls| - 1], i);
    }
  }

  /** `next()` on the unread lines `ls`: the stripped lines before the
      first blank line, which is consumed too; at the end of the input the
      pending lines, or `None` when there are none. Returns the record and
      the number of lines consumed. */
  function NextRecord(ls: seq<string>): (res: (Option<seq<string>>, nat))
    ensures res.1 <= |ls| && (ls != [] ==> res.1 >= 1)
    ensures res.0 == None <==> ls == []
  {
    var k := FirstBlank(ls);
    if k < |ls| then (Some(Stripped(ls[..k])), k + 1)
    else if k > 0 then (Some(Stripped(ls)), |ls|)
    else (None, 0)
  }

  /** A record never holds a blank line: the blank line ends it. */
  lemma {:induction false} NextRecordNotBlank(ls: seq<string>)
    ensures var r := NextRecord(ls).0;
            r.Some? ==> forall i :: 0 <= i < |r.value| ==> !Blank(r.value[i])
  {
    var k := FirstBlank(ls);
    var read := if k < |ls| then ls[..k] else ls;
    forall i | 0 <= i < |read|
      ensures !Blank(Stripped(read)[i])
    {
      StrippedAt(read, i);
      RStripIdempotent(read[i]);
    }
  }

  /** The records `parse()` hands on: it stops at the end of the input and
      at the first empty record (a blank line right after a blank line, or
      at the top of the file). */
  function Records(ls: seq<string>): (rs: seq<seq<string>>)
    ensures forall j :: 0 <= j < |rs| ==> rs[j] != []
    decreases |ls|
  {
    var next := NextRecord(ls);
    if next.0.None? || next.0.value == [] then [] else [next.0.value] + Records(ls[next.1..])
  }

  /** The first record of `ls`, then the records after the `k` lines it
      takes up. */
  lemma {:induction false} RecordsAt(ls: seq<string>, k: nat)
    requires k == NextRecord(ls).1
    ensures var r := NextRecord(ls).0;
            Records(ls) == if r.None? || r.value == [] then [] else [r.value] + Records(ls[k..])
  {
  }

  /** fdupes' output for groups `gs`: each group's lines, then a blank line. */
  function Encode(gs: seq<seq<string>>): (ls: seq<string>)
    ensures |ls| >= |gs|
  {
    if gs == [] then [] else gs[0] + [""] + Encode(gs[1..])
  }

  /** A group fdupes can write: at least one name, and no name that
      `rstrip()` would change or empty. */
  predicate Group(g: seq<string>)
  {
    g != [] && forall i :: 0 <= i < |g| ==> RStrip(g[i]) == g[i] && g[i] != ""
  }

  /** The record read at the head of an encoded group. */
  lemma {:induction false} NextOfGroup(g: seq<string>, rest: seq<string>)
    requires Group(g)
    ensures NextRecord(g + [""] + rest) == (Some(g), |g| + 1)
  {
    var ls := g + [""] + rest;
    forall i | 0 <= i < |g|
      ensures !Blank(ls[i])
    {
      assert ls[i] == g[i];
    }
    assert ls[|g|] == "";
    FirstBlankAt(ls, |g|);
    assert ls[..|g|] == g;
    forall i | 0 <= i < |g|
      ensures Stripped(g)[i] == g[i]
    {
      StrippedAt(g, i);
    }
    assert Stripped(g) == g;
  }

  /** Reading fdupes' output back gives the groups it was written from. */
  lemma {:induction false} RecordsOfEncode(gs: seq<seq<string>>)
    requires forall j :: 0 <= j < |gs| ==> Group(gs[j])
    ensures Records(Encode(gs)) == gs
  {
    if gs != [] {
      var rest := Encode(gs[1..]);
      assert Encode(gs) == gs[0] + [""] + rest;
      NextOfGroup(gs[0], rest);
      assert (gs[0] + [""] + rest)[|gs[0]| + 1..] == rest;
      RecordsOfEncode(gs[1..]);
    }
  }

  /** Reading one more line onto the pending record. */
  lemma {:induction false} StrippedSnoc(ls: seq<string>, p: nat, q: nat)
    requires p <= q < |ls|
    ensures Stripped(ls[p..q + 1]) == Stripped(ls[p..q]) + [RStrip(ls[q])]
  {
    var s := ls[p..q + 1];
    assert s[..|s| - 1] == ls[p..q];
  }

  /** `acc` holds the stripped lines `p..q` of `ls`, none of them blank. */
  ghost predicate Pending(ls: seq<string>, p: nat, q: nat, acc: seq<string>)
  {
    p <= q <= |ls| && (forall i :: p <= i < q ==> !Blank(ls[i])) && acc == Stripped(ls[p..q])
  }

  lemma {:induction false} PendingStep(ls: seq<string>, p: nat, q: nat, acc: seq<string>)
    requires Pending(ls, p, q, acc) && q < |ls| && !Blank(ls[q])
    ensures Pending(ls, p, q + 1, acc + [RStrip(ls[q])])
  {
    StrippedSnoc(ls, p, q);
  }

  /** The record ends at the blank line `k`. */
  lemma {:induction false} NextAtBlank(ls: seq<string>, p: nat, k: nat)
    requires p <= k < |ls| && Blank(ls[k])
    requires forall i :: p <= i < k ==> !Blank(ls[i])
    ensures NextRecord(ls[p..]) == (Some(Stripped(ls[p..k])), k + 1 - p)
  {
    var rest := ls[p..];
    assert rest[..k - p] == ls[p..k];
    FirstBlankAt(rest, k - p);
  }

  /** No blank line is left: the pending lines are the record. */
  lemma {:induction false} NextAtEnd(ls: seq<string>, p: nat)
    requires p <= |ls|
    requires forall i :: p <= i < |ls| ==> !Blank(ls[i])
    ensures NextRecord(ls[p..]) == (if p < |ls| then Some(Stripped(ls[p..])) else None, |ls| - p)
  {
    FirstBlankAt(ls[p..], |ls| - p);
  }

  /** The reader over the lines of one input file. */
  class NslvReader {
    const lines: seq<string>
    /** How many lines have been read. */
    var pos: nat
    var lineno: nat

    /** `lineno` starts at 1 and counts every line read. */
    ghost predicate Valid()
      reads this
    {
      pos <= |lines| && lineno == pos + 1
    }

    constructor (lines: seq<string>)
      ensures Valid() && this.lines == lines && pos == 0 && lineno == 1
    {
      this.lines := lines;
      pos := 0;
      lineno := 1;
    }

    /** `next()`: the record at the read position, consuming its lines and
        the blank line after it. */
    method Next() returns (r: Option<seq<string>>)
      requires Valid()
      modifies this
      ensures Valid()
      ensures (r, pos - old(pos)) == NextRecord(lines[old(pos)..])
    {
      var p := pos;
      var acc: seq<string> := [];
      while p < |lines|
        invariant Pending(lines, old(pos), p, acc)
      {
        var l := RStrip(lines[p]);
        if |l| == 0 {
          NextAtBlank(lines, old(pos), p);
          pos, lineno := p + 1, p + 2;
          return Some(acc);
        }
        PendingStep(lines, old(pos), p, acc);
        p, acc := p + 1, acc + [l];
      }
      NextAtEnd(lines, old(pos));
      assert lines[old(pos)..p] == lines[old(pos)..];
      pos, lineno := p, p + 1;
      if |acc| > 0 {
        r := Some(acc);
      } else {
        r := None;
      }
    }
  }
}
