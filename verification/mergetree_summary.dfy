/** The merge's counters (`Summary` in mergetree/mergetree.py) and the
    decision categories it counts. */
module MergeSummary {

  /** One tag per category method of `Summary`; `TagText` is the marker the
      verbose trace prints before the subpath. */
  datatype Tag =
    | OnlyLower   // only_in_lower
    | OnlyUpper   // only_in_upper
    | LowerIsDir  // lower_is_dir
    | UpperIsDir  // upper_is_dir
    | NotFile     // not_file
    | SameInode   // same_inode
    | Older       // older
    | Newer       // newer
    | SameFile    // samefile
    | Mismatch    // mismatch

  function TagText(t: Tag): string
  {
    match t
    case OnlyLower => ">>>"
    case OnlyUpper => "<<<"
    case LowerIsDir => "/**"
    case UpperIsDir => "**/"
    case NotFile => "---"
    case SameInode => "==="
    case Older => ">!!"
    case Newer => "!!<"
    case SameFile => "=*="
    case Mismatch => "!!!"
  }

  /** Every category prints a distinct three-character marker, so the
      verbose trace can be parsed back into categories. */
  lemma {:induction false} TagTextDistinct(t: Tag, u: Tag)
    ensures |TagText(t)| == 3
    ensures TagText(t) == TagText(u) ==> t == u
  {
  }

  /** The twelve counters of `Summary`, as a value. */
  datatype Tally = Tally(
    identical: nat, overrided: nat, backupd: nat, special: nat,
    onlylower: nat, onlyupper: nat, olderfiles: nat, newerfiles: nat, samefiles: nat,
    moved: nat, removed: nat, dirremoved: nat)

  const Zero := Tally(0, 0, 0, 0, 0, 0, 0, 0, 0, 0, 0, 0)

  /** The counter update of the category method for `t`. */
  function Noted(c: Tally, t: Tag): Tally
  {
    match t
    case OnlyLower => c.(onlylower := c.onlylower + 1)
    case OnlyUpper => c.(onlyupper := c.onlyupper + 1)
    case LowerIsDir => c.(backupd := c.backupd + 1)
    case UpperIsDir => c.(backupd := c.backupd + 1)
    case NotFile => c.(special := c.special + 1)
    case SameInode => c.(identical := c.identical + 1)
    case Older => c.(olderfiles := c.olderfiles + 1)
    case Newer => c.(newerfiles := c.newerfiles + 1)
    case SameFile => c.(samefiles := c.samefiles + 1)
    case Mismatch => c.(backupd := c.backupd + 1)
  }

  /** Sum of the nine category counters (everything but the three
      operation counters). */
  function Decisions(c: Tally): nat
  {
    c.identical + c.overrided + c.backupd + c.special + c.onlylower + c.onlyupper
    + c.olderfiles + c.newerfiles + c.samefiles
  }

  /** Sum of the three operation counters. */
  function Operations(c: Tally): nat
  {
    c.moved + c.removed + c.dirremoved
  }

  /** Each category method raises exactly one category counter by one,
      never `overrided` and never an operation counter; the three conflict
      categories all land on `backupd`. */
  lemma {:induction false} NotedOneCategory(c: Tally, t: Tag)
    ensures Decisions(Noted(c, t)) == Decisions(c) + 1
    ensures Operations(Noted(c, t)) == Operations(c)
    ensures Noted(c, t).overrided == c.overrided
    ensures Noted(c, t).moved == c.moved && Noted(c, t).removed == c.removed
    ensures Noted(c, t).dirremoved == c.dirremoved
    ensures Noted(c, t).backupd == c.backupd + (if t in {LowerIsDir, UpperIsDir, Mismatch} then 1 else 0)
  {
  }

  class Summary {
    var identical: nat
    var overrided: nat
    var backupd: nat
    var special: nat
    var onlylower: nat
    var onlyupper: nat
    var olderfiles: nat
    var newerfiles: nat
    var samefiles: nat
    var moved: nat
    var removed: nat
    var dirremoved: nat

    /** The counters as `report` prints them. */
    function Counters(): Tally
      reads this
    {
      Tally(identical, overrided, backupd, special, onlylower, onlyupper,
            olderfiles, newerfiles, samefiles, moved, removed, dirremoved)
    }

    constructor ()
      ensures Counters() == Zero
    {
      identical, overrided, backupd, special := 0, 0, 0, 0;
      onlylower, onlyupper, olderfiles, newerfiles, samefiles := 0, 0, 0, 0, 0;
      moved, removed, dirremoved := 0, 0, 0;
    }

    /** The counting half of the ten category methods (`only_in_lower` ..
        `mismatch`). */
    method Note(t: Tag)
      modifies this
      ensures Counters() == Noted(old(Counters()), t)
    {
      match t
      case OnlyLower => onlylower := onlylower + 1;
      case OnlyUpper => onlyupper := onlyupper + 1;
      case LowerIsDir => backupd := backupd + 1;
      case UpperIsDir => backupd := backupd + 1;
      case NotFile => special := special + 1;
      case SameInode => identical := identical + 1;
      case Older => olderfiles := olderfiles + 1;
      case Newer => newerfiles := newerfiles + 1;
      case SameFile => samefiles := samefiles + 1;
      case Mismatch => backupd := backupd + 1;
    }

    method Move()
      modifies this
      ensures Counters() == old(Counters()).(moved := old(moved) + 1)
    {
      moved := moved + 1;
    }

    method Remove()
      modifies this
      ensures Counters() == old(Counters()).(removed := old(removed) + 1)
    {
      removed := removed + 1;
    }

    method RemoveDir()
      modifies this
      ensures Counters() == old(Counters()).(dirremoved := old(dirremoved) + 1)
    {
      dirremoved := dirremoved + 1;
    }
  }
}
