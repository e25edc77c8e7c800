/** `Stats` of chkfdupes/chkfdupes.py: the counters behind the final
    report. */
module ChkStats {

  /** The five counters, as a value. */
  datatype Counts = Counts(entries: nat, empty: nat, duplicates: nat, maxDuplicates: nat, savingBlocks: nat)

  const Initial := Counts(0, 0, 0, 0, 0)

  function Max(a: nat, b: nat): nat
  {
    if a < b then b else a
  }

  /** `add_duplicates(n)`: `n` more duplicates, and the largest group seen. */
  function WithDuplicates(c: Counts, n: nat): (r: Counts)
    ensures r.duplicates == c.duplicates + n
    ensures r.maxDuplicates >= n && r.maxDuplicates >= c.maxDuplicates
    ensures r.maxDuplicates == n || r.maxDuplicates == c.maxDuplicates
    ensures r.(duplicates := c.duplicates, maxDuplicates := c.maxDuplicates) == c
  {
    c.(duplicates := c.duplicates + n, maxDuplicates := Max(c.maxDuplicates, n))
  }

  /** The sum and the largest of the group counts `ns`, defined on their
      own. */
  function Sum(ns: seq<nat>): nat
  {
    if ns == [] then 0 else Sum(ns[..|ns| - 1]) + ns[|ns| - 1]
  }

  function Largest(ns: seq<nat>): (m: nat)
    ensures forall i :: 0 <= i < |ns| ==> ns[i] <= m
    ensures ns == [] ==> m == 0
    ensures ns != [] ==> m in ns
  {
    if ns == [] then 0 else Max(Largest(ns[..|ns| - 1]), ns[|ns| - 1])
  }

  /** `add_duplicates` called with each of `ns` in turn. */
  function AddedAll(c: Counts, ns: seq<nat>): Counts
  {
    if ns == [] then c else WithDuplicates(AddedAll(c, ns[..|ns| - 1]), ns[|ns| - 1])
  }

  /** From the initial counters, `num_duplicates` is the sum of all the
      group counts added and `max_duplicates` the largest of them. */
  lemma {:induction false} AddedAllSumLargest(ns: seq<nat>)
    ensures AddedAll(Initial, ns).duplicates == Sum(ns)
    ensures AddedAll(Initial, ns).maxDuplicates == Largest(ns)
  {
    if ns != [] {
      AddedAllSumLargest(ns[..|ns| - 1]);
    }
  }

  /** `max_duplicates` never exceeds `num_duplicates`. */
  predicate Consistent(c: Counts)
  {
    c.maxDuplicates <= c.duplicates
  }

  lemma {:induction false} WithDuplicatesConsistent(c: Counts, n: nat)
    requires Consistent(c)
    ensures Consistent(WithDuplicates(c, n))
  {
  }

  class Stats {
    var numEntries: nat
    var numEmpty: nat
    var numDuplicates: nat
    var maxDuplicates: nat
    var savingBlocks: nat

    function Values(): Counts
      reads this
    {
      Counts(numEntries, numEmpty, numDuplicates, maxDuplicates, savingBlocks)
    }

    ghost predicate Valid()
      reads this
    {
      Consistent(Values())
    }

    constructor ()
      ensures Valid() && Values() == Initial
    {
      numEntries, numEmpty, numDuplicates, maxDuplicates, savingBlocks := 0, 0, 0, 0, 0;
    }

    /** `add_entry(n)` (its progress output is not modelled). */
    method AddEntry(n: nat)
      requires Valid()
      modifies this
      ensures Valid() && Values() == old(Values()).(entries := old(numEntries) + n)
    {
      numEntries := numEntries + n;
    }

    method AddEmpty(n: nat)
      requires Valid()
      modifies this
      ensures Valid() && Values() == old(Values()).(empty := old(numEmpty) + n)
    {
      numEmpty := numEmpty + n;
    }

    method AddDuplicates(n: nat)
      requires Valid()
      modifies this
      ensures Valid() && Values() == WithDuplicates(old(Values()), n)
    {
      numDuplicates := numDuplicates + n;
      if n > maxDuplicates {
        maxDuplicates := n;
      }
    }

    method AddSavingBlocks(n: nat)
      requires Valid()
      modifies this
      ensures Valid() && Values() == old(Values()).(savingBlocks := old(savingBlocks) + n)
    {
      savingBlocks := savingBlocks + n;
    }
  }
}
