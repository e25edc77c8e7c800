/** `ProgressReporter` of mergetree/mergetree.py: counts the entries the
    traversal visits and writes a progress line to standard error now and
    then, backing off by doubling a bit mask. */
module MergeProgress {
  import opened Common

  /** The bitwise `&` of two non-negative integers, bit by bit. */
  function BitAnd(x: nat, y: nat): nat
  {
    if x == 0 || y == 0 then 0
    else 2 * BitAnd(x / 2, y / 2) + (if x % 2 == 1 && y % 2 == 1 then 1 else 0)
  }

  lemma {:induction false} MulAtLeast(d: nat, a: nat)
    requires a >= 1
    ensures d * a >= d
  {
    assert d * a == d + d * (a - 1);
  }

  lemma {:induction false} DivModUnique(x: nat, d: nat, q: nat, r: nat)
    requires d >= 1 && x == d * q + r && r < d
    ensures x % d == r && x / d == q
  {
    var q', r' := x / d, x % d;
    assert x == d * q' + r' && 0 <= r' < d;
    if q < q' {
      assert d * q' == d * q + d * (q' - q);
      MulAtLeast(d, q' - q);
    } else if q' < q {
      assert d * q == d * q' + d * (q - q');
      MulAtLeast(d, q - q');
    }
  }

  /** Splitting off the lowest bit of `x` splits the remainder modulo
      `2 * p`. */
  lemma {:induction false} ModDouble(x: nat, p: nat)
    requires p >= 1
    ensures x % (2 * p) == 2 * ((x / 2) % p) + x % 2
  {
    var q, b := (x / 2) / p, (x / 2) % p;
    assert x / 2 == p * q + b && b < p;
    assert x == 2 * (x / 2) + x % 2;
    assert x == (2 * p) * q + (2 * b + x % 2);
    DivModUnique(x, 2 * p, q, 2 * b + x % 2);
  }

  /** Masking with `2p - 1` keeps the lowest bit and masks the rest with
      `p - 1`. */
  lemma {:induction false} BitAndOdd(x: nat, p: nat)
    requires x > 0 && p >= 1
    ensures BitAnd(x, 2 * p - 1) == 2 * BitAnd(x / 2, p - 1) + x % 2
  {
    var m := 2 * p - 1;
    assert m / 2 == p - 1 && m % 2 == 1;
  }

  /** One step of the induction: `x & (2p - 1)` from `(x / 2) & (p - 1)`. */
  lemma {:induction false} LowBitsStep(x: nat, p: nat)
    requires x > 0 && p >= 1 && BitAnd(x / 2, p - 1) == (x / 2) % p
    ensures BitAnd(x, 2 * p - 1) == x % (2 * p)
  {
    BitAndOdd(x, p);
    ModDouble(x, p);
  }

  /** Masking with `k` one-bits keeps the remainder modulo `2**k`, so
      `count & mask == 0` with `mask == 2**k - 1` asks whether `2**k`
      divides `count`. */
  lemma {:induction false} BitAndLowBits(x: nat, k: nat)
    ensures BitAnd(x, Pow2(k) - 1) == x % Pow2(k)
  {
    if k == 0 {
      assert Pow2(k) == 1;
    } else if x == 0 {
      DivModUnique(0, Pow2(k), 0, 0);
    } else {
      var p := Pow2(k - 1);
      assert Pow2(k) == 2 * p;
      BitAndLowBits(x / 2, k - 1);
      LowBitsStep(x, p);
    }
  }

  /** The values the mask takes: zero to eleven one-bits. */
  predicate IsMask(m: nat)
  {
    m == 0 || m == 1 || m == 3 || m == 7 || m == 15 || m == 31 || m == 63
    || m == 127 || m == 255 || m == 511 || m == 1023 || m == 2047
  }

  /** `c` is a power of two up to 1024. */
  predicate IsDoubling(c: nat)
  {
    c == 1 || c == 2 || c == 4 || c == 8 || c == 16 || c == 32
    || c == 64 || c == 128 || c == 256 || c == 512 || c == 1024
  }

  /** The counts at which the progress line is written when the mask grows
      on `count > mask`: every power of two up to 1024, then every multiple
      of 2048 once the mask has stopped growing at 2047. */
  predicate Shown(c: nat)
  {
    IsDoubling(c) || (c > 0 && c % 2048 == 0)
  }

  /** The window the mask keeps around the count: until it stops growing
      at 2047 it is at least the count and less than twice it. */
  predicate Gauge(count: nat, mask: nat)
  {
    && IsMask(mask)
    && (mask <= 1023 ==> count <= mask && (mask > 0 ==> mask < 2 * count))
    && (mask == 2047 ==> count >= 1024)
  }

  lemma {:induction false} Pow2Table()
    ensures Pow2(1) == 2 && Pow2(2) == 4 && Pow2(3) == 8 && Pow2(4) == 16 && Pow2(5) == 32
    ensures Pow2(6) == 64 && Pow2(7) == 128 && Pow2(8) == 256 && Pow2(9) == 512
    ensures Pow2(10) == 1024 && Pow2(11) == 2048
  {
    assert Pow2(1) == 2;
    assert Pow2(2) == 4;
    assert Pow2(3) == 8;
    assert Pow2(4) == 16;
    assert Pow2(5) == 32;
    assert Pow2(6) == 64;
    assert Pow2(7) == 128;
    assert Pow2(8) == 256;
    assert Pow2(9) == 512;
    assert Pow2(10) == 1024;
  }

  /** Every mask value is a run of `k` one-bits. */
  lemma {:induction false} MaskWidth(m: nat) returns (k: nat)
    requires IsMask(m)
    ensures k <= 11 && m == Pow2(k) - 1
  {
    Pow2Table();
    k := if m == 0 then 0 else if m == 1 then 1 else if m == 3 then 2 else if m == 7 then 3
         else if m == 15 then 4 else if m == 31 then 5 else if m == 63 then 6 else if m == 127 then 7
         else if m == 255 then 8 else if m == 511 then 9 else if m == 1023 then 10 else 11;
  }

  /** Below saturation the new count never exceeds the mask plus one. */
  lemma {:induction false} GrowingDecision(c: nat, P: nat)
    requires 1 <= c <= P <= 1024
    ensures c % P == 0 <==> c == P
    ensures c % 2048 != 0
  {
    if c < P {
      DivModUnique(c, P, 0, c);
    } else {
      DivModUnique(c, P, 1, 0);
    }
    DivModUnique(c, 2048, 0, c);
  }

  /** The tick decision of `increment()` when the mask grows on
      `count > mask`: with the new count `c` one past a count the mask's
      window holds, `c & mask == 0` exactly at the counts `Shown` names. */
  lemma {:induction false} TickDecision(c: nat, mask: nat)
    requires 1 <= c && Gauge(c - 1, mask)
    ensures BitAnd(c, mask) == 0 <==> Shown(c)
  {
    var k := MaskWidth(mask);
    BitAndLowBits(c, k);
    if mask <= 1023 {
      GrowingDecision(c, mask + 1);
      assert IsDoubling(c) <==> c == mask + 1;
    }
  }

  /** `count & mask == 0`, the test `increment()` makes before growing
      the mask: with the mask's window around the previous count, it holds
      exactly at the counts the schedule shows. */
  method TickDue(count: nat, mask: nat) returns (due: bool)
    requires 1 <= count && Gauge(count - 1, mask)
    ensures due <==> Shown(count)
  {
    due := BitAnd(count, mask) == 0;
    TickDecision(count, mask);
  }

  /** The mask growth of `increment()` (on `count > mask`, while the mask
      is below 1024) keeps the window. */
  lemma {:induction false} MaskStep(c: nat, mask: nat)
    requires 1 <= c && Gauge(c - 1, mask)
    ensures Gauge(c, if c > mask && mask < 1024 then 2 * mask + 1 else mask)
  {
  }

  /** What the reporter writes to standard error: the heading alone when it
      starts, the heading and the count on a tick, and the heading and the
      final count at the end. */
  datatype ProgressLine =
    | Title(heading: string)
    | Tick(current: Option<string>, count: nat)
    | Total(current: Option<string>, count: nat)

  /** The tick lines that `n` increments from the count `from` write. */
  function Ticks(h: Option<string>, from: nat, n: nat): (r: seq<ProgressLine>)
    ensures |r| <= n
    decreases n
  {
    if n == 0 then []
    else Ticks(h, from, n - 1) + (if Shown(from + n) then [Tick(h, from + n)] else [])
  }

  /** Count `c` adds its tick, if any, to the ticks since `from`. */
  lemma {:induction false} TickStep(h: Option<string>, from: nat, c: nat, mark: seq<ProgressLine>, prev: seq<ProgressLine>)
    requires from < c && prev == mark + Ticks(h, from, c - 1 - from)
    ensures Shown(c) ==> prev + [Tick(h, c)] == mark + Ticks(h, from, c - from)
    ensures !Shown(c) ==> prev == mark + Ticks(h, from, c - from)
  {
    assert Ticks(h, from, c - from) == Ticks(h, from, c - 1 - from) + (if Shown(c) then [Tick(h, c)] else []);
  }

  /** The reporter's invariant over its fields: the mask keeps its window
      around the count, and since the mark one tick has been written for
      each count the schedule shows. */
  ghost predicate Logged(count: nat, mask: nat, h: Option<string>, lines: seq<ProgressLine>,
                         mark: seq<ProgressLine>, from: nat)
  {
    Gauge(count, mask) && from <= count && lines == mark + Ticks(h, from, count - from)
  }

  /** One increment, with the tick decided by `Shown` and the mask grown
      as `increment()` grows it, keeps the invariant. */
  lemma {:induction false} IncrementKeeps(count: nat, mask: nat, h: Option<string>, lines: seq<ProgressLine>,
                       mark: seq<ProgressLine>, from: nat)
    requires Logged(count, mask, h, lines, mark, from)
    ensures Logged(count + 1, if count + 1 > mask && mask < 1024 then 2 * mask + 1 else mask, h,
                   lines + (if Shown(count + 1) then [Tick(h, count + 1)] else []), mark, from)
  {
    TickStep(h, from, count + 1, mark, lines);
    MaskStep(count + 1, mask);
  }

  /** The model of the reporter, with the intended mask schedule (the
      schedule as written is `TickAsWritten` below). `lines` is what it
      has written to standard error; `mark` is `lines` as it stood when
      the count was last `from`, at `start()` or `fin()`. */
  class ProgressReporter {
    var count: nat
    var mask: nat
    var heading: Option<string>
    const active: bool
    var lines: seq<ProgressLine>
    ghost var mark: seq<ProgressLine>
    ghost var from: nat

    ghost predicate Valid()
      reads this
    {
      Logged(count, mask, heading, lines, mark, from)
    }

    constructor (active: bool)
      ensures Valid() && this.active == active
      ensures count == 0 && mask == 0 && heading == None && lines == []
    {
      this.active := active;
      count := 0;
      mask := 0;
      heading := None;
      lines := [];
      mark := [];
      from := 0;
    }

    /** `start(heading)`: reset the count and the mask and write the
        heading. */
    method Start(h: string)
      requires Valid()
      modifies this
      ensures Valid()
      ensures active ==> count == 0 && mask == 0 && heading == Some(h) && lines == old(lines) + [Title(h)]
      ensures !active ==> count == old(count) && mask == old(mask) && heading == old(heading)
                          && lines == old(lines) && mark == old(mark) && from == old(from)
    {
      if active {
        count := 0;
        mask := 0;
        heading := Some(h);
        lines := lines + [Title(h)];
        mark := lines;
        from := 0;
      }
    }

    /** `increment()`: count one entry, write a tick when the count is a
        power of two up to 1024 or a multiple of 2048, and grow the mask. */
    method Increment()
      requires Valid()
      modifies this
      ensures Valid() && heading == old(heading) && mark == old(mark) && from == old(from)
      ensures count == old(count) + (if active then 1 else 0)
      ensures lines == old(lines) + (if active && Shown(count) then [Tick(heading, count)] else [])
    {
      if active {
        IncrementKeeps(count, mask, heading, lines, mark, from);
        var c := count + 1;
        var due := TickDue(c, mask);
        var l := if due then lines + [Tick(heading, c)] else lines;
        var m := if c > mask && mask < 1024 then 2 * mask + 1 else mask;
        count, mask, lines := c, m, l;
      }
    }

    /** `fin()`: write the heading and the final count. */
    method Fin()
      requires Valid()
      modifies this
      ensures Valid()
      ensures count == old(count) && mask == old(mask) && heading == old(heading)
      ensures lines == old(lines) + (if active then [Total(heading, count)] else [])
    {
      if active {
        lines := lines + [Total(heading, count)];
        mark := lines;
        from := count;
      }
    }
  }

  // ---------------------------------------------------------------------
  // The mask schedule as written
  // ---------------------------------------------------------------------

  /** The reporter's counter and mask, as a value. */
  datatype Meter = Meter(count: nat, mask: nat)

  /** One `increment()` as written: the mask grows on `count >= mask`.
      Returns the new meter and whether a tick line is written. */
  function TickAsWritten(m: Meter): (Meter, bool)
  {
    var c := m.count + 1;
    (Meter(c, if c >= m.mask && m.mask < 1024 then 2 * m.mask + 1 else m.mask), BitAnd(c, m.mask) == 0)
  }

  /** The counts at which ticks are written during `n` increments from `m`. */
  function TicksAsWritten(m: Meter, n: nat): (r: seq<nat>)
    ensures |r| <= n
    decreases n
  {
    if n == 0 then []
    else
      var (m', shown) := TickAsWritten(m);
      (if shown then [m'.count] else []) + TicksAsWritten(m', n - 1)
  }

  /** As written, the mask catches up with the count at 1 and then always
      stays ahead of it: after `start()` the fourth increment writes
      nothing, although four is a power of two. */
  lemma {:induction false} FourthTickMissing()
    ensures TicksAsWritten(Meter(0, 0), 4) == [1, 2]
    ensures !(4 in TicksAsWritten(Meter(0, 0), 4)) && Shown(4)
  {
    assert TickAsWritten(Meter(0, 0)) == (Meter(1, 1), true);
    assert TickAsWritten(Meter(1, 1)) == (Meter(2, 3), true);
    assert BitAnd(3, 3) == 3;
    assert TickAsWritten(Meter(2, 3)) == (Meter(3, 7), false);
    assert BitAnd(4, 7) == 4;
    assert TickAsWritten(Meter(3, 7)) == (Meter(4, 7), false);
    assert TicksAsWritten(Meter(4, 7), 0) == [];
  }

  /** The as-written meter from count 2 on: the mask is a run of one-bits
      ahead of the count until it stops growing at 2047. */
  predicate AheadAsWritten(m: Meter)
  {
    IsMask(m.mask) && m.count >= 2 && m.mask >= 3 && (m.count < m.mask || m.mask == 2047)
  }

  /** One as-written increment from such a meter ticks exactly at the
      multiples of 2048 and keeps the mask ahead. */
  lemma {:induction false} TickAsWrittenAhead(m: Meter)
    requires AheadAsWritten(m)
    ensures AheadAsWritten(TickAsWritten(m).0)
    ensures TickAsWritten(m).0.count == m.count + 1
    ensures TickAsWritten(m).1 <==> (m.count + 1) % 2048 == 0
  {
    var c := m.count + 1;
    var k := MaskWidth(m.mask);
    BitAndLowBits(c, k);
    Pow2Table();
    if m.mask < 2047 {
      assert c <= m.mask < Pow2(k) <= 1024;
      DivModUnique(c, Pow2(k), 0, c);
      DivModUnique(c, 2048, 0, c);
    }
  }

  /** `x` is a multiple of 2048 among the `n` counts after `lo`. */
  predicate Wraps(lo: nat, n: nat, x: nat)
  {
    lo < x <= lo + n && x % 2048 == 0
  }

  lemma {:induction false} TicksAhead(m: Meter, n: nat)
    requires AheadAsWritten(m)
    ensures forall x: nat :: x in TicksAsWritten(m, n) <==> Wraps(m.count, n, x)
    decreases n
  {
    if n > 0 {
      var r := TickAsWritten(m);
      var m', shown := r.0, r.1;
      var head: seq<nat> := if shown then [m'.count] else [];
      assert TicksAsWritten(m, n) == head + TicksAsWritten(m', n - 1);
      TickAsWrittenAhead(m);
      TicksAhead(m', n - 1);
      forall x: nat
        ensures x in TicksAsWritten(m, n) <==> Wraps(m.count, n, x)
      {
        assert x in TicksAsWritten(m, n) <==> x in head || x in TicksAsWritten(m', n - 1);
        assert Wraps(m.count, n, x) <==> (x == m'.count && shown) || Wraps(m'.count, n - 1, x);
      }
    }
  }

  /** The whole schedule as written: over any number of increments after
      `start()`, lines are written at counts 1 and 2 and then only at the
      multiples of 2048. */
  lemma {:induction false} TicksAsWrittenSchedule(n: nat)
    ensures forall x :: x in TicksAsWritten(Meter(0, 0), n) <==> 1 <= x <= n && (x == 1 || x == 2 || x % 2048 == 0)
  {
    assert TickAsWritten(Meter(0, 0)) == (Meter(1, 1), true);
    if n == 1 {
      assert TicksAsWritten(Meter(1, 1), 0) == [];
    } else if n >= 2 {
      assert TickAsWritten(Meter(1, 1)) == (Meter(2, 3), true);
      assert TicksAsWritten(Meter(0, 0), n) == [1] + TicksAsWritten(Meter(1, 1), n - 1);
      assert TicksAsWritten(Meter(1, 1), n - 1) == [2] + TicksAsWritten(Meter(2, 3), n - 2);
      TicksAhead(Meter(2, 3), n - 2);
      assert forall x: nat :: Wraps(2, n - 2, x) <==> 2 < x <= n && x % 2048 == 0;
    }
  }
}
