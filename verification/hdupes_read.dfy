/** The two read loops of hdupes/hdupes.py: `FileDigest.calc`, which feeds
    the first chunks of a file to the hasher, and `compare_file_content`,
    which compares two files chunk by chunk. A file is its content, and
    `f.read(BUFSIZE)` on a regular file returns the next `BUFSIZE` bytes,
    or what is left when fewer remain. */
module HdupesRead {
  import opened Common

  type Byte = bv8

  /** `BUFSIZE`. */
  const BufSize: nat := 4096

  function Min(a: nat, b: nat): nat
  {
    if a <= b then a else b
  }

  /** `f.read(BUFSIZE)` with the file position at `pos`. */
  function Read(c: seq<Byte>, pos: nat): (buf: seq<Byte>)
    ensures |buf| <= BufSize
    ensures buf == [] <==> pos >= |c|
    ensures pos < |c| ==> pos + |buf| <= |c| && buf == c[pos..pos + |buf|]
    ensures pos < |c| ==> |buf| == BufSize || pos + |buf| == |c|
  {
    if pos >= |c| then [] else c[pos..Min(pos + BufSize, |c|)]
  }

  function Concat(bs: seq<seq<Byte>>): seq<Byte>
  {
    if bs == [] then [] else Concat(bs[..|bs| - 1]) + bs[|bs| - 1]
  }

  /** `c` cut into `BUFSIZE` chunks, the last one possibly shorter. */
  function Chunks(c: seq<Byte>): (bs: seq<seq<Byte>>)
    decreases |c|
  {
    if c == [] then [] else [c[..Min(BufSize, |c|)]] + Chunks(c[Min(BufSize, |c|)..])
  }

  /** Chunks as `read` returns them: none empty, all full but the last. */
  predicate Chunked(bs: seq<seq<Byte>>)
  {
    forall i :: 0 <= i < |bs| ==> 0 < |bs[i]| <= BufSize && (i < |bs| - 1 ==> |bs[i]| == BufSize)
  }

  lemma {:induction false} ConcatCons(b: seq<Byte>, bs: seq<seq<Byte>>)
    ensures Concat([b] + bs) == b + Concat(bs)
    decreases |bs|
  {
    if bs != [] {
      var s := [b] + bs;
      assert s[..|s| - 1] == [b] + bs[..|bs| - 1];
      ConcatCons(b, bs[..|bs| - 1]);
    }
  }

  /** There is only one way to chunk a content: any chunking of `c` as
      `read` returns it is `Chunks(c)`, and `Chunks(c)` is one. */
  lemma {:induction false} ChunksUnique(c: seq<Byte>, bs: seq<seq<Byte>>)
    requires Chunked(bs) && Concat(bs) == c
    ensures bs == Chunks(c)
    decreases |bs|
  {
    if bs != [] {
      ConcatCons(bs[0], bs[1..]);
      assert bs == [bs[0]] + bs[1..];
      var rest := Concat(bs[1..]);
      if bs[1..] != [] {
        ConcatCons(bs[1], bs[2..]);
        assert bs[1..] == [bs[1]] + bs[2..];
        assert |bs[0]| == BufSize;
      } else {
        assert rest == [];
      }
      assert c[..Min(BufSize, |c|)] == bs[0] && c[Min(BufSize, |c|)..] == rest;
      ChunksUnique(rest, bs[1..]);
    }
  }

  lemma {:induction false} ChunksChunked(c: seq<Byte>)
    ensures Chunked(Chunks(c)) && Concat(Chunks(c)) == c
    decreases |c|
  {
    if c != [] {
      var k := Min(BufSize, |c|);
      ChunksChunked(c[k..]);
      ConcatCons(c[..k], Chunks(c[k..]));
      assert c == c[..k] + c[k..];
    }
  }

  lemma {:induction false} ChunkedSnoc(bs: seq<seq<Byte>>, b: seq<Byte>)
    requires Chunked(bs) && (bs != [] ==> |bs[|bs| - 1]| == BufSize) && 0 < |b| <= BufSize
    ensures Chunked(bs + [b])
  {
  }

  /** `calc(path, level)` up to the hashing: the buffers handed to
      `m.update`, in order. At most `1 << level` reads are fed, reading
      stops at the first empty one, and what is fed is the file's first
      `(1 << level) * BUFSIZE` bytes (all of it when it is shorter), cut
      into `BUFSIZE` chunks. */
  method Calc(content: seq<Byte>, level: nat) returns (fed: seq<seq<Byte>>)
    ensures |fed| <= Pow2(level) && Chunked(fed)
    ensures Concat(fed) == content[..Min(|content|, Pow2(level) * BufSize)]
    ensures fed == Chunks(content[..Min(|content|, Pow2(level) * BufSize)])
  {
    var pos := 0;
    fed := [];
    for i := 0 to Pow2(level)
      invariant Chunked(fed) && |fed| <= i
      invariant pos == Min(i * BufSize, |content|) && Concat(fed) == content[..pos]
      invariant fed != [] && |fed[|fed| - 1]| < BufSize ==> pos == |content|
    {
      var buf := Read(content, pos);
      if |buf| == 0 {
        break;
      }
      ChunkedSnoc(fed, buf);
      fed := fed + [buf];
      assert content[..pos + |buf|] == content[..pos] + buf;
      pos := pos + |buf|;
    }
    ChunksUnique(Concat(fed), fed);
  }

  /** `compare_file_content(file1, file2)` with offset 0: read both files a
      chunk at a time; unequal chunks answer `False`, and two empty reads
      answer `True`. The answer is whether the contents are equal. */
  method CompareContent(c1: seq<Byte>, c2: seq<Byte>) returns (same: bool)
    ensures same <==> c1 == c2
  {
    var pos := 0;
    while true
      invariant pos <= |c1| && pos <= |c2| && c1[..pos] == c2[..pos]
      decreases |c1| - pos
    {
      var d1 := Read(c1, pos);
      var d2 := Read(c2, pos);
      if d1 != d2 {
        return false;
      }
      if |d1| == 0 {
        break;
      }
      assert c1[..pos + |d1|] == c1[..pos] + d1 && c2[..pos + |d2|] == c2[..pos] + d2;
      pos := pos + |d1|;
    }
    assert c1 == c1[..pos] && c2 == c2[..pos];
    return true;
  }
}
