/** Block hashing (internal/hash/hash.go) and block geometry (engine.go blockSizeAt). */
module Hashing {
  import opened Entries

  const MIN_BLOCK := 128 * 1024
  const MAX_BLOCK := 16 * 1024 * 1024

  function HashBytes(b: seq<Byte>): Digest
  {
    Sha256(b)
  }

  /** The content cut at the block size, each piece hashed; the last piece may be short. */
  function Cut(content: seq<Byte>, bs: nat): (r: seq<Digest>)
    requires bs > 0
    decreases |content|
  {
    if content == [] then []
    else if |content| <= bs then [HashBytes(content)]
    else [HashBytes(content[..bs])] + Cut(content[bs..], bs)
  }

  function Concat(chunks: seq<seq<Byte>>): seq<Byte>
  {
    if chunks == [] then [] else chunks[0] + Concat(chunks[1..])
  }

  /** A full block in front of any content is its own hash. */
  lemma CutFullBlock(block: seq<Byte>, rest: seq<Byte>, bs: nat)
    requires bs > 0 && |block| == bs
    ensures Cut(block + rest, bs) == [HashBytes(block)] + Cut(rest, bs)
  {
    var all := block + rest;
    if rest == [] {
      assert all == block;
    } else {
      assert all[..bs] == block && all[bs..] == rest;
    }
  }

  /** One read of BlockHashes: feed the buffer to the hasher, cutting at the block size.
      `later` is what the reader will still deliver. */
  method Feed(hashes: seq<Digest>, hasher: seq<Byte>, bs: nat, buf: seq<Byte>, ghost later: seq<Byte>)
    returns (hashes': seq<Digest>, hasher': seq<Byte>)
    requires |hasher| < bs
    ensures |hasher'| < bs
    ensures hashes' + Cut(hasher' + later, bs) == hashes + Cut(hasher + (buf + later), bs)
  {
    hashes', hasher' := hashes, hasher;
    var remaining := bs - |hasher|;
    var off := 0;
    assert buf[0..] == buf;
    while off < |buf|
      invariant 0 <= off <= |buf| && 0 < remaining <= bs && |hasher'| == bs - remaining
      invariant hashes' + Cut(hasher' + (buf[off..] + later), bs) == hashes + Cut(hasher + (buf + later), bs)
    {
      var take := |buf| - off;
      if take > remaining { take := remaining; }
      ghost var rest := buf[off + take..] + later;
      assert hasher' + (buf[off..] + later) == (hasher' + buf[off..off + take]) + rest;
      hasher' := hasher' + buf[off..off + take];
      off := off + take;
      remaining := remaining - take;
      if remaining == 0 {
        CutFullBlock(hasher', rest, bs);
        assert hashes' + ([HashBytes(hasher')] + Cut(rest, bs)) == hashes' + [HashBytes(hasher')] + Cut(rest, bs);
        hashes' := hashes' + [HashBytes(hasher')];
        hasher' := [];
        remaining := bs;
        assert hasher' + rest == rest;
      }
    }
    assert buf[off..] + later == later;
  }

  /** BlockHashes: `chunks` are the pieces the reader hands out, of any sizes; `broken` says
      the reader then fails instead of reporting the end. The hasher's state is the bytes
      written since its last reset. */
  method BlockHashes(chunks: seq<seq<Byte>>, broken: bool, blockSize: int) returns (r: Option<seq<Digest>>)
    ensures broken <==> r.None?
    ensures !broken ==> r.value == Cut(Concat(chunks), if blockSize <= 0 then MIN_BLOCK else blockSize)
  {
    var bs := if blockSize <= 0 then MIN_BLOCK else blockSize;
    var hasher: seq<Byte> := [];
    var hashes: seq<Digest> := [];
    assert chunks[0..] == chunks && hasher + Concat(chunks) == Concat(chunks);
    for i := 0 to |chunks|
      invariant |hasher| < bs
      invariant hashes + Cut(hasher + Concat(chunks[i..]), bs) == Cut(Concat(chunks), bs)
    {
      assert chunks[i..][0] == chunks[i] && chunks[i..][1..] == chunks[i + 1..];
      hashes, hasher := Feed(hashes, hasher, bs, chunks[i], Concat(chunks[i + 1..]));
    }
    if broken {
      return None;
    }
    assert chunks[|chunks|..] == [] && hasher + [] == hasher;
    if |hasher| != 0 {
      hashes := hashes + [HashBytes(hasher)];
    }
    r := Some(hashes);
  }

  /** blockSizeAt. */
  function BlockSizeAt(size: int, blockSize: int, idx: int): int
  {
    var bs := if blockSize <= 0 then MIN_BLOCK else blockSize;
    var remain := size - idx * bs;
    if remain <= 0 then 0 else if remain < bs then remain else bs
  }

  /** The number of blocks of a file of `size` bytes. */
  function BlockCount(size: nat, bs: nat): nat
    requires bs > 0
    decreases size
  {
    if size == 0 then 0 else if size <= bs then 1 else 1 + BlockCount(size - bs, bs)
  }

  /** BlockCount is the quotient rounded up. */
  lemma {:induction false} BlockCountIsCeiling(size: nat, bs: nat)
    requires bs > 0
    ensures (BlockCount(size, bs) - 1) * bs < size || size == 0
    ensures size <= BlockCount(size, bs) * bs
    decreases size
  {
    if size > bs {
      BlockCountIsCeiling(size - bs, bs);
      var k := BlockCount(size - bs, bs);
      assert (1 + k) * bs == k * bs + bs;
      assert (k - 1) * bs == k * bs - bs;
    } else if size > 0 {
      assert BlockCount(size, bs) == 1;
      assert 1 * bs == bs && 0 * bs == 0;
    }
  }

  /** The length of the block that starts at off. */
  function LengthAt(size: int, bs: int, off: int): int
  {
    if size - off <= 0 then 0 else if size - off < bs then size - off else bs
  }

  lemma ProductStep(i: int, bs: int)
    ensures (i - 1) * bs == i * bs - bs
  {
  }

  lemma {:induction false} CutAtOffset(content: seq<Byte>, bs: nat, i: nat, off: int)
    requires bs > 0 && i < |Cut(content, bs)| && off == i * bs
    ensures 0 <= off < |content| && off + LengthAt(|content|, bs, off) <= |content|
    ensures Cut(content, bs)[i] == HashBytes(content[off..off + LengthAt(|content|, bs, off)])
    decreases |content|
  {
    if i == 0 {
      assert content[0..|content|] == content && content[0..] == content;
    } else {
      var rest := content[bs..];
      ProductStep(i, bs);
      CutAtOffset(rest, bs, i - 1, off - bs);
      var size := LengthAt(|content|, bs, off);
      assert rest[off - bs..off - bs + size] == content[off..off + size];
    }
  }

  /** Hash i of a cut covers exactly the bytes blockSizeAt assigns to block i. */
  lemma CutAt(content: seq<Byte>, bs: nat, i: nat)
    requires bs > 0 && i < |Cut(content, bs)|
    ensures 0 <= i * bs && i * bs + BlockSizeAt(|content|, bs, i) <= |content|
    ensures BlockSizeAt(|content|, bs, i) > 0
    ensures Cut(content, bs)[i] == HashBytes(content[i * bs..i * bs + BlockSizeAt(|content|, bs, i)])
  {
    CutAtOffset(content, bs, i, i * bs);
  }

  lemma {:induction false} CutLength(content: seq<Byte>, bs: nat)
    requires bs > 0
    ensures |Cut(content, bs)| == BlockCount(|content|, bs)
    decreases |content|
  {
    if |content| > bs {
      CutLength(content[bs..], bs);
    }
  }

  /** Contents of equal length with equal cuts are equal: the block list identifies the bytes. */
  lemma {:induction false} CutInjective(a: seq<Byte>, b: seq<Byte>, bs: nat)
    requires bs > 0 && Cut(a, bs) == Cut(b, bs)
    ensures a == b
    decreases |a|
  {
    if a != [] && b != [] {
      if |a| <= bs || |b| <= bs {
        CutFirst(a, bs);
        CutFirst(b, bs);
      }
      if |a| > bs && |b| > bs {
        assert Cut(a, bs)[0] == HashBytes(a[..bs]) && Cut(b, bs)[0] == HashBytes(b[..bs]);
        assert Cut(a, bs)[1..] == Cut(a[bs..], bs) && Cut(b, bs)[1..] == Cut(b[bs..], bs);
        CutInjective(a[bs..], b[bs..], bs);
        assert a == a[..bs] + a[bs..] && b == b[..bs] + b[bs..];
      }
    }
  }

  lemma CutFirst(a: seq<Byte>, bs: nat)
    requires bs > 0 && a != []
    ensures |Cut(a, bs)| > 0 && (|Cut(a, bs)| == 1 <==> |a| <= bs)
    ensures |a| <= bs ==> Cut(a, bs) == [HashBytes(a)]
  {
    if |a| > bs {
      CutLength(a[bs..], bs);
      assert BlockCount(|a[bs..]|, bs) >= 1;
    }
  }

  // ---- the block size rule ----

  /** At most 2000 blocks of bs bytes. */
  predicate Fits(size: int, bs: int)
  {
    size <= 2000 * bs
  }

  /** The smallest size from bs upwards by doubling that keeps the file at 2000 blocks, or the ceiling. */
  function BestFrom(size: int, bs: int): int
    requires 0 < bs <= MAX_BLOCK
    decreases MAX_BLOCK - bs
  {
    if bs == MAX_BLOCK || Fits(size, bs) then bs
    else if 2 * bs <= MAX_BLOCK then BestFrom(size, 2 * bs)
    else MAX_BLOCK
  }

  predicate IsBlockSize(bs: int)
  {
    bs in {0x2_0000, 0x4_0000, 0x8_0000, 0x10_0000, 0x20_0000, 0x40_0000, 0x80_0000, 0x100_0000}
  }

  /** The rule: a power of two from 128 KiB to 16 MiB, the smallest one under which the file
      has at most 2000 blocks, or 16 MiB if none is enough. */
  lemma BestIsSmallest(size: int)
    ensures var r := BestFrom(size, MIN_BLOCK);
            && IsBlockSize(r)
            && (Fits(size, r) || r == MAX_BLOCK)
            && forall bs :: IsBlockSize(bs) && bs < r ==> !Fits(size, bs)
  {
    LadderStep(size, 0x2_0000);
    LadderStep(size, 0x4_0000);
    LadderStep(size, 0x8_0000);
    LadderStep(size, 0x10_0000);
    LadderStep(size, 0x20_0000);
    LadderStep(size, 0x40_0000);
    LadderStep(size, 0x80_0000);
  }

  lemma LadderStep(size: int, bs: int)
    requires 0 < bs && 2 * bs <= MAX_BLOCK
    ensures BestFrom(size, bs) == if Fits(size, bs) then bs else BestFrom(size, 2 * bs)
  {
  }

  /** Go's integer division, which truncates toward zero. */
  function Quotient(a: int, b: int): int
    requires b > 0
  {
    if a >= 0 then a / b else -((-a) / b)
  }

  lemma QuotientBound(x: int, bs: int)
    requires bs > 0
    ensures x >= 0 ==> (Quotient(x, bs) <= 2000 <==> x < 2001 * bs)
    ensures x < 0 ==> Quotient(x, bs) <= 0
  {
  }

  /** BlockSizeForSize in int64 arithmetic. It follows the rule exactly for sizes up to
      2^63 - 2^23; above that the rounding-up sum overflows and the loop stops too early. */
  method BlockSizeForSize(size: int) returns (bs: int)
    requires -0x8000_0000_0000_0000 <= size < 0x8000_0000_0000_0000
    ensures IsBlockSize(bs)
    ensures bs == BestFrom(size, MIN_BLOCK) <==> size <= 0x8000_0000_0000_0000 - 0x80_0000
  {
    if size <= 0 {
      return MIN_BLOCK;
    }
    bs := MIN_BLOCK;
    while bs < MAX_BLOCK
      invariant IsBlockSize(bs)
      invariant BestFrom(size, MIN_BLOCK) == BestFrom(size, bs)
      invariant bs == MAX_BLOCK ==> size <= 0x8000_0000_0000_0000 - 0x80_0000
      decreases MAX_BLOCK - bs
    {
      var sum := Wrap64(size + bs - 1);
      QuotientBound(sum, bs);
      LadderStep(size, bs);
      if Quotient(sum, bs) <= 2000 {
        break;
      }
      bs := bs * 2;
    }
    assert size > 0x7000_0000_0000_0000 ==> BestFrom(size, MIN_BLOCK) == MAX_BLOCK by { BestIsSmallest(size); }
  }
}
