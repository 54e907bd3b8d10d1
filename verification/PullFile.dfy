/** One file being pulled: a staged temp and the blocks known to be in it
    (engine.go Pull, StartPull, fillFromLocalCopy, NeedBlocks, ReceiveBlock, Finish;
    pull_run.go ReceiveBlocks; block_reuse.go FillBlocksFromLocal, writeLocalBlock). */
module PullFile {
  import opened Entries
  import opened Hashing

  /** A block still required, as asked from the peer. */
  datatype BlockNeed = BlockNeed(index: int, offset: int, size: int, hash: Digest)

  datatype PullState = PullState(info: FileInfo, temp: seq<Byte>, written: seq<bool>)

  /** The entry is well formed and lists the blocks of this content. */
  predicate Describes(info: FileInfo, content: seq<Byte>)
  {
    info.blockSize > 0 && info.size == |content| && info.blocks == Cut(content, info.blockSize)
  }

  /** Where block j starts, or the end of the file past the last block. */
  function Start(info: FileInfo, j: nat): int
  {
    if j == 0 then 0
    else if Start(info, j - 1) + info.blockSize <= info.size then Start(info, j - 1) + info.blockSize
    else info.size
  }

  lemma {:induction false} StartIsProduct(info: FileInfo, j: nat)
    requires info.blockSize > 0 && info.size >= 0
    ensures Start(info, j) == if j * info.blockSize <= info.size then j * info.blockSize else info.size
  {
    if j > 0 {
      StartIsProduct(info, j - 1);
      ProductStep(j, info.blockSize);
    }
  }

  /** The bytes of block i in the temp are the content's. */
  ghost predicate Holds(temp: seq<Byte>, content: seq<Byte>, info: FileInfo, i: nat)
  {
    forall k :: Start(info, i) <= k < Start(info, i + 1) && 0 <= k < |temp| && k < |content| ==> temp[k] == content[k]
  }

  /** The invariant of a pull: every block marked written is in the temp. */
  ghost predicate Sound(p: PullState, content: seq<Byte>)
  {
    && Describes(p.info, content)
    && |p.temp| == |content| && |p.written| == |p.info.blocks|
    && forall i :: 0 <= i < |p.written| && p.written[i] ==> Holds(p.temp, content, p.info, i)
  }

  /** WriteAt on a file. */
  function Patch(temp: seq<Byte>, off: nat, data: seq<Byte>): seq<Byte>
  {
    if off + |data| <= |temp| then temp[..off] + data + temp[off + |data|..]
    else if off <= |temp| then temp[..off] + data
    else temp + seq(off - |temp|, _ => 0) + data
  }

  /** os.File.Truncate: cut, or extend with zeros. */
  function Truncate(temp: seq<Byte>, size: nat): (r: seq<Byte>)
    ensures |r| == size
  {
    if size <= |temp| then temp[..size] else temp + seq(size - |temp|, _ => 0)
  }

  /** Blocks first..last-1 marked. */
  function Mark(written: seq<bool>, first: int, last: int): (r: seq<bool>)
    ensures |r| == |written|
    ensures forall i :: 0 <= i < |r| ==> r[i] == (written[i] || first <= i < last)
  {
    seq(|written|, i requires 0 <= i < |written| => written[i] || first <= i < last)
  }

  // ---- geometry of a described file ----

  lemma BlockGeometry(info: FileInfo, content: seq<Byte>, i: nat)
    requires Describes(info, content) && i < |info.blocks|
    ensures Start(info, i) == i * info.blockSize
    ensures 0 <= Start(info, i) < Start(info, i + 1) <= |content|
    ensures Start(info, i + 1) == Start(info, i) + BlockSizeAt(info.size, info.blockSize, i)
    ensures info.blocks[i] == HashBytes(content[Start(info, i)..Start(info, i + 1)])
  {
    CutAt(content, info.blockSize, i);
    StartIsProduct(info, i);
    StartIsProduct(info, i + 1);
    ProductStep(i + 1, info.blockSize);
  }

  lemma LastBlockEnds(info: FileInfo, content: seq<Byte>)
    requires Describes(info, content)
    ensures Start(info, |info.blocks|) == |content|
  {
    CutLength(content, info.blockSize);
    BlockCountIsCeiling(|content|, info.blockSize);
    StartIsProduct(info, |info.blocks|);
  }

  lemma {:induction false} StartsAscend(info: FileInfo, content: seq<Byte>, i: nat, j: nat)
    requires Describes(info, content) && i <= j <= |info.blocks|
    ensures Start(info, i) <= Start(info, j)
    ensures i < j ==> Start(info, i) < Start(info, j)
    decreases j
  {
    if i < j {
      StartsAscend(info, content, i, j - 1);
      BlockGeometry(info, content, j - 1);
    }
  }

  /** Marking blocks whose bytes were just written keeps the pull sound. */
  lemma MarkedIsSound(p: PullState, content: seq<Byte>, first: nat, last: nat, data: seq<Byte>)
    requires Sound(p, content) && first <= last <= |p.info.blocks|
    requires 0 <= Start(p.info, first) <= Start(p.info, last) <= |content|
    requires data == content[Start(p.info, first)..Start(p.info, last)]
    ensures Sound(PullState(p.info, Patch(p.temp, Start(p.info, first), data), Mark(p.written, first, last)), content)
  {
    var off := Start(p.info, first);
    var temp := Patch(p.temp, off, data);
    forall i | 0 <= i < |p.written| && (p.written[i] || first <= i < last)
      ensures Holds(temp, content, p.info, i)
    {
      if p.written[i] {
        assert Holds(p.temp, content, p.info, i);
        PatchKeeps(p.temp, content, p.info, off, data, i);
      } else {
        PatchFills(p.temp, content, p.info, first, last, data, i);
      }
    }
  }

  lemma PatchKeeps(temp: seq<Byte>, content: seq<Byte>, info: FileInfo, off: nat, data: seq<Byte>, i: nat)
    requires |temp| == |content| && off + |data| <= |content| && data == content[off..off + |data|] && Holds(temp, content, info, i)
    ensures Holds(Patch(temp, off, data), content, info, i)
  {
  }

  lemma PatchFills(temp: seq<Byte>, content: seq<Byte>, info: FileInfo, first: nat, last: nat, data: seq<Byte>, i: nat)
    requires Describes(info, content) && |temp| == |content| && first <= i < last <= |info.blocks|
    requires 0 <= Start(info, first) <= Start(info, last) <= |content|
    requires data == content[Start(info, first)..Start(info, last)]
    ensures Holds(Patch(temp, Start(info, first), data), content, info, i)
  {
    StartsAscend(info, content, first, i);
    StartsAscend(info, content, i + 1, last);
  }

  // ---- one block ----

  /** ReceiveBlock and writeLocalBlock: a block is accepted exactly when its hash matches. */
  function WriteBlock(p: PullState, idx: int, data: seq<Byte>): Option<PullState>
  {
    if idx < 0 || idx >= |p.info.blocks| || HashBytes(data) != p.info.blocks[idx] || p.info.blockSize < 0 then None
    else Some(p.(temp := Patch(p.temp, idx * p.info.blockSize, data), written := Mark(p.written, idx, idx + 1)))
  }

  lemma WriteBlockIsSound(p: PullState, content: seq<Byte>, idx: int, data: seq<Byte>)
    requires Sound(p, content) && WriteBlock(p, idx, data).Some?
    ensures Sound(WriteBlock(p, idx, data).value, content)
  {
    BlockGeometry(p.info, content, idx);
    MarkedIsSound(p, content, idx, idx + 1, data);
  }

  // ---- a run of blocks ----

  /** The index after the last block when data from position pos on is exactly whole,
      verified blocks from idx on. */
  function ScanRun(info: FileInfo, idx: nat, data: seq<Byte>, pos: nat): (r: Option<nat>)
    requires pos <= |data|
    ensures r.Some? ==> idx <= r.value && (pos < |data| ==> r.value <= |info.blocks|)
    decreases |data| - pos, |info.blocks| - idx
  {
    if pos == |data| then Some(idx)
    else if idx >= |info.blocks| then None
    else
      var size := BlockSizeAt(info.size, info.blockSize, idx);
      if pos + size > |data| || HashBytes(data[pos..pos + size]) != info.blocks[idx] then None
      else ScanRun(info, idx + 1, data, pos + size)
  }

  /** ReceiveBlocks: the whole run verifies and is written, or nothing changes. */
  function ReceiveRun(p: PullState, first: int, data: seq<Byte>): Option<PullState>
    requires p.info.blockSize > 0
  {
    if first < 0 || first >= |p.info.blocks| then None
    else match ScanRun(p.info, first, data, 0)
      case None => None
      case Some(last) =>
        Some(p.(temp := Patch(p.temp, first * p.info.blockSize, data), written := Mark(p.written, first, last)))
  }

  lemma StartBounds(info: FileInfo, content: seq<Byte>, i: nat, j: nat)
    requires Describes(info, content) && i <= j <= |info.blocks|
    ensures 0 <= Start(info, i) <= Start(info, j) <= |content|
    ensures i < j ==> Start(info, i) < Start(info, j)
  {
    LastBlockEnds(info, content);
    StartsAscend(info, content, 0, i);
    StartsAscend(info, content, i, j);
    StartsAscend(info, content, j, |info.blocks|);
    assert Start(info, 0) == 0;
  }

  lemma SliceSplit(data: seq<Byte>, pos: nat, size: nat, content: seq<Byte>, lo: nat, mid: nat, hi: nat)
    requires pos + size <= |data| && lo + size == mid <= hi <= |content|
    ensures data[pos..] == content[lo..hi] <==>
            data[pos..pos + size] == content[lo..mid] && data[pos + size..] == content[mid..hi]
  {
    assert data[pos..] == data[pos..pos + size] + data[pos + size..];
    assert content[lo..hi] == content[lo..mid] + content[mid..hi];
    if data[pos..] == content[lo..hi] {
      assert data[pos..][..size] == content[lo..hi][..size];
      assert data[pos..][size..] == content[lo..hi][size..];
    }
  }

  /** A scan succeeds exactly on the content's bytes up to some block boundary. */
  lemma {:induction false} ScanMeaning(info: FileInfo, content: seq<Byte>, idx: nat, data: seq<Byte>, pos: nat, j: nat)
    requires Describes(info, content) && idx <= j <= |info.blocks| && pos <= |data|
    requires 0 <= Start(info, idx) <= Start(info, j) <= |content|
    ensures ScanRun(info, idx, data, pos) == Some(j) <==> data[pos..] == content[Start(info, idx)..Start(info, j)]
    decreases |info.blocks| - idx
  {
    StartBounds(info, content, idx, j);
    if pos < |data| && idx < j {
      var size := BlockSizeAt(info.size, info.blockSize, idx);
      BlockGeometry(info, content, idx);
      StartBounds(info, content, idx + 1, j);
      if pos + size <= |data| {
        ScanMeaning(info, content, idx + 1, data, pos + size, j);
        SliceSplit(data, pos, size, content, Start(info, idx), Start(info, idx + 1), Start(info, j));
      }
    }
  }

  /** On any sound pull, a run that is exactly the content's blocks first..j-1 is accepted and
      marks exactly those blocks; anything else is refused. */
  lemma RunMeaning(p: PullState, content: seq<Byte>, first: nat, data: seq<Byte>, j: nat)
    requires Sound(p, content) && first < |p.info.blocks| && first <= j <= |p.info.blocks|
    ensures 0 <= Start(p.info, first) <= Start(p.info, j) <= |content|
    ensures data == content[Start(p.info, first)..Start(p.info, j)] ==>
              ReceiveRun(p, first, data).Some? && ReceiveRun(p, first, data).value.written == Mark(p.written, first, j)
    ensures ScanRun(p.info, first, data, 0) == Some(j) ==>
              data == content[Start(p.info, first)..Start(p.info, j)]
  {
    StartBounds(p.info, content, first, j);
    ScanMeaning(p.info, content, first, data, 0, j);
    assert data[0..] == data;
  }

  lemma ReceiveRunIsSound(p: PullState, content: seq<Byte>, first: int, data: seq<Byte>)
    requires Sound(p, content) && ReceiveRun(p, first, data).Some?
    ensures Sound(ReceiveRun(p, first, data).value, content)
  {
    var last := ScanRun(p.info, first, data, 0).value;
    RunMeaning(p, content, first, data, last);
    BlockGeometry(p.info, content, first);
    MarkedIsSound(p, content, first, last, data);
  }

  // ---- resume ----

  /** The temp holds the content's first n blocks. */
  ghost predicate HoldsFirst(temp: seq<Byte>, content: seq<Byte>, info: FileInfo, n: nat)
  {
    forall k :: 0 <= k < n ==> Holds(temp, content, info, k)
  }

  /** Re-hashing a block of the temp tells whether it holds the content's bytes. */
  lemma HashTells(info: FileInfo, content: seq<Byte>, temp: seq<Byte>, i: nat)
    requires Describes(info, content) && |temp| == |content| && i < |info.blocks|
    requires 0 <= Start(info, i) <= Start(info, i + 1) <= |content|
    ensures HashBytes(temp[Start(info, i)..Start(info, i + 1)]) == info.blocks[i] <==> Holds(temp, content, info, i)
  {
    BlockGeometry(info, content, i);
    var off, end := Start(info, i), Start(info, i + 1);
    if temp[off..end] == content[off..end] {
      forall k | off <= k < end ensures temp[k] == content[k] {
        assert temp[off..end][k - off] == content[off..end][k - off];
      }
    }
  }

  // ---- completeness ----

  /** When every block is written the temp is the content. */
  lemma CompleteIsContent(p: PullState, content: seq<Byte>)
    requires Sound(p, content) && forall i :: 0 <= i < |p.written| ==> p.written[i]
    ensures p.temp == content
  {
    var bs: nat := p.info.blockSize;
    CutLength(p.temp, bs);
    CutLength(content, bs);
    forall i | 0 <= i < |p.info.blocks| ensures Cut(p.temp, bs)[i] == Cut(content, bs)[i] {
      CutAt(p.temp, bs, i);
      BlockGeometry(p.info, content, i);
      assert Holds(p.temp, content, p.info, i);
      assert p.temp[Start(p.info, i)..Start(p.info, i + 1)] == content[Start(p.info, i)..Start(p.info, i + 1)];
    }
    CutInjective(p.temp, content, bs);
  }

  function NeedOf(info: FileInfo, i: nat): BlockNeed
    requires i < |info.blocks|
  {
    BlockNeed(i, i * info.blockSize, BlockSizeAt(info.size, info.blockSize, i), info.blocks[i])
  }

  /** The blocks not written yet, from block i on. */
  function NeedsFrom(info: FileInfo, written: seq<bool>, i: nat): seq<BlockNeed>
    requires |written| == |info.blocks| && i <= |info.blocks|
    decreases |info.blocks| - i
  {
    if i == |info.blocks| then []
    else (if written[i] then [] else [NeedOf(info, i)]) + NeedsFrom(info, written, i + 1)
  }

  /** A need for an unwritten block from i on. */
  ghost predicate IsNeed(info: FileInfo, written: seq<bool>, i: nat, n: BlockNeed)
    requires |written| == |info.blocks|
  {
    i <= n.index < |info.blocks| && !written[n.index] && n == NeedOf(info, n.index)
  }

  ghost predicate AscendingNeeds(needs: seq<BlockNeed>)
  {
    forall j, k :: 0 <= j < k < |needs| ==> needs[j].index < needs[k].index
  }

  /** The needs list exactly the unwritten blocks, in ascending order. */
  lemma {:induction false} NeedsAreUnwritten(info: FileInfo, written: seq<bool>, i: nat)
    requires |written| == |info.blocks| && i <= |info.blocks|
    ensures AscendingNeeds(NeedsFrom(info, written, i))
    ensures forall k :: 0 <= k < |NeedsFrom(info, written, i)| ==> IsNeed(info, written, i, NeedsFrom(info, written, i)[k])
    decreases |info.blocks| - i
  {
    if i < |info.blocks| {
      NeedsAreUnwritten(info, written, i + 1);
    }
  }

  lemma {:induction false} UnwrittenIsNeeded(info: FileInfo, written: seq<bool>, i: nat, b: nat)
    requires |written| == |info.blocks| && i <= b < |info.blocks| && !written[b]
    ensures NeedOf(info, b) in NeedsFrom(info, written, i)
    decreases |info.blocks| - i
  {
    if i < b {
      UnwrittenIsNeeded(info, written, i + 1, b);
    }
  }

  /** What a local read produced for a needed block; None when it failed. */
  type LocalRead = BlockNeed -> Option<seq<Byte>>

  /** The read returned bytes that hash to the block. */
  predicate Serves(read: LocalRead, need: BlockNeed)
  {
    read(need).Some? && HashBytes(read(need).value) == need.hash
  }

  function Indices(needs: seq<BlockNeed>): set<int>
  {
    set n | n in needs :: n.index
  }

  lemma IndicesGrow(needs: seq<BlockNeed>, n: nat)
    requires n < |needs|
    ensures Indices(needs[..n + 1]) == Indices(needs[..n]) + {needs[n].index}
  {
    assert needs[..n + 1] == needs[..n] + [needs[n]];
  }

  /** Exactly these blocks were added. */
  ghost predicate Marked(before: seq<bool>, after: seq<bool>, added: set<int>)
  {
    |before| == |after| && forall i :: 0 <= i < |after| ==> (after[i] <==> before[i] || i in added)
  }

  /** The loop of NeedBlocks: every unwritten block in order, with its place and hash. */
  method ListNeeds(info: FileInfo, written: seq<bool>) returns (needs: seq<BlockNeed>)
    requires |written| == |info.blocks|
    ensures needs == NeedsFrom(info, written, 0)
  {
    needs := [];
    for i := 0 to |info.blocks|
      invariant needs + NeedsFrom(info, written, i) == NeedsFrom(info, written, 0)
    {
      if !written[i] {
        needs := needs + [NeedOf(info, i)];
      }
    }
  }

  /** The resume loop: blocks are re-verified in order until the first that does not match, so
      exactly the longest prefix of the content's blocks in the temp is marked. */
  method Recheck(info: FileInfo, ghost content: seq<Byte>, temp: seq<Byte>) returns (checked: seq<bool>)
    requires Describes(info, content) && |temp| == |content|
    ensures |checked| == |info.blocks|
    ensures forall i :: 0 <= i < |checked| ==> (checked[i] <==> HoldsFirst(temp, content, info, i + 1))
  {
    checked := seq(|info.blocks|, _ => false);
    var n := 0;
    while n < |info.blocks|
      invariant 0 <= n <= |info.blocks| == |checked|
      invariant HoldsFirst(temp, content, info, n)
      invariant forall i :: 0 <= i < |checked| ==> (checked[i] <==> i < n)
    {
      var off, size := n * info.blockSize, BlockSizeAt(info.size, info.blockSize, n);
      BlockGeometry(info, content, n);
      HashTells(info, content, temp, n);
      if HashBytes(temp[off..off + size]) != info.blocks[n] {
        return;
      }
      checked := checked[n := true];
      n := n + 1;
    }
  }

  class Pull {
    const info: FileInfo
    /** The bytes the peer's entry describes. */
    ghost const content: seq<Byte>
    var temp: seq<Byte>
    var written: seq<bool>

    ghost function State(): PullState
      reads this
    {
      PullState(info, temp, written)
    }

    ghost predicate Valid()
      reads this
    {
      Sound(State(), content)
    }

    /** StartPull: resume a staged temp of the right size, or start over. `staged` is the temp
        left on disk by an earlier attempt, `reopens` whether it could be opened again. */
    constructor StartPull(info: FileInfo, ghost content: seq<Byte>, staged: Option<seq<Byte>>, reopens: bool)
      requires Describes(info, content)
      ensures Valid() && this.info == info && this.content == content
      ensures if staged.Some? && |staged.value| == info.size && reopens
              then temp == staged.value && forall i :: 0 <= i < |written| ==> (written[i] <==> HoldsFirst(temp, content, info, i + 1))
              else forall i :: 0 <= i < |written| ==> !written[i]
    {
      this.info := info;
      this.content := content;
      var unmarked := seq(|info.blocks|, _ => false);
      if staged.Some? && |staged.value| == info.size && reopens {
        var checked := Recheck(info, content, staged.value);
        temp, written := staged.value, checked;
      } else {
        temp := Truncate(if staged.Some? then staged.value else [], info.size);
        written := unmarked;
      }
    }

    method NeedBlocks() returns (needs: seq<BlockNeed>)
      requires |written| == |info.blocks|
      ensures needs == NeedsFrom(info, written, 0)
    {
      needs := ListNeeds(info, written);
    }

    /** ReceiveBlock, and writeLocalBlock for bytes of a local donor. */
    method ReceiveBlock(idx: int, data: seq<Byte>) returns (ok: bool)
      requires Valid()
      modifies this
      ensures Valid()
      ensures ok <==> WriteBlock(old(State()), idx, data).Some?
      ensures State() == if ok then WriteBlock(old(State()), idx, data).value else old(State())
    {
      if idx < 0 || idx >= |info.blocks| {
        return false;
      }
      if HashBytes(data) != info.blocks[idx] {
        return false;
      }
      WriteBlockIsSound(State(), content, idx, data);
      temp := Patch(temp, idx * info.blockSize, data);
      written := Mark(written, idx, idx + 1);
      ok := true;
    }

    /** One block from a local donor: read, verify against the peer's hash, write. */
    method CopyBlock(read: LocalRead, need: BlockNeed) returns (ok: bool)
      requires Valid() && 0 <= need.index < |info.blocks| && need.hash == info.blocks[need.index]
      modifies this
      ensures Valid()
      ensures ok <==> Serves(read, need)
      ensures Marked(old(written), written, if ok then {need.index} else {})
    {
      var bytes := read(need);
      if bytes.None? {
        return false;
      }
      ok := ReceiveBlock(need.index, bytes.value);
    }

    /** fillFromLocalCopy: copy needed blocks from one donor until a read fails or drifts. */
    method FillFromLocalCopy(read: LocalRead) returns (filled: nat)
      requires Valid()
      modifies this
      ensures Valid()
      ensures var needs := NeedsFrom(info, old(written), 0);
              && filled <= |needs|
              && (forall k :: 0 <= k < filled ==> Serves(read, needs[k]))
              && (filled < |needs| ==> !Serves(read, needs[filled]))
              && Marked(old(written), written, Indices(needs[..filled]))
    {
      var needs := NeedBlocks();
      NeedsAreUnwritten(info, written, 0);
      filled := 0;
      while filled < |needs|
        invariant 0 <= filled <= |needs| && Valid()
        invariant forall k :: 0 <= k < filled ==> Serves(read, needs[k])
        invariant Marked(old(written), written, Indices(needs[..filled]))
      {
        var ok := CopyBlock(read, needs[filled]);
        if !ok { break; }
        IndicesGrow(needs, filled);
        filled := filled + 1;
      }
    }

    /** FillBlocksFromLocal: try every needed block, skipping those no donor serves. */
    method FillBlocksFromLocal(read: LocalRead) returns (reused: nat)
      requires Valid()
      modifies this
      ensures Valid()
      ensures forall i :: 0 <= i < |written| ==> (written[i] <==> old(written)[i] || Serves(read, NeedOf(info, i)))
    {
      reused := 0;
      var needs := NeedBlocks();
      NeedsAreUnwritten(info, written, 0);
      for n := 0 to |needs|
        invariant Valid()
        invariant forall i :: 0 <= i < |written| ==>
            (written[i] <==> old(written)[i] || (i in Indices(needs[..n]) && Serves(read, NeedOf(info, i))))
      {
        IndicesGrow(needs, n);
        var ok := CopyBlock(read, needs[n]);
        if ok { reused := reused + 1; }
      }
      forall i | 0 <= i < |written| && !old(written)[i] ensures i in Indices(needs[..|needs|]) {
        UnwrittenIsNeeded(info, old(written), 0, i);
        assert NeedOf(info, i) in needs[..|needs|];
      }
    }

    /** The verification loop of ReceiveBlocks. */
    static method CheckRun(info: FileInfo, first: nat, data: seq<Byte>) returns (last: Option<nat>)
      requires first < |info.blocks| && info.blockSize > 0
      ensures last == ScanRun(info, first, data, 0)
    {
      var pos, idx := 0, first;
      while pos < |data|
        invariant 0 <= pos <= |data| && first <= idx <= |info.blocks|
        invariant ScanRun(info, idx, data, pos) == ScanRun(info, first, data, 0)
        decreases |info.blocks| - idx
      {
        if idx >= |info.blocks| {
          return None;
        }
        var size := BlockSizeAt(info.size, info.blockSize, idx);
        if pos + size > |data| {
          return None;
        }
        if HashBytes(data[pos..pos + size]) != info.blocks[idx] {
          return None;
        }
        pos := pos + size;
        idx := idx + 1;
      }
      last := Some(idx);
    }

    /** ReceiveBlocks: verify the whole run, then one write; any defect leaves the pull as it was. */
    method ReceiveBlocks(first: int, data: seq<Byte>) returns (ok: bool)
      requires Valid()
      modifies this
      ensures Valid()
      ensures ok <==> ReceiveRun(old(State()), first, data).Some?
      ensures State() == if ok then ReceiveRun(old(State()), first, data).value else old(State())
    {
      if first < 0 || first >= |info.blocks| {
        return false;
      }
      var last := CheckRun(info, first, data);
      if last.None? {
        return false;
      }
      ReceiveRunIsSound(State(), content, first, data);
      temp := Patch(temp, first * info.blockSize, data);
      written := Mark(written, first, last.value);
      ok := true;
    }

    /** Finish: commits the temp when no block is missing, and then it is the peer's content. */
    method Finish() returns (committed: Option<seq<Byte>>)
      requires Valid()
      ensures committed.Some? <==> forall i :: 0 <= i < |written| ==> written[i]
      ensures committed.Some? ==> committed.value == content
    {
      for i := 0 to |written|
        invariant forall k :: 0 <= k < i ==> written[k]
      {
        if !written[i] {
          return None;
        }
      }
      CompleteIsContent(State(), content);
      committed := Some(temp);
    }
  }
}
