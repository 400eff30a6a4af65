/** Where the blocks of a term start in its payload, and when the 32 bits a record keeps
    of that place are enough. */
module BlockOffsets {
  import opened Varint
  import opened Postings

  // ---- sizes ----

  /** What is coded for posting i of a block that starts at `start`. */
  function GapAt(ps: seq<Posting>, start: nat, i: nat): nat
    requires start <= i < |ps|
  {
    if i == start || ps[i].docid < ps[i - 1].docid then ps[i].docid else ps[i].docid - ps[i - 1].docid
  }

  function GapBytes(ps: seq<Posting>, start: nat, n: nat): nat
    requires start <= n <= |ps|
  {
    if n == start then 0 else GapBytes(ps, start, n - 1) + |Encode(GapAt(ps, start, n - 1))|
  }

  function FreqBytes(ps: seq<Posting>, start: nat, n: nat): nat
    requires start <= n <= |ps|
  {
    if n == start then 0 else FreqBytes(ps, start, n - 1) + |Encode(ps[n - 1].tf)|
  }

  function BlockBytes(ps: seq<Posting>, b: nat): nat
    requires b < BlockCount(|ps|)
  {
    var start, end := BLOCK_SIZE * b, BLOCK_SIZE * b + BlockLength(|ps|, b);
    GapBytes(ps, start, end) + FreqBytes(ps, start, end)
  }

  /** The bytes coded before block b. */
  function BlockStart(ps: seq<Posting>, b: nat): nat
    requires b <= BlockCount(|ps|)
  {
    if b == 0 then 0 else BlockStart(ps, b - 1) + BlockBytes(ps, b - 1)
  }

  lemma {:induction false} SizesBounded(ps: seq<Posting>, start: nat, n: nat)
    requires ValidPostings(ps) && start <= n <= |ps|
    ensures n - start <= GapBytes(ps, start, n) <= 5 * (n - start)
    ensures n - start <= FreqBytes(ps, start, n) <= 5 * (n - start)
  {
    if start < n {
      hide ValidPostings, Encode;
      SizesBounded(ps, start, n - 1);
      PostingSizes(ps, start, n - 1);
    }
  }

  lemma PostingSizes(ps: seq<Posting>, start: nat, i: nat)
    requires ValidPostings(ps) && start <= i < |ps|
    ensures 1 <= |Encode(GapAt(ps, start, i))| <= 5 && 1 <= |Encode(ps[i].tf)| <= 5
  {
    hide Encode;
    AscendingOrder(ps, |ps|);
    assert Fits(ps[i]);
    EncodeLength(GapAt(ps, start, i));
    EncodeLength(ps[i].tf);
  }

  lemma {:induction false} StartsAscend(ps: seq<Posting>, b: nat, c: nat)
    requires ValidPostings(ps) && b <= c <= BlockCount(|ps|)
    ensures BlockStart(ps, b) <= BlockStart(ps, c)
    ensures b < c ==> BlockStart(ps, b) < BlockStart(ps, c)
  {
    if b < c {
      StartsAscend(ps, b, c - 1);
      SizesBounded(ps, BLOCK_SIZE * (c - 1), BLOCK_SIZE * (c - 1) + BlockLength(|ps|, c - 1));
    }
  }

  lemma {:induction false} StartBounded(ps: seq<Posting>, b: nat)
    requires ValidPostings(ps) && b < BlockCount(|ps|)
    ensures BlockStart(ps, b) <= 10 * BLOCK_SIZE * b
  {
    if 0 < b {
      StartBounded(ps, b - 1);
      SizesBounded(ps, BLOCK_SIZE * (b - 1), BLOCK_SIZE * (b - 1) + BlockLength(|ps|, b - 1));
    }
  }

  // ---- 32 bits of an offset ----

  /** The last block starts within 4 GiB. */
  predicate OffsetsFit(ps: seq<Posting>)
  {
    BlockCount(|ps|) == 0 || BlockStart(ps, BlockCount(|ps|) - 1) < UINT32_LIMIT
  }

  /** Block b as the builder writes it: coded where it starts, of which place the record
      keeps the low 32 bits. */
  ghost predicate WrittenBlock(ps: seq<Posting>, meta: BlockMeta, payload: seq<byte>, b: nat)
    requires b < BlockCount(|ps|)
  {
    && meta.count == BlockLength(|ps|, b)
    && meta.maxDocid == ps[BLOCK_SIZE * b + meta.count - 1].docid
    && meta.payloadOffset == BlockStart(ps, b) % UINT32_LIMIT
    && CodedBlock(payload, BlockStart(ps, b), BlockOf(ps, b))
  }

  ghost predicate AsWritten(t: TermList)
  {
    && ValidPostings(t.postings) && |t.blocks| == BlockCount(|t.postings|)
    && |t.payload| == BlockStart(t.postings, |t.blocks|)
    && forall b {:trigger t.blocks[b]} :: 0 <= b < |t.blocks| ==> WrittenBlock(t.postings, t.blocks[b], t.payload, b)
  }

  /** Every recorded offset is the place its block starts at, exactly if the last block
      starts within 4 GiB. */
  lemma OffsetsRight(t: TermList)
    requires AsWritten(t)
    ensures OffsetsFit(t.postings) <==>
      forall b :: 0 <= b < |t.blocks| ==> t.blocks[b].payloadOffset == BlockStart(t.postings, b)
  {
    hide ValidPostings, BlockStart, CodedBlock;
    var ps, last := t.postings, |t.blocks| - 1;
    if OffsetsFit(ps) {
      forall b | 0 <= b < |t.blocks|
        ensures t.blocks[b].payloadOffset == BlockStart(ps, b)
      {
        StartsAscend(ps, b, last);
        assert WrittenBlock(ps, t.blocks[b], t.payload, b);
      }
    } else {
      assert WrittenBlock(ps, t.blocks[last], t.payload, last);
    }
  }

  /** Then the list decodes to the postings it was made from. */
  lemma FittingIsValid(t: TermList)
    requires AsWritten(t) && OffsetsFit(t.postings)
    ensures ValidList(t)
  {
    hide ValidPostings, BlockStart, CodedBlock;
    OffsetsRight(t);
    forall b | 0 <= b < |t.blocks|
      ensures ValidBlock(t, b)
    {
      assert WrittenBlock(t.postings, t.blocks[b], t.payload, b);
    }
  }

  /** 429,496,729 postings are never too many. */
  lemma SmallFits(ps: seq<Posting>)
    requires ValidPostings(ps) && 10 * |ps| <= UINT32_LIMIT
    ensures OffsetsFit(ps)
  {
    var blocks := BlockCount(|ps|);
    if 0 < blocks {
      StartBounded(ps, blocks - 1);
    }
  }

  // ---- a list that does not fit ----

  const FAR_DOCID: nat := 0x1000_0000
  const FAR_BLOCKS: nat := 16_519_106

  /** Consecutive documents from a docid on that takes five bytes: 260 bytes a block. */
  function FarPosting(i: nat): Posting
  {
    Posting(FAR_DOCID + i, 1)
  }

  ghost predicate IsFar(ps: seq<Posting>)
  {
    |ps| == BLOCK_SIZE * FAR_BLOCKS && forall i :: 0 <= i < |ps| ==> ps[i] == FarPosting(i)
  }

  ghost function FarList(): (ps: seq<Posting>)
    ensures IsFar(ps)
  {
    seq(BLOCK_SIZE * FAR_BLOCKS, i requires 0 <= i => FarPosting(i))
  }

  lemma FarListValid()
    ensures ValidPostings(FarList())
  {
    FarAscends(FarList(), |FarList()|);
  }

  lemma {:induction false} FarAscends(ps: seq<Posting>, n: nat)
    requires IsFar(ps) && n <= |ps|
    ensures AscendingTo(ps, n)
  {
    if 0 < n {
      FarAscends(ps, n - 1);
    }
  }

  lemma FiveBytes(v: nat)
    requires FAR_DOCID <= v < UINT32_LIMIT
    ensures |Encode(v)| == 5 && Encode(v)[0] == v % 0x80 + 0x80
    ensures v == FAR_DOCID ==> Encode(v)[4] == 1
  {
    var v1 := v / 0x80;
    var v2 := v1 / 0x80;
    var v3 := v2 / 0x80;
    var v4 := v3 / 0x80;
    assert 0x20_0000 <= v1 && 0x4000 <= v2 && 0x80 <= v3 && 1 <= v4 < 0x80;
    assert Encode(v) == [v % 0x80 + 0x80] + Encode(v1);
    assert Encode(v1) == [v1 % 0x80 + 0x80] + Encode(v2);
    assert Encode(v2) == [v2 % 0x80 + 0x80] + Encode(v3);
    assert Encode(v3) == [v3 % 0x80 + 0x80] + Encode(v4);
    assert Encode(v4) == [v4];
  }

  lemma {:induction false} FarSizes(ps: seq<Posting>, start: nat, n: nat)
    requires IsFar(ps) && start < n <= |ps|
    ensures GapBytes(ps, start, n) == 5 + (n - start - 1) && FreqBytes(ps, start, n) == n - start
  {
    hide Encode;
    FiveBytes(ps[start].docid);
    OneByte();
    if start < n - 1 {
      FarSizes(ps, start, n - 1);
      assert GapAt(ps, start, n - 1) == 1;
    } else {
      assert GapBytes(ps, start, start) == 0 && FreqBytes(ps, start, start) == 0;
    }
  }

  lemma OneByte()
    ensures |Encode(1)| == 1
  {
  }

  lemma {:induction false} FarStart(ps: seq<Posting>, b: nat)
    requires IsFar(ps) && b < FAR_BLOCKS
    ensures BlockCount(|ps|) == FAR_BLOCKS && BlockStart(ps, b) == 260 * b
  {
    if 0 < b {
      FarStart(ps, b - 1);
      FarSizes(ps, BLOCK_SIZE * (b - 1), BLOCK_SIZE * b);
    }
  }

  lemma FirstCode(payload: seq<byte>, offset: nat, block: seq<Posting>)
    requires block != [] && CodedBlock(payload, offset, block)
    ensures At(payload, offset, Encode(block[0].docid))
  {
    hide Encode;
    var values :| IsBlockCode(block, values) && Coded(payload, offset, values);
  }

  /** Its last block starts at 4 GiB and four bytes, of which the record keeps the four,
      and what stands there is not the block. */
  lemma OffsetWraps(t: TermList)
    requires t.postings == FarList() && AsWritten(t)
    ensures !OffsetsFit(t.postings) && !ValidList(t)
    ensures BlockStart(t.postings, FAR_BLOCKS - 1) == UINT32_LIMIT + 4 && t.blocks[FAR_BLOCKS - 1].payloadOffset == 4
  {
    hide Encode, CodedBlock, BlockStart, ValidPostings, FarList;
    var ps, last := t.postings, FAR_BLOCKS - 1;
    FarStart(ps, 0);
    FarStart(ps, last);
    assert WrittenBlock(ps, t.blocks[0], t.payload, 0) && WrittenBlock(ps, t.blocks[last], t.payload, last);
    FirstCode(t.payload, 0, BlockOf(ps, 0));
    FiveBytes(FAR_DOCID);
    assert t.payload[4] == t.payload[0..5][4] == 1;
    if ValidList(t) {
      assert ValidBlock(t, last);
      var first := BlockOf(ps, last)[0].docid;
      FirstCode(t.payload, 4, BlockOf(ps, last));
      FiveBytes(first);
    }
  }
}
