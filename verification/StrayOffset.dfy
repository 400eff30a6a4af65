/** A list whose last offset is wrong and that decodes all the same: where it points, two
    frequencies of the first block spell out the last block. */
module StrayOffset {
  import opened Varint
  import opened Postings
  import opened BlockOffsets

  const STRAY_BLOCK: nat := 11_069_504
  const STRAY_DOCID: nat := 0x1000_0000 + 128 * 11_069_504

  /** Consecutive documents from a docid on that takes five bytes, each with a frequency of
      two bytes but for two: one in the first block is the last docid, and one makes up
      for a byte. */
  function StrayPosting(i: nat): Posting
  {
    Posting(FAR_DOCID + i, if i == 63 then STRAY_DOCID else if i == 65 then 1 else 128)
  }

  /** The last block has a single posting. */
  ghost predicate IsStray(ps: seq<Posting>)
  {
    |ps| == BLOCK_SIZE * STRAY_BLOCK + 1 && forall i :: 0 <= i < |ps| ==> ps[i] == StrayPosting(i)
  }

  ghost function StrayList(): (ps: seq<Posting>)
    ensures IsStray(ps)
  {
    seq(BLOCK_SIZE * STRAY_BLOCK + 1, i requires 0 <= i => StrayPosting(i))
  }

  lemma {:induction false} StrayAscends(ps: seq<Posting>, n: nat)
    requires IsStray(ps) && n <= |ps|
    ensures AscendingTo(ps, n)
  {
    if 0 < n {
      StrayAscends(ps, n - 1);
    }
  }

  lemma StrayListValid()
    ensures ValidPostings(StrayList())
  {
    StrayAscends(StrayList(), |StrayList()|);
  }

  // ---- where its blocks start ----

  lemma SmallCodes()
    ensures |Encode(1)| == 1 && |Encode(128)| == 2
  {
    assert Encode(128) == [0x80] + Encode(1);
  }

  lemma {:induction false} StrayGaps(ps: seq<Posting>, start: nat, n: nat)
    requires IsStray(ps) && start < n <= |ps|
    ensures GapBytes(ps, start, n) == 5 + (n - start - 1)
  {
    hide Encode;
    FiveBytes(ps[start].docid);
    SmallCodes();
    if start < n - 1 {
      StrayGaps(ps, start, n - 1);
      assert GapAt(ps, start, n - 1) == 1;
    } else {
      assert GapBytes(ps, start, start) == 0;
    }
  }

  lemma {:induction false} StrayFreqs(ps: seq<Posting>, start: nat, n: nat)
    requires IsStray(ps) && start <= n <= |ps| && (start == 0 || 65 < start)
    ensures FreqBytes(ps, start, n) ==
      2 * (n - start) + (if start == 0 && 63 < n then 3 else 0) - if start == 0 && 65 < n then 1 else 0
  {
    hide Encode;
    SmallCodes();
    FiveBytes(STRAY_DOCID);
    if start < n {
      StrayFreqs(ps, start, n - 1);
    }
  }

  lemma {:induction false} StrayStart(ps: seq<Posting>, b: nat)
    requires IsStray(ps) && b <= STRAY_BLOCK
    ensures BlockCount(|ps|) == STRAY_BLOCK + 1 && BlockStart(ps, b) == 388 * b + if b == 0 then 0 else 2
  {
    if 0 < b {
      StrayStart(ps, b - 1);
      StrayGaps(ps, BLOCK_SIZE * (b - 1), BLOCK_SIZE * b);
      StrayFreqs(ps, BLOCK_SIZE * (b - 1), BLOCK_SIZE * b);
    }
  }

  // ---- what stands at the wrong offset ----

  /** Where the i-th number of the first block's code stands. */
  function CodeAt(i: nat): nat
  {
    if i == 0 then 0 else if i <= 128 then 4 + i else 132 + 2 * (i - 128)
  }

  lemma FirstBlockValue(ps: seq<Posting>, values: seq<nat>, i: nat)
    requires IsStray(ps) && BlockCount(|ps|) == STRAY_BLOCK + 1 && IsBlockCode(BlockOf(ps, 0), values) && i <= 192
    ensures |values| == 256
    ensures values[i] == if i == 0 then FAR_DOCID else if i < 128 then 1 else if i == 191 then STRAY_DOCID else 128
  {
    var block := BlockOf(ps, 0);
    if i < 128 {
      assert DocidBefore(block, i) + values[i] == block[i].docid;
    } else {
      assert values[128 + (i - 128)] == block[i - 128].tf;
    }
  }

  lemma {:induction false} FirstBlockCoded(ps: seq<Posting>, payload: seq<byte>, values: seq<nat>, i: nat)
    requires IsStray(ps) && BlockCount(|ps|) == STRAY_BLOCK + 1
    requires IsBlockCode(BlockOf(ps, 0), values) && Coded(payload, 0, values)
    requires i <= 191
    ensures |values| == 256 && Coded(payload, CodeAt(i), values[i..])
  {
    hide Encode, Coded, IsBlockCode, BlockOf, IsStray;
    FirstBlockValue(ps, values, i);
    if i == 0 {
      assert values[0..] == values;
    } else {
      FirstBlockCoded(ps, payload, values, i - 1);
      FirstBlockValue(ps, values, i - 1);
      TakeCode(payload, CodeAt(i - 1), values, i - 1);
      SmallCodes();
      FiveBytes(FAR_DOCID);
    }
  }

  lemma TwoCoded(data: seq<byte>, pos: nat, a: nat, b: nat)
    requires At(data, pos, Encode(a)) && At(data, pos + |Encode(a)|, Encode(b))
    ensures Coded(data, pos, [a, b])
  {
    hide Encode, At;
    var both, second: seq<nat> := [a, b], [b];
    var next := pos + |Encode(a)|;
    assert second[1..] == [] && Coded(data, next + |Encode(b)|, second[1..]);
    assert both[1..] == second && Coded(data, next, second);
  }

  /** The docid and the frequency of the last posting stand at 258. */
  lemma LastBlockSpelled(ps: seq<Posting>, payload: seq<byte>)
    requires IsStray(ps) && BlockCount(|ps|) == STRAY_BLOCK + 1 && CodedBlock(payload, 0, BlockOf(ps, 0))
    ensures CodedBlock(payload, 258, BlockOf(ps, STRAY_BLOCK))
  {
    var values :| IsBlockCode(BlockOf(ps, 0), values) && Coded(payload, 0, values);
    hide Encode, Coded;
    FirstBlockCoded(ps, payload, values, 191);
    FirstBlockValue(ps, values, 191);
    FirstBlockValue(ps, values, 192);
    TakeCode(payload, 258, values, 191);
    TakeCode(payload, 258 + |Encode(STRAY_DOCID)|, values, 192);
    TwoCoded(payload, 258, STRAY_DOCID, 128);
    var last: seq<nat> := [STRAY_DOCID, 128];
    assert IsBlockCode(BlockOf(ps, STRAY_BLOCK), last) && Coded(payload, 258, last);
  }

  /** So a list can decode to its postings although its last offset is wrong: that all
      offsets fit is enough for it and not necessary. */
  lemma WrongAndValid(t: TermList)
    requires t.postings == StrayList() && AsWritten(t)
    ensures !OffsetsFit(t.postings) && ValidList(t)
    ensures BlockStart(t.postings, STRAY_BLOCK) == UINT32_LIMIT + 258 && t.blocks[STRAY_BLOCK].payloadOffset == 258
  {
    hide CodedBlock, BlockStart, ValidPostings, StrayList, StrayPosting;
    var ps := t.postings;
    StrayStart(ps, STRAY_BLOCK);
    StrayStart(ps, 0);
    assert WrittenBlock(ps, t.blocks[0], t.payload, 0);
    LastBlockSpelled(ps, t.payload);
    forall b | 0 <= b < |t.blocks|
      ensures ValidBlock(t, b)
    {
      assert WrittenBlock(ps, t.blocks[b], t.payload, b);
      StrayStart(ps, b);
    }
  }
}
