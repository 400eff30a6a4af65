/** The skip-capable cursor over one term's blocks. */
module PostingCursor {
  import opened Ranking
  import opened Varint
  import opened Postings

  class Cursor {
    /** The cursor's place in the vector it was opened in: its address, to the sort. */
    const id: nat
    const blocks: seq<BlockMeta>
    const payload: seq<byte>
    const idf: Score
    const maxImpact: Score

    var blockIndex: nat
    var position: nat
    var docid: nat
    var freq: nat
    var exhausted: bool
    const docids: array<nat>
    const freqs: array<nat>
    /** This cursor's share of the statistics. */
    var blocksDecoded: nat

    /** What the blocks and the payload stand for. */
    ghost const list: TermList

    ghost predicate Static()
    {
      && ValidList(list)
      && blocks == list.blocks && payload == list.payload
      && idf == list.idf && maxImpact == list.maxImpact
      && docids.Length == freqs.Length == BLOCK_SIZE && docids != freqs
    }

    /** The buffers hold block `blockIndex`. */
    ghost predicate Buffered()
      requires Static()
      reads this, docids, freqs
    {
      && blockIndex < |blocks|
      && forall i :: 0 <= i < BlockLength(|list.postings|, blockIndex) ==>
           list.postings[BLOCK_SIZE * blockIndex + i] == Posting(docids[i], freqs[i])
    }

    ghost predicate Valid()
      reads this, docids, freqs
    {
      && Static()
      && blocksDecoded <= blockIndex + 1
      && if exhausted then
           blockIndex == |blocks| && docid == NO_DOCID && blocksDecoded <= |blocks|
         else
           && Buffered()
           && position < BlockLength(|list.postings|, blockIndex)
           && docid == docids[position] && freq == freqs[position]
    }

    /** No block was skipped so far. */
    ghost predicate Thorough()
      reads this
    {
      blocksDecoded == if exhausted then |blocks| else blockIndex + 1
    }

    /** How many postings of the list are behind the cursor. */
    ghost function Passed(): (n: nat)
      requires Valid()
      reads this, docids, freqs
      ensures n <= |list.postings|
      ensures exhausted <==> n == |list.postings|
      ensures !exhausted ==> list.postings[n] == Posting(docid, freq)
    {
      if exhausted then |list.postings| else BLOCK_SIZE * blockIndex + position
    }

    constructor (id: nat, ghost list: TermList, blocks: seq<BlockMeta>, payload: seq<byte>,
                 idf: Score, maxImpact: Score)
      requires ValidList(list)
      requires blocks == list.blocks && payload == list.payload
      requires idf == list.idf && maxImpact == list.maxImpact
      ensures Valid() && fresh(docids) && fresh(freqs) && Passed() == 0
      ensures this.id == id && this.list == list && Thorough()
    {
      this.id, this.list := id, list;
      this.blocks, this.payload, this.idf, this.maxImpact := blocks, payload, idf, maxImpact;
      docids, freqs := new nat[BLOCK_SIZE], new nat[BLOCK_SIZE];
      blockIndex, position, docid, freq, exhausted, blocksDecoded := 0, 0, 0, 0, false, 0;
      new;
      if |blocks| == 0 {
        Exhaust();
      } else {
        EnterBlock();
      }
    }

    function BlockMaxImpact(): Score
      requires Valid() && !exhausted
      reads this, docids, freqs
    {
      blocks[blockIndex].maxImpact
    }

    function BlockMaxDocid(): nat
      requires Valid() && !exhausted
      reads this, docids, freqs
    {
      blocks[blockIndex].maxDocid
    }

    method DecodeBlock()
      requires Static() && blockIndex < |blocks|
      modifies `position, `blocksDecoded, docids, freqs
      ensures Buffered() && position == 0
      ensures blocksDecoded == old(blocksDecoded) + 1
    {
      hide ValidList, Coded, IsBlockCode, Fits;
      ghost var block, values := BlockIsCoded(list, blockIndex);
      var count := blocks[blockIndex].count;
      var pos := DecodeDocids(payload, blocks[blockIndex].payloadOffset, docids, count, block, values);
      DecodeFreqs(payload, pos, freqs, count, block, values);
      position := 0;
      blocksDecoded := blocksDecoded + 1;
    }

    /** Decodes the block under the cursor and shows its first posting. */
    method EnterBlock()
      requires Static() && blockIndex < |blocks| && !exhausted && blocksDecoded <= blockIndex
      modifies this, docids, freqs
      ensures Valid() && !exhausted && blockIndex == old(blockIndex)
      ensures Passed() == BLOCK_SIZE * blockIndex
      ensures blocksDecoded == old(blocksDecoded) + 1
    {
      DecodeBlock();
      docid := docids[0];
      freq := freqs[0];
    }

    method Exhaust()
      requires Static() && blockIndex == |blocks| && blocksDecoded <= |blocks|
      modifies this
      ensures Valid() && exhausted && blocksDecoded == old(blocksDecoded)
    {
      exhausted := true;
      docid := NO_DOCID;
    }

    method Next()
      requires Valid()
      modifies this, docids, freqs
      ensures Valid()
      ensures Passed() == if old(exhausted) then old(Passed()) else old(Passed()) + 1
      ensures old(Thorough()) ==> Thorough()
    {
      if exhausted {
        return;
      }
      BlockFacts(list, blockIndex);
      position := position + 1;
      if position >= blocks[blockIndex].count {
        blockIndex := blockIndex + 1;
        if blockIndex >= |blocks| {
          Exhaust();
        } else {
          EnterBlock();
        }
        return;
      }
      docid := docids[position];
      freq := freqs[position];
    }

    /** Only postings before `target` are given up, and the block under the cursor
        reaches up to `target`. */
    method SkipToBlock(target: nat)
      requires Valid() && target <= NO_DOCID
      modifies this, docids, freqs
      ensures Valid()
      ensures old(Passed()) <= Passed()
      ensures forall p :: old(Passed()) <= p < Passed() ==> list.postings[p].docid < target
      ensures !exhausted ==> target <= blocks[blockIndex].maxDocid
      ensures old(docid) >= target ==> Passed() == old(Passed())
    {
      if exhausted {
        return;
      }
      var entry := blockIndex;
      BlockFacts(list, entry);
      while blockIndex < |blocks| && blocks[blockIndex].maxDocid < target
        invariant entry <= blockIndex <= |blocks|
        invariant forall b :: entry <= b < blockIndex ==> blocks[b].maxDocid < target
        invariant unchanged(docids) && unchanged(freqs) && unchanged(`position)
        invariant !exhausted && blocksDecoded == old(blocksDecoded)
        invariant docid == old(docid) && freq == old(freq)
      {
        blockIndex := blockIndex + 1;
      }
      BlocksBehind(list, entry, blockIndex, target);
      if blockIndex >= |blocks| {
        Exhaust();
        return;
      }
      if blockIndex != entry {
        EnterBlock();
      }
    }

    /** Lands on the first posting at or after `target` among those not yet passed. */
    method NextGeq(target: nat)
      requires Valid() && target <= NO_DOCID
      modifies this, docids, freqs
      ensures Valid()
      ensures old(Passed()) <= Passed()
      ensures forall p :: old(Passed()) <= p < Passed() ==> list.postings[p].docid < target
      ensures target <= docid
    {
      hide ValidList;
      if exhausted || docid >= target {
        return;
      }
      SkipToBlock(target);
      if exhausted {
        return;
      }
      ScanBlock(target);
    }

    /** The block's last docid is at least the target, so the scan stops inside it and the
        step into the following block never happens. */
    method ScanBlock(target: nat)
      requires Valid() && !exhausted && target <= blocks[blockIndex].maxDocid
      modifies `position, `docid, `freq
      ensures Valid() && target <= docid
      ensures old(Passed()) <= Passed()
      ensures forall p :: old(Passed()) <= p < Passed() ==> list.postings[p].docid < target
    {
      BlockFacts(list, blockIndex);
      hide ValidList;
      var count := blocks[blockIndex].count;
      ghost var base := BLOCK_SIZE * blockIndex;
      position := ScanDocids(docids, position, count, target);
      assert docids[count - 1] == list.postings[base + count - 1].docid;
      if position >= count {
        assert false;
      }
      forall p | old(Passed()) <= p < base + position
        ensures list.postings[p].docid < target
      {
        assert docids[p - base] < target;
      }
      docid := docids[position];
      freq := freqs[position];
    }
  }

  /** Reads `count` gaps and writes their running sums. */
  method DecodeDocids(payload: seq<byte>, start: nat, docids: array<nat>, count: nat,
                      ghost block: seq<Posting>, ghost values: seq<nat>)
    returns (pos: nat)
    requires count == |block| <= docids.Length && IsBlockCode(block, values)
    requires forall i :: 0 <= i < count ==> Fits(block[i])
    requires Coded(payload, start, values)
    modifies docids
    ensures forall i :: 0 <= i < count ==> docids[i] == block[i].docid
    ensures Coded(payload, pos, values[count..])
  {
    hide Coded, Encode, IsBlockCode, DocidBefore, Fits;
    var previous := 0;
    pos := start;
    assert values[0..] == values;
    CodeStart(block, values);
    for i := 0 to count
      invariant Coded(payload, pos, values[i..])
      invariant previous == DocidBefore(block, i)
      invariant forall j :: 0 <= j < i ==> docids[j] == block[j].docid
    {
      CodeOf(block, values, i);
      TakeCode(payload, pos, values, i);
      var gap;
      gap, pos := GetVarint(payload, pos, values[i]);
      previous := if i == 0 then gap else previous + gap;
      docids[i] := previous;
    }
  }

  method DecodeFreqs(payload: seq<byte>, start: nat, freqs: array<nat>, count: nat,
                     ghost block: seq<Posting>, ghost values: seq<nat>)
    requires count == |block| <= freqs.Length && IsBlockCode(block, values)
    requires forall i :: 0 <= i < count ==> Fits(block[i])
    requires Coded(payload, start, values[count..])
    modifies freqs
    ensures forall i :: 0 <= i < count ==> freqs[i] == block[i].tf
  {
    hide Coded, Encode, IsBlockCode, DocidBefore, Fits;
    CodeStart(block, values);
    var pos := start;
    for i := 0 to count
      invariant Coded(payload, pos, values[count + i..])
      invariant forall j :: 0 <= j < i ==> freqs[j] == block[j].tf
    {
      CodeOf(block, values, i);
      TakeCode(payload, pos, values, count + i);
      var tf;
      tf, pos := GetVarint(payload, pos, values[count + i]);
      freqs[i] := tf;
    }
  }

  lemma CodeStart(block: seq<Posting>, values: seq<nat>)
    requires IsBlockCode(block, values)
    ensures |values| == 2 * |block| && DocidBefore(block, 0) == 0
  {
  }

  /** What a block's code says of its i-th posting. */
  lemma CodeOf(block: seq<Posting>, values: seq<nat>, i: nat)
    requires i < |block| && IsBlockCode(block, values) && Fits(block[i])
    ensures |values| == 2 * |block| && values[i] < UINT32_LIMIT
    ensures DocidBefore(block, i) + values[i] == block[i].docid == DocidBefore(block, i + 1)
    ensures values[|block| + i] == block[i].tf < UINT32_LIMIT
  {
  }

  method ScanDocids(docids: array<nat>, from: nat, count: nat, target: nat) returns (position: nat)
    requires from <= count <= docids.Length
    ensures from <= position <= count
    ensures forall p :: from <= p < position ==> docids[p] < target
    ensures position < count ==> target <= docids[position]
  {
    position := from;
    while position < count && docids[position] < target
      invariant from <= position <= count
      invariant forall p :: from <= p < position ==> docids[p] < target
    {
      position := position + 1;
    }
  }

  /** What stands at a block's payload offset. */
  lemma BlockIsCoded(t: TermList, b: nat) returns (block: seq<Posting>, values: seq<nat>)
    requires ValidList(t) && b < |t.blocks|
    ensures |block| == t.blocks[b].count == BlockLength(|t.postings|, b)
    ensures forall i :: 0 <= i < |block| ==> Fits(block[i]) && block[i] == t.postings[BLOCK_SIZE * b + i]
    ensures IsBlockCode(block, values)
    ensures Coded(t.payload, t.blocks[b].payloadOffset, values)
  {
    assert ValidBlock(t, b);
    AscendingOrder(t.postings, |t.postings|);
    block := BlockOf(t.postings, b);
    values :| IsBlockCode(block, values) && Coded(t.payload, t.blocks[b].payloadOffset, values);
  }

  /** Skipping on block maxima alone gives up nothing at or past the target. */
  lemma BlocksBehind(t: TermList, from: nat, to: nat, target: nat)
    requires ValidList(t) && from <= to <= |t.blocks|
    requires forall b :: from <= b < to ==> t.blocks[b].maxDocid < target
    ensures forall p :: BLOCK_SIZE * from <= p < BLOCK_SIZE * to && p < |t.postings| ==> t.postings[p].docid < target
  {
    AscendingOrder(t.postings, |t.postings|);
    forall p | BLOCK_SIZE * from <= p < BLOCK_SIZE * to && p < |t.postings|
      ensures t.postings[p].docid < target
    {
      BlockFacts(t, p / BLOCK_SIZE);
    }
  }
}
