/** One term's postings, and what their blocked and coded form must say. */
module Postings {
  import opened Ranking
  import opened Varint

  /** The docid of no document: what an exhausted cursor shows. */
  const NO_DOCID: nat := 0xFFFF_FFFF

  const BLOCK_SIZE: nat := 128

  datatype Posting = Posting(docid: nat, tf: nat)

  datatype BlockMeta = BlockMeta(maxDocid: nat, count: nat, payloadOffset: nat, maxImpact: Score)

  /** A term's record in the index together with the postings it stands for. */
  datatype TermList = TermList(
    postings: seq<Posting>,
    blocks: seq<BlockMeta>,
    payload: seq<byte>,
    idf: Score,
    maxImpact: Score)

  /** What one posting adds to a document's score: idf, term frequency, docid. The
      document's length and the average length are part of the function. */
  type Weigh = (Score, nat, nat) -> Score

  ghost predicate Fits(p: Posting)
  {
    p.docid < NO_DOCID && p.tf < UINT32_LIMIT
  }

  /** The first n postings are in strictly ascending order of 32-bit docids. */
  ghost predicate AscendingTo(ps: seq<Posting>, n: nat)
    requires n <= |ps|
  {
    0 < n ==>
      && Fits(ps[n - 1])
      && (1 < n ==> ps[n - 2].docid < ps[n - 1].docid)
      && AscendingTo(ps, n - 1)
  }

  ghost predicate ValidPostings(ps: seq<Posting>)
  {
    AscendingTo(ps, |ps|)
  }

  lemma {:induction false} AscendingOrder(ps: seq<Posting>, n: nat)
    requires n <= |ps| && AscendingTo(ps, n)
    ensures forall i, j :: 0 <= i < j < n ==> ps[i].docid < ps[j].docid
    ensures forall i :: 0 <= i < n ==> Fits(ps[i])
  {
    if 0 < n {
      AscendingOrder(ps, n - 1);
    }
  }

  function BlockCount(n: nat): (c: nat)
    ensures n <= BLOCK_SIZE * c < n + BLOCK_SIZE
  {
    (n + BLOCK_SIZE - 1) / BLOCK_SIZE
  }

  /** The b-th block's share of n postings: all 128, or what the last block is left. */
  function BlockLength(n: nat, b: nat): (length: nat)
    requires b < BlockCount(n)
    ensures 0 < length <= BLOCK_SIZE && BLOCK_SIZE * b + length <= n
    ensures if b + 1 < BlockCount(n) then length == BLOCK_SIZE else BLOCK_SIZE * b + length == n
  {
    if n - BLOCK_SIZE * b < BLOCK_SIZE then n - BLOCK_SIZE * b else BLOCK_SIZE
  }

  function BlockOf(ps: seq<Posting>, b: nat): (block: seq<Posting>)
    requires b < BlockCount(|ps|)
    ensures |block| == BlockLength(|ps|, b)
    ensures forall i :: 0 <= i < |block| ==> block[i] == ps[BLOCK_SIZE * b + i]
  {
    ps[BLOCK_SIZE * b..BLOCK_SIZE * b + BlockLength(|ps|, b)]
  }

  function DocidBefore(block: seq<Posting>, i: nat): nat
    requires i <= |block|
  {
    if i == 0 then 0 else block[i - 1].docid
  }

  /** The payload of a block as numbers: the distance of each docid to the one before
      (the first one's to zero), and then the term frequencies. */
  ghost predicate IsBlockCode(block: seq<Posting>, values: seq<nat>)
  {
    && |values| == 2 * |block|
    && (forall i :: 0 <= i < |block| ==>
         DocidBefore(block, i) + values[i] == block[i].docid)
    && (forall i :: 0 <= i < |block| ==> values[|block| + i] == block[i].tf)
  }

  ghost predicate CodedBlock(payload: seq<byte>, offset: nat, block: seq<Posting>)
  {
    exists values :: IsBlockCode(block, values) && Coded(payload, offset, values)
  }

  ghost predicate ValidBlock(t: TermList, b: nat)
    requires b < |t.blocks| == BlockCount(|t.postings|)
  {
    var block, meta := BlockOf(t.postings, b), t.blocks[b];
    && meta.count == |block|
    && meta.maxDocid == block[|block| - 1].docid
    && CodedBlock(t.payload, meta.payloadOffset, block)
  }

  ghost predicate ValidList(t: TermList)
  {
    && ValidPostings(t.postings)
    && |t.blocks| == BlockCount(|t.postings|)
    && (forall b {:trigger ValidBlock(t, b)} :: 0 <= b < |t.blocks| ==> ValidBlock(t, b))
  }

  lemma BlockFacts(t: TermList, b: nat)
    requires ValidList(t) && b < |t.blocks|
    ensures t.blocks[b].count == BlockLength(|t.postings|, b)
    ensures t.blocks[b].maxDocid == t.postings[BLOCK_SIZE * b + t.blocks[b].count - 1].docid
  {
    assert ValidBlock(t, b);
  }

  /** A block ends where its last docid says. */
  lemma PastBlock(t: TermList, b: nat, p: nat)
    requires ValidList(t) && b < |t.blocks| && p < |t.postings|
    requires t.postings[p].docid <= t.blocks[b].maxDocid
    ensures p < BLOCK_SIZE * (b + 1)
  {
    BlockFacts(t, b);
    AscendingOrder(t.postings, |t.postings|);
  }

  function Impact(w: Weigh, t: TermList, i: nat): Score
    requires i < |t.postings|
  {
    w(t.idf, t.postings[i].tf, t.postings[i].docid)
  }

  /** The recorded maxima bound every impact they are supposed to bound. */
  ghost predicate Bounded(w: Weigh, t: TermList)
    requires |t.blocks| == BlockCount(|t.postings|)
  {
    forall i {:trigger Impact(w, t, i)} :: 0 <= i < |t.postings| ==>
      Impact(w, t, i) <= t.maxImpact && Impact(w, t, i) <= t.blocks[i / BLOCK_SIZE].maxImpact
  }
}
