/** How the builder cuts a term's postings into blocks, codes them and records their
    maxima. */
module BlockWriter {
  import opened Ranking
  import opened Varint
  import opened Postings
  import opened BlockOffsets

  lemma {:induction false} CodedExtends(data: seq<byte>, more: seq<byte>, pos: nat, values: seq<nat>)
    requires Coded(data, pos, values)
    ensures Coded(data + more, pos, values)
    decreases |values|
  {
    if values != [] {
      var code := Encode(values[0]);
      assert (data + more)[pos..pos + |code|] == data[pos..pos + |code|];
      CodedExtends(data, more, pos + |code|, values[1..]);
    }
  }

  lemma CodedAtEnd(data: seq<byte>, values: seq<nat>)
    ensures Coded(data + EncodeAll(values), |data|, values)
  {
    hide Encode, EncodeAll, Coded;
    var all := data + EncodeAll(values);
    assert all[|data|..|data| + |EncodeAll(values)|] == EncodeAll(values);
    CodedIsEncodeAll(all, |data|, values);
  }

  /** `m` bounds the impacts from..n of a list and is one of them, or zero. */
  ghost predicate IsMaximum(w: Weigh, idf: Score, ps: seq<Posting>, from: nat, n: nat, m: Score)
    requires from <= n <= |ps|
  {
    && (forall i :: from <= i < n ==> w(idf, ps[i].tf, ps[i].docid) <= m)
    && (from < n ==> exists i :: from <= i < n && w(idf, ps[i].tf, ps[i].docid) == m)
    && (from == n ==> m == 0.0)
  }

  function Max(a: Score, b: Score): Score {
    if a < b then b else a
  }

  /** `values` is the code of the first n docids of a block. */
  ghost predicate IsGapCode(block: seq<Posting>, values: seq<nat>, n: nat)
    requires n <= |block|
  {
    |values| == n && forall i :: 0 <= i < n ==> DocidBefore(block, i) + values[i] == block[i].docid
  }

  lemma MaximumPush(w: Weigh, idf: Score, ps: seq<Posting>, from: nat, n: nat, m: Score)
    requires from <= n < |ps| && IsMaximum(w, idf, ps, from, n, m)
    ensures IsMaximum(w, idf, ps, from, n + 1, Max(m, w(idf, ps[n].tf, ps[n].docid)))
  {
    var impact := w(idf, ps[n].tf, ps[n].docid);
    if from < n && impact <= m {
      var i :| from <= i < n && w(idf, ps[i].tf, ps[i].docid) == m;
    }
  }

  lemma GapFits(ps: seq<Posting>, start: nat, end: nat, i: nat)
    requires start <= i < end <= |ps| && ValidPostings(ps)
    ensures 0 <= ps[i].docid - DocidBefore(ps[start..end], i - start) < UINT32_LIMIT
    ensures ps[i].docid - DocidBefore(ps[start..end], i - start) == GapAt(ps, start, i)
    ensures ps[i].docid == DocidBefore(ps[start..end], i - start + 1)
  {
    AscendingOrder(ps, |ps|);
    assert Fits(ps[i]);
  }

  lemma GapPush(ps: seq<Posting>, start: nat, end: nat, i: nat, values: seq<nat>, gap: nat)
    requires start <= i < end <= |ps| && IsGapCode(ps[start..end], values, i - start)
    requires gap == ps[i].docid - DocidBefore(ps[start..end], i - start)
    ensures IsGapCode(ps[start..end], values + [gap], i - start + 1)
  {
  }

  lemma CodePush(payload: seq<byte>, values: seq<nat>, v: nat)
    requires v < UINT32_LIMIT
    ensures payload + EncodeAll(values + [v]) == payload + EncodeAll(values) + Encode(v)
  {
    hide Encode, EncodeAll;
    EncodeAllPush(values, v);
    assert payload + EncodeAll(values) + Encode(v) == payload + (EncodeAll(values) + Encode(v));
  }

  /** The docids of one block, as gaps, and the largest impact among its postings. */
  method WriteGaps(payload: seq<byte>, ps: seq<Posting>, start: nat, end: nat, w: Weigh, idf: Score)
    returns (written: seq<byte>, blockMax: Score, ghost values: seq<nat>)
    requires start < end <= |ps| && ValidPostings(ps)
    ensures written == payload + EncodeAll(values) && |written| == |payload| + GapBytes(ps, start, end)
    ensures IsGapCode(ps[start..end], values, end - start)
    ensures IsMaximum(w, idf, ps, start, end, blockMax)
  {
    hide Encode, IsMaximum, IsGapCode, ValidPostings, DocidBefore, Fits;
    ghost var block := ps[start..end];
    written, blockMax, values := payload, 0.0, [];
    GapNone(w, idf, ps, start, end);
    var previous := 0;
    for i := start to end
      invariant written == payload + EncodeAll(values) && |written| == |payload| + GapBytes(ps, start, i)
      invariant previous == DocidBefore(block, i - start) && (i == start ==> previous == 0)
      invariant IsGapCode(block, values, i - start)
      invariant IsMaximum(w, idf, ps, start, i, blockMax)
    {
      GapFits(ps, start, end, i);
      var gap := if i == start then ps[i].docid else ps[i].docid - previous;
      CodePush(payload, values, gap);
      GapPush(ps, start, end, i, values, gap);
      MaximumPush(w, idf, ps, start, i, blockMax);
      written := PutVarint(written, gap);
      values := values + [gap];
      previous := ps[i].docid;
      var impact := w(idf, ps[i].tf, ps[i].docid);
      blockMax := Max(blockMax, impact);
    }
  }

  lemma GapNone(w: Weigh, idf: Score, ps: seq<Posting>, start: nat, end: nat)
    requires start <= end <= |ps|
    ensures DocidBefore(ps[start..end], 0) == 0 && IsGapCode(ps[start..end], [], 0)
    ensures IsMaximum(w, idf, ps, start, start, 0.0)
  {
  }

  method WriteFreqs(payload: seq<byte>, ps: seq<Posting>, start: nat, end: nat)
    returns (written: seq<byte>, ghost values: seq<nat>)
    requires start <= end <= |ps| && ValidPostings(ps)
    ensures written == payload + EncodeAll(values) && |written| == |payload| + FreqBytes(ps, start, end)
    ensures |values| == end - start && forall i :: 0 <= i < |values| ==> values[i] == ps[start + i].tf
  {
    AscendingOrder(ps, |ps|);
    written, values := payload, [];
    for i := start to end
      invariant written == payload + EncodeAll(values) && |written| == |payload| + FreqBytes(ps, start, i)
      invariant |values| == i - start && forall j :: 0 <= j < |values| ==> values[j] == ps[start + j].tf
    {
      assert Fits(ps[i]);
      EncodeAllPush(values, ps[i].tf);
      assert payload + EncodeAll(values) + Encode(ps[i].tf) == payload + (EncodeAll(values) + Encode(ps[i].tf));
      written := PutVarint(written, ps[i].tf);
      values := values + [ps[i].tf];
    }
  }

  /** One block: its gaps, then its frequencies. */
  method WriteBlock(payload: seq<byte>, ps: seq<Posting>, b: nat, end: nat, w: Weigh, idf: Score)
    returns (written: seq<byte>, blockMax: Score)
    requires ValidPostings(ps) && b < BlockCount(|ps|) && end == BLOCK_SIZE * b + BlockLength(|ps|, b)
    ensures payload <= written && |written| == |payload| + BlockBytes(ps, b)
    ensures CodedBlock(written, |payload|, BlockOf(ps, b))
    ensures IsMaximum(w, idf, ps, BLOCK_SIZE * b, end, blockMax)
  {
    hide Encode, EncodeAll, IsMaximum, ValidPostings;
    ghost var gaps, tfs;
    written, blockMax, gaps := WriteGaps(payload, ps, BLOCK_SIZE * b, end, w, idf);
    written, tfs := WriteFreqs(written, ps, BLOCK_SIZE * b, end);
    BlockCoded(payload, ps, b, gaps, tfs);
    assert written == payload + EncodeAll(gaps) + EncodeAll(tfs);
  }

  lemma BlockCoded(payload: seq<byte>, ps: seq<Posting>, b: nat, gaps: seq<nat>, tfs: seq<nat>)
    requires b < BlockCount(|ps|)
    requires var block := BlockOf(ps, b);
      && IsGapCode(block, gaps, |block|) && |tfs| == |block|
      && forall i :: 0 <= i < |tfs| ==> tfs[i] == ps[BLOCK_SIZE * b + i].tf
    ensures CodedBlock(payload + EncodeAll(gaps) + EncodeAll(tfs), |payload|, BlockOf(ps, b))
  {
    var values := gaps + tfs;
    EncodeAllAppend(gaps, tfs);
    assert payload + EncodeAll(gaps) + EncodeAll(tfs) == payload + EncodeAll(values);
    CodedAtEnd(payload, values);
    assert IsBlockCode(BlockOf(ps, b), values);
  }

  // ---- all blocks of a term ----

  ghost predicate Written(w: Weigh, idf: Score, ps: seq<Posting>, n: nat, blocks: seq<BlockMeta>, payload: seq<byte>)
  {
    && n <= BlockCount(|ps|) && |blocks| == n && |payload| == BlockStart(ps, n)
    && forall b {:trigger blocks[b]} :: 0 <= b < n ==>
         && WrittenBlock(ps, blocks[b], payload, b)
         && IsMaximum(w, idf, ps, BLOCK_SIZE * b, BLOCK_SIZE * b + blocks[b].count, blocks[b].maxImpact)
  }

  lemma WriteNext(w: Weigh, idf: Score, ps: seq<Posting>, n: nat, blocks: seq<BlockMeta>, payload: seq<byte>,
                  written: seq<byte>, meta: BlockMeta)
    requires Written(w, idf, ps, n, blocks, payload) && n < BlockCount(|ps|)
    requires payload <= written && |written| == |payload| + BlockBytes(ps, n)
    requires WrittenBlock(ps, meta, written, n)
    requires IsMaximum(w, idf, ps, BLOCK_SIZE * n, BLOCK_SIZE * n + meta.count, meta.maxImpact)
    ensures Written(w, idf, ps, n + 1, blocks + [meta], written)
  {
    hide IsMaximum, CodedBlock, BlockBytes;
    var more := blocks + [meta];
    forall b | 0 <= b < n
      ensures more[b] == blocks[b] && WrittenBlock(ps, blocks[b], written, b)
    {
      assert WrittenBlock(ps, blocks[b], payload, b);
      CodedBlockExtends(payload, written, BlockStart(ps, b), BlockOf(ps, b));
    }
  }

  lemma CodedBlockExtends(payload: seq<byte>, written: seq<byte>, offset: nat, block: seq<Posting>)
    requires payload <= written && CodedBlock(payload, offset, block)
    ensures CodedBlock(written, offset, block)
  {
    var values :| IsBlockCode(block, values) && Coded(payload, offset, values);
    CodedExtends(payload, written[|payload|..], offset, values);
    assert written == payload + written[|payload|..];
  }

  /** Blocks, payload and maxima of one term. Each block is coded where it starts, the
      records keep the low 32 bits of that place, and the list decodes to the postings
      it was made from if the last block starts within 4 GiB. */
  method WriteTerm(ps: seq<Posting>, w: Weigh, idf: Score) returns (t: TermList)
    requires ValidPostings(ps)
    ensures t.postings == ps && t.idf == idf
    ensures AsWritten(t) && (OffsetsFit(ps) ==> ValidList(t))
    ensures Bounded(w, t) && IsMaximum(w, idf, ps, 0, |ps|, t.maxImpact)
    ensures forall b :: 0 <= b < |t.blocks| ==>
      IsMaximum(w, idf, ps, BLOCK_SIZE * b, BLOCK_SIZE * b + BlockLength(|ps|, b), t.blocks[b].maxImpact)
  {
    hide ValidPostings, IsMaximum, CodedBlock, Written, BlockBytes;
    var blocks: seq<BlockMeta>, payload: seq<byte>, termMax: Score := [], [], 0.0;
    var start, b := 0, 0;
    NothingWritten(w, idf, ps);
    while start < |ps|
      invariant b <= BlockCount(|ps|) && start == BLOCK_SIZE * b
      invariant start < |ps| ==> b < BlockCount(|ps|)
      invariant start >= |ps| ==> b == BlockCount(|ps|)
      invariant Written(w, idf, ps, b, blocks, payload) && |payload| == BlockStart(ps, b)
      invariant IsMaximum(w, idf, ps, 0, if start < |ps| then start else |ps|, termMax)
      decreases |ps| - start
    {
      var end := if start + BLOCK_SIZE < |ps| then start + BLOCK_SIZE else |ps|;
      assert end == start + BlockLength(|ps|, b);
      var offset := |payload| % UINT32_LIMIT;
      var written, blockMax := WriteBlock(payload, ps, b, end, w, idf);
      var meta := BlockMeta(ps[end - 1].docid, end - start, offset, blockMax);
      WriteNext(w, idf, ps, b, blocks, payload, written, meta);
      MaximumJoin(w, idf, ps, start, end, termMax, blockMax);
      termMax := Max(termMax, blockMax);
      blocks, payload := blocks + [meta], written;
      start, b := start + BLOCK_SIZE, b + 1;
    }
    t := TermList(ps, blocks, payload, idf, termMax);
    TermWritten(w, t);
  }

  lemma NothingWritten(w: Weigh, idf: Score, ps: seq<Posting>)
    ensures Written(w, idf, ps, 0, [], []) && IsMaximum(w, idf, ps, 0, 0, 0.0)
  {
  }

  lemma MaximumJoin(w: Weigh, idf: Score, ps: seq<Posting>, mid: nat, n: nat, a: Score, b: Score)
    requires mid <= n <= |ps| && IsMaximum(w, idf, ps, 0, mid, a) && IsMaximum(w, idf, ps, mid, n, b)
    ensures IsMaximum(w, idf, ps, 0, n, Max(a, b))
  {
    if mid < n {
      var i :| mid <= i < n && w(idf, ps[i].tf, ps[i].docid) == b;
      if 0 < mid {
        var j :| 0 <= j < mid && w(idf, ps[j].tf, ps[j].docid) == a;
      }
    }
  }

  lemma TermWritten(w: Weigh, t: TermList)
    requires ValidPostings(t.postings)
    requires Written(w, t.idf, t.postings, BlockCount(|t.postings|), t.blocks, t.payload)
    requires IsMaximum(w, t.idf, t.postings, 0, |t.postings|, t.maxImpact)
    ensures AsWritten(t) && (OffsetsFit(t.postings) ==> ValidList(t)) && Bounded(w, t)
    ensures forall b :: 0 <= b < |t.blocks| ==>
      IsMaximum(w, t.idf, t.postings, BLOCK_SIZE * b, BLOCK_SIZE * b + BlockLength(|t.postings|, b),
                t.blocks[b].maxImpact)
  {
    hide ValidPostings, CodedBlock, IsMaximum, BlockStart;
    if OffsetsFit(t.postings) {
      FittingIsValid(t);
    }
    MaximaBound(w, t);
  }

  lemma MaximaBound(w: Weigh, t: TermList)
    requires |t.blocks| == BlockCount(|t.postings|)
    requires IsMaximum(w, t.idf, t.postings, 0, |t.postings|, t.maxImpact)
    requires forall b :: 0 <= b < |t.blocks| ==>
      IsMaximum(w, t.idf, t.postings, BLOCK_SIZE * b, BLOCK_SIZE * b + BlockLength(|t.postings|, b),
                t.blocks[b].maxImpact)
    ensures Bounded(w, t)
  {
    forall i | 0 <= i < |t.postings|
      ensures Impact(w, t, i) <= t.maxImpact && Impact(w, t, i) <= t.blocks[i / BLOCK_SIZE].maxImpact
    {
      var b := i / BLOCK_SIZE;
      assert BLOCK_SIZE * b <= i < BLOCK_SIZE * b + BlockLength(|t.postings|, b);
    }
  }
}
