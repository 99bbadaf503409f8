/** Contiguous blocks of time indices and the position sets they cover. */
module Spans {

  /** A half-open run `[start, end)` of time indices; as with `arange`, an end at or before
      the start covers nothing. */
  datatype Block = Block(start: nat, end: nat)

  function Width(b: Block): nat {
    if b.end > b.start then b.end - b.start else 0
  }

  /** The positions `arange(s, e)` enumerates, with as many elements as the block is wide. */
  function Span(s: nat, e: nat): (r: set<nat>)
    ensures forall t: nat :: t in r <==> s <= t < e
    ensures |r| == Width(Block(s, e))
    decreases e
  {
    if e <= s then {} else Span(s, e - 1) + {e - 1}
  }

  function Positions(b: Block): set<nat> {
    Span(b.start, b.end)
  }

  /** The deduplicated union of all blocks' positions (`torch.cat` of the aranges followed by `unique`). */
  function Covered(blocks: seq<Block>): (r: set<nat>)
    ensures forall t: nat :: t in r <==> exists j :: 0 <= j < |blocks| && blocks[j].start <= t < blocks[j].end
  {
    if |blocks| == 0 then {}
    else
      var n := |blocks| - 1;
      var a := Covered(blocks[..n]);
      var u := a + Positions(blocks[n]);
      CoveredStep(blocks, blocks[..n], a, u);
      u
  }

  /** If `a` holds exactly the positions of all blocks but the last, adding the last block's
      positions gives exactly the positions of all blocks. */
  lemma CoveredStep(blocks: seq<Block>, prefix: seq<Block>, a: set<nat>, u: set<nat>)
    requires |blocks| > 0 && prefix == blocks[..|blocks| - 1]
    requires forall t: nat :: t in a <==> (exists j :: 0 <= j < |prefix| && prefix[j].start <= t < prefix[j].end)
    requires u == a + Positions(blocks[|blocks| - 1])
    ensures forall t: nat :: t in u <==> exists j :: 0 <= j < |blocks| && blocks[j].start <= t < blocks[j].end
  {
    var n := |blocks| - 1;
    forall t: nat
      ensures t in u <==> exists j :: 0 <= j < |blocks| && blocks[j].start <= t < blocks[j].end
    {
      if t in a {
        var j :| 0 <= j < |prefix| && prefix[j].start <= t < prefix[j].end;
        assert prefix[j] == blocks[j];
      }
      if exists j :: 0 <= j < |blocks| && blocks[j].start <= t < blocks[j].end {
        var j :| 0 <= j < |blocks| && blocks[j].start <= t < blocks[j].end;
        if j < n {
          assert prefix[j] == blocks[j];
        }
      }
    }
  }

  /** A single block covers exactly its own span. */
  lemma CoveredOne(b: Block)
    ensures Covered([b]) == Positions(b)
  {
    assert [b][..0] == [];
  }

  /** Sum of the block widths, i.e. the length of the concatenated aranges before deduplication. */
  function TotalWidth(blocks: seq<Block>): nat {
    if |blocks| == 0 then 0 else TotalWidth(blocks[..|blocks| - 1]) + Width(blocks[|blocks| - 1])
  }

  /** No position is covered by two different blocks. */
  predicate PairwiseDisjoint(blocks: seq<Block>) {
    forall j, k :: 0 <= j < k < |blocks| ==> Positions(blocks[j]) !! Positions(blocks[k])
  }

  /** When no two blocks overlap, deduplication removes nothing: the union has as many
      positions as the blocks have in total. */
  lemma {:induction false} DisjointCoveredSize(blocks: seq<Block>)
    requires PairwiseDisjoint(blocks)
    ensures |Covered(blocks)| == TotalWidth(blocks)
  {
    if |blocks| > 0 {
      var n := |blocks| - 1;
      var prefix := blocks[..n];
      PrefixDisjoint(blocks);
      DisjointCoveredSize(prefix);
      LastApart(blocks);
      var a, b := Covered(prefix), Positions(blocks[n]);
      assert Covered(blocks) == a + b;
      DisjointUnionSize(a, b);
    }
  }

  lemma PrefixDisjoint(blocks: seq<Block>)
    requires |blocks| > 0 && PairwiseDisjoint(blocks)
    ensures PairwiseDisjoint(blocks[..|blocks| - 1])
  {
    var prefix := blocks[..|blocks| - 1];
    forall j, k | 0 <= j < k < |prefix|
      ensures Positions(prefix[j]) !! Positions(prefix[k])
    {
      assert prefix[j] == blocks[j] && prefix[k] == blocks[k];
    }
  }

  /** The last block shares no position with the blocks before it. */
  lemma LastApart(blocks: seq<Block>)
    requires |blocks| > 0 && PairwiseDisjoint(blocks)
    ensures Covered(blocks[..|blocks| - 1]) !! Positions(blocks[|blocks| - 1])
  {
    var n := |blocks| - 1;
    var prefix := blocks[..n];
    forall t | t in Covered(prefix)
      ensures t !in Positions(blocks[n])
    {
      var j :| 0 <= j < |prefix| && prefix[j].start <= t < prefix[j].end;
      assert prefix[j] == blocks[j];
      assert t in Positions(blocks[j]);
      assert Positions(blocks[j]) !! Positions(blocks[n]);
    }
  }

  lemma DisjointUnionSize(a: set<nat>, b: set<nat>)
    requires a !! b
    ensures |a + b| == |a| + |b|
  {
    assert a * b == {};
  }

  /** A sequence of blocks that all have width `w` has total width `|blocks| * w`. */
  lemma {:induction false} UniformTotalWidth(blocks: seq<Block>, w: nat)
    requires forall j :: 0 <= j < |blocks| ==> Width(blocks[j]) == w
    ensures TotalWidth(blocks) == |blocks| * w
  {
    if |blocks| > 0 {
      var prefix := blocks[..|blocks| - 1];
      assert forall j :: 0 <= j < |prefix| ==> prefix[j] == blocks[j];
      UniformTotalWidth(prefix, w);
    }
  }
}
