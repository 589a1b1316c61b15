/** What a sequence of lines means: one frame for every blank-line-terminated block that has a field. */
module SseBlocks {
  import opened Wrappers
  import opened SseFraming
  import opened SseChunking

  /** Lines between blank lines. The last block is the one still open. */
  function Blocks(lines: seq<string>): (r: seq<seq<string>>)
    ensures r != []
  {
    if lines == [] then [[]]
    else
      var n := |lines| - 1;
      var before := Blocks(lines[..n]);
      if lines[n] == "" then before + [[]]
      else before[..|before| - 1] + [before[|before| - 1] + [lines[n]]]
  }

  predicate Recognised(line: string) {
    line != "" && FieldName(line) in {"event", "data", "id", "retry"}
  }

  /** The values of the block's `data` lines, in order. */
  function DataValues(block: seq<string>): seq<string> {
    if block == [] then []
    else
      var n := |block| - 1;
      DataValues(block[..n]) + if FieldName(block[n]) == "data" then [FieldValue(block[n])] else []
  }

  /** The last `event` value, or empty. */
  function EventValue(block: seq<string>): string {
    if block == [] then ""
    else
      var n := |block| - 1;
      if FieldName(block[n]) == "event" then FieldValue(block[n]) else EventValue(block[..n])
  }

  /** Characters of data, one more per line for the separator. */
  function DataSize(values: seq<string>): nat {
    if values == [] then 0 else DataSize(values[..|values| - 1]) + |values[|values| - 1]| + 1
  }

  predicate HasField(block: seq<string>) {
    exists line | line in block :: Recognised(line)
  }

  function Meaning(block: seq<string>): Assembly {
    Assembly(DataValues(block), DataSize(DataValues(block)), EventValue(block), HasField(block))
  }

  function FramesOf(blocks: seq<seq<string>>): seq<Frame> {
    if blocks == [] then []
    else
      var n := |blocks| - 1;
      var block := blocks[n];
      FramesOf(blocks[..n]) +
      if HasField(block)
      then [Frame(if EventValue(block) == "" then "message" else EventValue(block), Join(DataValues(block)))]
      else []
  }

  predicate BlockFits(block: seq<string>) {
    DataSize(DataValues(block)) <= MAX_EVENT_CHARS
  }

  /** Blocks of an already processed prefix never contain blank lines. */
  lemma {:induction false} NoBlanksInside(lines: seq<string>, i: nat)
    requires i < |Blocks(lines)|
    ensures "" !in Blocks(lines)[i]
  {
    if lines != [] {
      var n := |lines| - 1;
      var before := Blocks(lines[..n]);
      if i < |before| {
        NoBlanksInside(lines[..n], i);
      }
    }
  }

  lemma MeaningSnoc(block: seq<string>, line: string)
    ensures EventValue(block + [line]) == if FieldName(line) == "event" then FieldValue(line) else EventValue(block)
    ensures FieldName(line) == "data" ==>
              && DataValues(block + [line]) == DataValues(block) + [FieldValue(line)]
              && DataSize(DataValues(block + [line])) == DataSize(DataValues(block)) + |FieldValue(line)| + 1
    ensures FieldName(line) != "data" ==> DataValues(block + [line]) == DataValues(block)
  {
    var all := block + [line];
    assert all[..|block|] == block && all[|block|] == line;
    var values := DataValues(block);
    assert (values + [FieldValue(line)])[..|values|] == values;
    assert values + [] == values;
  }

  lemma ConsumeInBlock(block: seq<string>, line: string)
    requires line != "" && "" !in block
    ensures Consume(Meaning(block), line) ==
            if BlockFits(block + [line]) || FieldName(line) != "data" then Consumed(Meaning(block + [line]), None)
            else Overflow
  {
    hide FieldName, FieldValue, DataValues, DataSize, EventValue;
    var all := block + [line];
    MeaningSnoc(block, line);
    if line[0] == ':' { CommentHasNoField(line); }
    assert HasField(all) <==> HasField(block) || Recognised(line) by {
      if HasField(block) {
        var l :| l in block && Recognised(l);
        assert l in all;
      }
      if Recognised(line) { assert line in all; }
    }
  }

  lemma CommentHasNoField(line: string)
    requires line != "" && line[0] == ':'
    ensures FieldName(line) == ""
  {
  }

  lemma UnfieldedIsIdle(block: seq<string>)
    requires !HasField(block) && "" !in block
    ensures Meaning(block) == IDLE
  {
    UnfieldedHasNothing(block);
  }

  lemma {:induction false} UnfieldedHasNothing(block: seq<string>)
    requires !HasField(block) && "" !in block
    ensures DataValues(block) == [] && EventValue(block) == ""
  {
    if block != [] {
      var n := |block| - 1;
      assert block[n] in block;
      assert forall l :: l in block[..n] ==> l in block;
      UnfieldedHasNothing(block[..n]);
    }
  }

  lemma FoldOne(a: Assembly, line: string)
    ensures FoldLines(a, [line]) == match Consume(a, line)
              case Overflow => TooLong
              case Consumed(next, frame) => Folded(next, OneFrame(frame))
  {
    assert [line][1..] == [];
    var c := Consume(a, line);
    if c.Consumed? { assert OneFrame(c.frame) + [] == OneFrame(c.frame); }
  }

  /** Every block's data, closed or still open, is within the event bound. */
  ghost predicate AllFit(blocks: seq<seq<string>>) {
    forall i :: 0 <= i < |blocks| ==> BlockFits(blocks[i])
  }

  lemma FitsGrows(block: seq<string>, line: string)
    requires BlockFits(block + [line])
    ensures BlockFits(block)
  {
    MeaningSnoc(block, line);
  }

  lemma FramesSnoc(blocks: seq<seq<string>>, block: seq<string>)
    ensures FramesOf(blocks + [block]) == FramesOf(blocks) + FramesOf([block])
  {
    assert (blocks + [block])[..|blocks|] == blocks && [block][..0] == [];
  }

  lemma BlankStep(block: seq<string>)
    requires "" !in block
    ensures FoldLines(Meaning(block), [""]) == Folded(Meaning([]), FramesOf([block]))
  {
    FoldOne(Meaning(block), "");
    assert [block][..0] == [];
    if !HasField(block) { UnfieldedIsIdle(block); }
  }

  lemma FieldStep(block: seq<string>, line: string)
    requires line != "" && "" !in block && BlockFits(block)
    ensures FoldLines(Meaning(block), [line]) ==
            if BlockFits(block + [line]) then Folded(Meaning(block + [line]), []) else TooLong
  {
    FoldOne(Meaning(block), line);
    ConsumeInBlock(block, line);
    if FieldName(line) != "data" { NonData(block, line); }
  }

  lemma NonData(block: seq<string>, line: string)
    requires BlockFits(block) && FieldName(line) != "data"
    ensures BlockFits(block + [line])
  {
    MeaningSnoc(block, line);
  }

  /** How one more line changes the blocks. */
  lemma BlocksSnoc(front: seq<string>, line: string)
    ensures var before := Blocks(front);
            var n := |before| - 1;
            && before == before[..n] + [before[n]]
            && Blocks(front + [line]) == if line == "" then before + [[]] else before[..n] + [before[n] + [line]]
  {
    assert (front + [line])[..|front|] == front;
  }

  lemma AllFitSnoc(blocks: seq<seq<string>>, block: seq<string>)
    ensures AllFit(blocks + [block]) <==> AllFit(blocks) && BlockFits(block)
  {
    var all := blocks + [block];
    if AllFit(all) {
      assert BlockFits(all[|blocks|]);
      assert forall i :: 0 <= i < |blocks| ==> blocks[i] == all[i];
    }
  }

  /** The stream read block by block: the frames of the complete blocks, and what the last one means so far. */
  ghost function ByBlocks(lines: seq<string>): Folded {
    var blocks := Blocks(lines);
    var n := |blocks| - 1;
    if AllFit(blocks) then Folded(Meaning(blocks[n]), FramesOf(blocks[..n])) else TooLong
  }

  /**
   The incremental interpretation agrees with the block-by-block reading, and the
   event bound trips exactly when some block's data is over it.
   */
  lemma {:induction false} FoldIsPerBlock(lines: seq<string>)
    ensures FoldLines(IDLE, lines) == ByBlocks(lines)
  {
    if lines == [] {
    } else {
      var m := |lines| - 1;
      assert lines == lines[..m] + [lines[m]];
      FoldIsPerBlock(lines[..m]);
      PerBlockStep(lines[..m], lines[m]);
    }
  }

  lemma {:induction false} PerBlockStep(front: seq<string>, line: string)
    requires FoldLines(IDLE, front) == ByBlocks(front)
    ensures FoldLines(IDLE, front + [line]) == ByBlocks(front + [line])
  {
    hide Consume, FieldName, FieldValue, HasField, DataValues, DataSize, EventValue, Dispatch, Meaning, FoldLines,
      Blocks, AllFit, BlockFits;
    var before := Blocks(front);
    var n := |before| - 1;
    FoldAppend(IDLE, front, [line]);
    BlocksSnoc(front, line);
    NoBlanksInside(front, n);
    AllFitSnoc(before[..n], before[n]);
    if line == "" {
      BlankStep(before[n]);
      AllFitSnoc(before, []);
      EmptyBlockFits();
      FramesSnoc(before[..n], before[n]);
      assert (before + [[]])[..n + 1] == before;
    } else {
      AllFitSnoc(before[..n], before[n] + [line]);
      if BlockFits(before[n]) {
        FieldStep(before[n], line);
      } else if BlockFits(before[n] + [line]) {
        FitsGrows(before[n], line);
      }
      assert (before[..n] + [before[n] + [line]])[..n] == before[..n];
      assert FramesOf(before[..n]) + [] == FramesOf(before[..n]);
    }
  }

  lemma EmptyBlockFits()
    ensures BlockFits([])
  {
  }
}
