/** Chunk boundaries carry no meaning, except where the line bound looks at an undrained tail. */
module SseChunking {
  import opened Wrappers
  import opened SseFraming

  lemma {:induction false} FoldAppend(a: Assembly, x: seq<string>, y: seq<string>)
    ensures FoldLines(a, x).TooLong? ==> FoldLines(a, x + y).TooLong?
    ensures FoldLines(a, x).Folded? ==>
              var first := FoldLines(a, x);
              var second := FoldLines(first.next, y);
              FoldLines(a, x + y)
              == if second.TooLong? then TooLong else Folded(second.next, first.frames + second.frames)
    decreases |x|
  {
    hide Consume;
    if x == [] {
      assert x + y == y;
    } else {
      assert (x + y)[0] == x[0] && (x + y)[1..] == x[1..] + y;
      var c := Consume(a, x[0]);
      if c.Consumed? {
        FoldAppend(c.next, x[1..], y);
      }
    }
  }

  /** No event of this text outgrows its bound. */
  predicate EventsFit(text: string) {
    FoldLines(IDLE, Lines(text)).Folded?
  }

  /** What a parser that has read `text` holds, however it arrived. */
  function StreamAfter(text: string): Stream
    requires EventsFit(text)
  {
    var folded := FoldLines(IDLE, Lines(text));
    Stream(folded.next, Tail(text), folded.frames)
  }

  lemma EventsFitPrefix(text: string, more: string)
    requires EventsFit(text + more)
    ensures EventsFit(text)
  {
    LinesAppend(text, more);
    FoldAppend(IDLE, Lines(text), Lines(Tail(text) + more));
  }

  lemma {:induction false} PushStep(text: string, chunk: string)
    requires EventsFit(text)
    ensures Push(StreamAfter(text), chunk) ==
            if !EventsFit(text + chunk) then Err(EventTooLong)
            else if |Tail(text + chunk)| > MAX_LINE_CHARS then Err(LineTooLong)
            else Ok(StreamAfter(text + chunk))
  {
    LinesAppend(text, chunk);
    FoldAppend(IDLE, Lines(text), Lines(Tail(text) + chunk));
  }

  lemma {:induction false} SinglePush(text: string)
    ensures Feed(FRESH, [text]).Ok? <==> EventsFit(text) && |Tail(text)| <= MAX_LINE_CHARS
  {
    assert StreamAfter("") == FRESH && "" + text == text;
    PushStep("", text);
  }

  /** The tail held at every chunk boundary is within the line bound. */
  ghost predicate BoundariesFit(text: string, chunks: seq<string>) {
    forall k :: 1 <= k <= |chunks| ==> |Tail(text + Concat(chunks[..k]))| <= MAX_LINE_CHARS
  }

  lemma BoundariesStep(text: string, chunks: seq<string>)
    requires chunks != []
    ensures BoundariesFit(text, chunks) <==>
            |Tail(text + chunks[0])| <= MAX_LINE_CHARS && BoundariesFit(text + chunks[0], chunks[1..])
  {
    forall k | 1 <= k <= |chunks|
      ensures text + Concat(chunks[..k]) == text + chunks[0] + Concat(chunks[1..][..k - 1])
    {
      assert chunks[..k][1..] == chunks[1..][..k - 1];
    }
    assert chunks[1..][..0] == [] && text + chunks[0] + Concat([]) == text + chunks[0];
    if BoundariesFit(text, chunks) {
      assert |Tail(text + Concat(chunks[..1]))| <= MAX_LINE_CHARS;
      forall k | 1 <= k <= |chunks[1..]|
        ensures |Tail(text + chunks[0] + Concat(chunks[1..][..k]))| <= MAX_LINE_CHARS
      {
        assert |Tail(text + Concat(chunks[..k + 1]))| <= MAX_LINE_CHARS;
      }
    }
  }

  lemma {:induction false} FeedFrom(text: string, chunks: seq<string>)
    requires EventsFit(text)
    ensures Feed(StreamAfter(text), chunks).Ok? <==>
            EventsFit(text + Concat(chunks)) && BoundariesFit(text, chunks)
    ensures Feed(StreamAfter(text), chunks).Ok? ==>
            Feed(StreamAfter(text), chunks).value == StreamAfter(text + Concat(chunks))
    decreases |chunks|
  {
    if chunks == [] {
      assert text + Concat(chunks) == text;
    } else {
      var next := text + chunks[0];
      assert text + Concat(chunks) == next + Concat(chunks[1..]);
      PushStep(text, chunks[0]);
      BoundariesStep(text, chunks);
      if EventsFit(next) {
        FeedFrom(next, chunks[1..]);
      } else if EventsFit(text + Concat(chunks)) {
        EventsFitPrefix(next, Concat(chunks[1..]));
      }
    }
  }

  /**
   For every text and every way of cutting it: the parse succeeds exactly when no
   event outgrows its bound and no tail held at a boundary outgrows the line
   bound, and then its frames and final state are those of the whole text.
   */
  lemma {:induction false} ChunkingIsInvisible(chunks: seq<string>)
    ensures Feed(FRESH, chunks).Ok? <==> EventsFit(Concat(chunks)) && BoundariesFit("", chunks)
    ensures Feed(FRESH, chunks).Ok? ==> Feed(FRESH, chunks).value == StreamAfter(Concat(chunks))
  {
    assert StreamAfter("") == FRESH;
    FeedFrom("", chunks);
    assert "" + Concat(chunks) == Concat(chunks);
  }

  /** Two ways of cutting the same text that both get through agree on everything. */
  lemma CutsAgree(a: seq<string>, b: seq<string>)
    requires Concat(a) == Concat(b) && Feed(FRESH, a).Ok? && Feed(FRESH, b).Ok?
    ensures Feed(FRESH, a) == Feed(FRESH, b)
  {
    ChunkingIsInvisible(a);
    ChunkingIsInvisible(b);
  }

  /** Every prefix of the text leaves a tail within the line bound. */
  ghost predicate TailsFit(text: string) {
    forall k :: 0 <= k <= |text| ==> |Tail(text[..k])| <= MAX_LINE_CHARS
  }

  lemma {:induction false} ConcatPrefix(chunks: seq<string>, k: nat)
    requires k <= |chunks|
    ensures |Concat(chunks[..k])| <= |Concat(chunks)|
    ensures Concat(chunks[..k]) == Concat(chunks)[..|Concat(chunks[..k])|]
    decreases |chunks|
  {
    if k > 0 {
      assert chunks[..k][1..] == chunks[1..][..k - 1];
      ConcatPrefix(chunks[1..], k - 1);
    }
  }

  lemma CutInTwo(text: string, k: nat)
    requires k <= |text|
    ensures Concat([text[..k], text[k..]]) == text
    ensures Feed(FRESH, [text[..k], text[k..]]).Ok? ==> EventsFit(text) && |Tail(text[..k])| <= MAX_LINE_CHARS
  {
    hide Lines, Tail, Feed, Consume;
    var a, b := text[..k], text[k..];
    var chunks := [a, b];
    ConcatTwo(a, b);
    ChunkingIsInvisible(chunks);
    if BoundariesFit("", chunks) {
      assert |Tail("" + Concat(chunks[..1]))| <= MAX_LINE_CHARS;
      assert "" + Concat(chunks[..1]) == a;
    }
  }

  lemma ConcatTwo(a: string, b: string)
    ensures Concat([a, b]) == a + b && Concat([a, b][..1]) == a
  {
    assert [a, b][1..] == [b] && [a, b][..1] == [a];
    assert Concat([b]) == b + Concat([]) == b;
    assert Concat([a]) == a + Concat([]) == a;
  }

  /** However the text is cut, the parser gets through it. */
  ghost predicate EveryCutSucceeds(text: string) {
    forall chunks :: Concat(chunks) == text ==> Feed(FRESH, chunks).Ok?
  }

  /** A text survives every cut exactly when its events fit and all its prefixes' tails do. */
  lemma EveryCutSucceedsIff(text: string)
    ensures EveryCutSucceeds(text) <==> EventsFit(text) && TailsFit(text)
  {
    if EventsFit(text) && TailsFit(text) {
      forall chunks | Concat(chunks) == text
        ensures Feed(FRESH, chunks).Ok?
      {
        forall k | 1 <= k <= |chunks|
          ensures |Tail("" + Concat(chunks[..k]))| <= MAX_LINE_CHARS
        {
          ConcatPrefix(chunks, k);
          assert "" + Concat(chunks[..k]) == text[..|Concat(chunks[..k])|];
        }
        ChunkingIsInvisible(chunks);
      }
    }
    if EveryCutSucceeds(text) {
      forall k | 0 <= k <= |text|
        ensures EventsFit(text) && |Tail(text[..k])| <= MAX_LINE_CHARS
      {
        CutInTwo(text, k);
      }
      assert |Tail(text[..0])| <= MAX_LINE_CHARS;
    }
  }

  // ----- the same condition, on the lines of the text -----

  /** Each line, with one more where its terminator starts with `\r`, and what follows the last line, are within the bound. */
  predicate SpansFit(text: string)
    decreases |text|
  {
    var cut := NextBreak(text);
    if cut.NoCut? then |text| <= MAX_LINE_CHARS
    else
      && cut.start + (if text[cut.start] == '\r' then 1 else 0) <= MAX_LINE_CHARS
      && SpansFit(text[cut.end..])
  }

  /** What a prefix leaves undrained: itself, until the first line is complete and no `\r` is held. */
  lemma TailOfPrefix(text: string, k: nat)
    requires k <= |text| && NextBreak(text).Cut?
    ensures var cut := NextBreak(text);
            if k <= cut.start || (k == cut.start + 1 && text[cut.start] == '\r') then Tail(text[..k]) == text[..k]
            else k >= cut.end && Tail(text[..k]) == Tail(text[cut.end..][..k - cut.end])
  {
    var cut := NextBreak(text);
    var shorter := text[..k];
    assert text == shorter + text[k..];
    if NextBreak(shorter).Cut? {
      BreakIsStable(shorter, text[k..]);
      assert shorter[cut.end..] == text[cut.end..][..k - cut.end];
      if k == cut.start + 1 { assert shorter[cut.start..cut.end] == [text[cut.start]]; }
    } else if k > cut.start {
      HeldReturn(text, k);
      assert text[cut.start] == shorter[k - 1];
    }
  }

  /** The bound holds at every prefix exactly when it holds of every line in this sense. */
  lemma {:induction false} TailsFitIffSpansFit(text: string)
    ensures TailsFit(text) <==> SpansFit(text)
    decreases |text|
  {
    hide Tail;
    var cut := NextBreak(text);
    if cut.NoCut? {
      WholeTail(text);
    } else {
      var rest := text[cut.end..];
      TailsFitIffSpansFit(rest);
      if TailsFit(text) { RestTailsFit(text); }
      if SpansFit(text) {
        forall k | 0 <= k <= |text|
          ensures |Tail(text[..k])| <= MAX_LINE_CHARS
        {
          TailOfPrefix(text, k);
        }
      }
    }
  }

  lemma WholeTail(text: string)
    requires NextBreak(text).NoCut?
    ensures TailsFit(text) <==> |text| <= MAX_LINE_CHARS
  {
    assert text[..|text|] == text;
    forall k | 0 <= k <= |text|
      ensures |Tail(text[..k])| <= |text|
    {
      TailNoLonger(text[..k]);
    }
  }

  lemma RestTailsFit(text: string)
    requires TailsFit(text) && NextBreak(text).Cut?
    ensures var cut := NextBreak(text);
            && TailsFit(text[cut.end..])
            && cut.start + (if text[cut.start] == '\r' then 1 else 0) <= MAX_LINE_CHARS
  {
    hide Tail;
    var cut := NextBreak(text);
    var rest := text[cut.end..];
    TailOfPrefix(text, cut.start);
    TailOfPrefix(text, cut.start + 1);
    assert |Tail(text[..cut.start])| <= MAX_LINE_CHARS && |Tail(text[..cut.start + 1])| <= MAX_LINE_CHARS;
    forall k | 0 <= k <= |rest|
      ensures |Tail(rest[..k])| <= MAX_LINE_CHARS
    {
      if k == 0 {
        TailNoLonger(rest[..0]);
      } else {
        TailOfPrefix(text, cut.end + k);
        assert |Tail(text[..cut.end + k])| <= MAX_LINE_CHARS;
      }
    }
  }

  /** A text survives every cut exactly when its events fit and its lines do, a held `\r` included. */
  lemma SurvivesEveryCutIff(text: string)
    ensures EveryCutSucceeds(text) <==> EventsFit(text) && SpansFit(text)
  {
    hide EventsFit, SpansFit, TailsFit, EveryCutSucceeds;
    EveryCutSucceedsIff(text);
    TailsFitIffSpansFit(text);
  }

  // ----- lines shorter than the bound never trip it -----

  /** One unit to spare on every line, for a `\r` held at a chunk boundary, unless the text has none. */
  ghost predicate LinesFit(text: string) {
    var held := if '\r' in text then 1 else 0;
    && |Tail(text)| <= MAX_LINE_CHARS
    && forall i :: 0 <= i < |Lines(text)| ==> |Lines(text)[i]| + held <= MAX_LINE_CHARS
  }

  lemma PrefixTail(text: string, k: nat)
    requires k <= |text| && NextBreak(text).Cut?
    ensures k >= NextBreak(text).end ==>
              || Tail(text[..k]) == Tail(text[NextBreak(text).end..][..k - NextBreak(text).end])
              || ('\r' in text && |Tail(text[..k])| == NextBreak(text).start + 1)
    ensures k < NextBreak(text).end ==>
              || |Tail(text[..k])| <= NextBreak(text).start
              || ('\r' in text && |Tail(text[..k])| == NextBreak(text).start + 1)
  {
    var cut := NextBreak(text);
    var shorter := text[..k];
    assert text == shorter + text[k..];
    if NextBreak(shorter).Cut? {
      BreakIsStable(shorter, text[k..]);
      assert shorter[cut.end..] == text[cut.end..][..k - cut.end];
    } else if k > cut.start {
      HeldReturn(text, k);
    }
  }

  lemma HeldReturn(text: string, k: nat)
    requires NextBreak(text).Cut? && NextBreak(text).start < k <= |text| && NextBreak(text[..k]).NoCut?
    ensures '\r' in text && k == NextBreak(text).start + 1 && Tail(text[..k]) == text[..k]
  {
    var cut := NextBreak(text);
    var shorter := text[..k];
    assert text[cut.start..cut.end][0] == text[cut.start] == shorter[cut.start];
    assert shorter[cut.start] in shorter;
    assert shorter[..k - 1] == text[..k - 1];
  }

  lemma {:induction false} LinesFitTails(text: string, k: nat)
    requires LinesFit(text) && k <= |text|
    ensures |Tail(text[..k])| <= MAX_LINE_CHARS
    decreases |text|
  {
    var cut := NextBreak(text);
    if cut.NoCut? {
      TailNoLonger(text[..k]);
    } else {
      var rest := text[cut.end..];
      assert Lines(text)[0] == text[..cut.start];
      assert forall i :: 0 <= i < |Lines(rest)| ==> Lines(rest)[i] == Lines(text)[i + 1];
      assert '\r' in rest ==> '\r' in text;
      PrefixTail(text, k);
      if k >= cut.end {
        LinesFitTails(rest, k - cut.end);
      }
    }
  }

  lemma TailNoLonger(s: string)
    ensures |Tail(s)| <= |s|
  {
  }

  /** Lines shorter than the bound, and events within theirs, get through under every cut. */
  lemma ShortLinesNeverTrip(text: string, chunks: seq<string>)
    requires EventsFit(text) && LinesFit(text) && Concat(chunks) == text
    ensures Feed(FRESH, chunks) == Ok(StreamAfter(text))
  {
    forall k | 0 <= k <= |text|
      ensures |Tail(text[..k])| <= MAX_LINE_CHARS
    {
      LinesFitTails(text, k);
    }
    EveryCutSucceedsIff(text);
    ChunkingIsInvisible(chunks);
  }

  /**
   The line bound is not a property of the text: an over-long comment line is
   accepted when its line feed arrives with it and refused when it does not.
   */
  lemma LineBoundDependsOnTheCut(line: string)
    requires Plain(line) && |line| > MAX_LINE_CHARS && line[0] == ':'
    ensures Feed(FRESH, [line + "\n"]).Ok? && Feed(FRESH, [line, "\n"]) == Err(LineTooLong)
  {
    assert line + "\n" + "" == line + "\n";
    FirstLine(line, "");
    assert Consume(IDLE, line) == Consumed(IDLE, None);
    assert StreamAfter("") == FRESH;
    PushStep("", line + "\n");
    assert "" + (line + "\n") == line + "\n";
    PushStep("", line);
    assert "" + line == line;
    PlainHasNoBreak(line, 0);
  }
}
