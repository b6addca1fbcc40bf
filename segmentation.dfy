/** Cutting a laid-out glyph sequence into runs that share one font, and
    turning each run into a drawable text blob (the loop of
    `CachingShaper::shape` and `make_blob`). */
module Segmentation {
  import opened Wrappers

  newtype U16 = x: int | 0 <= x < 0x1_0000

  /** A positioned glyph as the layout engine returns it: its glyph id, the
      full name of the font it was resolved to, and its horizontal offset. */
  datatype Glyph = Glyph(glyphId: nat, fontName: string, offset: int)

  /** A run of glyphs labelled with one font name. */
  datatype Run = Run(fontName: string, glyphs: seq<Glyph>)

  /** The drawable batch of one run: the font it is drawn with, the glyph ids
      narrowed to 16 bits and the horizontal positions. */
  datatype TextBlob = TextBlob(fontName: string, glyphIds: seq<U16>, positions: seq<int>)

  /** One element of a shaping result: the run's font name and its blob. */
  type ShapedRun = (string, TextBlob)

  /** `glyph_id as u16`: the cast keeps the low 16 bits. */
  function ToU16(id: nat): U16 {
    (id % 0x1_0000) as U16
  }

  function Last<T>(s: seq<T>): T
    requires s != []
  {
    s[|s| - 1]
  }

  /** The glyphs of the runs, in order, one run after another. */
  function Flatten(runs: seq<Run>): seq<Glyph>
  {
    if runs == [] then [] else Flatten(runs[..|runs| - 1]) + Last(runs).glyphs
  }

  /** Every glyph of the run has the run's font. */
  predicate Uniform(run: Run) {
    forall g :: g in run.glyphs ==> g.fontName == run.fontName
  }

  /** Runs are non-empty and uniform, and neighbours carry different font
      names, so no run could be extended into the next one. */
  predicate WellFormed(runs: seq<Run>) {
    && (forall i :: 0 <= i < |runs| ==> runs[i].glyphs != [] && Uniform(runs[i]))
    && (forall i :: 0 <= i < |runs| - 1 ==> BreaksAt(runs, i))
  }

  /** The runs at `i` and `i + 1` carry different font names. */
  predicate BreaksAt(runs: seq<Run>, i: nat)
    requires i < |runs| - 1
  {
    runs[i].fontName != runs[i + 1].fontName
  }

  /** One step of the segmentation: `g` joins the last run when it has the
      same font, and opens a new run otherwise. */
  function Extend(runs: seq<Run>, g: Glyph): seq<Run>
  {
    if runs != [] && Last(runs).fontName == g.fontName then
      runs[..|runs| - 1] + [Run(g.fontName, Last(runs).glyphs + [g])]
    else
      runs + [Run(g.fontName, [g])]
  }

  lemma {:induction false} FlattenSnoc(init: seq<Run>, r: Run)
    ensures Flatten(init + [r]) == Flatten(init) + r.glyphs
  {
    assert (init + [r])[..|init|] == init;
  }

  /** Extend appends the glyph to the concatenation. */
  lemma {:induction false} ExtendFlatten(runs: seq<Run>, g: Glyph)
    ensures Flatten(Extend(runs, g)) == Flatten(runs) + [g]
  {
    if runs != [] && Last(runs).fontName == g.fontName {
      var init := runs[..|runs| - 1];
      assert runs == init + [Last(runs)];
      FlattenSnoc(init, Last(runs));
      FlattenSnoc(init, Run(g.fontName, Last(runs).glyphs + [g]));
    } else {
      FlattenSnoc(runs, Run(g.fontName, [g]));
    }
  }

  /** Extend keeps the runs well formed. */
  lemma {:induction false} ExtendWellFormed(runs: seq<Run>, g: Glyph)
    requires WellFormed(runs)
    ensures WellFormed(Extend(runs, g))
  {
    var next := Extend(runs, g);
    if runs != [] && Last(runs).fontName == g.fontName {
      var merged := Run(g.fontName, Last(runs).glyphs + [g]);
      assert Uniform(merged) by {
        assert Uniform(runs[|runs| - 1]);
      }
      forall i | 0 <= i < |next|
        ensures next[i].glyphs != [] && Uniform(next[i])
      {
        if i < |runs| - 1 {
          assert next[i] == runs[i];
        }
      }
      forall i | 0 <= i < |next| - 1
        ensures BreaksAt(next, i)
      {
        assert BreaksAt(runs, i);
        assert next[i].fontName == runs[i].fontName;
        assert next[i + 1].fontName == runs[i + 1].fontName;
      }
    } else {
      forall i | 0 <= i < |next|
        ensures next[i].glyphs != [] && Uniform(next[i])
      {
        if i < |runs| {
          assert next[i] == runs[i];
        }
      }
      forall i | 0 <= i < |next| - 1
        ensures BreaksAt(next, i)
      {
        if i < |runs| - 1 {
          assert BreaksAt(runs, i);
          assert next[i] == runs[i] && next[i + 1] == runs[i + 1];
        }
      }
    }
  }

  lemma {:induction false} ExtendSnoc(prev: seq<Run>, gs: seq<Glyph>)
    requires gs != [] && Flatten(prev) == gs[..|gs| - 1]
    ensures Flatten(Extend(prev, Last(gs))) == gs
  {
    var g := Last(gs);
    var prefix := gs[..|gs| - 1];
    assert gs == prefix + [g];
    ExtendFlatten(prev, g);
  }

  /** The runs of a glyph sequence, built glyph by glyph from the left.
      Concatenating them gives the sequence back, and they are well formed. */
  function Segment(gs: seq<Glyph>): (runs: seq<Run>)
    ensures Flatten(runs) == gs
    ensures WellFormed(runs)
  {
    if gs == [] then []
    else
      var prev := Segment(gs[..|gs| - 1]);
      ExtendSnoc(prev, gs);
      ExtendWellFormed(prev, Last(gs));
      Extend(prev, Last(gs))
  }

  /** Segment is the only well-formed cut of a sequence: any list of
      non-empty, uniform runs with differing neighbours that concatenates
      to `gs` is `Segment(gs)`. */
  lemma {:induction false} SegmentUnique(runs: seq<Run>, gs: seq<Glyph>)
    requires WellFormed(runs) && Flatten(runs) == gs
    ensures runs == Segment(gs)
    decreases |gs|
  {
    if runs == [] {
      assert gs == [];
    } else if |Last(runs).glyphs| == 1 {
      var init := runs[..|runs| - 1];
      SplitSingleton(runs, gs);
      SegmentUnique(init, gs[..|gs| - 1]);
      SegmentSnoc(gs);
    } else {
      var last := Last(runs);
      var runs' := runs[..|runs| - 1] + [Run(last.fontName, last.glyphs[..|last.glyphs| - 1])];
      SplitLonger(runs, gs);
      SegmentUnique(runs', gs[..|gs| - 1]);
      SegmentSnoc(gs);
    }
  }

  lemma {:induction false} SegmentSnoc(gs: seq<Glyph>)
    requires gs != []
    ensures Segment(gs) == Extend(Segment(gs[..|gs| - 1]), Last(gs))
  {
  }

  /** A last run of one glyph is the glyph of its own, opened because the
      font changed. */
  lemma {:induction false} SplitSingleton(runs: seq<Run>, gs: seq<Glyph>)
    requires WellFormed(runs) && Flatten(runs) == gs && runs != [] && |Last(runs).glyphs| == 1
    ensures gs != []
    ensures WellFormed(runs[..|runs| - 1]) && Flatten(runs[..|runs| - 1]) == gs[..|gs| - 1]
    ensures runs == Extend(runs[..|runs| - 1], Last(gs))
  {
    var init := runs[..|runs| - 1];
    var last := Last(runs);
    var g := last.glyphs[0];
    assert runs == init + [last];
    FlattenSnoc(init, last);
    assert last.glyphs == [g];
    assert g.fontName == last.fontName by {
      assert Uniform(runs[|runs| - 1]);
    }
    assert gs == Flatten(init) + [g];
    assert gs[..|gs| - 1] == Flatten(init);
    WellFormedInit(runs);
    if init != [] {
      assert BreaksAt(runs, |runs| - 2);
    }
  }

  /** A last run of several glyphs is the same run one glyph shorter,
      extended by the last glyph. */
  lemma {:induction false} SplitLonger(runs: seq<Run>, gs: seq<Glyph>)
    requires WellFormed(runs) && Flatten(runs) == gs && runs != [] && |Last(runs).glyphs| > 1
    ensures var last := Last(runs);
            var runs' := runs[..|runs| - 1] + [Run(last.fontName, last.glyphs[..|last.glyphs| - 1])];
            && gs != []
            && WellFormed(runs') && Flatten(runs') == gs[..|gs| - 1]
            && runs == Extend(runs', Last(gs))
  {
    var init := runs[..|runs| - 1];
    var last := Last(runs);
    var shorter := Run(last.fontName, last.glyphs[..|last.glyphs| - 1]);
    var runs' := init + [shorter];
    var g := Last(last.glyphs);
    assert runs == init + [last];
    assert last.glyphs == shorter.glyphs + [g];
    assert g.fontName == last.fontName by {
      assert g in last.glyphs;
      assert Uniform(runs[|runs| - 1]);
    }
    FlattenSnoc(init, last);
    FlattenSnoc(init, shorter);
    assert gs == Flatten(runs') + [g];
    assert gs[..|gs| - 1] == Flatten(runs');
    ShortenLast(runs);
    assert runs'[..|runs'| - 1] == init;
  }

  lemma {:induction false} WellFormedInit(runs: seq<Run>)
    requires WellFormed(runs) && runs != []
    ensures WellFormed(runs[..|runs| - 1])
  {
    var init := runs[..|runs| - 1];
    forall i | 0 <= i < |init| - 1
      ensures BreaksAt(init, i)
    {
      assert BreaksAt(runs, i);
    }
  }

  /** Dropping the last glyph of a last run that has two or more keeps the
      runs well formed. */
  lemma {:induction false} ShortenLast(runs: seq<Run>)
    requires WellFormed(runs) && runs != [] && |Last(runs).glyphs| > 1
    ensures var last := Last(runs);
            WellFormed(runs[..|runs| - 1] + [Run(last.fontName, last.glyphs[..|last.glyphs| - 1])])
  {
    var init := runs[..|runs| - 1];
    var last := Last(runs);
    var shorter := Run(last.fontName, last.glyphs[..|last.glyphs| - 1]);
    var runs' := init + [shorter];
    forall i | 0 <= i < |runs'|
      ensures runs'[i].glyphs != [] && Uniform(runs'[i])
    {
      if i < |init| {
        assert runs'[i] == runs[i];
      } else {
        assert Uniform(runs[|runs| - 1]);
        assert forall h :: h in shorter.glyphs ==> h in last.glyphs;
      }
    }
    forall i | 0 <= i < |runs'| - 1
      ensures BreaksAt(runs', i)
    {
      assert BreaksAt(runs, i);
      assert runs'[i].fontName == runs[i].fontName;
      assert runs'[i + 1].fontName == runs[i + 1].fontName;
    }
  }

  /** Glyphs whose fonts are [A, A, B, B, B, A] fall into three runs
      labelled A, B, A with 2, 3 and 1 glyphs. */
  lemma SegmentExample(gs: seq<Glyph>, a: string, b: string)
    requires a != b && |gs| == 6
    requires gs[0].fontName == gs[1].fontName == gs[5].fontName == a
    requires gs[2].fontName == gs[3].fontName == gs[4].fontName == b
    ensures var runs := Segment(gs);
            && |runs| == 3
            && runs[0].fontName == a && runs[1].fontName == b && runs[2].fontName == a
            && |runs[0].glyphs| == 2 && |runs[1].glyphs| == 3 && |runs[2].glyphs| == 1
  {
    var runs := [Run(a, gs[..2]), Run(b, gs[2..5]), Run(a, gs[5..])];
    ExampleRunsFlatten(gs, runs);
    ExampleRunsWellFormed(gs, runs, a, b);
    SegmentUnique(runs, gs);
  }

  lemma {:induction false} ExampleRunsFlatten(gs: seq<Glyph>, runs: seq<Run>)
    requires |gs| == 6 && |runs| == 3
    requires runs[0].glyphs == gs[..2] && runs[1].glyphs == gs[2..5] && runs[2].glyphs == gs[5..]
    ensures Flatten(runs) == gs
  {
    FlattenSnoc([], runs[0]);
    FlattenSnoc([runs[0]], runs[1]);
    FlattenSnoc([runs[0], runs[1]], runs[2]);
    assert [runs[0]] + [runs[1]] == runs[..2];
    assert runs[..2] + [runs[2]] == runs;
    assert gs == gs[..2] + gs[2..5] + gs[5..];
  }

  lemma {:induction false} ExampleRunsWellFormed(gs: seq<Glyph>, runs: seq<Run>, a: string, b: string)
    requires a != b && |gs| == 6
    requires gs[0].fontName == gs[1].fontName == gs[5].fontName == a
    requires gs[2].fontName == gs[3].fontName == gs[4].fontName == b
    requires runs == [Run(a, gs[..2]), Run(b, gs[2..5]), Run(a, gs[5..])]
    ensures WellFormed(runs)
  {
    assert Uniform(runs[0]) && Uniform(runs[1]) && Uniform(runs[2]);
    assert BreaksAt(runs, 0) && BreaksAt(runs, 1);
  }

  /** The 16-bit glyph ids of a run, glyph by glyph. */
  function GlyphIds(glyphs: seq<Glyph>): (ids: seq<U16>)
    ensures |ids| == |glyphs|
    ensures forall i :: 0 <= i < |glyphs| ==> ids[i] == ToU16(glyphs[i].glyphId)
  {
    if glyphs == [] then [] else [ToU16(glyphs[0].glyphId)] + GlyphIds(glyphs[1..])
  }

  /** The horizontal positions of a run, glyph by glyph. */
  function Positions(glyphs: seq<Glyph>): (xs: seq<int>)
    ensures |xs| == |glyphs|
    ensures forall i :: 0 <= i < |glyphs| ==> xs[i] == glyphs[i].offset
  {
    if glyphs == [] then [] else [glyphs[0].offset] + Positions(glyphs[1..])
  }

  /** The blob `make_blob` builds from a non-empty run: drawn in the font of
      the run's first glyph, one 16-bit glyph id and one position per glyph. */
  function BlobOf(glyphs: seq<Glyph>): TextBlob
    requires glyphs != []
  {
    TextBlob(glyphs[0].fontName, GlyphIds(glyphs), Positions(glyphs))
  }

  /** The shaping result of a list of non-empty runs: each run's label with
      its blob. */
  function ToBlobs(runs: seq<Run>): (blobs: seq<ShapedRun>)
    requires forall i :: 0 <= i < |runs| ==> runs[i].glyphs != []
    ensures |blobs| == |runs|
    ensures forall i :: 0 <= i < |runs| ==> blobs[i] == (runs[i].fontName, BlobOf(runs[i].glyphs))
  {
    if runs == [] then []
    else ToBlobs(runs[..|runs| - 1]) + [(Last(runs).fontName, BlobOf(Last(runs).glyphs))]
  }

  /** The positions of a list of blobs, one blob after another. */
  function BlobPositions(blobs: seq<ShapedRun>): seq<int>
  {
    if blobs == [] then [] else BlobPositions(blobs[..|blobs| - 1]) + Last(blobs).1.positions
  }

  /** The glyph ids of a list of blobs, one blob after another. */
  function BlobGlyphIds(blobs: seq<ShapedRun>): seq<U16>
  {
    if blobs == [] then [] else BlobGlyphIds(blobs[..|blobs| - 1]) + Last(blobs).1.glyphIds
  }

  lemma {:induction false} PositionsAppend(a: seq<Glyph>, b: seq<Glyph>)
    ensures Positions(a + b) == Positions(a) + Positions(b)
  {
    if a != [] {
      assert (a + b)[1..] == a[1..] + b;
      PositionsAppend(a[1..], b);
    }
  }

  lemma {:induction false} GlyphIdsAppend(a: seq<Glyph>, b: seq<Glyph>)
    ensures GlyphIds(a + b) == GlyphIds(a) + GlyphIds(b)
  {
    if a != [] {
      assert (a + b)[1..] == a[1..] + b;
      GlyphIdsAppend(a[1..], b);
    }
  }

  /** The blobs of non-empty runs hold the glyph ids and positions of the
      runs' glyphs, in order. */
  lemma {:induction false} ToBlobsCover(runs: seq<Run>)
    requires forall i :: 0 <= i < |runs| ==> runs[i].glyphs != []
    ensures BlobPositions(ToBlobs(runs)) == Positions(Flatten(runs))
    ensures BlobGlyphIds(ToBlobs(runs)) == GlyphIds(Flatten(runs))
  {
    if runs != [] {
      var init := runs[..|runs| - 1];
      ToBlobsCover(init);
      var blobs := ToBlobs(runs);
      assert blobs[..|blobs| - 1] == ToBlobs(init);
      PositionsAppend(Flatten(init), Last(runs).glyphs);
      GlyphIdsAppend(Flatten(init), Last(runs).glyphs);
    }
  }

  /** What the segmentation loop of `shape` produces for a layout: one
      non-empty blob per run, labelled with the font it is drawn in,
      neighbours in different fonts, and together the blobs hold every glyph
      id and every offset of the layout, in order. */
  lemma {:induction false} ShapedRunsCoverLayout(gs: seq<Glyph>)
    ensures var blobs := ToBlobs(Segment(gs));
            && (forall i :: 0 <= i < |blobs| ==> blobs[i].0 == blobs[i].1.fontName && blobs[i].1.glyphIds != [])
            && (forall i :: 0 <= i < |blobs| - 1 ==> blobs[i].0 != blobs[i + 1].0)
            && BlobPositions(blobs) == Positions(gs)
            && BlobGlyphIds(blobs) == GlyphIds(gs)
  {
    var runs := Segment(gs);
    ToBlobsLabels(runs);
    ToBlobsCover(runs);
  }

  /** The blobs of well-formed runs are non-empty, labelled with the font
      they are drawn in, and neighbours have different labels. */
  lemma {:induction false} ToBlobsLabels(runs: seq<Run>)
    requires WellFormed(runs)
    ensures var blobs := ToBlobs(runs);
            && (forall i :: 0 <= i < |blobs| ==> blobs[i].0 == blobs[i].1.fontName && blobs[i].1.glyphIds != [])
            && (forall i :: 0 <= i < |blobs| - 1 ==> blobs[i].0 != blobs[i + 1].0)
  {
    var blobs := ToBlobs(runs);
    forall i | 0 <= i < |blobs| - 1
      ensures blobs[i].0 != blobs[i + 1].0
    {
      assert BreaksAt(runs, i);
    }
  }

  lemma {:induction false} ToBlobsSnoc(init: seq<Run>, r: Run)
    requires forall i :: 0 <= i < |init| ==> init[i].glyphs != []
    requires r.glyphs != []
    ensures ToBlobs(init + [r]) == ToBlobs(init) + [(r.fontName, BlobOf(r.glyphs))]
  {
    var full := init + [r];
    assert full[..|full| - 1] == init;
    assert Last(full) == r;
  }

  /** A blob with the font, ids and positions `make_blob` gives is `BlobOf`. */
  lemma {:induction false} BlobOfDetermined(glyphs: seq<Glyph>, blob: TextBlob)
    requires glyphs != []
    requires blob.fontName == glyphs[0].fontName
    requires |blob.glyphIds| == |blob.positions| == |glyphs|
    requires forall i :: 0 <= i < |glyphs| ==>
               blob.glyphIds[i] == ToU16(glyphs[i].glyphId) && blob.positions[i] == glyphs[i].offset
    ensures blob == BlobOf(glyphs)
  {
  }

  lemma {:induction false} SegmentStep(glyphs: seq<Glyph>, i: nat)
    requires i < |glyphs|
    ensures Segment(glyphs[..i + 1]) == Extend(Segment(glyphs[..i]), glyphs[i])
  {
    assert glyphs[..i + 1][..i] == glyphs[..i];
  }

  /** `make_blob`: allocates one glyph buffer and one position buffer of the
      run's length and fills them glyph by glyph. The run must not be empty:
      the font is read from its first glyph. */
  method MakeBlob(glyphs: seq<Glyph>) returns (blob: TextBlob)
    requires glyphs != []
    ensures blob == BlobOf(glyphs)
  {
    var count := |glyphs|;
    var font := glyphs[0].fontName;
    var ids := new U16[count];
    var positions := new int[count];
    for i := 0 to count
      invariant forall j :: 0 <= j < i ==> ids[j] == ToU16(glyphs[j].glyphId)
    {
      ids[i] := ToU16(glyphs[i].glyphId);
    }
    for i := 0 to count
      invariant forall j :: 0 <= j < count ==> ids[j] == ToU16(glyphs[j].glyphId)
      invariant forall j :: 0 <= j < i ==> positions[j] == glyphs[j].offset
    {
      positions[i] := glyphs[i].offset;
    }
    blob := TextBlob(font, ids[..], positions[..]);
    BlobOfDetermined(glyphs, blob);
  }

  /** The segmentation loop of `shape`: walks the glyphs once, keeping the
      current run and its font, and emits a blob whenever the font changes
      and once more for the last run. The result is the blob list of
      `Segment(glyphs)`; an empty layout gives an empty list. */
  method SegmentIntoBlobs(glyphs: seq<Glyph>) returns (blobs: seq<ShapedRun>)
    ensures blobs == ToBlobs(Segment(glyphs))
    ensures glyphs == [] ==> blobs == []
  {
    blobs := [];
    var currentRun: seq<Glyph> := [];
    var currentFont: Option<string> := None;
    ghost var runs: seq<Run> := [];
    for i := 0 to |glyphs|
      invariant runs == Segment(glyphs[..i])
      invariant i == 0 ==> currentFont == None && currentRun == [] && blobs == []
      invariant i > 0 ==> LoopState(runs, currentFont, currentRun, blobs)
    {
      var glyph := glyphs[i];
      SegmentStep(glyphs, i);
      if currentFont.Some? && glyph.fontName != currentFont.value {
        CloseRun(runs, glyph, currentFont.value, currentRun, blobs);
        var blob := MakeBlob(currentRun);
        blobs := blobs + [(currentFont.value, blob)];
        currentRun := [];
      } else {
        ContinueRun(runs, glyph, currentFont, currentRun, blobs);
      }
      currentFont := Some(glyph.fontName);
      currentRun := currentRun + [glyph];
      runs := Extend(runs, glyph);
    }
    assert glyphs[..|glyphs|] == glyphs;
    if |currentRun| > 0 {
      FinishRuns(runs, currentFont.value, currentRun, blobs);
      var blob := MakeBlob(currentRun);
      blobs := blobs + [(currentFont.value, blob)];
    }
  }

  /** The loop state after a non-empty prefix whose runs are `runs`: the
      last run is still open, every earlier run has been emitted. */
  ghost predicate LoopState(runs: seq<Run>, currentFont: Option<string>, currentRun: seq<Glyph>,
                            blobs: seq<ShapedRun>)
  {
    && WellFormed(runs)
    && runs != []
    && currentFont == Some(Last(runs).fontName)
    && currentRun == Last(runs).glyphs
    && blobs == ToBlobs(runs[..|runs| - 1])
  }

  lemma {:induction false} CloseRun(runs: seq<Run>, g: Glyph, font: string, run: seq<Glyph>, blobs: seq<ShapedRun>)
    requires LoopState(runs, Some(font), run, blobs) && font != g.fontName
    ensures run != []
    ensures LoopState(Extend(runs, g), Some(g.fontName), [g], blobs + [(font, BlobOf(run))])
  {
    ExtendWellFormed(runs, g);
    var next := Extend(runs, g);
    assert next[..|next| - 1] == runs;
    assert runs == runs[..|runs| - 1] + [Last(runs)];
    ToBlobsSnoc(runs[..|runs| - 1], Last(runs));
  }

  /** A glyph that starts the first run or has the open run's font joins
      the open run. */
  lemma {:induction false} ContinueRun(runs: seq<Run>, g: Glyph, font: Option<string>, run: seq<Glyph>,
                    blobs: seq<ShapedRun>)
    requires || (runs == [] && font == None && run == [] && blobs == [])
             || (LoopState(runs, font, run, blobs) && font == Some(g.fontName))
    ensures LoopState(Extend(runs, g), Some(g.fontName), run + [g], blobs)
  {
    ExtendWellFormed(runs, g);
    if runs != [] {
      var next := Extend(runs, g);
      assert next[..|next| - 1] == runs[..|runs| - 1];
    }
  }

  lemma {:induction false} FinishRuns(runs: seq<Run>, font: string, run: seq<Glyph>, blobs: seq<ShapedRun>)
    requires LoopState(runs, Some(font), run, blobs)
    ensures run != []
    ensures blobs + [(font, BlobOf(run))] == ToBlobs(runs)
  {
    assert runs == runs[..|runs| - 1] + [Last(runs)];
    ToBlobsSnoc(runs[..|runs| - 1], Last(runs));
  }
}
