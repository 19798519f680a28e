/** `draw_current_name_and_artist`: the title and artist lines are rendered
    into canvases; a line too wide for the screen gets a two-space gap
    appended and its pixels rotated left by its shift, so that it wraps
    around like a marquee. */
module Marquee {
  import opened Common
  import opened Compositor
  import opened Katakana
  import opened Scroll

  // ---------------------------------------------------------------------
  // Index arithmetic of the circular shift.

  /** Adding whole rows of width w does not change the column. */
  lemma ModAddMultiple(n: int, q: int, w: nat)
    requires w > 0
    ensures (n + q * w) % w == n % w
  {
    DivUnique(n + q * w, n / w + q, n % w, w);
  }

  /** Reducing a summand first does not change the remainder. */
  lemma ModAddReduce(a: int, b: int, w: nat)
    requires w > 0
    ensures (a % w + b) % w == (a + b) % w
  {
    ModAddMultiple(a % w + b, a / w, w);
  }

  /** The cell that the rotated canvas reads for index k: the same row,
      column (x + shift) mod w. */
  function SourceIndex(w: nat, shift: nat, k: nat): nat
    requires w > 0
  {
    (k % w + shift) % w + (k / w) * w
  }

  /** The cell that the remap loop writes for index i: the same row, column
      (x - shift) mod w, as `rem_euclid` computes it. */
  function DestIndex(w: nat, shift: nat, i: nat): nat
    requires w > 0
  {
    (i % w - shift) % w + (i / w) * w
  }

  /** Column x of a row-major index, shifted by d and reduced, is read back
      by shifting by -d. */
  lemma ShiftBack(x: nat, d: int, w: nat)
    requires x < w
    ensures ((x + d) % w - d) % w == x
  {
    ModAddReduce(x + d, -d, w);
    DivUnique(x, 0, x, w);
  }

  lemma DestThenSource(w: nat, h: nat, shift: nat, i: nat)
    requires i < w * h
    ensures w > 0 && DestIndex(w, shift, i) < w * h && SourceIndex(w, shift, DestIndex(w, shift, i)) == i
  {
    CellOfIndex(i, w, h);
    var x, y := i % w, i / w;
    var nx := (x - shift) % w;
    CellIndexBound(nx, y, w, h);
    IndexOfCell(nx, y, w);
    ShiftBack(x, -(shift as int), w);
  }

  lemma SourceThenDest(w: nat, h: nat, shift: nat, i: nat)
    requires i < w * h
    ensures w > 0 && SourceIndex(w, shift, i) < w * h && DestIndex(w, shift, SourceIndex(w, shift, i)) == i
  {
    CellOfIndex(i, w, h);
    var x, y := i % w, i / w;
    var sx := (x + shift) % w;
    CellIndexBound(sx, y, w, h);
    IndexOfCell(sx, y, w);
    ShiftBack(x, shift, w);
  }

  /** The loop's write position and the read position are inverse bijections
      of the cells of a w-by-h canvas. */
  lemma IndexBijection(w: nat, h: nat, shift: nat, i: nat)
    requires i < w * h
    ensures w > 0
    ensures DestIndex(w, shift, i) < w * h && SourceIndex(w, shift, DestIndex(w, shift, i)) == i
    ensures SourceIndex(w, shift, i) < w * h && DestIndex(w, shift, SourceIndex(w, shift, i)) == i
  {
    DestThenSource(w, h, shift, i);
    SourceThenDest(w, h, shift, i);
  }

  // ---------------------------------------------------------------------
  // The rotation, as a function of the canvas, and its laws.

  /** The canvas rotated left by `shift` columns: cell (x, y) shows the old
      cell ((x + shift) mod width, y). */
  function RotateLeft<C>(c: Canvas<C>, shift: nat): (r: Canvas<C>)
    requires c.Valid()
    ensures r.Valid() && r.size == c.size
  {
    var w, n := c.size.width, |c.pixels|;
    if w == 0 then c
    else
      Canvas(c.size, seq(n, k requires 0 <= k < n =>
                           IndexBijection(w, c.size.height, shift, k);
                           c.pixels[SourceIndex(w, shift, k)]))
  }

  /** RotateLeft by cells: the row is kept and the column moves. */
  lemma RotateLeftAt<C>(c: Canvas<C>, shift: nat, x: nat, y: nat)
    requires c.Valid() && x < c.size.width && y < c.size.height
    ensures RotateLeft(c, shift).Pixel(x, y) == c.Pixel((x + shift) % c.size.width, y)
  {
    var w := c.size.width;
    CellIndexBound(x, y, w, c.size.height);
    IndexOfCell(x, y, w);
  }

  /** Rotating by a shift and by its remainder modulo the width agree. */
  lemma RotatePeriodic<C>(c: Canvas<C>, shift: nat)
    requires c.Valid() && c.size.width > 0
    ensures RotateLeft(c, shift) == RotateLeft(c, shift % c.size.width)
  {
    var w := c.size.width;
    forall k | 0 <= k < |c.pixels|
      ensures SourceIndex(w, shift, k) == SourceIndex(w, shift % w, k)
    {
      ModAddReduce(shift, k % w, w);
      ModAddReduce(shift % w, k % w, w);
      DivUnique(shift % w, 0, shift % w, w);
    }
  }

  /** A zero shift leaves the canvas as it is. */
  lemma RotateZero<C>(c: Canvas<C>)
    requires c.Valid()
    ensures RotateLeft(c, 0) == c
  {
    var w := c.size.width;
    if w > 0 {
      forall k | 0 <= k < |c.pixels|
        ensures SourceIndex(w, 0, k) == k
      {
        CellOfIndex(k, w, c.size.height);
        DivUnique(k % w, 0, k % w, w);
      }
    }
  }

  /** A shift of the full width is a whole wrap: the canvas comes back
      unchanged, which is why the redraw may reset such a shift to 0. */
  lemma RotateFullWidth<C>(c: Canvas<C>)
    requires c.Valid()
    ensures RotateLeft(c, c.size.width) == c
  {
    var w := c.size.width;
    if w > 0 {
      RotatePeriodic(c, w);
      DivUnique(w, 1, 0, w);
      RotateZero(c);
    }
  }

  /** The cell that RotateLeft reads for index k. */
  lemma RotatePixel<C>(c: Canvas<C>, shift: nat, k: nat)
    requires c.Valid() && k < |c.pixels|
    ensures c.size.width > 0 && SourceIndex(c.size.width, shift, k) < |c.pixels|
    ensures RotateLeft(c, shift).pixels[k] == c.pixels[SourceIndex(c.size.width, shift, k)]
  {
    IndexBijection(c.size.width, c.size.height, shift, k);
  }

  lemma SourceCompose(w: nat, h: nat, a: nat, b: nat, k: nat)
    requires k < w * h
    ensures w > 0 && SourceIndex(w, a, SourceIndex(w, b, k)) == SourceIndex(w, a + b, k)
  {
    CellOfIndex(k, w, h);
    var x, y := k % w, k / w;
    var sx := (x + b) % w;
    var sb := SourceIndex(w, b, k);
    assert sb == sx + y * w;
    IndexOfCell(sx, y, w);
    ModAddReduce(x + b, a, w);
    assert SourceIndex(w, a, sb) == (sx + a) % w + y * w;
  }

  /** Two rotations compose into one by the sum of the shifts. */
  lemma RotateCompose<C>(c: Canvas<C>, a: nat, b: nat)
    requires c.Valid()
    ensures RotateLeft(RotateLeft(c, a), b) == RotateLeft(c, a + b)
  {
    var inner := RotateLeft(c, a);
    forall k | 0 <= k < |c.pixels|
      ensures RotateLeft(inner, b).pixels[k] == RotateLeft(c, a + b).pixels[k]
    {
      RotatePixel(inner, b, k);
      RotatePixel(c, a, SourceIndex(c.size.width, b, k));
      RotatePixel(c, a + b, k);
      SourceCompose(c.size.width, c.size.height, a, b, k);
    }
  }

  /** The remap is a bijection: rotating back by the rest of the width
      restores every pixel, none lost and none duplicated. */
  lemma RotateInverse<C>(c: Canvas<C>, shift: nat)
    requires c.Valid() && c.size.width > 0
    ensures RotateLeft(RotateLeft(c, shift), c.size.width - shift % c.size.width) == c
  {
    var w := c.size.width;
    var back := w - shift % w;
    RotateCompose(c, shift, back);
    RotatePeriodic(c, shift + back);
    assert shift + back == (shift / w + 1) * w;
    ModAddMultiple(0, shift / w + 1, w);
    RotateZero(c);
  }

  /** The remap buffer once the cells before `m` have been copied: a cell
      holds its source pixel when that source comes before `m`, else is unset. */
  ghost function Remapped<C>(c: Canvas<C>, shift: nat, m: nat): (r: seq<Option<C>>)
    requires c.Valid()
    ensures |r| == |c.pixels|
  {
    var w, n := c.size.width, |c.pixels|;
    if w == 0 then []
    else
      seq(n, k requires 0 <= k < n =>
            IndexBijection(w, c.size.height, shift, k);
            if SourceIndex(w, shift, k) < m then c.pixels[SourceIndex(w, shift, k)] else None)
  }

  /** Copying source cell m to its destination extends the buffer by one cell. */
  lemma RemappedStep<C>(c: Canvas<C>, shift: nat, m: nat)
    requires c.Valid() && m < |c.pixels|
    ensures c.size.width > 0 && DestIndex(c.size.width, shift, m) < |c.pixels|
    ensures Remapped(c, shift, m + 1) == Remapped(c, shift, m)[DestIndex(c.size.width, shift, m) := c.pixels[m]]
  {
    var w, h := c.size.width, c.size.height;
    IndexBijection(w, h, shift, m);
    var d := DestIndex(w, shift, m);
    forall k | 0 <= k < |c.pixels| && k != d
      ensures SourceIndex(w, shift, k) != m
    {
      IndexBijection(w, h, shift, k);
    }
  }

  lemma RemappedEnds<C>(c: Canvas<C>, shift: nat)
    requires c.Valid()
    ensures forall k :: 0 <= k < |c.pixels| ==> Remapped(c, shift, 0)[k] == None
    ensures Remapped(c, shift, |c.pixels|) == RotateLeft(c, shift).pixels
  {
    if c.size.width > 0 {
      forall k | 0 <= k < |c.pixels|
        ensures Remapped(c, shift, |c.pixels|)[k] == RotateLeft(c, shift).pixels[k]
      {
        RotatePixel(c, shift, k);
      }
    }
  }

  /** The remap loop of the draw: every source cell `og_i` is copied to the
      cell one shift to its left, into a fresh buffer of unset cells. */
  method ShiftPixels<C>(canvas: Canvas<C>, shift: nat) returns (r: Canvas<C>)
    requires canvas.Valid()
    ensures r == RotateLeft(canvas, shift)
  {
    var w, h, n := canvas.size.width, canvas.size.height, |canvas.pixels|;
    var newPixels := new Option<C>[n](_ => None);
    RemappedEnds(canvas, shift);
    var ogI := 0;
    while ogI < n
      invariant 0 <= ogI <= n
      invariant newPixels[..] == Remapped(canvas, shift, ogI)
    {
      RemappedStep(canvas, shift, ogI);
      var x, y := ogI % w, ogI / w;
      var newX := (x - shift) % w;
      var index := PointToIndex(canvas.size, Point(0, 0), Point(newX, y));
      assert index == Some(DestIndex(w, shift, ogI)) by {
        CellOfIndex(ogI, w, h);
      }
      newPixels[index.value] := canvas.pixels[ogI];
      ogI := ogI + 1;
    }
    r := Canvas(canvas.size, newPixels[..]);
  }

  // ---------------------------------------------------------------------
  // Text and typesetting.

  /** FONT_7X14 for the title, FONT_6X13 for the artists. */
  datatype Font = TitleFont | ComposerFont

  function CharWidth(f: Font): nat {
    match f
    case TitleFont => 7
    case ComposerFont => 6
  }

  function CharHeight(f: Font): nat {
    match f
    case TitleFont => 14
    case ComposerFont => 13
  }

  /** The text machinery the draw relies on: grapheme segmentation and glyph
      rasterisation. Both are foreign; Valid() states what is relied on. */
  datatype Typesetter = Typesetter(segment: string -> seq<Grapheme>, rasterize: (Font, string) -> Canvas<Rgb565>) {
    /** Segmentation partitions the string; a line of text renders to a
        canvas one glyph cell per character (the fonts are monospaced). */
    ghost predicate Valid() {
      && (forall s :: Concat(segment(s)) == s)
      && (forall f, s :: rasterize(f, s).Valid() && rasterize(f, s).size == Size(|s| * CharWidth(f), CharHeight(f)))
    }
  }

  /** The title line: the track name with its katakana made half-width; a
      name whose graphemes spell only ASCII is shown exactly as it is. */
  function TitleText(ts: Typesetter, track: Track): (r: string)
    ensures var text := Concat(ts.segment(track.name)); IsAscii(text) ==> r == text
  {
    var gs := ts.segment(track.name);
    assert IsAscii(Concat(gs)) ==> forall j :: 0 <= j < |gs| ==> IsAscii(gs[j]) by {
      if IsAscii(Concat(gs)) {
        ConcatAscii(gs);
      }
    }
    FullToHalf(gs)
  }

  /** The artist line: each artist name made half-width, joined with ", ".
      No artists give an empty line, one artist gives that artist's name,
      and with several the first name and the separator open the line. */
  function ComposerText(ts: Typesetter, track: Track): (r: string)
    ensures track.artists == [] ==> r == []
    ensures |track.artists| == 1 ==> r == FullToHalf(ts.segment(track.artists[0].name))
    ensures |track.artists| >= 2 ==> FullToHalf(ts.segment(track.artists[0].name)) + ", " <= r
  {
    Join(seq(|track.artists|, i requires 0 <= i < |track.artists| => FullToHalf(ts.segment(track.artists[i].name))), ", ")
  }

  /** The widths the redraw compares, for a text in a font. */
  function FieldOf(f: Font, text: string): (r: Field)
    ensures r.WellFormed()
    ensures r.padded == r.width + 2 * CharWidth(f)
  {
    Field(|text| * CharWidth(f), |text + "  "| * CharWidth(f))
  }

  /** What the draw puts in a field's canvas: the text as rendered when it
      fits, otherwise the padded text rotated left by the shift. */
  function FieldCanvas(ts: Typesetter, f: Font, text: string, shift: nat): (c: Canvas<Rgb565>)
    requires ts.Valid()
    ensures c.Valid() && c.size.height == CharHeight(f)
    ensures c.size.width == if FieldOf(f, text).Overflows() then FieldOf(f, text).padded else FieldOf(f, text).width
  {
    if FieldOf(f, text).Overflows() then RotateLeft(ts.rasterize(f, text + "  "), shift) else ts.rasterize(f, text)
  }

  /** The reset is never visible: the canvas drawn with the shift the redraw
      leaves is the canvas drawn with the shift it was given. */
  lemma ResetInvisible(ts: Typesetter, f: Font, text: string, shift: nat)
    requires ts.Valid()
    ensures FieldCanvas(ts, f, text, Redrawn(FieldOf(f, text), shift)) == FieldCanvas(ts, f, text, shift)
  {
    var field := FieldOf(f, text);
    if field.Overflows() && shift == field.padded {
      var c := ts.rasterize(f, text + "  ");
      RotateFullWidth(c);
      RotateZero(c);
    }
  }

  /** An overflowing field shows, at cell (x, y), the padded rendering's
      cell ((x + shift) mod padded width, y). */
  lemma FieldCanvasAt(ts: Typesetter, f: Font, text: string, shift: nat, x: nat, y: nat)
    requires ts.Valid() && FieldOf(f, text).Overflows()
    requires x < FieldOf(f, text).padded && y < CharHeight(f)
    ensures var padded := ts.rasterize(f, text + "  ");
            && padded.size.width == FieldOf(f, text).padded
            && FieldCanvas(ts, f, text, shift).Pixel(x, y) == padded.Pixel((x + shift) % padded.size.width, y)
  {
    RotateLeftAt(ts.rasterize(f, text + "  "), shift, x, y);
  }

  /** One field of the draw: render, and for an overflowing text render the
      padded text, remap it by a nonzero shift, and reset a full-wrap shift. */
  method DrawField(ts: Typesetter, f: Font, text: string, shift: nat) returns (canvas: Canvas<Rgb565>, newShift: nat)
    requires ts.Valid()
    ensures canvas == FieldCanvas(ts, f, text, shift)
    ensures newShift == Redrawn(FieldOf(f, text), shift)
  {
    canvas := ts.rasterize(f, text);
    newShift := shift;
    if canvas.size.width > SCREEN_WIDTH - 4 {
      canvas := ts.rasterize(f, text + "  ");
      if newShift != 0 {
        canvas := ShiftPixels(canvas, newShift);
        if newShift == canvas.size.width {
          newShift := 0;
        }
      } else {
        RotateZero(canvas);
      }
    } else {
      newShift := 0;
    }
  }

  /** `draw_current_name_and_artist` up to the placement on the screen: both
      field canvases, and both shifts as the draw leaves them. */
  method DrawNameAndArtist(ts: Typesetter, track: Track, titleShift: nat, composerShift: nat)
    returns (nameCanvas: Canvas<Rgb565>, composerCanvas: Canvas<Rgb565>, newTitleShift: nat, newComposerShift: nat)
    requires ts.Valid()
    ensures nameCanvas == FieldCanvas(ts, TitleFont, TitleText(ts, track), titleShift)
    ensures composerCanvas == FieldCanvas(ts, ComposerFont, ComposerText(ts, track), composerShift)
    ensures newTitleShift == Redrawn(TitleField(ts, track), titleShift)
    ensures newComposerShift == Redrawn(ComposerField(ts, track), composerShift)
  {
    nameCanvas, newTitleShift := DrawField(ts, TitleFont, TitleText(ts, track), titleShift);
    composerCanvas, newComposerShift := DrawField(ts, ComposerFont, ComposerText(ts, track), composerShift);
  }

  function TitleField(ts: Typesetter, track: Track): Field {
    FieldOf(TitleFont, TitleText(ts, track))
  }

  function ComposerField(ts: Typesetter, track: Track): Field {
    FieldOf(ComposerFont, ComposerText(ts, track))
  }

  // ---------------------------------------------------------------------
  // The text lines.

  lemma {:induction false} ConcatAscii(gs: seq<Grapheme>)
    requires forall i :: 0 <= i < |Concat(gs)| ==> Concat(gs)[i] as int < 128
    ensures forall j :: 0 <= j < |gs| ==> IsAscii(gs[j])
    decreases |gs|
  {
    if gs != [] {
      assert Concat(gs) == gs[0] + Concat(gs[1..]);
      forall i | 0 <= i < |gs[0]| ensures gs[0][i] as int < 128 {
        assert Concat(gs)[i] == gs[0][i];
      }
      forall i | 0 <= i < |Concat(gs[1..])| ensures Concat(gs[1..])[i] as int < 128 {
        assert Concat(gs)[|gs[0]| + i] == Concat(gs[1..])[i];
      }
      ConcatAscii(gs[1..]);
      forall j | 1 <= j < |gs| ensures IsAscii(gs[j]) {
        assert gs[j] == gs[1..][j - 1];
      }
    }
  }
}
