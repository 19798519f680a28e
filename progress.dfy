/** `draw_current_progress`: the progress line under the title is a played
    segment, a round knob and a remaining segment, whose widths come from the
    played fraction of the track. */
module Progress {
  import opened Common
  import opened Compositor

  const PADDING: nat := 10
  const CIRCLE_RADIUS: nat := 4

  /** The progress area spans the screen width below the title lines. */
  const PROGRESS_WIDTH: nat := SCREEN_WIDTH

  /** The bar leaves PADDING columns free on each side: 108 columns. */
  const BAR_WIDTH: nat := PROGRESS_WIDTH - PADDING * 2

  /** `u32::saturating_sub`. */
  function SaturatingSub(a: nat, b: nat): (r: nat)
    ensures r <= a && r + b >= a
    ensures r == 0 || r + b == a
  {
    if a >= b then a - b else 0
  }

  /** The rounded share of the bar that the elapsed seconds (plus one) cover,
      clamped to the bar. Below the full bar, r is the nearest integer to
      BAR_WIDTH * (progressSecs + 1) / duration (halves rounded up); the full
      bar is reached once that quotient rounds to BAR_WIDTH or more. With a
      zero duration the quotient is infinite and the saturating
      float-to-integer cast and the clamp give the full bar. */
  function FilledWidth(progressSecs: nat, duration: nat): (r: nat)
    ensures r <= BAR_WIDTH
    ensures duration == 0 ==> r == BAR_WIDTH
    ensures duration > 0 && r < BAR_WIDTH ==>
              r * (2 * duration) <= 2 * BAR_WIDTH * (progressSecs + 1) + duration < r * (2 * duration) + 2 * duration
    ensures duration > 0 && r == BAR_WIDTH ==>
              2 * BAR_WIDTH * (progressSecs + 1) + duration >= BAR_WIDTH * (2 * duration)
  {
    if duration == 0 then BAR_WIDTH
    else
      var rounded := RoundDiv(BAR_WIDTH * (progressSecs + 1), duration);
      if rounded > BAR_WIDTH then
        MulMonotonic(BAR_WIDTH, rounded, 2 * duration);
        BAR_WIDTH
      else rounded
  }

  /** The played segment: the filled width less the knob's radius, or 0 when
      the filled width is no wider than the radius. */
  function PlayedWidth(progressSecs: nat, duration: nat): (r: nat)
    ensures var p := FilledWidth(progressSecs, duration);
            r == if p <= CIRCLE_RADIUS then 0 else p - CIRCLE_RADIUS
    ensures r <= BAR_WIDTH - CIRCLE_RADIUS
  {
    SaturatingSub(FilledWidth(progressSecs, duration), CIRCLE_RADIUS)
  }

  /** The remaining segment: what the bar has left after the played segment
      and the knob's radius. The two segments always share the bar less the
      knob's radius. */
  function RemainingWidth(progressSecs: nat, duration: nat): (r: nat)
    ensures PlayedWidth(progressSecs, duration) + r == BAR_WIDTH - CIRCLE_RADIUS
  {
    SaturatingSub(SaturatingSub(BAR_WIDTH, PlayedWidth(progressSecs, duration)), CIRCLE_RADIUS)
  }

  /** Fill colours. The two colours are given by their RGB888 components;
      the conversion to RGB565 is foreign. */
  datatype Paint = Black | Rgb888(r: nat, g: nat, b: nat)

  const PLAYED_PAINT: Paint := Rgb888(0x1d, 0xb9, 0x54)
  const REMAINING_PAINT: Paint := Rgb888(160, 160, 160)

  /** A rectangle of the bar: its width as drawn and its fill. */
  datatype Segment = Segment(width: nat, paint: Paint)

  /** A segment of computed width w: never narrower than 1 column, and black
      when w is 0 so that the 1-column stand-in does not show. */
  function SegmentOf(w: nat, paint: Paint): (s: Segment)
    requires paint != Black
    ensures s.width == if w == 0 then 1 else w
    ensures s.paint == Black <==> w == 0
    ensures s.paint != Black ==> s.paint == paint
  {
    Segment(if w < 1 then 1 else w, if w != 0 then paint else Black)
  }

  /** The three shapes the layout lines up, left to right. */
  datatype Bar = Bar(played: Segment, knobDiameter: nat, knobPaint: Paint, remaining: Segment)

  /** With p the filled width: the played segment is p less the knob's
      radius (a black 1-column stand-in while p is at most the radius), the
      remaining segment is the rest of the bar less the radius (a black
      1-column stand-in once the bar is full), and the knob is 9 pixels wide.
      Unless one of them is a stand-in, the two segments cover 104 columns. */
  function ProgressBar(progressSecs: nat, duration: nat): (b: Bar)
    ensures b.knobDiameter == CIRCLE_RADIUS * 2 + 1 && b.knobPaint == PLAYED_PAINT
    ensures var p := FilledWidth(progressSecs, duration);
            && b.played.width == (if p <= CIRCLE_RADIUS then 1 else p - CIRCLE_RADIUS)
            && (b.played.paint == Black <==> p <= CIRCLE_RADIUS)
            && (b.played.paint != Black ==> b.played.paint == PLAYED_PAINT)
    ensures var p := FilledWidth(progressSecs, duration);
            && b.remaining.width == (if p == BAR_WIDTH then 1 else BAR_WIDTH - CIRCLE_RADIUS - SaturatingSub(p, CIRCLE_RADIUS))
            && (b.remaining.paint == Black <==> p == BAR_WIDTH)
            && (b.remaining.paint != Black ==> b.remaining.paint == REMAINING_PAINT)
    ensures b.played.paint != Black && b.remaining.paint != Black ==>
              b.played.width + b.remaining.width == BAR_WIDTH - CIRCLE_RADIUS
  {
    Bar(SegmentOf(PlayedWidth(progressSecs, duration), PLAYED_PAINT),
        CIRCLE_RADIUS * 2 + 1,
        PLAYED_PAINT,
        SegmentOf(RemainingWidth(progressSecs, duration), REMAINING_PAINT))
  }

  /** The whole bar as drawn, knob included, fits the progress area. */
  lemma BarFits(progressSecs: nat, duration: nat)
    ensures var b := ProgressBar(progressSecs, duration);
            b.played.width + b.knobDiameter + b.remaining.width <= PROGRESS_WIDTH
  {
  }

  /** More elapsed time never shortens the played segment. */
  lemma FilledWidthMonotonic(p: nat, q: nat, duration: nat)
    requires p <= q
    ensures FilledWidth(p, duration) <= FilledWidth(q, duration)
    ensures PlayedWidth(p, duration) <= PlayedWidth(q, duration)
  {
    if duration > 0 {
      RoundDivMonotonic(BAR_WIDTH * (p + 1), BAR_WIDTH * (q + 1), duration);
    }
  }

  /** Once the elapsed seconds plus one reach the duration the bar is full and
      the remaining segment is drawn as a black 1-column stand-in. */
  lemma FullAtEnd(progressSecs: nat, duration: nat)
    requires progressSecs + 1 >= duration
    ensures FilledWidth(progressSecs, duration) == BAR_WIDTH
    ensures ProgressBar(progressSecs, duration).remaining == Segment(1, Black)
  {
    if duration > 0 {
      RoundDivExact(BAR_WIDTH, duration);
      MulMonotonic(duration, progressSecs + 1, BAR_WIDTH);
      assert BAR_WIDTH * duration <= BAR_WIDTH * (progressSecs + 1);
      RoundDivMonotonic(BAR_WIDTH * duration, BAR_WIDTH * (progressSecs + 1), duration);
    }
  }

  /** At the very start of a five-minute track the played segment is empty
      and drawn as a black 1-column stand-in. */
  lemma EmptyAtStart()
    ensures FilledWidth(0, 300) == 0
    ensures ProgressBar(0, 300).played == Segment(1, Black)
    ensures ProgressBar(0, 300).remaining == Segment(BAR_WIDTH - CIRCLE_RADIUS, REMAINING_PAINT)
  {
    assert RoundDiv(BAR_WIDTH * 1, 300) == 0;
  }
}
