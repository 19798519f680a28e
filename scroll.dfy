/** The marquee bookkeeping of the render loop, on its own: each text field
    has a shift that the scroll ticks advance and that the redraw of the
    title and artist lines resets. */
module Scroll {
  import opened Compositor

  /** Text wider than this is scrolled: the text line's width. */
  const FIELD_WIDTH: nat := SCREEN_WIDTH - 4

  /** A text field as the redraw sees it: the rendered width of its text, and
      the width once the two-space gap that separates the wrap-around copies
      is appended. */
  datatype Field = Field(width: nat, padded: nat) {
    /** The overflow test uses the unpadded width. */
    predicate Overflows() {
      width > FIELD_WIDTH
    }

    /** Padding never makes text narrower. */
    predicate WellFormed() {
      padded >= width
    }

    /** Accepted ticks it takes the field's shift to come back to 0. */
    function Period(): (p: nat)
      requires WellFormed()
      ensures p > 0
    {
      if Overflows() then padded else 1
    }
  }

  /** The shift after a redraw of the field: forced to 0 when the text fits,
      reset to 0 once it has made a full wrap (it equals the padded width),
      kept as it came otherwise. */
  function Redrawn(f: Field, shift: nat): (r: nat)
    ensures r == 0 || r == shift
    ensures !f.Overflows() ==> r == 0
    ensures f.Overflows() && shift == f.padded ==> r == 0
    ensures f.Overflows() && shift != f.padded ==> r == shift
  {
    if !f.Overflows() then 0
    else if shift == f.padded then 0
    else shift
  }

  /** Which field is scrolling and both shifts. */
  datatype ScrollState = ScrollState(shiftingTitle: bool, titleShift: nat, composerShift: nat)

  /** The state right after a new track: the title is first, nothing shifted. */
  const START: ScrollState := ScrollState(true, 0, 0)

  /** One accepted ScrollText tick: the active field's shift goes up by 1, both
      fields are redrawn (which may reset either shift), and the flag flips
      exactly when the active shift then reads 0. */
  function Tick(title: Field, composer: Field, s: ScrollState): (r: ScrollState)
    ensures r.titleShift == if s.shiftingTitle then Redrawn(title, s.titleShift + 1) else Redrawn(title, s.titleShift)
    ensures r.composerShift == if s.shiftingTitle then Redrawn(composer, s.composerShift) else Redrawn(composer, s.composerShift + 1)
    ensures s.shiftingTitle ==> (r.shiftingTitle <==> r.titleShift != 0)
    ensures !s.shiftingTitle ==> (r.shiftingTitle <==> r.composerShift == 0)
  {
    if s.shiftingTitle then
      var t := Redrawn(title, s.titleShift + 1);
      ScrollState(t != 0, t, Redrawn(composer, s.composerShift))
    else
      var c := Redrawn(composer, s.composerShift + 1);
      ScrollState(c == 0, Redrawn(title, s.titleShift), c)
  }

  /** n accepted ticks in a row for a fixed track. */
  function Ticks(title: Field, composer: Field, s: ScrollState, n: nat): ScrollState
    decreases n
  {
    if n == 0 then s else Ticks(title, composer, Tick(title, composer, s), n - 1)
  }

  lemma {:induction false} TicksAdd(title: Field, composer: Field, s: ScrollState, a: nat, b: nat)
    ensures Ticks(title, composer, s, a + b) == Ticks(title, composer, Ticks(title, composer, s, a), b)
    decreases a
  {
    if a > 0 {
      TicksAdd(title, composer, Tick(title, composer, s), a - 1, b);
    }
  }

  /** The state the loop keeps between ticks: the field that is not scrolling
      sits at 0 and the active shift lies in [0, period). */
  predicate InPhase(title: Field, composer: Field, s: ScrollState)
    requires title.WellFormed() && composer.WellFormed()
  {
    if s.shiftingTitle then s.composerShift == 0 && s.titleShift < title.Period()
    else s.titleShift == 0 && s.composerShift < composer.Period()
  }

  /** Ticks keep the loop in phase. */
  lemma TickPreservesInPhase(title: Field, composer: Field, s: ScrollState)
    requires title.WellFormed() && composer.WellFormed() && InPhase(title, composer, s)
    ensures InPhase(title, composer, Tick(title, composer, s))
  {
  }

  /** Title phase: k < period ticks from the start shift the title by k; the
      period-th tick brings it back to 0 and hands over to the artist line. */
  lemma {:induction false} TitlePhase(title: Field, composer: Field, k: nat)
    requires title.WellFormed() && k <= title.Period()
    ensures Ticks(title, composer, START, k) ==
            if k < title.Period() then ScrollState(true, k, 0) else ScrollState(false, 0, 0)
    decreases k
  {
    if k > 0 {
      TitlePhase(title, composer, k - 1);
      TicksAdd(title, composer, START, k - 1, 1);
    }
  }

  /** The artist phase mirrors the title phase. */
  lemma {:induction false} ComposerPhase(title: Field, composer: Field, k: nat)
    requires composer.WellFormed() && k <= composer.Period()
    ensures Ticks(title, composer, ScrollState(false, 0, 0), k) ==
            if k < composer.Period() then ScrollState(false, 0, k) else START
    decreases k
  {
    if k > 0 {
      ComposerPhase(title, composer, k - 1);
      TicksAdd(title, composer, ScrollState(false, 0, 0), k - 1, 1);
    }
  }

  /** A full round: both periods of ticks bring the marquee back to its start. */
  lemma FullCycle(title: Field, composer: Field)
    requires title.WellFormed() && composer.WellFormed()
    ensures Ticks(title, composer, START, title.Period() + composer.Period()) == START
  {
    TicksAdd(title, composer, START, title.Period(), composer.Period());
    TitlePhase(title, composer, title.Period());
    ComposerPhase(title, composer, composer.Period());
  }
}
