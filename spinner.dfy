/** internal/ui/spinner.go: the progress step shown on the terminal while a
    stage runs, and its progress bar. Styling, the escape sequences, the
    writes to stderr and the mutex are not modelled; the fraction a step
    holds is a real number, not a float64. */
module Spinner {

  /** What a step remembers: the last fraction reported and whether it has
      completed or failed. */
  datatype StepState = StepState(percent: real, complete: bool, failed: bool)

  /** NewStep: nothing reported yet, neither completed nor failed. */
  function NewState(): (st: StepState)
    ensures st.percent == 0.0 && !st.complete && !st.failed
  {
    StepState(0.0, false, false)
  }

  predicate Finished(st: StepState) {
    st.complete || st.failed
  }

  /** Update: ignored once the step has finished, otherwise the fraction is
      stored as given, without clamping. */
  function Updated(st: StepState, percent: real): (r: StepState)
    ensures Finished(st) ==> r == st
    ensures !Finished(st) ==> r.percent == percent
    ensures r.complete == st.complete && r.failed == st.failed
  {
    if Finished(st) then st else st.(percent := percent)
  }

  /** Complete: completed at 100%, whether or not the step had failed. */
  function Completed(st: StepState): (r: StepState)
    ensures r.complete && r.percent == 1.0 && r.failed == st.failed
  {
    st.(complete := true, percent := 1.0)
  }

  /** Error: failed, the fraction and the completion flag left as they were. */
  function Errored(st: StepState): (r: StepState)
    ensures r.failed && r.percent == st.percent && r.complete == st.complete
  {
    st.(failed := true)
  }

  /** A run of Update calls in order. */
  function UpdatedAll(st: StepState, percents: seq<real>): StepState {
    if |percents| == 0 then st else Updated(UpdatedAll(st, percents[..|percents| - 1]), percents[|percents| - 1])
  }

  /** Updates never finish a step: a run of them leaves the flags alone and,
      on an unfinished step, leaves the last fraction reported. */
  lemma {:induction false} UpdatedAllKeepsFlags(st: StepState, percents: seq<real>)
    ensures UpdatedAll(st, percents).complete == st.complete
    ensures UpdatedAll(st, percents).failed == st.failed
    ensures !Finished(st) && |percents| > 0 ==> UpdatedAll(st, percents).percent == percents[|percents| - 1]
  {
    if |percents| > 0 {
      UpdatedAllKeepsFlags(st, percents[..|percents| - 1]);
    }
  }

  /** Once a step has completed or failed, no later Update changes it. */
  lemma {:induction false} FinishedIgnoresUpdates(st: StepState, percents: seq<real>)
    requires Finished(st)
    ensures UpdatedAll(st, percents) == st
  {
    if |percents| > 0 {
      FinishedIgnoresUpdates(st, percents[..|percents| - 1]);
    }
  }

  /** After Complete the step stays at 100% whatever is reported later, and
      after Error the fraction stays where it was. */
  lemma FinishedSteps(st: StepState, percents: seq<real>)
    ensures UpdatedAll(Completed(st), percents) == Completed(st)
    ensures UpdatedAll(Errored(st), percents).percent == st.percent
  {
    FinishedIgnoresUpdates(Completed(st), percents);
    FinishedIgnoresUpdates(Errored(st), percents);
  }

  /** The percentage render shows: the fraction times 100, capped at 100
      (a negative fraction is shown as it is). */
  function DisplayPercent(st: StepState): (pct: real)
    ensures pct <= 100.0
    ensures pct == 100.0 || pct == st.percent * 100.0
    ensures st.percent * 100.0 <= 100.0 ==> pct == st.percent * 100.0
  {
    var pct := st.percent * 100.0;
    if pct > 100.0 then 100.0 else pct
  }

  // ---------------------------------------------------------- progress bar

  /** The bar width render uses. */
  const BarWidth: int := 20

  datatype Cell = Full | Empty

  function Repeat(c: Cell, n: nat): (r: seq<Cell>)
    ensures |r| == n && forall i :: 0 <= i < n ==> r[i] == c
  {
    if n == 0 then [] else Repeat(c, n - 1) + [c]
  }

  /** Go's conversion of a floating-point value to int: toward zero. */
  function Trunc(x: real): (n: int)
    ensures x >= 0.0 ==> n as real <= x < n as real + 1.0
    ensures x < 0.0 ==> n as real - 1.0 < x <= n as real
  {
    if x >= 0.0 then x.Floor else -((-x).Floor)
  }

  /** How many cells renderProgressBar fills: the truncated share of the
      width, at most the width, and none when that share is negative. */
  function FilledCells(percent: real, width: nat): (k: nat)
    ensures k <= width
    ensures Trunc(percent / 100.0 * width as real) >= width ==> k == width
    ensures Trunc(percent / 100.0 * width as real) <= 0 ==> k == 0
    ensures 0 <= Trunc(percent / 100.0 * width as real) <= width ==> k == Trunc(percent / 100.0 * width as real)
  {
    var filled := Trunc(percent / 100.0 * width as real);
    var capped := if filled > width then width else filled;
    if capped < 0 then 0 else capped
  }

  /** renderProgressBar: `width` cells, the first FilledCells of them full
      and the others empty; a width of zero or less gives no cells. */
  method RenderProgressBar(percent: real, width: int) returns (bar: seq<Cell>)
    ensures width <= 0 ==> bar == []
    ensures width > 0 ==> bar == Repeat(Full, FilledCells(percent, width)) + Repeat(Empty, width - FilledCells(percent, width))
  {
    var filled := Trunc(percent / 100.0 * width as real);
    if filled > width {
      filled := width;
    }
    bar := [];
    var i := 0;
    while i < width
      invariant 0 <= i <= if width < 0 then 0 else width
      invariant width <= 0 ==> bar == []
      invariant width > 0 ==> bar == Repeat(Full, Min(i, FilledCells(percent, width))) + Repeat(Empty, i - Min(i, FilledCells(percent, width)))
      invariant width > 0 ==> (filled <= 0 ==> FilledCells(percent, width) == 0) && (filled > 0 ==> FilledCells(percent, width) == filled)
    {
      if i < filled {
        bar := bar + [Full];
      } else {
        bar := bar + [Empty];
      }
      i := i + 1;
    }
  }

  function Min(a: int, b: int): int {
    if a < b then a else b
  }

  /** A completed step renders a full bar, and an unfinished step that
      reported half of the work renders ten full cells out of twenty. */
  lemma BarExamples(st: StepState)
    ensures FilledCells(DisplayPercent(Completed(st)), BarWidth) == BarWidth
    ensures FilledCells(DisplayPercent(StepState(0.5, false, false)), BarWidth) == 10
  {
  }

  /** A fraction above 1 is stored as it is but shown as 100% with a full
      bar. */
  lemma OverfullDisplay(percent: real)
    requires percent > 1.0
    ensures Updated(NewState(), percent).percent == percent
    ensures DisplayPercent(Updated(NewState(), percent)) == 100.0
    ensures FilledCells(DisplayPercent(Updated(NewState(), percent)), BarWidth) == BarWidth
  {
  }

  // ------------------------------------------------------------- the step

  /** Step: the mutable progress step the stages report to. */
  class Step {
    const name: string
    var percent: real
    var complete: bool
    var failed: bool

    function State(): StepState
      reads this
    {
      StepState(percent, complete, failed)
    }

    /** NewStep (the first render is terminal output). */
    constructor (name: string)
      ensures this.name == name && State() == NewState()
    {
      this.name := name;
      percent := 0.0;
      complete := false;
      failed := false;
    }

    method Update(percent: real)
      modifies this
      ensures State() == Updated(old(State()), percent)
    {
      if complete || failed {
        return;
      }
      this.percent := percent;
    }

    /** Complete (the message is terminal output). */
    method Complete()
      modifies this
      ensures State() == Completed(old(State()))
    {
      complete := true;
      percent := 1.0;
    }

    /** Error (the message is terminal output). */
    method Error()
      modifies this
      ensures State() == Errored(old(State()))
    {
      failed := true;
    }

    /** The percentage and the bar render draws. */
    method Render() returns (pct: real, bar: seq<Cell>)
      ensures pct == DisplayPercent(State())
      ensures bar == Repeat(Full, FilledCells(pct, BarWidth)) + Repeat(Empty, BarWidth - FilledCells(pct, BarWidth))
    {
      pct := percent * 100.0;
      if pct > 100.0 {
        pct := 100.0;
      }
      bar := RenderProgressBar(pct, BarWidth);
    }
  }
}
