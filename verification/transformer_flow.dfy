/**
 * The step navigator of the transformer flow diagram: an active step id that
 * starts at 1, "previous" and "next" buttons that stop at the ends, and one
 * button per step that jumps to it.
 */
module TransformerFlow {

  datatype FlowStep = FlowStep(id: int, title: string, description: string)

  const Steps: seq<FlowStep> := [
    FlowStep(1, "Input Embedding", "Words are converted to vectors and combined with positional encodings."),
    FlowStep(2, "Encoder Processing", "Self-attention and feed-forward networks process the input sequence."),
    FlowStep(3, "Decoder Processing", "Decoder uses encoder outputs and previously generated tokens to produce next outputs.")
  ]

  const InitialStep: int := 1

  /** The step ids are 1, 2, … in list order. */
  lemma StepIds()
    ensures |Steps| == 3
    ensures forall k :: 0 <= k < |Steps| ==> Steps[k].id == k + 1
  {
  }

  predicate InRange(step: int) {
    1 <= step <= |Steps|
  }

  /** `handlePrevStep` */
  function Prev(step: int): (r: int)
    ensures step > 1 ==> r == step - 1
    ensures step <= 1 ==> r == step
    ensures InRange(step) ==> InRange(r)
  {
    if step > 1 then step - 1 else step
  }

  /** `handleNextStep` */
  function Next(step: int): (r: int)
    ensures step < |Steps| ==> r == step + 1
    ensures step >= |Steps| ==> r == step
    ensures InRange(step) ==> InRange(r)
  {
    if step < |Steps| then step + 1 else step
  }

  /** A click: one of the two arrows, or the button of the `k`-th step (there is no button past the last step). */
  datatype Event = PrevClicked | NextClicked | StepClicked(k: nat)

  /** The active step after one click. */
  function Apply(step: int, e: Event): (r: int)
    ensures InRange(step) ==> InRange(r)
    ensures e.StepClicked? && e.k < |Steps| ==> r == e.k + 1
    ensures e.StepClicked? && e.k >= |Steps| ==> r == step
  {
    StepIds();
    match e
    case PrevClicked => Prev(step)
    case NextClicked => Next(step)
    case StepClicked(k) => if k < |Steps| then Steps[k].id else step
  }

  /** The active step after a run of clicks; it never leaves [1, steps.length]. */
  function Run(step: int, events: seq<Event>): (r: int)
    ensures InRange(step) ==> InRange(r)
    decreases |events|
  {
    if events == [] then step
    else
      StepIds();
      Run(Apply(step, events[0]), events[1..])
  }

  /** From the start, every sequence of clicks keeps the step between 1 and 3. */
  lemma ReachableInRange(events: seq<Event>)
    ensures 1 <= Run(InitialStep, events) <= 3
  {
    StepIds();
  }

  /** From a step that is not the last, "next" then "previous" returns to it. */
  lemma NextThenPrev(step: int)
    requires InRange(step) && step < |Steps|
    ensures Prev(Next(step)) == step
  {
  }

  /** From a step that is not the first, "previous" then "next" returns to it. */
  lemma PrevThenNext(step: int)
    requires InRange(step) && step > 1
    ensures Next(Prev(step)) == step
  {
  }

  /** At the ends the arrows do nothing, which is also why they are shown disabled there. */
  lemma EndsAreFixed()
    ensures Prev(1) == 1 && Next(|Steps|) == |Steps|
  {
  }
}
