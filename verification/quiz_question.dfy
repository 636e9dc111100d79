/**
 * One quiz question card: a radio selection, a "Check Answer" button, and the
 * answered/correct flags, which once set are locked by disabling the controls.
 */
module QuizQuestion {
  import opened Wrappers
  import opened Seqs

  datatype QuizOption = QuizOption(id: string, text: string, isCorrect: bool)

  datatype QuizState = QuizState(selectedOption: Option<string>, isAnswered: bool, isCorrect: bool)

  const Initial: QuizState := QuizState(None, false, false)

  /** JavaScript truthiness of the selected option: `null` and the empty string are falsy. */
  predicate HasSelection(s: QuizState) {
    s.selectedOption.Some? && s.selectedOption.value != ""
  }

  /** `options.find(opt => opt.id === selectedOption)` */
  function FindOption(options: seq<QuizOption>, id: string): Option<QuizOption> {
    Find(options, (o: QuizOption) => o.id == id)
  }

  /** `handleCheck` */
  function HandleCheck(options: seq<QuizOption>, s: QuizState): (s': QuizState)
    ensures !HasSelection(s) ==> s' == s
    ensures HasSelection(s) && (forall i :: 0 <= i < |options| ==> options[i].id != s.selectedOption.value) ==> s' == s
    ensures HasSelection(s) && (exists i :: 0 <= i < |options| && options[i].id == s.selectedOption.value) ==>
      s'.selectedOption == s.selectedOption && s'.isAnswered &&
      exists i :: 0 <= i < |options| && options[i].id == s.selectedOption.value &&
        (forall j :: 0 <= j < i ==> options[j].id != s.selectedOption.value) &&
        s'.isCorrect == options[i].isCorrect
  {
    if !HasSelection(s) then s
    else
      match FindOption(options, s.selectedOption.value)
      case None => s
      case Some(selected) => s.(isCorrect := selected.isCorrect, isAnswered := true)
  }

  datatype Event = Select(id: string) | Check

  /** A user action, through the controls: both the radio group and the button are disabled once answered, and the button also without a selection. */
  function Step(options: seq<QuizOption>, s: QuizState, e: Event): (s': QuizState)
    ensures s.isAnswered ==> s' == s
  {
    match e
    case Select(id) => if s.isAnswered then s else s.(selectedOption := Some(id))
    case Check => if !HasSelection(s) || s.isAnswered then s else HandleCheck(options, s)
  }

  function Run(options: seq<QuizOption>, s: QuizState, events: seq<Event>): QuizState
    decreases |events|
  {
    if events == [] then s else Run(options, Step(options, s, events[0]), events[1..])
  }

  /** Once the question is answered, no sequence of actions changes the state again. */
  lemma {:induction false} AnsweredIsFinal(options: seq<QuizOption>, s: QuizState, events: seq<Event>)
    requires s.isAnswered
    ensures Run(options, s, events) == s
    decreases |events|
  {
    if events != [] {
      AnsweredIsFinal(options, Step(options, s, events[0]), events[1..]);
    }
  }

  /** A question is only ever marked correct after it has been answered. */
  lemma {:induction false} CorrectOnlyWhenAnswered(options: seq<QuizOption>, s: QuizState, events: seq<Event>)
    requires s.isCorrect ==> s.isAnswered
    ensures var s' := Run(options, s, events); s'.isCorrect ==> s'.isAnswered
    decreases |events|
  {
    if events != [] {
      CorrectOnlyWhenAnswered(options, Step(options, s, events[0]), events[1..]);
    }
  }

  /** A single action answers the question only if it is a check of a selection that names one of the options. */
  lemma AnsweredOnlyByMatchingCheck(options: seq<QuizOption>, s: QuizState, e: Event)
    requires !s.isAnswered && Step(options, s, e).isAnswered
    ensures e == Check && HasSelection(s)
    ensures exists i :: 0 <= i < |options| && options[i].id == s.selectedOption.value
  {
  }
}
