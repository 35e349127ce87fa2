/**
 * The clarifying-questions form: changing one answer, the rule that every
 * answer must be non-blank before the form may be submitted, and what a
 * submission hands on.
 */
module Questionnaire {
  import opened Wrappers
  import opened JsStrings

  /** `answer.trim() !== ''`. */
  predicate Answered(answer: string) {
    Trim(answer) != ""
  }

  /** `allQuestionsAnswered`: `answers.every(...)`, so true for no answers at all. */
  predicate AllQuestionsAnswered(answers: seq<string>) {
    forall i :: 0 <= i < |answers| ==> Answered(answers[i])
  }

  /** An answer counts exactly when it holds a character other than JavaScript whitespace. */
  lemma AnsweredIffNotAllWhitespace(answers: seq<string>)
    ensures AllQuestionsAnswered(answers) <==> forall i :: 0 <= i < |answers| ==> !AllWhitespace(answers[i])
    ensures |answers| == 0 ==> AllQuestionsAnswered(answers)
  {
    forall i | 0 <= i < |answers| ensures Answered(answers[i]) <==> !AllWhitespace(answers[i]) {
      TrimEmptyIffAllWhitespace(answers[i]);
    }
  }

  /**
   * `handleAnswerChange`: copies the answers into a new array and stores
   * `value` at `index` in the copy; the array passed in is left alone.
   */
  method HandleAnswerChange(answers: array<string>, index: nat, value: string) returns (newAnswers: array<string>)
    requires index < answers.Length
    ensures fresh(newAnswers)
    ensures newAnswers[..] == answers[..][index := value]
  {
    newAnswers := new string[answers.Length];
    var i := 0;
    while i < answers.Length
      invariant 0 <= i <= answers.Length
      invariant forall k :: 0 <= k < i ==> newAnswers[k] == answers[k]
    {
      newAnswers[i] := answers[i];
      i := i + 1;
    }
    newAnswers[index] := value;
  }

  /** After a change the length is the same, `index` holds the new value and every other answer is kept. */
  lemma AnswerChangeShape(answers: seq<string>, index: nat, value: string)
    requires index < |answers|
    ensures |answers[index := value]| == |answers|
    ensures answers[index := value][index] == value
    ensures forall j :: 0 <= j < |answers| && j != index ==> answers[index := value][j] == answers[j]
  {
  }

  /**
   * A blank answer blocks the form; a non-blank one leaves the verdict to
   * the other answers.
   */
  lemma AnswerChangeGate(answers: seq<string>, index: nat, value: string)
    requires index < |answers|
    ensures AllWhitespace(value) ==> !AllQuestionsAnswered(answers[index := value])
    ensures !AllWhitespace(value) ==>
      (AllQuestionsAnswered(answers[index := value]) <==>
         forall j :: 0 <= j < |answers| && j != index ==> Answered(answers[j]))
  {
    TrimEmptyIffAllWhitespace(value);
    var updated := answers[index := value];
    assert updated[index] == value;
    assert forall j :: 0 <= j < |answers| && j != index ==> updated[j] == answers[j];
  }

  /** The submit button: disabled while loading or while an answer is blank. */
  predicate SubmitEnabled(isLoading: bool, answers: seq<string>) {
    !isLoading && AllQuestionsAnswered(answers)
  }

  /**
   * `handleFormSubmit` as reached through the submit button: the current
   * answers, unchanged, when the button is enabled, and nothing otherwise.
   */
  function Submit(isLoading: bool, answers: seq<string>): (r: Option<seq<string>>)
    ensures r.Some? <==> !isLoading && forall i :: 0 <= i < |answers| ==> !AllWhitespace(answers[i])
    ensures r.Some? ==> r.value == answers
  {
    AnsweredIffNotAllWhitespace(answers);
    if SubmitEnabled(isLoading, answers) then Some(answers) else None
  }
}
