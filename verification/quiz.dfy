/** The distress quiz: answers are summed and the total is placed in one of three bands. */
module Quiz {
  import opened Wrappers

  /** The number of questions on the quiz. */
  const QuestionCount: nat := 26
  /** The highest option value of one question ("Nearly every day"). */
  const MaxOption: nat := 3

  /** A form field as `int(request.form.get(name, 0))` sees it. */
  datatype Answer =
    | Missing            // field absent: counts as 0
    | Given(value: int)  // text `int()` accepts
    | Malformed          // text `int()` rejects with ValueError

  datatype Band = Low | Moderate | High

  /** Some answer's text is not an integer; an unanswered question is `Missing`, not an error. */
  datatype QuizError = Unparsable

  function Points(a: Answer): int
    requires !a.Malformed?
  {
    if a.Given? then a.value else 0
  }

  /** The total of the answers, missing ones counting 0. */
  function Sum(answers: seq<Answer>): int
    requires forall i :: 0 <= i < |answers| ==> !answers[i].Malformed?
  {
    if |answers| == 0 then 0 else Sum(answers[..|answers| - 1]) + Points(answers[|answers| - 1])
  }

  /**
   * The scoring loop: a malformed answer aborts the whole quiz with an error,
   * otherwise the score is the sum of all answers.
   */
  method TotalScore(answers: seq<Answer>) returns (r: Result<int, QuizError>)
    ensures r.Err? <==> exists i :: 0 <= i < |answers| && answers[i].Malformed?
    ensures r.Ok? ==> r.value == Sum(answers)
  {
    var total := 0;
    var i := 0;
    while i < |answers|
      invariant 0 <= i <= |answers|
      invariant forall k :: 0 <= k < i ==> !answers[k].Malformed?
      invariant total == Sum(answers[..i])
    {
      if answers[i].Malformed? {
        return Err(Unparsable);
      }
      assert answers[..i + 1][..i] == answers[..i];
      total := total + Points(answers[i]);
      i := i + 1;
    }
    assert answers[..i] == answers;
    r := Ok(total);
  }

  /** Below 20 is low distress, below 45 moderate, and anything else high. */
  function Classify(score: int): (b: Band)
    ensures b == Low <==> score < 20
    ensures b == High <==> score >= 45
  {
    if score < 20 then Low else if score < 45 then Moderate else High
  }

  function Rank(b: Band): nat {
    match b
    case Low => 0
    case Moderate => 1
    case High => 2
  }

  /** A higher score never lands in a lower band. */
  lemma ClassifyMonotone(x: int, y: int)
    requires x <= y
    ensures Rank(Classify(x)) <= Rank(Classify(y))
  {
  }

  /** When every answer is one of the offered options the score lies in [0, 3 * answers]. */
  lemma {:induction false} SumBounds(answers: seq<Answer>)
    requires forall i :: 0 <= i < |answers| ==>
               answers[i].Missing? || (answers[i].Given? && 0 <= answers[i].value <= MaxOption)
    ensures 0 <= Sum(answers) <= MaxOption * |answers|
    ensures |answers| == QuestionCount ==> Sum(answers) <= 78
  {
    if |answers| > 0 {
      SumBounds(answers[..|answers| - 1]);
    }
  }
}
