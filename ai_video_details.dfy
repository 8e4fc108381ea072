/** The quiz tab of the video details dialog (`client/src/components/ai-video-details.tsx`):
    navigation over a generated quiz, the unrounded score and the results verdict. */
module AiVideoDetails {
  import opened Strings
  import opened Lists
  import opened QuizAnswers

  datatype QuizQuestion = QuizQuestion(question: string, options: seq<string>, correctAnswer: int, explanation: string)

  function KeyOf(q: QuizQuestion): int { q.correctAnswer }

  /** `correct / n * 100` over the rationals. */
  function Percent(correct: nat, n: nat): (s: real)
    requires n > 0
    ensures s * n as real == 100.0 * correct as real
    ensures correct <= n ==> 0.0 <= s <= 100.0
  {
    var s := (correct as real / n as real) * 100.0;
    assert correct <= n ==> correct as real / n as real <= 1.0;
    s
  }

  /** `calculateScore`: the percentage of agreeing answers, unrounded; with no questions it is
      `NaN` (`None`). The `reduce` reads `questions[index]` for every answer, so answers may not
      outrun the questions. */
  function Score(answers: seq<Option<int>>, keys: seq<int>): (r: Option<real>)
    requires |answers| <= |keys|
    ensures r.None? <==> |keys| == 0
    ensures r.Some? ==> r.value * |keys| as real == 100.0 * CorrectUpTo(answers, keys, |answers|) as real
    ensures r.Some? ==> 0.0 <= r.value <= 100.0
  {
    CorrectPastEnd(answers, keys, |answers|);
    if |keys| == 0 then None else Some(Percent(CorrectUpTo(answers, keys, |answers|), |keys|))
  }

  /** Every question answered correctly scores exactly 100. */
  lemma PerfectScore(answers: seq<Option<int>>, keys: seq<int>)
    requires |answers| == |keys| > 0
    requires forall i | 0 <= i < |keys| :: answers[i] == Some(keys[i])
    ensures Score(answers, keys) == Some(100.0)
  {
    AllCorrect(answers, keys, |answers|);
    var s := Score(answers, keys).value;
    assert s * |keys| as real == 100.0 * |keys| as real;
  }

  const Green := "text-green-600"
  const Yellow := "text-yellow-600"
  const Red := "text-red-600"

  /** The colour of the percentage. `NaN` fails both comparisons. */
  function ScoreColor(score: Option<real>): (r: string)
    ensures r in {Green, Yellow, Red}
  {
    if score.Some? && score.value >= 80.0 then Green
    else if score.Some? && score.value >= 60.0 then Yellow
    else Red
  }

  function ScoreMessage(score: Option<real>): (r: string)
    ensures r in {"Excellent work!", "Good job!", "Keep practicing!"}
  {
    if score.Some? && score.value >= 80.0 then "Excellent work!"
    else if score.Some? && score.value >= 60.0 then "Good job!"
    else "Keep practicing!"
  }

  /** A threshold on the score is a threshold on the count: `score >= t` iff `100 * correct >= t * n`. */
  lemma ScoreAtLeast(answers: seq<Option<int>>, keys: seq<int>, t: nat)
    requires |answers| <= |keys| && |keys| > 0
    ensures Score(answers, keys).value >= t as real <==>
              100 * CorrectUpTo(answers, keys, |answers|) >= t * |keys|
  {
    ThresholdOnCount(Score(answers, keys).value, CorrectUpTo(answers, keys, |answers|), |keys|, t);
  }

  lemma ThresholdOnCount(s: real, c: nat, n: nat, t: nat)
    requires n > 0 && s * n as real == 100.0 * c as real
    ensures s >= t as real <==> 100 * c >= t * n
  {
    RealScale(s, t as real, n as real);
    IntToRealProduct(t, n);
    IntToRealProduct(100, c);
  }

  lemma IntToRealProduct(a: nat, b: nat)
    ensures (a * b) as real == a as real * b as real
  {
  }

  lemma RealScale(s: real, t: real, n: real)
    requires n > 0.0
    ensures s >= t <==> s * n >= t * n
  {
    if s >= t {
      assert s * n - t * n == (s - t) * n;
    } else {
      assert t * n - s * n == (t - s) * n;
    }
  }

  /** The verdict in terms of the count: four in five right is excellent, three in five good,
      and the colour always goes with the message. */
  lemma VerdictByCount(answers: seq<Option<int>>, keys: seq<int>)
    requires |answers| <= |keys| && |keys| > 0
    ensures var c := CorrectUpTo(answers, keys, |answers|);
      var s := Score(answers, keys);
      (ScoreMessage(s) == "Excellent work!" <==> 5 * c >= 4 * |keys|) &&
      (ScoreMessage(s) == "Good job!" <==> 4 * |keys| > 5 * c >= 3 * |keys|) &&
      (ScoreColor(s) == Green <==> ScoreMessage(s) == "Excellent work!") &&
      (ScoreColor(s) == Yellow <==> ScoreMessage(s) == "Good job!")
  {
    var c := CorrectUpTo(answers, keys, |answers|);
    var n := |keys|;
    var s := Score(answers, keys);
    ScoreAtLeast(answers, keys, 80);
    ScoreAtLeast(answers, keys, 60);
    assert s.value >= 80.0 <==> 5 * c >= 4 * n;
    assert s.value >= 60.0 <==> 5 * c >= 3 * n;
  }

  /** Results mark a question green when its answer equals its key; there are as many green cards as counted correct answers. */
  function GreenCards(answers: seq<Option<int>>, keys: seq<int>): (r: nat)
    ensures r <= |keys|
  {
    |AgreeingPositions(answers, keys, |keys|)|
  }

  lemma GreenCardsMatchScore(answers: seq<Option<int>>, keys: seq<int>)
    requires |answers| <= |keys|
    ensures GreenCards(answers, keys) == CorrectUpTo(answers, keys, |answers|)
  {
    AgreeingPositionsCount(answers, keys, |keys|);
    CorrectPastEnd(answers, keys, |keys|);
  }

  class Quiz {
    var questions: seq<QuizQuestion>
    var index: int
    var answers: seq<Option<int>>
    var showResults: bool

    /** The index stays on a question (0 with none), never passes the answered prefix, and the
        sheet has no holes and no more entries than questions. */
    predicate Valid()
      reads this
    {
      0 <= index && (index < |questions| || index == 0) &&
      index <= |answers| <= |questions| &&
      (forall j | 0 <= j < |answers| :: answers[j].Some?)
    }

    predicate Answered(i: int)
      reads this
    {
      0 <= i < |answers| && answers[i].Some?
    }

    function CurrentScore(): (r: Option<real>)
      reads this
      requires Valid()
      ensures r == Score(answers, AnswerKey(questions, KeyOf))
    {
      Score(answers, AnswerKey(questions, KeyOf))
    }

    /** A freshly generated quiz starts at its first question. */
    constructor(qs: seq<QuizQuestion>)
      ensures Valid()
      ensures questions == qs && index == 0 && answers == [] && !showResults
    {
      questions := qs;
      index := 0;
      answers := [];
      showResults := false;
    }

    /** Clicking option `a` of the question on screen. */
    method Select(a: int)
      requires Valid()
      modifies this
      ensures Valid()
      ensures !old(showResults) && index < |questions| && 0 <= a < |questions[index].options| ==>
                answers == SetAnswer(old(answers), index, a)
      ensures old(showResults) || !(index < |questions| && 0 <= a < |questions[index].options|) ==>
                answers == old(answers)
      ensures questions == old(questions) && index == old(index) && showResults == old(showResults)
    {
      if !showResults && index < |questions| && 0 <= a < |questions[index].options| {
        answers := SetAnswer(answers, index, a);
      }
    }

    /** Next Question / Finish Quiz, enabled once the question on screen is answered. */
    method Next()
      requires Valid()
      modifies this
      ensures Valid()
      ensures !old(showResults) && old(Answered(index)) && old(index) < |questions| - 1 ==>
                index == old(index) + 1 && !showResults
      ensures !old(showResults) && old(Answered(index)) && old(index) == |questions| - 1 ==>
                index == old(index) && showResults
      ensures old(showResults) || !old(Answered(index)) ==> index == old(index) && showResults == old(showResults)
      ensures showResults && !old(showResults) ==> forall j | 0 <= j < |questions| :: Answered(j)
      ensures questions == old(questions) && answers == old(answers)
    {
      if !showResults && Answered(index) {
        if index < |questions| - 1 {
          index := index + 1;
        } else {
          showResults := true;
        }
      }
    }

    /** Previous, enabled past the first question. */
    method Previous()
      requires Valid()
      modifies this
      ensures Valid()
      ensures !old(showResults) && old(index) > 0 ==> index == old(index) - 1
      ensures old(showResults) || old(index) == 0 ==> index == old(index)
      ensures questions == old(questions) && answers == old(answers) && showResults == old(showResults)
    {
      if !showResults && index > 0 {
        index := index - 1;
      }
    }

    method Retake()
      requires Valid()
      modifies this
      ensures Valid()
      ensures questions == old(questions) && index == 0 && answers == [] && !showResults
    {
      index := 0;
      answers := [];
      showResults := false;
    }
  }
}
