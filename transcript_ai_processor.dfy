/** The transcript processor page (`client/src/components/transcript-ai-processor.tsx`): the
    request guard before `/process-video`, the quiz over the returned questions, its score, and the
    badge colours. The URL parser is `VideoId.ExtractVideoId` in its JavaScript form. */
module TranscriptAiProcessor {
  import opened Strings
  import opened Lists
  import opened VideoId
  import opened QuizAnswers

  datatype Question = Question(
    question: string, options: seq<string>, correctAnswer: int, explanation: string,
    difficulty: string, kind: string)

  // ---------------------------------------------------------------- the request guard

  /** What pressing Process does with the URL field. */
  datatype Submission =
    | Refused(error: string)                     // an error is shown, nothing is sent
    | Sent(videoUrl: string, videoTitle: string)  // the body of the POST

  const EnterUrl := "Please enter a YouTube URL"

  /** A blank field stops early; otherwise the body is built, and building it parses the URL,
      whose error is caught and shown before any request leaves. */
  function Submit(url: string): (r: Submission)
    ensures Trim(url) == "" ==> r == Refused(EnterUrl)
    ensures r.Sent? ==>
              (Trim(url) != "" && r.videoUrl == url && |r.videoTitle| >= 6 && r.videoTitle[..6] == "Video " &&
               ExtractVideoId(JavaScript, url) == Extracted(r.videoTitle[6..]))
    ensures Trim(url) != "" && ExtractVideoId(JavaScript, url).Invalid? ==> r == Refused(InvalidMessage)
    ensures Trim(url) != "" && ExtractVideoId(JavaScript, url).Extracted? ==> r.Sent? && r.videoUrl == url
  {
    if Trim(url) == "" then Refused(EnterUrl)
    else
      match ExtractVideoId(JavaScript, url)
      case Invalid(message) => Refused(message)
      case Extracted(id) =>
        var title := "Video " + id;
        assert title[6..] == id;
        Sent(url, title)
  }

  // ---------------------------------------------------------------- answers

  function KeyOf(q: Question): int { q.correctAnswer }

  /** `Math.round(100 * correct / n)`, computed exactly; no questions divides by zero (`NaN`). */
  function RoundedPercent(correct: nat, n: nat): (r: Option<int>)
    ensures r.None? <==> n == 0
    ensures r.Some? ==> 2 * n * r.value <= 200 * correct + n < 2 * n * (r.value + 1)
  {
    if n == 0 then None else Some((200 * correct + n) / (2 * n))
  }

  /** A score lies between 0 and 100, with 0 for none right and 100 for all right. */
  lemma PercentBounds(correct: nat, n: nat)
    requires 0 < n && correct <= n
    ensures var p := RoundedPercent(correct, n).value;
      0 <= p <= 100 && (correct == 0 ==> p == 0) && (correct == n ==> p == 100)
  {
    var p := RoundedPercent(correct, n).value;
    if p > 100 {
      MultiplyMonotone(2 * n, 101, p);
    }
    if correct == 0 && p >= 1 {
      MultiplyMonotone(2 * n, 1, p);
    }
    if correct == n && p <= 99 {
      MultiplyMonotone(2 * n, p + 1, 100);
    }
  }

  lemma MultiplyMonotone(a: nat, b: int, c: int)
    requires b <= c
    ensures a * b <= a * c
  {
  }

  /** `calculateScore`: the forEach counts agreeing answers, then the percentage is rounded. */
  method CalculateScore(answers: seq<Option<int>>, questions: seq<Question>) returns (score: Option<int>)
    ensures score == RoundedPercent(CorrectUpTo(answers, AnswerKey(questions, KeyOf), |answers|), |questions|)
    ensures |questions| > 0 ==> score.Some? && 0 <= score.value <= 100
  {
    var keys := AnswerKey(questions, KeyOf);
    var correct := 0;
    for i := 0 to |answers|
      invariant correct == CorrectUpTo(answers, keys, i)
    {
      if i < |questions| && answers[i] == Some(questions[i].correctAnswer) {
        correct := correct + 1;
      }
    }
    score := RoundedPercent(correct, |questions|);
    if |questions| > 0 {
      CorrectPastEnd(answers, keys, |answers|);
      PercentBounds(correct, |questions|);
    }
  }

  /** The "You got X" count: `answers.filter((a, i) => a === questions[i]?.correct_answer).length`. */
  function ShownCorrect(answers: seq<Option<int>>, questions: seq<Question>): (r: nat)
    ensures r <= |answers|
  {
    |AgreeingPositions(answers, AnswerKey(questions, KeyOf), |answers|)|
  }

  /** The count shown in the results equals the one the percentage is computed from. */
  lemma ShownCountMatchesScore(answers: seq<Option<int>>, questions: seq<Question>)
    ensures ShownCorrect(answers, questions) == CorrectUpTo(answers, AnswerKey(questions, KeyOf), |answers|)
  {
    AgreeingPositionsCount(answers, AnswerKey(questions, KeyOf), |answers|);
  }

  // ---------------------------------------------------------------- minutes shown

  /** The success toast: `Math.floor(transcript_length / 100)` minutes. */
  function ToastMinutes(length: nat): (m: nat)
    ensures m * 100 <= length < (m + 1) * 100
  {
    length / 100
  }

  /** The details card: `Math.ceil(transcript_length / 1000)` minutes. */
  function DetailsMinutes(length: nat): (m: nat)
    ensures length <= m * 1000 && (m == 0 || (m - 1) * 1000 < length)
  {
    (length + 999) / 1000
  }

  /** The two figures disagree: a 50-character transcript is 0 minutes in the toast and 1 on the card. */
  lemma MinuteFiguresDisagree(length: nat)
    requires 0 < length < 100
    ensures ToastMinutes(length) == 0 && DetailsMinutes(length) == 1
  {
  }

  // ---------------------------------------------------------------- badges

  const GrayBadge := "bg-gray-100 text-gray-800"

  function DifficultyColor(difficulty: string): (r: string)
    ensures ToLower(difficulty) !in {"beginner", "intermediate", "advanced"} <==> r == GrayBadge
    ensures ToLower(difficulty) == "beginner" ==> r == "bg-green-100 text-green-800"
  {
    match ToLower(difficulty)
    case "beginner" => "bg-green-100 text-green-800"
    case "intermediate" => "bg-yellow-100 text-yellow-800"
    case "advanced" => "bg-red-100 text-red-800"
    case _ => GrayBadge
  }

  function TypeColor(kind: string): (r: string)
    ensures ToLower(kind) !in {"conceptual", "application", "analysis", "synthesis"} <==> r == GrayBadge
  {
    match ToLower(kind)
    case "conceptual" => "bg-blue-100 text-blue-800"
    case "application" => "bg-purple-100 text-purple-800"
    case "analysis" => "bg-orange-100 text-orange-800"
    case "synthesis" => "bg-pink-100 text-pink-800"
    case _ => GrayBadge
  }

  /** Both switches lower-case first, so they ignore the letter case of the label. */
  lemma ColorsIgnoreCase(name: string)
    ensures DifficultyColor(name) == DifficultyColor(ToLower(name))
    ensures TypeColor(name) == TypeColor(ToLower(name))
  {
    ToLowerIdempotent(name);
  }

  // ---------------------------------------------------------------- the quiz

  class Quiz {
    var questions: seq<Question>
    var index: int
    var answers: seq<Option<int>>
    var showResults: bool

    /** The index stays on a question (or 0 when there are none), every answered position up to
        the index is filled, and no holes are ever created. */
    predicate Valid()
      reads this
    {
      0 <= index && (index < |questions| || index == 0) &&
      |answers| <= |questions| && index <= |answers| &&
      (forall j | 0 <= j < |answers| :: answers[j].Some?)
    }

    predicate Answered(i: int)
      reads this
    {
      0 <= i < |answers| && answers[i].Some?
    }

    /** A successful `/process-video` shows the new quiz from its start. */
    constructor(qs: seq<Question>)
      ensures Valid()
      ensures questions == qs && index == 0 && answers == [] && !showResults
    {
      questions := qs;
      index := 0;
      answers := [];
      showResults := false;
    }

    /** Clicking option `a` of the current question. */
    method Select(a: int)
      requires Valid()
      modifies this
      ensures Valid()
      ensures !old(showResults) && 0 <= index < |questions| && 0 <= a < |questions[index].options| ==>
                answers == SetAnswer(old(answers), index, a)
      ensures old(showResults) || !(index < |questions| && 0 <= a < |questions[index].options|) ==>
                answers == old(answers)
      ensures questions == old(questions) && index == old(index) && showResults == old(showResults)
    {
      if !showResults && index < |questions| && 0 <= a < |questions[index].options| {
        answers := SetAnswer(answers, index, a);
      }
    }

    /** Previous: disabled on the first question, otherwise `Math.max(0, index - 1)`. */
    method Previous()
      requires Valid()
      modifies this
      ensures Valid()
      ensures !old(showResults) ==> index == Max(0, old(index) - 1)
      ensures old(showResults) ==> index == old(index)
      ensures questions == old(questions) && answers == old(answers) && showResults == old(showResults)
    {
      if !showResults && index != 0 {
        index := Max(0, index - 1);
      }
    }

    /** Next: shown except on the last question, enabled once the current one is answered. */
    method Next()
      requires Valid()
      modifies this
      ensures Valid()
      ensures !old(showResults) && old(index) != |questions| - 1 && old(Answered(index)) ==>
                index == old(index) + 1
      ensures old(showResults) || old(index) == |questions| - 1 || !old(Answered(index)) ==>
                index == old(index)
      ensures questions == old(questions) && answers == old(answers) && showResults == old(showResults)
    {
      if !showResults && index != |questions| - 1 && Answered(index) {
        index := index + 1;
      }
    }

    /** View Results: shown on the last question, enabled once every question has an answer. */
    method ViewResults()
      requires Valid()
      modifies this
      ensures Valid()
      ensures showResults == (old(showResults) || (index == |questions| - 1 && |answers| == |questions|))
      ensures showResults && !old(showResults) ==> forall j | 0 <= j < |questions| :: Answered(j)
      ensures questions == old(questions) && answers == old(answers) && index == old(index)
    {
      if !showResults && index == |questions| - 1 && |answers| == |questions| {
        showResults := true;
      }
    }

    /** The percentage on the results card. */
    method Score() returns (score: Option<int>)
      requires Valid()
      ensures score == RoundedPercent(CorrectUpTo(answers, AnswerKey(questions, KeyOf), |answers|), |questions|)
      ensures showResults ==> score.Some? || |questions| == 0
    {
      score := CalculateScore(answers, questions);
    }

    /** Retake: back to the first question with no answers. */
    method Retake()
      requires Valid()
      modifies this
      ensures Valid()
      ensures questions == old(questions) && index == 0 && answers == [] && !showResults
    {
      showResults := false;
      index := 0;
      answers := [];
    }
  }
}
