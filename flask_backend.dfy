/** The stand-alone mock service in `flask_backend.py`: `/process_video` and `/ask_question`
    answer from fixed templates after validating the request; `/search_transcript` is the same
    handler as the Python backend's (`PythonBackend.SearchTranscriptRoute`). */
module FlaskBackend {
  import opened Strings
  import opened VideoId
  import opened PythonBackend

  // ---------------------------------------------------------------- /process_video

  const MockTranscriptPrefix := "This is a mock transcript for video "
  const MockTranscriptRest := ". In the real implementation, this would contain the actual YouTube video transcript fetched using the youtube-transcript-api. The transcript would contain the spoken content of the video, which would then be processed by OpenAI to generate comprehensive summaries and educational questions.\n\nKey concepts that might be covered in this video include:\n- Main topic introduction and overview\n- Detailed explanations of core concepts\n- Practical examples and demonstrations\n- Real-world applications and use cases\n- Best practices and recommendations\n- Common pitfalls and how to avoid them\n- Advanced techniques and considerations\n- Summary and key takeaways\n\nThe AI processing would analyze this transcript to identify the most important educational content and generate appropriate questions that test different levels of understanding."

  /** The canned transcript, naming the extracted video ID. */
  function MockTranscript(videoId: string): (t: string)
    ensures OccursAt(t, videoId, |MockTranscriptPrefix|)
  {
    MockTranscriptPrefix + videoId + MockTranscriptRest
  }

  datatype MockQuestion = MockQuestion(
    question: string, options: seq<string>, correctAnswer: nat, difficulty: string, kind: string)

  const MockQuestions: seq<MockQuestion> := [
      MockQuestion("What is the main objective discussed in this video?",
        ["A. To provide entertainment",
         "B. To teach fundamental concepts and practical applications",
         "C. To sell a product or service",
         "D. To demonstrate a single technique"],
        1, "Beginner", "conceptual"),
      MockQuestion("Which approach is recommended for implementing the concepts discussed?",
        ["A. Start with advanced techniques immediately",
         "B. Focus only on theory without practice",
         "C. Build understanding progressively from fundamentals",
         "D. Skip prerequisite knowledge"],
        2, "Intermediate", "application"),
      MockQuestion("How does the video structure its content for maximum learning effectiveness?",
        ["A. Random presentation of topics",
         "B. Theory only with no examples",
         "C. Progressive building with examples and demonstrations",
         "D. Advanced concepts first"],
        2, "Intermediate", "analysis"),
      MockQuestion("What combination of elements makes this educational content most effective?",
        ["A. Theory and examples only",
         "B. Practice exercises only",
         "C. Theory, examples, best practices, and real-world applications",
         "D. Entertainment and basic facts"],
        2, "Advanced", "synthesis")
    ]

  /** A question a client can grade: four options and an answer index among them. */
  predicate Gradable(q: MockQuestion)
  {
    |q.options| == 4 && q.correctAnswer < |q.options|
  }

  lemma MockQuestionsGradable()
    ensures |MockQuestions| == 4
    ensures forall i | 0 <= i < |MockQuestions| :: Gradable(MockQuestions[i])
  {
  }

  /** `video_title or 'the subject matter'`, named in the canned detailed explanation. */
  function ExplanationSubject(body: map<string, string>): (r: string)
    ensures "video_title" in body && body["video_title"] != [] ==> r == body["video_title"]
    ensures ("video_title" !in body || body["video_title"] == []) ==> r == "the subject matter"
  {
    if "video_title" in body && body["video_title"] != [] then body["video_title"] else "the subject matter"
  }

  datatype MockReply =
    | MockFailure(status: int, error: string)
    | MockProcessed(videoId: string, transcript: string, explainedSubject: string,
                    questions: seq<MockQuestion>, transcriptLength: nat)

  function ProcessVideo(body: Body): (r: MockReply)
    ensures !HasAll(body, ["video_url"]) ==> r == MockFailure(400, UrlRequired)
    ensures HasAll(body, ["video_url"]) && ExtractVideoId(Python, body.value["video_url"]).Invalid? ==>
              r == MockFailure(400, "Invalid video URL: " + InvalidMessage)
    ensures r.MockProcessed? <==> HasAll(body, ["video_url"]) && ExtractVideoId(Python, body.value["video_url"]).Extracted?
    ensures r.MockProcessed? ==>
              ExtractVideoId(Python, body.value["video_url"]) == Extracted(r.videoId) &&
              OccursAt(r.transcript, r.videoId, |MockTranscriptPrefix|) &&
              r.transcriptLength == |r.transcript| &&
              r.questions == MockQuestions
    ensures r.MockFailure? ==> r.status == 400
  {
    if !HasAll(body, ["video_url"]) then MockFailure(400, UrlRequired)
    else
      match ExtractVideoId(Python, body.value["video_url"])
      case Invalid(message) => MockFailure(400, "Invalid video URL: " + message)
      case Extracted(videoId) =>
        var transcript := MockTranscript(videoId);
        MockProcessed(videoId, transcript, ExplanationSubject(body.value), MockQuestions, |transcript|)
  }

  /** The transcript's ID is recoverable: it sits between the fixed prefix and the fixed tail. */
  lemma MockTranscriptNamesVideo(videoId: string)
    ensures var t := MockTranscript(videoId);
      |t| == |MockTranscriptPrefix| + |videoId| + |MockTranscriptRest| &&
      t[|MockTranscriptPrefix|..|t| - |MockTranscriptRest|] == videoId
  {
    var t := MockTranscript(videoId);
    assert t[|MockTranscriptPrefix|..|t| - |MockTranscriptRest|] == videoId;
  }

  // ---------------------------------------------------------------- /ask_question

  const AnswerPrefix := "Based on the video content, here's my response to your question: \""
  const AnswerRest := "\"\n\nThis is a comprehensive answer that would be generated by analyzing the actual video transcript. In the real implementation, this would use OpenAI's GPT-4 to provide detailed, contextual answers based on the video content.\n\nThe answer would:\n- Directly address your specific question\n- Reference relevant parts of the video transcript\n- Provide additional context and explanations\n- Suggest related concepts you might want to explore\n- Offer practical applications or examples\n\nFor a production system, this would be powered by OpenAI's latest models to ensure accurate, helpful responses based on the actual video content."

  const QuestionFieldsRequired := "question and transcript are required"

  datatype AskReply = AskFailure(status: int, error: string) | Answered(question: string, answer: string)

  function AskQuestion(body: Body): (r: AskReply)
    ensures !HasAll(body, ["question", "transcript"]) <==> r == AskFailure(400, QuestionFieldsRequired)
    ensures HasAll(body, ["question", "transcript"]) ==> r.Answered?
    ensures r.Answered? ==>
              r.question == body.value["question"] &&
              OccursAt(r.answer, r.question, |AnswerPrefix|) &&
              r.answer[..|AnswerPrefix|] == AnswerPrefix
  {
    if !HasAll(body, ["question", "transcript"]) then AskFailure(400, QuestionFieldsRequired)
    else
      var question := body.value["question"];
      var answer := AnswerPrefix + question + AnswerRest;
      assert answer[|AnswerPrefix|..|AnswerPrefix| + |question|] == question;
      Answered(question, answer)
  }

  /** The quoted question can be read back out of the answer. */
  function QuotedQuestion(answer: string): string
    requires |answer| >= |AnswerPrefix| + |AnswerRest|
  {
    answer[|AnswerPrefix|..|answer| - |AnswerRest|]
  }

  lemma AnswerQuotesQuestion(body: Body)
    requires AskQuestion(body).Answered?
    ensures var r := AskQuestion(body);
      |r.answer| == |AnswerPrefix| + |r.question| + |AnswerRest| &&
      QuotedQuestion(r.answer) == r.question
  {
    var r := AskQuestion(body);
    assert r.answer == AnswerPrefix + r.question + AnswerRest;
    assert r.answer[|AnswerPrefix|..|r.answer| - |AnswerRest|] == r.question;
  }
}
