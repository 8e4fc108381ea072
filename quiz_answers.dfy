/** The answer sheet shared by the two quiz components: a JavaScript array of chosen option
    indices, written by index and possibly sparse, and the count of answers matching the keys. */
module QuizAnswers {
  import opened Strings
  import opened Lists

  /** `answers[i] = a` on a copy of the array: past the end the array grows, leaving holes (`None`). */
  function SetAnswer(answers: seq<Option<int>>, i: nat, a: int): (r: seq<Option<int>>)
    ensures |r| == Max(|answers|, i + 1)
    ensures r[i] == Some(a)
    ensures forall j | 0 <= j < |r| && j != i :: r[j] == (if j < |answers| then answers[j] else None)
  {
    if i < |answers| then answers[i := Some(a)]
    else answers + seq(i - |answers|, _ => None) + [Some(a)]
  }

  /** The answer key of a question list: each question's correct option, in order. */
  function AnswerKey<Q>(questions: seq<Q>, correct: Q -> int): (keys: seq<int>)
    ensures |keys| == |questions| && forall i | 0 <= i < |questions| :: keys[i] == correct(questions[i])
  {
    if questions == [] then [] else [correct(questions[0])] + AnswerKey(questions[1..], correct)
  }

  /** Whether answer `i` equals key `i`; a hole, or a position past either array, never does. */
  predicate Agrees(answers: seq<Option<int>>, keys: seq<int>, i: nat)
  {
    i < |answers| && i < |keys| && answers[i] == Some(keys[i])
  }

  /** The number of agreeing positions among the first `n`. */
  function CorrectUpTo(answers: seq<Option<int>>, keys: seq<int>, n: nat): (c: nat)
    ensures c <= n
  {
    if n == 0 then 0
    else CorrectUpTo(answers, keys, n - 1) + (if Agrees(answers, keys, n - 1) then 1 else 0)
  }

  /** Positions past either array add nothing, so the count never exceeds either length. */
  lemma {:induction false} CorrectPastEnd(answers: seq<Option<int>>, keys: seq<int>, n: nat)
    ensures n >= |keys| ==> CorrectUpTo(answers, keys, n) == CorrectUpTo(answers, keys, |keys|)
    ensures n >= |answers| ==> CorrectUpTo(answers, keys, n) == CorrectUpTo(answers, keys, |answers|)
    ensures CorrectUpTo(answers, keys, n) <= |keys| && CorrectUpTo(answers, keys, n) <= |answers|
  {
    if n > 0 {
      CorrectPastEnd(answers, keys, n - 1);
    }
  }

  /** Every position agrees exactly when the count reaches `n`. */
  lemma {:induction false} AllCorrect(answers: seq<Option<int>>, keys: seq<int>, n: nat)
    ensures CorrectUpTo(answers, keys, n) == n <==> forall i | 0 <= i < n :: Agrees(answers, keys, i)
  {
    if n > 0 {
      AllCorrect(answers, keys, n - 1);
    }
  }

  function Positions(n: nat): (r: seq<nat>)
    ensures |r| == n && forall i | 0 <= i < n :: r[i] == i
  {
    if n == 0 then [] else Positions(n - 1) + [n - 1]
  }

  /** The agreeing positions below `n`, as an index-aware `filter` lists them. */
  function AgreeingPositions(answers: seq<Option<int>>, keys: seq<int>, n: nat): seq<nat>
  {
    Filter(Positions(n), (i: nat) => Agrees(answers, keys, i))
  }

  lemma {:induction false} AgreeingPositionsCount(answers: seq<Option<int>>, keys: seq<int>, n: nat)
    ensures |AgreeingPositions(answers, keys, n)| == CorrectUpTo(answers, keys, n)
  {
    if n > 0 {
      var p := (i: nat) => Agrees(answers, keys, i);
      AgreeingPositionsCount(answers, keys, n - 1);
      var last: nat := n - 1;
      FilterAppend<nat>(Positions(n - 1), [last], p);
      assert Filter([last], p) == (if p(last) then [last] else []) + Filter([], p);
    }
  }
}
