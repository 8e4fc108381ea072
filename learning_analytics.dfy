/** The learning analytics panel (`client/src/components/ai-learning-analytics.tsx`): the
    minutes-to-hours display, the difficulty badge and the learning-path buttons. */
module LearningAnalytics {
  import opened Strings
  import TranscriptAiProcessor

  // ---------------------------------------------------------------- formatTime

  /** A JavaScript number printed in a template literal, for integral values. */
  function IntToString(n: int): (r: string)
    ensures n >= 0 ==> r == NatToString(n)
    ensures n < 0 ==> r == "-" + NatToString(-n)
  {
    if n >= 0 then NatToString(n) else "-" + NatToString(-n)
  }

  /** JavaScript's `minutes % 60`: the remainder takes the sign of the dividend. */
  function JsRem60(a: int): (r: int)
    ensures a >= 0 ==> 0 <= r < 60 && (a / 60) * 60 + r == a
    ensures a < 0 ==> -60 < r <= 0 && r - ((-a) / 60) * 60 == a
  {
    if a >= 0 then a % 60 else -((-a) % 60)
  }

  /** `formatTime`: `Math.floor(minutes / 60)` hours and `minutes % 60` minutes, neither padded. */
  function FormatTime(minutes: int): (r: string)
    ensures var parts := Split(r, ' ');
      parts == [IntToString(minutes / 60) + "h", IntToString(JsRem60(minutes)) + "m"]
  {
    var h := IntToString(minutes / 60) + "h";
    var m := IntToString(JsRem60(minutes)) + "m";
    FigureHasNoSpace(minutes / 60, 'h');
    FigureHasNoSpace(JsRem60(minutes), 'm');
    SplitAppendSep(h, ' ', m);
    SplitNoSep(m, ' ');
    assert h + [' '] + m == IntToString(minutes / 60) + "h " + IntToString(JsRem60(minutes)) + "m";
    h + [' '] + m
  }

  lemma FigureHasNoSpace(n: int, unit: char)
    requires unit != ' '
    ensures ' ' !in IntToString(n) + [unit]
  {
    NumberHasNo(if n >= 0 then n else -n, ' ');
  }

  /** Reads a figure such as `"30h"` back: digits followed by one unit letter. */
  function ReadFigure(s: string, unit: char): (r: Option<nat>)
    ensures r.Some? ==> |s| >= 2 && s[|s| - 1] == unit
  {
    if |s| >= 2 && s[|s| - 1] == unit && forall k | 0 <= k < |s| - 1 :: IsDigit(s[k])
    then Some(ParseDecimal(s[..|s| - 1]))
    else None
  }

  /** For a non-negative count the text is two space-separated figures, whole hours and the
      minutes left over, and reading them back gives the count again. */
  lemma FormatTimeReadBack(minutes: nat)
    ensures var parts := Split(FormatTime(minutes), ' ');
      |parts| == 2 && ReadFigure(parts[0], 'h').Some? && ReadFigure(parts[1], 'm').Some? &&
      ReadFigure(parts[0], 'h').value * 60 + ReadFigure(parts[1], 'm').value == minutes &&
      ReadFigure(parts[1], 'm').value < 60
  {
    var h := NatToString(minutes / 60);
    var m := NatToString(minutes % 60);
    assert FormatTime(minutes) == (h + "h") + [' '] + (m + "m");
    assert ' ' !in h + "h" by {
      forall k | 0 <= k < |h + "h"| ensures (h + "h")[k] != ' ' {
        if k < |h| { assert IsDigit(h[k]); }
      }
    }
    assert ' ' !in m + "m" by {
      forall k | 0 <= k < |m + "m"| ensures (m + "m")[k] != ' ' {
        if k < |m| { assert IsDigit(m[k]); }
      }
    }
    SplitAppendSep(h + "h", ' ', m + "m");
    SplitNoSep(m + "m", ' ');
    assert (h + "h")[..|h + "h"| - 1] == h;
    assert (m + "m")[..|m + "m"| - 1] == m;
    ParseNatToString(minutes / 60);
    ParseNatToString(minutes % 60);
  }

  /** Minutes are not zero-padded. */
  lemma SixtyOneMinutes()
    ensures FormatTime(61) == "1h 1m"
  {
  }

  /** Negative counts print both figures with a sign: `Math.floor` rounds the hours down while `%`
      keeps the sign of the count. */
  lemma MinusOneMinute()
    ensures FormatTime(-1) == "-1h -1m"
  {
  }

  /** The panel's total study time (1847 minutes). */
  const TotalWatchTime := 1847

  lemma TotalStudyTimeShown()
    ensures FormatTime(TotalWatchTime) == "30h 47m"
  {
    assert NatToString(30) == "30" && NatToString(47) == "47";
  }

  // ---------------------------------------------------------------- the difficulty badge

  const GrayBadge := "bg-gray-100 text-gray-800"

  /** `getDifficultyColor`: an exact, case-sensitive match on the three levels. */
  function DifficultyColor(difficulty: string): (r: string)
    ensures difficulty !in {"beginner", "intermediate", "advanced"} <==> r == GrayBadge
    ensures difficulty == "beginner" <==> r == "bg-green-100 text-green-800"
    ensures difficulty == "intermediate" <==> r == "bg-yellow-100 text-yellow-800"
    ensures difficulty == "advanced" <==> r == "bg-red-100 text-red-800"
  {
    match difficulty
    case "beginner" => "bg-green-100 text-green-800"
    case "intermediate" => "bg-yellow-100 text-yellow-800"
    case "advanced" => "bg-red-100 text-red-800"
    case _ => GrayBadge
  }

  /** The transcript processor's badge uses the same classes for the lower-case names, but it
      lower-cases first, so the two disagree on a capitalised name. */
  lemma DifficultyBadgesCompared(difficulty: string)
    requires difficulty in {"beginner", "intermediate", "advanced"}
    ensures DifficultyColor(difficulty) == TranscriptAiProcessor.DifficultyColor(difficulty)
    ensures DifficultyColor("Beginner") == GrayBadge != TranscriptAiProcessor.DifficultyColor("Beginner")
  {
    assert ToLower("beginner") == "beginner";
    assert ToLower("intermediate") == "intermediate";
    assert ToLower("advanced") == "advanced";
    assert ToLower("Beginner") == "beginner";
  }

  // ---------------------------------------------------------------- learning paths

  datatype LearningPath = LearningPath(
    id: string, title: string, difficulty: string, prerequisitesMet: bool, progress: int)

  /** The button under a path. */
  datatype PathButton = PathButton(disabled: bool, text: string, showsProgress: bool)

  function Button(path: LearningPath): (b: PathButton)
    ensures b.disabled <==> !path.prerequisitesMet
    ensures b.text == "Continue" <==> path.progress > 0
    ensures b.text == "Start" <==> path.progress <= 0
    ensures b.showsProgress <==> b.text == "Continue"
  {
    PathButton(!path.prerequisitesMet, if path.progress > 0 then "Continue" else "Start", path.progress > 0)
  }

  /** The three suggested paths of the panel. */
  const PersonalizedPaths: seq<LearningPath> := [
    LearningPath("1", "Advanced Programming Concepts", "intermediate", true, 35),
    LearningPath("2", "Mathematical Foundations for Computer Science", "intermediate", true, 15),
    LearningPath("3", "Machine Learning Fundamentals", "advanced", false, 0)
  ]

  /** The first two paths can be continued; the last is a disabled Start button. */
  lemma SuggestedPathButtons()
    ensures Button(PersonalizedPaths[0]) == PathButton(false, "Continue", true)
    ensures Button(PersonalizedPaths[1]) == PathButton(false, "Continue", true)
    ensures Button(PersonalizedPaths[2]) == PathButton(true, "Start", false)
  {
  }
}
