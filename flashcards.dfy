/** The flashcards page (`client/src/pages/flashcards.tsx`): the subject filter and the study
    session that steps through the filtered cards. */
module Flashcards {
  import opened Strings
  import opened Lists

  datatype Card = Card(id: int, front: string, back: string, subject: Option<string>, difficulty: string)

  /** `"all"` and `""` both mean no filter. */
  predicate ShowsSubject(selected: string, card: Card)
  {
    selected == "all" || selected == "" || card.subject == Some(selected)
  }

  /** `filteredCards`: the cards the subject filter lets through, in their original order. */
  function FilteredCards(cards: seq<Card>, selected: string): (r: seq<Card>)
    ensures forall k | 0 <= k < |r| :: r[k] in cards && ShowsSubject(selected, r[k])
    ensures forall k | 0 <= k < |cards| && ShowsSubject(selected, cards[k]) :: cards[k] in r
    ensures IsSubsequence(r, cards)
  {
    var p := (c: Card) => ShowsSubject(selected, c);
    FilterMembershipAll(cards, p);
    FilterIsSubsequence(cards, p);
    Filter(cards, p)
  }

  /** With no subject chosen every card is studied. */
  lemma NoFilterKeepsAll(cards: seq<Card>, selected: string)
    requires selected == "all" || selected == ""
    ensures FilteredCards(cards, selected) == cards
  {
    FilterKeepsAll(cards, (c: Card) => ShowsSubject(selected, c));
  }

  /** The request `markDifficulty` sends for the card on screen. */
  datatype DifficultyUpdate = DifficultyUpdate(id: int, difficulty: string)

  class StudyPage {
    var flashcards: seq<Card>
    var selectedSubject: string
    var studyMode: bool
    var currentCardIndex: int
    var showAnswer: bool

    function Filtered(): seq<Card>
      reads this
    {
      FilteredCards(flashcards, selectedSubject)
    }

    /** `studyCards`: the filtered cards in study mode, none otherwise. */
    function StudyCards(): (r: seq<Card>)
      reads this
      ensures !studyMode ==> r == []
      ensures studyMode ==> r == Filtered()
    {
      if studyMode then Filtered() else []
    }

    /** In study mode the index is on a card; outside it the index is 0. */
    predicate Valid()
      reads this
    {
      0 <= currentCardIndex &&
      (studyMode ==> currentCardIndex < |Filtered()|) &&
      (!studyMode ==> currentCardIndex == 0)
    }

    constructor(cards: seq<Card>)
      ensures Valid()
      ensures flashcards == cards && selectedSubject == "" && !studyMode && currentCardIndex == 0 && !showAnswer
    {
      flashcards := cards;
      selectedSubject := "";
      studyMode := false;
      currentCardIndex := 0;
      showAnswer := false;
    }

    /** Enters study mode only when some card passes the filter. */
    method StartStudySession()
      requires Valid()
      modifies this
      ensures Valid()
      ensures |Filtered()| > 0 ==> studyMode && currentCardIndex == 0 && !showAnswer
      ensures |Filtered()| == 0 ==>
                studyMode == old(studyMode) && currentCardIndex == old(currentCardIndex) && showAnswer == old(showAnswer)
      ensures flashcards == old(flashcards) && selectedSubject == old(selectedSubject)
    {
      if |Filtered()| > 0 {
        studyMode := true;
        currentCardIndex := 0;
        showAnswer := false;
      }
    }

    method EndStudySession()
      requires Valid()
      modifies this
      ensures Valid()
      ensures !studyMode && currentCardIndex == 0 && !showAnswer
      ensures flashcards == old(flashcards) && selectedSubject == old(selectedSubject)
    {
      studyMode := false;
      currentCardIndex := 0;
      showAnswer := false;
    }

    /** Show Answer. */
    method RevealAnswer()
      requires Valid()
      modifies this
      ensures Valid()
      ensures showAnswer
      ensures flashcards == old(flashcards) && selectedSubject == old(selectedSubject) &&
              studyMode == old(studyMode) && currentCardIndex == old(currentCardIndex)
    {
      showAnswer := true;
    }

    /** Moves forward, hiding the answer, unless on the last card (or out of study mode). */
    method NextCard()
      requires Valid()
      modifies this
      ensures Valid()
      ensures old(currentCardIndex) < |StudyCards()| - 1 ==> currentCardIndex == old(currentCardIndex) + 1 && !showAnswer
      ensures old(currentCardIndex) >= |StudyCards()| - 1 ==>
                currentCardIndex == old(currentCardIndex) && showAnswer == old(showAnswer)
      ensures flashcards == old(flashcards) && selectedSubject == old(selectedSubject) && studyMode == old(studyMode)
    {
      if currentCardIndex < |StudyCards()| - 1 {
        currentCardIndex := currentCardIndex + 1;
        showAnswer := false;
      }
    }

    method PreviousCard()
      requires Valid()
      modifies this
      ensures Valid()
      ensures old(currentCardIndex) > 0 ==> currentCardIndex == old(currentCardIndex) - 1 && !showAnswer
      ensures old(currentCardIndex) == 0 ==> currentCardIndex == 0 && showAnswer == old(showAnswer)
      ensures flashcards == old(flashcards) && selectedSubject == old(selectedSubject) && studyMode == old(studyMode)
    {
      if currentCardIndex > 0 {
        currentCardIndex := currentCardIndex - 1;
        showAnswer := false;
      }
    }

    /** Rates the card on screen, then behaves as Next: on the last card the index stays. Without
        a card on screen nothing is sent and nothing changes. */
    method MarkDifficulty(difficulty: string) returns (sent: Option<DifficultyUpdate>)
      requires Valid()
      modifies this
      ensures Valid()
      ensures old(|StudyCards()|) == 0 ==>
                sent.None? && currentCardIndex == old(currentCardIndex) && showAnswer == old(showAnswer)
      ensures old(|StudyCards()|) > 0 ==>
                sent == Some(DifficultyUpdate(old(StudyCards()[currentCardIndex].id), difficulty))
      ensures old(|StudyCards()|) > 0 && old(currentCardIndex) == old(|StudyCards()|) - 1 ==>
                currentCardIndex == old(currentCardIndex)
      ensures old(|StudyCards()|) > 0 && old(currentCardIndex) < old(|StudyCards()|) - 1 ==>
                currentCardIndex == old(currentCardIndex) + 1 && !showAnswer
      ensures flashcards == old(flashcards) && selectedSubject == old(selectedSubject) && studyMode == old(studyMode)
    {
      sent := None;
      if currentCardIndex < |StudyCards()| {
        sent := Some(DifficultyUpdate(StudyCards()[currentCardIndex].id, difficulty));
        NextCard();
      }
    }
  }
}
