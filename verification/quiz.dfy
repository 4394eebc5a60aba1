/**
 * The "find your mate" quiz: five questions, and the score table that turns
 * the answers into one of four animals.
 */
module Quiz {
  import opened Wrappers

  datatype Kind = Choice | Carousel

  /** A question's id, display kind and the values its choices submit (labels and emoji are left out). */
  datatype Question = Question(id: int, kind: Kind, values: seq<string>)

  const Questions: seq<Question> := [
    Question(1, Choice, ["moon", "stars"]),
    Question(2, Choice, ["dawn", "night", "struggle", "gratitude"]),
    Question(3, Carousel, ["black", "wood", "gold", "white"]),
    Question(4, Choice, ["pray_alone", "talk", "bible", "nature"]),
    Question(5, Choice, ["caring", "listening", "cheerful", "deep_talk"])
  ]

  /** The four results, in the order the score table lists them (which breaks ties). */
  datatype Animal = Lamb | Lion | Dove | Deer {
    function Name(): string {
      match this
      case Lamb => "lamb"
      case Lion => "lion"
      case Dove => "dove"
      case Deer => "deer"
    }
  }

  const TieOrder: seq<Animal> := [Lamb, Lion, Dove, Deer]

  /** Answers by question id; a missing id is an unanswered question. */
  type Answers = map<int, string>

  function AnswerTo(answers: Answers, q: int): Option<string> {
    if q in answers then Some(answers[q]) else None
  }

  /** The points one question's answer gives `a`. */
  function Points(q: int, answer: Option<string>, a: Animal): int {
    match answer
    case None => 0
    case Some(v) =>
      if q == 1 then
        (if v == "moon" && a == Dove then 2 else 0) + (if v == "stars" && a == Lion then 2 else 0)
      else if q == 2 then
        (if v == "dawn" && a == Deer then 3 else 0) + (if v == "night" && a == Dove then 3 else 0)
        + (if v == "struggle" && a == Lamb then 3 else 0) + (if v == "gratitude" && a == Lion then 3 else 0)
      else if q == 4 then
        (if v == "pray_alone" && a == Dove then 2 else 0) + (if v == "talk" && a == Lamb then 2 else 0)
        + (if v == "bible" && a == Deer then 2 else 0) + (if v == "nature" && a == Deer then 2 else 0)
      else if q == 5 then
        (if v == "caring" && a == Lamb then 3 else 0) + (if v == "listening" && a == Dove then 3 else 0)
        + (if v == "cheerful" && a == Lion then 3 else 0) + (if v == "deep_talk" && a == Deer then 3 else 0)
      else 0
  }

  /** `scores[a]` after the four scored questions; question 3 is never consulted. */
  function Score(answers: Answers, a: Animal): (r: int)
    ensures 0 <= r <= 10
  {
    Points(1, AnswerTo(answers, 1), a) + Points(2, AnswerTo(answers, 2), a)
    + Points(4, AnswerTo(answers, 4), a) + Points(5, AnswerTo(answers, 5), a)
  }

  function MaxScore(answers: Answers): (r: int)
    ensures forall a: Animal :: Score(answers, a) <= r
    ensures exists a: Animal :: Score(answers, a) == r
  {
    var s1, s2, s3, s4 := Score(answers, Lamb), Score(answers, Lion), Score(answers, Dove), Score(answers, Deer);
    var m12 := if s1 >= s2 then s1 else s2;
    var m34 := if s3 >= s4 then s3 else s4;
    if m12 >= m34 then m12 else m34
  }

  /** `getCharacterFromAnswers`: the first animal in table order with the highest score. */
  function Result(answers: Answers): (r: Animal)
    ensures Score(answers, r) == MaxScore(answers)
  {
    var m := MaxScore(answers);
    if Score(answers, Lamb) == m then Lamb
    else if Score(answers, Lion) == m then Lion
    else if Score(answers, Dove) == m then Dove
    else Deer
  }

  /** The string the quiz returns; the `|| 'lamb'` fallback cannot fire, as some animal always has the top score. */
  function CharacterFromAnswers(answers: Answers): (r: string)
    ensures r in ["lamb", "lion", "dove", "deer"]
  {
    Result(answers).Name()
  }

  function Position(a: Animal): int {
    match a
    case Lamb => 0
    case Lion => 1
    case Dove => 2
    case Deer => 3
  }

  // ---------------------------------------------------------------- lemmas

  /** No animal outscores the result, and every animal listed before it scores strictly less. */
  lemma ResultIsFirstMaximum(answers: Answers, a: Animal)
    ensures Score(answers, a) <= Score(answers, Result(answers))
    ensures Position(a) < Position(Result(answers)) ==> Score(answers, a) < Score(answers, Result(answers))
  {
  }

  /** With nothing answered every score is 0, and the tie goes to the lamb. */
  lemma NoAnswersGiveLamb()
    ensures CharacterFromAnswers(map[]) == "lamb"
  {
  }

  /** The box chosen in question 3 never affects the result. */
  lemma BoxQuestionIgnored(answers: Answers, box: string)
    ensures Result(answers[3 := box]) == Result(answers)
  {
    assert forall a: Animal :: Score(answers[3 := box], a) == Score(answers, a) by {
      forall a: Animal ensures Score(answers[3 := box], a) == Score(answers, a) {
        assert AnswerTo(answers[3 := box], 1) == AnswerTo(answers, 1);
        assert AnswerTo(answers[3 := box], 2) == AnswerTo(answers, 2);
        assert AnswerTo(answers[3 := box], 4) == AnswerTo(answers, 4);
        assert AnswerTo(answers[3 := box], 5) == AnswerTo(answers, 5);
      }
    }
  }

  /** The points an answer gives, summed over the four animals. */
  function PointsAwarded(q: int, v: string): int {
    Points(q, Some(v), Lamb) + Points(q, Some(v), Lion) + Points(q, Some(v), Dove) + Points(q, Some(v), Deer)
  }

  /**
   * Every choice of a scored question gives its points (2 for questions 1 and
   * 4, 3 for questions 2 and 5) to exactly one animal; question 3's choices
   * give nothing.
   */
  lemma EveryChoiceScoresOnce(k: int, c: int)
    requires 0 <= k < |Questions| && 0 <= c < |Questions[k].values|
    ensures var q := Questions[k].id;
            var v := Questions[k].values[c];
            && PointsAwarded(q, v) == (if q == 3 then 0 else if q == 1 || q == 4 then 2 else 3)
            && (q != 3 ==> exists a: Animal :: Points(q, Some(v), a) == PointsAwarded(q, v))
  {
    var q := Questions[k].id;
    var v := Questions[k].values[c];
    if q == 1 {
      assert v == "moon" || v == "stars";
      assert Points(q, Some(v), if v == "moon" then Dove else Lion) == 2;
    } else if q == 2 {
      assert Points(q, Some(v), if v == "dawn" then Deer else if v == "night" then Dove else if v == "struggle" then Lamb else Lion) == 3;
    } else if q == 4 {
      assert Points(q, Some(v), if v == "pray_alone" then Dove else if v == "talk" then Lamb else Deer) == 2;
    } else if q == 5 {
      assert Points(q, Some(v), if v == "caring" then Lamb else if v == "listening" then Dove else if v == "cheerful" then Lion else Deer) == 3;
    }
  }

  /** Answering moon, dawn, bible and deep_talk makes the deer win with 8 points. */
  lemma DeerExample()
    ensures CharacterFromAnswers(map[1 := "moon", 2 := "dawn", 3 := "gold", 4 := "bible", 5 := "deep_talk"]) == "deer"
  {
    var answers := map[1 := "moon", 2 := "dawn", 3 := "gold", 4 := "bible", 5 := "deep_talk"];
    assert AnswerTo(answers, 1) == Some("moon");
    assert AnswerTo(answers, 2) == Some("dawn");
    assert AnswerTo(answers, 4) == Some("bible");
    assert AnswerTo(answers, 5) == Some("deep_talk");
    assert Score(answers, Deer) == 8;
    assert Score(answers, Dove) == 2;
  }
}
