/**
  The per-chat quiz state (the chat's `chat_data`): the chosen category, the five drawn
  questions, the position of the question being asked, the running score and the
  question currently shown. Nothing here talks to the chat; the handlers in `Bot` do.
 */
module QuizSession {
  import opened Common
  import opened Questions

  datatype Session = Session(
    category: string,
    questions: seq<Question>,
    index: nat,
    score: nat,
    current: Option<Question>)

  /** Why selecting a category raises: no such category, or fewer questions than a sample. */
  datatype SelectError = UnknownCategory | TooFewQuestions

  /**
    What the handlers keep true of a chat's session: the score never passes the number of
    questions answered, a question is on show, and while questions remain it is the one
    at `index`.
   */
  predicate Valid(s: Session)
  {
    && s.score <= s.index
    && s.current.Some?
    && (s.index < |s.questions| ==> s.current.value == s.questions[s.index])
  }

  /** A session that has not run past its last question. */
  predicate Consistent(s: Session)
  {
    Valid(s) && s.index <= |s.questions|
  }

  /** The drawn positions suit the category whenever the draw itself can succeed. */
  predicate PicksFit(categories: Categories, name: string, picks: seq<nat>)
  {
    name in categories && |categories[name]| >= SampleSize ==> ValidPicks(picks, |categories[name]|)
  }

  /** `s` is the session selecting `name` starts with the draw `picks`. */
  predicate FreshFor(s: Session, categories: Categories, name: string, picks: seq<nat>)
    requires name in categories && ValidPicks(picks, |categories[name]|)
  {
    && s.category == name
    && s.index == 0
    && s.score == 0
    && |s.questions| == SampleSize
    && (forall i :: 0 <= i < SampleSize ==> s.questions[i] == categories[name][picks[i]])
    && s.current == Some(s.questions[0])
  }

  /** Show the question at `index`: it becomes the current question. */
  function AskQuestion(s: Session): (r: Session)
    requires s.index < |s.questions|
    ensures r.current == Some(s.questions[s.index])
    ensures r.(current := s.current) == s
    ensures s.score <= s.index ==> Valid(r)
  {
    s.(current := Some(s.questions[s.index]))
  }

  /**
    Select a category: draw five questions, start at the first with score zero and ask it.
    Whatever the chat held before is replaced, not saved.
   */
  function Start(categories: Categories, name: string, picks: seq<nat>): (r: Result<Session, SelectError>)
    requires PicksFit(categories, name, picks)
    ensures r == Failure(UnknownCategory) <==> name !in categories
    ensures r == Failure(TooFewQuestions) <==> name in categories && |categories[name]| < SampleSize
    ensures r.Success? ==> FreshFor(r.value, categories, name, picks) && Consistent(r.value)
  {
    if name !in categories then Failure(UnknownCategory)
    else if |categories[name]| < SampleSize then Failure(TooFewQuestions)
    else Success(AskQuestion(Session(name, Sample(categories[name], picks), 0, 0, None)))
  }

  /** The questions of a fresh session are members of the category, and distinct when the category's are. */
  lemma StartDrawsFromPool(categories: Categories, name: string, picks: seq<nat>)
    requires PicksFit(categories, name, picks)
    requires Start(categories, name, picks).Success?
    ensures var s := Start(categories, name, picks).value;
      && |s.questions| == SampleSize
      && (forall q :: q in s.questions ==> q in categories[name])
      && (Distinct(categories[name]) ==> Distinct(s.questions))
  {
    var s := Start(categories, name, picks).value;
    assert s.questions == Sample(categories[name], picks);
  }

  /** Grade the choice against the current question and move past it. */
  function Grade(s: Session, choice: string): (r: Session)
    requires s.current.Some?
    ensures choice == s.current.value.answer ==> r.score == s.score + 1
    ensures choice != s.current.value.answer ==> r.score == s.score
    ensures r.index == s.index + 1
    ensures r.category == s.category && r.questions == s.questions && r.current == s.current
    ensures s.score <= s.index ==> r.score <= r.index
  {
    var gained := if choice == s.current.value.answer then 1 else 0;
    s.(score := s.score + gained, index := s.index + 1)
  }

  /** After an answer the quiz either asks its next question or has finished. */
  datatype Step = Asked(session: Session) | Finished(session: Session)

  /**
    Answer the current question: grade it, advance, then finish when every question has
    been answered and otherwise ask the next one. A finished session keeps its fields,
    including the last question as current.
   */
  function Answer(s: Session, choice: string): (r: Step)
    requires s.current.Some? && s.index < |s.questions|
    ensures r.session.index == s.index + 1
    ensures choice == s.current.value.answer ==> r.session.score == s.score + 1
    ensures choice != s.current.value.answer ==> r.session.score == s.score
    ensures r.session.category == s.category && r.session.questions == s.questions
    ensures r.Finished? <==> s.index + 1 == |s.questions|
    ensures r.Finished? ==> r.session.current == s.current
    ensures r.Asked? ==> r.session.current == Some(s.questions[s.index + 1])
    ensures Valid(s) ==> Consistent(r.session)
  {
    var graded := Grade(s, choice);
    if graded.index == |graded.questions| then Finished(graded) else Asked(AskQuestion(graded))
  }

  /** How many of `answers` match the answers of `qs`, position by position. */
  function CorrectCount(qs: seq<Question>, answers: seq<string>): (n: nat)
    requires |qs| == |answers|
    ensures n <= |answers|
    ensures n == |answers| <==> forall i :: 0 <= i < |answers| ==> answers[i] == qs[i].answer
  {
    if answers == [] then 0
    else
      (if answers[0] == qs[0].answer then 1 else 0) + CorrectCount(qs[1..], answers[1..])
  }

  /** Answer the remaining questions with `answers`, one after another. */
  function Run(s: Session, answers: seq<string>): (r: Session)
    requires Valid(s) && s.index + |answers| <= |s.questions|
    ensures Consistent(r) && r.questions == s.questions && r.category == s.category
    ensures r.index == s.index + |answers|
    ensures r.score == s.score + CorrectCount(s.questions[s.index..s.index + |answers|], answers)
    decreases |answers|
  {
    if answers == [] then s
    else
      var next := Answer(s, answers[0]).session;
      var r := Run(next, answers[1..]);
      assert s.questions[s.index..s.index + |answers|][1..]
          == next.questions[next.index..next.index + |answers[1..]|];
      r
  }

  /**
    A whole quiz: from a fresh session, five answers finish it, and its score is the number
    of them that were right, never more than five.
   */
  lemma FullQuizScore(categories: Categories, name: string, picks: seq<nat>, answers: seq<string>)
    requires PicksFit(categories, name, picks)
    requires Start(categories, name, picks).Success?
    requires |answers| == SampleSize
    ensures var s := Start(categories, name, picks).value;
      var done := Run(s, answers);
      && done.index == |done.questions|
      && done.score == CorrectCount(s.questions, answers)
      && done.score <= SampleSize
  {
    var s := Start(categories, name, picks).value;
    assert s.questions[0..|answers|] == s.questions;
  }
}
