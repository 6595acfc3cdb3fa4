/**
  The bot's handlers over the state of all chats. A handler takes the state and the
  inbound event and gives the new state, the replies it sends and, when the handler
  raises, the error together with whatever it had already written.
 */
module Bot {
  import opened Common
  import opened Questions
  import Callback
  import QuizSession
  import opened Scores

  datatype User = User(id: int, name: string)

  /** The loaded categories, each chat's session and the high-score table. */
  datatype State = State(
    categories: Categories,
    chats: map<int, QuizSession.Session>,
    store: Store)

  /** What a handler sends back, leaving the wording to the transport. */
  datatype Reply =
    | Ask(question: Question)
    | Correct
    | Incorrect
    | QuizEnded(score: nat, total: nat)
    | Status(position: nat, total: nat, score: nat)
    | NotInQuiz
    | NoHighscores
    | Highscores(rows: seq<Row>)
    | NotPlayed
    | Totals(totals: seq<(string, int)>)

  /** Exceptions a handler can raise: a missing chat-data key, an index past the questions, a failed selection. */
  datatype Error = MissingKey | IndexOutOfRange | Select(reason: QuizSession.SelectError)

  datatype Outcome = Outcome(state: State, replies: seq<Reply>, raised: Option<Error>)

  /** `"current_question" in context.chat_data`: the guard of /score, /end and /next. */
  function InQuiz(st: State, chat: int): (r: bool)
    ensures r ==> chat in st.chats
    ensures ChatsValid(st) ==> (r <==> chat in st.chats)
  {
    chat in st.chats && st.chats[chat].current.Some?
  }

  /** Every chat's session keeps the session invariant. */
  predicate ChatsValid(st: State)
  {
    forall c :: c in st.chats ==> QuizSession.Valid(st.chats[c])
  }

  /** Every chat other than `chat` is as it was. */
  ghost predicate OtherChatsUnchanged(before: State, after: State, chat: int)
  {
    forall c :: c != chat ==>
      && (c in after.chats <==> c in before.chats)
      && (c in before.chats ==> after.chats[c] == before.chats[c])
  }

  /**
    Record the chat's score under the user who triggered the end and announce it. The
    session is left in place.
   */
  function EndQuiz(st: State, chat: int, user: User): (r: Outcome)
    requires chat in st.chats
    ensures r.raised == None && r.state.chats == st.chats && r.state.categories == st.categories
    ensures r.state.store.Keys == st.store.Keys + {Key(user.id, chat)}
    ensures r.state.store[Key(user.id, chat)] == Row(user.name, st.chats[chat].score)
    ensures forall k :: k in st.store && k != Key(user.id, chat) ==> k in r.state.store && r.state.store[k] == st.store[k]
    ensures r.replies == [QuizEnded(st.chats[chat].score, |st.chats[chat].questions|)]
  {
    var s := st.chats[chat];
    Outcome(st.(store := Save(st.store, user.id, user.name, chat, s.score)),
            [QuizEnded(s.score, |s.questions|)], None)
  }

  /**
    A category button was pressed: start a fresh session for the decoded name, replacing
    the chat's previous one without saving it. The name is written before the lookup, so
    a failed selection still renames the category of an existing session.
   */
  function OnSelectCategory(st: State, chat: int, data: string, picks: seq<nat>): (r: Outcome)
    requires QuizSession.PicksFit(st.categories, Callback.DecodeCategory(data), picks)
    ensures r.state.store == st.store && r.state.categories == st.categories
    ensures OtherChatsUnchanged(st, r.state, chat)
    ensures ChatsValid(st) ==> ChatsValid(r.state)
    ensures var name := Callback.DecodeCategory(data);
      && (r.raised == None <==> name in st.categories && |st.categories[name]| >= SampleSize)
      && (r.raised == None ==>
            && chat in r.state.chats
            && QuizSession.FreshFor(r.state.chats[chat], st.categories, name, picks)
            && r.replies == [Ask(r.state.chats[chat].questions[0])])
      && (r.raised != None ==>
            && r.raised == Some(Select(if name in st.categories then QuizSession.TooFewQuestions
                                       else QuizSession.UnknownCategory))
            && r.replies == []
            && (chat in r.state.chats <==> chat in st.chats)
            && (chat in st.chats ==> r.state.chats[chat] == st.chats[chat].(category := name)))
  {
    var name := Callback.DecodeCategory(data);
    match QuizSession.Start(st.categories, name, picks)
    case Success(s) =>
      Outcome(st.(chats := st.chats[chat := s]), [Ask(s.current.value)], None)
    case Failure(e) =>
      var chats := if chat in st.chats then st.chats[chat := st.chats[chat].(category := name)] else st.chats;
      Outcome(st.(chats := chats), [], Some(Select(e)))
  }

  /**
    Any other button was pressed: grade the pressed choice against the current question,
    advance, then finish and record the score or ask the next question. Without a current
    question the lookup raises; past the last question the score and position are
    updated before the next lookup raises.
   */
  function OnAnswer(st: State, chat: int, user: User, choice: string): (r: Outcome)
    ensures r.state.categories == st.categories
    ensures OtherChatsUnchanged(st, r.state, chat)
    ensures ChatsValid(st) ==> ChatsValid(r.state)
    ensures !InQuiz(st, chat) ==> r == Outcome(st, [], Some(MissingKey))
    ensures InQuiz(st, chat) ==>
      var s := st.chats[chat];
      var verdict := if choice == s.current.value.answer then Correct else Incorrect;
      && chat in r.state.chats
      && r.state.chats[chat].index == s.index + 1
      && r.state.chats[chat].score == s.score + (if verdict == Correct then 1 else 0)
      && r.state.chats[chat].questions == s.questions
      && r.state.chats[chat].category == s.category
      && 0 < |r.replies| && r.replies[0] == verdict
      && (s.index + 1 < |s.questions| ==>
            && r.raised == None && r.state.store == st.store && |r.replies| == 2
            && r.replies[1] == Ask(s.questions[s.index + 1])
            && r.state.chats[chat].current == Some(s.questions[s.index + 1])
            && r.state.chats[chat] == QuizSession.AskQuestion(QuizSession.Grade(s, choice)))
      && (s.index + 1 == |s.questions| ==>
            && r.raised == None && |r.replies| == 2
            && r.replies[1] == QuizEnded(s.score + (if verdict == Correct then 1 else 0), |s.questions|)
            && r.state.chats[chat] == QuizSession.Grade(s, choice)
            && r.state.store == Save(st.store, user.id, user.name, chat, r.state.chats[chat].score))
      && (s.index >= |s.questions| ==>
            && r.raised == Some(IndexOutOfRange) && r.state.store == st.store && |r.replies| == 1
            && r.state.chats[chat] == QuizSession.Grade(s, choice))
  {
    if !InQuiz(st, chat) then Outcome(st, [], Some(MissingKey))
    else
      var s := st.chats[chat];
      var verdict := if choice == s.current.value.answer then Correct else Incorrect;
      if s.index < |s.questions| then
        match QuizSession.Answer(s, choice)
        case Asked(next) =>
          Outcome(st.(chats := st.chats[chat := next]), [verdict, Ask(next.current.value)], None)
        case Finished(done) =>
          var ended := EndQuiz(st.(chats := st.chats[chat := done]), chat, user);
          Outcome(ended.state, [verdict] + ended.replies, None)
      else
        Outcome(st.(chats := st.chats[chat := QuizSession.Grade(s, choice)]), [verdict], Some(IndexOutOfRange))
  }

  /**
    A button press: the dispatcher hands data starting with the category prefix to
    category selection and everything else to the answer handler. Only the answer
    handler writes the high-score table.
   */
  function OnCallback(st: State, chat: int, user: User, data: string, picks: seq<nat>): (r: Outcome)
    requires Callback.Route(data) == Callback.SelectCategory ==>
               QuizSession.PicksFit(st.categories, Callback.DecodeCategory(data), picks)
    ensures Callback.Route(data) == Callback.SelectCategory ==> r == OnSelectCategory(st, chat, data, picks)
    ensures Callback.Route(data) == Callback.AnswerQuestion ==> r == OnAnswer(st, chat, user, data)
    ensures r.state.store != st.store ==> Callback.Route(data) == Callback.AnswerQuestion
    ensures ChatsValid(st) ==> ChatsValid(r.state)
  {
    match Callback.Route(data)
    case SelectCategory => OnSelectCategory(st, chat, data, picks)
    case AnswerQuestion => OnAnswer(st, chat, user, data)
  }

  /**
    A choice whose text starts with the category prefix cannot be answered: pressing its
    button starts category selection, which grades nothing and saves nothing.
   */
  lemma PrefixedChoiceNeverGraded(st: State, chat: int, user: User, q: Question, order: seq<string>, i: nat, picks: seq<nat>)
    requires multiset(order) == multiset(q.choices)
    requires i < |order|
    requires Callback.CategoryPrefix <= ChoiceKeyboard(q, order)[i].data
    requires QuizSession.PicksFit(st.categories, Callback.DecodeCategory(ChoiceKeyboard(q, order)[i].data), picks)
    ensures var r := OnCallback(st, chat, user, ChoiceKeyboard(q, order)[i].data, picks);
      && Correct !in r.replies && Incorrect !in r.replies
      && r.state.store == st.store
  {
  }

  /** /score: report the position (counted from one), the number of questions and the score. */
  function OnScore(st: State, chat: int): (r: Outcome)
    ensures r.state == st && r.raised == None
    ensures InQuiz(st, chat) ==>
      r.replies == [Status(st.chats[chat].index + 1, |st.chats[chat].questions|, st.chats[chat].score)]
    ensures !InQuiz(st, chat) ==> r.replies == [NotInQuiz]
  {
    if InQuiz(st, chat) then
      var s := st.chats[chat];
      Outcome(st, [Status(s.index + 1, |s.questions|, s.score)], None)
    else
      Outcome(st, [NotInQuiz], None)
  }

  /** /end: record the current score early; the session stays as it is. */
  function OnEnd(st: State, chat: int, user: User): (r: Outcome)
    ensures r.raised == None && r.state.chats == st.chats && r.state.categories == st.categories
    ensures InQuiz(st, chat) ==>
      && r.state.store == Save(st.store, user.id, user.name, chat, st.chats[chat].score)
      && r.replies == [QuizEnded(st.chats[chat].score, |st.chats[chat].questions|)]
    ensures !InQuiz(st, chat) ==> r.state == st && r.replies == [NotInQuiz]
  {
    if InQuiz(st, chat) then EndQuiz(st, chat, user) else Outcome(st, [NotInQuiz], None)
  }

  /** /next: hand the update to the answer handler when a question is on show. */
  function OnNext(st: State, chat: int, user: User, data: string): (r: Outcome)
    ensures InQuiz(st, chat) ==> r == OnAnswer(st, chat, user, data)
    ensures !InQuiz(st, chat) ==> r == Outcome(st, [NotInQuiz], None)
  {
    if InQuiz(st, chat) then OnAnswer(st, chat, user, data) else Outcome(st, [NotInQuiz], None)
  }

  /** /highscores: the chat's top ten, or a notice that the chat has none. */
  method OnHighscores(st: State, chat: int) returns (replies: seq<Reply>)
    ensures ChatKeys(st.store, chat) == {} <==> replies == [NoHighscores]
    ensures ChatKeys(st.store, chat) != {} ==>
      exists top :: IsChatTop(st.store, chat, top) && replies == [Highscores(RowsOf(st.store, top))]
  {
    var top, rows := ChatHighscores(st.store, chat);
    if rows == [] {
      replies := [NoHighscores];
    } else {
      assert rows == RowsOf(st.store, top);
      replies := [Highscores(rows)];
    }
  }

  /** The rows behind a sequence of keys. */
  function RowsOf(store: Store, top: seq<Key>): seq<Row>
    requires InStore(store, top)
  {
    seq(|top|, i requires 0 <= i < |top| => store[top[i]])
  }

  /** /leaderboard: the user's total over all chats, or a notice that they have not played. */
  method OnLeaderboard(st: State, user: User) returns (replies: seq<Reply>)
    ensures UserKeys(st.store, user.id) == {} <==> replies == [NotPlayed]
    ensures UserKeys(st.store, user.id) != {} ==>
      exists name :: name in UserNames(st.store, user.id)
        && replies == [Totals([(name, Total(st.store, UserKeys(st.store, user.id)))])]
  {
    var totals := Scores.Leaderboard(st.store, user.id);
    if totals == [] {
      replies := [NotPlayed];
    } else {
      assert totals == [(totals[0].0, totals[0].1)];
      replies := [Totals(totals)];
    }
  }

  /** Whatever the chat held before, a successful selection leaves the same session and saves nothing. */
  lemma SelectDiscardsPriorSession(st1: State, st2: State, chat: int, data: string, picks: seq<nat>)
    requires st1.categories == st2.categories
    requires QuizSession.PicksFit(st1.categories, Callback.DecodeCategory(data), picks)
    requires OnSelectCategory(st1, chat, data, picks).raised == None
    ensures var r1 := OnSelectCategory(st1, chat, data, picks);
      var r2 := OnSelectCategory(st2, chat, data, picks);
      && r2.raised == None
      && r1.state.chats[chat] == r2.state.chats[chat]
      && r1.state.store == st1.store && r2.state.store == st2.store
  {
  }

  /** Every press is dispatched to the answer handler. */
  predicate AnswerPresses(answers: seq<string>)
  {
    forall i :: 0 <= i < |answers| ==> Callback.Route(answers[i]) == Callback.AnswerQuestion
  }

  /** Press the answer buttons `answers` one after another, stopping at the first exception. */
  function Play(st: State, chat: int, user: User, answers: seq<string>): (r: Outcome)
    requires AnswerPresses(answers)
    ensures r.state.categories == st.categories
    ensures ChatsValid(st) ==> ChatsValid(r.state)
    decreases |answers|
  {
    if answers == [] then Outcome(st, [], None)
    else
      var first := OnCallback(st, chat, user, answers[0], []);
      if first.raised != None then first
      else
        var rest := Play(first.state, chat, user, answers[1..]);
        Outcome(rest.state, first.replies + rest.replies, rest.raised)
  }

  /**
    Answering every remaining question of a chat's session finishes it without an
    exception, records the final score for the answering user and announces it last.
   */
  lemma {:induction false} PlayToCompletion(st: State, chat: int, user: User, answers: seq<string>)
    requires InQuiz(st, chat) && QuizSession.Consistent(st.chats[chat])
    requires 0 < |answers| && st.chats[chat].index + |answers| == |st.chats[chat].questions|
    requires AnswerPresses(answers)
    ensures var s := st.chats[chat];
      var final := s.score + QuizSession.CorrectCount(s.questions[s.index..], answers);
      var r := Play(st, chat, user, answers);
      && r.raised == None
      && Key(user.id, chat) in r.state.store
      && r.state.store[Key(user.id, chat)] == Row(user.name, final)
      && 0 < |r.replies| && r.replies[|r.replies| - 1] == QuizEnded(final, |s.questions|)
    decreases |answers|
  {
    var s := st.chats[chat];
    var first := OnAnswer(st, chat, user, answers[0]);
    assert OnCallback(st, chat, user, answers[0], []) == first;
    var next := first.state.chats[chat];
    var rest := Play(first.state, chat, user, answers[1..]);
    assert Play(st, chat, user, answers) == Outcome(rest.state, first.replies + rest.replies, rest.raised);
    assert s.questions[s.index..][1..] == next.questions[next.index..];
    if |answers| == 1 {
      assert s.index + 1 == |s.questions|;
      assert rest == Outcome(first.state, [], None);
    } else {
      assert QuizSession.Consistent(next) by {
        assert QuizSession.Answer(s, answers[0]).session == next;
      }
      PlayToCompletion(first.state, chat, user, answers[1..]);
    }
  }

  /**
    A quiz from selection to its fifth answer: the table then holds, for the answering
    user in that chat, the number of answers that matched, which is at most five.
   */
  lemma FreshQuizRecordsCorrectCount(st: State, chat: int, user: User, data: string, picks: seq<nat>, answers: seq<string>)
    requires QuizSession.PicksFit(st.categories, Callback.DecodeCategory(data), picks)
    requires OnSelectCategory(st, chat, data, picks).raised == None
    requires |answers| == SampleSize && AnswerPresses(answers)
    ensures var started := OnSelectCategory(st, chat, data, picks).state;
      var r := Play(started, chat, user, answers);
      var n := QuizSession.CorrectCount(started.chats[chat].questions, answers);
      && r.raised == None
      && Key(user.id, chat) in r.state.store
      && r.state.store[Key(user.id, chat)] == Row(user.name, n)
      && n <= SampleSize
  {
    var started := OnSelectCategory(st, chat, data, picks).state;
    var s := started.chats[chat];
    assert s.questions[s.index..] == s.questions;
    PlayToCompletion(started, chat, user, answers);
  }

  /**
    The last answer does not clear the session: the chat still counts as in a quiz, /score
    then reports a position one past the last question, /end records the score again
    under whoever sends it, and a further answer raises without saving.
   */
  lemma FinishedSessionStaysActive(st: State, chat: int, user: User, choice: string, other: User, late: string)
    requires InQuiz(st, chat) && QuizSession.Consistent(st.chats[chat])
    requires st.chats[chat].index + 1 == |st.chats[chat].questions|
    ensures var done := OnAnswer(st, chat, user, choice).state;
      var s := done.chats[chat];
      && InQuiz(done, chat)
      && OnScore(done, chat).replies == [Status(|s.questions| + 1, |s.questions|, s.score)]
      && OnEnd(done, chat, other).state.store[Key(other.id, chat)] == Row(other.name, s.score)
      && OnAnswer(done, chat, user, late).raised == Some(IndexOutOfRange)
      && OnAnswer(done, chat, user, late).state.store == done.store
  {
    var done := OnAnswer(st, chat, user, choice).state;
    assert done.chats[chat].current == st.chats[chat].current;
  }

  /**
    A late press of the last question's right answer after the quiz has finished still
    scores before it raises, so a following /end records one more than the questions
    asked when every answer had been right.
   */
  lemma LatePressThenEndOvercounts(st: State, chat: int, user: User, other: User)
    requires InQuiz(st, chat) && QuizSession.Consistent(st.chats[chat])
    requires st.chats[chat].index == |st.chats[chat].questions|
    ensures var s := st.chats[chat];
      var late := OnAnswer(st, chat, user, s.current.value.answer);
      var ended := OnEnd(late.state, chat, other);
      && late.raised == Some(IndexOutOfRange)
      && ended.state.store[Key(other.id, chat)] == Row(other.name, s.score + 1)
      && (s.score == |s.questions| ==> ended.state.store[Key(other.id, chat)].score > |s.questions|)
  {
  }

  /**
    A press on the category menu can fail only because the category holds fewer than
    five questions: every menu entry is a loaded category.
   */
  lemma MenuSelectionFailsOnlyWhenShort(st: State, chat: int, names: seq<string>, i: nat, picks: seq<nat>)
    requires Distinct(names) && forall n :: n in names <==> n in st.categories
    requires i < |names|
    requires QuizSession.PicksFit(st.categories, names[i], picks)
    ensures var data := Callback.CategoryMenu(st.categories, names)[i].data;
      var r := OnSelectCategory(st, chat, data, picks);
      && (r.raised != None <==> |st.categories[names[i]]| < SampleSize)
      && (r.raised != None ==> r.raised == Some(Select(QuizSession.TooFewQuestions)))
  {
  }
}
