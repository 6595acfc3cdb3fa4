# Quiz bot: session state machine and high-score table

A Dafny model of the two pieces of logic inside the Telegram `QuizBot` of `q.py`:

- the per-chat quiz session kept in `chat_data` (category, the five drawn questions,
  position, score, current question) and the handlers that move it: category selection,
  answering, `/score`, `/end` and `/next`, together with the callback data that carries a
  category name (`"category:" + name`, decoded by dropping nine characters);
- the `highscores` table with primary key (user id, chat id) as a finite map, its
  `INSERT OR REPLACE` upsert, the per-chat top-ten query and the per-user total.

Modules, one per concern:

| file | module | contents |
|---|---|---|
| `common.dfy` | `Common` | `Option`, `Result`, `Distinct`, `Min` |
| `questions.dfy` | `Questions` | questions, categories, the five-question draw, the answer keyboard |
| `callback.dfy` | `Callback` | category callback data, dispatcher routing, the category menu |
| `session.dfy` | `QuizSession` | the session record and its transitions |
| `scores.dfy` | `Scores` | the high-score table and its queries |
| `bot.dfy` | `Bot` | the handlers over all chats and the table, with replies and raised errors |

Randomness is an input. `random.sample(pool, 5)` becomes `picks`: five distinct positions
inside the pool. `random.shuffle` becomes `order`: any permutation of a question's choices.
Handler exceptions are modelled as an `Outcome` whose `raised` field names the error. Its
`state` is whatever the Python code had already written when it raised. Example: the
category name is stored at q.py:73, before the lookup at q.py:74 that can fail.

Behaviour of the code that the model keeps as written:

- The code never clears `chat_data`. After the last answer the chat still counts as in a
  quiz, `/score` reports question 6 of 5, and `/end` records the score again. A further
  answer press grades and advances, then raises at q.py:80
  (`Bot.FinishedSessionStaysActive`). When that late press repeats the last question's
  right answer, the score has already risen before the raise. A following `/end` then
  records one more than the final score, which after a perfect quiz is more than the
  number of questions (`Bot.LatePressThenEndOvercounts`).
- An unknown category raises `KeyError` at q.py:74, and a category with fewer than five
  questions makes `random.sample` raise `ValueError`. Nothing is replied
  (`Bot.OnSelectCategory`). From the category menu only the second can happen
  (`Bot.MenuSelectionFailsOnlyWhenShort`).
- The leaderboard query groups by the one requested user id, so it returns at most one
  row despite its `LIMIT 10` (`Scores.Leaderboard`).
- `/end` records the score under the user who sent `/end`, not under the player who
  answered. The session does not remember who played.
- Answer buttons send the choice text as callback data, and the dispatcher sends any data
  starting with `category:` to category selection. A choice whose text starts with that
  prefix can therefore never be answered (`Bot.PrefixedChoiceNeverGraded`).

## Model

| member | source | states |
|---|---|---|
| `Callback.Route` | q.py:53-54 | a press goes to category selection exactly when its data is `"category:"` followed by some text, and to the answer handler otherwise |
| `Callback.DecodeCategory` | q.py:72 | the name is what follows the first nine characters of the data, and empty when the data has no more than nine |
| `Callback.EncodeCategory` | q.py:65 | the data of a category button is routed to category selection, and slicing off nine characters gives the category name back |
| `Callback.EncodeDecode` | q.py:72 | conversely, every callback the dispatcher sends to category selection is exactly the button data of the name it decodes to |
| `Callback.EncodeInjective` | q.py:65 | two categories share button data only if they have the same name |
| `Callback.CategoryMenu` | q.py:64-67 | one button per loaded category, in key order, showing the name, routed to selection and decoding back to it; every loaded category has a button |
| `Questions.Sample` | q.py:74 | the draw has five questions, each one taken from the pool; they are pairwise distinct when the pool's questions are |
| `Questions.ChoiceKeyboard` | q.py:82-85 | the buttons' data are the choices with their multiplicities, each button sending its own text; some button sends the right answer exactly when the answer is among the choices |
| `QuizSession.AskQuestion` | q.py:79-81 | the question at the current position becomes the current one; nothing else changes |
| `QuizSession.Start` | q.py:69-77 | fails with unknown category exactly when the name is not loaded, and with too few questions exactly when the pool has fewer than five; otherwise position 0, score 0, the five drawn questions in draw order, the first one asked |
| `QuizSession.StartDrawsFromPool` | q.py:74 | a fresh session's five questions all belong to the category, distinct when the category's are |
| `QuizSession.Grade` | q.py:91-98 | the score rises by one exactly when the choice equals the current answer and is unchanged otherwise; the position advances by one; score <= position is kept |
| `QuizSession.Answer` | q.py:88-102 | grading as above; the quiz finishes exactly when the new position equals the number of questions, and otherwise the next question becomes current; a valid session stays valid with position <= number of questions |
| `QuizSession.CorrectCount` | q.py:92-94 | the number of matching answers never exceeds the number of answers, and equals it exactly when every answer matches |
| `QuizSession.Run` | q.py:88-102 | answering k remaining questions advances the position by k and adds the number of correct answers among them to the score |
| `QuizSession.FullQuizScore` | q.py:73-102 | five answers from a fresh selection finish the quiz with the count of correct answers as its score, at most five |
| `Scores.Save` | q.py:118-123 | after the upsert, the (user, chat) row holds the new name and score; every other row is unchanged; no other key appears |
| `Scores.SaveLatestWins` | q.py:121 | two saves for the same user and chat leave only the second |
| `Scores.SaveRowCount` | q.py:18-20 | a save adds a row only when the key had none, so there is one row per primary key |
| `Scores.ChatHighscores` | q.py:125-129 | only rows of the chat, no row twice, scores non-increasing, min(10, rows of the chat) of them, and no omitted row scores above the last one returned |
| `Scores.Leaderboard` | q.py:139-143 | at most one row; none exactly when the user has no rows; its total is the sum of the user's scores over all chats and its name is one the user was recorded under |
| `Bot.EndQuiz` | q.py:104-110 | records the session's score for (user, chat), adding no other key and leaving every other row and every session as it was, and announces score and question count |
| `Bot.OnSelectCategory` | q.py:69-77 | succeeds exactly when the decoded category exists with at least five questions; then the chat holds a fresh session and the first question is asked; otherwise raises unknown category for a name not loaded and too few questions for a loaded one, and only the category name of an existing session changes; the table and other chats are untouched |
| `Bot.InQuiz` | q.py:113 | the guard implies the chat has a session; while every session is valid it holds exactly when the chat has ever started a quiz, since nothing clears one |
| `Bot.OnAnswer` | q.py:88-102 | without a current question raises a missing key and changes nothing; otherwise replies correct or incorrect, raises the score only for the right answer and advances, keeping the category and questions; asks the next question, or records and announces the score on the last one (current question kept), or raises past the end without saving, with only score and position changed |
| `Bot.OnCallback` | q.py:53-54 | a press whose data starts with the category prefix is a category selection, any other an answer; only answer presses write the high-score table; sessions stay valid |
| `Bot.PrefixedChoiceNeverGraded` | q.py:84 | pressing a choice button whose text starts with `category:` gives neither a correct nor an incorrect reply and saves nothing |
| `Bot.OnScore` | q.py:112-116 | reports the 1-based position, question count and score when a question is current, otherwise replies not-in-quiz; state unchanged |
| `Bot.OnEnd` | q.py:153-157 | when a question is current, records the score for the sender and keeps the session; otherwise replies not-in-quiz and changes nothing |
| `Bot.OnNext` | q.py:159-163 | when a question is current, behaves exactly like an answer press with the update's data; otherwise replies not-in-quiz and changes nothing |
| `Bot.OnHighscores` | q.py:125-137 | replies no-high-scores exactly when the chat has no rows, and otherwise the rows of a valid top-ten answer |
| `Bot.OnLeaderboard` | q.py:139-151 | replies not-played exactly when the user has no rows, and otherwise one total over all chats under one of the user's names |
| `Bot.SelectDiscardsPriorSession` | q.py:72-76 | a successful selection gives the same session whatever the chat held before, and saves no score for the abandoned quiz |
| `Bot.Play` | q.py:88-102 | a run of presses dispatched to the answer handler keeps every chat's session valid |
| `Bot.PlayToCompletion` | q.py:88-110 | answering every remaining question raises nothing, and leaves the final score in the (user, chat) row with the quiz-ended reply last |
| `Bot.FreshQuizRecordsCorrectCount` | q.py:69-121 | selection then five answers leaves the number of correct answers, at most five, in the answering user's row for the chat |
| `Bot.LatePressThenEndOvercounts` | q.py:92-100 | after the last answer, a late press of the last right answer raises but has already scored, and `/end` then records one more point, above the question count after a perfect quiz |
| `Bot.MenuSelectionFailsOnlyWhenShort` | q.py:65-74 | a category-menu press fails exactly when that category holds fewer than five questions, and then only with too few questions |
| `Bot.FinishedSessionStaysActive` | q.py:104-116 | after the last answer the chat is still in a quiz: `/score` reports one past the last question, `/end` records the score again for its sender, a further answer raises and saves nothing |

## Left out

- Telegram transport: the updater, the handler registration beyond routing, reply and edit calls, and message wording. Replies are the abstract `Reply` values. The `/start` greeting is a fixed text and is not modelled.
- Telegram's `update.message` and `update.callback_query` fields: the model follows the handlers' control flow and takes the user and chat as parameters. In the library, `update.message` is empty for button presses (q.py:86, q.py:106), and a `/next` command carries no callback query (q.py:90). The model does not follow those library facts.
- `load_categories` (q.py:25-33): reading category files is I/O. Categories are a map given as input.
- `setup_database`, connections, commits and closing (q.py:14-23, q.py:119-123): the table is an in-memory map, with no durability and no storage failures.
- Randomness (q.py:74, q.py:83): the draw and the shuffle are inputs.
- The shuffle reorders the stored question's choice list in place. The model keeps no choice order, because answers are compared by text.
- `token.txt`, the polling loop, `sleep` and logging (q.py:165-175): process plumbing.
- Concurrency between chats: the code has none of its own.
- Usernames: Telegram may give no username (stored as NULL). The model uses a plain string.
- Integer widths: SQLite's 64-bit INTEGER and Python's integers are unbounded `int`/`nat` here. Scores stay tiny.
- Failed selection in a chat with no data: the code leaves a bag holding only `current_category`. The model keeps "no session", which every handler treats the same way.
- Scores.ChatHighscores: the order among equal scores is left unconstrained, because SQLite does not define it.
- Scores.Leaderboard: the reported name is only constrained to be one of the user's recorded names, because SQLite picks a row of the group arbitrarily.
- Bot.Play: presses only data that the dispatcher routes to the answer handler. A press starting with `category:` is a category selection, covered by `Bot.OnCallback` and `Bot.PrefixedChoiceNeverGraded`, so whole-quiz results are stated for quizzes whose answers do not start with that prefix.
- QuizSession.Answer: requires a position before the end. The session-level transition models the code up to the crash at q.py:80, and `Bot.OnAnswer` models the raise itself.
