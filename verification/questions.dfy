/**
  The content a quiz is played with: questions grouped into categories, the random
  sample of questions a quiz draws, and the keyboard a question is presented with.
 */
module Questions {
  import opened Common

  /** One entry of a category file: the prompt, the button labels and the label that scores. */
  datatype Question = Question(text: string, choices: seq<string>, answer: string)

  /** Category name to that category's questions, in file order. */
  type Categories = map<string, seq<Question>>

  /** How many questions one quiz draws from its category (the `5` of `random.sample`). */
  const SampleSize: nat := 5

  /**
    The randomness of `random.sample(pool, 5)`, supplied from outside: the positions
    it drew, all distinct and inside the pool.
   */
  predicate ValidPicks(picks: seq<nat>, poolSize: nat)
  {
    && |picks| == SampleSize
    && Distinct(picks)
    && forall i :: 0 <= i < |picks| ==> picks[i] < poolSize
  }

  /** The questions at the drawn positions, in draw order. */
  function Sample(pool: seq<Question>, picks: seq<nat>): (drawn: seq<Question>)
    requires ValidPicks(picks, |pool|)
    ensures |drawn| == SampleSize
    ensures forall i :: 0 <= i < |drawn| ==> drawn[i] == pool[picks[i]]
    ensures forall q :: q in drawn ==> q in pool
    ensures Distinct(pool) ==> Distinct(drawn)
  {
    seq(|picks|, i requires 0 <= i < |picks| => pool[picks[i]])
  }

  /** An inline keyboard button: the text shown and the callback data sent back when pressed. */
  datatype Button = Button(text: string, data: string)

  /** The callback data the buttons send, in keyboard order. */
  function DataOf(buttons: seq<Button>): seq<string>
  {
    seq(|buttons|, i requires 0 <= i < |buttons| => buttons[i].data)
  }

  /**
    The answer keyboard of a question: one button per choice, in the shuffled `order`
    (any permutation of the choices), each sending its own text as callback data.
   */
  function ChoiceKeyboard(q: Question, order: seq<string>): (buttons: seq<Button>)
    requires multiset(order) == multiset(q.choices)
    ensures |buttons| == |q.choices|
    ensures multiset(DataOf(buttons)) == multiset(q.choices)
    ensures forall i :: 0 <= i < |buttons| ==>
              buttons[i].text == buttons[i].data && buttons[i].data in q.choices
    ensures (exists i :: 0 <= i < |buttons| && buttons[i].data == q.answer) <==> q.answer in q.choices
  {
    var buttons := seq(|order|, i requires 0 <= i < |order| => Button(order[i], order[i]));
    assert DataOf(buttons) == order;
    assert |order| == |multiset(order)| == |multiset(q.choices)| == |q.choices|;
    assert forall i :: 0 <= i < |order| ==> order[i] in multiset(order);
    assert q.answer in q.choices ==> exists i :: 0 <= i < |buttons| && buttons[i].data == q.answer by {
      if q.answer in q.choices {
        assert q.answer in multiset(order);
        var i :| 0 <= i < |order| && order[i] == q.answer;
        assert buttons[i].data == q.answer;
      }
    }
    buttons
  }
}
