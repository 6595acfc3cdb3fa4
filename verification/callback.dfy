/**
  Callback data of inline buttons. A category button carries `"category:" + name`; the
  dispatcher hands every callback whose data starts with that prefix to category
  selection, which drops the first nine characters, and every other callback to
  answer handling.
 */
module Callback {
  import opened Common
  import opened Questions

  const CategoryPrefix: string := "category:"

  /** How many characters category selection slices off (`query.data[9:]`). */
  const SliceStart: nat := 9

  /** The two callback handlers, in registration order. */
  datatype Handler = SelectCategory | AnswerQuestion

  /** The first registered handler whose pattern matches wins: `^category:` comes first. */
  function Route(data: string): (h: Handler)
    ensures h == SelectCategory <==> exists name :: CategoryPrefix + name == data
  {
    assert CategoryPrefix <= data ==> CategoryPrefix + data[|CategoryPrefix|..] == data;
    if CategoryPrefix <= data then SelectCategory else AnswerQuestion
  }

  /** Python's `data[9:]`: everything after the ninth character, empty when there is less. */
  function DecodeCategory(data: string): (name: string)
    ensures |data| <= SliceStart ==> name == ""
    ensures |data| > SliceStart ==> data[..SliceStart] + name == data
  {
    if |data| <= SliceStart then "" else data[SliceStart..]
  }

  /** The callback data of the button for category `name`. */
  function EncodeCategory(name: string): (data: string)
    ensures Route(data) == SelectCategory
    ensures DecodeCategory(data) == name
  {
    assert |CategoryPrefix| == SliceStart;
    CategoryPrefix + name
  }

  /** Every callback routed to category selection is the encoding of what it decodes to. */
  lemma EncodeDecode(data: string)
    requires Route(data) == SelectCategory
    ensures EncodeCategory(DecodeCategory(data)) == data
  {
    assert data == data[..SliceStart] + data[SliceStart..];
  }

  /** Distinct categories get distinct button data. */
  lemma EncodeInjective(a: string, b: string)
    ensures EncodeCategory(a) == EncodeCategory(b) <==> a == b
  {
    if EncodeCategory(a) == EncodeCategory(b) {
      assert DecodeCategory(EncodeCategory(a)) == DecodeCategory(EncodeCategory(b));
    }
  }

  /**
    The category menu: one button per loaded category, in the order `names` lists the
    categories (the map's key order).
   */
  function CategoryMenu(categories: Categories, names: seq<string>): (buttons: seq<Button>)
    requires Distinct(names) && forall n :: n in names <==> n in categories
    ensures |buttons| == |names|
    ensures forall i :: 0 <= i < |buttons| ==>
              && buttons[i].text == names[i]
              && Route(buttons[i].data) == SelectCategory
              && DecodeCategory(buttons[i].data) == names[i]
              && DecodeCategory(buttons[i].data) in categories
    ensures forall n :: n in categories ==>
              exists i :: 0 <= i < |buttons| && DecodeCategory(buttons[i].data) == n
  {
    var buttons := seq(|names|, i requires 0 <= i < |names| => Button(names[i], EncodeCategory(names[i])));
    assert forall n :: n in categories ==>
             exists i :: 0 <= i < |buttons| && DecodeCategory(buttons[i].data) == n by {
      forall n | n in categories
        ensures exists i :: 0 <= i < |buttons| && DecodeCategory(buttons[i].data) == n
      {
        var i :| 0 <= i < |names| && names[i] == n;
        assert DecodeCategory(buttons[i].data) == n;
      }
    }
    buttons
  }
}
