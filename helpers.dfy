/** The three string helpers every parser in the repository is written with:
    the text before, after and between separators, by first occurrence. */
module Helpers {
  import opened Text

  /** before(value, separator): the text up to the first separator, or all of value. */
  function Before(value: string, sep: string): (r: string)
    ensures |r| <= |value| && r == value[..|r|]
    ensures !Occurs(value, sep) ==> r == value
    ensures Occurs(value, sep) ==>
      OccursAt(value, sep, |r|) && forall j :: 0 <= j < |r| ==> !OccursAt(value, sep, j)
  {
    var i := Find(value, sep);
    if i == -1 then value else value[..i]
  }

  /** after(value, separator): the text after the first separator, or "" when there is none. */
  function After(value: string, sep: string): (r: string)
    ensures !Occurs(value, sep) ==> r == []
    ensures Occurs(value, sep) ==>
      && |r| + |sep| <= |value|
      && r == value[|value| - |r|..]
      && OccursAt(value, sep, |value| - |r| - |sep|)
      && forall j :: 0 <= j < |value| - |r| - |sep| ==> !OccursAt(value, sep, j)
  {
    var i := Find(value, sep);
    if i == -1 then [] else value[i + |sep|..]
  }

  /** between(value, front, back): the text after the first front, up to the next back. */
  function Between(value: string, front: string, back: string): (r: string)
    ensures !Occurs(value, front) ==> r == []
    ensures |r| <= |After(value, front)| && r == After(value, front)[..|r|]
  {
    Before(After(value, front), back)
  }

  /** Where the separator occurs, value is the text before it, the separator and the text after it. */
  lemma BeforeAfterRoundTrip(value: string, sep: string)
    requires Occurs(value, sep)
    ensures Before(value, sep) + sep + After(value, sep) == value
  {
    var i := Find(value, sep);
    assert value == value[..i] + value[i..i + |sep|] + value[i + |sep|..];
  }

  /** Before returns all of a non-empty value exactly when the separator is absent. */
  lemma BeforeWhole(value: string, sep: string)
    requires value != []
    ensures Before(value, sep) == value <==> !Occurs(value, sep)
  {
    if Occurs(value, sep) {
      var r := Before(value, sep);
      assert OccursAt(value, sep, |r|);
    }
  }

  /** The text after a first occurrence of sep that sits right after pre. */
  lemma AfterFirst(pre: string, sep: string, rest: string)
    requires forall j :: 0 <= j < |pre| ==> !OccursAt(pre + sep, sep, j)
    ensures After(pre + sep + rest, sep) == rest
    ensures Before(pre + sep + rest, sep) == pre
  {
    var u := pre + sep;
    assert OccursAt(u, sep, |pre|);
    FindFirst(u, rest, sep, |pre|);
    assert u + rest == pre + sep + rest;
    assert (pre + sep + rest)[|pre| + |sep|..] == rest;
    assert (pre + sep + rest)[..|pre|] == pre;
  }

  /** Between reads back the text it was wrapped around, when front first occurs right after pre
      and back does not occur before the end of mid + back. */
  lemma BetweenDelimited(pre: string, front: string, mid: string, back: string, post: string)
    requires forall j :: 0 <= j < |pre| ==> !OccursAt(pre + front, front, j)
    requires forall j :: 0 <= j < |mid| ==> !OccursAt(mid + back, back, j)
    ensures Between(pre + front + mid + back + post, front, back) == mid
  {
    assert pre + front + mid + back + post == pre + front + (mid + back + post);
    AfterFirst(pre, front, mid + back + post);
    AfterFirst(mid, back, post);
  }

  /** With a one-character back delimiter that mid does not contain. */
  lemma BetweenChar(front: string, mid: string, back: char, post: string)
    requires back !in mid
    ensures Between(front + mid + [back] + post, front, [back]) == mid
  {
    forall j | 0 <= j < |mid|
      ensures !OccursAt(mid + [back], [back], j)
    {
      assert (mid + [back])[j..j + 1] == [mid[j]];
    }
    assert front == [] + front;
    BetweenDelimited([], front, mid, [back], post);
  }
}
