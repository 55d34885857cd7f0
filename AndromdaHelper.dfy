/**
 * AndromdaHelper.concatComments: the bodies of a list of UML comments joined
 * with '\n', with no separator after the last one.
 */
module AndromdaHelper {
  import opened JavaLang
  import opened Uml

  /** What StringBuilder.append writes for a comment body: "null" for a null
      one, which the text then cannot tell from a body that reads "null". */
  function BodyText(c: Comment): (r: string)
    ensures c.body.Some? ==> r == c.body.value
    ensures r == "null" <==> c.body.None? || c.body == Some("null")
  {
    match c.body
    case None => "null"
    case Some(b) => b
  }

  function Bodies(comments: seq<Comment>): (r: seq<string>)
    ensures |r| == |comments|
    ensures forall i :: 0 <= i < |comments| ==> r[i] == BodyText(comments[i])
  {
    seq(|comments|, i requires 0 <= i < |comments| => BodyText(comments[i]))
  }

  /** The sum of the lengths of the strings. */
  function TotalLength(xs: seq<string>): nat {
    if xs == [] then 0 else |xs[0]| + TotalLength(xs[1..])
  }

  /**
   * Appends each body and a '\n' to a buffer, then deletes the last
   * character; an empty list gives the empty string.
   */
  method ConcatComments(comments: seq<Comment>) returns (r: string)
    ensures r == JoinWith(Bodies(comments), "\n")
    ensures comments == [] ==> r == ""
    ensures |comments| == 1 ==> r == BodyText(comments[0])
    ensures comments != [] ==> |r| == TotalLength(Bodies(comments)) + |comments| - 1
  {
    if |comments| == 0 {
      return "";
    }
    var bodies := Bodies(comments);
    var sb := "";
    for i := 0 to |comments|
      invariant sb == Unlines(bodies[..i])
    {
      sb := sb + BodyText(comments[i]) + "\n";
      assert bodies[..i + 1] == bodies[..i] + [bodies[i]];
      UnlinesAppend(bodies[..i], [bodies[i]]);
    }
    assert bodies[..|comments|] == bodies;
    UnlinesIsJoin(bodies);
    r := sb[..|sb| - 1];
    JoinLength(bodies, "\n");
  }

  lemma {:induction false} JoinLength(xs: seq<string>, sep: string)
    requires xs != []
    ensures |JoinWith(xs, sep)| == TotalLength(xs) + (|xs| - 1) * |sep|
  {
    if |xs| > 1 {
      JoinLength(xs[1..], sep);
    } else {
      assert xs[1..] == [];
    }
  }

  /** Two bodies are joined by one '\n' and nothing follows the last. */
  lemma ConcatExample()
    ensures JoinWith(Bodies([Comment(Some("a")), Comment(Some("b"))]), "\n") == "a\nb"
  {
    assert Bodies([Comment(Some("a")), Comment(Some("b"))]) == ["a", "b"];
  }

  /**
   * Splitting the concatenation at '\n' gives the bodies back when none of
   * them holds a '\n' and the last one is not empty (or is the only one).
   */
  lemma ConcatCommentsSplitsBack(comments: seq<Comment>)
    requires comments != []
    requires forall i :: 0 <= i < |comments| ==> '\n' !in BodyText(comments[i])
    requires |comments| == 1 || BodyText(comments[|comments| - 1]) != ""
    ensures Split(JoinWith(Bodies(comments), "\n"), '\n') == Bodies(comments)
  {
    SplitOfJoin(Bodies(comments), '\n');
  }
}
