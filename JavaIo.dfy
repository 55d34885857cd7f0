/**
 * A PrintWriter writing into a StringWriter: an append-only character buffer.
 * println ends a line with one fixed newline character.
 */
module JavaIo {
  import opened JavaLang

  const NEWLINE: string := "\n"

  class Writer {
    /** Everything written so far. */
    var text: string

    constructor ()
      ensures text == ""
    {
      text := "";
    }

    /** print(s), and format(...) once its arguments are substituted. */
    method Print(s: string)
      modifies this
      ensures text == old(text) + s
    {
      text := text + s;
    }

    /** println(s); println() is Println(""). */
    method Println(s: string)
      modifies this
      ensures text == old(text) + s + NEWLINE
      ensures text == old(text) + Unlines([s])
    {
      text := text + s + NEWLINE;
    }
  }

  /** Writing the lines `a` and then the lines `b` writes the lines `a + b`. */
  lemma {:induction false} Then(t: string, a: seq<string>, b: seq<string>)
    ensures t + Unlines(a) + Unlines(b) == t + Unlines(a + b)
  {
    UnlinesAppend(a, b);
    assert t + Unlines(a) + Unlines(b) == t + (Unlines(a) + Unlines(b));
  }

  /** print(p) followed by println(s) writes the one line `p + s`. */
  lemma PrintThenPrintln(t: string, p: string, s: string)
    ensures t + p + Unlines([s]) == t + Unlines([p + s])
  {
    assert [s][1..] == [] && [p + s][1..] == [];
    assert t + p + (s + "\n" + "") == t + (p + s + "\n" + "");
  }

  /** format(p) followed by println() writes the one line `p`. */
  lemma FormatThenPrintln(t: string, p: string)
    ensures t + p + Unlines([""]) == t + Unlines([p])
  {
    PrintThenPrintln(t, p, "");
    assert p + "" == p;
  }
}
