/**
 * The string helpers the code generation templates call. Every helper that
 * reads words goes through SplitAtNonWordCharacters: the trimmed text gets a
 * space in front of each run of capitals, and is then split at the runs of
 * characters outside [A-Za-z0-9] the way String.split splits at a regular
 * expression (no match: the whole text; a leading empty piece kept; the
 * trailing empty pieces dropped).
 */
module StringUtilsHelper {
  import opened JavaLang

  /** getLineSeparator(): fixed, whatever the platform. */
  const LINE_SEPARATOR: string := "\n"

  const BACKSLASH: string := "\\"

  // ------------------------------------------------------------ replaceSuffix

  /** replaceSuffix: the suffix swapped when the text ends with it. */
  function ReplaceSuffix(src: string, suffixOld: string, suffixNew: string): (r: string)
    ensures EndsWith(src, suffixOld) ==> EndsWith(r, suffixNew)
    ensures EndsWith(src, suffixOld) ==> r[..|r| - |suffixNew|] + suffixOld == src
    ensures !EndsWith(src, suffixOld) ==> r == src
  {
    if EndsWith(src, suffixOld) then
      var stem := src[..|src| - |suffixOld|];
      assert (stem + suffixNew)[|stem|..] == suffixNew;
      assert (stem + suffixNew)[..|stem|] == stem;
      assert stem + suffixOld == src;
      stem + suffixNew
    else src
  }

  /** Swapping the suffix back restores the text. */
  lemma ReplaceSuffixRoundTrip(src: string, suffixOld: string, suffixNew: string)
    requires EndsWith(src, suffixOld)
    ensures ReplaceSuffix(ReplaceSuffix(src, suffixOld, suffixNew), suffixNew, suffixOld) == src
  {
    var r := ReplaceSuffix(src, suffixOld, suffixNew);
    assert ReplaceSuffix(r, suffixNew, suffixOld) == r[..|r| - |suffixNew|] + suffixOld;
  }

  // ------------------------------------------------------ removeLastOccurrence

  /** removeLastOccurrence: the text with its last occurrence of `value` cut
      out; null arguments and an absent value leave the text as it is. */
  method RemoveLastOccurrence(s: Option<string>, value: Option<string>) returns (r: Option<string>)
    ensures s.None? || value.None? ==> r == s
    ensures s.Some? && value.Some? && LastIndexOf(s.value, value.value) == -1 ==> r == s
    ensures s.Some? && value.Some? && LastIndexOf(s.value, value.value) >= 0 ==>
              var k := LastIndexOf(s.value, value.value);
              && r.Some?
              && |r.value| == |s.value| - |value.value|
              && k <= |r.value|
              && r.value[..k] + value.value + r.value[k..] == s.value
  {
    r := s;
    if s.Some? && value.Some? {
      var text, v := s.value, value.value;
      var buffer := "";
      var index := LastIndexOf(text, v);
      if index != -1 {
        buffer := buffer + text[..index];
        buffer := buffer + text[index + |v|..];
        assert buffer[..index] == text[..index];
        assert buffer[index..] == text[index + |v|..];
        assert text[..index] + text[index..index + |v|] + text[index + |v|..] == text;
        r := Some(buffer);
      }
    }
  }

  // --------------------------------------------------- splitAtNonWordCharacters

  /** A run of capitals starts at index k of t. */
  predicate RunStart(t: string, k: int)
    requires 0 <= k < |t|
  {
    IsAsciiUpper(t[k]) && (k == 0 || !IsAsciiUpper(t[k - 1]))
  }

  /** No capital directly follows a lower-case letter or a digit: every run of
      capitals opens the text or follows a non-word character. In a word this
      says that capitals occur only as the word's leading run. */
  predicate CapitalRunsLead(s: string) {
    forall j :: 0 < j < |s| && IsAsciiUpper(s[j]) ==> !IsAsciiLower(s[j - 1]) && !IsAsciiDigit(s[j - 1])
  }

  /** What the capital-run replacement has written once t[..i] is read: each
      run of capitals is written as a space and the run. */
  function Spaced(t: string, i: nat): (r: string)
    requires i <= |t|
    ensures |r| >= i
    ensures i > 0 ==> r[|r| - 1] == t[i - 1]
  {
    if i == 0 then ""
    else Spaced(t, i - 1) + (if RunStart(t, i - 1) then " " else "") + [t[i - 1]]
  }

  /** After the replacement no capital follows a lower-case letter or a digit. */
  lemma {:induction false} SpacedLead(t: string, i: nat)
    requires i <= |t|
    ensures CapitalRunsLead(Spaced(t, i))
  {
    if i > 0 {
      SpacedLead(t, i - 1);
      var u := Spaced(t, i - 1);
      var gap := if RunStart(t, i - 1) then " " else "";
      var r := u + gap + [t[i - 1]];
      assert forall j :: 0 <= j < |u| ==> r[j] == u[j];
      assert gap != "" ==> r[|u|] == ' ';
    }
  }

  /** The word characters of s, in order. */
  function WordChars(s: string): (r: string)
    ensures IsWordOnly(r)
  {
    if s == [] then "" else (if IsWordChar(s[0]) then [s[0]] else "") + WordChars(s[1..])
  }

  lemma {:induction false} WordCharsAppend(a: string, b: string)
    ensures WordChars(a + b) == WordChars(a) + WordChars(b)
  {
    if a == [] {
      assert a + b == b;
    } else {
      var head := if IsWordChar(a[0]) then [a[0]] else "";
      assert (a + b)[0] == a[0];
      assert (a + b)[1..] == a[1..] + b;
      WordCharsAppend(a[1..], b);
      assert head + (WordChars(a[1..]) + WordChars(b)) == (head + WordChars(a[1..])) + WordChars(b);
    }
  }

  lemma {:induction false} WordCharsOfWord(s: string)
    requires IsWordOnly(s)
    ensures WordChars(s) == s
  {
    if s != [] {
      WordCharsOfWord(s[1..]);
      assert [s[0]] + s[1..] == s;
    }
  }

  /** The inserted spaces are the only characters the replacement adds. */
  lemma {:induction false} SpacedWordChars(t: string, i: nat)
    requires i <= |t|
    ensures WordChars(Spaced(t, i)) == WordChars(t[..i])
  {
    if i > 0 {
      SpacedWordCharsStep(t, i);
      SpacedWordChars(t, i - 1);
      WordCharsSnoc(t, i);
    }
  }

  /** One more character read: the word characters grow by that character's. */
  lemma SpacedWordCharsStep(t: string, i: nat)
    requires 0 < i <= |t|
    ensures WordChars(Spaced(t, i)) == WordChars(Spaced(t, i - 1)) + WordChars([t[i - 1]])
  {
    var u := Spaced(t, i - 1);
    var c := [t[i - 1]];
    if RunStart(t, i - 1) {
      assert Spaced(t, i) == (u + " ") + c;
      WordCharsAppend(u + " ", c);
      WordCharsAppend(u, " ");
      WordCharsOfSpace();
    } else {
      assert Spaced(t, i) == u + c;
      WordCharsAppend(u, c);
    }
  }

  lemma WordCharsOfSpace()
    ensures WordChars(" ") == ""
  {
    assert " "[1..] == "";
  }

  lemma WordCharsSnoc(s: string, i: nat)
    requires 0 < i <= |s|
    ensures WordChars(s[..i]) == WordChars(s[..i - 1]) + WordChars([s[i - 1]])
  {
    assert s[..i] == s[..i - 1] + [s[i - 1]];
    WordCharsAppend(s[..i - 1], [s[i - 1]]);
  }

  /** The text after the run of non-word characters at its start. */
  function DropSeparators(s: string): (r: string)
    ensures |r| <= |s| && r == s[|s| - |r|..]
    ensures r == [] || IsWordChar(r[0])
    ensures forall i :: 0 <= i < |s| - |r| ==> !IsWordChar(s[i])
  {
    if s != [] && !IsWordChar(s[0]) then
      var r := DropSeparators(s[1..]);
      assert forall i :: 1 <= i < |s| - |r| ==> s[i] == s[1..][i - 1];
      r
    else s
  }

  lemma {:induction false} DropSeparatorsWordChars(s: string)
    ensures WordChars(DropSeparators(s)) == WordChars(s)
  {
    if s != [] && !IsWordChar(s[0]) {
      DropSeparatorsWordChars(s[1..]);
    }
  }

  /** The pieces of s between maximal runs of non-word characters, empty ones
      included: an empty first piece when s opens with such a run, an empty
      last piece when it ends with one. */
  function Pieces(s: string): (r: seq<string>)
    ensures |r| >= 1
    ensures |r[0]| <= |s| && r[0] == s[..|r[0]|]
    decreases |s|
  {
    if s == [] then [""]
    else if IsWordChar(s[0]) then
      var t := Pieces(s[1..]);
      var head := [s[0]] + t[0];
      assert head == s[..|head|];
      [head] + t[1..]
    else [""] + Pieces(DropSeparators(s[1..]))
  }

  /** Every piece is made of word characters. */
  lemma {:induction false} PiecesAreWords(s: string)
    ensures forall k :: 0 <= k < |Pieces(s)| ==> IsWordOnly(Pieces(s)[k])
    decreases |s|
  {
    if s != [] {
      if IsWordChar(s[0]) {
        var t := Pieces(s[1..]);
        PiecesAreWords(s[1..]);
        var head := [s[0]] + t[0];
        assert forall j :: 0 < j < |head| ==> head[j] == t[0][j - 1];
        assert Pieces(s) == [head] + t[1..];
      } else {
        PiecesAreWords(DropSeparators(s[1..]));
      }
    }
  }

  lemma {:induction false} PiecesConcat(s: string)
    ensures Concat(Pieces(s)) == WordChars(s)
    decreases |s|
  {
    if s != [] {
      if IsWordChar(s[0]) {
        var t := Pieces(s[1..]);
        PiecesConcat(s[1..]);
        var r := [[s[0]] + t[0]] + t[1..];
        assert r[1..] == t[1..];
        assert Concat(t) == t[0] + Concat(t[1..]);
        assert Concat(r) == ([s[0]] + t[0]) + Concat(t[1..]);
      } else {
        var d := DropSeparators(s[1..]);
        PiecesConcat(d);
        DropSeparatorsWordChars(s[1..]);
        assert ([""] + Pieces(d))[1..] == Pieces(d);
      }
    }
  }

  lemma CapitalRunsLeadSuffix(s: string, m: nat)
    requires m <= |s| && CapitalRunsLead(s)
    ensures CapitalRunsLead(s[m..])
  {
    var u := s[m..];
    forall j | 0 < j < |u| && IsAsciiUpper(u[j])
      ensures !IsAsciiLower(u[j - 1]) && !IsAsciiDigit(u[j - 1])
    {
      assert u[j] == s[m + j] && u[j - 1] == s[m + j - 1];
    }
  }

  lemma CapitalRunsLeadPrefix(s: string, m: nat)
    requires m <= |s| && CapitalRunsLead(s)
    ensures CapitalRunsLead(s[..m])
  {
    var u := s[..m];
    forall j | 0 < j < |u| && IsAsciiUpper(u[j])
      ensures !IsAsciiLower(u[j - 1]) && !IsAsciiDigit(u[j - 1])
    {
      assert u[j] == s[j] && u[j - 1] == s[j - 1];
    }
  }

  /** Each piece is a window of the text, so it keeps CapitalRunsLead. */
  lemma {:induction false} PiecesLead(s: string)
    requires CapitalRunsLead(s)
    ensures forall k :: 0 <= k < |Pieces(s)| ==> CapitalRunsLead(Pieces(s)[k])
    decreases |s|
  {
    if s != [] {
      CapitalRunsLeadSuffix(s, 1);
      if IsWordChar(s[0]) {
        var t := Pieces(s[1..]);
        PiecesLead(s[1..]);
        var head := [s[0]] + t[0];
        CapitalRunsLeadPrefix(s, |head|);
        assert Pieces(s) == [head] + t[1..];
      } else {
        var d := DropSeparators(s[1..]);
        CapitalRunsLeadSuffix(s[1..], |s[1..]| - |d|);
        PiecesLead(d);
      }
    }
  }

  /** String.split("[^A-Za-z0-9]+"): the whole text when nothing matches,
      otherwise its pieces less the trailing empty ones. */
  function WordSplit(s: string): (r: seq<string>)
    ensures r == [] || r == [""] || r[|r| - 1] != ""
  {
    if IsWordOnly(s) then [s] else DropTrailingEmpty(Pieces(s))
  }

  /** The parts splitAtNonWordCharacters returns for a text. */
  function WordParts(s: Option<string>): (r: seq<string>)
    ensures r == [] || r == [""] || r[|r| - 1] != ""
    ensures TrimToEmpty(s) == "" ==> r == [""]
  {
    var t := TrimToEmpty(s);
    WordSplit(Spaced(t, |t|))
  }

  lemma {:induction false} ConcatDropTrailingEmpty(xs: seq<string>)
    ensures Concat(DropTrailingEmpty(xs)) == Concat(xs)
  {
    if xs != [] && xs[|xs| - 1] == "" {
      ConcatDropTrailingEmpty(xs[..|xs| - 1]);
      ConcatSnoc(xs[..|xs| - 1], "");
      assert xs[..|xs| - 1] + [""] == xs;
    }
  }

  lemma {:induction false} ConcatEmpty(xs: seq<string>)
    requires Concat(xs) == ""
    ensures forall k :: 0 <= k < |xs| ==> xs[k] == ""
  {
    if xs != [] {
      ConcatEmpty(xs[1..]);
      assert forall k :: 1 <= k < |xs| ==> xs[k] == xs[1..][k - 1];
    }
  }

  /** What the splitter promises: parts of word characters only, in each of
      which capitals occur only as a leading run; together they hold exactly
      the word characters of the trimmed text; the list is empty exactly when
      the trimmed text is non-empty yet holds no word character, and its last
      part is empty only when it is the single part of an empty text. */
  lemma WordPartsProperties(s: Option<string>)
    ensures forall k :: 0 <= k < |WordParts(s)| ==> IsWordOnly(WordParts(s)[k])
    ensures forall k :: 0 <= k < |WordParts(s)| ==> CapitalRunsLead(WordParts(s)[k])
    ensures Concat(WordParts(s)) == WordChars(TrimToEmpty(s))
    ensures WordParts(s) == [] <==> TrimToEmpty(s) != "" && WordChars(TrimToEmpty(s)) == ""
    ensures WordParts(s) == [] || WordParts(s) == [""] || WordParts(s)[|WordParts(s)| - 1] != ""
  {
    var t := TrimToEmpty(s);
    assert WordParts(s) == WordSplit(Spaced(t, |t|));
    WordSplitProperties(t);
  }

  /** The same promises for the text once trimmed. */
  lemma WordSplitProperties(t: string)
    ensures var parts := WordSplit(Spaced(t, |t|));
            && (forall k :: 0 <= k < |parts| ==> IsWordOnly(parts[k]))
            && (forall k :: 0 <= k < |parts| ==> CapitalRunsLead(parts[k]))
            && Concat(parts) == WordChars(t)
            && (parts == [] <==> t != "" && WordChars(t) == "")
  {
    WordSplitAreWords(t);
    WordSplitLead(t);
    WordSplitConcat(t);
    WordSplitEmpty(t);
  }

  lemma WordSplitAreWords(t: string)
    ensures var parts := WordSplit(Spaced(t, |t|));
            forall k :: 0 <= k < |parts| ==> IsWordOnly(parts[k])
  {
    var u := Spaced(t, |t|);
    if !IsWordOnly(u) {
      PiecesAreWords(u);
    }
  }

  /** After the capital runs are spaced, each part keeps its capitals in front. */
  lemma WordSplitLead(t: string)
    ensures var parts := WordSplit(Spaced(t, |t|));
            forall k :: 0 <= k < |parts| ==> CapitalRunsLead(parts[k])
  {
    var u := Spaced(t, |t|);
    SpacedLead(t, |t|);
    if IsWordOnly(u) {
      assert WordSplit(u) == [u];
      CapitalRunsLeadPrefix(u, |u|);
      assert u[..|u|] == u;
    } else {
      var pieces := Pieces(u);
      var parts := DropTrailingEmpty(pieces);
      assert WordSplit(u) == parts;
      PiecesLead(u);
      forall k | 0 <= k < |parts|
        ensures CapitalRunsLead(parts[k])
      {
        assert parts[k] == pieces[k];
      }
    }
  }

  lemma WordSplitConcat(t: string)
    ensures Concat(WordSplit(Spaced(t, |t|))) == WordChars(t)
  {
    var u := Spaced(t, |t|);
    SpacedWordChars(t, |t|);
    assert t[..|t|] == t;
    if IsWordOnly(u) {
      assert WordSplit(u) == [u];
      ConcatOfOne(u);
      WordCharsOfWord(u);
    } else {
      assert WordSplit(u) == DropTrailingEmpty(Pieces(u));
      PiecesConcat(u);
      ConcatDropTrailingEmpty(Pieces(u));
    }
  }

  lemma ConcatOfOne(x: string)
    ensures Concat([x]) == x
  {
    assert Concat([x]) == x + Concat([]);
  }

  lemma WordSplitEmpty(t: string)
    ensures WordSplit(Spaced(t, |t|)) == [] <==> t != "" && WordChars(t) == ""
  {
    if t == "" {
      assert Spaced(t, |t|) == "";
    } else if WordChars(t) == "" {
      var u := Spaced(t, |t|);
      SpacedWithoutWords(t);
      PiecesConcat(u);
      ConcatEmpty(Pieces(u));
      AllEmptyDropped(Pieces(u));
    } else {
      WordSplitConcat(t);
    }
  }

  /** A non-empty text without word characters still has no word character,
      and some other character, once its capitals are spaced. */
  lemma {:induction false} SpacedWithoutWords(t: string)
    requires t != "" && WordChars(t) == ""
    ensures WordChars(Spaced(t, |t|)) == "" && !IsWordOnly(Spaced(t, |t|))
  {
    var u := Spaced(t, |t|);
    SpacedWordChars(t, |t|);
    assert t[..|t|] == t;
    if IsWordOnly(u) {
      WordCharsOfWord(u);
    }
  }

  lemma {:induction false} AllEmptyDropped(xs: seq<string>)
    requires forall k :: 0 <= k < |xs| ==> xs[k] == ""
    ensures DropTrailingEmpty(xs) == []
  {
  }

  /** splitAtNonWordCharacters: the find/appendReplacement loop read one
      character at a time, then the split. */
  method SplitAtNonWordCharacters(s: Option<string>) returns (parts: seq<string>)
    ensures parts == WordParts(s)
    ensures forall k :: 0 <= k < |parts| ==> IsWordOnly(parts[k]) && CapitalRunsLead(parts[k])
    ensures Concat(parts) == WordChars(TrimToEmpty(s))
  {
    var t := TrimToEmpty(s);
    var buffer := "";
    for i := 0 to |t|
      invariant buffer == Spaced(t, i)
    {
      SpacedStep(t, i);
      if RunStart(t, i) {
        buffer := buffer + " ";
      }
      buffer := buffer + [t[i]];
    }
    parts := WordSplit(buffer);
    SplitOfSpaced(s, buffer);
  }

  /** One character more read by the replacement loop. */
  lemma SpacedStep(t: string, i: nat)
    requires i < |t|
    ensures RunStart(t, i) ==> Spaced(t, i + 1) == Spaced(t, i) + " " + [t[i]]
    ensures !RunStart(t, i) ==> Spaced(t, i + 1) == Spaced(t, i) + [t[i]]
  {
    if !RunStart(t, i) {
      assert Spaced(t, i) + "" == Spaced(t, i);
    }
  }

  /** Once the whole trimmed text is spaced, the split gives the parts. */
  lemma SplitOfSpaced(s: Option<string>, buffer: string)
    requires buffer == Spaced(TrimToEmpty(s), |TrimToEmpty(s)|)
    ensures WordSplit(buffer) == WordParts(s)
    ensures forall k :: 0 <= k < |WordSplit(buffer)| ==>
              IsWordOnly(WordSplit(buffer)[k]) && CapitalRunsLead(WordSplit(buffer)[k])
    ensures Concat(WordSplit(buffer)) == WordChars(TrimToEmpty(s))
  {
    WordPartsProperties(s);
  }

  // ------------------------------------------------------- upperCamelCaseName

  /** Every part with its first character upper-cased. */
  function Capitalized(parts: seq<string>): (r: seq<string>)
    ensures |r| == |parts|
    ensures forall k :: 0 <= k < |parts| ==> r[k] == Capitalize(parts[k])
  {
    seq(|parts|, k requires 0 <= k < |parts| => Capitalize(parts[k]))
  }

  /** upperCamelCaseName: an empty or null text as it is, otherwise the parts,
      each with its first character upper-cased, run together. */
  function UpperCamel(s: Option<string>): (r: Option<string>)
    ensures r.None? <==> s.None?
    ensures IsEmpty(s) ==> r == s
  {
    if IsEmpty(s) then s else Some(Concat(Capitalized(WordParts(s))))
  }

  method UpperCamelCaseName(s: Option<string>) returns (r: Option<string>)
    ensures r == UpperCamel(s)
  {
    if IsEmpty(s) {
      return s;
    }
    var parts := SplitAtNonWordCharacters(s);
    var buffer := "";
    for i := 0 to |parts|
      invariant buffer == Concat(Capitalized(parts[..i]))
    {
      ghost var before := buffer;
      var part := parts[i];
      if |part| < 2 {
        buffer := buffer + ToUpperCase(part);
        CapitalizeShort(part);
      } else {
        buffer := buffer + ToUpperCase(part[..1]);
        buffer := buffer + part[1..];
        CapitalizeLong(before, part);
      }
      CapitalizedSnoc(parts, i);
      ConcatSnoc(Capitalized(parts[..i]), Capitalize(part));
    }
    assert parts[..|parts|] == parts;
    r := Some(buffer);
  }

  /** The short-part branch of the loop capitalizes. */
  lemma CapitalizeShort(p: string)
    requires |p| < 2
    ensures ToUpperCase(p) == Capitalize(p)
  {
    if |p| == 1 {
      assert Capitalize(p) == [ToUpperChar(p[0])] + [];
    }
  }

  /** The long-part branch of the loop capitalizes. */
  lemma CapitalizeLong(before: string, p: string)
    requires |p| >= 2
    ensures before + ToUpperCase(p[..1]) + p[1..] == before + Capitalize(p)
  {
    assert ToUpperCase(p[..1]) == [ToUpperChar(p[0])];
  }

  lemma CapitalizedSnoc(parts: seq<string>, i: nat)
    requires i < |parts|
    ensures Capitalized(parts[..i + 1]) == Capitalized(parts[..i]) + [Capitalize(parts[i])]
  {
  }

  lemma CapitalizeWord(p: string)
    requires IsWordOnly(p)
    ensures IsWordOnly(Capitalize(p))
    ensures p != [] ==> !IsAsciiLower(Capitalize(p)[0])
  {
    if p != [] {
      var c := Capitalize(p);
      assert c[0] == ToUpperChar(p[0]);
      forall j | 1 <= j < |c| ensures IsWordChar(c[j]) {
        assert c[j] == c[1..][j - 1] == p[j];
      }
    }
  }

  lemma {:induction false} ConcatCapitalized(parts: seq<string>)
    requires forall k :: 0 <= k < |parts| ==> IsWordOnly(parts[k])
    ensures IsWordOnly(Concat(Capitalized(parts)))
    ensures |Concat(Capitalized(parts))| == |Concat(parts)|
    ensures Concat(Capitalized(parts)) == "" || !IsAsciiLower(Concat(Capitalized(parts))[0])
  {
    if parts != [] {
      var cs := Capitalized(parts);
      ConcatCapitalized(parts[1..]);
      assert cs[1..] == Capitalized(parts[1..]);
      CapitalizeWord(parts[0]);
      var head, rest := cs[0], Concat(cs[1..]);
      assert Concat(cs) == head + rest;
      assert forall j :: 0 <= j < |head| ==> (head + rest)[j] == head[j];
      assert forall j :: 0 <= j < |rest| ==> (head + rest)[|head| + j] == rest[j];
    }
  }

  /** The upper camel case name is made of word characters, as many as the
      trimmed text holds, and does not start with a lower-case letter. */
  lemma UpperCamelProperties(s: Option<string>)
    requires !IsEmpty(s)
    ensures UpperCamel(s).Some?
    ensures IsWordOnly(UpperCamel(s).value)
    ensures |UpperCamel(s).value| == |WordChars(TrimToEmpty(s))|
    ensures UpperCamel(s).value == "" || !IsAsciiLower(UpperCamel(s).value[0])
  {
    WordPartsProperties(s);
    ConcatCapitalized(WordParts(s));
  }

  // ------------------------------------------------------- lowerCamelCaseName

  /** lowerCamelCaseName: uncapitalize of upperCamelCaseName. */
  function LowerCamelCaseName(s: Option<string>): (r: Option<string>)
    ensures r.None? <==> s.None?
    ensures r.Some? ==> UpperCamel(s).Some? && |r.value| == |UpperCamel(s).value|
    ensures r.Some? && r.value != "" ==> !IsAsciiUpper(r.value[0])
  {
    match UpperCamel(s)
    case None => None
    case Some(u) => Some(Uncapitalize(u))
  }

  /** Capitalizing the lower camel case name gives the upper one back. */
  lemma LowerCamelRoundTrip(s: Option<string>)
    requires s.Some?
    ensures Capitalize(LowerCamelCaseName(s).value) == UpperCamel(s).value
  {
    var u := UpperCamel(s).value;
    if IsEmpty(s) {
      assert u == "";
    } else {
      assert u == "" || !IsAsciiLower(u[0]) by {
        UpperCamelProperties(s);
      }
    }
    assert LowerCamelCaseName(s).value == Uncapitalize(u);
    CapitalizeUncapitalize(u);
  }

  lemma CapitalizeUncapitalize(u: string)
    requires u == [] || !IsAsciiLower(u[0])
    ensures Capitalize(Uncapitalize(u)) == u
  {
    if u != [] {
      assert Capitalize(Uncapitalize(u)) == [ToUpperChar(ToLowerChar(u[0]))] + u[1..];
      assert [u[0]] + u[1..] == u;
    }
  }

  // ---------------------------------------------------------------- separate

  /** The strings of xs that are not blank, in order. */
  function NonBlank(xs: seq<string>): (r: seq<string>)
    ensures |r| <= |xs|
    ensures forall k :: 0 <= k < |r| ==> !IsBlank(Some(r[k])) && r[k] in xs
  {
    if xs == [] then []
    else
      var init, last := xs[..|xs| - 1], xs[|xs| - 1];
      assert forall x :: x in init ==> x in xs;
      NonBlank(init) + (if IsBlank(Some(last)) then [] else [last])
  }

  /** What separate's loop writes for the non-final parts xs: each non-blank
      one followed by the separator. */
  function Terminated(xs: seq<string>, separator: string): string {
    if xs == [] then ""
    else
      var init, last := xs[..|xs| - 1], xs[|xs| - 1];
      Terminated(init, separator) + (if IsBlank(Some(last)) then "" else last + separator)
  }

  /** The loop's text then the final part: the non-blank parts and the final
      one, joined with the separator. */
  lemma {:induction false} TerminatedThenLast(xs: seq<string>, separator: string, last: string)
    ensures Terminated(xs, separator) + last == JoinWith(NonBlank(xs) + [last], separator)
  {
    if xs == [] {
      assert NonBlank(xs) + [last] == [last];
    } else {
      var init, y := xs[..|xs| - 1], xs[|xs| - 1];
      if IsBlank(Some(y)) {
        TerminatedThenLast(init, separator, last);
        assert Terminated(xs, separator) == Terminated(init, separator);
        assert NonBlank(xs) == NonBlank(init);
      } else {
        TerminatedThenLast(init, separator, y);
        var front := NonBlank(init) + [y];
        JoinWithSnoc(front, last, separator);
        assert NonBlank(xs) == front;
        var before := Terminated(init, separator);
        var joined := JoinWith(front, separator);
        assert before + y == joined;
        assert Terminated(xs, separator) == before + (y + separator);
        Regroup(before, y, separator, last);
      }
    }
  }

  lemma Regroup(a: string, b: string, c: string, d: string)
    ensures a + (b + c) + d == (a + b) + c + d
  {
  }

  /** separate: a blank text as it is; otherwise, when the splitter returns no
      part at all the final-part lookup is out of bounds; else the non-blank
      non-final parts and the final part, joined with the separator. */
  function Separated(s: Option<string>, separator: string): (r: Result<Option<string>>)
    ensures r.Ok? ==> (r.value.None? <==> s.None?)
  {
    if IsBlank(s) then Ok(s)
    else
      var parts := WordParts(s);
      if parts == [] then Err(IndexOutOfBounds)
      else Ok(Some(JoinWith(NonBlank(parts[..|parts| - 1]) + [parts[|parts| - 1]], separator)))
  }

  method Separate(s: Option<string>, separator: string) returns (r: Result<Option<string>>)
    ensures r == Separated(s, separator)
  {
    if IsBlank(s) {
      SeparatedCases(s, [], separator);
      return Ok(s);
    }
    var parts := SplitAtNonWordCharacters(s);
    var buffer := "";
    var i := 0;
    while i < |parts| - 1
      invariant 0 <= i <= (if parts == [] then 0 else |parts| - 1)
      invariant buffer == Terminated(parts[..i], separator)
    {
      TerminatedSnoc(parts, i, separator);
      if !IsBlank(Some(parts[i])) {
        buffer := buffer + parts[i] + separator;
      }
      i := i + 1;
    }
    SeparatedCases(s, parts, separator);
    if |parts| == 0 {
      return Err(IndexOutOfBounds);
    }
    assert i == |parts| - 1;
    ghost var text := Terminated(parts[..|parts| - 1], separator) + parts[|parts| - 1];
    buffer := buffer + parts[|parts| - 1];
    assert buffer == text;
    r := Ok(Some(buffer));
  }

  /** One more part read by separate's loop. */
  lemma {:induction false} TerminatedSnoc(parts: seq<string>, i: nat, separator: string)
    requires i < |parts|
    ensures !IsBlank(Some(parts[i])) ==>
              Terminated(parts[..i + 1], separator) == Terminated(parts[..i], separator) + parts[i] + separator
    ensures IsBlank(Some(parts[i])) ==>
              Terminated(parts[..i + 1], separator) == Terminated(parts[..i], separator)
  {
    assert parts[..i + 1][..i] == parts[..i];
  }

  /** separate's result on each of its three paths. */
  lemma {:induction false} SeparatedCases(s: Option<string>, parts: seq<string>, separator: string)
    ensures IsBlank(s) ==> Separated(s, separator) == Ok(s)
    ensures !IsBlank(s) && parts == WordParts(s) && parts == [] ==>
              Separated(s, separator) == Err(IndexOutOfBounds)
    ensures !IsBlank(s) && parts == WordParts(s) && parts != [] ==>
              Separated(s, separator)
              == Ok(Some(Terminated(parts[..|parts| - 1], separator) + parts[|parts| - 1]))
  {
    if parts != [] {
      TerminatedThenLast(parts[..|parts| - 1], separator, parts[|parts| - 1]);
    }
  }

  /** separate fails exactly on a non-blank text whose trimmed form is
      non-empty and holds no word character. */
  lemma SeparatedFails(s: Option<string>, separator: string)
    ensures Separated(s, separator).Err? <==>
              !IsBlank(s) && TrimToEmpty(s) != "" && WordChars(TrimToEmpty(s)) == ""
  {
    WordPartsProperties(s);
  }

  /** With a separator outside [A-Za-z0-9], splitting the text separate
      returns at that separator gives back the non-empty parts and the final
      one. */
  lemma SeparatedSplitsBack(s: Option<string>, c: char)
    requires !IsBlank(s) && !IsWordChar(c)
    requires Separated(s, [c]).Ok?
    ensures var parts := WordParts(s);
            && parts != []
            && Split(Separated(s, [c]).value.value, c)
               == NonBlank(parts[..|parts| - 1]) + [parts[|parts| - 1]]
  {
    var parts := WordParts(s);
    assert forall k :: 0 <= k < |parts| ==> IsWordOnly(parts[k]) by {
      WordPartsProperties(s);
    }
    KeptPartsSplitBack(parts, c);
  }

  /** The kept parts of a list of words, joined at a non-word character, split
      back into themselves when the list ends with a non-empty word or is
      the single empty one. */
  lemma KeptPartsSplitBack(parts: seq<string>, c: char)
    requires parts != [] && !IsWordChar(c)
    requires forall k :: 0 <= k < |parts| ==> IsWordOnly(parts[k])
    requires parts == [""] || parts[|parts| - 1] != ""
    ensures var xs := NonBlank(parts[..|parts| - 1]) + [parts[|parts| - 1]];
            Split(JoinWith(xs, [c]), c) == xs
  {
    var init := parts[..|parts| - 1];
    var xs := NonBlank(init) + [parts[|parts| - 1]];
    forall k | 0 <= k < |xs| ensures c !in xs[k] {
      assert xs[k] in parts by {
        if k < |xs| - 1 {
          assert xs[k] in init;
        }
      }
    }
    if |xs| > 1 {
      assert NonBlank(init) != [];
      assert |parts| > 1;
    }
    SplitOfJoin(xs, c);
  }

  // ------------------------------------------- toResourceMessageKey, toPhrase

  /** toResourceMessageKey: the trimmed text separated by dots, lower-cased. */
  function ToResourceMessageKey(s: Option<string>): (r: Result<string>)
    ensures r.Err? <==> Separated(Some(TrimToEmpty(s)), ".").Err?
    ensures r.Ok? ==> forall i :: 0 <= i < |r.value| ==> !IsAsciiUpper(r.value[i])
  {
    match Separated(Some(TrimToEmpty(s)), ".")
    case Err(e) => Err(e)
    case Ok(v) => Ok(ToLowerCase(v.value))
  }

  /** toPhrase: the text separated by spaces, capitalized: the same length as
      the separated text, its first character upper-cased and the rest kept; a
      blank text comes back as it is. */
  function ToPhrase(s: Option<string>): (r: Result<Option<string>>)
    ensures r.Err? <==> Separated(s, " ").Err?
    ensures IsBlank(s) ==> r == Ok(s)
    ensures r.Ok? && r.value.Some? && r.value.value != "" ==> !IsAsciiLower(r.value.value[0])
    ensures r.Ok? ==> var v := Separated(s, " ").value;
              && (r.value.None? <==> v.None?)
              && (v.Some? ==> |r.value.value| == |v.value|)
              && (v.Some? && v.value != [] ==>
                    r.value.value[0] == ToUpperChar(v.value[0]) && r.value.value[1..] == v.value[1..])
  {
    match Separated(s, " ")
    case Err(e) => Err(e)
    case Ok(v) =>
      if v.None? then Ok(None)
      else
        assert IsBlank(s) && v.value != [] ==> [v.value[0]] + v.value[1..] == v.value;
        Ok(Some(Capitalize(v.value)))
  }

  // ------------------------------------------------------------- suffixLines

  /** Every line followed by the suffix. */
  function Suffixed(lines: seq<string>, suffix: string): (r: seq<string>)
    ensures |r| == |lines|
    ensures forall k :: 0 <= k < |lines| ==> r[k] == lines[k] + suffix
  {
    seq(|lines|, k requires 0 <= k < |lines| => lines[k] + suffix)
  }

  /** suffixLines: each line of the trimmed text, then the suffix, then a
      line separator. */
  function SuffixedLines(m: Option<string>, suffix: string): string {
    Unlines(Suffixed(Split(TrimToEmpty(m), '\n'), suffix))
  }

  /** A trimmed text never ends with a line separator, so no line is lost. */
  lemma SplitTrimmedLines(m: Option<string>)
    ensures Split(TrimToEmpty(m), '\n') == Segments(TrimToEmpty(m), '\n')
    ensures Split(TrimToEmpty(m), '\n') != []
  {
    SplitKeepsAllSegments(TrimToEmpty(m), '\n');
  }

  method SuffixLines(m: Option<string>, suffix: string) returns (r: string)
    ensures r == SuffixedLines(m, suffix)
    ensures r != [] && r[|r| - 1] == '\n'
  {
    var lines := Split(TrimToEmpty(m), '\n');
    var buffer := "";
    for i := 0 to |lines|
      invariant buffer == Unlines(Suffixed(lines[..i], suffix))
    {
      SuffixedSnoc(lines, i, suffix);
      UnlinesSnoc(Suffixed(lines[..i], suffix), lines[i], suffix);
      buffer := buffer + lines[i];
      buffer := buffer + suffix;
      buffer := buffer + LINE_SEPARATOR;
    }
    assert lines[..|lines|] == lines;
    SplitTrimmedLines(m);
    UnlinesIsJoin(Suffixed(lines, suffix));
    r := buffer;
  }

  lemma SuffixedSnoc(lines: seq<string>, i: nat, suffix: string)
    requires i < |lines|
    ensures Suffixed(lines[..i + 1], suffix) == Suffixed(lines[..i], suffix) + [lines[i] + suffix]
  {
  }

  /** Appending a line, its suffix and a line separator writes one more line. */
  lemma {:induction false} UnlinesSnoc(done: seq<string>, line: string, suffix: string)
    ensures Unlines(done) + line + suffix + LINE_SEPARATOR == Unlines(done + [line + suffix])
  {
    UnlinesAppend(done, [line + suffix]);
    assert Unlines([line + suffix]) == line + suffix + "\n" + Unlines([]);
  }

  /** Read back line by line, the text suffixLines writes has one line per
      line of the trimmed input, that line with the suffix; and those input
      lines joined again give the trimmed input. */
  lemma SuffixLinesReadBack(m: Option<string>, suffix: string)
    requires '\n' !in suffix
    ensures JoinWith(Split(TrimToEmpty(m), '\n'), "\n") == TrimToEmpty(m)
    ensures Lines(SuffixedLines(m, suffix)) == Suffixed(Split(TrimToEmpty(m), '\n'), suffix)
  {
    var t := TrimToEmpty(m);
    SplitTrimmedLines(m);
    JoinOfSegments(t, '\n');
    var ls := Suffixed(Split(t, '\n'), suffix);
    forall k | 0 <= k < |ls| ensures '\n' !in ls[k] {
      assert ls[k] == Split(t, '\n')[k] + suffix;
    }
    LinesOfUnlines(ls);
  }

  // ------------------------------------------------------- toResourceMessage

  /** The while loop of toResourceMessage: as long as the text ends with a
      backslash, cut at its last backslash and trim. */
  function StripBackslashes(m: string): (r: string)
    ensures |r| <= |m|
    ensures !EndsWith(r, BACKSLASH)
    ensures Trim(m) == m ==> Trim(r) == r
    decreases |m|
  {
    if EndsWith(m, BACKSLASH) then
      assert Occurs(m, BACKSLASH, |m| - 1);
      var k := LastIndexOf(m, BACKSLASH);
      TrimIdempotent(m[..k]);
      StripBackslashes(Trim(m[..k]))
    else m
  }

  /** One turn of the loop: the text shrinks and strips to the same result. */
  lemma {:induction false} StripStep(m: string)
    requires EndsWith(m, BACKSLASH)
    ensures 0 <= LastIndexOf(m, BACKSLASH) < |m|
    ensures |Trim(m[..LastIndexOf(m, BACKSLASH)])| < |m|
    ensures StripBackslashes(Trim(m[..LastIndexOf(m, BACKSLASH)])) == StripBackslashes(m)
  {
    assert Occurs(m, BACKSLASH, |m| - 1);
  }

  /** toResourceMessage: null for a blank text; otherwise every line suffixed
      with " \", trimmed, and the trailing backslashes stripped. */
  function ResourceMessage(m: Option<string>): (r: Option<string>)
    ensures r.None? <==> IsBlank(m)
    ensures r.Some? ==> !EndsWith(r.value, BACKSLASH) && Trim(r.value) == r.value
  {
    if IsBlank(m) then None
    else
      var t := Trim(SuffixedLines(m, " " + BACKSLASH));
      TrimIdempotent(SuffixedLines(m, " " + BACKSLASH));
      Some(StripBackslashes(t))
  }

  method ToResourceMessage(m: Option<string>) returns (r: Option<string>)
    ensures r == ResourceMessage(m)
  {
    r := None;
    if !IsBlank(m) {
      var suffix := BACKSLASH;
      var text := SuffixLines(m, " " + suffix);
      text := Trim(text);
      ghost var message := StripBackslashes(text);
      while EndsWith(text, suffix)
        invariant StripBackslashes(text) == message
        decreases |text|
      {
        StripStep(text);
        text := Trim(text[..LastIndexOf(text, suffix)]);
      }
      r := Some(text);
    }
  }

  /** Trimming removes trailing padding and nothing of the text before it. */
  lemma {:induction false} TrimPadded(x: string, pad: string)
    requires x != [] && !IsTrimmable(x[0]) && !IsTrimmable(x[|x| - 1])
    requires forall i :: 0 <= i < |pad| ==> IsTrimmable(pad[i])
    ensures Trim(x + pad) == x
  {
    TrimStartOfTrimmed(x + pad);
    TrimEndPadded(x, pad);
  }

  lemma {:induction false} TrimEndPadded(x: string, pad: string)
    requires x != [] && !IsTrimmable(x[|x| - 1])
    requires forall i :: 0 <= i < |pad| ==> IsTrimmable(pad[i])
    ensures TrimEnd(x + pad) == x
  {
    if pad == [] {
      assert x + pad == x;
      TrimEndOfTrimmed(x);
    } else {
      var p := pad[..|pad| - 1];
      assert (x + pad)[..|x + pad| - 1] == x + p;
      TrimEndPadded(x, p);
    }
  }

  /** A single trimmed line that does not end with a backslash is its own
      resource message. */
  lemma ResourceMessageOfOneLine(t: string)
    requires !IsBlank(Some(t)) && '\n' !in t
    requires t != [] && !IsTrimmable(t[0]) && !IsTrimmable(t[|t| - 1])
    requires t[|t| - 1] != '\\'
    ensures ResourceMessage(Some(t)) == Some(t)
  {
    var suffixed := t + (" " + BACKSLASH);
    OneLineSuffixed(t);
    TrimPadded(suffixed, "\n");
    OneLineStripped(t);
  }

  lemma OneLineSuffixed(t: string)
    requires '\n' !in t
    requires t != [] && !IsTrimmable(t[0]) && !IsTrimmable(t[|t| - 1])
    ensures SuffixedLines(Some(t), " " + BACKSLASH) == (t + (" " + BACKSLASH)) + "\n"
  {
    TrimOfTrimmed(t);
    var suffixed := t + (" " + BACKSLASH);
    assert Split(t, '\n') == [t];
    assert Suffixed([t], " " + BACKSLASH) == [suffixed];
    assert Unlines([suffixed]) == suffixed + "\n" + Unlines([]);
  }

  /** The message of any text whose trimmed form does not end with a
      backslash: every line but the last keeps its " \" suffix, and the loop
      takes the suffix off the last line. */
  lemma ResourceMessageOfLines(m: Option<string>)
    requires !IsBlank(m)
    requires !EndsWith(TrimToEmpty(m), BACKSLASH)
    ensures var ls := Split(TrimToEmpty(m), '\n');
            && ls != []
            && ResourceMessage(m)
               == Some(JoinWith(Suffixed(ls[..|ls| - 1], " " + BACKSLASH) + [ls[|ls| - 1]], "\n"))
  {
    ResourceMessageUnfolds(m);
    MessageOfTrimmed(TrimToEmpty(m));
  }

  lemma ResourceMessageUnfolds(m: Option<string>)
    requires !IsBlank(m)
    ensures ResourceMessage(m)
            == Some(StripBackslashes(Trim(Unlines(Suffixed(Split(TrimToEmpty(m), '\n'), " " + BACKSLASH)))))
  {
  }

  /** The loop's work on a trimmed text that does not end with a backslash. */
  lemma MessageOfTrimmed(t: string)
    requires t == [] || (!IsTrimmable(t[0]) && !IsTrimmable(t[|t| - 1]))
    requires !EndsWith(t, BACKSLASH)
    ensures Split(t, '\n') != []
    ensures StripBackslashes(Trim(Unlines(Suffixed(Split(t, '\n'), " " + BACKSLASH))))
            == KeptSuffixes(Split(t, '\n'))
  {
    SplitKeepsAllSegments(t, '\n');
    if t == [] {
      TrimmedAwayMessage();
    } else {
      NoFinalBackslash(t);
      LinesOfTrimmed(t);
      SuffixedAllButLast(Split(t, '\n'));
    }
  }

  lemma NoFinalBackslash(t: string)
    requires t != [] && !EndsWith(t, BACKSLASH)
    ensures t[|t| - 1] != '\\'
  {
    assert t[|t| - 1..] == [t[|t| - 1]];
  }

  /** The empty trimmed text gives the empty message. A text that is not blank
      trims to it when it holds only spaces and control characters. */
  lemma TrimmedAwayMessage()
    ensures StripBackslashes(Trim(Unlines(Suffixed(Split("", '\n'), " " + BACKSLASH)))) == ""
    ensures KeptSuffixes(Split("", '\n')) == ""
  {
    assert Split("", '\n') == [""];
    assert Suffixed([""], " " + BACKSLASH) == [" " + BACKSLASH] by {
      assert "" + (" " + BACKSLASH) == " " + BACKSLASH;
    }
    var u := Unlines([" " + BACKSLASH]);
    assert u == " \\\n" by {
      assert Unlines([" " + BACKSLASH]) == " " + BACKSLASH + "\n" + Unlines([]);
    }
    assert TrimStart(u) == "\\\n" by {
      assert u[1..] == "\\\n";
    }
    assert TrimEnd("\\\n") == "\\" by {
      assert "\\\n"[..1] == "\\";
    }
    assert StripBackslashes("\\") == "" by {
      StripStep("\\");
      assert Occurs("\\", BACKSLASH, 0);
    }
    assert Suffixed([], " " + BACKSLASH) + [""] == [""];
  }

  /** The lines of a trimmed text: the first starts with the text's first
      character, the last ends with its last character. */
  lemma LinesOfTrimmed(t: string)
    requires t != [] && !IsTrimmable(t[0]) && !IsTrimmable(t[|t| - 1])
    ensures var ls := Segments(t, '\n');
            && ls[0] != "" && ls[0][0] == t[0]
            && ls[|ls| - 1] != "" && ls[|ls| - 1][|ls[|ls| - 1]| - 1] == t[|t| - 1]
  {
    SegmentsLastNonEmpty(t, '\n');
    JoinOfSegments(t, '\n');
    JoinWithLast(Segments(t, '\n'), "\n");
  }

  /** All lines but the last with the " \" suffix, then the last line as it
      is, joined by line separators. */
  function KeptSuffixes(ls: seq<string>): string
    requires ls != []
  {
    JoinWith(Suffixed(ls[..|ls| - 1], " " + BACKSLASH) + [ls[|ls| - 1]], "\n")
  }

  /** Suffixing every line of a trimmed text, joining, trimming and stripping
      the backslashes leaves all lines but the last suffixed. */
  lemma SuffixedAllButLast(ls: seq<string>)
    requires ls != [] && ls[0] != "" && !IsTrimmable(ls[0][0])
    requires ls[|ls| - 1] != ""
    requires !IsTrimmable(ls[|ls| - 1][|ls[|ls| - 1]| - 1])
    requires ls[|ls| - 1][|ls[|ls| - 1]| - 1] != '\\'
    ensures StripBackslashes(Trim(Unlines(Suffixed(ls, " " + BACKSLASH)))) == KeptSuffixes(ls)
  {
    var p := KeptSuffixes(ls);
    SuffixedJoin(ls);
    KeptSuffixesEnds(ls);
    UnlinesIsJoin(Suffixed(ls, " " + BACKSLASH));
    SuffixedTrim(p);
    OneLineStripped(p);
  }

  /** Joined, the suffixed lines are the kept suffixes and one more. */
  lemma SuffixedJoin(ls: seq<string>)
    requires ls != []
    ensures JoinWith(Suffixed(ls, " " + BACKSLASH), "\n") == KeptSuffixes(ls) + (" " + BACKSLASH)
  {
    var suffix := " " + BACKSLASH;
    var n := |ls|;
    var init := Suffixed(ls[..n - 1], suffix);
    assert Suffixed(ls, suffix) == init + [ls[n - 1] + suffix];
    JoinWithExtendLast(init, ls[n - 1], suffix, "\n");
  }

  /** The kept suffixes start with the first line's first character and end
      with the last line's last character. */
  lemma KeptSuffixesEnds(ls: seq<string>)
    requires ls != [] && ls[0] != "" && ls[|ls| - 1] != ""
    ensures var p := KeptSuffixes(ls);
            && p != [] && p[0] == ls[0][0]
            && p[|p| - 1] == ls[|ls| - 1][|ls[|ls| - 1]| - 1]
  {
    var n := |ls|;
    var xs := Suffixed(ls[..n - 1], " " + BACKSLASH) + [ls[n - 1]];
    assert xs[0] != "" && xs[0][0] == ls[0][0];
    JoinWithHead(xs, "\n");
    JoinWithLast(xs, "\n");
  }

  /** Trim takes the final line separator off the suffixed text. */
  lemma SuffixedTrim(p: string)
    requires p != [] && !IsTrimmable(p[0])
    ensures Trim(p + (" " + BACKSLASH) + "\n") == p + (" " + BACKSLASH)
  {
    assert (p + (" " + BACKSLASH))[0] == p[0];
    TrimPadded(p + (" " + BACKSLASH), "\n");
  }

  lemma TrimOfTrimmed(t: string)
    requires t != [] && !IsTrimmable(t[0]) && !IsTrimmable(t[|t| - 1])
    ensures TrimToEmpty(Some(t)) == t
  {
    TrimStartOfTrimmed(t);
    TrimEndOfTrimmed(t);
  }

  lemma LastBackslash(t: string)
    ensures LastIndexOf(t + (" " + BACKSLASH), BACKSLASH) == |t| + 1
  {
    assert Occurs(t + (" " + BACKSLASH), BACKSLASH, |t| + 1);
  }

  lemma {:induction false} OneLineStripped(t: string)
    requires t != [] && !IsTrimmable(t[0]) && !IsTrimmable(t[|t| - 1])
    requires t[|t| - 1] != '\\'
    ensures StripBackslashes(t + (" " + BACKSLASH)) == t
  {
    var suffixed := t + (" " + BACKSLASH);
    assert EndsWith(suffixed, BACKSLASH) by {
      assert suffixed[|suffixed| - 1..] == BACKSLASH;
    }
    StripStep(suffixed);
    LastBackslash(t);
    TrimOfSpaced(t);
    NothingToStrip(t);
  }

  /** Cutting the suffixed line at its backslash and trimming gives the line. */
  lemma TrimOfSpaced(t: string)
    requires t != [] && !IsTrimmable(t[0]) && !IsTrimmable(t[|t| - 1])
    ensures Trim((t + (" " + BACKSLASH))[..|t| + 1]) == t
  {
    assert (t + (" " + BACKSLASH))[..|t| + 1] == t + " ";
    TrimPadded(t, " ");
  }

  /** A text that does not end with a backslash is left as it is. */
  lemma {:induction false} NothingToStrip(t: string)
    requires t != [] && t[|t| - 1] != '\\'
    ensures StripBackslashes(t) == t
  {
    assert !EndsWith(t, BACKSLASH) by {
      assert t[|t| - 1..] == [t[|t| - 1]];
    }
  }

  // ---------------------------------------------------- prefixWithAPredicate

  /** The first letters that take "an". */
  predicate TakesAn(c: char) {
    c == 'a' || c == 'e' || c == 'i' || c == 'o'
  }

  /** prefixWithAPredicate: "an " before a word starting with a, e, i or o,
      "a " before any other; charAt(0) throws on a null or empty word. */
  method PrefixWithAPredicate(word: Option<string>) returns (r: Result<string>)
    ensures word.None? ==> r == Err(NullPointer)
    ensures word == Some("") ==> r == Err(IndexOutOfBounds)
    ensures !IsEmpty(word) ==>
              && r.Ok?
              && EndsWith(r.value, word.value)
              && r.value[..|r.value| - |word.value|] == (if TakesAn(word.value[0]) then "an " else "a ")
  {
    if word.None? {
      return Err(NullPointer);
    }
    var w := word.value;
    var buffer := "a ";
    buffer := buffer + w;
    if w == "" {
      return Err(IndexOutOfBounds);
    }
    if TakesAn(w[0]) {
      buffer := buffer[..1] + "n" + buffer[1..];
      assert buffer == "an " + w;
    }
    assert buffer[|buffer| - |w|..] == w;
    r := Ok(buffer);
  }

  // ------------------------------------------------------------- toSingleLine

  /** The regular-expression class [$\s]: '$' and Java's \s, [ \t\n\x0B\f\r]. */
  predicate IsSpaceOrDollar(c: char) {
    c == '$' || c == ' ' || '\t' <= c <= '\r'
  }

  function DropSpaceRun(s: string): (r: string)
    ensures |r| <= |s|
    ensures r == [] || !IsSpaceOrDollar(r[0])
    ensures s == [] || !IsSpaceOrDollar(s[0]) ==> r == s
  {
    if s != [] && IsSpaceOrDollar(s[0]) then DropSpaceRun(s[1..]) else s
  }

  /** The shape replaceAll("[$\\s]+", " ") leaves: of the class only the space
      is left, and no two spaces are adjacent. */
  predicate SingleLineForm(x: string) {
    && (forall i :: 0 <= i < |x| && IsSpaceOrDollar(x[i]) ==> x[i] == ' ')
    && (forall i :: 0 < i < |x| && x[i] == ' ' ==> x[i - 1] != ' ')
  }

  /** replaceAll("[$\\s]+", " "): every maximal run of the class becomes one space. */
  function CollapseRuns(s: string): (r: string)
    ensures SingleLineForm(r)
    ensures r != [] && r[0] == ' ' ==> s != [] && IsSpaceOrDollar(s[0])
    decreases |s|
  {
    if s == [] then ""
    else if IsSpaceOrDollar(s[0]) then
      var rest := CollapseRuns(DropSpaceRun(s[1..]));
      assert forall i :: 0 < i < |" " + rest| ==> (" " + rest)[i] == rest[i - 1];
      " " + rest
    else
      var rest := CollapseRuns(s[1..]);
      assert forall i :: 0 < i < |[s[0]] + rest| ==> ([s[0]] + rest)[i] == rest[i - 1];
      [s[0]] + rest
  }

  /** Any window of a text in single-line form is in single-line form. */
  lemma SingleLineWindow(x: string, o: nat, n: nat)
    requires o + n <= |x| && SingleLineForm(x)
    ensures SingleLineForm(x[o..o + n])
  {
    var w := x[o..o + n];
    forall i | 0 <= i < |w| ensures w[i] == x[o + i] {
    }
  }

  /** Single-line form has no line separator. */
  lemma NoBreakInSingleLine(x: string)
    requires SingleLineForm(x)
    ensures '\n' !in x
  {
    if '\n' in x {
      var i :| 0 <= i < |x| && x[i] == '\n';
      assert IsSpaceOrDollar(x[i]);
    }
  }

  /** toSingleLine: "" for null; otherwise the runs collapsed and the result
      trimmed: a single line in single-line form, trimmed. */
  function ToSingleLine(s: Option<string>): (r: string)
    ensures s.None? ==> r == ""
    ensures '\n' !in r
    ensures SingleLineForm(r)
    ensures r == [] || (!IsTrimmable(r[0]) && !IsTrimmable(r[|r| - 1]))
  {
    if s.None? then ""
    else
      var c := CollapseRuns(s.value);
      TrimmedSingleLine(c);
      Trim(c)
  }

  /** Trimming keeps the single-line form and leaves no break behind. */
  lemma TrimmedSingleLine(c: string)
    requires SingleLineForm(c)
    ensures SingleLineForm(Trim(c))
    ensures '\n' !in Trim(c)
    ensures Trim(c) == [] || (!IsTrimmable(Trim(c)[0]) && !IsTrimmable(Trim(c)[|Trim(c)| - 1]))
  {
    TrimIsWindow(c);
    SingleLineWindow(c, TrimOffset(c), |Trim(c)|);
    NoBreakInSingleLine(Trim(c));
  }

  /** Text already in single-line form has no runs left to collapse. */
  lemma {:induction false} CollapseOfCollapsed(x: string)
    requires SingleLineForm(x)
    ensures CollapseRuns(x) == x
  {
    if x != [] {
      var rest := x[1..];
      SingleLineWindow(x, 1, |rest|);
      assert x[1..1 + |rest|] == rest;
      CollapseOfCollapsed(rest);
      if IsSpaceOrDollar(x[0]) {
        assert rest == [] || !IsSpaceOrDollar(rest[0]) by {
          if rest != [] {
            assert rest[0] == x[1];
          }
        }
      }
      assert x == [x[0]] + rest;
    }
  }

  /** toSingleLine is idempotent. */
  lemma ToSingleLineIdempotent(s: Option<string>)
    ensures ToSingleLine(Some(ToSingleLine(s))) == ToSingleLine(s)
  {
    var r := ToSingleLine(s);
    CollapseOfCollapsed(r);
    TrimStartOfTrimmed(r);
    TrimEndOfTrimmed(r);
  }

  /** The text without the characters of the class [$\s]: what the collapsing
      leaves untouched. */
  function Keep(s: string): (r: string)
    ensures |r| <= |s|
    ensures forall i :: 0 <= i < |r| ==> !IsSpaceOrDollar(r[i])
  {
    if s == [] then ""
    else if IsSpaceOrDollar(s[0]) then Keep(s[1..])
    else
      var rest := Keep(s[1..]);
      assert forall i :: 0 < i < |[s[0]] + rest| ==> ([s[0]] + rest)[i] == rest[i - 1];
      [s[0]] + rest
  }

  lemma {:induction false} KeepAppend(a: string, b: string)
    ensures Keep(a + b) == Keep(a) + Keep(b)
  {
    if a == [] {
      assert a + b == b;
    } else {
      assert (a + b)[0] == a[0];
      assert (a + b)[1..] == a[1..] + b;
      KeepAppend(a[1..], b);
      if !IsSpaceOrDollar(a[0]) {
        assert [a[0]] + (Keep(a[1..]) + Keep(b)) == ([a[0]] + Keep(a[1..])) + Keep(b);
      }
    }
  }

  /** Dropping a run of the class drops nothing that is kept. */
  lemma {:induction false} KeepDropSpaceRun(s: string)
    ensures Keep(DropSpaceRun(s)) == Keep(s)
  {
    if s != [] && IsSpaceOrDollar(s[0]) {
      KeepDropSpaceRun(s[1..]);
    }
  }

  /** replaceAll("[$\\s]+", " ") changes only the characters of the class:
      every other character stays, in order. */
  lemma {:induction false} CollapseKeeps(s: string)
    ensures Keep(CollapseRuns(s)) == Keep(s)
    decreases |s|
  {
    if s != [] {
      if IsSpaceOrDollar(s[0]) {
        var d := DropSpaceRun(s[1..]);
        CollapseKeeps(d);
        KeepDropSpaceRun(s[1..]);
        var c := " " + CollapseRuns(d);
        assert c[0] == ' ' && c[1..] == CollapseRuns(d);
      } else {
        CollapseKeeps(s[1..]);
        var c := [s[0]] + CollapseRuns(s[1..]);
        assert c[0] == s[0] && c[1..] == CollapseRuns(s[1..]);
      }
    }
  }

  /** Every character is of the class [$\s]. */
  predicate AllSpaceOrDollar(r: string) {
    forall i :: 0 <= i < |r| ==> IsSpaceOrDollar(r[i])
  }

  /** A run of the class is dropped up to the first character outside it. */
  lemma {:induction false} DropWholeRun(r: string, q: string)
    requires AllSpaceOrDollar(r)
    requires q == [] || !IsSpaceOrDollar(q[0])
    ensures DropSpaceRun(r + q) == q
  {
    if r == [] {
      assert r + q == q;
    } else {
      assert (r + q)[0] == r[0];
      assert (r + q)[1..] == r[1..] + q;
      assert AllSpaceOrDollar(r[1..]) by {
        assert forall i :: 0 <= i < |r[1..]| ==> r[1..][i] == r[i + 1];
      }
      DropWholeRun(r[1..], q);
    }
  }

  /** A run that ends within s is dropped within s: what follows is kept, and
      what is left of s still ends as s does. */
  lemma {:induction false} DropRunWithin(s: string, y: string)
    requires s != [] && !IsSpaceOrDollar(s[|s| - 1])
    ensures DropSpaceRun(s + y) == DropSpaceRun(s) + y
    ensures DropSpaceRun(s) != [] && DropSpaceRun(s)[|DropSpaceRun(s)| - 1] == s[|s| - 1]
  {
    assert (s + y)[0] == s[0];
    if IsSpaceOrDollar(s[0]) {
      assert |s| > 1;
      assert (s + y)[1..] == s[1..] + y;
      assert s[1..][|s[1..]| - 1] == s[|s| - 1];
      DropRunWithin(s[1..], y);
    }
  }

  /** Collapsing distributes over a text that does not end inside a run. */
  lemma {:induction false} CollapseAppend(p: string, y: string)
    requires p == [] || !IsSpaceOrDollar(p[|p| - 1])
    ensures CollapseRuns(p + y) == CollapseRuns(p) + CollapseRuns(y)
    decreases |p|, 1
  {
    if p == [] {
      assert p + y == y;
    } else if IsSpaceOrDollar(p[0]) {
      CollapseAppendRun(p, y);
    } else {
      CollapseAppendPlain(p, y);
    }
  }

  /** The step of CollapseAppend for a text that opens with a run. */
  lemma {:induction false} CollapseAppendRun(p: string, y: string)
    requires p != [] && IsSpaceOrDollar(p[0]) && !IsSpaceOrDollar(p[|p| - 1])
    ensures CollapseRuns(p + y) == CollapseRuns(p) + CollapseRuns(y)
    decreases |p|, 0
  {
    var a := p[1..];
    var d := DropSpaceRun(a);
    assert a != [] && !IsSpaceOrDollar(a[|a| - 1]) by {
      assert |p| > 1 && a[|a| - 1] == p[|p| - 1];
    }
    assert CollapseRuns(p + y) == " " + CollapseRuns(d + y) by {
      assert (p + y)[0] == p[0] && (p + y)[1..] == a + y;
      CollapseOfRunHead(p + y);
      DropRunWithin(a, y);
    }
    assert CollapseRuns(p) == " " + CollapseRuns(d) by {
      CollapseOfRunHead(p);
    }
    assert d != [] && !IsSpaceOrDollar(d[|d| - 1]) by {
      DropRunWithin(a, y);
    }
    CollapseAppend(d, y);
    TextAssoc(" ", CollapseRuns(d), CollapseRuns(y));
  }

  /** The step of CollapseAppend for a text that opens outside the class. */
  lemma {:induction false} CollapseAppendPlain(p: string, y: string)
    requires p != [] && !IsSpaceOrDollar(p[0]) && !IsSpaceOrDollar(p[|p| - 1])
    ensures CollapseRuns(p + y) == CollapseRuns(p) + CollapseRuns(y)
    decreases |p|, 0
  {
    var a := p[1..];
    assert (p + y)[0] == p[0] && (p + y)[1..] == a + y;
    if |p| > 1 {
      assert a[|a| - 1] == p[|p| - 1];
    }
    CollapseOfPlainHead(p + y);
    CollapseOfPlainHead(p);
    CollapseAppend(a, y);
    TextAssoc([p[0]], CollapseRuns(a), CollapseRuns(y));
  }

  lemma TextAssoc(a: string, b: string, c: string)
    ensures a + (b + c) == (a + b) + c
  {
  }

  lemma CollapseOfRunHead(s: string)
    requires s != [] && IsSpaceOrDollar(s[0])
    ensures CollapseRuns(s) == " " + CollapseRuns(DropSpaceRun(s[1..]))
  {
  }

  lemma CollapseOfPlainHead(s: string)
    requires s != [] && !IsSpaceOrDollar(s[0])
    ensures CollapseRuns(s) == [s[0]] + CollapseRuns(s[1..])
  {
  }

  /** replaceAll("[$\\s]+", " ") turns each maximal run of the class into
      exactly one space, and collapses the text on either side of it on its
      own. */
  lemma {:induction false} CollapseRunToSpace(p: string, r: string, q: string)
    requires r != [] && AllSpaceOrDollar(r)
    requires p == [] || !IsSpaceOrDollar(p[|p| - 1])
    requires q == [] || !IsSpaceOrDollar(q[0])
    ensures CollapseRuns(p + r + q) == CollapseRuns(p) + " " + CollapseRuns(q)
  {
    assert p + r + q == p + (r + q);
    CollapseAppend(p, r + q);
    CollapseOfRun(r, q);
    TextAssoc(CollapseRuns(p), " ", CollapseRuns(q));
  }

  /** A leading run of the class collapses to one space. */
  lemma {:induction false} CollapseOfRun(r: string, q: string)
    requires r != [] && AllSpaceOrDollar(r)
    requires q == [] || !IsSpaceOrDollar(q[0])
    ensures CollapseRuns(r + q) == " " + CollapseRuns(q)
  {
    assert (r + q)[0] == r[0];
    assert (r + q)[1..] == r[1..] + q;
    assert AllSpaceOrDollar(r[1..]) by {
      assert forall i :: 0 <= i < |r[1..]| ==> r[1..][i] == r[i + 1];
    }
    DropWholeRun(r[1..], q);
  }

  /** Two words that trim would leave alone, with any run of the class between
      them, single-line to the two words and one space. */
  lemma {:induction false} ToSingleLineOfTwoWords(p: string, r: string, q: string)
    requires r != [] && AllSpaceOrDollar(r)
    requires forall i :: 0 <= i < |p| ==> !IsSpaceOrDollar(p[i])
    requires forall i :: 0 <= i < |q| ==> !IsSpaceOrDollar(q[i])
    requires p != [] && !IsTrimmable(p[0]) && q != [] && !IsTrimmable(q[|q| - 1])
    ensures ToSingleLine(Some(p + r + q)) == p + " " + q
  {
    CollapseRunToSpace(p, r, q);
    CollapseOfCollapsed(p);
    CollapseOfCollapsed(q);
    var x := p + " " + q;
    assert x[0] == p[0] && x[|x| - 1] == q[|q| - 1];
    TrimStartOfTrimmed(x);
    TrimEndOfTrimmed(x);
  }

  /** Without '$', every character of the class is one trim removes, so
      trimming and keeping can be done in either order. */
  lemma KeepTrim(c: string)
    requires '$' !in c
    ensures Keep(Trim(c)) == Trim(Keep(c))
  {
    KeepTrimStart(c);
    var t := TrimStart(c);
    assert '$' !in t by {
      assert t == c[|c| - |t|..];
    }
    KeepTrimEnd(t);
  }

  lemma {:induction false} KeepTrimStart(c: string)
    requires '$' !in c
    ensures Keep(TrimStart(c)) == TrimStart(Keep(c))
  {
    if c != [] {
      assert '$' !in c[1..] by {
        assert c == [c[0]] + c[1..];
      }
      if IsTrimmable(c[0]) {
        KeepTrimStart(c[1..]);
        if !IsSpaceOrDollar(c[0]) {
          var k := [c[0]] + Keep(c[1..]);
          assert k[0] == c[0] && k[1..] == Keep(c[1..]);
        }
      } else {
        assert !IsSpaceOrDollar(c[0]);
        var k := [c[0]] + Keep(c[1..]);
        assert k[0] == c[0];
      }
    }
  }

  lemma {:induction false} KeepTrimEnd(c: string)
    requires '$' !in c
    ensures Keep(TrimEnd(c)) == TrimEnd(Keep(c))
  {
    if c != [] {
      var init, last := c[..|c| - 1], c[|c| - 1];
      assert c == init + [last];
      assert '$' !in init;
      KeepSnoc(init, last);
      if IsTrimmable(last) {
        KeepTrimEnd(init);
        if !IsSpaceOrDollar(last) {
          TrimEndDropsLast(Keep(init), last);
        }
      } else {
        assert !IsSpaceOrDollar(last);
        var k := Keep(init) + [last];
        assert k[|k| - 1] == last;
      }
    }
  }

  lemma KeepSnoc(init: string, last: char)
    ensures IsSpaceOrDollar(last) ==> Keep(init + [last]) == Keep(init)
    ensures !IsSpaceOrDollar(last) ==> Keep(init + [last]) == Keep(init) + [last]
  {
    KeepAppend(init, [last]);
    assert [last][1..] == [];
    assert Keep(init) + [] == Keep(init);
  }

  lemma TrimEndDropsLast(k: string, last: char)
    requires IsTrimmable(last)
    ensures TrimEnd(k + [last]) == TrimEnd(k)
  {
    assert (k + [last])[..|k|] == k;
  }

  /** Single-line form holds no '$'. */
  lemma NoDollarInSingleLine(x: string)
    requires SingleLineForm(x)
    ensures '$' !in x
  {
    if '$' in x {
      var i :| 0 <= i < |x| && x[i] == '$';
      assert IsSpaceOrDollar(x[i]);
    }
  }

  /** toSingleLine keeps every character outside [$\s], in order, and drops
      from the ends only characters trim removes. */
  lemma ToSingleLineKeeps(s: Option<string>)
    ensures s.Some? ==> Keep(ToSingleLine(s)) == Trim(Keep(s.value))
  {
    if s.Some? {
      var c := CollapseRuns(s.value);
      CollapseKeeps(s.value);
      NoDollarInSingleLine(c);
      KeepTrim(c);
    }
  }

  // ------------------------------------------------------------------ format

  /** Where format(plainText, indentation, wrapAtColumn, htmlStyle) goes once
      its guard clauses have run. */
  datatype Formatting =
    | Returned(text: string)
      // a guard returned this text
    | Wraps(plainText: string, indentation: string, wrapAtColumn: int, htmlStyle: bool)
      // the line-wrapping body runs on these arguments

  /** The guard clauses of the four-argument format: a column below 1 is an
      illegal argument, a null indentation is the empty one, a blank text
      yields the indentation. */
  function FormatGuards(plainText: Option<string>, indentation: Option<string>, wrapAtColumn: int,
                        htmlStyle: bool): (r: Result<Formatting>)
    ensures r.Err? <==> wrapAtColumn < 1
    ensures r.Err? ==> r.error == IllegalArgument
    ensures r.Ok? && IsBlank(plainText) ==>
              r.value == Returned(if indentation.None? then "" else indentation.value)
    ensures r.Ok? && !IsBlank(plainText) ==>
              && r.value == Wraps(plainText.value, if indentation.None? then "" else indentation.value,
                                  wrapAtColumn, htmlStyle)
              && r.value.wrapAtColumn >= 1
  {
    if wrapAtColumn < 1 then Err(IllegalArgument)
    else
      var indent := if indentation.None? then "" else indentation.value;
      if IsBlank(plainText) then Ok(Returned(indent))
      else Ok(Wraps(plainText.value, indent, wrapAtColumn, htmlStyle))
  }

  /** format(plainText, indentation, wrapAtColumn): the HTML style. */
  function FormatAtColumn(plainText: Option<string>, indentation: Option<string>, wrapAtColumn: int)
    : (r: Result<Formatting>)
    ensures r.Err? <==> wrapAtColumn < 1
    ensures r.Ok? && IsBlank(plainText) ==>
              r.value == Returned(if indentation.None? then "" else indentation.value)
    ensures r.Ok? && !IsBlank(plainText) ==>
              r.value == Wraps(plainText.value, if indentation.None? then "" else indentation.value,
                               wrapAtColumn, true)
  {
    FormatGuards(plainText, indentation, wrapAtColumn, true)
  }

  /** The margin the indenting format counts the indentation against. */
  const MARGIN: int := 100

  /** format(plainText, indentation): HTML style, wrapping at the margin less
      the indentation; a null indentation throws when its length is read. */
  function FormatIndented(plainText: Option<string>, indentation: Option<string>): (r: Result<Formatting>)
    ensures r == Err(NullPointer) <==> indentation.None?
    ensures r == Err(IllegalArgument) <==> indentation.Some? && |indentation.value| >= MARGIN
    ensures r.Ok? && IsBlank(plainText) ==> r.value == Returned(indentation.value)
    ensures r.Ok? && !IsBlank(plainText) ==>
              r.value == Wraps(plainText.value, indentation.value, MARGIN - |indentation.value|, true)
  {
    if indentation.None? then Err(NullPointer)
    else FormatAtColumn(plainText, indentation, MARGIN - |indentation.value|)
  }

  /** format(plainText): never fails; wraps at the full margin. */
  function FormatPlain(plainText: Option<string>): (r: Result<Formatting>)
    ensures r.Ok?
    ensures IsBlank(plainText) ==> r.value == Returned("")
    ensures !IsBlank(plainText) ==> r.value == Wraps(plainText.value, "", MARGIN, true)
  {
    FormatIndented(plainText, Some(""))
  }

  // ------------------------------------------- startsWith{Lower,Upper}caseLetter

  /** startsWithLowercaseLetter: null for a null or empty text. */
  function StartsWithLowercaseLetter(s: Option<string>): (r: Option<bool>)
    ensures r.None? <==> IsEmpty(s)
    ensures r.Some? ==> (r.value <==> IsAsciiLower(s.value[0]))
  {
    if s.None? || |s.value| < 1 then None else Some(IsAsciiLower(s.value[0]))
  }

  /** startsWithUppercaseLetter as written: null for a null text, but the
      empty text reaches substring(0, 1), which throws. */
  function StartsWithUppercaseLetterAsWritten(s: Option<string>): (r: Result<Option<bool>>)
    ensures s.None? ==> r == Ok(None)
    ensures s == Some("") ==> r == Err(IndexOutOfBounds)
    ensures !IsEmpty(s) ==> r.Ok? && r.value.Some? && (r.value.value <==> IsAsciiUpper(s.value[0]))
  {
    if s.None? then Ok(None)
    else if |s.value| < 1 then Err(IndexOutOfBounds)
    else Ok(Some(IsAsciiUpper(s.value[0])))
  }

  /** On the empty text the two checks part ways: one answers null, the
      other throws. */
  lemma StartsWithOnEmptyText()
    ensures StartsWithLowercaseLetter(Some("")) == None
    ensures StartsWithUppercaseLetterAsWritten(Some("")) == Err(IndexOutOfBounds)
  {
  }

  /** startsWithUppercaseLetter with the emptiness guard of its sibling. */
  function StartsWithUppercaseLetter(s: Option<string>): (r: Option<bool>)
    ensures r.None? <==> IsEmpty(s)
    ensures r.Some? ==> (r.value <==> IsAsciiUpper(s.value[0]))
  {
    if s.None? || |s.value| < 1 then None else Some(IsAsciiUpper(s.value[0]))
  }

  /** The corrected check agrees with the written one wherever that one does
      not throw, and no text starts with both an upper- and a lower-case
      letter. */
  lemma StartsWithUppercaseLetterAgrees(s: Option<string>)
    requires s != Some("")
    ensures StartsWithUppercaseLetterAsWritten(s) == Ok(StartsWithUppercaseLetter(s))
    ensures !IsEmpty(s) ==> !(StartsWithUppercaseLetter(s).value && StartsWithLowercaseLetter(s).value)
  {
  }
}
