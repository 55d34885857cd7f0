/**
 * The parts of the Java platform and of commons-lang that the cartridge's
 * string code relies on, stated over `seq<char>`: null as `Option`, thrown
 * exceptions as `Result`, `String.trim`, `Character.isWhitespace`, ASCII case
 * mapping, `endsWith`/`lastIndexOf`, joining, and `String.split` with a
 * one-character pattern (trailing empty strings dropped).
 */
module JavaLang {

  /** A Java reference that may be null. */
  datatype Option<+T> = None | Some(value: T)

  /** The unchecked exceptions the modelled code can raise. */
  datatype Exception =
    | NullPointer
    | IndexOutOfBounds   // StringIndexOutOfBoundsException, ArrayIndexOutOfBoundsException
    | NoSuchElement      // Iterator.next() past the end
    | ClassCast
    | IllegalArgument

  /** A value, or the exception the Java code throws instead. */
  datatype Result<+T> = Ok(value: T) | Err(error: Exception)

  /** Completion of a void Java method. */
  datatype Outcome = Pass | Fail(error: Exception)

  // ---------------------------------------------------------------- characters

  /** Character.isWhitespace (Unicode 6.3 and later): separators except the
      non-breaking ones, and the ASCII controls TAB..CR and FS..US. */
  predicate IsWhitespace(c: char) {
    || ('\t' <= c <= '\r')
    || ('\U{1C}' <= c <= '\U{1F}')
    || c == ' '
    || c == '\U{1680}'
    || ('\U{2000}' <= c <= '\U{2006}')
    || ('\U{2008}' <= c <= '\U{200A}')
    || c == '\U{2028}' || c == '\U{2029}'
    || c == '\U{205F}' || c == '\U{3000}'
  }

  /** The characters String.trim removes: every code point up to U+0020. */
  predicate IsTrimmable(c: char) { c <= ' ' }

  predicate IsAsciiUpper(c: char) { 'A' <= c <= 'Z' }
  predicate IsAsciiLower(c: char) { 'a' <= c <= 'z' }
  predicate IsAsciiDigit(c: char) { '0' <= c <= '9' }
  predicate IsAsciiLetter(c: char) { IsAsciiUpper(c) || IsAsciiLower(c) }

  /** Membership in the regular-expression class [A-Za-z0-9]. */
  predicate IsWordChar(c: char) { IsAsciiLetter(c) || IsAsciiDigit(c) }

  predicate IsWordOnly(s: string) {
    forall i :: 0 <= i < |s| ==> IsWordChar(s[i])
  }

  function ToUpperChar(c: char): (r: char)
    ensures !IsAsciiLower(r)
    ensures IsAsciiLower(c) ==> IsAsciiUpper(r)
    ensures !IsAsciiLower(c) ==> r == c
  {
    if IsAsciiLower(c) then (c as int - 32) as char else c
  }

  function ToLowerChar(c: char): (r: char)
    ensures !IsAsciiUpper(r)
    ensures IsAsciiUpper(c) ==> IsAsciiLower(r)
    ensures !IsAsciiUpper(c) ==> r == c
  {
    if IsAsciiUpper(c) then (c as int + 32) as char else c
  }

  /** String.toUpperCase on the ASCII letters. */
  function ToUpperCase(s: string): (r: string)
    ensures |r| == |s|
    ensures forall i :: 0 <= i < |s| ==> r[i] == ToUpperChar(s[i])
  {
    seq(|s|, i requires 0 <= i < |s| => ToUpperChar(s[i]))
  }

  /** String.toLowerCase on the ASCII letters. */
  function ToLowerCase(s: string): (r: string)
    ensures |r| == |s|
    ensures forall i :: 0 <= i < |s| ==> r[i] == ToLowerChar(s[i])
  {
    seq(|s|, i requires 0 <= i < |s| => ToLowerChar(s[i]))
  }

  /** StringUtils.capitalize: the first character upper-cased, the rest kept. */
  function Capitalize(s: string): (r: string)
    ensures |r| == |s|
    ensures s != [] ==> r[0] == ToUpperChar(s[0]) && r[1..] == s[1..]
  {
    if s == [] then s else [ToUpperChar(s[0])] + s[1..]
  }

  /** StringUtils.uncapitalize: the first character lower-cased, the rest kept. */
  function Uncapitalize(s: string): (r: string)
    ensures |r| == |s|
    ensures s != [] ==> r[0] == ToLowerChar(s[0]) && r[1..] == s[1..]
  {
    if s == [] then s else [ToLowerChar(s[0])] + s[1..]
  }

  // ------------------------------------------------------ commons-lang guards

  /** StringUtils.isEmpty: null or of length zero. An empty text is blank,
      and trims to the empty string. */
  predicate IsEmpty(s: Option<string>): (r: bool)
    ensures r ==> IsBlank(s) && TrimToEmpty(s) == ""
  {
    s.None? || s.value == []
  }

  /** StringUtils.isBlank: null, or nothing but Character.isWhitespace. A
      blank text holds no character of [A-Za-z0-9]. */
  predicate IsBlank(s: Option<string>): (r: bool)
    ensures r && s.Some? ==> forall i :: 0 <= i < |s.value| ==> !IsWordChar(s.value[i])
  {
    s.None? || forall i :: 0 <= i < |s.value| ==> IsWhitespace(s.value[i])
  }

  // ---------------------------------------------------------------- trimming

  function TrimStart(s: string): (r: string)
    ensures |r| <= |s| && r == s[|s| - |r|..]
    ensures r == [] || !IsTrimmable(r[0])
    ensures forall i :: 0 <= i < |s| - |r| ==> IsTrimmable(s[i])
  {
    if s != [] && IsTrimmable(s[0]) then TrimStart(s[1..]) else s
  }

  function TrimEnd(s: string): (r: string)
    ensures |r| <= |s| && r == s[..|r|]
    ensures r == [] || !IsTrimmable(r[|r| - 1])
    ensures forall i :: |r| <= i < |s| ==> IsTrimmable(s[i])
  {
    if s != [] && IsTrimmable(s[|s| - 1]) then TrimEnd(s[..|s| - 1]) else s
  }

  /** String.trim. */
  function Trim(s: string): (r: string)
    ensures |r| <= |s|
    ensures r == [] || (!IsTrimmable(r[0]) && !IsTrimmable(r[|r| - 1]))
  {
    TrimEnd(TrimStart(s))
  }

  /** StringUtils.trimToEmpty: null becomes the empty string; otherwise the
      text trimmed, which starts and ends with no character trim removes. */
  function TrimToEmpty(s: Option<string>): (r: string)
    ensures s.None? ==> r == ""
    ensures s.Some? ==> |r| <= |s.value|
    ensures r == [] || (!IsTrimmable(r[0]) && !IsTrimmable(r[|r| - 1]))
  {
    if s.None? then "" else Trim(s.value)
  }

  lemma {:induction false} TrimStartOfTrimmed(s: string)
    requires s == [] || !IsTrimmable(s[0])
    ensures TrimStart(s) == s
  {
  }

  lemma {:induction false} TrimEndOfTrimmed(s: string)
    requires s == [] || !IsTrimmable(s[|s| - 1])
    ensures TrimEnd(s) == s
  {
  }

  /** Where the trimmed text starts in the input. */
  function TrimOffset(s: string): nat {
    |s| - |TrimStart(s)|
  }

  /** Trimming keeps a window of the input. */
  lemma TrimIsWindow(s: string)
    ensures TrimOffset(s) + |Trim(s)| <= |s|
    ensures Trim(s) == s[TrimOffset(s)..TrimOffset(s) + |Trim(s)|]
  {
    var t := TrimStart(s);
    var k := |s| - |t|;
    assert Trim(s) == t[..|Trim(s)|];
    assert t[..|Trim(s)|] == s[k..k + |Trim(s)|];
  }

  lemma TrimIdempotent(s: string)
    ensures Trim(Trim(s)) == Trim(s)
  {
    var t := Trim(s);
    TrimStartOfTrimmed(t);
    TrimEndOfTrimmed(t);
  }

  // ---------------------------------------------------------- search & join

  predicate EndsWith(s: string, suffix: string) {
    |suffix| <= |s| && s[|s| - |suffix|..] == suffix
  }

  /** `v` occurs in `s` at index `k`. */
  predicate Occurs(s: string, v: string, k: int) {
    0 <= k && k + |v| <= |s| && s[k..k + |v|] == v
  }

  function LastIndexBelow(s: string, v: string, k: int): (r: int)
    ensures r == -1 || 0 <= r <= k
    ensures r >= 0 ==> Occurs(s, v, r)
    ensures forall j :: r < j <= k ==> !Occurs(s, v, j)
    decreases k + 1
  {
    if k < 0 then -1 else if Occurs(s, v, k) then k else LastIndexBelow(s, v, k - 1)
  }

  /** String.lastIndexOf: the last index where `v` occurs, -1 when it does not. */
  function LastIndexOf(s: string, v: string): (r: int)
    ensures r == -1 <==> forall k :: !Occurs(s, v, k)
    ensures r >= 0 ==> Occurs(s, v, r) && forall k :: r < k ==> !Occurs(s, v, k)
  {
    var r := LastIndexBelow(s, v, |s| - |v|);
    assert forall k :: k > |s| - |v| ==> !Occurs(s, v, k);
    r
  }

  /** The strings one after another. */
  function Concat(xs: seq<string>): string {
    if xs == [] then "" else xs[0] + Concat(xs[1..])
  }

  /** The strings with `sep` between neighbours and nowhere else. */
  function JoinWith(xs: seq<string>, sep: string): string {
    if |xs| == 0 then ""
    else if |xs| == 1 then xs[0]
    else xs[0] + sep + JoinWith(xs[1..], sep)
  }

  lemma {:induction false} ConcatSnoc(xs: seq<string>, x: string)
    ensures Concat(xs + [x]) == Concat(xs) + x
  {
    if xs != [] {
      assert (xs + [x])[1..] == xs[1..] + [x];
      ConcatSnoc(xs[1..], x);
    }
  }

  lemma {:induction false} JoinWithSnoc(xs: seq<string>, x: string, sep: string)
    requires xs != []
    ensures JoinWith(xs + [x], sep) == JoinWith(xs, sep) + sep + x
  {
    if |xs| > 1 {
      assert (xs + [x])[1..] == xs[1..] + [x];
      JoinWithSnoc(xs[1..], x, sep);
    }
  }

  /** A join starts with its first piece's first character. */
  lemma JoinWithHead(xs: seq<string>, sep: string)
    requires xs != [] && xs[0] != ""
    ensures JoinWith(xs, sep) != [] && JoinWith(xs, sep)[0] == xs[0][0]
  {
    if |xs| > 1 {
      assert JoinWith(xs, sep) == xs[0] + (sep + JoinWith(xs[1..], sep));
    }
  }

  /** A join ends with its last piece's last character. */
  lemma {:induction false} JoinWithLast(xs: seq<string>, sep: string)
    requires xs != [] && xs[|xs| - 1] != ""
    ensures var j := JoinWith(xs, sep);
            j != [] && j[|j| - 1] == xs[|xs| - 1][|xs[|xs| - 1]| - 1]
  {
    if |xs| > 1 {
      var init := xs[..|xs| - 1];
      assert xs == init + [xs[|xs| - 1]];
      JoinWithSnoc(init, xs[|xs| - 1], sep);
    }
  }

  /** Text added to the last piece comes at the end of the join. */
  lemma JoinWithExtendLast(xs: seq<string>, x: string, y: string, sep: string)
    ensures JoinWith(xs + [x + y], sep) == JoinWith(xs + [x], sep) + y
  {
    if xs != [] {
      JoinWithSnoc(xs, x + y, sep);
      JoinWithSnoc(xs, x, sep);
    } else {
      assert xs + [x + y] == [x + y];
      assert xs + [x] == [x];
    }
  }

  // ---------------------------------------------------------------- lines

  /** Every string followed by a newline: what successive println calls write. */
  function Unlines(ls: seq<string>): string {
    if ls == [] then "" else ls[0] + "\n" + Unlines(ls[1..])
  }

  /** Reading text back line by line: a final newline ends the last line. */
  function Lines(s: string): seq<string> {
    if s == [] then []
    else if s[|s| - 1] == '\n' then Segments(s[..|s| - 1], '\n')
    else Segments(s, '\n')
  }

  lemma {:induction false} UnlinesAppend(a: seq<string>, b: seq<string>)
    ensures Unlines(a + b) == Unlines(a) + Unlines(b)
  {
    if a != [] {
      assert (a + b)[0] == a[0];
      assert (a + b)[1..] == a[1..] + b;
      UnlinesAppend(a[1..], b);
    } else {
      assert a + b == b;
    }
  }

  lemma {:induction false} UnlinesIsJoin(ls: seq<string>)
    requires ls != []
    ensures Unlines(ls) == JoinWith(ls, "\n") + "\n"
  {
    if |ls| == 1 {
      assert ls[1..] == [];
    } else {
      UnlinesIsJoin(ls[1..]);
    }
  }

  /** Text written line by line reads back as the same lines. */
  lemma {:induction false} LinesOfUnlines(ls: seq<string>)
    requires forall i :: 0 <= i < |ls| ==> '\n' !in ls[i]
    ensures Lines(Unlines(ls)) == ls
  {
    if ls != [] {
      UnlinesIsJoin(ls);
      var j := JoinWith(ls, "\n");
      assert (j + "\n")[..|j + "\n"| - 1] == j;
      SegmentsOfJoin(ls, '\n');
    }
  }

  // ---------------------------------------------------------------- split

  /** The pieces of `s` between occurrences of `c`, empty ones included. */
  function Segments(s: string, c: char): (r: seq<string>)
    ensures |r| >= 1
    ensures forall k :: 0 <= k < |r| ==> c !in r[k]
  {
    if s == [] then [""]
    else if s[0] == c then [""] + Segments(s[1..], c)
    else
      var t := Segments(s[1..], c);
      [[s[0]] + t[0]] + t[1..]
  }

  /** Pattern.split's removal of the trailing empty strings (limit 0). */
  function DropTrailingEmpty(xs: seq<string>): (r: seq<string>)
    ensures |r| <= |xs| && r == xs[..|r|]
    ensures r == [] || r[|r| - 1] != ""
    ensures forall k :: |r| <= k < |xs| ==> xs[k] == ""
  {
    if xs != [] && xs[|xs| - 1] == "" then DropTrailingEmpty(xs[..|xs| - 1]) else xs
  }

  /** String.split with a pattern that matches the single character `c`. */
  function Split(s: string, c: char): seq<string> {
    if c !in s then [s] else DropTrailingEmpty(Segments(s, c))
  }

  lemma {:induction false} JoinOfSegments(s: string, c: char)
    ensures JoinWith(Segments(s, c), [c]) == s
  {
    if s != [] {
      JoinOfSegments(s[1..], c);
      var t := Segments(s[1..], c);
      if s[0] != c && |t| > 1 {
        var u := [[s[0]] + t[0]] + t[1..];
        assert u[1..] == t[1..];
      }
    }
  }

  lemma {:induction false} SegmentsOfJoin(xs: seq<string>, c: char)
    requires xs != []
    requires forall i :: 0 <= i < |xs| ==> c !in xs[i]
    ensures Segments(JoinWith(xs, [c]), c) == xs
  {
    if |xs| == 1 {
      SegmentsOfPlain(xs[0], c);
    } else {
      var rest := JoinWith(xs[1..], [c]);
      SegmentsOfJoin(xs[1..], c);
      SegmentsPrefix(xs[0], [c] + rest, c);
      var tail := [c] + rest;
      assert tail[0] == c && tail[1..] == rest;
      assert Segments(tail, c) == [""] + xs[1..];
      assert JoinWith(xs, [c]) == xs[0] + tail;
      assert xs[0] + "" == xs[0];
      assert [xs[0]] + xs[1..] == xs;
    }
  }

  lemma {:induction false} SegmentsOfPlain(x: string, c: char)
    requires c !in x
    ensures Segments(x, c) == [x]
  {
    if x != [] {
      SegmentsOfPlain(x[1..], c);
      assert [x[0]] + x[1..] == x;
    }
  }

  /** A piece free of `c` glues onto the first segment of what follows. */
  lemma {:induction false} SegmentsPrefix(x: string, y: string, c: char)
    requires c !in x
    ensures Segments(x + y, c) == [x + Segments(y, c)[0]] + Segments(y, c)[1..]
  {
    if x != [] {
      assert (x + y)[1..] == x[1..] + y;
      SegmentsPrefix(x[1..], y, c);
      assert (x + y)[0] == x[0];
      assert [x[0]] + (x[1..] + Segments(y, c)[0]) == x + Segments(y, c)[0];
    } else {
      assert x + y == y;
      var t := Segments(y, c);
      assert x + t[0] == t[0];
      assert [t[0]] + t[1..] == t;
    }
  }

  /** Text that does not end with `c` has a non-empty last segment. */
  lemma {:induction false} SegmentsLastNonEmpty(s: string, c: char)
    requires s != [] && s[|s| - 1] != c
    ensures Segments(s, c)[|Segments(s, c)| - 1] != ""
  {
    var t := Segments(s[1..], c);
    if |s| > 1 {
      SegmentsLastNonEmpty(s[1..], c);
    }
    if s[0] != c {
      var u := [[s[0]] + t[0]] + t[1..];
      assert Segments(s, c) == u;
      if |t| == 1 {
        assert u[|u| - 1] == [s[0]] + t[0];
      } else {
        assert u[|u| - 1] == t[|t| - 1];
      }
    }
  }

  /** Splitting joined pieces gives the pieces back, provided no piece holds
      `c` and the last one is not dropped as a trailing empty string. */
  lemma {:induction false} SplitOfJoin(xs: seq<string>, c: char)
    requires xs != []
    requires forall i :: 0 <= i < |xs| ==> c !in xs[i]
    requires |xs| == 1 || xs[|xs| - 1] != ""
    ensures Split(JoinWith(xs, [c]), c) == xs
  {
    if |xs| == 1 {
    } else {
      SegmentsOfJoin(xs, c);
      var j := JoinWith(xs, [c]);
      assert c in j by {
        assert j == xs[0] + [c] + JoinWith(xs[1..], [c]);
        assert j[|xs[0]|] == c;
      }
    }
  }

  /** A non-empty text without the separator splits into itself. */
  lemma SplitOfPlain(x: string, c: char)
    requires x != [] && c !in x
    ensures Split(x, c) == [x]
  {
    SegmentsOfPlain(x, c);
    SplitKeepsAllSegments(x, c);
  }

  /** Text that does not end with `c` splits into all of its segments. */
  lemma {:induction false} SplitKeepsAllSegments(s: string, c: char)
    requires s == [] || s[|s| - 1] != c
    ensures Split(s, c) == Segments(s, c)
  {
    if c !in s {
      SegmentsOfPlain(s, c);
    } else {
      SegmentsLastNonEmpty(s, c);
    }
  }
}
