/**
 * EnumClassGenerator: writes the Java source of an `enum` for a UML class
 * through a PrintWriter, member by member in a fixed order.
 *
 * Every block of output is specified as the sequence of lines it prints
 * (each `println` ends one line); the methods of the class append exactly
 * `Unlines` of those lines to the writer.
 */
module EnumClassGenerator {
  import opened JavaLang
  import opened Uml
  import opened JavaIo
  import AndromdaHelper

  // The texts are written in short pieces so that facts about their
  // characters (no line break inside) stay cheap to establish.
  const VALUE_COMMENT := "Returns an " + "enumeration literal " + "String <code>" + "value</code>."
  const PRIVATE_CONSTRUCTOR_COMMENT :=
    "The constructor " + "with enumeration " + "literal value " + "allowing super " + "classes to " + "access it."
  const SERIAL_VERSION_UID_COMMENT :=
    "The serial " + "version UID of " + "this class. " + "Needed for " + "serialization."
  const SERIAL_VERSION_UID_FIELD := "private static " + "final long " + "serialVersionUID " + "= 1L;"

  /** FROM_STRING_COMMENT with the class name in place of its `%s`. */
  function FromStringComment(className: string): string {
    "Retrieves an instance of " + className + " from <code>its name</code>."
  }

  /** What `%s` prints for a possibly null string. */
  function FormatArg(s: Option<string>): string {
    if s.None? then "null" else s.value
  }

  // ------------------------------------------------------------ output lines

  function StarLines(lines: seq<string>): (r: seq<string>)
    ensures |r| == |lines|
    ensures forall i :: 0 <= i < |lines| ==> r[i] == " * " + lines[i]
  {
    seq(|lines|, i requires 0 <= i < |lines| => " * " + lines[i])
  }

  /** A Javadoc block holding the given lines. */
  function SimpleCommentLines(lines: seq<string>): seq<string> {
    ["/**"] + StarLines(lines) + [" */"]
  }

  function PackageLines(comment1: string, comment2: string, packageName: string): seq<string> {
    SimpleCommentLines([comment1, comment2]) + ["package " + packageName + ";"]
  }

  /** The constant's payload before formatting. */
  function ConstantValue(p: Property, mask: string -> string): string {
    match p.defaultValue
    case None => mask(p.name)
    case Some(v) => v
  }

  /** The literal syntax of a value of the named type. */
  function Literal(typeName: string, value: string): string {
    if typeName == "Integer" || typeName == "Boolean" then value
    else if typeName == "Long" then value + "L"
    else "\"" + value + "\""
  }

  function ResolveConstantValue(p: Property, mask: string -> string): (r: string)
    ensures LiteralValue(p.typeName, r) == Some(ConstantValue(p, mask))
    ensures |r| >= |ConstantValue(p, mask)|
  {
    var v := ConstantValue(p, mask);
    var lit := Literal(p.typeName, v);
    assert p.typeName == "Long" ==> lit[..|lit| - 1] == v;
    assert p.typeName !in {"Integer", "Boolean", "Long"} ==> lit[1..|lit| - 1] == v;
    lit
  }

  /** Reading a literal of the named type back to its value text. */
  function LiteralValue(typeName: string, literal: string): Option<string> {
    if typeName == "Integer" || typeName == "Boolean" then Some(literal)
    else if typeName == "Long" then
      if literal != [] && literal[|literal| - 1] == 'L' then Some(literal[..|literal| - 1]) else None
    else if |literal| >= 2 && literal[0] == '"' && literal[|literal| - 1] == '"' then
      Some(literal[1..|literal| - 1])
    else None
  }

  /** The comment text of one attribute, as concatComments builds it. */
  function CommentText(p: Property): string {
    JoinWith(AndromdaHelper.Bodies(p.ownedComments), "\n")
  }

  /** The Javadoc block printed above a constant, if any. */
  function CommentLines(p: Property): (r: seq<string>)
    ensures r == [] <==> CommentText(p) == ""
    ensures r != [] ==> |r| == |Split(CommentText(p), '\n')| + 2 && r[0] == "/**" && r[|r| - 1] == " */"
  {
    var comments := CommentText(p);
    if comments != "" then SimpleCommentLines(Split(comments, '\n')) else []
  }

  function ConstantLine(p: Property, mask: string -> string, isLast: bool): string {
    mask(p.name) + "(" + ResolveConstantValue(p, mask) + ")" + (if isLast then ";" else ",")
  }

  /** The declaration of the attribute at `i`: its `count` is `i + 1`. */
  function DeclarationAt(attributes: seq<Property>, i: nat, mask: string -> string): string
    requires i < |attributes|
  {
    var count := i + 1;
    ConstantLine(attributes[i], mask, !(count < |attributes|))
  }

  /** What the loop of generateConstants prints for the attribute at `i`. */
  function EntryLines(attributes: seq<Property>, i: nat, mask: string -> string): seq<string>
    requires i < |attributes|
  {
    CommentLines(attributes[i]) + [DeclarationAt(attributes, i, mask)]
  }

  /** One block of lines per attribute, in attribute order. */
  function Entries(attributes: seq<Property>, mask: string -> string): seq<seq<string>> {
    seq(|attributes|, i requires 0 <= i < |attributes| => EntryLines(attributes, i, mask))
  }

  /** The first `k` blocks, one after the other. */
  function FlattenUpTo(blocks: seq<seq<string>>, k: nat): seq<string>
    requires k <= |blocks|
  {
    if k == 0 then [] else FlattenUpTo(blocks, k - 1) + blocks[k - 1]
  }

  /** Writing one more block after the first `i` writes the first `i + 1`. */
  lemma ConstantsStep(t: string, written: string, blocks: seq<seq<string>>, i: nat)
    requires i < |blocks|
    requires written == t + Unlines(FlattenUpTo(blocks, i))
    ensures written + Unlines(blocks[i]) == t + Unlines(FlattenUpTo(blocks, i + 1))
  {
    Then(t, FlattenUpTo(blocks, i), blocks[i]);
  }

  function ConstantsLines(attributes: seq<Property>, mask: string -> string): seq<string> {
    FlattenUpTo(Entries(attributes, mask), |attributes|)
  }

  /** The declaration lines alone, in attribute order. */
  function DeclarationLines(attributes: seq<Property>, mask: string -> string): seq<string> {
    seq(|attributes|, i requires 0 <= i < |attributes| => DeclarationAt(attributes, i, mask))
  }

  function SerialVersionUIDLines(): seq<string> {
    SimpleCommentLines([SERIAL_VERSION_UID_COMMENT]) + [SERIAL_VERSION_UID_FIELD]
  }

  function ConstructorLines(className: string, javaType: string): seq<string> {
    ["private final " + javaType + " enumValue;"]
    + SimpleCommentLines([PRIVATE_CONSTRUCTOR_COMMENT])
    + ["private " + className + "(" + javaType + " value) { this.enumValue = value; }"]
  }

  function FromStringLines(className: string, javaType: string): seq<string> {
    SimpleCommentLines([FromStringComment(className)])
    + ["public static " + className + " fromString(" + javaType + " value) { return "
       + className + ".valueOf(value); }"]
  }

  function ValueLines(javaType: string): seq<string> {
    SimpleCommentLines([VALUE_COMMENT]) + ["public " + javaType + " value() { return this.enumValue; }"]
  }

  function EnumLines(clazz: Classifier, javaType: string, mask: string -> string): seq<string> {
    ["public enum " + clazz.name + " {"]
    + ConstantsLines(clazz.attributes, mask)
    + SerialVersionUIDLines()
    + ConstructorLines(clazz.name, javaType)
    + FromStringLines(clazz.name, javaType)
    + ValueLines(javaType)
    + ["}"]
  }

  function EnumClassLines(clazz: Classifier, javaType: string, mask: string -> string,
                          packageName: string, comment1: string, comment2: string): seq<string>
  {
    PackageLines(comment1, comment2, packageName) + EnumLines(clazz, javaType, mask)
  }

  /**
   * The result of generateEnumClass as a function of the classifier and of
   * what the collaborators answer: the masker, the resolved package name and
   * the two lines of the package comment.
   */
  function EnumClassSource(clazz: Classifier, mask: string -> string, packageName: string,
                           comment1: string, comment2: string): (r: Result<string>)
    ensures r.Err? <==> clazz.attributes == [] || !clazz.isClass
    ensures clazz.attributes == [] ==> r == Err(NoSuchElement)
    ensures clazz.attributes != [] && !clazz.isClass ==> r == Err(ClassCast)
  {
    if |clazz.attributes| == 0 then Err(NoSuchElement)
    else if !clazz.isClass then Err(ClassCast)
    else Ok(Unlines(EnumClassLines(clazz, clazz.attributes[0].typeName, mask,
                                   packageName, comment1, comment2)))
  }

  // ---------------------------------------------------------------- the class

  class EnumClassGenerator {
    /** NameMasker.mask(_, UPPERUNDERSCORE). */
    const nameMasker: string -> string
    /** PackageHelper.getFullPackageName. */
    const packageHelper: (Classifier, Option<string>) -> string
    /** PackageComment.CONTENT_1 and CONTENT_2. */
    const packageComment1: string
    const packageComment2: string

    /** Never assigned, so always null. */
    var sourceDirectoryPackageName: Option<string>
    /** The payload type: the first attribute's type name once generateEnumClass ran. */
    var javaType: Option<string>

    constructor (nameMasker: string -> string, packageHelper: (Classifier, Option<string>) -> string,
                 packageComment1: string, packageComment2: string)
      ensures this.nameMasker == nameMasker && this.packageHelper == packageHelper
      ensures this.packageComment1 == packageComment1 && this.packageComment2 == packageComment2
      ensures sourceDirectoryPackageName == None && javaType == None
    {
      this.nameMasker := nameMasker;
      this.packageHelper := packageHelper;
      this.packageComment1 := packageComment1;
      this.packageComment2 := packageComment2;
      sourceDirectoryPackageName := None;
      javaType := None;
    }

    /** Lines 66-81: a fresh buffer, the payload type read from the first attribute. */
    method GenerateEnumClass(clazz: Classifier) returns (r: Result<string>)
      modifies this`javaType
      ensures clazz.attributes == [] ==> javaType == old(javaType)
      ensures clazz.attributes != [] ==> javaType == Some(clazz.attributes[0].typeName)
      ensures r == EnumClassSource(clazz, nameMasker, packageHelper(clazz, sourceDirectoryPackageName),
                                   packageComment1, packageComment2)
    {
      if |clazz.attributes| == 0 {
        return Err(NoSuchElement);
      }
      javaType := Some(clazz.attributes[0].typeName);
      var writer := new Writer();
      GeneratePackage(clazz, writer);
      var outcome := GenerateEnum(clazz, writer);
      if outcome.Fail? {
        return Err(outcome.error);
      }
      var a := PackageLines(packageComment1, packageComment2, packageHelper(clazz, sourceDirectoryPackageName));
      var b := EnumLines(clazz, clazz.attributes[0].typeName, nameMasker);
      Then("", a, b);
      assert "" + Unlines(a + b) == Unlines(a + b);
      r := Ok(writer.text);
    }

    method GenerateFromStringMethod(clazz: Classifier, writer: Writer)
      modifies writer
      ensures writer.text == old(writer.text) + Unlines(FromStringLines(clazz.name, FormatArg(javaType)))
    {
      var className := clazz.name;
      var decl := "public static " + className + " fromString(" + FormatArg(javaType)
                  + " value) { return " + className + ".valueOf(value); }";
      GenerateSimpleComment(writer, [FromStringComment(className)]);
      ghost var t1 := writer.text;
      writer.Print(decl);
      writer.Println("");
      FormatThenPrintln(t1, decl);
      Then(old(writer.text), SimpleCommentLines([FromStringComment(className)]), [decl]);
    }

    method GenerateValueMethod(clazz: Classifier, writer: Writer)
      modifies writer
      ensures writer.text == old(writer.text) + Unlines(ValueLines(FormatArg(javaType)))
    {
      var decl := "public " + FormatArg(javaType) + " value() { return this.enumValue; }";
      GenerateSimpleComment(writer, [VALUE_COMMENT]);
      ghost var t1 := writer.text;
      writer.Print(decl);
      writer.Println("");
      FormatThenPrintln(t1, decl);
      Then(old(writer.text), SimpleCommentLines([VALUE_COMMENT]), [decl]);
    }

    method GenerateConstructor(clazz: Classifier, writer: Writer)
      modifies writer
      ensures writer.text == old(writer.text) + Unlines(ConstructorLines(clazz.name, FormatArg(javaType)))
    {
      var field := "private final " + FormatArg(javaType) + " enumValue;";
      var ctor := "private " + clazz.name + "(" + FormatArg(javaType) + " value) { this.enumValue = value; }";
      var comment := SimpleCommentLines([PRIVATE_CONSTRUCTOR_COMMENT]);
      writer.Print(field);
      writer.Println("");
      FormatThenPrintln(old(writer.text), field);
      GenerateSimpleComment(writer, [PRIVATE_CONSTRUCTOR_COMMENT]);
      Then(old(writer.text), [field], comment);
      ghost var t2 := writer.text;
      writer.Print(ctor);
      writer.Println("");
      FormatThenPrintln(t2, ctor);
      Then(old(writer.text), [field] + comment, [ctor]);
    }

    method GenerateSerialVersionUID(clazz: Classifier, writer: Writer)
      modifies writer
      ensures writer.text == old(writer.text) + Unlines(SerialVersionUIDLines())
    {
      GenerateSimpleComment(writer, [SERIAL_VERSION_UID_COMMENT]);
      writer.Println(SERIAL_VERSION_UID_FIELD);
      Then(old(writer.text), SimpleCommentLines([SERIAL_VERSION_UID_COMMENT]), [SERIAL_VERSION_UID_FIELD]);
    }

    /** Lines 161-171: the enum header, the members in their fixed order, the closing brace. */
    method GenerateEnum(clazz: Classifier, writer: Writer) returns (outcome: Outcome)
      modifies writer
      ensures outcome == if clazz.isClass then Pass else Fail(ClassCast)
      ensures clazz.isClass ==>
        writer.text == old(writer.text) + Unlines(EnumLines(clazz, FormatArg(javaType), nameMasker))
      ensures !clazz.isClass ==> writer.text == old(writer.text) + Unlines(["public enum " + clazz.name + " {"])
    {
      var header := "public enum " + clazz.name + " {";
      writer.Println(header);
      outcome := GenerateConstants(clazz, writer);
      if outcome.Fail? {
        return;
      }
      ghost var t := old(writer.text);
      ghost var jt := FormatArg(javaType);
      ghost var a := [header];
      ghost var b := ConstantsLines(clazz.attributes, nameMasker);
      Then(t, a, b);
      GenerateSerialVersionUID(clazz, writer);
      ghost var c := SerialVersionUIDLines();
      Then(t, a + b, c);
      GenerateConstructor(clazz, writer);
      ghost var d := ConstructorLines(clazz.name, jt);
      Then(t, a + b + c, d);
      GenerateFromStringMethod(clazz, writer);
      ghost var e := FromStringLines(clazz.name, jt);
      Then(t, a + b + c + d, e);
      GenerateValueMethod(clazz, writer);
      ghost var f := ValueLines(jt);
      Then(t, a + b + c + d + e, f);
      writer.Println("}");
      Then(t, a + b + c + d + e + f, ["}"]);
    }

    /** Lines 173-180. */
    method GenerateSimpleComment(writer: Writer, lines: seq<string>)
      modifies writer
      ensures writer.text == old(writer.text) + Unlines(SimpleCommentLines(lines))
    {
      writer.Println("/**");
      for i := 0 to |lines|
        invariant writer.text == old(writer.text) + Unlines(["/**"] + StarLines(lines[..i]))
      {
        ghost var t := writer.text;
        writer.Print(" * ");
        writer.Println(lines[i]);
        PrintThenPrintln(t, " * ", lines[i]);
        Then(old(writer.text), ["/**"] + StarLines(lines[..i]), [" * " + lines[i]]);
        assert StarLines(lines[..i + 1]) == StarLines(lines[..i]) + [" * " + lines[i]];
        assert ["/**"] + StarLines(lines[..i + 1]) == ["/**"] + StarLines(lines[..i]) + [" * " + lines[i]];
      }
      writer.Println(" */");
      assert lines[..|lines|] == lines;
      Then(old(writer.text), ["/**"] + StarLines(lines), [" */"]);
    }

    /** Lines 192-195. */
    method GeneratePackage(clazz: Classifier, writer: Writer)
      modifies writer
      ensures writer.text == old(writer.text)
        + Unlines(PackageLines(packageComment1, packageComment2, packageHelper(clazz, sourceDirectoryPackageName)))
    {
      GenerateSimpleComment(writer, [packageComment1, packageComment2]);
      var clause := "package " + packageHelper(clazz, sourceDirectoryPackageName) + ";";
      writer.Println(clause);
      Then(old(writer.text), SimpleCommentLines([packageComment1, packageComment2]), [clause]);
    }

    /** Lines 219-238: one entry per attribute; `count < size` picks ',' or ';'. */
    method GenerateConstants(clazz: Classifier, writer: Writer) returns (outcome: Outcome)
      modifies writer
      ensures outcome == if clazz.isClass then Pass else Fail(ClassCast)
      ensures !clazz.isClass ==> writer.text == old(writer.text)
      ensures clazz.isClass ==>
        writer.text == old(writer.text) + Unlines(ConstantsLines(clazz.attributes, nameMasker))
    {
      if !clazz.isClass {
        return Fail(ClassCast);
      }
      var attributes := clazz.attributes;
      var count := 0;
      ghost var t0 := writer.text;
      ghost var blocks := Entries(attributes, nameMasker);
      assert t0 + "" == t0;
      for i := 0 to |attributes|
        invariant count == i
        invariant writer.text == t0 + Unlines(FlattenUpTo(blocks, i))
      {
        ghost var before := writer.text;
        count := count + 1;
        GenerateConstant(attributes, i, count, writer);
        assert blocks[i] == EntryLines(attributes, i, nameMasker);
        ConstantsStep(t0, before, blocks, i);
      }
      assert ConstantsLines(attributes, nameMasker) == FlattenUpTo(blocks, |attributes|);
      outcome := Pass;
    }

    /**
     * Lines 225-236, one turn of the loop of generateConstants: the comment
     * block of the attribute at `i` if its comments are not empty, then its
     * declaration, ended by ',' while `count` is below the number of
     * attributes and by ';' otherwise.
     */
    method GenerateConstant(attributes: seq<Property>, i: nat, count: nat, writer: Writer)
      requires i < |attributes| && count == i + 1
      modifies writer
      ensures writer.text == old(writer.text) + Unlines(EntryLines(attributes, i, nameMasker))
    {
      var enumLiteral := attributes[i];
      ghost var commentLines := CommentLines(enumLiteral);
      var comments := AndromdaHelper.ConcatComments(enumLiteral.ownedComments);
      if comments != "" {
        GenerateSimpleComment(writer, Split(comments, '\n'));
      } else {
        assert old(writer.text) + Unlines([]) == old(writer.text);
      }
      ghost var t1 := writer.text;
      ghost var line := DeclarationAt(attributes, i, nameMasker);
      var literalName := nameMasker(enumLiteral.name);
      var head := literalName + "(" + ResolveConstantValue(enumLiteral, nameMasker) + ")";
      writer.Print(head);
      if count < |attributes| {
        writer.Println(",");
        PrintThenPrintln(t1, head, ",");
      } else {
        writer.Println(";");
        PrintThenPrintln(t1, head, ";");
      }
      Then(old(writer.text), commentLines, [line]);
    }
  }

  // ---------------------------------------------------------------- properties

  /**
   * The literal reads back to the constant's value: the default value's text
   * when there is one, the masked attribute name otherwise. Integer and
   * Boolean values are emitted unchanged, Long values get an `L`, values of
   * every other type are put between double quotes without escaping.
   */
  lemma LiteralRoundTrip(p: Property, mask: string -> string)
    ensures LiteralValue(p.typeName, ResolveConstantValue(p, mask))
            == Some(if p.defaultValue.None? then mask(p.name) else p.defaultValue.value)
    ensures var v := ConstantValue(p, mask);
            var lit := ResolveConstantValue(p, mask);
            && ((p.typeName == "Integer" || p.typeName == "Boolean") ==> lit == v)
            && (p.typeName == "Long" ==> |lit| == |v| + 1 && lit[..|v|] == v && lit[|v|] == 'L')
            && (p.typeName !in {"Integer", "Boolean", "Long"} ==>
                  |lit| == |v| + 2 && lit[0] == '"' && lit[|v| + 1] == '"' && lit[1..|v| + 1] == v)
  {
    var v := ConstantValue(p, mask);
    var lit := ResolveConstantValue(p, mask);
    if p.typeName == "Long" {
      assert lit[..|lit| - 1] == v;
    } else if p.typeName !in {"Integer", "Boolean"} {
      assert lit[1..|lit| - 1] == v;
    }
  }

  /** The documented resolutions: 5 as a Long, true as a Boolean, an absent
      String default falling back to the masked name, a String with a space. */
  lemma LiteralExamples(mask: string -> string)
    requires mask("active") == "ACTIVE"
    ensures ResolveConstantValue(Property("count", "Long", Some("5"), []), mask) == "5L"
    ensures ResolveConstantValue(Property("enabled", "Boolean", Some("true"), []), mask) == "true"
    ensures ResolveConstantValue(Property("active", "String", None, []), mask) == "\"ACTIVE\""
    ensures ResolveConstantValue(Property("label", "String", Some("x y"), []), mask) == "\"x y\""
  {
  }

  /**
   * A constant gets a comment block exactly when its comments concatenate to
   * a non-empty text; when every body is a non-empty single line, the block
   * holds one ` * ` line per comment, in order.
   */
  lemma ConstantCommentBlock(p: Property)
    ensures CommentLines(p) == [] <==> CommentText(p) == ""
    ensures p.ownedComments == [] ==> CommentLines(p) == []
    ensures (&& p.ownedComments != []
             && forall i :: 0 <= i < |p.ownedComments| ==>
                  var b := AndromdaHelper.BodyText(p.ownedComments[i]); b != "" && '\n' !in b)
            ==> CommentLines(p) == SimpleCommentLines(AndromdaHelper.Bodies(p.ownedComments))
  {
    var cs := p.ownedComments;
    if cs != [] && forall i :: 0 <= i < |cs| ==>
         var b := AndromdaHelper.BodyText(cs[i]); b != "" && '\n' !in b
    {
      AndromdaHelper.ConcatCommentsSplitsBack(cs);
      assert AndromdaHelper.Bodies(cs)[0] != "";
      assert CommentText(p) != "" by {
        if |cs| > 1 {
          assert CommentText(p) == AndromdaHelper.Bodies(cs)[0] + "\n"
                                   + JoinWith(AndromdaHelper.Bodies(cs)[1..], "\n");
        }
      }
    }
  }

  /** Every line of a Javadoc block starts with '/' or ' '; no declaration does. */
  predicate StartsLikeComment(s: string) {
    s != [] && (s[0] == '/' || s[0] == ' ')
  }

  /** The lines that do not start like a comment line, in order. */
  function Declarations(ls: seq<string>): seq<string> {
    if ls == [] then []
    else (if StartsLikeComment(ls[0]) then [] else [ls[0]]) + Declarations(ls[1..])
  }

  lemma {:induction false} DeclarationsAppend(a: seq<string>, b: seq<string>)
    ensures Declarations(a + b) == Declarations(a) + Declarations(b)
  {
    if a == [] {
      assert a + b == b;
    } else {
      assert (a + b)[0] == a[0];
      assert (a + b)[1..] == a[1..] + b;
      DeclarationsAppend(a[1..], b);
    }
  }

  lemma {:induction false} StarLinesAreComments(lines: seq<string>)
    ensures Declarations(StarLines(lines)) == []
  {
    if lines != [] {
      assert StarLines(lines)[1..] == StarLines(lines[1..]);
      StarLinesAreComments(lines[1..]);
      assert (" * " + lines[0])[0] == ' ';
    }
  }

  lemma DeclarationsOfComment(lines: seq<string>)
    ensures Declarations(SimpleCommentLines(lines)) == []
  {
    var star := StarLines(lines);
    StarLinesAreComments(lines);
    DeclarationsAppend(["/**"], star);
    DeclarationsAppend(["/**"] + star, [" */"]);
    assert ["/**"][1..] == [] && [" */"][1..] == [];
  }

  /** A constant's line never reads as a comment line unless its masked name starts like one. */
  lemma ConstantLineNotComment(p: Property, mask: string -> string, isLast: bool)
    requires !StartsLikeComment(mask(p.name))
    ensures !StartsLikeComment(ConstantLine(p, mask, isLast))
  {
    var line := ConstantLine(p, mask, isLast);
    var name := mask(p.name);
    if name == [] {
      assert line[0] == '(';
    } else {
      assert line[0] == name[0];
    }
  }

  lemma CommentLinesHaveNoDeclarations(p: Property)
    ensures Declarations(CommentLines(p)) == []
  {
    if CommentText(p) != "" {
      DeclarationsOfComment(Split(CommentText(p), '\n'));
    }
  }

  lemma EntryDeclarations(attributes: seq<Property>, k: nat, mask: string -> string)
    requires k < |attributes|
    requires !StartsLikeComment(mask(attributes[k].name))
    ensures Declarations(EntryLines(attributes, k, mask)) == [DeclarationAt(attributes, k, mask)]
  {
    var line := DeclarationAt(attributes, k, mask);
    ConstantLineNotComment(attributes[k], mask, !(k + 1 < |attributes|));
    CommentLinesHaveNoDeclarations(attributes[k]);
    DeclarationsAppend(CommentLines(attributes[k]), [line]);
    assert [line][1..] == [];
  }

  lemma {:induction false} DeclarationsOfBlocks(blocks: seq<seq<string>>, k: nat, decls: seq<string>)
    requires k <= |blocks| && |decls| == |blocks|
    requires forall i :: 0 <= i < |blocks| ==> Declarations(blocks[i]) == [decls[i]]
    ensures Declarations(FlattenUpTo(blocks, k)) == decls[..k]
  {
    if k > 0 {
      DeclarationsOfBlocks(blocks, k - 1, decls);
      DeclarationsAppend(FlattenUpTo(blocks, k - 1), blocks[k - 1]);
      assert decls[..k] == decls[..k - 1] + [decls[k - 1]];
    }
  }

  lemma {:induction false} BlocksOfSingles(blocks: seq<seq<string>>, k: nat, decls: seq<string>)
    requires k <= |blocks| && |decls| == |blocks|
    requires forall i :: 0 <= i < |blocks| ==> blocks[i] == [decls[i]]
    ensures FlattenUpTo(blocks, k) == decls[..k]
  {
    if k > 0 {
      BlocksOfSingles(blocks, k - 1, decls);
      assert decls[..k] == decls[..k - 1] + [decls[k - 1]];
    }
  }

  /** The declaration of the `i`-th constant: `NAME(value)`, then ';' for the last and ',' otherwise. */
  lemma DeclarationText(attributes: seq<Property>, i: nat, mask: string -> string)
    requires i < |attributes|
    ensures DeclarationAt(attributes, i, mask)
            == mask(attributes[i].name) + "(" + ResolveConstantValue(attributes[i], mask) + ")"
               + (if i == |attributes| - 1 then ";" else ",")
  {
  }

  /**
   * Leaving the comment blocks aside, the constants are the N declarations
   * in attribute order.
   */
  lemma ConstantDeclarations(attributes: seq<Property>, mask: string -> string)
    requires forall i :: 0 <= i < |attributes| ==> !StartsLikeComment(mask(attributes[i].name))
    ensures Declarations(ConstantsLines(attributes, mask)) == DeclarationLines(attributes, mask)
  {
    var blocks := Entries(attributes, mask);
    var decls := DeclarationLines(attributes, mask);
    forall i | 0 <= i < |blocks| ensures Declarations(blocks[i]) == [decls[i]] {
      EntryDeclarations(attributes, i, mask);
    }
    DeclarationsOfBlocks(blocks, |blocks|, decls);
    assert decls[..|blocks|] == decls;
  }

  /** Without comments, the constants region is exactly the N declaration lines. */
  lemma ConstantsWithoutComments(attributes: seq<Property>, mask: string -> string)
    requires forall i :: 0 <= i < |attributes| ==> CommentText(attributes[i]) == ""
    ensures ConstantsLines(attributes, mask) == DeclarationLines(attributes, mask)
  {
    var blocks := Entries(attributes, mask);
    var decls := DeclarationLines(attributes, mask);
    forall i | 0 <= i < |blocks| ensures blocks[i] == [decls[i]] {
      assert CommentLines(attributes[i]) == [];
    }
    BlocksOfSingles(blocks, |blocks|, decls);
    assert decls[..|blocks|] == decls;
  }

  predicate NewlineFree(ls: seq<string>) {
    ls == [] || ('\n' !in ls[0] && NewlineFree(ls[1..]))
  }

  lemma {:induction false} NewlineFreeMeans(ls: seq<string>)
    ensures NewlineFree(ls) <==> forall i :: 0 <= i < |ls| ==> '\n' !in ls[i]
  {
    if ls != [] {
      NewlineFreeMeans(ls[1..]);
      if forall i :: 0 <= i < |ls| ==> '\n' !in ls[i] {
        assert forall i :: 0 <= i < |ls| - 1 ==> ls[1..][i] == ls[i + 1];
      }
    }
  }

  lemma {:induction false} NewlineFreeAppend(a: seq<string>, b: seq<string>)
    requires NewlineFree(a) && NewlineFree(b)
    ensures NewlineFree(a + b)
  {
    NewlineFreeMeans(a);
    NewlineFreeMeans(b);
    NewlineFreeMeans(a + b);
  }

  lemma {:induction false} NewlineFreeComment(lines: seq<string>)
    requires NewlineFree(lines)
    ensures NewlineFree(SimpleCommentLines(lines))
  {
    var r := SimpleCommentLines(lines);
    NewlineFreeMeans(lines);
    forall i | 0 <= i < |r| ensures '\n' !in r[i] {
      if 0 < i < |r| - 1 {
        assert r[i] == " * " + lines[i - 1];
      }
    }
    NewlineFreeMeans(r);
  }

  lemma NewlineFreeEntry(attributes: seq<Property>, k: nat, mask: string -> string)
    requires k < |attributes|
    requires '\n' !in mask(attributes[k].name) && '\n' !in ConstantValue(attributes[k], mask)
    ensures NewlineFree(EntryLines(attributes, k, mask))
  {
    var p := attributes[k];
    if CommentText(p) != "" {
      NewlineFreeMeans(Split(CommentText(p), '\n'));
      NewlineFreeComment(Split(CommentText(p), '\n'));
    } else {
      assert CommentLines(p) == [];
    }
    var line := DeclarationAt(attributes, k, mask);
    assert '\n' !in ResolveConstantValue(p, mask);
    assert '\n' !in line;
    NewlineFreeMeans([line]);
    NewlineFreeAppend(CommentLines(p), [line]);
  }

  lemma {:induction false} NewlineFreeBlocks(blocks: seq<seq<string>>, k: nat)
    requires k <= |blocks|
    requires forall i :: 0 <= i < |blocks| ==> NewlineFree(blocks[i])
    ensures NewlineFree(FlattenUpTo(blocks, k))
  {
    if k > 0 {
      NewlineFreeBlocks(blocks, k - 1);
      NewlineFreeAppend(FlattenUpTo(blocks, k - 1), blocks[k - 1]);
    }
  }

  lemma NewlineFreeConstants(attributes: seq<Property>, mask: string -> string)
    requires forall i :: 0 <= i < |attributes| ==>
               '\n' !in mask(attributes[i].name) && '\n' !in ConstantValue(attributes[i], mask)
    ensures NewlineFree(ConstantsLines(attributes, mask))
  {
    var blocks := Entries(attributes, mask);
    forall i | 0 <= i < |blocks| ensures NewlineFree(blocks[i]) {
      NewlineFreeEntry(attributes, i, mask);
    }
    NewlineFreeBlocks(blocks, |blocks|);
  }

  lemma SimpleCommentOfOne(x: string)
    ensures SimpleCommentLines([x]) == ["/**", " * " + x, " */"]
  {
  }

  lemma NewlineFreeOne(x: string)
    requires '\n' !in x
    ensures NewlineFree([x])
  {
    assert [x][1..] == [];
  }

  lemma NewlineFreeCommentOfOne(x: string)
    requires '\n' !in x
    ensures NewlineFree(SimpleCommentLines([x]))
  {
    NewlineFreeOne(x);
    NewlineFreeComment([x]);
  }

  lemma NewlineFreePackage(comment1: string, comment2: string, packageName: string)
    requires '\n' !in comment1 && '\n' !in comment2 && '\n' !in packageName
    ensures NewlineFree(PackageLines(comment1, comment2, packageName))
  {
    NewlineFreeMeans([comment1, comment2]);
    NewlineFreeComment([comment1, comment2]);
    NewlineFreeOne("package " + packageName + ";");
    NewlineFreeAppend(SimpleCommentLines([comment1, comment2]), ["package " + packageName + ";"]);
  }

  // The fixed pieces of the generated lines hold no line break.

  lemma NoBreakInConstructorPieces()
    ensures '\n' !in "private final " && '\n' !in " enumValue;" && '\n' !in "private " && '\n' !in "("
    ensures '\n' !in " value) { this.enumValue = value; }"
  {
  }

  lemma NoBreakInFromStringPieces()
    ensures '\n' !in "public static " && '\n' !in " fromString(" && '\n' !in " value) { return "
    ensures '\n' !in ".valueOf(value); }"
  {
  }

  lemma NoBreakInFromStringComment()
    ensures '\n' !in "Retrieves an instance of " && '\n' !in " from <code>its name</code>."
  {
  }

  lemma NoBreakInSerialPieces()
    ensures '\n' !in SERIAL_VERSION_UID_COMMENT
    ensures '\n' !in SERIAL_VERSION_UID_FIELD
  {
  }

  lemma NoBreakInValuePieces()
    ensures '\n' !in "public " && '\n' !in " value() { return this.enumValue; }"
  {
  }

  lemma NewlineFreeSerial()
    ensures NewlineFree(SerialVersionUIDLines())
  {
    NoBreakInSerialPieces();
    NewlineFreeCommentOfOne(SERIAL_VERSION_UID_COMMENT);
    NewlineFreeOne(SERIAL_VERSION_UID_FIELD);
    NewlineFreeAppend(SimpleCommentLines([SERIAL_VERSION_UID_COMMENT]), [SERIAL_VERSION_UID_FIELD]);
  }

  lemma NewlineFreeConstructor(className: string, javaType: string)
    requires '\n' !in className && '\n' !in javaType
    ensures NewlineFree(ConstructorLines(className, javaType))
  {
    var field := "private final " + javaType + " enumValue;";
    var ctor := "private " + className + "(" + javaType + " value) { this.enumValue = value; }";
    NoBreakInConstructorPieces();
    NewlineFreeOne(field);
    NewlineFreeCommentOfOne(PRIVATE_CONSTRUCTOR_COMMENT);
    NewlineFreeOne(ctor);
    NewlineFreeAppend([field], SimpleCommentLines([PRIVATE_CONSTRUCTOR_COMMENT]));
    NewlineFreeAppend([field] + SimpleCommentLines([PRIVATE_CONSTRUCTOR_COMMENT]), [ctor]);
  }

  lemma NewlineFreeFromString(className: string, javaType: string)
    requires '\n' !in className && '\n' !in javaType
    ensures NewlineFree(FromStringLines(className, javaType))
  {
    var from := "public static " + className + " fromString(" + javaType + " value) { return "
                + className + ".valueOf(value); }";
    NoBreakInFromStringPieces();
    NoBreakInFromStringComment();
    NewlineFreeCommentOfOne(FromStringComment(className));
    NewlineFreeOne(from);
    NewlineFreeAppend(SimpleCommentLines([FromStringComment(className)]), [from]);
  }

  lemma NewlineFreeValue(javaType: string)
    requires '\n' !in javaType
    ensures NewlineFree(ValueLines(javaType))
  {
    var value := "public " + javaType + " value() { return this.enumValue; }";
    NoBreakInValuePieces();
    NewlineFreeCommentOfOne(VALUE_COMMENT);
    NewlineFreeOne(value);
    NewlineFreeAppend(SimpleCommentLines([VALUE_COMMENT]), [value]);
  }

  lemma NewlineFreeEnumClass(clazz: Classifier, javaType: string, mask: string -> string,
                             packageName: string, comment1: string, comment2: string)
    requires '\n' !in clazz.name && '\n' !in javaType
    requires '\n' !in packageName && '\n' !in comment1 && '\n' !in comment2
    requires forall i :: 0 <= i < |clazz.attributes| ==>
               '\n' !in mask(clazz.attributes[i].name) && '\n' !in ConstantValue(clazz.attributes[i], mask)
    ensures NewlineFree(EnumClassLines(clazz, javaType, mask, packageName, comment1, comment2))
  {
    var a := ["public enum " + clazz.name + " {"];
    var b := ConstantsLines(clazz.attributes, mask);
    var c := SerialVersionUIDLines();
    var d := ConstructorLines(clazz.name, javaType);
    var e := FromStringLines(clazz.name, javaType);
    var f := ValueLines(javaType);
    NewlineFreePackage(comment1, comment2, packageName);
    NewlineFreeOne(a[0]);
    NewlineFreeConstants(clazz.attributes, mask);
    NewlineFreeSerial();
    NewlineFreeConstructor(clazz.name, javaType);
    NewlineFreeFromString(clazz.name, javaType);
    NewlineFreeValue(javaType);
    NewlineFreeOne("}");
    NewlineFreeAppend(a, b);
    NewlineFreeAppend(a + b, c);
    NewlineFreeAppend(a + b + c, d);
    NewlineFreeAppend(a + b + c + d, e);
    NewlineFreeAppend(a + b + c + d + e, f);
    NewlineFreeAppend(a + b + c + d + e + f, ["}"]);
    NewlineFreeAppend(PackageLines(comment1, comment2, packageName), EnumLines(clazz, javaType, mask));
  }

  lemma ConstructorLayout(className: string, javaType: string)
    ensures ConstructorLines(className, javaType)
            == ["private final " + javaType + " enumValue;",
                "/**", " * " + PRIVATE_CONSTRUCTOR_COMMENT, " */",
                "private " + className + "(" + javaType + " value) { this.enumValue = value; }"]
  {
    SimpleCommentOfOne(PRIVATE_CONSTRUCTOR_COMMENT);
  }

  /**
   * The lines of a generated enum: the package comment and clause, the enum
   * header, the constants, then serialVersionUID, the payload field and the
   * constructor, fromString and value(), and the closing brace, with the
   * payload type `javaType` in all four places that name it.
   */
  lemma EnumClassLinesLayout(clazz: Classifier, javaType: string, mask: string -> string,
                             packageName: string, comment1: string, comment2: string)
    ensures EnumClassLines(clazz, javaType, mask, packageName, comment1, comment2)
            == ["/**", " * " + comment1, " * " + comment2, " */",
                "package " + packageName + ";",
                "public enum " + clazz.name + " {"]
               + ConstantsLines(clazz.attributes, mask)
               + ["/**", " * " + SERIAL_VERSION_UID_COMMENT, " */", SERIAL_VERSION_UID_FIELD]
               + ["private final " + javaType + " enumValue;",
                  "/**", " * " + PRIVATE_CONSTRUCTOR_COMMENT, " */",
                  "private " + clazz.name + "(" + javaType + " value) { this.enumValue = value; }"]
               + ["/**", " * " + FromStringComment(clazz.name), " */",
                  "public static " + clazz.name + " fromString(" + javaType + " value) { return "
                    + clazz.name + ".valueOf(value); }"]
               + ["/**", " * " + VALUE_COMMENT, " */",
                  "public " + javaType + " value() { return this.enumValue; }"]
               + ["}"]
  {
    var p := PackageLines(comment1, comment2, packageName);
    var a := ["public enum " + clazz.name + " {"];
    var b := ConstantsLines(clazz.attributes, mask);
    var c := SerialVersionUIDLines();
    var d := ConstructorLines(clazz.name, javaType);
    var e := FromStringLines(clazz.name, javaType);
    var f := ValueLines(javaType);
    HeaderLayout(clazz.name, packageName, comment1, comment2);
    SimpleCommentOfOne(SERIAL_VERSION_UID_COMMENT);
    ConstructorLayout(clazz.name, javaType);
    SimpleCommentOfOne(FromStringComment(clazz.name));
    SimpleCommentOfOne(VALUE_COMMENT);
    AppendAssoc(p, a + b + c + d + e + f, ["}"]);
    AppendAssoc(p, a + b + c + d + e, f);
    AppendAssoc(p, a + b + c + d, e);
    AppendAssoc(p, a + b + c, d);
    AppendAssoc(p, a + b, c);
    AppendAssoc(p, a, b);
  }

  lemma HeaderLayout(className: string, packageName: string, comment1: string, comment2: string)
    ensures PackageLines(comment1, comment2, packageName) + ["public enum " + className + " {"]
            == ["/**", " * " + comment1, " * " + comment2, " */",
                "package " + packageName + ";", "public enum " + className + " {"]
  {
    assert StarLines([comment1, comment2]) == [" * " + comment1, " * " + comment2];
  }

  lemma AppendAssoc(a: seq<string>, b: seq<string>, c: seq<string>)
    ensures a + (b + c) == a + b + c
  {
  }

  /**
   * The text generateEnumClass returns reads back, line by line, as exactly
   * the lines of EnumClassLinesLayout, with the first attribute's type as the
   * payload type, provided no name or value involved holds a line break.
   */
  lemma EnumClassSourceLines(clazz: Classifier, mask: string -> string, packageName: string,
                             comment1: string, comment2: string)
    requires clazz.attributes != [] && clazz.isClass
    requires '\n' !in clazz.name && '\n' !in packageName && '\n' !in comment1 && '\n' !in comment2
    requires '\n' !in clazz.attributes[0].typeName
    requires forall i :: 0 <= i < |clazz.attributes| ==>
               '\n' !in mask(clazz.attributes[i].name) && '\n' !in ConstantValue(clazz.attributes[i], mask)
    ensures EnumClassSource(clazz, mask, packageName, comment1, comment2).Ok?
    ensures Lines(EnumClassSource(clazz, mask, packageName, comment1, comment2).value)
            == EnumClassLines(clazz, clazz.attributes[0].typeName, mask, packageName, comment1, comment2)
  {
    var all := EnumClassLines(clazz, clazz.attributes[0].typeName, mask, packageName, comment1, comment2);
    NewlineFreeEnumClass(clazz, clazz.attributes[0].typeName, mask, packageName, comment1, comment2);
    NewlineFreeMeans(all);
    LinesOfUnlines(all);
  }

  /**
   * The worked example: `Status` with `active` (no default, no comment) and
   * `inactive` (default "OFF", comment "Disabled state"), both of type String.
   */
  const STATUS_ATTRIBUTES := [Property("active", "String", None, []),
                              Property("inactive", "String", Some("OFF"), [Comment(Some("Disabled state"))])]

  lemma StatusFirstEntry(mask: string -> string)
    requires mask("active") == "ACTIVE"
    ensures EntryLines(STATUS_ATTRIBUTES, 0, mask) == ["ACTIVE(\"ACTIVE\"),"]
  {
    var attrs := STATUS_ATTRIBUTES;
    assert CommentText(attrs[0]) == "";
    assert ConstantValue(attrs[0], mask) == "ACTIVE";
    assert ResolveConstantValue(attrs[0], mask) == "\"ACTIVE\"";
    assert DeclarationAt(attrs, 0, mask) == "ACTIVE" + "(" + "\"ACTIVE\"" + ")" + ",";
    assert "ACTIVE" + "(" + "\"ACTIVE\"" + ")" + "," == "ACTIVE(\"ACTIVE\"),";
  }

  lemma StatusSecondEntry(mask: string -> string)
    requires mask("inactive") == "INACTIVE"
    ensures EntryLines(STATUS_ATTRIBUTES, 1, mask)
            == ["/**", " * Disabled state", " */", "INACTIVE(\"OFF\");"]
  {
    var attrs := STATUS_ATTRIBUTES;
    StatusComment();
    assert ResolveConstantValue(attrs[1], mask) == "\"OFF\"";
    assert DeclarationAt(attrs, 1, mask) == "INACTIVE" + "(" + "\"OFF\"" + ")" + ";";
    assert "INACTIVE" + "(" + "\"OFF\"" + ")" + ";" == "INACTIVE(\"OFF\");";
  }

  lemma StatusComment()
    ensures CommentLines(STATUS_ATTRIBUTES[1]) == ["/**", " * Disabled state", " */"]
  {
    var p := STATUS_ATTRIBUTES[1];
    var text := "Disabled state";
    assert CommentText(p) == text by {
      assert AndromdaHelper.Bodies(p.ownedComments) == [text];
    }
    assert '\n' !in text;
    SplitOfPlain(text, '\n');
    SimpleCommentOfOne(text);
    StarDisabled();
  }

  lemma StarDisabled()
    ensures " * " + "Disabled state" == " * Disabled state"
  {
  }

  /** The constants region of the example, comment block included. */
  lemma StatusExample(mask: string -> string)
    requires mask("active") == "ACTIVE" && mask("inactive") == "INACTIVE"
    ensures ConstantsLines(STATUS_ATTRIBUTES, mask)
            == ["ACTIVE(\"ACTIVE\"),", "/**", " * Disabled state", " */", "INACTIVE(\"OFF\");"]
  {
    var blocks := Entries(STATUS_ATTRIBUTES, mask);
    StatusFirstEntry(mask);
    StatusSecondEntry(mask);
    assert FlattenUpTo(blocks, 1) == [] + blocks[0];
    assert FlattenUpTo(blocks, 2) == FlattenUpTo(blocks, 1) + blocks[1];
  }
}
