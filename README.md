# Enum source generation and string helpers of the AndroMDA Java cartridge

This project models three pieces of the Java cartridge's code generator in Dafny.

- **`EnumClassGenerator`** turns a UML classifier tagged as an enumeration into the source text of a Java `enum`. It writes, in order:
  - a package comment and the `package` clause;
  - `public enum Name {`;
  - one `NAME(value)` constant per attribute, with an optional Javadoc block above it;
  - the `serialVersionUID` field;
  - the payload field and the private constructor;
  - `fromString` and `value()`;
  - the closing `}`.

  The `PrintWriter` it writes through is the `JavaIo.Writer` class, an append-only character buffer. The generator is a class whose `javaType` field is set by `generateEnumClass` and read by the later `generate*` methods.
- **`AndromdaHelper.concatComments`** joins the comment bodies of an attribute with `'\n'` and leaves no separator after the last one.
- **`StringUtilsHelper`** holds the string helpers the templates use. They all rest on one splitter, `splitAtNonWordCharacters`:
  1. it puts a space before every maximal run of capitals in the trimmed text;
  2. it then splits at every maximal run of characters outside `[A-Za-z0-9]`, keeping Java's `split` rules.

  The helpers built on it are suffix replacement, last-occurrence removal, camel-casing, word separation, line suffixing, resource-message shaping, article prefixing, single-lining, the guard clauses of `format`, and the two first-letter checks.

Files:
- `JavaLang.dfy`: the Java and commons-lang semantics the source relies on. It covers:
  - `null` as `Option`, thrown exceptions as `Result`/`Outcome` errors;
  - `trim` (characters up to `' '`), `Character.isWhitespace` for `isBlank`, and ASCII case mapping;
  - `lastIndexOf`;
  - `String.split` on one character with limit 0.
- `JavaIo.dfy`: the writer. `println` appends one fixed `'\n'`.
- `Uml.dfy`: comments, properties and classifiers.
- `AndromdaHelper.dfy`, `EnumClassGenerator.dfy`, `StringUtilsHelper.dfy`: the three core files.

How each kind of code is modelled:
- Each `generate*` method appends to the writer. Its contract states the writer's new text as the old text plus `Unlines` of a line-sequence function. Lemmas then state the layout, the constants region and the comment blocks of those lines, and prove that the text reads back as those lines.
- The loops of the helpers are methods proved equal to a specification function. Lemmas state what that function means.

The collaborators whose source the model does not include are parameters of the generator's constructor:
- `NameMasker.mask(_, UPPERUNDERSCORE)`;
- `PackageHelper.getFullPackageName`;
- the two `PackageComment` texts.

Behaviour worth noting, which the model keeps as the code has it:
- **Empty masked name.** An attribute whose masked name is empty is not rejected; its declaration starts with `(`.
- **Comment blocks.** A constant gets a Javadoc block when the concatenated comment text is non-empty, not whenever it has a comment, so one comment with an empty body gets no block (`ConstantCommentBlock`).
- **Resource messages.** The documentation of `toResourceMessage` promises a backslash at the end of each line (`StringUtilsHelper.java:275-276`). The loop strips the trailing one, so the last line gets none (`ResourceMessageOfLines`).
- **Wrapping margin.** The documentation of `format(plainText, indentation)` speaks of a 64-column margin (`StringUtilsHelper.java:359-360`). The code wraps at `100 - indentation.length()` (`:371`), and so does `FormatIndented`.
- **HTML style in the three-argument `format`.** Its documentation says the result is not suited for display in HTML (`StringUtilsHelper.java:376-377`). The code passes `htmlStyle` as `true` (`:390`), and so does `FormatAtColumn`.
- **Null text in the four-argument `format`.** Its documentation says a null text gives the empty string (`StringUtilsHelper.java:412-413`). The code returns the indentation for any blank text, null included (`:444-447`), and so does `FormatGuards`.
- **State between calls.** `javaType` lives in a field of the generator. `generateEnumClass` sets it from the first attribute; when the call fails for lack of attributes, the field keeps whatever an earlier call left in it.

## Model

| member | source | states |
|---|---|---|
| JavaLang.Trim | cartridges/andromda-java/src/main/java/org/andromda/cartridges/java/StringUtilsHelper.java:284 | `trim` removes the characters up to `' '` at both ends: the result is no longer than the input, and it neither starts nor ends with such a character |
| JavaLang.TrimToEmpty | cartridges/andromda-java/src/main/java/org/andromda/cartridges/java/StringUtilsHelper.java:235 | `trimToEmpty` gives `""` for null and otherwise the trimmed text: no longer than the input, neither starting nor ending with a character `trim` removes |
| JavaLang.TrimIdempotent | cartridges/andromda-java/src/main/java/org/andromda/cartridges/java/StringUtilsHelper.java:342 | trimming a trimmed text changes nothing |
| JavaLang.TrimIsWindow | cartridges/andromda-java/src/main/java/org/andromda/cartridges/java/StringUtilsHelper.java:342 | the trimmed text is a contiguous window of the input |
| JavaLang.LastIndexOf | cartridges/andromda-java/src/main/java/org/andromda/cartridges/java/StringUtilsHelper.java:108 | `lastIndexOf` is -1 exactly when the value occurs nowhere; otherwise the value occurs at the result and at no later index |
| JavaLang.ToUpperCase | cartridges/andromda-java/src/main/java/org/andromda/cartridges/java/StringUtilsHelper.java:83 | same length; every character is mapped to its capital, so no lower-case letter remains |
| JavaLang.ToLowerCase | cartridges/andromda-java/src/main/java/org/andromda/cartridges/java/StringUtilsHelper.java:182 | same length; every character is mapped to its small letter, so no capital remains |
| JavaLang.Capitalize | cartridges/andromda-java/src/main/java/org/andromda/cartridges/java/StringUtilsHelper.java:196 | same length; only the first character changes, to its capital |
| JavaLang.Uncapitalize | cartridges/andromda-java/src/main/java/org/andromda/cartridges/java/StringUtilsHelper.java:135 | same length; only the first character changes, to its small letter |
| JavaLang.IsEmpty | cartridges/andromda-java/src/main/java/org/andromda/cartridges/java/StringUtilsHelper.java:72 | `isEmpty`: an empty or null text is also blank and trims to `""` |
| JavaLang.IsBlank | cartridges/andromda-java/src/main/java/org/andromda/cartridges/java/StringUtilsHelper.java:210 | `isBlank`: a blank text holds no character of `[A-Za-z0-9]` |
| JavaLang.Segments | cartridges/andromda-java/src/main/java/org/andromda/cartridges/java/StringUtilsHelper.java:259 | the pieces between separators: at least one, and none holds the separator |
| JavaLang.JoinOfSegments | cartridges/andromda-java/src/main/java/org/andromda/cartridges/java/StringUtilsHelper.java:259 | joining the pieces with the separator gives the text back |
| JavaLang.DropTrailingEmpty | cartridges/andromda-java/src/main/java/org/andromda/cartridges/java/StringUtilsHelper.java:259 | `split` with limit 0 keeps a prefix of the pieces whose last one is non-empty, and every piece it drops is empty |
| JavaLang.SplitOfJoin | cartridges/andromda-java/src/main/java/org/andromda/cartridges/java/EnumClassGenerator.java:228 | splitting a join of separator-free strings gives them back when the last one is non-empty or the only one |
| JavaLang.SplitOfPlain | cartridges/andromda-java/src/main/java/org/andromda/cartridges/java/EnumClassGenerator.java:228 | a non-empty text without the separator splits into itself alone |
| JavaLang.SplitKeepsAllSegments | cartridges/andromda-java/src/main/java/org/andromda/cartridges/java/StringUtilsHelper.java:259 | a text that does not end with the separator loses no piece to `split` |
| JavaLang.LinesOfUnlines | cartridges/andromda-java/src/main/java/org/andromda/cartridges/java/EnumClassGenerator.java:173-180 | lines written with `println`, none holding a line break, read back as the same lines |
| JavaIo.Writer.constructor | cartridges/andromda-java/src/main/java/org/andromda/cartridges/java/EnumClassGenerator.java:68-69 | a fresh writer holds no text |
| JavaIo.Writer.Print | cartridges/andromda-java/src/main/java/org/andromda/cartridges/java/EnumClassGenerator.java:176 | `print(s)` appends exactly `s` |
| JavaIo.Writer.Println | cartridges/andromda-java/src/main/java/org/andromda/cartridges/java/EnumClassGenerator.java:177 | `println(s)` appends `s` and one newline, which is one line |
| JavaIo.Then | cartridges/andromda-java/src/main/java/org/andromda/cartridges/java/EnumClassGenerator.java:161-171 | writing lines `a` and then lines `b` writes the lines `a + b` |
| JavaIo.PrintThenPrintln | cartridges/andromda-java/src/main/java/org/andromda/cartridges/java/EnumClassGenerator.java:176-177 | `print(p)` then `println(s)` writes the one line `p + s` |
| JavaIo.FormatThenPrintln | cartridges/andromda-java/src/main/java/org/andromda/cartridges/java/EnumClassGenerator.java:96-97 | `format(p)` then `println()` writes the one line `p` |
| AndromdaHelper.BodyText | cartridges/andromda-java/src/main/java/org/andromda/cartridges/java/AndromdaHelper.java:40 | a present body is appended as it is; the text is `"null"` exactly when the body is null or reads `"null"`, so the two cannot be told apart |
| AndromdaHelper.Bodies | cartridges/andromda-java/src/main/java/org/andromda/cartridges/java/AndromdaHelper.java:39-40 | one text per comment, in order; a null body appends as `null` |
| AndromdaHelper.ConcatComments | cartridges/andromda-java/src/main/java/org/andromda/cartridges/java/AndromdaHelper.java:34-45 | the loop and `deleteCharAt` produce the bodies joined with `'\n'`; an empty list gives `""`; one comment gives its body unchanged; the length is the sum of the body lengths plus n-1 |
| AndromdaHelper.JoinLength | cartridges/andromda-java/src/main/java/org/andromda/cartridges/java/AndromdaHelper.java:38-43 | a join of n strings is as long as their lengths plus n-1 separators |
| AndromdaHelper.ConcatExample | cartridges/andromda-java/src/main/java/org/andromda/cartridges/java/AndromdaHelper.java:38-43 | bodies `a` and `b` give `a\nb`, with no trailing separator |
| AndromdaHelper.ConcatCommentsSplitsBack | cartridges/andromda-java/src/main/java/org/andromda/cartridges/java/AndromdaHelper.java:38-43 | splitting the result at `'\n'` gives back the bodies when none holds a `'\n'` and the last is non-empty |
| EnumClassGenerator.StarLines | cartridges/andromda-java/src/main/java/org/andromda/cartridges/java/EnumClassGenerator.java:175-178 | one ` * `-prefixed line per given line, in order |
| EnumClassGenerator.ResolveConstantValue | cartridges/andromda-java/src/main/java/org/andromda/cartridges/java/EnumClassGenerator.java:197-207 | the literal reads back, for its type name, to the default's text or, without a default, to the masked name, and is at least as long as that value |
| EnumClassGenerator.CommentLines | cartridges/andromda-java/src/main/java/org/andromda/cartridges/java/EnumClassGenerator.java:225-229 | no lines exactly when the concatenated comments are empty; otherwise `/**`, one line per piece of the split text, then ` */` |
| EnumClassGenerator.EnumClassSource | cartridges/andromda-java/src/main/java/org/andromda/cartridges/java/EnumClassGenerator.java:66-81 | the result of `generateEnumClass` fails exactly when there is no attribute or the classifier is not a Class; no attribute is reported first, as `NoSuchElement`, and a non-Class as the cast failure |
| EnumClassGenerator.EnumClassGenerator.constructor | cartridges/andromda-java/src/main/java/org/andromda/cartridges/java/EnumClassGenerator.java:56-57 | the collaborators are stored; `sourceDirectoryPackageName` and `javaType` start null |
| EnumClassGenerator.EnumClassGenerator.GenerateEnumClass | cartridges/andromda-java/src/main/java/org/andromda/cartridges/java/EnumClassGenerator.java:66-81 | no attributes is the `NoSuchElement` failure of `next()`, with `javaType` left as it was; otherwise `javaType` becomes the first attribute's type name, and the result is the package block followed by the enum, with that type as the payload type (a non-Class classifier is the cast failure) |
| EnumClassGenerator.EnumClassGenerator.GenerateFromStringMethod | cartridges/andromda-java/src/main/java/org/andromda/cartridges/java/EnumClassGenerator.java:93-98 | appends the comment naming the class, then `fromString(javaType value)` delegating to `Name.valueOf(value)` |
| EnumClassGenerator.EnumClassGenerator.GenerateValueMethod | cartridges/andromda-java/src/main/java/org/andromda/cartridges/java/EnumClassGenerator.java:110-114 | appends the value comment, then `value()` returning `javaType` |
| EnumClassGenerator.EnumClassGenerator.GenerateConstructor | cartridges/andromda-java/src/main/java/org/andromda/cartridges/java/EnumClassGenerator.java:126-132 | appends the payload field of type `javaType`, the constructor comment, then the private constructor taking a `javaType` |
| EnumClassGenerator.EnumClassGenerator.GenerateSerialVersionUID | cartridges/andromda-java/src/main/java/org/andromda/cartridges/java/EnumClassGenerator.java:144-151 | appends the serial comment, then the fixed `serialVersionUID = 1L` field |
| EnumClassGenerator.EnumClassGenerator.GenerateEnum | cartridges/andromda-java/src/main/java/org/andromda/cartridges/java/EnumClassGenerator.java:161-171 | fails with the cast error exactly when the classifier is not a Class, and by then has appended the line `public enum Name {` and nothing more; otherwise appends the header, constants, serial field, constructor, `fromString`, `value()` and `}` in this order |
| EnumClassGenerator.EnumClassGenerator.GenerateSimpleComment | cartridges/andromda-java/src/main/java/org/andromda/cartridges/java/EnumClassGenerator.java:173-180 | appends `/**`, one ` * ` line per given line in order, and ` */`, and nothing else |
| EnumClassGenerator.EnumClassGenerator.GeneratePackage | cartridges/andromda-java/src/main/java/org/andromda/cartridges/java/EnumClassGenerator.java:192-195 | appends the two-line package comment, then `package P;` with the package the helper resolves from the (null) source package |
| EnumClassGenerator.EnumClassGenerator.GenerateConstants | cartridges/andromda-java/src/main/java/org/andromda/cartridges/java/EnumClassGenerator.java:219-238 | for a non-Class classifier, writes nothing and fails with the cast error; otherwise appends one entry per attribute in order: the comment block, if any, then the declaration, punctuated by `count < size` |
| EnumClassGenerator.EnumClassGenerator.GenerateConstant | cartridges/andromda-java/src/main/java/org/andromda/cartridges/java/EnumClassGenerator.java:225-236 | one turn of the constants loop: the attribute's Javadoc block when its comments are not empty, then its declaration ended by `,` while `count` is below the number of attributes and by `;` for the last |
| EnumClassGenerator.LiteralRoundTrip | cartridges/andromda-java/src/main/java/org/andromda/cartridges/java/EnumClassGenerator.java:197-207 | the value is the default's text or, without one, the masked name; Integer and Boolean emit it unchanged, Long appends `L`, every other type quotes it without escaping; the literal reads back to that value |
| EnumClassGenerator.LiteralExamples | cartridges/andromda-java/src/main/java/org/andromda/cartridges/java/EnumClassGenerator.java:197-207 | Long 5 gives `5L`, Boolean true gives `true`, an absent String default gives the quoted masked name, String `x y` gives `"x y"` |
| EnumClassGenerator.ConstantCommentBlock | cartridges/andromda-java/src/main/java/org/andromda/cartridges/java/EnumClassGenerator.java:226-229 | a constant has a comment block exactly when its concatenated comments are non-empty; with non-empty single-line bodies the block holds one ` * ` line per comment, in order |
| EnumClassGenerator.DeclarationText | cartridges/andromda-java/src/main/java/org/andromda/cartridges/java/EnumClassGenerator.java:230-236 | the i-th declaration is `NAME(literal)` followed by `;` for the last attribute and `,` for every other |
| EnumClassGenerator.ConstantDeclarations | cartridges/andromda-java/src/main/java/org/andromda/cartridges/java/EnumClassGenerator.java:219-238 | leaving the comment blocks aside, the constants region is exactly the N declarations in attribute order |
| EnumClassGenerator.ConstantsWithoutComments | cartridges/andromda-java/src/main/java/org/andromda/cartridges/java/EnumClassGenerator.java:224-237 | without comments, the constants region is exactly the N declaration lines |
| EnumClassGenerator.ConstantsStep | cartridges/andromda-java/src/main/java/org/andromda/cartridges/java/EnumClassGenerator.java:224-237 | after the first `i` blocks of lines, writing block `i` gives the first `i + 1`; the constants loop applies it with one block per attribute |
| EnumClassGenerator.DeclarationsAppend | cartridges/andromda-java/src/main/java/org/andromda/cartridges/java/EnumClassGenerator.java:224-237 | the declaration lines of two regions written one after the other are those of the first, then those of the second |
| EnumClassGenerator.DeclarationsOfComment | cartridges/andromda-java/src/main/java/org/andromda/cartridges/java/EnumClassGenerator.java:173-180 | a Javadoc block holds no declaration line |
| EnumClassGenerator.EntryDeclarations | cartridges/andromda-java/src/main/java/org/andromda/cartridges/java/EnumClassGenerator.java:225-236 | one attribute's entry holds exactly one declaration line, its own |
| EnumClassGenerator.NewlineFreeEnumClass | cartridges/andromda-java/src/main/java/org/andromda/cartridges/java/EnumClassGenerator.java:66-81 | when no name, value or comment text holds a line break, no generated line does |
| EnumClassGenerator.ConstructorLayout | cartridges/andromda-java/src/main/java/org/andromda/cartridges/java/EnumClassGenerator.java:126-132 | the constructor block is the field, a three-line comment and the constructor, with the same payload type in both |
| EnumClassGenerator.HeaderLayout | cartridges/andromda-java/src/main/java/org/andromda/cartridges/java/EnumClassGenerator.java:192-195 | the package block is `/**`, the two comment lines, ` */` and `package P;` |
| EnumClassGenerator.EnumClassLinesLayout | cartridges/andromda-java/src/main/java/org/andromda/cartridges/java/EnumClassGenerator.java:161-171 | the whole output line by line: package block, header, constants, serial field, payload field and constructor, `fromString`, `value()`, `}`, with one payload type in all four places |
| EnumClassGenerator.EnumClassSourceLines | cartridges/andromda-java/src/main/java/org/andromda/cartridges/java/EnumClassGenerator.java:66-81 | for a Class with attributes, generation succeeds, and its text reads back as exactly those lines, with the first attribute's type as the payload type |
| EnumClassGenerator.StatusFirstEntry | cartridges/andromda-java/src/main/java/org/andromda/cartridges/java/EnumClassGenerator.java:230-236 | `active`, with no default and no comment, becomes `ACTIVE("ACTIVE"),` |
| EnumClassGenerator.StatusSecondEntry | cartridges/andromda-java/src/main/java/org/andromda/cartridges/java/EnumClassGenerator.java:226-236 | `inactive`, with default `OFF` and comment `Disabled state`, last, becomes its comment block followed by `INACTIVE("OFF");` |
| EnumClassGenerator.StatusComment | cartridges/andromda-java/src/main/java/org/andromda/cartridges/java/EnumClassGenerator.java:226-229 | the `Disabled state` comment becomes a three-line Javadoc block |
| EnumClassGenerator.StatusExample | cartridges/andromda-java/src/main/java/org/andromda/cartridges/java/EnumClassGenerator.java:219-238 | the constants region of the `Status` enumeration, line by line |
| StringUtilsHelper.ReplaceSuffix | cartridges/andromda-java/src/main/java/org/andromda/cartridges/java/StringUtilsHelper.java:46-56 | a text ending with the old suffix ends with the new one instead, with the same text before it; any other text is unchanged |
| StringUtilsHelper.ReplaceSuffixRoundTrip | cartridges/andromda-java/src/main/java/org/andromda/cartridges/java/StringUtilsHelper.java:46-56 | replacing the suffix back restores the original text |
| StringUtilsHelper.RemoveLastOccurrence | cartridges/andromda-java/src/main/java/org/andromda/cartridges/java/StringUtilsHelper.java:101-119 | a null argument or an absent value leaves the text as it is; otherwise the result is shorter by the value's length, and putting the value back at the last index of `lastIndexOf` restores the text |
| StringUtilsHelper.Spaced | cartridges/andromda-java/src/main/java/org/andromda/cartridges/java/StringUtilsHelper.java:234-241 | the matcher loop's buffer is at least as long as the text it has read and ends with that text's last character |
| StringUtilsHelper.SpacedLead | cartridges/andromda-java/src/main/java/org/andromda/cartridges/java/StringUtilsHelper.java:234-241 | in the buffer every run of capitals has a non-word character, or nothing, before it |
| StringUtilsHelper.SpacedWordChars | cartridges/andromda-java/src/main/java/org/andromda/cartridges/java/StringUtilsHelper.java:234-241 | inserting the spaces keeps the `[A-Za-z0-9]` characters and their order |
| StringUtilsHelper.WordChars | cartridges/andromda-java/src/main/java/org/andromda/cartridges/java/StringUtilsHelper.java:244 | the characters that the split pattern does not match form a word |
| StringUtilsHelper.DropSeparators | cartridges/andromda-java/src/main/java/org/andromda/cartridges/java/StringUtilsHelper.java:244 | one maximal run of the pattern consumed: what is left is a suffix starting with a word character, and everything dropped was a separator |
| StringUtilsHelper.Pieces | cartridges/andromda-java/src/main/java/org/andromda/cartridges/java/StringUtilsHelper.java:244 | splitting at the pattern gives at least one piece, and the first piece is a prefix of the text |
| StringUtilsHelper.PiecesAreWords | cartridges/andromda-java/src/main/java/org/andromda/cartridges/java/StringUtilsHelper.java:244 | every piece holds only `[A-Za-z0-9]` |
| StringUtilsHelper.PiecesConcat | cartridges/andromda-java/src/main/java/org/andromda/cartridges/java/StringUtilsHelper.java:244 | the pieces, put together, are the text's word characters in order |
| StringUtilsHelper.PiecesLead | cartridges/andromda-java/src/main/java/org/andromda/cartridges/java/StringUtilsHelper.java:244 | splitting keeps the property that every run of capitals starts a part |
| StringUtilsHelper.WordSplit | cartridges/andromda-java/src/main/java/org/andromda/cartridges/java/StringUtilsHelper.java:244 | `split` drops trailing empty parts: the result is empty, `[""]`, or ends with a non-empty part |
| StringUtilsHelper.WordParts | cartridges/andromda-java/src/main/java/org/andromda/cartridges/java/StringUtilsHelper.java:232-245 | the splitter's parts end with a non-empty one unless they are none or the single `""`, which is what an empty trimmed text gives |
| StringUtilsHelper.WordPartsProperties | cartridges/andromda-java/src/main/java/org/andromda/cartridges/java/StringUtilsHelper.java:232-245 | every part is a word in which every maximal run of capitals starts the part; the parts concatenate to the trimmed text's word characters; no part at all exactly when the trimmed text is non-empty and holds no word character |
| StringUtilsHelper.SplitAtNonWordCharacters | cartridges/andromda-java/src/main/java/org/andromda/cartridges/java/StringUtilsHelper.java:232-245 | the matcher loop builds the spaced text, which is then split: the parts are words, each run of capitals starts its part, and together they are the word characters of the trimmed text |
| StringUtilsHelper.Capitalized | cartridges/andromda-java/src/main/java/org/andromda/cartridges/java/StringUtilsHelper.java:79-90 | each part with its first character upper-cased, in order |
| StringUtilsHelper.UpperCamel | cartridges/andromda-java/src/main/java/org/andromda/cartridges/java/StringUtilsHelper.java:70-92 | `upperCamelCaseName` is null exactly for null, and gives back an empty text as it is |
| StringUtilsHelper.UpperCamelCaseName | cartridges/andromda-java/src/main/java/org/andromda/cartridges/java/StringUtilsHelper.java:70-92 | the loop, including its separate branch for parts shorter than 2, builds an empty or null text as it is, and otherwise the capitalized parts concatenated |
| StringUtilsHelper.CapitalizeWord | cartridges/andromda-java/src/main/java/org/andromda/cartridges/java/StringUtilsHelper.java:81-89 | a capitalized word is still a word and does not start with a small letter |
| StringUtilsHelper.ConcatCapitalized | cartridges/andromda-java/src/main/java/org/andromda/cartridges/java/StringUtilsHelper.java:79-91 | capitalizing the parts keeps the total length and yields only word characters, starting with no small letter |
| StringUtilsHelper.UpperCamelProperties | cartridges/andromda-java/src/main/java/org/andromda/cartridges/java/StringUtilsHelper.java:70-92 | for non-empty input the result holds only alphanumerics, as many as the trimmed text has, and does not start with a small letter |
| StringUtilsHelper.LowerCamelCaseName | cartridges/andromda-java/src/main/java/org/andromda/cartridges/java/StringUtilsHelper.java:133-136 | null exactly for null; as long as the upper camel form; it does not start with a capital |
| StringUtilsHelper.LowerCamelRoundTrip | cartridges/andromda-java/src/main/java/org/andromda/cartridges/java/StringUtilsHelper.java:133-136 | capitalizing the lower camel form gives the upper camel form back |
| StringUtilsHelper.NonBlank | cartridges/andromda-java/src/main/java/org/andromda/cartridges/java/StringUtilsHelper.java:218-224 | the parts the loop keeps are non-blank and taken from the input |
| StringUtilsHelper.TerminatedThenLast | cartridges/andromda-java/src/main/java/org/andromda/cartridges/java/StringUtilsHelper.java:218-225 | what the loop writes, followed by the final part, is the non-blank non-final parts and the final part, joined with the separator |
| StringUtilsHelper.Separated | cartridges/andromda-java/src/main/java/org/andromda/cartridges/java/StringUtilsHelper.java:206-226 | a successful result is null exactly when the input is |
| StringUtilsHelper.Separate | cartridges/andromda-java/src/main/java/org/andromda/cartridges/java/StringUtilsHelper.java:206-226 | the indexed loop computes `Separated`: blank input as it is; no part at all is the out-of-bounds error of reading the last part |
| StringUtilsHelper.SeparatedCases | cartridges/andromda-java/src/main/java/org/andromda/cartridges/java/StringUtilsHelper.java:206-226 | the three paths of `separate`: blank, no part, and the loop's text plus the last part |
| StringUtilsHelper.SeparatedFails | cartridges/andromda-java/src/main/java/org/andromda/cartridges/java/StringUtilsHelper.java:210-225 | `separate` throws exactly on non-blank text whose trimmed form is non-empty and holds no word character |
| StringUtilsHelper.SeparatedSplitsBack | cartridges/andromda-java/src/main/java/org/andromda/cartridges/java/StringUtilsHelper.java:206-226 | with a separator outside `[A-Za-z0-9]`, splitting the result at it gives the non-empty non-final parts and the final part |
| StringUtilsHelper.ToResourceMessageKey | cartridges/andromda-java/src/main/java/org/andromda/cartridges/java/StringUtilsHelper.java:180-183 | fails exactly when `separate` of the trimmed text with `.` fails; otherwise the key has no capital letter |
| StringUtilsHelper.ToPhrase | cartridges/andromda-java/src/main/java/org/andromda/cartridges/java/StringUtilsHelper.java:185-197 | fails exactly when `separate` with a space fails; otherwise null exactly when the separated text is, and else that text with its first character upper-cased and the rest unchanged, at the same length; blank input comes back as it is; a phrase does not start with a small letter |
| StringUtilsHelper.Suffixed | cartridges/andromda-java/src/main/java/org/andromda/cartridges/java/StringUtilsHelper.java:261-266 | every line followed by the suffix, in order |
| StringUtilsHelper.SplitTrimmedLines | cartridges/andromda-java/src/main/java/org/andromda/cartridges/java/StringUtilsHelper.java:259 | the trimmed text does not end with `'\n'`, so `split` keeps every line, and there is at least one |
| StringUtilsHelper.SuffixLines | cartridges/andromda-java/src/main/java/org/andromda/cartridges/java/StringUtilsHelper.java:255-268 | the loop writes each line of the trimmed text, then the suffix, then `'\n'`; the result is never empty and ends with `'\n'` |
| StringUtilsHelper.SuffixLinesReadBack | cartridges/andromda-java/src/main/java/org/andromda/cartridges/java/StringUtilsHelper.java:255-268 | the lines joined back are the trimmed text, and the result reads back as those lines, each with the suffix |
| StringUtilsHelper.StripBackslashes | cartridges/andromda-java/src/main/java/org/andromda/cartridges/java/StringUtilsHelper.java:285-290 | the `while` loop's result never ends with a backslash, is no longer than its input, and stays trimmed |
| StringUtilsHelper.StripStep | cartridges/andromda-java/src/main/java/org/andromda/cartridges/java/StringUtilsHelper.java:285-290 | one iteration finds the backslash, shortens the text and leaves the loop's final result unchanged |
| StringUtilsHelper.ResourceMessage | cartridges/andromda-java/src/main/java/org/andromda/cartridges/java/StringUtilsHelper.java:278-294 | null exactly for blank input; a message is trimmed and never ends with a backslash |
| StringUtilsHelper.ToResourceMessage | cartridges/andromda-java/src/main/java/org/andromda/cartridges/java/StringUtilsHelper.java:278-294 | the method with its loop computes `ResourceMessage` |
| StringUtilsHelper.ResourceMessageOfOneLine | cartridges/andromda-java/src/main/java/org/andromda/cartridges/java/StringUtilsHelper.java:278-294 | a trimmed single line that does not end with a backslash is its own message |
| StringUtilsHelper.ResourceMessageOfLines | cartridges/andromda-java/src/main/java/org/andromda/cartridges/java/StringUtilsHelper.java:278-294 | for non-blank text whose trimmed form does not end with a backslash: the lines of the trimmed text joined by `'\n'`, every line but the last followed by ` \`, and the last line without it |
| StringUtilsHelper.PrefixWithAPredicate | cartridges/andromda-java/src/main/java/org/andromda/cartridges/java/StringUtilsHelper.java:306-328 | a null word throws a `NullPointerException` and an empty word is out of bounds; otherwise the word follows `an ` when it starts with a, e, i or o, and follows `a ` when it does not |
| StringUtilsHelper.DropSpaceRun | cartridges/andromda-java/src/main/java/org/andromda/cartridges/java/StringUtilsHelper.java:342 | the rest of a run of `[$\s]` consumed: what is left does not start with one |
| StringUtilsHelper.CollapseRuns | cartridges/andromda-java/src/main/java/org/andromda/cartridges/java/StringUtilsHelper.java:342 | the shape `replaceAll` leaves: of `[$\s]` only single spaces are left, no two spaces are adjacent, and a leading space comes only from a leading run; `CollapseRunToSpace` and `CollapseKeeps` state what becomes of each character |
| StringUtilsHelper.CollapseRunToSpace | cartridges/andromda-java/src/main/java/org/andromda/cartridges/java/StringUtilsHelper.java:342 | each maximal run of `[$\s]` becomes exactly one space, and the text on either side of it collapses on its own |
| StringUtilsHelper.CollapseKeeps | cartridges/andromda-java/src/main/java/org/andromda/cartridges/java/StringUtilsHelper.java:342 | the replacement touches only `[$\s]`: the characters outside it are those of the input, in order |
| StringUtilsHelper.ToSingleLine | cartridges/andromda-java/src/main/java/org/andromda/cartridges/java/StringUtilsHelper.java:339-343 | null gives `""`; the result has no line break and no space run, and is trimmed; its content is stated by `ToSingleLineKeeps` and `ToSingleLineOfTwoWords` |
| StringUtilsHelper.ToSingleLineOfTwoWords | cartridges/andromda-java/src/main/java/org/andromda/cartridges/java/StringUtilsHelper.java:331-343 | two words with any run of `[$\s]` between them come out as the two words and one space, so whitespace is normalized, not deleted |
| StringUtilsHelper.ToSingleLineKeeps | cartridges/andromda-java/src/main/java/org/andromda/cartridges/java/StringUtilsHelper.java:339-343 | the result's characters outside `[$\s]` are the input's, in order, less those `trim` removes at the two ends |
| StringUtilsHelper.CollapseOfCollapsed | cartridges/andromda-java/src/main/java/org/andromda/cartridges/java/StringUtilsHelper.java:342 | collapsing text that has no runs changes nothing |
| StringUtilsHelper.ToSingleLineIdempotent | cartridges/andromda-java/src/main/java/org/andromda/cartridges/java/StringUtilsHelper.java:339-343 | single-lining a single line changes nothing |
| StringUtilsHelper.FormatGuards | cartridges/andromda-java/src/main/java/org/andromda/cartridges/java/StringUtilsHelper.java:426-448 | throws `IllegalArgumentException` exactly for a column below 1; a null indentation counts as `""`; blank text returns the indentation; other text goes on to wrapping with that text, that indentation, the column and the style as given |
| StringUtilsHelper.FormatAtColumn | cartridges/andromda-java/src/main/java/org/andromda/cartridges/java/StringUtilsHelper.java:385-391 | throws exactly for a column below 1; blank text returns the indentation, null counting as `""`; other text wraps in HTML style at the given column, with the indentation, null counting as `""` |
| StringUtilsHelper.FormatIndented | cartridges/andromda-java/src/main/java/org/andromda/cartridges/java/StringUtilsHelper.java:367-372 | a null indentation throws a `NullPointerException`; an indentation of 100 or more characters, counted as Unicode scalar values, makes the column non-positive and throws; otherwise HTML style, wrapping at 100 less the indentation |
| StringUtilsHelper.FormatPlain | cartridges/andromda-java/src/main/java/org/andromda/cartridges/java/StringUtilsHelper.java:353-356 | never throws; blank text gives `""`, other text wraps at column 100 with no indentation |
| StringUtilsHelper.StartsWithLowercaseLetter | cartridges/andromda-java/src/main/java/org/andromda/cartridges/java/StringUtilsHelper.java:145-153 | null exactly for null or empty text; otherwise whether the first character is a small letter |
| StringUtilsHelper.StartsWithUppercaseLetterAsWritten | cartridges/andromda-java/src/main/java/org/andromda/cartridges/java/StringUtilsHelper.java:162-170 | null for null; the empty text throws in `substring(0, 1)`; otherwise whether the first character is a capital |
| StringUtilsHelper.StartsWithOnEmptyText | cartridges/andromda-java/src/main/java/org/andromda/cartridges/java/StringUtilsHelper.java:145-170 | on `""` the lower-case check answers null while the upper-case check throws |
| StringUtilsHelper.StartsWithUppercaseLetter | cartridges/andromda-java/src/main/java/org/andromda/cartridges/java/StringUtilsHelper.java:162-170 | with its sibling's guard: null exactly for null or empty text; otherwise whether the first character is a capital |
| StringUtilsHelper.StartsWithUppercaseLetterAgrees | cartridges/andromda-java/src/main/java/org/andromda/cartridges/java/StringUtilsHelper.java:162-170 | the corrected check agrees with the written one on every input but `""`, and no text starts both upper- and lower-case |

## Left out

- Logging (`logger.log`) is not modelled, because it writes nothing to the generated text.
- `writer.flush()` is not modelled, because a `StringWriter` has nothing to flush.
- `JavaTransformer` and the end-to-end module test are not part of this model. They are the driver: UML model walking, stereotype lookup and file writing.
- `AndromdaHelper.createComment` is not part of this model. It builds JDT syntax-tree nodes through a foreign library.
- The collaborators' sources are not part of this model. `NameMasker.mask`, `PackageHelper.getFullPackageName` and the two `PackageComment` texts are constructor parameters of `EnumClassGenerator`, and no property of them is assumed.
- The UML metamodel is reduced to the fields the generator reads. A property's type is its type name, and `getType()` returning null is not modelled.
- A default value is modelled as the text its `toString()` gives; the EMF rendering of value specifications is left out.
- `getClassName` and `getFullPackageName` are inlined: they return the classifier's name and the helper's answer.
- `println` appends one fixed `'\n'`. The platform `line.separator` is not modelled.
- The bodies of `format`, which delegate to `WordUtils.wrap` and read lines through a `BufferedReader`, are left out. Only the guard clauses and the arguments they pass on are modelled (`Formatting.Wraps`).
- `getLineSeparator` is not modelled; `LINE_SEPARATOR` is the constant `"\n"`.
- The Java regular-expression engine is not modelled. The two patterns are written as character scans: `[A-Z]+` with `[^A-Za-z0-9]+` in the splitter, and `[$\s]+` in `toSingleLine`.
- Unicode case mapping is replaced by ASCII case mapping. `upperCamelCaseName` (`StringUtilsHelper.java:83` and `:87`) and `toResourceMessageKey` (`:182`) call `toUpperCase()` and `toLowerCase()` without a `Locale`, on text that is blank or holds only `[A-Za-z0-9]` and the separator. There the two mappings agree, except that under a Turkish or Azeri default locale `"i"` upper-cases to `"İ"` and `"I"` lower-cases to `"ı"`.
  - `UpperCamelProperties`' word-characters-only result assumes a default locale that is not Turkic.
  - `ToResourceMessageKey`'s absence of capitals holds under any locale, because `"ı"` is no capital either.
  - `toPhrase` capitalizes with `Character.toTitleCase`, which ignores the locale. It sees only `[A-Za-z0-9 ]` or blank text, where the two mappings agree.
- StringUtilsHelper.FormatIndented: a `string` here is a sequence of Unicode scalar values, while Java's `length()` (`StringUtilsHelper.java:371`) counts UTF-16 code units. An indentation holding characters outside the Basic Multilingual Plane is measured shorter here, one unit less for each such character, and so gets a larger wrapping column.
- StringUtilsHelper.StartsWithLowercaseLetter: `isAllLowerCase` and `isAlpha` are read as ASCII, so a first character that is a non-ASCII letter answers `false` here.
- StringUtilsHelper.StartsWithUppercaseLetter: the same ASCII reading of `isAllUpperCase` and `isAlpha`.
- StringUtilsHelper.StartsWithUppercaseLetterAsWritten: the same ASCII reading of `isAllUpperCase` and `isAlpha`.
- StringUtilsHelper.ReplaceSuffix: takes non-null strings only. A null argument makes the source throw a `NullPointerException`.
- StringUtilsHelper.ToResourceMessageKey: states absence of capitals and the failure condition, not the exact key, which is `separate`'s text lower-cased.

## Findings

| source | as written | input that shows it | evidently intended | confidence | as-written member | corrected member |
|---|---|---|---|---|---|---|
| cartridges/andromda-java/src/main/java/org/andromda/cartridges/java/StringUtilsHelper.java:162-170 | `startsWithUppercaseLetter` guards only against null, then takes `substring(0, 1)` | `""`: `substring(0, 1)` throws `StringIndexOutOfBoundsException`, while `startsWithLowercaseLetter("")` returns null | null for an empty text, like its sibling at lines 145-153, whose documentation both share | medium, not executed | StringUtilsHelper.StartsWithUppercaseLetterAsWritten (counterexample: StringUtilsHelper.StartsWithOnEmptyText) | StringUtilsHelper.StartsWithUppercaseLetter (agreement: StringUtilsHelper.StartsWithUppercaseLetterAgrees) |
