/**
 * The slice of the UML2 metamodel that the enum generator reads: a
 * classifier, its attributes in order, and the comments owned by each.
 */
module Uml {
  import opened JavaLang

  /** A UML comment; its body may be null. */
  datatype Comment = Comment(body: Option<string>)

  /**
   * One attribute of the enumeration class. `typeName` is the name of the
   * attribute's type, `defaultValue` the text that its default value renders
   * as (absent when no default is modelled).
   */
  datatype Property = Property(
    name: string,
    typeName: string,
    defaultValue: Option<string>,
    ownedComments: seq<Comment>)

  /**
   * The classifier being generated. `isClass` says whether it is a UML Class
   * (the generator casts to Class); `packagePath` is what the package helper
   * reads to name the package.
   */
  datatype Classifier = Classifier(
    name: string,
    isClass: bool,
    attributes: seq<Property>,
    packagePath: seq<string>)
}
