/** The slice of the compiler's symbol model that the service processor looks
    at, as plain values: class declarations, type references that may still be
    unresolved, and the `value` argument of a `@Service` annotation. */
module Symbols {

  datatype Option<T> = None | Some(value: T)

  /** A class declaration: its package, its qualified name (package, then each
      enclosing class, then the simple name, separated by dots) and whether it
      is local or anonymous. */
  datatype ClassInfo = ClassInfo(pkg: string, qualifiedName: string, isLocal: bool)

  /** A `KSType`. An unresolved type is an error type; a resolved one has the
      simple name of its declaration and may or may not lead to a class
      declaration (`closestClassDeclaration()`). */
  datatype TypeRef =
    | ErrorType
    | ResolvedType(name: string, decl: Option<ClassInfo>)

  /** The decoded `value` argument of the annotation: absent or null, a list of
      classes, a single class, or something else (a failed cast). */
  datatype ArgValue =
    | NullValue
    | ListValue(types: seq<TypeRef>)
    | SingleValue(single: TypeRef)
    | OtherValue

  /** A class declaration found through the `@Service` annotation. `annotation`
      is `None` when the annotation instance cannot be found on it again.
      `supertypes` is the closure `getAllSuperTypes()` would compute. */
  datatype Candidate = Candidate(
    info: ClassInfo,
    file: string,
    supertypes: seq<TypeRef>,
    annotation: Option<ArgValue>)

  /** A symbol carrying the annotation: only class declarations are processed. */
  datatype Symbol = ClassSymbol(decl: Candidate) | OtherSymbol

  /** What the processor reports to the compiler's logger, by kind. The string
      payload names the declaration (or the path) the report is about. */
  datatype Diagnostic =
    | ServiceAnnotationMissing
    | AnnotationNotLocated(declaration: string)
    | ValueIsNull(declaration: string)
    | ValueHasWrongType(declaration: string)
    | NoServiceInterfaces(declaration: string)
    | ClassDeclarationMissing(declaration: string)
    | DoesNotImplement(declaration: string, service: string)
    | WriteFailed(path: string, cause: string)
}
