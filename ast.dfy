/** The clang boundary of the documentation scanner. Everything here is an opaque input supplied
    by the AST provider: source locations become integer offsets, presumed locations become
    (file, line, column) triples, and declarations become records carrying a location, a name, a
    kind and the context facts the scanner asks about. */
module Ast {
  import opened Base

  /** A clang::SourceLocation, reduced to an offset; offset 0 is clang's invalid location. */
  type Loc = int

  const InvalidLoc: Loc := 0

  predicate IsValid(l: Loc) { l != InvalidLoc }

  /** A valid clang::PresumedLoc: file id, line and column. */
  datatype Position = Position(file: nat, line: nat, column: nat)

  /** One line of clang::RawComment::getFormattedLines: the text and where it begins. */
  datatype CommentLine = CommentLine(text: string, begin: Position)

  /** A raw comment: its formatted lines, its begin location, and the presumed column of that
      location (SourceManager::getPresumedColumnNumber). */
  datatype RawComment = RawComment(lines: seq<CommentLine>, beginLoc: Loc, beginColumn: nat)

  /** What a diagnostic or a documentation record needs to know about a named declaration. */
  datatype DeclRef = DeclRef(id: nat, name: string, location: Loc)

  /** clang::Decl::Kind, restricted to the kinds the scanner distinguishes, with the facts about
      records, methods and constructors that get_kind queries. */
  datatype DeclKind =
    | Concept
    | CXXRecord(isClass: bool, isStruct: bool)
    | ClassTemplate
    | Enum
    | EnumConstant
    | Function
    | FunctionTemplate
    | TypeAlias
    | TypeAliasTemplate
    | Typedef
    | Var
    | VarTemplate
    | CXXMethod(isMoveAssignment: bool, isCopyAssignment: bool)
    | CXXConstructor(isDefault: bool, isMove: bool, isCopy: bool)
    | CXXDestructor
    | CXXConversion
    | CXXDeductionGuide
    | OtherKind

  /** The declaration context facts used by the parser: whether the declaration sits inside a
      function or method, whether its context is a record, and its outer lexical record. */
  datatype DeclContext = DeclContext(isFunctionOrMethod: bool, isRecord: bool, outerRecord: Option<DeclRef>)

  /** A declaration with its parameters (empty for non-functions), in declaration order. */
  datatype Decl = Decl(ref: DeclRef, kind: DeclKind, context: DeclContext, params: seq<DeclRef>)
}
