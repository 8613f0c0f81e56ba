/** What the scanner reports through clang's DiagnosticsEngine, reduced to the diagnostic's id,
    the location it is reported at, the arguments streamed into it and an optional fix-it. The
    message wording is clang's and schreiber's diagnostic tables, which this model leaves out. */
module Diagnostics {
  import opened Base
  import opened Ast
  import opened Commands

  /** The diagnostics the core reports. */
  datatype DiagId =
    | WarnUndocumentedDecl
    | NoteUndocumentedDecl
    | WarnUnknownDirective
    | ErrLoneBackslash
    | WarnUnsupportedDoxygenDirective
    | ErrUnknownParameter
    | NoteUnknownParameter
    | ErrRepeatedDirective
    | NotePreviousDefinition

  /** One argument streamed into a diagnostic with `<<`. */
  datatype Arg =
    | IntArg(i: int)
    | BoolArg(b: bool)
    | StrArg(s: string)
    | DeclArg(d: DeclRef)
    | KindArg(k: DirectiveKind)

  /** A replacement of the source text between two locations. */
  datatype FixIt = FixIt(begin: Loc, end: Loc, replacement: string)

  datatype Diagnostic = Diagnostic(id: DiagId, loc: Loc, args: seq<Arg>, fixit: Option<FixIt>)

  /** A diagnostic without a fix-it. */
  function Report(id: DiagId, loc: Loc, args: seq<Arg>): Diagnostic
  {
    Diagnostic(id, loc, args, None)
  }
}
