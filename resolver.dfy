/** The unknown-directive resolver of source/parser/parser_common.cpp: a keyword `lex` does not
    know is reported as an unsupported Doxygen command (with a suggested replacement and, when the
    directive starts the comment's own line, a fix-it), as an unknown directive, or as a lone
    backslash. Clang's table of Doxygen commands is a given set of names, and the source manager's
    presumed locations a given map. */
module Resolver {
  import opened Base
  import opened Ast
  import opened Commands
  import opened Diagnostics

  /** What the parser consults besides the comment: the generated command table, the names clang's
      CommandTraits knows as Doxygen commands, and the presumed position of each location. */
  datatype Env = Env(commands: seq<CommandInfo>, doxygen: set<string>, presumed: map<Loc, Position>)

  /** The presumed (file, line, column) of a location; None for an invalid presumed location. */
  function PresumedOf(presumed: map<Loc, Position>, loc: Loc): Option<Position>
  {
    if loc in presumed then Some(presumed[loc]) else None
  }

  /** is_equal: two presumed locations are equal only when both are valid and their file, line
      and column all agree. */
  function IsEqual(x: Option<Position>, y: Option<Position>): (r: bool)
    ensures r <==> x.Some? && y.Some? && x.value == y.value
  {
    if x.None? || y.None? then false
    else x.value.file == y.value.file && x.value.line == y.value.line && x.value.column == y.value.column
  }

  /** The first command that lists `name` among the Doxygen commands it replaces. */
  function FindEquivalent(commands: seq<CommandInfo>, name: string): (r: Option<nat>)
    ensures r.Some? ==> r.value < |commands| && name in commands[r.value].equivalentDoxygenCommands
    ensures r.Some? ==> forall j :: 0 <= j < r.value ==> name !in commands[j].equivalentDoxygenCommands
    ensures r.None? <==> forall j :: 0 <= j < |commands| ==> name !in commands[j].equivalentDoxygenCommands
  {
    if commands == [] then None
    else if name in commands[0].equivalentDoxygenCommands then Some(0)
    else match FindEquivalent(commands[1..], name)
      case Some(i) => Some(i + 1)
      case None => None
  }

  /** diagnose_unsupported_doxygen_directive: the warning names the command and whether there is
      an alternative, and then the alternative's kind when there is one. The fix-it replaces the
      command's name, just after the backslash, by the alternative's keyword. */
  function UnsupportedDoxygen(commands: seq<CommandInfo>, presumed: map<Loc, Position>, loc: Loc,
                              commentBegin: Option<Position>, name: string): (d: Diagnostic)
    ensures d.id == WarnUnsupportedDoxygenDirective && d.loc == loc
    ensures |d.args| >= 2 && d.args[0] == StrArg(name) && d.args[1] == BoolArg(FindEquivalent(commands, name).Some?)
    ensures FindEquivalent(commands, name).None? ==> |d.args| == 2
    ensures FindEquivalent(commands, name).Some? ==>
      d.args == [StrArg(name), BoolArg(true), KindArg(commands[FindEquivalent(commands, name).value].kind)]
    ensures d.fixit.Some? <==>
      FindEquivalent(commands, name).Some? && IsEqual(PresumedOf(presumed, loc), commentBegin)
    ensures d.fixit.Some? ==>
      d.fixit.value == FixIt(loc + 1, loc + |name| + 1, commands[FindEquivalent(commands, name).value].name)
  {
    var equivalent := FindEquivalent(commands, name);
    var args := [StrArg(name), BoolArg(equivalent.Some?)]
      + (if equivalent.Some? then [KindArg(commands[equivalent.value].kind)] else []);
    var fixit := if equivalent.Some? && IsEqual(PresumedOf(presumed, loc), commentBegin)
      then Some(FixIt(loc + 1, loc + |name| + 1, commands[equivalent.value].name))
      else None;
    Diagnostic(WarnUnsupportedDoxygenDirective, loc, args, fixit)
  }

  /** Where the unknown directive is reported: past the comment's indentation when the entity
      has a description. */
  function NextLoc(directiveLoc: Loc, hasDescription: bool, commentBegin: Position): Loc
  {
    directiveLoc + (if hasDescription then commentBegin.column - 1 else 0)
  }

  /** diagnose_unknown_directive: exactly one diagnostic, chosen by three exclusive cases. */
  function DiagnoseUnknownDirective(commands: seq<CommandInfo>, doxygen: set<string>, presumed: map<Loc, Position>,
                                    directiveLoc: Loc, directive: string, hasDescription: bool,
                                    commentBegin: Position): (d: Diagnostic)
    ensures d.loc == NextLoc(directiveLoc, hasDescription, commentBegin)
    ensures d.id == WarnUnsupportedDoxygenDirective <==> directive in doxygen
    ensures d.id == WarnUnknownDirective <==> directive !in doxygen && directive != []
    ensures d.id == ErrLoneBackslash <==> directive !in doxygen && directive == []
    ensures d.id == WarnUnknownDirective ==> d.args == [StrArg(directive)]
    ensures d.id == ErrLoneBackslash ==> d.args == []
    ensures d.fixit.Some? ==> d.id == WarnUnsupportedDoxygenDirective
    ensures d.id == WarnUnsupportedDoxygenDirective ==>
      d == UnsupportedDoxygen(commands, presumed, d.loc, Some(commentBegin), directive)
  {
    var nextLoc := NextLoc(directiveLoc, hasDescription, commentBegin);
    if directive in doxygen then UnsupportedDoxygen(commands, presumed, nextLoc, Some(commentBegin), directive)
    else if directive != [] then Report(WarnUnknownDirective, nextLoc, [StrArg(directive)])
    else Report(ErrLoneBackslash, nextLoc, [])
  }

  /** A fix-it is offered exactly for a Doxygen command with a replacement, reported where its
      presumed position is the comment line's own start. */
  lemma FixItOnlyWhenPositionsMatch(commands: seq<CommandInfo>, doxygen: set<string>, presumed: map<Loc, Position>,
                                    directiveLoc: Loc, directive: string, hasDescription: bool, commentBegin: Position)
    ensures var d := DiagnoseUnknownDirective(commands, doxygen, presumed, directiveLoc, directive, hasDescription, commentBegin);
      d.fixit.Some? <==>
        && directive in doxygen
        && FindEquivalent(commands, directive).Some?
        && NextLoc(directiveLoc, hasDescription, commentBegin) in presumed
        && presumed[NextLoc(directiveLoc, hasDescription, commentBegin)] == commentBegin
  {
  }

  /** FindEquivalent returns the first entry listing the name. */
  lemma FindEquivalentFirst(commands: seq<CommandInfo>, name: string, i: nat)
    requires i < |commands| && name in commands[i].equivalentDoxygenCommands
    requires forall j :: 0 <= j < i ==> name !in commands[j].equivalentDoxygenCommands
    ensures FindEquivalent(commands, name) == Some(i)
  {
  }

  /** `\return`, `\retval` and `\result` are reported with '\returns' as their replacement. */
  lemma ReturnAliasesSuggestReturns(name: string)
    requires name in ["return", "retval", "result"]
    ensures FindEquivalent(SchreiberCommands, name) == Some(SchreiberIndex(Returns))
  {
    var c := SchreiberCommands;
    assert name in c[3].equivalentDoxygenCommands;
    assert forall j :: 0 <= j < 3 ==> c[j].equivalentDoxygenCommands == [];
    FindEquivalentFirst(c, name, 3);
  }

  /** `\throw` and `\exception` are reported with '\throws' as their replacement. */
  lemma ThrowAliasesSuggestThrows(name: string)
    requires name in ["throw", "exception"]
    ensures FindEquivalent(SchreiberCommands, name) == Some(SchreiberIndex(Throws))
  {
    var c := SchreiberCommands;
    assert name in c[6].equivalentDoxygenCommands;
    assert |name| != 6;
    assert name !in c[3].equivalentDoxygenCommands;
    assert forall j :: 0 <= j < 6 && j != 3 ==> c[j].equivalentDoxygenCommands == [];
    FindEquivalentFirst(c, name, 6);
  }

  /** Any other Doxygen command, such as `\extends`, has no replacement. */
  lemma OtherCommandsHaveNoEquivalent(name: string)
    requires name !in ["return", "retval", "result", "throw", "exception"]
    ensures FindEquivalent(SchreiberCommands, name) == None
  {
    var c := SchreiberCommands;
    assert c[3].equivalentDoxygenCommands == ["return", "retval", "result"];
    assert c[6].equivalentDoxygenCommands == ["throw", "exception"];
    assert forall j :: 0 <= j < |c| && j != 3 && j != 6 ==> c[j].equivalentDoxygenCommands == [];
  }
}
