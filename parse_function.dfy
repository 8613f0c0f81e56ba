/** source/parser/parse_function.cpp: `parse_info`, the loop that validates a function's
    directives one by one (a `\param` must name one of the function's parameters and may appear
    once per name, `\returns` may appear once, the other payloads are stripped and appended), and
    `visit`, which reports a comment-less function or locates its first directive. */
module ParseFunction {
  import opened Base
  import opened Ast
  import opened Text
  import opened Commands
  import opened Diagnostics
  import opened Info
  import opened Scanner
  import opened Resolver

  /** `parse_info_result::return_result`: the return description and where its directive was;
      the location stays invalid until a `\returns` is accepted. */
  datatype ReturnResult = ReturnResult(value: BasicInfo, location: Loc)

  /** `parse_info_result`: what the loop has gathered so far. */
  datatype ParseInfoResult = ParseInfoResult(
    parameters: seq<BasicInfo>,
    returnResult: ReturnResult,
    preconditions: seq<BasicInfo>,
    postconditions: seq<BasicInfo>,
    throws: seq<BasicInfo>,
    exitsVia: seq<BasicInfo>,
    headers: seq<BasicInfo>,
    modules: seq<BasicInfo>)

  /** The value-initialised return result: an empty description at an invalid location. */
  const NoReturn := ReturnResult(ReturnInfo("", InvalidLoc), InvalidLoc)

  const EmptyResult := ParseInfoResult([], NoReturn, [], [], [], [], [], [])

  /** parse_header_info: one header object per exported piece, with no location. */
  function HeaderInfos(text: string): (r: seq<BasicInfo>)
    ensures |r| == |ParseExportedBy(text)|
    ensures forall i :: 0 <= i < |r| ==> r[i] == HeaderInfo(ParseExportedBy(text)[i], InvalidLoc)
  {
    var pieces := ParseExportedBy(text);
    seq(|pieces|, i requires 0 <= i < |pieces| => HeaderInfo(pieces[i], InvalidLoc))
  }

  /** parse_module_info: one module object per exported piece, with no location. */
  function ModuleInfos(text: string): (r: seq<BasicInfo>)
    ensures |r| == |ParseExportedBy(text)|
    ensures forall i :: 0 <= i < |r| ==> r[i] == ModuleInfo(ParseExportedBy(text)[i], InvalidLoc)
  {
    var pieces := ParseExportedBy(text);
    seq(|pieces|, i requires 0 <= i < |pieces| => ModuleInfo(pieces[i], InvalidLoc))
  }

  /** The first of the function's parameters called `name` (find_if over decl->parameters()). */
  function FindParameter(params: seq<DeclRef>, name: string): (r: Option<nat>)
    ensures r.Some? ==> r.value < |params| && params[r.value].name == name
    ensures r.Some? ==> forall j :: 0 <= j < r.value ==> params[j].name != name
    ensures r.None? <==> forall j :: 0 <= j < |params| ==> params[j].name != name
  {
    if params == [] then None
    else if params[0].name == name then Some(0)
    else match FindParameter(params[1..], name)
      case Some(i) => Some(i + 1)
      case None => None
  }

  /** The name of the parameter a parameter object documents. */
  function DocumentedName(info: BasicInfo): string
  {
    if info.decl.Some? then info.decl.value.name else ""
  }

  /** The first recorded parameter object documenting a parameter called `name`. */
  function PriorByName(parameters: seq<BasicInfo>, name: string): (r: Option<nat>)
    ensures r.Some? ==> r.value < |parameters| && DocumentedName(parameters[r.value]) == name
    ensures r.Some? ==> forall j :: 0 <= j < r.value ==> DocumentedName(parameters[j]) != name
    ensures r.None? <==> forall j :: 0 <= j < |parameters| ==> DocumentedName(parameters[j]) != name
  {
    if parameters == [] then None
    else if DocumentedName(parameters[0]) == name then Some(0)
    else match PriorByName(parameters[1..], name)
      case Some(i) => Some(i + 1)
      case None => None
  }

  /** A block whose token is what `lex` makes of its keyword, as every scanned block's is. */
  predicate Lexed(commands: seq<CommandInfo>, b: Block)
  {
    b.directive.token == Lex(commands, b.directive.text)
  }

  /** The kind of a known directive; None for one `lex` does not know. */
  function BlockKind(commands: seq<CommandInfo>, b: Block): (r: Option<DirectiveKind>)
    requires Lexed(commands, b)
    ensures r.None? <==> b.directive.token.None?
  {
    if b.directive.token.None? then None else Some(commands[b.directive.token.value].kind)
  }

  /** Where an unknown `\param` name is reported: past the backslash, the keyword and one space. */
  function UnknownParameterLoc(b: Block): Loc
  {
    b.location + |b.directive.text| + 2
  }

  /** The kinds whose payloads parse_info only gathers, without any check. */
  predicate Gathering(k: DirectiveKind)
  {
    k != Param && k != Returns
  }

  /** The objects gathered so far for a kind that is only gathered. */
  function Gathered(r: ParseInfoResult, k: DirectiveKind): seq<BasicInfo>
    requires Gathering(k)
  {
    match k
    case Headers => r.headers
    case Modules => r.modules
    case Pre => r.preconditions
    case Post => r.postconditions
    case Throws => r.throws
    case ExitsVia => r.exitsVia
  }

  /** What one directive of a gathered kind contributes: a header or module object per exported
      piece, or one object holding the stripped payload. */
  function Payload(k: DirectiveKind, text: string): seq<BasicInfo>
    requires Gathering(k)
  {
    match k
    case Headers => HeaderInfos(text)
    case Modules => ModuleInfos(text)
    case Pre => [PreconditionInfo(Strip(text), InvalidLoc)]
    case Post => [PostconditionInfo(Strip(text), InvalidLoc)]
    case Throws => [ThrowsInfo(Strip(text), InvalidLoc)]
    case ExitsVia => [ExitsViaInfo(Strip(text), InvalidLoc)]
  }

  /** Appends `items` to the objects of the gathered kind `k`. */
  function Gather(r: ParseInfoResult, k: DirectiveKind, items: seq<BasicInfo>): ParseInfoResult
    requires Gathering(k)
  {
    match k
    case Headers => r.(headers := r.headers + items)
    case Modules => r.(modules := r.modules + items)
    case Pre => r.(preconditions := r.preconditions + items)
    case Post => r.(postconditions := r.postconditions + items)
    case Throws => r.(throws := r.throws + items)
    case ExitsVia => r.(exitsVia := r.exitsVia + items)
  }

  /** Gathering for one kind appends to that kind's objects only. */
  lemma GatherAppends(r: ParseInfoResult, k: DirectiveKind, items: seq<BasicInfo>, other: DirectiveKind)
    requires Gathering(k) && Gathering(other)
    ensures Gathered(Gather(r, k, items), other) == Gathered(r, other) + (if other == k then items else [])
    ensures Gather(r, k, items).parameters == r.parameters && Gather(r, k, items).returnResult == r.returnResult
  {
    if other != k {
      assert Gathered(r, other) + [] == Gathered(r, other);
    }
  }

  /** A `\param` directive: the parameter it names must exist and must not be documented yet. */
  function ParamStep(decl: Decl, r: ParseInfoResult, b: Block): (ParseInfoResult, seq<Diagnostic>)
  {
    var name := ParamName(b.description.text);
    var parameter := FindParameter(decl.params, name);
    if parameter.None? then
      (r, [Report(ErrUnknownParameter, UnknownParameterLoc(b), [BoolArg(false), StrArg(name), DeclArg(decl.ref)]),
           Report(NoteUnknownParameter, UnknownParameterLoc(b), [KindArg(Param)])])
    else
      var prior := PriorByName(r.parameters, name);
      if prior.Some? then
        (r, [Report(ErrRepeatedDirective, b.location,
                    [KindArg(Param), IntArg(1), DeclArg(decl.params[parameter.value]), DeclArg(decl.ref)]),
             Report(NotePreviousDefinition, r.parameters[prior.value].location, [])])
      else
        (r.(parameters := r.parameters
              + [ParameterInfo(b.location, Some(decl.params[parameter.value]), ParamDescription(b.description.text))]), [])
  }

  /** A `\returns` directive: accepted only while no return has been accepted at a valid location. */
  function ReturnStep(decl: Decl, r: ParseInfoResult, b: Block): (ParseInfoResult, seq<Diagnostic>)
  {
    if IsValid(r.returnResult.location) then
      (r, [Report(ErrRepeatedDirective, b.location, [KindArg(Returns), IntArg(0), DeclArg(decl.ref)]),
           Report(NotePreviousDefinition, r.returnResult.location, [])])
    else
      (r.(returnResult := ReturnResult(ReturnInfo(Strip(b.description.text), InvalidLoc), b.location)), [])
  }

  /** One pass of parse_info's loop over one directive: the updated result and what it reports. */
  function InfoStep(env: Env, decl: Decl, hasDescription: bool, commentBegin: Position,
                    r: ParseInfoResult, b: Block): (ParseInfoResult, seq<Diagnostic>)
    requires Lexed(env.commands, b)
  {
    if b.directive.token.None? then
      (r, [DiagnoseUnknownDirective(env.commands, env.doxygen, env.presumed, b.location, b.directive.text,
                                    hasDescription, commentBegin)])
    else
      var kind := env.commands[b.directive.token.value].kind;
      if kind == Param then ParamStep(decl, r, b)
      else if kind == Returns then ReturnStep(decl, r, b)
      else (Gather(r, kind, Payload(kind, b.description.text)), [])
  }

  /** Blocks that come from a scan of `lines`: within the lines, and lexed. */
  predicate Scanned(commands: seq<CommandInfo>, lines: seq<CommentLine>, bs: seq<Block>)
  {
    forall i :: 0 <= i < |bs| ==> bs[i].line < |lines| && Lexed(commands, bs[i])
  }

  /** What remains of a scan after its first block is still a scan. */
  lemma ScannedTail(commands: seq<CommandInfo>, lines: seq<CommentLine>, bs: seq<Block>)
    requires Scanned(commands, lines, bs) && bs != []
    ensures bs[0].line < |lines| && Lexed(commands, bs[0])
    ensures Scanned(commands, lines, bs[1..])
  {
    forall i | 0 <= i < |bs| - 1 ensures bs[1..][i].line < |lines| && Lexed(commands, bs[1..][i]) {
      assert bs[1..][i] == bs[i + 1];
    }
  }

  /** parse_info's loop over the directives `bs`, in comment order, starting from the result `r`:
      the final result and everything reported on the way. */
  function InfoRun(env: Env, decl: Decl, hasDescription: bool, lines: seq<CommentLine>,
                   r: ParseInfoResult, bs: seq<Block>): (ParseInfoResult, seq<Diagnostic>)
    requires Scanned(env.commands, lines, bs)
    decreases |bs|
  {
    if bs == [] then (r, [])
    else
      ScannedTail(env.commands, lines, bs);
      var step := InfoStep(env, decl, hasDescription, lines[bs[0].line].begin, r, bs[0]);
      var rest := InfoRun(env, decl, hasDescription, lines, step.0, bs[1..]);
      (rest.0, step.1 + rest.1)
  }

  /** Every block of a scan is lexed and lies within the lines. */
  lemma ScanIsScanned(commands: seq<CommandInfo>, lines: seq<CommentLine>, first: nat, loc: Loc)
    requires ScanStart(lines, first)
    ensures Scanned(commands, lines, Blocks(commands, lines, first, loc))
  {
    var bs := Blocks(commands, lines, first, loc);
    BlocksAreBlockAt(commands, lines, first, loc);
    forall i | 0 <= i < |bs| ensures bs[i].line < |lines| && Lexed(commands, bs[i]) {
      assert bs[i] == BlockAt(commands, lines, bs[i].line, bs[i].location);
    }
  }

  /** A scan that has not reached the end is its first block followed by the scan from where
      that block's description ends. */
  lemma BlocksUnfold(commands: seq<CommandInfo>, lines: seq<CommentLine>, first: nat, loc: Loc)
    requires ScanStart(lines, first) && first < |lines|
    ensures var b := BlockAt(commands, lines, first, loc);
      Blocks(commands, lines, first, loc) == [b] + Blocks(commands, lines, b.description.next.line, b.description.next.location)
  {
  }

  /** After consuming the directive a scan meets on line `first`, the scan so far is extended by
      that block and resumes where its description ended. */
  lemma ScanAdvance(commands: seq<CommandInfo>, lines: seq<CommentLine>, first: nat, loc: Loc,
                    consumed: seq<Block>, all: seq<Block>)
    requires ScanStart(lines, first) && first < |lines|
    requires all == consumed + Blocks(commands, lines, first, loc)
    ensures var b := BlockAt(commands, lines, first, loc);
      all == (consumed + [b]) + Blocks(commands, lines, b.description.next.line, b.description.next.location)
  {
    var b := BlockAt(commands, lines, first, loc);
    BlocksUnfold(commands, lines, first, loc);
    Concatenation(consumed, [b], Blocks(commands, lines, b.description.next.line, b.description.next.location));
  }

  /** The body of parse_info's loop for one directive: dispatch on its kind. */
  method ParseDirective(env: Env, decl: Decl, hasDescription: bool, commentBegin: Position,
                        current: ParseInfoResult, b: Block)
    returns (result: ParseInfoResult, emitted: seq<Diagnostic>)
    requires Lexed(env.commands, b)
    ensures (result, emitted) == InfoStep(env, decl, hasDescription, commentBegin, current, b)
  {
    result := current;
    emitted := [];
    if b.directive.token.None? {
      emitted := [DiagnoseUnknownDirective(env.commands, env.doxygen, env.presumed, b.location, b.directive.text,
                                           hasDescription, commentBegin)];
    } else {
      match env.commands[b.directive.token.value].kind
      case Headers =>
        result := result.(headers := result.headers + HeaderInfos(b.description.text));
      case Modules =>
        result := result.(modules := result.modules + ModuleInfos(b.description.text));
      case Param =>
        var name := ParamName(b.description.text);
        var parameter := FindParameter(decl.params, name);
        if parameter.None? {
          var reportLoc := b.location + |b.directive.text| + 2;
          emitted := [Report(ErrUnknownParameter, reportLoc, [BoolArg(false), StrArg(name), DeclArg(decl.ref)]),
                      Report(NoteUnknownParameter, reportLoc, [KindArg(Param)])];
        } else {
          var prior := PriorByName(result.parameters, name);
          if prior.Some? {
            emitted := [Report(ErrRepeatedDirective, b.location,
                               [KindArg(Param), IntArg(1), DeclArg(decl.params[parameter.value]), DeclArg(decl.ref)]),
                        Report(NotePreviousDefinition, result.parameters[prior.value].location, [])];
          } else {
            result := result.(parameters := result.parameters
              + [ParameterInfo(b.location, Some(decl.params[parameter.value]), ParamDescription(b.description.text))]);
          }
        }
      case Returns =>
        if IsValid(result.returnResult.location) {
          emitted := [Report(ErrRepeatedDirective, b.location, [KindArg(Returns), IntArg(0), DeclArg(decl.ref)]),
                      Report(NotePreviousDefinition, result.returnResult.location, [])];
        } else {
          result := result.(returnResult := ReturnResult(ReturnInfo(Strip(b.description.text), InvalidLoc), b.location));
        }
      case Pre =>
        result := result.(preconditions := result.preconditions + [PreconditionInfo(Strip(b.description.text), InvalidLoc)]);
      case Post =>
        result := result.(postconditions := result.postconditions + [PostconditionInfo(Strip(b.description.text), InvalidLoc)]);
      case Throws =>
        result := result.(throws := result.throws + [ThrowsInfo(Strip(b.description.text), InvalidLoc)]);
      case ExitsVia =>
        result := result.(exitsVia := result.exitsVia + [ExitsViaInfo(Strip(b.description.text), InvalidLoc)]);
    }
  }

  /** One pass of the loop consumes the first directive of the run, and the diagnostics it
      reports come first. */
  lemma InfoRunStep(env: Env, decl: Decl, hasDescription: bool, lines: seq<CommentLine>,
                    r: ParseInfoResult, bs: seq<Block>, diags: seq<Diagnostic>)
    requires Scanned(env.commands, lines, bs) && bs != []
    ensures Scanned(env.commands, lines, bs[1..])
    ensures var step := InfoStep(env, decl, hasDescription, lines[bs[0].line].begin, r, bs[0]);
      var rest := InfoRun(env, decl, hasDescription, lines, step.0, bs[1..]);
      (InfoRun(env, decl, hasDescription, lines, r, bs).0, diags + InfoRun(env, decl, hasDescription, lines, r, bs).1)
        == (rest.0, (diags + step.1) + rest.1)
  {
    var step := InfoStep(env, decl, hasDescription, lines[bs[0].line].begin, r, bs[0]);
    var rest := InfoRun(env, decl, hasDescription, lines, step.0, bs[1..]);
    assert InfoRun(env, decl, hasDescription, lines, r, bs) == (rest.0, step.1 + rest.1);
    Concatenation(diags, step.1, rest.1);
  }

  /** parse_info: scans the directive lines from `first` to the end, starting at `beginLoc`. */
  method ParseInfo(env: Env, lines: seq<CommentLine>, first: nat, decl: Decl, beginLoc: Loc, hasDescription: bool)
    returns (result: ParseInfoResult, diags: seq<Diagnostic>)
    requires ScanStart(lines, first)
    ensures Scanned(env.commands, lines, Blocks(env.commands, lines, first, beginLoc))
    ensures (result, diags) == InfoRun(env, decl, hasDescription, lines, EmptyResult, Blocks(env.commands, lines, first, beginLoc))
  {
    ScanIsScanned(env.commands, lines, first, beginLoc);
    ghost var total := InfoRun(env, decl, hasDescription, lines, EmptyResult, Blocks(env.commands, lines, first, beginLoc));
    result := EmptyResult;
    diags := [];
    var line := first;
    var loc := beginLoc;
    assert [] + total.1 == total.1;
    while line != |lines|
      invariant ScanStart(lines, line) && Scanned(env.commands, lines, Blocks(env.commands, lines, line, loc))
      invariant total == (InfoRun(env, decl, hasDescription, lines, result, Blocks(env.commands, lines, line, loc)).0,
                          diags + InfoRun(env, decl, hasDescription, lines, result, Blocks(env.commands, lines, line, loc)).1)
      decreases |lines| - line
    {
      var b := BlockAt(env.commands, lines, line, loc);
      BlocksUnfold(env.commands, lines, line, loc);
      InfoRunStep(env, decl, hasDescription, lines, result, Blocks(env.commands, lines, line, loc), diags);
      assert Blocks(env.commands, lines, line, loc)[1..]
        == Blocks(env.commands, lines, b.description.next.line, b.description.next.location);
      var emitted;
      result, emitted := ParseDirective(env, decl, hasDescription, lines[line].begin, result, b);
      diags := diags + emitted;
      loc := b.description.next.location;
      line := b.description.next.line;
    }
    assert diags + [] == diags;
  }

  /** The result of a run is the result of the run of its tail after the first step. */
  lemma RunUnfold(env: Env, decl: Decl, hasDescription: bool, lines: seq<CommentLine>, r: ParseInfoResult, bs: seq<Block>)
    requires Scanned(env.commands, lines, bs) && bs != []
    ensures bs[0].line < |lines| && Lexed(env.commands, bs[0]) && Scanned(env.commands, lines, bs[1..])
    ensures InfoRun(env, decl, hasDescription, lines, r, bs).0 ==
      InfoRun(env, decl, hasDescription, lines, InfoStep(env, decl, hasDescription, lines[bs[0].line].begin, r, bs[0]).0, bs[1..]).0
  {
    ScannedTail(env.commands, lines, bs);
  }

  /** A directive `lex` does not know is diagnosed and contributes nothing to the result. */
  lemma UnknownDirectiveContributesNothing(env: Env, decl: Decl, hasDescription: bool, commentBegin: Position,
                                           r: ParseInfoResult, b: Block)
    requires Lexed(env.commands, b) && BlockKind(env.commands, b).None?
    ensures InfoStep(env, decl, hasDescription, commentBegin, r, b)
      == (r, [DiagnoseUnknownDirective(env.commands, env.doxygen, env.presumed, b.location, b.directive.text,
                                       hasDescription, commentBegin)])
  {
  }

  /** A `\param` naming none of the function's parameters is reported twice at the same place,
      past the keyword, and records nothing. */
  lemma UnknownParameterRecordsNothing(env: Env, decl: Decl, hasDescription: bool, commentBegin: Position,
                                       r: ParseInfoResult, b: Block)
    requires Lexed(env.commands, b) && BlockKind(env.commands, b) == Some(Param)
    requires forall j :: 0 <= j < |decl.params| ==> decl.params[j].name != ParamName(b.description.text)
    ensures InfoStep(env, decl, hasDescription, commentBegin, r, b)
      == (r, [Report(ErrUnknownParameter, b.location + |b.directive.text| + 2,
                     [BoolArg(false), StrArg(ParamName(b.description.text)), DeclArg(decl.ref)]),
              Report(NoteUnknownParameter, b.location + |b.directive.text| + 2, [KindArg(Param)])])
  {
  }

  /** The recorded parameter objects document distinct parameters of the function, by name. */
  predicate DistinctParameters(decl: Decl, parameters: seq<BasicInfo>)
  {
    && (forall i :: 0 <= i < |parameters| ==>
          parameters[i].kind == ParameterKind && parameters[i].decl.Some? && parameters[i].decl.value in decl.params)
    && (forall i, j :: 0 <= i < j < |parameters| ==> DocumentedName(parameters[i]) != DocumentedName(parameters[j]))
  }

  /** The parameter object a `\param` block would record, when its name is one of the
      function's parameters. */
  function DocumentedParameter(decl: Decl, b: Block): (r: Option<BasicInfo>)
  {
    var parameter := FindParameter(decl.params, ParamName(b.description.text));
    if parameter.None? then None
    else Some(ParameterInfo(b.location, Some(decl.params[parameter.value]), ParamDescription(b.description.text)))
  }

  /** One step appends to the parameters only for a `\param` naming a parameter of the function
      that no recorded object documents yet. */
  lemma StepParameters(env: Env, decl: Decl, hasDescription: bool, commentBegin: Position, r: ParseInfoResult, b: Block)
    requires Lexed(env.commands, b)
    ensures InfoStep(env, decl, hasDescription, commentBegin, r, b).0.parameters ==
      if && BlockKind(env.commands, b) == Some(Param)
         && DocumentedParameter(decl, b).Some?
         && PriorByName(r.parameters, ParamName(b.description.text)).None?
      then r.parameters + [DocumentedParameter(decl, b).value]
      else r.parameters
  {
  }

  /** Appending an object for a name not yet documented keeps the parameters distinct. */
  lemma AppendKeepsParametersDistinct(decl: Decl, parameters: seq<BasicInfo>, added: BasicInfo)
    requires DistinctParameters(decl, parameters)
    requires added.kind == ParameterKind && added.decl.Some? && added.decl.value in decl.params
    requires PriorByName(parameters, DocumentedName(added)).None?
    ensures DistinctParameters(decl, parameters + [added])
  {
    var out := parameters + [added];
    forall i, j | 0 <= i < j < |out| ensures DocumentedName(out[i]) != DocumentedName(out[j]) {
      assert out[i] == parameters[i];
      if j < |parameters| {
        assert out[j] == parameters[j];
      }
    }
  }

  /** A `\param` for a name already documented is dropped (RepeatedParameterReported states what
      it reports): one step keeps the parameters distinct. */
  lemma StepKeepsParametersDistinct(env: Env, decl: Decl, hasDescription: bool, commentBegin: Position,
                                    r: ParseInfoResult, b: Block)
    requires Lexed(env.commands, b) && DistinctParameters(decl, r.parameters)
    ensures DistinctParameters(decl, InfoStep(env, decl, hasDescription, commentBegin, r, b).0.parameters)
  {
    StepParameters(env, decl, hasDescription, commentBegin, r, b);
    var added := DocumentedParameter(decl, b);
    if added.Some? && PriorByName(r.parameters, ParamName(b.description.text)).None? {
      assert DocumentedName(added.value) == ParamName(b.description.text);
      AppendKeepsParametersDistinct(decl, r.parameters, added.value);
    }
  }

  /** Over a whole run, every parameter object documents a parameter of the function, and no two
      document parameters of the same name (RunKeepsFirstParameter says which one is kept). */
  lemma {:induction false} RunKeepsParametersDistinct(env: Env, decl: Decl, hasDescription: bool,
                                                      lines: seq<CommentLine>, r: ParseInfoResult, bs: seq<Block>)
    requires Scanned(env.commands, lines, bs) && DistinctParameters(decl, r.parameters)
    ensures DistinctParameters(decl, InfoRun(env, decl, hasDescription, lines, r, bs).0.parameters)
    decreases |bs|
  {
    if bs != [] {
      RunUnfold(env, decl, hasDescription, lines, r, bs);
      StepKeepsParametersDistinct(env, decl, hasDescription, lines[bs[0].line].begin, r, bs[0]);
      var next := InfoStep(env, decl, hasDescription, lines[bs[0].line].begin, r, bs[0]).0;
      RunKeepsParametersDistinct(env, decl, hasDescription, lines, next, bs[1..]);
    }
  }

  /** The first block of kind `k` in a scan. */
  function FirstOfKind(commands: seq<CommandInfo>, lines: seq<CommentLine>, bs: seq<Block>, k: DirectiveKind)
    : (r: Option<nat>)
    requires Scanned(commands, lines, bs)
    ensures r.Some? ==> r.value < |bs| && BlockKind(commands, bs[r.value]) == Some(k)
    ensures r.Some? ==> forall j :: 0 <= j < r.value ==> BlockKind(commands, bs[j]) != Some(k)
    ensures r.None? ==> forall j :: 0 <= j < |bs| ==> BlockKind(commands, bs[j]) != Some(k)
    decreases |bs|
  {
    if bs == [] then None
    else if BlockKind(commands, bs[0]) == Some(k) then Some(0)
    else
      ScannedTail(commands, lines, bs);
      match FirstOfKind(commands, lines, bs[1..], k)
      case Some(i) => Some(i + 1)
      case None => None
  }

  /** The return result a `\returns` block sets on a result that has none yet. */
  function AcceptedReturn(b: Block): ReturnResult
  {
    ReturnResult(ReturnInfo(Strip(b.description.text), InvalidLoc), b.location)
  }

  /** One step sets the return result exactly when it meets a `\returns` and none is set yet. */
  lemma StepReturn(env: Env, decl: Decl, hasDescription: bool, commentBegin: Position, r: ParseInfoResult, b: Block)
    requires Lexed(env.commands, b)
    ensures InfoStep(env, decl, hasDescription, commentBegin, r, b).0.returnResult ==
      if BlockKind(env.commands, b) == Some(Returns) && !IsValid(r.returnResult.location) then AcceptedReturn(b)
      else r.returnResult
  {
    if b.directive.token.Some? {
      var kind := env.commands[b.directive.token.value].kind;
      if kind == Param {
        ParamStepKeepsReturn(decl, r, b);
      } else if kind != Returns {
        GatherAppends(r, kind, Payload(kind, b.description.text), kind);
      }
    }
  }

  /** A `\param` directive leaves the return result alone. */
  lemma ParamStepKeepsReturn(decl: Decl, r: ParseInfoResult, b: Block)
    ensures ParamStep(decl, r, b).0.returnResult == r.returnResult
  {
  }

  /** Once a `\returns` is accepted at a valid location, the run keeps it: every later one is
      rejected. Before that, the first `\returns` of the run is accepted. */
  lemma {:induction false} RunKeepsFirstReturn(env: Env, decl: Decl, hasDescription: bool,
                                               lines: seq<CommentLine>, r: ParseInfoResult, bs: seq<Block>)
    requires Scanned(env.commands, lines, bs)
    requires forall i :: 0 <= i < |bs| ==> IsValid(bs[i].location)
    ensures IsValid(r.returnResult.location) ==>
      InfoRun(env, decl, hasDescription, lines, r, bs).0.returnResult == r.returnResult
    ensures !IsValid(r.returnResult.location) ==>
      InfoRun(env, decl, hasDescription, lines, r, bs).0.returnResult ==
        match FirstOfKind(env.commands, lines, bs, Returns)
        case None => r.returnResult
        case Some(i) => AcceptedReturn(bs[i])
    decreases |bs|
  {
    if bs != [] {
      RunUnfold(env, decl, hasDescription, lines, r, bs);
      var next := InfoStep(env, decl, hasDescription, lines[bs[0].line].begin, r, bs[0]).0;
      StepReturn(env, decl, hasDescription, lines[bs[0].line].begin, r, bs[0]);
      RunKeepsFirstReturn(env, decl, hasDescription, lines, next, bs[1..]);
      if BlockKind(env.commands, bs[0]) == Some(Returns) {
        assert FirstOfKind(env.commands, lines, bs, Returns) == Some(0);
      } else {
        var tail := FirstOfKind(env.commands, lines, bs[1..], Returns);
        if tail.Some? {
          assert FirstOfKind(env.commands, lines, bs, Returns) == Some(tail.value + 1);
          assert bs[1..][tail.value] == bs[tail.value + 1];
        } else {
          assert FirstOfKind(env.commands, lines, bs, Returns) == None;
        }
      }
    }
  }

  /** From a comment at a valid location, parse_info keeps the first `\returns` of the comment
      and rejects every later one. */
  lemma ParseInfoKeepsFirstReturn(env: Env, decl: Decl, hasDescription: bool, lines: seq<CommentLine>,
                                  first: nat, beginLoc: Loc)
    requires ScanStart(lines, first) && beginLoc > 0
    ensures Scanned(env.commands, lines, Blocks(env.commands, lines, first, beginLoc))
    ensures var bs := Blocks(env.commands, lines, first, beginLoc);
      InfoRun(env, decl, hasDescription, lines, EmptyResult, bs).0.returnResult ==
        match FirstOfKind(env.commands, lines, bs, Returns)
        case None => NoReturn
        case Some(i) => AcceptedReturn(bs[i])
  {
    var bs := Blocks(env.commands, lines, first, beginLoc);
    ScanIsScanned(env.commands, lines, first, beginLoc);
    BlocksLocations(env.commands, lines, first, beginLoc);
    assert forall i :: 0 <= i < |bs| ==> IsValid(bs[i].location);
    RunKeepsFirstReturn(env, decl, hasDescription, lines, EmptyResult, bs);
  }

  /** A `\returns` met once a return is accepted at a valid location is reported as repeated, with
      a note at the accepted one, and changes nothing. */
  lemma RepeatedReturnReported(env: Env, decl: Decl, hasDescription: bool, commentBegin: Position,
                               r: ParseInfoResult, b: Block)
    requires Lexed(env.commands, b) && BlockKind(env.commands, b) == Some(Returns)
    requires IsValid(r.returnResult.location)
    ensures InfoStep(env, decl, hasDescription, commentBegin, r, b)
      == (r, [Report(ErrRepeatedDirective, b.location, [KindArg(Returns), IntArg(0), DeclArg(decl.ref)]),
              Report(NotePreviousDefinition, r.returnResult.location, [])])
  {
  }

  /** A `\param` naming a parameter that a recorded object already documents is reported as
      repeated, with a note at that object, and changes nothing. */
  lemma RepeatedParameterReported(env: Env, decl: Decl, hasDescription: bool, commentBegin: Position,
                                  r: ParseInfoResult, b: Block)
    requires Lexed(env.commands, b) && BlockKind(env.commands, b) == Some(Param)
    requires FindParameter(decl.params, ParamName(b.description.text)).Some?
    requires PriorByName(r.parameters, ParamName(b.description.text)).Some?
    ensures var p := FindParameter(decl.params, ParamName(b.description.text)).value;
      var prior := PriorByName(r.parameters, ParamName(b.description.text)).value;
      InfoStep(env, decl, hasDescription, commentBegin, r, b)
        == (r, [Report(ErrRepeatedDirective, b.location, [KindArg(Param), IntArg(1), DeclArg(decl.params[p]), DeclArg(decl.ref)]),
                Report(NotePreviousDefinition, r.parameters[prior].location, [])])
  {
  }

  /** Both ends of a scan are scans. */
  lemma ScannedSlices(commands: seq<CommandInfo>, lines: seq<CommentLine>, bs: seq<Block>, k: nat)
    requires Scanned(commands, lines, bs) && k <= |bs|
    ensures Scanned(commands, lines, bs[..k]) && Scanned(commands, lines, bs[k..])
  {
    forall j | 0 <= j < |bs| - k ensures bs[k..][j].line < |lines| && Lexed(commands, bs[k..][j]) {
      assert bs[k..][j] == bs[k + j];
    }
  }

  /** A run over `bs` is the run over its first `k` blocks, then the run over the rest from where
      the first part left off; the reports follow each other in that order. */
  lemma {:induction false} RunSplit(env: Env, decl: Decl, hasDescription: bool, lines: seq<CommentLine>,
                                    r: ParseInfoResult, bs: seq<Block>, k: nat)
    requires Scanned(env.commands, lines, bs) && k <= |bs|
    ensures Scanned(env.commands, lines, bs[..k]) && Scanned(env.commands, lines, bs[k..])
    ensures var pre := InfoRun(env, decl, hasDescription, lines, r, bs[..k]);
      var post := InfoRun(env, decl, hasDescription, lines, pre.0, bs[k..]);
      InfoRun(env, decl, hasDescription, lines, r, bs) == (post.0, pre.1 + post.1)
    decreases k
  {
    ScannedSlices(env.commands, lines, bs, k);
    if k == 0 {
      assert bs[..0] == [] && bs[0..] == bs;
      assert [] + InfoRun(env, decl, hasDescription, lines, r, bs).1 == InfoRun(env, decl, hasDescription, lines, r, bs).1;
    } else {
      ScannedTail(env.commands, lines, bs);
      var step := InfoStep(env, decl, hasDescription, lines[bs[0].line].begin, r, bs[0]);
      RunSplit(env, decl, hasDescription, lines, step.0, bs[1..], k - 1);
      var pre := InfoRun(env, decl, hasDescription, lines, step.0, bs[1..][..k - 1]);
      var post := InfoRun(env, decl, hasDescription, lines, pre.0, bs[1..][k - 1..]);
      assert bs[1..][k - 1..] == bs[k..];
      assert bs[..k][0] == bs[0] && bs[..k][1..] == bs[1..][..k - 1];
      assert InfoRun(env, decl, hasDescription, lines, r, bs[..k]) == (pre.0, step.1 + pre.1);
      Concatenation(step.1, pre.1, post.1);
    }
  }

  /** The run up to and including block `k` is the run before it and then one step over it. */
  lemma RunThrough(env: Env, decl: Decl, hasDescription: bool, lines: seq<CommentLine>,
                   r: ParseInfoResult, bs: seq<Block>, k: nat)
    requires Scanned(env.commands, lines, bs) && k < |bs|
    ensures Scanned(env.commands, lines, bs[..k]) && Scanned(env.commands, lines, bs[..k + 1])
    ensures bs[k].line < |lines| && Lexed(env.commands, bs[k])
    ensures var pre := InfoRun(env, decl, hasDescription, lines, r, bs[..k]);
      var step := InfoStep(env, decl, hasDescription, lines[bs[k].line].begin, pre.0, bs[k]);
      InfoRun(env, decl, hasDescription, lines, r, bs[..k + 1]) == (step.0, pre.1 + step.1)
  {
    var upto := bs[..k + 1];
    ScannedSlices(env.commands, lines, bs, k + 1);
    ScannedSlices(env.commands, lines, bs, k);
    RunSplit(env, decl, hasDescription, lines, r, upto, k);
    assert upto[..k] == bs[..k] && upto[k..] == [bs[k]];
    var pre := InfoRun(env, decl, hasDescription, lines, r, bs[..k]);
    var step := InfoStep(env, decl, hasDescription, lines[bs[k].line].begin, pre.0, bs[k]);
    assert [bs[k]][1..] == [];
    assert InfoRun(env, decl, hasDescription, lines, pre.0, [bs[k]]) == (step.0, step.1 + []);
    assert step.1 + [] == step.1;
  }

  /** What a run reports up to and including block `k` opens what the whole run reports. */
  lemma RunReportsThrough(env: Env, decl: Decl, hasDescription: bool, lines: seq<CommentLine>,
                          r: ParseInfoResult, bs: seq<Block>, k: nat)
    requires Scanned(env.commands, lines, bs) && k < |bs|
    ensures Scanned(env.commands, lines, bs[..k + 1])
    ensures InfoRun(env, decl, hasDescription, lines, r, bs[..k + 1]).1 <= InfoRun(env, decl, hasDescription, lines, r, bs).1
  {
    RunSplit(env, decl, hasDescription, lines, r, bs, k + 1);
  }

  /** The first block of a kind in a scan is still the first in any prefix holding it. */
  lemma FirstOfKindPrefix(commands: seq<CommandInfo>, lines: seq<CommentLine>, bs: seq<Block>, k: DirectiveKind, n: nat)
    requires Scanned(commands, lines, bs)
    requires FirstOfKind(commands, lines, bs, k).Some? && FirstOfKind(commands, lines, bs, k).value < n <= |bs|
    ensures Scanned(commands, lines, bs[..n])
    ensures FirstOfKind(commands, lines, bs[..n], k) == FirstOfKind(commands, lines, bs, k)
  {
    ScannedSlices(commands, lines, bs, n);
    var f := FirstOfKind(commands, lines, bs, k).value;
    assert bs[..n][f] == bs[f];
    var g := FirstOfKind(commands, lines, bs[..n], k);
    assert g.Some?;
    assert bs[..n][g.value] == bs[g.value];
  }

  /** Every `\returns` after the first one of a run that starts without a return is reported right
      after what the run reported before it: an error at its own location and a note at the first
      `\returns`. */
  lemma RunReportsRepeatedReturn(env: Env, decl: Decl, hasDescription: bool, lines: seq<CommentLine>,
                                 r: ParseInfoResult, bs: seq<Block>, i: nat)
    requires Scanned(env.commands, lines, bs)
    requires forall j :: 0 <= j < |bs| ==> IsValid(bs[j].location)
    requires !IsValid(r.returnResult.location)
    requires FirstOfKind(env.commands, lines, bs, Returns).Some?
    requires FirstOfKind(env.commands, lines, bs, Returns).value < i < |bs|
    requires BlockKind(env.commands, bs[i]) == Some(Returns)
    ensures Scanned(env.commands, lines, bs[..i])
    ensures InfoRun(env, decl, hasDescription, lines, r, bs[..i]).1
      + [Report(ErrRepeatedDirective, bs[i].location, [KindArg(Returns), IntArg(0), DeclArg(decl.ref)]),
         Report(NotePreviousDefinition, bs[FirstOfKind(env.commands, lines, bs, Returns).value].location, [])]
      <= InfoRun(env, decl, hasDescription, lines, r, bs).1
  {
    var f := FirstOfKind(env.commands, lines, bs, Returns).value;
    FirstOfKindPrefix(env.commands, lines, bs, Returns, i);
    assert bs[..i][f] == bs[f];
    assert forall j :: 0 <= j < i ==> bs[..i][j] == bs[j];
    RunKeepsFirstReturn(env, decl, hasDescription, lines, r, bs[..i]);
    RunThrough(env, decl, hasDescription, lines, r, bs, i);
    var pre := InfoRun(env, decl, hasDescription, lines, r, bs[..i]).0;
    RepeatedReturnReported(env, decl, hasDescription, lines[bs[i].line].begin, pre, bs[i]);
    RunReportsThrough(env, decl, hasDescription, lines, r, bs, i);
  }

  /** A `\param` block naming `name`. */
  predicate ParamFor(commands: seq<CommandInfo>, b: Block, name: string)
    requires Lexed(commands, b)
  {
    BlockKind(commands, b) == Some(Param) && ParamName(b.description.text) == name
  }

  /** Appending an object keeps the first object documenting a name, and makes the new object
      the first one when there was none. */
  lemma PriorByNameAppend(parameters: seq<BasicInfo>, added: BasicInfo, name: string)
    ensures PriorByName(parameters + [added], name) ==
      if PriorByName(parameters, name).Some? then PriorByName(parameters, name)
      else if DocumentedName(added) == name then Some(|parameters|) else None
  {
    if parameters == [] {
      assert parameters + [added] == [added];
    } else {
      var out := parameters + [added];
      assert out[0] == parameters[0];
      assert out[1..] == parameters[1..] + [added];
      if DocumentedName(parameters[0]) != name {
        PriorByNameAppend(parameters[1..], added, name);
      }
    }
  }

  /** How one step moves the first object documenting `name`: an object already there stays
      first; otherwise only a `\param` for that name, naming a parameter of the function,
      records one, at the end. */
  lemma StepPriorByName(env: Env, decl: Decl, hasDescription: bool, commentBegin: Position,
                        r: ParseInfoResult, b: Block, name: string)
    requires Lexed(env.commands, b)
    ensures var was := PriorByName(r.parameters, name);
      var ps := InfoStep(env, decl, hasDescription, commentBegin, r, b).0.parameters;
      && (was.Some? ==> PriorByName(ps, name) == was && ps[was.value] == r.parameters[was.value])
      && (was.None? && ParamFor(env.commands, b, name) && FindParameter(decl.params, name).Some? ==>
            PriorByName(ps, name) == Some(|r.parameters|) && ps[|r.parameters|] == DocumentedParameter(decl, b).value)
      && (was.None? && !(ParamFor(env.commands, b, name) && FindParameter(decl.params, name).Some?) ==>
            PriorByName(ps, name).None?)
  {
    StepParameters(env, decl, hasDescription, commentBegin, r, b);
    var added := DocumentedParameter(decl, b);
    if BlockKind(env.commands, b) == Some(Param) && added.Some?
       && PriorByName(r.parameters, ParamName(b.description.text)).None? {
      assert DocumentedName(added.value) == ParamName(b.description.text);
      PriorByNameAppend(r.parameters, added.value, name);
    }
  }

  /** Once an object documents `name`, a run keeps it as the first one documenting it. */
  lemma {:induction false} RunKeepsPrior(env: Env, decl: Decl, hasDescription: bool, lines: seq<CommentLine>,
                                         r: ParseInfoResult, bs: seq<Block>, name: string)
    requires Scanned(env.commands, lines, bs) && PriorByName(r.parameters, name).Some?
    ensures var ps := InfoRun(env, decl, hasDescription, lines, r, bs).0.parameters;
      var m := PriorByName(r.parameters, name).value;
      PriorByName(ps, name) == Some(m) && ps[m] == r.parameters[m]
    decreases |bs|
  {
    if bs != [] {
      RunUnfold(env, decl, hasDescription, lines, r, bs);
      var next := InfoStep(env, decl, hasDescription, lines[bs[0].line].begin, r, bs[0]).0;
      StepPriorByName(env, decl, hasDescription, lines[bs[0].line].begin, r, bs[0], name);
      RunKeepsPrior(env, decl, hasDescription, lines, next, bs[1..], name);
    }
  }

  /** The parameter object a run keeps for a name is the one built from the first `\param`
      naming it, whatever later `\param`s for the name say. */
  lemma {:induction false} RunKeepsFirstParameter(env: Env, decl: Decl, hasDescription: bool,
                                                  lines: seq<CommentLine>, r: ParseInfoResult, bs: seq<Block>,
                                                  name: string, f: nat)
    requires Scanned(env.commands, lines, bs)
    requires FindParameter(decl.params, name).Some? && PriorByName(r.parameters, name).None?
    requires f < |bs| && ParamFor(env.commands, bs[f], name)
    requires forall j :: 0 <= j < f ==> !ParamFor(env.commands, bs[j], name)
    ensures var ps := InfoRun(env, decl, hasDescription, lines, r, bs).0.parameters;
      PriorByName(ps, name).Some? && ps[PriorByName(ps, name).value] == DocumentedParameter(decl, bs[f]).value
    decreases |bs|
  {
    if f == 0 {
      FirstParameterKept(env, decl, hasDescription, lines, r, bs, name);
    } else {
      RunUnfold(env, decl, hasDescription, lines, r, bs);
      var next := InfoStep(env, decl, hasDescription, lines[bs[0].line].begin, r, bs[0]).0;
      StepPriorByName(env, decl, hasDescription, lines[bs[0].line].begin, r, bs[0], name);
      NoEarlierParamInTail(env.commands, bs, name, f);
      RunKeepsFirstParameter(env, decl, hasDescription, lines, next, bs[1..], name, f - 1);
    }
  }

  /** A run whose first block is a `\param` for a name not yet documented keeps that block's object. */
  lemma FirstParameterKept(env: Env, decl: Decl, hasDescription: bool, lines: seq<CommentLine>,
                           r: ParseInfoResult, bs: seq<Block>, name: string)
    requires Scanned(env.commands, lines, bs) && bs != []
    requires FindParameter(decl.params, name).Some? && PriorByName(r.parameters, name).None?
    requires ParamFor(env.commands, bs[0], name)
    ensures var ps := InfoRun(env, decl, hasDescription, lines, r, bs).0.parameters;
      PriorByName(ps, name).Some? && ps[PriorByName(ps, name).value] == DocumentedParameter(decl, bs[0]).value
  {
    RunUnfold(env, decl, hasDescription, lines, r, bs);
    var next := InfoStep(env, decl, hasDescription, lines[bs[0].line].begin, r, bs[0]).0;
    StepPriorByName(env, decl, hasDescription, lines[bs[0].line].begin, r, bs[0], name);
    RunKeepsPrior(env, decl, hasDescription, lines, next, bs[1..], name);
  }

  /** No `\param` for the name before `f` means none before `f - 1` in the tail. */
  lemma NoEarlierParamInTail(commands: seq<CommandInfo>, bs: seq<Block>, name: string, f: nat)
    requires 0 < f < |bs| && forall j :: 0 <= j <= f ==> Lexed(commands, bs[j])
    requires ParamFor(commands, bs[f], name)
    requires forall j :: 0 <= j < f ==> !ParamFor(commands, bs[j], name)
    ensures Lexed(commands, bs[1..][f - 1]) && ParamFor(commands, bs[1..][f - 1], name)
    ensures forall j :: 0 <= j < f - 1 ==> !ParamFor(commands, bs[1..][j], name)
  {
    forall j | 0 <= j < f - 1 ensures !ParamFor(commands, bs[1..][j], name) {
      assert bs[1..][j] == bs[j + 1];
    }
    assert bs[1..][f - 1] == bs[f];
  }

  /** Every later `\param` for a name already documented in the run is reported right after what
      the run reported before it: an error at its own location and a note at the first `\param`
      for the name. */
  lemma RunReportsRepeatedParameter(env: Env, decl: Decl, hasDescription: bool, lines: seq<CommentLine>,
                                    r: ParseInfoResult, bs: seq<Block>, name: string, f: nat, i: nat)
    requires Scanned(env.commands, lines, bs)
    requires FindParameter(decl.params, name).Some? && PriorByName(r.parameters, name).None?
    requires f < i < |bs| && ParamFor(env.commands, bs[f], name) && ParamFor(env.commands, bs[i], name)
    requires forall j :: 0 <= j < f ==> !ParamFor(env.commands, bs[j], name)
    ensures Scanned(env.commands, lines, bs[..i])
    ensures InfoRun(env, decl, hasDescription, lines, r, bs[..i]).1
      + [Report(ErrRepeatedDirective, bs[i].location,
                [KindArg(Param), IntArg(1), DeclArg(decl.params[FindParameter(decl.params, name).value]), DeclArg(decl.ref)]),
         Report(NotePreviousDefinition, bs[f].location, [])]
      <= InfoRun(env, decl, hasDescription, lines, r, bs).1
  {
    ScannedSlices(env.commands, lines, bs, i);
    assert forall j :: 0 <= j < i ==> bs[..i][j] == bs[j];
    RunKeepsFirstParameter(env, decl, hasDescription, lines, r, bs[..i], name, f);
    RunThrough(env, decl, hasDescription, lines, r, bs, i);
    var pre := InfoRun(env, decl, hasDescription, lines, r, bs[..i]).0;
    RepeatedParameterReported(env, decl, hasDescription, lines[bs[i].line].begin, pre, bs[i]);
    RunReportsThrough(env, decl, hasDescription, lines, r, bs, i);
  }

  /** The payloads of the blocks of kind `k`, in comment order. */
  function Contributions(commands: seq<CommandInfo>, lines: seq<CommentLine>, bs: seq<Block>, k: DirectiveKind)
    : seq<BasicInfo>
    requires Scanned(commands, lines, bs) && Gathering(k)
    decreases |bs|
  {
    if bs == [] then []
    else
      ScannedTail(commands, lines, bs);
      (if BlockKind(commands, bs[0]) == Some(k) then Payload(k, bs[0].description.text) else [])
      + Contributions(commands, lines, bs[1..], k)
  }

  /** One step appends the payload of a block of kind `k` to that kind's objects, and leaves the
      objects of every other kind alone. */
  lemma StepGathers(env: Env, decl: Decl, hasDescription: bool, commentBegin: Position, r: ParseInfoResult,
                    b: Block, k: DirectiveKind)
    requires Lexed(env.commands, b) && Gathering(k)
    ensures Gathered(InfoStep(env, decl, hasDescription, commentBegin, r, b).0, k) ==
      Gathered(r, k) + (if BlockKind(env.commands, b) == Some(k) then Payload(k, b.description.text) else [])
  {
    var kind := BlockKind(env.commands, b);
    if kind.None? || kind.value == Param || kind.value == Returns {
      assert Gathered(r, k) + [] == Gathered(r, k);
    } else {
      GatherAppends(r, kind.value, Payload(kind.value, b.description.text), k);
    }
  }

  /** `\pre`, `\post`, `\throws`, `\exits-via`, `\headers` and `\modules` are appended in comment
      order, with no uniqueness check and nothing else in between. */
  lemma {:induction false} RunGathersInOrder(env: Env, decl: Decl, hasDescription: bool, lines: seq<CommentLine>,
                                             r: ParseInfoResult, bs: seq<Block>, k: DirectiveKind)
    requires Scanned(env.commands, lines, bs) && Gathering(k)
    ensures Gathered(InfoRun(env, decl, hasDescription, lines, r, bs).0, k)
      == Gathered(r, k) + Contributions(env.commands, lines, bs, k)
    decreases |bs|
  {
    if bs != [] {
      RunUnfold(env, decl, hasDescription, lines, r, bs);
      var next := InfoStep(env, decl, hasDescription, lines[bs[0].line].begin, r, bs[0]).0;
      StepGathers(env, decl, hasDescription, lines[bs[0].line].begin, r, bs[0], k);
      RunGathersInOrder(env, decl, hasDescription, lines, next, bs[1..], k);
      var own := if BlockKind(env.commands, bs[0]) == Some(k) then Payload(k, bs[0].description.text) else [];
      assert Contributions(env.commands, lines, bs, k) == own + Contributions(env.commands, lines, bs[1..], k);
      Concatenation(Gathered(r, k), own, Contributions(env.commands, lines, bs[1..], k));
    }
  }

  /** What visit hands back for a documented function: the declaration, the entity description
      and what parse_info gathered from the directives. */
  datatype ParsedFunction = ParsedFunction(decl: DeclRef, description: string, info: ParseInfoResult)

  /** parser::visit for a function declaration. Without a comment the function is reported as
      undocumented and nothing is returned; otherwise the lines before the first directive line
      are the description, and parse_info scans the rest from the offset just past it. */
  method VisitFunction(env: Env, decl: Decl, comment: Option<RawComment>)
    returns (parsed: Option<ParsedFunction>, diags: seq<Diagnostic>)
    requires comment.Some? ==> comment.value.lines != []
    ensures comment.None? ==>
      && parsed.None?
      && diags == [Report(WarnUndocumentedDecl, decl.ref.location, [DeclArg(decl.ref)]),
                   Report(NoteUndocumentedDecl, decl.ref.location, [DeclArg(decl.ref)])]
    ensures comment.Some? ==>
      var lines := comment.value.lines;
      var end := DescriptionEnd(lines);
      var bs := Blocks(env.commands, lines, end, InitialDirectiveOffset(lines, comment.value.beginLoc, comment.value.beginColumn));
      && parsed.Some?
      && parsed.value.decl == decl.ref
      && parsed.value.description == DescriptionText(lines)
      && Scanned(env.commands, lines, bs)
      && (parsed.value.info, diags) == InfoRun(env, decl, end > 0, lines, EmptyResult, bs)
      && DistinctParameters(decl, parsed.value.info.parameters)
  {
    if comment.None? {
      parsed := None;
      diags := [Report(WarnUndocumentedDecl, decl.ref.location, [DeclArg(decl.ref)]),
                Report(NoteUndocumentedDecl, decl.ref.location, [DeclArg(decl.ref)])];
      return;
    }
    var lines := comment.value.lines;
    var end := DescriptionEnd(lines);
    var description := DescriptionText(lines);
    var offset := InitialDirectiveOffset(lines, comment.value.beginLoc, comment.value.beginColumn);
    var info;
    info, diags := ParseInfo(env, lines, end, decl, offset, end > 0);
    RunKeepsParametersDistinct(env, decl, end > 0, lines, EmptyResult, Blocks(env.commands, lines, end, offset));
    parsed := Some(ParsedFunction(decl.ref, description, info));
  }
}
