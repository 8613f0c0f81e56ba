# Schreiber's documentation-comment scanner and validator, in Dafny

Schreiber reads the `///` comment attached to a C++ declaration. It turns the comment into a
typed documentation record and reports what is wrong with it through clang's diagnostics. This
project models the core of that work:

- the line scanner. It splits a comment into its description and its directives, extracts each
  directive's keyword and text, and tracks the source offsets along the lines.
- the directive lexicon. This covers `command_info`, its `directive_kind` enumeration, and the
  TableGen backend that generates the command table, the exact-match `lex` and the list of
  `COMMENT_COMMAND` macro calls over the mangled command names.
- the unknown-directive resolver. It chooses between an unsupported Doxygen command (with a
  suggested replacement and a fix-it), an unknown directive and a lone backslash.
- the validation loop `parse_info` of `parse_function.cpp`. It covers `\param` lookup and the
  repeated-`\param` and repeated-`\returns` checks, the stripped payloads and the
  comma-separated `\headers`/`\modules`. It also covers `visit`, which reports a comment-less
  function and locates the first directive.
- the record builder `function_info`/`entity_info`, whose `store` and `add_*` members grow the
  record in place.
- the undocumented-declaration tracker. It keeps two location-ordered sets, updated by `parse`.
  The destructor reports what is left, using `get_kind`, `prefix` and the wording of special
  members.

Clang is the boundary, and everything clang supplies is an input:

- a source location is an integer offset, and 0 is the invalid location;
- a presumed location is a `(file, line, column)` triple;
- a declaration is a record carrying an id, a name, a location, a kind and the context facts
  the scanner asks about;
- a diagnostic is an id, a location, the arguments streamed into it and an optional fix-it.
  The parser's output is the list of diagnostics in the order they are reported.

The modules follow the source:

- `Text` holds the absl/llvm string helpers.
- `Commands` covers `parser.hpp` and the TableGen emitter.
- `Info` covers `info.hpp` and `info.cpp`. The `basic_info` hierarchy is one datatype with a
  kind tag; `function_info` is a class with the fields its mutators update.
- `Scanner` covers the extract functions and the scan. `Resolver` covers the unknown-directive
  diagnostics.
- `ParseFunction` covers `parse_info` and `visit`.
- `Tracker` covers `get_kind`, `prefix` and `diagnose_undocumented_decl`.
- `Parser` covers the `parser` class: `parse`, `parse_directives` and the destructor.

Where the code does something other than the surrounding design suggests, the model follows the
code:

- `function_info::add_parameter` reports a repeated `\param` and still appends it. `parse_info`
  reports one and drops it. Both behaviours are modelled and proved:
  `Parser.ParseDirectivesKeepsEveryParameter`, `ParseFunction.RunKeepsFirstParameter` and
  `ParseFunction.RunReportsRepeatedParameter`.
- `parse_directives` decides whether the entity has a description from the description *text*.
  `visit` decides it from the description *lines*. So a description that is exactly one empty line
  counts as one in `visit` and not in `parse_directives`; two or more empty lines join to a
  non-empty text, which both count.
- `std::views::split` over an empty `\headers` or `\modules` payload yields no piece at all,
  not one empty piece. So `ParseExportedBy("")` is empty, and "comma count + 1" pieces holds
  only for a non-empty payload.
- The unsupported-Doxygen warning streams the equivalent's kind even when there is no
  equivalent, which dereferences `commands.end()`. The model streams the kind only when an
  equivalent exists.

## Model

| member | source | states |
|---|---|---|
| Text.IsSpace | source/parser/parser_common.cpp:474-477 | `std::isspace` in the "C" locale: space, tab, newline, vertical tab, form feed and carriage return |
| Text.LeadingSpaces | source/parser/parser_common.cpp:474-477 | counts exactly the ASCII whitespace run that opens the string (every counted character is whitespace, the next is not) |
| Text.TrailingSpaces | source/parser/parser_common.cpp:474-477 | counts exactly the whitespace run that closes the string |
| Text.StripLeading | source/parser/parse_function.cpp:93-95 | the result is a suffix of the input, everything removed is whitespace, and the result does not open with whitespace |
| Text.StripTrailing | source/parser/parser_common.cpp:518 | the result is a prefix of the input, everything removed is whitespace, and the result does not end with whitespace |
| Text.Strip | source/parser/parser_common.cpp:518 | the result is one contiguous slice of the input with only whitespace around it, and it neither opens nor ends with whitespace |
| Text.StripIdempotent | source/parser/parser_common.cpp:518 | stripping a stripped text changes nothing |
| Text.StripOfStripped | source/parser/parser_common.cpp:518 | a text whose ends are not whitespace is its own strip |
| Text.LeadingSpacesConcat | source/parser/parser_common.cpp:518 | the leading whitespace of a concatenation is the first part's, or all of the first part and then the second's |
| Text.TrailingSpacesConcat | source/parser/parser_common.cpp:518 | the trailing whitespace of a concatenation is the second part's, or all of it and then the first's |
| Text.StripTrailingBlank | source/parser/parser_common.cpp:510-518 | whitespace appended after a text does not change its strip |
| Text.StripKeepsInterior | source/parser/parser_common.cpp:510-518 | when the first part holds a non-space character and the second ends with one, only the first part's leading whitespace is removed |
| Text.TakeWhileNonSpace | source/parser/parser_common.cpp:482-487 | the longest whitespace-free prefix: a prefix, without whitespace, followed by whitespace or the end |
| Text.TakeWhileNonSpaceOfWord | source/parser/parser_common.cpp:482-487 | a word followed by whitespace or nothing is taken exactly |
| Text.Pieces | source/parser/parser_common.cpp:525 | one more piece than there are separators, and no piece contains the separator |
| Text.JoinPieces | source/parser/parser_common.cpp:525 | joining the pieces back with the separator restores the text |
| Text.Join | source/parser/parser_common.cpp:332 | `llvm::join`: the items with the separator between consecutive ones (also lines 514-515); JoinPieces proves it undoes the split |
| Text.StripAll | source/parser/parser_common.cpp:526-529 | one stripped item per item, in order |
| Commands.Identifier | include/schreiber/parser.hpp:17-28 | the C++ enumerator of each of the eight directive kinds; KindOfIdentifier and IdentifierRoundTrip prove it names each kind back |
| Commands.Keyword | include/schreiber/parser.hpp:40-61 | the keyword written after the backslash for each kind, as the kind is streamed; DisplayName and KeywordsDistinct state its properties |
| Commands.DisplayName | include/schreiber/parser.hpp:40-61 | every kind is shown as its keyword after a backslash, in single quotes; exits_via is shown as `'\exits-via'` |
| Commands.KindOfIdentifier | include/schreiber/parser.hpp:18-29 | a found kind has exactly that enumerator name, and None means no kind has it |
| Commands.IdentifierRoundTrip | include/schreiber/parser.hpp:18-29 | each of the eight enumerators resolves to its own kind |
| Commands.EnumName | third_party/llvm/TableGen/SchreiberCommentCommandInfoEmitter.cpp:38-39 | same length as the name, with no '-' left |
| Commands.EnumNameOfKeyword | third_party/llvm/TableGen/SchreiberCommentCommandInfoEmitter.cpp:38-43 | each keyword's enum name is its kind's enumerator (`exits-via` becomes `exits_via`), so the generated entry gets the kind its keyword spells |
| Commands.ReplaceDashes | third_party/llvm/TableGen/SchreiberCommentCommandInfoEmitter.cpp:39 | in place on the buffer, every '-' becomes '_' and every other character is kept; the buffer ends as EnumName of its old contents |
| Commands.EmitCommands | third_party/llvm/TableGen/SchreiberCommentCommandInfoEmitter.cpp:35-62 | one entry per record in record order, each with the record's name, flags and equivalent Doxygen list; a table exists exactly when every record's enum name names a kind |
| Commands.EmitMatches | third_party/llvm/TableGen/SchreiberCommentCommandInfoEmitter.cpp:64-71 | record i's name is paired with index i, for every record, in order |
| Commands.Lex | third_party/llvm/TableGen/SchreiberCommentCommandInfoEmitter.cpp:73-77 | returns the first entry whose name equals the argument exactly, and None exactly when no entry has that name |
| Commands.LexFindsRecord | third_party/llvm/TableGen/SchreiberCommentCommandInfoEmitter.cpp:64-77 | over an emitted table with distinct names, `lex` of record i's name is entry i, whose kind is the one its enum name spells |
| Commands.MangleChar | third_party/llvm/TableGen/SchreiberCommentCommandInfoEmitter.cpp:84-112 | no replacement contains any of the eight special characters |
| Commands.MangleName | third_party/llvm/TableGen/SchreiberCommentCommandInfoEmitter.cpp:81-115 | the `+=` loop builds the concatenation of every character's replacement, in order |
| Commands.MangleKeepsPlainNames | third_party/llvm/TableGen/SchreiberCommentCommandInfoEmitter.cpp:85-87 | a name without special characters is returned unchanged |
| Commands.MangleRemovesSpecials | third_party/llvm/TableGen/SchreiberCommentCommandInfoEmitter.cpp:81-115 | no special character survives, so mangling is idempotent |
| Commands.Mangle | third_party/llvm/TableGen/SchreiberCommentCommandInfoEmitter.cpp:81-115 | the mangled name: each character's replacement, in order; MangleName is proved to build it, and MangleRemovesSpecials and MangleKeepsPlainNames state what it keeps and removes |
| Commands.EmitCommandList | third_party/llvm/TableGen/SchreiberCommentCommandInfoEmitter.cpp:118-136 | the list's loop writes one `COMMENT_COMMAND(...)` macro call per record, in record order, whose argument is the record's mangled name (which MangledIsMacroSafe proves holds none of the characters that would break the call) |
| Commands.MacroCall | third_party/llvm/TableGen/SchreiberCommentCommandInfoEmitter.cpp:134 | the line written for one record: `COMMENT_COMMAND(`, the argument, `)` and a newline |
| Commands.MangledIsMacroSafe | third_party/llvm/TableGen/SchreiberCommentCommandInfoEmitter.cpp:81-115 | every mangled name holds none of the eight characters that would break the `COMMENT_COMMAND` call |
| Commands.LexFindsEveryKeyword | include/schreiber/parser.hpp:18-29 | over this repository's table, `lex` maps each of the eight keywords to the entry of its own kind |
| Commands.KeywordsDistinct | include/schreiber/parser.hpp:18-29 | different kinds have different keywords |
| Info.SameInfo | include/schreiber/info.hpp:32 | two objects compare equal exactly when they agree on everything but the declaration |
| Info.Classof | source/info.cpp:147-170 | `T::classof` tests the tag alone; each constructor's contract states that only its own tag's classof accepts what it builds |
| Info.HeaderInfo | source/info.cpp:53-60 | the object is well formed, carries the given description and location, and only the header classof accepts it |
| Info.ModuleInfo | source/info.cpp:62-69 | the same for the module tag |
| Info.ReturnInfo | source/info.cpp:307-309 | the same for the return tag (classof at source/info.cpp:147-150) |
| Info.PreconditionInfo | source/info.cpp:311-315 | the same for the precondition tag (classof at 152-155) |
| Info.PostconditionInfo | source/info.cpp:317-321 | the same for the postcondition tag (classof at 157-160) |
| Info.ThrowsInfo | source/info.cpp:323-325 | the same for the throws tag (classof at 162-165) |
| Info.ExitsViaInfo | source/info.cpp:327-329 | the same for the exits-via tag (classof at 167-170) |
| Info.ParameterInfo | source/info.cpp:269-279 | needs a non-null declaration (decl_info's precondition at source/info.cpp:45); keeps it, and only the parameter classof accepts the object |
| Info.TemplateParameterInfo | source/info.cpp:281-305 | needs a non-null declaration; only the template-parameter classof accepts the object |
| Info.PriorParameter | source/info.cpp:131-133 | the first recorded parameter object pointing at the same declaration, and None exactly when there is none |
| Info.StoreRecord | source/info.cpp:237-262 | changes only the vector of the object's kind, by appending it; sets the return description only when none is set; reports the repeated-directive error and its note exactly for a second return or a parameter already documented, with the note at the earlier object |
| Info.OfKind | source/info.cpp:237-262 | the stored objects of one kind, each of that kind |
| Info.FirstOfKind | source/info.cpp:177-188 | None exactly when no object of the kind was stored, and otherwise the first of them |
| Info.RepeatedDirective | source/info.cpp:135-142 | the error at the repeated directive with its arguments, then the note at the first occurrence (also lines 177-185); StoreAllReportsPairs proves every store reports only such pairs |
| Info.StoreAllAppends | source/info.cpp:195-235 | after any sequence of stores, every repeatable field is its old contents followed by the stored objects of its kind, in order: nothing is lost, reordered or deduplicated |
| Info.StoreAllKeepsFirstReturn | source/info.cpp:177-188 | after any sequence of stores, the return description is the first one ever stored |
| Info.ErrorNotePairsAppend | source/info.cpp:138-141 | error/note pairs followed by error/note pairs are still pairs |
| Info.StoreAllReportsPairs | source/info.cpp:135-142 | every diagnostic of a sequence of stores is a repeated-directive error followed by its previous-definition note |
| Info.FunctionInfo.AsInfo | source/info.cpp:264-267 | a function_info is well formed and only the function classof accepts it |
| Info.FunctionInfo.constructor | source/info.cpp:121-126 | needs a non-null declaration; the new record has no headers, modules, parameters, preconditions, postconditions, throws or exits-via and no return description |
| Info.FunctionInfo.AddHeader | source/info.cpp:71-74 | appends the header and changes no other field |
| Info.FunctionInfo.AddHeaders | source/info.cpp:76-82 | appends all the headers, in order, after the existing ones |
| Info.FunctionInfo.AddModule | source/info.cpp:84-87 | appends the module and changes no other field |
| Info.FunctionInfo.AddModules | source/info.cpp:89-95 | appends all the modules, in order, after the existing ones |
| Info.FunctionInfo.EntityStore | source/info.cpp:107-119 | headers and modules are stored as StoreRecord stores them, with no diagnostic |
| Info.FunctionInfo.AddParameter | source/info.cpp:128-145 | the record and the diagnostics are StoreRecord's: a parameter already documented is reported with a note at the first object, and appended all the same |
| Info.FunctionInfo.AddReturns | source/info.cpp:177-188 | the record and the diagnostics are StoreRecord's: a second return description is reported with a note at the first and is not stored |
| Info.FunctionInfo.AddPrecondition | source/info.cpp:195-199 | appends at the end and changes no other field |
| Info.FunctionInfo.AddPostcondition | source/info.cpp:206-210 | appends at the end and changes no other field |
| Info.FunctionInfo.AddThrows | source/info.cpp:217-220 | appends at the end and changes no other field |
| Info.FunctionInfo.AddExitsVia | source/info.cpp:227-230 | appends at the end and changes no other field |
| Info.FunctionInfo.Store | source/info.cpp:237-262 | dispatching on the tag gives exactly the record and the diagnostics of StoreRecord; it accepts only the storable kinds |
| Scanner.StartsWithBackslash | source/parser/parser_common.cpp:469-472 | a directive line is one whose text opens with a backslash |
| Scanner.Texts | source/parser/parser_common.cpp:464-467 | the text of every line, in order |
| Scanner.ExtractDirective | source/parser/parser_common.cpp:479-493 | the keyword is the longest whitespace-free run right after the backslash, empty exactly when a space or the end follows the backslash, and looked up with `lex` |
| Scanner.Inline | source/parser/parser_common.cpp:208 | the line is the backslash and the keyword followed by the result |
| Scanner.FindDirectiveLine | source/parser/parser_common.cpp:501-502 | the first directive line at or after the start, or the end; no line before it is a directive |
| Scanner.AdvanceSplit | source/parser/parser_common.cpp:503-509 | the running offset over two adjacent ranges of lines is the sum of the two |
| Scanner.Width | source/parser/parser_common.cpp:507-508 | one line moves the running location by its text's length plus its starting column |
| Scanner.Advance | source/parser/parser_common.cpp:503-509 | the `std::accumulate` over lines [lo, hi): the sum of their widths, which AdvanceSplit adds up over adjacent ranges |
| Scanner.RawText | source/parser/parser_common.cpp:510-515 | the description before stripping: the inline remainder, a newline, then the continuation lines joined by newlines |
| Scanner.ExtractDescription | source/parser/parser_common.cpp:495-520 | the next directive line is strictly after the current one and is the end or a directive line, with none between; the end offset adds `Text.size + Begin.column` of each of this directive's lines; the text is the inline remainder, a newline and the continuation lines joined by newlines, stripped |
| Scanner.DescriptionOfOneLine | source/parser/parser_common.cpp:510-518 | a directive alone on its line has just its inline text, stripped, and the scan resumes at the next line |
| Scanner.DescriptionKeepsIndentation | source/parser/parser_common.cpp:510-518 | continuation lines keep their indentation: only the inline text's leading whitespace is stripped |
| Scanner.BlockAt | source/parser/parser_common.cpp:206-208 | the directive met on a line starts where the scan is, and its description resumes the scan strictly later, on a directive line or at the end |
| Scanner.Blocks | source/parser/parser_common.cpp:272-290 | the scan's loop terminates, is empty exactly when it starts at the end, and visits only lines from its start on |
| Scanner.DirectiveLines | source/parser/parser_common.cpp:469-472 | the directive lines from a point on, in order |
| Scanner.DirectiveLinesSkip | source/parser/parser_common.cpp:501-502 | lines that are not directives contribute no directive line |
| Scanner.BlockLines | source/parser/parser_common.cpp:272-290 | the line of each scanned directive, in order |
| Scanner.BlocksMeetEveryDirective | source/parser/parser_common.cpp:272-290 | the scan meets exactly the directive lines, each once and in order |
| Scanner.BlocksAreBlockAt | source/parser/parser_common.cpp:206-208 | each scanned directive is on a directive line and is what extract makes of that line at its location |
| Scanner.BlocksChain | source/parser/parser_common.cpp:281-289 | each directive starts where the previous description ended, and the last description ends at the last line |
| Scanner.BlocksLocations | source/parser/parser_common.cpp:503-509 | each directive is located at the scan's start plus the widths of all lines before it |
| Scanner.AccumulateColumnsSum | source/parser/parser_common.cpp:232-240 | the left fold over the columns is its seed plus their sum |
| Scanner.DescriptionEnd | source/parser/parser_common.cpp:329-331 | the description is the run of leading lines that are not directives |
| Scanner.DescriptionText | source/parser/parser_common.cpp:329-332 | the entity description: the lines before the first directive line, joined by newlines and not stripped |
| Scanner.InitialDirectiveOffset | source/parser/parser_common.cpp:223-242 | the comment's start, plus the description text's length, plus the first line's column past the comment's, plus the columns of every later description line |
| Scanner.ParseExportedBy | source/parser/parser_common.cpp:522-541 | a non-empty payload gives comma count + 1 pieces, each the stripped text between commas, in order; an empty payload gives none |
| Scanner.ExportedPiecesRestore | source/parser/parser_common.cpp:522-531 | the unstripped pieces joined by commas restore the payload, one entry per piece |
| Scanner.ParamName | source/parser/parse_function.cpp:93-95 | the `\param` target is the first whitespace-delimited word after leading whitespace |
| Scanner.ParamSplit | source/parser/parse_function.cpp:93-123 | a payload written as whitespace, a name, whitespace and a description splits back into that name and that description |
| Scanner.StripLeadingBlank | source/parser/parse_function.cpp:94 | whitespace in front of a text that opens with a non-space character is all that is removed |
| Scanner.StripLeadingBlankStrip | source/parser/parse_function.cpp:122-123 | a stripped text after whitespace strips back to itself |
| Scanner.ParamDescription | source/parser/parse_function.cpp:120-123 | a `\param`'s description: what follows the name, stripped; ParamSplit proves it gives back the description written after the name |
| Resolver.PresumedOf | source/parser/parser_common.cpp:449 | `getPresumedLoc`: the presumed position of a location, or None for an invalid presumed location |
| Resolver.IsEqual | source/parser/parser_common.cpp:419-427 | true exactly when both positions are valid and file, line and column all agree |
| Resolver.FindEquivalent | source/parser/parser_common.cpp:435-439 | the first command listing the Doxygen name as an equivalent, and None exactly when none lists it |
| Resolver.UnsupportedDoxygen | source/parser/parser_common.cpp:429-456 | the warning names the command and whether an alternative exists, then the alternative's kind only when one exists; a fix-it exactly when an alternative exists and the presumed positions are equal, replacing the name after the backslash by the alternative's keyword |
| Resolver.DiagnoseUnknownDirective | source/parser/parser_common.cpp:398-417 | one diagnostic at the directive plus the comment's indentation when there is a description: unsupported-Doxygen exactly for a Doxygen name, unknown-directive exactly for another non-empty keyword, lone-backslash exactly for an empty one |
| Resolver.NextLoc | source/parser/parser_common.cpp:404-405 | the report location: the directive's, moved past the comment's indentation (column less one) when the entity has a description; DiagnoseUnknownDirective ensures every report sits there |
| Resolver.FixItOnlyWhenPositionsMatch | source/parser/parser_common.cpp:446-455 | a fix-it exactly for a Doxygen name with an equivalent whose report location is presumed at the comment line's own start |
| Resolver.FindEquivalentFirst | source/parser/parser_common.cpp:435-439 | the search returns the first command listing the name |
| Resolver.ReturnAliasesSuggestReturns | test/diagnostics/functions/unknown_directive.cc:18-20 | `\return`, `\retval` and `\result` are answered with `\returns` |
| Resolver.ThrowAliasesSuggestThrows | test/diagnostics/functions/unknown_directive.cc:21-22 | `\throw` and `\exception` are answered with `\throws` |
| Resolver.OtherCommandsHaveNoEquivalent | test/diagnostics/functions/unknown_directive.cc:17 | any other Doxygen name, such as `\extends`, has no replacement |
| ParseFunction.HeaderInfos | source/parser/parser_common.cpp:538-541 | one header object per exported piece, with that piece as its description |
| ParseFunction.ModuleInfos | source/parser/parser_common.cpp:533-536 | one module object per exported piece |
| ParseFunction.FindParameter | source/parser/parse_function.cpp:96-99 | the first of the function's parameters with exactly that name, and None exactly when there is none |
| ParseFunction.PriorByName | source/parser/parse_function.cpp:108-111 | the first recorded parameter object documenting that name, and None exactly when there is none |
| ParseFunction.BlockKind | source/parser/parse_function.cpp:77-85 | a directive has a kind exactly when `lex` knows its keyword |
| ParseFunction.GatherAppends | source/parser/parse_function.cpp:86-91 | gathering for one kind appends to that kind's objects and leaves the others, the parameters and the return alone |
| ParseFunction.Payload | source/parser/parse_function.cpp:86-91 | what one directive of a gathered kind contributes: one header or module object per exported piece, or one object holding the stripped payload at the invalid location |
| ParseFunction.Gather | source/parser/parse_function.cpp:86-91 | appends the objects to the gathered kind's vector (lines 138-149 for the four contract kinds); GatherAppends states that nothing else changes |
| ParseFunction.ParamStep | source/parser/parse_function.cpp:92-124 | a `\param`: an unknown name is reported with its note, a repeated one with the error and a note at the earlier object, and otherwise a parameter object is appended; stated by UnknownParameterRecordsNothing, RepeatedParameterReported and StepParameters |
| ParseFunction.ReturnStep | source/parser/parse_function.cpp:126-137 | a `\returns`: reported with a note while a return is accepted at a valid location, otherwise accepted at the directive; stated by RepeatedReturnReported and StepReturn |
| ParseFunction.InfoStep | source/parser/parse_function.cpp:73-152 | one pass of the loop: an unknown directive is diagnosed, `\param` and `\returns` go to their steps, every other kind is gathered; ParseDirective is proved equal to it |
| ParseFunction.InfoRun | source/parser/parse_function.cpp:57-159 | the loop over a scan in comment order: the final result and every report, in order; ParseInfo is proved to end with it, and the run lemmas below state what it keeps and reports |
| ParseFunction.ScanIsScanned | source/parser/parse_function.cpp:68-75 | every directive of a scan is lexed and within the lines |
| ParseFunction.ParseDirective | source/parser/parse_function.cpp:73-152 | one pass of the loop yields the result and diagnostics of InfoStep, the step the properties below are proved about |
| ParseFunction.ParseInfo | source/parser/parse_function.cpp:57-159 | the `while` loop takes each directive as `Scanner.BlockAt` extracts it at the scan's position and ends with the result and the diagnostics of InfoRun over the comment's scan; the lemmas below state what that run keeps and what it reports for each repeat |
| ParseFunction.UnknownDirectiveContributesNothing | source/parser/parse_function.cpp:77-83 | a directive `lex` does not know is diagnosed once and changes nothing |
| ParseFunction.UnknownParameterRecordsNothing | source/parser/parse_function.cpp:100-106 | a `\param` naming no parameter is reported as an error and a note, both at the keyword's end plus two, and records nothing |
| ParseFunction.UnknownParameterLoc | source/parser/parse_function.cpp:100-102 | an unknown `\param` name is reported at the directive plus the keyword's length plus two: past the backslash, the keyword and one space |
| ParseFunction.StepParameters | source/parser/parse_function.cpp:92-125 | a step appends a parameter object only for a `\param` naming a parameter of the function that no object documents yet |
| ParseFunction.StepKeepsParametersDistinct | source/parser/parse_function.cpp:108-118 | one step keeps the recorded parameters distinct by name and all parameters of the function |
| ParseFunction.RunKeepsParametersDistinct | source/parser/parse_function.cpp:108-124 | over a whole loop every parameter object documents a parameter of the function, and no two document the same name |
| ParseFunction.RepeatedParameterReported | source/parser/parse_function.cpp:107-117 | a `\param` whose name is already documented gets the repeated-directive error at its own location, with the parameter and the function, and a note at the earlier object; nothing is recorded |
| ParseFunction.RepeatedReturnReported | source/parser/parse_function.cpp:126-131 | a `\returns` after one accepted at a valid location gets the repeated-directive error at its own location and a note at the accepted one; nothing changes |
| ParseFunction.RunSplit | source/parser/parse_function.cpp:57-159 | the loop over a scan is the loop over any first part followed by the loop over the rest from where it stopped, reports in that order |
| ParseFunction.StepPriorByName | source/parser/parse_function.cpp:107-124 | one step keeps the first object documenting a name in place, and only a `\param` for that name that names a parameter of the function records one, at the end |
| ParseFunction.RunKeepsPrior | source/parser/parse_function.cpp:107-124 | once an object documents a name, the rest of the loop keeps it as the first for that name |
| ParseFunction.RunKeepsFirstParameter | source/parser/parse_function.cpp:107-124 | the object kept for a name is the one built from the first `\param` naming it; later ones change nothing |
| ParseFunction.RunReportsRepeatedParameter | source/parser/parse_function.cpp:107-117 | every later `\param` for that name is reported right after what the loop reported before it: the error at its own location and the note at the first `\param` for the name |
| ParseFunction.RunReportsRepeatedReturn | source/parser/parse_function.cpp:126-131 | every `\returns` after the first is reported right after what the loop reported before it: the error at its own location and the note at the first `\returns` |
| ParseFunction.FirstOfKind | source/parser/parse_function.cpp:126-137 | the first directive of a kind in the scan, and None exactly when there is none |
| ParseFunction.StepReturn | source/parser/parse_function.cpp:126-137 | a step sets the return exactly when it meets `\returns` and none is set at a valid location |
| ParseFunction.RunKeepsFirstReturn | source/parser/parse_function.cpp:126-137 | a return accepted at a valid location is kept by the rest of the loop; before that, the first `\returns` is the one accepted |
| ParseFunction.ParseInfoKeepsFirstReturn | source/parser/parse_function.cpp:126-137 | from a comment at a valid location, the result's return is the first `\returns` of the comment, or none |
| ParseFunction.StepGathers | source/parser/parse_function.cpp:86-91 | a step appends a gathered kind's payload to that kind only (`\pre`, `\post`, `\throws` and `\exits-via` at lines 138-149) |
| ParseFunction.RunGathersInOrder | source/parser/parse_function.cpp:138-149 | over a whole loop each gathered kind is the payloads of its directives, in comment order, with no uniqueness check |
| ParseFunction.VisitFunction | source/parser/parse_function.cpp:161-206 | without a comment: the undocumented warning and its note and no record; with one: the description lines, the first directive at the offset past them, and parse_info's result, whose parameters are distinct |
| Tracker.Ordinal | source/parser/parser_common.cpp:44-74 | each entity kind is streamed as one of 24 integers |
| Tracker.FromOrdinal | source/parser/parser_common.cpp:44-69 | an enumerator exists exactly at positions below 24 |
| Tracker.OrdinalRoundTrip | source/parser/parser_common.cpp:71-74 | the integer streamed for a kind names that kind back |
| Tracker.OrdinalInjective | source/parser/parser_common.cpp:71-74 | distinct kinds are streamed as distinct integers |
| Tracker.GetKind | source/parser/parser_common.cpp:76-132 | None exactly for declaration kinds it does not know; a special member exactly for constructors, destructors and copy/move assignments; a data member exactly for a variable in a record; a function exactly for a function or any other method |
| Tracker.IsSpecialMember | source/parser/parser_common.cpp:355-363 | the seven special member kinds that diagnose_undocumented_decl words after their class |
| Tracker.PrefixOrdinal | source/parser/parser_common.cpp:134-143 | the `prefix_with` value streamed into the warning: nothing = 0, member = 1, nested = 2 |
| Tracker.Prefix | source/parser/parser_common.cpp:145-176 | "nested" exactly for class, class template, enum, struct, union and variable template; "member" exactly for function, function template, type alias, alias template and typedef |
| Tracker.SpecialMembersHaveNoPrefix | source/parser/parser_common.cpp:148-161 | no special member function takes a prefix |
| Tracker.SpecialMemberWordsInjective | source/parser/parser_common.cpp:364-379 | the adjective and the noun together name a special member unambiguously |
| Tracker.Adjective | source/parser/parser_common.cpp:364-370 | the adjective streamed for a special member: default = 1, move = 2, copy = 3, otherwise blank = 0 |
| Tracker.Noun | source/parser/parser_common.cpp:372-377 | the noun streamed for a special member: destructor = 1, assignment = 2, otherwise constructor = 0 |
| Tracker.DiagnoseUndocumentedDecl | source/parser/parser_common.cpp:345-396 | nothing exactly for an unknown kind; otherwise a warning and a note naming the declaration at its location; the warning streams the kind and the declaration outside a class, the adjective, the class and the noun for a special member, and the prefix, the declaration and the kind for any other member |
| Tracker.SpecialMemberWarningsDistinguishKinds | source/parser/parser_common.cpp:355-383 | two special members of one class get the same warning only when they are the same kind of special member |
| Parser.Items | source/parser/parser_common.cpp:260-270 | the objects a directive loop stores are all storable, at most one per directive |
| Parser.DirectiveStep | source/parser/parser_common.cpp:252-270 | one pass of parse_directives: an unknown directive is diagnosed, and a known one's visited object, if any, is stored at the directive's location as StoreRecord stores it |
| Parser.DirectivesRun | source/parser/parser_common.cpp:252-290 | the passes over a scan in comment order: the record and every report; DirectivesRunStores ties it to StoreAll |
| Parser.DirectivesRunStores | source/parser/parser_common.cpp:244-291 | the record after parse_directives' loop is the one function_info::store builds from what the visitor yields for the known directives, in comment order |
| Parser.ParseDirectivesKeepsEveryParameter | source/parser/parser_common.cpp:260-270 | unlike parse_info, parse_directives keeps every parameter object, repeated ones included (source/info.cpp:135-144) |
| Parser.ParseDirectivesKeepsFirstReturn | source/parser/parser_common.cpp:260-270 | the record keeps the first return object stored |
| Parser.Locations | source/parser/parser_common.cpp:30-39 | the location of every element, in order: the key compare_locations orders by |
| Parser.Insert | source/parser/parser_common.cpp:319 | std::set::insert on a set ordered by location: in its place, or nothing when the location is taken; stated by InsertMembers, InsertKeepsOrder and InsertPresent |
| Parser.Erase | source/parser/parser_common.cpp:324 | std::set::erase by key: removes the declarations at that location; stated by EraseKeepsOrder |
| Parser.InsertMembers | source/parser/parser_common.cpp:319 | insertion adds nothing but the declaration, loses nothing, and adds it whenever no element shares its location |
| Parser.InsertKeepsOrder | source/parser/parser_common.cpp:30-42 | insertion keeps the set in strictly ascending order of location |
| Parser.InsertPresent | source/parser/parser_common.cpp:319 | inserting a declaration whose location is already present changes nothing |
| Parser.InsertIdempotent | test/diagnostics/undocumented/duplicates.cc:5-9 | filing the same declaration twice files it once, so a repeated undocumented redeclaration is warned about once |
| Parser.EraseKeepsOrder | source/parser/parser_common.cpp:324 | erasure keeps the order and removes exactly the declarations at that location |
| Parser.UndocumentedReportNamesEach | source/parser/parser_common.cpp:190-195 | every remaining undocumented declaration of a known kind is reported, with its note |
| Parser.UnknownKindsAreSilent | source/parser/parser_common.cpp:348-351 | a declaration get_kind does not know adds nothing to the report |
| Parser.UndocumentedReport | source/parser/parser_common.cpp:190-195 | what the destructor reports, declaration by declaration in the set's order; stated by UndocumentedReportNamesEach, UndocumentedReportWarnsEach and UndocumentedReportAscends |
| Parser.SchreiberParser.constructor | source/parser/parser_common.cpp:184-188 | a new parser starts with both sets empty |
| Parser.SchreiberParser.ParseDirective | source/parser/parser_common.cpp:252-279 | one pass: an unknown directive is diagnosed by scan; a known one is visited and stored into the entity's record |
| Parser.SchreiberParser.ParseDirectives | source/parser/parser_common.cpp:244-291 | the `while` loop leaves the entity's record and the diagnostics of the directive loop over the comment's scan |
| Parser.SchreiberParser.Parse | source/parser/parser_common.cpp:307-343 | both sets stay ordered and no location is in both; inside a function nothing changes; without a comment the canonical declaration is filed as undocumented unless already documented; with one it is moved to the documented set and a fresh function_info holds the description and the directives |
| Parser.OwnWarning | source/parser/parser_common.cpp:345-396 | the diagnostics for one declaration hold one warning, at the declaration, exactly when its kind is known |
| Parser.UndocumentedReportWarnsEach | source/parser/parser_common.cpp:190-195 | the destructor warns at the location of each remaining declaration of a known kind, in the set's order, and nowhere else |
| Parser.UndocumentedReportAscends | source/parser/parser_common.cpp:190-195 | over an ordered set those warnings come in strictly ascending order of location, so each declaration is warned about exactly once |
| Parser.SchreiberParser.Teardown | source/parser/parser_common.cpp:190-195 | for a parser whose sets are ordered, the destructor's loop gives the report over the set, whose warnings are one per known declaration in strictly ascending order of location |

## Left out

- Clang's `getRawCommentForDeclNoCache`, `getFormattedLines`, `getCanonicalDecl`, `SourceManager` and `CommentCommandTraits` are foreign calls. Their results (the comment lines, the canonical declaration, presumed positions, the set of Doxygen names) are parameters.
- Diagnostic message wording and the rendering of diagnostics belong to clang and to schreiber's diagnostic tables. Only the diagnostic id, location, streamed arguments and fix-it are modelled. The registration in `source/diagnostic_ids.cpp` and `include/schreiber/diagnostic_ids.hpp` is not part of this model.
- The per-directive `visit(function, directive, description)` overload that `parse_directives` calls is not in the repository's sources. It is a parameter of `Parser.SchreiberParser.ParseDirectives`, required to yield only objects `function_info::store` accepts. Three things its result decides in the source are fixed in the model, and `Parser.DirectivesRunStores` and `ParseDirectives`' contract rest on them:
  - the object is stored at the directive's own location, where the source uses the visitor's `current` (`source/parser/parser_common.cpp:263`);
  - the scan resumes where the directive's description ends, where the source uses the visitor's `next`, or the one in its error (`source/parser/parser_common.cpp:269`, `:282-289`);
  - the visitor itself reports nothing; a visitor that yields no object only skips the directive.
- `make_entity_info` and `store_directive` handle only plain functions; any other kind reaches `assert(false)`. `Parser.SchreiberParser.Parse` requires a plain function when there is a comment. It also requires the comment to have at least one formatted line, since the source reads `lines[0]` without checking (`source/parser/parser_common.cpp:336`). `ParseFunction.VisitFunction` requires the same, for the same unchecked `lines[0]` in `visit` (`source/parser/parse_function.cpp:178`).
- `parser::visit` in `parse_function.cpp` builds a `function_info` with a constructor that `info.hpp` does not declare. `ParseFunction.VisitFunction` returns the same parts as a value, `ParseFunction.ParsedFunction`.
- `parse_function.cpp` also uses members that neither the `description` of `parser_common.cpp` (`source/parser/parser_common.cpp:511-517`) nor `info.hpp` provides. The model reads them as follows:
  - `description.range.getEnd()` and `description.next_directive` (`source/parser/parse_function.cpp:80-81`, `:154-155`) are the description's `next` location and line;
  - `prior_definition->source_range().getBegin()` (`source/parser/parse_function.cpp:116`) is the stored parameter object's location;
  - `return_info{.data = …}` (`source/parser/parse_function.cpp:132-135`) and the one-argument `emplace_back` of the precondition, postcondition, throws and exits-via objects (`:138-149`) build objects at the invalid location, where `info.hpp` declares only constructors that also take a location (`include/schreiber/info.hpp:157`).
- `function_template_info`, `template_parameter_info` storage and `noexcept_if` are declared but not implemented in any source file. Only the kind tags and the template-parameter constructor are modelled.
- `std::isspace` is taken in the "C" locale: the six ASCII whitespace characters.
- Each character of a model string stands for one byte of the comment's UTF-8 text. The source's offsets count bytes (`Text.size()`, `directive.size()`, `text_description.size()`), and the model's use string lengths: `Scanner.Width`, `Scanner.InitialDirectiveOffset`, `ParseFunction.UnknownParameterLoc` and the fix-it range of `Resolver.UnsupportedDoxygen`. A comment holding non-ASCII text, such as `yonkō`, is therefore modelled by its bytes, not by its Unicode characters.
- Source offsets are unbounded integers. The `int` casts in the offset arithmetic (`static_cast<int>`) and the `unsigned` columns are not modelled for overflow.
- The two declaration sets are file-scope statics shared by every parser in the source. In the model each `SchreiberParser` owns them, so sharing between parsers is not captured.
- Stream printing in the TableGen emitter, `RecordKeeper` access, `TableGen.cpp` and `StringMatcher`'s generated code are not part of this model. The emitted table, `lex` and the command list are modelled by their contents: `Commands.EmitCommands`, `Commands.EmitMatches`, `Commands.Lex` and `Commands.EmitCommandList`. The command list's fixed preamble (the generated-file header and the `#ifndef COMMENT_COMMAND` block) is not modelled. The repository's own `Command` records are not among its sources. `Commands.SchreiberCommands` restates them from the eight `directive_kind` values and from the replacements the diagnostics name (`test/diagnostics/functions/unknown_directive.cc:17-22`).
- `Commands.SchreiberCommands`: the four flag bits of each entry (export, param, exit, contract) are placeholders; no member of the model reads them. The order of the Doxygen equivalents within an entry is a choice too. Nothing depends on it, because each Doxygen name is listed by one entry only, so `Resolver.FindEquivalent` finds the same command in any order.
- The command flag bit-fields are `bool`s; their one-bit width and padding are not modelled.
- `utilities/verify_diagnostics.cpp` and `test/lit.cfg.py` are a command-line driver and test configuration, not part of this model.
- Resolver.UnsupportedDoxygen: streams the equivalent's kind only when one exists. The source streams `commands.end()->kind` when there is none, which has no defined value.
