/** The directive lexicon: command_info and its directive_kind enumeration
    (include/schreiber/parser.hpp), and the TableGen backend that generates the `commands` table,
    the exact-match `lex` function and the mangled command list from the Command records. */
module Commands {
  import opened Base

  /** command_info::directive_kind: two global directives, six function directives. */
  datatype DirectiveKind = Headers | Modules | Param | Returns | Pre | Post | Throws | ExitsVia

  /** The C++ enumerator that names each kind. */
  function Identifier(k: DirectiveKind): string
  {
    match k
    case Headers => "headers"
    case Modules => "modules"
    case Param => "param"
    case Returns => "returns"
    case Pre => "pre"
    case Post => "post"
    case Throws => "throws"
    case ExitsVia => "exits_via"
  }

  /** The keyword written after the backslash for each kind. */
  function Keyword(k: DirectiveKind): string
  {
    match k
    case Headers => "headers"
    case Modules => "modules"
    case Param => "param"
    case Returns => "returns"
    case Pre => "pre"
    case Post => "post"
    case Throws => "throws"
    case ExitsVia => "exits-via"
  }

  /** How a kind is streamed into a diagnostic: its keyword after a backslash, in single quotes.
      The switch is exhaustive over all eight kinds. */
  function DisplayName(k: DirectiveKind): (r: string)
    ensures r == "'\\" + Keyword(k) + "'"
  {
    match k
    case Headers => "'\\headers'"
    case Modules => "'\\modules'"
    case Param => "'\\param'"
    case Returns => "'\\returns'"
    case Pre => "'\\pre'"
    case Post => "'\\post'"
    case Throws => "'\\throws'"
    case ExitsVia => "'\\exits-via'"
  }

  /** Resolution of `command_info::<identifier>` in the generated table: the kind whose
      enumerator is `id`, if there is one. */
  function KindOfIdentifier(id: string): (r: Option<DirectiveKind>)
    ensures r.Some? ==> Identifier(r.value) == id
    ensures r.None? ==> forall k :: Identifier(k) != id
  {
    if id == "headers" then Some(Headers)
    else if id == "modules" then Some(Modules)
    else if id == "param" then Some(Param)
    else if id == "returns" then Some(Returns)
    else if id == "pre" then Some(Pre)
    else if id == "post" then Some(Post)
    else if id == "throws" then Some(Throws)
    else if id == "exits_via" then Some(ExitsVia)
    else None
  }

  /** Every enumerator resolves back to its own kind. */
  lemma IdentifierRoundTrip(k: DirectiveKind)
    ensures KindOfIdentifier(Identifier(k)) == Some(k)
  {
    match k
    case Headers =>
    case Modules =>
    case Param =>
    case Returns =>
    case Pre =>
    case Post =>
    case Throws =>
    case ExitsVia =>
  }

  /** The character the emitter writes for `c` in an enumerator name. */
  function Underscored(c: char): char { if c == '-' then '_' else c }

  /** The enumerator name of a command: its Name with every '-' replaced by '_'. */
  function EnumName(name: string): (r: string)
    ensures |r| == |name| && '-' !in r
  {
    seq(|name|, k requires 0 <= k < |name| => Underscored(name[k]))
  }

  /** Every keyword's enumerator name is the identifier of its own kind, so the generated table
      gives each command the kind its keyword spells. */
  lemma EnumNameOfKeyword(k: DirectiveKind)
    ensures EnumName(Keyword(k)) == Identifier(k)
    ensures KindOfIdentifier(EnumName(Keyword(k))) == Some(k)
  {
    var kw := Keyword(k);
    assert forall i :: 0 <= i < |kw| ==> EnumName(kw)[i] == Identifier(k)[i];
  }

  /** std::ranges::replace(NameForEnum, '-', '_'), in place on the name's buffer. */
  method ReplaceDashes(buffer: array<char>)
    modifies buffer
    ensures forall k :: 0 <= k < buffer.Length ==> buffer[k] == Underscored(old(buffer[k]))
    ensures buffer[..] == EnumName(old(buffer[..]))
  {
    var i := 0;
    while i < buffer.Length
      invariant 0 <= i <= buffer.Length
      invariant forall k :: 0 <= k < i ==> buffer[k] == Underscored(old(buffer[k]))
      invariant forall k :: i <= k < buffer.Length ==> buffer[k] == old(buffer[k])
    {
      if buffer[i] == '-' {
        buffer[i] := '_';
      }
      i := i + 1;
    }
  }

  /** A TableGen `Command` record. */
  datatype CommandRecord = CommandRecord(
    name: string,
    isExportCommand: bool,
    isParamCommand: bool,
    isExitCommand: bool,
    isContractCommand: bool,
    equivalentDoxygenCommands: seq<string>)

  /** command_info: the keyword, its kind, four one-bit flags and the Doxygen commands it
      replaces, in the record's order. */
  datatype CommandInfo = CommandInfo(
    name: string,
    kind: DirectiveKind,
    isExportCommand: bool,
    isParamCommand: bool,
    isExitCommand: bool,
    isContractCommand: bool,
    equivalentDoxygenCommands: seq<string>)

  /** The generated entry `c` is the one the emitter writes for record `r`. */
  predicate Describes(c: CommandInfo, r: CommandRecord)
  {
    && c.name == r.name
    && Identifier(c.kind) == EnumName(r.name)
    && c.isExportCommand == r.isExportCommand
    && c.isParamCommand == r.isParamCommand
    && c.isExitCommand == r.isExitCommand
    && c.isContractCommand == r.isContractCommand
    && c.equivalentDoxygenCommands == r.equivalentDoxygenCommands
  }

  /** EmitSchreiberCommentCommandInfo's first loop: one entry per record, in record order. The
      generated table only compiles when every record's enumerator name names a directive_kind;
      otherwise there is no table (None). */
  method EmitCommands(records: seq<CommandRecord>) returns (commands: Option<seq<CommandInfo>>)
    ensures commands.Some? <==>
      forall i :: 0 <= i < |records| ==> KindOfIdentifier(EnumName(records[i].name)).Some?
    ensures commands.Some? ==> |commands.value| == |records|
    ensures commands.Some? ==> forall i :: 0 <= i < |records| ==> Describes(commands.value[i], records[i])
  {
    var table: seq<CommandInfo> := [];
    for i := 0 to |records|
      invariant |table| == i
      invariant forall j :: 0 <= j < i ==> Describes(table[j], records[j])
      invariant forall j :: 0 <= j < i ==> KindOfIdentifier(EnumName(records[j].name)).Some?
    {
      var tag := records[i];
      var nameForEnum := new char[|tag.name|](k requires 0 <= k < |tag.name| => tag.name[k]);
      assert nameForEnum[..] == tag.name;
      ReplaceDashes(nameForEnum);
      var kind := KindOfIdentifier(nameForEnum[..]);
      if kind.None? {
        assert KindOfIdentifier(EnumName(records[i].name)).None?;
        return None;
      }
      var entry := CommandInfo(tag.name, kind.value, tag.isExportCommand, tag.isParamCommand,
                               tag.isExitCommand, tag.isContractCommand, tag.equivalentDoxygenCommands);
      assert Describes(entry, records[i]);
      table := table + [entry];
    }
    return Some(table);
  }

  /** EmitSchreiberCommentCommandInfo's second loop: the StringMatcher pairs, record i's Name
      with `return &commands[i];`. */
  method EmitMatches(records: seq<CommandRecord>) returns (matches: seq<(string, nat)>)
    ensures |matches| == |records|
    ensures forall i :: 0 <= i < |records| ==> matches[i] == (records[i].name, i)
  {
    matches := [];
    for i := 0 to |records|
      invariant |matches| == i
      invariant forall j :: 0 <= j < i ==> matches[j] == (records[j].name, j)
    {
      matches := matches + [(records[i].name, i)];
    }
  }

  /** The generated `lex`: the index of the entry whose name equals `name` exactly (the first,
      should two share it), or None for a null result. */
  function Lex(commands: seq<CommandInfo>, name: string): (r: Option<nat>)
    ensures r.Some? ==> r.value < |commands| && commands[r.value].name == name
    ensures r.Some? ==> forall j :: 0 <= j < r.value ==> commands[j].name != name
    ensures r.None? <==> forall j :: 0 <= j < |commands| ==> commands[j].name != name
  {
    if commands == [] then None
    else if commands[0].name == name then Some(0)
    else match Lex(commands[1..], name)
      case Some(i) => Some(i + 1)
      case None => None
  }

  /** When the emitted table's names are distinct, `lex` finds record i exactly by its Name. */
  lemma LexFindsRecord(records: seq<CommandRecord>, commands: seq<CommandInfo>, i: nat)
    requires |commands| == |records| && i < |records|
    requires forall j :: 0 <= j < |records| ==> Describes(commands[j], records[j])
    requires forall j, k :: 0 <= j < k < |records| ==> records[j].name != records[k].name
    ensures Lex(commands, records[i].name) == Some(i)
    ensures KindOfIdentifier(EnumName(records[i].name)) == Some(commands[i].kind)
  {
    var name := records[i].name;
    assert Describes(commands[i], records[i]);
    var r := Lex(commands, name);
    assert r.Some?;
    var j := r.value;
    assert j <= i;
    assert Describes(commands[j], records[j]);
    assert records[j].name == name;
    assert j == i;
    IdentifierRoundTrip(commands[i].kind);
  }

  /** Characters the command-list emitter spells out in a macro-safe name. */
  predicate IsMangled(c: char)
  {
    c == '(' || c == ')' || c == '[' || c == ']' || c == '{' || c == '}' || c == '$' || c == '/'
  }

  /** The replacement MangleName appends for one character. */
  function MangleChar(c: char): (r: string)
    ensures forall k :: 0 <= k < |r| ==> !IsMangled(r[k])
  {
    match c
    case '(' => "lparen"
    case ')' => "rparen"
    case '[' => "lsquare"
    case ']' => "rsquare"
    case '{' => "lbrace"
    case '}' => "rbrace"
    case '$' => "dollar"
    case '/' => "slash"
    case _ => [c]
  }

  /** The mangled name: each character's replacement, in order. */
  function Mangle(s: string): string
  {
    if s == [] then [] else Mangle(s[..|s| - 1]) + MangleChar(s[|s| - 1])
  }

  /** MangleName: builds the result with `+=`, one character at a time. */
  method MangleName(str: string) returns (mangled: string)
    ensures mangled == Mangle(str)
  {
    mangled := [];
    for i := 0 to |str|
      invariant mangled == Mangle(str[..i])
    {
      assert str[..i + 1][..i] == str[..i];
      mangled := mangled + MangleChar(str[i]);
    }
    assert str[..|str|] == str;
  }

  /** A name without any of the eight special characters is returned unchanged. */
  lemma {:induction false} MangleKeepsPlainNames(s: string)
    requires forall k :: 0 <= k < |s| ==> !IsMangled(s[k])
    ensures Mangle(s) == s
  {
    if s != [] {
      MangleKeepsPlainNames(s[..|s| - 1]);
      assert s[..|s| - 1] + [s[|s| - 1]] == s;
    }
  }

  /** No special character survives mangling, so mangling twice changes nothing more. */
  lemma {:induction false} MangleRemovesSpecials(s: string)
    ensures forall k :: 0 <= k < |Mangle(s)| ==> !IsMangled(Mangle(s)[k])
    ensures Mangle(Mangle(s)) == Mangle(s)
  {
    if s != [] {
      MangleRemovesSpecials(s[..|s| - 1]);
      var m := Mangle(s);
      var front, last := Mangle(s[..|s| - 1]), MangleChar(s[|s| - 1]);
      assert m == front + last;
      forall k | 0 <= k < |m|
        ensures !IsMangled(m[k])
      {
        if k < |front| { assert m[k] == front[k]; } else { assert m[k] == last[k - |front|]; }
      }
    }
    MangleKeepsPlainNames(Mangle(s));
  }

  /** A name holding none of the characters that would break a macro call. */
  predicate MacroSafe(name: string)
  {
    forall k :: 0 <= k < |name| ==> !IsMangled(name[k])
  }

  /** A mangled name is macro-safe. */
  lemma MangledIsMacroSafe(s: string)
    ensures MacroSafe(Mangle(s))
  {
    MangleRemovesSpecials(s);
  }

  /** The macro call the command list writes for one argument. */
  function MacroCall(argument: string): string
  {
    "COMMENT_COMMAND(" + argument + ")\n"
  }

  /** EmitSchreiberCommentCommandList after its fixed preamble: one macro call per record, in
      record order, whose argument is the record's mangled name (macro-safe, by MangledIsMacroSafe). */
  method EmitCommandList(records: seq<CommandRecord>) returns (out: seq<string>)
    ensures |out| == |records|
    ensures forall i :: 0 <= i < |records| ==> out[i] == MacroCall(Mangle(records[i].name))
  {
    out := [];
    for i := 0 to |records|
      invariant |out| == i
      invariant forall j :: 0 <= j < i ==> out[j] == MacroCall(Mangle(records[j].name))
    {
      var mangled := MangleName(records[i].name);
      out := out + [MacroCall(mangled)];
    }
  }

  /** The command table of this repository: the eight keywords of directive_kind, in enumerator
      order, with the Doxygen commands that the unknown-directive diagnostics name as replaced by
      '\returns' and '\throws'. */
  const SchreiberCommands: seq<CommandInfo> := [
    CommandInfo("headers", Headers, true, false, false, false, []),
    CommandInfo("modules", Modules, true, false, false, false, []),
    CommandInfo("param", Param, false, true, false, false, []),
    CommandInfo("returns", Returns, false, false, true, false, ["return", "retval", "result"]),
    CommandInfo("pre", Pre, false, false, false, true, []),
    CommandInfo("post", Post, false, false, false, true, []),
    CommandInfo("throws", Throws, false, false, true, false, ["throw", "exception"]),
    CommandInfo("exits-via", ExitsVia, false, false, true, false, [])
  ]

  /** Position of each kind in SchreiberCommands. */
  function SchreiberIndex(k: DirectiveKind): nat
  {
    match k
    case Headers => 0
    case Modules => 1
    case Param => 2
    case Returns => 3
    case Pre => 4
    case Post => 5
    case Throws => 6
    case ExitsVia => 7
  }

  /** `lex` maps each of the eight keywords to the entry of its own kind. */
  lemma LexFindsEveryKeyword(k: DirectiveKind)
    ensures Lex(SchreiberCommands, Keyword(k)) == Some(SchreiberIndex(k))
    ensures SchreiberCommands[SchreiberIndex(k)].kind == k
  {
    var i := SchreiberIndex(k);
    var kw := Keyword(k);
    assert SchreiberCommands[i].name == kw && SchreiberCommands[i].kind == k;
    assert forall j :: 0 <= j < i ==> SchreiberCommands[j].name != kw by {
      forall j | 0 <= j < i
        ensures SchreiberCommands[j].name != kw
      {
        assert SchreiberCommands[j].name == Keyword(SchreiberCommands[j].kind);
        KeywordsDistinct(SchreiberCommands[j].kind, k);
      }
    }
    LexFirstMatch(SchreiberCommands, kw, i);
  }

  /** `lex` returns the first entry carrying the name. */
  lemma LexFirstMatch(commands: seq<CommandInfo>, name: string, i: nat)
    requires i < |commands| && commands[i].name == name
    requires forall j :: 0 <= j < i ==> commands[j].name != name
    ensures Lex(commands, name) == Some(i)
  {
  }

  /** Different kinds are spelled differently. */
  lemma KeywordsDistinct(k: DirectiveKind, l: DirectiveKind)
    requires k != l
    ensures Keyword(k) != Keyword(l)
  {
    EnumNameOfKeyword(k);
    EnumNameOfKeyword(l);
  }
}
