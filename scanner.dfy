/** The comment-line scanner of source/parser/parser_common.cpp: splitting a formatted comment
    into its description and its directives, the keyword and text of each directive, the source
    offsets that follow the lines along, and the comma-separated payload of `\headers` and
    `\modules`. */
module Scanner {
  import opened Base
  import opened Ast
  import opened Text
  import opened Commands

  /** starts_with_backslash: the test that marks a directive line. */
  predicate StartsWithBackslash(s: string)
  {
    |s| > 0 && s[0] == '\\'
  }

  /** The text of each line, in order. */
  function Texts(lines: seq<CommentLine>): (r: seq<string>)
    ensures |r| == |lines|
    ensures forall i :: 0 <= i < |lines| ==> r[i] == lines[i].text
  {
    seq(|lines|, i requires 0 <= i < |lines| => lines[i].text)
  }

  /** directive: the lexed command (an index into the command table, None for a null token), the
      keyword as written, and where the directive's line starts. */
  datatype Directive = Directive(token: Option<nat>, text: string, location: Loc)

  /** directive::extract on a directive line: the keyword is the run of non-space characters
      right after the backslash, looked up in the command table. */
  function ExtractDirective(commands: seq<CommandInfo>, text: string, beginLoc: Loc): (d: Directive)
    requires StartsWithBackslash(text)
    ensures 1 + |d.text| <= |text| && d.text == text[1..1 + |d.text|]
    ensures NoSpace(d.text)
    ensures 1 + |d.text| < |text| ==> IsSpace(text[1 + |d.text|])
    ensures d.text == [] <==> |text| == 1 || IsSpace(text[1])
    ensures d.token == Lex(commands, d.text)
    ensures d.location == beginLoc
  {
    var keyword := TakeWhileNonSpace(text[1..]);
    Directive(Lex(commands, keyword), keyword, beginLoc)
  }

  /** What follows the keyword on the directive's own line (`directive.text.end()` to the end). */
  function Inline(text: string, d: Directive): (r: string)
    requires 1 + |d.text| <= |text|
    ensures |r| == |text| - 1 - |d.text| && text == text[..1 + |d.text|] + r
  {
    text[1 + |d.text|..]
  }

  /** The first directive line at or after `from`, or `|lines|` when there is none. */
  function FindDirectiveLine(lines: seq<CommentLine>, from: nat): (r: nat)
    requires from <= |lines|
    ensures from <= r <= |lines|
    ensures r < |lines| ==> StartsWithBackslash(lines[r].text)
    ensures forall i :: from <= i < r ==> !StartsWithBackslash(lines[i].text)
    decreases |lines| - from
  {
    if from == |lines| || StartsWithBackslash(lines[from].text) then from
    else FindDirectiveLine(lines, from + 1)
  }

  /** How far one line moves the running location: its text and its starting column. */
  function Width(line: CommentLine): nat
  {
    |line.text| + line.begin.column
  }

  /** Sum of the widths of lines [lo, hi). */
  function Advance(lines: seq<CommentLine>, lo: nat, hi: nat): nat
    requires lo <= hi <= |lines|
    decreases hi
  {
    if lo == hi then 0 else Advance(lines, lo, hi - 1) + Width(lines[hi - 1])
  }

  /** Advancing over two adjacent ranges is advancing over their union. */
  lemma {:induction false} AdvanceSplit(lines: seq<CommentLine>, lo: nat, mid: nat, hi: nat)
    requires lo <= mid <= hi <= |lines|
    ensures Advance(lines, lo, hi) == Advance(lines, lo, mid) + Advance(lines, mid, hi)
    decreases hi
  {
    if mid < hi {
      AdvanceSplit(lines, lo, mid, hi - 1);
    }
  }

  /** next_directive: the line a scan resumes at and its location. */
  datatype NextDirective = NextDirective(line: nat, location: Loc)

  /** description: the directive's stripped text, where it starts and where the next one does. */
  datatype Description = Description(text: string, location: Loc, next: NextDirective)

  /** The directive text before stripping: the inline remainder, a newline, then the continuation
      lines joined by newlines. */
  function RawText(inline: string, lines: seq<CommentLine>, first: nat, next: nat): string
    requires first < next <= |lines|
  {
    inline + "\n" + Join(Texts(lines[first + 1..next]), "\n")
  }

  /** description::extract for the directive on line `first`. The next directive line is searched
      from the line after `first`, so the scan always moves forward; the end location adds up the
      widths of every line of this directive. */
  function ExtractDescription(lines: seq<CommentLine>, first: nat, inline: string, beginLoc: Loc): (d: Description)
    requires first < |lines|
    ensures first < d.next.line <= |lines|
    ensures d.next.line < |lines| ==> StartsWithBackslash(lines[d.next.line].text)
    ensures forall i :: first < i < d.next.line ==> !StartsWithBackslash(lines[i].text)
    ensures d.next.location == beginLoc + Advance(lines, first, d.next.line)
    ensures d.location == beginLoc
    ensures d.text == Strip(RawText(inline, lines, first, d.next.line))
  {
    var next := FindDirectiveLine(lines, first + 1);
    Description(Strip(RawText(inline, lines, first, next)), beginLoc, NextDirective(next, beginLoc + Advance(lines, first, next)))
  }

  /** A directive alone on its line has exactly its inline text, stripped. */
  lemma DescriptionOfOneLine(lines: seq<CommentLine>, first: nat, inline: string, beginLoc: Loc)
    requires first < |lines|
    requires first + 1 == |lines| || StartsWithBackslash(lines[first + 1].text)
    ensures ExtractDescription(lines, first, inline, beginLoc).text == Strip(inline)
    ensures ExtractDescription(lines, first, inline, beginLoc).next.line == first + 1
  {
    assert FindDirectiveLine(lines, first + 1) == first + 1;
    assert RawText(inline, lines, first, first + 1) == inline + "\n" by {
      assert Texts(lines[first + 1..first + 1]) == [];
    }
    StripTrailingBlank(inline, "\n");
  }

  /** When the directive has inline text and its last continuation line ends in a non-space
      character, only the inline text's leading whitespace goes: the continuation lines keep their
      indentation. */
  lemma DescriptionKeepsIndentation(lines: seq<CommentLine>, first: nat, inline: string, beginLoc: Loc, next: nat)
    requires first < |lines| && next == ExtractDescription(lines, first, inline, beginLoc).next.line
    requires StripLeading(inline) != []
    requires next > first + 1 && lines[next - 1].text != []
    requires !IsSpace(lines[next - 1].text[|lines[next - 1].text| - 1])
    ensures ExtractDescription(lines, first, inline, beginLoc).text
      == StripLeading(inline) + "\n" + Join(Texts(lines[first + 1..next]), "\n")
  {
    var continuation := Texts(lines[first + 1..next]);
    var rest := Join(continuation, "\n");
    assert rest != [] && !IsSpace(rest[|rest| - 1]) by {
      JoinEndsWithLast(continuation, "\n");
      var last := continuation[|continuation| - 1];
      assert last == lines[next - 1].text;
      assert rest[|rest| - 1] == rest[|rest| - |last|..][|last| - 1];
    }
    assert ExtractDescription(lines, first, inline, beginLoc).text == Strip(inline + "\n" + rest);
    StripAfterInline(inline, rest);
  }

  lemma StripAfterInline(inline: string, rest: string)
    requires StripLeading(inline) != []
    requires rest != [] && !IsSpace(rest[|rest| - 1])
    ensures Strip(inline + "\n" + rest) == StripLeading(inline) + "\n" + rest
  {
    assert inline + "\n" + rest == inline + ("\n" + rest);
    StripKeepsInterior(inline, "\n" + rest);
  }

  /** Joined text ends with the last item. */
  lemma {:induction false} JoinEndsWithLast(xs: seq<string>, sep: string)
    requires xs != []
    ensures |Join(xs, sep)| >= |xs[|xs| - 1]|
    ensures Join(xs, sep)[|Join(xs, sep)| - |xs[|xs| - 1]|..] == xs[|xs| - 1]
  {
    if |xs| > 1 {
      JoinEndsWithLast(xs[1..], sep);
      assert xs[1..][|xs[1..]| - 1] == xs[|xs| - 1];
    }
  }

  /** One directive as the scan meets it: its line, its location, and what extract made of it. */
  datatype Block = Block(line: nat, location: Loc, directive: Directive, description: Description)

  /** Where a scan may start: the end of the lines or a directive line. */
  predicate ScanStart(lines: seq<CommentLine>, first: nat)
  {
    first <= |lines| && (first < |lines| ==> StartsWithBackslash(lines[first].text))
  }

  /** The directive met on line `first` (known or not, every directive has a description). */
  function BlockAt(commands: seq<CommandInfo>, lines: seq<CommentLine>, first: nat, loc: Loc): (b: Block)
    requires first < |lines| && StartsWithBackslash(lines[first].text)
    ensures b.line == first && b.location == loc
    ensures first < b.description.next.line && ScanStart(lines, b.description.next.line)
    ensures b.description.next.location == loc + Advance(lines, first, b.description.next.line)
  {
    var d := ExtractDirective(commands, lines[first].text, loc);
    Block(first, loc, d, ExtractDescription(lines, first, Inline(lines[first].text, d), loc))
  }

  /** The directives of a scan from line `first` at location `loc` to the end of the lines, each
      resuming where the previous one's description ended (the loops of parse_directives and
      parse_info). Termination is the scan's progress: each description ends past its line. */
  function Blocks(commands: seq<CommandInfo>, lines: seq<CommentLine>, first: nat, loc: Loc): (bs: seq<Block>)
    requires ScanStart(lines, first)
    ensures bs == [] <==> first == |lines|
    ensures forall i :: 0 <= i < |bs| ==> first <= bs[i].line < |lines|
    decreases |lines| - first
  {
    if first == |lines| then []
    else
      var b := BlockAt(commands, lines, first, loc);
      var rest := Blocks(commands, lines, b.description.next.line, b.description.next.location);
      assert forall i :: 0 < i <= |rest| ==> ([b] + rest)[i] == rest[i - 1];
      [b] + rest
  }

  /** The directive lines from `lo` on, in order. */
  function DirectiveLines(lines: seq<CommentLine>, lo: nat): (r: seq<nat>)
    requires lo <= |lines|
    ensures forall i :: 0 <= i < |r| ==> lo <= r[i] < |lines| && StartsWithBackslash(lines[r[i]].text)
    decreases |lines| - lo
  {
    if lo == |lines| then []
    else (if StartsWithBackslash(lines[lo].text) then [lo] else []) + DirectiveLines(lines, lo + 1)
  }

  /** Lines that are not directives contribute nothing. */
  lemma {:induction false} DirectiveLinesSkip(lines: seq<CommentLine>, lo: nat, hi: nat)
    requires lo <= hi <= |lines|
    requires forall i :: lo <= i < hi ==> !StartsWithBackslash(lines[i].text)
    ensures DirectiveLines(lines, lo) == DirectiveLines(lines, hi)
    decreases hi - lo
  {
    if lo < hi {
      DirectiveLinesSkip(lines, lo + 1, hi);
    }
  }

  /** The line of each block, in order. */
  function BlockLines(bs: seq<Block>): (r: seq<nat>)
    ensures |r| == |bs| && forall i :: 0 <= i < |bs| ==> r[i] == bs[i].line
  {
    if bs == [] then [] else [bs[0].line] + BlockLines(bs[1..])
  }

  /** The scan meets exactly the directive lines from `first` on, each once and in order. */
  lemma {:induction false} BlocksMeetEveryDirective(commands: seq<CommandInfo>, lines: seq<CommentLine>, first: nat, loc: Loc)
    requires ScanStart(lines, first)
    ensures BlockLines(Blocks(commands, lines, first, loc)) == DirectiveLines(lines, first)
    decreases |lines| - first
  {
    if first < |lines| {
      var bs := Blocks(commands, lines, first, loc);
      var next := bs[0].description.next;
      var rest := Blocks(commands, lines, next.line, next.location);
      assert bs[1..] == rest;
      BlocksMeetEveryDirective(commands, lines, next.line, next.location);
      DirectiveLinesSkip(lines, first + 1, next.line);
      assert DirectiveLines(lines, first) == [first] + DirectiveLines(lines, first + 1);
      assert BlockLines(bs) == [first] + BlockLines(rest);
    }
  }

  /** Each block is what extract makes of its own line at its own location, on a directive line. */
  lemma {:induction false} BlocksAreBlockAt(commands: seq<CommandInfo>, lines: seq<CommentLine>, first: nat, loc: Loc)
    requires ScanStart(lines, first)
    ensures forall i :: 0 <= i < |Blocks(commands, lines, first, loc)| ==>
      StartsWithBackslash(lines[Blocks(commands, lines, first, loc)[i].line].text)
    ensures forall i :: 0 <= i < |Blocks(commands, lines, first, loc)| ==>
      Blocks(commands, lines, first, loc)[i] == BlockAt(commands, lines, Blocks(commands, lines, first, loc)[i].line,
                                                         Blocks(commands, lines, first, loc)[i].location)
    decreases |lines| - first
  {
    if first < |lines| {
      var bs := Blocks(commands, lines, first, loc);
      var next := bs[0].description.next;
      var rest := Blocks(commands, lines, next.line, next.location);
      BlocksAreBlockAt(commands, lines, next.line, next.location);
      assert bs == [bs[0]] + rest;
      forall i | 0 <= i < |bs|
        ensures StartsWithBackslash(lines[bs[i].line].text) && bs[i] == BlockAt(commands, lines, bs[i].line, bs[i].location)
      {
        if i > 0 { assert bs[i] == rest[i - 1]; }
      }
    }
  }

  /** The next block starts where the previous description said, and the last description ends
      at the end of the lines: the scan is a chain of BlockAt steps. */
  lemma {:induction false} BlocksChain(commands: seq<CommandInfo>, lines: seq<CommentLine>, first: nat, loc: Loc)
    requires ScanStart(lines, first)
    ensures forall i :: 0 <= i < |Blocks(commands, lines, first, loc)| - 1 ==>
      Blocks(commands, lines, first, loc)[i + 1].line == Blocks(commands, lines, first, loc)[i].description.next.line
    ensures forall i :: 0 <= i < |Blocks(commands, lines, first, loc)| - 1 ==>
      Blocks(commands, lines, first, loc)[i + 1].location == Blocks(commands, lines, first, loc)[i].description.next.location
    ensures Blocks(commands, lines, first, loc) != [] ==>
      Blocks(commands, lines, first, loc)[|Blocks(commands, lines, first, loc)| - 1].description.next.line == |lines|
    decreases |lines| - first
  {
    if first < |lines| {
      var bs := Blocks(commands, lines, first, loc);
      var next := bs[0].description.next;
      var rest := Blocks(commands, lines, next.line, next.location);
      BlocksChain(commands, lines, next.line, next.location);
      assert bs == [bs[0]] + rest;
      forall i | 0 <= i < |bs| - 1
        ensures bs[i + 1].line == bs[i].description.next.line && bs[i + 1].location == bs[i].description.next.location
      {
        if i > 0 { assert bs[i] == rest[i - 1]; }
        assert bs[i + 1] == rest[i];
      }
    }
  }

  /** Each directive is located at the scan's start plus the widths of all lines before it. */
  lemma {:induction false} BlocksLocations(commands: seq<CommandInfo>, lines: seq<CommentLine>, first: nat, loc: Loc)
    requires ScanStart(lines, first)
    ensures forall i :: 0 <= i < |Blocks(commands, lines, first, loc)| ==>
      Blocks(commands, lines, first, loc)[i].location == loc + Advance(lines, first, Blocks(commands, lines, first, loc)[i].line)
    decreases |lines| - first
  {
    if first < |lines| {
      var bs := Blocks(commands, lines, first, loc);
      var next := bs[0].description.next;
      var rest := Blocks(commands, lines, next.line, next.location);
      BlocksLocations(commands, lines, next.line, next.location);
      assert bs == [bs[0]] + rest;
      assert next.location == loc + Advance(lines, first, next.line);
      forall i | 0 <= i < |bs| ensures bs[i].location == loc + Advance(lines, first, bs[i].line) {
        if i > 0 {
          var b := rest[i - 1];
          assert bs[i] == b;
          assert b.location == next.location + Advance(lines, next.line, b.line);
          AdvanceSplit(lines, first, next.line, b.line);
        }
      }
    }
  }

  /** initial_directive_offset's accumulation: std::accumulate folds each line's column into the
      running total from the left. */
  function AccumulateColumns(acc: int, lines: seq<CommentLine>): int
    decreases |lines|
  {
    if lines == [] then acc else AccumulateColumns(acc + lines[0].begin.column, lines[1..])
  }

  /** The sum of the columns of `lines`. */
  function SumColumns(lines: seq<CommentLine>): nat
  {
    if lines == [] then 0 else SumColumns(lines[..|lines| - 1]) + lines[|lines| - 1].begin.column
  }

  /** The left fold adds the plain sum to its seed. */
  lemma {:induction false} AccumulateColumnsSum(acc: int, lines: seq<CommentLine>)
    ensures AccumulateColumns(acc, lines) == acc + SumColumns(lines)
    decreases |lines|
  {
    if lines != [] {
      AccumulateColumnsSum(acc + lines[0].begin.column, lines[1..]);
      SumColumnsCons(lines);
    }
  }

  lemma {:induction false} SumColumnsCons(lines: seq<CommentLine>)
    requires lines != []
    ensures SumColumns(lines) == lines[0].begin.column + SumColumns(lines[1..])
    decreases |lines|
  {
    if |lines| > 1 {
      SumColumnsCons(lines[..|lines| - 1]);
      assert lines[..|lines| - 1][1..] == lines[1..][..|lines[1..]| - 1];
      assert lines[..|lines| - 1][0] == lines[0];
    }
  }

  /** The lines before the first directive line: the entity's description. */
  function DescriptionEnd(lines: seq<CommentLine>): (r: nat)
    ensures r <= |lines|
    ensures r < |lines| ==> StartsWithBackslash(lines[r].text)
    ensures forall i :: 0 <= i < r ==> !StartsWithBackslash(lines[i].text)
  {
    FindDirectiveLine(lines, 0)
  }

  /** The entity description: the description lines joined by newlines, unstripped. */
  function DescriptionText(lines: seq<CommentLine>): string
  {
    Join(Texts(lines[..DescriptionEnd(lines)]), "\n")
  }

  /** initial_directive_offset (and the same computation inline in parse_function.cpp's visit): the
      comment's start, plus the description text, plus how far the first line's presumed column is
      past the comment's, plus the column of every description line after the first. An empty
      description contributes no line at all. */
  function InitialDirectiveOffset(lines: seq<CommentLine>, beginLoc: Loc, beginColumn: nat): (r: Loc)
    requires lines != []
    ensures var end := DescriptionEnd(lines);
      r == beginLoc + |DescriptionText(lines)| + (lines[0].begin.column - beginColumn)
           + (if end == 0 then 0 else SumColumns(lines[1..end]))
  {
    var end := DescriptionEnd(lines);
    var skip := if end == 0 then 0 else 1;
    var offset := AccumulateColumns(|DescriptionText(lines)| + (lines[0].begin.column - beginColumn), lines[skip..end]);
    AccumulateColumnsSum(|DescriptionText(lines)| + (lines[0].begin.column - beginColumn), lines[skip..end]);
    beginLoc + offset
  }

  /** parse_exported_by: the comma-separated pieces, each stripped. An empty payload yields no
      piece at all, since splitting an empty range yields an empty range. */
  function ParseExportedBy(s: string): (r: seq<string>)
    ensures s == [] ==> r == []
    ensures s != [] ==> |r| == Count(s, ',') + 1
    ensures s != [] ==> forall k :: 0 <= k < |r| ==> r[k] == Strip(Pieces(s, ',')[k]) && ',' !in r[k]
  {
    if s == [] then []
    else
      var pieces := Pieces(s, ',');
      var r := StripAll(pieces);
      assert forall k :: 0 <= k < |r| ==> ',' !in r[k] by {
        forall k | 0 <= k < |r| ensures ',' !in r[k] {
          assert r[k] == pieces[k][LeadingSpaces(pieces[k])..LeadingSpaces(pieces[k]) + |r[k]|];
        }
      }
      r
  }

  /** Every piece of a non-empty payload comes back in order: joining the unstripped pieces with
      commas restores the payload. */
  lemma ExportedPiecesRestore(s: string)
    requires s != []
    ensures Join(Pieces(s, ','), ",") == s
    ensures |ParseExportedBy(s)| == |Pieces(s, ',')|
  {
    JoinPieces(s, ',');
  }

  /** `\param`'s target: the first whitespace-delimited word of the description. */
  function ParamName(text: string): (r: string)
    ensures NoSpace(r)
    ensures |r| <= |StripLeading(text)| && r == StripLeading(text)[..|r|]
    ensures |r| < |StripLeading(text)| ==> IsSpace(StripLeading(text)[|r|])
  {
    TakeWhileNonSpace(StripLeading(text))
  }

  /** `\param`'s description: what follows the name, stripped. */
  function ParamDescription(text: string): (r: string)
  {
    Strip(StripLeading(text)[|ParamName(text)|..])
  }

  /** A payload written as a name, whitespace and a description splits back into that name and
      that description. */
  lemma ParamSplit(lead: string, name: string, gap: string, description: string)
    requires forall k :: 0 <= k < |lead| ==> IsSpace(lead[k])
    requires name != [] && NoSpace(name)
    requires gap != [] && forall k :: 0 <= k < |gap| ==> IsSpace(gap[k])
    requires description != [] ==> !IsSpace(description[0]) && !IsSpace(description[|description| - 1])
    ensures ParamName(lead + name + gap + description) == name
    ensures ParamDescription(lead + name + gap + description) == description
  {
    var tail := gap + description;
    var text := lead + (name + tail);
    assert lead + name + gap + description == text by {
      Concatenation(name, gap, description);
      Concatenation(lead, name, tail);
    }
    StripLeadingBlank(lead, name + tail);
    TakeWhileNonSpaceOfWord(name, tail);
    assert (name + tail)[|name|..] == tail;
    StripLeadingBlankStrip(gap, description);
  }

  /** Whitespace before a text that opens with a non-space character is all StripLeading removes. */
  lemma StripLeadingBlank(ws: string, x: string)
    requires forall k :: 0 <= k < |ws| ==> IsSpace(ws[k])
    requires x != [] && !IsSpace(x[0])
    ensures StripLeading(ws + x) == x
  {
    LeadingSpacesConcat(ws, x);
    assert LeadingSpaces(ws) == |ws|;
    assert (ws + x)[|ws|..] == x;
  }

  /** A stripped text after whitespace strips back to itself. */
  lemma StripLeadingBlankStrip(ws: string, x: string)
    requires forall k :: 0 <= k < |ws| ==> IsSpace(ws[k])
    requires x != [] ==> !IsSpace(x[0]) && !IsSpace(x[|x| - 1])
    ensures Strip(ws + x) == x
  {
    BlankCounts(ws);
    LeadingSpacesConcat(ws, x);
    if x == [] {
      assert ws + x == ws;
    } else {
      TrailingSpacesConcat(ws, x);
      assert LeadingSpaces(x) == 0 && TrailingSpaces(x) == 0;
      assert (ws + x)[|ws|..|ws + x|] == x;
    }
  }
}
