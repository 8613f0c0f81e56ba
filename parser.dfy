/** The entry points of source/parser/parser_common.cpp: `parse`, which sorts each declaration
    into the documented and undocumented sets and scans the comment of a documented one;
    `parse_directives`, which stores what each directive yields into the entity's record; and the
    parser's destructor, which reports every declaration left undocumented in source order. The
    per-directive `visit` overload that `parse_directives` calls is not in the source; it is a
    parameter here. */
module Parser {
  import opened Base
  import opened Ast
  import opened Commands
  import opened Diagnostics
  import opened Info
  import opened Scanner
  import opened Resolver
  import opened ParseFunction
  import Tracker

  /** What the per-directive visitor may hand back: an object function_info::store accepts, as its
      constructor built it. */
  ghost predicate Visitable(visit: Block -> Option<BasicInfo>)
  {
    forall b :: visit(b).Some? ==> Storable(visit(b).value.kind) && WellFormed(visit(b).value)
  }

  /** Every block lies within the comment's lines. */
  predicate InLines(lines: seq<CommentLine>, bs: seq<Block>)
  {
    forall i :: 0 <= i < |bs| ==> bs[i].line < |lines|
  }

  /** One pass of parse_directives' loop: a directive `lex` does not know is diagnosed by scan;
      a known one is visited, and what the visit yields is stored at the directive's location. */
  function DirectiveStep(env: Env, hasDescription: bool, commentBegin: Position, visit: Block -> Option<BasicInfo>,
                         owner: DeclRef, rec: FunctionRecord, b: Block): (r: (FunctionRecord, seq<Diagnostic>))
    requires Visitable(visit)
  {
    if b.directive.token.None? then
      (rec, [DiagnoseUnknownDirective(env.commands, env.doxygen, env.presumed, b.location, b.directive.text,
                                      hasDescription, commentBegin)])
    else if visit(b).None? then (rec, [])
    else StoreRecord(rec, owner, b.location, visit(b).value)
  }

  /** The record and the diagnostics after the passes over `bs`, in order. */
  function DirectivesRun(env: Env, hasDescription: bool, lines: seq<CommentLine>, visit: Block -> Option<BasicInfo>,
                         owner: DeclRef, rec: FunctionRecord, bs: seq<Block>): (FunctionRecord, seq<Diagnostic>)
    requires Visitable(visit) && InLines(lines, bs)
    decreases |bs|
  {
    if bs == [] then (rec, [])
    else
      var before := DirectivesRun(env, hasDescription, lines, visit, owner, rec, bs[..|bs| - 1]);
      var last := bs[|bs| - 1];
      var step := DirectiveStep(env, hasDescription, lines[last.line].begin, visit, owner, before.0, last);
      (step.0, before.1 + step.1)
  }

  /** The objects stored by the passes over `bs`: what the visitor yields for each known directive. */
  function Items(visit: Block -> Option<BasicInfo>, bs: seq<Block>): (r: seq<Stored>)
    requires Visitable(visit)
    ensures AllStorable(r)
    ensures |r| <= |bs|
  {
    if bs == [] then []
    else
      var last := bs[|bs| - 1];
      Items(visit, bs[..|bs| - 1])
      + (if last.directive.token.Some? && visit(last).Some? then [Stored(last.location, visit(last).value)] else [])
  }

  /** A pass stores the visitor's object for a known directive and otherwise leaves the record. */
  lemma StepStores(env: Env, hasDescription: bool, commentBegin: Position, visit: Block -> Option<BasicInfo>,
                   owner: DeclRef, rec: FunctionRecord, b: Block)
    requires Visitable(visit)
    ensures DirectiveStep(env, hasDescription, commentBegin, visit, owner, rec, b).0 ==
      if b.directive.token.Some? && visit(b).Some? then StoreRecord(rec, owner, b.location, visit(b).value).0 else rec
  {
  }

  /** The passes over `bs + [b]` are the passes over `bs` and then the pass over `b`. */
  lemma RunSnoc(env: Env, hasDescription: bool, lines: seq<CommentLine>, visit: Block -> Option<BasicInfo>,
                owner: DeclRef, rec0: FunctionRecord, bs: seq<Block>, b: Block,
                before: (FunctionRecord, seq<Diagnostic>), step: (FunctionRecord, seq<Diagnostic>))
    requires Visitable(visit) && InLines(lines, bs) && b.line < |lines|
    requires before == DirectivesRun(env, hasDescription, lines, visit, owner, rec0, bs)
    requires step == DirectiveStep(env, hasDescription, lines[b.line].begin, visit, owner, before.0, b)
    ensures InLines(lines, bs + [b])
    ensures DirectivesRun(env, hasDescription, lines, visit, owner, rec0, bs + [b]) == (step.0, before.1 + step.1)
  {
    assert (bs + [b])[..|bs|] == bs;
  }

  /** parse_directives stores exactly what the visitor yields for the known directives, in comment
      order: the record is the one function_info::store builds from those objects. */
  lemma {:induction false} DirectivesRunStores(env: Env, hasDescription: bool, lines: seq<CommentLine>,
                                               visit: Block -> Option<BasicInfo>, owner: DeclRef,
                                               rec: FunctionRecord, bs: seq<Block>)
    requires Visitable(visit) && InLines(lines, bs)
    ensures DirectivesRun(env, hasDescription, lines, visit, owner, rec, bs).0 == StoreAll(rec, owner, Items(visit, bs)).0
    decreases |bs|
  {
    if bs != [] {
      var init := bs[..|bs| - 1];
      var last := bs[|bs| - 1];
      assert InLines(lines, init);
      DirectivesRunStores(env, hasDescription, lines, visit, owner, rec, init);
      var before := DirectivesRun(env, hasDescription, lines, visit, owner, rec, init);
      StepStores(env, hasDescription, lines[last.line].begin, visit, owner, before.0, last);
      assert DirectivesRun(env, hasDescription, lines, visit, owner, rec, bs).0
        == DirectiveStep(env, hasDescription, lines[last.line].begin, visit, owner, before.0, last).0;
      if last.directive.token.Some? && visit(last).Some? {
        StoreAllSnoc(rec, owner, Items(visit, init), Stored(last.location, visit(last).value));
      } else {
        assert Items(visit, bs) == Items(visit, init) + [];
        assert Items(visit, init) + [] == Items(visit, init);
      }
    }
  }

  /** Unlike parse_info, parse_directives keeps every parameter object: a repeated one is
      diagnosed by function_info::add_parameter and stored all the same. */
  lemma ParseDirectivesKeepsEveryParameter(env: Env, hasDescription: bool, lines: seq<CommentLine>,
                                           visit: Block -> Option<BasicInfo>, owner: DeclRef, bs: seq<Block>)
    requires Visitable(visit) && InLines(lines, bs)
    ensures DirectivesRun(env, hasDescription, lines, visit, owner, EmptyRecord, bs).0.parameters
      == OfKind(Items(visit, bs), ParameterKind)
  {
    DirectivesRunStores(env, hasDescription, lines, visit, owner, EmptyRecord, bs);
    StoreAllAppends(EmptyRecord, owner, Items(visit, bs), ParameterKind);
  }

  /** The first return object stored is the one the record keeps. */
  lemma ParseDirectivesKeepsFirstReturn(env: Env, hasDescription: bool, lines: seq<CommentLine>,
                                        visit: Block -> Option<BasicInfo>, owner: DeclRef, bs: seq<Block>)
    requires Visitable(visit) && InLines(lines, bs)
    ensures DirectivesRun(env, hasDescription, lines, visit, owner, EmptyRecord, bs).0.returnInfo
      == Info.FirstOfKind(Items(visit, bs), ReturnKind)
  {
    DirectivesRunStores(env, hasDescription, lines, visit, owner, EmptyRecord, bs);
    StoreAllKeepsFirstReturn(EmptyRecord, owner, Items(visit, bs));
  }

  /** A std::set ordered by compare_locations: declarations in strictly ascending order of
      location, so no two share a location. */
  predicate Ordered(s: seq<Decl>)
  {
    forall i, j :: 0 <= i < j < |s| ==> s[i].ref.location < s[j].ref.location
  }

  /** The locations of the declarations, in order: the keys the set compares. */
  function Locations(s: seq<Decl>): (r: seq<Loc>)
    ensures |r| == |s| && forall i :: 0 <= i < |s| ==> r[i] == s[i].ref.location
    ensures forall x :: x in s ==> x.ref.location in r
  {
    var r := seq(|s|, i requires 0 <= i < |s| => s[i].ref.location);
    assert forall x :: x in s ==> x.ref.location in r by {
      forall x | x in s ensures x.ref.location in r {
        var k :| 0 <= k < |s| && s[k] == x;
        assert r[k] == x.ref.location;
      }
    }
    r
  }

  /** std::set::insert: the declaration goes in its place by location, unless a declaration at
      the same location is already there, in which case nothing changes. */
  function Insert(s: seq<Decl>, d: Decl): (r: seq<Decl>)
  {
    if s == [] then [d]
    else if d.ref.location < s[0].ref.location then [d] + s
    else if d.ref.location == s[0].ref.location then s
    else [s[0]] + Insert(s[1..], d)
  }

  /** std::set::erase by key: the declaration at that location, if any, is removed. */
  function Erase(s: seq<Decl>, l: Loc): (r: seq<Decl>)
  {
    if s == [] then []
    else if s[0].ref.location == l then Erase(s[1..], l)
    else [s[0]] + Erase(s[1..], l)
  }

  /** The rest of an ordered set is ordered and lies above its first element. */
  lemma OrderedTail(s: seq<Decl>)
    requires Ordered(s) && s != []
    ensures Ordered(s[1..])
    ensures forall x :: x in s ==> x == s[0] || x in s[1..]
    ensures forall x :: x in s[1..] ==> s[0].ref.location < x.ref.location
  {
    assert s == [s[0]] + s[1..];
    forall x | x in s[1..] ensures s[0].ref.location < x.ref.location {
      var k :| 0 <= k < |s[1..]| && s[1..][k] == x;
      assert s[k + 1] == x;
    }
  }

  /** A declaration below every element of an ordered set can lead it. */
  lemma OrderedCons(a: Decl, r: seq<Decl>)
    requires Ordered(r) && forall x :: x in r ==> a.ref.location < x.ref.location
    ensures Ordered([a] + r)
  {
    var s := [a] + r;
    forall i, j | 0 <= i < j < |s| ensures s[i].ref.location < s[j].ref.location {
      assert s[j] == r[j - 1];
      assert r[j - 1] in r;
      if i > 0 {
        assert s[i] == r[i - 1];
      }
    }
  }

  /** Inserting adds nothing but the declaration, loses nothing, and adds the declaration
      whenever no element shares its location. */
  lemma {:induction false} InsertMembers(s: seq<Decl>, d: Decl)
    ensures forall x :: x in Insert(s, d) ==> x in s || x == d
    ensures forall x :: x in s ==> x in Insert(s, d)
    ensures (forall x :: x in s ==> x.ref.location != d.ref.location) ==> d in Insert(s, d)
  {
    if s != [] && d.ref.location > s[0].ref.location {
      InsertMembers(s[1..], d);
      assert s == [s[0]] + s[1..];
    }
  }

  /** Inserting keeps the set ordered. */
  lemma {:induction false} InsertKeepsOrder(s: seq<Decl>, d: Decl)
    requires Ordered(s)
    ensures Ordered(Insert(s, d))
  {
    if s != [] {
      OrderedTail(s);
      if d.ref.location > s[0].ref.location {
        InsertKeepsOrder(s[1..], d);
        InsertMembers(s[1..], d);
        OrderedCons(s[0], Insert(s[1..], d));
      } else if d.ref.location < s[0].ref.location {
        OrderedCons(d, s);
      }
    }
  }

  /** Inserting a declaration whose location is already present changes nothing. */
  lemma {:induction false} InsertPresent(s: seq<Decl>, d: Decl, present: Decl)
    requires Ordered(s) && present in s && present.ref.location == d.ref.location
    ensures Insert(s, d) == s
  {
    OrderedTail(s);
    if present != s[0] {
      InsertPresent(s[1..], d, present);
      assert [s[0]] + s[1..] == s;
    }
  }

  /** Filing the same declaration twice files it once. */
  lemma {:induction false} InsertIdempotent(s: seq<Decl>, d: Decl)
    ensures Insert(Insert(s, d), d) == Insert(s, d)
  {
    if s != [] && d.ref.location > s[0].ref.location {
      InsertIdempotent(s[1..], d);
      assert ([s[0]] + Insert(s[1..], d))[1..] == Insert(s[1..], d);
    }
  }

  /** Erasing keeps the set ordered and removes exactly the declarations at that location. */
  lemma {:induction false} EraseKeepsOrder(s: seq<Decl>, l: Loc)
    requires Ordered(s)
    ensures Ordered(Erase(s, l))
    ensures forall x :: x in Erase(s, l) <==> x in s && x.ref.location != l
  {
    if s != [] {
      OrderedTail(s);
      EraseKeepsOrder(s[1..], l);
      if s[0].ref.location != l {
        OrderedCons(s[0], Erase(s[1..], l));
      }
    }
  }

  /** What the destructor reports for the undocumented declarations, in the set's order. */
  function UndocumentedReport(undocumented: seq<Decl>): seq<Diagnostic>
  {
    if undocumented == [] then []
    else UndocumentedReport(undocumented[..|undocumented| - 1])
         + Tracker.DiagnoseUndocumentedDecl(undocumented[|undocumented| - 1])
  }

  /** Every undocumented declaration of a kind get_kind knows is reported, with its note. */
  lemma {:induction false} UndocumentedReportNamesEach(undocumented: seq<Decl>, k: nat)
    requires k < |undocumented| && Tracker.GetKind(undocumented[k]).Some?
    ensures Report(NoteUndocumentedDecl, undocumented[k].ref.location, [DeclArg(undocumented[k].ref)])
      in UndocumentedReport(undocumented)
    decreases |undocumented|
  {
    var init := undocumented[..|undocumented| - 1];
    var own := Tracker.DiagnoseUndocumentedDecl(undocumented[|undocumented| - 1]);
    if k == |undocumented| - 1 {
      assert own[1] in own;
    } else {
      assert init[k] == undocumented[k];
      UndocumentedReportNamesEach(init, k);
    }
    assert UndocumentedReport(undocumented) == UndocumentedReport(init) + own;
  }

  /** A declaration get_kind does not know adds nothing to the report. */
  lemma UnknownKindsAreSilent(undocumented: seq<Decl>, d: Decl)
    requires Tracker.GetKind(d).None?
    ensures UndocumentedReport(undocumented + [d]) == UndocumentedReport(undocumented)
  {
    assert (undocumented + [d])[..|undocumented|] == undocumented;
    assert UndocumentedReport(undocumented) + [] == UndocumentedReport(undocumented);
  }

  /** The locations of the undocumented-declaration warnings among `ds`, in order. */
  function WarningLocations(ds: seq<Diagnostic>): seq<Loc>
  {
    if ds == [] then []
    else (if ds[0].id == WarnUndocumentedDecl then [ds[0].loc] else []) + WarningLocations(ds[1..])
  }

  lemma {:induction false} WarningLocationsConcat(a: seq<Diagnostic>, b: seq<Diagnostic>)
    ensures WarningLocations(a + b) == WarningLocations(a) + WarningLocations(b)
  {
    if a == [] {
      assert a + b == b;
    } else {
      var own := if a[0].id == WarnUndocumentedDecl then [a[0].loc] else [];
      assert (a + b)[0] == a[0] && (a + b)[1..] == a[1..] + b;
      assert WarningLocations(a + b) == own + WarningLocations(a[1..] + b);
      WarningLocationsConcat(a[1..], b);
      Concatenation(own, WarningLocations(a[1..]), WarningLocations(b));
    }
  }

  /** The locations of the declarations get_kind knows, in order. */
  function KnownLocations(s: seq<Decl>): seq<Loc>
  {
    if s == [] then []
    else KnownLocations(s[..|s| - 1])
         + (if Tracker.GetKind(s[|s| - 1]).Some? then [s[|s| - 1].ref.location] else [])
  }

  /** The destructor warns once for each declaration of a known kind, in the set's order, and
      for nothing else. */
  lemma {:induction false} UndocumentedReportWarnsEach(undocumented: seq<Decl>)
    ensures WarningLocations(UndocumentedReport(undocumented)) == KnownLocations(undocumented)
    decreases |undocumented|
  {
    if undocumented != [] {
      var init := undocumented[..|undocumented| - 1];
      var last := undocumented[|undocumented| - 1];
      var own := Tracker.DiagnoseUndocumentedDecl(last);
      UndocumentedReportWarnsEach(init);
      assert UndocumentedReport(undocumented) == UndocumentedReport(init) + own;
      WarningLocationsConcat(UndocumentedReport(init), own);
      OwnWarning(last);
    }
  }

  /** The destructor's diagnostics for one declaration hold one warning, at the declaration,
      exactly when get_kind knows its kind. */
  lemma OwnWarning(d: Decl)
    ensures WarningLocations(Tracker.DiagnoseUndocumentedDecl(d))
      == if Tracker.GetKind(d).Some? then [d.ref.location] else []
  {
    var ds := Tracker.DiagnoseUndocumentedDecl(d);
    if ds != [] {
      assert ds[1..][1..] == [];
      assert WarningLocations(ds[1..]) == [];
    }
  }

  /** Every known location of declarations below `bound` is below `bound`. */
  lemma {:induction false} KnownLocationsBelow(s: seq<Decl>, bound: Loc)
    requires forall j :: 0 <= j < |s| ==> s[j].ref.location < bound
    ensures forall i :: 0 <= i < |KnownLocations(s)| ==> KnownLocations(s)[i] < bound
    decreases |s|
  {
    if s != [] {
      KnownLocationsBelow(s[..|s| - 1], bound);
    }
  }

  /** Over an ordered set the warnings come in strictly ascending order of location, so each
      declaration is warned about exactly once. */
  lemma {:induction false} UndocumentedReportAscends(undocumented: seq<Decl>)
    requires Ordered(undocumented)
    ensures var ws := WarningLocations(UndocumentedReport(undocumented));
      forall i, j :: 0 <= i < j < |ws| ==> ws[i] < ws[j]
    decreases |undocumented|
  {
    UndocumentedReportWarnsEach(undocumented);
    if undocumented != [] {
      var init := undocumented[..|undocumented| - 1];
      var last := undocumented[|undocumented| - 1];
      UndocumentedReportAscends(init);
      UndocumentedReportWarnsEach(init);
      KnownLocationsBelow(init, last.ref.location);
    }
  }

  /** The parser with the two declaration sets. In the source these are file-scope sets shared
      by every parser; here each parser owns them. */
  class SchreiberParser {
    const env: Env
    var undocumented: seq<Decl>
    var documented: seq<Decl>

    /** Both sets are ordered by location, and no location is both documented and undocumented. */
    ghost predicate Valid()
      reads this
    {
      && Ordered(undocumented) && Ordered(documented)
      && (forall x, y :: x in undocumented && y in documented ==> x.ref.location != y.ref.location)
    }

    constructor (env: Env)
      ensures this.env == env && undocumented == [] && documented == []
      ensures Valid()
    {
      this.env := env;
      undocumented := [];
      documented := [];
    }

    /** One pass of parse_directives' loop on `entity`. */
    method ParseDirective(entity: FunctionInfo, hasDescription: bool, commentBegin: Position,
                          visit: Block -> Option<BasicInfo>, b: Block)
      returns (emitted: seq<Diagnostic>)
      requires Visitable(visit)
      modifies entity
      ensures (entity.Record(), emitted)
        == DirectiveStep(env, hasDescription, commentBegin, visit, entity.decl, old(entity.Record()), b)
    {
      emitted := [];
      if b.directive.token.None? {
        emitted := [DiagnoseUnknownDirective(env.commands, env.doxygen, env.presumed, b.location, b.directive.text,
                                             hasDescription, commentBegin)];
      } else {
        var info := visit(b);
        if info.Some? {
          emitted := entity.Store(b.location, info.value);
        }
      }
    }

    /** parse_directives: every directive from line `first` on, starting at `beginLoc`. Whether the
        entity has a description is read off its description text. */
    method ParseDirectives(entity: FunctionInfo, lines: seq<CommentLine>, first: nat, beginLoc: Loc,
                           visit: Block -> Option<BasicInfo>)
      returns (diags: seq<Diagnostic>)
      requires ScanStart(lines, first) && Visitable(visit)
      modifies entity
      ensures InLines(lines, Blocks(env.commands, lines, first, beginLoc))
      ensures (entity.Record(), diags) == DirectivesRun(env, entity.description != [], lines, visit, entity.decl,
                                                         old(entity.Record()), Blocks(env.commands, lines, first, beginLoc))
    {
      var hasDescription := entity.description != [];
      ghost var rec0 := entity.Record();
      ghost var all := Blocks(env.commands, lines, first, beginLoc);
      ghost var consumed: seq<Block> := [];
      diags := [];
      var line := first;
      var loc := beginLoc;
      assert all == consumed + Blocks(env.commands, lines, line, loc);
      while line != |lines|
        invariant ScanStart(lines, line)
        invariant all == consumed + Blocks(env.commands, lines, line, loc)
        invariant InLines(lines, consumed)
        invariant (entity.Record(), diags) == DirectivesRun(env, hasDescription, lines, visit, entity.decl, rec0, consumed)
        decreases |lines| - line
      {
        var b := BlockAt(env.commands, lines, line, loc);
        ScanAdvance(env.commands, lines, line, loc, consumed, all);
        ghost var before := (entity.Record(), diags);
        var emitted := ParseDirective(entity, hasDescription, lines[line].begin, visit, b);
        RunSnoc(env, hasDescription, lines, visit, entity.decl, rec0, consumed, b, before, (entity.Record(), emitted));
        diags := diags + emitted;
        consumed := consumed + [b];
        loc := b.description.next.location;
        line := b.description.next.line;
      }
      assert consumed == all;
    }

    /** parse: a declaration inside a function or method is skipped. Without a comment its
        canonical declaration is filed as undocumented unless it is already documented; with one
        it is moved to the documented set, and a function_info is built from the description and
        the directives. Only plain functions reach make_entity_info's supported case. */
    method Parse(decl: Decl, canonical: Decl, comment: Option<RawComment>, visit: Block -> Option<BasicInfo>)
      returns (result: Option<FunctionInfo>, diags: seq<Diagnostic>)
      requires Valid() && Visitable(visit)
      requires !decl.context.isFunctionOrMethod && comment.Some? ==>
        decl.kind == Ast.Function && comment.value.lines != []
      modifies this
      ensures Valid()
      ensures decl.context.isFunctionOrMethod ==>
        result.None? && diags == [] && undocumented == old(undocumented) && documented == old(documented)
      ensures !decl.context.isFunctionOrMethod && comment.None? ==>
        && result.None? && diags == []
        && documented == old(documented)
        && undocumented == (if canonical.ref.location in Locations(old(documented)) then old(undocumented)
                            else Insert(old(undocumented), canonical))
      ensures !decl.context.isFunctionOrMethod && comment.Some? ==>
        var lines := comment.value.lines;
        var bs := Blocks(env.commands, lines, DescriptionEnd(lines),
                         InitialDirectiveOffset(lines, comment.value.beginLoc, comment.value.beginColumn));
        && undocumented == Erase(old(undocumented), canonical.ref.location)
        && documented == Insert(old(documented), canonical)
        && result.Some? && fresh(result.value)
        && result.value.decl == decl.ref
        && result.value.description == DescriptionText(lines)
        && result.value.location == comment.value.beginLoc
        && InLines(lines, bs)
        && (result.value.Record(), diags)
           == DirectivesRun(env, DescriptionText(lines) != [], lines, visit, decl.ref, EmptyRecord, bs)
    {
      result := None;
      diags := [];
      if decl.context.isFunctionOrMethod {
        return;
      }
      var l := canonical.ref.location;
      if comment.None? {
        if l !in Locations(documented) {
          InsertKeepsOrder(undocumented, canonical);
          InsertMembers(undocumented, canonical);
          undocumented := Insert(undocumented, canonical);
        }
        return;
      }
      EraseKeepsOrder(undocumented, l);
      InsertKeepsOrder(documented, canonical);
      InsertMembers(documented, canonical);
      undocumented := Erase(undocumented, l);
      documented := Insert(documented, canonical);
      var lines := comment.value.lines;
      var description := DescriptionText(lines);
      var directiveLoc := InitialDirectiveOffset(lines, comment.value.beginLoc, comment.value.beginColumn);
      var entity := new FunctionInfo(Some(decl.ref), description, comment.value.beginLoc);
      diags := ParseDirectives(entity, lines, DescriptionEnd(lines), directiveLoc, visit);
      result := Some(entity);
    }

    /** The destructor: every declaration still undocumented is reported, in the set's ascending
        order of location, and nothing else. */
    method Teardown() returns (diags: seq<Diagnostic>)
      requires Valid()
      ensures diags == UndocumentedReport(undocumented)
      ensures var ws := WarningLocations(diags);
        && ws == KnownLocations(undocumented)
        && forall i, j :: 0 <= i < j < |ws| ==> ws[i] < ws[j]
    {
      diags := [];
      var i := 0;
      while i < |undocumented|
        invariant 0 <= i <= |undocumented|
        invariant diags == UndocumentedReport(undocumented[..i])
      {
        assert undocumented[..i + 1][..i] == undocumented[..i];
        diags := diags + Tracker.DiagnoseUndocumentedDecl(undocumented[i]);
        i := i + 1;
      }
      assert undocumented[..i] == undocumented;
      UndocumentedReportWarnsEach(undocumented);
      UndocumentedReportAscends(undocumented);
    }
  }
}
