/** The documentation records (include/schreiber/info.hpp, source/info.cpp). The basic_info
    hierarchy is one datatype carrying its kind tag, as get_kind and every classof read it; the
    function_info record, whose add_* members push onto its vectors in place, is a class. */
module Info {
  import opened Base
  import opened Ast
  import opened Commands
  import opened Diagnostics

  /** basic_info::kind: one tag per record type, in declaration order. */
  datatype InfoKind =
    | HeaderKind
    | ModuleKind
    | PreconditionKind
    | PostconditionKind
    | ReturnKind
    | NoexceptIfKind
    | ThrowsKind
    | ExitsViaKind
    | ParameterKind
    | TemplateParameterKind
    | FunctionKind
    | FunctionTemplateKind

  /** The tags of records derived from decl_info, which always point at a declaration. */
  predicate HasDecl(k: InfoKind)
  {
    k == ParameterKind || k == TemplateParameterKind || k == FunctionKind || k == FunctionTemplateKind
  }

  /** A basic_info object: its tag, description and location, and for a decl_info its declaration. */
  datatype BasicInfo = BasicInfo(kind: InfoKind, description: string, location: Loc, decl: Option<DeclRef>)

  /** An object as its constructor builds it: a declaration exactly when its type derives from decl_info. */
  predicate WellFormed(info: BasicInfo)
  {
    HasDecl(info.kind) <==> info.decl.Some?
  }

  /** `T::classof(&info)`: a test of the tag alone. */
  predicate Classof(t: InfoKind, info: BasicInfo)
  {
    info.kind == t
  }

  /** The defaulted operator== of basic_info: kind, description and location, nothing else. */
  function SameInfo(x: BasicInfo, y: BasicInfo): (r: bool)
    ensures r <==> x == y.(decl := x.decl)
  {
    x.kind == y.kind && x.description == y.description && x.location == y.location
  }

  /** decl_info::header_info's constructor. */
  function HeaderInfo(description: string, location: Loc): (r: BasicInfo)
    ensures WellFormed(r) && r.description == description && r.location == location
    ensures forall t :: Classof(t, r) <==> t == HeaderKind
  {
    BasicInfo(HeaderKind, description, location, None)
  }

  /** decl_info::module_info's constructor. */
  function ModuleInfo(description: string, location: Loc): (r: BasicInfo)
    ensures WellFormed(r) && r.description == description && r.location == location
    ensures forall t :: Classof(t, r) <==> t == ModuleKind
  {
    BasicInfo(ModuleKind, description, location, None)
  }

  /** function_info::return_info's constructor. */
  function ReturnInfo(description: string, location: Loc): (r: BasicInfo)
    ensures WellFormed(r) && r.description == description && r.location == location
    ensures forall t :: Classof(t, r) <==> t == ReturnKind
  {
    BasicInfo(ReturnKind, description, location, None)
  }

  /** function_info::precondition_info's constructor. */
  function PreconditionInfo(description: string, location: Loc): (r: BasicInfo)
    ensures WellFormed(r) && r.description == description && r.location == location
    ensures forall t :: Classof(t, r) <==> t == PreconditionKind
  {
    BasicInfo(PreconditionKind, description, location, None)
  }

  /** function_info::postcondition_info's constructor. */
  function PostconditionInfo(description: string, location: Loc): (r: BasicInfo)
    ensures WellFormed(r) && r.description == description && r.location == location
    ensures forall t :: Classof(t, r) <==> t == PostconditionKind
  {
    BasicInfo(PostconditionKind, description, location, None)
  }

  /** function_info::throws_info's constructor. */
  function ThrowsInfo(description: string, location: Loc): (r: BasicInfo)
    ensures WellFormed(r) && r.description == description && r.location == location
    ensures forall t :: Classof(t, r) <==> t == ThrowsKind
  {
    BasicInfo(ThrowsKind, description, location, None)
  }

  /** function_info::exits_via_info's constructor. */
  function ExitsViaInfo(description: string, location: Loc): (r: BasicInfo)
    ensures WellFormed(r) && r.description == description && r.location == location
    ensures forall t :: Classof(t, r) <==> t == ExitsViaKind
  {
    BasicInfo(ExitsViaKind, description, location, None)
  }

  /** parameter_info's constructor; decl_info's precondition rejects a null declaration. */
  function ParameterInfo(location: Loc, decl: Option<DeclRef>, description: string): (r: BasicInfo)
    requires decl.Some?
    ensures WellFormed(r) && r.decl == decl
    ensures r.description == description && r.location == location
    ensures forall t :: Classof(t, r) <==> t == ParameterKind
  {
    BasicInfo(ParameterKind, description, location, decl)
  }

  /** template_parameter_info's constructors (one per kind of template parameter declaration). */
  function TemplateParameterInfo(location: Loc, decl: Option<DeclRef>, description: string): (r: BasicInfo)
    requires decl.Some?
    ensures WellFormed(r) && r.decl == decl
    ensures r.description == description && r.location == location
    ensures forall t :: Classof(t, r) <==> t == TemplateParameterKind
  {
    BasicInfo(TemplateParameterKind, description, location, decl)
  }

  /** The kinds function_info::store accepts; any other tag reaches `assert(false)` in
      entity_info::store. */
  predicate Storable(k: InfoKind)
  {
    k == HeaderKind || k == ModuleKind || k == ParameterKind || k == ReturnKind
    || k == PreconditionKind || k == PostconditionKind || k == ThrowsKind || k == ExitsViaKind
  }

  /** The storable kinds kept in a vector rather than an optional. */
  predicate Repeatable(k: InfoKind)
  {
    Storable(k) && k != ReturnKind
  }

  /** The mutable part of a function_info, as a value. */
  datatype FunctionRecord = FunctionRecord(
    headers: seq<BasicInfo>,
    modules: seq<BasicInfo>,
    parameters: seq<BasicInfo>,
    returnInfo: Option<BasicInfo>,
    preconditions: seq<BasicInfo>,
    postconditions: seq<BasicInfo>,
    throws: seq<BasicInfo>,
    exitsVia: seq<BasicInfo>)

  /** A freshly constructed function_info: every vector empty and no return description. */
  const EmptyRecord := FunctionRecord([], [], [], None, [], [], [], [])

  /** The vector a repeatable kind is stored in. */
  function Repeated(rec: FunctionRecord, k: InfoKind): seq<BasicInfo>
    requires Repeatable(k)
  {
    match k
    case HeaderKind => rec.headers
    case ModuleKind => rec.modules
    case ParameterKind => rec.parameters
    case PreconditionKind => rec.preconditions
    case PostconditionKind => rec.postconditions
    case ThrowsKind => rec.throws
    case ExitsViaKind => rec.exitsVia
  }

  /** The first documented parameter that points at `decl`, if any (add_parameter's find_if). */
  function PriorParameter(parameters: seq<BasicInfo>, decl: Option<DeclRef>): (r: Option<nat>)
    ensures r.Some? ==> r.value < |parameters| && parameters[r.value].decl == decl
    ensures r.Some? ==> forall j :: 0 <= j < r.value ==> parameters[j].decl != decl
    ensures r.None? <==> forall j :: 0 <= j < |parameters| ==> parameters[j].decl != decl
  {
    if parameters == [] then None
    else if parameters[0].decl == decl then Some(0)
    else match PriorParameter(parameters[1..], decl)
      case Some(i) => Some(i + 1)
      case None => None
  }

  /** The diagnostics for a directive repeated at `directive` whose first occurrence is at `prior`. */
  function RepeatedDirective(directive: Loc, args: seq<Arg>, prior: Loc): seq<Diagnostic>
  {
    [Report(ErrRepeatedDirective, directive, args), Report(NotePreviousDefinition, prior, [])]
  }

  /** function_info::store applied to a record: the new record and the diagnostics it reports.
      `owner` is the documented function, `directive` the location of the directive that
      produced `info`. */
  function StoreRecord(rec: FunctionRecord, owner: DeclRef, directive: Loc, info: BasicInfo)
    : (r: (FunctionRecord, seq<Diagnostic>))
    requires Storable(info.kind) && WellFormed(info)
    ensures forall k :: Repeatable(k) ==>
      Repeated(r.0, k) == Repeated(rec, k) + (if k == info.kind then [info] else [])
    ensures r.0.returnInfo == (if info.kind == ReturnKind && rec.returnInfo.None? then Some(info) else rec.returnInfo)
    ensures r.1 != [] <==>
      || (info.kind == ReturnKind && rec.returnInfo.Some?)
      || (info.kind == ParameterKind && exists j :: 0 <= j < |rec.parameters| && rec.parameters[j].decl == info.decl)
    ensures r.1 != [] ==>
      (|r.1| == 2 && r.1[0].id == ErrRepeatedDirective && r.1[0].loc == directive
       && r.1[1].id == NotePreviousDefinition)
    ensures info.kind == ReturnKind && rec.returnInfo.Some? ==>
      r.1[1].loc == rec.returnInfo.value.location && r.1[0].args == [KindArg(Returns), IntArg(0), DeclArg(owner)]
    ensures info.kind == ParameterKind && r.1 != [] ==>
      r.1[0].args == [KindArg(Param), IntArg(1), DeclArg(info.decl.value), DeclArg(owner)]
      && r.1[1].loc == rec.parameters[PriorParameter(rec.parameters, info.decl).value].location
  {
    match info.kind
    case ParameterKind =>
      var prior := PriorParameter(rec.parameters, info.decl);
      var emitted := if prior.None? then [] else
        RepeatedDirective(directive, [KindArg(Param), IntArg(1), DeclArg(info.decl.value), DeclArg(owner)],
                  rec.parameters[prior.value].location);
      (rec.(parameters := rec.parameters + [info]), emitted)
    case ReturnKind =>
      if rec.returnInfo.Some? then
        (rec, RepeatedDirective(directive, [KindArg(Returns), IntArg(0), DeclArg(owner)], rec.returnInfo.value.location))
      else
        (rec.(returnInfo := Some(info)), [])
    case PreconditionKind => (rec.(preconditions := rec.preconditions + [info]), [])
    case PostconditionKind => (rec.(postconditions := rec.postconditions + [info]), [])
    case ThrowsKind => (rec.(throws := rec.throws + [info]), [])
    case ExitsViaKind => (rec.(exitsVia := rec.exitsVia + [info]), [])
    case HeaderKind => (rec.(headers := rec.headers + [info]), [])
    case ModuleKind => (rec.(modules := rec.modules + [info]), [])
  }

  /** A storable object paired with the location of the directive it came from. */
  datatype Stored = Stored(directive: Loc, info: BasicInfo)

  predicate AllStorable(items: seq<Stored>)
  {
    forall i :: 0 <= i < |items| ==> Storable(items[i].info.kind) && WellFormed(items[i].info)
  }

  /** A sequence of stores, in order, with every diagnostic they report. */
  function StoreAll(rec: FunctionRecord, owner: DeclRef, items: seq<Stored>): (FunctionRecord, seq<Diagnostic>)
    requires AllStorable(items)
  {
    if items == [] then (rec, [])
    else
      var (before, diags) := StoreAll(rec, owner, items[..|items| - 1]);
      var last := items[|items| - 1];
      var (after, emitted) := StoreRecord(before, owner, last.directive, last.info);
      (after, diags + emitted)
  }

  /** Storing one more object stores it into the record the earlier ones built. */
  lemma StoreAllSnoc(rec: FunctionRecord, owner: DeclRef, items: seq<Stored>, x: Stored)
    requires AllStorable(items) && Storable(x.info.kind) && WellFormed(x.info)
    ensures AllStorable(items + [x])
    ensures StoreAll(rec, owner, items + [x]).0 == StoreRecord(StoreAll(rec, owner, items).0, owner, x.directive, x.info).0
  {
    assert (items + [x])[..|items|] == items;
  }

  /** The objects of kind `k`, in order. */
  function OfKind(items: seq<Stored>, k: InfoKind): (r: seq<BasicInfo>)
    ensures |r| <= |items|
    ensures forall i :: 0 <= i < |r| ==> r[i].kind == k
  {
    if items == [] then []
    else OfKind(items[..|items| - 1], k) + (if items[|items| - 1].info.kind == k then [items[|items| - 1].info] else [])
  }

  /** The first object of kind `k`, if any. */
  function FirstOfKind(items: seq<Stored>, k: InfoKind): (r: Option<BasicInfo>)
    ensures r.None? <==> OfKind(items, k) == []
    ensures r.Some? ==> r.value == OfKind(items, k)[0]
  {
    if items == [] then None
    else
      var first := FirstOfKind(items[..|items| - 1], k);
      if first.Some? then first
      else if items[|items| - 1].info.kind == k then Some(items[|items| - 1].info)
      else None
  }

  /** Every repeatable field ends as its old contents followed by the stored objects of its kind,
      in comment order: no object is lost, reordered or deduplicated. */
  lemma {:induction false} StoreAllAppends(rec: FunctionRecord, owner: DeclRef, items: seq<Stored>, k: InfoKind)
    requires AllStorable(items) && Repeatable(k)
    ensures Repeated(StoreAll(rec, owner, items).0, k) == Repeated(rec, k) + OfKind(items, k)
  {
    if items != [] {
      StoreAllAppends(rec, owner, items[..|items| - 1], k);
    }
  }

  /** The return description is the first one ever stored: later ones change nothing. */
  lemma {:induction false} StoreAllKeepsFirstReturn(rec: FunctionRecord, owner: DeclRef, items: seq<Stored>)
    requires AllStorable(items)
    ensures StoreAll(rec, owner, items).0.returnInfo ==
      (if rec.returnInfo.Some? then rec.returnInfo else FirstOfKind(items, ReturnKind))
  {
    if items != [] {
      StoreAllKeepsFirstReturn(rec, owner, items[..|items| - 1]);
    }
  }

  /** `ds` is a run of (repeated-directive error, previous-definition note) pairs. */
  predicate ErrorNotePairs(ds: seq<Diagnostic>)
    decreases |ds|
  {
    ds == [] || (|ds| >= 2 && ds[0].id == ErrRepeatedDirective && ds[1].id == NotePreviousDefinition
                 && ErrorNotePairs(ds[2..]))
  }

  lemma {:induction false} ErrorNotePairsAppend(a: seq<Diagnostic>, b: seq<Diagnostic>)
    requires ErrorNotePairs(a) && ErrorNotePairs(b)
    ensures ErrorNotePairs(a + b)
    decreases |a|
  {
    if a != [] {
      assert (a + b)[2..] == a[2..] + b;
      assert (a + b)[0] == a[0] && (a + b)[1] == a[1];
      ErrorNotePairsAppend(a[2..], b);
    } else {
      assert a + b == b;
    }
  }

  /** Diagnostics from a sequence of stores come in error/note pairs, one pair per rejected or
      repeated directive. */
  lemma {:induction false} StoreAllReportsPairs(rec: FunctionRecord, owner: DeclRef, items: seq<Stored>)
    requires AllStorable(items)
    ensures ErrorNotePairs(StoreAll(rec, owner, items).1)
  {
    if items != [] {
      StoreAllReportsPairs(rec, owner, items[..|items| - 1]);
      var before := StoreAll(rec, owner, items[..|items| - 1]);
      var last := items[|items| - 1];
      var emitted := StoreRecord(before.0, owner, last.directive, last.info).1;
      if emitted != [] {
        assert emitted[2..] == [];
      }
      ErrorNotePairsAppend(before.1, emitted);
    }
  }

  /** function_info (and the entity_info it derives from), whose store and add_* members grow its
      vectors in place. */
  class FunctionInfo {
    const decl: DeclRef
    const description: string
    const location: Loc
    var headers: seq<BasicInfo>
    var modules: seq<BasicInfo>
    var parameters: seq<BasicInfo>
    var returnInfo: Option<BasicInfo>
    var preconditions: seq<BasicInfo>
    var postconditions: seq<BasicInfo>
    var throws: seq<BasicInfo>
    var exitsVia: seq<BasicInfo>

    function Record(): FunctionRecord
      reads this
    {
      FunctionRecord(headers, modules, parameters, returnInfo, preconditions, postconditions, throws, exitsVia)
    }

    /** The basic_info part: tag, description and location, and the documented declaration. */
    function AsInfo(): (r: BasicInfo)
      reads this
      ensures WellFormed(r) && Classof(FunctionKind, r)
    {
      BasicInfo(FunctionKind, description, location, Some(decl))
    }

    /** function_info(decl, description, location): decl_info's precondition rejects a null
        declaration, and the new record documents nothing yet. */
    constructor (decl: Option<DeclRef>, description: string, location: Loc)
      requires decl.Some?
      ensures this.decl == decl.value && this.description == description && this.location == location
      ensures Record() == EmptyRecord
    {
      this.decl := decl.value;
      this.description := description;
      this.location := location;
      headers, modules, parameters, returnInfo := [], [], [], None;
      preconditions, postconditions, throws, exitsVia := [], [], [], [];
    }

    /** entity_info::add_header, single object. */
    method AddHeader(header: BasicInfo)
      requires header.kind == HeaderKind
      modifies this
      ensures Record() == old(Record()).(headers := old(headers) + [header])
    {
      headers := headers + [header];
    }

    /** entity_info::add_header, vector overload: all of them, in order, after the existing ones. */
    method AddHeaders(items: seq<BasicInfo>)
      requires forall i :: 0 <= i < |items| ==> items[i].kind == HeaderKind
      modifies this
      ensures Record() == old(Record()).(headers := old(headers) + items)
    {
      headers := headers + items;
    }

    /** entity_info::add_module, single object. */
    method AddModule(item: BasicInfo)
      requires item.kind == ModuleKind
      modifies this
      ensures Record() == old(Record()).(modules := old(modules) + [item])
    {
      modules := modules + [item];
    }

    /** entity_info::add_module, vector overload. */
    method AddModules(items: seq<BasicInfo>)
      requires forall i :: 0 <= i < |items| ==> items[i].kind == ModuleKind
      modifies this
      ensures Record() == old(Record()).(modules := old(modules) + items)
    {
      modules := modules + items;
    }

    /** entity_info::store: headers and modules only. */
    method EntityStore(directive: Loc, info: BasicInfo)
      requires (info.kind == HeaderKind || info.kind == ModuleKind) && WellFormed(info)
      modifies this
      ensures (Record(), []) == StoreRecord(old(Record()), decl, directive, info)
    {
      if info.kind == HeaderKind {
        AddHeader(info);
      } else {
        AddModule(info);
      }
    }

    /** function_info::add_parameter: a second object for the same parameter declaration is
        diagnosed, with a note at the first one, and is appended all the same. */
    method AddParameter(directive: Loc, info: BasicInfo) returns (emitted: seq<Diagnostic>)
      requires info.kind == ParameterKind && info.decl.Some?
      modifies this
      ensures (Record(), emitted) == StoreRecord(old(Record()), decl, directive, info)
    {
      emitted := [];
      var i := 0;
      while i < |parameters|
        invariant 0 <= i <= |parameters|
        invariant forall j :: 0 <= j < i ==> parameters[j].decl != info.decl
      {
        if parameters[i].decl == info.decl {
          emitted := RepeatedDirective(directive, [KindArg(Param), IntArg(1), DeclArg(info.decl.value), DeclArg(decl)],
                               parameters[i].location);
          break;
        }
        i := i + 1;
      }
      parameters := parameters + [info];
    }

    /** function_info::add_returns: once set, the return description is never replaced; a later
        one is diagnosed with a note at the existing one. */
    method AddReturns(directive: Loc, info: BasicInfo) returns (emitted: seq<Diagnostic>)
      requires info.kind == ReturnKind && WellFormed(info)
      modifies this
      ensures (Record(), emitted) == StoreRecord(old(Record()), decl, directive, info)
    {
      if returnInfo.Some? {
        emitted := RepeatedDirective(directive, [KindArg(Returns), IntArg(0), DeclArg(decl)], returnInfo.value.location);
        return;
      }
      returnInfo := Some(info);
      emitted := [];
    }

    method AddPrecondition(info: BasicInfo)
      requires info.kind == PreconditionKind
      modifies this
      ensures Record() == old(Record()).(preconditions := old(preconditions) + [info])
    {
      preconditions := preconditions + [info];
    }

    method AddPostcondition(info: BasicInfo)
      requires info.kind == PostconditionKind
      modifies this
      ensures Record() == old(Record()).(postconditions := old(postconditions) + [info])
    {
      postconditions := postconditions + [info];
    }

    method AddThrows(info: BasicInfo)
      requires info.kind == ThrowsKind
      modifies this
      ensures Record() == old(Record()).(throws := old(throws) + [info])
    {
      throws := throws + [info];
    }

    method AddExitsVia(info: BasicInfo)
      requires info.kind == ExitsViaKind
      modifies this
      ensures Record() == old(Record()).(exitsVia := old(exitsVia) + [info])
    {
      exitsVia := exitsVia + [info];
    }

    /** function_info::store: dispatch on the tag; headers and modules go to entity_info::store. */
    method Store(directive: Loc, info: BasicInfo) returns (emitted: seq<Diagnostic>)
      requires Storable(info.kind) && WellFormed(info)
      modifies this
      ensures (Record(), emitted) == StoreRecord(old(Record()), decl, directive, info)
    {
      emitted := [];
      match info.kind
      case ParameterKind => emitted := AddParameter(directive, info);
      case ReturnKind => emitted := AddReturns(directive, info);
      case PreconditionKind => AddPrecondition(info);
      case PostconditionKind => AddPostcondition(info);
      case ThrowsKind => AddThrows(info);
      case ExitsViaKind => AddExitsVia(info);
      case HeaderKind => EntityStore(directive, info);
      case ModuleKind => EntityStore(directive, info);
    }
  }
}
