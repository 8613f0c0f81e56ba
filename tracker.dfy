/** The classification of undocumented declarations in source/parser/parser_common.cpp: the kind
    of entity a declaration is (get_kind), how a member is introduced in the warning (prefix), and
    the warning and note diagnose_undocumented_decl reports. Enumerations are streamed into a
    diagnostic as their underlying integers, so each carries its ordinal. */
module Tracker {
  import opened Base
  import Ast
  import opened Diagnostics

  /** The `entity` enumeration, in declaration order. */
  datatype Entity =
    | ClassTemplate
    | Class
    | Concept
    | DataMember
    | DeductionGuide
    | Enum
    | EnumConstant
    | FunctionTemplate
    | Function
    | Struct
    | TypeAliasTemplate
    | TypeAlias
    | Typedef
    | Union
    | VariableTemplate
    | Variable
    | Constructor
    | DefaultConstructor
    | MoveConstructor
    | CopyConstructor
    | Destructor
    | MoveAssignment
    | CopyAssignment
    | Conversion

  /** `static_cast<int>(kind)`: the enumerator's position. */
  function Ordinal(e: Entity): (n: nat)
    ensures n < 24
  {
    match e
    case ClassTemplate => 0
    case Class => 1
    case Concept => 2
    case DataMember => 3
    case DeductionGuide => 4
    case Enum => 5
    case EnumConstant => 6
    case FunctionTemplate => 7
    case Function => 8
    case Struct => 9
    case TypeAliasTemplate => 10
    case TypeAlias => 11
    case Typedef => 12
    case Union => 13
    case VariableTemplate => 14
    case Variable => 15
    case Constructor => 16
    case DefaultConstructor => 17
    case MoveConstructor => 18
    case CopyConstructor => 19
    case Destructor => 20
    case MoveAssignment => 21
    case CopyAssignment => 22
    case Conversion => 23
  }

  /** The enumerator at a position. */
  function FromOrdinal(n: nat): (e: Option<Entity>)
    ensures e.Some? <==> n < 24
  {
    if n >= 24 then None
    else Some([ClassTemplate, Class, Concept, DataMember, DeductionGuide, Enum, EnumConstant, FunctionTemplate,
               Function, Struct, TypeAliasTemplate, TypeAlias, Typedef, Union, VariableTemplate, Variable,
               Constructor, DefaultConstructor, MoveConstructor, CopyConstructor, Destructor, MoveAssignment,
               CopyAssignment, Conversion][n])
  }

  /** The integer streamed for a kind names that kind and no other. */
  lemma OrdinalRoundTrip(e: Entity)
    ensures FromOrdinal(Ordinal(e)) == Some(e)
  {
    match e
    case ClassTemplate =>
    case Class =>
    case Concept =>
    case DataMember =>
    case DeductionGuide =>
    case Enum =>
    case EnumConstant =>
    case FunctionTemplate =>
    case Function =>
    case Struct =>
    case TypeAliasTemplate =>
    case TypeAlias =>
    case Typedef =>
    case Union =>
    case VariableTemplate =>
    case Variable =>
    case Constructor =>
    case DefaultConstructor =>
    case MoveConstructor =>
    case CopyConstructor =>
    case Destructor =>
    case MoveAssignment =>
    case CopyAssignment =>
    case Conversion =>
  }

  /** Distinct kinds are streamed as distinct integers. */
  lemma OrdinalInjective(x: Entity, y: Entity)
    requires Ordinal(x) == Ordinal(y)
    ensures x == y
  {
    OrdinalRoundTrip(x);
    OrdinalRoundTrip(y);
  }

  /** The special member functions, which diagnose_undocumented_decl words after their class. */
  predicate IsSpecialMember(e: Entity)
  {
    e == DefaultConstructor || e == CopyConstructor || e == MoveConstructor || e == MoveAssignment
    || e == CopyAssignment || e == Constructor || e == Destructor
  }

  /** get_kind: the entity a declaration is, or None for a declaration kind it does not know.
      A record is a class, else a struct, else a union; a variable in a record is a data member;
      an assignment operator is a move assignment before a copy assignment, and any other method
      is a function; a constructor is a default constructor, else a move, else a copy one. */
  function GetKind(decl: Ast.Decl): (r: Option<Entity>)
    ensures r.None? <==> decl.kind == Ast.OtherKind
    ensures r.Some? && IsSpecialMember(r.value) <==>
      || decl.kind.CXXConstructor? || decl.kind.CXXDestructor?
      || (decl.kind.CXXMethod? && (decl.kind.isMoveAssignment || decl.kind.isCopyAssignment))
    ensures r == Some(DataMember) <==> decl.kind == Ast.Var && decl.context.isRecord
    ensures r == Some(Function) <==>
      decl.kind == Ast.Function || (decl.kind.CXXMethod? && !decl.kind.isMoveAssignment && !decl.kind.isCopyAssignment)
  {
    match decl.kind
    case Concept => Some(Concept)
    case CXXRecord(isClass, isStruct) => Some(if isClass then Class else if isStruct then Struct else Union)
    case ClassTemplate => Some(ClassTemplate)
    case Enum => Some(Enum)
    case EnumConstant => Some(EnumConstant)
    case Function => Some(Function)
    case FunctionTemplate => Some(FunctionTemplate)
    case TypeAlias => Some(TypeAlias)
    case TypeAliasTemplate => Some(TypeAliasTemplate)
    case Typedef => Some(Typedef)
    case Var => Some(if decl.context.isRecord then DataMember else Variable)
    case VarTemplate => Some(VariableTemplate)
    case CXXMethod(isMove, isCopy) => Some(if isMove then MoveAssignment else if isCopy then CopyAssignment else Function)
    case CXXConstructor(isDefault, isMove, isCopy) =>
      Some(if isDefault then DefaultConstructor else if isMove then MoveConstructor
           else if isCopy then CopyConstructor else Constructor)
    case CXXDestructor => Some(Destructor)
    case CXXConversion => Some(Conversion)
    case CXXDeductionGuide => Some(DeductionGuide)
    case OtherKind => None
  }

  /** The `prefix_with` enumeration: nothing = 0, member = 1, nested = 2. */
  datatype PrefixWith = Nothing | Member | Nested

  function PrefixOrdinal(p: PrefixWith): nat
  {
    match p
    case Nothing => 0
    case Member => 1
    case Nested => 2
  }

  /** prefix: how a kind is introduced when it is a member of a class. Types that can be nested
      are "nested", functions and aliases are "member", and everything else is named bare. */
  function Prefix(e: Entity): (p: PrefixWith)
    ensures p == Nested <==> e in {Class, ClassTemplate, Enum, Struct, Union, VariableTemplate}
    ensures p == Member <==> e in {Function, FunctionTemplate, TypeAlias, TypeAliasTemplate, Typedef}
  {
    match e
    case Concept => Nothing
    case Constructor => Nothing
    case Conversion => Nothing
    case CopyAssignment => Nothing
    case CopyConstructor => Nothing
    case DataMember => Nothing
    case DeductionGuide => Nothing
    case DefaultConstructor => Nothing
    case Destructor => Nothing
    case EnumConstant => Nothing
    case MoveAssignment => Nothing
    case MoveConstructor => Nothing
    case Variable => Nothing
    case Class => Nested
    case ClassTemplate => Nested
    case Enum => Nested
    case Struct => Nested
    case Union => Nested
    case VariableTemplate => Nested
    case Function => Member
    case FunctionTemplate => Member
    case TypeAlias => Member
    case TypeAliasTemplate => Member
    case Typedef => Member
  }

  /** Every special member function is named without a prefix. */
  lemma SpecialMembersHaveNoPrefix(e: Entity)
    requires IsSpecialMember(e)
    ensures Prefix(e) == Nothing
  {
  }

  /** The adjective of a special member: blank = 0, default = 1, move = 2, copy = 3. */
  function Adjective(e: Entity): nat
  {
    if e == DefaultConstructor then 1
    else if e == MoveConstructor || e == MoveAssignment then 2
    else if e == CopyConstructor || e == CopyAssignment then 3
    else 0
  }

  /** The noun of a special member: constructor = 0, destructor = 1, assignment = 2. */
  function Noun(e: Entity): nat
  {
    if e == Destructor then 1
    else if e == MoveAssignment || e == CopyAssignment then 2
    else 0
  }

  /** The adjective and noun together name each special member function unambiguously. */
  lemma SpecialMemberWordsInjective(x: Entity, y: Entity)
    requires IsSpecialMember(x) && IsSpecialMember(y)
    requires Adjective(x) == Adjective(y) && Noun(x) == Noun(y)
    ensures x == y
  {
  }

  /** The leading selector of warn_undocumented_decl: entity = 0, smf = 1, member = 2. */
  const SelectEntity := 0
  const SelectSpecialMember := 1
  const SelectMember := 2

  /** diagnose_undocumented_decl: nothing for a declaration of unknown kind; otherwise the warning
      and a note naming the declaration, both at its location. A special member function inside a
      class is worded after the class; any other member by its prefix, itself and its kind; a
      declaration outside any class by its kind and itself. */
  function DiagnoseUndocumentedDecl(decl: Ast.Decl): (ds: seq<Diagnostic>)
    ensures ds == [] <==> GetKind(decl).None?
    ensures ds != [] ==>
      && |ds| == 2
      && ds[0].id == WarnUndocumentedDecl && ds[0].loc == decl.ref.location && ds[0].fixit.None?
      && ds[1] == Report(NoteUndocumentedDecl, decl.ref.location, [DeclArg(decl.ref)])
    ensures ds != [] && decl.context.outerRecord.None? ==>
      ds[0].args == [IntArg(SelectEntity), IntArg(Ordinal(GetKind(decl).value)), DeclArg(decl.ref)]
    ensures ds != [] && decl.context.outerRecord.Some? && IsSpecialMember(GetKind(decl).value) ==>
      ds[0].args == [IntArg(SelectSpecialMember), IntArg(Adjective(GetKind(decl).value)),
                     DeclArg(decl.context.outerRecord.value), IntArg(Noun(GetKind(decl).value))]
    ensures ds != [] && decl.context.outerRecord.Some? && !IsSpecialMember(GetKind(decl).value) ==>
      ds[0].args == [IntArg(SelectMember), IntArg(PrefixOrdinal(Prefix(GetKind(decl).value))),
                     DeclArg(decl.ref), IntArg(Ordinal(GetKind(decl).value))]
  {
    match GetKind(decl)
    case None => []
    case Some(kind) =>
      var loc := decl.ref.location;
      var args :=
        if decl.context.outerRecord.None? then
          [IntArg(SelectEntity), IntArg(Ordinal(kind)), DeclArg(decl.ref)]
        else if IsSpecialMember(kind) then
          [IntArg(SelectSpecialMember), IntArg(Adjective(kind)), DeclArg(decl.context.outerRecord.value), IntArg(Noun(kind))]
        else
          [IntArg(SelectMember), IntArg(PrefixOrdinal(Prefix(kind))), DeclArg(decl.ref), IntArg(Ordinal(kind))];
      [Report(WarnUndocumentedDecl, loc, args), Report(NoteUndocumentedDecl, loc, [DeclArg(decl.ref)])]
  }

  /** Two undocumented special members of the same class get the same warning only when they
      are the same kind of special member. */
  lemma SpecialMemberWarningsDistinguishKinds(x: Ast.Decl, y: Ast.Decl)
    requires x.context.outerRecord.Some? && x.context.outerRecord == y.context.outerRecord
    requires GetKind(x).Some? && IsSpecialMember(GetKind(x).value)
    requires GetKind(y).Some? && IsSpecialMember(GetKind(y).value)
    requires DiagnoseUndocumentedDecl(x)[0].args == DiagnoseUndocumentedDecl(y)[0].args
    ensures GetKind(x) == GetKind(y)
  {
    var kx, ky := GetKind(x).value, GetKind(y).value;
    assert DiagnoseUndocumentedDecl(x)[0].args[1] == IntArg(Adjective(kx));
    assert DiagnoseUndocumentedDecl(y)[0].args[1] == IntArg(Adjective(ky));
    assert DiagnoseUndocumentedDecl(x)[0].args[3] == IntArg(Noun(kx));
    assert DiagnoseUndocumentedDecl(y)[0].args[3] == IntArg(Noun(ky));
    SpecialMemberWordsInjective(kx, ky);
  }
}
