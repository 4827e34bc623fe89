/** What the matchers observe of a clang declaration. Each clang query the matchers make
    is a field; each helper the matchers call but whose code is not part of this model
    (`buildID`, `fillOutSymbol`, `fillNamespace`, `processSymbolComment`,
    `getFunctionSignature`, `getRecordProto`, `exprToString`, `isInIgnoreList`,
    `isInAnonymousNamespace`, `std::filesystem::relative`, type printing) is a field
    holding what that helper returns for the declaration. */
module Decls {
  import opened Util
  import opened Symbols

  /** The part of `hdoc::types::Config` the matchers read. */
  datatype Config = Config(ignorePaths: seq<string>, ignoreNamespaces: seq<string>, ignorePrivateMembers: bool)

  /** One link of the `getDeclContext()` / `getParent()` chain. */
  datatype DeclContext =
    | NamespaceContext(name: string, isAnonymous: bool)
    | RecordContext(name: string)
    | FunctionContext
    | OtherContext

  /** The expansion location of the declaration's begin location: whether it is valid, and
      the file it lies in as a path relative to the root directory, if it has a file entry. */
  datatype Location = Location(expansionValid: bool, relativeFile: Option<string>)

  /** A tag declaration (`TagDecl`): the ID `buildID` gives it, and the ID of the
      non-specialized template it specializes, when `getNonSpecializedVersionOfDecl`
      finds one. */
  datatype TagDecl = TagDecl(id: SymbolID, nonSpecializedID: Option<SymbolID>)

  /** A `QualType`, as far as `getTypeSymbolID` looks into it: `TagType` is any type
      whose `getAsTagDecl()` is non-null. */
  datatype QualType =
    | TagType(tag: TagDecl)
    | PointerType(pointee: QualType)
    | ReferenceType(referee: QualType)
    | OtherType

  /** The declaration a using-shadow or a using declaration's shadow stands for. */
  datatype TargetDecl = TargetDecl(id: SymbolID, qualifiedName: string)

  /** A function parameter: its name, type, printed type, and printed default argument
      (the uninstantiated one where clang has it). */
  datatype ParamDecl = ParamDecl(name: string, paramType: QualType, typeName: string, defaultArg: Option<string>)

  /** A template parameter declaration. */
  datatype TemplateParamDecl =
    | TypeParamDecl(name: string, isParameterPack: bool, isTypename: bool, defaultArg: Option<string>)
    | NonTypeParamDecl(name: string, typeName: string, isParameterPack: bool, defaultArg: Option<string>)
    | TemplateTemplateParamDecl(name: string, sourceText: string, isParameterPack: bool)

  /** A `TemplateTypeParmType` reached by desugaring a type argument: its identifier, the
      name of its declaration (when either exists) and its index. */
  datatype TypeParm = TypeParm(identifier: Option<string>, declName: Option<string>, index: nat)

  /** A template argument of a specialization: how `print` renders it, and the type
      parameter it is when it is a type argument that desugars to one. */
  datatype TemplateArg = TemplateArg(printed: string, typeParm: Option<TypeParm>)

  /** An entry of `methods()` or `decls()` of a record. */
  datatype MemberKind = MethodMember | FunctionTemplateMember | AliasMember | VarMember(v: VarDecl) | OtherMember

  datatype MemberDecl = MemberDecl(
    id: SymbolID, isImplicit: bool, inIgnoreList: bool, inAnonymousNamespace: bool,
    access: Access, kind: MemberKind)

  /** A data member: a `FieldDecl` of `fields()` or a static `VarDecl` of `decls()`.
      `paragraphs` are the contents of the paragraphs of its comment, in order. */
  datatype VarDecl = VarDecl(
    name: string, access: Access, initializer: Option<string>, varType: QualType, typeName: string,
    isAnonymousStructOrUnion: bool, paragraphs: seq<string>)

  /** A base specifier: its access and, when its type is a C++ record, that record. */
  datatype BaseSpec = BaseSpec(access: Access, record: Option<BaseDecl>)

  datatype BaseDecl = BaseDecl(id: SymbolID, name: string, isInStdNamespace: bool)

  datatype EnumeratorDecl = EnumeratorDecl(name: string, value: int, paragraphs: seq<string>)

  /** The facts of a `FunctionDecl`; `signature` is what `getFunctionSignature` yields. */
  datatype FunctionFacts = FunctionFacts(
    isDeletedAsWritten: bool, isDeductionGuide: bool, isStatic: bool, isCtorOrDtor: bool,
    params: seq<ParamDecl>, templateParams: Option<seq<TemplateParamDecl>>,
    returnType: QualType, returnTypeName: string,
    proto: string, postTemplate: nat, nameStart: nat)

  /** The facts of a `CXXRecordDecl`. `specialization` holds the template arguments when
      the record is a class template specialization, with whether its type was written
      in the source; `proto` is what `getRecordProto` yields. */
  datatype RecordFacts = RecordFacts(
    isCompleteDefinition: bool, typedefName: Option<string>,
    specialization: Option<Specialization>,
    methods: seq<MemberDecl>, decls: seq<MemberDecl>, fields: seq<VarDecl>,
    isThisDeclarationADefinition: bool, bases: seq<BaseSpec>, kindName: string,
    templateParams: Option<seq<TemplateParamDecl>>, proto: string)

  datatype Specialization = Specialization(typeAsWritten: bool, args: seq<TemplateArg>)

  datatype EnumFacts = EnumFacts(isScoped: bool, isScopedUsingClassTag: bool, enumerators: seq<EnumeratorDecl>)

  /** The node kinds the five matchers distinguish. */
  datatype DeclKind =
    | FunctionDecl(fn: FunctionFacts)
    | RecordDecl(rec: RecordFacts)
    | EnumDecl(en: EnumFacts)
    | NamespaceDecl
    | UsingDecl(shadows: seq<TargetDecl>)
    | UsingShadowDecl(target: TargetDecl)
    | TypeAliasDecl(underlying: QualType, printed: string)
    | OtherNamedDecl

  /** A declaration. `contexts` is its enclosing-context chain, innermost first;
      `id` is `buildID` of it; `name` its name, which `fillOutSymbol` copies;
      `docComment` what `fillOutSymbol` and `processSymbolComment` leave in the symbol;
      `parentNamespaceID` what `fillNamespace` sets. */
  datatype Decl = Decl(
    id: SymbolID, name: string, docComment: string, parentNamespaceID: SymbolID,
    access: Access, isCXXClassMember: bool, contexts: seq<DeclContext>, location: Location,
    sourceRangeValid: bool, isImplicit: bool, inSystemHeader: bool,
    isTemplateInstantiation: bool, isInstantiated: bool, isDefinition: bool,
    inIgnoreList: bool, inAnonymousNamespace: bool, kind: DeclKind)

  /** `hasAncestor(namespaceDecl(isAnonymous()))`. */
  predicate HasAnonymousNamespaceAncestor(d: Decl) {
    exists i :: 0 <= i < |d.contexts| && d.contexts[i].NamespaceContext? && d.contexts[i].isAnonymous
  }

  /** `dyn_cast<CXXRecordDecl>(res->getParent())`: the name of the enclosing record. */
  function ParentRecordName(d: Decl): (r: Option<string>)
    ensures r.Some? <==> |d.contexts| > 0 && d.contexts[0].RecordContext?
  {
    if |d.contexts| > 0 && d.contexts[0].RecordContext? then Some(d.contexts[0].name) else None
  }

  /** `res->getDeclContext()->isFunctionOrMethod()`. */
  predicate InFunctionScope(d: Decl) {
    |d.contexts| > 0 && d.contexts[0].FunctionContext?
  }

  /** `getAccess() == AS_private && cfg->ignorePrivateMembers`. */
  predicate HiddenPrivate(cfg: Config, access: Access) {
    access == Private && cfg.ignorePrivateMembers
  }

  /** A printed optional value, empty when absent (`has...() ? print(...) : ""`). */
  function DefaultOr(s: Option<string>): string {
    if s.Some? then s.value else ""
  }

  /** A default-constructed `TemplateParam`. */
  const DefaultTemplateParam := TemplateParam(TemplateTypeParameter, "", "", "", false, false)
}
