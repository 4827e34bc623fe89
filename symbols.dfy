/** The symbol records the indexer stores (`hdoc::types` in the original). Field names
    follow the original except where its name is a Dafny keyword (`type`). */
module Symbols {

  /** `SymbolID`: a 64-bit content hash of a declaration's identity. */
  newtype SymbolID = x: int | 0 <= x < 0x1_0000_0000_0000_0000

  /** The default-constructed `SymbolID`, meaning "no target". */
  const EmptyID: SymbolID := 0

  /** `clang::AccessSpecifier`. */
  datatype Access = Public | Protected | Private | NoAccess

  /** A reference to another symbol: its ID, possibly unresolved, and its display name. */
  datatype TypeRef = TypeRef(id: SymbolID, name: string)

  const DefaultTypeRef := TypeRef(EmptyID, "")

  datatype FunctionParam = FunctionParam(name: string, paramType: TypeRef, defaultValue: string)

  datatype TemplateParamKind = TemplateTypeParameter | NonTypeTemplate | TemplateTemplateType

  datatype TemplateParam = TemplateParam(
    templateType: TemplateParamKind, name: string, valueType: string, defaultValue: string,
    isParameterPack: bool, isTypename: bool)

  /** `FunctionSymbol`. `postTemplate` and `nameStart` are offsets into `proto`: where the
      template clause ends and where the function's name begins. */
  datatype FunctionSymbol = FunctionSymbol(
    ID: SymbolID, name: string, docComment: string, parentNamespaceID: SymbolID,
    access: Access, isRecordMember: bool, isCtorOrDtor: bool,
    params: seq<FunctionParam>, returnType: TypeRef, templateParams: seq<TemplateParam>,
    proto: string, postTemplate: nat, nameStart: nat)

  datatype BaseRecord = BaseRecord(id: SymbolID, access: Access, name: string)

  datatype MemberVariable = MemberVariable(
    isStatic: bool, name: string, varType: TypeRef, defaultValue: string, access: Access,
    docComment: string)

  /** `RecordSymbol`; `kind` is the original's `type` ("class", "struct" or "union"). */
  datatype RecordSymbol = RecordSymbol(
    ID: SymbolID, name: string, docComment: string, parentNamespaceID: SymbolID,
    kind: string, proto: string, methodIDs: seq<SymbolID>, aliasIDs: seq<SymbolID>,
    baseRecords: seq<BaseRecord>, templateParams: seq<TemplateParam>, vars: seq<MemberVariable>)

  datatype EnumMember = EnumMember(name: string, value: int, docComment: string)

  /** `EnumSymbol`; `kind` is the original's `type` ("enum", "enum class" or "enum struct"). */
  datatype EnumSymbol = EnumSymbol(
    ID: SymbolID, name: string, docComment: string, parentNamespaceID: SymbolID,
    kind: string, members: seq<EnumMember>)

  /** `NamespaceSymbol`: its four child lists are filled by the resolver pass. */
  datatype NamespaceSymbol = NamespaceSymbol(
    ID: SymbolID, name: string, docComment: string, parentNamespaceID: SymbolID,
    records: seq<SymbolID>, enums: seq<SymbolID>, namespaces: seq<SymbolID>, usings: seq<SymbolID>)

  /** `AliasSymbol`: a `using` declaration, a using-shadow or a type alias. */
  datatype AliasSymbol = AliasSymbol(
    ID: SymbolID, name: string, docComment: string, parentNamespaceID: SymbolID,
    isRecordMember: bool, access: Access, target: TypeRef)
}
