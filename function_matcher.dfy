/** `FunctionMatcher::run`: the filters, the match counter, the at-most-once insertion
    and the construction of the `FunctionSymbol`. */
module FunctionMatcher {
  import opened Util
  import opened Strings
  import opened Symbols
  import opened Databases
  import opened Decls
  import opened MatcherUtils

  /** One entry of the parameter loop. */
  function ParamSymbol(p: ParamDecl): (r: FunctionParam)
    ensures r.paramType.id == TypeSymbolID(p.paramType)
  {
    FunctionParam(p.name, TypeRef(TypeSymbolID(p.paramType), p.typeName), DefaultOr(p.defaultArg))
  }

  /** One entry of the template-parameter loop of a function template. Only type and
      non-type parameters are inspected; a template template parameter is pushed as a
      default-constructed entry. */
  function FunctionTemplateParam(p: TemplateParamDecl): TemplateParam {
    match p
    case TypeParamDecl(name, pack, typename, def) =>
      DefaultTemplateParam.(templateType := TemplateTypeParameter, isParameterPack := pack,
                            isTypename := typename, name := name, defaultValue := DefaultOr(def))
    case NonTypeParamDecl(name, typeName, pack, def) =>
      DefaultTemplateParam.(templateType := NonTypeTemplate, isParameterPack := pack, name := name,
                            defaultValue := DefaultOr(def), valueType := typeName)
    case TemplateTemplateParamDecl(_, _, _) => DefaultTemplateParam
  }

  function FunctionTemplateParams(tps: Option<seq<TemplateParamDecl>>): (r: seq<TemplateParam>)
    ensures tps.None? ==> r == []
    ensures tps.Some? ==> |r| == |tps.value|
  {
    if tps.None? then []
    else seq(|tps.value|, i requires 0 <= i < |tps.value| => FunctionTemplateParam(tps.value[i]))
  }

  /** Deleted functions and deduction guides leave before the counter is touched. */
  predicate Counted(fn: FunctionFacts) {
    !fn.isDeletedAsWritten && !fn.isDeductionGuide
  }

  /** The filters that run after the counter: ignore list, invalid range, static
      non-member, anonymous namespace, hidden private member. */
  predicate Rejected(cfg: Config, d: Decl, fn: FunctionFacts) {
    || d.inIgnoreList || !d.sourceRangeValid || (fn.isStatic && !d.isCXXClassMember)
    || d.inAnonymousNamespace || HiddenPrivate(cfg, d.access)
  }

  /** The symbol `run` builds for `d`. */
  function Symbol(d: Decl, fn: FunctionFacts): FunctionSymbol {
    FunctionSymbol(
      ID := d.id,
      name := if fn.isCtorOrDtor then ReplaceAngleSpans(d.name, "") else d.name,
      docComment := d.docComment, parentNamespaceID := d.parentNamespaceID, access := d.access,
      isRecordMember := d.isCXXClassMember, isCtorOrDtor := fn.isCtorOrDtor,
      params := seq(|fn.params|, i requires 0 <= i < |fn.params| => ParamSymbol(fn.params[i])),
      returnType := if fn.isCtorOrDtor then DefaultTypeRef
                    else TypeRef(TypeSymbolID(fn.returnType), fn.returnTypeName),
      templateParams := FunctionTemplateParams(fn.templateParams),
      proto := fn.proto, postTemplate := fn.postTemplate, nameStart := fn.nameStart)
  }

  /** The index after `run` sees function declaration `d`. */
  function Step(ix: IndexValue, cfg: Config, d: Decl): IndexValue
    requires d.kind.FunctionDecl? && NothingClaimed(ix)
  {
    var fn := d.kind.fn;
    if !Counted(fn) then ix
    else
      var counted := ix.(functions := ix.functions.CountMatch());
      if Rejected(cfg, d, fn) then counted
      else counted.(functions := Commit(counted.functions, d.id, Symbol(d, fn)))
  }

  /** The parameter loop. */
  method BuildParams(ps: seq<ParamDecl>) returns (params: seq<FunctionParam>)
    ensures params == seq(|ps|, i requires 0 <= i < |ps| => ParamSymbol(ps[i]))
  {
    params := [];
    for i := 0 to |ps|
      invariant params == seq(i, k requires 0 <= k < i => ParamSymbol(ps[k]))
    {
      var p := ps[i];
      var a := FunctionParam(p.name, TypeRef(TypeSymbolID(p.paramType), p.typeName), "");
      if p.defaultArg.Some? {
        a := a.(defaultValue := p.defaultArg.value);
      }
      params := params + [a];
    }
  }

  /** The template-parameter loop over `getDescribedFunctionTemplate()`. */
  method BuildTemplateParams(tps: Option<seq<TemplateParamDecl>>) returns (r: seq<TemplateParam>)
    ensures r == FunctionTemplateParams(tps)
  {
    r := [];
    if tps.Some? {
      var ps := tps.value;
      for i := 0 to |ps|
        invariant r == seq(i, k requires 0 <= k < i => FunctionTemplateParam(ps[k]))
      {
        r := r + [FunctionTemplateParam(ps[i])];
      }
    }
  }

  /** `FunctionMatcher::run` on a function declaration. */
  method Run(index: Index, cfg: Config, d: Decl)
    requires index.Valid() && d.kind.FunctionDecl?
    modifies index
    ensures index.Valid()
    ensures index.Value() == Step(old(index.Value()), cfg, d)
  {
    var res := d.kind.fn;
    if res.isDeletedAsWritten {
      return;
    }
    if res.isDeductionGuide {
      return;
    }
    index.functions := index.functions.CountMatch();
    if d.inIgnoreList || !d.sourceRangeValid || (res.isStatic && !d.isCXXClassMember)
       || d.inAnonymousNamespace || (d.access == Private && cfg.ignorePrivateMembers) {
      return;
    }
    var ID := d.id;
    if index.functions.Contains(ID) {
      return;
    }
    index.functions := index.functions.Reserve(ID);
    var f := FunctionSymbol(ID, d.name, d.docComment, EmptyID, d.access, false, false, [],
                            DefaultTypeRef, [], "", 0, 0);
    var params := BuildParams(res.params);
    f := f.(params := params);
    var templateParams := BuildTemplateParams(res.templateParams);
    f := f.(templateParams := templateParams);
    f := f.(isCtorOrDtor := res.isCtorOrDtor);
    if f.isCtorOrDtor == false {
      f := f.(returnType := TypeRef(TypeSymbolID(res.returnType), res.returnTypeName));
    } else {
      f := f.(name := ReplaceAngleSpans(f.name, ""));
    }
    f := f.(proto := res.proto, postTemplate := res.postTemplate, nameStart := res.nameStart);
    f := f.(isRecordMember := d.isCXXClassMember);
    f := f.(parentNamespaceID := d.parentNamespaceID);
    index.functions := index.functions.Update(f.ID, f);
    assert f == Symbol(d, res);
  }

  // ---------------------------------------------------------------- properties

  /** Only the function table changes, and its counter moves by one exactly when the
      declaration is neither deleted nor a deduction guide. */
  lemma StepCounter(ix: IndexValue, cfg: Config, d: Decl)
    requires d.kind.FunctionDecl? && NothingClaimed(ix)
    ensures var r := Step(ix, cfg, d);
            && r == ix.(functions := r.functions)
            && r.functions.numMatches == ix.functions.numMatches + (if Counted(d.kind.fn) then 1 else 0)
            && r.functions.claimed == {}
  {
  }

  /** A declaration that is rejected, or whose ID is already present, leaves the entries
      as they were; otherwise exactly one entry is added, under its own ID. */
  lemma StepEntries(ix: IndexValue, cfg: Config, d: Decl)
    requires d.kind.FunctionDecl? && NothingClaimed(ix)
    ensures var r := Step(ix, cfg, d).functions.entries;
            if !Counted(d.kind.fn) || Rejected(cfg, d, d.kind.fn) || d.id in ix.functions.entries
            then r == ix.functions.entries
            else r == ix.functions.entries[d.id := Symbol(d, d.kind.fn)] && r[d.id].ID == d.id
  {
  }

  /** Seeing the same declaration again changes no entry. */
  lemma StepIdempotent(ix: IndexValue, cfg: Config, d: Decl)
    requires d.kind.FunctionDecl? && NothingClaimed(ix)
    ensures NothingClaimed(Step(ix, cfg, d))
    ensures Step(Step(ix, cfg, d), cfg, d).functions.entries == Step(ix, cfg, d).functions.entries
  {
  }

  /** The step keeps every table keyed by its symbols' IDs. */
  lemma StepWellKeyed(ix: IndexValue, cfg: Config, d: Decl)
    requires d.kind.FunctionDecl? && NothingClaimed(ix) && WellKeyed(ix)
    ensures WellKeyed(Step(ix, cfg, d)) && NothingClaimed(Step(ix, cfg, d))
  {
  }

  /** Constructors and destructors get no return type and lose the `<...>` span of their
      name; other functions get the printed return type and its symbol ID. */
  lemma SymbolReturnTypeAndName(d: Decl, fn: FunctionFacts)
    ensures fn.isCtorOrDtor ==> Symbol(d, fn).returnType == DefaultTypeRef
    ensures !fn.isCtorOrDtor ==>
              Symbol(d, fn).returnType == TypeRef(TypeSymbolID(fn.returnType), fn.returnTypeName)
              && Symbol(d, fn).name == d.name
  {
  }

  /** A specialized constructor's name `S<int>` keeps only what lies outside the span from
      its first `<` to its last `>`. */
  lemma CtorNameStripped(d: Decl, fn: FunctionFacts, i: nat, j: nat)
    requires fn.isCtorOrDtor && SingleLine(d.name)
    requires i < j < |d.name| && d.name[i] == '<' && d.name[j] == '>'
    requires forall k :: 0 <= k < i ==> d.name[k] != '<'
    requires forall k :: j < k < |d.name| ==> d.name[k] != '>'
    ensures Symbol(d, fn).name == d.name[..i] + d.name[j + 1..]
  {
    ReplaceAngleSpansGreedy(d.name, "", i, j);
  }

  /** Every parameter keeps its name and order, and its type carries the type's symbol ID. */
  lemma SymbolParams(d: Decl, fn: FunctionFacts)
    ensures |Symbol(d, fn).params| == |fn.params|
    ensures forall i :: 0 <= i < |fn.params| ==>
              && Symbol(d, fn).params[i].name == fn.params[i].name
              && Symbol(d, fn).params[i].paramType == TypeRef(TypeSymbolID(fn.params[i].paramType), fn.params[i].typeName)
  {
  }
}
