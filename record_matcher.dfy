/** `RecordMatcher::run`: the filters, the counter, the at-most-once insertion and the
    construction of the `RecordSymbol` (its name, members, bases, template parameters
    and member variables). */
module RecordMatcher {
  import opened Util
  import opened Strings
  import opened Symbols
  import opened Databases
  import opened Decls
  import opened MatcherUtils

  // ---------------------------------------------------------------- filters and name

  /** The name found through a C-style `typedef struct { ... } Name;`, for an unnamed record. */
  function CachedName(d: Decl, rec: RecordFacts): string {
    if d.name == "" && rec.typedefName.Some? then rec.typedefName.value else ""
  }

  /** Why `run` returns after counting and before reserving: not a complete definition,
      no valid range, ignore-listed, in an anonymous namespace, unnamed without a typedef
      name, or a compiler-injected specialization without written arguments. */
  predicate Discarded(d: Decl, rec: RecordFacts) {
    || !rec.isCompleteDefinition || !d.sourceRangeValid || d.inIgnoreList || d.inAnonymousNamespace
    || (d.name == "" && CachedName(d, rec) == "")
    || (rec.specialization.Some? && !rec.specialization.value.typeAsWritten)
  }

  /** The name `fillOutSymbol` copies, or the cached typedef name when that is empty. */
  function OwnName(d: Decl, rec: RecordFacts): string {
    if d.name == "" then CachedName(d, rec) else d.name
  }

  /** Records nested in a record are qualified by the parent's name. */
  function NestedName(d: Decl, rec: RecordFacts): string {
    match ParentRecordName(d)
    case Some(parent) => parent + "::" + OwnName(d, rec)
    case None => OwnName(d, rec)
  }

  /** The display name: a specialization appends its template arguments. */
  function DisplayName(d: Decl, rec: RecordFacts): string {
    match rec.specialization
    case Some(spec) =>
      NestedName(d, rec) + "<" + Join(TemplateArgNames(spec.args, RecordTemplateParams(rec.templateParams)), ", ") + ">"
    case None => NestedName(d, rec)
  }

  // ---------------------------------------------------------------- members

  /** Member declarations the member loops skip: implicit, ignore-listed, in an
      anonymous namespace or hidden as private. */
  predicate SkippedMember(cfg: Config, m: MemberDecl) {
    m.isImplicit || m.inIgnoreList || m.inAnonymousNamespace || HiddenPrivate(cfg, m.access)
  }

  /** The `methods()` loop: the canonical declaration's ID of each kept method. */
  function MethodEntry(cfg: Config): MemberDecl -> Option<SymbolID> {
    (m: MemberDecl) => if SkippedMember(cfg, m) then None else Some(m.id)
  }

  /** The `decls()` loop, function templates. */
  function TemplateMethodEntry(cfg: Config): MemberDecl -> Option<SymbolID> {
    (m: MemberDecl) => if m.kind.FunctionTemplateMember? && !SkippedMember(cfg, m) then Some(m.id) else None
  }

  /** The `decls()` loop, using-shadows, using declarations and type aliases. */
  function AliasEntry(cfg: Config): MemberDecl -> Option<SymbolID> {
    (m: MemberDecl) => if m.kind.AliasMember? && !SkippedMember(cfg, m) then Some(m.id) else None
  }

  function MethodIDs(cfg: Config, rec: RecordFacts): seq<SymbolID> {
    FilterMap(rec.methods, MethodEntry(cfg)) + FilterMap(rec.decls, TemplateMethodEntry(cfg))
  }

  function AliasIDs(cfg: Config, rec: RecordFacts): seq<SymbolID> {
    FilterMap(rec.decls, AliasEntry(cfg))
  }

  /** A base whose type is a C++ record; one in namespace `std` is displayed `std::Name`. */
  function BaseEntry(b: BaseSpec): Option<BaseRecord> {
    match b.record
    case None => None
    case Some(r) => Some(BaseRecord(r.id, b.access, if r.isInStdNamespace then "std::" + r.name else r.name))
  }

  /** Bases are read only when this declaration is the definition. */
  function Bases(rec: RecordFacts): seq<BaseRecord> {
    if rec.isThisDeclarationADefinition then FilterMap(rec.bases, BaseEntry) else []
  }

  /** One entry of the described-template-parameter loop. */
  function RecordTemplateParam(p: TemplateParamDecl): (r: TemplateParam)
    ensures r.isParameterPack == p.isParameterPack && r.name == p.name
  {
    match p
    case TypeParamDecl(name, pack, typename, def) =>
      DefaultTemplateParam.(templateType := TemplateTypeParameter, isTypename := typename,
                            isParameterPack := pack, name := name, defaultValue := DefaultOr(def))
    case NonTypeParamDecl(name, typeName, pack, def) =>
      DefaultTemplateParam.(templateType := NonTypeTemplate, valueType := typeName,
                            isParameterPack := pack, name := name, defaultValue := DefaultOr(def))
    case TemplateTemplateParamDecl(name, sourceText, pack) =>
      DefaultTemplateParam.(templateType := TemplateTemplateType, valueType := sourceText,
                            name := name, isParameterPack := pack)
  }

  /** The template template case as the source writes it: `isParameterPack` receives
      `pack ? "..." : ""`, and both string literals convert to `true`. */
  function RecordTemplateParamAsWritten(p: TemplateParamDecl): TemplateParam {
    match p
    case TemplateTemplateParamDecl(name, sourceText, pack) =>
      DefaultTemplateParam.(templateType := TemplateTemplateType, valueType := sourceText,
                            name := name, isParameterPack := true)
    case _ => RecordTemplateParam(p)
  }

  /** As written, a template template parameter that is not a pack is recorded as one. */
  lemma TemplateTemplatePackAsWritten(name: string, sourceText: string)
    ensures RecordTemplateParamAsWritten(TemplateTemplateParamDecl(name, sourceText, false)).isParameterPack
  {
  }

  /** After the correction every kind of parameter keeps its pack flag, and the two
      definitions agree on everything else. */
  lemma RecordTemplateParamCorrected(p: TemplateParamDecl)
    ensures RecordTemplateParam(p).isParameterPack == p.isParameterPack
    ensures RecordTemplateParamAsWritten(p) == RecordTemplateParam(p).(isParameterPack := RecordTemplateParamAsWritten(p).isParameterPack)
  {
  }

  function RecordTemplateParams(tps: Option<seq<TemplateParamDecl>>): (r: seq<TemplateParam>)
    ensures tps.None? ==> r == []
    ensures tps.Some? ==> |r| == |tps.value|
  {
    if tps.None? then []
    else seq(|tps.value|, i requires 0 <= i < |tps.value| => RecordTemplateParam(tps.value[i]))
  }

  /** The comment of a member variable: each paragraph overwrites the previous one. */
  function LastParagraph(ps: seq<string>): string {
    if |ps| == 0 then "" else ps[|ps| - 1]
  }

  /** `isAnonRecordMemberVar`: clang's synthesized name for an unnamed record type. */
  predicate AnonymousTypeName(v: VarDecl) {
    IsSubstring("anonymous ", v.typeName)
  }

  const AnonymousRecordRef := TypeRef(EmptyID, "anonymous struct/union")

  /** The `fields()` loop: non-static data members that are not hidden as private. */
  function FieldEntry(cfg: Config): VarDecl -> Option<MemberVariable> {
    (v: VarDecl) => if HiddenPrivate(cfg, v.access) then None
         else Some(MemberVariable(
           false, v.name,
           if v.isAnonymousStructOrUnion || AnonymousTypeName(v) then AnonymousRecordRef
           else TypeRef(TypeSymbolID(v.varType), v.typeName),
           DefaultOr(v.initializer), v.access, LastParagraph(v.paragraphs)))
  }

  /** The second `decls()` loop: static data members that are not hidden as private. */
  function StaticEntry(cfg: Config): MemberDecl -> Option<MemberVariable> {
    (m: MemberDecl) => if !m.kind.VarMember? || HiddenPrivate(cfg, m.kind.v.access) then None
         else
           var v := m.kind.v;
           Some(MemberVariable(
             true, v.name,
             if AnonymousTypeName(v) then AnonymousRecordRef else TypeRef(TypeSymbolID(v.varType), v.typeName),
             DefaultOr(v.initializer), v.access, LastParagraph(v.paragraphs)))
  }

  function Vars(cfg: Config, rec: RecordFacts): seq<MemberVariable> {
    FilterMap(rec.fields, FieldEntry(cfg)) + FilterMap(rec.decls, StaticEntry(cfg))
  }

  /** The symbol `run` builds for `d`. */
  function Symbol(cfg: Config, d: Decl, rec: RecordFacts): RecordSymbol {
    RecordSymbol(
      ID := d.id, name := DisplayName(d, rec), docComment := d.docComment,
      parentNamespaceID := d.parentNamespaceID, kind := rec.kindName, proto := rec.proto,
      methodIDs := MethodIDs(cfg, rec), aliasIDs := AliasIDs(cfg, rec), baseRecords := Bases(rec),
      templateParams := RecordTemplateParams(rec.templateParams), vars := Vars(cfg, rec))
  }

  /** The index after `run` sees record declaration `d`. */
  function Step(ix: IndexValue, cfg: Config, d: Decl): IndexValue
    requires d.kind.RecordDecl? && NothingClaimed(ix)
  {
    var rec := d.kind.rec;
    var counted := ix.(records := ix.records.CountMatch());
    if Discarded(d, rec) then counted
    else counted.(records := Commit(counted.records, d.id, Symbol(cfg, d, rec)))
  }

  // ---------------------------------------------------------------- the loops of run

  /** The `methods()` loop and the first `decls()` loop. */
  method CollectMembers(cfg: Config, rec: RecordFacts) returns (methodIDs: seq<SymbolID>, aliasIDs: seq<SymbolID>)
    ensures methodIDs == MethodIDs(cfg, rec) && aliasIDs == AliasIDs(cfg, rec)
  {
    methodIDs := [];
    for i := 0 to |rec.methods|
      invariant methodIDs == FilterMap(rec.methods[..i], MethodEntry(cfg))
    {
      FilterMapSnoc(rec.methods, i, MethodEntry(cfg));
      var m := rec.methods[i];
      if m.isImplicit || m.inIgnoreList || m.inAnonymousNamespace || (m.access == Private && cfg.ignorePrivateMembers) {
        continue;
      }
      methodIDs := methodIDs + [m.id];
    }
    assert rec.methods[..|rec.methods|] == rec.methods;
    ghost var fromMethods := methodIDs;
    aliasIDs := [];
    for i := 0 to |rec.decls|
      invariant methodIDs == fromMethods + FilterMap(rec.decls[..i], TemplateMethodEntry(cfg))
      invariant aliasIDs == FilterMap(rec.decls[..i], AliasEntry(cfg))
    {
      FilterMapSnoc(rec.decls, i, TemplateMethodEntry(cfg));
      FilterMapSnoc(rec.decls, i, AliasEntry(cfg));
      var d := rec.decls[i];
      if d.kind.FunctionTemplateMember? {
        if d.isImplicit || d.inIgnoreList || d.inAnonymousNamespace || (d.access == Private && cfg.ignorePrivateMembers) {
          continue;
        }
        methodIDs := methodIDs + [d.id];
      } else {
        if !d.kind.AliasMember? || d.isImplicit || d.inIgnoreList || d.inAnonymousNamespace
           || (d.access == Private && cfg.ignorePrivateMembers) {
          continue;
        }
        aliasIDs := aliasIDs + [d.id];
      }
    }
    assert rec.decls[..|rec.decls|] == rec.decls;
  }

  /** The loop over `bases()`. */
  method CollectBases(rec: RecordFacts) returns (bases: seq<BaseRecord>)
    ensures bases == Bases(rec)
  {
    bases := [];
    if rec.isThisDeclarationADefinition {
      for i := 0 to |rec.bases|
        invariant bases == FilterMap(rec.bases[..i], BaseEntry)
      {
        FilterMapSnoc(rec.bases, i, BaseEntry);
        var base := rec.bases[i];
        if base.record.Some? {
          var baseRecord := base.record.value;
          if baseRecord.isInStdNamespace {
            bases := bases + [BaseRecord(baseRecord.id, base.access, "std::" + baseRecord.name)];
          } else {
            bases := bases + [BaseRecord(baseRecord.id, base.access, baseRecord.name)];
          }
        }
      }
      assert rec.bases[..|rec.bases|] == rec.bases;
    }
  }

  /** The loop over the described template parameters. */
  method BuildTemplateParams(tps: Option<seq<TemplateParamDecl>>) returns (r: seq<TemplateParam>)
    ensures r == RecordTemplateParams(tps)
  {
    r := [];
    if tps.Some? {
      var ps := tps.value;
      for i := 0 to |ps|
        invariant r == seq(i, k requires 0 <= k < i => RecordTemplateParam(ps[k]))
      {
        r := r + [RecordTemplateParam(ps[i])];
      }
    }
  }

  /** The paragraph loop of a member variable's comment. */
  method CommentOf(paragraphs: seq<string>) returns (doc: string)
    ensures doc == LastParagraph(paragraphs)
  {
    doc := "";
    for i := 0 to |paragraphs|
      invariant doc == LastParagraph(paragraphs[..i])
    {
      doc := paragraphs[i];
    }
    assert paragraphs[..|paragraphs|] == paragraphs;
  }

  /** The `fields()` loop. */
  method CollectFields(cfg: Config, rec: RecordFacts) returns (vars: seq<MemberVariable>)
    ensures vars == FilterMap(rec.fields, FieldEntry(cfg))
  {
    vars := [];
    for i := 0 to |rec.fields|
      invariant vars == FilterMap(rec.fields[..i], FieldEntry(cfg))
    {
      FilterMapSnoc(rec.fields, i, FieldEntry(cfg));
      var field := rec.fields[i];
      if field.access == Private && cfg.ignorePrivateMembers {
        continue;
      }
      var mv := MemberVariable(false, field.name, DefaultTypeRef, DefaultOr(field.initializer), field.access, "");
      if field.isAnonymousStructOrUnion || IsSubstring("anonymous ", field.typeName) {
        mv := mv.(varType := mv.varType.(name := "anonymous struct/union"));
      } else {
        mv := mv.(varType := TypeRef(TypeSymbolID(field.varType), field.typeName));
      }
      var doc := CommentOf(field.paragraphs);
      mv := mv.(docComment := doc);
      vars := vars + [mv];
    }
    assert rec.fields[..|rec.fields|] == rec.fields;
  }

  /** The static-member loop over `decls()`. */
  method CollectStatics(cfg: Config, rec: RecordFacts) returns (vars: seq<MemberVariable>)
    ensures vars == FilterMap(rec.decls, StaticEntry(cfg))
  {
    vars := [];
    for i := 0 to |rec.decls|
      invariant vars == FilterMap(rec.decls[..i], StaticEntry(cfg))
    {
      FilterMapSnoc(rec.decls, i, StaticEntry(cfg));
      var d := rec.decls[i];
      if d.kind.VarMember? {
        var vd := d.kind.v;
        if vd.access == Private && cfg.ignorePrivateMembers {
          continue;
        }
        var mv := MemberVariable(true, vd.name, DefaultTypeRef, DefaultOr(vd.initializer), vd.access, "");
        if IsSubstring("anonymous ", vd.typeName) {
          mv := mv.(varType := mv.varType.(name := "anonymous struct/union"));
        } else {
          mv := mv.(varType := TypeRef(TypeSymbolID(vd.varType), vd.typeName));
        }
        var doc := CommentOf(vd.paragraphs);
        mv := mv.(docComment := doc);
        vars := vars + [mv];
      }
    }
    assert rec.decls[..|rec.decls|] == rec.decls;
  }

  /** Both loops in order: fields first, then static data members. */
  method CollectVars(cfg: Config, rec: RecordFacts) returns (vars: seq<MemberVariable>)
    ensures vars == Vars(cfg, rec)
  {
    var fields := CollectFields(cfg, rec);
    var statics := CollectStatics(cfg, rec);
    vars := fields + statics;
  }

  /** `RecordMatcher::run` on a record declaration. */
  method Run(index: Index, cfg: Config, d: Decl)
    requires index.Valid() && d.kind.RecordDecl?
    modifies index
    ensures index.Valid()
    ensures index.Value() == Step(old(index.Value()), cfg, d)
  {
    var res := d.kind.rec;
    index.records := index.records.CountMatch();
    if !res.isCompleteDefinition || !d.sourceRangeValid || d.inIgnoreList || d.inAnonymousNamespace {
      return;
    }
    var cachedName := "";
    if d.name == "" {
      if res.typedefName.Some? {
        cachedName := res.typedefName.value;
      }
      if cachedName == "" {
        return;
      }
    }
    if res.specialization.Some? && !res.specialization.value.typeAsWritten {
      return;
    }
    var ID := d.id;
    if index.records.Contains(ID) {
      return;
    }
    index.records := index.records.Reserve(ID);
    var c := FillOut(cfg, d, cachedName);
    index.records := index.records.Update(c.ID, c);
  }

  /** The part of `run` between `reserve` and `update` that fills out the record symbol. */
  method FillOut(cfg: Config, d: Decl, cachedName: string) returns (c: RecordSymbol)
    requires d.kind.RecordDecl? && cachedName == CachedName(d, d.kind.rec)
    ensures c == Symbol(cfg, d, d.kind.rec)
  {
    var res := d.kind.rec;
    c := RecordSymbol(d.id, d.name, d.docComment, EmptyID, "", "", [], [], [], [], []);
    if c.name == "" {
      c := c.(name := cachedName);
    }
    if |d.contexts| > 0 && d.contexts[0].RecordContext? {
      c := c.(name := d.contexts[0].name + "::" + c.name);
    }
    var methodIDs, aliasIDs := CollectMembers(cfg, res);
    c := c.(methodIDs := methodIDs, aliasIDs := aliasIDs);
    var bases := CollectBases(res);
    c := c.(baseRecords := bases);
    c := c.(kind := res.kindName);
    var templateParams := BuildTemplateParams(res.templateParams);
    c := c.(templateParams := templateParams);
    if res.specialization.Some? {
      var args := TemplateArgsToStrings(res.specialization.value.args, c);
      c := c.(name := c.name + "<" + Join(args, ", ") + ">");
    }
    c := c.(proto := res.proto);
    var vars := CollectVars(cfg, res);
    c := c.(vars := vars);
    c := c.(parentNamespaceID := d.parentNamespaceID);
  }

  // ---------------------------------------------------------------- properties

  /** Every record declaration is counted; only the records table changes. */
  lemma StepCounter(ix: IndexValue, cfg: Config, d: Decl)
    requires d.kind.RecordDecl? && NothingClaimed(ix)
    ensures var r := Step(ix, cfg, d);
            && r == ix.(records := r.records)
            && r.records.numMatches == ix.records.numMatches + 1
            && r.records.claimed == {}
  {
  }

  /** A discarded declaration, or one whose ID is already present, leaves the entries as
      they were; otherwise exactly one entry is added, under its own ID. */
  lemma StepEntries(ix: IndexValue, cfg: Config, d: Decl)
    requires d.kind.RecordDecl? && NothingClaimed(ix)
    ensures var r := Step(ix, cfg, d).records.entries;
            if Discarded(d, d.kind.rec) || d.id in ix.records.entries
            then r == ix.records.entries
            else r == ix.records.entries[d.id := Symbol(cfg, d, d.kind.rec)] && r[d.id].ID == d.id
  {
  }

  /** Seeing the same declaration again changes no entry. */
  lemma StepIdempotent(ix: IndexValue, cfg: Config, d: Decl)
    requires d.kind.RecordDecl? && NothingClaimed(ix)
    ensures NothingClaimed(Step(ix, cfg, d))
    ensures Step(Step(ix, cfg, d), cfg, d).records.entries == Step(ix, cfg, d).records.entries
  {
  }

  /** The step keeps every table keyed by its symbols' IDs. */
  lemma StepWellKeyed(ix: IndexValue, cfg: Config, d: Decl)
    requires d.kind.RecordDecl? && NothingClaimed(ix) && WellKeyed(ix)
    ensures WellKeyed(Step(ix, cfg, d)) && NothingClaimed(Step(ix, cfg, d))
  {
  }

  /** An unnamed record with no typedef name is never indexed. */
  lemma UnnamedWithoutTypedefDiscarded(ix: IndexValue, cfg: Config, d: Decl)
    requires d.kind.RecordDecl? && NothingClaimed(ix)
    requires d.name == "" && (d.kind.rec.typedefName.None? || d.kind.rec.typedefName == Some(""))
    ensures Step(ix, cfg, d).records.entries == ix.records.entries
  {
  }

  /** An unnamed record adopts its typedef name, qualified by an enclosing record. */
  lemma TypedefNameAdopted(cfg: Config, d: Decl, rec: RecordFacts, t: string)
    requires d.name == "" && rec.typedefName == Some(t) && rec.specialization.None?
    ensures ParentRecordName(d).None? ==> Symbol(cfg, d, rec).name == t
    ensures ParentRecordName(d).Some? ==> Symbol(cfg, d, rec).name == ParentRecordName(d).value + "::" + t
  {
  }

  /** A record nested in a record is named `Parent::...`. */
  lemma NestedPrefix(cfg: Config, d: Decl, rec: RecordFacts)
    requires ParentRecordName(d).Some?
    ensures StartsWith(Symbol(cfg, d, rec).name, ParentRecordName(d).value + "::")
  {
    var head := ParentRecordName(d).value + "::";
    var nested := NestedName(d, rec);
    assert nested == head + OwnName(d, rec);
    assert nested[..|head|] == head;
    if rec.specialization.Some? {
      var names := TemplateArgNames(rec.specialization.value.args, RecordTemplateParams(rec.templateParams));
      var tail := "<" + Join(names, ", ") + ">";
      assert Symbol(cfg, d, rec).name == nested + tail;
      assert (nested + tail)[..|head|] == nested[..|head|];
    }
  }

  /** A specialization's name is followed by one printed name per template argument,
      separated by `", "` and enclosed in angle brackets. */
  lemma SpecializationSuffix(cfg: Config, d: Decl, rec: RecordFacts)
    requires rec.specialization.Some?
    ensures var names := TemplateArgNames(rec.specialization.value.args, Symbol(cfg, d, rec).templateParams);
            && |names| == |rec.specialization.value.args|
            && Symbol(cfg, d, rec).name == NestedName(d, rec) + "<" + Join(names, ", ") + ">"
  {
  }

  /** The bases are exactly the record-typed base specifiers of a definition, those in
      namespace `std` displayed with a `std::` prefix. */
  lemma {:induction false} BaseRecordsExact(cfg: Config, d: Decl, rec: RecordFacts, b: BaseRecord)
    ensures b in Symbol(cfg, d, rec).baseRecords <==>
              && rec.isThisDeclarationADefinition
              && exists k :: 0 <= k < |rec.bases| && rec.bases[k].record.Some?
                             && b == BaseRecord(rec.bases[k].record.value.id, rec.bases[k].access,
                                                if rec.bases[k].record.value.isInStdNamespace
                                                then "std::" + rec.bases[k].record.value.name
                                                else rec.bases[k].record.value.name)
  {
    FilterMapMember(rec.bases, BaseEntry, b);
  }

  /** `methodIDs` holds exactly the kept methods and member function templates. */
  lemma {:induction false} MethodIDsExact(cfg: Config, rec: RecordFacts, id: SymbolID)
    ensures id in MethodIDs(cfg, rec) <==>
              || (exists k :: 0 <= k < |rec.methods| && !SkippedMember(cfg, rec.methods[k]) && rec.methods[k].id == id)
              || (exists k :: 0 <= k < |rec.decls| && rec.decls[k].kind.FunctionTemplateMember?
                               && !SkippedMember(cfg, rec.decls[k]) && rec.decls[k].id == id)
  {
    FilterMapMember(rec.methods, MethodEntry(cfg), id);
    FilterMapMember(rec.decls, TemplateMethodEntry(cfg), id);
  }

  /** `aliasIDs` holds exactly the kept member aliases. */
  lemma {:induction false} AliasIDsExact(cfg: Config, rec: RecordFacts, id: SymbolID)
    ensures id in AliasIDs(cfg, rec) <==>
              exists k :: 0 <= k < |rec.decls| && rec.decls[k].kind.AliasMember?
                          && !SkippedMember(cfg, rec.decls[k]) && rec.decls[k].id == id
  {
    FilterMapMember(rec.decls, AliasEntry(cfg), id);
  }

  /** With `ignorePrivateMembers` set no private method, alias or variable is recorded. */
  lemma {:induction false} PrivateMembersHidden(cfg: Config, d: Decl, rec: RecordFacts)
    requires cfg.ignorePrivateMembers
    ensures forall v :: v in Symbol(cfg, d, rec).vars ==> v.access != Private
    ensures forall id :: id in Symbol(cfg, d, rec).methodIDs ==>
              (exists k :: 0 <= k < |rec.methods| && rec.methods[k].id == id && rec.methods[k].access != Private)
              || (exists k :: 0 <= k < |rec.decls| && rec.decls[k].id == id && rec.decls[k].access != Private)
  {
    forall v | v in Symbol(cfg, d, rec).vars ensures v.access != Private {
      FilterMapMember(rec.fields, FieldEntry(cfg), v);
      FilterMapMember(rec.decls, StaticEntry(cfg), v);
    }
    forall id | id in Symbol(cfg, d, rec).methodIDs
      ensures (exists k :: 0 <= k < |rec.methods| && rec.methods[k].id == id && rec.methods[k].access != Private)
              || (exists k :: 0 <= k < |rec.decls| && rec.decls[k].id == id && rec.decls[k].access != Private)
    {
      MethodIDsExact(cfg, rec, id);
    }
  }

  /** Each described template parameter gives one entry, in order, with its name and its
      pack flag. */
  lemma TemplateParamsDescribed(cfg: Config, d: Decl, rec: RecordFacts)
    requires rec.templateParams.Some?
    ensures var tps := Symbol(cfg, d, rec).templateParams;
            && |tps| == |rec.templateParams.value|
            && forall i :: 0 <= i < |tps| ==>
                 tps[i].name == rec.templateParams.value[i].name
                 && tps[i].isParameterPack == rec.templateParams.value[i].isParameterPack
  {
  }
}
