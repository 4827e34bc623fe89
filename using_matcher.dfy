/** `UsingMatcher::run`: which declarations count as aliases, the filters, the counter,
    the at-most-once insertion and the alias target. */
module UsingMatcher {
  import opened Util
  import opened Symbols
  import opened Databases
  import opened Decls
  import opened MatcherUtils

  /** Only using declarations, using-shadows and type aliases are of interest. */
  predicate IsAlias(d: Decl) {
    d.kind.UsingDecl? || d.kind.UsingShadowDecl? || d.kind.TypeAliasDecl?
  }

  /** Non-aliases and aliases local to a function leave before the counter is touched. */
  predicate Counted(d: Decl) {
    IsAlias(d) && !InFunctionScope(d)
  }

  /** Why a counted alias is not stored: ignore-listed, no valid range, or hidden as private. */
  predicate Rejected(cfg: Config, d: Decl) {
    d.inIgnoreList || !d.sourceRangeValid || HiddenPrivate(cfg, d.access)
  }

  /** The last shadow's target: the loop overwrites the target for each shadow. */
  function LastShadow(shadows: seq<TargetDecl>): TypeRef {
    if |shadows| == 0 then DefaultTypeRef
    else TypeRef(shadows[|shadows| - 1].id, shadows[|shadows| - 1].qualifiedName)
  }

  function Target(d: Decl): TypeRef {
    match d.kind
    case UsingDecl(shadows) => LastShadow(shadows)
    case UsingShadowDecl(t) => TypeRef(t.id, t.qualifiedName)
    case TypeAliasDecl(underlying, printed) => TypeRef(TypeSymbolID(underlying), printed)
    case _ => DefaultTypeRef
  }

  /** Only record members carry their access; the others keep the default. */
  function Symbol(d: Decl): AliasSymbol {
    AliasSymbol(d.id, d.name, d.docComment, d.parentNamespaceID, d.isCXXClassMember,
                if d.isCXXClassMember then d.access else NoAccess, Target(d))
  }

  /** The index after `run` sees declaration `d`. */
  function Step(ix: IndexValue, cfg: Config, d: Decl): IndexValue
    requires NothingClaimed(ix)
  {
    if !Counted(d) then ix
    else
      var counted := ix.(aliases := ix.aliases.CountMatch());
      if Rejected(cfg, d) then counted
      else counted.(aliases := Commit(counted.aliases, d.id, Symbol(d)))
  }

  /** The loop over `shadows()`. */
  method ShadowTarget(shadows: seq<TargetDecl>) returns (target: TypeRef)
    ensures target == LastShadow(shadows)
  {
    target := DefaultTypeRef;
    for i := 0 to |shadows|
      invariant target == LastShadow(shadows[..i])
    {
      target := target.(id := shadows[i].id);
      target := target.(name := shadows[i].qualifiedName);
    }
    assert shadows[..|shadows|] == shadows;
  }

  /** `UsingMatcher::run` on a named declaration. */
  method Run(index: Index, cfg: Config, d: Decl)
    requires index.Valid()
    modifies index
    ensures index.Valid()
    ensures index.Value() == Step(old(index.Value()), cfg, d)
  {
    if !d.kind.UsingDecl? && !d.kind.UsingShadowDecl? && !d.kind.TypeAliasDecl? {
      return;
    }
    if |d.contexts| > 0 && d.contexts[0].FunctionContext? {
      return;
    }
    index.aliases := index.aliases.CountMatch();
    if d.inIgnoreList || !d.sourceRangeValid || (d.access == Private && cfg.ignorePrivateMembers) {
      return;
    }
    var ID := d.id;
    if index.aliases.Contains(ID) {
      return;
    }
    index.aliases := index.aliases.Reserve(ID);
    var a := AliasSymbol(ID, d.name, d.docComment, EmptyID, false, NoAccess, DefaultTypeRef);
    a := a.(isRecordMember := d.isCXXClassMember);
    if a.isRecordMember {
      a := a.(access := d.access);
    }
    match d.kind {
      case UsingDecl(shadows) =>
        var target := ShadowTarget(shadows);
        a := a.(target := target);
      case UsingShadowDecl(t) =>
        a := a.(target := TypeRef(t.id, t.qualifiedName));
      case TypeAliasDecl(underlying, printed) =>
        a := a.(target := TypeRef(TypeSymbolID(underlying), printed));
    }
    a := a.(parentNamespaceID := d.parentNamespaceID);
    index.aliases := index.aliases.Update(a.ID, a);
    assert a == Symbol(d);
  }

  // ---------------------------------------------------------------- properties

  /** Non-aliases and function-local aliases touch nothing, not even the counter; every
      other declaration bumps the alias counter once, and only the aliases table changes. */
  lemma StepCounter(ix: IndexValue, cfg: Config, d: Decl)
    requires NothingClaimed(ix)
    ensures var r := Step(ix, cfg, d);
            && r == ix.(aliases := r.aliases)
            && r.aliases.numMatches == ix.aliases.numMatches + (if Counted(d) then 1 else 0)
            && r.aliases.claimed == {}
    ensures InFunctionScope(d) ==> Step(ix, cfg, d) == ix
  {
  }

  /** A rejected alias, or one whose ID is already present, leaves the entries as they
      were; otherwise exactly one entry is added, under its own ID. */
  lemma StepEntries(ix: IndexValue, cfg: Config, d: Decl)
    requires NothingClaimed(ix)
    ensures var r := Step(ix, cfg, d).aliases.entries;
            if !Counted(d) || Rejected(cfg, d) || d.id in ix.aliases.entries
            then r == ix.aliases.entries
            else r == ix.aliases.entries[d.id := Symbol(d)] && r[d.id].ID == d.id
  {
  }

  /** Seeing the same declaration again changes no entry. */
  lemma StepIdempotent(ix: IndexValue, cfg: Config, d: Decl)
    requires NothingClaimed(ix)
    ensures NothingClaimed(Step(ix, cfg, d))
    ensures Step(Step(ix, cfg, d), cfg, d).aliases.entries == Step(ix, cfg, d).aliases.entries
  {
  }

  lemma StepWellKeyed(ix: IndexValue, cfg: Config, d: Decl)
    requires NothingClaimed(ix) && WellKeyed(ix)
    ensures WellKeyed(Step(ix, cfg, d)) && NothingClaimed(Step(ix, cfg, d))
  {
  }

  /** A using declaration targets its last shadow, and the default without shadows. */
  lemma UsingTargetsLastShadow(d: Decl)
    requires d.kind.UsingDecl?
    ensures |d.kind.shadows| == 0 ==> Symbol(d).target == DefaultTypeRef
    ensures |d.kind.shadows| > 0 ==>
              Symbol(d).target.id == d.kind.shadows[|d.kind.shadows| - 1].id
              && Symbol(d).target.name == d.kind.shadows[|d.kind.shadows| - 1].qualifiedName
  {
  }

  /** A type alias targets its underlying type, by the pointer/reference-stripping rule. */
  lemma TypeAliasTarget(d: Decl)
    requires d.kind.TypeAliasDecl?
    ensures Symbol(d).target.name == d.kind.printed
    ensures Symbol(d).target.id == TypeSymbolID(d.kind.underlying)
  {
  }

  /** Access is recorded only for record members. */
  lemma AliasAccess(d: Decl)
    ensures Symbol(d).isRecordMember == d.isCXXClassMember
    ensures !d.isCXXClassMember ==> Symbol(d).access == NoAccess
    ensures d.isCXXClassMember ==> Symbol(d).access == d.access
  {
  }
}
