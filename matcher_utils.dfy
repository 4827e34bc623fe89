/** The helpers of `Matchers.cpp`: the ignore-namespace search along the parent chain,
    the type-to-symbol-ID rule and the naming of template arguments. */
module MatcherUtils {
  import opened Util
  import opened Strings
  import opened Symbols
  import opened Decls

  // ---------------------------------------------------------------- isEnclosingNamespaceInList

  /** A context that is a named namespace whose name contains some element of `list`. */
  predicate NamespaceInList(c: DeclContext, list: seq<string>) {
    c.NamespaceContext? && !c.isAnonymous && exists j :: 0 <= j < |list| && IsSubstring(list[j], c.name)
  }

  /** Some enclosing context of the declaration is a listed, named namespace. */
  predicate EnclosingNamespaceInList(contexts: seq<DeclContext>, list: seq<string>) {
    exists i :: 0 <= i < |contexts| && NamespaceInList(contexts[i], list)
  }

  /** `utils::isEnclosingNamespaceInList`: walk the parent chain, skipping anonymous
      namespaces and contexts that are not namespaces, and stop at the first namespace
      whose name contains a list element. */
  method IsEnclosingNamespaceInList(contexts: seq<DeclContext>, list: seq<string>) returns (r: bool)
    ensures r == EnclosingNamespaceInList(contexts, list)
  {
    var i := 0;
    while i < |contexts|
      invariant 0 <= i <= |contexts|
      invariant forall k :: 0 <= k < i ==> !NamespaceInList(contexts[k], list)
    {
      var parent := contexts[i];
      if parent.NamespaceContext? {
        if parent.isAnonymous {
          i := i + 1;
          continue;
        }
        var name := parent.name;
        for j := 0 to |list|
          invariant forall q :: 0 <= q < j ==> !IsSubstring(list[q], name)
        {
          if IsSubstring(list[j], name) {
            assert NamespaceInList(contexts[i], list);
            return true;
          }
        }
      }
      i := i + 1;
    }
    return false;
  }

  /** An empty list matches nothing. */
  lemma EnclosingNamespaceEmptyList(contexts: seq<DeclContext>)
    ensures !EnclosingNamespaceInList(contexts, [])
  {
  }

  /** Inserting an anonymous namespace, a record, a function or any other context that is
      not a named namespace anywhere in the chain changes nothing: only named namespaces
      are searched. */
  lemma EnclosingNamespaceSkips(contexts: seq<DeclContext>, list: seq<string>, i: nat, c: DeclContext)
    requires i <= |contexts|
    requires !c.NamespaceContext? || c.isAnonymous
    ensures EnclosingNamespaceInList(contexts[..i] + [c] + contexts[i..], list)
        == EnclosingNamespaceInList(contexts, list)
  {
    var longer := contexts[..i] + [c] + contexts[i..];
    if EnclosingNamespaceInList(longer, list) {
      var k :| 0 <= k < |longer| && NamespaceInList(longer[k], list);
      if k < i {
        assert longer[k] == contexts[k];
      } else {
        assert k > i;
        assert longer[k] == contexts[k - 1];
      }
    }
    if EnclosingNamespaceInList(contexts, list) {
      var k :| 0 <= k < |contexts| && NamespaceInList(contexts[k], list);
      if k < i {
        assert longer[k] == contexts[k];
      } else {
        assert longer[k + 1] == contexts[k];
      }
    }
  }

  /** A listed namespace is found at any depth. */
  lemma EnclosingNamespaceFound(contexts: seq<DeclContext>, list: seq<string>, i: nat, j: nat)
    requires i < |contexts| && j < |list|
    requires contexts[i].NamespaceContext? && !contexts[i].isAnonymous
    requires IsSubstring(list[j], contexts[i].name)
    ensures EnclosingNamespaceInList(contexts, list)
  {
  }

  // ---------------------------------------------------------------- getTypeSymbolID

  /** The tag declaration of a type, of the pointee of a pointer, or of the referee of a
      reference; nothing for anything else. */
  function TagOf(t: QualType): (r: Option<TagDecl>)
    ensures r.Some? <==> t.TagType? || (t.PointerType? && t.pointee.TagType?)
                         || (t.ReferenceType? && t.referee.TagType?)
  {
    match t
    case TagType(tag) => Some(tag)
    case PointerType(p) => if p.TagType? then Some(p.tag) else None
    case ReferenceType(r) => if r.TagType? then Some(r.tag) else None
    case OtherType => None
  }

  /** `getTypeSymbolID`: the ID of the non-specialized template when the tag specializes
      one, the tag's own ID otherwise, and the empty ID when there is no tag. */
  function TypeSymbolID(t: QualType): SymbolID {
    match TagOf(t)
    case None => EmptyID
    case Some(tag) => if tag.nonSpecializedID.Some? then tag.nonSpecializedID.value else tag.id
  }

  /** The ID a tag contributes, wherever it appears. */
  function TagSymbolID(tag: TagDecl): SymbolID {
    if tag.nonSpecializedID.Some? then tag.nonSpecializedID.value else tag.id
  }

  /** `T`, `T*` and `T&` link to the same symbol. */
  lemma TypeSymbolIDStripsPointerAndReference(tag: TagDecl)
    ensures TypeSymbolID(TagType(tag)) == TagSymbolID(tag)
    ensures TypeSymbolID(PointerType(TagType(tag))) == TagSymbolID(tag)
    ensures TypeSymbolID(ReferenceType(TagType(tag))) == TagSymbolID(tag)
  {
  }

  /** Only one level is stripped: `T**`, `T*&` and types without a tag have no symbol. */
  lemma TypeSymbolIDNoTag(t: QualType)
    ensures TypeSymbolID(PointerType(PointerType(t))) == EmptyID
    ensures TypeSymbolID(ReferenceType(PointerType(t))) == EmptyID
    ensures TypeSymbolID(OtherType) == EmptyID
  {
  }

  /** A non-empty ID always comes from a tag reached through at most one pointer or reference. */
  lemma TypeSymbolIDFromTag(t: QualType)
    requires TypeSymbolID(t) != EmptyID
    ensures TagOf(t).Some? && TypeSymbolID(t) == TagSymbolID(TagOf(t).value)
  {
  }

  // ---------------------------------------------------------------- templateArgsToStrings

  const TypeParameterPrefix := "type-parameter-"

  /** The name found for a canonical type-parameter argument before the letter fallback:
      its identifier, else its declaration's name, and if that is empty the name of the
      record's template parameter at its index; empty when all of these fail. */
  function ArgReplacement(a: TemplateArg, tps: seq<TemplateParam>): string {
    match a.typeParm
    case None => ""
    case Some(tp) =>
      var own := if tp.identifier.Some? then tp.identifier.value
                 else if tp.declName.Some? then tp.declName.value else "";
      if own == "" && tp.index < |tps| then tps[tp.index].name else own
  }

  /** The order of the search: nothing for an argument that is not a type parameter; a
      non-empty identifier wins; without an identifier, a non-empty declaration name wins;
      when neither gives a name (an empty identifier included), the record's own parameter
      at the argument's index when there is one, and nothing otherwise. */
  lemma ArgReplacementOrder(a: TemplateArg, tps: seq<TemplateParam>)
    ensures a.typeParm.None? ==> ArgReplacement(a, tps) == ""
    ensures a.typeParm.Some? && a.typeParm.value.identifier.Some? && a.typeParm.value.identifier.value != ""
            ==> ArgReplacement(a, tps) == a.typeParm.value.identifier.value
    ensures a.typeParm.Some? && a.typeParm.value.identifier.None?
            && a.typeParm.value.declName.Some? && a.typeParm.value.declName.value != ""
            ==> ArgReplacement(a, tps) == a.typeParm.value.declName.value
    ensures a.typeParm.Some? && !HasOwnName(a.typeParm.value)
            ==> ArgReplacement(a, tps)
                == if a.typeParm.value.index < |tps| then tps[a.typeParm.value.index].name else ""
  {
  }

  /** The identifier, or failing that the declaration, supplies a non-empty name. */
  predicate HasOwnName(tp: TypeParm) {
    if tp.identifier.Some? then tp.identifier.value != ""
    else tp.declName.Some? && tp.declName.value != ""
  }

  /** The argument takes a fallback letter. */
  predicate NeedsFallback(a: TemplateArg, tps: seq<TemplateParam>) {
    StartsWith(a.printed, TypeParameterPrefix) && ArgReplacement(a, tps) == ""
  }

  /** How many of `args` took a fallback letter. */
  function FallbackCount(args: seq<TemplateArg>, tps: seq<TemplateParam>): (n: nat)
    ensures n <= |args|
  {
    if |args| == 0 then 0
    else FallbackCount(args[..|args| - 1], tps) + (if NeedsFallback(args[|args| - 1], tps) then 1 else 0)
  }

  /** The positions of the arguments that take a fallback letter. */
  function FallbackPositions(args: seq<TemplateArg>, tps: seq<TemplateParam>): set<int> {
    set k | 0 <= k < |args| && NeedsFallback(args[k], tps)
  }

  /** `FallbackCount` counts exactly the arguments that take a fallback letter. */
  lemma {:induction false} FallbackCountIsCount(args: seq<TemplateArg>, tps: seq<TemplateParam>)
    ensures FallbackCount(args, tps) == |FallbackPositions(args, tps)|
    decreases |args|
  {
    if |args| > 0 {
      var n := |args| - 1;
      var front := args[..n];
      FallbackCountIsCount(front, tps);
      assert FallbackPositions(front, tps) == set k | 0 <= k < n && NeedsFallback(args[k], tps);
      if NeedsFallback(args[n], tps) {
        assert FallbackPositions(args, tps) == FallbackPositions(front, tps) + {n};
      } else {
        assert FallbackPositions(args, tps) == FallbackPositions(front, tps);
      }
    }
  }

  /** The `n`-th fallback letter: `T, U, ..., Z, A, B, ...`. */
  function FallbackLetter(n: nat): (c: char)
    ensures 'A' <= c <= 'Z'
  {
    ('A' as int + (19 + n) % 26) as char
  }

  /** The name of one argument, given how many fallback letters were used before it. */
  function ArgName(a: TemplateArg, tps: seq<TemplateParam>, used: nat): string {
    if StartsWith(a.printed, TypeParameterPrefix) then
      if ArgReplacement(a, tps) != "" then ArgReplacement(a, tps) else [FallbackLetter(used)]
    else ReplaceAngleSpans(a.printed, "<...>")
  }

  /** What `templateArgsToStrings` returns: one name per argument, in order. */
  function TemplateArgNames(args: seq<TemplateArg>, tps: seq<TemplateParam>): (r: seq<string>)
    ensures |r| == |args|
  {
    seq(|args|, i requires 0 <= i < |args| => ArgName(args[i], tps, FallbackCount(args[..i], tps)))
  }

  /** The letters cycle with period 26 and start at `T`. */
  lemma FallbackLetters(n: nat)
    ensures FallbackLetter(0) == 'T' && FallbackLetter(6) == 'Z' && FallbackLetter(7) == 'A'
    ensures FallbackLetter(n + 26) == FallbackLetter(n)
  {
  }

  /** `fallbackName++`, wrapping from after `Z` to `A`, moves to the next letter. */
  lemma FallbackLetterNext(n: nat)
    ensures var c := (FallbackLetter(n) as int + 1) as char;
            FallbackLetter(n + 1) == if c > 'Z' then 'A' else c
  {
  }

  /** One more argument counted. */
  lemma FallbackCountSnoc(args: seq<TemplateArg>, tps: seq<TemplateParam>, i: nat)
    requires i < |args|
    ensures FallbackCount(args[..i + 1], tps)
         == FallbackCount(args[..i], tps) + (if NeedsFallback(args[i], tps) then 1 else 0)
  {
    assert args[..i + 1][..i] == args[..i];
  }

  /** `templateArgsToStrings`. */
  method TemplateArgsToStrings(args: seq<TemplateArg>, record: RecordSymbol) returns (ret: seq<string>)
    ensures ret == TemplateArgNames(args, record.templateParams)
  {
    ghost var tps := record.templateParams;
    ret := [];
    var fallbackName := 'T';
    for i := 0 to |args|
      invariant ret == TemplateArgNames(args, tps)[..i]
      invariant fallbackName == FallbackLetter(FallbackCount(args[..i], tps))
    {
      FallbackCountSnoc(args, tps, i);
      ghost var used := FallbackCount(args[..i], tps);
      var arg := args[i];
      var result := arg.printed;
      var name;
      if StartsWith(result, TypeParameterPrefix) {
        var replacement := ArgReplacement(arg, record.templateParams);
        if replacement == "" {
          FallbackLetterNext(used);
          replacement := [fallbackName];
          fallbackName := (fallbackName as int + 1) as char;
          if fallbackName > 'Z' {
            fallbackName := 'A';
          }
        }
        name := replacement;
      } else {
        result := ReplaceAngleSpans(result, "<...>");
        name := result;
      }
      assert name == TemplateArgNames(args, tps)[i];
      ret := ret + [name];
      assert ret == TemplateArgNames(args, tps)[..i + 1];
    }
  }

  /** Arguments that are all unnamed type parameters beyond the record's own parameters
      are named `T`, `U`, `V`, ... in order. */
  lemma TemplateArgNamesAllFallback(args: seq<TemplateArg>, tps: seq<TemplateParam>)
    requires forall k :: 0 <= k < |args| ==> NeedsFallback(args[k], tps)
    ensures forall k :: 0 <= k < |args| ==> TemplateArgNames(args, tps)[k] == [FallbackLetter(k)]
  {
    forall k | 0 <= k < |args| ensures FallbackCount(args[..k], tps) == k {
      FallbackCountAll(args, tps, k);
    }
  }

  lemma {:induction false} FallbackCountAll(args: seq<TemplateArg>, tps: seq<TemplateParam>, k: nat)
    requires k <= |args|
    requires forall q :: 0 <= q < |args| ==> NeedsFallback(args[q], tps)
    ensures FallbackCount(args[..k], tps) == k
  {
    if k > 0 {
      FallbackCountAll(args, tps, k - 1);
      assert args[..k][..k - 1] == args[..k - 1];
    }
  }
}
