/** The declarative side of the matchers: the `shouldBeIgnored` predicate and the node
    pattern each matcher's `getMatcher()` registers. */
module MatcherFilters {
  import opened Util
  import opened Strings
  import opened Decls
  import opened MatcherUtils

  /** Some element of `ignorePaths` occurs in the root-relative file name. */
  predicate PathIgnored(ignorePaths: seq<string>, file: string) {
    exists j :: 0 <= j < |ignorePaths| && IsSubstring(ignorePaths[j], file)
  }

  /** `shouldBeIgnored(cfg)`. The path list is consulted first; without paths nothing is
      ignored, not even a declaration in an ignored namespace. */
  predicate ShouldBeIgnored(cfg: Config, d: Decl) {
    if |cfg.ignorePaths| == 0 then false
    else if !d.location.expansionValid then false
    else match d.location.relativeFile
      case None => false
      case Some(file) =>
        if PathIgnored(cfg.ignorePaths, file) then true
        else EnclosingNamespaceInList(d.contexts, cfg.ignoreNamespaces)
  }

  /** The reasons `shouldBeIgnored` holds, stated without its early returns. */
  lemma ShouldBeIgnoredCases(cfg: Config, d: Decl)
    ensures ShouldBeIgnored(cfg, d) <==>
              && |cfg.ignorePaths| > 0
              && d.location.expansionValid
              && d.location.relativeFile.Some?
              && (PathIgnored(cfg.ignorePaths, d.location.relativeFile.value)
                  || EnclosingNamespaceInList(d.contexts, cfg.ignoreNamespaces))
  {
  }

  /** With no ignore paths the namespace list is never read. */
  lemma ShouldBeIgnoredNeedsPaths(cfg: Config, d: Decl, namespaces: seq<string>)
    requires |cfg.ignorePaths| == 0
    ensures !ShouldBeIgnored(cfg, d) && !ShouldBeIgnored(cfg.(ignoreNamespaces := namespaces), d)
  {
  }

  /** The exclusions the record and function matchers share. */
  predicate ExcludedByRecordOrFunctionMatcher(cfg: Config, d: Decl) {
    || HasAnonymousNamespaceAncestor(d) || d.isImplicit || d.inSystemHeader
    || d.isTemplateInstantiation || d.isInstantiated || ShouldBeIgnored(cfg, d)
  }

  /** `RecordMatcher::getMatcher()`: record definitions not excluded. */
  predicate RecordMatcherAdmits(cfg: Config, d: Decl) {
    d.kind.RecordDecl? && d.isDefinition && !ExcludedByRecordOrFunctionMatcher(cfg, d)
  }

  /** `FunctionMatcher::getMatcher()`: function declarations not excluded. */
  predicate FunctionMatcherAdmits(cfg: Config, d: Decl) {
    d.kind.FunctionDecl? && !ExcludedByRecordOrFunctionMatcher(cfg, d)
  }

  /** `UsingMatcher::getMatcher()`: any named declaration, but `isTemplateInstantiation`
      is not among its exclusions. */
  predicate UsingMatcherAdmits(cfg: Config, d: Decl) {
    !(|| HasAnonymousNamespaceAncestor(d) || d.isImplicit || d.inSystemHeader
      || d.isInstantiated || ShouldBeIgnored(cfg, d))
  }

  /** `EnumMatcher::getMatcher()`: enum definitions; no instantiation exclusion. */
  predicate EnumMatcherAdmits(cfg: Config, d: Decl) {
    d.kind.EnumDecl? && d.isDefinition
    && !(HasAnonymousNamespaceAncestor(d) || d.inSystemHeader || d.isImplicit || ShouldBeIgnored(cfg, d))
  }

  /** `NamespaceMatcher::getMatcher()`: namespaces; no definition requirement. */
  predicate NamespaceMatcherAdmits(cfg: Config, d: Decl) {
    d.kind.NamespaceDecl?
    && !(HasAnonymousNamespaceAncestor(d) || d.inSystemHeader || d.isImplicit || ShouldBeIgnored(cfg, d))
  }

  /** Every exclusion shuts out records and functions alike. */
  lemma RecordAndFunctionExclusions(cfg: Config, d: Decl)
    requires ExcludedByRecordOrFunctionMatcher(cfg, d)
    ensures !RecordMatcherAdmits(cfg, d) && !FunctionMatcherAdmits(cfg, d)
  {
  }

  /** Every matcher rejects declarations under an anonymous namespace, implicit ones, ones
      in system headers and ignored ones. */
  lemma CommonExclusions(cfg: Config, d: Decl)
    requires HasAnonymousNamespaceAncestor(d) || d.isImplicit || d.inSystemHeader || ShouldBeIgnored(cfg, d)
    ensures !RecordMatcherAdmits(cfg, d) && !FunctionMatcherAdmits(cfg, d) && !UsingMatcherAdmits(cfg, d)
    ensures !EnumMatcherAdmits(cfg, d) && !NamespaceMatcherAdmits(cfg, d)
  {
  }

  /** The using matcher does not look at `isTemplateInstantiation`. */
  lemma UsingMatcherIgnoresTemplateInstantiation(cfg: Config, d: Decl, b: bool)
    ensures UsingMatcherAdmits(cfg, d.(isTemplateInstantiation := b)) == UsingMatcherAdmits(cfg, d)
  {
    assert HasAnonymousNamespaceAncestor(d.(isTemplateInstantiation := b)) == HasAnonymousNamespaceAncestor(d);
    assert ShouldBeIgnored(cfg, d.(isTemplateInstantiation := b)) == ShouldBeIgnored(cfg, d);
  }

  /** The enum matcher looks at neither instantiation flag. */
  lemma EnumMatcherIgnoresInstantiation(cfg: Config, d: Decl, b: bool, c: bool)
    ensures EnumMatcherAdmits(cfg, d.(isTemplateInstantiation := b, isInstantiated := c)) == EnumMatcherAdmits(cfg, d)
  {
    var e := d.(isTemplateInstantiation := b, isInstantiated := c);
    assert HasAnonymousNamespaceAncestor(e) == HasAnonymousNamespaceAncestor(d);
    assert ShouldBeIgnored(cfg, e) == ShouldBeIgnored(cfg, d);
  }

  /** The namespace matcher looks at neither instantiation flag nor at definitions. */
  lemma NamespaceMatcherIgnoresDefinition(cfg: Config, d: Decl, a: bool, b: bool, c: bool)
    ensures NamespaceMatcherAdmits(cfg, d.(isDefinition := a, isTemplateInstantiation := b, isInstantiated := c))
         == NamespaceMatcherAdmits(cfg, d)
  {
    var e := d.(isDefinition := a, isTemplateInstantiation := b, isInstantiated := c);
    assert HasAnonymousNamespaceAncestor(e) == HasAnonymousNamespaceAncestor(d);
    assert ShouldBeIgnored(cfg, e) == ShouldBeIgnored(cfg, d);
  }
}
