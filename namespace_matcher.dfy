/** `NamespaceMatcher::run`: the filters, the counter and the at-most-once insertion of
    a `NamespaceSymbol` whose child lists are left for the resolver pass to fill. */
module NamespaceMatcher {
  import opened Util
  import opened Symbols
  import opened Databases
  import opened Decls
  import Indexer

  /** Why `run` returns after counting: unnamed, ignore-listed or in an anonymous namespace. */
  predicate Discarded(d: Decl) {
    d.name == "" || d.inIgnoreList || d.inAnonymousNamespace
  }

  function Symbol(d: Decl): NamespaceSymbol {
    NamespaceSymbol(d.id, d.name, d.docComment, d.parentNamespaceID, [], [], [], [])
  }

  /** The index after `run` sees namespace declaration `d`. */
  function Step(ix: IndexValue, d: Decl): IndexValue
    requires d.kind.NamespaceDecl? && NothingClaimed(ix)
  {
    var counted := ix.(namespaces := ix.namespaces.CountMatch());
    if Discarded(d) then counted
    else counted.(namespaces := Commit(counted.namespaces, d.id, Symbol(d)))
  }

  /** No namespace of the table has a child yet. */
  predicate Unlinked(ns: map<SymbolID, NamespaceSymbol>) {
    forall k :: k in ns ==>
      ns[k].records == [] && ns[k].enums == [] && ns[k].namespaces == [] && ns[k].usings == []
  }

  /** `NamespaceMatcher::run` on a namespace declaration. */
  method Run(index: Index, d: Decl)
    requires index.Valid() && d.kind.NamespaceDecl?
    modifies index
    ensures index.Valid()
    ensures index.Value() == Step(old(index.Value()), d)
  {
    index.namespaces := index.namespaces.CountMatch();
    if d.name == "" || d.inIgnoreList || d.inAnonymousNamespace {
      return;
    }
    var ID := d.id;
    if index.namespaces.Contains(ID) {
      return;
    }
    index.namespaces := index.namespaces.Reserve(ID);
    var n := NamespaceSymbol(ID, d.name, d.docComment, EmptyID, [], [], [], []);
    n := n.(parentNamespaceID := d.parentNamespaceID);
    index.namespaces := index.namespaces.Update(n.ID, n);
  }

  // ---------------------------------------------------------------- properties

  /** Every namespace declaration is counted; only the namespaces table changes. */
  lemma StepCounter(ix: IndexValue, d: Decl)
    requires d.kind.NamespaceDecl? && NothingClaimed(ix)
    ensures var r := Step(ix, d);
            && r == ix.(namespaces := r.namespaces)
            && r.namespaces.numMatches == ix.namespaces.numMatches + 1
            && r.namespaces.claimed == {}
  {
  }

  /** Anonymous, ignored and already-present namespaces leave the entries as they were;
      otherwise exactly one entry is added, under its own ID. */
  lemma StepEntries(ix: IndexValue, d: Decl)
    requires d.kind.NamespaceDecl? && NothingClaimed(ix)
    ensures var r := Step(ix, d).namespaces.entries;
            if Discarded(d) || d.id in ix.namespaces.entries
            then r == ix.namespaces.entries
            else r == ix.namespaces.entries[d.id := Symbol(d)] && r[d.id].ID == d.id
  {
  }

  /** Seeing the same declaration again changes no entry. */
  lemma StepIdempotent(ix: IndexValue, d: Decl)
    requires d.kind.NamespaceDecl? && NothingClaimed(ix)
    ensures NothingClaimed(Step(ix, d))
    ensures Step(Step(ix, d), d).namespaces.entries == Step(ix, d).namespaces.entries
  {
  }

  lemma StepWellKeyed(ix: IndexValue, d: Decl)
    requires d.kind.NamespaceDecl? && NothingClaimed(ix) && WellKeyed(ix)
    ensures WellKeyed(Step(ix, d)) && NothingClaimed(Step(ix, d))
  {
  }

  /** Namespaces enter the index with empty child lists. */
  lemma StepKeepsUnlinked(ix: IndexValue, d: Decl)
    requires d.kind.NamespaceDecl? && NothingClaimed(ix) && Unlinked(ix.namespaces.entries)
    ensures Unlinked(Step(ix, d).namespaces.entries)
  {
  }

  /** So once linked by the resolver pass, every namespace of an unlinked table lists each
      of its records, enums, nested namespaces and aliases exactly once. */
  lemma LinkedAfterMatching(ix: IndexValue, k: SymbolID, after: NamespaceSymbol)
    requires Unlinked(ix.namespaces.entries) && k in ix.namespaces.entries
    requires Indexer.Linked(ix.namespaces.entries[k], after, ix)
    ensures var ns := ix.namespaces.entries[k];
            && Distinct(after.records)
            && (set id | id in after.records) == Indexer.ChildSet(ix.records.entries, Indexer.RecordParent, ns)
            && |after.records| == |Indexer.ChildSet(ix.records.entries, Indexer.RecordParent, ns)|
    ensures var ns := ix.namespaces.entries[k];
            && Distinct(after.enums)
            && (set id | id in after.enums) == Indexer.ChildSet(ix.enums.entries, Indexer.EnumParent, ns)
            && |after.enums| == |Indexer.ChildSet(ix.enums.entries, Indexer.EnumParent, ns)|
    ensures var ns := ix.namespaces.entries[k];
            && Distinct(after.namespaces)
            && (set id | id in after.namespaces) == Indexer.ChildSet(ix.namespaces.entries, Indexer.NamespaceParent, ns)
            && |after.namespaces| == |Indexer.ChildSet(ix.namespaces.entries, Indexer.NamespaceParent, ns)|
    ensures var ns := ix.namespaces.entries[k];
            && Distinct(after.usings)
            && (set id | id in after.usings) == Indexer.ChildSet(ix.aliases.entries, Indexer.AliasParent, ns)
            && |after.usings| == |Indexer.ChildSet(ix.aliases.entries, Indexer.AliasParent, ns)|
  {
    Indexer.LinkedFromEmpty(ix.namespaces.entries[k], after, ix);
  }
}
