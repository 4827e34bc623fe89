/** The matchers registered in `Indexer::run`, seen as a sequential stream of
    declarations. Each declaration is offered to the matchers in registration order
    (function, record, enum, namespace, using); a matcher runs when its pattern admits
    the declaration. */
module Traversal {
  import opened Util
  import opened Symbols
  import opened Databases
  import opened Decls
  import opened MatcherFilters
  import FunctionMatcher
  import RecordMatcher
  import EnumMatcher
  import NamespaceMatcher
  import UsingMatcher

  /** The index after every matcher whose pattern admits `d` has run on it. */
  function Observe(ix: IndexValue, cfg: Config, d: Decl): (r: IndexValue)
    requires NothingClaimed(ix)
    ensures NothingClaimed(r)
  {
    var afterOwn :=
      if FunctionMatcherAdmits(cfg, d) then FunctionMatcher.Step(ix, cfg, d)
      else if RecordMatcherAdmits(cfg, d) then RecordMatcher.Step(ix, cfg, d)
      else if EnumMatcherAdmits(cfg, d) then EnumMatcher.Step(ix, d)
      else if NamespaceMatcherAdmits(cfg, d) then NamespaceMatcher.Step(ix, d)
      else ix;
    if UsingMatcherAdmits(cfg, d) then UsingMatcher.Step(afterOwn, cfg, d) else afterOwn
  }

  /** The index after the declarations `ds`, in order. */
  function ObserveAllSpec(ix: IndexValue, cfg: Config, ds: seq<Decl>): (r: IndexValue)
    requires NothingClaimed(ix)
    ensures NothingClaimed(r)
  {
    if |ds| == 0 then ix else Observe(ObserveAllSpec(ix, cfg, ds[..|ds| - 1]), cfg, ds[|ds| - 1])
  }

  /** One declaration offered to the five matchers. */
  method ObserveDecl(index: Index, cfg: Config, d: Decl)
    requires index.Valid()
    modifies index
    ensures index.Valid()
    ensures index.Value() == Observe(old(index.Value()), cfg, d)
  {
    if FunctionMatcherAdmits(cfg, d) {
      FunctionMatcher.Run(index, cfg, d);
    } else if RecordMatcherAdmits(cfg, d) {
      RecordMatcher.Run(index, cfg, d);
    } else if EnumMatcherAdmits(cfg, d) {
      EnumMatcher.Run(index, d);
    } else if NamespaceMatcherAdmits(cfg, d) {
      NamespaceMatcher.Run(index, d);
    }
    if UsingMatcherAdmits(cfg, d) {
      UsingMatcher.Run(index, cfg, d);
    }
  }

  /** The traversal of a translation unit's declarations. */
  method ObserveAll(index: Index, cfg: Config, ds: seq<Decl>)
    requires index.Valid()
    modifies index
    ensures index.Valid()
    ensures index.Value() == ObserveAllSpec(old(index.Value()), cfg, ds)
  {
    ghost var start := index.Value();
    for i := 0 to |ds|
      invariant index.Valid()
      invariant index.Value() == ObserveAllSpec(start, cfg, ds[..i])
    {
      assert ds[..i + 1][..i] == ds[..i];
      ObserveDecl(index, cfg, ds[i]);
    }
    assert ds[..|ds|] == ds;
  }

  // ---------------------------------------------------------------- properties

  /** `a` holds every entry of `b`, unchanged. */
  predicate Submap<T(==)>(a: map<SymbolID, T>, b: map<SymbolID, T>) {
    forall k :: k in a ==> k in b && b[k] == a[k]
  }

  /** Entries are only ever added. */
  predicate Grows(a: IndexValue, b: IndexValue) {
    && Submap(a.functions.entries, b.functions.entries) && Submap(a.records.entries, b.records.entries)
    && Submap(a.enums.entries, b.enums.entries) && Submap(a.namespaces.entries, b.namespaces.entries)
    && Submap(a.aliases.entries, b.aliases.entries)
  }

  predicate SameEntries(a: IndexValue, b: IndexValue) {
    && a.functions.entries == b.functions.entries && a.records.entries == b.records.entries
    && a.enums.entries == b.enums.entries && a.namespaces.entries == b.namespaces.entries
    && a.aliases.entries == b.aliases.entries
  }

  /** Every matcher that would store `d` finds its ID already present. */
  predicate Settled(ix: IndexValue, cfg: Config, d: Decl) {
    && ((FunctionMatcherAdmits(cfg, d) && FunctionMatcher.Counted(d.kind.fn) && !FunctionMatcher.Rejected(cfg, d, d.kind.fn))
        ==> d.id in ix.functions.entries)
    && (RecordMatcherAdmits(cfg, d) && !RecordMatcher.Discarded(d, d.kind.rec) ==> d.id in ix.records.entries)
    && (EnumMatcherAdmits(cfg, d) && !EnumMatcher.Discarded(d) ==> d.id in ix.enums.entries)
    && (NamespaceMatcherAdmits(cfg, d) && !NamespaceMatcher.Discarded(d) ==> d.id in ix.namespaces.entries)
    && ((UsingMatcherAdmits(cfg, d) && UsingMatcher.Counted(d) && !UsingMatcher.Rejected(cfg, d))
        ==> d.id in ix.aliases.entries)
  }

  /** Observing a declaration only adds entries, and leaves it settled. */
  lemma ObserveGrowsAndSettles(ix: IndexValue, cfg: Config, d: Decl)
    requires NothingClaimed(ix)
    ensures Grows(ix, Observe(ix, cfg, d))
    ensures Settled(Observe(ix, cfg, d), cfg, d)
  {
  }

  /** A settled declaration changes no entry when observed again. */
  lemma ObserveSettled(ix: IndexValue, cfg: Config, d: Decl)
    requires NothingClaimed(ix) && Settled(ix, cfg, d)
    ensures SameEntries(Observe(ix, cfg, d), ix)
  {
  }

  lemma {:induction false} ObserveAllGrows(ix: IndexValue, cfg: Config, ds: seq<Decl>)
    requires NothingClaimed(ix)
    ensures Grows(ix, ObserveAllSpec(ix, cfg, ds))
  {
    if |ds| > 0 {
      var prev := ObserveAllSpec(ix, cfg, ds[..|ds| - 1]);
      ObserveAllGrows(ix, cfg, ds[..|ds| - 1]);
      ObserveGrowsAndSettles(prev, cfg, ds[|ds| - 1]);
    }
  }

  /** After a traversal every declaration of it is settled. */
  lemma {:induction false} ObserveAllSettles(ix: IndexValue, cfg: Config, ds: seq<Decl>, j: nat)
    requires NothingClaimed(ix) && j < |ds|
    ensures Settled(ObserveAllSpec(ix, cfg, ds), cfg, ds[j])
  {
    var p := ds[..|ds| - 1];
    var prev := ObserveAllSpec(ix, cfg, p);
    ObserveGrowsAndSettles(prev, cfg, ds[|ds| - 1]);
    if j < |ds| - 1 {
      assert p[j] == ds[j];
      ObserveAllSettles(ix, cfg, p, j);
    }
  }

  /** Declarations that are all settled change no entry. */
  lemma {:induction false} ObserveAllSettled(ix: IndexValue, cfg: Config, ds: seq<Decl>)
    requires NothingClaimed(ix)
    requires forall j :: 0 <= j < |ds| ==> Settled(ix, cfg, ds[j])
    ensures SameEntries(ObserveAllSpec(ix, cfg, ds), ix)
  {
    if |ds| > 0 {
      var p := ds[..|ds| - 1];
      forall j | 0 <= j < |p| ensures Settled(ix, cfg, p[j]) {
        assert p[j] == ds[j];
      }
      ObserveAllSettled(ix, cfg, p);
      var prev := ObserveAllSpec(ix, cfg, p);
      assert Settled(prev, cfg, ds[|ds| - 1]) by {
        assert Settled(ix, cfg, ds[|ds| - 1]);
      }
      ObserveSettled(prev, cfg, ds[|ds| - 1]);
    }
  }

  /** Traversing the same declarations a second time changes no entry: the
      `contains` check makes the whole indexing idempotent on entries. */
  lemma ObserveAllTwice(ix: IndexValue, cfg: Config, ds: seq<Decl>)
    requires NothingClaimed(ix)
    ensures SameEntries(ObserveAllSpec(ObserveAllSpec(ix, cfg, ds), cfg, ds), ObserveAllSpec(ix, cfg, ds))
  {
    var once := ObserveAllSpec(ix, cfg, ds);
    forall j | 0 <= j < |ds| ensures Settled(once, cfg, ds[j]) {
      ObserveAllSettles(ix, cfg, ds, j);
    }
    ObserveAllSettled(once, cfg, ds);
  }

  /** The matchers store namespaces with empty child lists, so the resolver pass starts
      from unlinked namespaces. */
  lemma {:induction false} ObserveAllUnlinked(ix: IndexValue, cfg: Config, ds: seq<Decl>)
    requires NothingClaimed(ix) && NamespaceMatcher.Unlinked(ix.namespaces.entries)
    ensures NamespaceMatcher.Unlinked(ObserveAllSpec(ix, cfg, ds).namespaces.entries)
  {
    if |ds| > 0 {
      ObserveAllUnlinked(ix, cfg, ds[..|ds| - 1]);
    }
  }

  lemma ObserveWellKeyed(ix: IndexValue, cfg: Config, d: Decl)
    requires NothingClaimed(ix) && WellKeyed(ix)
    ensures WellKeyed(Observe(ix, cfg, d))
  {
    var afterOwn := ix;
    if FunctionMatcherAdmits(cfg, d) {
      FunctionMatcher.StepWellKeyed(ix, cfg, d);
      afterOwn := FunctionMatcher.Step(ix, cfg, d);
    } else if RecordMatcherAdmits(cfg, d) {
      RecordMatcher.StepWellKeyed(ix, cfg, d);
      afterOwn := RecordMatcher.Step(ix, cfg, d);
    } else if EnumMatcherAdmits(cfg, d) {
      EnumMatcher.StepWellKeyed(ix, d);
      afterOwn := EnumMatcher.Step(ix, d);
    } else if NamespaceMatcherAdmits(cfg, d) {
      NamespaceMatcher.StepWellKeyed(ix, d);
      afterOwn := NamespaceMatcher.Step(ix, d);
    }
    if UsingMatcherAdmits(cfg, d) {
      UsingMatcher.StepWellKeyed(afterOwn, cfg, d);
    }
  }

  /** The traversal keeps every table keyed by its symbols' IDs. */
  lemma {:induction false} ObserveAllWellKeyed(ix: IndexValue, cfg: Config, ds: seq<Decl>)
    requires NothingClaimed(ix) && WellKeyed(ix)
    ensures WellKeyed(ObserveAllSpec(ix, cfg, ds))
  {
    if |ds| > 0 {
      ObserveAllWellKeyed(ix, cfg, ds[..|ds| - 1]);
      ObserveWellKeyed(ObserveAllSpec(ix, cfg, ds[..|ds| - 1]), cfg, ds[|ds| - 1]);
    }
  }
}
