/** `EnumMatcher::run`: the filters, the counter, the at-most-once insertion and the
    construction of the `EnumSymbol`. */
module EnumMatcher {
  import opened Util
  import opened Strings
  import opened Symbols
  import opened Databases
  import opened Decls

  /** Why `run` returns after counting: unnamed, ignore-listed or in an anonymous namespace. */
  predicate Discarded(d: Decl) {
    d.name == "" || d.inIgnoreList || d.inAnonymousNamespace
  }

  /** Enums nested in a record are qualified by the parent's name. */
  function EnumName(d: Decl): string {
    match ParentRecordName(d)
    case Some(parent) => parent + "::" + d.name
    case None => d.name
  }

  /** The kind string: scoped enums are `enum class` or `enum struct` by their tag. */
  function KindName(en: EnumFacts): string {
    if en.isScoped then (if en.isScopedUsingClassTag then "enum class" else "enum struct") else "enum"
  }

  /** An enumerator's comment: its paragraphs appended one after the other. */
  function Concat(ps: seq<string>): string {
    if |ps| == 0 then "" else Concat(ps[..|ps| - 1]) + ps[|ps| - 1]
  }

  function Member(m: EnumeratorDecl): EnumMember {
    EnumMember(m.name, m.value, Concat(m.paragraphs))
  }

  function Members(ms: seq<EnumeratorDecl>): (r: seq<EnumMember>)
    ensures |r| == |ms|
  {
    seq(|ms|, i requires 0 <= i < |ms| => Member(ms[i]))
  }

  function Symbol(d: Decl, en: EnumFacts): EnumSymbol {
    EnumSymbol(d.id, EnumName(d), d.docComment, d.parentNamespaceID, KindName(en), Members(en.enumerators))
  }

  /** The index after `run` sees enum declaration `d`. */
  function Step(ix: IndexValue, d: Decl): IndexValue
    requires d.kind.EnumDecl? && NothingClaimed(ix)
  {
    var counted := ix.(enums := ix.enums.CountMatch());
    if Discarded(d) then counted
    else counted.(enums := Commit(counted.enums, d.id, Symbol(d, d.kind.en)))
  }

  /** The paragraph loop of an enumerator's comment. */
  method CommentOf(paragraphs: seq<string>) returns (doc: string)
    ensures doc == Concat(paragraphs)
  {
    doc := "";
    for i := 0 to |paragraphs|
      invariant doc == Concat(paragraphs[..i])
    {
      assert paragraphs[..i + 1][..i] == paragraphs[..i];
      doc := doc + paragraphs[i];
    }
    assert paragraphs[..|paragraphs|] == paragraphs;
  }

  /** The loop over `enumerators()`. */
  method BuildMembers(ms: seq<EnumeratorDecl>) returns (members: seq<EnumMember>)
    ensures members == Members(ms)
  {
    members := [];
    for i := 0 to |ms|
      invariant members == Members(ms[..i])
    {
      var doc := CommentOf(ms[i].paragraphs);
      members := members + [EnumMember(ms[i].name, ms[i].value, doc)];
    }
    assert ms[..|ms|] == ms;
  }

  /** `EnumMatcher::run` on an enum declaration. */
  method Run(index: Index, d: Decl)
    requires index.Valid() && d.kind.EnumDecl?
    modifies index
    ensures index.Valid()
    ensures index.Value() == Step(old(index.Value()), d)
  {
    var res := d.kind.en;
    index.enums := index.enums.CountMatch();
    if d.name == "" || d.inIgnoreList || d.inAnonymousNamespace {
      return;
    }
    var ID := d.id;
    if index.enums.Contains(ID) {
      return;
    }
    index.enums := index.enums.Reserve(ID);
    var e := EnumSymbol(ID, d.name, d.docComment, EmptyID, "", []);
    if |d.contexts| > 0 && d.contexts[0].RecordContext? {
      e := e.(name := d.contexts[0].name + "::" + e.name);
    }
    if res.isScoped {
      if res.isScopedUsingClassTag {
        e := e.(kind := "enum class");
      } else {
        e := e.(kind := "enum struct");
      }
    } else {
      e := e.(kind := "enum");
    }
    var members := BuildMembers(res.enumerators);
    e := e.(members := members);
    e := e.(parentNamespaceID := d.parentNamespaceID);
    index.enums := index.enums.Update(e.ID, e);
    assert e == Symbol(d, res);
  }

  // ---------------------------------------------------------------- properties

  /** Every enum declaration is counted; only the enums table changes. */
  lemma StepCounter(ix: IndexValue, d: Decl)
    requires d.kind.EnumDecl? && NothingClaimed(ix)
    ensures var r := Step(ix, d);
            && r == ix.(enums := r.enums)
            && r.enums.numMatches == ix.enums.numMatches + 1
            && r.enums.claimed == {}
  {
  }

  /** Anonymous, ignored and already-present enums leave the entries as they were;
      otherwise exactly one entry is added, under its own ID. */
  lemma StepEntries(ix: IndexValue, d: Decl)
    requires d.kind.EnumDecl? && NothingClaimed(ix)
    ensures var r := Step(ix, d).enums.entries;
            if d.name == "" || d.inIgnoreList || d.inAnonymousNamespace || d.id in ix.enums.entries
            then r == ix.enums.entries
            else r == ix.enums.entries[d.id := Symbol(d, d.kind.en)] && r[d.id].ID == d.id
  {
  }

  /** Seeing the same declaration again changes no entry. */
  lemma StepIdempotent(ix: IndexValue, d: Decl)
    requires d.kind.EnumDecl? && NothingClaimed(ix)
    ensures NothingClaimed(Step(ix, d))
    ensures Step(Step(ix, d), d).enums.entries == Step(ix, d).enums.entries
  {
  }

  lemma StepWellKeyed(ix: IndexValue, d: Decl)
    requires d.kind.EnumDecl? && NothingClaimed(ix) && WellKeyed(ix)
    ensures WellKeyed(Step(ix, d)) && NothingClaimed(Step(ix, d))
  {
  }

  /** The three kind strings, each exactly when its condition holds. */
  lemma KindNameCases(en: EnumFacts)
    ensures KindName(en) == "enum class" <==> en.isScoped && en.isScopedUsingClassTag
    ensures KindName(en) == "enum struct" <==> en.isScoped && !en.isScopedUsingClassTag
    ensures KindName(en) == "enum" <==> !en.isScoped
  {
  }

  /** An enum nested in a record is named `Parent::Name`; any other keeps its name. */
  lemma NestedEnumName(d: Decl)
    ensures ParentRecordName(d).Some? ==> StartsWith(EnumName(d), ParentRecordName(d).value + "::")
    ensures ParentRecordName(d).None? ==> EnumName(d) == d.name
  {
    if ParentRecordName(d).Some? {
      var head := ParentRecordName(d).value + "::";
      assert EnumName(d) == head + d.name;
      assert (head + d.name)[..|head|] == head;
    }
  }

  /** One member per enumerator, in order, with its name and value. */
  lemma MembersInOrder(d: Decl, en: EnumFacts)
    ensures |Symbol(d, en).members| == |en.enumerators|
    ensures forall i :: 0 <= i < |en.enumerators| ==>
              Symbol(d, en).members[i].name == en.enumerators[i].name
              && Symbol(d, en).members[i].value == en.enumerators[i].value
  {
  }

  /** Each paragraph of an enumerator's comment appears in the member's comment. */
  lemma {:induction false} ConcatContains(ps: seq<string>, j: nat)
    requires j < |ps|
    ensures IsSubstring(ps[j], Concat(ps))
  {
    var init := ps[..|ps| - 1];
    var last := ps[|ps| - 1];
    if j == |ps| - 1 {
      var c := Concat(init);
      assert (c + last)[|c|..|c| + |last|] == last;
      assert OccursAt(c + last, last, |c|);
    } else {
      assert init[j] == ps[j];
      ConcatContains(init, j);
      var c := Concat(init);
      var i :| 0 <= i <= |c| && OccursAt(c, ps[j], i);
      assert (c + last)[i..i + |ps[j]|] == c[i..i + |ps[j]|];
      assert OccursAt(c + last, ps[j], i);
    }
  }
}
