/** The whole-index passes `hdoc::indexer::Indexer` runs after traversal: namespace
    linking, inheritance clauses, template-parameter renaming in member functions, and
    the pruning of orphaned methods and dangling type references. Each pass updates the
    tables of the `Index` in place, visiting their entries in an unspecified order. */
module Indexer {
  import opened Util
  import opened Strings
  import opened Symbols
  import opened Databases

  // ---------------------------------------------------------------- resolveNamespaces

  /** `isChild(ns, s)`: a symbol whose enclosing-namespace ID is `childParent` is a
      direct child of `ns`. */
  predicate IsChild(ns: NamespaceSymbol, childParent: SymbolID) {
    childParent == ns.ID
  }

  function RecordID(r: RecordSymbol): SymbolID { r.ID }
  function RecordParent(r: RecordSymbol): SymbolID { r.parentNamespaceID }
  function EnumID(e: EnumSymbol): SymbolID { e.ID }
  function EnumParent(e: EnumSymbol): SymbolID { e.parentNamespaceID }
  function NamespaceID(n: NamespaceSymbol): SymbolID { n.ID }
  function NamespaceParent(n: NamespaceSymbol): SymbolID { n.parentNamespaceID }
  function AliasID(a: AliasSymbol): SymbolID { a.ID }
  function AliasParent(a: AliasSymbol): SymbolID { a.parentNamespaceID }

  /** The keys of table `m` whose entries are direct children of `ns`. */
  function ChildSet<T>(m: map<SymbolID, T>, parentOf: T -> SymbolID, ns: NamespaceSymbol): set<SymbolID> {
    set k | k in m && IsChild(ns, parentOf(m[k]))
  }

  /** One of the four inner loops of `resolveNamespaces`: the IDs of the children of
      `ns` found in one table, each once, in the table's iteration order. */
  method CollectChildren<T>(m: map<SymbolID, T>, idOf: T -> SymbolID, parentOf: T -> SymbolID,
                            ns: NamespaceSymbol) returns (ids: seq<SymbolID>)
    requires forall k :: k in m ==> idOf(m[k]) == k
    ensures Distinct(ids)
    ensures forall id :: id in ids <==> id in ChildSet(m, parentOf, ns)
  {
    ids := [];
    var todo := m.Keys;
    while todo != {}
      invariant todo <= m.Keys
      invariant Distinct(ids)
      invariant forall id :: id in ids <==> id in m && id !in todo && IsChild(ns, parentOf(m[id]))
      decreases |todo|
    {
      var k :| k in todo;
      var v := m[k];
      if IsChild(ns, parentOf(v)) {
        ids := ids + [idOf(v)];
      }
      todo := todo - {k};
    }
  }

  /** `after` is `before` followed by the members of `children`, each exactly once. */
  predicate AppendsExactly(before: seq<SymbolID>, after: seq<SymbolID>, children: set<SymbolID>) {
    && |before| <= |after| && after[..|before|] == before
    && Distinct(after[|before|..])
    && forall id :: id in after[|before|..] <==> id in children
  }

  /** `after` is namespace `before` once `resolveNamespaces` has linked it against `ix`:
      every field but the four child lists is unchanged, and each list has been extended
      by the IDs of exactly the entries of the matching table that are children of it. */
  predicate Linked(before: NamespaceSymbol, after: NamespaceSymbol, ix: IndexValue) {
    && after == before.(records := after.records, enums := after.enums,
                        namespaces := after.namespaces, usings := after.usings)
    && AppendsExactly(before.records, after.records, ChildSet(ix.records.entries, RecordParent, before))
    && AppendsExactly(before.enums, after.enums, ChildSet(ix.enums.entries, EnumParent, before))
    && AppendsExactly(before.namespaces, after.namespaces,
                      ChildSet(ix.namespaces.entries, NamespaceParent, before))
    && AppendsExactly(before.usings, after.usings, ChildSet(ix.aliases.entries, AliasParent, before))
  }

  /** Starting from empty child lists, a linked namespace lists exactly its children,
      one list element per child. */
  lemma LinkedFromEmpty(before: NamespaceSymbol, after: NamespaceSymbol, ix: IndexValue)
    requires before.records == [] && before.enums == [] && before.namespaces == [] && before.usings == []
    requires Linked(before, after, ix)
    ensures Distinct(after.records) && (set id | id in after.records) == ChildSet(ix.records.entries, RecordParent, before)
    ensures |after.records| == |ChildSet(ix.records.entries, RecordParent, before)|
    ensures Distinct(after.enums) && (set id | id in after.enums) == ChildSet(ix.enums.entries, EnumParent, before)
    ensures |after.enums| == |ChildSet(ix.enums.entries, EnumParent, before)|
    ensures Distinct(after.namespaces)
    ensures (set id | id in after.namespaces) == ChildSet(ix.namespaces.entries, NamespaceParent, before)
    ensures |after.namespaces| == |ChildSet(ix.namespaces.entries, NamespaceParent, before)|
    ensures Distinct(after.usings) && (set id | id in after.usings) == ChildSet(ix.aliases.entries, AliasParent, before)
    ensures |after.usings| == |ChildSet(ix.aliases.entries, AliasParent, before)|
  {
    assert after.records[0..] == after.records;
    assert after.enums[0..] == after.enums;
    assert after.namespaces[0..] == after.namespaces;
    assert after.usings[0..] == after.usings;
    DistinctCardinality(after.records);
    DistinctCardinality(after.enums);
    DistinctCardinality(after.namespaces);
    DistinctCardinality(after.usings);
  }

  /** The body of the outer loop of `resolveNamespaces` for one namespace `ns`. */
  method LinkNamespace(ix: IndexValue, ns: NamespaceSymbol) returns (linked: NamespaceSymbol)
    requires WellKeyed(ix)
    ensures Linked(ns, linked, ix)
  {
    var rs := CollectChildren(ix.records.entries, RecordID, RecordParent, ns);
    var es := CollectChildren(ix.enums.entries, EnumID, EnumParent, ns);
    var nss := CollectChildren(ix.namespaces.entries, NamespaceID, NamespaceParent, ns);
    var us := CollectChildren(ix.aliases.entries, AliasID, AliasParent, ns);
    linked := ns.(records := ns.records + rs, enums := ns.enums + es,
                  namespaces := ns.namespaces + nss, usings := ns.usings + us);
    assert linked.records[|ns.records|..] == rs && linked.enums[|ns.enums|..] == es;
    assert linked.namespaces[|ns.namespaces|..] == nss && linked.usings[|ns.usings|..] == us;
  }

  /** Linking reads only the keys and the parent IDs of the namespace table, so it gives
      the same result against any two indexes that agree on those and on the other tables. */
  lemma LinkedStable(before: NamespaceSymbol, after: NamespaceSymbol, ix1: IndexValue, ix2: IndexValue)
    requires Linked(before, after, ix1)
    requires ix1.records.entries == ix2.records.entries && ix1.enums.entries == ix2.enums.entries
    requires ix1.aliases.entries == ix2.aliases.entries
    requires ix1.namespaces.entries.Keys == ix2.namespaces.entries.Keys
    requires forall k :: k in ix1.namespaces.entries ==>
               ix1.namespaces.entries[k].parentNamespaceID == ix2.namespaces.entries[k].parentNamespaceID
    ensures Linked(before, after, ix2)
  {
    assert ChildSet(ix1.namespaces.entries, NamespaceParent, before)
        == ChildSet(ix2.namespaces.entries, NamespaceParent, before);
  }

  /** `resolveNamespaces`: fill in the child lists of every namespace. */
  method ResolveNamespaces(index: Index)
    requires index.Valid()
    modifies index
    ensures index.Valid()
    ensures index.functions == old(index.functions) && index.records == old(index.records)
    ensures index.enums == old(index.enums) && index.aliases == old(index.aliases)
    ensures index.namespaces.claimed == old(index.namespaces.claimed)
    ensures index.namespaces.numMatches == old(index.namespaces.numMatches)
    ensures index.namespaces.entries.Keys == old(index.namespaces.entries.Keys)
    ensures forall k :: k in index.namespaces.entries ==>
              Linked(old(index.namespaces.entries[k]), index.namespaces.entries[k], old(index.Value()))
  {
    var ix := index.Value();
    var m := ix.namespaces.entries;
    var todo := m.Keys;
    while todo != {}
      invariant index.Value() == ix
      invariant todo <= m.Keys == ix.namespaces.entries.Keys
      invariant forall k :: k in m ==>
                  m[k].ID == k && m[k].parentNamespaceID == ix.namespaces.entries[k].parentNamespaceID
      invariant forall k :: k in todo ==> m[k] == ix.namespaces.entries[k]
      invariant forall k :: k in m && k !in todo ==> Linked(ix.namespaces.entries[k], m[k], ix)
      decreases |todo|
    {
      var k :| k in todo;
      var ns := m[k];
      var linked := LinkNamespace(ix.(namespaces := ix.namespaces.(entries := m)), ns);
      LinkedStable(ns, linked, ix.(namespaces := ix.namespaces.(entries := m)), ix);
      m := m[k := linked];
      todo := todo - {k};
    }
    index.namespaces := index.namespaces.(entries := m);
    assert index.Value() == ix.(namespaces := ix.namespaces.(entries := m));
  }

  // ---------------------------------------------------------------- updateRecordNames

  /** The inheritance keyword the switch prints before a base's name; `AS_none` prints nothing. */
  function AccessPrefix(a: Access): string {
    match a
    case Public => "public "
    case Private => "private "
    case Protected => "protected "
    case NoAccess => ""
  }

  /** The entry for one base in the inheritance clause. */
  function BaseEntry(b: BaseRecord): string {
    AccessPrefix(b.access) + b.name
  }

  /** The entries of a list of bases, in order. */
  function BaseEntries(bs: seq<BaseRecord>): (r: seq<string>)
    ensures |r| == |bs|
    ensures forall i :: 0 <= i < |bs| ==> r[i] == BaseEntry(bs[i])
  {
    if |bs| == 0 then [] else BaseEntries(bs[..|bs| - 1]) + [BaseEntry(bs[|bs| - 1])]
  }

  /** The `proto` `updateRecordNames` leaves on record `c`: unchanged without bases,
      otherwise followed by `" : "` and the comma-separated base entries. */
  function InheritanceProto(c: RecordSymbol): string {
    if |c.baseRecords| == 0 then c.proto
    else c.proto + " : " + Join(BaseEntries(c.baseRecords), ", ")
  }

  /** One more base processed: the clause over `bs[..i + 1]`. */
  lemma JoinBaseEntriesSnoc(bs: seq<BaseRecord>, i: nat)
    requires i < |bs|
    ensures i == 0 ==> Join(BaseEntries(bs[..i + 1]), ", ") == BaseEntry(bs[i])
    ensures i > 0 ==>
              Join(BaseEntries(bs[..i + 1]), ", ") == Join(BaseEntries(bs[..i]), ", ") + ", " + BaseEntry(bs[i])
  {
    assert bs[..i + 1][..i] == bs[..i];
    var es := BaseEntries(bs[..i + 1]);
    assert es[..i] == BaseEntries(bs[..i]);
  }

  /** The text built so far after `i` bases, where `head` is the proto followed by `" : "`. */
  function ClauseSoFar(head: string, bs: seq<BaseRecord>, i: nat): string
    requires i <= |bs|
  {
    if i == 0 then head else head + Join(BaseEntries(bs[..i]), ", ")
  }

  /** One iteration of the `count` loop: separator, then access keyword and name. */
  lemma {:induction false} ClauseStep(head: string, bs: seq<BaseRecord>, i: nat)
    requires i < |bs|
    ensures (if i > 0 then ClauseSoFar(head, bs, i) + ", " else ClauseSoFar(head, bs, i))
            + AccessPrefix(bs[i].access) + bs[i].name == ClauseSoFar(head, bs, i + 1)
  {
    JoinBaseEntriesSnoc(bs, i);
    var a, n := AccessPrefix(bs[i].access), bs[i].name;
    assert BaseEntry(bs[i]) == a + n;
    if i == 0 {
      assert ClauseSoFar(head, bs, i + 1) == head + (a + n);
      AppendAssoc(head, a, n);
    } else {
      var j, sep := Join(BaseEntries(bs[..i]), ", "), ", ";
      assert ClauseSoFar(head, bs, i) == head + j;
      assert ClauseSoFar(head, bs, i + 1) == head + (j + sep + (a + n));
      AppendAssoc(head + j + sep, a, n);
      AppendAssoc(head + j, sep, a + n);
      AppendAssoc(j, sep, a + n);
      AppendAssoc(head, j, sep + (a + n));
    }
  }

  lemma AppendAssoc(x: string, y: string, z: string)
    ensures x + y + z == x + (y + z)
  {
  }

  /** The body of the loop of `updateRecordNames` for one record: the `count` loop. */
  method AppendInheritance(c: RecordSymbol) returns (proto: string)
    ensures proto == InheritanceProto(c)
  {
    proto := c.proto;
    if |c.baseRecords| > 0 {
      var count := 0;
      proto := proto + " : ";
      ghost var head := proto;
      for i := 0 to |c.baseRecords|
        invariant count == i
        invariant proto == ClauseSoFar(head, c.baseRecords, i)
      {
        var baseRecord := c.baseRecords[i];
        ClauseStep(head, c.baseRecords, i);
        if count > 0 {
          proto := proto + ", ";
        }
        match baseRecord.access {
          case Public => proto := proto + "public ";
          case Private => proto := proto + "private ";
          case Protected => proto := proto + "protected ";
          case NoAccess =>
        }
        proto := proto + baseRecord.name;
        count := count + 1;
      }
      assert c.baseRecords[..|c.baseRecords|] == c.baseRecords;
    }
  }

  /** Every record of `recs` with `InheritanceProto` as its `proto`. */
  function WithInheritance(recs: map<SymbolID, RecordSymbol>): map<SymbolID, RecordSymbol> {
    map k | k in recs :: recs[k].(proto := InheritanceProto(recs[k]))
  }

  /** The index `updateRecordNames` leaves: every record's `proto` is `InheritanceProto`
      of that record, and nothing else differs. */
  function UpdateRecordNamesSpec(ix: IndexValue): IndexValue {
    ix.(records := ix.records.(entries := WithInheritance(ix.records.entries)))
  }

  /** The loop of `updateRecordNames` over the record table. */
  method AppendAllInheritance(recs: map<SymbolID, RecordSymbol>) returns (m: map<SymbolID, RecordSymbol>)
    ensures m == WithInheritance(recs)
  {
    m := recs;
    var todo := recs.Keys;
    while todo != {}
      invariant todo <= m.Keys == recs.Keys
      invariant forall k :: k in todo ==> m[k] == recs[k]
      invariant forall k :: k in m && k !in todo ==> m[k] == recs[k].(proto := InheritanceProto(recs[k]))
      decreases |todo|
    {
      var k :| k in todo;
      var c := m[k];
      var proto := AppendInheritance(c);
      m := m[k := c.(proto := proto)];
      todo := todo - {k};
    }
  }

  /** `updateRecordNames`: append the inheritance clause to every record's declaration. */
  method UpdateRecordNames(index: Index)
    requires index.Valid()
    modifies index
    ensures index.Valid()
    ensures index.Value() == UpdateRecordNamesSpec(old(index.Value()))
  {
    var m := AppendAllInheritance(index.records.entries);
    index.records := index.records.(entries := m);
  }

  /** A record without bases keeps its declaration text. */
  lemma InheritanceProtoNoBases(c: RecordSymbol)
    requires |c.baseRecords| == 0
    ensures InheritanceProto(c) == c.proto
  {
  }

  /** The pass only appends: the old declaration text is a prefix of the new one. */
  lemma InheritanceProtoExtends(c: RecordSymbol)
    ensures StartsWith(InheritanceProto(c), c.proto)
  {
  }

  /** A new base extends the clause by a comma and its entry. */
  lemma {:induction false} InheritanceProtoSnoc(c: RecordSymbol, b: BaseRecord)
    requires |c.baseRecords| > 0
    ensures InheritanceProto(c.(baseRecords := c.baseRecords + [b]))
         == InheritanceProto(c) + ", " + BaseEntry(b)
  {
    var bs := c.baseRecords + [b];
    assert bs[..|bs| - 1] == c.baseRecords;
  }

  /** Three bases, one of them without an access keyword, in declaration order. */
  lemma InheritanceProtoExample(c: RecordSymbol)
    requires c.baseRecords == [BaseRecord(1, Public, "Base1"), BaseRecord(2, NoAccess, "Base2"),
                               BaseRecord(3, Private, "Base3")]
    ensures InheritanceProto(c) == c.proto + " : " + "public " + "Base1" + ", " + "Base2" + ", " + "private " + "Base3"
  {
    var bs := c.baseRecords;
    var es := BaseEntries(bs);
    assert es[..2][..1] == es[..1];
    assert Join(es[..1], ", ") == es[0];
    assert Join(es[..2], ", ") == es[0] + ", " + es[1];
  }


  // ---------------------------------------------------------------- updateMemberFunctions

  /** How clang prints the `i`-th type parameter of the outermost template: `type-parameter-0-i`. */
  function Placeholder(i: nat): (r: string)
    ensures StartsWith(r, PlaceholderStem)
  {
    PlaceholderStem + ToDecimal(i)
  }

  const PlaceholderStem := "type-parameter-0-"

  /** The source's two placeholders never collide when the larger index is printed with
      at least as many digits as the smaller, as holds for two distinct indices below 10. */
  lemma PlaceholderNotInOther(i: nat, j: nat)
    requires i != j && |ToDecimal(i)| <= |ToDecimal(j)|
    ensures !IsSubstring(Placeholder(j), Placeholder(i))
  {
    var pi, pj := Placeholder(i), Placeholder(j);
    if IsSubstring(pj, pi) {
      var k :| 0 <= k <= |pi| && OccursAt(pi, pj, k);
      assert k == 0 && |pj| == |pi|;
      assert pi == pi[0..|pi|] == pj;
      assert ToDecimal(i) == pi[|PlaceholderStem|..] == pj[|PlaceholderStem|..] == ToDecimal(j);
      ToDecimalInjective(i, j);
    }
  }

  /** `type-parameter-0-1` is a prefix of `type-parameter-0-10`: the source's plain substring
      replacement cannot tell them apart. */
  lemma PlaceholderPrefixCollision()
    ensures StartsWith(Placeholder(10), Placeholder(1))
    ensures Placeholder(10) == Placeholder(1) + "0"
  {
    assert ToDecimal(10) == ToDecimal(1) + "0";
  }

  /** Text without the stem contains no placeholder. */
  lemma PlaceholderAbsent(s: string, j: nat)
    requires !IsSubstring(PlaceholderStem, s)
    ensures !IsSubstring(Placeholder(j), s)
  {
    var ph := Placeholder(j);
    if IsSubstring(ph, s) {
      var i :| 0 <= i <= |s| && OccursAt(s, ph, i);
      assert s[i..i + |PlaceholderStem|] == ph[..|PlaceholderStem|];
      assert OccursAt(s, PlaceholderStem, i);
      assert false;
    }
  }

  /** `fixTypeParam(s)` as written, for a record with template parameters `tps`: for `i`
      from 0 upward, every `type-parameter-0-i` is replaced by the name of `tps[i]`. */
  function FixTypeParamsAsWritten(s: string, tps: seq<TemplateParam>): string
    decreases |tps|
  {
    if |tps| == 0 then s
    else ReplaceAll(FixTypeParamsAsWritten(s, tps[..|tps| - 1]), Placeholder(|tps| - 1), tps[|tps| - 1].name)
  }

  /** The renaming of index `m` follows the first `m` renamings. */
  lemma FixTypeParamsAsWrittenStep(s: string, tps: seq<TemplateParam>, m: nat)
    requires m < |tps|
    ensures FixTypeParamsAsWritten(s, tps[..m + 1])
            == ReplaceAll(FixTypeParamsAsWritten(s, tps[..m]), Placeholder(m), tps[m].name)
  {
    assert tps[..m + 1][..m] == tps[..m];
  }

  /** Once the first `m` renamings have produced `t`, the later ones leave `t` alone
      when none of their placeholders occurs in it. */
  lemma {:induction false} FixTypeParamsAsWrittenKeeps(s: string, tps: seq<TemplateParam>, m: nat, t: string)
    requires m <= |tps|
    requires FixTypeParamsAsWritten(s, tps[..m]) == t
    requires forall j :: m <= j < |tps| ==> !IsSubstring(Placeholder(j), t)
    ensures FixTypeParamsAsWritten(s, tps) == t
    decreases |tps|
  {
    if |tps| == m {
      assert tps[..m] == tps;
    } else {
      var front := tps[..|tps| - 1];
      assert front[..m] == tps[..m];
      FixTypeParamsAsWrittenKeeps(s, front, m, t);
      ReplaceAllAbsent(t, Placeholder(|tps| - 1), tps[|tps| - 1].name);
    }
  }

  /** As written, each of the first ten placeholders becomes its own parameter's name,
      provided no name itself contains the stem. */
  lemma {:induction false} FixTypeParamsAsWrittenRenames(tps: seq<TemplateParam>, i: nat)
    requires i < |tps| && i < 10
    requires forall j :: 0 <= j < |tps| ==> !IsSubstring(PlaceholderStem, tps[j].name)
    ensures FixTypeParamsAsWritten(Placeholder(i), tps) == tps[i].name
  {
    var ph, name := Placeholder(i), tps[i].name;
    forall j | 0 <= j < i
      ensures !IsSubstring(Placeholder(j), ph)
    {
      ToDecimalLengthMonotone(0, j);
      PlaceholderNotInOther(i, j);
    }
    assert tps[..i][..0] == [];
    FixTypeParamsAsWrittenKeeps(ph, tps[..i], 0, ph);
    FixTypeParamsAsWrittenStep(ph, tps, i);
    ReplaceAllWhole(ph, name);
    forall j | i + 1 <= j < |tps|
      ensures !IsSubstring(Placeholder(j), name)
    {
      PlaceholderAbsent(name, j);
    }
    FixTypeParamsAsWrittenKeeps(ph, tps, i + 1, name);
  }

  /** Appending a digit to text without the stem cannot create one: the stem ends in `-`. */
  lemma {:induction false} NoStemAppendZero(n: string)
    requires !IsSubstring(PlaceholderStem, n)
    ensures !IsSubstring(PlaceholderStem, n + "0")
  {
    var t := n + "0";
    forall k | 0 <= k <= |t|
      ensures !OccursAt(t, PlaceholderStem, k)
    {
      if k + |PlaceholderStem| <= |n| {
        assert t[k..k + |PlaceholderStem|] == n[k..k + |PlaceholderStem|];
        assert !OccursAt(n, PlaceholderStem, k);
      } else if k + |PlaceholderStem| == |t| {
        assert t[|n|] == '0' && PlaceholderStem[|PlaceholderStem| - 1] == '-';
        assert t[k..k + |PlaceholderStem|][|PlaceholderStem| - 1] == t[|n|];
      } else {
        assert k + |PlaceholderStem| > |t|;
      }
    }
  }

  /** As written, with eleven or more template parameters the eleventh placeholder
      `type-parameter-0-10` is caught by the second one: it becomes the second parameter's
      name followed by `0`, not the eleventh parameter's name. */
  lemma {:induction false} FixTypeParamsAsWrittenCollision(tps: seq<TemplateParam>)
    requires |tps| > 10
    requires forall j :: 0 <= j < |tps| ==> !IsSubstring(PlaceholderStem, tps[j].name)
    ensures FixTypeParamsAsWritten(Placeholder(10), tps) == tps[1].name + "0"
  {
    var ph, p1, name := Placeholder(10), Placeholder(1), tps[1].name;
    PlaceholderPrefixCollision();
    forall k | 0 <= k <= |ph|
      ensures !OccursAt(ph, Placeholder(0), k)
    {
      if k == 0 {
        assert ph[17] != Placeholder(0)[17];
      } else if k == 1 {
        assert ph[1] != Placeholder(0)[0];
      }
    }
    assert tps[..1][..0] == [];
    FixTypeParamsAsWrittenKeeps(ph, tps[..1], 0, ph);
    FixTypeParamsAsWrittenStep(ph, tps, 1);
    assert ph[..|p1|] == p1 && ph[|p1|..] == "0";
    assert ReplaceAll(ph, p1, name) == name + ReplaceAll("0", p1, name);
    NoStemAppendZero(name);
    forall j | 2 <= j < |tps|
      ensures !IsSubstring(Placeholder(j), name + "0")
    {
      PlaceholderAbsent(name + "0", j);
    }
    FixTypeParamsAsWrittenKeeps(ph, tps, 2, name + "0");
  }

  /** The renamings `hi - 1`, `hi - 2`, …, 0, in that order. */
  function RenameDescending(s: string, tps: seq<TemplateParam>, hi: nat): string
    requires hi <= |tps|
    decreases hi
  {
    if hi == 0 then s
    else RenameDescending(ReplaceAll(s, Placeholder(hi - 1), tps[hi - 1].name), tps, hi - 1)
  }

  /** `fixTypeParam(s)` as evidently intended: every `type-parameter-0-i` becomes the name of
      `tps[i]`. Renaming from the largest index down keeps `type-parameter-0-1` from
      matching inside `type-parameter-0-10`. */
  function FixTypeParams(s: string, tps: seq<TemplateParam>): string {
    RenameDescending(s, tps, |tps|)
  }

  /** The `fixTypeParam` lambda and its loop, with the loop run from the largest index down. */
  method FixTypeParam(s: string, tps: seq<TemplateParam>) returns (r: string)
    ensures r == FixTypeParams(s, tps)
  {
    r := s;
    var i: nat := |tps|;
    while i > 0
      invariant i <= |tps|
      invariant RenameDescending(r, tps, i) == FixTypeParams(s, tps)
      decreases i
    {
      r := ReplaceAll(r, Placeholder(i - 1), tps[i - 1].name);
      i := i - 1;
    }
  }

  lemma {:induction false} RenameDescendingNoStem(s: string, tps: seq<TemplateParam>, hi: nat)
    requires hi <= |tps|
    requires !IsSubstring(PlaceholderStem, s)
    ensures RenameDescending(s, tps, hi) == s
    decreases hi
  {
    if hi > 0 {
      PlaceholderAbsent(s, hi - 1);
      ReplaceAllAbsent(s, Placeholder(hi - 1), tps[hi - 1].name);
      RenameDescendingNoStem(s, tps, hi - 1);
    }
  }

  /** A string in which no placeholder stem occurs is left as it is, whatever the names. */
  lemma FixTypeParamsNoPlaceholder(s: string, tps: seq<TemplateParam>)
    requires !IsSubstring(PlaceholderStem, s)
    ensures FixTypeParams(s, tps) == s
  {
    RenameDescendingNoStem(s, tps, |tps|);
  }

  lemma {:induction false} RenameDescendingPlaceholder(tps: seq<TemplateParam>, i: nat, hi: nat)
    requires i < hi <= |tps|
    requires forall j :: 0 <= j < |tps| ==> !IsSubstring(PlaceholderStem, tps[j].name)
    ensures RenameDescending(Placeholder(i), tps, hi) == tps[i].name
    decreases hi
  {
    var ph := Placeholder(i);
    if hi - 1 == i {
      ReplaceAllWhole(ph, tps[i].name);
      RenameDescendingNoStem(tps[i].name, tps, i);
    } else {
      ToDecimalLengthMonotone(i, hi - 1);
      PlaceholderNotInOther(i, hi - 1);
      ReplaceAllAbsent(ph, Placeholder(hi - 1), tps[hi - 1].name);
      RenameDescendingPlaceholder(tps, i, hi - 1);
    }
  }

  /** Every placeholder, however many parameters there are, becomes its own parameter's
      name, provided no name itself contains the stem. */
  lemma FixTypeParamsRenames(tps: seq<TemplateParam>, i: nat)
    requires i < |tps|
    requires forall j :: 0 <= j < |tps| ==> !IsSubstring(PlaceholderStem, tps[j].name)
    ensures FixTypeParams(Placeholder(i), tps) == tps[i].name
  {
    RenameDescendingPlaceholder(tps, i, |tps|);
  }

  /** The placeholder stem occurs in `s` at position `p` and nowhere else. */
  predicate StemOnlyAt(s: string, p: nat) {
    forall k :: 0 <= k <= |s| && OccursAt(s, PlaceholderStem, k) ==> k == p
  }

  /** Every placeholder begins with the stem. */
  lemma {:induction false} PlaceholderOccurrenceHasStem(s: string, j: nat, k: nat)
    requires OccursAt(s, Placeholder(j), k)
    ensures OccursAt(s, PlaceholderStem, k)
  {
    var ph := Placeholder(j);
    assert s[k..k + |PlaceholderStem|] == s[k..k + |ph|][..|PlaceholderStem|] == ph[..|PlaceholderStem|];
  }

  /** A placeholder found in text whose only stem is that of `type-parameter-0-i` starts
      there, and it is either as long as `type-parameter-0-i` or continues it with a digit. */
  lemma {:induction false} PlaceholderAtOnlyStem(a: string, b: string, i: nat, j: nat, k: nat)
    requires StemOnlyAt(a + Placeholder(i) + b, |a|)
    requires |Placeholder(i)| <= |Placeholder(j)|
    requires OccursAt(a + Placeholder(i) + b, Placeholder(j), k)
    ensures k == |a|
    ensures |Placeholder(j)| == |Placeholder(i)| || (|b| > 0 && '0' <= b[0] <= '9')
  {
    var s, pi, pj := a + Placeholder(i) + b, Placeholder(i), Placeholder(j);
    PlaceholderOccurrenceHasStem(s, j, k);
    if |pj| > |pi| {
      var d := ToDecimal(j);
      assert pj[|pi|] == d[|pi| - |PlaceholderStem|];
      assert s[|a| + |pi|] == s[|a|..|a| + |pj|][|pi|] == pj[|pi|];
      assert s[|a| + |pi|] == b[0];
    }
  }

  /** Inside text whose only stem is that of `type-parameter-0-i`, followed by something
      other than a digit, no other placeholder with at least as many digits occurs. */
  lemma {:induction false} OtherAbsentInContext(a: string, b: string, i: nat, j: nat)
    requires i != j && |ToDecimal(i)| <= |ToDecimal(j)|
    requires StemOnlyAt(a + Placeholder(i) + b, |a|)
    requires |b| == 0 || !('0' <= b[0] <= '9')
    ensures !IsSubstring(Placeholder(j), a + Placeholder(i) + b)
  {
    var s, pi, pj := a + Placeholder(i) + b, Placeholder(i), Placeholder(j);
    if IsSubstring(pj, s) {
      var k :| 0 <= k <= |s| && OccursAt(s, pj, k);
      PlaceholderAtOnlyStem(a, b, i, j, k);
      assert |pj| == |pi|;
      assert s[|a|..|a| + |pi|] == pi;
      assert pi == pj;
      assert ToDecimal(i) == pi[|PlaceholderStem|..] == pj[|PlaceholderStem|..] == ToDecimal(j);
      ToDecimalInjective(i, j);
    }
  }

  /** No placeholder starts inside the text before the only stem. */
  lemma {:induction false} NoPlaceholderBefore(a: string, b: string, i: nat)
    requires StemOnlyAt(a + Placeholder(i) + b, |a|)
    ensures forall k :: 0 <= k < |a| ==> !OccursAt(a + (Placeholder(i) + b), Placeholder(i), k)
  {
    var s := a + Placeholder(i) + b;
    assert s == a + (Placeholder(i) + b);
    forall k | 0 <= k < |a| ensures !OccursAt(s, Placeholder(i), k) {
      if OccursAt(s, Placeholder(i), k) {
        PlaceholderOccurrenceHasStem(s, i, k);
      }
    }
  }

  /** Nor does one occur in the text after it. */
  lemma {:induction false} NoPlaceholderAfter(a: string, b: string, i: nat)
    requires StemOnlyAt(a + Placeholder(i) + b, |a|)
    ensures !IsSubstring(Placeholder(i), b)
  {
    var ph := Placeholder(i);
    var s := a + ph + b;
    if IsSubstring(ph, b) {
      var k :| 0 <= k <= |b| && OccursAt(b, ph, k);
      var q := |a| + |ph| + k;
      assert s[q..q + |ph|] == b[k..k + |ph|];
      PlaceholderOccurrenceHasStem(s, i, q);
    }
  }

  /** Renaming `type-parameter-0-i` itself inside such text touches only that placeholder. */
  lemma {:induction false} ReplaceOwnInContext(a: string, b: string, i: nat, n: string)
    requires StemOnlyAt(a + Placeholder(i) + b, |a|)
    ensures ReplaceAll(a + Placeholder(i) + b, Placeholder(i), n) == a + n + b
  {
    var ph := Placeholder(i);
    NoPlaceholderBefore(a, b, i);
    ReplaceAllSkipPrefix(a, ph + b, ph, n);
    ReplaceAllLeading(ph, b, n);
    NoPlaceholderAfter(a, b, i);
    ReplaceAllAbsent(b, ph, n);
    assert a + ph + b == a + (ph + b);
    assert a + (n + b) == a + n + b;
  }

  lemma {:induction false} RenameDescendingInContext(a: string, b: string, tps: seq<TemplateParam>, i: nat, hi: nat)
    requires i < hi <= |tps|
    requires StemOnlyAt(a + Placeholder(i) + b, |a|)
    requires |b| == 0 || !('0' <= b[0] <= '9')
    requires !IsSubstring(PlaceholderStem, a + tps[i].name + b)
    ensures RenameDescending(a + Placeholder(i) + b, tps, hi) == a + tps[i].name + b
    decreases hi
  {
    var s := a + Placeholder(i) + b;
    if hi - 1 == i {
      ReplaceOwnInContext(a, b, i, tps[i].name);
      RenameDescendingNoStem(a + tps[i].name + b, tps, i);
    } else {
      ToDecimalLengthMonotone(i, hi - 1);
      OtherAbsentInContext(a, b, i, hi - 1);
      ReplaceAllAbsent(s, Placeholder(hi - 1), tps[hi - 1].name);
      RenameDescendingInContext(a, b, tps, i, hi - 1);
    }
  }

  /** A placeholder inside a signature or type name, such as the one in
      `std::vector<type-parameter-0-0> &`, becomes its parameter's name and the text around
      it is kept. The text must hold no other stem, must not continue the placeholder with
      a digit, and must not form a stem around the inserted name. */
  lemma {:induction false} FixTypeParamsInContext(a: string, b: string, tps: seq<TemplateParam>, i: nat)
    requires i < |tps|
    requires StemOnlyAt(a + Placeholder(i) + b, |a|)
    requires |b| == 0 || !('0' <= b[0] <= '9')
    requires !IsSubstring(PlaceholderStem, a + tps[i].name + b)
    ensures FixTypeParams(a + Placeholder(i) + b, tps) == a + tps[i].name + b
  {
    RenameDescendingInContext(a, b, tps, i, |tps|);
  }

  /** The source slices `proto` at the two offsets; `substr` demands both be within it. */
  predicate OffsetsInRange(f: FunctionSymbol) {
    f.postTemplate <= |f.proto| && f.nameStart <= |f.proto|
  }

  predicate AllOffsetsInRange(fns: map<SymbolID, FunctionSymbol>) {
    forall k :: k in fns ==> OffsetsInRange(fns[k])
  }

  /** `proto.substr(0, postTemplate)`. */
  function TemplatePart(f: FunctionSymbol): string
    requires OffsetsInRange(f)
  {
    f.proto[..f.postTemplate]
  }

  /** `proto.substr(postTemplate, nameStart - postTemplate)`: the length is an unsigned
      difference, so when `nameStart < postTemplate` it wraps to a huge count and
      `substr` takes everything from `postTemplate` to the end. */
  function PreNamePart(f: FunctionSymbol): string
    requires OffsetsInRange(f)
  {
    if f.postTemplate <= f.nameStart then f.proto[f.postTemplate..f.nameStart]
    else f.proto[f.postTemplate..]
  }

  /** `proto.substr(nameStart)`. */
  function RestPart(f: FunctionSymbol): string
    requires OffsetsInRange(f)
  {
    f.proto[f.nameStart..]
  }

  /** The parameter loop: type name and default value are rewritten, the type ID is not. */
  function FixParam(p: FunctionParam, tps: seq<TemplateParam>): FunctionParam {
    p.(paramType := p.paramType.(name := FixTypeParams(p.paramType.name, tps)),
       defaultValue := FixTypeParams(p.defaultValue, tps))
  }

  /** One member function `f` after the loop body of `updateMemberFunctions` ran for it
      with its record's template parameters `tps`. */
  function FixFunction(f: FunctionSymbol, tps: seq<TemplateParam>): (g: FunctionSymbol)
    requires OffsetsInRange(f)
    ensures OffsetsInRange(g)
    ensures f.postTemplate <= f.nameStart ==> g.postTemplate <= g.nameStart
    ensures g == f.(proto := g.proto, name := g.name, postTemplate := g.postTemplate,
                    nameStart := g.nameStart, params := g.params)
    ensures |g.params| == |f.params|
    ensures forall i :: 0 <= i < |f.params| ==>
              g.params[i].name == f.params[i].name && g.params[i].paramType.id == f.params[i].paramType.id
  {
    var t := FixTypeParams(TemplatePart(f), tps);
    var p := FixTypeParams(PreNamePart(f), tps);
    var r := FixTypeParams(RestPart(f), tps);
    var n := FixTypeParams(f.name, tps);
    var h := if t + p + r != f.proto
             then f.(proto := t + p + r, name := n, postTemplate := |t|, nameStart := |t| + |p|)
             else f;
    h.(params := seq(|f.params|, i requires 0 <= i < |f.params| => FixParam(f.params[i], tps)))
  }

  /** The three parts reassemble the declaration when the offsets are ordered. */
  lemma PartsReassemble(f: FunctionSymbol)
    requires OffsetsInRange(f) && f.postTemplate <= f.nameStart
    ensures TemplatePart(f) + PreNamePart(f) + RestPart(f) == f.proto
  {
  }

  /** After a rewrite the new offsets delimit exactly the rewritten parts, and the name is
      rewritten too; when the declaration comes out unchanged, so do its name and offsets. */
  lemma FixFunctionOffsets(f: FunctionSymbol, tps: seq<TemplateParam>)
    requires OffsetsInRange(f)
    ensures var g := FixFunction(f, tps);
            if g.proto != f.proto then
              && g.proto[..g.postTemplate] == FixTypeParams(TemplatePart(f), tps)
              && g.proto[g.postTemplate..g.nameStart] == FixTypeParams(PreNamePart(f), tps)
              && g.proto[g.nameStart..] == FixTypeParams(RestPart(f), tps)
              && g.name == FixTypeParams(f.name, tps)
            else
              g.name == f.name && g.postTemplate == f.postTemplate && g.nameStart == f.nameStart
  {
    var t := FixTypeParams(TemplatePart(f), tps);
    var p := FixTypeParams(PreNamePart(f), tps);
    var r := FixTypeParams(RestPart(f), tps);
    var g := FixFunction(f, tps);
    if g.proto != f.proto {
      assert g.proto == t + p + r;
      assert (t + p + r)[..|t|] == t;
      assert (t + p + r)[|t|..|t| + |p|] == p;
      assert (t + p + r)[|t| + |p|..] == r;
    }
  }

  /** A declaration with ordered offsets and no placeholder keeps its text, name and offsets. */
  lemma FixFunctionNoPlaceholder(f: FunctionSymbol, tps: seq<TemplateParam>)
    requires OffsetsInRange(f) && f.postTemplate <= f.nameStart
    requires !IsSubstring(PlaceholderStem, f.proto)
    ensures var g := FixFunction(f, tps);
            g.proto == f.proto && g.name == f.name && g.postTemplate == f.postTemplate && g.nameStart == f.nameStart
  {
    SubstringOfSlice(PlaceholderStem, f.proto, 0, f.postTemplate);
    SubstringOfSlice(PlaceholderStem, f.proto, f.postTemplate, f.nameStart);
    SubstringOfSlice(PlaceholderStem, f.proto, f.nameStart, |f.proto|);
    assert f.proto[f.nameStart..|f.proto|] == RestPart(f);
    FixTypeParamsNoPlaceholder(TemplatePart(f), tps);
    FixTypeParamsNoPlaceholder(PreNamePart(f), tps);
    FixTypeParamsNoPlaceholder(RestPart(f), tps);
    PartsReassemble(f);
  }

  /** The body of `updateMemberFunctions` for one function, with its parameter loop. */
  method FixedFunction(f: FunctionSymbol, tps: seq<TemplateParam>) returns (g: FunctionSymbol)
    requires OffsetsInRange(f)
    ensures g == FixFunction(f, tps)
  {
    var templatePart := f.proto[..f.postTemplate];
    var preNamePart := if f.postTemplate <= f.nameStart then f.proto[f.postTemplate..f.nameStart]
                       else f.proto[f.postTemplate..];
    var restPart := f.proto[f.nameStart..];
    var name := f.name;
    templatePart := FixTypeParam(templatePart, tps);
    preNamePart := FixTypeParam(preNamePart, tps);
    restPart := FixTypeParam(restPart, tps);
    name := FixTypeParam(name, tps);
    var newProto := templatePart + preNamePart + restPart;
    g := f;
    if newProto != f.proto {
      g := g.(proto := templatePart + preNamePart + restPart, name := name,
              postTemplate := |templatePart|, nameStart := |templatePart| + |preNamePart|);
    }
    var params := f.params;
    for i := 0 to |params|
      invariant |params| == |f.params|
      invariant forall j :: 0 <= j < i ==> params[j] == FixParam(f.params[j], tps)
      invariant forall j :: i <= j < |params| ==> params[j] == f.params[j]
    {
      var param := params[i];
      var typeName := FixTypeParam(param.paramType.name, tps);
      var defaultValue := FixTypeParam(param.defaultValue, tps);
      params := params[i := param.(paramType := param.paramType.(name := typeName), defaultValue := defaultValue)];
    }
    g := g.(params := params);
  }

  /** The loop over one record's `methodIDs`, in order: IDs absent from the function table
      are skipped, the others are rewritten with the record's template parameters. */
  function FixMethods(fns: map<SymbolID, FunctionSymbol>, ids: seq<SymbolID>, tps: seq<TemplateParam>)
    : (r: map<SymbolID, FunctionSymbol>)
    requires AllOffsetsInRange(fns)
    ensures AllOffsetsInRange(r)
    ensures r.Keys == fns.Keys
    ensures forall k :: k in r ==> r[k].ID == fns[k].ID
    ensures forall k :: k in fns && k !in ids ==> r[k] == fns[k]
    decreases |ids|
  {
    if |ids| == 0 then fns
    else
      var prev := FixMethods(fns, ids[..|ids| - 1], tps);
      var id := ids[|ids| - 1];
      if id in prev then prev[id := FixFunction(prev[id], tps)] else prev
  }

  /** The outer loop of `updateMemberFunctions`, visiting the records keyed by `order`. */
  function FixRecords(fns: map<SymbolID, FunctionSymbol>, recs: map<SymbolID, RecordSymbol>, order: seq<SymbolID>)
    : (r: map<SymbolID, FunctionSymbol>)
    requires AllOffsetsInRange(fns)
    requires forall i :: 0 <= i < |order| ==> order[i] in recs
    ensures AllOffsetsInRange(r)
    ensures r.Keys == fns.Keys
    ensures forall k :: k in r ==> r[k].ID == fns[k].ID
    ensures forall k :: k in fns && (forall i :: 0 <= i < |order| ==> k !in recs[order[i]].methodIDs) ==>
              r[k] == fns[k]
    decreases |order|
  {
    if |order| == 0 then fns
    else
      var c := recs[order[|order| - 1]];
      FixMethods(FixRecords(fns, recs, order[..|order| - 1]), c.methodIDs, c.templateParams)
  }

  /** A method a record lists exactly once, and that the function table holds, is rewritten
      with the record's template parameters. */
  lemma {:induction false} FixMethodsListedOnce(fns: map<SymbolID, FunctionSymbol>, ids: seq<SymbolID>,
                                                tps: seq<TemplateParam>, j: nat)
    requires AllOffsetsInRange(fns)
    requires j < |ids| && ids[j] in fns
    requires forall q :: 0 <= q < |ids| && q != j ==> ids[q] != ids[j]
    ensures FixMethods(fns, ids, tps)[ids[j]] == FixFunction(fns[ids[j]], tps)
    decreases |ids|
  {
    var n := |ids| - 1;
    var front := ids[..n];
    var id := ids[j];
    var prev := FixMethods(fns, front, tps);
    assert id in prev;
    if j == n {
      forall q | 0 <= q < n ensures front[q] != id {
        assert front[q] == ids[q];
      }
      assert prev[id] == fns[id];
      assert FixMethods(fns, ids, tps) == prev[id := FixFunction(prev[id], tps)];
    } else {
      assert front[j] == id;
      forall q | 0 <= q < n && q != j ensures front[q] != id {
        assert front[q] == ids[q];
      }
      FixMethodsListedOnce(fns, front, tps, j);
      assert ids[n] != id;
      assert FixMethods(fns, ids, tps)[id] == prev[id];
    }
  }

  /** A function that exactly one visited record lists, and lists once, ends up rewritten
      with that record's template parameters, whatever the visiting order. */
  lemma {:induction false} FixRecordsListedOnce(fns: map<SymbolID, FunctionSymbol>, recs: map<SymbolID, RecordSymbol>,
                                                order: seq<SymbolID>, i: nat, j: nat)
    requires AllOffsetsInRange(fns)
    requires forall q :: 0 <= q < |order| ==> order[q] in recs
    requires i < |order| && j < |recs[order[i]].methodIDs|
    requires recs[order[i]].methodIDs[j] in fns
    requires forall q :: 0 <= q < |recs[order[i]].methodIDs| && q != j ==>
               recs[order[i]].methodIDs[q] != recs[order[i]].methodIDs[j]
    requires forall q :: 0 <= q < |order| && q != i ==> recs[order[i]].methodIDs[j] !in recs[order[q]].methodIDs
    ensures var c := recs[order[i]];
            FixRecords(fns, recs, order)[c.methodIDs[j]] == FixFunction(fns[c.methodIDs[j]], c.templateParams)
    decreases |order|
  {
    var n := |order| - 1;
    var front := order[..n];
    var c := recs[order[i]];
    var id := c.methodIDs[j];
    var prev := FixRecords(fns, recs, front);
    if i == n {
      forall q | 0 <= q < |front| ensures id !in recs[front[q]].methodIDs {
        assert front[q] == order[q];
      }
      FixMethodsListedOnce(prev, c.methodIDs, c.templateParams, j);
    } else {
      assert front[i] == order[i];
      forall q | 0 <= q < |front| && q != i ensures id !in recs[front[q]].methodIDs {
        assert front[q] == order[q];
      }
      FixRecordsListedOnce(fns, recs, front, i, j);
      assert id !in recs[order[n]].methodIDs;
    }
  }

  /** Visiting one more record rewrites its methods on top of the earlier visits. */
  lemma FixRecordsSnoc(fns: map<SymbolID, FunctionSymbol>, recs: map<SymbolID, RecordSymbol>,
                       order: seq<SymbolID>, k: SymbolID)
    requires AllOffsetsInRange(fns)
    requires forall i :: 0 <= i < |order| ==> order[i] in recs
    requires k in recs
    ensures FixRecords(fns, recs, order + [k])
            == FixMethods(FixRecords(fns, recs, order), recs[k].methodIDs, recs[k].templateParams)
  {
    assert (order + [k])[..|order|] == order;
  }

  /** The inner loop of `updateMemberFunctions` for record `c`. */
  method FixRecordMethods(fns: map<SymbolID, FunctionSymbol>, c: RecordSymbol)
    returns (r: map<SymbolID, FunctionSymbol>)
    requires AllOffsetsInRange(fns)
    ensures r == FixMethods(fns, c.methodIDs, c.templateParams)
  {
    r := fns;
    for i := 0 to |c.methodIDs|
      invariant r == FixMethods(fns, c.methodIDs[..i], c.templateParams)
    {
      assert c.methodIDs[..i + 1][..i] == c.methodIDs[..i];
      var symbol := c.methodIDs[i];
      if symbol !in r {
        continue;
      }
      var f := r[symbol];
      var g := FixedFunction(f, c.templateParams);
      r := r[symbol := g];
    }
    assert c.methodIDs[..|c.methodIDs|] == c.methodIDs;
  }

  /** `updateMemberFunctions`: rewrite the template-parameter placeholders in the members
      of every record. The records are visited in an unspecified order, returned as
      `order`; only the function table changes. */
  method UpdateMemberFunctions(index: Index) returns (ghost order: seq<SymbolID>)
    requires index.Valid()
    requires AllOffsetsInRange(index.functions.entries)
    modifies index
    ensures index.Valid()
    ensures AllOffsetsInRange(index.functions.entries)
    ensures Distinct(order) && forall k :: k in order <==> k in old(index.records.entries)
    ensures index.Value() == old(index.Value()).(functions := old(index.functions).(
              entries := FixRecords(old(index.functions.entries), old(index.records.entries), order)))
  {
    var ix := index.Value();
    var recs := ix.records.entries;
    var fns := ix.functions.entries;
    var todo := recs.Keys;
    order := [];
    while todo != {}
      invariant index.Value() == ix
      invariant todo <= recs.Keys
      invariant Distinct(order)
      invariant forall k :: k in order <==> k in recs && k !in todo
      invariant fns == FixRecords(ix.functions.entries, recs, order)
      decreases |todo|
    {
      var k :| k in todo;
      var c := recs[k];
      FixRecordsSnoc(ix.functions.entries, recs, order, k);
      fns := FixRecordMethods(fns, c);
      order := order + [k];
      todo := todo - {k};
    }
    index.functions := index.functions.(entries := fns);
    assert index.Value() == ix.(functions := ix.functions.(entries := fns));
  }

  /** A function no record lists among its methods comes out of the pass unchanged. */
  lemma UpdateMemberFunctionsUnlisted(fns: map<SymbolID, FunctionSymbol>, recs: map<SymbolID, RecordSymbol>,
                                      order: seq<SymbolID>, id: SymbolID)
    requires AllOffsetsInRange(fns)
    requires forall i :: 0 <= i < |order| ==> order[i] in recs
    requires id in fns && forall k :: k in recs ==> id !in recs[k].methodIDs
    ensures FixRecords(fns, recs, order)[id] == fns[id]
  {
  }

  // ---------------------------------------------------------------- pruneMethods

  /** A member function whose owning record was filtered out and is not in the index. */
  predicate IsOrphan(f: FunctionSymbol, records: Database<RecordSymbol>) {
    f.isRecordMember && !records.Contains(f.parentNamespaceID)
  }

  /** The function table without the orphans. */
  function PrunedFunctions(fns: map<SymbolID, FunctionSymbol>, records: Database<RecordSymbol>)
    : (r: map<SymbolID, FunctionSymbol>)
    ensures forall k :: k in r ==> !IsOrphan(r[k], records)
    ensures forall k :: k in fns && !IsOrphan(fns[k], records) ==> k in r && r[k] == fns[k]
    ensures forall k :: k in r ==> k in fns
  {
    map k | k in fns && !IsOrphan(fns[k], records) :: fns[k]
  }

  /** The first loop of `pruneMethods`: the keys of the orphans, each once. */
  method CollectOrphans(fns: map<SymbolID, FunctionSymbol>, records: Database<RecordSymbol>)
    returns (toBePruned: seq<SymbolID>)
    ensures Distinct(toBePruned)
    ensures forall k :: k in toBePruned <==> k in fns && IsOrphan(fns[k], records)
  {
    toBePruned := [];
    var todo := fns.Keys;
    while todo != {}
      invariant todo <= fns.Keys
      invariant Distinct(toBePruned)
      invariant forall k :: k in toBePruned <==> k in fns && k !in todo && IsOrphan(fns[k], records)
      decreases |todo|
    {
      var k :| k in todo;
      var v := fns[k];
      if v.isRecordMember && !records.Contains(v.parentNamespaceID) {
        toBePruned := toBePruned + [k];
      }
      todo := todo - {k};
    }
  }

  /** `pruneMethods`: erase every member function whose record is not in the index. */
  method PruneMethods(index: Index)
    requires index.Valid()
    modifies index
    ensures index.Valid()
    ensures index.Value() == old(index.Value()).(functions := old(index.functions).(
              entries := PrunedFunctions(old(index.functions.entries), old(index.records))))
  {
    var ix := index.Value();
    var toBePruned := CollectOrphans(ix.functions.entries, ix.records);
    var fns := ix.functions.entries;
    for i := 0 to |toBePruned|
      invariant fns == map k | k in ix.functions.entries && k !in toBePruned[..i] :: ix.functions.entries[k]
    {
      assert forall k :: k in toBePruned[..i + 1] <==> k in toBePruned[..i] || k == toBePruned[i];
      fns := fns - {toBePruned[i]};
    }
    assert toBePruned[..|toBePruned|] == toBePruned;
    index.functions := index.functions.(entries := fns);
    assert index.Value() == ix.(functions := ix.functions.(entries := fns));
  }

  /** Pruning twice removes nothing more: the records table is not touched, so no survivor
      becomes an orphan. */
  lemma PrunedFunctionsIdempotent(fns: map<SymbolID, FunctionSymbol>, records: Database<RecordSymbol>)
    ensures PrunedFunctions(PrunedFunctions(fns, records), records) == PrunedFunctions(fns, records)
  {
  }

  // ---------------------------------------------------------------- pruneTypeRefs

  /** The `haveId` lambda: the ID names a record, an enum or an alias. */
  predicate HaveID(ix: IndexValue, id: SymbolID) {
    ix.records.Contains(id) || ix.enums.Contains(id) || ix.aliases.Contains(id)
  }

  /** A type reference after the pass: an ID that names nothing is reset to the empty ID. */
  function PruneRef(ix: IndexValue, t: TypeRef): (r: TypeRef)
    ensures r.name == t.name
    ensures r.id == EmptyID || HaveID(ix, r.id)
    ensures HaveID(ix, t.id) ==> r == t
  {
    if HaveID(ix, t.id) == false then t.(id := EmptyID) else t
  }

  function PruneParam(ix: IndexValue, p: FunctionParam): FunctionParam {
    p.(paramType := PruneRef(ix, p.paramType))
  }

  function PruneVar(ix: IndexValue, v: MemberVariable): MemberVariable {
    v.(varType := PruneRef(ix, v.varType))
  }

  function PruneFunctionRefs(ix: IndexValue, f: FunctionSymbol): FunctionSymbol {
    f.(returnType := PruneRef(ix, f.returnType),
       params := seq(|f.params|, i requires 0 <= i < |f.params| => PruneParam(ix, f.params[i])))
  }

  function PruneRecordRefs(ix: IndexValue, c: RecordSymbol): RecordSymbol {
    c.(vars := seq(|c.vars|, i requires 0 <= i < |c.vars| => PruneVar(ix, c.vars[i])))
  }

  function PruneAliasRefs(ix: IndexValue, a: AliasSymbol): AliasSymbol {
    a.(target := PruneRef(ix, a.target))
  }

  /** The index `pruneTypeRefs` leaves behind. `haveId` reads only the keys and claims of
      three tables, which the pass does not change, so every lookup sees `ix`. */
  function PruneTypeRefsSpec(ix: IndexValue): IndexValue {
    var fns := ix.functions.entries;
    var recs := ix.records.entries;
    var als := ix.aliases.entries;
    ix.(functions := ix.functions.(entries := map k | k in fns :: PruneFunctionRefs(ix, fns[k])),
        records := ix.records.(entries := map k | k in recs :: PruneRecordRefs(ix, recs[k])),
        aliases := ix.aliases.(entries := map k | k in als :: PruneAliasRefs(ix, als[k])))
  }

  /** A reference that names a record, an enum or an alias, or is empty. */
  predicate Resolved(ix: IndexValue, t: TypeRef) {
    t.id == EmptyID || HaveID(ix, t.id)
  }

  /** No reference in the index points at a symbol the index lacks. */
  predicate NoDanglingRefs(ix: IndexValue) {
    && (forall k :: k in ix.functions.entries ==>
          && Resolved(ix, ix.functions.entries[k].returnType)
          && forall p :: p in ix.functions.entries[k].params ==> Resolved(ix, p.paramType))
    && (forall k :: k in ix.records.entries ==>
          forall v :: v in ix.records.entries[k].vars ==> Resolved(ix, v.varType))
    && (forall k :: k in ix.aliases.entries ==> Resolved(ix, ix.aliases.entries[k].target))
  }

  /** The parameter loop of `pruneTypeRefs` for one function, after its return type. */
  method PruneFunction(ix: IndexValue, f: FunctionSymbol) returns (g: FunctionSymbol)
    ensures g == PruneFunctionRefs(ix, f)
  {
    g := f;
    if HaveID(ix, g.returnType.id) == false {
      g := g.(returnType := g.returnType.(id := EmptyID));
    }
    var params := g.params;
    for i := 0 to |params|
      invariant |params| == |f.params|
      invariant forall j :: 0 <= j < i ==> params[j] == PruneParam(ix, f.params[j])
      invariant forall j :: i <= j < |params| ==> params[j] == f.params[j]
    {
      if HaveID(ix, params[i].paramType.id) == false {
        params := params[i := params[i].(paramType := params[i].paramType.(id := EmptyID))];
      }
    }
    g := g.(params := params);
  }

  /** The member-variable loop of `pruneTypeRefs` for one record. */
  method PruneRecord(ix: IndexValue, c: RecordSymbol) returns (d: RecordSymbol)
    ensures d == PruneRecordRefs(ix, c)
  {
    var vars := c.vars;
    for i := 0 to |vars|
      invariant |vars| == |c.vars|
      invariant forall j :: 0 <= j < i ==> vars[j] == PruneVar(ix, c.vars[j])
      invariant forall j :: i <= j < |vars| ==> vars[j] == c.vars[j]
    {
      if HaveID(ix, vars[i].varType.id) == false {
        vars := vars[i := vars[i].(varType := vars[i].varType.(id := EmptyID))];
      }
    }
    d := c.(vars := vars);
  }

  /** The first loop of `pruneTypeRefs`, over the function table. */
  method PruneFunctionTable(ix: IndexValue) returns (fns: map<SymbolID, FunctionSymbol>)
    ensures fns == PruneTypeRefsSpec(ix).functions.entries
  {
    fns := ix.functions.entries;
    var todo := fns.Keys;
    while todo != {}
      invariant todo <= fns.Keys == ix.functions.entries.Keys
      invariant forall k :: k in todo ==> fns[k] == ix.functions.entries[k]
      invariant forall k :: k in fns && k !in todo ==> fns[k] == PruneFunctionRefs(ix, ix.functions.entries[k])
      decreases |todo|
    {
      var k :| k in todo;
      var g := PruneFunction(ix, fns[k]);
      fns := fns[k := g];
      todo := todo - {k};
    }
  }

  /** The second loop of `pruneTypeRefs`, over the record table. */
  method PruneRecordTable(ix: IndexValue) returns (recs: map<SymbolID, RecordSymbol>)
    ensures recs == PruneTypeRefsSpec(ix).records.entries
  {
    recs := ix.records.entries;
    var todo := recs.Keys;
    while todo != {}
      invariant todo <= recs.Keys == ix.records.entries.Keys
      invariant forall k :: k in todo ==> recs[k] == ix.records.entries[k]
      invariant forall k :: k in recs && k !in todo ==> recs[k] == PruneRecordRefs(ix, ix.records.entries[k])
      decreases |todo|
    {
      var k :| k in todo;
      var d := PruneRecord(ix, recs[k]);
      recs := recs[k := d];
      todo := todo - {k};
    }
  }

  /** The third loop of `pruneTypeRefs`, over the alias table. */
  method PruneAliasTable(ix: IndexValue) returns (als: map<SymbolID, AliasSymbol>)
    ensures als == PruneTypeRefsSpec(ix).aliases.entries
  {
    als := ix.aliases.entries;
    var todo := als.Keys;
    while todo != {}
      invariant todo <= als.Keys == ix.aliases.entries.Keys
      invariant forall k :: k in todo ==> als[k] == ix.aliases.entries[k]
      invariant forall k :: k in als && k !in todo ==> als[k] == PruneAliasRefs(ix, ix.aliases.entries[k])
      decreases |todo|
    {
      var k :| k in todo;
      var v := als[k];
      if HaveID(ix, v.target.id) == false {
        v := v.(target := v.target.(id := EmptyID));
      }
      als := als[k := v];
      todo := todo - {k};
    }
  }

  /** `pruneTypeRefs`: reset every type-reference ID that names no record, enum or alias. */
  method PruneTypeRefs(index: Index)
    requires index.Valid()
    modifies index
    ensures index.Valid()
    ensures index.Value() == PruneTypeRefsSpec(old(index.Value()))
  {
    var ix := index.Value();
    var fns := PruneFunctionTable(ix);
    var recs := PruneRecordTable(ix);
    var als := PruneAliasTable(ix);
    index.functions := index.functions.(entries := fns);
    index.records := index.records.(entries := recs);
    index.aliases := index.aliases.(entries := als);
    assert index.Value() == PruneTypeRefsSpec(ix);
  }

  /** After the pass no reference dangles, and the tables `haveId` consults keep their keys. */
  lemma PruneTypeRefsResolves(ix: IndexValue)
    ensures var jx := PruneTypeRefsSpec(ix);
            && NoDanglingRefs(jx)
            && (forall id :: HaveID(jx, id) <==> HaveID(ix, id))
  {
    var jx := PruneTypeRefsSpec(ix);
    assert forall id :: HaveID(jx, id) <==> HaveID(ix, id);
    forall k | k in jx.functions.entries
      ensures forall p :: p in jx.functions.entries[k].params ==> Resolved(jx, p.paramType)
    {
      var ps := jx.functions.entries[k].params;
      forall p | p in ps ensures Resolved(jx, p.paramType) {
        var i :| 0 <= i < |ps| && ps[i] == p;
      }
    }
    forall k | k in jx.records.entries
      ensures forall v :: v in jx.records.entries[k].vars ==> Resolved(jx, v.varType)
    {
      var vs := jx.records.entries[k].vars;
      forall v | v in vs ensures Resolved(jx, v.varType) {
        var i :| 0 <= i < |vs| && vs[i] == v;
      }
    }
  }

  /** Type names never change, and neither does any ID that already named something. */
  lemma PruneTypeRefsKeeps(ix: IndexValue, k: SymbolID)
    requires k in ix.functions.entries
    ensures var f := ix.functions.entries[k];
            var g := PruneTypeRefsSpec(ix).functions.entries[k];
            && g.returnType.name == f.returnType.name
            && (HaveID(ix, f.returnType.id) ==> g.returnType == f.returnType)
            && |g.params| == |f.params|
            && forall i :: 0 <= i < |f.params| ==>
                 && g.params[i].paramType.name == f.params[i].paramType.name
                 && (HaveID(ix, f.params[i].paramType.id) ==> g.params[i] == f.params[i])
  {
  }

  /** Running the pass twice is the same as running it once. */
  lemma PruneTypeRefsIdempotent(ix: IndexValue)
    ensures PruneTypeRefsSpec(PruneTypeRefsSpec(ix)) == PruneTypeRefsSpec(ix)
  {
    var jx := PruneTypeRefsSpec(ix);
    assert forall id :: HaveID(jx, id) <==> HaveID(ix, id);
    forall t: TypeRef ensures PruneRef(jx, PruneRef(ix, t)) == PruneRef(ix, t) { }
    var kx := PruneTypeRefsSpec(jx);
    forall k | k in jx.functions.entries ensures kx.functions.entries[k] == jx.functions.entries[k] {
      assert kx.functions.entries[k].params == jx.functions.entries[k].params;
    }
    forall k | k in jx.records.entries ensures kx.records.entries[k] == jx.records.entries[k] {
      assert kx.records.entries[k].vars == jx.records.entries[k].vars;
    }
    assert kx.functions.entries == jx.functions.entries;
    assert kx.records.entries == jx.records.entries;
    assert kx.aliases.entries == jx.aliases.entries;
  }
}
