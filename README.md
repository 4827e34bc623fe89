# hdoc symbol indexer, modelled in Dafny

hdoc is a documentation generator for C++. Its indexer walks the clang AST of every
translation unit. Five matchers (function, record, enum, namespace, using) turn the
declarations they accept into symbols and store each one, at most once, in an `Index`.
The index has one table per symbol kind, each keyed by `SymbolID`. Once traversal is
over, five resolver passes rewrite the index in place:

- namespaces are linked to their children;
- inheritance clauses are appended to record prototypes;
- `type-parameter-0-i` placeholders in member-function signatures are renamed;
- member functions of unindexed records are pruned;
- type references that point nowhere are reset.

This project models those matchers and passes and proves properties about them.

## Project layout

- `util.dfy` (`Util`):
  - `Option`;
  - `Distinct`;
  - `FilterMap`, the shape of a loop that `continue`s past some items and appends the rest.
- `strings.dfy` (`Strings`): the string operations the core uses.
  - substring search;
  - prefix tests;
  - `fmt::join`;
  - `std::to_string`;
  - `hdoc::utils::replaceAll`;
  - the `std::regex_replace(s, std::regex("<.*>"), r)` rewriting, specified directly: greedy, per line, left to right.
- `symbols.dfy` (`Symbols`): the symbol records. `SymbolID` is a 64-bit unsigned newtype.
- `databases.dfy` (`Databases`):
  - `Database<T>`, which holds entries, claimed IDs and a match counter;
  - the contains/reserve/update protocol (`Commit`);
  - the `Index` class, whose five tables the passes and matchers reassign.
- `decls.dfy` (`Decls`): the abstract clang declaration the matchers observe. Every clang query is a field, and so is every result of a helper whose code is not shown.
- `matcher_utils.dfy` (`MatcherUtils`):
  - `isEnclosingNamespaceInList` (a loop over the parent chain);
  - `getTypeSymbolID`;
  - `templateArgsToStrings` (a loop with a cyclic fallback letter).
- `matcher_filters.dfy` (`MatcherFilters`): `shouldBeIgnored` and the node pattern each matcher's `getMatcher()` registers.
- One file per matcher:
  - `function_matcher.dfy`, `record_matcher.dfy`, `enum_matcher.dfy`, `namespace_matcher.dfy` and `using_matcher.dfy`;
  - each has a pure `Step` on the index value, an imperative `Run` that follows the source statement by statement and is proved equal to `Step`, and the properties.
- `indexer.dfy` (`Indexer`): the five resolver passes. Each is a method on `Index` proved against a specification function, with lemmas about that function.
- `traversal.dfy` (`Traversal`): the matchers in registration order (src/indexer/Indexer.cpp:35-45), run over a sequential stream of declarations.

## Model

| member | source | states |
|---|---|---|
| Databases.Commit | src/indexer/Matchers.cpp:92-98 | The contains/reserve/update protocol. The ID ends up present with nothing claimed. A present ID leaves the entries unchanged; an absent one adds exactly that entry. |
| Databases.CommitTwice | src/indexer/Matchers.cpp:92-98 | The first writer wins: a second commit under the same ID is a no-op, whatever its content. |
| Indexer.CollectChildren | src/indexer/Indexer.cpp:67-86 | One inner loop of `resolveNamespaces`. It returns each child ID once, and an ID is returned iff its entry's `parentNamespaceID` is the namespace's `ID` (`isChild`, src/indexer/Indexer.cpp:18-20). |
| Indexer.LinkNamespace | src/indexer/Indexer.cpp:65-87 | The body of the outer loop. Each of the four child lists is the old list followed by exactly the children of that kind. |
| Indexer.LinkedFromEmpty | src/indexer/Indexer.cpp:65-87 | Starting from empty lists, each list holds exactly the child IDs, one per child, and its length is the number of children. |
| Indexer.LinkedStable | src/indexer/Indexer.cpp:65-87 | Linking depends only on the other tables and on the namespaces' keys and parents. So namespaces linked earlier in the loop do not affect later ones. |
| Indexer.ResolveNamespaces | src/indexer/Indexer.cpp:63-89 | Every namespace is linked against the index as it was before the pass. The functions, records, enums and aliases tables are unchanged, and so are the namespace keys, counter and every namespace field except the four lists. |
| Indexer.BaseEntries | src/indexer/Indexer.cpp:102-119 | One entry per base, in order: the access prefix (`public `, `private `, `protected `, empty for none) followed by the base name. |
| Indexer.ClauseStep | src/indexer/Indexer.cpp:97-121 | One iteration of the base loop extends the clause by the base's entry, with `, ` before it when `count > 0`. |
| Indexer.AppendInheritance | src/indexer/Indexer.cpp:94-122 | The loop with its `count` variable yields `InheritanceProto`: the proto unchanged without bases, otherwise proto + ` : ` + the `, `-join of the entries. |
| Indexer.AppendAllInheritance | src/indexer/Indexer.cpp:91-124 | The loop over the record table gives every record its `InheritanceProto` and keeps every other field and every key. |
| Indexer.UpdateRecordNames | src/indexer/Indexer.cpp:91-124 | Every record's proto becomes its `InheritanceProto`, and nothing else in the index changes. |
| Indexer.InheritanceProtoNoBases | src/indexer/Indexer.cpp:94 | A record without bases keeps its proto. |
| Indexer.InheritanceProtoExtends | src/indexer/Indexer.cpp:96-119 | The pass only appends to the proto. |
| Indexer.InheritanceProtoSnoc | src/indexer/Indexer.cpp:97-121 | One more base appends `, ` and its entry. |
| Indexer.InheritanceProtoExample | src/indexer/Indexer.cpp:103-117 | Public, unspecified and private bases give `proto : public Base1, Base2, private Base3`. |
| Indexer.PlaceholderPrefixCollision | src/indexer/Indexer.cpp:140 | `type-parameter-0-1` is a prefix of `type-parameter-0-10`: the second placeholder followed by `0` is the eleventh. |
| Indexer.PlaceholderNotInOther | src/indexer/Indexer.cpp:140 | Two different placeholders never occur inside one another when the first index has no more digits than the second. |
| Indexer.FixTypeParamsAsWrittenRenames | src/indexer/Indexer.cpp:138-142 | With the loop as written (i = 0, 1, … upward), each of the placeholders `type-parameter-0-0` … `type-parameter-0-9` becomes its own parameter's name, when no name contains the stem. |
| Indexer.FixTypeParamsAsWrittenCollision | src/indexer/Indexer.cpp:138-142 | With the loop as written and eleven or more parameters, `type-parameter-0-10` becomes the second parameter's name followed by `0`. |
| Indexer.FixTypeParam | src/indexer/Indexer.cpp:138-142 | The `fixTypeParam` loop, run from the largest index down, equals the corrected renaming `FixTypeParams`. |
| Indexer.FixTypeParamsRenames | src/indexer/Indexer.cpp:138-142 | With the corrected order, a text that is exactly the placeholder `type-parameter-0-i`, for any number of parameters, becomes the name of parameter i, when no name contains the stem. |
| Indexer.FixTypeParamsInContext | src/indexer/Indexer.cpp:138-160 | With the corrected order, a placeholder `type-parameter-0-i` inside a signature or type name (text `a` before it, `b` after it) becomes the name of parameter i and `a` and `b` are kept, for any number of parameters, when the text holds no other stem, `b` does not start with a digit and the result holds no stem. |
| Indexer.FixTypeParamsNoPlaceholder | src/indexer/Indexer.cpp:138-142 | Text without the placeholder stem is unchanged. |
| Indexer.FixFunction | src/indexer/Indexer.cpp:131-160 | The rewrite of one member function keeps its offsets in range and ordered offsets ordered. It changes only `proto`, `name`, the offsets and the parameters. Parameter count, names and type IDs are untouched. |
| Indexer.PartsReassemble | src/indexer/Indexer.cpp:133-135 | With ordered offsets the three parts reassemble to the proto. |
| Indexer.FixFunctionOffsets | src/indexer/Indexer.cpp:143-155 | When the proto changes, `postTemplate` and `nameStart` delimit exactly the rewritten template, pre-name and rest parts, and the name is rewritten. When it does not change, the name and offsets keep their old values. |
| Indexer.FixFunctionNoPlaceholder | src/indexer/Indexer.cpp:143-155 | A signature without placeholders keeps its proto, name and offsets. |
| Indexer.FixedFunction | src/indexer/Indexer.cpp:131-160 | The loop body, including its loop over parameters, computes `FixFunction`: each parameter's type name and default value get the same renaming. |
| Indexer.FixMethods | src/indexer/Indexer.cpp:128-161 | One record's `methodIDs` loop. The keys and IDs of the function table are unchanged, IDs absent from the table are skipped, and unlisted functions are unchanged. |
| Indexer.FixRecords | src/indexer/Indexer.cpp:127-162 | The loop over all records: the same guarantees for functions listed by no record. |
| Indexer.FixMethodsListedOnce | src/indexer/Indexer.cpp:128-160 | A method the record lists exactly once, and that the function table holds, becomes `FixFunction` of its old entry with the record's template parameters. |
| Indexer.FixRecordsListedOnce | src/indexer/Indexer.cpp:127-162 | A function listed once by exactly one visited record becomes `FixFunction` of its old entry with that record's template parameters, whatever the visiting order. |
| Indexer.FixRecordMethods | src/indexer/Indexer.cpp:128-161 | The imperative `methodIDs` loop with `continue` equals `FixMethods`. |
| Indexer.UpdateMemberFunctions | src/indexer/Indexer.cpp:126-163 | The records are visited once each, in some order, and only the function table changes, to `FixRecords`. Offsets stay in range. |
| Indexer.UpdateMemberFunctionsUnlisted | src/indexer/Indexer.cpp:127-131 | A function no record lists comes out unchanged. |
| Indexer.PrunedFunctions | src/indexer/Indexer.cpp:185-194 | No orphan remains, every non-orphan survives with identical content, and entries are only removed. |
| Indexer.CollectOrphans | src/indexer/Indexer.cpp:185-190 | `toBePruned` holds each orphan once, and only orphans. |
| Indexer.PruneMethods | src/indexer/Indexer.cpp:182-196 | Erasing the collected IDs gives `PrunedFunctions`, and nothing else changes. |
| Indexer.PrunedFunctionsIdempotent | src/indexer/Indexer.cpp:182-196 | Pruning twice equals pruning once. |
| Indexer.PruneRef | src/indexer/Indexer.cpp:199-205 | A reset keeps the name. The result is empty or resolvable, and a resolvable reference is unchanged. |
| Indexer.PruneFunction | src/indexer/Indexer.cpp:204-212 | The loop over one function's parameters computes `PruneFunctionRefs`. |
| Indexer.PruneRecord | src/indexer/Indexer.cpp:216-220 | The loop over one record's variables computes `PruneRecordRefs`. |
| Indexer.PruneFunctionTable | src/indexer/Indexer.cpp:203-213 | The loop over the function table computes the specified table. |
| Indexer.PruneRecordTable | src/indexer/Indexer.cpp:215-221 | The loop over the record table computes the specified table. |
| Indexer.PruneAliasTable | src/indexer/Indexer.cpp:223-227 | The loop over the alias table computes the specified table. |
| Indexer.PruneTypeRefs | src/indexer/Indexer.cpp:198-228 | The pass equals `PruneTypeRefsSpec`. |
| Indexer.PruneTypeRefsResolves | src/indexer/Indexer.cpp:199-227 | Afterwards every return-type, parameter-type, member-variable and alias-target ID is empty or a key of records, enums or aliases. The set of resolvable IDs is unchanged. |
| Indexer.PruneTypeRefsKeeps | src/indexer/Indexer.cpp:203-213 | Type names never change, and an ID that was already resolvable is kept. |
| Indexer.PruneTypeRefsIdempotent | src/indexer/Indexer.cpp:198-228 | Running the pass twice equals running it once. |
| MatcherUtils.IsEnclosingNamespaceInList | src/indexer/Matchers.cpp:15-33 | The parent-chain loop returns true iff some named, non-anonymous enclosing namespace contains some list element as a substring. |
| MatcherUtils.EnclosingNamespaceEmptyList | src/indexer/Matchers.cpp:24-28 | An empty list gives false. |
| MatcherUtils.EnclosingNamespaceSkips | src/indexer/Matchers.cpp:18-22 | Inserting an anonymous namespace or a non-namespace context anywhere in the chain does not change the answer. |
| MatcherUtils.EnclosingNamespaceFound | src/indexer/Matchers.cpp:23-27 | A listed namespace is found at any depth. |
| MatcherUtils.TagOf | src/indexer/Matchers.cpp:41-50 | A tag is found exactly for a tag type, a pointer to a tag or a reference to a tag. |
| MatcherUtils.TypeSymbolIDStripsPointerAndReference | src/indexer/Matchers.cpp:41-63 | `T`, `T*` and `T&` give the same ID: that of the non-specialized template if there is one, else the tag's own. |
| MatcherUtils.TypeSymbolIDNoTag | src/indexer/Matchers.cpp:48-60 | `T**`, `T*&` and tagless types give the empty ID. |
| MatcherUtils.TypeSymbolIDFromTag | src/indexer/Matchers.cpp:41-63 | A non-empty ID always comes from a tag found by `TagOf`. |
| MatcherUtils.FallbackCountIsCount | src/indexer/Matchers.cpp:297-303 | The number of fallback letters used so far is exactly the number of arguments that needed one: those with the `type-parameter-` prefix for which the search found no name. |
| MatcherUtils.FallbackLetter | src/indexer/Matchers.cpp:268-302 | Fallback letters are upper-case. |
| MatcherUtils.FallbackLetters | src/indexer/Matchers.cpp:268-302 | The letters start at `T`, reach `Z` after six steps, wrap to `A`, and cycle with period 26. |
| MatcherUtils.FallbackLetterNext | src/indexer/Matchers.cpp:299-302 | `fallbackName++` with the wrap from past `Z` to `A` is the next letter of the cycle. |
| MatcherUtils.TemplateArgNames | src/indexer/Matchers.cpp:266-313 | One string per argument. |
| MatcherUtils.ArgReplacementOrder | src/indexer/Matchers.cpp:278-296 | The search, case by case: nothing for an argument that is not a type parameter; a non-empty identifier; else a non-empty declaration name; when neither gives a name (an empty identifier included), the record's parameter at the argument's index when in range, and nothing otherwise. |
| MatcherUtils.TemplateArgsToStrings | src/indexer/Matchers.cpp:266-313 | The loop returns `TemplateArgNames`. Each argument with the `type-parameter-` prefix gets the first non-empty name of the search, else the next fallback letter, and the letter advances only when used. Any other argument has `<.*>` replaced by `<...>`. |
| MatcherUtils.TemplateArgNamesAllFallback | src/indexer/Matchers.cpp:297-304 | When every argument needs the fallback, the k-th gets the k-th letter. |
| MatcherFilters.ShouldBeIgnoredCases | src/indexer/Matchers.hpp:21-50 | Ignored iff there are ignore paths, the expansion location is valid, a file entry exists, and either a path occurs in the relative file name or an enclosing namespace is listed. |
| MatcherFilters.ShouldBeIgnoredNeedsPaths | src/indexer/Matchers.hpp:25-29 | With no ignore paths nothing is ignored, whatever the namespace list. |
| MatcherFilters.RecordAndFunctionExclusions | src/indexer/Matchers.hpp:59-92 | An anonymous-namespace ancestor, implicitness, a system header, either instantiation flag or `shouldBeIgnored` excludes a declaration from the record and function matchers. |
| MatcherFilters.CommonExclusions | src/indexer/Matchers.hpp:59-149 | All five matchers reject anonymous-namespace descendants and implicit, system-header and ignored declarations. |
| MatcherFilters.UsingMatcherIgnoresTemplateInstantiation | src/indexer/Matchers.hpp:102-113 | The using matcher's admission does not depend on `isTemplateInstantiation`. |
| MatcherFilters.EnumMatcherIgnoresInstantiation | src/indexer/Matchers.hpp:122-132 | The enum matcher's admission depends on neither instantiation flag. |
| MatcherFilters.NamespaceMatcherIgnoresDefinition | src/indexer/Matchers.hpp:140-149 | The namespace matcher's admission depends on neither the definition flag nor the instantiation flags. |
| FunctionMatcher.ParamSymbol | src/indexer/Matchers.cpp:139-149 | A parameter's type carries the ID given by `getTypeSymbolID`. |
| FunctionMatcher.FunctionTemplateParams | src/indexer/Matchers.cpp:151-171 | No template gives no parameters; otherwise one entry per template parameter. |
| FunctionMatcher.BuildParams | src/indexer/Matchers.cpp:138-149 | The parameter loop builds one `FunctionParam` per parameter, in order. |
| FunctionMatcher.BuildTemplateParams | src/indexer/Matchers.cpp:151-171 | The template-parameter loop builds `FunctionTemplateParams`. |
| FunctionMatcher.Run | src/indexer/Matchers.cpp:66-192 | `run` leaves the index equal to `Step` of the old index. |
| FunctionMatcher.StepCounter | src/indexer/Matchers.cpp:72-82 | Deleted functions and deduction guides return before the counter; every other function bumps it once. Only the functions table changes. |
| FunctionMatcher.StepEntries | src/indexer/Matchers.cpp:84-191 | A function that is uncounted, rejected (ignore list, invalid range, static non-member, anonymous namespace, hidden private) or already present leaves the entries unchanged. Otherwise exactly one entry is added, with `ID` equal to its key. |
| FunctionMatcher.StepIdempotent | src/indexer/Matchers.cpp:92-98 | Running again on the same declaration changes no entry. |
| FunctionMatcher.StepWellKeyed | src/indexer/Matchers.cpp:92-191 | Every table stays keyed by its symbols' IDs. |
| FunctionMatcher.SymbolReturnTypeAndName | src/indexer/Matchers.cpp:178-186 | Constructors and destructors get no return type. Other functions get the printed return type with its symbol ID, and keep their name. |
| FunctionMatcher.CtorNameStripped | src/indexer/Matchers.cpp:184-185 | A constructor's name loses exactly the span from its first `<` to its last `>`. |
| FunctionMatcher.SymbolParams | src/indexer/Matchers.cpp:139-149 | Parameters keep their count, order and names, and their types carry their symbol IDs. |
| RecordMatcher.RecordTemplateParam | src/indexer/Matchers.cpp:423-450 | Each described template parameter keeps its name and pack flag. This is the corrected definition; see Findings. |
| RecordMatcher.TemplateTemplatePackAsWritten | src/indexer/Matchers.cpp:449 | As written, a template template parameter that is not a pack is recorded as a pack. |
| RecordMatcher.RecordTemplateParamCorrected | src/indexer/Matchers.cpp:423-450 | The corrected definition keeps every pack flag and agrees with the as-written one on everything else. |
| RecordMatcher.RecordTemplateParams | src/indexer/Matchers.cpp:422-453 | No described parameters give none; otherwise one entry per parameter. |
| RecordMatcher.CollectMembers | src/indexer/Matchers.cpp:367-397 | The `methods()` and `decls()` loops build `methodIDs` and `aliasIDs` as specified. |
| RecordMatcher.CollectBases | src/indexer/Matchers.cpp:400-414 | The `bases()` loop builds the specified base list. |
| RecordMatcher.BuildTemplateParams | src/indexer/Matchers.cpp:422-453 | The described-parameter loop builds `RecordTemplateParams`. |
| RecordMatcher.CommentOf | src/indexer/Matchers.cpp:496-503 | The paragraph loop keeps the last paragraph, or the empty string if there is none. |
| RecordMatcher.CollectVars | src/indexer/Matchers.cpp:476-537 | The `fields()` loop and the static `decls()` loop build the specified member variables, fields first. |
| RecordMatcher.Run | src/indexer/Matchers.cpp:315-550 | `run` leaves the index equal to `Step` of the old index. |
| RecordMatcher.StepCounter | src/indexer/Matchers.cpp:318-319 | Every record declaration bumps the counter once, and only the records table changes. |
| RecordMatcher.StepEntries | src/indexer/Matchers.cpp:321-549 | A discarded or already-present record leaves the entries unchanged. Discarded means incomplete, invalid range, ignore-listed, anonymous namespace, unnamed without a typedef name, or a specialization not written in source. Otherwise exactly one entry is added under its own ID. |
| RecordMatcher.StepIdempotent | src/indexer/Matchers.cpp:348-354 | Running again on the same declaration changes no entry. |
| RecordMatcher.StepWellKeyed | src/indexer/Matchers.cpp:348-549 | Every table stays keyed by its symbols' IDs. |
| RecordMatcher.UnnamedWithoutTypedefDiscarded | src/indexer/Matchers.cpp:329-339 | An unnamed record without a typedef name is never indexed. |
| RecordMatcher.TypedefNameAdopted | src/indexer/Matchers.cpp:329-364 | An unnamed record adopts its typedef name, with any `Parent::` prefix. |
| RecordMatcher.NestedPrefix | src/indexer/Matchers.cpp:362-364 | A record nested in a record is named `Parent::…`. |
| RecordMatcher.SpecializationSuffix | src/indexer/Matchers.cpp:459-461 | A specialization's name gets `<` + the `, `-join of one name per template argument + `>`. |
| RecordMatcher.BaseRecordsExact | src/indexer/Matchers.cpp:400-414 | The bases are exactly the record-typed base specifiers of a definition. A base in `std` is displayed as `std::Name`. |
| RecordMatcher.MethodIDsExact | src/indexer/Matchers.cpp:367-382 | `methodIDs` holds exactly the kept methods and member function templates. Implicit, ignore-listed, anonymous-namespace and hidden private members are dropped. |
| RecordMatcher.AliasIDsExact | src/indexer/Matchers.cpp:383-396 | `aliasIDs` holds exactly the kept member using declarations, using-shadows and type aliases. |
| RecordMatcher.PrivateMembersHidden | src/indexer/Matchers.cpp:366-541 | With `ignorePrivateMembers`, no private variable and no private method is recorded. |
| RecordMatcher.TemplateParamsDescribed | src/indexer/Matchers.cpp:422-453 | One template parameter per described parameter, in order, with its name and pack flag. |
| EnumMatcher.Members | src/indexer/Matchers.cpp:588-602 | One member per enumerator. |
| EnumMatcher.CommentOf | src/indexer/Matchers.cpp:593-599 | The paragraph loop appends the paragraphs in order. |
| EnumMatcher.BuildMembers | src/indexer/Matchers.cpp:588-602 | The `enumerators()` loop builds the specified members. |
| EnumMatcher.Run | src/indexer/Matchers.cpp:552-612 | `run` leaves the index equal to `Step` of the old index. |
| EnumMatcher.StepCounter | src/indexer/Matchers.cpp:555-556 | Every enum declaration bumps the counter once, and only the enums table changes. |
| EnumMatcher.StepEntries | src/indexer/Matchers.cpp:558-611 | An anonymous, ignore-listed, anonymous-namespace or already-present enum leaves the entries unchanged. Otherwise exactly one entry is added under its own ID. |
| EnumMatcher.StepIdempotent | src/indexer/Matchers.cpp:564-570 | Running again on the same declaration changes no entry. |
| EnumMatcher.StepWellKeyed | src/indexer/Matchers.cpp:564-611 | Every table stays keyed by its symbols' IDs. |
| EnumMatcher.KindNameCases | src/indexer/Matchers.cpp:577-586 | The kind is `enum class` iff scoped with the class tag, `enum struct` iff scoped without it, and `enum` iff unscoped. |
| EnumMatcher.NestedEnumName | src/indexer/Matchers.cpp:574-576 | An enum nested in a record is named `Parent::…`; any other keeps its name. |
| EnumMatcher.MembersInOrder | src/indexer/Matchers.cpp:588-602 | Members follow the enumerators in order, with their names and values. |
| EnumMatcher.ConcatContains | src/indexer/Matchers.cpp:593-599 | Every paragraph of an enumerator's comment appears in the member's comment. |
| NamespaceMatcher.Run | src/indexer/Matchers.cpp:614-637 | `run` leaves the index equal to `Step` of the old index. |
| NamespaceMatcher.StepCounter | src/indexer/Matchers.cpp:617-618 | Every namespace declaration bumps the counter once, and only the namespaces table changes. |
| NamespaceMatcher.StepEntries | src/indexer/Matchers.cpp:620-636 | An unnamed, ignore-listed, anonymous-namespace or already-present namespace leaves the entries unchanged. Otherwise exactly one entry is added under its own ID. |
| NamespaceMatcher.StepIdempotent | src/indexer/Matchers.cpp:626-630 | Running again on the same declaration changes no entry. |
| NamespaceMatcher.StepWellKeyed | src/indexer/Matchers.cpp:626-636 | Every table stays keyed by its symbols' IDs. |
| NamespaceMatcher.StepKeepsUnlinked | src/indexer/Matchers.cpp:631-636 | Namespaces enter the index with empty child lists. |
| NamespaceMatcher.LinkedAfterMatching | src/indexer/Indexer.cpp:65-87 | Starting from such a table, the resolver pass lists each child record, enum, namespace and alias exactly once, and no other ID. |
| UsingMatcher.ShadowTarget | src/indexer/Matchers.cpp:235-241 | The loop over shadows keeps the last shadow's target, or the default when there are no shadows. |
| UsingMatcher.Run | src/indexer/Matchers.cpp:194-264 | `run` leaves the index equal to `Step` of the old index. |
| UsingMatcher.StepCounter | src/indexer/Matchers.cpp:197-208 | Non-aliases and aliases in function scope return before the counter and change nothing. Every other declaration bumps the alias counter once, and only the aliases table changes. |
| UsingMatcher.StepEntries | src/indexer/Matchers.cpp:213-263 | A rejected alias (ignore list, invalid range, hidden private) or an already-present one leaves the entries unchanged. Otherwise exactly one entry is added under its own ID. |
| UsingMatcher.StepIdempotent | src/indexer/Matchers.cpp:220-227 | Running again on the same declaration changes no entry. |
| UsingMatcher.StepWellKeyed | src/indexer/Matchers.cpp:220-263 | Every table stays keyed by its symbols' IDs. |
| UsingMatcher.UsingTargetsLastShadow | src/indexer/Matchers.cpp:235-241 | A using declaration targets its last shadow's underlying declaration, or the default target when it has no shadows. |
| UsingMatcher.TypeAliasTarget | src/indexer/Matchers.cpp:246-255 | A type alias targets its printed underlying type, with the ID given by `getTypeSymbolID`. |
| UsingMatcher.AliasAccess | src/indexer/Matchers.cpp:230-231 | Only record members carry their access. |
| Traversal.Observe | src/indexer/Indexer.cpp:41-45 | Offering a declaration to the matchers keeps nothing claimed. |
| Traversal.ObserveDecl | src/indexer/Indexer.cpp:41-45 | Offering a declaration runs the admitted matchers in registration order, as `Observe` states. |
| Traversal.ObserveAll | src/indexer/Indexer.cpp:41-45 | A stream of declarations is observed one after the other. |
| Traversal.ObserveGrowsAndSettles | src/indexer/Matchers.cpp:92-98 | An observation only adds entries, and afterwards every matcher that would store the declaration finds its ID present. |
| Traversal.ObserveSettled | src/indexer/Matchers.cpp:92-98 | A settled declaration changes no entry when observed again. |
| Traversal.ObserveAllGrows | src/indexer/Matchers.cpp:92-98 | A traversal only adds entries and never replaces one. |
| Traversal.ObserveAllSettles | src/indexer/Matchers.cpp:92-98 | After a traversal, every declaration in it is settled. |
| Traversal.ObserveAllSettled | src/indexer/Matchers.cpp:92-98 | Settled declarations change no entry. |
| Traversal.ObserveAllTwice | src/indexer/Matchers.cpp:92-98 | Traversing the same declarations again changes no entry of any table. |
| Traversal.ObserveAllUnlinked | src/indexer/Matchers.cpp:631-636 | After matching, every namespace still has empty child lists, as the resolver pass expects. |
| Traversal.ObserveWellKeyed | src/indexer/Indexer.cpp:41-45 | One observation keeps every table keyed by its symbols' IDs. |
| Traversal.ObserveAllWellKeyed | src/indexer/Indexer.cpp:41-45 | So does a whole traversal. |

## Findings

| source | as written | input that shows it | evidently intended | confidence | as-written member | corrected member |
|---|---|---|---|---|---|---|
| src/indexer/Matchers.cpp:449 | `tparam.isParameterPack = templateTemplateType->isParameterPack() ? "..." : "";` assigns a string literal to a `bool`, and both literals convert to `true` | the record `template <template <class> class C> struct S {};`: its template template parameter `C` is not a pack | the parameter's own pack flag, as in the type and non-type branches at src/indexer/Matchers.cpp:429 and 437 | high (not executed) | RecordMatcher.TemplateTemplatePackAsWritten | RecordMatcher.RecordTemplateParamCorrected |
| src/indexer/Indexer.cpp:139-140 | `fixTypeParam` replaces every occurrence of `"type-parameter-0-" + std::to_string(i)` for i = 0, 1, … upward, as a plain substring | a member function of a class template with eleven template parameters whose signature mentions `type-parameter-0-10`: the pass for i = 1 matches its first eighteen characters | every `type-parameter-0-i` becomes the name of template parameter i; renaming from the largest index down does this | medium (not executed; `hdoc::utils::replaceAll` is taken to replace every plain occurrence) | Indexer.FixTypeParamsAsWrittenCollision | Indexer.FixTypeParamsRenames |

The rest of the model uses the corrected `RecordTemplateParam`. Its as-written counterpart is `RecordTemplateParamAsWritten`.

The rest of the model also uses the corrected `FixTypeParams`, which renames from the largest index down. Its as-written counterpart, which renames from index 0 upward, is `FixTypeParamsAsWritten`.

## Left out

- `Indexer::run` (src/indexer/Indexer.cpp:22-61) is left out. It loads the compilation database, checks the include paths and runs the thread pool. It is replaced by a sequential stream of declarations (`Traversal`).
- Concurrency: several matchers run on several threads in the original, and the meaning of `reserve` under races is not modelled. Matchers run one after another, so no ID is ever left claimed between runs.
- `printStats`, `dump` and all `spdlog` calls are left out (logging only).
- Clang and the helpers whose code is not shown are fields of the observed declaration: `buildID`, `getNonSpecializedVersionOfDecl`, `fillOutSymbol`, `fillNamespace`, `processSymbolComment`, `getParaCommentContents`, `exprToString`, `getFunctionSignature`, `getRecordProto`, `Lexer::getSourceText`, type printing, `isInIgnoreList`, `isInAnonymousNamespace`, `std::filesystem::relative` and the AST's comment lookup. The model assumes:
  - `getNonSpecializedVersionOfDecl(NULL)` returns null;
  - `fillOutSymbol` copies the declaration's name;
  - a default-constructed `TemplateParam` is a type parameter with empty strings and both flags false;
  - an alias symbol's default access is "none".
- The code of `hdoc::utils::replaceAll` is not part of this model. `Strings.ReplaceAll` takes it to replace every non-overlapping occurrence, scanning left to right.
- The type headers that define `Symbol`, `SymbolID`, `Database` and `Config` are not part of this model. Their shape is inferred from use (`entries`, `numMatches`, `contains`, `reserve`, `update`).
- The qualifier flags copied field for field in `FunctionMatcher::run` (src/indexer/Matchers.cpp:101-134) are left out: nothing depends on them here.
- The `std::regex` engine is not modelled. The two `<.*>` replacements are specified directly as `ReplaceAngleSpans` (ECMAScript `.` does not match line terminators; the match is greedy; matching resumes after each replacement).
- src/support/MarkdownConverter.hpp (a wrapper over cmark-gfm) and example/example.cpp (an input fixture) are outside the core.
- Indexer.UpdateMemberFunctions requires every function's `postTemplate` and `nameStart` to lie within its `proto` (`AllOffsetsInRange`). Otherwise `std::string::substr` throws; the throwing path is not modelled.
- Indexer.UpdateMemberFunctions does not fix the order in which records are visited: C++ map iteration order is not modelled. The pass is stated for the visiting order it returns.
- Indexer.UpdateMemberFunctions treats `functions.contains(id)` as membership in `entries`. The two agree because nothing is claimed between passes.
- EnumMatcher.MembersInOrder takes an enumerator's value as an unbounded integer. The source reads it with `getExtValue()` as a 64-bit integer; the conversion is not modelled.
- Deleted functions (src/indexer/Matchers.cpp:69-72) and deduction guides (74-79) return before `functions.numMatches++` (82). They are not counted (FunctionMatcher.StepCounter).
