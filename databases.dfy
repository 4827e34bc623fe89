/** The symbol tables: `Database<T>` and the `Index` that holds one per symbol kind. */
module Databases {
  import opened Symbols

  /** `Database<T>` as the indexer uses it: the committed `entries`, the IDs claimed by
      `reserve` and not yet committed, and the match counter. */
  datatype Database<T> = Database(entries: map<SymbolID, T>, claimed: set<SymbolID>, numMatches: nat) {

    /** `contains(id)`: the ID is committed or claimed. */
    predicate Contains(id: SymbolID) {
      id in entries || id in claimed
    }

    /** `numMatches++`. */
    function CountMatch(): Database<T> {
      this.(numMatches := numMatches + 1)
    }

    /** `reserve(id)`: claim the ID before the record is built. */
    function Reserve(id: SymbolID): Database<T> {
      this.(claimed := claimed + {id})
    }

    /** `update(id, v)`: publish the finished record under a claimed ID. */
    function Update(id: SymbolID, v: T): Database<T> {
      this.(entries := entries[id := v], claimed := claimed - {id})
    }
  }

  function EmptyDatabase<T>(): Database<T> {
    Database(map[], {}, 0)
  }

  /** The at-most-once insertion protocol every matcher follows once its filters pass:
      `if (db.contains(ID)) return; db.reserve(ID); ...build v...; db.update(ID, v);`. */
  function Commit<T>(db: Database<T>, id: SymbolID, v: T): (r: Database<T>)
    requires db.claimed == {}
    ensures r.claimed == {} && r.numMatches == db.numMatches
    ensures id in r.entries
    ensures id in db.entries ==> r.entries == db.entries
    ensures id !in db.entries ==> r.entries == db.entries[id := v]
  {
    if db.Contains(id) then db else db.Reserve(id).Update(id, v)
  }

  /** First writer wins: a second commit under the same ID, whatever its content, is a no-op. */
  lemma CommitTwice<T>(db: Database<T>, id: SymbolID, v: T, w: T)
    requires db.claimed == {}
    ensures Commit(Commit(db, id, v), id, w) == Commit(db, id, v)
  {
  }

  /** The contents of an `Index`, one `Database` per symbol kind. */
  datatype IndexValue = IndexValue(
    functions: Database<FunctionSymbol>, records: Database<RecordSymbol>,
    enums: Database<EnumSymbol>, namespaces: Database<NamespaceSymbol>,
    aliases: Database<AliasSymbol>)

  /** Every entry is stored under its own ID, as `update(f.ID, f)` does. */
  predicate WellKeyed(ix: IndexValue) {
    && (forall k :: k in ix.functions.entries ==> ix.functions.entries[k].ID == k)
    && (forall k :: k in ix.records.entries ==> ix.records.entries[k].ID == k)
    && (forall k :: k in ix.enums.entries ==> ix.enums.entries[k].ID == k)
    && (forall k :: k in ix.namespaces.entries ==> ix.namespaces.entries[k].ID == k)
    && (forall k :: k in ix.aliases.entries ==> ix.aliases.entries[k].ID == k)
  }

  /** Between two sequential matcher runs no ID is claimed without being committed. */
  predicate NothingClaimed(ix: IndexValue) {
    ix.functions.claimed == {} && ix.records.claimed == {} && ix.enums.claimed == {}
    && ix.namespaces.claimed == {} && ix.aliases.claimed == {}
  }

  /** `hdoc::types::Index`: the tables are updated in place by the matchers and the
      resolver passes. */
  class Index {
    var functions: Database<FunctionSymbol>
    var records: Database<RecordSymbol>
    var enums: Database<EnumSymbol>
    var namespaces: Database<NamespaceSymbol>
    var aliases: Database<AliasSymbol>

    function Value(): IndexValue
      reads this
    {
      IndexValue(functions, records, enums, namespaces, aliases)
    }

    ghost predicate Valid()
      reads this
    {
      WellKeyed(Value()) && NothingClaimed(Value())
    }

    constructor ()
      ensures Valid()
      ensures Value() == IndexValue(EmptyDatabase(), EmptyDatabase(), EmptyDatabase(),
                                    EmptyDatabase(), EmptyDatabase())
    {
      functions := EmptyDatabase();
      records := EmptyDatabase();
      enums := EmptyDatabase();
      namespaces := EmptyDatabase();
      aliases := EmptyDatabase();
    }
  }
}
