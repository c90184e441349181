/**
 * The in-memory table store: a map from table name to the ordered sequence
 * of its records, with insert, select, update and delete. Every mutation
 * requests a write of the whole store to the backing file; the write itself
 * is not modelled, only the snapshot each request would write.
 */
module Store {
  import opened Wrappers
  import opened Values
  import opened Strings

  type Table = seq<Record>
  type Tables = map<string, Table>

  /** The named table, or the empty table when it does not exist. */
  function TableOf(tables: Tables, name: string): Table
  {
    if name in tables then tables[name] else []
  }

  /** `task.id === id`, where an `undefined` id equals only a missing `id` field. */
  predicate HasId(task: Record, id: Option<string>)
  {
    match id
    case Some(s) => Get(task, "id") == Some(Str(s))
    case None => Get(task, "id") == None
  }

  /** `table.findIndex(task => task.id === id)`: the first matching index, or -1. */
  function FindIndex(table: Table, id: Option<string>): (i: int)
    ensures -1 <= i < |table|
    ensures i >= 0 ==> HasId(table[i], id)
    ensures forall j :: 0 <= j < |table| && (i < 0 || j < i) ==> !HasId(table[j], id)
  {
    if table == [] then -1
    else if HasId(table[0], id) then 0
    else
      var k := FindIndex(table[1..], id);
      if k < 0 then -1 else k + 1
  }

  /** Ids are unique within the table (no check in the store establishes this). */
  predicate UniqueIds(table: Table)
  {
    forall i, j :: 0 <= i < j < |table| && "id" in table[i] && "id" in table[j] ==>
      table[i]["id"] != table[j]["id"]
  }

  // ----- select -----------------------------------------------------------

  /** Some field of the task, converted with `String` and lower-cased, includes `needle`. */
  predicate Matches(task: Record, needle: string)
  {
    exists v :: v in task.Values && Contains(Lower(Stringify(v)), needle)
  }

  /** `a` is `b` with some elements left out and the rest in the same order. */
  ghost predicate IsSubsequence(a: Table, b: Table)
    decreases |b|
  {
    if a == [] then true
    else if b == [] then false
    else (a[0] == b[0] && IsSubsequence(a[1..], b[1..])) || IsSubsequence(a, b[1..])
  }

  /** `table.filter(task => Matches(task, needle))`: exactly the matching tasks, in table order. */
  function Filter(table: Table, needle: string): (r: Table)
    ensures IsSubsequence(r, table)
    ensures forall x :: multiset(r)[x] == if Matches(x, needle) then multiset(table)[x] else 0
  {
    if table == [] then []
    else
      var rest := Filter(table[1..], needle);
      assert table == [table[0]] + table[1..];
      if Matches(table[0], needle) then
        assert ([table[0]] + rest)[1..] == rest;
        [table[0]] + rest
      else rest
  }

  /** A needle holding an upper-case letter matches no task, since every field is lower-cased first. */
  lemma FilterUpperNeedleIsEmpty(table: Table, needle: string, k: nat)
    requires k < |needle| && IsUpper(needle[k])
    ensures Filter(table, needle) == []
  {
  }

  /** The search is absent or empty (falsy): no filtering happens. */
  predicate NoSearch(search: Option<string>)
  {
    search.None? || search.value == []
  }

  /** `decodeURIComponent(search.toLowerCase())` does not throw when the search is used. */
  predicate SearchDecodes(search: Option<string>)
  {
    NoSearch(search) || PercentDecode(Lower(search.value)).Some?
  }

  /** The value searched for: the search lower-cased, then percent-decoded. */
  function Needle(search: string): (r: string)
    requires PercentDecode(Lower(search)).Some?
    ensures |r| <= |search|
  {
    PercentDecode(Lower(search)).value
  }

  /** `select(table, search)` on the given store. */
  function SelectFrom(tables: Tables, table: string, search: Option<string>): (r: Table)
    requires SearchDecodes(search)
    ensures table !in tables ==> r == []
    ensures table in tables && NoSearch(search) ==> r == tables[table]
    ensures table in tables && !NoSearch(search) ==>
      && IsSubsequence(r, tables[table])
      && forall x :: multiset(r)[x] ==
           if Matches(x, Needle(search.value)) then multiset(tables[table])[x] else 0
  {
    if table !in tables then []
    else if NoSearch(search) then tables[table]
    else Filter(tables[table], Needle(search.value))
  }

  /** A search for a plain word (no `%`) looks for its lower-cased text. */
  lemma PlainSearchNeedle(search: string)
    requires forall i :: 0 <= i < |search| ==> search[i] != '%'
    ensures PercentDecode(Lower(search)).Some? && Needle(search) == Lower(search)
  {
    DecodeWithoutEscapes(Lower(search));
  }

  // ----- mutations, as values --------------------------------------------

  /** What a store operation does: the new tables, its return value, and whether it persists. */
  datatype Effect<T> = Effect(tables: Tables, result: T, persisted: bool)

  /** `insert(table, data)` */
  function InsertEffect(tables: Tables, table: string, data: Record): (e: Effect<Record>)
    ensures e.tables.Keys == tables.Keys + {table}
    ensures e.tables[table] == TableOf(tables, table) + [data]
    ensures forall t :: t in tables && t != table ==> e.tables[t] == tables[t]
    ensures e.result == data && e.persisted
  {
    Effect(tables[table := TableOf(tables, table) + [data]], data, true)
  }

  /** `data.completed_at === true` is replaced by the current time; nothing else changes. */
  function Coerce(data: Record, now: int): (d: Record)
    ensures d.Keys == data.Keys
    ensures Get(data, "completed_at") == Some(Bool(true)) ==> d["completed_at"] == Time(now)
    ensures forall k :: k in data && (k != "completed_at" || data[k] != Bool(true)) ==> d[k] == data[k]
  {
    if Get(data, "completed_at") == Some(Bool(true)) then data["completed_at" := Time(now)] else data
  }

  /** `{ ...task, ...data, updated_at: now }` */
  function Merge(task: Record, data: Record, now: int): (r: Record)
    ensures r.Keys == task.Keys + data.Keys + {"updated_at"}
    ensures r["updated_at"] == Time(now)
    ensures forall k :: k in data && k != "updated_at" ==> r[k] == data[k]
    ensures forall k :: k in task && k !in data && k != "updated_at" ==> r[k] == task[k]
  {
    (task + data)["updated_at" := Time(now)]
  }

  /** The caller's `data` object after `update`: coerced only once the table is known to exist. */
  function CoercedData(tables: Tables, table: string, data: Record, now: int): Record
  {
    if table in tables then Coerce(data, now) else data
  }

  /** `update(table, id, data)` */
  function UpdateEffect(tables: Tables, table: string, id: Option<string>, data: Record, now: int)
    : (e: Effect<Option<Record>>)
    ensures e.result.None? <==> table !in tables || FindIndex(tables[table], id) < 0
    ensures e.result.None? ==> e.tables == tables && !e.persisted
    ensures e.result.Some? ==>
      var i := FindIndex(tables[table], id);
      && e.persisted
      && e.tables.Keys == tables.Keys
      && (forall t :: t in tables && t != table ==> e.tables[t] == tables[t])
      && |e.tables[table]| == |tables[table]|
      && e.tables[table][i] == e.result.value == Merge(tables[table][i], Coerce(data, now), now)
      && forall j :: 0 <= j < |tables[table]| && j != i ==> e.tables[table][j] == tables[table][j]
  {
    if table !in tables then Effect(tables, None, false)
    else
      var i := FindIndex(tables[table], id);
      if i < 0 then Effect(tables, None, false)
      else
        var task := Merge(tables[table][i], Coerce(data, now), now);
        Effect(tables[table := tables[table][i := task]], Some(task), true)
  }

  /** `table.splice(i, 1)`: the table without its element at `i`, the rest in order. */
  function Splice(table: Table, i: nat): (r: Table)
    requires i < |table|
    ensures |r| == |table| - 1
    ensures forall j :: 0 <= j < i ==> r[j] == table[j]
    ensures forall j :: i <= j < |r| ==> r[j] == table[j + 1]
    ensures multiset(r) == multiset(table) - multiset{table[i]}
  {
    assert table == table[..i] + [table[i]] + table[i + 1..];
    table[..i] + table[i + 1..]
  }

  /** `delete(table, id)`: `None` is the `undefined` returned for a missing table. */
  function DeleteEffect(tables: Tables, table: string, id: Option<string>): (e: Effect<Option<bool>>)
    ensures table !in tables ==> e == Effect(tables, None, false)
    ensures table in tables && FindIndex(tables[table], id) < 0 ==> e == Effect(tables, Some(false), false)
    ensures table in tables && FindIndex(tables[table], id) >= 0 ==>
      && e.result == Some(true) && e.persisted
      && e.tables == tables[table := Splice(tables[table], FindIndex(tables[table], id))]
  {
    if table !in tables then Effect(tables, None, false)
    else
      var i := FindIndex(tables[table], id);
      if i < 0 then Effect(tables, Some(false), false)
      else Effect(tables[table := Splice(tables[table], i)], Some(true), true)
  }

  // ----- properties relating the operations -------------------------------

  /** Inserting a record whose id no task has keeps the ids unique. */
  lemma InsertFreshIdKeepsUnique(tables: Tables, table: string, data: Record)
    requires UniqueIds(TableOf(tables, table))
    requires "id" in data
    requires forall k :: 0 <= k < |TableOf(tables, table)| ==> Get(TableOf(tables, table)[k], "id") != Some(data["id"])
    ensures UniqueIds(InsertEffect(tables, table, data).tables[table])
  {
  }

  /** With unique ids, once `delete` has found an id no task carries it any more: a second delete finds nothing. */
  lemma DeleteRemovesUniqueId(tables: Tables, table: string, id: string)
    requires table in tables && UniqueIds(tables[table])
    requires FindIndex(tables[table], Some(id)) >= 0
    ensures var e := DeleteEffect(tables, table, Some(id));
      && UniqueIds(e.tables[table])
      && DeleteEffect(e.tables, table, Some(id)) == Effect(e.tables, Some(false), false)
  {
  }

  /** An update whose data carries no `id` keeps every id of the table, so it keeps them unique. */
  lemma UpdateWithoutIdKeepsIds(tables: Tables, table: string, id: Option<string>, data: Record, now: int)
    requires table in tables && "id" !in data
    ensures var t := UpdateEffect(tables, table, id, data, now).tables[table];
      && |t| == |tables[table]|
      && (forall k :: 0 <= k < |t| ==> Get(t[k], "id") == Get(tables[table][k], "id"))
      && (UniqueIds(tables[table]) ==> UniqueIds(t))
  {
  }

  /** An update whose data carries an `id` field rewrites the matched task's id to it. */
  lemma UpdateRewritesId(tables: Tables, table: string, id: Option<string>, data: Record, now: int)
    requires table in tables && FindIndex(tables[table], id) >= 0 && "id" in data
    ensures var e := UpdateEffect(tables, table, id, data, now);
      e.result.Some? && e.result.value["id"] == data["id"]
  {
  }

  /** `{completed_at: true}` marks the found task as completed at `now`, the same time as its `updated_at`. */
  lemma UpdateCompletes(tables: Tables, table: string, id: Option<string>, data: Record, now: int)
    requires table in tables && FindIndex(tables[table], id) >= 0
    requires Get(data, "completed_at") == Some(Bool(true))
    ensures var e := UpdateEffect(tables, table, id, data, now);
      e.result.Some? && e.result.value["completed_at"] == e.result.value["updated_at"] == Time(now)
  {
  }

  // ----- the store object -------------------------------------------------

  class Database {
    /** `#database`: table name to the table's records. */
    var tables: Tables
    /** The whole-store snapshots requested so far, oldest first. */
    ghost var snapshots: seq<Tables>

    /** The latest snapshot requested is the current state: every mutation is covered by one. */
    ghost predicate Valid()
      reads this
    {
      if snapshots == [] then tables == map[] else snapshots[|snapshots| - 1] == tables
    }

    constructor ()
      ensures Valid() && tables == map[] && snapshots == []
    {
      tables := map[];
      snapshots := [];
    }

    /** `#persist()`: requests a write of the whole current store. */
    method Persist()
      modifies this`snapshots
      ensures snapshots == old(snapshots) + [tables]
    {
      snapshots := snapshots + [tables];
    }

    method Insert(table: string, data: Record) returns (r: Record)
      requires Valid()
      modifies this
      ensures Valid()
      ensures var e := InsertEffect(old(tables), table, data);
        tables == e.tables && r == e.result && snapshots == old(snapshots) + [tables]
    {
      if table in tables {
        tables := tables[table := tables[table] + [data]];
      } else {
        assert TableOf(tables, table) + [data] == [data];
        tables := tables[table := [data]];
      }
      Persist();
      r := data;
    }

    function Select(table: string, search: Option<string>): (r: Table)
      reads this
      requires SearchDecodes(search)
      ensures r == SelectFrom(tables, table, search)
    {
      SelectFrom(tables, table, search)
    }

    method Update(table: string, id: Option<string>, data: Payload, now: int) returns (r: Option<Record>)
      requires Valid()
      modifies this, data
      ensures Valid()
      ensures data.fields == CoercedData(old(tables), table, old(data.fields), now)
      ensures var e := UpdateEffect(old(tables), table, id, old(data.fields), now);
        && tables == e.tables && r == e.result
        && snapshots == old(snapshots) + (if e.persisted then [tables] else [])
    {
      if table !in tables {
        return None;
      }
      var i := FindIndex(tables[table], id);
      if Get(data.fields, "completed_at") == Some(Bool(true)) {
        data.fields := data.fields["completed_at" := Time(now)];
      }
      if i >= 0 {
        var task := tables[table][i];
        tables := tables[table := tables[table][i := Merge(task, data.fields, now)]];
        Persist();
        r := Some(tables[table][i]);
      } else {
        r := None;
      }
    }

    method Delete(table: string, id: Option<string>) returns (r: Option<bool>)
      requires Valid()
      modifies this
      ensures Valid()
      ensures var e := DeleteEffect(old(tables), table, id);
        && tables == e.tables && r == e.result
        && snapshots == old(snapshots) + (if e.persisted then [tables] else [])
    {
      if table !in tables {
        return None;
      }
      var i := FindIndex(tables[table], id);
      if i >= 0 {
        tables := tables[table := Splice(tables[table], i)];
        Persist();
        return Some(true);
      }
      return Some(false);
    }
  }
}
