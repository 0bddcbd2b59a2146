/**
 * An abstract, in-memory stand-in for the relational store the engine is bound to.
 * Rows are keyed by the numeric `ID` field; the store hands out IDs from a counter.
 * Failures of the backend (connectivity, constraint violations, ...) cannot be
 * produced by the state alone, so every store call takes an injected `fault`.
 */
module Store {
  import opened Types

  /** A field value of a record (the test type uses strings and integers). */
  datatype Value = Str(s: string) | Int(i: int)

  /** A record of the registered shape: its `ID` and its other fields by name. */
  datatype Record = Record(id: nat, fields: map<string, Value>)

  /** The two kinds of store failure the engine distinguishes: no matching row, and anything else. */
  datatype StoreError = NotFound | Internal

  /** A backend failure injected into one store call, or None when the backend behaves. */
  type Fault = Option<StoreError>

  /** The paging clauses of a find query: an optional offset and an optional row cap. */
  datatype Query = Query(offset: Option<int>, limit: Option<int>)

  /** The abstract state of one table: its rows by ID and the next ID to hand out. */
  datatype Table = Table(rows: map<nat, Record>, nextId: nat)

  /** Every row is stored under its own ID, and every ID lies in 1 .. nextId-1 (0 means "unset"). */
  predicate Valid(t: Table)
  {
    1 <= t.nextId &&
    forall k :: k in t.rows ==> 1 <= k < t.nextId && t.rows[k].id == k
  }

  /** A table with no rows. */
  function Empty(): (t: Table)
    ensures Valid(t) && t.rows == map[]
  {
    Table(map[], 1)
  }

  /** The outcome of a store call given the injected fault: a fault overrides what the state would give. */
  function Fallible<T>(fault: Fault, r: Result<T, StoreError>): (o: Result<T, StoreError>)
    ensures fault.Some? ==> o == Err(fault.value)
    ensures fault.None? ==> o == r
  {
    if fault.Some? then Err(fault.value) else r
  }

  /** The ID a written record is stored under: its own, or a fresh one when its ID is unset. */
  function AssignedId(t: Table, rec: Record): (id: nat)
    requires Valid(t)
    ensures id >= 1
    ensures rec.id == 0 ==> id !in t.rows
    ensures rec.id != 0 ==> id == rec.id
  {
    if rec.id == 0 then t.nextId else rec.id
  }

  /** Writes `rec` under its assigned ID, replacing any row there; nothing else changes. */
  function Put(t: Table, rec: Record): (t': Table)
    requires Valid(t)
    ensures Valid(t')
    ensures var id := AssignedId(t, rec);
      t'.rows.Keys == t.rows.Keys + {id} &&
      t'.rows[id] == rec.(id := id) &&
      forall k :: k in t.rows && k != id ==> t'.rows[k] == t.rows[k]
  {
    var id := AssignedId(t, rec);
    Table(t.rows[id := rec.(id := id)], if id + 1 > t.nextId then id + 1 else t.nextId)
  }

  /** Inserting a record whose ID is already taken violates the primary key; otherwise it is written. */
  function Insert(t: Table, rec: Record): (r: Result<Table, StoreError>)
    requires Valid(t)
    ensures r.Err? <==> rec.id != 0 && rec.id in t.rows
    ensures r.Err? ==> r.error == Internal
    ensures r.Ok? ==> r.value == Put(t, rec) && |r.value.rows| == |t.rows| + 1
  {
    if rec.id != 0 && rec.id in t.rows then Err(Internal) else Ok(Put(t, rec))
  }

  /** The row with the given ID, or NotFound. */
  function Lookup(t: Table, id: nat): (r: Result<Record, StoreError>)
    ensures r.Ok? <==> id in t.rows
    ensures r.Ok? ==> r.value == t.rows[id]
    ensures r.Err? ==> r.error == NotFound
  {
    if id in t.rows then Ok(t.rows[id]) else Err(NotFound)
  }

  /** Removes the row with the given ID, or reports NotFound when there is none. */
  function Remove(t: Table, id: nat): (r: Result<Table, StoreError>)
    requires Valid(t)
    ensures r.Ok? <==> id in t.rows
    ensures r.Err? ==> r.error == NotFound
    ensures r.Ok? ==> Valid(r.value) && r.value.rows.Keys == t.rows.Keys - {id}
    ensures r.Ok? ==> forall k :: k in r.value.rows ==> r.value.rows[k] == t.rows[k]
  {
    if id in t.rows then Ok(Table(t.rows - {id}, t.nextId)) else Err(NotFound)
  }

  /** The rows with IDs below `n`, in ascending ID order. */
  function RowsBelow(m: map<nat, Record>, n: nat): seq<Record>
  {
    if n == 0 then [] else RowsBelow(m, n - 1) + (if n - 1 in m then [m[n - 1]] else [])
  }

  /** The rows of the table in the store's order (ascending ID). */
  function Rows(t: Table): seq<Record>
  {
    RowsBelow(t.rows, t.nextId)
  }

  /** The IDs in `m` below `n`. */
  function KeysBelow(m: map<nat, Record>, n: nat): set<nat>
  {
    set k | k in m && k < n
  }

  /**
   * RowsBelow lists each row with an ID below `n` exactly once, in strictly ascending
   * ID order, and nothing else.
   */
  lemma {:induction false} RowsBelowFacts(m: map<nat, Record>, n: nat)
    requires forall k :: k in m ==> m[k].id == k
    ensures var s := RowsBelow(m, n);
      |s| == |KeysBelow(m, n)| &&
      (forall i :: 0 <= i < |s| ==> s[i].id < n && s[i].id in m && m[s[i].id] == s[i]) &&
      (forall i, j :: 0 <= i < j < |s| ==> s[i].id < s[j].id) &&
      (forall k :: k in m && k < n ==> m[k] in s)
  {
    if n > 0 {
      RowsBelowFacts(m, n - 1);
      var prev := RowsBelow(m, n - 1);
      if n - 1 in m {
        assert KeysBelow(m, n) == KeysBelow(m, n - 1) + {n - 1};
        assert n - 1 !in KeysBelow(m, n - 1);
      } else {
        assert KeysBelow(m, n) == KeysBelow(m, n - 1);
      }
    }
  }

  /**
   * The store's order lists every row of a valid table exactly once, by ascending ID:
   * there are as many as the table holds, each is the row stored under its ID, and
   * every stored row appears.
   */
  lemma RowsOfTable(t: Table)
    requires Valid(t)
    ensures var s := Rows(t);
      |s| == |t.rows| &&
      (forall i :: 0 <= i < |s| ==> s[i].id in t.rows && t.rows[s[i].id] == s[i]) &&
      (forall i, j :: 0 <= i < j < |s| ==> s[i].id < s[j].id) &&
      (forall k :: k in t.rows ==> t.rows[k] in s)
  {
    RowsBelowFacts(t.rows, t.nextId);
    assert KeysBelow(t.rows, t.nextId) == t.rows.Keys;
  }

  /**
   * The rows a find query returns from `rows`: a positive offset skips that many rows
   * (a zero or negative one skips none), then a non-negative cap keeps at most that many.
   */
  function Window(rows: seq<Record>, q: Query): (w: seq<Record>)
    ensures |w| <= |rows|
    ensures q.offset.None? && q.limit.None? ==> w == rows
  {
    var skipped :=
      if q.offset.None? || q.offset.value <= 0 then rows
      else if q.offset.value >= |rows| then []
      else rows[q.offset.value..];
    if q.limit.Some? && 0 <= q.limit.value < |skipped| then skipped[..q.limit.value] else skipped
  }

  /**
   * A positive offset and a non-negative cap select the rows at positions
   * off .. off+cap-1 (as many of them as exist), in order.
   */
  lemma WindowSlice(rows: seq<Record>, off: int, cap: int)
    requires off > 0 && cap >= 0
    ensures var w := Window(rows, Query(Some(off), Some(cap)));
      |w| == (if off >= |rows| then 0 else if cap < |rows| - off then cap else |rows| - off) &&
      forall i :: 0 <= i < |w| ==> w[i] == rows[off + i]
  {
  }

  /**
   * The store handle the engine is bound to: a table of rows and its ID counter,
   * updated in place by the writing calls.
   */
  class Db {
    var rows: map<nat, Record>
    var nextId: nat

    /** The abstract table this store holds. */
    function Contents(): Table
      reads this
    {
      Table(rows, nextId)
    }

    /** The store's invariant. */
    predicate Consistent()
      reads this
    {
      Valid(Contents())
    }

    /** A store with an empty table. */
    constructor ()
      ensures Consistent() && Contents() == Empty()
    {
      rows := map[];
      nextId := 1;
    }

    /** Inserts `rec`, assigning it a fresh ID when its ID is unset. */
    method Create(rec: Record, fault: Fault) returns (err: Option<StoreError>)
      requires Consistent()
      modifies this
      ensures Consistent()
      ensures var r := Fallible(fault, Insert(old(Contents()), rec));
        (r.Ok? ==> err == None && Contents() == r.value) &&
        (r.Err? ==> err == Some(r.error) && Contents() == old(Contents()))
    {
      if fault.Some? {
        return fault;
      }
      if rec.id != 0 && rec.id in rows {
        return Some(Internal);
      }
      var id := if rec.id == 0 then nextId else rec.id;
      rows := rows[id := rec.(id := id)];
      if id + 1 > nextId {
        nextId := id + 1;
      }
      err := None;
    }

    /** Fetches the row with the given ID. */
    method First(id: nat, fault: Fault) returns (r: Result<Record, StoreError>)
      ensures r == Fallible(fault, Lookup(Contents(), id))
    {
      if fault.Some? {
        return Err(fault.value);
      }
      if id in rows {
        r := Ok(rows[id]);
      } else {
        r := Err(NotFound);
      }
    }

    /** Counts all rows, ignoring paging. */
    method Count(fault: Fault) returns (r: Result<nat, StoreError>)
      ensures r == Fallible(fault, Ok(|Contents().rows|))
    {
      if fault.Some? {
        return Err(fault.value);
      }
      r := Ok(|rows|);
    }

    /** Runs a find query with the given paging clauses. */
    method Find(q: Query, fault: Fault) returns (r: Result<seq<Record>, StoreError>)
      ensures r == Fallible(fault, Ok(Window(Rows(Contents()), q)))
    {
      if fault.Some? {
        return Err(fault.value);
      }
      r := Ok(Window(RowsBelow(rows, nextId), q));
    }

    /** Merge-writes `rec`: updates the row under its ID, or inserts it when its ID is unset or unused. */
    method Save(rec: Record, fault: Fault) returns (err: Option<StoreError>)
      requires Consistent()
      modifies this
      ensures Consistent()
      ensures fault.Some? ==> err == fault && Contents() == old(Contents())
      ensures fault.None? ==> err == None && Contents() == Put(old(Contents()), rec)
    {
      if fault.Some? {
        return fault;
      }
      var id := if rec.id == 0 then nextId else rec.id;
      rows := rows[id := rec.(id := id)];
      if id + 1 > nextId {
        nextId := id + 1;
      }
      err := None;
    }

    /** Deletes the row with the given ID. */
    method Delete(id: nat, fault: Fault) returns (err: Option<StoreError>)
      requires Consistent()
      modifies this
      ensures Consistent()
      ensures var r := Fallible(fault, Remove(old(Contents()), id));
        (r.Ok? ==> err == None && Contents() == r.value) &&
        (r.Err? ==> err == Some(r.error) && Contents() == old(Contents()))
    {
      if fault.Some? {
        return fault;
      }
      if id !in rows {
        return Some(NotFound);
      }
      rows := rows - {id};
      err := None;
    }
  }
}
