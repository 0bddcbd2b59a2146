/**
 * Properties that relate several engine operations: create-then-read, partial update,
 * deletion finality, not-found consistency, and the pagination rule of List.
 */
module Properties {
  import opened Types
  import opened Store
  import opened AutoRest

  /**
   * Creating a record whose payload sets no ID, on a healthy store, succeeds; reading
   * back the ID the store handed out gives a record with that ID, the blank record's
   * fields overlaid with the supplied ones.
   */
  lemma CreateThenRead(t: Table, blank: Record, fields: map<string, Value>)
    requires Valid(t) && blank.id == 0
    ensures var o := CreateOutcome(t, blank, Payload(None, fields), None);
      o.code == StatusOK &&
      ReadOutcome(o.table, t.nextId, None) == Reply(Some(Record(t.nextId, blank.fields + fields)), StatusOK, [])
  {
  }

  /** On an empty store the first record created is read back under ID 1. */
  lemma FirstCreateGetsIdOne(blank: Record, fields: map<string, Value>)
    requires blank.id == 0
    ensures var o := CreateOutcome(Empty(), blank, Payload(None, fields), None);
      o.code == StatusOK && |o.table.rows| == 1 &&
      ReadOutcome(o.table, 1, None) == Reply(Some(Record(1, blank.fields + fields)), StatusOK, [])
  {
    CreateThenRead(Empty(), blank, fields);
  }

  /**
   * A payload that names an ID already in use is refused by the store's primary key:
   * 500, and the store is unchanged.
   */
  lemma CreateWithTakenIdFails(t: Table, blank: Record, id: nat, fields: map<string, Value>)
    requires Valid(t) && id in t.rows
    ensures CreateOutcome(t, blank, Payload(Some(id), fields), None) ==
      Change(t, StatusInternalServerError, [StoreFailed(Internal)])
  {
  }

  /**
   * A partial update of an existing row, on a healthy store, succeeds; afterwards the row
   * holds the payload's fields, keeps every field the payload does not mention, keeps its
   * ID, and no other row changes.
   */
  lemma UpdateMergesPartial(t: Table, id: nat, fields: map<string, Value>)
    requires Valid(t) && id in t.rows
    ensures var o := UpdateOutcome(t, id, Payload(None, fields), None, None);
      o.code == StatusOK &&
      o.table.rows.Keys == t.rows.Keys &&
      o.table.rows[id] == Record(id, t.rows[id].fields + fields) &&
      (forall k :: k in t.rows[id].fields && k !in fields ==> o.table.rows[id].fields[k] == t.rows[id].fields[k]) &&
      (forall k :: k in t.rows && k != id ==> o.table.rows[k] == t.rows[k])
  {
  }

  /** Repeating the same partial update is a no-op on the stored state. */
  lemma UpdateTwiceIsUpdateOnce(t: Table, id: nat, fields: map<string, Value>)
    requires Valid(t) && id in t.rows
    ensures var once := UpdateOutcome(t, id, Payload(None, fields), None, None).table;
      UpdateOutcome(once, id, Payload(None, fields), None, None) == Change(once, StatusOK, [])
  {
    UpdateMergesPartial(t, id, fields);
    var once := UpdateOutcome(t, id, Payload(None, fields), None, None).table;
    var f := t.rows[id].fields;
    assert (f + fields) + fields == f + fields;
    assert once.rows[id := Record(id, (f + fields) + fields)] == once.rows;
  }

  /**
   * Update does not check the save: when the fetch and the decode succeed but the save
   * fails, Update still reports 200, logs nothing, and the store keeps its old state.
   */
  lemma UpdateIgnoresSaveFailure(t: Table, id: nat, d: Decoder, e: StoreError)
    requires Valid(t) && id in t.rows && d.Payload?
    ensures UpdateOutcome(t, id, d, None, Some(e)) == Change(t, StatusOK, [])
  {
  }

  /**
   * After a successful delete, reading the deleted ID reports not-found with no value,
   * and every other ID reads as it did before.
   */
  lemma DeleteThenRead(t: Table, id: nat)
    requires Valid(t) && id in t.rows
    ensures var o := DeleteOutcome(t, id, None);
      o.code == StatusOK &&
      ReadOutcome(o.table, id, None) == Reply(None, StatusNotFound, [StoreFailed(NotFound)]) &&
      forall k :: k != id ==> ReadOutcome(o.table, k, None) == ReadOutcome(t, k, None)
  {
  }

  /**
   * On an ID the store does not hold, Read, Update (whatever the payload) and Delete all
   * report not-found, never internal error, never a value, and change nothing. The Delete
   * clause rests on the model store's choice to report not-found when a delete matches no
   * row (`Remove`); a store that reports success there would make Delete answer 200.
   */
  lemma NotFoundConsistency(t: Table, id: nat, d: Decoder, saveFault: Fault)
    requires Valid(t) && id !in t.rows
    ensures ReadOutcome(t, id, None) == Reply(None, StatusNotFound, [StoreFailed(NotFound)])
    ensures UpdateOutcome(t, id, d, None, saveFault) == Change(t, StatusNotFound, [StoreFailed(NotFound)])
    ensures DeleteOutcome(t, id, None) == Change(t, StatusNotFound, [StoreFailed(NotFound)])
  {
  }

  // ---------------------------------------------------------------------------------
  // Pagination

  /** With page 0 and limit 0, List returns every row, in store order, and Total counts them all. */
  lemma ListUnpaged(t: Table)
    requires Valid(t)
    ensures var o := ListOutcome(t, 0, 0, None, None);
      o.code == StatusOK &&
      o.value.value == ListHeader(0, 0, |t.rows|, Rows(t)) &&
      |o.value.value.data| == o.value.value.total
  {
    RowsOfTable(t);
  }

  /** A zero limit means no paging at all, whatever the page: offset 0, no cap. */
  lemma ListZeroLimitReturnsAll(t: Table, page: int64)
    requires Valid(t)
    ensures ListOutcome(t, page, 0, None, None).value.value.data == Rows(t)
  {
  }

  /** With no page but a positive limit, List returns the first `limit` rows (or all, if fewer). */
  lemma ListLimitOnly(t: Table, page: int64, limit: int64)
    requires Valid(t) && page <= 0 && limit > 0
    ensures var data := ListOutcome(t, page, limit, None, None).value.value.data;
      data == if limit as int < |Rows(t)| then Rows(t)[..limit] else Rows(t)
  {
  }

  /**
   * With a positive page and a positive limit whose product `off` fits in 64 bits, List
   * skips `off` rows and returns at most `limit` of the rest, in store order; Total is
   * still the count of all rows.
   */
  lemma ListPaged(t: Table, page: int64, limit: int64, off: int)
    requires Valid(t) && page > 0 && limit > 0
    requires off == page as int * limit as int < 0x8000_0000_0000_0000
    ensures var h := ListOutcome(t, page, limit, None, None).value.value;
      var s := Rows(t);
      h.total == |s| &&
      |h.data| == (if off >= |s| then 0 else if limit as int < |s| - off then limit as int else |s| - off) &&
      forall i :: 0 <= i < |h.data| ==> h.data[i] == s[off + i]
  {
    RowsOfTable(t);
    assert Mul64(page, limit) as int == off;
    assert PageQuery(page, limit) == Query(Some(off), Some(limit as int));
    WindowSlice(Rows(t), off, limit as int);
  }

  /**
   * Page one with limit k skips exactly the first k rows: the listed rows are those with
   * positions k .. 2k-1 in store order.
   */
  lemma ListSecondPage(t: Table, k: int64)
    requires Valid(t) && k > 0
    ensures var h := ListOutcome(t, 1, k, None, None).value.value;
      var s, n := Rows(t), k as int;
      h.total == |t.rows| &&
      h.data == if n >= |s| then [] else if 2 * n < |s| then s[n..2 * n] else s[n..]
  {
    ListPaged(t, 1, k, k as int);
  }

  /**
   * The offset is computed with 64-bit wrap-around: a page and a limit of 2^32 each
   * give offset 0, so List starts at the first row.
   */
  lemma PageOffsetWraps()
    ensures PageQuery(0x1_0000_0000, 0x1_0000_0000).offset == Some(0)
  {
  }
}
