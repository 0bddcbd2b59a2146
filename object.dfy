/**
 * The generic CRUD engine: one registered record shape bound to one store, with the
 * five operations Create, Read, List, Update and Delete. Each operation turns decoder
 * and store outcomes into an HTTP status code.
 *
 * Every operation is given twice: as a pure outcome function over the abstract table
 * (what the operation does, stated as a value), and as a method of RegisteredType that
 * performs the store calls in the source's order and is proved to agree with it.
 */
module AutoRest {
  import opened Types
  import opened Store

  const StatusOK := 200
  const StatusBadRequest := 400
  const StatusNotFound := 404
  const StatusInternalServerError := 500

  /** The status a failed store call maps to: the store's not-found error is 404, any other is 500. */
  function ErrorStatus(e: StoreError): (code: int)
    ensures code == StatusNotFound <==> e == NotFound
    ensures code == StatusInternalServerError <==> e == Internal
  {
    match e
    case NotFound => StatusNotFound
    case Internal => StatusInternalServerError
  }

  // ---------------------------------------------------------------------------------
  // The collaborators: decoder and logger

  /**
   * A decoder bound to a wire payload: either the payload does not decode, or it holds
   * a value for some of the record's fields (and possibly its ID).
   */
  datatype Decoder = Malformed | Payload(id: Option<nat>, fields: map<string, Value>)

  /**
   * Decodes the payload over `target`. A decoder must keep every field the payload does
   * not mention at the value `target` already had; the fields it mentions take the
   * payload's values. None means the decode failed.
   */
  function Decode(d: Decoder, target: Record): (r: Option<Record>)
    ensures r.None? <==> d.Malformed?
    ensures r.Some? ==> r.value.fields.Keys == target.fields.Keys + d.fields.Keys
    ensures r.Some? ==> forall k :: k in target.fields && k !in d.fields ==> r.value.fields[k] == target.fields[k]
    ensures r.Some? ==> forall k :: k in d.fields ==> r.value.fields[k] == d.fields[k]
    ensures r.Some? ==> r.value.id == if d.id.Some? then d.id.value else target.id
  {
    match d
    case Malformed => None
    case Payload(id, fields) =>
      Some(Record(if id.Some? then id.value else target.id, target.fields + fields))
  }

  /** What the engine writes to the logger when a call fails. */
  datatype Failure = DecodeFailed | StoreFailed(e: StoreError)

  /** A logger: it only accepts messages, recorded here in the order they arrive. */
  class Logger {
    var lines: seq<Failure>

    constructor ()
      ensures lines == []
    {
      lines := [];
    }

    method Println(f: Failure)
      modifies this
      ensures lines == old(lines) + [f]
    {
      lines := lines + [f];
    }
  }

  // ---------------------------------------------------------------------------------
  // Paging arithmetic

  /** Go's `int` on a 64-bit platform. */
  newtype int64 = x: int | -0x8000_0000_0000_0000 <= x < 0x8000_0000_0000_0000

  /** Go's `*` on 64-bit ints: the true product, wrapped around into the int64 range. */
  function Mul64(a: int64, b: int64): (r: int64)
    ensures var p := a as int * b as int;
      (-0x8000_0000_0000_0000 <= p < 0x8000_0000_0000_0000 ==> r as int == p) &&
      (r as int - p) % 0x1_0000_0000_0000_0000 == 0
  {
    var p := a as int * b as int;
    ((p + 0x8000_0000_0000_0000) % 0x1_0000_0000_0000_0000 - 0x8000_0000_0000_0000) as int64
  }

  /**
   * The paging clauses List adds to its find query: an offset of page*limit only when
   * page > 0, and a cap of limit only when limit > 0. A positive page with a zero limit
   * gets offset 0.
   */
  function PageQuery(page: int64, limit: int64): (q: Query)
    ensures q.offset.Some? <==> page > 0
    ensures page > 0 ==> q.offset.value == Mul64(page, limit) as int
    ensures page > 0 && limit == 0 ==> q.offset == Some(0)
    ensures q.limit.Some? <==> limit > 0
    ensures limit > 0 ==> q.limit.value == limit as int
  {
    Query(if page > 0 then Some(Mul64(page, limit) as int) else None,
          if limit > 0 then Some(limit as int) else None)
  }

  /** The envelope List returns: the request's page and limit, the full row count, and the page's rows. */
  datatype ListHeader = ListHeader(page: int64, limit: int64, total: nat, data: seq<Record>)

  // ---------------------------------------------------------------------------------
  // What each operation does, as a value

  /** The result of a writing operation: the table afterwards, the status, and what was logged. */
  datatype Change = Change(table: Table, code: int, logged: seq<Failure>)

  /** The result of a reading operation: the value (nil unless the call succeeded), the status, and what was logged. */
  datatype Reply<V> = Reply(value: Option<V>, code: int, logged: seq<Failure>)

  /**
   * Create: decode into a blank record first; a decode failure is 400 and the store is
   * not touched. Otherwise insert; an insert failure of any kind is 500, and success is
   * 200. The created record is never handed back.
   */
  function CreateOutcome(t: Table, blank: Record, d: Decoder, fault: Fault): (o: Change)
    requires Valid(t)
    ensures Valid(o.table)
    ensures o.code in {StatusOK, StatusBadRequest, StatusInternalServerError}
    ensures d.Malformed? ==> o == Change(t, StatusBadRequest, [DecodeFailed])
    ensures d.Payload? ==> o.code != StatusBadRequest
    ensures o.code == StatusInternalServerError <==>
      d.Payload? && Fallible(fault, Insert(t, Decode(d, blank).value)).Err?
    ensures o.code != StatusOK ==> o.table == t && |o.logged| == 1
    ensures o.code == StatusOK ==> o.logged == [] && o.table == Put(t, Decode(d, blank).value)
  {
    match Decode(d, blank)
    case None => Change(t, StatusBadRequest, [DecodeFailed])
    case Some(x) =>
      match Fallible(fault, Insert(t, x))
      case Err(e) => Change(t, StatusInternalServerError, [StoreFailed(e)])
      case Ok(t') => Change(t', StatusOK, [])
  }

  /**
   * Read: the record and 200 when the store has it, no value and 404 when the store
   * reports no such row, no value and 500 for any other failure.
   */
  function ReadOutcome(t: Table, id: nat, fault: Fault): (o: Reply<Record>)
    ensures o.value.Some? <==> o.code == StatusOK
    ensures o.code == StatusOK <==> fault.None? && id in t.rows
    ensures o.code == StatusOK ==> o.value.value == t.rows[id] && o.logged == []
    ensures o.code == StatusNotFound <==> fault == Some(NotFound) || (fault.None? && id !in t.rows)
    ensures o.code == StatusInternalServerError <==> fault == Some(Internal)
    ensures o.code != StatusOK ==> |o.logged| == 1
  {
    match Fallible(fault, Lookup(t, id))
    case Err(e) => Reply(None, ErrorStatus(e), [StoreFailed(e)])
    case Ok(r) => Reply(Some(r), StatusOK, [])
  }

  /**
   * List: count first; a count failure of any kind is 500 with no value, and the data
   * query is not run. Then run the paged query; its failures map as in Read. On success
   * the envelope echoes page and limit, and its total is the count of all rows.
   */
  function ListOutcome(t: Table, page: int64, limit: int64, countFault: Fault, findFault: Fault): (o: Reply<ListHeader>)
    ensures countFault.Some? ==>
      o == Reply(None, StatusInternalServerError, [StoreFailed(countFault.value)])
    ensures o.value.Some? <==> o.code == StatusOK
    ensures o.code == StatusOK <==> countFault.None? && findFault.None?
    ensures countFault.None? && findFault.Some? ==>
      o == Reply(None, ErrorStatus(findFault.value), [StoreFailed(findFault.value)])
    ensures o.code == StatusOK ==> o.logged == []
    ensures o.code == StatusOK ==>
      o.value.value.page == page && o.value.value.limit == limit && o.value.value.total == |t.rows|
    ensures o.code == StatusOK ==> o.value.value.data == Window(Rows(t), PageQuery(page, limit))
  {
    match Fallible(countFault, Ok(|t.rows|))
    case Err(e) => Reply(None, StatusInternalServerError, [StoreFailed(e)])
    case Ok(count) =>
      match Fallible(findFault, Ok(Window(Rows(t), PageQuery(page, limit))))
      case Err(e) => Reply(None, ErrorStatus(e), [StoreFailed(e)])
      case Ok(data) => Reply(Some(ListHeader(page, limit, count, data)), StatusOK, [])
  }

  /**
   * Update: fetch first; not-found is 404 and any other failure 500, before anything is
   * decoded. Then decode over the fetched record; a decode failure is 400 with nothing
   * saved. Otherwise save the merged record and report 200 whatever the save did.
   */
  function UpdateOutcome(t: Table, id: nat, d: Decoder, firstFault: Fault, saveFault: Fault): (o: Change)
    requires Valid(t)
    ensures Valid(o.table)
    ensures o.code in {StatusOK, StatusBadRequest, StatusNotFound, StatusInternalServerError}
    ensures firstFault.Some? ==>
      o == Change(t, ErrorStatus(firstFault.value), [StoreFailed(firstFault.value)])
    ensures firstFault.None? && id !in t.rows ==> o == Change(t, StatusNotFound, [StoreFailed(NotFound)])
    ensures firstFault.None? && id in t.rows && d.Malformed? ==> o == Change(t, StatusBadRequest, [DecodeFailed])
    ensures o.code == StatusOK <==> firstFault.None? && id in t.rows && d.Payload?
    ensures o.code == StatusOK ==> o.logged == []
    ensures o.code == StatusOK ==>
      o.table == if saveFault.None? then Put(t, Decode(d, t.rows[id]).value) else t
    ensures o.code != StatusOK ==> o.table == t
  {
    match Fallible(firstFault, Lookup(t, id))
    case Err(e) => Change(t, ErrorStatus(e), [StoreFailed(e)])
    case Ok(x) =>
      match Decode(d, x)
      case None => Change(t, StatusBadRequest, [DecodeFailed])
      case Some(y) => Change(if saveFault.None? then Put(t, y) else t, StatusOK, [])
  }

  /**
   * Delete: remove the row; not-found is 404, any other failure 500, success 200.
   */
  function DeleteOutcome(t: Table, id: nat, fault: Fault): (o: Change)
    requires Valid(t)
    ensures Valid(o.table)
    ensures o.code == StatusOK <==> fault.None? && id in t.rows
    ensures o.code == StatusNotFound <==> fault == Some(NotFound) || (fault.None? && id !in t.rows)
    ensures o.code == StatusInternalServerError <==> fault == Some(Internal)
    ensures o.code == StatusOK ==> o.logged == []
    ensures o.code == StatusOK ==> o.table.rows.Keys == t.rows.Keys - {id} && o.table.nextId == t.nextId
    ensures o.code == StatusOK ==> forall k :: k in o.table.rows ==> o.table.rows[k] == t.rows[k]
    ensures o.code != StatusOK ==> o.table == t && |o.logged| == 1
  {
    match Fallible(fault, Remove(t, id))
    case Err(e) => Change(t, ErrorStatus(e), [StoreFailed(e)])
    case Ok(t') => Change(t', StatusOK, [])
  }

  // ---------------------------------------------------------------------------------
  // The engine

  /**
   * A record shape registered against a store. `shape` holds the zero value of every
   * field of the registered type, so the blank record is the shape with an unset ID.
   */
  class RegisteredType {
    const shape: map<string, Value>
    const db: Db

    /** Binds a shape to a store (the schema migration is not modelled). */
    constructor (shape: map<string, Value>, db: Db)
      ensures this.shape == shape && this.db == db
    {
      this.shape := shape;
      this.db := db;
    }

    /** A freshly instantiated record of the registered shape. */
    function Blank(): (r: Record)
      ensures r.id == 0 && r.fields == shape
    {
      Record(0, shape)
    }

    method Create(log: Logger, v: Decoder, fault: Fault) returns (code: int)
      requires db.Consistent()
      modifies db, log
      ensures db.Consistent()
      ensures var o := CreateOutcome(old(db.Contents()), Blank(), v, fault);
        db.Contents() == o.table && code == o.code && log.lines == old(log.lines) + o.logged
    {
      var newX := Blank();
      var decoded := Decode(v, newX);
      if decoded.None? {
        log.Println(DecodeFailed);
        return StatusBadRequest;
      }
      newX := decoded.value;
      var err := db.Create(newX, fault);
      if err.Some? {
        log.Println(StoreFailed(err.value));
        return StatusInternalServerError;
      }
      return StatusOK;
    }

    method Read(log: Logger, id: nat, fault: Fault) returns (v: Option<Record>, code: int)
      modifies log
      ensures var o := ReadOutcome(db.Contents(), id, fault);
        v == o.value && code == o.code && log.lines == old(log.lines) + o.logged
    {
      var r := db.First(id, fault);
      if r.Err? {
        log.Println(StoreFailed(r.error));
        return None, ErrorStatus(r.error);
      }
      return Some(r.value), StatusOK;
    }

    method List(log: Logger, page: int64, limit: int64, countFault: Fault, findFault: Fault)
      returns (v: Option<ListHeader>, code: int)
      modifies log
      ensures var o := ListOutcome(db.Contents(), page, limit, countFault, findFault);
        v == o.value && code == o.code && log.lines == old(log.lines) + o.logged
    {
      var count := db.Count(countFault);
      if count.Err? {
        log.Println(StoreFailed(count.error));
        return None, StatusInternalServerError;
      }

      var q := Query(None, None);
      if page > 0 {
        q := q.(offset := Some(Mul64(page, limit) as int));
      }
      if limit > 0 {
        q := q.(limit := Some(limit as int));
      }
      var found := db.Find(q, findFault);
      if found.Err? {
        log.Println(StoreFailed(found.error));
        return None, ErrorStatus(found.error);
      }

      return Some(ListHeader(page, limit, count.value, found.value)), StatusOK;
    }

    method Update(log: Logger, id: nat, v: Decoder, firstFault: Fault, saveFault: Fault) returns (code: int)
      requires db.Consistent()
      modifies db, log
      ensures db.Consistent()
      ensures var o := UpdateOutcome(old(db.Contents()), id, v, firstFault, saveFault);
        db.Contents() == o.table && code == o.code && log.lines == old(log.lines) + o.logged
    {
      var newX := Blank();
      var r := db.First(id, firstFault);
      if r.Err? {
        log.Println(StoreFailed(r.error));
        return ErrorStatus(r.error);
      }
      newX := r.value;

      var decoded := Decode(v, newX);
      if decoded.None? {
        log.Println(DecodeFailed);
        return StatusBadRequest;
      }
      newX := decoded.value;

      var _ := db.Save(newX, saveFault);
      return StatusOK;
    }

    method Delete(log: Logger, id: nat, fault: Fault) returns (code: int)
      requires db.Consistent()
      modifies db, log
      ensures db.Consistent()
      ensures var o := DeleteOutcome(old(db.Contents()), id, fault);
        db.Contents() == o.table && code == o.code && log.lines == old(log.lines) + o.logged
    {
      var err := db.Delete(id, fault);
      if err.Some? {
        log.Println(StoreFailed(err.value));
        return ErrorStatus(err.value);
      }
      return StatusOK;
    }
  }

  // ---------------------------------------------------------------------------------
  // Endpoint selection flags

  /** A bit set of endpoint kinds (Go's `int`). */
  type EndpointTypes = bv64

  const EndpointTypeCreate: EndpointTypes := 1
  const EndpointTypeRead: EndpointTypes := 2
  const EndpointTypeList: EndpointTypes := 4
  const EndpointTypeUpdate: EndpointTypes := 8
  const EndpointTypeDelete: EndpointTypes := 16
  const EndpointTypeAll: EndpointTypes := 31

  /** The five endpoint kinds an adapter can mount. */
  datatype Endpoint = CreateEndpoint | ReadEndpoint | ListEndpoint | UpdateEndpoint | DeleteEndpoint

  /** The flag that selects an endpoint kind. */
  function Flag(e: Endpoint): EndpointTypes
  {
    match e
    case CreateEndpoint => EndpointTypeCreate
    case ReadEndpoint => EndpointTypeRead
    case ListEndpoint => EndpointTypeList
    case UpdateEndpoint => EndpointTypeUpdate
    case DeleteEndpoint => EndpointTypeDelete
  }

  /**
   * Whether a selection mounts an endpoint kind: its flag is set. The combined flag
   * selects every kind, each single flag selects its own kind and no other, and bits
   * outside the five flags select nothing.
   */
  function Selected(desired: EndpointTypes, e: Endpoint): (b: bool)
    ensures desired == EndpointTypeAll ==> b
    ensures desired == Flag(e) ==> b
    ensures forall e' :: desired == Flag(e') ==> (b <==> e == e')
    ensures desired & EndpointTypeAll == 0 ==> !b
    ensures b <==> Selected(desired & EndpointTypeAll, e)
  {
    desired & Flag(e) != 0
  }

  /** A union of selections mounts exactly what either part mounts. */
  lemma SelectedUnion(x: EndpointTypes, y: EndpointTypes, e: Endpoint)
    ensures Selected(x | y, e) <==> Selected(x, e) || Selected(y, e)
  {
  }
}
