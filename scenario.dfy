/**
 * The end-to-end scenario of the engine's test suite, run against the class contracts:
 * create, list, read, partial update, read, delete, read.
 */
module Scenario {
  import opened Types
  import opened Store
  import opened AutoRest
  import opened Properties

  /** The test type's shape: besides its ID, a String field and an Int field, both at their zero values. */
  function TestShape(): (shape: map<string, Value>)
    ensures shape.Keys == {"String", "Int"}
  {
    map["String" := Str(""), "Int" := Int(0)]
  }

  /** The test record with the given Int field. */
  function TestRecord(n: int): Record
  {
    Record(1, map["String" := Str("test"), "Int" := Int(n)])
  }

  /**
   * Every step succeeds except the final read of the deleted record, which is 404; the
   * list shows the one record under ID 1, the partial update changes only Int, and the
   * only line logged is the store's not-found error.
   */
  method EndToEnd() returns (codes: seq<int>, listed: Option<ListHeader>, read: Option<Record>,
                             reread: Option<Record>, gone: Option<Record>, logged: seq<Failure>)
    ensures codes == [StatusOK, StatusOK, StatusOK, StatusOK, StatusOK, StatusOK, StatusNotFound]
    ensures listed == Some(ListHeader(0, 0, 1, [TestRecord(5)]))
    ensures read == Some(TestRecord(5))
    ensures reread == Some(TestRecord(10))
    ensures gone == None
    ensures logged == [StoreFailed(NotFound)]
  {
    var db := new Db();
    var rt := new RegisteredType(TestShape(), db);
    var log := new Logger();

    var payload := map["String" := Str("test"), "Int" := Int(5)];
    assert TestShape() + payload == payload;
    var created := rt.Create(log, Payload(None, payload), None);
    assert db.Contents().rows == map[1 := TestRecord(5)];
    assert db.Contents() == Table(map[1 := TestRecord(5)], 2);
    assert Rows(db.Contents()) == [TestRecord(5)];
    var listCode, readCode, updated, rereadCode, deleted, goneCode;
    listed, listCode := rt.List(log, 0, 0, None, None);
    read, readCode := rt.Read(log, 1, None);

    UpdateMergesPartial(db.Contents(), 1, map["Int" := Int(10)]);
    assert TestRecord(5).fields + map["Int" := Int(10)] == TestRecord(10).fields;
    updated := rt.Update(log, 1, Payload(None, map["Int" := Int(10)]), None, None);
    assert db.Contents().rows == map[1 := TestRecord(10)];
    reread, rereadCode := rt.Read(log, 1, None);

    deleted := rt.Delete(log, 1, None);
    gone, goneCode := rt.Read(log, 1, None);
    logged := log.lines;
    codes := [created, listCode, readCode, updated, rereadCode, deleted, goneCode];
  }
}
