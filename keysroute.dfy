/** The `/api/keys` route handlers, over the abstract table. */
module KeysRoute {
  import opened Wrappers
  import opened Records
  import opened KeyStore

  /** The JSON body of a POST: each field may be missing (or null). */
  datatype PostBody = PostBody(name: Option<string>, value: Option<string>, kind: Option<string>)

  const RequiredMessage: string := "Name and value are required"

  /** JavaScript falsiness of a string field: missing, null or empty.
      A whitespace-only string is truthy. */
  predicate Falsy(field: Option<string>) {
    field.None? || field.value == []
  }

  /** The row POST asks the store to insert: `name`, `key_value = value`,
      `key_type = type` as given (no default), and the drawn `usage`. */
  function Draft(body: PostBody, usage: int): NewRow
    requires !Falsy(body.name) && !Falsy(body.value)
  {
    NewRow(body.name.value, body.value.value, body.kind, usage)
  }

  /** `GET`: 200 with every row, newest first, or 500 with the store's
      error message as it came. */
  method Get(table: KeyTable, fault: Option<string>) returns (response: Response)
    requires table.Valid()
    ensures fault.Some? ==> response == Response(500, JError(fault.value))
    ensures fault.None? ==>
      && response.status == 200 && response.body == JRows(table.rows)
      && NewestFirst(response.body.rows)
  {
    var result := table.SelectNewestFirst(fault);
    match result
    case StoreError(message) =>
      response := Response(500, JError(message));
    case Data(rows) =>
      response := Response(200, JRows(rows));
  }

  /** `POST`: a falsy name or value is refused with 400 before the store
      is touched; otherwise one row is inserted and answered with 201, or
      the store's error message is answered with 500. */
  method Post(table: KeyTable, body: PostBody, fault: Option<string>) returns (response: Response)
    requires table.Valid()
    modifies table
    ensures table.Valid()
    ensures Falsy(body.name) || Falsy(body.value) ==>
      response == Response(400, JError(RequiredMessage)) && table.rows == old(table.rows)
    ensures !Falsy(body.name) && !Falsy(body.value) && fault.Some? ==>
      response == Response(500, JError(fault.value)) && table.rows == old(table.rows)
    ensures !Falsy(body.name) && !Falsy(body.value) && fault.None? ==>
      && response.status == 201 && response.body.JRow?
      && var row := response.body.row;
      && row.name == body.name.value
      && row.keyValue == body.value.value
      && row.keyType == body.kind
      && 0 <= row.usage < 100
      && row.id !in old(table.Ids())
      && table.rows == [row] + old(table.rows)
  {
    if Falsy(body.name) || Falsy(body.value) {
      response := Response(400, JError(RequiredMessage));
    } else {
      // Math.floor(Math.random() * 100): some whole number from 0 to 99.
      var usage :| 0 <= usage < 100;
      var result := table.Insert(Draft(body, usage), fault);
      match result
      case StoreError(message) =>
        response := Response(500, JError(message));
      case Data(row) =>
        response := Response(201, JRow(row));
    }
  }
}
