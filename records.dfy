/** The shapes of data that cross the pages and the `/api/keys` route:
    a row of the `api_keys` table, the row as the pages hold it, the JSON
    bodies and HTTP responses the route produces, and what a `fetch` call
    hands back to a page. */
module Records {
  import opened Wrappers

  /** A row of the `api_keys` table: `id` and `created_at` are assigned
      by the store, `key_type` may be null (the route passes the request's
      `type` through without a default). */
  datatype StoreRow = StoreRow(
    id: nat,
    name: string,
    keyValue: string,
    keyType: Option<string>,
    usage: int,
    createdAt: int)

  /** A row as the pages keep it: the store row spread into a new object
      with `value` and `type` copied from `key_value` and `key_type`, plus
      the dashboard's per-row `isVisible` flag (absent, hence false, on a
      freshly mapped row). */
  datatype KeyRow = KeyRow(
    id: nat,
    name: string,
    value: string,
    kind: Option<string>,
    usage: int,
    createdAt: int,
    isVisible: bool)

  /** JSON bodies the route answers with. */
  datatype Json =
    | JRows(rows: seq<StoreRow>)   // an array of rows (GET)
    | JRow(row: StoreRow)          // a single row (POST, PUT)
    | JError(error: string)        // `{ error: message }`
    | JNone                        // no body

  datatype Response = Response(status: int, body: Json) {
    /** `response.ok` of the Fetch standard. */
    predicate Ok() {
      200 <= status <= 299
    }
  }

  /** What a page's `fetch` call ends with: a response, or an exception
      thrown before one could be read (network failure, unreadable body). */
  datatype Reply = Thrown(message: string) | Received(response: Response)

  /** The mapping `{ ...key, value: key.key_value, type: key.key_type }`
      applied to a store row. */
  function FormatRow(row: StoreRow): KeyRow {
    KeyRow(row.id, row.name, row.keyValue, row.keyType, row.usage, row.createdAt, false)
  }

  /** The store row a page row was mapped from. */
  function StoreRowOf(key: KeyRow): StoreRow {
    StoreRow(key.id, key.name, key.value, key.kind, key.usage, key.createdAt)
  }

  /** Mapping a row loses nothing the store sent, starts hidden, and
      carries `key_value` into `value` and `key_type` into `type`. */
  lemma FormatRowRoundTrip(row: StoreRow)
    ensures StoreRowOf(FormatRow(row)) == row
    ensures FormatRow(row).value == row.keyValue && FormatRow(row).kind == row.keyType
    ensures !FormatRow(row).isVisible
  {
  }

  /** `data.map(key => ({ ...key, value: key.key_value, type: key.key_type }))`. */
  function FormatAll(rows: seq<StoreRow>): seq<KeyRow> {
    if rows == [] then [] else [FormatRow(rows[0])] + FormatAll(rows[1..])
  }

  lemma {:induction false} FormatAllPointwise(rows: seq<StoreRow>)
    ensures |FormatAll(rows)| == |rows|
    ensures forall i :: 0 <= i < |rows| ==> FormatAll(rows)[i] == FormatRow(rows[i])
  {
    if rows != [] {
      FormatAllPointwise(rows[1..]);
    }
  }

  /** Rows are listed newest first: `created_at` strictly decreases along
      the sequence. */
  ghost predicate NewestFirst(rows: seq<StoreRow>) {
    forall i, j :: 0 <= i < j < |rows| ==> rows[i].createdAt > rows[j].createdAt
  }

  /** Page rows are newest first when the store rows they came from are. */
  ghost predicate KeysNewestFirst(keys: seq<KeyRow>) {
    NewestFirst(seq(|keys|, i requires 0 <= i < |keys| => StoreRowOf(keys[i])))
  }

  /** The list a page ends up with after loading `/api/keys`: the mapped
      rows when the response is OK and its body an array, and the empty
      list when the response is not OK, its body is not an array, or the
      call threw. */
  function LoadedRows(reply: Reply): seq<KeyRow> {
    match reply
    case Received(Response(status, JRows(rows))) =>
      if 200 <= status <= 299 then FormatAll(rows) else []
    case _ => []
  }

  lemma LoadedRowsSpec(reply: Reply)
    ensures reply.Received? && reply.response.Ok() && reply.response.body.JRows? ==>
      |LoadedRows(reply)| == |reply.response.body.rows| &&
      forall i :: 0 <= i < |LoadedRows(reply)| ==>
        LoadedRows(reply)[i] == FormatRow(reply.response.body.rows[i])
    ensures !(reply.Received? && reply.response.Ok() && reply.response.body.JRows?) ==>
      LoadedRows(reply) == []
  {
    if reply.Received? && reply.response.body.JRows? {
      FormatAllPointwise(reply.response.body.rows);
    }
  }

  /** Loading keeps the order the server listed the rows in. */
  lemma LoadedRowsKeepOrder(reply: Reply)
    requires reply.Received? && reply.response.body.JRows?
    requires NewestFirst(reply.response.body.rows)
    ensures KeysNewestFirst(LoadedRows(reply))
  {
    LoadedRowsSpec(reply);
  }
}
