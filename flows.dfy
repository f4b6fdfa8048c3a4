/** The pages and the route put together: what the dashboard sends is
    what the route checks, and the rows the route returns are the rows
    the pages show. */
module Flows {
  import opened Wrappers
  import opened Text
  import opened Records
  import opened KeyStore
  import opened KeysRoute
  import opened DashboardPage
  import opened PlaygroundPage

  /** The dashboard's save payload as the route reads it. */
  function PostBodyOf(payload: Payload): PostBody {
    PostBody(Some(payload.name), Some(payload.value), Some(payload.kind))
  }

  /** Every payload the dashboard sends passes the route's check. */
  lemma {:induction false} ClientPayloadPassesRoute(keyName: string, keyValue: string)
    requires SavePayload(keyName, keyValue).Some?
    ensures !Falsy(PostBodyOf(SavePayload(keyName, keyValue).value).name)
    ensures !Falsy(PostBodyOf(SavePayload(keyName, keyValue).value).value)
    ensures PostBodyOf(SavePayload(keyName, keyValue).value).kind == Some("dev")
  {
  }

  /** The route does not trim: every whitespace-only name, which the
      dashboard refuses, is truthy and so passes the route's check. */
  lemma {:induction false} RouteAcceptsBlankName(name: string, value: string)
    requires name != [] && AllWhitespace(name) && value != []
    ensures SavePayload(name, value).None?
    ensures !Falsy(Some(name)) && !Falsy(Some(value))
  {
    TrimEmptyIff(name);
  }

  /** Posting a whitespace-only name straight to the route: the dashboard
      would send nothing, yet the route inserts the name as given and
      answers 201. */
  method PostBlankName(table: KeyTable, name: string, value: string, kind: Option<string>)
    returns (response: Response)
    requires table.Valid()
    requires name != [] && AllWhitespace(name) && value != []
    modifies table
    ensures SavePayload(name, value).None?
    ensures table.Valid()
    ensures response.status == 201 && response.body.JRow?
    ensures response.body.row.name == name && table.rows == [response.body.row] + old(table.rows)
  {
    RouteAcceptsBlankName(name, value);
    response := Post(table, PostBody(Some(name), Some(value), kind), None);
  }

  /** Creating a key from the dashboard through `POST /api/keys`. A blank
      input sends nothing; otherwise the table gains one row, holding the
      trimmed name and value with type "dev", and the same row heads the
      dashboard's list; a store error leaves both lists as they were. The
      modal is closed in both cases. The inputs, the selection and the
      other flags are left as they were. */
  method CreateThroughRoute(page: Dashboard, table: KeyTable, fault: Option<string>)
    returns (request: Option<SaveRequest>)
    requires table.Valid() && page.editingKey == None
    modifies page`apiKeys, page`isModalOpen, table
    ensures table.Valid()
    ensures SavePayload(old(page.keyName), old(page.keyValue)).None? ==>
      && request == None && table.rows == old(table.rows) && page.apiKeys == old(page.apiKeys)
      && page.isModalOpen == old(page.isModalOpen)
    ensures SavePayload(old(page.keyName), old(page.keyValue)).Some? && fault.Some? ==>
      && request.Some? && request.value.target == Create
      && table.rows == old(table.rows) && page.apiKeys == old(page.apiKeys) && !page.isModalOpen
    ensures SavePayload(old(page.keyName), old(page.keyValue)).Some? && fault.None? ==>
      && request.Some? && request.value.target == Create
      && |table.rows| == |old(table.rows)| + 1
      && table.rows[1..] == old(table.rows)
      && table.rows[0].name == Trim(old(page.keyName))
      && table.rows[0].keyValue == Trim(old(page.keyValue))
      && table.rows[0].keyType == Some("dev")
      && page.apiKeys == [FormatRow(table.rows[0])] + old(page.apiKeys)
      && !page.isModalOpen
  {
    var payload := SavePayload(page.keyName, page.keyValue);
    if payload.Some? {
      var p := payload.value;
      assert p.name == Trim(page.keyName) && p.value == Trim(page.keyValue) && p.kind == "dev";
      var response := Post(table, PostBodyOf(p), fault);
      request := page.SaveKey(Received(response));
    } else {
      // No request is sent; SaveKey ignores its reply when the payload is None.
      request := page.SaveKey(Thrown("no request sent"));
    }
  }

  /** Loading the playground through `GET /api/keys`: on success it holds
      every table row, mapped and newest first; on a store error it holds
      nothing. The input and the last check result are left as they were. */
  method LoadThroughRoute(page: Playground, table: KeyTable, fault: Option<string>)
    requires table.Valid()
    modifies page`apiKeys, page`isLoadingKeys
    ensures fault.None? ==>
      && |page.apiKeys| == |table.rows|
      && (forall i :: 0 <= i < |table.rows| ==> page.apiKeys[i] == FormatRow(table.rows[i]))
      && KeysNewestFirst(page.apiKeys)
    ensures fault.Some? ==> page.apiKeys == []
    ensures !page.isLoadingKeys
  {
    var response := Get(table, fault);
    page.FetchKeys(Received(response));
    LoadedRowsSpec(Received(response));
  }
}
