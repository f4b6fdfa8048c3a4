/** The API-keys dashboard page: its state fields, and the handlers that
    load, save, delete and reveal keys. Every handler's contract states
    the page's whole new state; its `modifies` clause names the fields
    of `this` it may touch at all. */
module DashboardPage {
  import opened Wrappers
  import opened Text
  import opened Records
  import opened KeyList

  /** The request the save handler sends: POST `/api/keys` when creating,
      PUT `/api/keys/{id}` when editing. */
  datatype SaveTarget = Create | Update(id: nat)

  /** The JSON body of a save request: `{ name, value, type }`. */
  datatype Payload = Payload(name: string, value: string, kind: string)

  datatype SaveRequest = SaveRequest(target: SaveTarget, payload: Payload)

  /** The type the dashboard gives every key it saves. */
  const DefaultType: string := "dev"

  /** The body `handleSaveKey` builds from the two input fields, or `None`
      when either trims to nothing and the handler gives up. */
  function SavePayload(keyName: string, keyValue: string): Option<Payload> {
    if Trim(keyName) == [] || Trim(keyValue) == [] then None
    else Some(Payload(Trim(keyName), Trim(keyValue), DefaultType))
  }

  /** A save is refused exactly when one of the inputs is whitespace only;
      otherwise both fields are sent trimmed (nonempty, no surrounding
      whitespace, a slice of what was typed) with the type "dev". */
  lemma {:induction false} SavePayloadSpec(keyName: string, keyValue: string)
    ensures SavePayload(keyName, keyValue).None? <==> AllWhitespace(keyName) || AllWhitespace(keyValue)
    ensures SavePayload(keyName, keyValue).Some? ==>
      var p := SavePayload(keyName, keyValue).value;
      && p.name == Trim(keyName) && p.value == Trim(keyValue) && p.kind == "dev"
      && p.name != [] && !IsWhitespace(p.name[0]) && !IsWhitespace(p.name[|p.name| - 1])
      && p.value != [] && !IsWhitespace(p.value[0]) && !IsWhitespace(p.value[|p.value| - 1])
      && (exists i, j :: 0 <= i <= j <= |keyName| && p.name == keyName[i..j])
      && (exists i, j :: 0 <= i <= j <= |keyValue| && p.value == keyValue[i..j])
  {
    TrimEmptyIff(keyName);
    TrimEmptyIff(keyValue);
    var i, j := TrimIsSlice(keyName);
    var k, l := TrimIsSlice(keyValue);
  }

  function TargetOf(editingKey: Option<KeyRow>): SaveTarget {
    match editingKey
    case Some(key) => Update(key.id)
    case None => Create
  }

  /** Whether a reply carries the saved row: an OK response with a row. */
  predicate SaveSucceeded(reply: Reply) {
    reply.Received? && reply.response.Ok() && reply.response.body.JRow?
  }

  /** The list after a save request got `reply`: the mapped saved row
      replaces every row with its id when editing, or goes in front when
      creating; a failed request leaves the list alone. */
  function SavedList(keys: seq<KeyRow>, editingKey: Option<KeyRow>, reply: Reply): seq<KeyRow> {
    if !SaveSucceeded(reply) then keys
    else if editingKey.Some? then ReplaceById(keys, FormatRow(reply.response.body.row))
    else [FormatRow(reply.response.body.row)] + keys
  }

  lemma SavedListSpec(keys: seq<KeyRow>, editingKey: Option<KeyRow>, reply: Reply)
    ensures !SaveSucceeded(reply) ==> SavedList(keys, editingKey, reply) == keys
    ensures SaveSucceeded(reply) && editingKey.Some? ==>
      var saved := FormatRow(reply.response.body.row);
      && |SavedList(keys, editingKey, reply)| == |keys|
      && forall i :: 0 <= i < |keys| ==>
           SavedList(keys, editingKey, reply)[i] == (if keys[i].id == saved.id then saved else keys[i])
    ensures SaveSucceeded(reply) && editingKey.None? ==>
      && |SavedList(keys, editingKey, reply)| == |keys| + 1
      && SavedList(keys, editingKey, reply)[0] == FormatRow(reply.response.body.row)
      && SavedList(keys, editingKey, reply)[1..] == keys
  {
    if SaveSucceeded(reply) {
      ReplaceByIdPointwise(keys, FormatRow(reply.response.body.row));
    }
  }

  /** Whether the delete request succeeded: an OK response. */
  predicate DeleteSucceeded(reply: Reply) {
    reply.Received? && reply.response.Ok()
  }

  /** The list after deleting row `id` got `reply`. */
  function DeletedList(keys: seq<KeyRow>, id: nat, reply: Reply): seq<KeyRow> {
    if DeleteSucceeded(reply) then RemoveById(keys, id) else keys
  }

  /** A successful delete removes exactly the rows with that id, keeping
      every other row as often as it occurred; a failed one changes
      nothing. */
  lemma DeletedListSpec(keys: seq<KeyRow>, id: nat, reply: Reply)
    ensures !DeleteSucceeded(reply) ==> DeletedList(keys, id, reply) == keys
    ensures DeleteSucceeded(reply) ==>
      && (forall k :: k in DeletedList(keys, id, reply) ==> k.id != id)
      && (forall k :: k in keys && k.id != id ==> k in DeletedList(keys, id, reply))
      && (forall k: KeyRow :: k.id != id ==> multiset(DeletedList(keys, id, reply))[k] == multiset(keys)[k])
  {
    RemoveByIdCounts(keys, id);
  }

  class Dashboard {
    var apiKeys: seq<KeyRow>
    var isLoading: bool
    var isModalOpen: bool
    var isDeleteModalOpen: bool
    var keyName: string
    var keyValue: string
    var editingKey: Option<KeyRow>
    var keyToDelete: Option<KeyRow>

    /** The page's initial state. */
    constructor ()
      ensures apiKeys == [] && isLoading && !isModalOpen && !isDeleteModalOpen
      ensures keyName == [] && keyValue == [] && editingKey == None && keyToDelete == None
    {
      apiKeys := [];
      isLoading := true;
      isModalOpen := false;
      isDeleteModalOpen := false;
      keyName := [];
      keyValue := [];
      editingKey := None;
      keyToDelete := None;
    }

    /** The effect run on mount: load `/api/keys` (the call's outcome is
        `reply`) and stop the loading indicator. */
    method FetchKeys(reply: Reply)
      modifies this`apiKeys, this`isLoading
      ensures apiKeys == LoadedRows(reply) && !isLoading
    {
      isLoading := true;
      apiKeys := LoadedRows(reply);
      isLoading := false;
    }

    /** `openModalForNew`. */
    method OpenModalForNew()
      modifies this`editingKey, this`keyName, this`keyValue, this`isModalOpen
      ensures editingKey == None && keyName == [] && keyValue == [] && isModalOpen
    {
      editingKey := None;
      keyName := [];
      keyValue := [];
      isModalOpen := true;
    }

    /** `openModalForEdit(key)`: the inputs start from the row's name and
        value. */
    method OpenModalForEdit(key: KeyRow)
      modifies this`editingKey, this`keyName, this`keyValue, this`isModalOpen
      ensures editingKey == Some(key) && keyName == key.name && keyValue == key.value && isModalOpen
    {
      editingKey := Some(key);
      keyName := key.name;
      keyValue := key.value;
      isModalOpen := true;
    }

    /** The name input's `onChange`. */
    method EnterKeyName(text: string)
      modifies this`keyName
      ensures keyName == text
    {
      keyName := text;
    }

    /** The value input's `onChange`. */
    method EnterKeyValue(text: string)
      modifies this`keyValue
      ensures keyValue == text
    {
      keyValue := text;
    }

    /** The close and Cancel buttons of the save modal. */
    method CloseModal()
      modifies this`isModalOpen
      ensures !isModalOpen
    {
      isModalOpen := false;
    }

    /** `openDeleteConfirmation(key)`. */
    method OpenDeleteConfirmation(key: KeyRow)
      modifies this`keyToDelete, this`isDeleteModalOpen
      ensures keyToDelete == Some(key) && isDeleteModalOpen
    {
      keyToDelete := Some(key);
      isDeleteModalOpen := true;
    }

    /** The Cancel button of the delete modal: it closes the modal and
        leaves `keyToDelete` set. */
    method CloseDeleteModal()
      modifies this`isDeleteModalOpen
      ensures !isDeleteModalOpen
    {
      isDeleteModalOpen := false;
    }

    /** `handleSaveKey`. With a blank name or value it sends nothing and
        changes nothing. Otherwise it sends the trimmed payload to the
        create or the update endpoint, applies the reply to the list, and
        closes the modal whether or not the request succeeded. The input
        fields and `editingKey` are left as they were. */
    method SaveKey(reply: Reply) returns (request: Option<SaveRequest>)
      modifies this`apiKeys, this`isModalOpen
      ensures SavePayload(keyName, keyValue).None? ==>
        request == None && apiKeys == old(apiKeys) && isModalOpen == old(isModalOpen)
      ensures SavePayload(keyName, keyValue).Some? ==>
        && request == Some(SaveRequest(TargetOf(editingKey), SavePayload(keyName, keyValue).value))
        && apiKeys == SavedList(old(apiKeys), editingKey, reply)
        && !isModalOpen
    {
      var payload := SavePayload(keyName, keyValue);
      if payload == None {
        request := None;
      } else {
        request := Some(SaveRequest(TargetOf(editingKey), payload.value));
        if SaveSucceeded(reply) {
          var saved := FormatRow(reply.response.body.row);
          if editingKey.Some? {
            apiKeys := ReplaceById(apiKeys, saved);
          } else {
            apiKeys := [saved] + apiKeys;
          }
        }
        isModalOpen := false;
      }
    }

    /** `handleConfirmDelete`. With no key selected it does nothing.
        Otherwise it asks to delete that key's id, drops the rows with that
        id if the request succeeded, and in every case closes the modal and
        clears the selection. */
    method ConfirmDelete(reply: Reply) returns (request: Option<nat>)
      modifies this`apiKeys, this`isDeleteModalOpen, this`keyToDelete
      ensures old(keyToDelete) == None ==>
        && request == None && apiKeys == old(apiKeys)
        && isDeleteModalOpen == old(isDeleteModalOpen) && keyToDelete == None
      ensures old(keyToDelete).Some? ==>
        && request == Some(old(keyToDelete).value.id)
        && apiKeys == DeletedList(old(apiKeys), old(keyToDelete).value.id, reply)
        && !isDeleteModalOpen && keyToDelete == None
    {
      if keyToDelete == None {
        return None;
      }
      var id := keyToDelete.value.id;
      request := Some(id);
      if DeleteSucceeded(reply) {
        apiKeys := RemoveById(apiKeys, id);
      }
      isDeleteModalOpen := false;
      keyToDelete := None;
    }

    /** `toggleVisibility(id)`. */
    method ToggleVisibility(id: nat)
      modifies this`apiKeys
      ensures apiKeys == ToggleById(old(apiKeys), id)
      ensures |apiKeys| == |old(apiKeys)|
      ensures forall i :: 0 <= i < |apiKeys| ==>
        apiKeys[i] == (if old(apiKeys)[i].id == id
                       then old(apiKeys)[i].(isVisible := !old(apiKeys)[i].isVisible)
                       else old(apiKeys)[i])
    {
      ToggleByIdPointwise(apiKeys, id);
      apiKeys := ToggleById(apiKeys, id);
    }
  }
}
