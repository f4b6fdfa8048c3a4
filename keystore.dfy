/** The `api_keys` table of the hosted database, as the route sees it:
    the store assigns each inserted row a fresh id and a `created_at`
    later than every existing row's, and lists rows newest first. Whether
    a call fails is decided by the store, so each call takes that outcome
    as `fault` (the store's error message, if any). */
module KeyStore {
  import opened Wrappers
  import opened Records

  /** The columns an insert supplies; the store adds `id` and
      `created_at`. */
  datatype NewRow = NewRow(name: string, keyValue: string, keyType: Option<string>, usage: int)

  /** The `{ data, error }` pair of a store call. */
  datatype StoreResult<T> = Data(data: T) | StoreError(message: string)

  class KeyTable {
    /** The rows, kept newest first. */
    var rows: seq<StoreRow>
    /** The next id the store hands out. */
    var nextId: nat
    /** The store's clock: later than every `created_at` so far. */
    var clock: int

    ghost predicate Valid()
      reads this
    {
      && NewestFirst(rows)
      && (forall i :: 0 <= i < |rows| ==> rows[i].id < nextId && rows[i].createdAt < clock)
      && (forall i, j :: 0 <= i < j < |rows| ==> rows[i].id != rows[j].id)
    }

    ghost function Ids(): set<nat>
      reads this
    {
      set i | 0 <= i < |rows| :: rows[i].id
    }

    constructor ()
      ensures Valid() && rows == []
    {
      rows := [];
      nextId := 0;
      clock := 0;
    }

    /** `select('*').order('created_at', { ascending: false })`. */
    method SelectNewestFirst(fault: Option<string>) returns (result: StoreResult<seq<StoreRow>>)
      requires Valid()
      ensures fault.Some? ==> result == StoreError(fault.value)
      ensures fault.None? ==> result == Data(rows) && NewestFirst(result.data)
    {
      if fault.Some? {
        return StoreError(fault.value);
      }
      result := Data(rows);
    }

    /** `insert([draft]).select().single()`: on success the new row carries
        the supplied columns, an id no existing row has and a `created_at`
        later than every existing row's, and it heads the table; on a store
        error nothing is inserted. */
    method Insert(draft: NewRow, fault: Option<string>) returns (result: StoreResult<StoreRow>)
      requires Valid()
      modifies this
      ensures Valid()
      ensures fault.Some? ==> result == StoreError(fault.value) && rows == old(rows)
      ensures fault.None? ==>
        && result.Data?
        && result.data.name == draft.name
        && result.data.keyValue == draft.keyValue
        && result.data.keyType == draft.keyType
        && result.data.usage == draft.usage
        && result.data.id !in old(Ids())
        && (forall i :: 0 <= i < |old(rows)| ==> old(rows)[i].createdAt < result.data.createdAt)
        && rows == [result.data] + old(rows)
    {
      if fault.Some? {
        return StoreError(fault.value);
      }
      var row := StoreRow(nextId, draft.name, draft.keyValue, draft.keyType, draft.usage, clock);
      rows := [row] + rows;
      nextId := nextId + 1;
      clock := clock + 1;
      result := Data(row);
    }
  }
}
