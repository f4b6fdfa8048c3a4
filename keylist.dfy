/** The three list updates the dashboard applies to its rows: replace by
    id (after an edit), drop by id (after a delete) and flip `isVisible`
    by id. Each is written as the element-by-element recursion that
    `Array.prototype.map` / `filter` perform; the lemmas say what they
    mean. */
module KeyList {
  import opened Records

  /** `keys.map(k => (k.id === saved.id ? saved : k))`. */
  function ReplaceById(keys: seq<KeyRow>, saved: KeyRow): seq<KeyRow> {
    if keys == [] then []
    else [if keys[0].id == saved.id then saved else keys[0]] + ReplaceById(keys[1..], saved)
  }

  /** `keys.filter(key => key.id !== id)`. */
  function RemoveById(keys: seq<KeyRow>, id: nat): seq<KeyRow> {
    if keys == [] then []
    else (if keys[0].id == id then [] else [keys[0]]) + RemoveById(keys[1..], id)
  }

  /** `keys.map(key => key.id === id ? { ...key, isVisible: !key.isVisible } : key)`. */
  function ToggleById(keys: seq<KeyRow>, id: nat): seq<KeyRow> {
    if keys == [] then []
    else [if keys[0].id == id then keys[0].(isVisible := !keys[0].isVisible) else keys[0]]
         + ToggleById(keys[1..], id)
  }

  predicate HasId(keys: seq<KeyRow>, id: nat) {
    exists i :: 0 <= i < |keys| && keys[i].id == id
  }

  /** Replacing keeps length and order: every row with the saved row's id
      becomes the saved row, every other row stays as it was. */
  lemma {:induction false} ReplaceByIdPointwise(keys: seq<KeyRow>, saved: KeyRow)
    ensures |ReplaceById(keys, saved)| == |keys|
    ensures forall i :: 0 <= i < |keys| ==>
      ReplaceById(keys, saved)[i] == (if keys[i].id == saved.id then saved else keys[i])
  {
    if keys != [] {
      ReplaceByIdPointwise(keys[1..], saved);
    }
  }

  /** Replacing an id nobody has changes nothing. */
  lemma {:induction false} ReplaceByIdAbsent(keys: seq<KeyRow>, saved: KeyRow)
    requires !HasId(keys, saved.id)
    ensures ReplaceById(keys, saved) == keys
  {
    ReplaceByIdPointwise(keys, saved);
  }

  /** Filtering leaves no row with the id, keeps every other row as often
      as it occurred, and drops nothing else. */
  lemma {:induction false} RemoveByIdCounts(keys: seq<KeyRow>, id: nat)
    ensures forall k :: k in RemoveById(keys, id) ==> k.id != id
    ensures forall k ::
      multiset(RemoveById(keys, id))[k] == (if k.id == id then 0 else multiset(keys)[k])
  {
    if keys != [] {
      RemoveByIdCounts(keys[1..], id);
      assert keys == [keys[0]] + keys[1..];
    }
  }

  /** Filtering preserves order: it distributes over concatenation. */
  lemma {:induction false} RemoveByIdAppend(a: seq<KeyRow>, b: seq<KeyRow>, id: nat)
    ensures RemoveById(a + b, id) == RemoveById(a, id) + RemoveById(b, id)
  {
    if a == [] {
      assert a + b == b;
    } else {
      assert (a + b)[1..] == a[1..] + b;
      RemoveByIdAppend(a[1..], b, id);
    }
  }

  /** Deleting an id nobody has changes nothing. */
  lemma {:induction false} RemoveByIdAbsent(keys: seq<KeyRow>, id: nat)
    requires !HasId(keys, id)
    ensures RemoveById(keys, id) == keys
  {
    if keys != [] {
      assert !HasId(keys[1..], id) by {
        forall i | 0 <= i < |keys| - 1 ensures keys[1..][i].id != id {
          assert keys[1..][i] == keys[i + 1];
        }
      }
      RemoveByIdAbsent(keys[1..], id);
    }
  }

  /** Toggling flips `isVisible` on the rows with that id and leaves every
      other field, and every other row, as it was. */
  lemma {:induction false} ToggleByIdPointwise(keys: seq<KeyRow>, id: nat)
    ensures |ToggleById(keys, id)| == |keys|
    ensures forall i :: 0 <= i < |keys| ==>
      ToggleById(keys, id)[i] ==
        (if keys[i].id == id then keys[i].(isVisible := !keys[i].isVisible) else keys[i])
  {
    if keys != [] {
      ToggleByIdPointwise(keys[1..], id);
    }
  }

  /** Toggling the same row twice restores the list. */
  lemma {:induction false} ToggleByIdTwice(keys: seq<KeyRow>, id: nat)
    ensures ToggleById(ToggleById(keys, id), id) == keys
  {
    ToggleByIdPointwise(keys, id);
    ToggleByIdPointwise(ToggleById(keys, id), id);
  }
}
