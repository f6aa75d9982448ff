/**
 The seen-set store: the JSON file that records, between runs, the ids of
 every entry already processed. Only its contents are modelled, not the file
 system: a store is missing, unreadable, or holds a list of ids.
 */
module SeenStore {

  /** What the store file holds. `Malformed` covers every content that does
      not read back as a list of ids. */
  datatype Store = Missing | Malformed | Saved(ids: seq<string>)

  /**
   Loading the seen set: the ids the store lists, duplicates collapsed; a
   missing or unreadable store yields the empty set rather than an error.
   */
  function LoadSeen(store: Store): (seen: set<string>)
    ensures store.Saved? ==> forall id :: id in seen <==> id in store.ids
    ensures !store.Saved? ==> seen == {}
  {
    match store
    case Saved(ids) => set id | id in ids
    case _ => {}
  }

  /**
   Saving the seen set: the store is overwritten with a list of the ids, each
   once, in no particular order. Loading what was saved gives back the set.
   */
  method SaveSeen(seen: set<string>) returns (store: Store)
    ensures store.Saved?
    ensures LoadSeen(store) == seen
    ensures |store.ids| == |seen|
  {
    var ids: seq<string> := [];
    var rest := seen;
    while rest != {}
      invariant rest <= seen
      invariant (set id | id in ids) == seen - rest
      invariant |ids| + |rest| == |seen|
      decreases rest
    {
      var id :| id in rest;
      assert (set x | x in ids + [id]) == (set x | x in ids) + {id};
      ids := ids + [id];
      rest := rest - {id};
    }
    store := Saved(ids);
  }
}
