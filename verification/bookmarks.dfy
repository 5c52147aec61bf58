/**
 * The saved-events hook: the list of bookmarked event ids persisted under
 * the `cc_saved` key, and the toggle that replaces it.
 */
module Bookmarks {
  import opened Lists

  /** The persisted `cc_saved` value; each toggle replaces it as a whole. */
  class SavedStore {
    var ids: seq<string>

    /** The store as loaded from storage (an absent key loads as `[]`). */
    constructor (stored: seq<string>)
      ensures ids == stored
    {
      ids := stored;
    }

    /** `savedIds.includes(id)`: the Save/Saved label of an event card. */
    predicate IsSaved(id: string)
      reads this
    {
      id in ids
    }

    /**
     * `toggleSaved(id)`: removes every occurrence of a saved id, appends an
     * unsaved one. The event list is never consulted, so an id that names
     * no event is recorded or removed all the same.
     */
    method Toggle(id: string)
      modifies this
      ensures ids == Lists.Toggle(old(ids), id)
      ensures IsSaved(id) <==> !old(IsSaved(id))
      ensures forall other :: other != id ==> (other in ids <==> other in old(ids))
      ensures id !in old(ids) ==> ids == old(ids) + [id]
      ensures id in old(ids) ==> IsSubsequence(ids, old(ids))
      ensures NoDup(old(ids)) ==> NoDup(ids)
    {
      if NoDup(ids) { ToggleKeepsNoDup(ids, id); }
      ids := Lists.Toggle(ids, id);
    }
  }

  /** Two toggles of an id that was not saved leave the store as it was. */
  method ToggleTwice(store: SavedStore, id: string)
    requires id !in store.ids
    modifies store
    ensures store.ids == old(store.ids)
  {
    ToggleTwiceAbsent(store.ids, id);
    store.Toggle(id);
    store.Toggle(id);
  }
}
