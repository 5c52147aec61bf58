/** The saved-events page: the fixture events whose id is bookmarked. */
module SavedPage {
  import opened Lists
  import opened Events

  /**
   * `sampleEvents.filter((e) => savedIds.includes(e.id))`: the shown events
   * follow the source order, not the order in which they were saved.
   */
  function SavedEvents(events: seq<Event>, savedIds: seq<string>): (r: seq<Event>)
    ensures IsSubsequence(r, events)
    ensures forall e :: e in r ==> e.id in savedIds
    ensures forall e :: e in events && e.id in savedIds ==> e in r
    ensures forall e :: multiset(r)[e] == if e.id in savedIds then multiset(events)[e] else 0
  {
    FilterCount(events, (e: Event) => e.id in savedIds);
    Filter(events, (e: Event) => e.id in savedIds)
  }

  /** Only which ids are saved matters: duplicates and save order change nothing. */
  lemma {:induction false} SameIdsSameView(events: seq<Event>, a: seq<string>, b: seq<string>)
    requires forall x :: x in a <==> x in b
    ensures SavedEvents(events, a) == SavedEvents(events, b)
  {
    FilterAgree(events, (e: Event) => e.id in a, (e: Event) => e.id in b);
  }

  /** A saved id that names no event contributes nothing. */
  lemma DanglingIdShowsNothing(events: seq<Event>, savedIds: seq<string>, x: string)
    requires forall e :: e in events ==> e.id != x
    ensures SavedEvents(events, savedIds + [x]) == SavedEvents(events, savedIds)
  {
    FilterAgree(events, (e: Event) => e.id in savedIds + [x], (e: Event) => e.id in savedIds);
  }

  /** A saved id listed twice shows its event once. */
  lemma DuplicateSaveShowsOnce(events: seq<Event>, savedIds: seq<string>, x: string)
    requires x in savedIds
    ensures SavedEvents(events, savedIds + [x]) == SavedEvents(events, savedIds)
  {
    SameIdsSameView(events, savedIds + [x], savedIds);
  }

  /**
   * After a toggle of `e.id`, the page shows `e` exactly when it did not
   * before, and every event with another id keeps its place in or out of
   * the view.
   */
  lemma ToggleFlipsShown(events: seq<Event>, savedIds: seq<string>, e: Event, d: Event)
    requires e in events && d in events && d.id != e.id
    ensures e in SavedEvents(events, Toggle(savedIds, e.id)) <==> e !in SavedEvents(events, savedIds)
    ensures d in SavedEvents(events, Toggle(savedIds, e.id)) <==> d in SavedEvents(events, savedIds)
  {
  }
}
