/**
 * The event details page: the lookup of the route's event id, with its
 * not-found branch, and the Send Interest button's check of the stored
 * sign-in flag.
 */
module EventDetails {
  import opened Wrappers
  import opened Events

  /**
   * `sampleEvents.find((x) => x.id === id)`. The route parameter may be
   * undefined (`None`), which equals no event id; `None` as the result is
   * the page's "Event not found" branch.
   */
  function Lookup(events: seq<Event>, routeId: Option<string>): (r: Option<Event>)
    ensures r.None? <==> forall e :: e in events ==> Some(e.id) != routeId
    ensures r.Some? ==> Some(r.value.id) == routeId
    ensures r.Some? ==> exists i :: 0 <= i < |events| && events[i] == r.value
                          && forall j :: 0 <= j < i ==> Some(events[j].id) != routeId
  {
    if events == [] then None
    else if Some(events[0].id) == routeId then
      Some(events[0])
    else
      var r := Lookup(events[1..], routeId);
      assert forall e :: e in events ==> e == events[0] || e in events[1..];
      assert r.Some? ==> exists i :: 0 <= i < |events| && events[i] == r.value
                          && forall j :: 0 <= j < i ==> Some(events[j].id) != routeId by {
        if r.Some? {
          var k :| 0 <= k < |events[1..]| && events[1..][k] == r.value
                     && forall j :: 0 <= j < k ==> Some(events[1..][j].id) != routeId;
          assert events[k + 1] == r.value;
          forall j | 0 <= j < k + 1 ensures Some(events[j].id) != routeId {
            if j > 0 { assert events[j] == events[1..][j - 1]; }
          }
        }
      }
      r
  }

  /** With no route id there is nothing to show. */
  lemma MissingIdNotFound(events: seq<Event>)
    ensures Lookup(events, None) == None
  {
  }

  /** The fixture's carnival is found by its id, past the hackathon. */
  lemma SampleLookup()
    ensures Lookup(SampleEvents, Some("cultural-101")) == Some(Carnival)
    ensures Lookup(SampleEvents, Some("unknown")) == None
  {
    assert SampleEvents[1..] == [Carnival, SportsMeet];
  }

  /** What a click on Send Interest does. */
  datatype InterestAction =
    | Navigate(path: string)
    | Toast(title: string, description: string)

  /**
   * The click handler: only the stored `cc_authed` value `"true"` counts as
   * signed in; any other value, or none, sends the visitor to `/auth`
   * without a toast.
   */
  function SendInterest(authed: Option<string>): (a: InterestAction)
    ensures a.Toast? <==> authed == Some("true")
    ensures a.Navigate? ==> a.path == "/auth"
  {
    if authed == Some("true") then
      Toast("Interest sent (demo)", "Connect Supabase to enable messaging")
    else
      Navigate("/auth")
  }

  /** A missing flag and a flag other than exactly "true" both navigate. */
  lemma SendInterestNeedsExactTrue()
    ensures SendInterest(None) == Navigate("/auth")
    ensures SendInterest(Some("True")) == Navigate("/auth")
    ensures SendInterest(Some("false")) == Navigate("/auth")
    ensures SendInterest(Some("true")).Toast?
  {
  }
}
