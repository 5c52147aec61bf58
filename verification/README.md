# Campus event sponsorship marketplace: the client-side rules

The application is a web front end where students post campus events that
seek sponsorship and sponsors browse, filter and bookmark them. Almost all of
it is page markup over a hosted backend. This project models the few
self-contained rules the pages apply on the client, and proves what they
promise:

- **Discover** (`src/pages/Discover.tsx`): the filter that narrows the event
  list by title query, location, selected tags and minimum audience; the
  tag-chip toggle that edits the selected tags; and the sorted, duplicate-free
  tag vocabulary the chips are drawn from.
- **Bookmarks** (`src/hooks/useSavedEvents.ts`): the persisted `cc_saved`
  list of saved event ids and its toggle. This is a class whose `ids` field
  the `Toggle` method replaces.
- **Saved** (`src/pages/Saved.tsx`): the events whose id is saved.
- **Event details** (`src/pages/EventDetails.tsx`): the lookup of the route's
  event id with its not-found branch, and the Send Interest button's check of
  the stored `cc_authed` flag.
- **Post event** (`src/pages/PostEvent.tsx`): the duplicate-free add and the
  remove-by-index on the packages, benefits and tags lists, with the Add
  button trimming its input first.
- **Profile** (`src/pages/Profile.tsx`): the e-mail-domain verification
  heuristic, and the form whose six fields are loaded from the stored
  `cc_profile` draft with defaults.

Shared modules hold the JavaScript primitives the pages use:

- `Lists` covers `filter`, the toggle updater and `new Set`. `includes` and
  the spread-append `[...s, x]` are Dafny's `in` and `s + [x]`.
- `Text` covers `toLowerCase`, `\s`, `trim`, `includes` and string order.
- `Events` holds the `Event` record and the three fixture events of
  `src/data/sample.ts`.

Proved for all inputs:

- The filter's result is an order-preserving subsequence of its input.
- The toggle flips one membership and is its own inverse.
- The verification heuristic gives the stated answer for each role.

The fixture scenarios are proved on the transcribed constants.

Three places where the code's behaviour is easy to misread:

- The e-mail domain is the text between the first `@` and the *next* `@`
  (`split("@")[1]`), not everything after the first `@`.
- A toggle keeps the saved list duplicate-free only if it was duplicate-free
  before. A stored list can already hold duplicates, and a toggle then removes
  every occurrence.
- The minimum-audience field is a number input, so text that is not a valid
  number reads back as `""` and becomes 0. Valid number text that `parseInt`
  cannot read, such as `.5`, gives `NaN`. That path is left out (see below).

## Model

| member | source | states |
|---|---|---|
| `Lists.Filter` | src/pages/Discover.tsx:18 | `filter` keeps exactly the elements satisfying the predicate. The result is an order-preserving subsequence whose every element satisfies the predicate. |
| `Lists.FilterCount` | src/pages/Discover.tsx:18 | Each value the predicate keeps occurs in the result as often as in the input. Every other value does not occur. |
| `Lists.FilterAppend` | src/hooks/useSavedEvents.ts:6 | Filtering a concatenation is the concatenation of the filtered parts. This is why removing an id that was just appended restores the list. |
| `Lists.Distinct` | src/pages/Discover.tsx:8 | `Array.from(new Set(s))` is duplicate-free and has exactly the members of `s`. |
| `Lists.Toggle` | src/hooks/useSavedEvents.ts:6 | The toggled value's membership flips and every other membership is unchanged. An absent value is appended at the end. For a present value, every occurrence is removed and the rest keep their order and multiplicity. |
| `Lists.ToggleTwiceAbsent` | src/hooks/useSavedEvents.ts:6 | Toggling an absent value twice gives back exactly the original sequence. |
| `Lists.ToggleTwiceSameMembers` | src/hooks/useSavedEvents.ts:6 | Two toggles of any value restore every membership, so as a set the toggle is its own inverse. |
| `Lists.ToggleKeepsNoDup` | src/hooks/useSavedEvents.ts:6 | A duplicate-free list stays duplicate-free after any toggle. |
| `Text.LessTransitive` | src/pages/Discover.tsx:8 | The string order used by `sort` is transitive. |
| `Text.LessTotal` | src/pages/Discover.tsx:8 | Any two distinct strings are ordered one way or the other. |
| `Text.Contains` | src/pages/Discover.tsx:19 | `includes` holds iff the needle occurs at some index of the haystack. The empty needle always occurs. |
| `Text.StripWhitespace` | src/pages/Profile.tsx:37 | `replace(/\s+/g, "")` leaves no white space and is a subsequence of its input, so the kept characters stay in order. An all-white-space string strips to `""`. |
| `Text.StripWhitespaceCount` | src/pages/Profile.tsx:37 | Every character that is not white space keeps all its occurrences, and white space occurs not at all; with the subsequence clause this fixes the result. |
| `Text.Lower` | src/pages/Profile.tsx:37 | `toLowerCase` keeps the length and lower-cases each ASCII letter in place. |
| `Text.LowerKeepsLowerCase` | src/pages/Profile.tsx:37 | A string with no upper-case ASCII letter is unchanged by `toLowerCase`. |
| `Text.Trim` | src/pages/PostEvent.tsx:59 | `trim` returns a slice of the input with no white space at either end, and only white space dropped around it. It is empty iff the input is all white space. |
| `Discover.Results` | src/pages/Discover.tsx:17-25 | The shown events are an order-preserving subsequence of the source. Each passes the case-insensitive title and location tests (when non-empty), carries every selected tag, and has audience `>=` the minimum. Every passing event is shown. |
| `Discover.UnfilteredShowsAll` | src/pages/Discover.tsx:11-22 | With the initial inputs (empty texts, no tags, minimum 0), every event of non-negative audience is shown: the result equals the source. |
| `Discover.ResultsIdempotent` | src/pages/Discover.tsx:17-25 | Filtering the result again with the same state changes nothing. |
| `Discover.UnknownTagShowsNothing` | src/pages/Discover.tsx:21 | A selected tag that no event carries empties the result. |
| `Discover.TagFilterIsContainment` | src/pages/Discover.tsx:21 | Selecting "tech" and "ai" rejects an event tagged only "tech": containment, not overlap. |
| `Discover.AudienceOnlyResults` | src/pages/Discover.tsx:19-22 | With empty query and location and no tags, the shown events are exactly those whose audience is at least the minimum. |
| `Discover.ThresholdDropsFirst` | src/pages/Discover.tsx:22 | Of three events, a minimum above the first one's audience and at most the other two's shows exactly the last two, in order. |
| `Discover.SampleThreshold` | src/pages/Discover.tsx:22 | Over the fixture, any minimum in (600, 1200] shows exactly the carnival and the sports meet, in source order. |
| `Discover.SampleThreshold1000` | src/data/sample.ts:9-35 | Over the fixture with minimum 1000, the result is `cultural-101` then `sports-050`. |
| `Discover.SampleThresholdInclusive` | src/pages/Discover.tsx:22 | The threshold is inclusive: minimum 1200 still shows the 1200-audience event. |
| `Discover.ToggleTag` | src/pages/Discover.tsx:44 | The chip updater flips the clicked tag's selection and keeps every other tag's selection. A newly selected tag is appended; a deselected one is removed with the rest kept in order. The other inputs are unchanged. |
| `Discover.ToggleTagTwice` | src/pages/Discover.tsx:44 | Clicking an unselected chip twice restores the filter state exactly. |
| `Discover.SelectingTagNarrows` | src/pages/Discover.tsx:44 | After selecting a tag, the result is the previous result restricted to events carrying that tag. |
| `Discover.DeselectingTagWidens` | src/pages/Discover.tsx:44 | After deselecting a tag, the previous result is the new result restricted to events carrying that tag. |
| `Discover.FlatTags` | src/pages/Discover.tsx:8 | `flatMap` over the tags holds exactly the tags that occur on some event. |
| `Discover.SortDistinct` | src/pages/Discover.tsx:8 | `sort` of a duplicate-free list is strictly increasing in code-point order and a permutation of its input. |
| `Discover.AllTags` | src/pages/Discover.tsx:8 | The tag vocabulary is sorted and duplicate-free, and holds exactly the tags that occur on some source event. |
| `Discover.SortedByNeighbours` | src/pages/Discover.tsx:8 | A sequence whose adjacent strings are in increasing order is sorted throughout, because the order is transitive. |
| `Discover.SortedUnique` | src/pages/Discover.tsx:8 | Two sorted sequences with the same members are equal, so the vocabulary is fixed by its tag set. |
| `Discover.SampleTags` | src/pages/Discover.tsx:8 | Over the fixture the vocabulary is `ai, cultural, festival, hackathon, sports, tech, tournament`. |
| `Bookmarks.SavedStore.constructor` | src/hooks/useSavedEvents.ts:4 | The store starts as the persisted `cc_saved` list. |
| `Bookmarks.SavedStore.Toggle` | src/hooks/useSavedEvents.ts:5-7 | The new list is the toggle of the old one, and the card label (`IsSaved`, "Saved" iff the id is in the list, as at `src/pages/Discover.tsx:56`) flips: the id's membership flips and other ids keep theirs. An unsaved id is appended and a saved one is removed everywhere, order kept. Duplicate-freedom is preserved. No event list is consulted. |
| `Bookmarks.ToggleTwice` | src/hooks/useSavedEvents.ts:5-7 | Two toggles of an unsaved id leave the persisted list exactly as it was. |
| `SavedPage.SavedEvents` | src/pages/Saved.tsx:7 | The shown events follow source order, not save order, and each has a saved id. Every source event with a saved id is shown, and each shown event occurs exactly as often as in the source (`filter` keeps every occurrence); an event without a saved id occurs not at all. |
| `SavedPage.SameIdsSameView` | src/pages/Saved.tsx:7 | Only which ids are saved matters. Duplicate ids and save order do not change the view. |
| `SavedPage.DanglingIdShowsNothing` | src/pages/Saved.tsx:7 | A saved id that names no event adds nothing to the view. |
| `SavedPage.DuplicateSaveShowsOnce` | src/pages/Saved.tsx:7 | A saved id listed twice in the stored list shows its event once. The page itself never lists an id twice, since toggling a saved id removes it; a stored list can. |
| `SavedPage.ToggleFlipsShown` | src/pages/Saved.tsx:7 | After toggling an event's id, that event is shown iff it was not shown before. Events with other ids keep their place in or out of the view. |
| `EventDetails.Lookup` | src/pages/EventDetails.tsx:11-13 | The result is the first event whose id equals the route id. It is "not found" iff no event has that id, including when the route id is undefined. |
| `EventDetails.MissingIdNotFound` | src/pages/EventDetails.tsx:8-13 | An undefined route id always takes the not-found branch. |
| `EventDetails.SampleLookup` | src/pages/EventDetails.tsx:11 | Over the fixture, `cultural-101` finds the carnival and an unknown id is not found. |
| `EventDetails.SendInterest` | src/pages/EventDetails.tsx:57-64 | The toast is shown iff the stored `cc_authed` value is exactly `"true"`. Otherwise the button navigates to `/auth`. |
| `EventDetails.SendInterestNeedsExactTrue` | src/pages/EventDetails.tsx:58-62 | A missing flag, `"True"` and `"false"` all navigate to `/auth`. Only `"true"` toasts. |
| `PostEvent.AddTo` | src/pages/PostEvent.tsx:13-16 | An empty or already-listed value leaves the list exactly as it was; any other value is appended at the end. The old items stay in place as a prefix, and duplicate-freedom is preserved. |
| `PostEvent.RemoveAt` | src/pages/PostEvent.tsx:17-19 | An in-range index removes exactly that item and keeps the rest in order. Any other index leaves the list unchanged. |
| `PostEvent.RemoveAtShifts` | src/pages/PostEvent.tsx:18 | After an in-range removal, the items before the index keep their positions and the items after it move down by one. |
| `PostEvent.RemoveAtShrinks` | src/pages/PostEvent.tsx:18 | An in-range removal shortens the list by one and keeps it duplicate-free. |
| `PostEvent.AddItem` | src/pages/PostEvent.tsx:59 | The Add button adds the trimmed input: white-space-only input or an input whose trimmed form is already listed leaves the list as it was, and any other input is appended in trimmed form. Any new item is non-empty and trimmed. |
| `PostEvent.AddItemKeepsWellFormed` | src/pages/PostEvent.tsx:13-16 | The Add button keeps a list duplicate-free, with each item non-empty and trimmed. |
| `PostEvent.RemoveAtKeepsWellFormed` | src/pages/PostEvent.tsx:17-19 | The Remove button keeps a list duplicate-free, with each item non-empty and trimmed. |
| `PostEvent.AddPaddedDuplicate` | src/pages/PostEvent.tsx:59 | "  Gold " is not added to a list holding "Gold". |
| `PostEvent.AddPaddedNew` | src/pages/PostEvent.tsx:59 | "Silver " is appended as "Silver". |
| `PostEvent.AddBlank` | src/pages/PostEvent.tsx:59 | Blank input (" \t ") adds nothing. |
| `Profile.Domain` | src/pages/Profile.tsx:34 | The domain contains no `@` and is empty when the e-mail has none. Otherwise it is the text from just after the first `@` to the next `@` or the end. |
| `Profile.DomainOfParts` | src/pages/Profile.tsx:34 | Splitting `local@domain`, optionally followed by `@…`, gives back `domain` when neither part holds an `@`. |
| `Profile.DomainOfAddress` | src/pages/Profile.tsx:34 | An address `local@domain` with no other `@` has domain `domain`. |
| `Profile.DomainStopsAtSecondAt` | src/pages/Profile.tsx:34 | `a@b@c.edu` has domain `b`. |
| `Profile.Verified` | src/pages/Profile.tsx:33-39 | Verification needs a non-empty domain and the role "student" or "sponsor". A student needs the domain's last four characters to be `.edu` in any case. A sponsor needs a non-empty org whose white-space-stripped, lower-cased text occurs in the lower-cased domain. |
| `Profile.NoAtNeverVerified` | src/pages/Profile.tsx:34-35 | An e-mail without `@` is never verified. |
| `Profile.EmptyDomainNeverVerified` | src/pages/Profile.tsx:34-35 | Nothing between the first `@` and the end or the next `@` means never verified. |
| `Profile.OtherRoleNeverVerified` | src/pages/Profile.tsx:38 | A role other than "student" or "sponsor" is never verified. |
| `Profile.EmptyOrgNeverVerified` | src/pages/Profile.tsx:37 | A sponsor with an empty org is never verified. |
| `Profile.BlankOrgVerified` | src/pages/Profile.tsx:37 | A sponsor whose org is only white space is verified for any non-empty domain. |
| `Profile.StudentEduVerified` | src/pages/Profile.tsx:36 | Any address `local@host.edu` with a single `@` is a verified student, whatever the org. |
| `Profile.StudentGmailNotVerified` | src/pages/Profile.tsx:36 | Any address `local@gmail.com` with a single `@` is not a verified student. |
| `Profile.NoAtSignExample` | src/pages/Profile.tsx:34-35 | `noatsign` is not a verified student. |
| `Profile.SponsorExamples` | src/pages/Profile.tsx:37 | For any local part without `@`, a sponsor at `technova.com` with org "TechNova" is verified. One at `other.com` with "TechNova" is not. |
| `Profile.EmptyDraftIsDefaults` | src/pages/Profile.tsx:19-24 | A stored draft with no fields loads as role "student" and empty strings. |
| `Profile.StoredUnknownRoleNotVerified` | src/pages/Profile.tsx:19 | A stored role is taken verbatim, so a role the buttons never set can load. Such a profile is never verified. |
| `Profile.ProfileForm.constructor` | src/pages/Profile.tsx:7-12 | The form starts with role "student" and five empty fields. |
| `Profile.ProfileForm.LoadDraft` | src/pages/Profile.tsx:14-27 | A missing or empty stored value, or one that fails to parse, leaves the form unchanged. A parsed draft sets every field, each missing one falling back to its default. |
| `Profile.OpenPage` | src/pages/Profile.tsx:6-27 | Opening the page with nothing usable stored leaves all defaults in place and the badge off. Otherwise the form holds the draft with defaults filled in, and a draft with a role other than student or sponsor shows no badge. |
| `Profile.ProfileForm.IsVerified` | src/pages/Profile.tsx:33-39 | The badge over the form state: it needs a non-empty domain and the role student or sponsor, and an e-mail without `@` never earns it. |

## Left out

- Rendering, routing and layout. This covers every page's markup, the event
  card (dates, `toLocaleString`), the header, the inbox, the auth page, and
  the role-setup and auth-gate components.
- The event `date` field and its `Date.now()`-based fixture values, because
  time is not modelled. The poster image fallback is display only.
- `useLocalStorage`, `localStorage` and JSON. The persisted `cc_saved` value
  is the `ids` field of `Bookmarks.SavedStore`, loaded by its constructor.
  The profile's stored value is a parameter of `Profile.ProfileForm.LoadDraft`.
  `JSON.parse` is the function parameter `parse`. `None` covers both ways the
  load can throw: `JSON.parse` itself throwing, and text such as `"null"` that
  parses to a value whose `p.role` then throws inside the same `try`
  (`src/pages/Profile.tsx:17-25`); either way the form is left unchanged.
  The profile save effect (`src/pages/Profile.tsx:29-31`) only writes
  storage and is not modelled.
- Stored draft fields that are not strings (a number, say) are taken verbatim
  by the page. The model's draft fields are strings or missing.
- `Text.Lower`: case folding covers ASCII letters only. Unicode
  `toLowerCase` is not modelled.
- White space is the ECMAScript `\s` set of code points, written out. It is
  also the set `trim` removes.
- `Discover.SortDistinct`: the default sort compares UTF-16 code units, and
  the model compares Unicode code points. The two orders agree except between
  supplementary-plane characters and U+E000–U+FFFF.
- `parseInt` of the minimum-audience field is not modelled. The minimum is an
  integer. Valid number text that `parseInt` cannot read (such as `.5`) gives
  `NaN` in the page, and the model does not represent that.
- `Profile.Verified` returns a boolean. The page's expression can also yield
  the empty org string, which is falsy and rendered the same as `false`.
- Authenticated bookmarks (remote insert/delete, rollback on failure,
  mirror sync) do not exist in these files. Only the local toggle is modelled.
- React re-rendering, `useMemo` caching, state batching, and cross-tab
  storage races.
