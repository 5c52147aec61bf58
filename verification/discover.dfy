/**
 * The discovery page: the filter over the event list, the tag-chip toggle
 * that edits the selected tags, and the sorted tag vocabulary the chips
 * are drawn from.
 */
module Discover {
  import opened Lists
  import opened Text
  import opened Events

  /** The page's four filter inputs; `minAudience` is the parsed number field. */
  datatype FilterState = FilterState(query: string, location: string, selectedTags: seq<string>, minAudience: int)

  /** The filter state the page starts with. */
  const Unfiltered := FilterState("", "", [], 0)

  predicate MatchesQuery(e: Event, query: string) {
    query == "" || Contains(Lower(e.title), Lower(query))
  }

  predicate MatchesLocation(e: Event, location: string) {
    location == "" || Contains(Lower(e.location), Lower(location))
  }

  /** `selectedTags.every((t) => e.tags.includes(t))`: containment, not overlap. */
  predicate MatchesTags(e: Event, selected: seq<string>) {
    |selected| == 0 || forall t :: t in selected ==> t in e.tags
  }

  predicate MatchesAudience(e: Event, minAudience: int) {
    e.audienceSize >= minAudience
  }

  predicate Matches(e: Event, f: FilterState) {
    && MatchesQuery(e, f.query)
    && MatchesLocation(e, f.location)
    && MatchesTags(e, f.selectedTags)
    && MatchesAudience(e, f.minAudience)
  }

  /**
   * The events shown for filter state `f`: an order-preserving subsequence
   * of `events` whose every member passes all four tests, and which keeps
   * every event that does.
   */
  function Results(events: seq<Event>, f: FilterState): (r: seq<Event>)
    ensures IsSubsequence(r, events)
    ensures forall e :: e in r ==> f.query != "" ==> Contains(Lower(e.title), Lower(f.query))
    ensures forall e :: e in r ==> f.location != "" ==> Contains(Lower(e.location), Lower(f.location))
    ensures forall e, t :: e in r && t in f.selectedTags ==> t in e.tags
    ensures forall e :: e in r ==> e.audienceSize >= f.minAudience
    ensures forall e :: e in r <==> e in events && Matches(e, f)
    ensures forall e :: multiset(r)[e] == if Matches(e, f) then multiset(events)[e] else 0
  {
    FilterCount(events, e => Matches(e, f));
    Filter(events, e => Matches(e, f))
  }

  /** With every input at its initial value, every event of non-negative audience is shown. */
  lemma UnfilteredShowsAll(events: seq<Event>)
    requires forall e :: e in events ==> e.audienceSize >= 0
    ensures Results(events, Unfiltered) == events
  {
    FilterKeepsAll(events, e => Matches(e, Unfiltered));
  }

  /** Filtering the shown events again with the same state shows the same events. */
  lemma ResultsIdempotent(events: seq<Event>, f: FilterState)
    ensures Results(Results(events, f), f) == Results(events, f)
  {
    FilterIdempotent(events, e => Matches(e, f));
  }

  /** A selected tag that no event carries empties the result. */
  lemma UnknownTagShowsNothing(events: seq<Event>, f: FilterState, t: string)
    requires t in f.selectedTags
    requires forall e :: e in events ==> t !in e.tags
    ensures Results(events, f) == []
  {
  }

  /** Selecting "tech" and "ai" rejects an event tagged only "tech". */
  lemma TagFilterIsContainment(e: Event)
    requires e.tags == ["tech"]
    ensures Results([e], FilterState("", "", ["tech", "ai"], 0)) == []
  {
    var f := FilterState("", "", ["tech", "ai"], 0);
    assert "ai" in f.selectedTags && "ai" !in e.tags;
    UnknownTagShowsNothing([e], f, "ai");
  }

  /** With only a minimum audience set, the page filters on audience size alone. */
  lemma AudienceOnlyResults(events: seq<Event>, m: int)
    ensures Results(events, FilterState("", "", [], m)) == Filter(events, (e: Event) => e.audienceSize >= m)
  {
    var f := FilterState("", "", [], m);
    FilterAgree(events, e => Matches(e, f), (e: Event) => e.audienceSize >= m);
  }

  /** Of three events, a threshold above the first's audience and at most the others' keeps the last two. */
  lemma ThresholdDropsFirst(a: Event, b: Event, c: Event, m: int)
    requires a.audienceSize < m && m <= b.audienceSize && m <= c.audienceSize
    ensures Results([a, b, c], FilterState("", "", [], m)) == [b, c]
  {
    var p := (e: Event) => e.audienceSize >= m;
    assert Results([a, b, c], FilterState("", "", [], m)) == Filter([a, b, c], p) by {
      AudienceOnlyResults([a, b, c], m);
    }
    assert Filter([a, b, c], p) == Filter([b, c], p) by {
      assert [a, b, c][1..] == [b, c];
    }
    assert Filter([b, c], p) == [b] + Filter([c], p) by {
      assert [b, c][1..] == [c];
    }
    assert Filter([c], p) == [c] by {
      assert [c][1..] == [];
    }
  }

  /** Over the fixture, any threshold above 600 and up to 1200 keeps the carnival and the sports meet. */
  lemma SampleThreshold(m: int)
    requires 600 < m <= 1200
    ensures Results(SampleEvents, FilterState("", "", [], m)) == [Carnival, SportsMeet]
  {
    ThresholdDropsFirst(Hackathon, Carnival, SportsMeet, m);
  }

  /** Over the fixture, a threshold of 1000 keeps the 1200 and 2000 events, in order. */
  lemma SampleThreshold1000()
    ensures Results(SampleEvents, FilterState("", "", [], 1000)) == [Carnival, SportsMeet]
  {
    SampleThreshold(1000);
  }

  /** The threshold is inclusive: an audience equal to it is kept. */
  lemma SampleThresholdInclusive()
    ensures Results(SampleEvents, FilterState("", "", [], 1200)) == [Carnival, SportsMeet]
  {
    SampleThreshold(1200);
  }

  /**
   * The tag-chip click handler's updater: a selected tag is deselected, an
   * unselected one is appended; the other inputs are untouched.
   */
  function ToggleTag(f: FilterState, t: string): (g: FilterState)
    ensures g.query == f.query && g.location == f.location && g.minAudience == f.minAudience
    ensures t in g.selectedTags <==> t !in f.selectedTags
    ensures forall u :: u != t ==> (u in g.selectedTags <==> u in f.selectedTags)
    ensures t !in f.selectedTags ==> g.selectedTags == f.selectedTags + [t]
    ensures t in f.selectedTags ==> IsSubsequence(g.selectedTags, f.selectedTags)
  {
    f.(selectedTags := Toggle(f.selectedTags, t))
  }

  /** Clicking an unselected chip twice restores the selection exactly. */
  lemma ToggleTagTwice(f: FilterState, t: string)
    requires t !in f.selectedTags
    ensures ToggleTag(ToggleTag(f, t), t) == f
  {
    ToggleTwiceAbsent(f.selectedTags, t);
  }

  /** Selecting a tag narrows the result to the shown events that carry it. */
  lemma SelectingTagNarrows(events: seq<Event>, f: FilterState, t: string)
    requires t !in f.selectedTags
    ensures Results(events, ToggleTag(f, t)) == Filter(Results(events, f), (e: Event) => t in e.tags)
  {
    var g := ToggleTag(f, t);
    forall e: Event ensures Matches(e, g) == (Matches(e, f) && t in e.tags) {
      assert MatchesTags(e, g.selectedTags) == (MatchesTags(e, f.selectedTags) && t in e.tags);
    }
    FilterFilter(events, e => Matches(e, f), (e: Event) => t in e.tags, e => Matches(e, g));
  }

  /** Deselecting a tag widens the result: the old result is the new one restricted to the tag. */
  lemma DeselectingTagWidens(events: seq<Event>, f: FilterState, t: string)
    requires t in f.selectedTags
    ensures Results(events, f) == Filter(Results(events, ToggleTag(f, t)), (e: Event) => t in e.tags)
  {
    var g := ToggleTag(f, t);
    forall e: Event ensures Matches(e, f) == (Matches(e, g) && t in e.tags) {
      assert MatchesTags(e, f.selectedTags) == (MatchesTags(e, g.selectedTags) && t in e.tags);
    }
    FilterFilter(events, e => Matches(e, g), (e: Event) => t in e.tags, e => Matches(e, f));
  }

  /** Every tag of every event, in event order (`flatMap`). */
  function FlatTags(events: seq<Event>): (r: seq<string>)
    ensures forall t :: t in r <==> exists e :: e in events && t in e.tags
  {
    if events == [] then []
    else
      assert forall e :: e in events <==> e == events[0] || e in events[1..];
      events[0].tags + FlatTags(events[1..])
  }

  /** Strictly increasing in the default sort order. */
  predicate Sorted(s: seq<string>) {
    forall i, j :: 0 <= i < j < |s| ==> Less(s[i], s[j])
  }

  /** Each string before the next one, all the way along, means sorted. */
  lemma SortedByNeighbours(s: seq<string>)
    requires forall i :: 0 <= i < |s| - 1 ==> Less(s[i], s[i + 1])
    ensures Sorted(s)
  {
    forall i, j | 0 <= i < j < |s| ensures Less(s[i], s[j]) {
      NeighboursChain(s, i, j);
    }
  }

  lemma {:induction false} NeighboursChain(s: seq<string>, i: nat, j: nat)
    requires forall i :: 0 <= i < |s| - 1 ==> Less(s[i], s[i + 1])
    requires i < j < |s|
    ensures Less(s[i], s[j])
    decreases j - i
  {
    if i + 1 < j {
      NeighboursChain(s, i + 1, j);
      LessTransitive(s[i], s[i + 1], s[j]);
    }
  }

  lemma SortedNoDup(s: seq<string>)
    requires Sorted(s)
    ensures NoDup(s)
  {
    forall i, j | 0 <= i < j < |s| ensures s[i] != s[j] {
      LessIrreflexive(s[i]);
    }
  }

  /** A head below every element of a sorted tail gives a sorted sequence. */
  lemma SortedCons(h: string, t: seq<string>)
    requires Sorted(t)
    requires forall y :: y in t ==> Less(h, y)
    ensures Sorted([h] + t)
  {
    var s := [h] + t;
    forall i, j | 0 <= i < j < |s| ensures Less(s[i], s[j]) {
      assert s[j] == t[j - 1];
      if i > 0 { assert s[i] == t[i - 1]; } else { assert s[j] in t; }
    }
  }

  /** The head of a sorted sequence is below everything after it. */
  lemma SortedHeadBelow(s: seq<string>)
    requires Sorted(s) && s != []
    ensures forall y :: y in s[1..] ==> Less(s[0], y)
  {
    forall y | y in s[1..] ensures Less(s[0], y) {
      var j :| 0 <= j < |s| - 1 && s[1..][j] == y;
      assert s[j + 1] == y;
    }
  }

  /** Inserts a new string into a sorted sequence at its place. */
  function Insert(x: string, s: seq<string>): (r: seq<string>)
    requires Sorted(s) && x !in s
    ensures Sorted(r)
    ensures multiset(r) == multiset(s) + multiset{x}
  {
    if s == [] then [x]
    else if Less(x, s[0]) then
      assert forall y :: y in s ==> Less(x, y) by {
        SortedHeadBelow(s);
        forall y | y in s ensures Less(x, y) {
          if y != s[0] {
            assert y in s[1..] by { assert s == [s[0]] + s[1..]; }
            LessTransitive(x, s[0], y);
          }
        }
      }
      SortedCons(x, s);
      [x] + s
    else
      assert s == [s[0]] + s[1..];
      var rest := Insert(x, s[1..]);
      assert forall y :: y in rest ==> Less(s[0], y) by {
        LessTotal(x, s[0]);
        SortedHeadBelow(s);
        forall y | y in rest ensures Less(s[0], y) {
          assert y in multiset(rest);
          assert y == x || y in s[1..];
        }
      }
      SortedCons(s[0], rest);
      [s[0]] + rest
  }

  /** Sorts a duplicate-free sequence of strings. */
  function SortDistinct(s: seq<string>): (r: seq<string>)
    requires NoDup(s)
    ensures Sorted(r)
    ensures multiset(r) == multiset(s)
  {
    if s == [] then []
    else
      assert s == [s[0]] + s[1..];
      assert NoDup(s[1..]) && s[0] !in s[1..] by {
        forall i, j | 0 <= i < j < |s| - 1 ensures s[1..][i] != s[1..][j] {
          assert s[1..][i] == s[i + 1] && s[1..][j] == s[j + 1];
        }
        forall k | 0 <= k < |s| - 1 ensures s[1..][k] != s[0] {
          assert s[1..][k] == s[k + 1];
        }
      }
      var rest := SortDistinct(s[1..]);
      assert s[0] !in multiset(rest);
      Insert(s[0], rest)
  }

  /**
   * `Array.from(new Set(events.flatMap((e) => e.tags))).sort()`: every tag
   * some event carries, once each, in increasing order.
   */
  function AllTags(events: seq<Event>): (r: seq<string>)
    ensures Sorted(r)
    ensures NoDup(r)
    ensures forall t :: t in r <==> exists e :: e in events && t in e.tags
  {
    var d := Distinct(FlatTags(events));
    var r := SortDistinct(d);
    assert forall t :: t in r <==> t in multiset(r);
    assert forall t :: t in d <==> t in multiset(d);
    SortedNoDup(r);
    r
  }

  /** A sorted sequence is determined by its members. */
  lemma {:induction false} SortedUnique(a: seq<string>, b: seq<string>)
    requires Sorted(a) && Sorted(b)
    requires forall x :: x in a <==> x in b
    ensures a == b
  {
    assert a != [] ==> a[0] in b;
    assert b != [] ==> b[0] in a;
    if a != [] && b != [] {
      if a[0] != b[0] {
        assert b[0] in a && a[0] in b;
        var i :| 0 <= i < |a| && a[i] == b[0];
        var j :| 0 <= j < |b| && b[j] == a[0];
        assert Less(a[0], a[i]) && Less(b[0], b[j]);
        LessTransitive(a[0], b[0], a[0]);
        LessIrreflexive(a[0]);
        assert false;
      }
      SortedNoDup(a);
      SortedNoDup(b);
      forall x ensures x in a[1..] <==> x in b[1..] {
        if x in a[1..] {
          var k :| 0 <= k < |a| - 1 && a[1..][k] == x;
          assert x == a[k + 1] && x != a[0];
          assert x in b;
          var m :| 0 <= m < |b| && b[m] == x;
          assert m != 0;
          assert b[1..][m - 1] == x;
        }
        if x in b[1..] {
          var k :| 0 <= k < |b| - 1 && b[1..][k] == x;
          assert x == b[k + 1] && x != b[0];
          assert x in a;
          var m :| 0 <= m < |a| && a[m] == x;
          assert m != 0;
          assert a[1..][m - 1] == x;
        }
      }
      SortedUnique(a[1..], b[1..]);
      assert a == [a[0]] + a[1..] && b == [b[0]] + b[1..];
    }
  }

  lemma SampleTagsSorted()
    ensures Sorted(["ai", "cultural", "festival", "hackathon", "sports", "tech", "tournament"])
  {
    var want := ["ai", "cultural", "festival", "hackathon", "sports", "tech", "tournament"];
    assert Less("ai", "cultural") && Less("cultural", "festival") && Less("festival", "hackathon");
    assert Less("hackathon", "sports") && Less("sports", "tech") && Less("tech", "tournament") by {
      assert Less("ech", "ournament");
    }
    SortedByNeighbours(want);
  }

  /** The fixture's tags, once each in increasing order, are exactly the tags its events carry. */
  lemma SampleTagsMembers()
    ensures forall t ::
      (t in ["ai", "cultural", "festival", "hackathon", "sports", "tech", "tournament"]) <==>
      (exists e :: e in SampleEvents && t in e.tags)
  {
    var want := ["ai", "cultural", "festival", "hackathon", "sports", "tech", "tournament"];
    assert Hackathon in SampleEvents && Carnival in SampleEvents && SportsMeet in SampleEvents;
    assert forall e :: e in SampleEvents ==> e == Hackathon || e == Carnival || e == SportsMeet;
    assert forall t :: t in want <==> t in Hackathon.tags || t in Carnival.tags || t in SportsMeet.tags;
  }

  /** The tag chips over the fixture, in the order the page shows them. */
  lemma SampleTags()
    ensures AllTags(SampleEvents) == ["ai", "cultural", "festival", "hackathon", "sports", "tech", "tournament"]
  {
    SampleTagsSorted();
    SampleTagsMembers();
    SortedUnique(AllTags(SampleEvents), ["ai", "cultural", "festival", "hackathon", "sports", "tech", "tournament"]);
  }
}
