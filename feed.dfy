/** `src/app/page.tsx`: the feed page's controller. It loads pages of gigs with a re-entrancy
    guard, merges and sorts them by date, gates infinite scrolling, tracks which date
    anchor is in view, and derives the calendar's dates and the month sections. */
module Feed {
  import opened Common
  import opened Text
  import opened Uri
  import opened Dates
  import opened Utils
  import opened Sorting
  import opened Gigs

  const PageSize: nat := 30

  datatype Mode = Replace | Append

  /** The request `fetchPage` has sent and not yet finished. */
  datatype Request = Request(page: int, mode: Mode)

  /** An element with a `data-date` attribute: its top relative to the viewport, and the
      attribute (None when it is missing). */
  datatype Anchor = Anchor(top: int, date: Option<string>)

  /** Where a click on a calendar day scrolls to. */
  datatype Target = AnchorAt(index: nat) | Card(id: string)

  /** A month section: the first of the month and its events. */
  datatype MonthEntry = MonthEntry(date: string, events: seq<Event>)

  function DateOf(e: Event): string { e.date }

  function Id(s: string): string { s }

  // ---------------------------------------------------------------- fetching

  /** `v1/gig?${qs}` with `page`, `size`, `country` and `city` set in that order; the
      serializer leaves every character of these values as it is (`PageNumberEncoding`). */
  function FeedEndpoint(page: int): string {
    "v1/gig?page=" + IntToString(page) + "&size=" + NatToString(PageSize) + "&country=ES&city=Barcelona"
  }

  /** `(nextPage - 1) * PAGE_SIZE + idx` */
  function PageIndex(page: int, i: int): int { (page - 1) * PageSize + i }

  /** `res.gigs.map((gig, idx) => gigDtoToEvent(gig, pageOffset + idx))` */
  function MapPage(env: DateEnv, gigs: seq<GigDto>, page: int): seq<Event> {
    seq(|gigs|, i requires 0 <= i < |gigs| => GigDtoToEvent(env, gigs[i], PageIndex(page, i)))
  }

  /** A replacing fetch keeps only the new events; an appending one keeps the old first. */
  function Merge(prev: seq<Event>, mapped: seq<Event>, mode: Mode): seq<Event> {
    if mode == Replace then mapped else prev + mapped
  }

  /** The event list after a successful fetch of `req` over `prev`. */
  function Fetched(env: DateEnv, prev: seq<Event>, gigs: seq<GigDto>, req: Request): seq<Event> {
    StableSort(Merge(prev, MapPage(env, gigs, req.page), req.mode), DateOf)
  }

  /** `err instanceof Error ? err.message : 'An error occurred'` */
  function ErrorText(message: Option<string>): string {
    message.GetOr("An error occurred")
  }

  /** The infinite-scroll gate: some entry intersects, the user has scrolled, nothing is
      loading and the last page was full. */
  predicate ShouldLoadMore(entries: seq<bool>, scrolled: bool, loading: bool, loadingMore: bool, hasMore: bool) {
    (exists i :: 0 <= i < |entries| && entries[i]) && scrolled && !loading && !loadingMore && hasMore
  }

  // ---------------------------------------------------------------- the active anchor

  /** The anchors' tops below the header: `top - (headerHeight ?? 0)`. One top per anchor;
      a top is above the header line exactly when the anchor's is above the header's
      bottom, and the shift keeps the anchors' order. */
  function Tops(anchors: seq<Anchor>, headerHeight: Option<int>): (ts: seq<int>)
    ensures |ts| == |anchors|
    ensures forall i :: 0 <= i < |ts| ==> (ts[i] < 0 <==> anchors[i].top < headerHeight.GetOr(0))
    ensures forall i, j :: 0 <= i < |ts| && 0 <= j < |ts| ==>
              (ts[i] <= ts[j] <==> anchors[i].top <= anchors[j].top)
  {
    seq(|anchors|, i requires 0 <= i < |anchors| => anchors[i].top - headerHeight.GetOr(0))
  }

  /** `withTop.filter(x => x.top < 0).sort((a, b) => b.top - a.top)[0]`: since the sort is
      stable, the first anchor with the greatest negative top. */
  function ClosestAbove(ts: seq<int>): (r: Option<nat>)
    ensures r.Some? ==> r.value < |ts| && ts[r.value] < 0
    ensures r.Some? ==> forall j :: 0 <= j < |ts| && ts[j] < 0 ==> ts[j] <= ts[r.value]
    ensures r.Some? ==> forall j :: 0 <= j < r.value && ts[j] < 0 ==> ts[j] < ts[r.value]
    ensures r.None? <==> forall j :: 0 <= j < |ts| ==> ts[j] >= 0
  {
    if ts == [] then None
    else
      var rest := ClosestAbove(ts[1..]);
      if ts[0] < 0 && (rest.None? || ts[1 + rest.value] <= ts[0]) then Some(0)
      else if rest.Some? then Some(rest.value + 1)
      else None
  }

  /** `withTop.filter(x => x.top >= 0).sort((a, b) => a.top - b.top)[0]`: the first anchor
      with the smallest non-negative top. */
  function FirstBelow(ts: seq<int>): (r: Option<nat>)
    ensures r.Some? ==> r.value < |ts| && ts[r.value] >= 0
    ensures r.Some? ==> forall j :: 0 <= j < |ts| && ts[j] >= 0 ==> ts[r.value] <= ts[j]
    ensures r.Some? ==> forall j :: 0 <= j < r.value && ts[j] >= 0 ==> ts[r.value] < ts[j]
    ensures r.None? <==> forall j :: 0 <= j < |ts| ==> ts[j] < 0
  {
    if ts == [] then None
    else
      var rest := FirstBelow(ts[1..]);
      if ts[0] >= 0 && (rest.None? || ts[0] <= ts[1 + rest.value]) then Some(0)
      else if rest.Some? then Some(rest.value + 1)
      else None
  }

  /** `closestAbove ?? firstBelow` */
  function ActiveAnchor(ts: seq<int>): Option<nat> {
    var above := ClosestAbove(ts);
    if above.Some? then above else FirstBelow(ts)
  }

  /** A truthy `dataset.date`. */
  function TruthyDate(date: Option<string>): Option<string> {
    if date.Some? && date.value != "" then date else None
  }

  /** The date `computeActiveDate` would store, if any. */
  function ActiveDate(anchors: seq<Anchor>, headerHeight: Option<int>): Option<string> {
    var ts := Tops(anchors, headerHeight);
    match ActiveAnchor(ts)
    case Some(i) => TruthyDate(anchors[i].date)
    case None => None
  }

  // ---------------------------------------------------------------- calendar and months

  /** `date.split('-').slice(0, 2).join('-')` */
  function MonthKey(date: string): string {
    var parts := Split(date, '-');
    Join(parts[..if |parts| < 2 then |parts| else 2], "-")
  }

  function MonthOf(e: Event): string { MonthKey(e.date) }

  /** `Object.keys(eventsByMonth).sort().map(date => ({date: date + '-01', events: ...}))`:
      one entry per key, each dated the first of one of the keys' months and holding that
      month's group. */
  function Months(keys: seq<string>, groups: map<string, seq<Event>>): (r: seq<MonthEntry>)
    requires forall k :: k in keys ==> k in groups
    ensures |r| == |keys|
    ensures forall i :: 0 <= i < |r| ==>
              |r[i].date| >= 3 && r[i].date[|r[i].date| - 3..] == "-01" &&
              r[i].date[..|r[i].date| - 3] in keys && r[i].events == groups[r[i].date[..|r[i].date| - 3]]
  {
    var sorted := StableSort(keys, Id);
    StableSortMultiset(keys, Id);
    assert forall i :: 0 <= i < |sorted| ==> sorted[i] in multiset(keys);
    seq(|sorted|, i requires 0 <= i < |sorted| => MonthEntry(sorted[i] + "-01", groups[sorted[i]]))
  }

  /** The first index whose element satisfies `p`, as `find`/`querySelector` search. */
  function FirstWhere<T>(s: seq<T>, p: T -> bool): (r: Option<nat>)
    ensures r.Some? ==> r.value < |s| && p(s[r.value])
    ensures r.Some? ==> forall j :: 0 <= j < r.value ==> !p(s[j])
    ensures r.None? <==> forall j :: 0 <= j < |s| ==> !p(s[j])
  {
    if s == [] then None
    else if p(s[0]) then Some(0)
    else
      var rest := FirstWhere(s[1..], p);
      if rest.Some? then Some(rest.value + 1) else None
  }

  /** `handleDayClick`'s target: the first anchor whose `data-date` is the day's key, else
      the registered card of the first event on that day, else nothing. */
  function DayClickTarget(key: string, anchorDates: seq<Option<string>>, events: seq<Event>,
                          refs: set<string>): Option<Target>
  {
    match FirstWhere(anchorDates, (d: Option<string>) => d == Some(key))
    case Some(i) => Some(AnchorAt(i))
    case None =>
      match FirstWhere(events, (e: Event) => e.date == key)
      case Some(j) => if events[j].id in refs then Some(Card(events[j].id)) else None
      case None => None
  }

  // ---------------------------------------------------------------- the controller

  /** The list a successful fetch leaves: the page's events merged into `prev` by the
      request's mode, then sorted by date. */
  method MergePage(env: DateEnv, prev: seq<Event>, gigs: seq<GigDto>, req: Request) returns (r: seq<Event>)
    ensures r == Fetched(env, prev, gigs, req)
    ensures SortedBy(r, DateOf)
  {
    var mapped := MapPage(env, gigs, req.page);
    r := SortByDate(Merge(prev, mapped, req.mode));
  }

  /** `merged.sort((a, b) => a.date.localeCompare(b.date))`, on an array copy. */
  method SortByDate(merged: seq<Event>) returns (r: seq<Event>)
    ensures r == StableSort(merged, DateOf) && SortedBy(r, DateOf)
  {
    var a := new Event[|merged|](i requires 0 <= i < |merged| => merged[i]);
    assert a[..] == merged;
    SortInPlace(a, DateOf);
    StableSortSorted(merged, DateOf);
    r := a[..];
  }

  /** The page's scroll-sync state: whether the user has scrolled, the raw and the
      debounced visible date, and the registered card elements. */
  class ScrollSync {
    /** `hasUserScrolledRef` */
    var hasUserScrolled: bool
    var rawVisibleDate: Option<string>
    var visibleDate: Option<string>
    /** The 150 ms timer that copies the raw date into the visible one is running. */
    var debouncing: bool
    /** The ids with a registered card element (`eventRefs`). */
    var eventRefs: set<string>

    /** The raw date is truthy, and once the timer has fired the visible date is the raw one. */
    predicate Valid()
      reads this
    {
      (rawVisibleDate.Some? ==> rawVisibleDate.value != "") &&
      (!debouncing ==> visibleDate == rawVisibleDate)
    }

    constructor ()
      ensures Valid()
      ensures !hasUserScrolled && rawVisibleDate == None && visibleDate == None && !debouncing && eventRefs == {}
    {
      hasUserScrolled := false;
      rawVisibleDate := None;
      visibleDate := None;
      debouncing := false;
      eventRefs := {};
    }

    /** The window's scroll listener. */
    method OnUserScroll()
      requires Valid()
      modifies this
      ensures Valid()
      ensures hasUserScrolled
      ensures rawVisibleDate == old(rawVisibleDate) && visibleDate == old(visibleDate) &&
              debouncing == old(debouncing) && eventRefs == old(eventRefs)
    {
      hasUserScrolled := true;
    }

    /** `computeActiveDate`: with no anchors, or when the chosen anchor has no date or
        the date already held, nothing changes; otherwise the raw date becomes the
        anchor's date and the debounce timer restarts. */
    method ComputeActiveDate(anchors: seq<Anchor>, headerHeight: Option<int>)
      requires Valid()
      modifies this
      ensures Valid()
      ensures var d := ActiveDate(anchors, headerHeight);
        if d.None? || d == old(rawVisibleDate) then unchanged(this)
        else rawVisibleDate == d && debouncing && hasUserScrolled == old(hasUserScrolled) &&
             visibleDate == old(visibleDate) && eventRefs == old(eventRefs)
    {
      if anchors == [] {
        return;
      }
      var d := ActiveDate(anchors, headerHeight);
      if d.Some? && d != rawVisibleDate {
        rawVisibleDate := d;
        debouncing := true;
      }
    }

    /** The debounce timer fires: the header's date becomes the raw one. */
    method DebounceElapsed()
      requires Valid() && debouncing
      modifies this
      ensures Valid()
      ensures visibleDate == rawVisibleDate && !debouncing
      ensures hasUserScrolled == old(hasUserScrolled) && rawVisibleDate == old(rawVisibleDate) &&
              eventRefs == old(eventRefs)
    {
      visibleDate := rawVisibleDate;
      debouncing := false;
    }

    /** `registerEventRef`: a mounted card is recorded, an unmounted one forgotten. */
    method RegisterEventRef(id: string, mounted: bool)
      requires Valid()
      modifies this
      ensures Valid()
      ensures eventRefs == if mounted then old(eventRefs) + {id} else old(eventRefs) - {id}
      ensures hasUserScrolled == old(hasUserScrolled) && rawVisibleDate == old(rawVisibleDate) &&
              visibleDate == old(visibleDate) && debouncing == old(debouncing)
    {
      if mounted {
        eventRefs := eventRefs + {id};
      } else {
        eventRefs := eventRefs - {id};
      }
    }
  }

  /** The page's fetch state, and the views derived from its event list. */
  class FeedController {
    var events: seq<Event>
    var loading: bool
    var loadingMore: bool
    var error: Option<string>
    var page: int
    var hasMore: bool
    /** `inFlightRef` and the request it guards. */
    var inFlight: bool
    var pending: Option<Request>
    const scroll: ScrollSync

    /** A request is pending exactly while the flag is set, with its loading flag raised. */
    predicate Valid()
      reads this
    {
      (inFlight <==> pending.Some?) &&
      (pending.Some? && pending.value.mode == Replace ==> loading) &&
      (pending.Some? && pending.value.mode == Append ==> loadingMore)
    }

    constructor (scroll: ScrollSync)
      ensures Valid() && this.scroll == scroll
      ensures events == [] && loading && !loadingMore && error == None && page == 1 && hasMore
      ensures !inFlight && pending == None
    {
      this.scroll := scroll;
      events := [];
      loading := true;
      loadingMore := false;
      error := None;
      page := 1;
      hasMore := true;
      inFlight := false;
      pending := None;
    }

    /** The synchronous part of `fetchPage`: a call while a request is in flight changes
        nothing; otherwise the flag is set, loading is signalled and the request's
        endpoint is returned. */
    method BeginFetch(nextPage: int, mode: Mode) returns (request: Option<string>)
      requires Valid()
      modifies this
      ensures Valid()
      ensures request.None? <==> old(inFlight)
      ensures old(inFlight) ==> unchanged(this)
      ensures !old(inFlight) ==>
        request == Some(FeedEndpoint(nextPage)) && inFlight && pending == Some(Request(nextPage, mode)) &&
        loading == (mode == Replace || old(loading)) && loadingMore == (mode == Append || old(loadingMore)) &&
        error == (if mode == Replace then None else old(error)) &&
        events == old(events) && page == old(page) && hasMore == old(hasMore)
    {
      if inFlight {
        return None;
      }
      inFlight := true;
      pending := Some(Request(nextPage, mode));
      if mode == Replace {
        loading := true;
        error := None;
      } else {
        loadingMore := true;
      }
      request := Some(FeedEndpoint(nextPage));
    }

    /** The rest of `fetchPage` when `apiRequest` resolves: the page's events are merged
        by the request's mode and sorted in place by date, `page` becomes the requested
        page, `hasMore` records whether the page was full, and the loading flags and the
        in-flight flag are cleared (the `finally` block). */
    method FetchSucceeded(env: DateEnv, gigs: seq<GigDto>)
      requires Valid() && pending.Some?
      modifies this
      ensures Valid()
      ensures !inFlight && pending == None && !loading && !loadingMore
      ensures events == Fetched(env, old(events), gigs, old(pending).value) && SortedBy(events, DateOf)
      ensures page == old(pending).value.page && hasMore == (|gigs| == PageSize) && error == old(error)
    {
      var req := pending.value;
      events := MergePage(env, events, gigs, req);
      page := req.page;
      hasMore := |gigs| == PageSize;
      loading := false;
      loadingMore := false;
      inFlight := false;
      pending := None;
    }

    /** The rest of `fetchPage` when `apiRequest` throws: the error is set to the thrown
        `Error`'s message or to the generic text, the list, `page` and `hasMore` stay as
        they were, and the flags are cleared as on success. */
    method FetchFailed(message: Option<string>)
      requires Valid() && pending.Some?
      modifies this
      ensures Valid()
      ensures !inFlight && pending == None && !loading && !loadingMore
      ensures error == Some(ErrorText(message))
      ensures events == old(events) && page == old(page) && hasMore == old(hasMore)
    {
      error := Some(ErrorText(message));
      loading := false;
      loadingMore := false;
      inFlight := false;
      pending := None;
    }

    /** The sentinel's intersection callback: it asks for the next page, appended, exactly
        when the gate opens, and then the request always starts. */
    method OnSentinel(entries: seq<bool>) returns (request: Option<string>)
      requires Valid()
      modifies this
      ensures Valid()
      ensures !old(ShouldLoadMore(entries, scroll.hasUserScrolled, loading, loadingMore, hasMore)) ==>
        request == None && unchanged(this)
      ensures old(ShouldLoadMore(entries, scroll.hasUserScrolled, loading, loadingMore, hasMore)) ==>
        request == Some(FeedEndpoint(old(page) + 1)) && inFlight &&
        pending == Some(Request(old(page) + 1, Append)) && loadingMore &&
        loading == old(loading) && error == old(error) && events == old(events) &&
        page == old(page) && hasMore == old(hasMore)
    {
      if !ShouldLoadMore(entries, scroll.hasUserScrolled, loading, loadingMore, hasMore) {
        return None;
      }
      request := BeginFetch(page + 1, Append);
    }

    /** `availableDates`: the dates that have events, each once, in ascending order. */
    method AvailableDates() returns (dates: seq<string>)
      ensures Distinct(dates) && SortedBy(dates, Id)
      ensures forall d :: d in dates <==> exists e :: e in events && e.date == d
    {
      var seen: seq<string> := [];
      var i := 0;
      while i < |events|
        invariant 0 <= i <= |events|
        invariant Distinct(seen)
        invariant forall d :: d in seen <==> exists k :: 0 <= k < i && events[k].date == d
      {
        var d := events[i].date;
        if d !in seen {
          seen := seen + [d];
        }
        i := i + 1;
      }
      var a := new string[|seen|](k requires 0 <= k < |seen| => seen[k]);
      assert a[..] == seen;
      SortInPlace(a, Id);
      dates := a[..];
      StableSortSorted(seen, Id);
      StableSortMultiset(seen, Id);
      DistinctMultiset(seen, dates);
      forall d ensures d in dates <==> exists e :: e in events && e.date == d {
        assert d in dates <==> d in multiset(dates);
        assert d in seen <==> d in multiset(seen);
        if d in seen {
          var k :| 0 <= k < |events| && events[k].date == d;
          assert events[k] in events;
        }
      }
    }

    /** `eventsByMonth`: each month key of the events, once, in order of first appearance,
        with the events of that month in list order. */
    method GroupByMonth() returns (keys: seq<string>, groups: map<string, seq<Event>>)
      ensures keys == MonthKeys(events) && groups == MonthGroups(events)
      ensures Distinct(keys)
      ensures forall k :: k in groups <==> k in keys
      ensures GroupsOf(events, groups)
      ensures forall i :: 0 <= i < |events| ==> MonthOf(events[i]) in groups
    {
      keys := [];
      groups := map[];
      var evs := events;
      var i := 0;
      while i < |evs|
        invariant 0 <= i <= |evs|
        invariant keys == MonthKeys(evs[..i]) && groups == MonthGroups(evs[..i])
      {
        var e := evs[i];
        var key := MonthOf(e);
        MonthStep(evs, i);
        var current := if key in groups then groups[key] else [];
        if key !in groups {
          keys := keys + [key];
        }
        groups := groups[key := current + [e]];
        i := i + 1;
      }
      assert evs[..i] == evs;
      MonthGroupsSpec(evs);
    }
  }

  /** The month keys of `s`, each once, in order of first appearance. */
  function MonthKeys(s: seq<Event>): seq<string> {
    if s == [] then []
    else
      var p := MonthKeys(s[..|s| - 1]);
      var k := MonthOf(s[|s| - 1]);
      if k in p then p else p + [k]
  }

  /** The events of `s` by month key, each group in list order. */
  function MonthGroups(s: seq<Event>): map<string, seq<Event>> {
    if s == [] then map[]
    else
      var g := MonthGroups(s[..|s| - 1]);
      var e := s[|s| - 1];
      g[MonthOf(e) := (if MonthOf(e) in g then g[MonthOf(e)] else []) + [e]]
  }

  /** One more event: its key is listed the first time it appears, and the event joins
      the end of that key's group. */
  lemma MonthStep(s: seq<Event>, i: nat)
    requires i < |s|
    ensures var k := MonthOf(s[i]); var g := MonthGroups(s[..i]);
      (k in g <==> k in MonthKeys(s[..i])) &&
      MonthKeys(s[..i + 1]) == (if k in g then MonthKeys(s[..i]) else MonthKeys(s[..i]) + [k]) &&
      MonthGroups(s[..i + 1]) == g[k := (if k in g then g[k] else []) + [s[i]]]
  {
    var t := s[..i + 1];
    assert t[..i] == s[..i] && t[i] == s[i];
    MonthKeysListed(s[..i]);
  }

  /** `groups` holds, for every month key, the events of `s` with that key, and no empty group. */
  ghost predicate GroupsOf(s: seq<Event>, groups: map<string, seq<Event>>) {
    forall k :: WithKey(s, MonthOf, k) == (if k in groups then groups[k] else []) &&
                (k in groups ==> groups[k] != [])
  }

  /** The keys are listed once each, they are exactly the groups' keys, each group holds
      the events of its month in order, and every event's month has a group. */
  lemma MonthGroupsSpec(s: seq<Event>)
    ensures var keys, groups := MonthKeys(s), MonthGroups(s);
      Distinct(keys) && (forall k :: k in groups <==> k in keys) && GroupsOf(s, groups) &&
      forall i :: 0 <= i < |s| ==> MonthOf(s[i]) in groups
  {
    MonthKeysListed(s);
    MonthGroupsOf(s);
    var groups := MonthGroups(s);
    forall i | 0 <= i < |s| ensures MonthOf(s[i]) in groups {
      WithKeyMembers(s, MonthOf, MonthOf(s[i]), s[i]);
    }
  }

  lemma {:induction false} MonthKeysListed(s: seq<Event>)
    ensures Distinct(MonthKeys(s)) && forall k :: k in MonthGroups(s) <==> k in MonthKeys(s)
  {
    if s != [] {
      var p := s[..|s| - 1];
      MonthKeysListed(p);
      KeysSnoc(MonthKeys(p), MonthGroups(p), MonthOf(s[|s| - 1]), MonthKeys(s), MonthGroups(s));
    }
  }

  lemma {:induction false} MonthGroupsOf(s: seq<Event>)
    ensures GroupsOf(s, MonthGroups(s))
  {
    if s != [] {
      var p := s[..|s| - 1];
      MonthGroupsOf(p);
      GroupsOfSnoc(p, s[|s| - 1], MonthGroups(p), MonthGroups(s));
      assert s == p + [s[|s| - 1]];
    }
  }

  /** A key written to the groups is listed once, on its first appearance. */
  lemma KeysSnoc(keys: seq<string>, before: map<string, seq<Event>>, key: string,
                 keys': seq<string>, after: map<string, seq<Event>>)
    requires Distinct(keys) && forall k :: k in before <==> k in keys
    requires keys' == if key in before then keys else keys + [key]
    requires after.Keys == before.Keys + {key}
    ensures Distinct(keys') && forall k :: k in after <==> k in keys'
  {
  }

  lemma GroupsOfSnoc(s: seq<Event>, e: Event, before: map<string, seq<Event>>, after: map<string, seq<Event>>)
    requires GroupsOf(s, before)
    requires after == before[MonthOf(e) := (if MonthOf(e) in before then before[MonthOf(e)] else []) + [e]]
    ensures GroupsOf(s + [e], after)
  {
    forall k ensures WithKey(s + [e], MonthOf, k) == (if k in after then after[k] else []) &&
                     (k in after ==> after[k] != []) {
      assert (s + [e])[..|s|] == s;
    }
  }

  // ---------------------------------------------------------------- properties

  /** A page number, negative ones included, is its own form-urlencoded serialization. */
  lemma PageNumberEncoding(page: int)
    ensures FormEncode(IntToString(page)) == IntToString(page)
  {
    var d := NatToString(if page < 0 then -page else page);
    assert forall i :: 0 <= i < |d| ==> IsDigit(d[i]);
    if page < 0 {
      assert forall i :: 0 <= i < |"-" + d| ==> IsFormSafeChar(("-" + d)[i]);
    }
    FormEncodeSafe(IntToString(page));
  }

  /** The events of a later page get larger indices than those of an earlier page, as long
      as each page holds at most `PAGE_SIZE` gigs. */
  lemma PageIndicesIncrease(n: int, i: int, m: int, j: int)
    requires n < m && 0 <= i < PageSize && 0 <= j
    ensures PageIndex(n, i) < PageIndex(m, j)
  {
  }

  /** The i-th gig of page n becomes the event built with index (n-1)*30 + i. */
  lemma MapPageAt(env: DateEnv, gigs: seq<GigDto>, page: int, i: int)
    requires 0 <= i < |gigs|
    ensures |MapPage(env, gigs, page)| == |gigs|
    ensures MapPage(env, gigs, page)[i] == GigDtoToEvent(env, gigs[i], (page - 1) * 30 + i)
  {
  }

  /** Within a page from the first on, the events' ids are pairwise distinct. */
  lemma MappedIdsDistinct(env: DateEnv, gigs: seq<GigDto>, page: int, i: int, j: int)
    requires page >= 1 && 0 <= i < j < |gigs|
    ensures MapPage(env, gigs, page)[i].id != MapPage(env, gigs, page)[j].id
  {
    MapPageAt(env, gigs, page, i);
    MapPageAt(env, gigs, page, j);
    var r := MapPage(env, gigs, page);
    EventIdsDistinct(r[i].date, PageIndex(page, i), r[j].date, PageIndex(page, j));
  }

  /** After a successful fetch the list is sorted by date; a replacing fetch holds exactly
      the new events and an appending one every old and every new event, none merged away;
      among events of one date the old come first, each group in its original order. */
  lemma MergedEvents(prev: seq<Event>, mapped: seq<Event>, mode: Mode, d: string)
    ensures var r := StableSort(Merge(prev, mapped, mode), DateOf);
      SortedBy(r, DateOf) &&
      multiset(r) == (if mode == Replace then multiset(mapped) else multiset(prev) + multiset(mapped)) &&
      WithKey(r, DateOf, d) ==
        (if mode == Replace then WithKey(mapped, DateOf, d) else WithKey(prev, DateOf, d) + WithKey(mapped, DateOf, d))
  {
    var merged := Merge(prev, mapped, mode);
    StableSortSorted(merged, DateOf);
    StableSortMultiset(merged, DateOf);
    StableSortWithKey(merged, DateOf, d);
    WithKeyAppend(prev, mapped, DateOf, d);
  }

  /** With at least one anchor some anchor is chosen; one above the header wins over
      every anchor below it. */
  lemma ActiveAnchorChoice(ts: seq<int>)
    ensures ActiveAnchor(ts).Some? <==> ts != []
    ensures ActiveAnchor(ts).Some? ==> ActiveAnchor(ts).value < |ts|
    ensures (exists j :: 0 <= j < |ts| && ts[j] < 0) ==>
              ActiveAnchor(ts) == ClosestAbove(ts) && ts[ActiveAnchor(ts).value] < 0
    ensures (forall j :: 0 <= j < |ts| ==> ts[j] >= 0) ==> ActiveAnchor(ts) == FirstBelow(ts)
  {
    if ts != [] && ClosestAbove(ts).None? {
      assert ts[0] >= 0;
    }
  }

  /** The header height shifts every top alike, so the choice only depends on it through
      which anchors are above the header line. */
  lemma ActiveDateOfAnchor(anchors: seq<Anchor>, headerHeight: Option<int>)
    requires anchors != []
    ensures var i := ActiveAnchor(Tops(anchors, headerHeight));
      i.Some? && i.value < |anchors| && ActiveDate(anchors, headerHeight) == TruthyDate(anchors[i.value].date)
  {
    ActiveAnchorChoice(Tops(anchors, headerHeight));
  }

  /** `months` lists each month key once, in ascending order, as the first of that month,
      with that month's events in list order. */
  lemma MonthsOfGroups(events: seq<Event>, keys: seq<string>, groups: map<string, seq<Event>>)
    requires Distinct(keys) && forall k :: k in groups <==> k in keys
    requires forall k :: k in groups ==> groups[k] == WithKey(events, MonthOf, k)
    ensures var sorted := StableSort(keys, Id);
      Distinct(sorted) && SortedBy(sorted, Id) && (forall k :: k in sorted <==> k in keys) &&
      forall i :: 0 <= i < |sorted| ==>
        Months(keys, groups)[i] == MonthEntry(sorted[i] + "-01", WithKey(events, MonthOf, sorted[i]))
  {
    var sorted := StableSort(keys, Id);
    StableSortSorted(keys, Id);
    StableSortMultiset(keys, Id);
    DistinctMultiset(keys, sorted);
    forall k ensures k in sorted <==> k in keys {
      assert k in sorted <==> k in multiset(sorted);
    }
  }

  /** Each event is in its own month's group and in no other. */
  lemma EventInOneGroup(events: seq<Event>, e: Event, k: string)
    ensures e in WithKey(events, MonthOf, k) <==> e in events && MonthKey(e.date) == k
  {
    WithKeyMembers(events, MonthOf, k, e);
  }

  /** A click goes to the first anchor of the day when there is one; otherwise to the
      card of the day's first event when that card is registered; otherwise nowhere. */
  lemma DayClickChoice(key: string, anchorDates: seq<Option<string>>, events: seq<Event>, refs: set<string>)
    ensures var t := DayClickTarget(key, anchorDates, events, refs);
      (t.Some? && t.value.AnchorAt? ==>
         t.value.index < |anchorDates| && anchorDates[t.value.index] == Some(key) &&
         forall j :: 0 <= j < t.value.index ==> anchorDates[j] != Some(key)) &&
      (t.Some? && t.value.Card? ==>
         (forall j :: 0 <= j < |anchorDates| ==> anchorDates[j] != Some(key)) &&
         t.value.id in refs &&
         exists j :: 0 <= j < |events| && events[j].date == key && events[j].id == t.value.id &&
                     forall k :: 0 <= k < j ==> events[k].date != key) &&
      ((exists j :: 0 <= j < |anchorDates| && anchorDates[j] == Some(key)) ==> t.Some? && t.value.AnchorAt?) &&
      (t.None? ==> (forall j :: 0 <= j < |anchorDates| ==> anchorDates[j] != Some(key))) &&
      (t.None? ==> forall j :: (0 <= j < |events| && events[j].date == key &&
                                (forall k :: 0 <= k < j ==> events[k].date != key)) ==> events[j].id !in refs)
  {
    var pa := (d: Option<string>) => d == Some(key);
    var pe := (e: Event) => e.date == key;
    var a := FirstWhere(anchorDates, pa);
    if a.None? {
      var f := FirstWhere(events, pe);
      if f.Some? {
        assert pe(events[f.value]);
        assert forall k :: 0 <= k < f.value ==> !pe(events[k]);
      }
    } else {
      assert pa(anchorDates[a.value]);
      assert forall j :: 0 <= j < a.value ==> !pa(anchorDates[j]);
    }
    assert a.None? ==> forall j :: 0 <= j < |anchorDates| ==> !pa(anchorDates[j]);
  }
}
