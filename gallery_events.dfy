/**
 The gallery as an event-driven machine: every user or network event runs its
 handler, React re-renders once with the handler's batched updates, and the grid
 auto-fetch effect then compares `page` and `view` with the previous render's.
 Traces of events are replayed from a state to state invariants of the controller.
 */
module GalleryEvents {
  import opened GalleryModel

  /** The events the controller reacts to after mount. */
  datatype Event =
    | TabClicked(view: View)
    | PreviousClicked
    | NextClicked
    | Scrolled(nearBottom: bool)
    | ImageLoaded
    | FetchSettled(resetData: bool, result: Option<seq<Item>>)

  /** The handler alone, before the render and the effect. */
  function Handle(s: State, e: Event): Transition
  {
    match e
    case TabClicked(v) => Transition(SelectTab(s, v), None)
    case PreviousClicked => Transition(Previous(s), None)
    case NextClicked => Transition(Next(s), None)
    case Scrolled(nearBottom) => Scroll(s, nearBottom)
    case ImageLoaded => Transition(ImageLoad(s), None)
    case FetchSettled(resetData, result) => Transition(FetchComplete(s, resetData, result), None)
  }

  /** The first render: the effect runs unconditionally and fetches page 1 of the grid. */
  function Mounted(): (r: Transition)
    ensures r.request == Some(Request(1, true))
    ensures r.state.loading && r.state.page == 1 && r.state.view == Grid && r.state.data == []
  {
    GridEffect(Initial.page, Initial.view, true, Initial)
  }

  /** One event: the handler, then the effect of the render it causes. */
  function Step(s: State, e: Event): (r: Transition)
    // a fetch is issued by the scroll handler or by the effect, never by both
    ensures r.request.Some? ==>
      (e.Scrolled? && ScrollGuard(s, e.nearBottom)) ||
      (r.state.view == Grid && !e.Scrolled? && !e.ImageLoaded? && !e.FetchSettled?)
    // page never drops below 1
    ensures s.page >= 1 ==> r.state.page >= 1
    // only a tab click sets hasMore
    ensures !e.TabClicked? && r.state.hasMore ==> s.hasMore
  {
    var h := Handle(s, e);
    var effect := GridEffect(s.page, s.view, false, h.state);
    Transition(effect.state, if h.request.Some? then h.request else effect.request)
  }

  /** The state after replaying `events` from `s`. */
  function Run(s: State, events: seq<Event>): State
    decreases |events|
  {
    if events == [] then s else Run(Step(s, events[0]).state, events[1..])
  }

  /** The requests issued, in order, while replaying `events` from `s`. */
  function Requests(s: State, events: seq<Event>): seq<Request>
    decreases |events|
  {
    if events == [] then []
    else
      var r := Step(s, events[0]);
      (if r.request.Some? then [r.request.value] else []) + Requests(r.state, events[1..])
  }

  predicate NoTabClicks(events: seq<Event>)
  {
    forall i :: 0 <= i < |events| ==> !events[i].TabClicked?
  }

  /** `n` image-load events in a row. */
  function Loads(n: nat): (events: seq<Event>)
    ensures |events| == n
    ensures forall i :: 0 <= i < n ==> events[i] == ImageLoaded
  {
    seq(n, _ => ImageLoaded)
  }

  /** Starting on a page of at least 1, no sequence of events (enabled clicks or not) reaches page 0. */
  lemma {:induction false} PageStaysPositive(s: State, events: seq<Event>)
    requires s.page >= 1
    ensures Run(s, events).page >= 1
    decreases |events|
  {
    if events != [] {
      PageStaysPositive(Step(s, events[0]).state, events[1..]);
    }
  }

  /** From mount on, every reachable state has `page >= 1`. */
  lemma {:induction false} PagePositiveFromMount(events: seq<Event>)
    ensures Run(Mounted().state, events).page >= 1
  {
    PageStaysPositive(Mounted().state, events);
  }

  /** Without a tab click, `hasMore` never goes from false back to true. */
  lemma {:induction false} HasMoreRaisedOnlyByTabs(s: State, events: seq<Event>)
    requires NoTabClicks(events)
    ensures Run(s, events).hasMore ==> s.hasMore
    decreases |events|
  {
    if events != [] {
      HasMoreRaisedOnlyByTabs(Step(s, events[0]).state, events[1..]);
    }
  }

  /** A successful empty page ends paging until the next tab click, whatever else happens. */
  lemma {:induction false} EmptyPageEndsPaging(s: State, resetData: bool, events: seq<Event>)
    requires NoTabClicks(events)
    ensures !Run(s, [FetchSettled(resetData, Some([]))] + events).hasMore
  {
    var t := Step(s, FetchSettled(resetData, Some([]))).state;
    assert !t.hasMore;
    assert ([FetchSettled(resetData, Some([]))] + events)[1..] == events;
    HasMoreRaisedOnlyByTabs(t, events);
  }

  /**
   In list view, as long as no tab is clicked and every completion is an append,
   the list only grows: what was shown stays a prefix of what is shown.
   */
  lemma {:induction false} ListOnlyGrows(s: State, events: seq<Event>)
    requires s.view == List
    requires NoTabClicks(events)
    requires forall i :: 0 <= i < |events| && events[i].FetchSettled? ==> !events[i].resetData
    ensures Run(s, events).view == List
    ensures s.data <= Run(s, events).data
    decreases |events|
  {
    if events != [] {
      var t := Step(s, events[0]).state;
      assert s.data <= t.data;
      ListOnlyGrows(t, events[1..]);
    }
  }

  /** After a successful fetch, `k` image-load events set the counter to exactly `k`. */
  lemma {:induction false} LoadsAreCounted(s: State, k: nat)
    ensures Run(s, Loads(k)) == s.(imagesLoaded := s.imagesLoaded + k)
    decreases k
  {
    if k > 0 {
      var t := Step(s, ImageLoaded).state;
      assert t == s.(imagesLoaded := s.imagesLoaded + 1);
      assert Loads(k)[1..] == Loads(k - 1);
      LoadsAreCounted(t, k - 1);
    }
  }

  /**
   The image-load gate: in list view with the counter at 0, `k` image-load
   events followed by a scroll to the bottom fetch the next page exactly when
   `k` equals the number of shown items.
   */
  lemma {:induction false} ScrollWaitsForImages(s: State, k: nat)
    requires s.view == List && s.hasMore && !s.loading && s.imagesLoaded == 0
    requires k <= |s.data|
    ensures Step(Run(s, Loads(k)), Scrolled(true)).request ==
      (if k == |s.data| then Some(Request(s.page + 1, false)) else None)
  {
    LoadsAreCounted(s, k);
  }

  /**
   Cards are keyed by position and keep their image, so after an append only the
   cards of the new page report a load. With the previous items still on
   screen, those loads alone leave the counter short of the item count, and
   the next scroll to the bottom fetches nothing: the list stops growing.
   */
  lemma {:induction false} AppendedPageLoadsLeaveGateShut(s: State, r: seq<Item>)
    requires s.view == List && s.hasMore && !s.loading && 0 < |s.data| == s.imagesLoaded
    requires r != []
    ensures Step(s, Scrolled(true)).request == Some(Request(s.page + 1, false))
    ensures
      var fetched := Step(Step(s, Scrolled(true)).state, FetchSettled(false, Some(r))).state;
      fetched.data == s.data + r &&
      Step(Run(fetched, Loads(|r|)), Scrolled(true)).request == None
  {
    var fetched := Step(Step(s, Scrolled(true)).state, FetchSettled(false, Some(r))).state;
    assert fetched.imagesLoaded == 0 && fetched.data == s.data + r;
    LoadsAreCounted(fetched, |r|);
  }

  /**
   A list whose load counter ran ahead of its items (as after leaving a grid
   whose images had loaded) never fetches again while no fetch settles and no
   tab is clicked: scrolling is gated off and the items stay as they are.
   */
  lemma {:induction false} CounterAheadStallsList(s: State, events: seq<Event>)
    requires s.view == List && s.imagesLoaded > |s.data|
    requires NoTabClicks(events)
    requires forall i :: 0 <= i < |events| ==> !events[i].FetchSettled?
    ensures Requests(s, events) == []
    ensures Run(s, events).data == s.data
    decreases |events|
  {
    if events != [] {
      var t := Step(s, events[0]).state;
      assert Step(s, events[0]).request == None;
      assert t.view == List && t.data == s.data && t.imagesLoaded >= s.imagesLoaded;
      CounterAheadStallsList(t, events[1..]);
    }
  }

  /**
   Switching from a grid whose images have all loaded to the list view issues no
   fetch, and the list then stays empty under any scrolls, image loads or
   pagination clicks.
   */
  lemma {:induction false} ListAfterLoadedGridStaysEmpty(s: State, events: seq<Event>)
    requires s.view == Grid && 0 < |s.data| == s.imagesLoaded
    requires NoTabClicks(events)
    requires forall i :: 0 <= i < |events| ==> !events[i].FetchSettled?
    ensures Requests(s, [TabClicked(List)] + events) == []
    ensures Run(s, [TabClicked(List)] + events).data == []
  {
    ListTabKeepsGateShut(s, events);
  }

  /**
   A List tab click empties the list but keeps the load counter, so from any
   view with a nonzero counter it leaves the list empty and unfetched under
   scrolls, image loads and pagination clicks; clicking List again does not
   reopen the gate either, since only a successful fetch resets the counter.
   */
  lemma {:induction false} ListTabKeepsGateShut(s: State, events: seq<Event>)
    requires s.imagesLoaded > 0
    requires NoTabClicks(events)
    requires forall i :: 0 <= i < |events| ==> !events[i].FetchSettled?
    ensures Requests(s, [TabClicked(List)] + events) == []
    ensures Run(s, [TabClicked(List)] + events).data == []
  {
    var first := Step(s, TabClicked(List));
    assert first.request == None;
    assert first.state.view == List && first.state.data == [] && first.state.imagesLoaded > 0;
    assert ([TabClicked(List)] + events)[1..] == events;
    CounterAheadStallsList(first.state, events);
  }

  /**
   The way out of a stalled list: click Grid, let its first page arrive, and
   click List before any of its images loads. The counter is then 0 on an empty
   list, so the next scroll fetches, and it asks for page 2, not page 1.
   */
  lemma GridDetourReopensGate(s: State, r: seq<Item>)
    requires s.view == List && !s.loading
    requires r != []
    ensures
      var toGrid := Step(s, TabClicked(Grid));
      var settled := Step(toGrid.state, FetchSettled(true, Some(r))).state;
      var toList := Step(settled, TabClicked(List)).state;
      toGrid.request == Some(Request(1, true)) &&
      toList.data == [] && toList.imagesLoaded == 0 &&
      Step(toList, Scrolled(true)).request == Some(Request(2, false))
  {
  }

  /** Clicking the list tab never fetches: the list view has no initial fetch of its own. */
  lemma ListTabNeverFetches(s: State)
    ensures Step(s, TabClicked(List)).request == None
    ensures Step(s, TabClicked(List)).state.data == []
  {
  }

  /**
   Clicking the grid tab fetches page 1 in replace mode unless the grid is
   already showing page 1, in which case the items are cleared and nothing is fetched.
   */
  lemma GridTabFetchesFirstPage(s: State)
    ensures Step(s, TabClicked(Grid)).request ==
      (if s.view == Grid && s.page == 1 then None else Some(Request(1, true)))
    ensures Step(s, TabClicked(Grid)).state.data == []
  {
  }

  /** Alternate Next clicks with successful page fetches, one per result. */
  function PageThrough(results: seq<seq<Item>>): (events: seq<Event>)
    ensures |events| == 2 * |results|
    decreases |results|
  {
    if results == [] then []
    else [NextClicked, FetchSettled(true, Some(results[0]))] + PageThrough(results[1..])
  }

  /** The pages `from + 1` to `from + n`, each fetched in replace mode. */
  function ReplaceRequests(from: int, n: nat): (rs: seq<Request>)
    ensures |rs| == n
    ensures forall i :: 0 <= i < n ==> rs[i] == Request(from + 1 + i, true)
    decreases n
  {
    if n == 0 then [] else [Request(from + 1, true)] + ReplaceRequests(from + 1, n - 1)
  }

  /**
   In the grid, clicking Next and letting each page arrive non-empty advances
   `page` by one per click, requests each page in replace mode, and leaves
   exactly the last page's items on screen.
   */
  lemma {:induction false} NextClicksAdvance(s: State, results: seq<seq<Item>>)
    requires s.view == Grid && s.hasMore && !s.loading
    requires forall i :: 0 <= i < |results| ==> results[i] != []
    ensures Run(s, PageThrough(results)).page == s.page + |results|
    ensures Requests(s, PageThrough(results)) == ReplaceRequests(s.page, |results|)
    ensures results != [] ==> Run(s, PageThrough(results)).data == results[|results| - 1]
    ensures Run(s, PageThrough(results)).hasMore && !Run(s, PageThrough(results)).loading
    decreases |results|
  {
    if results != [] {
      var events := PageThrough(results);
      var clicked := Step(s, NextClicked);
      assert clicked.request == Some(Request(s.page + 1, true));
      var settled := Step(clicked.state, FetchSettled(true, Some(results[0])));
      assert settled.request == None;
      assert settled.state == clicked.state.(data := results[0], imagesLoaded := 0, loading := false);
      assert events[0] == NextClicked;
      assert events[1..][0] == FetchSettled(true, Some(results[0]));
      assert events[1..][1..] == PageThrough(results[1..]);
      NextClicksAdvance(settled.state, results[1..]);
    }
  }
}
