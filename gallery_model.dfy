/**
 The state of the cat image gallery controller (the `App` component) as a value,
 and one pure transition function per thing that changes it: the two halves of
 `fetchData`, the image-load counter, the tab handlers, the pagination buttons,
 the scroll handler and the grid auto-fetch effect.
 */
module GalleryModel {

  datatype Option<T> = None | Some(value: T)

  /** The two display modes: a paginated grid and an infinitely scrolling list. */
  datatype View = Grid | List

  /** One record of the image-search response; the gallery only uses its url. */
  datatype Item = Item(url: string)

  /** A call `fetchData(page, resetData)` whose network outcome is still pending. */
  datatype Request = Request(page: int, resetData: bool)

  /** The message shown after any network or parse failure. */
  const FetchFailedMessage: string := "Failed to fetch data"

  /** The seven state hooks of the component. */
  datatype State = State(
    data: seq<Item>,
    loading: bool,
    error: Option<string>,
    page: int,
    hasMore: bool,
    view: View,
    imagesLoaded: nat)

  /** What handling one event produces: the next state and the request it issued, if any. */
  datatype Transition = Transition(state: State, request: Option<Request>)

  /** The state hooks' initial values at mount. */
  const Initial: State := State([], false, None, 1, true, Grid, 0)

  /** The synchronous start of `fetchData`: only `loading` and `error` change. */
  function FetchStart(s: State): (t: State)
    ensures t.loading && t.error == None
    ensures t.(loading := s.loading, error := s.error) == s
  {
    s.(loading := true, error := None)
  }

  /**
   The completion of `fetchData`: `result` is the parsed response, or None when
   the request or the parse failed.
   */
  function FetchComplete(s: State, resetData: bool, result: Option<seq<Item>>): (t: State)
    // the finally branch: every completion stops loading
    ensures !t.loading
    ensures t.page == s.page && t.view == s.view
    // failure: the message is set and the gallery keeps what it showed
    ensures result.None? ==>
      t.error == Some(FetchFailedMessage) && t.data == s.data &&
      t.hasMore == s.hasMore && t.imagesLoaded == s.imagesLoaded
    // success: replace or append, an empty page ends paging, the load counter restarts
    ensures result.Some? ==>
      t.error == s.error && t.imagesLoaded == 0 &&
      (t.hasMore <==> s.hasMore && result.value != []) &&
      (resetData ==> t.data == result.value) &&
      (!resetData ==> s.data <= t.data && t.data[|s.data|..] == result.value)
  {
    match result
    case None =>
      s.(error := Some(FetchFailedMessage), loading := false)
    case Some(items) =>
      var more := if |items| == 0 then false else s.hasMore;
      var shown := if resetData then items else s.data + items;
      s.(hasMore := more, data := shown, imagesLoaded := 0, loading := false)
  }

  /** `handleImageLoad`: one more card reported its image loaded. */
  function ImageLoad(s: State): (t: State)
    ensures t.imagesLoaded == s.imagesLoaded + 1
    ensures t.(imagesLoaded := s.imagesLoaded) == s
  {
    s.(imagesLoaded := s.imagesLoaded + 1)
  }

  /** Either tab button: the same reset, whatever the previous view was. */
  function SelectTab(s: State, v: View): (t: State)
    ensures t.view == v && t.page == 1 && t.data == [] && t.hasMore
    ensures t.loading == s.loading && t.error == s.error && t.imagesLoaded == s.imagesLoaded
  {
    s.(view := v, page := 1, data := [], hasMore := true)
  }

  /** The Previous button is rendered only in grid view and disabled on page 1 or while loading. */
  predicate PreviousEnabled(s: State)
  {
    s.view == Grid && s.page != 1 && !s.loading
  }

  /** The Next button is rendered only in grid view and disabled without more pages or while loading. */
  predicate NextEnabled(s: State)
  {
    s.view == Grid && s.hasMore && !s.loading
  }

  /** A click on Previous; a click on a disabled or absent button does nothing. */
  function Previous(s: State): (t: State)
    ensures PreviousEnabled(s) ==> t == s.(page := s.page - 1, data := [])
    ensures !PreviousEnabled(s) ==> t == s
    ensures s.page >= 1 ==> t.page >= 1
  {
    if PreviousEnabled(s) then s.(page := s.page - 1, data := []) else s
  }

  /** A click on Next; a click on a disabled or absent button does nothing. */
  function Next(s: State): (t: State)
    ensures NextEnabled(s) ==> t == s.(page := s.page + 1, data := [])
    ensures !NextEnabled(s) ==> t == s
    ensures t.page >= s.page
  {
    if NextEnabled(s) then s.(page := s.page + 1, data := []) else s
  }

  /**
   The condition `handleScroll` tests; `nearBottom` stands for the window having
   been scrolled to within 10 pixels of the document's bottom.
   */
  predicate ScrollGuard(s: State, nearBottom: bool)
  {
    nearBottom && s.view == List && s.hasMore && !s.loading && s.imagesLoaded == |s.data|
  }

  /**
   `handleScroll`: when its guard holds it calls `fetchData(page + 1)` in append
   mode and then increments `page`; otherwise nothing happens.
   */
  function Scroll(s: State, nearBottom: bool): (r: Transition)
    ensures r.request.Some? <==> ScrollGuard(s, nearBottom)
    ensures r.request.Some? ==>
      r.request.value == Request(s.page + 1, false) &&
      r.state.page == s.page + 1 && r.state.loading && r.state.error == None &&
      r.state.data == s.data && r.state.hasMore == s.hasMore &&
      r.state.view == s.view && r.state.imagesLoaded == s.imagesLoaded
    ensures r.request.None? ==> r.state == s
  {
    if ScrollGuard(s, nearBottom) then
      Transition(FetchStart(s).(page := s.page + 1), Some(Request(s.page + 1, false)))
    else
      Transition(s, None)
  }

  /**
   The grid auto-fetch effect, run after the render that follows an event.
   React runs it on the first render and whenever `page` or `view` differs from
   the previous render's (`prevPage`, `prevView`); it then fetches the current
   page in replace mode, but only in grid view.
   */
  function GridEffect(prevPage: int, prevView: View, firstRender: bool, s: State): (r: Transition)
    ensures r.request.Some? <==>
      s.view == Grid && (firstRender || s.page != prevPage || s.view != prevView)
    ensures r.request.Some? ==> r.request.value == Request(s.page, true) && r.state == FetchStart(s)
    ensures r.request.None? ==> r.state == s
  {
    var depsChanged := firstRender || s.page != prevPage || s.view != prevView;
    if depsChanged && s.view == Grid then
      Transition(FetchStart(s), Some(Request(s.page, true)))
    else
      Transition(s, None)
  }
}
