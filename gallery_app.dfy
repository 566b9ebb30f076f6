/**
 The `App` component as an object: the seven state hooks are its fields and
 every handler updates them in place. Each method is specified by the pure
 transition it performs, so the invariants proved about traces of events
 hold of any sequence of calls.
 */
module GalleryApp {
  import opened GalleryModel
  import opened GalleryEvents

  class App {
    var data: seq<Item>
    var loading: bool
    var error: Option<string>
    var page: int
    var hasMore: bool
    var view: View
    var imagesLoaded: nat

    /** The fields as one state value. */
    function Snapshot(): State
      reads this
    {
      State(data, loading, error, page, hasMore, view, imagesLoaded)
    }

    /** The state hooks' initial values. */
    constructor ()
      ensures Snapshot() == Initial
    {
      data, loading, error, page := [], false, None, 1;
      hasMore, view, imagesLoaded := true, Grid, 0;
    }

    /** The first render's effect: fetch page 1 of the grid in replace mode. */
    method Mount() returns (request: Option<Request>)
      requires Snapshot() == Initial
      modifies this
      ensures Transition(Snapshot(), request) == Mounted()
      ensures request == Some(Request(1, true)) && loading
    {
      request := RunGridEffect(page, view, true);
    }

    /** The part of `fetchData` that runs before the network call. */
    method StartFetch()
      modifies this
      ensures Snapshot() == FetchStart(old(Snapshot()))
      ensures loading && error == None
    {
      loading := true;
      error := None;
    }

    /** The part of `fetchData` that runs when the network call settles. */
    method CompleteFetch(resetData: bool, result: Option<seq<Item>>)
      modifies this
      ensures Snapshot() == FetchComplete(old(Snapshot()), resetData, result)
      ensures Snapshot() == Step(old(Snapshot()), FetchSettled(resetData, result)).state
      ensures !loading
    {
      match result {
        case None =>
          error := Some(FetchFailedMessage);
        case Some(items) =>
          if |items| == 0 {
            hasMore := false;
          }
          if resetData {
            data := items;
          } else {
            data := data + items;
          }
          imagesLoaded := 0;
      }
      loading := false;
    }

    /**
     The grid auto-fetch effect after a render whose previous render had
     `prevPage` and `prevView`.
     */
    method RunGridEffect(prevPage: int, prevView: View, firstRender: bool) returns (request: Option<Request>)
      modifies this
      ensures Transition(Snapshot(), request) == GridEffect(prevPage, prevView, firstRender, old(Snapshot()))
    {
      if (firstRender || page != prevPage || view != prevView) && view == Grid {
        StartFetch();
        request := Some(Request(page, true));
      } else {
        request := None;
      }
    }

    /** `handleImageLoad`. */
    method HandleImageLoad()
      modifies this
      ensures Snapshot() == ImageLoad(old(Snapshot()))
      ensures Snapshot() == Step(old(Snapshot()), ImageLoaded).state
      ensures imagesLoaded == old(imagesLoaded) + 1
    {
      imagesLoaded := imagesLoaded + 1;
    }

    /** The click handler of the Grid View or List View tab, followed by the effect. */
    method ClickTab(v: View) returns (request: Option<Request>)
      modifies this
      ensures Transition(Snapshot(), request) == Step(old(Snapshot()), TabClicked(v))
      ensures view == v && page == 1 && hasMore && data == [] && imagesLoaded == old(imagesLoaded)
      ensures request.Some? <==> v == Grid && (old(view) != Grid || old(page) != 1)
    {
      var prevPage, prevView := page, view;
      view := v;
      page := 1;
      data := [];
      hasMore := true;
      request := RunGridEffect(prevPage, prevView, false);
    }

    /** A click on Previous (a no-op while it is disabled or hidden), followed by the effect. */
    method ClickPrevious() returns (request: Option<Request>)
      modifies this
      ensures Transition(Snapshot(), request) == Step(old(Snapshot()), PreviousClicked)
      ensures request.Some? <==> PreviousEnabled(old(Snapshot()))
      ensures old(page) >= 1 ==> page >= 1
    {
      var prevPage, prevView := page, view;
      if view == Grid && page != 1 && !loading {
        page := page - 1;
        data := [];
      }
      request := RunGridEffect(prevPage, prevView, false);
    }

    /** A click on Next (a no-op while it is disabled or hidden), followed by the effect. */
    method ClickNext() returns (request: Option<Request>)
      modifies this
      ensures Transition(Snapshot(), request) == Step(old(Snapshot()), NextClicked)
      ensures request.Some? <==> NextEnabled(old(Snapshot()))
      ensures request.Some? ==> request.value == Request(old(page) + 1, true) && data == [] && loading
    {
      var prevPage, prevView := page, view;
      if view == Grid && hasMore && !loading {
        page := page + 1;
        data := [];
      }
      request := RunGridEffect(prevPage, prevView, false);
    }

    /**
     `handleScroll`; `nearBottom` says whether the window is scrolled to within
     10 pixels of the bottom of the document.
     */
    method HandleScroll(nearBottom: bool) returns (request: Option<Request>)
      modifies this
      ensures Transition(Snapshot(), request) == Scroll(old(Snapshot()), nearBottom)
      ensures Transition(Snapshot(), request) == Step(old(Snapshot()), Scrolled(nearBottom))
      ensures request.Some? <==> ScrollGuard(old(Snapshot()), nearBottom)
    {
      if nearBottom && view == List && hasMore && !loading && imagesLoaded == |data| {
        StartFetch();
        request := Some(Request(page + 1, false));
        page := page + 1;
      } else {
        request := None;
      }
    }
  }
}
