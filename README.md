# Cat image gallery: the controller's state machine

This project models the `App` component of a browser gallery of cat images
(`Assignment/src/App.jsx`). The component fetches pages of five images from an
image-search API. It shows them in one of two views:

- a **grid**, one page at a time, with Previous and Next buttons;
- a **list** that appends the next page when the user scrolls to the bottom and
  every image on screen has finished loading.

All of the component's behaviour is a small state machine over seven state
hooks: `data`, `loading`, `error`, `page`, `hasMore`, `view` and
`imagesLoaded`. The model has three modules:

- `GalleryModel` (`gallery_model.dfy`): the seven hooks as a `State` value, and
  one pure transition function per handler. These are the start and completion
  halves of `fetchData`, the image-load counter, the tab switch, Previous, Next,
  the scroll handler and the grid auto-fetch effect.
- `GalleryEvents` (`gallery_events.dfy`): the component as an event machine.
  Each event runs its handler. React then re-renders once with the batched
  updates, and the grid effect compares `page` and `view` with the previous
  render's values. `Run` and `Requests` replay a sequence of events. The
  lemmas over such traces state the controller's invariants.
- `GalleryApp` (`gallery_app.dfy`): the component as the class `App`. Its
  fields are the seven hooks and it has one method per event. Each method
  updates the fields in place, and its `ensures` ties the new state (and the
  fetch it issues) to the transition in `GalleryModel` or `GalleryEvents`.

The network is not called. A call `fetchData(page, resetData)` becomes a
`Request(page, resetData)` returned by the event that issued it. Its outcome is
a later `FetchSettled(resetData, result)` event. `result` is the parsed array,
or `None` when the request is rejected or the body is not JSON (the `catch` at
`Assignment/src/App.jsx:40`). Completions may arrive in any order and at any
time. The lemmas that allow completions in their traces (`PageStaysPositive`,
`HasMoreRaisedOnlyByTabs`, `EmptyPageEndsPaging`) therefore hold whatever the
network does. `ListOnlyGrows` admits only append-mode completions, and
`CounterAheadStallsList` and `ListTabKeepsGateShut` admit none.

Image-load events are inputs as well: the model counts `ImageLoaded` events
and does not track which card fired them.

The model follows the code, including where its behaviour is surprising:

- Switching to the list view issues no fetch. The effect at
  `Assignment/src/App.jsx:48-52` fetches only in grid view.
- The tab handlers do not reset `imagesLoaded`, so `imagesLoaded <= |data|` is
  not an invariant. Leaving a grid whose images have all loaded for the list
  view leaves the scroll gate shut (`ListAfterLoadedGridStaysEmpty`). Clicking
  List again keeps the counter, so the gate stays shut
  (`ListTabKeepsGateShut`). Only a successful fetch resets the counter
  (`Assignment/src/App.jsx:39`). That happens when a pending fetch settles, or
  when the user clicks Grid and returns to List before any grid image loads.
  The next scroll then asks for page 2, not page 1
  (`GridDetourReopensGate`).
- Cards are keyed by position and keep their image
  (`Assignment/src/App.jsx:6`, `120-122`). After an append
  (`Assignment/src/App.jsx:37`), only the new cards report a load. The counter,
  reset to 0, then stops at the size of the new page, short of the item
  count. The scroll gate stays shut, and the list stops after its second page
  (`AppendedPageLoadsLeaveGateShut`).
- Clicking the Grid tab while the grid already shows page 1 clears the items
  without fetching them again, because neither `page` nor `view` changed
  (`GridTabFetchesFirstPage`).
- The Previous and Next buttons are rendered only in grid view
  (`Assignment/src/App.jsx:126`). Their enable guards therefore include
  `view == Grid`.

## Model

| member | source | states |
|---|---|---|
| `GalleryModel.FetchStart` | Assignment/src/App.jsx:20-22 | starting a fetch sets `loading`, clears `error` and changes nothing else |
| `GalleryModel.FetchComplete` | Assignment/src/App.jsx:29-44 | every completion clears `loading`; a failure sets the fixed message and keeps `data`, `hasMore` and `imagesLoaded`; a success replaces `data` or appends to it (old data a prefix, the rest the result), clears `hasMore` exactly when the result is empty and resets `imagesLoaded` to 0 |
| `GalleryModel.ImageLoad` | Assignment/src/App.jsx:78-80 | each image-load event raises `imagesLoaded` by exactly one and changes nothing else |
| `GalleryModel.SelectTab` | Assignment/src/App.jsx:90-106 | either tab sets the view, resets `page` to 1, empties `data` and sets `hasMore`; `loading`, `error` and `imagesLoaded` are kept |
| `GalleryModel.Previous` | Assignment/src/App.jsx:126-136 | Previous acts only in grid view on a page other than 1 when not loading; it then decrements `page` and empties `data`, otherwise nothing changes; `page >= 1` is preserved |
| `GalleryModel.Next` | Assignment/src/App.jsx:137-145 | Next acts only in grid view with `hasMore` when not loading; it then increments `page` and empties `data`, otherwise nothing changes |
| `GalleryModel.Scroll` | Assignment/src/App.jsx:56-67 | the scroll handler issues a fetch exactly when near bottom, list view, `hasMore`, not loading and `imagesLoaded == |data|` all hold; the fetch is page+1 in append mode, and `page` grows by one; otherwise the state is unchanged |
| `GalleryModel.GridEffect` | Assignment/src/App.jsx:47-52 | the effect fetches the current page in replace mode exactly when the view is grid and this is the first render or `page` or `view` changed; otherwise nothing happens |
| `GalleryEvents.Mounted` | Assignment/src/App.jsx:11-17 | at mount the gallery starts loading page 1 of the grid in replace mode, with no items |
| `GalleryEvents.Step` | Assignment/src/App.jsx:48-145 | a fetch comes only from an enabled scroll or from a grid-view click or tab switch; no event takes `page` below 1; only a tab click sets `hasMore` |
| `GalleryEvents.PageStaysPositive` | Assignment/src/App.jsx:128-145 | from a page of at least 1, no sequence of events reaches a page below 1 |
| `GalleryEvents.PagePositiveFromMount` | Assignment/src/App.jsx:14 | every state reachable from mount has `page >= 1` |
| `GalleryEvents.HasMoreRaisedOnlyByTabs` | Assignment/src/App.jsx:30-32 | without a tab click, `hasMore` never goes from false to true |
| `GalleryEvents.EmptyPageEndsPaging` | Assignment/src/App.jsx:30-32 | after an empty successful page, `hasMore` stays false until a tab is clicked |
| `GalleryEvents.ListOnlyGrows` | Assignment/src/App.jsx:36-38 | in list view, with no tab click and only append-mode completions, earlier items stay a prefix of the shown items |
| `GalleryEvents.LoadsAreCounted` | Assignment/src/App.jsx:78-80 | `k` image loads raise the counter by exactly `k` and change nothing else |
| `GalleryEvents.ScrollWaitsForImages` | Assignment/src/App.jsx:57-66 | in list view with the counter at 0, `k` image-load events followed by a scroll to the bottom fetch page+1 in append mode exactly when `k` equals the number of shown items |
| `GalleryEvents.AppendedPageLoadsLeaveGateShut` | Assignment/src/App.jsx:34-39 | after a scroll fetch appends a non-empty page to a non-empty list, one load per new card leaves the counter below the item count, so the next scroll fetches nothing |
| `GalleryEvents.CounterAheadStallsList` | Assignment/src/App.jsx:57-66 | in list view with the counter ahead of the items, no fetch is ever issued and the items stay as they are while no fetch settles and no tab is clicked |
| `GalleryEvents.ListAfterLoadedGridStaysEmpty` | Assignment/src/App.jsx:101-106 | switching from a fully loaded grid to the list issues no fetch, and the list stays empty under scrolls, image loads and clicks |
| `GalleryEvents.ListTabKeepsGateShut` | Assignment/src/App.jsx:101-106 | from any view with a nonzero load counter, the List tab empties the list and keeps the counter, so no fetch is issued and the list stays empty under scrolls, image loads and pagination clicks |
| `GalleryEvents.GridDetourReopensGate` | Assignment/src/App.jsx:39 | clicking Grid, letting page 1 arrive and clicking List before any image loads zeroes the counter on an empty list, so the next scroll fetches page 2 in append mode |
| `GalleryEvents.ListTabNeverFetches` | Assignment/src/App.jsx:48-52 | the List tab empties the items and never issues a fetch |
| `GalleryEvents.GridTabFetchesFirstPage` | Assignment/src/App.jsx:90-95 | the Grid tab empties the items and fetches page 1 in replace mode, unless the grid was already on page 1 |
| `GalleryEvents.NextClicksAdvance` | Assignment/src/App.jsx:137-145 | clicking Next with each page arriving non-empty advances `page` by one per click, requests each page in replace mode and shows exactly the last page |
| `GalleryApp.App.constructor` | Assignment/src/App.jsx:11-17 | the fields start at the hooks' initial values |
| `GalleryApp.App.Mount` | Assignment/src/App.jsx:48-52 | the first render starts loading page 1 of the grid in replace mode |
| `GalleryApp.App.StartFetch` | Assignment/src/App.jsx:21-22 | sets `loading` and clears `error` in place |
| `GalleryApp.App.CompleteFetch` | Assignment/src/App.jsx:30-43 | updates the fields as `FetchComplete` does and always leaves `loading` false |
| `GalleryApp.App.RunGridEffect` | Assignment/src/App.jsx:48-52 | updates the fields and returns the request as `GridEffect` does |
| `GalleryApp.App.HandleImageLoad` | Assignment/src/App.jsx:78-80 | increments `imagesLoaded` by one |
| `GalleryApp.App.ClickTab` | Assignment/src/App.jsx:88-109 | resets view, page, data and hasMore and keeps `imagesLoaded`; fetches exactly when switching to the grid from another view or page |
| `GalleryApp.App.ClickPrevious` | Assignment/src/App.jsx:128-136 | fetches the previous page exactly when the button is enabled; keeps `page >= 1` |
| `GalleryApp.App.ClickNext` | Assignment/src/App.jsx:137-145 | fetches page+1 in replace mode with cleared items exactly when the button is enabled |
| `GalleryApp.App.HandleScroll` | Assignment/src/App.jsx:56-67 | issues a fetch exactly when the scroll guard holds, as `Scroll` does |

## Left out

- The network call, `res.json()` and the image-search URL with its page size of 5 (`Assignment/src/App.jsx:24-27`). The outcome of a fetch is an input to the completion event. `fetch` does not reject on an HTTP error status. An error reply whose JSON body is not an array therefore bypasses the `catch`: `data` becomes a non-array (`Assignment/src/App.jsx:35`), or the append at `Assignment/src/App.jsx:37` throws. The model's `result` is always either a sequence of items or a failure.
- GalleryEvents.ScrollWaitsForImages: image-load events are free inputs. The source fires them only for newly mounted cards, one per card. The lemma's case `k == |data|` is therefore reachable after the first page of the list, but not after an append. `AppendedPageLoadsLeaveGateShut` states the stall that follows an append.
- Window geometry (`innerHeight`, `scrollY`, `offsetHeight`). "Within 10 pixels of the bottom" is the boolean `nearBottom`.
- Adding and removing the scroll listener (`Assignment/src/App.jsx:70-74`). Scroll events are modelled as always delivered, and the handler's own `view == "list"` test gates them.
- React's scheduling. Each event's updates are applied as one batch, followed by one render and the effect check. Handlers that read state captured by an older render, and fetches whose responses arrive after the user has moved on, are not modelled separately. A completion may be any event of a trace, so the trace lemmas cover such orders without tracking which request a response answers.
- Rendering: the `Card` component, CSS classes and the loading and error messages.
