# Galeria lightbox: a verified model of its gesture and visibility logic

Galeria is a React lightbox. Clicking a thumbnail opens a full-screen popup: a horizontally paged carousel over the gallery's `urls`, or just the clicked image. Scrolling the carousel moves the "active" item. Only the active item carries the shared-transition `layoutId`, so the open/close morph links that item to its thumbnail. Dragging an item vertically fades the backdrop, and a far or fast enough release dismisses the popup. A plain tap closes it on the next tick.

This project models the decision and state logic of `src/GaleriaView.tsx`. The JSX around it is not modelled.

- `wrappers.dfy` (module `Wrappers`): `Option`, standing for JavaScript's `undefined`/`null`.
- `rules.dfy` (module `GaleriaRules`): the pure rules as functions, with lemmas about them:
  - the open state and the context it projects;
  - the item list;
  - the `layoutId` choice;
  - the observer's enter test, and the active index under a run of enter callbacks;
  - the dismiss verdict;
  - the clamped backdrop fade;
  - the initial scroll seek.
- `galeria.dfy`:
  - module `GaleriaView`: class `Galeria`, which holds the gallery's `openState` and the popup's own state (`chosenIndex`, `isDragging`, `progress`, `scrollLeft`, and the queued timeout closes). It has one method per handler: thumbnail click (with the initial-scroll effect), modal close request, drag start, drag, drag end, item click, timeout tick, and observer callback. Each method states its whole new state in terms of the rule functions and keeps `Valid()`, which says drag progress is never negative.
  - module `GaleriaScenarios`: whole interactions driven through those methods, with the outcome each one must have.

How the model maps the source:

- Progress and velocity are exact `real`s.
- DOM sizes (`clientWidth`, `clientHeight`, `innerWidth`, `innerHeight`) are `nat`, because the DOM reports them as integers.
- `measured || fallback` becomes `MeasuredOr`: a missing measurement and a zero one both fall back.
- An animation jumps to its target: 40 on dismissal, 0 on spring-back.
- Each `setTimeout(() => setOpen({ open: false }))` adds one queued close, and `Tick` runs one of them.
- The popup is unmounted while the gallery is closed (`Popup`, src/GaleriaView.tsx:27-35). So opening from closed starts fresh popup state, and opening while already open keeps the popup's state.

Behaviour of the code that the model keeps, with the member that shows it:

- A second open while open replaces the payload (src/GaleriaView.tsx:199). The popup stays mounted and keeps its chosen index (`SecondOpenKeepsChosenIndex`).
- `onDragEnd` clears `isDragging` as its first effect (src/GaleriaView.tsx:166). So a click that follows a cancelled drag schedules a close (`ClickAfterCancelledDrag`).
- The drag height falls back from the scroller's `clientHeight` to `window.innerHeight` when the first is 0 or missing (src/GaleriaView.tsx:151-152). No other case of zero height is handled.
- Duplicate URLs are only reported, in development builds (src/GaleriaView.tsx:62-68). The model states that test as `HasDuplicateImages` and proves it equivalent to `!Distinct`.
- The dismiss thresholds (3 heights, velocity 500) and the fade end (0.4) are literals in the code (src/GaleriaView.tsx:72, 167). The model names them as constants.
- The tracker's visibility threshold is the prop `itemVisiblePercentThreshold`, which defaults to 100 (src/GaleriaView.tsx:260). It is passed to the observer, which is not modelled.

## Model

| member | source | states |
|---|---|---|
| GaleriaRules.UrlsOrEmpty | src/GaleriaView.tsx:231 | a gallery without `urls` has an empty carousel; given urls are passed through unchanged |
| GaleriaRules.OpenRequest | src/GaleriaView.tsx:198-203 | a thumbnail click opens on its own source; an explicit index, 0 included, is kept, and a missing one becomes 0 |
| GaleriaRules.Project | src/GaleriaView.tsx:233-243 | the context is open iff the state is open; while closed it exposes `src = ''` and `initialIndex = 0`; while open it exposes the payload |
| GaleriaRules.ProjectRoundTrip | src/GaleriaView.tsx:215-243 | the open state can be read back from its projection, so distinct open states give distinct contexts |
| GaleriaRules.DropEmpty | src/GaleriaView.tsx:46 | `filter(Boolean)` keeps every non-empty string as often as it occurs and drops every empty one (equal multisets, minus `""`) |
| GaleriaRules.DropEmptyAppend | src/GaleriaView.tsx:46 | filtering a concatenation filters each part in place, so the kept strings stay in their original order |
| GaleriaRules.ItemList | src/GaleriaView.tsx:43-46 | with more than one url the items are the urls, empties included; otherwise at most one item, the source, present iff it is non-empty |
| GaleriaRules.PopupRenders | src/GaleriaView.tsx:82 | the popup draws nothing iff it is closed, the window width is at most 0, or the item list is empty |
| GaleriaRules.EmptySourceRendersNothing | src/GaleriaView.tsx:43-84 | without a carousel, a popup opened on an empty source draws nothing on any window |
| GaleriaRules.DuplicateDiagnosticIffNotDistinct | src/GaleriaView.tsx:62-68 | the development diagnostic `Set(images).size !== images.length` fires iff some image occurs twice |
| GaleriaRules.SetOfSeqSize | src/GaleriaView.tsx:63 | the set of the images is never larger than the list, and is as large iff no image repeats |
| GaleriaRules.ActiveIndex | src/GaleriaView.tsx:78 | the active index is the initial index until an enter callback has chosen one, and the chosen one afterwards |
| GaleriaRules.LayoutIds | src/GaleriaView.tsx:124-126 | one id per item; an item has an id iff its index is the active index, and that id is its own source |
| GaleriaRules.OneTransitionOwner | src/GaleriaView.tsx:124-126 | exactly one item carries a `layoutId` when the active index is in range, and none otherwise |
| GaleriaRules.TransitionIdNamesActiveItem | src/GaleriaView.tsx:124-133 | with distinct sources, the id handed out (the active item's source) names that item and no other item of the list |
| GaleriaRules.OpenedItemTakesThumbnailId | src/GaleriaView.tsx:190-207 | the item a thumbnail opens on (its index into the carousel, or the single image) is in range and receives the thumbnail's own `layoutId`, its source |
| GaleriaRules.ItemOpacity | src/GaleriaView.tsx:142-144 | an item's opacity lies in [0, 1] and is at least the backdrop's; the active item is fully opaque and every other item takes the backdrop's opacity |
| GaleriaRules.ActiveItemMostOpaque | src/GaleriaView.tsx:142-144 | items other than the active one take the backdrop's opacity, and none is more opaque than the active item |
| GaleriaRules.RootTop | src/GaleriaView.tsx:281 | the root's top, or 0 when the entry has no root bounds |
| GaleriaRules.RootBottom | src/GaleriaView.tsx:282 | the root's bottom, or 0 when the entry has no root bounds |
| GaleriaRules.Enters | src/GaleriaView.tsx:280-284 | only an intersecting entry fires. With root bounds, it fires iff it also lies vertically within them. With none, no box of positive height fires |
| GaleriaRules.EntersIffContained | src/GaleriaView.tsx:280-284 | with known root bounds, an entry fires `onEnter` iff it intersects and its box lies vertically within the root's; an item cut off at the root's top or bottom never fires |
| GaleriaRules.MissingRootNeverEnters | src/GaleriaView.tsx:281-282 | with no root bounds, both bounds read as 0, so no box of positive height ever fires |
| GaleriaRules.EnterStep | src/GaleriaView.tsx:129-130 | while open, an entering report sets the chosen index to its item's index; otherwise the chosen index is unchanged |
| GaleriaRules.LastEnterWins | src/GaleriaView.tsx:129-130 | after a run of callbacks, the chosen index is the index of the last entering report when open, and unchanged when closed |
| GaleriaRules.ClosedIgnoresReports | src/GaleriaView.tsx:129-130 | while closed, or when no report enters, a run of callbacks leaves the chosen index as it was |
| GaleriaRules.MeasuredOr | src/GaleriaView.tsx:151-152 | a positive measurement is used; a missing or zero one falls back to the window size; the result is 0 only when the window size is 0 |
| GaleriaRules.DragProgress | src/GaleriaView.tsx:151-156 | progress is non-negative and is the absolute vertical offset measured in container heights (progress × height = abs(offset)) |
| GaleriaRules.DragProgressSymmetric | src/GaleriaView.tsx:153-155 | dragging up yields the same progress as dragging down by the same distance |
| GaleriaRules.DragProgressUnbounded | src/GaleriaView.tsx:153-156 | progress has no upper bound: for every bound, some offset exceeds it |
| GaleriaRules.DismissVerdict | src/GaleriaView.tsx:167 | a release commits iff progress > 3 or vertical velocity > 500 |
| GaleriaRules.ReleaseVerdict | src/GaleriaView.tsx:160-167 | in the gesture's units, a release commits iff abs(offset) exceeds three container heights or the downward velocity exceeds 500; upward speed never commits |
| GaleriaRules.DismissExamples | src/GaleriaView.tsx:160-172 | 0.5 heights at rest cancels, velocity 600 commits, 3.5 heights commits, and 200 of 500 (0.4 heights) at rest cancels |
| GaleriaRules.ClampedInterpolate | src/GaleriaView.tsx:72-74 | a clamped linear map onto a descending range never leaves that range |
| GaleriaRules.BackdropOpacity | src/GaleriaView.tsx:72-74 | backdrop opacity always lies in [0, 1] |
| GaleriaRules.BackdropOpacityShape | src/GaleriaView.tsx:72-74 | opacity is 1 at progress 0, 0 for any progress of at least 0.4, and 1 - progress/0.4 in between |
| GaleriaRules.BackdropOpacityAntitone | src/GaleriaView.tsx:72-74 | opacity never increases as progress increases |
| GaleriaRules.InitialScrollLeft | src/GaleriaView.tsx:54-56 | for a positive width, the seek offset lies inside item `initialIndex` of one-width items; it is never negative for a non-negative index, and 0 for index 0 |
| GaleriaRules.SeekLandsOnInitialItem | src/GaleriaView.tsx:51-57 | the initial seek lands inside item `initialIndex` of a carousel of one-scroller-wide items, and inside no other item |
| GaleriaRules.SeekExamples | src/GaleriaView.tsx:54-56 | index 2 with parent width 400 seeks to 800; a parent of width 0, or no parent, falls back to the window width |
| GaleriaView.Galeria.Backdrop | src/GaleriaView.tsx:70-74 | the current backdrop opacity lies in [0, 1], and since progress is never negative it is 1 iff progress is 0 |
| GaleriaView.Galeria.ShownLayoutIds | src/GaleriaView.tsx:124-126 | of the items the popup draws, at most one has a `layoutId`, and exactly one does when the active index is in range; nothing is drawn when the popup does not render |
| GaleriaView.Galeria.constructor | src/GaleriaView.tsx:209-231 | a new gallery is closed, over `urls` or the empty carousel, with no close queued and progress 0 |
| GaleriaView.Galeria.ClickThumbnail | src/GaleriaView.tsx:198-203 | the state becomes the thumbnail's open request. From closed, the popup starts fresh: no chosen index, not dragging, progress 0. While already open, the popup state is kept. The scroll seeks to `initialIndex × width` iff the scroller is drawn and the popup just mounted or its initial index changed (effect of lines 50-60) |
| GaleriaView.Galeria.RequestClose | src/GaleriaView.tsx:92 | the modal's close request closes the gallery and changes nothing else |
| GaleriaView.Galeria.DragStart | src/GaleriaView.tsx:147-149 | drag start sets `isDragging` and changes nothing else |
| GaleriaView.Galeria.Drag | src/GaleriaView.tsx:150-158 | progress becomes the drag progress over the scroller height, or the window height when the scroller reports none; nothing else changes |
| GaleriaView.Galeria.DragEnd | src/GaleriaView.tsx:160-173 | clears `isDragging`. It closes the gallery with progress 40 iff the dismiss verdict commits; otherwise the gallery is left as it was and progress returns to 0 |
| GaleriaView.Galeria.ClickItem | src/GaleriaView.tsx:174-178 | a click queues one close iff no drag is in progress, and changes nothing else |
| GaleriaView.Galeria.Tick | src/GaleriaView.tsx:177 | a queued close, if any, runs and closes the gallery whatever its state by then; with none queued nothing changes |
| GaleriaView.Galeria.ObserverCallback | src/GaleriaView.tsx:279-286 | only the first entry of a batch is read; the chosen index becomes `i` iff that entry enters and the gallery is open |
| GaleriaScenarios.OpenThenCancelledDrag | src/GaleriaView.tsx:160-173 | opening "b" at index 1 of [a, b, c] with width 300 seeks to 300. A release after 200 of 500 at rest cancels: the gallery stays open on item 1, progress 0, backdrop opaque |
| GaleriaScenarios.ClickAfterCancelledDrag | src/GaleriaView.tsx:160-178 | a click right after a cancelled drag queues a close, and the next tick closes the gallery |
| GaleriaScenarios.ClickDuringDrag | src/GaleriaView.tsx:174-178 | a click while dragging queues nothing, and the gallery stays open |
| GaleriaScenarios.NoStaleIndexAfterClose | src/GaleriaView.tsx:27-35 | an enter callback after close does not change the chosen index, and reopening starts on the new initial index |
| GaleriaScenarios.SecondOpenKeepsChosenIndex | src/GaleriaView.tsx:50-78 | a second open while open replaces the source and re-seeks for the new index (600), but keeps the index chosen by scrolling |
| GaleriaScenarios.PartialEntriesIgnored | src/GaleriaView.tsx:279-286 | an entry cut off at the root's top or bottom, or a batch whose first entry is, leaves the active index at the initial index |

## Left out

- Rendering: `Modal`, the JSX, styling, `theme`, `LayoutGroup` and `useId`. These are presentation. Only the "renders nothing" test and the per-item `layoutId` and opacity are modelled.
- The hooks lifecycle: effect timing, `observer.disconnect`, and the `enter.current = onEnter` indirection. A handler reads the gallery's current state. The one lifecycle fact kept is that the popup's state starts fresh when it mounts on open.
- framer-motion: animation durations, the `layoutId` morph itself, motion-value subscriptions, `dragSnapToOrigin`, and the drag axis (`drag={carousel ? 'y' : true}`). These are calls into a foreign library. Animations jump to their target value.
- The IntersectionObserver: when it reports and its `threshold: itemVisiblePercentThreshold / 100` mechanics. This is a browser API. `isIntersecting` is taken as delivered, and only the test on an entry's fields is modelled.
- Horizontal visibility: the enter test (src/GaleriaView.tsx:280-284) checks only the vertical extent. An item half-scrolled sideways is kept out by the observer's threshold, which is not modelled.
- `setTimeout` timing: each timeout becomes one queued close, and `Tick` runs one. The event loop is not modelled.
- `console.log`, and the development-only `console.error` for duplicate URLs. These are diagnostics. Their test is stated as `HasDuplicateImages`.
- Floating point: NaN, Infinity and rounding. JavaScript's `|| 0` also maps NaN to 0, which the model cannot express.
- GaleriaView.Galeria.Drag: requires a positive effective height. When both the scroller height and the window height are 0, the source divides by zero and gets Infinity or NaN, which exact reals cannot express.
- GaleriaView.Galeria.DragEnd: requires a positive effective height, for the same reason as `Drag`.
- GaleriaView.Galeria.ObserverCallback: requires a non-empty batch. The observer never delivers an empty one. On an empty batch the source would throw on `entry.boundingClientRect`.
- The browser's clamping of `scrollLeft` to the scrollable range, for a negative or too large initial index.
- `useWindowDimensions().width` and `window.innerWidth` are taken to be the same width.
- While the gallery is closed, the popup's fields hold the unmounted popup's last values. They are not read until the next open resets them.
- src/Galeria.types.ts holds type declarations only. Its optional `index` is the `Option<int>` of `OpenRequest`.
- example/webpack.config.js is build configuration and is not part of this model.
