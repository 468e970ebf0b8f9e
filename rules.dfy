/**
 * The decision rules of the Galeria lightbox, lifted out of its React
 * components as pure functions: the open state and the context it projects,
 * the list of items the popup shows, which item owns the shared-transition
 * id, the viewability test of the intersection tracker, the drag-to-dismiss
 * verdict, the backdrop fade and the initial scroll seek.
 */
module GaleriaRules {
  import opened Wrappers

  /* ---------------------------------------------------------------------
   * Open state and the context it projects
   * ------------------------------------------------------------------- */

  /** The `openState` of the gallery: closed, or open on one source image. */
  datatype OpenState = Closed | Opened(src: string, initialIndex: int)

  /** What the gallery context exposes to its popup. */
  datatype Context = Context(open: bool, src: string, initialIndex: int)

  /** `urls || []`: a gallery without a `urls` prop has an empty carousel. */
  function UrlsOrEmpty(urls: Option<seq<string>>): (r: seq<string>)
    ensures urls.Some? ==> r == urls.value
    ensures urls.None? ==> r == []
  {
    urls.GetOr([])
  }

  /** The request a thumbnail makes when clicked: open on its own source,
      at its index, or at 0 when it has none (`index ?? 0`, so an explicit 0
      is kept as it is). */
  function OpenRequest(src: string, index: Option<int>): (s: OpenState)
    ensures s.Opened? && s.src == src
    ensures index.Some? ==> s.initialIndex == index.value
    ensures index.None? ==> s.initialIndex == 0
  {
    Opened(src, index.GetOr(0))
  }

  /** The context value: the payload while open, `src = ''` and
      `initialIndex = 0` while closed. */
  function Project(s: OpenState): (c: Context)
    ensures c.open <==> s.Opened?
    ensures s.Closed? ==> c.src == "" && c.initialIndex == 0
    ensures s.Opened? ==> c.src == s.src && c.initialIndex == s.initialIndex
  {
    match s
    case Closed => Context(false, "", 0)
    case Opened(src, initialIndex) => Context(true, src, initialIndex)
  }

  /** Reads the open state back from a context value. */
  function Unproject(c: Context): OpenState {
    if c.open then Opened(c.src, c.initialIndex) else Closed
  }

  /** The projection loses nothing: the open state can be read back from it,
      so two different open states never show the popup the same context. */
  lemma ProjectRoundTrip(s: OpenState, t: OpenState)
    ensures Unproject(Project(s)) == s
    ensures Project(s) == Project(t) ==> s == t
  {
  }

  /* ---------------------------------------------------------------------
   * The items the popup shows
   * ------------------------------------------------------------------- */

  /** `xs.filter(Boolean)` on strings: drops the empty strings, keeps order. */
  function DropEmpty(xs: seq<string>): (r: seq<string>)
    ensures |r| <= |xs|
    ensures forall x :: x in r <==> x in xs && x != ""
    ensures multiset(r) == multiset(xs)["" := 0]
  {
    if xs == [] then []
    else
      assert xs == [xs[0]] + xs[1..];
      if xs[0] == "" then DropEmpty(xs[1..])
      else [xs[0]] + DropEmpty(xs[1..])
  }

  /** Filtering a concatenation filters each part in place, so the kept
      strings stay in their original order. */
  lemma {:induction false} DropEmptyAppend(xs: seq<string>, ys: seq<string>)
    ensures DropEmpty(xs + ys) == DropEmpty(xs) + DropEmpty(ys)
  {
    if xs != [] {
      assert (xs + ys)[1..] == xs[1..] + ys;
      DropEmptyAppend(xs[1..], ys);
    } else {
      assert xs + ys == ys;
    }
  }

  /** The items of the popup: the `urls` carousel when it has more than one
      entry, otherwise the single source image unless it is empty. */
  function ItemList(urls: seq<string>, src: string): (images: seq<string>)
    ensures |urls| > 1 ==> images == urls
    ensures |urls| <= 1 ==> |images| <= 1
    ensures |urls| <= 1 ==> (images != [] <==> src != "")
    ensures |urls| <= 1 ==> forall x :: x in images ==> x == src
  {
    if |urls| > 1 then urls else DropEmpty([src])
  }

  /** The popup draws something only while open, on a window of positive
      width, with at least one item. */
  predicate PopupRenders(open: bool, windowWidth: int, images: seq<string>): (r: bool)
    ensures !r <==> !open || windowWidth <= 0 || |images| < 1
  {
    open && windowWidth > 0 && |images| >= 1
  }

  /** Without a carousel the popup of an empty source draws nothing, on any
      window. */
  lemma EmptySourceRendersNothing(urls: seq<string>, open: bool, windowWidth: int)
    requires |urls| <= 1
    ensures !PopupRenders(open, windowWidth, ItemList(urls, ""))
  {
  }

  /** No item appears twice. */
  predicate Distinct(s: seq<string>) {
    forall i, j :: 0 <= i < j < |s| ==> s[i] != s[j]
  }

  /** The development-build diagnostic: `new Set(images).size !== images.length`. */
  predicate HasDuplicateImages(images: seq<string>) {
    |set x | x in images| != |images|
  }

  /** The set of a sequence is never larger than the sequence, and is as
      large exactly when no element repeats. */
  lemma {:induction false} SetOfSeqSize(s: seq<string>)
    ensures |set x | x in s| <= |s|
    ensures |set x | x in s| == |s| <==> Distinct(s)
  {
    if s != [] {
      var n := |s| - 1;
      var init := s[..n];
      SetOfSeqSize(init);
      assert s == init + [s[n]];
      assert (set x | x in s) == (set x | x in init) + {s[n]};
      if s[n] in init {
        assert (set x | x in s) == (set x | x in init);
        var k :| 0 <= k < n && init[k] == s[n];
        assert s[k] == s[n];
      } else {
        assert (set x | x in init) !! {s[n]};
        if Distinct(init) {
          forall i, j | 0 <= i < j < |s| ensures s[i] != s[j] {
            if j < n {
              assert s[i] == init[i] && s[j] == init[j];
            } else {
              assert s[i] in init;
            }
          }
        } else {
          var i, j :| 0 <= i < j < n && init[i] == init[j];
          assert s[i] == s[j];
        }
      }
    }
  }

  /** The diagnostic fires exactly when some image appears twice. */
  lemma DuplicateDiagnosticIffNotDistinct(images: seq<string>)
    ensures HasDuplicateImages(images) <==> !Distinct(images)
  {
    SetOfSeqSize(images);
  }

  /* ---------------------------------------------------------------------
   * The active item and the shared-transition id
   * ------------------------------------------------------------------- */

  /** `const [imageIndex = initialIndex] = useState<number>()`: the index an
      enter callback chose, or the initial index until one has. */
  function ActiveIndex(chosen: Option<int>, initialIndex: int): (r: int)
    ensures chosen.None? ==> r == initialIndex
    ensures chosen.Some? ==> r == chosen.value
  {
    chosen.GetOr(initialIndex)
  }

  /** The `layoutId` of every item: its own source for the active item,
      none for every other one. */
  function LayoutIds(images: seq<string>, active: int): (ids: seq<Option<string>>)
    ensures |ids| == |images|
    ensures forall i :: 0 <= i < |ids| ==> (ids[i].Some? <==> i == active)
    ensures forall i :: 0 <= i < |ids| && ids[i].Some? ==> ids[i].value == images[i]
  {
    seq(|images|, i requires 0 <= i < |images| => if i == active then Some(images[i]) else None)
  }

  /** How many items carry a `layoutId`. */
  function CountTagged(ids: seq<Option<string>>): nat {
    if ids == [] then 0
    else CountTagged(ids[..|ids| - 1]) + (if ids[|ids| - 1].Some? then 1 else 0)
  }

  lemma {:induction false} CountTaggedSingle(ids: seq<Option<string>>, k: int)
    requires forall i :: 0 <= i < |ids| ==> (ids[i].Some? <==> i == k)
    ensures CountTagged(ids) == if 0 <= k < |ids| then 1 else 0
  {
    if ids != [] {
      var n := |ids| - 1;
      CountTaggedSingle(ids[..n], k);
    }
  }

  /** Exactly one item carries the shared-transition id when the active
      index is in range, and none at all otherwise. */
  lemma OneTransitionOwner(images: seq<string>, active: int)
    ensures CountTagged(LayoutIds(images, active)) == if 0 <= active < |images| then 1 else 0
  {
    CountTaggedSingle(LayoutIds(images, active), active);
  }

  /** With distinct sources the id handed out names the active item and no
      other item of the list. */
  lemma TransitionIdNamesActiveItem(images: seq<string>, active: int)
    requires Distinct(images)
    requires 0 <= active < |images|
    ensures LayoutIds(images, active)[active] == Some(images[active])
    ensures forall i :: 0 <= i < |images| && images[i] == images[active] ==> i == active
  {
  }

  /** The item a thumbnail opens on receives the thumbnail's own `layoutId`
      (its source) as long as no enter callback has moved the active index:
      the open morph joins the thumbnail and its full-size item. */
  lemma OpenedItemTakesThumbnailId(urls: seq<string>, src: string, index: int)
    requires |urls| > 1 ==> 0 <= index < |urls| && urls[index] == src
    requires |urls| <= 1 ==> index == 0 && src != ""
    ensures 0 <= index < |ItemList(urls, src)|
    ensures LayoutIds(ItemList(urls, src), ActiveIndex(None, index))[index] == Some(src)
  {
  }

  /** `opacity: backdropOpacity` on every item but the active one. */
  function ItemOpacity(i: int, active: int, progress: real): (o: real)
    ensures 0.0 <= o <= 1.0
    ensures o >= BackdropOpacity(progress)
    ensures i == active ==> o == 1.0
    ensures i != active ==> o == BackdropOpacity(progress)
  {
    if i == active then 1.0 else BackdropOpacity(progress)
  }

  /** While the backdrop fades the other items fade with it, and the active
      item stays the most opaque one. */
  lemma ActiveItemMostOpaque(i: int, active: int, progress: real)
    ensures ItemOpacity(i, active, progress) <= ItemOpacity(active, active, progress)
    ensures i != active ==> ItemOpacity(i, active, progress) == BackdropOpacity(progress)
  {
  }

  /* ---------------------------------------------------------------------
   * The intersection tracker's enter test
   * ------------------------------------------------------------------- */

  /** The vertical extent of a box. */
  datatype Rect = Rect(top: real, bottom: real)

  /** The fields of an observer entry the tracker reads. */
  datatype Entry = Entry(isIntersecting: bool, boundingClientRect: Rect, rootBounds: Option<Rect>)

  /** `entry.rootBounds?.top || 0` */
  function RootTop(e: Entry): (t: real)
    ensures e.rootBounds.None? ==> t == 0.0
    ensures e.rootBounds.Some? ==> t == e.rootBounds.value.top
  {
    if e.rootBounds.Some? then e.rootBounds.value.top else 0.0
  }

  /** `entry.rootBounds?.bottom || 0` */
  function RootBottom(e: Entry): (b: real)
    ensures e.rootBounds.None? ==> b == 0.0
    ensures e.rootBounds.Some? ==> b == e.rootBounds.value.bottom
  {
    if e.rootBounds.Some? then e.rootBounds.value.bottom else 0.0
  }

  /** The tracker fires `onEnter` for an entry that intersects and whose top
      and bottom lie within the root's. Only the vertical extent is tested;
      horizontal visibility is left to the observer's threshold. */
  predicate Enters(e: Entry): (b: bool)
    ensures b ==> e.isIntersecting
    ensures e.rootBounds.Some? ==> (b <==> e.isIntersecting && Within(e.boundingClientRect, e.rootBounds.value))
    ensures e.rootBounds.None? && e.boundingClientRect.top < e.boundingClientRect.bottom ==> !b
  {
    e.isIntersecting
    && e.boundingClientRect.top >= RootTop(e)
    && e.boundingClientRect.bottom <= RootBottom(e)
  }

  /** Vertical containment of one box in another. */
  predicate Within(inner: Rect, outer: Rect) {
    outer.top <= inner.top && inner.bottom <= outer.bottom
  }

  /** With a known root, an entry enters exactly when it intersects and is
      fully contained vertically: an item cut off at the root's top or bottom
      never enters. */
  lemma EntersIffContained(e: Entry)
    requires e.rootBounds.Some?
    ensures Enters(e) <==> e.isIntersecting && Within(e.boundingClientRect, e.rootBounds.value)
  {
  }

  /** Without root bounds both bounds read as 0, so no box of positive
      height ever enters. */
  lemma MissingRootNeverEnters(e: Entry)
    requires e.rootBounds.None?
    requires e.boundingClientRect.top < e.boundingClientRect.bottom
    ensures !Enters(e)
  {
  }

  /* ---------------------------------------------------------------------
   * The active index under enter callbacks
   * ------------------------------------------------------------------- */

  /** One observer report for item `index`; `entry` is the first entry of
      the batch, the only one the callback reads. */
  datatype Report = Report(index: nat, entry: Entry)

  /** One callback: `if (open) setIndex(i)` when the entry enters. */
  function EnterStep(open: bool, chosen: Option<int>, r: Report): (c: Option<int>)
    ensures c != chosen ==> open && Enters(r.entry) && c == Some(r.index as int)
    ensures open && Enters(r.entry) ==> c == Some(r.index as int)
  {
    if Enters(r.entry) && open then Some(r.index as int) else chosen
  }

  /** The chosen index after a run of callbacks, in delivery order. */
  function AfterReports(open: bool, chosen: Option<int>, rs: seq<Report>): Option<int> {
    if rs == [] then chosen
    else EnterStep(open, AfterReports(open, chosen, rs[..|rs| - 1]), rs[|rs| - 1])
  }

  /** The last report that enters wins; reports that do not enter change
      nothing; and nothing changes while closed. */
  lemma {:induction false} LastEnterWins(open: bool, chosen: Option<int>, rs: seq<Report>, k: int)
    requires 0 <= k < |rs| && Enters(rs[k].entry)
    requires forall j :: k < j < |rs| ==> !Enters(rs[j].entry)
    ensures AfterReports(open, chosen, rs) == if open then Some(rs[k].index as int) else chosen
  {
    var n := |rs| - 1;
    if k < n {
      LastEnterWins(open, chosen, rs[..n], k);
    } else {
      ClosedIgnoresReports(open, chosen, rs[..n]);
    }
  }

  /** Closed, or with no report that enters, the chosen index stays as it was. */
  lemma {:induction false} ClosedIgnoresReports(open: bool, chosen: Option<int>, rs: seq<Report>)
    ensures !open ==> AfterReports(open, chosen, rs) == chosen
    ensures (forall j :: 0 <= j < |rs| ==> !Enters(rs[j].entry)) ==> AfterReports(open, chosen, rs) == chosen
  {
    if rs != [] {
      ClosedIgnoresReports(open, chosen, rs[..|rs| - 1]);
    }
  }

  /* ---------------------------------------------------------------------
   * Drag to dismiss
   * ------------------------------------------------------------------- */

  /** A drag further than this many container heights dismisses. */
  const DismissDistance: real := 3.0
  /** A downward release faster than this dismisses. */
  const DismissVelocity: real := 500.0
  /** Drag progress at which the backdrop has faded out completely. */
  const FadeEnd: real := 0.4
  /** Target of the progress animation on dismissal. */
  const CommitProgress: real := 40.0

  /** `measured || fallback` on a DOM size: a missing or zero measurement
      falls back (`clientHeight || innerHeight`, `clientWidth || innerWidth`). */
  function MeasuredOr(measured: Option<nat>, fallback: nat): (r: nat)
    ensures r == 0 ==> fallback == 0
    ensures r == fallback || (measured.Some? && r == measured.value)
    ensures measured.Some? && measured.value > 0 ==> r == measured.value
  {
    if measured.Some? && measured.value != 0 then measured.value else fallback
  }

  function Abs(x: real): real {
    if x < 0.0 then -x else x
  }

  /** `Math.abs(offset.y / parentHeight)`: the vertical distance dragged,
      in container heights. */
  function DragProgress(offsetY: real, height: nat): (p: real)
    requires height > 0
    ensures p >= 0.0
    ensures p * height as real == Abs(offsetY)
  {
    Abs(offsetY / height as real)
  }

  /** Dragging up counts as much as dragging down. */
  lemma DragProgressSymmetric(offsetY: real, height: nat)
    requires height > 0
    ensures DragProgress(-offsetY, height) == DragProgress(offsetY, height)
  {
  }

  /** Progress has no upper bound: a long enough drag exceeds any value. */
  lemma DragProgressUnbounded(height: nat, bound: real)
    requires height > 0
    ensures exists offsetY :: DragProgress(offsetY, height) > bound
  {
    var c := Abs(bound) + 1.0;
    var h := height as real;
    assert (c * h) / h == c;
    assert DragProgress(c * h, height) == c;
  }

  /** What a released drag does to the popup. */
  datatype Verdict = Commit | Cancel

  /** The test of `onDragEnd`: further than three heights, or faster than
      500 downwards. */
  function DismissVerdict(progress: real, velocityY: real): (v: Verdict)
    ensures v == Commit <==> progress > DismissDistance || velocityY > DismissVelocity
  {
    if progress > DismissDistance || velocityY > DismissVelocity then Commit else Cancel
  }

  /** The verdict of a release in the gesture's own units: it dismisses iff
      the drag covered more than three container heights in either
      direction, or moved down faster than 500. */
  lemma ReleaseVerdict(offsetY: real, velocityY: real, height: nat)
    requires height > 0
    ensures DismissVerdict(DragProgress(offsetY, height), velocityY) == Commit
            <==> Abs(offsetY) > DismissDistance * height as real || velocityY > DismissVelocity
  {
  }

  /** Four releases: half a height at rest cancels, a flick at 600 commits,
      three and a half heights commits, and 200 of a 500-high scroller
      (0.4 heights) at rest cancels. */
  lemma DismissExamples()
    ensures DismissVerdict(0.5, 0.0) == Cancel
    ensures DismissVerdict(0.1, 600.0) == Commit
    ensures DismissVerdict(3.5, 0.0) == Commit
    ensures DismissVerdict(DragProgress(200.0, 500), 0.0) == Cancel
  {
  }

  /* ---------------------------------------------------------------------
   * Backdrop fade
   * ------------------------------------------------------------------- */

  /** A clamped linear map of `[x0, x1]` onto `[y0, y1]` with `y1 <= y0`,
      as `useTransform(..., { clamp: true })` computes it. */
  function ClampedInterpolate(x: real, x0: real, x1: real, y0: real, y1: real): (y: real)
    requires x0 < x1 && y1 <= y0
    ensures y1 <= y && y <= y0
  {
    if x <= x0 then y0
    else if x >= x1 then y1
    else
      var t := (x - x0) / (x1 - x0);
      FractionBelowOne(x - x0, x1 - x0);
      assert 0.0 < t < 1.0;
      assert t * (y0 - y1) <= y0 - y1;
      y0 + t * (y1 - y0)
  }

  lemma FractionBelowOne(a: real, b: real)
    requires 0.0 < a < b
    ensures 0.0 < a / b < 1.0
  {
    var t := a / b;
    assert t * b == a;
    if t <= 0.0 || t >= 1.0 {
      assert false;
    }
  }

  /** The backdrop's opacity for a drag progress: progress `[0, 0.4]` onto
      opacity `[1, 0]`, clamped. */
  function BackdropOpacity(progress: real): (o: real)
    ensures 0.0 <= o <= 1.0
  {
    ClampedInterpolate(progress, 0.0, FadeEnd, 1.0, 0.0)
  }

  /** Fully opaque at rest, fully transparent from 0.4 on, linear between. */
  lemma BackdropOpacityShape(progress: real)
    ensures BackdropOpacity(0.0) == 1.0
    ensures progress >= FadeEnd ==> BackdropOpacity(progress) == 0.0
    ensures 0.0 <= progress <= FadeEnd ==> BackdropOpacity(progress) == 1.0 - progress / FadeEnd
  {
  }

  /** Dragging further never makes the backdrop more opaque. */
  lemma BackdropOpacityAntitone(p: real, q: real)
    requires p <= q
    ensures BackdropOpacity(q) <= BackdropOpacity(p)
  {
  }

  /* ---------------------------------------------------------------------
   * Initial scroll seek
   * ------------------------------------------------------------------- */

  /** `initialIndex * (scroller.parentElement?.clientWidth || innerWidth)`. */
  function InitialScrollLeft(initialIndex: int, parentWidth: Option<nat>, windowWidth: nat): (x: int)
    ensures MeasuredOr(parentWidth, windowWidth) > 0 ==> InItem(x, initialIndex, MeasuredOr(parentWidth, windowWidth))
    ensures initialIndex >= 0 ==> x >= 0
    ensures initialIndex == 0 ==> x == 0
  {
    initialIndex * MeasuredOr(parentWidth, windowWidth)
  }

  /** Whether scroll offset `offset` falls within item `k` of a carousel
      whose items are `width` wide. */
  predicate InItem(offset: int, k: int, width: nat) {
    k * width <= offset < (k + 1) * width
  }

  /** Items are one scroller width wide, so the seek lands inside item
      `initialIndex`, at its left edge, and inside no other item. */
  lemma SeekLandsOnInitialItem(initialIndex: int, parentWidth: Option<nat>, windowWidth: nat, k: int)
    requires MeasuredOr(parentWidth, windowWidth) > 0
    ensures InItem(InitialScrollLeft(initialIndex, parentWidth, windowWidth), k, MeasuredOr(parentWidth, windowWidth))
            <==> k == initialIndex
  {
  }

  /** Index 2 on a 400-wide parent seeks to 800; a parent of width 0 falls
      back to the window. */
  lemma SeekExamples()
    ensures InitialScrollLeft(2, Some(400), 1024) == 800
    ensures InitialScrollLeft(2, Some(0), 1024) == 2048
    ensures InitialScrollLeft(2, None, 1024) == 2048
  {
  }
}
