/**
 * The Galeria lightbox as one state machine: the gallery's open state, and
 * the popup's own state (active index, drag flag, drag progress, scroll
 * position) that its event handlers update. Animations jump to their target
 * value, and a `setTimeout` close becomes a queued close that `Tick` runs.
 */
module GaleriaView {
  import opened Wrappers
  import opened GaleriaRules

  class Galeria {
    /** The carousel, `urls || []`, fixed for the gallery's life. */
    const urls: seq<string>
    /** The gallery's `openState`. */
    var openState: OpenState

    // The popup's own state. The popup is unmounted while the gallery is
    // closed, so a fresh one, with fresh state, mounts on every open.

    /** The popup's `useState<number>()`: the index the last enter callback set. */
    var chosenIndex: Option<int>
    /** The `isDragging` motion value. */
    var isDragging: bool
    /** The `dragPercentProgress` motion value. */
    var progress: real
    /** `scrollLeft` of the popup's horizontal scroller. */
    var scrollLeft: int
    /** Close timeouts scheduled by taps that have not run yet. */
    var pendingCloses: nat

    /** Drag progress is an absolute value or an animation target, so it is
        never negative. */
    ghost predicate Valid()
      reads this
    {
      progress >= 0.0
    }

    /** The context value the gallery provides to its popup. */
    function ContextValue(): Context
      reads this
    {
      Project(openState)
    }

    function IsOpen(): bool
      reads this
    {
      openState.Opened?
    }

    /** The items the popup shows. */
    function Images(): seq<string>
      reads this
    {
      ItemList(urls, ContextValue().src)
    }

    /** `imageIndex`: the chosen index, or the initial index until chosen. */
    function ImageIndex(): int
      reads this
    {
      ActiveIndex(chosenIndex, ContextValue().initialIndex)
    }

    /** Whether the popup draws anything on a window `windowWidth` wide. */
    predicate Renders(windowWidth: int)
      reads this
    {
      PopupRenders(IsOpen(), windowWidth, Images())
    }

    /** The backdrop's opacity now. Since progress is never negative, the
        backdrop is fully opaque exactly when no drag progress is shown. */
    function Backdrop(): (o: real)
      reads this
      requires Valid()
      ensures 0.0 <= o <= 1.0
      ensures o == 1.0 <==> progress == 0.0
    {
      BackdropOpacityShape(progress);
      BackdropOpacity(progress)
    }

    /** The `layoutId` of every item the popup draws: at most one item owns
        the shared-transition id, and exactly one does whenever the popup
        draws and the active index points into the list. */
    function ShownLayoutIds(windowWidth: int): (ids: seq<Option<string>>)
      reads this
      ensures CountTagged(ids) <= 1
      ensures Renders(windowWidth) && 0 <= ImageIndex() < |Images()| ==> CountTagged(ids) == 1
      ensures !Renders(windowWidth) ==> ids == []
    {
      if Renders(windowWidth) then
        OneTransitionOwner(Images(), ImageIndex());
        LayoutIds(Images(), ImageIndex())
      else
        []
    }

    /** A closed gallery over `urls`, with no popup state in use. */
    constructor (urls: Option<seq<string>>)
      ensures Valid()
      ensures this.urls == UrlsOrEmpty(urls) && openState == Closed
      ensures chosenIndex == None && !isDragging && progress == 0.0
      ensures scrollLeft == 0 && pendingCloses == 0
    {
      this.urls := UrlsOrEmpty(urls);
      openState := Closed;
      chosenIndex := None;
      isDragging := false;
      progress := 0.0;
      scrollLeft := 0;
      pendingCloses := 0;
    }

    /** A thumbnail's `onClick`, then the popup's initial-scroll effect.
        Opening from closed mounts a fresh popup; opening while open only
        replaces the payload. The seek runs when the popup mounts or its
        initial index changes, and only if the scroller is drawn. */
    method ClickThumbnail(src: string, index: Option<int>, parentWidth: Option<nat>, windowWidth: nat)
      requires Valid()
      modifies this
      ensures Valid()
      ensures openState == OpenRequest(src, index)
      ensures pendingCloses == old(pendingCloses)
      ensures old(openState).Closed? ==> chosenIndex == None && !isDragging && progress == 0.0
      ensures old(openState).Opened? ==>
                chosenIndex == old(chosenIndex) && isDragging == old(isDragging) && progress == old(progress)
      ensures var seek := Renders(windowWidth)
                && (old(openState).Closed? || old(openState).initialIndex != openState.initialIndex);
              scrollLeft == if seek then InitialScrollLeft(openState.initialIndex, parentWidth, windowWidth)
                            else if old(openState).Closed? then 0
                            else old(scrollLeft)
    {
      var mounting := openState.Closed?;
      var indexChanged := openState.Opened? && openState.initialIndex != index.GetOr(0);
      openState := OpenRequest(src, index);
      if mounting {
        chosenIndex := None;
        isDragging := false;
        progress := 0.0;
        scrollLeft := 0;
      }
      if (mounting || indexChanged) && Renders(windowWidth) {
        scrollLeft := InitialScrollLeft(openState.initialIndex, parentWidth, windowWidth);
      }
    }

    /** The modal's `onRequestClose`. */
    method RequestClose()
      requires Valid()
      modifies this
      ensures Valid()
      ensures openState == Closed
      ensures chosenIndex == old(chosenIndex) && isDragging == old(isDragging)
      ensures progress == old(progress) && scrollLeft == old(scrollLeft)
      ensures pendingCloses == old(pendingCloses)
    {
      openState := Closed;
    }

    /** An item's `onDragStart`. */
    method DragStart()
      requires Valid()
      modifies this
      ensures Valid()
      ensures isDragging
      ensures openState == old(openState) && chosenIndex == old(chosenIndex)
      ensures progress == old(progress) && scrollLeft == old(scrollLeft)
      ensures pendingCloses == old(pendingCloses)
    {
      isDragging := true;
    }

    /** An item's `onDrag`: progress follows the vertical offset, in heights
        of the scroller (or of the window when the scroller reports none). */
    method Drag(offsetY: real, parentHeight: Option<nat>, windowHeight: nat)
      requires Valid()
      requires MeasuredOr(parentHeight, windowHeight) > 0
      modifies this
      ensures Valid()
      ensures progress == DragProgress(offsetY, MeasuredOr(parentHeight, windowHeight))
      ensures openState == old(openState) && chosenIndex == old(chosenIndex)
      ensures isDragging == old(isDragging) && scrollLeft == old(scrollLeft)
      ensures pendingCloses == old(pendingCloses)
    {
      progress := DragProgress(offsetY, MeasuredOr(parentHeight, windowHeight));
    }

    /** An item's `onDragEnd`: clears the drag flag, then either dismisses
        (progress animates to 40 and the gallery closes) or springs back
        (progress animates to 0 and the gallery stays as it was). */
    method DragEnd(offsetY: real, velocityY: real, parentHeight: Option<nat>, windowHeight: nat)
      returns (verdict: Verdict)
      requires Valid()
      requires MeasuredOr(parentHeight, windowHeight) > 0
      modifies this
      ensures Valid()
      ensures verdict == DismissVerdict(DragProgress(offsetY, MeasuredOr(parentHeight, windowHeight)), velocityY)
      ensures !isDragging
      ensures verdict == Commit ==> openState == Closed && progress == CommitProgress
      ensures verdict == Cancel ==> openState == old(openState) && progress == 0.0
      ensures chosenIndex == old(chosenIndex) && scrollLeft == old(scrollLeft)
      ensures pendingCloses == old(pendingCloses)
    {
      var percentDragged := DragProgress(offsetY, MeasuredOr(parentHeight, windowHeight));
      isDragging := false;
      verdict := DismissVerdict(percentDragged, velocityY);
      if verdict == Commit {
        progress := CommitProgress;
        openState := Closed;
      } else {
        progress := 0.0;
      }
    }

    /** An item's `onClick`: schedules a close for the next tick unless a
        drag is in progress. */
    method ClickItem()
      requires Valid()
      modifies this
      ensures Valid()
      ensures pendingCloses == old(pendingCloses) + (if old(isDragging) then 0 else 1)
      ensures openState == old(openState) && chosenIndex == old(chosenIndex)
      ensures isDragging == old(isDragging) && progress == old(progress)
      ensures scrollLeft == old(scrollLeft)
    {
      if !isDragging {
        pendingCloses := pendingCloses + 1;
      }
    }

    /** One scheduled timeout runs: it closes the gallery, whatever state
        the gallery is in by then. */
    method Tick() returns (ran: bool)
      requires Valid()
      modifies this
      ensures Valid()
      ensures ran <==> old(pendingCloses) > 0
      ensures ran ==> openState == Closed && pendingCloses == old(pendingCloses) - 1
      ensures !ran ==> openState == old(openState) && pendingCloses == 0
      ensures chosenIndex == old(chosenIndex) && isDragging == old(isDragging)
      ensures progress == old(progress) && scrollLeft == old(scrollLeft)
    {
      ran := pendingCloses > 0;
      if ran {
        pendingCloses := pendingCloses - 1;
        openState := Closed;
      }
    }

    /** The intersection observer's callback for item `i`: it reads the
        first entry of the batch and, when that entry enters, calls the
        item's current `onEnter`, which sets the active index while open. */
    method ObserverCallback(i: nat, batch: seq<Entry>)
      requires Valid()
      requires |batch| > 0
      modifies this
      ensures Valid()
      ensures chosenIndex == EnterStep(old(IsOpen()), old(chosenIndex), Report(i, batch[0]))
      ensures openState == old(openState) && isDragging == old(isDragging)
      ensures progress == old(progress) && scrollLeft == old(scrollLeft)
      ensures pendingCloses == old(pendingCloses)
    {
      var entry := batch[0];
      if Enters(entry) {
        if IsOpen() {
          chosenIndex := Some(i as int);
        }
      }
    }
  }
}

/**
 * Whole interactions driven through the handlers, with what the popup
 * shows afterwards.
 */
module GaleriaScenarios {
  import opened Wrappers
  import opened GaleriaRules
  import opened GaleriaView

  function Contained(top: real, bottom: real): Entry {
    Entry(true, Rect(top, bottom), Some(Rect(0.0, 800.0)))
  }

  /** Open item "b" of `[a, b, c]` on a 300-wide parent, then release a drag
      of 200 on a 500-high scroller at rest: 0.4 heights is not enough, so
      the popup stays open on item 1 and progress springs back to 0. */
  method OpenThenCancelledDrag() returns (open: bool, index: int, progress: real, scroll: int, opacity: real)
    ensures open && index == 1 && progress == 0.0 && scroll == 300 && opacity == 1.0
  {
    var g := new Galeria(Some(["a", "b", "c"]));
    g.ClickThumbnail("b", Some(1), Some(300), 1024);
    g.DragStart();
    g.Drag(200.0, Some(500), 800);
    assert g.progress == 0.4;
    BackdropOpacityShape(g.progress);
    var v := g.DragEnd(200.0, 0.0, Some(500), 800);
    assert DragProgress(200.0, 500) == 0.4;
    open, index, progress, scroll := g.IsOpen(), g.ImageIndex(), g.progress, g.scrollLeft;
    opacity := g.Backdrop();
  }

  /** `onDragEnd` clears the drag flag itself, so a click that follows a
      cancelled drag schedules a close, and the next tick closes. */
  method ClickAfterCancelledDrag() returns (scheduled: nat, openAfterTick: bool)
    ensures scheduled == 1 && !openAfterTick
  {
    var g := new Galeria(Some(["a", "b"]));
    g.ClickThumbnail("a", Some(0), Some(400), 400);
    g.DragStart();
    var v := g.DragEnd(10.0, 0.0, Some(800), 800);
    assert DragProgress(10.0, 800) <= 3.0;
    g.ClickItem();
    scheduled := g.pendingCloses;
    var ran := g.Tick();
    openAfterTick := g.IsOpen();
  }

  /** A click while a drag is still in progress schedules nothing. */
  method ClickDuringDrag() returns (scheduled: nat, open: bool)
    ensures scheduled == 0 && open
  {
    var g := new Galeria(None);
    g.ClickThumbnail("a.jpg", None, None, 400);
    g.DragStart();
    g.ClickItem();
    scheduled := g.pendingCloses;
    var ran := g.Tick();
    open := g.IsOpen();
  }

  /** An enter callback after close changes nothing, and reopening mounts a
      fresh popup whose active index is the new initial index. */
  method NoStaleIndexAfterClose() returns (whileOpen: int, afterStale: Option<int>, reopened: int)
    ensures whileOpen == 2 && afterStale == Some(2) && reopened == 0
  {
    var g := new Galeria(Some(["a", "b", "c"]));
    g.ClickThumbnail("b", Some(1), Some(300), 300);
    g.ObserverCallback(2, [Contained(0.0, 800.0)]);
    whileOpen := g.ImageIndex();
    g.RequestClose();
    g.ObserverCallback(1, [Contained(0.0, 800.0)]);
    afterStale := g.chosenIndex;
    g.ClickThumbnail("a", Some(0), Some(300), 300);
    reopened := g.ImageIndex();
  }

  /** A second open while open replaces the payload but keeps the popup
      mounted: the index chosen by scrolling survives the new open. */
  method SecondOpenKeepsChosenIndex() returns (src: string, index: int, scroll: int)
    ensures src == "c" && index == 1 && scroll == 600
  {
    var g := new Galeria(Some(["a", "b", "c"]));
    g.ClickThumbnail("a", Some(0), Some(300), 300);
    g.ObserverCallback(1, [Contained(0.0, 800.0)]);
    g.ClickThumbnail("c", Some(2), Some(300), 300);
    src, index, scroll := g.ContextValue().src, g.ImageIndex(), g.scrollLeft;
  }

  /** An item cut off at the root's top or bottom, or a batch whose first
      entry is, does not move the active index. */
  method PartialEntriesIgnored() returns (index: int)
    ensures index == 0
  {
    var g := new Galeria(Some(["a", "b", "c"]));
    g.ClickThumbnail("a", Some(0), Some(300), 300);
    g.ObserverCallback(1, [Contained(-10.0, 790.0)]);
    g.ObserverCallback(2, [Contained(100.0, 900.0), Contained(0.0, 800.0)]);
    index := g.ImageIndex();
  }
}
