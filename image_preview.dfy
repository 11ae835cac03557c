/**
 * The full-screen image preview carousel (`ImagePreviewModal`): a strip of
 * images, one page of width `W` each, kept in step with the index `current`
 * that the page indicator and the arrows are drawn from.
 *
 * Pages, offsets and widths are integers: `W` stands for both
 * `window.innerWidth` (the width `scrollTo` targets are computed with) and the
 * strip's `clientWidth` (the width the scroll handler divides by).
 */
module ImagePreview {
  import opened Wrappers
  import Decimal

  // ---------------------------------------------------------------------------
  // Page geometry
  // ---------------------------------------------------------------------------

  /** `Math.max(0, Math.min(i, n - 1))`: the index `i` forced into the pages of a strip of `n` images. */
  function ClampIndex(i: int, n: nat): (r: int)
    ensures 0 <= r
    ensures n > 0 ==> r < n
    ensures n > 0 && 0 <= i < n ==> r == i
    ensures i < 0 || n == 0 ==> r == 0
    ensures n > 0 && i >= n ==> r == n - 1
  {
    var m := if i < n - 1 then i else n - 1;
    if 0 < m then m else 0
  }

  /**
   * `Math.round(s / w)`: the integer nearest to `s / w`, halves rounded up,
   * that is `floor(s / w + 1/2)`.  Dafny's `/` on `int` floors, so the
   * expression below is exact for every integer `s`, negative ones included.
   */
  function RoundDiv(s: int, w: int): (r: int)
    requires w > 0
    ensures 2 * w * r <= 2 * s + w < 2 * w * (r + 1)
  {
    (2 * s + w) / (2 * w)
  }

  /** The page the scroll handler derives from the offset `s`: rounded, then clamped. */
  function PageAt(s: int, w: int, n: nat): (r: int)
    requires w > 0
    ensures 0 <= r && (n > 0 ==> r < n)
  {
    ClampIndex(RoundDiv(s, w), n)
  }

  /** The offset at which page `k` starts. */
  function PageOffset(k: int, w: int): int
  {
    k * w
  }

  function Dist(a: int, b: int): nat
  {
    if a <= b then b - a else a - b
  }

  lemma MulLe(a: int, b: int, w: int)
    requires a <= b && w >= 0
    ensures a * w <= b * w
  {
    assert b * w - a * w == (b - a) * w;
  }

  /** Rounding an exact page offset gives back its page. */
  lemma RoundDivOfPageOffset(k: int, w: int)
    requires w > 0
    ensures RoundDiv(k * w, w) == k
  {
    var r := RoundDiv(k * w, w);
    assert 2 * w * r - 2 * w * k == 2 * w * (r - k);
    assert 2 * w * (r + 1) - 2 * w * k == 2 * w * (r - k + 1);
    if r > k {
      MulLe(1, r - k, 2 * w);
    } else if r < k {
      MulLe(r - k + 1, 0, 2 * w);
    }
  }

  /** The index `goTo` scrolls to is read back by the scroll handler as that same index. */
  lemma PageAtClampedOffset(i: int, w: int, n: nat)
    requires w > 0
    ensures PageAt(PageOffset(ClampIndex(i, n), w), w, n) == ClampIndex(i, n)
  {
    RoundDivOfPageOffset(ClampIndex(i, n), w);
  }

  /** The bounds of `RoundDiv` in terms of the page offset `q * w`. */
  lemma RoundDivBounds(s: int, w: int)
    requires w > 0
    ensures var q := RoundDiv(s, w); 2 * (q * w) <= 2 * s + w < 2 * (q * w) + 2 * w
  {
    var q := RoundDiv(s, w);
    assert 2 * w * q == 2 * (q * w);
    assert 2 * w * (q + 1) == 2 * (q * w) + 2 * w;
  }

  /** The offset is left of page 0: page 0 is nearest. */
  lemma NearestBelow(s: int, w: int, k: int)
    requires w > 0 && 0 <= k && RoundDiv(s, w) < 0
    ensures Dist(s, PageOffset(0, w)) <= Dist(s, PageOffset(k, w))
  {
    RoundDivBounds(s, w);
    var q := RoundDiv(s, w);
    MulLe(q + 1, 0, w);
    assert (q + 1) * w == q * w + w;
    MulLe(0, k, w);
  }

  /** The offset is right of page `n - 1`: the last page is nearest. */
  lemma NearestAbove(s: int, w: int, n: nat, k: int)
    requires w > 0 && 0 <= k < n && RoundDiv(s, w) >= n
    ensures Dist(s, PageOffset(n - 1, w)) <= Dist(s, PageOffset(k, w))
  {
    RoundDivBounds(s, w);
    var q := RoundDiv(s, w);
    MulLe(n, q, w);
    MulLe(k, n - 1, w);
    assert (n - 1) * w == n * w - w;
  }

  /** The offset is within half a page of page `q`: no other page is nearer. */
  lemma NearestWithin(s: int, w: int, q: int, k: int)
    requires w > 0 && q == RoundDiv(s, w)
    ensures Dist(s, PageOffset(q, w)) <= Dist(s, PageOffset(k, w))
  {
    RoundDivBounds(s, w);
    if k > q {
      MulLe(q + 1, k, w);
      assert (q + 1) * w == q * w + w;
    } else if k < q {
      MulLe(k, q - 1, w);
      assert (q - 1) * w == q * w - w;
    }
  }

  /**
   * The page the scroll handler picks is a nearest page to the offset among the
   * pages that exist: no page `k` of the strip starts closer to `s`.
   */
  lemma PageAtIsNearest(s: int, w: int, n: nat, k: int)
    requires w > 0 && 0 <= k < n
    ensures Dist(s, PageOffset(PageAt(s, w, n), w)) <= Dist(s, PageOffset(k, w))
  {
    var q := RoundDiv(s, w);
    if q < 0 {
      NearestBelow(s, w, k);
    } else if q >= n {
      NearestAbove(s, w, n, k);
    } else {
      NearestWithin(s, w, q, k);
    }
  }

  /** Clamping twice is clamping once. */
  lemma ClampIdempotent(i: int, n: nat)
    ensures ClampIndex(ClampIndex(i, n), n) == ClampIndex(i, n)
  {
  }

  /** One step right of the last page, or left of the first, stays put: there is no wraparound. */
  lemma NoWraparound(n: nat)
    requires n > 0
    ensures ClampIndex((n - 1) + 1, n) == n - 1
    ensures ClampIndex(0 - 1, n) == 0
  {
  }

  // ---------------------------------------------------------------------------
  // The drawn view
  // ---------------------------------------------------------------------------

  /** The previous-page arrow is drawn on pointer devices, for more than one image, when not on page 0. */
  predicate PrevArrowShown(isMobile: bool, n: nat, current: int)
    ensures PrevArrowShown(isMobile, n, current) ==> ClampIndex(current - 1, n) < current
  {
    !isMobile && n > 1 && current > 0
  }

  /** The next-page arrow is drawn on pointer devices, for more than one image, when not on the last page. */
  predicate NextArrowShown(isMobile: bool, n: nat, current: int)
    ensures NextArrowShown(isMobile, n, current) ==> ClampIndex(current + 1, n) > current
  {
    !isMobile && n > 1 && current < n - 1
  }

  /**
   * On a pointer device with several images and `current` a page of the strip,
   * an arrow is drawn exactly when the step it performs moves to another page.
   */
  lemma ArrowShownIffItMoves(n: nat, current: int)
    requires n > 1 && 0 <= current < n
    ensures PrevArrowShown(false, n, current) <==> ClampIndex(current - 1, n) != current
    ensures NextArrowShown(false, n, current) <==> ClampIndex(current + 1, n) != current
  {
  }

  /** The page indicator text `${current + 1} / ${images.length}`, empty for a single image. */
  function IndicatorText(n: nat, current: int): (t: string)
    ensures t == "" <==> n <= 1
  {
    if n > 1 then Decimal.IntToString(current + 1) + " / " + Decimal.IntToString(n) else ""
  }

  lemma SeparatorSplit(a: string, b: string, a': string, b': string)
    requires forall k :: 0 <= k < |a| ==> a[k] != ' '
    requires forall k :: 0 <= k < |a'| ==> a'[k] != ' '
    requires a + " / " + b == a' + " / " + b'
    ensures a == a' && b == b'
  {
    var x, y := a + " / " + b, a' + " / " + b';
    assert x[|a|] == ' ' && y[|a'|] == ' ';
    assert forall k :: 0 <= k < |a| ==> x[k] == a[k];
    assert forall k :: 0 <= k < |a'| ==> y[k] == a'[k];
    assert |a| == |a'|;
    assert a == x[..|a|] && a' == y[..|a'|];
    assert b == x[|a| + 3..] && b' == y[|a'| + 3..];
  }

  /** The indicator text determines both the page shown and the number of images. */
  lemma IndicatorDetermines(n: nat, current: int, n': nat, current': int)
    requires n > 1 && n' > 1
    requires IndicatorText(n, current) == IndicatorText(n', current')
    ensures n == n' && current == current'
  {
    SeparatorSplit(Decimal.IntToString(current + 1), Decimal.IntToString(n),
                   Decimal.IntToString(current' + 1), Decimal.IntToString(n'));
    Decimal.IntToStringInjective(current + 1, current' + 1);
    Decimal.IntToStringInjective(n, n');
  }

  /** What the component draws: nothing at all, or the overlay with its strip, indicator and arrows. */
  datatype View =
    | Nothing
    | Overlay(slots: nat, indicator: string, prevArrow: bool, nextArrow: bool)

  /** The render of the component body, including its early `return null`. */
  function Render(visible: bool, n: nat, isMobile: bool, current: int): (v: View)
    ensures v.Nothing? <==> !visible || n == 0
    ensures v.Overlay? ==> v.slots == n && (v.indicator == "" <==> n == 1)
    ensures v.Overlay? ==> (v.prevArrow <==> !isMobile && n > 1 && current > 0)
    ensures v.Overlay? ==> (v.nextArrow <==> !isMobile && n > 1 && current < n - 1)
  {
    if !visible || n == 0 then Nothing
    else Overlay(n, IndicatorText(n, current),
                 PrevArrowShown(isMobile, n, current), NextArrowShown(isMobile, n, current))
  }

  // ---------------------------------------------------------------------------
  // The component's state and its event handlers
  // ---------------------------------------------------------------------------

  datatype Key = Escape | ArrowLeft | ArrowRight | OtherKey(name: string)

  /**
   * Elements that react to a click: the close button, an image's slot, the
   * image itself (whose handler stops the click from reaching the slot), and
   * the two arrows.
   */
  datatype ClickTarget = CloseButton | Slot | Picture | PrevArrow | NextArrow

  /**
   * One mounted `ImagePreviewModal`.  `images`, the page width and the
   * mobile flag are fixed for its lifetime; `visible` and `initialIndex` are
   * the props the parent passes on each render; `current` is the component's
   * state; `scrollLeft` is the strip's scroll offset; `locked` says that the
   * component has set `document.body.style.overflow` to `'hidden'`, and its
   * release restores `''`.  `onClose` is taken to be answered by the parent
   * passing `visible = false`.
   */
  class Carousel {
    const images: seq<string>
    const pageWidth: nat
    const isMobile: bool
    var mounted: bool
    var visible: bool
    var initialIndex: int
    var current: int
    var scrollLeft: int
    var locked: bool

    /** The page lock is held exactly while visible, and no strip means no offset. */
    ghost predicate Valid()
      reads this
    {
      (mounted ==> locked == visible) && (!mounted ==> !locked) && (!Rendered() ==> scrollLeft == 0)
    }

    /** The overlay, and so the strip element, is on the page. */
    predicate Rendered()
      reads this
    {
      mounted && visible && |images| > 0
    }

    function ViewNow(): (v: View)
      reads this
      ensures v.Nothing? <==> !Rendered()
    {
      if mounted then Render(visible, |images|, isMobile, current) else Nothing
    }

    predicate PrevShown()
      reads this
    {
      Rendered() && PrevArrowShown(isMobile, |images|, current)
    }

    predicate NextShown()
      reads this
    {
      Rendered() && NextArrowShown(isMobile, |images|, current)
    }

    /**
     * Mounting: `useState(initialIndex)`, then the effects of the first render:
     * the scroll to the initial page when the strip exists, and the page lock
     * when visible.
     */
    constructor (images: seq<string>, visible: bool, initialIndex: int, pageWidth: nat, isMobile: bool)
      ensures Valid()
      ensures this.images == images && this.pageWidth == pageWidth && this.isMobile == isMobile
      ensures mounted && this.visible == visible && this.initialIndex == initialIndex
      ensures current == initialIndex && locked == visible
      ensures scrollLeft == if visible && |images| > 0 then PageOffset(initialIndex, pageWidth) else 0
    {
      this.images := images;
      this.pageWidth := pageWidth;
      this.isMobile := isMobile;
      mounted := true;
      this.visible := visible;
      this.initialIndex := initialIndex;
      current := initialIndex;
      locked := visible;
      scrollLeft := if visible && |images| > 0 then PageOffset(initialIndex, pageWidth) else 0;
    }

    /**
     * A re-render with new `visible` / `initialIndex` props.  The open effect
     * runs when either changed: if the result is visible and the strip exists,
     * it scrolls to `initialIndex * W` and sets `current := initialIndex`,
     * without clamping.  The lock effect runs when `visible` changed: it takes
     * the lock on becoming visible and releases it on becoming hidden.  A
     * strip that leaves the page takes its offset with it.
     */
    method SetProps(vis: bool, idx: int)
      requires Valid()
      modifies this
      ensures Valid() && mounted == old(mounted)
      ensures !old(mounted) ==> visible == old(visible) && initialIndex == old(initialIndex) &&
                                current == old(current) && scrollLeft == old(scrollLeft) && locked == old(locked)
      ensures old(mounted) ==> visible == vis && initialIndex == idx && locked == vis
      ensures old(mounted) ==>
                var reopened := vis && |images| > 0 && (vis != old(visible) || idx != old(initialIndex));
                current == (if reopened then idx else old(current)) &&
                scrollLeft == (if reopened then PageOffset(idx, pageWidth)
                               else if Rendered() then old(scrollLeft) else 0)
    {
      if !mounted {
        return;
      }
      var changed := vis != visible || idx != initialIndex;
      var lockChanged := vis != visible;
      visible, initialIndex := vis, idx;
      if !Rendered() {
        scrollLeft := 0;
      }
      if changed && visible && |images| > 0 {
        scrollLeft := PageOffset(initialIndex, pageWidth);
        current := initialIndex;
      }
      if lockChanged {
        locked := visible;
      }
    }

    /** The parent shows the carousel at `idx`. */
    method Open(idx: int)
      requires Valid()
      modifies this
      ensures Valid() && mounted == old(mounted)
      ensures old(mounted) ==> visible && locked && initialIndex == idx
      ensures old(mounted) && |images| > 0 && (!old(visible) || idx != old(initialIndex)) ==>
                current == idx && scrollLeft == PageOffset(idx, pageWidth)
      ensures old(mounted) && old(visible) && idx == old(initialIndex) ==>
                current == old(current) && scrollLeft == old(scrollLeft)
      ensures |images| == 0 ==> current == old(current) && scrollLeft == 0
    {
      SetProps(true, idx);
    }

    /** The parent's answer to `onClose`: hidden, lock released, `current` kept for next time. */
    method Close()
      requires Valid()
      modifies this
      ensures Valid() && mounted == old(mounted)
      ensures old(mounted) ==> !visible && !locked && scrollLeft == 0
      ensures current == old(current) && initialIndex == old(initialIndex)
    {
      SetProps(false, initialIndex);
    }

    /** The component leaves the tree; the lock effect's cleanup releases the page. */
    method Unmount()
      requires Valid()
      modifies this
      ensures Valid() && !mounted && !locked
      ensures visible == old(visible) && current == old(current) && initialIndex == old(initialIndex)
    {
      mounted := false;
      locked := false;
      scrollLeft := 0;
    }

    /** `handleScroll`: the page nearest to the strip's offset becomes `current`, when the strip has a width. */
    method OnScroll()
      requires Valid()
      modifies this`current
      ensures Valid()
      ensures Rendered() && pageWidth > 0 ==> current == PageAt(scrollLeft, pageWidth, |images|)
      ensures !(Rendered() && pageWidth > 0) ==> current == old(current)
      ensures Rendered() && pageWidth > 0 ==> 0 <= current < |images|
    {
      if Rendered() && pageWidth > 0 {
        current := PageAt(scrollLeft, pageWidth, |images|);
      }
    }

    /** The user drags or swipes the strip to the offset `s` (the scroll event follows as `OnScroll`). */
    method Drag(s: int)
      requires Valid()
      modifies this`scrollLeft
      ensures Valid()
      ensures scrollLeft == if Rendered() then s else old(scrollLeft)
    {
      if Rendered() {
        scrollLeft := s;
      }
    }

    /**
     * `goTo(index)`: scrolls the strip to the clamped page and leaves `current`
     * to the scroll event; the offset it moves to is always within the strip.
     */
    method GoTo(index: int)
      requires Valid()
      modifies this`scrollLeft
      ensures Valid()
      ensures Rendered() ==> scrollLeft == PageOffset(ClampIndex(index, |images|), pageWidth)
      ensures Rendered() ==> 0 <= scrollLeft <= PageOffset(|images| - 1, pageWidth)
      ensures !Rendered() ==> scrollLeft == old(scrollLeft)
    {
      if Rendered() {
        var clamped := ClampIndex(index, |images|);
        MulLe(0, clamped, pageWidth);
        MulLe(clamped, |images| - 1, pageWidth);
        scrollLeft := PageOffset(clamped, pageWidth);
      }
    }

    /**
     * The document's keydown listener, registered only while visible: Escape
     * closes, the arrow keys step one page, every other key is ignored.
     */
    method KeyDown(k: Key)
      requires Valid()
      modifies this
      ensures Valid() && mounted == old(mounted) && current == old(current) && initialIndex == old(initialIndex)
      ensures !(old(mounted) && old(visible)) || k.OtherKey? ==>
                visible == old(visible) && scrollLeft == old(scrollLeft) && locked == old(locked)
      ensures old(mounted) && old(visible) && k == Escape ==> !visible && !locked
      ensures old(mounted) && old(visible) && k == ArrowLeft ==>
                visible && (Rendered() ==> scrollLeft == PageOffset(ClampIndex(old(current) - 1, |images|), pageWidth))
      ensures old(mounted) && old(visible) && k == ArrowRight ==>
                visible && (Rendered() ==> scrollLeft == PageOffset(ClampIndex(old(current) + 1, |images|), pageWidth))
    {
      if !(mounted && visible) {
        return;
      }
      match k
      case Escape => Close();
      case ArrowLeft => GoTo(current - 1);
      case ArrowRight => GoTo(current + 1);
      case OtherKey(_) =>
    }

    /**
     * A click on the overlay: the close button and an image's slot close;
     * the image's own handler stops the click before the slot sees it; an arrow
     * steps one page and can only be clicked while it is drawn.
     */
    method Click(t: ClickTarget)
      requires Valid()
      modifies this
      ensures Valid() && mounted == old(mounted) && current == old(current) && initialIndex == old(initialIndex)
      ensures old(Rendered()) && (t == CloseButton || t == Slot) ==> !visible && !locked
      ensures !old(Rendered()) || t == Picture ==>
                visible == old(visible) && scrollLeft == old(scrollLeft) && locked == old(locked)
      ensures t == PrevArrow ==>
                visible == old(visible) &&
                scrollLeft == (if old(PrevShown()) then PageOffset(ClampIndex(old(current) - 1, |images|), pageWidth)
                               else old(scrollLeft))
      ensures t == NextArrow ==>
                visible == old(visible) &&
                scrollLeft == (if old(NextShown()) then PageOffset(ClampIndex(old(current) + 1, |images|), pageWidth)
                               else old(scrollLeft))
    {
      if !Rendered() {
        return;
      }
      match t
      case CloseButton => Close();
      case Slot => Close();
      case Picture =>
      case PrevArrow =>
        if PrevShown() {
          GoTo(current - 1);
        }
      case NextArrow =>
        if NextShown() {
          GoTo(current + 1);
        }
    }
  }
  /**
   * A client of the carousel: three images opened at index 1, stepped right
   * twice (the second step is absorbed at the last page), closed with Escape;
   * a single image draws neither arrows nor indicator; no image draws nothing;
   * an out-of-range initial index is shown as given until the strip scrolls.
   */
  method PreviewScenario()
  {
    var c := new Carousel(["a.png", "b.png", "c.png"], false, 0, 390, false);
    c.Open(1);
    assert c.current == 1 && c.scrollLeft == 390 && c.locked;
    c.KeyDown(ArrowRight);
    c.OnScroll();
    assert c.current == 2;
    c.KeyDown(ArrowRight);
    assert c.scrollLeft == 780;
    c.OnScroll();
    assert c.current == 2;
    assert c.PrevShown() && !c.NextShown();
    c.KeyDown(Escape);
    assert !c.visible && !c.locked && c.ViewNow() == Nothing;

    var single := new Carousel(["a.png"], true, 0, 390, false);
    assert single.ViewNow() == Overlay(1, "", false, false);

    var empty := new Carousel([], true, 0, 390, false);
    assert empty.ViewNow() == Nothing;

    var far := new Carousel(["a.png", "b.png", "c.png"], false, 0, 390, false);
    far.Open(5);
    assert far.current == 5 && far.scrollLeft == 1950;
    assert far.PrevShown() && !far.NextShown();
    far.OnScroll();
    assert far.current == 2;
  }
}
